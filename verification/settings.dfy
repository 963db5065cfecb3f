/** School settings: classes and subjects created without a route-level name
    check, deletion of classes and bells, and the bell timetable. */
module SettingsApi {
  import opened Common
  import opened Records
  import opened Deps
  import opened ClassesApi

  /** `create_class` of the settings router: admin only, no name pre-check.
      A name already in use is then refused by the UNIQUE constraint at
      commit, which surfaces as a server error rather than a 400. */
  function CreateClass(st: Store, caller: User, name: string): (r: Result<Store>)
    ensures caller.role != "ADMIN" ==> r == Err(Forbidden)
    ensures caller.role == "ADMIN" && (exists j :: 0 <= j < |st.classes| && st.classes[j].name == name)
            ==> r == Err(UniqueViolation)
    ensures r.Ok? <==> caller.role == "ADMIN" && forall j :: 0 <= j < |st.classes| ==> st.classes[j].name != name
    ensures r.Ok? ==> r == ClassesApi.CreateClass(st, caller, name)
  {
    if AllowAdmin(caller).Err? then Err(Forbidden)
    else if First(st.classes, (c: ClassGroup) => c.name == name).Some? then Err(UniqueViolation)
    else Ok(st.(classes := st.classes + [ClassGroup(NewClassId(st.classes), name)]))
  }

  /** The two class-creating routes differ only in how a taken name is refused. */
  lemma CreateClassRoutesAgree(st: Store, caller: User, name: string)
    ensures ClassesApi.CreateClass(st, caller, name).Ok? <==> CreateClass(st, caller, name).Ok?
    ensures ClassesApi.CreateClass(st, caller, name) == Err(DuplicateClassName)
            <==> CreateClass(st, caller, name) == Err(UniqueViolation)
    ensures Status(DuplicateClassName) == 400 && Status(UniqueViolation) == 500
  {
  }

  /** `create_subject`: admin only, no name pre-check; the UNIQUE constraint
      on the subject name refuses a duplicate at commit. */
  function CreateSubject(st: Store, caller: User, name: string): (r: Result<Store>)
    ensures caller.role != "ADMIN" ==> r == Err(Forbidden)
    ensures caller.role == "ADMIN" && (exists j :: 0 <= j < |st.subjects| && st.subjects[j].name == name)
            ==> r == Err(UniqueViolation)
    ensures r.Ok? <==> caller.role == "ADMIN" && forall j :: 0 <= j < |st.subjects| ==> st.subjects[j].name != name
    ensures r.Ok? ==>
              && r.value == st.(subjects := r.value.subjects)
              && |r.value.subjects| == |st.subjects| + 1
              && r.value.subjects[..|st.subjects|] == st.subjects
              && r.value.subjects[|st.subjects|].name == name
              && forall j :: 0 <= j < |st.subjects| ==> st.subjects[j].id != r.value.subjects[|st.subjects|].id
  {
    if AllowAdmin(caller).Err? then Err(Forbidden)
    else if First(st.subjects, (s: Subject) => s.name == name).Some? then Err(UniqueViolation)
    else
      var added := st.subjects + [Subject(NewSubjectId(st.subjects), name)];
      assert added[..|st.subjects|] == st.subjects;
      Ok(st.(subjects := added))
  }

  /** No two subjects share a name, as the UNIQUE constraint on the column demands. */
  ghost predicate UniqueSubjectNames(subjects: seq<Subject>)
  {
    KeysDistinct(subjects, (s: Subject) => s.name)
  }

  lemma CreateSubjectKeepsNamesUnique(st: Store, caller: User, name: string)
    requires UniqueSubjectNames(st.subjects) && CreateSubject(st, caller, name).Ok?
    ensures UniqueSubjectNames(CreateSubject(st, caller, name).value.subjects)
  {
    var s := CreateSubject(st, caller, name).value.subjects;
    forall i, j | 0 <= i < j < |s| ensures s[i].name != s[j].name {
      if j < |st.subjects| {
        assert s[i] == st.subjects[i] && s[j] == st.subjects[j];
      } else {
        assert s[i] == st.subjects[i];
      }
    }
  }

  ghost predicate UniqueClassIds(classes: seq<ClassGroup>)
  {
    KeysDistinct(classes, (c: ClassGroup) => c.id)
  }

  /** `delete_class`: admin only; an absent id is answered ok with nothing
      changed; a present one is removed and everything else kept in order. */
  function DeleteClass(st: Store, caller: User, id: int): (r: Result<Store>)
    ensures r.Err? <==> caller.role != "ADMIN"
    ensures r.Err? ==> r.error == Forbidden
    ensures r.Ok? && ClassAt(st.classes, id).None? ==> r.value == st
    ensures r.Ok? && ClassAt(st.classes, id).Some? ==>
              var i := ClassAt(st.classes, id).value;
              && r.value == st.(classes := r.value.classes)
              && multiset(r.value.classes) + multiset{st.classes[i]} == multiset(st.classes)
              && r.value.classes == st.classes[..i] + st.classes[i + 1..]
  {
    if AllowAdmin(caller).Err? then Err(Forbidden)
    else match ClassAt(st.classes, id)
      case None => Ok(st)
      case Some(i) => Ok(st.(classes := RemoveAt(st.classes, i)))
  }

  /** With unique keys, a deleted class is gone, and deleting it again changes nothing. */
  lemma DeleteClassRemovesIt(st: Store, caller: User, id: int)
    requires UniqueClassIds(st.classes) && caller.role == "ADMIN"
    ensures ClassAt(DeleteClass(st, caller, id).value.classes, id).None?
    ensures DeleteClass(DeleteClass(st, caller, id).value, caller, id) == DeleteClass(st, caller, id)
  {
    match ClassAt(st.classes, id)
    case None =>
    case Some(i) =>
      var c := DeleteClass(st, caller, id).value.classes;
      forall j | 0 <= j < |c| ensures c[j].id != id {
        if j < i {
          assert c[j] == st.classes[j];
        } else {
          assert c[j] == st.classes[j + 1];
        }
      }
  }

  /* ---------- Bells ---------- */

  datatype BellCreate = BellCreate(order: int, startTime: string, endTime: string)

  /** No two bells share a lesson number, as the UNIQUE constraint on `order` demands. */
  ghost predicate UniqueOrders(bells: seq<Bell>)
  {
    KeysDistinct(bells, (b: Bell) => b.order)
  }

  ghost predicate UniqueBellIds(bells: seq<Bell>)
  {
    KeysDistinct(bells, (b: Bell) => b.id)
  }

  /** `create_bell`: admin only; a lesson number in use is refused with 400;
      otherwise the bell is appended. */
  function CreateBell(st: Store, caller: User, req: BellCreate): (r: Result<Store>)
    ensures caller.role != "ADMIN" ==> r == Err(Forbidden)
    ensures caller.role == "ADMIN" && (exists j :: 0 <= j < |st.bells| && st.bells[j].order == req.order)
            ==> r == Err(DuplicateBellOrder)
    ensures r.Ok? <==> caller.role == "ADMIN" && forall j :: 0 <= j < |st.bells| ==> st.bells[j].order != req.order
    ensures r.Ok? ==>
              && r.value == st.(bells := r.value.bells)
              && |r.value.bells| == |st.bells| + 1
              && r.value.bells[..|st.bells|] == st.bells
              && var b := r.value.bells[|st.bells|];
                 b.order == req.order && b.startTime == req.startTime && b.endTime == req.endTime
                 && forall j :: 0 <= j < |st.bells| ==> st.bells[j].id != b.id
  {
    if AllowAdmin(caller).Err? then Err(Forbidden)
    else if First(st.bells, (b: Bell) => b.order == req.order).Some? then Err(DuplicateBellOrder)
    else
      var added := st.bells + [Bell(NewBellId(st.bells), req.order, req.startTime, req.endTime)];
      assert added[..|st.bells|] == st.bells;
      Ok(st.(bells := added))
  }

  lemma CreateBellKeepsOrdersUnique(st: Store, caller: User, req: BellCreate)
    requires UniqueOrders(st.bells)
    requires CreateBell(st, caller, req).Ok?
    ensures UniqueOrders(CreateBell(st, caller, req).value.bells)
  {
    var b := CreateBell(st, caller, req).value.bells;
    forall i, j | 0 <= i < j < |b| ensures b[i].order != b[j].order {
      if j < |st.bells| {
        assert b[i] == st.bells[i] && b[j] == st.bells[j];
      } else {
        assert b[i] == st.bells[i];
      }
    }
  }

  /** `delete_bell`: as `delete_class`, for bells. */
  function DeleteBell(st: Store, caller: User, id: int): (r: Result<Store>)
    ensures r.Err? <==> caller.role != "ADMIN"
    ensures r.Err? ==> r.error == Forbidden
    ensures r.Ok? && BellAt(st.bells, id).None? ==> r.value == st
    ensures r.Ok? && BellAt(st.bells, id).Some? ==>
              var i := BellAt(st.bells, id).value;
              && r.value == st.(bells := r.value.bells)
              && multiset(r.value.bells) + multiset{st.bells[i]} == multiset(st.bells)
              && r.value.bells == st.bells[..i] + st.bells[i + 1..]
  {
    if AllowAdmin(caller).Err? then Err(Forbidden)
    else match BellAt(st.bells, id)
      case None => Ok(st)
      case Some(i) => Ok(st.(bells := RemoveAt(st.bells, i)))
  }

  lemma DeleteBellRemovesIt(st: Store, caller: User, id: int)
    requires UniqueBellIds(st.bells) && caller.role == "ADMIN"
    ensures BellAt(DeleteBell(st, caller, id).value.bells, id).None?
    ensures DeleteBell(DeleteBell(st, caller, id).value, caller, id) == DeleteBell(st, caller, id)
  {
    match BellAt(st.bells, id)
    case None =>
    case Some(i) =>
      var b := DeleteBell(st, caller, id).value.bells;
      forall j | 0 <= j < |b| ensures b[j].id != id {
        if j < i {
          assert b[j] == st.bells[j];
        } else {
          assert b[j] == st.bells[j + 1];
        }
      }
  }

  /** Ascending by lesson number. */
  ghost predicate OrderSorted(s: seq<Bell>)
  {
    forall i, j :: 0 <= i < j < |s| ==> s[i].order <= s[j].order
  }

  /** A bell no later than every bell of a sorted list may go in front of it. */
  lemma ConsOrderSorted(y: Bell, t: seq<Bell>)
    requires OrderSorted(t)
    requires forall z :: z in t ==> y.order <= z.order
    ensures OrderSorted([y] + t)
  {
    var r := [y] + t;
    forall i, j | 0 <= i < j < |r| ensures r[i].order <= r[j].order {
      if i == 0 {
        assert r[j] == t[j - 1] && r[j] in t;
      } else {
        assert r[i] == t[i - 1] && r[j] == t[j - 1];
      }
    }
  }

  /** The head of a sorted list is no later than anything after an insertion into its tail. */
  lemma OrderAboveHead(x: Bell, s: seq<Bell>, rest: seq<Bell>)
    requires OrderSorted(s) && |s| > 0 && s[0].order < x.order
    requires multiset(rest) == multiset(s[1..]) + multiset{x}
    ensures forall z :: z in rest ==> s[0].order <= z.order
  {
    forall z | z in rest ensures s[0].order <= z.order {
      assert z in multiset(rest);
      if z != x {
        assert z in multiset(s[1..]);
        var k :| 0 <= k < |s[1..]| && s[1..][k] == z;
        assert s[k + 1] == z;
      }
    }
  }

  function InsertByOrder(x: Bell, s: seq<Bell>): (r: seq<Bell>)
    requires OrderSorted(s)
    ensures OrderSorted(r)
    ensures multiset(r) == multiset(s) + multiset{x}
    ensures |r| == |s| + 1
  {
    if |s| == 0 then [x]
    else if x.order <= s[0].order then
      assert forall z :: z in s ==> x.order <= z.order;
      ConsOrderSorted(x, s);
      [x] + s
    else
      var rest := InsertByOrder(x, s[1..]);
      OrderAboveHead(x, s, rest);
      ConsOrderSorted(s[0], rest);
      assert s == [s[0]] + s[1..];
      [s[0]] + rest
  }

  /** `get_bells`: every bell, ascending by lesson number (no role check). */
  function GetBells(st: Store): (r: seq<Bell>)
    ensures OrderSorted(r)
    ensures multiset(r) == multiset(st.bells)
  {
    SortBells(st.bells)
  }

  function SortBells(s: seq<Bell>): (r: seq<Bell>)
    ensures OrderSorted(r)
    ensures multiset(r) == multiset(s)
  {
    if |s| == 0 then []
    else
      assert s == [s[0]] + s[1..];
      InsertByOrder(s[0], SortBells(s[1..]))
  }

  /** With unique lesson numbers the timetable is strictly ascending. */
  lemma BellsStrictlyAscending(st: Store)
    requires UniqueOrders(st.bells)
    ensures forall i, j :: 0 <= i < j < |GetBells(st)| ==> GetBells(st)[i].order < GetBells(st)[j].order
  {
    var r := GetBells(st);
    forall i, j | 0 <= i < j < |r| ensures r[i].order < r[j].order {
      if r[i].order == r[j].order {
        assert r[i] in multiset(st.bells) && r[j] in multiset(st.bells);
        SameOrderSameBell(st.bells, r[i], r[j]);
        OccursTwice(r, i, j);
        OccursOnce(st.bells, r[i]);
        assert false;
      }
    }
  }

  /** Under unique lesson numbers a lesson number identifies the bell. */
  lemma SameOrderSameBell(bells: seq<Bell>, x: Bell, y: Bell)
    requires UniqueOrders(bells) && x in bells && y in bells && x.order == y.order
    ensures x == y
  {
    var a :| 0 <= a < |bells| && bells[a] == x;
    var b :| 0 <= b < |bells| && bells[b] == y;
  }

  lemma OccursTwice(r: seq<Bell>, i: int, j: int)
    requires 0 <= i < j < |r| && r[i] == r[j]
    ensures multiset(r)[r[i]] >= 2
  {
    var x := r[i];
    assert r == r[..i] + [x] + r[i + 1..j] + [x] + r[j + 1..];
  }

  lemma OccursOnce(bells: seq<Bell>, x: Bell)
    requires UniqueOrders(bells) && x in bells
    ensures multiset(bells)[x] == 1
  {
    var a :| 0 <= a < |bells| && bells[a] == x;
    assert bells == bells[..a] + [x] + bells[a + 1..];
    assert x !in bells[..a] by {
      forall k | 0 <= k < a ensures bells[k] != x {
        assert bells[k].order != bells[a].order;
      }
    }
    assert x !in bells[a + 1..] by {
      forall k | a < k < |bells| ensures bells[k] != x {
        assert bells[a].order != bells[k].order;
      }
    }
    assert multiset(bells[..a])[x] == 0 && multiset(bells[a + 1..])[x] == 0;
  }
}
