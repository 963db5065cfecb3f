/** Shared vocabulary of the back-end model: optional values, endpoint results,
    the error kinds the endpoints raise, Python truthiness of query parameters,
    and the query primitives (filter, first match, upsert, fresh primary key)
    that every endpoint is assembled from. */
module Common {

  datatype Option<+T> = None | Some(value: T)

  /** What a `db.get(...)` or query found missing; the source raises a 404 for each. */
  datatype Missing =
    | ClassOrSubject     // schedule item: class or subject absent
    | StudentRecord      // attendance mark, transfer: student absent
    | TargetClass        // transfer: destination class absent
    | ClassRecord        // bulk upload: class absent
    | Lesson             // schedule item delete: item absent
    | UserRecord         // user update: user absent

  /** The HTTP errors the endpoints raise, one constructor per distinct cause.
      Conflict errors carry what the source's message names. */
  datatype Error =
    | Unauthorized                     // credentials could not be validated
    | Forbidden                        // role not admitted by the route's role checker
    | NotFound(what: Missing)
    | InvalidRole                      // schedule teacher absent or not a TEACHER
    | RoomConflict(room: string)
    | TeacherConflict(email: string)
    | ClassConflict(className: string)
    | NotToday
    | NoLessonToday
    | LessonNotStarted
    | DuplicateClassName
    | DuplicateBellOrder
    | EmailTaken
    | WrongOldPassword
    | UniqueViolation                  // a UNIQUE column constraint refused the commit

  /** The HTTP status code each error is reported with. */
  function Status(e: Error): int
  {
    match e
    case Unauthorized => 401
    case Forbidden => 403
    case NotFound(_) => 404
    case NoLessonToday => 403
    case UniqueViolation => 500
    case _ => 400
  }

  datatype Result<+T> = Ok(value: T) | Err(error: Error)

  /** Python truthiness of an optional integer query parameter: `None` and `0` are falsy. */
  predicate IntGiven(o: Option<int>)
  {
    o.Some? && o.value != 0
  }

  /** Python truthiness of an optional string: `None` and `""` are falsy. */
  predicate StrGiven(o: Option<string>)
  {
    o.Some? && o.value != ""
  }

  /** A query's `WHERE` clause: the records of `s` satisfying `p`, in store order. */
  function Filter<T(!new)>(s: seq<T>, p: T -> bool): (r: seq<T>)
    ensures |r| <= |s|
    ensures forall x :: x in r <==> x in s && p(x)
    ensures forall i :: 0 <= i < |r| ==> p(r[i])
    ensures (forall i :: 0 <= i < |s| ==> p(s[i])) ==> r == s
  {
    if |s| == 0 then []
    else if p(s[0]) then [s[0]] + Filter(s[1..], p)
    else Filter(s[1..], p)
  }

  /** Filtering a store extended by one record filters the prefix and keeps
      the new record exactly when it matches. */
  lemma {:induction false} FilterSnoc<T(!new)>(s: seq<T>, x: T, p: T -> bool)
    ensures Filter(s + [x], p) == Filter(s, p) + (if p(x) then [x] else [])
    decreases |s|
  {
    if |s| == 0 {
      assert s + [x] == [x];
    } else {
      assert (s + [x])[1..] == s[1..] + [x];
      FilterSnoc(s[1..], x, p);
    }
  }

  /** Filtering a concatenation filters each part. */
  lemma {:induction false} FilterAppend<T(!new)>(a: seq<T>, b: seq<T>, p: T -> bool)
    ensures Filter(a + b, p) == Filter(a, p) + Filter(b, p)
    decreases |a|
  {
    if |a| == 0 {
      assert a + b == b;
    } else {
      assert (a + b)[0] == a[0] && (a + b)[1..] == a[1..] + b;
      FilterAppend(a[1..], b, p);
    }
  }

  /** Filters by pointwise equal conditions agree. */
  lemma {:induction false} FilterSame<T(!new)>(s: seq<T>, p: T -> bool, q: T -> bool)
    requires forall x :: p(x) == q(x)
    ensures Filter(s, p) == Filter(s, q)
    decreases |s|
  {
    if |s| > 0 {
      FilterSame(s[1..], p, q);
    }
  }

  /** Two `WHERE` clauses applied in turn select what their conjunction selects, in the same order. */
  lemma {:induction false} FilterTwice<T(!new)>(s: seq<T>, p: T -> bool, q: T -> bool, both: T -> bool)
    requires forall x :: both(x) == (p(x) && q(x))
    ensures Filter(Filter(s, p), q) == Filter(s, both)
    decreases |s|
  {
    if |s| > 0 {
      FilterTwice(s[1..], p, q, both);
      if p(s[0]) {
        assert ([s[0]] + Filter(s[1..], p))[1..] == Filter(s[1..], p);
      }
    }
  }

  /** A query narrowed by a condition only when that condition's parameter is given. */
  lemma FilterStage<T(!new)>(s: seq<T>, p: T -> bool, given: bool, q: T -> bool, next: T -> bool)
    requires forall x :: next(x) == (p(x) && (given ==> q(x)))
    ensures (if given then Filter(Filter(s, p), q) else Filter(s, p)) == Filter(s, next)
  {
    if given {
      FilterTwice(s, p, q, next);
    } else {
      FilterSame(s, p, next);
    }
  }

  /** A query narrowed by `q` only when `given`, as an `if param: query = query.filter(...)` step does. */
  function Narrow<T(!new)>(s: seq<T>, given: bool, q: T -> bool): seq<T>
  {
    if given then Filter(s, q) else s
  }

  /** Four optional narrowing steps in a row are one query by the conjunction of the steps in force. */
  lemma NarrowFour<T(!new)>(s: seq<T>, g0: bool, q0: T -> bool, g1: bool, q1: T -> bool,
                            g2: bool, q2: T -> bool, g3: bool, q3: T -> bool, all: T -> bool)
    requires forall x :: all(x) == ((g0 ==> q0(x)) && (g1 ==> q1(x)) && (g2 ==> q2(x)) && (g3 ==> q3(x)))
    ensures Narrow(Narrow(Narrow(Narrow(s, g0, q0), g1, q1), g2, q2), g3, q3) == Filter(s, all)
  {
    var a0 := (x: T) => g0 ==> q0(x);
    var a1 := (x: T) => (g0 ==> q0(x)) && (g1 ==> q1(x));
    var a2 := (x: T) => (g0 ==> q0(x)) && (g1 ==> q1(x)) && (g2 ==> q2(x));
    if g0 {
      FilterSame(s, q0, a0);
    }
    FilterStage(s, a0, g1, q1, a1);
    FilterStage(s, a1, g2, q2, a2);
    FilterStage(s, a2, g3, q3, all);
  }

  /** Records matching two mutually exclusive conditions are at most all records. */
  lemma {:induction false} FilterDisjoint<T(!new)>(s: seq<T>, p: T -> bool, q: T -> bool)
    requires forall i :: 0 <= i < |s| ==> !(p(s[i]) && q(s[i]))
    ensures |Filter(s, p)| + |Filter(s, q)| <= |s|
    decreases |s|
  {
    if |s| > 0 {
      FilterDisjoint(s[1..], p, q);
    }
  }

  /** `.scalars().first()`: the index of the first record satisfying `p`. */
  function FirstIndex<T>(s: seq<T>, p: T -> bool): (r: Option<nat>)
    ensures r.Some? ==> r.value < |s| && p(s[r.value])
    ensures r.Some? ==> forall j :: 0 <= j < r.value ==> !p(s[j])
    ensures r.None? <==> forall j :: 0 <= j < |s| ==> !p(s[j])
  {
    if |s| == 0 then None
    else if p(s[0]) then Some(0)
    else match FirstIndex(s[1..], p)
      case None => None
      case Some(i) => Some(i + 1)
  }

  /** The first record satisfying `p`, if any. */
  function First<T>(s: seq<T>, p: T -> bool): (r: Option<T>)
    ensures r.Some? ==> exists i :: 0 <= i < |s| && s[i] == r.value && p(s[i])
                                    && forall j :: 0 <= j < i ==> !p(s[j])
    ensures r.None? <==> forall j :: 0 <= j < |s| ==> !p(s[j])
  {
    match FirstIndex(s, p)
    case None => None
    case Some(i) => Some(s[i])
  }

  /** Look up by natural key; overwrite the first match with `update`, or append `added`. */
  function Upsert<T>(s: seq<T>, key: T -> bool, update: T -> T, added: T): (r: seq<T>)
    ensures FirstIndex(s, key).Some? ==>
              var i := FirstIndex(s, key).value;
              |r| == |s| && r[i] == update(s[i]) && forall j :: 0 <= j < |s| && j != i ==> r[j] == s[j]
    ensures FirstIndex(s, key).None? ==>
              |r| == |s| + 1 && r[|s|] == added && forall j :: 0 <= j < |s| ==> r[j] == s[j]
  {
    match FirstIndex(s, key)
    case Some(i) => s[i := update(s[i])]
    case None => s + [added]
  }

  /** After an upsert whose update and added record keep the key, the first
      record with the key sits where the old one was, or at the end. */
  lemma UpsertLocates<T>(s: seq<T>, key: T -> bool, update: T -> T, added: T)
    requires key(added)
    requires FirstIndex(s, key).Some? ==> key(update(s[FirstIndex(s, key).value]))
    ensures FirstIndex(s, key).Some? ==> FirstIndex(Upsert(s, key, update, added), key) == FirstIndex(s, key)
    ensures FirstIndex(s, key).None? ==> FirstIndex(Upsert(s, key, update, added), key) == Some(|s|)
  {
    var r := Upsert(s, key, update, added);
    match FirstIndex(s, key)
    case Some(i) =>
      assert forall j :: 0 <= j < i ==> r[j] == s[j];
      FirstIndexIs(r, key, i);
    case None =>
      assert forall j :: 0 <= j < |s| ==> r[j] == s[j];
      FirstIndexIs(r, key, |s|);
  }

  /** Upserting the same record twice is upserting it once, provided the
      update keeps the key and sets the same fields however often it runs. */
  lemma UpsertIdempotent<T>(s: seq<T>, key: T -> bool, update: T -> T, added: T)
    requires key(added) && update(added) == added
    requires forall x :: key(x) ==> key(update(x)) && update(update(x)) == update(x)
    ensures Upsert(Upsert(s, key, update, added), key, update, added) == Upsert(s, key, update, added)
  {
    UpsertLocates(s, key, update, added);
  }

  /** An index at which `p` holds, with no earlier match, is the first index. */
  lemma {:induction false} FirstIndexIs<T>(s: seq<T>, p: T -> bool, i: nat)
    requires i < |s| && p(s[i])
    requires forall j :: 0 <= j < i ==> !p(s[j])
    ensures FirstIndex(s, p) == Some(i)
    decreases i
  {
    if i > 0 {
      assert !p(s[0]);
      FirstIndexIs(s[1..], p, i - 1);
    }
  }

  /** No two records of `s` share a key, as a UNIQUE or primary-key column guarantees. */
  ghost predicate KeysDistinct<T, K>(s: seq<T>, key: T -> K)
  {
    forall i, j :: 0 <= i < j < |s| ==> key(s[i]) != key(s[j])
  }

  /** The primary key the database hands the next inserted row of a table:
      larger than every key in use. */
  function FreshKey<T>(s: seq<T>, key: T -> int): (r: int)
    ensures r >= 1
    ensures forall j :: 0 <= j < |s| ==> key(s[j]) < r
  {
    if |s| == 0 then 1
    else
      var rest := FreshKey(s[..|s| - 1], key);
      var last := key(s[|s| - 1]) + 1;
      if rest < last then last else rest
  }

  /** Removes the element at index `i`, keeping the order of the others. */
  function RemoveAt<T>(s: seq<T>, i: nat): (r: seq<T>)
    requires i < |s|
    ensures |r| == |s| - 1
    ensures forall j :: 0 <= j < i ==> r[j] == s[j]
    ensures forall j :: i <= j < |r| ==> r[j] == s[j + 1]
    ensures multiset(r) + multiset{s[i]} == multiset(s)
  {
    assert s == s[..i] + [s[i]] + s[i + 1..];
    s[..i] + s[i + 1..]
  }
}
