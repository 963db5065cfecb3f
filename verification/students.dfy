/** Student administration: single create, bulk upload of names into one
    class, the (optionally class-filtered) list, and transfer between classes. */
module StudentsApi {
  import opened Common
  import opened Records
  import opened Deps
  import opened Roster

  datatype StudentCreate = StudentCreate(fullName: string, classGroupId: int)

  /** Every student key occurs once. */
  ghost predicate UniqueIds(students: seq<Student>)
  {
    KeysDistinct(students, (s: Student) => s.id)
  }

  /** `create_student`: admin only; appends the student without checking that the class exists. */
  function CreateStudent(st: Store, caller: User, req: StudentCreate): (r: Result<Store>)
    ensures r.Err? <==> caller.role != "ADMIN"
    ensures r.Err? ==> r.error == Forbidden
    ensures r.Ok? ==>
              && r.value == st.(students := r.value.students)
              && |r.value.students| == |st.students| + 1
              && r.value.students[..|st.students|] == st.students
              && var x := r.value.students[|st.students|];
                 x.fullName == req.fullName && x.classGroupId == req.classGroupId
                 && forall j :: 0 <= j < |st.students| ==> st.students[j].id < x.id
  {
    if AllowAdmin(caller).Err? then Err(Forbidden)
    else
      var x := Student(NewStudentId(st.students), req.fullName, req.classGroupId);
      assert (st.students + [x])[..|st.students|] == st.students;
      Ok(st.(students := st.students + [x]))
  }

  lemma CreateStudentKeepsIdsUnique(st: Store, caller: User, req: StudentCreate)
    requires UniqueIds(st.students) && CreateStudent(st, caller, req).Ok?
    ensures UniqueIds(CreateStudent(st, caller, req).value.students)
  {
    var s := CreateStudent(st, caller, req).value.students;
    forall i, j | 0 <= i < j < |s| ensures s[i].id != s[j].id {
      if j < |st.students| {
        assert s[i] == st.students[i] && s[j] == st.students[j];
      } else {
        assert s[i] == st.students[i];
      }
    }
  }

  /** The names the upload adds: the first cell of each row, when truthy, in row order. */
  function UploadNames(cells: seq<Option<string>>): (r: seq<string>)
    ensures |r| <= |cells|
    ensures forall i :: 0 <= i < |r| ==> r[i] != ""
  {
    if |cells| == 0 then []
    else
      var last := cells[|cells| - 1];
      UploadNames(cells[..|cells| - 1]) + (if StrGiven(last) then [last.value] else [])
  }

  /** The names added are the truthy cells, in row order, one per cell: blank
      rows are skipped wherever they occur. */
  lemma {:induction false} UploadNamesAreGivenCells(cells: seq<Option<string>>)
    ensures |UploadNames(cells)| == |Filter(cells, StrGiven)|
    ensures forall k :: 0 <= k < |UploadNames(cells)| ==> UploadNames(cells)[k] == Filter(cells, StrGiven)[k].value
    decreases |cells|
  {
    if |cells| > 0 {
      var n := |cells| - 1;
      assert cells == cells[..n] + [cells[n]];
      FilterSnoc(cells[..n], cells[n], StrGiven);
      UploadNamesAreGivenCells(cells[..n]);
    }
  }

  /** Reading two runs of rows one after the other adds the names of each, in order. */
  lemma {:induction false} UploadNamesAppend(a: seq<Option<string>>, b: seq<Option<string>>)
    ensures UploadNames(a + b) == UploadNames(a) + UploadNames(b)
    decreases |b|
  {
    if |b| == 0 {
      assert a + b == a;
    } else {
      var n := |b| - 1;
      assert (a + b)[..|a + b| - 1] == a + b[..n] && (a + b)[|a + b| - 1] == b[n];
      UploadNamesAppend(a, b[..n]);
    }
  }

  /** The students an upload appends, all of the target class, join that
      class's roster after its existing students, in row order. */
  lemma UploadJoinsRoster(before: seq<Student>, newcomers: seq<Student>, classId: int)
    requires forall k :: 0 <= k < |newcomers| ==> newcomers[k].classGroupId == classId
    ensures Filter(before + newcomers, InClass(classId)) == Filter(before, InClass(classId)) + newcomers
  {
    FilterAppend(before, newcomers, InClass(classId));
  }

  /** The outcome of an upload: the new store and the count the message reports. */
  datatype Upload = Upload(store: Store, count: nat, className: string)

  /** The loop over the rows: one new student of the class per truthy first
      cell, each under the key the database hands out next. */
  method NewRows(existing: seq<Student>, classId: int, cells: seq<Option<string>>)
    returns (newcomers: seq<Student>)
    ensures |newcomers| == |UploadNames(cells)|
    ensures forall k :: 0 <= k < |newcomers| ==>
              newcomers[k].fullName == UploadNames(cells)[k] && newcomers[k].classGroupId == classId
    ensures UniqueIds(existing) ==> UniqueIds(existing + newcomers)
  {
    newcomers := [];
    var i := 0;
    while i < |cells|
      invariant 0 <= i <= |cells|
      invariant |newcomers| == |UploadNames(cells[..i])|
      invariant forall k :: 0 <= k < |newcomers| ==>
                  newcomers[k].fullName == UploadNames(cells[..i])[k] && newcomers[k].classGroupId == classId
      invariant UniqueIds(existing) ==> UniqueIds(existing + newcomers)
    {
      var fullName := cells[i];
      assert cells[..i + 1][..i] == cells[..i] && cells[..i + 1][i] == fullName;
      if StrGiven(fullName) {
        var x := Student(NewStudentId(existing + newcomers), fullName.value, classId);
        assert existing + (newcomers + [x]) == (existing + newcomers) + [x];
        newcomers := newcomers + [x];
      }
      i := i + 1;
    }
    assert cells[..i] == cells;
  }

  /** `upload_students_excel`: admin only; the class must exist; then one new
      student of that class per truthy first cell. The workbook is given as
      the sequence of its first-column cells. */
  method UploadStudents(st: Store, caller: User, classId: int, cells: seq<Option<string>>)
    returns (r: Result<Upload>)
    ensures caller.role != "ADMIN" ==> r == Err(Forbidden)
    ensures caller.role == "ADMIN" && ClassAt(st.classes, classId).None? ==> r == Err(NotFound(ClassRecord))
    ensures r.Ok? <==> caller.role == "ADMIN" && ClassAt(st.classes, classId).Some?
    ensures r.Ok? ==>
              var names := UploadNames(cells);
              var added := r.value.store.students;
              && r.value.store == st.(students := added)
              && r.value.count == |names| == |Filter(cells, StrGiven)|
              && |added| == |st.students| + |names|
              && added[..|st.students|] == st.students
              && (forall k :: 0 <= k < |names| ==>
                    added[|st.students| + k].fullName == names[k]
                    && added[|st.students| + k].classGroupId == classId)
              && (UniqueIds(st.students) ==> UniqueIds(added))
    ensures r.Ok? ==>
              var added := r.value.store.students;
              Filter(added, InClass(classId)) == Filter(st.students, InClass(classId)) + added[|st.students|..]
  {
    if AllowAdmin(caller).Err? {
      return Err(Forbidden);
    }
    var found := ClassAt(st.classes, classId);
    if found.None? {
      return Err(NotFound(ClassRecord));
    }
    var className := st.classes[found.value].name;
    var newcomers := NewRows(st.students, classId, cells);
    var students := st.students + newcomers;
    assert students[..|st.students|] == st.students && students[|st.students|..] == newcomers;
    UploadJoinsRoster(st.students, newcomers, classId);
    UploadNamesAreGivenCells(cells);
    return Ok(Upload(st.(students := students), |newcomers|, className));
  }

  /** `get_students`: with a truthy class id, that class's students; otherwise all, in store order. */
  function GetStudents(st: Store, classId: Option<int>): (r: seq<Student>)
    ensures forall x :: x in r <==> x in st.students && (IntGiven(classId) ==> x.classGroupId == classId.value)
    ensures !IntGiven(classId) ==> r == st.students
  {
    if IntGiven(classId) then Filter(st.students, InClass(classId.value)) else st.students
  }

  /** The filtered list holds the same students as the class roster, only in
      store order rather than by name. */
  lemma ListMatchesRoster(st: Store, classId: int)
    requires classId != 0
    ensures multiset(GetStudents(st, Some(classId))) == multiset(ClassRoster(st.students, classId))
  {
  }

  /** Class id 0 is falsy, so asking for class 0 lists every student. */
  lemma ClassZeroListsAll(st: Store)
    ensures GetStudents(st, Some(0)) == st.students
  {
  }

  /** `transfer_student`: admin only; the student must exist, then the target
      class; only that student's class changes. */
  function TransferStudent(st: Store, caller: User, studentId: int, newClassId: int): (r: Result<Store>)
    ensures caller.role != "ADMIN" ==> r == Err(Forbidden)
    ensures caller.role == "ADMIN" && StudentAt(st.students, studentId).None? ==> r == Err(NotFound(StudentRecord))
    ensures caller.role == "ADMIN" && StudentAt(st.students, studentId).Some? && ClassAt(st.classes, newClassId).None?
            ==> r == Err(NotFound(TargetClass))
    ensures r.Ok? <==> caller.role == "ADMIN" && StudentAt(st.students, studentId).Some? && ClassAt(st.classes, newClassId).Some?
    ensures r.Ok? ==>
              var i := StudentAt(st.students, studentId).value;
              var s := r.value.students;
              && r.value == st.(students := s)
              && |s| == |st.students|
              && s[i] == st.students[i].(classGroupId := newClassId)
              && forall j :: 0 <= j < |s| && j != i ==> s[j] == st.students[j]
  {
    if AllowAdmin(caller).Err? then Err(Forbidden)
    else match StudentAt(st.students, studentId)
      case None => Err(NotFound(StudentRecord))
      case Some(i) =>
        if ClassAt(st.classes, newClassId).None? then Err(NotFound(TargetClass))
        else Ok(st.(students := st.students[i := st.students[i].(classGroupId := newClassId)]))
  }

  /** After a transfer the student is on the target class's roster and on no
      other class's roster under that record. */
  lemma TransferMovesRosters(st: Store, caller: User, studentId: int, newClassId: int, otherClassId: int)
    requires TransferStudent(st, caller, studentId, newClassId).Ok?
    requires otherClassId != newClassId
    ensures var s := TransferStudent(st, caller, studentId, newClassId).value.students;
            var moved := s[StudentAt(st.students, studentId).value];
            moved.id == studentId
            && moved in ClassRoster(s, newClassId)
            && moved !in ClassRoster(s, otherClassId)
  {
  }
}
