/** The weekly timetable (`/schedule`): admitting a lesson slot after
    existence, role and conflict checks, listing slots through optional
    filters, and deleting a slot.

    Two slots are "at the same time" exactly when their weekday text and
    start-time text are equal; end times are stored but never compared, so
    slots whose intervals overlap with different start times are admitted. */
module ScheduleApi {
  import opened Common
  import opened Records
  import opened Deps

  /** The request body of a slot creation. */
  datatype ScheduleCreate = ScheduleCreate(
    dayOfWeek: string,
    startTime: string,
    endTime: string,
    roomNumber: string,
    classGroupId: int,
    subjectId: int,
    teacherId: int)

  /** The stored slot a request becomes, under primary key `id`. */
  function NewItem(id: int, req: ScheduleCreate): ScheduleItem
  {
    ScheduleItem(id, req.dayOfWeek, req.startTime, req.endTime, req.roomNumber,
                 req.classGroupId, req.subjectId, req.teacherId)
  }

  /** Same weekday and same start text. */
  predicate SameSlot(x: ScheduleItem, req: ScheduleCreate)
  {
    x.dayOfWeek == req.dayOfWeek && x.startTime == req.startTime
  }

  ghost predicate RoomTaken(items: seq<ScheduleItem>, req: ScheduleCreate)
  {
    exists i :: 0 <= i < |items| && SameSlot(items[i], req) && items[i].roomNumber == req.roomNumber
  }

  ghost predicate TeacherBusy(items: seq<ScheduleItem>, req: ScheduleCreate)
  {
    exists i :: 0 <= i < |items| && SameSlot(items[i], req) && items[i].teacherId == req.teacherId
  }

  ghost predicate ClassBusy(items: seq<ScheduleItem>, req: ScheduleCreate)
  {
    exists i :: 0 <= i < |items| && SameSlot(items[i], req) && items[i].classGroupId == req.classGroupId
  }

  /** The timetable invariant: at one (weekday, start) no room, teacher or
      class appears in two slots. */
  ghost predicate ConflictFree(items: seq<ScheduleItem>)
  {
    forall i, j :: 0 <= i < j < |items| && items[i].dayOfWeek == items[j].dayOfWeek
                                       && items[i].startTime == items[j].startTime ==>
      && items[i].roomNumber != items[j].roomNumber
      && items[i].teacherId != items[j].teacherId
      && items[i].classGroupId != items[j].classGroupId
  }

  /** The referenced user exists and has the role "TEACHER". */
  predicate IsTeacher(users: seq<User>, id: int)
  {
    UserAt(users, id).Some? && users[UserAt(users, id).value].role == "TEACHER"
  }

  /** An administrator asks, the class and subject exist, and the teacher is a teacher. */
  predicate Vetted(st: Store, caller: User, req: ScheduleCreate)
  {
    && caller.role == "ADMIN"
    && ClassAt(st.classes, req.classGroupId).Some?
    && SubjectAt(st.subjects, req.subjectId).Some?
    && IsTeacher(st.users, req.teacherId)
  }

  function TeacherEmail(st: Store, req: ScheduleCreate): string
    requires IsTeacher(st.users, req.teacherId)
  {
    st.users[UserAt(st.users, req.teacherId).value].email
  }

  function ClassName(st: Store, req: ScheduleCreate): string
    requires ClassAt(st.classes, req.classGroupId).Some?
  {
    st.classes[ClassAt(st.classes, req.classGroupId).value].name
  }

  /** Whether the query `items WHERE same day AND same start AND key matches` returns a row. */
  function Clash(items: seq<ScheduleItem>, req: ScheduleCreate, key: ScheduleItem -> bool): (r: bool)
    ensures r <==> exists i :: 0 <= i < |items| && SameSlot(items[i], req) && key(items[i])
  {
    var rows := Filter(items, (x: ScheduleItem) => SameSlot(x, req) && key(x));
    if |rows| > 0 then
      assert rows[0] in rows;
      true
    else
      assert forall i :: 0 <= i < |items| && SameSlot(items[i], req) && key(items[i]) ==> items[i] in rows;
      false
  }

  /** `create_schedule_item`: guard, existence checks, then the room, teacher
      and class conflict checks in that order; the first failing check decides
      the error. Only when all pass is the slot appended. */
  function CreateScheduleItem(st: Store, caller: User, req: ScheduleCreate): (r: Result<Store>)
    ensures caller.role != "ADMIN" ==> r == Err(Forbidden)
    ensures caller.role == "ADMIN"
            && (ClassAt(st.classes, req.classGroupId).None? || SubjectAt(st.subjects, req.subjectId).None?)
            ==> r == Err(NotFound(ClassOrSubject))
    ensures caller.role == "ADMIN"
            && ClassAt(st.classes, req.classGroupId).Some? && SubjectAt(st.subjects, req.subjectId).Some?
            && !IsTeacher(st.users, req.teacherId)
            ==> r == Err(InvalidRole)
    ensures Vetted(st, caller, req) && RoomTaken(st.schedules, req)
            ==> r == Err(RoomConflict(req.roomNumber))
    ensures Vetted(st, caller, req) && !RoomTaken(st.schedules, req) && TeacherBusy(st.schedules, req)
            ==> r == Err(TeacherConflict(TeacherEmail(st, req)))
    ensures Vetted(st, caller, req) && !RoomTaken(st.schedules, req) && !TeacherBusy(st.schedules, req)
            && ClassBusy(st.schedules, req)
            ==> r == Err(ClassConflict(ClassName(st, req)))
    ensures r.Ok? <==> Vetted(st, caller, req) && !RoomTaken(st.schedules, req)
                       && !TeacherBusy(st.schedules, req) && !ClassBusy(st.schedules, req)
    ensures r.Ok? ==> r.value == st.(schedules := st.schedules + [NewItem(NewScheduleItemId(st.schedules), req)])
  {
    if AllowAdmin(caller).Err? then Err(Forbidden)
    else if ClassAt(st.classes, req.classGroupId).None? || SubjectAt(st.subjects, req.subjectId).None? then
      Err(NotFound(ClassOrSubject))
    else if !IsTeacher(st.users, req.teacherId) then Err(InvalidRole)
    else if Clash(st.schedules, req, (x: ScheduleItem) => x.roomNumber == req.roomNumber) then
      Err(RoomConflict(req.roomNumber))
    else if Clash(st.schedules, req, (x: ScheduleItem) => x.teacherId == req.teacherId) then
      Err(TeacherConflict(TeacherEmail(st, req)))
    else if Clash(st.schedules, req, (x: ScheduleItem) => x.classGroupId == req.classGroupId) then
      Err(ClassConflict(ClassName(st, req)))
    else
      Ok(st.(schedules := st.schedules + [NewItem(NewScheduleItemId(st.schedules), req)]))
  }

  /** Admission keeps the timetable conflict-free. */
  lemma CreatePreservesConflictFree(st: Store, caller: User, req: ScheduleCreate)
    requires ConflictFree(st.schedules)
    ensures CreateScheduleItem(st, caller, req).Ok? ==> ConflictFree(CreateScheduleItem(st, caller, req).value.schedules)
  {
    var r := CreateScheduleItem(st, caller, req);
    if r.Ok? {
      var items := r.value.schedules;
      var n := |st.schedules|;
      forall i, j | 0 <= i < j < |items| && items[i].dayOfWeek == items[j].dayOfWeek
                                        && items[i].startTime == items[j].startTime
        ensures && items[i].roomNumber != items[j].roomNumber
                && items[i].teacherId != items[j].teacherId
                && items[i].classGroupId != items[j].classGroupId
      {
        if j == n {
          assert items[i] == st.schedules[i] && SameSlot(st.schedules[i], req);
        } else {
          assert items[i] == st.schedules[i] && items[j] == st.schedules[j];
        }
      }
    }
  }

  /** Appending a slot makes a room taken exactly when it was taken before or the new slot takes it. */
  lemma RoomTakenSnoc(items: seq<ScheduleItem>, x: ScheduleItem, req: ScheduleCreate)
    ensures RoomTaken(items + [x], req) <==> RoomTaken(items, req) || (SameSlot(x, req) && x.roomNumber == req.roomNumber)
  {
    var e := items + [x];
    assert e[|items|] == x;
    assert forall i :: 0 <= i < |items| ==> e[i] == items[i];
  }

  /** Appending a slot makes a teacher busy exactly when they were busy before or the new slot is theirs. */
  lemma TeacherBusySnoc(items: seq<ScheduleItem>, x: ScheduleItem, req: ScheduleCreate)
    ensures TeacherBusy(items + [x], req) <==> TeacherBusy(items, req) || (SameSlot(x, req) && x.teacherId == req.teacherId)
  {
    var e := items + [x];
    assert e[|items|] == x;
    assert forall i :: 0 <= i < |items| ==> e[i] == items[i];
  }

  /** A second slot at the same weekday, start and room is refused as a room
      conflict, whatever its teacher, class, subject or end time. */
  lemma SameRoomRefused(st: Store, caller: User, first: ScheduleCreate, second: ScheduleCreate)
    requires CreateScheduleItem(st, caller, first).Ok?
    requires Vetted(st, caller, second)
    requires second.dayOfWeek == first.dayOfWeek && second.startTime == first.startTime
    requires second.roomNumber == first.roomNumber
    ensures CreateScheduleItem(CreateScheduleItem(st, caller, first).value, caller, second)
            == Err(RoomConflict(second.roomNumber))
  {
    var x := NewItem(NewScheduleItemId(st.schedules), first);
    RoomTakenSnoc(st.schedules, x, second);
    assert Vetted(st.(schedules := st.schedules + [x]), caller, second);
  }

  /** A second slot with the same teacher at the same weekday and start, in
      a room that is free at that time, is refused as a teacher conflict. */
  lemma SameTeacherRefused(st: Store, caller: User, first: ScheduleCreate, second: ScheduleCreate)
    requires CreateScheduleItem(st, caller, first).Ok?
    requires Vetted(st, caller, second)
    requires second.dayOfWeek == first.dayOfWeek && second.startTime == first.startTime
    requires second.teacherId == first.teacherId && second.roomNumber != first.roomNumber
    requires !RoomTaken(st.schedules, second)
    ensures CreateScheduleItem(CreateScheduleItem(st, caller, first).value, caller, second)
            == Err(TeacherConflict(TeacherEmail(st, second)))
  {
    var x := NewItem(NewScheduleItemId(st.schedules), first);
    RoomTakenSnoc(st.schedules, x, second);
    TeacherBusySnoc(st.schedules, x, second);
    var st' := st.(schedules := st.schedules + [x]);
    assert Vetted(st', caller, second);
    assert TeacherEmail(st', second) == TeacherEmail(st, second);
  }

  /** The end time takes no part in admission: changing only the end time of
      a request changes neither whether it is admitted nor the error. */
  lemma EndTimeIgnored(st: Store, caller: User, req: ScheduleCreate, end: string)
    ensures CreateScheduleItem(st, caller, req).Ok? == CreateScheduleItem(st, caller, req.(endTime := end)).Ok?
    ensures CreateScheduleItem(st, caller, req).Err? ==>
              CreateScheduleItem(st, caller, req) == CreateScheduleItem(st, caller, req.(endTime := end))
  {
    var req' := req.(endTime := end);
    assert RoomTaken(st.schedules, req) <==> RoomTaken(st.schedules, req');
    assert TeacherBusy(st.schedules, req) <==> TeacherBusy(st.schedules, req');
    assert ClassBusy(st.schedules, req) <==> ClassBusy(st.schedules, req');
  }

  /** Overlapping lessons in one room are not detected when their start texts
      differ: 09:30 is admitted next to a 09:00 to 09:45 lesson in room 101. */
  lemma OverlapAdmitted(admin: User, teacher: User, other: User)
    requires admin.role == "ADMIN" && teacher.role == "TEACHER" && teacher.id == 7
    requires other.role == "TEACHER" && other.id == 8
    ensures var st := Store([teacher, other], [ClassGroup(1, "9-B"), ClassGroup(2, "10-A")], [Subject(3, "Math")],
                            [], [], [], [], [ScheduleItem(1, "Mon", "09:00", "09:45", "101", 1, 3, 7)], []);
            CreateScheduleItem(st, admin, ScheduleCreate("Mon", "09:30", "10:15", "101", 2, 3, 8)).Ok?
  {
    var st := Store([teacher, other], [ClassGroup(1, "9-B"), ClassGroup(2, "10-A")], [Subject(3, "Math")],
                    [], [], [], [], [ScheduleItem(1, "Mon", "09:00", "09:45", "101", 1, 3, 7)], []);
    var req := ScheduleCreate("Mon", "09:30", "10:15", "101", 2, 3, 8);
    assert "09:00" != "09:30" by { assert "09:00"[3] != "09:30"[3]; }
    assert !SameSlot(st.schedules[0], req);
    assert st.users[0].id != 8 && st.users[1].id == 8;
    assert UserAt(st.users, 8) == Some(1);
    assert Vetted(st, admin, req);
  }

  /** `delete_schedule_item`: remove the slot with that key, or 404. */
  function DeleteScheduleItem(st: Store, caller: User, id: int): (r: Result<Store>)
    ensures caller.role != "ADMIN" ==> r == Err(Forbidden)
    ensures caller.role == "ADMIN" && (forall j :: 0 <= j < |st.schedules| ==> st.schedules[j].id != id)
            ==> r == Err(NotFound(Lesson))
    ensures r.Ok? <==> caller.role == "ADMIN" && ScheduleItemAt(st.schedules, id).Some?
    ensures caller.role == "ADMIN" && ScheduleItemAt(st.schedules, id).Some? ==>
              var i := ScheduleItemAt(st.schedules, id).value;
              st.schedules[i].id == id && r == Ok(st.(schedules := RemoveAt(st.schedules, i)))
    ensures r.Ok? ==> |r.value.schedules| == |st.schedules| - 1
                      && (exists x :: x in st.schedules && x.id == id
                                      && multiset(r.value.schedules) + multiset{x} == multiset(st.schedules))
                      && r.value == st.(schedules := r.value.schedules)
  {
    if AllowAdmin(caller).Err? then Err(Forbidden)
    else match ScheduleItemAt(st.schedules, id)
      case None => Err(NotFound(Lesson))
      case Some(i) => Ok(st.(schedules := RemoveAt(st.schedules, i)))
  }

  /** Deleting a slot keeps the timetable conflict-free. */
  lemma DeletePreservesConflictFree(st: Store, caller: User, id: int)
    requires ConflictFree(st.schedules)
    ensures DeleteScheduleItem(st, caller, id).Ok? ==> ConflictFree(DeleteScheduleItem(st, caller, id).value.schedules)
  {
    if DeleteScheduleItem(st, caller, id).Ok? {
      var k := ScheduleItemAt(st.schedules, id).value;
      var items := DeleteScheduleItem(st, caller, id).value.schedules;
      assert forall j :: 0 <= j < |items| ==> items[j] == st.schedules[if j < k then j else j + 1];
    }
  }

  /** Which slots `get_schedule` shows: a teacher only their own, and each
      truthy filter narrows further. */
  predicate Shown(caller: User, classId: Option<int>, teacherId: Option<int>, day: Option<string>, x: ScheduleItem)
  {
    && (caller.role == "TEACHER" ==> x.teacherId == caller.id)
    && (IntGiven(classId) ==> x.classGroupId == classId.value)
    && (StrGiven(day) ==> x.dayOfWeek == day.value)
    && (IntGiven(teacherId) ==> x.teacherId == teacherId.value)
  }

  function TaughtBy(teacherId: int): ScheduleItem -> bool
  {
    (x: ScheduleItem) => x.teacherId == teacherId
  }

  function ForClass(classId: int): ScheduleItem -> bool
  {
    (x: ScheduleItem) => x.classGroupId == classId
  }

  function OnDay(day: string): ScheduleItem -> bool
  {
    (x: ScheduleItem) => x.dayOfWeek == day
  }

  /** `get_schedule`: the query is narrowed filter by filter, in source order. */
  function GetSchedule(st: Store, caller: User, classId: Option<int>, teacherId: Option<int>, day: Option<string>)
    : (r: seq<ScheduleItem>)
    ensures forall x :: x in r <==> x in st.schedules && Shown(caller, classId, teacherId, day, x)
    ensures !IntGiven(classId) && !IntGiven(teacherId) && !StrGiven(day) && caller.role != "TEACHER"
            ==> r == st.schedules
  {
    var byRole := if caller.role == TEACHER then Filter(st.schedules, TaughtBy(caller.id)) else st.schedules;
    var byClass := if IntGiven(classId) then Filter(byRole, ForClass(classId.value)) else byRole;
    var byDay := if StrGiven(day) then Filter(byClass, OnDay(day.value)) else byClass;
    if IntGiven(teacherId) then Filter(byDay, TaughtBy(teacherId.value)) else byDay
  }

  /** `Shown` as the condition of a single query. */
  function ShownBy(caller: User, classId: Option<int>, teacherId: Option<int>, day: Option<string>): ScheduleItem -> bool
  {
    (x: ScheduleItem) => Shown(caller, classId, teacherId, day, x)
  }

  /** The filter-by-filter query is one `WHERE` clause, `Shown`, over the
      timetable: the same slots, each as often and in the same order. */
  lemma GetScheduleIsOneQuery(st: Store, caller: User, classId: Option<int>, teacherId: Option<int>, day: Option<string>)
    ensures GetSchedule(st, caller, classId, teacherId, day) == Filter(st.schedules, ShownBy(caller, classId, teacherId, day))
  {
    var c := if IntGiven(classId) then classId.value else 0;
    var d := if StrGiven(day) then day.value else "";
    var t := if IntGiven(teacherId) then teacherId.value else 0;
    NarrowFour(st.schedules, caller.role == TEACHER, TaughtBy(caller.id), IntGiven(classId), ForClass(c),
               StrGiven(day), OnDay(d), IntGiven(teacherId), TaughtBy(t), ShownBy(caller, classId, teacherId, day));
  }

  /** A teacher never sees another teacher's lessons, whatever filters are passed. */
  lemma TeacherSeesOwnLessons(st: Store, caller: User, classId: Option<int>, teacherId: Option<int>, day: Option<string>)
    requires caller.role == "TEACHER"
    ensures forall x :: x in GetSchedule(st, caller, classId, teacherId, day) ==> x.teacherId == caller.id
  {
  }
}
