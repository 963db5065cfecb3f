/** Attendance (`/attendance`): the time gate that lets a teacher mark a
    student only on the current day, and only once some lesson of theirs
    with the student's class has started today; the upsert of the mark by
    (student, date); and the filtered listing.

    "Started" is Python string comparison of the `HH:MM` clock text against
    the slot's start text. There is no upper bound: a lesson that ended
    hours ago still opens the gate. */
module AttendanceApi {
  import opened Common
  import opened Lex
  import opened Calendar
  import opened Records
  import opened Deps

  /** `DAYS_MAPPING`: weekday index (Monday = 0) to the day name stored in timetable slots. */
  const DaysMapping: map<int, string> := map[
    0 := "Понедельник", 1 := "Вторник", 2 := "Среда", 3 := "Четверг",
    4 := "Пятница", 5 := "Суббота", 6 := "Воскресенье"]

  /** The mapping is defined on exactly the seven weekday indices and names each one differently. */
  lemma DaysMappingShape()
    ensures forall w :: w in DaysMapping <==> 0 <= w < 7
    ensures forall a, b :: a in DaysMapping && b in DaysMapping && a != b ==> DaysMapping[a] != DaysMapping[b]
  {
    assert DaysMapping[2] != DaysMapping[1] by { assert |DaysMapping[2]| != |DaysMapping[1]|; }
    assert "Вторник"[0] != "Четверг"[0] && "Вторник"[0] != "Пятница"[0] && "Вторник"[0] != "Суббота"[0];
    assert "Четверг"[0] != "Пятница"[0] && "Четверг"[0] != "Суббота"[0] && "Пятница"[0] != "Суббота"[0];
  }

  /** Today's day name, `DAYS_MAPPING[now.weekday()]`. */
  function DayName(now: Clock): string
  {
    DaysMappingShape();
    DaysMapping[Weekday(now.today)]
  }

  /** Two days carry the same day name exactly when they fall on the same
      weekday, so a slot's day name picks out one weekday. */
  lemma DayNameIdentifiesWeekday(a: Clock, b: Clock)
    ensures DayName(a) == DayName(b) <==> Weekday(a.today) == Weekday(b.today)
  {
    DaysMappingShape();
  }

  /** The request body of a mark. */
  datatype AttendanceCreate = AttendanceCreate(date: Date, status: string, studentId: int)

  /** A slot of this teacher with this class on the given day. */
  predicate Teaches(x: ScheduleItem, teacher: User, classId: int, dayName: string)
  {
    x.classGroupId == classId && x.teacherId == teacher.id && x.dayOfWeek == dayName
  }

  ghost predicate LessonToday(items: seq<ScheduleItem>, teacher: User, classId: int, now: Clock)
  {
    exists i :: 0 <= i < |items| && Teaches(items[i], teacher, classId, DayName(now))
  }

  /** Some slot of this teacher with this class today has `now >= start_time` as strings. */
  ghost predicate LessonStarted(items: seq<ScheduleItem>, teacher: User, classId: int, now: Clock)
  {
    exists i :: 0 <= i < |items| && Teaches(items[i], teacher, classId, DayName(now))
                && LexLe(items[i].startTime, ClockText(now))
  }

  /** The `for lesson in lessons: if current_time_str >= lesson.start_time: break` loop. */
  function AnyStarted(lessons: seq<ScheduleItem>, nowText: string): (r: bool)
    ensures r <==> exists i :: 0 <= i < |lessons| && LexLe(lessons[i].startTime, nowText)
  {
    if |lessons| == 0 then false
    else if LexLe(lessons[0].startTime, nowText) then true
    else
      assert forall i :: 1 <= i < |lessons| ==> lessons[i] == lessons[1..][i - 1];
      AnyStarted(lessons[1..], nowText)
  }

  /** The natural key of a mark. */
  predicate MarkFor(m: AttendanceMark, studentId: int, date: Date)
  {
    m.studentId == studentId && m.date == date
  }

  /** The natural key of a mark, as a lookup predicate. */
  function MarkKey(req: AttendanceCreate): AttendanceMark -> bool
  {
    (m: AttendanceMark) => MarkFor(m, req.studentId, req.date)
  }

  function SetStatus(req: AttendanceCreate): AttendanceMark -> AttendanceMark
  {
    (m: AttendanceMark) => m.(status := req.status)
  }

  /** The mark inserted when none has the key: no marking teacher is recorded. */
  function NewMark(marks: seq<AttendanceMark>, req: AttendanceCreate): (m: AttendanceMark)
    ensures MarkFor(m, req.studentId, req.date) && m.status == req.status && m.teacherId.None?
    ensures forall j :: 0 <= j < |marks| ==> marks[j].id != m.id
  {
    AttendanceMark(NewMarkId(marks), req.date, req.status, req.studentId, None)
  }

  /** Upsert by (student, date): the first mark with the key gets the new
      status and keeps everything else; with no such mark one is appended. */
  function UpsertMark(marks: seq<AttendanceMark>, req: AttendanceCreate): (r: seq<AttendanceMark>)
    ensures FirstIndex(marks, MarkKey(req)).Some? ==>
              var i := FirstIndex(marks, MarkKey(req)).value;
              |r| == |marks| && r[i] == marks[i].(status := req.status)
              && (forall j :: 0 <= j < |marks| && j != i ==> r[j] == marks[j])
    ensures FirstIndex(marks, MarkKey(req)).None? ==> r == marks + [NewMark(marks, req)]
    ensures FirstIndex(r, MarkKey(req)).Some? && r[FirstIndex(r, MarkKey(req)).value].status == req.status
  {
    UpsertLocates(marks, MarkKey(req), SetStatus(req), NewMark(marks, req));
    Upsert(marks, MarkKey(req), SetStatus(req), NewMark(marks, req))
  }

  /** Marking the same student, date and status twice leaves the same marks as marking once. */
  lemma UpsertMarkIdempotent(marks: seq<AttendanceMark>, req: AttendanceCreate)
    ensures UpsertMark(UpsertMark(marks, req), req) == UpsertMark(marks, req)
  {
    var once := UpsertMark(marks, req);
    UpsertIdempotent(marks, MarkKey(req), SetStatus(req), NewMark(marks, req));
    if FirstIndex(marks, MarkKey(req)).None? {
      UpsertLocates(marks, MarkKey(req), SetStatus(req), NewMark(marks, req));
      assert NewMark(once, req) != NewMark(marks, req) ==> once[|marks|] == NewMark(marks, req);
    }
  }

  /** The class of the student row with that key. */
  function StudentClass(st: Store, studentId: int): int
    requires StudentAt(st.students, studentId).Some?
  {
    st.students[StudentAt(st.students, studentId).value].classGroupId
  }

  /** `mark_attendance`: role guard, student lookup, the teacher-only time
      gate, then the upsert. */
  function MarkAttendance(st: Store, caller: User, req: AttendanceCreate, now: Clock): (r: Result<Store>)
    ensures caller.role != "TEACHER" && caller.role != "ADMIN" ==> r == Err(Forbidden)
    ensures (caller.role == "TEACHER" || caller.role == "ADMIN")
            && (forall j :: 0 <= j < |st.students| ==> st.students[j].id != req.studentId)
            ==> r == Err(NotFound(StudentRecord))
    ensures caller.role == "ADMIN" && StudentAt(st.students, req.studentId).Some?
            ==> r == Ok(st.(attendance := UpsertMark(st.attendance, req)))
    ensures caller.role == "TEACHER" && StudentAt(st.students, req.studentId).Some? && req.date != now.today
            ==> r == Err(NotToday)
    ensures caller.role == "TEACHER" && StudentAt(st.students, req.studentId).Some? && req.date == now.today
            && !LessonToday(st.schedules, caller, StudentClass(st, req.studentId), now)
            ==> r == Err(NoLessonToday)
    ensures caller.role == "TEACHER" && StudentAt(st.students, req.studentId).Some? && req.date == now.today
            && LessonToday(st.schedules, caller, StudentClass(st, req.studentId), now)
            && !LessonStarted(st.schedules, caller, StudentClass(st, req.studentId), now)
            ==> r == Err(LessonNotStarted)
    ensures r.Ok? <==>
              && StudentAt(st.students, req.studentId).Some?
              && (caller.role == "ADMIN"
                  || (caller.role == "TEACHER" && req.date == now.today
                      && LessonStarted(st.schedules, caller, StudentClass(st, req.studentId), now)))
    ensures r.Ok? ==> r.value == st.(attendance := UpsertMark(st.attendance, req))
  {
    if AllowTeacher(caller).Err? then Err(Forbidden)
    else match StudentAt(st.students, req.studentId)
      case None => Err(NotFound(StudentRecord))
      case Some(s) =>
        var classId := st.students[s].classGroupId;
        if caller.role == TEACHER && req.date != now.today then Err(NotToday)
        else if caller.role == TEACHER && |Lessons(st.schedules, caller, classId, now)| == 0 then Err(NoLessonToday)
        else if caller.role == TEACHER && !AnyStarted(Lessons(st.schedules, caller, classId, now), ClockText(now)) then
          Err(LessonNotStarted)
        else Ok(st.(attendance := UpsertMark(st.attendance, req)))
  }

  /** The query for today's lessons of this teacher with this class. */
  function Lessons(items: seq<ScheduleItem>, teacher: User, classId: int, now: Clock): (r: seq<ScheduleItem>)
    ensures |r| == 0 <==> !LessonToday(items, teacher, classId, now)
    ensures (exists i :: 0 <= i < |r| && LexLe(r[i].startTime, ClockText(now)))
            <==> LessonStarted(items, teacher, classId, now)
  {
    var r := Filter(items, (x: ScheduleItem) => Teaches(x, teacher, classId, DayName(now)));
    assert forall i :: 0 <= i < |items| && Teaches(items[i], teacher, classId, DayName(now)) ==> items[i] in r;
    assert |r| > 0 ==> r[0] in r;
    r
  }

  /** After a successful mark the first record for the student and date, the
      one the next lookup finds, carries the requested status. */
  lemma MarkRecorded(st: Store, caller: User, req: AttendanceCreate, now: Clock)
    requires MarkAttendance(st, caller, req, now).Ok?
    ensures var marks := MarkAttendance(st, caller, req, now).value.attendance;
            exists i :: 0 <= i < |marks| && MarkFor(marks[i], req.studentId, req.date)
                        && marks[i].status == req.status
                        && forall j :: 0 <= j < i ==> !MarkFor(marks[j], req.studentId, req.date)
  {
    var marks := MarkAttendance(st, caller, req, now).value.attendance;
    var i := FirstIndex(marks, MarkKey(req)).value;
    assert MarkFor(marks[i], req.studentId, req.date);
  }

  /** With zero-padded `HH:MM` start texts the gate's string comparison is
      the comparison of times of day. */
  lemma GateComparesTimesOfDay(x: ScheduleItem, h: Hour, m: Minute, now: Clock)
    requires x.startTime == HourMinute(h, m)
    ensures LexLe(x.startTime, ClockText(now)) <==> MinuteOfDay(h, m) <= MinuteOfDay(now.hour, now.minute)
  {
    HourMinuteOrder(h, m, now.hour, now.minute);
  }

  /** Start texts without the leading zero break that agreement: a lesson
      stored as starting at "9:00" has not started at 10:30 as far as the
      gate is concerned. */
  lemma UnpaddedStartNotStarted(now: Clock)
    requires now.hour == 10 && now.minute == 30
    ensures !LexLe("9:00", ClockText(now))
  {
    assert Pad(10, 2) == Pad(1, 1) + [Digit(0)];
    assert Pad(1, 1) == Pad(0, 0) + [Digit(1)];
    assert ClockText(now)[0] == '1';
  }

  /* A worked scenario: teacher 5 has a Monday 09:00 to 09:45 lesson with
     class 1, whose student 10 is marked. 2026-10-12 is a Monday. */

  function ScenarioStore(): Store
  {
    Store([], [ClassGroup(1, "9-B")], [], [Student(10, "Ivanov", 1)], [], [], [],
          [ScheduleItem(1, "Понедельник", "09:00", "09:45", "101", 1, 3, 5)], [])
  }

  lemma ScenarioCalendar()
    ensures Weekday(Date(2026, 10, 12)) == 0 && Weekday(Date(2026, 10, 13)) == 1
    ensures HourMinute(9, 0) == "09:00"
  {
    assert Pad(9, 2) == Pad(0, 1) + [Digit(9)] && Pad(0, 1) == [Digit(0)];
    assert Pad(0, 2) == Pad(0, 1) + [Digit(0)];
  }

  /** The scenario's student and its class. */
  lemma ScenarioStudent()
    ensures StudentAt(ScenarioStore().students, 10) == Some(0)
    ensures StudentClass(ScenarioStore(), 10) == 1
  {
  }

  /** On a Monday teacher 5 has the lesson with class 1, started once the clock text reaches "09:00". */
  lemma ScenarioMonday(teacher: User, now: Clock)
    requires teacher.id == 5 && Weekday(now.today) == 0
    ensures LessonToday(ScenarioStore().schedules, teacher, 1, now)
    ensures LessonStarted(ScenarioStore().schedules, teacher, 1, now) <==> LexLe("09:00", ClockText(now))
  {
    var items := ScenarioStore().schedules;
    assert Teaches(items[0], teacher, 1, DayName(now));
  }

  /** On a Tuesday nobody has a lesson in the scenario's timetable. */
  lemma ScenarioTuesday(teacher: User, now: Clock)
    requires Weekday(now.today) == 1
    ensures !LessonToday(ScenarioStore().schedules, teacher, 1, now)
  {
    DaysMappingShape();
    assert DayName(now) == DaysMapping[1] != DaysMapping[0];
  }

  /** At 09:10 on the Monday the mark goes through. */
  lemma ScenarioDuringLesson(teacher: User)
    requires teacher.role == "TEACHER" && teacher.id == 5
    ensures MarkAttendance(ScenarioStore(), teacher, AttendanceCreate(Date(2026, 10, 12), "PRESENT", 10),
                           Clock(Date(2026, 10, 12), 9, 10)).Ok?
  {
    var now := Clock(Date(2026, 10, 12), 9, 10);
    ScenarioCalendar();
    HourMinuteOrder(9, 0, 9, 10);
    ScenarioStudent();
    ScenarioMonday(teacher, now);
  }

  /** At 08:50 on the Monday the lesson has not started. */
  lemma ScenarioBeforeLesson(teacher: User)
    requires teacher.role == "TEACHER" && teacher.id == 5
    ensures MarkAttendance(ScenarioStore(), teacher, AttendanceCreate(Date(2026, 10, 12), "PRESENT", 10),
                           Clock(Date(2026, 10, 12), 8, 50)) == Err(LessonNotStarted)
  {
    var now := Clock(Date(2026, 10, 12), 8, 50);
    ScenarioCalendar();
    HourMinuteOrder(9, 0, 8, 50);
    ScenarioStudent();
    ScenarioMonday(teacher, now);
  }

  /** On the Tuesday there is no lesson with the class. */
  lemma ScenarioNextDay(teacher: User)
    requires teacher.role == "TEACHER" && teacher.id == 5
    ensures MarkAttendance(ScenarioStore(), teacher, AttendanceCreate(Date(2026, 10, 13), "PRESENT", 10),
                           Clock(Date(2026, 10, 13), 9, 10)) == Err(NoLessonToday)
  {
    ScenarioCalendar();
    ScenarioStudent();
    ScenarioTuesday(teacher, Clock(Date(2026, 10, 13), 9, 10));
  }

  /** A mark for the day before is refused. */
  lemma ScenarioYesterday(teacher: User)
    requires teacher.role == "TEACHER" && teacher.id == 5
    ensures MarkAttendance(ScenarioStore(), teacher, AttendanceCreate(Date(2026, 10, 11), "PRESENT", 10),
                           Clock(Date(2026, 10, 12), 9, 10)) == Err(NotToday)
  {
    ScenarioStudent();
  }

  /** The mark's student is a student of the class: the `JOIN students` the class filter goes through. */
  predicate MarkOfClass(students: seq<Student>, m: AttendanceMark, classId: int)
  {
    exists s :: s in students && s.id == m.studentId && s.classGroupId == classId
  }

  function ByClass(students: seq<Student>, classId: int): AttendanceMark -> bool
  {
    (m: AttendanceMark) => MarkOfClass(students, m, classId)
  }

  function OnDate(d: Date): AttendanceMark -> bool
  {
    (m: AttendanceMark) => m.date == d
  }

  /** The listing's condition: the class filter when truthy, the date filter when given. */
  predicate Listed(st: Store, classId: Option<int>, checkDate: Option<Date>, m: AttendanceMark)
  {
    && (IntGiven(classId) ==> MarkOfClass(st.students, m, classId.value))
    && (checkDate.Some? ==> m.date == checkDate.value)
  }

  /** `get_attendance`: the class filter (when truthy) and the date filter (when given), conjunctively. */
  function GetAttendance(st: Store, classId: Option<int>, checkDate: Option<Date>): (r: seq<AttendanceMark>)
    ensures forall m :: m in r <==> m in st.attendance && Listed(st, classId, checkDate, m)
    ensures !IntGiven(classId) && checkDate.None? ==> r == st.attendance
  {
    var byClass := if IntGiven(classId) then Filter(st.attendance, ByClass(st.students, classId.value)) else st.attendance;
    if checkDate.Some? then Filter(byClass, OnDate(checkDate.value)) else byClass
  }

  /** The two-step listing is one `WHERE` clause, `Listed`, over all marks:
      the same marks, each as often and in the same order. */
  lemma GetAttendanceIsOneQuery(st: Store, classId: Option<int>, checkDate: Option<Date>)
    ensures GetAttendance(st, classId, checkDate)
            == Filter(st.attendance, (m: AttendanceMark) => Listed(st, classId, checkDate, m))
  {
    var s := st.attendance;
    var p0 := (m: AttendanceMark) => IntGiven(classId) ==> MarkOfClass(st.students, m, classId.value);
    var p1 := (m: AttendanceMark) => Listed(st, classId, checkDate, m);
    if IntGiven(classId) {
      FilterSame(s, ByClass(st.students, classId.value), p0);
    }
    FilterStage(s, p0, checkDate.Some?, OnDate(if checkDate.Some? then checkDate.value else Date(1, 1, 1)), p1);
  }
}
