/** Class reports over a date range: per student of the class, either the
    grade figures (sum and number of grades, any subject) or the attendance
    figures (ABSENT and LATE marks), both over an inclusive range of dates. */
module ReportsApi {
  import opened Common
  import opened Calendar
  import opened Records
  import opened Deps
  import opened Roster
  import opened GradesApi

  /** The figures of one report row. Which kind a row carries depends on the
      report type; any other type gives a row with the name alone. */
  datatype Figures =
    | GradeFigures(total: int, count: nat)
    | AttendanceFigures(absent: nat, late: nat)
    | NoFigures

  datatype ReportRow = ReportRow(fullName: string, figures: Figures)

  /** `start <= d <= end` on dates: both ends included. */
  predicate InRange(d: Date, start: Date, end: Date)
  {
    NotAfter(start, d) && NotAfter(d, end)
  }

  function GradeInWindow(studentId: int, start: Date, end: Date): Grade -> bool
  {
    (g: Grade) => g.studentId == studentId && InRange(g.date, start, end)
  }

  function MarkInWindow(studentId: int, start: Date, end: Date): AttendanceMark -> bool
  {
    (m: AttendanceMark) => m.studentId == studentId && InRange(m.date, start, end)
  }

  function HasStatus(status: string): AttendanceMark -> bool
  {
    (m: AttendanceMark) => m.status == status
  }

  /** The student's grades dated within the range, every subject included. */
  function GradeWindow(grades: seq<Grade>, studentId: int, start: Date, end: Date): (r: seq<Grade>)
    ensures forall g :: g in r <==> g in grades && g.studentId == studentId && InRange(g.date, start, end)
  {
    Filter(grades, GradeInWindow(studentId, start, end))
  }

  /** The student's attendance marks dated within the range. */
  function MarkWindow(marks: seq<AttendanceMark>, studentId: int, start: Date, end: Date): (r: seq<AttendanceMark>)
    ensures forall m :: m in r <==> m in marks && m.studentId == studentId && InRange(m.date, start, end)
  {
    Filter(marks, MarkInWindow(studentId, start, end))
  }

  /** The number of marks with exactly this status. */
  function CountStatus(marks: seq<AttendanceMark>, status: string): (n: nat)
    ensures n <= |marks|
    ensures (forall i :: 0 <= i < |marks| ==> marks[i].status != status) ==> n == 0
  {
    var r := Filter(marks, HasStatus(status));
    assert (forall i :: 0 <= i < |marks| ==> marks[i].status != status) ==> r == [] by {
      if |r| > 0 {
        assert r[0] in marks;
      }
    }
    |r|
  }

  /** A status count grows by one exactly for an appended mark with that status. */
  lemma CountStatusSnoc(marks: seq<AttendanceMark>, m: AttendanceMark, status: string)
    ensures CountStatus(marks + [m], status) == CountStatus(marks, status) + (if m.status == status then 1 else 0)
  {
    FilterSnoc(marks, m, HasStatus(status));
  }

  /** The row of one student. */
  function ReportRowFor(st: Store, s: Student, reportType: string, start: Date, end: Date): (r: ReportRow)
    ensures r.fullName == s.fullName
    ensures r.figures.GradeFigures? <==> reportType == "grades"
    ensures r.figures.AttendanceFigures? <==> reportType == "attendance"
    ensures r.figures.GradeFigures? ==>
              var gs := GradeWindow(st.grades, s.id, start, end);
              r.figures == GradeFigures(Total(gs), |gs|) && (|gs| == 0 ==> r.figures.total == 0)
    ensures r.figures.AttendanceFigures? ==>
              var ms := MarkWindow(st.attendance, s.id, start, end);
              && r.figures == AttendanceFigures(CountStatus(ms, "ABSENT"), CountStatus(ms, "LATE"))
              && r.figures.absent + r.figures.late <= |ms|
  {
    if reportType == "grades" then
      var gs := GradeWindow(st.grades, s.id, start, end);
      ReportRow(s.fullName, GradeFigures(Total(gs), |gs|))
    else if reportType == "attendance" then
      var ms := MarkWindow(st.attendance, s.id, start, end);
      FilterDisjoint(ms, HasStatus("ABSENT"), HasStatus("LATE"));
      ReportRow(s.fullName, AttendanceFigures(CountStatus(ms, "ABSENT"), CountStatus(ms, "LATE")))
    else ReportRow(s.fullName, NoFigures)
  }

  /** The loop of `get_report_data`: one row per given student, in the given order. */
  method RowsOf(st: Store, students: seq<Student>, start: Date, end: Date, reportType: string)
    returns (data: seq<ReportRow>)
    ensures |data| == |students|
    ensures forall i :: 0 <= i < |data| ==> data[i] == ReportRowFor(st, students[i], reportType, start, end)
  {
    data := [];
    var i := 0;
    while i < |students|
      invariant 0 <= i <= |students|
      invariant |data| == i
      invariant forall k :: 0 <= k < i ==> data[k] == ReportRowFor(st, students[k], reportType, start, end)
    {
      data := data + [ReportRowFor(st, students[i], reportType, start, end)];
      i := i + 1;
    }
  }

  /** `get_report_data`: one row per student of the class, in roster order. */
  method GetReportData(st: Store, classId: int, start: Date, end: Date, reportType: string)
    returns (data: seq<ReportRow>)
    ensures |data| == |ClassRoster(st.students, classId)|
    ensures forall i :: 0 <= i < |data| ==>
              data[i] == ReportRowFor(st, ClassRoster(st.students, classId)[i], reportType, start, end)
  {
    data := RowsOf(st, ClassRoster(st.students, classId), start, end, reportType);
  }

  /** `view_report`: teacher-level guard, then the rows. */
  method ViewReport(st: Store, caller: User, classId: int, reportType: string, start: Date, end: Date)
    returns (r: Result<seq<ReportRow>>)
    ensures r.Err? <==> caller.role != "TEACHER" && caller.role != "ADMIN"
    ensures r.Err? ==> r.error == Forbidden
    ensures r.Ok? ==> |r.value| == |ClassRoster(st.students, classId)|
    ensures r.Ok? ==> forall i :: 0 <= i < |r.value| ==>
              r.value[i] == ReportRowFor(st, ClassRoster(st.students, classId)[i], reportType, start, end)
              && r.value[i].fullName == ClassRoster(st.students, classId)[i].fullName
  {
    if AllowTeacher(caller).Err? {
      return Err(Forbidden);
    }
    var data := GetReportData(st, classId, start, end, reportType);
    return Ok(data);
  }

  /** A grade dated on either end of the range is counted: the range is inclusive. */
  lemma RangeEndsIncluded(st: Store, s: Student, g: Grade, start: Date, end: Date)
    requires g in st.grades && g.studentId == s.id
    requires NotAfter(start, end) && (g.date == start || g.date == end)
    ensures g in GradeWindow(st.grades, s.id, start, end)
  {
  }

  /** A range whose end precedes its start holds no date, so every figure is zero. */
  lemma ReversedRangeIsEmpty(st: Store, s: Student, reportType: string, start: Date, end: Date)
    requires Before(end, start)
    ensures ReportRowFor(st, s, reportType, start, end).figures.GradeFigures? ==>
              ReportRowFor(st, s, reportType, start, end).figures == GradeFigures(0, 0)
    ensures ReportRowFor(st, s, reportType, start, end).figures.AttendanceFigures? ==>
              ReportRowFor(st, s, reportType, start, end).figures == AttendanceFigures(0, 0)
  {
  }

  /** A new mark appended for the student within the range (the insert
      branch of the attendance upsert) raises the ABSENT or LATE figure by one
      according to its status; any other appended mark leaves the attendance
      row as it was. Overwriting an existing mark is not covered here. */
  lemma MarkAddedToReport(st: Store, s: Student, m: AttendanceMark, start: Date, end: Date)
    ensures var before := ReportRowFor(st, s, "attendance", start, end).figures;
            var counted := m.studentId == s.id && InRange(m.date, start, end);
            ReportRowFor(st.(attendance := st.attendance + [m]), s, "attendance", start, end).figures
            == AttendanceFigures(before.absent + (if counted && m.status == "ABSENT" then 1 else 0),
                                 before.late + (if counted && m.status == "LATE" then 1 else 0))
  {
    var ms := MarkWindow(st.attendance, s.id, start, end);
    var ms2 := MarkWindow(st.attendance + [m], s.id, start, end);
    var counted := m.studentId == s.id && InRange(m.date, start, end);
    FilterSnoc(st.attendance, m, MarkInWindow(s.id, start, end));
    assert MarkInWindow(s.id, start, end)(m) == counted;
    if counted {
      assert ms2 == ms + [m];
      CountStatusSnoc(ms, m, "ABSENT");
      CountStatusSnoc(ms, m, "LATE");
    } else {
      assert ms2 == ms + [];
      assert ms + [] == ms;
    }
  }

  /** A new grade appended for the student within the range (the insert
      branch of the grade upsert) adds its value to the sum and one to the
      count; any other appended grade leaves the grade row as it was.
      Overwriting an existing grade is not covered here. */
  lemma GradeAddedToReport(st: Store, s: Student, g: Grade, start: Date, end: Date)
    ensures var before := ReportRowFor(st, s, "grades", start, end).figures;
            var counted := g.studentId == s.id && InRange(g.date, start, end);
            ReportRowFor(st.(grades := st.grades + [g]), s, "grades", start, end).figures
            == (if counted then GradeFigures(before.total + g.value, before.count + 1) else before)
  {
    var gs := GradeWindow(st.grades, s.id, start, end);
    var gs2 := GradeWindow(st.grades + [g], s.id, start, end);
    var counted := g.studentId == s.id && InRange(g.date, start, end);
    FilterSnoc(st.grades, g, GradeInWindow(s.id, start, end));
    assert GradeInWindow(s.id, start, end)(g) == counted;
    if counted {
      assert gs2 == gs + [g];
      FiguresSnoc(gs, g);
    } else {
      assert gs2 == gs + [];
      assert gs + [] == gs;
    }
  }

  /** A PRESENT mark counts toward neither figure, whatever the store already holds. */
  lemma PresentNotCounted(st: Store, s: Student, m: AttendanceMark, start: Date, end: Date)
    requires m.status == "PRESENT"
    ensures ReportRowFor(st.(attendance := st.attendance + [m]), s, "attendance", start, end).figures
            == ReportRowFor(st, s, "attendance", start, end).figures
  {
    assert |"PRESENT"| != |"ABSENT"| && |"PRESENT"| != |"LATE"|;
    MarkAddedToReport(st, s, m, start, end);
  }
}
