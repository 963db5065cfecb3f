/** The grade book: daily grades and period grades, each written by upsert on
    its natural key, and the class-by-subject grade matrix the journal page
    shows (one column per date any grade of the subject carries, one row per
    student of the class). */
module GradesApi {
  import opened Common
  import opened Lex
  import opened Calendar
  import opened Records
  import opened Deps
  import opened Roster

  datatype GradeCreate = GradeCreate(value: int, studentId: int, subjectId: int, date: Date)

  datatype FinalGradeCreate = FinalGradeCreate(periodName: string, value: int, studentId: int, subjectId: int)

  /* ---------- Daily grades ---------- */

  /** The natural key of a daily grade. */
  function GradeKey(req: GradeCreate): Grade -> bool
  {
    (g: Grade) => g.studentId == req.studentId && g.subjectId == req.subjectId && g.date == req.date
  }

  function SetGradeValue(req: GradeCreate): Grade -> Grade
  {
    (g: Grade) => g.(value := req.value)
  }

  /** The grade row `create_grade` inserts when none has the key. */
  function NewGrade(grades: seq<Grade>, req: GradeCreate): (g: Grade)
    ensures GradeKey(req)(g) && g.value == req.value
    ensures forall j :: 0 <= j < |grades| ==> grades[j].id != g.id
  {
    Grade(NewGradeId(grades), req.value, req.date, req.studentId, req.subjectId)
  }

  /** Upsert by (student, subject, date): the first grade with the key takes
      the new value and keeps its key and id; otherwise a grade is appended. */
  function UpsertGrade(grades: seq<Grade>, req: GradeCreate): (r: seq<Grade>)
    ensures FirstIndex(grades, GradeKey(req)).Some? ==>
              var i := FirstIndex(grades, GradeKey(req)).value;
              |r| == |grades| && r[i] == grades[i].(value := req.value)
              && (forall j :: 0 <= j < |grades| && j != i ==> r[j] == grades[j])
    ensures FirstIndex(grades, GradeKey(req)).None? ==> r == grades + [NewGrade(grades, req)]
    ensures FirstIndex(r, GradeKey(req)).Some? && r[FirstIndex(r, GradeKey(req)).value].value == req.value
  {
    UpsertLocates(grades, GradeKey(req), SetGradeValue(req), NewGrade(grades, req));
    Upsert(grades, GradeKey(req), SetGradeValue(req), NewGrade(grades, req))
  }

  /** Posting the same grade twice leaves the grade book as posting it once. */
  lemma UpsertGradeIdempotent(grades: seq<Grade>, req: GradeCreate)
    ensures UpsertGrade(UpsertGrade(grades, req), req) == UpsertGrade(grades, req)
  {
    var once := UpsertGrade(grades, req);
    UpsertIdempotent(grades, GradeKey(req), SetGradeValue(req), NewGrade(grades, req));
    if FirstIndex(grades, GradeKey(req)).None? {
      UpsertLocates(grades, GradeKey(req), SetGradeValue(req), NewGrade(grades, req));
      assert NewGrade(once, req) != NewGrade(grades, req) ==> once[|grades|] == NewGrade(grades, req);
    }
  }

  /** `create_grade`: teacher-level guard, then the upsert. */
  function CreateGrade(st: Store, caller: User, req: GradeCreate): (r: Result<Store>)
    ensures r.Err? <==> caller.role != "TEACHER" && caller.role != "ADMIN"
    ensures r.Err? ==> r.error == Forbidden
    ensures r.Ok? ==> r.value == st.(grades := UpsertGrade(st.grades, req))
  {
    if AllowTeacher(caller).Err? then Err(Forbidden)
    else Ok(st.(grades := UpsertGrade(st.grades, req)))
  }

  /** After an accepted post, looking the grade up by its key finds the posted
      value, and no grade under another key has changed. */
  lemma GradeRecorded(st: Store, caller: User, req: GradeCreate)
    requires CreateGrade(st, caller, req).Ok?
    ensures var g := CreateGrade(st, caller, req).value.grades;
            First(g, GradeKey(req)).Some? && First(g, GradeKey(req)).value.value == req.value
            && |st.grades| <= |g| <= |st.grades| + 1
            && forall j :: 0 <= j < |st.grades| && !GradeKey(req)(st.grades[j]) ==> g[j] == st.grades[j]
  {
  }

  /* ---------- Period grades ---------- */

  /** The natural key of a period grade. */
  function FinalKey(req: FinalGradeCreate): FinalGrade -> bool
  {
    (f: FinalGrade) => f.studentId == req.studentId && f.subjectId == req.subjectId && f.periodName == req.periodName
  }

  function SetFinalValue(req: FinalGradeCreate): FinalGrade -> FinalGrade
  {
    (f: FinalGrade) => f.(value := req.value)
  }

  function NewFinal(finals: seq<FinalGrade>, req: FinalGradeCreate): (f: FinalGrade)
    ensures FinalKey(req)(f) && f.value == req.value
    ensures forall j :: 0 <= j < |finals| ==> finals[j].id != f.id
  {
    FinalGrade(NewFinalGradeId(finals), req.periodName, req.value, req.studentId, req.subjectId)
  }

  /** Upsert by (student, subject, period). */
  function UpsertFinal(finals: seq<FinalGrade>, req: FinalGradeCreate): (r: seq<FinalGrade>)
    ensures FirstIndex(finals, FinalKey(req)).Some? ==>
              var i := FirstIndex(finals, FinalKey(req)).value;
              |r| == |finals| && r[i] == finals[i].(value := req.value)
              && (forall j :: 0 <= j < |finals| && j != i ==> r[j] == finals[j])
    ensures FirstIndex(finals, FinalKey(req)).None? ==> r == finals + [NewFinal(finals, req)]
    ensures FirstIndex(r, FinalKey(req)).Some? && r[FirstIndex(r, FinalKey(req)).value].value == req.value
  {
    UpsertLocates(finals, FinalKey(req), SetFinalValue(req), NewFinal(finals, req));
    Upsert(finals, FinalKey(req), SetFinalValue(req), NewFinal(finals, req))
  }

  lemma UpsertFinalIdempotent(finals: seq<FinalGrade>, req: FinalGradeCreate)
    ensures UpsertFinal(UpsertFinal(finals, req), req) == UpsertFinal(finals, req)
  {
    var once := UpsertFinal(finals, req);
    UpsertIdempotent(finals, FinalKey(req), SetFinalValue(req), NewFinal(finals, req));
    if FirstIndex(finals, FinalKey(req)).None? {
      UpsertLocates(finals, FinalKey(req), SetFinalValue(req), NewFinal(finals, req));
      assert NewFinal(once, req) != NewFinal(finals, req) ==> once[|finals|] == NewFinal(finals, req);
    }
  }

  /** `set_final_grade`: teacher-level guard, then the upsert. */
  function SetFinalGrade(st: Store, caller: User, req: FinalGradeCreate): (r: Result<Store>)
    ensures r.Err? <==> caller.role != "TEACHER" && caller.role != "ADMIN"
    ensures r.Err? ==> r.error == Forbidden
    ensures r.Ok? ==> r.value == st.(finals := UpsertFinal(st.finals, req))
  {
    if AllowTeacher(caller).Err? then Err(Forbidden)
    else Ok(st.(finals := UpsertFinal(st.finals, req)))
  }

  /* ---------- The grade matrix ---------- */

  /** One row of the matrix. `total` and `count` are the sum and number of
      the student's grades in the subject; the average is derived from them. */
  datatype MatrixRow = MatrixRow(
    studentId: int,
    fullName: string,
    grades: map<string, int>,
    total: int,
    count: nat,
    finalGrade: Option<int>)

  datatype Matrix = Matrix(dates: seq<string>, rows: seq<MatrixRow>)

  /** The mean of `count` values summing to `total`, and 0 when there are
      none; exact, before the source rounds it to two decimals. */
  function Average(total: int, count: nat): (r: real)
    ensures count == 0 ==> r == 0.0
    ensures count > 0 ==> r * (count as real) == total as real
  {
    if count == 0 then 0.0 else (total as real) / (count as real)
  }

  function OfSubject(subjectId: int): Grade -> bool
  {
    (g: Grade) => g.subjectId == subjectId
  }

  function Own(studentId: int): Grade -> bool
  {
    (g: Grade) => g.studentId == studentId
  }

  function FinalOfPeriod(subjectId: int, periodName: string): FinalGrade -> bool
  {
    (f: FinalGrade) => f.subjectId == subjectId && f.periodName == periodName
  }

  /** Strictly ascending under Python string order, hence free of repeats. */
  ghost predicate StrictlyAscending(s: seq<string>)
  {
    forall i, j :: 0 <= i < j < |s| ==> LexLt(s[i], s[j])
  }

  lemma ConsAscending(y: string, t: seq<string>)
    requires StrictlyAscending(t)
    requires forall z :: z in t ==> LexLt(y, z)
    ensures StrictlyAscending([y] + t)
  {
    forall i, j | 0 <= i < j < |[y] + t|
      ensures LexLt(([y] + t)[i], ([y] + t)[j])
    {
      assert ([y] + t)[j] == t[j - 1] && t[j - 1] in t;
      if i > 0 {
        assert ([y] + t)[i] == t[i - 1];
      }
    }
  }

  lemma HeadIsLowest(s: seq<string>, x: string)
    requires StrictlyAscending(s) && |s| > 0 && LexLt(x, s[0])
    ensures forall z :: z in s ==> LexLt(x, z)
  {
    forall z | z in s ensures LexLt(x, z) {
      var j :| 0 <= j < |s| && s[j] == z;
      if j > 0 {
        LexLtTransitive(x, s[0], s[j]);
      }
    }
  }

  /** Adds `x` to an ascending list of distinct strings, unless already there. */
  function InsertDistinct(x: string, s: seq<string>): (r: seq<string>)
    requires StrictlyAscending(s)
    ensures StrictlyAscending(r)
    ensures forall y :: y in r <==> y in s || y == x
  {
    if |s| == 0 then [x]
    else if x == s[0] then s
    else if LexLt(x, s[0]) then
      HeadIsLowest(s, x);
      ConsAscending(x, s);
      [x] + s
    else
      var rest := InsertDistinct(x, s[1..]);
      LexTrichotomy(x, s[0]);
      assert forall z :: z in s[1..] ==> LexLt(s[0], z) by {
        forall z | z in s[1..] ensures LexLt(s[0], z) {
          var k :| 0 <= k < |s[1..]| && s[1..][k] == z;
          assert s[k + 1] == z;
        }
      }
      ConsAscending(s[0], rest);
      assert s == [s[0]] + s[1..];
      [s[0]] + rest
  }

  /** `sorted(set(xs))`. */
  function SortedDistinct(xs: seq<string>): (r: seq<string>)
    ensures StrictlyAscending(r)
    ensures forall y :: y in r <==> y in xs
  {
    if |xs| == 0 then []
    else
      assert xs == xs[..|xs| - 1] + [xs[|xs| - 1]];
      InsertDistinct(xs[|xs| - 1], SortedDistinct(xs[..|xs| - 1]))
  }

  /** `[g.date.isoformat() for g in gs]`. */
  function IsoDates(gs: seq<Grade>): (r: seq<string>)
    ensures |r| == |gs|
    ensures forall i :: 0 <= i < |gs| ==> r[i] == IsoFormat(gs[i].date)
  {
    if |gs| == 0 then [] else [IsoFormat(gs[0].date)] + IsoDates(gs[1..])
  }

  /** The column headers: every date a grade of the subject carries, once,
      as ISO text in ascending order. */
  function MatrixDates(subjectGrades: seq<Grade>): (r: seq<string>)
    ensures StrictlyAscending(r)
    ensures forall y :: y in r <==> exists i :: 0 <= i < |subjectGrades| && IsoFormat(subjectGrades[i].date) == y
  {
    var iso := IsoDates(subjectGrades);
    var r := SortedDistinct(iso);
    assert forall y :: y in iso <==> exists i :: 0 <= i < |iso| && iso[i] == y;
    r
  }

  /** Sum of the grade values, in store order. */
  function Total(gs: seq<Grade>): int
  {
    if |gs| == 0 then 0 else Total(gs[..|gs| - 1]) + gs[|gs| - 1].value
  }

  /** The text a grade is filed under in a row: `g.date.isoformat()`. */
  function DateKey(g: Grade): string
  {
    IsoFormat(g.date)
  }

  /** The dictionary built by setting `key(g)` to `g.value` for each grade in
      order, so that later grades overwrite earlier ones under the same key. */
  function KeyedValues(gs: seq<Grade>, key: Grade -> string): map<string, int>
  {
    if |gs| == 0 then map[]
    else KeyedValues(gs[..|gs| - 1], key)[key(gs[|gs| - 1]) := gs[|gs| - 1].value]
  }

  /** The keys of such a dictionary are exactly the keys of the grades. */
  lemma {:induction false} KeyedValuesDomain(gs: seq<Grade>, key: Grade -> string, k: string)
    ensures k in KeyedValues(gs, key) <==> exists i :: 0 <= i < |gs| && key(gs[i]) == k
    decreases |gs|
  {
    if |gs| > 0 {
      var n := |gs| - 1;
      var pre := gs[..n];
      KeyedValuesDomain(pre, key, k);
      if k != key(gs[n]) {
        if k in KeyedValues(pre, key) {
          var i :| 0 <= i < n && key(pre[i]) == k;
          assert gs[i] == pre[i];
        }
        if exists i :: 0 <= i < |gs| && key(gs[i]) == k {
          var i :| 0 <= i < |gs| && key(gs[i]) == k;
          assert i < n && pre[i] == gs[i];
        }
      }
    }
  }

  /** The row's `{date: value}` dictionary: later grades overwrite earlier
      grades on the same date. */
  function DateMap(gs: seq<Grade>): map<string, int>
  {
    KeyedValues(gs, DateKey)
  }

  /** Appending a grade adds its value to the total and sets its date in the dictionary. */
  lemma FiguresSnoc(gs: seq<Grade>, g: Grade)
    ensures Total(gs + [g]) == Total(gs) + g.value
    ensures DateMap(gs + [g]) == DateMap(gs)[IsoFormat(g.date) := g.value]
  {
    assert (gs + [g])[..|gs|] == gs;
  }

  /** The dictionary's keys are exactly the dates of the grades. */
  lemma DateMapDomain(gs: seq<Grade>, k: string)
    ensures k in DateMap(gs) <==> exists i :: 0 <= i < |gs| && IsoFormat(gs[i].date) == k
  {
    KeyedValuesDomain(gs, DateKey, k);
    assert forall i :: 0 <= i < |gs| ==> DateKey(gs[i]) == IsoFormat(gs[i].date);
  }

  /** `gs[i]` is the last grade dated `k`. */
  ghost predicate LastOn(gs: seq<Grade>, i: int, k: string)
  {
    0 <= i < |gs| && IsoFormat(gs[i].date) == k && forall j :: i < j < |gs| ==> IsoFormat(gs[j].date) != k
  }

  /** Each key holds the value of the last grade on that date. */
  lemma {:induction false} DateMapLast(gs: seq<Grade>, k: string)
    requires k in DateMap(gs)
    ensures exists i :: LastOn(gs, i, k) && DateMap(gs)[k] == gs[i].value
    decreases |gs|
  {
    var n := |gs| - 1;
    var pre := gs[..n];
    var key := IsoFormat(gs[n].date);
    assert DateMap(gs) == DateMap(pre)[key := gs[n].value];
    if k == key {
      assert LastOn(gs, n, k);
    } else {
      assert k in DateMap(pre) && DateMap(gs)[k] == DateMap(pre)[k];
      DateMapLast(pre, k);
      var i :| LastOn(pre, i, k) && DateMap(pre)[k] == pre[i].value;
      LastOnExtends(gs, i, k);
    }
  }

  lemma LastOnExtends(gs: seq<Grade>, i: int, k: string)
    requires |gs| > 0 && LastOn(gs[..|gs| - 1], i, k) && IsoFormat(gs[|gs| - 1].date) != k
    ensures LastOn(gs, i, k) && gs[..|gs| - 1][i] == gs[i]
  {
    assert forall j :: 0 <= j < |gs| - 1 ==> gs[..|gs| - 1][j] == gs[j];
  }

  /** The final grade shown for a student: the first period grade of theirs. */
  function FinalFor(finals: seq<FinalGrade>, studentId: int): (r: Option<int>)
    ensures r.Some? ==> exists j :: 0 <= j < |finals| && finals[j].studentId == studentId && finals[j].value == r.value
                                    && forall k :: 0 <= k < j ==> finals[k].studentId != studentId
    ensures r.None? <==> forall j :: 0 <= j < |finals| ==> finals[j].studentId != studentId
  {
    match First(finals, (f: FinalGrade) => f.studentId == studentId)
    case None => None
    case Some(f) => Some(f.value)
  }

  /** The reference row of a student: figures over the student's own grades. */
  function RowFor(s: Student, subjectGrades: seq<Grade>, finals: seq<FinalGrade>): MatrixRow
  {
    var own := Filter(subjectGrades, Own(s.id));
    MatrixRow(s.id, s.fullName, DateMap(own), Total(own), |own|, FinalFor(finals, s.id))
  }

  /** Every date in a row is one of the matrix's columns. */
  lemma RowDatesAreColumns(s: Student, subjectGrades: seq<Grade>, finals: seq<FinalGrade>)
    ensures forall k :: k in RowFor(s, subjectGrades, finals).grades ==> k in MatrixDates(subjectGrades)
  {
    var own := Filter(subjectGrades, Own(s.id));
    forall k | k in DateMap(own) ensures k in MatrixDates(subjectGrades) {
      DateMapDomain(own, k);
      var i :| 0 <= i < |own| && IsoFormat(own[i].date) == k;
      var j :| 0 <= j < |subjectGrades| && subjectGrades[j] == own[i];
      assert IsoFormat(subjectGrades[j].date) == k;
    }
  }

  /** The columns run in calendar order: each header is the date of some
      grade, strictly earlier than the date of the next header. */
  lemma MatrixDatesChronological(subjectGrades: seq<Grade>, i: int, j: int)
    requires 0 <= i < j < |MatrixDates(subjectGrades)|
    ensures exists a, b :: 0 <= a < |subjectGrades| && 0 <= b < |subjectGrades|
              && IsoFormat(subjectGrades[a].date) == MatrixDates(subjectGrades)[i]
              && IsoFormat(subjectGrades[b].date) == MatrixDates(subjectGrades)[j]
              && Before(subjectGrades[a].date, subjectGrades[b].date)
  {
    var dates := MatrixDates(subjectGrades);
    assert dates[i] in dates && dates[j] in dates;
    var a :| 0 <= a < |subjectGrades| && IsoFormat(subjectGrades[a].date) == dates[i];
    var b :| 0 <= b < |subjectGrades| && IsoFormat(subjectGrades[b].date) == dates[j];
    IsoFormatOrder(subjectGrades[a].date, subjectGrades[b].date);
  }

  /** The running figures of the per-student loop: the dictionary, the sum and the number of grades kept so far. */
  datatype Tally = Tally(grades: map<string, int>, total: int, count: int)

  /** The tally after the first `k` grades of the pass, one step per grade as the loop takes it. */
  function TallyAfter(gs: seq<Grade>, k: nat, studentId: int): Tally
    requires k <= |gs|
  {
    if k == 0 then Tally(map[], 0, 0)
    else
      var t := TallyAfter(gs, k - 1, studentId);
      var g := gs[k - 1];
      if g.studentId == studentId then Tally(t.grades[IsoFormat(g.date) := g.value], t.total + g.value, t.count + 1)
      else t
  }

  /** One more grade of the pass extends the student's own grades exactly when it is theirs. */
  lemma OwnPrefixStep(gs: seq<Grade>, k: nat, studentId: int)
    requires k < |gs|
    ensures gs[k].studentId == studentId ==>
              Filter(gs[..k + 1], Own(studentId)) == Filter(gs[..k], Own(studentId)) + [gs[k]]
    ensures gs[k].studentId != studentId ==>
              Filter(gs[..k + 1], Own(studentId)) == Filter(gs[..k], Own(studentId))
  {
    assert gs[..k + 1] == gs[..k] + [gs[k]];
    FilterSnoc(gs[..k], gs[k], Own(studentId));
    assert Filter(gs[..k], Own(studentId)) + [] == Filter(gs[..k], Own(studentId));
  }

  /** The tally's dictionary after a prefix is the dictionary of the student's own grades in it. */
  lemma {:induction false} TallyGrades(gs: seq<Grade>, k: nat, studentId: int)
    requires k <= |gs|
    ensures TallyAfter(gs, k, studentId).grades == DateMap(Filter(gs[..k], Own(studentId)))
  {
    if k > 0 {
      TallyGrades(gs, k - 1, studentId);
      OwnPrefixStep(gs, k - 1, studentId);
      if gs[k - 1].studentId == studentId {
        FiguresSnoc(Filter(gs[..k - 1], Own(studentId)), gs[k - 1]);
      }
    }
  }

  /** The tally's sum after a prefix is the sum of the student's own grades in it. */
  lemma {:induction false} TallyTotal(gs: seq<Grade>, k: nat, studentId: int)
    requires k <= |gs|
    ensures TallyAfter(gs, k, studentId).total == Total(Filter(gs[..k], Own(studentId)))
  {
    if k > 0 {
      TallyTotal(gs, k - 1, studentId);
      OwnPrefixStep(gs, k - 1, studentId);
      if gs[k - 1].studentId == studentId {
        FiguresSnoc(Filter(gs[..k - 1], Own(studentId)), gs[k - 1]);
      }
    }
  }

  /** The tally's count after a prefix is the number of the student's own grades in it. */
  lemma {:induction false} TallyCount(gs: seq<Grade>, k: nat, studentId: int)
    requires k <= |gs|
    ensures TallyAfter(gs, k, studentId).count == |Filter(gs[..k], Own(studentId))|
  {
    if k > 0 {
      TallyCount(gs, k - 1, studentId);
      OwnPrefixStep(gs, k - 1, studentId);
    }
  }

  /** The per-student loop: one pass over all grades of the subject, keeping
      the student's own, their sum and their number. */
  method OwnFigures(subjectGrades: seq<Grade>, studentId: int)
    returns (studentGrades: map<string, int>, totalSum: int, count: int)
    ensures var own := Filter(subjectGrades, Own(studentId));
            studentGrades == DateMap(own) && totalSum == Total(own) && count == |own|
  {
    studentGrades, totalSum, count := map[], 0, 0;
    var k := 0;
    while k < |subjectGrades|
      invariant 0 <= k <= |subjectGrades|
      invariant Tally(studentGrades, totalSum, count) == TallyAfter(subjectGrades, k, studentId)
    {
      var g := subjectGrades[k];
      if g.studentId == studentId {
        studentGrades := studentGrades[IsoFormat(g.date) := g.value];
        totalSum := totalSum + g.value;
        count := count + 1;
      }
      k := k + 1;
    }
    TallyGrades(subjectGrades, k, studentId);
    TallyTotal(subjectGrades, k, studentId);
    TallyCount(subjectGrades, k, studentId);
    assert subjectGrades[..k] == subjectGrades;
  }

  /** One row of the matrix: the student's figures and their period grade. */
  method BuildRow(s: Student, subjectGrades: seq<Grade>, finals: seq<FinalGrade>) returns (row: MatrixRow)
    ensures row == RowFor(s, subjectGrades, finals)
  {
    var studentGrades, totalSum, count := OwnFigures(subjectGrades, s.id);
    row := MatrixRow(s.id, s.fullName, studentGrades, totalSum, count, FinalFor(finals, s.id));
  }

  /** The loop of `get_grades_matrix`: one row per given student, in the given order. */
  method RowsFor(students: seq<Student>, subjectGrades: seq<Grade>, finals: seq<FinalGrade>)
    returns (matrix: seq<MatrixRow>)
    ensures |matrix| == |students|
    ensures forall k :: 0 <= k < |students| ==> matrix[k] == RowFor(students[k], subjectGrades, finals)
  {
    matrix := [];
    var i := 0;
    while i < |students|
      invariant 0 <= i <= |students|
      invariant |matrix| == i
      invariant forall k :: 0 <= k < i ==> matrix[k] == RowFor(students[k], subjectGrades, finals)
    {
      var row := BuildRow(students[i], subjectGrades, finals);
      matrix := matrix + [row];
      i := i + 1;
    }
  }

  /** `get_grades_matrix`: teacher-level guard; the class roster by name, the
      subject's dates as columns, and one row per roster student. */
  method GradesMatrix(st: Store, caller: User, classId: int, subjectId: int, periodName: string)
    returns (r: Result<Matrix>)
    ensures r.Err? <==> caller.role != "TEACHER" && caller.role != "ADMIN"
    ensures r.Err? ==> r.error == Forbidden
    ensures r.Ok? ==>
              var roster := ClassRoster(st.students, classId);
              var subjectGrades := Filter(st.grades, OfSubject(subjectId));
              var finals := Filter(st.finals, FinalOfPeriod(subjectId, periodName));
              && r.value.dates == MatrixDates(subjectGrades)
              && |r.value.rows| == |roster|
              && forall i :: 0 <= i < |roster| ==> r.value.rows[i] == RowFor(roster[i], subjectGrades, finals)
  {
    if AllowTeacher(caller).Err? {
      return Err(Forbidden);
    }
    var students := ClassRoster(st.students, classId);
    var allGrades := Filter(st.grades, OfSubject(subjectId));
    var dates := MatrixDates(allGrades);
    var allFinals := Filter(st.finals, FinalOfPeriod(subjectId, periodName));
    var matrix := RowsFor(students, allGrades, allFinals);
    return Ok(Matrix(dates, matrix));
  }
}
