/** The persisted entities of the school back end and the store that holds
    them: one sequence per table, in insertion order, since the endpoints'
    `.first()` and unordered `.all()` results depend on that order. */
module Records {
  import opened Common
  import opened Calendar

  const ADMIN: string := "ADMIN"
  const TEACHER: string := "TEACHER"
  const STUDENT: string := "STUDENT"

  datatype User = User(id: int, email: string, hashedPassword: string, role: string, isActive: bool)

  datatype ClassGroup = ClassGroup(id: int, name: string)

  datatype Subject = Subject(id: int, name: string)

  datatype Student = Student(id: int, fullName: string, classGroupId: int)

  /** A daily grade; natural key (studentId, subjectId, date). */
  datatype Grade = Grade(id: int, value: int, date: Date, studentId: int, subjectId: int)

  /** A period grade such as a quarter or the year; natural key (studentId, subjectId, periodName). */
  datatype FinalGrade = FinalGrade(id: int, periodName: string, value: int, studentId: int, subjectId: int)

  /** An attendance mark; natural key (studentId, date). Status is free text
      ("PRESENT", "ABSENT", "LATE" by convention). */
  datatype AttendanceMark = AttendanceMark(id: int, date: Date, status: string, studentId: int, teacherId: Option<int>)

  /** One lesson slot of the weekly timetable. Day and times are free text. */
  datatype ScheduleItem = ScheduleItem(
    id: int,
    dayOfWeek: string,
    startTime: string,
    endTime: string,
    roomNumber: string,
    classGroupId: int,
    subjectId: int,
    teacherId: int)

  /** One entry of the bell timetable: lesson number `order` and its times. */
  datatype Bell = Bell(id: int, order: int, startTime: string, endTime: string)

  datatype Store = Store(
    users: seq<User>,
    classes: seq<ClassGroup>,
    subjects: seq<Subject>,
    students: seq<Student>,
    grades: seq<Grade>,
    finals: seq<FinalGrade>,
    attendance: seq<AttendanceMark>,
    schedules: seq<ScheduleItem>,
    bells: seq<Bell>)

  /* Primary-key lookups, `db.get(Model, id)`: the index of the row with that key. */

  function UserAt(users: seq<User>, id: int): (r: Option<nat>)
    ensures r.Some? ==> r.value < |users| && users[r.value].id == id
    ensures r.None? <==> forall j :: 0 <= j < |users| ==> users[j].id != id
  {
    FirstIndex(users, (u: User) => u.id == id)
  }

  function ClassAt(classes: seq<ClassGroup>, id: int): (r: Option<nat>)
    ensures r.Some? ==> r.value < |classes| && classes[r.value].id == id
    ensures r.None? <==> forall j :: 0 <= j < |classes| ==> classes[j].id != id
  {
    FirstIndex(classes, (c: ClassGroup) => c.id == id)
  }

  function SubjectAt(subjects: seq<Subject>, id: int): (r: Option<nat>)
    ensures r.Some? ==> r.value < |subjects| && subjects[r.value].id == id
    ensures r.None? <==> forall j :: 0 <= j < |subjects| ==> subjects[j].id != id
  {
    FirstIndex(subjects, (s: Subject) => s.id == id)
  }

  function StudentAt(students: seq<Student>, id: int): (r: Option<nat>)
    ensures r.Some? ==> r.value < |students| && students[r.value].id == id
    ensures r.None? <==> forall j :: 0 <= j < |students| ==> students[j].id != id
  {
    FirstIndex(students, (s: Student) => s.id == id)
  }

  function ScheduleItemAt(items: seq<ScheduleItem>, id: int): (r: Option<nat>)
    ensures r.Some? ==> r.value < |items| && items[r.value].id == id
    ensures r.None? <==> forall j :: 0 <= j < |items| ==> items[j].id != id
  {
    FirstIndex(items, (s: ScheduleItem) => s.id == id)
  }

  function BellAt(bells: seq<Bell>, id: int): (r: Option<nat>)
    ensures r.Some? ==> r.value < |bells| && bells[r.value].id == id
    ensures r.None? <==> forall j :: 0 <= j < |bells| ==> bells[j].id != id
  {
    FirstIndex(bells, (b: Bell) => b.id == id)
  }

  /* The next primary key of each table. */

  function NewUserId(users: seq<User>): (r: int)
    ensures forall j :: 0 <= j < |users| ==> users[j].id != r
  {
    FreshKey(users, (x: User) => x.id)
  }

  function NewClassId(classes: seq<ClassGroup>): (r: int)
    ensures forall j :: 0 <= j < |classes| ==> classes[j].id != r
  {
    FreshKey(classes, (x: ClassGroup) => x.id)
  }

  function NewSubjectId(subjects: seq<Subject>): (r: int)
    ensures forall j :: 0 <= j < |subjects| ==> subjects[j].id != r
  {
    FreshKey(subjects, (x: Subject) => x.id)
  }

  /** Larger than every student key, so that a batch of inserts can number on from it. */
  function NewStudentId(students: seq<Student>): (r: int)
    ensures forall j :: 0 <= j < |students| ==> students[j].id < r
  {
    FreshKey(students, (x: Student) => x.id)
  }

  function NewGradeId(grades: seq<Grade>): (r: int)
    ensures forall j :: 0 <= j < |grades| ==> grades[j].id != r
  {
    FreshKey(grades, (x: Grade) => x.id)
  }

  function NewFinalGradeId(finals: seq<FinalGrade>): (r: int)
    ensures forall j :: 0 <= j < |finals| ==> finals[j].id != r
  {
    FreshKey(finals, (x: FinalGrade) => x.id)
  }

  function NewMarkId(marks: seq<AttendanceMark>): (r: int)
    ensures forall j :: 0 <= j < |marks| ==> marks[j].id != r
  {
    FreshKey(marks, (x: AttendanceMark) => x.id)
  }

  function NewScheduleItemId(items: seq<ScheduleItem>): (r: int)
    ensures forall j :: 0 <= j < |items| ==> items[j].id != r
  {
    FreshKey(items, (x: ScheduleItem) => x.id)
  }

  function NewBellId(bells: seq<Bell>): (r: int)
    ensures forall j :: 0 <= j < |bells| ==> bells[j].id != r
  {
    FreshKey(bells, (x: Bell) => x.id)
  }
}
