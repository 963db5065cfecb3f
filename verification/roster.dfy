/** The class list the grade matrix and the reports iterate over:
    `SELECT students WHERE class_group_id = ? ORDER BY full_name`. */
module Roster {
  import opened Common
  import opened Lex
  import opened Records

  /** Ascending by full name under Python string order. */
  ghost predicate NameSorted(s: seq<Student>)
  {
    forall i, j :: 0 <= i < j < |s| ==> LexLe(s[i].fullName, s[j].fullName)
  }

  /** A name no greater than every name of a sorted list may head it. */
  lemma ConsSorted(y: Student, t: seq<Student>)
    requires NameSorted(t)
    requires forall z :: z in t ==> LexLe(y.fullName, z.fullName)
    ensures NameSorted([y] + t)
  {
    forall i, j | 0 <= i < j < |[y] + t|
      ensures LexLe(([y] + t)[i].fullName, ([y] + t)[j].fullName)
    {
      if i > 0 {
        assert ([y] + t)[i] == t[i - 1] && ([y] + t)[j] == t[j - 1];
      } else {
        assert ([y] + t)[j] == t[j - 1] && t[j - 1] in t;
      }
    }
  }

  lemma HeadIsLeast(s: seq<Student>, name: string)
    requires NameSorted(s) && |s| > 0 && LexLe(name, s[0].fullName)
    ensures forall z :: z in s ==> LexLe(name, z.fullName)
  {
    forall z | z in s ensures LexLe(name, z.fullName) {
      var j :| 0 <= j < |s| && s[j] == z;
      if j > 0 {
        LexLeTransitive(name, s[0].fullName, s[j].fullName);
      }
    }
  }

  function InsertByName(x: Student, s: seq<Student>): (r: seq<Student>)
    requires NameSorted(s)
    ensures NameSorted(r)
    ensures multiset(r) == multiset(s) + multiset{x}
  {
    if |s| == 0 then [x]
    else if LexLe(x.fullName, s[0].fullName) then
      HeadIsLeast(s, x.fullName);
      ConsSorted(x, s);
      [x] + s
    else
      var rest := InsertByName(x, s[1..]);
      LexLeTotal(x.fullName, s[0].fullName);
      InsertAboveHead(x, s, rest);
      ConsSorted(s[0], rest);
      assert s == [s[0]] + s[1..];
      [s[0]] + rest
  }

  lemma InsertAboveHead(x: Student, s: seq<Student>, rest: seq<Student>)
    requires NameSorted(s) && |s| > 0 && LexLe(s[0].fullName, x.fullName)
    requires multiset(rest) == multiset(s[1..]) + multiset{x}
    ensures forall z :: z in rest ==> LexLe(s[0].fullName, z.fullName)
  {
    forall z | z in rest ensures LexLe(s[0].fullName, z.fullName) {
      assert z in multiset(rest);
      if z != x {
        assert z in multiset(s[1..]);
        var k :| 0 <= k < |s[1..]| && s[1..][k] == z;
        assert s[k + 1] == z;
      }
    }
  }

  /** Orders students by full name, keeping every row (ties in any order). */
  function SortByName(s: seq<Student>): (r: seq<Student>)
    ensures NameSorted(r)
    ensures multiset(r) == multiset(s)
  {
    if |s| == 0 then []
    else
      assert s == [s[0]] + s[1..];
      InsertByName(s[0], SortByName(s[1..]))
  }

  function InClass(classId: int): Student -> bool
  {
    (s: Student) => s.classGroupId == classId
  }

  /** The class roster: exactly the students of the class, each once per row, by name. */
  function ClassRoster(students: seq<Student>, classId: int): (r: seq<Student>)
    ensures NameSorted(r)
    ensures multiset(r) == multiset(Filter(students, InClass(classId)))
    ensures forall x :: x in r <==> x in students && x.classGroupId == classId
  {
    var r := SortByName(Filter(students, InClass(classId)));
    assert forall x :: x in r <==> x in multiset(r);
    r
  }
}
