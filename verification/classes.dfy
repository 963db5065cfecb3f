/** The class-group endpoint with a name pre-check. */
module ClassesApi {
  import opened Common
  import opened Records
  import opened Deps

  /** No two classes share a name, as the UNIQUE constraint on the name column demands. */
  ghost predicate UniqueClassNames(classes: seq<ClassGroup>)
  {
    KeysDistinct(classes, (c: ClassGroup) => c.name)
  }

  /** `create_class`: admin only; a name already in use is refused with 400;
      otherwise one class with the name is appended. */
  function CreateClass(st: Store, caller: User, name: string): (r: Result<Store>)
    ensures caller.role != "ADMIN" ==> r == Err(Forbidden)
    ensures caller.role == "ADMIN" && (exists j :: 0 <= j < |st.classes| && st.classes[j].name == name)
            ==> r == Err(DuplicateClassName)
    ensures r.Ok? <==> caller.role == "ADMIN" && forall j :: 0 <= j < |st.classes| ==> st.classes[j].name != name
    ensures r.Ok? ==>
              && r.value == st.(classes := r.value.classes)
              && |r.value.classes| == |st.classes| + 1
              && r.value.classes[..|st.classes|] == st.classes
              && r.value.classes[|st.classes|].name == name
              && forall j :: 0 <= j < |st.classes| ==> st.classes[j].id != r.value.classes[|st.classes|].id
  {
    if AllowAdmin(caller).Err? then Err(Forbidden)
    else if First(st.classes, (c: ClassGroup) => c.name == name).Some? then Err(DuplicateClassName)
    else
      var added := st.classes + [ClassGroup(NewClassId(st.classes), name)];
      assert added[..|st.classes|] == st.classes;
      Ok(st.(classes := added))
  }

  /** Creating classes through this endpoint keeps names unique. */
  lemma CreateClassKeepsNamesUnique(st: Store, caller: User, name: string)
    requires UniqueClassNames(st.classes)
    requires CreateClass(st, caller, name).Ok?
    ensures UniqueClassNames(CreateClass(st, caller, name).value.classes)
  {
    var c := CreateClass(st, caller, name).value.classes;
    forall i, j | 0 <= i < j < |c| ensures c[i].name != c[j].name {
      if j < |st.classes| {
        assert c[i] == st.classes[i] && c[j] == st.classes[j];
      } else {
        assert c[i] == st.classes[i];
      }
    }
  }

  /** The same name posted twice is refused the second time. */
  lemma SecondCreateRefused(st: Store, caller: User, name: string)
    requires CreateClass(st, caller, name).Ok?
    ensures CreateClass(CreateClass(st, caller, name).value, caller, name) == Err(DuplicateClassName)
  {
    var c := CreateClass(st, caller, name).value.classes;
    assert c[|st.classes|].name == name;
  }
}
