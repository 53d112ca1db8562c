/** The group registry: models/group.js and controllers/groupController.js.
    A group is a (course, groupNo) pair; the schema trims groupNo, limits it
    to ten UTF-16 code units and takes course from a fixed list, and a
    unique compound index keeps the pair unique. Mongoose applies the trim
    setter to query filters and to updates as well as to new documents, so
    the handlers' own lookups already see the trimmed value. */
module Groups {
  import opened Js
  import opened Tables
  import opened Sorting
  import opened Store

  const COURSES: seq<string> := [
    "Front-end", "Back-end", "Graphic Design", "UX/UI Design",
    "Digital Architecture", "2D Motion Design", "Digital Marketing", "Cybersecurity"
  ]

  const GROUP_NO_MAX: nat := 10

  const MSG_REQUIRED := "Group number and course required"
  const MSG_EXISTS := "This group already exists."
  const MSG_NOT_FOUND := "Group not found"
  const MSG_CREATED := "Group created successfully"
  const MSG_UPDATED := "Group updated successfully."
  const MSG_DELETED := "Group successfully deleted."
  const MSG_UPDATE_FAILED := "Unable to update group"
  const MSG_COURSE_REQUIRED := "Course required"
  const SERVER_ERROR := "Server error: "

  /** The schema's constraints on a groupNo that has been trimmed already. */
  predicate GroupFieldsValid(groupNo: string, course: string)
  {
    groupNo != "" && Utf16Length(groupNo) <= GROUP_NO_MAX && course in COURSES
  }

  /** A group the schema would store. */
  predicate WellFormedGroup(g: Group)
  {
    g.groupNo == Trim(g.groupNo) && GroupFieldsValid(g.groupNo, g.course)
  }

  ghost predicate GroupsWellFormed(t: Table<Group>)
  {
    forall id :: id in t.rows ==> WellFormedGroup(t.rows[id])
  }

  /** The failing validators of the schema, path by path in schema order,
      each as Mongoose reports it (`path: message`); a path reports only its
      first failing validator. */
  function Violations(groupNo: string, course: string): (r: seq<string>)
    ensures r == [] <==> GroupFieldsValid(groupNo, course)
    ensures |r| <= 2
  {
    (if groupNo == "" then ["groupNo: Group number required"]
     else if Utf16Length(groupNo) > GROUP_NO_MAX then ["groupNo: The group number can be a maximum of 10 characters."]
     else [])
    + (if course !in COURSES then ["course: Choose a valid course"] else [])
  }

  function JoinComma(parts: seq<string>): string
  {
    if parts == [] then "" else if |parts| == 1 then parts[0] else parts[0] + ", " + JoinComma(parts[1..])
  }

  /** The message of a Mongoose ValidationError for a group. */
  function ValidationMessage(errs: seq<string>): string
  {
    "Group validation failed: " + JoinComma(errs)
  }

  /** Some stored group other than `except` holds exactly this pair:
      `Group.findOne({ groupNo, course, _id: { $ne: except } })`. */
  predicate Holds(t: Table<Group>, groupNo: string, course: string, except: Option<Id>)
  {
    exists id :: id in t.rows && t.rows[id] == Group(groupNo, course) && except != Some(id)
  }

  /** The `fullName` virtual. */
  function FullName(g: Group): (r: string)
    ensures |r| == |g.course| + 3 + |g.groupNo|
    ensures r[..|g.course|] == g.course && r[|g.course|..] == " - " + g.groupNo
  {
    g.course + " - " + g.groupNo
  }

  // ---------------------------------------------------------------- handlers

  /** createGroup: the pair is looked up with groupNo trimmed, and the
      schema validates the trimmed value when the group is saved. */
  function CreateGroup(db: Db, groupNo: Field, course: Field): (r: Step)
    requires Consistent(db)
    ensures Consistent(r.db)
    ensures r.http.code in {201, 400, 500}
    ensures r.http.code != 201 ==> r.db == db
    ensures r.http.code == 400 <==>
      !Truthy(groupNo) || !Truthy(course) || Holds(db.groups, Trim(groupNo.value), course.value, None)
    ensures r.http.code == 201 <==>
      && Truthy(groupNo) && Truthy(course)
      && GroupFieldsValid(Trim(groupNo.value), course.value)
      && !Holds(db.groups, Trim(groupNo.value), course.value, None)
    ensures r.http.code == 201 ==>
      && r.db == db.(groups := r.db.groups)
      && Extends(db.groups, r.db.groups, [Group(Trim(groupNo.value), course.value)])
    ensures GroupsWellFormed(db.groups) ==> GroupsWellFormed(r.db.groups)
  {
    if !Truthy(groupNo) || !Truthy(course) then Reject(db, 400, MSG_REQUIRED)
    else
      var g := Group(Trim(groupNo.value), course.value);
      if Holds(db.groups, g.groupNo, g.course, None) then Reject(db, 400, MSG_EXISTS)
      else
        var errs := Violations(g.groupNo, g.course);
        if errs != [] then Reject(db, 500, SERVER_ERROR + ValidationMessage(errs))
        else
          TrimIdempotent(groupNo.value);
          InsertKeepsUnique(db.groups, g);
          Step(Http(201, MSG_CREATED), db.(groups := Insert(db.groups, g)))
  }

  /** updateGroup. Update validators run before the document is looked up,
      so a request that fails them answers 500 even for an unknown id. */
  function UpdateGroup(db: Db, id: Id, groupNo: Field, course: Field): (r: Step)
    requires Consistent(db)
    ensures Consistent(r.db)
    ensures r.http.code in {200, 400, 404, 500}
    ensures r.http.code != 200 ==> r.db == db
    ensures r.http.code == 400 <==>
      !Truthy(groupNo) || !Truthy(course) || Holds(db.groups, Trim(groupNo.value), course.value, Some(id))
    ensures r.http.code == 404 <==>
      && Truthy(groupNo) && Truthy(course) && id !in db.groups.rows
      && GroupFieldsValid(Trim(groupNo.value), course.value)
      && !Holds(db.groups, Trim(groupNo.value), course.value, Some(id))
    ensures r.http.code == 200 <==>
      && Truthy(groupNo) && Truthy(course) && id in db.groups.rows
      && GroupFieldsValid(Trim(groupNo.value), course.value)
      && !Holds(db.groups, Trim(groupNo.value), course.value, Some(id))
    ensures r.http.code == 200 ==>
      && r.db == db.(groups := r.db.groups)
      && r.db.groups == Put(db.groups, id, Group(Trim(groupNo.value), course.value))
    ensures GroupsWellFormed(db.groups) ==> GroupsWellFormed(r.db.groups)
  {
    if !Truthy(groupNo) || !Truthy(course) then Reject(db, 400, MSG_REQUIRED)
    else
      var g := Group(Trim(groupNo.value), course.value);
      if Holds(db.groups, g.groupNo, g.course, Some(id)) then Reject(db, 400, MSG_EXISTS)
      else if Violations(g.groupNo, g.course) != [] then Reject(db, 500, MSG_UPDATE_FAILED)
      else if id !in db.groups.rows then Reject(db, 404, MSG_NOT_FOUND)
      else
        TrimIdempotent(groupNo.value);
        PutKeepsUnique(db.groups, id, g);
        Step(Http(200, MSG_UPDATED), db.(groups := Put(db.groups, id, g)))
  }

  /** deleteGroup: no reference from an assignment or a material is
      consulted, and only the group table changes. */
  function DeleteGroup(db: Db, id: Id): (r: Step)
    requires Consistent(db)
    ensures Consistent(r.db)
    ensures r.http.code == 200 || r.http.code == 404
    ensures r.http.code == 200 <==> id in db.groups.rows
    ensures r.http.code == 404 ==> r.db == db
    ensures r.db == db.(groups := r.db.groups)
    ensures r.db.groups.rows.Keys == db.groups.rows.Keys - {id}
    ensures forall k :: k in r.db.groups.rows ==> r.db.groups.rows[k] == db.groups.rows[k]
    ensures GroupsWellFormed(db.groups) ==> GroupsWellFormed(r.db.groups)
  {
    if id !in db.groups.rows then Reject(db, 404, MSG_NOT_FOUND)
    else Step(Http(200, MSG_DELETED), db.(groups := Delete(db.groups, id)))
  }

  /** The listing a `find` handler answers with. */
  datatype Listing<T> = Listing(code: nat, items: seq<T>, count: nat)

  function CourseThenGroupNo(x: (Id, Group)): (string, string)
  {
    (x.1.course, x.1.groupNo)
  }

  function GroupNoOf(x: (Id, Group)): string
  {
    x.1.groupNo
  }

  /** getGroups: every group once, by course and then by groupNo. */
  function GetGroups(db: Db): (r: Listing<(Id, Group)>)
    requires Consistent(db)
    ensures r.code == 200 && r.count == |r.items|
    ensures multiset(r.items) == multiset(Query(db.groups, (g: Group) => true))
    ensures forall x :: x in r.items <==> x.0 in db.groups.rows && x.1 == db.groups.rows[x.0]
    ensures SortedByKey(r.items, CourseThenGroupNo, PairLe)
  {
    PairLeIsTotalPreorder();
    var all := Query(db.groups, (g: Group) => true);
    var items := SortByKey(all, CourseThenGroupNo, PairLe);
    assert forall x :: x in items <==> x in multiset(items);
    Listing(200, items, |items|)
  }

  /** getGroupsByCourse: the groups of one course, by groupNo. */
  function GetGroupsByCourse(db: Db, course: Field): (r: Listing<(Id, Group)>)
    requires Consistent(db)
    ensures r.code == 200 || r.code == 400
    ensures r.code == 400 <==> !Truthy(course)
    ensures r.code == 400 ==> r.items == []
    ensures r.count == |r.items|
    ensures r.code == 200 ==>
      && (forall x :: x in r.items <==> x.0 in db.groups.rows && x.1 == db.groups.rows[x.0] && x.1.course == course.value)
      && multiset(r.items) == multiset(Query(db.groups, (g: Group) => g.course == course.value))
      && SortedByKey(r.items, GroupNoOf, LexLe)
  {
    if !Truthy(course) then Listing(400, [], 0)
    else
      LexLeIsTotalPreorder();
      var c := course.value;
      var matching := Query(db.groups, (g: Group) => g.course == c);
      var items := SortByKey(matching, GroupNoOf, LexLe);
      assert forall x :: x in items <==> x in multiset(items);
      Listing(200, items, |items|)
  }

  // ------------------------------------------------------------------ lemmas

  lemma InsertKeepsUnique(t: Table<Group>, g: Group)
    requires Tables.Valid(t) && UniquePairs(t) && !Holds(t, g.groupNo, g.course, None)
    ensures UniquePairs(Insert(t, g))
  {
  }

  lemma PutKeepsUnique(t: Table<Group>, id: Id, g: Group)
    requires id in t.rows && UniquePairs(t) && !Holds(t, g.groupNo, g.course, Some(id))
    ensures UniquePairs(Put(t, id, g))
  {
  }

  /** Creating a pair that is already stored, possibly with blanks around
      its groupNo, is refused by the handler's own lookup. */
  lemma CreateExistingFails(db: Db, groupNo: Field, course: Field)
    requires Consistent(db) && Truthy(groupNo) && Truthy(course)
    requires Holds(db.groups, Trim(groupNo.value), course.value, None)
    ensures CreateGroup(db, groupNo, course) == Step(Http(400, MSG_EXISTS), db)
  {
  }

  /** Saving a group under the pair it already has is allowed. */
  lemma UpdateToOwnPair(db: Db, id: Id)
    requires Consistent(db) && id in db.groups.rows && WellFormedGroup(db.groups.rows[id])
    ensures var g := db.groups.rows[id];
      var r := UpdateGroup(db, id, Some(g.groupNo), Some(g.course));
      r.http.code == 200 && r.db == db
  {
    var g := db.groups.rows[id];
    OwnPairAdmitted(db, id);
    var r := UpdateGroup(db, id, Some(g.groupNo), Some(g.course));
    assert r.db.groups.rows == db.groups.rows;
  }

  /** A stored well-formed group passes every check of an update to itself. */
  lemma OwnPairAdmitted(db: Db, id: Id)
    requires Consistent(db) && id in db.groups.rows && WellFormedGroup(db.groups.rows[id])
    ensures var g := db.groups.rows[id];
      && Truthy(Some(g.groupNo)) && Trim(g.groupNo) == g.groupNo
      && GroupFieldsValid(g.groupNo, g.course)
      && !Holds(db.groups, g.groupNo, g.course, Some(id))
  {
    var g := db.groups.rows[id];
    forall k | k in db.groups.rows && db.groups.rows[k] == Group(g.groupNo, g.course) ensures k == id {
      assert db.groups.rows[k] == db.groups.rows[id];
    }
  }

  /** Deleting a group frees its pair: the same pair can then be created
      again. */
  lemma DeleteFreesPair(db: Db, id: Id)
    requires Consistent(db) && id in db.groups.rows && WellFormedGroup(db.groups.rows[id])
    ensures var g := db.groups.rows[id];
      var db1 := DeleteGroup(db, id).db;
      CreateGroup(db1, Some(g.groupNo), Some(g.course)).http.code == 201
  {
    var db1 := DeleteGroup(db, id).db;
    DeletedPairFree(db, id);
    assert db1.groups == Delete(db.groups, id);
  }

  /** Once a group is deleted no row holds its pair, and the pair passes
      the checks of a creation. */
  lemma DeletedPairFree(db: Db, id: Id)
    requires Consistent(db) && id in db.groups.rows && WellFormedGroup(db.groups.rows[id])
    ensures var g := db.groups.rows[id];
      && Truthy(Some(g.groupNo)) && Trim(g.groupNo) == g.groupNo
      && GroupFieldsValid(g.groupNo, g.course)
      && !Holds(Delete(db.groups, id), g.groupNo, g.course, None)
  {
    var g := db.groups.rows[id];
    var t := Delete(db.groups, id);
    forall k | k in t.rows ensures t.rows[k] != g {
      assert db.groups.rows[k] == t.rows[k];
    }
  }

  /** Two course names always differ within the shorter one's length: the
      first letters differ, except for the two `Digital` courses, which
      differ at index 8. */
  lemma CoursesDistinguishable(a: string, b: string)
    requires a in COURSES && b in COURSES && a != b
    ensures exists i :: 0 <= i < |a| && i < |b| && a[i] != b[i]
  {
    if a[0] != b[0] {
      assert a[0] != b[0];
    } else {
      assert a[8] != b[8];
    }
  }

  /** `fullName` identifies a valid group: no course name is a prefix of
      another, so the course and then the groupNo can be read back. */
  lemma FullNameInjective(g: Group, h: Group)
    requires g.course in COURSES && h.course in COURSES
    requires FullName(g) == FullName(h)
    ensures g == h
  {
    if g.course != h.course {
      CoursesDistinguishable(g.course, h.course);
    }
    var n := |g.course|;
    assert " - " + g.groupNo == FullName(g)[n..] == FullName(h)[n..] == " - " + h.groupNo;
    assert g.groupNo == (" - " + g.groupNo)[3..];
    assert h.groupNo == (" - " + h.groupNo)[3..];
  }
}
