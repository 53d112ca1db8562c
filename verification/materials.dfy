/** Course materials: controllers/materialController.js. A material is a
    PDF stored under `/uploads/materials/` or a link to a video. Teachers
    add them; only the uploader may change or remove one; anyone may list
    them through a filter built from the query string. */
module Materials {
  import opened Js
  import opened Tables
  import opened Sorting
  import opened Store
  import opened Links

  const PDF := "pdf"
  const VIDEO := "video"
  const ALL_GROUPS := "all"
  const UPLOAD_DIR := "/uploads/materials/"

  const MSG_ONLY_TEACHERS_ADD := "Only teachers can add materials"
  const MSG_ONLY_TEACHERS_EDIT := "Only teachers can edit material"
  const MSG_ONLY_TEACHERS_DELETE := "Only teachers can delete material"
  const MSG_UPLOAD_ERROR := "File upload error"
  const MSG_BAD_VIDEO := "Please enter a valid video URL."
  const MSG_NO_SOURCE := "A file or URL for a video is required for a PDF."
  const MSG_ADDED := "Material added successfully"
  const MSG_NOT_FOUND := "Material not found"
  const MSG_NO_EDIT := "You do not have permission to edit this material."
  const MSG_NO_DELETE := "You do not have permission to delete this material."
  const MSG_UPDATED := "Material updated successfully."
  const MSG_DELETED := "Material successfully deleted."

  /** What the upload middleware made of the request's `file` part: no
      file, a PDF saved under a generated name, or an error (a file that is
      not a PDF, among others) with its message. */
  datatype Upload = NoFile | PdfFile(filename: string) | Refused(message: string)

  /** The text fields of a create or update request. */
  datatype MaterialForm = MaterialForm(
    title: Field, kind: Field, course: Field, description: Field, groupNo: Field, url: Field)

  /** `err.message || 'File upload error'` */
  function UploadError(message: string): (m: string)
    ensures m != ""
  {
    if message != "" then message else MSG_UPLOAD_ERROR
  }

  /** Where a material's content lives: the uploaded PDF for a PDF with a
      file, else the request's URL for a video with a URL; Err carries the
      answer when neither applies or the URL is not a video link. */
  datatype Source = Url(url: string) | NoSource(code: nat, message: string)

  function ChooseUrl(q: MaterialForm, upload: Upload): (s: Source)
    ensures s.Url? <==>
      || (q.kind == Some(PDF) && upload.PdfFile?)
      || (q.kind == Some(VIDEO) && Truthy(q.url) && IsVideoUrl(q.url.value))
    ensures q.kind == Some(PDF) && upload.PdfFile? ==> s == Url(UPLOAD_DIR + upload.filename)
    ensures q.kind == Some(VIDEO) && Truthy(q.url) ==>
      s == (if IsVideoUrl(q.url.value) then Url(q.url.value) else NoSource(400, MSG_BAD_VIDEO))
    ensures s.NoSource? ==> s.code == 400
  {
    if q.kind == Some(PDF) && upload.PdfFile? then Url(UPLOAD_DIR + upload.filename)
    else if q.kind == Some(VIDEO) && Truthy(q.url) then
      if IsVideoUrl(q.url.value) then Url(q.url.value) else NoSource(400, MSG_BAD_VIDEO)
    else NoSource(400, MSG_NO_SOURCE)
  }

  /** The material schema accepts the new document. */
  predicate Storable(q: MaterialForm)
  {
    Truthy(q.title) && Truthy(q.course) && Truthy(q.groupNo)
  }

  /** createMaterial. A save the schema refuses happens inside the upload
      callback, where nothing catches it: the request gets no answer
      (`NO_REPLY`), and on Node.js 15 or later the process exits. */
  function CreateMaterial(db: Db, caller: Caller, upload: Upload, q: MaterialForm, now: Time): (r: Step)
    requires Consistent(db)
    ensures Consistent(r.db)
    ensures r.http.code in {201, 400, 403, NO_REPLY}
    ensures r.http.code != 201 ==> r.db == db
    ensures r.http.code == 403 <==> caller.role != TEACHER
    ensures caller.role == TEACHER && upload.Refused? ==> r == Reject(db, 400, UploadError(upload.message))
    ensures r.http.code == 400 <==>
      caller.role == TEACHER && (upload.Refused? || ChooseUrl(q, upload).NoSource?)
    ensures r.http.code == 201 <==>
      caller.role == TEACHER && !upload.Refused? && ChooseUrl(q, upload).Url? && Storable(q)
    ensures r.http.code == 201 ==>
      && r.db == db.(materials := r.db.materials)
      && Extends(db.materials, r.db.materials,
           [Material(q.title.value, q.kind.value, q.course.value, ChooseUrl(q, upload).url,
                     q.description, q.groupNo.value, caller.id, now)])
  {
    if caller.role != TEACHER then Reject(db, 403, MSG_ONLY_TEACHERS_ADD)
    else if upload.Refused? then Reject(db, 400, UploadError(upload.message))
    else
      var source := ChooseUrl(q, upload);
      if source.NoSource? then Reject(db, source.code, source.message)
      else if !Storable(q) then Reject(db, NO_REPLY, "")
      else
        var m := Material(q.title.value, q.kind.value, q.course.value, source.url,
                          q.description, q.groupNo.value, caller.id, now);
        Step(Http(201, MSG_ADDED), db.(materials := Insert(db.materials, m)))
  }

  /** `{ $set: updateData }` with the keys the body leaves out dropped, so
      those fields keep their values; nothing is validated. */
  function Patch(m: Material, q: MaterialForm, url: string): (p: Material)
    ensures p.uploadedBy == m.uploadedBy && p.uploadDate == m.uploadDate && p.url == url
    ensures q.title.None? ==> p.title == m.title
    ensures q.title.Some? ==> p.title == q.title.value
  {
    m.(title := if q.title.Some? then q.title.value else m.title,
       kind := if q.kind.Some? then q.kind.value else m.kind,
       course := if q.course.Some? then q.course.value else m.course,
       description := if q.description.Some? then q.description else m.description,
       groupNo := if q.groupNo.Some? then q.groupNo.value else m.groupNo,
       url := url)
  }

  /** The URL an update leaves: a new PDF's path, a new video link, and
      otherwise the stored URL. */
  function NewUrl(m: Material, q: MaterialForm, upload: Upload): (s: Source)
    ensures !upload.PdfFile? && !Truthy(q.url) ==> s == Url(m.url)
    ensures s.Url? && s.url != m.url ==>
      (q.kind == Some(PDF) && upload.PdfFile? && s.url == UPLOAD_DIR + upload.filename)
      || (q.kind == Some(VIDEO) && Truthy(q.url) && s.url == q.url.value && IsVideoUrl(s.url))
    ensures s.NoSource? <==> (q.kind == Some(VIDEO) && Truthy(q.url) && !IsVideoUrl(q.url.value))
  {
    if q.kind == Some(PDF) && upload.PdfFile? then Url(UPLOAD_DIR + upload.filename)
    else if q.kind == Some(VIDEO) && Truthy(q.url) then
      if IsVideoUrl(q.url.value) then Url(q.url.value) else NoSource(400, MSG_BAD_VIDEO)
    else Url(m.url)
  }

  /** The caller uploaded the stored material. */
  predicate Owns(db: Db, caller: Caller, id: Id)
  {
    id in db.materials.rows && db.materials.rows[id].uploadedBy == caller.id
  }

  /** updateMaterial */
  function UpdateMaterial(db: Db, caller: Caller, id: Id, upload: Upload, q: MaterialForm): (r: Step)
    requires Consistent(db)
    ensures Consistent(r.db)
    ensures r.http.code in {200, 400, 403, 404}
    ensures r.http.code != 200 ==> r.db == db
    ensures r.db == db.(materials := r.db.materials)
    ensures caller.role != TEACHER ==> r == Reject(db, 403, MSG_ONLY_TEACHERS_EDIT)
    ensures caller.role == TEACHER && upload.Refused? ==> r == Reject(db, 400, UploadError(upload.message))
    ensures caller.role == TEACHER && !upload.Refused? ==>
      && (id !in db.materials.rows ==> r == Reject(db, 404, MSG_NOT_FOUND))
      && (id in db.materials.rows && !Owns(db, caller, id) ==> r == Reject(db, 403, MSG_NO_EDIT))
    ensures r.http.code == 200 <==>
      caller.role == TEACHER && !upload.Refused? && Owns(db, caller, id)
      && NewUrl(db.materials.rows[id], q, upload).Url?
    ensures r.http.code == 200 ==>
      var m := db.materials.rows[id];
      r.db.materials == Put(db.materials, id, Patch(m, q, NewUrl(m, q, upload).url))
  {
    if caller.role != TEACHER then Reject(db, 403, MSG_ONLY_TEACHERS_EDIT)
    else if upload.Refused? then Reject(db, 400, UploadError(upload.message))
    else if id !in db.materials.rows then Reject(db, 404, MSG_NOT_FOUND)
    else
      var m := db.materials.rows[id];
      if m.uploadedBy != caller.id then Reject(db, 403, MSG_NO_EDIT)
      else
        var source := NewUrl(m, q, upload);
        if source.NoSource? then Reject(db, source.code, source.message)
        else Step(Http(200, MSG_UPDATED), db.(materials := Put(db.materials, id, Patch(m, q, source.url))))
  }

  /** deleteMaterial: only the uploader removes a material, and only it. */
  function DeleteMaterial(db: Db, caller: Caller, id: Id): (r: Step)
    requires Consistent(db)
    ensures Consistent(r.db)
    ensures r.http.code in {200, 403, 404}
    ensures r.http.code == 200 <==> caller.role == TEACHER && Owns(db, caller, id)
    ensures r.http.code == 404 <==> caller.role == TEACHER && id !in db.materials.rows
    ensures r.http.code != 200 ==> r.db == db
    ensures r.db == db.(materials := r.db.materials)
    ensures r.db.materials.rows.Keys == db.materials.rows.Keys - (if r.http.code == 200 then {id} else {})
    ensures forall k :: k in r.db.materials.rows ==> r.db.materials.rows[k] == db.materials.rows[k]
  {
    if caller.role != TEACHER then Reject(db, 403, MSG_ONLY_TEACHERS_DELETE)
    else if id !in db.materials.rows then Reject(db, 404, MSG_NOT_FOUND)
    else if db.materials.rows[id].uploadedBy != caller.id then Reject(db, 403, MSG_NO_DELETE)
    else Step(Http(200, MSG_DELETED), db.(materials := Delete(db.materials, id)))
  }

  // ---------------------------------------------------------------- listing

  /** The query string of `getMaterials`. */
  datatype MaterialQuery = MaterialQuery(course: Field, kind: Field, search: Field, groupNo: Field)

  /** The filter `getMaterials` builds: each supplied field constrains its
      path, groupNo `all` constrains nothing, and a search is matched
      against the title by `matches` (a case-insensitive regular
      expression). */
  predicate Admits(q: MaterialQuery, matches: (string, string) -> bool, m: Material)
  {
    && (Truthy(q.course) ==> m.course == q.course.value)
    && (Truthy(q.kind) ==> m.kind == q.kind.value)
    && (Truthy(q.groupNo) && q.groupNo.value != ALL_GROUPS ==> m.groupNo == q.groupNo.value)
    && (Truthy(q.search) ==> matches(q.search.value, m.title))
  }

  function UploadDate(x: (Id, Material)): Time
  {
    x.1.uploadDate
  }

  /** getMaterials: every admitted material once, newest first. */
  function GetMaterials(db: Db, q: MaterialQuery, matches: (string, string) -> bool): (r: seq<(Id, Material)>)
    requires Consistent(db)
    ensures forall x :: x in r <==>
      x.0 in db.materials.rows && x.1 == db.materials.rows[x.0] && Admits(q, matches, x.1)
    ensures multiset(r) == multiset(Query(db.materials, (m: Material) => Admits(q, matches, m)))
    ensures SortedByKey(r, UploadDate, NotOlder)
  {
    assert TotalPreorder(NotOlder);
    var r := SortByKey(Query(db.materials, (m: Material) => Admits(q, matches, m)), UploadDate, NotOlder);
    assert forall x :: x in r <==> x in multiset(r);
    r
  }

  // ----------------------------------------------------------------- lemmas

  /** Two queries that admit the same materials list them identically. */
  lemma {:induction false} SameFilterSameListing(db: Db, q1: MaterialQuery, q2: MaterialQuery,
                                                  matches: (string, string) -> bool)
    requires Consistent(db)
    requires forall m :: Admits(q1, matches, m) == Admits(q2, matches, m)
    ensures GetMaterials(db, q1, matches) == GetMaterials(db, q2, matches)
  {
    var a := Query(db.materials, (m: Material) => Admits(q1, matches, m));
    var b := Query(db.materials, (m: Material) => Admits(q2, matches, m));
    SameIncreasing(a, b);
  }

  /** A strictly increasing sequence is determined by its elements. */
  lemma {:induction false} SameIncreasing<T>(a: seq<(Id, T)>, b: seq<(Id, T)>)
    requires forall i, j :: 0 <= i < j < |a| ==> a[i].0 < a[j].0
    requires forall i, j :: 0 <= i < j < |b| ==> b[i].0 < b[j].0
    requires forall x :: x in a <==> x in b
    ensures a == b
    decreases |a|
  {
    assert |a| > 0 ==> a[0] in b;
    assert |b| > 0 ==> b[0] in a;
    if a == [] || b == [] {
    } else {
      assert a[0] == b[0];
      forall x ensures x in a[1..] <==> x in b[1..] {
        if x in a[1..] {
          var k :| 0 <= k < |a[1..]| && a[1..][k] == x;
          assert a[k + 1] == x && a[0].0 < x.0;
          assert x in a;
          var l :| 0 <= l < |b| && b[l] == x;
          assert l != 0;
          assert b[1..][l - 1] == x;
        }
        if x in b[1..] {
          var k :| 0 <= k < |b[1..]| && b[1..][k] == x;
          assert b[k + 1] == x && b[0].0 < x.0;
          assert x in b;
          var l :| 0 <= l < |a| && a[l] == x;
          assert l != 0;
          assert a[1..][l - 1] == x;
        }
      }
      SameIncreasing(a[1..], b[1..]);
      assert a == [a[0]] + a[1..] && b == [b[0]] + b[1..];
    }
  }

  /** Asking for the groupNo `all` is asking for no group at all. */
  lemma AllGroupsIsNoGroup(db: Db, q: MaterialQuery, matches: (string, string) -> bool)
    requires Consistent(db)
    ensures GetMaterials(db, q.(groupNo := Some(ALL_GROUPS)), matches) == GetMaterials(db, q.(groupNo := None), matches)
  {
    SameFilterSameListing(db, q.(groupNo := Some(ALL_GROUPS)), q.(groupNo := None), matches);
  }

  /** With no field supplied, every material is listed. */
  lemma EmptyQueryListsAll(db: Db, matches: (string, string) -> bool)
    requires Consistent(db)
    ensures var r := GetMaterials(db, MaterialQuery(None, None, None, None), matches);
      forall id :: id in db.materials.rows ==> (id, db.materials.rows[id]) in r
  {
  }

  /** A created material records its uploader and the time, and its URL is
      the uploaded PDF's path or a video link. */
  lemma CreatedMaterialOwnedByCaller(db: Db, caller: Caller, upload: Upload, q: MaterialForm, now: Time)
    requires Consistent(db)
    requires CreateMaterial(db, caller, upload, q, now).http.code == 201
    ensures var m := CreateMaterial(db, caller, upload, q, now).db.materials.rows[db.materials.next];
      && m.uploadedBy == caller.id && m.uploadDate == now
      && ((upload.PdfFile? && m.url == UPLOAD_DIR + upload.filename) || IsVideoUrl(m.url))
      && Owns(CreateMaterial(db, caller, upload, q, now).db, caller, db.materials.next)
  {
    var after := CreateMaterial(db, caller, upload, q, now).db;
    assert after.materials.rows[db.materials.next + 0] == after.materials.rows[db.materials.next];
  }

  /** An update with neither a file nor a URL keeps the stored URL. */
  lemma UpdateKeepsUrl(db: Db, caller: Caller, id: Id, q: MaterialForm)
    requires Consistent(db) && caller.role == TEACHER && Owns(db, caller, id) && !Truthy(q.url)
    ensures var r := UpdateMaterial(db, caller, id, NoFile, q);
      r.http.code == 200 && r.db.materials.rows[id].url == db.materials.rows[id].url
  {
  }

  /** A deleted material is gone: deleting it again answers 404 and
      changes nothing. */
  lemma DeleteMaterialTwice(db: Db, caller: Caller, id: Id)
    requires Consistent(db)
    requires DeleteMaterial(db, caller, id).http.code == 200
    ensures var db1 := DeleteMaterial(db, caller, id).db;
      DeleteMaterial(db1, caller, id) == Reject(db1, 404, MSG_NOT_FOUND)
  {
  }
}
