/** The documents the controllers read and write (the Mongoose models), the whole
    database as one value, the HTTP answer of a handler, and the
    mail-then-notify loop the assignment handlers share. */
module Store {
  import opened Js
  import opened Tables

  const STUDENT: string := "student"
  const TEACHER: string := "teacher"

  /** Milliseconds since the epoch, as `Date.now()` returns. */
  type Time = int

  /** models/userModel.js; `password` holds the bcrypt hash. */
  datatype User = User(
    name: string, surname: string, email: string, password: string,
    course: string, groupNo: Option<string>, role: string)

  /** models/group.js */
  datatype Group = Group(groupNo: string, course: string)

  /** models/Assignment.js. The lifecycle fields `student`, `githubLink`,
      `submittedAt`, `grade` and `feedback` are absent until set. */
  datatype Assignment = Assignment(
    title: string, description: Option<string>, deadline: Time,
    course: string, groupNo: string, teacher: Id,
    student: Option<Id>, githubLink: Option<string>, submittedAt: Option<Time>,
    grade: Option<int>, feedback: Option<string>)

  /** models/Notification.js */
  datatype Notification = Notification(
    recipient: Id, recipientRole: string, course: string, message: string,
    groupNo: Option<string>, sender: Id, senderRole: string,
    assignmentTitle: Option<string>, isRead: bool, createdAt: Time)

  /** models/Material.js; `kind` is the schema's `type` field. */
  datatype Material = Material(
    title: string, kind: string, course: string, url: string,
    description: Option<string>, groupNo: string, uploadedBy: Id, uploadDate: Time)

  /** `req.user`: the authenticated account a request runs as. */
  datatype Caller = Caller(
    id: Id, name: string, surname: string, role: string,
    course: string, groupNo: Option<string>)

  /** One message handed to the mail transport. */
  datatype Mail = Mail(to: string, subject: string)

  /** All collections, and every mail the transport has accepted. */
  datatype Db = Db(
    users: Table<User>, groups: Table<Group>, assignments: Table<Assignment>,
    notifications: Table<Notification>, materials: Table<Material>,
    outbox: seq<Mail>)

  /** Ids are fresh, emails are unique (the `unique` index of userModel.js)
      and (course, groupNo) is unique (the compound index of group.js). */
  ghost predicate Consistent(db: Db)
  {
    && Tables.Valid(db.users) && Tables.Valid(db.groups) && Tables.Valid(db.assignments)
    && Tables.Valid(db.notifications) && Tables.Valid(db.materials)
    && UniqueEmails(db.users)
    && UniquePairs(db.groups)
  }

  ghost predicate UniqueEmails(users: Table<User>)
  {
    forall i, j :: i in users.rows && j in users.rows && users.rows[i].email == users.rows[j].email ==> i == j
  }

  ghost predicate UniquePairs(groups: Table<Group>)
  {
    forall i, j :: i in groups.rows && j in groups.rows && groups.rows[i] == groups.rows[j] ==> i == j
  }

  /** The status code and message a handler answers with. A code of 0 means
      the handler never answers: its promise rejects with nobody to catch it. */
  datatype Http = Http(code: nat, message: string)

  /** What one request leaves behind: its answer and the database after it. */
  datatype Step = Step(http: Http, db: Db)

  predicate Succeeded(h: Http)
  {
    200 <= h.code < 300
  }

  /** The answer of a handler that lists documents: its status and the
      documents with their ids. */
  datatype Found<T> = Found(code: nat, items: seq<(Id, T)>)

  /** The answer of a handler that stops before writing anything. */
  function Reject(db: Db, code: nat, message: string): (r: Step)
    ensures r.db == db && r.http.code == code
  {
    Step(Http(code, message), db)
  }

  const NO_REPLY: nat := 0

  /** `User.find({ role: 'student', course, groupNo })` matches `u`. */
  predicate IsStudentOf(u: User, course: string, groupNo: Option<string>)
  {
    u.role == STUDENT && u.course == course && u.groupNo == groupNo
  }

  /** Only the notifications and the outbox may differ. */
  ghost predicate OnlyNotified(db1: Db, db2: Db)
  {
    && db2.users == db1.users && db2.groups == db1.groups
    && db2.assignments == db1.assignments && db2.materials == db1.materials
  }

  /** The notifications stored in `t2` from `t1.next` on are addressed, in
      order, to the users `ids`. */
  ghost predicate AddressedInOrder(t1: Table<Notification>, t2: Table<Notification>, ids: seq<Id>)
  {
    && t2.next == t1.next + |ids|
    && forall j :: t1.next <= j < t2.next ==> j in t2.rows && t2.rows[j].recipient == ids[j - t1.next]
  }

  /** A batch saved in order is addressed in order, and unread if each
      saved notification is. */
  lemma ExtendsAddressed(t1: Table<Notification>, t2: Table<Notification>, notes: seq<Notification>,
                         ids: seq<Id>, role: string)
    requires Extends(t1, t2, notes) && |notes| == |ids|
    requires forall i :: 0 <= i < |ids| ==> notes[i].recipient == ids[i] && !notes[i].isRead && notes[i].recipientRole == role
    ensures AddressedInOrder(t1, t2, ids)
    ensures forall j :: t1.next <= j < t2.next ==> !t2.rows[j].isRead && t2.rows[j].recipientRole == role
  {
    forall j | t1.next <= j < t2.next
      ensures j in t2.rows && t2.rows[j].recipient == ids[j - t1.next]
      ensures !t2.rows[j].isRead && t2.rows[j].recipientRole == role
    {
      assert t2.rows[t1.next + (j - t1.next)] == notes[j - t1.next];
    }
  }

  /** A batch addressed to distinct users gives each of them exactly one
      notification: no two of the batch share a recipient, and the users
      holding one are exactly `ids`. */
  lemma OnePerRecipient(t1: Table<Notification>, t2: Table<Notification>, ids: seq<Id>)
    requires AddressedInOrder(t1, t2, ids) && Increasing(ids)
    ensures forall j, j' :: t1.next <= j < j' < t2.next ==> t2.rows[j].recipient != t2.rows[j'].recipient
    ensures forall k :: k in ids <==> exists j :: t1.next <= j < t2.next && t2.rows[j].recipient == k
  {
    forall k ensures k in ids <==> exists j :: t1.next <= j < t2.next && t2.rows[j].recipient == k {
      if k in ids {
        var i :| 0 <= i < |ids| && ids[i] == k;
        assert t2.rows[t1.next + i].recipient == k;
      }
    }
  }

  // ------------------------------------------------------- mail-then-notify

  /** A loop of awaited `sendMail` calls stops at the first mail the
      transport refuses; this is how many it accepted before that. */
  function Delivered(mails: seq<Mail>, transport: Mail -> bool): (k: nat)
    ensures k <= |mails|
    ensures forall i :: 0 <= i < k ==> transport(mails[i])
    ensures k < |mails| ==> !transport(mails[k])
  {
    if mails == [] || !transport(mails[0]) then 0 else 1 + Delivered(mails[1..], transport)
  }

  lemma ExtendsCons<T>(t1: Table<T>, t2: Table<T>, v: T, vs: seq<T>)
    requires Tables.Valid(t1) && Extends(Insert(t1, v), t2, vs)
    ensures Extends(t1, t2, [v] + vs)
  {
    var t := Insert(t1, v);
    forall i | 0 <= i < |[v] + vs| ensures t2.rows[t1.next + i] == ([v] + vs)[i] {
      if i == 0 {
        assert t1.next in t.rows;
      } else {
        assert t2.rows[t.next + (i - 1)] == vs[i - 1];
      }
    }
  }

  /** Saves the documents `vs` one after another. */
  function InsertAll<T>(t: Table<T>, vs: seq<T>): (r: Table<T>)
    requires Tables.Valid(t)
    ensures Tables.Valid(r) && Extends(t, r, vs)
    decreases |vs|
  {
    if vs == [] then
      ExtendsNothing(t);
      t
    else
      var r := InsertAll(Insert(t, vs[0]), vs[1..]);
      ExtendsCons(t, r, vs[0], vs[1..]);
      assert [vs[0]] + vs[1..] == vs;
      r
  }

  /** The loop `for (r of recipients) { await sendMail(mails[i]);
      await notes[i].save(); }`. It answers whether every mail went out, and
      the store after it: exactly the mails sent so far are in the outbox,
      and a notification is saved for exactly the recipients whose mail went
      out; nothing else changes. */
  function MailAndNotify(db: Db, mails: seq<Mail>, notes: seq<Notification>, transport: Mail -> bool): (r: (bool, Db))
    requires Consistent(db) && |mails| == |notes|
    ensures var k := Delivered(mails, transport);
      && (r.0 <==> k == |mails|)
      && Consistent(r.1) && OnlyNotified(db, r.1)
      && r.1.outbox == db.outbox + mails[..k]
      && Extends(db.notifications, r.1.notifications, notes[..k])
    decreases |mails|
  {
    if mails == [] then
      ExtendsNothing(db.notifications);
      (true, db)
    else if !transport(mails[0]) then
      ExtendsNothing(db.notifications);
      (false, db)
    else
      var db1 := db.(outbox := db.outbox + [mails[0]],
                     notifications := Insert(db.notifications, notes[0]));
      var r := MailAndNotify(db1, mails[1..], notes[1..], transport);
      var k := Delivered(mails, transport);
      ConsPrefix(db.outbox, mails, k);
      ConsPrefix([], notes, k);
      ExtendsCons(db.notifications, r.1.notifications, notes[0], notes[1..][..k - 1]);
      r
  }

  /** Taking the head first and then a prefix of the tail is taking a prefix. */
  lemma ConsPrefix<T>(o: seq<T>, s: seq<T>, k: nat)
    requires 1 <= k <= |s|
    ensures (o + [s[0]]) + s[1..][..k - 1] == o + s[..k]
    ensures [s[0]] + s[1..][..k - 1] == s[..k]
  {
    assert s[..k] == [s[0]] + s[1..][..k - 1];
  }
}
