/** In-app notifications: controllers/notificationController.js. A
    notification is addressed to one user; `createNotification` fans one
    message out to the users a request selects, `getNotifications` lists a
    caller's own, newest first, and `markNotificationAsRead` flips one flag. */
module Notifications {
  import opened Js
  import opened Tables
  import opened Sorting
  import opened Store

  const MSG_REQUIRED := "Message and course required"
  const MSG_NO_TARGET := "Group number or student ID required"
  const MSG_BAD_ROLE := "Wrong buyer role"
  const MSG_NOBODY := "No buyers found"
  const MSG_CREATED := "Notifications created successfully"
  const MSG_NOT_FOUND := "Notification not found or not authorized"
  const MSG_MARKED := "Notification marked as read"

  /** The body of `createNotification`; `studentId` is absent or names a user. */
  datatype Broadcast = Broadcast(
    message: Field, course: Field, groupNo: Field, assignmentTitle: Field,
    recipientRole: Field, studentId: Option<Id>)

  /** Why a broadcast selects nobody before any lookup. */
  predicate Malformed(q: Broadcast)
  {
    || !Truthy(q.message) || !Truthy(q.course)
    || (q.recipientRole != Some(STUDENT) && q.recipientRole != Some(TEACHER))
    || (q.recipientRole == Some(STUDENT) && q.studentId.None? && !Truthy(q.groupNo))
  }

  /** The user stored as `id` is one the broadcast is meant for: the named
      student of the course, else every student of the course and group,
      or every teacher of the course. */
  predicate Addressed(q: Broadcast, id: Id, u: User)
    requires !Malformed(q)
  {
    if q.recipientRole == Some(STUDENT) then
      if q.studentId.Some? then id == q.studentId.value && u.role == STUDENT && u.course == q.course.value
      else IsStudentOf(u, q.course.value, q.groupNo)
    else u.role == TEACHER && u.course == q.course.value
  }

  /** The `User.find` of the handler: the addressed users in natural order. */
  function Recipients(db: Db, q: Broadcast): (ids: seq<Id>)
    requires Consistent(db) && !Malformed(q)
    ensures Increasing(ids)
    ensures forall k :: k in ids <==> k in db.users.rows && Addressed(q, k, db.users.rows[k])
  {
    if q.recipientRole == Some(STUDENT) && q.studentId.Some? then
      var s := q.studentId.value;
      if s in db.users.rows && Addressed(q, s, db.users.rows[s]) then [s] else []
    else if q.recipientRole == Some(STUDENT) then
      Select(db.users, (u: User) => IsStudentOf(u, q.course.value, q.groupNo))
    else
      Select(db.users, (u: User) => u.role == TEACHER && u.course == q.course.value)
  }

  /** The notification the broadcast saves for one recipient. */
  function NoteFor(q: Broadcast, caller: Caller, now: Time, recipient: Id): (n: Notification)
    requires !Malformed(q)
    ensures n.recipient == recipient && !n.isRead && n.createdAt == now
    ensures n.message == q.message.value && n.course == q.course.value
    ensures n.recipientRole == q.recipientRole.value
    ensures n.groupNo == if q.recipientRole == Some(TEACHER) then None else q.groupNo
    ensures n.sender == caller.id && n.senderRole == caller.role
  {
    Notification(recipient, q.recipientRole.value, q.course.value, q.message.value,
                 if q.recipientRole == Some(STUDENT) then q.groupNo else None,
                 caller.id, caller.role, q.assignmentTitle, false, now)
  }

  function NotesFor(q: Broadcast, caller: Caller, now: Time, ids: seq<Id>): (ns: seq<Notification>)
    requires !Malformed(q)
    ensures |ns| == |ids|
    ensures forall i :: 0 <= i < |ids| ==> ns[i] == NoteFor(q, caller, now, ids[i])
  {
    seq(|ids|, i requires 0 <= i < |ids| => NoteFor(q, caller, now, ids[i]))
  }

  /** createNotification: a malformed request answers 400, a selection of
      nobody 404, and otherwise exactly one unread notification per
      recipient is saved, in the order the users were found. */
  function CreateNotification(db: Db, caller: Caller, q: Broadcast, now: Time): (r: Step)
    requires Consistent(db)
    ensures Consistent(r.db)
    ensures r.http.code in {201, 400, 404}
    ensures r.http.code != 201 ==> r.db == db
    ensures r.http.code == 400 <==> Malformed(q)
    ensures r.http.code == 404 <==> !Malformed(q) && Recipients(db, q) == []
    ensures r.http.code == 201 ==>
      && OnlyNotified(db, r.db) && r.db.outbox == db.outbox
      && Extends(db.notifications, r.db.notifications, NotesFor(q, caller, now, Recipients(db, q)))
  {
    if !Truthy(q.message) || !Truthy(q.course) then Reject(db, 400, MSG_REQUIRED)
    else if q.recipientRole == Some(STUDENT) && q.studentId.None? && !Truthy(q.groupNo) then Reject(db, 400, MSG_NO_TARGET)
    else if q.recipientRole != Some(STUDENT) && q.recipientRole != Some(TEACHER) then Reject(db, 400, MSG_BAD_ROLE)
    else
      var ids := Recipients(db, q);
      if ids == [] then Reject(db, 404, MSG_NOBODY)
      else Step(Http(201, MSG_CREATED), db.(notifications := InsertAll(db.notifications, NotesFor(q, caller, now, ids))))
  }

  /** The filter of `getNotifications`: the caller's own notifications for
      the caller's role and course and, for a student, group. */
  predicate ShownTo(caller: Caller, n: Notification)
  {
    && n.recipient == caller.id && n.recipientRole == caller.role && n.course == caller.course
    && (caller.role == STUDENT ==> n.groupNo == caller.groupNo)
  }

  function CreatedAt(x: (Id, Notification)): Time
  {
    x.1.createdAt
  }

  /** getNotifications: every notification the filter admits, once each,
      newest first. */
  function GetNotifications(db: Db, caller: Caller): (r: seq<(Id, Notification)>)
    requires Consistent(db)
    ensures forall x :: x in r <==>
      x.0 in db.notifications.rows && x.1 == db.notifications.rows[x.0] && ShownTo(caller, x.1)
    ensures multiset(r) == multiset(Query(db.notifications, (n: Notification) => ShownTo(caller, n)))
    ensures SortedByKey(r, CreatedAt, NotOlder)
  {
    assert TotalPreorder(NotOlder);
    var shown := Query(db.notifications, (n: Notification) => ShownTo(caller, n));
    var r := SortByKey(shown, CreatedAt, NotOlder);
    assert forall x :: x in r <==> x in multiset(r);
    r
  }

  /** markNotificationAsRead: only the recipient may mark a notification,
      and marking changes nothing but its `isRead` flag. */
  function MarkAsRead(db: Db, caller: Caller, id: Id): (r: Step)
    requires Consistent(db)
    ensures Consistent(r.db) && OnlyNotified(db, r.db) && r.db.outbox == db.outbox
    ensures r.http.code == 200 || r.http.code == 404
    ensures r.http.code == 200 <==>
      id in db.notifications.rows && db.notifications.rows[id].recipient == caller.id
    ensures r.http.code == 404 ==> r.db == db
    ensures r.http.code == 200 ==>
      && r.db.notifications.next == db.notifications.next
      && r.db.notifications.rows.Keys == db.notifications.rows.Keys
      && r.db.notifications.rows[id] == db.notifications.rows[id].(isRead := true)
      && forall k :: k in db.notifications.rows && k != id ==> r.db.notifications.rows[k] == db.notifications.rows[k]
  {
    if id !in db.notifications.rows || db.notifications.rows[id].recipient != caller.id then
      Reject(db, 404, MSG_NOT_FOUND)
    else
      var n := db.notifications.rows[id];
      Step(Http(200, MSG_MARKED), db.(notifications := Put(db.notifications, id, n.(isRead := true))))
  }

  // ------------------------------------------------------------------ lemmas

  /** Marking twice is marking once. */
  lemma MarkAsReadIdempotent(db: Db, caller: Caller, id: Id)
    requires Consistent(db)
    ensures var once := MarkAsRead(db, caller, id);
      MarkAsRead(once.db, caller, id) == once
  {
    var once := MarkAsRead(db, caller, id);
    if once.http.code == 200 {
      var n := once.db.notifications.rows[id];
      assert once.db.notifications.rows[id := n] == once.db.notifications.rows;
    }
  }

  /** Every recipient of a broadcast receives exactly one of its
      notifications, unread: no two new notifications share a recipient, and the
      users holding one are exactly the addressed users. */
  lemma OneNotePerRecipient(db: Db, caller: Caller, q: Broadcast, now: Time)
    requires Consistent(db)
    requires CreateNotification(db, caller, q, now).http.code == 201
    ensures var after := CreateNotification(db, caller, q, now).db.notifications;
      var base := db.notifications.next;
      && (forall j :: base <= j < after.next ==> !after.rows[j].isRead)
      && (forall j, j' :: base <= j < j' < after.next ==> after.rows[j].recipient != after.rows[j'].recipient)
      && (forall k :: k in db.users.rows && Addressed(q, k, db.users.rows[k]) <==>
            exists j :: base <= j < after.next && after.rows[j].recipient == k)
  {
    var after := CreateNotification(db, caller, q, now).db.notifications;
    var ids := Recipients(db, q);
    ExtendsAddressed(db.notifications, after, NotesFor(q, caller, now, ids), ids, q.recipientRole.value);
    OnePerRecipient(db.notifications, after, ids);
  }

  /** A caller sees a notification just broadcast to them exactly when the
      broadcast's role, course and group are the caller's own. */
  lemma BroadcastIsShown(q: Broadcast, caller: Caller, sender: Caller, now: Time)
    requires !Malformed(q)
    ensures ShownTo(caller, NoteFor(q, sender, now, caller.id)) <==>
      && q.recipientRole.value == caller.role && q.course.value == caller.course
      && (caller.role == STUDENT ==> q.groupNo == caller.groupNo)
  {
  }
}
