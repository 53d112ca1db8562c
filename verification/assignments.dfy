/** The assignment lifecycle: controllers/assignmentController.js. A teacher
    creates an assignment for one group of a course, a student of that
    group submits a GitHub link before the deadline, and a teacher of the
    course grades it. The stage of an assignment is implicit in which of
    its fields are set. Each handler checks its guards in a fixed order and
    writes nothing before the last one passes; the mails and notifications
    that follow the write are sent one by one, and a mail the transport
    refuses ends the handler with 500, keeping what was written before it. */
module Assignments {
  import opened Js
  import opened Tables
  import opened Store
  import opened Links
  import Groups

  const MSG_ERROR := "An error occurred: "
  const MSG_INVALID := "An error occurred: Assignment validation failed"
  const MSG_ONLY_TEACHERS_CREATE := "Only teachers can create assignments"
  const MSG_NO_GROUP := "There is no group for this course."
  const MSG_CREATED := "Task created successfully"
  const MSG_LINK_REQUIRED := "GitHub link required"
  const MSG_BAD_LINK := "Invalid GitHub link format. Link https://github.com it should start with and include the username and repository name.(for example, https://github.com/username/repository or with .git)"
  const MSG_NOT_FOUND := "Task not found"
  const MSG_NO_SUBMIT := "You do not have permission to submit this assignment."
  const MSG_LATE := "The deadline for the assignment has passed."
  const MSG_SUBMITTED := "Task sent successfully."
  const MSG_ONLY_TEACHERS_GRADE := "Only teachers can evaluate"
  const MSG_GRADE_REQUIRED := "Score and feedback required"
  const MSG_GRADE_RANGE := "Score should be between 0-100"
  const MSG_NO_GRADE := "You do not have permission to grade this assignment."
  const MSG_GRADED := "Assignment graded"
  const MSG_ONLY_TEACHERS_EDIT := "Only teachers can edit assignments"
  const MSG_NO_EDIT := "You do not have permission to edit this assignment."
  const MSG_UPDATED := "Task successfully updated"
  const MSG_ONLY_TEACHERS_DELETE := "Only teachers can delete assignments."
  const MSG_NO_DELETE := "You do not have permission to delete this task."
  const MSG_DELETED := "Task successfully deleted."

  const SUBJECT_NEW_TASK := "New Task"
  const SUBJECT_SUBMITTED := "Task Assigned"
  const SUBJECT_GRADED := "Assignment Graded"

  // ------------------------------------------------------------------ stages

  datatype Stage = Created | Submitted | Graded

  /** Graded once a grade is set, else submitted once `submittedAt` is set. */
  function StageOf(a: Assignment): Stage
  {
    if a.grade.Some? then Graded else if a.submittedAt.Some? then Submitted else Created
  }

  // ------------------------------------------------------------------ create

  /** The fields of a create or update request. */
  datatype AssignmentForm = AssignmentForm(
    title: Field, description: Field, deadline: Field, course: Field, groupNo: Field)

  /** `Group.findOne({ course, groupNo })`. An absent field is sent as null
      and matches no stored group; the group schema trims groupNo. */
  predicate GroupExists(db: Db, course: Field, groupNo: Field)
  {
    course.Some? && groupNo.Some? && Groups.Holds(db.groups, Trim(groupNo.value), course.value, None)
  }

  /** `new Date(deadline)`, with None for an invalid date. */
  function DateOf(deadline: Field, parseDate: string -> Option<Time>): Option<Time>
  {
    if deadline.Some? then parseDate(deadline.value) else None
  }

  /** The assignment schema accepts a new document built from the form. */
  predicate Storable(q: AssignmentForm, parseDate: string -> Option<Time>)
  {
    Truthy(q.title) && DateOf(q.deadline, parseDate).Some? && Truthy(q.course) && Truthy(q.groupNo)
  }

  /** The document `createAssignment` saves: set by the caller, for the
      requested group, and neither submitted nor graded. */
  function NewAssignment(q: AssignmentForm, caller: Caller, parseDate: string -> Option<Time>): (a: Assignment)
    requires Storable(q, parseDate)
    ensures a.teacher == caller.id && StageOf(a) == Created
    ensures a.student == None && a.githubLink == None && a.feedback == None
    ensures a.title == q.title.value && a.course == q.course.value && a.groupNo == q.groupNo.value
  {
    Assignment(q.title.value, q.description, DateOf(q.deadline, parseDate).value, q.course.value,
               q.groupNo.value, caller.id, None, None, None, None, None)
  }

  /** `User.find({ role: 'student', course, groupNo })` in natural order. */
  function StudentsOf(db: Db, course: string, groupNo: string): (ids: seq<Id>)
    requires Consistent(db)
    ensures Increasing(ids)
    ensures forall k :: k in ids <==> k in db.users.rows && IsStudentOf(db.users.rows[k], course, Some(groupNo))
  {
    Select(db.users, (u: User) => IsStudentOf(u, course, Some(groupNo)))
  }

  function MailsTo(db: Db, ids: seq<Id>, subject: string): (ms: seq<Mail>)
    requires forall k :: k in ids ==> k in db.users.rows
    ensures |ms| == |ids|
    ensures forall i :: 0 <= i < |ids| ==> ms[i] == Mail(db.users.rows[ids[i]].email, subject)
  {
    seq(|ids|, i requires 0 <= i < |ids| => Mail(db.users.rows[ids[i]].email, subject))
  }

  /** The notification a new assignment leaves for one student. */
  function TaskNote(q: AssignmentForm, caller: Caller, now: Time, student: Id): (n: Notification)
    ensures n.recipient == student && n.recipientRole == STUDENT && !n.isRead
    ensures n.course == Show(q.course) && n.groupNo == q.groupNo && n.assignmentTitle == q.title
  {
    Notification(student, STUDENT, Show(q.course), "New Task: " + Show(q.title) + ". Deadline: " + Show(q.deadline),
                 q.groupNo, caller.id, caller.role, q.title, false, now)
  }

  function TaskNotes(q: AssignmentForm, caller: Caller, now: Time, ids: seq<Id>): (ns: seq<Notification>)
    ensures |ns| == |ids|
    ensures forall i :: 0 <= i < |ids| ==> ns[i] == TaskNote(q, caller, now, ids[i])
  {
    seq(|ids|, i requires 0 <= i < |ids| => TaskNote(q, caller, now, ids[i]))
  }

  /** The students a new assignment is announced to. */
  function Audience(db: Db, q: AssignmentForm, parseDate: string -> Option<Time>): seq<Id>
    requires Consistent(db) && Storable(q, parseDate)
  {
    StudentsOf(db, q.course.value, q.groupNo.value)
  }

  /** Every check of `createAssignment` before the save passes. */
  predicate CreationAdmitted(db: Db, caller: Caller, q: AssignmentForm, parseDate: string -> Option<Time>)
  {
    caller.role == TEACHER && GroupExists(db, q.course, q.groupNo) && Storable(q, parseDate)
  }

  /** createAssignment */
  function CreateAssignment(db: Db, caller: Caller, q: AssignmentForm, now: Time,
                            parseDate: string -> Option<Time>, transport: Mail -> bool): (r: Step)
    requires Consistent(db)
    ensures Consistent(r.db)
    ensures r.http.code in {201, 400, 403, 500}
    ensures r.http.code == 403 <==> caller.role != TEACHER
    ensures r.http.code == 400 <==> caller.role == TEACHER && !GroupExists(db, q.course, q.groupNo)
    ensures !CreationAdmitted(db, caller, q, parseDate) ==> r.db == db && r.http.code != 201
    ensures CreationAdmitted(db, caller, q, parseDate) ==>
      var ids := Audience(db, q, parseDate);
      var mails := MailsTo(db, ids, SUBJECT_NEW_TASK);
      && r.db.users == db.users && r.db.groups == db.groups && r.db.materials == db.materials
      && Extends(db.assignments, r.db.assignments, [NewAssignment(q, caller, parseDate)])
      && (r.http.code == 201 <==> Delivered(mails, transport) == |ids|)
      && (r.http.code == 201 ==>
            && r.db.outbox == db.outbox + mails
            && Extends(db.notifications, r.db.notifications, TaskNotes(q, caller, now, ids)))
  {
    if caller.role != TEACHER then Reject(db, 403, MSG_ONLY_TEACHERS_CREATE)
    else if !GroupExists(db, q.course, q.groupNo) then Reject(db, 400, MSG_NO_GROUP)
    else if !Storable(q, parseDate) then Reject(db, 500, MSG_INVALID)
    else
      var saved := db.(assignments := Insert(db.assignments, NewAssignment(q, caller, parseDate)));
      var ids := Audience(db, q, parseDate);
      var mails := MailsTo(db, ids, SUBJECT_NEW_TASK);
      var notes := TaskNotes(q, caller, now, ids);
      var out := MailAndNotify(saved, mails, notes, transport);
      assert mails[..|mails|] == mails && notes[..|notes|] == notes;
      Step(Http(if out.0 then 201 else 500, if out.0 then MSG_CREATED else MSG_ERROR), out.1)
  }

  // ------------------------------------------------------------------ submit

  /** The caller is a student of the assignment's course and group. */
  predicate MaySubmit(caller: Caller, a: Assignment)
  {
    caller.role == STUDENT && caller.course == a.course && caller.groupNo == Some(a.groupNo)
  }

  /** Every guard of `submitAssignment` passes. */
  predicate SubmissionAdmitted(db: Db, caller: Caller, id: Id, githubLink: Field, now: Time)
  {
    && Truthy(githubLink) && IsGithubLink(githubLink.value)
    && id in db.assignments.rows && MaySubmit(caller, db.assignments.rows[id])
    && now <= db.assignments.rows[id].deadline
  }

  function SubmissionNote(a: Assignment, caller: Caller, link: string, now: Time): (n: Notification)
    ensures n.recipient == a.teacher && n.recipientRole == TEACHER && !n.isRead
    ensures n.course == a.course && n.groupNo == Some(a.groupNo) && n.assignmentTitle == Some(a.title)
  {
    Notification(a.teacher, TEACHER, a.course, caller.name + " \"" + a.title + "\" handed over the assignment. Link: " + link,
                 Some(a.groupNo), caller.id, caller.role, Some(a.title), false, now)
  }

  /** The teacher is told only when the teacher's account still exists. */
  function TeacherMails(db: Db, a: Assignment): (ms: seq<Mail>)
    ensures |ms| == (if a.teacher in db.users.rows then 1 else 0)
  {
    if a.teacher in db.users.rows then [Mail(db.users.rows[a.teacher].email, SUBJECT_SUBMITTED)] else []
  }

  function TeacherNotes(db: Db, a: Assignment, caller: Caller, link: string, now: Time): (ns: seq<Notification>)
    ensures |ns| == (if a.teacher in db.users.rows then 1 else 0)
  {
    if a.teacher in db.users.rows then [SubmissionNote(a, caller, link, now)] else []
  }

  /** The submission the handler stores: the link, the time and the
      student; nothing else of the assignment changes. */
  function WithSubmission(a: Assignment, link: string, now: Time, student: Id): (b: Assignment)
    ensures StageOf(b) != Created && (StageOf(b) == Graded <==> StageOf(a) == Graded)
  {
    a.(githubLink := Some(link), submittedAt := Some(now), student := Some(student))
  }

  /** submitAssignment. The link is checked before the assignment is looked
      up, and a graded assignment can be submitted again. */
  function SubmitAssignment(db: Db, caller: Caller, id: Id, githubLink: Field, now: Time,
                            transport: Mail -> bool): (r: Step)
    requires Consistent(db)
    ensures Consistent(r.db)
    ensures r.http.code in {200, 400, 403, 404, 500}
    ensures !Truthy(githubLink) ==> r == Reject(db, 400, MSG_LINK_REQUIRED)
    ensures Truthy(githubLink) && !IsGithubLink(githubLink.value) ==> r == Reject(db, 400, MSG_BAD_LINK)
    ensures Truthy(githubLink) && IsGithubLink(githubLink.value) && id !in db.assignments.rows ==>
      r == Reject(db, 404, MSG_NOT_FOUND)
    ensures Truthy(githubLink) && IsGithubLink(githubLink.value) && id in db.assignments.rows ==>
      var a := db.assignments.rows[id];
      && (!MaySubmit(caller, a) ==> r == Reject(db, 403, MSG_NO_SUBMIT))
      && (MaySubmit(caller, a) && a.deadline < now ==> r == Reject(db, 400, MSG_LATE))
    ensures SubmissionAdmitted(db, caller, id, githubLink, now) ==>
      var a := db.assignments.rows[id];
      && r.db.users == db.users && r.db.groups == db.groups && r.db.materials == db.materials
      && r.db.assignments == Put(db.assignments, id, WithSubmission(a, githubLink.value, now, caller.id))
      && (r.http.code == 200 <==> Delivered(TeacherMails(db, a), transport) == |TeacherMails(db, a)|)
      && (r.http.code == 200 ==>
            && r.db.outbox == db.outbox + TeacherMails(db, a)
            && Extends(db.notifications, r.db.notifications, TeacherNotes(db, a, caller, githubLink.value, now)))
  {
    if !Truthy(githubLink) then Reject(db, 400, MSG_LINK_REQUIRED)
    else if !IsGithubLink(githubLink.value) then Reject(db, 400, MSG_BAD_LINK)
    else if id !in db.assignments.rows then Reject(db, 404, MSG_NOT_FOUND)
    else
      var a := db.assignments.rows[id];
      if !MaySubmit(caller, a) then Reject(db, 403, MSG_NO_SUBMIT)
      else if a.deadline < now then Reject(db, 400, MSG_LATE)
      else
        var saved := db.(assignments := Put(db.assignments, id, WithSubmission(a, githubLink.value, now, caller.id)));
        var out := MailAndNotify(saved, TeacherMails(db, a), TeacherNotes(db, a, caller, githubLink.value, now), transport);
        Step(Http(if out.0 then 200 else 500, if out.0 then MSG_SUBMITTED else MSG_ERROR), out.1)
  }

  // ------------------------------------------------------------------- grade

  /** The `grade` of a request body: absent, a JSON number (an integer
      below 10^21 in magnitude) or a string. */
  datatype GradeInput = NoGrade | GradeNumber(n: int) | GradeText(s: string)

  /** `!!grade`: absent, 0 and "" are falsy. */
  predicate GradeGiven(g: GradeInput)
  {
    match g
    case NoGrade => false
    case GradeNumber(n) => n != 0
    case GradeText(s) => s != ""
  }

  /** What `parseInt` reads: the text itself, or the number written out. */
  function GradeSource(g: GradeInput): string
  {
    match g
    case NoGrade => "undefined"
    case GradeNumber(n) => IntToString(n)
    case GradeText(s) => s
  }

  lemma GradeSourceParses(g: GradeInput)
    ensures g.GradeNumber? ==> ParseInt(GradeSource(g)) == Some(g.n)
  {
    if g.GradeNumber? {
      ParseIntOfIntToString(g.n);
    }
  }

  /** `parseInt(grade)` when it is a number in [0, 100], else None. A number
      grade is kept exactly when it lies in (0, 100]. */
  function ReadGrade(g: GradeInput): (v: Option<int>)
    ensures v.Some? ==> 0 <= v.value <= 100
    ensures v.Some? ==> ParseInt(GradeSource(g)) == v
    ensures g.GradeNumber? ==> (v.Some? <==> 0 <= g.n <= 100) && (v.Some? ==> v.value == g.n)
  {
    GradeSourceParses(g);
    var p := ParseInt(GradeSource(g));
    if p.None? || p.value < 0 || p.value > 100 then None else p
  }

  /** Every guard of `gradeAssignment` passes. The caller's course is
      compared; whether the caller set the assignment is not. */
  predicate GradingAdmitted(db: Db, caller: Caller, id: Id, grade: GradeInput, feedback: Field)
  {
    && caller.role == TEACHER && GradeGiven(grade) && Truthy(feedback) && ReadGrade(grade).Some?
    && id in db.assignments.rows && caller.course == db.assignments.rows[id].course
  }

  /** `students.find(s => s._id === assignment.student)` among the students
      of the assignment's group: the submitting student, if still one of them. */
  predicate HasGradedStudent(db: Db, a: Assignment)
  {
    a.student.Some? && a.student.value in db.users.rows
    && IsStudentOf(db.users.rows[a.student.value], a.course, Some(a.groupNo))
  }

  function GradeNote(a: Assignment, caller: Caller, v: int, now: Time): (n: Notification)
    requires a.student.Some?
    ensures n.recipient == a.student.value && n.recipientRole == STUDENT && !n.isRead
    ensures n.course == a.course && n.groupNo == Some(a.groupNo) && n.assignmentTitle == Some(a.title)
  {
    Notification(a.student.value, STUDENT, a.course,
                 "Task \"" + a.title + "\" " + caller.name + " " + caller.surname + " Rated by. Score: " + IntToString(v),
                 Some(a.groupNo), caller.id, caller.role, Some(a.title), false, now)
  }

  function StudentMails(db: Db, a: Assignment): (ms: seq<Mail>)
    ensures |ms| == (if HasGradedStudent(db, a) then 1 else 0)
  {
    if HasGradedStudent(db, a) then [Mail(db.users.rows[a.student.value].email, SUBJECT_GRADED)] else []
  }

  function StudentNotes(db: Db, a: Assignment, caller: Caller, v: int, now: Time): (ns: seq<Notification>)
    ensures |ns| == (if HasGradedStudent(db, a) then 1 else 0)
    ensures HasGradedStudent(db, a) ==> ns[0].recipient == a.student.value
  {
    if HasGradedStudent(db, a) then [GradeNote(a, caller, v, now)] else []
  }

  /** gradeAssignment */
  function GradeAssignment(db: Db, caller: Caller, id: Id, grade: GradeInput, feedback: Field, now: Time,
                           transport: Mail -> bool): (r: Step)
    requires Consistent(db)
    ensures Consistent(r.db)
    ensures r.http.code in {200, 400, 403, 404, 500}
    ensures caller.role != TEACHER ==> r == Reject(db, 403, MSG_ONLY_TEACHERS_GRADE)
    ensures caller.role == TEACHER && (!GradeGiven(grade) || !Truthy(feedback)) ==> r == Reject(db, 400, MSG_GRADE_REQUIRED)
    ensures caller.role == TEACHER && GradeGiven(grade) && Truthy(feedback) && ReadGrade(grade).None? ==>
      r == Reject(db, 400, MSG_GRADE_RANGE)
    ensures caller.role == TEACHER && GradeGiven(grade) && Truthy(feedback) && ReadGrade(grade).Some? ==>
      && (id !in db.assignments.rows ==> r == Reject(db, 404, MSG_NOT_FOUND))
      && (id in db.assignments.rows && caller.course != db.assignments.rows[id].course ==> r == Reject(db, 403, MSG_NO_GRADE))
    ensures GradingAdmitted(db, caller, id, grade, feedback) ==>
      var a := db.assignments.rows[id];
      var v := ReadGrade(grade).value;
      && r.db.users == db.users && r.db.groups == db.groups && r.db.materials == db.materials
      && r.db.assignments == Put(db.assignments, id, a.(grade := Some(v), feedback := feedback))
      && (r.http.code == 200 <==> Delivered(StudentMails(db, a), transport) == |StudentMails(db, a)|)
      && (r.http.code == 200 ==>
            && r.db.outbox == db.outbox + StudentMails(db, a)
            && Extends(db.notifications, r.db.notifications, StudentNotes(db, a, caller, v, now)))
  {
    if caller.role != TEACHER then Reject(db, 403, MSG_ONLY_TEACHERS_GRADE)
    else if !GradeGiven(grade) || !Truthy(feedback) then Reject(db, 400, MSG_GRADE_REQUIRED)
    else
      var v := ReadGrade(grade);
      if v.None? then Reject(db, 400, MSG_GRADE_RANGE)
      else if id !in db.assignments.rows then Reject(db, 404, MSG_NOT_FOUND)
      else
        var a := db.assignments.rows[id];
        if caller.course != a.course then Reject(db, 403, MSG_NO_GRADE)
        else
          var saved := db.(assignments := Put(db.assignments, id, a.(grade := v, feedback := feedback)));
          var out := MailAndNotify(saved, StudentMails(db, a), StudentNotes(db, a, caller, v.value, now), transport);
          Step(Http(if out.0 then 200 else 500, if out.0 then MSG_GRADED else MSG_ERROR), out.1)
  }

  // ------------------------------------------------------------------ update

  /** `field || stored`: a falsy request value keeps the stored one. */
  function OrElse(f: Field, stored: string): (s: string)
    ensures Truthy(f) ==> s == f.value
    ensures !Truthy(f) ==> s == stored
  {
    if Truthy(f) then f.value else stored
  }

  /** The assignment after the update's field-by-field merge, or None when
      a new deadline is not a valid date and the save fails. */
  function Merge(a: Assignment, q: AssignmentForm, parseDate: string -> Option<Time>): (m: Option<Assignment>)
    ensures m.None? <==> Truthy(q.deadline) && parseDate(q.deadline.value).None?
    ensures m.Some? ==> m.value == a.(
      title := OrElse(q.title, a.title),
      description := if Truthy(q.description) then q.description else a.description,
      deadline := if Truthy(q.deadline) then parseDate(q.deadline.value).value else a.deadline,
      course := OrElse(q.course, a.course),
      groupNo := OrElse(q.groupNo, a.groupNo))
  {
    var deadline := if Truthy(q.deadline) then parseDate(q.deadline.value) else Some(a.deadline);
    if deadline.None? then None
    else Some(a.(title := OrElse(q.title, a.title),
                 description := if Truthy(q.description) then q.description else a.description,
                 deadline := deadline.value,
                 course := OrElse(q.course, a.course),
                 groupNo := OrElse(q.groupNo, a.groupNo)))
  }

  /** The caller may edit or delete an assignment of the caller's course. */
  predicate MayManage(db: Db, caller: Caller, id: Id)
  {
    caller.role == TEACHER && id in db.assignments.rows && caller.course == db.assignments.rows[id].course
  }

  /** updateAssignment as written: the group lookup uses the request's
      course and groupNo themselves, before the merge falls back to the
      stored ones. */
  function UpdateAssignment(db: Db, caller: Caller, id: Id, q: AssignmentForm,
                            parseDate: string -> Option<Time>): (r: Step)
    requires Consistent(db)
    ensures Consistent(r.db)
    ensures r.http.code in {200, 400, 403, 404, 500}
    ensures r.http.code != 200 ==> r.db == db
    ensures r.http.code == 403 <==>
      caller.role != TEACHER || (id in db.assignments.rows && caller.course != db.assignments.rows[id].course)
    ensures r.http.code == 404 <==> caller.role == TEACHER && id !in db.assignments.rows
    ensures r.http.code == 400 <==> MayManage(db, caller, id) && !GroupExists(db, q.course, q.groupNo)
    ensures r.http.code == 200 <==>
      MayManage(db, caller, id) && GroupExists(db, q.course, q.groupNo)
      && Merge(db.assignments.rows[id], q, parseDate).Some?
    ensures r.http.code == 200 ==>
      && r.db == db.(assignments := r.db.assignments)
      && r.db.assignments == Put(db.assignments, id, Merge(db.assignments.rows[id], q, parseDate).value)
  {
    if caller.role != TEACHER then Reject(db, 403, MSG_ONLY_TEACHERS_EDIT)
    else if id !in db.assignments.rows then Reject(db, 404, MSG_NOT_FOUND)
    else
      var a := db.assignments.rows[id];
      if caller.course != a.course then Reject(db, 403, MSG_NO_EDIT)
      else if !GroupExists(db, q.course, q.groupNo) then Reject(db, 400, MSG_NO_GROUP)
      else
        var m := Merge(a, q, parseDate);
        if m.None? then Reject(db, 500, MSG_INVALID)
        else Step(Http(200, MSG_UPDATED), db.(assignments := Put(db.assignments, id, m.value)))
  }

  /** updateAssignment with the group lookup on the merged course and
      groupNo, so that omitted fields keep the stored values. */
  function UpdateAssignmentMerged(db: Db, caller: Caller, id: Id, q: AssignmentForm,
                                  parseDate: string -> Option<Time>): (r: Step)
    requires Consistent(db)
    ensures Consistent(r.db)
    ensures r.http.code in {200, 400, 403, 404, 500}
    ensures r.http.code != 200 ==> r.db == db
    ensures r.http.code == 403 <==>
      caller.role != TEACHER || (id in db.assignments.rows && caller.course != db.assignments.rows[id].course)
    ensures r.http.code == 404 <==> caller.role == TEACHER && id !in db.assignments.rows
    ensures r.http.code == 200 <==>
      && MayManage(db, caller, id)
      && Merge(db.assignments.rows[id], q, parseDate).Some?
      && var m := Merge(db.assignments.rows[id], q, parseDate).value;
         Groups.Holds(db.groups, Trim(m.groupNo), m.course, None)
    ensures r.http.code == 200 ==>
      && r.db == db.(assignments := r.db.assignments)
      && r.db.assignments == Put(db.assignments, id, Merge(db.assignments.rows[id], q, parseDate).value)
  {
    if caller.role != TEACHER then Reject(db, 403, MSG_ONLY_TEACHERS_EDIT)
    else if id !in db.assignments.rows then Reject(db, 404, MSG_NOT_FOUND)
    else
      var a := db.assignments.rows[id];
      if caller.course != a.course then Reject(db, 403, MSG_NO_EDIT)
      else if !GroupExists(db, Some(OrElse(q.course, a.course)), Some(OrElse(q.groupNo, a.groupNo))) then
        Reject(db, 400, MSG_NO_GROUP)
      else
        var m := Merge(a, q, parseDate);
        if m.None? then Reject(db, 500, MSG_INVALID)
        else Step(Http(200, MSG_UPDATED), db.(assignments := Put(db.assignments, id, m.value)))
  }

  // ------------------------------------------------------------------ delete

  /** deleteAssignment: removes the one assignment and nothing else; its
      notifications stay. */
  function DeleteAssignment(db: Db, caller: Caller, id: Id): (r: Step)
    requires Consistent(db)
    ensures Consistent(r.db)
    ensures r.http.code in {200, 403, 404}
    ensures r.http.code == 200 <==> MayManage(db, caller, id)
    ensures r.http.code == 404 <==> caller.role == TEACHER && id !in db.assignments.rows
    ensures r.http.code != 200 ==> r.db == db
    ensures r.db == db.(assignments := r.db.assignments)
    ensures r.http.code == 200 ==>
      && r.db.assignments.rows.Keys == db.assignments.rows.Keys - {id}
      && forall k :: k in r.db.assignments.rows ==> r.db.assignments.rows[k] == db.assignments.rows[k]
  {
    if caller.role != TEACHER then Reject(db, 403, MSG_ONLY_TEACHERS_DELETE)
    else if id !in db.assignments.rows then Reject(db, 404, MSG_NOT_FOUND)
    else if caller.course != db.assignments.rows[id].course then Reject(db, 403, MSG_NO_DELETE)
    else Step(Http(200, MSG_DELETED), db.(assignments := Delete(db.assignments, id)))
  }

  // ---------------------------------------------------------------- listings

  /** getAssignmentsByStudent: the assignments of the caller's course and
      group in natural order. No role is checked; a caller without a group
      sees none. */
  function AssignmentsForStudent(db: Db, caller: Caller): (r: seq<(Id, Assignment)>)
    requires Consistent(db)
    ensures forall x :: x in r <==>
      && x.0 in db.assignments.rows && x.1 == db.assignments.rows[x.0]
      && x.1.course == caller.course && caller.groupNo == Some(x.1.groupNo)
    ensures forall i, j :: 0 <= i < j < |r| ==> r[i].0 < r[j].0
  {
    Query(db.assignments, (a: Assignment) => a.course == caller.course && caller.groupNo == Some(a.groupNo))
  }

  /** getAssignmentsByTeacher: every assignment of the caller's course, for
      a teacher only. */
  function AssignmentsForTeacher(db: Db, caller: Caller): (r: Found<Assignment>)
    requires Consistent(db)
    ensures r.code == 200 || r.code == 403
    ensures r.code == 403 <==> caller.role != TEACHER
    ensures r.code == 403 ==> r.items == []
    ensures r.code == 200 ==>
      && (forall x :: x in r.items <==>
            x.0 in db.assignments.rows && x.1 == db.assignments.rows[x.0] && x.1.course == caller.course)
      && (forall i, j :: 0 <= i < j < |r.items| ==> r.items[i].0 < r.items[j].0)
  {
    if caller.role != TEACHER then Found(403, [])
    else Found(200, Query(db.assignments, (a: Assignment) => a.course == caller.course))
  }

  // ------------------------------------------------------------------ lemmas

  /** A created assignment is announced to every student of its group
      exactly once: no two new notifications share a recipient, and the
      users holding one are exactly the students of that course and group. */
  lemma CreateNotifiesEachStudentOnce(db: Db, caller: Caller, q: AssignmentForm, now: Time,
                                      parseDate: string -> Option<Time>, transport: Mail -> bool)
    requires Consistent(db)
    requires CreateAssignment(db, caller, q, now, parseDate, transport).http.code == 201
    ensures var after := CreateAssignment(db, caller, q, now, parseDate, transport).db.notifications;
      var base := db.notifications.next;
      && (forall j :: base <= j < after.next ==> !after.rows[j].isRead && after.rows[j].recipientRole == STUDENT)
      && (forall j, j' :: base <= j < j' < after.next ==> after.rows[j].recipient != after.rows[j'].recipient)
      && (forall k :: k in db.users.rows && IsStudentOf(db.users.rows[k], q.course.value, Some(q.groupNo.value)) <==>
            exists j :: base <= j < after.next && after.rows[j].recipient == k)
  {
    var after := CreateAssignment(db, caller, q, now, parseDate, transport).db.notifications;
    var ids := Audience(db, q, parseDate);
    ExtendsAddressed(db.notifications, after, TaskNotes(q, caller, now, ids), ids, STUDENT);
    OnePerRecipient(db.notifications, after, ids);
  }

  /** The assignment is stored even when a mail fails, and its creator
      finds it in the teacher listing exactly when it is for the creator's
      own course: no check ties the requested course to the teacher. */
  lemma CreatedAssignmentListed(db: Db, caller: Caller, q: AssignmentForm, now: Time,
                                parseDate: string -> Option<Time>, transport: Mail -> bool)
    requires Consistent(db) && CreationAdmitted(db, caller, q, parseDate)
    ensures var db1 := CreateAssignment(db, caller, q, now, parseDate, transport).db;
      var r := AssignmentsForTeacher(db1, caller);
      && r.code == 200
      && ((db.assignments.next, NewAssignment(q, caller, parseDate)) in r.items <==> q.course.value == caller.course)
  {
    var db1 := CreateAssignment(db, caller, q, now, parseDate, transport).db;
    assert db1.assignments.rows[db.assignments.next + 0] == NewAssignment(q, caller, parseDate);
  }

  /** Every student of the assignment's course and group finds a new
      assignment in the student listing. */
  lemma CreatedAssignmentReachesStudents(db: Db, caller: Caller, q: AssignmentForm, now: Time,
                                         parseDate: string -> Option<Time>, transport: Mail -> bool, student: Caller)
    requires Consistent(db) && CreationAdmitted(db, caller, q, parseDate)
    requires student.course == q.course.value && student.groupNo == q.groupNo
    ensures var db1 := CreateAssignment(db, caller, q, now, parseDate, transport).db;
      (db.assignments.next, NewAssignment(q, caller, parseDate)) in AssignmentsForStudent(db1, student)
  {
    var db1 := CreateAssignment(db, caller, q, now, parseDate, transport).db;
    assert db1.assignments.rows[db.assignments.next + 0] == NewAssignment(q, caller, parseDate);
  }

  /** A deleted assignment leaves every listing: no teacher and no student
      finds its id afterwards, and the rest of each listing is as stored. */
  lemma DeletedAssignmentUnlisted(db: Db, caller: Caller, id: Id, viewer: Caller)
    requires Consistent(db)
    requires DeleteAssignment(db, caller, id).http.code == 200
    ensures var db1 := DeleteAssignment(db, caller, id).db;
      && (forall x :: x in AssignmentsForTeacher(db1, viewer).items ==> x.0 != id)
      && (forall x :: x in AssignmentsForStudent(db1, viewer) ==> x.0 != id)
  {
  }

  /** Deleting an assignment a second time answers 404 and writes nothing. */
  lemma DeleteAssignmentTwice(db: Db, caller: Caller, id: Id)
    requires Consistent(db)
    requires DeleteAssignment(db, caller, id).http.code == 200
    ensures var db1 := DeleteAssignment(db, caller, id).db;
      DeleteAssignment(db1, caller, id) == Reject(db1, 404, MSG_NOT_FOUND)
  {
  }

  /** A successful grade stores a number in [0, 100] with the feedback, and
      the assignment is graded whether or not it was submitted. */
  lemma GradeIsInRange(db: Db, caller: Caller, id: Id, grade: GradeInput, feedback: Field, now: Time,
                       transport: Mail -> bool)
    requires Consistent(db)
    requires GradeAssignment(db, caller, id, grade, feedback, now, transport).http.code == 200
    ensures var a := GradeAssignment(db, caller, id, grade, feedback, now, transport).db.assignments.rows[id];
      && a.grade.Some? && 0 <= a.grade.value <= 100 && a.feedback == feedback
      && StageOf(a) == Graded
      && a == db.assignments.rows[id].(grade := a.grade, feedback := a.feedback)
  {
  }

  /** The number 0 is falsy and refused as a missing grade, while the text
      "0" is read as the grade 0. */
  lemma ZeroGradeOnlyAsText(db: Db, caller: Caller, id: Id, feedback: Field, now: Time, transport: Mail -> bool)
    requires Consistent(db) && caller.role == TEACHER && Truthy(feedback)
    ensures GradeAssignment(db, caller, id, GradeNumber(0), feedback, now, transport) == Reject(db, 400, MSG_GRADE_REQUIRED)
    ensures ReadGrade(GradeText("0")) == Some(0)
  {
    ZeroTextReadsZero();
  }

  lemma ZeroTextReadsZero()
    ensures ReadGrade(GradeText("0")) == Some(0)
  {
    ParseIntOfIntToString(0);
    assert IntToString(0) == "0";
  }

  /** Grading notifies at most one user, the student who submitted, and
      nobody when the assignment was never submitted. */
  lemma GradeNotifiesOnlySubmitter(db: Db, caller: Caller, id: Id, grade: GradeInput, feedback: Field, now: Time,
                                   transport: Mail -> bool)
    requires Consistent(db)
    requires GradeAssignment(db, caller, id, grade, feedback, now, transport).http.code == 200
    ensures var after := GradeAssignment(db, caller, id, grade, feedback, now, transport).db.notifications;
      var a := db.assignments.rows[id];
      && after.next <= db.notifications.next + 1
      && (a.student.None? ==> after.next == db.notifications.next)
      && (forall j :: db.notifications.next <= j < after.next ==> after.rows[j].recipient == a.student.value)
  {
    var after := GradeAssignment(db, caller, id, grade, feedback, now, transport).db.notifications;
    var a := db.assignments.rows[id];
    var v := ReadGrade(grade).value;
    var notes := StudentNotes(db, a, caller, v, now);
    forall j | db.notifications.next <= j < after.next ensures after.rows[j].recipient == a.student.value {
      assert after.rows[db.notifications.next + 0] == notes[0];
    }
  }

  /** A submission keeps an earlier grade: the assignment goes back to no
      earlier stage. */
  lemma SubmitKeepsGrade(db: Db, caller: Caller, id: Id, githubLink: Field, now: Time, transport: Mail -> bool)
    requires Consistent(db)
    requires SubmissionAdmitted(db, caller, id, githubLink, now)
    ensures var a := SubmitAssignment(db, caller, id, githubLink, now, transport).db.assignments.rows[id];
      && a.grade == db.assignments.rows[id].grade
      && a.githubLink == githubLink && a.submittedAt == Some(now) && a.student == Some(caller.id)
      && StageOf(a) != Created
  {
  }

  /** As written, an update that leaves course and groupNo out is refused,
      even when the assignment's own group exists. */
  lemma UpdateWithoutGroupRefused(db: Db, caller: Caller, id: Id, title: string,
                                  parseDate: string -> Option<Time>)
    requires Consistent(db) && MayManage(db, caller, id)
    ensures UpdateAssignment(db, caller, id, AssignmentForm(Some(title), None, None, None, None), parseDate)
      == Reject(db, 400, MSG_NO_GROUP)
  {
  }

  /** With the lookup on the merged values, the same update renames the
      assignment and keeps its course and group. */
  lemma UpdateWithoutGroupKeepsGroup(db: Db, caller: Caller, id: Id, title: string,
                                     parseDate: string -> Option<Time>)
    requires Consistent(db) && MayManage(db, caller, id) && title != ""
    requires var a := db.assignments.rows[id]; Groups.Holds(db.groups, Trim(a.groupNo), a.course, None)
    ensures var r := UpdateAssignmentMerged(db, caller, id, AssignmentForm(Some(title), None, None, None, None), parseDate);
      && r.http.code == 200
      && r.db.assignments.rows[id] == db.assignments.rows[id].(title := title)
  {
    var a := db.assignments.rows[id];
    assert a.(title := title, description := a.description, deadline := a.deadline, course := a.course, groupNo := a.groupNo)
      == a.(title := title);
  }
}
