# Learning-platform backend: controller decisions in Dafny

The backend serves a course platform: teachers publish assignments and
materials for a course and group, students submit GitHub links and receive
grades, both get in-app notifications and mails, accounts are registered
with an invitation code, and a public contact form is rate-limited. Each
Express handler does the same thing. It runs an ordered list of guard
checks, each with its own status code and message. Then it performs one
state update, or it rejects the request.

This project models that layer. Every handler is a pure function. It maps
the store, the caller, the request fields and the clock to a `Step`: the
status code with its message, plus the store afterwards.

- **Store** (`store.dfy`, `tables.dfy`). Each collection is a `Table`: rows
  keyed by increasing ids. The model assumes that an unsorted `find`
  returns documents in insertion order, which is id order; MongoDB does
  not promise this. Which recipients are mailed before a refused mail
  depends on that order. `Consistent` holds the invariants every
  handler keeps: valid tables, unique emails, and unique (course, groupNo)
  pairs. Accepted mails are appended to an `outbox`.
- **Request values** (`js.dfy`). A body field is `Field = Option<string>`,
  with `None` for `undefined`. JavaScript truthiness, template-literal
  printing, `String.prototype.trim` and `parseInt` are written out.
- **Collaborators as parameters.** The collaborators the handlers call are
  parameters:
  - bcrypt hashing and comparing, and jwt signing;
  - `new Date(...)`;
  - the mail transport (`Mail -> bool`; a refusal is a thrown `sendMail`);
  - the `INVITE_CODE` environment value;
  - the `$regex` title matcher;
  - the upload middleware's outcome.
- **Modules.** One module per controller: `Groups` (with the group schema),
  `Auth`, `Notifications`, `Assignments`, `Materials`, `Contact`. `Links`
  holds the two URL patterns, written as parsers. Each parser is proved
  equivalent to a renderer of structured links.

Two behaviours of Mongoose matter here. The model assumes Mongoose 6 or
later and models them as that version documents them:

- Schema setters such as `trim` also apply to query filter values, so
  `Group.findOne({ groupNo, course })` looks up the trimmed groupNo.
- Keys whose value is `undefined` are dropped from an update, so those
  fields keep their stored values. In Mongoose 5, where `omitUndefined`
  is off by default, they would be set to null instead.

A save that fails inside the upload callback of `createMaterial` is a
rejected promise nobody catches, and no handler for unhandled rejections is
installed. The request gets no answer, and on Node.js 15 or later the
default for an unhandled rejection ends the process. The model answers with
code 0 (`NO_REPLY`), which stands for both: no answer, and on those Node.js
versions a process exit.

Notifications that go out with mails are sent in one sequential loop: each
mail, then its notification. The first thrown `sendMail` ends the handler
with 500, and the recipients after it get neither (`Store.MailAndNotify`).

## Model

| member | source | states |
|---|---|---|
| Groups.CreateGroup | Final-Project-Back/controllers/groupController.js:5-25 | 400 exactly when a field is falsy or the trimmed pair is already stored; 201 exactly when the fields pass the schema and the pair is new; only the new group is added and every stored group stays well-formed |
| Groups.UpdateGroup | Final-Project-Back/controllers/groupController.js:38-67 | 400 exactly when a field is falsy or another id holds the pair; 404 exactly when the id is unknown and the values are valid; on 200 only that group is replaced, and pairs stay unique |
| Groups.DeleteGroup | Final-Project-Back/controllers/groupController.js:70-83 | 200 exactly when the id exists; only the group table changes, with no check of assignments or materials that name the group |
| Groups.GetGroups | Final-Project-Back/controllers/groupController.js:28-35 | every stored group exactly once, sorted by course then groupNo, with count equal to the list length |
| Groups.GetGroupsByCourse | Final-Project-Back/controllers/groupController.js:86-99 | 400 exactly when the course is falsy; otherwise exactly that course's groups, sorted by groupNo |
| Groups.CreateExistingFails | Final-Project-Back/controllers/groupController.js:13-16 | creating a stored pair, even with blanks around groupNo, answers 400 and changes nothing |
| Groups.UpdateToOwnPair | Final-Project-Back/controllers/groupController.js:48-51 | saving a stored group under its own pair succeeds and leaves the store as it was |
| Groups.DeleteFreesPair | Final-Project-Back/controllers/groupController.js:70-79 | after a group is deleted, creating its pair again succeeds |
| Groups.InsertKeepsUnique | Final-Project-Back/models/group.js:35 | adding a pair no row holds keeps (course, groupNo) unique |
| Groups.PutKeepsUnique | Final-Project-Back/models/group.js:35 | replacing a row by a pair no other row holds keeps (course, groupNo) unique |
| Groups.FullNameInjective | Final-Project-Back/models/group.js:38-40 | two groups of listed courses with the same `fullName` are the same group |
| Groups.CoursesDistinguishable | Final-Project-Back/models/group.js:14-25 | no listed course name is a prefix of another |
| Js.TrimIdempotent | Final-Project-Back/models/group.js:8 | trimming a trimmed string changes nothing, so a stored groupNo is its own trimmed form |
| Auth.RegistrationError | Final-Project-Back/controllers/authController.js:10-48 | each of the eight checks gives its own message exactly when it fails after every earlier check passed, in the handler's order (fields, student group, invitation code, student domain, teacher domain, confirmation, email in use, role); none fails exactly when the request meets every rule |
| Auth.Register | Final-Project-Back/controllers/authController.js:6-83 | 400 writes nothing; 201 exactly when every rule holds, the hash is non-empty and the welcome mail is accepted; the stored user holds the hash, not the password; a refused mail answers 500 with the account kept |
| Auth.NewUser | Final-Project-Back/controllers/authController.js:51-62 | the stored password is the hash of the given one, and groupNo is kept only for a student |
| Auth.Login | Final-Project-Back/controllers/authController.js:85-132 | 200 exactly when some stored user signs in with the email and password; the token claims and the returned profile come from that stored user |
| Auth.TakenEmailRefused | Final-Project-Back/controllers/authController.js:40-43 | an email already stored is refused with that reason once the earlier checks pass, and nothing is written |
| Auth.UnknownRoleReachesRoleCheck | Final-Project-Back/controllers/authController.js:27-48 | a role other than student or teacher passes both domain checks and is refused by the role check |
| Auth.RegisterTwiceFails | Final-Project-Back/controllers/authController.js:40-43 | after a successful registration the same request is refused, so emails stay unique |
| Auth.LoginFailuresAlike | Final-Project-Back/controllers/authController.js:93-101 | an unknown email and a wrong password give the same answer |
| Auth.RegisteredUserSignsIn | Final-Project-Back/controllers/authController.js:51-126 | a user who just registered signs in with the same password, and the profile carries the new account |
| Notifications.Recipients | Final-Project-Back/controllers/notificationController.js:13-25 | exactly the addressed users, in increasing id order: the named student of the course, else the students of the course and group, or the teachers of the course |
| Notifications.CreateNotification | Final-Project-Back/controllers/notificationController.js:6-52 | 400 exactly when the request is malformed, 404 exactly when nobody is selected; on 201 one notification per recipient is appended, in order, and nothing else changes |
| Notifications.OneNotePerRecipient | Final-Project-Back/controllers/notificationController.js:30-46 | the new notifications are unread, no two share a recipient, and the users holding one are exactly the addressed users |
| Notifications.BroadcastIsShown | Final-Project-Back/controllers/notificationController.js:64-69 | a caller sees a notification broadcast to them exactly when its role, course and (for students) group are the caller's |
| Notifications.GetNotifications | Final-Project-Back/controllers/notificationController.js:55-78 | exactly the caller's notifications for the caller's role, course and (for a student) group, each once, newest first |
| Notifications.MarkAsRead | Final-Project-Back/controllers/notificationController.js:81-97 | 200 exactly when the caller is the recipient; only that notification's `isRead` changes |
| Notifications.MarkAsReadIdempotent | Final-Project-Back/controllers/notificationController.js:83-92 | marking twice gives the same answer and store as marking once |
| Store.MailAndNotify | Final-Project-Back/controllers/assignmentController.js:68-90 | mails are sent in order until the transport refuses one; each accepted mail and its notification are kept, and success means every mail was accepted |
| Store.OnePerRecipient | Final-Project-Back/controllers/notificationController.js:30-46 | notifications addressed in order to strictly increasing ids give each id at most one, and exactly the listed ids get one |
| Assignments.CreateAssignment | Final-Project-Back/controllers/assignmentController.js:41-97 | 403 exactly for a non-teacher, 400 exactly when the group does not exist, and then nothing is stored; otherwise the new assignment is the caller's, with no submission or grade, and 201 exactly when every student mail is accepted |
| Assignments.CreateNotifiesEachStudentOnce | Final-Project-Back/controllers/assignmentController.js:68-90 | after 201 each student of the course and group holds exactly one new unread notification, and nobody else holds one |
| Assignments.CreatedAssignmentListed | Final-Project-Back/controllers/assignmentController.js:24-66 | a created assignment is stored even if a mail fails, and its creator's listing shows it exactly when it is for the creator's own course, since creation never compares the two courses |
| Assignments.CreatedAssignmentReachesStudents | Final-Project-Back/controllers/assignmentController.js:8-66 | every student of the course and group finds a created assignment in the student listing |
| Assignments.NewAssignment | Final-Project-Back/controllers/assignmentController.js:57-64 | the saved assignment belongs to the caller and has no link, submission, student or grade |
| Assignments.SubmitAssignment | Final-Project-Back/controllers/assignmentController.js:100-172 | the guards answer in order: missing link 400, bad link 400 before the lookup, unknown id 404, not a student of the course and group 403, past deadline 400; after them only link, time and student change, and the teacher is told only if the teacher exists |
| Assignments.SubmitKeepsGrade | Final-Project-Back/controllers/assignmentController.js:136-139 | a submission stores link, time and student and keeps an earlier grade |
| Assignments.ReadGrade | Final-Project-Back/controllers/assignmentController.js:189-193 | the grade read is what `parseInt` reads from the value and lies in [0, 100]; a number is accepted exactly when it is in range |
| Assignments.GradeAssignment | Final-Project-Back/controllers/assignmentController.js:175-255 | the guards answer in order: non-teacher 403, falsy grade or feedback 400, unreadable or out-of-range grade 400, unknown id 404, other course 403; then only grade and feedback change |
| Assignments.GradeIsInRange | Final-Project-Back/controllers/assignmentController.js:189-220 | a successful grade stores a number in [0, 100] with the feedback and changes nothing else of the assignment |
| Assignments.ZeroGradeOnlyAsText | Final-Project-Back/controllers/assignmentController.js:185-189 | the number 0 is refused as a missing grade, while the text "0" is read as grade 0 |
| Assignments.GradeNotifiesOnlySubmitter | Final-Project-Back/controllers/assignmentController.js:223-250 | grading notifies at most the submitting student, and nobody when there is no submission |
| Js.ParseIntOfIntToString | Final-Project-Back/controllers/assignmentController.js:189 | `parseInt` of a number's decimal text is that number |
| Assignments.Merge | Final-Project-Back/controllers/assignmentController.js:290-294 | each field takes the request value when truthy and keeps the stored one otherwise; the merge fails exactly when a truthy deadline is not a date |
| Assignments.UpdateAssignment | Final-Project-Back/controllers/assignmentController.js:258-302 | as written: 403, 404 and 403 guards, then 400 exactly when the request's own course and groupNo name no group; on 200 the merged assignment is stored |
| Assignments.UpdateAssignmentMerged | Final-Project-Back/controllers/assignmentController.js:258-302 | the same handler with the group looked up on the merged course and groupNo |
| Assignments.DeleteAssignment | Final-Project-Back/controllers/assignmentController.js:305-337 | 200 exactly for a teacher of the assignment's course; only that assignment is removed |
| Assignments.DeletedAssignmentUnlisted | Final-Project-Back/controllers/assignmentController.js:305-337 | after a successful delete no teacher or student listing holds the assignment |
| Assignments.DeleteAssignmentTwice | Final-Project-Back/controllers/assignmentController.js:314-318 | deleting the same assignment again answers 404 and writes nothing |
| Assignments.AssignmentsForStudent | Final-Project-Back/controllers/assignmentController.js:8-21 | exactly the assignments of the caller's course and group, in natural order |
| Assignments.AssignmentsForTeacher | Final-Project-Back/controllers/assignmentController.js:24-38 | 403 exactly for a non-teacher; otherwise exactly the assignments of the caller's course |
| Links.GithubLinkCharacterization | Final-Project-Back/controllers/assignmentController.js:112 | a string passes the GitHub pattern exactly when it equals, ignoring case, a rendered well-formed link (http or https, optional `www.`, user, repository, optional `/` or `.git`) |
| Links.GithubLinkRoundTrip | Final-Project-Back/controllers/assignmentController.js:112 | parsing a rendered GitHub link gives back its parts |
| Links.VideoUrlCharacterization | Final-Project-Back/controllers/materialController.js:76 | a string passes the video pattern exactly when it is a rendered well-formed video link |
| Links.ParseVideoUrlSound | Final-Project-Back/controllers/materialController.js:146 | an accepted video link parses into parts that render back to it |
| Materials.ChooseUrl | Final-Project-Back/controllers/materialController.js:66-86 | a PDF with a file gets its upload path, a video with a truthy URL gets that URL only if it matches the pattern, and anything else is refused with 400 |
| Materials.CreateMaterial | Final-Project-Back/controllers/materialController.js:51-106 | 403 exactly for a non-teacher; 400 exactly for an upload error or no usable source; 201 exactly when the schema accepts the document, which records the caller as uploader; a refused request stores nothing |
| Materials.CreatedMaterialOwnedByCaller | Final-Project-Back/controllers/materialController.js:88-96 | a created material belongs to the caller, is dated now, and points at the uploaded PDF or a valid video link |
| Materials.NewUrl | Final-Project-Back/controllers/materialController.js:135-155 | an update keeps the stored URL unless a PDF file or a valid video URL replaces it; a video URL off the pattern is refused |
| Materials.UpdateMaterial | Final-Project-Back/controllers/materialController.js:109-165 | 403 for a non-teacher, 400 for an upload error, 404 for an unknown id, 403 for anyone but the uploader, each leaving the store unchanged; on 200 only the given fields and the URL change |
| Materials.UpdateKeepsUrl | Final-Project-Back/controllers/materialController.js:153-155 | an owner's update with neither a file nor a URL succeeds and keeps the stored URL |
| Materials.DeleteMaterial | Final-Project-Back/controllers/materialController.js:168-200 | 200 exactly for the uploader; 404 for an unknown id; only that material is removed |
| Materials.DeleteMaterialTwice | Final-Project-Back/controllers/materialController.js:175-179 | a deleted material is gone: deleting it again answers 404 |
| Materials.GetMaterials | Final-Project-Back/controllers/materialController.js:31-48 | exactly the materials the query admits, each once, newest first |
| Materials.SameFilterSameListing | Final-Project-Back/controllers/materialController.js:36-41 | two queries that admit the same materials list them identically |
| Materials.AllGroupsIsNoGroup | Final-Project-Back/controllers/materialController.js:38 | groupNo `all` lists the same materials as no groupNo |
| Materials.EmptyQueryListsAll | Final-Project-Back/controllers/materialController.js:34-41 | with no field supplied every material is listed |
| Contact.SendEmail | Final-Project-Back/controllers/contactController.js:5-49 | 429 exactly when the key was recorded less than a minute ago, and then the map is unchanged; otherwise the key is set to now before the mail, and 200 exactly when there is a message and the mail is accepted |
| Contact.Key | Final-Project-Back/controllers/contactController.js:7 | the key is the printed email, a dash, then the printed phone number |
| Contact.SendEmailOnlyGrows | Final-Project-Back/controllers/contactController.js:3-17 | no key is ever removed, and only the submitted key changes |
| Contact.RepeatWithinWindowRefused | Final-Project-Back/controllers/contactController.js:10-17 | after an accepted submission, the same key is refused for the rest of the minute, whether or not the mail went out |
| Contact.OneMinuteLaterAccepted | Final-Project-Back/controllers/contactController.js:10 | exactly one minute after the recorded time a submission is accepted |
| Contact.KeysCanCollide | Final-Project-Back/controllers/contactController.js:7 | two different email and phone pairs can share a key, and so share a rate limit |
| Contact.KeyInjectiveWithoutDash | Final-Project-Back/controllers/contactController.js:7 | when neither email holds a dash, equal keys mean equal emails and equal phone numbers |

## Left out

- Mail sending, database access, bcrypt, jwt and `new Date` are parameters. A refused mail stands for any `sendMail` failure.
- The `catch` branches for database failures (500) are not modelled. Mongoose's `CastError` for a malformed id is left out too, since ids are integers here.
- The authentication middleware is not part of this model. The caller is a `Caller` record, and its `id` serves both as `req.user.id` and as `req.user._id`.
- Request fields are strings or absent. Arrays or objects sent in a JSON body are not modelled, except for the numeric `grade`.
- Assignments.ReadGrade: a numeric grade is an integer (`GradeNumber`). Fractions, and numbers of 10^21 or more (whose decimal text uses an exponent), are not modelled.
- Auth.Register: the texts of thrown errors (the mail transport's message, and the messages joined from a Mongoose validation error other than the empty hash) are not modelled. The codes are.
- Contact.SendEmail: the 500 answer for a refused mail carries an empty message instead of the transport's error text. The missing-message case carries the engine's `TypeError` text. A `message` that is not a string is not modelled.
- Materials.CreateMaterial: the process exit that an unhandled rejection causes on Node.js 15 or later is not modelled. It would drop every other open request and clear the contact form's in-memory map. The model answers `NO_REPLY` and keeps the store and the map.
- Assignments.CreateAssignment, Assignments.UpdateAssignment and Assignments.UpdateAssignmentMerged: the 500 validation message is shortened to its prefix "An error occurred: Assignment validation failed". Mongoose goes on with ": <path>: <reason>" for each failing path, for example the date cast of `deadline`.
- Assignments.CreateAssignment, Assignments.SubmitAssignment and Assignments.GradeAssignment: the 500 answer after a refused mail carries "An error occurred: " without the transport's error message that follows it.
- Materials.CreateMaterial: the guard that the uploaded file exists on disk (500 "File uploaded but not found on the server") is not modelled, because it is file-system I/O. The multer-generated file name is the `PdfFile` parameter.
- Materials.UpdateMaterial: deleting the replaced PDF from disk is not modelled (file-system I/O). The answer does not depend on it.
- Materials.DeleteMaterial: deleting the PDF file is not modelled (file-system I/O).
- Materials.GetMaterials: the `$regex` title match is an opaque `matches` parameter. An invalid pattern (a 500) is not modelled.
- `populate` on listings, and the extra response fields (`success`, the returned documents, tokens in bodies), are not modelled beyond the values the contracts name.
- The `Promise.all` of `createNotification` saves notifications concurrently. It is modelled as sequential saves in the order the users were found.
- The unique compound index of the group schema can only reject a save when two creations race. Concurrency is not modelled, so that 500 never arises here.
- The contact map lives in process memory and is lost on restart. Restarts are not modelled.
- The `timestamps: true` fields `createdAt` and `updatedAt` of assignments, materials and groups, and `updatedAt` of notifications, are not modelled. "Nothing else changes" in the contracts is about the modelled fields only, so it says nothing about `updatedAt`.
- Of the notification handlers, only `getNotifications` is mounted by the notification routes. `createNotification` and `markNotificationAsRead` are modelled as written, but no route reaches them.
- Schedules, products, routes and the server set-up are not modelled.

## Findings

| source | as written | input that shows it | evidently intended | confidence | as-written member | corrected member |
|---|---|---|---|---|---|---|
| Final-Project-Back/controllers/assignmentController.js:284 | the group lookup uses the request's `course` and `groupNo` as given, so the `course \|\| assignment.course` and `groupNo \|\| assignment.groupNo` fallbacks at lines 293-294 can never apply | an update by the course's teacher whose body holds only `title`: `Group.findOne({ course: undefined, groupNo: undefined })` finds nothing and the answer is 400 "There is no group for this course." | look up the group the assignment will have after the merge, so an update that leaves course and groupNo out keeps them and succeeds | not executed | Assignments.UpdateWithoutGroupRefused | Assignments.UpdateWithoutGroupKeepsGroup |
