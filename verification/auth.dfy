/** Account creation and sign-in: controllers/authController.js. bcrypt
    and jsonwebtoken are parameters (`hash`, `compare`, `sign`), the
    configured invitation code is `inviteCode` (absent when the environment
    does not define it) and the mail transport is `transport`. */
module Auth {
  import opened Js
  import opened Tables
  import opened Store

  const MSG_FIELDS := "All required fields must be filled in."
  const MSG_GROUP := "Group number is mandatory for students."
  const MSG_INVITE := "Invalid invitation code"
  const MSG_STUDENT_DOMAIN := "Student email must have the domain @code.edu.az"
  const MSG_TEACHER_DOMAIN := "The teachers email must be with the @gmail.com domain."
  const MSG_MISMATCH := "Password and confirmation password do not match."
  const MSG_IN_USE := "This email is already in use."
  const MSG_ROLE := "Role not selected correctly"
  const MSG_REGISTERED := "Registration completed successfully."
  const MSG_PASSWORD_REQUIRED := "Path `password` is required."
  const MSG_SERVER := "Server error"
  const MSG_LOGIN_FIELDS := "Email and password are required."
  const MSG_BAD_CREDENTIALS := "Email or password is incorrect."
  const MSG_LOGGED_IN := "Login successful"

  const STUDENT_DOMAIN := "@code.edu.az"
  const TEACHER_DOMAIN := "@gmail.com"
  const WELCOME_SUBJECT := "Registration Successful"

  /** The body of a registration request. */
  datatype Registration = Registration(
    name: Field, surname: Field, email: Field, password: Field,
    confirmPassword: Field, course: Field, groupNo: Field, role: Field,
    inviteCode: Field)

  /** The eight fields every registration must carry. */
  predicate AllGiven(q: Registration)
  {
    && Truthy(q.name) && Truthy(q.surname) && Truthy(q.email) && Truthy(q.password)
    && Truthy(q.confirmPassword) && Truthy(q.course) && Truthy(q.role) && Truthy(q.inviteCode)
  }

  predicate EmailTaken(users: Table<User>, email: string)
  {
    exists id :: id in users.rows && users.rows[id].email == email
  }

  /** A student names a group. */
  predicate StudentHasGroup(q: Registration)
    requires AllGiven(q)
  {
    q.role.value == STUDENT ==> Truthy(q.groupNo)
  }

  /** A student's email ends in the school's domain. */
  predicate StudentDomainFits(q: Registration)
    requires AllGiven(q)
  {
    q.role.value == STUDENT ==> EndsWith(q.email.value, STUDENT_DOMAIN)
  }

  /** A teacher's email ends in the teachers' domain. */
  predicate TeacherDomainFits(q: Registration)
    requires AllGiven(q)
  {
    q.role.value == TEACHER ==> EndsWith(q.email.value, TEACHER_DOMAIN)
  }

  predicate KnownRole(q: Registration)
    requires AllGiven(q)
  {
    q.role.value == STUDENT || q.role.value == TEACHER
  }

  /** Every rule a registration has to pass, with no order among them:
      the groupNo of a student, the invitation code, the mail domain of
      the two roles, the confirmation, a free email and a known role. */
  predicate Admissible(db: Db, q: Registration, inviteCode: Option<string>)
  {
    && AllGiven(q)
    && StudentHasGroup(q)
    && q.inviteCode == inviteCode
    && StudentDomainFits(q)
    && TeacherDomainFits(q)
    && q.password.value == q.confirmPassword.value
    && !EmailTaken(db.users, q.email.value)
    && KnownRole(q)
  }

  /** The account a registration stores: the password only as its hash,
      and no groupNo for a teacher. */
  function NewUser(q: Registration, hash: string -> string): (u: User)
    requires AllGiven(q)
    ensures u.password == hash(q.password.value)
    ensures u.email == q.email.value && u.role == q.role.value
    ensures u.groupNo == if q.role.value == STUDENT then q.groupNo else None
  {
    User(q.name.value, q.surname.value, q.email.value, hash(q.password.value), q.course.value,
         if q.role.value == STUDENT then q.groupNo else None, q.role.value)
  }

  function Welcome(email: string): Mail
  {
    Mail(email, WELCOME_SUBJECT)
  }

  /** The checks of `register` up to the role check, in the handler's order;
      None when every one passes. */
  function RegistrationError(db: Db, q: Registration, inviteCode: Option<string>): (e: Option<string>)
    ensures e == None <==> Admissible(db, q, inviteCode)
    ensures !AllGiven(q) ==> e == Some(MSG_FIELDS)
    ensures AllGiven(q) && !StudentHasGroup(q) ==> e == Some(MSG_GROUP)
    ensures AllGiven(q) && StudentHasGroup(q) && q.inviteCode != inviteCode ==> e == Some(MSG_INVITE)
    ensures (AllGiven(q) && StudentHasGroup(q) && q.inviteCode == inviteCode
       && !StudentDomainFits(q)) ==> e == Some(MSG_STUDENT_DOMAIN)
    ensures (AllGiven(q) && StudentHasGroup(q) && q.inviteCode == inviteCode
       && StudentDomainFits(q) && !TeacherDomainFits(q)) ==> e == Some(MSG_TEACHER_DOMAIN)
    ensures (AllGiven(q) && StudentHasGroup(q) && q.inviteCode == inviteCode
       && StudentDomainFits(q) && TeacherDomainFits(q)
       && q.password.value != q.confirmPassword.value) ==> e == Some(MSG_MISMATCH)
    ensures (AllGiven(q) && StudentHasGroup(q) && q.inviteCode == inviteCode
       && StudentDomainFits(q) && TeacherDomainFits(q)
       && q.password.value == q.confirmPassword.value
       && EmailTaken(db.users, q.email.value)) ==> e == Some(MSG_IN_USE)
    ensures (AllGiven(q) && StudentHasGroup(q) && q.inviteCode == inviteCode
       && StudentDomainFits(q) && TeacherDomainFits(q)
       && q.password.value == q.confirmPassword.value
       && !EmailTaken(db.users, q.email.value) && !KnownRole(q)) ==> e == Some(MSG_ROLE)
  {
    if !AllGiven(q) then Some(MSG_FIELDS)
    else if q.role.value == STUDENT && !Truthy(q.groupNo) then Some(MSG_GROUP)
    else if q.inviteCode != inviteCode then Some(MSG_INVITE)
    else if q.role.value == STUDENT && !EndsWith(q.email.value, STUDENT_DOMAIN) then Some(MSG_STUDENT_DOMAIN)
    else if q.role.value == TEACHER && !EndsWith(q.email.value, TEACHER_DOMAIN) then Some(MSG_TEACHER_DOMAIN)
    else if q.password.value != q.confirmPassword.value then Some(MSG_MISMATCH)
    else if EmailTaken(db.users, q.email.value) then Some(MSG_IN_USE)
    else if q.role.value != STUDENT && q.role.value != TEACHER then Some(MSG_ROLE)
    else None
  }

  /** register. A rejected registration writes nothing. An admitted one is
      saved unless the schema's required validator refuses the hash (400);
      the welcome mail is sent after the save, so a refused mail answers 500
      with the account already stored. */
  function Register(db: Db, q: Registration, inviteCode: Option<string>,
                    hash: string -> string, transport: Mail -> bool): (r: Step)
    requires Consistent(db)
    ensures Consistent(r.db)
    ensures r.http.code in {201, 400, 500}
    ensures r.http.code == 400 ==> r.db == db
    ensures r.http.code != 400 ==>
      && Admissible(db, q, inviteCode)
      && r.db == db.(users := r.db.users, outbox := r.db.outbox)
      && Extends(db.users, r.db.users, [NewUser(q, hash)])
    ensures r.http.code == 201 <==>
      Admissible(db, q, inviteCode) && hash(q.password.value) != "" && transport(Welcome(q.email.value))
    ensures r.http.code == 201 ==> r.db.outbox == db.outbox + [Welcome(q.email.value)]
    ensures r.http.code == 500 ==> r.db.outbox == db.outbox
  {
    var e := RegistrationError(db, q, inviteCode);
    if e.Some? then Reject(db, 400, e.value)
    else
      var u := NewUser(q, hash);
      if u.password == "" then Reject(db, 400, MSG_PASSWORD_REQUIRED)
      else
        var saved := db.(users := Insert(db.users, u));
        if !transport(Welcome(u.email)) then Step(Http(500, MSG_SERVER), saved)
        else Step(Http(201, MSG_REGISTERED), saved.(outbox := db.outbox + [Welcome(u.email)]))
  }

  // ------------------------------------------------------------------ login

  /** The payload `login` signs. */
  datatype Claims = Claims(id: Id, email: string, role: string, course: string, groupNo: Option<string>)

  /** The user object `login` answers with. */
  datatype Profile = Profile(
    id: Id, name: string, surname: string, email: string,
    role: string, course: string, groupNo: Option<string>)

  /** The answer of `login`: its status and, on success, the token and profile. */
  datatype Session = Session(http: Http, token: Option<string>, user: Option<Profile>)

  function ClaimsOf(id: Id, u: User): Claims
  {
    Claims(id, u.email, u.role, u.course, u.groupNo)
  }

  function ProfileOf(id: Id, u: User): Profile
  {
    Profile(id, u.name, u.surname, u.email, u.role, u.course, u.groupNo)
  }

  /** The stored user `email` and `password` sign in as. */
  predicate SignsInAs(db: Db, email: string, password: string, compare: (string, string) -> bool, id: Id)
  {
    id in db.users.rows && db.users.rows[id].email == email && compare(password, db.users.rows[id].password)
  }

  /** login. Both failing lookups give the same answer; the token and the
      profile describe the stored account. */
  function Login(db: Db, email: Field, password: Field,
                 compare: (string, string) -> bool, sign: Claims -> string): (r: Session)
    requires Consistent(db)
    ensures r.http.code == 200 || r.http.code == 400
    ensures r.http.code == 400 ==> r.token == None && r.user == None
    ensures !Truthy(email) || !Truthy(password) ==> r.http == Http(400, MSG_LOGIN_FIELDS)
    ensures Truthy(email) && Truthy(password) && r.http.code == 400 ==> r.http.message == MSG_BAD_CREDENTIALS
    ensures r.http.code == 200 <==>
      Truthy(email) && Truthy(password) && exists id :: SignsInAs(db, email.value, password.value, compare, id)
    ensures r.http.code == 200 ==> exists id :: (
      && SignsInAs(db, email.value, password.value, compare, id)
      && r.token == Some(sign(ClaimsOf(id, db.users.rows[id])))
      && r.user == Some(ProfileOf(id, db.users.rows[id])))
  {
    if !Truthy(email) || !Truthy(password) then Session(Http(400, MSG_LOGIN_FIELDS), None, None)
    else
      var found := First(db.users, (u: User) => u.email == email.value);
      if found.None? then Session(Http(400, MSG_BAD_CREDENTIALS), None, None)
      else
        var id := found.value;
        var u := db.users.rows[id];
        if !compare(password.value, u.password) then Session(Http(400, MSG_BAD_CREDENTIALS), None, None)
        else
          assert SignsInAs(db, email.value, password.value, compare, id);
          Session(Http(200, MSG_LOGGED_IN), Some(sign(ClaimsOf(id, u))), Some(ProfileOf(id, u)))
  }

  // ------------------------------------------------------------------ lemmas

  /** A registration with an email that is already stored is refused with
      that reason once the earlier checks pass, and no account is added. */
  lemma TakenEmailRefused(db: Db, q: Registration, inviteCode: Option<string>,
                          hash: string -> string, transport: Mail -> bool)
    requires Consistent(db) && AllGiven(q) && EmailTaken(db.users, q.email.value)
    ensures Register(db, q, inviteCode, hash, transport).db == db
    ensures var e := RegistrationError(db, q, inviteCode);
      e == Some(MSG_GROUP) || e == Some(MSG_INVITE) || e == Some(MSG_STUDENT_DOMAIN)
      || e == Some(MSG_TEACHER_DOMAIN) || e == Some(MSG_MISMATCH) || e == Some(MSG_IN_USE)
    ensures (StudentHasGroup(q) && q.inviteCode == inviteCode && StudentDomainFits(q)
       && TeacherDomainFits(q) && q.password.value == q.confirmPassword.value) ==>
      && RegistrationError(db, q, inviteCode) == Some(MSG_IN_USE)
      && Register(db, q, inviteCode, hash, transport) == Reject(db, 400, MSG_IN_USE)
  {
  }

  /** A role other than the two known ones passes both domain checks and
      is refused by the role check, once the rest of the request is fine. */
  lemma UnknownRoleReachesRoleCheck(db: Db, q: Registration, inviteCode: Option<string>,
                                    hash: string -> string, transport: Mail -> bool)
    requires Consistent(db) && AllGiven(q)
    requires q.role.value != STUDENT && q.role.value != TEACHER
    requires q.inviteCode == inviteCode && q.password.value == q.confirmPassword.value
    requires !EmailTaken(db.users, q.email.value)
    ensures Register(db, q, inviteCode, hash, transport) == Step(Http(400, MSG_ROLE), db)
  {
  }

  /** Every account registration stores keeps emails unique: two
      registrations with one email never both succeed. */
  lemma RegisterTwiceFails(db: Db, q: Registration, inviteCode: Option<string>,
                           hash: string -> string, transport: Mail -> bool)
    requires Consistent(db)
    requires Register(db, q, inviteCode, hash, transport).http.code == 201
    ensures var db1 := Register(db, q, inviteCode, hash, transport).db;
      Register(db1, q, inviteCode, hash, transport) == Step(Http(400, MSG_IN_USE), db1)
  {
    var db1 := Register(db, q, inviteCode, hash, transport).db;
    assert db1.users.rows[db.users.next] == NewUser(q, hash);
    assert EmailTaken(db1.users, q.email.value);
  }

  /** An unknown email and a wrong password are indistinguishable. */
  lemma LoginFailuresAlike(db: Db, email: string, password: string, compare: (string, string) -> bool,
                           sign: Claims -> string)
    requires Consistent(db) && email != "" && password != ""
    requires forall id :: !SignsInAs(db, email, password, compare, id)
    ensures Login(db, Some(email), Some(password), compare, sign) == Session(Http(400, MSG_BAD_CREDENTIALS), None, None)
  {
  }

  /** A user who has just registered signs in with the same password when
      `compare` accepts the password against its own hash, and the token
      carries the new account. */
  lemma RegisteredUserSignsIn(db: Db, q: Registration, inviteCode: Option<string>,
                              hash: string -> string, transport: Mail -> bool,
                              compare: (string, string) -> bool, sign: Claims -> string)
    requires Consistent(db)
    requires Register(db, q, inviteCode, hash, transport).http.code == 201
    requires compare(q.password.value, hash(q.password.value))
    ensures var db1 := Register(db, q, inviteCode, hash, transport).db;
      Login(db1, q.email, q.password, compare, sign)
        == Session(Http(200, MSG_LOGGED_IN),
                   Some(sign(ClaimsOf(db.users.next, NewUser(q, hash)))),
                   Some(ProfileOf(db.users.next, NewUser(q, hash))))
  {
    var db1 := Register(db, q, inviteCode, hash, transport).db;
    var id := db.users.next;
    assert db1.users.rows[id] == NewUser(q, hash);
    assert SignsInAs(db1, q.email.value, q.password.value, compare, id);
    var found := First(db1.users, (u: User) => u.email == q.email.value);
    assert found == Some(id);
  }
}
