/** Registration and login in `routes/auth.js`. A new account is a pending student
    until an admin approves it; login admits admins and approved students only.
    Password hashing and comparison, and the `isEmail` validator, are parameters. */
module Auth {
  import opened Wrappers
  import opened Text
  import opened Http
  import opened Users
  import Seqs
  import Uploads

  // ----- signup -----

  /** The four text fields of the signup form; an absent field is the empty
      string, as the validators read it. */
  datatype SignupForm = SignupForm(name: string, email: string, password: string, studentId: string)

  const UniversityDomain: string := "@eng.psu.edu.eg"
  const MinPasswordLength: nat := 6

  /** A failed check of the signup chain. */
  datatype SignupError = NameRequired | InvalidEmail | OutsideDomain | ShortPassword | StudentIdRequired

  function SignupMessage(e: SignupError): string {
    match e
    case NameRequired => "Name is required"
    case InvalidEmail => "Valid university email is required"
    case OutsideDomain => "Must use university email (@eng.psu.edu.eg)"
    case ShortPassword => "Password must be at least 6 characters"
    case StudentIdRequired => "Student ID is required"
  }

  const AlreadyRegisteredMsg: string := "Email or Student ID already registered"
  const DocumentRequiredMsg: string := "Student ID document is required"
  const RegistrationFailedMsg: string := "Registration failed. Please try again."
  const RegisteredMsg: string := "Registration successful! Please wait for admin approval."

  function When<T>(c: bool, x: T): seq<T> {
    if c then [x] else []
  }

  /** Which checks of the chain fail. */
  datatype Failures = Failures(name: bool, email: bool, domain: bool, password: bool, studentId: bool)

  /** The checks of the chain, in the order in which they run. */
  const SignupChain: seq<SignupError> := [NameRequired, InvalidEmail, OutsideDomain, ShortPassword, StudentIdRequired]

  /** Whether the check that reports `e` fails. */
  predicate Fails(o: Failures, e: SignupError) {
    match e
    case NameRequired => o.name
    case InvalidEmail => o.email
    case OutsideDomain => o.domain
    case ShortPassword => o.password
    case StudentIdRequired => o.studentId
  }

  /** The chain filtered by its failing checks, check by check. */
  lemma {:induction false} ChainFilter(o: Failures)
    ensures Seqs.Filter(SignupChain, (e: SignupError) => Fails(o, e)) ==
      When(o.name, NameRequired) + When(o.email, InvalidEmail) + When(o.domain, OutsideDomain)
      + When(o.password, ShortPassword) + When(o.studentId, StudentIdRequired)
  {
    var fails := (e: SignupError) => Fails(o, e);
    var last: seq<SignupError> := [StudentIdRequired];
    var fromPassword := [ShortPassword] + last;
    var fromDomain := [OutsideDomain] + fromPassword;
    var fromEmail := [InvalidEmail] + fromDomain;
    assert SignupChain == [NameRequired] + fromEmail;
    Seqs.FilterCons(StudentIdRequired, [], fails);
    assert [StudentIdRequired] + [] == last;
    assert fails(StudentIdRequired) == o.studentId;
    assert Seqs.Filter(last, fails) == When(o.studentId, StudentIdRequired);
    Seqs.FilterCons(ShortPassword, last, fails);
    assert fails(ShortPassword) == o.password;
    Seqs.FilterCons(OutsideDomain, fromPassword, fails);
    assert fails(OutsideDomain) == o.domain;
    Seqs.FilterCons(InvalidEmail, fromDomain, fails);
    assert fails(InvalidEmail) == o.email;
    Seqs.FilterCons(NameRequired, fromEmail, fails);
    assert fails(NameRequired) == o.name;
    var a, b, c := When(o.name, NameRequired), When(o.email, InvalidEmail), When(o.domain, OutsideDomain);
    var d, e := When(o.password, ShortPassword), When(o.studentId, StudentIdRequired);
    assert Seqs.Filter(SignupChain, fails) == a + (b + (c + (d + e)));
    Seqs.AppendAssoc(c, d, e);
    Seqs.AppendAssoc(b, c + d, e);
    Seqs.AppendAssoc(b, c, d);
    Seqs.AppendAssoc(a, b + c + d, e);
    Seqs.AppendAssoc(a, b + c, d);
    Seqs.AppendAssoc(a, b, c);
  }

  /** The errors are the checks of the chain that fail, in chain order, each
      once. */
  lemma {:induction false} ErrorsInChainOrder(o: Failures)
    ensures ErrorsOf(o) == Seqs.Filter(SignupChain, (e: SignupError) => Fails(o, e))
  {
    ChainFilter(o);
  }

  /** One error per failing check, in the order of the chain. */
  function ErrorsOf(o: Failures): (errs: seq<SignupError>)
    ensures NameRequired in errs <==> o.name
    ensures InvalidEmail in errs <==> o.email
    ensures OutsideDomain in errs <==> o.domain
    ensures ShortPassword in errs <==> o.password
    ensures StudentIdRequired in errs <==> o.studentId
    ensures errs == [] <==> !o.name && !o.email && !o.domain && !o.password && !o.studentId
  {
    When(o.name, NameRequired) + When(o.email, InvalidEmail) + When(o.domain, OutsideDomain)
    + When(o.password, ShortPassword) + When(o.studentId, StudentIdRequired)
  }

  /** The validation chain: `trim` then `notEmpty` on the name and the student id,
      the two email checks (both run, so a bad email can report both) and the
      password length. */
  function SignupErrors(f: SignupForm, isEmail: string -> bool): (errs: seq<SignupError>)
    ensures NameRequired in errs <==> Trim(f.name) == ""
    ensures InvalidEmail in errs <==> !isEmail(f.email)
    ensures OutsideDomain in errs <==> !EndsWith(f.email, UniversityDomain)
    ensures ShortPassword in errs <==> |f.password| < MinPasswordLength
    ensures StudentIdRequired in errs <==> Trim(f.studentId) == ""
    ensures errs == [] <==>
      Trim(f.name) != "" && isEmail(f.email) && EndsWith(f.email, UniversityDomain)
      && |f.password| >= MinPasswordLength && Trim(f.studentId) != ""
  {
    ErrorsOf(Failures(Trim(f.name) == "", !isEmail(f.email), !EndsWith(f.email, UniversityDomain),
                      |f.password| < MinPasswordLength, Trim(f.studentId) == ""))
  }

  /** A form whose email is not an address at all reports both email errors, the
      first before the second. */
  lemma {:induction false} BadEmailReportsBoth(f: SignupForm, isEmail: string -> bool)
    requires Trim(f.name) != "" && |f.password| >= MinPasswordLength && Trim(f.studentId) != ""
    requires !isEmail(f.email) && !EndsWith(f.email, UniversityDomain)
    ensures SignupErrors(f, isEmail) == [InvalidEmail, OutsideDomain]
  {
  }

  /** The messages the form shows, in order. */
  function Messages<E>(errs: seq<E>, message: E -> string): (ms: seq<string>)
    ensures |ms| == |errs| && forall k :: 0 <= k < |errs| ==> ms[k] == message(errs[k])
  {
    seq(|errs|, k requires 0 <= k < |errs| => message(errs[k]))
  }

  /** The duplicate check `findOne({ $or: [{ email }, { studentId }] })`; the
      schema's `lowercase` and `trim` setters apply to the email in the filter. */
  function FindDuplicate(docs: seq<User>, email: string, studentId: string): (r: Option<User>)
    ensures r.None? <==> forall i :: 0 <= i < |docs| ==>
      docs[i].email != Lower(Trim(email)) && docs[i].studentId != studentId
    ensures r.Some? ==> r.value in docs
  {
    Seqs.FindFirst(docs, (u: User) => u.email == Lower(Trim(email)) || u.studentId == studentId)
  }

  datatype SignupOutcome = SignupRefused(errors: seq<string>) | Register(user: User)

  /** What the signup handler decides for a form, the uploaded document (after the
      upload filter) and the password hash, in the handler's order: validation,
      duplicate, document, the schema's own checks on create. The new account's id
      is given by the store. */
  function SignupDecision(docs: seq<User>, f: SignupForm, document: Option<UploadedFile>,
                          isEmail: string -> bool, hash: string): SignupOutcome
  {
    var errs := SignupErrors(f, isEmail);
    if errs != [] then SignupRefused(Messages(errs, SignupMessage))
    else if FindDuplicate(docs, f.email, Trim(f.studentId)).Some? then SignupRefused([AlreadyRegisteredMsg])
    else if document.None? then SignupRefused([DocumentRequiredMsg])
    else if hash == "" then SignupRefused([RegistrationFailedMsg])
    else Register(NewUser(0, f.name, f.email, hash, Trim(f.studentId),
                          Some("/uploads/documents/" + document.value.filename)))
  }

  /** The signup decision in full: validation errors first, then a duplicate,
      then the missing document, then a failing `create`; a registration is a
      pending student with the trimmed name, the normalised email, the hash, the
      trimmed student id and the document's path. */
  lemma {:induction false} SignupDecisionMeaning(docs: seq<User>, f: SignupForm, document: Option<UploadedFile>,
                              isEmail: string -> bool, hash: string)
    ensures var r := SignupDecision(docs, f, document, isEmail, hash);
      && (SignupErrors(f, isEmail) != [] ==>
        r == SignupRefused(Messages(SignupErrors(f, isEmail), SignupMessage)))
      && (SignupErrors(f, isEmail) == [] && FindDuplicate(docs, f.email, Trim(f.studentId)).Some? ==>
        r == SignupRefused([AlreadyRegisteredMsg]))
      && (SignupErrors(f, isEmail) == [] && FindDuplicate(docs, f.email, Trim(f.studentId)).None? && document.None? ==>
        r == SignupRefused([DocumentRequiredMsg]))
      && (SignupErrors(f, isEmail) == [] && FindDuplicate(docs, f.email, Trim(f.studentId)).None? && document.Some?
          && hash == "" ==>
        r == SignupRefused([RegistrationFailedMsg]))
      && (r.Register? <==>
        SignupErrors(f, isEmail) == [] && FindDuplicate(docs, f.email, Trim(f.studentId)).None?
        && document.Some? && hash != "")
      && (r.Register? ==>
        && r.user.name == Trim(f.name) && r.user.email == Lower(Trim(f.email))
        && r.user.password == hash && r.user.studentId == Trim(f.studentId)
        && r.user.studentIdDocument == Some("/uploads/documents/" + document.value.filename)
        && r.user.status == Pending && r.user.role == Student)
  {
  }

  /** A registered account passes the schema's checks: the validators already
      demand a name, an email (which ends in the university domain, so trimming
      leaves it non-empty) and a student id. */
  lemma {:induction false} RegisteredAccountIsValid(docs: seq<User>, f: SignupForm, document: Option<UploadedFile>,
                                 isEmail: string -> bool, hash: string)
    requires SignupDecision(docs, f, document, isEmail, hash).Register?
    ensures SchemaValid(SignupDecision(docs, f, document, isEmail, hash).user)
  {
    SignupDecisionMeaning(docs, f, document, isEmail, hash);
    assert f.email[|f.email| - 1] == 'g';
    TrimEmptyIffAllSpace(f.email);
    NewUserDefaults(0, f.name, f.email, hash, Trim(f.studentId),
                    Some("/uploads/documents/" + document.value.filename));
  }

  /** No two accounts share an email or a student id (the schema's unique
      indexes). */
  predicate UniqueAccounts(docs: seq<User>) {
    forall i, j :: 0 <= i < j < |docs| ==>
      docs[i].email != docs[j].email && docs[i].studentId != docs[j].studentId
  }

  /** A registration never breaks the uniqueness of emails and student ids. */
  lemma {:induction false} SignupKeepsAccountsUnique(docs: seq<User>, f: SignupForm, document: Option<UploadedFile>,
                                  isEmail: string -> bool, hash: string, id: UserId)
    requires UniqueAccounts(docs)
    requires SignupDecision(docs, f, document, isEmail, hash).Register?
    ensures UniqueAccounts(docs + [SignupDecision(docs, f, document, isEmail, hash).user.(id := id)])
  {
    SignupDecisionMeaning(docs, f, document, isEmail, hash);
    var u := SignupDecision(docs, f, document, isEmail, hash).user.(id := id);
    var all := docs + [u];
    forall i, j | 0 <= i < j < |all|
      ensures all[i].email != all[j].email && all[i].studentId != all[j].studentId
    {
      if j == |docs| {
        assert all[i] == docs[i] && all[j] == u;
      } else {
        assert all[i] == docs[i] && all[j] == docs[j];
      }
    }
  }

  /** `POST /signup` after the upload filter: a refusal re-renders the form with
      its messages; a registration creates the pending account, sets the success
      message and sends the visitor to the login page. */
  method Signup(users: UserStore, session: Session, f: SignupForm, document: Option<UploadedFile>,
                isEmail: string -> bool, hash: string) returns (resp: Response, created: Option<UserId>)
    requires users.Valid()
    modifies users, session`successMsg
    ensures users.Valid()
    ensures var d := SignupDecision(old(users.Docs()), f, document, isEmail, hash);
      d.SignupRefused? ==>
        && created.None? && resp == RenderForm(d.errors)
        && users.users == old(users.users) && users.ids == old(users.ids)
        && session.successMsg == old(session.successMsg)
    ensures var d := SignupDecision(old(users.Docs()), f, document, isEmail, hash);
      d.Register? ==>
        && created.Some? && created.value !in old(users.users)
        && users.ids == old(users.ids) + [created.value]
        && users.users == old(users.users)[created.value := d.user.(id := created.value)]
        && resp == Redirect("/auth/login") && session.successMsg == Some(RegisteredMsg)
  {
    var d := SignupDecision(users.Docs(), f, document, isEmail, hash);
    resp, created := CarryOut(users, session, d);
  }

  /** Carries out a signup decision: a refusal renders the form and changes
      nothing; a registration creates the account. */
  method CarryOut(users: UserStore, session: Session, d: SignupOutcome) returns (resp: Response, created: Option<UserId>)
    requires users.Valid()
    modifies users, session`successMsg
    ensures users.Valid()
    ensures d.SignupRefused? ==>
      && created.None? && resp == RenderForm(d.errors)
      && users.users == old(users.users) && users.ids == old(users.ids)
      && session.successMsg == old(session.successMsg)
    ensures d.Register? ==>
      && created.Some? && created.value !in old(users.users)
      && users.ids == old(users.ids) + [created.value]
      && users.users == old(users.users)[created.value := d.user.(id := created.value)]
      && resp == Redirect("/auth/login") && session.successMsg == Some(RegisteredMsg)
  {
    if d.SignupRefused? {
      return RenderForm(d.errors), None;
    }
    var id := users.Create(d.user);
    session.successMsg := Some(RegisteredMsg);
    resp, created := Redirect("/auth/login"), Some(id);
  }

  /** The whole `POST /signup` route: `upload.single('studentIdDocument')` first,
      then the handler. */
  method PostSignup(users: UserStore, session: Session, f: SignupForm, file: Option<UploadedFile>,
                    isEmail: string -> bool, hash: string) returns (resp: Response)
    requires users.Valid()
    modifies users, session`successMsg
    ensures users.Valid()
    ensures Uploads.Receive(file, Uploads.DocumentUpload).Failure? ==>
      && resp == NextWithUploadError(Uploads.Receive(file, Uploads.DocumentUpload).error)
      && session.successMsg == old(session.successMsg)
      && users.users == old(users.users) && users.ids == old(users.ids)
    ensures var d := SignupDecision(old(users.Docs()), f, file, isEmail, hash);
      Uploads.Receive(file, Uploads.DocumentUpload).Success? && d.SignupRefused? ==>
        && resp == RenderForm(d.errors) && session.successMsg == old(session.successMsg)
        && users.users == old(users.users) && users.ids == old(users.ids)
    ensures var d := SignupDecision(old(users.Docs()), f, file, isEmail, hash);
      Uploads.Receive(file, Uploads.DocumentUpload).Success? && d.Register? ==>
        && resp == Redirect("/auth/login") && session.successMsg == Some(RegisteredMsg)
        && |users.ids| == |old(users.ids)| + 1 && users.ids[..|old(users.ids)|] == old(users.ids)
        && users.ids[|old(users.ids)|] !in old(users.users)
        && users.users == old(users.users)[users.ids[|old(users.ids)|] := d.user.(id := users.ids[|old(users.ids)|])]
  {
    var received := Uploads.Receive(file, Uploads.DocumentUpload);
    if received.Failure? {
      return NextWithUploadError(received.error);
    }
    var created;
    resp, created := Signup(users, session, f, received.value, isEmail, hash);
  }

  // ----- login -----

  datatype LoginError = InvalidLoginEmail | MissingPassword

  function LoginMessage(e: LoginError): string {
    match e
    case InvalidLoginEmail => "Valid email is required"
    case MissingPassword => "Password is required"
  }

  const InvalidCredentialsMsg: string := "Invalid email or password"
  const LoggedInMsg: string := "Login successful!"

  function NotApprovedMsg(s: Status): string {
    "Your account is " + StatusName(s) + ". Please wait for admin approval."
  }

  function LoginErrors(email: string, password: string, isEmail: string -> bool): (errs: seq<LoginError>)
    ensures errs == [] <==> isEmail(email) && password != ""
    ensures InvalidLoginEmail in errs <==> !isEmail(email)
    ensures MissingPassword in errs <==> password == ""
  {
    When(!isEmail(email), InvalidLoginEmail) + When(password == "", MissingPassword)
  }

  /** `findOne({ email })`, the filter passed through the email setters. */
  function FindByEmail(docs: seq<User>, email: string): (r: Option<User>)
    ensures r.Some? ==> r.value in docs && r.value.email == Lower(Trim(email))
    ensures r.None? <==> forall i :: 0 <= i < |docs| ==> docs[i].email != Lower(Trim(email))
  {
    Seqs.FindFirst(docs, (u: User) => u.email == Lower(Trim(email)))
  }

  function SessionOf(u: User): SessionUser {
    SessionUser(u.id, u.name, u.email, u.role, u.status)
  }

  datatype LoginOutcome = LoginRefused(errors: seq<string>) | LoggedIn(user: SessionUser, home: string)

  /** The login decision. `matches(password, hash)` is the password comparison.
      An unknown email and a wrong password get the same answer; a known student
      who is not approved is told the account's status. */
  function LoginDecision(docs: seq<User>, email: string, password: string,
                         isEmail: string -> bool, matches: (string, string) -> bool): LoginOutcome
  {
    var errs := LoginErrors(email, password, isEmail);
    if errs != [] then LoginRefused(Messages(errs, LoginMessage))
    else match FindByEmail(docs, email)
      case None => LoginRefused([InvalidCredentialsMsg])
      case Some(u) =>
        if !matches(password, u.password) then LoginRefused([InvalidCredentialsMsg])
        else if u.role != Admin && u.status != Approved then LoginRefused([NotApprovedMsg(u.status)])
        else LoggedIn(SessionOf(u), if u.role == Admin then "/admin/dashboard" else "/profile/me")
  }

  /** The login decision in full. */
  lemma {:induction false} LoginDecisionMeaning(docs: seq<User>, email: string, password: string,
                             isEmail: string -> bool, matches: (string, string) -> bool)
    ensures var r := LoginDecision(docs, email, password, isEmail, matches);
      && (LoginErrors(email, password, isEmail) != [] ==>
        r == LoginRefused(Messages(LoginErrors(email, password, isEmail), LoginMessage)))
      && (LoginErrors(email, password, isEmail) == [] &&
              (FindByEmail(docs, email).None? || !matches(password, FindByEmail(docs, email).value.password)) ==>
        r == LoginRefused([InvalidCredentialsMsg]))
      && (r.LoggedIn? <==>
        && LoginErrors(email, password, isEmail) == [] && FindByEmail(docs, email).Some?
        && matches(password, FindByEmail(docs, email).value.password)
        && (FindByEmail(docs, email).value.role == Admin || FindByEmail(docs, email).value.status == Approved))
      && (r.LoggedIn? ==>
        && r.user == SessionOf(FindByEmail(docs, email).value)
        && r.home == (if r.user.role == Admin then "/admin/dashboard" else "/profile/me"))
  {
  }

  /** What a registration implies: the form passed, nobody shares its email or
      student id, and the account is the pending student built from it. */
  lemma {:induction false} Registered(docs: seq<User>, f: SignupForm, document: Option<UploadedFile>,
                   isEmail: string -> bool, hash: string)
    requires SignupDecision(docs, f, document, isEmail, hash).Register?
    ensures SignupErrors(f, isEmail) == [] && document.Some? && hash != ""
    ensures forall i :: 0 <= i < |docs| ==>
      docs[i].email != Lower(Trim(f.email)) && docs[i].studentId != Trim(f.studentId)
    ensures SignupDecision(docs, f, document, isEmail, hash).user ==
      NewUser(0, f.name, f.email, hash, Trim(f.studentId), Some("/uploads/documents/" + document.value.filename))
  {
  }

  /** An account appended after accounts with other emails is the one the
      login lookup finds for its email. */
  lemma {:induction false} FindByEmailAppended(docs: seq<User>, u: User, email: string)
    requires u.email == Lower(Trim(email))
    requires forall i :: 0 <= i < |docs| ==> docs[i].email != Lower(Trim(email))
    ensures FindByEmail(docs + [u], email) == Some(u)
  {
    var all := docs + [u];
    forall i | 0 <= i < |docs|
      ensures all[i].email != Lower(Trim(email))
    {
      assert all[i] == docs[i];
    }
    Seqs.FindFirstIsFirst(all, (x: User) => x.email == Lower(Trim(email)), |docs|);
  }

  /** Right after registering, the new account cannot log in with its own
      credentials: it is told that it is pending. */
  lemma {:induction false} FreshAccountIsPending(docs: seq<User>, f: SignupForm, document: Option<UploadedFile>,
                              isEmail: string -> bool, hash: string, id: UserId,
                              matches: (string, string) -> bool)
    requires SignupDecision(docs, f, document, isEmail, hash).Register?
    requires matches(f.password, hash)
    ensures var u := SignupDecision(docs, f, document, isEmail, hash).user.(id := id);
      LoginDecision(docs + [u], f.email, f.password, isEmail, matches) == LoginRefused([NotApprovedMsg(Pending)])
  {
    Registered(docs, f, document, isEmail, hash);
    var u := SignupDecision(docs, f, document, isEmail, hash).user.(id := id);
    assert LoginErrors(f.email, f.password, isEmail) == [];
    FindByEmailAppended(docs, u, f.email);
    assert matches(f.password, u.password) && u.role == Student && u.status == Pending;
  }

  /** `POST /login`: a refusal re-renders the form; a success stores the session
      copy of the account, sets the message and sends admins to the dashboard and
      students to their profile. */
  method Login(users: UserStore, session: Session, email: string, password: string,
               isEmail: string -> bool, matches: (string, string) -> bool) returns (resp: Response)
    requires users.Valid()
    modifies session`user, session`successMsg
    ensures var d := LoginDecision(users.Docs(), email, password, isEmail, matches);
      && (d.LoginRefused? ==>
            resp == RenderForm(d.errors) && session.user == old(session.user)
            && session.successMsg == old(session.successMsg))
      && (d.LoggedIn? ==>
            resp == Redirect(d.home) && session.user == Some(d.user) && session.successMsg == Some(LoggedInMsg))
  {
    var d := LoginDecision(users.Docs(), email, password, isEmail, matches);
    if d.LoginRefused? {
      return RenderForm(d.errors);
    }
    session.user := Some(d.user);
    session.successMsg := Some(LoggedInMsg);
    resp := Redirect(d.home);
  }

  // ----- logout -----

  /** `GET /logout`: the session is destroyed, flash messages with it. */
  method Logout(session: Session) returns (resp: Response)
    modifies session
    ensures session.user.None? && session.errorMsg.None? && session.successMsg.None?
    ensures resp == Redirect("/")
  {
    session.user, session.errorMsg, session.successMsg := None, None, None;
    resp := Redirect("/");
  }
}
