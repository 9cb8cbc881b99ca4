/** Profiles in `routes/profile.js` and `controllers/profileController.js`: the
    interests parser, the visibility gate in front of a profile page, the lookup of
    a profile by its slug, and the handlers that edit a profile or append a skill or
    a project. */
module Profile {
  import opened Wrappers
  import opened Text
  import opened Http
  import opened Users
  import Seqs
  import Guards
  import Moderation
  import Uploads
  import BannedWords

  // ----- interests -----

  function TrimEach(xs: seq<string>): seq<string> {
    seq(|xs|, i requires 0 <= i < |xs| => Trim(xs[i]))
  }

  /** `interests ? interests.split(',').map(i => i.trim()).filter(i => i) : []` */
  function ParseInterests(s: string): seq<string> {
    if s == "" then [] else Seqs.Filter(TrimEach(Split(s, ',')), (x: string) => x != "")
  }

  /** Each parsed interest is non-empty, has no white space at either end and no
      comma, and comes from a comma-separated piece of the input; every piece that
      is not empty once trimmed is kept. */
  lemma {:induction false} ParseInterestsWellFormed(s: string)
    ensures forall k :: 0 <= k < |ParseInterests(s)| ==>
      var x := ParseInterests(s)[k];
      x != "" && IsTrimmed(x) && ',' !in x && x in TrimEach(Split(s, ','))
    ensures forall x :: x in ParseInterests(s) <==> x != "" && x in TrimEach(Split(s, ','))
  {
    if s == "" {
      assert TrimEach(Split(s, ',')) == [""];
    } else {
      var pieces := TrimEach(Split(s, ','));
      Seqs.FilterProperties(pieces, (x: string) => x != "");
      forall k | 0 <= k < |ParseInterests(s)|
        ensures var x := ParseInterests(s)[k]; x != "" && IsTrimmed(x) && ',' !in x && x in pieces
      {
        var x := ParseInterests(s)[k];
        assert x in pieces;
        var j :| 0 <= j < |pieces| && pieces[j] == x;
        var piece := Split(s, ',')[j];
        TrimProperties(piece);
        if ',' in x {
          TrimKeepsChars(piece, ',');
        }
      }
    }
  }

  /** A piece without a comma parses to its trimmed text, or to nothing when that
      is empty. */
  lemma {:induction false} ParseInterestsPiece(a: string)
    requires ',' !in a
    ensures ParseInterests(a) == (if Trim(a) == "" then [] else [Trim(a)])
  {
    if a == "" {
      assert Trim(a) == "";
    } else {
      var t := Trim(a);
      SplitNoSep(a, ',');
      var pieces := TrimEach(Split(a, ','));
      assert |pieces| == 1 && pieces[0] == t;
      assert pieces == [t] + [];
      Seqs.FilterCons(t, [], (x: string) => x != "");
      assert ParseInterests(a) == (if t == "" then [] else [t]) + [];
    }
  }

  lemma {:induction false} TrimEachCons(x: string, xs: seq<string>)
    ensures TrimEach([x] + xs) == [Trim(x)] + TrimEach(xs)
  {
  }

  /** The first comma-separated piece parses in front of the rest: the parser
      keeps the pieces in their order. */
  lemma {:induction false} ParseInterestsCons(a: string, b: string)
    requires ',' !in a
    ensures ParseInterests(a + "," + b) == ParseInterests(a) + ParseInterests(b)
  {
    var nonEmpty := (x: string) => x != "";
    ParseInterestsPiece(a);
    SplitAfterPiece(a, ',', b);
    assert a + "," + b == a + [','] + b;
    TrimEachCons(a, Split(b, ','));
    Seqs.FilterCons(Trim(a), TrimEach(Split(b, ',')), nonEmpty);
    if b == "" {
      assert TrimEach(Split(b, ',')) == [""];
      Seqs.FilterCons("", [], nonEmpty);
      assert [""] + [] == [""];
    }
  }

  /** Interests that are non-empty, trimmed and comma-free come back unchanged from
      the comma-joined text an edit form sends; no interests give the empty text. */
  lemma {:induction false} ParseInterestsRoundTrip(items: seq<string>)
    requires forall k :: 0 <= k < |items| ==> items[k] != "" && IsTrimmed(items[k]) && ',' !in items[k]
    ensures ParseInterests(Join(items, ",")) == items
  {
    if items != [] {
      var s := Join(items, ",");
      assert |items| == 1 ==> s == items[0];
      assert |items| > 1 ==> s == items[0] + "," + Join(items[1..], ",");
      assert s != "";
      SplitJoin(items, ',');
      forall k | 0 <= k < |items|
        ensures Trim(items[k]) == items[k]
      {
        TrimOfTrimmed(items[k]);
      }
      assert TrimEach(items) == items;
      Seqs.FilterAll(items, (x: string) => x != "");
    }
  }

  // ----- the visibility gate -----

  datatype ViewOutcome = NotFound | PrivateRedirect | MustLogin | Render(isOwner: bool)

  predicate IsAdminViewer(viewer: Option<SessionUser>) {
    viewer.Some? && viewer.value.role == Admin
  }

  /** The checks in front of a profile page, in order: a lookup miss is a 404; a
      private profile is shown only to an admin; a university profile only to a
      logged-in visitor; anything else is shown, `isOwner` telling whether the
      visitor is the profile's user. */
  function Gate(profile: Option<User>, viewer: Option<SessionUser>): (r: ViewOutcome)
    ensures r == NotFound <==> profile.None?
    ensures r == PrivateRedirect <==>
      profile.Some? && profile.value.visibility == PrivateVisibility && !IsAdminViewer(viewer)
    ensures r == MustLogin <==>
      profile.Some? && profile.value.visibility == UniversityVisibility && viewer.None?
    ensures r.Render? <==>
      && profile.Some?
      && (profile.value.visibility == PrivateVisibility ==> IsAdminViewer(viewer))
      && (profile.value.visibility == UniversityVisibility ==> viewer.Some?)
    ensures r.Render? ==> (r.isOwner <==> viewer.Some? && viewer.value.id == profile.value.id)
  {
    if profile.None? then NotFound
    else if profile.value.visibility == PrivateVisibility && !IsAdminViewer(viewer) then PrivateRedirect
    else if profile.value.visibility == UniversityVisibility && viewer.None? then MustLogin
    else Render(viewer.Some? && viewer.value.id == profile.value.id)
  }

  /** The owner of a private profile who is not an admin is turned away like any
      other visitor, and a public profile is shown to everyone. */
  lemma {:induction false} GateOwnerAndPublic(u: User, viewer: SessionUser)
    ensures u.visibility == PrivateVisibility && viewer.id == u.id && viewer.role == Student ==>
      Gate(Some(u), Some(viewer)) == PrivateRedirect
    ensures u.visibility == PublicVisibility ==>
      Gate(Some(u), None) == Render(false) && Gate(Some(u), Some(viewer)).Render?
  {
  }

  const PrivateProfileMsg: string := "This profile is private"
  const LoginToViewMsg: string := "Please login to view this profile"

  /** The response and flash message that belong to a gate outcome. */
  function GateResponse(profile: Option<User>, g: ViewOutcome): Response
    requires g.Render? ==> profile.Some?
  {
    match g
    case NotFound => NotFoundPage
    case PrivateRedirect => Redirect("/")
    case MustLogin => Redirect("/auth/login")
    case Render(owner) => RenderProfile(profile.value, owner)
  }

  function GateMessage(g: ViewOutcome): Option<string> {
    match g
    case PrivateRedirect => Some(PrivateProfileMsg)
    case MustLogin => Some(LoginToViewMsg)
    case _ => None
  }

  /** `ProfileByUsername` once its lookup has returned: applies the gate, writes the
      refusal message to the session and answers. */
  method ProfileByUsername(session: Session, found: Option<User>) returns (resp: Response)
    modifies session`errorMsg
    ensures resp == GateResponse(found, Gate(found, session.user))
    ensures GateMessage(Gate(found, session.user)).Some? ==>
      session.errorMsg == GateMessage(Gate(found, session.user))
    ensures GateMessage(Gate(found, session.user)).None? ==> session.errorMsg == old(session.errorMsg)
  {
    var g := Gate(found, session.user);
    var msg := GateMessage(g);
    if msg.Some? {
      session.errorMsg := msg;
    }
    resp := GateResponse(found, g);
  }

  // ----- lookup by slug -----

  /** `slug.replace(/-/g, ' ')` */
  function SlugPattern(slug: string): string {
    seq(|slug|, i requires 0 <= i < |slug| => if slug[i] == '-' then ' ' else slug[i])
  }

  /** `new RegExp('^' + pattern + '$', 'i').test(name)` for a literal pattern: the
      whole name equals the pattern up to ASCII case. */
  predicate NameMatchesSlug(name: string, slug: string) {
    Lower(name) == Lower(SlugPattern(slug))
  }

  /** `User.findOne({ name: ... })`: the first user in natural order whose whole name
      matches. */
  function FindBySlug(docs: seq<User>, slug: string): (r: Option<User>)
    ensures r.Some? ==> r.value in docs && NameMatchesSlug(r.value.name, slug)
    ensures r.None? <==> forall i :: 0 <= i < |docs| ==> !NameMatchesSlug(docs[i].name, slug)
  {
    Seqs.FindFirst(docs, (u: User) => NameMatchesSlug(u.name, slug))
  }

  /** A name of word characters separated by single spaces. */
  predicate IsPlainName(s: string) {
    && (forall i :: 0 <= i < |s| ==> IsWordChar(s[i]) || s[i] == ' ')
    && (forall i :: 0 <= i < |s| - 1 ==> s[i] != ' ' || s[i + 1] != ' ')
  }

  function SpacesToDashes(s: string): string {
    seq(|s|, i requires 0 <= i < |s| => if s[i] == ' ' then '-' else s[i])
  }

  lemma {:induction false} SpacesToDashesCons(s: string)
    requires s != []
    ensures SpacesToDashes(s) == [if s[0] == ' ' then '-' else s[0]] + SpacesToDashes(s[1..])
  {
  }

  lemma {:induction false} DashRunsOfPlain(s: string)
    requires IsPlainName(s)
    ensures DashRuns(s) == SpacesToDashes(s)
    decreases |s|
  {
    if s != [] {
      var t := s[1..];
      assert IsPlainName(t);
      DashRunsOfPlain(t);
      SpacesToDashesCons(s);
      if s[0] == ' ' {
        assert t == [] || (IsWordChar(t[0]) && !IsSpace(t[0]));
        assert TrimStart(t) == t;
      } else {
        assert !IsSpace(s[0]);
      }
    }
  }

  lemma {:induction false} KeepSlugCharsOfWordsAndDashes(s: string)
    requires forall i :: 0 <= i < |s| ==> IsWordChar(s[i]) || s[i] == '-'
    ensures KeepSlugChars(s) == s
  {
    if s != [] {
      KeepSlugCharsOfWordsAndDashes(s[1..]);
      assert [s[0]] + s[1..] == s;
    }
  }

  /** A user whose name is made of word characters and single spaces is found by
      the slug of that name. */
  lemma {:induction false} SlugFindsPlainName(name: string)
    requires IsPlainName(name)
    ensures NameMatchesSlug(name, Slug(name))
  {
    var l := Lower(name);
    assert IsPlainName(l);
    DashRunsOfPlain(l);
    var d := SpacesToDashes(l);
    KeepSlugCharsOfWordsAndDashes(d);
    assert Slug(name) == d;
    assert SlugPattern(d) == l;
    LowerIdempotent(name);
  }

  /** A name with a hyphen is found by no slug, its own included: the lookup turns
      every `-` of the slug into a space, so the pattern never holds a `-`. */
  lemma {:induction false} HyphenatedNameNotFoundBySlug(name: string, slug: string)
    requires '-' in name
    ensures !NameMatchesSlug(name, slug)
  {
    var i :| 0 <= i < |name| && name[i] == '-';
    var p := SlugPattern(slug);
    if |p| == |name| {
      assert Lower(name)[i] == '-';
      assert Lower(p)[i] == LowerChar(p[i]) && p[i] != '-';
    }
  }

  /** `GET /:slug`: looks the profile up by slug, then answers as the gate says. */
  method ViewProfileBySlug(users: UserStore, session: Session, slug: string) returns (resp: Response)
    requires users.Valid()
    requires IsLiteralPattern(slug)
    modifies session`errorMsg
    ensures var found := FindBySlug(users.Docs(), slug);
      && resp == GateResponse(found, Gate(found, session.user))
      && (GateMessage(Gate(found, session.user)).Some? ==> session.errorMsg == GateMessage(Gate(found, session.user)))
      && (GateMessage(Gate(found, session.user)).None? ==> session.errorMsg == old(session.errorMsg))
  {
    var user := FindBySlug(users.Docs(), slug);
    resp := ProfileByUsername(session, user);
  }

  // ----- edits -----

  /** The value of a form field that arrived as one string, if it did. */
  function Scalar(body: Body, key: string): Option<string> {
    if key in body && body[key].One? then Some(body[key].value) else None
  }

  /** No field among `keys` arrived as a list. A list makes the handler throw: a
      `TypeError` from `split` for interests, a cast error for a string path. */
  predicate AllSingle(body: Body, keys: seq<string>) {
    forall k :: 0 <= k < |keys| ==> keys[k] !in body || body[keys[k]].One?
  }

  const EditFields: seq<string> := ["bio", "interests", "phone", "linkedin", "github", "portfolio", "visibility"]

  /** The document after the profile update: bio and visibility when sent, interests
      parsed, contact links replaced, the photo when a file came; no other path. */
  function EditedUser(u: User, body: Body, file: Option<UploadedFile>): (r: Option<User>)
    ensures r.Some? <==> AllSingle(body, EditFields)
    ensures r.Some? ==>
      && r.value.(bio := u.bio, interests := u.interests, contactInfo := u.contactInfo,
                  visibility := u.visibility, profilePhoto := u.profilePhoto) == u
      && r.value.interests == (match Scalar(body, "interests") case Some(s) => ParseInterests(s) case None => [])
      && r.value.bio == Scalar(body, "bio").GetOr(u.bio)
      && r.value.visibility == Scalar(body, "visibility").GetOr(u.visibility)
      && r.value.contactInfo == Contact(Scalar(body, "phone"), Scalar(body, "linkedin"),
                                          Scalar(body, "github"), Scalar(body, "portfolio"))
      && (file.Some? ==> r.value.profilePhoto == Some("/uploads/profiles/" + file.value.filename))
      && (file.None? ==> r.value.profilePhoto == u.profilePhoto)
  {
    if !AllSingle(body, EditFields) then None
    else
      var interests := match Scalar(body, "interests") case Some(s) => ParseInterests(s) case None => [];
      Some(u.(bio := Scalar(body, "bio").GetOr(u.bio),
              interests := interests,
              contactInfo := Contact(Scalar(body, "phone"), Scalar(body, "linkedin"),
                                     Scalar(body, "github"), Scalar(body, "portfolio")),
              visibility := Scalar(body, "visibility").GetOr(u.visibility),
              profilePhoto := if file.Some? then Some("/uploads/profiles/" + file.value.filename) else u.profilePhoto))
  }

  /** The collection after `findByIdAndUpdate(id, update)` with the profile
      update: only that document changes, and an id the store does not hold
      changes nothing. */
  function EditedStore(users: map<UserId, User>, id: UserId, body: Body, file: Option<UploadedFile>)
    : (r: map<UserId, User>)
    requires AllSingle(body, EditFields)
    ensures r.Keys == users.Keys
    ensures forall k :: k in users && k != id ==> r[k] == users[k]
    ensures id in users ==> Some(r[id]) == EditedUser(users[id], body, file)
  {
    if id in users then users[id := EditedUser(users[id], body, file).value] else users
  }

  /** The collection after `$push: { skills: skill }` on one document. */
  function SkillPushed(users: map<UserId, User>, id: UserId, skill: Skill): (r: map<UserId, User>)
    ensures r.Keys == users.Keys
    ensures forall k :: k in users && k != id ==> r[k] == users[k]
    ensures id in users ==> r[id] == WithSkill(users[id], skill)
  {
    if id in users then users[id := WithSkill(users[id], skill)] else users
  }

  /** The collection after `$push: { projects: project }` on one document. */
  function ProjectPushed(users: map<UserId, User>, id: UserId, project: Project): (r: map<UserId, User>)
    ensures r.Keys == users.Keys
    ensures forall k :: k in users && k != id ==> r[k] == users[k]
    ensures id in users ==> r[id] == WithProject(users[id], project)
  {
    if id in users then users[id := WithProject(users[id], project)] else users
  }

  /** The document with one skill appended; every other path as it was. */
  function WithSkill(u: User, s: Skill): (r: User)
    ensures |r.skills| == |u.skills| + 1 && r.skills[..|u.skills|] == u.skills && r.skills[|u.skills|] == s
    ensures r.(skills := u.skills) == u
  {
    u.(skills := u.skills + [s])
  }

  /** The document with one project appended; every other path as it was. */
  function WithProject(u: User, p: Project): (r: User)
    ensures |r.projects| == |u.projects| + 1 && r.projects[..|u.projects|] == u.projects
    ensures r.projects[|u.projects|] == p
    ensures r.(projects := u.projects) == u
  {
    u.(projects := u.projects + [p])
  }

  const UpdateOkMsg: string := "Profile updated successfully!"
  const UpdateFailedMsg: string := "Failed to update profile"
  const SkillOkMsg: string := "Skill added successfully!"
  const SkillFailedMsg: string := "Failed to add skill"
  const ProjectOkMsg: string := "Project added successfully!"
  const ProjectFailedMsg: string := "Failed to add project"

  /** `EditProfile` (and the last handler of `POST /edit`): the session user's
      document is updated as `EditedUser` says; a missing session user or a field
      that arrived as a list throws, and the failure message is shown instead. */
  method EditProfile(users: UserStore, session: Session, body: Body, file: Option<UploadedFile>)
    returns (resp: Response)
    requires users.Valid()
    modifies users`users, session`errorMsg, session`successMsg
    ensures users.Valid()
    ensures session.user.None? || !AllSingle(body, EditFields) ==>
      && resp == Redirect("/profile/edit") && session.errorMsg == Some(UpdateFailedMsg)
      && session.successMsg == old(session.successMsg) && users.users == old(users.users)
    ensures session.user.Some? && AllSingle(body, EditFields) ==>
      && resp == Redirect("/profile/me") && session.successMsg == Some(UpdateOkMsg)
      && session.errorMsg == old(session.errorMsg)
      && users.users == EditedStore(old(users.users), session.user.value.id, body, file)
  {
    if session.user.None? || !AllSingle(body, EditFields) {
      session.errorMsg := Some(UpdateFailedMsg);
      return Redirect("/profile/edit");
    }
    var id := session.user.value.id;
    users.users := EditedStore(users.users, id, body, file);
    session.successMsg := Some(UpdateOkMsg);
    resp := Redirect("/profile/me");
  }

  /** `AddSkill` (and `POST /skill/add`): appends `{ name, level }` to the session
      user's skills. `level` is what `parseInt` returned, `None` for `NaN`, which
      the store refuses to cast. */
  method AddSkill(users: UserStore, session: Session, body: Body, level: Option<int>)
    returns (resp: Response)
    requires users.Valid()
    modifies users`users, session`errorMsg, session`successMsg
    ensures users.Valid()
    ensures resp == Redirect("/profile/edit")
    ensures session.user.None? || level.None? || !AllSingle(body, ["name"]) ==>
      && session.errorMsg == Some(SkillFailedMsg) && session.successMsg == old(session.successMsg)
      && users.users == old(users.users)
    ensures session.user.Some? && level.Some? && AllSingle(body, ["name"]) ==>
      && session.successMsg == Some(SkillOkMsg) && session.errorMsg == old(session.errorMsg)
      && users.users == SkillPushed(old(users.users), session.user.value.id, Skill(Scalar(body, "name"), level.value))
  {
    resp := Redirect("/profile/edit");
    if session.user.None? || level.None? || !AllSingle(body, ["name"]) {
      session.errorMsg := Some(SkillFailedMsg);
      return;
    }
    var skill := Skill(Scalar(body, "name"), level.value);
    users.users := SkillPushed(users.users, session.user.value.id, skill);
    session.successMsg := Some(SkillOkMsg);
  }

  const ProjectFields: seq<string> := ["name", "description", "githubLink", "liveLink"]

  function ProjectFrom(body: Body): Project {
    Project(Scalar(body, "name"), Scalar(body, "description"), Scalar(body, "githubLink"), Scalar(body, "liveLink"))
  }

  /** `AddProject` (and the last handler of `POST /project/add`): appends
      `{ name, description, githubLink, liveLink }` to the session user's projects. */
  method AddProject(users: UserStore, session: Session, body: Body) returns (resp: Response)
    requires users.Valid()
    modifies users`users, session`errorMsg, session`successMsg
    ensures users.Valid()
    ensures resp == Redirect("/profile/edit")
    ensures session.user.None? || !AllSingle(body, ProjectFields) ==>
      && session.errorMsg == Some(ProjectFailedMsg) && session.successMsg == old(session.successMsg)
      && users.users == old(users.users)
    ensures session.user.Some? && AllSingle(body, ProjectFields) ==>
      && session.successMsg == Some(ProjectOkMsg) && session.errorMsg == old(session.errorMsg)
      && users.users == ProjectPushed(old(users.users), session.user.value.id, ProjectFrom(body))
  {
    resp := Redirect("/profile/edit");
    if session.user.None? || !AllSingle(body, ProjectFields) {
      session.errorMsg := Some(ProjectFailedMsg);
      return;
    }
    var project := ProjectFrom(body);
    users.users := ProjectPushed(users.users, session.user.value.id, project);
    session.successMsg := Some(ProjectOkMsg);
  }

  // ----- the routes, guards included -----

  /** The guards `isAuthenticated` then `isApproved`: a response when one refuses. */
  method ApprovedOnly(session: Session) returns (refused: Option<Response>)
    modifies session`errorMsg
    ensures session.user.None? ==>
      refused == Some(Redirect("/auth/login")) && session.errorMsg == Some(Guards.LoginRequiredMsg)
    ensures session.user.Some? && session.user.value.status != Approved ==>
      refused == Some(Redirect("/")) && session.errorMsg == Some(Guards.PendingApprovalMsg)
    ensures session.user.Some? && session.user.value.status == Approved ==>
      refused.None? && session.errorMsg == old(session.errorMsg)
  {
    refused := Guards.Apply(session, Guards.AuthenticatedDecision(session.user));
    if refused.None? {
      refused := Guards.Apply(session, Guards.ApprovedDecision(session.user));
    }
  }

  /** The session user may use the profile routes: logged in and approved. */
  predicate IsApprovedViewer(viewer: Option<SessionUser>) {
    viewer.Some? && viewer.value.status == Approved
  }

  /** What moderation decides on its own, before any handler runs: a failed read
      of the stored words passes the error on; a dirty text counts an attempt for a
      logged-in visitor (or passes on a failed write) and sends the visitor back
      with the rejection naming the words found. */
  ghost predicate ModerationOutcome(before: map<UserId, User>, after: map<UserId, User>,
                                    errBefore: Option<string>, errAfter: Option<string>,
                                    resp: Response, viewer: Option<SessionUser>, body: Body,
                                    stored: Result<seq<string>, StoreError>, incrementFails: bool)
  {
    var v := Moderation.Verdict(Some(Moderation.MergedText(body)), stored);
    && (v.Failure? ==>
          resp == NextWithError(v.error) && errAfter == errBefore && after == before)
    && (v.Success? && !v.value.clean && viewer.Some? && incrementFails ==>
          resp == NextWithError(WriteFailed) && errAfter == errBefore && after == before)
    && (v.Success? && !v.value.clean && !(viewer.Some? && incrementFails) ==>
          && resp == RedirectBack && errAfter == Some(Moderation.RejectionMessage(v.value.words))
          && after == Moderation.Flagged(before, viewer))
  }

  /** Whether moderation lets the request through to its handler. */
  ghost predicate PassesModeration(body: Body, stored: Result<seq<string>, StoreError>) {
    var v := Moderation.Verdict(Some(Moderation.MergedText(body)), stored);
    v.Success? && v.value.clean
  }

  /** What the edit does once its guards and the upload have passed: moderation's
      verdict on the merged text against the stored words decides, and only a
      clean text reaches the update. */
  ghost predicate ModeratedEditOutcome(before: map<UserId, User>, after: map<UserId, User>,
                                       errBefore: Option<string>, errAfter: Option<string>,
                                       okBefore: Option<string>, okAfter: Option<string>,
                                       resp: Response, viewer: Option<SessionUser>, body: Body,
                                       file: Option<UploadedFile>,
                                       stored: Result<seq<string>, StoreError>, incrementFails: bool)
  {
    var passes := PassesModeration(body, stored);
    && ModerationOutcome(before, after, errBefore, errAfter, resp, viewer, body, stored, incrementFails)
    && (passes && viewer.Some? && AllSingle(body, EditFields) ==>
          && resp == Redirect("/profile/me") && okAfter == Some(UpdateOkMsg) && errAfter == errBefore
          && after == EditedStore(before, viewer.value.id, body, file))
    && (passes && !(viewer.Some? && AllSingle(body, EditFields)) ==>
          && resp == Redirect("/profile/edit") && errAfter == Some(UpdateFailedMsg)
          && after == before)
    && (!(passes && viewer.Some? && AllSingle(body, EditFields)) ==> okAfter == okBefore)
  }

  /** The project route after its guards: the same moderation, then the append. */
  ghost predicate ModeratedProjectOutcome(before: map<UserId, User>, after: map<UserId, User>,
                                          errBefore: Option<string>, errAfter: Option<string>,
                                          okBefore: Option<string>, okAfter: Option<string>,
                                          resp: Response, viewer: Option<SessionUser>, body: Body,
                                          stored: Result<seq<string>, StoreError>, incrementFails: bool)
  {
    var passes := PassesModeration(body, stored);
    && ModerationOutcome(before, after, errBefore, errAfter, resp, viewer, body, stored, incrementFails)
    && (passes && viewer.Some? && AllSingle(body, ProjectFields) ==>
          && resp == Redirect("/profile/edit") && okAfter == Some(ProjectOkMsg) && errAfter == errBefore
          && after == ProjectPushed(before, viewer.value.id, ProjectFrom(body)))
    && (passes && !(viewer.Some? && AllSingle(body, ProjectFields)) ==>
          && resp == Redirect("/profile/edit") && errAfter == Some(ProjectFailedMsg)
          && after == before)
    && (!(passes && viewer.Some? && AllSingle(body, ProjectFields)) ==> okAfter == okBefore)
  }

  /** `validateProfileContent`, then the edit handler. */
  method ModeratedEdit(users: UserStore, table: BannedWords.BannedWordTable, session: Session, body: Body,
                       file: Option<UploadedFile>, readFails: bool, incrementFails: bool) returns (resp: Response)
    requires users.Valid() && table.Valid() && Moderation.AllLiteral(table.Words())
    modifies users`users, session`errorMsg, session`successMsg
    ensures users.Valid()
    ensures ModeratedEditOutcome(old(users.users), users.users, old(session.errorMsg), session.errorMsg,
                                 old(session.successMsg), session.successMsg, resp, session.user, body, file,
                                 old(Moderation.StoredWords(table, readFails)), incrementFails)
  {
    var moderated := Moderation.ValidateProfileContent(body, session, users, table, readFails, incrementFails);
    if moderated != NextHandler {
      return moderated;
    }
    resp := EditProfile(users, session, body, file);
  }

  /** `POST /edit`: the guards, the photo upload, then moderation of bio and
      interests against the banned-word table, then the update. The profile
      changes only for an approved user whose photo (if any) is accepted and whose
      merged text is clean; a dirty text counts an attempt instead. */
  method PostEdit(users: UserStore, table: BannedWords.BannedWordTable, session: Session, body: Body,
                  file: Option<UploadedFile>, readFails: bool, incrementFails: bool) returns (resp: Response)
    requires users.Valid() && table.Valid() && Moderation.AllLiteral(table.Words())
    modifies users`users, session`errorMsg, session`successMsg
    ensures users.Valid()
    ensures session.user.None? ==>
      && resp == Redirect("/auth/login") && session.errorMsg == Some(Guards.LoginRequiredMsg)
      && session.successMsg == old(session.successMsg) && users.users == old(users.users)
    ensures session.user.Some? && session.user.value.status != Approved ==>
      && resp == Redirect("/") && session.errorMsg == Some(Guards.PendingApprovalMsg)
      && session.successMsg == old(session.successMsg) && users.users == old(users.users)
    ensures IsApprovedViewer(session.user) && Uploads.Receive(file, Uploads.PhotoUpload).Failure? ==>
      && resp == NextWithUploadError(Uploads.Receive(file, Uploads.PhotoUpload).error)
      && session.errorMsg == old(session.errorMsg) && session.successMsg == old(session.successMsg)
      && users.users == old(users.users)
    ensures IsApprovedViewer(session.user) && Uploads.Receive(file, Uploads.PhotoUpload).Success? ==>
      ModeratedEditOutcome(old(users.users), users.users, old(session.errorMsg), session.errorMsg,
                           old(session.successMsg), session.successMsg, resp, session.user, body, file,
                           old(Moderation.StoredWords(table, readFails)), incrementFails)
  {
    var refused := ApprovedOnly(session);
    if refused.Some? {
      return refused.value;
    }
    var received := Uploads.Receive(file, Uploads.PhotoUpload);
    if received.Failure? {
      return NextWithUploadError(received.error);
    }
    resp := ModeratedEdit(users, table, session, body, received.value, readFails, incrementFails);
  }

  /** `POST /skill/add`: the guards, then the append; this route has no moderation,
      so the skill's name is never checked against the banned words. */
  method PostSkill(users: UserStore, session: Session, body: Body, level: Option<int>) returns (resp: Response)
    requires users.Valid()
    modifies users`users, session`errorMsg, session`successMsg
    ensures users.Valid()
    ensures session.user.None? ==>
      && resp == Redirect("/auth/login") && session.errorMsg == Some(Guards.LoginRequiredMsg)
      && session.successMsg == old(session.successMsg) && users.users == old(users.users)
    ensures session.user.Some? && session.user.value.status != Approved ==>
      && resp == Redirect("/") && session.errorMsg == Some(Guards.PendingApprovalMsg)
      && session.successMsg == old(session.successMsg) && users.users == old(users.users)
    ensures IsApprovedViewer(session.user) && (level.None? || !AllSingle(body, ["name"])) ==>
      && resp == Redirect("/profile/edit") && session.errorMsg == Some(SkillFailedMsg)
      && session.successMsg == old(session.successMsg) && users.users == old(users.users)
    ensures IsApprovedViewer(session.user) && level.Some? && AllSingle(body, ["name"]) ==>
      && resp == Redirect("/profile/edit") && session.successMsg == Some(SkillOkMsg)
      && session.errorMsg == old(session.errorMsg)
      && users.users == SkillPushed(old(users.users), session.user.value.id, Skill(Scalar(body, "name"), level.value))
  {
    var refused := ApprovedOnly(session);
    if refused.Some? {
      return refused.value;
    }
    resp := AddSkill(users, session, body, level);
  }

  /** `POST /project/add`: the guards, then the same moderation (which reads only
      `bio` and `interests`), then the append. */
  method PostProject(users: UserStore, table: BannedWords.BannedWordTable, session: Session, body: Body,
                     readFails: bool, incrementFails: bool) returns (resp: Response)
    requires users.Valid() && table.Valid() && Moderation.AllLiteral(table.Words())
    modifies users`users, session`errorMsg, session`successMsg
    ensures users.Valid()
    ensures session.user.None? ==>
      && resp == Redirect("/auth/login") && session.errorMsg == Some(Guards.LoginRequiredMsg)
      && session.successMsg == old(session.successMsg) && users.users == old(users.users)
    ensures session.user.Some? && session.user.value.status != Approved ==>
      && resp == Redirect("/") && session.errorMsg == Some(Guards.PendingApprovalMsg)
      && session.successMsg == old(session.successMsg) && users.users == old(users.users)
    ensures IsApprovedViewer(session.user) ==>
      ModeratedProjectOutcome(old(users.users), users.users, old(session.errorMsg), session.errorMsg,
                              old(session.successMsg), session.successMsg, resp, session.user, body,
                              old(Moderation.StoredWords(table, readFails)), incrementFails)
  {
    var refused := ApprovedOnly(session);
    if refused.Some? {
      return refused.value;
    }
    resp := ModeratedProject(users, table, session, body, readFails, incrementFails);
  }

  /** `validateProfileContent`, then the project handler. */
  method ModeratedProject(users: UserStore, table: BannedWords.BannedWordTable, session: Session, body: Body,
                          readFails: bool, incrementFails: bool) returns (resp: Response)
    requires users.Valid() && table.Valid() && Moderation.AllLiteral(table.Words())
    modifies users`users, session`errorMsg, session`successMsg
    ensures users.Valid()
    ensures ModeratedProjectOutcome(old(users.users), users.users, old(session.errorMsg), session.errorMsg,
                                    old(session.successMsg), session.successMsg, resp, session.user, body,
                                    old(Moderation.StoredWords(table, readFails)), incrementFails)
  {
    var moderated := Moderation.ValidateProfileContent(body, session, users, table, readFails, incrementFails);
    if moderated != NextHandler {
      return moderated;
    }
    resp := AddProject(users, session, body);
  }
}
