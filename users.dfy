/** The user document of `models/User.js`: its fields, the defaults and bounds the
    schema declares, the `slug` virtual, and the user collection as a store. */
module Users {
  import opened Wrappers
  import opened Text
  import Seqs

  type UserId = nat

  datatype Role = Student | Admin

  datatype Status = Pending | Approved | Rejected

  /** The string the schema stores for a status. */
  function StatusName(s: Status): string {
    match s
    case Pending => "pending"
    case Approved => "approved"
    case Rejected => "rejected"
  }

  const PublicVisibility: string := "public"
  const UniversityVisibility: string := "university"
  const PrivateVisibility: string := "private"

  /** The `enum` of the `visibility` path. */
  predicate IsVisibility(v: string) {
    v == PublicVisibility || v == UniversityVisibility || v == PrivateVisibility
  }

  const MaxBioLength: nat := 500
  const MinSkillLevel: int := 0
  const MaxSkillLevel: int := 100

  datatype Contact = Contact(phone: Option<string>, linkedin: Option<string>,
                             github: Option<string>, portfolio: Option<string>)

  datatype Skill = Skill(name: Option<string>, level: int)

  datatype Project = Project(name: Option<string>, description: Option<string>,
                             githubLink: Option<string>, liveLink: Option<string>)

  /** `visibility` is kept as the stored string: updates do not run the schema's
      validators, so a profile edit can store a value outside the enum. */
  datatype User = User(
    id: UserId,
    name: string,
    email: string,
    password: string,
    studentId: string,
    studentIdDocument: Option<string>,
    role: Role,
    status: Status,
    profilePhoto: Option<string>,
    bio: string,
    interests: seq<string>,
    contactInfo: Contact,
    skills: seq<Skill>,
    projects: seq<Project>,
    visibility: string,
    flaggedContentAttempts: nat)

  /** A document the schema's setters and validators accept when it is created. */
  predicate SchemaValid(u: User) {
    && u.name != "" && Trim(u.name) == u.name
    && u.email != "" && Lower(Trim(u.email)) == u.email
    && u.password != ""
    && u.studentId != ""
    && IsVisibility(u.visibility)
    && |u.bio| <= MaxBioLength
    && (forall k :: 0 <= k < |u.skills| ==> MinSkillLevel <= u.skills[k].level <= MaxSkillLevel)
  }

  /** `User.create` for a registration: the `trim` and `lowercase` setters applied to
      name and email, every other path at its default. */
  function NewUser(id: UserId, name: string, email: string, password: string,
                   studentId: string, document: Option<string>): User
  {
    User(id, Trim(name), Lower(Trim(email)), password, studentId, document,
         Student, Pending, None, "", [], Contact(None, None, None, None), [], [],
         PublicVisibility, 0)
  }

  /** A new user is a pending student with a public profile, no flagged attempts and
      an empty profile, and the document passes the schema's checks whenever the
      required fields are present. */
  lemma {:induction false} NewUserDefaults(id: UserId, name: string, email: string, password: string,
                        studentId: string, document: Option<string>)
    requires Trim(name) != "" && Trim(email) != "" && password != "" && studentId != ""
    ensures var u := NewUser(id, name, email, password, studentId, document);
      && u.status == Pending && u.role == Student && u.visibility == PublicVisibility
      && u.flaggedContentAttempts == 0 && u.bio == "" && u.skills == [] && u.projects == []
      && SchemaValid(u)
  {
    TrimIdempotent(name);
    TrimIdempotent(email);
    LowerTrimCommute(Trim(email));
    LowerIdempotent(Trim(email));
    LowerIsLowercase(Trim(email));
  }

  // ----- the `slug` virtual -----

  /** `replace(/\s+/g, '-')`: every run of white space becomes one `-`. */
  function DashRuns(s: string): (r: string)
    ensures forall i :: 0 <= i < |r| ==> r[i] == '-' || (r[i] in s && !IsSpace(r[i]))
    decreases |s|
  {
    if s == [] then []
    else if IsSpace(s[0]) then "-" + DashRuns(TrimStart(s[1..]))
    else [s[0]] + DashRuns(s[1..])
  }

  /** `replace(/[^\w-]/g, '')`: keeps word characters and `-`. */
  function KeepSlugChars(s: string): (r: string)
    ensures forall i :: 0 <= i < |r| ==> (IsWordChar(r[i]) || r[i] == '-') && r[i] in s
  {
    if s == [] then []
    else if IsWordChar(s[0]) || s[0] == '-' then [s[0]] + KeepSlugChars(s[1..])
    else KeepSlugChars(s[1..])
  }

  /** The `slug` virtual: the name lowercased, each run of white space replaced by
      one `-`, then everything but word characters and `-` removed. */
  function Slug(name: string): string {
    KeepSlugChars(DashRuns(Lower(name)))
  }

  predicate IsSlugChar(c: char) {
    ('a' <= c <= 'z') || ('0' <= c <= '9') || c == '_' || c == '-'
  }

  predicate IsSlug(s: string) {
    forall i :: 0 <= i < |s| ==> IsSlugChar(s[i])
  }

  /** A slug holds only lowercase letters, digits, `_` and `-`. */
  lemma {:induction false} SlugIsSlug(name: string)
    ensures IsSlug(Slug(name))
  {
    var l := Lower(name);
    LowerIsLowercase(name);
    var d := DashRuns(l);
    assert forall i :: 0 <= i < |d| ==> !IsUpper(d[i]);
    var r := KeepSlugChars(d);
    forall i | 0 <= i < |r|
      ensures IsSlugChar(r[i])
    {
      assert r[i] in d;
    }
  }

  lemma {:induction false} DashRunsOfSlug(s: string)
    requires IsSlug(s)
    ensures DashRuns(s) == s
  {
    if s != [] {
      assert !IsSpace(s[0]);
      DashRunsOfSlug(s[1..]);
    }
  }

  lemma {:induction false} KeepSlugCharsOfSlug(s: string)
    requires IsSlug(s)
    ensures KeepSlugChars(s) == s
  {
    if s != [] {
      KeepSlugCharsOfSlug(s[1..]);
    }
  }

  /** Taking the slug of a slug changes nothing. */
  lemma {:induction false} SlugIdempotent(name: string)
    ensures Slug(Slug(name)) == Slug(name)
  {
    var s := Slug(name);
    SlugIsSlug(name);
    LowerOfLowercase(s);
    DashRunsOfSlug(s);
    KeepSlugCharsOfSlug(s);
  }

  // ----- the user collection -----

  /** The user collection: documents by id, `ids` in the store's natural (insertion)
      order, which is the order `find` and `findOne` see them in. */
  class UserStore {
    var ids: seq<UserId>
    var users: map<UserId, User>
    var nextId: UserId

    ghost predicate Valid()
      reads this
    {
      && Seqs.Distinct(ids)
      && (forall i :: 0 <= i < |ids| ==> ids[i] in users && ids[i] < nextId)
      && (forall id :: id in users ==> id in ids && users[id].id == id)
    }

    /** The documents in natural order. */
    function Docs(): (ds: seq<User>)
      reads this
      requires Valid()
      ensures |ds| == |ids|
      ensures forall i :: 0 <= i < |ids| ==> ds[i] == users[ids[i]]
      ensures forall u :: u in ds ==> u.id in users && users[u.id] == u
    {
      seq(|ids|, i reads this requires 0 <= i < |ids| && ids[i] in users => users[ids[i]])
    }

    constructor ()
      ensures Valid() && ids == [] && users == map[]
    {
      ids, users, nextId := [], map[], 0;
    }

    /** `User.create`: the document gets a fresh id and goes last in natural order. */
    method Create(u: User) returns (id: UserId)
      requires Valid()
      modifies this
      ensures Valid()
      ensures id !in old(users)
      ensures ids == old(ids) + [id]
      ensures users == old(users)[id := u.(id := id)]
    {
      id := nextId;
      ids := ids + [id];
      users := users[id := u.(id := id)];
      nextId := nextId + 1;
    }

    /** `findByIdAndDelete`: removes that document, if present, and no other. */
    method Delete(id: UserId)
      requires Valid()
      modifies this
      ensures Valid()
      ensures ids == Seqs.Without(old(ids), id)
      ensures users == old(users) - {id}
    {
      ghost var before := ids;
      ids := Seqs.Without(ids, id);
      users := users - {id};
      forall i | 0 <= i < |ids|
        ensures ids[i] in users && ids[i] < nextId
      {
        assert ids[i] in before;
      }
    }
  }
}
