/** The administrator's pages in `routes/admin.js`: every route sits behind the
    `isAdmin` guard; admins approve, reject and delete accounts, keep the banned
    word list, and read the dashboard's counts and its list of flagged users. */
module Admin {
  import opened Wrappers
  import opened Http
  import opened Users
  import Seqs
  import Sorting
  import Guards
  import BannedWords

  // ----- dashboard -----

  predicate IsStudentDoc(u: User) { u.role == Student }
  predicate IsPendingDoc(u: User) { u.status == Pending }
  predicate IsApprovedDoc(u: User) { u.status == Approved }
  predicate IsRejectedDoc(u: User) { u.status == Rejected }
  predicate IsFlaggedDoc(u: User) { u.flaggedContentAttempts > 0 }

  datatype Stats = Stats(total: nat, pending: nat, approved: nat, rejected: nat)

  /** The dashboard's four `countDocuments` queries. */
  function DashboardStats(docs: seq<User>): (s: Stats)
    ensures s.total == |Seqs.Filter(docs, IsStudentDoc)|
    ensures s.pending == |Seqs.Filter(docs, IsPendingDoc)|
    ensures s.approved == |Seqs.Filter(docs, IsApprovedDoc)|
    ensures s.rejected == |Seqs.Filter(docs, IsRejectedDoc)|
  {
    Stats(Seqs.Count(docs, IsStudentDoc), Seqs.Count(docs, IsPendingDoc),
          Seqs.Count(docs, IsApprovedDoc), Seqs.Count(docs, IsRejectedDoc))
  }

  /** Every account, admins included, has exactly one of the three statuses, so
      the three status counts add up to the number of accounts; the student count
      is at most that. */
  lemma {:induction false} StatusCountsPartition(docs: seq<User>)
    ensures var s := DashboardStats(docs);
      s.pending + s.approved + s.rejected == |docs| && s.total <= |docs|
  {
    if docs != [] {
      StatusCountsPartition(docs[1..]);
    }
  }

  /** `sort({ flaggedContentAttempts: -1 })`: more attempts first. */
  predicate MoreFlagged(a: User, b: User) {
    a.flaggedContentAttempts >= b.flaggedContentAttempts
  }

  function Min(a: nat, b: nat): nat { if a <= b then a else b }

  const FlaggedListSize: nat := 10

  /** `find({ flaggedContentAttempts: { $gt: 0 } }).sort(...)`, ties kept in
      natural order. */
  function RankedFlagged(docs: seq<User>): seq<User> {
    Sorting.SortBy(Seqs.Filter(docs, IsFlaggedDoc), MoreFlagged)
  }

  /** The same query with `.limit(10)`. */
  function FlaggedUsers(docs: seq<User>): seq<User> {
    var ranked := RankedFlagged(docs);
    ranked[..Min(FlaggedListSize, |ranked|)]
  }

  /** The ranking holds every flagged user and no one else, most attempts first. */
  lemma {:induction false} RankedFlaggedProperties(docs: seq<User>)
    ensures |RankedFlagged(docs)| == Seqs.Count(docs, IsFlaggedDoc)
    ensures forall u :: u in RankedFlagged(docs) <==> u in docs && u.flaggedContentAttempts > 0
    ensures Sorting.SortedBy(RankedFlagged(docs), MoreFlagged)
  {
    var flagged := Seqs.Filter(docs, IsFlaggedDoc);
    Seqs.FilterProperties(docs, IsFlaggedDoc);
    assert Sorting.IsTotalPreorder(MoreFlagged);
    Sorting.SortBySorted(flagged, MoreFlagged);
    var ranked := RankedFlagged(docs);
    assert |ranked| == |flagged| by {
      assert |multiset(ranked)| == |multiset(flagged)|;
    }
    forall u
      ensures u in ranked <==> u in flagged
    {
      assert u in ranked <==> u in multiset(ranked);
      assert u in flagged <==> u in multiset(flagged);
    }
  }

  /** The dashboard lists at most ten flagged users, most attempts first, and no
      flagged user left off the list has more attempts than one on it. */
  lemma {:induction false} FlaggedUsersProperties(docs: seq<User>)
    ensures var r := FlaggedUsers(docs);
      && |r| == Min(FlaggedListSize, Seqs.Count(docs, IsFlaggedDoc))
      && (forall i :: 0 <= i < |r| ==> r[i] in docs && r[i].flaggedContentAttempts > 0)
      && Sorting.SortedBy(r, MoreFlagged)
      && (forall u, i :: u in docs && u.flaggedContentAttempts > 0 && u !in r && 0 <= i < |r| ==>
            r[i].flaggedContentAttempts >= u.flaggedContentAttempts)
  {
    RankedFlaggedProperties(docs);
    var ranked := RankedFlagged(docs);
    var r := FlaggedUsers(docs);
    forall i | 0 <= i < |r|
      ensures r[i] in docs && r[i].flaggedContentAttempts > 0
    {
      assert r[i] == ranked[i];
    }
    forall u, i | u in docs && u.flaggedContentAttempts > 0 && u !in r && 0 <= i < |r|
      ensures r[i].flaggedContentAttempts >= u.flaggedContentAttempts
    {
      var j :| 0 <= j < |ranked| && ranked[j] == u;
      assert r[i] == ranked[i] && i < j;
    }
  }

  /** `find({ status: 'pending' })`: the pending requests page. */
  function PendingUsers(docs: seq<User>): (r: seq<User>)
    ensures forall u :: u in r <==> u in docs && u.status == Pending
  {
    Seqs.FilterProperties(docs, IsPendingDoc);
    Seqs.Filter(docs, IsPendingDoc)
  }

  /** `find({ role: 'student' })`: the students page. */
  function StudentUsers(docs: seq<User>): (r: seq<User>)
    ensures forall u :: u in r <==> u in docs && u.role == Student
  {
    Seqs.FilterProperties(docs, IsStudentDoc);
    Seqs.Filter(docs, IsStudentDoc)
  }

  // ----- account decisions -----

  /** The collection after `findByIdAndUpdate(id, { status })`: that document has
      the new status whatever it had before; nothing else changes. */
  function WithStatus(users: map<UserId, User>, id: UserId, s: Status): (r: map<UserId, User>)
    ensures r.Keys == users.Keys
    ensures forall k :: k in users && k != id ==> r[k] == users[k]
    ensures id in users ==> r[id] == users[id].(status := s)
  {
    if id in users then users[id := users[id].(status := s)] else users
  }

  /** The later of two decisions on one account wins: approving after rejecting
      (or the other way round) is the same as deciding once. */
  lemma {:induction false} LastDecisionWins(users: map<UserId, User>, id: UserId, first: Status, second: Status)
    ensures WithStatus(WithStatus(users, id, first), id, second) == WithStatus(users, id, second)
  {
  }

  const ApprovedMsg: string := "User approved successfully"
  const ApproveFailedMsg: string := "Failed to approve user"
  const RejectedMsg: string := "User rejected"
  const RejectFailedMsg: string := "Failed to reject user"
  const DeletedMsg: string := "Student deleted successfully"
  const DeleteFailedMsg: string := "Failed to delete student"

  /** `POST /approve/:id` and `POST /reject/:id`: `id` is `None` when the route
      parameter is not a document id, which the store refuses to cast. */
  method Decide(users: UserStore, session: Session, id: Option<UserId>, s: Status) returns (resp: Response)
    requires users.Valid()
    requires s != Pending
    modifies users`users, session`errorMsg, session`successMsg
    ensures users.Valid()
    ensures resp == Redirect("/admin/pending")
    ensures id.None? ==>
      && users.users == old(users.users) && session.successMsg == old(session.successMsg)
      && session.errorMsg == Some(if s == Approved then ApproveFailedMsg else RejectFailedMsg)
    ensures id.Some? ==>
      && users.users == WithStatus(old(users.users), id.value, s)
      && session.errorMsg == old(session.errorMsg)
      && session.successMsg == Some(if s == Approved then ApprovedMsg else RejectedMsg)
  {
    resp := Redirect("/admin/pending");
    if id.None? {
      session.errorMsg := Some(if s == Approved then ApproveFailedMsg else RejectFailedMsg);
      return;
    }
    users.users := WithStatus(users.users, id.value, s);
    session.successMsg := Some(if s == Approved then ApprovedMsg else RejectedMsg);
  }

  /** `POST /student/delete/:id`: removes the document, whatever its role. */
  method DeleteStudent(users: UserStore, session: Session, id: Option<UserId>) returns (resp: Response)
    requires users.Valid()
    modifies users, session`errorMsg, session`successMsg
    ensures users.Valid()
    ensures resp == Redirect("/admin/students")
    ensures id.None? ==>
      && users.users == old(users.users) && users.ids == old(users.ids)
      && session.errorMsg == Some(DeleteFailedMsg) && session.successMsg == old(session.successMsg)
    ensures id.Some? ==>
      && users.users == old(users.users) - {id.value} && users.ids == Seqs.Without(old(users.ids), id.value)
      && session.successMsg == Some(DeletedMsg) && session.errorMsg == old(session.errorMsg)
  {
    resp := Redirect("/admin/students");
    if id.None? {
      session.errorMsg := Some(DeleteFailedMsg);
      return;
    }
    users.Delete(id.value);
    session.successMsg := Some(DeletedMsg);
  }

  // ----- banned words -----

  const WordAddedMsg: string := "Banned word added successfully"
  const WordExistsMsg: string := "Word already exists in banned list"
  const WordAddFailedMsg: string := "Failed to add banned word"
  const WordRemovedMsg: string := "Banned word removed successfully"
  const WordRemoveFailedMsg: string := "Failed to remove banned word"

  /** `req.body.word` when it is a string; a missing field or a list has no
      `toLowerCase` and throws. */
  function WordField(body: Body): Option<string> {
    match Field(body, "word")
    case Some(One(w)) => Some(w)
    case _ => None
  }

  /** `POST /banned-word/add`: the normal form of the word is added unless it is
      empty or already listed; the message tells which. */
  method AddBannedWord(table: BannedWords.BannedWordTable, session: Session, body: Body) returns (resp: Response)
    requires table.Valid()
    modifies table, session`errorMsg, session`successMsg
    ensures table.Valid()
    ensures resp == Redirect("/admin/banned-words")
    ensures var raw := WordField(body);
      raw.None? || BannedWords.Normalize(raw.value) == "" ==>
        && table.words == old(table.words) && table.ids == old(table.ids)
        && session.errorMsg == Some(WordAddFailedMsg) && session.successMsg == old(session.successMsg)
    ensures var raw := WordField(body);
      raw.Some? && BannedWords.Normalize(raw.value) != "" && BannedWords.Normalize(raw.value) in old(table.words.Values) ==>
        && table.words == old(table.words) && table.ids == old(table.ids)
        && session.errorMsg == Some(WordExistsMsg) && session.successMsg == old(session.successMsg)
    ensures var raw := WordField(body);
      raw.Some? && BannedWords.Normalize(raw.value) != "" && BannedWords.Normalize(raw.value) !in old(table.words.Values) ==>
        && |table.ids| == |old(table.ids)| + 1 && table.ids[..|old(table.ids)|] == old(table.ids)
        && table.ids[|old(table.ids)|] !in old(table.words)
        && table.words == old(table.words)[table.ids[|old(table.ids)|] := BannedWords.Normalize(raw.value)]
        && session.successMsg == Some(WordAddedMsg) && session.errorMsg == old(session.errorMsg)
  {
    resp := Redirect("/admin/banned-words");
    var r := table.Add(WordField(body));
    match r
    case Added(_) =>
      assert table.ids[..|old(table.ids)|] == old(table.ids);
      session.successMsg := Some(WordAddedMsg);
    case AlreadyExists =>
      session.errorMsg := Some(WordExistsMsg);
    case Invalid =>
      session.errorMsg := Some(WordAddFailedMsg);
  }

  /** `POST /banned-word/delete/:id` */
  method DeleteBannedWord(table: BannedWords.BannedWordTable, session: Session, id: Option<BannedWords.WordId>)
    returns (resp: Response)
    requires table.Valid()
    modifies table, session`errorMsg, session`successMsg
    ensures table.Valid()
    ensures resp == Redirect("/admin/banned-words")
    ensures id.None? ==>
      && table.words == old(table.words) && table.ids == old(table.ids)
      && session.errorMsg == Some(WordRemoveFailedMsg) && session.successMsg == old(session.successMsg)
    ensures id.Some? ==>
      && table.words == old(table.words) - {id.value} && table.ids == Seqs.Without(old(table.ids), id.value)
      && session.successMsg == Some(WordRemovedMsg) && session.errorMsg == old(session.errorMsg)
  {
    resp := Redirect("/admin/banned-words");
    if id.None? {
      session.errorMsg := Some(WordRemoveFailedMsg);
      return;
    }
    table.Delete(id.value);
    session.successMsg := Some(WordRemovedMsg);
  }

  // ----- the router -----

  datatype Request =
    | DashboardPage
    | PendingPage
    | StudentsPage
    | BannedWordsPage
    | ApproveUser(userId: Option<UserId>)
    | RejectUser(userId: Option<UserId>)
    | DeleteUser(userId: Option<UserId>)
    | AddWord(body: Body)
    | DeleteWord(wordId: Option<BannedWords.WordId>)

  predicate IsPage(req: Request) {
    req.DashboardPage? || req.PendingPage? || req.StudentsPage? || req.BannedWordsPage?
  }

  /** What a page shows. */
  datatype View =
    | DashboardView(stats: Stats, flagged: seq<User>)
    | PendingView(pending: seq<User>)
    | StudentsView(students: seq<User>)
    | WordsView(words: seq<string>)

  /** How the router ends a request: a rendered page, or a plain response. */
  datatype Reply = Rendered(view: View) | Answered(resp: Response)

  /** Where a page sends the admin when its reads throw. */
  function FallbackPage(req: Request): string {
    if req.DashboardPage? then "/" else "/admin/dashboard"
  }

  /** The four pages, past the guard: each renders what its queries return, or
      sends the admin on when a query throws (`readFails`). */
  method ShowPage(users: UserStore, table: BannedWords.BannedWordTable, req: Request, readFails: bool)
    returns (reply: Reply)
    requires users.Valid() && table.Valid() && IsPage(req)
    ensures readFails ==> reply == Answered(Redirect(FallbackPage(req)))
    ensures req.DashboardPage? && !readFails ==>
      reply == Rendered(DashboardView(DashboardStats(users.Docs()), FlaggedUsers(users.Docs())))
    ensures req.PendingPage? && !readFails ==> reply == Rendered(PendingView(PendingUsers(users.Docs())))
    ensures req.StudentsPage? && !readFails ==> reply == Rendered(StudentsView(StudentUsers(users.Docs())))
    ensures req.BannedWordsPage? && !readFails ==> reply == Rendered(WordsView(table.Listing()))
  {
    if readFails {
      return Answered(Redirect(FallbackPage(req)));
    }
    match req
    case DashboardPage =>
      var docs := users.Docs();
      reply := Rendered(DashboardView(DashboardStats(docs), FlaggedUsers(docs)));
    case PendingPage => reply := Rendered(PendingView(PendingUsers(users.Docs())));
    case StudentsPage => reply := Rendered(StudentsView(StudentUsers(users.Docs())));
    case BannedWordsPage => reply := Rendered(WordsView(table.Listing()));
  }

  /** `router.use(isAdmin)` in front of every route: anyone but a logged-in admin is
      sent home with the admin-only message, sees nothing and changes nothing. For
      an admin a page renders what its queries return (`readFails` says whether
      they throw), and a form changes exactly what its handler changes. */
  method Handle(users: UserStore, table: BannedWords.BannedWordTable, session: Session, req: Request, readFails: bool)
    returns (reply: Reply)
    requires users.Valid() && table.Valid()
    modifies users, table, session`errorMsg, session`successMsg
    ensures users.Valid() && table.Valid()
    ensures !(session.user.Some? && session.user.value.role == Admin) ==>
      && reply == Answered(Redirect("/")) && session.errorMsg == Some(Guards.AdminOnlyMsg)
      && session.successMsg == old(session.successMsg)
      && users.users == old(users.users) && users.ids == old(users.ids)
      && table.words == old(table.words) && table.ids == old(table.ids)
    ensures session.user.Some? && session.user.value.role == Admin ==>
      && (IsPage(req) ==>
            && session.errorMsg == old(session.errorMsg) && session.successMsg == old(session.successMsg)
            && users.users == old(users.users) && users.ids == old(users.ids)
            && table.words == old(table.words) && table.ids == old(table.ids))
      && (IsPage(req) && readFails ==> reply == Answered(Redirect(FallbackPage(req))))
      && (req.DashboardPage? && !readFails ==>
            reply == Rendered(DashboardView(DashboardStats(users.Docs()), FlaggedUsers(users.Docs()))))
      && (req.PendingPage? && !readFails ==> reply == Rendered(PendingView(PendingUsers(users.Docs()))))
      && (req.StudentsPage? && !readFails ==> reply == Rendered(StudentsView(StudentUsers(users.Docs()))))
      && (req.BannedWordsPage? && !readFails ==> reply == Rendered(WordsView(table.Listing())))
    ensures session.user.Some? && session.user.value.role == Admin ==>
      && (req.ApproveUser? || req.RejectUser? ==>
            && reply == Answered(Redirect("/admin/pending"))
            && users.users == (if req.userId.None? then old(users.users)
                               else WithStatus(old(users.users), req.userId.value,
                                               if req.ApproveUser? then Approved else Rejected))
            && users.ids == old(users.ids)
            && table.words == old(table.words) && table.ids == old(table.ids))
      && (req.DeleteUser? ==>
            && reply == Answered(Redirect("/admin/students"))
            && users.users == (if req.userId.None? then old(users.users) else old(users.users) - {req.userId.value})
            && users.ids == (if req.userId.None? then old(users.ids) else Seqs.Without(old(users.ids), req.userId.value))
            && table.words == old(table.words) && table.ids == old(table.ids))
      && (req.DeleteWord? ==>
            && reply == Answered(Redirect("/admin/banned-words"))
            && table.words == (if req.wordId.None? then old(table.words) else old(table.words) - {req.wordId.value})
            && table.ids == (if req.wordId.None? then old(table.ids) else Seqs.Without(old(table.ids), req.wordId.value))
            && users.users == old(users.users) && users.ids == old(users.ids))
    ensures session.user.Some? && session.user.value.role == Admin && req.AddWord? ==>
      var raw := WordField(req.body);
      && reply == Answered(Redirect("/admin/banned-words"))
      && users.users == old(users.users) && users.ids == old(users.ids)
      && (raw.None? || BannedWords.Normalize(raw.value) == "" || BannedWords.Normalize(raw.value) in old(table.words.Values) ==>
            table.words == old(table.words) && table.ids == old(table.ids))
      && (raw.Some? && BannedWords.Normalize(raw.value) != "" && BannedWords.Normalize(raw.value) !in old(table.words.Values) ==>
            && |table.ids| == |old(table.ids)| + 1 && table.ids[..|old(table.ids)|] == old(table.ids)
            && table.ids[|old(table.ids)|] !in old(table.words)
            && table.words == old(table.words)[table.ids[|old(table.ids)|] := BannedWords.Normalize(raw.value)])
  {
    var refused := Guards.Apply(session, Guards.AdminDecision(session.user));
    if refused.Some? {
      return Answered(refused.value);
    }
    if IsPage(req) {
      reply := ShowPage(users, table, req, readFails);
      return;
    }
    reply := Submit(users, table, session, req);
  }

  /** The five forms, past the guard: each changes exactly what its handler
      changes and ends on its list page. */
  method Submit(users: UserStore, table: BannedWords.BannedWordTable, session: Session, req: Request)
    returns (reply: Reply)
    requires users.Valid() && table.Valid() && !IsPage(req)
    modifies users, table, session`errorMsg, session`successMsg
    ensures users.Valid() && table.Valid()
    ensures (req.ApproveUser? || req.RejectUser? ==>
            && reply == Answered(Redirect("/admin/pending"))
            && users.users == (if req.userId.None? then old(users.users)
                               else WithStatus(old(users.users), req.userId.value,
                                               if req.ApproveUser? then Approved else Rejected))
            && users.ids == old(users.ids)
            && table.words == old(table.words) && table.ids == old(table.ids))
    ensures (req.DeleteUser? ==>
            && reply == Answered(Redirect("/admin/students"))
            && users.users == (if req.userId.None? then old(users.users) else old(users.users) - {req.userId.value})
            && users.ids == (if req.userId.None? then old(users.ids) else Seqs.Without(old(users.ids), req.userId.value))
            && table.words == old(table.words) && table.ids == old(table.ids))
    ensures (req.DeleteWord? ==>
            && reply == Answered(Redirect("/admin/banned-words"))
            && table.words == (if req.wordId.None? then old(table.words) else old(table.words) - {req.wordId.value})
            && table.ids == (if req.wordId.None? then old(table.ids) else Seqs.Without(old(table.ids), req.wordId.value))
            && users.users == old(users.users) && users.ids == old(users.ids))
    ensures req.AddWord? ==>
      var raw := WordField(req.body);
      && reply == Answered(Redirect("/admin/banned-words"))
      && users.users == old(users.users) && users.ids == old(users.ids)
      && (raw.None? || BannedWords.Normalize(raw.value) == "" || BannedWords.Normalize(raw.value) in old(table.words.Values) ==>
            table.words == old(table.words) && table.ids == old(table.ids))
      && (raw.Some? && BannedWords.Normalize(raw.value) != "" && BannedWords.Normalize(raw.value) !in old(table.words.Values) ==>
            && |table.ids| == |old(table.ids)| + 1 && table.ids[..|old(table.ids)|] == old(table.ids)
            && table.ids[|old(table.ids)|] !in old(table.words)
            && table.words == old(table.words)[table.ids[|old(table.ids)|] := BannedWords.Normalize(raw.value)])
  {
    match req
    case ApproveUser(id) =>
      var resp := Decide(users, session, id, Approved);
      reply := Answered(resp);
    case RejectUser(id) =>
      var resp := Decide(users, session, id, Rejected);
      reply := Answered(resp);
    case DeleteUser(id) =>
      var resp := DeleteStudent(users, session, id);
      reply := Answered(resp);
    case AddWord(body) =>
      var resp := AddBannedWord(table, session, body);
      reply := Answered(resp);
    case DeleteWord(id) =>
      var resp := DeleteBannedWord(table, session, id);
      reply := Answered(resp);
  }
}
