/** The banned-word moderation of `middleware/contentModeration.js`: a whole-word,
    case-insensitive scan of one text against the stored word list, and the
    middleware that runs it over a profile form, counts a rejected attempt against
    the logged-in user and refuses the request. */
module Moderation {
  import opened Wrappers
  import opened Text
  import opened Http
  import Users
  import Seqs
  import BannedWords

  // ----- `\b` and the whole-word test -----

  /** Position `p` holds a `\w` character; positions outside the text do not. */
  predicate IsWordAt(t: string, p: int) {
    0 <= p < |t| && IsWordChar(t[p])
  }

  /** `\b` at position `p`: a word character on exactly one side. */
  predicate IsBoundary(t: string, p: int) {
    IsWordAt(t, p - 1) != IsWordAt(t, p)
  }

  /** `\bw\b` matches `t` starting at `i`. */
  predicate MatchesAt(t: string, w: string, i: int) {
    && 0 <= i <= |t| - |w|
    && IsBoundary(t, i)
    && t[i..i + |w|] == w
    && IsBoundary(t, i + |w|)
  }

  /** `new RegExp('\\b' + w + '\\b', 'i').test(t)` for a literal word `w`. Text and
      word are both lowercased before the test, so the `i` flag has no further
      effect on ASCII text. */
  predicate WholeWordTest(t: string, w: string) {
    exists i | 0 <= i <= |t| - |w| :: MatchesAt(t, w, i)
  }

  // ----- the scan over the word list -----

  /** The words of `ws`, lowercased, that the whole-word test finds in `t`, in list
      order: the reference for the loop of `checkBannedWords`. */
  function Scan(t: string, ws: seq<string>): seq<string>
    decreases |ws|
  {
    if ws == [] then []
    else
      var w := Lower(ws[|ws| - 1]);
      Scan(t, ws[..|ws| - 1]) + (if WholeWordTest(t, w) then [w] else [])
  }

  /** Every stored word can stand in a regular expression as itself. */
  predicate AllLiteral(ws: seq<string>) {
    forall k :: 0 <= k < |ws| ==> IsLiteralPattern(ws[k])
  }

  predicate AllLowercase(ws: seq<string>) {
    forall k :: 0 <= k < |ws| ==> IsLowercase(ws[k])
  }

  /** For stored (lowercase) words, the scan is the word list filtered by the
      whole-word test: a subsequence of the list, in list order. */
  lemma {:induction false} ScanIsFilter(t: string, ws: seq<string>)
    requires AllLowercase(ws)
    ensures var found := (w: string) => WholeWordTest(t, w);
      Scan(t, ws) == Seqs.Filter(ws, found)
    decreases |ws|
  {
    if ws != [] {
      var init, last := ws[..|ws| - 1], ws[|ws| - 1];
      assert ws == init + [last];
      ScanIsFilter(t, init);
      LowerOfLowercase(last);
      Seqs.FilterSnoc(init, last, (w: string) => WholeWordTest(t, w));
    }
  }

  /** A stored word is reported iff it occurs in the text as a whole word, and a
      list without repeats reports each word at most once. */
  lemma {:induction false} ScanMeaning(t: string, ws: seq<string>)
    requires AllLowercase(ws)
    ensures forall w :: w in Scan(t, ws) <==> w in ws && WholeWordTest(t, w)
    ensures Seqs.Distinct(ws) ==> Seqs.Distinct(Scan(t, ws))
  {
    ScanIsFilter(t, ws);
    Seqs.FilterProperties(ws, (w: string) => WholeWordTest(t, w));
  }

  datatype ModerationResult = ModerationResult(clean: bool, words: seq<string>)

  /** The verdict of `checkBannedWords(text)` against the word list the store
      returns (or fails to return). */
  function Verdict(text: Option<string>, stored: Result<seq<string>, StoreError>)
    : Result<ModerationResult, StoreError>
  {
    if text.None? || text.value == "" then Success(ModerationResult(true, []))
    else if stored.Failure? then Failure(stored.error)
    else
      var found := Scan(Lower(text.value), stored.value);
      Success(ModerationResult(found == [], found))
  }

  /** What a verdict means: absent or empty text is clean without the word list
      being read, a read failure propagates, `clean` holds iff nothing was found,
      and a stored word is reported iff it occurs as a whole word in the lowercased
      text. */
  lemma {:induction false} VerdictMeaning(text: Option<string>, stored: Result<seq<string>, StoreError>)
    requires stored.Success? ==> AllLowercase(stored.value)
    ensures text.None? || text == Some("") ==> Verdict(text, stored) == Success(ModerationResult(true, []))
    ensures text.Some? && text.value != "" && stored.Failure? ==> Verdict(text, stored) == Failure(stored.error)
    ensures Verdict(text, stored).Success? ==>
      (Verdict(text, stored).value.clean <==> Verdict(text, stored).value.words == [])
    ensures text.Some? && text.value != "" && stored.Success? ==>
      forall w :: w in Verdict(text, stored).value.words <==>
        w in stored.value && WholeWordTest(Lower(text.value), w)
  {
    if text.Some? && text.value != "" && stored.Success? {
      ScanMeaning(Lower(text.value), stored.value);
    }
  }

  /** What `BannedWord.find()` gives: the words of the table as they are at the
      time of the read, in natural order, or the failure of the read. */
  function StoredWords(table: BannedWords.BannedWordTable, readFails: bool): (r: Result<seq<string>, StoreError>)
    reads table
    requires table.Valid()
    ensures r.Success? <==> !readFails
    ensures r.Success? ==> r.value == table.Words()
  {
    if readFails then Failure(ReadFailed) else Success(table.Words())
  }

  /** Against the table, the verdict on a non-empty text reports exactly the
      stored words that occur in it as whole words, each once. */
  lemma {:induction false} TableVerdictMeaning(text: string, table: BannedWords.BannedWordTable)
    requires table.Valid()
    requires text != ""
    ensures var v := Verdict(Some(text), Success(table.Words()));
      && v.Success?
      && (forall w :: w in v.value.words <==> w in table.words.Values && WholeWordTest(Lower(text), w))
      && Seqs.Distinct(v.value.words)
  {
    table.WordsMeaning();
    ScanMeaning(Lower(text), table.Words());
  }

  /** Against the table, no word is reported twice. */
  lemma {:induction false} TableVerdictDistinct(text: string, table: BannedWords.BannedWordTable)
    requires table.Valid()
    ensures Seqs.Distinct(Scan(Lower(text), table.Words()))
  {
    table.WordsMeaning();
    ScanMeaning(Lower(text), table.Words());
  }

  /** A word in the table is caught in any text that holds it as a whole word: a
      word an admin has added takes effect at the next check. */
  lemma {:induction false} ListedWordIsCaught(text: string, table: BannedWords.BannedWordTable, w: string)
    requires table.Valid()
    requires w in table.words.Values && WholeWordTest(Lower(text), w)
    ensures var v := Verdict(Some(text), Success(table.Words()));
      v.Success? && !v.value.clean && w in v.value.words
  {
    var id :| id in table.words && table.words[id] == w;
    assert w != "";
    var i :| 0 <= i <= |Lower(text)| - |w| && MatchesAt(Lower(text), w, i);
    assert text != "";
    TableVerdictMeaning(text, table);
  }

  /** A word that is not in the table is never reported: a word an admin has
      deleted no longer counts. */
  lemma {:induction false} UnlistedWordIsNotReported(text: string, table: BannedWords.BannedWordTable, w: string)
    requires table.Valid()
    requires w !in table.words.Values
    ensures var v := Verdict(Some(text), Success(table.Words()));
      v.Success? && w !in v.value.words
  {
    if text != "" {
      TableVerdictMeaning(text, table);
    }
  }

  /** `checkBannedWords`: returns at once for absent or empty text; otherwise reads
      the word list and tests each word in stored order, appending every word that
      matches. `readFails` says whether the read throws. */
  method CheckBannedWords(text: Option<string>, table: BannedWords.BannedWordTable, readFails: bool)
    returns (r: Result<ModerationResult, StoreError>)
    requires table.Valid() && AllLiteral(table.Words())
    ensures r == Verdict(text, StoredWords(table, readFails))
  {
    if text.None? || text.value == "" {
      return Success(ModerationResult(true, []));
    }
    if readFails {
      return Failure(ReadFailed);
    }
    var bannedWords := table.Words();
    var textLower := Lower(text.value);
    var foundWords: seq<string> := [];
    for k := 0 to |bannedWords|
      invariant foundWords == Scan(textLower, bannedWords[..k])
    {
      var word := Lower(bannedWords[k]);
      assert bannedWords[..k + 1][..k] == bannedWords[..k];
      if WholeWordTest(textLower, word) {
        foundWords := foundWords + [word];
      }
    }
    assert bannedWords[..|bannedWords|] == bannedWords;
    r := Success(ModerationResult(|foundWords| == 0, foundWords));
  }

  /** "drugs" is found in "no drugs" ... */
  lemma DrugsFound()
    ensures Scan(Lower("No drugs"), ["drugs"]) == ["drugs"]
  {
    assert Lower("No drugs") == "no drugs";
    assert MatchesAt("no drugs", "drugs", 3);
    assert Lower("drugs") == "drugs";
  }

  /** ... and not inside "drugstore", where no boundary follows it. */
  lemma DrugstoreClean()
    ensures Scan(Lower("drugstore"), ["drugs"]) == []
  {
    assert Lower("drugs") == "drugs";
    var t := "drugstore";
    assert Lower(t) == t;
    forall i | 0 <= i <= |t| - 5
      ensures !MatchesAt(t, "drugs", i)
    {
      if i == 0 {
        assert !IsBoundary(t, 5);
      } else {
        assert t[i..i + 5] != "drugs" by {
          assert t[i..i + 5][0] == t[i];
        }
      }
    }
  }

  /** A text in which no two word characters stand side by side holds no whole
      word that starts with two word characters. */
  lemma {:induction false} NoLongWordInSpacedText(t: string, w: string)
    requires forall i :: 0 <= i < |t| - 1 ==> !IsWordChar(t[i]) || !IsWordChar(t[i + 1])
    requires |w| >= 2 && IsWordChar(w[0]) && IsWordChar(w[1])
    ensures !WholeWordTest(t, w)
  {
    forall i | 0 <= i <= |t| - |w|
      ensures !MatchesAt(t, w, i)
    {
      assert !IsWordChar(t[i]) || !IsWordChar(t[i + 1]);
      assert t[i..i + |w|][0] == t[i] && t[i..i + |w|][1] == t[i + 1];
    }
  }

  // ----- the middleware -----

  /** How `Array.prototype.join` renders one element: `undefined` as the empty
      string, an array as its elements joined by commas. */
  function JoinOperand(v: Option<FormValue>): string {
    match v
    case None => ""
    case Some(One(s)) => s
    case Some(Many(xs)) => Join(xs, ",")
  }

  /** `...(interests || [])`: nothing for a missing field, the items of a list, and
      the characters of a string one by one. */
  function SpreadInterests(v: Option<FormValue>): seq<string> {
    match v
    case None => []
    case Some(One(s)) => seq(|s|, i requires 0 <= i < |s| => [s[i]])
    case Some(Many(xs)) => xs
  }

  /** `[bio, ...(interests || [])].join(' ')`: the one text that is checked. */
  function MergedText(body: Body): string {
    Join([JoinOperand(Field(body, "bio"))] + SpreadInterests(Field(body, "interests")), " ")
  }

  const RejectionPrefix: string := "Content contains inappropriate words: "

  function RejectionMessage(words: seq<string>): string {
    RejectionPrefix + Join(words, ", ")
  }

  /** The user collection after one more flagged attempt by the session user: that
      user's counter up by one, nothing else changed; no change for an anonymous
      request or an id the store does not hold. */
  function Flagged(users: map<Users.UserId, Users.User>, viewer: Option<SessionUser>)
    : (r: map<Users.UserId, Users.User>)
    ensures r.Keys == users.Keys
    ensures forall id :: id in r ==> r[id].id == users[id].id
    ensures forall id :: id in users && (viewer.None? || id != viewer.value.id) ==> r[id] == users[id]
    ensures viewer.Some? && viewer.value.id in users ==>
      r[viewer.value.id] == users[viewer.value.id].(flaggedContentAttempts := users[viewer.value.id].flaggedContentAttempts + 1)
  {
    if viewer.Some? && viewer.value.id in users then
      var u := users[viewer.value.id];
      users[viewer.value.id := u.(flaggedContentAttempts := u.flaggedContentAttempts + 1)]
    else users
  }

  /** The `$inc` of a flagged attempt: for a logged-in visitor the store write
      either throws (`incrementFails`) and changes nothing, or raises that user's
      counter; an anonymous request writes nothing. */
  method RecordFlaggedAttempt(users: Users.UserStore, viewer: Option<SessionUser>, incrementFails: bool)
    returns (failed: bool)
    requires users.Valid()
    modifies users`users
    ensures users.Valid()
    ensures failed <==> viewer.Some? && incrementFails
    ensures failed ==> users.users == old(users.users)
    ensures !failed ==> users.users == Flagged(old(users.users), viewer)
  {
    if viewer.None? {
      return false;
    }
    if incrementFails {
      return true;
    }
    users.users := Flagged(users.users, viewer);
    failed := false;
  }

  /** `validateProfileContent`: checks the merged text once against the table as it
      stands; on a clean verdict the request goes on; on a dirty one the session
      user's `flaggedContentAttempts` is incremented (`incrementFails` says whether
      that store write throws), the error message lists every match, each once,
      and the visitor is sent back; any thrown error goes to `next(error)` with
      nothing written. */
  method ValidateProfileContent(body: Body, session: Session, users: Users.UserStore,
                                table: BannedWords.BannedWordTable, readFails: bool, incrementFails: bool)
    returns (resp: Response)
    requires users.Valid() && table.Valid() && AllLiteral(table.Words())
    modifies session`errorMsg, users`users
    ensures users.Valid()
    ensures var v := old(Verdict(Some(MergedText(body)), StoredWords(table, readFails)));
      v.Failure? ==>
        resp == NextWithError(v.error) && session.errorMsg == old(session.errorMsg) && users.users == old(users.users)
    ensures var v := old(Verdict(Some(MergedText(body)), StoredWords(table, readFails)));
      v.Success? && v.value.clean ==>
        resp == NextHandler && session.errorMsg == old(session.errorMsg) && users.users == old(users.users)
    ensures var v := old(Verdict(Some(MergedText(body)), StoredWords(table, readFails)));
      v.Success? && !v.value.clean && session.user.Some? && incrementFails ==>
        resp == NextWithError(WriteFailed) && session.errorMsg == old(session.errorMsg) && users.users == old(users.users)
    ensures var v := old(Verdict(Some(MergedText(body)), StoredWords(table, readFails)));
      v.Success? && !v.value.clean && !(session.user.Some? && incrementFails) ==>
        && resp == RedirectBack
        && session.errorMsg == Some(RejectionMessage(v.value.words))
        && Seqs.Distinct(v.value.words)
        && users.users == Flagged(old(users.users), session.user)
  {
    var allText := MergedText(body);
    var moderationResult := CheckBannedWords(Some(allText), table, readFails);
    if moderationResult.Failure? {
      return NextWithError(moderationResult.error);
    }
    if !moderationResult.value.clean {
      TableVerdictDistinct(allText, table);
      var failed := RecordFlaggedAttempt(users, session.user, incrementFails);
      if failed {
        return NextWithError(WriteFailed);
      }
      session.errorMsg := Some(RejectionMessage(moderationResult.value.words));
      return RedirectBack;
    }
    resp := NextHandler;
  }

  /** A form with neither `bio` nor `interests` (the project form) is always clean:
      the merged text is empty. */
  lemma {:induction false} FormWithoutProfileFieldsPasses(body: Body, stored: Result<seq<string>, StoreError>)
    requires "bio" !in body && "interests" !in body
    ensures Verdict(Some(MergedText(body)), stored) == Success(ModerationResult(true, []))
  {
  }

  /** Interests sent as one string are spread into single characters ... */
  lemma SpelledOutText()
    ensures MergedText(map["interests" := One("drugs")]) == " d r u g s"
  {
    var body := map["interests" := One("drugs")];
    var spread := SpreadInterests(Field(body, "interests"));
    assert spread == ["d", "r", "u", "g", "s"];
    assert Join(spread, " ") == "d r u g s" by {
      assert Join(["s"], " ") == "s";
      assert ["g", "s"][1..] == ["s"];
      assert Join(["g", "s"], " ") == "g s";
      assert ["u", "g", "s"][1..] == ["g", "s"];
      assert Join(["u", "g", "s"], " ") == "u g s";
      assert ["r", "u", "g", "s"][1..] == ["u", "g", "s"];
      assert Join(["r", "u", "g", "s"], " ") == "r u g s";
      assert spread[1..] == ["r", "u", "g", "s"];
    }
    assert ([""] + spread)[1..] == spread;
  }

  /** ... so "drugs" typed as an interest is checked as "d r u g s" and passes. */
  lemma InterestStringIsSpelledOut()
    ensures var body := map["interests" := One("drugs")];
      MergedText(body) == " d r u g s"
      && Verdict(Some(MergedText(body)), Success(["drugs"])) == Success(ModerationResult(true, []))
  {
    SpelledOutText();
    SpacedDrugsIsClean();
  }

  lemma SpacedDrugsIsClean()
    ensures Scan(Lower(" d r u g s"), ["drugs"]) == []
  {
    var t := " d r u g s";
    assert Lower(t) == t;
    assert Lower("drugs") == "drugs";
    assert forall i :: 0 <= i < |t| - 1 ==> !IsWordChar(t[i]) || !IsWordChar(t[i + 1]);
    NoLongWordInSpacedText(t, "drugs");
  }

  /** No two word characters stand side by side. */
  predicate NoAdjacentWordChars(t: string) {
    forall i :: 0 <= i < |t| - 1 ==> !IsWordChar(t[i]) || !IsWordChar(t[i + 1])
  }

  /** A word that opens with two word characters, as every banned word of two or
      more letters does. */
  predicate OpensWithTwoWordChars(w: string) {
    |w| >= 2 && IsWordChar(w[0]) && IsWordChar(w[1])
  }

  lemma {:induction false} NoAdjacentAppend(a: string, b: string)
    requires NoAdjacentWordChars(a) && NoAdjacentWordChars(b)
    requires a == [] || b == [] || !IsWordChar(a[|a| - 1]) || !IsWordChar(b[0])
    ensures NoAdjacentWordChars(a + b)
  {
    var t := a + b;
    forall i | 0 <= i < |t| - 1
      ensures !IsWordChar(t[i]) || !IsWordChar(t[i + 1])
    {
      if i < |a| - 1 {
        assert t[i] == a[i] && t[i + 1] == a[i + 1];
      } else if i == |a| - 1 {
        assert t[i] == a[i] && t[i + 1] == b[0];
      } else {
        assert t[i] == b[i - |a|] && t[i + 1] == b[i - |a| + 1];
      }
    }
  }

  /** The characters of a string joined by spaces never put two word characters
      side by side. */
  lemma {:induction false} SpreadJoinIsSpaced(s: string)
    ensures NoAdjacentWordChars(Join(SpreadInterests(Some(One(s))), " "))
    decreases |s|
  {
    var sp := SpreadInterests(Some(One(s)));
    if |s| >= 2 {
      assert sp[1..] == SpreadInterests(Some(One(s[1..])));
      SpreadJoinIsSpaced(s[1..]);
      var rest := Join(sp[1..], " ");
      assert Join(sp, " ") == [s[0]] + " " + rest;
      NoAdjacentAppend([s[0]], " ");
      NoAdjacentAppend([s[0]] + " ", rest);
    } else if |s| == 1 {
      assert Join(sp, " ") == [s[0]];
    }
  }

  /** Interests sent as one string merge, after lowercasing, into a text with no
      two word characters side by side. */
  lemma {:induction false} SpelledOutTextIsSpaced(s: string)
    ensures NoAdjacentWordChars(Lower(MergedText(map["interests" := One(s)])))
  {
    var body: Body := map["interests" := One(s)];
    var sp := SpreadInterests(Some(One(s)));
    assert Field(body, "bio") == None && Field(body, "interests") == Some(One(s));
    var t := MergedText(body);
    if s == [] {
      assert t == "";
    } else {
      assert ([""] + sp)[1..] == sp;
      assert t == "" + " " + Join(sp, " ");
      SpreadJoinIsSpaced(s);
      NoAdjacentAppend(" ", Join(sp, " "));
    }
    assert forall i :: 0 <= i < |t| ==> IsWordChar(Lower(t)[i]) == IsWordChar(t[i]);
  }

  /** A text whose lowercase form has no two word characters side by side hides
      every word of two or more leading word characters: such a word is never
      reported, whatever the table holds, and a table of such words passes the text. */
  lemma {:induction false} SpacedTextHidesLongWords(text: string, table: BannedWords.BannedWordTable, w: string)
    requires table.Valid()
    requires NoAdjacentWordChars(Lower(text))
    requires OpensWithTwoWordChars(w)
    ensures var v := Verdict(Some(text), Success(table.Words()));
      && v.Success? && w !in v.value.words
      && ((forall x :: x in table.words.Values ==> OpensWithTwoWordChars(x)) ==> v.value.clean)
  {
    if text != "" {
      TableVerdictMeaning(text, table);
      NoLongWordInSpacedText(Lower(text), w);
      var found := Verdict(Some(text), Success(table.Words())).value.words;
      if found != [] && forall x :: x in table.words.Values ==> OpensWithTwoWordChars(x) {
        var x := found[0];
        assert x in found;
        assert x in table.words.Values;
        NoLongWordInSpacedText(Lower(text), x);
      }
    }
  }

  /** Any interests string is spelled out before the check, so a banned word of two
      or more letters typed as an interest, "drugs" say, is never reported, and a
      table of such words lets the request through. */
  lemma {:induction false} InterestStringHidesLongWords(s: string, table: BannedWords.BannedWordTable, w: string)
    requires table.Valid()
    requires OpensWithTwoWordChars(w)
    ensures var v := Verdict(Some(MergedText(map["interests" := One(s)])), Success(table.Words()));
      && v.Success? && w !in v.value.words
      && ((forall x :: x in table.words.Values ==> OpensWithTwoWordChars(x)) ==> v.value.clean)
  {
    SpelledOutTextIsSpaced(s);
    SpacedTextHidesLongWords(MergedText(map["interests" := One(s)]), table, w);
  }

  /** A whole-word match inside one field survives the merge: the field is joined
      to its neighbours by spaces, so its boundaries stay boundaries. */
  lemma {:induction false} MatchInFieldSurvivesJoin(a: string, x: string, c: string, w: string, i: int)
    requires MatchesAt(x, w, i)
    requires a == [] || !IsWordChar(a[|a| - 1])
    requires c == [] || !IsWordChar(c[0])
    ensures MatchesAt(a + x + c, w, |a| + i)
  {
    var t := a + x + c;
    assert t[|a| + i..|a| + i + |w|] == x[i..i + |w|];
    assert IsWordAt(t, |a| + i) == IsWordAt(x, i);
    assert IsWordAt(t, |a| + i - 1) == IsWordAt(x, i - 1);
    assert IsWordAt(t, |a| + i + |w|) == IsWordAt(x, i + |w|);
    assert IsWordAt(t, |a| + i + |w| - 1) == IsWordAt(x, i + |w| - 1);
  }
}
