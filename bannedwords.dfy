/** The banned-word collection of `models/BannedWord.js`: every stored word is
    present, lowercase, trimmed and unique, and the collection is read in natural
    (insertion) order by moderation and in ascending order by the admin listing. */
module BannedWords {
  import opened Wrappers
  import opened Text
  import Seqs
  import Sorting

  type WordId = nat

  /** The `lowercase` and `trim` setters of the `word` path; the add handler applies
      the same two operations before the setters do. */
  function Normalize(s: string): string {
    Trim(Lower(s))
  }

  /** What the schema lets into the collection: a required, lowercase, trimmed word. */
  predicate IsStoredWord(w: string) {
    w != "" && IsLowercase(w) && IsTrimmed(w)
  }

  /** A normalised word is lowercase and trimmed, and normalising it again changes
      nothing, so the handler's own normalisation and the schema's setters agree. */
  lemma {:induction false} NormalizeProperties(s: string)
    ensures IsLowercase(Normalize(s)) && IsTrimmed(Normalize(s))
    ensures Normalize(Normalize(s)) == Normalize(s)
  {
    LowerTrimCommute(Lower(s));
    LowerIdempotent(s);
    LowerIsLowercase(Trim(Lower(s)));
    TrimProperties(Lower(s));
    var n := Normalize(s);
    assert Lower(n) == n;
    TrimOfTrimmed(n);
    assert Trim(Lower(n)) == n;
  }

  /** A word already in stored form is its own normal form. */
  lemma {:induction false} NormalizeOfStored(w: string)
    requires IsLowercase(w) && IsTrimmed(w)
    ensures Normalize(w) == w
  {
    LowerOfLowercase(w);
    TrimOfTrimmed(w);
  }

  /** The handler's normalisation followed by the schema's setters. */
  function NormalizeTwice(s: string): (w: string)
    ensures w == Normalize(s)
    ensures w != "" ==> IsStoredWord(w)
  {
    NormalizeProperties(s);
    Normalize(Normalize(s))
  }

  datatype AddResult = Added(id: WordId) | AlreadyExists | Invalid

  /** Stored words are unique, so removing an entry removes its word from the
      collection. */
  lemma {:induction false} RemovedWordNotStored(words: map<WordId, string>, id: WordId)
    requires forall id1, id2 :: id1 in words && id2 in words && id1 != id2 ==> words[id1] != words[id2]
    requires id in words
    ensures words[id] !in (words - {id}).Values
  {
  }

  class BannedWordTable {
    var ids: seq<WordId>
    var words: map<WordId, string>
    var nextId: WordId

    ghost predicate Valid()
      reads this
    {
      && Seqs.Distinct(ids)
      && (forall i :: 0 <= i < |ids| ==> ids[i] in words && ids[i] < nextId)
      && (forall id :: id in words ==> id in ids && IsStoredWord(words[id]))
      && (forall id1, id2 :: id1 in words && id2 in words && id1 != id2 ==> words[id1] != words[id2])
    }

    /** `BannedWord.find()`: the stored words in natural order. */
    function Words(): (ws: seq<string>)
      reads this
      requires Valid()
      ensures |ws| == |ids|
      ensures forall i :: 0 <= i < |ids| ==> ws[i] == words[ids[i]]
      ensures forall i :: 0 <= i < |ws| ==> IsStoredWord(ws[i])
    {
      seq(|ids|, i reads this requires 0 <= i < |ids| && ids[i] in words => words[ids[i]])
    }

    /** The listing holds exactly the stored words, each once. */
    lemma {:induction false} WordsMeaning()
      requires Valid()
      ensures forall w :: w in Words() <==> w in words.Values
      ensures Seqs.Distinct(Words())
    {
      var ws := Words();
      forall id | id in words
        ensures words[id] in ws
      {
        var i :| 0 <= i < |ids| && ids[i] == id;
        assert ws[i] == words[id];
      }
      forall w | w in words.Values
        ensures w in ws
      {
        var id :| id in words && words[id] == w;
      }
      forall i, j | 0 <= i < j < |ws|
        ensures ws[i] != ws[j]
      {
        assert ids[i] != ids[j];
      }
    }

    constructor ()
      ensures Valid() && ids == [] && words == map[]
    {
      ids, words, nextId := [], map[], 0;
    }

    /** `BannedWord.create({ word: raw.toLowerCase().trim() })`: a missing `word`
        throws, an empty normal form fails the `required` validator, a normal form
        already stored violates the unique index; otherwise the normal form is
        stored under a fresh id, last in natural order. */
    method Add(raw: Option<string>) returns (r: AddResult)
      requires Valid()
      modifies this
      ensures Valid()
      ensures raw.None? || Normalize(raw.value) == "" ==>
        r == Invalid && ids == old(ids) && words == old(words)
      ensures raw.Some? && Normalize(raw.value) != "" && Normalize(raw.value) in old(words.Values) ==>
        r == AlreadyExists && ids == old(ids) && words == old(words)
      ensures raw.Some? && Normalize(raw.value) != "" && Normalize(raw.value) !in old(words.Values) ==>
        && r.Added? && r.id !in old(words)
        && ids == old(ids) + [r.id]
        && words == old(words)[r.id := Normalize(raw.value)]
    {
      if raw.None? {
        return Invalid;
      }
      var w := NormalizeTwice(raw.value);
      if w == "" {
        return Invalid;
      }
      if w in words.Values {
        return AlreadyExists;
      }
      var id := Insert(w);
      r := Added(id);
    }

    /** Stores a word in normal form that is not yet present. */
    method Insert(w: string) returns (id: WordId)
      requires Valid() && IsStoredWord(w) && w !in words.Values
      modifies this
      ensures Valid()
      ensures id !in old(words) && ids == old(ids) + [id] && words == old(words)[id := w]
    {
      assert forall k :: k in words ==> words[k] != w;
      id := nextId;
      ids := ids + [id];
      words := words[id := w];
      nextId := nextId + 1;
    }

    /** `BannedWord.findByIdAndDelete(id)`: removes that entry if present; the others
        stay, in their order, and the removed word is no longer stored. */
    method Delete(id: WordId)
      requires Valid()
      modifies this
      ensures Valid()
      ensures ids == Seqs.Without(old(ids), id)
      ensures words == old(words) - {id}
    {
      ghost var before := ids;
      ids := Seqs.Without(ids, id);
      words := words - {id};
      forall i | 0 <= i < |ids|
        ensures ids[i] in words && ids[i] < nextId
      {
        assert ids[i] in before;
      }
    }

    /** `BannedWord.find().sort({ word: 1 })`: the stored words, ascending. */
    function Listing(): (ws: seq<string>)
      reads this
      requires Valid()
      ensures Sorting.SortedBy(ws, Sorting.StringOrder())
      ensures multiset(ws) == multiset(Words())
    {
      Sorting.StringOrderIsTotalPreorder();
      Sorting.SortBySorted(Words(), Sorting.StringOrder());
      Sorting.SortBy(Words(), Sorting.StringOrder())
    }
  }

  /** The ten words the application seeds an empty collection with. */
  const DefaultWords: seq<string> := ["inappropriate", "offensive", "hate", "violence", "drugs",
                                      "alcohol", "weapon", "illegal", "scam", "fraud"]
}
