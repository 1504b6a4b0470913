/** The read-only dictionary store and its four queries. The SQLite file is an immutable in-memory
    table; the connection `dbQueue` is `None` when the bundled file was missing or failed to open.
    A query whose read throws (the `readFails` parameter) is caught and degrades to `[]`, `None` or `0`. */
module Database {
  import opened Wrappers
  import opened Seqs
  import opened Text
  import opened Models

  /** The three tables of the bundled file, each in storage order. */
  datatype Tables = Tables(words: seq<Word>, definitions: seq<Definition>, comparisons: seq<Comparison>)

  /** The `words` table as GRDB decodes it, row by row. */
  function FetchAll(rows: seq<Word>): (r: seq<Word>)
    ensures |r| == |rows|
    ensures forall i :: 0 <= i < |rows| ==> r[i] == Fetched(rows[i])
  {
    seq(|rows|, i requires 0 <= i < |rows| => Fetched(rows[i]))
  }

  predicate SortedByWord(s: seq<Word>) {
    forall i, j :: 0 <= i < j < |s| ==> LexLe(s[i].word, s[j].word)
  }

  function Insert(x: Word, s: seq<Word>): (r: seq<Word>)
    ensures multiset(r) == multiset(s) + multiset{x}
  {
    if s == [] || LexLe(x.word, s[0].word) then [x] + s
    else
      assert s == [s[0]] + s[1..];
      [s[0]] + Insert(x, s[1..])
  }

  /** `ORDER BY word`: the rows rearranged in ascending lexicographic order of `word`. */
  function SortByWord(s: seq<Word>): (r: seq<Word>)
    ensures multiset(r) == multiset(s)
    ensures |r| == |s|
  {
    if s == [] then []
    else
      assert s == [s[0]] + s[1..];
      Insert(s[0], SortByWord(s[1..]))
  }

  lemma {:induction false} InsertSorted(x: Word, s: seq<Word>)
    requires SortedByWord(s)
    ensures SortedByWord(Insert(x, s))
  {
    if s == [] {
    } else if LexLe(x.word, s[0].word) {
      forall j | 0 <= j < |s| ensures LexLe(x.word, s[j].word) {
        if j > 0 { LexLeTransitive(x.word, s[0].word, s[j].word); }
      }
    } else {
      LexLeTotal(x.word, s[0].word);
      InsertSorted(x, s[1..]);
      var t := Insert(x, s[1..]);
      forall k | 0 <= k < |t| ensures LexLe(s[0].word, t[k].word) {
        assert t[k] in multiset(t);
        assert t[k] == x || t[k] in s[1..];
      }
    }
  }

  lemma {:induction false} SortByWordSorted(s: seq<Word>)
    ensures SortedByWord(SortByWord(s))
  {
    if s != [] {
      SortByWordSorted(s[1..]);
      InsertSorted(s[0], SortByWord(s[1..]));
    }
  }

  /** The pattern `searchByPrefix` hands to `LIKE`: the lower-cased prefix followed by `%`. */
  function Pattern(prefix: string): (p: string)
    ensures |p| == |prefix| + 1 && p[|prefix|] == '%'
    ensures p[..|prefix|] == Lower(prefix)
  {
    Lower(prefix) + "%"
  }

  /** `WHERE word LIKE pattern`, in table order. */
  function Matching(rows: seq<Word>, pattern: string): (r: seq<Word>)
    ensures forall w :: w in r <==> w in rows && Like(w.word, pattern)
  {
    Filter(rows, (w: Word) => Like(w.word, pattern))
  }

  /** The `LIKE` filter keeps each matching row as often as the table holds it, and no other row. */
  lemma MatchingMultiplicity(rows: seq<Word>, pattern: string)
    ensures forall w :: multiset(Matching(rows, pattern))[w] == if Like(w.word, pattern) then multiset(rows)[w] else 0
  {
    var r := Filter(rows, (w: Word) => Like(w.word, pattern));
    assert Matching(rows, pattern) == r;
  }

  /** `searchByPrefix(prefix, limit)`: the decoded rows whose word is `LIKE` the pattern, in word
      order, cut to `limit`; `[]` with no connection, for an empty prefix, or when the read fails. */
  function SearchByPrefix(db: Option<Tables>, prefix: string, limit: int, readFails: bool): (r: seq<Word>)
    ensures db.None? || prefix == [] || readFails ==> r == []
    ensures 0 <= limit ==> |r| <= limit
    ensures forall w :: w in r ==> db.Some? && w in FetchAll(db.value.words) && Like(w.word, Pattern(prefix))
    ensures SortedByWord(r)
  {
    if db.None? || prefix == [] || readFails then []
    else
      var rows := FetchAll(db.value.words);
      var pattern := Pattern(prefix);
      OrderedMatches(rows, pattern, limit);
      Take(SortByWord(Matching(rows, pattern)), limit)
  }

  /** The first `limit` rows of the sorted matches are sorted matches. */
  lemma OrderedMatches(rows: seq<Word>, pattern: string, limit: int)
    ensures var r := Take(SortByWord(Matching(rows, pattern)), limit);
      SortedByWord(r) && forall w :: w in r ==> w in rows && Like(w.word, pattern)
  {
    var m := Matching(rows, pattern);
    var s := SortByWord(m);
    SortByWordSorted(m);
    var r := Take(s, limit);
    forall w | w in r ensures w in m {
      assert w in multiset(s);
    }
  }

  /** For a prefix free of `%` and `_`, the `LIKE` filter is exactly "starts with the lower-cased
      prefix, ignoring ASCII case". */
  lemma PatternIsPrefixTest(word: string, prefix: string)
    requires NoWildcards(prefix)
    ensures Like(word, Pattern(prefix)) <==> Lower(prefix) <= Lower(word)
  {
    LowerNoWildcards(prefix);
    LikePrefix(word, Lower(prefix));
    FoldedPrefixOfLower(prefix, word);
  }

  /** The prefix is not escaped: a typed `_` matches any character, so "a_" finds "abc". */
  lemma WildcardsNotEscaped()
    ensures Like("abc", Pattern("a_"))
    ensures !(Lower("a_") <= Lower("abc"))
  {
    assert Pattern("a_") == "a_%";
    assert "a_%"[1..] == "_%" && "_%"[1..] == "%";
    assert "abc"[1..] == "bc" && "bc"[1..] == "c";
    assert Lower("a_")[1] == '_';
  }

  /** Every prefix-search result starts with the lower-cased prefix, for a prefix without wildcards. */
  lemma SearchByPrefixMatchesPrefix(db: Option<Tables>, prefix: string, limit: int, readFails: bool)
    requires NoWildcards(prefix)
    ensures forall w :: w in SearchByPrefix(db, prefix, limit, readFails) ==> Lower(prefix) <= Lower(w.word)
  {
    forall w | w in SearchByPrefix(db, prefix, limit, readFails)
      ensures Lower(prefix) <= Lower(w.word)
    {
      PatternIsPrefixTest(w.word, prefix);
    }
  }

  /** No matching row is skipped: when fewer than `limit` rows come back (or there is no limit)
      every matching row is among them, and a matching row whose word sorts strictly before the
      last result's word is among them too. */
  lemma SearchByPrefixComplete(db: Option<Tables>, prefix: string, limit: int, w: Word)
    requires db.Some? && prefix != []
    requires w in FetchAll(db.value.words) && Like(w.word, Pattern(prefix))
    ensures var r := SearchByPrefix(db, prefix, limit, false);
      (limit < 0 || |r| < limit || (r != [] && LexLe(w.word, r[|r| - 1].word) && w.word != r[|r| - 1].word))
      ==> w in r
  {
    var m := Matching(FetchAll(db.value.words), Pattern(prefix));
    var s := SortByWord(m);
    SortByWordSorted(m);
    var r := Take(s, limit);
    assert r == SearchByPrefix(db, prefix, limit, false);
    assert w in multiset(s);
    var j :| 0 <= j < |s| && s[j] == w;
    if limit < 0 || |r| < limit {
      assert r == s;
    } else if r != [] && LexLe(w.word, r[|r| - 1].word) && w.word != r[|r| - 1].word {
      if j >= |r| {
        assert r[|r| - 1] == s[|r| - 1];
        if j > |r| - 1 {
          assert LexLe(s[|r| - 1].word, s[j].word);
          LexLeAntisymmetric(w.word, r[|r| - 1].word);
        }
      }
      assert r[j] == w;
    }
  }

  /** The first row, in table order, whose `word` equals `word` (GRDB's `fetchOne`). */
  function FetchOne(rows: seq<Word>, word: string): (r: Option<Word>)
    ensures r.None? <==> forall i :: 0 <= i < |rows| ==> rows[i].word != word
    ensures r.Some? ==> r.value in rows && r.value.word == word
  {
    if rows == [] then None
    else if rows[0].word == word then Some(rows[0])
    else
      var r := FetchOne(rows[1..], word);
      assert forall i :: 1 <= i < |rows| ==> rows[i] == rows[1..][i - 1];
      r
  }

  /** The `definitions` rows of headword `id`, in table order. */
  function DefinitionsOf(t: Tables, id: Int64): (r: seq<Definition>)
    ensures forall d :: d in r <==> d in t.definitions && d.wordId == id
    ensures forall d :: multiset(r)[d] == if d.wordId == id then multiset(t.definitions)[d] else 0
    ensures IsSubsequence(r, t.definitions)
  {
    Filter(t.definitions, (d: Definition) => d.wordId == id)
  }

  /** The `comparisons` rows of headword `id`, in table order. */
  function ComparisonsOf(t: Tables, id: Int64): (r: seq<Comparison>)
    ensures forall c :: c in r <==> c in t.comparisons && c.wordId == id
    ensures forall c :: multiset(r)[c] == if c.wordId == id then multiset(t.comparisons)[c] else 0
    ensures IsSubsequence(r, t.comparisons)
  {
    Filter(t.comparisons, (c: Comparison) => c.wordId == id)
  }

  /** Some row of the `words` table has exactly this `word`. */
  predicate HasWord(t: Tables, word: string) {
    exists i :: 0 <= i < |t.words| && t.words[i].word == word
  }

  /** `w` is a decoded row of the table with its own definitions and comparisons filled in. */
  predicate Assembled(t: Tables, w: Word) {
    Fetched(w) in FetchAll(t.words)
    && w.definitions == DefinitionsOf(t, w.id)
    && w.comparisons == ComparisonsOf(t, w.id)
  }

  /** `findWord(word)`: the row whose `word` equals `word.lowercased()` (compared exactly), with the
      definitions and comparisons of its id; `None` with no connection, no such row, or a failed read. */
  function FindWord(db: Option<Tables>, word: string, readFails: bool): (r: Option<Word>)
    ensures r.Some? <==> db.Some? && !readFails && HasWord(db.value, Lower(word))
    ensures r.Some? ==> r.value.word == Lower(word) && Assembled(db.value, r.value)
  {
    if db.None? || readFails then None
    else
      var rows := FetchAll(db.value.words);
      match FetchOne(rows, Lower(word))
      case None =>
        assert forall i :: 0 <= i < |db.value.words| ==> db.value.words[i].word == rows[i].word;
        None
      case Some(found) =>
        var full := found.(definitions := DefinitionsOf(db.value, found.id),
                           comparisons := ComparisonsOf(db.value, found.id));
        var i :| 0 <= i < |rows| && rows[i] == found;
        assert db.value.words[i].word == Lower(word);
        assert Fetched(full) == found;
        Some(full)
  }

  /** Only the lower-cased word is looked up: a word and its lower-cased form find the same record. */
  lemma FindWordIgnoresCase(db: Option<Tables>, word: string, readFails: bool)
    ensures FindWord(db, word, readFails) == FindWord(db, Lower(word), readFails)
  {
    LowerIdempotent(word);
  }

  /** What the dictionary builder guarantees of the `words` table: every word is stored
      lower-cased, and no two rows share a word. */
  predicate WellFormed(t: Tables) {
    && (forall i :: 0 <= i < |t.words| ==> IsLower(t.words[i].word))
    && (forall i, j :: 0 <= i < j < |t.words| ==> t.words[i].word != t.words[j].word)
  }

  /** On a well-formed table every prefix-search result resolves: looking up its word finds the
      record of that same row. */
  lemma SearchResultsResolve(db: Option<Tables>, prefix: string, limit: int, readFails: bool, w: Word)
    requires db.Some? && WellFormed(db.value)
    requires w in SearchByPrefix(db, prefix, limit, readFails)
    ensures var found := FindWord(db, w.word, false);
      found.Some? && SameColumns(found.value, w)
  {
    var words := db.value.words;
    var rows := FetchAll(words);
    assert w in rows;
    var i :| 0 <= i < |rows| && rows[i] == w;
    assert words[i].word == w.word;
    LowerOfLower(w.word);
    assert HasWord(db.value, Lower(w.word)) by {
      assert 0 <= i < |words| && words[i].word == Lower(w.word);
    }
    var r := FindWord(db, w.word, false);
    assert r.Some?;
    var found := r.value;
    assert Fetched(found) in rows;
    var k :| 0 <= k < |rows| && rows[k] == Fetched(found);
    assert words[k].word == words[i].word;
    assert k == i;
  }

  /** The full-text engine's `MATCH`, left abstract: whether a row matches an FTS5 query. */
  type FtsMatcher = (string, Word) -> bool

  /** `fullTextSearch(query, limit)`: the rows the engine matches against `query*`, cut to `limit`;
      `[]` with no connection, for an empty query, or when the read fails. */
  function FullTextSearch(db: Option<Tables>, query: string, limit: int, readFails: bool, matches: FtsMatcher)
    : (r: seq<Word>)
    ensures db.None? || query == [] || readFails ==> r == []
    ensures 0 <= limit ==> |r| <= limit
    ensures forall w :: w in r ==> db.Some? && w in FetchAll(db.value.words) && matches(query + "*", w)
  {
    if db.None? || query == [] || readFails then []
    else Take(Filter(FetchAll(db.value.words), (w: Word) => matches(query + "*", w)), limit)
  }

  /** `wordCount()`: the number of rows of the `words` table, or `0` with no connection or a failed read. */
  function WordCount(db: Option<Tables>, readFails: bool): (n: int)
    ensures db.Some? && !readFails ==> n == |db.value.words|
    ensures db.None? || readFails ==> n == 0
  {
    if db.None? || readFails then 0 else |db.value.words|
  }

  /** A prefix search never returns more rows than the table holds. */
  lemma SearchByPrefixWithinCount(db: Option<Tables>, prefix: string, limit: int, readFails: bool)
    ensures |SearchByPrefix(db, prefix, limit, readFails)| <= WordCount(db, false)
  {
    if db.Some? && prefix != [] && !readFails {
      var m := Matching(FetchAll(db.value.words), Pattern(prefix));
      assert |m| <= |FetchAll(db.value.words)|;
    }
  }

  /** The app's dictionary service. It owns the read-only connection, assigned once at start-up. */
  class DatabaseService {
    /** The open connection, or `None` when setup failed. */
    const dbQueue: Option<Tables>

    /** `init()`, which runs `setupDatabase()`: without a bundled path the connection stays unset;
        otherwise it is what opening that file read-only yields (`None` when opening throws). */
    constructor (bundledPath: Option<string>, openReadOnly: string -> Option<Tables>)
      ensures bundledPath.None? ==> dbQueue.None?
      ensures bundledPath.Some? ==> dbQueue == openReadOnly(bundledPath.value)
    {
      if bundledPath.None? {
        dbQueue := None;
      } else {
        dbQueue := openReadOnly(bundledPath.value);
      }
    }
  }
}
