/** Strings as the dictionary compares them: lower-casing, SQLite's `LIKE`, and the order of `ORDER BY word`. */
module Text {

  /** ASCII lower-casing of one character: the folding SQLite's `LIKE` applies, and the part of
      Swift's `lowercased()` this model covers. */
  function LowerChar(c: char): (d: char)
    ensures !('A' <= d <= 'Z')
    ensures 'A' <= c <= 'Z' ==> 'a' <= d <= 'z'
    ensures 'A' <= c <= 'Z' || d == c
  {
    if 'A' <= c <= 'Z' then (c as int + 32) as char else c
  }

  /** `s.lowercased()`, character by character. */
  function Lower(s: string): (r: string)
    ensures |r| == |s|
    ensures forall i :: 0 <= i < |s| ==> r[i] == LowerChar(s[i])
  {
    if s == [] then [] else [LowerChar(s[0])] + Lower(s[1..])
  }

  predicate IsLower(s: string) {
    forall i :: 0 <= i < |s| ==> !('A' <= s[i] <= 'Z')
  }

  /** Lower-casing is idempotent, so a lookup of a lowered word lowers nothing further. */
  lemma LowerIdempotent(s: string)
    ensures IsLower(Lower(s))
    ensures Lower(Lower(s)) == Lower(s)
  {
  }

  lemma LowerOfLower(s: string)
    requires IsLower(s)
    ensures Lower(s) == s
  {
  }

  lemma LowerNoWildcards(p: string)
    requires NoWildcards(p)
    ensures NoWildcards(Lower(p))
  {
  }

  /** Lexicographic order on characters: the order `ORDER BY word` sorts by. */
  predicate LexLe(a: string, b: string): (le: bool)
    ensures a <= b ==> le
  {
    a == [] || (b != [] && (a[0] < b[0] || (a[0] == b[0] && LexLe(a[1..], b[1..]))))
  }

  lemma {:induction false} LexLeTotal(a: string, b: string)
    ensures LexLe(a, b) || LexLe(b, a)
  {
    if a != [] && b != [] && a[0] == b[0] {
      LexLeTotal(a[1..], b[1..]);
    }
  }

  lemma {:induction false} LexLeTransitive(a: string, b: string, c: string)
    requires LexLe(a, b) && LexLe(b, c)
    ensures LexLe(a, c)
  {
    if a != [] && a[0] == b[0] && b[0] == c[0] {
      LexLeTransitive(a[1..], b[1..], c[1..]);
    }
  }

  lemma {:induction false} LexLeAntisymmetric(a: string, b: string)
    requires LexLe(a, b) && LexLe(b, a)
    ensures a == b
  {
    if a != [] && b != [] {
      LexLeAntisymmetric(a[1..], b[1..]);
      assert a == [a[0]] + a[1..];
      assert b == [b[0]] + b[1..];
    }
  }

  /** SQLite's `s LIKE p` without an ESCAPE clause: `%` matches any run of characters, `_` any
      single character, and other characters match up to ASCII case. */
  predicate Like(s: string, p: string): (m: bool)
    ensures p == "%" ==> m
    ensures m && NoWildcards(p) ==> |s| == |p|
    decreases |s| + |p|
  {
    if p == [] then s == []
    else if p[0] == '%' then Like(s, p[1..]) || (s != [] && Like(s[1..], p))
    else s != [] && (p[0] == '_' || LowerChar(s[0]) == LowerChar(p[0])) && Like(s[1..], p[1..])
  }

  predicate NoWildcards(p: string) {
    forall i :: 0 <= i < |p| ==> p[i] != '%' && p[i] != '_'
  }

  /** For a pattern without wildcards, `s LIKE p` is equality up to ASCII case: the same length
      and the same characters once both are folded. */
  lemma {:induction false} LikeExact(s: string, p: string)
    requires NoWildcards(p)
    ensures Like(s, p) <==> |s| == |p| && forall i :: 0 <= i < |p| ==> LowerChar(s[i]) == LowerChar(p[i])
  {
    if p != [] && s != [] {
      LikeExact(s[1..], p[1..]);
      if |s| == |p| && LowerChar(s[0]) == LowerChar(p[0]) && Like(s[1..], p[1..]) {
        forall i | 1 <= i < |p|
          ensures LowerChar(s[i]) == LowerChar(p[i])
        {
          assert LowerChar(s[1..][i - 1]) == LowerChar(p[1..][i - 1]);
        }
      }
      if |s| == |p| && forall i :: 0 <= i < |p| ==> LowerChar(s[i]) == LowerChar(p[i]) {
        forall i | 0 <= i < |p| - 1
          ensures LowerChar(s[1..][i]) == LowerChar(p[1..][i])
        {
          assert LowerChar(s[i + 1]) == LowerChar(p[i + 1]);
        }
      }
    }
  }

  /** `p` is a prefix of `s` once both are lower-cased. */
  predicate FoldedPrefix(p: string, s: string) {
    |p| <= |s| && forall i :: 0 <= i < |p| ==> LowerChar(s[i]) == LowerChar(p[i])
  }

  /** For a pattern without wildcards, `s LIKE p || '%'` is a case-insensitive prefix test. */
  lemma {:induction false} LikePrefix(s: string, p: string)
    requires NoWildcards(p)
    ensures Like(s, p + "%") <==> FoldedPrefix(p, s)
  {
    if p == [] {
      assert p + "%" == "%";
    } else {
      var q := p + "%";
      assert q[0] == p[0];
      assert q[1..] == p[1..] + "%";
      if s != [] {
        LikePrefix(s[1..], p[1..]);
        if FoldedPrefix(p, s) {
          assert FoldedPrefix(p[1..], s[1..]) by {
            forall i | 0 <= i < |p| - 1
              ensures LowerChar(s[1..][i]) == LowerChar(p[1..][i])
            {
              assert LowerChar(s[i + 1]) == LowerChar(p[i + 1]);
            }
          }
        }
        if LowerChar(s[0]) == LowerChar(p[0]) && FoldedPrefix(p[1..], s[1..]) {
          forall i | 1 <= i < |p|
            ensures LowerChar(s[i]) == LowerChar(p[i])
          {
            assert LowerChar(s[1..][i - 1]) == LowerChar(p[1..][i - 1]);
          }
        }
      }
    }
  }

  /** Folded prefix testing against a lower-cased pattern is prefix testing on the lower-cased word. */
  lemma FoldedPrefixOfLower(p: string, s: string)
    ensures FoldedPrefix(Lower(p), s) <==> Lower(p) <= Lower(s)
  {
    if Lower(p) <= Lower(s) {
      assert forall i :: 0 <= i < |p| ==> Lower(p)[i] == Lower(s)[i];
    }
  }
}
