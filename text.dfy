/** ASCII text operations used by the search filter and the highlighter:
    `toLowerCase` restricted to ASCII, and `includes`. */
module Text {

  /** `toLowerCase` on one character; only 'A'..'Z' change. */
  function LowerChar(c: char): (d: char)
    ensures !('A' <= d <= 'Z')
    ensures ('a' <= d <= 'z') <==> ('a' <= c <= 'z' || 'A' <= c <= 'Z')
    ensures 'A' <= c <= 'Z' ==> d as int == c as int + 32
    ensures 'A' <= c <= 'Z' || d == c
  {
    if 'A' <= c <= 'Z' then (c as int + 32) as char else c
  }

  /** `s.toLowerCase()` for ASCII strings. */
  function Lower(s: string): string
  {
    seq(|s|, i requires 0 <= i < |s| => LowerChar(s[i]))
  }

  /** `sub` occurs in `s` starting at position `i`. */
  predicate OccursAt(s: string, sub: string, i: int)
  {
    0 <= i && i + |sub| <= |s| && s[i..i + |sub|] == sub
  }

  /** `s.includes(sub)`: `sub` occurs in `s` at some position. */
  predicate Contains(s: string, sub: string)
  {
    exists i :: 0 <= i <= |s| - |sub| && OccursAt(s, sub, i)
  }

  /** `q` occurs in `t` at position `i` when case is ignored. */
  predicate MatchesAt(t: string, q: string, i: int)
  {
    0 <= i && i + |q| <= |t| && Lower(t[i..i + |q|]) == Lower(q)
  }

  /** Lower-casing commutes with taking a slice. */
  lemma LowerSlice(s: string, i: int, j: int)
    requires 0 <= i <= j <= |s|
    ensures Lower(s)[i..j] == Lower(s[i..j])
  {
    assert |Lower(s)[i..j]| == |Lower(s[i..j])|;
    forall k | 0 <= k < j - i
      ensures Lower(s)[i..j][k] == Lower(s[i..j])[k]
    {
    }
  }

  /** A text contains `q` case-insensitively exactly when some slice of it
      lower-cases to the lower-cased `q`; this is the notion of "occurrence"
      that the search filter and the highlighter share. */
  lemma ContainsLower(t: string, q: string)
    ensures Contains(Lower(t), Lower(q)) <==> exists i :: MatchesAt(t, q, i)
  {
    if Contains(Lower(t), Lower(q)) {
      var i :| 0 <= i <= |Lower(t)| - |Lower(q)| && OccursAt(Lower(t), Lower(q), i);
      assert |Lower(t)| == |t| && |Lower(q)| == |q|;
      LowerSlice(t, i, i + |q|);
      assert MatchesAt(t, q, i);
    }
    if exists i :: MatchesAt(t, q, i) {
      var i :| MatchesAt(t, q, i);
      LowerSlice(t, i, i + |q|);
      assert OccursAt(Lower(t), Lower(q), i);
    }
  }
}
