/** The string operations the search boxes and the list editors rely on:
    `toLowerCase`, `includes` and `trim`, restricted to ASCII. */
module Text {

  predicate IsUpper(c: char) {
    'A' <= c <= 'Z'
  }

  /** `toLowerCase` on one character: ASCII capitals map to their small
      letters, every other character is kept. */
  function LowerChar(c: char): (d: char)
    ensures !IsUpper(d)
    ensures IsUpper(c) ==> d as int - c as int == 'a' as int - 'A' as int
    ensures !IsUpper(c) ==> d == c
  {
    if IsUpper(c) then (c as int - 'A' as int + 'a' as int) as char else c
  }

  /** `s.toLowerCase()`, character by character. */
  function Lower(s: string): (r: string)
    ensures |r| == |s|
    ensures forall i | 0 <= i < |s| :: r[i] == LowerChar(s[i])
    ensures forall i | 0 <= i < |r| :: !IsUpper(r[i])
  {
    seq(|s|, i requires 0 <= i < |s| => LowerChar(s[i]))
  }

  /** Lowercasing twice is lowercasing once. */
  lemma LowerIdempotent(s: string)
    ensures Lower(Lower(s)) == Lower(s)
  {
  }

  /** `needle` occurs in `hay` starting at position `i`. */
  predicate OccursAt(hay: string, needle: string, i: int) {
    0 <= i && i + |needle| <= |hay| && hay[i..i + |needle|] == needle
  }

  /** `hay.includes(needle)`: some position of `hay` starts a copy of
      `needle`. The empty needle occurs everywhere. */
  function Contains(hay: string, needle: string): (b: bool)
    ensures b <==> exists i :: OccursAt(hay, needle, i)
    decreases |hay|
  {
    if needle <= hay then
      assert OccursAt(hay, needle, 0);
      true
    else if |hay| == 0 then
      false
    else
      ContainsStep(hay, needle);
      Contains(hay[1..], needle)
  }

  /** An occurrence past the first position of `hay` is an occurrence in its
      tail, one position earlier. */
  lemma ContainsStep(hay: string, needle: string)
    requires |hay| > 0 && !(needle <= hay)
    ensures (exists i :: OccursAt(hay, needle, i)) <==> (exists i :: OccursAt(hay[1..], needle, i))
  {
    if exists i :: OccursAt(hay, needle, i) {
      var i :| OccursAt(hay, needle, i);
      assert hay[1..][i - 1..i - 1 + |needle|] == hay[i..i + |needle|];
      assert OccursAt(hay[1..], needle, i - 1);
    }
    if exists i :: OccursAt(hay[1..], needle, i) {
      var i :| OccursAt(hay[1..], needle, i);
      assert hay[1..][i..i + |needle|] == hay[i + 1..i + 1 + |needle|];
      assert OccursAt(hay, needle, i + 1);
    }
  }

  /** A needle holding a character that the haystack lacks is not found. */
  lemma MissingCharNotContained(hay: string, needle: string, c: char)
    requires c in needle && c !in hay
    ensures !Contains(hay, needle)
  {
    var k :| 0 <= k < |needle| && needle[k] == c;
    forall i ensures !OccursAt(hay, needle, i) {
      if 0 <= i && i + |needle| <= |hay| {
        assert hay[i..i + |needle|][k] == hay[i + k];
      }
    }
  }

  /** The characters `trim` removes, restricted to ASCII: tab, line feed,
      vertical tab, form feed, carriage return and space. */
  predicate IsWhitespace(c: char) {
    c == ' ' || c == '\t' || c == '\n' || c == '\r' || c as int == 0x0B || c as int == 0x0C
  }

  /** Every character of `s` is whitespace (the empty string included). */
  predicate IsBlank(s: string) {
    forall i | 0 <= i < |s| :: IsWhitespace(s[i])
  }

  /** `s` neither starts nor ends with whitespace. */
  predicate IsTrimmed(s: string) {
    |s| == 0 || (!IsWhitespace(s[0]) && !IsWhitespace(s[|s| - 1]))
  }

  /** The first position at or after `k` that does not hold whitespace, or
      `|s|` when there is none. */
  function SkipBlanks(s: string, k: nat): (j: nat)
    requires k <= |s|
    ensures k <= j <= |s|
    ensures forall m | k <= m < j :: IsWhitespace(s[m])
    ensures j == |s| || !IsWhitespace(s[j])
    decreases |s| - k
  {
    if k < |s| && IsWhitespace(s[k]) then SkipBlanks(s, k + 1) else k
  }

  /** The position just after the last character in `s[lo..e]` that is not
      whitespace, or `lo` when there is none. */
  function SkipBlanksBack(s: string, lo: nat, e: nat): (j: nat)
    requires lo <= e <= |s|
    ensures lo <= j <= e
    ensures forall m | j <= m < e :: IsWhitespace(s[m])
    ensures j == lo || !IsWhitespace(s[j - 1])
    decreases e
  {
    if lo < e && IsWhitespace(s[e - 1]) then SkipBlanksBack(s, lo, e - 1) else e
  }

  /** `s.trim()`: the longest infix of `s` that neither starts nor ends with
      whitespace, obtained by dropping only whitespace on both sides. */
  function Trim(s: string): (r: string)
    ensures IsTrimmed(r)
    ensures exists i :: OccursAt(s, r, i) && IsBlank(s[..i]) && IsBlank(s[i + |r|..])
    ensures |r| == 0 <==> IsBlank(s)
  {
    var a := SkipBlanks(s, 0);
    var e := SkipBlanksBack(s, a, |s|);
    TrimFacts(s, a, e);
    s[a..e]
  }

  /** What trimming keeps and drops, given the two positions where the text
      between the surrounding whitespace starts and ends. */
  lemma TrimFacts(s: string, a: nat, e: nat)
    requires a <= e <= |s|
    requires forall m | 0 <= m < a :: IsWhitespace(s[m])
    requires forall m | e <= m < |s| :: IsWhitespace(s[m])
    requires a == |s| || !IsWhitespace(s[a])
    requires e == a || !IsWhitespace(s[e - 1])
    ensures IsTrimmed(s[a..e])
    ensures OccursAt(s, s[a..e], a)
    ensures IsBlank(s[..a]) && IsBlank(s[e..])
    ensures e == a <==> IsBlank(s)
  {
    if e > a {
      assert s[a..e][0] == s[a];
      assert s[a..e][e - a - 1] == s[e - 1];
    }
    assert IsBlank(s[..a]) by {
      forall m | 0 <= m < a ensures IsWhitespace(s[..a][m]) {
        assert s[..a][m] == s[m];
      }
    }
    assert IsBlank(s[e..]) by {
      forall m | 0 <= m < |s| - e ensures IsWhitespace(s[e..][m]) {
        assert s[e..][m] == s[e + m];
      }
    }
  }

  /** Trimming a trimmed string changes nothing; in particular `trim` is
      idempotent. */
  lemma {:induction false} TrimOfTrimmed(s: string)
    requires IsTrimmed(s)
    ensures Trim(s) == s
  {
    assert SkipBlanks(s, 0) == 0;
    assert SkipBlanksBack(s, 0, |s|) == |s|;
    assert s[0..|s|] == s;
  }
}
