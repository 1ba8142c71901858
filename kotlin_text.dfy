/** The few Kotlin standard-library string operations the code fence
    provider calls: `repeat`, `commonPrefixWith`, `trim` and taking the
    first piece of `split(' ')`. */
module KotlinText {

  /** `" ".repeat(n)`. */
  function Spaces(n: nat): (s: string)
    ensures |s| == n
    ensures forall i :: 0 <= i < n ==> s[i] == ' '
  {
    if n == 0 then [] else Spaces(n - 1) + [' ']
  }

  /** The length of `a.commonPrefixWith(b)`: the longest prefix the two
      strings share. */
  function CommonPrefixLength(a: string, b: string): (n: nat)
    ensures n <= |a| && n <= |b|
    ensures a[..n] == b[..n]
    ensures n < |a| && n < |b| ==> a[n] != b[n]
  {
    if a == [] || b == [] || a[0] != b[0] then 0
    else
      var m := CommonPrefixLength(a[1..], b[1..]);
      assert a[..m + 1] == [a[0]] + a[1..][..m];
      assert b[..m + 1] == [b[0]] + b[1..][..m];
      m + 1
  }

  /** `Char.isWhitespace()` on the JVM: the ASCII controls tab to carriage
      return, the four information separators, and the Unicode space,
      line and paragraph separators. */
  predicate IsWhitespace(c: char)
  {
    || '\t' <= c <= '\r'
    || '\U{1C}' <= c <= '\U{1F}'
    || c == ' '
    || c == '\U{A0}'
    || c == '\U{1680}'
    || '\U{2000}' <= c <= '\U{200A}'
    || c == '\U{2028}' || c == '\U{2029}'
    || c == '\U{202F}' || c == '\U{205F}' || c == '\U{3000}'
  }

  /** `trimStart()`. */
  function TrimStart(s: string): string
  {
    if s != [] && IsWhitespace(s[0]) then TrimStart(s[1..]) else s
  }

  /** `trimStart()` drops the leading whitespace and nothing else. */
  lemma {:induction false} TrimStartDropsLeadingWhitespace(s: string)
    ensures var r := TrimStart(s);
            && |r| <= |s| && r == s[|s| - |r|..]
            && (forall i :: 0 <= i < |s| - |r| ==> IsWhitespace(s[i]))
            && (r != [] ==> !IsWhitespace(r[0]))
  {
    if s != [] && IsWhitespace(s[0]) {
      TrimStartDropsLeadingWhitespace(s[1..]);
      var r := TrimStart(s);
      assert forall i :: 1 <= i < |s| - |r| ==> s[i] == s[1..][i - 1];
    }
  }

  /** `trimEnd()`. */
  function TrimEnd(s: string): string
  {
    if s != [] && IsWhitespace(s[|s| - 1]) then TrimEnd(s[..|s| - 1]) else s
  }

  /** `trimEnd()` drops the trailing whitespace and nothing else. */
  lemma {:induction false} TrimEndDropsTrailingWhitespace(s: string)
    ensures var r := TrimEnd(s);
            && |r| <= |s| && r == s[..|r|]
            && (forall i :: |r| <= i < |s| ==> IsWhitespace(s[i]))
            && (r != [] ==> !IsWhitespace(r[|r| - 1]))
  {
    if s != [] && IsWhitespace(s[|s| - 1]) {
      var init := s[..|s| - 1];
      TrimEndDropsTrailingWhitespace(init);
      var r := TrimEnd(s);
      assert forall i :: |r| <= i < |s| - 1 ==> s[i] == init[i];
      assert r == init[..|r|] == s[..|r|];
    }
  }

  /** `r` occurs in `s` starting at index `k`. */
  predicate OccursAt(r: string, s: string, k: nat)
  {
    k + |r| <= |s| && s[k..k + |r|] == r
  }

  /** `trim()`: whitespace dropped at both ends. */
  function Trim(s: string): string
  {
    TrimEnd(TrimStart(s))
  }

  /** What `trim()` leaves is a piece of `s` that neither starts nor ends
      with whitespace, and it is empty exactly when `s` is all
      whitespace. */
  lemma {:induction false} TrimKeepsTheMiddle(s: string)
    ensures var r := Trim(s);
            && (r != [] ==> !IsWhitespace(r[0]) && !IsWhitespace(r[|r| - 1]))
            && |TrimStart(s)| <= |s| && OccursAt(r, s, |s| - |TrimStart(s)|)
            && (r == [] <==> forall i :: 0 <= i < |s| ==> IsWhitespace(s[i]))
  {
    var t := TrimStart(s);
    var r := TrimEnd(t);
    TrimStartDropsLeadingWhitespace(s);
    TrimEndDropsTrailingWhitespace(t);
    var k := |s| - |t|;
    assert r == s[k..][..|r|];
    assert r != [] ==> r[0] == t[0] == s[k];
  }

  /** `split(' ')[0]`: everything before the first space character. */
  function BeforeFirstSpace(s: string): string
  {
    if s == [] || s[0] == ' ' then [] else [s[0]] + BeforeFirstSpace(s[1..])
  }

  /** The piece is a prefix without spaces that runs up to the first space
      or the end. Only the space character splits: a tab stays inside the
      piece. */
  lemma {:induction false} BeforeFirstSpaceIsFirstPiece(s: string)
    ensures var r := BeforeFirstSpace(s);
            && r <= s
            && ' ' !in r
            && (|r| < |s| ==> s[|r|] == ' ')
  {
    if s != [] && s[0] != ' ' {
      BeforeFirstSpaceIsFirstPiece(s[1..]);
    }
  }
}
