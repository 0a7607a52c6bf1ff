/**
 * The whitespace that JavaScript's `String.prototype.trim` removes: the
 * WhiteSpace code points of ECMA-262 section 12.2 and the LineTerminator code
 * points of section 12.3, and `trim` itself as a strip of both ends.
 */
module JsWhiteSpace {

  /** Unicode general category Zs (space separators). */
  predicate IsSpaceSeparator(c: char) {
    c == '\U{0020}' || c == '\U{00A0}' || c == '\U{1680}' ||
    ('\U{2000}' <= c <= '\U{200A}') ||
    c == '\U{202F}' || c == '\U{205F}' || c == '\U{3000}'
  }

  /** ECMA-262 section 12.2, WhiteSpace: TAB, VT, FF, ZWNBSP and every Zs code point. */
  predicate IsWhiteSpace(c: char) {
    c == '\U{0009}' || c == '\U{000B}' || c == '\U{000C}' || c == '\U{FEFF}' ||
    IsSpaceSeparator(c)
  }

  /** ECMA-262 section 12.3, LineTerminator: LF, CR, LS and PS. */
  predicate IsLineTerminator(c: char) {
    c == '\U{000A}' || c == '\U{000D}' || c == '\U{2028}' || c == '\U{2029}'
  }

  /** A code point that `trim` strips. */
  predicate IsWs(c: char) {
    IsWhiteSpace(c) || IsLineTerminator(c)
  }

  /** Every character of `s` is whitespace (the empty string included). */
  predicate Blank(s: string) {
    forall i :: 0 <= i < |s| ==> IsWs(s[i])
  }

  /** Removes the leading whitespace: the result is the suffix of `s` after a whitespace run. */
  function TrimStart(s: string): (r: string)
    ensures |r| <= |s| && r == s[|s| - |r|..]
    ensures forall i :: 0 <= i < |s| - |r| ==> IsWs(s[i])
    ensures r != [] ==> !IsWs(r[0])
    decreases |s|
  {
    if s != [] && IsWs(s[0]) then TrimStart(s[1..]) else s
  }

  /** Removes the trailing whitespace: the result is the prefix of `s` before a whitespace run. */
  function TrimEnd(s: string): (r: string)
    ensures |r| <= |s| && r == s[..|r|]
    ensures forall i :: |r| <= i < |s| ==> IsWs(s[i])
    ensures r != [] ==> !IsWs(r[|r| - 1])
    decreases |s|
  {
    if s != [] && IsWs(s[|s| - 1]) then TrimEnd(s[..|s| - 1]) else s
  }

  /**
   * `s.trim()`: `s` without its leading and trailing whitespace runs. Its
   * result is empty exactly when `s` is blank, and otherwise neither starts
   * nor ends with whitespace.
   */
  function Trim(s: string): (r: string)
    ensures exists a, b :: 0 <= a <= b <= |s| && r == s[a..b] && Blank(s[..a]) && Blank(s[b..])
    ensures |r| <= |s|
    ensures r == [] <==> Blank(s)
    ensures r != [] ==> !IsWs(r[0]) && !IsWs(r[|r| - 1])
  {
    TrimIsSlice(s);
    TrimEnd(TrimStart(s))
  }

  /** Trimming keeps a slice `s[a..b]` whose surroundings `s[..a]` and `s[b..]` are blank. */
  lemma TrimIsSlice(s: string)
    ensures var r := TrimEnd(TrimStart(s));
            exists a, b :: 0 <= a <= b <= |s| && r == s[a..b] && Blank(s[..a]) && Blank(s[b..])
  {
    var t := TrimStart(s);
    var r := TrimEnd(t);
    var a := |s| - |t|;
    var b := a + |r|;
    Slices(s, a, |r|);
    assert Blank(s[..a]) by {
      forall i | 0 <= i < a ensures IsWs(s[..a][i]) {
        assert s[..a][i] == s[i];
      }
    }
    assert Blank(s[b..]) by {
      forall i | 0 <= i < |s| - b ensures IsWs(s[b..][i]) {
        assert s[b..][i] == t[|r| + i];
      }
    }
    assert 0 <= a <= b <= |s| && r == s[a..b] && Blank(s[..a]) && Blank(s[b..]);
  }

  /** Taking a prefix or a suffix of a suffix; kept generic so that the proof stays small. */
  lemma Slices<T>(s: seq<T>, a: nat, k: nat)
    requires a + k <= |s|
    ensures s[a..][..k] == s[a..a + k]
    ensures s[a..][k..] == s[a + k..]
  {
  }
}
