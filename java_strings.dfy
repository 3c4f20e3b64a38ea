/** The string operations of `java.lang.String` and Apache Commons Lang `StringUtils` that the
    handlers use, on `string` = `seq<char>`. Case mapping covers ASCII letters only. */
module JavaStrings {
  import opened Wrappers
  import Lists

  /** `Character.isWhitespace`: Unicode space separators other than the no-break spaces,
      and the ASCII controls TAB, LF, VT, FF, CR and FS..US. */
  predicate IsWhitespace(c: char) {
    var n := c as int;
    n == 0x20 || 0x09 <= n <= 0x0D || 0x1C <= n <= 0x1F ||
    n == 0x1680 || 0x2000 <= n <= 0x2006 || 0x2008 <= n <= 0x200A ||
    n == 0x2028 || n == 0x2029 || n == 0x205F || n == 0x3000
  }

  /** `StringUtils.isBlank` on a non-null string: empty or only whitespace. */
  predicate IsBlank(s: string) {
    forall i :: 0 <= i < |s| ==> IsWhitespace(s[i])
  }

  /** `StringUtils.isBlank`: null, empty or only whitespace. */
  predicate IsBlankOrNull(s: Option<string>) {
    s.None? || IsBlank(s.value)
  }

  /** What `String.trim` strips: every character at or below U+0020. */
  predicate IsTrimmed(c: char) {
    c <= ' '
  }

  /** Drops the leading characters that `String.trim` strips. */
  function TrimStart(s: string): (r: string)
    ensures |r| <= |s| && r == s[|s| - |r|..]
    ensures forall k :: 0 <= k < |s| - |r| ==> IsTrimmed(s[k])
    ensures |r| > 0 ==> !IsTrimmed(r[0])
  {
    if |s| > 0 && IsTrimmed(s[0]) then TrimStart(s[1..]) else s
  }

  /** Drops the trailing characters that `String.trim` strips. */
  function TrimEnd(s: string): (r: string)
    ensures |r| <= |s| && r == s[..|r|]
    ensures forall k :: |r| <= k < |s| ==> IsTrimmed(s[k])
    ensures |r| > 0 ==> !IsTrimmed(r[|r| - 1])
  {
    if |s| > 0 && IsTrimmed(s[|s| - 1]) then TrimEnd(s[..|s| - 1]) else s
  }

  /** Whether `r` is `s` from position `start` on, with only characters at or below U+0020
      around it. */
  predicate StrippedAround(s: string, r: string, start: nat) {
    start + |r| <= |s| && r == s[start..start + |r|] &&
    (forall k :: 0 <= k < start ==> IsTrimmed(s[k])) &&
    (forall k :: start + |r| <= k < |s| ==> IsTrimmed(s[k]))
  }

  /** `String.trim`: the longest infix that neither starts nor ends with a character at or below U+0020. */
  function Trim(s: string): (r: string)
    ensures exists start :: StrippedAround(s, r, start)
    ensures |r| > 0 ==> !IsTrimmed(r[0]) && !IsTrimmed(r[|r| - 1])
  {
    var front := TrimStart(s);
    var start := |s| - |front|;
    var r := TrimEnd(front);
    assert r == s[start..start + |r|];
    assert forall k :: start + |r| <= k < |s| ==> s[k] == front[k - start];
    assert StrippedAround(s, r, start);
    r
  }

  /** `Character.toUpperCase`, restricted to ASCII letters. */
  function ToUpper(c: char): char {
    if 'a' <= c <= 'z' then (c as int - 32) as char else c
  }

  /** One character step of `String.equalsIgnoreCase`. */
  predicate CharEqualsIgnoreCase(a: char, b: char) {
    a == b || ToUpper(a) == ToUpper(b)
  }

  /** `String.equalsIgnoreCase` on non-null strings. */
  predicate EqualsIgnoreCase(a: string, b: string) {
    |a| == |b| && forall i :: 0 <= i < |a| ==> CharEqualsIgnoreCase(a[i], b[i])
  }

  /** `StringUtils.startsWithIgnoreCase` on non-null strings. */
  predicate StartsWithIgnoreCase(s: string, prefix: string) {
    |prefix| <= |s| && EqualsIgnoreCase(s[..|prefix|], prefix)
  }

  /** `StringUtils.substringAfter(s, String.valueOf(sep))`: what follows the first `sep`,
      or the empty string when `sep` does not occur. */
  function SubstringAfter(s: string, sep: char): (r: string)
  {
    var i := Lists.IndexOf(s, sep);
    if i < 0 then "" else s[i + 1..]
  }

  /** What follows the first `sep` is what follows position `i` when `i` holds the first `sep`. */
  lemma SubstringAfterAt(s: string, sep: char, i: nat)
    requires i < |s| && s[i] == sep && sep !in s[..i]
    ensures SubstringAfter(s, sep) == s[i + 1..]
  {
    var j := Lists.IndexOf(s, sep);
    assert s[i] in s[..j] || j <= i;
    assert s[j] in s[..i] || i <= j;
  }

  /** `StringUtils.join(values, sep)` for non-null values. */
  function Join(values: seq<string>, sep: string): (r: string)
  {
    if |values| == 0 then ""
    else if |values| == 1 then values[0]
    else values[0] + sep + Join(values[1..], sep)
  }
}
