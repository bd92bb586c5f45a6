/** The Python `str` methods the export parser applies to header names and
    flag cells -- `strip()`, `lower()`, `upper()` and `replace(' ', '_')` --
    restricted to ASCII, and the header normalisation built from them. */
module AsciiText {

  /** `str.isspace()` on ASCII: tab, line feed, vertical tab, form feed,
      carriage return, the four separators 0x1C-0x1F, and the space. */
  predicate IsSpace(c: char) {
    var n := c as int;
    n == 32 || 9 <= n <= 13 || 28 <= n <= 31
  }

  predicate IsUpper(c: char) { 'A' <= c <= 'Z' }

  predicate IsLower(c: char) { 'a' <= c <= 'z' }

  function LowerChar(c: char): (d: char)
    ensures !IsUpper(d)
    ensures IsUpper(c) ==> IsLower(d) && d as int == c as int + 32
    ensures !IsUpper(c) ==> d == c
  {
    if IsUpper(c) then (c as int + 32) as char else c
  }

  function UpperChar(c: char): (d: char)
    ensures !IsLower(d)
    ensures IsLower(c) ==> IsUpper(d) && d as int == c as int - 32
    ensures !IsLower(c) ==> d == c
  {
    if IsLower(c) then (c as int - 32) as char else c
  }

  /** `s.lower()`: every upper-case letter becomes its lower-case partner,
      every other character is kept. */
  function Lower(s: string): (r: string)
    ensures |r| == |s|
    ensures forall i :: 0 <= i < |s| ==> r[i] == LowerChar(s[i])
  {
    if s == [] then [] else [LowerChar(s[0])] + Lower(s[1..])
  }

  /** `s.upper()`. */
  function Upper(s: string): (r: string)
    ensures |r| == |s|
    ensures forall i :: 0 <= i < |s| ==> r[i] == UpperChar(s[i])
  {
    if s == [] then [] else [UpperChar(s[0])] + Upper(s[1..])
  }

  /** `s.replace(' ', '_')`. */
  function ReplaceSpaces(s: string): (r: string)
    ensures |r| == |s|
    ensures forall i :: 0 <= i < |s| ==> r[i] == (if s[i] == ' ' then '_' else s[i])
  {
    if s == [] then [] else [if s[0] == ' ' then '_' else s[0]] + ReplaceSpaces(s[1..])
  }

  /** `s.lstrip()`: the longest suffix of `s` that does not start with
      whitespace; everything dropped is whitespace. */
  function StripLeft(s: string): (r: string)
    ensures |r| <= |s| && r == s[|s| - |r|..]
    ensures forall i :: 0 <= i < |s| - |r| ==> IsSpace(s[i])
    ensures r != [] ==> !IsSpace(r[0])
  {
    if s != [] && IsSpace(s[0]) then StripLeft(s[1..]) else s
  }

  /** `s.rstrip()`. */
  function StripRight(s: string): (r: string)
    ensures |r| <= |s| && r == s[..|r|]
    ensures forall i :: |r| <= i < |s| ==> IsSpace(s[i])
    ensures r != [] ==> !IsSpace(r[|r| - 1])
  {
    if s != [] && IsSpace(s[|s| - 1]) then StripRight(s[..|s| - 1]) else s
  }

  /** `r` is `s` with `k` characters cut at the front and the rest of what
      follows `r` cut at the back, every cut character being whitespace. */
  ghost predicate TrimmedAt(s: string, k: nat, r: string) {
    k + |r| <= |s| && r == s[k..k + |r|]
    && (forall i :: 0 <= i < k ==> IsSpace(s[i]))
    && (forall i :: k + |r| <= i < |s| ==> IsSpace(s[i]))
  }

  /** `s.strip()`: a slice of `s` cut only at whitespace, neither of whose
      ends is whitespace. */
  function Strip(s: string): (r: string)
    ensures exists k :: TrimmedAt(s, k, r)
    ensures |r| <= |s|
    ensures r != [] ==> !IsSpace(r[0]) && !IsSpace(r[|r| - 1])
  {
    var left := StripLeft(s);
    var k := |s| - |left|;
    var r := StripRight(left);
    assert TrimmedAt(s, k, r);
    r
  }

  /** A string with no whitespace at either end is its own `strip()`. */
  lemma {:induction false} StripTrimmed(s: string)
    requires s != [] ==> !IsSpace(s[0]) && !IsSpace(s[|s| - 1])
    ensures Strip(s) == s
  {
    assert StripLeft(s) == s;
    assert StripRight(s) == s;
  }

  /** The header normalisation of the parser:
      `str.strip().str.lower().str.replace(' ', '_')`. The result holds no
      space and no upper-case letter, and has no whitespace at either end. */
  function NormalizeHeader(h: string): (r: string)
    ensures |r| <= |h|
    ensures forall i :: 0 <= i < |r| ==> r[i] != ' ' && !IsUpper(r[i])
    ensures r != [] ==> !IsSpace(r[0]) && !IsSpace(r[|r| - 1])
  {
    CaseAndSpaces(Strip(h));
    ReplaceSpaces(Lower(Strip(h)))
  }

  /** Lower-casing and replacing spaces keep the length, leave no space and
      no upper-case letter, and keep non-whitespace ends non-whitespace. */
  lemma CaseAndSpaces(s: string)
    requires s != [] ==> !IsSpace(s[0]) && !IsSpace(s[|s| - 1])
    ensures var r := ReplaceSpaces(Lower(s));
            |r| == |s|
            && (forall i :: 0 <= i < |r| ==> r[i] != ' ' && !IsUpper(r[i]))
            && (r != [] ==> !IsSpace(r[0]) && !IsSpace(r[|r| - 1]))
  {
  }

  /** A string with no space, no upper-case letter and no whitespace at
      either end is left unchanged by header normalisation. */
  lemma {:induction false} NormalizeHeaderFixes(s: string)
    requires forall i :: 0 <= i < |s| ==> s[i] != ' ' && !IsUpper(s[i])
    requires s != [] ==> !IsSpace(s[0]) && !IsSpace(s[|s| - 1])
    ensures NormalizeHeader(s) == s
  {
    assert Strip(s) == s by { StripTrimmed(s); }
    assert Lower(s) == s by { LowerFixed(s); }
    assert ReplaceSpaces(s) == s by { ReplaceSpacesFixed(s); }
  }

  lemma LowerFixed(s: string)
    requires forall i :: 0 <= i < |s| ==> !IsUpper(s[i])
    ensures Lower(s) == s
  {
  }

  lemma ReplaceSpacesFixed(s: string)
    requires forall i :: 0 <= i < |s| ==> s[i] != ' '
    ensures ReplaceSpaces(s) == s
  {
  }

  /** Normalising a normalised header changes nothing. */
  lemma {:induction false} NormalizeHeaderIdempotent(h: string)
    ensures NormalizeHeader(NormalizeHeader(h)) == NormalizeHeader(h)
  {
    NormalizeHeaderFixes(NormalizeHeader(h));
  }

  /** A name made only of lower-case letters and underscores, as every
      spelling in the parser's column table is. */
  predicate IsPlainName(s: string) {
    forall i :: 0 <= i < |s| ==> IsLower(s[i]) || s[i] == '_'
  }

  /** A plain name survives header normalisation unchanged. */
  lemma {:induction false} PlainNameIsNormal(s: string)
    requires IsPlainName(s)
    ensures NormalizeHeader(s) == s
  {
    NormalizeHeaderFixes(s);
  }

  /** Upper-casing twice is upper-casing once. */
  lemma {:induction false} UpperIdempotent(s: string)
    ensures Upper(Upper(s)) == Upper(s)
  {
    assert forall i :: 0 <= i < |s| ==> UpperChar(UpperChar(s[i])) == UpperChar(s[i]);
  }

  /** The spellings `yes`, `Yes` and `YES` of a flag all read as `YES`. */
  lemma YesSpellings()
    ensures Upper("yes") == Upper("Yes") == Upper("YES") == "YES"
  {
  }
}
