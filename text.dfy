/**
 * The JavaScript string operations the components rely on: `trim`, the
 * UTF-16 `length`, `toLowerCase` and `includes`. A Dafny `char` is a Unicode
 * scalar value, so a character outside the Basic Multilingual Plane is one
 * `char` here and two UTF-16 code units in JavaScript.
 */
module Text {

  /** ECMAScript WhiteSpace and LineTerminator code points: what `trim` removes. */
  predicate IsJsSpace(c: char)
  {
    c == '\t' || c == '\n' || c == '\U{000B}' || c == '\U{000C}' || c == '\r' || c == ' ' ||
    c == '\U{00A0}' || c == '\U{1680}' || ('\U{2000}' <= c <= '\U{200A}') ||
    c == '\U{2028}' || c == '\U{2029}' || c == '\U{202F}' || c == '\U{205F}' ||
    c == '\U{3000}' || c == '\U{FEFF}'
  }

  /** The number of whitespace characters `s` starts with. */
  function LeadingSpaces(s: string): (i: nat)
    ensures i <= |s|
    ensures forall k :: 0 <= k < i ==> IsJsSpace(s[k])
    ensures i < |s| ==> !IsJsSpace(s[i])
  {
    if s != [] && IsJsSpace(s[0]) then
      var i := LeadingSpaces(s[1..]);
      assert forall k :: 1 <= k < 1 + i ==> s[k] == s[1..][k - 1];
      1 + i
    else 0
  }

  /** Where the whitespace `s` ends with begins. */
  function TrailingStart(s: string): (j: nat)
    ensures j <= |s|
    ensures forall k :: j <= k < |s| ==> IsJsSpace(s[k])
    ensures j > 0 ==> !IsJsSpace(s[j - 1])
  {
    if s != [] && IsJsSpace(s[|s| - 1]) then TrailingStart(s[..|s| - 1]) else |s|
  }

  /**
   * `s.trim()`: the slice of `s` between its leading and its trailing
   * whitespace; it neither starts nor ends with whitespace, and it is empty
   * exactly when `s` is all whitespace.
   */
  function Trim(s: string): (r: string)
    ensures r == [] <==> forall k :: 0 <= k < |s| ==> IsJsSpace(s[k])
    ensures r != [] ==> LeadingSpaces(s) < TrailingStart(s) && r == s[LeadingSpaces(s)..TrailingStart(s)]
    ensures r != [] ==> !IsJsSpace(r[0]) && !IsJsSpace(r[|r| - 1])
  {
    var i, j := LeadingSpaces(s), TrailingStart(s);
    if i == |s| then [] else
      assert !IsJsSpace(s[i]);
      assert i < j;
      s[i..j]
  }

  /** Trimming twice is trimming once. */
  lemma TrimIdempotent(s: string)
    ensures Trim(Trim(s)) == Trim(s)
  {
    var r := Trim(s);
    if r != [] {
      assert LeadingSpaces(r) == 0;
      assert TrailingStart(r) == |r|;
    }
  }

  /** The number of UTF-16 code units of `s`: what JavaScript's `length` counts. */
  function Utf16Length(s: string): (r: nat)
    ensures |s| <= r <= 2 * |s|
  {
    if s == [] then 0 else (if s[0] as int > 0xFFFF then 2 else 1) + Utf16Length(s[1..])
  }

  /** `toLowerCase` on one character, for the ASCII letters. */
  function LowerChar(c: char): (r: char)
    ensures 'A' <= c <= 'Z' ==> r as int == c as int + 32
    ensures !('A' <= c <= 'Z') ==> r == c
    ensures !('A' <= r <= 'Z')
  {
    if 'A' <= c <= 'Z' then (c as int + 32) as char else c
  }

  /** `s.toLowerCase()`, for the ASCII letters. */
  function Lower(s: string): string
  {
    seq(|s|, i requires 0 <= i < |s| => LowerChar(s[i]))
  }

  /** Lowering is character by character and lowering twice is lowering once. */
  lemma LowerIdempotent(s: string)
    ensures |Lower(s)| == |s|
    ensures Lower(Lower(s)) == Lower(s)
  {
  }

  predicate StartsWith(s: string, p: string)
  {
    |p| <= |s| && s[..|p|] == p
  }

  /** `hay.includes(needle)`. */
  predicate Includes(hay: string, needle: string)
  {
    StartsWith(hay, needle) || (hay != [] && Includes(hay[1..], needle))
  }

  /** `includes` holds exactly when `needle` occurs in `hay` at some offset. */
  lemma {:induction false} IncludesIff(hay: string, needle: string)
    ensures Includes(hay, needle) <==> exists i :: 0 <= i <= |hay| && StartsWith(hay[i..], needle)
  {
    assert hay[0..] == hay;
    if !StartsWith(hay, needle) && hay != [] {
      IncludesIff(hay[1..], needle);
      assert forall i :: 1 <= i <= |hay| ==> hay[i..] == hay[1..][i - 1..];
    }
  }

  /** The empty query is in every string. */
  lemma EmptyIsIncluded(hay: string)
    ensures Includes(hay, "")
  {
    assert StartsWith(hay, "");
  }
}
