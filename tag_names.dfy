/** How the server normalises and bounds a tag name before looking it up
    (server/src/controllers/tag.controller.ts, addTagToPlaylist): lower-case,
    then trim, then require a length from 2 to 20. */
module TagNames {

  /** The characters ECMAScript's String.prototype.trim strips: the
      WhiteSpace and LineTerminator code points. */
  predicate IsWhitespace(c: char) {
    || c == '\t' || c == '\n' || c == '\U{B}' || c == '\U{C}' || c == '\r' || c == ' '
    || c == '\U{A0}' || c == '\U{1680}' || ('\U{2000}' <= c <= '\U{200A}')
    || c == '\U{2028}' || c == '\U{2029}' || c == '\U{202F}' || c == '\U{205F}'
    || c == '\U{3000}' || c == '\U{FEFF}'
  }

  predicate IsUpper(c: char) {
    'A' <= c <= 'Z'
  }

  /** Lower-casing of one character, restricted to ASCII letters. What it
      does to each character is `LowerCharMapsLetters`. */
  function LowerChar(c: char): (r: char)
    ensures !IsUpper(r)
    ensures IsWhitespace(r) <==> IsWhitespace(c)
  {
    if IsUpper(c) then (c as int + 32) as char else c
  }

  /** An upper-case ASCII letter becomes the lower-case letter at the same
      place in the alphabet; every other character is kept. */
  lemma LowerCharMapsLetters(c: char)
    ensures !IsUpper(c) ==> LowerChar(c) == c
    ensures IsUpper(c) ==> 'a' <= LowerChar(c) <= 'z' && LowerChar(c) as int - 'a' as int == c as int - 'A' as int
  {
  }

  /** `toLowerCase`, character by character (`ToLowerPointwise`). */
  function ToLower(s: string): (r: string)
    ensures |r| == |s|
  {
    seq(|s|, i requires 0 <= i < |s| => LowerChar(s[i]))
  }

  /** Lower-casing keeps every position and lower-cases the character there. */
  lemma ToLowerPointwise(s: string)
    ensures forall i :: 0 <= i < |s| ==> ToLower(s)[i] == LowerChar(s[i])
  {
  }

  /** The number of whitespace characters `s` starts with. */
  function LeadingWhitespace(s: string): (c: nat)
    ensures c <= |s|
    ensures forall i :: 0 <= i < c ==> IsWhitespace(s[i])
    ensures c == |s| || !IsWhitespace(s[c])
  {
    if s != [] && IsWhitespace(s[0]) then
      var c := 1 + LeadingWhitespace(s[1..]);
      assert forall i :: 1 <= i < c ==> s[i] == s[1..][i - 1];
      c
    else 0
  }

  /** The number of whitespace characters `s` ends with. */
  function TrailingWhitespace(s: string): (c: nat)
    ensures c <= |s|
    ensures forall i :: |s| - c <= i < |s| ==> IsWhitespace(s[i])
    ensures c == |s| || !IsWhitespace(s[|s| - c - 1])
  {
    if s != [] && IsWhitespace(s[|s| - 1]) then
      var c := 1 + TrailingWhitespace(s[..|s| - 1]);
      assert forall i :: |s| - c <= i < |s| - 1 ==> s[i] == s[..|s| - 1][i];
      c
    else 0
  }

  /** `s` without its longest whitespace prefix (`trimStart`). */
  function TrimStart(s: string): (r: string)
    ensures |r| <= |s| && r == s[|s| - |r|..]
    ensures forall i :: 0 <= i < |s| - |r| ==> IsWhitespace(s[i])
    ensures r == [] || !IsWhitespace(r[0])
  {
    s[LeadingWhitespace(s)..]
  }

  /** `s` without its longest whitespace suffix (`trimEnd`). */
  function TrimEnd(s: string): (r: string)
    ensures |r| <= |s| && r == s[..|r|]
    ensures forall i :: |r| <= i < |s| ==> IsWhitespace(s[i])
    ensures r == [] || !IsWhitespace(r[|r| - 1])
  {
    s[..|s| - TrailingWhitespace(s)]
  }

  function Trim(s: string): string {
    TrimEnd(TrimStart(s))
  }

  /** `name.toLowerCase().trim()`: no upper-case letter, and no longer
      than the name. */
  function NormalizeTagName(name: string): (n: string)
    ensures forall i :: 0 <= i < |n| ==> !IsUpper(n[i])
    ensures |n| <= |name|
  {
    var lowered := ToLower(name);
    var t := TrimStart(lowered);
    var n := TrimEnd(t);
    assert forall i :: 0 <= i < |n| ==> n[i] == lowered[|lowered| - |t| + i];
    n
  }

  /** A normalised name has no whitespace at either end. */
  lemma NormalizedIsTrimmed(name: string)
    ensures var n := NormalizeTagName(name);
            n == [] || (!IsWhitespace(n[0]) && !IsWhitespace(n[|n| - 1]))
  {
    var t := TrimStart(ToLower(name));
    var n := TrimEnd(t);
    assert n == [] || n[0] == t[0];
  }

  /** What `name.toLowerCase().trim()` is: a slice `[a..b]` of the
      lower-cased name such that everything of `name` outside it is
      whitespace. With `NormalizedIsTrimmed` (no whitespace at either end of
      the slice) this determines the result. */
  lemma {:induction false} NormalizeIsLoweredSlice(name: string)
    ensures var n := NormalizeTagName(name);
            exists a, b :: 0 <= a <= b <= |name| && n == ToLower(name)[a..b]
                           && (forall i :: 0 <= i < a ==> IsWhitespace(name[i]))
                           && (forall i :: b <= i < |name| ==> IsWhitespace(name[i]))
  {
    var lowered := ToLower(name);
    var t := TrimStart(lowered);
    var n := TrimEnd(t);
    var a, b := |lowered| - |t|, |lowered| - |t| + |n|;
    ToLowerPointwise(name);
    assert n == lowered[a..b] by {
      forall k | 0 <= k < |n| ensures n[k] == lowered[a..b][k] {
        assert n[k] == t[k];
      }
    }
    forall i | 0 <= i < a ensures IsWhitespace(name[i]) {
      assert IsWhitespace(lowered[i]);
    }
    forall i | b <= i < |name| ensures IsWhitespace(name[i]) {
      assert IsWhitespace(t[i - a]);
    }
    assert 0 <= a <= b <= |name| && n == ToLower(name)[a..b];
  }

  /** The accepted length of a normalised tag name. */
  predicate ValidTagNameLength(n: string) {
    2 <= |n| <= 20
  }

  lemma TrimOfTrimmed(s: string)
    requires s == [] || (!IsWhitespace(s[0]) && !IsWhitespace(s[|s| - 1]))
    ensures Trim(s) == s
  {
    assert TrimStart(s) == s;
  }

  /** Normalising a normalised name changes nothing: stored names are
      fixed points, so equality on them is the lookup's case-insensitive match. */
  lemma NormalizeIdempotent(name: string)
    ensures NormalizeTagName(NormalizeTagName(name)) == NormalizeTagName(name)
  {
    var n := NormalizeTagName(name);
    assert ToLower(n) == n;
    NormalizedIsTrimmed(name);
    TrimOfTrimmed(n);
  }
}
