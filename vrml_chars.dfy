/**
 * Character classes of the classic VRML token table
 * (docs/assets/playground/playground.mjs:470-471), and the greedy
 * "longest run" that every `[...]*` and `[...]+` of that table performs.
 */
module VrmlChars {

  predicate IsDigit(c: char) { '0' <= c <= '9' }

  predicate IsHexDigit(c: char) { IsDigit(c) || 'a' <= c <= 'f' || 'A' <= c <= 'F' }

  /** The characters `\s` stands for in a JavaScript regular expression. */
  predicate IsSpace(c: char)
  {
    c == '\t' || c == '\n' || c == '\U{0B}' || c == '\U{0C}' || c == '\r' || c == ' '
    || c == '\U{A0}' || c == '\U{1680}' || '\U{2000}' <= c <= '\U{200A}'
    || c == '\U{2028}' || c == '\U{2029}' || c == '\U{202F}' || c == '\U{205F}'
    || c == '\U{3000}' || c == '\U{FEFF}'
  }

  /** The characters `.` does not match in a JavaScript regular expression. */
  predicate IsLineTerminator(c: char)
  {
    c == '\n' || c == '\r' || c == '\U{2028}' || c == '\U{2029}'
  }

  predicate NotLineTerminator(c: char) { !IsLineTerminator(c) }

  /**
   * First character of an identifier: the VRML97 IdFirstChar production,
   * `[^\x30-\x39\x00-\x20\x22\x23\x27\x2b\x2c\x2d\x2e\x5b\x5c\x5d\x7b\x7d\x7f]`.
   */
  predicate IsIdFirst(c: char)
  {
    !(IsDigit(c) || c <= ' ' || c in "\"#'+,-.[\\]{}" || c == '\U{7F}')
  }

  /**
   * Any later character of an identifier: the VRML97 IdRestChars production,
   * `[^\x00-\x20\x22\x23\x27\x2c\x2e\x5b\x5c\x5d\x7b\x7d\x7f]`.
   */
  predicate IsIdRest(c: char)
  {
    !(c <= ' ' || c in "\"#',.[\\]{}" || c == '\U{7F}')
  }

  /** A whole identifier, the language of `@id`. */
  predicate IsId(w: string)
  {
    |w| > 0 && IsIdFirst(w[0]) && forall i :: 1 <= i < |w| ==> IsIdRest(w[i])
  }

  predicate AllSpace(w: string)
  {
    forall i :: 0 <= i < |w| ==> IsSpace(w[i])
  }

  /** Length of the longest prefix of `s` whose characters all satisfy `p`. */
  function Span(s: string, p: char -> bool): (n: nat)
    ensures n <= |s|
    ensures forall i :: 0 <= i < n ==> p(s[i])
    ensures n < |s| ==> !p(s[n])
    decreases |s|
  {
    if s != [] && p(s[0]) then 1 + Span(s[1..], p) else 0
  }

  /** Length of the identifier `@id` takes at the start of `s`; 0 when none starts there. */
  function IdLen(s: string): (n: nat)
    ensures n <= |s|
    ensures n > 0 <==> s != [] && IsIdFirst(s[0])
    ensures n > 0 ==> IsId(s[..n]) && (n < |s| ==> !IsIdRest(s[n]))
  {
    if s != [] && IsIdFirst(s[0]) then 1 + Span(s[1..], IsIdRest) else 0
  }

  /** The strings of a sequence, one after the other. */
  function Concat(parts: seq<string>): string
  {
    if parts == [] then [] else parts[0] + Concat(parts[1..])
  }
}
