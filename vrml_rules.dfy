/**
 * One matcher per rule of the classic VRML token table
 * (docs/assets/playground/playground.mjs:471-509). Monarch applies a rule's
 * regular expression anchored at the current position of the line, so every
 * matcher looks at the start of `s`, the rest of the line. A matcher returns
 * the length of the text the rule takes; every rule of the table takes at
 * least one character, so 0 means "this rule does not match here".
 *
 * The quantifiers are greedy and the JavaScript engine backtracks. For most
 * rules the longest run is the only candidate that can succeed, so the
 * matchers take it directly; the IMPORT rule is the one place where a
 * shorter run can succeed after the longest fails, and its matcher searches
 * the candidates in the engine's order.
 */
module VrmlRules {
  import opened Wrappers
  import opened VrmlChars

  /** The alternatives of `TRUE|FALSE|NULL` (line 475), in order. */
  const ConstantWords: seq<string> := ["TRUE", "FALSE", "NULL"]

  /** The alternatives of `PROTO|EXTERNPROTO` (line 476), in order. */
  const ProtoWords: seq<string> := ["PROTO", "EXTERNPROTO"]

  /** The alternatives of `DEF|USE|AS|ROUTE|TO|EXPORT` (line 477), in order. */
  const NameWords: seq<string> := ["DEF", "USE", "AS", "ROUTE", "TO", "EXPORT"]

  /**
   * The first of `words`, in the order the alternation lists them, that
   * begins `s`. There is no word boundary: "DEFAULT" begins with "DEF".
   */
  function FirstPrefix(s: string, words: seq<string>): (r: Option<string>)
    ensures r.Some? ==> exists i :: 0 <= i < |words| && words[i] == r.value && words[i] <= s
                                      && forall j :: 0 <= j < i ==> !(words[j] <= s)
    ensures r.None? <==> forall i :: 0 <= i < |words| ==> !(words[i] <= s)
  {
    if words == [] then None
    else if words[0] <= s then Some(words[0])
    else
      var r := FirstPrefix(s, words[1..]);
      assert forall i :: 1 <= i < |words| ==> words[i] == words[1..][i - 1];
      r
  }

  // Numbers (lines 493-495)

  function DigitsLen(s: string): nat { Span(s, IsDigit) }

  /** `(?:\d*\.\d+)|(?:\d+(?:\.)?)`, the mantissa of the float rule. */
  function MantissaLen(s: string): (n: nat)
    ensures n <= |s|
    ensures n > 0 <==> s != [] && (IsDigit(s[0]) || (s[0] == '.' && |s| > 1 && IsDigit(s[1])))
    ensures n > 0 ==> forall i :: 0 <= i < n ==> IsDigit(s[i]) || (i == DigitsLen(s) && s[i] == '.')
    ensures n > 0 ==> n == |s| || !IsDigit(s[n])
    ensures n > 0 ==> n >= DigitsLen(s)
    ensures n > 0 && DigitsLen(s) < |s| && s[DigitsLen(s)] == '.' ==> n > DigitsLen(s)
  {
    var d := DigitsLen(s);
    if d < |s| && s[d] == '.' && DigitsLen(s[d + 1..]) > 0 then
      var e := DigitsLen(s[d + 1..]);
      assert forall i :: d + 1 <= i < |s| ==> s[i] == s[d + 1..][i - d - 1];
      d + 1 + e
    else if d > 0 then
      assert d + 1 < |s| ==> s[d + 1] == s[d + 1..][0];
      d + (if d < |s| && s[d] == '.' then 1 else 0)
    else
      0
  }

  /** `[eE][+-]?\d+`, the optional exponent of the float rule; 0 when absent. */
  function ExponentLen(s: string): (n: nat)
    ensures n <= |s|
    ensures n > 0 <==> |s| >= 2 && (s[0] == 'e' || s[0] == 'E')
                        && (IsDigit(s[1]) || (IsSign(s[1]) && |s| >= 3 && IsDigit(s[2])))
    ensures n > 0 ==> forall i :: 1 <= i < n ==> IsDigit(s[i]) || (i == 1 && IsSign(s[i]))
    ensures n > 0 ==> IsDigit(s[n - 1])
    ensures n > 0 ==> n == |s| || !IsDigit(s[n])
  {
    if |s| >= 2 && (s[0] == 'e' || s[0] == 'E') then
      var sign := if IsSign(s[1]) then 1 else 0;
      var digits := s[1 + sign..];
      var d := DigitsLen(digits);
      assert forall i :: 0 <= i < |digits| ==> digits[i] == s[1 + sign + i];
      if d > 0 then 1 + sign + d else 0
    else
      0
  }

  predicate IsSign(c: char) { c == '+' || c == '-' }

  /** The float rule `[+-]?(?:(?:(?:\d*\.\d+)|(?:\d+(?:\.)?))(?:[eE][+-]?\d+)?)`. */
  function FloatLen(s: string): (n: nat)
    ensures n <= |s|
    ensures n > 0 <==>
              var t := if s != [] && IsSign(s[0]) then s[1..] else s;
              t != [] && (IsDigit(t[0]) || (t[0] == '.' && |t| > 1 && IsDigit(t[1])))
    ensures n > 0 ==> n == |s| || !IsDigit(s[n])
  {
    var sign := if s != [] && IsSign(s[0]) then 1 else 0;
    var m := MantissaLen(s[sign..]);
    if m == 0 then 0
    else
      var x := ExponentLen(s[sign + m..]);
      assert sign + m + x < |s| ==> s[sign + m + x] == s[sign + m..][x];
      assert sign + m < |s| ==> s[sign + m] == s[sign..][m];
      sign + m + x
  }

  /** The hexadecimal rule `0[xX][\da-fA-F]+`. */
  function HexLen(s: string): (n: nat)
    ensures n <= |s|
    ensures n > 0 <==> |s| >= 3 && s[0] == '0' && (s[1] == 'x' || s[1] == 'X') && IsHexDigit(s[2])
  {
    if |s| >= 2 && s[0] == '0' && (s[1] == 'x' || s[1] == 'X') && Span(s[2..], IsHexDigit) > 0 then
      2 + Span(s[2..], IsHexDigit)
    else
      0
  }

  /** The integer rule `[+-]?\d+`. */
  function IntegerLen(s: string): (n: nat)
    ensures n <= |s|
    ensures n > 0 <==>
              var t := if s != [] && IsSign(s[0]) then s[1..] else s;
              t != [] && IsDigit(t[0])
  {
    var sign := if s != [] && IsSign(s[0]) then 1 else 0;
    var d := DigitsLen(s[sign..]);
    if d == 0 then 0 else sign + d
  }

  // Comments and the `{:...}` look-ahead (lines 479, 491)

  /** `#.*`: the hash and the rest of the line. */
  function CommentLen(s: string): (n: nat)
    ensures n <= |s|
    ensures n > 0 <==> s != [] && s[0] == '#'
    ensures n > 0 ==> forall i :: 1 <= i < n ==> !IsLineTerminator(s[i])
    ensures n > 0 ==> n == |s| || IsLineTerminator(s[n])
  {
    if s != [] && s[0] == '#' then 1 + Span(s[1..], NotLineTerminator) else 0
  }

  /**
   * `@id(?=\s*\{)`: the identifier at the start of `s` when white space and
   * an opening brace follow it. The look-ahead can only succeed after the
   * longest identifier (see IdBeforeBraceMaximal).
   */
  predicate IdBeforeBrace(s: string)
  {
    var n := IdLen(s);
    n > 0 && var k := Span(s[n..], IsSpace); n + k < |s| && s[n + k] == '{'
  }

  // The IMPORT rule (line 478)

  /**
   * The groups of `(IMPORT)(\s+)(@id)(\s*)(\.)(\s*)(@id)` other than the
   * two literal ones.
   */
  datatype ImportGroups = ImportGroups(gap: string, inline: string, beforeDot: string, afterDot: string, exported: string)
  {
    function Text(): string { "IMPORT" + gap + inline + beforeDot + "." + afterDot + exported }

    /** The groups after the first white-space group. */
    function Tail(): ImportTailGroups { ImportTailGroups(inline, beforeDot, afterDot, exported) }

    lemma TextNested()
      ensures Text() == "IMPORT" + (gap + (inline + (beforeDot + ("." + (afterDot + exported)))))
    {
    }

    predicate WellShaped()
    {
      |gap| > 0 && AllSpace(gap) && IsId(inline) && AllSpace(beforeDot) && AllSpace(afterDot) && IsId(exported)
    }
  }

  /** The groups of the IMPORT rule when it matches at the start of `s`. */
  function MatchImport(s: string): (r: Option<ImportGroups>)
    ensures r.Some? ==> r.value.WellShaped() && r.value.Text() <= s
  {
    if "IMPORT" <= s then
      var n := Span(s[6..], IsSpace);
      ImportFrom(s, n)
    else
      None
  }

  /**
   * A greedy quantifier backtracking from `n` repetitions down to its minimum
   * `lo`: the first count, trying `n`, then `n - 1` and so on, for which the
   * rest of the pattern (`ok`) matches; None when none does.
   */
  function Backtrack(ok: nat -> bool, lo: nat, n: nat): (r: Option<nat>)
    ensures r.Some? ==> lo <= r.value <= n && ok(r.value)
    ensures forall k :: lo <= k <= n && (r.None? || r.value < k) ==> !ok(k)
    decreases n
  {
    if n < lo then None
    else if ok(n) then Some(n)
    else if n == lo then None
    else Backtrack(ok, lo, n - 1)
  }

  /** Whether the rest of the IMPORT rule matches after a white-space group of `k` characters. */
  function TailMatches(s: string): nat -> bool
  {
    (k: nat) => 6 + k <= |s| && ImportTail(s[6 + k..]).Some?
  }

  /** The groups of the IMPORT rule when `(\s+)` is tried from length `n` down. */
  function ImportFrom(s: string, n: nat): (r: Option<ImportGroups>)
    requires "IMPORT" <= s && 6 + n <= |s|
    requires forall i :: 6 <= i < 6 + n ==> IsSpace(s[i])
    ensures r.Some? ==> r.value.WellShaped() && r.value.Text() <= s
    ensures r.Some? <==> Backtrack(TailMatches(s), 1, n).Some?
    ensures r.Some? ==> r.value == ImportAt(s, Backtrack(TailMatches(s), 1, n).value)
  {
    match Backtrack(TailMatches(s), 1, n)
    case None => None
    case Some(p) => Some(ImportAt(s, p))
  }

  /** The groups of the IMPORT rule when its white-space group has length `p` and the rest matches after it. */
  function ImportAt(s: string, p: nat): (g: ImportGroups)
    requires "IMPORT" <= s && 0 < p && 6 + p <= |s|
    requires forall i :: 6 <= i < 6 + p ==> IsSpace(s[i])
    requires TailMatches(s)(p)
    ensures g.WellShaped() && g.Text() <= s
    ensures |g.gap| == p && ImportTail(s[6 + p..]) == Some(g.Tail())
  {
    ImportAtShape(s, p);
    var t := ImportTail(s[6 + p..]).value;
    ImportGroups(s[6..6 + p], t.inline, t.beforeDot, t.afterDot, t.exported)
  }

  lemma ImportAtShape(s: string, p: nat)
    requires "IMPORT" <= s && 0 < p && 6 + p <= |s|
    requires forall i :: 6 <= i < 6 + p ==> IsSpace(s[i])
    requires TailMatches(s)(p)
    ensures ImportTail(s[6 + p..]).Some?
    ensures var t := ImportTail(s[6 + p..]).value;
            var g := ImportGroups(s[6..6 + p], t.inline, t.beforeDot, t.afterDot, t.exported);
            g.WellShaped() && g.Text() <= s && |g.gap| == p && g.Tail() == t
  {
    assert ImportTail(s[6 + p..]).Some?;
    var t := ImportTail(s[6 + p..]).value;
    GroupsAfterGap(s, p, t);
  }

  /** The groups the IMPORT rule takes when its white-space group has length `n` and the rest matches as `t`. */
  lemma GroupsAfterGap(s: string, n: nat, t: ImportTailGroups)
    requires "IMPORT" <= s && 0 < n && 6 + n <= |s|
    requires forall i :: 6 <= i < 6 + n ==> IsSpace(s[i])
    requires IsId(t.inline) && AllSpace(t.beforeDot) && AllSpace(t.afterDot) && IsId(t.exported)
    requires t.Text() <= s[6 + n..]
    ensures var r := ImportGroups(s[6..6 + n], t.inline, t.beforeDot, t.afterDot, t.exported);
            r.WellShaped() && r.Text() <= s
  {
    var r := ImportGroups(s[6..6 + n], t.inline, t.beforeDot, t.afterDot, t.exported);
    assert AllSpace(r.gap);
    assert "IMPORT" + s[6..6 + n] == s[..6 + n];
    TextSplit(r, t);
    PrefixAfter(s, 6 + n, t.Text());
  }

  /** A prefix of what follows position `i` of `s`, prefixed by `s[..i]`, is a prefix of `s`. */
  lemma PrefixAfter(s: string, i: nat, w: string)
    requires i <= |s| && w <= s[i..]
    ensures s[..i] + w <= s
  {
    assert s[..i] + w == s[..i + |w|];
  }

  lemma TextSplit(r: ImportGroups, t: ImportTailGroups)
    requires r.inline == t.inline && r.beforeDot == t.beforeDot && r.afterDot == t.afterDot && r.exported == t.exported
    ensures r.Text() == "IMPORT" + r.gap + t.Text()
  {
  }

  /** What follows the first white-space group of the IMPORT rule. */
  datatype ImportTailGroups = ImportTailGroups(inline: string, beforeDot: string, afterDot: string, exported: string)
  {
    function Text(): string { inline + beforeDot + "." + afterDot + exported }
  }

  /**
   * `(@id)(\s*)(\.)(\s*)(@id)` at the start of `t`. The first identifier is
   * the longest one: a shorter one could only be followed by white space
   * that the longer one also reaches, so it leads to the same dot.
   */
  function ImportTail(t: string): (r: Option<ImportTailGroups>)
    ensures r.Some? ==> IsId(r.value.inline) && AllSpace(r.value.beforeDot)
                        && AllSpace(r.value.afterDot) && IsId(r.value.exported) && r.value.Text() <= t
  {
    var m := IdLen(t);
    if m == 0 then None
    else
      var u := t[m..];
      var k := Span(u, IsSpace);
      if k < |u| && u[k] == '.' then
        var v := u[k + 1..];
        match LastId(v, Span(v, IsSpace))
        case Some(p) =>
          var r := ImportTailGroups(t[..m], u[..k], p.0, p.1);
          ImportTailText(t, m, k, p.0, p.1);
          Some(r)
        case None => None
      else
        None
  }

  lemma ImportTailText(t: string, m: nat, k: nat, a: string, b: string)
    requires m <= |t| && k < |t[m..]| && t[m..][k] == '.' && a + b <= t[m..][k + 1..]
    ensures t[..m] + t[m..][..k] + "." + a + b <= t
  {
    var u := t[m..];
    assert u[..k] + "." + (a + b) <= u by {
      assert u[..k] + "." == u[..k + 1];
      PrefixAfter(u, k + 1, a + b);
    }
    PrefixAfter(t, m, u[..k] + "." + (a + b));
    assert t[..m] + t[m..][..k] + "." + a + b == t[..m] + (u[..k] + "." + (a + b));
  }

  /** Whether an identifier starts `k` characters into `v`. */
  function IdAt(v: string): nat -> bool
  {
    (k: nat) => k <= |v| && IdLen(v[k..]) > 0
  }

  /**
   * `(\s*)(@id)`: the white space group at length `j`, then shorter ones,
   * until an identifier starts after it (a white-space character such as
   * U+00A0 may itself begin an identifier).
   */
  function LastId(v: string, j: nat): (r: Option<(string, string)>)
    requires j <= |v| && forall i :: 0 <= i < j ==> IsSpace(v[i])
    ensures r.Some? ==> AllSpace(r.value.0) && IsId(r.value.1) && r.value.0 + r.value.1 <= v
  {
    match Backtrack(IdAt(v), 0, j)
    case None => None
    case Some(k) =>
      var m := IdLen(v[k..]);
      assert v[..k] + v[k..][..m] == v[..k + m];
      Some((v[..k], v[k..][..m]))
  }

  /** Backtracking over `(\s*)` takes the longest white space after which an identifier starts. */
  lemma LastIdTakes(v: string, j: nat)
    requires j <= |v| && forall i :: 0 <= i < j ==> IsSpace(v[i])
    requires LastId(v, j).Some?
    ensures |LastId(v, j).value.0| <= j
    ensures |LastId(v, j).value.1| == IdLen(v[|LastId(v, j).value.0|..])
    ensures forall k :: |LastId(v, j).value.0| < k <= j ==> IdLen(v[k..]) == 0
  {
    var p := Backtrack(IdAt(v), 0, j).value;
    assert |LastId(v, j).value.0| == p;
    forall k | p < k <= j
      ensures IdLen(v[k..]) == 0
    {
      assert !IdAt(v)(k);
    }
  }

  // Completeness of the IMPORT matchers: a statement of the shape the rule
  // describes is found, whatever white space the engine tries first.

  /** Backtracking over `(\s*)` finds an identifier that starts at or before `j`. */
  lemma LastIdComplete(v: string, j: nat, p: nat)
    requires j <= |v| && forall i :: 0 <= i < j ==> IsSpace(v[i])
    requires p <= j && p < |v| && IsIdFirst(v[p])
    ensures LastId(v, j).Some?
  {
    assert v[p..][0] == v[p];
    assert IdAt(v)(p);
  }

  /** White space from `from` up to a character that is not white space is the run `Span` takes there. */
  lemma SpanFrom(t: string, from: nat, stop: nat)
    requires from <= stop <= |t| && forall i :: from <= i < stop ==> IsSpace(t[i])
    ensures Span(t[from..], IsSpace) >= stop - from
    ensures stop < |t| && !IsSpace(t[stop]) ==> Span(t[from..], IsSpace) == stop - from
  {
    var u := t[from..];
    assert forall i :: 0 <= i < stop - from ==> u[i] == t[from + i];
    assert stop < |t| ==> u[stop - from] == t[stop];
  }

  /** Where the pieces of a tail statement sit in the text it begins. */
  lemma TailLayout(t: string, g: ImportTailGroups)
    requires g.Text() <= t
    ensures var a, b, c := |g.inline|, |g.beforeDot|, |g.afterDot|;
            a + b + c + |g.exported| < |t|
            && (forall i :: 0 <= i < a ==> t[i] == g.inline[i])
            && (forall i :: a <= i < a + b ==> t[i] == g.beforeDot[i - a])
            && t[a + b] == '.'
            && (forall i :: a + b < i <= a + b + c ==> t[i] == g.afterDot[i - a - b - 1])
            && (|g.exported| > 0 ==> t[a + b + 1 + c] == g.exported[0])
  {
    var text := g.Text();
    assert text == g.inline + (g.beforeDot + ("." + (g.afterDot + g.exported)));
    assert forall i :: 0 <= i < |text| ==> t[i] == text[i];
  }

  /** `ImportTail` succeeds once its identifier, white space, dot and final group are found. */
  lemma ImportTailWhen(t: string, dot: nat)
    requires 0 < IdLen(t) <= dot < |t| && t[dot] == '.'
    requires Span(t[IdLen(t)..], IsSpace) == dot - IdLen(t)
    requires LastId(t[dot + 1..], Span(t[dot + 1..], IsSpace)).Some?
    ensures ImportTail(t).Some?
  {
    var u := t[IdLen(t)..];
    assert u[dot - IdLen(t)] == t[dot];
    assert u[dot - IdLen(t) + 1..] == t[dot + 1..];
  }

  /** `@id` takes at least the identifier the text begins with. */
  lemma IdAtLeast(t: string, w: string)
    requires IsId(w) && |w| <= |t| && forall i :: 0 <= i < |w| ==> t[i] == w[i]
    ensures |w| <= IdLen(t)
  {
    forall i | 1 <= i < |w| ensures IsIdRest(t[i]) {
      assert t[i] == w[i];
    }
    assert t[0] == w[0];
  }

  /** `@id` stops at the first character after the first that cannot continue an identifier. */
  lemma IdStopsAt(t: string, k: nat)
    requires 0 < k < |t| && !IsIdRest(t[k])
    ensures IdLen(t) <= k
  {
    var m := IdLen(t);
    if m > 0 {
      forall i | 1 <= i < m ensures IsIdRest(t[i]) {
        assert t[..m][i] == t[i];
      }
    }
  }

  /** The identifier `@id` takes at the start of a tail statement ends inside the white space before the dot. */
  lemma IdEndsBeforeDot(t: string, g: ImportTailGroups)
    requires IsId(g.inline) && AllSpace(g.beforeDot) && g.Text() <= t
    ensures |g.inline| <= IdLen(t) <= |g.inline| + |g.beforeDot|
    ensures forall i :: IdLen(t) <= i < |g.inline| + |g.beforeDot| ==> IsSpace(t[i])
  {
    var a, dot := |g.inline|, |g.inline| + |g.beforeDot|;
    var m := IdLen(t);
    assert a <= m by {
      TailLayout(t, g);
      IdAtLeast(t, g.inline);
    }
    assert m <= dot by {
      TailLayout(t, g);
      IdStopsAt(t, dot);
    }
    forall i | m <= i < dot ensures IsSpace(t[i]) {
      TailLayout(t, g);
      assert t[i] == g.beforeDot[i - a];
    }
  }

  /** From the end of the identifier, white space runs up to the dot. */
  lemma SpaceUpToDot(t: string, g: ImportTailGroups)
    requires IsId(g.inline) && AllSpace(g.beforeDot) && g.Text() <= t
    ensures 0 < IdLen(t) <= |g.inline| + |g.beforeDot| < |t| && t[|g.inline| + |g.beforeDot|] == '.'
    ensures Span(t[IdLen(t)..], IsSpace) == |g.inline| + |g.beforeDot| - IdLen(t)
  {
    var m, dot := IdLen(t), |g.inline| + |g.beforeDot|;
    TailLayout(t, g);
    IdEndsBeforeDot(t, g);
    SpanFrom(t, m, dot);
  }

  /** Backtracking over the white space at `from` finds an identifier that starts `c` characters later. */
  lemma LastIdAfter(t: string, from: nat, c: nat)
    requires from + c < |t| && forall i :: from <= i < from + c ==> IsSpace(t[i])
    requires IsIdFirst(t[from + c])
    ensures LastId(t[from..], Span(t[from..], IsSpace)).Some?
  {
    var v := t[from..];
    SpanFrom(t, from, from + c);
    assert v[c] == t[from + c];
    LastIdComplete(v, Span(v, IsSpace), c);
  }

  /** After the dot comes white space and then the first character of the exported identifier. */
  lemma AfterDotLayout(t: string, g: ImportTailGroups)
    requires AllSpace(g.afterDot) && IsId(g.exported) && g.Text() <= t
    ensures |g.inline| + |g.beforeDot| + 1 + |g.afterDot| < |t|
    ensures forall i :: |g.inline| + |g.beforeDot| + 1 <= i < |g.inline| + |g.beforeDot| + 1 + |g.afterDot| ==> IsSpace(t[i])
    ensures IsIdFirst(t[|g.inline| + |g.beforeDot| + 1 + |g.afterDot|])
  {
    var from := |g.inline| + |g.beforeDot| + 1;
    TailLayout(t, g);
    forall i | from <= i < from + |g.afterDot| ensures IsSpace(t[i]) {
      assert t[i] == g.afterDot[i - from];
    }
  }

  /**
   * `(@id)(\s*)(\.)(\s*)(@id)` matches wherever an identifier, white
   * space, a dot, white space and an identifier begin the text.
   */
  lemma ImportTailComplete(t: string, g: ImportTailGroups)
    requires IsId(g.inline) && AllSpace(g.beforeDot) && AllSpace(g.afterDot) && IsId(g.exported)
    requires g.Text() <= t
    ensures ImportTail(t).Some?
  {
    var dot := |g.inline| + |g.beforeDot|;
    SpaceUpToDot(t, g);
    IdEndsBeforeDot(t, g);
    AfterDotLayout(t, g);
    ImportTailAt(t, dot, |g.afterDot|);
  }

  /**
   * `ImportTail` succeeds when an identifier begins the text, white space
   * runs from its end to a dot at `dot`, and after `c` more white-space
   * characters an identifier begins.
   */
  lemma ImportTailAt(t: string, dot: nat, c: nat)
    requires 0 < IdLen(t) <= dot && dot + 1 + c < |t| && t[dot] == '.'
    requires forall i :: IdLen(t) <= i < dot ==> IsSpace(t[i])
    requires forall i :: dot + 1 <= i < dot + 1 + c ==> IsSpace(t[i])
    requires IsIdFirst(t[dot + 1 + c])
    ensures ImportTail(t).Some?
  {
    SpanFrom(t, IdLen(t), dot);
    LastIdAfter(t, dot + 1, c);
    ImportTailWhen(t, dot);
  }

  // Which groups the IMPORT matchers take: the greedy choice at each group,
  // backtracking only as far as a match needs.

  /**
   * A match of `(@id)(\s*)(\.)(\s*)(@id)` takes the longest identifier, all
   * the white space after it, the dot, and then what backtracking over the
   * last white-space group finds in the rest `AfterDot(t)`.
   */
  lemma ImportTailTakes(t: string)
    requires ImportTail(t).Some?
    ensures |ImportTail(t).value.inline| == IdLen(t)
    ensures |ImportTail(t).value.beforeDot| == Span(t[IdLen(t)..], IsSpace)
    ensures IdLen(t) + |ImportTail(t).value.beforeDot| < |t|
    ensures t[IdLen(t) + |ImportTail(t).value.beforeDot|] == '.'
    ensures LastId(AfterDot(t), Span(AfterDot(t), IsSpace))
            == Some((ImportTail(t).value.afterDot, ImportTail(t).value.exported))
  {
    var m := IdLen(t);
    var k := Span(t[m..], IsSpace);
    DropDrop(t, m, k);
  }

  /** What follows the dot that ends the white space after the leading identifier. */
  function AfterDot(t: string): string
  {
    var m := IdLen(t);
    var k := Span(t[m..], IsSpace);
    if m + k < |t| then t[m + k + 1..] else []
  }

  /** Dropping `m` characters and then `k + 1` more is dropping `m + k + 1`; the character in between is `t[m + k]`. */
  lemma DropDrop(t: string, m: nat, k: nat)
    requires m + k < |t|
    ensures t[m..][k] == t[m + k] && t[m..][k + 1..] == t[m + k + 1..]
  {
  }

  /**
   * Backtracking over `(\s+)` from length `n` stops at the longest length no
   * greater than `n` after which the rest of the pattern matches, and takes
   * the groups that match there.
   */
  lemma ImportFromTakes(s: string, n: nat)
    requires "IMPORT" <= s && 6 + n <= |s|
    requires forall i :: 6 <= i < 6 + n ==> IsSpace(s[i])
    requires ImportFrom(s, n).Some?
    ensures 0 < |ImportFrom(s, n).value.gap| <= n
    ensures ImportTail(s[6 + |ImportFrom(s, n).value.gap|..]) == Some(ImportFrom(s, n).value.Tail())
    ensures forall m :: |ImportFrom(s, n).value.gap| < m <= n ==> !TailMatches(s)(m)
  {
    var p := Backtrack(TailMatches(s), 1, n).value;
    assert ImportFrom(s, n).value == ImportAt(s, p);
  }

  /**
   * What MatchImport takes: the longest white-space group after `IMPORT`
   * that leaves the rest of the rule a match, and the groups that rest
   * yields there.
   */
  lemma MatchImportTakes(s: string)
    requires MatchImport(s).Some?
    ensures "IMPORT" <= s && 6 + Span(s[6..], IsSpace) <= |s|
    ensures 0 < |MatchImport(s).value.gap| <= Span(s[6..], IsSpace)
    ensures ImportTail(s[6 + |MatchImport(s).value.gap|..]) == Some(MatchImport(s).value.Tail())
    ensures forall m :: |MatchImport(s).value.gap| < m <= Span(s[6..], IsSpace) ==> !TailMatches(s)(m)
  {
    var n := Span(s[6..], IsSpace);
    SpaceAfterImport(s);
    assert MatchImport(s) == ImportFrom(s, n);
    ImportFromTakes(s, n);
  }

  /** The white space `Span` finds after the keyword, in the line's own positions. */
  lemma SpaceAfterImport(s: string)
    requires 6 <= |s|
    ensures forall i :: 6 <= i < 6 + Span(s[6..], IsSpace) ==> IsSpace(s[i])
  {
    var n := Span(s[6..], IsSpace);
    forall i | 6 <= i < 6 + n ensures IsSpace(s[i]) {
      assert s[i] == s[6..][i - 6];
    }
  }

  /** Where the parts of a statement of the IMPORT rule's shape lie in the line that begins with it. */
  lemma ImportLayout(s: string, g: ImportGroups)
    requires g.WellShaped() && g.Text() <= s
    ensures "IMPORT" <= s && 6 + |g.gap| < |s|
    ensures forall i :: 6 <= i < 6 + |g.gap| ==> IsSpace(s[i])
    ensures ImportTailGroups(g.inline, g.beforeDot, g.afterDot, g.exported).Text() <= s[6 + |g.gap|..]
  {
    var p := |g.gap|;
    var t := ImportTailGroups(g.inline, g.beforeDot, g.afterDot, g.exported);
    assert g.Text() == "IMPORT" + (g.gap + t.Text());
    assert s[..6] == "IMPORT" by {
      assert g.Text()[..6] == "IMPORT";
    }
    forall i | 6 <= i < 6 + p ensures IsSpace(s[i]) {
      assert s[i] == g.Text()[i] == g.gap[i - 6];
    }
    assert t.Text() <= s[6 + p..] by {
      assert s[6 + p..][..|t.Text()|] == s[6 + p..6 + p + |t.Text()|] == g.Text()[6 + p..];
    }
  }

  /**
   * Backtracking over `(\s+)` from length `n` succeeds whenever the rest of
   * the pattern matches after some shorter, non-empty white-space group.
   */
  lemma ImportFromComplete(s: string, n: nat, p: nat)
    requires "IMPORT" <= s && 6 + n <= |s|
    requires forall i :: 6 <= i < 6 + n ==> IsSpace(s[i])
    requires 0 < p <= n && ImportTail(s[6 + p..]).Some?
    ensures ImportFrom(s, n).Some?
  {
    assert TailMatches(s)(p);
  }

  /** The IMPORT rule matches wherever a statement of its shape begins the line. */
  lemma MatchImportComplete(s: string, g: ImportGroups)
    requires g.WellShaped() && g.Text() <= s
    ensures MatchImport(s).Some?
  {
    var p := |g.gap|;
    ImportLayout(s, g);
    SpanFrom(s, 6, 6 + p);
    var n := Span(s[6..], IsSpace);
    assert forall i :: 6 <= i < 6 + n ==> IsSpace(s[i]) by {
      forall i | 6 <= i < 6 + n ensures IsSpace(s[i]) {
        assert s[6..][i - 6] == s[i];
      }
    }
    assert ImportTail(s[6 + p..]).Some? by {
      ImportTailComplete(s[6 + p..], ImportTailGroups(g.inline, g.beforeDot, g.afterDot, g.exported));
    }
    ImportFromComplete(s, n, p);
  }

  // The string state (lines 471, 504-508)

  predicate IsStringChar(c: char) { c != '\\' && c != '"' }

  /** `[^\\"]+`. */
  function StringRunLen(s: string): (n: nat)
    ensures n <= |s|
    ensures n > 0 <==> s != [] && IsStringChar(s[0])
  {
    Span(s, IsStringChar)
  }

  /** True when `s` begins with `count` hexadecimal digits. */
  predicate HexRun(s: string, count: nat)
  {
    count <= |s| && forall i :: 0 <= i < count ==> IsHexDigit(s[i])
  }

  /** `@escapes`: `\\(?:[abfnrtv\\"'`]|x[0-9A-Fa-f]{1,4}|u[0-9A-Fa-f]{4}|U[0-9A-Fa-f]{8})`. */
  function EscapeLen(s: string): (n: nat)
    ensures n <= |s|
    ensures n > 0 <==> |s| >= 2 && s[0] == '\\'
                        && (s[1] in "abfnrtv\\\"'`"
                            || (s[1] == 'x' && |s| >= 3 && IsHexDigit(s[2]))
                            || (s[1] == 'u' && HexRun(s[2..], 4))
                            || (s[1] == 'U' && HexRun(s[2..], 8)))
    ensures n > 0 && s[1] in "abfnrtv\\\"'`" ==> n == 2
    ensures n > 0 && s[1] == 'x' ==> 3 <= n <= 6 && HexRun(s[2..], n - 2) && (n == 6 || n == |s| || !IsHexDigit(s[n]))
    ensures n > 0 && s[1] == 'u' ==> n == 6
    ensures n > 0 && s[1] == 'U' ==> n == 10
  {
    if |s| >= 2 && s[0] == '\\' then
      if s[1] in "abfnrtv\\\"'`" then 2
      else if s[1] == 'x' && Span(s[2..], IsHexDigit) > 0 then
        2 + (if Span(s[2..], IsHexDigit) < 4 then Span(s[2..], IsHexDigit) else 4)
      else if s[1] == 'u' && HexRun(s[2..], 4) then 6
      else if s[1] == 'U' && HexRun(s[2..], 8) then 10
      else 0
    else
      0
  }

  /** `\\.`: a backslash and any character but a line terminator. */
  function InvalidEscapeLen(s: string): (n: nat)
    ensures n <= |s|
    ensures n > 0 <==> |s| >= 2 && s[0] == '\\' && !IsLineTerminator(s[1])
    ensures n > 0 ==> n == 2
  {
    if |s| >= 2 && s[0] == '\\' && !IsLineTerminator(s[1]) then 2 else 0
  }
}
