/**
 * Properties of the classic VRML token table and of the way it is run
 * (docs/assets/playground/playground.mjs:446-511).
 */
module VrmlProperties {
  import opened Wrappers
  import opened VrmlChars
  import opened VrmlRules
  import opened VrmlTokenizer

  /**
   * The identifier character classes (line 470): every first character may
   * also follow, and what may follow but not begin an identifier is exactly
   * a digit, `+` or `-`.
   */
  lemma IdentifierCharacterClasses(c: char)
    ensures IsIdFirst(c) ==> IsIdRest(c)
    ensures IsIdRest(c) && !IsIdFirst(c) <==> IsDigit(c) || c == '+' || c == '-'
    ensures IsIdFirst(c) <==> !IsDigit(c) && c > ' ' && c != '\U{7F}' && c !in "\"#'+,-.[\\]{}"
  {
  }

  /**
   * `\s` and the identifier classes share only the white space above U+0020
   * (no-break space and the like), so an ASCII space or tab ends an
   * identifier; every line terminator is white space.
   */
  lemma WhiteSpaceAndIdentifiers(c: char)
    ensures c <= ' ' ==> !IsIdRest(c) && !IsIdFirst(c)
    ensures IsSpace(c) && IsIdRest(c) <==> IsSpace(c) && c > ' '
    ensures IsSpace(c) && IsIdFirst(c) <==> IsSpace(c) && c > ' '
    ensures IsLineTerminator(c) ==> IsSpace(c)
  {
  }

  /** The rule at index `i` is the first of `rules` that matches at the start of `s`. */
  predicate FirstMatchingRule(rules: seq<Rule>, s: string, i: nat)
  {
    i < |rules| && MatchLen(rules[i].matcher, s) > 0
    && forall j :: 0 <= j < i ==> MatchLen(rules[j].matcher, s) == 0
  }

  /** None of `rules` matches at the start of `s`. */
  predicate NoRuleMatches(rules: seq<Rule>, s: string)
  {
    forall j :: 0 <= j < |rules| ==> MatchLen(rules[j].matcher, s) == 0
  }

  /**
   * First match wins: the step fires the first rule that matches, and gives
   * one default token of one character when no rule matches.
   */
  lemma {:induction false} FirstMatchWins(rules: seq<Rule>, s: string, v: Vocabulary, i: nat)
    requires s != [] && forall j :: 0 <= j < |rules| ==> WellFormedRule(rules[j])
    requires FirstMatchingRule(rules, s, i) || (i == |rules| && NoRuleMatches(rules, s))
    ensures i < |rules| ==> FirstMatch(rules, s, v) == Step(Fire(rules[i], s, v), rules[i].next)
    ensures i == |rules| ==> FirstMatch(rules, s, v) == Step([Token(s[..1], Invalid)], Stay)
    decreases i
  {
    if i > 0 {
      assert MatchLen(rules[0].matcher, s) == 0;
      var tail := rules[1..];
      assert forall j :: 0 <= j < |tail| ==> tail[j] == rules[j + 1];
      FirstMatchWins(tail, s, v, i - 1);
    }
  }

  /**
   * After PROTO/EXTERNPROTO (state `typeName`) or DEF/USE/AS/ROUTE/TO/EXPORT
   * (state `name`), an identifier is taken whole with the state's class and
   * the state is popped; any other character becomes a default token and
   * the state stays (lines 498-503).
   */
  lemma NamedStateTakesOneIdentifier(state: State, s: string, v: Vocabulary)
    requires state == TypeName || state == Name
    requires s != []
    ensures IdLen(s) > 0 ==>
              StepIn(state, s, v) == Step([Token(s[..IdLen(s)], if state == TypeName then Keyword else TypeIdentifier)], Pop)
    ensures IdLen(s) == 0 ==> StepIn(state, s, v) == Step([Token(s[..1], Invalid)], Stay)
  {
    FirstMatchWins(RulesOf(state), s, v, if IdLen(s) > 0 then 0 else 1);
  }

  /**
   * The float rule (line 493) is tried before the hexadecimal rule (line
   * 494) and the integer rule (line 495) and takes a text wherever they
   * would: the leading `0` of `0x1F`, and every signed digit run whole.
   */
  lemma FloatRuleShadowsHexAndInteger(s: string)
    ensures HexLen(s) > 0 ==> FloatLen(s) == 1
    ensures IntegerLen(s) > 0 ==> FloatLen(s) >= IntegerLen(s)
  {
    if HexLen(s) > 0 {
      assert DigitsLen(s) == 1 by { assert IsDigit(s[0]) && !IsDigit(s[1]); }
      assert MantissaLen(s) == 1;
    }
    if IntegerLen(s) > 0 {
      var sign := if s != [] && IsSign(s[0]) then 1 else 0;
      assert MantissaLen(s[sign..]) >= DigitsLen(s[sign..]);
    }
  }

  /** A greedy run over `x`, which the first character of `y` cannot continue, takes exactly `x`. */
  lemma SpanOver(x: string, y: string, p: char -> bool)
    requires forall i :: 0 <= i < |x| ==> p(x[i])
    requires y == [] || !p(y[0])
    ensures Span(x + y, p) == |x|
  {
    var s := x + y;
    assert forall i :: 0 <= i < |x| ==> s[i] == x[i];
    assert |x| < |s| ==> s[|x|] == y[0];
  }

  predicate AllDigits(w: string)
  {
    forall i :: 0 <= i < |w| ==> IsDigit(w[i])
  }

  /** Without a sign or an exponent, the float rule takes the mantissa alone. */
  lemma FloatOfMantissa(s: string, m: nat)
    requires s != [] && !IsSign(s[0]) && MantissaLen(s) == m > 0
    requires m == |s| || !(s[m] == 'e' || s[m] == 'E')
    ensures FloatLen(s) == m
  {
    assert s[0..] == s;
    assert m < |s| ==> s[m..][0] == s[m];
  }

  /** The mantissa `\d*\.\d+` takes a decimal `a.b` whole when no digit follows it. */
  lemma MantissaOfDecimal(a: string, b: string, rest: string)
    requires AllDigits(a) && AllDigits(b) && b != []
    requires rest == [] || !IsDigit(rest[0])
    ensures MantissaLen(a + "." + b + rest) == |a| + 1 + |b|
  {
    var s := a + "." + b + rest;
    assert s == a + ("." + b + rest);
    SpanOver(a, "." + b + rest, IsDigit);
    assert s[|a|] == '.';
    assert s[|a| + 1..] == b + rest;
    SpanOver(b, rest, IsDigit);
    assert DigitsLen(s) == |a| && DigitsLen(s[|a| + 1..]) == |b|;
  }

  /**
   * The float rule takes a decimal `a.b` whole, and stops where neither a
   * digit nor an exponent follows.
   */
  lemma FloatOfDecimal(a: string, b: string, rest: string)
    requires AllDigits(a) && AllDigits(b) && b != []
    requires rest == [] || !(IsDigit(rest[0]) || rest[0] == 'e' || rest[0] == 'E')
    ensures FloatLen(a + "." + b + rest) == |a| + 1 + |b|
  {
    var s := a + "." + b + rest;
    var m := |a| + 1 + |b|;
    MantissaOfDecimal(a, b, rest);
    assert !IsSign(s[0]) by {
      if a != [] { assert s[0] == a[0]; } else { assert s[0] == '.'; }
    }
    assert m < |s| ==> s[m] == rest[0];
    FloatOfMantissa(s, m);
  }

  /**
   * The float rule takes a digit run whole, with no dot or exponent after
   * it, as one number.float token.
   */
  lemma FloatOfInteger(b: string, rest: string)
    requires AllDigits(b) && b != []
    requires rest == [] || !(IsDigit(rest[0]) || rest[0] == '.' || rest[0] == 'e' || rest[0] == 'E')
    ensures FloatLen(b + rest) == |b|
  {
    var s := b + rest;
    SpanOver(b, rest, IsDigit);
    assert MantissaLen(s) == |b| by {
      assert |b| < |s| ==> s[|b|] == rest[0];
    }
    assert s[0] == b[0];
    assert |b| < |s| ==> s[|b|] == rest[0];
    FloatOfMantissa(s, |b|);
  }

  /** The exponent `[eE][+-]?\d+` takes its letter, its sign if any and the whole digit run after it. */
  lemma ExponentOf(e: char, sg: string, c: string, rest: string)
    requires e == 'e' || e == 'E'
    requires sg == [] || (|sg| == 1 && IsSign(sg[0]))
    requires AllDigits(c) && c != []
    requires rest == [] || !IsDigit(rest[0])
    ensures ExponentLen([e] + sg + c + rest) == 1 + |sg| + |c|
  {
    var s := [e] + sg + c + rest;
    assert s[1 + |sg|..] == c + rest;
    SpanOver(c, rest, IsDigit);
    if sg == [] {
      assert s[1] == c[0];
    } else {
      assert s[1] == sg[0];
    }
  }

  /** Without a sign, the float rule takes the mantissa and then the exponent, if any, right after it. */
  lemma FloatUnsigned(t: string)
    requires t == [] || !IsSign(t[0])
    ensures FloatLen(t) == if MantissaLen(t) == 0 then 0 else MantissaLen(t) + ExponentLen(t[MantissaLen(t)..])
  {
    assert t[0..] == t;
  }

  /** With a sign, the float rule takes the sign, then the mantissa and exponent of what follows. */
  lemma FloatAfterSign(s: string)
    requires s != [] && IsSign(s[0])
    ensures var m := MantissaLen(s[1..]);
            FloatLen(s) == if m == 0 then 0 else 1 + m + ExponentLen(s[1 + m..])
  {
  }

  /** The mantissa takes a digit run whole when neither a digit nor a dot follows it. */
  lemma MantissaOfInteger(a: string, x: string)
    requires AllDigits(a) && a != []
    requires x == [] || !(IsDigit(x[0]) || x[0] == '.')
    ensures MantissaLen(a + x) == |a|
  {
    var s := a + x;
    SpanOver(a, x, IsDigit);
    assert s[0] == a[0];
    assert |a| < |s| ==> s[|a|] == x[0];
  }

  /**
   * The float rule takes a digit run followed by an exponent whole: the
   * digits, the letter, the sign if any and the exponent's digits.
   */
  lemma FloatOfScientific(a: string, e: char, sg: string, c: string, rest: string)
    requires AllDigits(a) && a != []
    requires e == 'e' || e == 'E'
    requires sg == [] || (|sg| == 1 && IsSign(sg[0]))
    requires AllDigits(c) && c != []
    requires rest == [] || !IsDigit(rest[0])
    ensures FloatLen(a + [e] + sg + c + rest) == |a| + 1 + |sg| + |c|
  {
    var x := [e] + sg + c + rest;
    var s := a + x;
    assert a + [e] + sg + c + rest == s;
    MantissaOfInteger(a, x);
    assert s[0] == a[0];
    FloatUnsigned(s);
    assert s[|a|..] == x;
    ExponentOf(e, sg, c, rest);
  }

  /** A leading sign joins the float that follows it, and there is no float without one. */
  lemma FloatSigned(sg: char, t: string)
    requires IsSign(sg) && (t == [] || !IsSign(t[0]))
    ensures FloatLen([sg] + t) == if FloatLen(t) > 0 then 1 + FloatLen(t) else 0
  {
    ConsSlices(sg, t, MantissaLen(t));
    FloatUnsigned(t);
    FloatAfterSign([sg] + t);
  }

  /** The parts of a text with one character put in front. */
  lemma ConsSlices(c: char, t: string, m: nat)
    requires m <= |t|
    ensures ([c] + t)[0] == c && ([c] + t)[1..] == t && ([c] + t)[1 + m..] == t[m..]
  {
  }

  /** The index of the first of `rules` that matches at the start of `s`; `|rules|` when none does. */
  function FirstIndex(rules: seq<Rule>, s: string): (i: nat)
    ensures FirstMatchingRule(rules, s, i) || (i == |rules| && NoRuleMatches(rules, s))
    decreases |rules|
  {
    if rules == [] then 0
    else if MatchLen(rules[0].matcher, s) > 0 then 0
    else
      var tail := rules[1..];
      assert forall j :: 0 <= j < |tail| ==> tail[j] == rules[j + 1];
      1 + FirstIndex(tail, s)
  }

  /** The classes of the tokens a rule fires are the ones its action names. */
  lemma FireKinds(r: Rule, s: string, v: Vocabulary)
    requires WellFormedRule(r) && MatchLen(r.matcher, s) > 0
    ensures forall t :: t in Fire(r, s, v) ==>
              (r.action.Emit? && t.kind == r.action.kind)
              || (r.action.IdentifierCases? && t.kind == ClassifyId(t.text, v))
              || (r.action.EmitGroups? && t.kind in r.action.kinds)
  {
    if r.action.EmitGroups? {
      var ts := Fire(r, s, v);
      forall t | t in ts ensures t.kind in r.action.kinds {
        var i :| 0 <= i < 7 && t == Token(Parts(MatchImport(s).value)[i], r.action.kinds[i]);
        assert t.kind == r.action.kinds[i];
      }
    }
  }

  /** A rule whose action names neither number.hex nor number. */
  predicate AvoidsHexAndInteger(r: Rule)
  {
    (r.action.Emit? ==> r.action.kind != NumberHex && r.action.kind != Number)
    && (r.action.EmitGroups? ==> NumberHex !in r.action.kinds && Number !in r.action.kinds)
  }

  lemma RootRuleAvoidsHexAndInteger(j: nat)
    requires j < |RootRules| && j != HexRule && j != IntegerRule
    ensures AvoidsHexAndInteger(RootRules[j])
  {
    var r := RootRules[j];
    if j == ImportRule {
      assert r.action.kinds == [Regexp, Unstyled, TypeIdentifier, Unstyled, Delimiter, Unstyled, TypeIdentifier];
    } else {
      assert !r.action.EmitGroups?;
    }
  }

  /** The hexadecimal and integer rules are never the first `root` rule to match. */
  lemma HexAndIntegerRulesNeverFirst(s: string)
    ensures FirstIndex(RootRules, s) != HexRule && FirstIndex(RootRules, s) != IntegerRule
  {
    FloatRuleShadowsHexAndInteger(s);
    assert RootRules[FloatRule].matcher == Float && RootRules[HexRule].matcher == Hex && RootRules[IntegerRule].matcher == Integer;
  }

  /** The `root` rule that produces number classes is always the float rule. */
  lemma RootEmitsNoHexOrInteger(s: string, v: Vocabulary)
    requires s != []
    ensures forall t :: t in StepIn(Root, s, v).tokens ==> t.kind != NumberHex && t.kind != Number
  {
    var i := FirstIndex(RootRules, s);
    if i < |RootRules| {
      RootStep(s, v, i);
      assert AvoidsHexAndInteger(RootRules[i]) by {
        HexAndIntegerRulesNeverFirst(s);
        RootRuleAvoidsHexAndInteger(i);
      }
      FiredAvoids(RootRules[i], s, v);
    } else {
      TablesKeepStackDiscipline();
      FirstMatchWins(RootRules, s, v, i);
    }
  }

  lemma FiredAvoids(r: Rule, s: string, v: Vocabulary)
    requires WellFormedRule(r) && MatchLen(r.matcher, s) > 0 && AvoidsHexAndInteger(r)
    ensures forall t :: t in Fire(r, s, v) ==> t.kind != NumberHex && t.kind != Number
  {
    FireKinds(r, s, v);
  }

  /** No state of the table produces number.hex or number tokens. */
  lemma StepEmitsNoHexOrInteger(state: State, s: string, v: Vocabulary)
    requires s != []
    ensures forall t :: t in StepIn(state, s, v).tokens ==> t.kind != NumberHex && t.kind != Number
  {
    if state == Root {
      RootEmitsNoHexOrInteger(s, v);
    } else {
      assert forall j :: 0 <= j < |RulesOf(state)| ==> AvoidsHexAndInteger(RulesOf(state)[j]);
      AvoidingTableStep(state, s, v);
    }
  }

  /** A table none of whose rules names number.hex or number produces neither. */
  lemma AvoidingTableStep(state: State, s: string, v: Vocabulary)
    requires s != [] && forall j :: 0 <= j < |RulesOf(state)| ==> AvoidsHexAndInteger(RulesOf(state)[j])
    ensures forall t :: t in StepIn(state, s, v).tokens ==> t.kind != NumberHex && t.kind != Number
  {
    var rules := RulesOf(state);
    var i := FirstIndex(rules, s);
    TablesKeepStackDiscipline();
    assert StackDiscipline(rules, state != Root);
    FirstMatchWins(rules, s, v, i);
    if i < |rules| {
      FiredAvoids(rules[i], s, v);
    }
  }

  /**
   * A consequence of the order of lines 493-495: whatever a line holds, the
   * tokenizer never produces number.hex or number tokens, so hexadecimal
   * and plain integer literals are never highlighted as such.
   */
  lemma {:induction false} LineHasNoHexOrIntegerTokens(stack: seq<State>, s: string, v: Vocabulary)
    requires ValidStack(stack)
    ensures forall t :: t in TokenizeLine(stack, s, v).0 ==> t.kind != NumberHex && t.kind != Number
    decreases |s|
  {
    if s != [] {
      var st := StepIn(Top(stack), s, v);
      var n := |Texts(st.tokens)|;
      StepEmitsNoHexOrInteger(Top(stack), s, v);
      LineHasNoHexOrIntegerTokens(Move(stack, st.next), s[n..], v);
    }
  }

  /** The words of the three word rules of `root` (lines 475-477). */
  predicate StartsWithRuleWord(s: string)
  {
    exists w :: w in ConstantWords + ProtoWords + NameWords && w <= s
  }

  /**
   * Identifier classification in `root` (lines 479-489): an identifier that
   * no earlier rule claims is taken whole; it is a "keyword" when white
   * space and `{` follow it, and otherwise gets the class of the first
   * vocabulary holding it.
   */
  lemma RootIdentifier(s: string, v: Vocabulary)
    requires IdLen(s) > 0 && s[0] != ':'
    requires !StartsWithRuleWord(s) && MatchImport(s).None?
    ensures var w := s[..IdLen(s)];
            StepIn(Root, s, v) == Step([Token(w, if IdBeforeBrace(s) then Keyword else ClassifyId(w, v))], Stay)
  {
    var w := s[..IdLen(s)];
    var i := if IdBeforeBrace(s) then 5 else 6;
    assert FirstMatchingRule(RootRules, s, i) by {
      EarlyRootRulesMiss(s);
      IdentifierRulesFirst(s);
    }
    RootStep(s, v, i);
    IdentifierRulesFire(s, v);
  }

  /** Rule 5 (the look-ahead) or else rule 6 (any identifier) is the first to match at an identifier. */
  lemma IdentifierRulesFirst(s: string)
    requires IdLen(s) > 0
    requires forall j :: 0 <= j < TypeNameAheadRule ==> MatchLen(RootRules[j].matcher, s) == 0
    ensures IdBeforeBrace(s) ==> FirstMatchingRule(RootRules, s, TypeNameAheadRule)
    ensures !IdBeforeBrace(s) ==> FirstMatchingRule(RootRules, s, IdentifierRule)
  {
    assert RootRules[TypeNameAheadRule].matcher == TypeNameAhead && RootRules[IdentifierRule].matcher == Identifier;
  }

  /** The tokens of rules 5 and 6 at an identifier. */
  lemma IdentifierRulesFire(s: string, v: Vocabulary)
    requires IdLen(s) > 0
    ensures var w := s[..IdLen(s)];
            IdBeforeBrace(s) ==> Fire(RootRules[TypeNameAheadRule], s, v) == [Token(w, Keyword)] && RootRules[TypeNameAheadRule].next == Stay
    ensures var w := s[..IdLen(s)];
            Fire(RootRules[IdentifierRule], s, v) == [Token(w, ClassifyId(w, v))] && RootRules[IdentifierRule].next == Stay
  {
    var w := s[..IdLen(s)];
    assert RootRules[TypeNameAheadRule] == Rule(TypeNameAhead, Emit(Keyword), Stay);
    assert RootRules[IdentifierRule] == Rule(Identifier, IdentifierCases, Stay);
    assert Fire(Rule(Identifier, IdentifierCases, Stay), s, v) == [Token(w, ClassifyId(w, v))];
    assert IdBeforeBrace(s) ==> Fire(Rule(TypeNameAhead, Emit(Keyword), Stay), s, v) == [Token(w, Keyword)];
  }

  /** The step in `string` at a text where rule `i` is the first to match. */
  lemma StringStep(s: string, v: Vocabulary, i: nat)
    requires s != [] && FirstMatchingRule(StringRules, s, i)
    ensures WellFormedRule(StringRules[i]) && StepIn(Str, s, v) == Step(Fire(StringRules[i], s, v), StringRules[i].next)
  {
    TablesKeepStackDiscipline();
    FirstMatchWins(StringRules, s, v, i);
  }

  /** The step in `root` at a text where rule `i` is the first to match. */
  lemma RootStep(s: string, v: Vocabulary, i: nat)
    requires s != [] && FirstMatchingRule(RootRules, s, i)
    ensures WellFormedRule(RootRules[i]) && StepIn(Root, s, v) == Step(Fire(RootRules[i], s, v), RootRules[i].next)
  {
    TablesKeepStackDiscipline();
    FirstMatchWins(RootRules, s, v, i);
  }

  /** The rules of lines 474-478 do not match an identifier that none of their words begins. */
  lemma EarlyRootRulesMiss(s: string)
    requires IdLen(s) > 0 && s[0] != ':'
    requires !StartsWithRuleWord(s) && MatchImport(s).None?
    ensures forall j :: 0 <= j < TypeNameAheadRule ==> MatchLen(RootRules[j].matcher, s) == 0
  {
    var all := ConstantWords + ProtoWords + NameWords;
    forall i | 0 <= i < |ConstantWords| ensures !(ConstantWords[i] <= s) { assert ConstantWords[i] in all; }
    forall i | 0 <= i < |ProtoWords| ensures !(ProtoWords[i] <= s) { assert ProtoWords[i] in all; }
    forall i | 0 <= i < |NameWords| ensures !(NameWords[i] <= s) { assert NameWords[i] in all; }
    assert FirstPrefix(s, ConstantWords).None? && FirstPrefix(s, ProtoWords).None? && FirstPrefix(s, NameWords).None?;
  }

  /**
   * The look-ahead `@id(?=\s*\{)` cannot succeed with a shorter identifier
   * when the longest one fails: if any non-empty identifier prefix of `s`
   * is followed by white space and `{`, then so is the longest one, which
   * is the one the greedy engine tries first.
   */
  lemma IdBeforeBraceMaximal(s: string, k: nat, j: nat)
    requires 0 < k <= IdLen(s)
    requires k <= j < |s| && s[j] == '{' && forall i :: k <= i < j ==> IsSpace(s[i])
    ensures IdBeforeBrace(s)
  {
    var n := IdLen(s);
    var t := s[n..];
    var m := Span(t, IsSpace);
    assert forall i :: 0 <= i < j - n ==> t[i] == s[n + i] && IsSpace(t[i]);
    assert t[j - n] == '{' && !IsSpace('{');
    assert m == j - n;
  }

  /**
   * `@id(?=\s*\{)` matches exactly when some identifier at the start of `s`
   * is followed by white space and an opening brace.
   */
  lemma IdBeforeBraceMeaning(s: string)
    ensures IdBeforeBrace(s) <==>
            exists k, j :: 0 < k <= j < |s| && IsId(s[..k]) && s[j] == '{' && forall i :: k <= i < j ==> IsSpace(s[i])
  {
    var n := IdLen(s);
    if IdBeforeBrace(s) {
      var j := n + Span(s[n..], IsSpace);
      forall i | n <= i < j ensures IsSpace(s[i]) {
        assert s[i] == s[n..][i - n];
      }
      assert IsId(s[..n]) && s[j] == '{';
    }
    if exists k, j :: 0 < k <= j < |s| && IsId(s[..k]) && s[j] == '{' && forall i :: k <= i < j ==> IsSpace(s[i]) {
      var k, j :| 0 < k <= j < |s| && IsId(s[..k]) && s[j] == '{' && forall i :: k <= i < j ==> IsSpace(s[i]);
      IdAtLeast(s, s[..k]);
      IdBeforeBraceMaximal(s, k, j);
    }
  }

  /** One default token per character. */
  function Invalids(gap: string): (ts: seq<Token>)
    ensures |ts| == |gap| && Texts(ts) == gap
  {
    if gap == [] then []
    else
      var ts := [Token(gap[..1], Invalid)] + Invalids(gap[1..]);
      assert ts[1..] == Invalids(gap[1..]);
      assert gap == gap[..1] + gap[1..];
      ts
  }

  /** An identifier followed by a character that cannot continue it is taken whole. */
  lemma IdentifierThenStop(w: string, rest: string)
    requires IsId(w) && (rest == [] || !IsIdRest(rest[0]))
    ensures IdLen(w + rest) == |w| && (w + rest)[..|w|] == w
  {
    var s := w + rest;
    assert forall i :: 0 <= i < |w| ==> s[i] == w[i];
    assert rest != [] ==> s[|w|] == rest[0];
  }

  /** One step of a line: the step's tokens, then the rest of the line from the moved stack. */
  lemma LineAfterStep(stack: seq<State>, s: string, v: Vocabulary, ts: seq<Token>, next: Next)
    requires ValidStack(stack) && s != []
    requires StepIn(Top(stack), s, v) == Step(ts, next)
    ensures var later := TokenizeLine(Move(stack, next), s[|Texts(ts)|..], v);
            TokenizeLine(stack, s, v) == (ts + later.0, later.1)
  {
  }

  /** A step that produces one token is followed by the tokens of the rest of the line. */
  lemma OneTokenThenRest(stack: seq<State>, t: Token, rest: string, v: Vocabulary, next: Next)
    requires ValidStack(stack) && t.text != []
    requires StepIn(Top(stack), t.text + rest, v) == Step([t], next)
    ensures var later := TokenizeLine(Move(stack, next), rest, v);
            TokenizeLine(stack, t.text + rest, v) == ([t] + later.0, later.1)
  {
    assert Texts([t]) == t.text + Texts([]) == t.text;
    assert (t.text + rest)[|t.text|..] == rest;
    LineAfterStep(stack, t.text + rest, v, [t], next);
  }

  /** A stack whose top is `typeName` or `name`. */
  predicate InNamedState(stack: seq<State>)
  {
    ValidStack(stack) && (Top(stack) == TypeName || Top(stack) == Name)
  }

  /** One character that cannot begin an identifier, in state `typeName` or `name`. */
  lemma GapStep(stack: seq<State>, gap: string, tail: string, v: Vocabulary)
    requires InNamedState(stack)
    requires gap != [] && !IsIdFirst(gap[0])
    ensures var after := TokenizeLine(stack, gap[1..] + tail, v);
            TokenizeLine(stack, gap + tail, v) == ([Token(gap[..1], Invalid)] + after.0, after.1)
  {
    var t := Token(gap[..1], Invalid);
    assert gap + tail == t.text + (gap[1..] + tail) by {
      ConcatAssociates(gap[..1], gap[1..], tail);
      assert gap[..1] + gap[1..] == gap;
    }
    assert StepIn(Top(stack), gap + tail, v) == Step([t], Stay) by {
      var s := gap + tail;
      assert s[0] == gap[0] && s[..1] == gap[..1];
      NamedStateTakesOneIdentifier(Top(stack), s, v);
    }
    OneTokenThenRest(stack, t, gap[1..] + tail, v, Stay);
  }

  lemma ConcatAssociates<T>(a: seq<T>, b: seq<T>, c: seq<T>)
    ensures a + (b + c) == (a + b) + c
  {
  }

  /** A line that starts with one more such character gets one more default token in front. */
  lemma GapCons(stack: seq<State>, gap: string, tail: string, v: Vocabulary)
    requires InNamedState(stack)
    requires gap != [] && !IsIdFirst(gap[0])
    requires var later := TokenizeLine(stack, tail, v);
             TokenizeLine(stack, gap[1..] + tail, v) == (Invalids(gap[1..]) + later.0, later.1)
    ensures var later := TokenizeLine(stack, tail, v);
            TokenizeLine(stack, gap + tail, v) == (Invalids(gap) + later.0, later.1)
  {
    var t := Token(gap[..1], Invalid);
    var later := TokenizeLine(stack, tail, v);
    GapStep(stack, gap, tail, v);
    assert Invalids(gap) == [t] + Invalids(gap[1..]);
    ConcatAssociates([t], Invalids(gap[1..]), later.0);
  }

  /**
   * In state `typeName` or `name`, characters that cannot begin an
   * identifier each become a default token and the state stays.
   */
  lemma {:induction false} GapInNamedState(stack: seq<State>, gap: string, tail: string, v: Vocabulary)
    requires InNamedState(stack)
    requires forall i :: 0 <= i < |gap| ==> !IsIdFirst(gap[i])
    ensures var later := TokenizeLine(stack, tail, v);
            TokenizeLine(stack, gap + tail, v) == (Invalids(gap) + later.0, later.1)
    decreases |gap|
  {
    if gap == [] {
      assert gap + tail == tail;
      assert Invalids(gap) + TokenizeLine(stack, tail, v).0 == TokenizeLine(stack, tail, v).0;
    } else {
      GapInNamedState(stack, gap[1..], tail, v);
      GapCons(stack, gap, tail, v);
    }
  }

  /** The words of the three word rules of `root`, in table order. */
  const RuleWords: seq<string> := ConstantWords + ProtoWords + NameWords

  /** No word of the word rules begins another one. */
  lemma RuleWordsPrefixFree()
    ensures forall a, b :: a in RuleWords && b in RuleWords && a <= b ==> a == b
  {
    var words := ["TRUE", "FALSE", "NULL", "PROTO", "EXTERNPROTO", "DEF", "USE", "AS", "ROUTE", "TO", "EXPORT"];
    assert RuleWords == words;
    forall a, b | a in words && b in words && a <= b ensures a == b {
      assert a[0] == b[0] && a[1] == b[1];
      if |a| > 2 {
        assert a[2] == b[2];
      }
    }
  }

  /** Two prefixes of one string are prefixes of each other. */
  lemma PrefixesOfOneString(a: string, b: string, s: string)
    requires a <= s && b <= s && |a| <= |b|
    ensures a <= b
  {
    assert a == s[..|a|] == b[..|a|];
  }

  /** The word rule that claims each of the eight declaration words (lines 476-477). */
  lemma DeclarationWordRule(kw: string, s: string)
    requires kw in ProtoWords || kw in NameWords
    requires kw <= s
    ensures FirstPrefix(s, ConstantWords).None?
    ensures kw in ProtoWords ==> FirstPrefix(s, ProtoWords) == Some(kw)
    ensures kw in NameWords ==> FirstPrefix(s, ProtoWords).None? && FirstPrefix(s, NameWords) == Some(kw)
  {
    WordLists();
    OnlyWordAt(kw, s);
    NoWordOf(ConstantWords, kw, s);
    if kw in ProtoWords {
      WordOf(ProtoWords, kw, s);
    } else {
      NoWordOf(ProtoWords, kw, s);
      WordOf(NameWords, kw, s);
    }
  }

  /** The three word lists are parts of the rule words and share no word. */
  lemma WordLists()
    ensures forall u :: u in ConstantWords ==> u in RuleWords && u !in ProtoWords && u !in NameWords
    ensures forall u :: u in ProtoWords ==> u in RuleWords && u !in NameWords
    ensures forall u :: u in NameWords ==> u in RuleWords
  {
    InConcat(ConstantWords, ProtoWords, NameWords);
  }

  lemma InConcat<T>(a: seq<T>, b: seq<T>, c: seq<T>)
    ensures forall u :: u in a || u in b || u in c ==> u in a + b + c
  {
  }

  /** A rule word at the start of a line is the only rule word there. */
  lemma OnlyWordAt(kw: string, s: string)
    requires kw in RuleWords && kw <= s
    ensures forall u :: u in RuleWords && u <= s ==> u == kw
  {
    RuleWordsPrefixFree();
    forall u | u in RuleWords && u <= s ensures u == kw {
      if |u| <= |kw| { PrefixesOfOneString(u, kw, s); } else { PrefixesOfOneString(kw, u, s); }
    }
  }

  lemma NoWordOf(ws: seq<string>, kw: string, s: string)
    requires forall u :: u in RuleWords && u <= s ==> u == kw
    requires forall u :: u in ws ==> u in RuleWords && u != kw
    ensures FirstPrefix(s, ws).None?
  {
    assert forall i :: 0 <= i < |ws| ==> ws[i] in ws;
  }

  lemma WordOf(ws: seq<string>, kw: string, s: string)
    requires forall u :: u in RuleWords && u <= s ==> u == kw
    requires forall u :: u in ws ==> u in RuleWords
    requires kw in ws && kw <= s
    ensures FirstPrefix(s, ws) == Some(kw)
  {
    assert forall i :: 0 <= i < |ws| ==> ws[i] in ws;
  }
  /** The class the identifier after a declaration word gets. */
  function DeclaredKind(state: State): Kind
  {
    if state == TypeName then Keyword else TypeIdentifier
  }

  /** The state a declaration word pushes. */
  function DeclarationState(kw: string): State
  {
    if kw in ProtoWords then TypeName else Name
  }

  /** At PROTO or EXTERNPROTO the third `root` rule is the first to match, and takes the word. */
  lemma ProtoWordMatches(kw: string, s: string)
    requires kw in ProtoWords && kw <= s
    ensures FirstMatchingRule(RootRules, s, ProtoRule) && MatchLen(RootRules[ProtoRule].matcher, s) == |kw|
  {
    DeclarationWordRule(kw, s);
    NoDelimiterAtWord(kw, s);
  }

  /** At DEF, USE, AS, ROUTE, TO or EXPORT the fourth `root` rule is the first to match, and takes the word. */
  lemma NameWordMatches(kw: string, s: string)
    requires kw in NameWords && kw <= s
    ensures FirstMatchingRule(RootRules, s, NameRule) && MatchLen(RootRules[NameRule].matcher, s) == |kw|
  {
    assert MatchLen(DelimiterChar, s) == 0 && FirstPrefix(s, ConstantWords).None? && FirstPrefix(s, ProtoWords).None? by {
      DeclarationWordRule(kw, s);
      NoDelimiterAtWord(kw, s);
    }
    assert FirstPrefix(s, NameWords) == Some(kw) by {
      DeclarationWordRule(kw, s);
    }
    FirstOfFour(s, kw);
  }

  /** The fourth `root` rule is the first to match when the three before it miss. */
  lemma FirstOfFour(s: string, kw: string)
    requires MatchLen(DelimiterChar, s) == 0 && FirstPrefix(s, ConstantWords).None? && FirstPrefix(s, ProtoWords).None?
    requires FirstPrefix(s, NameWords) == Some(kw)
    ensures FirstMatchingRule(RootRules, s, NameRule) && MatchLen(RootRules[NameRule].matcher, s) == |kw|
  {
    assert MatchLen(RootRules[DelimiterRule].matcher, s) == 0 by { assert RootRules[DelimiterRule].matcher == DelimiterChar; }
    assert MatchLen(RootRules[ConstantRule].matcher, s) == 0 by { assert RootRules[ConstantRule].matcher == Words(ConstantWords); }
    assert MatchLen(RootRules[ProtoRule].matcher, s) == 0 by { assert RootRules[ProtoRule].matcher == Words(ProtoWords); }
    assert MatchLen(RootRules[NameRule].matcher, s) == |kw| by { assert RootRules[NameRule].matcher == Words(NameWords); }
    FirstAfterThreeMisses(RootRules, s);
  }

  lemma FirstAfterThreeMisses(rules: seq<Rule>, s: string)
    requires |rules| > 3 && MatchLen(rules[3].matcher, s) > 0
    requires MatchLen(rules[0].matcher, s) == 0 && MatchLen(rules[1].matcher, s) == 0 && MatchLen(rules[2].matcher, s) == 0
    ensures FirstMatchingRule(rules, s, 3)
  {
    forall j | 0 <= j < 3 ensures MatchLen(rules[j].matcher, s) == 0 {
      // Naming each index lets the solver use the requires written for it.
      if j == 0 {
      } else if j == 1 {
      } else {
      }
    }
  }

  lemma NoDelimiterAtWord(kw: string, s: string)
    requires kw in ProtoWords || kw in NameWords
    requires kw <= s
    ensures MatchLen(RootRules[DelimiterRule].matcher, s) == 0 && MatchLen(DelimiterChar, s) == 0
  {
    assert s[0] == kw[0];
    assert kw[0] !in ",:.";
  }

  /** A declaration word at the start of a `root` line is one "regexp" token that pushes its state. */
  lemma DeclarationWordStep(kw: string, s: string, v: Vocabulary)
    requires kw in ProtoWords || kw in NameWords
    requires kw <= s
    ensures StepIn(Root, s, v) == Step([Token(kw, Regexp)], Push(DeclarationState(kw)))
  {
    assert s[..|kw|] == kw;
    if kw in ProtoWords {
      ProtoWordMatches(kw, s);
      RootStep(s, v, 2);
    } else {
      NameWordMatches(kw, s);
      RootStep(s, v, 3);
    }
  }

  /** In state `typeName` or `name` an identifier is one token that pops the state. */
  lemma IdentifierPops(stack: seq<State>, w: string, rest: string, v: Vocabulary)
    requires InNamedState(stack)
    requires IsId(w) && (rest == [] || !IsIdRest(rest[0]))
    ensures var after := TokenizeLine([Root], rest, v);
            TokenizeLine(stack, w + rest, v) == ([Token(w, DeclaredKind(Top(stack)))] + after.0, after.1)
  {
    var t := Token(w, DeclaredKind(Top(stack)));
    assert StepIn(Top(stack), w + rest, v) == Step([t], Pop) by {
      IdentifierThenStop(w, rest);
      NamedStateTakesOneIdentifier(Top(stack), w + rest, v);
    }
    assert Move(stack, Pop) == [Root];
    OneTokenThenRest(stack, t, rest, v, Pop);
  }

  /**
   * After PROTO or EXTERNPROTO the next identifier is a "keyword" (a new
   * type name), and after DEF, USE, AS, ROUTE, TO or EXPORT it is a
   * "type.identifier" (a node name), whatever vocabulary holds it: the
   * word pushes one state, the characters before the identifier are
   * default tokens, and the identifier pops the state (lines 476-477,
   * 498-503). The word needs no boundary after it: "DEFAULT" is DEF
   * followed by the name "AULT".
   */
  lemma DeclarationNamesNextIdentifier(kw: string, gap: string, w: string, rest: string, v: Vocabulary)
    requires kw in ProtoWords || kw in NameWords
    requires forall i :: 0 <= i < |gap| ==> !IsIdFirst(gap[i])
    requires IsId(w) && (rest == [] || !IsIdRest(rest[0]))
    ensures var after := TokenizeLine([Root], rest, v);
            TokenizeLine([Root], kw + gap + w + rest, v)
            == ([Token(kw, Regexp)] + Invalids(gap) + [Token(w, if kw in ProtoWords then Keyword else TypeIdentifier)] + after.0,
                after.1)
  {
    var s := kw + (gap + (w + rest));
    var state := DeclarationState(kw);
    assert DeclaredKind(state) == if kw in ProtoWords then Keyword else TypeIdentifier;
    assert kw + gap + w + rest == s by {
      SplitAfterWord(kw, gap, w + rest);
    }
    assert StepIn(Root, s, v) == Step([Token(kw, Regexp)], Push(state)) by {
      assert kw <= s;
      DeclarationWordStep(kw, s, v);
    }
    DeclarationLine(kw, gap, w, rest, v, state);
  }

  /** A line whose first step is a word that pushes `typeName` or `name`. */
  lemma DeclarationLine(kw: string, gap: string, w: string, rest: string, v: Vocabulary, state: State)
    requires state == TypeName || state == Name
    requires kw != [] && StepIn(Root, kw + (gap + (w + rest)), v) == Step([Token(kw, Regexp)], Push(state))
    requires forall i :: 0 <= i < |gap| ==> !IsIdFirst(gap[i])
    requires IsId(w) && (rest == [] || !IsIdRest(rest[0]))
    ensures var after := TokenizeLine([Root], rest, v);
            TokenizeLine([Root], kw + (gap + (w + rest)), v)
            == ([Token(kw, Regexp)] + Invalids(gap) + [Token(w, DeclaredKind(state))] + after.0, after.1)
  {
    var named := [Root, state];
    var kwToken, wToken := Token(kw, Regexp), Token(w, DeclaredKind(state));
    var after := TokenizeLine([Root], rest, v);
    var fromName := TokenizeLine(named, w + rest, v);
    var fromGap := TokenizeLine(named, gap + (w + rest), v);
    var whole := TokenizeLine([Root], kw + (gap + (w + rest)), v);
    assert whole == ([kwToken] + fromGap.0, fromGap.1) by {
      WordPushes(kw, gap + (w + rest), v, state);
    }
    assert fromGap == (Invalids(gap) + fromName.0, fromName.1) by {
      GapInNamedState(named, gap, w + rest, v);
    }
    assert fromName == ([wToken] + after.0, after.1) by {
      IdentifierPops(named, w, rest, v);
    }
    Assemble(kwToken, Invalids(gap), wToken, after, fromName, fromGap, whole);
  }

  /** The first step of such a line: the word's token, then the rest of the line in the pushed state. */
  lemma WordPushes(kw: string, tail: string, v: Vocabulary, state: State)
    requires state == TypeName || state == Name
    requires kw != [] && StepIn(Root, kw + tail, v) == Step([Token(kw, Regexp)], Push(state))
    ensures var fromTail := TokenizeLine([Root, state], tail, v);
            TokenizeLine([Root], kw + tail, v) == ([Token(kw, Regexp)] + fromTail.0, fromTail.1)
  {
    assert Move([Root], Push(state)) == [Root] + [state] == [Root, state];
    OneTokenThenRest([Root], Token(kw, Regexp), tail, v, Push(state));
  }

  lemma SplitAfterWord(kw: string, gap: string, tail: string)
    ensures kw + gap + tail == kw + (gap + tail)
    ensures kw <= kw + (gap + tail) && (kw + (gap + tail))[|kw|..] == gap + tail
  {
  }

  /** Putting the three pieces of a declaration line together. */
  lemma Assemble(kwToken: Token, gapTokens: seq<Token>, wToken: Token, after: (seq<Token>, seq<State>),
                 fromName: (seq<Token>, seq<State>), fromGap: (seq<Token>, seq<State>), whole: (seq<Token>, seq<State>))
    requires fromName == ([wToken] + after.0, after.1)
    requires fromGap == (gapTokens + fromName.0, fromName.1)
    requires whole == ([kwToken] + fromGap.0, fromGap.1)
    ensures whole == ([kwToken] + gapTokens + [wToken] + after.0, after.1)
  {
    ConcatAssociates(gapTokens, [wToken], after.0);
    ConcatAssociates([kwToken], gapTokens + [wToken], after.0);
    ConcatAssociates([kwToken], gapTokens, [wToken]);
  }

  /** No word of the word rules begins with a character outside their initials. */
  lemma NoRuleWordAt(s: string)
    requires s != [] && s[0] !in "TFNPEDUAR"
    ensures !StartsWithRuleWord(s)
    ensures FirstPrefix(s, ConstantWords).None? && FirstPrefix(s, ProtoWords).None? && FirstPrefix(s, NameWords).None?
  {
    var words := ["TRUE", "FALSE", "NULL", "PROTO", "EXTERNPROTO", "DEF", "USE", "AS", "ROUTE", "TO", "EXPORT"];
    assert ConstantWords + ProtoWords + NameWords == words;
    forall u | u in words ensures !(u <= s) {
      assert u[0] in "TFNPEDUAR";
    }
    assert forall i :: 0 <= i < |ConstantWords| ==> ConstantWords[i] in words;
    assert forall i :: 0 <= i < |ProtoWords| ==> ProtoWords[i] in words;
    assert forall i :: 0 <= i < |NameWords| ==> NameWords[i] in words;
  }

  /** The rules before the float rule all miss at a `0` followed by `x` or `X`. */
  lemma RulesBeforeFloatMissAtZero(s: string)
    requires |s| >= 2 && s[0] == '0'
    ensures forall j :: 0 <= j < FloatRule ==> MatchLen(RootRules[j].matcher, s) == 0
  {
    NoRuleWordAt(s);
    assert !("IMPORT" <= s) by { assert "IMPORT"[0] != s[0]; }
    assert IdLen(s) == 0;
  }

  /** A `0` in front of a hexadecimal literal is a float token of its own. */
  lemma ZeroStep(s: string, v: Vocabulary)
    requires HexLen(s) > 0
    ensures StepIn(Root, s, v) == Step([Token("0", NumberFloat)], Stay)
  {
    RulesBeforeFloatMissAtZero(s);
    FloatRuleShadowsHexAndInteger(s);
    TablesKeepStackDiscipline();
    assert FirstMatchingRule(RootRules, s, FloatRule);
    FirstMatchWins(RootRules, s, v, 9);
    assert s[..1] == "0";
  }

  /** An identifier that no word rule claims, in `root`. */
  lemma IdentifierStep(id: string, rest: string, v: Vocabulary)
    requires IsId(id) && id[0] !in "TFNPEDUARI:" && (rest == [] || !IsIdRest(rest[0]))
    ensures var kind := if IdBeforeBrace(id + rest) then Keyword else ClassifyId(id, v);
            StepIn(Root, id + rest, v) == Step([Token(id, kind)], Stay)
  {
    var s := id + rest;
    IdentifierThenStop(id, rest);
    NoRuleWordAt(s);
    assert !("IMPORT" <= s) by { assert "IMPORT"[0] != s[0]; }
    RootIdentifier(s, v);
  }

  /**
   * A hexadecimal literal such as `0x1F` is never one token (lines
   * 493-494): the float rule takes its `0`, and the identifier rule then
   * takes `x1F`, which is classified like any other identifier.
   */
  lemma HexLiteralSplits(x: char, digits: string, rest: string, v: Vocabulary)
    requires x == 'x' || x == 'X'
    requires |digits| > 0 && forall i :: 0 <= i < |digits| ==> IsHexDigit(digits[i])
    requires rest == [] || !IsIdRest(rest[0])
    ensures var id := [x] + digits;
            var after := TokenizeLine([Root], rest, v);
            TokenizeLine([Root], "0" + id + rest, v)
            == ([Token("0", NumberFloat), Token(id, if IdBeforeBrace(id + rest) then Keyword else ClassifyId(id, v))] + after.0,
                after.1)
  {
    var id := [x] + digits;
    var name := Token(id, if IdBeforeBrace(id + rest) then Keyword else ClassifyId(id, v));
    var after := TokenizeLine([Root], rest, v);
    var fromId := TokenizeLine([Root], id + rest, v);
    var whole := TokenizeLine([Root], "0" + (id + rest), v);
    assert "0" + id + rest == "0" + (id + rest) by {
      ConcatAssociates("0", id, rest);
    }
    assert fromId == ([name] + after.0, after.1) by {
      HexDigitsAfterX(x, digits);
      IdentifierThenRest(id, rest, v);
    }
    assert whole == ([Token("0", NumberFloat)] + fromId.0, fromId.1) by {
      HexDigitsAfterX(x, digits);
      ZeroThenRest(id + rest, v);
    }
    AssembleTwo(Token("0", NumberFloat), name, after, fromId, whole);
  }

  /** Putting two one-token steps and the rest of a line together. */
  lemma AssembleTwo(first: Token, second: Token, after: (seq<Token>, seq<State>),
                    fromSecond: (seq<Token>, seq<State>), whole: (seq<Token>, seq<State>))
    requires fromSecond == ([second] + after.0, after.1)
    requires whole == ([first] + fromSecond.0, fromSecond.1)
    ensures whole == ([first, second] + after.0, after.1)
  {
    ConcatAssociates([first], [second], after.0);
    assert [first] + [second] == [first, second];
  }

  lemma HexDigitsAfterX(x: char, digits: string)
    requires x == 'x' || x == 'X'
    requires |digits| > 0 && forall i :: 0 <= i < |digits| ==> IsHexDigit(digits[i])
    ensures IsId([x] + digits) && ([x] + digits)[0] == x && ([x] + digits)[0] !in "TFNPEDUARI:"
    ensures var t := [x] + digits; |t| >= 2 && IsHexDigit(t[1])
  {
    var id := [x] + digits;
    forall i | 1 <= i < |id| ensures IsIdRest(id[i]) {
      assert id[i] == digits[i - 1] && IsHexDigit(digits[i - 1]);
    }
  }

  lemma ZeroThenRest(t: string, v: Vocabulary)
    requires |t| >= 2 && (t[0] == 'x' || t[0] == 'X') && IsHexDigit(t[1])
    ensures var after := TokenizeLine([Root], t, v);
            TokenizeLine([Root], "0" + t, v) == ([Token("0", NumberFloat)] + after.0, after.1)
  {
    assert StepIn(Root, "0" + t, v) == Step([Token("0", NumberFloat)], Stay) by {
      var s := "0" + t;
      assert HexLen(s) > 0 by { assert s[1] == t[0] && s[2] == t[1]; }
      ZeroStep(s, v);
    }
    OneTokenThenRest([Root], Token("0", NumberFloat), t, v, Stay);
  }

  lemma IdentifierThenRest(id: string, rest: string, v: Vocabulary)
    requires IsId(id) && id[0] !in "TFNPEDUARI:" && (rest == [] || !IsIdRest(rest[0]))
    ensures var after := TokenizeLine([Root], rest, v);
            var kind := if IdBeforeBrace(id + rest) then Keyword else ClassifyId(id, v);
            TokenizeLine([Root], id + rest, v) == ([Token(id, kind)] + after.0, after.1)
  {
    var name := Token(id, if IdBeforeBrace(id + rest) then Keyword else ClassifyId(id, v));
    assert StepIn(Root, id + rest, v) == Step([name], Stay) by {
      IdentifierStep(id, rest, v);
    }
    OneTokenThenRest([Root], name, rest, v, Stay);
  }

  /** "DEFAULT" is the word DEF and the node name AULT, whatever the vocabulary. */
  lemma DefaultIsDefThenName(v: Vocabulary)
    ensures TokenizeLine([Root], "DEFAULT", v) == ([Token("DEF", Regexp), Token("AULT", TypeIdentifier)], [Root])
  {
    var def, name := Token("DEF", Regexp), Token("AULT", TypeIdentifier);
    var empty := TokenizeLine([Root], "", v);
    assert empty == ([], [Root]);
    DefaultSplits();
    DeclarationNamesNextIdentifier("DEF", "", "AULT", "", v);
    assert [def] + Invalids("") + [name] + empty.0 == [def, name];
  }

  /** "DEFAULT" is the name word DEF followed by the identifier AULT. */
  lemma DefaultSplits()
    ensures "DEF" !in ProtoWords && "DEF" in NameWords
    ensures IsId("AULT") && "DEF" + "" + "AULT" + "" == "DEFAULT"
  {
    assert NameWords[0] == "DEF";
  }

  /** No `root` rule before the last one matches at a quote. */
  lemma RulesMissAtQuote(s: string)
    requires s != [] && s[0] == '"'
    ensures forall j :: 0 <= j < QuoteRule ==> MatchLen(RootRules[j].matcher, s) == 0
  {
    WordRulesMissAtQuote(s);
    LaterRulesMissAtQuote(s);
  }

  lemma WordRulesMissAtQuote(s: string)
    requires s != [] && s[0] == '"'
    ensures forall j :: 0 <= j < IdentifierRule ==> MatchLen(RootRules[j].matcher, s) == 0
  {
    assert forall j :: 0 <= j < 4 ==> MatchLen(RootRules[j].matcher, s) == 0 by {
      DelimiterAndWordsMiss(s);
    }
    assert MatchLen(ImportStatement, s) == 0 by {
      assert !("IMPORT" <= s) by { assert "IMPORT"[0] != s[0]; }
    }
    assert MatchLen(TypeNameAhead, s) == 0;
    assert RootRules[ImportRule].matcher == ImportStatement && RootRules[TypeNameAheadRule].matcher == TypeNameAhead;
  }

  lemma DelimiterAndWordsMiss(s: string)
    requires s != [] && s[0] == '"'
    ensures forall j :: 0 <= j < ImportRule ==> MatchLen(RootRules[j].matcher, s) == 0
  {
    assert MatchLen(DelimiterChar, s) == 0;
    assert MatchLen(Words(ConstantWords), s) == 0 && MatchLen(Words(ProtoWords), s) == 0 && MatchLen(Words(NameWords), s) == 0 by {
      NoRuleWordAt(s);
    }
    var ms := [DelimiterChar, Words(ConstantWords), Words(ProtoWords), Words(NameWords)];
    assert forall j :: 0 <= j < 4 ==> RootRules[j].matcher == ms[j];
  }

  lemma LaterRulesMissAtQuote(s: string)
    requires s != [] && s[0] == '"'
    ensures forall j :: IdentifierRule <= j < QuoteRule ==> MatchLen(RootRules[j].matcher, s) == 0
  {
    assert MatchLen(Identifier, s) == 0 && MatchLen(Hash, s) == 0 && MatchLen(BracketChar, s) == 0;
    assert forall j :: 6 <= j < 9 ==> MatchLen(RootRules[j].matcher, s) == 0 by {
      var ms := [Identifier, Hash, BracketChar];
      assert forall j :: 6 <= j < 9 ==> RootRules[j].matcher == ms[j - 6];
    }
    NumberRulesMissAtQuote(s);
  }

  lemma NumberRulesMissAtQuote(s: string)
    requires s != [] && s[0] == '"'
    ensures forall j :: FloatRule <= j < QuoteRule ==> MatchLen(RootRules[j].matcher, s) == 0
  {
    assert MatchLen(Float, s) == 0 && MatchLen(Hex, s) == 0 && MatchLen(Integer, s) == 0;
    var ms := [Float, Hex, Integer];
    assert forall j :: 9 <= j < 12 ==> RootRules[j].matcher == ms[j - 9];
  }

  /** A quote in `root` opens a string: one "string.quote" token that pushes `string` (line 496). */
  lemma QuoteOpens(s: string, v: Vocabulary)
    requires s != [] && s[0] == '"'
    ensures StepIn(Root, s, v) == Step([Token("\"", StringQuote)], Push(Str))
  {
    RulesMissAtQuote(s);
    TablesKeepStackDiscipline();
    assert FirstMatchingRule(RootRules, s, QuoteRule);
    FirstMatchWins(RootRules, s, v, 12);
    assert s[..1] == "\"";
  }

  /** A quote in `string` closes it: one "string.quote" token that pops (line 508). */
  lemma QuoteCloses(s: string, v: Vocabulary)
    requires s != [] && s[0] == '"'
    ensures StepIn(Str, s, v) == Step([Token("\"", StringQuote)], Pop)
  {
    assert FirstMatchingRule(StringRules, s, 3) by {
      assert StringRunLen(s) == 0 && EscapeLen(s) == 0 && InvalidEscapeLen(s) == 0;
      var ms := [StringChars, KnownEscape, AnyEscape, Quote];
      assert forall j :: 0 <= j < 4 ==> StringRules[j].matcher == ms[j];
    }
    assert StringRules[3] == Rule(Quote, Emit(StringQuote), Pop);
    StringStep(s, v, 3);
    assert Fire(Rule(Quote, Emit(StringQuote), Pop), s, v) == [Token("\"", StringQuote)] by {
      assert s[..1] == "\"";
    }
  }

  /** Text without quote or backslash is the plain part of a string. */
  predicate PlainStringText(body: string)
  {
    forall i :: 0 <= i < |body| ==> IsStringChar(body[i])
  }

  /** The tokens of plain string text: one "string" token, or none for no text. */
  function PlainTokens(body: string): (ts: seq<Token>)
    ensures Texts(ts) == body
  {
    if body == [] then []
    else
      assert Texts([Token(body, StringText)]) == body + Texts([]);
      [Token(body, StringText)]
  }

  /** In `string`, plain text up to a quote or the end of the line is one "string" token (line 505). */
  lemma PlainRun(body: string, tail: string, v: Vocabulary)
    requires body != [] && PlainStringText(body) && (tail == [] || tail[0] == '"')
    ensures StepIn(Str, body + tail, v) == Step([Token(body, StringText)], Stay)
  {
    var s := body + tail;
    assert forall i :: 0 <= i < |body| ==> s[i] == body[i];
    assert tail != [] ==> s[|body|] == tail[0];
    assert StringRunLen(s) == |body|;
    TablesKeepStackDiscipline();
    assert FirstMatchingRule(StringRules, s, 0);
    FirstMatchWins(StringRules, s, v, 0);
    assert s[..|body|] == body;
  }

  lemma PlainRunLine(body: string, tail: string, v: Vocabulary)
    requires PlainStringText(body) && (tail == [] || tail[0] == '"')
    ensures var after := TokenizeLine([Root, Str], tail, v);
            TokenizeLine([Root, Str], body + tail, v) == (PlainTokens(body) + after.0, after.1)
  {
    var after := TokenizeLine([Root, Str], tail, v);
    if body == [] {
      assert body + tail == tail;
      assert PlainTokens(body) + after.0 == after.0;
    } else {
      assert StepIn(Str, body + tail, v) == Step([Token(body, StringText)], Stay) by {
        PlainRun(body, tail, v);
      }
      OneTokenThenRest([Root, Str], Token(body, StringText), tail, v, Stay);
    }
  }

  lemma OpenQuoteLine(t: string, v: Vocabulary)
    ensures var after := TokenizeLine([Root, Str], t, v);
            TokenizeLine([Root], "\"" + t, v) == ([Token("\"", StringQuote)] + after.0, after.1)
  {
    assert StepIn(Root, "\"" + t, v) == Step([Token("\"", StringQuote)], Push(Str)) by {
      QuoteOpens("\"" + t, v);
    }
    assert Move([Root], Push(Str)) == [Root] + [Str] == [Root, Str];
    OneTokenThenRest([Root], Token("\"", StringQuote), t, v, Push(Str));
  }

  lemma CloseQuoteLine(t: string, v: Vocabulary)
    ensures var after := TokenizeLine([Root], t, v);
            TokenizeLine([Root, Str], "\"" + t, v) == ([Token("\"", StringQuote)] + after.0, after.1)
  {
    assert StepIn(Str, "\"" + t, v) == Step([Token("\"", StringQuote)], Pop) by {
      QuoteCloses("\"" + t, v);
    }
    assert Move([Root, Str], Pop) == [Root];
    OneTokenThenRest([Root, Str], Token("\"", StringQuote), t, v, Pop);
  }

  /**
   * A string without escapes is an opening "string.quote", its text as one
   * "string" token, and a closing "string.quote", after which the line
   * goes on in `root` (lines 496, 504-508).
   */
  lemma PlainStringLiteral(body: string, rest: string, v: Vocabulary)
    requires PlainStringText(body)
    ensures var after := TokenizeLine([Root], rest, v);
            var q := Token("\"", StringQuote);
            TokenizeLine([Root], "\"" + body + "\"" + rest, v) == ([q] + PlainTokens(body) + [q] + after.0, after.1)
  {
    var q := Token("\"", StringQuote);
    var after := TokenizeLine([Root], rest, v);
    var closing := TokenizeLine([Root, Str], "\"" + rest, v);
    var inside := TokenizeLine([Root, Str], body + ("\"" + rest), v);
    var whole := TokenizeLine([Root], "\"" + (body + ("\"" + rest)), v);
    assert closing == ([q] + after.0, after.1) by { CloseQuoteLine(rest, v); }
    assert inside == (PlainTokens(body) + closing.0, closing.1) by { PlainRunLine(body, "\"" + rest, v); }
    assert whole == ([q] + inside.0, inside.1) by { OpenQuoteLine(body + ("\"" + rest), v); }
    Assemble(q, PlainTokens(body), q, after, closing, inside, whole);
    QuotedSplit(body, rest);
  }

  lemma QuotedSplit(body: string, rest: string)
    ensures "\"" + body + "\"" + rest == "\"" + (body + ("\"" + rest))
  {
    ConcatAssociates("\"", body, "\"");
    ConcatAssociates("\"" + body, "\"", rest);
    ConcatAssociates("\"", body, "\"" + rest);
  }

  /**
   * A string left open at the end of a line leaves `string` on the stack,
   * so the next line starts inside the string: of the two lines `"a` and
   * `b"`, the second is the text `b` and the closing quote, whatever `b`
   * looks like.
   */
  lemma StringSpansLines(a: string, b: string, v: Vocabulary)
    requires PlainStringText(a) && PlainStringText(b)
    ensures var q := Token("\"", StringQuote);
            Tokenize(["\"" + a, b + "\""], v) == [[q] + PlainTokens(a), PlainTokens(b) + [q]]
  {
    var q := Token("\"", StringQuote);
    var empty := TokenizeLine([Root, Str], [], v);
    var first := TokenizeLine([Root], "\"" + a, v);
    assert first == ([q] + PlainTokens(a), [Root, Str]) by {
      assert a + [] == a;
      PlainRunLine(a, [], v);
      OpenQuoteLine(a, v);
      assert PlainTokens(a) + [] == PlainTokens(a);
    }
    var second := TokenizeLine([Root, Str], b + "\"", v);
    assert second == (PlainTokens(b) + [q], [Root]) by {
      assert "\"" + [] == "\"";
      CloseQuoteLine([], v);
      PlainRunLine(b, "\"", v);
      assert [q] + [] == [q];
    }
    var lines := ["\"" + a, b + "\""];
    assert lines[1..] == [b + "\""];
    assert TokenizeFrom([Root, Str], [b + "\""], v).0 == [second.0];
  }
}
