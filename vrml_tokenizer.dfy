/**
 * The classic VRML (X3D classic encoding) token table that the playground
 * registers with the editor (docs/assets/playground/playground.mjs:446-511),
 * and the way the editor's Monarch engine runs such a table: a line is
 * tokenized from left to right; at each position the rules of the state on
 * top of the state stack are tried in order and the first that matches
 * produces its token(s) and may push or pop a state; when no rule matches,
 * one character becomes a token of the default class ("invalid"). The state
 * stack is carried from one line to the next.
 */
module VrmlTokenizer {
  import opened Wrappers
  import opened VrmlChars
  import opened VrmlRules

  /** Token classes of the table (the ".vrml" postfix is left off). */
  datatype Kind =
    | Delimiter            // "delimiter"
    | Constant             // "constant"
    | Regexp               // "regexp": reserved words and access types
    | Keyword              // "keyword": node type names, profiles, components
    | TypeIdentifier       // "type.identifier": DEF names, field types
    | AttributeName        // "attribute.name": field names
    | Comment              // "comment"
    | Bracket              // "@brackets"
    | NumberFloat          // "number.float"
    | NumberHex            // "number.hex"
    | Number               // "number"
    | StringQuote          // "string.quote"
    | StringText           // "string"
    | StringEscape         // "string.escape"
    | StringEscapeInvalid  // "string.escape.invalid"
    | Unstyled             // "": the white-space groups of the IMPORT rule
    | Invalid              // the default token

  datatype Token = Token(text: string, kind: Kind)

  /** The states of the tokenizer (lines 473-509). */
  datatype State = Root | TypeName | Name | Str

  /** What a rule does to the state stack. */
  datatype Next = Stay | Push(state: State) | Pop

  /** The tokens one rule produces, and its effect on the stack. */
  datatype Step = Step(tokens: seq<Token>, next: Next)

  /**
   * The three vocabularies read from the browser when the table is built
   * (lines 457-459): supported profile names, supported component names and
   * the type names of the concrete nodes.
   */
  datatype Vocabulary = Vocabulary(profiles: set<string>, components: set<string>, nodes: set<string>)

  /** `keywords` (lines 454-456). */
  const Keywords: set<string> :=
    {"PROFILE", "COMPONENT", "UNIT", "META", "DEF", "USE", "EXTERNPROTO", "PROTO", "IS", "ROUTE", "TO", "IMPORT", "EXPORT", "AS"}

  /** `accessTypes` (lines 460-465), X3D and VRML97 spellings. */
  const AccessTypes: set<string> :=
    {"initializeOnly", "inputOnly", "outputOnly", "inputOutput", "field", "eventIn", "eventOut", "exposedField"}

  /** `fieldTypes` (lines 467-469). */
  const FieldTypes: set<string> :=
    {"SFBool", "SFColor", "SFColorRGBA", "SFDouble", "SFFloat", "SFImage", "SFInt32", "SFMatrix3d", "SFMatrix3f",
     "SFMatrix4d", "SFMatrix4f", "SFNode", "SFRotation", "SFString", "SFTime", "SFVec2d", "SFVec2f", "SFVec3d",
     "SFVec3f", "SFVec4d", "SFVec4f", "MFBool", "MFColor", "MFColorRGBA", "MFDouble", "MFFloat", "MFImage",
     "MFInt32", "MFMatrix3d", "MFMatrix3f", "MFMatrix4d", "MFMatrix4f", "MFNode", "MFRotation", "MFString",
     "MFVec2d", "MFVec2f", "MFVec3d", "MFVec3f", "MFVec4d", "MFVec4f"}

  /** The `cases` of the identifier rule (lines 480-489), tried in order. */
  function ClassifyId(w: string, v: Vocabulary): (k: Kind)
    ensures k == Regexp <==> w in Keywords || (w in AccessTypes && w !in v.profiles + v.components + v.nodes)
    ensures k == Keyword <==> w !in Keywords && w in v.profiles + v.components + v.nodes
    ensures k == TypeIdentifier <==> w in FieldTypes && w !in Keywords + AccessTypes + v.profiles + v.components + v.nodes
    ensures k == AttributeName <==> w !in Keywords + AccessTypes + FieldTypes + v.profiles + v.components + v.nodes
  {
    if w in Keywords then Regexp
    else if w in v.profiles then Keyword
    else if w in v.components then Keyword
    else if w in v.nodes then Keyword
    else if w in AccessTypes then Regexp
    else if w in FieldTypes then TypeIdentifier
    else AttributeName
  }

  /** The text of a sequence of tokens. */
  function Texts(ts: seq<Token>): string
  {
    if ts == [] then [] else ts[0].text + Texts(ts[1..])
  }

  /** How a rule recognises its text at the start of the rest of the line. */
  datatype Matcher =
    | DelimiterChar                 // [,:.]
    | Words(words: seq<string>)     // an alternation of literal words
    | ImportStatement               // (IMPORT)(\s+)(@id)(\s*)(\.)(\s*)(@id)
    | TypeNameAhead                 // @id(?=\s*\{)
    | Identifier                    // @id
    | Hash                          // #.*
    | BracketChar                   // [{}\[\]]
    | Float                         // [+-]?(?:(?:(?:\d*\.\d+)|(?:\d+(?:\.)?))(?:[eE][+-]?\d+)?)
    | Hex                           // 0[xX][\da-fA-F]+
    | Integer                       // [+-]?\d+
    | Quote                         // "
    | StringChars                   // [^\\"]+
    | KnownEscape                   // @escapes
    | AnyEscape                     // \\.

  /** The token(s) a rule gives its text. */
  datatype Action =
    | Emit(kind: Kind)              // one token of a fixed class
    | IdentifierCases               // the `cases` of line 480
    | EmitGroups(kinds: seq<Kind>)  // one token per capturing group

  datatype Rule = Rule(matcher: Matcher, action: Action, next: Next)

  /** The `root` rules (lines 473-497), in order. */
  const RootRules: seq<Rule> := [
    Rule(DelimiterChar, Emit(Delimiter), Stay),
    Rule(Words(ConstantWords), Emit(Constant), Stay),
    Rule(Words(ProtoWords), Emit(Regexp), Push(TypeName)),
    Rule(Words(NameWords), Emit(Regexp), Push(Name)),
    Rule(ImportStatement, EmitGroups([Regexp, Unstyled, TypeIdentifier, Unstyled, Delimiter, Unstyled, TypeIdentifier]), Stay),
    Rule(TypeNameAhead, Emit(Keyword), Stay),
    Rule(Identifier, IdentifierCases, Stay),
    Rule(Hash, Emit(Comment), Stay),
    Rule(BracketChar, Emit(Bracket), Stay),
    Rule(Float, Emit(NumberFloat), Stay),
    Rule(Hex, Emit(NumberHex), Stay),
    Rule(Integer, Emit(Number), Stay),
    Rule(Quote, Emit(StringQuote), Push(Str))
  ]

  /** Positions of the rules in `RootRules`. */
  const DelimiterRule: nat := 0
  const ConstantRule: nat := 1
  const ProtoRule: nat := 2
  const NameRule: nat := 3
  const ImportRule: nat := 4
  const TypeNameAheadRule: nat := 5
  const IdentifierRule: nat := 6
  const CommentRule: nat := 7
  const BracketRule: nat := 8
  const FloatRule: nat := 9
  const HexRule: nat := 10
  const IntegerRule: nat := 11
  const QuoteRule: nat := 12

  /** The `typeName` rules (lines 498-500). */
  const TypeNameRules: seq<Rule> := [Rule(Identifier, Emit(Keyword), Pop)]

  /** The `name` rules (lines 501-503). */
  const NameRules: seq<Rule> := [Rule(Identifier, Emit(TypeIdentifier), Pop)]

  /** The `string` rules (lines 504-509). */
  const StringRules: seq<Rule> := [
    Rule(StringChars, Emit(StringText), Stay),
    Rule(KnownEscape, Emit(StringEscape), Stay),
    Rule(AnyEscape, Emit(StringEscapeInvalid), Stay),
    Rule(Quote, Emit(StringQuote), Pop)
  ]

  function RulesOf(state: State): seq<Rule>
  {
    match state
    case Root => RootRules
    case TypeName => TypeNameRules
    case Name => NameRules
    case Str => StringRules
  }

  /** Length of the text `m` matches at the start of `s`; 0 when it does not match. */
  function MatchLen(m: Matcher, s: string): (n: nat)
    ensures n <= |s|
  {
    match m
    case DelimiterChar => if s != [] && s[0] in ",:." then 1 else 0
    case Words(ws) => (match FirstPrefix(s, ws) case Some(w) => |w| case None => 0)
    case ImportStatement => (match MatchImport(s) case Some(g) => |g.Text()| case None => 0)
    case TypeNameAhead => if IdBeforeBrace(s) then IdLen(s) else 0
    case Identifier => IdLen(s)
    case Hash => CommentLen(s)
    case BracketChar => if s != [] && s[0] in "{}[]" then 1 else 0
    case Float => FloatLen(s)
    case Hex => HexLen(s)
    case Integer => IntegerLen(s)
    case Quote => if s != [] && s[0] == '"' then 1 else 0
    case StringChars => StringRunLen(s)
    case KnownEscape => EscapeLen(s)
    case AnyEscape => InvalidEscapeLen(s)
  }

  /** The capturing groups of the IMPORT rule, in order. */
  function Parts(g: ImportGroups): (parts: seq<string>)
    ensures |parts| == 7 && Concat(parts) == g.Text()
  {
    var parts := ["IMPORT", g.gap, g.inline, g.beforeDot, ".", g.afterDot, g.exported];
    var tail := g.afterDot + g.exported;
    assert Concat(parts[6..]) == g.exported;
    assert Concat(parts[5..]) == tail;
    assert Concat(parts[4..]) == "." + tail;
    assert Concat(parts[3..]) == g.beforeDot + ("." + tail);
    assert Concat(parts[2..]) == g.inline + (g.beforeDot + ("." + tail));
    assert Concat(parts[1..]) == g.gap + (g.inline + (g.beforeDot + ("." + tail)));
    g.TextNested();
    parts
  }

  /**
   * Tokens pairing each group with its class; a group that matched the
   * empty string yields no token.
   */
  function Zip(parts: seq<string>, kinds: seq<Kind>): (ts: seq<Token>)
    requires |parts| == |kinds|
    ensures Texts(ts) == Concat(parts)
    ensures forall t :: t in ts ==> t.text != []
    ensures forall t :: t in ts ==> exists i :: 0 <= i < |parts| && t == Token(parts[i], kinds[i])
    ensures forall i :: 0 <= i < |parts| && parts[i] != [] ==> Token(parts[i], kinds[i]) in ts
  {
    if parts == [] then []
    else
      var rest := Zip(parts[1..], kinds[1..]);
      assert forall i :: 1 <= i < |parts| ==> parts[1..][i - 1] == parts[i] && kinds[1..][i - 1] == kinds[i];
      if parts[0] == [] then rest
      else
        assert Texts([Token(parts[0], kinds[0])] + rest) == parts[0] + Texts(rest) by {
          assert ([Token(parts[0], kinds[0])] + rest)[1..] == rest;
        }
        [Token(parts[0], kinds[0])] + rest
  }

  /**
   * A group action needs a rule with that many groups: only the IMPORT rule
   * has groups, seven of them.
   */
  predicate WellFormedRule(r: Rule)
  {
    r.action.EmitGroups? ==> r.matcher == ImportStatement && |r.action.kinds| == 7
  }

  /** The tokens rule `r` produces for the text it matches at the start of `s`. */
  function Fire(r: Rule, s: string, v: Vocabulary): (ts: seq<Token>)
    requires WellFormedRule(r) && MatchLen(r.matcher, s) > 0
    ensures Texts(ts) == s[..MatchLen(r.matcher, s)]
    ensures forall t :: t in ts ==> t.text != []
  {
    var n := MatchLen(r.matcher, s);
    match r.action
    case Emit(k) =>
      assert Texts([Token(s[..n], k)]) == s[..n] + Texts([]);
      [Token(s[..n], k)]
    case IdentifierCases =>
      assert Texts([Token(s[..n], ClassifyId(s[..n], v))]) == s[..n] + Texts([]);
      [Token(s[..n], ClassifyId(s[..n], v))]
    case EmitGroups(kinds) =>
      var g := MatchImport(s).value;
      assert g.Text() == s[..n];
      Zip(Parts(g), kinds)
  }

  /** The step's tokens cover a non-empty prefix of `s`. */
  predicate StepCovers(s: string, r: Step)
  {
    |Texts(r.tokens)| > 0 && Texts(r.tokens) <= s
  }

  /**
   * The first of `rules` that matches at the start of `s` fires; when none
   * does, the first character becomes a default ("invalid") token.
   */
  function FirstMatch(rules: seq<Rule>, s: string, v: Vocabulary): (r: Step)
    requires s != []
    requires forall i :: 0 <= i < |rules| ==> WellFormedRule(rules[i])
    ensures StepCovers(s, r)
    ensures r.next == Stay || exists i :: 0 <= i < |rules| && rules[i].next == r.next
    decreases |rules|
  {
    if rules == [] then
      assert Texts([Token(s[..1], Invalid)]) == s[..1] + Texts([]);
      Step([Token(s[..1], Invalid)], Stay)
    else if MatchLen(rules[0].matcher, s) > 0 then
      Step(Fire(rules[0], s, v), rules[0].next)
    else
      var r := FirstMatch(rules[1..], s, v);
      assert forall i :: 1 <= i < |rules| ==> rules[1..][i - 1] == rules[i];
      r
  }

  /** Every push in `rules` enters a state other than `root`; `pops` says whether they may pop. */
  predicate StackDiscipline(rules: seq<Rule>, pops: bool)
  {
    forall i :: 0 <= i < |rules| ==>
      WellFormedRule(rules[i])
      && (rules[i].next.Push? ==> !pops && rules[i].next.state != Root)
      && (rules[i].next.Pop? ==> pops)
  }

  /** Only the `root` rules push, and only the other states' rules pop. */
  lemma TablesKeepStackDiscipline()
    ensures StackDiscipline(RootRules, false)
    ensures StackDiscipline(TypeNameRules, true)
    ensures StackDiscipline(NameRules, true)
    ensures StackDiscipline(StringRules, true)
  {
  }

  /** One step of the tokenizer in state `state` at the start of `s`. */
  function StepIn(state: State, s: string, v: Vocabulary): (r: Step)
    requires s != []
    ensures StepCovers(s, r)
    ensures r.next.Push? ==> state == Root && r.next.state != Root
    ensures r.next.Pop? ==> state != Root
  {
    TablesKeepStackDiscipline();
    assert StackDiscipline(RulesOf(state), state != Root);
    FirstMatch(RulesOf(state), s, v)
  }

  /**
   * The stacks the tokenizer can be in: `root` alone, or `root` under one
   * other state, since only `root` pushes and the other states only pop.
   */
  predicate ValidStack(stack: seq<State>)
  {
    stack == [Root] || (|stack| == 2 && stack[0] == Root && stack[1] != Root)
  }

  function Top(stack: seq<State>): State
    requires stack != []
  {
    stack[|stack| - 1]
  }

  /** The stack after a rule's push or pop. */
  function Move(stack: seq<State>, next: Next): (r: seq<State>)
    requires ValidStack(stack)
    requires next.Push? ==> Top(stack) == Root && next.state != Root
    requires next.Pop? ==> Top(stack) != Root
    ensures ValidStack(r)
  {
    match next
    case Stay => stack
    case Push(st) => stack + [st]
    case Pop => stack[..|stack| - 1]
  }

  lemma {:induction false} TextsAppend(a: seq<Token>, b: seq<Token>)
    ensures Texts(a + b) == Texts(a) + Texts(b)
  {
    if a != [] {
      assert (a + b)[1..] == a[1..] + b;
      TextsAppend(a[1..], b);
    } else {
      assert a + b == b;
    }
  }

  lemma PrefixThenRest(p: string, s: string, rest: string)
    requires p <= s && rest == s[|p|..]
    ensures p + rest == s
  {
    assert s == s[..|p|] + s[|p|..];
  }

  /**
   * The tokens of one line starting from `stack`, and the stack the next
   * line starts from.
   */
  function TokenizeLine(stack: seq<State>, s: string, v: Vocabulary): (r: (seq<Token>, seq<State>))
    requires ValidStack(stack)
    ensures Texts(r.0) == s
    ensures ValidStack(r.1)
    decreases |s|
  {
    if s == [] then ([], stack)
    else
      var st := StepIn(Top(stack), s, v);
      var n := |Texts(st.tokens)|;
      var rest := TokenizeLine(Move(stack, st.next), s[n..], v);
      TextsAppend(st.tokens, rest.0);
      PrefixThenRest(Texts(st.tokens), s, Texts(rest.0));
      (st.tokens + rest.0, rest.1)
  }

  /** The tokens of each line of a document; tokenizing starts in `root`. */
  function Tokenize(lines: seq<string>, v: Vocabulary): (r: seq<seq<Token>>)
    ensures |r| == |lines|
    ensures forall i :: 0 <= i < |lines| ==> Texts(r[i]) == lines[i]
  {
    TokenizeFrom([Root], lines, v).0
  }

  function TokenizeFrom(stack: seq<State>, lines: seq<string>, v: Vocabulary): (r: (seq<seq<Token>>, seq<State>))
    requires ValidStack(stack)
    ensures |r.0| == |lines| && ValidStack(r.1)
    ensures forall i :: 0 <= i < |lines| ==> Texts(r.0[i]) == lines[i]
    decreases |lines|
  {
    if lines == [] then ([], stack)
    else
      var first := TokenizeLine(stack, lines[0], v);
      var rest := TokenizeFrom(first.1, lines[1..], v);
      ([first.0] + rest.0, rest.1)
  }
}
