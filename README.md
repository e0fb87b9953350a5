# x_ite playground: edit/apply synchronisation and the classic VRML token table

The x_ite playground is a web page with a text editor on one side and an X3D
browser on the other. This project models two parts of its `Playground` class
(`docs/assets/playground/playground.mjs`) and proves properties about them.

**The edit/apply synchronisation** (lines 1-167, 218-251, 297-332). The editor text is
loaded into the browser in these cases:

- a debounce timer fires after an edit, when Auto Update is on;
- the user presses Ctrl+S or Cmd+S;
- the user presses the refresh button;
- the user turns Auto Update back on while changes are pending.

`applyChanges` does the following, in order:

1. It copies the active viewpoint's navigation offsets.
2. It loads the text and swallows a rejection.
3. It puts the offsets back, but only when a viewpoint exists both before and after the load.
4. It sets the editor language to the scene's encoding.
5. It clears the `changed` flag.

Module `PlaygroundSync` models every handler as a pure transition on a `Session` value. The properties are lemmas about those transitions. Class `PlaygroundApp.Playground` has the source's fields for the editor text and language, the two flags, the timeout handle and the scene; it also holds the environment's timer table (`armed`, `nextTimer`) and the loads in flight, and leaves out `browser`, `canvas` and `editor`, which it reaches only through those fields. Each of its handler methods is proved to take its fields to the state the matching transition computes, and to keep the timer invariant.

Timers and the `await` are modelled as explicit events:

- A timer is a handle in `armed` until it fires.
- `applyChanges` is split at its `await`:
  - `ApplyChanges`/`StartApply` put a load in flight.
  - `ResumeApply`/`FinishApply` run the rest when a given load settles with a given outcome.

**The classic VRML token table** (lines 446-511). This is the Monarch grammar the playground registers for the X3D classic encoding. The modules split it as follows:

- `VrmlChars`: the identifier character classes and greedy runs.
- `VrmlRules`: one matcher per regular expression of the table. The IMPORT rule is matched with the backtracking order of the JavaScript engine: `Backtrack` tries a greedy white-space group at its longest length first and then at each shorter one, and the `…Takes` lemmas state which groups a match takes.
- `VrmlTokenizer`: the table as data and the Monarch engine that runs it. At each position the first rule of the top state that matches fires. When no rule matches, one character becomes an "invalid" token. The state stack is carried from line to line.
- `VrmlProperties`: what the table does to identifiers, declarations, numbers and strings.

The profile, component and node names the browser supplies are a `Vocabulary` parameter.

Behaviour of the code worth noting:

- Turning Auto Update off does not cancel a pending timer. When the timer fires, the text is applied anyway (`TimerOutlivesToggleOff`).
- `changed` is cleared after a load that was rejected as well as after one that succeeded (`OutcomeIsIgnored`). The offsets are restored in both cases too.
- Nothing prevents a second load while one is in flight (`ShortcutTwiceLoadsTwice`). An edit made during a load is marked applied when that load settles (`EditDuringLoadIsCleared`).
- The float rule comes before the hexadecimal and integer rules and also matches plain digit runs. As a result no `number.hex` or `number` token is ever produced (`LineHasNoHexOrIntegerTokens`). `0x1F` becomes `0` (number.float) followed by the identifier `x1F` (`HexLiteralSplits`).
- An unterminated string is not marked invalid. It leaves the `string` state on the stack, so the next line continues the string (`StringSpansLines`).
- `\x` escapes take one to four hex digits.
- An encoding-conversion button replaces the editor text through `setValue`, which the change handler treats as a flush: pending changes stay pending and no new ones are recorded (`ConversionIsNotAnEdit`).
- The declaration words have no word boundary: `DEFAULT` is `DEF` followed by the name `AULT` (`DefaultIsDefThenName`).

## Model

| member | source | states |
|---|---|---|
| PlaygroundSync.StartEncoding | docs/assets/playground/playground.mjs:61 | the start encoding is the scene's own when it reports XML, JSON or VRML, and XML for any other report |
| PlaygroundSync.StartEncodingOfName | docs/assets/playground/playground.mjs:61 | each of the three names maps back to its own encoding |
| PlaygroundSync.LanguageOfEncoding | docs/assets/playground/playground.mjs:61-63 | the editor language of each encoding is its lower-cased name: xml, json or vrml |
| PlaygroundSync.Start | docs/assets/playground/playground.mjs:56-68 | after setup: the browser holds the loaded scene; auto-update is on, nothing is changed, no handle is recorded or armed and no load is in flight; the editor holds the scene serialised in the start encoding, with that encoding's lower-cased name, one of the three languages; the invariant holds |
| PlaygroundSync.ContentChanged | docs/assets/playground/playground.mjs:86-101 | a flush changes nothing; any other change sets `changed` and keeps the text, the flag, the scene, the language and the loads; in manual mode the timers and the handle counter are untouched; in auto mode the pending timer is cancelled and exactly one new handle, the next one, is armed and recorded |
| PlaygroundSync.ClearTimeout | docs/assets/playground/playground.mjs:98 | only the recorded handle is disarmed, everything else is kept; under the invariant no timer is left armed |
| PlaygroundSync.SetTimeout | docs/assets/playground/playground.mjs:100 | the next handle is recorded and armed and the counter moves on, everything else is kept; that handle was not armed before, and from no armed timer the invariant holds with exactly that one armed |
| PlaygroundSync.Edit | docs/assets/playground/playground.mjs:86-101 | after typing, the editor holds the new text and `changed` is set |
| PlaygroundSync.StartApply | docs/assets/playground/playground.mjs:135-153 | exactly one load is appended, of the editor text with the active viewpoint's offsets; nothing else changes; the invariant is kept |
| PlaygroundSync.FinishApply | docs/assets/playground/playground.mjs:153-166 | when a load settles: `changed` is false; the load leaves the in-flight list; the copied offsets go onto the new viewpoint exactly when there was a viewpoint before and there is one after, and otherwise the loaded scene is kept; the language follows the loaded scene's encoding; the text, flag and timers are unchanged |
| PlaygroundSync.KeyDown | docs/assets/playground/playground.mjs:103-112 | the save shortcut adds exactly one load and any other key none; nothing else changes; the invariant is kept |
| PlaygroundSync.Toggle | docs/assets/playground/playground.mjs:226-231 | the flag is negated; `changed`, the timers, the text, the scene and the language are kept; the invariant is kept |
| PlaygroundSync.Refresh | docs/assets/playground/playground.mjs:247-250 | exactly one load of the editor text is added and nothing else changes |
| PlaygroundSync.TimerFires | docs/assets/playground/playground.mjs:100 | the fired timer is spent and one load of the editor text, with the viewpoint offsets as they are, is added; every other field is kept; under the invariant no timer is left armed and the invariant holds |
| PlaygroundSync.Convert | docs/assets/playground/playground.mjs:297-302 | a conversion button puts the scene serialised in the chosen encoding into the editor and sets the language to that encoding's lower-cased name, one of the three; `changed`, the flag, the scene, the loads and the timers are kept |
| PlaygroundSync.Lower | docs/assets/playground/playground.mjs:63 | each character is lower-cased on its own and the length is kept |
| PlaygroundSync.EventsKeepInvariant | docs/assets/playground/playground.mjs:84-112 | every event, a conversion included, keeps the invariant: only the handle in `timeoutId` can be armed, and handles still to be given out are new |
| PlaygroundSync.ContentKeepsInvariant | docs/assets/playground/playground.mjs:95-100 | a content change keeps the timer invariant |
| PlaygroundSync.AtMostOneTimer | docs/assets/playground/playground.mjs:98-100 | under the invariant at most one debounce timer is armed |
| PlaygroundSync.EditArmsOneTimer | docs/assets/playground/playground.mjs:91-100 | an edit starts no load; in auto mode exactly the new handle is armed afterwards; in manual mode the armed timers are unchanged |
| PlaygroundSync.EditsCoalesce | docs/assets/playground/playground.mjs:98-100 | any non-empty run of edits in auto mode leaves exactly one timer armed, starts no load and leaves the last text in the editor |
| PlaygroundSync.DebouncedApply | docs/assets/playground/playground.mjs:98-100 | when the timer left by a run of edits fires, exactly one load starts, of the last text with the current offsets, and no timer is left |
| PlaygroundSync.ToggleAppliesOnce | docs/assets/playground/playground.mjs:226-231 | the toggle negates the flag, leaves timers and `changed` alone, and starts one load exactly when it turns auto-update on with changes pending |
| PlaygroundSync.TimerOutlivesToggleOff | docs/assets/playground/playground.mjs:226-231 | turning auto-update off leaves a pending timer armed, and its firing still starts a load |
| PlaygroundSync.OutcomeIsIgnored | docs/assets/playground/playground.mjs:153-163 | a rejected load and a resolved one with the same resulting scene lead to the same state, and `changed` is false afterwards |
| PlaygroundSync.ApplyKeepsViewpointOffsets | docs/assets/playground/playground.mjs:140-159 | one apply from start to finish keeps the viewpoint offsets from before the load when a viewpoint exists before and after; otherwise the loaded scene is kept as loaded; `changed` ends false |
| PlaygroundSync.ShortcutAndRefreshApply | docs/assets/playground/playground.mjs:103-112 | Ctrl/Cmd+S and the refresh button each add exactly one load of the editor text and change nothing else; any other key changes nothing |
| PlaygroundSync.ShortcutTwiceLoadsTwice | docs/assets/playground/playground.mjs:135-153 | with no re-entry guard, two shortcuts put two loads of the same text in flight |
| PlaygroundSync.EditDuringLoadIsCleared | docs/assets/playground/playground.mjs:153-163 | in manual mode, an edit made while a load is in flight is marked unchanged when that load settles, although the load carried the older text |
| PlaygroundSync.ConversionIsNotAnEdit | docs/assets/playground/playground.mjs:312-317 | a conversion after typing leaves the edit pending, a conversion alone leaves `changed` as it was, and the next apply loads the converted text |
| PlaygroundApp.Playground.constructor | docs/assets/playground/playground.mjs:56-68 | the fields after setup are those of `Start`, and the invariant holds |
| PlaygroundApp.Playground.ClearTimeout | docs/assets/playground/playground.mjs:98 | the cleared handle is no longer armed; an unset handle cancels nothing; nothing else changes |
| PlaygroundApp.Playground.SetTimeout | docs/assets/playground/playground.mjs:100 | returns the counter's value, a handle never given out before, arms it and advances the counter |
| PlaygroundApp.Playground.Type | docs/assets/playground/playground.mjs:86-101 | the user typing a new text: the fields become `Edit` of the old state, and the invariant is kept |
| PlaygroundApp.Playground.OnDidChangeContent | docs/assets/playground/playground.mjs:86-101 | the fields become `ContentChanged` of the old state, and the invariant is kept |
| PlaygroundApp.Playground.ApplyChanges | docs/assets/playground/playground.mjs:135-153 | the fields become `StartApply` of the old state: one load of the text with the current offsets is appended |
| PlaygroundApp.Playground.ResumeApply | docs/assets/playground/playground.mjs:153-166 | the fields become `FinishApply` of the old state for that load and outcome |
| PlaygroundApp.Playground.OnKeyDown | docs/assets/playground/playground.mjs:103-112 | the default action is prevented exactly for Ctrl/Cmd+S; the fields become `KeyDown` of the old state |
| PlaygroundApp.Playground.ToggleAutoUpdate | docs/assets/playground/playground.mjs:226-231 | the fields become `Toggle` of the old state |
| PlaygroundApp.Playground.Refresh | docs/assets/playground/playground.mjs:247-250 | the fields become `Refresh` of the old state |
| PlaygroundApp.Playground.ConvertTo | docs/assets/playground/playground.mjs:327-332 | the fields become `Convert` of the old state, and the invariant is kept |
| PlaygroundApp.Playground.FireTimer | docs/assets/playground/playground.mjs:100 | an armed timer firing is spent and starts `applyChanges`, as `TimerFires` says |
| VrmlChars.Span | docs/assets/playground/playground.mjs:470 | a greedy run is the longest prefix whose characters all belong to the class |
| VrmlChars.IdLen | docs/assets/playground/playground.mjs:470 | `@id` matches exactly when the first character may begin an identifier, and then it takes the longest identifier, which no identifier character follows |
| VrmlRules.FirstPrefix | docs/assets/playground/playground.mjs:475-477 | an alternation of words takes the first listed word that begins the text, and fails exactly when none does |
| VrmlRules.MantissaLen | docs/assets/playground/playground.mjs:493 | the mantissa matches exactly at a digit, or at a dot followed by a digit; it takes only digits and at most the one dot after the leading digits; it takes at least all the leading digits, and the dot after them too when there is one; no digit follows it |
| VrmlRules.ExponentLen | docs/assets/playground/playground.mjs:493 | the exponent matches exactly at `e` or `E` followed by a digit, or by a sign and a digit; after the letter it takes only the optional sign and digits, ends on a digit, and no digit follows it |
| VrmlRules.FloatLen | docs/assets/playground/playground.mjs:493 | the float rule matches exactly when, after an optional sign, a digit or a dot followed by a digit begins the text; a match is never followed by a digit |
| VrmlProperties.FloatSigned | docs/assets/playground/playground.mjs:493 | a sign before an unsigned text adds exactly one character to the float taken there, and there is no float after a sign where there is none without it |
| VrmlProperties.ExponentOf | docs/assets/playground/playground.mjs:493 | `e` or `E`, an optional sign and a non-empty digit run, followed by no digit, is taken whole by the exponent |
| VrmlProperties.MantissaOfInteger | docs/assets/playground/playground.mjs:493 | the mantissa takes a non-empty digit run whole when neither a digit nor a dot follows it |
| VrmlProperties.FloatOfScientific | docs/assets/playground/playground.mjs:493 | digits, `e` or `E`, an optional sign and non-empty digits, followed by no digit, are taken whole by the float rule |
| VrmlRules.HexLen | docs/assets/playground/playground.mjs:494 | the hexadecimal rule matches exactly at `0`, `x` or `X` and a hex digit |
| VrmlRules.IntegerLen | docs/assets/playground/playground.mjs:495 | the integer rule matches exactly when a digit begins the text after an optional sign |
| VrmlRules.CommentLen | docs/assets/playground/playground.mjs:491 | a comment matches exactly at `#`, holds no line terminator, and stops only at the end of the text or at a line terminator |
| VrmlRules.MatchImport | docs/assets/playground/playground.mjs:478 | a match of the IMPORT rule has well-shaped groups (non-empty space, identifier, space, dot, space, identifier) whose text begins the line |
| VrmlRules.Backtrack | docs/assets/playground/playground.mjs:478 | a greedy group backtracking from `n` repetitions down to its minimum picks a count in range at which the rest matches, and the rest matches at no larger count up to `n`; it fails only when the rest matches at no count in range |
| VrmlRules.ImportFrom | docs/assets/playground/playground.mjs:478 | backtracking over the first white-space group yields only well-shaped groups that begin the line; it succeeds exactly when `Backtrack` from `n` down to 1 finds a length, and then yields the groups at that length |
| VrmlRules.ImportAt | docs/assets/playground/playground.mjs:478 | with a first white-space group of length `p` after which the rest matches, the groups are well shaped, begin the line, have that gap and the rest's groups |
| VrmlRules.ImportFromTakes | docs/assets/playground/playground.mjs:478 | a match takes a non-empty first white-space group of at most `n` characters, the rest of the rule matches after it with the groups taken, and the rest matches after no longer group up to `n` |
| VrmlRules.MatchImportTakes | docs/assets/playground/playground.mjs:478 | a match of the IMPORT rule takes the longest white-space group after the keyword, no longer than the white space there, after which the rest of the rule matches, and the groups the rest yields there |
| VrmlRules.ImportTail | docs/assets/playground/playground.mjs:478 | the part after the first white-space group is an identifier, space, a dot, space and an identifier, and begins the text |
| VrmlRules.ImportTailTakes | docs/assets/playground/playground.mjs:478 | that part takes the longest identifier, all the white space after it, the dot that must follow, and then the groups backtracking over the last white-space group finds after the dot |
| VrmlRules.LastId | docs/assets/playground/playground.mjs:478 | backtracking over the last white-space group yields space then an identifier that begin the text |
| VrmlRules.LastIdTakes | docs/assets/playground/playground.mjs:478 | that white space is at most `j` characters, the identifier after it is the longest one there, and no identifier starts after any longer white space up to `j` |
| VrmlRules.LastIdComplete | docs/assets/playground/playground.mjs:478 | backtracking over the last white-space group succeeds whenever an identifier starts inside or right after that white space |
| VrmlRules.ImportTailComplete | docs/assets/playground/playground.mjs:478 | the part after the first white-space group matches wherever an identifier, white space, a dot, white space and an identifier begin the text |
| VrmlRules.ImportFromComplete | docs/assets/playground/playground.mjs:478 | backtracking over the first white-space group from length `n` succeeds whenever the rest of the pattern matches after some non-empty group no longer than `n` |
| VrmlRules.MatchImportComplete | docs/assets/playground/playground.mjs:478 | the IMPORT rule matches wherever a statement of its shape begins the line, so `MatchImport` misses no match |
| VrmlRules.StringRunLen | docs/assets/playground/playground.mjs:505 | plain string text matches exactly when the first character is neither a quote nor a backslash |
| VrmlRules.EscapeLen | docs/assets/playground/playground.mjs:471 | a recognised escape matches exactly at a backslash followed by one of `abfnrtv\\"'` and the backtick (2 characters), by `x` and a hex digit (up to four hex digits, as many as there are), by `u` and four hex digits (6 characters) or by `U` and eight (10 characters) |
| VrmlRules.InvalidEscapeLen | docs/assets/playground/playground.mjs:507 | the invalid-escape rule matches exactly at a backslash followed by a character that is not a line terminator, and then takes those two characters |
| VrmlTokenizer.ClassifyId | docs/assets/playground/playground.mjs:480-489 | the class of an identifier, one iff per class: keywords win over every vocabulary; profile, component and node names give "keyword"; access types give "regexp" and field types "type.identifier" only when no earlier set holds the word; everything else is "attribute.name" |
| VrmlTokenizer.Parts | docs/assets/playground/playground.mjs:478 | the seven capturing groups of the IMPORT rule, put together, are its whole match |
| VrmlTokenizer.Zip | docs/assets/playground/playground.mjs:478 | one token per non-empty group, with that group's class, and no other; no token is empty; together they cover the groups' text |
| VrmlTokenizer.Fire | docs/assets/playground/playground.mjs:473-509 | the tokens a rule produces cover exactly the text it matches, and none is empty |
| VrmlTokenizer.FirstMatch | docs/assets/playground/playground.mjs:473-509 | a step covers a non-empty prefix of the rest of the line, and its stack move is one that some rule of the state names |
| VrmlTokenizer.TablesKeepStackDiscipline | docs/assets/playground/playground.mjs:473-509 | only `root` pushes, and never `root` itself; only the other three states pop |
| VrmlTokenizer.StepIn | docs/assets/playground/playground.mjs:473-509 | a step covers a non-empty prefix; a push happens only from `root`, and a pop only from another state |
| VrmlTokenizer.Move | docs/assets/playground/playground.mjs:476-477 | the stack stays `root` alone, or `root` under one other state |
| VrmlTokenizer.TokenizeLine | docs/assets/playground/playground.mjs:450-509 | the tokens of a line cover exactly that line, and the stack passed to the next line stays valid |
| VrmlTokenizer.Tokenize | docs/assets/playground/playground.mjs:450-509 | one token list per line, each covering exactly its line |
| VrmlProperties.IdentifierCharacterClasses | docs/assets/playground/playground.mjs:470 | every character that may begin an identifier may continue one; the characters that may continue but not begin one are exactly the digits, `+` and `-` |
| VrmlProperties.WhiteSpaceAndIdentifiers | docs/assets/playground/playground.mjs:470-471 | no character up to U+0020 belongs to an identifier; the white space above U+0020 may begin and continue one; every line terminator is white space |
| VrmlProperties.FirstMatchWins | docs/assets/playground/playground.mjs:473-509 | the step fires the first rule that matches; when none matches it gives one "invalid" token of one character and keeps the state |
| VrmlProperties.FirstIndex | docs/assets/playground/playground.mjs:473-497 | the index found is that of the first matching rule, or the table length when none matches |
| VrmlProperties.NamedStateTakesOneIdentifier | docs/assets/playground/playground.mjs:498-503 | in `typeName` or `name` an identifier is taken whole with that state's class, and the state pops; any other character is one "invalid" token and the state stays |
| VrmlProperties.MantissaOfDecimal | docs/assets/playground/playground.mjs:493 | for digit runs `a` and non-empty `b`, the mantissa `\d*\.\d+` takes `a.b` whole when no digit follows it |
| VrmlProperties.FloatOfDecimal | docs/assets/playground/playground.mjs:493 | for digit runs `a` and non-empty `b`, the float rule takes `a.b` whole when neither a digit nor `e`/`E` follows it |
| VrmlProperties.FloatOfInteger | docs/assets/playground/playground.mjs:493 | a non-empty digit run followed by no digit, dot, `e` or `E` is taken whole by the float rule |
| VrmlProperties.FloatRuleShadowsHexAndInteger | docs/assets/playground/playground.mjs:493-495 | wherever the hexadecimal rule matches, the float rule takes just the `0`; wherever the integer rule matches, the float rule takes at least as much |
| VrmlProperties.HexAndIntegerRulesNeverFirst | docs/assets/playground/playground.mjs:493-495 | the hexadecimal and integer rules are never the first `root` rule to match |
| VrmlProperties.StepEmitsNoHexOrInteger | docs/assets/playground/playground.mjs:473-509 | no step in any state produces a number.hex or number token |
| VrmlProperties.LineHasNoHexOrIntegerTokens | docs/assets/playground/playground.mjs:493-495 | whatever a line holds and whatever state it starts in, none of its tokens is number.hex or number |
| VrmlProperties.RootIdentifier | docs/assets/playground/playground.mjs:479-490 | in `root`, an identifier that no earlier rule claims is one token; it is "keyword" when white space and `{` follow, and otherwise it gets the class `ClassifyId` gives |
| VrmlProperties.IdBeforeBraceMaximal | docs/assets/playground/playground.mjs:479 | if any identifier prefix is followed by white space and `{`, so is the longest one, so the greedy look-ahead loses nothing |
| VrmlProperties.IdBeforeBraceMeaning | docs/assets/playground/playground.mjs:479 | the look-ahead rule matches exactly when some identifier at the start is followed by white space and `{` |
| VrmlProperties.GapInNamedState | docs/assets/playground/playground.mjs:498-503 | in `typeName` or `name`, characters that cannot begin an identifier each become one "invalid" token and the state stays |
| VrmlProperties.RuleWordsPrefixFree | docs/assets/playground/playground.mjs:475-477 | no word of the three word rules begins another |
| VrmlProperties.ProtoWordMatches | docs/assets/playground/playground.mjs:476 | at PROTO or EXTERNPROTO, the PROTO rule is the first to match, and it takes exactly the word |
| VrmlProperties.NameWordMatches | docs/assets/playground/playground.mjs:477 | at DEF, USE, AS, ROUTE, TO or EXPORT, the name-word rule is the first to match, and it takes exactly the word |
| VrmlProperties.DeclarationNamesNextIdentifier | docs/assets/playground/playground.mjs:476-503 | a line made of a declaration word, characters that cannot begin an identifier, an identifier and the rest is tokenized as: the word as "regexp", one "invalid" token per gap character, the identifier as "keyword" after PROTO/EXTERNPROTO and "type.identifier" after the name words, whatever vocabulary holds it, and then the rest from `root` |
| VrmlProperties.DefaultIsDefThenName | docs/assets/playground/playground.mjs:477 | the line `DEFAULT` is the tokens DEF ("regexp") and AULT ("type.identifier"), ending in `root` |
| VrmlProperties.HexLiteralSplits | docs/assets/playground/playground.mjs:493-494 | `0x` followed by hex digits is two tokens: `0` as number.float, then `x…` classified as an identifier |
| VrmlProperties.QuoteOpens | docs/assets/playground/playground.mjs:496 | a quote in `root` is one "string.quote" token that pushes `string` |
| VrmlProperties.QuoteCloses | docs/assets/playground/playground.mjs:508 | a quote in `string` is one "string.quote" token that pops |
| VrmlProperties.PlainRun | docs/assets/playground/playground.mjs:505 | in `string`, plain text up to a quote or the end of the line is one "string" token |
| VrmlProperties.PlainStringLiteral | docs/assets/playground/playground.mjs:496-508 | a string without escapes is an opening quote, its text as one "string" token (none for empty text) and a closing quote, and the line goes on in `root` |
| VrmlProperties.StringSpansLines | docs/assets/playground/playground.mjs:496-509 | a string left open at the end of a line continues on the next line: the lines `"a` and `b"` give `"` + `a` and `b` + `"` |

## Left out

- The rest of the UI glue is not modelled: the refresh button's "selected" class, `updateLanguage`, the toolbar and menu, and the colour scheme. None of it touches the editor text, the flags, the timers or the loads.
- `openFile` and its `FileReader` callback (lines 114-133) are not modelled. The callback is browser file I/O.
- Real timers, the 1000 ms delay and the JavaScript event loop are left out. A timer is a handle that fires when the model says so, and a load settles when `ResumeApply` is called for it, in any order.
- The X3D browser is left out. `loadURL` of the `encodeURI`'d data URL and the parsing it does are abstracted as an `Outcome` that carries the resulting scene. The serialisers `toXMLString`, `toJSONString` and `toVRMLString` are a `serialize` parameter.
- PlaygroundApp.Playground.ResumeApply: assigning a copied offset object onto the viewpoint is modelled as storing the offsets value. Aliasing of that object with later navigation is not modelled.
- PlaygroundSync.Lower: models `toLowerCase` on ASCII letters only. The encodings the browser reports are ASCII.
- PlaygroundSync.StartEncoding: does not model a JavaScript object key lookup reaching an inherited property of `{}` (for an encoding reported as `constructor`, say). Such a lookup gives a non-string instead of XML.
- The start-up load at line 59 is taken as done: `Start` receives the scene it produced.
- The `profiles`, `components` and `nodes` vocabularies (lines 457-459) come from the browser at start-up and are a parameter.
- Language registration and the editor language configuration (lines 513-530) are not modelled: `register`, the brackets and the auto-closing pairs.
- Characters are Unicode scalar values, whereas JavaScript strings are UTF-16 code units. A character outside the Basic Multilingual Plane is one character here and two code units there. This changes the tokens wherever a rule consumes a single code unit: the one-character "invalid" token takes only the high surrogate, and the invalid-escape rule `\\.` after a backslash takes the backslash and the high surrogate, so that the low surrogate is then matched as string text.
- The `.vrml` postfix Monarch appends to every token class is left off the `Kind` names.
- The model lists the tokens each rule firing produces. Monaco's token collector then merges adjacent tokens of the same class, so three invalid spaces after `DEF` reach the editor as one token. That merge is not modelled.
- The `@brackets` action is modelled as one `Bracket` class. The Monarch definition (lines 450-511) declares no `brackets` of its own, so Monarch falls back to its default bracket list and gives `delimiter.curly` or `delimiter.square`; the language configuration at lines 520-530 plays no part in this.
