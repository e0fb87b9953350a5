/**
 * The edit/apply synchronisation of the playground
 * (docs/assets/playground/playground.mjs:1-167), as a transition system on
 * values: every event handler of the `Playground` class is a function from
 * the state before to the state after, and the properties the handlers
 * promise are lemmas about those functions.
 *
 * The real timers and the asynchronous load are events of their own: a
 * timer is a handle in `armed` until it fires (`TimerFires`), and
 * `applyChanges` is split at its `await` into `StartApply`, which puts a
 * load in flight, and `FinishApply`, which runs the rest when that load
 * settles.
 */
module PlaygroundSync {
  import opened Wrappers

  datatype Vec3 = Vec3(x: real, y: real, z: real)

  /** An axis and an angle, as SFRotation holds them. */
  datatype Rotation = Rotation(x: real, y: real, z: real, angle: real)

  /** How far navigation has moved the active viewpoint from where the scene put it. */
  datatype Offsets = Offsets(position: Vec3, orientation: Rotation)

  /**
   * What the playground reads and writes of the browser's current scene:
   * the encoding it reports and the offsets of its active viewpoint, if it
   * has one.
   */
  datatype Scene = Scene(encoding: string, viewpoint: Option<Offsets>)

  /** The three encodings the editor can show. */
  datatype Encoding = XML | JSON | VRML

  function EncodingName(e: Encoding): string
  {
    match e
    case XML => "XML"
    case JSON => "JSON"
    case VRML => "VRML"
  }

  /**
   * The encoding the editor starts in (line 61): the scene's own when it is
   * one of the three, XML for anything else.
   */
  function StartEncoding(reported: string): (e: Encoding)
    ensures reported in {"XML", "JSON", "VRML"} ==> EncodingName(e) == reported
    ensures reported !in {"XML", "JSON", "VRML"} ==> e == XML
  {
    if reported == "JSON" then JSON
    else if reported == "VRML" then VRML
    else XML
  }

  /** `toLowerCase` on the letters A to Z. */
  function LowerChar(c: char): (r: char)
    ensures 'A' <= c <= 'Z' ==> 'a' <= r <= 'z' && r as int - c as int == 32
    ensures !('A' <= c <= 'Z') ==> r == c
  {
    if 'A' <= c <= 'Z' then (c as int + 32) as char else c
  }

  function Lower(s: string): (r: string)
    ensures |r| == |s| && forall i :: 0 <= i < |s| ==> r[i] == LowerChar(s[i])
  {
    if s == [] then [] else [LowerChar(s[0])] + Lower(s[1..])
  }

  /** The editor language of each encoding, as `setModelLanguage` gets it. */
  lemma LanguageOfEncoding(e: Encoding)
    ensures Lower(EncodingName(e)) == match e case XML => "xml" case JSON => "json" case VRML => "vrml"
  {
    var name := EncodingName(e);
    var r := Lower(name);
    var expected := match e case XML => "xml" case JSON => "json" case VRML => "vrml";
    assert |r| == |expected|;
    forall i | 0 <= i < |r| ensures r[i] == expected[i] {
      assert r[i] == LowerChar(name[i]);
    }
  }

  /** A load put in flight by `applyChanges`: the text it loads and the offsets copied before it. */
  datatype Load = Load(text: string, snapshot: Option<Offsets>)

  /**
   * How a load settles. Either way the browser then holds some scene; the
   * code after the `await` cannot tell the two apart, since the rejection
   * is swallowed (line 153).
   */
  datatype Outcome = Resolved(scene: Scene) | Rejected(scene: Scene)

  /**
   * The playground's state: the editor's text and language, the two flags,
   * the debounce handle with the timers still armed and the next handle
   * `setTimeout` will give out, the browser's scene, and the loads in
   * flight.
   */
  datatype Session = Session(
    text: string,
    language: string,
    autoUpdate: bool,
    changed: bool,
    timeoutId: Option<nat>,
    armed: set<nat>,
    nextTimer: nat,
    scene: Scene,
    loads: seq<Load>)

  /** The handles `clearTimeout(h)` cancels: none for an unset handle. */
  function Handles(h: Option<nat>): set<nat>
  {
    match h
    case None => {}
    case Some(id) => {id}
  }

  /**
   * Only the timer `timeoutId` names can be armed, and handles still to be
   * given out are all new.
   */
  predicate Inv(s: Session)
  {
    s.armed <= Handles(s.timeoutId)
    && (s.timeoutId.Some? ==> s.timeoutId.value < s.nextTimer)
  }

  /**
   * The state once `setup` has run (lines 3-4, 56-68): the scene loaded
   * from the start-up URL, the editor showing it in the start encoding,
   * auto-update on, nothing changed, no timer, nothing in flight.
   * `serialize` stands for the scene's `toXMLString`, `toJSONString` and
   * `toVRMLString`.
   */
  function Start(loaded: Scene, serialize: Encoding -> string): (s: Session)
    ensures Inv(s) && s.autoUpdate && !s.changed && s.armed == {} && s.timeoutId == None && s.loads == []
    ensures s.scene == loaded
    ensures s.text == serialize(StartEncoding(loaded.encoding))
    ensures s.language in {"xml", "json", "vrml"}
    ensures s.language == Lower(EncodingName(StartEncoding(loaded.encoding)))
  {
    var e := StartEncoding(loaded.encoding);
    var language := Lower(EncodingName(e));
    LanguageOfEncoding(e);
    Session(serialize(e), language, true, false, None, {}, 0, loaded, [])
  }

  /** `clearTimeout(this.timeoutId)` (line 98). */
  function ClearTimeout(s: Session): (r: Session)
    ensures r.armed == s.armed - Handles(s.timeoutId) && r.(armed := s.armed) == s
    ensures Inv(s) ==> r.armed == {}
  {
    s.(armed := s.armed - Handles(s.timeoutId))
  }

  /** `this.timeoutId = setTimeout(...)` (line 100): a new handle, armed. */
  function SetTimeout(s: Session): (r: Session)
    ensures r.timeoutId == Some(s.nextTimer) && r.nextTimer == s.nextTimer + 1
    ensures r.armed == s.armed + {s.nextTimer} && r.(armed := s.armed, timeoutId := s.timeoutId, nextTimer := s.nextTimer) == s
    ensures Inv(s) ==> s.nextTimer !in s.armed
    ensures Inv(s) && s.armed == {} ==> Inv(r) && r.armed == {r.timeoutId.value}
  {
    s.(armed := s.armed + {s.nextTimer}, timeoutId := Some(s.nextTimer), nextTimer := s.nextTimer + 1)
  }

  /**
   * `onDidChangeContent` (lines 86-101). A flush, that is a change made by
   * `setValue`, is ignored; any other change marks the text as changed and,
   * with auto-update on, replaces the pending timer by a new one.
   */
  function ContentChanged(s: Session, isFlush: bool): (r: Session)
    ensures isFlush ==> r == s
    ensures !isFlush ==> r.changed && r.text == s.text && r.autoUpdate == s.autoUpdate && r.loads == s.loads
    ensures !isFlush ==> r.scene == s.scene && r.language == s.language
    ensures !isFlush && !s.autoUpdate ==> r.armed == s.armed && r.timeoutId == s.timeoutId && r.nextTimer == s.nextTimer
    ensures !isFlush && s.autoUpdate ==>
              r.timeoutId == Some(s.nextTimer) && r.armed == s.armed - Handles(s.timeoutId) + {s.nextTimer}
              && r.nextTimer == s.nextTimer + 1
  {
    if isFlush then s
    else
      var marked := s.(changed := true);
      if !marked.autoUpdate then marked
      else SetTimeout(ClearTimeout(marked))
  }

  /** The user types: the editor holds `newText`, then reports a change that is not a flush. */
  function Edit(s: Session, newText: string): (r: Session)
    ensures r.text == newText && r.changed
  {
    ContentChanged(s.(text := newText), false)
  }

  /**
   * The synchronous half of `applyChanges` (lines 135-153): copy the
   * active viewpoint's offsets, if there is one, and start loading the
   * editor's text. Nothing stops a second load while one is in flight.
   */
  function StartApply(s: Session): (r: Session)
    ensures |r.loads| == |s.loads| + 1 && r.loads[..|s.loads|] == s.loads
    ensures r.loads[|s.loads|] == Load(s.text, s.scene.viewpoint)
    ensures r.(loads := s.loads) == s
    ensures Inv(s) ==> Inv(r)
  {
    s.(loads := s.loads + [Load(s.text, s.scene.viewpoint)])
  }

  /**
   * The rest of `applyChanges` (lines 153-166), run when load `i` settles:
   * the browser now holds the outcome's scene; the copied offsets go onto
   * its active viewpoint when there was one before and there is one now;
   * the editor takes the scene's encoding as its language; and `changed`
   * is cleared, whatever the load did.
   */
  function FinishApply(s: Session, i: nat, outcome: Outcome): (r: Session)
    requires i < |s.loads|
    ensures !r.changed
    ensures r.loads == s.loads[..i] + s.loads[i + 1..]
    ensures r.scene.encoding == outcome.scene.encoding
    ensures s.loads[i].snapshot.Some? && outcome.scene.viewpoint.Some? ==> r.scene.viewpoint == s.loads[i].snapshot
    ensures !(s.loads[i].snapshot.Some? && outcome.scene.viewpoint.Some?) ==> r.scene == outcome.scene
    ensures r.language == Lower(outcome.scene.encoding)
    ensures r.text == s.text && r.autoUpdate == s.autoUpdate
    ensures r.armed == s.armed && r.timeoutId == s.timeoutId && r.nextTimer == s.nextTimer
  {
    var load := s.loads[i];
    var after := outcome.scene;
    var scene := if load.snapshot.Some? && after.viewpoint.Some? then after.(viewpoint := load.snapshot) else after;
    s.(scene := scene, language := Lower(after.encoding), changed := false, loads := s.loads[..i] + s.loads[i + 1..])
  }

  /** Ctrl+S or Cmd+S (line 107). */
  predicate IsSaveShortcut(key: string, ctrlKey: bool, metaKey: bool)
  {
    key == "s" && (ctrlKey || metaKey)
  }

  /** `onKeyDown` (lines 103-112): the save shortcut applies the changes; any other key does nothing. */
  function KeyDown(s: Session, key: string, ctrlKey: bool, metaKey: bool): (r: Session)
    ensures |r.loads| == |s.loads| + (if IsSaveShortcut(key, ctrlKey, metaKey) then 1 else 0)
    ensures r.(loads := s.loads) == s
    ensures Inv(s) ==> Inv(r)
  {
    if IsSaveShortcut(key, ctrlKey, metaKey) then StartApply(s) else s
  }

  /**
   * The Auto Update button (lines 226-231): flip the flag, and apply at
   * once when it is now on and there are changes. The pending timer is
   * left alone.
   */
  function Toggle(s: Session): (r: Session)
    ensures r.autoUpdate == !s.autoUpdate && r.changed == s.changed
    ensures r.armed == s.armed && r.timeoutId == s.timeoutId && r.nextTimer == s.nextTimer
    ensures r.text == s.text && r.scene == s.scene && r.language == s.language
    ensures Inv(s) ==> Inv(r)
  {
    var flipped := s.(autoUpdate := !s.autoUpdate);
    if flipped.autoUpdate && flipped.changed then StartApply(flipped) else flipped
  }

  /** The refresh button (lines 247-250). */
  function Refresh(s: Session): (r: Session)
    ensures |r.loads| == |s.loads| + 1 && r.loads[|s.loads|].text == s.text
    ensures r.(loads := s.loads) == s
  {
    StartApply(s)
  }

  /** Armed timer `id` fires (line 100): it is spent, and `applyChanges` runs, whatever the flag now says. */
  function TimerFires(s: Session, id: nat): (r: Session)
    requires id in s.armed
    ensures r.armed == s.armed - {id} && r.loads == s.loads + [Load(s.text, s.scene.viewpoint)]
    ensures r.(armed := s.armed, loads := s.loads) == s
    ensures Inv(s) ==> Inv(r) && r.armed == {}
  {
    StartApply(s.(armed := s.armed - {id}))
  }

  /**
   * An encoding-conversion button (lines 297-302, 312-317, 327-332):
   * `setValue` puts the current scene serialised in encoding `e` into the
   * editor, which reports a flush, and the language follows. `serialize`
   * stands for the current scene's `toXMLString`, `toVRMLString` and
   * `toJSONString`.
   */
  function Convert(s: Session, e: Encoding, serialize: Encoding -> string): (r: Session)
    ensures r.text == serialize(e) && r.language == Lower(EncodingName(e))
    ensures r.language in {"xml", "json", "vrml"}
    ensures r.changed == s.changed && r.autoUpdate == s.autoUpdate && r.scene == s.scene && r.loads == s.loads
    ensures r.armed == s.armed && r.timeoutId == s.timeoutId && r.nextTimer == s.nextTimer
  {
    var replaced := ContentChanged(s.(text := serialize(e)), true);
    LanguageOfEncoding(e);
    replaced.(language := Lower(EncodingName(e)))
  }

  /** The state after the user types each of `texts` in turn. */
  function Edits(s: Session, texts: seq<string>): Session
    decreases |texts|
  {
    if texts == [] then s else Edits(Edit(s, texts[0]), texts[1..])
  }

  // Properties

  /** The invariant holds at the start and survives every event. */
  lemma EventsKeepInvariant(s: Session)
    requires Inv(s)
    ensures forall isFlush :: Inv(ContentChanged(s, isFlush))
    ensures forall t :: Inv(Edit(s, t))
    ensures forall key, ctrlKey, metaKey :: Inv(KeyDown(s, key, ctrlKey, metaKey))
    ensures Inv(Toggle(s)) && Inv(Refresh(s)) && Inv(StartApply(s))
    ensures forall id :: id in s.armed ==> Inv(TimerFires(s, id))
    ensures forall i: nat, outcome :: i < |s.loads| ==> Inv(FinishApply(s, i, outcome))
    ensures forall e, serialize :: Inv(Convert(s, e, serialize))
  {
    forall isFlush ensures Inv(ContentChanged(s, isFlush)) {
      ContentKeepsInvariant(s, isFlush);
    }
    forall t ensures Inv(Edit(s, t)) {
      ContentKeepsInvariant(s.(text := t), false);
    }
  }

  lemma ContentKeepsInvariant(s: Session, isFlush: bool)
    requires Inv(s)
    ensures Inv(ContentChanged(s, isFlush))
  {
    if !isFlush && s.autoUpdate {
      var r := ContentChanged(s, isFlush);
      assert s.armed - Handles(s.timeoutId) == {};
      assert r.armed == {s.nextTimer} == Handles(r.timeoutId);
    }
  }

  /** At most one debounce timer is ever pending. */
  lemma AtMostOneTimer(s: Session)
    requires Inv(s)
    ensures |s.armed| <= 1
  {
    if s.timeoutId.Some? {
      var id := s.timeoutId.value;
      if id in s.armed {
        assert s.armed == {id};
      } else {
        assert s.armed == {};
      }
    }
  }

  /**
   * Typing in auto-update mode arms exactly one timer, for the latest
   * handle, and starts no load; in manual mode it arms none.
   */
  lemma EditArmsOneTimer(s: Session, t: string)
    requires Inv(s)
    ensures var r := Edit(s, t);
            r.loads == s.loads
            && (s.autoUpdate ==> r.armed == {s.nextTimer} && r.timeoutId == Some(s.nextTimer))
            && (!s.autoUpdate ==> r.armed == s.armed)
  {
    assert s.armed - Handles(s.timeoutId) == {};
  }

  /**
   * Debouncing: however many edits are made in auto-update mode, one timer
   * is pending afterwards, no load has started, and the editor holds the
   * last text.
   */
  lemma {:induction false} EditsCoalesce(s: Session, texts: seq<string>)
    requires Inv(s) && s.autoUpdate && texts != []
    ensures var r := Edits(s, texts);
            Inv(r) && r.autoUpdate && r.changed && r.loads == s.loads && r.scene == s.scene
            && r.text == texts[|texts| - 1] && r.timeoutId.Some? && r.armed == {r.timeoutId.value}
    decreases |texts|
  {
    var first := Edit(s, texts[0]);
    EditArmsOneTimer(s, texts[0]);
    EventsKeepInvariant(s);
    if |texts| > 1 {
      EditsCoalesce(first, texts[1..]);
      assert texts[1..][|texts[1..]| - 1] == texts[|texts| - 1];
    }
  }

  /**
   * ...and when that timer fires, exactly one load starts, of the last
   * text, and no timer is left.
   */
  lemma DebouncedApply(s: Session, texts: seq<string>)
    requires Inv(s) && s.autoUpdate && texts != []
    ensures var r := Edits(s, texts);
            r.timeoutId.Some? && r.timeoutId.value in r.armed
            && var fired := TimerFires(r, r.timeoutId.value);
               fired.armed == {}
               && fired.loads == s.loads + [Load(texts[|texts| - 1], s.scene.viewpoint)]
  {
    EditsCoalesce(s, texts);
  }

  /**
   * The toggle flips the flag, starts one load exactly when it turns
   * auto-update on with changes pending, and never touches the timers.
   */
  lemma ToggleAppliesOnce(s: Session)
    ensures var r := Toggle(s);
            r.autoUpdate == !s.autoUpdate
            && r.armed == s.armed && r.timeoutId == s.timeoutId && r.changed == s.changed
            && (!s.autoUpdate && s.changed ==> r.loads == s.loads + [Load(s.text, s.scene.viewpoint)])
            && (!(!s.autoUpdate && s.changed) ==> r.loads == s.loads)
  {
  }

  /**
   * Turning auto-update off leaves a pending timer armed, and when it
   * fires the changes are applied although auto-update is off.
   */
  lemma TimerOutlivesToggleOff(s: Session, id: nat)
    requires s.autoUpdate && id in s.armed
    ensures var off := Toggle(s);
            !off.autoUpdate && id in off.armed
            && TimerFires(off, id).loads == s.loads + [Load(s.text, s.scene.viewpoint)]
  {
  }

  /**
   * Whether the load resolved or was rejected makes no difference to the
   * state afterwards: `changed` is false either way.
   */
  lemma OutcomeIsIgnored(s: Session, i: nat, scene: Scene)
    requires i < |s.loads|
    ensures FinishApply(s, i, Resolved(scene)) == FinishApply(s, i, Rejected(scene))
    ensures !FinishApply(s, i, Rejected(scene)).changed
  {
  }

  /**
   * One apply, start to finish: when the viewpoint exists before and after,
   * it ends with the offsets it had before the load, whatever the loaded
   * scene says; otherwise the loaded scene is kept as it is.
   */
  lemma ApplyKeepsViewpointOffsets(s: Session, outcome: Outcome)
    ensures var started := StartApply(s);
            var done := FinishApply(started, |s.loads|, outcome);
            done.loads == s.loads && !done.changed
            && (s.scene.viewpoint.Some? && outcome.scene.viewpoint.Some? ==> done.scene.viewpoint == s.scene.viewpoint)
            && (s.scene.viewpoint.None? || outcome.scene.viewpoint.None? ==> done.scene == outcome.scene)
  {
    var started := StartApply(s);
    assert started.loads[|s.loads|] == Load(s.text, s.scene.viewpoint);
    assert started.loads[..|s.loads|] + started.loads[|s.loads| + 1..] == s.loads;
  }

  /**
   * Ctrl+S or Cmd+S, and the refresh button, start one load of the
   * editor's text with the viewpoint's offsets copied, and change nothing
   * else; any other key changes nothing.
   */
  lemma ShortcutAndRefreshApply(s: Session, key: string, ctrlKey: bool, metaKey: bool)
    ensures var r := KeyDown(s, key, ctrlKey, metaKey);
            (IsSaveShortcut(key, ctrlKey, metaKey) ==> r.loads == s.loads + [Load(s.text, s.scene.viewpoint)] && r.(loads := s.loads) == s)
            && (!IsSaveShortcut(key, ctrlKey, metaKey) ==> r == s)
    ensures Refresh(s).loads == s.loads + [Load(s.text, s.scene.viewpoint)] && Refresh(s).(loads := s.loads) == s
  {
  }

  /**
   * There is no guard against re-entry: pressing the shortcut twice puts
   * two loads of the same text in flight.
   */
  lemma ShortcutTwiceLoadsTwice(s: Session)
    ensures var twice := KeyDown(KeyDown(s, "s", true, false), "s", true, false);
            twice.loads == s.loads + [Load(s.text, s.scene.viewpoint), Load(s.text, s.scene.viewpoint)]
  {
  }

  /**
   * In manual mode an edit made while a load is in flight is marked as
   * applied when that load settles, although the load carries the older
   * text: `changed` is false and the editor holds text that was not loaded.
   */
  lemma EditDuringLoadIsCleared(s: Session, t: string, outcome: Outcome)
    requires !s.autoUpdate && s.loads == [] && t != s.text
    ensures var during := Edit(StartApply(s), t);
            var done := FinishApply(during, 0, outcome);
            during.changed && !done.changed && done.loads == [] && done.text == t
            && during.loads[0].text != done.text
  {
  }

  /**
   * A conversion does not count as an edit: pending changes stay pending,
   * none appear, and the next apply loads the converted text, not what was
   * typed.
   */
  lemma ConversionIsNotAnEdit(s: Session, t: string, e: Encoding, serialize: Encoding -> string)
    ensures var typed := Convert(Edit(s, t), e, serialize);
            typed.changed && Convert(s, e, serialize).changed == s.changed
            && Refresh(typed).loads[|s.loads|].text == serialize(e)
  {
  }

  /** The start encoding of each of the three names is that encoding. */
  lemma StartEncodingOfName(e: Encoding)
    ensures StartEncoding(EncodingName(e)) == e
  {
  }
}
