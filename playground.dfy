/**
 * The `Playground` class (docs/assets/playground/playground.mjs:1-167):
 * its fields change in place, and each handler is proved to take the
 * state to what the matching transition of `PlaygroundSync` says.
 */
module PlaygroundApp {
  import opened Wrappers
  import opened PlaygroundSync

  class Playground {
    var text: string
    var language: string
    var autoUpdate: bool
    var changed: bool
    var timeoutId: Option<nat>
    var armed: set<nat>
    var nextTimer: nat
    var scene: Scene
    var loads: seq<Load>

    function State(): Session
      reads this
    {
      Session(text, language, autoUpdate, changed, timeoutId, armed, nextTimer, scene, loads)
    }

    predicate Valid()
      reads this
    {
      Inv(State())
    }

    /**
     * The field initialisers and `setup` (lines 3-4, 56-68), once the
     * start-up scene `loaded` is in the browser.
     */
    constructor (loaded: Scene, serialize: Encoding -> string)
      ensures State() == Start(loaded, serialize) && Valid()
    {
      autoUpdate := true;
      changed := false;
      timeoutId := None;
      armed := {};
      nextTimer := 0;
      loads := [];
      scene := loaded;
      var encoding := StartEncoding(loaded.encoding);
      language := Lower(EncodingName(encoding));
      text := serialize(encoding);
    }

    /** `clearTimeout(handle)`: the timer is no longer armed; an unset handle cancels nothing. */
    method ClearTimeout(handle: Option<nat>)
      modifies this
      ensures State() == old(State()).(armed := old(armed) - Handles(handle))
    {
      if handle.Some? {
        armed := armed - {handle.value};
      }
    }

    /** `setTimeout`: a handle not given out before, now armed. */
    method SetTimeout() returns (handle: nat)
      modifies this
      ensures handle == old(nextTimer)
      ensures State() == old(State()).(armed := old(armed) + {handle}, nextTimer := handle + 1)
    {
      handle := nextTimer;
      nextTimer := nextTimer + 1;
      armed := armed + {handle};
    }

    /** `onDidChangeContent` (lines 86-101). */
    method OnDidChangeContent(isFlush: bool)
      requires Valid()
      modifies this
      ensures State() == ContentChanged(old(State()), isFlush) && Valid()
    {
      ContentKeepsInvariant(State(), isFlush);
      if isFlush {
        return;
      }
      changed := true;
      if !autoUpdate {
        return;
      }
      ClearTimeout(timeoutId);
      var handle := SetTimeout();
      timeoutId := Some(handle);
    }

    /** The user types `newText`. */
    method Type(newText: string)
      requires Valid()
      modifies this
      ensures State() == Edit(old(State()), newText) && Valid()
    {
      text := newText;
      OnDidChangeContent(false);
    }

    /** The synchronous half of `applyChanges` (lines 135-153). */
    method ApplyChanges()
      requires Valid()
      modifies this
      ensures State() == StartApply(old(State())) && Valid()
    {
      var snapshot := scene.viewpoint;
      loads := loads + [Load(text, snapshot)];
    }

    /** The rest of `applyChanges` (lines 153-166), when load `i` settles with `outcome`. */
    method ResumeApply(i: nat, outcome: Outcome)
      requires Valid() && i < |loads|
      modifies this
      ensures State() == FinishApply(old(State()), i, outcome) && Valid()
    {
      var load := loads[i];
      scene := outcome.scene;
      if load.snapshot.Some? && scene.viewpoint.Some? {
        scene := scene.(viewpoint := load.snapshot);
      }
      language := Lower(scene.encoding);
      changed := false;
      loads := loads[..i] + loads[i + 1..];
    }

    /** `onKeyDown` (lines 103-112); `prevented` is whether the browser's own handling is cancelled. */
    method OnKeyDown(key: string, ctrlKey: bool, metaKey: bool) returns (prevented: bool)
      requires Valid()
      modifies this
      ensures prevented == IsSaveShortcut(key, ctrlKey, metaKey)
      ensures State() == KeyDown(old(State()), key, ctrlKey, metaKey) && Valid()
    {
      if !(key == "s" && (ctrlKey || metaKey)) {
        return false;
      }
      prevented := true;
      ApplyChanges();
    }

    /** The Auto Update button (lines 226-231). */
    method ToggleAutoUpdate()
      requires Valid()
      modifies this
      ensures State() == Toggle(old(State())) && Valid()
    {
      autoUpdate := !autoUpdate;
      if autoUpdate && changed {
        ApplyChanges();
      }
    }

    /** The refresh button (lines 247-250). */
    method Refresh()
      requires Valid()
      modifies this
      ensures State() == PlaygroundSync.Refresh(old(State())) && Valid()
    {
      ApplyChanges();
    }

    /** An encoding-conversion button (lines 297-332), given the current scene's serialisers. */
    method ConvertTo(e: Encoding, serialize: Encoding -> string)
      requires Valid()
      modifies this
      ensures State() == Convert(old(State()), e, serialize) && Valid()
    {
      text := serialize(e);
      OnDidChangeContent(true);
      language := Lower(EncodingName(e));
    }

    /** Armed timer `id` fires (line 100). */
    method FireTimer(id: nat)
      requires Valid() && id in armed
      modifies this
      ensures State() == TimerFires(old(State()), id) && Valid()
    {
      armed := armed - {id};
      ApplyChanges();
    }
  }
}
