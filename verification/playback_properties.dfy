/**
 * What the playback transitions guarantee: `switchAnimation`'s effect on the
 * current action, its loop policy and the crossfade; the idle auto-start;
 * the jump completion handler returning to idle; the key bindings.
 */
module PlaybackProperties {
  import opened Wrappers
  import opened Skeleton
  import opened Retarget
  import opened ClipLibrary
  import opened Playback

  /** `switchAnimation` crossfades exactly when a current action exists and is not the requested one. */
  predicate Crossfades(s: AnimatorState, clip: AnimationClip) {
    s.current.Some? && s.current.value != clip
  }

  /**
   * `switchAnimation(name)`: an unloaded name changes nothing. A loaded name
   * makes its clip's action current and playing, at half speed for the four
   * known clips, once-and-clamped for jump and repeating for the others; the
   * previous current action fades out and the new one fades in exactly when
   * they differ; only jump registers a completion listener; the library and
   * the avatar's visibility are untouched, and so is every other action.
   */
  lemma SwitchSpec(s: AnimatorState, name: string)
    requires s.Valid()
    ensures name !in s.library ==> Switch(s, name) == s
    ensures name in s.library ==>
      var r, clip := Switch(s, name), s.library[name];
      var before := WithAction(s.actions, clip)[clip];
      && r.library == s.library
      && r.visible == s.visible
      && r.current == Some(clip)
      && r.currentAnimation == name
      && r.animationLoaded
      && r.actions.Keys == s.actions.Keys + {clip}
      && r.actions[clip].playing
      && (name in {"idle", "jump", "wave", "run"} ==> r.actions[clip].timeScale == PlaybackSpeed)
      && (name == "jump" ==> r.actions[clip].loop == LoopOnce && r.actions[clip].clampWhenFinished)
      && (name in {"idle", "wave", "run"} ==> r.actions[clip].loop == LoopRepeat && !r.actions[clip].clampWhenFinished)
      && (name !in {"idle", "jump", "wave", "run"} ==>
            r.actions[clip].timeScale == before.timeScale && r.actions[clip].loop == before.loop &&
            r.actions[clip].clampWhenFinished == before.clampWhenFinished)
      && (Crossfades(s, clip) ==>
            r.actions[s.current.value] == FadeOut(s.actions[s.current.value]) &&
            r.actions[clip].fadingIn && !r.actions[clip].fadingOut)
      && (!Crossfades(s, clip) ==>
            r.actions[clip].fadingIn == before.fadingIn && r.actions[clip].fadingOut == before.fadingOut)
      && (forall c :: c in s.actions && c != clip && s.current != Some(c) ==> r.actions[c] == s.actions[c])
      && r.finishedListeners == if name == "jump" then s.finishedListeners + [clip] else s.finishedListeners
  {
  }

  /** Requesting the playing jump again is not a no-op: the action is left as it was, but one more completion listener is registered. */
  lemma RerequestingJump(s: AnimatorState)
    requires s.Valid()
    requires "jump" in s.library && s.current == Some(s.library["jump"])
    ensures var clip := s.library["jump"];
      && Switch(s, "jump").actions[clip] ==
           Play(s.actions[clip].(timeScale := PlaybackSpeed, loop := LoopOnce, clampWhenFinished := true))
      && Switch(s, "jump").finishedListeners == s.finishedListeners + [clip]
      && Switch(s, "jump") != s
  {
    var r := Switch(s, "jump");
    assert |r.finishedListeners| == |s.finishedListeners| + 1;
  }

  /** Requesting any clip but jump twice in a row is the same as requesting it once. */
  lemma SwitchIdempotent(s: AnimatorState, name: string)
    requires s.Valid()
    requires name != "jump"
    ensures Switch(Switch(s, name), name) == Switch(s, name)
  {
    if name in s.library {
      var clip := s.library[name];
      var once := Switch(s, name);
      var twice := Switch(once, name);
      assert once.current == Some(clip);
      assert twice.actions[clip] == once.actions[clip];
      assert twice.actions == once.actions;
    }
  }

  /** Switching to a clip other than jump neither reads nor writes the listener list. */
  lemma SwitchIgnoresListeners(s: AnimatorState, listeners: seq<AnimationClip>, name: string)
    requires s.Valid()
    requires name != "jump"
    ensures Switch(s.(finishedListeners := listeners), name) == Switch(s, name).(finishedListeners := listeners)
  {
  }

  lemma {:induction false} WithoutSpec(ls: seq<AnimationClip>, c: AnimationClip)
    ensures forall x :: x in Without(ls, c) <==> x in ls && x != c
    ensures c !in ls ==> Without(ls, c) == ls
  {
    if |ls| > 0 {
      WithoutSpec(ls[1..], c);
      assert ls == [ls[0]] + ls[1..];
    }
  }

  lemma {:induction false} WithoutAppend(ls: seq<AnimationClip>, x: AnimationClip, c: AnimationClip)
    ensures Without(ls + [x], c) == Without(ls, c) + (if x == c then [] else [x])
  {
    if |ls| > 0 {
      assert (ls + [x])[1..] == ls[1..] + [x];
      WithoutAppend(ls[1..], x, c);
    }
  }

  lemma {:induction false} RemoveFirstPast(front: seq<AnimationClip>, c: AnimationClip, back: seq<AnimationClip>)
    requires c !in front
    ensures RemoveFirst(front + [c] + back, c) == front + back
  {
    if |front| > 0 {
      assert (front + [c] + back)[1..] == front[1..] + [c] + back;
      RemoveFirstPast(front[1..], c, back);
      assert front == [front[0]] + front[1..];
    } else {
      assert front + [c] + back == [c] + back;
    }
  }

  /**
   * One run of the jump listener whose clip just finished, on a state that is
   * `base` or `base` already switched to idle: it removes its own entry and
   * leaves the state of one switch to idle.
   */
  lemma MatchingListenerStep(base: AnimatorState, e: AnimatorState, front: seq<AnimationClip>, back: seq<AnimationClip>, finished: AnimationClip)
    requires base.Valid() && e.Valid()
    requires base.finishedListeners == front + [finished] + back && finished !in front
    requires e == base || ("idle" in base.library && e == Switch(base, "idle"))
    ensures var rest := base.(finishedListeners := front + back);
      RunListener(e, finished, finished) == if "idle" in base.library then Switch(rest, "idle") else rest
  {
    var rest := base.(finishedListeners := front + back);
    RemoveFirstPast(front, finished, back);
    if e != base {
      SwitchIgnoresListeners(base, front + back, "idle");
      SwitchIdempotent(rest, "idle");
    }
  }

  /**
   * The state after the first `i` listeners of the dispatch copy have run:
   * the matching ones among them are gone and, if one of them matched and
   * idle is loaded, one switch to idle has happened.
   */
  function AfterListeners(s: AnimatorState, finished: AnimationClip, i: nat): AnimatorState
    requires s.Valid()
    requires i <= |s.finishedListeners|
  {
    var snapshot := s.finishedListeners;
    var base := s.(finishedListeners := Without(snapshot[..i], finished) + snapshot[i..]);
    if finished in snapshot[..i] && "idle" in s.library then Switch(base, "idle") else base
  }

  /** A listener for another clip leaves the remaining listener list and the "some listener matched" flag as they were. */
  lemma ListenersPastOther(snapshot: seq<AnimationClip>, finished: AnimationClip, i: nat)
    requires 0 < i <= |snapshot| && snapshot[i - 1] != finished
    ensures Without(snapshot[..i], finished) + snapshot[i..] == Without(snapshot[..i - 1], finished) + snapshot[i - 1..]
    ensures (finished in snapshot[..i]) == (finished in snapshot[..i - 1])
  {
    var j := i - 1;
    assert snapshot[..i] == snapshot[..j] + [snapshot[j]];
    assert snapshot[j..] == [snapshot[j]] + snapshot[i..];
    WithoutAppend(snapshot[..j], snapshot[j], finished);
  }

  /** A listener for the finished clip is the first entry for that clip still registered, and the list left after it is the one expected. */
  lemma ListenersPastMatching(snapshot: seq<AnimationClip>, finished: AnimationClip, i: nat)
    requires 0 < i <= |snapshot| && snapshot[i - 1] == finished
    ensures var front := Without(snapshot[..i - 1], finished);
      && finished !in front
      && front + snapshot[i - 1..] == front + [finished] + snapshot[i..]
      && Without(snapshot[..i], finished) + snapshot[i..] == front + snapshot[i..]
      && finished in snapshot[..i]
  {
    var j := i - 1;
    assert snapshot[..i] == snapshot[..j] + [finished];
    assert snapshot[j..] == [finished] + snapshot[i..];
    WithoutAppend(snapshot[..j], finished, finished);
    WithoutSpec(snapshot[..j], finished);
  }

  lemma PrefixStepMatching(s: AnimatorState, finished: AnimationClip, i: nat)
    requires s.Valid()
    requires 0 < i <= |s.finishedListeners| && s.finishedListeners[i - 1] == finished
    requires RunListeners(s, s.finishedListeners[..i - 1], finished) == AfterListeners(s, finished, i - 1)
    ensures RunListeners(s, s.finishedListeners[..i], finished) == AfterListeners(s, finished, i)
  {
    var snapshot := s.finishedListeners;
    var j := i - 1;
    assert snapshot[..i][..j] == snapshot[..j];
    ListenersPastMatching(snapshot, finished, i);
    var front := Without(snapshot[..j], finished);
    var baseJ := s.(finishedListeners := front + snapshot[j..]);
    MatchingListenerStep(baseJ, AfterListeners(s, finished, j), front, snapshot[i..], finished);
  }

  lemma PrefixStepOther(s: AnimatorState, finished: AnimationClip, i: nat)
    requires s.Valid()
    requires 0 < i <= |s.finishedListeners| && s.finishedListeners[i - 1] != finished
    requires RunListeners(s, s.finishedListeners[..i - 1], finished) == AfterListeners(s, finished, i - 1)
    ensures RunListeners(s, s.finishedListeners[..i], finished) == AfterListeners(s, finished, i)
  {
    var snapshot := s.finishedListeners;
    assert snapshot[..i][..i - 1] == snapshot[..i - 1];
    ListenersPastOther(snapshot, finished, i);
  }

  lemma {:induction false} RunListenersPrefix(s: AnimatorState, finished: AnimationClip, i: nat)
    requires s.Valid()
    requires i <= |s.finishedListeners|
    ensures RunListeners(s, s.finishedListeners[..i], finished) == AfterListeners(s, finished, i)
  {
    if i == 0 {
      assert s.finishedListeners[..0] == [] && s.finishedListeners[0..] == s.finishedListeners;
    } else {
      RunListenersPrefix(s, finished, i - 1);
      if s.finishedListeners[i - 1] == finished {
        PrefixStepMatching(s, finished, i);
      } else {
        PrefixStepOther(s, finished, i);
      }
    }
  }

  /**
   * The `finished` event of an action: with no listener waiting for it,
   * nothing changes; otherwise every listener waiting for it is removed and,
   * if idle is loaded, the result is one switch to idle.
   */
  lemma FinishedSpec(s: AnimatorState, finished: AnimationClip)
    requires s.Valid()
    ensures finished !in s.finishedListeners ==> Finished(s, finished) == s
    ensures finished in s.finishedListeners && "idle" in s.library ==>
      Finished(s, finished) == Switch(s.(finishedListeners := Without(s.finishedListeners, finished)), "idle")
    ensures finished in s.finishedListeners && "idle" !in s.library ==>
      Finished(s, finished) == s.(finishedListeners := Without(s.finishedListeners, finished))
    ensures Finished(s, finished).finishedListeners == Without(s.finishedListeners, finished)
    ensures finished !in Finished(s, finished).finishedListeners
  {
    var snapshot := s.finishedListeners;
    RunListenersPrefix(s, finished, |snapshot|);
    assert snapshot[..|snapshot|] == snapshot;
    assert snapshot[|snapshot|..] == [];
    WithoutSpec(snapshot, finished);
    var rest := Without(snapshot, finished);
    assert rest + [] == rest;
    if finished in snapshot && "idle" in s.library {
      SwitchSpec(s.(finishedListeners := rest), "idle");
    }
  }

  /**
   * The jump clip finishing while it is current hands over to idle: idle's
   * action becomes current, repeating at half speed and fading in, jump's
   * fades out, and no listener for jump remains.
   */
  lemma JumpFinishReturnsToIdle(s: AnimatorState)
    requires s.Valid()
    requires "jump" in s.library && "idle" in s.library && s.library["idle"] != s.library["jump"]
    requires s.current == Some(s.library["jump"])
    requires s.library["jump"] in s.finishedListeners
    ensures var r, jump, idle := Finished(s, s.library["jump"]), s.library["jump"], s.library["idle"];
      && r.current == Some(idle)
      && r.currentAnimation == "idle"
      && r.actions[idle].playing && r.actions[idle].timeScale == PlaybackSpeed && r.actions[idle].loop == LoopRepeat
      && r.actions[idle].fadingIn
      && jump in r.actions && r.actions[jump].fadingOut
      && jump !in r.finishedListeners
  {
    var jump := s.library["jump"];
    FinishedSpec(s, jump);
    var rest := s.(finishedListeners := Without(s.finishedListeners, jump));
    SwitchSpec(rest, "idle");
  }

  /** The idle auto-start: with idle in the library it plays, repeating at half speed, and the avatar is shown; without it nothing changes. */
  lemma StartIdleSpec(s: AnimatorState)
    requires s.Valid()
    ensures "idle" !in s.library ==> StartIdle(s) == s
    ensures "idle" in s.library ==>
      var r, clip := StartIdle(s), s.library["idle"];
      && r.visible && r.animationLoaded
      && r.current == Some(clip) && r.currentAnimation == "idle"
      && r.actions[clip].playing && r.actions[clip].timeScale == PlaybackSpeed && r.actions[clip].loop == LoopRepeat
      && r.library == s.library && r.finishedListeners == s.finishedListeners
  {
  }

  /**
   * Startup: once every load has settled, the library holds exactly the
   * clips that loaded, and idle is playing and the avatar visible exactly
   * when the idle clip loaded; otherwise the state is the initial one with
   * that library.
   */
  lemma StartupSpec(nodes: seq<SceneNode>, loads: seq<FbxLoad>)
    requires |loads| == |AnimationFiles|
    ensures var boneMap := BoneMap(nodes);
      var r := AllLoaded(Initial.(visible := false), LoadResults(loads, boneMap));
      var idleLoaded := LoadOutcome("idle", loads[0], boneMap).Success?;
      && r.library == Collect(map[], LoadResults(loads, boneMap))
      && (forall i :: 0 <= i < |AnimationFiles| ==>
            (AnimationFiles[i].name in r.library <==> LoadOutcome(AnimationFiles[i].name, loads[i], boneMap).Success?))
      && (r.visible <==> idleLoaded)
      && (r.animationLoaded <==> idleLoaded)
      && (idleLoaded ==> r.current == Some(r.library["idle"]) && r.actions[r.library["idle"]].playing)
      && (!idleLoaded ==> r == Initial.(library := r.library))
  {
    var boneMap := BoneMap(nodes);
    var results := LoadResults(loads, boneMap);
    LoadedLibrary(loads, boneMap);
    assert AnimationFiles[0].name == "idle";
    var loaded := Initial.(visible := false).(library := Collect(map[], results));
    StartIdleSpec(loaded);
  }

  /** The number keys agree with the animation file table: each file's key plays that file's clip, and no other key plays anything. */
  lemma KeyBindingsMatchFiles(key: string)
    ensures forall i :: 0 <= i < |AnimationFiles| ==> ClipForKey(AnimationFiles[i].key) == Some(AnimationFiles[i].name)
    ensures ClipForKey(key).Some? <==> exists i :: 0 <= i < |AnimationFiles| && AnimationFiles[i].key == key
    ensures forall i :: 0 <= i < |AnimationFiles| && AnimationFiles[i].key == key ==>
      ClipForKey(key) == Some(AnimationFiles[i].name)
  {
    if ClipForKey(key).Some? {
      if key == "1" { assert AnimationFiles[0].key == key; }
      else if key == "2" { assert AnimationFiles[1].key == key; }
      else if key == "3" { assert AnimationFiles[2].key == key; }
      else { assert AnimationFiles[3].key == key; }
    }
  }

  /**
   * Idle playing with no listener, the user asks for jump: jump crossfades in
   * once-and-clamped with one listener; when it finishes, idle crossfades
   * back in and the listener is gone.
   */
  lemma JumpRoundTrip(s: AnimatorState)
    requires s.Valid()
    requires "idle" in s.library && "jump" in s.library && s.library["idle"] != s.library["jump"]
    requires s.current == Some(s.library["idle"]) && s.finishedListeners == []
    ensures var jump, idle := s.library["jump"], s.library["idle"];
      var during := Switch(s, "jump");
      var after := Finished(during, jump);
      && during.current == Some(jump) && during.actions[jump].fadingIn && during.actions[idle].fadingOut
      && during.actions[jump].loop == LoopOnce && during.actions[jump].clampWhenFinished
      && during.finishedListeners == [jump]
      && after.current == Some(idle) && after.currentAnimation == "idle"
      && after.actions[idle].fadingIn && jump in after.actions && after.actions[jump].fadingOut
      && after.finishedListeners == []
  {
    var jump := s.library["jump"];
    SwitchSpec(s, "jump");
    var during := Switch(s, "jump");
    assert during.finishedListeners == [jump];
    JumpFinishReturnsToIdle(during);
    FinishedSpec(during, jump);
    assert Without([jump], jump) == [];
  }
}
