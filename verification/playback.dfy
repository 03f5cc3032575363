/**
 * Playback: the component's animation state (the clip library, the mixer's
 * actions and `finished` listeners, the current action, the status shown to
 * the user and the avatar's visibility) and the operations that change it —
 * the idle auto-start once all loads have settled, `switchAnimation`, the
 * jump clip's completion handler and the number keys.
 */
module Playback {
  import opened Wrappers
  import opened Skeleton
  import opened Retarget
  import opened ClipLibrary

  datatype LoopMode = LoopOnce | LoopRepeat

  /** The part of a three.js animation action that the component sets or the mixer schedules. */
  datatype Action = Action(
    timeScale: real,
    loop: LoopMode,
    clampWhenFinished: bool,
    playing: bool,
    fadingIn: bool,
    fadingOut: bool)

  /** An action as `clipAction` first creates it: authored speed, repeating, unclamped, not scheduled, no fade. */
  const FreshAction: Action := Action(1.0, LoopRepeat, false, false, false, false)

  /** Every clip plays at half its authored speed. */
  const PlaybackSpeed: real := 0.5

  /** `fadeOut(0.5)`: the action's weight is scheduled to fall to 0, replacing any fade in progress. */
  function FadeOut(a: Action): Action {
    a.(fadingIn := false, fadingOut := true)
  }

  /** `reset()`: stops any fade (it also rewinds the play head, which is not modelled). */
  function Reset(a: Action): Action {
    a.(fadingIn := false, fadingOut := false)
  }

  /** `fadeIn(0.5)`: the action's weight is scheduled to rise to 1, replacing any fade in progress. */
  function FadeIn(a: Action): Action {
    a.(fadingIn := true, fadingOut := false)
  }

  /** `play()`: the mixer schedules the action. */
  function Play(a: Action): Action {
    a.(playing := true)
  }

  /**
   * The animation state. `actions` is the mixer's action cache, keyed by clip;
   * `finishedListeners` holds, per registered `finished` listener, the clip of
   * the action that listener waits for; `current` is the clip of
   * `currentActionRef`'s action.
   */
  datatype AnimatorState = AnimatorState(
    library: map<string, AnimationClip>,
    actions: map<AnimationClip, Action>,
    finishedListeners: seq<AnimationClip>,
    current: Option<AnimationClip>,
    currentAnimation: string,
    animationLoaded: bool,
    visible: bool)
  {
    /** The current action is always one the mixer created. */
    predicate Valid() {
      current.Some? ==> current.value in actions
    }
  }

  /** Before any clip has loaded: an empty library and mixer, status `idle`, nothing loaded, avatar hidden. */
  const Initial: AnimatorState := AnimatorState(map[], map[], [], None, "idle", false, false)

  /** The mixer's cache after `clipAction(clip)`: a fresh action is added for a clip it has not seen. */
  function WithAction(actions: map<AnimationClip, Action>, clip: AnimationClip): (r: map<AnimationClip, Action>)
    ensures r.Keys == actions.Keys + {clip}
    ensures forall c :: c in actions ==> r[c] == actions[c]
    ensures clip !in actions ==> r[clip] == FreshAction
  {
    if clip in actions then actions else actions[clip := FreshAction]
  }

  /** The speed and loop policy `switchAnimation` gives each named clip; other names are left as they are. */
  function Configure(a: Action, name: string): Action {
    if name == "idle" then a.(timeScale := PlaybackSpeed, loop := LoopRepeat, clampWhenFinished := false)
    else if name == "jump" then a.(timeScale := PlaybackSpeed, loop := LoopOnce, clampWhenFinished := true)
    else if name == "wave" then a.(timeScale := PlaybackSpeed, loop := LoopRepeat, clampWhenFinished := false)
    else if name == "run" then a.(timeScale := PlaybackSpeed, loop := LoopRepeat, clampWhenFinished := false)
    else a
  }

  /** `switchAnimation(name)`. */
  function Switch(s: AnimatorState, name: string): (r: AnimatorState)
    requires s.Valid()
    ensures r.Valid()
  {
    if name !in s.library then s
    else
      var clip := s.library[name];
      var cached := WithAction(s.actions, clip);
      var crossfade := s.current.Some? && s.current.value != clip;
      var others := if crossfade then cached[s.current.value := FadeOut(cached[s.current.value])] else cached;
      var incoming := if crossfade then FadeIn(Reset(cached[clip])) else cached[clip];
      var listeners := if name == "jump" then s.finishedListeners + [clip] else s.finishedListeners;
      s.(actions := others[clip := Play(Configure(incoming, name))],
         finishedListeners := listeners,
         current := Some(clip),
         currentAnimation := name,
         animationLoaded := true)
  }

  /** The idle auto-start: when the library has `idle`, its action plays repeating at half speed and the avatar is shown. */
  function StartIdle(s: AnimatorState): (r: AnimatorState)
    requires s.Valid()
    ensures r.Valid()
  {
    if "idle" !in s.library then s
    else
      var clip := s.library["idle"];
      var cached := WithAction(s.actions, clip);
      s.(actions := cached[clip := Play(cached[clip].(timeScale := PlaybackSpeed, loop := LoopRepeat))],
         current := Some(clip),
         currentAnimation := "idle",
         animationLoaded := true,
         visible := true)
  }

  /** What happens once every load has settled: the successes join the library, then idle is auto-started. */
  function AllLoaded(s: AnimatorState, results: seq<Option<NamedClip>>): (r: AnimatorState)
    requires s.Valid()
    ensures r.Valid()
  {
    StartIdle(s.(library := Collect(s.library, results)))
  }

  /** `removeEventListener`: the first listener equal to `c` is dropped. */
  function RemoveFirst(listeners: seq<AnimationClip>, c: AnimationClip): seq<AnimationClip> {
    if |listeners| == 0 then []
    else if listeners[0] == c then listeners[1..]
    else [listeners[0]] + RemoveFirst(listeners[1..], c)
  }

  /** The listeners that do not wait for `c`, in order. */
  function Without(listeners: seq<AnimationClip>, c: AnimationClip): seq<AnimationClip> {
    if |listeners| == 0 then []
    else if listeners[0] == c then Without(listeners[1..], c)
    else [listeners[0]] + Without(listeners[1..], c)
  }

  /**
   * One jump completion handler called for the `finished` event of the action
   * of `finished`: if it waits for that action, it removes itself and, when
   * idle is loaded, switches back to idle.
   */
  function RunListener(s: AnimatorState, watched: AnimationClip, finished: AnimationClip): (r: AnimatorState)
    requires s.Valid()
    ensures r.Valid()
  {
    if watched != finished then s
    else
      var removed := s.(finishedListeners := RemoveFirst(s.finishedListeners, watched));
      if "idle" in removed.library then Switch(removed, "idle") else removed
  }

  /** The mixer calls the listeners of a copy taken before the first one runs, in order. */
  function RunListeners(s: AnimatorState, snapshot: seq<AnimationClip>, finished: AnimationClip): (r: AnimatorState)
    requires s.Valid()
    ensures r.Valid()
  {
    if |snapshot| == 0 then s
    else RunListener(RunListeners(s, snapshot[..|snapshot| - 1], finished), snapshot[|snapshot| - 1], finished)
  }

  /** The mixer's `finished` event for the action of clip `finished`. */
  function Finished(s: AnimatorState, finished: AnimationClip): (r: AnimatorState)
    requires s.Valid()
    ensures r.Valid()
  {
    RunListeners(s, s.finishedListeners, finished)
  }

  /** The number keys: 1 idle, 2 jump, 3 wave, 4 run; any other key plays nothing. */
  function ClipForKey(key: string): Option<string> {
    if key == "1" then Some("idle")
    else if key == "2" then Some("jump")
    else if key == "3" then Some("wave")
    else if key == "4" then Some("run")
    else None
  }

  function KeyDown(s: AnimatorState, key: string): (r: AnimatorState)
    requires s.Valid()
    ensures r.Valid()
  {
    match ClipForKey(key)
    case Some(name) => Switch(s, name)
    case None => s
  }

  /** The avatar component's animation state, updated in place as the source does. */
  /** The per-clip branch of `switchAnimation`: speed, loop mode and clamping set field by field. */
  method ConfigureAction(action: Action, name: string) returns (configured: Action)
    ensures configured == Configure(action, name)
  {
    configured := action;
    if name == "idle" {
      configured := configured.(timeScale := PlaybackSpeed);
      configured := configured.(loop := LoopRepeat);
      configured := configured.(clampWhenFinished := false);
    } else if name == "jump" {
      configured := configured.(timeScale := PlaybackSpeed);
      configured := configured.(loop := LoopOnce);
      configured := configured.(clampWhenFinished := true);
    } else if name == "wave" {
      configured := configured.(timeScale := PlaybackSpeed);
      configured := configured.(loop := LoopRepeat);
      configured := configured.(clampWhenFinished := false);
    } else if name == "run" {
      configured := configured.(timeScale := PlaybackSpeed);
      configured := configured.(loop := LoopRepeat);
      configured := configured.(clampWhenFinished := false);
    }
  }

  class Animator {
    var library: map<string, AnimationClip>
    var actions: map<AnimationClip, Action>
    var finishedListeners: seq<AnimationClip>
    var current: Option<AnimationClip>
    var currentAnimation: string
    var animationLoaded: bool
    var visible: bool

    function State(): AnimatorState
      reads this
    {
      AnimatorState(library, actions, finishedListeners, current, currentAnimation, animationLoaded, visible)
    }

    constructor ()
      ensures State() == Initial
    {
      library := map[];
      actions := map[];
      finishedListeners := [];
      current := None;
      currentAnimation := "idle";
      animationLoaded := false;
      visible := false;
    }

    /** `mixer.clipAction(clip)`: makes sure the mixer has an action for `clip`. */
    method ClipAction(clip: AnimationClip)
      modifies this
      ensures State() == old(State()).(actions := WithAction(old(actions), clip))
    {
      if clip !in actions {
        actions := actions[clip := FreshAction];
      }
    }

    method SwitchAnimation(name: string)
      requires State().Valid()
      modifies this
      ensures State().Valid()
      ensures State() == Switch(old(State()), name)
    {
      if name !in library {
        return;
      }
      var clip := library[name];
      ClipAction(clip);
      // The action object itself: its fields are set here and it is stored back below.
      var newAction := actions[clip];

      if current.Some? && current.value != clip {
        actions := actions[current.value := FadeOut(actions[current.value])];
        newAction := FadeIn(Reset(newAction));
      }

      newAction := ConfigureAction(newAction, name);
      if name == "jump" {
        finishedListeners := finishedListeners + [clip];
      }

      newAction := Play(newAction);
      actions := actions[clip := newAction];
      current := Some(clip);
      currentAnimation := name;
      animationLoaded := true;
    }

    /** The aggregation: each successful result stores its clip in the library under its name, in order. */
    method CollectResults(results: seq<Option<NamedClip>>)
      modifies this
      ensures State() == old(State()).(library := Collect(old(library), results))
    {
      for i := 0 to |results|
        invariant State() == old(State()).(library := Collect(old(library), results[..i]))
      {
        assert results[..i + 1][..i] == results[..i];
        if results[i].Some? {
          library := library[results[i].value.name := results[i].value.clip];
        }
      }
      assert results[..|results|] == results;
    }

    /** The idle auto-start: with `idle` in the library, play it repeating at half speed and show the avatar. */
    method StartIdleAnimation()
      requires State().Valid()
      modifies this
      ensures State().Valid()
      ensures State() == StartIdle(old(State()))
    {
      if "idle" in library {
        var clip := library["idle"];
        ClipAction(clip);
        var idleAction := actions[clip];
        idleAction := idleAction.(timeScale := PlaybackSpeed);
        idleAction := idleAction.(loop := LoopRepeat);
        idleAction := Play(idleAction);
        actions := actions[clip := idleAction];
        current := Some(clip);
        currentAnimation := "idle";
        animationLoaded := true;
        visible := true;
      }
    }

    /** The `.then` of the load fan-out: fills the library, then auto-starts idle. */
    method OnAllLoaded(results: seq<Option<NamedClip>>)
      requires State().Valid()
      modifies this
      ensures State().Valid()
      ensures State() == AllLoaded(old(State()), results)
    {
      CollectResults(results);
      StartIdleAnimation();
    }

    /** The mixer dispatching `finished` for the action of clip `finished` to its listeners. */
    method OnFinished(finished: AnimationClip)
      requires State().Valid()
      modifies this
      ensures State().Valid()
      ensures State() == Finished(old(State()), finished)
    {
      var snapshot := finishedListeners;
      for i := 0 to |snapshot|
        invariant State().Valid()
        invariant State() == RunListeners(old(State()), snapshot[..i], finished)
      {
        assert snapshot[..i + 1][..i] == snapshot[..i];
        if snapshot[i] == finished {
          finishedListeners := RemoveFirst(finishedListeners, snapshot[i]);
          if "idle" in library {
            SwitchAnimation("idle");
          }
        }
      }
      assert snapshot[..|snapshot|] == snapshot;
    }

    /** The animation part of `handleKeyDown`, given the lower-cased key. */
    method HandleKeyDown(key: string)
      requires State().Valid()
      modifies this
      ensures State().Valid()
      ensures State() == KeyDown(old(State()), key)
    {
      if key == "1" { SwitchAnimation("idle"); }
      if key == "2" { SwitchAnimation("jump"); }
      if key == "3" { SwitchAnimation("wave"); }
      if key == "4" { SwitchAnimation("run"); }
    }

    /**
     * The avatar's load callback, from hiding the avatar to the idle
     * auto-start: build the bone map, load and retarget every clip, then
     * aggregate.
     */
    method OnAvatarLoaded(nodes: seq<SceneNode>, loads: seq<FbxLoad>)
      requires |loads| == |AnimationFiles|
      requires State().Valid()
      modifies this
      ensures State().Valid()
      ensures State() == AllLoaded(old(State()).(visible := false), LoadResults(loads, BoneMap(nodes)))
    {
      visible := false;
      var boneMap := BuildBoneMap(nodes);
      var results := LoadAll(loads, boneMap);
      OnAllLoaded(results);
    }
  }
}
