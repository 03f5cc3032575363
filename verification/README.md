# Avatar animation retargeting and playback

This project models the animation core of the `Avatar` React component (`src/Avatar.jsx`). The component loads a rigged avatar, builds a bone map from its skeleton and loads four Mixamo FBX animations (idle, jump, wave, run). It retargets each animation's tracks onto the avatar's bones and collects the clips that loaded into a library. Once the idle clip is there, it starts idle and shows the avatar. After that, the number keys 1–4 switch clips with a crossfade. A jump plays once, and its mixer `finished` event hands back to idle.

The model is split by stage:

- `Strings` models the track-name operations the retargeting relies on: splitting on `.`, `startsWith`, and replacing the first occurrence of a pattern with the empty string.
- `Skeleton` models the avatar traversal and the bone map (`BuildBoneMap`, specified by `BoneMap`).
- `Retarget` models one animation load and its retargeting loop (`LoadAnimation`, specified by `LoadOutcome`). It also models the in-place division of the hips position samples by 100.
- `ClipLibrary` models the table of animation files, the four loads and the aggregation into the library.
- `Playback` models the mixer's actions and the component's refs and state as a class `Animator`. Each method is specified by a pure transition on `AnimatorState`:
  - `SwitchAnimation` by `Switch`;
  - `OnAllLoaded` by `AllLoaded`;
  - `OnFinished` by `Finished`;
  - `HandleKeyDown` by `KeyDown`.
- `PlaybackProperties` proves what those transitions guarantee.

The loader's answers are inputs. For the avatar this is the sequence of scene nodes in traversal order. For each FBX file it is either the parsed file or a failure reason.

## Model

| member | source | states |
|---|---|---|
| Strings.SplitPiecesHaveNoDot | src/Avatar.jsx:360 | no piece of `split('.')` contains a dot |
| Strings.JoinSplit | src/Avatar.jsx:360 | joining the pieces of a split with `.` gives back the track name |
| Strings.SplitJoin | src/Avatar.jsx:375 | splitting a `.`-join of dot-free pieces gives back the pieces, so a renamed track splits into its target bone and property |
| Skeleton.FirstSkeleton | src/Avatar.jsx:319-330 | the skeleton used is that of the first node in traversal order that is a skinned mesh with a skeleton; there is none exactly when no node qualifies |
| Skeleton.IndexBonesLastWins | src/Avatar.jsx:327-329 | the bone map's keys are exactly the bone names; a name shared by several bones maps to the last of them |
| Skeleton.BuildBoneMap | src/Avatar.jsx:316-333 | the traversal loop builds exactly `BoneMap(nodes)`: the first qualifying skeleton indexed by name, and later skinned meshes ignored |
| Retarget.TargetBoneRule | src/Avatar.jsx:364-371 | a `mixamorig` bone name is replaced by its suffix exactly when the suffix is in the bone map; every other name is kept |
| Retarget.RetargetTrackSpec | src/Avatar.jsx:359-387 | a track survives iff its bone name, or that name without the prefix, is in the bone map; the survivor splits into target bone and property (`undefined` when absent), keeps its times and sample count, and its samples are divided by 100 exactly for the `Hips.position` track |
| Retarget.ScaleDownInPlace | src/Avatar.jsx:378-383 | every sample of the cloned buffer is divided by 100, in place |
| Retarget.RetargetOne | src/Avatar.jsx:359-387 | one pass of the track loop (split, prefix rule, clone, scaling) yields `RetargetTrack` of the track |
| Retarget.RetargetTracksOrder | src/Avatar.jsx:357-387 | the output tracks are the survivors, in source order: an increasing index list picks out exactly the surviving source tracks |
| Retarget.RetargetedTracksNameKnownBones | src/Avatar.jsx:364-387 | every output track names a bone of the bone map; a track whose bone is unknown under both names is dropped |
| Retarget.LoadOutcomeSpec | src/Avatar.jsx:350-413 | a load yields a clip iff the file loaded, has an animation and at least one track of its first animation survives; the clip has the requested name, the source duration and the surviving tracks; every other case is the matching error (transport, no animations, no tracks retargeted) |
| Retarget.LoadAnimation | src/Avatar.jsx:342-416 | the callbacks and the retargeting loop produce exactly `LoadOutcome` |
| Retarget.MixamoTrackKept | src/Avatar.jsx:360-386 | `mixamorig<bone>.<property>` for a known bone becomes `<bone>.<property>` with the same times |
| Retarget.MixamoTrackDropped | src/Avatar.jsx:360-373 | a Mixamo track whose bone is unknown with and without the prefix is dropped |
| Retarget.HipsScenario | src/Avatar.jsx:357-387 | with bones Hips, Spine and LeftFoot, the hips position and rotation tracks survive in order and the head track is dropped; only the position samples are scaled |
| ClipLibrary.LoadAll | src/Avatar.jsx:426-434 | one result per file, in file order: the named clip when that file's load succeeds, `null` (None) otherwise |
| ClipLibrary.CollectSpec | src/Avatar.jsx:436-441 | after aggregation a name is in the library iff it was already there or some result carries it; it then holds the clip of the last such result |
| ClipLibrary.LoadedLibrary | src/Avatar.jsx:419-441 | from an empty library, a clip name is present iff that file's own load succeeded, with the clip that load produced; no other names appear |
| Playback.ConfigureAction | src/Avatar.jsx:146-189 | idle, wave and run get half speed, repeat and no clamp; jump gets half speed, play once and clamp; other names are left alone |
| Playback.Animator.ClipAction | src/Avatar.jsx:137 | the mixer gains a fresh action for a clip it has not seen; cached actions are reused |
| Playback.Animator.SwitchAnimation | src/Avatar.jsx:131-195 | the method's new state is `Switch` of the old state |
| Playback.Animator.CollectResults | src/Avatar.jsx:435-441 | the loop leaves the library equal to `Collect` of the old library and the results; nothing else changes |
| Playback.Animator.StartIdleAnimation | src/Avatar.jsx:447-466 | the new state is `StartIdle` of the old state |
| Playback.Animator.OnAllLoaded | src/Avatar.jsx:435-466 | aggregation followed by the idle auto-start (`AllLoaded`) |
| Playback.Animator.OnFinished | src/Avatar.jsx:163-172 | dispatching `finished` runs the listeners registered before dispatch, in order (`Finished`) |
| Playback.Animator.HandleKeyDown | src/Avatar.jsx:197-205 | keys 1–4 switch to idle, jump, wave and run; any other key changes nothing |
| Playback.Animator.OnAvatarLoaded | src/Avatar.jsx:281-466 | hide the avatar, build the bone map, load and retarget all four files, aggregate and start idle |
| PlaybackProperties.SwitchSpec | src/Avatar.jsx:131-195 | an unloaded name changes nothing. A loaded name makes its clip's action current and playing, with the loop policy of that name. The previous action fades out and the new one resets and fades in exactly when they differ. Every other action is unchanged. Only jump adds a listener. The library and visibility are unchanged |
| PlaybackProperties.RerequestingJump | src/Avatar.jsx:137-172 | requesting jump while it is current does not crossfade but registers one more listener, so the state changes |
| PlaybackProperties.SwitchIdempotent | src/Avatar.jsx:131-195 | for every name but jump, switching twice is switching once |
| PlaybackProperties.SwitchIgnoresListeners | src/Avatar.jsx:131-195 | a switch to a name other than jump neither reads nor writes the listener list |
| PlaybackProperties.MatchingListenerStep | src/Avatar.jsx:163-170 | a matching listener removes its own entry and leaves the state of exactly one switch to idle, even if idle was already switched to |
| PlaybackProperties.RunListenersPrefix | src/Avatar.jsx:163-172 | after any prefix of the dispatch copy has run, the matching listeners in it are gone, and one switch to idle has happened iff one matched and idle is loaded |
| PlaybackProperties.FinishedSpec | src/Avatar.jsx:163-172 | `finished` for a clip nobody waits for changes nothing; otherwise all its listeners are removed and, with idle loaded, the state is one switch to idle |
| PlaybackProperties.JumpFinishReturnsToIdle | src/Avatar.jsx:163-170 | the current jump finishing makes idle current, repeating at half speed and fading in; jump fades out and no jump listener remains |
| PlaybackProperties.JumpRoundTrip | src/Avatar.jsx:131-195 | from steady idle, jump crossfades in once-and-clamped with one listener; its end crossfades back to idle and leaves no listener |
| PlaybackProperties.StartIdleSpec | src/Avatar.jsx:447-466 | with idle loaded, its action plays repeating at half speed, becomes current and the avatar is shown; without it nothing changes |
| PlaybackProperties.StartupSpec | src/Avatar.jsx:419-466 | after startup, the library holds exactly the clips that loaded; idle plays and the avatar is visible iff the idle file loaded; otherwise the state is the initial one plus that library |
| PlaybackProperties.KeyBindingsMatchFiles | src/Avatar.jsx:202-205 | each file's key in the animation table plays that file's clip; no other key plays anything |

## Left out

- The renderer, scene, lights, camera, controls, the render loop and the WASD/zx camera keys are not modelled. They do not affect which clips play.
- Network I/O is an input. The GLTF and FBX loaders' answers are parameters (`SceneNode` list, `FbxLoad`), and loader progress callbacks are not modelled.
- `Promise.all` concurrency becomes a sequential fold in file order. Only the ordered result list is observable, and the model folds over that.
- Mixer internals are not modelled: weights over time, the play head, fade durations and when `finished` fires. Fades are flags that a later fade replaces. `reset()` clears them and rewinds the play head, which is not modelled. `OnFinished` is called when the mixer would fire the event.
- The mixer lives inside `Animator`, and actions are keyed by clip value rather than object identity. `clipAction` returns one cached action per clip, so the two views agree.
- Samples are `real`, not `Float32Array` elements, so rounding of the divided hips samples is not modelled.
- Logging is left out, including the jump duration computation, which only feeds a log line.
- The render loop's sinusoidal fallback motion, used while no animation is loaded, is not modelled, and neither is the morph-target logging; both lie outside this core.
- The React lifecycle is not modelled. `setCurrentAnimation` and `setAnimationLoaded` are plain fields. The effect depends on `animationLoaded`, so it cleans up and rebuilds the scene when that flag flips; the model covers one run of the effect.
- Playback.Animator.HandleKeyDown: the model takes the already lower-cased key; `toLowerCase` is not modelled.
- Skeleton.BuildBoneMap: a skinned mesh with no skeleton is skipped. In the source the log statement that reads `child.skeleton.bones` would throw first and abort the avatar callback.
- ClipLibrary.Collect: the library starts empty. Inherited object-prototype keys of the JavaScript library object are not modelled.
- The avatar is shown only `if (avatarRef.current)`. That ref is always set by the same callback before the loads start, so the model sets visibility unconditionally.

## Notes on behaviour

These points are taken from the code:

- When two bones share a name, the bone map holds the last of them, because `Map.set` overwrites (`Skeleton.IndexBonesLastWins`).
- The track property is not checked against a list. Any property is kept, and a name without a dot gets the property text `undefined`.
- Requesting the clip that is already current is not a no-op. It reconfigures the action, and for jump it registers another `finished` listener (`PlaybackProperties.RerequestingJump`).
- There is no separate "transitioning" state. A crossfade is only the fade flags on the two actions.
