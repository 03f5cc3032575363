/**
 * Retargeting one Mixamo FBX clip onto the avatar's skeleton: every track
 * `"<bone>.<property>"` is renamed onto a bone of the bone map or dropped, and
 * the root bone's position samples are scaled down to match the avatar's
 * 100x scale.
 */
module Retarget {
  import opened Wrappers
  import opened Strings
  import opened Skeleton

  /** A keyframe track: its qualified name, sample times and flat sample values. */
  datatype Track = Track(name: string, times: seq<real>, values: seq<real>)

  /** An animation clip: name, duration and tracks in order. */
  datatype AnimationClip = AnimationClip(name: string, duration: real, tracks: seq<Track>)

  /** A parsed FBX file; only its animations matter here. */
  datatype Fbx = Fbx(animations: seq<AnimationClip>)

  /** What the FBX loader hands back for one path: a parsed file, or its error callback. */
  datatype FbxLoad = Loaded(fbx: Fbx) | LoadFailed(reason: string)

  /** Why a clip was rejected. */
  datatype LoadError =
    | TransportError(reason: string)
    | NoAnimations(clipName: string)
    | NoTracksRetargeted(clipName: string)

  /** Prefix of every bone name in Mixamo's rig. */
  const MixamoPrefix: string := "mixamorig"
  /** The bone whose position track is rescaled. */
  const RootBone: string := "Hips"
  const RootProperty: string := "position"
  /** The avatar is rendered 100x larger than authored. */
  const ScaleFactor: real := 100.0

  /** `trackParts[0]`. */
  function BoneNameOf(trackName: string): string {
    Split(trackName)[0]
  }

  /** `trackParts[1]`, absent when the name has no dot. */
  function PropertyOf(trackName: string): Option<string> {
    var parts := Split(trackName);
    if |parts| > 1 then Some(parts[1]) else None
  }

  /** How a template literal prints the property: an absent one prints as `undefined`. */
  function PropertyText(property: Option<string>): string {
    match property
    case Some(p) => p
    case None => "undefined"
  }

  /** The bone a track is retargeted to: the name without the Mixamo prefix when that is a bone, else the name itself. */
  function TargetBone(boneName: string, boneMap: map<string, Bone>): string {
    if StartsWith(boneName, MixamoPrefix) && ReplaceFirstWithEmpty(boneName, MixamoPrefix) in boneMap
    then ReplaceFirstWithEmpty(boneName, MixamoPrefix)
    else boneName
  }

  function ScaledDown(values: seq<real>): seq<real> {
    seq(|values|, i requires 0 <= i < |values| => values[i] / ScaleFactor)
  }

  predicate IsRootPosition(target: string, property: Option<string>) {
    target == RootBone && property == Some(RootProperty)
  }

  /** One iteration of the retargeting loop: the renamed clone of `track`, or nothing when its bone is unknown. */
  function RetargetTrack(track: Track, boneMap: map<string, Bone>): Option<Track> {
    var target := TargetBone(BoneNameOf(track.name), boneMap);
    var property := PropertyOf(track.name);
    if target !in boneMap then None
    else
      Some(Track(target + [Dot] + PropertyText(property), track.times,
                 if IsRootPosition(target, property) then ScaledDown(track.values) else track.values))
  }

  /** The surviving tracks of `tracks`, in source order. */
  function RetargetTracks(tracks: seq<Track>, boneMap: map<string, Bone>): seq<Track> {
    if |tracks| == 0 then []
    else
      var kept := RetargetTracks(tracks[..|tracks| - 1], boneMap);
      match RetargetTrack(tracks[|tracks| - 1], boneMap)
      case Some(t) => kept + [t]
      case None => kept
  }

  /** The positions in `tracks` of the tracks that survive, in increasing order. */
  function KeptIndices(tracks: seq<Track>, boneMap: map<string, Bone>): seq<nat> {
    if |tracks| == 0 then []
    else
      var kept := KeptIndices(tracks[..|tracks| - 1], boneMap);
      if RetargetTrack(tracks[|tracks| - 1], boneMap).Some? then kept + [|tracks| - 1] else kept
  }

  /** The outcome of `loadAnimation(name, path)` once the loader has answered with `load`. */
  function LoadOutcome(name: string, load: FbxLoad, boneMap: map<string, Bone>): Result<AnimationClip, LoadError> {
    match load
    case LoadFailed(reason) => Failure(TransportError(reason))
    case Loaded(fbx) =>
      if |fbx.animations| == 0 then Failure(NoAnimations(name))
      else
        var original := fbx.animations[0];
        var tracks := RetargetTracks(original.tracks, boneMap);
        if |tracks| > 0 then Success(AnimationClip(name, original.duration, tracks))
        else Failure(NoTracksRetargeted(name))
  }

  /** The in-place division of a cloned value buffer by the scale factor. */
  method ScaleDownInPlace(values: array<real>)
    modifies values
    ensures forall i :: 0 <= i < values.Length ==> values[i] == old(values[i]) / ScaleFactor
  {
    for i := 0 to values.Length
      invariant forall k :: 0 <= k < i ==> values[k] == old(values[k]) / ScaleFactor
      invariant forall k :: i <= k < values.Length ==> values[k] == old(values[k])
    {
      values[i] := values[i] / ScaleFactor;
    }
  }

  /** One pass of the retargeting loop: the renamed copy of `track`, or nothing when its bone is unknown. */
  method RetargetOne(track: Track, boneMap: map<string, Bone>) returns (kept: Option<Track>)
    ensures kept == RetargetTrack(track, boneMap)
  {
    var trackParts := Split(track.name);
    var boneName := trackParts[0];
    var property := if |trackParts| > 1 then Some(trackParts[1]) else None;

    var targetBoneName := boneName;
    if StartsWith(boneName, MixamoPrefix) {
      var nameWithoutPrefix := ReplaceFirstWithEmpty(boneName, MixamoPrefix);
      if nameWithoutPrefix in boneMap {
        targetBoneName := nameWithoutPrefix;
      }
    }

    assert targetBoneName == TargetBone(BoneNameOf(track.name), boneMap);
    assert property == PropertyOf(track.name);
    if targetBoneName !in boneMap {
      return None;
    }
    var values := new real[|track.values|](k requires 0 <= k < |track.values| => track.values[k]);
    if targetBoneName == RootBone && property == Some(RootProperty) {
      ScaleDownInPlace(values);
      assert values[..] == ScaledDown(track.values);
    } else {
      assert values[..] == track.values;
    }
    return Some(Track(targetBoneName + [Dot] + PropertyText(property), track.times, values[..]));
  }

  /** `loadAnimation`'s success callback and error callback, with the retargeting loop. */
  method LoadAnimation(name: string, load: FbxLoad, boneMap: map<string, Bone>) returns (r: Result<AnimationClip, LoadError>)
    ensures r == LoadOutcome(name, load, boneMap)
  {
    if load.LoadFailed? {
      return Failure(TransportError(load.reason));
    }
    var fbx := load.fbx;
    if |fbx.animations| == 0 {
      return Failure(NoAnimations(name));
    }
    var originalClip := fbx.animations[0];
    var retargetedTracks: seq<Track> := [];
    for i := 0 to |originalClip.tracks|
      invariant retargetedTracks == RetargetTracks(originalClip.tracks[..i], boneMap)
    {
      assert originalClip.tracks[..i + 1][..i] == originalClip.tracks[..i];
      var kept := RetargetOne(originalClip.tracks[i], boneMap);
      if kept.Some? {
        retargetedTracks := retargetedTracks + [kept.value];
      }
    }
    assert originalClip.tracks[..|originalClip.tracks|] == originalClip.tracks;
    if |retargetedTracks| > 0 {
      r := Success(AnimationClip(name, originalClip.duration, retargetedTracks));
    } else {
      r := Failure(NoTracksRetargeted(name));
    }
  }

  /**
   * The prefix rule: a Mixamo bone name is retargeted to its suffix exactly
   * when the suffix is a bone of the avatar; any other name is kept as it is.
   */
  lemma TargetBoneRule(boneName: string, boneMap: map<string, Bone>)
    ensures StartsWith(boneName, MixamoPrefix) ==>
      (TargetBone(boneName, boneMap) == boneName[|MixamoPrefix|..] <==> boneName[|MixamoPrefix|..] in boneMap)
    ensures StartsWith(boneName, MixamoPrefix) && boneName[|MixamoPrefix|..] !in boneMap ==>
      TargetBone(boneName, boneMap) == boneName
    ensures !StartsWith(boneName, MixamoPrefix) ==> TargetBone(boneName, boneMap) == boneName
  {
    if StartsWith(boneName, MixamoPrefix) {
      assert |boneName[|MixamoPrefix|..]| < |boneName|;
    }
  }

  lemma TargetBoneHasNoDot(boneName: string, boneMap: map<string, Bone>)
    requires NoDot(boneName)
    ensures NoDot(TargetBone(boneName, boneMap))
  {
    if StartsWith(boneName, MixamoPrefix) {
      var suffix := boneName[|MixamoPrefix|..];
      forall k | 0 <= k < |suffix| ensures suffix[k] != Dot {
        assert suffix[k] == boneName[|MixamoPrefix| + k];
      }
    }
  }

  /**
   * One track: it survives exactly when its bone name, or that name without
   * the Mixamo prefix, is a bone of the avatar; the survivor is named
   * `target.property`, keeps its times and sample count, and its samples are
   * divided by 100 exactly when it is the root bone's position track.
   */
  lemma RetargetTrackSpec(track: Track, boneMap: map<string, Bone>)
    ensures var bone := BoneNameOf(track.name);
      RetargetTrack(track, boneMap).Some? <==>
        (bone in boneMap || (StartsWith(bone, MixamoPrefix) && bone[|MixamoPrefix|..] in boneMap))
    ensures var target := TargetBone(BoneNameOf(track.name), boneMap);
      var r := RetargetTrack(track, boneMap);
      r.Some? ==>
        && target in boneMap
        && Split(r.value.name) == [target, PropertyText(PropertyOf(track.name))]
        && r.value.times == track.times
        && |r.value.values| == |track.values|
        && forall j :: 0 <= j < |track.values| ==>
             r.value.values[j] ==
               if IsRootPosition(target, PropertyOf(track.name)) then track.values[j] / ScaleFactor else track.values[j]
  {
    var parts := Split(track.name);
    var bone := parts[0];
    var target := TargetBone(bone, boneMap);
    TargetBoneRule(bone, boneMap);
    var r := RetargetTrack(track, boneMap);
    if r.Some? {
      SplitPiecesHaveNoDot(track.name);
      TargetBoneHasNoDot(bone, boneMap);
      var property := PropertyText(PropertyOf(track.name));
      assert NoDot(property) by {
        if |parts| > 1 {
          assert property == parts[1];
        } else {
          assert property == "undefined";
        }
      }
      var pieces := [target, property];
      SplitJoin(pieces);
      assert Join(pieces) == target + [Dot] + property;
    }
  }

  /** The k-th kept position is a source position whose track retargets to the k-th output track. */
  lemma {:induction false} KeptIndicesMatchOutput(tracks: seq<Track>, boneMap: map<string, Bone>)
    ensures var out, kept := RetargetTracks(tracks, boneMap), KeptIndices(tracks, boneMap);
      && |kept| == |out|
      && forall k :: 0 <= k < |kept| ==> kept[k] < |tracks| && RetargetTrack(tracks[kept[k]], boneMap) == Some(out[k])
  {
    if |tracks| > 0 {
      var init := tracks[..|tracks| - 1];
      KeptIndicesMatchOutput(init, boneMap);
      forall i | 0 <= i < |init| ensures tracks[i] == init[i] { }
    }
  }

  /** The kept positions are increasing and lie within `tracks`. */
  lemma {:induction false} KeptIndicesIncreasing(tracks: seq<Track>, boneMap: map<string, Bone>)
    ensures forall k :: 0 <= k < |KeptIndices(tracks, boneMap)| ==> KeptIndices(tracks, boneMap)[k] < |tracks|
    ensures forall k, l :: 0 <= k < l < |KeptIndices(tracks, boneMap)| ==>
      KeptIndices(tracks, boneMap)[k] < KeptIndices(tracks, boneMap)[l]
  {
    if |tracks| > 0 {
      var n := |tracks| - 1;
      var earlier := KeptIndices(tracks[..n], boneMap);
      KeptIndicesIncreasing(tracks[..n], boneMap);
      assert forall k :: 0 <= k < |earlier| ==> earlier[k] < n;
      if RetargetTrack(tracks[n], boneMap).Some? {
        var kept := earlier + [n];
        assert KeptIndices(tracks, boneMap) == kept;
        assert forall k :: 0 <= k < |earlier| ==> kept[k] == earlier[k];
      }
    }
  }

  /** A source position is kept exactly when its track survives. */
  lemma {:induction false} KeptIndicesExact(tracks: seq<Track>, boneMap: map<string, Bone>)
    ensures forall i :: 0 <= i < |tracks| ==> (RetargetTrack(tracks[i], boneMap).Some? <==> i in KeptIndices(tracks, boneMap))
  {
    if |tracks| > 0 {
      var n := |tracks| - 1;
      var init := tracks[..n];
      var earlier := KeptIndices(init, boneMap);
      KeptIndicesExact(init, boneMap);
      KeptIndicesIncreasing(init, boneMap);
      assert n !in earlier;
      forall i | 0 <= i < n ensures tracks[i] == init[i] { }
      if RetargetTrack(tracks[n], boneMap).Some? {
        assert KeptIndices(tracks, boneMap) == earlier + [n];
      } else {
        assert KeptIndices(tracks, boneMap) == earlier;
      }
    }
  }

  /**
   * The retargeted tracks are the survivors among the source tracks, in
   * source order: `KeptIndices` lists, increasing, the positions of exactly
   * the source tracks that survive, and the k-th output track is the
   * retargeted form of the source track at the k-th kept position.
   */
  lemma RetargetTracksOrder(tracks: seq<Track>, boneMap: map<string, Bone>)
    ensures var out, kept := RetargetTracks(tracks, boneMap), KeptIndices(tracks, boneMap);
      && |kept| == |out|
      && (forall k :: 0 <= k < |kept| ==> kept[k] < |tracks| && RetargetTrack(tracks[kept[k]], boneMap) == Some(out[k]))
      && (forall k, l :: 0 <= k < l < |kept| ==> kept[k] < kept[l])
      && (forall i :: 0 <= i < |tracks| ==> (RetargetTrack(tracks[i], boneMap).Some? <==> i in kept))
  {
    KeptIndicesMatchOutput(tracks, boneMap);
    KeptIndicesIncreasing(tracks, boneMap);
    KeptIndicesExact(tracks, boneMap);
  }

  /**
   * Every retargeted track names a bone of the bone map, and every source
   * track whose bone name is unknown both with and without the Mixamo prefix
   * is dropped.
   */
  lemma RetargetedTracksNameKnownBones(tracks: seq<Track>, boneMap: map<string, Bone>)
    ensures forall k :: 0 <= k < |RetargetTracks(tracks, boneMap)| ==>
      BoneNameOf(RetargetTracks(tracks, boneMap)[k].name) in boneMap
    ensures forall i :: 0 <= i < |tracks| ==>
      var bone := BoneNameOf(tracks[i].name);
      bone !in boneMap && !(StartsWith(bone, MixamoPrefix) && bone[|MixamoPrefix|..] in boneMap) ==>
        i !in KeptIndices(tracks, boneMap)
  {
    RetargetTracksOrder(tracks, boneMap);
    var out, kept := RetargetTracks(tracks, boneMap), KeptIndices(tracks, boneMap);
    forall k | 0 <= k < |out| ensures BoneNameOf(out[k].name) in boneMap {
      RetargetTrackSpec(tracks[kept[k]], boneMap);
    }
    forall i | 0 <= i < |tracks|
      ensures var bone := BoneNameOf(tracks[i].name);
        bone !in boneMap && !(StartsWith(bone, MixamoPrefix) && bone[|MixamoPrefix|..] in boneMap) ==>
          i !in kept
    {
      RetargetTrackSpec(tracks[i], boneMap);
    }
  }

  /**
   * A load yields a clip exactly when the file has an animation and at least
   * one of its first animation's tracks survives; the clip carries the
   * requested name, the source duration and the surviving tracks. Every
   * other case is the matching error.
   */
  lemma LoadOutcomeSpec(name: string, load: FbxLoad, boneMap: map<string, Bone>)
    ensures LoadOutcome(name, load, boneMap).Success? <==>
      && load.Loaded?
      && |load.fbx.animations| > 0
      && exists i :: 0 <= i < |load.fbx.animations[0].tracks| &&
           RetargetTrack(load.fbx.animations[0].tracks[i], boneMap).Some?
    ensures LoadOutcome(name, load, boneMap).Success? ==>
      var clip := LoadOutcome(name, load, boneMap).value;
      && clip.name == name
      && clip.duration == load.fbx.animations[0].duration
      && clip.tracks == RetargetTracks(load.fbx.animations[0].tracks, boneMap)
      && |clip.tracks| > 0
    ensures load.LoadFailed? ==> LoadOutcome(name, load, boneMap) == Failure(TransportError(load.reason))
    ensures load.Loaded? && |load.fbx.animations| == 0 ==>
      LoadOutcome(name, load, boneMap) == Failure(NoAnimations(name))
    ensures load.Loaded? && |load.fbx.animations| > 0 && LoadOutcome(name, load, boneMap).Failure? ==>
      LoadOutcome(name, load, boneMap) == Failure(NoTracksRetargeted(name))
  {
    if load.Loaded? && |load.fbx.animations| > 0 {
      var tracks := load.fbx.animations[0].tracks;
      RetargetTracksOrder(tracks, boneMap);
      var kept := KeptIndices(tracks, boneMap);
      if |kept| > 0 {
        assert RetargetTrack(tracks[kept[0]], boneMap).Some?;
      }
    }
  }

  /** A Mixamo track `mixamorig<bone>.<property>` of a bone the avatar has is renamed `<bone>.<property>`. */
  lemma MixamoTrackKept(track: Track, bone: string, property: string, boneMap: map<string, Bone>)
    requires NoDot(bone) && NoDot(property)
    requires track.name == MixamoPrefix + bone + [Dot] + property
    requires bone in boneMap
    ensures RetargetTrack(track, boneMap) ==
      Some(Track(bone + [Dot] + property, track.times,
                 if IsRootPosition(bone, Some(property)) then ScaledDown(track.values) else track.values))
  {
    var boneName := MixamoPrefix + bone;
    assert NoDot(boneName) by {
      assert NoDot(MixamoPrefix);
      forall k | 0 <= k < |boneName| ensures boneName[k] != Dot {
        if k >= |MixamoPrefix| { assert boneName[k] == bone[k - |MixamoPrefix|]; }
      }
    }
    SplitJoin([boneName, property]);
    assert Join([boneName, property]) == track.name;
    assert boneName[..|MixamoPrefix|] == MixamoPrefix && boneName[|MixamoPrefix|..] == bone;
  }

  /** A Mixamo track whose bone the avatar lacks under either name is dropped. */
  lemma MixamoTrackDropped(track: Track, bone: string, property: string, boneMap: map<string, Bone>)
    requires NoDot(bone) && NoDot(property)
    requires track.name == MixamoPrefix + bone + [Dot] + property
    requires bone !in boneMap && MixamoPrefix + bone !in boneMap
    ensures RetargetTrack(track, boneMap) == None
  {
    var boneName := MixamoPrefix + bone;
    assert NoDot(boneName) by {
      assert NoDot(MixamoPrefix);
      forall k | 0 <= k < |boneName| ensures boneName[k] != Dot {
        if k >= |MixamoPrefix| { assert boneName[k] == bone[k - |MixamoPrefix|]; }
      }
    }
    SplitJoin([boneName, property]);
    assert Join([boneName, property]) == track.name;
    assert boneName[..|MixamoPrefix|] == MixamoPrefix && boneName[|MixamoPrefix|..] == bone;
  }

  lemma HipsPositionKept(boneMap: map<string, Bone>, times: seq<real>, p: seq<real>)
    requires boneMap.Keys == {"Hips", "Spine", "LeftFoot"}
    ensures RetargetTrack(Track(MixamoPrefix + "Hips" + [Dot] + "position", times, p), boneMap) ==
      Some(Track("Hips.position", times, ScaledDown(p)))
  {
    MixamoTrackKept(Track(MixamoPrefix + "Hips" + [Dot] + "position", times, p), "Hips", "position", boneMap);
    assert "Hips" + [Dot] + "position" == "Hips.position";
    assert IsRootPosition("Hips", Some("position"));
  }

  lemma HipsRotationKept(boneMap: map<string, Bone>, times: seq<real>, q: seq<real>)
    requires boneMap.Keys == {"Hips", "Spine", "LeftFoot"}
    ensures RetargetTrack(Track(MixamoPrefix + "Hips" + [Dot] + "rotation", times, q), boneMap) ==
      Some(Track("Hips.rotation", times, q))
  {
    MixamoTrackKept(Track(MixamoPrefix + "Hips" + [Dot] + "rotation", times, q), "Hips", "rotation", boneMap);
    assert "Hips" + [Dot] + "rotation" == "Hips.rotation";
    assert !IsRootPosition("Hips", Some("rotation"));
  }

  lemma HeadRotationDropped(boneMap: map<string, Bone>, times: seq<real>, h: seq<real>)
    requires boneMap.Keys == {"Hips", "Spine", "LeftFoot"}
    ensures RetargetTrack(Track(MixamoPrefix + "Head" + [Dot] + "rotation", times, h), boneMap) == None
  {
    MixamoTrackDropped(Track(MixamoPrefix + "Head" + [Dot] + "rotation", times, h), "Head", "rotation", boneMap);
  }

  /**
   * A worked case: bones Hips, Spine and LeftFoot; tracks for the Mixamo
   * hips' position and rotation and the Mixamo head's rotation. Two tracks
   * survive, in order, the position samples scaled down by 100.
   */
  lemma HipsScenario(boneMap: map<string, Bone>, source: seq<Track>, times: seq<real>, p: seq<real>, q: seq<real>, h: seq<real>)
    requires boneMap.Keys == {"Hips", "Spine", "LeftFoot"}
    requires source == [Track(MixamoPrefix + "Hips" + [Dot] + "position", times, p),
                        Track(MixamoPrefix + "Hips" + [Dot] + "rotation", times, q),
                        Track(MixamoPrefix + "Head" + [Dot] + "rotation", times, h)]
    ensures RetargetTracks(source, boneMap) ==
      [Track("Hips.position", times, ScaledDown(p)), Track("Hips.rotation", times, q)]
  {
    var t0 := Track("Hips.position", times, ScaledDown(p));
    var t1 := Track("Hips.rotation", times, q);
    HipsPositionKept(boneMap, times, p);
    HipsRotationKept(boneMap, times, q);
    HeadRotationDropped(boneMap, times, h);
    assert source[..2] == [source[0], source[1]];
    assert [source[0], source[1]][..1] == [source[0]];
    assert [source[0]][..0] == [];
    assert RetargetTracks([source[0]], boneMap) == [t0];
    assert RetargetTracks(source[..2], boneMap) == [t0, t1];
  }
}
