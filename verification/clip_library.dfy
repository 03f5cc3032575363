/**
 * The clip library: the four animation files, one load per file, and the
 * fold that keeps the clips whose loads succeeded.
 */
module ClipLibrary {
  import opened Wrappers
  import opened Skeleton
  import opened Retarget

  /** An entry of the animation file table: clip name, FBX path and the key that plays it. */
  datatype AnimationFile = AnimationFile(name: string, path: string, key: string)

  const AnimationFiles: seq<AnimationFile> := [
    AnimationFile("idle", "/animations/Idle.fbx", "1"),
    AnimationFile("jump", "/animations/Jump.fbx", "2"),
    AnimationFile("wave", "/animations/Wave.fbx", "3"),
    AnimationFile("run", "/animations/Run.fbx", "4")
  ]

  /** `{ name, clip }`, what a successful load resolves to. */
  datatype NamedClip = NamedClip(name: string, clip: AnimationClip)

  /** One load with its `.then`/`.catch`: a failure of any kind becomes `null`. */
  function LoadResult(file: AnimationFile, load: FbxLoad, boneMap: map<string, Bone>): Option<NamedClip> {
    match LoadOutcome(file.name, load, boneMap)
    case Success(clip) => Some(NamedClip(file.name, clip))
    case Failure(_) => None
  }

  /** The results of all loads, in file order; `loads[i]` is what the loader answered for `AnimationFiles[i].path`. */
  function LoadResults(loads: seq<FbxLoad>, boneMap: map<string, Bone>): (results: seq<Option<NamedClip>>)
    requires |loads| == |AnimationFiles|
  {
    seq(|AnimationFiles|, i requires 0 <= i < |AnimationFiles| => LoadResult(AnimationFiles[i], loads[i], boneMap))
  }

  /** The loads run one after the other; only the list of results they settle to is observable. */
  method LoadAll(loads: seq<FbxLoad>, boneMap: map<string, Bone>) returns (results: seq<Option<NamedClip>>)
    requires |loads| == |AnimationFiles|
    ensures |results| == |AnimationFiles|
    ensures forall i :: 0 <= i < |results| ==>
      (results[i].Some? <==> LoadOutcome(AnimationFiles[i].name, loads[i], boneMap).Success?)
    ensures forall i :: 0 <= i < |results| && results[i].Some? ==>
      results[i].value == NamedClip(AnimationFiles[i].name, LoadOutcome(AnimationFiles[i].name, loads[i], boneMap).value)
    ensures results == LoadResults(loads, boneMap)
  {
    results := [];
    for i := 0 to |AnimationFiles|
      invariant |results| == i
      invariant forall k :: 0 <= k < i ==> results[k] == LoadResult(AnimationFiles[k], loads[k], boneMap)
    {
      var anim := AnimationFiles[i];
      var outcome := LoadAnimation(anim.name, loads[i], boneMap);
      var result := if outcome.Success? then Some(NamedClip(anim.name, outcome.value)) else None;
      results := results + [result];
    }
  }

  /** The aggregation: results are applied in order, and each successful one stores its clip under its name. */
  function Collect(library: map<string, AnimationClip>, results: seq<Option<NamedClip>>): map<string, AnimationClip> {
    if |results| == 0 then library
    else
      var earlier := Collect(library, results[..|results| - 1]);
      match results[|results| - 1]
      case Some(r) => earlier[r.name := r.clip]
      case None => earlier
  }

  /** Result `i` succeeded under `name` and no later result succeeded under the same name. */
  predicate LastSuccessFor(results: seq<Option<NamedClip>>, i: int, name: string)
    requires 0 <= i < |results|
  {
    && results[i].Some?
    && results[i].value.name == name
    && forall j :: i < j < |results| && results[j].Some? ==> results[j].value.name != name
  }

  predicate SucceededUnder(results: seq<Option<NamedClip>>, name: string) {
    exists i :: 0 <= i < |results| && results[i].Some? && results[i].value.name == name
  }

  /** When the last result does not carry `name`, success under `name` is decided by the earlier results. */
  lemma SucceededUnderInit(results: seq<Option<NamedClip>>, name: string)
    requires |results| > 0
    requires !(results[|results| - 1].Some? && results[|results| - 1].value.name == name)
    ensures SucceededUnder(results, name) <==> SucceededUnder(results[..|results| - 1], name)
  {
    var init := results[..|results| - 1];
    if SucceededUnder(results, name) {
      var i :| 0 <= i < |results| && results[i].Some? && results[i].value.name == name;
      assert init[i] == results[i];
    }
    if SucceededUnder(init, name) {
      var i :| 0 <= i < |init| && init[i].Some? && init[i].value.name == name;
      assert results[i] == init[i];
    }
  }

  /** A last success among the earlier results stays the last one when the final result does not carry `name`. */
  lemma LastSuccessExtends(results: seq<Option<NamedClip>>, k: int, name: string)
    requires 0 <= k < |results| - 1
    requires LastSuccessFor(results[..|results| - 1], k, name)
    requires !(results[|results| - 1].Some? && results[|results| - 1].value.name == name)
    ensures LastSuccessFor(results, k, name)
  {
    var init := results[..|results| - 1];
    assert init[k] == results[k];
    forall j | k < j < |results| && results[j].Some? ensures results[j].value.name != name {
      if j < |results| - 1 { assert init[j] == results[j]; }
    }
  }

  lemma {:induction false} CollectAt(library: map<string, AnimationClip>, results: seq<Option<NamedClip>>, name: string)
    ensures name in Collect(library, results) <==> name in library || SucceededUnder(results, name)
    ensures !SucceededUnder(results, name) && name in library ==> Collect(library, results)[name] == library[name]
    ensures SucceededUnder(results, name) ==>
      exists i :: 0 <= i < |results| && LastSuccessFor(results, i, name) &&
        Collect(library, results)[name] == results[i].value.clip
  {
    if |results| > 0 {
      var last := |results| - 1;
      var init := results[..last];
      CollectAt(library, init, name);
      if results[last].Some? && results[last].value.name == name {
        assert LastSuccessFor(results, last, name);
      } else {
        SucceededUnderInit(results, name);
        if SucceededUnder(results, name) {
          var k :| 0 <= k < |init| && LastSuccessFor(init, k, name) && Collect(library, init)[name] == init[k].value.clip;
          LastSuccessExtends(results, k, name);
          assert init[k] == results[k];
        }
      }
    }
  }

  /**
   * The aggregate: a name is in the library exactly when it was there before
   * or some load succeeded under it; a name no load succeeded under keeps its
   * clip, and every other name holds the clip of its last success.
   */
  lemma CollectSpec(library: map<string, AnimationClip>, results: seq<Option<NamedClip>>)
    ensures forall name :: name in Collect(library, results) <==> name in library || SucceededUnder(results, name)
    ensures forall name :: name in library && !SucceededUnder(results, name) ==>
      Collect(library, results)[name] == library[name]
    ensures forall name :: SucceededUnder(results, name) ==>
      exists i :: 0 <= i < |results| && LastSuccessFor(results, i, name) &&
        Collect(library, results)[name] == results[i].value.clip
  {
    forall name
      ensures name in Collect(library, results) <==> name in library || SucceededUnder(results, name)
      ensures name in library && !SucceededUnder(results, name) ==> Collect(library, results)[name] == library[name]
      ensures SucceededUnder(results, name) ==>
        exists i :: 0 <= i < |results| && LastSuccessFor(results, i, name) &&
          Collect(library, results)[name] == results[i].value.clip
    {
      CollectAt(library, results, name);
    }
  }

  /**
   * Starting from the empty library, the loads of the four files leave
   * exactly the names whose own load succeeded, each with the clip its load
   * produced; one load failing removes or blocks no other entry.
   */
  /** The four file names are distinct. */
  lemma FileNamesDistinct(i: int, j: int)
    requires 0 <= i < |AnimationFiles| && 0 <= j < |AnimationFiles|
    requires AnimationFiles[i].name == AnimationFiles[j].name
    ensures i == j
  {
  }

  /** File `i`'s own load decides whether its name reaches the library, and with which clip. */
  lemma LoadedEntry(loads: seq<FbxLoad>, boneMap: map<string, Bone>, i: int)
    requires |loads| == |AnimationFiles| && 0 <= i < |AnimationFiles|
    ensures var name := AnimationFiles[i].name;
      var outcome := LoadOutcome(name, loads[i], boneMap);
      && (name in Collect(map[], LoadResults(loads, boneMap)) <==> outcome.Success?)
      && (outcome.Success? ==> Collect(map[], LoadResults(loads, boneMap))[name] == outcome.value)
  {
    var results := LoadResults(loads, boneMap);
    var name := AnimationFiles[i].name;
    CollectAt(map[], results, name);
    assert results[i] == LoadResult(AnimationFiles[i], loads[i], boneMap);
    forall j | 0 <= j < |results| && results[j].Some? && results[j].value.name == name ensures j == i {
      assert results[j] == LoadResult(AnimationFiles[j], loads[j], boneMap);
      FileNamesDistinct(i, j);
    }
    if LoadOutcome(name, loads[i], boneMap).Success? {
      assert results[i].Some? && results[i].value.name == name;
    }
  }

  /**
   * Starting from the empty library, the loads of the four files leave
   * exactly the names whose own load succeeded, each with the clip its load
   * produced; one load failing removes or blocks no other entry.
   */
  lemma LoadedLibrary(loads: seq<FbxLoad>, boneMap: map<string, Bone>)
    requires |loads| == |AnimationFiles|
    ensures forall i :: 0 <= i < |AnimationFiles| ==>
      var name := AnimationFiles[i].name;
      var outcome := LoadOutcome(name, loads[i], boneMap);
      && (name in Collect(map[], LoadResults(loads, boneMap)) <==> outcome.Success?)
      && (outcome.Success? ==> Collect(map[], LoadResults(loads, boneMap))[name] == outcome.value)
    ensures forall name :: name in Collect(map[], LoadResults(loads, boneMap)) ==>
      name in {"idle", "jump", "wave", "run"}
  {
    var results := LoadResults(loads, boneMap);
    forall i | 0 <= i < |AnimationFiles|
      ensures var name := AnimationFiles[i].name;
        var outcome := LoadOutcome(name, loads[i], boneMap);
        && (name in Collect(map[], results) <==> outcome.Success?)
        && (outcome.Success? ==> Collect(map[], results)[name] == outcome.value)
    {
      LoadedEntry(loads, boneMap, i);
    }
    forall name | name in Collect(map[], results) ensures name in {"idle", "jump", "wave", "run"} {
      CollectAt(map[], results, name);
      var i :| 0 <= i < |results| && results[i].Some? && results[i].value.name == name;
      assert results[i] == LoadResult(AnimationFiles[i], loads[i], boneMap);
    }
  }
}
