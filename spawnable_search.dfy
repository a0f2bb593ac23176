/**
 * Matching an animation to a spawnable through its skeleton, the search for the
 * first compatible spawnable in binding order, and the search for a binding's
 * first skeletal animation track.
 */
module SpawnableSearch {
  import opened Wrappers
  import opened HostScene

  /**
   * The skeleton at the end of a spawnable template's actor -> mesh component ->
   * mesh -> skeleton chain, or None at the first missing link (including a
   * template that is not a skeletal mesh actor).
   */
  function TemplateSkeleton(template: Option<ActorTemplate>): (r: Option<Skeleton>)
    ensures r.Some? <==>
              template.Some? && template.value.SkeletalMeshActor?
              && template.value.component.Some?
              && template.value.component.value.mesh.Some?
              && template.value.component.value.mesh.value.skeleton.Some?
    ensures r.Some? ==> r == template.value.component.value.mesh.value.skeleton
  {
    match template
    case None => None
    case Some(OtherActor(_)) => None
    case Some(SkeletalMeshActor(component)) =>
      match component
      case None => None
      case Some(c) =>
        match c.mesh
        case None => None
        case Some(mesh) => mesh.skeleton
  }

  /** A spawnable is compatible with a skeleton when its mesh's skeleton has the same export name. */
  predicate IsCompatibleWithSkeleton(spawnable: Spawnable, skeleton: Option<Skeleton>)
    ensures IsCompatibleWithSkeleton(spawnable, skeleton) ==>
              skeleton.Some? && TemplateSkeleton(spawnable.template).Some?
              && TemplateSkeleton(spawnable.template).value.exportName == skeleton.value.exportName
  {
    if skeleton.None? then false
    else
      match TemplateSkeleton(spawnable.template)
      case None => false
      case Some(own) => own.exportName == skeleton.value.exportName
  }

  /** A null animation is compatible with nothing; otherwise its skeleton decides. */
  predicate IsCompatibleWithAnimation(spawnable: Spawnable, animation: Option<AnimSequence>)
    ensures IsCompatibleWithAnimation(spawnable, animation) ==>
              animation.Some? && animation.value.skeleton.Some? && TemplateSkeleton(spawnable.template).Some?
  {
    animation.Some? && IsCompatibleWithSkeleton(spawnable, animation.value.skeleton)
  }

  /** Compatibility fails on a null skeleton or any missing link; otherwise it is export-name equality. */
  lemma CompatibilityCharacterised(spawnable: Spawnable, skeleton: Option<Skeleton>)
    ensures skeleton.None? ==> !IsCompatibleWithSkeleton(spawnable, skeleton)
    ensures TemplateSkeleton(spawnable.template).None? ==> !IsCompatibleWithSkeleton(spawnable, skeleton)
    ensures skeleton.Some? && TemplateSkeleton(spawnable.template).Some? ==>
              (IsCompatibleWithSkeleton(spawnable, skeleton)
               <==> TemplateSkeleton(spawnable.template).value.exportName == skeleton.value.exportName)
  {
  }

  /** Compatibility with an animation is compatibility with its skeleton, and a null animation matches nothing. */
  lemma AnimationCompatibilityBySkeleton(spawnable: Spawnable, animation: Option<AnimSequence>)
    ensures animation.None? ==> !IsCompatibleWithAnimation(spawnable, animation)
    ensures animation.Some? ==>
              (IsCompatibleWithAnimation(spawnable, animation) <==> IsCompatibleWithSkeleton(spawnable, animation.value.skeleton))
  {
  }

  /** A spawnable is compatible with skeletons of one export name only. */
  lemma CompatibleWithOneName(spawnable: Spawnable, s1: Skeleton, s2: Skeleton)
    requires IsCompatibleWithSkeleton(spawnable, Some(s1)) && IsCompatibleWithSkeleton(spawnable, Some(s2))
    ensures s1.exportName == s2.exportName
  {
  }

  /** Binding `b` resolves to a spawnable that is compatible with `animation`. */
  predicate BindingMatches(spawnables: seq<Spawnable>, b: Binding, animation: Option<AnimSequence>)
    ensures BindingMatches(spawnables, b, animation) ==>
              exists s :: s in spawnables && s.guid == b.guid && IsCompatibleWithAnimation(s, animation)
  {
    var s := FindSpawnable(spawnables, b.guid);
    s.Some? && IsCompatibleWithAnimation(s.value, animation)
  }

  /** The linear search from binding `k` on; returns the first match's spawnable. */
  function FindCompatibleFrom(scene: MovieScene, animation: Option<AnimSequence>, k: nat): (r: Option<Spawnable>)
    requires k <= |scene.bindings|
    ensures r.Some? ==>
              exists i :: k <= i < |scene.bindings|
                          && BindingMatches(scene.spawnables, scene.bindings[i], animation)
                          && r == FindSpawnable(scene.spawnables, scene.bindings[i].guid)
                          && forall j :: k <= j < i ==> !BindingMatches(scene.spawnables, scene.bindings[j], animation)
    ensures r.None? ==> forall j :: k <= j < |scene.bindings| ==> !BindingMatches(scene.spawnables, scene.bindings[j], animation)
    decreases |scene.bindings| - k
  {
    if k == |scene.bindings| then None
    else if BindingMatches(scene.spawnables, scene.bindings[k], animation) then FindSpawnable(scene.spawnables, scene.bindings[k].guid)
    else FindCompatibleFrom(scene, animation, k + 1)
  }

  /** The first spawnable, in binding order, that is compatible with `animation`, or null. */
  function FindCompatibleSpawnableForAnimation(scene: MovieScene, animation: Option<AnimSequence>): (r: Option<Spawnable>)
    ensures r.Some? ==> r.value in scene.spawnables && IsCompatibleWithAnimation(r.value, animation)
    ensures r.Some? ==>
              exists i :: 0 <= i < |scene.bindings|
                          && r == FindSpawnable(scene.spawnables, scene.bindings[i].guid)
                          && forall j :: 0 <= j < i ==> !BindingMatches(scene.spawnables, scene.bindings[j], animation)
    ensures r.None? <==> forall j :: 0 <= j < |scene.bindings| ==> !BindingMatches(scene.spawnables, scene.bindings[j], animation)
  {
    FindCompatibleFrom(scene, animation, 0)
  }

  /** A null animation never finds a spawnable. */
  lemma NullAnimationFindsNothing(scene: MovieScene)
    ensures FindCompatibleSpawnableForAnimation(scene, None).None?
  {
  }

  /** The first skeletal animation track of `tracks`, in track order. */
  function FirstSkeletalTrack(tracks: seq<Track>): (r: Option<Track>)
    ensures r.Some? ==>
              exists i :: 0 <= i < |tracks| && tracks[i] == r.value && r.value.kind == SkeletalAnimationTrack
                          && forall j :: 0 <= j < i ==> tracks[j].kind != SkeletalAnimationTrack
    ensures r.None? <==> forall j :: 0 <= j < |tracks| ==> tracks[j].kind != SkeletalAnimationTrack
  {
    if |tracks| == 0 then None
    else if tracks[0].kind == SkeletalAnimationTrack then Some(tracks[0])
    else
      var rest := FirstSkeletalTrack(tracks[1..]);
      assert forall j :: 1 <= j < |tracks| ==> tracks[j] == tracks[1..][j - 1];
      rest
  }

  /**
   * The first skeletal animation track of the spawnable's binding, or null.  Nothing is
   * created: the scene is not touched and a missing track stays missing.
   */
  function FindOrCreateAnimationTrackForSpawnable(scene: MovieScene, target: Spawnable): (r: Option<Track>)
    ensures r.Some? ==>
              FindBinding(scene.bindings, target.guid).Some?
              && r.value in FindBinding(scene.bindings, target.guid).value.tracks
              && r.value.kind == SkeletalAnimationTrack
    ensures r.Some? ==>
              var tracks := FindBinding(scene.bindings, target.guid).value.tracks;
              exists i :: 0 <= i < |tracks| && tracks[i] == r.value
                          && forall j :: 0 <= j < i ==> tracks[j].kind != SkeletalAnimationTrack
    ensures r.None? <==>
              FindBinding(scene.bindings, target.guid).None?
              || forall t :: t in FindBinding(scene.bindings, target.guid).value.tracks ==> t.kind != SkeletalAnimationTrack
  {
    match FindBinding(scene.bindings, target.guid)
    case None => None
    case Some(binding) => FirstSkeletalTrack(binding.tracks)
  }

  /** A track that is found was already in one of the scene's bindings. */
  lemma FoundTrackExists(scene: MovieScene, target: Spawnable)
    requires FindOrCreateAnimationTrackForSpawnable(scene, target).Some?
    ensures exists b :: b in scene.bindings && b.guid == target.guid
                        && FindOrCreateAnimationTrackForSpawnable(scene, target).value in b.tracks
  {
  }
}
