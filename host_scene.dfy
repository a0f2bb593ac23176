/**
 * The part of the host engine's timeline object model that the WASP runtime
 * library reads: guids, frame rates, sections, tracks, bindings, spawnables,
 * movie scenes and level sequences.  Every engine object is a value here;
 * a pointer that may be null is an Option.
 */
module HostScene {
  import opened Wrappers

  /** An engine guid as four words; it is valid when any word is non-zero. */
  datatype Guid = Guid(a: nat, b: nat, c: nat, d: nat) {
    predicate IsValid() {
      a != 0 || b != 0 || c != 0 || d != 0
    }
  }

  /** The default-constructed guid, which is not valid. */
  const InvalidGuid := Guid(0, 0, 0, 0)

  /** A rational frame rate numerator / denominator frames per second. */
  datatype FrameRate = FrameRate(numerator: int, denominator: int) {
    /** A rate that turns a frame number into a finite number of seconds. */
    predicate IsValid() {
      numerator > 0 && denominator > 0
    }
  }

  /** Seconds at which frame `frame` falls under `rate`. */
  function FrameToSeconds(frame: int, rate: FrameRate): (r: real)
    requires rate.IsValid()
    ensures r * (rate.numerator as real) == (frame as real) * (rate.denominator as real)
    ensures frame >= 0 <==> r >= 0.0
  {
    (frame as real) * (rate.denominator as real) / (rate.numerator as real)
  }

  /** A section of a track; `upperBound` is None when its range is open-ended (it has no end frame). */
  datatype Section = Section(upperBound: Option<int>) {
    predicate HasEndFrame() {
      upperBound.Some?
    }
  }

  /** The closed set of track classes the library distinguishes. */
  datatype TrackKind = SkeletalAnimationTrack | AudioTrack | OtherTrack(className: string)

  /** A track with its class, the tick resolution of the movie scene that owns it, and its sections. */
  datatype Track = Track(kind: TrackKind, tickResolution: FrameRate, sections: seq<Section>)

  /** A possessable or spawnable object binding and the tracks bound to it. */
  datatype Binding = Binding(guid: Guid, tracks: seq<Track>)

  /** A skeleton asset, identified by its export text name. */
  datatype Skeleton = Skeleton(exportName: string)

  datatype SkeletalMesh = SkeletalMesh(skeleton: Option<Skeleton>)

  datatype SkeletalMeshComponent = SkeletalMeshComponent(mesh: Option<SkeletalMesh>)

  /** The object template of a spawnable: a skeletal mesh actor or some other actor class. */
  datatype ActorTemplate =
    | SkeletalMeshActor(component: Option<SkeletalMeshComponent>)
    | OtherActor(className: string)

  datatype Spawnable = Spawnable(guid: Guid, template: Option<ActorTemplate>)

  /** An animation asset and the skeleton it was authored for. */
  datatype AnimSequence = AnimSequence(name: string, skeleton: Option<Skeleton>)

  datatype Sound = Sound(name: string)

  /** Scene-level (master) tracks, object bindings and the spawnables the bindings refer to. */
  datatype MovieScene = MovieScene(tracks: seq<Track>, bindings: seq<Binding>, spawnables: seq<Spawnable>)

  datatype LevelSequence = LevelSequence(movieScene: Option<MovieScene>)

  /** The movie scene's lookup of a binding by guid: the first binding carrying it. */
  function FindBinding(bindings: seq<Binding>, guid: Guid): (r: Option<Binding>)
    ensures r.Some? ==> r.value in bindings && r.value.guid == guid
    ensures r.None? ==> forall b :: b in bindings ==> b.guid != guid
  {
    if |bindings| == 0 then None
    else if bindings[0].guid == guid then Some(bindings[0])
    else FindBinding(bindings[1..], guid)
  }

  /** The movie scene's lookup of a spawnable by guid: the first spawnable carrying it. */
  function FindSpawnable(spawnables: seq<Spawnable>, guid: Guid): (r: Option<Spawnable>)
    ensures r.Some? ==> r.value in spawnables && r.value.guid == guid
    ensures r.None? ==> forall s :: s in spawnables ==> s.guid != guid
  {
    if |spawnables| == 0 then None
    else if spawnables[0].guid == guid then Some(spawnables[0])
    else FindSpawnable(spawnables[1..], guid)
  }
}
