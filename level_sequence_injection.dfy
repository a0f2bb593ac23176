/**
 * AddDataToLevelSequence and the two section injectors: for every table row
 * that has a compatible spawnable, resolve the start time once and hand it,
 * with the row's trims and row index 0, to an audio and an animation injection.
 * The engine's insertion of a section (insert, trim, move to a row, update
 * easing) is an effect `insert` supplied by the caller; the model applies it to
 * the movie scene exactly when an injector's guards let the insertion happen.
 */
module LevelSequenceInjection {
  import opened Wrappers
  import opened HostScene
  import opened WaspTypes
  import opened TimePlacement
  import opened TrackSearch
  import opened SectionEndTime
  import opened SpawnableSearch

  /** The asset an injection carries. */
  datatype InjectData = SoundData(sound: Sound) | AnimationData(animation: AnimSequence)

  /** Where and how to inject one section: track, row index, start time and the two trim amounts in seconds. */
  datatype SectionInjectParams = SectionInjectParams(
    data: Option<InjectData>,
    track: Option<Track>,
    rowIndex: int,
    time: real,
    startTrim: real,
    endTrim: real)

  datatype Channel = AudioChannel | AnimationChannel

  /** One call of an injector, with what it was given and whether it inserted a section. */
  datatype Injection = Injection(channel: Channel, params: SectionInjectParams, inserted: bool)

  /** The movie scene after the engine inserts, trims and places one injected section. */
  type InsertEffect = (MovieScene, Injection) -> MovieScene

  /** AddAudioToTrack: inserts only when the track is an audio track and the data a sound. */
  function AddAudioToTrack(p: SectionInjectParams): (inserted: bool)
    ensures inserted <==> p.track.Some? && p.track.value.kind == AudioTrack && p.data.Some? && p.data.value.SoundData?
  {
    match p.track
    case None => false
    case Some(track) =>
      if track.kind != AudioTrack then false
      else p.data.Some? && p.data.value.SoundData?
  }

  /** AddAnimationToTrack: inserts only when the track is a skeletal animation track and the data an animation. */
  function AddAnimationToTrack(p: SectionInjectParams): (inserted: bool)
    ensures inserted <==> p.track.Some? && p.track.value.kind == SkeletalAnimationTrack && p.data.Some? && p.data.value.AnimationData?
  {
    match p.track
    case None => false
    case Some(track) =>
      if track.kind != SkeletalAnimationTrack then false
      else p.data.Some? && p.data.value.AnimationData?
  }

  /** Injections made so far and the movie scene they leave behind. */
  datatype Outcome = Outcome(injections: seq<Injection>, scene: MovieScene)

  /** The track class each channel searches for; never an unrelated class. */
  function ChannelTrackKind(channel: Channel): (r: TrackKind)
    ensures r == AudioTrack <==> channel == AudioChannel
    ensures r == SkeletalAnimationTrack <==> channel == AnimationChannel
  {
    match channel
    case AudioChannel => AudioTrack
    case AnimationChannel => SkeletalAnimationTrack
  }

  /**
   * The first track of the channel's class that the search finds: scene-level
   * tracks first when that pass is on, then the tracks of the selected bindings.
   */
  function ChannelTrack(channel: Channel, scene: MovieScene, guid: Guid, flags: SearchFlags): (r: Option<Track>)
    ensures r.Some? ==> r.value.kind == ChannelTrackKind(channel)
    ensures r.Some? ==>
              (flags.searchNonSpawnable && r.value in scene.tracks)
              || (flags.searchSpawnable
                  && exists i :: 0 <= i < |scene.bindings| && BindingSelected(scene.bindings[i], guid) && r.value in scene.bindings[i].tracks)
    ensures r.None?
        <==> !(flags.searchNonSpawnable && exists t :: t in scene.tracks && t.kind == ChannelTrackKind(channel))
             && !(flags.searchSpawnable
                  && exists i, t :: 0 <= i < |scene.bindings| && BindingSelected(scene.bindings[i], guid)
                                   && t in scene.bindings[i].tracks && t.kind == ChannelTrackKind(channel))
  {
    var p := TrackSearchParams(ChannelTrackKind(channel), guid, Some(scene), flags);
    var found := TracksOfType(p);
    TracksOfTypeEmpty(p);
    if |found| > 0 then
      TracksOfTypeMembers(p, found[0]);
      Some(found[0])
    else None
  }

  /** With the scene-level pass on, a scene-level track of the class is chosen before any binding's track. */
  lemma ChannelTrackPrefersSceneTracks(channel: Channel, scene: MovieScene, guid: Guid, flags: SearchFlags)
    requires flags.searchNonSpawnable && |TracksOfKind(scene.tracks, ChannelTrackKind(channel))| > 0
    ensures ChannelTrack(channel, scene, guid, flags) == Some(TracksOfKind(scene.tracks, ChannelTrackKind(channel))[0])
  {
    var p := TrackSearchParams(ChannelTrackKind(channel), guid, Some(scene), flags);
    SceneTracksFirst(p);
    assert TracksOfType(p)[0] == TracksOfType(p)[..|TracksOfKind(scene.tracks, ChannelTrackKind(channel))|][0];
  }

  /**
   * With only the binding pass on and a valid guid, the chosen track is the first
   * track of the class on the bindings carrying that guid, in binding order.
   */
  lemma ChannelTrackFromGuidBindings(channel: Channel, scene: MovieScene, guid: Guid, flags: SearchFlags)
    requires guid.IsValid() && !flags.searchNonSpawnable && flags.searchSpawnable
    ensures var bound := BindingTracksOfKind(BindingsWithGuid(scene.bindings, guid), InvalidGuid, ChannelTrackKind(channel));
            ChannelTrack(channel, scene, guid, flags) == if |bound| > 0 then Some(bound[0]) else None
  {
    ValidGuidRestricts(scene.bindings, guid, ChannelTrackKind(channel));
  }

  /** One injection block of the row loop: find the track, build the parameters, call the injector. */
  function InjectStep(channel: Channel, scene: MovieScene, guid: Guid, data: InjectData,
                      time: real, startTrim: real, endTrim: real,
                      flags: SearchFlags, insert: InsertEffect): (r: Outcome)
    ensures |r.injections| == 1
    ensures var inj := r.injections[0];
            && inj.channel == channel && inj.params.data == Some(data)
            && inj.params.rowIndex == 0 && inj.params.time == time
            && inj.params.startTrim == startTrim && inj.params.endTrim == endTrim
    ensures r.injections[0].params.track == ChannelTrack(channel, scene, guid, flags)
    ensures r.injections[0].inserted
        <==> (channel == AudioChannel <==> data.SoundData?) && ChannelTrack(channel, scene, guid, flags).Some?
    ensures r.scene == if r.injections[0].inserted then insert(scene, r.injections[0]) else scene
  {
    var p := SectionInjectParams(Some(data), ChannelTrack(channel, scene, guid, flags), 0, time, startTrim, endTrim);
    var inserted := if channel == AudioChannel then AddAudioToTrack(p) else AddAnimationToTrack(p);
    var injection := Injection(channel, p, inserted);
    Outcome([injection], if inserted then insert(scene, injection) else scene)
  }

  /** What one table row does to the movie scene. */
  function RowStep(scene: MovieScene, row: AnimationTrackAddParams, flags: SearchFlags, insert: InsertEffect): (r: Outcome)
    ensures |r.injections| <= 2
  {
    var spawnable := FindCompatibleSpawnableForAnimation(scene, row.animation);
    if spawnable.None? then Outcome([], scene)
    else PlacedRowStep(scene, row, spawnable.value.guid, LastSectionEndTime(SkeletalAnimationTrack, Some(scene), flags), flags, insert)
  }

  /** A row once its spawnable and the scene's last section end time are known: audio first, then animation. */
  function PlacedRowStep(scene: MovieScene, row: AnimationTrackAddParams, guid: Guid, lastSectionEndTime: real,
                         flags: SearchFlags, insert: InsertEffect): (r: Outcome)
    ensures |r.injections| == (if row.audio.Some? then 1 else 0) + (if row.animation.Some? then 1 else 0)
  {
    var time := StartTime(row.timeMode, row.time, row.startOffset, lastSectionEndTime);
    var startTrim := Abs(row.startOffset);
    var endTrim := Abs(row.endTrim);
    var audio :=
      if row.audio.Some?
      then InjectStep(AudioChannel, scene, guid, SoundData(row.audio.value), time, startTrim, endTrim, flags, insert)
      else Outcome([], scene);
    var animation :=
      if row.animation.Some?
      then InjectStep(AnimationChannel, audio.scene, guid, AnimationData(row.animation.value), time, startTrim, endTrim, flags, insert)
      else Outcome([], audio.scene);
    Outcome(audio.injections + animation.injections, animation.scene)
  }

  /** How one row changes the movie scene. */
  type RowStepFn = (MovieScene, AnimationTrackAddParams) -> Outcome

  /** The row step of AddDataToLevelSequence for the given search flags and insertion effect. */
  function TableStep(flags: SearchFlags, insert: InsertEffect): RowStepFn {
    (scene: MovieScene, row: AnimationTrackAddParams) => RowStep(scene, row, flags, insert)
  }

  /** The rows processed in table order, each seeing the scene the previous rows left. */
  function RunRows(scene: MovieScene, rows: seq<AnimationTrackAddParams>, step: RowStepFn): Outcome
    decreases |rows|
  {
    if |rows| == 0 then Outcome([], scene)
    else
      var first := step(scene, rows[0]);
      var rest := RunRows(first.scene, rows[1..], step);
      Outcome(first.injections + rest.injections, rest.scene)
  }

  /**
   * One of the two injection blocks of the row loop, the executable form of
   * InjectStep: search for tracks of the channel's class, build the parameters, inject.
   */
  method InjectSection(channel: Channel, scene: MovieScene, guid: Guid, data: InjectData,
                       time: real, startTrim: real, endTrim: real,
                       flags: SearchFlags, insert: InsertEffect)
    returns (injection: Injection, after: MovieScene)
    ensures InjectStep(channel, scene, guid, data, time, startTrim, endTrim, flags, insert) == Outcome([injection], after)
  {
    var search := TrackSearchParams(ChannelTrackKind(channel), guid, Some(scene), flags);
    var tracks := GetAllTracksOfType(search, []);
    assert tracks == TracksOfType(search);
    var track: Option<Track> := None;
    if |tracks| > 0 {
      track := Some(tracks[0]);
    }
    var p := SectionInjectParams(Some(data), track, 0, time, startTrim, endTrim);
    var inserted := if channel == AudioChannel then AddAudioToTrack(p) else AddAnimationToTrack(p);
    injection := Injection(channel, p, inserted);
    after := if inserted then insert(scene, injection) else scene;
  }

  /** The body of the row loop, the executable form of RowStep. */
  method AddRow(scene: MovieScene, row: AnimationTrackAddParams, flags: SearchFlags, insert: InsertEffect)
    returns (injections: seq<Injection>, after: MovieScene)
    ensures Outcome(injections, after) == RowStep(scene, row, flags, insert)
  {
    injections, after := [], scene;
    var spawnable := FindCompatibleSpawnableForAnimation(scene, row.animation);
    if spawnable.None? {
      return;
    }
    var lastSectionEndTime := GetLastSectionEndTime(SkeletalAnimationTrack, Some(scene), flags);
    var startTrimTime := Abs(row.startOffset);
    var endTrimTime := Abs(row.endTrim);
    var time := StartTime(row.timeMode, row.time, row.startOffset, lastSectionEndTime);

    // Audio
    if row.audio.Some? {
      var injection;
      injection, after := InjectSection(AudioChannel, after, spawnable.value.guid, SoundData(row.audio.value),
                                        time, startTrimTime, endTrimTime, flags, insert);
      injections := injections + [injection];
    }

    // Animation
    if row.animation.Some? {
      var injection;
      injection, after := InjectSection(AnimationChannel, after, spawnable.value.guid, AnimationData(row.animation.value),
                                        time, startTrimTime, endTrimTime, flags, insert);
      injections := injections + [injection];
    }
  }

  /**
   * AddDataToLevelSequence: fails on a null level sequence, data table or movie
   * scene; otherwise runs every row and succeeds, whatever the injectors report.
   * `scene` is the movie scene afterwards (unchanged on failure).
   */
  method AddDataToLevelSequence(levelSequence: Option<LevelSequence>, dataTable: Option<seq<AnimationTrackAddParams>>,
                                flags: SearchFlags, insert: InsertEffect)
    returns (ok: bool, injections: seq<Injection>, scene: Option<MovieScene>)
    ensures ok <==> levelSequence.Some? && dataTable.Some? && levelSequence.value.movieScene.Some?
    ensures !ok ==> injections == [] && scene == (if levelSequence.Some? then levelSequence.value.movieScene else None)
    ensures ok ==> scene.Some?
                   && Outcome(injections, scene.value) == RunRows(levelSequence.value.movieScene.value, dataTable.value, TableStep(flags, insert))
  {
    injections := [];
    scene := if levelSequence.Some? then levelSequence.value.movieScene else None;
    if levelSequence.None? {
      return false, injections, scene;
    }
    if dataTable.None? {
      return false, injections, scene;
    }
    var rows := dataTable.value;
    if scene.None? {
      return false, injections, scene;
    }

    var movieScene := scene.value;
    ghost var step := TableStep(flags, insert);
    ghost var total := RunRows(movieScene, rows, step);
    var i := 0;
    while i < |rows|
      invariant 0 <= i <= |rows|
      invariant total.injections == injections + RunRows(movieScene, rows[i..], step).injections
      invariant total.scene == RunRows(movieScene, rows[i..], step).scene
    {
      var rowInjections, after := AddRow(movieScene, rows[i], flags, insert);
      RunRowsUnfold(movieScene, rows, i, step, rowInjections, after, injections);
      injections := injections + rowInjections;
      movieScene := after;
      i := i + 1;
    }
    return true, injections, Some(movieScene);
  }

  /** Running the rows from `i` is running row `i` and then the rest on the scene it leaves. */
  lemma RunRowsUnfold(scene: MovieScene, rows: seq<AnimationTrackAddParams>, i: nat, step: RowStepFn,
                      injections: seq<Injection>, after: MovieScene, done: seq<Injection>)
    requires i < |rows| && step(scene, rows[i]) == Outcome(injections, after)
    ensures done + RunRows(scene, rows[i..], step).injections == (done + injections) + RunRows(after, rows[i + 1..], step).injections
    ensures RunRows(scene, rows[i..], step).scene == RunRows(after, rows[i + 1..], step).scene
  {
    assert rows[i..][0] == rows[i] && rows[i..][1..] == rows[i + 1..];
  }

  /** A row with no compatible spawnable changes nothing and injects nothing. */
  lemma IncompatibleRowSkipped(scene: MovieScene, row: AnimationTrackAddParams, flags: SearchFlags, insert: InsertEffect)
    requires FindCompatibleSpawnableForAnimation(scene, row.animation).None?
    ensures RowStep(scene, row, flags, insert) == Outcome([], scene)
  {
  }

  /** A default-constructed row has no animation, so it is always skipped. */
  lemma DefaultRowSkipped(scene: MovieScene, flags: SearchFlags, insert: InsertEffect)
    ensures RowStep(scene, DefaultParams(), flags, insert) == Outcome([], scene)
  {
    NullAnimationFindsNothing(scene);
  }

  /**
   * A row with a compatible spawnable injects its audio (if any) and then its
   * animation, both at the same start time, with row index 0 and trims |StartOffset|
   * and |EndTrim|; the start time is resolved once, against the sections present
   * before the row.
   */
  lemma CompatibleRowShape(scene: MovieScene, row: AnimationTrackAddParams, flags: SearchFlags, insert: InsertEffect)
    requires FindCompatibleSpawnableForAnimation(scene, row.animation).Some?
    ensures var o := RowStep(scene, row, flags, insert);
            var time := StartTime(row.timeMode, row.time, row.startOffset,
                                  LastSectionEndTime(SkeletalAnimationTrack, Some(scene), flags));
            && |o.injections| == (if row.audio.Some? then 2 else 1)
            && o.injections[|o.injections| - 1].channel == AnimationChannel
            && o.injections[|o.injections| - 1].params.data == Some(AnimationData(row.animation.value))
            && (row.audio.Some? ==> o.injections[0].channel == AudioChannel
                                    && o.injections[0].params.data == Some(SoundData(row.audio.value)))
            && forall k :: 0 <= k < |o.injections| ==>
                 o.injections[k].params.rowIndex == 0
                 && o.injections[k].params.time == time
                 && o.injections[k].params.startTrim == Abs(row.startOffset)
                 && o.injections[k].params.endTrim == Abs(row.endTrim)
  {
    var spawnable := FindCompatibleSpawnableForAnimation(scene, row.animation);
    AnimationCompatibilityBySkeleton(spawnable.value, row.animation);
    PlacedRowShape(scene, row, spawnable.value.guid, LastSectionEndTime(SkeletalAnimationTrack, Some(scene), flags), flags, insert);
  }

  /** The shape of a row's injections once its spawnable and the last section end time are known. */
  lemma PlacedRowShape(scene: MovieScene, row: AnimationTrackAddParams, guid: Guid, lastSectionEndTime: real,
                       flags: SearchFlags, insert: InsertEffect)
    requires row.animation.Some?
    ensures var o := PlacedRowStep(scene, row, guid, lastSectionEndTime, flags, insert);
            var time := StartTime(row.timeMode, row.time, row.startOffset, lastSectionEndTime);
            && |o.injections| == (if row.audio.Some? then 2 else 1)
            && o.injections[|o.injections| - 1].channel == AnimationChannel
            && o.injections[|o.injections| - 1].params.data == Some(AnimationData(row.animation.value))
            && (row.audio.Some? ==> o.injections[0].channel == AudioChannel
                                    && o.injections[0].params.data == Some(SoundData(row.audio.value)))
            && forall k :: 0 <= k < |o.injections| ==>
                 o.injections[k].params.rowIndex == 0
                 && o.injections[k].params.time == time
                 && o.injections[k].params.startTrim == Abs(row.startOffset)
                 && o.injections[k].params.endTrim == Abs(row.endTrim)
  {
  }

  /**
   * Which track each injection of a placed row is handed and what the scene
   * becomes: the audio searches the scene the row started from, the animation
   * the scene the audio injection left, and each insertion is applied in turn.
   */
  lemma PlacedRowTracks(scene: MovieScene, row: AnimationTrackAddParams, guid: Guid, lastSectionEndTime: real,
                        flags: SearchFlags, insert: InsertEffect)
    requires row.animation.Some?
    ensures var o := PlacedRowStep(scene, row, guid, lastSectionEndTime, flags, insert);
            var last := o.injections[|o.injections| - 1];
            var mid := if row.audio.Some? && o.injections[0].inserted then insert(scene, o.injections[0]) else scene;
            && (row.audio.Some? ==> o.injections[0].params.track == ChannelTrack(AudioChannel, scene, guid, flags))
            && last.params.track == ChannelTrack(AnimationChannel, mid, guid, flags)
            && o.scene == if last.inserted then insert(mid, last) else mid
  {
  }

  /**
   * A row with a compatible spawnable hands each injector the first track of its
   * class that the search for that spawnable's guid finds, and leaves the scene
   * both insertions make.
   */
  lemma CompatibleRowTracks(scene: MovieScene, row: AnimationTrackAddParams, flags: SearchFlags, insert: InsertEffect)
    requires FindCompatibleSpawnableForAnimation(scene, row.animation).Some?
    ensures var g := FindCompatibleSpawnableForAnimation(scene, row.animation).value.guid;
            var o := RowStep(scene, row, flags, insert);
            var last := o.injections[|o.injections| - 1];
            var mid := if row.audio.Some? && o.injections[0].inserted then insert(scene, o.injections[0]) else scene;
            && |o.injections| == (if row.audio.Some? then 2 else 1)
            && (row.audio.Some? ==> o.injections[0].params.track == ChannelTrack(AudioChannel, scene, g, flags))
            && last.params.track == ChannelTrack(AnimationChannel, mid, g, flags)
            && o.scene == if last.inserted then insert(mid, last) else mid
  {
    var spawnable := FindCompatibleSpawnableForAnimation(scene, row.animation);
    AnimationCompatibilityBySkeleton(spawnable.value, row.animation);
    PlacedRowTracks(scene, row, spawnable.value.guid, LastSectionEndTime(SkeletalAnimationTrack, Some(scene), flags), flags, insert);
  }

  /** Every injection a row makes has row index 0, non-negative trims, and inserts exactly when a track was found. */
  predicate WellFormedInjection(inj: Injection) {
    && inj.params.rowIndex == 0
    && inj.params.startTrim >= 0.0
    && inj.params.endTrim >= 0.0
    && (inj.inserted <==> inj.params.track.Some?)
  }

  lemma InjectStepWellFormed(channel: Channel, scene: MovieScene, guid: Guid, data: InjectData,
                             time: real, startTrim: real, endTrim: real,
                             flags: SearchFlags, insert: InsertEffect)
    requires startTrim >= 0.0 && endTrim >= 0.0
    requires channel == AudioChannel <==> data.SoundData?
    ensures var o := InjectStep(channel, scene, guid, data, time, startTrim, endTrim, flags, insert);
            |o.injections| == 1 && WellFormedInjection(o.injections[0])
  {
    TracksOfTypeKind(TrackSearchParams(ChannelTrackKind(channel), guid, Some(scene), flags));
  }

  lemma RowStepWellFormed(scene: MovieScene, row: AnimationTrackAddParams, flags: SearchFlags, insert: InsertEffect)
    ensures var o := RowStep(scene, row, flags, insert);
            |o.injections| <= 2 && forall k :: 0 <= k < |o.injections| ==> WellFormedInjection(o.injections[k])
  {
    var spawnable := FindCompatibleSpawnableForAnimation(scene, row.animation);
    if spawnable.Some? {
      PlacedRowStepWellFormed(scene, row, spawnable.value.guid, LastSectionEndTime(SkeletalAnimationTrack, Some(scene), flags), flags, insert);
    }
  }

  lemma PlacedRowStepWellFormed(scene: MovieScene, row: AnimationTrackAddParams, guid: Guid, lastSectionEndTime: real,
                                flags: SearchFlags, insert: InsertEffect)
    ensures var o := PlacedRowStep(scene, row, guid, lastSectionEndTime, flags, insert);
            |o.injections| <= 2 && forall k :: 0 <= k < |o.injections| ==> WellFormedInjection(o.injections[k])
  {
    var time := StartTime(row.timeMode, row.time, row.startOffset, lastSectionEndTime);
    var startTrim, endTrim := Abs(row.startOffset), Abs(row.endTrim);
    var audio :=
      if row.audio.Some?
      then InjectStep(AudioChannel, scene, guid, SoundData(row.audio.value), time, startTrim, endTrim, flags, insert)
      else Outcome([], scene);
    if row.audio.Some? {
      InjectStepWellFormed(AudioChannel, scene, guid, SoundData(row.audio.value), time, startTrim, endTrim, flags, insert);
    }
    var animation :=
      if row.animation.Some?
      then InjectStep(AnimationChannel, audio.scene, guid, AnimationData(row.animation.value), time, startTrim, endTrim, flags, insert)
      else Outcome([], audio.scene);
    if row.animation.Some? {
      InjectStepWellFormed(AnimationChannel, audio.scene, guid, AnimationData(row.animation.value), time, startTrim, endTrim, flags, insert);
    }
    ConcatWellFormed(audio.injections, animation.injections);
  }

  /** Two runs of at most one well-formed injection each make at most two, all well-formed. */
  lemma ConcatWellFormed(a: seq<Injection>, b: seq<Injection>)
    requires |a| <= 1 && forall k :: 0 <= k < |a| ==> WellFormedInjection(a[k])
    requires |b| <= 1 && forall k :: 0 <= k < |b| ==> WellFormedInjection(b[k])
    ensures |a + b| <= 2 && forall k :: 0 <= k < |a + b| ==> WellFormedInjection((a + b)[k])
  {
    forall k | 0 <= k < |a + b| ensures WellFormedInjection((a + b)[k]) {
      if k >= |a| {
        assert (a + b)[k] == b[k - |a|];
      }
    }
  }

  /** A row step that makes at most two injections per row, each satisfying `good`. */
  ghost predicate StepBounded(step: RowStepFn, good: Injection -> bool) {
    forall scene: MovieScene, row: AnimationTrackAddParams :: |step(scene, row).injections| <= 2
      && forall k :: 0 <= k < |step(scene, row).injections| ==> good(step(scene, row).injections[k])
  }

  /** Running a bounded step over a table: at most two injections per row, each satisfying `good`. */
  lemma {:induction false} RunRowsBounded(scene: MovieScene, rows: seq<AnimationTrackAddParams>, step: RowStepFn, good: Injection -> bool)
    requires StepBounded(step, good)
    ensures var o := RunRows(scene, rows, step);
            |o.injections| <= 2 * |rows| && forall k :: 0 <= k < |o.injections| ==> good(o.injections[k])
    decreases |rows|
  {
    if |rows| > 0 {
      var first := step(scene, rows[0]);
      RunRowsBounded(first.scene, rows[1..], step, good);
      var rest := RunRows(first.scene, rows[1..], step);
      var all := first.injections + rest.injections;
      forall k | 0 <= k < |all| ensures good(all[k]) {
        if k < |first.injections| {
          assert all[k] == first.injections[k];
        } else {
          assert all[k] == rest.injections[k - |first.injections|];
        }
      }
    }
  }

  /** Over a whole table: at most two injections per row, each with row index 0, non-negative trims, inserted iff a track was found. */
  lemma RunRowsWellFormed(scene: MovieScene, rows: seq<AnimationTrackAddParams>, flags: SearchFlags, insert: InsertEffect)
    ensures var o := RunRows(scene, rows, TableStep(flags, insert));
            |o.injections| <= 2 * |rows| && forall k :: 0 <= k < |o.injections| ==> WellFormedInjection(o.injections[k])
  {
    var step := TableStep(flags, insert);
    var good := (inj: Injection) => WellFormedInjection(inj);
    forall s: MovieScene, r: AnimationTrackAddParams
      ensures |step(s, r).injections| <= 2 && forall k :: 0 <= k < |step(s, r).injections| ==> good(step(s, r).injections[k])
    {
      RowStepWellFormed(s, r, flags, insert);
    }
    RunRowsBounded(scene, rows, step, good);
  }

  /** Rows are processed strictly in order: running a + b is running a, then b from where a left the scene. */
  lemma {:induction false} RunRowsAppend(scene: MovieScene, a: seq<AnimationTrackAddParams>, b: seq<AnimationTrackAddParams>, step: RowStepFn)
    ensures var first := RunRows(scene, a, step);
            var second := RunRows(first.scene, b, step);
            RunRows(scene, a + b, step) == Outcome(first.injections + second.injections, second.scene)
    decreases |a|
  {
    if |a| == 0 {
      assert a + b == b;
    } else {
      assert (a + b)[0] == a[0];
      assert (a + b)[1..] == a[1..] + b;
      RunRowsAppend(step(scene, a[0]).scene, a[1..], b, step);
    }
  }

  /** A row built by the three-argument constructor in Precise mode is injected exactly at its Time, untrimmed. */
  lemma ThreeArgumentPreciseRow(scene: MovieScene, animation: AnimSequence, time: real, flags: SearchFlags, insert: InsertEffect)
    requires FindCompatibleSpawnableForAnimation(scene, Some(animation)).Some?
    ensures var o := RowStep(scene, MakeParams(Some(animation), Precise, time), flags, insert);
            |o.injections| == 1
            && o.injections[0].channel == AnimationChannel
            && o.injections[0].params.time == time
            && o.injections[0].params.startTrim == 0.0
            && o.injections[0].params.endTrim == 0.0
  {
    CompatibleRowShape(scene, MakeParams(Some(animation), Precise, time), flags, insert);
  }
}
