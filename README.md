# WASP runtime utility library — a Dafny model

WASP's runtime plugin injects animation clips and sounds into an Unreal level
sequence. A data table holds one row per clip. For each row, the driver
`AddDataToLevelSequence` does four things:

1. It takes the spawnable of the first binding, in binding order, whose
   template's skeleton has the clip skeleton's export name.
2. It resolves the clip's start time from the row's time mode, `Time` and
   `StartOffset`, and from the last section end time: the largest end of the
   bounded sections on the skeletal-animation tracks the search visits,
   measured at the first scanned track's rate and never below 0 (0 when that
   rate is invalid).
3. It searches for audio tracks and for skeletal animation tracks, and takes
   the first track of each class that the search finds. Scene-level tracks come
   first when that pass is on, then the tracks of the bindings the spawnable's
   guid selects.
4. It hands each of them the same start time, row index 0 and trims
   `|StartOffset|` and `|EndTrim|`.

This project models that library over an abstract movie scene:

- scene-level tracks;
- object bindings `(guid, tracks)`;
- spawnables `(guid, actor template)`.

Each track has a class tag, the tick resolution of its movie scene, and sections
whose end frame may be absent. The model proves what each operation returns, what
it leaves unchanged, and how the operations fit together.

Modules, in dependency order:

- `Wrappers`: `Option`.
- `Sequences`: a generic `ConcatMap` over sequences, with its append lemmas.
- `HostScene`: the engine objects the library reads, as values. It also has the
  movie scene's guid lookups of bindings and spawnables.
- `WaspTypes`: the time-mode enumeration and the table row record, with its
  default and three-argument constructors.
- `TimePlacement`: the start-time `switch`.
- `TrackSearch`: `GetAllTracksOfType`. Its two loops are methods that extend the
  caller's list. They are proved against the filter function `TracksOfType`.
- `SectionEndTime`: `GetLastSectionEndTime`, a running-maximum scan. Its loops are
  methods proved against `LastSectionEndTime`.
- `SpawnableSearch`: the compatibility predicates and the two first-match
  searches, as recursive functions.
- `LevelSequenceInjection`: the two section injectors and the row driver.
  - The driver's loops are methods proved against `RowStep` and `RunRows`.
  - The engine's insertion of a section is an effect, `insert`, supplied by the
    caller. It is applied to the movie scene only when an injector's guards allow
    the insertion.

## Model

| member | source | states |
|---|---|---|
| HostScene.FindBinding | Plugins/WASP/Source/WaspRuntime/Private/WaspRuntimeUtilityLibrary.cpp:283 | A found binding is one of the scene's bindings and carries the guid asked for; none found means no binding carries it |
| HostScene.FindSpawnable | Plugins/WASP/Source/WaspRuntime/Private/WaspRuntimeUtilityLibrary.cpp:306 | A found spawnable is one of the scene's spawnables and carries the guid asked for; none found means no spawnable carries it |
| WaspTypes.TimeModeToByte | Plugins/WASP/Source/WaspRuntime/Public/WaspRuntimeUtilityLibrary.h:18-24 | The 8-bit enumeration value follows declaration order: Precise is 0, LastAnimationOffset 1, Blend 2 |
| WaspTypes.TimeModeFromByte | Plugins/WASP/Source/WaspRuntime/Public/WaspRuntimeUtilityLibrary.h:18-24 | An 8-bit value names a time mode exactly when it is below 3: 0 is Precise, 1 LastAnimationOffset, 2 Blend |
| WaspTypes.TimeModeByteRoundTrip | Plugins/WASP/Source/WaspRuntime/Public/WaspRuntimeUtilityLibrary.h:18-24 | Reading back a time mode's value gives the same mode |
| WaspTypes.TimeModeCases | Plugins/WASP/Source/WaspRuntime/Public/WaspRuntimeUtilityLibrary.h:19-24 | A time mode is exactly one of Precise, LastAnimationOffset and Blend |
| WaspTypes.DefaultParams | Plugins/WASP/Source/WaspRuntime/Public/WaspRuntimeUtilityLibrary.h:31-55 | A default row has TimeMode Precise, Time, StartOffset and EndTrim 0.0, bBlend false, and no animation (and no audio) |
| WaspTypes.MakeParams | Plugins/WASP/Source/WaspRuntime/Public/WaspRuntimeUtilityLibrary.h:56-57 | The three-argument row copies animation, time mode and time, and has zero offset and trim, no blend |
| WaspTypes.DefaultIsMakeParams | Plugins/WASP/Source/WaspRuntime/Public/WaspRuntimeUtilityLibrary.h:31-57 | The default row is the three-argument row with no animation, Precise mode and time 0 |
| TimePlacement.Abs | Plugins/WASP/Source/WaspRuntime/Private/WaspRuntimeUtilityLibrary.cpp:44-45 | The trim amounts are non-negative and equal the offset or its negation |
| TimePlacement.StartTime | Plugins/WASP/Source/WaspRuntime/Private/WaspRuntimeUtilityLibrary.cpp:46-57 | Precise starts no later than Time; LastAnimationOffset starts no earlier than the last end less the offset; Blend no later |
| TimePlacement.PreciseIgnoresLastEnd | Plugins/WASP/Source/WaspRuntime/Private/WaspRuntimeUtilityLibrary.cpp:48-49 | In Precise mode the start does not depend on the last section end, and start plus the offset's size is Time |
| TimePlacement.PreciseMayBeNegative | Plugins/WASP/Source/WaspRuntime/Private/WaspRuntimeUtilityLibrary.cpp:48-49 | Precise mode can place a clip before time zero |
| TimePlacement.RelativeModesShift | Plugins/WASP/Source/WaspRuntime/Private/WaspRuntimeUtilityLibrary.cpp:51-56 | In both relative modes, moving the last section end by d moves the start by exactly d |
| TimePlacement.RelativeModesMirror | Plugins/WASP/Source/WaspRuntime/Private/WaspRuntimeUtilityLibrary.cpp:51-56 | LastAnimationOffset and Blend lie symmetrically around the last end less the offset, 2·abs(Time) apart |
| TimePlacement.SignsIgnored | Plugins/WASP/Source/WaspRuntime/Private/WaspRuntimeUtilityLibrary.cpp:44-56 | The sign of StartOffset never matters; the sign of Time matters only in Precise mode |
| TimePlacement.WorkedPlacements | Plugins/WASP/Source/WaspRuntime/Private/WaspRuntimeUtilityLibrary.cpp:47-57 | Three concrete placements, one per mode |
| TrackSearch.TracksOfKind | Plugins/WASP/Source/WaspRuntime/Private/WaspRuntimeUtilityLibrary.cpp:192-198 | The filter never yields more tracks than it was given |
| TrackSearch.TracksOfType | Plugins/WASP/Source/WaspRuntime/Private/WaspRuntimeUtilityLibrary.cpp:184-187 | A search over a null movie scene yields nothing |
| TrackSearch.AppendTracksOfKind | Plugins/WASP/Source/WaspRuntime/Private/WaspRuntimeUtilityLibrary.cpp:192-198 | The track loop appends to the list exactly the tracks of the class asked for, in order |
| TrackSearch.AppendBindingTracksOfKind | Plugins/WASP/Source/WaspRuntime/Private/WaspRuntimeUtilityLibrary.cpp:204-221 | The binding loop appends, binding after binding, the class's tracks of every selected binding |
| TrackSearch.GetAllTracksOfType | Plugins/WASP/Source/WaspRuntime/Private/WaspRuntimeUtilityLibrary.cpp:182-223 | The result is the old list followed by what the search finds; the old contents are kept and every new track has the class asked for |
| TrackSearch.TracksOfKindMembers | Plugins/WASP/Source/WaspRuntime/Private/WaspRuntimeUtilityLibrary.cpp:194-197 | A track is kept if and only if it was in the input and has the class asked for |
| TrackSearch.TracksOfKindAppend | Plugins/WASP/Source/WaspRuntime/Private/WaspRuntimeUtilityLibrary.cpp:192-198 | Filtering a concatenation is concatenating the filtered parts, so input order is kept |
| TrackSearch.BindingSelected | Plugins/WASP/Source/WaspRuntime/Private/WaspRuntimeUtilityLibrary.cpp:206-212 | Reference definition: a binding takes part unless the search names a valid guid and the binding carries another; ValidGuidRestricts states its effect |
| TrackSearch.BindingTracksOfKind | Plugins/WASP/Source/WaspRuntime/Private/WaspRuntimeUtilityLibrary.cpp:204-221 | Reference definition of the binding pass: the class tracks of every selected binding, binding after binding; its meaning is stated by BindingTracksMembers, BindingTracksAppend and ValidGuidRestricts |
| TrackSearch.BindingTracksMembers | Plugins/WASP/Source/WaspRuntime/Private/WaspRuntimeUtilityLibrary.cpp:204-221 | A track comes from the binding pass if and only if it has the class and sits on a selected binding |
| TrackSearch.BindingTracksSnoc | Plugins/WASP/Source/WaspRuntime/Private/WaspRuntimeUtilityLibrary.cpp:204-221 | One more binding adds its class tracks at the end if it is selected, and nothing otherwise |
| TrackSearch.BindingTracksAppend | Plugins/WASP/Source/WaspRuntime/Private/WaspRuntimeUtilityLibrary.cpp:204-221 | Bindings contribute in binding order: searching a concatenation concatenates the searches |
| TrackSearch.ValidGuidRestricts | Plugins/WASP/Source/WaspRuntime/Private/WaspRuntimeUtilityLibrary.cpp:206-212 | With a valid guid, only the bindings with that guid contribute, exactly as an unrestricted search over them would |
| TrackSearch.TracksOfTypeMembers | Plugins/WASP/Source/WaspRuntime/Private/WaspRuntimeUtilityLibrary.cpp:189-222 | A track is found if and only if it has the class and is a scene track (when that pass is on) or a selected binding's track (when that pass is on) |
| TrackSearch.TracksOfTypeEmpty | Plugins/WASP/Source/WaspRuntime/Private/WaspRuntimeUtilityLibrary.cpp:184-222 | A search yields nothing if and only if neither visited pass holds a track of the class |
| TrackSearch.SceneTracksFirst | Plugins/WASP/Source/WaspRuntime/Private/WaspRuntimeUtilityLibrary.cpp:189-222 | The scene-level tracks come first, ahead of every binding track |
| TrackSearch.TracksOfTypeKind | Plugins/WASP/Source/WaspRuntime/Private/WaspRuntimeUtilityLibrary.cpp:194-219 | Every track a search yields has the class asked for |
| SectionEndTime.Max | Plugins/WASP/Source/WaspRuntime/Private/WaspRuntimeUtilityLibrary.cpp:270 | The maximum is at least both arguments and is one of them |
| SectionEndTime.SectionEndTimes | Plugins/WASP/Source/WaspRuntime/Private/WaspRuntimeUtilityLibrary.cpp:265-272 | A track yields at most one end time per section |
| SectionEndTime.TrackEndTimes | Plugins/WASP/Source/WaspRuntime/Private/WaspRuntimeUtilityLibrary.cpp:243-272 | Reference definition: the end times of every track's bounded sections, track after track, at the adopted rate; its meaning is stated by TrackEndTimesMembers and TrackEndTimesIgnoreOwnRates |
| SectionEndTime.MaxOrZero | Plugins/WASP/Source/WaspRuntime/Private/WaspRuntimeUtilityLibrary.cpp:227-270 | A running maximum that starts from 0 is never negative |
| SectionEndTime.ScanLastEnd | Plugins/WASP/Source/WaspRuntime/Private/WaspRuntimeUtilityLibrary.cpp:243-275 | The scan over the collected tracks is never negative |
| SectionEndTime.LastSectionEndTime | Plugins/WASP/Source/WaspRuntime/Private/WaspRuntimeUtilityLibrary.cpp:225-276 | The last section end time is never negative and is 0 for a null movie scene |
| SectionEndTime.MaxOrZeroSnoc | Plugins/WASP/Source/WaspRuntime/Private/WaspRuntimeUtilityLibrary.cpp:270 | Folding in one more value is taking the larger of it and the maximum so far |
| SectionEndTime.ScanSections | Plugins/WASP/Source/WaspRuntime/Private/WaspRuntimeUtilityLibrary.cpp:265-272 | The section loop extends the running maximum by the end times of the track's bounded sections |
| SectionEndTime.GetLastSectionEndTime | Plugins/WASP/Source/WaspRuntime/Private/WaspRuntimeUtilityLibrary.cpp:225-276 | The method returns LastSectionEndTime for its inputs, which is never negative |
| HostScene.FrameToSeconds | Plugins/WASP/Source/WaspRuntime/Private/WaspRuntimeUtilityLibrary.cpp:269-269 | A frame divided by the rate: the seconds times the numerator equal the frame times the denominator, and the seconds are non-negative exactly when the frame is |
| SectionEndTime.EndTimeSearch | Plugins/WASP/Source/WaspRuntime/Private/WaspRuntimeUtilityLibrary.cpp:236-238 | The scan's search keeps the class, movie scene and flags, and its unset guid selects every binding |
| SectionEndTime.ScanTracks | Plugins/WASP/Source/WaspRuntime/Private/WaspRuntimeUtilityLibrary.cpp:243-275 | The track loop adopts the first track's rate, returns 0 on an invalid one, and otherwise yields the maximum over all tracks |
| SectionEndTime.MaxOrZeroBounds | Plugins/WASP/Source/WaspRuntime/Private/WaspRuntimeUtilityLibrary.cpp:270 | The running maximum is at least every value scanned |
| SectionEndTime.MaxOrZeroAttained | Plugins/WASP/Source/WaspRuntime/Private/WaspRuntimeUtilityLibrary.cpp:227-270 | The running maximum is 0 or one of the values scanned |
| SectionEndTime.SectionEndTimesMembers | Plugins/WASP/Source/WaspRuntime/Private/WaspRuntimeUtilityLibrary.cpp:267-269 | A time is scanned if and only if it is the end, in seconds, of a section that has an end frame |
| SectionEndTime.TrackEndTimesMembers | Plugins/WASP/Source/WaspRuntime/Private/WaspRuntimeUtilityLibrary.cpp:243-272 | A time is scanned if and only if it is the end of a bounded section of one of the tracks |
| SectionEndTime.ScanLastEndIsMax | Plugins/WASP/Source/WaspRuntime/Private/WaspRuntimeUtilityLibrary.cpp:243-275 | With a valid first rate the result is at least every bounded section's end, and is that largest end or 0 |
| SectionEndTime.SectionEndTimesAppend | Plugins/WASP/Source/WaspRuntime/Private/WaspRuntimeUtilityLibrary.cpp:265-272 | Sections are scanned in order: the end times of a concatenation concatenate |
| SectionEndTime.OpenSectionIgnored | Plugins/WASP/Source/WaspRuntime/Private/WaspRuntimeUtilityLibrary.cpp:267 | A section with no end frame contributes nothing, wherever it stands |
| SectionEndTime.TrackEndTimesIgnoreOwnRates | Plugins/WASP/Source/WaspRuntime/Private/WaspRuntimeUtilityLibrary.cpp:246-269 | The end times depend on the adopted rate only, not on the tracks' own rates |
| SectionEndTime.LaterRatesIgnored | Plugins/WASP/Source/WaspRuntime/Private/WaspRuntimeUtilityLibrary.cpp:246-255 | A later track with another or an invalid rate does not change the result |
| SectionEndTime.InvalidFirstRateGivesZero | Plugins/WASP/Source/WaspRuntime/Private/WaspRuntimeUtilityLibrary.cpp:252-262 | An invalid first rate makes the result 0 |
| SpawnableSearch.TemplateSkeleton | Plugins/WASP/Source/WaspRuntime/Private/WaspRuntimeUtilityLibrary.cpp:330-336 | A skeleton is reached if and only if every link of actor, component, mesh and skeleton is present, and it is the mesh's skeleton |
| SpawnableSearch.IsCompatibleWithSkeleton | Plugins/WASP/Source/WaspRuntime/Private/WaspRuntimeUtilityLibrary.cpp:326-350 | Compatible only with a non-null skeleton whose export name equals that of the skeleton at the end of the template's full chain |
| SpawnableSearch.IsCompatibleWithAnimation | Plugins/WASP/Source/WaspRuntime/Private/WaspRuntimeUtilityLibrary.cpp:317-324 | Compatible only with a non-null animation whose skeleton is non-null, and a template whose chain reaches a skeleton |
| SpawnableSearch.CompatibilityCharacterised | Plugins/WASP/Source/WaspRuntime/Private/WaspRuntimeUtilityLibrary.cpp:326-350 | Incompatible on a null skeleton or any missing link; otherwise compatible if and only if the export names are equal |
| SpawnableSearch.AnimationCompatibilityBySkeleton | Plugins/WASP/Source/WaspRuntime/Private/WaspRuntimeUtilityLibrary.cpp:317-324 | A null animation is compatible with nothing; otherwise compatibility is compatibility with its skeleton |
| SpawnableSearch.CompatibleWithOneName | Plugins/WASP/Source/WaspRuntime/Private/WaspRuntimeUtilityLibrary.cpp:338-342 | A spawnable is compatible with skeletons of one export name only |
| SpawnableSearch.BindingMatches | Plugins/WASP/Source/WaspRuntime/Private/WaspRuntimeUtilityLibrary.cpp:306-308 | A binding matches only when some spawnable of the scene carries its guid and is compatible with the animation |
| SpawnableSearch.FindCompatibleFrom | Plugins/WASP/Source/WaspRuntime/Private/WaspRuntimeUtilityLibrary.cpp:304-314 | From binding k on, the search returns the spawnable of the first matching binding, or null when none matches |
| SpawnableSearch.FindCompatibleSpawnableForAnimation | Plugins/WASP/Source/WaspRuntime/Private/WaspRuntimeUtilityLibrary.cpp:302-315 | The result is a compatible spawnable of the scene, resolved from the first matching binding; null if and only if no binding matches |
| SpawnableSearch.NullAnimationFindsNothing | Plugins/WASP/Source/WaspRuntime/Private/WaspRuntimeUtilityLibrary.cpp:319-323 | A null animation finds no spawnable |
| SpawnableSearch.FirstSkeletalTrack | Plugins/WASP/Source/WaspRuntime/Private/WaspRuntimeUtilityLibrary.cpp:285-292 | The first skeletal animation track in track order, or none if and only if there is none |
| SpawnableSearch.FindOrCreateAnimationTrackForSpawnable | Plugins/WASP/Source/WaspRuntime/Private/WaspRuntimeUtilityLibrary.cpp:278-300 | The first skeletal track, in track order, of the binding with the spawnable's guid; null exactly when there is no such binding or it has no skeletal track; nothing is created |
| SpawnableSearch.FoundTrackExists | Plugins/WASP/Source/WaspRuntime/Private/WaspRuntimeUtilityLibrary.cpp:283-299 | A track that is returned was already on a binding with the spawnable's guid |
| LevelSequenceInjection.AddAudioToTrack | Plugins/WASP/Source/WaspRuntime/Private/WaspRuntimeUtilityLibrary.cpp:122-150 | Inserts (returns true) if and only if the track is an audio track and the data is a sound |
| LevelSequenceInjection.AddAnimationToTrack | Plugins/WASP/Source/WaspRuntime/Private/WaspRuntimeUtilityLibrary.cpp:152-180 | Inserts (returns true) if and only if the track is a skeletal animation track and the data is an animation |
| LevelSequenceInjection.ChannelTrackKind | Plugins/WASP/Source/WaspRuntime/Private/WaspRuntimeUtilityLibrary.cpp:65-65 | The audio channel searches audio tracks and the animation channel skeletal animation tracks (the `StaticClass()` choice, also at line 94) |
| LevelSequenceInjection.ChannelTrack | Plugins/WASP/Source/WaspRuntime/Private/WaspRuntimeUtilityLibrary.cpp:63-74 | The chosen track has the channel's class and is a scene-level track (scene pass on) or a track of a selected binding (binding pass on); no track is chosen if and only if no visited collection holds a track of the class |
| LevelSequenceInjection.ChannelTrackFromGuidBindings | Plugins/WASP/Source/WaspRuntime/Private/WaspRuntimeUtilityLibrary.cpp:66-74 | With only the binding pass on and the spawnable's valid guid, the chosen track is the first track of the class on the bindings carrying that guid, in binding order, and none exactly when they hold none |
| LevelSequenceInjection.ChannelTrackPrefersSceneTracks | Plugins/WASP/Source/WaspRuntime/Private/WaspRuntimeUtilityLibrary.cpp:189-198 | With the scene pass on and a scene-level track of the class present, the first such scene-level track is chosen, ahead of any binding track |
| LevelSequenceInjection.InjectStep | Plugins/WASP/Source/WaspRuntime/Private/WaspRuntimeUtilityLibrary.cpp:59-115 | One injection block makes one injection of its channel, carrying its data, row index 0, the given time and trims; the track it hands over is `ChannelTrack`'s first find for the guid; it inserts exactly when that track exists and the data suits the channel; the scene afterwards is `insert` applied to the injection when it inserted and unchanged otherwise |
| LevelSequenceInjection.PlacedRowStep | Plugins/WASP/Source/WaspRuntime/Private/WaspRuntimeUtilityLibrary.cpp:43-115 | Once the spawnable is found, a row makes one injection for its audio if any plus one for its animation if any |
| LevelSequenceInjection.RowStep | Plugins/WASP/Source/WaspRuntime/Private/WaspRuntimeUtilityLibrary.cpp:37-116 | A row makes at most two injections; CompatibleRowShape and IncompatibleRowSkipped state which |
| LevelSequenceInjection.RunRows | Plugins/WASP/Source/WaspRuntime/Private/WaspRuntimeUtilityLibrary.cpp:35-117 | Reference definition of the row loop: rows in table order, each on the scene the previous row left; RunRowsAppend and RunRowsWellFormed state its properties |
| LevelSequenceInjection.InjectSection | Plugins/WASP/Source/WaspRuntime/Private/WaspRuntimeUtilityLibrary.cpp:59-115 | One injection block: its parameters (including the track the search finds), its injector's answer and the scene afterwards are those of InjectStep |
| LevelSequenceInjection.AddRow | Plugins/WASP/Source/WaspRuntime/Private/WaspRuntimeUtilityLibrary.cpp:37-116 | The loop body's injections and scene afterwards are those of RowStep, so CompatibleRowShape and CompatibleRowTracks give each injection's track and the scene the insertions leave |
| LevelSequenceInjection.AddDataToLevelSequence | Plugins/WASP/Source/WaspRuntime/Private/WaspRuntimeUtilityLibrary.cpp:14-120 | Fails, injecting nothing and changing nothing, exactly when the sequence, table or movie scene is null; otherwise succeeds with the injections and final scene of all rows in table order, each row as RowStep states it (tracks and insertions by CompatibleRowTracks) |
| LevelSequenceInjection.IncompatibleRowSkipped | Plugins/WASP/Source/WaspRuntime/Private/WaspRuntimeUtilityLibrary.cpp:38-116 | A row with no compatible spawnable injects nothing and leaves the scene unchanged |
| LevelSequenceInjection.DefaultRowSkipped | Plugins/WASP/Source/WaspRuntime/Private/WaspRuntimeUtilityLibrary.cpp:38 | A default-constructed row is always skipped |
| LevelSequenceInjection.CompatibleRowShape | Plugins/WASP/Source/WaspRuntime/Private/WaspRuntimeUtilityLibrary.cpp:41-115 | A compatible row injects audio first when it has audio, then its animation; every injection gets the resolved start time, row index 0, and trims of abs(StartOffset) and abs(EndTrim) |
| LevelSequenceInjection.CompatibleRowTracks | Plugins/WASP/Source/WaspRuntime/Private/WaspRuntimeUtilityLibrary.cpp:59-115 | A compatible row hands its audio injection the first audio track the search for the spawnable's guid finds in the scene it started from, and its animation injection the first skeletal animation track found in the scene the audio insertion left; the scene afterwards is the animation insertion applied to that scene, or that scene when nothing was inserted |
| LevelSequenceInjection.PlacedRowTracks | Plugins/WASP/Source/WaspRuntime/Private/WaspRuntimeUtilityLibrary.cpp:59-115 | The same once the spawnable's guid and the last section end time are known |
| LevelSequenceInjection.InjectStepWellFormed | Plugins/WASP/Source/WaspRuntime/Private/WaspRuntimeUtilityLibrary.cpp:63-84 | One block makes one injection, with row index 0 and non-negative trims, that inserts if and only if a track was found |
| LevelSequenceInjection.RowStepWellFormed | Plugins/WASP/Source/WaspRuntime/Private/WaspRuntimeUtilityLibrary.cpp:38-116 | A row makes at most two injections, each well formed in that sense |
| LevelSequenceInjection.PlacedRowStepWellFormed | Plugins/WASP/Source/WaspRuntime/Private/WaspRuntimeUtilityLibrary.cpp:43-115 | Once the spawnable is known, the row makes at most two injections, each well formed |
| LevelSequenceInjection.RunRowsBounded | Plugins/WASP/Source/WaspRuntime/Private/WaspRuntimeUtilityLibrary.cpp:35-117 | A row step bounded per row bounds the whole table: at most two injections per row, each satisfying the same property |
| LevelSequenceInjection.RunRowsWellFormed | Plugins/WASP/Source/WaspRuntime/Private/WaspRuntimeUtilityLibrary.cpp:35-117 | A table makes at most two injections per row, each well formed |
| LevelSequenceInjection.RunRowsAppend | Plugins/WASP/Source/WaspRuntime/Private/WaspRuntimeUtilityLibrary.cpp:35-117 | Rows run strictly in order: a table a + b runs a, then runs b on the scene a left |
| LevelSequenceInjection.ThreeArgumentPreciseRow | Plugins/WASP/Source/WaspRuntime/Private/WaspRuntimeUtilityLibrary.cpp:44-49 | A compatible three-argument Precise row makes one animation injection exactly at its Time, untrimmed |

## Left out

- `WaspRuntimeModule.cpp` holds only empty start-up and shut-down hooks and the module registration. It has no behaviour to model.
- Engine mutation calls: `Modify`, `AddNewSound`, `AddNewAnimation`, `TrimSection`, `SetRowIndex` and `UpdateEasing`. They are foreign calls. Together they are the `insert` effect parameter, applied only when an injector's guards pass.
- LevelSequenceInjection.AddAudioToTrack: returns only the guards' verdict. The inserted section, its trimmed frame range and its easing are not modelled.
- LevelSequenceInjection.AddAnimationToTrack: returns only the guards' verdict, as for audio.
- LevelSequenceInjection.InsertEffect: the injector is handed a pointer to one track object (lines 79 and 108), but the model hands the track over by value. Two value-equal tracks, on different bindings or one at scene level, are the same to `insert`, so the model does not capture which object's section list grows.
- The `FSectionInjectParams` frame conversions (`GetTimeAsFrameNumber`, `GetStartTrimFrameTime`, `GetEndTrimFrameTime`) are not part of this model. The struct is declared in a header revision other than the modelled one, so no trim-boundary arithmetic is invented. The injection parameters keep the times in seconds.
- `FTrackSearchParams`: its declaration and flag defaults are not modelled. It is declared in a header revision other than the modelled one, with search-flag defaults this model does not assume, so the two flags are a parameter, `SearchFlags`, of every search. The guid defaults to the invalid guid where the source leaves it unset.
- Header functions with no definition in the library source are not modelled: `AddAnimationsToLevelSequence`, `FindFirstSkeletonTrackInLevelSequence`, `FindFirstSkeletonTrackInTrackList`, `AddAnimationToSkeletonTrack` and `AddAnimationsToSkeletonTrack`.
- Logging (`UE_LOG`) and the side effects of `ensure` are not modelled. `ensure` is read as its boolean test.
- `FAssetData(...).GetExportTextName()` is an opaque per-skeleton name, `Skeleton.exportName`.
- Floating point: times are reals and frame numbers are integers. A frame's time in seconds is an exact rational, not a rounded double.
- `GetAllRows` is not modelled: the table's rows are given as a sequence. A null table is `None`.
- TrackSearch.GetAllTracksOfType: `IsA` is modelled on a closed set of track classes compared by tag. Subclasses of the audio or skeletal animation track classes are not distinguished.
- Frame-rate validity: a rate is taken to be valid when the numerator and denominator are both positive. The engine's own validity test belongs to the engine, outside this library.
- SectionEndTime.GetLastSectionEndTime: `ensure` on a later track's mismatched or invalid rate only reports. The scan goes on at the adopted rate. The model follows the code in this, so a mismatch is not treated as fatal. The rate of a track is the tick resolution of the movie scene that owns it, carried on each track.
- The `check` after the cast of the first found track (lines 73 and 102) is not modelled as a failure. The search only yields tracks of the requested class (`TrackSearch.TracksOfTypeKind`), so the cast cannot fail.
- The row's `bBlend` field is carried but never read, as in the driver.
- The row's `Audio` field is read by the driver (lines 60 and 78) but not declared in the modelled header revision. It is modelled as an optional sound that defaults to none.
- WaspTypes.TimeModeFromByte: the time-mode switch has no default case, so a stored value from 3 to 255 would leave the start time at its initial 0. `TimeMode` holds only the three declared values, so the model cannot express that case; `TimeModeFromByte` maps such values to `None`.
