/**
 * GetLastSectionEndTime: the latest end, in seconds, of any bounded section on
 * the tracks of one class, measured at the frame rate of the first track
 * scanned, and never below 0.
 */
module SectionEndTime {
  import opened Wrappers
  import opened HostScene
  import opened TrackSearch

  /** The frame rate the scan starts from, which is not valid. */
  const UnsetFrameRate := FrameRate(-1, -1)

  /** The larger of two reals (the engine's FMath::Max). */
  function Max(a: real, b: real): (r: real)
    ensures r >= a && r >= b
    ensures r == a || r == b
  {
    if a >= b then a else b
  }

  /** End times in seconds of the sections that have an end frame, in section order. */
  function SectionEndTimes(sections: seq<Section>, rate: FrameRate): (r: seq<real>)
    requires rate.IsValid()
    ensures |r| <= |sections|
  {
    if |sections| == 0 then []
    else
      var last := sections[|sections| - 1];
      SectionEndTimes(sections[..|sections| - 1], rate)
        + (if last.HasEndFrame() then [FrameToSeconds(last.upperBound.value, rate)] else [])
  }

  /** End times of all bounded sections of all tracks, track after track, at one rate. */
  function TrackEndTimes(tracks: seq<Track>, rate: FrameRate): seq<real>
    requires rate.IsValid()
  {
    if |tracks| == 0 then []
    else TrackEndTimes(tracks[..|tracks| - 1], rate) + SectionEndTimes(tracks[|tracks| - 1].sections, rate)
  }

  /** The running maximum of `xs`, starting from 0. */
  function MaxOrZero(xs: seq<real>): (r: real)
    ensures r >= 0.0
  {
    if |xs| == 0 then 0.0 else Max(MaxOrZero(xs[..|xs| - 1]), xs[|xs| - 1])
  }

  /** The scan over an already-collected track list: the first track's rate decides, and an invalid one gives 0. */
  function ScanLastEnd(tracks: seq<Track>): (r: real)
    ensures r >= 0.0
  {
    if |tracks| == 0 || !tracks[0].tickResolution.IsValid() then 0.0
    else MaxOrZero(TrackEndTimes(tracks, tracks[0].tickResolution))
  }

  /** The search the scan runs: tracks of `trackType`, every binding (no guid), the given flags. */
  function EndTimeSearch(trackType: TrackKind, movieScene: Option<MovieScene>, flags: SearchFlags): (r: TrackSearchParams)
    ensures r.trackType == trackType && r.movieScene == movieScene && r.flags == flags
    ensures forall b: Binding :: BindingSelected(b, r.spawnableGuid)
  {
    TrackSearchParams(trackType, InvalidGuid, movieScene, flags)
  }

  /** What GetLastSectionEndTime returns; a null movie scene gives 0. */
  function LastSectionEndTime(trackType: TrackKind, movieScene: Option<MovieScene>, flags: SearchFlags): (r: real)
    ensures r >= 0.0
    ensures movieScene.None? ==> r == 0.0
  {
    if movieScene.None? then 0.0
    else ScanLastEnd(TracksOfType(EndTimeSearch(trackType, movieScene, flags)))
  }

  lemma MaxOrZeroSnoc(xs: seq<real>, x: real)
    ensures MaxOrZero(xs + [x]) == Max(MaxOrZero(xs), x)
  {
    assert (xs + [x])[..|xs|] == xs;
  }

  /** The section loop: folds the bounded sections of one track into the running maximum over `done`. */
  method ScanSections(sections: seq<Section>, frameRate: FrameRate, ghost done: seq<real>, current: real)
    returns (lastSectionEndTime: real)
    requires frameRate.IsValid()
    requires current == MaxOrZero(done)
    ensures lastSectionEndTime == MaxOrZero(done + SectionEndTimes(sections, frameRate))
  {
    lastSectionEndTime := current;
    var j := 0;
    assert done + SectionEndTimes(sections[..0], frameRate) == done;
    while j < |sections|
      invariant 0 <= j <= |sections|
      invariant lastSectionEndTime == MaxOrZero(done + SectionEndTimes(sections[..j], frameRate))
    {
      assert sections[..j + 1][..j] == sections[..j];
      assert sections[..j + 1][j] == sections[j];
      ghost var scanned := done + SectionEndTimes(sections[..j], frameRate);
      if sections[j].HasEndFrame() {
        var sectionEndTime := FrameToSeconds(sections[j].upperBound.value, frameRate);
        assert SectionEndTimes(sections[..j + 1], frameRate) == SectionEndTimes(sections[..j], frameRate) + [sectionEndTime];
        assert done + SectionEndTimes(sections[..j + 1], frameRate) == scanned + [sectionEndTime];
        MaxOrZeroSnoc(scanned, sectionEndTime);
        lastSectionEndTime := Max(lastSectionEndTime, sectionEndTime);
      } else {
        assert SectionEndTimes(sections[..j + 1], frameRate) == SectionEndTimes(sections[..j], frameRate);
      }
      j := j + 1;
    }
    assert sections[..j] == sections;
  }

  method GetLastSectionEndTime(trackType: TrackKind, movieScene: Option<MovieScene>, flags: SearchFlags)
    returns (lastSectionEndTime: real)
    ensures lastSectionEndTime == LastSectionEndTime(trackType, movieScene, flags)
    ensures lastSectionEndTime >= 0.0
  {
    if movieScene.None? {
      return 0.0;
    }
    var tracks := GetAllTracksOfType(EndTimeSearch(trackType, movieScene, flags), []);
    lastSectionEndTime := ScanTracks(tracks);
  }

  /**
   * The track loop of the end-time scan: the first track's rate is adopted, an
   * invalid one ends the scan with 0, and every bounded section is folded into the maximum.
   */
  method ScanTracks(tracks: seq<Track>) returns (lastSectionEndTime: real)
    ensures lastSectionEndTime == ScanLastEnd(tracks)
  {
    lastSectionEndTime := 0.0;
    var frameRate := UnsetFrameRate;
    var i := 0;
    while i < |tracks|
      invariant 0 <= i <= |tracks|
      invariant i == 0 ==> lastSectionEndTime == 0.0 && frameRate == UnsetFrameRate
      invariant i > 0 ==> frameRate == tracks[0].tickResolution && frameRate.IsValid()
      invariant i > 0 ==> lastSectionEndTime == MaxOrZero(TrackEndTimes(tracks[..i], frameRate))
    {
      var sectionFrameRate := tracks[i].tickResolution;
      if !frameRate.IsValid() {
        frameRate := sectionFrameRate;
      }
      // A later track with another rate is only reported by the engine; the scan goes on.
      if !frameRate.IsValid() {
        return 0.0;
      }
      assert tracks[..i + 1][..i] == tracks[..i];
      lastSectionEndTime := ScanSections(tracks[i].sections, frameRate, TrackEndTimes(tracks[..i], frameRate), lastSectionEndTime);
      i := i + 1;
    }
    if i > 0 {
      assert tracks[..i] == tracks;
    }
  }

  /** The scan's result bounds every value scanned. */
  lemma {:induction false} MaxOrZeroBounds(xs: seq<real>)
    ensures forall k :: 0 <= k < |xs| ==> xs[k] <= MaxOrZero(xs)
  {
    if |xs| > 0 {
      var n := |xs| - 1;
      MaxOrZeroBounds(xs[..n]);
      forall k | 0 <= k < |xs| ensures xs[k] <= MaxOrZero(xs) {
        if k < n {
          assert xs[..n][k] == xs[k];
        }
      }
    }
  }

  /** The scan's result is 0 or one of the values scanned. */
  lemma {:induction false} MaxOrZeroAttained(xs: seq<real>)
    ensures MaxOrZero(xs) == 0.0 || exists k :: 0 <= k < |xs| && xs[k] == MaxOrZero(xs)
  {
    if |xs| > 0 {
      var n := |xs| - 1;
      MaxOrZeroAttained(xs[..n]);
      if MaxOrZero(xs) != xs[n] && MaxOrZero(xs[..n]) != 0.0 {
        var k :| 0 <= k < n && xs[..n][k] == MaxOrZero(xs[..n]);
        assert xs[k] == MaxOrZero(xs);
      }
    }
  }

  /** A value is a section end time exactly when some bounded section ends there. */
  lemma {:induction false} SectionEndTimesMembers(sections: seq<Section>, rate: FrameRate, x: real)
    requires rate.IsValid()
    ensures x in SectionEndTimes(sections, rate)
        <==> exists j :: 0 <= j < |sections| && sections[j].HasEndFrame() && x == FrameToSeconds(sections[j].upperBound.value, rate)
  {
    if |sections| > 0 {
      var n := |sections| - 1;
      SectionEndTimesMembers(sections[..n], rate, x);
      if exists j :: 0 <= j < |sections| && sections[j].HasEndFrame() && x == FrameToSeconds(sections[j].upperBound.value, rate) {
        var j :| 0 <= j < |sections| && sections[j].HasEndFrame() && x == FrameToSeconds(sections[j].upperBound.value, rate);
        if j < n {
          assert sections[..n][j] == sections[j];
        }
      }
      if x in SectionEndTimes(sections[..n], rate) {
        var j :| 0 <= j < n && sections[..n][j].HasEndFrame() && x == FrameToSeconds(sections[..n][j].upperBound.value, rate);
        assert sections[j] == sections[..n][j];
      }
    }
  }

  /** A value is scanned exactly when some bounded section of some track ends there. */
  lemma {:induction false} TrackEndTimesMembers(tracks: seq<Track>, rate: FrameRate, x: real)
    requires rate.IsValid()
    ensures x in TrackEndTimes(tracks, rate)
        <==> exists i, j :: 0 <= i < |tracks| && 0 <= j < |tracks[i].sections|
                            && tracks[i].sections[j].HasEndFrame()
                            && x == FrameToSeconds(tracks[i].sections[j].upperBound.value, rate)
  {
    if |tracks| > 0 {
      var n := |tracks| - 1;
      TrackEndTimesMembers(tracks[..n], rate, x);
      SectionEndTimesMembers(tracks[n].sections, rate, x);
      if exists i, j :: 0 <= i < |tracks| && 0 <= j < |tracks[i].sections|
                        && tracks[i].sections[j].HasEndFrame()
                        && x == FrameToSeconds(tracks[i].sections[j].upperBound.value, rate) {
        var i, j :| 0 <= i < |tracks| && 0 <= j < |tracks[i].sections|
                    && tracks[i].sections[j].HasEndFrame()
                    && x == FrameToSeconds(tracks[i].sections[j].upperBound.value, rate);
        if i < n {
          assert tracks[..n][i] == tracks[i];
        }
      }
      if x in TrackEndTimes(tracks[..n], rate) {
        var i, j :| 0 <= i < n && 0 <= j < |tracks[..n][i].sections|
                    && tracks[..n][i].sections[j].HasEndFrame()
                    && x == FrameToSeconds(tracks[..n][i].sections[j].upperBound.value, rate);
        assert tracks[i] == tracks[..n][i];
      }
    }
  }

  /**
   * With a valid first rate, the scan returns the largest end time of any bounded
   * section of any track at that rate, or 0 when there is none (or all are negative).
   */
  lemma ScanLastEndIsMax(tracks: seq<Track>)
    requires |tracks| > 0 && tracks[0].tickResolution.IsValid()
    ensures var rate := tracks[0].tickResolution;
            forall i, j :: 0 <= i < |tracks| && 0 <= j < |tracks[i].sections| && tracks[i].sections[j].HasEndFrame()
              ==> FrameToSeconds(tracks[i].sections[j].upperBound.value, rate) <= ScanLastEnd(tracks)
    ensures var rate := tracks[0].tickResolution;
            ScanLastEnd(tracks) == 0.0
            || exists i, j :: 0 <= i < |tracks| && 0 <= j < |tracks[i].sections| && tracks[i].sections[j].HasEndFrame()
                 && ScanLastEnd(tracks) == FrameToSeconds(tracks[i].sections[j].upperBound.value, rate)
  {
    var rate := tracks[0].tickResolution;
    var xs := TrackEndTimes(tracks, rate);
    MaxOrZeroBounds(xs);
    MaxOrZeroAttained(xs);
    forall i, j | 0 <= i < |tracks| && 0 <= j < |tracks[i].sections| && tracks[i].sections[j].HasEndFrame()
      ensures FrameToSeconds(tracks[i].sections[j].upperBound.value, rate) <= ScanLastEnd(tracks)
    {
      TrackEndTimesMembers(tracks, rate, FrameToSeconds(tracks[i].sections[j].upperBound.value, rate));
    }
    if ScanLastEnd(tracks) != 0.0 {
      var k :| 0 <= k < |xs| && xs[k] == MaxOrZero(xs);
      TrackEndTimesMembers(tracks, rate, xs[k]);
    }
  }

  lemma {:induction false} SectionEndTimesAppend(a: seq<Section>, b: seq<Section>, rate: FrameRate)
    requires rate.IsValid()
    ensures SectionEndTimes(a + b, rate) == SectionEndTimes(a, rate) + SectionEndTimes(b, rate)
  {
    if |b| == 0 {
      assert a + b == a;
    } else {
      var n := |b| - 1;
      assert (a + b)[..|a + b| - 1] == a + b[..n];
      assert (a + b)[|a + b| - 1] == b[n];
      SectionEndTimesAppend(a, b[..n], rate);
    }
  }

  /** A section without an end frame contributes nothing, wherever it stands. */
  lemma OpenSectionIgnored(a: seq<Section>, b: seq<Section>, rate: FrameRate)
    requires rate.IsValid()
    ensures SectionEndTimes(a + [Section(None)] + b, rate) == SectionEndTimes(a + b, rate)
  {
    SectionEndTimesAppend(a + [Section(None)], b, rate);
    SectionEndTimesAppend(a, b, rate);
    assert (a + [Section(None)])[..|a|] == a;
  }

  /** The scanned end times do not depend on the tracks' own rates, only on the rate passed in. */
  lemma {:induction false} TrackEndTimesIgnoreOwnRates(tracks: seq<Track>, k: nat, other: FrameRate, rate: FrameRate)
    requires rate.IsValid() && k < |tracks|
    ensures TrackEndTimes(tracks[k := tracks[k].(tickResolution := other)], rate) == TrackEndTimes(tracks, rate)
  {
    var changed := tracks[k := tracks[k].(tickResolution := other)];
    var n := |tracks| - 1;
    if k < n {
      assert changed[..n] == tracks[..n][k := tracks[k].(tickResolution := other)];
      TrackEndTimesIgnoreOwnRates(tracks[..n], k, other, rate);
    } else {
      assert changed[..n] == tracks[..n];
    }
  }

  /** Only the first track's rate is used: a later track with another (or an invalid) rate changes nothing. */
  lemma LaterRatesIgnored(tracks: seq<Track>, k: nat, other: FrameRate)
    requires 0 < k < |tracks|
    ensures ScanLastEnd(tracks[k := tracks[k].(tickResolution := other)]) == ScanLastEnd(tracks)
  {
    if tracks[0].tickResolution.IsValid() {
      TrackEndTimesIgnoreOwnRates(tracks, k, other, tracks[0].tickResolution);
    }
  }

  /** An invalid first rate makes the scan report 0, whatever the sections hold. */
  lemma InvalidFirstRateGivesZero(tracks: seq<Track>)
    requires |tracks| > 0 && !tracks[0].tickResolution.IsValid()
    ensures ScanLastEnd(tracks) == 0.0
  {
  }
}
