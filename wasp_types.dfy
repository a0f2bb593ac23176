/**
 * The public types of the WASP runtime library: the time mode that says how a
 * row's Time is read, and the data-table row record with its defaults.
 */
module WaspTypes {
  import opened Wrappers
  import opened HostScene

  /** How the Time of a row places the clip (an 8-bit enumeration). */
  datatype TimeMode = Precise | LastAnimationOffset | Blend

  /** The enumeration's underlying 8-bit value, in declaration order. */
  function TimeModeToByte(m: TimeMode): (b: nat)
    ensures b < 3
    ensures b == 0 <==> m == Precise
    ensures b == 1 <==> m == LastAnimationOffset
    ensures b == 2 <==> m == Blend
  {
    match m
    case Precise => 0
    case LastAnimationOffset => 1
    case Blend => 2
  }

  /** Reads an 8-bit value back as a time mode; values 3 to 255 name no mode. */
  function TimeModeFromByte(b: nat): (r: Option<TimeMode>)
    requires b < 256
    ensures r.Some? <==> b < 3
    ensures r == Some(Precise) <==> b == 0
    ensures r == Some(LastAnimationOffset) <==> b == 1
    ensures r == Some(Blend) <==> b == 2
  {
    if b == 0 then Some(Precise)
    else if b == 1 then Some(LastAnimationOffset)
    else if b == 2 then Some(Blend)
    else None
  }

  lemma TimeModeByteRoundTrip(m: TimeMode)
    ensures TimeModeFromByte(TimeModeToByte(m)) == Some(m)
  {
  }

  /** A time mode is exactly one of the three values. */
  lemma TimeModeCases(m: TimeMode)
    ensures m == Precise || m == LastAnimationOffset || m == Blend
    ensures !(m == Precise && m == LastAnimationOffset)
    ensures !(m == Precise && m == Blend)
    ensures !(m == LastAnimationOffset && m == Blend)
  {
  }

  /**
   * One row of the parameters table.  `audio` is read by the driver though the
   * header revision modelled here does not declare it; it defaults to null like
   * `animation`.
   */
  datatype AnimationTrackAddParams = AnimationTrackAddParams(
    animation: Option<AnimSequence>,
    audio: Option<Sound>,
    timeMode: TimeMode,
    time: real,
    startOffset: real,
    endTrim: real,
    blend: bool)

  /** The default-constructed row. */
  function DefaultParams(): (p: AnimationTrackAddParams)
    ensures p.timeMode == Precise
    ensures p.time == 0.0 && p.startOffset == 0.0 && p.endTrim == 0.0
    ensures !p.blend && p.animation.None? && p.audio.None?
  {
    AnimationTrackAddParams(None, None, Precise, 0.0, 0.0, 0.0, false)
  }

  /** The three-argument constructor: animation, time mode and time; no offset, no trim, no blend. */
  function MakeParams(animation: Option<AnimSequence>, timeMode: TimeMode, time: real): (p: AnimationTrackAddParams)
    ensures p.animation == animation && p.timeMode == timeMode && p.time == time
    ensures p.startOffset == 0.0 && p.endTrim == 0.0 && !p.blend && p.audio.None?
  {
    AnimationTrackAddParams(animation, None, timeMode, time, 0.0, 0.0, false)
  }

  /** The default row is the three-argument row with no animation, Precise mode and time 0. */
  lemma DefaultIsMakeParams()
    ensures DefaultParams() == MakeParams(None, Precise, 0.0)
  {
  }
}
