/**
 * The start-time resolver of AddDataToLevelSequence: how a row's time mode,
 * Time and StartOffset place a clip relative to the last section end.
 */
module TimePlacement {
  import opened WaspTypes

  /** Absolute value of a real (the engine's FMath::Abs). */
  function Abs(x: real): (r: real)
    ensures r >= 0.0
    ensures r == x || r == -x
  {
    if x < 0.0 then -x else x
  }

  /** Start time of a clip with the given mode, Time and StartOffset, after sections ending at `lastSectionEnd`. */
  function StartTime(mode: TimeMode, time: real, startOffset: real, lastSectionEnd: real): (r: real)
    ensures mode == Precise ==> r <= time
    ensures mode == LastAnimationOffset ==> r >= lastSectionEnd - Abs(startOffset)
    ensures mode == Blend ==> r <= lastSectionEnd - Abs(startOffset)
  {
    match mode
    case Precise => time - Abs(startOffset)
    case LastAnimationOffset => lastSectionEnd + Abs(time) - Abs(startOffset)
    case Blend => lastSectionEnd - Abs(time) - Abs(startOffset)
  }

  /** Precise mode ignores where the existing sections end. */
  lemma PreciseIgnoresLastEnd(time: real, startOffset: real, end1: real, end2: real)
    ensures StartTime(Precise, time, startOffset, end1) == StartTime(Precise, time, startOffset, end2)
    ensures StartTime(Precise, time, startOffset, end1) + Abs(startOffset) == time
  {
  }

  /** Precise mode can place a clip before time zero. */
  lemma PreciseMayBeNegative()
    ensures StartTime(Precise, 0.0, 1.0, 100.0) < 0.0
  {
  }

  /** In the two relative modes, moving the last section end by d moves the start by exactly d. */
  lemma RelativeModesShift(mode: TimeMode, time: real, startOffset: real, lastSectionEnd: real, d: real)
    requires mode != Precise
    ensures StartTime(mode, time, startOffset, lastSectionEnd + d) == StartTime(mode, time, startOffset, lastSectionEnd) + d
  {
  }

  /** The two relative modes are mirror images around the last section end less the start offset. */
  lemma RelativeModesMirror(time: real, startOffset: real, lastSectionEnd: real)
    ensures StartTime(LastAnimationOffset, time, startOffset, lastSectionEnd) - (lastSectionEnd - Abs(startOffset))
         == (lastSectionEnd - Abs(startOffset)) - StartTime(Blend, time, startOffset, lastSectionEnd)
    ensures StartTime(LastAnimationOffset, time, startOffset, lastSectionEnd) - StartTime(Blend, time, startOffset, lastSectionEnd)
         == 2.0 * Abs(time)
  {
  }

  /** The sign of Time and StartOffset matters only in Precise mode (Time) or not at all (StartOffset). */
  lemma SignsIgnored(mode: TimeMode, time: real, startOffset: real, lastSectionEnd: real)
    ensures StartTime(mode, time, -startOffset, lastSectionEnd) == StartTime(mode, time, startOffset, lastSectionEnd)
    ensures mode != Precise ==> StartTime(mode, -time, startOffset, lastSectionEnd) == StartTime(mode, time, startOffset, lastSectionEnd)
  {
  }

  /** Worked placements: Precise 5 s with offset 1 s; offset-from-last 3 s with no sections; blend 5 s after a section ending at 20 s. */
  lemma WorkedPlacements()
    ensures StartTime(Precise, 5.0, 1.0, 0.0) == 4.0
    ensures StartTime(LastAnimationOffset, 3.0, 0.0, 0.0) == 3.0
    ensures StartTime(Blend, 5.0, 0.0, 20.0) == 15.0
  {
  }
}
