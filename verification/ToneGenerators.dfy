// ToneGenerator: a gated beep, produced frame by frame.
module ToneGenerators {
  import opened Arithmetic

  // The sine at a sample position, already scaled by the gain.
  type Wave = nat -> int

  datatype Settings = Settings(sampleRate: nat, beepDurationMs: nat, beepIntervalMs: nat)

  function CycleSamples(s: Settings): nat
    ensures CycleSamples(s) > 0
  {
    var n := s.sampleRate * s.beepIntervalMs / 1000;
    if n > 1 then n else 1
  }

  function AudibleSamples(s: Settings): nat {
    var active := s.sampleRate * s.beepDurationMs / 1000;
    if active < CycleSamples(s) then active else CycleSamples(s)
  }

  predicate GatedOn(s: Settings, position: nat) {
    position % CycleSamples(s) < AudibleSamples(s)
  }

  // The endless sample stream the frames are cut from.
  function SampleAt(s: Settings, wave: Wave, position: nat): int {
    if GatedOn(s, position) then wave(position) else 0
  }

  ghost function Stream(s: Settings, wave: Wave, from: nat, count: nat): (samples: seq<int>)
    ensures |samples| == count
  {
    seq(count, i requires 0 <= i => SampleAt(s, wave, from + i))
  }

  class ToneGenerator {
    const settings: Settings
    const wave: Wave
    var sampleCursor: nat

    constructor (settings: Settings, wave: Wave)
      ensures this.settings == settings && this.wave == wave && sampleCursor == 0
    {
      this.settings := settings;
      this.wave := wave;
      sampleCursor := 0;
    }

    method NextFrame(samplesPerFrame: nat) returns (frame: seq<int>)
      modifies this
      ensures frame == Stream(settings, wave, old(sampleCursor), samplesPerFrame)
      ensures sampleCursor == old(sampleCursor) + samplesPerFrame
      ensures |frame| == samplesPerFrame && forall i :: 0 <= i < samplesPerFrame ==>
        frame[i] == if GatedOn(settings, old(sampleCursor) + i) then wave(old(sampleCursor) + i) else 0
    {
      frame := [];
      var cycleSamples := CycleSamples(settings);
      var audibleSamples := AudibleSamples(settings);
      for i := 0 to samplesPerFrame
        invariant sampleCursor == old(sampleCursor) + i
        invariant |frame| == i
        invariant forall k :: 0 <= k < i ==> frame[k] == SampleAt(settings, wave, old(sampleCursor) + k)
      {
        if sampleCursor % cycleSamples < audibleSamples {
          frame := frame + [wave(sampleCursor)];
        } else {
          frame := frame + [0];
        }
        sampleCursor := sampleCursor + 1;
      }
    }

    // Frames of any sizes, one after the other.
    method NextFrames(sizes: seq<nat>) returns (samples: seq<int>)
      modifies this
      ensures samples == Stream(settings, wave, old(sampleCursor), Sum(sizes))
      ensures sampleCursor == old(sampleCursor) + Sum(sizes)
    {
      samples := [];
      for k := 0 to |sizes|
        invariant samples == Stream(settings, wave, old(sampleCursor), Sum(sizes[..k]))
        invariant sampleCursor == old(sampleCursor) + Sum(sizes[..k])
      {
        var frame := NextFrame(sizes[k]);
        assert sizes[..k + 1][..k] == sizes[..k];
        samples := samples + frame;
      }
      assert sizes[..|sizes|] == sizes;
    }
  }

  function Sum(sizes: seq<nat>): nat {
    if sizes == [] then 0 else Sum(sizes[..|sizes| - 1]) + sizes[|sizes| - 1]
  }

  // ---------- The gate ----------

  ghost function CountOn(s: Settings, from: nat, count: nat): nat {
    if count == 0 then 0 else CountOn(s, from, count - 1) + if GatedOn(s, from + count - 1) then 1 else 0
  }

  // Sliding the window by one sample adds the sample one cycle later.
  lemma {:induction false} CountSlides(s: Settings, from: nat, count: nat)
    ensures CountOn(s, from, count + 1) ==
      (if GatedOn(s, from) then 1 else 0) + CountOn(s, from + 1, count)
  {
    if count > 0 {
      CountSlides(s, from, count - 1);
    }
  }

  lemma GatePeriodic(s: Settings, position: nat)
    ensures GatedOn(s, position + CycleSamples(s)) == GatedOn(s, position)
  {
    ModShift(position, CycleSamples(s));
  }

  // From the start of a cycle the first audible samples are on.
  lemma {:induction false} CountFromStart(s: Settings, count: nat)
    requires count <= CycleSamples(s)
    ensures CountOn(s, 0, count) == if count < AudibleSamples(s) then count else AudibleSamples(s)
  {
    if count > 0 {
      CountFromStart(s, count - 1);
      SmallMod(count - 1, CycleSamples(s));
    }
  }

  // A sample is on exactly when its millisecond in the cycle lies within the
  // beep: position p of the cycle when 1000 * (p + 1) <= rate * duration.
  lemma GatedExactly(s: Settings, position: nat)
    ensures GatedOn(s, position) <==>
      1000 * (position % CycleSamples(s) + 1) <= s.sampleRate * s.beepDurationMs
  {
    var p := position % CycleSamples(s);
    DivisionBounds(s.sampleRate * s.beepDurationMs, 1000);
  }

  // The cycle is the interval in whole samples, and at least one.
  lemma CycleExactly(s: Settings)
    ensures var n := s.sampleRate * s.beepIntervalMs;
      if n < 1000 then CycleSamples(s) == 1 else 1000 * CycleSamples(s) <= n < 1000 * (CycleSamples(s) + 1)
  {
    DivisionBounds(s.sampleRate * s.beepIntervalMs, 1000);
  }

  // Wherever it starts, a window of one cycle holds exactly the audible
  // samples.
  lemma {:induction false} EveryWindowHasBeep(s: Settings, from: nat)
    ensures CountOn(s, from, CycleSamples(s)) == AudibleSamples(s)
  {
    if from == 0 {
      CountFromStart(s, CycleSamples(s));
    } else {
      EveryWindowHasBeep(s, from - 1);
      CountSlides(s, from - 1, CycleSamples(s));
      GatePeriodic(s, from - 1);
    }
  }
}
