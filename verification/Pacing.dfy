/**
 Pacing: `VideoDecoder::Decoded` and `LiveAudioSource::onData` sleep so that
 frames are not handed on faster than their source timestamps say.
 Times are in milliseconds; the clock readings are inputs.
 */
module Pacing {
  // The previous source timestamp and the clock when that frame was done; clock zero means "none".
  datatype Pace = Pace(source: int, clock: int)

  // One frame: clock on entry, its source timestamp, clock when it is done.
  datatype Frame = Frame(start: int, source: int, finish: int)

  function Delay(p: Pace, start: int, source: int): int {
    (source - p.source) - (start - p.clock)
  }

  // How long the thread sleeps. Without waiting, or before the first frame, video sleeps 1 ms and
  // audio not at all: `idle`.
  function Slept(wait: bool, idle: nat, p: Pace, start: int, source: int): nat {
    if wait && p.clock != 0 then
      (if 0 < Delay(p, start, source) < 1000 then Delay(p, start, source) else 0)
    else idle
  }

  class Pacer {
    const wait: bool
    const idle: nat
    var prevSource: int
    var prevClock: int

    constructor (wait: bool, idle: nat)
      ensures this.wait == wait && this.idle == idle && prevSource == 0 && prevClock == 0
    {
      this.wait, this.idle, prevSource, prevClock := wait, idle, 0, 0;
    }

    // `finish` is the clock reading at the end, which the sleep pushes back.
    method OnFrame(f: Frame) returns (slept: nat)
      requires f.finish >= f.start + Slept(wait, idle, Pace(prevSource, prevClock), f.start, f.source)
      modifies this
      ensures slept == Slept(wait, idle, old(Pace(prevSource, prevClock)), f.start, f.source)
      ensures prevSource == f.source && prevClock == f.finish
      ensures wait && old(prevClock) != 0 && Delay(old(Pace(prevSource, prevClock)), f.start, f.source) < 1000
              ==> prevClock - old(prevClock) >= prevSource - old(prevSource)
    {
      slept := 0;
      if wait && prevClock != 0 {
        var periodSource := f.source - prevSource;
        var periodDecode := f.start - prevClock;
        var delayms := periodSource - periodDecode;
        if delayms > 0 && delayms < 1000 {
          slept := delayms;
        }
      } else {
        slept := idle;
      }
      prevSource, prevClock := f.source, f.finish;
    }
  }

  // `finish` is a clock reading that can end a paced frame: the sleep is over.
  predicate CanFinish(p: Pace, start: int, source: int, finish: int) {
    finish >= start + Slept(true, 0, p, start, source)
  }

  predicate InTime(p: Pace, source: int, finish: int) { finish - p.clock >= source - p.source }

  // Whatever the clock does afterwards, a frame is not done ahead of the source if and only if the
  // computed delay is below one second.
  lemma NotAheadIff(p: Pace, start: int, source: int)
    requires p.clock != 0
    ensures (forall finish :: CanFinish(p, start, source, finish) ==> InTime(p, source, finish))
            <==> Delay(p, start, source) < 1000
  {
    var finish := start + Slept(true, 0, p, start, source);
    assert CanFinish(p, start, source, finish);
    assert InTime(p, source, finish) <==> Delay(p, start, source) < 1000;
  }

  // A paced frame sleeps no longer than it must: just until the source time has passed, and not at all
  // when the delay is a second or more. Other frames sleep the fixed time.
  lemma SleepsNoLonger(p: Pace, start: int, source: int, idle: nat)
    ensures p.clock != 0 && Delay(p, start, source) >= 1000 ==> Slept(true, idle, p, start, source) == 0
    ensures p.clock != 0 && Delay(p, start, source) < 1000 ==>
              var n := Slept(true, idle, p, start, source);
              InTime(p, source, start + n) && (n > 0 ==> !InTime(p, source, start + n - 1))
    ensures Slept(false, idle, p, start, source) == idle && Slept(true, idle, p.(clock := 0), start, source) == idle
  {}

  // A run with waiting on: clock readings are possible, non-zero, and no delay reaches one second.
  predicate IsRun(fs: seq<Frame>) {
    && (forall i :: 0 <= i < |fs| ==> fs[i].finish != 0)
    && (forall i :: 0 <= i < |fs| - 1 ==> PacedStep(fs[i], fs[i + 1]))
  }

  predicate PacedStep(f: Frame, g: Frame) {
    var p := Pace(f.source, f.finish);
    CanFinish(p, g.start, g.source, g.finish) && Delay(p, g.start, g.source) < 1000
  }

  // Playback never runs ahead: between any two frames at least the source time passes.
  lemma {:induction false} NeverAhead(fs: seq<Frame>, i: nat, j: nat)
    requires IsRun(fs) && i <= j < |fs|
    ensures fs[j].finish - fs[i].finish >= fs[j].source - fs[i].source
    decreases j
  {
    if i < j {
      NeverAhead(fs, i, j - 1);
      assert PacedStep(fs[j - 1], fs[j - 1 + 1]);
    }
  }
}
