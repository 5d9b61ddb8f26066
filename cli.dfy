/** The progress spinner of src/utils/cli.cpp: `getHourglassCharacter`,
    whose function-local statics become the fields of an object. Clock
    readings are passed in as numbers of clock ticks. */
module Cli {

  /** The animation frames, in display order. */
  const Frames: seq<char> := ['-', '\\', '|', '/']

  /** Milliseconds between two frames. */
  const MsToWait: int := 250

  /** C++ integer division, which truncates toward zero. */
  function TruncDiv(a: int, b: int): int
    requires b > 0
  {
    if a >= 0 then a / b else -((-a) / b)
  }

  /** `duration_cast<milliseconds>(now - past).count()`. */
  function ElapsedMs(past: int, now: int, ticksPerMs: nat): int
    requires ticksPerMs > 0
  {
    TruncDiv(now - past, ticksPerMs)
  }

  /** The frame after `frame`, wrapping around. */
  function Advance(frame: nat): (next: nat)
    requires frame < |Frames|
    ensures next < |Frames|
  {
    (frame + 1) % |Frames|
  }

  /** The frame reached from `frame` after `n` advances. */
  function AdvanceBy(frame: nat, n: nat): (r: nat)
    requires frame < |Frames|
    ensures r < |Frames|
  {
    if n == 0 then frame else Advance(AdvanceBy(frame, n - 1))
  }

  /** The spinner's frame index moves by `n` modulo the number of frames. */
  lemma {:induction false} AdvanceByIsModular(frame: nat, n: nat)
    requires frame < |Frames|
    ensures AdvanceBy(frame, n) == (frame + n) % |Frames|
  {
    if n > 0 {
      AdvanceByIsModular(frame, n - 1);
    }
  }

  /** Four advances return to the starting frame, and the frames follow
      one another in the order '-', '\\', '|', '/'. */
  lemma FrameCycle(frame: nat)
    requires frame < |Frames|
    ensures AdvanceBy(frame, |Frames|) == frame
    ensures Frames[frame] == '-' ==> Frames[Advance(frame)] == '\\'
    ensures Frames[frame] == '\\' ==> Frames[Advance(frame)] == '|'
    ensures Frames[frame] == '|' ==> Frames[Advance(frame)] == '/'
    ensures Frames[frame] == '/' ==> Frames[Advance(frame)] == '-'
  {
    AdvanceByIsModular(frame, |Frames|);
  }

  /** The 250 ms gate on tick counts: the truncated millisecond count
      reaches 250 exactly when the tick difference reaches 250 ms' worth. */
  lemma ElapsedReachesWait(past: int, now: int, ticksPerMs: nat)
    requires ticksPerMs > 0
    ensures ElapsedMs(past, now, ticksPerMs) >= MsToWait <==> now - past >= MsToWait * ticksPerMs
  {
    var d, k := now - past, ticksPerMs;
    if d >= 0 {
      var q, r := d / k, d % k;
      assert d == q * k + r && 0 <= r < k;
      if q >= MsToWait {
        MulLe(MsToWait, q, k);
      } else {
        MulLe(q + 1, MsToWait, k);
        assert (q + 1) * k == q * k + k;
      }
    } else {
      assert (-d) / k >= 0;
    }
  }

  lemma MulLe(x: int, y: int, k: int)
    requires k > 0
    ensures x <= y <==> x * k <= y * k
  {
    assert y * k - x * k == (y - x) * k;
  }

  /** The spinner state: the clock reading of the last frame change and
      the index of the current frame. */
  class Hourglass {
    var past: int
    var currentFrame: nat
    const ticksPerMs: nat

    predicate Valid()
      reads this
    {
      currentFrame < |Frames| && ticksPerMs > 0
    }

    /** The statics as the first call initialises them: `past` from the
        first clock reading, frame 0. */
    constructor (start: int, ticksPerMs: nat)
      requires ticksPerMs > 0
      ensures Valid()
      ensures past == start && currentFrame == 0 && this.ticksPerMs == ticksPerMs
    {
      past := start;
      currentFrame := 0;
      this.ticksPerMs := ticksPerMs;
    }

    /** getHourglassCharacter (src/utils/cli.cpp:7-24). `now` is the
        clock reading taken for the delta, `reset` the one taken again when
        the frame advances. */
    method Tick(now: int, reset: int) returns (c: char)
      requires Valid()
      modifies this
      ensures Valid()
      ensures c == Frames[currentFrame]
      ensures c in {'-', '\\', '|', '/'}
      ensures ElapsedMs(old(past), now, ticksPerMs) < MsToWait ==>
                past == old(past) && currentFrame == old(currentFrame)
      ensures ElapsedMs(old(past), now, ticksPerMs) >= MsToWait ==>
                past == reset && currentFrame == Advance(old(currentFrame))
    {
      var delta := ElapsedMs(past, now, ticksPerMs);
      if delta >= MsToWait {
        currentFrame := (currentFrame + 1) % |Frames|;
        past := reset;
      }
      c := Frames[currentFrame];
    }
  }
}
