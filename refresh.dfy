/** The scheduling of the firmware's main loop: whether a pass repaints the whole
    screen or only the clock, when the display goes to sleep, and how the loop waits
    for the next whole interval. `millis()` is the 32-bit millisecond counter and
    wraps around after about 49.7 days; its readings are parameters. */
module Refresh {
  import opened CArith

  /** What one pass of the loop draws. */
  datatype Drawing = Repaint | TimeAndDate | Nothing

  // ---------------------------------------------------------------------------
  // Repaint decision
  // ---------------------------------------------------------------------------

  /** Repaint when the clock was never synchronised, the weather was never
      updated, or more than the update interval has passed since the last update
      (a 32-bit unsigned difference against the interval converted to unsigned). */
  function ShouldRepaint(lastTimeSyncMillis: u32, lastUpdateMillis: u32, currentMillis: u32, updateIntervalMillis: int): (r: bool)
    ensures lastTimeSyncMillis != 0 && lastUpdateMillis != 0 && currentMillis == lastUpdateMillis ==> !r
  {
    lastTimeSyncMillis == 0 || lastUpdateMillis == 0
    || ToU32(currentMillis - lastUpdateMillis) > ToU32(updateIntervalMillis)
  }

  /** What a pass draws: nothing while the display sleeps, otherwise everything or
      only the clock. */
  function Plan(awake: bool, lastTimeSyncMillis: u32, lastUpdateMillis: u32, currentMillis: u32, updateIntervalMillis: int): (r: Drawing)
    ensures r == Nothing <==> !awake
    ensures r == Repaint <==> awake && ShouldRepaint(lastTimeSyncMillis, lastUpdateMillis, currentMillis, updateIntervalMillis)
  {
    if !awake then Nothing
    else if ShouldRepaint(lastTimeSyncMillis, lastUpdateMillis, currentMillis, updateIntervalMillis) then Repaint
    else TimeAndDate
  }

  /** The unsigned difference of two readings of the wrapping counter is the true
      time between them, as long as that is less than 2^32 milliseconds. */
  lemma ElapsedAcrossWrap(earlier: int, later: int)
    requires 0 <= earlier <= later < earlier + 0x1_0000_0000
    ensures ToU32(ToU32(later) - ToU32(earlier)) == later - earlier
  {
    var a := ToU32(later);
    var b := ToU32(earlier);
    var ka := (later - a) / 0x1_0000_0000;
    var kb := (earlier - b) / 0x1_0000_0000;
    assert a - b - (later - earlier) == (kb - ka) * 0x1_0000_0000;
    RemainderOfCongruent(a - b, later - earlier);
  }

  /** Once the clock is synchronised and the weather was updated (at a counter value
      other than 0), a pass repaints exactly when more than the interval has passed
      since the update, even when the counter wrapped in between. */
  lemma RepaintWhenDue(lastTimeSyncMillis: u32, updatedAt: int, now: int, updateIntervalMillis: int)
    requires lastTimeSyncMillis != 0 && ToU32(updatedAt) != 0
    requires 0 <= updatedAt <= now < updatedAt + 0x1_0000_0000
    requires 0 <= updateIntervalMillis < 0x8000_0000
    ensures ShouldRepaint(lastTimeSyncMillis, ToU32(updatedAt), ToU32(now), updateIntervalMillis)
      <==> now - updatedAt > updateIntervalMillis
  {
    ElapsedAcrossWrap(updatedAt, now);
  }

  /** Without a synchronised clock or a first update every awake pass repaints. */
  lemma RepaintUntilReady(awake: bool, lastTimeSyncMillis: u32, lastUpdateMillis: u32, currentMillis: u32, updateIntervalMillis: int)
    requires lastTimeSyncMillis == 0 || lastUpdateMillis == 0
    ensures Plan(awake, lastTimeSyncMillis, lastUpdateMillis, currentMillis, updateIntervalMillis)
      == if awake then Repaint else Nothing
  {
  }

  // ---------------------------------------------------------------------------
  // Display sleep
  // ---------------------------------------------------------------------------

  /** The display state and the time of the last touch after the touch check: a
      touch wakes the display and restarts the timeout; an awake display that was
      not touched for longer than the timeout goes to sleep. The deadline is a
      32-bit unsigned sum. */
  function TouchStep(touched: bool, awake: bool, currentMillis: u32, lastTouchedTime: u32, sleepDelaySeconds: int): (r: (bool, u32))
    ensures touched ==> r == (true, currentMillis)
    ensures !touched ==> r.1 == lastTouchedTime && (r.0 ==> awake)
  {
    if touched then (true, currentMillis)
    else if awake && currentMillis > ToU32(lastTouchedTime + sleepDelaySeconds * 1000) then (false, lastTouchedTime)
    else (awake, lastTouchedTime)
  }

  /** Away from the counter's wrap-around, an untouched awake display sleeps
      exactly when more than the timeout has passed since the last touch. */
  lemma SleepAfterTimeout(awake: bool, currentMillis: u32, lastTouchedTime: u32, sleepDelaySeconds: int)
    requires awake && 0 <= sleepDelaySeconds
    requires lastTouchedTime + sleepDelaySeconds * 1000 < 0x1_0000_0000
    ensures !TouchStep(false, awake, currentMillis, lastTouchedTime, sleepDelaySeconds).0
      <==> currentMillis - lastTouchedTime > sleepDelaySeconds * 1000
  {
  }

  /** Near the wrap-around the deadline wraps to a small value: a display touched
      16 ms before the counter wraps, with a 30 s timeout, goes to sleep on the next
      untouched pass, 1 ms later. */
  lemma SleepDeadlineWraps()
    ensures !TouchStep(false, true, 0xFFFF_FFF1, 0xFFFF_FFF0, 30).0
  {
  }

  // ---------------------------------------------------------------------------
  // Waiting for the next interval
  // ---------------------------------------------------------------------------

  /** The catch-up loop as written: advance `timeUpdate` by `dly` (32-bit unsigned)
      while it is not greater than the current reading, for at most `fuel` rounds;
      `None` when it has not finished by then. */
  function CatchUpAsWritten(timeUpdate: u32, currentMillis: u32, dly: u32, fuel: nat): (r: Option<u32>)
    ensures r.Some? ==> r.value > currentMillis
    decreases fuel
  {
    if fuel == 0 then None
    else if timeUpdate <= currentMillis then CatchUpAsWritten(ToU32(timeUpdate + dly), currentMillis, dly, fuel - 1)
    else Some(timeUpdate)
  }

  /** As written, the loop never finishes when the counter reads 0xFFFFFFFF: no
      32-bit value is greater. */
  lemma {:induction false} AsWrittenCatchUpHangs(timeUpdate: u32, dly: u32, fuel: nat)
    ensures CatchUpAsWritten(timeUpdate, 0xFFFF_FFFF, dly, fuel) == None
    decreases fuel
  {
    if fuel > 0 {
      AsWrittenCatchUpHangs(ToU32(timeUpdate + dly), dly, fuel - 1);
    }
  }

  /** As written, a reading that wrapped past a pending `timeUpdate` leaves it
      untouched, and the following `delay` lasts almost 2^32 ms (49.7 days): here a
      repaint that started 200 ms before the wrap ended 2800 ms after it. */
  lemma AsWrittenWaitsAfterWrap()
    ensures CatchUpAsWritten(0xFFFF_FF38, 2800, 1000, 1) == Some(0xFFFF_FF38)
    ensures ToU32(0xFFFF_FF38 - 2800) == 0xFFFF_F448
  {
  }

  /** As written, when nothing wraps, the loop stops at the first tick past the
      reading: after `k` steps, where the tick before is not past the reading. */
  lemma {:induction false} AsWrittenCatchUpAgrees(timeUpdate: u32, currentMillis: u32, dly: u32, k: nat)
    requires 0 < dly
    requires currentMillis < timeUpdate + k * dly < 0x1_0000_0000
    requires k > 0 ==> timeUpdate + (k - 1) * dly <= currentMillis
    ensures CatchUpAsWritten(timeUpdate, currentMillis, dly, k + 1) == Some(timeUpdate + k * dly)
    decreases k
  {
    if k > 0 {
      assert timeUpdate + dly <= timeUpdate + k * dly;
      var next := timeUpdate + dly;
      assert next + (k - 1) * dly == timeUpdate + k * dly;
      assert k - 1 > 0 ==> next + (k - 2) * dly == timeUpdate + (k - 1) * dly;
      AsWrittenCatchUpAgrees(next, currentMillis, dly, k - 1);
    }
  }

  /** What the corrected catch-up promises: `timeUpdate` is `steps` steps past
      `start` and strictly ahead of the reading by the signed difference; it did not
      move when it was already ahead, and it is at most one step ahead when it had
      to move. */
  predicate CatchUpOutcome(start: int, currentMillis: int, dly: int, steps: nat, timeUpdate: int)
  {
    && timeUpdate == ToU32(start + steps * dly)
    && ToI32(currentMillis - timeUpdate) < 0
    && (ToI32(currentMillis - start) < 0 ==> steps == 0)
    && (ToI32(currentMillis - start) >= 0 ==> -dly <= ToI32(currentMillis - timeUpdate))
  }

  /** Where neither the reading nor the ticks wrap, the corrected catch-up ends on
      the same tick as the loop as written, after the same number of steps. */
  lemma CatchUpAgreesWithoutWrap(start: u32, currentMillis: u32, dly: u32, steps: nat, timeUpdate: u32)
    requires 0 < dly < 0x8000_0000
    requires -0x8000_0000 <= currentMillis - start < 0x8000_0000
    requires start + steps * dly < 0x1_0000_0000
    requires CatchUpOutcome(start, currentMillis, dly, steps, timeUpdate)
    ensures CatchUpAsWritten(start, currentMillis, dly, steps + 1) == Some(timeUpdate)
  {
    if start <= currentMillis {
      assert timeUpdate == start + steps * dly;
      assert currentMillis < timeUpdate <= currentMillis + dly;
      AsWrittenCatchUpAgrees(start, currentMillis, dly, steps);
    }
  }

  /** Advancing by one more step stays congruent to a whole number of steps. */
  lemma StepCongruent(start: int, steps: nat, dly: int)
    ensures ToU32(ToU32(start + steps * dly) + dly) == ToU32(start + (steps + 1) * dly)
  {
    var x := start + steps * dly;
    var k := (x - ToU32(x)) / 0x1_0000_0000;
    assert ToU32(x) + dly == x + dly - k * 0x1_0000_0000;
    assert x + dly == start + (steps + 1) * dly;
    RemainderOfCongruent(ToU32(x) + dly, ToU32(x + dly));
  }

  /** One step moves the signed distance to the current reading down by `dly`. */
  lemma SignedStep(currentMillis: int, timeUpdate: int, dly: int)
    requires 0 <= ToI32(currentMillis - timeUpdate) && 0 < dly < 0x8000_0000
    ensures ToI32(currentMillis - ToU32(timeUpdate + dly)) == ToI32(currentMillis - timeUpdate) - dly
  {
    var d := ToI32(currentMillis - timeUpdate);
    var t := ToU32(timeUpdate + dly);
    var k1 := (currentMillis - timeUpdate - d) / 0x1_0000_0000;
    var k2 := (timeUpdate + dly - t) / 0x1_0000_0000;
    assert currentMillis - t - (d - dly) == (k1 + k2) * 0x1_0000_0000;
    SignedOfCongruent(currentMillis - t, d - dly);
  }

  /** A number congruent to y in [-2^31, 2^31) converts to y. */
  lemma SignedOfCongruent(x: int, y: int)
    requires -0x8000_0000 <= y < 0x8000_0000 && (x - y) % 0x1_0000_0000 == 0
    ensures ToI32(x) == y
  {
    var k := (x - y) / 0x1_0000_0000;
    assert x + 0x8000_0000 == (y + 0x8000_0000) + k * 0x1_0000_0000;
    RemainderOfCongruent(x + 0x8000_0000, y + 0x8000_0000);
  }

  /** When `timeUpdate` is ahead of the reading by a signed distance, the unsigned
      difference passed to `delay` is that distance. */
  lemma WaitOfAhead(currentMillis: int, timeUpdate: int)
    requires ToI32(currentMillis - timeUpdate) < 0
    ensures ToU32(timeUpdate - currentMillis) == -ToI32(currentMillis - timeUpdate)
  {
    var d := ToI32(currentMillis - timeUpdate);
    var k := (currentMillis - timeUpdate - d) / 0x1_0000_0000;
    assert timeUpdate - currentMillis - (-d) == -k * 0x1_0000_0000;
    RemainderOfCongruent(timeUpdate - currentMillis, -d);
  }

  /** The loop invariant of the catch-up: `timeUpdate` is `steps` steps past its
      start, and once a step was taken (so the start had been reached) it is at
      most one step ahead of the reading. */
  ghost predicate CaughtUpBy(start: int, timeUpdate: int, steps: nat, currentMillis: int, dly: int)
  {
    && timeUpdate == ToU32(start + steps * dly)
    && (steps == 0 ==> timeUpdate == start)
    && (steps > 0 ==> -dly <= ToI32(currentMillis - timeUpdate) && 0 <= ToI32(currentMillis - start))
  }

  /** One round of the catch-up keeps its invariant and brings the signed distance
      down by one step. */
  lemma CatchUpStep(start: int, timeUpdate: int, steps: nat, currentMillis: int, dly: int)
    requires CaughtUpBy(start, timeUpdate, steps, currentMillis, dly)
    requires 0 <= ToI32(currentMillis - timeUpdate) && 0 < dly < 0x8000_0000
    ensures CaughtUpBy(start, ToU32(timeUpdate + dly), steps + 1, currentMillis, dly)
    ensures ToI32(currentMillis - ToU32(timeUpdate + dly)) == ToI32(currentMillis - timeUpdate) - dly
  {
    SignedStep(currentMillis, timeUpdate, dly);
    StepCongruent(start, steps, dly);
  }

  /** The time between two passes: one second while the display is awake, 50 ms
      while it sleeps so that a touch is noticed quickly. */
  function LoopDelay(awake: bool): u32 {
    if awake then 1000 else 50
  }

  /** The state the main loop keeps between passes. */
  class Station {
    var lastTimeSyncMillis: u32
    var lastUpdateMillis: u32
    var timeUpdate: u32
    var lastTouchedTime: u32
    var awake: bool
    const updateIntervalMillis: int
    const sleepDelaySeconds: int

    /** The state after start-up: the clock was synchronised at `syncedAt` (0 when
        that failed), nothing was updated yet, the display is awake, and both the
        next tick and the last touch are the start time. */
    constructor (startMillis: u32, syncedAt: u32, updateIntervalMinutes: int, sleepDelaySeconds: int)
      ensures lastTimeSyncMillis == syncedAt && lastUpdateMillis == 0
      ensures timeUpdate == startMillis && lastTouchedTime == startMillis && awake
      ensures updateIntervalMillis == updateIntervalMinutes * 60 * 1000
      ensures this.sleepDelaySeconds == sleepDelaySeconds
    {
      lastTimeSyncMillis := syncedAt;
      lastUpdateMillis := 0;
      timeUpdate := startMillis;
      lastTouchedTime := startMillis;
      awake := true;
      updateIntervalMillis := updateIntervalMinutes * 60 * 1000;
      this.sleepDelaySeconds := sleepDelaySeconds;
    }

    /** The catch-up loop with a wrap-safe guard: advance `timeUpdate` by `dly` while
        the reading has reached it, comparing by the signed 32-bit difference. It
        ends with `timeUpdate` ahead of the reading by a whole number of steps; when
        it had to catch up, at most one step ahead. */
    method CatchUp(currentMillis: u32, dly: u32) returns (ghost steps: nat)
      requires 0 < dly < 0x8000_0000
      modifies this
      ensures CatchUpOutcome(old(timeUpdate), currentMillis, dly, steps, timeUpdate)
      ensures lastTimeSyncMillis == old(lastTimeSyncMillis) && lastUpdateMillis == old(lastUpdateMillis)
      ensures lastTouchedTime == old(lastTouchedTime) && awake == old(awake)
    {
      var t := timeUpdate;
      steps := 0;
      while ToI32(currentMillis - t) >= 0
        invariant CaughtUpBy(timeUpdate, t, steps, currentMillis, dly)
        modifies {}
        decreases ToI32(currentMillis - t) + dly
      {
        CatchUpStep(timeUpdate, t, steps, currentMillis, dly);
        t := ToU32(t + dly);
        steps := steps + 1;
      }
      timeUpdate := t;
    }

    /** One pass of the main loop. `currentMillis` is the reading at the start,
        `repaintedAt` the reading after a repaint fetched new data and
        `afterDrawMillis` the reading after drawing; `wait` is the argument of the
        final `delay`. */
    method Loop(touched: bool, currentMillis: u32, repaintedAt: u32, afterDrawMillis: u32)
      returns (drawing: Drawing, wait: u32)
      modifies this
      ensures (awake, lastTouchedTime)
        == TouchStep(touched, old(awake), currentMillis, old(lastTouchedTime), sleepDelaySeconds)
      ensures drawing == Plan(awake, old(lastTimeSyncMillis), old(lastUpdateMillis), currentMillis, updateIntervalMillis)
      ensures lastUpdateMillis == if drawing == Repaint then repaintedAt else old(lastUpdateMillis)
      ensures lastTimeSyncMillis == old(lastTimeSyncMillis)
      ensures wait == ToU32(timeUpdate - afterDrawMillis) && 0 < wait
      ensures ToI32(afterDrawMillis - old(timeUpdate)) >= 0 ==> wait <= LoopDelay(awake)
      ensures ToI32(afterDrawMillis - old(timeUpdate)) < 0 ==> timeUpdate == old(timeUpdate)
      ensures exists k: nat :: CatchUpOutcome(old(timeUpdate), afterDrawMillis, LoopDelay(awake), k, timeUpdate)
    {
      var dly: u32 := 50;
      awake, lastTouchedTime := TouchStep(touched, awake, currentMillis, lastTouchedTime, sleepDelaySeconds).0,
                                TouchStep(touched, awake, currentMillis, lastTouchedTime, sleepDelaySeconds).1;
      drawing := Nothing;
      if awake {
        dly := 1000;
        if ShouldRepaint(lastTimeSyncMillis, lastUpdateMillis, currentMillis, updateIntervalMillis) {
          drawing := Repaint;
          lastUpdateMillis := repaintedAt;
        } else {
          drawing := TimeAndDate;
        }
      }
      ghost var steps := CatchUp(afterDrawMillis, dly);
      assert dly == LoopDelay(awake);
      WaitOfAhead(afterDrawMillis, timeUpdate);
      wait := ToU32(timeUpdate - afterDrawMillis);
    }
  }
}
