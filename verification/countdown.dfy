/**
 The master clock and its run flag: the one-second tick, the play/pause
 toggle and the reset to the longest item.
 */
module Countdown {
  import opened Items

  /** The master clock in seconds and whether it is counting down. */
  datatype Timer = Timer(time: nat, active: bool)

  /** A timer after one tick, and whether the tick rang the final bell. */
  datatype Tock = Tock(timer: Timer, bell: bool)

  /**
   One pass of the clock effect. While running with time left the clock loses
   a second, and the tick that leaves 1 stops the run and rings the bell. A
   running clock already at 0 is stopped without a tick. A paused clock stays
   as it is.
   */
  function Tick(t: Timer): (r: Tock)
    ensures t.active && t.time > 0 ==> r.timer.time == t.time - 1
    ensures !(t.active && t.time > 0) ==> r.timer.time == t.time
    ensures r.timer.active <==> t.active && t.time > 1
    ensures r.bell <==> t.active && t.time == 1
    ensures r.timer.active ==> r.timer.time > 0
  {
    if t.active && t.time > 0 then
      var last := t.time == 1;
      Tock(Timer(t.time - 1, if last then false else t.active), last)
    else if t.time == 0 then
      Tock(Timer(t.time, false), false)
    else
      Tock(t, false)
  }

  /** The play/pause button flips the run flag and nothing else. */
  function Toggle(t: Timer): (r: Timer)
    ensures r.time == t.time
    ensures r.active != t.active
  {
    Timer(t.time, !t.active)
  }

  /** Pausing and resuming gives back the timer it started from. */
  lemma ToggleTwice(t: Timer)
    ensures Toggle(Toggle(t)) == t
  {
  }

  /** Pressing play on a clock at 0 is undone by the very next pass of the clock effect. */
  lemma PlayAtZero(t: Timer)
    requires t.time == 0 && !t.active
    ensures Tick(Toggle(t)) == Tock(t, false)
  {
  }

  /** A stopped clock at 0 is a resting state: ticking changes nothing and rings nothing. */
  lemma StoppedAtZero()
    ensures Tick(Timer(0, false)) == Tock(Timer(0, false), false)
  {
  }

  /** The timer after `n` passes of the clock effect, and how many bells rang on the way. */
  datatype Run = Run(timer: Timer, bells: nat)

  function RunFor(t: Timer, n: nat): (r: Run)
    ensures r.timer.time <= t.time
    ensures !t.active ==> r.timer.time == t.time
    decreases n
  {
    if n == 0 then Run(t, 0)
    else
      var step := Tick(t);
      var rest := RunFor(step.timer, n - 1);
      Run(rest.timer, rest.bells + if step.bell then 1 else 0)
  }

  /** Before the last second a running clock is still running, `k` seconds lower, with no bell yet. */
  lemma {:induction false} RunBeforeEnd(time: nat, k: nat)
    requires k < time
    ensures RunFor(Timer(time, true), k) == Run(Timer(time - k, true), 0)
  {
    if k > 0 {
      RunBeforeEnd(time - 1, k - 1);
    }
  }

  /**
   A full countdown: a clock started at `time` seconds reaches 0 after exactly
   `time` ticks, stops, and rings the bell exactly once.
   */
  lemma {:induction false} FullCountdown(time: nat)
    requires time > 0
    ensures RunFor(Timer(time, true), time) == Run(Timer(0, false), 1)
  {
    RunBeforeEnd(time, time - 1);
    var before := RunFor(Timer(time, true), time - 1);
    RunSplit(Timer(time, true), time - 1, 1);
    assert RunFor(before.timer, 1) == Run(Timer(0, false), 1);
  }

  /** Running `a` then `b` passes is running `a + b` passes. */
  lemma {:induction false} RunSplit(t: Timer, a: nat, b: nat)
    ensures RunFor(t, a + b).timer == RunFor(RunFor(t, a).timer, b).timer
    ensures RunFor(t, a + b).bells == RunFor(t, a).bells + RunFor(RunFor(t, a).timer, b).bells
    decreases a
  {
    if a > 0 {
      RunSplit(Tick(t).timer, a - 1, b);
      assert a + b - 1 == (a - 1) + b;
    }
  }

  /** Reset stops the run and sets the clock to the longest item, or 0 for no items. */
  function Reset(items: seq<Item>): (r: Timer)
    ensures !r.active
    ensures forall i :: 0 <= i < |items| ==> items[i].duration <= r.time
    ensures |items| == 0 ==> r.time == 0
    ensures |items| > 0 ==> exists i :: 0 <= i < |items| && items[i].duration == r.time
  {
    Timer(Longest(items), false)
  }
}
