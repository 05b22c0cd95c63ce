/** The statistics timer that works from absolute targets (stats.go), the start gate it feeds
    (serverui.go), and the two assumptions of other modules it discharges. */
module Ticker {
  import opened Time
  import opened Throttle
  import RateBound
  import StartSync

  /** One turn of the timer loop: how much longer than asked a sleep lasts, and how long the
      emission takes. */
  datatype Lap = Lap(overshoot: nat, emission: nat)

  /** The instant the k-th emission, counted from 0, is aimed at. */
  function Target(start: int, k: nat): int {
    start + (k + 1) * SECOND
  }

  /** When the loop comes round to its k-th turn, and when that turn emits. */
  function ReadyAt(start: int, began: int, laps: seq<Lap>, k: nat): int
    requires k <= |laps|
    decreases k, 0
  {
    if k == 0 then began else EmitAt(start, began, laps, k - 1) + laps[k - 1].emission
  }

  function EmitAt(start: int, began: int, laps: seq<Lap>, k: nat): int
    requires k < |laps|
    decreases k, 1
  {
    var ready := ReadyAt(start, began, laps, k);
    if Target(start, k) > ready then Target(start, k) + laps[k].overshoot else ready
  }

  /** The timer loop, for as many laps as it stays enabled. */
  method StatsTimerAt(start: int, began: int, laps: seq<Lap>) returns (emits: seq<int>)
    ensures |emits| == |laps|
    ensures forall k :: 0 <= k < |laps| ==> emits[k] == EmitAt(start, began, laps, k) >= Target(start, k)
  {
    emits := [];
    var interval, now := 1, began;
    while |emits| < |laps|
      invariant |emits| <= |laps| && interval == |emits| + 1
      invariant now == ReadyAt(start, began, laps, |emits|)
      invariant forall k :: 0 <= k < |emits| ==> emits[k] == EmitAt(start, began, laps, k) >= Target(start, k)
    {
      var lap := laps[|emits|];
      var targetTime := start + interval * SECOND;
      var sleepDuration := targetTime - now;
      if sleepDuration > 0 {
        now := now + sleepDuration + lap.overshoot;
      }
      emits := emits + [now];
      now := now + lap.emission;
      interval := interval + 1;
    }
  }

  function Max(a: int, b: int): int {
    if a < b then b else a
  }

  /** No sleep overshoots by more than `overshoot` and no emission takes more than `emission`. */
  ghost predicate Bounded(laps: seq<Lap>, overshoot: nat, emission: nat) {
    forall k :: 0 <= k < |laps| ==> laps[k].overshoot <= overshoot && laps[k].emission <= emission
  }

  /** Lateness does not accumulate: a timer that begins late wins back, lap by lap, what its emissions
      leave of each second, until it is late by no more than one sleep's overshoot. */
  lemma {:induction false} CatchesUp(start: int, began: int, laps: seq<Lap>, overshoot: nat, emission: nat, k: nat)
    requires Bounded(laps, overshoot, emission) && emission <= SECOND && k < |laps|
    ensures EmitAt(start, began, laps, k) - Target(start, k)
              <= Max(overshoot, began - Target(start, 0) - k * (SECOND - emission))
  {
    if k > 0 {
      CatchesUp(start, began, laps, overshoot, emission, k - 1);
      assert k * (SECOND - emission) == (k - 1) * (SECOND - emission) + (SECOND - emission);
    }
  }

  /** A timer started before its first target whose emissions fit in a second. */
  ghost predicate Punctual(start: int, began: int, laps: seq<Lap>, overshoot: nat) {
    began <= Target(start, 0) && Bounded(laps, overshoot, SECOND)
  }

  /** For ever after, each emission is at its target or late by at most one overshoot. */
  lemma NoDrift(start: int, began: int, laps: seq<Lap>, overshoot: nat, k: nat)
    requires Punctual(start, began, laps, overshoot) && k < |laps|
    ensures Target(start, k) <= EmitAt(start, began, laps, k) <= Target(start, k) + overshoot
  {
    CatchesUp(start, began, laps, overshoot, SECOND, k);
  }

  /** The tick the statistics code remembers when the k-th emission begins. */
  function LastTick(start: int, began: int, laps: seq<Lap>, k: nat): int
    requires k <= |laps|
  {
    if k == 0 then start else EmitAt(start, began, laps, k - 1)
  }

  /** Ticks of a punctual timer are a second apart, give or take the overshoot. */
  lemma TickSpacing(start: int, began: int, laps: seq<Lap>, overshoot: nat, k: nat)
    requires Punctual(start, began, laps, overshoot) && k < |laps|
    ensures var d := EmitAt(start, began, laps, k) - LastTick(start, began, laps, k);
            SECOND - overshoot <= d <= SECOND + overshoot
  {
    hide EmitAt;
    NoDrift(start, began, laps, overshoot, k);
    if k > 0 {
      NoDrift(start, began, laps, overshoot, k - 1);
    }
  }

  // ---------------------------------------------------------------- the start gate

  /** The length attributed to the interval that ends when emitStats reads the clock at `read`. */
  function Span(previous: int, read: int): int {
    if read - previous < SECOND then SECOND else read - previous
  }

  /** Whether the gate holds a test back: it started well after the interval that ended at `last`
      began. */
  predicate StartedLate(startTime: int, last: int, span: int) {
    startTime > last - span + MARGIN
  }

  /** No test that had started by the previous tick is held back, exactly if the tick comes no more than
      50 ms before a second has passed. */
  lemma GateExact(previous: int, read: int, last: int)
    requires read <= last
    ensures (forall startTime :: startTime <= previous ==> !StartedLate(startTime, last, Span(previous, read)))
              <==> last - previous >= SECOND - MARGIN
  {
    if last - previous < SECOND - MARGIN {
      assert StartedLate(previous, last, Span(previous, read));
    }
  }

  /** An emission no more than 50 ms early lets every such test through. */
  lemma GateProgress(previous: int, read: int, last: int, startTime: int)
    requires read <= last && read - previous >= SECOND - MARGIN && startTime <= previous
    ensures !StartedLate(startTime, last, Span(previous, read))
  {
  }

  // ---------------------------------------------------------------- what a punctual timer guarantees

  /** If sleeps overshoot by at most 50 ms, no tick ever suppresses a test that had started by the
      previous one. */
  lemma TimerKeepsGateOpen(start: int, began: int, laps: seq<Lap>, overshoot: nat, k: nat, startTime: int)
    requires Punctual(start, began, laps, overshoot) && overshoot <= MARGIN && k < |laps|
    requires startTime <= LastTick(start, began, laps, k)
    ensures var at := EmitAt(start, began, laps, k);
            !StartedLate(startTime, at, Span(LastTick(start, began, laps, k), at))
  {
    TickSpacing(start, began, laps, overshoot, k);
    var at := EmitAt(start, began, laps, k);
    GateProgress(LastTick(start, began, laps, k), at, at, startTime);
  }

  /** How late the k-th emission is. */
  function Lateness(start: int, began: int, laps: seq<Lap>, k: nat): int
    requires k < |laps|
  {
    EmitAt(start, began, laps, k) - Target(start, k)
  }

  /** A tick of a punctual timer suppresses no test that had started by the previous one, exactly if it is
      not more than 50 ms less late than that one was; the first never does. */
  lemma TimerGateExact(start: int, began: int, laps: seq<Lap>, overshoot: nat, k: nat)
    requires Punctual(start, began, laps, overshoot) && k < |laps|
    ensures var at, last := EmitAt(start, began, laps, k), LastTick(start, began, laps, k);
            (forall startTime :: startTime <= last ==> !StartedLate(startTime, at, Span(last, at)))
              <==> k == 0 || Lateness(start, began, laps, k - 1) - Lateness(start, began, laps, k) <= MARGIN
  {
    var at, last := EmitAt(start, began, laps, k), LastTick(start, began, laps, k);
    GateExact(last, at, at);
    NoDrift(start, began, laps, overshoot, k);
    hide StartedLate, Span;
    if k > 0 {
      assert at - last == SECOND + Lateness(start, began, laps, k) - Lateness(start, began, laps, k - 1);
    }
  }

  /** Any one sleep that overshoots by more than 50 ms, and less than a second, makes the timer suppress at
      the next tick a test that started with this one. */
  lemma TimerSuppresses(start: int, o: nat)
    requires MARGIN < o < SECOND
    ensures var laps := [Lap(o, 0), Lap(0, 0)];
            && Punctual(start, start, laps, o)
            && var first, second := EmitAt(start, start, laps, 0), EmitAt(start, start, laps, 1);
               LastTick(start, start, laps, 1) == first && StartedLate(first, second, Span(first, second))
  {
    var laps := [Lap(o, 0), Lap(0, 0)];
    assert EmitAt(start, start, laps, 0) == start + SECOND + o;
    assert ReadyAt(start, start, laps, 1) == start + SECOND + o;
  }

  /** If sleeps overshoot by less than 50 ms less the jitter, every quota window of a sender starts in
      time, whenever between two ticks it starts. */
  lemma TimerKeepsSendersInTime(start: int, began: int, laps: seq<Lap>, overshoot: nat, k: nat,
                                t: Readings, jitter: nat)
    requires Punctual(start, began, laps, overshoot) && overshoot + jitter < MARGIN && k < |laps|
    requires t.last == LastTick(start, began, laps, k) && t.read <= EmitAt(start, began, laps, k)
    requires t.woke <= t.read <= t.woke + jitter
    ensures RateBound.InTime(t, jitter)
  {
    TickSpacing(start, began, laps, overshoot, k);
  }

  function Earlier(a: int, b: int): int {
    if a < b then a else b
  }

  /** Three ticks in a row. A test whose server learnt from the first when to expect the second, and started
      `lag` after that moment, is held back at the third exactly if the lag exceeds by more than 50 ms what
      the second, or the instant a second before the third, is late. */
  lemma FirstIntervalExact(first: int, second: int, third: int, lag: int)
    ensures StartedLate(first + SECOND + lag, third, Span(second, third)) <==>
              lag > Earlier(second, third - SECOND) - (first + SECOND) + MARGIN
  {
  }

  /** In multi-client mode that lag is the delay of the server's answer and of SyncGo: over a longer link
      the first interval is discarded. With ticks on the second the limit is 50 ms. */
  lemma FirstIntervalOverLink(x: StartSync.Exchange, first: int, second: int, third: int)
    requires x.Representable() && !x.oneClient && x.Delay() >= 0 && x.tick == first + SECOND
    ensures StartedLate(x.ServerStarts(), third, Span(second, third)) <==>
              x.dReady + x.dGo > Earlier(second, third - SECOND) - x.tick + MARGIN
    ensures second == x.tick && third == x.tick + SECOND ==>
              (StartedLate(x.ServerStarts(), third, Span(second, third)) <==> x.dReady + x.dGo > MARGIN)
  {
    StartSync.TickSkew(x);
    FirstIntervalExact(first, second, third, x.dReady + x.dGo);
  }

  /** If every tick is late by at most `overshoot`, lag and overshoot that fit in 50 ms are enough to be
      reported, and a lag beyond both is too much. */
  lemma FirstIntervalReported(target: int, first: int, second: int, third: int, overshoot: nat, lag: nat)
    requires target - SECOND <= first <= target - SECOND + overshoot
    requires target <= second <= target + overshoot
    requires target + SECOND <= third <= target + SECOND + overshoot
    ensures overshoot + lag <= MARGIN ==> !StartedLate(first + SECOND + lag, third, Span(second, third))
    ensures lag > MARGIN + overshoot ==> StartedLate(first + SECOND + lag, third, Span(second, third))
  {
    FirstIntervalExact(first, second, third, lag);
  }
}
