/** The statistics goroutine among everybody else (serverui.go, stats.go, server.go): a report call is a
    row of atomic steps, and between any two of them handlers add to counters and handshakes set start
    times. Counters are swapped out; what became of each amount is read off the calls made. */
module Reporting {
  import opened Wire
  import opened Time
  import opened Ticker
  import opened ServerStats

  /** The counters a report takes: bytes, connections and packets. */
  datatype Which = Bw | Cps | Pps
  datatype Amounts = Amounts(bw: nat, cps: nat, pps: nat)

  function Part(a: Amounts, w: Which): nat {
    match w case Bw => a.bw case Cps => a.cps case Pps => a.pps
  }

  /** A completed call: what it swapped out of the test's counters, and the row it showed. */
  datatype Call = Call(test: nat, proto: Protocol, iv: Interval, taken: Amounts, held: bool, row: Option<Row>)

  /** A completed tick. */
  datatype Tick = Tick(calls: seq<Call>, iv: Interval, sums: map<Protocol, Option<Totals>>)

  /** Where a call stands: before the start gate, about to clear the start time, about to add the rate,
      about to take the other counters, about to show the row; or, held back, about to drop them. */
  datatype Phase = Gate | Clear | AddRate | Others | Show | DropCps | DropPps

  datatype Collector =
    | Idle
    | Ready
    | Busy(phase: Phase, test: nat, proto: Protocol, taken: Amounts)

  datatype System = System(tests: map<nat, Counters>, at: Collector, iv: Interval,
                           aggs: map<Protocol, Totals>, calls: seq<Call>, ticks: seq<Tick>)

  datatype Event =
    | Create(t: nat, startTime: int)
    | Add(t: nat, amounts: Amounts)
    | Touch(t: nat, isDormant: bool, latency: nat)
    | Sync(t: nat, startTime: int)
    | Delete(t: nat)
    | BeginTick(read: int, last: int)
    | StartCall(t: nat, proto: Protocol)
    | NextStep
    | EndTick

  const NO_SUMS := map[TCP := ZERO, UDP := ZERO, ICMP := ZERO]

  /** Before the first tick, the latest is the instant the timer started. */
  function Init(start: int): System {
    System(map[], Idle, Interval(start, SECOND), NO_SUMS, [], [])
  }

  // ---------------------------------------------------------------- the steps of a call

  function ShownRow(taken: Amounts, proto: Protocol, iv: Interval, isDormant: bool, latency: nat): Option<Row>
    requires Proper(iv)
  {
    var bw, cps, pps := Rate(taken.bw, iv), Rate(taken.cps, iv), Rate(taken.pps, iv);
    var lat := if proto == TCP then latency else 0;
    if isDormant && bw == 0 && (proto == TCP ==> cps == 0) && (proto == UDP ==> pps == 0) && lat == 0 then None
    else Some(Row(bw, if proto == TCP then Some(cps) else None, if proto == UDP then Some(pps) else None,
                  if lat > 0 then Some(lat) else None))
  }

  ghost predicate Working(s: System) {
    s.at.Busy? && s.at.test in s.tests && s.at.proto in s.aggs && Proper(s.iv)
  }

  /** One atomic step of the call in progress. */
  function Proceed(s: System): System
    requires Working(s)
  {
    var Busy(phase, t, proto, taken) := s.at;
    var c, agg := s.tests[t], s.aggs[proto];
    match phase
    case Gate =>
      s.(at := s.at.(phase := if !c.started then AddRate else if HeldBack(c, s.iv) then DropCps else Clear))
    case Clear => s.(tests := s.tests[t := c.(started := false)], at := s.at.(phase := AddRate))
    case AddRate =>
      s.(aggs := s.aggs[proto := agg.(bw := agg.bw + Rate(taken.bw, s.iv), cbw := agg.cbw + 1)],
         at := s.at.(phase := Others))
    case Others =>
      if proto == TCP then
        s.(tests := s.tests[t := c.(cps := 0)],
           aggs := s.aggs[proto := agg.(cps := agg.cps + Rate(c.cps, s.iv), ccps := agg.ccps + 1)],
           at := Busy(Show, t, proto, taken.(cps := c.cps)))
      else if proto == UDP then
        s.(tests := s.tests[t := c.(pps := 0)],
           aggs := s.aggs[proto := agg.(pps := agg.pps + Rate(c.pps, s.iv), cpps := agg.cpps + 1)],
           at := Busy(Show, t, proto, taken.(pps := c.pps)))
      else s.(at := s.at.(phase := Show))
    case Show =>
      s.(calls := s.calls + [Call(t, proto, s.iv, taken, false, ShownRow(taken, proto, s.iv, c.isDormant, c.latency))],
         at := Ready)
    case DropCps => s.(tests := s.tests[t := c.(cps := 0)], at := Busy(DropPps, t, proto, taken.(cps := c.cps)))
    case DropPps =>
      s.(tests := s.tests[t := c.(pps := 0)],
         calls := s.calls + [Call(t, proto, s.iv, taken.(pps := c.pps), true, None)], at := Ready)
  }

  ghost predicate Enabled(s: System, e: Event) {
    match e
    case Create(t, _) => t !in s.tests
    case Add(t, _) => t in s.tests
    case Touch(t, _, _) => t in s.tests
    case Sync(t, _) => t in s.tests
    // Sessions and tests go only while no report holds the session lock.
    case Delete(t) => s.at.Idle? && t in s.tests
    case BeginTick(read, last) => s.at.Idle? && s.iv.last <= read <= last
    case StartCall(t, _) => s.at.Ready? && t in s.tests
    case NextStep => Working(s)
    case EndTick => s.at.Ready? && forall p: Protocol :: p in s.aggs
  }

  ghost function After(s: System, e: Event): System
    requires Enabled(s, e)
  {
    match e
    case Create(t, startTime) => s.(tests := s.tests[t := Counters(0, 0, 0, 0, true, true, true, startTime)])
    case Add(t, a) =>
      var c := s.tests[t];
      s.(tests := s.tests[t := c.(bw := c.bw + a.bw, cps := c.cps + a.cps, pps := c.pps + a.pps)])
    case Touch(t, d, l) => s.(tests := s.tests[t := s.tests[t].(isDormant := d, latency := l)])
    case Sync(t, startTime) => s.(tests := s.tests[t := s.tests[t].(started := true, startTime := startTime)])
    case Delete(t) => s.(tests := s.tests - {t})
    case BeginTick(read, last) => s.(at := Ready, iv := Interval(last, Span(s.iv.last, read)))
    case StartCall(t, proto) =>
      var c := s.tests[t];
      if !c.isActive then s
      else s.(tests := s.tests[t := c.(bw := 0)], at := Busy(Gate, t, proto, Amounts(c.bw, 0, 0)))
    case NextStep => Proceed(s)
    case EndTick =>
      var sums := map[TCP := SumRow(s.aggs[TCP]), UDP := SumRow(s.aggs[UDP]), ICMP := SumRow(s.aggs[ICMP])];
      s.(at := Idle, aggs := NO_SUMS, calls := [], ticks := s.ticks + [Tick(s.calls, s.iv, sums)])
  }

  ghost predicate LegalRun(s: System, es: seq<Event>)
    decreases |es|
  {
    |es| == 0 || (Enabled(s, es[0]) && LegalRun(After(s, es[0]), es[1..]))
  }

  ghost function Run(s: System, es: seq<Event>): System
    requires LegalRun(s, es)
    decreases |es|
  {
    if |es| == 0 then s else Run(After(s, es[0]), es[1..])
  }

  // ---------------------------------------------------------------- where amounts go

  /** What calls have swapped out of one of a test's counters: calls that showed it, or held it back. */
  function Swapped(calls: seq<Call>, t: nat, held: bool, w: Which): nat {
    if |calls| == 0 then 0
    else
      var last := calls[|calls| - 1];
      Swapped(calls[..|calls| - 1], t, held, w) + if last.test == t && last.held == held then Part(last.taken, w) else 0
  }

  function SwappedInTicks(ticks: seq<Tick>, t: nat, held: bool, w: Which): nat {
    if |ticks| == 0 then 0
    else SwappedInTicks(ticks[..|ticks| - 1], t, held, w) + Swapped(ticks[|ticks| - 1].calls, t, held, w)
  }

  function Reported(s: System, t: nat, w: Which): nat {
    SwappedInTicks(s.ticks, t, false, w) + Swapped(s.calls, t, false, w)
  }

  function Discarded(s: System, t: nat, w: Which): nat {
    SwappedInTicks(s.ticks, t, true, w) + Swapped(s.calls, t, true, w)
  }

  function InFlight(s: System, t: nat, w: Which): nat {
    if s.at.Busy? && s.at.test == t then Part(s.at.taken, w) else 0
  }

  function Counter(s: System, t: nat, w: Which): nat {
    if t !in s.tests then 0
    else match w case Bw => s.tests[t].bw case Cps => s.tests[t].cps case Pps => s.tests[t].pps
  }

  function AddedBy(e: Event, t: nat, w: Which): nat {
    if e.Add? && e.t == t then Part(e.amounts, w) else 0
  }

  /** What the handlers added to one of a test's counters in a run. */
  function Added(es: seq<Event>, t: nat, w: Which): nat {
    if |es| == 0 then 0 else AddedBy(es[0], t, w) + Added(es[1..], t, w)
  }

  function LostBy(s: System, e: Event, t: nat, w: Which): nat {
    if e.Delete? && e.t == t then Counter(s, t, w) else 0
  }

  /** What was still in one of a test's counters when it was deleted. */
  ghost function Lost(s: System, es: seq<Event>, t: nat, w: Which): nat
    requires LegalRun(s, es)
    decreases |es|
  {
    if |es| == 0 then 0 else LostBy(s, es[0], t, w) + Lost(After(s, es[0]), es[1..], t, w)
  }

  lemma SwappedMore(calls: seq<Call>, call: Call, t: nat, held: bool, w: Which)
    ensures Swapped(calls + [call], t, held, w)
         == Swapped(calls, t, held, w) + if call.test == t && call.held == held then Part(call.taken, w) else 0
  {
    assert (calls + [call])[..|calls|] == calls;
  }

  lemma TicksMore(ticks: seq<Tick>, tick: Tick, t: nat, held: bool, w: Which)
    ensures SwappedInTicks(ticks + [tick], t, held, w)
         == SwappedInTicks(ticks, t, held, w) + Swapped(tick.calls, t, held, w)
    ensures Swapped([], t, held, w) == 0
  {
    assert (ticks + [tick])[..|ticks|] == ticks;
  }

  /** A call holds no amount it has not taken yet. */
  ghost predicate Tidy(at: Collector) {
    at.Busy? ==>
      && (at.phase.Show? ==> (at.proto != TCP ==> at.taken.cps == 0) && (at.proto != UDP ==> at.taken.pps == 0))
      && (at.phase.DropPps? ==> at.taken.pps == 0)
      && (!at.phase.Show? && !at.phase.DropPps? ==> at.taken.cps == at.taken.pps == 0)
  }

  lemma StaysTidy(s: System, e: Event)
    requires Enabled(s, e) && Tidy(s.at)
    ensures Tidy(After(s, e).at)
  {
    hide SumRow, Rate, HeldBack, ShownRow;
  }

  predicate Finishing(p: Phase) {
    p.Show? || p.DropPps?
  }

  lemma MovesOn(s: System, t: nat, w: Which)
    requires Working(s) && Tidy(s.at) && !Finishing(s.at.phase)
    ensures var s' := Proceed(s);
            && s'.ticks == s.ticks && s'.calls == s.calls
            && InFlight(s', t, w) + Counter(s', t, w) == InFlight(s, t, w) + Counter(s, t, w)
  {
    hide Rate, HeldBack, ShownRow;
  }

  lemma Finishes(s: System, t: nat, w: Which)
    requires Working(s) && Tidy(s.at) && Finishing(s.at.phase)
    ensures var s' := Proceed(s);
            && s'.ticks == s.ticks && |s'.calls| == |s.calls| + 1
            && var call := s'.calls[|s.calls|];
               && s'.calls == s.calls + [call] && call.test == s.at.test && call.held == s.at.phase.DropPps?
               && (if call.test == t then Part(call.taken, w) else 0) + InFlight(s', t, w) + Counter(s', t, w)
                  == InFlight(s, t, w) + Counter(s, t, w)
  {
    hide Rate, HeldBack, ShownRow;
  }

  function Ledger(s: System, t: nat, w: Which): nat {
    Reported(s, t, w) + Discarded(s, t, w) + InFlight(s, t, w) + Counter(s, t, w)
  }

  lemma ProceedBalances(s: System, t: nat, w: Which)
    requires Working(s) && Tidy(s.at)
    ensures Ledger(Proceed(s), t, w) == Ledger(s, t, w)
  {
    hide Swapped, SwappedInTicks, InFlight, Counter, Proceed, Part;
    if Finishing(s.at.phase) {
      Finishes(s, t, w);
      var call := Proceed(s).calls[|s.calls|];
      SwappedMore(s.calls, call, t, false, w);
      SwappedMore(s.calls, call, t, true, w);
    } else {
      MovesOn(s, t, w);
    }
  }

  lemma OthersBalance(s: System, e: Event, t: nat, w: Which)
    requires Enabled(s, e) && Tidy(s.at) && !e.NextStep?
    ensures InFlight(After(s, e), t, w) + Counter(After(s, e), t, w) + LostBy(s, e, t, w)
         == InFlight(s, t, w) + Counter(s, t, w) + AddedBy(e, t, w)
  {
    hide SumRow;
  }

  lemma StepBalances(s: System, e: Event, t: nat, w: Which)
    requires Enabled(s, e) && Tidy(s.at)
    ensures Ledger(After(s, e), t, w) + LostBy(s, e, t, w) == Ledger(s, t, w) + AddedBy(e, t, w)
  {
    hide Swapped, SwappedInTicks, InFlight, Counter, Proceed, Part, SumRow;
    if e.NextStep? {
      ProceedBalances(s, t, w);
    } else {
      OthersBalance(s, e, t, w);
      if e.EndTick? {
        var tick := After(s, e).ticks[|s.ticks|];
        TicksMore(s.ticks, tick, t, false, w);
        TicksMore(s.ticks, tick, t, true, w);
      }
    }
  }

  lemma {:induction false} RunBalances(s: System, es: seq<Event>, t: nat, w: Which)
    requires LegalRun(s, es) && Tidy(s.at)
    ensures Ledger(Run(s, es), t, w) + Lost(s, es, t, w) == Ledger(s, t, w) + Added(es, t, w)
    decreases |es|
  {
    hide Ledger, After, Tidy, AddedBy, LostBy;
    if |es| > 0 {
      StepBalances(s, es[0], t, w);
      StaysTidy(s, es[0]);
      RunBalances(After(s, es[0]), es[1..], t, w);
    }
  }

  /** Over every interleaving, whatever the handlers added to a counter of a test has been swapped out by a
      call that showed it, or by one that held it back, is in the hands of the call in progress, is still
      in the counter, or was in it when the test was deleted. */
  lemma BytesConserved(start: int, es: seq<Event>, t: nat, w: Which)
    requires LegalRun(Init(start), es)
    ensures var s := Run(Init(start), es);
            Added(es, t, w) == Reported(s, t, w) + Discarded(s, t, w) + InFlight(s, t, w) + Counter(s, t, w)
                               + Lost(Init(start), es, t, w)
  {
    RunBalances(Init(start), es, t, w);
  }

  // ---------------------------------------------------------------- what was shown

  /** The row of a call shows what it swapped out, per second; a row is missing only where the call held the
      test back, or where no rate in it comes to one per second. */
  ghost predicate RowTells(call: Call) {
    var bw, cps, pps, iv := call.taken.bw, call.taken.cps, call.taken.pps, call.iv;
    match call.row
    case None =>
      call.held || (PerSecond(0, bw, iv) && (call.proto == TCP ==> PerSecond(0, cps, iv))
                    && (call.proto == UDP ==> PerSecond(0, pps, iv)))
    case Some(row) =>
      && !call.held && PerSecond(row.bw, bw, iv)
      && (row.cps.Some? <==> call.proto == TCP) && (row.cps.Some? ==> PerSecond(row.cps.value, cps, iv))
      && (row.pps.Some? <==> call.proto == UDP) && (row.pps.Some? ==> PerSecond(row.pps.value, pps, iv))
  }

  /** What a call adds to the sums of a protocol: the rates in its row. */
  function CallTotals(call: Call, p: Protocol): Totals {
    if call.held || call.proto != p then ZERO
    else
      var tcp, udp := if p == TCP then 1 else 0, if p == UDP then 1 else 0;
      match call.row
      case None => Totals(0, 0, 0, 1, tcp, udp)
      case Some(row) => Totals(row.bw, if row.cps.Some? then row.cps.value else 0,
                               if row.pps.Some? then row.pps.value else 0, 1, tcp, udp)
  }

  /** All of an interval's calls do. */
  ghost predicate AllTell(calls: seq<Call>, iv: Interval) {
    forall i :: 0 <= i < |calls| ==> RowTells(calls[i]) && calls[i].iv == iv
  }

  function CallsTotal(calls: seq<Call>, p: Protocol): Totals {
    if |calls| == 0 then ZERO
    else Plus(CallsTotal(calls[..|calls| - 1], p), CallTotals(calls[|calls| - 1], p))
  }

  /** Each sum row of a completed tick is the sum of the rates in that tick's rows. */
  ghost predicate SumsTell(tick: Tick) {
    && Proper(tick.iv) && AllTell(tick.calls, tick.iv)
    && forall p: Protocol :: p in tick.sums && tick.sums[p] == SumRow(CallsTotal(tick.calls, p))
  }

  /** What the call in progress has already added. */
  function Partial(s: System, p: Protocol): Totals
    requires Proper(s.iv)
  {
    if !s.at.Busy? || s.at.proto != p then ZERO
    else
      var taken := s.at.taken;
      match s.at.phase
      case Others => Totals(Rate(taken.bw, s.iv), 0, 0, 1, 0, 0)
      case Show => Totals(Rate(taken.bw, s.iv), if p == TCP then Rate(taken.cps, s.iv) else 0,
                          if p == UDP then Rate(taken.pps, s.iv) else 0,
                          1, if p == TCP then 1 else 0, if p == UDP then 1 else 0)
      case _ => ZERO
  }

  /** The sums of a protocol so far. */
  ghost predicate SumSoFar(s: System, p: Protocol)
    requires Proper(s.iv)
  {
    p in s.aggs && s.aggs[p] == Plus(CallsTotal(s.calls, p), Partial(s, p))
  }

  ghost predicate Telling(s: System) {
    && Proper(s.iv) && AllTell(s.calls, s.iv)
    && (forall p: Protocol :: SumSoFar(s, p))
    && (s.at.Idle? ==> s.calls == [])
    && (forall i :: 0 <= i < |s.ticks| ==> SumsTell(s.ticks[i]))
  }

  lemma CallsTotalMore(calls: seq<Call>, call: Call, p: Protocol)
    ensures CallsTotal(calls + [call], p) == Plus(CallsTotal(calls, p), CallTotals(call, p))
  {
    assert (calls + [call])[..|calls|] == calls;
  }

  lemma MovingSums(s: System, p: Protocol)
    requires Working(s) && Tidy(s.at) && AllTell(s.calls, s.iv) && SumSoFar(s, p) && !Finishing(s.at.phase)
    ensures var s' := Proceed(s); s'.calls == s.calls && s'.iv == s.iv && SumSoFar(s', p)
  {
    hide Rate, HeldBack, ShownRow, CallsTotal, RowTells;
  }

  lemma FinishingTells(s: System)
    requires Working(s) && Tidy(s.at) && Finishing(s.at.phase)
    ensures var s' := Proceed(s);
            && |s'.calls| == |s.calls| + 1 && s'.calls == s.calls + [s'.calls[|s.calls|]]
            && RowTells(s'.calls[|s.calls|]) && s'.calls[|s.calls|].iv == s.iv && s'.iv == s.iv && s'.aggs == s.aggs
            && (forall p :: CallTotals(s'.calls[|s.calls|], p) == Partial(s, p) && Partial(s', p) == ZERO)
  {
    hide Rate, HeldBack, PerSecond;
    var taken := Proceed(s).calls[|s.calls|].taken;
    RateIsPerSecond(taken.bw, s.iv);
    RateIsPerSecond(taken.cps, s.iv);
    RateIsPerSecond(taken.pps, s.iv);
  }

  lemma FinishingSums(s: System, p: Protocol)
    requires Working(s) && Tidy(s.at) && AllTell(s.calls, s.iv) && SumSoFar(s, p) && Finishing(s.at.phase)
    ensures var s' := Proceed(s); Proper(s'.iv) && AllTell(s'.calls, s'.iv) && SumSoFar(s', p)
  {
    hide Proceed, CallTotals, Partial, RowTells, CallsTotal;
    FinishingTells(s);
    CallsTotalMore(s.calls, Proceed(s).calls[|s.calls|], p);
  }

  lemma ProceedSums(s: System, p: Protocol)
    requires Working(s) && Tidy(s.at) && AllTell(s.calls, s.iv) && SumSoFar(s, p)
    ensures var s' := Proceed(s); Proper(s'.iv) && AllTell(s'.calls, s'.iv) && SumSoFar(s', p)
  {
    hide SumSoFar, AllTell, Proceed;
    if Finishing(s.at.phase) {
      FinishingSums(s, p);
    } else {
      MovingSums(s, p);
    }
  }

  lemma ProceedTells(s: System)
    requires Working(s) && Tidy(s.at) && Telling(s)
    ensures Telling(Proceed(s))
  {
    hide SumSoFar, SumsTell, AllTell, Rate, HeldBack, ShownRow;
    var s' := Proceed(s);
    ProceedSums(s, TCP);
    forall p: Protocol
      ensures SumSoFar(s', p)
    {
      ProceedSums(s, p);
    }
  }

  lemma NoCallsTotal(p: Protocol)
    ensures CallsTotal([], p) == ZERO
  {
  }

  lemma PlusZero(x: Totals)
    ensures Plus(x, ZERO) == x
  {
  }

  /** Between ticks nothing has been added up. */
  lemma IdleSum(s: System, p: Protocol)
    requires s.at.Idle? && s.calls == [] && s.aggs == NO_SUMS && Proper(s.iv)
    ensures AllTell(s.calls, s.iv) && SumSoFar(s, p)
  {
    hide CallsTotal, RowTells, Rate, Plus;
    NoCallsTotal(p);
    PlusZero(ZERO);
    match p case TCP => case UDP => case ICMP =>
  }

  /** Between calls the sums are those of the calls made. */
  lemma ReadySum(s: System, p: Protocol)
    requires s.at.Ready? && Proper(s.iv) && SumSoFar(s, p)
    ensures s.aggs[p] == CallsTotal(s.calls, p)
  {
    hide CallsTotal, RowTells, Plus;
    PlusZero(CallsTotal(s.calls, p));
  }

  lemma EndTells(s: System)
    requires Enabled(s, EndTick) && Telling(s)
    ensures Telling(After(s, EndTick))
  {
    hide CallsTotal, RowTells, SumSoFar, Plus, SumRow;
    var s' := After(s, EndTick);
    var tick := s'.ticks[|s.ticks|];
    forall p: Protocol
      ensures p in tick.sums && tick.sums[p] == SumRow(CallsTotal(tick.calls, p))
    {
      ReadySum(s, p);
      match p case TCP => case UDP => case ICMP =>
    }
    assert SumsTell(tick);
    IdleSum(s', TCP);
    hide SumsTell, AllTell;
    forall p: Protocol
      ensures SumSoFar(s', p)
    {
      IdleSum(s', p);
    }
    forall i | 0 <= i < |s'.ticks|
      ensures SumsTell(s'.ticks[i])
    {
      assert i < |s.ticks| ==> s'.ticks[i] == s.ticks[i];
    }
  }

  lemma StepTells(s: System, e: Event)
    requires Enabled(s, e) && Tidy(s.at) && Telling(s)
    ensures Telling(After(s, e))
  {
    hide SumsTell, CallsTotal, RowTells, Proceed;
    if e.NextStep? {
      ProceedTells(s);
    } else if e.EndTick? {
      EndTells(s);
    } else {
      var s' := After(s, e);
      forall p: Protocol
        ensures Proper(s'.iv) && AllTell(s'.calls, s'.iv) && SumSoFar(s', p)
      {
        assert SumSoFar(s, p);
      }
    }
  }

  lemma {:induction false} RunTells(s: System, es: seq<Event>)
    requires LegalRun(s, es) && Tidy(s.at) && Telling(s)
    ensures Telling(Run(s, es))
    decreases |es|
  {
    hide Telling, After, Tidy;
    if |es| > 0 {
      StepTells(s, es[0]);
      StaysTidy(s, es[0]);
      RunTells(After(s, es[0]), es[1..]);
    }
  }

  lemma InitTells(start: int)
    ensures Telling(Init(start))
  {
    hide SumSoFar, SumsTell, AllTell;
    forall p: Protocol
      ensures AllTell([], Init(start).iv) && SumSoFar(Init(start), p)
    {
      IdleSum(Init(start), p);
    }
    IdleSum(Init(start), TCP);
  }

  /** Whether calls for a protocol take a counter. */
  predicate Takes(p: Protocol, w: Which) {
    match w case Bw => true case Cps => p == TCP case Pps => p == UDP
  }

  /** A call that goes into the sums of a protocol. */
  predicate Passes(call: Call, p: Protocol) {
    !call.held && call.proto == p
  }

  /** What calls have swapped out and shown for a protocol. */
  function Amount(calls: seq<Call>, p: Protocol, w: Which): nat {
    if |calls| == 0 then 0
    else
      var last := calls[|calls| - 1];
      Amount(calls[..|calls| - 1], p, w) + if Passes(last, p) then Part(last.taken, w) else 0
  }

  function RateIn(t: Totals, w: Which): nat {
    match w case Bw => t.bw case Cps => t.cps case Pps => t.pps
  }

  function TimesIn(t: Totals, w: Which): nat {
    match w case Bw => t.cbw case Cps => t.ccps case Pps => t.cpps
  }

  /** The sum of `k` numbers, each rounded down by less than one. */
  predicate Within(sum: nat, k: nat, amount: nat, iv: Interval) {
    sum * iv.span <= amount * SECOND <= (sum + k) * iv.span
  }

  lemma CallWithin(call: Call, p: Protocol, w: Which)
    requires Proper(call.iv) && RowTells(call) && Takes(p, w)
    ensures Passes(call, p) ==> PerSecond(RateIn(CallTotals(call, p), w), Part(call.taken, w), call.iv)
                                && TimesIn(CallTotals(call, p), w) == 1
    ensures !Passes(call, p) ==> CallTotals(call, p) == ZERO
  {
    hide PerSecond;
  }

  lemma WithinPlus(sum: nat, k: nat, amount: nat, r: nat, n: nat, iv: Interval)
    requires Proper(iv) && Within(sum, k, amount, iv) && PerSecond(r, n, iv)
    ensures Within(sum + r, k + 1, amount + n, iv)
  {
    assert (sum + r) * iv.span == sum * iv.span + r * iv.span;
    assert (sum + r + (k + 1)) * iv.span == (sum + k) * iv.span + (r + 1) * iv.span;
  }

  /** The sums `t` say that `amount` was shown; in an interval of one second they are the amount itself. */
  ghost predicate Says(t: Totals, w: Which, amount: nat, iv: Interval) {
    Within(RateIn(t, w), TimesIn(t, w), amount, iv) && (iv.span == SECOND ==> RateIn(t, w) == amount)
  }

  lemma CallSays(t: Totals, amount: nat, call: Call, p: Protocol, w: Which)
    requires Proper(call.iv) && RowTells(call) && Takes(p, w) && Says(t, w, amount, call.iv)
    ensures var more := if Passes(call, p) then Part(call.taken, w) else 0;
            Says(Plus(t, CallTotals(call, p)), w, amount + more, call.iv)
  {
    hide RowTells, PerSecond, Within, Takes;
    CallWithin(call, p, w);
    hide CallTotals, Passes;
    if Passes(call, p) {
      var r := RateIn(CallTotals(call, p), w);
      PerSecondUnique(r, r, Part(call.taken, w), call.iv);
      WithinPlus(RateIn(t, w), TimesIn(t, w), amount, r, Part(call.taken, w), call.iv);
    }
  }

  lemma NothingSaid(w: Which, iv: Interval)
    ensures Says(ZERO, w, 0, iv)
  {
  }

  /** A protocol's sums are what its calls have swapped out and shown, per second, but for what each row's
      rounding drops. */
  lemma {:induction false} SumsSay(calls: seq<Call>, p: Protocol, w: Which, iv: Interval)
    requires Proper(iv) && AllTell(calls, iv) && Takes(p, w)
    ensures Says(CallsTotal(calls, p), w, Amount(calls, p, w), iv)
  {
    hide RowTells, CallTotals, Says, Passes, Takes, Plus;
    if |calls| == 0 {
      NothingSaid(w, iv);
    } else {
      var init := calls[..|calls| - 1];
      SumsSay(init, p, w, iv);
      CallSays(CallsTotal(init, p), Amount(init, p, w), calls[|calls| - 1], p, w);
    }
  }

  lemma PassCounts(call: Call, p: Protocol)
    ensures var t := CallTotals(call, p);
            t.cbw == (if Passes(call, p) then 1 else 0) && t.ccps <= t.cbw && t.cpps <= t.cbw
  {
  }

  lemma {:induction false} PassesCounted(calls: seq<Call>, p: Protocol)
    ensures var t := CallsTotal(calls, p);
            && t.ccps <= t.cbw && t.cpps <= t.cbw
            && (t.cbw >= 1 <==> exists i :: 0 <= i < |calls| && Passes(calls[i], p))
            && (t.cbw >= 2 <==> exists i, j :: 0 <= i < j < |calls| && Passes(calls[i], p) && Passes(calls[j], p))
  {
    hide CallTotals, Passes;
    if |calls| > 0 {
      var n := |calls| - 1;
      var init := calls[..n];
      PassCounts(calls[n], p);
      PassesCounted(init, p);
      assert forall i :: 0 <= i < n ==> init[i] == calls[i];
    }
  }

  lemma SumShownIff(calls: seq<Call>, p: Protocol)
    ensures SumRow(CallsTotal(calls, p)).Some? <==>
              exists i, j :: 0 <= i < j < |calls| && Passes(calls[i], p) && Passes(calls[j], p)
  {
    hide CallsTotal, Passes;
    PassesCounted(calls, p);
  }

  /** What the sum row of a tick says: it is shown exactly if two calls have let their tests through, and then
      says what they have swapped out, as nearly as rounding allows. */
  ghost predicate SumShows(tick: Tick, p: Protocol) {
    && p in tick.sums
    && (tick.sums[p].Some? <==>
          exists i, j :: 0 <= i < j < |tick.calls| && Passes(tick.calls[i], p) && Passes(tick.calls[j], p))
    && (tick.sums[p].Some? ==>
          forall w :: Takes(p, w) ==> Says(tick.sums[p].value, w, Amount(tick.calls, p, w), tick.iv))
  }

  lemma TickShows(tick: Tick, p: Protocol)
    requires SumsTell(tick)
    ensures SumShows(tick, p)
  {
    hide CallsTotal, Amount, Says, AllTell, Passes, Takes;
    SumShownIff(tick.calls, p);
    forall w | Takes(p, w)
      ensures Says(CallsTotal(tick.calls, p), w, Amount(tick.calls, p, w), tick.iv)
    {
      SumsSay(tick.calls, p, w, tick.iv);
    }
  }

  /** Over every interleaving, each row shows exactly what its call swapped out, per second, and each sum row
      of each tick what that tick's calls swapped out and showed. */
  lemma RowsAndSumsTell(start: int, es: seq<Event>)
    requires LegalRun(Init(start), es)
    ensures var s := Run(Init(start), es);
            && (forall i :: 0 <= i < |s.ticks| ==> SumsTell(s.ticks[i]))
            && (forall i, p :: 0 <= i < |s.ticks| ==> SumShows(s.ticks[i], p))
            && AllTell(s.calls, s.iv)
  {
    hide SumsTell, SumShows, AllTell;
    InitTells(start);
    RunTells(Init(start), es);
    var s := Run(Init(start), es);
    forall i, p | 0 <= i < |s.ticks|
      ensures SumShows(s.ticks[i], p)
    {
      TickShows(s.ticks[i], p);
    }
  }

  // ---------------------------------------------------------------- through the gate

  /** A test that has been let through, and is not being held back by a call that looked earlier. */
  ghost predicate Through(s: System, t: nat) {
    && t in s.tests && !s.tests[t].started
    && !(s.at.Busy? && s.at.test == t && (s.at.phase.DropCps? || s.at.phase.DropPps?))
  }

  lemma ProceedThrough(s: System, t: nat, w: Which)
    requires Working(s) && Through(s, t)
    ensures Through(Proceed(s), t) && Discarded(Proceed(s), t, w) == Discarded(s, t, w)
  {
    hide Swapped, SwappedInTicks, Rate, ShownRow, Part;
    if Finishing(s.at.phase) {
      SwappedMore(s.calls, Proceed(s).calls[|s.calls|], t, true, w);
    }
  }

  lemma StepThrough(s: System, e: Event, t: nat, w: Which)
    requires Enabled(s, e) && Through(s, t) && !((e.Sync? || e.Delete?) && e.t == t)
    ensures Through(After(s, e), t) && Discarded(After(s, e), t, w) == Discarded(s, t, w)
  {
    hide Swapped, SwappedInTicks, Proceed, SumRow, Part;
    if e.NextStep? {
      ProceedThrough(s, t, w);
    } else if e.EndTick? {
      TicksMore(s.ticks, After(s, e).ticks[|s.ticks|], t, true, w);
    }
  }

  /** Once through the gate a test loses nothing, in any interleaving, until a handshake sets its start
      time. */
  lemma {:induction false} OncePassedAlwaysReported(s: System, es: seq<Event>, t: nat, w: Which)
    requires LegalRun(s, es) && Through(s, t)
    requires forall i :: 0 <= i < |es| ==> !((es[i].Sync? || es[i].Delete?) && es[i].t == t)
    ensures Through(Run(s, es), t) && Discarded(Run(s, es), t, w) == Discarded(s, t, w)
    decreases |es|
  {
    hide Through, Discarded, After;
    if |es| > 0 {
      StepThrough(s, es[0], t, w);
      OncePassedAlwaysReported(After(s, es[0]), es[1..], t, w);
    }
  }

  /** A test that had started by the latest tick, or, during a tick, is one the gate lets through. */
  ghost predicate Early(s: System, t: nat) {
    && t in s.tests && s.tests[t].startTime <= s.iv.last
    && (!s.at.Idle? ==> !StartedLate(s.tests[t].startTime, s.iv.last, s.iv.span))
    && !(s.at.Busy? && s.at.test == t && (s.at.phase.DropCps? || s.at.phase.DropPps?))
  }

  /** No tick comes more than 50 ms before a second has passed since the one before. */
  ghost predicate Prompt(s: System, es: seq<Event>)
    requires LegalRun(s, es)
    decreases |es|
  {
    |es| == 0 || ((es[0].BeginTick? ==> es[0].last - s.iv.last >= SECOND - MARGIN) && Prompt(After(s, es[0]), es[1..]))
  }

  lemma ProceedEarly(s: System, t: nat, w: Which)
    requires Working(s) && Early(s, t)
    ensures Early(Proceed(s), t) && Discarded(Proceed(s), t, w) == Discarded(s, t, w)
  {
    hide Swapped, SwappedInTicks, Rate, ShownRow, Part, StartedLate;
    if Finishing(s.at.phase) {
      SwappedMore(s.calls, Proceed(s).calls[|s.calls|], t, true, w);
    }
  }

  lemma StepEarly(s: System, e: Event, t: nat, w: Which)
    requires Enabled(s, e) && Early(s, t) && !((e.Sync? || e.Delete?) && e.t == t)
    requires e.BeginTick? ==> e.last - s.iv.last >= SECOND - MARGIN
    ensures Early(After(s, e), t) && Discarded(After(s, e), t, w) == Discarded(s, t, w)
  {
    hide Swapped, SwappedInTicks, Proceed, SumRow, Part;
    if e.NextStep? {
      ProceedEarly(s, t, w);
    } else if e.EndTick? {
      TicksMore(s.ticks, After(s, e).ticks[|s.ticks|], t, true, w);
    } else if e.BeginTick? {
      GateExact(s.iv.last, e.read, e.last);
    }
  }

  /** Over any run of prompt ticks, whatever else happens, a test that had started by the tick before the
      first of them is never held back, until a handshake sets its start time. */
  lemma {:induction false} EarlyNeverHeld(s: System, es: seq<Event>, t: nat, w: Which)
    requires LegalRun(s, es) && Prompt(s, es) && Early(s, t)
    requires forall i :: 0 <= i < |es| ==> !((es[i].Sync? || es[i].Delete?) && es[i].t == t)
    ensures Early(Run(s, es), t) && Discarded(Run(s, es), t, w) == Discarded(s, t, w)
    decreases |es|
  {
    hide Early, Discarded, After;
    if |es| > 0 {
      StepEarly(s, es[0], t, w);
      EarlyNeverHeld(After(s, es[0]), es[1..], t, w);
    }
  }

  // ---------------------------------------------------------------- without interruption

  function StepsLeft(p: Phase): nat {
    match p case Gate => 5 case Clear => 4 case AddRate => 3 case Others => 2 case Show => 1
            case DropCps => 2 case DropPps => 1
  }

  lemma KeepsWorking(s: System)
    requires Working(s)
    ensures Proceed(s).at.Busy? ==> Working(Proceed(s)) && StepsLeft(Proceed(s).at.phase) < StepsLeft(s.at.phase)
  {
    hide Rate, HeldBack, ShownRow;
  }

  /** The call in progress, taken to its end. */
  ghost function Complete(s: System): System
    requires Working(s)
    decreases StepsLeft(s.at.phase)
  {
    KeepsWorking(s);
    if Proceed(s).at.Busy? then Complete(Proceed(s)) else Proceed(s)
  }

  /** What a completed call leaves behind, given the counters it began with. */
  ghost predicate Leaves(s': System, s: System, t: nat, proto: Protocol, c: Counters)
    requires t in s.tests && proto in s.aggs && Proper(s.iv)
  {
    && s'.at.Ready? && s'.ticks == s.ticks && s'.iv == s.iv
    && s'.tests == s.tests[t := Taken(c, proto, s.iv)]
    && s'.aggs == s.aggs[proto := Plus(s.aggs[proto], Contribution(c, proto, s.iv))]
    && |s'.calls| == |s.calls| + 1 && s'.calls[..|s.calls|] == s.calls
    && Shows(s'.calls[|s.calls|].row, c, proto, s.iv)
    && s'.calls[|s.calls|].test == t && s'.calls[|s.calls|].held == HeldBack(c, s.iv)
  }

  lemma CompletesPassed(s: System, c: Counters)
    requires Working(s) && s.at.phase.AddRate? && s.at.taken == Amounts(c.bw, 0, 0)
    requires s.tests[s.at.test] == c.(bw := 0, started := false) && c.isActive && !HeldBack(c, s.iv)
    ensures Leaves(Complete(s), s, s.at.test, s.at.proto, c)
  {
    hide Rate, HeldBack;
    var s1 := Proceed(s);
    var s2 := Proceed(s1);
    var s3 := Proceed(s2);
    assert Complete(s) == Complete(s1) == Complete(s2) == s3;
    assert s3.calls[..|s.calls|] == s.calls;
  }

  lemma CompletesHeld(s: System, c: Counters)
    requires Working(s) && s.at.phase.DropCps? && s.at.taken == Amounts(c.bw, 0, 0)
    requires s.tests[s.at.test] == c.(bw := 0) && c.isActive && HeldBack(c, s.iv)
    ensures Leaves(Complete(s), s, s.at.test, s.at.proto, c)
  {
    hide Rate, HeldBack;
    PlusZero(s.aggs[s.at.proto]);
    var s1 := Proceed(s);
    var s2 := Proceed(s1);
    assert Complete(s) == Complete(s1) == s2;
    assert s2.calls[..|s.calls|] == s.calls;
  }

  /** Where the test's own counters alone have changed, the result is the same seen from before. */
  lemma LeavesBefore(s': System, s1: System, s: System, t: nat, proto: Protocol, c: Counters, c1: Counters)
    requires t in s.tests && proto in s.aggs && Proper(s.iv)
    requires s1 == s.(tests := s.tests[t := c1], at := s1.at) && Leaves(s', s1, t, proto, c)
    ensures Leaves(s', s, t, proto, c)
  {
    hide Taken, Contribution, Shows, Plus;
    assert s.tests[t := c1][t := Taken(c, proto, s.iv)] == s.tests[t := Taken(c, proto, s.iv)];
  }

  /** With nobody in between, a call does exactly what the sequential report does. */
  lemma UninterruptedCall(s: System, t: nat, proto: Protocol)
    requires Enabled(s, StartCall(t, proto)) && proto in s.aggs && Proper(s.iv) && s.tests[t].isActive
    ensures Leaves(Complete(After(s, StartCall(t, proto))), s, t, proto, s.tests[t])
  {
    hide Rate, StartedLate, Leaves;
    var c := s.tests[t];
    var c1 := c.(bw := 0);
    var s1 := After(s, StartCall(t, proto));
    var s2 := Proceed(s1);
    assert Complete(s1) == Complete(s2);
    if HeldBack(c, s.iv) {
      CompletesHeld(s2, c);
      LeavesBefore(Complete(s2), s2, s, t, proto, c, c1);
    } else if c.started {
      var s3 := Proceed(s2);
      assert Complete(s2) == Complete(s3);
      assert s3.tests == s.tests[t := c1.(started := false)];
      CompletesPassed(s3, c);
      LeavesBefore(Complete(s3), s3, s, t, proto, c, c1.(started := false));
    } else {
      assert c1 == c.(bw := 0, started := false);
      CompletesPassed(s2, c);
      LeavesBefore(Complete(s2), s2, s, t, proto, c, c1);
    }
  }

  /** The first call for a test that has just been created, or whose start time a handshake has just set, holds
      it back exactly if it started more than 50 ms after the interval of the tick began. */
  lemma FirstCallGate(s: System, e: Event, read: int, last: int, proto: Protocol)
    requires Enabled(s, e) && s.at.Idle? && s.iv.last <= read <= last && proto in s.aggs
    requires e.Create? || (e.Sync? && s.tests[e.t].isActive)
    ensures var s1 := After(After(s, e), BeginTick(read, last));
            && e.t in s1.tests && s1.tests[e.t].isActive && Proper(s1.iv)
            && var s2 := Complete(After(s1, StartCall(e.t, proto)));
               && |s2.calls| == |s.calls| + 1 && s2.calls[|s.calls|].test == e.t
               && (s2.calls[|s.calls|].held <==> StartedLate(e.startTime, last, Span(s.iv.last, read)))
  {
    hide StartedLate, Shows, Contribution, Taken, Proceed;
    UninterruptedCall(After(After(s, e), BeginTick(read, last)), e.t, proto);
  }

  lemma NoneIsZero(iv: Interval)
    requires Proper(iv)
    ensures Rate(0, iv) == 0
  {
  }

  /** A call made after the flags of a test have been set shows them: the latency, in TCP rows, and a dormant
      test only if there is anything to show. */
  lemma TouchShows(s: System, t: nat, dormant: bool, latency: nat, proto: Protocol)
    requires s.at.Ready? && t in s.tests && proto in s.aggs && Proper(s.iv)
    requires s.tests[t].isActive && !HeldBack(s.tests[t], s.iv)
    ensures var s' := Complete(After(After(s, Touch(t, dormant, latency)), StartCall(t, proto)));
            var shown := if proto == TCP then latency else 0;
            && |s'.calls| == |s.calls| + 1
            && match s'.calls[|s.calls|].row
               case None => dormant && shown == 0
               case Some(row) =>
                 && row.latency == (if shown > 0 then Some(shown) else None)
                 && (dormant && shown == 0 ==> s.tests[t].bw > 0 || s.tests[t].cps > 0 || s.tests[t].pps > 0)
  {
    hide StartedLate, Taken, Proceed, Rate;
    NoneIsZero(s.iv);
    UninterruptedCall(After(s, Touch(t, dormant, latency)), t, proto);
  }
}
