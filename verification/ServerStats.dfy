/** What the server reports at a tick (serverui.go, stats.go): counters are swapped to zero, tests
    that started late are held back, and the rates of the others are added up per protocol. Rates are
    exact rationals rounded down, where the source divides in floating point. */
module ServerStats {
  import opened Wire
  import opened Time
  import opened Arithmetic
  import opened References
  import opened Sessions
  import opened Ticker

  datatype Option<T> = None | Some(value: T)

  datatype Counters = Counters(bw: nat, cps: nat, pps: nat, latency: nat,
                               isActive: bool, isDormant: bool, started: bool, startTime: int)

  function Snapshot(t: TestStats): Counters
    reads t
  {
    Counters(t.bw, t.cps, t.pps, t.latency, t.isActive, t.isDormant, t.started, t.startTime)
  }

  /** Sums over the sessions of one protocol, and how many went into each. */
  datatype Totals = Totals(bw: nat, cps: nat, pps: nat, cbw: nat, ccps: nat, cpps: nat)

  const ZERO := Totals(0, 0, 0, 0, 0, 0)

  function Plus(a: Totals, b: Totals): Totals {
    Totals(a.bw + b.bw, a.cps + b.cps, a.pps + b.pps, a.cbw + b.cbw, a.ccps + b.ccps, a.cpps + b.cpps)
  }

  class Aggregate {
    var bw: nat
    var cps: nat
    var pps: nat
    var cbw: nat
    var ccps: nat
    var cpps: nat

    constructor ()
      ensures Value() == ZERO
    {
      bw, cps, pps, cbw, ccps, cpps := 0, 0, 0, 0, 0, 0;
    }

    function Value(): Totals
      reads this
    {
      Totals(bw, cps, pps, cbw, ccps, cpps)
    }
  }

  /** An interval: the instant recorded for its end, and the length rates are taken over. */
  datatype Interval = Interval(last: int, span: int)

  ghost predicate Proper(iv: Interval) {
    iv.span >= SECOND
  }

  function Rate(n: nat, iv: Interval): nat
    requires Proper(iv)
  {
    n * SECOND / iv.span
  }

  /** `r` is how often `n` things came in a second of the interval, rounded down. */
  predicate PerSecond(r: nat, n: nat, iv: Interval) {
    r * iv.span <= n * SECOND < (r + 1) * iv.span
  }

  lemma RateIsPerSecond(n: nat, iv: Interval)
    requires Proper(iv)
    ensures PerSecond(Rate(n, iv), n, iv)
  {
    var r := Rate(n, iv);
    assert n * SECOND == iv.span * r + n * SECOND % iv.span;
  }

  /** There is one such number; in an interval of one second it is the amount itself. */
  lemma PerSecondUnique(r: nat, q: nat, n: nat, iv: Interval)
    requires Proper(iv) && PerSecond(r, n, iv)
    ensures PerSecond(q, n, iv) <==> q == r
    ensures iv.span == SECOND ==> r == n
  {
    if q < r {
      MulLe(q + 1, r, iv.span);
    } else if r < q {
      MulLe(r + 1, q, iv.span);
    }
  }

  predicate HeldBack(c: Counters, iv: Interval) {
    c.started && StartedLate(c.startTime, iv.last, iv.span)
  }

  /** What a test adds to its protocol's sums. */
  function Contribution(c: Counters, proto: Protocol, iv: Interval): Totals
    requires Proper(iv)
  {
    if !c.isActive || HeldBack(c, iv) then ZERO
    else Totals(Rate(c.bw, iv),
                if proto == TCP then Rate(c.cps, iv) else 0, if proto == UDP then Rate(c.pps, iv) else 0,
                1, if proto == TCP then 1 else 0, if proto == UDP then 1 else 0)
  }

  /** A test after its results have been taken. */
  function Taken(c: Counters, proto: Protocol, iv: Interval): Counters {
    if !c.isActive then c
    else if HeldBack(c, iv) then c.(bw := 0, cps := 0, pps := 0)
    else c.(bw := 0, cps := if proto == TCP then 0 else c.cps, pps := if proto == UDP then 0 else c.pps,
            started := false)
  }

  datatype Row = Row(bw: nat, cps: Option<nat>, pps: Option<nat>, latency: Option<nat>)

  /** The row a test is shown in, if it is. */
  ghost predicate Shows(row: Option<Row>, c: Counters, proto: Protocol, iv: Interval)
    requires Proper(iv)
  {
    var sum := Contribution(c, proto, iv);
    var latency := if proto == TCP then c.latency else 0;
    if sum.cbw == 0 then row.None?
    else if c.isDormant && sum.bw == 0 && sum.cps == 0 && sum.pps == 0 && latency == 0 then row.None?
    else row == Some(Row(sum.bw, if proto == TCP then Some(sum.cps) else None,
                         if proto == UDP then Some(sum.pps) else None,
                         if latency > 0 then Some(latency) else None))
  }

  method AddTo(agg: Aggregate, proto: Protocol, bw: nat, cps: nat, pps: nat)
    requires (proto != TCP ==> cps == 0) && (proto != UDP ==> pps == 0)
    modifies agg
    ensures agg.Value() == Plus(old(agg.Value()), Totals(bw, cps, pps, 1, if proto == TCP then 1 else 0,
                                                         if proto == UDP then 1 else 0))
  {
    agg.bw, agg.cbw := agg.bw + bw, agg.cbw + 1;
    if proto == TCP {
      agg.cps, agg.ccps := agg.cps + cps, agg.ccps + 1;
    }
    if proto == UDP {
      agg.pps, agg.cpps := agg.pps + pps, agg.cpps + 1;
    }
  }

  method GetTestResults(test: TestStats, proto: Protocol, iv: Interval, agg: Aggregate) returns (row: Option<Row>)
    requires Proper(iv)
    modifies test, agg
    ensures Snapshot(test) == Taken(old(Snapshot(test)), proto, iv)
    ensures agg.Value() == Plus(old(agg.Value()), Contribution(old(Snapshot(test)), proto, iv))
    ensures Shows(row, old(Snapshot(test)), proto, iv)
    ensures row.Some? ==> PerSecond(row.value.bw, old(test.bw), iv)
    ensures row.Some? && proto == TCP ==> row.value.cps.Some? && PerSecond(row.value.cps.value, old(test.cps), iv)
    ensures row.Some? && proto == UDP ==> row.value.pps.Some? && PerSecond(row.value.pps.value, old(test.pps), iv)
  {
    hide Rate, StartedLate, PerSecond;
    RateIsPerSecond(test.bw, iv);
    RateIsPerSecond(test.cps, iv);
    RateIsPerSecond(test.pps, iv);
    if !test.isActive {
      return None;
    }
    var bw, cps, pps, latency := Rate(test.bw, iv), 0, 0, 0;
    test.bw := 0;
    if test.started {
      if StartedLate(test.startTime, iv.last, iv.span) {
        test.cps, test.pps := 0, 0;
        return None;
      }
      test.started := false;
    }
    if proto == TCP {
      cps, latency := Rate(test.cps, iv), test.latency;
      test.cps := 0;
    }
    if proto == UDP {
      pps := Rate(test.pps, iv);
      test.pps := 0;
    }
    AddTo(agg, proto, bw, cps, pps);
    if test.isDormant && !(bw != 0 || (proto == TCP && cps != 0) || (proto == UDP && pps != 0) || latency != 0) {
      return None;
    }
    row := Some(Row(bw, if proto == TCP then Some(cps) else None, if proto == UDP then Some(pps) else None,
                    if latency > 0 then Some(latency) else None));
  }

  /** What goes into the sums is the amount taken, per second. */
  lemma ContributionPerSecond(c: Counters, proto: Protocol, iv: Interval)
    requires Proper(iv)
    ensures var sum := Contribution(c, proto, iv);
            sum.cbw > 0 ==>
              && PerSecond(sum.bw, c.bw, iv) && (proto == TCP ==> PerSecond(sum.cps, c.cps, iv))
              && (proto == UDP ==> PerSecond(sum.pps, c.pps, iv))
  {
    hide Rate, PerSecond, HeldBack;
    RateIsPerSecond(c.bw, iv);
    RateIsPerSecond(c.cps, iv);
    RateIsPerSecond(c.pps, iv);
  }

  /** A row is left out only for a test that adds nothing to any rate. */
  lemma HiddenAddsNothing(c: Counters, proto: Protocol, iv: Interval)
    requires Proper(iv) && Shows(None, c, proto, iv)
    ensures var sum := Contribution(c, proto, iv); sum.bw == 0 && sum.cps == 0 && sum.pps == 0
  {
  }

  /** A protocol's sums are shown once more than one test went into one of them. */
  function SumRow(v: Totals): Option<Totals> {
    if v.cbw > 1 || v.ccps > 1 || v.cpps > 1 then Some(v) else None
  }

  /** The sum row, and the reset for the next interval. */
  method EmitAggregate(agg: Aggregate) returns (row: Option<Totals>)
    modifies agg
    ensures agg.Value() == ZERO && row == SumRow(old(agg.Value()))
  {
    row := if agg.cbw > 1 || agg.ccps > 1 || agg.cpps > 1 then Some(agg.Value()) else None;
    agg.bw, agg.cps, agg.pps := 0, 0, 0;
    agg.cbw, agg.ccps, agg.cpps := 0, 0, 0;
  }

  // ---------------------------------------------------------------- all sessions

  /** One call of the report for a session and a protocol: the test it finds, if any. */
  datatype Item = Item(stats: TestStats?, proto: Protocol)

  function ItemFor(d: Directory<EthrTest>, ip: string, proto: Protocol): Item {
    var k := Key(ip, TestID(proto, All));
    Item(if Has(d, k) then At(d, k).stats else null, proto)
  }

  /** The calls one tick makes, in order. */
  function Items(ks: seq<string>, d: Directory<EthrTest>): (items: seq<Item>)
    ensures |items| == 3 * |ks|
  {
    if |ks| == 0 then []
    else
      var ip := ks[|ks| - 1];
      Items(ks[..|ks| - 1], d) + [ItemFor(d, ip, TCP), ItemFor(d, ip, UDP), ItemFor(d, ip, ICMP)]
  }

  lemma {:induction false} ItemsAt(ks: seq<string>, d: Directory<EthrTest>, i: nat)
    requires i < |ks|
    ensures Items(ks, d)[3 * i] == ItemFor(d, ks[i], TCP)
    ensures Items(ks, d)[3 * i + 1] == ItemFor(d, ks[i], UDP)
    ensures Items(ks, d)[3 * i + 2] == ItemFor(d, ks[i], ICMP)
  {
    if i < |ks| - 1 {
      ItemsAt(ks[..|ks| - 1], d, i);
    }
  }

  /** No test is reported twice in one tick. */
  ghost predicate Apart(items: seq<Item>) {
    forall i, j :: 0 <= i < j < |items| && items[i].stats != null ==> items[i].stats != items[j].stats
  }

  function StatsOf(items: seq<Item>): set<TestStats> {
    set i | 0 <= i < |items| && items[i].stats != null :: items[i].stats
  }

  ghost function SnapshotAll(ts: set<TestStats>): map<TestStats, Counters>
    reads ts
  {
    map t | t in ts :: Snapshot(t)
  }

  /** What one call adds to a protocol's sums, given the counters `before` the tick. */
  ghost function Added(item: Item, before: map<TestStats, Counters>, proto: Protocol, iv: Interval): Totals
    requires Proper(iv)
  {
    if item.stats == null || item.proto != proto || item.stats !in before then ZERO
    else Contribution(before[item.stats], proto, iv)
  }

  ghost function Collected(items: seq<Item>, before: map<TestStats, Counters>, proto: Protocol, iv: Interval): Totals
    requires Proper(iv)
  {
    if |items| == 0 then ZERO
    else Plus(Collected(items[..|items| - 1], before, proto, iv), Added(items[|items| - 1], before, proto, iv))
  }

  lemma CollectedNext(items: seq<Item>, j: nat, before: map<TestStats, Counters>, proto: Protocol, iv: Interval)
    requires Proper(iv) && j < |items|
    ensures Collected(items[..j + 1], before, proto, iv)
         == Plus(Collected(items[..j], before, proto, iv), Added(items[j], before, proto, iv))
  {
    assert items[..j + 1][..j] == items[..j];
  }

  lemma SumNext(base: Totals, items: seq<Item>, j: nat, before: map<TestStats, Counters>, proto: Protocol, iv: Interval)
    requires Proper(iv) && j < |items|
    ensures Plus(Plus(base, Collected(items[..j], before, proto, iv)), Added(items[j], before, proto, iv))
         == Plus(base, Collected(items[..j + 1], before, proto, iv))
  {
    CollectedNext(items, j, before, proto, iv);
  }

  /** A test's counters are still those of the start of the tick, or have been taken. */
  ghost predicate Untouched(item: Item, before: map<TestStats, Counters>)
    reads item.stats
  {
    item.stats != null ==> item.stats in before && Snapshot(item.stats) == before[item.stats]
  }

  ghost predicate Reported(item: Item, before: map<TestStats, Counters>, iv: Interval)
    reads item.stats
  {
    item.stats != null ==> item.stats in before && Snapshot(item.stats) == Taken(before[item.stats], item.proto, iv)
  }

  /** The row a call shows. */
  ghost predicate RowFor(row: Option<Row>, item: Item, before: map<TestStats, Counters>, iv: Interval)
    requires Proper(iv)
  {
    if item.stats == null then row.None?
    else item.stats in before && Shows(row, before[item.stats], item.proto, iv)
  }

  ghost predicate RowsFor(rows: seq<Option<Row>>, items: seq<Item>, before: map<TestStats, Counters>, iv: Interval)
    requires Proper(iv)
  {
    |rows| <= |items| && forall k :: 0 <= k < |rows| ==> RowFor(rows[k], items[k], before, iv)
  }

  /** The first `j` calls of a tick have taken their counters, the others none. */
  ghost predicate Progress(items: seq<Item>, j: nat, before: map<TestStats, Counters>, iv: Interval)
    requires j <= |items|
    reads StatsOf(items)
  {
    && (forall k {:trigger items[k]} :: 0 <= k < j ==> Reported(items[k], before, iv))
    && (forall k {:trigger items[k]} :: j <= k < |items| ==> Untouched(items[k], before))
  }

  lemma MoreRows(rows: seq<Option<Row>>, more: seq<Option<Row>>, items: seq<Item>,
                 before: map<TestStats, Counters>, iv: Interval)
    requires Proper(iv) && RowsFor(rows, items, before, iv) && |rows| + |more| <= |items|
    requires forall k :: 0 <= k < |more| ==> RowFor(more[k], items[|rows| + k], before, iv)
    ensures RowsFor(rows + more, items, before, iv)
  {
    hide RowFor;
  }

  // ---------------------------------------------------------------- the calls of a tick

  /** The lookup at the start of a call. */
  function ItemOf(session: EthrSession, proto: Protocol): Item
    reads session
  {
    var id := TestID(proto, All);
    Item(if id in session.tests then session.tests[id].stats else null, proto)
  }

  ghost function ItemsOf(reg: Registry): seq<Item>
    requires reg.KeysMatch()
    reads reg, reg.keys
  {
    Items(reg.keys[..reg.nKeys], reg.listed)
  }

  /** Every key of the slice leads to its session, whose tests are those registered there. */
  lemma Found(reg: Registry, i: nat)
    requires reg.KeysMatch() && reg.SessionsMatch() && i < reg.nKeys
    ensures i < reg.keys.Length
    ensures var ip := reg.keys[i]; var items := ItemsOf(reg);
            && ip in reg.sessions
            && |items| == 3 * reg.nKeys
            && items[3 * i] == ItemOf(reg.sessions[ip], TCP)
            && items[3 * i + 1] == ItemOf(reg.sessions[ip], UDP)
            && items[3 * i + 2] == ItemOf(reg.sessions[ip], ICMP)
  {
    var ks := reg.keys[..reg.nKeys];
    assert ks[i] in ks;
    ItemsAt(ks, reg.listed, i);
  }

  function ProtoAt(i: nat): Protocol {
    if i % 3 == 0 then TCP else if i % 3 == 1 then UDP else ICMP
  }

  lemma ItemAt(ks: seq<string>, d: Directory<EthrTest>, i: nat)
    requires i < 3 * |ks|
    ensures Items(ks, d)[i] == ItemFor(d, ks[i / 3], ProtoAt(i))
  {
    hide Items, ItemFor;
    ItemsAt(ks, d, i / 3);
    assert i == 3 * (i / 3) + i % 3;
  }

  lemma ItemKey(reg: Registry, i: nat)
    requires reg.KeysMatch() && reg.TestsMatch() && i < 3 * reg.nKeys
    ensures var item := ItemsOf(reg)[i];
            item.stats != null ==> item.stats.key == Key(reg.keys[i / 3], TestID(ProtoAt(i), All))
  {
    ItemAt(reg.keys[..reg.nKeys], reg.listed, i);
  }

  /** Every registered test that collects under all types is among the calls, with its own protocol. */
  lemma EveryTestCalled(reg: Registry, ip: string, proto: Protocol) returns (i: nat)
    requires reg.KeysMatch() && Has(reg.listed, Key(ip, TestID(proto, All)))
    ensures i < |ItemsOf(reg)| && ItemsOf(reg)[i] == Item(At(reg.listed, Key(ip, TestID(proto, All))).stats, proto)
  {
    var ks := reg.keys[..reg.nKeys];
    assert ip in ks;
    var j :| 0 <= j < |ks| && ks[j] == ip;
    ItemsAt(ks, reg.listed, j);
    i := 3 * j + match proto case TCP => 0 case UDP => 1 case ICMP => 2;
  }

  lemma ItemsApart(reg: Registry)
    requires reg.KeysMatch() && reg.TestsMatch()
    ensures Apart(ItemsOf(reg)) && |ItemsOf(reg)| == 3 * reg.nKeys
  {
    var items, ks := ItemsOf(reg), reg.keys[..reg.nKeys];
    forall i, j | 0 <= i < j < |items| && items[i].stats != null
      ensures items[i].stats != items[j].stats
    {
      ItemKey(reg, i);
      ItemKey(reg, j);
      assert i / 3 < j / 3 ==> ks[i / 3] != ks[j / 3];
    }
  }

  class ServerUI {
    const tcp: Aggregate
    const udp: Aggregate
    const icmp: Aggregate

    constructor ()
      ensures Separate() && fresh(tcp) && fresh(udp) && fresh(icmp)
      ensures forall p: Protocol :: Agg(p).Value() == ZERO
    {
      tcp := new Aggregate();
      udp := new Aggregate();
      icmp := new Aggregate();
    }

    predicate Separate() {
      tcp != udp && tcp != icmp && udp != icmp
    }

    function Agg(p: Protocol): Aggregate {
      match p case TCP => tcp case UDP => udp case ICMP => icmp
    }

    /** One report call: at most one test is touched, and only its protocol's sums grow. */
    method EmitTestResult(item: Item, iv: Interval, ghost before: map<TestStats, Counters>) returns (row: Option<Row>)
      requires Separate() && Proper(iv) && Untouched(item, before)
      modifies item.stats, tcp, udp, icmp
      ensures forall p :: Agg(p).Value() == Plus(old(Agg(p).Value()), Added(item, before, p, iv))
      ensures Reported(item, before, iv) && RowFor(row, item, before, iv)
    {
      if item.stats == null {
        return None;
      }
      row := GetTestResults(item.stats, item.proto, iv, Agg(item.proto));
    }

    /** The sums after the first `j` calls of a tick. */
    ghost predicate Summed(items: seq<Item>, j: nat, iv: Interval, before: map<TestStats, Counters>,
                           base: map<Protocol, Totals>)
      requires Proper(iv) && j <= |items|
      reads tcp, udp, icmp
    {
      forall p :: p in base && Agg(p).Value() == Plus(base[p], Collected(items[..j], before, p, iv))
    }

    method EmitNext(ghost items: seq<Item>, ghost j: nat, item: Item, iv: Interval,
                    ghost before: map<TestStats, Counters>, ghost base: map<Protocol, Totals>)
      returns (row: Option<Row>)
      requires Separate() && Proper(iv) && j < |items| && item == items[j] && Apart(items)
      requires Summed(items, j, iv, before, base) && Progress(items, j, before, iv)
      modifies StatsOf(items), tcp, udp, icmp
      ensures Summed(items, j + 1, iv, before, base) && Progress(items, j + 1, before, iv)
      ensures RowFor(row, item, before, iv)
    {
      hide Collected, Added, Contribution, Taken, Plus, RowFor;
      assert item.stats != null ==> item.stats in StatsOf(items);
      assert Untouched(item, before);
      row := EmitTestResult(item, iv, before);
      forall k | 0 <= k < |items| && k != j
        ensures k < j ==> Reported(items[k], before, iv)
        ensures k > j ==> Untouched(items[k], before)
      {
        assert items[k].stats != null ==> items[k].stats != item.stats;
      }
      forall p: Protocol
        ensures p in base && Agg(p).Value() == Plus(base[p], Collected(items[..j + 1], before, p, iv))
      {
        SumNext(base[p], items, j, before, p, iv);
      }
    }

    /** The three calls for one session. */
    method EmitSession(session: EthrSession, ghost items: seq<Item>, ghost j: nat, iv: Interval,
                       ghost before: map<TestStats, Counters>, ghost base: map<Protocol, Totals>)
      returns (rows: seq<Option<Row>>)
      requires Separate() && Proper(iv) && j + 3 <= |items| && Apart(items)
      requires items[j] == ItemOf(session, TCP) && items[j + 1] == ItemOf(session, UDP)
      requires items[j + 2] == ItemOf(session, ICMP)
      requires Summed(items, j, iv, before, base) && Progress(items, j, before, iv)
      modifies StatsOf(items), tcp, udp, icmp
      ensures Summed(items, j + 3, iv, before, base) && Progress(items, j + 3, before, iv)
      ensures |rows| == 3 && forall k :: 0 <= k < 3 ==> RowFor(rows[k], items[j + k], before, iv)
    {
      hide Summed, Progress, Apart, RowFor, StatsOf;
      var a := EmitNext(items, j, ItemOf(session, TCP), iv, before, base);
      var b := EmitNext(items, j + 1, ItemOf(session, UDP), iv, before, base);
      var c := EmitNext(items, j + 2, ItemOf(session, ICMP), iv, before, base);
      rows := [a, b, c];
    }

    /** What one tick's calls leave behind. */
    ghost predicate Outcome(items: seq<Item>, before: map<TestStats, Counters>, iv: Interval,
                            base: map<Protocol, Totals>, rows: seq<Option<Row>>)
      requires Proper(iv)
      reads StatsOf(items), tcp, udp, icmp
    {
      && Summed(items, |items|, iv, before, base)
      && Progress(items, |items|, before, iv)
      && |rows| == |items| && RowsFor(rows, items, before, iv)
    }

    lemma BeginTick(items: seq<Item>, iv: Interval, before: map<TestStats, Counters>, base: map<Protocol, Totals>)
      requires Proper(iv) && before == SnapshotAll(StatsOf(items))
      requires forall p: Protocol :: p in base && Agg(p).Value() == base[p]
      ensures Summed(items, 0, iv, before, base) && Progress(items, 0, before, iv) && RowsFor([], items, before, iv)
    {
      assert items[..0] == [];
      forall k | 0 <= k < |items|
        ensures Untouched(items[k], before)
      {
        assert items[k].stats != null ==> items[k].stats in StatsOf(items);
      }
    }

    /** One tick's calls, over the key slice. Every lookup finds its session. */
    method EmitTestResults(reg: Registry, iv: Interval, ghost base: map<Protocol, Totals>)
      returns (rows: seq<Option<Row>>)
      requires Separate() && Proper(iv) && reg.Linked()
      requires forall p: Protocol :: p in base && Agg(p).Value() == base[p]
      modifies StatsOf(ItemsOf(reg)), tcp, udp, icmp
      ensures Outcome(ItemsOf(reg), old(SnapshotAll(StatsOf(ItemsOf(reg)))), iv, base, rows)
    {
      hide Summed, Progress, Apart, RowFor, StatsOf, RowsFor, Items, ItemsOf, ItemOf, SnapshotAll;
      hide reg.KeysMatch, reg.SessionsMatch, reg.TestsMatch, reg.LiveMatch;
      ghost var items := ItemsOf(reg);
      ghost var before := SnapshotAll(StatsOf(items));
      ItemsApart(reg);
      rows := [];
      var i := 0;
      BeginTick(items, iv, before, base);
      while i < reg.nKeys
        invariant 0 <= i <= reg.nKeys && reg.Linked() && |items| == 3 * reg.nKeys && items == ItemsOf(reg)
        invariant Summed(items, 3 * i, iv, before, base) && Progress(items, 3 * i, before, iv)
        invariant |rows| == 3 * i && RowsFor(rows, items, before, iv)
      {
        Found(reg, i);
        var session := reg.sessions[reg.keys[i]];
        var shown := EmitSession(session, items, 3 * i, iv, before, base);
        MoreRows(rows, shown, items, before, iv);
        rows := rows + shown;
        i := i + 1;
      }
    }

    /** Between ticks all sums are zero. */
    predicate Idle()
      reads tcp, udp, icmp
    {
      tcp.Value() == udp.Value() == icmp.Value() == ZERO
    }

    method EmitAggregateResults() returns (sums: map<Protocol, Option<Totals>>)
      requires Separate()
      modifies tcp, udp, icmp
      ensures Idle()
      ensures forall p: Protocol :: p in sums && sums[p] == SumRow(old(Agg(p).Value()))
    {
      var t := EmitAggregate(tcp);
      var u := EmitAggregate(udp);
      var i := EmitAggregate(icmp);
      sums := map[TCP := t, UDP := u, ICMP := i];
      forall p: Protocol
        ensures p in sums && sums[p] == SumRow(old(Agg(p).Value()))
      {
        match p case TCP => case UDP => case ICMP =>
      }
    }

    lemma ZeroPlus(x: Totals)
      ensures Plus(ZERO, x) == x
    {
    }

    /** A whole tick: every registered test's counters are taken once, every row says what its test
        contributed, each sum row is the sum of this tick's contributions alone, and nothing is carried
        over to the next tick. */
    method EmitTick(reg: Registry, iv: Interval) returns (rows: seq<Option<Row>>, sums: map<Protocol, Option<Totals>>)
      requires Separate() && Idle() && Proper(iv) && reg.Linked()
      modifies StatsOf(ItemsOf(reg)), tcp, udp, icmp
      ensures Idle() && reg.Linked() && ItemsOf(reg) == old(ItemsOf(reg))
      ensures var items, before := ItemsOf(reg), old(SnapshotAll(StatsOf(ItemsOf(reg))));
              && Progress(items, |items|, before, iv)
              && |rows| == |items| && RowsFor(rows, items, before, iv)
              && forall p: Protocol :: p in sums && sums[p] == SumRow(Collected(items, before, p, iv))
    {
      hide RowFor, StatsOf, RowsFor, Items, ItemsOf, ItemOf, SnapshotAll, Collected, Progress;
      hide reg.KeysMatch, reg.SessionsMatch, reg.TestsMatch, reg.LiveMatch;
      ghost var items, before := ItemsOf(reg), SnapshotAll(StatsOf(ItemsOf(reg)));
      ghost var base := map[TCP := ZERO, UDP := ZERO, ICMP := ZERO];
      forall p: Protocol
        ensures p in base && base[p] == ZERO == Agg(p).Value()
      {
        match p case TCP => case UDP => case ICMP =>
      }
      rows := EmitTestResults(reg, iv, base);
      assert items[..|items|] == items;
      forall p: Protocol
        ensures Agg(p).Value() == Collected(items, before, p, iv)
      {
        ZeroPlus(Collected(items, before, p, iv));
      }
      hide Plus, SumRow;
      sums := EmitAggregateResults();
    }
  }

  // ---------------------------------------------------------------- what the sums mean

  datatype Rates = Rates(bw: nat, cps: nat, pps: nat)

  function Displayed(row: Option<Row>, item: Item, proto: Protocol): Rates {
    if row.None? || item.proto != proto then Rates(0, 0, 0)
    else
      Rates(row.value.bw, if row.value.cps.Some? then row.value.cps.value else 0,
            if row.value.pps.Some? then row.value.pps.value else 0)
  }

  /** The rates of the rows shown for one protocol, added up. */
  function AllDisplayed(rows: seq<Option<Row>>, items: seq<Item>, proto: Protocol): Rates
    requires |rows| == |items|
  {
    if |rows| == 0 then Rates(0, 0, 0)
    else
      var n := |rows| - 1;
      var d, r := AllDisplayed(rows[..n], items[..n], proto), Displayed(rows[n], items[n], proto);
      Rates(d.bw + r.bw, d.cps + r.cps, d.pps + r.pps)
  }

  function RatesOf(t: Totals): Rates {
    Rates(t.bw, t.cps, t.pps)
  }

  lemma RowMatchesAdded(row: Option<Row>, item: Item, before: map<TestStats, Counters>, proto: Protocol, iv: Interval)
    requires Proper(iv) && RowFor(row, item, before, iv)
    ensures RatesOf(Added(item, before, proto, iv)) == Displayed(row, item, proto)
  {
    hide Rate, StartedLate;
  }

  /** A call lets its test through. */
  ghost predicate Passes(item: Item, before: map<TestStats, Counters>, proto: Protocol, iv: Interval) {
    && item.stats != null && item.proto == proto && item.stats in before
    && before[item.stats].isActive && !HeldBack(before[item.stats], iv)
  }

  lemma PassCounts(item: Item, before: map<TestStats, Counters>, proto: Protocol, iv: Interval)
    requires Proper(iv)
    ensures var sum := Added(item, before, proto, iv);
            && sum.cbw == (if Passes(item, before, proto, iv) then 1 else 0)
            && sum.ccps <= sum.cbw && sum.cpps <= sum.cbw
  {
    hide Rate, HeldBack;
  }

  lemma {:induction false} PassesCounted(items: seq<Item>, before: map<TestStats, Counters>, proto: Protocol,
                                         iv: Interval)
    requires Proper(iv)
    ensures var sum := Collected(items, before, proto, iv);
            && sum.ccps <= sum.cbw && sum.cpps <= sum.cbw
            && (sum.cbw >= 1 <==> exists i :: 0 <= i < |items| && Passes(items[i], before, proto, iv))
            && (sum.cbw >= 2 <==> exists i, j :: 0 <= i < j < |items|
                                    && Passes(items[i], before, proto, iv) && Passes(items[j], before, proto, iv))
  {
    hide Rate, HeldBack, Passes;
    if |items| > 0 {
      var n := |items| - 1;
      var init := items[..n];
      PassesCounted(init, before, proto, iv);
      assert forall i :: 0 <= i < n ==> init[i] == items[i];
      PassCounts(items[n], before, proto, iv);
    }
  }

  /** The sum row of a protocol is shown exactly if two calls of the tick have let their tests through. */
  lemma SumShownIff(items: seq<Item>, before: map<TestStats, Counters>, proto: Protocol, iv: Interval)
    requires Proper(iv)
    ensures SumRow(Collected(items, before, proto, iv)).Some? <==>
              exists i, j :: 0 <= i < j < |items|
                && Passes(items[i], before, proto, iv) && Passes(items[j], before, proto, iv)
  {
    hide Collected, Passes;
    PassesCounted(items, before, proto, iv);
  }

  /** A protocol's sums are those of the rows on display: what is hidden or held back adds nothing. */
  lemma {:induction false} SumsAreOfRowsShown(rows: seq<Option<Row>>, items: seq<Item>,
                                              before: map<TestStats, Counters>, proto: Protocol, iv: Interval)
    requires Proper(iv) && |rows| == |items| && RowsFor(rows, items, before, iv)
    ensures RatesOf(Collected(items, before, proto, iv)) == AllDisplayed(rows, items, proto)
  {
    hide RowFor, Added, Displayed;
    if |rows| > 0 {
      var n := |rows| - 1;
      SumsAreOfRowsShown(rows[..n], items[..n], before, proto, iv);
      RowMatchesAdded(rows[n], items[n], before, proto, iv);
    }
  }
}
