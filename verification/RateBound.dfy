/** Whole runs of one quota-limited sender against the statistics ticks: a machine whose events
    are the ticks, the writes, and the starts of new windows (utils.go, client.go, stats.go). */
module RateBound {
  import opened Wire
  import opened Time
  import opened Arithmetic
  import opened Throttle

  /** `NextWindow` carries the clock readings of the quota-exhausted branch: `checked` decides
      whether to sleep, `woke` starts the window, `read` measures the new wait. */
  datatype Event =
    | Tick(at: int)
    | Wrote(at: int, n: nat)
    | NextWindow(checked: int, woke: int, read: int)

  /** `interval` counts statistics ticks since the sender began, `starts` lists the interval each
      window started in, `startLast` is the tick the running window's wait was measured from. */
  datatype Sender = Sender(now: int, last: int, interval: nat, q: Quota,
                           starts: seq<nat>, startLast: int, bytes: nat)

  function Begin(total: uint64, bufferLen: nat, t: Readings): Sender {
    Sender(t.read, t.last, 0, BeginThrottle(total, bufferLen, t), [0], t.last, 0)
  }

  function Apply(s: Sender, e: Event, total: uint64, bufferLen: nat): Sender {
    match e
    case Tick(at) => s.(now := at, last := at, interval := s.interval + 1)
    case Wrote(at, n) =>
      var q := s.q.(sentBytes := Add64(s.q.sentBytes, n));
      // When the quota is used up the rest of the accounting waits for the next window.
      s.(now := at, bytes := s.bytes + n,
         q := if q.sentBytes == total then q
              else EnforceThrottle(q, total, bufferLen, Readings(at, at, s.last)))
    case NextWindow(checked, woke, read) =>
      s.(now := read,
         q := EnforceThrottle(s.q, total, bufferLen, Readings(woke, read, s.last)),
         starts := s.starts + [s.interval], startLast := s.last)
  }

  /** What the clock and the connection may do: time does not run backwards, a write takes
      between one byte and what it was given, and a sleep lasts at least as long as asked. */
  ghost predicate Legal(s: Sender, e: Event, total: uint64) {
    match e
    case Tick(at) => s.now <= at
    case Wrote(at, n) => s.now <= at && s.q.sentBytes < total && 1 <= n <= s.q.bytesToSend
    case NextWindow(checked, woke, read) =>
      && s.q.sentBytes == total && s.now <= read && checked <= woke <= read
      && (checked - s.q.start < s.q.waitTime ==> woke >= checked + (s.q.waitTime - (checked - s.q.start)))
  }

  /** A window starts in time when the clock has not yet run 1.05 s past the latest tick, less the
      `jitter` allowed between the two clock readings. */
  predicate InTime(t: Readings, jitter: nat) {
    t.woke <= t.read <= t.woke + jitter && t.read < t.last + SECOND + MARGIN - jitter
  }

  ghost predicate Good(s: Sender, e: Event, total: uint64, jitter: nat) {
    Legal(s, e, total) && (e.NextWindow? ==> InTime(Readings(e.woke, e.read, s.last), jitter))
  }

  function Run(s: Sender, es: seq<Event>, total: uint64, bufferLen: nat): Sender
    decreases |es|
  {
    if |es| == 0 then s else Run(Apply(s, es[0], total, bufferLen), es[1..], total, bufferLen)
  }

  ghost predicate GoodRun(s: Sender, es: seq<Event>, total: uint64, bufferLen: nat, jitter: nat)
    decreases |es|
  {
    |es| == 0 || (Good(s, es[0], total, jitter)
                  && GoodRun(Apply(s, es[0], total, bufferLen), es[1..], total, bufferLen, jitter))
  }

  ghost predicate Increasing(ns: seq<nat>) {
    forall i :: 0 < i < |ns| ==> ns[i - 1] < ns[i]
  }

  /** When the running window's wait is over. */
  function Due(s: Sender): int {
    s.q.start + s.q.waitTime
  }

  ghost predicate Inv(s: Sender, total: uint64, bufferLen: nat, jitter: nat) {
    && |s.starts| > 0 && Increasing(s.starts) && s.starts[|s.starts| - 1] <= s.interval
    && (s.starts[|s.starts| - 1] == s.interval ==> s.last == s.startLast)
    && Due(s) >= s.startLast + SECOND + MARGIN - jitter
    && s.q.sentBytes <= total
    && (s.q.sentBytes < total ==> Exact(s.q, total, bufferLen))
    && s.bytes == (|s.starts| - 1) * total + s.q.sentBytes
  }

  /** The heart of the bound: the wait target of the previous window lies past the next window's
      deadline for the same tick, so a tick must have come in between. */
  lemma WindowStartsLater(s: Sender, e: Event, total: uint64, bufferLen: nat, jitter: nat)
    requires total > 0 && bufferLen > 0 && e.NextWindow?
    requires Inv(s, total, bufferLen, jitter) && Good(s, e, total, jitter)
    ensures s.startLast < s.last && s.starts[|s.starts| - 1] < s.interval
    ensures Inv(Apply(s, e, total, bufferLen), total, bufferLen, jitter)
  {
    assert e.woke >= s.startLast + SECOND + MARGIN - jitter;
    assert e.read < s.last + SECOND + MARGIN - jitter;
    var s' := Apply(s, e, total, bufferLen);
    assert s'.bytes == (|s.starts| - 1) * total + total == |s.starts| * total;
  }

  lemma StepKeepsInv(s: Sender, e: Event, total: uint64, bufferLen: nat, jitter: nat)
    requires total > 0 && bufferLen > 0
    requires Inv(s, total, bufferLen, jitter) && Good(s, e, total, jitter)
    ensures Inv(Apply(s, e, total, bufferLen), total, bufferLen, jitter)
  {
    match e
    case Tick(at) =>
    case Wrote(at, n) => WindowStep(s.q, total, bufferLen, n, Readings(at, at, s.last));
    case NextWindow(checked, woke, read) => WindowStartsLater(s, e, total, bufferLen, jitter);
  }

  lemma {:induction false} IncreasingLength(ns: seq<nat>)
    requires |ns| > 0 && Increasing(ns)
    ensures |ns| <= ns[|ns| - 1] + 1
  {
    if |ns| > 1 {
      IncreasingLength(ns[..|ns| - 1]);
    }
  }

  lemma {:induction false} RunKeepsInv(s: Sender, es: seq<Event>, total: uint64, bufferLen: nat, jitter: nat)
    requires total > 0 && bufferLen > 0
    requires Inv(s, total, bufferLen, jitter) && GoodRun(s, es, total, bufferLen, jitter)
    ensures Inv(Run(s, es, total, bufferLen), total, bufferLen, jitter)
    decreases |es|
  {
    if |es| > 0 {
      StepKeepsInv(s, es[0], total, bufferLen, jitter);
      RunKeepsInv(Apply(s, es[0], total, bufferLen), es[1..], total, bufferLen, jitter);
    }
  }

  lemma WithinQuotas(s: Sender, total: uint64, bufferLen: nat, jitter: nat)
    requires Inv(s, total, bufferLen, jitter)
    ensures Increasing(s.starts) && s.bytes <= (s.interval + 1) * total
  {
    IncreasingLength(s.starts);
    MulLe(|s.starts| - 1, s.interval, total);
  }

  /** No two windows start in the same statistics interval, so by the end of its N-th interval a
      sender has written at most N quotas, however its writes are cut up and delayed. */
  lemma RateBound(t: Readings, es: seq<Event>, total: uint64, bufferLen: nat, jitter: nat)
    requires total > 0 && bufferLen > 0 && InTime(t, jitter)
    requires GoodRun(Begin(total, bufferLen, t), es, total, bufferLen, jitter)
    ensures var s := Run(Begin(total, bufferLen, t), es, total, bufferLen);
            Increasing(s.starts) && s.bytes <= (s.interval + 1) * total
  {
    RunKeepsInv(Begin(total, bufferLen, t), es, total, bufferLen, jitter);
    WithinQuotas(Run(Begin(total, bufferLen, t), es, total, bufferLen), total, bufferLen, jitter);
  }

  // ---------------------------------------------------------------- without timeliness

  ghost predicate LegalRun(s: Sender, es: seq<Event>, total: uint64, bufferLen: nat)
    decreases |es|
  {
    |es| == 0 || (Legal(s, es[0], total) && LegalRun(Apply(s, es[0], total, bufferLen), es[1..], total, bufferLen))
  }

  /** The instant of an event. */
  function InstantOf(e: Event): int {
    match e case Tick(at) => at case Wrote(at, _) => at case NextWindow(_, _, read) => read
  }

  /** The events of a run come in the order of time. */
  lemma {:induction false} RunsInOrder(s: Sender, es: seq<Event>, total: uint64, bufferLen: nat, i: nat)
    requires LegalRun(s, es, total, bufferLen) && i < |es|
    ensures s.now <= InstantOf(es[0]) && (i > 0 ==> InstantOf(es[i - 1]) <= InstantOf(es[i]))
    decreases |es|
  {
    if i > 0 {
      var s' := Apply(s, es[0], total, bufferLen);
      assert s'.now == InstantOf(es[0]) && es[1..][0] == es[1];
      RunsInOrder(s', es[1..], total, bufferLen, i - 1);
    }
  }

  lemma {:induction false} RunsAppend(s: Sender, es: seq<Event>, fs: seq<Event>, total: uint64, bufferLen: nat)
    requires LegalRun(s, es, total, bufferLen) && LegalRun(Run(s, es, total, bufferLen), fs, total, bufferLen)
    ensures LegalRun(s, es + fs, total, bufferLen)
    ensures Run(s, es + fs, total, bufferLen) == Run(Run(s, es, total, bufferLen), fs, total, bufferLen)
    decreases |es|
  {
    if |es| == 0 {
      assert es + fs == fs;
    } else {
      RunsAppend(Apply(s, es[0], total, bufferLen), es[1..], fs, total, bufferLen);
      assert (es + fs)[1..] == es[1..] + fs;
    }
  }

  /** Ticks come a second apart, give or take 50 ms; each finds the quota used up, and does not come before a
      window that is due; sleeps last as long as asked. */
  ghost predicate Steady(s: Sender, e: Event, total: uint64) {
    && Legal(s, e, total) && InstantOf(e) < s.last + SECOND + MARGIN
    && match e
       case Tick(at) => at >= s.last + SECOND - MARGIN && s.q.sentBytes == total && at <= Due(s)
       case Wrote(_, _) => true
       case NextWindow(checked, woke, read) => checked <= Due(s) && woke == read == Due(s)
  }

  ghost predicate SteadyRun(s: Sender, es: seq<Event>, total: uint64, bufferLen: nat)
    decreases |es|
  {
    |es| == 0 || (Steady(s, es[0], total)
                  && SteadyRun(Apply(s, es[0], total, bufferLen), es[1..], total, bufferLen))
  }

  /** A window runs, and the wait that is to follow it is over already. */
  ghost predicate NoWaitAhead(s: Sender, total: uint64, bufferLen: nat) {
    && Exact(s.q, total, bufferLen) && s.q.sentBytes < total
    && Due(s) <= s.now && |s.starts| > 0
  }

  /** `s'` is `s` with the running window's quota used up, at the same instant and nothing else changed. */
  ghost predicate UsedUp(s': Sender, s: Sender, total: uint64) {
    && s'.q.sentBytes == total && s'.q.start == s.q.start && s'.q.waitTime == s.q.waitTime
    && s'.now == s.now && s'.last == s.last && s'.interval == s.interval && s'.starts == s.starts
    && s'.startLast == s.startLast && s'.bytes == s.bytes + (total - s.q.sentBytes)
  }

  /** Full writes in no time use up a quota. */
  lemma {:induction false} UseUp(s: Sender, total: uint64, bufferLen: nat) returns (es: seq<Event>)
    requires total > 0 && bufferLen > 0 && Exact(s.q, total, bufferLen) && s.q.sentBytes < total
    ensures LegalRun(s, es, total, bufferLen) && UsedUp(Run(s, es, total, bufferLen), s, total)
    ensures s.now < s.last + SECOND + MARGIN ==> SteadyRun(s, es, total, bufferLen)
    decreases total - s.q.sentBytes
  {
    var e := Wrote(s.now, s.q.bytesToSend);
    var s' := Apply(s, e, total, bufferLen);
    if s'.q.sentBytes == total {
      es := [e];
      assert es[1..] == [];
      assert Run(s, es, total, bufferLen) == Run(s', [], total, bufferLen);
    } else {
      WindowStep(s.q, total, bufferLen, s.q.bytesToSend, Readings(s.now, s.now, s.last));
      var rest := UseUp(s', total, bufferLen);
      es := [e] + rest;
      assert es[1..] == rest;
    }
  }

  /** From there, without sleep, another window starts in the same interval, and a second quota is sent in
      it. */
  lemma SecondWindow(s: Sender, total: uint64, bufferLen: nat) returns (es: seq<Event>)
    requires total > 0 && bufferLen > 0 && NoWaitAhead(s, total, bufferLen)
    ensures LegalRun(s, es, total, bufferLen)
    ensures var s' := Run(s, es, total, bufferLen);
            && s'.starts == s.starts + [s.interval] && s'.interval == s.interval
            && s'.bytes == s.bytes + (total - s.q.sentBytes) + total
  {
    var first := UseUp(s, total, bufferLen);
    var s1 := Run(s, first, total, bufferLen);
    var next := [NextWindow(s.now, s.now, s.now)];
    var s2 := Apply(s1, next[0], total, bufferLen);
    assert next[1..] == [] && Run(s1, next, total, bufferLen) == Run(s2, [], total, bufferLen) == s2;
    assert LegalRun(s2, [], total, bufferLen) && LegalRun(s1, next, total, bufferLen);
    RunsAppend(s, first, next, total, bufferLen);
    var second := UseUp(s2, total, bufferLen);
    RunsAppend(s, first + next, second, total, bufferLen);
    es := first + next + second;
  }

  /** A window that starts without jitter has no wait ahead exactly if it starts 1.05 s or more past the
      latest tick: the first window of a sender, and any later one. */
  lemma FirstLateIff(t: Readings, total: uint64, bufferLen: nat)
    requires total > 0 && bufferLen > 0 && t.woke == t.read
    ensures var late := t.read >= t.last + SECOND + MARGIN;
            NoWaitAhead(Begin(total, bufferLen, t), total, bufferLen) <==> late
  {
  }

  lemma LaterLateIff(u: Sender, t: Readings, checked: int, total: uint64, bufferLen: nat)
    requires total > 0 && bufferLen > 0 && t.woke == t.read && u.last == t.last
    requires Legal(u, NextWindow(checked, t.woke, t.read), total)
    ensures var s := Apply(u, NextWindow(checked, t.woke, t.read), total, bufferLen);
            var late := t.read >= t.last + SECOND + MARGIN;
            NoWaitAhead(s, total, bufferLen) <==> late
  {
  }

  /** The timeliness condition is needed: any window with no wait ahead can be followed by another in the
      same interval. If every interval before had its quota, more quotas have then been sent than there were
      intervals. */
  lemma LateStartBreaksBound(s: Sender, total: uint64, bufferLen: nat) returns (es: seq<Event>)
    requires total > 0 && bufferLen > 0 && NoWaitAhead(s, total, bufferLen)
    requires s.starts[|s.starts| - 1] == s.interval
    ensures LegalRun(s, es, total, bufferLen)
    ensures var s' := Run(s, es, total, bufferLen);
            && !Increasing(s'.starts)
            && (s.bytes - s.q.sentBytes == s.interval * total ==> s'.bytes > (s'.interval + 1) * total)
  {
    es := SecondWindow(s, total, bufferLen);
    var starts := Run(s, es, total, bufferLen).starts;
    assert starts[|starts| - 2] == starts[|starts| - 1];
    MulNext(s.interval, total);
  }

  // ---------------------------------------------------------------- not later than that either

  /** Windows start without jitter between the two clock readings. */
  ghost predicate Crisp(es: seq<Event>) {
    forall i :: 0 <= i < |es| && es[i].NextWindow? ==> es[i].woke == es[i].read
  }

  lemma {:induction false} DueExact(s: Sender, es: seq<Event>, total: uint64, bufferLen: nat)
    requires total > 0 && LegalRun(s, es, total, bufferLen) && Crisp(es)
    requires Due(s) == s.startLast + SECOND + MARGIN
    ensures var s' := Run(s, es, total, bufferLen); Due(s') == s'.startLast + SECOND + MARGIN
    decreases |es|
  {
    if |es| > 0 {
      DueExact(Apply(s, es[0], total, bufferLen), es[1..], total, bufferLen);
    }
  }

  function Later(a: int, b: int): int {
    if a < b then b else a
  }

  /** After any run without jitter the next window may start exactly from 1.05 s past the tick the running
      one was measured from, or as soon as the quota is found used up, whichever is later. */
  lemma EarliestWake(t: Readings, es: seq<Event>, total: uint64, bufferLen: nat, checked: int, woke: int)
    requires total > 0 && t.woke == t.read && LegalRun(Begin(total, bufferLen, t), es, total, bufferLen) && Crisp(es)
    requires var s := Run(Begin(total, bufferLen, t), es, total, bufferLen); s.q.sentBytes == total && s.now <= woke
    ensures var s := Run(Begin(total, bufferLen, t), es, total, bufferLen);
            Legal(s, NextWindow(checked, woke, woke), total) <==>
              woke >= Later(checked, s.startLast + SECOND + MARGIN)
  {
    DueExact(Begin(total, bufferLen, t), es, total, bufferLen);
  }

  /** A window has started in every interval, save the latest while its window is still to come. */
  ghost predicate Keeping(s: Sender, total: uint64, bufferLen: nat) {
    && (forall k :: 0 <= k < |s.starts| ==> s.starts[k] == k)
    && Due(s) == s.startLast + SECOND + MARGIN
    && s.q.sentBytes <= total && (s.q.sentBytes < total ==> Exact(s.q, total, bufferLen))
    && |s.starts| > 0 && s.bytes == (|s.starts| - 1) * total + s.q.sentBytes
    && (|| (|s.starts| == s.interval + 1 && s.startLast == s.last)
        || (|s.starts| == s.interval && s.q.sentBytes == total && s.startLast + SECOND - MARGIN <= s.last))
  }

  lemma NextQuota(n: nat, total: uint64)
    requires n > 0
    ensures (n - 1) * total + total == n * total
  {
  }

  lemma StepKeeping(s: Sender, e: Event, total: uint64, bufferLen: nat)
    requires total > 0 && bufferLen > 0 && Keeping(s, total, bufferLen) && Steady(s, e, total)
    ensures var s' := Apply(s, e, total, bufferLen);
            Keeping(s', total, bufferLen) && (e.Tick? ==> |s'.starts| == s'.interval)
  {
    match e
    case Tick(at) =>
    case Wrote(at, n) => WindowStep(s.q, total, bufferLen, n, Readings(at, at, s.last));
    case NextWindow(_, _, _) => NextQuota(|s.starts|, total);
  }

  lemma {:induction false} RunKeeping(s: Sender, es: seq<Event>, total: uint64, bufferLen: nat)
    requires total > 0 && bufferLen > 0 && Keeping(s, total, bufferLen) && SteadyRun(s, es, total, bufferLen)
    ensures var s' := Run(s, es, total, bufferLen);
            Keeping(s', total, bufferLen) && (|es| > 0 && es[|es| - 1].Tick? ==> |s'.starts| == s'.interval)
    decreases |es|
  {
    hide Keeping, Steady, Apply;
    if |es| > 0 {
      StepKeeping(s, es[0], total, bufferLen);
      RunKeeping(Apply(s, es[0], total, bufferLen), es[1..], total, bufferLen);
    }
  }

  /** Under a steady clock a sender that uses its quotas up in time starts one window in every interval and
      keeps the rate: at the end of its N-th interval it has written exactly N quotas. */
  lemma SteadyRate(t: Readings, es: seq<Event>, total: uint64, bufferLen: nat)
    requires total > 0 && bufferLen > 0 && t.woke == t.read < t.last + SECOND + MARGIN
    requires SteadyRun(Begin(total, bufferLen, t), es, total, bufferLen)
    ensures var s := Run(Begin(total, bufferLen, t), es, total, bufferLen);
            && s.interval <= |s.starts| <= s.interval + 1 && (forall k :: 0 <= k < |s.starts| ==> s.starts[k] == k)
            && s.interval * total <= s.bytes <= (s.interval + 1) * total
            && (|es| > 0 && es[|es| - 1].Tick? ==> s.bytes == s.interval * total)
  {
    RunKeeping(Begin(total, bufferLen, t), es, total, bufferLen);
    var s := Run(Begin(total, bufferLen, t), es, total, bufferLen);
    NextQuota(|s.starts|, total);
    MulNext(s.interval, total);
  }

  lemma {:induction false} SteadyAppend(s: Sender, es: seq<Event>, fs: seq<Event>, total: uint64, bufferLen: nat)
    requires SteadyRun(s, es, total, bufferLen) && SteadyRun(Run(s, es, total, bufferLen), fs, total, bufferLen)
    ensures SteadyRun(s, es + fs, total, bufferLen)
    ensures Run(s, es + fs, total, bufferLen) == Run(Run(s, es, total, bufferLen), fs, total, bufferLen)
    decreases |es|
  {
    hide Steady, Apply;
    if |es| == 0 {
      assert es + fs == fs;
    } else {
      SteadyAppend(Apply(s, es[0], total, bufferLen), es[1..], fs, total, bufferLen);
      assert (es + fs)[1..] == es[1..] + fs;
    }
  }

  /** A window of the current interval has just started. */
  ghost predicate Started(s: Sender, total: uint64, bufferLen: nat) {
    && Keeping(s, total, bufferLen) && |s.starts| == s.interval + 1
    && s.q.sentBytes < total && s.now < s.last + SECOND + MARGIN
  }

  /** The next tick, a second after the last unless that is over, and the window that follows it. */
  lemma TickAndWindow(s: Sender, total: uint64, bufferLen: nat) returns (es: seq<Event>)
    requires total > 0 && bufferLen > 0 && Keeping(s, total, bufferLen) && |s.starts| == s.interval + 1
    requires s.q.sentBytes == total && s.now < s.last + SECOND + MARGIN
    ensures SteadyRun(s, es, total, bufferLen)
    ensures var s' := Run(s, es, total, bufferLen); Started(s', total, bufferLen) && s'.interval == s.interval + 1
  {
    var tick, next := Tick(Later(s.now, s.last + SECOND)), NextWindow(Due(s), Due(s), Due(s));
    var s1 := Apply(s, tick, total, bufferLen);
    var s2 := Apply(s1, next, total, bufferLen);
    es := [tick, next];
    StepKeeping(s, tick, total, bufferLen);
    StepKeeping(s1, next, total, bufferLen);
    assert Due(s1) == Due(s);
    hide Keeping;
    assert es[1..] == [next] && [next][1..] == [];
    assert Run(s, es, total, bufferLen) == Run(s1, [next], total, bufferLen) == Run(s2, [], total, bufferLen) == s2;
    assert SteadyRun(s2, [], total, bufferLen) && SteadyRun(s1, [next], total, bufferLen);
  }

  lemma WholeInterval(s: Sender, total: uint64, bufferLen: nat) returns (es: seq<Event>)
    requires total > 0 && bufferLen > 0 && Started(s, total, bufferLen)
    ensures SteadyRun(s, es, total, bufferLen)
    ensures var s' := Run(s, es, total, bufferLen); Started(s', total, bufferLen) && s'.interval == s.interval + 1
  {
    var writes := UseUp(s, total, bufferLen);
    RunKeeping(s, writes, total, bufferLen);
    hide Keeping, Steady, Apply;
    var turn := TickAndWindow(Run(s, writes, total, bufferLen), total, bufferLen);
    SteadyAppend(s, writes, turn, total, bufferLen);
    es := writes + turn;
  }

  /** There are such runs for as long as one likes. */
  lemma {:induction false} SteadyRuns(s: Sender, total: uint64, bufferLen: nat, n: nat) returns (es: seq<Event>)
    requires total > 0 && bufferLen > 0 && Started(s, total, bufferLen)
    ensures SteadyRun(s, es, total, bufferLen)
    ensures Run(s, es, total, bufferLen).interval == s.interval + n
    decreases n
  {
    hide Started, Steady, Apply;
    es := [];
    if n > 0 {
      var first := WholeInterval(s, total, bufferLen);
      var rest := SteadyRuns(Run(s, first, total, bufferLen), total, bufferLen, n - 1);
      SteadyAppend(s, first, rest, total, bufferLen);
      es := first + rest;
    }
  }

  /** From any sender that begins before 1.05 s past the latest tick. */
  lemma SteadySenders(t: Readings, total: uint64, bufferLen: nat, n: nat) returns (es: seq<Event>)
    requires total > 0 && bufferLen > 0 && t.woke == t.read < t.last + SECOND + MARGIN
    ensures SteadyRun(Begin(total, bufferLen, t), es, total, bufferLen)
    ensures Run(Begin(total, bufferLen, t), es, total, bufferLen).interval == n
  {
    es := SteadyRuns(Begin(total, bufferLen, t), total, bufferLen, n);
  }
}
