/** The ping test's loop (client.go): attempts after the warm-up are counted, and their latencies
    reported in batches of a thousand answers. */
module Ping {
  import opened Wire
  import opened Arithmetic
  import opened LatencyReport

  datatype Attempt = Failed | Answered(latency: int64)

  /** One printed block; without answers no latencies are reported. */
  datatype Block = Block(sent: uint32, rcvd: uint32, lost: uint32, numbers: seq<int64>, report: Report)

  const BATCH := 1000

  function Latencies(attempts: seq<Attempt>): seq<int64> {
    if |attempts| == 0 then []
    else
      var n := |attempts| - 1;
      Latencies(attempts[..n]) + if attempts[n].Answered? then [attempts[n].latency] else []
  }

  /** The attempts that are not warm-up. */
  function Measured(attempts: seq<Attempt>, warmup: nat): seq<Attempt> {
    if |attempts| <= warmup then [] else attempts[warmup..]
  }

  function AllNumbers(blocks: seq<Block>): seq<int64> {
    if |blocks| == 0 then [] else AllNumbers(blocks[..|blocks| - 1]) + blocks[|blocks| - 1].numbers
  }

  function AllSent(blocks: seq<Block>): nat {
    if |blocks| == 0 then 0 else AllSent(blocks[..|blocks| - 1]) + blocks[|blocks| - 1].sent
  }

  /** Every attempt counted was answered or lost, every answer counted has its latency, and the report is
      of those latencies. */
  ghost predicate Consistent(b: Block) {
    && b.sent == (b.rcvd + b.lost) % WRAP32
    && |b.numbers| == b.rcvd <= BATCH
    && (b.rcvd > 0 ==> Describes(b.report, b.numbers))
  }

  method PrintResults(sent: uint32, rcvd: uint32, lost: uint32, numbers: seq<int64>) returns (b: Block)
    requires |numbers| == rcvd <= BATCH && sent == (rcvd + lost) % WRAP32
    ensures b == Block(sent, rcvd, lost, numbers, b.report) && Consistent(b)
  {
    hide Describes, InRange;
    var report := IndexPanic;
    if rcvd > 0 {
      var a := new int64[rcvd](i requires 0 <= i < |numbers| => numbers[i]);
      assert a[..] == numbers;
      FirstPanic(rcvd);
      report := CalcLatency(a);
    }
    b := Block(sent, rcvd, lost, numbers, report);
  }

  function Failures(attempts: seq<Attempt>): nat {
    if |attempts| == 0 then 0
    else Failures(attempts[..|attempts| - 1]) + if attempts[|attempts| - 1].Failed? then 1 else 0
  }

  /** A block counts the attempts of one stretch, its losses and its latencies. */
  ghost predicate Covers(b: Block, stretch: seq<Attempt>) {
    b.sent == |stretch| % WRAP32 && b.lost == Failures(stretch) % WRAP32 && b.numbers == Latencies(stretch)
  }

  /** The blocks cover the attempts stretch by stretch; each stretch but the first follows an answer. */
  ghost predicate Stretches(blocks: seq<Block>, attempts: seq<Attempt>)
    decreases |blocks|, 1
  {
    if |blocks| == 0 then |attempts| == 0
    else exists i: nat :: i <= |attempts| && Stretch(blocks, attempts, i)
  }

  /** The last block's begins at `i`. */
  ghost predicate Stretch(blocks: seq<Block>, attempts: seq<Attempt>, i: nat)
    requires |blocks| > 0 && i <= |attempts|
    decreases |blocks|, 0
  {
    var last := |blocks| - 1;
    && Covers(blocks[last], attempts[i..]) && (i > 0 ==> attempts[i - 1].Answered?)
    && Stretches(blocks[..last], attempts[..i])
  }

  ghost predicate FullBatches(blocks: seq<Block>) {
    forall k :: 0 <= k < |blocks| ==> Consistent(blocks[k]) && blocks[k].rcvd == BATCH
  }

  /** The longest latency for which a batch's sum fits in 64 bits: 106 days. */
  const LONGEST := 9_223_372_036_854_775

  ghost predicate Timely(attempts: seq<Attempt>) {
    forall a :: a in attempts && a.Answered? ==> 0 <= a.latency <= LONGEST
  }

  ghost predicate Sound(b: Block, attempts: seq<Attempt>) {
    b.rcvd > 0 ==> InOrder(b.report) && (Timely(attempts) ==> b.report.min <= b.report.avg <= b.report.max)
  }

  lemma {:induction false} LatenciesOf(attempts: seq<Attempt>, x: int64)
    requires x in Latencies(attempts)
    ensures Answered(x) in attempts
  {
    var n := |attempts| - 1;
    if attempts[n] != Answered(x) {
      LatenciesOf(attempts[..n], x);
    }
  }

  lemma {:induction false} NumbersOf(blocks: seq<Block>, k: nat, x: int64)
    requires k < |blocks| && x in blocks[k].numbers
    ensures x in AllNumbers(blocks)
  {
    if k < |blocks| - 1 {
      NumbersOf(blocks[..|blocks| - 1], k, x);
    }
  }

  lemma ShortSum(numbers: seq<int64>)
    requires 1 <= |numbers| <= BATCH && forall i :: 0 <= i < |numbers| ==> 0 <= numbers[i] <= LONGEST
    ensures 0 <= Sum(numbers) < 0x8000_0000_0000_0000
  {
    SumBounds(numbers, 0, LONGEST);
    MulLe(|numbers|, BATCH, LONGEST);
  }

  /** Every block's report is in order, and its average in place unless some answer took 106 days. */
  lemma BlockSound(blocks: seq<Block>, k: nat, attempts: seq<Attempt>, warmup: nat)
    requires k < |blocks| && Consistent(blocks[k])
    requires AllNumbers(blocks) == Latencies(Measured(attempts, warmup))
    ensures Sound(blocks[k], attempts)
  {
    hide Describes, InOrder, Latencies, AllNumbers, Ascending, InRange;
    var b := blocks[k];
    if b.rcvd > 0 {
      SmallIsAscending(b.rcvd);
      PercentilesOrdered(b.report, b.numbers);
      if Timely(attempts) {
        forall i | 0 <= i < |b.numbers|
          ensures 0 <= b.numbers[i] <= LONGEST
        {
          NumbersOf(blocks, k, b.numbers[i]);
          LatenciesOf(Measured(attempts, warmup), b.numbers[i]);
        }
        ShortSum(b.numbers);
        AverageExact(b.report, b.numbers);
      }
    }
  }

  lemma AllSound(full: seq<Block>, b: Block, attempts: seq<Attempt>, warmup: nat)
    requires FullBatches(full) && Consistent(b)
    requires AllNumbers(full + [b]) == Latencies(Measured(attempts, warmup))
    ensures forall k :: 0 <= k < |full + [b]| ==> Sound((full + [b])[k], attempts)
  {
    hide Consistent, Sound, Latencies, AllNumbers;
    var blocks := full + [b];
    forall k | 0 <= k < |blocks|
      ensures Sound(blocks[k], attempts)
    {
      assert k < |full| ==> blocks[k] == full[k];
      BlockSound(blocks, k, attempts, warmup);
    }
  }

  lemma NothingYet(attempts: seq<Attempt>, warmup: nat)
    ensures FullBatches([]) && AllNumbers([]) == [] && AllSent([]) == 0
    ensures Measured(attempts[..0], warmup) == [] && Latencies([]) == []
  {
  }

  lemma AddMod(a: nat, b: nat)
    ensures (a + b % WRAP32) % WRAP32 == (a + b) % WRAP32
  {
  }

  lemma CountsNext(before: nat, sent: uint32, rcvd: uint32, lost: uint32, n: nat)
    requires sent == (rcvd + lost) % WRAP32 && (before + sent) % WRAP32 == n % WRAP32
    ensures var sent' := (sent + 1) % WRAP32;
            && sent' == (rcvd + 1 + lost) % WRAP32 == (rcvd + (lost + 1) % WRAP32) % WRAP32
            && (before + sent') % WRAP32 == (n + 1) % WRAP32
  {
    AddMod(1, rcvd + lost);
    AddMod(rcvd, lost + 1);
    AddMod(before, sent + 1);
    AddMod(1, before + sent);
    AddMod(1, n);
  }

  lemma AddBlock(blocks: seq<Block>, b: Block)
    ensures AllNumbers(blocks + [b]) == AllNumbers(blocks) + b.numbers
    ensures AllSent(blocks + [b]) == AllSent(blocks) + b.sent
    ensures (blocks + [b])[..|blocks|] == blocks
    ensures FullBatches(blocks) && Consistent(b) && b.rcvd == BATCH ==> FullBatches(blocks + [b])
  {
    assert (blocks + [b])[..|blocks|] == blocks;
  }

  lemma MeasuredNext(attempts: seq<Attempt>, i: nat, warmup: nat)
    requires i < |attempts|
    ensures var before, after := Measured(attempts[..i], warmup), Measured(attempts[..i + 1], warmup);
            if i < warmup then after == before
            else
              && after == before + [attempts[i]]
              && Latencies(after) == Latencies(before) + if attempts[i].Answered? then [attempts[i].latency] else []
  {
    if i >= warmup {
      var before, after := Measured(attempts[..i], warmup), Measured(attempts[..i + 1], warmup);
      assert after == before + [attempts[i]];
      assert after[..|after| - 1] == before;
    }
  }

  /** Where the loop stands: the blocks printed cover the first `c` attempts, the counters the others. */
  ghost predicate Counting(blocks: seq<Block>, attempts: seq<Attempt>, c: nat, sent: uint32, lost: uint32,
                           numbers: seq<int64>) {
    && c <= |attempts| && Stretches(blocks, attempts[..c]) && (c > 0 ==> attempts[c - 1].Answered?)
    && sent == |attempts[c..]| % WRAP32 && lost == Failures(attempts[c..]) % WRAP32
    && numbers == Latencies(attempts[c..])
  }

  lemma CountingBegins()
    ensures Counting([], [], 0, 0, 0, [])
  {
  }

  lemma OneMore(stretch: seq<Attempt>, a: Attempt)
    ensures Failures(stretch + [a]) == Failures(stretch) + (if a.Failed? then 1 else 0)
    ensures Latencies(stretch + [a]) == Latencies(stretch) + (if a.Answered? then [a.latency] else [])
  {
    assert (stretch + [a])[..|stretch|] == stretch;
  }

  lemma CountingNext(blocks: seq<Block>, attempts: seq<Attempt>, c: nat, sent: uint32, lost: uint32,
                     numbers: seq<int64>, a: Attempt)
    requires Counting(blocks, attempts, c, sent, lost, numbers)
    ensures Counting(blocks, attempts + [a], c, (sent + 1) % WRAP32,
                     if a.Failed? then (lost + 1) % WRAP32 else lost,
                     if a.Answered? then numbers + [a.latency] else numbers)
  {
    hide Stretches, Failures, Latencies;
    OneMore(attempts[c..], a);
    assert (attempts + [a])[..c] == attempts[..c] && (attempts + [a])[c..] == attempts[c..] + [a];
    AddMod(1, |attempts[c..]|);
    AddMod(1, Failures(attempts[c..]));
  }

  /** Printing a block ends its stretch. */
  lemma StretchEnds(blocks: seq<Block>, attempts: seq<Attempt>, c: nat, b: Block)
    requires Counting(blocks, attempts, c, b.sent, b.lost, b.numbers)
    ensures Stretches(blocks + [b], attempts)
    ensures |attempts| > 0 && attempts[|attempts| - 1].Answered? ==>
              Counting(blocks + [b], attempts, |attempts|, 0, 0, [])
  {
    var more := blocks + [b];
    assert more[..|blocks|] == blocks;
    assert Stretch(more, attempts, c);
    hide Stretch;
    assert Stretches(more, attempts);
    hide Stretches;
    assert attempts[..|attempts|] == attempts && attempts[|attempts|..] == [];
  }

  /** The loop, for as many attempts as fit before the test is over. All latencies measured are reported,
      in order and once; every block but the last holds a thousand of them, the last fewer; and each counts the
      attempts and the losses of its own stretch, which ends with its thousandth answer. */
  method RunPingTest(attempts: seq<Attempt>, warmupCount: uint32) returns (blocks: seq<Block>)
    ensures |blocks| >= 1
    ensures var last := |blocks| - 1;
            FullBatches(blocks[..last]) && Consistent(blocks[last]) && blocks[last].rcvd < BATCH
    ensures AllNumbers(blocks) == Latencies(Measured(attempts, warmupCount))
    ensures AllSent(blocks) % WRAP32 == |Measured(attempts, warmupCount)| % WRAP32
    ensures Stretches(blocks, Measured(attempts, warmupCount))
    ensures forall k :: 0 <= k < |blocks| ==> Sound(blocks[k], attempts)
  {
    hide Sound, Counting, Stretches;
    hide Latencies, Measured, AllNumbers, AllSent, Consistent, FullBatches;
    NothingYet(attempts, warmupCount);
    blocks := [];
    var sent: uint32, rcvd: uint32, lost: uint32, numbers: seq<int64> := 0, 0, 0, [];
    var warmup, i := warmupCount, 0;
    ghost var c: nat := 0;
    CountingBegins();
    while i < |attempts|
      invariant 0 <= i <= |attempts|
      invariant warmup == if i < warmupCount then warmupCount - i else 0
      invariant FullBatches(blocks)
      invariant |numbers| == rcvd < BATCH && sent == (rcvd + lost) % WRAP32
      invariant AllNumbers(blocks) + numbers == Latencies(Measured(attempts[..i], warmupCount))
      invariant (AllSent(blocks) + sent) % WRAP32 == |Measured(attempts[..i], warmupCount)| % WRAP32
      invariant Counting(blocks, Measured(attempts[..i], warmupCount), c, sent, lost, numbers)
    {
      MeasuredNext(attempts, i, warmupCount);
      if warmup > 0 {
        warmup := warmup - 1;
      } else {
        CountsNext(AllSent(blocks), sent, rcvd, lost, |Measured(attempts[..i], warmupCount)|);
        CountingNext(blocks, Measured(attempts[..i], warmupCount), c, sent, lost, numbers, attempts[i]);
        sent := (sent + 1) % WRAP32;
        match attempts[i]
        case Answered(latency) =>
          rcvd := rcvd + 1;
          numbers := numbers + [latency];
        case Failed =>
          lost := (lost + 1) % WRAP32;
      }
      if rcvd >= BATCH {
        var b := PrintResults(sent, rcvd, lost, numbers);
        AddBlock(blocks, b);
        StretchEnds(blocks, Measured(attempts[..i + 1], warmupCount), c, b);
        c := |Measured(attempts[..i + 1], warmupCount)|;
        blocks := blocks + [b];
        sent, rcvd, lost, numbers := 0, 0, 0, [];
      }
      i := i + 1;
    }
    assert attempts[..i] == attempts;
    var b := PrintResults(sent, rcvd, lost, numbers);
    AddBlock(blocks, b);
    StretchEnds(blocks, Measured(attempts, warmupCount), c, b);
    ghost var full := blocks;
    blocks := blocks + [b];
    AllSound(full, b, attempts, warmupCount);
  }
}
