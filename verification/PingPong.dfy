/** The TCP latency test: the client and the server exchange one buffer back and forth, each in a loop
    of its own (client.go, server.go). The connection is two byte channels of bounded capacity that
    deliver in order, in pieces of any size. No read or write fails. */
module PingPong {
  import opened Wire
  import opened Arithmetic

  datatype Op = Send | Receive

  // ---------------------------------------------------------------- the two loops

  /** `r` times: send, then receive. */
  function SendReceive(r: nat): seq<Op> {
    if r == 0 then [] else SendReceive(r - 1) + [Send, Receive]
  }

  /** One round of the client: the timed exchanges, and one more send for the server's benefit. */
  function ClientRound(r: nat): seq<Op> {
    SendReceive(r) + [Send]
  }

  /** One round of the server: a first receive, then its own timed exchanges. */
  function ServerRound(r: nat): seq<Op> {
    [Receive] + SendReceive(r)
  }

  lemma {:induction false} SendReceiveAt(r: nat, j: nat)
    ensures |SendReceive(r)| == 2 * r
    ensures j < 2 * r ==> SendReceive(r)[j] == if j % 2 == 0 then Send else Receive
  {
    if r > 0 {
      SendReceiveAt(r - 1, j);
    }
  }

  /** The rounds are each other's duals. */
  lemma RoundsAreDual(r: nat, j: nat)
    requires j <= 2 * r
    ensures |ClientRound(r)| == |ServerRound(r)| == 2 * r + 1
    ensures ClientRound(r)[j] == if j % 2 == 0 then Send else Receive
    ensures ServerRound(r)[j] == if j % 2 == 0 then Receive else Send
  {
    SendReceiveAt(r, j);
    if j > 0 {
      SendReceiveAt(r, j - 1);
    }
  }

  /** The n-th operation of either side, over all its rounds. */
  function ClientOp(r: nat, n: nat): Op {
    SendReceiveAt(r, 0);
    ClientRound(r)[n % (2 * r + 1)]
  }

  function ServerOp(r: nat, n: nat): Op {
    SendReceiveAt(r, 0);
    ServerRound(r)[n % (2 * r + 1)]
  }

  lemma OpsAreDual(r: nat, n: nat)
    ensures ClientOp(r, n) == Send <==> ServerOp(r, n) == Receive
  {
    RoundsAreDual(r, n % (2 * r + 1));
  }

  lemma QuotientUnique(d: nat, e: nat, q: nat, j: nat, m: nat)
    requires e < m && j < m && d * m + e == q * m + j
    ensures d == q && e == j
  {
    if d < q {
      MulNext(d, m);
      MulLe(d + 1, q, m);
    } else if q < d {
      MulNext(q, m);
      MulLe(q + 1, d, m);
    }
  }

  lemma ModAt(q: nat, j: nat, m: nat)
    requires j < m
    ensures q * m + j >= 0 && (q * m + j) % m == j
  {
    var n := q * m + j;
    assert n == (n / m) * m + n % m;
    QuotientUnique(n / m, n % m, q, j, m);
  }

  lemma ModNext(n: nat, m: nat)
    requires m > 0
    ensures (n + 1) % m == if n % m == m - 1 then 0 else n % m + 1
  {
    var q, j := n / m, n % m;
    assert n == q * m + j;
    if j == m - 1 {
      assert n + 1 == (q + 1) * m;
      ModAt(q + 1, 0, m);
    } else {
      ModAt(q, j + 1, m);
    }
  }

  /** The client never sends three times in a row, and never receives twice. */
  lemma Alternation(r: nat, n: nat)
    requires r >= 1
    ensures ClientOp(r, n) == Receive || ClientOp(r, n + 1) == Receive || ClientOp(r, n + 2) == Receive
    ensures ClientOp(r, n) == Send || ClientOp(r, n + 1) == Send
  {
    var m := 2 * r + 1;
    ModNext(n, m);
    ModNext(n + 1, m);
    RoundsAreDual(r, n % m);
    RoundsAreDual(r, (n + 1) % m);
    RoundsAreDual(r, (n + 2) % m);
  }

  // ---------------------------------------------------------------- the connection

  /** How many operations a side has completed, and how many bytes of the current one. */
  datatype Side = Side(op: nat, off: nat)

  datatype Config = Config(rttCount: nat, pattern: seq<byte>, capUp: nat, capDown: nat)

  datatype State = State(c: Side, s: Side, cbuf: seq<byte>, sbuf: seq<byte>, up: seq<byte>, down: seq<byte>)

  datatype Step = ClientPut(k: nat) | ClientTake(k: nat) | ServerPut(k: nat) | ServerTake(k: nat)

  /** What the command line guarantees, and a connection that can hold something. */
  ghost predicate Usable(g: Config) {
    g.rttCount >= 1 && |g.pattern| >= 1 && g.capUp >= 1 && g.capDown >= 1
  }

  ghost predicate Init(g: Config, st: State) {
    && st.c == st.s == Side(0, 0) && st.up == st.down == []
    && st.cbuf == g.pattern && |st.sbuf| == |g.pattern|
  }

  /** Offsets stay within the buffer. */
  ghost predicate Typed(g: Config, st: State) {
    && st.c.off < |g.pattern| && st.s.off < |g.pattern|
    && |st.cbuf| == |st.sbuf| == |g.pattern|
  }

  ghost predicate Enabled(g: Config, st: State, e: Step)
    requires Typed(g, st)
  {
    var n := |g.pattern|;
    match e
    case ClientPut(k) => ClientOp(g.rttCount, st.c.op) == Send && 1 <= k <= n - st.c.off && |st.up| + k <= g.capUp
    case ClientTake(k) => ClientOp(g.rttCount, st.c.op) == Receive && 1 <= k <= n - st.c.off && k <= |st.down|
    case ServerPut(k) => ServerOp(g.rttCount, st.s.op) == Send && 1 <= k <= n - st.s.off && |st.down| + k <= g.capDown
    case ServerTake(k) => ServerOp(g.rttCount, st.s.op) == Receive && 1 <= k <= n - st.s.off && k <= |st.up|
  }

  function Advance(x: Side, k: nat, n: nat): Side {
    if x.off + k == n then Side(x.op + 1, 0) else Side(x.op, x.off + k)
  }

  /** The buffer after `data` has been read into it at `off`. */
  function Filled(buf: seq<byte>, off: nat, data: seq<byte>): seq<byte>
    requires off + |data| <= |buf|
  {
    buf[..off] + data + buf[off + |data|..]
  }

  ghost function Do(g: Config, st: State, e: Step): State
    requires Typed(g, st) && Enabled(g, st, e)
  {
    var n := |g.pattern|;
    match e
    case ClientPut(k) => st.(c := Advance(st.c, k, n), up := st.up + st.cbuf[st.c.off..st.c.off + k])
    case ClientTake(k) =>
      st.(c := Advance(st.c, k, n), cbuf := Filled(st.cbuf, st.c.off, st.down[..k]), down := st.down[k..])
    case ServerPut(k) => st.(s := Advance(st.s, k, n), down := st.down + st.sbuf[st.s.off..st.s.off + k])
    case ServerTake(k) =>
      st.(s := Advance(st.s, k, n), sbuf := Filled(st.sbuf, st.s.off, st.up[..k]), up := st.up[k..])
  }

  // ---------------------------------------------------------------- the invariant

  /** Bytes a side has put or taken since the beginning. */
  function Pos(x: Side, n: nat): nat {
    x.op * n + x.off
  }

  ghost predicate Behind(x: Side, y: Side) {
    x.op < y.op || (x.op == y.op && x.off < y.off)
  }

  /** `y` is ahead of `x` through operations `Goes` only. */
  ghost predicate Ahead(x: Side, y: Side, r: nat, goes: Op) {
    forall k: nat {:trigger ClientOp(r, k)} ::
      x.op <= k && (k < y.op || (k == y.op && y.off > 0)) ==> ClientOp(r, k) == goes
  }

  /** Whoever is ahead has only been sending. */
  ghost predicate Order(g: Config, st: State) {
    && (Behind(st.s, st.c) ==> Ahead(st.s, st.c, g.rttCount, Send))
    && (Behind(st.c, st.s) ==> Ahead(st.c, st.s, g.rttCount, Receive))
  }

  /** A byte of the pattern repeated for ever. */
  function ByteAt(p: seq<byte>, i: nat): byte
    requires |p| > 0
  {
    p[i % |p|]
  }

  /** Its bytes `from` up to `to`. */
  function Stream(p: seq<byte>, from: nat, to: nat): seq<byte>
    requires |p| > 0
  {
    if from >= to then [] else seq<byte>(to - from, i requires i >= 0 => ByteAt(p, from + i))
  }

  /** The server's buffer agrees with the pattern as far as it has been filled. */
  ghost predicate Echoes(sbuf: seq<byte>, p: seq<byte>, s: Side) {
    |sbuf| == |p| && s.off < |p| && if s.op == 0 then sbuf[..s.off] == p[..s.off] else sbuf == p
  }

  ghost predicate Inv(g: Config, st: State)
    requires |g.pattern| > 0
  {
    var n := |g.pattern|;
    && Typed(g, st) && Order(g, st)
    && st.up == Stream(g.pattern, Pos(st.s, n), Pos(st.c, n))
    && st.down == Stream(g.pattern, Pos(st.c, n), Pos(st.s, n))
    && st.cbuf == g.pattern
    && Echoes(st.sbuf, g.pattern, st.s)
  }

  // ---------------------------------------------------------------- positions

  lemma PosOrder(x: Side, y: Side, n: nat)
    requires x.off < n && y.off < n
    ensures Pos(x, n) < Pos(y, n) <==> Behind(x, y)
    ensures Pos(x, n) == Pos(y, n) <==> x == y
  {
    if x.op < y.op {
      MulNext(x.op, n);
      MulLe(x.op + 1, y.op, n);
    } else if y.op < x.op {
      MulNext(y.op, n);
      MulLe(y.op + 1, x.op, n);
    }
  }

  lemma PosAdvance(x: Side, k: nat, n: nat)
    requires x.off + k <= n
    ensures Pos(Advance(x, k, n), n) == Pos(x, n) + k
  {
    assert (x.op + 1) * n == x.op * n + n;
  }

  lemma PosMod(x: Side, n: nat, i: nat)
    requires x.off + i < n
    ensures (Pos(x, n) + i) % n == x.off + i
  {
    ModAt(x.op, x.off + i, n);
  }

  /** The next bytes of the stream at a side's position are those of the pattern at its offset. */
  lemma StreamHere(p: seq<byte>, x: Side, k: nat)
    requires x.off + k <= |p| && |p| > 0
    ensures Stream(p, Pos(x, |p|), Pos(x, |p|) + k) == p[x.off..x.off + k]
  {
    var at := Pos(x, |p|);
    forall j | at <= j < at + k
      ensures ByteAt(p, j) == p[x.off + (j - at)]
    {
      PosMod(x, |p|, j - at);
    }
  }

  lemma StreamSplit(p: seq<byte>, a: nat, b: nat, c: nat)
    requires |p| > 0 && a <= b <= c
    ensures Stream(p, a, b) + Stream(p, b, c) == Stream(p, a, c)
  {
    hide ByteAt;
    var left, right := Stream(p, a, b) + Stream(p, b, c), Stream(p, a, c);
    forall i | 0 <= i < c - a
      ensures left[i] == right[i]
    {
      if i >= b - a {
        assert b + (i - (b - a)) == a + i;
      }
    }
  }

  // ---------------------------------------------------------------- one step

  /** Whatever a side does next is ahead or behind as the invariant allows: who has just sent may now
      be ahead, who has received was behind. */
  lemma OrderKept(g: Config, st: State, e: Step)
    requires Usable(g) && Inv(g, st) && Enabled(g, st, e)
    ensures Order(g, Do(g, st, e))
  {
    OpsAreDual(g.rttCount, st.s.op);
    PosOrder(st.s, st.c, |g.pattern|);
    var st' := Do(g, st, e);
    assert e.ServerPut? || e.ServerTake? ==> st'.c == st.c;
  }

  lemma StreamGrows(p: seq<byte>, from: nat, x: Side, k: nat)
    requires x.off + k <= |p| && |p| > 0 && from <= Pos(x, |p|)
    ensures Stream(p, from, Pos(Advance(x, k, |p|), |p|)) == Stream(p, from, Pos(x, |p|)) + p[x.off..x.off + k]
  {
    hide Stream, Advance, Pos;
    PosAdvance(x, k, |p|);
    StreamHere(p, x, k);
    StreamSplit(p, from, Pos(x, |p|), Pos(x, |p|) + k);
  }

  lemma StreamShrinks(p: seq<byte>, x: Side, to: nat, k: nat)
    requires x.off + k <= |p| && |p| > 0 && Pos(x, |p|) + k <= to
    ensures var s := Stream(p, Pos(x, |p|), to);
            && |s| == to - Pos(x, |p|) && s[..k] == p[x.off..x.off + k]
            && Stream(p, Pos(Advance(x, k, |p|), |p|), to) == s[k..]
  {
    hide Advance, Pos, ByteAt;
    PosAdvance(x, k, |p|);
    StreamHere(p, x, k);
    StreamSplit(p, Pos(x, |p|), Pos(x, |p|) + k, to);
  }

  lemma SendsNotBehind(g: Config, st: State)
    requires Usable(g) && Typed(g, st) && Order(g, st)
    ensures ClientOp(g.rttCount, st.c.op) == Send ==> Pos(st.s, |g.pattern|) <= Pos(st.c, |g.pattern|)
    ensures ServerOp(g.rttCount, st.s.op) == Send ==> Pos(st.c, |g.pattern|) <= Pos(st.s, |g.pattern|)
  {
    OpsAreDual(g.rttCount, st.s.op);
    PosOrder(st.s, st.c, |g.pattern|);
    PosOrder(st.c, st.s, |g.pattern|);
  }

  lemma FilledAgain(p: seq<byte>, off: nat, k: nat)
    requires off + k <= |p|
    ensures Filled(p, off, p[off..off + k]) == p
  {
  }

  lemma EchoesFilled(sbuf: seq<byte>, p: seq<byte>, s: Side, k: nat)
    requires Echoes(sbuf, p, s) && 1 <= k <= |p| - s.off
    ensures Echoes(Filled(sbuf, s.off, p[s.off..s.off + k]), p, Advance(s, k, |p|))
  {
    var buf := Filled(sbuf, s.off, p[s.off..s.off + k]);
    if s.op == 0 {
      assert buf[..s.off + k] == p[..s.off + k];
    }
  }

  lemma ClientStepKeeps(g: Config, st: State, e: Step)
    requires Usable(g) && Inv(g, st) && Enabled(g, st, e) && (e.ClientPut? || e.ClientTake?)
    ensures Inv(g, Do(g, st, e))
  {
    hide ClientOp, ServerOp, Pos, Order, Filled;
    var p := g.pattern;
    OrderKept(g, st, e);
    SendsNotBehind(g, st);
    PosAdvance(st.c, e.k, |p|);
    if e.ClientPut? {
      StreamGrows(p, Pos(st.s, |p|), st.c, e.k);
    } else {
      StreamShrinks(p, st.c, Pos(st.s, |p|), e.k);
      FilledAgain(p, st.c.off, e.k);
    }
  }

  lemma ServerReceivesFirst(r: nat)
    ensures ServerOp(r, 0) == Receive
  {
    RoundsAreDual(r, 0);
  }

  lemma ServerStepKeeps(g: Config, st: State, e: Step)
    requires Usable(g) && Inv(g, st) && Enabled(g, st, e) && (e.ServerPut? || e.ServerTake?)
    ensures Inv(g, Do(g, st, e))
  {
    hide ClientOp, ServerOp, Pos, Order, Filled;
    var p := g.pattern;
    OrderKept(g, st, e);
    SendsNotBehind(g, st);
    PosAdvance(st.s, e.k, |p|);
    if e.ServerPut? {
      ServerReceivesFirst(g.rttCount);
      StreamGrows(p, Pos(st.c, |p|), st.s, e.k);
    } else {
      StreamShrinks(p, st.s, Pos(st.c, |p|), e.k);
      EchoesFilled(st.sbuf, p, st.s, e.k);
    }
  }

  // ---------------------------------------------------------------- every run

  ghost predicate Run(g: Config, states: seq<State>, steps: seq<Step>) {
    && |states| == |steps| + 1 && Init(g, states[0])
    && (forall i :: 0 <= i < |steps| ==>
          Typed(g, states[i]) && Enabled(g, states[i], steps[i]) && states[i + 1] == Do(g, states[i], steps[i]))
  }

  lemma {:induction false} RunKeeps(g: Config, states: seq<State>, steps: seq<Step>, i: nat)
    requires Usable(g) && Run(g, states, steps) && i < |states|
    ensures Inv(g, states[i])
  {
    if i > 0 {
      RunKeeps(g, states, steps, i - 1);
      var e := steps[i - 1];
      if e.ClientPut? || e.ClientTake? {
        ClientStepKeeps(g, states[i - 1], e);
      } else {
        ServerStepKeeps(g, states[i - 1], e);
      }
    }
  }

  /** The channels hold no more than they can. */
  lemma {:induction false} WithinCapacity(g: Config, states: seq<State>, steps: seq<Step>, i: nat)
    requires Usable(g) && Run(g, states, steps) && i < |states|
    ensures |states[i].up| <= g.capUp && |states[i].down| <= g.capDown
  {
    hide ClientOp, ServerOp, Filled, Advance;
    if i > 0 {
      WithinCapacity(g, states, steps, i - 1);
      assert states[i] == Do(g, states[i - 1], steps[i - 1]);
    }
  }

  lemma StepFrom(g: Config, st: State) returns (e: Step)
    requires Usable(g) && Inv(g, st)
    ensures Enabled(g, st, e)
  {
    hide ClientOp, ServerOp;
    PosOrder(st.s, st.c, |g.pattern|);
    PosOrder(st.c, st.s, |g.pattern|);
    OpsAreDual(g.rttCount, st.s.op);
    if Behind(st.s, st.c) {
      e := ServerTake(1);
    } else if Behind(st.c, st.s) {
      e := ClientTake(1);
    } else {
      e := if ClientOp(g.rttCount, st.c.op) == Send then ClientPut(1) else ServerPut(1);
    }
  }

  /** No reachable state is stuck, however small the channels are. */
  lemma NeverStuck(g: Config, states: seq<State>, steps: seq<Step>, i: nat) returns (e: Step)
    requires Usable(g) && Run(g, states, steps) && i < |states|
    ensures Typed(g, states[i]) && Enabled(g, states[i], e)
  {
    hide Stream, Pos;
    RunKeeps(g, states, steps, i);
    var st := states[i];
    e := StepFrom(g, st);
  }

  lemma {:induction false} StepsMoveBytes(g: Config, states: seq<State>, steps: seq<Step>, i: nat)
    requires Usable(g) && Run(g, states, steps) && i < |states|
    ensures Pos(states[i].c, |g.pattern|) + Pos(states[i].s, |g.pattern|) >= i
  {
    if i > 0 {
      StepsMoveBytes(g, states, steps, i - 1);
      var st, e := states[i - 1], steps[i - 1];
      PosAdvance(st.c, if e.ClientPut? || e.ClientTake? then e.k else 0, |g.pattern|);
      PosAdvance(st.s, if e.ServerPut? || e.ServerTake? then e.k else 0, |g.pattern|);
    }
  }

  /** Operations of `y` begun, counting from those of `x`. */
  function Lead(x: Side, y: Side): int {
    y.op + (if y.off > 0 then 1 else 0) - x.op
  }

  lemma PosClose(x: Side, y: Side, n: nat)
    requires x.off < n && y.off < n
    ensures Behind(x, y) && Lead(x, y) <= 2 ==> Pos(y, n) - Pos(x, n) <= 2 * n
    ensures Behind(x, y) && Lead(x, y) <= 1 ==> Pos(y, n) - Pos(x, n) <= n
    ensures !Behind(x, y) ==> Pos(y, n) <= Pos(x, n)
  {
    PosOrder(x, y, n);
    if Behind(x, y) && Lead(x, y) <= 2 {
      assert y.op - x.op == 0 || y.op - x.op == 1 || y.op - x.op == 2;
      assert (x.op + 1) * n == x.op * n + n;
      assert (x.op + 2) * n == x.op * n + n + n;
    }
  }

  lemma OpsClose(g: Config, st: State)
    requires Usable(g) && Typed(g, st) && Order(g, st)
    ensures Behind(st.s, st.c) ==> Lead(st.s, st.c) <= 2
    ensures Behind(st.c, st.s) ==> Lead(st.c, st.s) <= 1
  {
    Alternation(g.rttCount, st.s.op);
    Alternation(g.rttCount, st.c.op);
    hide ClientOp;
  }

  /** A run moves both sides along, through as many bytes as it is long: each has put and taken at
      least half as many bytes as there were steps, less one buffer. */
  lemma BothProgress(g: Config, states: seq<State>, steps: seq<Step>, i: nat)
    requires Usable(g) && Run(g, states, steps) && i < |states|
    ensures var n := |g.pattern|; 2 * Pos(states[i].c, n) >= i - 2 * n && 2 * Pos(states[i].s, n) >= i - 2 * n
  {
    hide Pos, Stream;
    var st := states[i];
    StepsMoveBytes(g, states, steps, i);
    RunKeeps(g, states, steps, i);
    OpsClose(g, st);
    PosClose(st.s, st.c, |g.pattern|);
    PosClose(st.c, st.s, |g.pattern|);
  }

  function Rounds(x: Side, r: nat): nat {
    x.op / (2 * r + 1)
  }

  /** Two operations apart is at most one round apart. */
  lemma RoundsClose(a: nat, b: nat, r: nat)
    requires r >= 1 && a <= b + 2
    ensures a / (2 * r + 1) <= b / (2 * r + 1) + 1
  {
    var m := 2 * r + 1;
    assert a == a / m * m + a % m && b == b / m * m + b % m;
    if a / m >= b / m + 2 {
      MulNext(b / m, m);
      MulLe(b / m + 1, b / m + 1, m);
      MulNext(b / m + 1, m);
      MulLe(b / m + 1 + 1, b / m + 2, m);
      if a / m > b / m + 2 {
        MulNext(b / m + 2, m);
        MulLe(b / m + 2 + 1, a / m, m);
      }
    }
  }

  /** At most two buffers are on their way to the server, at most one to the client, never both at once;
      the client is never more than two operations ahead nor the server more than one, so their
      rounds differ by at most one; and everything in transit, as every buffer the client has received, is a copy
      of what the client sends. */
  lemma InFlight(g: Config, states: seq<State>, steps: seq<Step>, i: nat)
    requires Usable(g) && Run(g, states, steps) && i < |states|
    ensures var st, n := states[i], |g.pattern|;
            && |st.up| <= 2 * n && |st.down| <= n && (st.up == [] || st.down == [])
            && st.s.op - 1 <= st.c.op <= st.s.op + 2
            && Rounds(st.s, g.rttCount) - 1 <= Rounds(st.c, g.rttCount) <= Rounds(st.s, g.rttCount) + 1
            && st.cbuf == g.pattern && (st.s.op > 0 ==> st.sbuf == g.pattern)
  {
    var st := states[i];
    RunKeeps(g, states, steps, i);
    OpsClose(g, st);
    PosClose(st.s, st.c, |g.pattern|);
    PosClose(st.c, st.s, |g.pattern|);
    RoundsClose(st.s.op, st.c.op, g.rttCount);
    RoundsClose(st.c.op, st.s.op, g.rttCount);
  }
}
