/** One TCP bandwidth connection from dial to data transfer, as a machine of two processes and two
    byte streams (client.go, server.go, session.go). A read may return any non-empty part of what
    has been written, so segmentation and delay are arbitrary; the server's probe may time out
    whenever it still waits for bytes; either side may fail at any moment, in the middle of a write
    as well. */
module Handshake {
  import opened Wire
  import opened Throttle

  /** `control` says whether the client runs the synchronised start on this connection,
      `oneClient` is the server's mode. */
  datatype Config = Config(control: bool, oneClient: bool, param: ClientParam)

  const BANDWIDTH := TestID(TCP, Bandwidth)

  /** `from` is the stream position the current frame, or the payload, is read from; `chunks` counts
      payload writes, `pending` the bytes that have left of the one in progress. The client sleeps until
      its start time in multi-client mode only, the server in both modes. */
  datatype Client =
    | CStart
    | CWaitAck(from: nat)
    | CWaitReady(from: nat)
    | CSleep(from: nat, rtt: int64)
    | CData(from: nat, rtt: int64, chunks: nat, pending: nat)

  datatype Server =
    | SWaitSyn(from: nat)
    | SProbe(from: nat, param: ClientParam)
    | SWaitGo(from: nat, param: ClientParam, delay: int64)
    | SSleep(from: nat, param: ClientParam, delay: int64)
    | SData(from: nat, param: ClientParam, delay: int64, chunks: nat, pending: nat)

  /** `cOut`/`sOut` are all bytes a side has written, `cGot`/`sGot` how many of the other side's
      bytes it has read, `cBw`/`sBw` its byte counter. `isControl` records the branch the server
      took; `faulted` that a failure, or a timeout on the control connection, has happened. */
  datatype State = State(c: Client, s: Server, cOut: seq<byte>, sOut: seq<byte>, cGot: nat, sGot: nat,
                         cBw: nat, sBw: nat, isControl: bool, cDown: bool, sDown: bool, faulted: bool)

  datatype Step =
    | ClientSyn
    | ClientRead(k: nat) | ClientMsg(rtt: int64) | ClientStart
    | ServerRead(k: nat) | ServerMsg(delay: int64) | ServerTimeout | ServerStart
    | ClientPush(k: nat) | ClientCount | ClientDrain(k: nat)
    | ServerPush(k: nat) | ServerCount | ServerDrain(k: nat)
    | ClientFail | ServerFail
    | ClientTears(rtt: int64, n: nat) | ServerTears(delay: int64, n: nat)

  function Init(): State {
    State(CStart, SWaitSyn(0), [], [], 0, 0, 0, 0, false, false, false, false)
  }

  /** What the receiver holds of the frame it is reading. */
  function Acc(out: seq<byte>, from: nat, got: nat): seq<byte> {
    if from <= got <= |out| then out[from..got] else []
  }

  function ServerAcc(st: State): seq<byte> {
    Acc(st.cOut, st.s.from, st.sGot)
  }

  function ClientAcc(st: State): seq<byte> {
    if st.c.CStart? then [] else Acc(st.sOut, st.c.from, st.cGot)
  }

  predicate ClientWaits(st: State) {
    !st.cDown && (st.c.CWaitAck? || st.c.CWaitReady?)
  }

  predicate ServerWaits(st: State) {
    !st.sDown && (st.s.SWaitSyn? || st.s.SProbe? || st.s.SWaitGo?)
  }

  /** The client acts on the message it has received. */
  function ClientHandles(cfg: Config, st: State, m: EthrMsg, rtt: int64): State {
    match st.c
    case CWaitAck(_) =>
      if m != Ack then st.(cDown := true)
      else if cfg.control then st.(c := CWaitReady(st.cGot), cOut := st.cOut + Frame(SyncStart))
      else st.(c := CData(st.cGot, 0, 0, 0))
    case CWaitReady(_) =>
      if !m.SyncReady? then st.(cDown := true)
      else if m.delayNs == 0 then st.(c := CData(st.cGot, rtt, 0, 0), cOut := st.cOut + Frame(SyncGo(rtt)))
      else st.(c := CSleep(st.cGot, rtt), cOut := st.cOut + Frame(SyncGo(rtt)))
    case _ => st
  }

  /** The server acts on the message it has received; a failed or timed-out probe delivers `Inv`. */
  function ServerHandles(cfg: Config, st: State, m: EthrMsg, delay: int64): State {
    match st.s
    case SWaitSyn(_) =>
      if m.Syn? && m.testID == BANDWIDTH
      then st.(s := SProbe(st.sGot, m.clientParam), sOut := st.sOut + Frame(Ack))
      else st.(sDown := true)
    case SProbe(_, param) =>
      if m != SyncStart then st.(s := SData(st.sGot, param, 0, 0, 0))
      else
        var d: int64 := if cfg.oneClient then 0 else delay;
        st.(s := SWaitGo(st.sGot, param, d), sOut := st.sOut + Frame(SyncReady(d)), isControl := true)
    case SWaitGo(_, param, d) =>
      if m.SyncGo? then st.(s := SSleep(st.sGot, param, d)) else st.(sDown := true)
    case _ => st
  }

  /** The client after its next frame, or the first, has been written out. */
  function ClientNext(cfg: Config, st: State, rtt: int64): State
    requires st.c.CStart? || Need(ClientAcc(st)) == 0
  {
    if st.c.CStart? then st.(c := CWaitAck(st.cGot), cOut := st.cOut + Frame(Syn(BANDWIDTH, cfg.param)))
    else ClientHandles(cfg, st, Outcome(ClientAcc(st)), rtt)
  }

  function ServerNext(cfg: Config, st: State, delay: int64): State
    requires Need(ServerAcc(st)) == 0
  {
    ServerHandles(cfg, st, Outcome(ServerAcc(st)), delay)
  }

  /** The payload write that is due, or in progress. */
  function ClientChunk(cfg: Config, c: Client): nat
    requires c.CData?
  {
    ChunkLen(cfg.param.bwRate, cfg.param.bufferSize, c.chunks)
  }

  /** The server's test has no client parameters of its own, so its rate is always 0. */
  function ServerChunk(s: Server): nat
    requires s.SData?
  {
    ChunkLen(0, s.param.bufferSize, s.chunks)
  }

  predicate Enabled(cfg: Config, st: State, e: Step) {
    match e
    case ClientSyn => !st.cDown && st.c.CStart?
    case ClientRead(k) => ClientWaits(st) && 1 <= k <= Need(ClientAcc(st)) && st.cGot + k <= |st.sOut|
    case ClientMsg(_) => ClientWaits(st) && Need(ClientAcc(st)) == 0
    case ClientStart => !st.cDown && st.c.CSleep?
    case ServerRead(k) => ServerWaits(st) && 1 <= k <= Need(ServerAcc(st)) && st.sGot + k <= |st.cOut|
    case ServerMsg(_) => ServerWaits(st) && Need(ServerAcc(st)) == 0
    case ServerTimeout => !st.sDown && st.s.SProbe? && Need(ServerAcc(st)) > 0
    case ServerStart => !st.sDown && st.s.SSleep?
    case ClientPush(k) => !st.cDown && st.c.CData? && !cfg.param.reverse
                          && 1 <= k && st.c.pending + k <= ClientChunk(cfg, st.c) <= cfg.param.bufferSize
    case ClientCount => !st.cDown && st.c.CData? && !cfg.param.reverse && st.c.pending == ClientChunk(cfg, st.c)
    case ClientDrain(k) => !st.cDown && st.c.CData? && cfg.param.reverse
                           && 1 <= k <= cfg.param.bufferSize && st.cGot + k <= |st.sOut|
    case ServerPush(k) => !st.sDown && st.s.SData? && st.s.param.reverse
                          && 1 <= k && st.s.pending + k <= ServerChunk(st.s) <= st.s.param.bufferSize
    case ServerCount => !st.sDown && st.s.SData? && st.s.param.reverse && st.s.pending == ServerChunk(st.s)
    case ServerDrain(k) => !st.sDown && st.s.SData? && !st.s.param.reverse
                           && 1 <= k <= st.s.param.bufferSize && st.sGot + k <= |st.cOut|
    case ClientFail => !st.cDown
    case ServerFail => !st.sDown
    // The write of a frame breaks off after `n` bytes.
    case ClientTears(rtt, n) =>
      && !st.cDown && (st.c.CStart? || (ClientWaits(st) && Need(ClientAcc(st)) == 0))
      && |st.cOut| + n < |ClientNext(cfg, st, rtt).cOut|
    case ServerTears(delay, n) =>
      && ServerWaits(st) && Need(ServerAcc(st)) == 0
      && |st.sOut| + n < |ServerNext(cfg, st, delay).sOut|
  }

  function Apply(cfg: Config, st: State, e: Step): State
    requires Enabled(cfg, st, e)
  {
    match e
    case ClientSyn => ClientNext(cfg, st, 0)
    case ClientRead(k) => st.(cGot := st.cGot + k)
    case ClientMsg(rtt) => ClientNext(cfg, st, rtt)
    case ClientStart => st.(c := CData(st.c.from, st.c.rtt, 0, 0))
    case ServerRead(k) => st.(sGot := st.sGot + k)
    case ServerMsg(delay) => ServerNext(cfg, st, delay)
    case ServerTimeout => ServerHandles(cfg, st, EthrMsg.Inv, 0).(faulted := st.faulted || cfg.control)
    case ServerStart => st.(s := SData(st.s.from, st.s.param, st.s.delay, 0, 0))
    case ClientPush(k) =>
      var p := st.c.pending;
      st.(c := st.c.(pending := p + k), cOut := st.cOut + Pattern(cfg.param.bufferSize)[p..p + k])
    case ClientCount =>
      st.(c := st.c.(chunks := st.c.chunks + 1, pending := 0), cBw := st.cBw + st.c.pending)
    case ClientDrain(k) => st.(cGot := st.cGot + k, cBw := st.cBw + k)
    case ServerPush(k) =>
      var p := st.s.pending;
      st.(s := st.s.(pending := p + k), sOut := st.sOut + Pattern(st.s.param.bufferSize)[p..p + k])
    case ServerCount =>
      st.(s := st.s.(chunks := st.s.chunks + 1, pending := 0), sBw := st.sBw + st.s.pending)
    case ServerDrain(k) => st.(sGot := st.sGot + k, sBw := st.sBw + k)
    case ClientFail => st.(cDown := true, faulted := true)
    case ServerFail => st.(sDown := true, faulted := true)
    case ClientTears(rtt, n) =>
      var after := ClientNext(cfg, st, rtt);
      after.(c := if after.c.CData? then CSleep(after.c.from, after.c.rtt) else after.c,
             cOut := after.cOut[..|st.cOut| + n], cDown := true, faulted := true)
    case ServerTears(delay, n) =>
      var after := ServerNext(cfg, st, delay);
      after.(sOut := after.sOut[..|st.sOut| + n], sDown := true, faulted := true)
  }

  ghost predicate LegalRun(cfg: Config, st: State, es: seq<Step>)
    decreases |es|
  {
    |es| == 0 || (Enabled(cfg, st, es[0]) && LegalRun(cfg, Apply(cfg, st, es[0]), es[1..]))
  }

  function Run(cfg: Config, st: State, es: seq<Step>): State
    requires LegalRun(cfg, st, es)
    decreases |es|
  {
    if |es| == 0 then st else Run(cfg, Apply(cfg, st, es[0]), es[1..])
  }

  // ---------------------------------------------------------------- the invariant

  const SYN_LEN := 49
  const ACK_LEN := 5
  const START_LEN := 5
  const READY_LEN := 13
  const GO_LEN := 13

  lemma FrameLengths(cfg: Config, v: int64)
    ensures |Frame(Syn(BANDWIDTH, cfg.param))| == SYN_LEN
    ensures |Frame(Ack)| == ACK_LEN && |Frame(SyncStart)| == START_LEN
    ensures |Frame(SyncReady(v))| == READY_LEN && |Frame(SyncGo(v))| == GO_LEN
  {
    SynRoundTrip(BANDWIDTH, cfg.param);
  }

  function ClientHead(cfg: Config, rtt: int64): seq<byte> {
    if cfg.control then Frame(Syn(BANDWIDTH, cfg.param)) + Frame(SyncStart) + Frame(SyncGo(rtt))
    else Frame(Syn(BANDWIDTH, cfg.param))
  }

  function ServerHead(isControl: bool, delay: int64): seq<byte> {
    if isControl then Frame(Ack) + Frame(SyncReady(delay)) else Frame(Ack)
  }

  /** Everything the client writes before it stands where it does. */
  function ClientHistory(cfg: Config, c: Client): seq<byte> {
    match c
    case CStart => []
    case CWaitAck(_) => Frame(Syn(BANDWIDTH, cfg.param))
    case CWaitReady(_) => Frame(Syn(BANDWIDTH, cfg.param)) + Frame(SyncStart)
    case CSleep(_, rtt) => ClientHead(cfg, rtt)
    case CData(_, rtt, chunks, pending) =>
      ClientHead(cfg, rtt) + Begun(cfg.param.bwRate, cfg.param.bufferSize, chunks, Min(pending, cfg.param.bufferSize))
  }

  function ServerHistory(s: Server, isControl: bool): seq<byte> {
    match s
    case SWaitSyn(_) => []
    case SProbe(_, _) => Frame(Ack)
    case SWaitGo(_, _, delay) => ServerHead(true, delay)
    case SSleep(_, _, delay) => ServerHead(true, delay)
    case SData(_, param, delay, chunks, pending) =>
      ServerHead(isControl, delay) + Begun(0, param.bufferSize, chunks, Min(pending, param.bufferSize))
  }

  /** How many bytes a probe may have eaten without finding SyncStart. */
  function ProbeLimit(cfg: Config): nat {
    if cfg.control then START_LEN else 4
  }

  /** What a side has written: all of `history`, or, if a write has torn, part of it. */
  ghost predicate Wrote(out: seq<byte>, history: seq<byte>, whole: bool) {
    out <= history && (whole ==> out == history)
  }

  ghost predicate ClientInv(cfg: Config, st: State) {
    && Wrote(st.cOut, ClientHistory(cfg, st.c), !st.cDown || st.c.CData?)
    && st.cGot <= |st.sOut|
    && match st.c
       case CStart => st.cGot == 0 && st.cBw == 0
       case CWaitAck(from) => from == 0 && st.cGot <= ACK_LEN && st.cBw == 0
       case CWaitReady(from) =>
         && cfg.control && from == ACK_LEN <= st.cGot && st.cBw == 0
         && st.cGot <= ACK_LEN + (if st.isControl then READY_LEN else 4)
       case CSleep(from, _) =>
         && cfg.control && from == ACK_LEN + READY_LEN == st.cGot && st.cBw == 0
       case CData(from, _, chunks, pending) =>
         && from == (if cfg.control then ACK_LEN + READY_LEN else ACK_LEN) <= st.cGot
         && (if cfg.param.reverse then chunks == pending == 0 && st.cBw == st.cGot - from
             else st.cGot == from && pending <= ClientChunk(cfg, st.c)
                  && st.cBw == |Payload(cfg.param.bwRate, cfg.param.bufferSize, chunks)|)
  }

  ghost predicate ServerInv(cfg: Config, st: State) {
    && Wrote(st.sOut, ServerHistory(st.s, st.isControl), !st.sDown || st.s.SData?)
    && st.sGot <= |st.cOut|
    && match st.s
       case SWaitSyn(from) => from == 0 && st.sGot <= SYN_LEN && !st.isControl && st.sBw == 0
       case SProbe(from, param) =>
         && from == SYN_LEN <= st.sGot <= SYN_LEN + ProbeLimit(cfg)
         && param == cfg.param && !st.isControl && st.sBw == 0
       case SWaitGo(from, param, _) =>
         && from == SYN_LEN + START_LEN <= st.sGot <= SYN_LEN + START_LEN + GO_LEN
         && param == cfg.param && st.isControl && st.sBw == 0
       case SSleep(from, param, _) =>
         && from == SYN_LEN + START_LEN + GO_LEN == st.sGot
         && param == cfg.param && st.isControl && st.sBw == 0
       case SData(from, param, _, chunks, pending) =>
         && param == cfg.param && from <= st.sGot
         && (if st.isControl then from == SYN_LEN + START_LEN + GO_LEN
             else SYN_LEN <= from <= SYN_LEN + ProbeLimit(cfg))
         && (if param.reverse then st.sGot == from && pending <= ServerChunk(st.s)
                                   && st.sBw == |Payload(0, param.bufferSize, chunks)|
             else chunks == pending == 0 && st.sBw == st.sGot - from)
  }

  /** The client has sent its last handshake message. */
  predicate Passed(c: Client) {
    c.CSleep? || c.CData?
  }

  /** What ties the two sides together: the server takes the control branch only on the control
      connection, and the client passes the handshake only if the server did. */
  ghost predicate Agreement(cfg: Config, st: State) {
    && (st.isControl ==> cfg.control)
    && (cfg.control && Passed(st.c) ==> st.isControl)
    && (st.isControl && (st.s.SSleep? || st.s.SData?) ==> Passed(st.c))
    && (!st.faulted ==> !st.cDown && !st.sDown && (st.s.SData? ==> st.isControl == cfg.control))
  }

  ghost predicate Consistent(cfg: Config, st: State) {
    ClientInv(cfg, st) && ServerInv(cfg, st) && Agreement(cfg, st)
  }

  // ---------------------------------------------------------------- what a waiting side holds

  lemma AccOf(head: seq<byte>, tail: seq<byte>, got: nat)
    requires |head| <= got <= |head + tail|
    ensures Acc(head + tail, |head|, got) == tail[..got - |head|]
  {
  }

  /** A torn write changes nothing for a reader: what it holds is part of what was to be written. */
  lemma AccPrefix(out: seq<byte>, history: seq<byte>, from: nat, got: nat)
    requires out <= history && got <= |out|
    ensures Acc(out, from, got) == Acc(history, from, got)
  {
  }

  /** How many payload chunks have been begun at most. */
  function Chunks(c: Client): nat {
    if c.CData? then c.chunks + 1 else 0
  }

  function SentChunks(s: Server): nat {
    if s.SData? then s.chunks + 1 else 0
  }

  lemma ChunkBounds(cfg: Config, st: State)
    ensures st.c.CData? ==> ClientChunk(cfg, st.c) <= cfg.param.bufferSize
    ensures st.s.SData? ==> ServerChunk(st.s) == st.s.param.bufferSize
  {
  }

  /** Where payload has been begun it begins the payload of the chunks begun. */
  lemma ClientBegun(cfg: Config, st: State)
    requires ClientInv(cfg, st) && st.c.CData?
    ensures ClientHistory(cfg, st.c)
              <= ClientHead(cfg, st.c.rtt) + Payload(cfg.param.bwRate, cfg.param.bufferSize, Chunks(st.c))
  {
    ChunkBounds(cfg, st);
    BegunPrefix(cfg.param.bwRate, cfg.param.bufferSize, st.c.chunks, st.c.pending);
  }

  lemma ServerBegun(cfg: Config, st: State)
    requires ServerInv(cfg, st) && st.s.SData?
    ensures ServerHistory(st.s, st.isControl)
              <= ServerHead(st.isControl, st.s.delay) + Payload(0, cfg.param.bufferSize, SentChunks(st.s))
  {
    ChunkBounds(cfg, st);
    BegunPrefix(0, st.s.param.bufferSize, st.s.chunks, st.s.pending);
  }

  /** All that a reader can come to hold of a side's stream. */
  function ClientStream(cfg: Config, c: Client): seq<byte> {
    if c.CData? then ClientHead(cfg, c.rtt) + Payload(cfg.param.bwRate, cfg.param.bufferSize, Chunks(c))
    else ClientHistory(cfg, c)
  }

  function ServerStream(cfg: Config, s: Server, isControl: bool): seq<byte> {
    if s.SData? then ServerHead(isControl, s.delay) + Payload(0, cfg.param.bufferSize, SentChunks(s))
    else ServerHistory(s, isControl)
  }

  lemma ServerHolds(cfg: Config, st: State)
    requires ClientInv(cfg, st) && ServerInv(cfg, st)
    ensures st.cOut <= ClientStream(cfg, st.c)
    ensures ServerAcc(st) == Acc(ClientStream(cfg, st.c), st.s.from, st.sGot)
  {
    if st.c.CData? {
      ClientBegun(cfg, st);
    }
    AccPrefix(st.cOut, ClientStream(cfg, st.c), st.s.from, st.sGot);
  }

  lemma ClientHolds(cfg: Config, st: State)
    requires ClientInv(cfg, st) && ServerInv(cfg, st) && !st.c.CStart?
    ensures st.sOut <= ServerStream(cfg, st.s, st.isControl)
    ensures ClientAcc(st) == Acc(ServerStream(cfg, st.s, st.isControl), st.c.from, st.cGot)
  {
    if st.s.SData? {
      ServerBegun(cfg, st);
    }
    AccPrefix(st.sOut, ServerStream(cfg, st.s, st.isControl), st.c.from, st.cGot);
  }

  lemma SynHeld(cfg: Config, st: State)
    requires ClientInv(cfg, st) && ServerInv(cfg, st) && st.s.SWaitSyn?
    ensures ServerAcc(st) <= Frame(Syn(BANDWIDTH, cfg.param)) && |ServerAcc(st)| == st.sGot
  {
    FrameLengths(cfg, 0);
    ServerHolds(cfg, st);
    if !st.c.CStart? {
      assert Frame(Syn(BANDWIDTH, cfg.param)) <= ClientStream(cfg, st.c);
    }
  }

  lemma GoHeld(cfg: Config, st: State)
    requires Consistent(cfg, st) && st.s.SWaitGo?
    ensures ServerAcc(st) <= Frame(SyncGo(if Passed(st.c) then st.c.rtt else 0))
    ensures |ServerAcc(st)| == st.sGot - st.s.from
    ensures Need(ServerAcc(st)) == 0 ==> Passed(st.c)
  {
    hide Frame, Payload;
    var head := Frame(Syn(BANDWIDTH, cfg.param)) + Frame(SyncStart);
    FrameLengths(cfg, 0);
    ServerHolds(cfg, st);
    NeedWithinFrame(SyncGo(0), []);
    if Passed(st.c) {
      var go := Frame(SyncGo(st.c.rtt));
      var payload := if st.c.CData? then Payload(cfg.param.bwRate, cfg.param.bufferSize, Chunks(st.c)) else [];
      FrameLengths(cfg, st.c.rtt);
      assert ClientStream(cfg, st.c) == head + (go + payload);
      AccOf(head, go + payload, st.sGot);
    } else {
      assert ClientStream(cfg, st.c) <= head;
    }
  }

  /** A probing server holds part of SyncStart on the control connection, and part of the payload
      stream, possibly none of it, on a data connection. */
  lemma ProbeHeld(cfg: Config, st: State)
    requires Consistent(cfg, st) && st.s.SProbe?
    ensures |ServerAcc(st)| == st.sGot - st.s.from
    ensures cfg.control ==> ServerAcc(st) <= Frame(SyncStart) && !Passed(st.c)
    ensures cfg.control && Need(ServerAcc(st)) == 0 ==> st.c.CWaitReady?
    ensures !cfg.control ==> ServerAcc(st) <= Payload(cfg.param.bwRate, cfg.param.bufferSize, Chunks(st.c))
  {
    FrameLengths(cfg, 0);
    ServerHolds(cfg, st);
    NeedWithinFrame(SyncStart, []);
    var head := Frame(Syn(BANDWIDTH, cfg.param));
    var tail := ClientStream(cfg, st.c)[|head|..];
    assert ClientStream(cfg, st.c) == head + tail;
    AccOf(head, tail, st.sGot);
  }

  lemma AckHeld(cfg: Config, st: State)
    requires ClientInv(cfg, st) && ServerInv(cfg, st) && st.c.CWaitAck?
    ensures ClientAcc(st) <= Frame(Ack) && |ClientAcc(st)| == st.cGot
    ensures Need(ClientAcc(st)) == 0 ==> !st.s.SWaitSyn?
  {
    FrameLengths(cfg, 0);
    ClientHolds(cfg, st);
    NeedWithinFrame(Ack, []);
    if !st.s.SWaitSyn? {
      assert Frame(Ack) <= ServerStream(cfg, st.s, st.isControl);
    }
  }

  /** A client waiting for SyncReady holds part of it if the server took the control branch, and
      part of the server's payload stream if it did not. */
  lemma ReadyHeld(cfg: Config, st: State)
    requires Consistent(cfg, st) && st.c.CWaitReady?
    ensures |ClientAcc(st)| == st.cGot - st.c.from && !st.s.SWaitSyn?
    ensures st.isControl ==> (st.s.SWaitGo? || st.s.SSleep? || st.s.SData?)
                             && ClientAcc(st) <= Frame(SyncReady(st.s.delay))
    ensures !st.isControl ==> st.s.SProbe? || st.s.SData?
    ensures !st.isControl ==> ClientAcc(st) <= Payload(0, cfg.param.bufferSize, SentChunks(st.s))
  {
    FrameLengths(cfg, 0);
    ClientHolds(cfg, st);
    var head := Frame(Ack);
    var stream := ServerStream(cfg, st.s, st.isControl);
    var tail := stream[|head|..];
    assert stream == head + tail;
    AccOf(head, tail, st.cGot);
    if st.isControl {
      FrameLengths(cfg, st.s.delay);
      assert tail[..READY_LEN] == Frame(SyncReady(st.s.delay));
    }
  }

  // ---------------------------------------------------------------- every step keeps the invariant

  lemma ClientSynKeeps(cfg: Config, st: State, rtt: int64)
    requires Consistent(cfg, st) && Enabled(cfg, st, ClientSyn)
    ensures Consistent(cfg, ClientNext(cfg, st, rtt))
  {
    hide Frame, Payload, Begun, Need, Outcome, ChunkLen;
  }

  /** No read goes past the frame, or past what the probe may eat. */
  lemma ServerReadBounds(cfg: Config, st: State, k: nat)
    requires Consistent(cfg, st) && ServerWaits(st) && k <= Need(ServerAcc(st)) && cfg.param.bufferSize > 0
    ensures st.s.SWaitSyn? ==> st.sGot + k <= SYN_LEN
    ensures st.s.SProbe? ==> st.sGot + k <= SYN_LEN + ProbeLimit(cfg)
    ensures st.s.SWaitGo? ==> st.sGot + k <= SYN_LEN + START_LEN + GO_LEN
  {
    hide Frame, Payload, Begun, Need, Outcome, ChunkLen, ClientHistory, ServerHistory;
    FrameLengths(cfg, 0);
    match st.s
    case SWaitSyn(_) =>
      SynHeld(cfg, st);
      NeedWithinFrame(Syn(BANDWIDTH, cfg.param), ServerAcc(st));
    case SProbe(_, _) =>
      ProbeHeld(cfg, st);
      if cfg.control {
        NeedWithinFrame(SyncStart, ServerAcc(st));
      } else {
        PayloadIsNoFrame(cfg.param.bwRate, cfg.param.bufferSize, Chunks(st.c), ServerAcc(st));
      }
    case SWaitGo(_, _, _) =>
      GoHeld(cfg, st);
      var go := SyncGo(if Passed(st.c) then st.c.rtt else 0);
      FrameLengths(cfg, go.rttNs);
      NeedWithinFrame(go, ServerAcc(st));
  }

  lemma ServerReadKeeps(cfg: Config, st: State, k: nat)
    requires Consistent(cfg, st) && Enabled(cfg, st, ServerRead(k)) && cfg.param.bufferSize > 0
    ensures Consistent(cfg, Apply(cfg, st, ServerRead(k)))
  {
    hide Frame, Payload, Begun, Need, Outcome, ChunkLen, ClientHistory, ServerHistory, ServerAcc;
    ServerReadBounds(cfg, st, k);
  }

  lemma ClientReadBounds(cfg: Config, st: State, k: nat)
    requires Consistent(cfg, st) && ClientWaits(st) && k <= Need(ClientAcc(st)) && cfg.param.bufferSize > 0
    ensures st.c.CWaitAck? ==> st.cGot + k <= ACK_LEN
    ensures st.c.CWaitReady? ==> st.cGot + k <= ACK_LEN + (if st.isControl then READY_LEN else 4)
  {
    hide Frame, Payload, Begun, Need, Outcome, ChunkLen, ClientHistory, ServerHistory;
    FrameLengths(cfg, 0);
    if st.c.CWaitAck? {
      AckHeld(cfg, st);
      NeedWithinFrame(Ack, ClientAcc(st));
    } else {
      ReadyHeld(cfg, st);
      if st.isControl {
        FrameLengths(cfg, st.s.delay);
        NeedWithinFrame(SyncReady(st.s.delay), ClientAcc(st));
      } else {
        PayloadIsNoFrame(0, cfg.param.bufferSize, SentChunks(st.s), ClientAcc(st));
      }
    }
  }

  lemma ClientReadKeeps(cfg: Config, st: State, k: nat)
    requires Consistent(cfg, st) && Enabled(cfg, st, ClientRead(k)) && cfg.param.bufferSize > 0
    ensures Consistent(cfg, Apply(cfg, st, ClientRead(k)))
  {
    hide Frame, Payload, Begun, Need, Outcome, ChunkLen, ClientHistory, ServerHistory, ClientAcc;
    ClientReadBounds(cfg, st, k);
  }

  /** The client's next frame is the one it waits for, or it is rejected because the server has
      taken this connection for a data connection. */
  lemma ClientMsgIs(cfg: Config, st: State)
    requires Consistent(cfg, st) && cfg.param.bufferSize > 0
    requires ClientWaits(st) && Need(ClientAcc(st)) == 0
    ensures st.c.CWaitAck? ==> Outcome(ClientAcc(st)) == Ack && st.cGot == ACK_LEN && !st.s.SWaitSyn?
    ensures st.c.CWaitReady? && st.isControl ==>
              Outcome(ClientAcc(st)) == SyncReady(st.s.delay) && st.cGot == ACK_LEN + READY_LEN && !st.s.SData?
    ensures st.c.CWaitReady? && !st.isControl ==>
              Outcome(ClientAcc(st)) == EthrMsg.Inv && st.s.SData?
  {
    FrameLengths(cfg, 0);
    if st.c.CWaitAck? {
      AckHeld(cfg, st);
      NeedWithinFrame(Ack, ClientAcc(st));
    } else {
      ReadyHeld(cfg, st);
      if st.isControl {
        FrameLengths(cfg, st.s.delay);
        NeedWithinFrame(SyncReady(st.s.delay), ClientAcc(st));
      } else {
        PayloadIsNoFrame(0, cfg.param.bufferSize, SentChunks(st.s), ClientAcc(st));
      }
    }
  }

  /** The server's next frame is SYN or SyncGo where it waits for one; its probe finds SyncStart
      exactly on the control connection. */
  lemma ServerMsgIs(cfg: Config, st: State)
    requires Consistent(cfg, st) && cfg.param.bufferSize > 0
    requires ServerWaits(st) && Need(ServerAcc(st)) == 0
    ensures st.s.SWaitSyn? ==> Outcome(ServerAcc(st)) == Syn(BANDWIDTH, cfg.param) && st.sGot == SYN_LEN
    ensures st.s.SProbe? && cfg.control ==>
              Outcome(ServerAcc(st)) == SyncStart && st.sGot == SYN_LEN + START_LEN && st.c.CWaitReady?
    ensures st.s.SProbe? && !cfg.control ==> Outcome(ServerAcc(st)) == EthrMsg.Inv
    ensures st.s.SWaitGo? ==> Outcome(ServerAcc(st)).SyncGo? && Passed(st.c)
                              && st.sGot == SYN_LEN + START_LEN + GO_LEN
  {
    FrameLengths(cfg, 0);
    match st.s
    case SWaitSyn(_) =>
      SynHeld(cfg, st);
      NeedWithinFrame(Syn(BANDWIDTH, cfg.param), ServerAcc(st));
    case SProbe(_, _) =>
      ProbeHeld(cfg, st);
      if cfg.control {
        NeedWithinFrame(SyncStart, ServerAcc(st));
      } else {
        PayloadIsNoFrame(cfg.param.bwRate, cfg.param.bufferSize, Chunks(st.c), ServerAcc(st));
      }
    case SWaitGo(_, _, _) =>
      GoHeld(cfg, st);
      var go := SyncGo(if Passed(st.c) then st.c.rtt else 0);
      FrameLengths(cfg, go.rttNs);
      NeedWithinFrame(go, ServerAcc(st));
  }

  lemma NoPayloadYet(head: seq<byte>, total: uint64, bufferLen: nat)
    ensures head + Begun(total, bufferLen, 0, 0) == head
    ensures Payload(total, bufferLen, 0) == []
  {
  }

  lemma AckKeeps(cfg: Config, st: State, rtt: int64)
    requires Consistent(cfg, st) && Enabled(cfg, st, ClientMsg(rtt)) && cfg.param.bufferSize > 0
    requires st.c.CWaitAck?
    ensures Consistent(cfg, ClientNext(cfg, st, rtt))
  {
    hide Frame, Payload, Begun, Need, Outcome, ChunkLen;
    ClientMsgIs(cfg, st);
    NoPayloadYet(ClientHead(cfg, 0), cfg.param.bwRate, cfg.param.bufferSize);
  }

  lemma ReadyKeeps(cfg: Config, st: State, rtt: int64)
    requires Consistent(cfg, st) && Enabled(cfg, st, ClientMsg(rtt)) && cfg.param.bufferSize > 0
    requires st.c.CWaitReady?
    ensures Consistent(cfg, ClientNext(cfg, st, rtt))
  {
    hide Frame, Payload, Begun, Need, Outcome, ChunkLen;
    ClientMsgIs(cfg, st);
    NoPayloadYet(ClientHead(cfg, rtt), cfg.param.bwRate, cfg.param.bufferSize);
  }

  lemma SynKeeps(cfg: Config, st: State, delay: int64)
    requires Consistent(cfg, st) && Enabled(cfg, st, ServerMsg(delay)) && cfg.param.bufferSize > 0
    requires st.s.SWaitSyn?
    ensures Consistent(cfg, ServerNext(cfg, st, delay))
  {
    hide Frame, Payload, Begun, Need, Outcome, ChunkLen;
    ServerMsgIs(cfg, st);
    assert [] + Frame(Ack) == Frame(Ack);
  }

  lemma ProbeKeeps(cfg: Config, st: State, delay: int64)
    requires Consistent(cfg, st) && Enabled(cfg, st, ServerMsg(delay)) && cfg.param.bufferSize > 0
    requires st.s.SProbe?
    ensures Consistent(cfg, ServerNext(cfg, st, delay))
  {
    hide Frame, Payload, Begun, Need, Outcome, ChunkLen;
    ServerMsgIs(cfg, st);
    NoPayloadYet(ServerHead(false, 0), 0, cfg.param.bufferSize);
  }

  lemma GoKeeps(cfg: Config, st: State, delay: int64)
    requires Consistent(cfg, st) && Enabled(cfg, st, ServerMsg(delay)) && cfg.param.bufferSize > 0
    requires st.s.SWaitGo?
    ensures Consistent(cfg, ServerNext(cfg, st, delay))
  {
    hide Frame, Payload, Begun, Need, Outcome, ChunkLen;
    ServerMsgIs(cfg, st);
  }

  lemma ServerTimeoutKeeps(cfg: Config, st: State)
    requires Consistent(cfg, st) && Enabled(cfg, st, ServerTimeout) && cfg.param.bufferSize > 0
    ensures Consistent(cfg, Apply(cfg, st, ServerTimeout))
  {
    hide Frame, Payload, Begun, Need, Outcome, ChunkLen;
    NoPayloadYet(ServerHead(false, 0), 0, cfg.param.bufferSize);
  }

  lemma StartKeeps(cfg: Config, st: State, e: Step)
    requires Consistent(cfg, st) && Enabled(cfg, st, e) && (e.ClientStart? || e.ServerStart?)
    ensures Consistent(cfg, Apply(cfg, st, e))
  {
    hide Frame, Payload, Begun, Need, Outcome, ChunkLen;
    if e.ClientStart? {
      NoPayloadYet(ClientHead(cfg, st.c.rtt), cfg.param.bwRate, cfg.param.bufferSize);
    } else {
      NoPayloadYet(ServerHead(true, st.s.delay), 0, cfg.param.bufferSize);
    }
  }

  lemma ClientPushKeeps(cfg: Config, st: State, k: nat)
    requires Consistent(cfg, st) && Enabled(cfg, st, ClientPush(k))
    ensures Consistent(cfg, Apply(cfg, st, ClientPush(k)))
  {
    hide Frame, Payload, Begun, Need, Outcome, ChunkLen, ClientHead, ServerHistory;
    BegunMore(ClientHead(cfg, st.c.rtt), cfg.param.bwRate, cfg.param.bufferSize, st.c.chunks, st.c.pending, k);
  }

  lemma ClientCountKeeps(cfg: Config, st: State)
    requires Consistent(cfg, st) && Enabled(cfg, st, ClientCount)
    ensures Consistent(cfg, Apply(cfg, st, ClientCount))
  {
    hide Frame, Payload, Begun, Need, Outcome, ChunkLen, ClientHead;
    ChunkBounds(cfg, st);
    BegunWhole(ClientHead(cfg, st.c.rtt), cfg.param.bwRate, cfg.param.bufferSize, st.c.chunks);
  }

  lemma ServerPushKeeps(cfg: Config, st: State, k: nat)
    requires Consistent(cfg, st) && Enabled(cfg, st, ServerPush(k))
    ensures Consistent(cfg, Apply(cfg, st, ServerPush(k)))
  {
    hide Frame, Payload, Begun, Need, Outcome, ChunkLen, ServerHead, ClientHistory;
    BegunMore(ServerHead(st.isControl, st.s.delay), 0, st.s.param.bufferSize, st.s.chunks, st.s.pending, k);
  }

  lemma ServerCountKeeps(cfg: Config, st: State)
    requires Consistent(cfg, st) && Enabled(cfg, st, ServerCount)
    ensures Consistent(cfg, Apply(cfg, st, ServerCount))
  {
    hide Frame, Payload, Begun, Need, Outcome, ChunkLen, ServerHead;
    ChunkBounds(cfg, st);
    BegunWhole(ServerHead(st.isControl, st.s.delay), 0, st.s.param.bufferSize, st.s.chunks);
  }

  lemma BegunLength(total: uint64, bufferLen: nat, k: nat, n: nat)
    requires n <= bufferLen
    ensures |Begun(total, bufferLen, k, n)| == |Payload(total, bufferLen, k)| + n
  {
  }

  /** What writing a frame changes. */
  lemma ClientNextFrame(cfg: Config, st: State, rtt: int64)
    requires st.c.CStart? || (ClientWaits(st) && Need(ClientAcc(st)) == 0)
    ensures var after := ClientNext(cfg, st, rtt);
            && st.cOut <= after.cOut && after.s == st.s && after.sOut == st.sOut && after.sDown == st.sDown
            && after.cGot == st.cGot && after.sGot == st.sGot && after.cBw == st.cBw && after.sBw == st.sBw
            && after.isControl == st.isControl && after.faulted == st.faulted
            && (after.c.CData? ==> after.c.chunks == after.c.pending == 0)
            && (after.cOut != st.cOut && after.c.CData? ==> st.c.CWaitReady?)
  {
    hide Frame, Need, Outcome;
  }

  lemma ServerNextGrows(cfg: Config, st: State, delay: int64)
    requires Need(ServerAcc(st)) == 0
    ensures var after := ServerNext(cfg, st, delay);
            st.sOut <= after.sOut && (after.sOut != st.sOut ==> !after.s.SData?)
  {
    hide Frame, Need, Outcome, ServerAcc;
  }

  lemma ServerNextFrame(cfg: Config, st: State, delay: int64)
    requires Need(ServerAcc(st)) == 0
    ensures var after := ServerNext(cfg, st, delay);
            && after.c == st.c && after.cOut == st.cOut && after.cDown == st.cDown
            && after.cGot == st.cGot && after.sGot == st.sGot && after.cBw == st.cBw && after.sBw == st.sBw
            && after.faulted == st.faulted
  {
    hide Frame, Need, Outcome, ServerAcc;
  }

  /** A torn frame leaves the side where the whole frame would have, except that it is down and that the
      client does not go on to transfer data. */
  lemma ClientTearsKeeps(cfg: Config, st: State, rtt: int64, n: nat)
    requires Consistent(cfg, st) && Enabled(cfg, st, ClientTears(rtt, n))
    requires Consistent(cfg, ClientNext(cfg, st, rtt))
    ensures Consistent(cfg, Apply(cfg, st, ClientTears(rtt, n)))
  {
    hide Frame, Payload, Begun, Need, Outcome, ChunkLen, ClientNext, ClientHead, ServerHistory, ServerChunk;
    ClientNextFrame(cfg, st, rtt);
    var after := ClientNext(cfg, st, rtt);
    if after.c.CData? {
      NoPayloadYet(ClientHead(cfg, after.c.rtt), cfg.param.bwRate, cfg.param.bufferSize);
    }
  }

  lemma ServerTearsKeeps(cfg: Config, st: State, delay: int64, n: nat)
    requires Consistent(cfg, st) && Enabled(cfg, st, ServerTears(delay, n))
    requires Consistent(cfg, ServerNext(cfg, st, delay))
    ensures Consistent(cfg, Apply(cfg, st, ServerTears(delay, n)))
  {
    hide Frame, Payload, Begun, Need, Outcome, ChunkLen, ServerNext, ServerHead, ClientHistory, ClientChunk;
    ServerNextFrame(cfg, st, delay);
    ServerNextGrows(cfg, st, delay);
  }

  lemma DrainKeeps(cfg: Config, st: State, e: Step)
    requires Consistent(cfg, st) && Enabled(cfg, st, e) && (e.ClientDrain? || e.ServerDrain?)
    ensures Consistent(cfg, Apply(cfg, st, e))
  {
    hide Frame, Payload, Begun, Need, Outcome, ChunkLen;
  }

  lemma FailKeeps(cfg: Config, st: State, e: Step)
    requires Consistent(cfg, st) && Enabled(cfg, st, e) && (e.ClientFail? || e.ServerFail?)
    ensures Consistent(cfg, Apply(cfg, st, e))
  {
    hide Frame, Payload, Begun, Need, Outcome, ChunkLen;
  }

  lemma ClientNextKeeps(cfg: Config, st: State, rtt: int64)
    requires Consistent(cfg, st) && !st.cDown && cfg.param.bufferSize > 0
    requires st.c.CStart? || (ClientWaits(st) && Need(ClientAcc(st)) == 0)
    ensures Consistent(cfg, ClientNext(cfg, st, rtt))
  {
    hide ClientInv, ServerInv, Agreement, ClientNext;
    if st.c.CStart? {
      ClientSynKeeps(cfg, st, rtt);
    } else if st.c.CWaitAck? {
      AckKeeps(cfg, st, rtt);
    } else {
      ReadyKeeps(cfg, st, rtt);
    }
  }

  lemma ServerNextKeeps(cfg: Config, st: State, delay: int64)
    requires Consistent(cfg, st) && ServerWaits(st) && Need(ServerAcc(st)) == 0 && cfg.param.bufferSize > 0
    ensures Consistent(cfg, ServerNext(cfg, st, delay))
  {
    hide ClientInv, ServerInv, Agreement, ServerNext;
    match st.s {
      case SWaitSyn(_) => SynKeeps(cfg, st, delay);
      case SProbe(_, _) => ProbeKeeps(cfg, st, delay);
      case _ => GoKeeps(cfg, st, delay);
    }
  }

  lemma StepKeeps(cfg: Config, st: State, e: Step)
    requires Consistent(cfg, st) && Enabled(cfg, st, e) && cfg.param.bufferSize > 0
    ensures Consistent(cfg, Apply(cfg, st, e))
  {
    hide ClientInv, ServerInv, Agreement;
    match e
    case ClientSyn => ClientNextKeeps(cfg, st, 0);
    case ClientRead(k) => ClientReadKeeps(cfg, st, k);
    case ClientMsg(rtt) => ClientNextKeeps(cfg, st, rtt);
    case ServerRead(k) => ServerReadKeeps(cfg, st, k);
    case ServerMsg(delay) => ServerNextKeeps(cfg, st, delay);
    case ServerTimeout => ServerTimeoutKeeps(cfg, st);
    case ClientPush(k) => ClientPushKeeps(cfg, st, k);
    case ClientCount => ClientCountKeeps(cfg, st);
    case ServerPush(k) => ServerPushKeeps(cfg, st, k);
    case ServerCount => ServerCountKeeps(cfg, st);
    case ClientStart => StartKeeps(cfg, st, e);
    case ServerStart => StartKeeps(cfg, st, e);
    case ClientDrain(_) => DrainKeeps(cfg, st, e);
    case ServerDrain(_) => DrainKeeps(cfg, st, e);
    case ClientFail => FailKeeps(cfg, st, e);
    case ServerFail => FailKeeps(cfg, st, e);
    case ClientTears(rtt, n) =>
      ClientNextKeeps(cfg, st, rtt);
      ClientTearsKeeps(cfg, st, rtt, n);
    case ServerTears(delay, n) =>
      ServerNextKeeps(cfg, st, delay);
      ServerTearsKeeps(cfg, st, delay, n);
  }

  lemma {:induction false} RunKeeps(cfg: Config, st: State, es: seq<Step>)
    requires Consistent(cfg, st) && LegalRun(cfg, st, es) && cfg.param.bufferSize > 0
    ensures Consistent(cfg, Run(cfg, st, es))
    decreases |es|
  {
    if |es| > 0 {
      StepKeeps(cfg, st, es[0]);
      RunKeeps(cfg, Apply(cfg, st, es[0]), es[1..]);
    }
  }

  lemma InitConsistent(cfg: Config)
    ensures Consistent(cfg, Init())
  {
  }

  // ---------------------------------------------------------------- main results

  /** In every run the client's control connection reaches data transfer only if the server took the
      control branch for it, a data connection is never taken as control, and a server that finished
      the synchronised start is matched by a client that finished it too. */
  lemma ControlAgreement(cfg: Config, es: seq<Step>)
    requires cfg.param.bufferSize > 0 && LegalRun(cfg, Init(), es)
    ensures var st := Run(cfg, Init(), es);
            && (cfg.control && st.c.CData? ==> st.isControl)
            && (!cfg.control ==> !st.isControl)
            && (st.isControl && st.s.SData? ==> Passed(st.c))
  {
    InitConsistent(cfg);
    RunKeeps(cfg, Init(), es);
  }

  /** Bytes the probe ate from the payload stream. */
  function Eaten(cfg: Config, st: State): int {
    if cfg.control then 0 else st.s.from - SYN_LEN
  }

  /** Once both sides transfer data, every payload byte that has left the writer, counted or of the write in
      progress or cut short, is counted by the reader, still unread, or was eaten by the probe, which takes at
      most four and none on the control connection. */
  lemma Conservation(cfg: Config, es: seq<Step>)
    requires cfg.param.bufferSize > 0 && LegalRun(cfg, Init(), es)
    ensures var st := Run(cfg, Init(), es);
            st.c.CData? && st.s.SData? ==>
              && (!cfg.param.reverse ==>
                    && st.cBw + st.c.pending == st.sBw + (|st.cOut| - st.sGot) + Eaten(cfg, st)
                    && 0 <= Eaten(cfg, st) <= 4 && st.c.pending <= cfg.param.bufferSize)
              && (cfg.param.reverse ==>
                    && st.sBw + st.s.pending == st.cBw + (|st.sOut| - st.cGot)
                    && st.s.pending <= cfg.param.bufferSize)
  {
    hide Frame, Payload, Begun, ChunkLen, Need, Outcome, Apply;
    InitConsistent(cfg);
    RunKeeps(cfg, Init(), es);
    var st := Run(cfg, Init(), es);
    if st.c.CData? && st.s.SData? {
      FrameLengths(cfg, st.c.rtt);
      FrameLengths(cfg, st.s.delay);
      ChunkBounds(cfg, st);
      BegunLength(cfg.param.bwRate, cfg.param.bufferSize, st.c.chunks, st.c.pending);
      BegunLength(0, cfg.param.bufferSize, st.s.chunks, st.s.pending);
    }
  }

  // ---------------------------------------------------------------- progress

  /** The steps that carry the handshake forward. On a data connection the probe has nothing to
      find, so its timeout is one of them. */
  predicate HandshakeStep(cfg: Config, e: Step) {
    e.ClientSyn? || e.ClientRead? || e.ClientMsg? || e.ClientStart?
    || e.ServerRead? || e.ServerMsg? || e.ServerStart? || (e.ServerTimeout? && !cfg.control)
  }

  function ClientStage(c: Client): nat {
    match c case CStart => 0 case CWaitAck(_) => 1 case CWaitReady(_) => 2 case CSleep(_, _) => 3
            case CData(_, _, _, _) => 4
  }

  function ServerStage(s: Server): nat {
    match s case SWaitSyn(_) => 0 case SProbe(_, _) => 1 case SWaitGo(_, _, _) => 2 case SSleep(_, _, _) => 3
            case SData(_, _, _, _, _) => 4
  }

  /** Stages passed and handshake bytes read, on both sides. */
  function Progress(st: State): nat {
    ClientStage(st.c) + ServerStage(st.s)
    + (if st.c.CData? then st.c.from else st.cGot)
    + (if st.s.SData? then st.s.from else st.sGot)
  }

  const PROGRESS_LIMIT := 8 + ACK_LEN + READY_LEN + SYN_LEN + START_LEN + GO_LEN

  lemma ProgressBounded(cfg: Config, st: State)
    requires Consistent(cfg, st)
    ensures Progress(st) <= PROGRESS_LIMIT
  {
  }

  /** While nothing has failed a client waiting for SyncReady meets no server that took its connection
      for a data connection. */
  lemma NotTakenForData(cfg: Config, st: State)
    requires Consistent(cfg, st) && !st.faulted && st.c.CWaitReady?
    ensures st.s.SData? ==> st.isControl
  {
  }

  lemma ClientMsgAdvances(cfg: Config, st: State, rtt: int64)
    requires Consistent(cfg, st) && Enabled(cfg, st, ClientMsg(rtt)) && cfg.param.bufferSize > 0 && !st.faulted
    ensures Progress(Apply(cfg, st, ClientMsg(rtt))) > Progress(st)
  {
    hide Frame, Payload, Begun, Need, Outcome, ChunkLen;
    ClientMsgIs(cfg, st);
    if st.c.CWaitReady? {
      NotTakenForData(cfg, st);
    }
    hide ClientInv, ServerInv, Agreement;
  }

  lemma ServerMsgAdvances(cfg: Config, st: State, delay: int64)
    requires Consistent(cfg, st) && Enabled(cfg, st, ServerMsg(delay)) && cfg.param.bufferSize > 0
    ensures Progress(Apply(cfg, st, ServerMsg(delay))) > Progress(st)
  {
    hide Frame, Payload, Begun, Need, Outcome, ChunkLen;
    ServerMsgIs(cfg, st);
    hide ClientInv, ServerInv, Agreement;
  }

  lemma SynAdvances(cfg: Config, st: State)
    requires st.c.CStart?
    ensures Progress(ClientNext(cfg, st, 0)) > Progress(st)
  {
    hide Frame, Need, Outcome;
  }

  lemma ClientNextStage(cfg: Config, st: State, rtt: int64)
    requires st.c.CStart? || (ClientWaits(st) && Need(ClientAcc(st)) == 0)
    ensures ClientStage(ClientNext(cfg, st, rtt).c) >= ClientStage(st.c)
  {
    hide Frame, Need, Outcome, ClientAcc;
  }

  lemma ClientTearsAdvance(cfg: Config, st: State, rtt: int64, n: nat)
    requires Enabled(cfg, st, ClientTears(rtt, n))
    ensures Progress(Apply(cfg, st, ClientTears(rtt, n))) >= Progress(st)
  {
    hide ServerNext, ServerAcc, ClientNext, ClientAcc, Need;
    ClientNextFrame(cfg, st, rtt);
    ClientNextStage(cfg, st, rtt);
  }

  lemma ServerNextStage(cfg: Config, st: State, delay: int64)
    requires Need(ServerAcc(st)) == 0
    ensures var after := ServerNext(cfg, st, delay);
            && ServerStage(after.s) >= ServerStage(st.s)
            && (after.s.SData? && !st.s.SData? ==> after.s.from == st.sGot)
            && (st.s.SData? ==> after.s == st.s)
  {
    hide Frame, Need, Outcome, ServerAcc;
  }

  lemma ServerTearsAdvance(cfg: Config, st: State, delay: int64, n: nat)
    requires Enabled(cfg, st, ServerTears(delay, n))
    ensures Progress(Apply(cfg, st, ServerTears(delay, n))) >= Progress(st)
  {
    hide ServerNext, ServerAcc, ClientNext, ClientAcc, Need;
    ServerNextFrame(cfg, st, delay);
    ServerNextStage(cfg, st, delay);
  }

  /** Handshake steps advance the measure while nothing has failed; no other step moves it back. */
  lemma StepAdvances(cfg: Config, st: State, e: Step)
    requires Consistent(cfg, st) && Enabled(cfg, st, e) && cfg.param.bufferSize > 0 && !st.faulted
    ensures Progress(Apply(cfg, st, e)) >= Progress(st) + (if HandshakeStep(cfg, e) then 1 else 0)
  {
    hide Frame, Payload, Begun, Need, Outcome, ChunkLen, ClientNext, ServerNext;
    hide ClientAcc, ServerAcc, ClientHistory, ServerHistory, Wrote, Agreement;
    match e
    case ClientSyn => SynAdvances(cfg, st);
    case ClientMsg(rtt) => ClientMsgAdvances(cfg, st, rtt);
    case ServerMsg(delay) => ServerMsgAdvances(cfg, st, delay);
    case ClientTears(rtt, n) => ClientTearsAdvance(cfg, st, rtt, n);
    case ServerTears(delay, n) => ServerTearsAdvance(cfg, st, delay, n);
    case _ =>
  }

  function HandshakeSteps(cfg: Config, es: seq<Step>): nat {
    if |es| == 0 then 0 else HandshakeSteps(cfg, es[1..]) + (if HandshakeStep(cfg, es[0]) then 1 else 0)
  }

  lemma {:induction false} FaultsStick(cfg: Config, st: State, es: seq<Step>)
    requires LegalRun(cfg, st, es) && !Run(cfg, st, es).faulted
    ensures !st.faulted
    decreases |es|
  {
    if |es| > 0 {
      FaultsStick(cfg, Apply(cfg, st, es[0]), es[1..]);
    }
  }

  lemma {:induction false} RunAdvances(cfg: Config, st: State, es: seq<Step>)
    requires Consistent(cfg, st) && LegalRun(cfg, st, es) && cfg.param.bufferSize > 0
    requires !Run(cfg, st, es).faulted
    ensures Progress(st) + HandshakeSteps(cfg, es) <= Progress(Run(cfg, st, es))
    decreases |es|
  {
    FaultsStick(cfg, st, es);
    if |es| > 0 {
      StepAdvances(cfg, st, es[0]);
      StepKeeps(cfg, st, es[0]);
      RunAdvances(cfg, Apply(cfg, st, es[0]), es[1..]);
    }
  }

  /** A step that carries the handshake forward from here, read off the two sides' positions. */
  function NextStep(cfg: Config, st: State): Step {
    if st.c.CStart? then ClientSyn
    else if st.c.CSleep? then ClientStart
    else if st.s.SSleep? then ServerStart
    else if ClientWaits(st) && Need(ClientAcc(st)) == 0 then ClientMsg(0)
    else if ServerWaits(st) && Need(ServerAcc(st)) == 0 then ServerMsg(0)
    else if st.s.SProbe? && !cfg.control then ServerTimeout
    else if ServerWaits(st) && st.sGot < |st.cOut| then ServerRead(1)
    else ClientRead(1)
  }

  /** A server with nothing left to read, still waiting, has heard all the client has to say so far:
      the client is waiting as well, and something is on its way to it. */
  lemma ServerStarved(cfg: Config, st: State)
    requires Consistent(cfg, st) && !st.faulted && cfg.param.bufferSize > 0
    requires ServerWaits(st) && Need(ServerAcc(st)) > 0 && st.sGot == |st.cOut|
    requires st.s.SProbe? ==> cfg.control
    ensures st.c.CStart? || (st.c.CWaitAck? && st.s.SProbe?) || (st.c.CWaitReady? && st.s.SWaitGo?)
  {
    FrameLengths(cfg, 0);
    match st.s
    case SWaitSyn(_) =>
      SynHeld(cfg, st);
      NeedWithinFrame(Syn(BANDWIDTH, cfg.param), ServerAcc(st));
    case SProbe(_, _) =>
      ProbeHeld(cfg, st);
      NeedWithinFrame(SyncStart, ServerAcc(st));
    case SWaitGo(_, _, _) =>
      GoHeld(cfg, st);
      var go := SyncGo(if Passed(st.c) then st.c.rtt else 0);
      FrameLengths(cfg, go.rttNs);
      NeedWithinFrame(go, ServerAcc(st));
  }

  /** A client that waits while the server has answered has something to read. */
  lemma ClientFed(cfg: Config, st: State)
    requires Consistent(cfg, st) && !st.faulted && cfg.param.bufferSize > 0
    requires ClientWaits(st) && Need(ClientAcc(st)) > 0
    requires st.c.CWaitAck? ==> !st.s.SWaitSyn?
    requires st.c.CWaitReady? ==> !st.s.SProbe?
    ensures st.cGot < |st.sOut|
  {
    FrameLengths(cfg, 0);
    if st.c.CWaitAck? {
      AckHeld(cfg, st);
      NeedWithinFrame(Ack, ClientAcc(st));
    } else {
      ReadyHeld(cfg, st);
      FrameLengths(cfg, st.s.delay);
      NeedWithinFrame(SyncReady(st.s.delay), ClientAcc(st));
    }
  }

  /** Nobody is ever stuck: short of data transfer on both sides some handshake step can be taken. */
  lemma NextStepEnabled(cfg: Config, st: State)
    requires Consistent(cfg, st) && !st.faulted && cfg.param.bufferSize > 0
    requires !(st.c.CData? && st.s.SData?)
    ensures HandshakeStep(cfg, NextStep(cfg, st)) && Enabled(cfg, st, NextStep(cfg, st))
  {
    hide Frame, Payload, Begun, Need, Outcome, ChunkLen;
    var e := NextStep(cfg, st);
    if e.ClientRead? {
      if ServerWaits(st) {
        ServerStarved(cfg, st);
      }
      ClientFed(cfg, st);
    }
  }

  /** If no failure happens, and no timeout on the control connection, a run takes a bounded number
      of handshake steps and cannot stop short of both sides transferring data, each having taken
      the branch the connection is for: in either server mode and for every delay. */
  lemma HandshakeCompletes(cfg: Config, es: seq<Step>)
    requires cfg.param.bufferSize > 0 && LegalRun(cfg, Init(), es)
    requires !Run(cfg, Init(), es).faulted
    ensures HandshakeSteps(cfg, es) <= PROGRESS_LIMIT
    ensures var st := Run(cfg, Init(), es);
            (forall e :: HandshakeStep(cfg, e) ==> !Enabled(cfg, st, e))
              <==> st.c.CData? && st.s.SData? && st.isControl == cfg.control
  {
    InitConsistent(cfg);
    RunKeeps(cfg, Init(), es);
    RunAdvances(cfg, Init(), es);
    var st := Run(cfg, Init(), es);
    ProgressBounded(cfg, st);
    if !(st.c.CData? && st.s.SData?) {
      NextStepEnabled(cfg, st);
    }
  }

  // ---------------------------------------------------------------- a probe that times out

  /** A side's failure, which ends its part of the connection. */
  predicate Failure(e: Step) {
    e.ClientFail? || e.ServerFail? || e.ClientTears? || e.ServerTears?
  }

  ghost predicate TimesOut(es: seq<Step>) {
    exists i :: 0 <= i < |es| && es[i].ServerTimeout?
  }

  /** The server treats the connection as one that carries data only. */
  predicate TakenForData(st: State) {
    st.s.SData? && !st.isControl
  }

  lemma TakenStays(cfg: Config, st: State, e: Step)
    requires Enabled(cfg, st, e) && TakenForData(st)
    ensures TakenForData(Apply(cfg, st, e))
  {
    hide Frame, Need, Outcome, ServerNext, ClientAcc;
  }

  lemma TimeoutTakes(cfg: Config, st: State)
    requires Consistent(cfg, st) && Enabled(cfg, st, ServerTimeout)
    ensures TakenForData(Apply(cfg, st, ServerTimeout))
  {
    hide Frame, Need, Outcome;
  }

  lemma {:induction false} TimeoutRunTakes(cfg: Config, st: State, es: seq<Step>)
    requires Consistent(cfg, st) && LegalRun(cfg, st, es) && cfg.param.bufferSize > 0
    requires TakenForData(st) || TimesOut(es)
    ensures TakenForData(Run(cfg, st, es))
    decreases |es|
  {
    hide Consistent, Enabled, Apply;
    if |es| > 0 {
      StepKeeps(cfg, st, es[0]);
      if TakenForData(st) {
        TakenStays(cfg, st, es[0]);
      } else if es[0].ServerTimeout? {
        TimeoutTakes(cfg, st);
      } else {
        var i :| 0 <= i < |es| && es[i].ServerTimeout?;
        assert es[1..][i - 1].ServerTimeout?;
      }
      TimeoutRunTakes(cfg, Apply(cfg, st, es[0]), es[1..]);
    }
  }

  lemma FaultOnlyFrom(cfg: Config, st: State, e: Step)
    requires Enabled(cfg, st, e) && !st.faulted && !Failure(e) && (cfg.control ==> !e.ServerTimeout?)
    ensures !Apply(cfg, st, e).faulted
  {
    hide Frame, Need, Outcome, ClientAcc, ServerAcc;
  }

  lemma {:induction false} NoFault(cfg: Config, st: State, es: seq<Step>)
    requires LegalRun(cfg, st, es) && !st.faulted
    requires forall i :: 0 <= i < |es| ==> !Failure(es[i]) && (cfg.control ==> !es[i].ServerTimeout?)
    ensures !Run(cfg, st, es).faulted
    decreases |es|
  {
    hide Enabled, Apply, Failure;
    if |es| > 0 {
      FaultOnlyFrom(cfg, st, es[0]);
      NoFault(cfg, Apply(cfg, st, es[0]), es[1..]);
    }
  }

  /** Once the probe has timed out on the control connection the client never gets through the handshake,
      whatever happens. */
  lemma TimedOutNeverPasses(cfg: Config, es: seq<Step>)
    requires cfg.control && cfg.param.bufferSize > 0 && LegalRun(cfg, Init(), es) && TimesOut(es)
    ensures var st := Run(cfg, Init(), es); TakenForData(st) && !Passed(st.c)
  {
    hide Apply, Enabled, ClientInv, ServerInv;
    InitConsistent(cfg);
    RunKeeps(cfg, Init(), es);
    TimeoutRunTakes(cfg, Init(), es);
  }

  /** A client in forward mode that waits for an answer the server will not give. */
  predicate Deaf(cfg: Config, st: State) {
    cfg.control && !cfg.param.reverse && TakenForData(st) && st.c.CWaitReady?
  }

  /** It holds nothing, and nothing is on its way to it. */
  lemma DeafHears(cfg: Config, st: State)
    requires Consistent(cfg, st) && Deaf(cfg, st)
    ensures st.cGot == |st.sOut| && Need(ClientAcc(st)) == 4
  {
    FrameLengths(cfg, 0);
    NoPayloadYet(Frame(Ack), 0, cfg.param.bufferSize);
    hide Frame, Begun;
    assert st.sOut == Frame(Ack);
  }

  lemma DeafStays(cfg: Config, st: State, e: Step)
    requires Consistent(cfg, st) && Enabled(cfg, st, e) && Deaf(cfg, st) && !e.ClientFail?
    ensures var st' := Apply(cfg, st, e);
            Deaf(cfg, st') && st'.c == st.c && st'.cDown == st.cDown && st'.cOut == st.cOut
  {
    DeafHears(cfg, st);
    hide Frame, Need, Outcome, ServerNext, ClientNext, ClientAcc, ClientInv, Agreement;
  }

  /** From then on it waits for ever, and writes nothing the server could read: no step of its own but
      failing is enabled, in any continuation. */
  lemma {:induction false} DeafForEver(cfg: Config, st: State, es: seq<Step>)
    requires Consistent(cfg, st) && Deaf(cfg, st) && LegalRun(cfg, st, es) && cfg.param.bufferSize > 0
    requires forall i :: 0 <= i < |es| ==> !es[i].ClientFail?
    ensures var st' := Run(cfg, st, es);
            Deaf(cfg, st') && st'.c == st.c && st'.cDown == st.cDown && st'.cOut == st.cOut
    decreases |es|
  {
    hide Consistent, Enabled, Apply, Deaf;
    if |es| > 0 {
      StepKeeps(cfg, st, es[0]);
      DeafStays(cfg, st, es[0]);
      DeafForEver(cfg, Apply(cfg, st, es[0]), es[1..]);
    }
  }

  lemma MsgKeepsUp(cfg: Config, st: State, rtt: int64)
    requires Consistent(cfg, st) && Enabled(cfg, st, ClientMsg(rtt)) && cfg.param.bufferSize > 0 && !cfg.param.reverse
    ensures !ClientNext(cfg, st, rtt).cDown
  {
    hide Frame, Need, Outcome, ServerNext, ClientAcc, ServerAcc;
    ClientMsgIs(cfg, st);
    if st.c.CWaitReady? && !st.isControl {
      DeafHears(cfg, st);
    }
  }

  /** In forward mode the client gives up on nothing but failures. */
  lemma StaysUp(cfg: Config, st: State, e: Step)
    requires Consistent(cfg, st) && Enabled(cfg, st, e) && cfg.param.bufferSize > 0
    requires !cfg.param.reverse && !st.cDown && !Failure(e)
    ensures !Apply(cfg, st, e).cDown
  {
    hide Frame, Need, Outcome, ServerNext, ClientAcc, ServerAcc, ClientInv, ServerInv, Agreement;
    if e.ClientMsg? {
      MsgKeepsUp(cfg, st, e.rtt);
    } else if e.ServerMsg? {
      ServerNextFrame(cfg, st, e.delay);
    }
  }

  lemma {:induction false} ForwardStaysUp(cfg: Config, st: State, es: seq<Step>)
    requires Consistent(cfg, st) && LegalRun(cfg, st, es) && cfg.param.bufferSize > 0
    requires !cfg.param.reverse && !st.cDown && forall i :: 0 <= i < |es| ==> !Failure(es[i])
    ensures !Run(cfg, st, es).cDown
    decreases |es|
  {
    hide Consistent, Enabled, Apply, Failure;
    if |es| > 0 {
      StepKeeps(cfg, st, es[0]);
      StaysUp(cfg, st, es[0]);
      ForwardStaysUp(cfg, Apply(cfg, st, es[0]), es[1..]);
    }
  }

  /** A server past its acknowledgement has written all of it. */
  lemma AckComes(cfg: Config, st: State)
    requires Consistent(cfg, st) && TakenForData(st) && st.c.CWaitAck? && Need(ClientAcc(st)) > 0
    ensures st.cGot < |st.sOut|
  {
    FrameLengths(cfg, 0);
    AckHeld(cfg, st);
    NeedWithinFrame(Ack, ClientAcc(st));
  }

  lemma EndsWaiting(cfg: Config, st: State)
    requires Consistent(cfg, st) && TakenForData(st) && !Passed(st.c) && !st.cDown && cfg.param.bufferSize > 0
    requires forall e :: HandshakeStep(cfg, e) ==> !Enabled(cfg, st, e)
    ensures st.c.CWaitReady?
  {
    hide Frame, Need, Outcome;
    assert !Enabled(cfg, st, ClientSyn);
    if st.c.CWaitAck? {
      assert !Enabled(cfg, st, ClientRead(1)) && !Enabled(cfg, st, ClientMsg(0));
      AckComes(cfg, st);
    }
  }

  /** So a probe that times out in forward mode leaves a client that waits for ever. */
  lemma TimedOutEndsDeaf(cfg: Config, es: seq<Step>)
    requires cfg.control && !cfg.param.reverse && cfg.param.bufferSize > 0
    requires LegalRun(cfg, Init(), es) && TimesOut(es) && forall i :: 0 <= i < |es| ==> !Failure(es[i])
    requires forall e :: HandshakeStep(cfg, e) ==> !Enabled(cfg, Run(cfg, Init(), es), e)
    ensures var st := Run(cfg, Init(), es); Consistent(cfg, st) && Deaf(cfg, st) && !st.cDown
  {
    var st := Run(cfg, Init(), es);
    InitConsistent(cfg);
    RunKeeps(cfg, Init(), es);
    ForwardStaysUp(cfg, Init(), es);
    TimedOutNeverPasses(cfg, es);
    EndsWaiting(cfg, st);
  }

  /** Which handshakes succeed, if neither side fails: with no handshake step left both sides transfer data
      exactly if the probe has not timed out on the control connection. */
  lemma HandshakeExact(cfg: Config, es: seq<Step>)
    requires cfg.param.bufferSize > 0 && LegalRun(cfg, Init(), es)
    requires forall i :: 0 <= i < |es| ==> !Failure(es[i])
    requires forall e :: HandshakeStep(cfg, e) ==> !Enabled(cfg, Run(cfg, Init(), es), e)
    ensures var st := Run(cfg, Init(), es);
            st.c.CData? && st.s.SData? <==> !(cfg.control && TimesOut(es))
  {
    hide Apply, Enabled, HandshakeStep;
    if cfg.control && TimesOut(es) {
      TimedOutNeverPasses(cfg, es);
    } else {
      NoFault(cfg, Init(), es);
      HandshakeCompletes(cfg, es);
    }
  }

  // ---------------------------------------------------------------- who waits for the start, and how long

  /** The delay the server has advertised, once it has. */
  function Advertised(s: Server): int64 {
    if s.SWaitSyn? || s.SProbe? then 0 else s.delay
  }

  /** A client that sleeps was told of a delay, and one that transfers data on the control connection has
      started after a sleep exactly if it was; a server that has started was on the control branch. */
  ghost predicate Waited(cfg: Config, st: State, clientStarted: bool, serverStarted: bool) {
    && (match st.c
        case CSleep(_, _) => !clientStarted && (st.cDown || Advertised(st.s) != 0)
        case CData(_, _, _, _) => clientStarted == (cfg.control && Advertised(st.s) != 0)
        case _ => !clientStarted)
    && (if st.s.SData? then serverStarted == st.isControl else !serverStarted)
  }

  /** Whether the client sleeps is up to the delay the server has sent. */
  lemma ReadyDecides(cfg: Config, st: State, rtt: int64)
    requires Consistent(cfg, st) && Enabled(cfg, st, ClientMsg(rtt)) && cfg.param.bufferSize > 0
    requires st.c.CWaitReady? && st.isControl
    ensures var after := Apply(cfg, st, ClientMsg(rtt));
            && (after.c.CSleep? <==> st.s.delay != 0) && (after.c.CData? <==> st.s.delay == 0)
            && after.c.rtt == rtt && after.cOut == st.cOut + Frame(SyncGo(rtt)) && !after.cDown && after.s == st.s
  {
    hide Frame, Need, Outcome, ServerNext;
    ClientMsgIs(cfg, st);
  }

  lemma ClientFrameWaits(cfg: Config, st: State, rtt: int64, serverStarted: bool)
    requires Consistent(cfg, st) && !st.cDown && cfg.param.bufferSize > 0
    requires st.c.CStart? || (ClientWaits(st) && Need(ClientAcc(st)) == 0)
    requires Waited(cfg, st, false, serverStarted)
    ensures Waited(cfg, ClientNext(cfg, st, rtt), false, serverStarted)
  {
    hide Frame, Need, Outcome, ServerNext;
    if !st.c.CStart? {
      ClientMsgIs(cfg, st);
    }
  }

  lemma ServerFrameWaits(cfg: Config, st: State, delay: int64, clientStarted: bool)
    requires Consistent(cfg, st) && ServerWaits(st) && Need(ServerAcc(st)) == 0 && cfg.param.bufferSize > 0
    requires Waited(cfg, st, clientStarted, false)
    ensures Waited(cfg, ServerNext(cfg, st, delay), clientStarted, false)
  {
    hide Frame, Need, Outcome, ClientNext;
    ServerMsgIs(cfg, st);
  }

  lemma StepWaits(cfg: Config, st: State, e: Step, clientStarted: bool, serverStarted: bool)
    requires Consistent(cfg, st) && Enabled(cfg, st, e) && cfg.param.bufferSize > 0
    requires Waited(cfg, st, clientStarted, serverStarted)
    ensures Waited(cfg, Apply(cfg, st, e), clientStarted || e.ClientStart?, serverStarted || e.ServerStart?)
  {
    hide Frame, Payload, Begun, Need, Outcome, ChunkLen, ClientNext, ServerNext, ServerAcc, ClientAcc;
    hide ClientHistory, ServerHistory;
    match e
    case ClientSyn => ClientFrameWaits(cfg, st, 0, serverStarted);
    case ClientMsg(rtt) => ClientFrameWaits(cfg, st, rtt, serverStarted);
    case ClientTears(rtt, _) => ClientFrameWaits(cfg, st, rtt, serverStarted);
    case ServerMsg(delay) => ServerFrameWaits(cfg, st, delay, clientStarted);
    case ServerTears(delay, _) => ServerFrameWaits(cfg, st, delay, clientStarted);
    case _ =>
  }

  lemma {:induction false} RunWaits(cfg: Config, st: State, es: seq<Step>, clientStarted: bool, serverStarted: bool)
    requires Consistent(cfg, st) && LegalRun(cfg, st, es) && cfg.param.bufferSize > 0
    requires Waited(cfg, st, clientStarted, serverStarted)
    ensures Waited(cfg, Run(cfg, st, es), clientStarted || ClientStart in es, serverStarted || ServerStart in es)
    decreases |es|
  {
    hide Consistent, Enabled, Apply, Waited;
    if |es| > 0 {
      assert es == [es[0]] + es[1..];
      StepKeeps(cfg, st, es[0]);
      StepWaits(cfg, st, es[0], clientStarted, serverStarted);
      RunWaits(cfg, Apply(cfg, st, es[0]), es[1..], clientStarted || es[0].ClientStart?,
               serverStarted || es[0].ServerStart?);
    }
  }

  /** The delay an event of the server offers to send. */
  function Offered(e: Step): int64 {
    if e.ServerMsg? || e.ServerTears? then e.delay else 0
  }

  /** The one offered in the step in which the server takes the control branch. */
  ghost function DelaySent(cfg: Config, st: State, es: seq<Step>): int64
    requires LegalRun(cfg, st, es)
    decreases |es|
  {
    if |es| == 0 then 0
    else if !st.isControl && Apply(cfg, st, es[0]).isControl then Offered(es[0])
    else DelaySent(cfg, Apply(cfg, st, es[0]), es[1..])
  }

  lemma ServerFrameSends(cfg: Config, st: State, delay: int64)
    requires Consistent(cfg, st) && ServerWaits(st) && Need(ServerAcc(st)) == 0
    ensures var after := ServerNext(cfg, st, delay);
            && (st.isControl ==> after.isControl && Advertised(after.s) == Advertised(st.s))
            && (!st.isControl && after.isControl ==> Advertised(after.s) == if cfg.oneClient then 0 else delay)
  {
    hide Frame, Payload, Begun, Need, Outcome, ChunkLen, ServerAcc, ClientAcc, ClientHistory, ServerHistory;
  }

  lemma StepSends(cfg: Config, st: State, e: Step)
    requires Consistent(cfg, st) && Enabled(cfg, st, e)
    ensures var after := Apply(cfg, st, e);
            && (st.isControl ==> after.isControl && Advertised(after.s) == Advertised(st.s))
            && (!st.isControl && after.isControl ==> Advertised(after.s) == if cfg.oneClient then 0 else Offered(e))
  {
    hide Frame, Payload, Begun, Need, Outcome, ChunkLen, ClientNext, ServerNext, ServerAcc, ClientAcc;
    hide ClientHistory, ServerHistory;
    match e
    case ClientSyn => ClientNextFrame(cfg, st, 0);
    case ClientMsg(rtt) => ClientNextFrame(cfg, st, rtt);
    case ClientTears(rtt, _) => ClientNextFrame(cfg, st, rtt);
    case ServerMsg(delay) => ServerFrameSends(cfg, st, delay);
    case ServerTears(delay, _) => ServerFrameSends(cfg, st, delay);
    case _ =>
  }

  lemma {:induction false} RunSends(cfg: Config, st: State, es: seq<Step>)
    requires Consistent(cfg, st) && LegalRun(cfg, st, es) && cfg.param.bufferSize > 0
    ensures var st' := Run(cfg, st, es);
            && (st.isControl ==> st'.isControl && Advertised(st'.s) == Advertised(st.s))
            && (!st.isControl && st'.isControl ==>
                  Advertised(st'.s) == if cfg.oneClient then 0 else DelaySent(cfg, st, es))
    decreases |es|
  {
    hide Consistent, Enabled, Apply, Offered, Advertised;
    if |es| > 0 {
      StepKeeps(cfg, st, es[0]);
      StepSends(cfg, st, es[0]);
      RunSends(cfg, Apply(cfg, st, es[0]), es[1..]);
    }
  }

  /** No payload has left a client that does not transfer data yet. */
  lemma NoPayloadBefore(cfg: Config, st: State)
    requires Consistent(cfg, st) && !st.c.CData?
    ensures st.cBw == 0 && |st.cOut| <= SYN_LEN + START_LEN + GO_LEN
  {
    FrameLengths(cfg, if st.c.CSleep? then st.c.rtt else 0);
    hide Frame, Payload, Begun;
  }

  /** Which delay the server sends, and who waits for it. It is the one of the step in which the server takes
      the control branch, or none in single-client mode. A client that has taken SyncReady sleeps until its
      start, or has slept, exactly if that delay is not zero; until it has no payload leaves it. The server
      sleeps exactly on the control branch. */
  lemma StartsInStep(cfg: Config, es: seq<Step>)
    requires cfg.param.bufferSize > 0 && LegalRun(cfg, Init(), es)
    ensures var st := Run(cfg, Init(), es);
            var delay := if cfg.oneClient then 0 else DelaySent(cfg, Init(), es);
            && (st.isControl ==> Advertised(st.s) == delay)
            && (cfg.control && Passed(st.c) && !st.cDown ==> (st.c.CSleep? || ClientStart in es <==> delay != 0))
            && (cfg.control && st.c.CData? ==> (ClientStart in es <==> delay != 0))
            && (st.c.CSleep? ==> ClientStart !in es)
            && (!st.c.CData? ==> st.cBw == 0 && |st.cOut| <= SYN_LEN + START_LEN + GO_LEN)
            && (st.s.SData? ==> (ServerStart in es <==> st.isControl))
  {
    hide Apply, Enabled, ClientInv, ServerInv;
    InitConsistent(cfg);
    RunKeeps(cfg, Init(), es);
    RunWaits(cfg, Init(), es, false, false);
    RunSends(cfg, Init(), es);
    var st := Run(cfg, Init(), es);
    if !st.c.CData? {
      NoPayloadBefore(cfg, st);
    }
  }

  /** Once both sides transfer data and are up, the writer can always go on, and the reader whenever there is
      something to read. */
  lemma TransferGoesOn(cfg: Config, st: State)
    requires Consistent(cfg, st) && cfg.param.bufferSize > 0
    requires st.c.CData? && st.s.SData? && !st.cDown && !st.sDown
    ensures !cfg.param.reverse ==> Enabled(cfg, st, ClientPush(1)) || Enabled(cfg, st, ClientCount)
    ensures !cfg.param.reverse && st.sGot < |st.cOut| ==> Enabled(cfg, st, ServerDrain(1))
    ensures cfg.param.reverse ==> Enabled(cfg, st, ServerPush(1)) || Enabled(cfg, st, ServerCount)
    ensures cfg.param.reverse && st.cGot < |st.sOut| ==> Enabled(cfg, st, ClientDrain(1))
  {
    hide Frame, Payload, Begun, Need, Outcome, ServerHistory, ClientHistory;
    ChunkBounds(cfg, st);
  }

  // ---------------------------------------------------------------- a side that fails

  /** All there is of a side: where it stands, what it has written, read and counted. */
  datatype Half<T> = Half(at: T, out: seq<byte>, got: nat, bw: nat, down: bool)

  function ClientHalf(st: State): Half<Client> {
    Half(st.c, st.cOut, st.cGot, st.cBw, st.cDown)
  }

  function ServerHalf(st: State): Half<Server> {
    Half(st.s, st.sOut, st.sGot, st.sBw, st.sDown)
  }

  /** A failing side goes down; a frame it was writing has left in part, and the other side is as before. */
  lemma Fails(cfg: Config, st: State, e: Step)
    requires Enabled(cfg, st, e) && Failure(e)
    ensures var after := Apply(cfg, st, e);
            if e.ClientFail? || e.ClientTears? then
              && after.cDown && ServerHalf(after) == ServerHalf(st) && st.cOut <= after.cOut
              && |after.cOut| == |st.cOut| + (if e.ClientTears? then e.n else 0)
              && (e.ClientTears? ==> after.cOut <= ClientNext(cfg, st, e.rtt).cOut)
            else
              && after.sDown && ClientHalf(after) == ClientHalf(st) && st.sOut <= after.sOut
              && |after.sOut| == |st.sOut| + (if e.ServerTears? then e.n else 0)
              && (e.ServerTears? ==> after.sOut <= ServerNext(cfg, st, e.delay).sOut)
  {
    hide Frame, Need, Outcome, ClientNext, ServerNext, ClientAcc, ServerAcc;
    match e
    case ClientTears(rtt, _) => ClientNextFrame(cfg, st, rtt);
    case ServerTears(delay, _) =>
      ServerNextFrame(cfg, st, delay);
      ServerNextGrows(cfg, st, delay);
    case _ =>
  }

  lemma StaysDown(cfg: Config, st: State, e: Step)
    requires Enabled(cfg, st, e)
    ensures st.cDown ==> ClientHalf(Apply(cfg, st, e)) == ClientHalf(st)
    ensures st.sDown ==> ServerHalf(Apply(cfg, st, e)) == ServerHalf(st)
  {
    hide Frame, Need, Outcome, ClientNext, ServerNext, ClientAcc, ServerAcc;
    match e
    case ClientSyn => ClientNextFrame(cfg, st, 0);
    case ClientMsg(rtt) => ClientNextFrame(cfg, st, rtt);
    case ClientTears(rtt, _) => ClientNextFrame(cfg, st, rtt);
    case ServerMsg(delay) => ServerNextFrame(cfg, st, delay);
    case ServerTears(delay, _) => ServerNextFrame(cfg, st, delay);
    case _ =>
  }

  /** A side that is down stays as it is, whatever the other one does. */
  lemma {:induction false} DownForGood(cfg: Config, st: State, es: seq<Step>)
    requires LegalRun(cfg, st, es)
    ensures st.cDown ==> ClientHalf(Run(cfg, st, es)) == ClientHalf(st)
    ensures st.sDown ==> ServerHalf(Run(cfg, st, es)) == ServerHalf(st)
    decreases |es|
  {
    hide Enabled, Apply;
    if |es| > 0 {
      StaysDown(cfg, st, es[0]);
      DownForGood(cfg, Apply(cfg, st, es[0]), es[1..]);
    }
  }
}
