/** The clock arithmetic of the synchronised start (client.go, server.go). Both sides' code is run
    against a connection with explicit clock readings; the lemmas put the two together under
    arbitrary one-way delays and no processing time. */
module StartSync {
  import opened Wire
  import opened Time

  /** Difference of two instants, saturating as time.Time.Sub does. */
  function Sub(a: int, b: int): int64 {
    if a - b >= 0x8000_0000_0000_0000 then 0x7FFF_FFFF_FFFF_FFFF
    else if a - b < -0x8000_0000_0000_0000 then -0x8000_0000_0000_0000
    else a - b
  }

  /** Integer division by two, truncating toward zero. */
  function Half(d: int64): int64 {
    var n: int := d;
    if n >= 0 then n / 2 else -((-n) / 2)
  }

  /** An odd nanosecond is dropped, on either side of zero. */
  lemma HalfTwice(d: int64)
    ensures var h := Half(d); if d >= 0 then h >= 0 && 0 <= d - 2 * h <= 1 else h <= 0 && -1 <= d - 2 * h <= 0
  {
  }

  function NonNegative(d: int): nat {
    if d < 0 then 0 else d
  }

  /** When a client that reads `now` on receiving the server's delay starts its test. */
  function ClientStart(delayNs: int64, rtt: int64, now: int): int {
    if delayNs == 0 then now else now + NonNegative(delayNs - Half(rtt))
  }

  /** When a server that has received SyncGo at `goAt` records its start. */
  function ServerStart(oneClient: bool, delayNs: int64, rtt: int64, goAt: int): int {
    goAt + NonNegative(if oneClient then Half(rtt) else delayNs)
  }

  /** The client's side, from SyncStart to the start time: `sent`, `received` and `now` are its clock
      readings around the exchange. */
  method ClientSyncStart(conn: Conn, sent: int, received: int, now: int) returns (ok: bool, startTime: int)
    modifies conn
    ensures var r := Recv(old(conn.inbox));
            && ok == r.msg.SyncReady?
            && conn.inbox == old(conn.inbox)[r.consumed..]
            && conn.outbox == old(conn.outbox) + Frame(SyncStart)
                              + (if ok then Frame(SyncGo(Sub(received, sent))) else [])
            && (ok ==> startTime == ClientStart(r.msg.delayNs, Sub(received, sent), now))
  {
    conn.SendSessionMsg(SyncStart);
    var m := conn.RecvSessionMsg();
    if !m.SyncReady? {
      return false, 0;
    }
    var delayNs := m.delayNs;
    var rttNs := Sub(received, sent);
    if delayNs == 0 {
      conn.SendSessionMsg(SyncGo(rttNs));
      startTime := now;
    } else {
      var adjustedDelay := delayNs - Half(rttNs);
      if adjustedDelay < 0 {
        adjustedDelay := 0;
      }
      startTime := now + adjustedDelay;
      conn.SendSessionMsg(SyncGo(rttNs));
    }
    ok := true;
  }

  /** What the server writes while it works out whether, and when, a connection starts in step. */
  function ServerReplies(isControl: bool, oneClient: bool, delayNs: int64): seq<byte> {
    if isControl then Frame(SyncReady(if oneClient then 0 else delayNs)) else []
  }

  lemma LeftOver(s: seq<byte>, b: nat, a: nat)
    requires a <= b <= |s|
    ensures s[..b][a..] + s[b..] == s[a..]
  {
  }

  /** The server's side, on the `inTime` bytes that arrive before the probe's deadline and on what
      follows: `tick` is the next statistics tick, `probedAt` and `goAt` the instants at which the
      probe and the wait for SyncGo return. */
  method TrySyncStartWithClient(conn: Conn, oneClient: bool, tick: int, probedAt: int, goAt: int, inTime: nat)
    returns (isControl: bool, failed: bool, startTime: int)
    requires inTime <= |conn.inbox|
    modifies conn
    ensures var probe := Recv(old(conn.inbox)[..inTime]);
            var rest := old(conn.inbox)[probe.consumed..];
            && isControl == probe.msg.SyncStart?
            && conn.outbox == old(conn.outbox) + ServerReplies(isControl, oneClient, Sub(tick, probedAt))
            && failed == (isControl && !Recv(rest).msg.SyncGo?)
            && conn.inbox == (if isControl then rest[Recv(rest).consumed..] else rest)
            && (isControl && !failed ==>
                  startTime == ServerStart(oneClient, Sub(tick, probedAt), Recv(rest).msg.rttNs, goAt))
  {
    startTime, failed := 0, false;
    ghost var all := conn.inbox;
    var late := conn.inbox[inTime..];
    conn.inbox := conn.inbox[..inTime];
    var m := conn.RecvSessionMsg();
    conn.inbox := conn.inbox + late;
    ghost var probe := Recv(all[..inTime]);
    LeftOver(all, inTime, probe.consumed);
    isControl := m == SyncStart;
    if !isControl {
      return;
    }
    var delayNs := Sub(tick, probedAt);
    conn.SendSessionMsg(SyncReady(if oneClient then 0 else delayNs));
    var go := conn.RecvSessionMsg();
    if !go.SyncGo? {
      failed := true;
      return;
    }
    if oneClient {
      startTime := goAt + NonNegative(Half(go.rttNs));
    } else {
      startTime := goAt + NonNegative(delayNs);
    }
  }

  // ---------------------------------------------------------------- the probe's deadline

  /** How long the server waits for SyncStart once it has acknowledged a connection. */
  const PROBE_DEADLINE := 100 * MILLISECOND

  /** Whether all of SyncStart is there in time, when it leaves as soon as the acknowledgement, `dAck` on
      its way, has come in, and takes `dStart`. */
  predicate InTime(dAck: nat, dStart: nat) {
    dAck + dStart <= PROBE_DEADLINE
  }

  /** How much of it the probe is given: all, or the `early` bytes that are there at the deadline. */
  function ProbeGiven(dAck: nat, dStart: nat, early: nat): nat {
    if InTime(dAck, dStart) then |Frame(SyncStart)| else early
  }

  lemma PartOfFrame(m: EthrMsg, n: nat)
    requires n < |Frame(m)|
    ensures Recv(Frame(m)[..n]) == Received(EthrMsg.Inv, n)
  {
    FrameHeader(m, []);
    assert Frame(m) + [] == Frame(m);
    if n >= 4 {
      assert Frame(m)[..n][..4] == Frame(m)[..4];
    }
  }

  /** The probe recognises the control connection exactly if SyncStart is in time; otherwise it eats what
      was early. */
  lemma ProbeExact(dAck: nat, dStart: nat, early: nat, rest: seq<byte>)
    requires early < |Frame(SyncStart)|
    ensures var given := ProbeGiven(dAck, dStart, early); var s := Frame(SyncStart) + rest;
            && given <= |s|
            && (Recv(s[..given]).msg.SyncStart? <==> InTime(dAck, dStart))
            && Recv(s[..given]).consumed == given
  {
    var f := Frame(SyncStart);
    var s := f + rest;
    var given := ProbeGiven(dAck, dStart, early);
    assert s[..given] == f[..given];
    if InTime(dAck, dStart) {
      RecvFrame(SyncStart, []);
      assert f + [] == f == f[..given];
    } else {
      PartOfFrame(SyncStart, early);
    }
  }

  /** On a link with 51 ms each way the control connection is taken for a data connection. */
  lemma LongLinkMissesDeadline()
    ensures !InTime(51 * MILLISECOND, 51 * MILLISECOND)
    ensures Recv((Frame(SyncStart))[..ProbeGiven(51 * MILLISECOND, 51 * MILLISECOND, 0)]) == Received(EthrMsg.Inv, 0)
  {
    PartOfFrame(SyncStart, 0);
  }

  /** A link with 50 ms each way just meets the deadline of 100 ms, and a nanosecond more is too much. */
  lemma LinkJustInTime()
    ensures InTime(50_000_000, 50_000_000)
    ensures Recv(Frame(SyncStart)[..ProbeGiven(50_000_000, 50_000_000, 0)]).msg.SyncStart?
    ensures !InTime(50_000_000, 50_000_001) && !InTime(50_000_001, 50_000_000)
  {
    ProbeExact(50_000_000, 50_000_000, 0, []);
    assert Frame(SyncStart) + [] == Frame(SyncStart);
  }

  // ---------------------------------------------------------------- skew

  /** One exchange: SyncStart leaves at `sent`, the three messages take `dStart`, `dReady`, `dGo`. */
  datatype Exchange = Exchange(sent: int, dStart: nat, dReady: nat, dGo: nat, tick: int, oneClient: bool) {
    function ProbedAt(): int { sent + dStart }

    function ReceivedAt(): int { sent + dStart + dReady }

    function GoAt(): int { sent + dStart + dReady + dGo }

    function Rtt(): int64 { Sub(ReceivedAt(), sent) }

    function Delay(): int64 { Sub(tick, ProbedAt()) }

    function ClientStarts(): int {
      ClientStart(if oneClient then 0 else Delay(), Rtt(), ReceivedAt())
    }

    function ServerStarts(): int {
      ServerStart(oneClient, Delay(), Rtt(), GoAt())
    }

    /** No difference of instants is too long for a Duration. */
    predicate Representable() {
      dStart + dReady < 0x8000_0000_0000_0000
      && -0x8000_0000_0000_0000 <= tick - ProbedAt() < 0x8000_0000_0000_0000
    }
  }

  function Clamp(d: int, low: int, high: int): int {
    if d < low then low else if d > high then high else d
  }

  /** The server always starts after the client: by the delay of SyncGo, plus half the round trip
      in single-client mode, plus as much of it as the advertised delay covers in multi-client mode. */
  lemma StartSkew(x: Exchange)
    requires x.Representable()
    ensures var half := (x.dStart + x.dReady) / 2;
            x.ServerStarts() - x.ClientStarts()
              == x.dGo + (if x.oneClient then half else Clamp(x.Delay(), 0, half))
  {
    assert x.Rtt() == x.dStart + x.dReady;
  }

  /** Where the advertised delay covers half the round trip, a client of a multi-client server misses
      the tick by `dReady` less half the round trip, at most half the round trip rounded up, and the
      server records the tick plus the delays of its answer and of SyncGo. */
  lemma TickSkew(x: Exchange)
    requires x.Representable() && !x.oneClient
    ensures var half := (x.dStart + x.dReady) / 2;
            x.Delay() >= half ==>
              && x.ClientStarts() - x.tick == x.dReady - half
              && -half <= x.ClientStarts() - x.tick <= (x.dStart + x.dReady + 1) / 2
    ensures x.Delay() >= 0 ==> x.ServerStarts() == x.tick + x.dReady + x.dGo
    ensures x.Delay() < 0 ==> x.ServerStarts() == x.GoAt() && x.ClientStarts() == x.ReceivedAt()
  {
    assert x.Rtt() == x.dStart + x.dReady;
  }

  /** In single-client mode the client starts as soon as it has the answer, and the server half a round trip
      after SyncGo; both tell the instants, not only how far they are apart. */
  lemma SingleClientStarts(x: Exchange)
    requires x.Representable() && x.oneClient
    ensures x.ClientStarts() == x.sent + x.dStart + x.dReady
    ensures x.ServerStarts() == x.sent + x.dStart + x.dReady + x.dGo + (x.dStart + x.dReady) / 2
  {
    assert x.Rtt() == x.dStart + x.dReady;
  }

  /** Differences of instants too long for a Duration are cut off at its ends. */
  lemma SubSaturates(a: int, b: int)
    ensures Sub(a, b) == Clamp(a - b, -0x8000_0000_0000_0000, 0x7FFF_FFFF_FFFF_FFFF)
  {
  }

  /** Both sides start at the same moment, as the server's comments have it, exactly if SyncGo takes no
      time and there is no half round trip for the server to sleep through. */
  lemma SameMoment(x: Exchange)
    requires x.Representable()
    ensures x.ServerStarts() == x.ClientStarts() <==>
              x.dGo == 0 && (x.dStart + x.dReady <= 1 || (!x.oneClient && x.Delay() <= 0))
  {
    StartSkew(x);
  }

  lemma ReceivedWhole(m: EthrMsg)
    ensures Recv(Frame(m)).msg == m
  {
    RecvFrame(m, []);
    assert Frame(m) + [] == Frame(m);
  }

  lemma NothingReceived()
    ensures !Recv([]).msg.SyncReady?
  {
  }

  /** Of two frames, the second is read after the first, and nothing is left. */
  lemma ReceivedInTurn(first: EthrMsg, second: EthrMsg)
    ensures var s := Frame(first) + Frame(second); var rest := s[|Frame(first)|..];
            rest == Frame(second) && Recv(rest) == Received(second, |rest|)
  {
    RecvFrame(second, []);
    assert Frame(second) + [] == Frame(second);
  }

  /** Both sides' code, run on each other's bytes: the client is given what the server turns out to
      write, the server what the client writes. The handshake succeeds exactly if SyncStart meets the
      probe's deadline, and the starts they then arrive at are apart by what the three delays say. If it
      does not, the server writes nothing and goes on to read as payload what the probe has left of
      SyncStart; the client is told here that nothing comes. */
  method RunExchange(x: Exchange, dAck: nat, early: nat)
    returns (clientStart: int, serverStart: int, ok: bool, isControl: bool, failed: bool, unread: seq<byte>)
    requires x.Representable() && early < |Frame(SyncStart)|
    ensures ok == isControl == InTime(dAck, x.dStart) && !failed
    ensures ok ==> clientStart == x.ClientStarts() && serverStart == x.ServerStarts() && unread == []
    ensures var half := (x.dStart + x.dReady) / 2;
            ok ==> serverStart - clientStart == x.dGo + (if x.oneClient then half else Clamp(x.Delay(), 0, half))
    ensures !ok ==> unread == Frame(SyncStart)[early..]
  {
    hide Frame, Recv, ClientStart, ServerStart, Clamp, InTime;
    var advertised: int64 := if x.oneClient then 0 else x.Delay();
    var client := new Conn();
    var server := new Conn();
    client.inbox := if InTime(dAck, x.dStart) then Frame(SyncReady(advertised)) else [];
    ReceivedWhole(SyncReady(advertised));
    NothingReceived();
    ok, clientStart := ClientSyncStart(client, x.sent, x.ReceivedAt(), x.ReceivedAt());
    server.inbox := client.outbox;
    ghost var reply := if ok then Frame(SyncGo(x.Rtt())) else [];
    ProbeExact(dAck, x.dStart, early, reply);
    ReceivedInTurn(SyncStart, SyncGo(x.Rtt()));
    assert server.inbox == Frame(SyncStart) + reply;
    isControl, failed, serverStart :=
      TrySyncStartWithClient(server, x.oneClient, x.tick, x.ProbedAt(), x.GoAt(), ProbeGiven(dAck, x.dStart, early));
    unread := server.inbox;
    StartSkew(x);
  }

  /** With one millisecond each way the server starts two milliseconds after the client. */
  lemma StartsApart()
    ensures Exchange(0, MILLISECOND, MILLISECOND, MILLISECOND, SECOND, true).ServerStarts()
         == Exchange(0, MILLISECOND, MILLISECOND, MILLISECOND, SECOND, true).ClientStarts() + 2 * MILLISECOND
  {
  }
}
