/** Session messages, their encoding, and the length-prefixed frames that carry them
    over a TCP connection (session.go). */
module Wire {

  type byte = n: nat | n < 0x100
  type uint32 = n: nat | n < 0x1_0000_0000
  type uint64 = n: nat | n < 0x1_0000_0000_0000_0000
  type int64 = n: int | -0x8000_0000_0000_0000 <= n < 0x8000_0000_0000_0000

  datatype Protocol = TCP | UDP | ICMP
  datatype TestType = All | Bandwidth | Cps | Pps | Latency | Ping | TraceRoute | MyTraceRoute
  datatype TestID = TestID(protocol: Protocol, testType: TestType)

  datatype ClientParam = ClientParam(
    numThreads: uint32, bufferSize: uint32, rttCount: uint32, reverse: bool,
    duration: int64, gap: int64, warmupCount: uint32, bwRate: uint64, tos: byte)

  /** `Inv` is what a failed receive or a failed decode returns. */
  datatype EthrMsg =
    | Inv
    | Syn(testID: TestID, clientParam: ClientParam)
    | Ack
    | SyncStart
    | SyncReady(delayNs: int64)
    | SyncGo(rttNs: int64)

  /** Longest body a receiver accepts. */
  const MAX_BODY := 16384

  // ---------------------------------------------------------------- big-endian integers

  function Pow256(width: nat): (p: nat)
    ensures p > 0
  {
    if width == 0 then 1 else 256 * Pow256(width - 1)
  }

  function BigEndian(v: nat, width: nat): (bs: seq<byte>)
    ensures |bs| == width
  {
    if width == 0 then [] else BigEndian(v / 256, width - 1) + [v % 256]
  }

  function Value(bs: seq<byte>): nat {
    if |bs| == 0 then 0 else 256 * Value(bs[..|bs| - 1]) + bs[|bs| - 1]
  }

  lemma {:induction false} ValueOfBigEndian(v: nat, width: nat)
    requires v < Pow256(width)
    ensures Value(BigEndian(v, width)) == v
  {
    if width != 0 {
      ValueOfBigEndian(v / 256, width - 1);
      assert BigEndian(v, width)[..width - 1] == BigEndian(v / 256, width - 1);
    }
  }

  lemma Pow256Values()
    ensures Pow256(1) == 0x100 && Pow256(4) == 0x1_0000_0000
    ensures Pow256(8) == 0x1_0000_0000_0000_0000
  {
    assert Pow256(2) == 0x1_0000 && Pow256(3) == 0x100_0000;
    assert Pow256(5) == 0x100_0000_0000 && Pow256(6) == 0x1_0000_0000_0000;
    assert Pow256(7) == 0x100_0000_0000_0000;
  }

  /** The four-byte length read back from the start of a stream. */
  lemma HeaderValue(a: byte, b: byte, c: byte, d: byte)
    ensures Value([a, b, c, d]) == 0x100_0000 * a + 0x1_0000 * b + 0x100 * c + d
  {
    assert [a][..0] == [] && Value([a]) == a;
    assert [a, b][..1] == [a] && Value([a, b]) == 0x100 * a + b;
    assert [a, b, c][..2] == [a, b];
    assert [a, b, c, d][..3] == [a, b, c];
  }

  // ---------------------------------------------------------------- codec

  /** Two's complement. */
  function Unsigned(v: int64): uint64 {
    if v >= 0 then v else v + 0x1_0000_0000_0000_0000
  }

  function Signed(v: uint64): int64 {
    if v < 0x8000_0000_0000_0000 then v else v - 0x1_0000_0000_0000_0000
  }

  function ProtocolCode(p: Protocol): byte {
    match p case TCP => 0 case UDP => 1 case ICMP => 2
  }

  function TestTypeCode(t: TestType): byte {
    match t
    case All => 0 case Bandwidth => 1 case Cps => 2 case Pps => 3
    case Latency => 4 case Ping => 5 case TraceRoute => 6 case MyTraceRoute => 7
  }

  function ProtocolOf(b: byte): Protocol {
    if b == 0 then TCP else if b == 1 then UDP else ICMP
  }

  function TestTypeOf(b: byte): TestType {
    if b == 0 then All else if b == 1 then Bandwidth else if b == 2 then Cps
    else if b == 3 then Pps else if b == 4 then Latency else if b == 5 then Ping
    else if b == 6 then TraceRoute else MyTraceRoute
  }

  function EncodeParam(p: ClientParam): (bs: seq<byte>) {
    BigEndian(p.numThreads, 4) + BigEndian(p.bufferSize, 4) + BigEndian(p.rttCount, 4)
    + [if p.reverse then 1 else 0]
    + BigEndian(Unsigned(p.duration), 8) + BigEndian(Unsigned(p.gap), 8)
    + BigEndian(p.warmupCount, 4) + BigEndian(p.bwRate, 8) + [p.tos]
  }

  /** Stand-in for gob: a tag byte and fixed-width fields. */
  function Encode(m: EthrMsg): seq<byte> {
    match m
    case Inv => [0]
    case Syn(id, param) => [1, ProtocolCode(id.protocol), TestTypeCode(id.testType)] + EncodeParam(param)
    case Ack => [2]
    case SyncStart => [3]
    case SyncReady(d) => [4] + BigEndian(Unsigned(d), 8)
    case SyncGo(r) => [5] + BigEndian(Unsigned(r), 8)
  }

  function Uint32At(bs: seq<byte>, i: nat): uint32
    requires i + 4 <= |bs|
  {
    Value(bs[i..i + 4]) % 0x1_0000_0000
  }

  function Uint64At(bs: seq<byte>, i: nat): uint64
    requires i + 8 <= |bs|
  {
    Value(bs[i..i + 8]) % 0x1_0000_0000_0000_0000
  }

  function DecodeParam(bs: seq<byte>): ClientParam
    requires |bs| == 42
  {
    ClientParam(
      Uint32At(bs, 0), Uint32At(bs, 4), Uint32At(bs, 8), bs[12] == 1,
      Signed(Uint64At(bs, 13)), Signed(Uint64At(bs, 21)),
      Uint32At(bs, 29), Uint64At(bs, 33), bs[41])
  }

  function Decode(bs: seq<byte>): EthrMsg {
    if |bs| == 45 && bs[0] == 1 then
      Syn(TestID(ProtocolOf(bs[1]), TestTypeOf(bs[2])), DecodeParam(bs[3..]))
    else if |bs| == 1 && bs[0] == 2 then Ack
    else if |bs| == 1 && bs[0] == 3 then SyncStart
    else if |bs| == 9 && bs[0] == 4 then SyncReady(Signed(Uint64At(bs, 1)))
    else if |bs| == 9 && bs[0] == 5 then SyncGo(Signed(Uint64At(bs, 1)))
    else Inv
  }

  lemma Uint32RoundTrip(bs: seq<byte>, i: nat, v: uint32)
    requires i + 4 <= |bs| && bs[i..i + 4] == BigEndian(v, 4)
    ensures Uint32At(bs, i) == v
  {
    Pow256Values();
    ValueOfBigEndian(v, 4);
  }

  lemma Uint64RoundTrip(bs: seq<byte>, i: nat, v: uint64)
    requires i + 8 <= |bs| && bs[i..i + 8] == BigEndian(v, 8)
    ensures Uint64At(bs, i) == v
  {
    Pow256Values();
    ValueOfBigEndian(v, 8);
  }

  lemma ParamRoundTrip(p: ClientParam)
    ensures |EncodeParam(p)| == 42 && DecodeParam(EncodeParam(p)) == p
  {
    var bs := EncodeParam(p);
    assert bs[0..4] == BigEndian(p.numThreads, 4);
    assert bs[4..8] == BigEndian(p.bufferSize, 4);
    assert bs[8..12] == BigEndian(p.rttCount, 4);
    assert bs[13..21] == BigEndian(Unsigned(p.duration), 8);
    assert bs[21..29] == BigEndian(Unsigned(p.gap), 8);
    assert bs[29..33] == BigEndian(p.warmupCount, 4);
    assert bs[33..41] == BigEndian(p.bwRate, 8);
    Uint32RoundTrip(bs, 0, p.numThreads);
    Uint32RoundTrip(bs, 4, p.bufferSize);
    Uint32RoundTrip(bs, 8, p.rttCount);
    Uint64RoundTrip(bs, 13, Unsigned(p.duration));
    Uint64RoundTrip(bs, 21, Unsigned(p.gap));
    Uint32RoundTrip(bs, 29, p.warmupCount);
    Uint64RoundTrip(bs, 33, p.bwRate);
  }

  lemma SynRoundTrip(id: TestID, param: ClientParam)
    ensures var bs := Encode(Syn(id, param)); |bs| == 45 && Decode(bs) == Syn(id, param)
  {
    ParamRoundTrip(param);
    var bs := Encode(Syn(id, param));
    assert bs[3..] == EncodeParam(param);
    assert ProtocolOf(bs[1]) == id.protocol && TestTypeOf(bs[2]) == id.testType;
  }

  lemma SyncRoundTrip(v: int64)
    ensures Decode(Encode(SyncReady(v))) == SyncReady(v) && Decode(Encode(SyncGo(v))) == SyncGo(v)
  {
    var ready, go := Encode(SyncReady(v)), Encode(SyncGo(v));
    assert ready[1..9] == go[1..9] == BigEndian(Unsigned(v), 8);
    Uint64RoundTrip(ready, 1, Unsigned(v));
    Uint64RoundTrip(go, 1, Unsigned(v));
  }

  /** What every proof below uses of the codec: it round-trips, it stays under the frame
      limit, it never encodes to nothing, and nothing does not decode. */
  lemma CodecLaws(m: EthrMsg)
    ensures Decode(Encode(m)) == m
    ensures 0 < |Encode(m)| <= MAX_BODY
    ensures Decode([]) == Inv
  {
    match m
    case Syn(id, param) => SynRoundTrip(id, param);
    case SyncReady(d) => SyncRoundTrip(d);
    case SyncGo(r) => SyncRoundTrip(r);
    case _ =>
  }

  // ---------------------------------------------------------------- frames

  function Frame(m: EthrMsg): seq<byte> {
    BigEndian(|Encode(m)|, 4) + Encode(m)
  }

  /** How many more bytes a receiver that holds `acc` of the current frame still waits for. */
  function Need(acc: seq<byte>): nat {
    if |acc| < 4 then 4 - |acc|
    else if Value(acc[..4]) > MAX_BODY then 0
    else if |acc| < 4 + Value(acc[..4]) then 4 + Value(acc[..4]) - |acc|
    else 0
  }

  /** The message a receiver returns once it waits for nothing more. */
  function Outcome(acc: seq<byte>): EthrMsg
    requires Need(acc) == 0
  {
    if Value(acc[..4]) > MAX_BODY then Inv else Decode(acc[4..])
  }

  datatype Received = Received(msg: EthrMsg, consumed: nat)

  /** What receiving yields on a stream that delivers exactly `s` before it fails. */
  function Recv(s: seq<byte>): (r: Received)
    ensures r.consumed <= |s|
  {
    if |s| < 4 then Received(Inv, |s|)
    else if Value(s[..4]) > MAX_BODY then Received(Inv, 4)
    else if |s| < 4 + Value(s[..4]) then Received(Inv, |s|)
    else Received(Decode(s[4..4 + Value(s[..4])]), 4 + Value(s[..4]))
  }

  lemma FrameHeader(m: EthrMsg, rest: seq<byte>)
    ensures |Frame(m)| == 4 + |Encode(m)|
    ensures Value((Frame(m) + rest)[..4]) == |Encode(m)| <= MAX_BODY
  {
    CodecLaws(m);
    Pow256Values();
    ValueOfBigEndian(|Encode(m)|, 4);
    assert (Frame(m) + rest)[..4] == BigEndian(|Encode(m)|, 4);
  }

  /** Receiving a frame returns the message that was sent and leaves what follows unread. */
  lemma RecvFrame(m: EthrMsg, rest: seq<byte>)
    ensures Recv(Frame(m) + rest) == Received(m, |Frame(m)|)
  {
    FrameHeader(m, rest);
    CodecLaws(m);
    assert (Frame(m) + rest)[4..4 + |Encode(m)|] == Encode(m);
  }

  /** While `acc` is a prefix of a frame the receiver waits for exactly the missing bytes,
      however the bytes were cut up on the way. */
  lemma NeedWithinFrame(m: EthrMsg, acc: seq<byte>)
    requires acc <= Frame(m)
    ensures |acc| >= 4 ==> Need(acc) == |Frame(m)| - |acc|
    ensures |acc| < 4 ==> Need(acc) == 4 - |acc| <= |Frame(m)| - |acc|
    ensures Need(acc) == 0 <==> acc == Frame(m)
    ensures acc == Frame(m) ==> Outcome(acc) == m
  {
    FrameHeader(m, []);
    CodecLaws(m);
    assert Frame(m) + [] == Frame(m);
    if |acc| >= 4 {
      assert acc[..4] == Frame(m)[..4];
    }
    if acc == Frame(m) {
      assert acc[4..] == Encode(m);
    }
  }

  /** On any bytes whatever, a receiver that asks each time for what it still waits for ends where Recv does,
      with the same message, or waits for more than there is. */
  lemma NeedFollowsRecv(s: seq<byte>, n: nat)
    requires n <= Recv(s).consumed
    ensures var r, need := Recv(s), Need(s[..n]);
            && (need == 0 ==> n == r.consumed && Outcome(s[..n]) == r.msg)
            && (need > 0 && n == r.consumed ==> n == |s| && r.msg == Inv)
            && (n + need <= |s| ==> n + need <= r.consumed)
  {
    if n >= 4 {
      assert s[..n][..4] == s[..4];
      if n == 4 + Value(s[..4]) {
        assert s[..n][4..] == s[4..n];
      }
    }
  }

  /** The longest body a receiver takes, and the shortest it refuses. */
  lemma LongestBody(s: seq<byte>)
    requires |s| >= 4
    ensures s[..4] == [0, 0, 0x40, 0] && |s| >= 16388 ==> Recv(s) == Received(Decode(s[4..16388]), 16388)
    ensures s[..4] == [0, 0, 0x40, 1] ==> Recv(s) == Received(Inv, 4)
  {
    HeaderValue(0, 0, 0x40, 0);
    HeaderValue(0, 0, 0x40, 1);
  }

  function Frames(ms: seq<EthrMsg>): seq<byte> {
    if |ms| == 0 then [] else Frame(ms[0]) + Frames(ms[1..])
  }

  /** `n` receives in a row: the messages, and the bytes left unread. */
  function RecvMany(s: seq<byte>, n: nat): (r: (seq<EthrMsg>, seq<byte>)) {
    if n == 0 then ([], s)
    else
      var first := Recv(s);
      var rest := RecvMany(s[first.consumed..], n - 1);
      ([first.msg] + rest.0, rest.1)
  }

  lemma RecvManyFrame(m: EthrMsg, tail: seq<byte>, n: nat)
    ensures var rest := RecvMany(tail, n);
            RecvMany(Frame(m) + tail, n + 1) == ([m] + rest.0, rest.1)
  {
    RecvFrame(m, tail);
    assert (Frame(m) + tail)[|Frame(m)|..] == tail;
  }

  lemma {:induction false} FrameRoundTrip(ms: seq<EthrMsg>, raw: seq<byte>)
    ensures RecvMany(Frames(ms) + raw, |ms|) == (ms, raw)
  {
    if |ms| == 0 {
      assert Frames(ms) + raw == raw;
    } else {
      var tail := Frames(ms[1..]) + raw;
      assert Frames(ms) + raw == Frame(ms[0]) + tail;
      FrameRoundTrip(ms[1..], raw);
      RecvManyFrame(ms[0], tail, |ms| - 1);
      assert ms == [ms[0]] + ms[1..];
    }
  }

  // ---------------------------------------------------------------- connections

  /** One end of a TCP connection. `inbox` is what the peer's writes still deliver before the
      stream fails: end of file, an error or a read deadline. */
  class Conn {
    var inbox: seq<byte>
    var outbox: seq<byte>

    constructor ()
      ensures inbox == [] && outbox == []
    {
      inbox, outbox := [], [];
    }

    /** One read: any non-empty part of what was asked for, or the stream's failure. */
    method Read(limit: nat) returns (chunk: seq<byte>, failed: bool)
      requires limit > 0
      modifies this
      ensures outbox == old(outbox)
      ensures failed == (old(inbox) == [])
      ensures |chunk| <= limit && (failed || chunk != [])
      ensures old(inbox) == chunk + inbox
    {
      if |inbox| == 0 {
        return [], true;
      }
      var k :| 1 <= k <= limit && k <= |inbox|;
      chunk, failed := inbox[..k], false;
      inbox := inbox[k..];
    }

    /** io.ReadFull: reads until `n` bytes are there, whatever the pieces they come in. */
    method ReadFull(n: nat) returns (buf: seq<byte>, failed: bool)
      modifies this
      ensures outbox == old(outbox)
      ensures failed == (|old(inbox)| < n)
      ensures buf == if failed then old(inbox) else old(inbox)[..n]
      ensures old(inbox) == buf + inbox
    {
      buf, failed := [], false;
      while |buf| < n
        invariant outbox == old(outbox)
        invariant !failed && |buf| <= n
        invariant old(inbox) == buf + inbox
      {
        var chunk;
        chunk, failed := Read(n - |buf|);
        if failed {
          assert old(inbox) == buf;
          return;
        }
        buf := buf + chunk;
      }
      assert old(inbox)[..n] == buf;
    }

    method Write(bs: seq<byte>)
      modifies this
      ensures inbox == old(inbox) && outbox == old(outbox) + bs
    {
      outbox := outbox + bs;
    }

    method RecvSessionMsg() returns (m: EthrMsg)
      modifies this
      ensures outbox == old(outbox)
      ensures var r := Recv(old(inbox)); m == r.msg && inbox == old(inbox)[r.consumed..]
    {
      var header, failed := ReadFull(4);
      if failed {
        return Inv;
      }
      var size := Value(header);
      if size > MAX_BODY {
        return Inv;
      }
      label body:
      var msgBytes;
      msgBytes, failed := ReadFull(size);
      if failed {
        return Inv;
      }
      assert old(inbox)[4..4 + size] == old@body(inbox)[..size];
      m := Decode(msgBytes);
    }

    method SendSessionMsg(m: EthrMsg)
      modifies this
      ensures inbox == old(inbox) && outbox == old(outbox) + Frame(m)
    {
      var msgBytes := Encode(m);
      Write(BigEndian(|msgBytes|, 4));
      Write(msgBytes);
    }

    /** Receiving `n` times in a row. */
    method RecvSessionMsgs(n: nat) returns (got: seq<EthrMsg>)
      modifies this
      ensures outbox == old(outbox)
      ensures (got, inbox) == RecvMany(old(inbox), n)
    {
      got := [];
      var k := 0;
      ghost var rest := RecvMany(inbox, n);
      while k < n
        invariant 0 <= k <= n && outbox == old(outbox)
        invariant rest == RecvMany(inbox, n - k)
        invariant RecvMany(old(inbox), n).0 == got + rest.0
        invariant RecvMany(old(inbox), n).1 == rest.1
      {
        var m := RecvSessionMsg();
        rest := RecvMany(inbox, n - k - 1);
        got, k := got + [m], k + 1;
      }
      assert got == RecvMany(old(inbox), n).0;
    }
  }
}
