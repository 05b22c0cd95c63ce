/** The bandwidth quota (utils.go) and the loops that send under it (client.go, server.go). */
module Throttle {
  import opened Wire
  import opened Time
  import opened Arithmetic

  function Min(a: nat, b: nat): nat {
    if a < b then a else b
  }

  function Sub64(a: uint64, b: uint64): uint64 {
    if a >= b then a - b else a - b + 0x1_0000_0000_0000_0000
  }

  function Add64(a: uint64, b: nat): uint64 {
    (a + b) % 0x1_0000_0000_0000_0000
  }

  /** The four values a send loop carries from one write to the next. */
  datatype Quota = Quota(start: int, waitTime: int, sentBytes: uint64, bytesToSend: nat)

  /** Clock readings around a window start: `woke` is `start`, `read` the one the wait is
      measured from, `last` the latest statistics tick at that moment. */
  datatype Readings = Readings(woke: int, read: int, last: int)

  function BeginThrottle(total: uint64, bufferLen: nat, t: Readings): Quota {
    Quota(t.woke, t.last + SECOND + MARGIN - t.read, 0,
          if total > 0 && total < bufferLen then total else bufferLen)
  }

  function EnforceThrottle(q: Quota, total: uint64, bufferLen: nat, t: Readings): Quota {
    if total == 0 then q.(bytesToSend := bufferLen)
    else
      var remaining := Sub64(total, q.sentBytes);
      if remaining > 0 then q.(bytesToSend := if remaining < bufferLen then remaining else bufferLen)
      else Quota(t.woke, t.last + SECOND + MARGIN - t.read, 0,
                 if total < bufferLen then total else bufferLen)
  }

  // ---------------------------------------------------------------- one window

  /** The next write is as large as the buffer and the quota allow, and never empty. */
  ghost predicate Exact(q: Quota, total: uint64, bufferLen: nat) {
    && 1 <= q.bytesToSend <= bufferLen
    && (total == 0 ==> q.bytesToSend == bufferLen)
    && (total > 0 ==> q.sentBytes < total && q.bytesToSend == Min(bufferLen, total - q.sentBytes))
  }

  /** What a send loop does once a write of `n` bytes has returned. */
  function AfterWrite(q: Quota, total: uint64, bufferLen: nat, n: nat, t: Readings): Quota {
    EnforceThrottle(q.(sentBytes := Add64(q.sentBytes, n)), total, bufferLen, t)
  }

  /** Accounting for a write of `n` bytes keeps the next write exact, never subtracts below zero,
      and opens a new window exactly when the quota is used up, never later. */
  lemma WindowStep(q: Quota, total: uint64, bufferLen: nat, n: nat, t: Readings)
    requires Exact(q, total, bufferLen) && 1 <= n <= q.bytesToSend
    ensures var after := AfterWrite(q, total, bufferLen, n, t);
            && Exact(after, total, bufferLen)
            && (total == 0 ==> after == q.(sentBytes := Add64(q.sentBytes, n)))
            && (total > 0 ==>
                  && q.sentBytes + n <= total
                  && (q.sentBytes + n < total ==> after.sentBytes == q.sentBytes + n
                                                  && after.start == q.start && after.waitTime == q.waitTime)
                  && (q.sentBytes + n == total <==> after.sentBytes == 0))
  {
  }

  /** The loop shared by every sender that owns a quota: each write may be cut short anywhere.
      `windows` counts the quotas used up. */
  method SendWindows(total: uint64, bufferLen: nat, clock: seq<Readings>)
    returns (writes: seq<nat>, windows: nat, q: Quota)
    requires total > 0 && bufferLen > 0 && |clock| > 0
    ensures |writes| == |clock| - 1
    ensures forall n :: n in writes ==> 1 <= n <= bufferLen
    ensures Exact(q, total, bufferLen)
    ensures Sum(writes) == windows * total + q.sentBytes
    ensures |writes| < (windows + 1) * total
  {
    q := BeginThrottle(total, bufferLen, clock[0]);
    writes, windows := [], 0;
    while |writes| < |clock| - 1
      invariant |writes| <= |clock| - 1
      invariant forall n :: n in writes ==> 1 <= n <= bufferLen
      invariant Exact(q, total, bufferLen)
      invariant |writes| <= Sum(writes)
      invariant Sum(writes) == windows * total + q.sentBytes
    {
      var n :| 1 <= n <= q.bytesToSend;
      var t := clock[|writes| + 1];
      WindowStep(q, total, bufferLen, n, t);
      SumAppend(writes, n);
      MulNext(windows, total);
      if q.sentBytes + n == total {
        windows := windows + 1;
      }
      q, writes := AfterWrite(q, total, bufferLen, n, t), writes + [n];
    }
    MulNext(windows, total);
  }

  // ---------------------------------------------------------------- the bytes that are sent

  /** The send buffer's contents. */
  function Pattern(n: nat): (bs: seq<byte>)
    ensures |bs| == n
  {
    seq(n, i requires 0 <= i => i % 256)
  }

  /** Position in the current window before the k-th write, when every write is complete. */
  function SentAt(total: uint64, bufferLen: nat, k: nat): (s: nat)
    ensures total > 0 ==> s < total
  {
    if k == 0 || total == 0 then 0
    else
      var s := SentAt(total, bufferLen, k - 1);
      var s' := s + Min(bufferLen, total - s);
      if s' == total then 0 else s'
  }

  function ChunkLen(total: uint64, bufferLen: nat, k: nat): nat {
    if total == 0 then bufferLen else Min(bufferLen, total - SentAt(total, bufferLen, k))
  }

  /** The first `k` chunks of a sender's stream. */
  function Payload(total: uint64, bufferLen: nat, k: nat): seq<byte> {
    if k == 0 then []
    else Payload(total, bufferLen, k - 1) + Pattern(bufferLen)[..ChunkLen(total, bufferLen, k - 1)]
  }

  /** A stream of `k` chunks and the first `n` bytes of the next. */
  function Begun(total: uint64, bufferLen: nat, k: nat, n: nat): seq<byte>
    requires n <= bufferLen
  {
    Payload(total, bufferLen, k) + Pattern(bufferLen)[..n]
  }

  lemma BegunMore(head: seq<byte>, total: uint64, bufferLen: nat, k: nat, n: nat, more: nat)
    requires n + more <= bufferLen
    ensures head + Begun(total, bufferLen, k, n) + Pattern(bufferLen)[n..n + more]
         == head + Begun(total, bufferLen, k, n + more)
  {
    var p := Pattern(bufferLen);
    assert p[..n + more] == p[..n] + p[n..n + more];
  }

  lemma BegunPrefix(total: uint64, bufferLen: nat, k: nat, n: nat)
    requires n <= ChunkLen(total, bufferLen, k) <= bufferLen
    ensures Begun(total, bufferLen, k, n) <= Payload(total, bufferLen, k + 1)
    ensures n == ChunkLen(total, bufferLen, k) ==> Begun(total, bufferLen, k, n) == Payload(total, bufferLen, k + 1)
  {
    var p := Pattern(bufferLen);
    assert p[..n] <= p[..ChunkLen(total, bufferLen, k)];
  }

  /** The whole next chunk makes one chunk more. */
  lemma BegunWhole(head: seq<byte>, total: uint64, bufferLen: nat, k: nat)
    ensures var n := ChunkLen(total, bufferLen, k);
            && n <= bufferLen
            && head + Begun(total, bufferLen, k, n) == head + Begun(total, bufferLen, k + 1, 0)
            && |Payload(total, bufferLen, k + 1)| == |Payload(total, bufferLen, k)| + n
  {
  }

  /** A sender about to make its k-th write, all earlier ones having been complete. */
  ghost predicate AtChunk(q: Quota, total: uint64, bufferLen: nat, k: nat) {
    Exact(q, total, bufferLen) && (total > 0 ==> q.sentBytes == SentAt(total, bufferLen, k))
  }

  lemma ChunkStep(q: Quota, total: uint64, bufferLen: nat, k: nat, t: Readings)
    requires AtChunk(q, total, bufferLen, k)
    ensures q.bytesToSend == ChunkLen(total, bufferLen, k) <= bufferLen
    ensures AtChunk(AfterWrite(q, total, bufferLen, q.bytesToSend, t), total, bufferLen, k + 1)
  {
    WindowStep(q, total, bufferLen, q.bytesToSend, t);
  }

  lemma PayloadNext(head: seq<byte>, total: uint64, bufferLen: nat, k: nat)
    ensures head + Payload(total, bufferLen, k) + Pattern(bufferLen)[..ChunkLen(total, bufferLen, k)]
         == head + Payload(total, bufferLen, k + 1)
  {
  }

  method FillBuffer(size: nat) returns (buff: array<byte>)
    ensures fresh(buff) && buff[..] == Pattern(size)
  {
    buff := new byte[size];
    var i := 0;
    while i < size
      invariant 0 <= i <= size
      invariant forall j :: 0 <= j < i ==> buff[j] == j % 256
    {
      buff[i] := i % 256;
      i := i + 1;
    }
  }

  /** The send loop over a real connection writes exactly `Payload`. */
  method SendPayload(conn: Conn, total: uint64, bufferLen: nat, clock: seq<Readings>)
    requires bufferLen > 0 && |clock| > 0
    modifies conn
    ensures conn.inbox == old(conn.inbox)
    ensures conn.outbox == old(conn.outbox) + Payload(total, bufferLen, |clock| - 1)
  {
    var filled := FillBuffer(bufferLen);
    var buff := filled[..];
    var q := BeginThrottle(total, bufferLen, clock[0]);
    var k := 0;
    ghost var before := conn.outbox;
    assert before + [] == before;
    while k < |clock| - 1
      invariant 0 <= k <= |clock| - 1
      invariant AtChunk(q, total, bufferLen, k)
      invariant conn.inbox == old(conn.inbox)
      invariant conn.outbox == before + Payload(total, bufferLen, k)
    {
      ChunkStep(q, total, bufferLen, k, clock[k + 1]);
      PayloadNext(before, total, bufferLen, k);
      conn.Write(buff[..q.bytesToSend]);
      q, k := AfterWrite(q, total, bufferLen, q.bytesToSend, clock[k + 1]), k + 1;
    }
  }

  /** A sender whose first write is a single byte only ever writes single zero bytes. */
  lemma {:induction false} SingleByteChunks(total: uint64, bufferLen: nat, k: nat)
    requires bufferLen > 0 && ChunkLen(total, bufferLen, 0) == 1
    ensures ChunkLen(total, bufferLen, k) == 1
    ensures Payload(total, bufferLen, k) == seq(k, i => 0)
  {
    if k > 0 {
      SingleByteChunks(total, bufferLen, k - 1);
      assert Pattern(bufferLen)[..1] == [0];
    }
  }

  lemma {:induction false} PayloadStart(total: uint64, bufferLen: nat, k: nat)
    requires bufferLen > 0 && k > 0
    ensures Pattern(bufferLen)[..ChunkLen(total, bufferLen, 0)] <= Payload(total, bufferLen, k)
  {
    if k == 1 {
      assert Payload(total, bufferLen, 0) == [];
    } else {
      PayloadStart(total, bufferLen, k - 1);
    }
  }

  /** Whatever the buffer size and the rate, a payload stream starts `00 01` or `00 00 00 00`. */
  lemma PayloadHead(total: uint64, bufferLen: nat, k: nat)
    requires bufferLen > 0
    ensures var p := Payload(total, bufferLen, k);
            |p| >= 4 ==> p[..2] == [0, 1] || p[..4] == [0, 0, 0, 0]
  {
    var p := Payload(total, bufferLen, k);
    if |p| >= 4 {
      if ChunkLen(total, bufferLen, 0) == 1 {
        SingleByteChunks(total, bufferLen, k);
      } else {
        PayloadStart(total, bufferLen, k);
        var chunk := Pattern(bufferLen)[..ChunkLen(total, bufferLen, 0)];
        assert chunk[0] == 0 && chunk[1] == 1;
        assert p[..2] == [0, 1];
      }
    }
  }

  /** A receiver that mistakes the start of a payload stream for a frame rejects it after at most
      four bytes: either the length is over the limit or the frame is empty. */
  lemma PayloadIsNoFrame(total: uint64, bufferLen: nat, k: nat, acc: seq<byte>)
    requires bufferLen > 0 && acc <= Payload(total, bufferLen, k)
    ensures |acc| < 4 ==> Need(acc) == 4 - |acc|
    ensures |acc| == 4 ==> Need(acc) == 0 && Outcome(acc) == Inv
    ensures Recv(acc) == Received(Inv, Min(4, |acc|))
  {
    PayloadHead(total, bufferLen, k);
    CodecLaws(Inv);
    if |acc| >= 4 {
      var p := Payload(total, bufferLen, k);
      assert acc[..2] == p[..2] && acc[..4] == p[..4];
      assert acc[..4] == [acc[0], acc[1], acc[2], acc[3]];
      HeaderValue(acc[0], acc[1], acc[2], acc[3]);
    }
    if |acc| == 4 {
      assert acc[4..] == [];
    }
  }
}
