/** Every interleaving of the server's TCP connection handlers, UDP packet handlers and UDP
    collectors over the registry (server.go, session.go). Registry operations are the atomic steps
    of module References; tests are named by serial numbers. */
module Lifecycle {
  import opened Wire
  import opened Time
  import opened References

  const TCP_ALL := TestID(TCP, All)
  const UDP_ALL := TestID(UDP, All)

  /** A connection handler: before the lookup, in the handshake, serving a test, in the 2 s that
      follow a handshake that failed, and after its reference has been given back. */
  datatype Handler =
    | Idle
    | Shaking(ip: string, test: nat)
    | Serving(ip: string, test: nat)
    | Lingering(ip: string, test: nat, since: int)
    | Finished

  /** A packet handler's cached test. Its collector first finds the entry overdue, then releases its
      reference, and then forgets it. */
  datatype Stage = Fresh | Due | Released
  datatype Entry = Entry(test: nat, stage: Stage)
  type Cache = map<string, Entry>

  /** A packet whose test has been looked up, and is still to be counted on it. */
  datatype Pending = NoPacket | Found(ip: string, test: nat)

  datatype Server = Server(
    view: View<nat>, next: nat, now: int,
    tcp: seq<Handler>, udp: seq<Cache>, pending: seq<Pending>, lastAccess: map<nat, int>,
    created: nat, deleted: nat,                      // TCP tests
    counted: multiset<string>)                       // UDP packets, by address

  datatype Step =
    | Connect
    | Lookup(i: nat, ip: string)
    | Handshake(i: nat, ok: bool)
    | HandlerExit(i: nat)
    | Packet(h: nat, ip: string)
    | Count(h: nat)
    | SweepCheck(h: nat, ip: string)
    | SweepRelease(h: nat, ip: string)
    | SweepForget(h: nat, ip: string)
    | Wait(until: int)

  function Staged(udp: seq<Cache>, h: nat, ip: string, stage: Stage): seq<Cache>
    requires h < |udp| && ip in udp[h]
  {
    udp[h := udp[h][ip := udp[h][ip].(stage := stage)]]
  }

  predicate Live(e: Entry) {
    !e.stage.Released?
  }

  predicate Active(h: Handler) {
    h.Shaking? || h.Serving? || h.Lingering?
  }

  /** The collector's 2 s test. */
  predicate Silent(s: Server, t: nat) {
    t in s.lastAccess && s.now - s.lastAccess[t] > 2 * SECOND
  }

  /** safeDeleteTest on a test the registry may or may not still list. */
  function GiveBack(v: View<nat>, k: Key): View<nat> {
    if Has(v.tests, k) then Release(v, k) else v
  }

  predicate Enabled(s: Server, e: Step) {
    match e
    case Connect => true
    case Lookup(i, ip) => i < |s.tcp| && s.tcp[i].Idle?
    case Handshake(i, ok) => i < |s.tcp| && s.tcp[i].Shaking?
    case HandlerExit(i) =>
      i < |s.tcp| && (s.tcp[i].Serving? || (s.tcp[i].Lingering? && s.now >= s.tcp[i].since + 2 * SECOND))
    case Packet(h, ip) => h < |s.udp| == |s.pending| && s.pending[h].NoPacket?
    case Count(h) => h < |s.pending| && s.pending[h].Found?
    case SweepCheck(h, ip) =>
      h < |s.udp| && ip in s.udp[h] && s.udp[h][ip].stage.Fresh? && Silent(s, s.udp[h][ip].test)
    case SweepRelease(h, ip) => h < |s.udp| && ip in s.udp[h] && s.udp[h][ip].stage.Due?
    case SweepForget(h, ip) => h < |s.udp| && ip in s.udp[h] && s.udp[h][ip].stage.Released?
    case Wait(until) => s.now <= until
  }

  function Apply(s: Server, e: Step): Server
    requires Enabled(s, e)
  {
    match e
    case Connect => s.(tcp := s.tcp + [Idle])
    case Lookup(i, ip) =>
      var k := Key(ip, TCP_ALL);
      var isNew := !Has(s.view.tests, k);
      var view := Acquire(s.view, k, s.next);
      s.(view := view, next := s.next + 1, tcp := s.tcp[i := Shaking(ip, At(view.tests, k))],
         created := s.created + (if isNew then 1 else 0))
    case Handshake(i, ok) =>
      s.(tcp := s.tcp[i := if ok then Serving(s.tcp[i].ip, s.tcp[i].test)
                           else Lingering(s.tcp[i].ip, s.tcp[i].test, s.now)])
    case HandlerExit(i) =>
      var k := Key(s.tcp[i].ip, TCP_ALL);
      var view := GiveBack(s.view, k);
      s.(view := view, tcp := s.tcp[i := Finished],
         deleted := s.deleted + (if Has(view.tests, k) then 0 else 1))
    case Packet(h, ip) =>
      if ip in s.udp[h] then s.(pending := s.pending[h := Found(ip, s.udp[h][ip].test)])
      else
        // The packet that makes the entry is not counted.
        var k := Key(ip, UDP_ALL);
        var isNew := !Has(s.view.tests, k);
        var view := Acquire(s.view, k, s.next);
        s.(view := view, next := s.next + 1, udp := s.udp[h := s.udp[h][ip := Entry(At(view.tests, k), Fresh)]],
           lastAccess := if isNew then s.lastAccess[s.next := s.now] else s.lastAccess)
    case Count(h) =>
      s.(pending := s.pending[h := NoPacket], counted := s.counted + multiset{s.pending[h].ip},
         lastAccess := s.lastAccess[s.pending[h].test := s.now])
    case SweepCheck(h, ip) => s.(udp := Staged(s.udp, h, ip, Due))
    case SweepRelease(h, ip) =>
      s.(view := GiveBack(s.view, Key(ip, UDP_ALL)), udp := Staged(s.udp, h, ip, Released))
    case SweepForget(h, ip) => s.(udp := s.udp[h := s.udp[h] - {ip}])
    case Wait(until) => s.(now := until)
  }

  /** The handlers that use an address's TCP test, and the caches that hold its UDP test. */
  function TcpUsers(tcp: seq<Handler>, ip: string): set<nat> {
    set i: nat | i < |tcp| && Active(tcp[i]) && tcp[i].ip == ip
  }

  function UdpUsers(udp: seq<Cache>, ip: string): set<nat> {
    set h: nat | h < |udp| && ip in udp[h] && Live(udp[h][ip])
  }

  // ---------------------------------------------------------------- the invariant

  /** Serial numbers name registered tests apart and are not used up. */
  ghost predicate Serials(v: View<nat>, next: nat) {
    && (forall k :: Has(v.tests, k) ==> At(v.tests, k) < next && k.id in {TCP_ALL, UDP_ALL})
    && (forall t :: t in v.holders ==> t < next)
    && (forall j, k :: Has(v.tests, j) && Has(v.tests, k) && At(v.tests, j) == At(v.tests, k) ==> j == k)
  }

  /** The reference count of an address's registered test is the number of its users, at least one. */
  ghost predicate TcpCount(v: View<nat>, tcp: seq<Handler>, ip: string) {
    Has(v.tests, Key(ip, TCP_ALL)) ==> 0 < v.holders[At(v.tests, Key(ip, TCP_ALL))] == |TcpUsers(tcp, ip)|
  }

  ghost predicate UdpCount(v: View<nat>, udp: seq<Cache>, ip: string) {
    Has(v.tests, Key(ip, UDP_ALL)) ==> 0 < v.holders[At(v.tests, Key(ip, UDP_ALL))] == |UdpUsers(udp, ip)|
  }

  /** What a user holds is the registered test. */
  ghost predicate Holds(v: View<nat>, k: Key, t: nat) {
    Has(v.tests, k) && At(v.tests, k) == t
  }

  ghost predicate TcpMatch(v: View<nat>, tcp: seq<Handler>) {
    && (forall ip :: TcpCount(v, tcp, ip))
    && (forall i :: 0 <= i < |tcp| && Active(tcp[i]) ==> Holds(v, Key(tcp[i].ip, TCP_ALL), tcp[i].test))
  }

  ghost predicate UdpMatch(v: View<nat>, udp: seq<Cache>) {
    && (forall ip :: UdpCount(v, udp, ip))
    && (forall h, ip :: 0 <= h < |udp| && ip in udp[h] && Live(udp[h][ip]) ==>
          Holds(v, Key(ip, UDP_ALL), udp[h][ip].test))
  }

  // Sets of users after one of them changes.

  lemma TcpUsersChange(tcp: seq<Handler>, i: nat, h: Handler, ip: string)
    requires i < |tcp|
    ensures TcpUsers(tcp[i := h], ip)
         == (if Active(h) && h.ip == ip then TcpUsers(tcp, ip) + {i} else TcpUsers(tcp, ip) - {i})
  {
  }

  lemma UdpUsersChange(udp: seq<Cache>, h: nat, c: Cache, ip: string)
    requires h < |udp|
    ensures UdpUsers(udp[h := c], ip)
         == (if ip in c && Live(c[ip]) then UdpUsers(udp, ip) + {h} else UdpUsers(udp, ip) - {h})
  {
  }

  // ---------------------------------------------------------------- taking and giving back

  lemma AcquireSerials(v: View<nat>, k: Key, next: nat)
    requires Serials(v, next) && k.id in {TCP_ALL, UDP_ALL}
    ensures Serials(Acquire(v, k, next), next + 1)
  {
    AcquireEffect(v, k, next);
  }

  lemma ReleaseSerials(v: View<nat>, k: Key, next: nat)
    requires Serials(v, next)
    ensures Serials(GiveBack(v, k), next)
  {
    if Has(v.tests, k) {
      ReleaseEffect(v, k);
    }
  }

  lemma NoTcpUsers(v: View<nat>, tcp: seq<Handler>, ip: string)
    requires TcpMatch(v, tcp) && !Has(v.tests, Key(ip, TCP_ALL))
    ensures TcpUsers(tcp, ip) == {}
  {
  }

  lemma LookupTcpCount(v: View<nat>, next: nat, tcp: seq<Handler>, i: nat, ip: string, jp: string)
    requires Serials(v, next) && TcpMatch(v, tcp) && i < |tcp| && tcp[i].Idle?
    ensures var v' := Acquire(v, Key(ip, TCP_ALL), next);
            TcpCount(v', tcp[i := Shaking(ip, At(v'.tests, Key(ip, TCP_ALL)))], jp)
  {
    var k := Key(ip, TCP_ALL);
    assert i !in TcpUsers(tcp, jp) && TcpCount(v, tcp, jp);
    hide Acquire, TcpUsers;
    AcquireEffect(v, k, next);
    TcpUsersChange(tcp, i, Shaking(ip, At(Acquire(v, k, next).tests, k)), jp);
    if !Has(v.tests, k) {
      NoTcpUsers(v, tcp, ip);
    }
    hide TcpMatch;
  }

  lemma LookupTcp(v: View<nat>, next: nat, tcp: seq<Handler>, i: nat, ip: string)
    requires Serials(v, next) && TcpMatch(v, tcp) && i < |tcp| && tcp[i].Idle?
    ensures var v' := Acquire(v, Key(ip, TCP_ALL), next);
            TcpMatch(v', tcp[i := Shaking(ip, At(v'.tests, Key(ip, TCP_ALL)))])
  {
    var k := Key(ip, TCP_ALL);
    AcquireEffect(v, k, next);
    hide Acquire, TcpCount, TcpUsers;
    var v' := Acquire(v, k, next);
    var tcp' := tcp[i := Shaking(ip, At(v'.tests, k))];
    forall jp ensures TcpCount(v', tcp', jp) {
      LookupTcpCount(v, next, tcp, i, ip, jp);
    }
  }

  lemma NoUdpUsers(v: View<nat>, udp: seq<Cache>, ip: string)
    requires UdpMatch(v, udp) && !Has(v.tests, Key(ip, UDP_ALL))
    ensures UdpUsers(udp, ip) == {}
  {
  }

  lemma ExitTcpCount(v: View<nat>, next: nat, tcp: seq<Handler>, i: nat, ip: string)
    requires Serials(v, next) && TcpMatch(v, tcp) && i < |tcp| && Active(tcp[i])
    ensures TcpCount(GiveBack(v, Key(tcp[i].ip, TCP_ALL)), tcp[i := Finished], ip)
  {
    var k := Key(tcp[i].ip, TCP_ALL);
    assert Holds(v, k, tcp[i].test) && TcpCount(v, tcp, ip);
    ReleaseEffect(v, k);
    TcpUsersChange(tcp, i, Finished, ip);
  }

  lemma Two(s: set<nat>, i: nat, j: nat)
    requires i in s && j in s && i != j
    ensures |s| >= 2
  {
    var rest := s - {i};
    assert j in rest && |s| == |rest| + 1;
  }

  lemma ExitTcpHolds(v: View<nat>, next: nat, tcp: seq<Handler>, i: nat, j: nat)
    requires Serials(v, next) && TcpMatch(v, tcp) && i < |tcp| && Active(tcp[i])
    requires j < |tcp| && j != i && Active(tcp[j])
    ensures Holds(GiveBack(v, Key(tcp[i].ip, TCP_ALL)), Key(tcp[j].ip, TCP_ALL), tcp[j].test)
  {
    var k := Key(tcp[i].ip, TCP_ALL);
    assert Holds(v, k, tcp[i].test) && Holds(v, Key(tcp[j].ip, TCP_ALL), tcp[j].test) && TcpCount(v, tcp, k.ip);
    ReleaseEffect(v, k);
    if tcp[j].ip == k.ip {
      assert {i, j} <= TcpUsers(tcp, k.ip);
      Two(TcpUsers(tcp, k.ip), i, j);
    }
  }

  lemma ExitTcp(v: View<nat>, next: nat, tcp: seq<Handler>, i: nat)
    requires Serials(v, next) && TcpMatch(v, tcp) && i < |tcp| && Active(tcp[i])
    ensures Has(v.tests, Key(tcp[i].ip, TCP_ALL))
    ensures TcpMatch(GiveBack(v, Key(tcp[i].ip, TCP_ALL)), tcp[i := Finished])
  {
    assert Holds(v, Key(tcp[i].ip, TCP_ALL), tcp[i].test);
    hide GiveBack, TcpCount, Holds;
    var v', tcp' := GiveBack(v, Key(tcp[i].ip, TCP_ALL)), tcp[i := Finished];
    forall ip ensures TcpCount(v', tcp', ip) {
      ExitTcpCount(v, next, tcp, i, ip);
    }
    forall j: nat | j < |tcp| && j != i && Active(tcp[j])
      ensures Holds(v', Key(tcp[j].ip, TCP_ALL), tcp[j].test)
    {
      ExitTcpHolds(v, next, tcp, i, j);
    }
  }

  lemma HandshakeTcp(v: View<nat>, tcp: seq<Handler>, i: nat, h: Handler)
    requires TcpMatch(v, tcp) && i < |tcp| && Active(tcp[i]) && Active(h)
    requires h.ip == tcp[i].ip && h.test == tcp[i].test
    ensures TcpMatch(v, tcp[i := h])
  {
    assert Holds(v, Key(tcp[i].ip, TCP_ALL), tcp[i].test);
    var tcp' := tcp[i := h];
    forall ip ensures TcpCount(v, tcp', ip) {
      assert TcpCount(v, tcp, ip);
      assert TcpUsers(tcp', ip) == TcpUsers(tcp, ip);
    }
  }

  lemma ConnectTcp(v: View<nat>, tcp: seq<Handler>)
    requires TcpMatch(v, tcp)
    ensures TcpMatch(v, tcp + [Idle])
  {
    var tcp' := tcp + [Idle];
    forall ip ensures TcpCount(v, tcp', ip) {
      assert TcpCount(v, tcp, ip);
      assert TcpUsers(tcp', ip) == TcpUsers(tcp, ip);
    }
  }

  lemma EnteredUsers(udp: seq<Cache>, h: nat, ip: string, t: nat, jp: string)
    requires h < |udp| && ip !in udp[h]
    ensures UdpUsers(udp[h := udp[h][ip := Entry(t, Fresh)]], jp) == UdpUsers(udp, jp) + (if jp == ip then {h} else {})
    ensures h !in UdpUsers(udp, ip)
  {
  }

  lemma EnterUdpCount(v: View<nat>, next: nat, udp: seq<Cache>, h: nat, ip: string, jp: string)
    requires Serials(v, next) && UdpMatch(v, udp) && h < |udp| && ip !in udp[h]
    ensures var v' := Acquire(v, Key(ip, UDP_ALL), next);
            UdpCount(v', udp[h := udp[h][ip := Entry(At(v'.tests, Key(ip, UDP_ALL)), Fresh)]], jp)
  {
    var k := Key(ip, UDP_ALL);
    assert UdpCount(v, udp, jp);
    hide Acquire, UdpUsers, UdpMatch;
    AcquireEffect(v, k, next);
    EnteredUsers(udp, h, ip, At(Acquire(v, k, next).tests, k), jp);
    if !Has(v.tests, k) {
      NoUdpUsers(v, udp, ip);
    }
  }

  lemma EnterUdp(v: View<nat>, next: nat, udp: seq<Cache>, h: nat, ip: string)
    requires Serials(v, next) && UdpMatch(v, udp) && h < |udp| && ip !in udp[h]
    ensures var v' := Acquire(v, Key(ip, UDP_ALL), next);
            UdpMatch(v', udp[h := udp[h][ip := Entry(At(v'.tests, Key(ip, UDP_ALL)), Fresh)]])
  {
    var k := Key(ip, UDP_ALL);
    AcquireEffect(v, k, next);
    hide Acquire, UdpCount;
    var v' := Acquire(v, k, next);
    var udp' := udp[h := udp[h][ip := Entry(At(v'.tests, k), Fresh)]];
    forall jp ensures UdpCount(v', udp', jp) {
      EnterUdpCount(v, next, udp, h, ip, jp);
    }
    forall g, jp | 0 <= g < |udp'| && jp in udp'[g] && Live(udp'[g][jp])
      ensures Holds(v', Key(jp, UDP_ALL), udp'[g][jp].test)
    {
      if g != h || jp != ip {
        assert Holds(v, Key(jp, UDP_ALL), udp[g][jp].test);
      }
    }
  }

  lemma ReleasedUsers(udp: seq<Cache>, h: nat, ip: string, jp: string)
    requires h < |udp| && ip in udp[h] && Live(udp[h][ip])
    ensures UdpUsers(Staged(udp, h, ip, Released), jp) == UdpUsers(udp, jp) - (if jp == ip then {h} else {})
    ensures h in UdpUsers(udp, ip)
  {
  }

  lemma ReleaseUdpCount(v: View<nat>, next: nat, udp: seq<Cache>, h: nat, ip: string, jp: string)
    requires Serials(v, next) && UdpMatch(v, udp) && h < |udp| && ip in udp[h] && Live(udp[h][ip])
    ensures UdpCount(GiveBack(v, Key(ip, UDP_ALL)), Staged(udp, h, ip, Released), jp)
  {
    var k := Key(ip, UDP_ALL);
    assert Holds(v, k, udp[h][ip].test) && UdpCount(v, udp, jp) && UdpCount(v, udp, ip);
    ReleaseEffect(v, k);
    ReleasedUsers(udp, h, ip, jp);
    hide Release, Staged, UdpUsers, UdpMatch;
  }

  lemma ReleaseUdpHolds(v: View<nat>, next: nat, udp: seq<Cache>, h: nat, ip: string, g: nat, jp: string)
    requires Serials(v, next) && UdpMatch(v, udp) && h < |udp| && ip in udp[h] && Live(udp[h][ip])
    requires g < |udp| && jp in udp[g] && Live(udp[g][jp]) && (g != h || jp != ip)
    ensures Holds(GiveBack(v, Key(ip, UDP_ALL)), Key(jp, UDP_ALL), udp[g][jp].test)
  {
    var k := Key(ip, UDP_ALL);
    assert Holds(v, k, udp[h][ip].test) && Holds(v, Key(jp, UDP_ALL), udp[g][jp].test) && UdpCount(v, udp, ip);
    ReleaseEffect(v, k);
    hide Release;
    if jp == ip {
      Two(UdpUsers(udp, ip), g, h);
    }
  }

  lemma ReleaseUdp(v: View<nat>, next: nat, udp: seq<Cache>, h: nat, ip: string)
    requires Serials(v, next) && UdpMatch(v, udp) && h < |udp| && ip in udp[h] && Live(udp[h][ip])
    ensures Has(v.tests, Key(ip, UDP_ALL))
    ensures UdpMatch(GiveBack(v, Key(ip, UDP_ALL)), Staged(udp, h, ip, Released))
  {
    assert Holds(v, Key(ip, UDP_ALL), udp[h][ip].test);
    hide GiveBack, UdpCount, Holds;
    forall jp ensures UdpCount(GiveBack(v, Key(ip, UDP_ALL)), Staged(udp, h, ip, Released), jp) {
      ReleaseUdpCount(v, next, udp, h, ip, jp);
    }
    forall g: nat, jp | g < |udp| && jp in udp[g] && Live(udp[g][jp]) && (g != h || jp != ip)
      ensures Holds(GiveBack(v, Key(ip, UDP_ALL)), Key(jp, UDP_ALL), udp[g][jp].test)
    {
      ReleaseUdpHolds(v, next, udp, h, ip, g, jp);
    }
  }

  lemma ForgetUdp(v: View<nat>, udp: seq<Cache>, h: nat, ip: string)
    requires UdpMatch(v, udp) && h < |udp| && ip in udp[h] && !Live(udp[h][ip])
    ensures UdpMatch(v, udp[h := udp[h] - {ip}])
  {
    var udp' := udp[h := udp[h] - {ip}];
    forall jp
      ensures UdpCount(v, udp', jp)
    {
      assert UdpCount(v, udp, jp);
      UdpUsersChange(udp, h, udp'[h], jp);
      UdpUsersChange(udp, h, udp[h], jp);
    }
  }

  /** What happens to tests of one protocol leaves the other's alone. */
  lemma UntouchedUdp(v: View<nat>, v': View<nat>, udp: seq<Cache>)
    requires UdpMatch(v, udp)
    requires forall ip :: Has(v'.tests, Key(ip, UDP_ALL)) <==> Has(v.tests, Key(ip, UDP_ALL))
    requires forall ip :: Has(v.tests, Key(ip, UDP_ALL)) ==>
               && At(v'.tests, Key(ip, UDP_ALL)) == At(v.tests, Key(ip, UDP_ALL))
               && v'.holders[At(v.tests, Key(ip, UDP_ALL))] == v.holders[At(v.tests, Key(ip, UDP_ALL))]
    ensures UdpMatch(v', udp)
  {
    forall ip ensures UdpCount(v', udp, ip) {
      assert UdpCount(v, udp, ip);
    }
  }

  lemma UntouchedTcp(v: View<nat>, v': View<nat>, tcp: seq<Handler>)
    requires TcpMatch(v, tcp)
    requires forall ip :: Has(v'.tests, Key(ip, TCP_ALL)) <==> Has(v.tests, Key(ip, TCP_ALL))
    requires forall ip :: Has(v.tests, Key(ip, TCP_ALL)) ==>
               && At(v'.tests, Key(ip, TCP_ALL)) == At(v.tests, Key(ip, TCP_ALL))
               && v'.holders[At(v.tests, Key(ip, TCP_ALL))] == v.holders[At(v.tests, Key(ip, TCP_ALL))]
    ensures TcpMatch(v', tcp)
  {
    forall ip ensures TcpCount(v', tcp, ip) {
      assert TcpCount(v, tcp, ip);
    }
  }

  lemma TcpLeavesUdp(v: View<nat>, next: nat, udp: seq<Cache>, ip: string)
    requires Serials(v, next) && UdpMatch(v, udp)
    ensures UdpMatch(Acquire(v, Key(ip, TCP_ALL), next), udp)
    ensures UdpMatch(GiveBack(v, Key(ip, TCP_ALL)), udp)
  {
    var k := Key(ip, TCP_ALL);
    AcquireEffect(v, k, next);
    UntouchedUdp(v, Acquire(v, k, next), udp);
    if Has(v.tests, k) {
      ReleaseEffect(v, k);
      UntouchedUdp(v, Release(v, k), udp);
    }
  }

  lemma UdpLeavesTcp(v: View<nat>, next: nat, tcp: seq<Handler>, ip: string)
    requires Serials(v, next) && TcpMatch(v, tcp)
    ensures TcpMatch(Acquire(v, Key(ip, UDP_ALL), next), tcp)
    ensures TcpMatch(GiveBack(v, Key(ip, UDP_ALL)), tcp)
  {
    var k := Key(ip, UDP_ALL);
    AcquireEffect(v, k, next);
    UntouchedTcp(v, Acquire(v, k, next), tcp);
    if Has(v.tests, k) {
      ReleaseEffect(v, k);
      UntouchedTcp(v, Release(v, k), tcp);
    }
  }

  // ---------------------------------------------------------------- whole runs

  /** The addresses whose TCP test is registered. */
  function TcpListed(d: Directory<nat>): set<string> {
    set ip | ip in d && TCP_ALL in d[ip]
  }

  lemma ListedAfterLookup(v: View<nat>, k: Key, next: nat)
    ensures var d := Acquire(v, k, next).tests;
            TcpListed(d) == (if k.id == TCP_ALL then TcpListed(v.tests) + {k.ip} else TcpListed(v.tests))
  {
    AcquireEffect(v, k, next);
    hide Acquire;
    var d := Acquire(v, k, next).tests;
    forall ip ensures ip in TcpListed(d) <==> Has(d, Key(ip, TCP_ALL)) {
    }
    forall ip ensures ip in TcpListed(v.tests) <==> Has(v.tests, Key(ip, TCP_ALL)) {
    }
  }

  lemma ListedAfterGiveBack(v: View<nat>, k: Key)
    ensures var d := GiveBack(v, k).tests;
            TcpListed(d) == (if k.id == TCP_ALL && !Has(d, k) then TcpListed(v.tests) - {k.ip} else TcpListed(v.tests))
  {
    if Has(v.tests, k) {
      ReleaseEffect(v, k);
    }
    hide Release;
    var d := GiveBack(v, k).tests;
    forall ip ensures ip in TcpListed(d) <==> Has(d, Key(ip, TCP_ALL)) {
    }
    forall ip ensures ip in TcpListed(v.tests) <==> Has(v.tests, Key(ip, TCP_ALL)) {
    }
  }

  ghost predicate Counters(s: Server) {
    s.created == s.deleted + |TcpListed(s.view.tests)|
  }

  /** Every registered UDP test has a last access. */
  ghost predicate Known(v: View<nat>, lastAccess: map<nat, int>) {
    forall ip :: Has(v.tests, Key(ip, UDP_ALL)) ==> At(v.tests, Key(ip, UDP_ALL)) in lastAccess
  }

  /** All of them are in the past. */
  ghost predicate Accesses(s: Server) {
    && Known(s.view, s.lastAccess)
    && (forall t :: t in s.lastAccess ==> s.lastAccess[t] <= s.now)
  }

  lemma KnownAfterLookup(v: View<nat>, k: Key, next: nat, lastAccess: map<nat, int>, now: int)
    requires Known(v, lastAccess) && k.id in {TCP_ALL, UDP_ALL}
    ensures k.id == TCP_ALL ==> Known(Acquire(v, k, next), lastAccess)
    ensures k.id == UDP_ALL ==>
              Known(Acquire(v, k, next), if Has(v.tests, k) then lastAccess else lastAccess[next := now])
  {
    AcquireEffect(v, k, next);
    hide Acquire;
  }

  lemma KnownAfterGiveBack(v: View<nat>, k: Key, lastAccess: map<nat, int>)
    requires Known(v, lastAccess)
    ensures Known(GiveBack(v, k), lastAccess)
  {
    if Has(v.tests, k) {
      ReleaseEffect(v, k);
    }
    hide Release;
  }

  ghost predicate Inv(s: Server) {
    && Serials(s.view, s.next) && TcpMatch(s.view, s.tcp) && UdpMatch(s.view, s.udp)
    && Counters(s) && Accesses(s) && |s.pending| == |s.udp|
  }

  function Init(handlers: nat, now: int): Server {
    Server(View(map[], multiset{}), 0, now, [], seq(handlers, _ => map[]), seq(handlers, _ => NoPacket), map[],
           0, 0, multiset{})
  }

  lemma InitInv(handlers: nat, now: int)
    ensures Inv(Init(handlers, now))
  {
  }

  lemma LookupCounters(s: Server, i: nat, ip: string)
    requires Counters(s) && Enabled(s, Lookup(i, ip))
    ensures Counters(Apply(s, Lookup(i, ip)))
  {
    var k := Key(ip, TCP_ALL);
    assert ip in TcpListed(s.view.tests) <==> Has(s.view.tests, k);
    hide Acquire, TcpListed;
    ListedAfterLookup(s.view, k, s.next);
  }

  lemma LookupKeeps(s: Server, i: nat, ip: string)
    requires Inv(s) && Enabled(s, Lookup(i, ip))
    ensures Inv(Apply(s, Lookup(i, ip)))
  {
    var k := Key(ip, TCP_ALL);
    LookupCounters(s, i, ip);
    hide Acquire, Serials, TcpMatch, UdpMatch, Counters, Known;
    AcquireSerials(s.view, k, s.next);
    LookupTcp(s.view, s.next, s.tcp, i, ip);
    TcpLeavesUdp(s.view, s.next, s.udp, ip);
    KnownAfterLookup(s.view, k, s.next, s.lastAccess, s.now);
    AcquireEffect(s.view, k, s.next);
  }

  lemma ExitKeeps(s: Server, i: nat)
    requires Inv(s) && Enabled(s, HandlerExit(i))
    ensures Inv(Apply(s, HandlerExit(i))) && Has(s.view.tests, Key(s.tcp[i].ip, TCP_ALL))
  {
    var k := Key(s.tcp[i].ip, TCP_ALL);
    ExitTcp(s.view, s.next, s.tcp, i);
    assert k.ip in TcpListed(s.view.tests);
    hide GiveBack, Serials, TcpMatch, UdpMatch, TcpListed, Known;
    ReleaseSerials(s.view, k, s.next);
    TcpLeavesUdp(s.view, s.next, s.udp, k.ip);
    ListedAfterGiveBack(s.view, k);
    KnownAfterGiveBack(s.view, k, s.lastAccess);
  }

  lemma PacketKeeps(s: Server, h: nat, ip: string)
    requires Inv(s) && Enabled(s, Packet(h, ip))
    ensures Inv(Apply(s, Packet(h, ip)))
  {
    hide Acquire, Serials, TcpMatch, UdpMatch, TcpListed, Known;
    if ip !in s.udp[h] {
      var k := Key(ip, UDP_ALL);
      AcquireSerials(s.view, k, s.next);
      EnterUdp(s.view, s.next, s.udp, h, ip);
      UdpLeavesTcp(s.view, s.next, s.tcp, ip);
      ListedAfterLookup(s.view, k, s.next);
      KnownAfterLookup(s.view, k, s.next, s.lastAccess, s.now);
      AcquireEffect(s.view, k, s.next);
    }
  }

  lemma SweepReleaseKeeps(s: Server, h: nat, ip: string)
    requires Inv(s) && Enabled(s, SweepRelease(h, ip))
    ensures Inv(Apply(s, SweepRelease(h, ip))) && Has(s.view.tests, Key(ip, UDP_ALL))
  {
    var k := Key(ip, UDP_ALL);
    hide GiveBack, Serials, TcpMatch, UdpMatch, TcpListed, Known;
    ReleaseSerials(s.view, k, s.next);
    ReleaseUdp(s.view, s.next, s.udp, h, ip);
    UdpLeavesTcp(s.view, s.next, s.tcp, ip);
    ListedAfterGiveBack(s.view, k);
    KnownAfterGiveBack(s.view, k, s.lastAccess);
  }

  /** Marking an entry overdue changes no user. */
  lemma DueUdp(v: View<nat>, udp: seq<Cache>, h: nat, ip: string)
    requires UdpMatch(v, udp) && h < |udp| && ip in udp[h] && Live(udp[h][ip])
    ensures UdpMatch(v, Staged(udp, h, ip, Due))
  {
    var udp' := Staged(udp, h, ip, Due);
    forall jp
      ensures UdpCount(v, udp', jp)
    {
      assert UdpCount(v, udp, jp);
      assert UdpUsers(udp', jp) == UdpUsers(udp, jp);
    }
    forall g, jp | 0 <= g < |udp'| && jp in udp'[g] && Live(udp'[g][jp])
      ensures Holds(v, Key(jp, UDP_ALL), udp'[g][jp].test)
    {
      assert Live(udp[g][jp]) && udp'[g][jp].test == udp[g][jp].test;
      assert Holds(v, Key(jp, UDP_ALL), udp[g][jp].test);
    }
  }

  lemma StepKeeps(s: Server, e: Step)
    requires Inv(s) && Enabled(s, e)
    ensures Inv(Apply(s, e))
  {
    match e
    case Connect => ConnectTcp(s.view, s.tcp);
    case Lookup(i, ip) => LookupKeeps(s, i, ip);
    case Handshake(i, ok) => HandshakeTcp(s.view, s.tcp, i, Apply(s, e).tcp[i]);
    case HandlerExit(i) => ExitKeeps(s, i);
    case Packet(h, ip) => PacketKeeps(s, h, ip);
    case Count(h) =>
    case SweepCheck(h, ip) => DueUdp(s.view, s.udp, h, ip);
    case SweepRelease(h, ip) => SweepReleaseKeeps(s, h, ip);
    case SweepForget(h, ip) => ForgetUdp(s.view, s.udp, h, ip);
    case Wait(until) =>
  }

  ghost predicate LegalRun(s: Server, es: seq<Step>)
    decreases |es|
  {
    |es| == 0 || (Enabled(s, es[0]) && LegalRun(Apply(s, es[0]), es[1..]))
  }

  function Run(s: Server, es: seq<Step>): Server
    requires LegalRun(s, es)
    decreases |es|
  {
    if |es| == 0 then s else Run(Apply(s, es[0]), es[1..])
  }

  lemma {:induction false} RunKeeps(s: Server, es: seq<Step>)
    requires Inv(s) && LegalRun(s, es)
    ensures Inv(Run(s, es))
    decreases |es|
  {
    if |es| > 0 {
      StepKeeps(s, es[0]);
      RunKeeps(Apply(s, es[0]), es[1..]);
    }
  }

  /** In every interleaving the count of each registered test is the number of handlers, or of caches,
      that use it, and whoever uses a test uses the registered one. */
  lemma ReferencesAreExact(handlers: nat, now: int, es: seq<Step>, ip: string)
    requires LegalRun(Init(handlers, now), es)
    ensures var s := Run(Init(handlers, now), es);
            && (Has(s.view.tests, Key(ip, TCP_ALL)) <==> TcpUsers(s.tcp, ip) != {})
            && (Has(s.view.tests, Key(ip, UDP_ALL)) <==> UdpUsers(s.udp, ip) != {})
            && TcpCount(s.view, s.tcp, ip) && UdpCount(s.view, s.udp, ip)
            && (forall i :: i in TcpUsers(s.tcp, ip) ==> At(s.view.tests, Key(ip, TCP_ALL)) == s.tcp[i].test)
            && (forall h :: h in UdpUsers(s.udp, ip) ==> At(s.view.tests, Key(ip, UDP_ALL)) == s.udp[h][ip].test)
  {
    InitInv(handlers, now);
    RunKeeps(Init(handlers, now), es);
    var s := Run(Init(handlers, now), es);
    assert TcpCount(s.view, s.tcp, ip) && UdpCount(s.view, s.udp, ip);
    if !Has(s.view.tests, Key(ip, TCP_ALL)) {
      NoTcpUsers(s.view, s.tcp, ip);
    }
    if !Has(s.view.tests, Key(ip, UDP_ALL)) {
      NoUdpUsers(s.view, s.udp, ip);
    }
  }

  /** Every test a handler created is registered or has been deleted, and once no handler is active
      none is registered: each handler that took a reference gave it back exactly once. */
  lemma TcpTestsAccounted(handlers: nat, now: int, es: seq<Step>)
    requires LegalRun(Init(handlers, now), es)
    ensures var s := Run(Init(handlers, now), es);
            && s.created == s.deleted + |TcpListed(s.view.tests)|
            && ((forall i :: 0 <= i < |s.tcp| ==> !Active(s.tcp[i])) ==>
                  TcpListed(s.view.tests) == {} && s.created == s.deleted)
  {
    InitInv(handlers, now);
    RunKeeps(Init(handlers, now), es);
    var s := Run(Init(handlers, now), es);
    if forall i :: 0 <= i < |s.tcp| ==> !Active(s.tcp[i]) {
      forall ip ensures ip !in TcpListed(s.view.tests) {
        assert TcpCount(s.view, s.tcp, ip) && TcpUsers(s.tcp, ip) == {};
        assert !Has(s.view.tests, Key(ip, TCP_ALL));
      }
      assert TcpListed(s.view.tests) == {};
    }
  }

  /** Whether a packet looked up in time is still counted on the registered test: in every reachable state,
      a test of an address is the registered one exactly if some cache holds it unreleased. */
  lemma RegisteredIff(handlers: nat, now: int, es: seq<Step>, ip: string, t: nat)
    requires LegalRun(Init(handlers, now), es)
    ensures var s := Run(Init(handlers, now), es);
            Holds(s.view, Key(ip, UDP_ALL), t) <==> exists h :: h in UdpUsers(s.udp, ip) && s.udp[h][ip].test == t
  {
    ReferencesAreExact(handlers, now, es, ip);
    var s := Run(Init(handlers, now), es);
    if Holds(s.view, Key(ip, UDP_ALL), t) {
      var h :| h in UdpUsers(s.udp, ip);
    }
  }

  // ---------------------------------------------------------------- the 2 s after a handshake

  lemma {:induction false} TimePasses(s: Server, es: seq<Step>)
    requires LegalRun(s, es)
    ensures s.now <= Run(s, es).now
    decreases |es|
  {
    if |es| > 0 {
      TimePasses(Apply(s, es[0]), es[1..]);
    }
  }

  lemma LingersStep(s: Server, e: Step, i: nat)
    requires Enabled(s, e) && i < |s.tcp| && s.tcp[i].Lingering? && s.now < s.tcp[i].since + 2 * SECOND
    ensures i < |Apply(s, e).tcp| && Apply(s, e).tcp[i] == s.tcp[i]
  {
    hide Acquire, GiveBack;
  }

  lemma {:induction false} LingersOn(s: Server, es: seq<Step>, i: nat)
    requires LegalRun(s, es) && i < |s.tcp| && s.tcp[i].Lingering?
    requires Run(s, es).now < s.tcp[i].since + 2 * SECOND
    ensures i < |Run(s, es).tcp| && Run(s, es).tcp[i] == s.tcp[i]
    decreases |es|
  {
    hide Enabled, Apply;
    if |es| > 0 {
      TimePasses(s, es);
      LingersStep(s, es[0], i);
      LingersOn(Apply(s, es[0]), es[1..], i);
    }
  }

  /** A handler whose handshake has failed keeps its test registered for 2 s, whatever the others do, and
      may go then; one whose handshake has succeeded may go at any time. */
  lemma FailedHandshakeLingers(s: Server, i: nat, ok: bool, es: seq<Step>)
    requires Inv(s) && Enabled(s, Handshake(i, ok)) && LegalRun(Apply(s, Handshake(i, ok)), es)
    ensures var s1 := Apply(s, Handshake(i, ok)); var s2 := Run(s1, es);
            && (Enabled(s1, HandlerExit(i)) <==> ok)
            && (!ok ==> Enabled(Apply(s1, Wait(s.now + 2 * SECOND)), HandlerExit(i)))
            && (!ok && s2.now < s.now + 2 * SECOND ==>
                  !Enabled(s2, HandlerExit(i)) && Holds(s2.view, Key(s.tcp[i].ip, TCP_ALL), s.tcp[i].test))
  {
    var s1 := Apply(s, Handshake(i, ok));
    StepKeeps(s, Handshake(i, ok));
    RunKeeps(s1, es);
    if !ok && Run(s1, es).now < s.now + 2 * SECOND {
      LingersOn(s1, es, i);
    }
  }

  // ---------------------------------------------------------------- when a client was last heard

  /** Whether a step counts a packet on a test, or makes the test. */
  predicate Hears(s: Server, e: Step, t: nat) {
    match e
    case Count(h) => h < |s.pending| && s.pending[h].Found? && s.pending[h].test == t
    case Packet(h, ip) => t == s.next && h < |s.udp| && ip !in s.udp[h] && !Has(s.view.tests, Key(ip, UDP_ALL))
    case _ => false
  }

  /** The instant a test was last heard in a run, `since` if it was not. */
  ghost function HeardAt(s: Server, es: seq<Step>, t: nat, since: int): int
    requires LegalRun(s, es)
    decreases |es|
  {
    if |es| == 0 then since
    else HeardAt(Apply(s, es[0]), es[1..], t, if Hears(s, es[0], t) then s.now else since)
  }

  lemma StepHears(s: Server, e: Step, t: nat, since: int)
    requires Enabled(s, e) && (t in s.lastAccess ==> s.lastAccess[t] == since)
    ensures var s' := Apply(s, e);
            t in s'.lastAccess ==> s'.lastAccess[t] == if Hears(s, e, t) then s.now else since
  {
    hide Acquire, GiveBack;
  }

  lemma {:induction false} RunHears(s: Server, es: seq<Step>, t: nat, since: int)
    requires LegalRun(s, es) && (t in s.lastAccess ==> s.lastAccess[t] == since)
    ensures t in Run(s, es).lastAccess ==> Run(s, es).lastAccess[t] == HeardAt(s, es, t, since)
    decreases |es|
  {
    hide Enabled, Apply, Hears;
    if |es| > 0 {
      StepHears(s, es[0], t, since);
      RunHears(Apply(s, es[0]), es[1..], t, if Hears(s, es[0], t) then s.now else since);
    }
  }

  /** In every reachable state a collector may take a cache entry on exactly if it has not done so yet, and
      the entry's test was last heard more than 2 s ago. */
  lemma SweepExact(handlers: nat, now: int, es: seq<Step>, h: nat, ip: string)
    requires LegalRun(Init(handlers, now), es)
    ensures var s := Run(Init(handlers, now), es);
            Enabled(s, SweepCheck(h, ip)) <==>
              && h < |s.udp| && ip in s.udp[h] && s.udp[h][ip].stage.Fresh?
              && s.now - HeardAt(Init(handlers, now), es, s.udp[h][ip].test, now) > 2 * SECOND
  {
    InitInv(handlers, now);
    RunKeeps(Init(handlers, now), es);
    var s := Run(Init(handlers, now), es);
    if h < |s.udp| && ip in s.udp[h] && s.udp[h][ip].stage.Fresh? {
      assert Holds(s.view, Key(ip, UDP_ALL), s.udp[h][ip].test);
      RunHears(Init(handlers, now), es, s.udp[h][ip].test, now);
    }
  }

  /** A packet that waits is to be counted on the test its handler has cached, if it still has. */
  ghost predicate Aimed(s: Server) {
    forall h, ip, t :: 0 <= h < |s.pending| && h < |s.udp| && s.pending[h] == Found(ip, t) && ip in s.udp[h] ==>
      s.udp[h][ip].test == t
  }

  lemma StepAims(s: Server, e: Step)
    requires Inv(s) && Enabled(s, e) && Aimed(s)
    ensures Aimed(Apply(s, e))
  {
    hide Acquire, GiveBack, Serials, TcpMatch, UdpMatch, Counters, Accesses;
  }

  lemma {:induction false} RunAims(s: Server, es: seq<Step>)
    requires Inv(s) && LegalRun(s, es) && Aimed(s)
    ensures Aimed(Run(s, es))
    decreases |es|
  {
    hide Inv, Enabled, Apply, Aimed;
    if |es| > 0 {
      StepKeeps(s, es[0]);
      StepAims(s, es[0]);
      RunAims(Apply(s, es[0]), es[1..]);
    }
  }

  /** Whether a handler counts a packet from an address. */
  predicate CountsFrom(s: Server, e: Step, h: nat, ip: string) {
    e == Count(h) && h < |s.pending| && s.pending[h].Found? && s.pending[h].ip == ip
  }

  /** A handler counts a packet from the address at least every 2 s, to the end of the run. */
  ghost predicate KeepsSending(s: Server, es: seq<Step>, h: nat, ip: string, since: int)
    requires LegalRun(s, es)
    decreases |es|
  {
    && s.now - since <= 2 * SECOND
    && (|es| > 0 ==>
          KeepsSending(Apply(s, es[0]), es[1..], h, ip, if CountsFrom(s, es[0], h, ip) then s.now else since))
  }

  /** A handler has the address in its cache, not overdue, and has heard it no longer ago than `since`. */
  ghost predicate Cached(s: Server, h: nat, ip: string, t: nat, since: int) {
    && h < |s.udp| && ip in s.udp[h] && s.udp[h][ip] == Entry(t, Fresh)
    && t in s.lastAccess && since <= s.lastAccess[t]
  }

  lemma StepCached(s: Server, e: Step, h: nat, ip: string, t: nat, since: int)
    requires Inv(s) && Aimed(s) && Enabled(s, e) && Cached(s, h, ip, t, since) && s.now - since <= 2 * SECOND
    ensures Cached(Apply(s, e), h, ip, t, if CountsFrom(s, e, h, ip) then s.now else since)
  {
    hide Acquire, GiveBack, Serials, TcpMatch, UdpMatch, Counters, Known;
  }

  lemma {:induction false} StaysCached(s: Server, es: seq<Step>, h: nat, ip: string, t: nat, since: int)
    requires Inv(s) && Aimed(s) && LegalRun(s, es) && Cached(s, h, ip, t, since)
    requires KeepsSending(s, es, h, ip, since)
    ensures var s' := Run(s, es);
            h < |s'.udp| && ip in s'.udp[h] && s'.udp[h][ip] == Entry(t, Fresh) && Holds(s'.view, Key(ip, UDP_ALL), t)
    decreases |es|
  {
    if |es| == 0 {
      assert Live(s.udp[h][ip]);
    } else {
      hide Inv, Enabled, Apply, Aimed, Cached, CountsFrom;
      StepCached(s, es[0], h, ip, t, since);
      StepKeeps(s, es[0]);
      StepAims(s, es[0]);
      StaysCached(Apply(s, es[0]), es[1..], h, ip, t, if CountsFrom(s, es[0], h, ip) then s.now else since);
    }
  }

  /** A client that is heard at least every 2 s is never swept: after any run, as long as its handler goes on
      counting its packets its entry stays, and its test stays registered. */
  lemma NeverSwept(handlers: nat, now: int, es: seq<Step>, fs: seq<Step>, h: nat, ip: string, t: nat)
    requires LegalRun(Init(handlers, now), es) && LegalRun(Run(Init(handlers, now), es), fs)
    requires var s := Run(Init(handlers, now), es);
             && h < |s.udp| && ip in s.udp[h] && s.udp[h][ip] == Entry(t, Fresh)
             && KeepsSending(s, fs, h, ip, HeardAt(Init(handlers, now), es, t, now))
    ensures var s' := Run(Run(Init(handlers, now), es), fs);
            h < |s'.udp| && ip in s'.udp[h] && s'.udp[h][ip] == Entry(t, Fresh) && Holds(s'.view, Key(ip, UDP_ALL), t)
  {
    var s := Run(Init(handlers, now), es);
    InitInv(handlers, now);
    RunKeeps(Init(handlers, now), es);
    RunAims(Init(handlers, now), es);
    RunHears(Init(handlers, now), es, t, now);
    assert Holds(s.view, Key(ip, UDP_ALL), t) by {
      assert Live(s.udp[h][ip]);
    }
    StaysCached(s, fs, h, ip, t, HeardAt(Init(handlers, now), es, t, now));
  }

  // ---------------------------------------------------------------- where the packets of an address went

  function Entered(udp: seq<Cache>, ip: string): set<nat> {
    set h: nat | h < |udp| && ip in udp[h]
  }

  function WaitingOn(pending: seq<Pending>, ip: string): set<nat> {
    set h: nat | h < |pending| && pending[h].Found? && pending[h].ip == ip
  }

  /** Packets received from an address, and its cache entries dropped. */
  function Packets(es: seq<Step>, ip: string): nat {
    if |es| == 0 then 0 else Packets(es[1..], ip) + if es[0].Packet? && es[0].ip == ip then 1 else 0
  }

  function Forgets(es: seq<Step>, ip: string): nat {
    if |es| == 0 then 0 else Forgets(es[1..], ip) + if es[0].SweepForget? && es[0].ip == ip then 1 else 0
  }

  /** Packets counted, waiting to be counted, or spent on an entry that is still there. */
  function Accounted(s: Server, ip: string): nat {
    s.counted[ip] + |WaitingOn(s.pending, ip)| + |Entered(s.udp, ip)|
  }

  lemma EnteredChange(udp: seq<Cache>, h: nat, c: Cache, ip: string)
    requires h < |udp|
    ensures Entered(udp[h := c], ip) == if ip in c then Entered(udp, ip) + {h} else Entered(udp, ip) - {h}
    ensures h in Entered(udp, ip) <==> ip in udp[h]
  {
  }

  lemma WaitingChange(pending: seq<Pending>, h: nat, p: Pending, ip: string)
    requires h < |pending|
    ensures WaitingOn(pending[h := p], ip)
         == if p.Found? && p.ip == ip then WaitingOn(pending, ip) + {h} else WaitingOn(pending, ip) - {h}
    ensures h in WaitingOn(pending, ip) <==> pending[h].Found? && pending[h].ip == ip
  {
  }

  predicate IsSweep(e: Step) {
    e.SweepCheck? || e.SweepRelease? || e.SweepForget?
  }

  lemma PacketAccounts(s: Server, h: nat, jp: string, ip: string)
    requires Enabled(s, Packet(h, jp))
    ensures Accounted(Apply(s, Packet(h, jp)), ip) == Accounted(s, ip) + if jp == ip then 1 else 0
  {
    hide Entered, WaitingOn, Acquire;
    var s' := Apply(s, Packet(h, jp));
    if jp in s.udp[h] {
      WaitingChange(s.pending, h, s'.pending[h], ip);
    } else {
      EnteredChange(s.udp, h, s'.udp[h], ip);
    }
  }

  lemma SweepAccounts(s: Server, e: Step, ip: string)
    requires Enabled(s, e) && IsSweep(e)
    ensures Accounted(s, ip) == Accounted(Apply(s, e), ip) + if e.SweepForget? && e.ip == ip then 1 else 0
  {
    hide Entered, WaitingOn, GiveBack;
    EnteredChange(s.udp, e.h, Apply(s, e).udp[e.h], ip);
  }

  lemma StepAccounts(s: Server, e: Step, ip: string)
    requires Enabled(s, e)
    ensures Accounted(s, ip) + (if e.Packet? && e.ip == ip then 1 else 0)
         == Accounted(Apply(s, e), ip) + (if e.SweepForget? && e.ip == ip then 1 else 0)
  {
    hide Entered, WaitingOn, Acquire, GiveBack;
    if e.Packet? {
      PacketAccounts(s, e.h, e.ip, ip);
    } else if e.Count? {
      WaitingChange(s.pending, e.h, NoPacket, ip);
    } else if IsSweep(e) {
      SweepAccounts(s, e, ip);
    }
  }

  lemma {:induction false} RunAccounts(s: Server, es: seq<Step>, ip: string)
    requires LegalRun(s, es)
    ensures Accounted(s, ip) + Packets(es, ip) == Accounted(Run(s, es), ip) + Forgets(es, ip)
    decreases |es|
  {
    if |es| > 0 {
      StepAccounts(s, es[0], ip);
      RunAccounts(Apply(s, es[0]), es[1..], ip);
    }
  }

  /** In every interleaving, each packet of an address has been counted, is waiting to be, or made a cache
      entry, which is still there or has been dropped. */
  lemma PacketsAccounted(handlers: nat, now: int, es: seq<Step>, ip: string)
    requires LegalRun(Init(handlers, now), es)
    ensures var s := Run(Init(handlers, now), es);
            Packets(es, ip) == s.counted[ip] + |WaitingOn(s.pending, ip)| + |Entered(s.udp, ip)| + Forgets(es, ip)
  {
    RunAccounts(Init(handlers, now), es, ip);
    var s := Init(handlers, now);
    assert Entered(s.udp, ip) == {} && WaitingOn(s.pending, ip) == {};
  }

  // ---------------------------------------------------------------- silence

  /** No client has been heard for more than 2 s, and no packet is waiting to be counted. */
  ghost predicate AllSilent(s: Server) {
    && (forall t :: t in s.lastAccess ==> Silent(s, t))
    && (forall h :: 0 <= h < |s.pending| ==> s.pending[h].NoPacket?)
  }

  function Unreleased(c: Cache): set<string> {
    set ip | ip in c && Live(c[ip])
  }

  function Unchecked(c: Cache): set<string> {
    set ip | ip in c && c[ip].stage.Fresh?
  }

  /** The sweep steps a collector still has to take on its cache. */
  function CacheWork(c: Cache): nat {
    |c.Keys| + |Unreleased(c)| + |Unchecked(c)|
  }

  function Work(udp: seq<Cache>): nat {
    if |udp| == 0 then 0 else CacheWork(udp[0]) + Work(udp[1..])
  }

  lemma {:induction false} WorkUpdate(udp: seq<Cache>, h: nat, c: Cache)
    requires h < |udp|
    ensures Work(udp[h := c]) == Work(udp) - CacheWork(udp[h]) + CacheWork(c)
  {
    if h == 0 {
      assert udp[h := c][1..] == udp[1..];
    } else {
      WorkUpdate(udp[1..], h - 1, c);
      assert udp[h := c][1..] == udp[1..][h - 1 := c];
    }
  }

  lemma {:induction false} WorkZero(udp: seq<Cache>)
    requires forall h :: 0 <= h < |udp| ==> udp[h] == map[]
    ensures Work(udp) == 0
  {
    if |udp| > 0 {
      WorkZero(udp[1..]);
    }
  }

  lemma CheckWork(udp: seq<Cache>, h: nat, ip: string)
    requires h < |udp| && ip in udp[h] && udp[h][ip].stage.Fresh?
    ensures Work(Staged(udp, h, ip, Due)) == Work(udp) - 1
  {
    var c := Staged(udp, h, ip, Due)[h];
    assert c.Keys == udp[h].Keys && Unreleased(c) == Unreleased(udp[h]);
    assert Unchecked(c) == Unchecked(udp[h]) - {ip} && ip in Unchecked(udp[h]);
    hide Unreleased, Unchecked, Work;
    WorkUpdate(udp, h, c);
  }

  lemma ReleaseWork(udp: seq<Cache>, h: nat, ip: string)
    requires h < |udp| && ip in udp[h] && udp[h][ip].stage.Due?
    ensures Work(Staged(udp, h, ip, Released)) == Work(udp) - 1
  {
    var c := Staged(udp, h, ip, Released)[h];
    assert c.Keys == udp[h].Keys && Unchecked(c) == Unchecked(udp[h]);
    assert Unreleased(c) == Unreleased(udp[h]) - {ip} && ip in Unreleased(udp[h]);
    hide Unreleased, Unchecked, Work;
    WorkUpdate(udp, h, c);
  }

  lemma ForgetWork(udp: seq<Cache>, h: nat, ip: string)
    requires h < |udp| && ip in udp[h] && udp[h][ip].stage.Released?
    ensures Work(udp[h := udp[h] - {ip}]) == Work(udp) - 1
  {
    var c := udp[h] - {ip};
    assert c.Keys == udp[h].Keys - {ip} && Unreleased(c) == Unreleased(udp[h]) && Unchecked(c) == Unchecked(udp[h]);
    hide Unreleased, Unchecked, Work;
    WorkUpdate(udp, h, c);
  }

  /** While no packet comes in, silence lasts and every sweep step leaves one less to do. */
  lemma QuietStep(s: Server, e: Step)
    requires AllSilent(s) && Enabled(s, e) && !e.Packet?
    ensures AllSilent(Apply(s, e))
    ensures Work(Apply(s, e).udp) == Work(s.udp) - (if IsSweep(e) then 1 else 0)
  {
    match e
    case SweepCheck(h, ip) => CheckWork(s.udp, h, ip);
    case SweepRelease(h, ip) => ReleaseWork(s.udp, h, ip);
    case SweepForget(h, ip) => ForgetWork(s.udp, h, ip);
    case _ =>
  }

  function Sweeps(es: seq<Step>): nat {
    if |es| == 0 then 0 else Sweeps(es[1..]) + (if IsSweep(es[0]) then 1 else 0)
  }

  lemma {:induction false} QuietRun(s: Server, es: seq<Step>)
    requires Inv(s) && AllSilent(s) && LegalRun(s, es)
    requires forall e :: e in es ==> !e.Packet?
    ensures Inv(Run(s, es)) && AllSilent(Run(s, es))
    ensures Work(Run(s, es).udp) == Work(s.udp) - Sweeps(es)
    decreases |es|
  {
    if |es| > 0 {
      QuietStep(s, es[0]);
      StepKeeps(s, es[0]);
      QuietRun(Apply(s, es[0]), es[1..]);
    }
  }

  lemma NothingLeft(s: Server)
    requires Inv(s) && AllSilent(s)
    requires forall e :: IsSweep(e) ==> !Enabled(s, e)
    ensures forall h :: 0 <= h < |s.udp| ==> s.udp[h] == map[]
    ensures Work(s.udp) == 0
    ensures forall ip :: !Has(s.view.tests, Key(ip, UDP_ALL))
  {
    forall h: nat, ip | h < |s.udp|
      ensures ip !in s.udp[h]
    {
      assert ip in s.udp[h] && Live(s.udp[h][ip]) ==> Holds(s.view, Key(ip, UDP_ALL), s.udp[h][ip].test);
      assert !Enabled(s, SweepForget(h, ip)) && !Enabled(s, SweepRelease(h, ip)) && !Enabled(s, SweepCheck(h, ip));
    }
    forall h | 0 <= h < |s.udp| ensures s.udp[h] == map[] {
      assert s.udp[h].Keys == {};
    }
    WorkZero(s.udp);
    forall ip ensures !Has(s.view.tests, Key(ip, UDP_ALL)) {
      assert UdpCount(s.view, s.udp, ip);
      assert UdpUsers(s.udp, ip) == {};
    }
  }

  /** Once all clients have been silent for more than 2 s and stay so, the collectors take a fixed
      number of steps, in any order and among any TCP activity; when none is left to take every cache
      is empty and no UDP test is registered. */
  lemma SilenceEmptiesUdp(s: Server, es: seq<Step>)
    requires Inv(s) && AllSilent(s) && LegalRun(s, es)
    requires forall e :: e in es ==> !e.Packet?
    ensures var s' := Run(s, es);
            && Sweeps(es) <= Work(s.udp)
            && ((forall e :: IsSweep(e) ==> !Enabled(s', e)) ==>
                  && Sweeps(es) == Work(s.udp)
                  && (forall h :: 0 <= h < |s'.udp| ==> s'.udp[h] == map[])
                  && (forall ip :: !Has(s'.view.tests, Key(ip, UDP_ALL))))
  {
    QuietRun(s, es);
    var s' := Run(s, es);
    if forall e :: IsSweep(e) ==> !Enabled(s', e) {
      NothingLeft(s');
    }
  }

  /** A server with one packet handler that has heard one client once, at instant 0. */
  ghost predicate HeardOnce(s: Server, ip: string) {
    && s.udp == [map[ip := Entry(0, Fresh)]] && s.pending == [NoPacket] && s.now == 0 && s.lastAccess == map[0 := 0]
    && Holds(s.view, Key(ip, UDP_ALL), 0) && s.view.holders == multiset{0} && s.counted == multiset{}
  }

  lemma FirstPacket(ip: string)
    ensures HeardOnce(Apply(Init(1, 0), Packet(0, ip)), ip)
  {
    hide Acquire;
    AcquireEffect(Init(1, 0).view, Key(ip, UDP_ALL), 0);
  }

  lemma OnlyReference(v: View<nat>, k: Key)
    requires Holds(v, k, 0) && v.holders == multiset{0}
    ensures !Has(GiveBack(v, k).tests, k)
  {
    ReleaseEffect(v, k);
    hide Release;
  }

  /** Between its release and its removal a cache entry can name a deleted test: a packet looked up just
      then is counted on a test the registry no longer lists. */
  lemma StaleEntryWindow(ip: string)
    ensures var s1 := Apply(Init(1, 0), Packet(0, ip));
            var s2 := Apply(s1, Wait(2 * SECOND + 1));
            && Enabled(s2, SweepCheck(0, ip))
            && var s3 := Apply(s2, SweepCheck(0, ip));
            && Enabled(s3, SweepRelease(0, ip))
            && var s4 := Apply(s3, SweepRelease(0, ip));
            && Enabled(s4, Packet(0, ip))
            && var s5 := Apply(s4, Packet(0, ip));
            && Enabled(s5, Count(0)) && s5.pending == [Found(ip, 0)]
            && Apply(s5, Count(0)).counted == multiset{ip} && !Has(s5.view.tests, Key(ip, UDP_ALL))
  {
    hide Acquire, GiveBack;
    FirstPacket(ip);
    var s1 := Apply(Init(1, 0), Packet(0, ip));
    OnlyReference(s1.view, Key(ip, UDP_ALL));
    hide Holds, Init;
  }

  // ---------------------------------------------------------------- the registry's own tests

  function Returned<T>(v: View<T>, k: Key): View<T> {
    if Has(v.tests, k) then Release(v, k) else v
  }

  /** The registry after the call a step makes of it, if any: `t` is the test registered if the call finds
      none. Under other names than serial numbers, this is what the methods of the registry do. */
  function Called<T>(v: View<T>, s: Server, e: Step, t: T): View<T>
    requires Enabled(s, e)
  {
    match e
    case Lookup(_, ip) => Acquire(v, Key(ip, TCP_ALL), t)
    case HandlerExit(i) => Returned(v, Key(s.tcp[i].ip, TCP_ALL))
    case Packet(h, ip) => if ip in s.udp[h] then v else Acquire(v, Key(ip, UDP_ALL), t)
    case SweepRelease(_, ip) => Returned(v, Key(ip, UDP_ALL))
    case _ => v
  }

  function CalledAll<T>(v: View<T>, s: Server, es: seq<Step>, ts: seq<T>): View<T>
    requires LegalRun(s, es) && |ts| == |es|
    decreases |es|
  {
    if |es| == 0 then v else CalledAll(Called(v, s, es[0], ts[0]), Apply(s, es[0]), es[1..], ts[1..])
  }

  /** Serial numbers name the registry's tests, and none beyond those given out. */
  ghost predicate Simulates<T>(v: View<T>, s: Server, name: map<T, nat>) {
    Named(v, s.view, name) && forall u :: u in name.Values ==> u < s.next
  }

  lemma TakingSimulates<T>(v: View<T>, w: View<nat>, next: nat, name: map<T, nat>, k: Key, t: T)
    requires Named(v, w, name) && Serials(w, next) && t !in name && forall u :: u in name.Values ==> u < next
    ensures var name' := if Has(v.tests, k) then name else name[t := next];
            && Named(Acquire(v, k, t), Acquire(w, k, next), name')
            && name'.Keys <= name.Keys + {t} && forall u :: u in name'.Values ==> u < next + 1
  {
    AcquireNamed(v, w, name, k, t, next);
    hide Acquire, Named;
    var name' := if Has(v.tests, k) then name else name[t := next];
    forall u | u in name'.Values
      ensures u < next + 1
    {
      assert u == next || u in name.Values;
    }
  }

  lemma ReturningSimulates<T>(v: View<T>, w: View<nat>, name: map<T, nat>, k: Key)
    requires Named(v, w, name)
    ensures Named(Returned(v, k), GiveBack(w, k), name)
  {
    assert SameAt(v.tests, w.tests, k, name);
    hide Named, SameAt, Release;
    if Has(v.tests, k) {
      ReleaseNamed(v, w, name, k);
    }
  }

  /** Each step makes the same of both. */
  lemma StepSimulates<T>(v: View<T>, s: Server, name: map<T, nat>, e: Step, t: T) returns (name': map<T, nat>)
    requires Inv(s) && Enabled(s, e) && Simulates(v, s, name) && t !in name
    ensures Simulates(Called(v, s, e, t), Apply(s, e), name') && name'.Keys <= name.Keys + {t}
  {
    hide Named, Acquire, GiveBack, Returned, Serials;
    name' := name;
    match e
    case Lookup(_, ip) =>
      var k := Key(ip, TCP_ALL);
      TakingSimulates(v, s.view, s.next, name, k, t);
      name' := if Has(v.tests, k) then name else name[t := s.next];
    case HandlerExit(i) => ReturningSimulates(v, s.view, name, Key(s.tcp[i].ip, TCP_ALL));
    case Packet(h, ip) =>
      if ip !in s.udp[h] {
        var k := Key(ip, UDP_ALL);
        TakingSimulates(v, s.view, s.next, name, k, t);
        name' := if Has(v.tests, k) then name else name[t := s.next];
      }
    case SweepRelease(_, ip) => ReturningSimulates(v, s.view, name, Key(ip, UDP_ALL));
    case _ =>
  }

  /** What holds of every interleaving over serial numbers holds of the registry over whatever its tests are:
      after any run, given any new tests to register, both mean the same under some naming. */
  lemma {:induction false} RunSimulates<T>(v: View<T>, s: Server, name: map<T, nat>, es: seq<Step>, ts: seq<T>)
      returns (name': map<T, nat>)
    requires Inv(s) && LegalRun(s, es) && |ts| == |es| && Simulates(v, s, name)
    requires forall i :: 0 <= i < |ts| ==> ts[i] !in name && ts[i] !in ts[..i]
    ensures Simulates(CalledAll(v, s, es, ts), Run(s, es), name')
    decreases |es|
  {
    hide Inv, Enabled, Apply, Simulates, Called;
    name' := name;
    if |es| > 0 {
      var next := StepSimulates(v, s, name, es[0], ts[0]);
      StepKeeps(s, es[0]);
      forall i | 0 <= i < |ts[1..]|
        ensures ts[1..][i] !in next && ts[1..][i] !in ts[1..][..i]
      {
        assert ts[..i + 1] == [ts[0]] + ts[1..][..i];
      }
      name' := RunSimulates(Called(v, s, es[0], ts[0]), Apply(s, es[0]), next, es[1..], ts[1..]);
    }
  }
}
