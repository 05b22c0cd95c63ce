/** The server's registry of sessions and tests with its reference counts (session.go). Every method
    that takes the session lock is one atomic step. */
module Sessions {
  import opened Wire
  import opened References

  /** The counters and flags of a test that the statistics code reads and writes, and which test
      they belong to. */
  class TestStats {
    const key: Key
    var bw: nat
    var cps: nat
    var pps: nat
    var latency: nat
    var isActive: bool
    var isDormant: bool
    var started: bool      // false once the start time has been cleared to its zero value
    var startTime: int
    var lastAccess: int

    constructor (key: Key, now: int)
      ensures this.key == key
      ensures bw == cps == pps == latency == 0 && !isActive && isDormant
      ensures !started && lastAccess == now
    {
      this.key := key;
      bw, cps, pps, latency := 0, 0, 0, 0;
      isActive, isDormant, started := false, true, false;
      startTime, lastAccess := 0, now;
    }
  }

  /** A test's counters and flags as they are when it is made. */
  predicate Blank(stats: TestStats, now: int)
    reads stats
  {
    && stats.bw == stats.cps == stats.pps == stats.latency == 0 && stats.isDormant && stats.lastAccess == now
  }

  class EthrSession {
    const remoteIP: string
    var testCount: nat
    var tests: map<TestID, EthrTest>

    constructor (remoteIP: string)
      ensures this.remoteIP == remoteIP && testCount == 0 && tests == map[]
    {
      this.remoteIP := remoteIP;
      testCount, tests := 0, map[];
    }
  }

  class EthrTest {
    const session: EthrSession
    const testID: TestID
    const stats: TestStats
    var refCount: int

    constructor (session: EthrSession, testID: TestID, stats: TestStats)
      ensures this.session == session && this.testID == testID && this.stats == stats && refCount == 0
    {
      this.session, this.testID, this.stats := session, testID, stats;
      refCount := 0;
    }
  }

  function KeyOf(t: EthrTest): Key {
    Key(t.session.remoteIP, t.testID)
  }

  /** The value an int32 counter shows after `n` increments. */
  function AsInt32(n: int): int {
    var r := n % 0x1_0000_0000;
    if r < 0x8000_0000 then r else r - 0x1_0000_0000
  }

  /** It is the one number of 32 bits that differs from `n` by a multiple of 2^32. */
  lemma AsInt32Is(n: int)
    ensures -0x8000_0000 <= AsInt32(n) < 0x8000_0000 && (n - AsInt32(n)) % 0x1_0000_0000 == 0
  {
  }

  /** atomic.AddInt32 */
  function AddInt32(x: int, d: int): int {
    AsInt32(x + d)
  }

  /** A wrapped counter keeps counting: adding wraps once more, and nothing else happens. */
  lemma AddInt32Wraps(n: int, d: int)
    ensures AddInt32(AsInt32(n), d) == AsInt32(n + d)
  {
  }

  /** The wrapped counter is zero at the multiples of 2^32. */
  lemma AsInt32Zero(n: nat)
    ensures AsInt32(n) == 0 <==> n % 0x1_0000_0000 == 0
  {
  }

  // ---------------------------------------------------------------- the key slice

  ghost predicate NoDuplicates(s: seq<string>) {
    forall i, j :: 0 <= i < j < |s| ==> s[i] != s[j]
  }

  /** The other keys, in their order. */
  function Without(s: seq<string>, key: string): seq<string> {
    if |s| == 0 then []
    else if s[|s| - 1] == key then Without(s[..|s| - 1], key)
    else Without(s[..|s| - 1], key) + [s[|s| - 1]]
  }

  lemma {:induction false} WithoutMembers(s: seq<string>, key: string, x: string)
    ensures x in Without(s, key) <==> x in s && x != key
    ensures |Without(s, key)| <= |s|
  {
    if |s| > 0 {
      var init, last := s[..|s| - 1], s[|s| - 1];
      WithoutMembers(init, key, x);
      assert s == init + [last];
    }
  }

  lemma {:induction false} WithoutDistinct(s: seq<string>, key: string)
    requires NoDuplicates(s)
    ensures NoDuplicates(Without(s, key))
  {
    if |s| > 0 {
      var init, last := s[..|s| - 1], s[|s| - 1];
      WithoutDistinct(init, key);
      WithoutMembers(init, key, last);
      assert last !in init;
    }
  }

  lemma WithoutContents(s: seq<string>, key: string)
    ensures forall x :: x in Without(s, key) <==> x in s && x != key
    ensures NoDuplicates(s) ==> NoDuplicates(Without(s, key))
  {
    hide Without, NoDuplicates;
    forall x
      ensures x in Without(s, key) <==> x in s && x != key
    {
      WithoutMembers(s, key, x);
    }
    if NoDuplicates(s) {
      WithoutDistinct(s, key);
    }
  }

  /** Compacts the slice's backing array while scanning it. */
  method DeleteKey(keys: array<string>, n: nat, key: string) returns (kept: nat)
    requires n <= keys.Length
    modifies keys
    ensures kept <= n && keys[..kept] == Without(old(keys[..n]), key)
  {
    ghost var all := keys[..n];
    kept := 0;
    var j := 0;
    while j < n
      invariant 0 <= kept <= j <= n
      invariant keys[..kept] == Without(all[..j], key)
      invariant forall k :: j <= k < n ==> keys[k] == all[k]
    {
      var x := keys[j];
      assert all[..j + 1][..j] == all[..j];
      if x != key {
        keys[kept] := x;
        kept := kept + 1;
      }
      j := j + 1;
    }
    assert all[..n] == all;
  }

  // ---------------------------------------------------------------- the registry

  class Registry {
    var sessions: map<string, EthrSession>
    var keys: array<string>
    var nKeys: nat

    // The objects in use, and the registry's meaning.
    ghost var liveSessions: set<EthrSession>
    ghost var liveTests: set<EthrTest>
    ghost var listed: Directory<EthrTest>
    ghost var holders: multiset<EthrTest>

    ghost function Shown(): View<EthrTest>
      reads this`listed, this`holders
    {
      View(listed, holders)
    }

    /** The key slice lists every registered address once. */
    ghost predicate KeysMatch()
      reads this`keys, this`nKeys, this`listed, keys
    {
      && nKeys <= keys.Length
      && NoDuplicates(keys[..nKeys])
      && (forall ip :: ip in keys[..nKeys] <==> ip in listed)
    }

    /** Every registered session lists and counts its tests. */
    ghost predicate SessionsMatch()
      reads this`sessions, this`liveSessions, this`listed, liveSessions
    {
      && sessions.Keys == listed.Keys
      && (forall ip :: ip in sessions ==>
            && sessions[ip] in liveSessions && sessions[ip].remoteIP == ip
            && sessions[ip].tests == listed[ip] && sessions[ip].testCount == |listed[ip]|)
    }

    /** Every registered test is live and knows its session and its identifier. */
    ghost predicate TestsMatch()
      reads this`sessions, this`liveTests, this`listed
    {
      forall ip, id :: ip in listed && id in listed[ip] ==>
        && ip in sessions && listed[ip][id].session == sessions[ip]
        && listed[ip][id].testID == id && listed[ip][id].stats.key == Key(ip, id)
        && listed[ip][id] in liveTests
    }

    /** Every live test is registered where it says it is. */
    ghost predicate LiveMatch()
      reads this`liveTests, this`listed
    {
      forall t :: t in liveTests ==> Has(listed, KeyOf(t)) && At(listed, KeyOf(t)) == t
    }

    /** A live test's count is the number of its holders, only live tests are held, and every live
        test is held, save a `newcomer` nobody has taken a reference on yet. */
    ghost predicate CountsMatch(newcomer: EthrTest?)
      reads this`holders, this`liveTests, liveTests
    {
      && (forall t :: t in liveTests ==>
            t.refCount == AsInt32(holders[t]) && (t != newcomer ==> holders[t] > 0))
      && (forall t :: t in holders ==> t in liveTests)
    }

    ghost predicate Linked()
      reads this, keys, liveSessions
    {
      KeysMatch() && SessionsMatch() && TestsMatch() && LiveMatch()
    }

    ghost predicate Shape()
      reads this, keys, liveSessions
    {
      Linked() && NoneEmpty(listed)
    }

    ghost predicate Valid()
      reads this, keys, liveSessions, liveTests
    {
      Shape() && CountsMatch(null)
    }

    constructor ()
      ensures Valid() && fresh(keys)
      ensures Shown() == View(map[], multiset{}) && liveSessions == {} && liveTests == {}
    {
      sessions, nKeys := map[], 0;
      keys := new string[0];
      liveSessions, liveTests, listed, holders := {}, {}, map[], multiset{};
    }

    /** append: in place while the backing array has room, in a larger copy otherwise. */
    method AppendKey(ip: string)
      requires nKeys <= keys.Length
      modifies this`keys, this`nKeys, keys
      ensures nKeys == old(nKeys) + 1 <= keys.Length
      ensures keys[..nKeys] == old(keys[..nKeys]) + [ip]
      ensures keys == old(keys) || fresh(keys)
    {
      if nKeys == keys.Length {
        var bigger := new string[2 * nKeys + 1];
        var i := 0;
        while i < nKeys
          invariant 0 <= i <= nKeys == keys.Length && bigger.Length == 2 * nKeys + 1
          invariant nKeys == old(nKeys) && keys == old(keys) && keys[..] == old(keys[..])
          invariant bigger[..i] == keys[..i]
        {
          bigger[i] := keys[i];
          i := i + 1;
        }
        keys := bigger;
      }
      keys[nKeys] := ip;
      nKeys := nKeys + 1;
    }

    /** The registered test, or null. */
    method GetTestInternal(ip: string, id: TestID) returns (t: EthrTest?)
      requires Shape()
      ensures t == (if Has(listed, Key(ip, id)) then At(listed, Key(ip, id)) else null)
      ensures t != null ==> KeyOf(t) == Key(ip, id) && t in liveTests
    {
      if ip !in sessions {
        return null;
      }
      var session := sessions[ip];
      t := if id in session.tests then session.tests[id] else null;
    }

    // How the four ways of changing the registry keep its parts. `Others` are left alone in each.

    twostate predicate Others(session: EthrSession)
      reads this, liveSessions
    {
      && old(liveSessions) <= liveSessions
      && forall s :: s in old(liveSessions) && s != session ==>
           s.tests == old(s.tests) && s.testCount == old(s.testCount)
    }

    /** An address and its session, without tests so far, have been added. */
    twostate predicate Created(new session: EthrSession)
      reads this, liveSessions, session
    {
      && session.remoteIP !in old(sessions) && sessions == old(sessions)[session.remoteIP := session]
      && liveSessions == old(liveSessions) + {session} && liveTests == old(liveTests)
      && listed == old(listed)[session.remoteIP := map[]]
      && session.tests == map[] && session.testCount == 0
      && (forall s :: s in old(liveSessions) ==> s.tests == old(s.tests) && s.testCount == old(s.testCount))
    }

    twostate lemma CreatedSessions(new session: EthrSession)
      requires old(SessionsMatch()) && Created(session)
      ensures SessionsMatch()
    {
    }

    twostate lemma CreatedTests(new session: EthrSession)
      requires old(TestsMatch()) && Created(session)
      ensures TestsMatch()
    {
    }

    twostate lemma CreatedLive(new session: EthrSession)
      requires old(LiveMatch() && SessionsMatch()) && Created(session)
      ensures LiveMatch()
    {
    }

    twostate lemma CreatedKeeps(new session: EthrSession)
      requires old(SessionsMatch() && TestsMatch() && LiveMatch()) && Created(session)
      ensures SessionsMatch() && TestsMatch() && LiveMatch()
    {
      CreatedSessions(session);
      CreatedTests(session);
      CreatedLive(session);
    }

    /** The tests of a registered session have become `m`. */
    twostate predicate Relisted(session: EthrSession, new m: map<TestID, EthrTest>)
      reads this, liveSessions, session
    {
      && session in liveSessions && session.remoteIP in sessions && sessions[session.remoteIP] == session
      && sessions == old(sessions) && liveSessions == old(liveSessions)
      && listed == old(listed)[session.remoteIP := m]
      && session.tests == m && session.testCount == |m|
      && Others(session)
    }

    /** Those listed are live tests of that session. */
    ghost predicate Owned(session: EthrSession, m: map<TestID, EthrTest>)
      reads this`liveTests
    {
      forall id :: id in m ==>
        && m[id].session == session && m[id].testID == id && m[id] in liveTests
        && m[id].stats.key == Key(session.remoteIP, id)
    }

    /** All its live tests are listed. */
    ghost predicate Whole(session: EthrSession, m: map<TestID, EthrTest>)
      reads this`liveTests
    {
      forall t :: t in liveTests && t.session == session ==> t.testID in m && m[t.testID] == t
    }

    /** The live tests of others are as before. */
    twostate predicate OthersLive(session: EthrSession)
      reads this`liveTests
    {
      && (forall t :: t in liveTests && t.session != session ==> t in old(liveTests))
      && (forall t :: t in old(liveTests) && t.session != session ==> t in liveTests)
    }

    twostate lemma RelistedSessions(session: EthrSession, new m: map<TestID, EthrTest>)
      requires old(SessionsMatch()) && Relisted(session, m)
      ensures SessionsMatch()
    {
    }

    twostate lemma RelistedTests(session: EthrSession, new m: map<TestID, EthrTest>)
      requires old(SessionsMatch() && TestsMatch()) && Relisted(session, m)
      requires Owned(session, m) && OthersLive(session)
      ensures TestsMatch()
    {
    }

    twostate lemma RelistedLive(session: EthrSession, new m: map<TestID, EthrTest>)
      requires old(SessionsMatch() && TestsMatch() && LiveMatch()) && Relisted(session, m)
      requires Whole(session, m) && OthersLive(session)
      ensures LiveMatch()
    {
      forall t | t in liveTests
        ensures Has(listed, KeyOf(t)) && At(listed, KeyOf(t)) == t
      {
        if t.session != session {
          assert t in old(liveTests);
          assert old(Has(listed, KeyOf(t))) && t.session == old(sessions)[t.session.remoteIP];
        }
      }
    }

    twostate lemma RelistedKeys(session: EthrSession, new m: map<TestID, EthrTest>)
      requires old(KeysMatch() && SessionsMatch()) && Relisted(session, m)
      requires keys == old(keys) && nKeys == old(nKeys) && keys[..nKeys] == old(keys[..nKeys])
      ensures KeysMatch()
    {
      assert listed.Keys == old(listed.Keys);
    }

    /** A registered session lists one more test. */
    twostate predicate Added(session: EthrSession, new t: EthrTest)
      reads this, liveSessions, session
    {
      && session in liveSessions && session.remoteIP in sessions && sessions[session.remoteIP] == session
      && sessions == old(sessions) && liveSessions == old(liveSessions) && Others(session)
      && liveTests == old(liveTests) + {t} && t.session == session && t.testID !in old(session.tests)
      && t.stats.key == KeyOf(t)
      && session.tests == old(session.tests)[t.testID := t] && session.testCount == old(session.testCount) + 1
      && listed == Register(old(listed), KeyOf(t), t)
    }

    twostate lemma AddedIsRelisted(session: EthrSession, new t: EthrTest)
      requires old(SessionsMatch()) && Added(session, t)
      ensures Relisted(session, session.tests)
    {
    }

    twostate lemma AddedOwned(session: EthrSession, new t: EthrTest)
      requires old(SessionsMatch() && TestsMatch()) && Added(session, t)
      ensures Owned(session, session.tests) && OthersLive(session)
    {
    }

    twostate lemma AddedWhole(session: EthrSession, new t: EthrTest)
      requires old(SessionsMatch() && TestsMatch() && LiveMatch()) && Added(session, t)
      ensures Whole(session, session.tests)
    {
    }

    twostate lemma AddedKeeps(session: EthrSession, new t: EthrTest)
      requires old(Linked()) && Added(session, t)
      requires keys == old(keys) && nKeys == old(nKeys) && keys[..nKeys] == old(keys[..nKeys])
      ensures Linked()
    {
      hide KeysMatch, SessionsMatch, TestsMatch, LiveMatch, Added, Relisted, Owned, Whole, OthersLive;
      AddedIsRelisted(session, t);
      AddedOwned(session, t);
      AddedWhole(session, t);
      RelistedSessions(session, session.tests);
      RelistedTests(session, session.tests);
      RelistedLive(session, session.tests);
      RelistedKeys(session, session.tests);
    }

    method NewSession(ip: string) returns (session: EthrSession)
      requires Linked() && ip !in sessions
      modifies this`sessions, this`liveSessions, this`keys, this`nKeys, this`listed, keys
      ensures Linked() && ip in sessions && session == sessions[ip]
      ensures session.remoteIP == ip && session.tests == map[]
      ensures keys == old(keys) || fresh(keys)
      ensures fresh(session) && liveSessions == old(liveSessions) + {session}
      ensures listed == old(listed)[ip := map[]]
    {
      session := new EthrSession(ip);
      sessions, liveSessions := sessions[ip := session], liveSessions + {session};
      AppendKey(ip);
      listed := listed[ip := map[]];
      CreatedKeeps(session);
    }

    /** Finds the session of an address, or registers one that has no tests yet. */
    method SessionFor(ip: string) returns (session: EthrSession)
      requires Linked()
      modifies this`sessions, this`liveSessions, this`keys, this`nKeys, this`listed, keys
      ensures Linked() && ip in sessions && session == sessions[ip]
      ensures session.remoteIP == ip && session.tests == TestsOf(old(listed), ip)
      ensures forall id :: id in session.tests ==> KeyOf(session.tests[id]) == Key(ip, id)
      ensures keys == old(keys) || fresh(keys)
      ensures session in old(liveSessions) || fresh(session)
      ensures liveSessions == old(liveSessions) + {session}
      ensures listed == old(listed)[ip := TestsOf(old(listed), ip)]
    {
      if ip in sessions {
        session := sessions[ip];
        assert listed == listed[ip := TestsOf(listed, ip)];
      } else {
        session := NewSession(ip);
      }
    }

    method AddToSession(session: EthrSession, t: EthrTest)
      requires Linked() && session in liveSessions && session.remoteIP in sessions
      requires sessions[session.remoteIP] == session == t.session && t.testID !in session.tests
      requires t.stats.key == KeyOf(t)
      modifies session, this`liveTests, this`listed
      ensures Linked() && liveTests == old(liveTests) + {t}
      ensures listed == Register(old(listed), KeyOf(t), t)
    {
      hide KeysMatch, SessionsMatch, TestsMatch, LiveMatch;
      session.testCount := session.testCount + 1;
      session.tests := session.tests[t.testID := t];
      liveTests, listed := liveTests + {t}, Register(listed, KeyOf(t), t);
      AddedKeeps(session, t);
    }

    method AddNewTest(session: EthrSession, id: TestID, now: int) returns (t: EthrTest)
      requires Linked() && session in liveSessions && session.remoteIP in sessions
      requires sessions[session.remoteIP] == session && id !in session.tests
      modifies session, this`liveTests, this`listed
      ensures Linked() && fresh(t) && fresh(t.stats) && t.refCount == 0 && Blank(t.stats, now)
      ensures KeyOf(t) == Key(session.remoteIP, id) && liveTests == old(liveTests) + {t}
      ensures listed == Register(old(listed), KeyOf(t), t)
    {
      hide KeysMatch, SessionsMatch, TestsMatch, LiveMatch, NoneEmpty, Register;
      var stats := new TestStats(Key(session.remoteIP, id), now);
      t := new EthrTest(session, id, stats);
      AddToSession(session, t);
    }

    /** Adds a test nobody holds yet, or reports that it existed. */
    method NewTestInternal(ip: string, id: TestID, now: int) returns (t: EthrTest, existed: bool)
      requires Shape()
      modifies this, keys, liveSessions
      ensures Shape()
      ensures keys == old(keys) || fresh(keys)
      ensures fresh(liveSessions - old(liveSessions))
      ensures existed == old(Has(listed, Key(ip, id))) && KeyOf(t) == Key(ip, id)
      ensures existed ==> t == old(At(listed, Key(ip, id))) && listed == old(listed) && liveTests == old(liveTests)
      ensures holders == old(holders)
      ensures !existed ==> fresh(t) && fresh(t.stats) && t.refCount == 0 && liveTests == old(liveTests) + {t}
      ensures !existed ==> Blank(t.stats, now)
      ensures !existed ==> listed == Register(old(listed), Key(ip, id), t)
    {
      hide KeysMatch, SessionsMatch, TestsMatch, LiveMatch, NoneEmpty, Register;
      ghost var v := listed;
      var session := SessionFor(ip);
      if id in session.tests {
        RegisterAfterEntry(v, Key(ip, id), session.tests[id]);
        return session.tests[id], true;
      }
      existed := false;
      t := AddNewTest(session, id, now);
      RegisterAfterEntry(v, Key(ip, id), t);
    }

    twostate lemma NewcomerCounts(new t: EthrTest)
      requires old(CountsMatch(null)) && fresh(t) && t.refCount == 0
      requires liveTests == old(liveTests) + {t} && holders == old(holders)
      requires forall u :: u in old(liveTests) ==> u.refCount == old(u.refCount)
      ensures CountsMatch(t)
    {
    }

    method TakeReference(t: EthrTest)
      requires Shape() && CountsMatch(t) && t in liveTests
      modifies t`refCount, this`holders
      ensures Valid() && holders == old(holders) + multiset{t}
    {
      hide KeysMatch, SessionsMatch, TestsMatch, LiveMatch, NoneEmpty, AsInt32, AddInt32;
      AddInt32Wraps(holders[t], 1);
      t.refCount := AddInt32(t.refCount, 1);
      holders := holders + multiset{t};
    }

    lemma HeldCounts(t: EthrTest)
      requires CountsMatch(null)
      ensures CountsMatch(t)
    {
    }

    /** The branch of the lookup that finds no test. */
    method CreateTest(ip: string, id: TestID, now: int) returns (t: EthrTest)
      requires Valid() && !Has(listed, Key(ip, id))
      modifies this, keys, liveSessions
      ensures Shape() && CountsMatch(t) && holders == old(holders)
      ensures fresh(liveSessions - old(liveSessions))
      ensures keys == old(keys) || fresh(keys)
      ensures KeyOf(t) == Key(ip, id) && listed == Register(old(listed), Key(ip, id), t)
      ensures fresh(t) && fresh(t.stats) && liveTests == old(liveTests) + {t}
      ensures t.stats.isActive && t.stats.started && t.stats.startTime == now && Blank(t.stats, now)
    {
      hide KeysMatch, SessionsMatch, TestsMatch, LiveMatch, CountsMatch, NoneEmpty, Register;
      var existed;
      t, existed := NewTestInternal(ip, id, now);
      NewcomerCounts(t);
      t.stats.isActive, t.stats.started, t.stats.startTime := true, true, now;
    }

    /** Takes a reference on the test of an address, creating it if there is none. */
    method CreateOrGetTest(ip: string, id: TestID, now: int) returns (t: EthrTest, isNew: bool)
      requires Valid()
      modifies this, keys, liveSessions, liveTests
      ensures Valid() && fresh(liveSessions - old(liveSessions)) && fresh(liveTests - old(liveTests))
      ensures keys == old(keys) || fresh(keys)
      ensures isNew == !old(Has(listed, Key(ip, id)))
      ensures KeyOf(t) == Key(ip, id) && Shown() == Acquire(old(Shown()), Key(ip, id), t)
      ensures isNew ==> fresh(t) && fresh(t.stats) && Blank(t.stats, now)
      ensures isNew ==> t.stats.isActive && t.stats.started && t.stats.startTime == now
    {
      hide KeysMatch, SessionsMatch, TestsMatch, LiveMatch, CountsMatch, NoneEmpty, Register;
      var found := GetTestInternal(ip, id);
      isNew := found == null;
      if found == null {
        t := CreateTest(ip, id, now);
      } else {
        t := found;
        HeldCounts(t);
      }
      TakeReference(t);
    }

    /** A registered session lists one test less. */
    twostate predicate Removed(session: EthrSession, new t: EthrTest)
      reads this, liveSessions, session
    {
      && session in liveSessions && session.remoteIP in sessions && sessions[session.remoteIP] == session
      && sessions == old(sessions) && liveSessions == old(liveSessions) && Others(session)
      && t in old(liveTests) && t.session == session && liveTests == old(liveTests) - {t}
      && session.tests == old(session.tests) - {t.testID} && session.testCount == old(session.testCount) - 1
      && listed == old(listed)[session.remoteIP := session.tests]
    }

    twostate lemma RemovedIsRelisted(session: EthrSession, new t: EthrTest)
      requires old(SessionsMatch() && LiveMatch()) && Removed(session, t)
      ensures Relisted(session, session.tests)
    {
      assert old(Has(listed, KeyOf(t)));
      assert t.testID in old(session.tests);
    }

    twostate lemma RemovedOwned(session: EthrSession, new t: EthrTest)
      requires old(SessionsMatch() && TestsMatch()) && Removed(session, t)
      ensures Owned(session, session.tests) && OthersLive(session)
    {
    }

    twostate lemma RemovedWhole(session: EthrSession, new t: EthrTest)
      requires old(SessionsMatch() && TestsMatch() && LiveMatch()) && Removed(session, t)
      ensures Whole(session, session.tests)
    {
    }

    twostate lemma RemovedKeeps(session: EthrSession, new t: EthrTest)
      requires old(Linked()) && Removed(session, t)
      requires keys == old(keys) && nKeys == old(nKeys) && keys[..nKeys] == old(keys[..nKeys])
      ensures Linked()
    {
      hide KeysMatch, SessionsMatch, TestsMatch, LiveMatch, Removed, Relisted, Owned, Whole, OthersLive;
      RemovedIsRelisted(session, t);
      RemovedOwned(session, t);
      RemovedWhole(session, t);
      RelistedSessions(session, session.tests);
      RelistedTests(session, session.tests);
      RelistedLive(session, session.tests);
      RelistedKeys(session, session.tests);
    }

    /** An address without tests, and its session, have been dropped. */
    twostate predicate Dropped(ip: string)
      reads this, liveSessions
    {
      && ip in old(sessions) && old(ip in listed && listed[ip] == map[])
      && sessions == old(sessions) - {ip} && listed == old(listed) - {ip}
      && liveSessions == old(liveSessions) && liveTests == old(liveTests)
      && (forall s :: s in liveSessions ==> s.tests == old(s.tests) && s.testCount == old(s.testCount))
    }

    twostate lemma DroppedLive(ip: string)
      requires old(LiveMatch()) && Dropped(ip)
      ensures LiveMatch()
    {
      forall t | t in liveTests
        ensures Has(listed, KeyOf(t)) && At(listed, KeyOf(t)) == t
      {
        assert old(Has(listed, KeyOf(t)));
      }
    }

    twostate lemma DroppedKeeps(ip: string)
      requires old(SessionsMatch() && TestsMatch() && LiveMatch()) && Dropped(ip)
      ensures SessionsMatch() && TestsMatch() && LiveMatch()
    {
      DroppedLive(ip);
    }

    method RemoveFromSession(session: EthrSession, t: EthrTest)
      requires Linked() && t in liveTests && t.session == session
      requires session in liveSessions && session.remoteIP in sessions && sessions[session.remoteIP] == session
      requires session.testCount > 0
      modifies session, this`liveTests, this`listed
      ensures Linked() && liveTests == old(liveTests) - {t}
      ensures listed == old(listed)[session.remoteIP := session.tests]
      ensures session.tests == old(session.tests) - {t.testID}
    {
      hide KeysMatch, SessionsMatch, TestsMatch, LiveMatch;
      session.tests := session.tests - {t.testID};
      session.testCount := session.testCount - 1;
      liveTests, listed := liveTests - {t}, listed[session.remoteIP := session.tests];
      RemovedKeeps(session, t);
    }

    method DropSession(ip: string)
      requires Linked() && ip in sessions && ip in listed && listed[ip] == map[]
      modifies this`sessions, this`nKeys, this`listed, keys
      ensures Linked() && listed == old(listed) - {ip}
    {
      hide SessionsMatch, TestsMatch, LiveMatch, Without, NoDuplicates, Dropped;
      WithoutContents(keys[..nKeys], ip);
      nKeys := DeleteKey(keys, nKeys, ip);
      sessions, listed := sessions - {ip}, listed - {ip};
      DroppedKeeps(ip);
    }

    lemma LiveTest(t: EthrTest)
      requires Linked() && t in liveTests
      ensures t.session in liveSessions && t.session.remoteIP in sessions
      ensures sessions[t.session.remoteIP] == t.session && t.session.testCount > 0
    {
      assert At(listed, KeyOf(t)) == t;
      assert t.testID in t.session.tests;
    }

    lemma SessionFacts(session: EthrSession)
      requires Linked() && session.remoteIP in sessions && sessions[session.remoteIP] == session
      ensures session.remoteIP in listed && session.tests == listed[session.remoteIP]
      ensures session.testCount == |session.tests|
    {
    }

    /** Removes a test from its session, and the session with its last test. */
    method DeleteTestInternal(t: EthrTest)
      requires Shape() && t in liveTests
      modifies t.session, this`sessions, this`nKeys, this`listed, this`liveTests, keys
      ensures Shape() && liveTests == old(liveTests) - {t}
      ensures listed == Unregister(old(listed), KeyOf(t))
    {
      hide KeysMatch, SessionsMatch, TestsMatch, LiveMatch, NoneEmpty;
      LiveTest(t);
      var session := t.session;
      SessionFacts(session);
      UnregisterAfterRemoval(listed, KeyOf(t));
      RemoveFromSession(session, t);
      SessionFacts(session);
      if session.testCount == 0 {
        DropSession(session.remoteIP);
      }
    }

    lemma HeldLive(t: EthrTest)
      requires CountsMatch(null) && t in holders
      ensures t in liveTests && t.refCount == AsInt32(holders[t])
    {
    }

    /** Gives a reference back without looking at what is left. */
    method DropReference(t: EthrTest)
      requires Valid() && t in holders
      modifies t`refCount, this`holders
      ensures Shape() && CountsMatch(t) && t in liveTests && t.refCount == AsInt32(holders[t])
      ensures holders == old(holders) - multiset{t}
    {
      hide KeysMatch, SessionsMatch, TestsMatch, LiveMatch, NoneEmpty, AsInt32, AddInt32;
      AddInt32Wraps(holders[t], -1);
      HeldLive(t);
      t.refCount := AddInt32(t.refCount, -1);
      holders := holders[t := holders[t] - 1];
      assert holders == old(holders) - multiset{t};
    }

    lemma StillHeld(t: EthrTest)
      requires CountsMatch(t) && t in holders
      ensures CountsMatch(null)
    {
    }

    twostate lemma UnheldGone(t: EthrTest)
      requires old(CountsMatch(t)) && t !in holders && holders == old(holders)
      requires liveTests == old(liveTests) - {t}
      requires forall u :: u in old(liveTests) ==> u.refCount == old(u.refCount)
      ensures CountsMatch(null)
    {
    }

    lemma HeldDead(t: EthrTest)
      requires t in holders && t !in liveTests
      ensures !CountsMatch(null)
    {
    }

    /** Deletes a test whose count shows zero, held or not. */
    method DeleteTest(t: EthrTest)
      requires Shape() && CountsMatch(t) && t in liveTests
      modifies t.session, this`sessions, this`nKeys, this`listed, this`liveTests, keys
      ensures Shape() && listed == Unregister(old(listed), KeyOf(t))
      ensures Valid() <==> t !in holders
    {
      hide KeysMatch, SessionsMatch, TestsMatch, LiveMatch, CountsMatch, NoneEmpty, Unregister;
      DeleteTestInternal(t);
      if t in holders {
        HeldDead(t);
      } else {
        UnheldGone(t);
      }
    }

    /** Whoever holds a test holds the one the registry hands out for its address and identifier. */
    lemma HolderIsLive(t: EthrTest)
      requires Valid() && t in holders
      ensures Has(listed, KeyOf(t)) && At(listed, KeyOf(t)) == t && t in liveTests
    {
    }

    /** Gives a reference back. The caller holds one of any number of references; the last deletes the test,
        and so does any that leaves a multiple of 2^32, at which the 32-bit count passes through zero. The
        registry stays consistent, and only then, if nobody holds a deleted test. */
    method SafeDeleteTest(t: EthrTest) returns (deleted: bool)
      requires Valid() && t in holders
      modifies t, t.session, this`sessions, this`nKeys, this`listed, this`liveTests, this`holders, keys
      ensures deleted <==> (old(holders[t]) - 1) % 0x1_0000_0000 == 0
      ensures old(Has(listed, KeyOf(t)) && At(listed, KeyOf(t)) == t)
      ensures Shape() && holders == old(holders) - multiset{t}
      ensures listed == if deleted then Unregister(old(listed), KeyOf(t)) else old(listed)
      ensures Valid() <==> !(deleted && t in holders)
      ensures old(holders[t]) <= 0x1_0000_0000 ==> Valid()
      ensures old(holders[t]) == 0x1_0000_0001 ==> deleted && !Valid()
      ensures Valid() ==> deleted == (t !in holders) && Shown() == Release(old(Shown()), KeyOf(t))
    {
      hide KeysMatch, SessionsMatch, TestsMatch, CountsMatch, NoneEmpty, Unregister, AsInt32;
      HolderIsLive(t);
      DropReference(t);
      AsInt32Zero(holders[t]);
      if t.refCount == 0 {
        DeleteTest(t);
        return true;
      }
      StillHeld(t);
      deleted := false;
    }
  }
}
