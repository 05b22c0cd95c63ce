/** What the session registry means: which tests are registered, under which address and
    identifier, and who holds a reference to them. `T` identifies tests. */
module References {
  import opened Wire

  datatype Key = Key(ip: string, id: TestID)

  /** The tests of every registered address. */
  type Directory<!T(==)> = map<string, map<TestID, T>>

  datatype View<!T(==)> = View(tests: Directory<T>, holders: multiset<T>)

  predicate Has<T>(d: Directory<T>, k: Key) {
    k.ip in d && k.id in d[k.ip]
  }

  function At<T>(d: Directory<T>, k: Key): T
    requires Has(d, k)
  {
    d[k.ip][k.id]
  }

  function TestsOf<T>(d: Directory<T>, ip: string): map<TestID, T> {
    if ip in d then d[ip] else map[]
  }

  function Register<T>(d: Directory<T>, k: Key, t: T): Directory<T> {
    d[k.ip := TestsOf(d, k.ip)[k.id := t]]
  }

  /** Removes a test, and its address with the last one. */
  function Unregister<T>(d: Directory<T>, k: Key): Directory<T> {
    var rest := TestsOf(d, k.ip) - {k.id};
    if rest == map[] then d - {k.ip} else d[k.ip := rest]
  }

  /** No address stays registered without a test. */
  ghost predicate NoneEmpty<T>(d: Directory<T>) {
    forall ip :: ip in d ==> d[ip] != map[]
  }

  /** Registering a test on an address that has been entered without tests, or was there before. */
  lemma RegisterAfterEntry<T>(d: Directory<T>, k: Key, t: T)
    requires NoneEmpty(d)
    ensures var entered := d[k.ip := TestsOf(d, k.ip)];
            && Register(entered, k, t) == Register(d, k, t)
            && (Has(entered, k) <==> Has(d, k))
            && (Has(d, k) ==> entered == d)
    ensures NoneEmpty(Register(d, k, t))
  {
    var entered := d[k.ip := TestsOf(d, k.ip)];
    assert TestsOf(entered, k.ip) == TestsOf(d, k.ip);
    if Has(d, k) {
      assert entered == d;
    }
  }

  lemma UnregisterAfterRemoval<T>(d: Directory<T>, k: Key)
    requires NoneEmpty(d) && k.ip in d
    ensures var rest := TestsOf(d, k.ip) - {k.id};
            && (rest == map[] ==> d[k.ip := rest] - {k.ip} == Unregister(d, k))
            && (rest != map[] ==> d[k.ip := rest] == Unregister(d, k))
    ensures NoneEmpty(Unregister(d, k))
  {
  }

  /** Taking a reference: on the registered test, or on `newcomer`, registered for the purpose. */
  function Acquire<T>(v: View<T>, k: Key, newcomer: T): View<T> {
    if Has(v.tests, k) then v.(holders := v.holders + multiset{At(v.tests, k)})
    else View(Register(v.tests, k, newcomer), v.holders + multiset{newcomer})
  }

  /** Giving a reference back: the last one unregisters the test. */
  function Release<T>(v: View<T>, k: Key): View<T>
    requires Has(v.tests, k)
  {
    var holders := v.holders - multiset{At(v.tests, k)};
    View(if At(v.tests, k) in holders then v.tests else Unregister(v.tests, k), holders)
  }

  /** Taking a reference touches one key and adds one holder of its test. */
  lemma AcquireEffect<T>(v: View<T>, k: Key, newcomer: T)
    ensures var v' := Acquire(v, k, newcomer);
            && Has(v'.tests, k)
            && At(v'.tests, k) == (if Has(v.tests, k) then At(v.tests, k) else newcomer)
            && v'.holders == v.holders + multiset{At(v'.tests, k)}
            && (forall j: Key {:trigger Has(v'.tests, j)} {:trigger Has(v.tests, j)} :: j != k ==>
                  (Has(v'.tests, j) <==> Has(v.tests, j)) && (Has(v.tests, j) ==> At(v'.tests, j) == At(v.tests, j)))
  {
  }

  lemma UnregisterEffect<T>(d: Directory<T>, k: Key)
    ensures var d' := Unregister(d, k);
            && !Has(d', k)
            && (forall j: Key {:trigger Has(d', j)} {:trigger Has(d, j)} :: j != k ==>
                  (Has(d', j) <==> Has(d, j)) && (Has(d, j) ==> At(d', j) == At(d, j)))
  {
    forall j: Key | j != k && Has(d, j)
      ensures Has(Unregister(d, k), j)
    {
      if j.ip == k.ip {
        assert j.id in TestsOf(d, k.ip) - {k.id};
      }
    }
  }

  /** Giving one back takes one holder away, and the key with the last one. */
  lemma ReleaseEffect<T>(v: View<T>, k: Key)
    requires Has(v.tests, k)
    ensures var v' := Release(v, k);
            && v'.holders == v.holders - multiset{At(v.tests, k)}
            && (Has(v'.tests, k) <==> At(v.tests, k) in v'.holders)
            && (Has(v'.tests, k) ==> At(v'.tests, k) == At(v.tests, k))
            && (forall j: Key {:trigger Has(v'.tests, j)} {:trigger Has(v.tests, j)} :: j != k ==>
                  (Has(v'.tests, j) <==> Has(v.tests, j)) && (Has(v.tests, j) ==> At(v'.tests, j) == At(v.tests, j)))
  {
    UnregisterEffect(v.tests, k);
  }

  // ---------------------------------------------------------------- tests by other names

  ghost predicate Injective<T, U>(name: map<T, U>) {
    forall s, t :: s in name && t in name && name[s] == name[t] ==> s == t
  }

  /** Every test has as many holders as its namesake. */
  ghost predicate SameHolders<T, U>(v: multiset<T>, w: multiset<U>, name: map<T, U>) {
    && (forall t :: t in v ==> t in name)
    && (forall t :: t in name ==> v[t] == w[name[t]])
  }

  ghost predicate SameAt<T, U>(d: Directory<T>, e: Directory<U>, k: Key, name: map<T, U>) {
    && (Has(d, k) <==> Has(e, k))
    && (Has(d, k) ==> At(d, k) in name && name[At(d, k)] == At(e, k))
  }

  /** `w` is `v` with its tests called by other names, different ones for different tests. */
  ghost predicate Named<T, U>(v: View<T>, w: View<U>, name: map<T, U>) {
    && Injective(name) && SameHolders(v.holders, w.holders, name)
    && (forall k: Key :: SameAt(v.tests, w.tests, k, name))
  }

  lemma OneMoreHolder<T, U>(v: multiset<T>, w: multiset<U>, name: map<T, U>, t: T)
    requires Injective(name) && SameHolders(v, w, name) && t in name
    ensures SameHolders(v + multiset{t}, w + multiset{name[t]}, name)
  {
  }

  lemma OneHolderLess<T, U>(v: multiset<T>, w: multiset<U>, name: map<T, U>, t: T)
    requires Injective(name) && SameHolders(v, w, name) && t in name
    ensures SameHolders(v - multiset{t}, w - multiset{name[t]}, name)
    ensures t in v - multiset{t} <==> name[t] in w - multiset{name[t]}
  {
  }

  lemma OneMoreName<T, U>(v: multiset<T>, w: multiset<U>, name: map<T, U>, t: T, u: U)
    requires Injective(name) && SameHolders(v, w, name) && t !in name && u !in name.Values && u !in w
    ensures Injective(name[t := u]) && SameHolders(v, w, name[t := u])
  {
  }

  /** Taking a reference is the same under any names; a new test's is new. */
  lemma AcquireNamed<T, U>(v: View<T>, w: View<U>, name: map<T, U>, k: Key, t: T, u: U)
    requires Named(v, w, name)
    requires !Has(v.tests, k) ==> t !in name && u !in name.Values && u !in w.holders
    ensures Named(Acquire(v, k, t), Acquire(w, k, u), if Has(v.tests, k) then name else name[t := u])
  {
    AcquireEffect(v, k, t);
    AcquireEffect(w, k, u);
    var v', w' := Acquire(v, k, t), Acquire(w, k, u);
    var name' := if Has(v.tests, k) then name else name[t := u];
    hide Acquire, SameHolders, Injective;
    assert SameAt(v.tests, w.tests, k, name);
    if !Has(v.tests, k) {
      OneMoreName(v.holders, w.holders, name, t, u);
    }
    OneMoreHolder(v.holders, w.holders, name', At(v'.tests, k));
    forall j: Key
      ensures SameAt(v'.tests, w'.tests, j, name')
    {
      assert SameAt(v.tests, w.tests, j, name);
    }
  }

  /** So is giving one back. */
  lemma ReleaseNamed<T, U>(v: View<T>, w: View<U>, name: map<T, U>, k: Key)
    requires Named(v, w, name) && Has(v.tests, k)
    ensures Has(w.tests, k) && Named(Release(v, k), Release(w, k), name)
  {
    assert SameAt(v.tests, w.tests, k, name);
    ReleaseEffect(v, k);
    ReleaseEffect(w, k);
    var v', w' := Release(v, k), Release(w, k);
    hide Release, SameHolders, Injective;
    OneHolderLess(v.holders, w.holders, name, At(v.tests, k));
    forall j: Key
      ensures SameAt(v'.tests, w'.tests, j, name)
    {
      assert SameAt(v.tests, w.tests, j, name);
    }
  }
}
