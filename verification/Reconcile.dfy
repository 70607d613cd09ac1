/**
 * Anti-entropy between two nodes (cluster/store.py `reconcile`, `serve_merkle`,
 * `serve_digest`, `serve_pull`, `serve_updates`) on an open cluster, as one
 * exchange that is not interrupted.
 */
module Reconciliation {
  import opened Order
  import opened Envelopes
  import opened NodeState
  import opened Merkle
  import opened ClusterSystem

  // ---- the serving side ----------------------------------------------------------------

  function Datasets(n: Node): set<string> { set lk | lk in n.registry :: lk.dataset }

  /** `_allowed_for`: an empty request does not restrict. */
  function AllowedFor(n: Node, from: string, requested: set<string>): set<string> {
    var base := if from in n.sessions then n.sessions[from].namespaces else Datasets(n);
    if requested != {} then base * requested else base
  }

  /** The rows `serve_merkle` hashes and `serve_digest` returns. */
  function Served(n: Node, from: string, requested: set<string>): Index {
    var allowed := AllowedFor(n, from, requested);
    var idx := FullIndex(n, allowed);
    map k | k in idx && k.dataset in allowed :: idx[k]
  }

  /** Namespaces of the session with `peer`. */
  function Negotiated(n: Node, peer: string): set<string> {
    if peer in n.sessions then n.sessions[peer].namespaces else {}
  }

  // ---- the exchange --------------------------------------------------------------------

  /** What the liveness clock of a node reads when it looks at the envelope of a key. */
  type Readings = Key -> real

  function Still(now: real): Readings { _ => now }

  /** The keys of `keys` whose envelopes, built by `from`, the node `to` stores. */
  ghost function Transferred(to: Node, from: Node, keys: set<Key>, at: Readings): set<Key> {
    set k | k in keys && Build(from, k).Some? && Accepts(to, Build(from, k).value, at(k))
  }

  ghost function Absorb(to: Node, from: Node, keys: set<Key>, at: Readings): Node {
    to.(foreign := to.foreign + Delivered(from, Transferred(to, from, keys, at)))
  }

  ghost function Delivered(from: Node, keys: set<Key>): map<Key, Envelope>
    requires forall k | k in keys :: Build(from, k).Some?
  {
    map k | k in keys :: Build(from, k).value
  }

  /** What the initiator `a` pulls from `b`, by the plain index diff. */
  function Pulls(a: Node, b: Node): set<Key> {
    Wanted(FullIndex(a, Negotiated(a, b.id)), Served(b, a.id, Negotiated(a, b.id)))
  }

  /** What the initiator `a` pushes to `b`, by the plain index diff. */
  function Pushes(a: Node, b: Node): set<Key> {
    Wanted(Served(b, a.id, Negotiated(a, b.id)), FullIndex(a, Negotiated(a, b.id)))
  }

  ghost function Initiator(a: Node, b: Node, at: Readings): Node { Absorb(a, b, Pulls(a, b), at) }

  /** The serving side also notes when it last heard from `a`. */
  ghost function Responder(a: Node, b: Node, at: Readings, heard: real): Node {
    Touch(Absorb(b, a, Pushes(a, b), at), a.id, heard)
  }

  // ---- what the exchange achieves --------------------------------------------------------

  ghost predicate WellFormed(n: Node) {
    forall k | k in n.foreign :: k.origin != n.id && n.foreign[k].key == k
  }

  /** The two sessions agree on a non-empty set of namespaces, as the handshake leaves them. */
  ghost predicate Paired(a: Node, b: Node, ns: set<string>) {
    && a.id != b.id && ns != {}
    && b.id in a.sessions && a.sessions[b.id].namespaces == ns
    && a.id in b.sessions && b.sessions[a.id].namespaces == ns
  }

  /** Records of `k` that `n` never stores now: its own, and those of a suppressed origin. */
  predicate Refuses(n: Node, k: Key, now: real) { k.origin == n.id || Suppressed(n, k.origin, now) }

  function HeldVersion(n: Node, k: Key): Option<Version> {
    match Build(n, k) case None => None case Some(e) => Some(e.version)
  }

  predicate StrictlyNewer(a: Option<Version>, b: Option<Version>) { a.Some? && Newer(a.value, b) }

  lemma BuildKey(n: Node, k: Key)
    requires WellFormed(n) && Build(n, k).Some?
    ensures Build(n, k).value.key == k
    ensures k in OwnKeys(n) + n.foreign.Keys
  {
  }

  lemma IndexAt(n: Node, ns: set<string>, k: Key)
    requires WellFormed(n) && InScope(ns, k.dataset)
    ensures At(FullIndex(n, ns), k) == HeldVersion(n, k)
  {
  }

  lemma ServedAt(a: Node, b: Node, ns: set<string>, k: Key)
    requires WellFormed(b) && Paired(a, b, ns)
    ensures At(Served(b, a.id, ns), k) == if k.dataset in ns then HeldVersion(b, k) else None
  {
  }

  lemma PullsAt(a: Node, b: Node, ns: set<string>, k: Key)
    requires WellFormed(a) && WellFormed(b) && Paired(a, b, ns)
    ensures k in Pulls(a, b) <==> k.dataset in ns && StrictlyNewer(HeldVersion(b, k), HeldVersion(a, k))
    ensures k in Pushes(a, b) <==> k.dataset in ns && StrictlyNewer(HeldVersion(a, k), HeldVersion(b, k))
  {
    var mine, theirs := FullIndex(a, ns), Served(b, a.id, ns);
    ServedAt(a, b, ns, k);
    if k.dataset in ns { IndexAt(a, ns, k); } else { assert k !in mine; }
    assert k in theirs <==> At(theirs, k).Some?;
    assert k in mine <==> At(mine, k).Some?;
  }

  lemma AbsorbAt(to: Node, from: Node, keys: set<Key>, at: Readings, k: Key)
    requires WellFormed(to) && WellFormed(from)
    ensures var after := Absorb(to, from, keys, at);
      Build(after, k) == if k in keys && Build(from, k).Some? && Accepts(to, Build(from, k).value, at(k)) then Build(from, k) else Build(to, k)
    ensures WellFormed(Absorb(to, from, keys, at))
  {
    var moved := Transferred(to, from, keys, at);
    forall l | l in moved ensures Build(from, l).value.key == l && l.origin != to.id { BuildKey(from, l); }
  }

  lemma AcceptsAt(to: Node, from: Node, k: Key, now: real)
    requires WellFormed(to) && WellFormed(from)
    requires StrictlyNewer(HeldVersion(from, k), HeldVersion(to, k))
    ensures Accepts(to, Build(from, k).value, now) <==> !Refuses(to, k, now)
  {
  }

  /** The exact effect on one key: each side takes what the other has newer, unless it refuses the origin. */
  lemma ExchangeAt(a: Node, b: Node, ns: set<string>, na: Readings, nb: Readings, hb: real, k: Key)
    requires WellFormed(a) && WellFormed(b) && Paired(a, b, ns)
    ensures var pulled := k.dataset in ns && StrictlyNewer(HeldVersion(b, k), HeldVersion(a, k)) && !Refuses(a, k, na(k));
            Build(Initiator(a, b, na), k) == if pulled then Build(b, k) else Build(a, k)
    ensures var pushed := k.dataset in ns && StrictlyNewer(HeldVersion(a, k), HeldVersion(b, k)) && !Refuses(b, k, nb(k));
            Build(Responder(a, b, nb, hb), k) == if pushed then Build(a, k) else Build(b, k)
    ensures WellFormed(Initiator(a, b, na)) && WellFormed(Responder(a, b, nb, hb))
  {
    PullsAt(a, b, ns, k);
    AbsorbNewer(a, b, Pulls(a, b), k.dataset in ns, na, k);
    AbsorbNewer(b, a, Pushes(a, b), k.dataset in ns, nb, k);
    hide Absorb, Pulls, Pushes, Build, HeldVersion, Paired;
    TouchBuild(Absorb(b, a, Pushes(a, b), nb), a.id, hb, k);
  }

  lemma TouchBuild(n: Node, peer: string, now: real, k: Key)
    ensures Build(Touch(n, peer, now), k) == Build(n, k)
    ensures WellFormed(n) ==> WellFormed(Touch(n, peer, now))
  {
  }

  /** Offered exactly the shared keys it is behind on, a node takes those it does not refuse. */
  lemma AbsorbNewer(to: Node, from: Node, keys: set<Key>, shared: bool, at: Readings, k: Key)
    requires WellFormed(to) && WellFormed(from)
    requires k in keys <==> shared && StrictlyNewer(HeldVersion(from, k), HeldVersion(to, k))
    ensures var taken := shared && StrictlyNewer(HeldVersion(from, k), HeldVersion(to, k)) && !Refuses(to, k, at(k));
            Build(Absorb(to, from, keys, at), k) == if taken then Build(from, k) else Build(to, k)
    ensures WellFormed(Absorb(to, from, keys, at))
  {
    AbsorbAt(to, from, keys, at, k);
    if k in keys { AcceptsAt(to, from, k, at(k)); }
  }

  /**
   * Convergence, exactly: after one exchange the two sides hold the same version
   * of a shared key if and only if they did before or the side that is behind
   * does not refuse the origin; and then it is the LWW maximum.
   */
  lemma ExchangeConverges(a: Node, b: Node, ns: set<string>, na: Readings, nb: Readings, hb: real, k: Key)
    requires WellFormed(a) && WellFormed(b) && Paired(a, b, ns) && k.dataset in ns
    ensures var va, vb := HeldVersion(a, k), HeldVersion(b, k);
      var va', vb' := HeldVersion(Initiator(a, b, na), k), HeldVersion(Responder(a, b, nb, hb), k);
      && (va' == vb' <==>
            || va == vb
            || (StrictlyNewer(vb, va) && !Refuses(a, k, na(k)))
            || (StrictlyNewer(va, vb) && !Refuses(b, k, nb(k))))
      && (va' == vb' ==> va' == Latest(va, vb))
  {
    ExchangeAt(a, b, ns, na, nb, hb, k);
    var va, vb := HeldVersion(a, k), HeldVersion(b, k);
    if va.Some? && vb.Some? {
      VersionTotal(va.value, vb.value);
      VersionIrreflexive(va.value);
      if VersionLess(va.value, vb.value) { VersionAsymmetric(va.value, vb.value); }
      if VersionLess(vb.value, va.value) { VersionAsymmetric(vb.value, va.value); }
    }
  }

  // ---- a serving side without a session -----------------------------------------------------

  /** The initiator has a session with the peer; the peer may have lost its own, as after a restart. */
  ghost predicate HalfPaired(a: Node, b: Node, ns: set<string>) {
    a.id != b.id && ns != {} && b.id in a.sessions && a.sessions[b.id].namespaces == ns
  }

  lemma ServedScope(a: Node, b: Node, ns: set<string>, k: Key)
    requires WellFormed(b) && ns != {}
    ensures At(Served(b, a.id, ns), k) == if k.dataset in AllowedFor(b, a.id, ns) then HeldVersion(b, k) else None
  {
    var allowed := AllowedFor(b, a.id, ns);
    if k.dataset in allowed { IndexAt(b, allowed, k); }
  }

  lemma HalfPairedPullsAt(a: Node, b: Node, ns: set<string>, k: Key)
    requires WellFormed(a) && WellFormed(b) && HalfPaired(a, b, ns)
    ensures k in Pulls(a, b) <==> k.dataset in AllowedFor(b, a.id, ns) && StrictlyNewer(HeldVersion(b, k), HeldVersion(a, k))
    ensures k in Pushes(a, b) <==>
              k.dataset in ns
              && (k.dataset in AllowedFor(b, a.id, ns) ==> StrictlyNewer(HeldVersion(a, k), HeldVersion(b, k)))
              && HeldVersion(a, k).Some?
  {
    var mine, theirs := FullIndex(a, ns), Served(b, a.id, ns);
    ServedScope(a, b, ns, k);
    if k.dataset in ns { IndexAt(a, ns, k); } else { assert k !in mine; }
    assert k in theirs <==> At(theirs, k).Some?;
    assert k in mine <==> At(mine, k).Some?;
    assert AllowedFor(b, a.id, ns) <= ns;
  }

  /**
   * The exact effect when the serving side has no session: it gives only what lies in
   * datasets it hosts itself, and takes everything it is behind on.
   */
  lemma HalfPairedExchangeAt(a: Node, b: Node, ns: set<string>, na: Readings, nb: Readings, hb: real, k: Key)
    requires WellFormed(a) && WellFormed(b) && HalfPaired(a, b, ns)
    ensures var pulled := k.dataset in AllowedFor(b, a.id, ns) && StrictlyNewer(HeldVersion(b, k), HeldVersion(a, k)) && !Refuses(a, k, na(k));
            Build(Initiator(a, b, na), k) == if pulled then Build(b, k) else Build(a, k)
    ensures var pushed := k.dataset in ns && StrictlyNewer(HeldVersion(a, k), HeldVersion(b, k)) && !Refuses(b, k, nb(k));
            Build(Responder(a, b, nb, hb), k) == if pushed then Build(a, k) else Build(b, k)
    ensures a.id !in b.sessions ==> forall d :: d in AllowedFor(b, a.id, ns) <==> d in ns && exists lk :: lk in b.registry && lk.dataset == d
  {
    if a.id !in b.sessions { HostedOnly(a, b, ns); }
    HalfPairedPullsAt(a, b, ns, k);
    AbsorbNewer(a, b, Pulls(a, b), k.dataset in AllowedFor(b, a.id, ns), na, k);
    PushedAt(a, b, ns, nb, k);
    hide Absorb, Pulls, Pushes, Build, HeldVersion, HalfPaired;
    TouchBuild(Absorb(b, a, Pushes(a, b), nb), a.id, hb, k);
  }

  lemma HostedOnly(a: Node, b: Node, ns: set<string>)
    requires ns != {} && a.id !in b.sessions
    ensures forall d :: d in AllowedFor(b, a.id, ns) <==> d in ns && exists lk :: lk in b.registry && lk.dataset == d
  {
  }

  lemma PushedAt(a: Node, b: Node, ns: set<string>, nb: Readings, k: Key)
    requires WellFormed(a) && WellFormed(b) && HalfPaired(a, b, ns)
    ensures var pushed := k.dataset in ns && StrictlyNewer(HeldVersion(a, k), HeldVersion(b, k)) && !Refuses(b, k, nb(k));
            Build(Absorb(b, a, Pushes(a, b), nb), k) == if pushed then Build(a, k) else Build(b, k)
  {
    HalfPairedPullsAt(a, b, ns, k);
    AbsorbAt(b, a, Pushes(a, b), nb, k);
    hide Pushes, Absorb;
    if StrictlyNewer(HeldVersion(a, k), HeldVersion(b, k)) {
      AcceptsAt(b, a, k, nb(k));
    } else if Build(a, k).Some? {
      BuildKey(a, k);
      assert !Accepts(b, Build(a, k).value, nb(k));
    }
  }

  /** A record that outlived its origin's knowledge of it: the origin collected the deletion. */
  predicate Ghost(a: Node, b: Node, k: Key) {
    || (k.origin == a.id && Build(a, k).None? && Build(b, k).Some?)
    || (k.origin == b.id && Build(b, k).None? && Build(a, k).Some?)
  }

  /** In a reachable state the owner of a key is behind another node only on ghosts. */
  lemma OwnerBehindOnlyOnGhosts(s: Cluster, x: string, y: string, k: Key)
    requires Inv(s) && x in s.nodes && y in s.nodes && x != y && k.origin == x
    requires StrictlyNewer(HeldVersion(s.nodes[y], k), HeldVersion(s.nodes[x], k))
    ensures Build(s.nodes[x], k).None?
  {
    if Build(s.nodes[x], k).Some? { ReplicaNotAhead(s, x, y, k); }
  }

  /** Over runs: an owner is behind a replica only on a key whose deletion it has collected. */
  lemma OwnerBehindCollected(cfg: Config, run: seq<Cluster>, events: seq<Event>, i: nat, y: string, k: Key)
    requires IsRun(cfg, run, events) && i < |run| && k.origin in run[i].nodes && y in run[i].nodes && k.origin != y
    requires StrictlyNewer(HeldVersion(run[i].nodes[y], k), HeldVersion(run[i].nodes[k.origin], k))
    ensures Build(run[i].nodes[k.origin], k).None?
    ensures exists j: nat :: j < i && CollectedAt(run, events, j, k)
  {
    RunInv(cfg, run, events, i);
    OwnerBehindOnlyOnGhosts(run[i], k.origin, y, k);
    BuiltIsMinted(run[i].nodes[y], run[i].minted, k);
    LostByCollect(cfg, run, events, i, Build(run[i].nodes[y], k).value);
    hide IsRun, Inv, CollectedAt;
  }

  lemma InvWellFormed(s: Cluster, x: string)
    requires Inv(s) && x in s.nodes
    ensures WellFormed(s.nodes[x]) && s.nodes[x].id == x
  {
  }

  lemma EqualVersionsEqualEnvelopes(s: Cluster, x: string, y: string, k: Key)
    requires Inv(s) && x in s.nodes && y in s.nodes
    requires HeldVersion(s.nodes[x], k) == HeldVersion(s.nodes[y], k)
    ensures Build(s.nodes[x], k) == Build(s.nodes[y], k)
  {
    hide OwnInv, SuppressionInv, MintInv, OverlayInv;
    if Build(s.nodes[x], k).Some? {
      BuiltIsMinted(s.nodes[x], s.minted, k);
      BuiltIsMinted(s.nodes[y], s.minted, k);
    }
  }

  /**
   * In any reachable state, one exchange makes two nodes hold the same envelope,
   * the newest of the two, for every shared key whose origin neither side
   * suppresses, ghosts excepted.
   */
  lemma ReachableExchangeConverges(s: Cluster, x: string, y: string, ns: set<string>, na: Readings, nb: Readings, hb: real, k: Key)
    requires Inv(s) && x in s.nodes && y in s.nodes
    requires Paired(s.nodes[x], s.nodes[y], ns) && k.dataset in ns
    requires !Suppressed(s.nodes[x], k.origin, na(k)) && !Suppressed(s.nodes[y], k.origin, nb(k))
    requires !Ghost(s.nodes[x], s.nodes[y], k)
    ensures var a, b := s.nodes[x], s.nodes[y];
      && Build(Initiator(a, b, na), k) == Build(Responder(a, b, nb, hb), k)
      && HeldVersion(Initiator(a, b, na), k) == Latest(HeldVersion(a, k), HeldVersion(b, k))
  {
    var a, b := s.nodes[x], s.nodes[y];
    InvWellFormed(s, x);
    InvWellFormed(s, y);
    ExchangeAt(a, b, ns, na, nb, hb, k);
    ExchangeConverges(a, b, ns, na, nb, hb, k);
    var va, vb := HeldVersion(a, k), HeldVersion(b, k);
    if va == vb {
      EqualVersionsEqualEnvelopes(s, x, y, k);
    } else if StrictlyNewer(vb, va) {
      if k.origin == x { OwnerBehindOnlyOnGhosts(s, x, y, k); }
      NotBothNewer(va, vb);
    } else {
      EitherNewer(va, vb);
      if k.origin == y { OwnerBehindOnlyOnGhosts(s, y, x, k); }
    }
  }

  lemma NotBothNewer(va: Option<Version>, vb: Option<Version>)
    requires StrictlyNewer(vb, va)
    ensures !StrictlyNewer(va, vb)
  {
    if va.Some? { VersionAsymmetric(va.value, vb.value); }
  }

  lemma EitherNewer(va: Option<Version>, vb: Option<Version>)
    requires va != vb
    ensures StrictlyNewer(va, vb) || StrictlyNewer(vb, va)
  {
    if va.Some? && vb.Some? { VersionTotal(va.value, vb.value); }
  }

  lemma NothingAbsorbed(to: Node, from: Node, keys: set<Key>, at: Readings)
    requires Transferred(to, from, keys, at) == {}
    ensures Absorb(to, from, keys, at) == to
  {
  }

  lemma StillPaired(a: Node, b: Node, ns: set<string>, na: Readings, nb: Readings, hb: real)
    requires Paired(a, b, ns)
    ensures Paired(Initiator(a, b, na), Responder(a, b, nb, hb), ns)
  {
  }

  /** After an exchange a side is still behind on a key exactly when it was and refused the origin. */
  lemma Settled(a: Node, b: Node, ns: set<string>, na: Readings, nb: Readings, hb: real, k: Key)
    requires WellFormed(a) && WellFormed(b) && Paired(a, b, ns) && k.dataset in ns
    ensures var a', b' := Initiator(a, b, na), Responder(a, b, nb, hb);
      && (StrictlyNewer(HeldVersion(b', k), HeldVersion(a', k)) <==> StrictlyNewer(HeldVersion(b, k), HeldVersion(a, k)) && Refuses(a, k, na(k)))
      && (StrictlyNewer(HeldVersion(a', k), HeldVersion(b', k)) <==> StrictlyNewer(HeldVersion(a, k), HeldVersion(b, k)) && Refuses(b, k, nb(k)))
  {
    ExchangeAt(a, b, ns, na, nb, hb, k);
    var va, vb := HeldVersion(a, k), HeldVersion(b, k);
    if StrictlyNewer(va, vb) { NotBothNewer(vb, va); }
    if StrictlyNewer(vb, va) { NotBothNewer(va, vb); }
    if va.Some? { VersionIrreflexive(va.value); }
    if vb.Some? { VersionIrreflexive(vb.value); }
  }

  lemma SameRefusals(a: Node, b: Node, na: Readings, nb: Readings, hb: real, k: Key, t: real)
    ensures Refuses(Initiator(a, b, na), k, t) == Refuses(a, k, t)
    ensures Refuses(Responder(a, b, nb, hb), k, t) == Refuses(b, k, t)
  {
  }

  /**
   * What a second exchange moves, at whatever later or earlier readings of the two clocks:
   * exactly the keys a side was behind on whose origin it suppressed then and does not now.
   */
  lemma SecondExchangeAt(a: Node, b: Node, ns: set<string>, na: Readings, nb: Readings, hb: real, na2: Readings, nb2: Readings, hb2: real, k: Key)
    requires WellFormed(a) && WellFormed(b) && Paired(a, b, ns)
    ensures var a', b' := Initiator(a, b, na), Responder(a, b, nb, hb);
      && (k in Transferred(a', b', Pulls(a', b'), na2) <==>
            k.dataset in ns && StrictlyNewer(HeldVersion(b, k), HeldVersion(a, k)) && Refuses(a, k, na(k)) && !Refuses(a, k, na2(k)))
      && (k in Transferred(b', a', Pushes(a', b'), nb2) <==>
            k.dataset in ns && StrictlyNewer(HeldVersion(a, k), HeldVersion(b, k)) && Refuses(b, k, nb(k)) && !Refuses(b, k, nb2(k)))
  {
    var a', b' := Initiator(a, b, na), Responder(a, b, nb, hb);
    StillPaired(a, b, ns, na, nb, hb);
    ExchangeAt(a, b, ns, na, nb, hb, k);
    PullsAt(a', b', ns, k);
    SameRefusals(a, b, na, nb, hb, k, na2(k));
    SameRefusals(a, b, na, nb, hb, k, nb2(k));
    if k.dataset in ns { Settled(a, b, ns, na, nb, hb, k); }
    hide Initiator, Responder, Pulls, Pushes, HeldVersion, Paired, Refuses, WellFormed, Accepts, Build;
    if k in Pulls(a', b') { AcceptsAt(a', b', k, na2(k)); assert Build(b', k).Some? by { SomeBuilt(b', a', k); } }
    if k in Pushes(a', b') { AcceptsAt(b', a', k, nb2(k)); assert Build(a', k).Some? by { SomeBuilt(a', b', k); } }
  }

  lemma SomeBuilt(n: Node, m: Node, k: Key)
    requires StrictlyNewer(HeldVersion(n, k), HeldVersion(m, k))
    ensures Build(n, k).Some?
  {
  }

  /**
   * So a second exchange, at whatever instants, moves nothing in either direction as long as
   * no cooldown that was running at the first has ended, in particular when none was running.
   */
  lemma SecondExchangeIdle(a: Node, b: Node, ns: set<string>, na: Readings, nb: Readings, hb: real, na2: Readings, nb2: Readings, hb2: real)
    requires WellFormed(a) && WellFormed(b) && Paired(a, b, ns)
    requires forall k: Key :: Suppressed(a, k.origin, na(k)) ==> Suppressed(a, k.origin, na2(k))
    requires forall k: Key :: Suppressed(b, k.origin, nb(k)) ==> Suppressed(b, k.origin, nb2(k))
    ensures var a', b' := Initiator(a, b, na), Responder(a, b, nb, hb);
      && Transferred(a', b', Pulls(a', b'), na2) == {}
      && Transferred(b', a', Pushes(a', b'), nb2) == {}
      && Initiator(a', b', na2) == a' && Responder(a', b', nb2, hb2) == Touch(b', a.id, hb2)
  {
    var a', b' := Initiator(a, b, na), Responder(a, b, nb, hb);
    assert a'.id == a.id;
    forall k
      ensures k !in Transferred(a', b', Pulls(a', b'), na2)
      ensures k !in Transferred(b', a', Pushes(a', b'), nb2)
    {
      SecondExchangeAt(a, b, ns, na, nb, hb, na2, nb2, hb2, k);
      assert Refuses(a, k, na(k)) ==> Refuses(a, k, na2(k));
      assert Refuses(b, k, nb(k)) ==> Refuses(b, k, nb2(k));
    }
    hide Transferred, Pulls, Pushes;
    NothingAbsorbed(a', b', Pulls(a', b'), na2);
    NothingAbsorbed(b', a', Pushes(a', b'), nb2);
  }

  // ---- the exchange inside a run ------------------------------------------------------------

  lemma AbsorbKeepsInv(to: Node, from: Node, keys: set<Key>, minted: set<Envelope>, now: real, other: real)
    requires NodeInv(to, minted, now) && NodeInv(from, minted, other)
    ensures NodeInv(Absorb(to, from, keys, Still(now)), minted, now)
  {
    var after := Absorb(to, from, keys, Still(now));
    forall k | k in Transferred(to, from, keys, Still(now))
      ensures Build(from, k).value in minted && Build(from, k).value.key == k
    {
      BuiltIsMinted(from, minted, k);
    }
    assert OverlayInv(after, minted);
    forall k: Key | k.origin == to.id ensures Build(after, k) == Build(to, k) { }
    OverlayOnly(to, after);
    OwnBuildsKept(to, after, minted);
  }

  lemma OwnBuildsKept(n: Node, m: Node, minted: set<Envelope>)
    requires MintInv(n, minted) && m.id == n.id && m.disk == n.disk
    requires forall k: Key | k.origin == n.id :: Build(m, k) == Build(n, k)
    ensures MintInv(m, minted)
  {
    hide Build;
    forall lk | Build(m, Global(m, lk)).Some? ensures Build(m, Global(m, lk)).value in minted {
      assert Global(m, lk) == Global(n, lk);
    }
  }

  /** The state after `x` has reconciled with `y`. */
  ghost function AfterExchange(s: Cluster, x: string, y: string): Cluster
    requires x in s.nodes && y in s.nodes && s.nodes.Keys == s.clocks.Keys
  {
    s.(nodes := s.nodes[x := Initiator(s.nodes[x], s.nodes[y], Still(s.clocks[x]))]
                       [y := Responder(s.nodes[x], s.nodes[y], Still(s.clocks[y]), s.clocks[y])])
  }

  /** An exchange keeps the invariant of the replication system, so runs may interleave it with every other event. */
  lemma ExchangeKeepsInv(s: Cluster, x: string, y: string)
    requires Inv(s) && x in s.nodes && y in s.nodes && x != y
    ensures Inv(AfterExchange(s, x, y))
  {
    SidesKeepInv(s.nodes[x], s.nodes[y], s.minted, s.clocks[x], s.clocks[y]);
    hide NodeInv, Functional, Initiator, Responder, Inv;
    ReplaceKeepsInv(s, x, Initiator(s.nodes[x], s.nodes[y], Still(s.clocks[x])));
    ReplaceKeepsInv(s.(nodes := s.nodes[x := Initiator(s.nodes[x], s.nodes[y], Still(s.clocks[x]))]), y,
                    Responder(s.nodes[x], s.nodes[y], Still(s.clocks[y]), s.clocks[y]));
  }

  lemma ReplaceKeepsInv(s: Cluster, x: string, n: Node)
    requires Inv(s) && x in s.nodes && n.id == x && NodeInv(n, s.minted, s.clocks[x])
    ensures Inv(s.(nodes := s.nodes[x := n]))
  {
    hide NodeInv, Functional;
  }

  lemma SidesKeepInv(a: Node, b: Node, minted: set<Envelope>, na: real, nb: real)
    requires NodeInv(a, minted, na) && NodeInv(b, minted, nb)
    ensures NodeInv(Initiator(a, b, Still(na)), minted, na) && Initiator(a, b, Still(na)).id == a.id
    ensures NodeInv(Responder(a, b, Still(nb), nb), minted, nb) && Responder(a, b, Still(nb), nb).id == b.id
  {
    hide NodeInv, Absorb;
    AbsorbKeepsInv(a, b, Pulls(a, b), minted, na, nb);
    AbsorbKeepsInv(b, a, Pushes(a, b), minted, nb, na);
    AbsorbKeepsId(a, b, Pulls(a, b), Still(na));
    AbsorbKeepsId(b, a, Pushes(a, b), Still(nb));
    TouchKeepsInv(Absorb(b, a, Pushes(a, b), Still(nb)), a.id, minted, nb);
  }

  lemma AbsorbKeepsId(to: Node, from: Node, keys: set<Key>, at: Readings)
    ensures Absorb(to, from, keys, at).id == to.id
  {
  }

  lemma TouchKeepsInv(n: Node, peer: string, minted: set<Envelope>, now: real)
    requires NodeInv(n, minted, now)
    ensures NodeInv(Touch(n, peer, now), minted, now) && Touch(n, peer, now).id == n.id
  {
    var m := Touch(n, peer, now);
    forall k ensures Build(m, k) == Build(n, k) { TouchBuild(n, peer, now, k); }
    OverlayOnly(n, m);
    OwnBuildsKept(n, m, minted);
  }

  /**
   * An empty negotiated set is not "nothing to share": the initiator indexes
   * every dataset, the responder serves none, so everything the initiator holds
   * is pushed and, on an open cluster, stored.
   */
  lemma EmptyNegotiationPushesEverything(a: Node, b: Node, nb: Readings, hb: real, k: Key)
    requires WellFormed(a) && WellFormed(b) && a.id != b.id
    requires a.id in b.sessions && b.sessions[a.id].namespaces == {} && Negotiated(a, b.id) == {}
    requires Build(a, k).Some? && !Refuses(b, k, nb(k))
    ensures k in Pushes(a, b)
    ensures var after := Responder(a, b, nb, hb).foreign;
      k in after && NotOlder(after[k].version, Build(a, k).value.version)
  {
    IndexAt(a, {}, k);
    BuildKey(a, k);
    assert Served(b, a.id, {}) == map[];
    assert k in Pushes(a, b);
    hide Pushes, Served, FullIndex, Negotiated, AllowedFor;
    AbsorbAt(b, a, Pushes(a, b), nb, k);
    var e := Build(a, k).value;
    if !Accepts(b, e, nb(k)) { VersionTotal(e.version, b.foreign[k].version); }
  }
}
