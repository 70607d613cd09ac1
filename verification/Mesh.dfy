/**
 * Anti-entropy over the whole mesh: what one round of exchanges between all pairs
 * of nodes achieves (cluster/store.py:597-648).
 */
module Mesh {
  import opened Order
  import opened Envelopes
  import opened NodeState
  import opened ClusterSystem
  import opened Reconciliation

  type Pairs = seq<(string, string)>

  ghost predicate PairsIn(s: Cluster, pairs: Pairs) {
    s.nodes.Keys == s.clocks.Keys && forall p | p in pairs :: p.0 in s.nodes && p.1 in s.nodes && p.0 != p.1
  }

  /** The exchanges of a list of pairs, one after the other. */
  ghost function ExchangeAll(s: Cluster, pairs: Pairs): Cluster
    requires PairsIn(s, pairs)
    decreases |pairs|
  {
    if pairs == [] then s else ExchangeAll(AfterExchange(s, pairs[0].0, pairs[0].1), pairs[1..])
  }

  /** The two sessions agree, and share the dataset of the key. */
  predicate Linked(a: Node, b: Node, k: Key) {
    && b.id in a.sessions && a.id in b.sessions
    && a.sessions[b.id].namespaces == b.sessions[a.id].namespaces && k.dataset in a.sessions[b.id].namespaces
  }

  /** All nodes share the key, nobody suppresses its origin, and it is no ghost: its origin, if it is there, tracks it or nobody holds it. */
  ghost predicate Calm(s: Cluster, k: Key) {
    && (forall x, y | x in s.nodes && y in s.nodes && x != y :: Linked(s.nodes[x], s.nodes[y], k))
    && (forall x | x in s.nodes && x in s.clocks :: !Suppressed(s.nodes[x], k.origin, s.clocks[x]))
    && (k.origin in s.nodes && Build(s.nodes[k.origin], k).None? ==> forall x | x in s.nodes :: Build(s.nodes[x], k).None?)
  }

  /** No newer than `v`, where nothing is oldest. */
  predicate AtMost(u: Option<Version>, v: Option<Version>) { u.Some? ==> v.Some? && NotOlder(v.value, u.value) }

  lemma LatestOfTop(u: Option<Version>, v: Option<Version>)
    requires AtMost(u, v)
    ensures Latest(u, v) == v && Latest(v, u) == v
  {
    if u.Some? {
      VersionIrreflexive(u.value);
      if u != v { VersionAsymmetric(u.value, v.value); }
    }
  }

  lemma AtMostLatest(u: Option<Version>, w: Option<Version>, v: Option<Version>)
    requires AtMost(u, v) && AtMost(w, v)
    ensures AtMost(Latest(u, w), v)
  {
  }

  /** What an exchange leaves alone on each side. */
  predicate SameShape(n: Node, m: Node) {
    && m.id == n.id && m.evictedUntil == n.evictedUntil && m.sessions.Keys == n.sessions.Keys
    && forall p | p in n.sessions :: m.sessions[p].namespaces == n.sessions[p].namespaces
  }

  lemma SidesKeepShape(a: Node, b: Node, na: Readings, nb: Readings, hb: real)
    ensures SameShape(a, Initiator(a, b, na)) && SameShape(b, Responder(a, b, nb, hb))
  {
    hide Pulls, Pushes;
  }

  /** `x` and `y` have exchanged: both hold the newer of their two records of `k`, and nobody else changed. */
  ghost predicate Exchanged(s: Cluster, t: Cluster, x: string, y: string, k: Key) {
    && x in s.nodes && y in s.nodes && t.nodes.Keys == s.nodes.Keys && t.clocks == s.clocks
    && (forall z | z in s.nodes :: SameShape(s.nodes[z], t.nodes[z]))
    && (forall z | z in s.nodes && z != x && z != y :: t.nodes[z] == s.nodes[z])
    && Agreed(s.nodes[x], s.nodes[y], t.nodes[x], t.nodes[y], k)
  }

  predicate Agreed(a: Node, b: Node, a': Node, b': Node, k: Key) {
    && Build(a', k) == Build(b', k) && (Build(a', k) == Build(a, k) || Build(a', k) == Build(b, k))
    && HeldVersion(a', k) == HeldVersion(b', k) == Latest(HeldVersion(a, k), HeldVersion(b, k))
  }

  /** The conditions under which an exchange of the two nodes agrees on the key. */
  lemma CalmPair(s: Cluster, x: string, y: string, k: Key)
    requires Inv(s) && Calm(s, k) && x in s.nodes && y in s.nodes && x != y
    ensures var a, b := s.nodes[x], s.nodes[y];
      && WellFormed(a) && WellFormed(b) && a.id == x && b.id == y && x in s.clocks && y in s.clocks
      && y in a.sessions && Paired(a, b, a.sessions[y].namespaces) && k.dataset in a.sessions[y].namespaces
      && !Suppressed(a, k.origin, s.clocks[x]) && !Suppressed(b, k.origin, s.clocks[y]) && !Ghost(a, b, k)
  {
    InvWellFormed(s, x);
    InvWellFormed(s, y);
    assert Linked(s.nodes[x], s.nodes[y], k);
    hide NodeInv, Functional, Build;
  }

  lemma PairAgrees(s: Cluster, x: string, y: string, k: Key)
    requires Inv(s) && Calm(s, k) && x in s.nodes && y in s.nodes && x != y
    ensures var a, b, na, nb := s.nodes[x], s.nodes[y], s.clocks[x], s.clocks[y];
            Agreed(a, b, Initiator(a, b, Still(na)), Responder(a, b, Still(nb), nb), k)
  {
    CalmPair(s, x, y, k);
    var a, b, na, nb := s.nodes[x], s.nodes[y], s.clocks[x], s.clocks[y];
    hide Inv, Calm, Initiator, Responder, Build, Ghost, WellFormed, Paired, Suppressed, Latest, HeldVersion;
    var ns := a.sessions[y].namespaces;
    ReachableExchangeConverges(s, x, y, ns, Still(na), Still(nb), nb, k);
    ExchangeAt(a, b, ns, Still(na), Still(nb), nb, k);
  }

  lemma ExchangeInMesh(s: Cluster, x: string, y: string, k: Key)
    requires Inv(s) && Calm(s, k) && x in s.nodes && y in s.nodes && x != y
    ensures Inv(AfterExchange(s, x, y)) && Exchanged(s, AfterExchange(s, x, y), x, y, k)
  {
    ExchangeKeepsInv(s, x, y);
    PairAgrees(s, x, y, k);
    hide Inv, Initiator, Responder, SameShape, Agreed, Calm, Exchanged;
    var a, b, na, nb := s.nodes[x], s.nodes[y], s.clocks[x], s.clocks[y];
    SidesKeepShape(a, b, Still(na), Still(nb), nb);
    BothReplaced(s, x, y, Initiator(a, b, Still(na)), Responder(a, b, Still(nb), nb), k);
  }

  lemma BothReplaced(s: Cluster, x: string, y: string, a': Node, b': Node, k: Key)
    requires x in s.nodes && y in s.nodes && x != y
    requires SameShape(s.nodes[x], a') && SameShape(s.nodes[y], b') && Agreed(s.nodes[x], s.nodes[y], a', b', k)
    ensures Exchanged(s, s.(nodes := s.nodes[x := a'][y := b']), x, y, k)
  {
    assert forall n: Node :: SameShape(n, n);
    hide SameShape, Agreed;
  }

  lemma CalmStays(s: Cluster, t: Cluster, x: string, y: string, k: Key)
    requires Calm(s, k) && Exchanged(s, t, x, y, k)
    requires forall z | z in s.nodes :: s.nodes[z].id == z
    ensures Calm(t, k)
  {
    hide Build, HeldVersion, Latest;
    forall u, v | u in t.nodes && v in t.nodes && u != v ensures Linked(t.nodes[u], t.nodes[v], k) {
      assert Linked(s.nodes[u], s.nodes[v], k);
      assert SameShape(s.nodes[u], t.nodes[u]) && SameShape(s.nodes[v], t.nodes[v]);
    }
    forall z | z in t.nodes && z in t.clocks ensures !Suppressed(t.nodes[z], k.origin, t.clocks[z]) {
      assert SameShape(s.nodes[z], t.nodes[z]);
    }
    GhostFree(s, t, x, y, k);
  }

  lemma GhostFree(s: Cluster, t: Cluster, x: string, y: string, k: Key)
    requires Calm(s, k) && Exchanged(s, t, x, y, k)
    ensures k.origin in t.nodes && Build(t.nodes[k.origin], k).None? ==> forall z | z in t.nodes :: Build(t.nodes[z], k).None?
  {
    hide Build, Linked, SameShape, Suppressed;
  }

  /** Who holds the newest version after an exchange. */
  function Reached(has: set<string>, x: string, y: string): set<string> {
    if x in has || y in has then has + {x, y} else has
  }

  lemma SpreadStep(s: Cluster, t: Cluster, x: string, y: string, k: Key, v: Option<Version>, has: set<string>)
    requires Exchanged(s, t, x, y, k) && has <= s.nodes.Keys
    requires forall z | z in has :: HeldVersion(s.nodes[z], k) == v
    requires forall z | z in s.nodes :: AtMost(HeldVersion(s.nodes[z], k), v)
    ensures forall z | z in Reached(has, x, y) :: z in t.nodes && HeldVersion(t.nodes[z], k) == v
    ensures forall z | z in t.nodes :: AtMost(HeldVersion(t.nodes[z], k), v)
  {
    hide HeldVersion, Build, Latest, AtMost, SameShape;
    var vx, vy := HeldVersion(s.nodes[x], k), HeldVersion(s.nodes[y], k);
    AtMostLatest(vx, vy, v);
    LatestOfTop(vx, v);
    LatestOfTop(vy, v);
  }

  /** Those that hold the newest version keep it, and every partner of one of them gets it. */
  lemma {:induction false} Spread(s: Cluster, pairs: Pairs, k: Key, h: string, v: Option<Version>, has: set<string>)
    requires Inv(s) && Calm(s, k) && PairsIn(s, pairs) && h in has && has <= s.nodes.Keys
    requires forall z | z in has :: HeldVersion(s.nodes[z], k) == v
    requires forall z | z in s.nodes :: AtMost(HeldVersion(s.nodes[z], k), v)
    ensures var t := ExchangeAll(s, pairs);
      && Inv(t) && t.nodes.Keys == s.nodes.Keys
      && (forall z | z in has :: HeldVersion(t.nodes[z], k) == v)
      && (forall z | z in s.nodes && ((h, z) in pairs || (z, h) in pairs) :: HeldVersion(t.nodes[z], k) == v)
    decreases |pairs|
  {
    hide Inv, Calm, AfterExchange, HeldVersion, Latest, AtMost, Build, SameShape;
    if pairs != [] {
      var x, y, rest := pairs[0].0, pairs[0].1, pairs[1..];
      assert pairs == [(x, y)] + rest;
      var t := AfterExchange(s, x, y);
      ExchangeInMesh(s, x, y, k);
      forall z | z in s.nodes ensures s.nodes[z].id == z { InvWellFormed(s, z); }
      CalmStays(s, t, x, y, k);
      SpreadStep(s, t, x, y, k, v, has);
      Spread(t, rest, k, h, v, Reached(has, x, y));
    }
  }

  /** Somebody holds the newest version there is, or nobody holds any. */
  lemma {:induction false} NewestHolder(s: Cluster, ids: set<string>, k: Key) returns (h: string)
    requires ids != {} && ids <= s.nodes.Keys
    ensures h in ids && forall z | z in ids :: AtMost(HeldVersion(s.nodes[z], k), HeldVersion(s.nodes[h], k))
  {
    hide HeldVersion;
    var z :| z in ids;
    if ids == {z} {
      h := z;
    } else {
      var g := NewestHolder(s, ids - {z}, k);
      var u, v := HeldVersion(s.nodes[z], k), HeldVersion(s.nodes[g], k);
      h := if AtMost(u, v) then g else z;
      if u.Some? && v.Some? { VersionTotal(u.value, v.value); }
      forall w | w in ids ensures AtMost(HeldVersion(s.nodes[w], k), HeldVersion(s.nodes[h], k)) {
        if w != z { AtMostTransitive(HeldVersion(s.nodes[w], k), v, HeldVersion(s.nodes[h], k)); }
      }
    }
  }

  lemma AtMostTransitive(a: Option<Version>, b: Option<Version>, c: Option<Version>)
    requires AtMost(a, b) && AtMost(b, c)
    ensures AtMost(a, c)
  {
    if a.Some? { NotOlderTransitive(c.value, b.value, a.value); }
  }

  /**
   * One exchange of every pair, in any order and direction, brings the whole mesh into
   * agreement: in a reachable state without suppression all nodes then hold the same
   * envelope, the newest anybody held, for every shared key that is no ghost.
   */
  lemma MeshConverges(s: Cluster, pairs: Pairs, k: Key) returns (h: string)
    requires Inv(s) && Calm(s, k) && PairsIn(s, pairs) && s.nodes != map[]
    requires forall x, y | x in s.nodes && y in s.nodes && x != y :: (x, y) in pairs || (y, x) in pairs
    ensures h in s.nodes && forall z | z in s.nodes :: AtMost(HeldVersion(s.nodes[z], k), HeldVersion(s.nodes[h], k))
    ensures var t := ExchangeAll(s, pairs);
      && t.nodes.Keys == s.nodes.Keys
      && (forall x | x in t.nodes :: HeldVersion(t.nodes[x], k) == HeldVersion(s.nodes[h], k))
      && (forall x, y | x in t.nodes && y in t.nodes :: Build(t.nodes[x], k) == Build(t.nodes[y], k))
  {
    hide Inv, Calm, ExchangeAll, HeldVersion, AtMost, Build;
    h := NewestHolder(s, s.nodes.Keys, k);
    var v, t := HeldVersion(s.nodes[h], k), ExchangeAll(s, pairs);
    Spread(s, pairs, k, h, v, {h});
    forall x | x in t.nodes ensures HeldVersion(t.nodes[x], k) == v {
      assert x == h || (h, x) in pairs || (x, h) in pairs;
    }
    forall x, y | x in t.nodes && y in t.nodes ensures Build(t.nodes[x], k) == Build(t.nodes[y], k) {
      EqualVersionsEqualEnvelopes(t, x, y, k);
    }
  }
}
