/**
 * The overlay as a last-writer-wins register: what a node holds after any
 * deliveries depends only on which envelopes it admitted, not on their order,
 * grouping or repetition (cluster/store.py `apply_inbound`, `serve_updates`).
 */
module Delivery {
  import opened Order
  import opened Envelopes
  import opened NodeState

  /** An envelope and the reading of the liveness clock when `apply_inbound` looks at it. */
  datatype Arrival = Arrival(env: Envelope, at: real)

  /** `apply_inbound` on one envelope after the other, each at its own time. */
  function DeliverAll(n: Node, batch: seq<Arrival>): Node
    decreases |batch|
  {
    if batch == [] then n
    else DeliverAll(Receive(n, batch[0].env, batch[0].at), batch[1..])
  }

  /** Neither the node's own record nor one whose origin is suppressed when it arrives. */
  predicate Admits(n: Node, a: Arrival) { a.env.key.origin != n.id && !Suppressed(n, a.env.key.origin, a.at) }

  function Came(n: Node, a: Arrival): seq<Envelope> { if Admits(n, a) then [a.env] else [] }

  /** The envelopes that get past the first two guards, in order of arrival. */
  function Admitted(n: Node, batch: seq<Arrival>): seq<Envelope> {
    if batch == [] then [] else Came(n, batch[0]) + Admitted(n, batch[1..])
  }

  ghost predicate KeysMatch(n: Node) {
    forall k | k in n.foreign :: n.foreign[k].key == k
  }

  /** `held` is a newest envelope for `k` among `before` and `batch`. */
  ghost predicate IsLatest(held: Envelope, k: Key, before: map<Key, Envelope>, batch: seq<Envelope>) {
    && held.key == k
    && (held in batch || (k in before && held == before[k]))
    && (k in before ==> NotOlder(held.version, before[k].version))
    && forall e | e in batch && e.key == k :: NotOlder(held.version, e.version)
  }

  /** Deliveries change the overlay only, so what is suppressed stays so. */
  lemma {:induction false} DeliverTouchesOverlayOnly(n: Node, batch: seq<Arrival>)
    ensures DeliverAll(n, batch) == n.(foreign := DeliverAll(n, batch).foreign)
    ensures KeysMatch(n) ==> KeysMatch(DeliverAll(n, batch))
    decreases |batch|
  {
    if batch != [] { DeliverTouchesOverlayOnly(Receive(n, batch[0].env, batch[0].at), batch[1..]); }
  }

  lemma {:induction false} DeliverAppend(n: Node, a: seq<Arrival>, b: seq<Arrival>)
    ensures DeliverAll(n, a + b) == DeliverAll(DeliverAll(n, a), b)
    decreases |a|
  {
    if a == [] {
      assert a + b == b;
    } else {
      assert (a + b)[1..] == a[1..] + b;
      DeliverAppend(Receive(n, a[0].env, a[0].at), a[1..], b);
    }
  }

  lemma {:induction false} AdmittedSame(n: Node, m: Node, batch: seq<Arrival>)
    requires m.id == n.id && m.evictedUntil == n.evictedUntil
    ensures Admitted(m, batch) == Admitted(n, batch)
  {
    if batch != [] { AdmittedSame(n, m, batch[1..]); }
  }

  lemma {:induction false} AdmittedFrom(n: Node, batch: seq<Arrival>, e: Envelope)
    ensures e in Admitted(n, batch) <==> exists a :: a in batch && a.env == e && Admits(n, a)
  {
    if batch != [] {
      AdmittedFrom(n, batch[1..], e);
      assert batch == [batch[0]] + batch[1..];
    }
  }

  /** One arrival makes the overlay hold the newest of what was there and, if admitted, what came. */
  lemma ReceiveAt(n: Node, a: Arrival, k: Key)
    requires KeysMatch(n)
    ensures var came, f := Came(n, a), Receive(n, a.env, a.at).foreign;
      && (k in f <==> k in n.foreign || exists e :: e in came && e.key == k)
      && (k in f ==> IsLatest(f[k], k, n.foreign, came))
  {
    if a.env.key in n.foreign { VersionTotal(a.env.version, n.foreign[a.env.key].version); }
  }

  lemma LatestStep(held: Envelope, k: Key, before: map<Key, Envelope>, mid: map<Key, Envelope>, came: seq<Envelope>, rest: seq<Envelope>)
    requires k in before || (exists e :: e in came && e.key == k) ==> k in mid
    requires k in mid ==> IsLatest(mid[k], k, before, came)
    requires IsLatest(held, k, mid, rest)
    ensures IsLatest(held, k, before, came + rest)
  {
    if k in mid {
      if k in before { NotOlderTransitive(held.version, mid[k].version, before[k].version); }
      forall e | e in came && e.key == k ensures NotOlder(held.version, e.version) {
        NotOlderTransitive(held.version, mid[k].version, e.version);
      }
    }
  }

  /** After any deliveries the overlay holds, for each key, the newest of what was there and what was admitted. */
  lemma {:induction false} OverlayIsLatest(n: Node, batch: seq<Arrival>, k: Key)
    requires KeysMatch(n)
    ensures var after, came := DeliverAll(n, batch).foreign, Admitted(n, batch);
      && (k in after <==> k in n.foreign || exists e :: e in came && e.key == k)
      && (k in after ==> IsLatest(after[k], k, n.foreign, came))
    decreases |batch|
  {
    if batch != [] {
      var a, rest := batch[0], batch[1..];
      var mid := Receive(n, a.env, a.at);
      ReceiveAt(n, a, k);
      OverlayIsLatest(mid, rest, k);
      AdmittedSame(n, mid, rest);
      hide Receive, Came;
      if k in DeliverAll(mid, rest).foreign {
        LatestStep(DeliverAll(mid, rest).foreign[k], k, n.foreign, mid.foreign, Came(n, a), Admitted(n, rest));
      }
    }
  }

  /** The node's own records and those of origins that are suppressed throughout are untouched. */
  lemma BlockedUntouched(n: Node, batch: seq<Arrival>, k: Key)
    requires KeysMatch(n) && forall a | a in batch && a.env.key == k :: !Admits(n, a)
    ensures k in DeliverAll(n, batch).foreign <==> k in n.foreign
    ensures k in n.foreign ==> DeliverAll(n, batch).foreign[k] == n.foreign[k]
  {
    forall e: Envelope | e.key == k ensures e !in Admitted(n, batch) { AdmittedFrom(n, batch, e); }
    OverlayIsLatest(n, batch, k);
  }

  /** Key and version determine the envelope, among what is held and what is admitted. */
  ghost predicate Consistent(n: Node, came: seq<Envelope>) {
    && (forall e, f | e in came && f in came && e.key == f.key && e.version == f.version :: e == f)
    && (forall e | e in came && e.key in n.foreign && e.version == n.foreign[e.key].version :: e == n.foreign[e.key])
  }

  lemma LatestUnique(n: Node, a: seq<Envelope>, b: seq<Envelope>, k: Key, x: Envelope, y: Envelope)
    requires Consistent(n, a) && (forall e :: e in a <==> e in b)
    requires IsLatest(x, k, n.foreign, a) && IsLatest(y, k, n.foreign, b)
    ensures x == y
  {
    assert NotOlder(x.version, y.version) && NotOlder(y.version, x.version);
    if x.version != y.version { VersionAsymmetric(x.version, y.version); }
  }

  /**
   * Order, instants, grouping and duplication do not matter: two deliveries that admit
   * the same envelopes, each at whatever times, leave the same node.
   */
  lemma DeliveryOrderIrrelevant(n: Node, a: seq<Arrival>, b: seq<Arrival>)
    requires KeysMatch(n) && Consistent(n, Admitted(n, a))
    requires forall e :: e in Admitted(n, a) <==> e in Admitted(n, b)
    ensures DeliverAll(n, a) == DeliverAll(n, b)
  {
    var x, y := DeliverAll(n, a).foreign, DeliverAll(n, b).foreign;
    forall k
      ensures k in x <==> k in y
      ensures k in x ==> x[k] == y[k]
    {
      OverlayIsLatest(n, a, k);
      OverlayIsLatest(n, b, k);
      if k in x { LatestUnique(n, Admitted(n, a), Admitted(n, b), k, x[k], y[k]); }
    }
    assert x == y;
    DeliverTouchesOverlayOnly(n, a);
    DeliverTouchesOverlayOnly(n, b);
  }

  /** Every origin is suppressed at all of the instants at which its envelopes arrive, or at none. */
  ghost predicate Steady(n: Node, s: seq<Arrival>) {
    forall x, y | x in s && y in s && x.env.key.origin == y.env.key.origin :: Admits(n, x) == Admits(n, y)
  }

  ghost predicate Carries(s: seq<Arrival>, e: Envelope) { exists a :: a in s && a.env == e }

  lemma SteadyAdmits(n: Node, a: seq<Arrival>, b: seq<Arrival>, e: Envelope)
    requires Steady(n, a + b) && e in Admitted(n, a) && Carries(b, e)
    ensures e in Admitted(n, b)
  {
    hide Admits;
    AdmittedFrom(n, a, e);
    AdmittedFrom(n, b, e);
    var x :| x in a && x.env == e && Admits(n, x);
    var y :| y in b && y.env == e;
    assert x in a + b && y in a + b;
  }

  /** In particular the same envelopes in any other order, at any other instants that do not cross a cooldown's end. */
  lemma SameEnvelopesSameResult(n: Node, a: seq<Arrival>, b: seq<Arrival>)
    requires KeysMatch(n) && Consistent(n, Admitted(n, a)) && Steady(n, a + b)
    requires forall e :: Carries(a, e) <==> Carries(b, e)
    ensures DeliverAll(n, a) == DeliverAll(n, b)
  {
    assert Steady(n, b + a);
    forall e ensures e in Admitted(n, a) <==> e in Admitted(n, b) {
      AdmittedFrom(n, a, e);
      AdmittedFrom(n, b, e);
      hide Steady, Admits;
      if e in Admitted(n, a) { SteadyAdmits(n, a, b, e); }
      if e in Admitted(n, b) { SteadyAdmits(n, b, a, e); }
    }
    DeliveryOrderIrrelevant(n, a, b);
  }

  /** What a node holds under a key is never replaced by something older. */
  lemma {:induction false} HeldNeverOlder(n: Node, batch: seq<Arrival>, k: Key)
    requires k in n.foreign
    ensures k in DeliverAll(n, batch).foreign && NotOlder(DeliverAll(n, batch).foreign[k].version, n.foreign[k].version)
    decreases |batch|
  {
    if batch != [] {
      var mid := Receive(n, batch[0].env, batch[0].at);
      HeldNeverOlder(mid, batch[1..], k);
      NotOlderTransitive(DeliverAll(mid, batch[1..]).foreign[k].version, mid.foreign[k].version, n.foreign[k].version);
    }
  }

  /** Whatever is admitted leaves a record under its key that is at least as new. */
  lemma {:induction false} AdmittedIsHeld(n: Node, batch: seq<Arrival>, a: Arrival)
    requires a in batch && Admits(n, a)
    ensures a.env.key in DeliverAll(n, batch).foreign
    ensures NotOlder(DeliverAll(n, batch).foreign[a.env.key].version, a.env.version)
    decreases |batch|
  {
    var k, mid := a.env.key, Receive(n, batch[0].env, batch[0].at);
    if a == batch[0] {
      if k in n.foreign { VersionTotal(a.env.version, n.foreign[k].version); }
      HeldNeverOlder(mid, batch[1..], k);
      NotOlderTransitive(DeliverAll(mid, batch[1..]).foreign[k].version, mid.foreign[k].version, a.env.version);
    } else {
      AdmittedIsHeld(mid, batch[1..], a);
    }
  }

  /** A held record, a deletion in particular, survives all deliveries that admit nothing newer for its key. */
  lemma HeldSurvivesOlder(n: Node, batch: seq<Arrival>, k: Key)
    requires KeysMatch(n) && Consistent(n, Admitted(n, batch)) && k in n.foreign
    requires forall a | a in batch && a.env.key == k && Admits(n, a) :: NotOlder(n.foreign[k].version, a.env.version)
    ensures k in DeliverAll(n, batch).foreign
    ensures DeliverAll(n, batch).foreign[k] == n.foreign[k]
  {
    OverlayIsLatest(n, batch, k);
    var held := DeliverAll(n, batch).foreign[k];
    if held != n.foreign[k] {
      AdmittedFrom(n, batch, held);
      assert NotOlder(n.foreign[k].version, held.version);
      VersionAsymmetric(n.foreign[k].version, held.version);
    }
  }
}
