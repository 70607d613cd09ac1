/** The TTL lease state machine shared by heartbeat and cluster (common/lease.py). */
module Leases {
  import opened Order

  // ---- the transitions, on values ------------------------------------------------------

  datatype Lease = Lease(ttl: int, grace: int, expiresAt: real, graceDeadline: real, lastRenewAt: real, healthy: bool)

  function NewLease(ttl: int, grace: int, expired: bool, now: real): Lease {
    if expired then Lease(ttl, grace, now, now + grace as real, now, false)
    else Lease(ttl, grace, now + ttl as real, now + ttl as real + grace as real, now, true)
  }

  function Renewed(l: Lease, now: real): Lease {
    l.(lastRenewAt := now, expiresAt := now + l.ttl as real,
       graceDeadline := now + l.ttl as real + l.grace as real, healthy := true)
  }

  function Revoked(l: Lease, now: real): Lease {
    l.(healthy := false, expiresAt := now, graceDeadline := now + l.grace as real)
  }

  /** Does a sweep turn the lease unhealthy? */
  predicate TurnsUnhealthy(l: Lease, now: real) { l.healthy && now >= l.expiresAt }

  function Flagged(l: Lease, now: real): Lease { if TurnsUnhealthy(l, now) then l.(healthy := false) else l }

  /** Does a sweep delete the lease? */
  predicate Expires(l: Lease, now: real) { !Flagged(l, now).healthy && now >= l.graceDeadline }

  type Table<!K> = map<K, Lease>

  function NewlyUnhealthy<K>(t: Table<K>, now: real): set<K> { set k | k in t && TurnsUnhealthy(t[k], now) }

  function Deleted<K>(t: Table<K>, now: real): set<K> { set k | k in t && Expires(t[k], now) }

  function Swept<K>(t: Table<K>, now: real): Table<K> {
    map k | k in t && !Expires(t[k], now) :: Flagged(t[k], now)
  }

  // ---- sweeping ----------------------------------------------------------------------------

  /** Sweeping twice is sweeping once at the later time: same table, same keys flagged and deleted, none twice. */
  lemma SweepTwice<K>(t: Table<K>, t1: real, t2: real)
    requires t1 <= t2
    ensures Swept(Swept(t, t1), t2) == Swept(t, t2)
    ensures Deleted(t, t1) + Deleted(Swept(t, t1), t2) == Deleted(t, t2)
    ensures Deleted(t, t1) !! Deleted(Swept(t, t1), t2)
    ensures NewlyUnhealthy(t, t1) + NewlyUnhealthy(Swept(t, t1), t2) == NewlyUnhealthy(t, t2)
    ensures NewlyUnhealthy(t, t1) !! NewlyUnhealthy(Swept(t, t1), t2)
  {
  }

  function SweptAll<K>(t: Table<K>, times: seq<real>): Table<K> {
    if times == [] then t else Swept(SweptAll(t, times[..|times| - 1]), times[|times| - 1])
  }

  function DeletedAll<K>(t: Table<K>, times: seq<real>): set<K> {
    if times == [] then {}
    else
      var before := times[..|times| - 1];
      DeletedAll(t, before) + Deleted(SweptAll(t, before), times[|times| - 1])
  }

  /** However often the sweeper runs, only the last time matters. */
  lemma {:induction false} SweepsCollapse<K>(t: Table<K>, times: seq<real>)
    requires times != [] && forall i, j | 0 <= i < j < |times| :: times[i] <= times[j]
    ensures SweptAll(t, times) == Swept(t, times[|times| - 1])
    ensures DeletedAll(t, times) == Deleted(t, times[|times| - 1])
  {
    var n := |times| - 1;
    if n == 0 {
      assert times[..0] == [];
      assert SweptAll(t, times[..0]) == t && DeletedAll(t, times[..0]) == {};
    } else {
      SweepsCollapse(t, times[..n]);
      SweepTwice(t, times[n - 1], times[n]);
    }
  }

  /** Renewing forgets a soft revocation, and that a sweep had flagged the lease. */
  lemma RenewForgets(l: Lease, t1: real, t2: real)
    ensures Renewed(Revoked(l, t1), t2) == Renewed(l, t2) == Renewed(Flagged(l, t1), t2)
  {
  }

  // ---- whole histories -------------------------------------------------------------------------

  datatype Event<!K> =
    | Install(key: K, ttl: int, grace: int, expired: bool, now: real)
    | Renew(key: K, now: real)
    | Revoke(key: K, permanent: bool, now: real)
    | Drop(key: K)
    | Sweep(now: real)

  function After<K>(t: Table<K>, e: Event<K>): Table<K> {
    match e
    case Install(k, ttl, grace, expired, now) => t[k := NewLease(ttl, grace, expired, now)]
    case Renew(k, now) => if k in t then t[k := Renewed(t[k], now)] else t
    case Revoke(k, permanent, now) =>
      if k !in t then t else if permanent then t - {k} else t[k := Revoked(t[k], now)]
    case Drop(k) => t - {k}
    case Sweep(now) => Swept(t, now)
  }

  function Run<K>(h: seq<Event<K>>): Table<K> {
    if h == [] then map[] else After(Run(h[..|h| - 1]), h[|h| - 1])
  }

  /**
   * What a holder has to know about its lease, with no health states: the terms of
   * the last install, the time of the last install, renewal or revocation, and
   * whether that was one that only grants the grace period.
   */
  datatype Grant = Grant(ttl: int, grace: int, at: real, graceOnly: bool)

  function Max(a: int, b: int): int { if a < b then b else a }

  /** When the grant runs out. */
  function End(g: Grant): real {
    g.at + (if g.graceOnly then g.grace else g.ttl + Max(g.grace, 0)) as real
  }

  function Granted<K(==)>(g: Option<Grant>, e: Event<K>, key: K): Option<Grant> {
    match e
    case Install(k, ttl, grace, expired, now) => if k == key then Some(Grant(ttl, grace, now, expired)) else g
    case Renew(k, now) => if k == key && g.Some? then Some(g.value.(at := now, graceOnly := false)) else g
    case Revoke(k, permanent, now) =>
      if k == key && g.Some? then (if permanent then None else Some(g.value.(at := now, graceOnly := true))) else g
    case Drop(k) => if k == key then None else g
    case Sweep(now) => if g.Some? && now >= End(g.value) then None else g
  }

  function GrantOf<K(==)>(h: seq<Event<K>>, key: K): Option<Grant> {
    if h == [] then None else Granted(GrantOf(h[..|h| - 1], key), h[|h| - 1], key)
  }

  ghost predicate Agrees(l: Lease, g: Grant) {
    && l.ttl == g.ttl && l.grace == g.grace
    && l.expiresAt == g.at + (if g.graceOnly then 0 else g.ttl) as real
    && l.graceDeadline == l.expiresAt + g.grace as real
    && (g.graceOnly ==> !l.healthy)
    && (!g.graceOnly && g.grace < 0 ==> l.healthy)
  }

  ghost predicate Tracks<K>(t: Table<K>, g: Option<Grant>, key: K) {
    (key in t <==> g.Some?) && (key in t ==> Agrees(t[key], g.value))
  }

  lemma SweepTracks<K>(t: Table<K>, g: Option<Grant>, key: K, now: real)
    requires Tracks(t, g, key)
    ensures key in Deleted(t, now) <==> g.Some? && now >= End(g.value)
    ensures Tracks(Swept(t, now), Granted(g, Sweep(now), key), key)
  {
  }

  lemma EventTracks<K>(t: Table<K>, g: Option<Grant>, key: K, e: Event<K>)
    requires Tracks(t, g, key)
    ensures Tracks(After(t, e), Granted(g, e, key), key)
  {
  }

  /** After every history the table holds a key exactly while its grant lasts. */
  lemma {:induction false} TableHoldsGrants<K>(h: seq<Event<K>>, key: K)
    ensures Tracks(Run(h), GrantOf(h, key), key)
  {
    if h != [] {
      hide Tracks, After, Granted;
      TableHoldsGrants(h[..|h| - 1], key);
      EventTracks(Run(h[..|h| - 1]), GrantOf(h[..|h| - 1], key), key, h[|h| - 1]);
    }
  }

  /**
   * A sweep deletes a key exactly when the clock has reached the end of its grant: the
   * last install or renewal plus ttl plus grace, or the last soft revocation or recovery
   * plus grace. No assumption on the clock; a negative grace counts as none after a ttl.
   */
  lemma DeletesExactlyExpired<K>(h: seq<Event<K>>, now: real, key: K)
    ensures key in Deleted(Run(h), now) <==> GrantOf(h, key).Some? && now >= End(GrantOf(h, key).value)
  {
    TableHoldsGrants(h, key);
    SweepTracks(Run(h), GrantOf(h, key), key, now);
  }

  /** An event that installs, renews, revokes or drops the key. */
  predicate Concerns<K(==)>(e: Event<K>, key: K) { !e.Sweep? && e.key == key }

  /**
   * From event `p` on the history installs the key and then only renews it, and its
   * clock does not go back. What happened before `p`, and to other keys, is arbitrary.
   */
  ghost predicate Renewing<K>(h: seq<Event<K>>, key: K, p: nat) {
    && p < |h| && h[p].Install? && h[p].key == key && !h[p].expired
    && (forall i | p < i < |h| && Concerns(h[i], key) :: h[i].Renew?)
    && (forall i, j | p <= i < j < |h| && !h[i].Drop? && !h[j].Drop? :: h[i].now <= h[j].now)
  }

  /** The time of the last install or renewal of the key, from event `p` on, among the first `n` events. */
  function LastGrant<K(==)>(h: seq<Event<K>>, key: K, p: nat, n: nat): real
    requires p < n <= |h| && h[p].Install?
  {
    if n == p + 1 then h[p].now
    else if h[n - 1].Renew? && h[n - 1].key == key then h[n - 1].now
    else LastGrant(h, key, p, n - 1)
  }

  /** Every renewal after `p` comes less than a ttl after the grant before it. */
  ghost predicate InTime<K>(h: seq<Event<K>>, key: K, p: nat)
    requires Renewing(h, key, p)
  {
    forall i | p < i < |h| && Concerns(h[i], key) :: h[i].now < LastGrant(h, key, p, i) + h[p].ttl as real
  }

  lemma {:induction false} LastGrantConstant<K>(h: seq<Event<K>>, key: K, p: nat, i: nat, j: nat)
    requires Renewing(h, key, p) && p < i <= j <= |h|
    requires forall k | i <= k < j :: !Concerns(h[k], key)
    ensures LastGrant(h, key, p, j) == LastGrant(h, key, p, i)
    decreases j - i
  {
    if i < j { LastGrantConstant(h, key, p, i, j - 1); }
  }

  /** As long as every sweep so far came within a ttl of the last grant, the key is healthy. */
  lemma {:induction false} HealthyWhileGranted<K>(h: seq<Event<K>>, key: K, p: nat, n: nat)
    requires Renewing(h, key, p) && p < n <= |h|
    requires forall i | p < i < n && h[i].Sweep? :: h[i].now < LastGrant(h, key, p, i) + h[p].ttl as real
    ensures key in Run(h[..n]) && Run(h[..n])[key].healthy && Run(h[..n])[key].ttl == h[p].ttl
    ensures Run(h[..n])[key].expiresAt == LastGrant(h, key, p, n) + h[p].ttl as real
  {
    assert h[..n][..n - 1] == h[..n - 1];
    if n > p + 1 {
      HealthyWhileGranted(h, key, p, n - 1);
      assert Concerns(h[n - 1], key) ==> h[n - 1].Renew?;
    }
  }

  /** The next event about the key from `i` on, or the end of the history. */
  lemma {:induction false} NextConcern<K>(h: seq<Event<K>>, key: K, i: nat) returns (j: nat)
    requires i <= |h|
    ensures i <= j <= |h| && (j < |h| ==> Concerns(h[j], key))
    ensures forall k | i <= k < j :: !Concerns(h[k], key)
    decreases |h| - i
  {
    if i == |h| || Concerns(h[i], key) { j := i; } else { j := NextConcern(h, key, i + 1); }
  }

  /** A sweep is in time when the next renewal is, or when the present still is. */
  lemma {:induction false} SweepInTime<K>(h: seq<Event<K>>, key: K, p: nat, i: nat, t: real)
    requires Renewing(h, key, p) && InTime(h, key, p) && p < i < |h| && h[i].Sweep?
    requires h[i].now <= t < LastGrant(h, key, p, |h|) + h[p].ttl as real
    ensures h[i].now < LastGrant(h, key, p, i) + h[p].ttl as real
  {
    var j := NextConcern(h, key, i);
    LastGrantConstant(h, key, p, i, j);
  }

  /**
   * A key renewed with gaps below its ttl: wherever in whatever history it was installed, it
   * is in the table and healthy, no sweep since has flagged it, and none at `t` would, as
   * long as `t` is less than a ttl after the last grant.
   */
  lemma RenewedInTimeStaysHealthy<K>(h: seq<Event<K>>, key: K, p: nat, t: real)
    requires Renewing(h, key, p) && InTime(h, key, p)
    requires forall i | p < i < |h| && !h[i].Drop? :: h[i].now <= t
    requires t < LastGrant(h, key, p, |h|) + h[p].ttl as real
    ensures key in Run(h) && Run(h)[key].healthy
    ensures forall i | p < i < |h| && h[i].Sweep? :: key !in NewlyUnhealthy(Run(h[..i]), h[i].now)
    ensures key !in NewlyUnhealthy(Run(h), t)
  {
    forall i | p < i < |h| && h[i].Sweep? ensures h[i].now < LastGrant(h, key, p, i) + h[p].ttl as real {
      SweepInTime(h, key, p, i, t);
    }
    assert h[..|h|] == h;
    HealthyWhileGranted(h, key, p, |h|);
    forall i | p < i < |h| && h[i].Sweep? ensures key !in NewlyUnhealthy(Run(h[..i]), h[i].now) {
      HealthyWhileGranted(h, key, p, i);
    }
  }

  /**
   * Recovery: a renewal leaves the table as if a soft revocation just before it had never
   * been, and the key as if a sweep before it that did not delete it had never run.
   */
  lemma RenewalRecovers<K>(h: seq<Event<K>>, key: K, t1: real, t2: real)
    ensures Run(h + [Revoke(key, false, t1)] + [Renew(key, t2)]) == Run(h + [Renew(key, t2)])
    ensures key in Run(h) && key !in Deleted(Run(h), t1) ==>
              var swept, direct := Run(h + [Sweep(t1)] + [Renew(key, t2)]), Run(h + [Renew(key, t2)]);
              key in swept && key in direct && swept[key] == direct[key]
  {
    RunAppendOne(h, Renew(key, t2));
    RunAppendOne(h, Revoke(key, false, t1));
    RunAppendOne(h, Sweep(t1));
    RunAppendOne(h + [Revoke(key, false, t1)], Renew(key, t2));
    RunAppendOne(h + [Sweep(t1)], Renew(key, t2));
    var t := Run(h);
    if key in t { RenewForgets(t[key], t1, t2); }
    hide Run;
  }

  lemma RunAppendOne<K>(h: seq<Event<K>>, e: Event<K>)
    ensures Run(h + [e]) == After(Run(h), e)
  {
    assert (h + [e])[..|h|] == h;
  }

  // ---- the table as the source keeps it -----------------------------------------------------------

  class LeaseObject {
    var ttl: int
    var grace: int
    var expiresAt: real
    var graceDeadline: real
    var lastRenewAt: real
    var healthy: bool

    function Value(): Lease
      reads this
    {
      Lease(ttl, grace, expiresAt, graceDeadline, lastRenewAt, healthy)
    }

    constructor (l: Lease)
      ensures Value() == l
    {
      ttl, grace, expiresAt, graceDeadline, lastRenewAt, healthy := l.ttl, l.grace, l.expiresAt, l.graceDeadline, l.lastRenewAt, l.healthy;
    }

    /** A sweep looks at one lease. */
    method Flag(now: real) returns (turned: bool, expired: bool)
      modifies this
      ensures turned == TurnsUnhealthy(old(Value()), now) && expired == Expires(old(Value()), now)
      ensures Value() == Flagged(old(Value()), now)
      ensures healthy <==> old(healthy) && now < expiresAt
      ensures turned <==> old(healthy) && !healthy
      ensures expired <==> !healthy && graceDeadline <= now
    {
      turned := healthy && now >= expiresAt;
      if turned { healthy := false; }
      expired := !healthy && now >= graceDeadline;
    }
  }

  /** `LeaseTable`: the lease objects are updated in place and handed out. */
  class LeaseTable<!K(==)> {
    var leases: map<K, LeaseObject>

    /** No two keys share a lease object. */
    ghost predicate Valid()
      reads this
    {
      forall j, k | j in leases && k in leases && j != k :: leases[j] != leases[k]
    }

    ghost function View(): Table<K>
      reads this, leases.Values
    {
      map k | k in leases :: leases[k].Value()
    }

    constructor ()
      ensures Valid() && View() == map[]
    {
      leases := map[];
    }

    method InstallLease(key: K, ttl: int, grace: int, expired: bool, now: real) returns (lease: LeaseObject)
      requires Valid()
      modifies this
      ensures Valid() && fresh(lease) && leases == old(leases)[key := lease]
      ensures View() == After(old(View()), Install(key, ttl, grace, expired, now))
      ensures lease.ttl == ttl && lease.grace == grace && lease.lastRenewAt == now && lease.healthy == !expired
      ensures lease.expiresAt == (if expired then now else now + ttl as real) && lease.graceDeadline == lease.expiresAt + grace as real
    {
      if expired {
        lease := new LeaseObject(Lease(ttl, grace, now, now + grace as real, now, false));
      } else {
        lease := new LeaseObject(Lease(ttl, grace, now + ttl as real, now + ttl as real + grace as real, now, true));
      }
      leases := leases[key := lease];
    }

    /** Raises (None) for a key without a lease. */
    method RenewLease(key: K, now: real) returns (lease: Option<LeaseObject>)
      requires Valid()
      modifies leases.Values
      ensures Valid() && lease == (if key in leases then Some(leases[key]) else None)
      ensures View() == After(old(View()), Renew(key, now))
      ensures lease.Some? ==> var l := leases[key];
                && l.ttl == old(l.ttl) && l.grace == old(l.grace) && l.healthy && l.lastRenewAt == now
                && l.expiresAt == now + l.ttl as real && l.graceDeadline == now + (l.ttl + l.grace) as real
    {
      if key !in leases { return None; }
      var l := leases[key];
      l.lastRenewAt := now;
      l.expiresAt := now + l.ttl as real;
      l.graceDeadline := l.expiresAt + l.grace as real;
      l.healthy := true;
      return Some(l);
    }

    method RevokeLease(key: K, permanent: bool, now: real) returns (found: bool)
      requires Valid()
      modifies this, leases.Values
      ensures Valid() && found == (key in old(leases))
      ensures leases == if permanent then old(leases) - {key} else old(leases)
      ensures View() == After(old(View()), Revoke(key, permanent, now))
      ensures found && !permanent ==> var l := leases[key];
                && l.ttl == old(l.ttl) && l.grace == old(l.grace) && !l.healthy && l.lastRenewAt == old(l.lastRenewAt)
                && l.expiresAt == now && l.graceDeadline == now + l.grace as real
    {
      if key !in leases { return false; }
      if permanent {
        leases := leases - {key};
      } else {
        var l := leases[key];
        l.healthy := false;
        l.expiresAt := now;
        l.graceDeadline := now + l.grace as real;
      }
      return true;
    }

    method DropLease(key: K)
      requires Valid()
      modifies this
      ensures Valid() && leases == old(leases) - {key}
      ensures View() == After(old(View()), Drop(key))
    {
      leases := leases - {key};
    }

    /** How far the pass has come: the leases in `todo` are as they were. */
    ghost predicate Midway(was: Table<K>, now: real, todo: set<K>, newly: seq<K>, gone: seq<K>)
      reads this, leases.Values
    {
      && Valid() && todo <= leases.Keys == was.Keys && Progress(was, now, todo, newly, gone)
      && forall k | k in leases :: leases[k].Value() == if k in todo then was[k] else Flagged(was[k], now)
    }

    /** The body of the pass, for one lease. */
    method Mark(ghost was: Table<K>, now: real, ghost todo: set<K>, newly: seq<K>, gone: seq<K>, k: K)
      returns (newly': seq<K>, gone': seq<K>)
      requires k in leases && k in todo && Midway(was, now, todo, newly, gone)
      modifies leases[k]
      ensures Midway(was, now, todo - {k}, newly', gone')
    {
      hide Progress, Flagged, TurnsUnhealthy, Expires, LeaseObject.Value;
      ProgressStep(was, now, todo, newly, gone, k);
      var turned, expired := leases[k].Flag(now);
      newly' := if turned then newly + [k] else newly;
      gone' := if expired then gone + [k] else gone;
    }

    method Remove(keys: seq<K>)
      modifies this
      ensures forall k :: k in leases <==> k in old(leases) && k !in keys
      ensures forall k | k in leases :: leases[k] == old(leases)[k]
    {
      var i := 0;
      while i < |keys|
        invariant 0 <= i <= |keys|
        invariant forall k :: k in leases <==> k in old(leases) && k !in keys[..i]
        invariant forall k | k in leases :: leases[k] == old(leases)[k]
      {
        leases := leases - {keys[i]};
        i := i + 1;
      }
      assert keys[..i] == keys;
    }

    /** The pass over all leases: flag what ran out, list what to delete. */
    method MarkExpired(now: real) returns (newlyUnhealthy: seq<K>, toDelete: seq<K>)
      requires Valid()
      modifies leases.Values
      ensures Valid()
      ensures forall k | k in leases :: leases[k].Value() == Flagged(old(leases[k].Value()), now)
      ensures Lists(newlyUnhealthy, NewlyUnhealthy(old(View()), now)) && Lists(toDelete, Deleted(old(View()), now))
    {
      newlyUnhealthy, toDelete := [], [];
      ghost var was := View();
      var todo := leases.Keys;
      ProgressStart(was, now, todo);
      assert Midway(was, now, todo, newlyUnhealthy, toDelete);
      assert forall k | k in leases :: was[k] == old(leases[k].Value());
      hide Midway, View, Flagged, Lists, NewlyUnhealthy, Deleted, Progress, LeaseObject.Value, Valid;
      while todo != {}
        invariant todo <= leases.Keys && Midway(was, now, todo, newlyUnhealthy, toDelete)
        decreases |todo|
      {
        var k :| k in todo;
        newlyUnhealthy, toDelete := Mark(was, now, todo, newlyUnhealthy, toDelete, k);
        todo := todo - {k};
      }
      MidwayEnd(was, now, newlyUnhealthy, toDelete);
    }

    lemma MidwayEnd(was: Table<K>, now: real, newly: seq<K>, gone: seq<K>)
      requires Midway(was, now, {}, newly, gone)
      ensures Valid() && leases.Keys == was.Keys && forall k | k in leases :: leases[k].Value() == Flagged(was[k], now)
      ensures Lists(newly, NewlyUnhealthy(was, now)) && Lists(gone, Deleted(was, now))
    {
    }

    /** One pass over all leases, then the removal of what it found. */
    method SweepTick(now: real) returns (newlyUnhealthy: seq<K>, toDelete: seq<K>)
      requires Valid()
      modifies this, leases.Values
      ensures Valid()
      ensures View() == After(old(View()), Sweep(now))
      ensures FoundAll(old(View()), now, newlyUnhealthy, toDelete)
      ensures forall k :: k in leases <==> k in old(leases) && k !in toDelete
      ensures forall k | k in leases :: leases[k] == old(leases)[k]
      ensures Lists(newlyUnhealthy, NewlyUnhealthy(old(View()), now)) && Lists(toDelete, Deleted(old(View()), now))
    {
      newlyUnhealthy, toDelete := MarkExpired(now);
      ListsFound(old(View()), now, newlyUnhealthy, toDelete);
      assert forall k :: k in toDelete <==> k in multiset(toDelete);
      assert forall k :: k in toDelete <==> k in old(leases) && Expires(old(leases[k].Value()), now);
      hide Flagged, Expires, FoundAll;
      Remove(toDelete);
    }
  }

  /** The list holds each member of the set once, and nothing else. */
  ghost predicate Lists<K>(s: seq<K>, x: set<K>) { multiset(s) == multiset(x) }

  /** The first list names the leases that were healthy and have run out, the second those that are not healthy now and whose grace is over. */
  ghost predicate FoundAll<K>(was: Table<K>, now: real, newly: seq<K>, gone: seq<K>) {
    && (forall k | k in newly :: k in was) && (forall k | k in gone :: k in was)
    && (forall k | k in was :: k in newly <==> was[k].healthy && was[k].expiresAt <= now)
    && (forall k | k in was :: k in gone <==> !(was[k].healthy && now < was[k].expiresAt) && was[k].graceDeadline <= now)
  }

  lemma ListsFound<K>(was: Table<K>, now: real, newly: seq<K>, gone: seq<K>)
    requires Lists(newly, NewlyUnhealthy(was, now)) && Lists(gone, Deleted(was, now))
    ensures FoundAll(was, now, newly, gone)
  {
    assert forall k :: k in newly <==> k in multiset(newly);
    assert forall k :: k in gone <==> k in multiset(gone);
    assert forall k :: k in NewlyUnhealthy(was, now) <==> k in multiset(NewlyUnhealthy(was, now));
    assert forall k :: k in Deleted(was, now) <==> k in multiset(Deleted(was, now));
  }

  /** What the sweep has found when `todo` is still to be visited. */
  ghost predicate Progress<K>(t: Table<K>, now: real, todo: set<K>, newly: seq<K>, gone: seq<K>) {
    Lists(newly, NewlyUnhealthy(t, now) - todo) && Lists(gone, Deleted(t, now) - todo)
  }

  lemma ProgressStart<K>(t: Table<K>, now: real, todo: set<K>)
    requires todo == t.Keys
    ensures Progress(t, now, todo, [], [])
  {
  }

  lemma ProgressStep<K>(t: Table<K>, now: real, todo: set<K>, newly: seq<K>, gone: seq<K>, k: K)
    requires k in todo && k in t && Progress(t, now, todo, newly, gone)
    ensures Progress(t, now, todo - {k}, if TurnsUnhealthy(t[k], now) then newly + [k] else newly,
                     if Expires(t[k], now) then gone + [k] else gone)
  {
  }
}
