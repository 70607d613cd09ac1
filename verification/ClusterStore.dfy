/**
 * `ClusterStore` (cluster/store.py) as an object whose methods update its
 * fields. `View()` is the value the specification in `NodeState` talks about.
 */
module ClusterStores {
  import opened Order
  import opened Envelopes
  import opened NodeState
  import opened Delivery
  import opened Merkle
  import opened Reconciliation
  import opened ExchangeSteps
  import opened ClusterSystem

  /** What `on_local_mutation` is told. */
  datatype Mutation = Put(payload: string) | Deregister

  /** The node admits the envelope at position `i` of the batch, and it is newer than what the node then holds for its key. */
  predicate StoredAt(n: Node, batch: seq<Arrival>, i: nat)
    requires i < |batch|
  {
    var e, held := batch[i].env, DeliverAll(n, batch[..i]).foreign;
    Admits(n, batch[i]) && (e.key in held ==> VersionLess(held[e.key].version, e.version))
  }

  /** The positions of a batch whose envelopes the node stores. */
  function StoredPositions(n: Node, batch: seq<Arrival>, upto: nat): set<nat>
    requires upto <= |batch|
  {
    set i: nat | i < upto && StoredAt(n, batch, i)
  }

  lemma DeliverOneMore(n: Node, batch: seq<Arrival>, i: nat)
    requires i < |batch|
    ensures DeliverAll(n, batch[..i + 1]) == Receive(DeliverAll(n, batch[..i]), batch[i].env, batch[i].at)
    ensures StoredAt(n, batch, i) <==> Accepts(DeliverAll(n, batch[..i]), batch[i].env, batch[i].at)
  {
    DeliverTouchesOverlayOnly(n, batch[..i]);
    SameGuards(n, DeliverAll(n, batch[..i]), batch, i);
    hide Receive, Accepts, StoredAt;
    DeliverAppend(n, batch[..i], [batch[i]]);
    assert batch[..i + 1] == batch[..i] + [batch[i]];
    assert [batch[i]][1..] == [];
  }

  lemma SameGuards(n: Node, mid: Node, batch: seq<Arrival>, i: nat)
    requires i < |batch| && mid == DeliverAll(n, batch[..i]) && mid == n.(foreign := mid.foreign)
    ensures StoredAt(n, batch, i) <==> Accepts(mid, batch[i].env, batch[i].at)
  {
    hide DeliverAll;
  }

  lemma OneMoreStored(n: Node, batch: seq<Arrival>, i: nat)
    requires i < |batch|
    ensures |StoredPositions(n, batch, i + 1)| == |StoredPositions(n, batch, i)| + if StoredAt(n, batch, i) then 1 else 0
  {
    hide StoredAt;
    var before := StoredPositions(n, batch, i);
    assert StoredPositions(n, batch, i + 1) == if StoredAt(n, batch, i) then before + {i} else before;
  }

  /** The stamps of `_ensure_local_versions`, in the order the registry lists its entries. */
  function StampAll(n: Node, order: seq<LocalKey>, wall: LocalKey -> int): Node
  {
    if order == [] then n
    else var k := |order| - 1; Stamp(StampAll(n, order[..k], wall), order[k], wall(order[k]))
  }

  predicate AllStamped(n: Node) { forall lk | lk in n.registry :: !Unstamped(n, lk) }

  lemma {:induction false} StampAllEffect(n: Node, order: seq<LocalKey>, wall: LocalKey -> int)
    ensures var m := StampAll(n, order, wall);
      && m.registry == n.registry && m.tombstones == n.tombstones && m.id == n.id
      && (forall lk | lk in n.localVersions :: lk in m.localVersions && m.localVersions[lk] == n.localVersions[lk])
      && (forall lk | lk in n.registry && lk in order :: !Unstamped(m, lk))
  {
    if order != [] {
      var k := |order| - 1;
      StampAllEffect(n, order[..k], wall);
      assert order == order[..k] + [order[k]];
    }
  }

  lemma {:induction false} StampAllKeeps(n: Node, order: seq<LocalKey>, wall: LocalKey -> int)
    ensures var m := StampAll(n, order, wall);
      m.id == n.id && m.foreign == n.foreign && m.sessions == n.sessions && (WellFormed(n) ==> WellFormed(m))
  {
    if order != [] { StampAllKeeps(n, order[..|order| - 1], wall); }
  }

  class ClusterStore {
    const id: string
    const cfg: Config
    const buckets: nat
    var clock: int
    var localVersions: map<LocalKey, Version>
    var tombstones: map<LocalKey, Tombstone>
    var registry: map<LocalKey, string>
    var foreign: map<Key, Envelope>
    var sessions: map<string, Peer>
    var evictedUntil: map<string, real>
    var disk: Disk

    function View(): Node
      reads this
    {
      Node(id, clock, localVersions, tombstones, registry, foreign, sessions, evictedUntil, disk)
    }

    constructor (id: string, cfg: Config, buckets: nat, registry: map<LocalKey, string>, clock: int)
      ensures this.id == id && this.cfg == cfg && this.buckets == buckets
      ensures FreshNode(View()) && View().registry == registry && View().clock == clock
    {
      this.id, this.cfg, this.buckets := id, cfg, buckets;
      this.clock, this.registry := clock, registry;
      localVersions, tombstones, foreign, sessions, evictedUntil := map[], map[], map[], map[], map[];
      disk := Disk(clock, map[], map[]);
    }

    method NextTimestamp(wall: int) returns (ts: int)
      modifies this`clock
      ensures ts == NextTs(old(View()), wall) && View() == old(View()).(clock := ts)
      ensures old(clock) < ts && wall <= ts && (ts == wall || ts == old(clock) + 1)
    {
      ts := if wall < clock + 1 then clock + 1 else wall;
      clock := ts;
    }

    /** `next_version_after`; `next_version` is the case of a floor the clock has passed. */
    method NextVersionAfter(floor: int, wall: int) returns (v: Version)
      modifies this`clock
      ensures View() == Mint(old(View()), floor, wall) && v == Version(clock, id)
      ensures old(clock) < v.ts && floor < v.ts && wall <= v.ts && v.ts in {wall, old(clock) + 1, floor + 1}
    {
      var ts := if wall < clock + 1 then clock + 1 else wall;
      clock := if ts < floor + 1 then floor + 1 else ts;
      v := Version(clock, id);
    }

    /** `observe_version` */
    method ObserveVersion(ms: int)
      modifies this`clock
      ensures View() == Observe(old(View()), ms)
      ensures old(clock) <= clock && ms <= clock && clock in {old(clock), ms}
    {
      if ms > clock { clock := ms; }
    }

    method SaveState()
      modifies this`disk
      ensures View() == Save(old(View()))
      ensures disk == Disk(clock, localVersions, tombstones)
    {
      disk := Disk(clock, localVersions, tombstones);
    }

    /** `apply_inbound` */
    method ApplyInbound(env: Envelope, now: real) returns (accepted: bool)
      modifies this`foreign
      ensures accepted == Accepts(old(View()), env, now)
      ensures View() == Receive(old(View()), env, now)
      ensures accepted <==>
                && env.key.origin != id && !(env.key.origin in evictedUntil && now < evictedUntil[env.key.origin])
                && (env.key in old(foreign) ==> VersionLess(old(foreign)[env.key].version, env.version))
      ensures foreign == if accepted then old(foreign)[env.key := env] else old(foreign)
    {
      if env.key.origin == id { return false; }
      if env.key.origin in evictedUntil && now < evictedUntil[env.key.origin] { return false; }
      var cur := if env.key in foreign then Some(foreign[env.key].version) else None;
      if !Newer(env.version, cur) { return false; }
      foreign := foreign[env.key := env];
      return true;
    }

    method TouchPeer(peer: string, now: real)
      modifies this`sessions
      ensures View() == Touch(old(View()), peer, now)
      ensures sessions == if peer in old(sessions) then old(sessions)[peer := Peer(old(sessions)[peer].namespaces, now)] else old(sessions)
    {
      if peer in sessions {
        sessions := sessions[peer := sessions[peer].(lastSeen := now)];
      }
    }

    /** `serve_updates` on an open cluster; the clock is read again for each envelope. */
    method ServeUpdates(from: string, batch: seq<Arrival>, now: real) returns (accepted: nat)
      modifies this`sessions, this`foreign
      ensures View() == DeliverAll(Touch(old(View()), from, now), batch)
      ensures accepted == |StoredPositions(Touch(old(View()), from, now), batch, |batch|)|
    {
      TouchPeer(from, now);
      ghost var start := View();
      hide Receive, Accepts, StoredAt, Touch;
      accepted := 0;
      assert StoredPositions(start, batch, 0) == {};
      for i := 0 to |batch|
        invariant View() == DeliverAll(start, batch[..i])
        invariant accepted == |StoredPositions(start, batch, i)|
      {
        DeliverOneMore(start, batch, i);
        OneMoreStored(start, batch, i);
        var ok := ApplyInbound(batch[i].env, batch[i].at);
        if ok { accepted := accepted + 1; }
      }
      assert batch[..|batch|] == batch;
    }

    /** `handle_open`, and the session half of `connect_peer`. */
    method OpenSession(peer: string, namespaces: set<string>, now: real)
      modifies this`sessions, this`evictedUntil
      ensures View() == Open(old(View()), peer, namespaces, now)
      ensures sessions == old(sessions)[peer := Peer(namespaces, now)] && evictedUntil == old(evictedUntil) - {peer}
    {
      sessions := sessions[peer := Peer(namespaces, now)];
      evictedUntil := evictedUntil - {peer};
    }

    /** The loop of `disconnect_peer` over the overlay. */
    method EvictRecords(peer: string)
      modifies this`foreign
      ensures foreign == Without(old(foreign), peer)
      ensures forall k :: k in foreign <==> k in old(foreign) && k.origin != peer
      ensures forall k | k in foreign :: foreign[k] == old(foreign)[k]
    {
      var doomed := set k | k in foreign && k.origin == peer;
      ghost var all := foreign;
      while doomed != {}
        invariant forall k | k in doomed :: k.origin == peer
        invariant forall k :: k in foreign <==> k in all && (k.origin != peer || k in doomed)
        invariant forall k | k in foreign :: foreign[k] == all[k]
        decreases |doomed|
      {
        var k :| k in doomed;
        foreign := foreign - {k};
        doomed := doomed - {k};
      }
    }

    /** `disconnect_peer` */
    method DisconnectPeer(peer: string, now: real) returns (existed: bool)
      modifies this`sessions, this`foreign, this`evictedUntil
      ensures existed == (peer in old(sessions))
      ensures View() == Disconnect(cfg, old(View()), peer, now)
      ensures sessions == old(sessions) - {peer} && evictedUntil == old(evictedUntil)[peer := now + cfg.hold + cfg.keepalive]
      ensures forall k :: k in foreign <==> k in old(foreign) && k.origin != peer
    {
      existed := peer in sessions;
      sessions := sessions - {peer};
      EvictRecords(peer);
      hide Without;
      evictedUntil := evictedUntil[peer := now + cfg.Retention()];
    }

    /** `check_hold`: the stale sessions are found first, then each goes through `disconnect_peer` at its own time. */
    method CheckHoldTimers(now: real, at: string -> real) returns (stale: set<string>)
      modifies this`sessions, this`foreign, this`evictedUntil
      ensures stale == Stale(cfg, old(View()), now)
      ensures forall p :: p in stale <==> p in old(sessions) && old(sessions)[p].lastSeen + cfg.hold < now
      ensures sessions == old(sessions) - stale
      ensures View() == CheckHold(cfg, old(View()), now, at)
    {
      hide Drop, Disconnect;
      ghost var n := View();
      stale := set p | p in sessions && now - sessions[p].lastSeen > cfg.hold;
      var todo := stale;
      DropNobody(cfg, n, at);
      assert stale - stale == {};
      while todo != {}
        invariant todo <= stale
        invariant View() == Drop(cfg, n, stale - todo, at)
        invariant sessions == n.sessions - (stale - todo)
        decreases |todo|
      {
        var p :| p in todo;
        DropOneMore(cfg, n, stale - todo, p, at);
        assert stale - (todo - {p}) == stale - todo + {p};
        var _ := DisconnectPeer(p, at(p));
        todo := todo - {p};
      }
      assert stale - {} == stale;
    }

    /** `prune_suppression` */
    method PruneSuppression(now: real)
      modifies this`evictedUntil
      ensures View() == Prune(old(View()), now)
      ensures forall o :: o in evictedUntil <==> o in old(evictedUntil) && now < old(evictedUntil)[o]
      ensures forall o | o in evictedUntil :: evictedUntil[o] == old(evictedUntil)[o]
    {
      var expired := set o | o in evictedUntil && now >= evictedUntil[o];
      ghost var all := evictedUntil;
      while expired != {}
        invariant expired <= evictedUntil.Keys
        invariant forall o | o in expired :: o in all && now >= all[o]
        invariant evictedUntil == map o | o in all && (now < all[o] || o in expired) :: all[o]
        decreases |expired|
      {
        var o :| o in expired;
        evictedUntil := evictedUntil - {o};
        expired := expired - {o};
      }
    }

    /** `gc_tombstones` */
    method GcTombstones(wall: int) returns (removed: nat)
      modifies this`tombstones, this`foreign, this`disk
      ensures View() == Collect(cfg, old(View()), wall)
      ensures removed == |old(tombstones)| - |tombstones| + |old(foreign)| - |foreign|
    {
      removed := GcLocal(wall);
      var overlay := GcOverlay(wall);
      removed := removed + overlay;
    }

    method GcLocal(wall: int) returns (removed: nat)
      modifies this`tombstones, this`disk
      ensures View().foreign == old(View()).foreign
      ensures var kept := map lk | lk in old(tombstones) && !Expired(cfg, old(tombstones)[lk].deletedAt, wall) :: old(tombstones)[lk];
        View() == if kept == old(tombstones) then old(View()) else Save(old(View()).(tombstones := kept))
      ensures removed == |old(tombstones)| - |tombstones|
    {
      ghost var all := tombstones;
      var todo := set lk | lk in tombstones && Expired(cfg, tombstones[lk].deletedAt, wall);
      removed := 0;
      while todo != {}
        modifies `tombstones
        invariant todo <= tombstones.Keys <= all.Keys
        invariant forall lk | lk in todo :: Expired(cfg, all[lk].deletedAt, wall)
        invariant forall lk :: lk in tombstones <==> lk in all && (!Expired(cfg, all[lk].deletedAt, wall) || lk in todo)
        invariant forall lk | lk in tombstones :: tombstones[lk] == all[lk]
        invariant removed == |all| - |tombstones|
        decreases |todo|
      {
        var lk :| lk in todo;
        assert tombstones.Keys - {lk} == (tombstones - {lk}).Keys;
        tombstones := tombstones - {lk};
        removed := removed + 1;
        todo := todo - {lk};
      }
      assert tombstones == map lk | lk in all && !Expired(cfg, all[lk].deletedAt, wall) :: all[lk];
      if removed > 0 { SaveState(); } else { SameSize(tombstones.Keys, all.Keys); assert tombstones == all; }
    }

    method GcOverlay(wall: int) returns (removed: nat)
      modifies this`foreign
      ensures foreign == map k | k in old(foreign) && !(old(foreign)[k].tombstone && Expired(cfg, old(foreign)[k].version.ts, wall)) :: old(foreign)[k]
      ensures removed == |old(foreign)| - |foreign|
    {
      ghost var all := foreign;
      var todo := set k | k in foreign && foreign[k].tombstone && Expired(cfg, foreign[k].version.ts, wall);
      removed := 0;
      while todo != {}
        invariant todo <= foreign.Keys <= all.Keys
        invariant forall k | k in todo :: all[k].tombstone && Expired(cfg, all[k].version.ts, wall)
        invariant forall k :: k in foreign <==> k in all && (!(all[k].tombstone && Expired(cfg, all[k].version.ts, wall)) || k in todo)
        invariant forall k | k in foreign :: foreign[k] == all[k]
        invariant removed == |all| - |foreign|
        decreases |todo|
      {
        var k :| k in todo;
        assert foreign.Keys - {k} == (foreign - {k}).Keys;
        foreign := foreign - {k};
        removed := removed + 1;
        todo := todo - {k};
      }
    }

    /** A registry change with its hook; the result is what `_broadcast` sends. */
    method Mutate(lk: LocalKey, m: Mutation, wall: int) returns (sent: Option<Envelope>)
      modifies this`clock, this`registry, this`localVersions, this`tombstones, this`disk
      ensures View() == match m
                        case Put(payload) => Write(old(View()), lk, payload, wall)
                        case Deregister => Delete(old(View()), lk, wall)
      ensures sent == Stamped(old(View()), match m case Put(payload) => OpWrite(lk, payload, wall) case Deregister => OpDelete(lk, wall))
      ensures sent == Build(View(), Global(View(), lk))
      ensures old(clock) < clock && wall <= clock && (clock == wall || clock == old(clock) + 1)
      ensures sent == Some(Envelope(Key(lk.dataset, id, lk.sid), Version(clock, id), m.Deregister?, match m case Put(payload) => Some(payload) case Deregister => None))
    {
      var ts := NextTimestamp(wall);
      match m {
        case Put(payload) =>
          registry := registry[lk := payload];
          localVersions := localVersions[lk := Version(ts, id)];
          tombstones := tombstones - {lk};
        case Deregister =>
          registry := registry - {lk};
          tombstones := tombstones[lk := NodeState.Tombstone(Version(ts, id), ts)];
          localVersions := localVersions - {lk};
      }
      SaveState();
      sent := Build(View(), Key(lk.dataset, id, lk.sid));
    }

    /** The body of the stamping loop, still without the save. */
    method StampLocal(lk: LocalKey, wall: int) returns (stamped: bool)
      requires lk in registry
      modifies this`clock, this`localVersions
      ensures stamped == Unstamped(old(View()), lk)
      ensures if stamped then Save(View()) == Stamp(old(View()), lk, wall) else View() == old(View())
      ensures !Unstamped(View(), lk)
      ensures forall l :: l in localVersions <==> l in old(localVersions) || (stamped && l == lk)
    {
      stamped := lk !in localVersions && lk !in tombstones;
      if stamped {
        var ts := NextTimestamp(wall);
        localVersions := localVersions[lk := Version(ts, id)];
      }
    }

    /** `_ensure_local_versions`: every entry that has no version gets one; one save at the end. */
    method EnsureLocalVersions(wall: LocalKey -> int) returns (ghost order: seq<LocalKey>)
      modifies this`clock, this`localVersions, this`disk
      ensures View() == StampAll(old(View()), order, wall)
      ensures AllStamped(View())
      ensures AllStamped(old(View())) ==> View() == old(View())
    {
      ghost var n := View();
      order := [];
      var todo := registry.Keys;
      var changed := false;
      while todo != {}
        modifies `clock, `localVersions
        invariant todo <= registry.Keys
        invariant registry == n.registry && tombstones == n.tombstones
        invariant (if changed then Save(View()) else View()) == StampAll(n, order, wall)
        invariant forall lk | lk in registry.Keys - todo :: lk in localVersions || lk in tombstones
        invariant AllStamped(n) ==> !changed && View() == n
        decreases |todo|
      {
        var lk :| lk in todo;
        assert (order + [lk])[..|order|] == order;
        var stamped := StampLocal(lk, wall(lk));
        if stamped { changed := true; }
        order := order + [lk];
        todo := todo - {lk};
      }
      if changed { SaveState(); }
    }

    /** The live entries of `_local_index`. */
    method LiveIndex(ns: set<string>) returns (idx: map<Key, Version>)
      ensures forall k :: k in idx <==> k.origin == id && InScope(ns, k.dataset) && Local(k) in registry && Local(k) in localVersions
      ensures forall k | k in idx :: idx[k] == localVersions[Local(k)]
    {
      idx := map[];
      var entries := registry.Keys;
      while entries != {}
        invariant entries <= registry.Keys
        invariant forall k :: k in idx <==>
          k.origin == id && InScope(ns, k.dataset) && Local(k) in registry && Local(k) !in entries && Local(k) in localVersions
        invariant forall k | k in idx :: idx[k] == localVersions[Local(k)]
        decreases |entries|
      {
        var lk :| lk in entries;
        if InScope(ns, lk.dataset) && lk in localVersions {
          idx := idx[Key(lk.dataset, id, lk.sid) := localVersions[lk]];
        }
        entries := entries - {lk};
      }
    }

    /** The deletions of `_local_index`: they take precedence over a live entry. */
    method LocalIndex(ns: set<string>) returns (idx: map<Key, Version>)
      ensures forall k :: k in idx <==> k.origin == id && InScope(ns, k.dataset) && Build(View(), k).Some?
      ensures forall k | k in idx :: idx[k] == Build(View(), k).value.version
    {
      idx := LiveIndex(ns);
      ghost var live := idx;
      var tombs := tombstones.Keys;
      while tombs != {}
        invariant tombs <= tombstones.Keys
        invariant forall k :: k in idx <==>
          k in live || (k.origin == id && InScope(ns, k.dataset) && Local(k) in tombstones && Local(k) !in tombs)
        invariant forall k | k in idx ::
          idx[k] == if Local(k) in tombstones && Local(k) !in tombs then tombstones[Local(k)].version else live[k]
        decreases |tombs|
      {
        var lk :| lk in tombs;
        if InScope(ns, lk.dataset) {
          idx := idx[Key(lk.dataset, id, lk.sid) := tombstones[lk].version];
        }
        tombs := tombs - {lk};
      }
    }

    /** `_full_index`, once `_ensure_local_versions` has run. */
    method ComputeFullIndex(ns: set<string>) returns (idx: map<Key, Version>)
      requires WellFormed(View())
      ensures idx == FullIndex(View(), ns)
    {
      idx := LocalIndex(ns);
      ghost var own := idx;
      var others := foreign.Keys;
      while others != {}
        invariant others <= foreign.Keys
        invariant forall k :: k in idx <==> k in own || (k in foreign && k !in others && InScope(ns, k.dataset))
        invariant forall k | k in idx :: idx[k] == if k in own then own[k] else foreign[k].version
        decreases |others|
      {
        var k :| k in others;
        if InScope(ns, k.dataset) { idx := idx[k := foreign[k].version]; }
        others := others - {k};
      }
      IndexIs(View(), ns, idx);
    }

    /** What `serve_merkle` hashes and `serve_digest` lists for `from`. */
    method ServedIndex(from: string, requested: set<string>) returns (idx: map<Key, Version>)
      requires WellFormed(View())
      ensures idx == Served(View(), from, requested)
    {
      var allowed := AllowedFor(View(), from, requested);
      var all := ComputeFullIndex(allowed);
      idx := map k | k in all && k.dataset in allowed :: all[k];
    }

    /** Fetch the envelopes of `keys` from `source` and apply them, reading the clock for each; how many were stored. */
    method Take(source: ClusterStore, keys: set<Key>, at: Readings) returns (count: nat)
      requires source != this && WellFormed(source.View())
      modifies this`foreign
      ensures View() == Absorb(old(View()), source.View(), keys, at)
      ensures count == |Transferred(old(View()), source.View(), keys, at)|
    {
      hide Absorb, Build, Receive, Accepts;
      ghost var n, m := View(), source.View();
      count := 0;
      var todo := keys;
      assert keys - keys == {};
      AbsorbNothing(n, m, at);
      while todo != {}
        invariant todo <= keys && source.View() == m
        invariant View() == Absorb(n, m, keys - todo, at)
        invariant count == |Transferred(n, m, keys - todo, at)|
        decreases |todo|
      {
        var k :| k in todo;
        AbsorbOneMore(n, m, keys - todo, k, at);
        assert keys - (todo - {k}) == keys - todo + {k};
        todo := todo - {k};
        match Build(source.View(), k) {
          case None =>
          case Some(e) =>
            var stored := ApplyInbound(e, at(k));
            if stored { count := count + 1; }
        }
      }
      assert keys - {} == keys;
    }

    /**
     * `reconcile`: compare bucket hashes, stop if nothing differs, otherwise
     * transfer the rows of the differing buckets, pull what the peer has newer
     * and push what it has older. The two nodes may use different bucket counts.
     */
    method Reconcile(peer: ClusterStore, H: Hash, at: Readings, peerAt: Readings, heard: real) returns (pulled: nat, pushed: nat)
      requires peer != this && peer.id != id && peer.id in sessions
      requires WellFormed(View()) && WellFormed(peer.View())
      requires Sound(H, FullIndex(View(), Negotiated(View(), peer.id)), buckets,
                     Served(peer.View(), id, Negotiated(View(), peer.id)), peer.buckets)
      modifies this`foreign, peer`foreign, peer`sessions
      ensures View() == Initiator(old(View()), old(peer.View()), at)
      ensures peer.View() == Responder(old(View()), old(peer.View()), peerAt, heard)
      ensures pulled == |Transferred(old(View()), old(peer.View()), Pulls(old(View()), old(peer.View())), at)|
      ensures pushed == |Transferred(old(peer.View()), old(View()), Pushes(old(View()), old(peer.View())), peerAt)|
    {
      hide Absorb, Build, WellFormed, Sound, Touch, Served, FullIndex, Wanted, Rows, Differing, BucketHashes, Transferred;
      ghost var a, b := View(), peer.View();
      SoundCounts(H, FullIndex(a, Negotiated(a, b.id)), buckets, Served(b, a.id, Negotiated(a, b.id)), peer.buckets);
      var ns := Negotiated(View(), peer.id);
      var mine := ComputeFullIndex(ns);
      var localHashes := ComputeBucketHashes(H, mine, buckets);
      TouchInvisible(b, a, ns, heard);
      peer.TouchPeer(id, heard);
      var theirs := peer.ServedIndex(id, ns);
      var remoteHashes := ComputeBucketHashes(H, theirs, peer.buckets);
      var diff := ComputeDiffering(localHashes, remoteHashes);
      FastPathExact(H, mine, buckets, theirs, peer.buckets);
      if diff == {} {
        NothingWanted(mine);
        NothingMoves(a, b, at, peerAt, heard);
        return 0, 0;
      }
      PullExact(H, mine, buckets, theirs, peer.buckets);
      PushExact(H, mine, buckets, theirs, peer.buckets);
      var localRows, remoteRows := Rows(H, mine, buckets, diff), Rows(H, theirs, peer.buckets, diff);
      TouchedSource(a, b, Pulls(a, b), at, heard);
      pulled := Take(peer, Wanted(localRows, remoteRows), at);
      PushesUndisturbed(a, b, at, peerAt, heard);
      pushed := peer.Take(this, Wanted(remoteRows, localRows), peerAt);
    }

    /**
     * `reconcile` with what `_local_index` does first on either side: stamp the records
     * that have no version yet. Whatever order the stamps come in, the exchange is that
     * of the stamped nodes.
     */
    method StampAndReconcile(peer: ClusterStore, H: Hash, wall: LocalKey -> int, peerWall: LocalKey -> int, at: Readings, peerAt: Readings, heard: real)
      returns (pulled: nat, pushed: nat, ghost mine: seq<LocalKey>, ghost theirs: seq<LocalKey>)
      requires peer != this && peer.id != id && peer.id in sessions
      requires WellFormed(View()) && WellFormed(peer.View())
      requires forall p, q ::
        Sound(H, FullIndex(StampAll(View(), p, wall), Negotiated(View(), peer.id)), buckets,
              Served(StampAll(peer.View(), q, peerWall), id, Negotiated(View(), peer.id)), peer.buckets)
      modifies this`clock, this`localVersions, this`disk, this`foreign
      modifies peer`clock, peer`localVersions, peer`disk, peer`foreign, peer`sessions
      ensures var a, b := StampAll(old(View()), mine, wall), StampAll(old(peer.View()), theirs, peerWall);
        && AllStamped(a) && AllStamped(b)
        && View() == Initiator(a, b, at) && peer.View() == Responder(a, b, peerAt, heard)
        && pulled == |Transferred(a, b, Pulls(a, b), at)| && pushed == |Transferred(b, a, Pushes(a, b), peerAt)|
    {
      hide WellFormed, AllStamped, Sound, Initiator, Responder, Transferred, Pulls, Pushes, FullIndex, Served;
      ghost var n, m := View(), peer.View();
      mine := EnsureLocalVersions(wall);
      theirs := peer.EnsureLocalVersions(peerWall);
      StampAllKeeps(n, mine, wall);
      StampAllKeeps(m, theirs, peerWall);
      pulled, pushed := Reconcile(peer, H, at, peerAt, heard);
    }
  }

  lemma SoundCounts(H: Hash, I: Index, nI: nat, J: Index, nJ: nat)
    requires Sound(H, I, nI, J, nJ)
    ensures nI > 0 && nJ > 0
  {
  }

  lemma SameIndex(t: Node, b: Node, ns: set<string>)
    requires t.id == b.id && t.registry == b.registry && t.tombstones == b.tombstones && t.foreign == b.foreign
    requires forall k :: Build(t, k) == Build(b, k)
    ensures FullIndex(t, ns) == FullIndex(b, ns)
  {
  }

  /** Noting that a peer was heard from changes nothing that is served. */
  lemma TouchInvisible(b: Node, a: Node, ns: set<string>, now: real)
    ensures var t := Touch(b, a.id, now);
      Served(t, a.id, ns) == Served(b, a.id, ns) && (WellFormed(b) ==> WellFormed(t))
  {
    var t := Touch(b, a.id, now);
    forall k ensures Build(t, k) == Build(b, k) { TouchBuild(b, a.id, now, k); }
    SameIndex(t, b, AllowedFor(b, a.id, ns));
    hide Build, FullIndex;
    assert Datasets(t) == Datasets(b);
    assert AllowedFor(t, a.id, ns) == AllowedFor(b, a.id, ns);
  }

  lemma NothingWanted(idx: Index)
    ensures Wanted(idx, idx) == {}
  {
    forall k | k in idx ensures k !in Wanted(idx, idx) { VersionIrreflexive(idx[k]); }
  }

  lemma NothingMoves(a: Node, b: Node, na: Readings, nb: Readings, heard: real)
    requires Pulls(a, b) == {} && Pushes(a, b) == {}
    ensures Initiator(a, b, na) == a && Responder(a, b, nb, heard) == Touch(b, a.id, heard)
    ensures Transferred(a, b, {}, na) == {} && Transferred(b, a, {}, nb) == {}
  {
    AbsorbNothing(a, b, na);
    AbsorbNothing(b, a, nb);
  }

  lemma IndexIs(n: Node, ns: set<string>, idx: map<Key, Version>)
    requires WellFormed(n)
    requires forall k :: k in idx <==> InScope(ns, k.dataset) && Build(n, k).Some?
    requires forall k | k in idx :: idx[k] == Build(n, k).value.version
    ensures idx == FullIndex(n, ns)
  {
  }

  lemma DropNobody(cfg: Config, n: Node, at: string -> real)
    ensures Drop(cfg, n, {}, at) == n
  {
  }

  lemma DropOneMore(cfg: Config, n: Node, gone: set<string>, p: string, at: string -> real)
    requires p !in gone
    ensures Disconnect(cfg, Drop(cfg, n, gone, at), p, at(p)) == Drop(cfg, n, gone + {p}, at)
  {
    hide Without, WithoutAny, CoolDown;
    assert n.sessions - gone - {p} == n.sessions - (gone + {p});
    OverlayWithoutOneMore(n.foreign, gone, p);
    CooldownOneMore(n.evictedUntil, gone, p, at, cfg.Retention());
  }

  lemma OverlayWithoutOneMore(foreign: map<Key, Envelope>, gone: set<string>, p: string)
    ensures Without(WithoutAny(foreign, gone), p) == WithoutAny(foreign, gone + {p})
  {
  }

  lemma CooldownOneMore(until: map<string, real>, gone: set<string>, p: string, at: string -> real, length: real)
    ensures CoolDown(until, gone, at, length)[p := at(p) + length] == CoolDown(until, gone + {p}, at, length)
  {
  }

  lemma {:induction false} SameSize<T>(a: set<T>, b: set<T>)
    requires a <= b && |a| == |b|
    ensures a == b
  {
    if a != b {
      var x :| x in b && x !in a;
      assert a <= b - {x};
      SubsetSize(a, b - {x});
    }
  }

  lemma {:induction false} SubsetSize<T>(a: set<T>, b: set<T>)
    requires a <= b
    ensures |a| <= |b|
  {
    if a != {} {
      var x :| x in a;
      SubsetSize(a - {x}, b - {x});
    }
  }
}
