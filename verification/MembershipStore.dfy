/**
 * `MembershipStore` (cluster/membership.py) as an object that updates its roster
 * and drives the `ClusterStore` it belongs to.
 */
module MembershipStores {
  import opened Order
  import opened Envelopes
  import opened NodeState
  import opened Membership
  import opened ClusterStores
  import opened Delivery

  /**
   * What a connection attempt to an address is answered: a node id, the accepted namespaces
   * and the envelopes that the reconcile run by `connect_peer` pulls; or nothing.
   */
  type Answers = string -> Option<(string, set<string>, seq<Arrival>)>

  /**
   * One entry for `set_remove`, with the readings of the two clocks when its turn comes.
   * `reachesSelf`: the `evict` call it sends is answered by this very node, as it is for the
   * node's own id when its advertised address works; `at` are the clock readings of that answer.
   */
  datatype Removal = Removal(id: string, address: string, wall: int, now: real, reachesSelf: bool, at: string -> real)

  /** `handle_evicted` on an open cluster, when the call gets through to this node. */
  function Notified(cfg: Config, m: Member, n: Node, r: Removal): (Member, Node) {
    if r.reachesSelf then (Standalone(m), Save(Drop(cfg, n, m.roster.Keys - {m.self}, r.at))) else (m, n)
  }

  /** Write the tombstone, notify, disconnect. */
  function BuryStep(cfg: Config, m: Member, n: Node, r: Removal): (Member, Node) {
    var tomb := RemovalTombstone(m, r.id, r.address, n.clock, r.wall);
    var (m', n') := Notified(cfg, Bury(m, tomb), Mint(n, Floor(m.roster, r.id), r.wall), r);
    (m', Disconnect(cfg, n', r.id, r.now))
  }

  function BuryAll(cfg: Config, m: Member, n: Node, members: seq<Removal>): (Member, Node)
    decreases |members|
  {
    if members == [] then (m, n)
    else if members[0].id == "" then BuryAll(cfg, m, n, members[1..])
    else var (m', n') := BuryStep(cfg, m, n, members[0]); BuryAll(cfg, m', n', members[1..])
  }

  class MembershipStore {
    const store: ClusterStore
    const advertise: string
    var roster: Roster
    var saved: Saved

    function View(): Member
      reads this
    {
      Member(store.id, advertise, roster, saved)
    }

    constructor (store: ClusterStore, advertise: string, saved: Saved)
      ensures this.store == store
      ensures View() == Member(store.id, advertise, map[], saved)
    {
      this.store, this.advertise, this.saved := store, advertise, saved;
      this.roster := map[];
    }

    /** The membership version to come back with: the saved one, observed by the clock, or a new one. */
    method RestoredVersion(wall: int) returns (ver: Version)
      modifies store`clock
      ensures saved.version.Some? ==> ver == saved.version.value && store.View() == Observe(old(store.View()), ver.ts)
      ensures saved.version.None? ==> ver == Version(NextTs(old(store.View()), wall), store.id) && store.View() == Mint(old(store.View()), old(store.clock), wall)
      ensures ver.ts <= store.clock
    {
      if saved.version.Some? {
        ver := saved.version.value;
        store.ObserveVersion(ver.ts);
      } else {
        ver := store.NextVersionAfter(store.clock, wall);
      }
    }

    /** `_init_from_state`, on an object that has just been created. */
    method InitFromState(wall: int)
      requires roster == map[]
      modifies this`roster, store`clock
      ensures View() == Reload(store.cfg, store.id, advertise, saved, Version(NextTs(old(store.View()), wall), store.id), wall)
      ensures saved.cluster.None? ==> store.View() == old(store.View())
      ensures saved.cluster.Some? && saved.version.Some? ==>
                store.View() == Observe(old(store.View()), saved.version.value.ts) && saved.version.value.ts <= store.clock
    {
      hide Forget;
      if saved.cluster.Some? {
        var ver := RestoredVersion(wall);
        roster := (saved.roster - {store.id})[store.id := Record(store.id, saved.cluster, advertise, ver, false)];
        var _ := GcMembership(wall);
      }
    }

    /** `_persist`: the membership fields, and with them everything else `save_state` writes. */
    method PersistState()
      modifies this`saved, store`disk
      ensures View() == Persist(old(View())) && store.View() == Save(old(store.View()))
      ensures saved.cluster == (if store.id in roster then roster[store.id].cluster else None)
      ensures forall n :: n in saved.roster <==> n in roster && n != store.id && roster[n].cluster == saved.cluster
      ensures forall n | n in saved.roster :: saved.roster[n] == roster[n]
      ensures saved.version == if store.id in roster then Some(roster[store.id].version) else None
    {
      var own := VersionOf(roster, store.id);
      var cid := ClusterOf(View());
      saved := Saved(cid, map n | n in roster && n != store.id && roster[n].cluster == cid :: roster[n], own);
      store.SaveState();
    }

    /** `_become_standalone` */
    method BecomeStandalone(at: string -> real)
      modifies this, store`sessions, store`foreign, store`evictedUntil, store`disk
      ensures View() == Standalone(old(View()))
      ensures roster == map[] && saved == Saved(None, map[], None)
      ensures store.View() == Save(Drop(store.cfg, old(store.View()), old(roster.Keys) - {store.id}, at))
    {
      var members := roster.Keys - {store.id};
      roster := map[];
      DropMembers(members, at);
      PersistState();
    }

    /** The eviction path for each of a set of nodes. */
    method DropMembers(members: set<string>, at: string -> real)
      modifies store`sessions, store`foreign, store`evictedUntil
      ensures store.View() == Drop(store.cfg, old(store.View()), members, at)
    {
      hide Drop, Disconnect;
      ghost var n := store.View();
      var todo := members;
      DropNobody(store.cfg, n, at);
      assert members - members == {};
      while todo != {}
        invariant todo <= members
        invariant store.View() == Drop(store.cfg, n, members - todo, at)
        decreases |todo|
      {
        var p :| p in todo;
        DropOneMore(store.cfg, n, members - todo, p, at);
        assert members - (todo - {p}) == members - todo + {p};
        var _ := store.DisconnectPeer(p, at(p));
        todo := todo - {p};
      }
      assert members - {} == members;
    }

    /** `merge`: LWW over the batch; a newer removal of this node makes it leave its cluster. */
    method MergeRecords(recs: seq<Record>, at: string -> real) returns (changed: bool)
      modifies this, store`sessions, store`foreign, store`evictedUntil, store`disk
      ensures View() == Merge(old(View()), recs)
      ensures store.View() == if EvictsSelf(store.id, old(roster), recs)
                              then Save(Drop(store.cfg, old(store.View()), MergeAll(store.id, old(roster), recs).Keys - {store.id}, at))
                              else if changed then Save(old(store.View())) else old(store.View())
      ensures changed <==> EvictsSelf(store.id, old(roster), recs) || MergeAll(store.id, old(roster), recs) != old(roster)
    {
      ghost var before := View();
      changed := false;
      var evictedSelf := false;
      for i := 0 to |recs|
        modifies `roster
        invariant MergeAll(store.id, roster, recs[i..]) == MergeAll(store.id, before.roster, recs)
        invariant VersionOf(roster, store.id) == VersionOf(before.roster, store.id)
        invariant evictedSelf <==> EvictsSelf(store.id, before.roster, recs[..i])
        invariant !changed ==> roster == before.roster
        invariant forall n | n in before.roster :: n in roster && NotOlder(roster[n].version, before.roster[n].version)
        invariant changed ==> exists n :: n in roster && Newer(roster[n].version, VersionOf(before.roster, n))
      {
        var rec := recs[i];
        assert recs[i..][1..] == recs[i + 1..] && recs[..i + 1] == recs[..i] + [rec];
        if Newer(rec.version, VersionOf(roster, rec.id)) {
          if rec.id == store.id {
            if rec.removed { evictedSelf := true; }
          } else {
            StaysNewer(before.roster, roster, rec);
            roster := roster[rec.id := rec];
            changed := true;
          }
        }
      }
      assert recs[..|recs|] == recs;
      if evictedSelf {
        BecomeStandalone(at);
        return true;
      }
      if changed {
        NewerDiffers(before.roster, roster);
        PersistState();
      }
    }

    /** One turn of the loop of `set_remove`: the removal is in the roster, not yet on disk. */
    method BuryMember(r: Removal) returns (tomb: Record)
      modifies this, store`clock, store`sessions, store`foreign, store`evictedUntil, store`disk
      ensures tomb == RemovalTombstone(old(View()), r.id, r.address, old(store.clock), r.wall)
      ensures tomb.id == r.id && tomb.removed && tomb.version.node == store.id && old(store.clock) < tomb.version.ts
      ensures tomb.address == (if r.id in old(roster) then old(roster)[r.id].address else r.address) && tomb.cluster == ClusterOf(old(View()))
      ensures r.id in old(roster) ==> old(roster)[r.id].version.ts < tomb.version.ts
      ensures roster == if r.reachesSelf then map[] else old(roster)[r.id := tomb]
      ensures (View(), store.View()) == BuryStep(store.cfg, old(View()), old(store.View()), r)
    {
      var ver := store.NextVersionAfter(if r.id in roster then roster[r.id].version.ts else 0, r.wall);
      tomb := Record(r.id, ClusterOf(View()), if r.id in roster then roster[r.id].address else r.address, ver, true);
      roster := roster[r.id := tomb];
      hide Drop, Disconnect, Standalone;
      if r.reachesSelf { BecomeStandalone(r.at); }
      var _ := store.DisconnectPeer(r.id, r.now);
    }

    /** `set_remove`: entries without an id are skipped, and the save comes once, after all of them. */
    method SetRemove(members: seq<Removal>)
      modifies this, store`clock, store`sessions, store`foreign, store`evictedUntil, store`disk
      ensures var (m, n) := BuryAll(store.cfg, old(View()), old(store.View()), members);
              View() == Persist(m) && store.View() == Save(n)
    {
      hide BuryStep;
      ghost var m, n := View(), store.View();
      for i := 0 to |members|
        invariant BuryAll(store.cfg, View(), store.View(), members[i..]) == BuryAll(store.cfg, m, n, members)
      {
        assert members[i..][1..] == members[i + 1..];
        if members[i].id != "" {
          var _ := BuryMember(members[i]);
        }
      }
      PersistState();
    }

    /** `handle_evict_self`: a peer leaves, so it is buried here and dropped. */
    method HandleEvictSelf(id: string, wall: int, now: real) returns (tomb: Record)
      modifies this, store`clock, store`sessions, store`foreign, store`evictedUntil, store`disk
      ensures tomb == LeaveTombstone(old(View()), id, old(store.clock), wall)
      ensures id in old(roster) ==> tomb == Record(id, old(roster)[id].cluster, old(roster)[id].address, tomb.version, true)
                                    && old(roster)[id].version.ts < tomb.version.ts
      ensures tomb.id == id && tomb.removed && tomb.version.node == store.id && old(store.clock) < tomb.version.ts
      ensures roster == old(roster)[id := tomb] && id !in store.sessions && forall k | k in store.foreign :: k.origin != id
      ensures View() == Persist(Bury(old(View()), tomb))
      ensures store.View() == Save(Disconnect(store.cfg, Mint(old(store.View()), Floor(old(roster), id), wall), id, now))
    {
      var ver := store.NextVersionAfter(if id in roster then roster[id].version.ts else 0, wall);
      tomb := Record(id, if id in roster then roster[id].cluster else ClusterOf(View()),
                     if id in roster then roster[id].address else "", ver, true);
      roster := roster[id := tomb];
      var _ := store.DisconnectPeer(id, now);
      PersistState();
    }

    /** `gc_membership` */
    method GcMembership(wall: int) returns (pruned: nat)
      modifies this`roster
      ensures View() == Forget(store.cfg, old(View()), wall)
      ensures forall n :: n in roster <==> n in old(roster) && !(old(roster)[n].removed && Expired(store.cfg, old(roster)[n].version.ts, wall))
      ensures forall n | n in roster :: roster[n] == old(roster)[n]
      ensures pruned == |old(roster)| - |roster|
    {
      ghost var all := roster;
      var stale := set n | n in roster && roster[n].removed && Expired(store.cfg, roster[n].version.ts, wall);
      pruned := 0;
      while stale != {}
        invariant stale <= roster.Keys <= all.Keys
        invariant forall n | n in stale :: all[n].removed && Expired(store.cfg, all[n].version.ts, wall)
        invariant forall n :: n in roster <==> n in all && (!(all[n].removed && Expired(store.cfg, all[n].version.ts, wall)) || n in stale)
        invariant forall n | n in roster :: roster[n] == all[n]
        invariant pruned == |all| - |roster|
        decreases |stale|
      {
        var n :| n in stale;
        assert roster.Keys - {n} == (roster - {n}).Keys;
        roster := roster - {n};
        pruned := pruned + 1;
        stale := stale - {n};
      }
    }

    /** `connect_peer` once the peer has answered: open the session and take what the reconcile pulls. */
    method ConnectPeer(peer: string, ns: set<string>, pulled: seq<Arrival>, now: real)
      modifies store`sessions, store`foreign, store`evictedUntil
      ensures store.View() == DeliverAll(Open(old(store.View()), peer, ns, now), pulled)
      ensures store.sessions == old(store.sessions)[peer := Peer(ns, now)]
      ensures store.evictedUntil == old(store.evictedUntil) - {peer}
      ensures forall a | a in pulled && a.env.key.origin == peer != store.id ::
                a.env.key in store.foreign && NotOlder(store.foreign[a.env.key].version, a.env.version)
    {
      store.OpenSession(peer, ns, now);
      ghost var start := store.View();
      forall a | a in pulled && a.env.key.origin == peer != store.id
        ensures a.env.key in DeliverAll(start, pulled).foreign && NotOlder(DeliverAll(start, pulled).foreign[a.env.key].version, a.env.version)
      {
        AdmittedIsHeld(start, pulled, a);
      }
      DeliverTouchesOverlayOnly(start, pulled);
      for i := 0 to |pulled|
        modifies store`foreign
        invariant DeliverAll(store.View(), pulled[i..]) == DeliverAll(start, pulled)
      {
        assert pulled[i..][1..] == pulled[i + 1..];
        var _ := store.ApplyInbound(pulled[i].env, pulled[i].at);
      }
    }

    /** The first loop of `reconcile_connections`: a session with every wanted member that answers. */
    method ConnectMissing(answers: Answers, actual: set<string>, now: real)
      requires actual == store.sessions.Keys
      modifies store`sessions, store`foreign, store`evictedUntil
      ensures actual <= store.sessions.Keys
      ensures forall n | Wanted(View(), n) && AnswersAsItself(answers, n) :: n in store.sessions
    {
      var desired := Desired(View());
      var todo := desired.Keys;
      while todo != {}
        invariant todo <= desired.Keys && actual <= store.sessions.Keys
        invariant forall n | n in desired && n !in todo && AnswersAsItself(answers, n) :: n in store.sessions
        decreases |todo|
      {
        var n :| n in todo;
        if n !in actual {
          match answers(desired[n]) {
            case None =>
            case Some((peer, ns, pulled)) => ConnectPeer(peer, ns, pulled, now);
          }
        }
        todo := todo - {n};
      }
    }

    /** The roster lists the node, not removed, in this node's own cluster. */
    predicate LiveHere(n: string)
      requires store.id in roster
      reads this`roster
    {
      n in roster && !roster[n].removed && roster[n].cluster == roster[store.id].cluster
    }

    /** The member answers at its address, and as itself. */
    predicate AnswersAsItself(answers: Answers, n: string)
      reads this`roster
    {
      n in roster && answers(roster[n].address).Some? && answers(roster[n].address).value.0 == n
    }

    /**
     * `reconcile_connections`: after a tick every wanted member that answers has a
     * session, no member the roster says is gone has one or left a record behind,
     * and no other session was dropped.
     */
    method ReconcileConnections(answers: Answers, now: real)
      modifies store`sessions, store`foreign, store`evictedUntil
      ensures ClusterOf(View()).None? ==> store.View() == old(store.View())
      ensures forall n | Wanted(View(), n) && AnswersAsItself(answers, n) :: n in store.sessions
      ensures ClusterOf(View()).Some? ==> forall n | n in old(store.sessions) :: n in store.sessions <==> !RemovedOrAbsent(View(), n)
      ensures store.id in roster && roster[store.id].cluster.Some? ==>
                && (forall n | n in roster && n != store.id && LiveHere(n) && roster[n].address != "" && AnswersAsItself(answers, n) :: n in store.sessions)
                && (forall n | n in old(store.sessions) :: n in store.sessions <==> LiveHere(n))
      ensures ClusterOf(View()).Some? ==>
                forall n, k | n in old(store.sessions) && RemovedOrAbsent(View(), n) && k in store.foreign :: k.origin != n
    {
      if ClusterOf(View()).None? { return; }
      var desired := Desired(View());
      var actual := store.sessions.Keys;
      ConnectMissing(answers, actual, now);
      var spare := actual - desired.Keys;
      while spare != {}
        invariant spare <= actual - desired.Keys
        invariant forall n | n in desired && AnswersAsItself(answers, n) :: n in store.sessions
        invariant forall n | n in actual && (n in desired || n in spare || !RemovedOrAbsent(View(), n)) :: n in store.sessions
        invariant forall n | n in actual && n !in desired && n !in spare && RemovedOrAbsent(View(), n) :: n !in store.sessions
        invariant forall n, k | n in actual && n !in desired && n !in spare && RemovedOrAbsent(View(), n) && k in store.foreign :: k.origin != n
        decreases |spare|
      {
        var n :| n in spare;
        if RemovedOrAbsent(View(), n) {
          var _ := store.DisconnectPeer(n, now);
        }
        spare := spare - {n};
      }
    }
  }

  lemma StaysNewer(before: Roster, r: Roster, rec: Record)
    requires forall n | n in before :: n in r && NotOlder(r[n].version, before[n].version)
    requires Newer(rec.version, VersionOf(r, rec.id))
    ensures rec.id in before ==> NotOlder(rec.version, before[rec.id].version)
    ensures Newer(rec.version, VersionOf(before, rec.id))
    ensures forall n | n in r && n != rec.id && Newer(r[n].version, VersionOf(before, n)) ::
              n in r[rec.id := rec] && Newer(r[rec.id := rec][n].version, VersionOf(before, n))
  {
    if rec.id in before && r[rec.id].version != before[rec.id].version {
      VersionTransitive(before[rec.id].version, r[rec.id].version, rec.version);
    }
  }

  lemma NewerDiffers(before: Roster, r: Roster)
    requires exists n :: n in r && Newer(r[n].version, VersionOf(before, n))
    ensures r != before
  {
    var n :| n in r && Newer(r[n].version, VersionOf(before, n));
    VersionIrreflexive(r[n].version);
  }

  /** The store has neither a session with `id` nor a record of it. */
  ghost predicate Cut(n: Node, id: string) { id !in n.sessions && forall k | k in n.foreign :: k.origin != id }

  ghost predicate Listed(members: seq<Removal>, id: string) { id != "" && exists r :: r in members && r.id == id }

  /** Some `evict` call of the list is answered by this node. */
  ghost predicate Hit(members: seq<Removal>) { exists r :: r in members && r.id != "" && r.reachesSelf }

  lemma BuryStepOut(cfg: Config, m: Member, n: Node, r: Removal, id: string)
    ensures var (m', n') := BuryStep(cfg, m, n, r);
      && m'.self == m.self
      && (r.id == id || Cut(n, id) ==> Cut(n', id))
      && (r.reachesSelf || ClusterOf(m).None? ==> ClusterOf(m').None?)
      && (!r.reachesSelf ==>
            && (if r.id == id then id in m'.roster && m'.roster[id].removed && m'.roster[id].cluster == ClusterOf(m)
                else (id in m'.roster <==> id in m.roster) && (id in m.roster ==> m'.roster[id] == m.roster[id])))
  {
  }

  /**
   * After `set_remove` the listed members have neither session nor records here. Unless one
   * of the calls comes back to this node, exactly they are removed in the roster, besides
   * those that were; if one does, the node ends up in no cluster.
   */
  lemma {:induction false} ListedAreOut(cfg: Config, m: Member, n: Node, members: seq<Removal>, id: string)
    ensures var (m', n') := BuryAll(cfg, m, n, members);
      && m'.self == m.self
      && (Listed(members, id) || Cut(n, id) ==> Cut(n', id))
      && (Hit(members) || ClusterOf(m).None? ==> ClusterOf(m').None?)
      && (!Hit(members) && Listed(members, id) ==> id in m'.roster && m'.roster[id].removed)
      && (!Hit(members) && !Listed(members, id) ==> (id in m'.roster <==> id in m.roster) && (id in m.roster ==> m'.roster[id] == m.roster[id]))
    decreases |members|
  {
    hide BuryStep, Cut, ClusterOf;
    if members != [] {
      var r, rest := members[0], members[1..];
      assert members == [r] + rest;
      assert Hit(members) <==> (r.id != "" && r.reachesSelf) || Hit(rest);
      assert Listed(members, id) <==> (id != "" && r.id == id) || Listed(rest, id);
      hide Hit, Listed;
      if r.id == "" {
        ListedAreOut(cfg, m, n, rest, id);
      } else {
        BuryStepOut(cfg, m, n, r, id);
        var (m1, n1) := BuryStep(cfg, m, n, r);
        ListedAreOut(cfg, m1, n1, rest, id);
      }
    }
  }

  lemma {:induction false} StaysClustered(cfg: Config, m: Member, n: Node, members: seq<Removal>)
    requires m.self in m.roster && !Hit(members)
    ensures var (m', _) := BuryAll(cfg, m, n, members);
      m'.self == m.self && m'.advertise == m.advertise && m.self in m'.roster && ClusterOf(m') == ClusterOf(m)
    decreases |members|
  {
    if members != [] {
      var r, rest := members[0], members[1..];
      assert members == [r] + rest;
      assert !Hit(rest);
      hide Hit;
      if r.id == "" {
        StaysClustered(cfg, m, n, rest);
      } else {
        var (m1, n1) := BuryStep(cfg, m, n, r);
        assert m1 == Bury(m, RemovalTombstone(m, r.id, r.address, n.clock, r.wall));
        StaysClustered(cfg, m1, n1, rest);
      }
    }
  }

  /**
   * What a clustered node is after `set_remove` and a restart: live in its cluster, even if it
   * listed itself, if and only if none of the `evict` calls came back to it. A call for its own
   * id that arrives leaves it in no cluster; one that does not is forgotten by the restart.
   */
  lemma OwnAfterRemovals(cfg: Config, m: Member, n: Node, members: seq<Removal>, minted: Version, wall: int)
    requires m.self in m.roster && ClusterOf(m).Some?
    ensures var back := Reload(cfg, m.self, m.advertise, Persist(BuryAll(cfg, m, n, members).0).saved, minted, wall);
      && (m.self in back.roster && !back.roster[m.self].removed <==> !Hit(members))
      && (Hit(members) ==> ClusterOf(back).None?)
  {
    if Hit(members) {
      ListedAreOut(cfg, m, n, members, "");
    } else {
      StaysClustered(cfg, m, n, members);
    }
    hide BuryAll, Hit, BuryStep;
  }
}
