/**
 * Removals across the cluster: any number of nodes merge, push, pull, remove,
 * leave, are told to leave, rewrite other members' records, collect expired
 * removals, save, crash and restart, in any order. `wire` holds every record ever sent.
 */
module MembershipRun {
  import opened Order
  import opened Envelopes
  import opened NodeState
  import opened Membership

  datatype Cluster = Cluster(members: map<string, Member>, wire: set<Record>)

  datatype Event =
    | Send(id: string, about: string)                        // push or serve one record
    | Receive(id: string, batch: seq<Record>)                // `merge`
    | Remove(id: string, about: string, address: string, clock: int, wall: int)   // `set_remove`
    | Leave(id: string, about: string, clock: int, wall: int)                     // `handle_evict_self`
    | Rewrite(id: string, record: Record)                    // `set_add`, `adopt`, `my_record`: no LWW comparison
    | Drop(id: string, gone: set<string>)                    // `leave_old`
    | Collect(id: string, wall: int)                         // `gc_membership`
    | Store(id: string)                                      // `_persist`
    | Excluded(id: string)                                   // `handle_evicted`
    | Restart(id: string, minted: Version, wall: int)        // a crash, then `_init_from_state`

  predicate Enabled(s: Cluster, ev: Event) {
    && ev.id in s.members
    && (ev.Send? ==> ev.about in s.members[ev.id].roster)
    && (ev.Receive? ==> forall rec | rec in ev.batch :: rec in s.wire)
  }

  function Act(cfg: Config, m: Member, ev: Event): Member {
    match ev
    case Send(_, _) => m
    case Receive(_, batch) => Merge(m, batch)
    case Remove(_, about, address, clock, wall) => Bury(m, RemovalTombstone(m, about, address, clock, wall))
    case Leave(_, about, clock, wall) => Bury(m, LeaveTombstone(m, about, clock, wall))
    case Rewrite(_, rec) => m.(roster := m.roster[rec.id := rec])
    case Drop(_, gone) => m.(roster := m.roster - gone)
    case Collect(_, wall) => Forget(cfg, m, wall)
    case Store(_) => Persist(m)
    case Excluded(_) => Standalone(m)
    case Restart(_, minted, wall) => Reload(cfg, m.self, m.advertise, m.saved, minted, wall)
  }

  function Next(cfg: Config, s: Cluster, ev: Event): Cluster
    requires Enabled(s, ev)
  {
    Cluster(s.members[ev.id := Act(cfg, s.members[ev.id], ev)],
            if ev.Send? then s.wire + {s.members[ev.id].roster[ev.about]} else s.wire)
  }

  ghost predicate IsRun(cfg: Config, run: seq<Cluster>, events: seq<Event>) {
    && |run| == |events| + 1
    && forall i | 0 <= i < |events| :: Enabled(run[i], events[i]) && run[i + 1] == Next(cfg, run[i], events[i])
  }

  // ---- the bound on live records ---------------------------------------------------------

  /** Everything live that is known about `victim` is older than the removal `t`. */
  predicate OlderThan(rec: Record, victim: string, t: Version) {
    rec.id == victim && !rec.removed ==> VersionLess(rec.version, t)
  }

  ghost predicate RosterBound(r: Roster, victim: string, t: Version) {
    IdsMatch(r) && forall n | n in r :: OlderThan(r[n], victim, t)
  }

  /** The removed node itself has not written its own removal, and would come back from disk older than `t`. */
  predicate OwnBound(m: Member, victim: string, t: Version) {
    m.self == victim ==>
      && (victim in m.roster ==> !m.roster[victim].removed)
      && (m.saved.cluster.Some? ==> m.saved.version.Some? && VersionLess(m.saved.version.value, t))
  }

  ghost predicate MemberBound(m: Member, victim: string, t: Version) {
    RosterBound(m.roster, victim, t) && RosterBound(m.saved.roster, victim, t) && OwnBound(m, victim, t)
  }

  ghost predicate Bound(s: Cluster, victim: string, t: Version) {
    && (forall rec | rec in s.wire :: OlderThan(rec, victim, t))
    && (forall id | id in s.members :: s.members[id].self == id && MemberBound(s.members[id], victim, t))
  }

  /** Nobody writes a fresh live record for `victim`, and it does not bury itself (see `OwnAfterRemovals`). */
  predicate NotReadded(ev: Event, victim: string) {
    && (ev.Rewrite? ==> ev.record.id != victim)
    && ((ev.Remove? || ev.Leave?) && ev.id == victim ==> ev.about != victim)
  }

  lemma {:induction false} MergeFromSources(self: string, r: Roster, recs: seq<Record>, n: string)
    requires IdsMatch(r)
    ensures IdsMatch(MergeAll(self, r, recs))
    ensures n in MergeAll(self, r, recs) ==>
              (n in r && MergeAll(self, r, recs)[n] == r[n]) || MergeAll(self, r, recs)[n] in recs
    decreases |recs|
  {
    if recs != [] { MergeFromSources(self, MergeOne(self, r, recs[0]), recs[1..], n); }
  }

  lemma MergeBound(self: string, r: Roster, recs: seq<Record>, victim: string, t: Version)
    requires RosterBound(r, victim, t) && forall rec | rec in recs :: OlderThan(rec, victim, t)
    ensures RosterBound(MergeAll(self, r, recs), victim, t)
  {
    MergeFromSources(self, r, recs, "");
    forall n | n in MergeAll(self, r, recs) ensures OlderThan(MergeAll(self, r, recs)[n], victim, t) {
      MergeFromSources(self, r, recs, n);
    }
  }

  lemma PersistBound(m: Member, victim: string, t: Version)
    requires RosterBound(m.roster, victim, t)
    requires m.self == victim && victim in m.roster ==> !m.roster[victim].removed
    ensures MemberBound(Persist(m), victim, t)
  {
  }

  lemma ReloadBound(cfg: Config, m: Member, ev: Event, victim: string, t: Version)
    requires MemberBound(m, victim, t) && ev.Restart?
    ensures MemberBound(Act(cfg, m, ev), victim, t)
  {
  }

  lemma ReceiveBound(m: Member, batch: seq<Record>, victim: string, t: Version)
    requires MemberBound(m, victim, t) && forall rec | rec in batch :: OlderThan(rec, victim, t)
    ensures MemberBound(Merge(m, batch), victim, t)
  {
    MergeBound(m.self, m.roster, batch, victim, t);
    OwnRecordKept(m.self, m.roster, batch);
    OwnRecordStays(m.self, m.roster, batch);
    PersistBound(m.(roster := map[]), victim, t);
    PersistBound(m.(roster := MergeAll(m.self, m.roster, batch)), victim, t);
    hide RosterBound, MergeAll, Persist;
  }

  lemma OwnRecordStays(self: string, r: Roster, recs: seq<Record>)
    ensures self in MergeAll(self, r, recs) <==> self in r
  {
    OwnRecordKept(self, r, recs);
  }

  lemma ActBound(cfg: Config, m: Member, ev: Event, victim: string, t: Version)
    requires MemberBound(m, victim, t) && NotReadded(ev, victim) && m.self == ev.id
    requires ev.Receive? ==> forall rec | rec in ev.batch :: OlderThan(rec, victim, t)
    ensures MemberBound(Act(cfg, m, ev), victim, t) && Act(cfg, m, ev).self == m.self
  {
    match ev
    case Receive(_, batch) => ReceiveBound(m, batch, victim, t);
    case Store(_) => PersistBound(m, victim, t);
    case Excluded(_) => PersistBound(m.(roster := map[]), victim, t);
    case Restart(_, _, _) => ReloadBound(cfg, m, ev, victim, t); hide Reload;
    case _ =>
  }

  lemma NextBound(cfg: Config, s: Cluster, ev: Event, victim: string, t: Version)
    requires Bound(s, victim, t) && Enabled(s, ev) && NotReadded(ev, victim)
    ensures Bound(Next(cfg, s, ev), victim, t)
  {
    ActBound(cfg, s.members[ev.id], ev, victim, t);
    hide Act, OlderThan, OwnBound;
  }

  lemma {:induction false} RunBound(cfg: Config, run: seq<Cluster>, events: seq<Event>, victim: string, t: Version, i: nat, j: nat)
    requires IsRun(cfg, run, events) && i <= j < |run| && Bound(run[i], victim, t)
    requires forall m | i <= m < j :: NotReadded(events[m], victim)
    ensures Bound(run[j], victim, t)
  {
    hide Next, Enabled, Bound, NotReadded;
    if i < j {
      RunBound(cfg, run, events, victim, t, i, j - 1);
      NextBound(cfg, run[j - 1], events[j - 1], victim, t);
    }
  }

  // ---- shielded nodes --------------------------------------------------------------------------

  /** The roster has `victim` as removed, at least as late as `t`. */
  predicate Buried(r: Roster, victim: string, t: Version) {
    victim in r && r[victim].removed && NotOlder(r[victim].version, t)
  }

  predicate Shielded(m: Member, victim: string, t: Version) { Buried(m.roster, victim, t) }

  /** What makes a shielded node forget a removal; a restart does so exactly when the disk has no live removal. */
  predicate Forgets(cfg: Config, m: Member, ev: Event, victim: string, t: Version)
    requires Shielded(m, victim, t)
  {
    match ev
    case Receive(_, batch) => EvictsSelf(m.self, m.roster, batch)
    case Excluded(_) => true
    case Drop(_, gone) => victim in gone
    case Collect(_, wall) => Expired(cfg, m.roster[victim].version.ts, wall)
    case Restart(_, _, wall) =>
      m.saved.cluster.None? || !Buried(m.saved.roster, victim, t) || Expired(cfg, m.saved.roster[victim].version.ts, wall)
    case _ => false
  }

  lemma ShieldedNotDesired(m: Member, victim: string, t: Version)
    requires Shielded(m, victim, t)
    ensures victim !in Desired(m) && RemovedOrAbsent(m, victim)
  {
  }

  lemma {:induction false} MergeShielded(self: string, r: Roster, recs: seq<Record>, victim: string, t: Version)
    requires victim != self && Buried(r, victim, t)
    requires forall rec | rec in recs :: OlderThan(rec, victim, t)
    ensures Buried(MergeAll(self, r, recs), victim, t)
    decreases |recs|
  {
    if recs != [] {
      var rec, mid := recs[0], MergeOne(self, r, recs[0]);
      if rec.id == victim && Newer(rec.version, VersionOf(r, victim)) {
        NotOlderTransitive(rec.version, r[victim].version, t);
        assert OlderThan(rec, victim, t);
        if !rec.removed { VersionAsymmetric(rec.version, t); }
      }
      MergeShielded(self, mid, recs[1..], victim, t);
    }
  }

  lemma RaisedTombstone(m: Member, victim: string, t: Version, clock: int, wall: int)
    requires Shielded(m, victim, t)
    ensures NotOlder(TombstoneVersion(m, victim, clock, wall), t)
  {
    NotOlderTransitive(TombstoneVersion(m, victim, clock, wall), m.roster[victim].version, t);
  }

  /** A shielded node stays shielded through every event, restarts included, if and only if the event is no forgetting. */
  lemma ActShieldedIff(cfg: Config, m: Member, ev: Event, victim: string, t: Version)
    requires MemberBound(m, victim, t) && Shielded(m, victim, t) && NotReadded(ev, victim) && victim != m.self
    requires ev.Receive? ==> forall rec | rec in ev.batch :: OlderThan(rec, victim, t)
    ensures Shielded(Act(cfg, m, ev), victim, t) <==> !Forgets(cfg, m, ev, victim, t)
  {
    match ev
    case Receive(_, batch) => MergeShielded(m.self, m.roster, batch, victim, t);
    case Remove(_, about, _, clock, wall) => if about == victim { RaisedTombstone(m, victim, t, clock, wall); }
    case Leave(_, about, clock, wall) => if about == victim { RaisedTombstone(m, victim, t, clock, wall); }
    case _ =>
  }

  lemma NextShielded(cfg: Config, s: Cluster, ev: Event, id: string, victim: string, t: Version)
    requires Bound(s, victim, t) && Enabled(s, ev) && NotReadded(ev, victim) && id != victim
    requires id in s.members && Shielded(s.members[id], victim, t)
    requires ev.id == id ==> !Forgets(cfg, s.members[id], ev, victim, t)
    ensures id in Next(cfg, s, ev).members && Shielded(Next(cfg, s, ev).members[id], victim, t)
  {
    if ev.id == id { ActShieldedIff(cfg, s.members[id], ev, victim, t); }
    hide Act, MemberBound;
  }

  /**
   * The removed node stays out of the peers of a node that knows of the removal, whatever
   * stale records circulate and however often nodes crash, until that node forgets.
   */
  lemma {:induction false} RemovalSticks(cfg: Config, run: seq<Cluster>, events: seq<Event>, victim: string, t: Version, id: string, i: nat, j: nat)
    requires IsRun(cfg, run, events) && i <= j < |run|
    requires Bound(run[i], victim, t)
    requires id in run[i].members && id != victim && Shielded(run[i].members[id], victim, t)
    requires forall m | i <= m < j :: NotReadded(events[m], victim)
    requires forall m | i <= m < j && events[m].id == id && id in run[m].members && Shielded(run[m].members[id], victim, t) ::
               !Forgets(cfg, run[m].members[id], events[m], victim, t)
    ensures id in run[j].members && Shielded(run[j].members[id], victim, t)
    ensures victim !in Desired(run[j].members[id])
  {
    hide Next, Enabled, Bound, NotReadded, Forgets, Shielded;
    if i == j {
      ShieldedNotDesired(run[i].members[id], victim, t);
    } else {
      RemovalSticks(cfg, run, events, victim, t, id, i, j - 1);
      RunBound(cfg, run, events, victim, t, i, j - 1);
      NextShielded(cfg, run[j - 1], events[j - 1], id, victim, t);
      ShieldedNotDesired(run[j].members[id], victim, t);
    }
  }

  // ---- removals on disk -------------------------------------------------------------------------

  /** The node is a live member of a cluster and counts the removal among that cluster's records. */
  predicate AtHome(m: Member, victim: string) {
    && ClusterOf(m).Some? && !m.roster[m.self].removed
    && victim in m.roster && m.roster[victim].cluster == ClusterOf(m)
  }

  predicate OnDisk(m: Member, victim: string, t: Version) {
    && m.saved.cluster.Some? && Buried(m.saved.roster, victim, t)
    && m.saved.roster[victim].cluster == m.saved.cluster
  }

  /** Shielded in memory and on disk. */
  predicate Anchored(m: Member, victim: string, t: Version) {
    Shielded(m, victim, t) && AtHome(m, victim) && OnDisk(m, victim, t)
  }

  /**
   * Saving puts the removal on disk if and only if it belongs to the node's own cluster, and
   * a restart from that disk keeps it if and only if it has not expired by then.
   */
  lemma SavedRemovalSurvivesIff(cfg: Config, m: Member, victim: string, t: Version, minted: Version, wall: int)
    requires Shielded(m, victim, t) && victim != m.self && IdsMatch(m.roster)
    ensures ClusterOf(m).Some? ==> (OnDisk(Persist(m), victim, t) <==> m.roster[victim].cluster == ClusterOf(m))
    ensures Shielded(Reload(cfg, m.self, m.advertise, Persist(m).saved, minted, wall), victim, t) <==>
              ClusterOf(m).Some? && m.roster[victim].cluster == ClusterOf(m) && !Expired(cfg, m.roster[victim].version.ts, wall)
  {
  }

  /**
   * `set_remove` writes the tombstone, notifies the removed node and only then saves. A crash
   * before the save puts the removed node back among the peers; a crash after it does not.
   */
  lemma RemovalLostIffUnsaved(cfg: Config, m: Member, tomb: Record, minted: Version, wall: int)
    requires IdsMatch(m.roster) && m.saved == Persist(m).saved && Wanted(m, tomb.id) && tomb.removed
    ensures var buried := Bury(m, tomb);
            && tomb.id !in Desired(buried)
            && tomb.id in Desired(Reload(cfg, m.self, m.advertise, buried.saved, minted, wall))
            && tomb.id !in Desired(Reload(cfg, m.self, m.advertise, Persist(buried).saved, minted, wall))
  {
  }

  /** What takes an anchored removal away, told from the event and the present roster, never from the disk. */
  predicate Loosens(cfg: Config, m: Member, ev: Event, victim: string, t: Version) {
    match ev
    case Receive(_, batch) =>
      EvictsSelf(m.self, m.roster, batch)
      || exists rec :: rec in batch && rec.id == victim && Newer(rec.version, VersionOf(m.roster, victim)) && rec.cluster != ClusterOf(m)
    case Excluded(_) => true
    case Remove(_, about, _, _, _) => about == m.self
    case Leave(_, about, _, _) => about == m.self
    case Rewrite(_, rec) => rec.id == m.self && (rec.cluster != ClusterOf(m) || rec.removed)
    case Drop(_, gone) => victim in gone || m.self in gone
    case Collect(_, wall) => Expired(cfg, t.ts, wall)
    case Restart(_, _, wall) => Expired(cfg, t.ts, wall)
    case _ => false
  }

  lemma {:induction false} MergedIsNewer(self: string, r: Roster, recs: seq<Record>, n: string)
    requires n != self && n in r
    ensures var r' := MergeAll(self, r, recs);
            n in r' && (r'[n] == r[n] || (r'[n].id == n && r'[n] in recs && VersionLess(r[n].version, r'[n].version)))
    decreases |recs|
  {
    if recs != [] {
      var mid := MergeOne(self, r, recs[0]);
      MergedIsNewer(self, mid, recs[1..], n);
      var last := MergeAll(self, mid, recs[1..])[n];
      if mid[n] != r[n] && last != mid[n] { VersionTransitive(r[n].version, mid[n].version, last.version); }
    }
  }

  lemma PersistAnchors(m: Member, victim: string, t: Version)
    requires Shielded(m, victim, t) && AtHome(m, victim) && victim != m.self
    ensures Anchored(Persist(m), victim, t)
  {
  }

  lemma MergeAnchored(m: Member, batch: seq<Record>, victim: string, t: Version)
    requires Anchored(m, victim, t) && victim != m.self && !EvictsSelf(m.self, m.roster, batch)
    requires forall rec | rec in batch :: OlderThan(rec, victim, t)
    requires forall rec | rec in batch && rec.id == victim && Newer(rec.version, VersionOf(m.roster, victim)) :: rec.cluster == ClusterOf(m)
    ensures Anchored(Merge(m, batch), victim, t)
  {
    var merged := m.(roster := MergeAll(m.self, m.roster, batch));
    MergeShielded(m.self, m.roster, batch, victim, t);
    MergedIsNewer(m.self, m.roster, batch, victim);
    OwnRecordKept(m.self, m.roster, batch);
    assert AtHome(merged, victim);
    hide MergeAll, EvictsSelf, OlderThan;
    PersistAnchors(merged, victim, t);
    hide Persist;
  }

  lemma RestartAnchored(cfg: Config, m: Member, ev: Event, victim: string, t: Version)
    requires Anchored(m, victim, t) && victim != m.self && ev.Restart? && !Expired(cfg, t.ts, ev.wall)
    ensures Anchored(Act(cfg, m, ev), victim, t)
  {
  }

  lemma ActAnchored(cfg: Config, m: Member, ev: Event, victim: string, t: Version)
    requires Anchored(m, victim, t) && NotReadded(ev, victim) && victim != m.self
    requires ev.Receive? ==> forall rec | rec in ev.batch :: OlderThan(rec, victim, t)
    requires !Loosens(cfg, m, ev, victim, t)
    ensures Anchored(Act(cfg, m, ev), victim, t)
  {
    match ev
    case Receive(_, batch) => MergeAnchored(m, batch, victim, t);
    case Remove(_, about, _, clock, wall) => if about == victim { RaisedTombstone(m, victim, t, clock, wall); }
    case Leave(_, about, clock, wall) => if about == victim { RaisedTombstone(m, victim, t, clock, wall); }
    case Store(_) => PersistAnchors(m, victim, t);
    case Restart(_, _, _) => RestartAnchored(cfg, m, ev, victim, t);
    case _ =>
  }

  lemma NextAnchored(cfg: Config, s: Cluster, ev: Event, id: string, victim: string, t: Version)
    requires Bound(s, victim, t) && Enabled(s, ev) && NotReadded(ev, victim) && id != victim
    requires id in s.members && Anchored(s.members[id], victim, t)
    requires ev.id == id ==> !Loosens(cfg, s.members[id], ev, victim, t)
    ensures id in Next(cfg, s, ev).members && Anchored(Next(cfg, s, ev).members[id], victim, t)
  {
    if ev.id == id { ActAnchored(cfg, s.members[id], ev, victim, t); }
    hide Act, MemberBound, Anchored;
  }

  /**
   * Once saved, the removal sticks through any number of crashes and restarts, until its
   * retention ends, the node leaves or is excluded from the cluster, or another cluster's
   * newer record of the removed node replaces it.
   */
  lemma {:induction false} SavedRemovalSticks(cfg: Config, run: seq<Cluster>, events: seq<Event>, victim: string, t: Version, id: string, i: nat, j: nat)
    requires IsRun(cfg, run, events) && i <= j < |run|
    requires Bound(run[i], victim, t)
    requires id in run[i].members && id != victim && Anchored(run[i].members[id], victim, t)
    requires forall m | i <= m < j :: NotReadded(events[m], victim)
    requires forall m | i <= m < j && events[m].id == id && id in run[m].members ::
               !Loosens(cfg, run[m].members[id], events[m], victim, t)
    ensures id in run[j].members && Anchored(run[j].members[id], victim, t)
    ensures victim !in Desired(run[j].members[id])
  {
    hide Next, Enabled, Bound, NotReadded, Loosens, AtHome, OnDisk;
    if i == j {
      ShieldedNotDesired(run[i].members[id], victim, t);
    } else {
      SavedRemovalSticks(cfg, run, events, victim, t, id, i, j - 1);
      RunBound(cfg, run, events, victim, t, i, j - 1);
      NextAnchored(cfg, run[j - 1], events[j - 1], id, victim, t);
      ShieldedNotDesired(run[j].members[id], victim, t);
    }
  }

  // ---- how a shield starts ------------------------------------------------------------------------

  /** Nothing live about `victim` anywhere, on disks included, is newer than the record node `id` has seen. */
  ghost predicate SeenNewest(s: Cluster, id: string, victim: string) {
    && id in s.members && victim in s.members[id].roster
    && var seen := s.members[id].roster[victim].version;
       && (forall rec | rec in s.wire :: SeenCovers(rec, victim, seen))
       && (forall o | o in s.members :: MemberSeen(s.members[o], victim, seen))
  }

  predicate SeenCovers(rec: Record, victim: string, seen: Version) {
    rec.id == victim && !rec.removed ==> NotOlder(seen, rec.version)
  }

  ghost predicate MemberSeen(m: Member, victim: string, seen: Version) {
    && (forall n | n in m.roster :: SeenCovers(m.roster[n], victim, seen))
    && (forall n | n in m.saved.roster :: SeenCovers(m.saved.roster[n], victim, seen))
    && (m.self == victim ==>
          && (victim in m.roster ==> !m.roster[victim].removed)
          && (m.saved.cluster.Some? ==> m.saved.version.Some? && NotOlder(seen, m.saved.version.value)))
  }

  ghost predicate Ordinary(s: Cluster) {
    forall id | id in s.members :: s.members[id].self == id && IdsMatch(s.members[id].roster) && IdsMatch(s.members[id].saved.roster)
  }

  /** The tombstone an event mints, if it is a removal of somebody. */
  function Minted(m: Member, ev: Event): Option<Record> {
    match ev
    case Remove(_, about, address, clock, wall) => Some(RemovalTombstone(m, about, address, clock, wall))
    case Leave(_, about, clock, wall) => Some(LeaveTombstone(m, about, clock, wall))
    case _ => None
  }

  lemma SeenBounds(s: Cluster, id: string, victim: string, t: Version)
    requires Ordinary(s) && SeenNewest(s, id, victim) && VersionLess(s.members[id].roster[victim].version, t)
    ensures Bound(s, victim, t)
  {
    var seen := s.members[id].roster[victim].version;
    forall v | NotOlder(seen, v) ensures VersionLess(v, t) { if v != seen { VersionTransitive(v, seen, t); } }
    hide VersionLess, NotOlder;
  }

  /**
   * A removal minted by a node that has seen the newest live record bounds every
   * live record in the cluster, on the wire, in rosters and on disks, and shields its
   * minter, whatever the two clocks are.
   */
  lemma RemovalBounds(cfg: Config, s: Cluster, ev: Event)
    requires Ordinary(s) && Enabled(s, ev) && Minted(s.members[ev.id], ev).Some?
    requires var victim := Minted(s.members[ev.id], ev).value.id; victim != ev.id && SeenNewest(s, ev.id, victim)
    ensures var tomb := Minted(s.members[ev.id], ev).value;
      && Bound(Next(cfg, s, ev), tomb.id, tomb.version)
      && Shielded(Next(cfg, s, ev).members[ev.id], tomb.id, tomb.version)
  {
    var m := s.members[ev.id];
    var tomb := Minted(m, ev).value;
    SeenBounds(s, ev.id, tomb.id, tomb.version);
    NextBound(cfg, s, ev, tomb.id, tomb.version);
    hide Bound, SeenNewest, Ordinary;
  }

  /** Every other node that merges the tombstone is shielded too. */
  lemma MergingShields(m: Member, batch: seq<Record>, tomb: Record)
    requires MemberBound(m, tomb.id, tomb.version) && tomb.removed && tomb.id != m.self
    requires tomb in batch && forall rec | rec in batch :: OlderThan(rec, tomb.id, tomb.version)
    requires !EvictsSelf(m.self, m.roster, batch)
    ensures Shielded(Merge(m, batch), tomb.id, tomb.version)
  {
    MergedVersions(m.self, m.roster, batch, tomb.id);
    MergeFromSources(m.self, m.roster, batch, tomb.id);
    var held := MergeAll(m.self, m.roster, batch)[tomb.id];
    if !held.removed { VersionAsymmetric(held.version, tomb.version); }
    hide RosterBound, OwnBound;
  }
}
