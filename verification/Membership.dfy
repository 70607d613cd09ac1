/**
 * The declarative membership plane (cluster/membership.py): every node owns
 * one record, records are merged by LWW, removals are tombstones that must
 * outlive the removed node's live record.
 */
module Membership {
  import opened Order
  import opened Envelopes
  import opened NodeState

  datatype Record = Record(id: string, cluster: Option<string>, address: string, version: Version, removed: bool)

  type Roster = map<string, Record>

  /** What `_persist` writes; the list of records has at most one per node. */
  datatype Saved = Saved(cluster: Option<string>, roster: Roster, version: Option<Version>)

  datatype Member = Member(self: string, advertise: string, roster: Roster, saved: Saved)

  /** `cluster_id` */
  function ClusterOf(m: Member): Option<string> {
    if m.self in m.roster then m.roster[m.self].cluster else None
  }

  function VersionOf(r: Roster, id: string): Option<Version> {
    if id in r then Some(r[id].version) else None
  }

  // ---- merging ---------------------------------------------------------------------------

  /** One turn of the loop of `merge`: a node's own record is never overwritten. */
  function MergeOne(self: string, r: Roster, rec: Record): Roster {
    if rec.id != self && Newer(rec.version, VersionOf(r, rec.id)) then r[rec.id := rec] else r
  }

  function MergeAll(self: string, r: Roster, recs: seq<Record>): Roster
    decreases |recs|
  {
    if recs == [] then r else MergeAll(self, MergeOne(self, r, recs[0]), recs[1..])
  }

  /** A newer removal of the merging node itself. */
  predicate EvictsSelf(self: string, r: Roster, recs: seq<Record>) {
    exists rec :: rec in recs && rec.id == self && rec.removed && Newer(rec.version, VersionOf(r, self))
  }

  /** `_persist` */
  function Persist(m: Member): Member {
    var cid := ClusterOf(m);
    m.(saved := Saved(cid,
                      map n | n in m.roster && n != m.self && m.roster[n].cluster == cid :: m.roster[n],
                      VersionOf(m.roster, m.self)))
  }

  function Standalone(m: Member): Member { Persist(m.(roster := map[])) }

  /** `merge` */
  function Merge(m: Member, recs: seq<Record>): Member {
    var merged := m.(roster := MergeAll(m.self, m.roster, recs));
    if EvictsSelf(m.self, m.roster, recs) then Standalone(m)
    else if merged == m then m
    else Persist(merged)
  }

  // ---- removals ----------------------------------------------------------------------------

  function Floor(r: Roster, id: string): int { if id in r then r[id].version.ts else 0 }

  /** The version `next_version_after` gives a tombstone for `id`. */
  function TombstoneVersion(m: Member, id: string, clock: int, wall: int): Version {
    Version(Max(Max(wall, clock + 1), Floor(m.roster, id) + 1), m.self)
  }

  /** The tombstone of `set_remove` for one member. */
  function RemovalTombstone(m: Member, id: string, address: string, clock: int, wall: int): Record {
    Record(id, ClusterOf(m), if id in m.roster then m.roster[id].address else address, TombstoneVersion(m, id, clock, wall), true)
  }

  /** The tombstone of `handle_evict_self`, written when `id` says it leaves. */
  function LeaveTombstone(m: Member, id: string, clock: int, wall: int): Record {
    Record(id, if id in m.roster then m.roster[id].cluster else ClusterOf(m),
           if id in m.roster then m.roster[id].address else "", TombstoneVersion(m, id, clock, wall), true)
  }

  function Bury(m: Member, tomb: Record): Member { m.(roster := m.roster[tomb.id := tomb]) }

  /** `gc_membership` */
  function Forget(cfg: Config, m: Member, wall: int): Member {
    m.(roster := map n | n in m.roster && !(m.roster[n].removed && Expired(cfg, m.roster[n].version.ts, wall)) :: m.roster[n])
  }

  // ---- connections -------------------------------------------------------------------------

  predicate Wanted(m: Member, n: string) {
    && ClusterOf(m).Some? && n in m.roster && n != m.self
    && m.roster[n].cluster == ClusterOf(m) && !m.roster[n].removed && m.roster[n].address != ""
  }

  /** `desired_peers` */
  function Desired(m: Member): map<string, string> {
    map n | n in m.roster && Wanted(m, n) :: m.roster[n].address
  }

  /** `is_removed_or_absent` */
  predicate RemovedOrAbsent(m: Member, n: string) {
    n !in m.roster || m.roster[n].removed || m.roster[n].cluster != ClusterOf(m)
  }

  // ---- restart -----------------------------------------------------------------------------

  /** `_init_from_state`: `minted` is the version minted when none was saved. */
  function Reload(cfg: Config, self: string, advertise: string, saved: Saved, minted: Version, wall: int): Member {
    var empty := Member(self, advertise, map[], saved);
    if saved.cluster.None? then empty
    else
      var own := Record(self, saved.cluster, advertise, if saved.version.Some? then saved.version.value else minted, false);
      Forget(cfg, empty.(roster := (saved.roster - {self})[self := own]), wall)
  }

  // ---- order independence ------------------------------------------------------------------

  /** `v` is the newest version for `id` among `r` and `recs`. */
  ghost predicate IsNewest(v: Option<Version>, r: Roster, recs: seq<Record>, id: string) {
    && (v.None? <==> id !in r && forall rec | rec in recs :: rec.id != id)
    && (v.Some? ==>
          && ((id in r && v.value == r[id].version) || exists rec :: rec in recs && rec.id == id && rec.version == v.value)
          && (id in r ==> NotOlder(v.value, r[id].version))
          && forall rec | rec in recs && rec.id == id :: NotOlder(v.value, rec.version))
  }

  lemma {:induction false} OwnRecordKept(self: string, r: Roster, recs: seq<Record>)
    ensures VersionOf(MergeAll(self, r, recs), self) == VersionOf(r, self)
    ensures self in r ==> MergeAll(self, r, recs)[self] == r[self]
    decreases |recs|
  {
    if recs != [] { OwnRecordKept(self, MergeOne(self, r, recs[0]), recs[1..]); }
  }

  lemma MergeOneNewest(self: string, r: Roster, rec: Record, rest: seq<Record>, id: string, v: Option<Version>)
    requires id != self && IsNewest(v, MergeOne(self, r, rec), rest, id)
    ensures IsNewest(v, r, [rec] + rest, id)
  {
    var mid := MergeOne(self, r, rec);
    if rec.id == id {
      if id in r { VersionTotal(rec.version, r[id].version); }
      assert id in mid && NotOlder(mid[id].version, rec.version);
      NotOlderTransitive(v.value, mid[id].version, rec.version);
      if id in r { NotOlderTransitive(v.value, mid[id].version, r[id].version); }
    }
  }

  /** After any batch the version map is the pointwise LWW maximum. */
  lemma {:induction false} MergedVersions(self: string, r: Roster, recs: seq<Record>, id: string)
    requires id != self
    ensures IsNewest(VersionOf(MergeAll(self, r, recs), id), r, recs, id)
    decreases |recs|
  {
    if recs != [] {
      var mid := MergeOne(self, r, recs[0]);
      MergedVersions(self, mid, recs[1..], id);
      MergeOneNewest(self, r, recs[0], recs[1..], id, VersionOf(MergeAll(self, mid, recs[1..]), id));
      assert recs == [recs[0]] + recs[1..];
    }
  }

  /** Version maps do not depend on the order or repetition of merges. */
  lemma MergeOrderIrrelevant(self: string, r: Roster, a: seq<Record>, b: seq<Record>, id: string)
    requires forall rec :: rec in a <==> rec in b
    ensures VersionOf(MergeAll(self, r, a), id) == VersionOf(MergeAll(self, r, b), id)
  {
    if id == self {
      OwnRecordKept(self, r, a);
      OwnRecordKept(self, r, b);
    } else {
      MergedVersions(self, r, a, id);
      MergedVersions(self, r, b, id);
      var x, y := VersionOf(MergeAll(self, r, a), id), VersionOf(MergeAll(self, r, b), id);
      if x.Some? && y.Some? && x != y {
        assert NotOlder(x.value, y.value) && NotOlder(y.value, x.value);
        VersionAsymmetric(x.value, y.value);
      }
    }
  }

  lemma {:induction false} MergeAppend(self: string, r: Roster, a: seq<Record>, b: seq<Record>)
    ensures MergeAll(self, r, a + b) == MergeAll(self, MergeAll(self, r, a), b)
    decreases |a|
  {
    if a == [] {
      assert a + b == b;
    } else {
      assert (a + b)[1..] == a[1..] + b;
      MergeAppend(self, MergeOne(self, r, a[0]), a[1..], b);
    }
  }

  /** Nor on how they are grouped into batches, as long as no batch removes the merging node. */
  lemma MergeGroupingIrrelevant(m: Member, a: seq<Record>, b: seq<Record>)
    requires !EvictsSelf(m.self, m.roster, a + b)
    ensures Merge(Merge(m, a), b).roster == Merge(m, a + b).roster == MergeAll(m.self, m.roster, a + b)
  {
    OwnRecordKept(m.self, m.roster, a);
    MergeAppend(m.self, m.roster, a, b);
    assert !EvictsSelf(m.self, m.roster, a) by {
      assert forall rec | rec in a :: rec in a + b;
    }
    var mid := Merge(m, a);
    assert mid.roster == MergeAll(m.self, m.roster, a);
    assert !EvictsSelf(m.self, mid.roster, b) by {
      assert forall rec | rec in b :: rec in a + b;
      assert VersionOf(mid.roster, m.self) == VersionOf(m.roster, m.self);
    }
  }

  /** A merge takes a node out of its cluster exactly if the batch holds a removal of it newer than its own record. */
  lemma SelfEvictionIff(m: Member, recs: seq<Record>)
    requires m.self in m.roster && ClusterOf(m).Some?
    ensures var removal := exists rec :: rec in recs && rec.id == m.self && rec.removed && VersionLess(m.roster[m.self].version, rec.version);
      && (m.self !in Merge(m, recs).roster <==> removal)
      && (removal ==> Merge(m, recs).roster == map[] && Merge(m, recs).saved == Saved(None, map[], None))
      && (!removal ==> ClusterOf(Merge(m, recs)) == ClusterOf(m))
  {
    OwnRecordKept(m.self, m.roster, recs);
  }

  /** What a merge changed is on disk when it returns: a restart right after it loses none of this cluster's records. */
  lemma MergeSaves(m: Member, recs: seq<Record>, n: string)
    requires m.self in m.roster && Merge(m, recs).roster != m.roster && n != m.self
    ensures var after := Merge(m, recs);
      && after.saved.cluster == ClusterOf(after)
      && (n in after.saved.roster <==> n in after.roster && after.roster[n].cluster == ClusterOf(after))
      && (n in after.saved.roster ==> after.saved.roster[n] == after.roster[n])
  {
  }

  // ---- tombstones win --------------------------------------------------------------------------

  /** A tombstone beats every record of that node no newer than the one its minter saw. */
  lemma TombstoneBeatsSeen(m: Member, id: string, clock: int, wall: int, v: Version)
    requires id in m.roster && NotOlder(m.roster[id].version, v)
    ensures VersionLess(v, TombstoneVersion(m, id, clock, wall))
    ensures clock < TombstoneVersion(m, id, clock, wall).ts
  {
  }

  // ---- restart restores -------------------------------------------------------------------------

  /** The roster a restart should come back with. */
  function Expected(cfg: Config, m: Member, wall: int): Roster {
    map n | n in m.roster && m.roster[n].cluster == ClusterOf(m) && (n == m.self || !(m.roster[n].removed && Expired(cfg, m.roster[n].version.ts, wall)))
      :: m.roster[n]
  }

  ghost predicate IdsMatch(r: Roster) { forall n | n in r :: r[n].id == n }

  /**
   * Persist, crash, reload: a clustered node whose own record is live gets back
   * exactly its cluster's records minus expired removals, its own membership
   * version, and the same peers to connect to.
   */
  lemma RestartRestores(cfg: Config, m: Member, minted: Version, wall: int)
    requires IdsMatch(m.roster) && m.self in m.roster && ClusterOf(m).Some?
    requires !m.roster[m.self].removed && m.roster[m.self].address == m.advertise
    ensures var back := Reload(cfg, m.self, m.advertise, Persist(m).saved, minted, wall);
      && back.roster == Expected(cfg, m, wall)
      && back.saved == Persist(m).saved
      && ClusterOf(back) == ClusterOf(m)
      && VersionOf(back.roster, m.self) == VersionOf(m.roster, m.self)
      && Desired(back) == Desired(m)
  {
  }

  /** Reloading gives back the node's own record exactly when that record is live and advertises the same address. */
  lemma OwnRecordRestoredIff(cfg: Config, m: Member, minted: Version, wall: int)
    requires IdsMatch(m.roster) && m.self in m.roster && ClusterOf(m).Some?
    ensures var back := Reload(cfg, m.self, m.advertise, Persist(m).saved, minted, wall);
      && m.self in back.roster
      && (back.roster[m.self] == m.roster[m.self] <==> !m.roster[m.self].removed && m.roster[m.self].address == m.advertise)
  {
  }
}
