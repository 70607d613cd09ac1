/**
 * Any number of nodes exchanging envelopes over a network that loses,
 * duplicates and reorders them. `wire` holds every envelope ever sent: a
 * message that is never received was lost, one received twice was duplicated.
 * `minted` is history: every envelope an origin stamped.
 */
module ClusterSystem {
  import opened Order
  import opened Envelopes
  import opened NodeState

  datatype Cluster = Cluster(
    nodes: map<string, Node>,
    clocks: map<string, real>,
    wire: set<Envelope>,
    minted: set<Envelope>)

  datatype Event =
    | Act(id: string, op: Op)        // node `id` performs an operation
    | Send(id: string, key: Key)     // node `id` emits what it holds under `key`
    | Tick(id: string, clock: real)  // the liveness clock of node `id` advances

  /** The envelope that an operation stamps, if it stamps one. */
  function Stamped(n: Node, op: Op): Option<Envelope> {
    match op
    case OpWrite(lk, payload, wall) =>
      Some(Envelope(Global(n, lk), Version(NextTs(n, wall), n.id), false, Some(payload)))
    case OpDelete(lk, wall) =>
      Some(Envelope(Global(n, lk), Version(NextTs(n, wall), n.id), true, None))
    case OpStamp(lk, wall) =>
      if Unstamped(n, lk)
      then Some(Envelope(Global(n, lk), Version(NextTs(n, wall), n.id), false, Some(n.registry[lk])))
      else None
    case _ => None
  }

  function AsSet(o: Option<Envelope>): set<Envelope> {
    match o case None => {} case Some(e) => {e}
  }

  predicate Enabled(s: Cluster, ev: Event) {
    && ev.id in s.nodes && ev.id in s.clocks
    && match ev
       case Act(id, op) => op.OpReceive? ==> op.env in s.wire
       case Send(id, key) => Build(s.nodes[id], key).Some?
       case Tick(id, clock) => s.clocks[id] <= clock
  }

  function Next(cfg: Config, s: Cluster, ev: Event): Cluster
    requires Enabled(s, ev)
  {
    var n := s.nodes[ev.id];
    match ev
    case Act(id, op) =>
      s.(nodes := s.nodes[id := Perform(cfg, n, op, s.clocks[id])],
         minted := s.minted + AsSet(Stamped(n, op)))
    case Send(id, key) => s.(wire := s.wire + AsSet(Build(n, key)))
    case Tick(id, clock) => s.(clocks := s.clocks[id := clock])
  }

  /** A node that has just been created: it may already own unstamped records. */
  ghost predicate FreshNode(n: Node) {
    && n.localVersions == map[] && n.tombstones == map[] && n.foreign == map[]
    && n.sessions == map[] && n.evictedUntil == map[]
    && n.disk == Disk(n.clock, map[], map[])
  }

  ghost predicate Init(s: Cluster) {
    && s.nodes.Keys == s.clocks.Keys
    && (forall id | id in s.nodes :: s.nodes[id].id == id && FreshNode(s.nodes[id]))
    && s.wire == {} && s.minted == {}
  }

  ghost predicate IsRun(cfg: Config, run: seq<Cluster>, events: seq<Event>) {
    && |run| == |events| + 1
    && Init(run[0])
    && forall i | 0 <= i < |events| :: Enabled(run[i], events[i]) && run[i + 1] == Next(cfg, run[i], events[i])
  }

  // ---- invariant ---------------------------------------------------------------

  /** What the node tracks about its own records. */
  ghost predicate OwnInv(n: Node) {
    && n.localVersions.Keys <= n.registry.Keys
    && n.tombstones.Keys !! n.registry.Keys
    && n.disk.clock <= n.clock
    && n.disk.localVersions == n.localVersions
    && n.disk.tombstones == n.tombstones
    && (forall lk | lk in n.localVersions ::
          n.localVersions[lk].node == n.id && n.localVersions[lk].ts <= n.disk.clock)
    && (forall lk | lk in n.tombstones ::
          && n.tombstones[lk].version.node == n.id
          && n.tombstones[lk].version.ts == n.tombstones[lk].deletedAt <= n.disk.clock)
  }

  /** The history of a node's own stamps, seen from its current state. */
  ghost predicate MintInv(n: Node, minted: set<Envelope>) {
    && (forall e | e in minted && e.key.origin == n.id ::
          e.version.node == n.id && e.version.ts <= n.disk.clock)
    && (forall e | e in minted && e.key.origin == n.id && Build(n, e.key).Some? ::
          e.version.ts <= Build(n, e.key).value.version.ts)
    && (forall lk {:trigger Global(n, lk)} | Build(n, Global(n, lk)).Some? :: Build(n, Global(n, lk)).value in minted)
  }

  ghost predicate OverlayInv(n: Node, minted: set<Envelope>) {
    forall k | k in n.foreign :: k.origin != n.id && n.foreign[k].key == k && n.foreign[k] in minted
  }

  ghost predicate SuppressionInv(n: Node, now: real) {
    forall k | k in n.foreign :: !Suppressed(n, k.origin, now)
  }

  /** Equal key and version means equal envelope. */
  ghost predicate Functional(minted: set<Envelope>) {
    forall e, f | e in minted && f in minted && e.key == f.key && e.version == f.version :: e == f
  }

  ghost predicate NodeInv(n: Node, minted: set<Envelope>, now: real) {
    OwnInv(n) && MintInv(n, minted) && OverlayInv(n, minted) && SuppressionInv(n, now)
  }

  ghost predicate Inv(s: Cluster) {
    && s.nodes.Keys == s.clocks.Keys
    && s.wire <= s.minted
    && Functional(s.minted)
    && forall id | id in s.nodes :: s.nodes[id].id == id && NodeInv(s.nodes[id], s.minted, s.clocks[id])
  }

  lemma InitInv(s: Cluster)
    requires Init(s)
    ensures Inv(s)
  {
  }

  lemma WriteOwnInv(n: Node, lk: LocalKey, payload: string, wall: int)
    requires OwnInv(n)
    ensures var m := Write(n, lk, payload, wall); OwnInv(m) && m.id == n.id && n.disk.clock <= m.disk.clock
  {
  }

  lemma DeleteOwnInv(n: Node, lk: LocalKey, wall: int)
    requires OwnInv(n)
    ensures var m := Delete(n, lk, wall); OwnInv(m) && m.id == n.id && n.disk.clock <= m.disk.clock
  {
  }

  lemma StampOwnInv(n: Node, lk: LocalKey, wall: int)
    requires OwnInv(n)
    ensures var m := Stamp(n, lk, wall); OwnInv(m) && m.id == n.id && n.disk.clock <= m.disk.clock
  {
  }

  lemma CollectOwnInv(cfg: Config, n: Node, wall: int)
    requires OwnInv(n)
    ensures OwnInv(Collect(cfg, n, wall)) && Collect(cfg, n, wall).disk.clock >= n.disk.clock
    ensures Collect(cfg, n, wall).id == n.id
  {
  }

  lemma OwnInvPreserved(cfg: Config, n: Node, op: Op, now: real)
    requires OwnInv(n)
    ensures OwnInv(Perform(cfg, n, op, now))
    ensures Perform(cfg, n, op, now).id == n.id
    ensures n.disk.clock <= Perform(cfg, n, op, now).disk.clock
  {
    hide OwnInv, Collect, Write, Delete, Stamp, Save;
    match op
    case OpWrite(lk, payload, wall) => WriteOwnInv(n, lk, payload, wall);
    case OpDelete(lk, wall) => DeleteOwnInv(n, lk, wall);
    case OpStamp(lk, wall) => StampOwnInv(n, lk, wall);
    case OpCollect(wall) => CollectOwnInv(cfg, n, wall);
    case OpReceive(_) => OverlayOnly(n, Perform(cfg, n, op, now));
    case OpOpen(_, _) => OverlayOnly(n, Perform(cfg, n, op, now));
    case OpTouch(_) => OverlayOnly(n, Perform(cfg, n, op, now));
    case OpDisconnect(_) => OverlayOnly(n, Perform(cfg, n, op, now));
    case OpCheckHold => OverlayOnly(n, Perform(cfg, n, op, now));
    case OpPrune => OverlayOnly(n, Perform(cfg, n, op, now));
    case _ => ClockOnly(cfg, n, op, now);
  }

  /** `n'` differs from `n` at most in the overlay, the sessions and the cooldowns. */
  lemma OverlayOnly(n: Node, n': Node)
    requires OwnInv(n)
    requires n' == n.(foreign := n'.foreign, sessions := n'.sessions, evictedUntil := n'.evictedUntil)
    ensures OwnInv(n') && n'.id == n.id && n.disk.clock <= n'.disk.clock
  {
  }

  lemma ClockOnly(cfg: Config, n: Node, op: Op, now: real)
    requires OwnInv(n) && (op.OpMint? || op.OpObserve? || op.OpSave? || op.OpRestart?)
    ensures OwnInv(Perform(cfg, n, op, now)) && Perform(cfg, n, op, now).id == n.id
    ensures n.disk.clock <= Perform(cfg, n, op, now).disk.clock
  {
  }

  lemma OverlayInvPreserved(cfg: Config, n: Node, op: Op, minted: set<Envelope>, now: real)
    requires OverlayInv(n, minted) && SuppressionInv(n, now)
    requires op.OpReceive? ==> op.env in minted
    ensures OverlayInv(Perform(cfg, n, op, now), minted)
    ensures SuppressionInv(Perform(cfg, n, op, now), now)
  {
  }

  /** Operations that stamp nothing change what the node builds for its own keys only by forgetting it. */
  lemma NoStampBuild(cfg: Config, n: Node, op: Op, now: real, k: Key)
    requires OwnInv(n) && Stamped(n, op).None?
    requires k.origin == n.id
    ensures Build(Perform(cfg, n, op, now), k).None? || Build(Perform(cfg, n, op, now), k) == Build(n, k)
  {
    hide Without, WithoutAny, CoolDown, Stale, Accepts, Build;
    if op.OpCollect? {
      CollectBuild(cfg, n, op.wall, k);
    } else {
      hide Collect;
      BuildSame(n, Perform(cfg, n, op, now), k);
    }
  }

  /** A node's own records depend on four fields only. */
  lemma BuildSame(n: Node, m: Node, k: Key)
    requires k.origin == n.id == m.id
    requires m.registry == n.registry && m.localVersions == n.localVersions && m.tombstones == n.tombstones
    ensures Build(m, k) == Build(n, k)
  {
  }

  lemma CollectBuild(cfg: Config, n: Node, wall: int, k: Key)
    requires OwnInv(n) && k.origin == n.id
    ensures Build(Collect(cfg, n, wall), k).None? || Build(Collect(cfg, n, wall), k) == Build(n, k)
  {
  }

  lemma MintInvNoStamp(cfg: Config, n: Node, op: Op, minted: set<Envelope>, now: real)
    requires OwnInv(n) && MintInv(n, minted)
    requires Stamped(n, op).None?
    ensures MintInv(Perform(cfg, n, op, now), minted)
  {
    var m := Perform(cfg, n, op, now);
    OwnInvPreserved(cfg, n, op, now);
    forall e | e in minted && e.key.origin == m.id && Build(m, e.key).Some?
      ensures e.version.ts <= Build(m, e.key).value.version.ts
    {
      NoStampBuild(cfg, n, op, now, e.key);
    }
    forall lk | Build(m, Global(m, lk)).Some?
      ensures Build(m, Global(m, lk)).value in minted
    {
      assert Global(m, lk) == Global(n, lk);
      NoStampBuild(cfg, n, op, now, Global(n, lk));
    }
  }

  /** A stamp: the node now builds the new envelope for that key and nothing else changed. */
  lemma StampBuild(cfg: Config, n: Node, op: Op, now: real, k: Key)
    requires OwnInv(n) && Stamped(n, op).Some?
    requires k.origin == n.id
    ensures var e := Stamped(n, op).value;
            && e.version.ts > n.clock
            && e.key.origin == n.id
            && Build(Perform(cfg, n, op, now), k) == if k == e.key then Some(e) else Build(n, k)
  {
  }

  lemma MintInvStamp(cfg: Config, n: Node, op: Op, minted: set<Envelope>, now: real)
    requires OwnInv(n) && MintInv(n, minted) && Functional(minted)
    requires Stamped(n, op).Some?
    ensures MintInv(Perform(cfg, n, op, now), minted + AsSet(Stamped(n, op)))
    ensures Functional(minted + AsSet(Stamped(n, op)))
    ensures forall e | e in minted && e.key.origin == n.id :: VersionLess(e.version, Stamped(n, op).value.version)
  {
    var m := Perform(cfg, n, op, now);
    var e := Stamped(n, op).value;
    StampBuild(cfg, n, op, now, e.key);
    OwnInvPreserved(cfg, n, op, now);
    forall f | f in minted + {e} && f.key.origin == m.id && Build(m, f.key).Some?
      ensures f.version.ts <= Build(m, f.key).value.version.ts
    {
      StampBuild(cfg, n, op, now, f.key);
    }
    forall lk | Build(m, Global(m, lk)).Some?
      ensures Build(m, Global(m, lk)).value in minted + {e}
    {
      assert Global(m, lk) == Global(n, lk);
      StampBuild(cfg, n, op, now, Global(n, lk));
    }
  }

  /** A stamp by one node does not disturb what another node knows. */
  lemma MintInvOther(n: Node, minted: set<Envelope>, e: Envelope, now: real)
    requires NodeInv(n, minted, now)
    requires e.key.origin != n.id
    ensures NodeInv(n, minted + {e}, now)
  {
  }

  lemma BuiltIsMinted(n: Node, minted: set<Envelope>, k: Key)
    requires MintInv(n, minted) && OverlayInv(n, minted)
    requires Build(n, k).Some?
    ensures Build(n, k).value in minted && Build(n, k).value.key == k
  {
    if k.origin == n.id { assert Global(n, Local(k)) == k; }
  }

  /** The acting node keeps its invariant, against the history its own stamp extended. */
  lemma ActorInv(cfg: Config, n: Node, op: Op, minted: set<Envelope>, now: real)
    requires NodeInv(n, minted, now) && Functional(minted)
    requires op.OpReceive? ==> op.env in minted
    ensures NodeInv(Perform(cfg, n, op, now), minted + AsSet(Stamped(n, op)), now)
    ensures Functional(minted + AsSet(Stamped(n, op)))
    ensures Perform(cfg, n, op, now).id == n.id
    ensures Stamped(n, op).Some? ==> Stamped(n, op).value.key.origin == n.id
  {
    OwnInvPreserved(cfg, n, op, now);
    OverlayInvPreserved(cfg, n, op, minted, now);
    if Stamped(n, op).None? {
      MintInvNoStamp(cfg, n, op, minted, now);
      assert minted + AsSet(Stamped(n, op)) == minted;
    } else {
      MintInvStamp(cfg, n, op, minted, now);
      OverlayGrows(Perform(cfg, n, op, now), minted, Stamped(n, op).value);
    }
  }

  lemma OverlayGrows(n: Node, minted: set<Envelope>, e: Envelope)
    requires OverlayInv(n, minted)
    ensures OverlayInv(n, minted + {e})
  {
  }

  lemma ActInv(cfg: Config, s: Cluster, ev: Event)
    requires Inv(s) && Enabled(s, ev) && ev.Act?
    ensures Inv(Next(cfg, s, ev))
  {
    hide NodeInv, Perform, Stamped, Functional;
    var n, now := s.nodes[ev.id], s.clocks[ev.id];
    var s' := Next(cfg, s, ev);
    ActorInv(cfg, n, ev.op, s.minted, now);
    forall id | id in s'.nodes
      ensures s'.nodes[id].id == id && NodeInv(s'.nodes[id], s'.minted, s'.clocks[id])
    {
      if id != ev.id && Stamped(n, ev.op).Some? {
        MintInvOther(s.nodes[id], s.minted, Stamped(n, ev.op).value, s.clocks[id]);
      } else {
        assert Stamped(n, ev.op).None? ==> s'.minted == s.minted;
      }
    }
  }

  lemma NextInv(cfg: Config, s: Cluster, ev: Event)
    requires Inv(s) && Enabled(s, ev)
    ensures Inv(Next(cfg, s, ev))
  {
    match ev
    case Act(_, _) => ActInv(cfg, s, ev);
    case Send(id, key) => BuiltIsMinted(s.nodes[id], s.minted, key);
    case Tick(_, _) =>
  }

  /** The invariant holds in every state of every run. */
  lemma {:induction false} RunInv(cfg: Config, run: seq<Cluster>, events: seq<Event>, i: nat)
    requires IsRun(cfg, run, events) && i < |run|
    ensures Inv(run[i])
  {
    if i == 0 {
      InitInv(run[0]);
    } else {
      RunInv(cfg, run, events, i - 1);
      NextInv(cfg, run[i - 1], events[i - 1]);
    }
  }

  // ---- what it means ------------------------------------------------------------

  /**
   * Safety of replication, in every reachable state: whatever a node holds for
   * another origin, and whatever is in flight, is a stamp of that origin; key and
   * version determine the envelope; nobody replicates its own records; and no
   * replica or message is newer than what the origin tracks for that key.
   */
  lemma ReplicationSafety(cfg: Config, run: seq<Cluster>, events: seq<Event>, i: nat)
    requires IsRun(cfg, run, events) && i < |run|
    ensures var s := run[i];
      && (forall e | e in s.wire :: e in s.minted)
      && (forall e, f | e in s.minted && f in s.minted && e.key == f.key && e.version == f.version :: e == f)
      && (forall id, k | id in s.nodes && k in s.nodes[id].foreign ::
            && k.origin != id
            && s.nodes[id].foreign[k].key == k
            && s.nodes[id].foreign[k] in s.minted)
      && (forall o, e | o in s.nodes && e in s.minted && e.key.origin == o && Build(s.nodes[o], e.key).Some? ::
            NotOlder(Build(s.nodes[o], e.key).value.version, e.version))
  {
    RunInv(cfg, run, events, i);
    var s := run[i];
    forall o, e | o in s.nodes && e in s.minted && e.key.origin == o && Build(s.nodes[o], e.key).Some?
      ensures NotOlder(Build(s.nodes[o], e.key).value.version, e.version)
    {
      BuiltIsMinted(s.nodes[o], s.minted, e.key);
    }
  }

  /** No replica runs ahead of the origin, as long as the origin tracks the key. */
  lemma ReplicaNotAhead(s: Cluster, o: string, id: string, k: Key)
    requires Inv(s) && o in s.nodes && id in s.nodes
    requires k.origin == o && k in s.nodes[id].foreign && Build(s.nodes[o], k).Some?
    ensures !VersionLess(Build(s.nodes[o], k).value.version, s.nodes[id].foreign[k].version)
    ensures Build(s.nodes[o], k).value.version == s.nodes[id].foreign[k].version ==>
              Build(s.nodes[o], k).value == s.nodes[id].foreign[k]
  {
    BuiltIsMinted(s.nodes[o], s.minted, k);
    VersionIrreflexive(s.nodes[id].foreign[k].version);
  }

  /** Every stamp is strictly newer than every earlier stamp of that node, restarts and clock step-backs included. */
  lemma StampsIncrease(cfg: Config, run: seq<Cluster>, events: seq<Event>, i: nat)
    requires IsRun(cfg, run, events) && i < |events|
    requires events[i].Act? && Stamped(run[i].nodes[events[i].id], events[i].op).Some?
    ensures var e := Stamped(run[i].nodes[events[i].id], events[i].op).value;
      && e in run[i + 1].minted && e !in run[i].minted
      && forall f | f in run[i].minted && f.key.origin == events[i].id :: VersionLess(f.version, e.version)
  {
    RunInv(cfg, run, events, i);
    var n := run[i].nodes[events[i].id];
    MintInvStamp(cfg, n, events[i].op, run[i].minted, run[i].clocks[events[i].id]);
    VersionIrreflexive(Stamped(n, events[i].op).value.version);
    StampBuild(cfg, n, events[i].op, run[i].clocks[events[i].id], Stamped(n, events[i].op).value.key);
  }

  /** In every reachable state a suppressed origin has no record in the overlay. */
  lemma SuppressedMeansAbsent(cfg: Config, run: seq<Cluster>, events: seq<Event>, i: nat, id: string, origin: string)
    requires IsRun(cfg, run, events) && i < |run| && id in run[i].nodes && id in run[i].clocks
    requires Suppressed(run[i].nodes[id], origin, run[i].clocks[id])
    ensures forall k | k in run[i].nodes[id].foreign :: k.origin != origin
  {
    RunInv(cfg, run, events, i);
  }

  /** What one operation can do to a cooldown on the same node. */
  lemma CooldownStep(cfg: Config, n: Node, op: Op, origin: string, now: real)
    requires Suppressed(n, origin, now) && !Suppressed(Perform(cfg, n, op, now), origin, now)
    ensures || op == OpRestart
            || (op.OpOpen? && op.peer == origin)
            || (cfg.Retention() <= 0.0 && (op == OpDisconnect(origin) || op == OpCheckHold))
  {
  }

  /**
   * Only three things end a suppression: its deadline, a new session with that
   * node, or a restart (a cooldown of no length at all, which replaces the
   * running one, aside).
   */
  lemma SuppressionLifted(cfg: Config, s: Cluster, ev: Event, id: string, origin: string)
    requires Inv(s) && Enabled(s, ev) && id in s.nodes
    requires Suppressed(s.nodes[id], origin, s.clocks[id])
    requires !Suppressed(Next(cfg, s, ev).nodes[id], origin, Next(cfg, s, ev).clocks[id])
    ensures ev.id == id
    ensures || (ev.Tick? && s.nodes[id].evictedUntil[origin] <= ev.clock)
            || (ev.Act? && ev.op == OpRestart)
            || (ev.Act? && ev.op.OpOpen? && ev.op.peer == origin)
            || (cfg.Retention() <= 0.0 && ev.Act? && (ev.op == OpDisconnect(origin) || ev.op == OpCheckHold))
  {
    if ev.Act? && ev.id == id {
      CooldownStep(cfg, s.nodes[id], ev.op, origin, s.clocks[id]);
    }
  }

  // ---- what a node forgets -----------------------------------------------------------

  /** The one operation after which a node no longer serves one of its own keys. */
  lemma LossIsCollect(cfg: Config, n: Node, op: Op, now: real, k: Key)
    requires OwnInv(n) && k.origin == n.id && Build(n, k).Some? && Build(Perform(cfg, n, op, now), k).None?
    ensures op.OpCollect? && Build(n, k).value.tombstone
  {
    if Stamped(n, op).Some? {
      StampBuild(cfg, n, op, now, k);
    } else {
      hide Build, Without, WithoutAny, CoolDown, Stale, Accepts;
      if op.OpCollect? { CollectLoses(cfg, n, op.wall, k); } else { hide Collect; BuildSame(n, Perform(cfg, n, op, now), k); }
    }
  }

  lemma CollectLoses(cfg: Config, n: Node, wall: int, k: Key)
    requires OwnInv(n) && k.origin == n.id && Build(n, k).Some? && Build(Collect(cfg, n, wall), k).None?
    ensures Build(n, k).value.tombstone
  {
  }

  /** At step `j` the origin of `k` collected its deletion of `k`, and nothing is left of it there. */
  ghost predicate CollectedAt(run: seq<Cluster>, events: seq<Event>, j: nat, k: Key)
    requires |run| == |events| + 1
  {
    && j < |events| && events[j].Act? && events[j].id == k.origin && events[j].op.OpCollect?
    && k.origin in run[j].nodes && k.origin in run[j + 1].nodes
    && Build(run[j].nodes[k.origin], k).Some? && Build(run[j].nodes[k.origin], k).value.tombstone
    && Build(run[j + 1].nodes[k.origin], k).None?
  }

  /** If an event leaves a stamped key untracked, it was so before, or the event is that collection. */
  lemma LossStep(cfg: Config, s: Cluster, ev: Event, e: Envelope)
    requires Inv(s) && Enabled(s, ev) && e in Next(cfg, s, ev).minted
    requires var o := e.key.origin; o in Next(cfg, s, ev).nodes && Build(Next(cfg, s, ev).nodes[o], e.key).None?
    ensures var o := e.key.origin;
            && o in s.nodes
            && ((e in s.minted && Build(s.nodes[o], e.key).None?)
                || (ev.Act? && ev.id == o && ev.op.OpCollect? && Build(s.nodes[o], e.key).Some? && Build(s.nodes[o], e.key).value.tombstone))
  {
    var o := e.key.origin;
    hide Inv, OwnInv, Build, Perform, Stamped;
    if ev.Act? {
      var n := s.nodes[ev.id];
      OwnInvOf(s, ev.id);
      if e !in s.minted { StampKey(n, ev.op); }
      if ev.id == o { OpLoses(cfg, n, ev.op, s.clocks[o], e, s.minted); }
    }
  }

  lemma OwnInvOf(s: Cluster, id: string)
    requires Inv(s) && id in s.nodes
    ensures OwnInv(s.nodes[id]) && s.nodes[id].id == id
  {
  }

  lemma StampKey(n: Node, op: Op)
    ensures Stamped(n, op).Some? ==> Stamped(n, op).value.key.origin == n.id
  {
  }

  lemma OpLoses(cfg: Config, n: Node, op: Op, now: real, e: Envelope, minted: set<Envelope>)
    requires OwnInv(n) && e.key.origin == n.id && e in minted + AsSet(Stamped(n, op)) && Build(Perform(cfg, n, op, now), e.key).None?
    ensures (e in minted && Build(n, e.key).None?) || (op.OpCollect? && Build(n, e.key).Some? && Build(n, e.key).value.tombstone)
  {
    hide OwnInv, Build, Perform, Stamped;
    if Stamped(n, op).Some? { StampBuild(cfg, n, op, now, e.key); }
    if Build(n, e.key).Some? { LossIsCollect(cfg, n, op, now, e.key); }
  }

  /** In every run: a key that was stamped and is no longer tracked by its origin was deleted there, and the deletion collected. */
  lemma {:induction false} LostByCollect(cfg: Config, run: seq<Cluster>, events: seq<Event>, i: nat, e: Envelope)
    requires IsRun(cfg, run, events) && i < |run| && e in run[i].minted
    requires e.key.origin in run[i].nodes && Build(run[i].nodes[e.key.origin], e.key).None?
    ensures exists j: nat :: j < i && CollectedAt(run, events, j, e.key)
  {
    if i > 0 {
      hide CollectedAt, Inv, Build;
      RunInv(cfg, run, events, i - 1);
      LossStep(cfg, run[i - 1], events[i - 1], e);
      hide Next, Enabled, IsRun;
      if e in run[i - 1].minted && Build(run[i - 1].nodes[e.key.origin], e.key).None? {
        LostByCollect(cfg, run, events, i - 1, e);
      } else {
        MarkCollected(run, events, i - 1, e.key);
      }
    }
  }

  lemma MarkCollected(run: seq<Cluster>, events: seq<Event>, j: nat, k: Key)
    requires |run| == |events| + 1 && j < |events| && events[j].Act? && events[j].id == k.origin && events[j].op.OpCollect?
    requires k.origin in run[j].nodes && Build(run[j].nodes[k.origin], k).Some? && Build(run[j].nodes[k.origin], k).value.tombstone
    requires k.origin in run[j + 1].nodes && Build(run[j + 1].nodes[k.origin], k).None?
    ensures CollectedAt(run, events, j, k)
  {
  }

  // ---- the version clock ----------------------------------------------------------

  /** The timestamp an operation issues, stamps of records and membership versions alike. */
  function Issued(n: Node, op: Op): Option<int> {
    match op
    case OpWrite(_, _, wall) => Some(NextTs(n, wall))
    case OpDelete(_, wall) => Some(NextTs(n, wall))
    case OpStamp(lk, wall) => if Unstamped(n, lk) then Some(NextTs(n, wall)) else None
    case OpMint(floor, wall) => Some(Mint(n, floor, wall).clock)
    case _ => None
  }

  ghost predicate RestartsAt(events: seq<Event>, id: string, i: nat) {
    i < |events| && events[i] == Act(id, OpRestart)
  }

  lemma ClockStep(cfg: Config, s: Cluster, ev: Event, id: string)
    requires Inv(s) && Enabled(s, ev) && id in s.nodes
    ensures s.nodes[id].disk.clock <= Next(cfg, s, ev).nodes[id].disk.clock
    ensures ev != Act(id, OpRestart) ==> s.nodes[id].clock <= Next(cfg, s, ev).nodes[id].clock
  {
    if ev.Act? && ev.id == id {
      OpClock(cfg, s.nodes[id], ev.op, s.clocks[id]);
    }
  }

  lemma OpClock(cfg: Config, n: Node, op: Op, now: real)
    requires OwnInv(n)
    ensures n.disk.clock <= Perform(cfg, n, op, now).disk.clock
    ensures op != OpRestart ==> n.clock <= Perform(cfg, n, op, now).clock
  {
  }

  lemma RunClockStep(cfg: Config, run: seq<Cluster>, events: seq<Event>, id: string, i: nat)
    requires IsRun(cfg, run, events) && i < |events| && id in run[i].nodes
    ensures id in run[i + 1].nodes
    ensures run[i].nodes[id].disk.clock <= run[i + 1].nodes[id].disk.clock
    ensures !RestartsAt(events, id, i) ==> run[i].nodes[id].clock <= run[i + 1].nodes[id].clock
    ensures run[i].nodes[id].disk.clock <= run[i].nodes[id].clock
  {
    RunInv(cfg, run, events, i);
    ClockStep(cfg, run[i], events[i], id);
  }

  lemma SavedBelowRunning(cfg: Config, run: seq<Cluster>, events: seq<Event>, id: string, i: nat)
    requires IsRun(cfg, run, events) && i < |run| && id in run[i].nodes
    ensures run[i].nodes[id].disk.clock <= run[i].nodes[id].clock
  {
    RunInv(cfg, run, events, i);
  }

  /** The saved clock never falls. */
  lemma {:induction false} SavedClockFloor(cfg: Config, run: seq<Cluster>, events: seq<Event>, id: string, i: nat, j: nat)
    requires IsRun(cfg, run, events) && i <= j < |run| && id in run[i].nodes
    ensures id in run[j].nodes
    ensures run[i].nodes[id].disk.clock <= run[j].nodes[id].disk.clock
  {
    if i < j {
      SavedClockFloor(cfg, run, events, id, i, j - 1);
      RunClockStep(cfg, run, events, id, j - 1);
    }
  }

  /** Without a restart the running clock never falls. */
  lemma {:induction false} RunningClockFloor(cfg: Config, run: seq<Cluster>, events: seq<Event>, id: string, i: nat, j: nat)
    requires IsRun(cfg, run, events) && i <= j < |run| && id in run[i].nodes
    requires forall m | i <= m < j :: !RestartsAt(events, id, m)
    ensures id in run[j].nodes
    ensures run[i].nodes[id].clock <= run[j].nodes[id].clock
  {
    if i < j {
      RunningClockFloor(cfg, run, events, id, i, j - 1);
      RunClockStep(cfg, run, events, id, j - 1);
    }
  }

  /**
   * Whatever the wall clock reads: a version issued at step j is strictly newer
   * than one issued by the same node at an earlier step i, unless a restart in
   * between lost the clock, which a save after i rules out.
   */
  lemma IssuedIncrease(cfg: Config, run: seq<Cluster>, events: seq<Event>, id: string, i: nat, j: nat, m: nat)
    requires IsRun(cfg, run, events) && i < m <= j < |events| && id in run[i].nodes && id in run[m].nodes
    requires events[i].Act? && events[i].id == id && events[j].Act? && events[j].id == id
    requires Issued(run[i].nodes[id], events[i].op).Some? && Issued(run[j].nodes[id], events[j].op).Some?
    requires || (forall r | i < r < j :: !RestartsAt(events, id, r))
             || Issued(run[i].nodes[id], events[i].op).value <= run[m].nodes[id].disk.clock
    ensures Issued(run[i].nodes[id], events[i].op).value < Issued(run[j].nodes[id], events[j].op).value
  {
    var t := Issued(run[i].nodes[id], events[i].op).value;
    assert run[i + 1].nodes[id].clock == t;
    if t <= run[m].nodes[id].disk.clock {
      SavedClockFloor(cfg, run, events, id, m, j);
      SavedBelowRunning(cfg, run, events, id, j);
    } else {
      RunningClockFloor(cfg, run, events, id, i + 1, j);
    }
  }

  /** Some operation, at some wall reading, issues a version no newer than `t`. */
  ghost predicate CanReissue(n: Node, t: int) { exists op :: Issued(n, op).Some? && Issued(n, op).value <= t }

  /** After a restart a version no newer than `t` can be issued if and only if the saved clock was below `t`. */
  lemma ReissueIff(n: Node, t: int)
    requires OwnInv(n)
    ensures CanReissue(Restart(n), t) <==> n.disk.clock < t
  {
    var m := Restart(n);
    if n.disk.clock < t {
      assert Issued(m, OpMint(m.clock, m.clock)) == Some(m.clock + 1);
    }
  }

  /**
   * For every node and every operation that issues a version: a crash right after it lets
   * that version be issued again if and only if its save has not reached the disk, and that
   * is the case exactly for the membership mints, which leave the save to their caller.
   */
  lemma UnsavedVersionRepeats(cfg: Config, n: Node, op: Op, now: real)
    requires OwnInv(n) && Issued(n, op).Some?
    ensures var m, t := Perform(cfg, n, op, now), Issued(n, op).value;
      && (CanReissue(Restart(m), t) <==> m.disk.clock < t)
      && (m.disk.clock < t <==> op.OpMint?)
  {
    OwnInvPreserved(cfg, n, op, now);
    ReissueIff(Perform(cfg, n, op, now), Issued(n, op).value);
    hide OwnInv, CanReissue;
  }

  /** In every run: a version `t` is safe from a restart exactly when the clock saved by then has reached it. */
  lemma ReissueAtRestart(cfg: Config, run: seq<Cluster>, events: seq<Event>, id: string, r: nat, t: int)
    requires IsRun(cfg, run, events) && RestartsAt(events, id, r)
    ensures id in run[r].nodes && id in run[r + 1].nodes
    ensures CanReissue(run[r + 1].nodes[id], t) <==> run[r].nodes[id].disk.clock < t
  {
    RunInv(cfg, run, events, r);
    ReissueIff(run[r].nodes[id], t);
    hide Inv, CanReissue;
  }
}
