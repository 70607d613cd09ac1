/**
 * What each operation of a node comes to, told by what can be observed afterwards: the
 * records the node serves, its sessions, and whose records it refuses at which time
 * (cluster/store.py).
 */
module StepEffects {
  import opened Order
  import opened Envelopes
  import opened NodeState
  import opened ClusterSystem

  /** The state of the acting node before and after it performs `op`. */
  function After(cfg: Config, s: Cluster, id: string, op: Op): Node
    requires Enabled(s, Act(id, op))
  {
    Next(cfg, s, Act(id, op)).nodes[id]
  }

  /** For all origins but one the node refuses the same records at the same times. */
  ghost predicate SameRefusals(n: Node, m: Node, except: set<string>) {
    forall o, t | o !in except :: Suppressed(m, o, t) == Suppressed(n, o, t)
  }

  /** Records of other origins are as they were. */
  ghost predicate SameRecords(n: Node, m: Node, except: set<string>) {
    forall k: Key | k.origin !in except :: (k in m.foreign <==> k in n.foreign) && (k in n.foreign ==> m.foreign[k] == n.foreign[k])
  }

  ghost predicate SameSessions(n: Node, m: Node, except: set<string>) {
    forall p | p !in except :: (p in m.sessions <==> p in n.sessions) && (p in n.sessions ==> m.sessions[p] == n.sessions[p])
  }

  /**
   * A new session lifts the cooldown at once and for good: from then on the node takes
   * everything of that peer which is newer than what it holds. Nobody else is affected.
   */
  lemma OpenLifts(cfg: Config, s: Cluster, id: string, peer: string, ns: set<string>)
    requires Enabled(s, Act(id, OpOpen(peer, ns)))
    ensures var n, m := s.nodes[id], After(cfg, s, id, OpOpen(peer, ns));
      && (forall t :: !Suppressed(m, peer, t))
      && peer in m.sessions && m.sessions[peer].namespaces == ns && m.sessions[peer].lastSeen == s.clocks[id]
      && (forall e: Envelope, t | e.key.origin == peer != n.id && (e.key in n.foreign ==> VersionLess(n.foreign[e.key].version, e.version)) ::
            e.key in Receive(m, e, t).foreign && Receive(m, e, t).foreign[e.key] == e)
      && SameRefusals(n, m, {peer}) && SameSessions(n, m, {peer}) && SameRecords(n, m, {})
  {
  }

  /** An eviction drops session and records and refuses that origin for exactly the cooldown. */
  lemma DisconnectCuts(cfg: Config, s: Cluster, id: string, peer: string)
    requires Enabled(s, Act(id, OpDisconnect(peer)))
    ensures var n, m := s.nodes[id], After(cfg, s, id, OpDisconnect(peer));
      && peer !in m.sessions && (forall k | k in m.foreign :: k.origin != peer)
      && (forall t :: Suppressed(m, peer, t) <==> t < s.clocks[id] + cfg.hold + cfg.keepalive)
      && SameRefusals(n, m, {peer}) && SameSessions(n, m, {peer}) && SameRecords(n, m, {peer})
  {
  }

  /** A hold check does that to exactly the peers silent for longer than the hold time. */
  lemma HoldCheckCuts(cfg: Config, s: Cluster, id: string)
    requires Enabled(s, Act(id, OpCheckHold))
    ensures var n, m, now := s.nodes[id], After(cfg, s, id, OpCheckHold), s.clocks[id];
      var silent := set p | p in n.sessions && n.sessions[p].lastSeen + cfg.hold < now;
      && (forall p | p in silent :: p !in m.sessions && (forall t :: Suppressed(m, p, t) <==> t < now + cfg.hold + cfg.keepalive))
      && (forall k | k in m.foreign :: k.origin !in silent)
      && SameRefusals(n, m, silent) && SameSessions(n, m, silent) && SameRecords(n, m, silent)
  {
  }

  /** Hearing from a known peer restarts its timer and changes nothing else. */
  lemma TouchRestartsTimer(cfg: Config, s: Cluster, id: string, peer: string)
    requires Enabled(s, Act(id, OpTouch(peer)))
    ensures var n, m := s.nodes[id], After(cfg, s, id, OpTouch(peer));
      && (peer in m.sessions <==> peer in n.sessions)
      && (peer in n.sessions ==> m.sessions[peer].lastSeen == s.clocks[id] && m.sessions[peer].namespaces == n.sessions[peer].namespaces)
      && SameRefusals(n, m, {}) && SameSessions(n, m, {peer}) && SameRecords(n, m, {})
  {
  }

  /** Pruning cannot be observed from now on, and leaves no cooldown that has ended. */
  lemma PruneInvisible(cfg: Config, s: Cluster, id: string)
    requires Enabled(s, Act(id, OpPrune))
    ensures var n, m := s.nodes[id], After(cfg, s, id, OpPrune);
      && (forall o, t | s.clocks[id] <= t :: Suppressed(m, o, t) == Suppressed(n, o, t))
      && (forall o | o in m.evictedUntil :: s.clocks[id] < m.evictedUntil[o])
      && SameSessions(n, m, {}) && SameRecords(n, m, {})
  {
  }

  /** A tombstone expires once the retention, in whole milliseconds, has passed. */
  lemma ExpiredMeans(cfg: Config, stamped: int, wall: int)
    requires 0.0 <= cfg.hold + cfg.keepalive
    ensures Expired(cfg, stamped, wall) <==> (wall - stamped - 1) as real >= (1000.0 * (cfg.hold + cfg.keepalive)).Floor as real
    ensures (wall - stamped) as real <= 1000.0 * (cfg.hold + cfg.keepalive) ==> !Expired(cfg, stamped, wall)
    ensures 1000.0 * (cfg.hold + cfg.keepalive) + 1.0 <= (wall - stamped) as real ==> Expired(cfg, stamped, wall)
  {
    assert cfg.Retention() * 1000.0 == 1000.0 * (cfg.hold + cfg.keepalive);
  }

  /** What is left of a record after a collection: nothing if it is an expired deletion. */
  function AfterCollection(cfg: Config, was: Option<Envelope>, wall: int): Option<Envelope> {
    if was.Some? && was.value.tombstone && Expired(cfg, was.value.version.ts, wall) then None else was
  }

  /** A collection forgets exactly the expired deletions, own and replicated, and no live record. */
  lemma CollectForgetsExpired(cfg: Config, s: Cluster, id: string, wall: int, k: Key)
    requires Inv(s) && Enabled(s, Act(id, OpCollect(wall)))
    ensures var n, m := s.nodes[id], After(cfg, s, id, OpCollect(wall));
      && Build(m, k) == AfterCollection(cfg, Build(n, k), wall)
      && SameRefusals(n, m, {}) && SameSessions(n, m, {})
  {
    OwnInvOf(s, id);
    CollectFrame(cfg, s.nodes[id], wall);
    hide Inv, OwnInv, Build, Collect, Expired;
    if k.origin == id { CollectedOwn(cfg, s.nodes[id], wall, k); } else { CollectedReplica(cfg, s.nodes[id], wall, k); }
  }

  lemma CollectFrame(cfg: Config, n: Node, wall: int)
    ensures var m := Collect(cfg, n, wall); m.id == n.id && m.sessions == n.sessions && m.evictedUntil == n.evictedUntil
  {
  }

  lemma CollectedOwn(cfg: Config, n: Node, wall: int, k: Key)
    requires OwnInv(n) && k.origin == n.id
    ensures Build(Collect(cfg, n, wall), k) == AfterCollection(cfg, Build(n, k), wall)
  {
    hide Expired;
  }

  lemma CollectedReplica(cfg: Config, n: Node, wall: int, k: Key)
    requires k.origin != n.id
    ensures Build(Collect(cfg, n, wall), k) == AfterCollection(cfg, Build(n, k), wall)
  {
    hide Expired;
  }

  /** After a crash the node serves the same own records, and knows nothing of anybody else. */
  lemma RestartKeepsOwn(cfg: Config, s: Cluster, id: string, k: Key)
    requires Inv(s) && Enabled(s, Act(id, OpRestart))
    ensures var n, m := s.nodes[id], After(cfg, s, id, OpRestart);
      && Build(m, k) == (if k.origin == id then Build(n, k) else None)
      && m.sessions == map[] && forall o, t :: !Suppressed(m, o, t)
  {
    hide MintInv, OverlayInv, SuppressionInv, Functional;
  }

  /** The stamp a write gets: above the clock, not behind the wall clock, and no higher than that asks for. */
  ghost predicate NextStamp(ts: int, clock: int, wall: int) {
    clock < ts && wall <= ts && (ts == wall || ts == clock + 1)
  }

  /** A write serves the new payload under a new stamp, a deletion serves a tombstone, and both are saved. */
  lemma MutationServed(cfg: Config, s: Cluster, id: string, lk: LocalKey, payload: string, wall: int)
    requires Inv(s) && id in s.nodes
    ensures var n, m := s.nodes[id], After(cfg, s, id, OpWrite(lk, payload, wall));
      && NextStamp(m.clock, n.clock, wall)
      && Build(m, Key(lk.dataset, id, lk.sid)) == Some(Envelope(Key(lk.dataset, id, lk.sid), Version(m.clock, id), false, Some(payload)))
      && Build(Restart(m), Key(lk.dataset, id, lk.sid)) == Build(m, Key(lk.dataset, id, lk.sid)) && Restart(m).clock == m.clock
    ensures var n, m := s.nodes[id], After(cfg, s, id, OpDelete(lk, wall));
      && NextStamp(m.clock, n.clock, wall) && lk !in m.registry
      && Build(m, Key(lk.dataset, id, lk.sid)) == Some(Envelope(Key(lk.dataset, id, lk.sid), Version(m.clock, id), true, None))
      && Build(Restart(m), Key(lk.dataset, id, lk.sid)) == Build(m, Key(lk.dataset, id, lk.sid)) && Restart(m).clock == m.clock
  {
    hide NodeInv, Functional;
  }
}
