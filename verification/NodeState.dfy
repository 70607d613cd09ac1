/**
 * The state of one cluster node and what each operation of `ClusterStore`
 * does to it (cluster/store.py, cluster/state.py, cluster/config.py).
 *
 * Times: versions are wall-clock milliseconds (arbitrary integers, they may
 * step back); liveness times are readings of a monotonic clock, in seconds.
 */
module NodeState {
  import opened Order
  import opened Envelopes

  datatype Config = Config(hold: real, keepalive: real) {
    /** `tombstone_retention`. */
    function Retention(): real { hold + keepalive }

    /** `int(tombstone_retention * 1000)`: truncation toward zero. */
    function RetentionMs(): int {
      var x := Retention() * 1000.0;
      if x >= 0.0 then x.Floor else -((-x).Floor)
    }
  }

  /** Composite key of a record this node owns: dataset and service id. */
  datatype LocalKey = LocalKey(dataset: string, sid: string)

  datatype Tombstone = Tombstone(version: Version, deletedAt: int)

  datatype Peer = Peer(namespaces: set<string>, lastSeen: real)

  /** The part of the state that `ClusterState.save` writes. */
  datatype Disk = Disk(clock: int, localVersions: map<LocalKey, Version>, tombstones: map<LocalKey, Tombstone>)

  datatype Node = Node(
    id: string,
    clock: int,
    localVersions: map<LocalKey, Version>,
    tombstones: map<LocalKey, Tombstone>,
    registry: map<LocalKey, string>,
    foreign: map<Key, Envelope>,
    sessions: map<string, Peer>,
    evictedUntil: map<string, real>,
    disk: Disk)

  function Max(a: int, b: int): int { if a < b then b else a }

  function Global(n: Node, lk: LocalKey): Key { Key(lk.dataset, n.id, lk.sid) }

  function Local(k: Key): LocalKey { LocalKey(k.dataset, k.sid) }

  function Save(n: Node): Node {
    n.(disk := Disk(n.clock, n.localVersions, n.tombstones))
  }

  /** `_next_ts` */
  function NextTs(n: Node, wall: int): int { Max(wall, n.clock + 1) }

  // ---- envelopes and indices -------------------------------------------------

  /** `_build_envelope_for_key` together with `_build_local_envelope`. */
  function Build(n: Node, k: Key): Option<Envelope> {
    if k.origin != n.id then
      if k in n.foreign then Some(n.foreign[k]) else None
    else if Local(k) in n.tombstones then
      Some(Envelope(k, n.tombstones[Local(k)].version, true, None))
    else if Local(k) in n.localVersions && Local(k) in n.registry then
      Some(Envelope(k, n.localVersions[Local(k)], false, Some(n.registry[Local(k)])))
    else
      None
  }

  /** An empty namespace list means every dataset. */
  predicate InScope(ns: set<string>, dataset: string) { ns == {} || dataset in ns }

  function OwnKeys(n: Node): set<Key> {
    (set lk | lk in n.registry :: Global(n, lk)) + (set lk | lk in n.tombstones :: Global(n, lk))
  }

  /** `_full_index`: the version of every record the node can serve. */
  function FullIndex(n: Node, ns: set<string>): map<Key, Version> {
    map k | k in OwnKeys(n) + n.foreign.Keys && InScope(ns, k.dataset) && Build(n, k).Some?
      :: Build(n, k).value.version
  }

  function At(idx: map<Key, Version>, k: Key): Option<Version> {
    if k in idx then Some(idx[k]) else None
  }

  // ---- operations ------------------------------------------------------------

  /** Is `origin` still in its post-eviction cooldown? */
  predicate Suppressed(n: Node, origin: string, now: real) {
    origin in n.evictedUntil && now < n.evictedUntil[origin]
  }

  /** Does `apply_inbound` store the envelope? */
  predicate Accepts(n: Node, e: Envelope, now: real) {
    && e.key.origin != n.id
    && !Suppressed(n, e.key.origin, now)
    && Newer(e.version, if e.key in n.foreign then Some(n.foreign[e.key].version) else None)
  }

  function Receive(n: Node, e: Envelope, now: real): Node {
    if Accepts(n, e, now) then n.(foreign := n.foreign[e.key := e]) else n
  }

  /** A registry write and its `on_local_mutation` hook. */
  function Write(n: Node, lk: LocalKey, payload: string, wall: int): Node {
    var ts := NextTs(n, wall);
    Save(n.(clock := ts,
            registry := n.registry[lk := payload],
            localVersions := n.localVersions[lk := Version(ts, n.id)],
            tombstones := n.tombstones - {lk}))
  }

  /** A registry removal and its `on_local_mutation` hook. */
  function Delete(n: Node, lk: LocalKey, wall: int): Node {
    var ts := NextTs(n, wall);
    Save(n.(clock := ts,
            registry := n.registry - {lk},
            localVersions := n.localVersions - {lk},
            tombstones := n.tombstones[lk := Tombstone(Version(ts, n.id), ts)]))
  }

  predicate Unstamped(n: Node, lk: LocalKey) {
    lk in n.registry && lk !in n.localVersions && lk !in n.tombstones
  }

  /** One stamp of `_ensure_local_versions`, with the save that ends the pass. */
  function Stamp(n: Node, lk: LocalKey, wall: int): Node {
    if Unstamped(n, lk) then
      var ts := NextTs(n, wall);
      Save(n.(clock := ts, localVersions := n.localVersions[lk := Version(ts, n.id)]))
    else n
  }

  /** `next_version_after`; `next_version` is the case of a floor below the clock. */
  function Mint(n: Node, floor: int, wall: int): Node {
    n.(clock := Max(Max(wall, n.clock + 1), floor + 1))
  }

  function Observe(n: Node, ms: int): Node {
    if ms > n.clock then n.(clock := ms) else n
  }

  /** `handle_open` / `connect_peer`: a session starts and lifts suppression. */
  function Open(n: Node, peer: string, ns: set<string>, now: real): Node {
    n.(sessions := n.sessions[peer := Peer(ns, now)], evictedUntil := n.evictedUntil - {peer})
  }

  /** `_touch_peer` */
  function Touch(n: Node, peer: string, now: real): Node {
    if peer in n.sessions then
      n.(sessions := n.sessions[peer := n.sessions[peer].(lastSeen := now)])
    else n
  }

  function Without(foreign: map<Key, Envelope>, origin: string): map<Key, Envelope> {
    map k | k in foreign && k.origin != origin :: foreign[k]
  }

  /** `disconnect_peer`, the single eviction path. */
  function Disconnect(cfg: Config, n: Node, peer: string, now: real): Node {
    n.(sessions := n.sessions - {peer},
       foreign := Without(n.foreign, peer),
       evictedUntil := n.evictedUntil[peer := now + cfg.Retention()])
  }

  /** Sessions that `check_hold` finds silent for longer than the hold time. */
  function Stale(cfg: Config, n: Node, now: real): set<string> {
    set p | p in n.sessions && now - n.sessions[p].lastSeen > cfg.hold
  }

  /** Several peers through the eviction path, each at its own reading of the clock. */
  function Drop(cfg: Config, n: Node, gone: set<string>, at: string -> real): Node {
    n.(sessions := n.sessions - gone,
       foreign := WithoutAny(n.foreign, gone),
       evictedUntil := CoolDown(n.evictedUntil, gone, at, cfg.Retention()))
  }

  function WithoutAny(foreign: map<Key, Envelope>, origins: set<string>): map<Key, Envelope> {
    map k | k in foreign && k.origin !in origins :: foreign[k]
  }

  function CoolDown(until: map<string, real>, origins: set<string>, at: string -> real, length: real): map<string, real> {
    map p | p in until.Keys + origins :: if p in origins then at(p) + length else until[p]
  }

  /** `check_hold`: every session stale at `now` goes through the eviction path, which reads the clock again. */
  function CheckHold(cfg: Config, n: Node, now: real, at: string -> real): Node { Drop(cfg, n, Stale(cfg, n, now), at) }

  /** A clock that stands still. */
  function Reading(now: real): string -> real { _ => now }

  predicate Expired(cfg: Config, t: int, wall: int) { wall - t > cfg.RetentionMs() }

  /** `gc_tombstones` */
  function Collect(cfg: Config, n: Node, wall: int): Node {
    var kept := map lk | lk in n.tombstones && !Expired(cfg, n.tombstones[lk].deletedAt, wall) :: n.tombstones[lk];
    var n1 := if kept == n.tombstones then n else Save(n.(tombstones := kept));
    n1.(foreign := map k | k in n.foreign && !(n.foreign[k].tombstone && Expired(cfg, n.foreign[k].version.ts, wall)) :: n.foreign[k])
  }

  /** `prune_suppression` */
  function Prune(n: Node, now: real): Node {
    n.(evictedUntil := map p | p in n.evictedUntil && now < n.evictedUntil[p] :: n.evictedUntil[p])
  }

  /** A crash and a reload of the saved state: everything else is memory-only. */
  function Restart(n: Node): Node {
    Node(n.id, n.disk.clock, n.disk.localVersions, n.disk.tombstones, n.registry, map[], map[], map[], n.disk)
  }

  /** Everything a node does by itself or on a message. */
  datatype Op =
    | OpReceive(env: Envelope)
    | OpWrite(lk: LocalKey, payload: string, wall: int)
    | OpDelete(lk: LocalKey, wall: int)
    | OpStamp(lk: LocalKey, wall: int)
    | OpMint(floor: int, wall: int)
    | OpObserve(ms: int)
    | OpSave
    | OpOpen(peer: string, namespaces: set<string>)
    | OpTouch(peer: string)
    | OpDisconnect(peer: string)
    | OpCheckHold
    | OpCollect(wall: int)
    | OpPrune
    | OpRestart

  function Perform(cfg: Config, n: Node, op: Op, now: real): Node {
    match op
    case OpReceive(e) => Receive(n, e, now)
    case OpWrite(lk, payload, wall) => Write(n, lk, payload, wall)
    case OpDelete(lk, wall) => Delete(n, lk, wall)
    case OpStamp(lk, wall) => Stamp(n, lk, wall)
    case OpMint(floor, wall) => Mint(n, floor, wall)
    case OpObserve(ms) => Observe(n, ms)
    case OpSave => Save(n)
    case OpOpen(peer, ns) => Open(n, peer, ns, now)
    case OpTouch(peer) => Touch(n, peer, now)
    case OpDisconnect(peer) => Disconnect(cfg, n, peer, now)
    case OpCheckHold => CheckHold(cfg, n, now, Reading(now))
    case OpCollect(wall) => Collect(cfg, n, wall)
    case OpPrune => Prune(n, now)
    case OpRestart => Restart(n)
  }
}
