/**
 * Can collecting tombstones bring a deleted record back (cluster/store.py
 * `gc_tombstones`, cluster/config.py `tombstone_retention`)?
 *
 * The argument of the code is that whoever could still hold an older copy has evicted
 * the origin before the deletion is forgotten. Here that is a theorem with its exact
 * condition on the time lines involved.
 */
module CollectBound {
  import opened Order
  import opened Envelopes
  import opened NodeState
  import C = ClusterSystem
  import opened Delivery
  import opened TimedWorld

  /**
   * A deletion of `key` stamped `version` at time `at`. A node that has not received it is in
   * contact with the origin until `at + grace` at the latest, and a wall clock runs ahead of
   * the stamp by at most `skew` milliseconds more than the time that has passed.
   */
  datatype Deletion = Deletion(key: Key, version: Version, at: real, grace: real, skew: real)

  /** The last moment at which somebody can still hold, and send, an older copy. */
  function LastSent(cfg: Config, lim: Limits, del: Deletion): real { del.at + del.grace + cfg.hold + lim.d }

  /** The last moment at which an older copy can arrive. */
  function LastArrival(cfg: Config, lim: Limits, del: Deletion): real { LastSent(cfg, lim, del) + lim.e }

  predicate Sane(cfg: Config, lim: Limits, del: Deletion) {
    0.0 <= cfg.hold && 0.0 <= lim.d && 0.0 <= lim.e && 0.0 <= del.grace
  }

  /** Neither the cooldown after an eviction nor the tombstone ends before the last arrival. */
  predicate RetainedLongEnough(cfg: Config, lim: Limits, del: Deletion) {
    && del.grace + lim.d + lim.e < cfg.keepalive
    && 1000.0 * (del.grace + cfg.hold + lim.d + lim.e) + del.skew < (cfg.RetentionMs() + 1) as real
  }

  /** The node holds the deletion, or something newer. */
  predicate Knows(n: Node, del: Deletion) { del.key in n.foreign && NotOlder(n.foreign[del.key].version, del.version) }

  /** The node holds a copy from before the deletion. */
  predicate Stale(n: Node, del: Deletion) { del.key in n.foreign && VersionLess(n.foreign[del.key].version, del.version) }

  /** Until the last arrival: no restart, no contact after the grace before the deletion is known, and wall clocks within the skew. */
  predicate InOrder(n: Node, op: Op, now: real, del: Deletion) {
    match op
    case OpRestart => false
    case OpOpen(peer, _) => peer == del.key.origin ==> Knows(n, del) || now <= del.at + del.grace
    case OpTouch(peer) => peer == del.key.origin ==> Knows(n, del) || now <= del.at + del.grace
    case OpCollect(wall) => wall as real <= del.version.ts as real + 1000.0 * (now - del.at) + del.skew
    case _ => true
  }

  /** The origin itself, and everybody later on, may do anything. */
  function Orderly(cfg: Config, lim: Limits, del: Deletion): Rule {
    (w: World, id: string, op: Op) =>
      id != del.key.origin && id in w.nodes && w.now <= LastArrival(cfg, lim, del) ==> InOrder(w.nodes[id], op, w.now, del)
  }

  /** The origin has deleted the record, and will never again serve or stamp anything as old. */
  ghost predicate Deleted(n: Node, del: Deletion) {
    && C.OwnInv(n) && KeysMatch(n) && n.id == del.key.origin == del.version.node && del.version.ts <= n.disk.clock
    && (Build(n, del.key).Some? ==> NotOlder(Build(n, del.key).value.version, del.version))
  }

  /** Still in session with the origin, but not for longer than the hold time after the grace. */
  predicate Waiting(cfg: Config, n: Node, checked: real, del: Deletion) {
    && del.key.origin in n.sessions && n.sessions[del.key.origin].lastSeen <= del.at + del.grace
    && checked <= del.at + del.grace + cfg.hold
  }

  /** Has evicted the origin, for longer than an older copy can arrive. */
  predicate Shielded(n: Node, del: Deletion, until: real) {
    del.key !in n.foreign && del.key.origin in n.evictedUntil && until < n.evictedUntil[del.key.origin]
  }

  /**
   * The moment of the deletion. Every other node has received it, has a session with the
   * origin, or has evicted it so lately that the cooldown outlasts every older copy.
   */
  ghost predicate Start(cfg: Config, w: World, lim: Limits, del: Deletion) {
    && w.now == del.at
    && (forall m | m in w.flight :: m.built <= w.now)
    && (del.key.origin in w.nodes ==> Deleted(w.nodes[del.key.origin], del))
    && forall id | id in w.nodes && id != del.key.origin ::
         var n := w.nodes[id];
         && n.id == id && KeysMatch(n) && id in w.checked && w.checked[id] <= w.now <= w.checked[id] + lim.d
         && (|| Knows(n, del)
             || (del.key.origin in n.sessions && n.sessions[del.key.origin].lastSeen <= w.now)
             || Shielded(n, del, LastArrival(cfg, lim, del)))
  }

  // ---- the bound ---------------------------------------------------------------------------

  ghost predicate Settled(cfg: Config, n: Node, checked: real, now: real, lim: Limits, del: Deletion) {
    && KeysMatch(n) && n.id != del.key.origin
    && if LastArrival(cfg, lim, del) < now then !Stale(n, del) else
         && checked <= now <= checked + lim.d
         && (Knows(n, del) || Waiting(cfg, n, checked, del) || Shielded(n, del, LastArrival(cfg, lim, del)))
  }

  ghost predicate WorldInv(cfg: Config, w: World, lim: Limits, del: Deletion) {
    && del.at <= w.now
    && (forall m | m in w.flight && m.env.key == del.key && VersionLess(m.env.version, del.version) :: m.built <= LastSent(cfg, lim, del))
    && (del.key.origin in w.nodes ==> Deleted(w.nodes[del.key.origin], del))
    && forall id | id in w.nodes && id != del.key.origin ::
         w.nodes[id].id == id && id in w.checked && Settled(cfg, w.nodes[id], w.checked[id], w.now, lim, del)
  }

  lemma KnowsNotStale(n: Node, del: Deletion)
    requires Knows(n, del)
    ensures !Stale(n, del)
  {
    var v := n.foreign[del.key].version;
    if VersionLess(v, del.version) {
      if v == del.version { VersionIrreflexive(v); } else { VersionAsymmetric(v, del.version); }
    }
  }

  /** A stale node is still in session with the origin, so it is not too late. */
  lemma StaleIsEarly(cfg: Config, n: Node, checked: real, now: real, lim: Limits, del: Deletion)
    requires Sane(cfg, lim, del) && Settled(cfg, n, checked, now, lim, del) && Stale(n, del)
    ensures now <= LastSent(cfg, lim, del)
  {
    if Knows(n, del) { KnowsNotStale(n, del); }
  }

  lemma AdvanceSettled(cfg: Config, n: Node, checked: real, now: real, t: real, lim: Limits, del: Deletion)
    requires Sane(cfg, lim, del) && Settled(cfg, n, checked, now, lim, del) && now <= t <= checked + lim.d
    ensures Settled(cfg, n, checked, t, lim, del)
  {
    if Knows(n, del) { KnowsNotStale(n, del); }
  }

  lemma CheckSettled(cfg: Config, n: Node, checked: real, now: real, at: string -> real, lim: Limits, del: Deletion)
    requires Sane(cfg, lim, del) && RetainedLongEnough(cfg, lim, del) && del.at <= now <= at(del.key.origin)
    requires Settled(cfg, n, checked, now, lim, del)
    ensures Settled(cfg, CheckHold(cfg, n, now, at), now, now, lim, del)
    ensures CheckHold(cfg, n, now, at).id == n.id
  {
  }

  lemma ReceiveSettled(cfg: Config, n: Node, e: Envelope, built: real, checked: real, now: real, lim: Limits, del: Deletion)
    requires Sane(cfg, lim, del) && Settled(cfg, n, checked, now, lim, del) && now <= built + lim.e
    requires e.key == del.key && VersionLess(e.version, del.version) ==> built <= LastSent(cfg, lim, del)
    ensures Settled(cfg, Receive(n, e, now), checked, now, lim, del)
    ensures Receive(n, e, now).id == n.id
  {
    if Knows(n, del) && e.key == del.key && Accepts(n, e, now) {
      NotOlderTransitive(e.version, n.foreign[del.key].version, del.version);
    }
  }

  /** Within the skew no tombstone of the deletion, or of a later one, has expired. */
  lemma NotExpired(cfg: Config, v: Version, wall: int, now: real, lim: Limits, del: Deletion)
    requires RetainedLongEnough(cfg, lim, del) && now <= LastArrival(cfg, lim, del) && NotOlder(v, del.version)
    requires wall as real <= del.version.ts as real + 1000.0 * (now - del.at) + del.skew
    ensures !Expired(cfg, v.ts, wall)
  {
    assert 1000.0 * (now - del.at) <= 1000.0 * (del.grace + cfg.hold + lim.d + lim.e);
    assert (wall - del.version.ts) as real < (cfg.RetentionMs() + 1) as real;
  }

  lemma CollectSettled(cfg: Config, n: Node, wall: int, checked: real, now: real, lim: Limits, del: Deletion)
    requires RetainedLongEnough(cfg, lim, del) && Settled(cfg, n, checked, now, lim, del)
    requires now <= LastArrival(cfg, lim, del) ==> wall as real <= del.version.ts as real + 1000.0 * (now - del.at) + del.skew
    ensures Settled(cfg, Collect(cfg, n, wall), checked, now, lim, del)
    ensures Collect(cfg, n, wall).id == n.id
  {
    if now <= LastArrival(cfg, lim, del) && Knows(n, del) {
      NotExpired(cfg, n.foreign[del.key].version, wall, now, lim, del);
    }
  }

  lemma LocalSettled(cfg: Config, n: Node, op: Op, checked: real, now: real, lim: Limits, del: Deletion)
    requires Sane(cfg, lim, del) && RetainedLongEnough(cfg, lim, del) && del.at <= now
    requires Settled(cfg, n, checked, now, lim, del) && !op.OpReceive? && !op.OpCheckHold?
    requires now <= LastArrival(cfg, lim, del) ==> InOrder(n, op, now, del)
    ensures Settled(cfg, Perform(cfg, n, op, now), checked, now, lim, del)
    ensures Perform(cfg, n, op, now).id == n.id
  {
    if op.OpCollect? { CollectSettled(cfg, n, op.wall, checked, now, lim, del); }
    hide Collect, VersionLess;
  }

  /** A deletion at the origin makes it `Deleted`. */
  lemma DeleteDeletes(n: Node, lk: LocalKey, wall: int, del: Deletion)
    requires C.OwnInv(n) && KeysMatch(n) && del.key == Global(n, lk) && del.version == Version(NextTs(n, wall), n.id)
    ensures Deleted(Delete(n, lk, wall), del)
  {
    C.DeleteOwnInv(n, lk, wall);
  }

  lemma KeysStayMatched(cfg: Config, n: Node, op: Op, now: real)
    requires KeysMatch(n)
    ensures KeysMatch(Perform(cfg, n, op, now))
  {
  }

  lemma OriginOp(cfg: Config, n: Node, op: Op, now: real, del: Deletion)
    requires Deleted(n, del)
    ensures Deleted(Perform(cfg, n, op, now), del)
  {
    C.OwnInvPreserved(cfg, n, op, now);
    KeysStayMatched(cfg, n, op, now);
    if C.Stamped(n, op).Some? {
      C.StampBuild(cfg, n, op, now, del.key);
      StampVersion(n, op);
    } else {
      C.NoStampBuild(cfg, n, op, now, del.key);
    }
    hide Perform, Build, C.Stamped, C.OwnInv, KeysMatch;
  }

  lemma StampVersion(n: Node, op: Op)
    requires C.Stamped(n, op).Some? && C.OwnInv(n)
    ensures var v := C.Stamped(n, op).value.version; v.node == n.id && n.disk.clock < v.ts
  {
  }

  /** Messages and checks change nothing about a node's own records. */
  lemma OriginOverlay(n: Node, m: Node, del: Deletion)
    requires Deleted(n, del) && KeysMatch(m) && m == n.(foreign := m.foreign, sessions := m.sessions, evictedUntil := m.evictedUntil)
    ensures Deleted(m, del)
  {
    C.OverlayOnly(n, m);
    C.BuildSame(n, m, del.key);
  }

  lemma SendInTime(cfg: Config, w: World, from: string, lim: Limits, del: Deletion)
    requires Sane(cfg, lim, del) && WorldInv(cfg, w, lim, del) && from in w.nodes
    requires Build(w.nodes[from], del.key).Some? && VersionLess(Build(w.nodes[from], del.key).value.version, del.version)
    ensures w.now <= LastSent(cfg, lim, del)
  {
    var n := w.nodes[from];
    if from == del.key.origin {
      VersionAsymmetric(Build(n, del.key).value.version, del.version);
    } else {
      StaleIsEarly(cfg, n, w.checked[from], w.now, lim, del);
    }
  }

  /** One node has a new state, and possibly a new time of its last check. */
  lemma ReplaceInv(cfg: Config, w: World, id: string, m: Node, checked: map<string, real>, lim: Limits, del: Deletion)
    requires WorldInv(cfg, w, lim, del) && id in w.nodes
    requires id == del.key.origin ==> Deleted(m, del)
    requires id != del.key.origin ==> m.id == id && id in checked && Settled(cfg, m, checked[id], w.now, lim, del)
    requires forall z | z in w.checked && z != id :: z in checked && checked[z] == w.checked[z]
    ensures WorldInv(cfg, w.(nodes := w.nodes[id := m], checked := checked), lim, del)
  {
    hide Settled, Deleted;
  }

  lemma StepInv(cfg: Config, w: World, ev: Event, lim: Limits, del: Deletion)
    requires Sane(cfg, lim, del) && RetainedLongEnough(cfg, lim, del)
    requires WorldInv(cfg, w, lim, del) && Enabled(w, ev, lim, Orderly(cfg, lim, del))
    ensures WorldInv(cfg, Step(cfg, w, ev), lim, del)
  {
    var o := del.key.origin;
    match ev {
      case Advance(t) =>
        forall id | id in w.nodes && id != o ensures Settled(cfg, w.nodes[id], w.checked[id], t, lim, del) {
          AdvanceSettled(cfg, w.nodes[id], w.checked[id], w.now, t, lim, del);
        }
      case Check(id, at) => CheckInv(cfg, w, id, at, lim, del); hide WorldInv;
      case Send(from, key) =>
        BuildsItsKey(cfg, w, from, key, lim, del);
        if key == del.key && VersionLess(Build(w.nodes[from], key).value.version, del.version) { SendInTime(cfg, w, from, lim, del); }
        hide Settled, Build, Deleted;
      case Arrive(to, msg) => ArriveInv(cfg, w, to, msg, lim, del); hide WorldInv;
      case Local(id, op) => LocalInv(cfg, w, id, op, lim, del); hide WorldInv;
    }
  }

  lemma CheckInv(cfg: Config, w: World, id: string, at: string -> real, lim: Limits, del: Deletion)
    requires Sane(cfg, lim, del) && RetainedLongEnough(cfg, lim, del)
    requires WorldInv(cfg, w, lim, del) && id in w.nodes && forall p :: w.now <= at(p)
    ensures WorldInv(cfg, Step(cfg, w, Check(id, at)), lim, del)
  {
    var n, m := w.nodes[id], CheckHold(cfg, w.nodes[id], w.now, at);
    if id == del.key.origin { OriginOverlay(n, m, del); } else { CheckSettled(cfg, n, w.checked[id], w.now, at, lim, del); }
    hide WorldInv, Settled, Deleted, CheckHold;
    ReplaceInv(cfg, w, id, m, w.checked[id := w.now], lim, del);
  }

  lemma ArriveInv(cfg: Config, w: World, to: string, msg: Message, lim: Limits, del: Deletion)
    requires Sane(cfg, lim, del)
    requires WorldInv(cfg, w, lim, del) && to in w.nodes && msg in w.flight && w.now <= msg.built + lim.e
    ensures WorldInv(cfg, Step(cfg, w, Arrive(to, msg)), lim, del)
  {
    var n, m := w.nodes[to], Receive(w.nodes[to], msg.env, w.now);
    if to == del.key.origin {
      OriginOverlay(n, m, del);
    } else {
      ReceiveSettled(cfg, n, msg.env, msg.built, w.checked[to], w.now, lim, del);
    }
    hide Settled, Deleted, Receive;
    ReplaceInv(cfg, w, to, m, w.checked, lim, del);
    hide WorldInv;
  }

  lemma LocalInv(cfg: Config, w: World, id: string, op: Op, lim: Limits, del: Deletion)
    requires Sane(cfg, lim, del) && RetainedLongEnough(cfg, lim, del)
    requires WorldInv(cfg, w, lim, del) && Enabled(w, Local(id, op), lim, Orderly(cfg, lim, del))
    ensures WorldInv(cfg, Step(cfg, w, Local(id, op)), lim, del)
  {
    var n := w.nodes[id];
    if id == del.key.origin { OriginOp(cfg, n, op, w.now, del); } else { LocalSettled(cfg, n, op, w.checked[id], w.now, lim, del); }
    hide Settled, Deleted, Perform;
    ReplaceInv(cfg, w, id, Perform(cfg, n, op, w.now), w.checked, lim, del);
    hide WorldInv;
  }

  lemma BuildsItsKey(cfg: Config, w: World, from: string, key: Key, lim: Limits, del: Deletion)
    requires WorldInv(cfg, w, lim, del) && from in w.nodes && Build(w.nodes[from], key).Some?
    ensures Build(w.nodes[from], key).value.key == key
  {
  }

  lemma {:induction false} RunInv(cfg: Config, w: World, events: seq<Event>, lim: Limits, del: Deletion)
    requires Sane(cfg, lim, del) && RetainedLongEnough(cfg, lim, del)
    requires WorldInv(cfg, w, lim, del) && CanRun(cfg, w, events, lim, Orderly(cfg, lim, del))
    ensures WorldInv(cfg, Run(cfg, w, events, lim, Orderly(cfg, lim, del)), lim, del)
    decreases |events|
  {
    if events != [] {
      StepInv(cfg, w, events[0], lim, del);
      hide WorldInv, Step, Enabled, Orderly;
      RunInv(cfg, Step(cfg, w, events[0]), events[1..], lim, del);
    }
  }

  /**
   * A collected deletion stays deleted: after the last arrival no node holds an older copy and
   * none ever will again, however collections, restarts, new sessions, checks and messages go on.
   * Until then only nodes that wait for the deletion hold one.
   */
  lemma DeletionSticks(cfg: Config, w: World, events: seq<Event>, lim: Limits, del: Deletion)
    requires Sane(cfg, lim, del) && RetainedLongEnough(cfg, lim, del)
    requires Start(cfg, w, lim, del) && CanRun(cfg, w, events, lim, Orderly(cfg, lim, del))
    ensures var end := Run(cfg, w, events, lim, Orderly(cfg, lim, del));
      && (LastSent(cfg, lim, del) < end.now ==>
            forall id | id in end.nodes && id != del.key.origin :: !Stale(end.nodes[id], del))
      && (del.key.origin in end.nodes && Build(end.nodes[del.key.origin], del.key).Some? ==>
            NotOlder(Build(end.nodes[del.key.origin], del.key).value.version, del.version))
  {
    RunInv(cfg, w, events, lim, del);
    var end := Run(cfg, w, events, lim, Orderly(cfg, lim, del));
    forall id | id in end.nodes && id != del.key.origin && Stale(end.nodes[id], del)
      ensures end.now <= LastSent(cfg, lim, del)
    {
      StaleIsEarly(cfg, end.nodes[id], end.checked[id], end.now, lim, del);
    }
  }

  // ---- the condition is exact -----------------------------------------------------------------

  const GONE: Envelope := Envelope(RECORD, Version(2, "x"), true, None)

  /** Node `a` once it has received the deletion, from another node than the origin. */
  function Told(until: real): Node { Evicted("a", until).(foreign := map[RECORD := GONE]) }

  /** The deletion of the record of `x`, with the end of the grace at time zero. */
  function Removal(grace: real, skew: real): Deletion { Deletion(RECORD, Version(2, "x"), -grace, grace, skew) }

  /** Until the end of the grace `b` stays in contact with the origin, without learning of the deletion. */
  lemma {:induction false} ContactTime(cfg: Config, lim: Limits, del: Deletion, a: Node, from: real, steps: nat) returns (events: seq<Event>)
    requires Sane(cfg, lim, del) && del.at + del.grace == 0.0 && del.key == RECORD
    requires 0.0 < lim.d && from <= 0.0 && -from <= steps as real * lim.d && a.sessions == map[]
    ensures Leads(cfg, Two(a, Survivor("b", from), from, from, from, {}), events, Two(a, Survivor("b", 0.0), 0.0, 0.0, 0.0, {}), lim, Orderly(cfg, lim, del))
    decreases steps
  {
    if from == 0.0 {
      events := [];
    } else {
      var mid := if -from <= lim.d then 0.0 else from + lim.d;
      assert (steps - 1) as real * lim.d == steps as real * lim.d - lim.d;
      var head := ContactRound(cfg, lim, del, a, from, mid);
      var rest := ContactTime(cfg, lim, del, a, mid, steps - 1);
      hide Leads, Two, Survivor, Orderly;
      LeadsOn(cfg, Two(a, Survivor("b", from), from, from, from, {}), head, Two(a, Survivor("b", mid), mid, mid, mid, {}), rest,
              Two(a, Survivor("b", 0.0), 0.0, 0.0, 0.0, {}), lim, Orderly(cfg, lim, del));
      events := head + rest;
    }
  }

  lemma ContactRound(cfg: Config, lim: Limits, del: Deletion, a: Node, from: real, to: real) returns (events: seq<Event>)
    requires Sane(cfg, lim, del) && del.at + del.grace == 0.0 && del.key == RECORD
    requires from <= to <= 0.0 && to <= from + lim.d && a.sessions == map[]
    ensures Leads(cfg, Two(a, Survivor("b", from), from, from, from, {}), events, Two(a, Survivor("b", to), to, to, to, {}), lim, Orderly(cfg, lim, del))
  {
    var rule, b, b' := Orderly(cfg, lim, del), Survivor("b", from), Survivor("b", to);
    var w, w1, w2 := Two(a, b, from, from, from, {}), Two(a, b, to, from, from, {}), Two(a, b', to, from, from, {});
    AdvanceTwo(cfg, lim, rule, a, b, from, from, from, {}, to);
    TouchRefreshes(cfg, from, to);
    assert rule(w1, "b", OpTouch("x"));
    CheckAfterEviction(cfg, a, to);
    CheckQuiet(cfg, "b", to, to);
    hide Leads, Two, Survivor, Checked, Perform, Orderly;
    LocalB(cfg, lim, rule, a, b, b', to, from, from, {}, OpTouch("x"));
    var t := CheckRound(cfg, lim, rule, a, a, b', b', to, from, from, {}, to);
    JoinThree(cfg, lim, rule, w, [Advance(to)], w1, [Local("b", OpTouch("x"))], w2, t, Two(a, b', to, to, to, {}));
    events := [Advance(to)] + [Local("b", OpTouch("x"))] + t;
  }

  lemma TouchRefreshes(cfg: Config, from: real, to: real)
    ensures Perform(cfg, Survivor("b", from), OpTouch("x"), to) == Survivor("b", to)
  {
  }

  /** Then `b` hears nothing any more, and sends its old copy at the last moment. */
  lemma OldCopySent(cfg: Config, lim: Limits, del: Deletion, a: Node) returns (events: seq<Event>)
    requires Sane(cfg, lim, del) && del.at + del.grace == 0.0 && del.key == RECORD && 0.0 < lim.d && a.sessions == map[]
    ensures var last := cfg.hold + lim.d;
            Leads(cfg, Two(a, Survivor("b", del.at), del.at, del.at, del.at, {}), events,
                  Two(a, Evicted("b", last + cfg.Retention()), last, last, last, {Message(STORED, last)}), lim, Orderly(cfg, lim, del))
  {
    var rule, last, b := Orderly(cfg, lim, del), cfg.hold + lim.d, Survivor("b", 0.0);
    var steps := EnoughSteps(del.grace, lim.d);
    hide Leads, Two, Survivor, Evicted, Checked, Orderly;
    var t1 := ContactTime(cfg, lim, del, a, del.at, steps);
    forall t | 0.0 <= t <= cfg.hold ensures Checked(cfg, a, t) == a && Checked(cfg, b, t) == b {
      CheckAfterEviction(cfg, a, t);
      CheckQuiet(cfg, "b", 0.0, t);
    }
    var t2 := Quiet(cfg, lim, rule, a, b, {}, 0.0, cfg.hold);
    var t3 := LastMessage(cfg, lim, rule, a);
    var w, w1, w2 := Two(a, Survivor("b", del.at), del.at, del.at, del.at, {}), Two(a, b, 0.0, 0.0, 0.0, {}), Two(a, b, cfg.hold, cfg.hold, cfg.hold, {});
    JoinThree(cfg, lim, rule, w, t1, w1, t2, w2, t3, Two(a, Evicted("b", last + cfg.Retention()), last, last, last, {Message(STORED, last)}));
    events := t1 + t2 + t3;
  }

  /** The cooldown is too short: `a` has left the origin at the deletion, and takes the old copy when the cooldown is over. */
  lemma ReturnsAfterCooldown(cfg: Config, lim: Limits, del: Deletion) returns (events: seq<Event>)
    requires Sane(cfg, lim, del) && del.at + del.grace == 0.0 && del.key == RECORD && 0.0 < lim.d
    requires cfg.keepalive <= del.grace + lim.d + lim.e
    ensures var last, until := cfg.hold + lim.d, del.at + cfg.Retention();
            var end := last + lim.e + lim.d;
            Leads(cfg, Two(Survivor("a", del.at), Survivor("b", del.at), del.at, del.at, del.at, {}), events,
                  Two(Relearnt(until), Evicted("b", last + cfg.Retention()), end, end, end, {Message(STORED, last)}), lim, Orderly(cfg, lim, del))
  {
    var rule, last, until, at := Orderly(cfg, lim, del), cfg.hold + lim.d, del.at + cfg.Retention(), del.at;
    var end := last + lim.e + lim.d;
    var a, b, gone, b' := Survivor("a", at), Survivor("b", at), Evicted("a", until), Evicted("b", last + cfg.Retention());
    var f := {Message(STORED, last)};
    LeavingEvicts(cfg, at);
    MayLeave(cfg, lim, del, Two(a, b, at, at, at, {}));
    assert gone.sessions == map[] && b'.sessions == map[];
    hide Leads, Two, Survivor, Evicted, Relearnt, Perform, Orderly;
    LocalA(cfg, lim, rule, a, gone, b, at, at, at, {}, OpDisconnect("x"));
    var t2 := OldCopySent(cfg, lim, del, gone);
    var t3 := LateArrival(cfg, lim, rule, until, b', last, last, last + lim.e, end);
    var w, w1, w2 := Two(a, b, at, at, at, {}), Two(gone, b, at, at, at, {}), Two(gone, b', last, last, last, f);
    JoinThree(cfg, lim, rule, w, [Local("a", OpDisconnect("x"))], w1, t2, w2, t3, Two(Relearnt(until), b', end, end, end, f));
    events := [Local("a", OpDisconnect("x"))] + t2 + t3;
  }

  lemma MayLeave(cfg: Config, lim: Limits, del: Deletion, w: World)
    ensures Orderly(cfg, lim, del)(w, "a", OpDisconnect("x"))
  {
  }

  lemma LeavingEvicts(cfg: Config, at: real)
    ensures Perform(cfg, Survivor("a", at), OpDisconnect("x"), at) == Evicted("a", at + cfg.Retention())
  {
  }

  /** The tombstone is collected too early: `a` has received the deletion, forgets it, and takes the old copy. */
  lemma ReturnsAfterCollection(cfg: Config, lim: Limits, del: Deletion) returns (events: seq<Event>)
    requires Sane(cfg, lim, del) && del.at + del.grace == 0.0 && del.key == RECORD && del.version == Version(2, "x") && 0.0 < lim.d
    requires (cfg.RetentionMs() + 1) as real <= 1000.0 * (del.grace + cfg.hold + lim.d + lim.e) + del.skew
    ensures var last := cfg.hold + lim.d;
            var end := last + lim.e + lim.d;
            Leads(cfg, Two(Told(del.at), Survivor("b", del.at), del.at, del.at, del.at, {}), events,
                  Two(Relearnt(del.at), Evicted("b", last + cfg.Retention()), end, end, end, {Message(STORED, last)}), lim, Orderly(cfg, lim, del))
  {
    var rule, last, at := Orderly(cfg, lim, del), cfg.hold + lim.d, del.at;
    var late, end, wall := last + lim.e, last + lim.e + lim.d, 2 + cfg.RetentionMs() + 1;
    var a, b, gone, b' := Told(at), Survivor("b", at), Evicted("a", at), Evicted("b", last + cfg.Retention());
    var f := {Message(STORED, last)};
    Forgets(cfg, at, late);
    MayCollect(cfg, lim, del, Two(a, b', late, late, late, f), wall);
    assert a.sessions == map[] && b'.sessions == map[];
    hide Leads, Two, Survivor, Evicted, Relearnt, Told, Perform, Orderly;
    var t1 := OldCopySent(cfg, lim, del, a);
    var t2 := QuietAfterEviction(cfg, lim, rule, a, b', f, last, late);
    LocalA(cfg, lim, rule, a, gone, b', late, late, late, f, OpCollect(wall));
    var t4 := LateArrival(cfg, lim, rule, at, b', last, late, late, end);
    var w, w1, w2, w3 := Two(a, b, at, at, at, {}), Two(a, b', last, last, last, f), Two(a, b', late, late, late, f), Two(gone, b', late, late, late, f);
    JoinFour(cfg, lim, rule, w, t1, w1, t2, w2, [Local("a", OpCollect(wall))], w3, t4, Two(Relearnt(at), b', end, end, end, f));
    events := t1 + t2 + [Local("a", OpCollect(wall))] + t4;
  }

  lemma MayCollect(cfg: Config, lim: Limits, del: Deletion, w: World, wall: int)
    requires wall as real <= del.version.ts as real + 1000.0 * (w.now - del.at) + del.skew
    ensures Orderly(cfg, lim, del)(w, "a", OpCollect(wall))
  {
  }

  lemma Forgets(cfg: Config, at: real, now: real)
    ensures Perform(cfg, Told(at), OpCollect(2 + cfg.RetentionMs() + 1), now) == Evicted("a", at)
  {
  }

  /**
   * The condition cannot be relaxed: whenever the cooldown or the tombstone ends too early, there
   * is a run of two nodes in which one of them ends up with the deleted record, live, after the
   * last arrival and without a session that could evict it.
   */
  lemma DeletionUndoneOtherwise(cfg: Config, lim: Limits, grace: real, skew: real) returns (w: World, events: seq<Event>)
    requires Sane(cfg, lim, Removal(grace, skew)) && 0.0 < lim.d && !RetainedLongEnough(cfg, lim, Removal(grace, skew))
    ensures var del := Removal(grace, skew);
      Start(cfg, w, lim, del) && CanRun(cfg, w, events, lim, Orderly(cfg, lim, del))
    ensures var del := Removal(grace, skew);
      var end := Run(cfg, w, events, lim, Orderly(cfg, lim, del));
      && LastArrival(cfg, lim, del) < end.now && "a" in end.nodes && "x" !in end.nodes["a"].sessions
      && Stale(end.nodes["a"], del) && !end.nodes["a"].foreign[del.key].tombstone
  {
    var del := Removal(grace, skew);
    var last := cfg.hold + lim.d;
    var end, f, b' := last + lim.e + lim.d, {Message(STORED, last)}, Evicted("b", last + cfg.Retention());
    if cfg.keepalive <= grace + lim.d + lim.e {
      w := Two(Survivor("a", -grace), Survivor("b", -grace), -grace, -grace, -grace, {});
      StartsStale(cfg, lim, grace, skew, Survivor("a", -grace));
      EndsStale(-grace + cfg.Retention(), b', end, f, del);
      hide Start, CanRun, Run, Stale, Two, Survivor, Evicted, Relearnt, Orderly;
      events := ReturnsAfterCooldown(cfg, lim, del);
    } else {
      w := Two(Told(-grace), Survivor("b", -grace), -grace, -grace, -grace, {});
      StartsStale(cfg, lim, grace, skew, Told(-grace));
      EndsStale(-grace, b', end, f, del);
      hide Start, CanRun, Run, Stale, Two, Survivor, Evicted, Relearnt, Told, Orderly;
      events := ReturnsAfterCollection(cfg, lim, del);
    }
  }

  lemma StartsStale(cfg: Config, lim: Limits, grace: real, skew: real, a: Node)
    requires Sane(cfg, lim, Removal(grace, skew)) && a in {Survivor("a", -grace), Told(-grace)}
    ensures Start(cfg, Two(a, Survivor("b", -grace), -grace, -grace, -grace, {}), lim, Removal(grace, skew))
  {
  }

  lemma EndsStale(until: real, b: Node, now: real, f: set<Message>, del: Deletion)
    requires del.key == RECORD && del.version == Version(2, "x")
    ensures var w := Two(Relearnt(until), b, now, now, now, f);
      && w.now == now && "a" in w.nodes && "x" !in w.nodes["a"].sessions
      && Stale(w.nodes["a"], del) && !w.nodes["a"].foreign[del.key].tombstone
  {
  }
}
