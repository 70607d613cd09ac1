/**
 * How long the records of a crashed node survive (cluster/store.py
 * `check_hold`, `disconnect_peer`, `apply_inbound`; cluster/config.py
 * `tombstone_retention`).
 *
 * Checks of the survivors, and contacts before the crash, are at most `d` apart.
 */
module CrashBound {
  import opened Order
  import opened Envelopes
  import opened NodeState
  import opened Delivery
  import opened TimedWorld

  /** Whatever does not involve the crashed node, and is not a restart or a message. */
  predicate Unrelated(op: Op, x: string) {
    match op
    case OpReceive(_) => false
    case OpCheckHold => false
    case OpRestart => false
    case OpOpen(peer, _) => peer != x
    case OpTouch(peer) => peer != x
    case OpDisconnect(peer) => peer != x
    case _ => true
  }

  /** Nobody restarts, or meets or leaves the crashed node by hand. */
  function WithoutContact(x: string): Rule { (_: World, _: string, op: Op) => Unrelated(op, x) }

  /**
   * The moment `x` crashes: every survivor has a session with `x` that was heard
   * from within the last `d`, and has checked its timers within the last `d`.
   * Messages of `x` and about `x` may be under way.
   */
  ghost predicate Crash(w: World, x: string, lim: Limits) {
    && x !in w.nodes
    && (forall m | m in w.flight :: m.built <= w.now)
    && forall id | id in w.nodes ::
         && w.nodes[id].id == id && KeysMatch(w.nodes[id])
         && x in w.nodes[id].sessions
         && w.now - lim.d <= w.nodes[id].sessions[x].lastSeen <= w.now
         && id in w.checked && w.now - lim.d <= w.checked[id] <= w.now
  }

  /**
   * The cooldown outlasts the last eviction and the messages sent before it. With the usual
   * `d <= hold` this is `hold + keepalive >= 2 d + e`; when `d` exceeds the hold time it is
   * `keepalive > d + e`.
   */
  predicate Outlasts(cfg: Config, lim: Limits) {
    if lim.d <= cfg.hold then cfg.Retention() >= lim.d + lim.d + lim.e else cfg.keepalive > lim.d + lim.e
  }

  // ---- the bound ---------------------------------------------------------------------------

  /** Not yet evicted: the session is still there and no check has run past its hold time. */
  ghost predicate Awaiting(cfg: Config, n: Node, checked: real, x: string, crash: real, lim: Limits) {
    && x in n.sessions
    && crash - lim.d <= n.sessions[x].lastSeen <= crash
    && checked <= crash + cfg.hold
  }

  /** Evicted, and shielded until no message about `x` can arrive any more. */
  ghost predicate Gone(n: Node, x: string, now: real, deadline: real) {
    && x !in n.sessions
    && !Holds(n, x)
    && (deadline < now || (x in n.evictedUntil && deadline < n.evictedUntil[x]))
  }

  ghost predicate Fine(cfg: Config, n: Node, checked: real, x: string, crash: real, now: real, lim: Limits) {
    && KeysMatch(n)
    && crash <= now <= checked + lim.d
    && (Awaiting(cfg, n, checked, x, crash, lim) || Gone(n, x, now, crash + cfg.hold + lim.d + lim.e))
  }

  ghost predicate WorldInv(cfg: Config, w: World, x: string, crash: real, lim: Limits) {
    && x !in w.nodes
    && (forall m | m in w.flight && m.env.key.origin == x :: m.built <= crash + cfg.hold + lim.d)
    && forall id | id in w.nodes ::
         w.nodes[id].id == id && id in w.checked && Fine(cfg, w.nodes[id], w.checked[id], x, crash, w.now, lim)
  }

  predicate Sane(cfg: Config, lim: Limits) { 0.0 <= cfg.hold && 0.0 <= lim.d && 0.0 <= lim.e }

  lemma CheckFine(cfg: Config, n: Node, checked: real, x: string, crash: real, now: real, at: string -> real, lim: Limits)
    requires Sane(cfg, lim) && Outlasts(cfg, lim)
    requires Fine(cfg, n, checked, x, crash, now, lim) && now <= at(x)
    ensures Fine(cfg, CheckHold(cfg, n, now, at), now, x, crash, now, lim)
    ensures CheckHold(cfg, n, now, at).id == n.id
  {
  }

  lemma LocalFine(cfg: Config, n: Node, op: Op, checked: real, x: string, crash: real, now: real, lim: Limits)
    requires Fine(cfg, n, checked, x, crash, now, lim) && Unrelated(op, x)
    ensures Fine(cfg, Perform(cfg, n, op, now), checked, x, crash, now, lim)
    ensures Perform(cfg, n, op, now).id == n.id
  {
    var m := Perform(cfg, n, op, now);
    LocalOverlay(cfg, n, op, x, now);
  }

  /** Unrelated operations add nothing to the overlay, keep the session and keep an unexpired cooldown. */
  lemma LocalOverlay(cfg: Config, n: Node, op: Op, x: string, now: real)
    requires Unrelated(op, x)
    ensures var m := Perform(cfg, n, op, now);
      && m.id == n.id
      && (forall k | k in m.foreign :: k in n.foreign && m.foreign[k] == n.foreign[k])
      && (x in m.sessions <==> x in n.sessions) && (x in n.sessions ==> m.sessions[x] == n.sessions[x])
      && (x in n.evictedUntil && now < n.evictedUntil[x] ==> x in m.evictedUntil && m.evictedUntil[x] == n.evictedUntil[x])
  {
  }

  /** Past `hold + d` nobody is still waiting. */
  lemma NobodyAwaits(cfg: Config, w: World, x: string, crash: real, lim: Limits, id: string)
    requires WorldInv(cfg, w, x, crash, lim) && id in w.nodes && crash + cfg.hold + lim.d < w.now
    ensures !Holds(w.nodes[id], x)
  {
  }

  /** Only nodes that still wait can send something about `x`. */
  lemma SendFine(cfg: Config, w: World, from: string, key: Key, x: string, crash: real, lim: Limits)
    requires WorldInv(cfg, w, x, crash, lim) && from in w.nodes && Build(w.nodes[from], key).Some?
    requires Build(w.nodes[from], key).value.key.origin == x
    ensures w.now <= crash + cfg.hold + lim.d
  {
    assert Fine(cfg, w.nodes[from], w.checked[from], x, crash, w.now, lim);
    assert Holds(w.nodes[from], x);
  }

  lemma ArriveFine(cfg: Config, w: World, to: string, msg: Message, x: string, crash: real, lim: Limits)
    requires WorldInv(cfg, w, x, crash, lim) && to in w.nodes && msg in w.flight && w.now <= msg.built + lim.e
    ensures var m := Receive(w.nodes[to], msg.env, w.now);
            m.id == to && Fine(cfg, m, w.checked[to], x, crash, w.now, lim)
  {
    assert Fine(cfg, w.nodes[to], w.checked[to], x, crash, w.now, lim);
  }

  lemma StepInv(cfg: Config, w: World, ev: Event, x: string, crash: real, lim: Limits)
    requires Sane(cfg, lim) && Outlasts(cfg, lim)
    requires WorldInv(cfg, w, x, crash, lim) && Enabled(w, ev, lim, WithoutContact(x))
    ensures WorldInv(cfg, Step(cfg, w, ev), x, crash, lim)
  {
    match ev {
      case Advance(t) =>
        forall id | id in w.nodes ensures Fine(cfg, w.nodes[id], w.checked[id], x, crash, t, lim) {
          assert Fine(cfg, w.nodes[id], w.checked[id], x, crash, w.now, lim);
        }
      case Check(id, at) => CheckFine(cfg, w.nodes[id], w.checked[id], x, crash, w.now, at, lim); hide Fine, CheckHold;
      case Send(from, key) =>
        if Build(w.nodes[from], key).value.key.origin == x { SendFine(cfg, w, from, key, x, crash, lim); }
        hide Fine, Build;
      case Arrive(to, msg) => ArriveFine(cfg, w, to, msg, x, crash, lim); hide Fine, Receive;
      case Local(id, op) => LocalFine(cfg, w.nodes[id], op, w.checked[id], x, crash, w.now, lim); hide Fine, Perform;
    }
  }

  lemma {:induction false} RunInv(cfg: Config, w: World, events: seq<Event>, x: string, crash: real, lim: Limits)
    requires Sane(cfg, lim) && Outlasts(cfg, lim)
    requires WorldInv(cfg, w, x, crash, lim) && CanRun(cfg, w, events, lim, WithoutContact(x))
    ensures WorldInv(cfg, Run(cfg, w, events, lim, WithoutContact(x)), x, crash, lim)
    decreases |events|
  {
    if events != [] {
      StepInv(cfg, w, events[0], x, crash, lim);
      hide WorldInv, Step;
      RunInv(cfg, Step(cfg, w, events[0]), events[1..], x, crash, lim);
    }
  }

  /**
   * Once `hold + d` has passed since the crash, no survivor holds a record of the
   * crashed node, and none ever will again, however checks, messages between
   * survivors, local writes, garbage collection and session changes interleave.
   */
  lemma CrashedRecordsDisappear(cfg: Config, w: World, events: seq<Event>, x: string, lim: Limits)
    requires Sane(cfg, lim) && Outlasts(cfg, lim)
    requires Crash(w, x, lim) && CanRun(cfg, w, events, lim, WithoutContact(x))
    ensures var end := Run(cfg, w, events, lim, WithoutContact(x));
      w.now + cfg.hold + lim.d < end.now ==> forall id | id in end.nodes :: !Holds(end.nodes[id], x)
  {
    RunInv(cfg, w, events, x, w.now, lim);
    var end := Run(cfg, w, events, lim, WithoutContact(x));
    if w.now + cfg.hold + lim.d < end.now {
      forall id | id in end.nodes ensures !Holds(end.nodes[id], x) { NobodyAwaits(cfg, end, x, w.now, lim, id); }
    }
  }

  // ---- the condition is exact -----------------------------------------------------------------

  /** From the crash until shortly before the first timer can run out nothing happens. */
  lemma Opening(cfg: Config, lim: Limits, start: real) returns (events: seq<Event>)
    requires 0.0 < lim.d && 0.0 <= start && (start == 0.0 || start + lim.d <= cfg.hold)
    ensures var a, b := Survivor("a", -lim.d), Survivor("b", 0.0);
            Leads(cfg, Two(a, b, 0.0, 0.0, 0.0, {}), events, Two(a, b, start, start, start, {}), lim, WithoutContact("x"))
  {
    if start == 0.0 {
      events := [];
    } else {
      forall t | 0.0 <= t <= start
        ensures Checked(cfg, Survivor("a", -lim.d), t) == Survivor("a", -lim.d)
        ensures Checked(cfg, Survivor("b", 0.0), t) == Survivor("b", 0.0)
      {
        CheckQuiet(cfg, "a", -lim.d, t);
        CheckQuiet(cfg, "b", 0.0, t);
      }
      events := Quiet(cfg, lim, WithoutContact("x"), Survivor("a", -lim.d), Survivor("b", 0.0), {}, 0.0, start);
    }
  }

  /** Then `a` evicts early, and `b` looks a last time while its timer has not run out. */
  lemma EarlyEviction(cfg: Config, lim: Limits, start: real, evict: real) returns (events: seq<Event>)
    requires 0.0 <= cfg.hold && 0.0 < lim.d
    requires start <= evict <= cfg.hold && cfg.hold < evict + lim.d && cfg.hold <= start + lim.d
    ensures var a, b, gone := Survivor("a", -lim.d), Survivor("b", 0.0), Evicted("a", evict + cfg.Retention());
            Leads(cfg, Two(a, b, start, start, start, {}), events, Two(gone, b, cfg.hold, cfg.hold, cfg.hold, {}), lim, WithoutContact("x"))
  {
    var a, b, gone := Survivor("a", -lim.d), Survivor("b", 0.0), Evicted("a", evict + cfg.Retention());
    CheckEvicts(cfg, "a", -lim.d, evict);
    CheckAfterEviction(cfg, gone, cfg.hold);
    CheckQuiet(cfg, "b", 0.0, cfg.hold);
    hide Checked, Leads, Two, Survivor, Evicted;
    var t1 := SoloRound(cfg, lim, WithoutContact("x"), a, gone, b, start, evict, cfg.hold);
    var t2 := CheckRound(cfg, lim, WithoutContact("x"), gone, gone, b, b, cfg.hold, evict, start, {}, cfg.hold);
    LeadsOn(cfg, Two(a, b, start, start, start, {}), t1, Two(gone, b, cfg.hold, evict, start, {}), t2,
            Two(gone, b, cfg.hold, cfg.hold, cfg.hold, {}), lim, WithoutContact("x"));
    events := t1 + t2;
  }

  /**
   * The condition cannot be relaxed: whenever the cooldown does not outlast the
   * last eviction and the messages sent before it, there is a run with two survivors
   * in which one of them holds a record of the crashed node, without a session that
   * could evict it, when the bound has passed and no message is under way any more.
   */
  lemma BoundFailsOtherwise(cfg: Config, lim: Limits) returns (w: World, events: seq<Event>)
    requires Sane(cfg, lim) && 0.0 < lim.d && !Outlasts(cfg, lim)
    ensures Crash(w, "x", lim) && CanRun(cfg, w, events, lim, WithoutContact("x"))
    ensures var end := Run(cfg, w, events, lim, WithoutContact("x"));
      && w.now + cfg.hold + lim.d + lim.e < end.now
      && "a" in end.nodes && "x" !in end.nodes["a"].sessions && Holds(end.nodes["a"], "x")
  {
    var start, evict := Times(cfg, lim);
    StartsCrashed(lim);
    w := Two(Survivor("a", -lim.d), Survivor("b", 0.0), 0.0, 0.0, 0.0, {});
    events := Relapse(cfg, lim, start, evict);
    var last, end := cfg.hold + lim.d, cfg.hold + lim.d + lim.e + lim.d;
    var back, b' := Relearnt(evict + cfg.Retention()), Evicted("b", last + cfg.Retention());
    RelearnStep(evict + cfg.Retention(), evict + cfg.Retention());
    EndsWith(back, b', end, {Message(STORED, last)});
    hide CanRun, Run, Two, Crash, Holds, Survivor, Evicted;
  }

  /** When `a` checks last before its timer runs out, and when it evicts. */
  lemma Times(cfg: Config, lim: Limits) returns (start: real, evict: real)
    requires Sane(cfg, lim) && 0.0 < lim.d && !Outlasts(cfg, lim)
    ensures 0.0 <= start && (start == 0.0 || start + lim.d <= cfg.hold)
    ensures start <= evict <= cfg.hold && cfg.hold < evict + lim.d && cfg.hold <= start + lim.d
    ensures evict + cfg.Retention() <= cfg.hold + lim.d + lim.e
  {
    start := if lim.d <= cfg.hold then cfg.hold - lim.d else 0.0;
    var late := cfg.hold + lim.d + lim.e - cfg.Retention();
    evict := if lim.d > cfg.hold then 0.0 else if late < cfg.hold then late else cfg.hold;
  }

  lemma StartsCrashed(lim: Limits)
    requires 0.0 <= lim.d
    ensures var w := Two(Survivor("a", -lim.d), Survivor("b", 0.0), 0.0, 0.0, 0.0, {}); Crash(w, "x", lim) && w.now == 0.0
  {
  }

  lemma EndsWith(a: Node, b: Node, now: real, f: set<Message>)
    ensures var w := Two(a, b, now, now, now, f); w.now == now && "a" in w.nodes && w.nodes["a"] == a
  {
  }

  lemma Relapse(cfg: Config, lim: Limits, start: real, evict: real) returns (events: seq<Event>)
    requires Sane(cfg, lim) && 0.0 < lim.d && 0.0 <= start && (start == 0.0 || start + lim.d <= cfg.hold)
    requires start <= evict <= cfg.hold && cfg.hold < evict + lim.d && cfg.hold <= start + lim.d
    requires evict + cfg.Retention() <= cfg.hold + lim.d + lim.e
    ensures var last, end := cfg.hold + lim.d, cfg.hold + lim.d + lim.e + lim.d;
            Leads(cfg, Two(Survivor("a", -lim.d), Survivor("b", 0.0), 0.0, 0.0, 0.0, {}), events,
                  Two(Relearnt(evict + cfg.Retention()), Evicted("b", last + cfg.Retention()), end, end, end, {Message(STORED, last)}), lim, WithoutContact("x"))
  {
    var last, until := cfg.hold + lim.d, evict + cfg.Retention();
    var end := last + lim.e + lim.d;
    var a, b, gone, b' := Survivor("a", -lim.d), Survivor("b", 0.0), Evicted("a", until), Evicted("b", last + cfg.Retention());
    assert gone.sessions == map[] && b'.sessions == map[];
    hide Leads, Two, Survivor, Evicted, Relearnt;
    var t1 := Opening(cfg, lim, start);
    var t2 := EarlyEviction(cfg, lim, start, evict);
    var t3 := LastMessage(cfg, lim, WithoutContact("x"), gone);
    var t4 := LateArrival(cfg, lim, WithoutContact("x"), until, b', last, last, last + lim.e, end);
    var f := {Message(STORED, last)};
    JoinFour(cfg, lim, WithoutContact("x"), Two(a, b, 0.0, 0.0, 0.0, {}), t1, Two(a, b, start, start, start, {}), t2,
             Two(gone, b, cfg.hold, cfg.hold, cfg.hold, {}), t3, Two(gone, b', last, last, last, f), t4,
             Two(Relearnt(until), b', end, end, end, f));
    events := t1 + t2 + t3 + t4;
  }
}
