/**
 * Runs of a cluster in real time: every node checks its hold timers often enough,
 * and no message is under way for too long (cluster/sweepers.py, cluster/store.py
 * `check_hold`, `apply_inbound`).
 *
 * The nodes share one real-time clock here: their liveness timers only ever compare
 * readings of their own clock, so offsets between them would not show. An envelope
 * may be stored up to `e` after it was built, by any node, several times or never.
 */
module TimedWorld {
  import opened Order
  import opened Envelopes
  import opened NodeState

  /** Checks are at most `d` apart, messages at most `e` under way. */
  datatype Limits = Limits(d: real, e: real)

  /** An envelope under way, and when it was built. */
  datatype Message = Message(env: Envelope, built: real)

  /** The nodes, the time, when each last ran `check_hold`, and every message ever sent. */
  datatype World = World(nodes: map<string, Node>, now: real, checked: map<string, real>, flight: set<Message>)

  datatype Event =
    | Advance(t: real)
    | Check(id: string, at: string -> real)   // `check_hold`, and the readings of its disconnects
    | Send(from: string, key: Key)    // build an envelope, to be pulled or pushed
    | Arrive(to: string, msg: Message)
    | Local(id: string, op: Op)       // anything else a node does

  /** What a node may do by itself. */
  type Rule = (World, string, Op) -> bool

  predicate Possible(w: World, ev: Event) {
    match ev
    case Advance(_) => true
    case Check(id, _) => id in w.nodes
    case Send(from, key) => from in w.nodes && Build(w.nodes[from], key).Some?
    case Arrive(to, msg) => to in w.nodes && msg in w.flight
    case Local(id, op) => id in w.nodes && !op.OpReceive? && !op.OpCheckHold?
  }

  /** Time never passes a node by for longer than `d` without a check, and no message arrives later than `e`. */
  ghost predicate InTime(w: World, ev: Event, lim: Limits) {
    match ev
    case Advance(t) => w.now <= t && forall id | id in w.nodes :: id in w.checked && t <= w.checked[id] + lim.d
    case Check(_, at) => forall p :: w.now <= at(p)
    case Arrive(_, msg) => w.now <= msg.built + lim.e
    case _ => true
  }

  ghost predicate Enabled(w: World, ev: Event, lim: Limits, rule: Rule) {
    Possible(w, ev) && InTime(w, ev, lim) && (ev.Local? ==> rule(w, ev.id, ev.op))
  }

  function Step(cfg: Config, w: World, ev: Event): World
    requires Possible(w, ev)
  {
    match ev
    case Advance(t) => w.(now := t)
    case Check(id, at) =>
      w.(nodes := w.nodes[id := CheckHold(cfg, w.nodes[id], w.now, at)], checked := w.checked[id := w.now])
    case Send(from, key) => w.(flight := w.flight + {Message(Build(w.nodes[from], key).value, w.now)})
    case Arrive(to, msg) => w.(nodes := w.nodes[to := Receive(w.nodes[to], msg.env, w.now)])
    case Local(id, op) => w.(nodes := w.nodes[id := Perform(cfg, w.nodes[id], op, w.now)])
  }

  ghost predicate CanRun(cfg: Config, w: World, events: seq<Event>, lim: Limits, rule: Rule)
    decreases |events|
  {
    events == [] || (Enabled(w, events[0], lim, rule) && CanRun(cfg, Step(cfg, w, events[0]), events[1..], lim, rule))
  }

  ghost function Run(cfg: Config, w: World, events: seq<Event>, lim: Limits, rule: Rule): World
    requires CanRun(cfg, w, events, lim, rule)
    decreases |events|
  {
    if events == [] then w else Run(cfg, Step(cfg, w, events[0]), events[1..], lim, rule)
  }

  lemma {:induction false} RunAppend(cfg: Config, w: World, a: seq<Event>, b: seq<Event>, lim: Limits, rule: Rule)
    requires CanRun(cfg, w, a, lim, rule) && CanRun(cfg, Run(cfg, w, a, lim, rule), b, lim, rule)
    ensures CanRun(cfg, w, a + b, lim, rule) && Run(cfg, w, a + b, lim, rule) == Run(cfg, Run(cfg, w, a, lim, rule), b, lim, rule)
    decreases |a|
  {
    if a == [] {
      assert a + b == b;
    } else {
      assert (a + b)[1..] == a[1..] + b;
      RunAppend(cfg, Step(cfg, w, a[0]), a[1..], b, lim, rule);
    }
  }

  // ---- two nodes ---------------------------------------------------------------------------

  /** A check whose disconnects read the same time. */
  function Checked(cfg: Config, n: Node, now: real): Node { CheckHold(cfg, n, now, Reading(now)) }

  function CheckOf(id: string, now: real): Event { Check(id, Reading(now)) }

  /** Two nodes with the times of their last checks. */
  function Two(a: Node, b: Node, now: real, checkedA: real, checkedB: real, flight: set<Message>): World {
    World(map["a" := a, "b" := b], now, map["a" := checkedA, "b" := checkedB], flight)
  }

  /** The events lead from the one world to the other. */
  ghost predicate Leads(cfg: Config, w: World, events: seq<Event>, t: World, lim: Limits, rule: Rule) {
    CanRun(cfg, w, events, lim, rule) && Run(cfg, w, events, lim, rule) == t
  }

  lemma LeadsOn(cfg: Config, w: World, a: seq<Event>, mid: World, b: seq<Event>, t: World, lim: Limits, rule: Rule)
    requires Leads(cfg, w, a, mid, lim, rule) && Leads(cfg, mid, b, t, lim, rule)
    ensures Leads(cfg, w, a + b, t, lim, rule)
  {
    RunAppend(cfg, w, a, b, lim, rule);
  }

  lemma JoinThree(cfg: Config, lim: Limits, rule: Rule, w: World, t1: seq<Event>, w1: World, t2: seq<Event>, w2: World, t3: seq<Event>, w3: World)
    requires Leads(cfg, w, t1, w1, lim, rule) && Leads(cfg, w1, t2, w2, lim, rule) && Leads(cfg, w2, t3, w3, lim, rule)
    ensures Leads(cfg, w, t1 + t2 + t3, w3, lim, rule)
  {
    hide Leads;
    LeadsOn(cfg, w, t1, w1, t2, w2, lim, rule);
    LeadsOn(cfg, w, t1 + t2, w2, t3, w3, lim, rule);
  }

  lemma JoinFour(cfg: Config, lim: Limits, rule: Rule, w: World, t1: seq<Event>, w1: World, t2: seq<Event>, w2: World,
                 t3: seq<Event>, w3: World, t4: seq<Event>, w4: World)
    requires Leads(cfg, w, t1, w1, lim, rule) && Leads(cfg, w1, t2, w2, lim, rule) && Leads(cfg, w2, t3, w3, lim, rule) && Leads(cfg, w3, t4, w4, lim, rule)
    ensures Leads(cfg, w, t1 + t2 + t3 + t4, w4, lim, rule)
  {
    hide Leads;
    JoinThree(cfg, lim, rule, w, t1, w1, t2, w2, t3, w3);
    LeadsOn(cfg, w, t1 + t2 + t3, w3, t4, w4, lim, rule);
  }

  lemma OneEvent(cfg: Config, w: World, ev: Event, lim: Limits, rule: Rule)
    requires Enabled(w, ev, lim, rule)
    ensures Leads(cfg, w, [ev], Step(cfg, w, ev), lim, rule)
  {
    var t := Step(cfg, w, ev);
    hide Enabled, Step;
    assert [ev][1..] == [];
    assert CanRun(cfg, t, [], lim, rule) && Run(cfg, t, [], lim, rule) == t;
  }

  // The kinds of events on two nodes.

  lemma AdvanceTwo(cfg: Config, lim: Limits, rule: Rule, a: Node, b: Node, now: real, ca: real, cb: real, f: set<Message>, t: real)
    requires now <= t <= ca + lim.d && t <= cb + lim.d
    ensures Leads(cfg, Two(a, b, now, ca, cb, f), [Advance(t)], Two(a, b, t, ca, cb, f), lim, rule)
  {
    OneEvent(cfg, Two(a, b, now, ca, cb, f), Advance(t), lim, rule);
    hide Leads;
  }

  lemma SetA<V>(a: V, b: V, v: V)
    ensures map["a" := a, "b" := b]["a" := v] == map["a" := v, "b" := b]
  {
  }

  lemma CheckA(cfg: Config, lim: Limits, rule: Rule, a: Node, a': Node, b: Node, now: real, ca: real, cb: real, f: set<Message>)
    requires Checked(cfg, a, now) == a'
    ensures Leads(cfg, Two(a, b, now, ca, cb, f), [CheckOf("a", now)], Two(a', b, now, now, cb, f), lim, rule)
  {
    hide CheckHold;
    SetA(a, b, a');
    SetA(ca, cb, now);
    OneEvent(cfg, Two(a, b, now, ca, cb, f), CheckOf("a", now), lim, rule);
    hide Leads;
  }

  lemma CheckB(cfg: Config, lim: Limits, rule: Rule, a: Node, b: Node, b': Node, now: real, ca: real, cb: real, f: set<Message>)
    requires Checked(cfg, b, now) == b'
    ensures Leads(cfg, Two(a, b, now, ca, cb, f), [CheckOf("b", now)], Two(a, b', now, ca, now, f), lim, rule)
  {
    hide CheckHold;
    OneEvent(cfg, Two(a, b, now, ca, cb, f), CheckOf("b", now), lim, rule);
    hide Leads;
  }

  lemma SendB(cfg: Config, lim: Limits, rule: Rule, a: Node, b: Node, now: real, ca: real, cb: real)
    requires Build(b, RECORD) == Some(STORED)
    ensures Leads(cfg, Two(a, b, now, ca, cb, {}), [Send("b", RECORD)], Two(a, b, now, ca, cb, {Message(STORED, now)}), lim, rule)
  {
    hide Build;
    OneEvent(cfg, Two(a, b, now, ca, cb, {}), Send("b", RECORD), lim, rule);
    assert {} + {Message(STORED, now)} == {Message(STORED, now)};
    hide Leads;
  }

  lemma ArriveA(cfg: Config, lim: Limits, rule: Rule, a: Node, a': Node, b: Node, now: real, ca: real, cb: real, built: real)
    requires now <= built + lim.e && Receive(a, STORED, now) == a'
    ensures var f := {Message(STORED, built)};
            Leads(cfg, Two(a, b, now, ca, cb, f), [Arrive("a", Message(STORED, built))], Two(a', b, now, ca, cb, f), lim, rule)
  {
    hide Receive;
    SetA(a, b, a');
    OneEvent(cfg, Two(a, b, now, ca, cb, {Message(STORED, built)}), Arrive("a", Message(STORED, built)), lim, rule);
    hide Leads;
  }

  lemma LocalA(cfg: Config, lim: Limits, rule: Rule, a: Node, a': Node, b: Node, now: real, ca: real, cb: real, f: set<Message>, op: Op)
    requires Perform(cfg, a, op, now) == a' && !op.OpReceive? && !op.OpCheckHold? && rule(Two(a, b, now, ca, cb, f), "a", op)
    ensures Leads(cfg, Two(a, b, now, ca, cb, f), [Local("a", op)], Two(a', b, now, ca, cb, f), lim, rule)
  {
    hide Perform;
    SetA(a, b, a');
    OneEvent(cfg, Two(a, b, now, ca, cb, f), Local("a", op), lim, rule);
    hide Leads;
  }

  lemma LocalB(cfg: Config, lim: Limits, rule: Rule, a: Node, b: Node, b': Node, now: real, ca: real, cb: real, f: set<Message>, op: Op)
    requires Perform(cfg, b, op, now) == b' && !op.OpReceive? && !op.OpCheckHold? && rule(Two(a, b, now, ca, cb, f), "b", op)
    ensures Leads(cfg, Two(a, b, now, ca, cb, f), [Local("b", op)], Two(a, b', now, ca, cb, f), lim, rule)
  {
    hide Perform;
    OneEvent(cfg, Two(a, b, now, ca, cb, f), Local("b", op), lim, rule);
    hide Leads;
  }

  /** Time passes, both check, and each check has the given effect. */
  lemma CheckRound(cfg: Config, lim: Limits, rule: Rule, a: Node, a': Node, b: Node, b': Node, from: real, ca: real, cb: real, f: set<Message>, at: real)
    returns (events: seq<Event>)
    requires from <= at <= ca + lim.d && at <= cb + lim.d
    requires Checked(cfg, a, at) == a' && Checked(cfg, b, at) == b'
    ensures Leads(cfg, Two(a, b, from, ca, cb, f), events, Two(a', b', at, at, at, f), lim, rule)
  {
    hide Checked, Two, Leads;
    AdvanceTwo(cfg, lim, rule, a, b, from, ca, cb, f, at);
    CheckA(cfg, lim, rule, a, a', b, at, ca, cb, f);
    CheckB(cfg, lim, rule, a', b, b', at, at, cb, f);
    var w, w1, w2 := Two(a, b, from, ca, cb, f), Two(a, b, at, ca, cb, f), Two(a', b, at, at, cb, f);
    JoinThree(cfg, lim, rule, w, [Advance(at)], w1, [CheckOf("a", at)], w2, [CheckOf("b", at)], Two(a', b', at, at, at, f));
    events := [Advance(at)] + [CheckOf("a", at)] + [CheckOf("b", at)];
  }

  /** Only `a` checks, in the middle of the round. */
  lemma SoloRound(cfg: Config, lim: Limits, rule: Rule, a: Node, a': Node, b: Node, from: real, at: real, to: real) returns (events: seq<Event>)
    requires from <= at <= to <= from + lim.d
    requires Checked(cfg, a, at) == a'
    ensures Leads(cfg, Two(a, b, from, from, from, {}), events, Two(a', b, to, at, from, {}), lim, rule)
  {
    hide Checked, Two, Leads;
    AdvanceTwo(cfg, lim, rule, a, b, from, from, from, {}, at);
    CheckA(cfg, lim, rule, a, a', b, at, from, from, {});
    AdvanceTwo(cfg, lim, rule, a', b, at, at, from, {}, to);
    var w, w1, w2 := Two(a, b, from, from, from, {}), Two(a, b, at, from, from, {}), Two(a', b, at, at, from, {});
    JoinThree(cfg, lim, rule, w, [Advance(at)], w1, [CheckOf("a", at)], w2, [Advance(to)], Two(a', b, to, at, from, {}));
    events := [Advance(at)] + [CheckOf("a", at)] + [Advance(to)];
  }

  lemma CheckAfterEviction(cfg: Config, n: Node, now: real)
    requires n.sessions == map[]
    ensures Checked(cfg, n, now) == n
  {
  }

  /** Quiet time: both check every `d`, and no check does anything. */
  lemma {:induction false} QuietTime(cfg: Config, lim: Limits, rule: Rule, a: Node, b: Node, f: set<Message>, from: real, to: real, steps: nat)
    returns (events: seq<Event>)
    requires 0.0 < lim.d && from <= to && to - from <= steps as real * lim.d
    requires forall t | from <= t <= to :: Checked(cfg, a, t) == a && Checked(cfg, b, t) == b
    ensures Leads(cfg, Two(a, b, from, from, from, f), events, Two(a, b, to, to, to, f), lim, rule)
    decreases steps
  {
    hide Checked, Two;
    if from == to {
      events := [];
    } else {
      var mid := if to - from <= lim.d then to else from + lim.d;
      assert (steps - 1) as real * lim.d == steps as real * lim.d - lim.d;
      var head := CheckRound(cfg, lim, rule, a, a, b, b, from, from, from, f, mid);
      var rest := QuietTime(cfg, lim, rule, a, b, f, mid, to, steps - 1);
      hide Leads;
      LeadsOn(cfg, Two(a, b, from, from, from, f), head, Two(a, b, mid, mid, mid, f), rest, Two(a, b, to, to, to, f), lim, rule);
      events := head + rest;
    }
  }

  lemma EnoughSteps(p: real, d: real) returns (steps: nat)
    requires 0.0 <= p && 0.0 < d
    ensures p <= steps as real * d
  {
    var q := p / d;
    steps := q.Floor + 1;
    assert q * d == p;
    assert q * d <= steps as real * d;
  }

  lemma Quiet(cfg: Config, lim: Limits, rule: Rule, a: Node, b: Node, f: set<Message>, from: real, to: real) returns (events: seq<Event>)
    requires 0.0 < lim.d && from <= to
    requires forall t | from <= t <= to :: Checked(cfg, a, t) == a && Checked(cfg, b, t) == b
    ensures Leads(cfg, Two(a, b, from, from, from, f), events, Two(a, b, to, to, to, f), lim, rule)
  {
    hide Checked, Leads, Two;
    var steps := EnoughSteps(to - from, lim.d);
    events := QuietTime(cfg, lim, rule, a, b, f, from, to, steps);
  }

  lemma QuietAfterEviction(cfg: Config, lim: Limits, rule: Rule, a: Node, b: Node, f: set<Message>, from: real, to: real) returns (events: seq<Event>)
    requires 0.0 < lim.d && from <= to && a.sessions == map[] && b.sessions == map[]
    ensures Leads(cfg, Two(a, b, from, from, from, f), events, Two(a, b, to, to, to, f), lim, rule)
  {
    hide Checked, Leads, Two;
    forall t ensures Checked(cfg, a, t) == a && Checked(cfg, b, t) == b {
      CheckAfterEviction(cfg, a, t);
      CheckAfterEviction(cfg, b, t);
    }
    events := Quiet(cfg, lim, rule, a, b, f, from, to);
  }

  // ---- a record that comes back -------------------------------------------------------------

  predicate Holds(n: Node, x: string) { exists k :: k in n.foreign && k.origin == x }

  const RECORD: Key := Key("ds", "x", "svc")
  const STORED: Envelope := Envelope(RECORD, Version(1, "x"), false, Some("{}"))

  /** A survivor that heard from `x` at time `seen` and replicates its one record. */
  function Survivor(id: string, seen: real): Node {
    Node(id, 0, map[], map[], map[], map[RECORD := STORED], map["x" := Peer({"ds"}, seen)], map[], Disk(0, map[], map[]))
  }

  function Evicted(id: string, until: real): Node {
    Survivor(id, 0.0).(foreign := map[], sessions := map[], evictedUntil := map["x" := until])
  }

  /** Node `a` once it has learnt the record again: no session, so no timer will ever evict it. */
  function Relearnt(until: real): Node { Evicted("a", until).(foreign := map[RECORD := STORED]) }

  lemma CheckQuiet(cfg: Config, id: string, seen: real, now: real)
    requires now - seen <= cfg.hold
    ensures Checked(cfg, Survivor(id, seen), now) == Survivor(id, seen)
  {
  }

  lemma CheckEvicts(cfg: Config, id: string, seen: real, now: real)
    requires cfg.hold < now - seen
    ensures Checked(cfg, Survivor(id, seen), now) == Evicted(id, now + cfg.Retention())
  {
  }

  lemma RelearnStep(until: real, now: real)
    requires until <= now
    ensures Build(Survivor("b", 0.0), RECORD) == Some(STORED)
    ensures Receive(Evicted("a", until), STORED, now) == Relearnt(until)
    ensures Holds(Relearnt(until), "x")
  {
    assert RECORD in Relearnt(until).foreign;
  }

  /** At the last moment `b` sends the record to `a`, and then evicts it. */
  lemma LastMessage(cfg: Config, lim: Limits, rule: Rule, gone: Node) returns (events: seq<Event>)
    requires 0.0 <= cfg.hold && 0.0 < lim.d && gone.sessions == map[]
    ensures var last := cfg.hold + lim.d;
            Leads(cfg, Two(gone, Survivor("b", 0.0), cfg.hold, cfg.hold, cfg.hold, {}), events,
                  Two(gone, Evicted("b", last + cfg.Retention()), last, last, last, {Message(STORED, last)}), lim, rule)
  {
    var hold, last := cfg.hold, cfg.hold + lim.d;
    var b, b', f := Survivor("b", 0.0), Evicted("b", last + cfg.Retention()), {Message(STORED, last)};
    RelearnStep(0.0, 0.0);
    CheckEvicts(cfg, "b", 0.0, last);
    CheckAfterEviction(cfg, gone, last);
    hide Checked, Leads, Two, Survivor, Evicted, Build, Receive;
    AdvanceTwo(cfg, lim, rule, gone, b, hold, hold, hold, {}, last);
    SendB(cfg, lim, rule, gone, b, last, hold, hold);
    var t := CheckRound(cfg, lim, rule, gone, gone, b, b', last, hold, hold, f, last);
    var w, w1, w2 := Two(gone, b, hold, hold, hold, {}), Two(gone, b, last, hold, hold, {}), Two(gone, b, last, hold, hold, f);
    JoinThree(cfg, lim, rule, w, [Advance(last)], w1, [Send("b", RECORD)], w2, t, Two(gone, b', last, last, last, f));
    events := [Advance(last)] + [Send("b", RECORD)] + t;
  }

  /** The message is under way for as long as it may, and arrives when the cooldown of `a` has ended. */
  lemma LateArrival(cfg: Config, lim: Limits, rule: Rule, until: real, b: Node, built: real, from: real, late: real, end: real)
    returns (events: seq<Event>)
    requires 0.0 < lim.d && b.sessions == map[] && until <= late
    requires from <= late <= built + lim.e && late <= end
    ensures var f := {Message(STORED, built)};
            Leads(cfg, Two(Evicted("a", until), b, from, from, from, f), events, Two(Relearnt(until), b, end, end, end, f), lim, rule)
  {
    var f, gone, back := {Message(STORED, built)}, Evicted("a", until), Relearnt(until);
    assert gone.sessions == map[] && back.sessions == map[];
    RelearnStep(until, late);
    hide Leads, Two, Evicted, Relearnt, Receive, Build;
    var t1 := QuietAfterEviction(cfg, lim, rule, gone, b, f, from, late);
    ArriveA(cfg, lim, rule, gone, back, b, late, late, late, built);
    var t2 := [Arrive("a", Message(STORED, built))];
    var t3 := QuietAfterEviction(cfg, lim, rule, back, b, f, late, end);
    var w, w1, w2 := Two(gone, b, from, from, from, f), Two(gone, b, late, late, late, f), Two(back, b, late, late, late, f);
    JoinThree(cfg, lim, rule, w, t1, w1, t2, w2, t3, Two(back, b, end, end, end, f));
    events := t1 + t2 + t3;
  }
}
