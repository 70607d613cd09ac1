/**
 * One anti-entropy exchange taken apart: key by key for the loops of `reconcile`,
 * and as messages of the replication system (cluster/store.py:597-648).
 */
module ExchangeSteps {
  import opened Order
  import opened Envelopes
  import opened NodeState
  import opened ClusterSystem
  import opened Merkle
  import opened Reconciliation

  // ---- key by key -----------------------------------------------------------------------

  lemma AbsorbNothing(to: Node, from: Node, at: Readings)
    ensures Absorb(to, from, {}, at) == to && Transferred(to, from, {}, at) == {}
  {
  }

  lemma AcceptsUnmoved(to: Node, from: Node, done: set<Key>, at: Readings, e: Envelope, now: real)
    requires e.key !in done
    ensures Accepts(Absorb(to, from, done, at), e, now) == Accepts(to, e, now)
  {
  }

  lemma OneMoreEnvelope(base: map<Key, Envelope>, from: Node, moved: set<Key>, k: Key)
    requires (forall l | l in moved :: Build(from, l).Some?) && Build(from, k).Some?
    ensures (base + Delivered(from, moved))[k := Build(from, k).value] == base + Delivered(from, moved + {k})
  {
  }

  lemma TransferredOneMore(to: Node, from: Node, done: set<Key>, k: Key, at: Readings)
    requires k !in done
    ensures var moved := Transferred(to, from, done, at);
      && k !in moved
      && Transferred(to, from, done + {k}, at) ==
           if Build(from, k).Some? && Accepts(to, Build(from, k).value, at(k)) then moved + {k} else moved
  {
    hide Build, Accepts;
  }

  /** Taking one more key is receiving its envelope. */
  lemma AbsorbOneMore(to: Node, from: Node, done: set<Key>, k: Key, at: Readings)
    requires WellFormed(from) && k !in done
    ensures var n := Absorb(to, from, done, at);
      && Absorb(to, from, done + {k}, at) == (if Build(from, k).Some? then Receive(n, Build(from, k).value, at(k)) else n)
      && |Transferred(to, from, done + {k}, at)| ==
         |Transferred(to, from, done, at)| + if Build(from, k).Some? && Accepts(n, Build(from, k).value, at(k)) then 1 else 0
  {
    var moved := Transferred(to, from, done, at);
    assert forall l | l in moved :: Build(from, l).Some?;
    TransferredOneMore(to, from, done, k, at);
    if Build(from, k).Some? {
      BuildKey(from, k);
      AcceptsUnmoved(to, from, done, at, Build(from, k).value, at(k));
    }
    hide Build, Accepts, WellFormed, Delivered, Transferred;
    if Build(from, k).Some? && Accepts(to, Build(from, k).value, at(k)) { OneMoreEnvelope(to.foreign, from, moved, k); }
  }

  /** What is transferred depends only on what the source builds and on the receiver's overlay and cooldowns. */
  lemma SameTransfer(to1: Node, from1: Node, to2: Node, from2: Node, keys: set<Key>, at: Readings)
    requires forall k | k in keys :: Build(from1, k) == Build(from2, k)
    requires to1.foreign == to2.foreign && to1.id == to2.id && to1.evictedUntil == to2.evictedUntil
    ensures Transferred(to1, from1, keys, at) == Transferred(to2, from2, keys, at)
    ensures Absorb(to1, from1, keys, at) == to1.(foreign := Absorb(to2, from2, keys, at).foreign)
  {
    hide Build;
    assert forall e, now :: Accepts(to1, e, now) == Accepts(to2, e, now);
    hide Accepts;
    var moved := Transferred(to1, from1, keys, at);
    assert moved == Transferred(to2, from2, keys, at);
    SameDelivery(from1, from2, moved);
    hide Transferred, Delivered;
  }

  lemma SameDelivery(from1: Node, from2: Node, keys: set<Key>)
    requires forall k | k in keys :: Build(from1, k) == Build(from2, k) && Build(from1, k).Some?
    ensures Delivered(from1, keys) == Delivered(from2, keys)
  {
  }

  lemma TouchedSource(a: Node, b: Node, keys: set<Key>, at: Readings, nb: real)
    requires WellFormed(a) && WellFormed(b)
    ensures var t := Touch(b, a.id, nb);
      && Absorb(a, t, keys, at) == Absorb(a, b, keys, at)
      && Transferred(a, t, keys, at) == Transferred(a, b, keys, at)
      && WellFormed(Absorb(a, b, keys, at))
  {
    hide Build, Touch, WellFormed, Accepts;
    var t := Touch(b, a.id, nb);
    forall k | k in keys ensures Build(t, k) == Build(b, k) { TouchBuild(b, a.id, nb, k); }
    AbsorbAt(a, b, keys, at, Key("", a.id, ""));
    SameTransfer(a, t, a, b, keys, at);
  }

  /** What was just pulled is never part of what is pushed back. */
  lemma PushesUndisturbed(a: Node, b: Node, at: Readings, nb: Readings, heard: real)
    requires WellFormed(a) && WellFormed(b)
    ensures var t := Touch(b, a.id, heard);
      && Absorb(t, Initiator(a, b, at), Pushes(a, b), nb) == Responder(a, b, nb, heard)
      && Transferred(t, Initiator(a, b, at), Pushes(a, b), nb) == Transferred(b, a, Pushes(a, b), nb)
  {
    var t, a' := Touch(b, a.id, heard), Initiator(a, b, at);
    forall k | k in Pushes(a, b)
      ensures Build(a', k) == Build(a, k)
    {
      NotPulledAndPushed(a, b, k);
      AbsorbAt(a, b, Pulls(a, b), at, k);
    }
    SameTransfer(t, a', b, a, Pushes(a, b), nb);
  }

  lemma NotPulledAndPushed(a: Node, b: Node, k: Key)
    requires k in Pushes(a, b)
    ensures k !in Pulls(a, b)
  {
    var mine, theirs := FullIndex(a, Negotiated(a, b.id)), Served(b, a.id, Negotiated(a, b.id));
    if k in theirs { VersionAsymmetric(theirs[k], mine[k]); }
  }

  // ---- as a run -------------------------------------------------------------------------

  /** The events can happen one after the other from `s`. */
  ghost predicate Can(cfg: Config, s: Cluster, events: seq<Event>)
    decreases |events|
  {
    events == [] || (Enabled(s, events[0]) && Can(cfg, Next(cfg, s, events[0]), events[1..]))
  }

  ghost function Go(cfg: Config, s: Cluster, events: seq<Event>): Cluster
    requires Can(cfg, s, events)
    decreases |events|
  {
    if events == [] then s else Go(cfg, Next(cfg, s, events[0]), events[1..])
  }

  lemma {:induction false} GoAppend(cfg: Config, s: Cluster, a: seq<Event>, b: seq<Event>)
    requires Can(cfg, s, a) && Can(cfg, Go(cfg, s, a), b)
    ensures Can(cfg, s, a + b) && Go(cfg, s, a + b) == Go(cfg, Go(cfg, s, a), b)
    decreases |a|
  {
    hide Enabled, Next;
    if a == [] {
      assert a + b == b;
    } else {
      assert (a + b)[1..] == a[1..] + b;
      GoAppend(cfg, Next(cfg, s, a[0]), a[1..], b);
    }
  }

  /** Whatever can happen from the end of a run makes a longer run. */
  lemma {:induction false} RunGoesOn(cfg: Config, run: seq<Cluster>, events: seq<Event>, more: seq<Event>) returns (longer: seq<Cluster>)
    requires IsRun(cfg, run, events) && Can(cfg, run[|run| - 1], more)
    ensures run <= longer && IsRun(cfg, longer, events + more)
    ensures longer[|longer| - 1] == Go(cfg, run[|run| - 1], more)
    decreases |more|
  {
    hide Enabled, Next, Init;
    if more == [] {
      assert events + more == events;
      longer := run;
    } else {
      var s := Next(cfg, run[|run| - 1], more[0]);
      longer := RunGoesOn(cfg, run + [s], events + [more[0]], more[1..]);
      assert events + [more[0]] + more[1..] == events + more;
    }
  }

  /** From `s` the events lead to the given nodes, and nothing is stamped and no clock moves on the way. */
  ghost predicate Leads(cfg: Config, s: Cluster, events: seq<Event>, nodes: map<string, Node>) {
    Can(cfg, s, events) && var t := Go(cfg, s, events);
    t.nodes == nodes && t.clocks == s.clocks && t.minted == s.minted
  }

  lemma LeadsOn(cfg: Config, s: Cluster, a: seq<Event>, mid: map<string, Node>, b: seq<Event>, nodes: map<string, Node>)
    requires Leads(cfg, s, a, mid) && Leads(cfg, Go(cfg, s, a), b, nodes)
    ensures Leads(cfg, s, a + b, nodes)
  {
    GoAppend(cfg, s, a, b);
    hide Can, Go;
  }

  lemma OneEvent(cfg: Config, s: Cluster, ev: Event)
    requires Enabled(s, ev)
    ensures Can(cfg, s, [ev]) && Go(cfg, s, [ev]) == Next(cfg, s, ev)
  {
    hide Enabled, Next;
  }

  /** Transferring one key is a message sent by the one node and received by the other. */
  lemma KeyAsMessage(cfg: Config, s: Cluster, to: string, from: string, k: Key) returns (events: seq<Event>)
    requires s.nodes.Keys == s.clocks.Keys && to in s.nodes && from in s.nodes && Build(s.nodes[from], k).Some?
    ensures Leads(cfg, s, events, s.nodes[to := Receive(s.nodes[to], Build(s.nodes[from], k).value, s.clocks[to])])
  {
    hide Build, Receive;
    var send, receive := Send(from, k), Act(to, OpReceive(Build(s.nodes[from], k).value));
    OneEvent(cfg, s, send);
    var s1 := Next(cfg, s, send);
    OneEvent(cfg, s1, receive);
    GoAppend(cfg, s, [send], [receive]);
    hide Can, Go;
    events := [send] + [receive];
  }

  /** So is taking any set of keys. */
  lemma {:induction false} KeysAsMessages(cfg: Config, s: Cluster, to: string, from: string, keys: set<Key>) returns (events: seq<Event>)
    requires s.nodes.Keys == s.clocks.Keys && to in s.nodes && from in s.nodes && to != from && WellFormed(s.nodes[from])
    ensures Leads(cfg, s, events, s.nodes[to := Absorb(s.nodes[to], s.nodes[from], keys, Still(s.clocks[to]))])
    decreases keys
  {
    hide Absorb, Build, Receive, WellFormed;
    var n, m, at := s.nodes[to], s.nodes[from], Still(s.clocks[to]);
    if keys == {} {
      AbsorbNothing(n, m, at);
      assert s.nodes[to := n] == s.nodes;
      events := [];
    } else {
      var k :| k in keys;
      var rest := keys - {k};
      assert rest + {k} == keys;
      AbsorbOneMore(n, m, rest, k, at);
      events := KeysAsMessages(cfg, s, to, from, rest);
      if Build(m, k).Some? {
        var mid := s.nodes[to := Absorb(n, m, rest, at)];
        var t := Go(cfg, s, events);
        var more := KeyAsMessage(cfg, t, to, from, k);
        assert t.nodes[to := Absorb(n, m, keys, at)] == s.nodes[to := Absorb(n, m, keys, at)];
        LeadsOn(cfg, s, events, mid, more, s.nodes[to := Absorb(n, m, keys, at)]);
        events := events + more;
      }
    }
  }

  lemma HeardAsMessage(cfg: Config, s: Cluster, y: string, x: string)
    requires s.nodes.Keys == s.clocks.Keys && y in s.nodes
    ensures Leads(cfg, s, [Act(y, OpTouch(x))], s.nodes[y := Touch(s.nodes[y], x, s.clocks[y])])
  {
    OneEvent(cfg, s, Act(y, OpTouch(x)));
    hide Touch;
  }

  lemma PullAsMessages(cfg: Config, s: Cluster, x: string, y: string) returns (events: seq<Event>)
    requires s.nodes.Keys == s.clocks.Keys && x in s.nodes && y in s.nodes && x != y
    requires s.nodes[x].id == x && WellFormed(s.nodes[x]) && WellFormed(s.nodes[y])
    ensures var a, b := s.nodes[x], s.nodes[y];
            Leads(cfg, s, events, s.nodes[y := Touch(b, x, s.clocks[y])][x := Initiator(a, b, Still(s.clocks[x]))])
  {
    hide Absorb, WellFormed, Pulls, Touch, Leads;
    var a, b, na, nb := s.nodes[x], s.nodes[y], s.clocks[x], s.clocks[y];
    TouchedSource(a, b, Pulls(a, b), Still(na), nb);
    TouchBuild(b, x, nb, Key("", "", ""));
    HeardAsMessage(cfg, s, y, x);
    var s1 := AfterLeads(cfg, s, [Act(y, OpTouch(x))], s.nodes[y := Touch(b, x, nb)]);
    var pull := KeysAsMessages(cfg, s1, x, y, Pulls(a, b));
    LeadsOn(cfg, s, [Act(y, OpTouch(x))], s1.nodes, pull, s1.nodes[x := Initiator(a, b, Still(na))]);
    events := [Act(y, OpTouch(x))] + pull;
  }

  ghost function AfterLeads(cfg: Config, s: Cluster, events: seq<Event>, nodes: map<string, Node>): (t: Cluster)
    requires Leads(cfg, s, events, nodes)
    ensures Can(cfg, s, events) && t == Go(cfg, s, events)
    ensures t.nodes == nodes && t.clocks == s.clocks && t.minted == s.minted
  {
    Go(cfg, s, events)
  }

  /** An exchange is a sequence of messages. */
  lemma ExchangeAsMessages(cfg: Config, s: Cluster, x: string, y: string) returns (events: seq<Event>)
    requires s.nodes.Keys == s.clocks.Keys && x in s.nodes && y in s.nodes && x != y
    requires s.nodes[x].id == x && s.nodes[y].id == y && WellFormed(s.nodes[x]) && WellFormed(s.nodes[y])
    ensures Leads(cfg, s, events, AfterExchange(s, x, y).nodes)
  {
    hide Absorb, WellFormed, Pulls, Pushes, Touch, Leads, Initiator, Responder;
    var a, b, na, nb := s.nodes[x], s.nodes[y], s.clocks[x], s.clocks[y];
    var t, a' := Touch(b, x, nb), Initiator(a, b, Still(na));
    InitiatorWellFormed(a, b, Still(na));
    PushesUndisturbed(a, b, Still(na), Still(nb), nb);
    var pull := PullAsMessages(cfg, s, x, y);
    var s1 := AfterLeads(cfg, s, pull, s.nodes[y := t][x := a']);
    assert s1.nodes[x] == a' && s1.nodes[y] == t;
    var push := KeysAsMessages(cfg, s1, y, x, Pushes(a, b));
    var nodes := AfterExchange(s, x, y).nodes;
    assert s1.nodes[y := Responder(a, b, Still(nb), nb)] == nodes;
    hide AfterExchange;
    LeadsOn(cfg, s, pull, s1.nodes, push, nodes);
    events := pull + push;
  }

  lemma InitiatorWellFormed(a: Node, b: Node, na: Readings)
    requires WellFormed(a) && WellFormed(b)
    ensures WellFormed(Initiator(a, b, na))
  {
    AbsorbAt(a, b, Pulls(a, b), na, Key("", "", ""));
  }

  /** So every run can go on to the state after `x` has reconciled with `y`: what holds in all runs holds with exchanges in them. */
  lemma ExchangeIsRun(cfg: Config, run: seq<Cluster>, events: seq<Event>, x: string, y: string)
    returns (longer: seq<Cluster>, more: seq<Event>)
    requires IsRun(cfg, run, events) && x in run[|run| - 1].nodes && y in run[|run| - 1].nodes && x != y
    ensures run <= longer && IsRun(cfg, longer, events + more)
    ensures var s, t := run[|run| - 1], longer[|longer| - 1];
            && s.nodes.Keys == s.clocks.Keys
            && t.nodes == AfterExchange(s, x, y).nodes && t.clocks == s.clocks && t.minted == s.minted
  {
    RunInv(cfg, run, events, |run| - 1);
    InvWellFormed(run[|run| - 1], x);
    InvWellFormed(run[|run| - 1], y);
    hide Inv, WellFormed;
    more := ExchangeAsMessages(cfg, run[|run| - 1], x, y);
    longer := RunGoesOn(cfg, run, events, more);
  }
}
