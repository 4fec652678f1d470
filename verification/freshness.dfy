/**
 Exact freshness under a shared clock. For one key with one author: nodes bleach
 together on common ticks, no message crosses a tick, the author publishes at
 most once per tick and does not reboot. Then the TTL of a copy tells exactly
 when it was published, and merging by TTL is last-writer-wins.
 */
module Freshness {
  import opened Store
  import opened Mesh
  import opened Gossip
  import opened Daemon

  datatype Publication = Publication(time: nat, data: Data)

  /** now is the total time bleached; history lists the key's publications. */
  datatype Clock = Clock(now: nat, history: seq<Publication>)

  datatype World = World(net: Net<State>, clock: Clock)

  datatype Event = Do(step: Step) | Tick(elapsed: nat)

  /** The key under study and the node that publishes it. */
  datatype Subject = Subject(conf: TypeConf, key: Key, owner: Host)

  predicate Allowed(sub: Subject, w: World, ev: Event) {
    match ev
    case Tick(elapsed) => elapsed >= 1 && Quiet(w.net)
    case Do(step) =>
      && Enabled(w.net, step) && !step.Expire?
      && (step.Reboot? ==> step.node != sub.owner)
      && (Publishes(step, sub.key) ==>
            && step.node == sub.owner
            && (w.clock.history == [] || w.clock.history[|w.clock.history| - 1].time < w.clock.now))
  }

  function Advance(sub: Subject, w: World, ev: Event): World
    requires Allowed(sub, w, ev)
  {
    match ev
    case Tick(elapsed) =>
      World(w.net.(nodes := map n | n in w.net.nodes :: Bleach(w.net.nodes[n], elapsed)),
            w.clock.(now := w.clock.now + elapsed))
    case Do(step) =>
      World(Apply(Deployment(sub.conf), w.net, step),
            if Publishes(step, sub.key)
            then w.clock.(history := w.clock.history + [Publication(w.clock.now, step.entries[sub.key])])
            else w.clock)
  }

  ghost predicate ValidEvents(sub: Subject, w: World, events: seq<Event>)
    decreases |events|, 0
  {
    events == [] ||
    (var front := events[..|events| - 1];
     ValidEvents(sub, w, front) && Allowed(sub, AfterEvents(sub, w, front), events[|events| - 1]))
  }

  ghost function AfterEvents(sub: Subject, w: World, events: seq<Event>): World
    requires ValidEvents(sub, w, events)
    decreases |events|, 1
  {
    if events == [] then w
    else Advance(sub, AfterEvents(sub, w, events[..|events| - 1]), events[|events| - 1])
  }

  // ------------------------------------------------------------ invariant

  /** e is the copy of publication g that the passing of time leaves. */
  predicate IsGeneration(sub: Subject, c: Clock, e: Entry, g: nat) {
    && g < |c.history|
    && e == Entry(sub.owner, InsertTtl(sub.conf) - (c.now - c.history[g].time), c.history[g].data)
    && e.ttl >= 1
  }

  predicate Dated(sub: Subject, c: Clock, s: State) {
    sub.key in s ==> exists g: nat | g < |c.history| :: IsGeneration(sub, c, s[sub.key], g)
  }

  predicate Chronological(c: Clock) {
    && (forall i, j :: 0 <= i < j < |c.history| ==> c.history[i].time < c.history[j].time)
    && (forall i :: 0 <= i < |c.history| ==> c.history[i].time <= c.now)
  }

  /** While the latest publication has not timed out, its author holds it. */
  predicate AuthorCurrent(sub: Subject, w: World) {
    && sub.owner in w.net.nodes
    && (w.clock.history != []
        && InsertTtl(sub.conf) - (w.clock.now - w.clock.history[|w.clock.history| - 1].time) >= 1 ==>
          && sub.key in w.net.nodes[sub.owner]
          && IsGeneration(sub, w.clock, w.net.nodes[sub.owner][sub.key], |w.clock.history| - 1))
  }

  predicate Fresh(sub: Subject, w: World) {
    && Chronological(w.clock) && AuthorCurrent(sub, w)
    && (forall n :: n in w.net.nodes ==> Dated(sub, w.clock, w.net.nodes[n]))
    && (forall id :: id in w.net.sessions && InFlight(w.net.sessions[id]) ==>
          Dated(sub, w.clock, w.net.sessions[id].slice))
  }

  /** TTL order is publication order. */
  lemma TtlTellsGeneration(sub: Subject, c: Clock, e: Entry, f: Entry, g: nat, h: nat)
    requires Chronological(c) && IsGeneration(sub, c, e, g) && IsGeneration(sub, c, f, h)
    ensures e.ttl <= f.ttl <==> g <= h
    ensures e == f <==> g == h
  {
  }

  /** A remote merge of dated states never finds its peer ill and keeps the
      later of the two publications. */
  lemma MergeIsLastWriterWins(sub: Subject, w: World, n: Host, slice: State)
    requires Fresh(sub, w) && n in w.net.nodes && Dated(sub, w.clock, slice)
    ensures var s := w.net.nodes[n];
            var m := Merge(Deployed, n, true, s, slice);
            && Dated(sub, w.clock, m)
            && (sub.key in s && sub.key in slice ==> !Ill(n, true, s[sub.key], slice[sub.key]))
            && (forall g: nat, h: nat :: sub.key in s && sub.key in slice
                  && IsGeneration(sub, w.clock, s[sub.key], g) && IsGeneration(sub, w.clock, slice[sub.key], h)
                  ==> IsGeneration(sub, w.clock, m[sub.key], if g <= h then h else g))
  {
  }

  lemma MergeKeepsAuthor(sub: Subject, w: World, slice: State)
    requires Fresh(sub, w) && Dated(sub, w.clock, slice) && sub.key in w.net.nodes[sub.owner]
    requires w.clock.history != [] && IsGeneration(sub, w.clock, w.net.nodes[sub.owner][sub.key], |w.clock.history| - 1)
    ensures Merge(Deployed, sub.owner, true, w.net.nodes[sub.owner], slice)[sub.key] == w.net.nodes[sub.owner][sub.key]
  {
  }

  lemma DatedLater(sub: Subject, c: Clock, c': Clock, s: State)
    requires Dated(sub, c, s) && c'.now == c.now && c.history <= c'.history
    ensures Dated(sub, c', s)
  {
    if sub.key in s {
      var g: nat :| g < |c.history| && IsGeneration(sub, c, s[sub.key], g);
      assert IsGeneration(sub, c', s[sub.key], g);
    }
  }

  lemma TickFresh(sub: Subject, w: World, elapsed: nat)
    requires Fresh(sub, w) && Allowed(sub, w, Tick(elapsed))
    ensures Fresh(sub, Advance(sub, w, Tick(elapsed)))
  {
    var w' := Advance(sub, w, Tick(elapsed));
    forall n | n in w'.net.nodes ensures Dated(sub, w'.clock, w'.net.nodes[n]) {
      assert Dated(sub, w.clock, w.net.nodes[n]);
      if sub.key in w'.net.nodes[n] {
        var e := w.net.nodes[n][sub.key];
        var g: nat :| g < |w.clock.history| && IsGeneration(sub, w.clock, e, g);
        assert IsGeneration(sub, w'.clock, w'.net.nodes[n][sub.key], g);
      }
    }
  }

  /** The inserting node's own state after the insert. */
  lemma InsertDated(sub: Subject, w: World, step: Step)
    requires Fresh(sub, w) && Allowed(sub, w, Do(step)) && step.Insert?
    ensures var w' := Advance(sub, w, Do(step));
            && Chronological(w'.clock)
            && Dated(sub, w'.clock, w'.net.nodes[step.node])
            && (Publishes(step, sub.key) ==>
                  && sub.key in w'.net.nodes[sub.owner]
                  && IsGeneration(sub, w'.clock, w'.net.nodes[sub.owner][sub.key], |w.clock.history|))
            && (!Publishes(step, sub.key) ==> AgreeOn(w.net.nodes[step.node], w'.net.nodes[step.node], sub.key))
  {
    var w', k := Advance(sub, w, Do(step)), sub.key;
    var s, s' := w.net.nodes[step.node], w'.net.nodes[step.node];
    var slice := CliSlice(step.node, sub.conf, step.entries);
    assert w'.net.nodes == w.net.nodes[step.node := Merge(Deployed, step.node, false, s, slice)];
    assert s' == Merge(Deployed, step.node, false, s, slice);
    assert Dated(sub, w.clock, s);
    if Publishes(step, sub.key) {
      assert s'[k] == Entry(sub.owner, InsertTtl(sub.conf), step.entries[k]);
      assert IsGeneration(sub, w'.clock, s'[k], |w.clock.history|);
    }
  }

  lemma PublishFresh(sub: Subject, w: World, step: Step)
    requires Fresh(sub, w) && Allowed(sub, w, Do(step)) && step.Insert?
    ensures Fresh(sub, Advance(sub, w, Do(step)))
  {
    var w' := Advance(sub, w, Do(step));
    InsertDated(sub, w, step);
    forall s | Dated(sub, w.clock, s) ensures Dated(sub, w'.clock, s) {
      DatedLater(sub, w.clock, w'.clock, s);
    }
  }

  lemma MergeFresh(sub: Subject, w: World, step: Step)
    requires Fresh(sub, w) && Allowed(sub, w, Do(step)) && (step.Serve? || step.Finish?)
    ensures Fresh(sub, Advance(sub, w, Do(step)))
  {
    var n, slice := Merger(w.net, step), w.net.sessions[step.id].slice;
    var w' := Advance(sub, w, Do(step));
    MergeIsLastWriterWins(sub, w, n, slice);
    var m := Merge(Deployed, n, true, w.net.nodes[n], slice);
    assert w'.net.nodes == w.net.nodes[n := m];
    if n == sub.owner && w.clock.history != [] && sub.key in w.net.nodes[n]
       && IsGeneration(sub, w.clock, w.net.nodes[n][sub.key], |w.clock.history| - 1) {
      MergeKeepsAuthor(sub, w, slice);
    }
  }

  lemma EventFresh(sub: Subject, w: World, ev: Event)
    requires Fresh(sub, w) && Allowed(sub, w, ev)
    ensures Fresh(sub, Advance(sub, w, ev))
  {
    match ev
    case Tick(elapsed) => TickFresh(sub, w, elapsed);
    case Do(step) =>
      if step.Insert? {
        PublishFresh(sub, w, step);
      } else if step.Serve? || step.Finish? {
        MergeFresh(sub, w, step);
      }
  }

  lemma {:induction false} RunFresh(sub: Subject, w: World, events: seq<Event>)
    requires Fresh(sub, w) && ValidEvents(sub, w, events)
    ensures Fresh(sub, AfterEvents(sub, w, events))
  {
    if events != [] {
      var front := events[..|events| - 1];
      RunFresh(sub, w, front);
      EventFresh(sub, AfterEvents(sub, w, front), events[|events| - 1]);
    }
  }

  // -------------------------------------------------------------- theorem

  /** Does the event make some node discard a copy of the key as ill? */
  predicate TakesIllBranch(sub: Subject, w: World, ev: Event)
    requires Allowed(sub, w, ev)
  {
    ev.Do? && (ev.step.Serve? || ev.step.Finish?) &&
    var n, slice := Merger(w.net, ev.step), w.net.sessions[ev.step.id].slice;
    sub.key in w.net.nodes[n] && sub.key in slice && Ill(n, true, w.net.nodes[n][sub.key], slice[sub.key])
  }

  /** Along every run from an empty mesh: each held copy is one publication aged
      by exactly the time since, no node's generation goes backwards, and the
      ill branch is never taken. */
  lemma ExactFreshness(sub: Subject, net: Net<State>, events: seq<Event>, ev: Event)
    requires Initial(net) && sub.owner in net.nodes
    requires var w := World(net, Clock(0, []));
             ValidEvents(sub, w, events) && Allowed(sub, AfterEvents(sub, w, events), ev)
    ensures var w := AfterEvents(sub, World(net, Clock(0, [])), events);
            && Fresh(sub, w)
            && !TakesIllBranch(sub, w, ev)
            && forall n, g: nat, h: nat :: n in w.net.nodes && n in Advance(sub, w, ev).net.nodes
                 && sub.key in w.net.nodes[n] && sub.key in Advance(sub, w, ev).net.nodes[n]
                 && IsGeneration(sub, w.clock, w.net.nodes[n][sub.key], g)
                 && IsGeneration(sub, Advance(sub, w, ev).clock, Advance(sub, w, ev).net.nodes[n][sub.key], h)
                 ==> g <= h
  {
    RunFresh(sub, World(net, Clock(0, [])), events);
    var w := AfterEvents(sub, World(net, Clock(0, [])), events);
    EventFresh(sub, w, ev);
    if ev.Do? && (ev.step.Serve? || ev.step.Finish?) {
      MergeIsLastWriterWins(sub, w, Merger(w.net, ev.step), w.net.sessions[ev.step.id].slice);
    }
    var w', k := Advance(sub, w, ev), sub.key;
    forall n, g: nat, h: nat | n in w.net.nodes && n in w'.net.nodes && k in w.net.nodes[n] && k in w'.net.nodes[n]
      && IsGeneration(sub, w.clock, w.net.nodes[n][k], g) && IsGeneration(sub, w'.clock, w'.net.nodes[n][k], h)
      ensures g <= h
    {
      NoRegression(sub, w, ev, n, g, h);
    }
  }

  /** No step other than a tick lowers the TTL of a held copy. */
  lemma StepKeepsTtl(sub: Subject, w: World, step: Step, n: Host)
    requires Fresh(sub, w) && Allowed(sub, w, Do(step)) && n in w.net.nodes && sub.key in w.net.nodes[n]
    ensures var w' := Advance(sub, w, Do(step));
            n in w'.net.nodes && sub.key in w'.net.nodes[n] ==>
              w.net.nodes[n][sub.key].ttl <= w'.net.nodes[n][sub.key].ttl
  {
  }

  lemma NoRegression(sub: Subject, w: World, ev: Event, n: Host, g: nat, h: nat)
    requires Fresh(sub, w) && Allowed(sub, w, ev) && Chronological(Advance(sub, w, ev).clock)
    requires n in w.net.nodes && n in Advance(sub, w, ev).net.nodes
    requires sub.key in w.net.nodes[n] && sub.key in Advance(sub, w, ev).net.nodes[n]
    requires IsGeneration(sub, w.clock, w.net.nodes[n][sub.key], g)
    requires IsGeneration(sub, Advance(sub, w, ev).clock, Advance(sub, w, ev).net.nodes[n][sub.key], h)
    ensures g <= h
  {
    var w', k := Advance(sub, w, ev), sub.key;
    var e, e' := w.net.nodes[n][k], w'.net.nodes[n][k];
    if ev.Tick? {
      assert IsGeneration(sub, w'.clock, e', g);
      TtlTellsGeneration(sub, w'.clock, e', e', g, h);
    } else {
      StepKeepsTtl(sub, w, ev.step, n);
      assert IsGeneration(sub, w'.clock, e, g);
      TtlTellsGeneration(sub, w'.clock, e, e', g, h);
    }
  }
}
