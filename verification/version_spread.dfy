/**
 What version counters deliver: after enough rounds every node holds the author's
 last publication, and an author that lost its counter to a reboot gets back
 ahead of every copy in the mesh with one more publication.
 */
module VersionSpread {
  import opened Options
  import opened Store
  import opened Mesh
  import opened Rounds
  import opened Versions
  import opened VersionLists
  import opened VersionGossip
  import opened Daemon

  function VersionOf(k: Key): VState -> Option<int> {
    (s: VState) => if k in s then Some(s[k].version) else None
  }

  /** Counting merges always climb, recovery included. */
  lemma {:induction false} RunClimbs(strategy: Strategy, conf: TypeConf, net: Net<VState>, steps: seq<Step>, k: Key)
    requires Counting(strategy) && ValidRun(Simulated(strategy, conf), net, steps)
    ensures ClimbingRun(Simulated(strategy, conf), VersionOf(k), net, steps)
  {
    if steps != [] {
      var front, step := steps[..|steps| - 1], steps[|steps| - 1];
      RunClimbs(strategy, conf, net, front, k);
      var mid := After(Simulated(strategy, conf), net, front);
      if step.Serve? || step.Finish? {
        var n := Merger(mid, step);
        VersionMonotone(strategy, n, true, mid.nodes[n], mid.sessions[step.id].slice, k);
      }
    }
  }

  // ------------------------------------------------- an author in the lead

  /** The copy of k in s, if any, is the owner's and no newer than version v,
      which carries d. */
  predicate Trails(s: VState, k: Key, owner: Host, v: int, d: Data) {
    k in s ==> s[k].author == owner && s[k].version <= v && (s[k].version == v ==> s[k].data == d)
  }

  /** The owner holds version v and every copy trails it. */
  predicate Led(net: Net<VState>, k: Key, owner: Host, v: int, d: Data) {
    && owner in net.nodes && k in net.nodes[owner] && net.nodes[owner][k].version == v
    && (forall n :: n in net.nodes ==> Trails(net.nodes[n], k, owner, v, d))
    && (forall id :: id in net.sessions && InFlight(net.sessions[id]) ==>
          Trails(net.sessions[id].slice, k, owner, v, d))
  }

  lemma MergeTrails(strategy: Strategy, n: Host, s: VState, slice: VState, k: Key, owner: Host, v: int, d: Data)
    requires Counting(strategy) && Trails(s, k, owner, v, d) && Trails(slice, k, owner, v, d)
    requires n == owner ==> k in s && s[k].version == v
    ensures var m := VMerge(strategy, n, true, s, slice);
            Trails(m, k, owner, v, d) && (n == owner ==> k in m && m[k].version == v)
  {
  }

  lemma StepLed(strategy: Strategy, conf: TypeConf, net: Net<VState>, step: Step, k: Key, owner: Host, v: int, d: Data)
    requires Counting(strategy) && Led(net, k, owner, v, d) && Enabled(net, step) && GossipStep(step)
    ensures Led(Apply(Simulated(strategy, conf), net, step), k, owner, v, d)
  {
    if step.Serve? || step.Finish? {
      var n, net' := Merger(net, step), Apply(Simulated(strategy, conf), net, step);
      var merged := VMerge(strategy, n, true, net.nodes[n], net.sessions[step.id].slice);
      MergeTrails(strategy, n, net.nodes[n], net.sessions[step.id].slice, k, owner, v, d);
      MergingStep(Simulated(strategy, conf), net, step);
      assert net'.nodes == net.nodes[n := merged];
    }
  }

  lemma {:induction false} RunLed(strategy: Strategy, conf: TypeConf, net: Net<VState>, steps: seq<Step>,
          k: Key, owner: Host, v: int, d: Data)
    requires Counting(strategy) && Led(net, k, owner, v, d)
    requires ValidRun(Simulated(strategy, conf), net, steps) && GossipOnly(steps)
    ensures Led(After(Simulated(strategy, conf), net, steps), k, owner, v, d)
  {
    if steps != [] {
      var front := steps[..|steps| - 1];
      assert forall i :: 0 <= i < |front| ==> front[i] == steps[i];
      RunLed(strategy, conf, net, front, k, owner, v, d);
      StepLed(strategy, conf, After(Simulated(strategy, conf), net, front), steps[|steps| - 1], k, owner, v, d);
    }
  }

  predicate HoldsVersion(s: VState, k: Key, owner: Host, v: int, d: Data) {
    k in s && s[k].author == owner && s[k].version == v && s[k].data == d
  }

  /** A leading author's publication reaches every node as many rounds away. */
  lemma LeadSpreads(strategy: Strategy, conf: TypeConf, edges: Edges, net: Net<VState>, rounds: seq<seq<Step>>,
          k: Key, owner: Host, v: int, d: Data, x: Host)
    requires Counting(strategy) && Led(net, k, owner, v, d)
    requires ValidRounds(Simulated(strategy, conf), edges, net, rounds)
    requires x in net.nodes && Reaches(edges, owner, x, |rounds|)
    ensures var end := After(Simulated(strategy, conf), net, Flat(rounds));
            x in end.nodes && HoldsVersion(end.nodes[x], k, owner, v, d)
  {
    FlatGossip(Simulated(strategy, conf), edges, net, rounds);
    RunLed(strategy, conf, net, Flat(rounds), k, owner, v, d);
    RunClimbs(strategy, conf, net, Flat(rounds), k);
    Spread(Simulated(strategy, conf), VersionOf(k), edges, net, rounds, owner, x);
  }

  lemma SafeLeads(topic: Topic, history: seq<Data>, net: Net<VState>)
    requires Safe(topic, history, net) && history != []
    ensures Led(net, topic.key, topic.owner, |history|, history[|history| - 1])
  {
  }

  /** After any permitted run from an empty mesh in which something was
      published, and then as many rounds as the owner is hops away, a node holds
      the owner's last publication. */
  lemma LastPublicationSpreads(topic: Topic, net: Net<VState>, steps: seq<Step>, edges: Edges,
          rounds: seq<seq<Step>>, x: Host)
    requires Counting(topic.strategy) && Initial(net) && topic.owner in net.nodes
    requires PermittedRun(topic, net, steps) && History(topic.key, steps) != []
    requires var start := After(topic.Simulation(), net, steps);
             ValidRounds(topic.Simulation(), edges, start, rounds) && x in start.nodes
    requires Reaches(edges, topic.owner, x, |rounds|)
    ensures var end := After(topic.Simulation(), After(topic.Simulation(), net, steps), Flat(rounds));
            var history := History(topic.key, steps);
            x in end.nodes && HoldsVersion(end.nodes[x], topic.key, topic.owner, |history|, history[|history| - 1])
  {
    var history := History(topic.key, steps);
    RunSafe(topic, net, steps);
    var start := After(topic.Simulation(), net, steps);
    SafeLeads(topic, history, start);
    LeadSpreads(topic.strategy, topic.conf, edges, start, rounds,
                topic.key, topic.owner, |history|, history[|history| - 1], x);
  }

  // --------------------------------------------------- an author come back

  /** The copy of k in s, if any, is the owner's and no newer than top. */
  predicate UpTo(s: VState, k: Key, owner: Host, top: int) {
    k in s ==> s[k].author == owner && s[k].version <= top
  }

  /** The newest version there can be: top, or what the owner itself holds. */
  function Ceiling(net: Net<VState>, k: Key, owner: Host, top: int): int
    requires owner in net.nodes
  {
    var own := net.nodes[owner];
    if k in own && own[k].version > top then own[k].version else top
  }

  predicate Bounded(net: Net<VState>, k: Key, owner: Host, top: int) {
    && owner in net.nodes
    && (forall n :: n in net.nodes ==> UpTo(net.nodes[n], k, owner, Ceiling(net, k, owner, top)))
    && (forall id :: id in net.sessions && InFlight(net.sessions[id]) ==>
          UpTo(net.sessions[id].slice, k, owner, Ceiling(net, k, owner, top)))
  }

  /** Only the owner recovers, so nobody else raises a version. */
  lemma MergeUpTo(strategy: Strategy, n: Host, s: VState, slice: VState, k: Key, owner: Host, top: int)
    requires Counting(strategy) && UpTo(s, k, owner, top) && UpTo(slice, k, owner, top)
    ensures var m := VMerge(strategy, n, true, s, slice);
            && (k in m ==> m[k].author == owner)
            && (n != owner ==> UpTo(m, k, owner, top))
            && (k in s ==> k in m && s[k].version <= m[k].version)
  {
  }

  lemma StepBounded(strategy: Strategy, conf: TypeConf, net: Net<VState>, step: Step, k: Key, owner: Host, top: int)
    requires Counting(strategy) && Bounded(net, k, owner, top) && Enabled(net, step) && GossipStep(step)
    ensures Bounded(Apply(Simulated(strategy, conf), net, step), k, owner, top)
  {
    if step.Serve? || step.Finish? {
      var n, net' := Merger(net, step), Apply(Simulated(strategy, conf), net, step);
      var merged := VMerge(strategy, n, true, net.nodes[n], net.sessions[step.id].slice);
      MergeUpTo(strategy, n, net.nodes[n], net.sessions[step.id].slice, k, owner, Ceiling(net, k, owner, top));
      MergingStep(Simulated(strategy, conf), net, step);
      assert net'.nodes == net.nodes[n := merged];
      assert Ceiling(net, k, owner, top) <= Ceiling(net', k, owner, top);
      assert UpTo(merged, k, owner, Ceiling(net', k, owner, top));
    }
  }

  lemma {:induction false} RunBounded(strategy: Strategy, conf: TypeConf, net: Net<VState>, steps: seq<Step>,
          k: Key, owner: Host, top: int)
    requires Counting(strategy) && Bounded(net, k, owner, top)
    requires ValidRun(Simulated(strategy, conf), net, steps) && GossipOnly(steps)
    ensures Bounded(After(Simulated(strategy, conf), net, steps), k, owner, top)
  {
    if steps != [] {
      var front := steps[..|steps| - 1];
      assert forall i :: 0 <= i < |front| ==> front[i] == steps[i];
      RunBounded(strategy, conf, net, front, k, owner, top);
      StepBounded(strategy, conf, After(Simulated(strategy, conf), net, front), steps[|steps| - 1], k, owner, top);
    }
  }

  /** Every copy of k is the owner's, and some node's copy is as new as any. */
  ghost predicate Covered(net: Net<VState>, k: Key, owner: Host) {
    && owner in net.nodes
    && exists u :: u in net.nodes && k in net.nodes[u] && Bounding(net, k, owner, net.nodes[u][k].version)
  }

  predicate Bounding(net: Net<VState>, k: Key, owner: Host, top: int) {
    && (forall n :: n in net.nodes ==> UpTo(net.nodes[n], k, owner, top))
    && (forall id :: id in net.sessions && InFlight(net.sessions[id]) ==> UpTo(net.sessions[id].slice, k, owner, top))
  }

  /** Once every node's knowledge has reached the owner, whatever it held and
      recovered on the way, its next publication leads. */
  lemma RegainsLead(strategy: Strategy, conf: TypeConf, edges: Edges, net: Net<VState>, rounds: seq<seq<Step>>,
          k: Key, owner: Host, entries: map<Key, Data>) returns (v: int)
    requires Counting(strategy) && Covered(net, k, owner) && k in entries
    requires ValidRounds(Simulated(strategy, conf), edges, net, rounds)
    requires AllReach(edges, net.nodes.Keys, owner, |rounds|)
    ensures var mid := After(Simulated(strategy, conf), net, Flat(rounds));
            && Enabled(mid, Insert(owner, entries))
            && Led(Apply(Simulated(strategy, conf), mid, Insert(owner, entries)), k, owner, v, entries[k])
  {
    var u :| u in net.nodes && k in net.nodes[u] && Bounding(net, k, owner, net.nodes[u][k].version);
    var top := net.nodes[u][k].version;
    FlatGossip(Simulated(strategy, conf), edges, net, rounds);
    RunBounded(strategy, conf, net, Flat(rounds), k, owner, top);
    RunClimbs(strategy, conf, net, Flat(rounds), k);
    Spread(Simulated(strategy, conf), VersionOf(k), edges, net, rounds, u, owner);
    var mid := After(Simulated(strategy, conf), net, Flat(rounds));
    v := mid.nodes[owner][k].version + 1;
    InsertLeads(strategy, conf, mid, k, owner, entries);
  }

  lemma InsertLeads(strategy: Strategy, conf: TypeConf, net: Net<VState>, k: Key, owner: Host, entries: map<Key, Data>)
    requires Counting(strategy) && k in entries && owner in net.nodes && k in net.nodes[owner]
    requires Bounding(net, k, owner, net.nodes[owner][k].version)
    ensures Led(Apply(Simulated(strategy, conf), net, Insert(owner, entries)), k, owner,
                net.nodes[owner][k].version + 1, entries[k])
  {
    var net' := Apply(Simulated(strategy, conf), net, Insert(owner, entries));
    assert net'.nodes == net.nodes[owner := InsertAll(strategy, conf, owner, net.nodes[owner], entries)];
  }

  // ---------------------------------------------------------------- reboot

  /** Every copy of k, held or travelling, names owner as its author. */
  predicate AllBy(net: Net<VState>, k: Key, owner: Host) {
    && (forall n :: n in net.nodes && k in net.nodes[n] ==> net.nodes[n][k].author == owner)
    && (forall id :: id in net.sessions && InFlight(net.sessions[id]) && k in net.sessions[id].slice ==>
          net.sessions[id].slice[k].author == owner)
  }

  /** Every travelling copy of k is no newer than some node's copy. */
  predicate Backed(net: Net<VState>, k: Key) {
    forall id :: id in net.sessions && InFlight(net.sessions[id]) && k in net.sessions[id].slice ==>
      exists n :: n in net.nodes && k in net.nodes[n] && net.sessions[id].slice[k].version <= net.nodes[n][k].version
  }

  lemma {:induction false} NewestNode(nodes: map<Host, VState>, hosts: set<Host>, k: Key, n: Host) returns (u: Host)
    requires hosts <= nodes.Keys && n in hosts && k in nodes[n]
    ensures u in hosts && k in nodes[u]
    ensures forall m :: m in hosts && k in nodes[m] ==> nodes[m][k].version <= nodes[u][k].version
    decreases |hosts|
  {
    var rest := hosts - {n};
    if m :| m in rest && k in nodes[m] {
      u := NewestNode(nodes, rest, k, m);
      if nodes[n][k].version > nodes[u][k].version {
        u := n;
      }
    } else {
      u := n;
    }
  }

  lemma BackedCovered(net: Net<VState>, k: Key, owner: Host)
    requires owner in net.nodes && k in net.nodes[owner] && AllBy(net, k, owner) && Backed(net, k)
    ensures Covered(net, k, owner)
  {
    var u := NewestNode(net.nodes, net.nodes.Keys, k, owner);
    assert Bounding(net, k, owner, net.nodes[u][k].version);
  }

  /** The owner reboots, hears whatever it hears, and inserts the key anew. */
  function Reborn(owner: Host, between: seq<Step>, first: map<Key, Data>): seq<Step> {
    [Reboot(owner)] + between + [Insert(owner, first)]
  }

  /** After a reboot every copy is still the owner's. */
  lemma RebornAllBy(topic: Topic, history: seq<Data>, net: Net<VState>, between: seq<Step>, first: map<Key, Data>)
    requires Counting(topic.strategy) && Safe(topic, history, net)
    requires GossipOnly(between) && topic.key in first
    requires ValidRun(topic.Simulation(), net, Reborn(topic.owner, between, first))
    ensures var start := After(topic.Simulation(), net, Reborn(topic.owner, between, first));
            && topic.owner in start.nodes && topic.key in start.nodes[topic.owner]
            && AllBy(start, topic.key, topic.owner)
  {
    var reboot := [Reboot(topic.owner)];
    RunConcat(topic.Simulation(), net, reboot + between, [Insert(topic.owner, first)]);
    RunConcat(topic.Simulation(), net, reboot, between);
    RebootBounded(topic, history, net);
    var rebooted := After(topic.Simulation(), net, reboot);
    RunBounded(topic.strategy, topic.conf, rebooted, between, topic.key, topic.owner, |history|);
    var mid := After(topic.Simulation(), net, reboot + between);
    InsertAllBy(topic, mid, first);
    RunSnoc(topic.Simulation(), net, reboot + between, Insert(topic.owner, first));
  }

  lemma RebootBounded(topic: Topic, history: seq<Data>, net: Net<VState>)
    requires Safe(topic, history, net)
    ensures ValidRun(topic.Simulation(), net, [Reboot(topic.owner)])
    ensures Bounded(After(topic.Simulation(), net, [Reboot(topic.owner)]), topic.key, topic.owner, |history|)
  {
    RunSnoc(topic.Simulation(), net, [], Reboot(topic.owner));
    assert [] + [Reboot(topic.owner)] == [Reboot(topic.owner)];
    assert Apply(topic.Simulation(), net, Reboot(topic.owner)).nodes == net.nodes[topic.owner := map[]];
  }

  lemma InsertAllBy(topic: Topic, net: Net<VState>, entries: map<Key, Data>)
    requires topic.owner in net.nodes && AllBy(net, topic.key, topic.owner) && topic.key in entries
    ensures var net' := Apply(topic.Simulation(), net, Insert(topic.owner, entries));
            topic.key in net'.nodes[topic.owner] && AllBy(net', topic.key, topic.owner)
  {
  }

  /** An owner that loses its counter in a reboot, after any permitted run, and
      publishes twice with enough rounds behind each publication ends with that
      last publication at every node, if no copy older than the reboot and newer
      than what the nodes hold was still travelling. */
  lemma RebootRecovery(topic: Topic, net: Net<VState>, steps: seq<Step>, between: seq<Step>, first: map<Key, Data>,
          start: Net<VState>, edges: Edges, rounds: seq<seq<Step>>, mid: Net<VState>,
          second: map<Key, Data>, led: Net<VState>, later: seq<seq<Step>>, x: Host)
    requires Counting(topic.strategy) && Initial(net) && topic.owner in net.nodes
    requires PermittedRun(topic, net, steps) && GossipOnly(between) && topic.key in first
    requires var lost := After(topic.Simulation(), net, steps);
             && ValidRun(topic.Simulation(), lost, Reborn(topic.owner, between, first))
             && start == After(topic.Simulation(), lost, Reborn(topic.owner, between, first))
    requires Backed(start, topic.key)
    requires ValidRounds(topic.Simulation(), edges, start, rounds)
    requires mid == After(topic.Simulation(), start, Flat(rounds))
    requires AllReach(edges, start.nodes.Keys, topic.owner, |rounds|)
    requires topic.key in second && Enabled(mid, Insert(topic.owner, second))
    requires led == Apply(topic.Simulation(), mid, Insert(topic.owner, second))
    requires ValidRounds(topic.Simulation(), edges, led, later)
    requires x in led.nodes && Reaches(edges, topic.owner, x, |later|)
    ensures var end := After(topic.Simulation(), led, Flat(later));
            && x in end.nodes && topic.key in end.nodes[x]
            && end.nodes[x][topic.key].author == topic.owner && end.nodes[x][topic.key].data == second[topic.key]
  {
    RunSafe(topic, net, steps);
    RebornAllBy(topic, History(topic.key, steps), After(topic.Simulation(), net, steps), between, first);
    BackedCovered(start, topic.key, topic.owner);
    var v := RegainsLead(topic.strategy, topic.conf, edges, start, rounds, topic.key, topic.owner, second);
    LeadSpreads(topic.strategy, topic.conf, edges, led, later, topic.key, topic.owner, v, second[topic.key], x);
  }

  // ------------------------------------------------------- one publication

  /** A rebooted author whose fresh insert hears the newest copy there is leads
      with that insert. */
  lemma LeapfrogLeads(strategy: Strategy, conf: TypeConf, net: Net<VState>, step: Step, k: Key, owner: Host)
    requires Counting(strategy) && Enabled(net, step) && (step.Serve? || step.Finish?)
    requires Merger(net, step) == owner && k in net.nodes[owner]
    requires OwnGuarded(strategy, owner, net.nodes[owner][k])
    requires var slice := net.sessions[step.id].slice;
             k in slice && slice[k].version > net.nodes[owner][k].version && Bounding(net, k, owner, slice[k].version)
    ensures Led(Apply(Simulated(strategy, conf), net, step), k, owner, net.sessions[step.id].slice[k].version + 1,
                net.nodes[owner][k].data)
  {
    var slice, net' := net.sessions[step.id].slice, Apply(Simulated(strategy, conf), net, step);
    var merged := VMerge(strategy, owner, true, net.nodes[owner], slice);
    MergingStep(Simulated(strategy, conf), net, step);
    assert net'.nodes == net.nodes[owner := merged];
    assert merged[k] == net.nodes[owner][k].(version := slice[k].version + 1);
  }

  /** From there one publication is enough: after as many rounds as hops a node
      holds it. */
  lemma LeapfrogSpreads(strategy: Strategy, conf: TypeConf, edges: Edges, net: Net<VState>, step: Step,
          rounds: seq<seq<Step>>, k: Key, owner: Host, x: Host)
    requires Counting(strategy) && Enabled(net, step) && (step.Serve? || step.Finish?)
    requires Merger(net, step) == owner && k in net.nodes[owner]
    requires OwnGuarded(strategy, owner, net.nodes[owner][k])
    requires var slice := net.sessions[step.id].slice;
             k in slice && slice[k].version > net.nodes[owner][k].version && Bounding(net, k, owner, slice[k].version)
    requires ValidRounds(Simulated(strategy, conf), edges, Apply(Simulated(strategy, conf), net, step), rounds)
    requires x in net.nodes && Reaches(edges, owner, x, |rounds|)
    ensures var end := After(Simulated(strategy, conf), Apply(Simulated(strategy, conf), net, step), Flat(rounds));
            && x in end.nodes
            && HoldsVersion(end.nodes[x], k, owner, net.sessions[step.id].slice[k].version + 1,
                            net.nodes[owner][k].data)
  {
    LeapfrogLeads(strategy, conf, net, step, k, owner);
    MergingStep(Simulated(strategy, conf), net, step);
    LeadSpreads(strategy, conf, edges, Apply(Simulated(strategy, conf), net, step), rounds, k, owner,
                net.sessions[step.id].slice[k].version + 1, net.nodes[owner][k].data, x);
  }

  // ------------------------------------------------------------- stragglers

  predicate AllTrail(net: Net<VState>, k: Key, owner: Host, v: int, d: Data) {
    forall n :: n in net.nodes ==> Trails(net.nodes[n], k, owner, v, d)
  }

  /** The owner leads among the nodes; the owner's older publications may travel
      under any other version. */
  predicate LedAtNodes(net: Net<VState>, k: Key, owner: Host, v: int, d: Data) {
    && owner in net.nodes && k in net.nodes[owner] && net.nodes[owner][k].version == v
    && AllTrail(net, k, owner, v, d)
    && (forall id :: id in net.sessions && InFlight(net.sessions[id]) && k in net.sessions[id].slice ==>
          && net.sessions[id].slice[k].author == owner
          && (net.sessions[id].slice[k].version == v ==> net.sessions[id].slice[k].data == d))
  }

  /** No travelling copy is newer than version v. */
  predicate NoneAhead(net: Net<VState>, k: Key, v: int) {
    forall id :: id in net.sessions && InFlight(net.sessions[id]) && k in net.sessions[id].slice ==>
      net.sessions[id].slice[k].version <= v
  }

  /** Whatever gossip follows, no node gets ahead of the owner's publication. */
  ghost predicate StaysLed(strategy: Strategy, conf: TypeConf, net: Net<VState>, k: Key, owner: Host, v: int, d: Data) {
    forall steps :: ValidRun(Simulated(strategy, conf), net, steps) && GossipOnly(steps) ==>
      AllTrail(After(Simulated(strategy, conf), net, steps), k, owner, v, d)
  }

  /** A travelling copy that is newer gets ahead where it arrives. */
  lemma StragglerArrives(strategy: Strategy, conf: TypeConf, net: Net<VState>, id: nat,
          k: Key, owner: Host, v: int, d: Data) returns (step: Step)
    requires Counting(strategy) && Addressed(net) && id in net.sessions && InFlight(net.sessions[id])
    requires k in net.sessions[id].slice && net.sessions[id].slice[k].version > v
    ensures Enabled(net, step) && GossipStep(step)
    ensures !AllTrail(Apply(Simulated(strategy, conf), net, step), k, owner, v, d)
  {
    step := if net.sessions[id].Requested? then Serve(id) else Finish(id);
    var n := Merger(net, step);
    MergingStep(Simulated(strategy, conf), net, step);
    VersionMonotone(strategy, n, true, net.nodes[n], net.sessions[id].slice, k);
    assert !Trails(Apply(Simulated(strategy, conf), net, step).nodes[n], k, owner, v, d);
  }

  /** The owner's publication stays ahead at every node under all gossip that may
      follow if and only if no travelling copy is newer. */
  lemma StaysLedExactly(strategy: Strategy, conf: TypeConf, net: Net<VState>, k: Key, owner: Host, v: int, d: Data)
    requires Counting(strategy) && Addressed(net) && LedAtNodes(net, k, owner, v, d)
    ensures StaysLed(strategy, conf, net, k, owner, v, d) <==> NoneAhead(net, k, v)
  {
    var policy := Simulated(strategy, conf);
    if NoneAhead(net, k, v) {
      forall steps | ValidRun(policy, net, steps) && GossipOnly(steps)
        ensures AllTrail(After(policy, net, steps), k, owner, v, d)
      {
        RunLed(strategy, conf, net, steps, k, owner, v, d);
      }
    } else {
      var id :| id in net.sessions && InFlight(net.sessions[id]) && k in net.sessions[id].slice &&
        net.sessions[id].slice[k].version > v;
      var step := StragglerArrives(strategy, conf, net, id, k, owner, v, d);
      RunSnoc(policy, net, [], step);
      assert [] + [step] == [step];
      assert GossipOnly([step]);
    }
  }
}
