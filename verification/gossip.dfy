/**
 Gossip under the deployed rule as a step system, and what holds in every run:
 where entries come from, how large a TTL can be, and that a local insert wins.
 */
module Gossip {
  import opened Store
  import opened Mesh
  import opened Daemon

  /** The policy of a deployed node: the daemon's merge of a remote slice, its
      bleaching, and an insert command over loopback. */
  function Deployment(conf: TypeConf): Policy<State> {
    Policy((host, state, slice) => Merge(Deployed, host, true, state, slice),
           (state, elapsed) => Bleach(state, elapsed),
           (host, state, entries) => Merge(Deployed, host, false, state, CliSlice(host, conf, entries)),
           map[])
  }

  // ----------------------------------------------------------- provenance

  datatype Insertion = Insertion(author: Host, key: Key, data: Data)

  function LogStep(log: set<Insertion>, step: Step): set<Insertion> {
    log + if step.Insert? then set k | k in step.entries :: Insertion(step.node, k, step.entries[k]) else {}
  }

  /** Every insertion a run contains. */
  function Insertions(steps: seq<Step>): set<Insertion> {
    if steps == [] then {}
    else LogStep(Insertions(steps[..|steps| - 1]), steps[|steps| - 1])
  }

  ghost predicate Genuine(log: set<Insertion>, top: int, s: State) {
    forall k :: k in s ==> Insertion(s[k].author, k, s[k].data) in log && 1 <= s[k].ttl <= top
  }

  ghost predicate GenuineNet(log: set<Insertion>, top: int, net: Net<State>) {
    && (forall n :: n in net.nodes ==> Genuine(log, top, net.nodes[n]))
    && (forall id :: id in net.sessions && InFlight(net.sessions[id]) ==> Genuine(log, top, net.sessions[id].slice))
  }

  lemma GenuineMerge(log: set<Insertion>, top: int, host: Host, remote: bool, s: State, t: State)
    requires Genuine(log, top, s) && Genuine(log, top, t)
    ensures Genuine(log, top, Merge(Deployed, host, remote, s, t))
  {
  }

  lemma StepGenuine(conf: TypeConf, net: Net<State>, step: Step, log: set<Insertion>)
    requires Enabled(net, step) && GenuineNet(log, InsertTtl(conf), net)
    ensures GenuineNet(LogStep(log, step), InsertTtl(conf), Apply(Deployment(conf), net, step))
  {
    var log', top := LogStep(log, step), InsertTtl(conf);
    assert GenuineNet(log', top, net);
    match step
    case Serve(id) =>
      var p := net.sessions[id];
      GenuineMerge(log', top, p.server, true, net.nodes[p.server], p.slice);
    case Finish(id) =>
      var p := net.sessions[id];
      GenuineMerge(log', top, p.client, true, net.nodes[p.client], p.slice);
    case Insert(node, entries) =>
      assert Genuine(log', top, CliSlice(node, conf, entries));
      GenuineMerge(log', top, node, false, net.nodes[node], CliSlice(node, conf, entries));
    case _ =>
  }

  lemma {:induction false} RunGenuine(conf: TypeConf, net: Net<State>, steps: seq<Step>)
    requires Initial(net) && ValidRun(Deployment(conf), net, steps)
    ensures GenuineNet(Insertions(steps), InsertTtl(conf), After(Deployment(conf), net, steps))
    ensures After(Deployment(conf), net, steps).nodes.Keys == net.nodes.Keys
  {
    if steps != [] {
      var front := steps[..|steps| - 1];
      RunGenuine(conf, net, front);
      StepGenuine(conf, After(Deployment(conf), net, front), steps[|steps| - 1], Insertions(front));
    }
  }

  /** Every stored or travelling entry was inserted by the author it names and
      has a TTL between 1 and the insert TTL; loss, reboots and any bleaching
      included. */
  lemma Provenance(conf: TypeConf, net: Net<State>, steps: seq<Step>, k: Key, e: Entry)
    requires Initial(net) && ValidRun(Deployment(conf), net, steps)
    requires Carried(After(Deployment(conf), net, steps), k, e)
    ensures 1 <= e.ttl <= InsertTtl(conf)
    ensures exists i :: 0 <= i < |steps| && steps[i].Insert? && steps[i].node == e.author &&
              k in steps[i].entries && steps[i].entries[k] == e.data
  {
    RunGenuine(conf, net, steps);
    InsertionsAreSteps(steps, Insertion(e.author, k, e.data));
  }

  lemma {:induction false} InsertionsAreSteps(steps: seq<Step>, x: Insertion)
    requires x in Insertions(steps)
    ensures exists i :: 0 <= i < |steps| && steps[i].Insert? && steps[i].node == x.author &&
              x.key in steps[i].entries && steps[i].entries[x.key] == x.data
  {
    var front := steps[..|steps| - 1];
    if x in Insertions(front) {
      InsertionsAreSteps(front, x);
      var i :| 0 <= i < |front| && front[i].Insert? && front[i].node == x.author &&
        x.key in front[i].entries && front[i].entries[x.key] == x.data;
      assert steps[i] == front[i];
    } else {
      assert steps[|steps| - 1].Insert?;
    }
  }

  /** In every reachable mesh an insert command leaves its daemon holding
      exactly what was inserted, and everything else as it was. */
  lemma InsertSupremacy(conf: TypeConf, net: Net<State>, steps: seq<Step>, node: Host, entries: map<Key, Data>)
    requires Initial(net) && ValidRun(Deployment(conf), net, steps) && node in net.nodes
    ensures ValidRun(Deployment(conf), net, steps + [Insert(node, entries)])
    ensures var before := After(Deployment(conf), net, steps);
            var after := After(Deployment(conf), net, steps + [Insert(node, entries)]);
            after == WithNode(before, node, before.nodes[node] + CliSlice(node, conf, entries))
  {
    RunGenuine(conf, net, steps);
    var all := steps + [Insert(node, entries)];
    assert all[..|all| - 1] == steps;
    var held, slice := After(Deployment(conf), net, steps).nodes[node], CliSlice(node, conf, entries);
    LoopbackInsert(node, held, slice);
  }
}
