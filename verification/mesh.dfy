/**
 The mesh as nodes plus sessions in flight, its steps, and runs of steps. Session
 ids are never reused, so a session's record tells what became of it; S is the
 per-node state and a policy says what nodes do with it.
 */
module Mesh {
  import opened Store

  /** Requested holds the client's snapshot on its way to the server, Replied
      the server's merged snapshot on its way back. */
  datatype Phase<S> =
    | Requested(client: Host, server: Host, slice: S)
    | Replied(client: Host, server: Host, slice: S)
    | Finished(client: Host, server: Host)
    | Lost

  datatype Net<S> = Net(nodes: map<Host, S>, sessions: map<nat, Phase<S>>)

  datatype Step =
    | Start(id: nat, client: Host, server: Host)
    | Serve(id: nat)
    | Finish(id: nat)
    | Lose(id: nat)
    | Expire(node: Host, elapsed: nat)
    | Insert(node: Host, entries: map<Key, Data>)
    | Reboot(node: Host)

  /** Is the step an insert of the key? */
  predicate Publishes(step: Step, k: Key) {
    step.Insert? && k in step.entries
  }

  predicate InFlight<S>(p: Phase<S>) {
    p.Requested? || p.Replied?
  }

  /** What a step needs of the mesh, whatever the nodes store. */
  predicate Enabled<S>(net: Net<S>, step: Step) {
    match step
    case Start(id, client, server) =>
      id !in net.sessions && client in net.nodes && server in net.nodes && client != server
    case Serve(id) =>
      id in net.sessions && net.sessions[id].Requested? && net.sessions[id].server in net.nodes
    case Finish(id) =>
      id in net.sessions && net.sessions[id].Replied? && net.sessions[id].client in net.nodes
    case Lose(id) => id in net.sessions && InFlight(net.sessions[id])
    case Expire(node, elapsed) => node in net.nodes && elapsed >= 1
    case Insert(node, _) => node in net.nodes
    case Reboot(node) => node in net.nodes
  }

  function WithNode<S>(net: Net<S>, node: Host, state: S): Net<S> {
    net.(nodes := net.nodes[node := state])
  }

  function WithSession<S>(net: Net<S>, id: nat, phase: Phase<S>): Net<S> {
    net.(sessions := net.sessions[id := phase])
  }

  /** The session steps; merged is what the merging node makes of the slice. */
  function Started<S>(net: Net<S>, id: nat, client: Host, server: Host): Net<S>
    requires Enabled(net, Start(id, client, server))
  {
    WithSession(net, id, Requested(client, server, net.nodes[client]))
  }

  function Served<S>(net: Net<S>, id: nat, merged: S): Net<S>
    requires Enabled(net, Serve(id))
  {
    var p := net.sessions[id];
    WithSession(WithNode(net, p.server, merged), id, Replied(p.client, p.server, merged))
  }

  function Completed<S>(net: Net<S>, id: nat, merged: S): Net<S>
    requires Enabled(net, Finish(id))
  {
    var p := net.sessions[id];
    WithSession(WithNode(net, p.client, merged), id, Finished(p.client, p.server))
  }

  /** The node a session step merges at. */
  function Merger<S>(net: Net<S>, step: Step): Host
    requires (step.Serve? || step.Finish?) && Enabled(net, step)
  {
    var p := net.sessions[step.id];
    if step.Serve? then p.server else p.client
  }

  /** What that node holds after the merge. */
  function Merged<S>(policy: Policy<S>, net: Net<S>, step: Step): S
    requires (step.Serve? || step.Finish?) && Enabled(net, step)
  {
    var n := Merger(net, step);
    policy.merge(n, net.nodes[n], net.sessions[step.id].slice)
  }

  // ---------------------------------------------------------------- runs

  /** What a node makes of a slice from a peer, of time passing, of entries
      inserted locally, and what it boots with. */
  datatype Policy<!S> = Policy(
    merge: (Host, S, S) -> S,
    expire: (S, nat) -> S,
    insert: (Host, S, map<Key, Data>) -> S,
    boot: S)

  function Apply<S>(policy: Policy<S>, net: Net<S>, step: Step): Net<S>
    requires Enabled(net, step)
  {
    match step
    case Start(id, client, server) => Started(net, id, client, server)
    case Serve(id) => Served(net, id, Merged(policy, net, step))
    case Finish(id) => Completed(net, id, Merged(policy, net, step))
    case Lose(id) => WithSession(net, id, Lost)
    case Expire(node, elapsed) => WithNode(net, node, policy.expire(net.nodes[node], elapsed))
    case Insert(node, entries) => WithNode(net, node, policy.insert(node, net.nodes[node], entries))
    case Reboot(node) => WithNode(net, node, policy.boot)
  }

  /** A session step that merges changes one node, and only its own session. */
  lemma MergingStep<S>(policy: Policy<S>, net: Net<S>, step: Step)
    requires Enabled(net, step) && (step.Serve? || step.Finish?)
    ensures var net', merged := Apply(policy, net, step), Merged(policy, net, step);
            && net'.nodes == net.nodes[Merger(net, step) := merged]
            && net'.sessions.Keys == net.sessions.Keys
            && (forall id :: id in net.sessions && id != step.id ==> net'.sessions[id] == net.sessions[id])
            && (InFlight(net'.sessions[step.id]) ==> net'.sessions[step.id].slice == merged)
  {
  }

  ghost predicate ValidRun<S>(policy: Policy<S>, net: Net<S>, steps: seq<Step>)
    decreases |steps|, 0
  {
    steps == [] ||
    (var front := steps[..|steps| - 1];
     ValidRun(policy, net, front) && Enabled(After(policy, net, front), steps[|steps| - 1]))
  }

  ghost function After<S>(policy: Policy<S>, net: Net<S>, steps: seq<Step>): Net<S>
    requires ValidRun(policy, net, steps)
    decreases |steps|, 1
  {
    if steps == [] then net
    else Apply(policy, After(policy, net, steps[..|steps| - 1]), steps[|steps| - 1])
  }

  lemma RunSnoc<S>(policy: Policy<S>, net: Net<S>, steps: seq<Step>, step: Step)
    requires ValidRun(policy, net, steps) && Enabled(After(policy, net, steps), step)
    ensures ValidRun(policy, net, steps + [step])
    ensures After(policy, net, steps + [step]) == Apply(policy, After(policy, net, steps), step)
  {
    assert (steps + [step])[..|steps|] == steps;
  }

  lemma RunTwo<S>(policy: Policy<S>, net: Net<S>, x: Step, y: Step)
    requires Enabled(net, x) && Enabled(Apply(policy, net, x), y)
    ensures ValidRun(policy, net, [x, y])
    ensures After(policy, net, [x, y]) == Apply(policy, Apply(policy, net, x), y)
  {
    RunSnoc(policy, net, [], x);
    assert [] + [x] == [x] && [x] + [y] == [x, y];
    RunSnoc(policy, net, [x], y);
  }

  /** A run is any prefix of it followed by the rest. */
  lemma {:induction false} RunConcat<S>(policy: Policy<S>, net: Net<S>, first: seq<Step>, second: seq<Step>)
    ensures ValidRun(policy, net, first + second)
       <==> ValidRun(policy, net, first) && ValidRun(policy, After(policy, net, first), second)
    ensures ValidRun(policy, net, first + second) ==>
              After(policy, net, first + second) == After(policy, After(policy, net, first), second)
    decreases |second|
  {
    if second == [] {
      assert first + second == first;
    } else {
      var front := second[..|second| - 1];
      assert (first + second)[..|first + second| - 1] == first + front;
      RunConcat(policy, net, first, front);
    }
  }

  /** Everything that travels goes between nodes of the mesh. */
  predicate Addressed<S>(net: Net<S>) {
    forall id :: id in net.sessions && InFlight(net.sessions[id]) ==>
      net.sessions[id].client in net.nodes && net.sessions[id].server in net.nodes
  }

  lemma {:induction false} RunAddressed<S>(policy: Policy<S>, net: Net<S>, steps: seq<Step>)
    requires Addressed(net) && ValidRun(policy, net, steps)
    ensures Addressed(After(policy, net, steps))
  {
    if steps != [] {
      RunAddressed(policy, net, steps[..|steps| - 1]);
    }
  }

  /** A fresh session up to the server's merge. */
  lemma ServeRun<S>(policy: Policy<S>, net: Net<S>, id: nat, client: Host, server: Host, s: S)
    requires Enabled(net, Start(id, client, server))
    requires policy.merge(server, net.nodes[server], net.nodes[client]) == s
    ensures ValidRun(policy, net, [Start(id, client, server), Serve(id)])
    ensures After(policy, net, [Start(id, client, server), Serve(id)])
            == Net(net.nodes[server := s], net.sessions[id := Replied(client, server, s)])
  {
    RunTwo(policy, net, Start(id, client, server), Serve(id));
  }

  /** The same behind any run. */
  lemma RunThenServe<S>(policy: Policy<S>, net: Net<S>, steps: seq<Step>, id: nat, client: Host, server: Host, s: S)
    requires ValidRun(policy, net, steps) && Enabled(After(policy, net, steps), Start(id, client, server))
    requires var mid := After(policy, net, steps); policy.merge(server, mid.nodes[server], mid.nodes[client]) == s
    ensures ValidRun(policy, net, steps + [Start(id, client, server), Serve(id)])
    ensures After(policy, net, steps + [Start(id, client, server), Serve(id)]).nodes
            == After(policy, net, steps).nodes[server := s]
  {
    ServeRun(policy, After(policy, net, steps), id, client, server, s);
    RunConcat(policy, net, steps, [Start(id, client, server), Serve(id)]);
  }

  /** A session whose client inserts first. */
  lemma InsertServeRun<S>(policy: Policy<S>, net: Net<S>, id: nat, client: Host, server: Host,
          entries: map<Key, Data>, mine: S, theirs: S)
    requires Enabled(net, Start(id, client, server))
    requires policy.insert(client, net.nodes[client], entries) == mine
    requires policy.merge(server, net.nodes[server], mine) == theirs
    ensures ValidRun(policy, net, [Insert(client, entries), Start(id, client, server), Serve(id)])
    ensures After(policy, net, [Insert(client, entries), Start(id, client, server), Serve(id)])
            == Net(net.nodes[client := mine][server := theirs], net.sessions[id := Replied(client, server, theirs)])
  {
    var serve := [Start(id, client, server), Serve(id)];
    RunSnoc(policy, net, [], Insert(client, entries));
    assert [] + [Insert(client, entries)] == [Insert(client, entries)];
    assert [Insert(client, entries)] + serve == [Insert(client, entries), Start(id, client, server), Serve(id)];
    ServeRun(policy, WithNode(net, client, mine), id, client, server, theirs);
    RunConcat(policy, net, [Insert(client, entries)], serve);
  }

  /** Some node, or some slice in flight, holds e under k. */
  ghost predicate Carried<E>(net: Net<map<Key, E>>, k: Key, e: E) {
    || (exists n :: n in net.nodes && k in net.nodes[n] && net.nodes[n][k] == e)
    || (exists id :: id in net.sessions && InFlight(net.sessions[id]) &&
          k in net.sessions[id].slice && net.sessions[id].slice[k] == e)
  }

  ghost predicate Initial<E>(net: Net<map<Key, E>>) {
    net.sessions == map[] && forall n :: n in net.nodes ==> net.nodes[n] == map[]
  }

  /** No message is on its way. */
  predicate Quiet<S>(net: Net<S>) {
    forall id :: id in net.sessions ==> !InFlight(net.sessions[id])
  }
}
