/**
 How far knowledge travels in gossip. Knowledge of a node is a number, or nothing;
 a merge climbs when it ends at or above both its sides. Sessions may overlap, be
 delayed and be lost in any way; a round only asks that every edge begins and
 completes one session within it.
 */
module Rounds {
  import opened Options
  import opened Store
  import opened Mesh

  type Edges = set<(Host, Host)>

  predicate GossipStep(step: Step) {
    step.Start? || step.Serve? || step.Finish? || step.Lose?
  }

  predicate GossipOnly(steps: seq<Step>) {
    forall i :: 0 <= i < |steps| ==> GossipStep(steps[i])
  }

  predicate Leq(a: Option<int>, b: Option<int>) {
    a.Some? ==> b.Some? && a.value <= b.value
  }

  /** The merge of a step, if it makes one, ends at or above both its sides. */
  predicate Climbs<S>(policy: Policy<S>, level: S -> Option<int>, net: Net<S>, step: Step) {
    (step.Serve? || step.Finish?) && Enabled(net, step) ==>
      var merged := level(Merged(policy, net, step));
      Leq(level(net.nodes[Merger(net, step)]), merged) && Leq(level(net.sessions[step.id].slice), merged)
  }

  ghost predicate ClimbingRun<S>(policy: Policy<S>, level: S -> Option<int>, net: Net<S>, steps: seq<Step>)
    requires ValidRun(policy, net, steps)
    decreases |steps|
  {
    steps != [] ==>
      var front := steps[..|steps| - 1];
      && ClimbingRun(policy, level, net, front)
      && Climbs(policy, level, After(policy, net, front), steps[|steps| - 1])
  }

  /** What has happened since the start of a round, session by session. */
  ghost predicate Since<S>(level: S -> Option<int>, start: Net<S>, net: Net<S>) {
    && start.nodes.Keys == net.nodes.Keys
    && (forall id :: id in start.sessions ==> id in net.sessions)
    && (forall n :: n in start.nodes ==> Leq(level(start.nodes[n]), level(net.nodes[n])))
    && (forall id :: id in net.sessions && id !in start.sessions ==> Progress(level, start, net, net.sessions[id]))
  }

  predicate Progress<S>(level: S -> Option<int>, start: Net<S>, net: Net<S>, p: Phase<S>)
    requires start.nodes.Keys == net.nodes.Keys
  {
    match p
    case Requested(c, s, slice) =>
      c in net.nodes && s in net.nodes && Leq(level(start.nodes[c]), level(slice))
    case Replied(c, s, slice) =>
      && c in net.nodes && s in net.nodes
      && Leq(level(start.nodes[s]), level(slice)) && Leq(level(start.nodes[c]), level(net.nodes[s]))
    case Finished(c, s) =>
      && c in net.nodes && s in net.nodes
      && Leq(level(start.nodes[c]), level(net.nodes[s])) && Leq(level(start.nodes[s]), level(net.nodes[c]))
    case Lost => true
  }

  /** A step that moves one session, with every node at or above where it was. */
  ghost predicate Rises<S>(level: S -> Option<int>, net: Net<S>, net': Net<S>, moved: nat) {
    && net'.nodes.Keys == net.nodes.Keys
    && (forall n :: n in net.nodes ==> Leq(level(net.nodes[n]), level(net'.nodes[n])))
    && net'.sessions.Keys == net.sessions.Keys + {moved}
    && (forall id :: id in net.sessions && id != moved ==> net'.sessions[id] == net.sessions[id])
  }

  lemma StepRises<S>(policy: Policy<S>, level: S -> Option<int>, net: Net<S>, step: Step)
    requires Enabled(net, step) && GossipStep(step) && Climbs(policy, level, net, step)
    ensures Rises(level, net, Apply(policy, net, step), step.id)
  {
  }

  /** The session a step moves makes progress of its own. */
  lemma MovedProgress<S>(policy: Policy<S>, level: S -> Option<int>, start: Net<S>, net: Net<S>, step: Step)
    requires Enabled(net, step) && GossipStep(step) && Climbs(policy, level, net, step)
    requires Since(level, start, net) && step.id !in start.sessions
    ensures Apply(policy, net, step).nodes.Keys == start.nodes.Keys
    ensures Progress(level, start, Apply(policy, net, step), Apply(policy, net, step).sessions[step.id])
  {
    if step.id in net.sessions {
      assert Progress(level, start, net, net.sessions[step.id]);
    }
  }

  /** Sessions other than the moving one keep their progress as nodes only rise. */
  lemma SinceRises<S>(level: S -> Option<int>, start: Net<S>, net: Net<S>, net': Net<S>, moved: nat)
    requires Since(level, start, net) && Rises(level, net, net', moved)
    requires moved in start.sessions || Progress(level, start, net', net'.sessions[moved])
    ensures Since(level, start, net')
  {
  }

  /** Along a climbing run no node sinks, and every session begun since the start
      has delivered what its phase says. */
  lemma {:induction false} RunSince<S>(policy: Policy<S>, level: S -> Option<int>, start: Net<S>, steps: seq<Step>)
    requires ValidRun(policy, start, steps) && GossipOnly(steps) && ClimbingRun(policy, level, start, steps)
    ensures Since(level, start, After(policy, start, steps))
    decreases |steps|
  {
    if steps != [] {
      var front := steps[..|steps| - 1];
      assert forall i :: 0 <= i < |front| ==> front[i] == steps[i];
      RunSince(policy, level, start, front);
      var net, step := After(policy, start, front), steps[|steps| - 1];
      StepRises(policy, level, net, step);
      if step.id !in start.sessions {
        MovedProgress(policy, level, start, net, step);
      }
      SinceRises(level, start, net, Apply(policy, net, step), step.id);
    }
  }

  // --------------------------------------------------------------- rounds

  /** Every edge began and finished some session between the two meshes. */
  ghost predicate EdgesDone<S>(edges: Edges, start: Net<S>, end: Net<S>) {
    forall u, v :: (u, v) in edges ==>
      exists id :: id in end.sessions && id !in start.sessions &&
        (end.sessions[id] == Finished(u, v) || end.sessions[id] == Finished(v, u))
  }

  /** The rounds one after the other, as one run. */
  function Flat(rounds: seq<seq<Step>>): seq<Step> {
    if rounds == [] then [] else Flat(rounds[..|rounds| - 1]) + rounds[|rounds| - 1]
  }

  ghost predicate ValidRounds<S>(policy: Policy<S>, edges: Edges, net: Net<S>, rounds: seq<seq<Step>>)
    decreases |rounds|
  {
    && ValidRun(policy, net, Flat(rounds))
    && (rounds != [] ==>
          var front, last := rounds[..|rounds| - 1], rounds[|rounds| - 1];
          && GossipOnly(last) && ValidRounds(policy, edges, net, front)
          && EdgesDone(edges, After(policy, net, Flat(front)), After(policy, net, Flat(rounds))))
  }

  lemma SingleRound<S>(policy: Policy<S>, edges: Edges, net: Net<S>, round: seq<Step>)
    requires GossipOnly(round) && ValidRun(policy, net, round) && EdgesDone(edges, net, After(policy, net, round))
    ensures Flat([round]) == round && ValidRounds(policy, edges, net, [round])
  {
    var none: seq<seq<Step>> := [];
    assert [round][..0] == none && Flat(none) == [];
    assert Flat([round]) == [] + round == round;
    assert ValidRounds(policy, edges, net, none);
  }

  /** v can be reached from u over at most hops edges, in either direction. */
  ghost predicate Reaches(edges: Edges, u: Host, v: Host, hops: nat)
    decreases hops
  {
    u == v || (hops > 0 && exists w :: Reaches(edges, u, w, hops - 1) && (w == v || (w, v) in edges || (v, w) in edges))
  }

  /** v is within that many hops of each of the hosts. */
  ghost predicate AllReach(edges: Edges, hosts: set<Host>, v: Host, hops: nat) {
    forall u {:trigger Reaches(edges, u, v, hops)} :: u in hosts ==> Reaches(edges, u, v, hops)
  }

  /** Any two of the hosts are within that many hops of each other. */
  ghost predicate Connected(edges: Edges, hosts: set<Host>, hops: nat) {
    forall u, v {:trigger Reaches(edges, u, v, hops)} :: u in hosts && v in hosts ==> Reaches(edges, u, v, hops)
  }

  lemma LastHop(edges: Edges, u: Host, v: Host, hops: nat) returns (w: Host)
    requires u != v && Reaches(edges, u, v, hops)
    ensures hops > 0 && Reaches(edges, u, w, hops - 1)
    ensures w == v || (w, v) in edges || (v, w) in edges
  {
    w :| Reaches(edges, u, w, hops - 1) && (w == v || (w, v) in edges || (v, w) in edges);
  }

  lemma {:induction false} FlatGossip<S>(policy: Policy<S>, edges: Edges, net: Net<S>, rounds: seq<seq<Step>>)
    requires ValidRounds(policy, edges, net, rounds)
    ensures GossipOnly(Flat(rounds))
    decreases |rounds|
  {
    if rounds != [] {
      FlatGossip(policy, edges, net, rounds[..|rounds| - 1]);
    }
  }

  lemma {:induction false} ClimbingPrefix<S>(policy: Policy<S>, level: S -> Option<int>, net: Net<S>,
          first: seq<Step>, second: seq<Step>)
    requires ValidRun(policy, net, first + second) && ClimbingRun(policy, level, net, first + second)
    requires ValidRun(policy, net, first) && ValidRun(policy, After(policy, net, first), second)
    ensures ClimbingRun(policy, level, net, first)
    ensures ClimbingRun(policy, level, After(policy, net, first), second)
    decreases |second|
  {
    if second == [] {
      assert first + second == first;
    } else {
      var front := second[..|second| - 1];
      assert (first + second)[..|first + second| - 1] == first + front;
      RunConcat(policy, net, first, front);
      ClimbingPrefix(policy, level, net, first, front);
    }
  }

  lemma EdgeCarries<S>(level: S -> Option<int>, edges: Edges, start: Net<S>, end: Net<S>, w: Host, v: Host)
    requires EdgesDone(edges, start, end) && Since(level, start, end)
    requires (w, v) in edges || (v, w) in edges
    ensures w in start.nodes && v in end.nodes && Leq(level(start.nodes[w]), level(end.nodes[v]))
  {
  }

  /** The last round of several, with all before it rising to where it begins. */
  lemma LastRound<S>(policy: Policy<S>, level: S -> Option<int>, edges: Edges, net: Net<S>, rounds: seq<seq<Step>>)
    returns (mid: Net<S>)
    requires rounds != []
    requires ValidRounds(policy, edges, net, rounds) && ClimbingRun(policy, level, net, Flat(rounds))
    ensures var front := rounds[..|rounds| - 1];
            && ValidRounds(policy, edges, net, front) && ClimbingRun(policy, level, net, Flat(front))
            && mid == After(policy, net, Flat(front))
    ensures var end := After(policy, net, Flat(rounds));
            && Since(level, net, mid) && Since(level, mid, end) && EdgesDone(edges, mid, end)
  {
    var front, last := rounds[..|rounds| - 1], rounds[|rounds| - 1];
    RunConcat(policy, net, Flat(front), last);
    ClimbingPrefix(policy, level, net, Flat(front), last);
    FlatGossip(policy, edges, net, front);
    RunSince(policy, level, net, Flat(front));
    mid := After(policy, net, Flat(front));
    RunSince(policy, level, mid, last);
  }

  /** After as many rounds as hops, v knows at least what u knew at the start. */
  lemma {:induction false} Spread<S>(policy: Policy<S>, level: S -> Option<int>, edges: Edges, net: Net<S>,
          rounds: seq<seq<Step>>, u: Host, v: Host)
    requires ValidRounds(policy, edges, net, rounds) && ClimbingRun(policy, level, net, Flat(rounds))
    requires u in net.nodes && v in net.nodes && Reaches(edges, u, v, |rounds|)
    ensures var end := After(policy, net, Flat(rounds));
            v in end.nodes && Leq(level(net.nodes[u]), level(end.nodes[v]))
    decreases |rounds|
  {
    if rounds != [] {
      var mid := LastRound(policy, level, edges, net, rounds);
      if u != v {
        var w := LastHop(edges, u, v, |rounds|);
        if w != v {
          EdgeCarries(level, edges, mid, After(policy, net, Flat(rounds)), w, v);
        }
        Spread(policy, level, edges, net, rounds[..|rounds| - 1], u, w);
      }
    }
  }
}
