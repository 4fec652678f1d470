/**
 Convergence of gossip while nobody publishes and nothing expires. Knowledge of a
 key is the TTL of the copy held. All results are per key.
 */
module Convergence {
  import opened Options
  import opened Store
  import opened Mesh
  import opened Rounds
  import opened Gossip
  import opened Daemon

  function TtlOf(k: Key): State -> Option<int> {
    (s: State) => if k in s then Some(s[k].ttl) else None
  }

  /** t knows at least as fresh a copy of k as s does. */
  predicate Below(s: State, t: State, k: Key) {
    Leq(TtlOf(k)(s), TtlOf(k)(t))
  }

  ghost predicate EqualTtlEqualCopy(net: Net<State>, k: Key) {
    forall e, f :: Carried(net, k, e) && Carried(net, k, f) && e.ttl == f.ttl ==> e == f
  }

  /** Whoever is named as author of a copy of k and lives in the mesh holds a
      copy with the highest TTL. */
  ghost predicate AuthorsLead(net: Net<State>, k: Key) {
    forall e, f :: Carried(net, k, e) && e.author in net.nodes && Carried(net, k, f) ==>
      k in net.nodes[e.author] && f.ttl <= net.nodes[e.author][k].ttl
  }

  ghost predicate FromPool(net: Net<State>, s: State, k: Key) {
    k in s ==> Carried(net, k, s[k])
  }

  /** What every gossip-only run from net0 keeps. */
  ghost predicate Steady(net0: Net<State>, net: Net<State>, k: Key) {
    && net.nodes.Keys == net0.nodes.Keys
    && (forall n :: n in net.nodes ==> FromPool(net0, net.nodes[n], k) && Below(net0.nodes[n], net.nodes[n], k))
    && (forall id :: id in net.sessions && InFlight(net.sessions[id]) ==> FromPool(net0, net.sessions[id].slice, k))
  }

  lemma SteadyStart(net: Net<State>, k: Key)
    ensures Steady(net, net, k)
  {
    assert forall n :: n in net.nodes && k in net.nodes[n] ==> Carried(net, k, net.nodes[n][k]);
    assert forall id :: id in net.sessions && InFlight(net.sessions[id]) && k in net.sessions[id].slice ==>
      Carried(net, k, net.sessions[id].slice[k]);
  }

  /** With the authors in the lead no merge takes the ill branch, so merging is
      a join: the result is above both sides. */
  lemma MergeJoins(net0: Net<State>, k: Key, n: Host, s: State, slice: State)
    requires AuthorsLead(net0, k) && n in net0.nodes
    requires FromPool(net0, s, k) && FromPool(net0, slice, k) && Below(net0.nodes[n], s, k)
    ensures var m := Merge(Deployed, n, true, s, slice);
            FromPool(net0, m, k) && Below(s, m, k) && Below(slice, m, k)
  {
  }

  lemma StepSteady(conf: TypeConf, net0: Net<State>, net: Net<State>, step: Step, k: Key)
    requires AuthorsLead(net0, k) && Enabled(net, step) && GossipStep(step) && Steady(net0, net, k)
    ensures Steady(net0, Apply(Deployment(conf), net, step), k)
    ensures Climbs(Deployment(conf), TtlOf(k), net, step)
  {
    if step.Serve? || step.Finish? {
      var n := Merger(net, step);
      MergeJoins(net0, k, n, net.nodes[n], net.sessions[step.id].slice);
      MergingStep(Deployment(conf), net, step);
    }
  }

  /** With the authors in the lead every merge of a gossip-only run climbs, and
      every copy in it was there at the start. */
  lemma {:induction false} RunSteady(conf: TypeConf, net0: Net<State>, steps: seq<Step>, k: Key)
    requires AuthorsLead(net0, k) && ValidRun(Deployment(conf), net0, steps) && GossipOnly(steps)
    ensures Steady(net0, After(Deployment(conf), net0, steps), k)
    ensures ClimbingRun(Deployment(conf), TtlOf(k), net0, steps)
  {
    if steps == [] {
      SteadyStart(net0, k);
    } else {
      var front := steps[..|steps| - 1];
      assert forall i :: 0 <= i < |front| ==> front[i] == steps[i];
      RunSteady(conf, net0, front, k);
      StepSteady(conf, net0, After(Deployment(conf), net0, front), steps[|steps| - 1], k);
    }
  }

  predicate AllAgree(net: Net<State>, k: Key) {
    forall v, w :: v in net.nodes && w in net.nodes ==> AgreeOn(net.nodes[v], net.nodes[w], k)
  }

  /** s holds a highest-TTL copy of k of those in net, if there is any. */
  ghost predicate HoldsFreshest(net: Net<State>, s: State, k: Key) {
    (forall f :: Carried(net, k, f) ==> k in s && f.ttl <= s[k].ttl) && (k in s ==> Carried(net, k, s[k]))
  }

  /** Once every pair of nodes is within the number of rounds, each node holds a
      freshest copy of what anybody held at the start. */
  lemma EndsFreshest(conf: TypeConf, edges: Edges, net: Net<State>, rounds: seq<seq<Step>>, k: Key, v: Host)
    requires Quiet(net) && AuthorsLead(net, k) && ValidRounds(Deployment(conf), edges, net, rounds)
    requires Connected(edges, net.nodes.Keys, |rounds|) && v in net.nodes
    ensures var end := After(Deployment(conf), net, Flat(rounds));
            end.nodes.Keys == net.nodes.Keys && HoldsFreshest(net, end.nodes[v], k)
  {
    var end := After(Deployment(conf), net, Flat(rounds));
    FlatGossip(Deployment(conf), edges, net, rounds);
    RunSteady(conf, net, Flat(rounds), k);
    forall f | Carried(net, k, f) ensures k in end.nodes[v] && f.ttl <= end.nodes[v][k].ttl {
      var u :| u in net.nodes && k in net.nodes[u] && net.nodes[u][k] == f;
      Spread(Deployment(conf), TtlOf(k), edges, net, rounds, u, v);
    }
  }

  /** Then, if equal-TTL copies were equal, all nodes hold the same entry for k. */
  lemma Converges(conf: TypeConf, edges: Edges, net: Net<State>, rounds: seq<seq<Step>>, k: Key)
    requires Quiet(net) && AuthorsLead(net, k) && EqualTtlEqualCopy(net, k)
    requires ValidRounds(Deployment(conf), edges, net, rounds)
    requires Connected(edges, net.nodes.Keys, |rounds|)
    ensures AllAgree(After(Deployment(conf), net, Flat(rounds)), k)
  {
    var end := After(Deployment(conf), net, Flat(rounds));
    SameNodes(conf, edges, net, rounds, k);
    forall v, w | v in end.nodes && w in end.nodes ensures AgreeOn(end.nodes[v], end.nodes[w], k) {
      EndsFreshest(conf, edges, net, rounds, k, v);
      EndsFreshest(conf, edges, net, rounds, k, w);
    }
  }

  lemma SameNodes(conf: TypeConf, edges: Edges, net: Net<State>, rounds: seq<seq<Step>>, k: Key)
    requires AuthorsLead(net, k) && ValidRounds(Deployment(conf), edges, net, rounds)
    ensures After(Deployment(conf), net, Flat(rounds)).nodes.Keys == net.nodes.Keys
  {
    FlatGossip(Deployment(conf), edges, net, rounds);
    RunSteady(conf, net, Flat(rounds), k);
  }

  // --------------------------------------------------------------- island

  ghost predicate SoleAuthor(net: Net<State>, k: Key, a: Host) {
    && a in net.nodes && k in net.nodes[a]
    && (forall n :: n in net.nodes && k in net.nodes[n] ==> net.nodes[n][k].author == a)
    && (forall id :: id in net.sessions && InFlight(net.sessions[id]) && k in net.sessions[id].slice ==>
          net.sessions[id].slice[k].author == a)
  }

  /** The author's own TTL is frozen while every node's knowledge only grows. */
  ghost predicate Island(net0: Net<State>, net: Net<State>, k: Key, a: Host)
    requires SoleAuthor(net0, k, a)
  {
    && SoleAuthor(net, k, a) && net.nodes.Keys == net0.nodes.Keys
    && net.nodes[a][k].ttl == net0.nodes[a][k].ttl
    && forall n :: n in net.nodes ==> Below(net0.nodes[n], net.nodes[n], k)
  }

  /** A merge of the author's copies leaves the author's TTL alone and lowers
      nobody's. */
  lemma MergeIsland(n: Host, s: State, slice: State, k: Key, a: Host)
    requires k in s ==> s[k].author == a
    requires k in slice ==> slice[k].author == a
    ensures var m := Merge(Deployed, n, true, s, slice);
            && Below(s, m, k) && (k in m ==> m[k].author == a)
            && (n == a && k in s ==> m[k].ttl == s[k].ttl)
  {
  }

  lemma MergingStepIsland(conf: TypeConf, net0: Net<State>, net: Net<State>, step: Step, k: Key, a: Host)
    requires SoleAuthor(net0, k, a) && Island(net0, net, k, a)
    requires Enabled(net, step) && (step.Serve? || step.Finish?)
    ensures Island(net0, Apply(Deployment(conf), net, step), k, a)
  {
    var n, net' := Merger(net, step), Apply(Deployment(conf), net, step);
    var merged := Merge(Deployed, n, true, net.nodes[n], net.sessions[step.id].slice);
    MergeIsland(n, net.nodes[n], net.sessions[step.id].slice, k, a);
    MergingStep(Deployment(conf), net, step);
    assert net'.nodes == net.nodes[n := merged];
    assert SoleAuthor(net', k, a);
  }

  lemma StepIsland(conf: TypeConf, net0: Net<State>, net: Net<State>, step: Step, k: Key, a: Host)
    requires SoleAuthor(net0, k, a) && Island(net0, net, k, a) && Enabled(net, step) && GossipStep(step)
    ensures Island(net0, Apply(Deployment(conf), net, step), k, a)
  {
    if step.Serve? || step.Finish? {
      MergingStepIsland(conf, net0, net, step, k, a);
    }
  }

  lemma {:induction false} RunIsland(conf: TypeConf, net0: Net<State>, steps: seq<Step>, k: Key, a: Host)
    requires SoleAuthor(net0, k, a) && ValidRun(Deployment(conf), net0, steps) && GossipOnly(steps)
    ensures Island(net0, After(Deployment(conf), net0, steps), k, a)
  {
    if steps != [] {
      var front := steps[..|steps| - 1];
      assert forall i :: 0 <= i < |front| ==> front[i] == steps[i];
      RunIsland(conf, net0, front, k, a);
      StepIsland(conf, net0, After(Deployment(conf), net0, front), steps[|steps| - 1], k, a);
    }
  }

  predicate NobodyAhead(net: Net<State>, k: Key, a: Host)
    requires SoleAuthor(net, k, a)
  {
    forall n :: n in net.nodes && k in net.nodes[n] ==> net.nodes[n][k].ttl <= net.nodes[a][k].ttl
  }

  lemma IslandDisagrees(net0: Net<State>, net: Net<State>, k: Key, a: Host)
    requires SoleAuthor(net0, k, a) && Island(net0, net, k, a) && !NobodyAhead(net0, k, a)
    ensures !AllAgree(net, k)
  {
  }

  /** For a key with one author who holds it, enough rounds bring agreement if
      and only if no copy had more TTL than the author's own. */
  lemma ConvergesExactly(conf: TypeConf, edges: Edges, net: Net<State>, rounds: seq<seq<Step>>, k: Key, a: Host)
    requires Quiet(net) && SoleAuthor(net, k, a) && EqualTtlEqualCopy(net, k)
    requires ValidRounds(Deployment(conf), edges, net, rounds)
    requires Connected(edges, net.nodes.Keys, |rounds|)
    ensures AllAgree(After(Deployment(conf), net, Flat(rounds)), k) <==> NobodyAhead(net, k, a)
  {
    if NobodyAhead(net, k, a) {
      assert AuthorsLead(net, k);
      Converges(conf, edges, net, rounds, k);
    } else {
      FlatGossip(Deployment(conf), edges, net, rounds);
      RunIsland(conf, net, Flat(rounds), k, a);
      IslandDisagrees(net, After(Deployment(conf), net, Flat(rounds)), k, a);
    }
  }
}
