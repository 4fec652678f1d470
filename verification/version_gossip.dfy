/**
 Gossip with version counters, for one key with one author who neither reboots
 nor lets the entry expire. Delay, loss, overlapping sessions, independent
 bleaching and reboots of everybody else are unrestricted.
 */
module VersionGossip {
  import opened Store
  import opened Mesh
  import opened Versions
  import opened Daemon

  function InsertAll(strategy: Strategy, conf: TypeConf, host: Host, state: VState, entries: map<Key, Data>): VState {
    map k | k in state.Keys + entries.Keys ::
      if k in entries
      then Published(strategy, host, state, k, entries[k], VInsertTtl(strategy, conf.bleachTtl, conf.updateInterval))
      else state[k]
  }

  /** The policy of a node of the executable specification. */
  function Simulated(strategy: Strategy, conf: TypeConf): Policy<VState> {
    Policy((host, state, slice) => VMerge(strategy, host, true, state, slice),
           (state, elapsed) => VBleach(state, elapsed),
           (host, state, entries) => InsertAll(strategy, conf, host, state, entries),
           map[])
  }

  /** A key and the only node that publishes it. */
  datatype Topic = Topic(strategy: Strategy, conf: TypeConf, key: Key, owner: Host) {
    function Simulation(): Policy<VState> {
      Simulated(strategy, conf)
    }
  }

  /** Single authorship of the key and an author that keeps its entry. */
  predicate Permitted(topic: Topic, net: Net<VState>, step: Step) {
    && Enabled(net, step)
    && (Publishes(step, topic.key) ==> step.node == topic.owner)
    && (step.Reboot? ==> step.node != topic.owner)
    && (step.Expire? && step.node == topic.owner && topic.key in net.nodes[topic.owner] ==>
          net.nodes[topic.owner][topic.key].ttl > step.elapsed)
  }

  ghost predicate PermittedRun(topic: Topic, net: Net<VState>, steps: seq<Step>)
    decreases |steps|
  {
    && ValidRun(topic.Simulation(), net, steps)
    && (steps != [] ==>
          var front := steps[..|steps| - 1];
          && PermittedRun(topic, net, front)
          && Permitted(topic, After(topic.Simulation(), net, front), steps[|steps| - 1]))
  }

  /** What a run published under the key, in order. */
  function History(k: Key, steps: seq<Step>): seq<Data> {
    if steps == [] then [] else Recorded(k, History(k, steps[..|steps| - 1]), steps[|steps| - 1])
  }

  function Recorded(k: Key, history: seq<Data>, step: Step): seq<Data> {
    if Publishes(step, k) then history + [step.entries[k]] else history
  }

  /** A copy's version is the number of the publication it carries. */
  predicate Numbered(topic: Topic, history: seq<Data>, s: VState) {
    topic.key in s ==>
      && s[topic.key].author == topic.owner
      && 1 <= s[topic.key].version <= |history|
      && s[topic.key].data == history[s[topic.key].version - 1]
  }

  predicate Safe(topic: Topic, history: seq<Data>, net: Net<VState>) {
    && topic.owner in net.nodes
    && (history != [] ==>
          topic.key in net.nodes[topic.owner] && net.nodes[topic.owner][topic.key].version == |history|)
    && (forall n :: n in net.nodes ==> Numbered(topic, history, net.nodes[n]))
    && (forall id :: id in net.sessions && InFlight(net.sessions[id]) ==>
          Numbered(topic, history, net.sessions[id].slice))
  }

  /** A numbered slice never triggers recovery and never lowers the version. */
  lemma MergeNumbered(topic: Topic, history: seq<Data>, net: Net<VState>, n: Host, slice: VState)
    requires Counting(topic.strategy) && Safe(topic, history, net) && n in net.nodes && Numbered(topic, history, slice)
    ensures var s, k := net.nodes[n], topic.key;
            var m := VMerge(topic.strategy, n, true, s, slice);
            && Numbered(topic, history, m)
            && (k in s && k in slice ==> !RecoveryApplies(topic.strategy, n, true, s[k], slice[k]))
            && (k in s ==> k in m && s[k].version <= m[k].version)
  {
  }

  lemma InsertNumbered(topic: Topic, history: seq<Data>, net: Net<VState>, step: Step)
    requires Counting(topic.strategy) && Safe(topic, history, net) && Permitted(topic, net, step) && step.Insert?
    ensures var net', history' := Apply(topic.Simulation(), net, step), Recorded(topic.key, history, step);
            && Numbered(topic, history', net'.nodes[step.node])
            && (Publishes(step, topic.key) ==> net'.nodes[topic.owner][topic.key].version == |history'|)
            && (!Publishes(step, topic.key) && topic.key in net.nodes[step.node] ==>
                  net'.nodes[step.node][topic.key] == net.nodes[step.node][topic.key])
  {
  }

  lemma MergingStepSafe(topic: Topic, history: seq<Data>, net: Net<VState>, step: Step)
    requires Counting(topic.strategy) && Safe(topic, history, net)
    requires Enabled(net, step) && (step.Serve? || step.Finish?)
    ensures Safe(topic, history, Apply(topic.Simulation(), net, step))
  {
    var n := Merger(net, step);
    MergeNumbered(topic, history, net, n, net.sessions[step.id].slice);
    MergingStep(topic.Simulation(), net, step);
    var merged := VMerge(topic.strategy, n, true, net.nodes[n], net.sessions[step.id].slice);
    assert Apply(topic.Simulation(), net, step).nodes == net.nodes[n := merged];
  }

  lemma StepSafe(topic: Topic, history: seq<Data>, net: Net<VState>, step: Step)
    requires Counting(topic.strategy) && Safe(topic, history, net) && Permitted(topic, net, step)
    ensures Safe(topic, Recorded(topic.key, history, step), Apply(topic.Simulation(), net, step))
  {
    if step.Serve? || step.Finish? {
      MergingStepSafe(topic, history, net, step);
    } else if step.Insert? {
      InsertNumbered(topic, history, net, step);
      assert forall s :: Numbered(topic, history, s) ==> Numbered(topic, Recorded(topic.key, history, step), s);
    }
  }

  lemma {:induction false} RunSafe(topic: Topic, net: Net<VState>, steps: seq<Step>)
    requires Counting(topic.strategy) && Initial(net) && topic.owner in net.nodes && PermittedRun(topic, net, steps)
    ensures Safe(topic, History(topic.key, steps), After(topic.Simulation(), net, steps))
  {
    if steps != [] {
      var front := steps[..|steps| - 1];
      RunSafe(topic, net, front);
      StepSafe(topic, History(topic.key, front), After(topic.Simulation(), net, front), steps[|steps| - 1]);
    }
  }

  /** Does the step make some node recover a copy of the key? */
  predicate TriggersRecovery(topic: Topic, net: Net<VState>, step: Step)
    requires Permitted(topic, net, step)
  {
    (step.Serve? || step.Finish?) &&
    var n, slice := Merger(net, step), net.sessions[step.id].slice;
    && topic.key in net.nodes[n] && topic.key in slice
    && RecoveryApplies(topic.strategy, n, true, net.nodes[n][topic.key], slice[topic.key])
  }

  predicate NeverOlder(net: Net<VState>, net': Net<VState>, k: Key) {
    forall n :: n in net.nodes && n in net'.nodes && k in net.nodes[n] && k in net'.nodes[n] ==>
      net.nodes[n][k].version <= net'.nodes[n][k].version
  }

  lemma StepMonotone(topic: Topic, history: seq<Data>, net: Net<VState>, step: Step)
    requires Counting(topic.strategy) && Safe(topic, history, net) && Permitted(topic, net, step)
    ensures NeverOlder(net, Apply(topic.Simulation(), net, step), topic.key) && !TriggersRecovery(topic, net, step)
  {
    if step.Serve? || step.Finish? {
      MergeNumbered(topic, history, net, Merger(net, step), net.sessions[step.id].slice);
      MergingStep(topic.Simulation(), net, step);
    }
  }

  /** Equal versions of the key carry equal data everywhere. */
  ghost predicate VersionsIdentify(net: Net<VState>, k: Key) {
    forall e, f :: Carried(net, k, e) && Carried(net, k, f) && e.version == f.version ==>
      e.data == f.data && e.author == f.author
  }

  /** No copy is newer than the owner's. */
  ghost predicate OwnerLeads(net: Net<VState>, k: Key, owner: Host) {
    forall e :: Carried(net, k, e) ==>
      owner in net.nodes && k in net.nodes[owner] && e.version <= net.nodes[owner][k].version
  }

  lemma SafeMeans(topic: Topic, history: seq<Data>, net: Net<VState>)
    requires Safe(topic, history, net)
    ensures VersionsIdentify(net, topic.key) && OwnerLeads(net, topic.key, topic.owner)
  {
  }

  /** In every such run: equal versions carry equal data wherever they are, the
      author holds the highest version, no node's version goes down while it
      holds the key, and recovery never fires. */
  lemma VersionSafety(topic: Topic, net: Net<VState>, steps: seq<Step>, step: Step)
    requires Counting(topic.strategy) && Initial(net) && topic.owner in net.nodes
    requires PermittedRun(topic, net, steps) && Permitted(topic, After(topic.Simulation(), net, steps), step)
    ensures var end := After(topic.Simulation(), net, steps);
            && VersionsIdentify(end, topic.key)
            && OwnerLeads(end, topic.key, topic.owner)
            && NeverOlder(end, Apply(topic.Simulation(), end, step), topic.key)
            && !TriggersRecovery(topic, end, step)
  {
    var history, end := History(topic.key, steps), After(topic.Simulation(), net, steps);
    RunSafe(topic, net, steps);
    SafeMeans(topic, history, end);
    StepMonotone(topic, history, end, step);
  }
}
