/**
 How an own entry ages at its author over any interleaving of remote merges and
 bleaches, under the deployed and the guarded rule, and the equal-TTL echo that
 separates the two.
 */
module Decay {
  import opened Store
  import opened Mesh
  import opened Gossip
  import opened Daemon

  datatype Occurrence = Receive(slice: State) | Pass(elapsed: nat)

  function Perform(rule: Rule, host: Host, state: State, op: Occurrence): State {
    match op
    case Receive(slice) => Merge(rule, host, true, state, slice)
    case Pass(elapsed) => Bleach(state, elapsed)
  }

  function PerformAll(rule: Rule, host: Host, state: State, ops: seq<Occurrence>): State {
    if ops == [] then state
    else Perform(rule, host, PerformAll(rule, host, state, ops[..|ops| - 1]), ops[|ops| - 1])
  }

  function TimePassed(ops: seq<Occurrence>): nat {
    if ops == [] then 0
    else TimePassed(ops[..|ops| - 1]) + if ops[|ops| - 1].Pass? then ops[|ops| - 1].elapsed else 0
  }

  /** Every received copy of k names host as its author. */
  predicate OnlyAuthoredBy(ops: seq<Occurrence>, k: Key, host: Host) {
    forall i :: 0 <= i < |ops| && ops[i].Receive? && k in ops[i].slice ==> ops[i].slice[k].author == host
  }

  /** Whatever peers send, an own entry's TTL is its first TTL less the time
      passed, and the bleach that uses it up removes it. Under the guarded rule
      this needs nothing of the slices and the data survives too. */
  lemma {:induction false} HonestDecay(rule: Rule, host: Host, state: State, ops: seq<Occurrence>, k: Key)
    requires k in state && state[k].author == host && state[k].ttl >= 1
    requires rule.Guarded? || OnlyAuthoredBy(ops, k, host)
    ensures var r := PerformAll(rule, host, state, ops);
            && (TimePassed(ops) < state[k].ttl ==>
                  && k in r && r[k].author == host && r[k].ttl == state[k].ttl - TimePassed(ops)
                  && (rule.Guarded? ==> r[k].data == state[k].data))
            && (ops != [] && TimePassed(ops[..|ops| - 1]) < state[k].ttl <= TimePassed(ops) ==> k !in r)
  {
    if ops != [] {
      HonestDecay(rule, host, state, ops[..|ops| - 1], k);
    }
  }

  /** One deployed merge alters an own entry's data exactly when the peer's copy
      has the same TTL and different data. */
  lemma EchoAltersExactly(host: Host, state: State, slice: State, k: Key)
    requires k in state && state[k].author == host
    ensures Merge(Deployed, host, true, state, slice)[k].data != state[k].data
       <==> k in slice && slice[k].ttl == state[k].ttl && slice[k].data != state[k].data
    ensures Merge(Guarded, host, true, state, slice)[k] == state[k]
  {
  }

  // ------------------------------------------------------------ stale echo

  /** Two freshly booted nodes. */
  function Pair<E>(a: Host, b: Host): Net<map<Key, E>> {
    Net(map[a := map[], b := map[]], map[])
  }

  /** The author publishes and its peer takes the copy over. */
  function Opening(a: Host, b: Host, k: Key, d: Data): seq<Step> {
    [Insert(a, map[k := d]), Start(0, a, b), Serve(0)]
  }

  function Copy(conf: TypeConf, a: Host, k: Key, d: Data): State {
    map[k := Entry(a, InsertTtl(conf), d)]
  }

  lemma CopyMerges(conf: TypeConf, a: Host, b: Host, k: Key, first: Data, second: Data)
    requires a != b
    ensures var s1, s2 := Copy(conf, a, k, first), Copy(conf, a, k, second);
            && Merge(Deployed, a, false, map[], CliSlice(a, conf, map[k := first])) == s1
            && Merge(Deployed, b, true, map[], s1) == s1
            && Merge(Deployed, a, false, s1, CliSlice(a, conf, map[k := second])) == s2
            && Merge(Deployed, a, true, s2, s1) == s1
  {
  }

  lemma Opened(conf: TypeConf, a: Host, b: Host, k: Key, d: Data)
    requires a != b
    ensures var s := Copy(conf, a, k, d);
            && ValidRun(Deployment(conf), Pair(a, b), Opening(a, b, k, d))
            && After(Deployment(conf), Pair(a, b), Opening(a, b, k, d))
               == Net(map[a := s, b := s], map[0 := Replied(a, b, s)])
  {
    var net: Net<State>, s := Pair(a, b), Copy(conf, a, k, d);
    CopyMerges(conf, a, b, k, d, d);
    InsertServeRun(Deployment(conf), net, 0, a, b, map[k := d], s, s);
    assert net.nodes[a := s][b := s] == map[a := s, b := s];
  }

  /** The author publishes twice without a bleach in between, and hears its
      peer's copy of the first publication after the second. */
  function EchoRun(a: Host, b: Host, k: Key, first: Data, second: Data): seq<Step> {
    Opening(a, b, k, first) + [Insert(a, map[k := second])] + [Start(1, b, a), Serve(1)]
  }

  /** The peer's echo of the first publication replaces the second one at its
      own author: an equal TTL is enough. */
  lemma StaleEcho(conf: TypeConf, a: Host, b: Host, k: Key, first: Data, second: Data)
    requires a != b
    ensures var net, run := Pair(a, b), EchoRun(a, b, k, first, second);
            && Initial(net) && ValidRun(Deployment(conf), net, run)
            && a in After(Deployment(conf), net, run).nodes
            && After(Deployment(conf), net, run).nodes[a] == Copy(conf, a, k, first)
  {
    var policy, net: Net<State>, opening := Deployment(conf), Pair(a, b), Opening(a, b, k, first);
    var s1, s2 := Copy(conf, a, k, first), Copy(conf, a, k, second);
    Opened(conf, a, b, k, first);
    CopyMerges(conf, a, b, k, first, second);
    RunSnoc(policy, net, opening, Insert(a, map[k := second]));
    RunThenServe(policy, net, opening + [Insert(a, map[k := second])], 1, b, a, s1);
  }
}
