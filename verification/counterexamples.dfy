/**
 Runs from freshly booted nodes into the states where the exact conditions proved
 elsewhere fail, so that those conditions shut out something that happens.
 */
module Counterexamples {
  import opened Store
  import opened Mesh
  import opened Rounds
  import opened Gossip
  import opened Convergence
  import opened Decay
  import opened Versions
  import opened VersionLists
  import opened VersionGossip
  import opened VersionSpread
  import opened Daemon

  // ------------------------------------------------- the author falls behind

  /** The reply to the author is lost and one second of bleaching follows. */
  function LossRun(a: Host, b: Host, k: Key, d: Data): seq<Step> {
    Opening(a, b, k, d) + [Lose(0), Expire(a, 1)]
  }

  /** The copy of the author with the given TTL. */
  function OwnCopy(a: Host, k: Key, d: Data, ttl: int): State {
    map[k := Entry(a, ttl, d)]
  }

  /** Where that run ends: the author a second behind its peer. */
  function Behind(conf: TypeConf, a: Host, b: Host, k: Key, d: Data): Net<State> {
    Net(map[a := OwnCopy(a, k, d, InsertTtl(conf) - 1), b := OwnCopy(a, k, d, InsertTtl(conf))], map[0 := Lost])
  }

  /** The run for any policy, with s the fresh state and aged what a second leaves. */
  lemma LossOf<S>(policy: Policy<S>, a: Host, b: Host, x: map<Key, Data>, s: S, aged: S)
    requires a != b && policy.insert(a, policy.boot, x) == s && policy.merge(b, policy.boot, s) == s
    requires policy.expire(s, 1) == aged
    ensures var net := Net(map[a := policy.boot, b := policy.boot], map[]);
            var run := [Insert(a, x), Start(0, a, b), Serve(0)] + [Lose(0), Expire(a, 1)];
            && ValidRun(policy, net, run)
            && After(policy, net, run) == Net(map[a := aged, b := s], map[0 := Lost])
  {
    var net := Net(map[a := policy.boot, b := policy.boot], map[]);
    InsertServeRun(policy, net, 0, a, b, x, s, s);
    var synced := Net(map[a := s, b := s], map[0 := Replied(a, b, s)]);
    assert After(policy, net, [Insert(a, x), Start(0, a, b), Serve(0)]) == synced;
    RunTwo(policy, synced, Lose(0), Expire(a, 1));
    RunConcat(policy, net, [Insert(a, x), Start(0, a, b), Serve(0)], [Lose(0), Expire(a, 1)]);
  }

  lemma LossRunEnds(conf: TypeConf, a: Host, b: Host, k: Key, d: Data)
    requires a != b && InsertTtl(conf) >= 2
    ensures ValidRun(Deployment(conf), Pair(a, b), LossRun(a, b, k, d))
    ensures After(Deployment(conf), Pair(a, b), LossRun(a, b, k, d)) == Behind(conf, a, b, k, d)
  {
    var copy, aged := Copy(conf, a, k, d), OwnCopy(a, k, d, InsertTtl(conf) - 1);
    CopyMerges(conf, a, b, k, d, d);
    assert Bleach(copy, 1) == aged;
    LossOf(Deployment(conf), a, b, map[k := d], copy, aged);
  }

  /** A session between the two leaves them in disagreement. */
  lemma SessionDisagrees(conf: TypeConf, a: Host, b: Host, k: Key, d: Data)
    requires a != b && InsertTtl(conf) >= 2
    ensures var end := Behind(conf, a, b, k, d);
            var (c, s) := Session(a, b, true, end.nodes[a], end.nodes[b]);
            Lockout(a, b, end.nodes[a], end.nodes[b], k) && !AgreeOn(c, s, k)
  {
    var end := Behind(conf, a, b, k, d);
    SessionOutcome(a, b, end.nodes[a], end.nodes[b], k);
  }

  /** Expiring after the merge and before it gives different maps. */
  lemma ExpiryDisagrees(conf: TypeConf, a: Host, b: Host, k: Key, d: Data)
    requires a != b && InsertTtl(conf) >= 2
    ensures var end, elapsed := Behind(conf, a, b, k, d), InsertTtl(conf) - 1;
            Bleach(Merge(Deployed, a, true, end.nodes[a], end.nodes[b]), elapsed)
            != Merge(Deployed, a, true, Bleach(end.nodes[a], elapsed), Bleach(end.nodes[b], elapsed))
  {
    var end, elapsed := Behind(conf, a, b, k, d), InsertTtl(conf) - 1;
    assert OutlivedOwn(a, end.nodes[a], end.nodes[b], elapsed, k);
    BleachMergeCommute(a, true, end.nodes[a], end.nodes[b], elapsed);
  }

  function OneRound(a: Host, b: Host): seq<Step> {
    [Start(1, a, b), Serve(1), Finish(1)]
  }

  /** The mesh is quiet, the key has one author who holds it, equal-TTL copies are
      equal, and still somebody is ahead of the author. */
  lemma BehindIsQuiet(conf: TypeConf, a: Host, b: Host, k: Key, d: Data)
    requires a != b && InsertTtl(conf) >= 2
    ensures var end := Behind(conf, a, b, k, d);
            Quiet(end) && SoleAuthor(end, k, a) && EqualTtlEqualCopy(end, k) && !NobodyAhead(end, k, a)
  {
    var end := Behind(conf, a, b, k, d);
    assert end.nodes[a][k].ttl < end.nodes[b][k].ttl;
    forall e | Carried(end, k, e) ensures e == end.nodes[a][k] || e == end.nodes[b][k] {
    }
  }

  /** No number of rounds brings the two to agreement. */
  lemma NeverConverges(conf: TypeConf, a: Host, b: Host, k: Key, d: Data, edges: Edges, rounds: seq<seq<Step>>)
    requires a != b && InsertTtl(conf) >= 2
    requires ValidRounds(Deployment(conf), edges, Behind(conf, a, b, k, d), rounds)
    ensures !AllAgree(After(Deployment(conf), Behind(conf, a, b, k, d), Flat(rounds)), k)
  {
    var end := Behind(conf, a, b, k, d);
    BehindIsQuiet(conf, a, b, k, d);
    FlatGossip(Deployment(conf), edges, end, rounds);
    RunIsland(conf, end, Flat(rounds), k, a);
    IslandDisagrees(end, After(Deployment(conf), end, Flat(rounds)), k, a);
  }

  /** There are such rounds. */
  lemma OneRoundValid(conf: TypeConf, a: Host, b: Host, k: Key, d: Data)
    requires a != b && InsertTtl(conf) >= 2
    ensures ValidRounds(Deployment(conf), {(a, b)}, Behind(conf, a, b, k, d), [OneRound(a, b)])
  {
    var policy, end := Deployment(conf), Behind(conf, a, b, k, d);
    assert Merge(Deployed, b, true, end.nodes[b], end.nodes[a]) == end.nodes[b];
    ServeRun(policy, end, 1, a, b, end.nodes[b]);
    RunSnoc(policy, end, [Start(1, a, b), Serve(1)], Finish(1));
    assert [Start(1, a, b), Serve(1)] + [Finish(1)] == OneRound(a, b);
    assert After(policy, end, OneRound(a, b)).sessions[1] == Finished(a, b);
    SingleRound(policy, {(a, b)}, end, OneRound(a, b));
  }

  // ------------------------------------------------- an equal version returns

  /** The author publishes, reboots, publishes again under the version it starts
      over with, and ages by a second. */
  function RestartRun(a: Host, b: Host, k: Key, first: Data, second: Data): seq<Step> {
    Opening(a, b, k, first) + ([Reboot(a), Insert(a, map[k := second])] + [Expire(a, 1)])
  }

  /** The author's first publication since boot, with the given TTL. */
  function Numbered1(a: Host, k: Key, d: Data, ttl: int, local: bool): VState {
    map[k := VEntry(a, ttl, d, 1, local)]
  }

  lemma RestartMerges(strategy: Strategy, conf: TypeConf, a: Host, b: Host, k: Key, d: Data)
    requires Counting(strategy) && a != b && conf.bleachTtl >= 2
    ensures var mine, theirs := Numbered1(a, k, d, conf.bleachTtl, true), Numbered1(a, k, d, conf.bleachTtl, false);
            && InsertAll(strategy, conf, a, map[], map[k := d]) == mine
            && VMerge(strategy, b, true, map[], mine) == theirs
            && VBleach(mine, 1) == Numbered1(a, k, d, conf.bleachTtl - 1, true)
  {
  }

  /** An own publication, inserted here since boot, gives way to an equal version
      with more TTL, and the merge that does it reports nothing. */
  lemma EqualVersionReplaces(strategy: Strategy, a: Host, k: Key, mine: Data, theirs: Data, ttl: int)
    requires Counting(strategy) && mine != theirs
    ensures var s, slice := Numbered1(a, k, mine, ttl - 1, true), Numbered1(a, k, theirs, ttl, false);
            && OwnGuarded(strategy, a, s[k]) && SilentTiebreak(strategy, a, true, s, slice, k)
            && VMerge(strategy, a, true, s, slice) == slice
            && SignificantKeys(strategy, a, true, s, slice) != Changed(Strip(s), Strip(slice))
  {
    var s, slice := Numbered1(a, k, mine, ttl - 1, true), Numbered1(a, k, theirs, ttl, false);
    assert SilentTiebreak(strategy, a, true, s, slice, k);
    SignificanceExact(strategy, a, true, s, slice);
    assert VMerge(strategy, a, true, s, slice) == slice;
  }

  /** A reboot, an insert and a second of bleaching at a. */
  lemma RestartSteps<S>(policy: Policy<S>, net: Net<S>, a: Host, y: map<Key, Data>, second: S, aged: S)
    requires a in net.nodes && policy.insert(a, policy.boot, y) == second && policy.expire(second, 1) == aged
    ensures ValidRun(policy, net, [Reboot(a), Insert(a, y)] + [Expire(a, 1)])
    ensures After(policy, net, [Reboot(a), Insert(a, y)] + [Expire(a, 1)]) == WithNode(net, a, aged)
  {
    RunTwo(policy, net, Reboot(a), Insert(a, y));
    assert After(policy, net, [Reboot(a), Insert(a, y)]) == WithNode(net, a, second) by {
      assert net.nodes[a := policy.boot][a := second] == net.nodes[a := second];
    }
    RunSnoc(policy, net, [Reboot(a), Insert(a, y)], Expire(a, 1));
    assert net.nodes[a := second][a := aged] == net.nodes[a := aged];
  }

  /** mine and theirs are the first publication at both nodes, aged is the second
      one after a second, and the echo of the first replaces it. */
  ghost predicate Restarts<S>(policy: Policy<S>, a: Host, b: Host, x: map<Key, Data>, y: map<Key, Data>,
          mine: S, theirs: S, second: S, aged: S) {
    && a != b && policy.insert(a, policy.boot, x) == mine && policy.merge(b, policy.boot, mine) == theirs
    && policy.insert(a, policy.boot, y) == second && policy.expire(second, 1) == aged
    && policy.merge(a, aged, theirs) == theirs
  }

  /** The run for any policy with which it goes that way. */
  lemma RestartOf<S>(policy: Policy<S>, a: Host, b: Host, x: map<Key, Data>, y: map<Key, Data>,
          mine: S, theirs: S, second: S, aged: S)
    requires Restarts(policy, a, b, x, y, mine, theirs, second, aged)
    ensures var net := Net(map[a := policy.boot, b := policy.boot], map[]);
            var run := [Insert(a, x), Start(0, a, b), Serve(0)] + ([Reboot(a), Insert(a, y)] + [Expire(a, 1)]);
            && ValidRun(policy, net, run)
            && After(policy, net, run) == Net(map[a := aged, b := theirs], map[0 := Replied(a, b, theirs)])
  {
    var net := Net(map[a := policy.boot, b := policy.boot], map[]);
    InsertServeRun(policy, net, 0, a, b, x, mine, theirs);
    var synced := Net(map[a := mine, b := theirs], map[0 := Replied(a, b, theirs)]);
    assert After(policy, net, [Insert(a, x), Start(0, a, b), Serve(0)]) == synced;
    RestartSteps(policy, synced, a, y, second, aged);
    RunConcat(policy, net, [Insert(a, x), Start(0, a, b), Serve(0)], [Reboot(a), Insert(a, y)] + [Expire(a, 1)]);
  }

  /** Behind it the peer's echo. */
  lemma EchoOf<S>(policy: Policy<S>, a: Host, b: Host, x: map<Key, Data>, y: map<Key, Data>,
          mine: S, theirs: S, second: S, aged: S)
    requires Restarts(policy, a, b, x, y, mine, theirs, second, aged)
    ensures var net := Net(map[a := policy.boot, b := policy.boot], map[]);
            var run := [Insert(a, x), Start(0, a, b), Serve(0)] + ([Reboot(a), Insert(a, y)] + [Expire(a, 1)]);
            && ValidRun(policy, net, run) && ValidRun(policy, net, run + [Start(1, b, a), Serve(1)])
            && After(policy, net, run).nodes == map[a := aged, b := theirs]
            && After(policy, net, run + [Start(1, b, a), Serve(1)]).nodes == map[a := theirs, b := theirs]
  {
    var net := Net(map[a := policy.boot, b := policy.boot], map[]);
    var run := [Insert(a, x), Start(0, a, b), Serve(0)] + ([Reboot(a), Insert(a, y)] + [Expire(a, 1)]);
    RestartOf(policy, a, b, x, y, mine, theirs, second, aged);
    RunThenServe(policy, net, run, 1, b, a, theirs);
    assert map[a := aged, b := theirs][a := theirs] == map[a := theirs, b := theirs];
  }

  lemma SimulatedRestarts(strategy: Strategy, conf: TypeConf, a: Host, b: Host, k: Key, first: Data, second: Data)
    requires Counting(strategy) && a != b && conf.bleachTtl >= 2 && first != second
    ensures Restarts(Simulated(strategy, conf), a, b, map[k := first], map[k := second],
                     Numbered1(a, k, first, conf.bleachTtl, true), Numbered1(a, k, first, conf.bleachTtl, false),
                     Numbered1(a, k, second, conf.bleachTtl, true), Numbered1(a, k, second, conf.bleachTtl - 1, true))
  {
    RestartMerges(strategy, conf, a, b, k, first);
    RestartMerges(strategy, conf, a, b, k, second);
    EqualVersionReplaces(strategy, a, k, second, first, conf.bleachTtl);
  }

  /** Under both counting strategies the author, hearing its peer, falls back
      from its second publication to the first. */
  lemma EqualVersionReturns(strategy: Strategy, conf: TypeConf, a: Host, b: Host, k: Key, first: Data, second: Data)
    requires Counting(strategy) && a != b && conf.bleachTtl >= 2 && first != second
    ensures var policy, net, run := Simulated(strategy, conf), Pair(a, b), RestartRun(a, b, k, first, second);
            var held := Numbered1(a, k, second, conf.bleachTtl - 1, true);
            var heard := Numbered1(a, k, first, conf.bleachTtl, false);
            var echoed := run + [Start(1, b, a), Serve(1)];
            && Initial(net) && ValidRun(policy, net, run) && ValidRun(policy, net, echoed)
            && After(policy, net, run).nodes == map[a := held, b := heard]
            && After(policy, net, echoed).nodes == map[a := heard, b := heard]
  {
    SimulatedRestarts(strategy, conf, a, b, k, first, second);
    EchoOf(Simulated(strategy, conf), a, b, map[k := first], map[k := second],
           Numbered1(a, k, first, conf.bleachTtl, true), Numbered1(a, k, first, conf.bleachTtl, false),
           Numbered1(a, k, second, conf.bleachTtl, true), Numbered1(a, k, second, conf.bleachTtl - 1, true));
  }

  // -------------------------------------------------------- a straggler returns

  /** The author inserts three times, asks its peer for a session, reboots and
      inserts anew while the request is on its way. */
  function RebirthRun(a: Host, b: Host, x: seq<map<Key, Data>>): seq<Step>
    requires |x| == 5
  {
    [Insert(a, x[0]), Insert(a, x[1])] + [Insert(a, x[2]), Start(0, a, b)] + [Reboot(a), Insert(a, x[3])]
  }

  function Round(id: nat, a: Host, b: Host): seq<Step> {
    [Start(id, a, b), Serve(id)] + [Finish(id)]
  }

  /** A round and the last insert. */
  function LeadRun(a: Host, b: Host, x: seq<map<Key, Data>>): seq<Step>
    requires |x| == 5
  {
    Round(1, a, b) + [Insert(a, x[4])]
  }

  /** A round in which the client learns nothing. */
  lemma RoundRun<S>(policy: Policy<S>, net: Net<S>, id: nat, a: Host, b: Host, mine: S, theirs: S)
    requires Enabled(net, Start(id, a, b)) && net.nodes[a] == mine
    requires policy.merge(b, net.nodes[b], mine) == theirs && policy.merge(a, mine, theirs) == mine
    ensures ValidRun(policy, net, Round(id, a, b))
    ensures After(policy, net, Round(id, a, b)) == Net(net.nodes[b := theirs], net.sessions[id := Finished(a, b)])
  {
    ServeRun(policy, net, id, a, b, theirs);
    RunSnoc(policy, net, [Start(id, a, b), Serve(id)], Finish(id));
    assert net.nodes[b := theirs][a := mine] == net.nodes[b := theirs];
    assert net.sessions[id := Replied(a, b, theirs)][id := Finished(a, b)] == net.sessions[id := Finished(a, b)];
  }

  /** States p of the three inserts before the reboot and q of the two after it. */
  ghost predicate TaleInserts<S>(policy: Policy<S>, a: Host, x: seq<map<Key, Data>>, p: seq<S>, q: seq<S>) {
    && |x| == 5 && |p| == 3 && |q| == 2
    && policy.insert(a, policy.boot, x[0]) == p[0] && policy.insert(a, p[0], x[1]) == p[1]
    && policy.insert(a, p[1], x[2]) == p[2]
    && policy.insert(a, policy.boot, x[3]) == q[0] && policy.insert(a, q[0], x[4]) == q[1]
  }

  /** States r that the peer makes of q, and last that it makes of the straggler. */
  ghost predicate TaleMerges<S>(policy: Policy<S>, a: Host, b: Host, p: seq<S>, q: seq<S>, r: seq<S>, last: S) {
    && |p| == 3 && |q| == 2 && |r| == 2
    && policy.merge(b, policy.boot, q[0]) == r[0] && policy.merge(a, q[0], r[0]) == q[0]
    && policy.merge(b, r[0], q[1]) == r[1] && policy.merge(a, q[1], r[1]) == q[1]
    && policy.merge(b, r[1], p[2]) == last
  }

  ghost predicate Tale<S>(policy: Policy<S>, a: Host, b: Host, x: seq<map<Key, Data>>,
          p: seq<S>, q: seq<S>, r: seq<S>, last: S) {
    a != b && TaleInserts(policy, a, x, p, q) && TaleMerges(policy, a, b, p, q, r, last)
  }

  lemma RebirthEnds<S>(policy: Policy<S>, a: Host, b: Host, x: seq<map<Key, Data>>,
          p: seq<S>, q: seq<S>, r: seq<S>, last: S)
    requires Tale(policy, a, b, x, p, q, r, last)
    ensures var net := Net(map[a := policy.boot, b := policy.boot], map[]);
            && ValidRun(policy, net, RebirthRun(a, b, x))
            && After(policy, net, RebirthRun(a, b, x))
               == Net(map[a := q[0], b := policy.boot], map[0 := Requested(a, b, p[2])])
  {
    var net := Net(map[a := policy.boot, b := policy.boot], map[]);
    RunTwo(policy, net, Insert(a, x[0]), Insert(a, x[1]));
    var net2 := Net(map[a := p[1], b := policy.boot], map[]);
    assert After(policy, net, [Insert(a, x[0]), Insert(a, x[1])]) == net2;
    RunTwo(policy, net2, Insert(a, x[2]), Start(0, a, b));
    var net4 := Net(map[a := p[2], b := policy.boot], map[0 := Requested(a, b, p[2])]);
    assert After(policy, net2, [Insert(a, x[2]), Start(0, a, b)]) == net4;
    RunTwo(policy, net4, Reboot(a), Insert(a, x[3]));
    RunConcat(policy, net, [Insert(a, x[0]), Insert(a, x[1])], [Insert(a, x[2]), Start(0, a, b)]);
    RunConcat(policy, net, [Insert(a, x[0]), Insert(a, x[1])] + [Insert(a, x[2]), Start(0, a, b)],
              [Reboot(a), Insert(a, x[3])]);
  }

  lemma LeadEnds<S>(policy: Policy<S>, a: Host, b: Host, x: seq<map<Key, Data>>,
          p: seq<S>, q: seq<S>, r: seq<S>, last: S)
    requires Tale(policy, a, b, x, p, q, r, last)
    ensures var start := Net(map[a := q[0], b := policy.boot], map[0 := Requested(a, b, p[2])]);
            && ValidRun(policy, start, LeadRun(a, b, x))
            && After(policy, start, LeadRun(a, b, x))
               == Net(map[a := q[1], b := r[0]], map[0 := Requested(a, b, p[2]), 1 := Finished(a, b)])
  {
    var start := Net(map[a := q[0], b := policy.boot], map[0 := Requested(a, b, p[2])]);
    RoundRun(policy, start, 1, a, b, q[0], r[0]);
    RunSnoc(policy, start, Round(1, a, b), Insert(a, x[4]));
  }

  lemma StragglerEnds<S>(policy: Policy<S>, a: Host, b: Host, x: seq<map<Key, Data>>,
          p: seq<S>, q: seq<S>, r: seq<S>, last: S)
    requires Tale(policy, a, b, x, p, q, r, last)
    ensures var led := Net(map[a := q[1], b := r[0]], map[0 := Requested(a, b, p[2]), 1 := Finished(a, b)]);
            && ValidRun(policy, led, Round(2, a, b) + [Serve(0)])
            && After(policy, led, Round(2, a, b) + [Serve(0)]).nodes == map[a := q[1], b := last]
  {
    var led := Net(map[a := q[1], b := r[0]], map[0 := Requested(a, b, p[2]), 1 := Finished(a, b)]);
    RoundRun(policy, led, 2, a, b, q[1], r[1]);
    RunSnoc(policy, led, Round(2, a, b), Serve(0));
  }

  /** The whole run, for any policy with which it goes that way. */
  lemma TaleEnds<S>(policy: Policy<S>, a: Host, b: Host, x: seq<map<Key, Data>>,
          p: seq<S>, q: seq<S>, r: seq<S>, last: S)
    requires Tale(policy, a, b, x, p, q, r, last)
    ensures var net := Net(map[a := policy.boot, b := policy.boot], map[]);
            var run, rest := RebirthRun(a, b, x) + LeadRun(a, b, x), Round(2, a, b) + [Serve(0)];
            && ValidRun(policy, net, RebirthRun(a, b, x))
            && After(policy, net, RebirthRun(a, b, x))
               == Net(map[a := q[0], b := policy.boot], map[0 := Requested(a, b, p[2])])
            && ValidRun(policy, net, run) && ValidRun(policy, net, run + rest)
            && After(policy, net, run)
               == Net(map[a := q[1], b := r[0]], map[0 := Requested(a, b, p[2]), 1 := Finished(a, b)])
            && After(policy, net, run + rest).nodes == map[a := q[1], b := last]
  {
    var net := Net(map[a := policy.boot, b := policy.boot], map[]);
    RebirthEnds(policy, a, b, x, p, q, r, last);
    LeadEnds(policy, a, b, x, p, q, r, last);
    StragglerEnds(policy, a, b, x, p, q, r, last);
    RunConcat(policy, net, RebirthRun(a, b, x), LeadRun(a, b, x));
    RunConcat(policy, net, RebirthRun(a, b, x) + LeadRun(a, b, x), Round(2, a, b) + [Serve(0)]);
  }

  /** A publication of a, as stored there or as adopted elsewhere. */
  function Issued(conf: TypeConf, a: Host, k: Key, d: Data, version: nat, local: bool): VState {
    map[k := VEntry(a, conf.bleachTtl, d, version, local)]
  }

  lemma Publishing(strategy: Strategy, conf: TypeConf, a: Host, k: Key, s: VState, d: Data, version: nat)
    requires Counting(strategy) && s.Keys <= {k} && version == if k in s then s[k].version + 1 else 1
    ensures InsertAll(strategy, conf, a, s, map[k := d]) == Issued(conf, a, k, d, version, true)
  {
  }

  lemma PublicationMerges(strategy: Strategy, conf: TypeConf, a: Host, b: Host, k: Key,
          s: VState, d: Data, version: nat)
    requires Counting(strategy) && a != b && s.Keys <= {k} && (k in s ==> s[k].author == a && s[k].version < version)
    ensures var mine, theirs := Issued(conf, a, k, d, version, true), Issued(conf, a, k, d, version, false);
            VMerge(strategy, b, true, s, mine) == theirs && VMerge(strategy, a, true, mine, theirs) == mine
  {
  }

  function Entries(k: Key, d: seq<Data>): seq<map<Key, Data>>
    requires |d| == 5
  {
    [map[k := d[0]], map[k := d[1]], map[k := d[2]], map[k := d[3]], map[k := d[4]]]
  }

  /** The states of that tale under both counting strategies. */
  function Beforehand(conf: TypeConf, a: Host, k: Key, d: seq<Data>): seq<VState>
    requires |d| == 5
  {
    [Issued(conf, a, k, d[0], 1, true), Issued(conf, a, k, d[1], 2, true),
     Issued(conf, a, k, d[2], 3, true)]
  }

  function Afterwards(conf: TypeConf, a: Host, k: Key, d: seq<Data>, local: bool): seq<VState>
    requires |d| == 5
  {
    [Issued(conf, a, k, d[3], 1, local), Issued(conf, a, k, d[4], 2, local)]
  }

  lemma SimulatedInserts(strategy: Strategy, conf: TypeConf, a: Host, k: Key, d: seq<Data>)
    requires Counting(strategy) && |d| == 5
    ensures TaleInserts(Simulated(strategy, conf), a, Entries(k, d), Beforehand(conf, a, k, d),
                        Afterwards(conf, a, k, d, true))
  {
    Publishing(strategy, conf, a, k, map[], d[0], 1);
    Publishing(strategy, conf, a, k, Issued(conf, a, k, d[0], 1, true), d[1], 2);
    Publishing(strategy, conf, a, k, Issued(conf, a, k, d[1], 2, true), d[2], 3);
    Publishing(strategy, conf, a, k, map[], d[3], 1);
    Publishing(strategy, conf, a, k, Issued(conf, a, k, d[3], 1, true), d[4], 2);
  }

  lemma SimulatedMerges(strategy: Strategy, conf: TypeConf, a: Host, b: Host, k: Key, d: seq<Data>)
    requires Counting(strategy) && a != b && |d| == 5
    ensures TaleMerges(Simulated(strategy, conf), a, b, Beforehand(conf, a, k, d), Afterwards(conf, a, k, d, true),
                       Afterwards(conf, a, k, d, false), Issued(conf, a, k, d[2], 3, false))
  {
    PublicationMerges(strategy, conf, a, b, k, map[], d[3], 1);
    PublicationMerges(strategy, conf, a, b, k, Issued(conf, a, k, d[3], 1, false), d[4], 2);
    PublicationMerges(strategy, conf, a, b, k, Issued(conf, a, k, d[4], 2, false), d[2], 3);
  }

  /** The mesh after the reboot and the first insert behind it. */
  function Reincarnated(conf: TypeConf, a: Host, b: Host, k: Key, d: seq<Data>): Net<VState>
    requires |d| == 5
  {
    Net(map[a := Issued(conf, a, k, d[3], 1, true), b := map[]],
        map[0 := Requested(a, b, Issued(conf, a, k, d[2], 3, true))])
  }

  /** The mesh after the last publication. */
  function Outrun(conf: TypeConf, a: Host, b: Host, k: Key, d: seq<Data>): Net<VState>
    requires |d| == 5
  {
    Net(map[a := Issued(conf, a, k, d[4], 2, true), b := Issued(conf, a, k, d[3], 1, false)],
        map[0 := Requested(a, b, Issued(conf, a, k, d[2], 3, true)), 1 := Finished(a, b)])
  }

  /** From two freshly booted nodes a run reaches these meshes, and goes on so that
      the peer ends with the last publication before the reboot. */
  lemma StragglerReturns(strategy: Strategy, conf: TypeConf, a: Host, b: Host, k: Key, d: seq<Data>)
    requires Counting(strategy) && a != b && |d| == 5
    ensures var policy, x := Simulated(strategy, conf), Entries(k, d);
            var run, rest := RebirthRun(a, b, x) + LeadRun(a, b, x), Round(2, a, b) + [Serve(0)];
            && ValidRun(policy, Pair(a, b), RebirthRun(a, b, x))
            && ValidRun(policy, Pair(a, b), run) && ValidRun(policy, Pair(a, b), run + rest)
            && After(policy, Pair(a, b), RebirthRun(a, b, x)) == Reincarnated(conf, a, b, k, d)
            && After(policy, Pair(a, b), run) == Outrun(conf, a, b, k, d)
            && After(policy, Pair(a, b), run + rest).nodes
               == map[a := Issued(conf, a, k, d[4], 2, true), b := Issued(conf, a, k, d[2], 3, false)]
  {
    SimulatedInserts(strategy, conf, a, k, d);
    SimulatedMerges(strategy, conf, a, b, k, d);
    TaleEnds(Simulated(strategy, conf), a, b, Entries(k, d), Beforehand(conf, a, k, d), Afterwards(conf, a, k, d, true),
             Afterwards(conf, a, k, d, false), Issued(conf, a, k, d[2], 3, false));
  }

  /** On the way the travelling publication is newer than anything held, and ahead
      of the author's last one, which leads at the nodes. */
  lemma StragglerAhead(conf: TypeConf, a: Host, b: Host, k: Key, d: seq<Data>)
    requires a != b && |d| == 5
    ensures !Backed(Reincarnated(conf, a, b, k, d), k)
    ensures var led := Outrun(conf, a, b, k, d);
            Addressed(led) && LedAtNodes(led, k, a, 2, d[4]) && !NoneAhead(led, k, 2)
  {
    var start, led := Reincarnated(conf, a, b, k, d), Outrun(conf, a, b, k, d);
    assert InFlight(start.sessions[0]) && start.sessions[0].slice[k].version == 3;
    assert InFlight(led.sessions[0]) && led.sessions[0].slice[k].version == 3;
  }
}
