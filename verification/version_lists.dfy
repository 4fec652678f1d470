/**
 Version counters over lists of slices: domination, exactly when recovery fires
 somewhere in a list, what a list merges to when it does not, and the echo that
 v2 resurrects and v2r does not.
 */
module VersionLists {
  import opened Options
  import opened Store
  import opened Versions

  function VMergeAll(strategy: Strategy, host: Host, state: VState, slices: seq<VState>): VState
    decreases |slices|
  {
    if slices == [] then state
    else VMergeAll(strategy, host, VMerge(strategy, host, true, state, slices[0]), slices[1..])
  }

  // ------------------------------------------------------------ domination

  lemma VersionMonotone(strategy: Strategy, host: Host, remote: bool, state: VState, slice: VState, k: Key)
    requires Counting(strategy)
    ensures var m := VMerge(strategy, host, remote, state, slice);
            && (k in state ==> k in m && state[k].version <= m[k].version)
            && (k in slice ==> k in m && slice[k].version <= m[k].version)
  {
  }

  /** After any list of slices the held version is at least every version heard. */
  lemma {:induction false} Domination(strategy: Strategy, host: Host, state: VState, slices: seq<VState>, k: Key)
    requires Counting(strategy)
    ensures var r := VMergeAll(strategy, host, state, slices);
            && (k in state ==> k in r && state[k].version <= r[k].version)
            && (forall i :: 0 <= i < |slices| && k in slices[i] ==> k in r && slices[i][k].version <= r[k].version)
    decreases |slices|
  {
    if slices != [] {
      VersionMonotone(strategy, host, true, state, slices[0], k);
      Domination(strategy, host, VMerge(strategy, host, true, state, slices[0]), slices[1..], k);
      var r := VMergeAll(strategy, host, state, slices);
      forall i | 0 <= i < |slices| && k in slices[i] ensures k in r && slices[i][k].version <= r[k].version {
        if i > 0 {
          assert slices[1..][i - 1] == slices[i];
        }
      }
    }
  }

  /** The author's next publication is adopted by every non-owning peer whose
      copy is no newer than something the author has heard. */
  lemma NextPublishAdopted(strategy: Strategy, host: Host, state: VState, slices: seq<VState>, k: Key,
          data: Data, ttl: nat, peer: Host, peerState: VState, i: nat)
    requires Counting(strategy)
    requires i < |slices| && k in slices[i] && k in peerState
    requires peerState[k].author != peer && peerState[k].version <= slices[i][k].version
    ensures var author := VMergeAll(strategy, host, state, slices);
            var author' := author[k := Published(strategy, host, author, k, data, ttl)];
            VMerge(strategy, peer, true, peerState, author')[k] == Adopted(author'[k])
  {
    Domination(strategy, host, state, slices, k);
  }

  predicate OwnGuarded(strategy: Strategy, host: Host, e: VEntry) {
    e.author == host && (strategy.V2r? ==> e.local)
  }

  /** One remote merge replaces a locally inserted own entry exactly when an
      echo ties its version with a higher TTL; otherwise only the version moves. */
  lemma OwnEntryReplacedExactly(strategy: Strategy, host: Host, state: VState, slice: VState, k: Key)
    requires Counting(strategy) && k in state && OwnGuarded(strategy, host, state[k])
    ensures var m := VMerge(strategy, host, true, state, slice);
            var tied := k in slice && slice[k].version == state[k].version && slice[k].ttl > state[k].ttl;
            && (tied ==> m[k] == Adopted(slice[k]))
            && (!tied ==> m[k] == state[k].(version := m[k].version))
            && (k in slice && slice[k].version > state[k].version ==> m[k].version == slice[k].version + 1)
  {
  }

  /** A fresh own insert that hears a newer echo keeps its data and is adopted by
      every non-owning peer whose copy is no newer than that echo. */
  lemma LeapfrogAdopted(strategy: Strategy, host: Host, state: VState, slice: VState, k: Key,
          peer: Host, peerState: VState)
    requires Counting(strategy) && k in state && OwnGuarded(strategy, host, state[k])
    requires k in slice && slice[k].version > state[k].version
    requires k in peerState && peerState[k].author != peer && peerState[k].version <= slice[k].version
    ensures var author := VMerge(strategy, host, true, state, slice);
            && author[k] == state[k].(version := slice[k].version + 1)
            && VMerge(strategy, peer, true, peerState, author)[k] == Adopted(author[k])
            && VMerge(strategy, peer, true, peerState, author)[k].data == state[k].data
  {
  }

  /** If no echo has more TTL than the fresh insert, the author's own entry comes
      through the whole list with nothing but its version changed. */
  lemma {:induction false} OwnDataSurvives(strategy: Strategy, host: Host, state: VState, slices: seq<VState>, k: Key)
    requires Counting(strategy) && k in state && OwnGuarded(strategy, host, state[k])
    requires forall i :: 0 <= i < |slices| && k in slices[i] ==> slices[i][k].ttl <= state[k].ttl
    ensures var r := VMergeAll(strategy, host, state, slices);
            k in r && r[k] == state[k].(version := r[k].version) && state[k].version <= r[k].version
    decreases |slices|
  {
    Domination(strategy, host, state, slices, k);
    if slices != [] {
      OwnEntryReplacedExactly(strategy, host, state, slices[0], k);
      var mid := VMerge(strategy, host, true, state, slices[0]);
      assert forall i :: 0 <= i < |slices[1..]| ==> slices[1..][i] == slices[i + 1];
      OwnDataSurvives(strategy, host, mid, slices[1..], k);
    }
  }

  // ---------------------------------------------------------------- recovery

  predicate NoNewer(e: VEntry, f: VEntry) {
    e.version < f.version || (e.version == f.version && e.ttl <= f.ttl)
  }

  /** The first of the newest copies of k, by version and then TTL, among what
      was held and what was heard. */
  function Leader(state: VState, slices: seq<VState>, k: Key): Option<VEntry>
    decreases |slices|
  {
    if slices == [] then
      if k in state then Some(state[k]) else None
    else
      var leader, last := Leader(state, slices[..|slices| - 1], k), slices[|slices| - 1];
      if k in last && (leader.None? || !NoNewer(last[k], leader.value)) then Some(Adopted(last[k])) else leader
  }

  /** Some slice brings a newer version than an own leader of what came before. */
  predicate Overtaken(strategy: Strategy, host: Host, state: VState, slices: seq<VState>, k: Key)
    decreases |slices|
  {
    slices != [] &&
    (var front, last := slices[..|slices| - 1], slices[|slices| - 1];
     || Overtaken(strategy, host, state, front, k)
     || (var leader := Leader(state, front, k);
         leader.Some? && k in last && RecoveryApplies(strategy, host, true, leader.value, last[k])))
  }

  /** Some merge of the list recovers the node's copy of k. */
  predicate Recovers(strategy: Strategy, host: Host, state: VState, slices: seq<VState>, k: Key)
    decreases |slices|
  {
    slices != [] &&
    (var front, last := slices[..|slices| - 1], slices[|slices| - 1];
     || Recovers(strategy, host, state, front, k)
     || (var held := VMergeAll(strategy, host, state, front);
         k in held && k in last && RecoveryApplies(strategy, host, true, held[k], last[k])))
  }

  lemma {:induction false} VMergeAllConcat(strategy: Strategy, host: Host, state: VState,
          xs: seq<VState>, ys: seq<VState>)
    ensures VMergeAll(strategy, host, state, xs + ys)
            == VMergeAll(strategy, host, VMergeAll(strategy, host, state, xs), ys)
    decreases |xs|
  {
    if xs == [] {
      assert xs + ys == ys;
    } else {
      assert (xs + ys)[0] == xs[0] && (xs + ys)[1..] == xs[1..] + ys;
      VMergeAllConcat(strategy, host, VMerge(strategy, host, true, state, xs[0]), xs[1..], ys);
    }
  }

  lemma VMergeAllSnoc(strategy: Strategy, host: Host, state: VState, front: seq<VState>, last: VState)
    ensures VMergeAll(strategy, host, state, front + [last])
            == VMerge(strategy, host, true, VMergeAll(strategy, host, state, front), last)
  {
    var held := VMergeAll(strategy, host, state, front);
    VMergeAllConcat(strategy, host, state, front, [last]);
    assert [last][1..] == [];
    assert VMergeAll(strategy, host, held, [last])
        == VMergeAll(strategy, host, VMerge(strategy, host, true, held, last), []);
  }

  /** Recovery fires somewhere in a list if and only if the list overtakes an own
      leader, and until then the node holds the leader of what it has seen. */
  lemma {:induction false} RecoveryExactly(strategy: Strategy, host: Host, state: VState, slices: seq<VState>, k: Key)
    requires Counting(strategy)
    ensures Recovers(strategy, host, state, slices, k) <==> Overtaken(strategy, host, state, slices, k)
    ensures !Overtaken(strategy, host, state, slices, k) ==>
              Lookup(VMergeAll(strategy, host, state, slices), k) == Leader(state, slices, k)
    decreases |slices|
  {
    if slices != [] {
      var front, last := slices[..|slices| - 1], slices[|slices| - 1];
      RecoveryExactly(strategy, host, state, front, k);
      assert slices == front + [last];
      VMergeAllSnoc(strategy, host, state, front, last);
    }
  }

  /** A rebooted v2 node that holds an echo of its own and hears more of them:
      recovery fires if and only if one of them is newer than the held one. */
  lemma {:induction false} OwnEchoRecovery(host: Host, state: VState, slices: seq<VState>, k: Key)
    requires k in state && state[k].author == host
    requires forall s: VState :: s in slices && k in s ==> s[k].author == host
    ensures Recovers(V2, host, state, slices, k)
       <==> exists s: VState :: s in slices && k in s && s[k].version > state[k].version
    decreases |slices|
  {
    RecoveryExactly(V2, host, state, slices, k);
    if slices != [] {
      var front, last := slices[..|slices| - 1], slices[|slices| - 1];
      assert slices == front + [last];
      OwnEchoRecovery(host, state, front, k);
      RecoveryExactly(V2, host, state, front, k);
      OwnLeader(host, state, front, k);
    }
  }

  lemma {:induction false} OwnLeader(host: Host, state: VState, slices: seq<VState>, k: Key)
    requires k in state && state[k].author == host
    requires forall s: VState :: s in slices && k in s ==> s[k].author == host
    ensures var leader := Leader(state, slices, k);
            && leader.Some? && leader.value.author == host && leader.value.version >= state[k].version
            && ((forall s: VState :: s in slices && k in s ==> s[k].version <= state[k].version) ==>
                  leader.value.version == state[k].version)
    decreases |slices|
  {
    if slices != [] {
      var front, last := slices[..|slices| - 1], slices[|slices| - 1];
      assert slices == front + [last];
      OwnLeader(host, state, front, k);
    }
  }

  // ------------------------------------------------------------ resurrection

  lemma VMergePair(strategy: Strategy, host: Host, s: VState, a: VState, b: VState)
    ensures VMergeAll(strategy, host, s, [a, b])
            == VMerge(strategy, host, true, VMerge(strategy, host, true, s, a), b)
  {
    VMergeAllSnoc(strategy, host, s, [a], b);
    VMergeAllSnoc(strategy, host, s, [], a);
    assert [] + [a] == [a] && [a] + [b] == [a, b];
  }

  /** A rebooted author that hears an outdated echo and then a newer one: v2
      lifts the outdated data above both, v2r takes the newer echo. */
  lemma EchoResurrection(host: Host, k: Key, older: VEntry, newer: VEntry)
    requires older.author == host && older.version < newer.version
    ensures VMergeAll(V2, host, map[], [map[k := older], map[k := newer]])
            == map[k := Adopted(older).(version := newer.version + 1)]
    ensures VMergeAll(V2r, host, map[], [map[k := older], map[k := newer]]) == map[k := Adopted(newer)]
  {
    var a, b: VState := map[k := older], map[k := newer];
    var mid: VState := map[k := Adopted(older)];
    VMergePair(V2, host, map[], a, b);
    VMergePair(V2r, host, map[], a, b);
    assert VMerge(V2, host, true, map[], a) == mid && VMerge(V2r, host, true, map[], a) == mid;
    assert VMerge(V2, host, true, mid, b) == map[k := Adopted(older).(version := newer.version + 1)];
    assert VMerge(V2r, host, true, mid, b) == map[k := Adopted(newer)];
  }

  /** The damage spreads: under v2 every other node whose copy is no newer than
      the newer echo takes the outdated data from the author; under v2r a peer
      that holds the newer echo keeps it. */
  lemma ResurrectionSpreads(host: Host, k: Key, older: VEntry, newer: VEntry, peer: Host, peerState: VState)
    requires older.author == host && older.version < newer.version
    requires k in peerState && peerState[k].author != peer && peerState[k].version <= newer.version
    ensures var author := VMergeAll(V2, host, map[], [map[k := older], map[k := newer]]);
            VMerge(V2, peer, true, peerState, author)[k] == Adopted(older).(version := newer.version + 1)
    ensures var author := VMergeAll(V2r, host, map[], [map[k := older], map[k := newer]]);
            peerState[k] == newer ==> VMerge(V2r, peer, true, peerState, author)[k] == newer
  {
    EchoResurrection(host, k, older, newer);
  }
}
