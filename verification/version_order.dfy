/**
 Merging version-counted slices in one order or another: exactly when the order
 of two slices shows, and what a list merges to when recovery does not fire.
 */
module VersionOrder {
  import opened Options
  import opened Store
  import opened Versions
  import opened VersionLists
  import opened Permutations

  // ------------------------------------------------------------ two slices

  /** Of two different copies heard one after the other with nothing held
      before, which one stays depends on the order. */
  predicate VContest(strategy: Strategy, host: Host, e: VEntry, f: VEntry) {
    if e.version == f.version then e.ttl == f.ttl
    else strategy.V2? && (if e.version < f.version then e else f).author == host
  }

  /** A copy that ties the version of a held entry and has more TTL. */
  predicate VTies(known: VEntry, e: VEntry) {
    e.version == known.version && e.ttl > known.ttl
  }

  /** The same with an entry held before that a newer version makes recover:
      consecutive newer versions, a newer one beside a tie, or two equal ties. */
  predicate GuardedContest(known: VEntry, e: VEntry, f: VEntry) {
    || (e.version > known.version && f.version > known.version
        && (e.version == f.version + 1 || f.version == e.version + 1))
    || (e.version > known.version && VTies(known, f))
    || (VTies(known, e) && f.version > known.version)
    || (VTies(known, e) && VTies(known, f) && e.ttl == f.ttl)
  }

  predicate VContestOver(strategy: Strategy, host: Host, known: VEntry, e: VEntry, f: VEntry) {
    if OwnGuarded(strategy, host, known) then GuardedContest(known, e, f)
    else !NoNewer(e, known) && !NoNewer(f, known) && VContest(strategy, host, e, f)
  }

  /** The two orders of hearing a and b leave different entries under k. */
  predicate VMatters(strategy: Strategy, host: Host, s: VState, a: VState, b: VState, k: Key) {
    && k in a && k in b && Adopted(a[k]) != Adopted(b[k])
    && if k in s then VContestOver(strategy, host, s[k], a[k], b[k]) else VContest(strategy, host, a[k], b[k])
  }

  function Heard(strategy: Strategy, host: Host, known: VEntry, e: VEntry): VEntry {
    Settle(Classify(strategy, host, true, known, e), known, e)
  }

  lemma VSwapGuarded(strategy: Strategy, host: Host, known: VEntry, e: VEntry, f: VEntry)
    requires Counting(strategy) && OwnGuarded(strategy, host, known)
    ensures Heard(strategy, host, Heard(strategy, host, known, e), f)
            == Heard(strategy, host, Heard(strategy, host, known, f), e)
       <==> Adopted(e) == Adopted(f) || !GuardedContest(known, e, f)
  {
  }

  lemma VSwapOver(strategy: Strategy, host: Host, known: VEntry, e: VEntry, f: VEntry)
    requires Counting(strategy)
    ensures Heard(strategy, host, Heard(strategy, host, known, e), f)
            == Heard(strategy, host, Heard(strategy, host, known, f), e)
       <==> Adopted(e) == Adopted(f) || !VContestOver(strategy, host, known, e, f)
  {
    if OwnGuarded(strategy, host, known) {
      VSwapGuarded(strategy, host, known, e, f);
    }
  }

  lemma VSwapFresh(strategy: Strategy, host: Host, e: VEntry, f: VEntry)
    requires Counting(strategy)
    ensures Heard(strategy, host, Adopted(e), f) == Heard(strategy, host, Adopted(f), e)
       <==> Adopted(e) == Adopted(f) || !VContest(strategy, host, e, f)
  {
  }

  lemma VSwapAt(strategy: Strategy, host: Host, s: VState, a: VState, b: VState, k: Key)
    requires Counting(strategy)
    ensures Lookup(VMerge(strategy, host, true, VMerge(strategy, host, true, s, a), b), k)
            == Lookup(VMerge(strategy, host, true, VMerge(strategy, host, true, s, b), a), k)
       <==> !VMatters(strategy, host, s, a, b, k)
  {
    if k in a && k in b {
      if k in s {
        VSwapOver(strategy, host, s[k], a[k], b[k]);
      } else {
        VSwapFresh(strategy, host, a[k], b[k]);
      }
    }
  }

  /** Two slices merge to the same state in both orders if and only if no key of
      theirs matters, whatever was held before, under both counting strategies. */
  lemma VSwapExactly(strategy: Strategy, host: Host, s: VState, a: VState, b: VState)
    requires Counting(strategy)
    ensures VMerge(strategy, host, true, VMerge(strategy, host, true, s, a), b)
            == VMerge(strategy, host, true, VMerge(strategy, host, true, s, b), a)
       <==> forall k :: !VMatters(strategy, host, s, a, b, k)
  {
    forall k: Key
      ensures Lookup(VMerge(strategy, host, true, VMerge(strategy, host, true, s, a), b), k)
              == Lookup(VMerge(strategy, host, true, VMerge(strategy, host, true, s, b), a), k)
         <==> !VMatters(strategy, host, s, a, b, k)
    {
      VSwapAt(strategy, host, s, a, b, k);
    }
    LookupEverywhere(VMerge(strategy, host, true, VMerge(strategy, host, true, s, a), b),
                     VMerge(strategy, host, true, VMerge(strategy, host, true, s, b), a));
  }

  lemma LookupEverywhere(a: VState, b: VState)
    ensures a == b <==> forall k :: Lookup(a, k) == Lookup(b, k)
  {
    if forall k :: Lookup(a, k) == Lookup(b, k) {
      forall k: Key ensures k in a <==> k in b { assert Lookup(a, k) == Lookup(b, k); }
      forall k | k in a && k in b ensures a[k] == b[k] { assert Lookup(a, k) == Lookup(b, k); }
      assert a == b;
    }
  }

  /** Two echoes newer than a locally inserted own entry leave it differently in
      the two orders if and only if their versions are consecutive. */
  lemma OwnEchoOrderExactly(strategy: Strategy, host: Host, k: Key, known: VEntry, e: VEntry, f: VEntry)
    requires Counting(strategy) && OwnGuarded(strategy, host, known)
    requires e.version > known.version && f.version > known.version
    ensures VMergeAll(strategy, host, map[k := known], [map[k := e], map[k := f]])
            != VMergeAll(strategy, host, map[k := known], [map[k := f], map[k := e]])
       <==> e.version == f.version + 1 || f.version == e.version + 1
  {
    var s, a, b: VState := map[k := known], map[k := e], map[k := f];
    VMergePair(strategy, host, s, a, b);
    VMergePair(strategy, host, s, b, a);
    VSwapExactly(strategy, host, s, a, b);
    assert VMatters(strategy, host, s, a, b, k) <==> e.version == f.version + 1 || f.version == e.version + 1;
  }

  // ------------------------------------------------- what a list merges to

  /** Some state of the pool holds e under k, local origin aside. */
  ghost predicate VHeld(pool: seq<VState>, k: Key, e: VEntry) {
    exists s :: s in pool && k in s && Adopted(s[k]) == e
  }

  /** e is a copy with the highest (version, TTL) of its key. */
  ghost predicate VTop(pool: seq<VState>, k: Key, e: VEntry) {
    VHeld(pool, k, e) && forall f :: VHeld(pool, k, f) ==> NoNewer(f, e)
  }

  /** r holds, for exactly the keys of the pool, a top entry of the pool. */
  ghost predicate VIsTop(pool: seq<VState>, r: VState) {
    && (forall k :: k in r ==> VTop(pool, k, r[k]))
    && (forall k, e :: VHeld(pool, k, e) ==> k in r)
  }

  predicate NoLocal(state: VState) {
    forall k :: k in state ==> !state[k].local
  }

  ghost predicate RecoveryFree(strategy: Strategy, host: Host, state: VState, slices: seq<VState>) {
    forall k :: !Overtaken(strategy, host, state, slices, k)
  }

  lemma VHeldSnoc(pool: seq<VState>, last: VState, k: Key, e: VEntry)
    ensures VHeld(pool + [last], k, e) <==> VHeld(pool, k, e) || (k in last && Adopted(last[k]) == e)
  {
  }

  lemma {:induction false} LeaderIsTop(state: VState, slices: seq<VState>, k: Key)
    requires NoLocal(state)
    ensures var leader := Leader(state, slices, k);
            && (leader.Some? ==> VTop([state] + slices, k, leader.value))
            && (forall e :: VHeld([state] + slices, k, e) ==> leader.Some?)
    decreases |slices|
  {
    if slices == [] {
      assert k in state ==> Adopted(state[k]) == state[k];
      assert state in [state] + slices;
    } else {
      var front, last := slices[..|slices| - 1], slices[|slices| - 1];
      LeaderIsTop(state, front, k);
      assert [state] + slices == [state] + front + [last];
      forall e ensures VHeld([state] + slices, k, e)
                  <==> VHeld([state] + front, k, e) || (k in last && Adopted(last[k]) == e) {
        VHeldSnoc([state] + front, last, k, e);
      }
    }
  }

  lemma TopAt(strategy: Strategy, host: Host, state: VState, slices: seq<VState>, k: Key)
    requires Counting(strategy) && NoLocal(state) && !Overtaken(strategy, host, state, slices, k)
    ensures var r := VMergeAll(strategy, host, state, slices);
            && (k in r ==> VTop([state] + slices, k, r[k]))
            && (forall e :: VHeld([state] + slices, k, e) ==> k in r)
  {
    RecoveryExactly(strategy, host, state, slices, k);
    LeaderIsTop(state, slices, k);
  }

  /** A recovery-free list merges to the newest entry of everything seen. */
  lemma VMergeAllIsTop(strategy: Strategy, host: Host, state: VState, slices: seq<VState>)
    requires Counting(strategy) && NoLocal(state) && RecoveryFree(strategy, host, state, slices)
    ensures VIsTop([state] + slices, VMergeAll(strategy, host, state, slices))
  {
    var r := VMergeAll(strategy, host, state, slices);
    forall k | k in r ensures VTop([state] + slices, k, r[k]) {
      TopAt(strategy, host, state, slices, k);
    }
    forall k, e | VHeld([state] + slices, k, e) ensures k in r {
      TopAt(strategy, host, state, slices, k);
    }
  }

  /** At the end of the list the node holds an entry it has lifted itself: since
      its last recovery it neither took a copy over nor heard the very entry. */
  predicate LeapStands(strategy: Strategy, host: Host, state: VState, slices: seq<VState>, k: Key)
    decreases |slices|
  {
    slices != [] &&
    (var front, last := slices[..|slices| - 1], slices[|slices| - 1];
     var held := VMergeAll(strategy, host, state, front);
     if k in held && k in last then
       || RecoveryApplies(strategy, host, true, held[k], last[k])
       || (LeapStands(strategy, host, state, front, k) && Heard(strategy, host, held[k], last[k]) != Adopted(last[k]))
     else LeapStands(strategy, host, state, front, k))
  }

  /** What is held beside what has been seen: nothing seen is newer, and it is one
      of the copies seen unless it was lifted. */
  ghost predicate Holding(pool: seq<VState>, k: Key, host: Host, r: VEntry, lifted: bool) {
    && !r.local
    && (forall e :: VHeld(pool, k, e) ==> NoNewer(e, r))
    && (if lifted then r.author == host && !VHeld(pool, k, r) else VHeld(pool, k, r))
  }

  lemma HoldingMore(strategy: Strategy, host: Host, pool: seq<VState>, last: VState, k: Key, held: VEntry, lifted: bool)
    requires Counting(strategy) && Holding(pool, k, host, held, lifted) && k in last
    ensures var r := Heard(strategy, host, held, last[k]);
            Holding(pool + [last], k, host, r,
                    RecoveryApplies(strategy, host, true, held, last[k]) || (lifted && r != Adopted(last[k])))
  {
    forall e ensures VHeld(pool + [last], k, e) <==> VHeld(pool, k, e) || Adopted(last[k]) == e {
      VHeldSnoc(pool, last, k, e);
    }
  }

  /** The same along a list. */
  lemma {:induction false} ListHolding(strategy: Strategy, host: Host, state: VState, slices: seq<VState>, k: Key)
    requires Counting(strategy) && NoLocal(state)
    ensures var r := VMergeAll(strategy, host, state, slices);
            if k in r then Holding([state] + slices, k, host, r[k], LeapStands(strategy, host, state, slices, k))
            else !LeapStands(strategy, host, state, slices, k) && forall e :: !VHeld([state] + slices, k, e)
    decreases |slices|
  {
    if slices == [] {
      assert k in state ==> Adopted(state[k]) == state[k];
      assert state in [state] + slices;
    } else {
      var front, last := slices[..|slices| - 1], slices[|slices| - 1];
      assert slices == front + [last] && [state] + slices == [state] + front + [last];
      ListHolding(strategy, host, state, front, k);
      VMergeAllSnoc(strategy, host, state, front, last);
      var held := VMergeAll(strategy, host, state, front);
      forall e ensures VHeld([state] + slices, k, e)
                  <==> VHeld([state] + front, k, e) || (k in last && Adopted(last[k]) == e) {
        VHeldSnoc([state] + front, last, k, e);
      }
      if k in held && k in last {
        HoldingMore(strategy, host, [state] + front, last, k, held[k], LeapStands(strategy, host, state, front, k));
      }
    }
  }

  ghost predicate NoLeapStands(strategy: Strategy, host: Host, state: VState, slices: seq<VState>) {
    forall k :: !LeapStands(strategy, host, state, slices, k)
  }

  lemma TopUnlifted(strategy: Strategy, host: Host, state: VState, slices: seq<VState>, k: Key)
    requires Counting(strategy) && NoLocal(state)
    requires VIsTop([state] + slices, VMergeAll(strategy, host, state, slices))
    ensures !LeapStands(strategy, host, state, slices, k)
  {
    ListHolding(strategy, host, state, slices, k);
  }

  lemma UnliftedTop(strategy: Strategy, host: Host, state: VState, slices: seq<VState>)
    requires Counting(strategy) && NoLocal(state) && NoLeapStands(strategy, host, state, slices)
    ensures VIsTop([state] + slices, VMergeAll(strategy, host, state, slices))
  {
    var r := VMergeAll(strategy, host, state, slices);
    forall k | k in r ensures VTop([state] + slices, k, r[k]) {
      ListHolding(strategy, host, state, slices, k);
    }
    forall k, e | VHeld([state] + slices, k, e) ensures k in r {
      ListHolding(strategy, host, state, slices, k);
    }
  }

  /** From a state without local inserts, any list merges to the newest entry of
      everything seen if and only if no key ends with an entry the node lifted. */
  lemma NewestExactly(strategy: Strategy, host: Host, state: VState, slices: seq<VState>)
    requires Counting(strategy) && NoLocal(state)
    ensures VIsTop([state] + slices, VMergeAll(strategy, host, state, slices))
       <==> NoLeapStands(strategy, host, state, slices)
  {
    if VIsTop([state] + slices, VMergeAll(strategy, host, state, slices)) {
      forall k: Key ensures !LeapStands(strategy, host, state, slices, k) {
        TopUnlifted(strategy, host, state, slices, k);
      }
    }
    if NoLeapStands(strategy, host, state, slices) {
      UnliftedTop(strategy, host, state, slices);
    }
  }

  /** A copy that can replace an own entry lifted above e, or that is this entry. */
  predicate Rescues(h: VEntry, e: VEntry, f: VEntry) {
    h.version < e.version && f.version == e.version + 1 && (f.ttl > h.ttl || f == h.(version := f.version))
  }

  ghost predicate NoRescue(host: Host, pool: seq<VState>, k: Key) {
    forall h, e, f :: VHeld(pool, k, h) && h.author == host && VHeld(pool, k, e) && VHeld(pool, k, f) ==>
      !Rescues(h, e, f)
  }

  /** r is an own copy lifted above e. */
  ghost predicate Lifts(pool: seq<VState>, k: Key, host: Host, r: VEntry, h: VEntry, e: VEntry) {
    && VHeld(pool, k, h) && h.author == host && VHeld(pool, k, e) && h.version < e.version
    && r == h.(version := e.version + 1)
  }

  lemma {:induction false} LiftedStays(host: Host, state: VState, all: seq<VState>, slices: seq<VState>, k: Key)
    returns (h: VEntry, e: VEntry)
    requires NoLocal(state) && NoRescue(host, all, k) && Overtaken(V2, host, state, slices, k)
    requires forall x :: VHeld([state] + slices, k, x) ==> VHeld(all, k, x)
    ensures LeapStands(V2, host, state, slices, k)
    ensures var r := VMergeAll(V2, host, state, slices); k in r && Lifts(all, k, host, r[k], h, e)
    decreases |slices|
  {
    var front, last := slices[..|slices| - 1], slices[|slices| - 1];
    assert slices == front + [last] && [state] + slices == [state] + front + [last];
    forall x ensures VHeld([state] + slices, k, x)
                <==> VHeld([state] + front, k, x) || (k in last && Adopted(last[k]) == x) {
      VHeldSnoc([state] + front, last, k, x);
    }
    VMergeAllSnoc(V2, host, state, front, last);
    if Overtaken(V2, host, state, front, k) {
      h, e := LiftedStays(host, state, all, front, k);
      var held := VMergeAll(V2, host, state, front);
      if k in last && last[k].version > held[k].version {
        e := Adopted(last[k]);
      } else if k in last {
        assert !Rescues(h, e, Adopted(last[k]));
      }
    } else {
      RecoveryExactly(V2, host, state, front, k);
      LeaderIsTop(state, front, k);
      h, e := Leader(state, front, k).value, Adopted(last[k]);
    }
  }

  /** Where no copy can rescue a lifted entry, a v2 list merges to the newest of
      everything seen if and only if no own leader is overtaken. */
  lemma NewestWithoutRescue(host: Host, state: VState, slices: seq<VState>)
    requires NoLocal(state) && forall k :: NoRescue(host, [state] + slices, k)
    ensures VIsTop([state] + slices, VMergeAll(V2, host, state, slices)) <==> RecoveryFree(V2, host, state, slices)
  {
    if RecoveryFree(V2, host, state, slices) {
      VMergeAllIsTop(V2, host, state, slices);
    }
    if VIsTop([state] + slices, VMergeAll(V2, host, state, slices)) {
      forall k: Key ensures !Overtaken(V2, host, state, slices, k) {
        TopUnlifted(V2, host, state, slices, k);
        if Overtaken(V2, host, state, slices, k) {
          var h, e := LiftedStays(host, state, [state] + slices, slices, k);
        }
      }
    }
  }

  /** A rescue: of three consecutive own echoes with more TTL on the third, v2
      recovers at the second and still ends with the third. */
  lemma ThirdEchoRescues(host: Host, k: Key, first: VEntry, second: VEntry, third: VEntry)
    requires first.author == host && third.ttl > first.ttl
    requires second.version == first.version + 1 && third.version == second.version + 1
    ensures var a, b, c: VState := map[k := first], map[k := second], map[k := third];
            && Overtaken(V2, host, map[], [a, b], k) && Overtaken(V2, host, map[], [a, b, c], k)
            && VMergeAll(V2, host, map[], [a, b, c]) == map[k := Adopted(third)]
  {
    var a, b, c: VState := map[k := first], map[k := second], map[k := third];
    EchoResurrection(host, k, first, second);
    VMergeAllSnoc(V2, host, map[], [a, b], c);
    assert [a, b] + [c] == [a, b, c];
    var lifted: VState := map[k := Adopted(first).(version := third.version)];
    assert VMergeAll(V2, host, map[], [a, b]) == lifted;
    assert VMerge(V2, host, true, lifted, c) == map[k := Adopted(third)];
    assert [a, b][..1] == [a] && [a][..0] == [] && [a, b, c][..2] == [a, b];
    assert Leader(map[], [], k) == None;
    assert Leader(map[], [a], k) == Some(Adopted(first));
    assert Overtaken(V2, host, map[], [a, b], k);
  }

  // ------------------------------------------- when a list is recovery-free

  /** The version of the copy of k that was there first. */
  function FirstVersion(pool: seq<VState>, k: Key): Option<int>
    decreases |pool|
  {
    if pool == [] then None
    else
      var first, last := FirstVersion(pool[..|pool| - 1], k), pool[|pool| - 1];
      if first.None? && k in last then Some(last[k].version) else first
  }

  /** No copy of k is newer than the one that was there first. */
  predicate FirstNewest(pool: seq<VState>, k: Key) {
    forall s: VState :: s in pool && k in s ==>
      FirstVersion(pool, k).Some? && s[k].version <= FirstVersion(pool, k).value
  }

  predicate Foreign(host: Host, pool: seq<VState>, k: Key) {
    forall s: VState :: s in pool && k in s ==> s[k].author != host
  }

  lemma {:induction false} FirstLeads(host: Host, state: VState, slices: seq<VState>, k: Key)
    requires FirstNewest([state] + slices, k)
    ensures !Overtaken(V2, host, state, slices, k)
    ensures var leader, first := Leader(state, slices, k), FirstVersion([state] + slices, k);
            (leader.Some? <==> first.Some?) && (leader.Some? ==> leader.value.version == first.value)
    decreases |slices|
  {
    var pool := [state] + slices;
    assert pool[|pool| - 1] in pool;
    if slices == [] {
      assert pool[..0] == [] && FirstVersion([], k) == None;
    } else {
      var front, last := slices[..|slices| - 1], slices[|slices| - 1];
      assert pool[..|pool| - 1] == [state] + front;
      forall s: VState | s in [state] + front && k in s
        ensures FirstVersion([state] + front, k).Some? && s[k].version <= FirstVersion([state] + front, k).value
      {
        FirstFound([state] + front, s, k);
        assert s in pool;
      }
      FirstLeads(host, state, front, k);
    }
  }

  lemma {:induction false} FirstFound(pool: seq<VState>, s: VState, k: Key)
    requires s in pool && k in s
    ensures FirstVersion(pool, k).Some?
    decreases |pool|
  {
    var front, last := pool[..|pool| - 1], pool[|pool| - 1];
    assert pool == front + [last];
    if s in front {
      FirstFound(front, s, k);
    }
  }

  lemma {:induction false} ForeignLeads(host: Host, state: VState, slices: seq<VState>, k: Key)
    requires Foreign(host, [state] + slices, k)
    ensures !Overtaken(V2, host, state, slices, k)
    ensures Leader(state, slices, k).Some? ==> Leader(state, slices, k).value.author != host
    decreases |slices|
  {
    assert state in [state] + slices;
    if slices != [] {
      var front, last := slices[..|slices| - 1], slices[|slices| - 1];
      assert slices == front + [last];
      ForeignLeads(host, state, front, k);
    }
  }

  lemma {:induction false} NoLocalLeads(host: Host, state: VState, slices: seq<VState>, k: Key)
    requires NoLocal(state)
    ensures !Overtaken(V2r, host, state, slices, k)
    ensures Leader(state, slices, k).Some? ==> !Leader(state, slices, k).value.local
    decreases |slices|
  {
    if slices != [] {
      NoLocalLeads(host, state, slices[..|slices| - 1], k);
    }
  }

  /** Without local inserts v2r never recovers; v2 does not at a key of which
      there is no own copy, or none newer than the first. */
  lemma RecoveryFreeWhen(strategy: Strategy, host: Host, state: VState, slices: seq<VState>)
    requires Counting(strategy) && NoLocal(state)
    requires strategy.V2? ==> forall k :: Foreign(host, [state] + slices, k) || FirstNewest([state] + slices, k)
    ensures RecoveryFree(strategy, host, state, slices)
  {
    forall k: Key ensures !Overtaken(strategy, host, state, slices, k) {
      if strategy.V2r? {
        NoLocalLeads(host, state, slices, k);
      } else if Foreign(host, [state] + slices, k) {
        ForeignLeads(host, state, slices, k);
      } else {
        FirstLeads(host, state, slices, k);
      }
    }
  }

  /** A rebooted v2 node hearing two echoes of its own ends with a newest one if
      and only if the second is not newer than the first. */
  lemma TwoEchoesExactly(host: Host, k: Key, first: VEntry, second: VEntry)
    requires first.author == host && second.author == host
    ensures var a, b: VState := map[k := first], map[k := second];
            VIsTop([map[], a, b], VMergeAll(V2, host, map[], [a, b])) <==> first.version >= second.version
  {
    var a, b: VState := map[k := first], map[k := second];
    var none: VState := map[];
    assert [none] + [a, b] == [none, a, b];
    if first.version < second.version {
      EchoResurrection(host, k, first, second);
      var r := VMergeAll(V2, host, map[], [a, b]);
      assert k in r && !VHeld([map[], a, b], k, r[k]);
    } else {
      assert [none, a, b][..2] == [none, a] && [none, a][..1] == [none] && [none][..0] == [];
      assert FirstVersion([], k) == None;
      assert FirstVersion([none], k) == None;
      assert FirstVersion([none, a], k) == Some(first.version);
      forall x: Key ensures Foreign(host, [map[]] + [a, b], x) || FirstNewest([map[]] + [a, b], x) { }
      RecoveryFreeWhen(V2, host, map[], [a, b]);
      VMergeAllIsTop(V2, host, map[], [a, b]);
    }
  }

  // ---------------------------------------------------- order independence

  /** Under v2 own copies have the newest version, and no key has two different
      top copies. */
  ghost predicate VSettled(strategy: Strategy, host: Host, pool: seq<VState>) {
    && (strategy.V2? ==> OwnNewest(host, pool))
    && forall k, e, f :: VTop(pool, k, e) && VTop(pool, k, f) ==> e == f
  }

  ghost predicate OwnNewest(host: Host, pool: seq<VState>) {
    forall k, e, f :: VHeld(pool, k, e) && e.author == host && VHeld(pool, k, f) ==> f.version <= e.version
  }

  lemma {:induction false} OwnNewestLeads(host: Host, state: VState, slices: seq<VState>, k: Key)
    requires NoLocal(state) && OwnNewest(host, [state] + slices)
    ensures !Overtaken(V2, host, state, slices, k)
    decreases |slices|
  {
    if slices != [] {
      var front, last := slices[..|slices| - 1], slices[|slices| - 1];
      var pool := [state] + slices;
      assert pool == [state] + front + [last];
      forall x, e | VHeld([state] + front, x, e) ensures VHeld(pool, x, e) {
        VHeldSnoc([state] + front, last, x, e);
      }
      OwnNewestLeads(host, state, front, k);
      LeaderIsTop(state, front, k);
      if k in last {
        VHeldSnoc([state] + front, last, k, Adopted(last[k]));
      }
    }
  }

  lemma VSamePool(state: VState, slices: seq<VState>, permuted: seq<VState>)
    requires multiset(slices) == multiset(permuted)
    ensures forall k, e :: VHeld([state] + slices, k, e) <==> VHeld([state] + permuted, k, e)
  {
    SameMembers(slices, permuted);
  }

  lemma SettledIsTop(strategy: Strategy, host: Host, state: VState, slices: seq<VState>)
    requires Counting(strategy) && NoLocal(state) && VSettled(strategy, host, [state] + slices)
    ensures VIsTop([state] + slices, VMergeAll(strategy, host, state, slices))
  {
    forall k: Key ensures !Overtaken(strategy, host, state, slices, k) {
      if strategy.V2? {
        OwnNewestLeads(host, state, slices, k);
      } else {
        NoLocalLeads(host, state, slices, k);
      }
    }
    VMergeAllIsTop(strategy, host, state, slices);
  }

  lemma VTopUnique(strategy: Strategy, host: Host, pool: seq<VState>, other: seq<VState>, r: VState, r': VState)
    requires VSettled(strategy, host, pool) && VIsTop(pool, r) && VIsTop(other, r')
    requires forall k, e :: VHeld(pool, k, e) <==> VHeld(other, k, e)
    ensures r == r'
  {
    forall k | k in r' ensures k in r && r[k] == r'[k] {
      assert VTop(pool, k, r'[k]);
    }
  }

  /** From a state without local inserts settled slices merge to the same state
      in every order; under v2r this includes a rebooted node's own echoes. */
  lemma VOrderIndependence(strategy: Strategy, host: Host, state: VState, slices: seq<VState>, permuted: seq<VState>)
    requires Counting(strategy) && NoLocal(state)
    requires multiset(slices) == multiset(permuted) && VSettled(strategy, host, [state] + slices)
    ensures VMergeAll(strategy, host, state, slices) == VMergeAll(strategy, host, state, permuted)
  {
    VSamePool(state, slices, permuted);
    SettledIsTop(strategy, host, state, slices);
    forall k, e | VTop([state] + permuted, k, e) ensures VTop([state] + slices, k, e) { }
    SettledIsTop(strategy, host, state, permuted);
    VTopUnique(strategy, host, [state] + slices, [state] + permuted,
               VMergeAll(strategy, host, state, slices), VMergeAll(strategy, host, state, permuted));
  }
}
