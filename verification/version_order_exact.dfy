/**
 Exactly when the order of a list of version-counted slices never shows, for any
 list, over any state and under both counting strategies.
 */
module VersionOrderExact {
  import opened Options
  import opened Store
  import opened Versions
  import opened VersionLists
  import opened VersionOrder
  import opened Permutations

  /** Over what is held, every order of the slices gives the same state. */
  ghost predicate VOrderless(strategy: Strategy, host: Host, state: VState, slices: seq<VState>) {
    forall p, q :: multiset(p) == multiset(slices) && multiset(q) == multiset(slices) ==>
      VMergeAll(strategy, host, state, p) == VMergeAll(strategy, host, state, q)
  }

  /** A copy nothing is newer than stays. */
  lemma {:induction false} VStays(strategy: Strategy, host: Host, state: VState, slices: seq<VState>, k: Key)
    requires Counting(strategy) && k in state
    requires forall s: VState :: s in slices && k in s ==> NoNewer(s[k], state[k])
    ensures k in VMergeAll(strategy, host, state, slices) && VMergeAll(strategy, host, state, slices)[k] == state[k]
    decreases |slices|
  {
    if slices != [] {
      assert slices[0] in slices;
      VStays(strategy, host, VMerge(strategy, host, true, state, slices[0]), slices[1..], k);
    }
  }

  lemma VTopFirst(strategy: Strategy, host: Host, slices: seq<VState>, k: Key, e: VEntry) returns (p: seq<VState>)
    requires Counting(strategy) && VTop(slices, k, e)
    ensures multiset(p) == multiset(slices)
    ensures k in VMergeAll(strategy, host, map[], p) && VMergeAll(strategy, host, map[], p)[k] == e
  {
    var i: nat :| i < |slices| && k in slices[i] && Adopted(slices[i][k]) == e;
    var rest := Without(slices, i);
    WithoutFirst(slices, i);
    p := [slices[i]] + rest;
    assert p[0] == slices[i] && p[1..] == rest;
    forall s: VState | s in rest && k in s ensures NoNewer(s[k], e) {
      assert s in multiset(slices) && s in slices;
      assert VHeld(slices, k, Adopted(s[k]));
    }
    VStays(strategy, host, VMerge(strategy, host, true, map[], slices[i]), rest, k);
  }

  /** Under v2 an own copy followed by a newer one ends above everything heard. */
  lemma OvertakenPair(host: Host, s: VState, t: VState, rest: seq<VState>, k: Key)
    requires k in s && s[k].author == host && k in t && t[k].version > s[k].version
    ensures var r := VMergeAll(V2, host, map[], [s, t] + rest); k in r && r[k].version > t[k].version
  {
    var pair := VMerge(V2, host, true, VMerge(V2, host, true, map[], s), t);
    VMergePair(V2, host, map[], s, t);
    VMergeAllConcat(V2, host, map[], [s, t], rest);
    assert k in pair && pair[k].version == t[k].version + 1;
    Domination(V2, host, pair, rest, k);
  }

  lemma OvertakenShows(host: Host, slices: seq<VState>, k: Key, e: VEntry, f: VEntry)
    requires VHeld(slices, k, e) && e.author == host && VTop(slices, k, f) && f.version > e.version
    ensures !VOrderless(V2, host, map[], slices)
  {
    var s :| s in slices && k in s && Adopted(s[k]) == e;
    var t :| t in slices && k in t && Adopted(t[k]) == f;
    var rest := PairFirst(slices, s, t);
    OvertakenPair(host, s, t, rest, k);
    var q := VTopFirst(V2, host, slices, k, f);
    assert VMergeAll(V2, host, map[], [s, t] + rest) != VMergeAll(V2, host, map[], q);
  }

  lemma VTopExists(slices: seq<VState>, k: Key, e: VEntry) returns (top: VEntry)
    requires VHeld(slices, k, e)
    ensures VTop(slices, k, top)
  {
    forall f ensures VHeld([map[]] + slices, k, f) <==> VHeld(slices, k, f) { }
    LeaderIsTop(map[], slices, k);
    top := Leader(map[], slices, k).value;
  }

  lemma VOrderlessSettled(strategy: Strategy, host: Host, slices: seq<VState>)
    requires Counting(strategy) && VOrderless(strategy, host, map[], slices)
    ensures VSettled(strategy, host, slices)
  {
    forall k, e, f | strategy.V2? && VHeld(slices, k, e) && e.author == host && VHeld(slices, k, f)
      ensures f.version <= e.version
    {
      if f.version > e.version {
        var top := VTopExists(slices, k, f);
        OvertakenShows(host, slices, k, e, top);
      }
    }
    forall k, e, f | VTop(slices, k, e) && VTop(slices, k, f) ensures e == f {
      var p := VTopFirst(strategy, host, slices, k, e);
      var q := VTopFirst(strategy, host, slices, k, f);
      assert VMergeAll(strategy, host, map[], p) == VMergeAll(strategy, host, map[], q);
    }
  }

  lemma VEmptyHead(strategy: Strategy, host: Host, slices: seq<VState>)
    requires VSettled(strategy, host, slices)
    ensures VSettled(strategy, host, [map[]] + slices)
  {
    forall k, e ensures VHeld([map[]] + slices, k, e) <==> VHeld(slices, k, e) { }
    forall k, e | VTop([map[]] + slices, k, e) ensures VTop(slices, k, e) { }
  }

  /** From nothing, the order of any list of slices never shows if and only if
      the slices are settled. */
  lemma VOrderlessFromNothing(strategy: Strategy, host: Host, slices: seq<VState>)
    requires Counting(strategy)
    ensures VOrderless(strategy, host, map[], slices) <==> VSettled(strategy, host, slices)
  {
    if VOrderless(strategy, host, map[], slices) {
      VOrderlessSettled(strategy, host, slices);
    }
    if VSettled(strategy, host, slices) {
      VEmptyHead(strategy, host, slices);
      forall p, q | multiset(p) == multiset(slices) && multiset(q) == multiset(slices)
        ensures VMergeAll(strategy, host, map[], p) == VMergeAll(strategy, host, map[], q)
      {
        VOrderIndependence(strategy, host, map[], slices, p);
        VOrderIndependence(strategy, host, map[], slices, q);
      }
    }
  }

  // ------------------------------------------------ over what is already held

  /** k is held as an own entry that a newer version makes recover. */
  predicate GuardedKey(strategy: Strategy, host: Host, state: VState, k: Key) {
    k in state && OwnGuarded(strategy, host, state[k])
  }

  /** What a slice can bring at the other keys. */
  function VLiveSlice(strategy: Strategy, host: Host, state: VState, slice: VState): VState {
    map k | k in slice && !GuardedKey(strategy, host, state, k)
            && (k in state ==> !NoNewer(slice[k], state[k])) :: slice[k]
  }

  function VLivePart(strategy: Strategy, host: Host, state: VState): VState -> VState {
    (slice: VState) => VLiveSlice(strategy, host, state, slice)
  }

  function VLive(strategy: Strategy, host: Host, state: VState, slices: seq<VState>): seq<VState> {
    Mapped(VLivePart(strategy, host, state), slices)
  }

  /** At an unguarded key t is what merging over state gives and u what merging
      the live part from nothing gives. */
  predicate VTracks(state: VState, t: VState, u: VState, k: Key) {
    if k in u then k in t && t[k] == u[k] && (k in state ==> NoNewer(state[k], u[k]))
    else Lookup(t, k) == Lookup(state, k)
  }

  lemma {:induction false} VLiveTracks(strategy: Strategy, host: Host, state: VState, t: VState, u: VState,
          slices: seq<VState>, k: Key)
    requires Counting(strategy) && !GuardedKey(strategy, host, state, k) && VTracks(state, t, u, k)
    ensures VTracks(state, VMergeAll(strategy, host, t, slices),
                    VMergeAll(strategy, host, u, VLive(strategy, host, state, slices)), k)
    decreases |slices|
  {
    if slices != [] {
      var t' := VMerge(strategy, host, true, t, slices[0]);
      var u' := VMerge(strategy, host, true, u, VLiveSlice(strategy, host, state, slices[0]));
      assert VLive(strategy, host, state, slices)[1..] == VLive(strategy, host, state, slices[1..]);
      VLiveTracks(strategy, host, state, t', u', slices[1..], k);
    }
  }

  lemma {:induction false} VMergeAllKeys(strategy: Strategy, host: Host, state: VState, slices: seq<VState>, k: Key)
    ensures k in VMergeAll(strategy, host, state, slices) <==> k in state || exists s :: s in slices && k in s
    decreases |slices|
  {
    if slices != [] {
      assert slices == [slices[0]] + slices[1..];
      VMergeAllKeys(strategy, host, VMerge(strategy, host, true, state, slices[0]), slices[1..], k);
    }
  }

  lemma VLiveKeys(strategy: Strategy, host: Host, state: VState, slices: seq<VState>, k: Key)
    ensures k in VMergeAll(strategy, host, map[], VLive(strategy, host, state, slices))
       <==> exists s :: s in slices && k in VLiveSlice(strategy, host, state, s)
    ensures GuardedKey(strategy, host, state, k) ==>
              k !in VMergeAll(strategy, host, map[], VLive(strategy, host, state, slices))
  {
    var live := VLive(strategy, host, state, slices);
    VMergeAllKeys(strategy, host, map[], live, k);
    if s :| s in slices && k in VLiveSlice(strategy, host, state, s) {
      var i: nat :| i < |slices| && slices[i] == s;
      assert live[i] in live;
    }
    if l :| l in live && k in l {
      var i: nat :| i < |live| && live[i] == l;
      assert slices[i] in slices;
    }
  }

  /** Where nothing is held as own, two orders agree over the state if and only
      if their live parts agree from nothing. */
  lemma VLiveAgreeAt(strategy: Strategy, host: Host, state: VState, p: seq<VState>, q: seq<VState>, k: Key)
    requires Counting(strategy) && multiset(p) == multiset(q)
    ensures var u := VMergeAll(strategy, host, map[], VLive(strategy, host, state, p));
            var v := VMergeAll(strategy, host, map[], VLive(strategy, host, state, q));
            if GuardedKey(strategy, host, state, k) then k !in u && k !in v
            else Lookup(u, k) == Lookup(v, k)
                 <==> Lookup(VMergeAll(strategy, host, state, p), k) == Lookup(VMergeAll(strategy, host, state, q), k)
  {
    VLiveKeys(strategy, host, state, p, k);
    VLiveKeys(strategy, host, state, q, k);
    if !GuardedKey(strategy, host, state, k) {
      SameMembers(p, q);
      VLiveTracks(strategy, host, state, state, map[], p, k);
      VLiveTracks(strategy, host, state, state, map[], q, k);
    }
  }

  // ------------------------------------------------------------ guarded keys

  /** A copy of k with a newer version than what is held. */
  ghost predicate Ahead(known: VEntry, slices: seq<VState>, k: Key, e: VEntry) {
    VHeld(slices, k, e) && e.version > known.version
  }

  ghost predicate Newest(slices: seq<VState>, k: Key, e: VEntry) {
    VHeld(slices, k, e) && forall f :: VHeld(slices, k, f) ==> f.version <= e.version
  }

  /** No tie stands beside a newer copy. */
  ghost predicate NoTieBeside(known: VEntry, slices: seq<VState>, k: Key) {
    forall e, f :: Ahead(known, slices, k, e) && VHeld(slices, k, f) ==> !VTies(known, f)
  }

  /** A newer copy one version above another is neither the newest nor has more
      TTL than what is held. */
  ghost predicate NoHarmfulSuccessor(known: VEntry, slices: seq<VState>, k: Key) {
    forall e, f :: Ahead(known, slices, k, e) && Ahead(known, slices, k, f) && e.version == f.version + 1 ==>
      e.ttl <= known.ttl && !Newest(slices, k, e)
  }

  /** There are no two highest ties. */
  ghost predicate OneTie(known: VEntry, slices: seq<VState>, k: Key) {
    forall e, f :: VTop(slices, k, e) && VTop(slices, k, f) && VTies(known, e) && VTies(known, f) ==> e == f
  }

  ghost predicate GuardedSettled(known: VEntry, slices: seq<VState>, k: Key) {
    NoTieBeside(known, slices, k) && NoHarmfulSuccessor(known, slices, k) && OneTie(known, slices, k)
  }

  /** What a guarded key ends with: the held entry one version above the newest
      copy, or the highest tie, or just the held entry. */
  ghost predicate GuardedResult(known: VEntry, slices: seq<VState>, k: Key, r: VEntry) {
    && (forall e :: Newest(slices, k, e) && e.version > known.version ==> r == known.(version := e.version + 1))
    && (forall e :: VTop(slices, k, e) && VTies(known, e) ==> r == e)
    && ((forall e :: VHeld(slices, k, e) ==> NoNewer(e, known)) ==> r == known)
  }

  /** Halfway through a list with newer copies and no harmful ones. */
  ghost predicate Leapt(known: VEntry, slices: seq<VState>, k: Key, r: VEntry) {
    && r == known.(version := r.version) && r.version >= known.version
    && (forall e :: VHeld(slices, k, e) ==> e.version <= r.version)
    && (r.version == known.version || exists e :: Ahead(known, slices, k, e) && r.version == e.version + 1)
  }

  lemma LeapHeard(strategy: Strategy, host: Host, known: VEntry, held: VEntry, y: VEntry)
    requires Counting(strategy) && OwnGuarded(strategy, host, known)
    requires held == known.(version := held.version) && (y.version == held.version ==> y.ttl <= known.ttl)
    ensures Heard(strategy, host, held, y)
            == if y.version > held.version then known.(version := y.version + 1) else held
  {
  }

  /** A copy that meets its own version has no more TTL than what is held. */
  lemma LeapTie(known: VEntry, all: seq<VState>, front: seq<VState>, k: Key, held: VEntry, y: VEntry, ahead: VEntry)
    requires Ahead(known, all, k, ahead) && NoTieBeside(known, all, k) && NoHarmfulSuccessor(known, all, k)
    requires forall e :: VHeld(front, k, e) ==> VHeld(all, k, e)
    requires Leapt(known, front, k, held) && VHeld(all, k, y) && y.version == held.version
    ensures y.ttl <= known.ttl
  {
    if held.version == known.version {
      assert !VTies(known, y);
    } else {
      var e :| Ahead(known, front, k, e) && held.version == e.version + 1;
      assert Ahead(known, all, k, e) && Ahead(known, all, k, y);
    }
  }

  lemma LeaptMore(known: VEntry, front: seq<VState>, last: VState, k: Key, held: VEntry)
    requires Leapt(known, front, k, held)
    ensures var leaps := k in last && last[k].version > held.version;
            Leapt(known, front + [last], k, if leaps then known.(version := last[k].version + 1) else held)
  {
    forall e ensures VHeld(front + [last], k, e) <==> VHeld(front, k, e) || (k in last && Adopted(last[k]) == e) {
      VHeldSnoc(front, last, k, e);
    }
    if k in last && last[k].version > held.version {
      assert Ahead(known, front + [last], k, Adopted(last[k]));
    } else if e :| Ahead(known, front, k, e) && held.version == e.version + 1 {
      assert Ahead(known, front + [last], k, e);
    }
  }

  lemma {:induction false} LeapsOnly(strategy: Strategy, host: Host, state: VState, all: seq<VState>,
          slices: seq<VState>, k: Key, ahead: VEntry)
    requires Counting(strategy) && GuardedKey(strategy, host, state, k) && Ahead(state[k], all, k, ahead)
    requires NoTieBeside(state[k], all, k) && NoHarmfulSuccessor(state[k], all, k)
    requires forall e :: VHeld(slices, k, e) ==> VHeld(all, k, e)
    ensures var r := VMergeAll(strategy, host, state, slices); k in r && Leapt(state[k], slices, k, r[k])
    decreases |slices|
  {
    if slices != [] {
      var front, last := slices[..|slices| - 1], slices[|slices| - 1];
      assert slices == front + [last];
      forall e | VHeld(front, k, e) ensures VHeld(all, k, e) {
        VHeldSnoc(front, last, k, e);
      }
      LeapsOnly(strategy, host, state, all, front, k, ahead);
      VMergeAllSnoc(strategy, host, state, front, last);
      var held := VMergeAll(strategy, host, state, front);
      if k in last {
        VHeldSnoc(front, last, k, Adopted(last[k]));
        if last[k].version == held[k].version {
          LeapTie(state[k], all, front, k, held[k], Adopted(last[k]), ahead);
        }
        LeapHeard(strategy, host, state[k], held[k], last[k]);
      }
      LeaptMore(state[k], front, last, k, held[k]);
    }
  }

  /** With a newer copy somewhere the held entry ends one above the newest. */
  lemma AheadResult(strategy: Strategy, host: Host, state: VState, slices: seq<VState>, k: Key, ahead: VEntry)
    requires Counting(strategy) && GuardedKey(strategy, host, state, k) && Ahead(state[k], slices, k, ahead)
    requires GuardedSettled(state[k], slices, k)
    ensures var r := VMergeAll(strategy, host, state, slices); k in r && GuardedResult(state[k], slices, k, r[k])
  {
    LeapsOnly(strategy, host, state, slices, slices, k, ahead);
    var known, r := state[k], VMergeAll(strategy, host, state, slices)[k];
    forall e | Newest(slices, k, e) && e.version > known.version ensures r == known.(version := e.version + 1) {
      var f :| Ahead(known, slices, k, f) && r.version == f.version + 1;
      assert Ahead(known, slices, k, e);
    }
  }

  /** Halfway through a list without newer copies. */
  ghost predicate Tied(known: VEntry, slices: seq<VState>, k: Key, r: VEntry) {
    && (r == known || (VHeld(slices, k, r) && VTies(known, r)))
    && (forall e :: VHeld(slices, k, e) && VTies(known, e) ==> r != known && e.ttl <= r.ttl)
  }

  lemma TiedMore(strategy: Strategy, host: Host, known: VEntry, front: seq<VState>, last: VState, k: Key, held: VEntry)
    requires Counting(strategy) && Tied(known, front, k, held) && held.version == known.version
    requires k in last ==> last[k].version <= known.version
    ensures Tied(known, front + [last], k, if k in last then Heard(strategy, host, held, last[k]) else held)
  {
    forall e ensures VHeld(front + [last], k, e) <==> VHeld(front, k, e) || (k in last && Adopted(last[k]) == e) {
      VHeldSnoc(front, last, k, e);
    }
  }

  lemma {:induction false} TiesOnly(strategy: Strategy, host: Host, state: VState, slices: seq<VState>, k: Key)
    requires Counting(strategy) && k in state && forall e :: VHeld(slices, k, e) ==> e.version <= state[k].version
    ensures var r := VMergeAll(strategy, host, state, slices); k in r && Tied(state[k], slices, k, r[k])
    decreases |slices|
  {
    if slices != [] {
      var front, last := slices[..|slices| - 1], slices[|slices| - 1];
      assert slices == front + [last];
      forall e | VHeld(front, k, e) ensures VHeld(slices, k, e) {
        VHeldSnoc(front, last, k, e);
      }
      if k in last {
        VHeldSnoc(front, last, k, Adopted(last[k]));
      }
      TiesOnly(strategy, host, state, front, k);
      VMergeAllSnoc(strategy, host, state, front, last);
      TiedMore(strategy, host, state[k], front, last, k, VMergeAll(strategy, host, state, front)[k]);
    }
  }

  lemma GuardedEnds(strategy: Strategy, host: Host, state: VState, slices: seq<VState>, k: Key)
    requires Counting(strategy) && GuardedKey(strategy, host, state, k) && GuardedSettled(state[k], slices, k)
    ensures var r := VMergeAll(strategy, host, state, slices); k in r && GuardedResult(state[k], slices, k, r[k])
  {
    if ahead :| Ahead(state[k], slices, k, ahead) {
      AheadResult(strategy, host, state, slices, k, ahead);
    } else {
      forall e | VHeld(slices, k, e) ensures e.version <= state[k].version {
        assert !Ahead(state[k], slices, k, e);
      }
      TiesOnly(strategy, host, state, slices, k);
      var r := VMergeAll(strategy, host, state, slices)[k];
      forall e | VTop(slices, k, e) && VTies(state[k], e) ensures r == e {
        assert VTop(slices, k, r);
      }
    }
  }

  /** The result does not depend on anything but the copies. */
  lemma GuardedUnique(known: VEntry, slices: seq<VState>, k: Key, r: VEntry, r': VEntry)
    requires GuardedResult(known, slices, k, r) && GuardedResult(known, slices, k, r')
    ensures r == r'
  {
    if e :| VHeld(slices, k, e) && !NoNewer(e, known) {
      var top := VTopExists(slices, k, e);
      assert NoNewer(e, top);
      if top.version > known.version {
        assert Newest(slices, k, top);
      } else {
        assert VTies(known, top);
      }
    }
  }

  // ------------------------------------------- orders that tell on the rest

  /** Behind a copy nothing is newer than, the version stays, and the entry with
      it if everything is older. */
  lemma {:induction false} VersionStays(strategy: Strategy, host: Host, state: VState, slices: seq<VState>, k: Key)
    requires Counting(strategy) && k in state
    requires forall s: VState :: s in slices && k in s ==> s[k].version <= state[k].version
    ensures var r := VMergeAll(strategy, host, state, slices);
            && k in r && r[k].version == state[k].version
            && ((forall s: VState :: s in slices && k in s ==> s[k].version < state[k].version) ==> r[k] == state[k])
    decreases |slices|
  {
    if slices != [] {
      assert slices[0] in slices;
      VersionStays(strategy, host, VMerge(strategy, host, true, state, slices[0]), slices[1..], k);
    }
  }

  /** No slice of a permutation's rest is newer than the newest copy. */
  lemma RestBelow(slices: seq<VState>, first: seq<VState>, rest: seq<VState>, k: Key, newest: VEntry)
    requires Newest(slices, k, newest) && multiset(first + rest) == multiset(slices)
    ensures forall s: VState :: s in rest && k in s ==> s[k].version <= newest.version
  {
    forall s: VState | s in rest && k in s ensures s[k].version <= newest.version {
      assert s in first + rest && s in multiset(first + rest) && s in multiset(slices) && s in slices;
      assert VHeld(slices, k, Adopted(s[k]));
    }
  }

  /** The newest copy first: a guarded entry ends one above it. */
  lemma NewestFirst(strategy: Strategy, host: Host, state: VState, slices: seq<VState>, k: Key, newest: VEntry)
    returns (p: seq<VState>)
    requires Counting(strategy) && GuardedKey(strategy, host, state, k)
    requires Newest(slices, k, newest) && newest.version > state[k].version
    ensures multiset(p) == multiset(slices)
    ensures var r := VMergeAll(strategy, host, state, p);
            k in r && r[k] == state[k].(version := newest.version + 1)
  {
    var i: nat :| i < |slices| && k in slices[i] && Adopted(slices[i][k]) == newest;
    var rest := Without(slices, i);
    WithoutFirst(slices, i);
    p := [slices[i]] + rest;
    assert p[0] == slices[i] && p[1..] == rest;
    RestBelow(slices, [slices[i]], rest, k, newest);
    VersionStays(strategy, host, VMerge(strategy, host, true, state, slices[i]), rest, k);
  }

  /** An order after whose first slices the entry has the newest version, or one
      more but another TTL, ends elsewhere. */
  lemma Diverges(strategy: Strategy, host: Host, state: VState, slices: seq<VState>, k: Key, newest: VEntry,
          first: seq<VState>, rest: seq<VState>)
    requires Counting(strategy) && GuardedKey(strategy, host, state, k)
    requires Newest(slices, k, newest) && newest.version > state[k].version
    requires multiset(first + rest) == multiset(slices)
    requires var t := VMergeAll(strategy, host, state, first);
             && k in t && newest.version <= t[k].version <= newest.version + 1
             && (t[k].version == newest.version + 1 ==> t[k].ttl != state[k].ttl)
    ensures !VOrderless(strategy, host, state, slices)
  {
    var t := VMergeAll(strategy, host, state, first);
    RestBelow(slices, first, rest, k, newest);
    VersionStays(strategy, host, t, rest, k);
    VMergeAllConcat(strategy, host, state, first, rest);
    var q := NewestFirst(strategy, host, state, slices, k, newest);
    assert VMergeAll(strategy, host, state, first + rest) != VMergeAll(strategy, host, state, q);
  }

  lemma NewestExists(known: VEntry, slices: seq<VState>, k: Key, e: VEntry) returns (newest: VEntry)
    requires Ahead(known, slices, k, e)
    ensures Newest(slices, k, newest) && newest.version >= e.version && newest.version > known.version
  {
    newest := VTopExists(slices, k, e);
    assert NoNewer(e, newest);
  }

  lemma SliceOf(slices: seq<VState>, k: Key, e: VEntry) returns (s: VState)
    requires VHeld(slices, k, e)
    ensures s in slices && k in s && Adopted(s[k]) == e
  {
    s :| s in slices && k in s && Adopted(s[k]) == e;
  }

  /** A tie heard before the newest copy takes the entry's place. */
  lemma TieShows(strategy: Strategy, host: Host, state: VState, slices: seq<VState>, k: Key, e: VEntry, f: VEntry)
    requires Counting(strategy) && GuardedKey(strategy, host, state, k)
    requires Ahead(state[k], slices, k, e) && VHeld(slices, k, f) && VTies(state[k], f)
    ensures !VOrderless(strategy, host, state, slices)
  {
    var newest := NewestExists(state[k], slices, k, e);
    var s := SliceOf(slices, k, f);
    var t := SliceOf(slices, k, newest);
    var rest := PairFirst(slices, s, t);
    VMergePair(strategy, host, state, s, t);
    Diverges(strategy, host, state, slices, k, newest, [s, t], rest);
  }

  /** The version before the newest heard first makes the newest a tie. */
  lemma PredecessorShows(strategy: Strategy, host: Host, state: VState, slices: seq<VState>, k: Key,
          e: VEntry, f: VEntry)
    requires Counting(strategy) && GuardedKey(strategy, host, state, k)
    requires Newest(slices, k, e) && Ahead(state[k], slices, k, f) && e.version == f.version + 1
    ensures !VOrderless(strategy, host, state, slices)
  {
    var s := SliceOf(slices, k, f);
    var t := SliceOf(slices, k, e);
    var rest := PairFirst(slices, s, t);
    VMergePair(strategy, host, state, s, t);
    Diverges(strategy, host, state, slices, k, e, [s, t], rest);
  }

  /** A successor with more TTL heard between its predecessor and the newest
      takes the entry's place. */
  lemma SuccessorShows(strategy: Strategy, host: Host, state: VState, slices: seq<VState>, k: Key,
          e: VEntry, f: VEntry, newest: VEntry)
    requires Counting(strategy) && GuardedKey(strategy, host, state, k)
    requires Ahead(state[k], slices, k, e) && Ahead(state[k], slices, k, f) && e.version == f.version + 1
    requires e.ttl > state[k].ttl && Newest(slices, k, newest) && newest.version > e.version
    ensures !VOrderless(strategy, host, state, slices)
  {
    var s := SliceOf(slices, k, f);
    var t := SliceOf(slices, k, e);
    var u := SliceOf(slices, k, newest);
    var rest := ThreeFirst(slices, s, t, u);
    VMergePair(strategy, host, state, s, t);
    VMergeAllSnoc(strategy, host, state, [s, t], u);
    assert [s, t] + [u] == [s, t, u];
    Diverges(strategy, host, state, slices, k, newest, [s, t, u], rest);
  }

  /** Of two highest ties the one heard first stays. */
  lemma TiesShow(strategy: Strategy, host: Host, state: VState, slices: seq<VState>, k: Key, e: VEntry)
    returns (p: seq<VState>)
    requires Counting(strategy) && k in state && VTop(slices, k, e) && VTies(state[k], e)
    ensures multiset(p) == multiset(slices)
    ensures var r := VMergeAll(strategy, host, state, p); k in r && r[k] == e
  {
    var i: nat :| i < |slices| && k in slices[i] && Adopted(slices[i][k]) == e;
    var rest := Without(slices, i);
    WithoutFirst(slices, i);
    p := [slices[i]] + rest;
    assert p[0] == slices[i] && p[1..] == rest;
    forall s: VState | s in rest && k in s ensures NoNewer(s[k], e) {
      assert s in multiset(slices) && s in slices;
      assert VHeld(slices, k, Adopted(s[k]));
    }
    VStays(strategy, host, VMerge(strategy, host, true, state, slices[i]), rest, k);
  }

  lemma OrderlessGuarded(strategy: Strategy, host: Host, state: VState, slices: seq<VState>, k: Key)
    requires Counting(strategy) && VOrderless(strategy, host, state, slices)
    requires GuardedKey(strategy, host, state, k)
    ensures GuardedSettled(state[k], slices, k)
  {
    forall e, f | Ahead(state[k], slices, k, e) && VHeld(slices, k, f) ensures !VTies(state[k], f) {
      if VTies(state[k], f) {
        TieShows(strategy, host, state, slices, k, e, f);
      }
    }
    forall e, f | Ahead(state[k], slices, k, e) && Ahead(state[k], slices, k, f) && e.version == f.version + 1
      ensures e.ttl <= state[k].ttl && !Newest(slices, k, e)
    {
      if Newest(slices, k, e) {
        PredecessorShows(strategy, host, state, slices, k, e, f);
      } else if e.ttl > state[k].ttl {
        var newest := NewestExists(state[k], slices, k, e);
        SuccessorShows(strategy, host, state, slices, k, e, f, newest);
      }
    }
    forall e, f | VTop(slices, k, e) && VTop(slices, k, f) && VTies(state[k], e) && VTies(state[k], f) ensures e == f {
      var p := TiesShow(strategy, host, state, slices, k, e);
      var q := TiesShow(strategy, host, state, slices, k, f);
      assert VMergeAll(strategy, host, state, p) == VMergeAll(strategy, host, state, q);
    }
  }

  // ---------------------------------------------------------------- any list

  /** The live part is settled, and so is every guarded key. */
  ghost predicate VSettledOver(strategy: Strategy, host: Host, state: VState, slices: seq<VState>) {
    && VSettled(strategy, host, VLive(strategy, host, state, slices))
    && forall k :: GuardedKey(strategy, host, state, k) ==> GuardedSettled(state[k], slices, k)
  }

  lemma VOrderlessLive(strategy: Strategy, host: Host, state: VState, slices: seq<VState>)
    requires Counting(strategy) && VOrderless(strategy, host, state, slices)
    ensures VOrderless(strategy, host, map[], VLive(strategy, host, state, slices))
  {
    var live := VLive(strategy, host, state, slices);
    forall p', q' | multiset(p') == multiset(live) && multiset(q') == multiset(live)
      ensures VMergeAll(strategy, host, map[], p') == VMergeAll(strategy, host, map[], q')
    {
      var p := MappedLifted(VLivePart(strategy, host, state), slices, p');
      var q := MappedLifted(VLivePart(strategy, host, state), slices, q');
      assert VMergeAll(strategy, host, state, p) == VMergeAll(strategy, host, state, q);
      var u, v := VMergeAll(strategy, host, map[], p'), VMergeAll(strategy, host, map[], q');
      forall k: Key ensures Lookup(u, k) == Lookup(v, k) {
        VLiveAgreeAt(strategy, host, state, p, q, k);
      }
      LookupEverywhere(u, v);
    }
  }

  lemma GuardedSame(strategy: Strategy, host: Host, state: VState, slices: seq<VState>, p: seq<VState>, k: Key)
    requires Counting(strategy) && GuardedKey(strategy, host, state, k)
    requires GuardedSettled(state[k], slices, k) && multiset(p) == multiset(slices)
    ensures Lookup(VMergeAll(strategy, host, state, p), k) == Lookup(VMergeAll(strategy, host, state, slices), k)
  {
    SameMembers(p, slices);
    forall e ensures VHeld(p, k, e) <==> VHeld(slices, k, e) { }
    GuardedEnds(strategy, host, state, slices, k);
    SameSettled(state[k], slices, p, k);
    GuardedEnds(strategy, host, state, p, k);
    SameResult(state[k], p, slices, k, VMergeAll(strategy, host, state, p)[k]);
    GuardedUnique(state[k], slices, k, VMergeAll(strategy, host, state, p)[k],
                  VMergeAll(strategy, host, state, slices)[k]);
  }

  lemma SameSettled(known: VEntry, slices: seq<VState>, p: seq<VState>, k: Key)
    requires GuardedSettled(known, slices, k) && forall e :: VHeld(p, k, e) <==> VHeld(slices, k, e)
    ensures GuardedSettled(known, p, k)
  {
    forall e ensures Ahead(known, p, k, e) <==> Ahead(known, slices, k, e) { }
    forall e ensures Newest(p, k, e) <==> Newest(slices, k, e) { }
    forall e ensures VTop(p, k, e) <==> VTop(slices, k, e) { }
  }

  lemma SameResult(known: VEntry, p: seq<VState>, slices: seq<VState>, k: Key, r: VEntry)
    requires GuardedResult(known, p, k, r) && forall e :: VHeld(p, k, e) <==> VHeld(slices, k, e)
    ensures GuardedResult(known, slices, k, r)
  {
    forall e ensures Newest(p, k, e) <==> Newest(slices, k, e) { }
    forall e ensures VTop(p, k, e) <==> VTop(slices, k, e) { }
  }

  lemma VSettledOrderless(strategy: Strategy, host: Host, state: VState, slices: seq<VState>, p: seq<VState>)
    requires Counting(strategy) && VSettledOver(strategy, host, state, slices) && multiset(p) == multiset(slices)
    ensures VMergeAll(strategy, host, state, p) == VMergeAll(strategy, host, state, slices)
  {
    VOrderlessFromNothing(strategy, host, VLive(strategy, host, state, slices));
    MappedPermuted(VLivePart(strategy, host, state), p, slices);
    assert VMergeAll(strategy, host, map[], VLive(strategy, host, state, p))
        == VMergeAll(strategy, host, map[], VLive(strategy, host, state, slices));
    forall k: Key
      ensures Lookup(VMergeAll(strategy, host, state, p), k) == Lookup(VMergeAll(strategy, host, state, slices), k)
    {
      if GuardedKey(strategy, host, state, k) {
        GuardedSame(strategy, host, state, slices, p, k);
      } else {
        VLiveAgreeAt(strategy, host, state, p, slices, k);
      }
    }
    LookupEverywhere(VMergeAll(strategy, host, state, p), VMergeAll(strategy, host, state, slices));
  }

  /** Over any state and under both counting strategies, the order of any list of
      slices never shows if and only if the slices are settled over the state. */
  lemma VOrderlessExactly(strategy: Strategy, host: Host, state: VState, slices: seq<VState>)
    requires Counting(strategy)
    ensures VOrderless(strategy, host, state, slices) <==> VSettledOver(strategy, host, state, slices)
  {
    if VOrderless(strategy, host, state, slices) {
      VOrderlessLive(strategy, host, state, slices);
      VOrderlessFromNothing(strategy, host, VLive(strategy, host, state, slices));
      forall k | GuardedKey(strategy, host, state, k) ensures GuardedSettled(state[k], slices, k) {
        OrderlessGuarded(strategy, host, state, slices, k);
      }
    }
    if VSettledOver(strategy, host, state, slices) {
      forall p, q | multiset(p) == multiset(slices) && multiset(q) == multiset(slices)
        ensures VMergeAll(strategy, host, state, p) == VMergeAll(strategy, host, state, q)
      {
        VSettledOrderless(strategy, host, state, slices, p);
        VSettledOrderless(strategy, host, state, slices, q);
      }
    }
  }
}
