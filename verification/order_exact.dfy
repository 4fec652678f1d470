/**
 Exactly when the order of a list of slices never shows, for any list, over any
 state and under both rules.
 */
module OrderExact {
  import opened Store
  import opened MergeOrder
  import opened Permutations

  lemma {:induction false} MergeAllConcat(rule: Rule, host: Host, state: State, xs: seq<State>, ys: seq<State>)
    ensures MergeAll(rule, host, state, xs + ys) == MergeAll(rule, host, MergeAll(rule, host, state, xs), ys)
    decreases |xs|
  {
    if xs == [] {
      assert xs + ys == ys;
    } else {
      assert (xs + ys)[0] == xs[0] && (xs + ys)[1..] == xs[1..] + ys;
      MergeAllConcat(rule, host, Merge(rule, host, true, state, xs[0]), xs[1..], ys);
    }
  }

  /** An own entry keeps out everything with more TTL. */
  lemma {:induction false} StaysBelow(rule: Rule, host: Host, state: State, slices: seq<State>, k: Key)
    requires k in state && state[k].author == host
    requires forall s: State :: s in slices && k in s ==> s[k].ttl > state[k].ttl
    ensures k in MergeAll(rule, host, state, slices) && MergeAll(rule, host, state, slices)[k] == state[k]
    decreases |slices|
  {
    if slices != [] {
      assert slices[0] in slices;
      StaysBelow(rule, host, Merge(rule, host, true, state, slices[0]), slices[1..], k);
    }
  }

  /** Nothing with at most its TTL changes the TTL held. */
  lemma {:induction false} StaysAt(rule: Rule, host: Host, state: State, slices: seq<State>, k: Key)
    requires k in state && forall s: State :: s in slices && k in s ==> s[k].ttl <= state[k].ttl
    ensures k in MergeAll(rule, host, state, slices) && MergeAll(rule, host, state, slices)[k].ttl == state[k].ttl
    ensures rule.Guarded? && state[k].author == host ==> MergeAll(rule, host, state, slices)[k] == state[k]
    decreases |slices|
  {
    if slices != [] {
      assert slices[0] in slices;
      StaysAt(rule, host, Merge(rule, host, true, state, slices[0]), slices[1..], k);
    }
  }

  predicate Over(s: State, k: Key, ttl: int) {
    k in s && s[k].ttl > ttl
  }

  /** The slices with more than ttl for k, and the others. */
  function Split(slices: seq<State>, k: Key, ttl: int): (r: (seq<State>, seq<State>))
    ensures forall s :: s in r.0 ==> s in slices && Over(s, k, ttl)
    ensures forall s :: s in r.1 ==> s in slices && !Over(s, k, ttl)
    ensures multiset(r.0 + r.1) == multiset(slices)
  {
    if slices == [] then ([], [])
    else
      var (over, rest) := Split(slices[1..], k, ttl);
      assert slices == [slices[0]] + slices[1..];
      if Over(slices[0], k, ttl) then ([slices[0]] + over, rest) else (over, [slices[0]] + rest)
  }

  /** Over what is held, every order of the slices gives the same state. */
  ghost predicate Orderless(rule: Rule, host: Host, state: State, slices: seq<State>) {
    forall p, q :: multiset(p) == multiset(slices) && multiset(q) == multiset(slices) ==>
      MergeAll(rule, host, state, p) == MergeAll(rule, host, state, q)
  }

  /** A copy that comes first, with everything fresher behind it and the rest
      last, decides the TTL if it is own. */
  lemma OwnFirst(rule: Rule, host: Host, slices: seq<State>, i: nat, k: Key) returns (p: seq<State>)
    requires i < |slices| && k in slices[i] && slices[i][k].author == host
    ensures multiset(p) == multiset(slices)
    ensures k in MergeAll(rule, host, map[], p) && MergeAll(rule, host, map[], p)[k].ttl == slices[i][k].ttl
  {
    var (over, rest) := Split(Without(slices, i), k, slices[i][k].ttl);
    p := [slices[i]] + (over + rest);
    WithoutFirst(slices, i);
    SamePrefix(slices[i], over + rest, Without(slices, i));
    assert p[0] == slices[i] && p[1..] == over + rest;
    var first := Merge(rule, host, true, map[], slices[i]);
    StaysBelow(rule, host, first, over, k);
    StaysAt(rule, host, MergeAll(rule, host, first, over), rest, k);
    MergeAllConcat(rule, host, first, over, rest);
  }

  /** A highest copy that comes first decides the TTL; under the guarded rule an
      own one stays. */
  lemma TopFirst(rule: Rule, host: Host, slices: seq<State>, k: Key, e: Entry) returns (p: seq<State>)
    requires Top(slices, k, e)
    ensures multiset(p) == multiset(slices)
    ensures k in MergeAll(rule, host, map[], p) && MergeAll(rule, host, map[], p)[k].ttl == e.ttl
    ensures rule.Guarded? && e.author == host ==> MergeAll(rule, host, map[], p)[k] == e
  {
    var i: nat :| i < |slices| && k in slices[i] && slices[i][k] == e;
    var rest := Without(slices, i);
    WithoutFirst(slices, i);
    p := [slices[i]] + rest;
    assert p[0] == slices[i] && p[1..] == rest;
    forall s: State | s in rest && k in s ensures s[k].ttl <= e.ttl {
      assert s in multiset(slices) && s in slices;
      assert Held(slices, k, s[k]);
    }
    StaysAt(rule, host, Merge(rule, host, true, map[], slices[i]), rest, k);
  }

  /** A preferred copy that comes last stays, unless the guarded rule protects
      an own one. */
  lemma TopLast(rule: Rule, host: Host, slices: seq<State>, k: Key, e: Entry) returns (p: seq<State>)
    requires OwnOnTop(host, slices) && Top(slices, k, e) && (rule.Guarded? ==> !OwnHeld(host, slices, k))
    ensures multiset(p) == multiset(slices)
    ensures k in MergeAll(rule, host, map[], p) && MergeAll(rule, host, map[], p)[k] == e
  {
    var i: nat :| i < |slices| && k in slices[i] && slices[i][k] == e;
    var rest := Without(slices, i);
    WithoutFirst(slices, i);
    p := rest + [slices[i]];
    SameLast(slices[i], rest, rest);
    forall x: Key, f | Held([map[]] + rest, x, f) ensures Held(slices, x, f) {
      HeldCons(map[], rest, x, f);
      var s :| s in rest && x in s && s[x] == f;
      assert s in multiset(slices) && s in slices;
    }
    MergeAllIsTop(rule, host, map[], rest);
    var before := MergeAll(rule, host, map[], rest);
    MergeAllConcat(rule, host, map[], rest, [slices[i]]);
    assert [slices[i]][1..] == [];
    assert MergeAll(rule, host, before, [slices[i]])
        == MergeAll(rule, host, Merge(rule, host, true, before, slices[i]), []);
    if k in before {
      assert Held(slices, k, before[k]);
    }
  }

  lemma {:induction false} TopExists(slices: seq<State>, k: Key, e: Entry) returns (top: Entry)
    requires Held(slices, k, e)
    ensures Top(slices, k, top)
  {
    assert slices == [slices[0]] + slices[1..];
    forall f ensures Held(slices, k, f) <==> (k in slices[0] && slices[0][k] == f) || Held(slices[1..], k, f) {
      HeldCons(slices[0], slices[1..], k, f);
    }
    if f :| Held(slices[1..], k, f) {
      top := TopExists(slices[1..], k, f);
      if k in slices[0] && slices[0][k].ttl > top.ttl {
        top := slices[0][k];
      }
    } else {
      top := e;
    }
  }

  lemma OrderlessOwnOnTop(rule: Rule, host: Host, slices: seq<State>)
    requires Orderless(rule, host, map[], slices)
    ensures OwnOnTop(host, slices)
  {
    forall k, e | Held(slices, k, e) && e.author == host ensures Top(slices, k, e) {
      var top := TopExists(slices, k, e);
      var i: nat :| i < |slices| && k in slices[i] && slices[i][k] == e;
      var p := OwnFirst(rule, host, slices, i, k);
      var q := TopFirst(rule, host, slices, k, top);
      assert MergeAll(rule, host, map[], p) == MergeAll(rule, host, map[], q);
    }
  }

  lemma OrderlessSettled(rule: Rule, host: Host, slices: seq<State>, k: Key, e: Entry, f: Entry)
    requires Orderless(rule, host, map[], slices)
    requires Preferred(rule, host, slices, k, e) && Preferred(rule, host, slices, k, f)
    ensures e == f
  {
    OrderlessOwnOnTop(rule, host, slices);
    var p, q;
    if rule.Guarded? && OwnHeld(host, slices, k) {
      p := TopFirst(rule, host, slices, k, e);
      q := TopFirst(rule, host, slices, k, f);
    } else {
      p := TopLast(rule, host, slices, k, e);
      q := TopLast(rule, host, slices, k, f);
    }
    assert MergeAll(rule, host, map[], p) == MergeAll(rule, host, map[], q);
  }

  /** From nothing, the order of any list of slices never shows if and only if
      the slices are settled. */
  lemma OrderlessFromNothing(rule: Rule, host: Host, slices: seq<State>)
    ensures Orderless(rule, host, map[], slices) <==> Settled(rule, host, slices)
  {
    if Orderless(rule, host, map[], slices) {
      OrderlessOwnOnTop(rule, host, slices);
      forall k, e, f | Preferred(rule, host, slices, k, e) && Preferred(rule, host, slices, k, f) ensures e == f {
        OrderlessSettled(rule, host, slices, k, e, f);
      }
    }
    if Settled(rule, host, slices) {
      EmptyHead(rule, host, slices);
      forall p, q | multiset(p) == multiset(slices) && multiset(q) == multiset(slices)
        ensures MergeAll(rule, host, map[], p) == MergeAll(rule, host, map[], q)
      {
        OrderIndependence(rule, host, map[], slices, p);
        OrderIndependence(rule, host, map[], slices, q);
      }
    }
  }

  lemma EmptyHead(rule: Rule, host: Host, slices: seq<State>)
    requires Settled(rule, host, slices)
    ensures Settled(rule, host, [map[]] + slices)
  {
    forall k, e ensures Held([map[]] + slices, k, e) <==> Held(slices, k, e) {
      HeldCons(map[], slices, k, e);
    }
    forall k, e | Preferred(rule, host, [map[]] + slices, k, e) ensures Preferred(rule, host, slices, k, e) { }
  }

  // ------------------------------------------------ over what is already held

  /** What a slice can bring at keys the node does not hold as its own. */
  function LiveSlice(host: Host, state: State, slice: State): State {
    map k | k in slice && (k in state ==> state[k].author != host && slice[k].ttl >= state[k].ttl) :: slice[k]
  }

  function LivePart(host: Host, state: State): State -> State {
    (slice: State) => LiveSlice(host, state, slice)
  }

  function Live(host: Host, state: State, slices: seq<State>): seq<State> {
    Mapped(LivePart(host, state), slices)
  }

  predicate OwnKey(host: Host, state: State, k: Key) {
    k in state && state[k].author == host
  }

  /** At a key that is not held as own, t is what merging over state gives and u
      what merging the live part from nothing gives. */
  predicate Tracks(state: State, t: State, u: State, k: Key) {
    if k in u then k in t && t[k] == u[k] && (k in state ==> u[k].ttl >= state[k].ttl) else AgreeOn(state, t, k)
  }

  lemma {:induction false} LiveTracks(rule: Rule, host: Host, state: State, t: State, u: State,
          slices: seq<State>, k: Key)
    requires !OwnKey(host, state, k) && Tracks(state, t, u, k)
    ensures Tracks(state, MergeAll(rule, host, t, slices), MergeAll(rule, host, u, Live(host, state, slices)), k)
    decreases |slices|
  {
    if slices != [] {
      var t' := Merge(rule, host, true, t, slices[0]);
      var u' := Merge(rule, host, true, u, LiveSlice(host, state, slices[0]));
      assert Live(host, state, slices)[1..] == Live(host, state, slices[1..]);
      LiveTracks(rule, host, state, t', u', slices[1..], k);
    }
  }

  // ---------------------------------------------------- keys held as own

  /** No two copies of a key held as own open it to each other. */
  ghost predicate DoorlessAt(host: Host, known: Entry, slices: seq<State>, k: Key) {
    forall e, f :: Held(slices, k, e) && Held(slices, k, f) && e != f ==> !OpensDoor(host, known, e, f)
  }

  /** The copy that ties what is held, if there is one, else what is held. */
  ghost predicate TieOrHeld(known: Entry, slices: seq<State>, k: Key, r: Entry) {
    && (forall e :: Held(slices, k, e) && e.ttl == known.ttl ==> r == e)
    && ((forall e :: Held(slices, k, e) ==> e.ttl != known.ttl) ==> r == known)
  }

  lemma {:induction false} GuardedStays(host: Host, state: State, slices: seq<State>, k: Key)
    requires OwnKey(host, state, k)
    ensures var r := MergeAll(Guarded, host, state, slices); k in r && r[k] == state[k]
    decreases |slices|
  {
    if slices != [] {
      GuardedStays(host, Merge(Guarded, host, true, state, slices[0]), slices[1..], k);
    }
  }

  /** An entry stays when all copies are it or lower. */
  lemma {:induction false} EqualOrLower(host: Host, state: State, slices: seq<State>, k: Key)
    requires k in state && forall e :: Held(slices, k, e) ==> e == state[k] || e.ttl < state[k].ttl
    ensures var r := MergeAll(Deployed, host, state, slices); k in r && r[k] == state[k]
    decreases |slices|
  {
    if slices != [] {
      assert k in slices[0] ==> Held(slices, k, slices[0][k]);
      assert forall e :: Held(slices[1..], k, e) ==> Held(slices, k, e);
      EqualOrLower(host, Merge(Deployed, host, true, state, slices[0]), slices[1..], k);
    }
  }

  lemma HeldFirst(slices: seq<State>, k: Key, e: Entry)
    requires slices != []
    ensures Held(slices, k, e) <==> (k in slices[0] && slices[0][k] == e) || Held(slices[1..], k, e)
  {
    assert slices == [slices[0]] + slices[1..];
    HeldCons(slices[0], slices[1..], k, e);
  }

  lemma {:induction false} DoorlessResult(host: Host, state: State, slices: seq<State>, k: Key)
    requires OwnKey(host, state, k) && DoorlessAt(host, state[k], slices, k)
    ensures var r := MergeAll(Deployed, host, state, slices); k in r && TieOrHeld(state[k], slices, k, r[k])
    decreases |slices|
  {
    if slices != [] {
      forall e ensures Held(slices, k, e) <==> (k in slices[0] && slices[0][k] == e) || Held(slices[1..], k, e) {
        HeldFirst(slices, k, e);
      }
      var next := Merge(Deployed, host, true, state, slices[0]);
      if OwnKey(host, next, k) {
        DoorlessResult(host, next, slices[1..], k);
      } else {
        forall e | Held(slices[1..], k, e) ensures e == next[k] || e.ttl < next[k].ttl {
          assert Held(slices, k, next[k]) && Held(slices, k, e);
          assert OpensDoor(host, state[k], next[k], e) <==> e.ttl >= next[k].ttl;
        }
        EqualOrLower(host, next, slices[1..], k);
      }
    }
  }

  lemma {:induction false} TtlClimbs(host: Host, state: State, slices: seq<State>, k: Key)
    requires k in state
    ensures var r := MergeAll(Deployed, host, state, slices); k in r && r[k].ttl >= state[k].ttl
    decreases |slices|
  {
    if slices != [] {
      TtlClimbs(host, Merge(Deployed, host, true, state, slices[0]), slices[1..], k);
    }
  }

  /** A slice last, behind those with more TTL for k and then the others. */
  lemma SplitBefore(slices: seq<State>, i: nat, k: Key, ttl: int) returns (over: seq<State>, rest: seq<State>)
    requires i < |slices|
    ensures multiset((over + rest) + [slices[i]]) == multiset(slices)
    ensures forall s :: s in over ==> Over(s, k, ttl)
    ensures forall s :: s in rest ==> !Over(s, k, ttl)
  {
    var split := Split(Without(slices, i), k, ttl);
    over, rest := split.0, split.1;
    WithoutFirst(slices, i);
    SameLast(slices[i], over + rest, Without(slices, i));
  }

  /** With everything fresher first, a tying copy that comes last stays. */
  lemma TieLast(host: Host, state: State, slices: seq<State>, k: Key, e: Entry) returns (p: seq<State>)
    requires OwnKey(host, state, k) && Held(slices, k, e) && e.ttl == state[k].ttl
    ensures multiset(p) == multiset(slices)
    ensures var r := MergeAll(Deployed, host, state, p); k in r && r[k] == e
  {
    var i: nat :| i < |slices| && k in slices[i] && slices[i][k] == e;
    var over, rest := SplitBefore(slices, i, k, e.ttl);
    p := (over + rest) + [slices[i]];
    StaysBelow(Deployed, host, state, over, k);
    StaysAt(Deployed, host, MergeAll(Deployed, host, state, over), rest, k);
    MergeAllConcat(Deployed, host, state, over, rest);
    MergeAllConcat(Deployed, host, state, over + rest, [slices[i]]);
    var before := MergeAll(Deployed, host, state, over + rest);
    assert [slices[i]][1..] == [];
    assert MergeAll(Deployed, host, before, [slices[i]])
        == MergeAll(Deployed, host, Merge(Deployed, host, true, before, slices[i]), []);
  }

  /** A foreign tying copy first lets a fresher one in. */
  lemma DoorFirst(host: Host, state: State, slices: seq<State>, k: Key, e: Entry, f: Entry) returns (p: seq<State>)
    requires OwnKey(host, state, k) && Held(slices, k, e) && Held(slices, k, f)
    requires e.ttl == state[k].ttl && e.author != host && f.ttl > e.ttl
    ensures multiset(p) == multiset(slices)
    ensures var r := MergeAll(Deployed, host, state, p); k in r && r[k].ttl >= f.ttl
  {
    var s :| s in slices && k in s && s[k] == e;
    var t :| t in slices && k in t && t[k] == f;
    var rest := PairFirst(slices, s, t);
    p := [s, t] + rest;
    var pair := Merge(Deployed, host, true, Merge(Deployed, host, true, state, s), t);
    MergePair(Deployed, host, state, s, t);
    MergeAllConcat(Deployed, host, state, [s, t], rest);
    assert k in pair && pair[k] == f;
    TtlClimbs(host, pair, rest, k);
  }

  lemma OrderlessDoorless(host: Host, state: State, slices: seq<State>, k: Key, e: Entry, f: Entry)
    requires Orderless(Deployed, host, state, slices) && OwnKey(host, state, k)
    requires Held(slices, k, e) && Held(slices, k, f) && OpensDoor(host, state[k], e, f)
    ensures e == f
  {
    var p := TieLast(host, state, slices, k, e);
    var q;
    if f.ttl == e.ttl {
      q := TieLast(host, state, slices, k, f);
    } else {
      q := DoorFirst(host, state, slices, k, e, f);
    }
    assert MergeAll(Deployed, host, state, p) == MergeAll(Deployed, host, state, q);
  }

  // -------------------------------------------------------------- any list

  /** The live part is settled, and under the deployed rule no key held as own is
      opened by a tying copy. */
  ghost predicate SettledOver(rule: Rule, host: Host, state: State, slices: seq<State>) {
    && Settled(rule, host, Live(host, state, slices))
    && (rule.Deployed? ==> forall k :: OwnKey(host, state, k) ==> DoorlessAt(host, state[k], slices, k))
  }

  lemma OrderlessLive(rule: Rule, host: Host, state: State, slices: seq<State>)
    requires Orderless(rule, host, state, slices)
    ensures Orderless(rule, host, map[], Live(host, state, slices))
  {
    var live := Live(host, state, slices);
    forall p', q' | multiset(p') == multiset(live) && multiset(q') == multiset(live)
      ensures MergeAll(rule, host, map[], p') == MergeAll(rule, host, map[], q')
    {
      var p := MappedLifted(LivePart(host, state), slices, p');
      var q := MappedLifted(LivePart(host, state), slices, q');
      assert MergeAll(rule, host, state, p) == MergeAll(rule, host, state, q);
      var u, v := MergeAll(rule, host, map[], p'), MergeAll(rule, host, map[], q');
      forall k: Key ensures AgreeOn(u, v, k) {
        LiveAgreeAt(rule, host, state, p, q, k);
      }
      AgreeEverywhere(u, v);
    }
  }

  /** Where nothing is held as own, two orders agree over the state if and only
      if their live parts agree from nothing. */
  lemma LiveAgreeAt(rule: Rule, host: Host, state: State, p: seq<State>, q: seq<State>, k: Key)
    requires multiset(p) == multiset(q)
    ensures var u := MergeAll(rule, host, map[], Live(host, state, p));
            var v := MergeAll(rule, host, map[], Live(host, state, q));
            if OwnKey(host, state, k) then k !in u && k !in v
            else AgreeOn(u, v, k) <==> AgreeOn(MergeAll(rule, host, state, p), MergeAll(rule, host, state, q), k)
  {
    LiveKeys(rule, host, state, p, k);
    LiveKeys(rule, host, state, q, k);
    if !OwnKey(host, state, k) {
      SameLiveKeys(host, state, p, q, k);
      LiveTracks(rule, host, state, state, map[], p, k);
      LiveTracks(rule, host, state, state, map[], q, k);
    }
  }

  lemma LiveKeys(rule: Rule, host: Host, state: State, slices: seq<State>, k: Key)
    ensures k in MergeAll(rule, host, map[], Live(host, state, slices))
       <==> exists s :: s in slices && k in LiveSlice(host, state, s)
    ensures OwnKey(host, state, k) ==> k !in MergeAll(rule, host, map[], Live(host, state, slices))
  {
    var live := Live(host, state, slices);
    MergeAllKeys(rule, host, map[], live, k);
    if s :| s in slices && k in LiveSlice(host, state, s) {
      var i: nat :| i < |slices| && slices[i] == s;
      assert live[i] in live;
    }
    if l :| l in live && k in l {
      var i: nat :| i < |live| && live[i] == l;
      assert slices[i] in slices;
    }
  }

  lemma SameLiveKeys(host: Host, state: State, p: seq<State>, q: seq<State>, k: Key)
    requires multiset(p) == multiset(q)
    ensures (exists s :: s in p && k in LiveSlice(host, state, s))
       <==> (exists s :: s in q && k in LiveSlice(host, state, s))
  {
    SameMembers(p, q);
  }

  lemma {:induction false} MergeAllKeys(rule: Rule, host: Host, state: State, slices: seq<State>, k: Key)
    ensures k in MergeAll(rule, host, state, slices) <==> k in state || exists s :: s in slices && k in s
    decreases |slices|
  {
    if slices != [] {
      assert slices == [slices[0]] + slices[1..];
      MergeAllKeys(rule, host, Merge(rule, host, true, state, slices[0]), slices[1..], k);
    }
  }

  lemma SettledOrderless(rule: Rule, host: Host, state: State, slices: seq<State>, p: seq<State>)
    requires SettledOver(rule, host, state, slices) && multiset(p) == multiset(slices)
    ensures MergeAll(rule, host, state, p) == MergeAll(rule, host, state, slices)
  {
    OrderlessFromNothing(rule, host, Live(host, state, slices));
    MappedPermuted(LivePart(host, state), p, slices);
    assert MergeAll(rule, host, map[], Live(host, state, p)) == MergeAll(rule, host, map[], Live(host, state, slices));
    SamePool(state, slices, p);
    forall k: Key ensures AgreeOn(MergeAll(rule, host, state, p), MergeAll(rule, host, state, slices), k) {
      if !OwnKey(host, state, k) {
        LiveAgreeAt(rule, host, state, p, slices, k);
      } else if rule.Guarded? {
        GuardedStays(host, state, p, k);
        GuardedStays(host, state, slices, k);
      } else {
        DoorlessResult(host, state, slices, k);
        DoorlessResult(host, state, p, k);
      }
    }
    AgreeEverywhere(MergeAll(rule, host, state, p), MergeAll(rule, host, state, slices));
  }

  /** Over any state and under both rules, the order of any list of slices never
      shows if and only if the slices are settled over the state. */
  lemma OrderlessExactly(rule: Rule, host: Host, state: State, slices: seq<State>)
    ensures Orderless(rule, host, state, slices) <==> SettledOver(rule, host, state, slices)
  {
    if Orderless(rule, host, state, slices) {
      OrderlessLive(rule, host, state, slices);
      OrderlessFromNothing(rule, host, Live(host, state, slices));
      forall k, e, f | rule.Deployed? && OwnKey(host, state, k) && Held(slices, k, e) && Held(slices, k, f) && e != f
        ensures !OpensDoor(host, state[k], e, f)
      {
        if OpensDoor(host, state[k], e, f) {
          OrderlessDoorless(host, state, slices, k, e, f);
        }
      }
    }
    if SettledOver(rule, host, state, slices) {
      forall p, q | multiset(p) == multiset(slices) && multiset(q) == multiset(slices)
        ensures MergeAll(rule, host, state, p) == MergeAll(rule, host, state, q)
      {
        SettledOrderless(rule, host, state, slices, p);
        SettledOrderless(rule, host, state, slices, q);
      }
    }
  }
}
