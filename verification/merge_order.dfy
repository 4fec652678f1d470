/**
 Merging slices in one order or another: exactly when the order of two slices
 shows, and what a list of slices merges to without mentioning its order.
 */
module MergeOrder {
  import opened Store
  import opened Permutations

  function MergeAll(rule: Rule, host: Host, state: State, slices: seq<State>): State
    decreases |slices|
  {
    if slices == [] then state
    else MergeAll(rule, host, Merge(rule, host, true, state, slices[0]), slices[1..])
  }

  // ----------------------------------------------------------- two slices

  /** Of two different copies heard one after the other with nothing held
      before, which one stays depends on the order. */
  predicate Contest(rule: Rule, host: Host, e: Entry, f: Entry) {
    if e.ttl == f.ttl then rule.Deployed? || (e.author == host <==> f.author == host)
    else if e.ttl < f.ttl then e.author == host
    else f.author == host
  }

  /** A copy that ties a held own entry and lets a fresher one in behind it. */
  predicate OpensDoor(host: Host, known: Entry, e: Entry, f: Entry) {
    e.ttl == known.ttl && (f.ttl == known.ttl || (e.author != host && f.ttl > known.ttl))
  }

  /** The same with an entry held before. */
  predicate ContestOver(rule: Rule, host: Host, known: Entry, e: Entry, f: Entry) {
    if known.author == host then
      rule.Deployed? && (OpensDoor(host, known, e, f) || OpensDoor(host, known, f, e))
    else
      e.ttl >= known.ttl && f.ttl >= known.ttl && Contest(rule, host, e, f)
  }

  /** The two orders of hearing a and b leave different entries under k. */
  predicate Matters(rule: Rule, host: Host, s: State, a: State, b: State, k: Key) {
    && k in a && k in b && a[k] != b[k]
    && if k in s then ContestOver(rule, host, s[k], a[k], b[k]) else Contest(rule, host, a[k], b[k])
  }

  lemma SwapOver(rule: Rule, host: Host, known: Entry, e: Entry, f: Entry)
    requires e != f
    ensures Resolve(rule, host, true, Resolve(rule, host, true, known, e), f)
            == Resolve(rule, host, true, Resolve(rule, host, true, known, f), e)
       <==> !ContestOver(rule, host, known, e, f)
  {
  }

  lemma SwapAt(rule: Rule, host: Host, s: State, a: State, b: State, k: Key)
    ensures AgreeOn(Merge(rule, host, true, Merge(rule, host, true, s, a), b),
                    Merge(rule, host, true, Merge(rule, host, true, s, b), a), k)
       <==> !Matters(rule, host, s, a, b, k)
  {
    var ab, ba := Merge(rule, host, true, s, a), Merge(rule, host, true, s, b);
    if k in s && k in a && k in b && a[k] != b[k] {
      assert ab[k] == Resolve(rule, host, true, s[k], a[k]) && ba[k] == Resolve(rule, host, true, s[k], b[k]);
      SwapOver(rule, host, s[k], a[k], b[k]);
    }
  }

  /** Two slices merge to the same state in both orders if and only if no key of
      theirs matters, whatever was held before. */
  lemma SwapExactly(rule: Rule, host: Host, s: State, a: State, b: State)
    ensures Merge(rule, host, true, Merge(rule, host, true, s, a), b)
            == Merge(rule, host, true, Merge(rule, host, true, s, b), a)
       <==> forall k :: !Matters(rule, host, s, a, b, k)
  {
    forall k: Key
      ensures AgreeOn(Merge(rule, host, true, Merge(rule, host, true, s, a), b),
                      Merge(rule, host, true, Merge(rule, host, true, s, b), a), k)
         <==> !Matters(rule, host, s, a, b, k)
    {
      SwapAt(rule, host, s, a, b, k);
    }
    AgreeEverywhere(Merge(rule, host, true, Merge(rule, host, true, s, a), b),
                    Merge(rule, host, true, Merge(rule, host, true, s, b), a));
  }

  /** A freshly booted author hearing two echoes of its own key keeps the one
      that came first. */
  lemma OwnEchoOrderMatters(rule: Rule, host: Host, k: Key, high: Entry, low: Entry)
    requires high.author == host && low.author == host && high.ttl > low.ttl
    ensures MergeAll(rule, host, map[], [map[k := high], map[k := low]]) == map[k := high]
    ensures MergeAll(rule, host, map[], [map[k := low], map[k := high]]) == map[k := low]
  {
    var h, l: State := map[k := high], map[k := low];
    MergePair(rule, host, map[], h, l);
    MergePair(rule, host, map[], l, h);
  }

  lemma MergePair(rule: Rule, host: Host, s: State, a: State, b: State)
    ensures MergeAll(rule, host, s, [a, b]) == Merge(rule, host, true, Merge(rule, host, true, s, a), b)
  {
    var first := Merge(rule, host, true, s, a);
    assert [a, b][1..] == [b] && [b][1..] == [];
    assert MergeAll(rule, host, first, [b]) == MergeAll(rule, host, Merge(rule, host, true, first, b), []);
  }

  // ---------------------------------------------------------------- lists

  /** Some state of the pool holds e under k. */
  ghost predicate Held(pool: seq<State>, k: Key, e: Entry) {
    exists s :: s in pool && k in s && s[k] == e
  }

  ghost predicate Top(pool: seq<State>, k: Key, e: Entry) {
    Held(pool, k, e) && forall f :: Held(pool, k, f) ==> f.ttl <= e.ttl
  }

  ghost predicate OwnHeld(host: Host, pool: seq<State>, k: Key) {
    exists e :: Held(pool, k, e) && e.author == host
  }

  /** No own-authored copy has less TTL than another copy of its key. */
  ghost predicate OwnOnTop(host: Host, pool: seq<State>) {
    forall k, e :: Held(pool, k, e) && e.author == host ==> Top(pool, k, e)
  }

  /** A highest-TTL copy; the guarded rule puts own ones before the others. */
  ghost predicate Preferred(rule: Rule, host: Host, pool: seq<State>, k: Key, e: Entry) {
    Top(pool, k, e) && (rule.Guarded? && OwnHeld(host, pool, k) ==> e.author == host)
  }

  /** Own copies are on top and no key has two different preferred copies. */
  ghost predicate Settled(rule: Rule, host: Host, pool: seq<State>) {
    && OwnOnTop(host, pool)
    && forall k, e, f :: Preferred(rule, host, pool, k, e) && Preferred(rule, host, pool, k, f) ==> e == f
  }

  /** r holds, for exactly the keys of the pool, a preferred entry of the pool. */
  ghost predicate IsTop(rule: Rule, host: Host, pool: seq<State>, r: State) {
    && (forall k :: k in r ==> Preferred(rule, host, pool, k, r[k]))
    && (forall k, e :: Held(pool, k, e) ==> k in r)
  }

  lemma HeldCons(state: State, slices: seq<State>, k: Key, e: Entry)
    ensures Held([state] + slices, k, e) <==> (k in state && state[k] == e) || Held(slices, k, e)
  {
  }

  lemma HeldHead(state: State, slices: seq<State>, k: Key, e: Entry)
    requires slices != []
    ensures Held([state] + slices, k, e)
       <==> (k in state && state[k] == e) || (k in slices[0] && slices[0][k] == e) || Held(slices[1..], k, e)
  {
  }

  function Rest(rule: Rule, host: Host, state: State, slices: seq<State>): seq<State>
    requires slices != []
  {
    [Merge(rule, host, true, state, slices[0])] + slices[1..]
  }

  /** A merge of the head only drops entries. */
  lemma RestHeld(rule: Rule, host: Host, state: State, slices: seq<State>, k: Key, e: Entry)
    requires slices != [] && Held(Rest(rule, host, state, slices), k, e)
    ensures Held([state] + slices, k, e)
  {
    HeldCons(Merge(rule, host, true, state, slices[0]), slices[1..], k, e);
    HeldHead(state, slices, k, e);
  }

  /** It drops them only behind one that is at least as good. */
  lemma RestCovers(rule: Rule, host: Host, state: State, slices: seq<State>, k: Key, e: Entry) returns (f: Entry)
    requires slices != [] && OwnOnTop(host, [state] + slices) && Held([state] + slices, k, e)
    ensures Held(Rest(rule, host, state, slices), k, f) && e.ttl <= f.ttl
    ensures rule.Guarded? && e.author == host ==> f.author == host
  {
    var mid := Merge(rule, host, true, state, slices[0]);
    HeldHead(state, slices, k, e);
    f := if Held(slices[1..], k, e) then e else mid[k];
    HeldCons(mid, slices[1..], k, f);
    if k in state { HeldHead(state, slices, k, state[k]); }
    if k in slices[0] { HeldHead(state, slices, k, slices[0][k]); }
  }

  lemma RestOwnOnTop(rule: Rule, host: Host, state: State, slices: seq<State>)
    requires slices != [] && OwnOnTop(host, [state] + slices)
    ensures OwnOnTop(host, Rest(rule, host, state, slices))
  {
    var rest := Rest(rule, host, state, slices);
    forall k, e | Held(rest, k, e) ensures Held([state] + slices, k, e) {
      RestHeld(rule, host, state, slices, k, e);
    }
  }

  lemma RestPreferred(rule: Rule, host: Host, state: State, slices: seq<State>, k: Key, e: Entry)
    requires slices != [] && OwnOnTop(host, [state] + slices)
    requires Preferred(rule, host, Rest(rule, host, state, slices), k, e)
    ensures Preferred(rule, host, [state] + slices, k, e)
  {
    RestHeld(rule, host, state, slices, k, e);
    forall f | Held([state] + slices, k, f) ensures f.ttl <= e.ttl {
      var g := RestCovers(rule, host, state, slices, k, f);
    }
    if rule.Guarded? && OwnHeld(host, [state] + slices, k) {
      var f :| Held([state] + slices, k, f) && f.author == host;
      var g := RestCovers(rule, host, state, slices, k, f);
    }
  }

  /** When own copies are on top, merging a list in any order keeps a preferred
      entry of everything seen. */
  lemma {:induction false} MergeAllIsTop(rule: Rule, host: Host, state: State, slices: seq<State>)
    requires OwnOnTop(host, [state] + slices)
    ensures IsTop(rule, host, [state] + slices, MergeAll(rule, host, state, slices))
    decreases |slices|
  {
    var r := MergeAll(rule, host, state, slices);
    if slices == [] {
      assert state in [state] + slices;
    } else {
      RestOwnOnTop(rule, host, state, slices);
      MergeAllIsTop(rule, host, Merge(rule, host, true, state, slices[0]), slices[1..]);
      forall k | k in r ensures Preferred(rule, host, [state] + slices, k, r[k]) {
        RestPreferred(rule, host, state, slices, k, r[k]);
      }
      forall k, e | Held([state] + slices, k, e) ensures k in r {
        var f := RestCovers(rule, host, state, slices, k, e);
      }
    }
  }

  lemma SamePool(state: State, slices: seq<State>, permuted: seq<State>)
    requires multiset(slices) == multiset(permuted)
    ensures forall k, e :: Held([state] + slices, k, e) <==> Held([state] + permuted, k, e)
    ensures forall k, e :: Held(slices, k, e) <==> Held(permuted, k, e)
  {
    SameMembers(slices, permuted);
  }

  lemma TopUnique(rule: Rule, host: Host, pool: seq<State>, other: seq<State>, r: State, r': State)
    requires Settled(rule, host, pool) && IsTop(rule, host, pool, r) && IsTop(rule, host, other, r')
    requires forall k, e :: Held(pool, k, e) <==> Held(other, k, e)
    ensures r == r'
  {
    forall k | k in r' ensures k in r && r[k] == r'[k] {
      assert Preferred(rule, host, pool, k, r'[k]);
    }
  }

  /** Settled slices merge to the same state in every order. */
  lemma OrderIndependence(rule: Rule, host: Host, state: State, slices: seq<State>, permuted: seq<State>)
    requires multiset(slices) == multiset(permuted) && Settled(rule, host, [state] + slices)
    ensures MergeAll(rule, host, state, slices) == MergeAll(rule, host, state, permuted)
  {
    SamePool(state, slices, permuted);
    MergeAllIsTop(rule, host, state, slices);
    MergeAllIsTop(rule, host, state, permuted);
    TopUnique(rule, host, [state] + slices, [state] + permuted,
              MergeAll(rule, host, state, slices), MergeAll(rule, host, state, permuted));
  }
}
