/**
 The replicated TTL store of one data type, as values: entries, the pointwise
 merge of a received slice, expiry ("bleaching") and the clean key-to-data view
 handed to hooks. Every other module builds on these functions.
 */
module Store {

  /** Host names, entry keys and JSON payloads: only their equality matters. */
  type Host(==, !new)
  type Key(==, !new)
  type Data(==, !new)

  datatype Entry = Entry(author: Host, ttl: int, data: Data)

  type State = map<Key, Entry>

  /** Deployed is what nodes run. Guarded wires in the computed but unused
      minimum-update threshold, which asks a remote copy of an own entry for a
      strictly higher TTL. */
  datatype Rule = Deployed | Guarded

  // ---------------------------------------------------------------- merge

  /** The "is remote peer ill?" branch; authorship is judged on the known entry. */
  predicate Ill(host: Host, remote: bool, known: Entry, incoming: Entry) {
    remote && known.author == host && incoming.ttl > known.ttl
  }

  function Threshold(rule: Rule, host: Host, remote: bool, known: Entry): int {
    if rule.Guarded? && remote && known.author == host then known.ttl + 1 else known.ttl
  }

  function Resolve(rule: Rule, host: Host, remote: bool, known: Entry, incoming: Entry): Entry {
    if Ill(host, remote, known, incoming) then known
    else if incoming.ttl >= Threshold(rule, host, remote, known) then incoming
    else known
  }

  function Merge(rule: Rule, host: Host, remote: bool, state: State, slice: State): State {
    map k | k in state.Keys + slice.Keys ::
      if k !in slice then state[k]
      else if k !in state then slice[k]
      else Resolve(rule, host, remote, state[k], slice[k])
  }

  /** What hooks and the CLI see: no authors, no TTLs. */
  function CleanView(state: State): map<Key, Data> {
    map k | k in state :: state[k].data
  }

  /** The keys at which two clean views differ. */
  function Changed(before: State, after: State): set<Key> {
    set k | k in before.Keys + after.Keys &&
            (k !in before || k !in after || before[k].data != after[k].data)
  }

  lemma ChangedIsViewDifference(before: State, after: State)
    ensures Changed(before, after) == {} <==> CleanView(before) == CleanView(after)
  {
    var v, w := CleanView(before), CleanView(after);
    if v == w {
      forall k | k in before.Keys + after.Keys ensures k !in Changed(before, after) {
        assert k in v.Keys && k in w.Keys && v[k] == w[k];
      }
    }
    if Changed(before, after) == {} {
      forall k | k in before.Keys + after.Keys
        ensures k in before && k in after && before[k].data == after[k].data
      {
        assert k !in Changed(before, after);
      }
      assert v == w;
    }
  }

  /** A second identical merge is a no-op and would report zero changes. */
  lemma MergeIdempotent(rule: Rule, host: Host, remote: bool, state: State, slice: State)
    ensures var once := Merge(rule, host, remote, state, slice);
            && Merge(rule, host, remote, once, slice) == once
            && Changed(once, Merge(rule, host, remote, once, slice)) == {}
  {
  }

  lemma MergeOneMoreState(rule: Rule, host: Host, remote: bool, state: State, slice: State, todo: set<Key>, k: Key)
    requires k in todo && k in slice
    ensures Merge(rule, host, remote, Merge(rule, host, remote, state, slice - todo), map[k := slice[k]])
            == Merge(rule, host, remote, state, slice - (todo - {k}))
  {
  }

  /** A merge of keys that a first merge left alone adds its changes to the first's. */
  lemma ChangesAdd(before: State, mid: State, after: State, k: Key)
    requires mid.Keys <= after.Keys <= mid.Keys + {k}
    requires forall x :: x in mid && x != k ==> after[x] == mid[x]
    requires AgreeOn(before, mid, k)
    ensures |Changed(before, after)| == |Changed(before, mid)| + |Changed(mid, after)|
  {
    var first, second := Changed(before, mid), Changed(mid, after);
    assert second <= {k};
    assert k !in first;
    assert Changed(before, after) == first + second;
  }

  /** Taking one more key out of the slice is one more single-key merge, and
      its change to the clean view adds to the changes already made. */
  lemma MergeOneMore(rule: Rule, host: Host, remote: bool, state: State, slice: State, todo: set<Key>, k: Key)
    requires k in todo && k in slice
    ensures var mid := Merge(rule, host, remote, state, slice - todo);
            var after := Merge(rule, host, remote, mid, map[k := slice[k]]);
            && after == Merge(rule, host, remote, state, slice - (todo - {k}))
            && |Changed(state, after)| == |Changed(state, mid)| + |Changed(mid, after)|
  {
    var mid := Merge(rule, host, remote, state, slice - todo);
    MergeOneMoreState(rule, host, remote, state, slice, todo, k);
    ChangesAdd(state, mid, Merge(rule, host, remote, mid, map[k := slice[k]]), k);
  }

  // -------------------------------------------------------------- session

  /** One completed session with nothing in between: the server merges and
      replies with its merged state, then the client merges the reply. */
  function Session(clientHost: Host, serverHost: Host, remote: bool, client: State, server: State): (State, State) {
    var server' := Merge(Deployed, serverHost, remote, server, client);
    (Merge(Deployed, clientHost, remote, client, server'), server')
  }

  predicate AgreeOn(a: State, b: State, k: Key) {
    (k in a <==> k in b) && (k in a && k in b ==> a[k] == b[k])
  }

  lemma AgreeEverywhere(a: State, b: State)
    ensures a == b <==> forall k :: AgreeOn(a, b, k)
  {
    if forall k :: AgreeOn(a, b, k) {
      forall k: Key ensures k in a <==> k in b { assert AgreeOn(a, b, k); }
      forall k | k in a && k in b ensures a[k] == b[k] { assert AgreeOn(a, b, k); }
      assert a == b;
    }
  }

  /** One side holds the key as its own while the other side has more TTL for it. */
  predicate Lockout(clientHost: Host, serverHost: Host, client: State, server: State, k: Key) {
    && k in client && k in server
    && (Ill(serverHost, true, server[k], client[k]) || Ill(clientHost, true, client[k], server[k]))
  }

  lemma SessionOutcome(clientHost: Host, serverHost: Host, client: State, server: State, k: Key)
    ensures var (c, s) := Session(clientHost, serverHost, true, client, server);
            AgreeOn(c, s, k) <==> !Lockout(clientHost, serverHost, client, server, k)
  {
  }

  lemma LoopbackSessionAgrees(clientHost: Host, serverHost: Host, client: State, server: State)
    ensures var (c, s) := Session(clientHost, serverHost, false, client, server); c == s
  {
  }

  // --------------------------------------------------------------- bleach

  function Expired(state: State, elapsed: nat): set<Key> {
    set k | k in state && state[k].ttl <= elapsed
  }

  function Bleach(state: State, elapsed: nat): State {
    map k | k in state && state[k].ttl > elapsed :: state[k].(ttl := state[k].ttl - elapsed)
  }

  /** What counts as expired is exactly what a bleach takes out. */
  lemma ExpiredAreGone(state: State, elapsed: nat)
    ensures Expired(state, elapsed) == state.Keys - Bleach(state, elapsed).Keys
    ensures Bleach(state, elapsed).Keys <= state.Keys
    ensures |Expired(state, elapsed)| == |state| - |Bleach(state, elapsed)|
  {
    var kept := Bleach(state, elapsed).Keys;
    assert state.Keys == Expired(state, elapsed) + kept;
    assert |state| == |state.Keys| && |Bleach(state, elapsed)| == |kept|;
  }

  /** A bleach keeps exactly the entries with more TTL than the time, and takes
      nothing but that time from them. */
  lemma BleachKeeps(state: State, elapsed: nat, k: Key)
    requires k in state
    ensures k in Bleach(state, elapsed) <==> elapsed < state[k].ttl
    ensures k in Bleach(state, elapsed) ==>
              var e := Bleach(state, elapsed)[k];
              e.ttl + elapsed == state[k].ttl && e.author == state[k].author && e.data == state[k].data
  {
  }

  function Sum(ds: seq<nat>): nat {
    if ds == [] then 0 else Sum(ds[..|ds| - 1]) + ds[|ds| - 1]
  }

  function BleachAll(state: State, ds: seq<nat>): State {
    if ds == [] then state else Bleach(BleachAll(state, ds[..|ds| - 1]), ds[|ds| - 1])
  }

  function RemovedBy(state: State, ds: seq<nat>): nat {
    if ds == [] then 0
    else RemovedBy(state, ds[..|ds| - 1]) + |Expired(BleachAll(state, ds[..|ds| - 1]), ds[|ds| - 1])|
  }

  lemma BleachTwice(state: State, a: nat, b: nat)
    ensures Bleach(Bleach(state, a), b) == Bleach(state, a + b)
    ensures |Expired(state, a)| + |Expired(Bleach(state, a), b)| == |Expired(state, a + b)|
  {
    var first, second := Expired(state, a), Expired(Bleach(state, a), b);
    assert Expired(state, a + b) == first + second;
    assert first !! second;
  }

  /** Any non-empty sequence of bleaches is one bleach by the total, and the
      reported removals add up to that bleach's removals. */
  lemma {:induction false} BleachAction(state: State, ds: seq<nat>)
    requires ds != []
    ensures BleachAll(state, ds) == Bleach(state, Sum(ds))
    ensures RemovedBy(state, ds) == |Expired(state, Sum(ds))|
  {
    var front, last := ds[..|ds| - 1], ds[|ds| - 1];
    if front == [] {
      assert Sum(front) == 0;
    } else {
      BleachAction(state, front);
      BleachTwice(state, Sum(front), last);
    }
  }

  /** The reported removals of a sequence of bleaches are the loss in size. */
  lemma {:induction false} RemovalsAreLoss(state: State, ds: seq<nat>)
    ensures RemovedBy(state, ds) == |state| - |BleachAll(state, ds)|
  {
    if ds != [] {
      var front := ds[..|ds| - 1];
      RemovalsAreLoss(state, front);
      ExpiredAreGone(BleachAll(state, front), ds[|ds| - 1]);
    }
  }

  /** An own entry that expires while the peer's copy survives. */
  predicate OutlivedOwn(host: Host, state: State, slice: State, elapsed: nat, k: Key) {
    && k in state && k in slice && state[k].author == host
    && state[k].ttl <= elapsed < slice[k].ttl
  }

  /** Expiry commutes with merging except for exactly those own entries. */
  lemma BleachMergeCommute(host: Host, remote: bool, state: State, slice: State, elapsed: nat)
    ensures Bleach(Merge(Deployed, host, remote, state, slice), elapsed)
            == Merge(Deployed, host, remote, Bleach(state, elapsed), Bleach(slice, elapsed))
       <==> !(remote && exists k :: OutlivedOwn(host, state, slice, elapsed, k))
  {
    var l := Bleach(Merge(Deployed, host, remote, state, slice), elapsed);
    var r := Merge(Deployed, host, remote, Bleach(state, elapsed), Bleach(slice, elapsed));
    forall k: Key
      ensures AgreeOn(l, r, k) <==> !(remote && OutlivedOwn(host, state, slice, elapsed, k))
    {
      BleachMergeCommuteAt(host, remote, state, slice, elapsed, k);
    }
    AgreeEverywhere(l, r);
  }

  lemma BleachMergeCommuteAt(host: Host, remote: bool, state: State, slice: State, elapsed: nat, k: Key)
    ensures AgreeOn(Bleach(Merge(Deployed, host, remote, state, slice), elapsed),
                    Merge(Deployed, host, remote, Bleach(state, elapsed), Bleach(slice, elapsed)), k)
       <==> !(remote && OutlivedOwn(host, state, slice, elapsed, k))
  {
    var m := Merge(Deployed, host, remote, state, slice);
    if k in state && k in slice {
      assert m[k] == Resolve(Deployed, host, remote, state[k], slice[k]);
    }
  }
}
