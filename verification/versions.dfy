/**
 The four merge strategies of the executable specification over one entry type:
 the two TTL rules and the two version-counter rules. The TTL rules mirror the
 daemon; the version rules are studied here one node and one list at a time.
 */
module Versions {
  import opened Options
  import opened Store

  /** Version 0 is an entry from a node that does not count; local marks an
      entry inserted here since boot. */
  datatype VEntry = VEntry(author: Host, ttl: int, data: Data, version: nat, local: bool)

  type VState = map<Key, VEntry>

  datatype Strategy = V1 | V1i | V2 | V2r

  datatype Kind = Inserted | Replaced | ReplacedTiebreak | Kept | DiscardedIll | Recovered

  datatype MergeResult = MergeResult(significant: nat, allChanges: nat, events: seq<(Kind, Key)>)

  predicate Counting(strategy: Strategy) {
    strategy.V2? || strategy.V2r?
  }

  /** Entries taken from the wire are never of local origin. */
  function Adopted(e: VEntry): VEntry {
    e.(local := false)
  }

  predicate RecoveryApplies(strategy: Strategy, host: Host, remote: bool, known: VEntry, e: VEntry) {
    && remote && known.author == host && e.version > known.version
    && (strategy.V2r? ==> known.local)
  }

  function Classify(strategy: Strategy, host: Host, remote: bool, known: VEntry, e: VEntry): Kind {
    var own := known.author == host;
    if Counting(strategy) then
      if RecoveryApplies(strategy, host, remote, known, e) then Recovered
      else if e.version > known.version then Replaced
      else if e.version == known.version && e.ttl > known.ttl then ReplacedTiebreak
      else Kept
    else if remote && own && e.ttl > known.ttl then DiscardedIll
    else if e.ttl >= (if strategy.V1i? && remote && own then known.ttl + 1 else known.ttl) then Replaced
    else Kept
  }

  function KindAt(strategy: Strategy, host: Host, remote: bool, state: VState, k: Key, e: VEntry): Kind {
    if k in state then Classify(strategy, host, remote, state[k], e) else Inserted
  }

  function Settle(kind: Kind, known: VEntry, e: VEntry): VEntry {
    match kind
    case Inserted => Adopted(e)
    case Replaced => Adopted(e)
    case ReplacedTiebreak => Adopted(e)
    case Kept => known
    case DiscardedIll => known
    case Recovered => known.(version := e.version + 1)
  }

  function VMerge(strategy: Strategy, host: Host, remote: bool, state: VState, slice: VState): VState {
    map k | k in state.Keys + slice.Keys ::
      if k !in slice then state[k]
      else if k !in state then Adopted(slice[k])
      else Settle(Classify(strategy, host, remote, state[k], slice[k]), state[k], slice[k])
  }

  function Strip(state: VState): State {
    map k | k in state :: Entry(state[k].author, state[k].ttl, state[k].data)
  }

  function RuleOf(strategy: Strategy): Rule {
    if strategy.V1i? then Guarded else Deployed
  }

  /** Forgetting versions, the TTL strategies are the daemon's merge. */
  lemma MirrorsDaemon(strategy: Strategy, host: Host, remote: bool, state: VState, slice: VState)
    requires !Counting(strategy)
    ensures Strip(VMerge(strategy, host, remote, state, slice))
            == Merge(RuleOf(strategy), host, remote, Strip(state), Strip(slice))
  {
  }

  lemma VMergeIdempotent(strategy: Strategy, host: Host, remote: bool, state: VState, slice: VState)
    ensures var once := VMerge(strategy, host, remote, state, slice);
            VMerge(strategy, host, remote, once, slice) == once
  {
  }

  // ---------------------------------------------------------- significance

  predicate SignificantAt(strategy: Strategy, host: Host, remote: bool, state: VState, slice: VState, k: Key) {
    k in slice &&
    var kind := KindAt(strategy, host, remote, state, k, slice[k]);
    kind.Inserted? || (kind.Replaced? && k in state && state[k].data != slice[k].data)
  }

  predicate ChangesAt(strategy: Strategy, host: Host, remote: bool, state: VState, slice: VState, k: Key) {
    k in slice &&
    var kind := KindAt(strategy, host, remote, state, k, slice[k]);
    !kind.Kept? && !kind.DiscardedIll?
  }

  function SignificantKeys(strategy: Strategy, host: Host, remote: bool, state: VState, slice: VState): set<Key> {
    set k | k in slice && SignificantAt(strategy, host, remote, state, slice, k)
  }

  function ChangeKeys(strategy: Strategy, host: Host, remote: bool, state: VState, slice: VState): set<Key> {
    set k | k in slice && ChangesAt(strategy, host, remote, state, slice, k)
  }

  /** A tie broken by TTL between different data: the view changes unreported. */
  predicate SilentTiebreak(strategy: Strategy, host: Host, remote: bool, state: VState, slice: VState, k: Key) {
    && k in state && k in slice && state[k].data != slice[k].data
    && Classify(strategy, host, remote, state[k], slice[k]).ReplacedTiebreak?
  }

  /** The reported keys are the changed keys exactly when no tie-break was
      silent; the TTL strategies never have one. */
  lemma SignificanceExact(strategy: Strategy, host: Host, remote: bool, state: VState, slice: VState)
    ensures SignificantKeys(strategy, host, remote, state, slice)
            <= Changed(Strip(state), Strip(VMerge(strategy, host, remote, state, slice)))
    ensures SignificantKeys(strategy, host, remote, state, slice)
            == Changed(Strip(state), Strip(VMerge(strategy, host, remote, state, slice)))
       <==> forall k :: !SilentTiebreak(strategy, host, remote, state, slice, k)
    ensures !Counting(strategy) ==> forall k :: !SilentTiebreak(strategy, host, remote, state, slice, k)
  {
    var reported := SignificantKeys(strategy, host, remote, state, slice);
    var changed := Changed(Strip(state), Strip(VMerge(strategy, host, remote, state, slice)));
    forall k: Key
      ensures k in changed <==> k in reported || SilentTiebreak(strategy, host, remote, state, slice, k)
      ensures k in reported ==> !SilentTiebreak(strategy, host, remote, state, slice, k)
    {
      SignificanceAt(strategy, host, remote, state, slice, k);
    }
  }

  lemma SignificanceAt(strategy: Strategy, host: Host, remote: bool, state: VState, slice: VState, k: Key)
    ensures k in Changed(Strip(state), Strip(VMerge(strategy, host, remote, state, slice)))
       <==> k in SignificantKeys(strategy, host, remote, state, slice)
            || SilentTiebreak(strategy, host, remote, state, slice, k)
    ensures k in SignificantKeys(strategy, host, remote, state, slice) ==>
              !SilentTiebreak(strategy, host, remote, state, slice, k)
  {
  }

  // ------------------------------------------------- what the kinds mean

  function Lookup(state: VState, k: Key): Option<VEntry> {
    if k in state then Some(state[k]) else None
  }

  function Plain(e: VEntry): Entry {
    Entry(e.author, e.ttl, e.data)
  }

  /** A discarded copy is one the daemon finds its peer ill about. */
  lemma IllExactly(strategy: Strategy, host: Host, remote: bool, state: VState, k: Key, e: VEntry)
    ensures KindAt(strategy, host, remote, state, k, e).DiscardedIll?
       <==> !Counting(strategy) && k in state && Ill(host, remote, Plain(state[k]), Plain(e))
  {
  }

  /** A slice copy that is taken, or recovered from: unknown, or newer by version
      and then TTL, or under the TTL rules at least as fresh and not from a peer
      the node mistrusts about its own entry. */
  predicate Takes(strategy: Strategy, host: Host, remote: bool, state: VState, k: Key, e: VEntry) {
    k in state ==>
      var known := state[k];
      if Counting(strategy) then e.version > known.version || (e.version == known.version && e.ttl > known.ttl)
      else if remote && known.author == host then strategy.V1? && e.ttl == known.ttl
      else e.ttl >= known.ttl
  }

  /** Each kind says what became of the entry, and the counting kinds which copies
      bring them about. */
  lemma KindMeans(strategy: Strategy, host: Host, remote: bool, state: VState, slice: VState, k: Key)
    requires k in slice
    ensures var kind := KindAt(strategy, host, remote, state, k, slice[k]);
            var m := VMerge(strategy, host, remote, state, slice);
            && k in m && (kind.Inserted? <==> k !in state)
            && (kind.Inserted? || kind.Replaced? || kind.ReplacedTiebreak? ==> m[k] == Adopted(slice[k]))
            && (kind.Kept? || kind.DiscardedIll? ==> m[k] == state[k])
            && (kind.Kept? || kind.DiscardedIll? <==> !Takes(strategy, host, remote, state, k, slice[k]))
            && (kind.Recovered? ==> m[k] == state[k].(version := slice[k].version + 1))
            && (kind.ReplacedTiebreak? <==>
                  Counting(strategy) && k in state
                  && slice[k].version == state[k].version && slice[k].ttl > state[k].ttl)
            && (kind.Recovered? <==>
                  Counting(strategy) && remote && k in state && state[k].author == host
                  && slice[k].version > state[k].version && (strategy.V2r? ==> state[k].local))
  {
  }

  /** All changes are counted for exactly the copies taken, and every key whose
      entry differs afterwards is among them, as is every significant one. */
  lemma ChangesExactly(strategy: Strategy, host: Host, remote: bool, state: VState, slice: VState, k: Key)
    ensures k in ChangeKeys(strategy, host, remote, state, slice)
       <==> k in slice && Takes(strategy, host, remote, state, k, slice[k])
    ensures Lookup(VMerge(strategy, host, remote, state, slice), k) != Lookup(state, k) ==>
              k in ChangeKeys(strategy, host, remote, state, slice)
    ensures k in SignificantKeys(strategy, host, remote, state, slice) ==>
              k in ChangeKeys(strategy, host, remote, state, slice)
  {
  }

  // --------------------------------------------------- one node, in place

  function VExpired(state: VState, elapsed: nat): set<Key> {
    set k | k in state && state[k].ttl <= elapsed
  }

  function VBleach(state: VState, elapsed: nat): VState {
    map k | k in state && state[k].ttl > elapsed :: state[k].(ttl := state[k].ttl - elapsed)
  }

  function VInsertTtl(strategy: Strategy, bleachTtl: nat, updateInterval: nat): nat {
    if Counting(strategy) then bleachTtl else bleachTtl + updateInterval + 1
  }

  /** What a publisher stores under k: one version above whatever it holds. */
  function Published(strategy: Strategy, host: Host, state: VState, k: Key, data: Data, ttl: nat): VEntry {
    VEntry(host, ttl, data,
           if !Counting(strategy) then 0 else if k in state then state[k].version + 1 else 1,
           true)
  }

  /** Forgetting versions, expiry is the daemon's; versions and origins stay as
      they are, and what expires is exactly what is missing afterwards. */
  lemma BleachMirrorsDaemon(state: VState, elapsed: nat)
    ensures Strip(VBleach(state, elapsed)) == Bleach(Strip(state), elapsed)
    ensures forall k :: k in VBleach(state, elapsed) ==>
              && k in state && VBleach(state, elapsed)[k].version == state[k].version
              && VBleach(state, elapsed)[k].local == state[k].local
    ensures VExpired(state, elapsed) == state.Keys - VBleach(state, elapsed).Keys
  {
    var l, r := Strip(VBleach(state, elapsed)), Bleach(Strip(state), elapsed);
    assert l.Keys == r.Keys;
  }

  function VBleachAll(state: VState, ds: seq<nat>): VState {
    if ds == [] then state else VBleach(VBleachAll(state, ds[..|ds| - 1]), ds[|ds| - 1])
  }

  lemma {:induction false} BleachAllMirrorsDaemon(state: VState, ds: seq<nat>)
    ensures Strip(VBleachAll(state, ds)) == BleachAll(Strip(state), ds)
    ensures forall k :: k in VBleachAll(state, ds) ==>
              && k in state && VBleachAll(state, ds)[k].version == state[k].version
              && VBleachAll(state, ds)[k].local == state[k].local
  {
    if ds != [] {
      BleachAllMirrorsDaemon(state, ds[..|ds| - 1]);
      BleachMirrorsDaemon(VBleachAll(state, ds[..|ds| - 1]), ds[|ds| - 1]);
    }
  }

  /** A publication nobody merges over is there, unaltered but for its TTL, as long
      as less than its bleach TTL has passed when versions count, and an update
      interval and a second longer when they do not. */
  lemma PublicationLifetime(strategy: Strategy, host: Host, state: VState, k: Key, data: Data,
          bleachTtl: nat, updateInterval: nat, ds: seq<nat>)
    ensures var e := Published(strategy, host, state, k, data, VInsertTtl(strategy, bleachTtl, updateInterval));
            var life := if Counting(strategy) then bleachTtl else bleachTtl + updateInterval + 1;
            var after := VBleachAll(state[k := e], ds);
            && (k in after <==> ds == [] || Sum(ds) < life)
            && (k in after ==>
                  && after[k] == VEntry(host, life - Sum(ds), data,
                                        if !Counting(strategy) then 0
                                        else if k in state then state[k].version + 1 else 1,
                                        true))
  {
    var e := Published(strategy, host, state, k, data, VInsertTtl(strategy, bleachTtl, updateInterval));
    var s := Strip(state[k := e]);
    BleachAllMirrorsDaemon(state[k := e], ds);
    if ds == [] {
      assert Sum(ds) == 0;
    } else {
      BleachAction(s, ds);
    }
    var after := VBleachAll(state[k := e], ds);
    assert k in after <==> k in Strip(after);
  }

  lemma VMergeOneMore(strategy: Strategy, host: Host, remote: bool, state: VState, slice: VState,
          todo: set<Key>, k: Key)
    requires k in todo && k in slice
    ensures var mid := VMerge(strategy, host, remote, state, slice - todo);
            && VMerge(strategy, host, remote, mid, map[k := slice[k]])
               == VMerge(strategy, host, remote, state, slice - (todo - {k}))
            && KindAt(strategy, host, remote, mid, k, slice[k]) == KindAt(strategy, host, remote, state, k, slice[k])
            && (k in mid <==> k in state) && (k in mid ==> mid[k] == state[k])
  {
  }

  lemma CountOneMore(keys: set<Key>, todo: set<Key>, k: Key)
    requires k in todo
    ensures |keys - (todo - {k})| == |keys - todo| + if k in keys then 1 else 0
  {
    assert keys - (todo - {k}) == (keys - todo) + if k in keys then {k} else {};
  }

  /** The events name, for every slice key not in todo, the kind that decided it. */
  ghost predicate Logged(strategy: Strategy, host: Host, remote: bool, state: VState, slice: VState,
          todo: set<Key>, events: seq<(Kind, Key)>) {
    && |events| + |todo| == |slice|
    && forall k :: k in slice && k !in todo ==> (KindAt(strategy, host, remote, state, k, slice[k]), k) in events
  }

  /** The merge loop's progress when the keys of todo are still to come. */
  ghost predicate Halfway(strategy: Strategy, host: Host, remote: bool, before: VState, slice: VState,
          todo: set<Key>, state: VState, r: MergeResult) {
    && todo <= slice.Keys
    && state == VMerge(strategy, host, remote, before, slice - todo)
    && r.significant == |SignificantKeys(strategy, host, remote, before, slice) - todo|
    && r.allChanges == |ChangeKeys(strategy, host, remote, before, slice) - todo|
    && Logged(strategy, host, remote, before, slice, todo, r.events)
  }

  function Tally(r: MergeResult, k: Key, kind: Kind, significant: bool): MergeResult {
    MergeResult(r.significant + if significant then 1 else 0,
                r.allChanges + if kind.Kept? || kind.DiscardedIll? then 0 else 1,
                r.events + [(kind, k)])
  }

  lemma HalfwayStep(strategy: Strategy, host: Host, remote: bool, before: VState, slice: VState,
          todo: set<Key>, state: VState, r: MergeResult, k: Key)
    requires k in todo && Halfway(strategy, host, remote, before, slice, todo, state, r)
    ensures var kind := KindAt(strategy, host, remote, state, k, slice[k]);
            var notable := kind.Inserted? || (kind.Replaced? && k in state && state[k].data != slice[k].data);
            Halfway(strategy, host, remote, before, slice, todo - {k},
                    VMerge(strategy, host, remote, state, map[k := slice[k]]), Tally(r, k, kind, notable))
  {
    VMergeOneMore(strategy, host, remote, before, slice, todo, k);
    CountOneMore(SignificantKeys(strategy, host, remote, before, slice), todo, k);
    CountOneMore(ChangeKeys(strategy, host, remote, before, slice), todo, k);
    var kind := KindAt(strategy, host, remote, state, k, slice[k]);
    var notable := kind.Inserted? || (kind.Replaced? && k in state && state[k].data != slice[k].data);
    assert notable <==> k in SignificantKeys(strategy, host, remote, before, slice);
    assert !(kind.Kept? || kind.DiscardedIll?) <==> k in ChangeKeys(strategy, host, remote, before, slice);
    var more := r.events + [(kind, k)];
    assert more[|r.events|] == (kind, k);
    assert forall x :: x in r.events ==> x in more;
  }

  lemma EmptyMerge(strategy: Strategy, host: Host, remote: bool, state: VState)
    ensures VMerge(strategy, host, remote, state, map[]) == state
  {
  }

  lemma NoneBeyond(keys: set<Key>, all: set<Key>)
    requires keys <= all
    ensures |keys - all| == 0
  {
  }

  lemma HalfwayStart(strategy: Strategy, host: Host, remote: bool, before: VState, slice: VState)
    ensures Halfway(strategy, host, remote, before, slice, slice.Keys, before, MergeResult(0, 0, []))
  {
    EmptyMerge(strategy, host, remote, before);
    assert slice - slice.Keys == map[];
    NoneBeyond(SignificantKeys(strategy, host, remote, before, slice), slice.Keys);
    NoneBeyond(ChangeKeys(strategy, host, remote, before, slice), slice.Keys);
  }

  lemma NothingLeft(slice: VState, keys: set<Key>)
    ensures slice - {} == slice && keys - {} == keys
  {
  }

  lemma HalfwayEnd(strategy: Strategy, host: Host, remote: bool, before: VState, slice: VState, state: VState,
          r: MergeResult)
    requires Halfway(strategy, host, remote, before, slice, {}, state, r)
    ensures state == VMerge(strategy, host, remote, before, slice)
    ensures r.significant == |SignificantKeys(strategy, host, remote, before, slice)|
    ensures r.allChanges == |ChangeKeys(strategy, host, remote, before, slice)|
  {
    NothingLeft(slice, SignificantKeys(strategy, host, remote, before, slice));
    NothingLeft(slice, ChangeKeys(strategy, host, remote, before, slice));
  }

  class Node {
    const name: Host
    var state: VState

    constructor (name: Host)
      ensures this.name == name && state == map[]
    {
      this.name, state := name, map[];
    }

    /** Merges a slice in place. Every slice key yields one event, of the kind
        that decided it, and the two counters count kinds. */
    method Merge(slice: VState, remote: bool, strategy: Strategy) returns (r: MergeResult)
      modifies this
      ensures state == VMerge(strategy, name, remote, old(state), slice)
      ensures r.significant == |SignificantKeys(strategy, name, remote, old(state), slice)|
      ensures r.allChanges == |ChangeKeys(strategy, name, remote, old(state), slice)|
      ensures Logged(strategy, name, remote, old(state), slice, {}, r.events)
    {
      r := MergeResult(0, 0, []);
      var todo := slice.Keys;
      HalfwayStart(strategy, name, remote, state, slice);
      while todo != {}
        invariant Halfway(strategy, name, remote, old(state), slice, todo, state, r)
        decreases todo
      {
        var k :| k in todo;
        HalfwayStep(strategy, name, remote, old(state), slice, todo, state, r, k);
        var merged, kind, significant := MergeKey(name, state, k, slice[k], remote, strategy);
        state := merged;
        r := Tally(r, k, kind, significant);
        todo := todo - {k};
      }
      HalfwayEnd(strategy, name, remote, old(state), slice, state, r);
    }

    /** The body of the merge loop for one key. */
    static method MergeKey(name: Host, before: VState, k: Key, e: VEntry, remote: bool, strategy: Strategy)
      returns (merged: VState, kind: Kind, significant: bool)
      ensures merged == VMerge(strategy, name, remote, before, map[k := e])
      ensures kind == KindAt(strategy, name, remote, before, k, e)
      ensures significant <==> kind.Inserted? || (kind.Replaced? && k in before && before[k].data != e.data)
    {
      if k !in before {
        return before[k := e.(local := false)], Inserted, true;
      }
      var known := before[k];
      var own := known.author == name;
      if strategy.V2? || strategy.V2r? {
        var recoveryApplies := remote && own && e.version > known.version;
        if strategy.V2r? {
          recoveryApplies := recoveryApplies && known.local;
        }
        if recoveryApplies {
          return before[k := known.(version := e.version + 1)], Recovered, false;
        }
        if e.version > known.version {
          return before[k := e.(local := false)], Replaced, known.data != e.data;
        } else if e.version == known.version && e.ttl > known.ttl {
          return before[k := e.(local := false)], ReplacedTiebreak, false;
        }
        return before, Kept, false;
      }
      if remote && own && e.ttl > known.ttl {
        return before, DiscardedIll, false;
      }
      var threshold := if strategy.V1i? && remote && own then known.ttl + 1 else known.ttl;
      if e.ttl >= threshold {
        return before[k := e.(local := false)], Replaced, known.data != e.data;
      }
      return before, Kept, false;
    }

    /** Less than a second is refused. */
    method BleachNode(elapsed: int) returns (expired: Option<set<Key>>)
      modifies this
      ensures elapsed < 1 ==> expired == None && state == old(state)
      ensures elapsed >= 1 ==> state == VBleach(old(state), elapsed) && expired == Some(old(state).Keys - state.Keys)
    {
      if elapsed < 1 {
        return None;
      }
      var gone := set k | k in state && state[k].ttl <= elapsed;
      state := state - gone;
      var todo := state.Keys;
      while todo != {}
        invariant todo <= state.Keys == old(state).Keys - gone
        invariant forall k :: k in state ==>
          state[k] == if k in todo then old(state)[k] else old(state)[k].(ttl := old(state)[k].ttl - elapsed)
        decreases todo
      {
        var k :| k in todo;
        state := state[k := state[k].(ttl := state[k].ttl - elapsed)];
        todo := todo - {k};
      }
      assert state == VBleach(old(state), elapsed);
      BleachMirrorsDaemon(old(state), elapsed);
      return Some(gone);
    }

    /** A publication is strictly newer than anything the node held. */
    method AuthorInsert(k: Key, data: Data, strategy: Strategy, bleachTtl: nat, updateInterval: nat)
      modifies this
      ensures var ttl := VInsertTtl(strategy, bleachTtl, updateInterval);
              state == old(state)[k := Published(strategy, name, old(state), k, data, ttl)]
      ensures Counting(strategy) && k in old(state) ==> state[k].version > old(state)[k].version
    {
      var version := 0;
      if Counting(strategy) {
        version := if k in state then state[k].version + 1 else 1;
      }
      state := state[k := VEntry(name, VInsertTtl(strategy, bleachTtl, updateInterval), data, version, true)];
    }

    method Reboot()
      modifies this
      ensures state == map[]
    {
      state := map[];
    }
  }
}
