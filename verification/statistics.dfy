/**
 The per-peer history of network statistics: at most ten records, none older
 than thirty minutes, pruned in place at every collection.
 */
module Statistics {

  datatype Peer = Peer(address: string)

  /** Timestamps are steady-clock nanoseconds. */
  datatype Record = Record(ts: int, rtt: int, upBw: nat, downBw: nat)

  type Stats = map<Peer, seq<Record>>

  const MAX_RECORDS: nat := 10
  const MAX_AGE: int := 30 * 60 * 1_000_000_000

  // ----------------------------------------------- machine-width subtraction

  function Unsigned64(x: int): nat {
    x % 0x1_0000_0000_0000_0000
  }

  function Signed32(x: int): int {
    var w := x % 0x1_0000_0000;
    if w >= 0x8000_0000 then w - 0x1_0000_0000 else w
  }

  /** The records to skip: an unsigned subtraction that wraps for short deques,
      narrowed to a signed word before it is compared with zero. It never asks
      for more records than there are. */
  function SkipCount(size: nat): (n: nat)
    ensures n <= size
  {
    var d := Signed32(Unsigned64(size - MAX_RECORDS));
    if d > 0 then d else 0
  }

  /** The wrap does no harm exactly up to an excess below two to the thirty-one. */
  lemma SkipCountExact(size: nat)
    ensures SkipCount(size) == (if size > 10 then size - 10 else 0) <==> size < 0x8000_000A
  {
  }

  // -------------------------------------------------------- what must be kept

  predicate Aged(r: Record, now: int) {
    now - r.ts > MAX_AGE
  }

  predicate Admissible(d: seq<Record>, now: int) {
    |d| <= MAX_RECORDS && forall i :: 0 <= i < |d| ==> !Aged(d[i], now)
  }

  /** At most ten records, none more than thirty minutes old. */
  lemma AdmissibleLimits(d: seq<Record>, now: int)
    ensures Admissible(d, now) <==> |d| <= 10 && forall i :: 0 <= i < |d| ==> now - d[i].ts <= 1_800_000_000_000
  {
  }

  /** d is the longest suffix of the log that is short and young enough. */
  predicate IsLongestSuffix(d: seq<Record>, log: seq<Record>, now: int) {
    && |d| <= |log| && d == log[|log| - |d|..] && Admissible(d, now)
    && forall i :: 0 <= i < |log| - |d| ==> !Admissible(log[i..], now)
  }

  predicate InTimeOrder(log: seq<Record>, now: int) {
    && (forall i, j :: 0 <= i < j < |log| ==> log[i].ts <= log[j].ts)
    && (forall i :: 0 <= i < |log| ==> log[i].ts <= now)
  }

  // ------------------------------------------------------------------ pruning

  method PruneDeque(peerStats: seq<Record>, tNow: int) returns (d: seq<Record>)
    ensures d == Pruned(peerStats, tNow)
  {
    d := peerStats;
    var mSkip := SkipCount(|d|);
    while mSkip > 0
      invariant 0 <= mSkip <= |d| && d[mSkip..] == peerStats[SkipCount(|peerStats|)..]
    {
      d := d[1..];
      mSkip := mSkip - 1;
    }
    while d != [] && Aged(d[0], tNow)
      invariant Pruned(peerStats, tNow) == DropAged(d, tNow)
      decreases |d|
    {
      d := d[1..];
    }
  }

  function DropAged(d: seq<Record>, now: int): seq<Record> {
    if d != [] && Aged(d[0], now) then DropAged(d[1..], now) else d
  }

  function Pruned(d: seq<Record>, now: int): seq<Record> {
    DropAged(d[SkipCount(|d|)..], now)
  }

  /** A suffix of what is left after the first records is a suffix of it all. */
  lemma SuffixOfSuffix(d: seq<Record>, from: nat, r: seq<Record>)
    requires from <= |d| && |r| <= |d| - from && r == d[from..][|d| - from - |r|..]
    ensures r == d[|d| - |r|..]
  {
  }

  /** Whatever the timestamps, only an aged front goes: what is left begins with a
      record young enough, if anything is left. */
  lemma {:induction false} DropAgedFront(d: seq<Record>, now: int)
    ensures var r := DropAged(d, now);
            && |r| <= |d| && r == d[|d| - |r|..]
            && (forall i :: 0 <= i < |d| - |r| ==> Aged(d[i], now))
            && (r != [] ==> !Aged(r[0], now))
  {
    if d != [] && Aged(d[0], now) {
      var rest, r := d[1..], DropAged(d, now);
      assert forall i :: 0 <= i < |rest| ==> rest[i] == d[i + 1];
      DropAgedFront(rest, now);
      SuffixOfSuffix(d, 1, r);
      forall i | 0 <= i < |d| - |r| ensures Aged(d[i], now) {
        if i > 0 {
          assert Aged(rest[i - 1], now);
        }
      }
    }
  }

  /** Dropping from an aged front leaves the longest unaged suffix. */
  lemma DropAgedIs(d: seq<Record>, now: int)
    requires InTimeOrder(d, now)
    ensures var r := DropAged(d, now);
            && |r| <= |d| && r == d[|d| - |r|..]
            && (forall i :: 0 <= i < |d| - |r| ==> Aged(d[i], now))
            && (forall i :: 0 <= i < |r| ==> !Aged(r[i], now))
  {
    DropAgedFront(d, now);
    var r := DropAged(d, now);
    forall i | 0 <= i < |r| ensures !Aged(r[i], now) {
      assert r[i] == d[|d| - |r| + i] && r[0] == d[|d| - |r|];
    }
  }

  /** A prefix too old or too long then is too old or too long later. */
  lemma StaysInadmissible(log: seq<Record>, news: seq<Record>, earlier: int, now: int)
    requires !Admissible(log, earlier) && earlier <= now
    ensures !Admissible(log + news, now)
  {
    if |log| <= MAX_RECORDS {
      var j :| 0 <= j < |log| && Aged(log[j], earlier);
      assert (log + news)[j] == log[j];
    }
  }

  lemma AgedFront(d: seq<Record>, i: nat, now: int)
    requires i < |d| && Aged(d[i], now)
    ensures !Admissible(d[i..], now)
  {
    assert d[i..][0] == d[i];
  }

  /** A suffix that begins before the cut is too long, one that begins with a
      dropped record too old. */
  lemma BeforeCut(d: seq<Record>, skip: nat, now: int, i: nat)
    requires skip <= |d| && (skip > 0 ==> |d| - skip == MAX_RECORDS)
    requires i < |d| - |DropAged(d[skip..], now)|
    ensures !Admissible(d[i..], now)
  {
    if i >= skip {
      DropAgedFront(d[skip..], now);
      assert d[skip..][i - skip] == d[i];
      AgedFront(d, i, now);
    }
  }

  lemma SuffixInOrder(d: seq<Record>, from: nat, now: int)
    requires InTimeOrder(d, now) && from <= |d|
    ensures InTimeOrder(d[from..], now)
  {
    assert forall i :: 0 <= i < |d| - from ==> d[from..][i] == d[from + i];
  }

  /** Dropping just the excess and then the aged front leaves the longest
      admissible suffix. */
  lemma CutIsLongest(d: seq<Record>, skip: nat, now: int)
    requires InTimeOrder(d, now) && skip <= |d| && |d| - skip <= MAX_RECORDS
    requires skip > 0 ==> |d| - skip == MAX_RECORDS
    ensures IsLongestSuffix(DropAged(d[skip..], now), d, now)
  {
    var short := d[skip..];
    SuffixInOrder(d, skip, now);
    DropAgedIs(short, now);
    var r := DropAged(short, now);
    SuffixOfSuffix(d, skip, r);
    assert Admissible(r, now);
    forall i | 0 <= i < |d| - |r| ensures !Admissible(d[i..], now) {
      BeforeCut(d, skip, now, i);
    }
  }

  lemma PrunedShape(d: seq<Record>, now: int)
    requires InTimeOrder(d, now) && |d| <= MAX_RECORDS + 1
    ensures IsLongestSuffix(Pruned(d, now), d, now)
  {
    SkipCountExact(|d|);
    CutIsLongest(d, SkipCount(|d|), now);
  }

  /** What was dropped earlier stays dropped. */
  lemma DroppedStays(d: seq<Record>, log: seq<Record>, news: seq<Record>, earlier: int, now: int, i: nat)
    requires IsLongestSuffix(d, log, earlier) && earlier <= now && i < |log| - |d|
    ensures !Admissible((log + news)[i..], now)
  {
    StaysInadmissible(log[i..], news, earlier, now);
    assert (log + news)[i..] == log[i..] + news;
  }

  /** Pruning what was kept, with news behind it, keeps what the whole log asks. */
  lemma PrunedIsLongestSuffix(d: seq<Record>, log: seq<Record>, news: seq<Record>, earlier: int, now: int)
    requires IsLongestSuffix(d, log, earlier) && earlier <= now && |news| <= 1
    requires InTimeOrder(log + news, now)
    ensures IsLongestSuffix(Pruned(d + news, now), log + news, now)
  {
    var full, all, base := d + news, log + news, |log| - |d|;
    assert full == all[base..];
    assert forall i :: 0 <= i < |full| ==> full[i] == all[base + i];
    PrunedShape(full, now);
    var r := Pruned(full, now);
    SuffixOfSuffix(all, base, r);
    forall i | 0 <= i < |all| - |r| ensures !Admissible(all[i..], now) {
      if i >= base {
        assert all[i..] == full[i - base..];
      } else {
        DroppedStays(d, log, news, earlier, now, i);
      }
    }
  }

  // --------------------------------------------------------------- collection

  function DequeOf(stats: Stats, peer: Peer): seq<Record> {
    if peer in stats then stats[peer] else []
  }

  function Pushed(stats: Stats, peer: Peer, r: Record): Stats {
    stats[peer := DequeOf(stats, peer) + [r]]
  }

  function AllPruned(stats: Stats, now: int): Stats {
    map p | p in stats :: Pruned(stats[p], now)
  }

  /** The statistics file behind every collection. */
  class StatsFile {
    var stats: Stats

    constructor ()
      ensures stats == map[]
    {
      stats := map[];
    }

    /** Appends the record and prunes every peer at the record's time. An
        unreadable file counts as empty. */
    method CollectStat(peer: Peer, netStat: Record, readable: bool)
      modifies this
      ensures stats == AllPruned(Pushed(if readable then old(stats) else map[], peer, netStat), netStat.ts)
    {
      if !readable {
        stats := map[];
      }
      stats := stats[peer := (if peer in stats then stats[peer] else []) + [netStat]];
      PruneEveryPeer(netStat.ts);
    }

    method PruneEveryPeer(tNow: int)
      modifies this
      ensures stats == AllPruned(old(stats), tNow)
    {
      var todo := stats.Keys;
      while todo != {}
        invariant todo <= stats.Keys == old(stats).Keys
        invariant forall p :: p in stats && p in todo ==> stats[p] == old(stats)[p]
        invariant forall p :: p in stats && p !in todo ==> stats[p] == Pruned(old(stats)[p], tNow)
        decreases todo
      {
        var p :| p in todo;
        var d := PruneDeque(stats[p], tNow);
        stats := stats[p := d];
        todo := todo - {p};
      }
      assert stats == AllPruned(old(stats), tNow);
    }
  }

  // ------------------------------------------------------------------ history

  datatype Collection = Collect(peer: Peer, record: Record, readable: bool)

  function StatsAfter(events: seq<Collection>): Stats {
    if events == [] then map[]
    else
      var e := events[|events| - 1];
      AllPruned(Pushed(if e.readable then StatsAfter(events[..|events| - 1]) else map[], e.peer, e.record), e.record.ts)
  }

  /** Every record of a peer since the file was last found unreadable. */
  function FullLog(events: seq<Collection>, peer: Peer): seq<Record> {
    if events == [] then []
    else
      var e := events[|events| - 1];
      (if e.readable then FullLog(events[..|events| - 1], peer) else []) + if e.peer == peer then [e.record] else []
  }

  predicate MonotoneClock(events: seq<Collection>) {
    forall i, j :: 0 <= i < j < |events| ==> events[i].record.ts <= events[j].record.ts
  }

  lemma {:induction false} FullLogChronological(events: seq<Collection>, peer: Peer, now: int)
    requires MonotoneClock(events) && (events != [] ==> events[|events| - 1].record.ts <= now)
    ensures InTimeOrder(FullLog(events, peer), now)
  {
    if events != [] {
      FullLogChronological(events[..|events| - 1], peer, events[|events| - 1].record.ts);
    }
  }

  /** A collection prunes each deque with its news, if there are any, behind it. */
  lemma DequePruned(before: Stats, peer: Peer, collected: Peer, r: Record)
    ensures DequeOf(AllPruned(Pushed(before, collected, r), r.ts), peer)
            == Pruned(DequeOf(before, peer) + if collected == peer then [r] else [], r.ts)
  {
    if collected != peer {
      assert DequeOf(before, peer) + [] == DequeOf(before, peer);
    }
  }

  /** Over every run each stored deque is the longest admissible suffix of the
      peer's full log at the last pruning. */
  lemma {:induction false} HistoryRefinesLog(events: seq<Collection>, peer: Peer)
    requires MonotoneClock(events) && events != []
    ensures IsLongestSuffix(DequeOf(StatsAfter(events), peer), FullLog(events, peer), events[|events| - 1].record.ts)
  {
    var front, e := events[..|events| - 1], events[|events| - 1];
    FullLogChronological(events, peer, e.record.ts);
    var before := if e.readable then StatsAfter(front) else map[];
    var log := if e.readable then FullLog(front, peer) else [];
    var news := if e.peer == peer then [e.record] else [];
    DequePruned(before, peer, e.peer, e.record);
    if e.readable && front != [] {
      HistoryRefinesLog(front, peer);
      PrunedIsLongestSuffix(DequeOf(before, peer), log, news, front[|front| - 1].record.ts, e.record.ts);
    } else {
      assert DequeOf(before, peer) == [] && log == [];
      PrunedIsLongestSuffix([], [], news, e.record.ts, e.record.ts);
    }
  }

  /** The record just collected is always there, as the last of its peer. */
  lemma NewestKept(events: seq<Collection>)
    requires MonotoneClock(events) && events != []
    ensures var e := events[|events| - 1];
            var d := DequeOf(StatsAfter(events), e.peer);
            1 <= |d| <= MAX_RECORDS && d[|d| - 1] == e.record
  {
    var e := events[|events| - 1];
    HistoryRefinesLog(events, e.peer);
    var log, d := FullLog(events, e.peer), DequeOf(StatsAfter(events), e.peer);
    assert log[|log| - 1] == e.record;
    assert log[|log| - 1..] == [e.record];
    assert Admissible([e.record], e.record.ts);
  }
}
