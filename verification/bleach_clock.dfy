/**
 The whole-second arithmetic of the bleach loop, over steady-clock readings in
 nanoseconds, and how far it can drift from the measured time.
 */
module BleachClock {
  import opened Store

  const MILLISECOND: int := 1_000_000
  const SECOND: int := 1_000_000_000

  /** One loop iteration: the clock read before bleaching and the one after. */
  datatype Reading = Reading(measured: int, completed: int)

  /** The seconds one iteration subtracts: at least one, truncated otherwise. */
  function WholeSeconds(elapsed: int): nat {
    if elapsed > SECOND then elapsed / SECOND else 1
  }

  function LastCompleted(start: int, readings: seq<Reading>): int {
    if readings == [] then start else readings[|readings| - 1].completed
  }

  /** The times measured by successive iterations. */
  function Gaps(start: int, readings: seq<Reading>): (gaps: seq<int>)
    ensures |gaps| == |readings|
  {
    if readings == [] then []
    else
      var front := readings[..|readings| - 1];
      Gaps(start, front) + [readings[|readings| - 1].measured - LastCompleted(start, front)]
  }

  function Ticks(gaps: seq<int>): (ticks: seq<nat>)
    ensures |ticks| == |gaps|
  {
    if gaps == [] then [] else Ticks(gaps[..|gaps| - 1]) + [WholeSeconds(gaps[|gaps| - 1])]
  }

  function Elapsed(gaps: seq<int>): int {
    if gaps == [] then 0 else Elapsed(gaps[..|gaps| - 1]) + gaps[|gaps| - 1]
  }

  /** From the end of the iteration before, or from the start, to a measurement. */
  function Pause(start: int, readings: seq<Reading>, i: nat): int
    requires i < |readings|
  {
    readings[i].measured - if i == 0 then start else readings[i - 1].completed
  }

  /** The loop runs at least 999 ms apart. */
  predicate Spaced(start: int, readings: seq<Reading>) {
    forall i :: 0 <= i < |readings| ==> Pause(start, readings, i) >= 999 * MILLISECOND
  }

  lemma {:induction false} GapAt(start: int, readings: seq<Reading>, i: nat)
    requires i < |readings|
    ensures Gaps(start, readings)[i] == Pause(start, readings, i)
  {
    if i < |readings| - 1 {
      GapAt(start, readings[..|readings| - 1], i);
    }
  }

  lemma {:induction false} TickAt(gaps: seq<int>, i: nat)
    requires i < |gaps|
    ensures Ticks(gaps)[i] == WholeSeconds(gaps[i])
  {
    if i < |gaps| - 1 {
      TickAt(gaps[..|gaps| - 1], i);
    }
  }

  /** The time spent inside the iterations, behind their first reading. */
  function Overhead(readings: seq<Reading>): int {
    if readings == [] then 0
    else Overhead(readings[..|readings| - 1]) + readings[|readings| - 1].completed - readings[|readings| - 1].measured
  }

  /** The gaps telescope: together they are the time from the start to the last
      measurement, less what the iterations before it took themselves. */
  lemma {:induction false} GapsTelescope(start: int, readings: seq<Reading>)
    requires readings != []
    ensures var n := |readings| - 1;
            Elapsed(Gaps(start, readings)) == readings[n].measured - start - Overhead(readings[..n])
  {
    var n := |readings| - 1;
    var front, gaps := readings[..n], Gaps(start, readings);
    assert gaps[..n] == Gaps(start, front);
    if front != [] {
      GapsTelescope(start, front);
      assert front[..n - 1] == readings[..n - 1] && Overhead(front) == Overhead(front[..n - 1])
                              + front[n - 1].completed - front[n - 1].measured;
    }
  }

  /** One second at least, else the elapsed time truncated to whole seconds. */
  lemma WholeSecondsTruncate(elapsed: int)
    ensures var longest := if elapsed > SECOND then elapsed else SECOND;
            WholeSeconds(elapsed) * SECOND <= longest < (WholeSeconds(elapsed) + 1) * SECOND
  {
  }

  lemma WholeSecondsBounds(elapsed: int)
    requires elapsed >= 999 * MILLISECOND
    ensures 1 <= WholeSeconds(elapsed)
    ensures elapsed - SECOND < WholeSeconds(elapsed) * SECOND <= elapsed + MILLISECOND
  {
  }

  /** n iterations at least 999 ms apart subtract at least n seconds, more than
      the measured time less n seconds and at most that time plus n ms. */
  lemma {:induction false} DriftBound(gaps: seq<int>)
    requires forall i :: 0 <= i < |gaps| ==> gaps[i] >= 999 * MILLISECOND
    ensures var n, total := |gaps|, Sum(Ticks(gaps));
            && n <= total
            && (n > 0 ==> Elapsed(gaps) - n * SECOND < total * SECOND)
            && total * SECOND <= Elapsed(gaps) + n * MILLISECOND
  {
    if gaps != [] {
      var front, last := gaps[..|gaps| - 1], gaps[|gaps| - 1];
      DriftBound(front);
      WholeSecondsBounds(last);
      assert Ticks(gaps)[..|gaps| - 1] == Ticks(front);
    }
  }

  /** The same by clock readings alone: over n iterations, each measured at least
      999 ms after the one before completed, the seconds taken are within n
      seconds below and n milliseconds above the time between them. */
  lemma ClockBound(start: int, readings: seq<Reading>)
    requires readings != [] && Spaced(start, readings)
    ensures var n, total := |readings|, Sum(Ticks(Gaps(start, readings)));
            var between := readings[n - 1].measured - start - Overhead(readings[..n - 1]);
            n <= total && between - n * SECOND < total * SECOND <= between + n * MILLISECOND
  {
    var gaps := Gaps(start, readings);
    forall i | 0 <= i < |gaps| ensures gaps[i] >= 999 * MILLISECOND {
      GapAt(start, readings, i);
    }
    GapsTelescope(start, readings);
    DriftBound(gaps);
  }

  /** An entry nobody merges over loses exactly the total, and is gone exactly
      when the total reaches its TTL. */
  lemma UnmergedEntryDecay(state: State, gaps: seq<int>, k: Key)
    requires gaps != [] && k in state
    ensures var after, total := BleachAll(state, Ticks(gaps)), Sum(Ticks(gaps));
            && (k in after <==> state[k].ttl > total)
            && (k in after ==> after[k] == state[k].(ttl := state[k].ttl - total))
  {
  }
}
