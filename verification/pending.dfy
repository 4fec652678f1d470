/**
 The queue of suspended operations of one descriptor and the pass that resumes
 them when an event arrives.
 */
module Pending {

  /** A suspended operation, by identity. */
  type Op = nat

  /** What the operations of a pass append, in the order they are resumed. */
  function Requeued(respawn: (nat, Op) -> seq<Op>, ops: seq<Op>): seq<Op> {
    if ops == [] then []
    else Requeued(respawn, ops[..|ops| - 1]) + respawn(|ops| - 1, ops[|ops| - 1])
  }

  /** One more operation resumed at the front, appending at the back, and popped. */
  lemma PassStep(respawn: (nat, Op) -> seq<Op>, entry: seq<Op>, i: nat)
    requires i < |entry|
    ensures var queue := entry[i..] + Requeued(respawn, entry[..i]);
            && queue != [] && queue[0] == entry[i] && entry[..i] + [queue[0]] == entry[..i + 1]
            && (queue + respawn(i, queue[0]))[1..] == entry[i + 1..] + Requeued(respawn, entry[..i + 1])
  {
  }

  /** How many operations the first ones of a pass append. */
  function Appended(respawn: (nat, Op) -> seq<Op>, ops: seq<Op>): nat {
    if ops == [] then 0 else Appended(respawn, ops[..|ops| - 1]) + |respawn(|ops| - 1, ops[|ops| - 1])|
  }

  /** Everything appended keeps its place: behind all that earlier operations of
      the pass appended, in the order its own operation appended it. */
  lemma {:induction false} RequeuedInOrder(respawn: (nat, Op) -> seq<Op>, ops: seq<Op>, i: nat, j: nat)
    requires i < |ops| && j < |respawn(i, ops[i])|
    ensures |Requeued(respawn, ops)| == Appended(respawn, ops)
    ensures var at := Appended(respawn, ops[..i]) + j;
            at < Appended(respawn, ops) && Requeued(respawn, ops)[at] == respawn(i, ops[i])[j]
  {
    var n := |ops| - 1;
    var front := ops[..n];
    RequeuedLength(respawn, front);
    if i < n {
      assert front[..i] == ops[..i];
      RequeuedInOrder(respawn, front, i, j);
    }
  }

  lemma {:induction false} RequeuedLength(respawn: (nat, Op) -> seq<Op>, ops: seq<Op>)
    ensures |Requeued(respawn, ops)| == Appended(respawn, ops)
  {
    if ops != [] {
      RequeuedLength(respawn, ops[..|ops| - 1]);
    }
  }

  class OperationQueue {
    var pending: seq<Op>

    constructor ()
      ensures pending == []
    {
      pending := [];
    }

    method AddPendingOp(op: Op)
      modifies this
      ensures pending == old(pending) + [op]
    {
      pending := pending + [op];
    }

    /** A resumed operation that must wait again appends itself or others. */
    method Resume(added: seq<Op>)
      modifies this
      ensures pending == old(pending) + added
    {
      var i := 0;
      while i < |added|
        invariant 0 <= i <= |added|
        invariant pending == old(pending) + added[..i]
      {
        AddPendingOp(added[i]);
        i := i + 1;
      }
      assert added[..|added|] == added;
    }

    /** Whatever respawn says each resumed operation appends, the pass resumes
        what was pending at entry, once each and in order, and leaves exactly
        what was appended meanwhile. */
    method ResumePendingOps(respawn: (nat, Op) -> seq<Op>) returns (any: bool, resumed: seq<Op>)
      modifies this
      ensures any <==> old(pending) != []
      ensures resumed == old(pending)
      ensures pending == Requeued(respawn, old(pending))
    {
      var numPending := |pending|;
      resumed := [];
      if numPending == 0 {
        return false, [];
      }
      ghost var entry := pending;
      while numPending > 0
        invariant 0 <= numPending <= |entry|
        invariant resumed == entry[..|entry| - numPending]
        invariant pending == entry[|entry| - numPending..] + Requeued(respawn, resumed)
        decreases numPending
      {
        PassStep(respawn, entry, |resumed|);
        // Resumed while still at the front, then popped.
        var op := pending[0];
        Resume(respawn(|resumed|, op));
        pending := pending[1..];
        resumed := resumed + [op];
        numPending := numPending - 1;
      }
      return true, resumed;
    }
  }

  /** Every pass resumes each pending operation once, so operations are conserved:
      whatever is queued after a pass was appended by an operation of that pass. */
  lemma {:induction false} RequeuedMembers(respawn: (nat, Op) -> seq<Op>, ops: seq<Op>, op: Op)
    ensures op in Requeued(respawn, ops) <==> exists i :: 0 <= i < |ops| && op in respawn(i, ops[i])
  {
    if ops != [] {
      var front, n := ops[..|ops| - 1], |ops| - 1;
      RequeuedMembers(respawn, front, op);
      assert forall i :: 0 <= i < n ==> front[i] == ops[i];
      if i :| 0 <= i < |ops| && op in respawn(i, ops[i]) {
        assert i == n || op in respawn(i, front[i]);
      }
    }
  }
}
