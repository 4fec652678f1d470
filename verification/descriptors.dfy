/**
 The event loop's descriptor table. Numbers come from the kernel, which reuses
 them; objects carry a number until they are closed and -1 from then on.
 */
module Descriptors {

  class Descriptor {
    var fd: int

    constructor (fd: int)
      ensures this.fd == fd
    {
      this.fd := fd;
    }
  }

  /** Exited is a check whose failure terminates the process. */
  datatype Outcome = Closed | Failed | Exited

  /** The table beside the kernel's and epoll's view, as one value. */
  datatype View = View(managed: map<int, Descriptor>, open: set<int>, watched: set<int>)

  function Forget(v: View, gone: set<int>): View {
    View(v.managed - gone, v.open - gone, v.watched - gone)
  }

  lemma ForgetTwice(v: View, a: set<int>, b: set<int>)
    ensures Forget(Forget(v, a), b) == Forget(v, a + b)
    ensures Forget(v, {}) == v
  {
    assert (v.managed - a) - b == v.managed - (a + b);
    assert v.managed - {} == v.managed;
  }

  /** managed is the table; open and watched are the kernel's and epoll's view;
      faulty are the numbers whose next close reports an error, closing them
      anyway, which the kernel may reconsider at any time. */
  class IOContext {
    var managed: map<int, Descriptor>
    var open: set<int>
    var watched: set<int>
    var faulty: set<int>

    constructor (faulty: set<int>)
      ensures this.faulty == faulty && managed == map[] && open == {} && watched == {} && Valid()
    {
      this.faulty := faulty;
      managed, open, watched := map[], {}, {};
    }

    /** Every managed number is open and maps to an object carrying it, so
        distinct numbers map to distinct objects. */
    ghost predicate Valid()
      reads this, managed.Values
    {
      && managed.Keys <= open
      && (forall n :: n in open ==> n >= 0)
      && (forall n :: n in managed ==> managed[n].fd == n)
    }

    ghost function Tables(): View
      reads this
    {
      View(managed, open, watched)
    }

    /** d is the live object of its number, known to epoll. */
    ghost predicate Holds(d: Descriptor)
      reads this, d
    {
      d.fd in managed && managed[d.fd] == d && d.fd in watched
    }

    /** The kernel hands out any number that is not open, used before or not. */
    method SysOpen(n: int)
      requires Valid() && n >= 0 && n !in open
      modifies this`open
      ensures Valid() && open == old(open) + {n}
    {
      open := open + {n};
    }

    /** The kernel decides anew which closes report an error. */
    method SysReconsider(faulty: set<int>)
      requires Valid()
      modifies this`faulty
      ensures Valid() && this.faulty == faulty
    {
      this.faulty := faulty;
    }

    /** The precondition is that nothing is ever closed twice. */
    method SysClose(n: int) returns (ret: int)
      requires n in open
      modifies this`open, this`watched
      ensures open == old(open) - {n} && watched == old(watched) - {n}
      ensures ret == if n in faulty then -1 else 0
    {
      open := open - {n};
      watched := watched - {n};
      ret := if n in faulty then -1 else 0;
    }

    /** setOk is the outcome of making an open number non-blocking. */
    method RegisterFD(n: int, setOk: bool) returns (d: Descriptor?)
      requires Valid()
      modifies this`managed
      ensures Valid()
      ensures d == null <==> n !in open || !setOk
      ensures d == null ==> managed == old(managed)
      ensures d != null ==> fresh(d) && d.fd == n && managed == old(managed)[n := d]
    {
      // Reading the flags of a number that is not open fails.
      if n !in open {
        return null;
      }
      if !setOk {
        return null;
      }
      d := new Descriptor(n);
      managed := managed[n := d];
    }

    method Attach(d: Descriptor)
      requires Valid()
      modifies this`watched
      ensures Valid() && watched == old(watched) + if d.fd in open then {d.fd} else {}
    {
      if d.fd in open {
        watched := watched + {d.fd};
      }
    }

    /** Registration of an open number followed by attaching it, where a failing
        registration ends the process. */
    method RegisterAttached(n: int) returns (d: Descriptor)
      requires Valid() && n in open
      modifies this`managed, this`watched
      ensures Valid() && fresh(d) && d.fd == n
      ensures managed == old(managed)[n := d] && watched == old(watched) + {n}
    {
      d := RegisterFD(n, true);
      Attach(d);
    }

    /** Closes and forgets a live descriptor, once: a null or already closed one
        is refused and an object that lost its number stops the process. */
    method CloseAFD(d: Descriptor?) returns (outcome: Outcome)
      requires Valid()
      modifies this`managed, this`open, this`watched, if d == null then {} else {d}
      ensures Valid()
      ensures var known := d != null && old(d.fd) in old(managed);
              && (!known ==> outcome == Failed)
              && (known && !old(Holds(d)) ==> outcome == Exited)
              && (known && old(Holds(d)) ==> outcome == if old(d.fd) in faulty then Failed else Closed)
      ensures d == null || !old(Holds(d)) ==> Tables() == old(Tables()) && (d != null ==> d.fd == old(d.fd))
      ensures d != null && old(Holds(d)) ==>
                && d.fd == -1 && managed == old(managed) - {old(d.fd)}
                && open == old(open) - {old(d.fd)} && watched == old(watched) - {old(d.fd)}
    {
      if d == null {
        return Failed;
      }
      if d.fd !in managed {
        return Failed;
      }
      if managed[d.fd] != d {
        return Exited;
      }
      if d.fd !in watched {
        return Exited;
      }
      var sysCloseRet := SysClose(d.fd);
      managed := managed - {d.fd};
      d.fd := -1;
      return if sysCloseRet == 0 then Closed else Failed;
    }
  }

  /** What closing descriptors one after the other releases, stopping behind the
      first one that fails; -1 stands for an object that was closed before. */
  function Released(fds: seq<int>, faulty: set<int>): set<int> {
    if fds == [] || fds[0] == -1 then {}
    else if fds[0] in faulty then {fds[0]}
    else {fds[0]} + Released(fds[1..], faulty)
  }

  predicate AllClean(fds: seq<int>, faulty: set<int>) {
    forall i :: 0 <= i < |fds| ==> fds[i] != -1 && fds[i] !in faulty
  }

  /** Everything is released when all is clean. */
  lemma {:induction false} CleanReleasesAll(fds: seq<int>, faulty: set<int>)
    requires AllClean(fds, faulty)
    ensures Released(fds, faulty) == set i | 0 <= i < |fds| :: fds[i]
  {
    if fds != [] {
      CleanReleasesAll(fds[1..], faulty);
      assert forall i :: 0 < i < |fds| ==> fds[i] == fds[1..][i - 1];
    }
  }

  /** Behind a number that was closed before or fails nothing is released. */
  lemma DirtyHead(fds: seq<int>, faulty: set<int>)
    requires fds != [] && (fds[0] == -1 || fds[0] in faulty)
    ensures !AllClean(fds, faulty) && Released(fds, faulty) == if fds[0] == -1 then {} else {fds[0]}
  {
  }

  /** A clean number in front changes nothing behind it. */
  lemma CleanCons(fd: int, fds: seq<int>, faulty: set<int>)
    requires fd != -1 && fd !in faulty
    ensures AllClean([fd] + fds, faulty) <==> AllClean(fds, faulty)
    ensures Released([fd] + fds, faulty) == {fd} + Released(fds, faulty)
  {
    var all := [fd] + fds;
    assert all[1..] == fds;
    if AllClean(all, faulty) {
      forall i | 0 <= i < |fds| ensures fds[i] != -1 && fds[i] !in faulty {
        assert all[i + 1] == fds[i];
      }
    }
  }

  /** A command: its own wait descriptor and the pipes not closed yet. */
  class AsyncCommand {
    const wait: Descriptor
    var processId: int
    var stdIn: Descriptor?
    var stdOut: Descriptor?

    constructor (wait: Descriptor, processId: int, stdIn: Descriptor, stdOut: Descriptor)
      ensures this.wait == wait && this.processId == processId && this.stdIn == stdIn && this.stdOut == stdOut
    {
      this.wait, this.processId, this.stdIn, this.stdOut := wait, processId, stdIn, stdOut;
    }

    ghost function Objects(): set<object>
      reads this
    {
      {wait} + (if stdIn == null then {} else {stdIn}) + (if stdOut == null then {} else {stdOut})
    }

    /** Each remaining object is live, or closed by a close that reported an error. */
    ghost predicate WellFormed(io: IOContext)
      reads this, io, Objects()
    {
      && wait != stdIn && wait != stdOut && (stdIn != null ==> stdIn != stdOut)
      && (wait.fd == -1 || io.Holds(wait))
      && (stdIn != null ==> stdIn.fd == -1 || io.Holds(stdIn))
      && (stdOut != null ==> stdOut.fd == -1 || io.Holds(stdOut))
    }

    /** The numbers of the pipes a close has to go through, in its order. */
    ghost function Pipes(): seq<int>
      reads this, Objects()
    {
      (if stdIn == null then [] else [stdIn.fd]) + (if stdOut == null then [] else [stdOut.fd])
    }

    /** All the numbers a close has to go through. */
    ghost function Remaining(): seq<int>
      reads this, Objects()
    {
      Pipes() + [wait.fd]
    }

    method CloseStdIn(io: IOContext) returns (outcome: Outcome)
      requires io.Valid() && WellFormed(io)
      modifies this`stdIn, io`managed, io`open, io`watched, Objects()
      ensures io.Valid() && WellFormed(io)
      ensures stdOut == old(stdOut) && wait.fd == old(wait.fd) && (stdOut != null ==> stdOut.fd == old(stdOut.fd))
      ensures outcome == Closed <==> old(stdIn != null && stdIn.fd != -1 && stdIn.fd !in io.faulty)
      ensures outcome != Exited
      ensures stdIn == if outcome == Closed then null else old(stdIn)
      ensures stdIn != null ==> stdIn.fd == -1
      ensures var gone := if old(stdIn) == null || old(stdIn.fd) == -1 then {} else {old(stdIn.fd)};
              io.Tables() == Forget(old(io.Tables()), gone)
    {
      outcome := io.CloseAFD(stdIn);
      if outcome == Closed {
        stdIn := null;
      }
    }

    method CloseStdOut(io: IOContext) returns (outcome: Outcome)
      requires io.Valid() && WellFormed(io)
      modifies this`stdOut, io`managed, io`open, io`watched, Objects()
      ensures io.Valid() && WellFormed(io)
      ensures stdIn == old(stdIn) && wait.fd == old(wait.fd) && (stdIn != null ==> stdIn.fd == old(stdIn.fd))
      ensures outcome == Closed <==> old(stdOut != null && stdOut.fd != -1 && stdOut.fd !in io.faulty)
      ensures outcome != Exited
      ensures stdOut == if outcome == Closed then null else old(stdOut)
      ensures stdOut != null ==> stdOut.fd == -1
      ensures var gone := if old(stdOut) == null || old(stdOut.fd) == -1 then {} else {old(stdOut.fd)};
              io.Tables() == Forget(old(io.Tables()), gone)
    {
      outcome := io.CloseAFD(stdOut);
      if outcome == Closed {
        stdOut := null;
      }
    }

    /** Closing what is left once the pipes are gone. */
    method CloseWait(io: IOContext) returns (outcome: Outcome)
      requires io.Valid() && WellFormed(io) && stdIn == null && stdOut == null
      modifies this`processId, io`managed, io`open, io`watched, Objects()
      ensures io.Valid() && WellFormed(io) && wait.fd == -1 && processId == -1
      ensures outcome == Closed <==> AllClean(old(Remaining()), io.faulty)
      ensures outcome != Exited
      ensures var gone := Released(old(Remaining()), io.faulty);
              io.Tables() == Forget(old(io.Tables()), gone)
    {
      processId := -1;
      ghost var fds := Remaining();
      assert fds == [wait.fd];
      if wait.fd == -1 || wait.fd in io.faulty {
        DirtyHead(fds, io.faulty);
      } else {
        CleanCons(wait.fd, [], io.faulty);
        assert [wait.fd] + [] == fds;
      }
      ForgetTwice(io.Tables(), {}, {});
      outcome := io.CloseAFD(wait);
    }

    /** Closing what is left once standard input is gone. */
    method CloseTail(io: IOContext) returns (outcome: Outcome)
      requires io.Valid() && WellFormed(io) && stdIn == null
      modifies this`stdOut, this`processId, io`managed, io`open, io`watched, Objects()
      ensures io.Valid() && WellFormed(io)
      ensures outcome == Closed <==> AllClean(old(Remaining()), io.faulty)
      ensures outcome != Exited
      ensures var gone := Released(old(Remaining()), io.faulty);
              io.Tables() == Forget(old(io.Tables()), gone)
      ensures outcome == Closed ==> stdOut == null && wait.fd == -1 && processId == -1
      ensures stdOut == null || stdOut == old(stdOut)
      ensures if AllClean(old(Pipes()), io.faulty) then wait.fd == -1 && processId == -1
              else -1 in Pipes() && wait.fd == old(wait.fd) && processId == old(processId)
    {
      if stdOut != null {
        ghost var fd, rest, before := stdOut.fd, wait.fd, io.Tables();
        assert Remaining() == [fd] + [rest] && Pipes() == [fd] + [];
        if fd == -1 || fd in io.faulty {
          DirtyHead([fd] + [rest], io.faulty);
          DirtyHead([fd] + [], io.faulty);
        } else {
          CleanCons(fd, [rest], io.faulty);
          CleanCons(fd, [], io.faulty);
        }
        outcome := CloseStdOut(io);
        if outcome != Closed {
          assert Pipes() == [-1];
          return Failed;
        }
        assert Remaining() == [rest];
        ForgetTwice(before, {fd}, Released([rest], io.faulty));
      }
      outcome := CloseWait(io);
    }

    /** The first close of several: it decides, or leaves the decision to the rest. */
    method CloseStdInFirst(io: IOContext) returns (outcome: Outcome)
      requires io.Valid() && WellFormed(io) && stdIn != null
      modifies this`stdIn, io`managed, io`open, io`watched, Objects()
      ensures io.Valid() && WellFormed(io) && outcome != Exited
      ensures stdOut == old(stdOut) && wait.fd == old(wait.fd)
      ensures outcome != Closed ==>
                && stdIn == old(stdIn) && -1 in Pipes()
                && !AllClean(old(Remaining()), io.faulty) && !AllClean(old(Pipes()), io.faulty)
                && io.Tables() == Forget(old(io.Tables()), Released(old(Remaining()), io.faulty))
      ensures outcome == Closed ==>
                && stdIn == null && io.Tables() == Forget(old(io.Tables()), {old(stdIn.fd)})
                && (AllClean(old(Remaining()), io.faulty) <==> AllClean(Remaining(), io.faulty))
                && (AllClean(old(Pipes()), io.faulty) <==> AllClean(Pipes(), io.faulty))
                && Released(old(Remaining()), io.faulty) == {old(stdIn.fd)} + Released(Remaining(), io.faulty)
    {
      ghost var fd, pipes := stdIn.fd, if stdOut == null then [] else [stdOut.fd];
      ghost var rest := pipes + [wait.fd];
      assert Remaining() == [fd] + rest && Pipes() == [fd] + pipes;
      if fd == -1 || fd in io.faulty {
        DirtyHead([fd] + rest, io.faulty);
        DirtyHead([fd] + pipes, io.faulty);
      } else {
        CleanCons(fd, rest, io.faulty);
        CleanCons(fd, pipes, io.faulty);
      }
      outcome := CloseStdIn(io);
      if outcome == Closed {
        assert Remaining() == rest && Pipes() == pipes;
      } else {
        assert Pipes()[0] == -1;
      }
    }

    /** Closing a command releases its remaining pipes and its wait descriptor,
        whichever pipes were closed before, exactly when no close involved
        reports an error; the first error strands what comes behind it, and one
        at a pipe leaves that pipe behind as closed and the wait descriptor live. */
    method CloseCommand(io: IOContext) returns (outcome: Outcome)
      requires io.Valid() && WellFormed(io)
      modifies this`stdIn, this`stdOut, this`processId, io`managed, io`open, io`watched, Objects()
      ensures io.Valid() && WellFormed(io)
      ensures (stdIn == null || stdIn == old(stdIn)) && (stdOut == null || stdOut == old(stdOut))
      ensures outcome == Closed <==> AllClean(old(Remaining()), io.faulty)
      ensures outcome != Exited
      ensures var gone := Released(old(Remaining()), io.faulty);
              io.Tables() == Forget(old(io.Tables()), gone)
      ensures outcome == Closed ==> stdIn == null && stdOut == null && wait.fd == -1 && processId == -1
      ensures if AllClean(old(Pipes()), io.faulty) then wait.fd == -1 && processId == -1
              else -1 in Pipes() && wait.fd == old(wait.fd) && processId == old(processId)
    {
      ghost var before := io.Tables();
      if stdIn != null {
        ghost var fd := stdIn.fd;
        outcome := CloseStdInFirst(io);
        if outcome != Closed {
          return Failed;
        }
        ForgetTwice(before, {fd}, Released(Remaining(), io.faulty));
      }
      outcome := CloseTail(io);
    }
  }

  /** Starting a command puts its three descriptors under management. */
  method Execute(io: IOContext, processId: int, waitFd: int, outFd: int, inFd: int) returns (command: AsyncCommand)
    requires io.Valid() && {waitFd, outFd, inFd} <= io.open
    requires waitFd != outFd && outFd != inFd && inFd != waitFd
    modifies io`managed, io`watched
    ensures io.Valid() && fresh(command) && command.WellFormed(io)
    ensures command.Remaining() == [inFd, outFd, waitFd] && command.processId == processId
    ensures io.managed.Keys == old(io.managed.Keys) + {waitFd, outFd, inFd}
    ensures forall n :: n in old(io.managed) && n !in {waitFd, outFd, inFd} ==> io.managed[n] == old(io.managed)[n]
  {
    var wait := io.RegisterAttached(waitFd);
    var stdOut := io.RegisterAttached(outFd);
    var stdIn := io.RegisterAttached(inFd);
    command := new AsyncCommand(wait, processId, stdIn, stdOut);
  }

  /** Any number of further attempts to close a command with a pipe that was
      closed by a close reporting an error, whatever closes report by then: they
      all fail and the wait descriptor stays as it is. */
  method CloseAgain(io: IOContext, command: AsyncCommand, later: seq<set<int>>) returns (outcomes: seq<Outcome>)
    requires io.Valid() && command.WellFormed(io) && -1 in command.Pipes()
    modifies command, io, command.Objects()
    ensures |outcomes| == |later| && forall i :: 0 <= i < |later| ==> outcomes[i] == Failed
    ensures io.Valid() && command.WellFormed(io) && -1 in command.Pipes()
    ensures command.wait.fd == old(command.wait.fd)
  {
    outcomes := [];
    for i := 0 to |later|
      invariant |outcomes| == i && forall j :: 0 <= j < i ==> outcomes[j] == Failed
      invariant io.Valid() && command.WellFormed(io) && -1 in command.Pipes()
      invariant command.wait.fd == old(command.wait.fd) && command.Objects() <= old(command.Objects())
    {
      io.SysReconsider(later[i]);
      var outcome := command.CloseCommand(io);
      outcomes := outcomes + [outcome];
    }
  }

  /** After a close of either pipe that reported an error the command can never be
      closed: every later attempt fails and the wait descriptor stays managed. */
  method CloseAfterFault(io: IOContext, command: AsyncCommand, later: seq<set<int>>)
    returns (first: Outcome, outcomes: seq<Outcome>)
    requires io.Valid() && command.WellFormed(io) && command.wait.fd != -1
    requires !AllClean(command.Pipes(), io.faulty)
    modifies command, io, command.Objects()
    ensures first == Failed && |outcomes| == |later| && forall i :: 0 <= i < |later| ==> outcomes[i] == Failed
    ensures io.Valid() && old(command.wait.fd) in io.managed && io.managed[old(command.wait.fd)] == command.wait
  {
    first := command.CloseCommand(io);
    outcomes := CloseAgain(io, command, later);
  }
}
