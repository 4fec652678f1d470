/**
 The daemon object: per-type states beside the type configuration, both updated
 in place by merging, bleaching, loading and registering.
 */
module Daemon {
  import opened Options
  import opened Store
  import opened BleachClock

  type TypeName = string

  datatype TypeConf = TypeConf(scope: string, updateInterval: nat, bleachTtl: nat)

  type Configuration = map<TypeName, TypeConf>

  const TYPE_NAME_MAX_LENGTH: nat := 128

  /** What reading the configuration file yields: nothing when it cannot be
      opened or parsed, else the decoded map and whether decoding was clean. */
  datatype ConfigFile = Unreadable | Parsed(conf: Configuration, clean: bool)

  /** The states a completed load leaves behind: exactly the configured types,
      surviving ones untouched and new ones empty. */
  function Reconciled(states: map<TypeName, State>, conf: Configuration): map<TypeName, State> {
    map t | t in conf :: if t in states then states[t] else map[]
  }

  predicate AllParsed(files: seq<ConfigFile>) {
    forall i :: 0 <= i < |files| ==> files[i].Parsed?
  }

  function Bleached(states: map<TypeName, State>, times: nat): map<TypeName, State> {
    map t | t in states :: Bleach(states[t], times)
  }

  /** The states after each file in turn was loaded and every type it configures
      bleached by its tick. */
  function LoopStates(states: map<TypeName, State>, files: seq<ConfigFile>, ticks: seq<nat>): map<TypeName, State>
    requires |files| == |ticks| && AllParsed(files)
  {
    if files == [] then states
    else
      var n := |files| - 1;
      Bleached(Reconciled(LoopStates(states, files[..n], ticks[..n]), files[n].conf), ticks[n])
  }

  /** The last tick of a loop is that of its last gap. */
  lemma TicksSnoc(start: int, readings: seq<Reading>, n: nat)
    requires n < |readings|
    ensures Ticks(Gaps(start, readings[..n + 1]))
            == Ticks(Gaps(start, readings[..n]))
               + [WholeSeconds(readings[n].measured - LastCompleted(start, readings[..n]))]
  {
    var now := Gaps(start, readings[..n + 1]);
    assert readings[..n + 1][..n] == readings[..n];
    assert now[..n] == Gaps(start, readings[..n]);
  }

  lemma LoopSnoc(states: map<TypeName, State>, files: seq<ConfigFile>, ticks: seq<nat>, n: nat, tick: nat)
    requires n < |files| && n == |ticks| && AllParsed(files[..n]) && files[n].Parsed?
    ensures AllParsed(files[..n + 1])
    ensures LoopStates(states, files[..n + 1], ticks + [tick])
            == Bleached(Reconciled(LoopStates(states, files[..n], ticks), files[n].conf), tick)
  {
    assert files[..n + 1][..n] == files[..n] && (ticks + [tick])[..n] == ticks;
  }

  /** The loop leaves exactly the types of the last file. One that was stored
      and configured all along went through exactly the ticks; one that was
      missing from any file on the way, or from the start, is empty. */
  lemma {:induction false} LoopStatesAre(states: map<TypeName, State>, files: seq<ConfigFile>, ticks: seq<nat>,
          t: TypeName)
    requires |files| == |ticks| && AllParsed(files) && files != []
    ensures var after := LoopStates(states, files, ticks);
            && (t in after <==> t in files[|files| - 1].conf)
            && (t in after ==>
                  after[t] == if t in states && InEvery(files, t) then BleachAll(states[t], ticks) else map[])
  {
    var n := |files| - 1;
    var before := LoopStates(states, files[..n], ticks[..n]);
    if n > 0 {
      LoopStatesAre(states, files[..n], ticks[..n], t);
      InEverySnoc(files, t);
    } else {
      assert BleachAll(map[], ticks[..0]) == map[];
    }
    if t in files[n].conf {
      assert LoopStates(states, files, ticks)[t] == Bleach(if t in before then before[t] else map[], ticks[n]);
    }
  }

  /** An entry of a type that is stored and configured all along goes exactly by
      the total of the ticks, and this total is known from the clock readings. */
  lemma LoopDecay(states: map<TypeName, State>, files: seq<ConfigFile>, start: int, readings: seq<Reading>,
          t: TypeName, k: Key)
    requires |files| == |readings| && files != [] && AllParsed(files) && InEvery(files, t)
    requires t in states && k in states[t] && Spaced(start, readings)
    ensures var after := LoopStates(states, files, Ticks(Gaps(start, readings)));
            var n, total := |readings|, Sum(Ticks(Gaps(start, readings)));
            var between := readings[n - 1].measured - start - Overhead(readings[..n - 1]);
            && t in after && (k in after[t] <==> states[t][k].ttl > total)
            && n <= total && between - n * SECOND < total * SECOND <= between + n * MILLISECOND
  {
    var gaps := Gaps(start, readings);
    LoopStatesAre(states, files, Ticks(gaps), t);
    UnmergedEntryDecay(states[t], gaps, k);
    ClockBound(start, readings);
  }

  predicate InEvery(files: seq<ConfigFile>, t: TypeName)
    requires AllParsed(files)
  {
    forall i :: 0 <= i < |files| ==> t in files[i].conf
  }

  lemma InEverySnoc(files: seq<ConfigFile>, t: TypeName)
    requires AllParsed(files) && files != []
    ensures InEvery(files, t) <==> InEvery(files[..|files| - 1], t) && t in files[|files| - 1].conf
  {
    var front := files[..|files| - 1];
    assert forall i :: 0 <= i < |front| ==> front[i] == files[i];
  }

  /** The merge loop's progress when the keys of todo are still to come. */
  ghost predicate MergeHalfway(host: Host, remote: bool, before: State, slice: State, todo: set<Key>, tState: State,
          changes: int) {
    && todo <= slice.Keys
    && tState == Store.Merge(Deployed, host, remote, before, slice - todo)
    && changes == |Changed(before, tState)|
  }

  lemma MergeStart(host: Host, remote: bool, before: State, slice: State)
    ensures MergeHalfway(host, remote, before, slice, slice.Keys, before, 0)
  {
  }

  lemma MergeStep(host: Host, remote: bool, before: State, slice: State, todo: set<Key>, tState: State,
          changes: int, k: Key)
    requires MergeHalfway(host, remote, before, slice, todo, tState, changes) && k in todo
    ensures var after := Store.Merge(Deployed, host, remote, tState, map[k := slice[k]]);
            MergeHalfway(host, remote, before, slice, todo - {k}, after, changes + |Changed(tState, after)|)
  {
    MergeOneMore(Deployed, host, remote, before, slice, todo, k);
  }

  lemma MergeEnd(host: Host, remote: bool, before: State, slice: State, tState: State, changes: int)
    requires MergeHalfway(host, remote, before, slice, {}, tState, changes)
    ensures tState == Store.Merge(Deployed, host, remote, before, slice) && changes == |Changed(before, tState)|
  {
  }

  class SharedState {
    const host: Host
    const isPeer: bool
    var states: map<TypeName, State>
    var typeConf: Configuration

    constructor (host: Host, isPeer: bool)
      ensures this.host == host && this.isPeer == isPeer
      ensures states == map[] && typeConf == map[] && Aligned()
    {
      this.host, this.isPeer := host, isPeer;
      states, typeConf := map[], map[];
    }

    /** Every type with stored state has a configuration. */
    ghost predicate Aligned()
      reads this
    {
      states.Keys <= typeConf.Keys
    }

    /** Merges a slice in place; the result counts the keys whose clean view
        changed, or is -1 for an unknown type. */
    method Merge(typeName: TypeName, slice: State, remote: bool) returns (changes: int)
      requires Aligned()
      modifies this`states
      ensures Aligned()
      ensures typeName !in old(states) ==> changes == -1 && states == old(states)
      ensures typeName in old(states) ==>
                && states == old(states)[typeName := Store.Merge(Deployed, host, remote, old(states)[typeName], slice)]
                && changes == |Changed(old(states)[typeName], states[typeName])|
    {
      if typeName !in states {
        return -1;
      }
      // The lookup that would throw for an unconfigured type.
      var updateInterval := typeConf[typeName].updateInterval;

      var tState;
      tState, changes := MergeLoop(host, states[typeName], slice, remote);
      states := states[typeName := tState];
    }

    /** The merge loop over one type's state, in any key order. */
    static method MergeLoop(host: Host, before: State, slice: State, remote: bool)
      returns (tState: State, significantChanges: int)
      ensures tState == Store.Merge(Deployed, host, remote, before, slice)
      ensures significantChanges == |Changed(before, tState)|
    {
      tState, significantChanges := before, 0;
      var todo := slice.Keys;
      MergeStart(host, remote, tState, slice);
      while todo != {}
        invariant MergeHalfway(host, remote, before, slice, todo, tState, significantChanges)
        decreases todo
      {
        var stateKey :| stateKey in todo;
        MergeStep(host, remote, before, slice, todo, tState, significantChanges, stateKey);
        var significant;
        tState, significant := MergeOne(host, tState, stateKey, slice[stateKey], remote);
        significantChanges := significantChanges + if significant then 1 else 0;
        todo := todo - {stateKey};
      }
      MergeEnd(host, remote, before, slice, tState, significantChanges);
    }

    /** One iteration of the merge loop. */
    static method MergeOne(host: Host, tState: State, stateKey: Key, sliceEntry: Entry, remote: bool)
      returns (merged: State, significant: bool)
      ensures merged == Store.Merge(Deployed, host, remote, tState, map[stateKey := sliceEntry])
      ensures Changed(tState, merged) == if significant then {stateKey} else {}
    {
      if stateKey !in tState {
        merged := tState[stateKey := sliceEntry];
        assert stateKey in Changed(tState, merged);
        return merged, true;
      }
      var knownEntry := tState[stateKey];
      var ownAuthorship := knownEntry.author == host;
      if remote && ownAuthorship && sliceEntry.ttl > knownEntry.ttl {
        return tState, false;
      }
      merged, significant := tState, false;
      if sliceEntry.ttl >= knownEntry.ttl {
        significant := knownEntry.data != sliceEntry.data;
        merged := (tState - {stateKey})[stateKey := sliceEntry];
        assert significant ==> stateKey in Changed(tState, merged);
      }
    }

    /** Expires and decrements; the result counts the removed keys, or is -1 for
        a time below one second or an unknown type. */
    method BleachType(typeName: TypeName, times: int) returns (removed: int)
      modifies this`states
      ensures times < 1 || typeName !in old(states) ==> removed == -1 && states == old(states)
      ensures times >= 1 && typeName in old(states) ==>
                && states == old(states)[typeName := Bleach(old(states)[typeName], times)]
                && removed == |old(states)[typeName]| - |states[typeName]|
    {
      if times < 1 || typeName !in states {
        return -1;
      }
      var before := states[typeName];
      var tState := before;
      var gone := Expired(tState, times);
      tState := tState - gone;
      var todo := tState.Keys;
      while todo != {}
        invariant todo <= tState.Keys == before.Keys - gone
        invariant forall k :: k in tState ==>
          tState[k] == if k in todo then before[k] else before[k].(ttl := before[k].ttl - times)
        decreases todo
      {
        var key :| key in todo;
        tState := tState[key := tState[key].(ttl := tState[key].ttl - times)];
        todo := todo - {key};
      }
      assert tState == Bleach(before, times);
      ExpiredAreGone(before, times);
      states := states[typeName := tState];
      return |gone|;
    }

    /** One pass of the bleach loop over every configured type. */
    method BleachConfigured(times: nat)
      requires times >= 1 && states.Keys == typeConf.Keys
      modifies this`states
      ensures states == Bleached(old(states), times)
    {
      var todo := typeConf.Keys;
      while todo != {}
        invariant todo <= typeConf.Keys
        invariant states.Keys == old(states).Keys
        invariant forall t :: t in states ==>
          states[t] == if t in typeConf && t !in todo then Bleach(old(states)[t], times) else old(states)[t]
        decreases todo
      {
        var typeName :| typeName in todo;
        var _ := BleachType(typeName, times);
        todo := todo - {typeName};
      }
      assert states == Bleached(old(states), times);
    }

    /** Replaces the configuration by what the file holds and reconciles the
        states with it. */
    method LoadRegisteredTypes(file: ConfigFile) returns (ok: bool)
      modifies this
      ensures ok <==> file.Parsed? && file.clean
      ensures file.Unreadable? ==> states == old(states) && typeConf == old(typeConf)
      ensures file.Parsed? ==> typeConf == file.conf && states == Reconciled(old(states), file.conf)
      ensures old(Aligned()) ==> Aligned()
    {
      if file.Unreadable? {
        return false;
      }
      typeConf := file.conf;

      var missing := typeConf.Keys;
      while missing != {}
        invariant typeConf == file.conf && missing <= typeConf.Keys
        invariant states.Keys == old(states).Keys + (typeConf.Keys - missing)
        invariant forall t :: t in states ==> states[t] == if t in old(states) then old(states)[t] else map[]
        decreases missing
      {
        var typeName :| typeName in missing;
        if typeName !in states {
          states := states[typeName := map[]];
        }
        missing := missing - {typeName};
      }

      var visit := states.Keys;
      while visit != {}
        invariant typeConf == file.conf && visit <= states.Keys
        invariant typeConf.Keys <= states.Keys <= typeConf.Keys + visit
        invariant forall t :: t in states ==> states[t] == if t in old(states) then old(states)[t] else map[]
        decreases visit
      {
        var typeName :| typeName in visit;
        if typeName !in typeConf {
          states := states - {typeName};
        }
        visit := visit - {typeName};
      }
      assert states == Reconciled(old(states), file.conf);
      return file.clean;
    }

    /** One iteration of the bleach loop, with a file that can be read. */
    method BleachIteration(file: ConfigFile, elapsed: int)
      requires file.Parsed?
      modifies this
      ensures typeConf == file.conf
      ensures states == Bleached(Reconciled(old(states), file.conf), WholeSeconds(elapsed))
    {
      var _ := LoadRegisteredTypes(file);
      var bleachTimes := if elapsed > SECOND then elapsed else SECOND;
      BleachConfigured(bleachTimes / SECOND);
    }

    /** The bleach loop over a finite run of configuration files and clock
        readings: it ends the process at the first file that cannot be read, and
        until then reloads and bleaches by the whole seconds of the measured gap. */
    method BleachDataLoop(start: int, files: seq<ConfigFile>, readings: seq<Reading>) returns (done: nat)
      requires Aligned() && |files| == |readings|
      modifies this
      ensures Aligned()
      ensures done <= |files| && AllParsed(files[..done]) && (done < |files| ==> files[done].Unreadable?)
      ensures states == LoopStates(old(states), files[..done], Ticks(Gaps(start, readings[..done])))
      ensures typeConf == if done == 0 then old(typeConf) else files[done - 1].conf
    {
      var lastBleachCompleted := start;
      ghost var ticks: seq<nat> := [];
      done := 0;
      while done < |files|
        invariant done <= |files| && AllParsed(files[..done]) && |ticks| == done
        invariant lastBleachCompleted == LastCompleted(start, readings[..done])
        invariant ticks == Ticks(Gaps(start, readings[..done]))
        invariant states == LoopStates(old(states), files[..done], ticks)
        invariant Aligned() && typeConf == if done == 0 then old(typeConf) else files[done - 1].conf
      {
        if files[done].Unreadable? {
          return;
        }
        var elapsed := readings[done].measured - lastBleachCompleted;
        BleachIteration(files[done], elapsed);
        lastBleachCompleted := readings[done].completed;
        TicksSnoc(start, readings, done);
        LoopSnoc(old(states), files, ticks, done, WholeSeconds(elapsed));
        ticks := ticks + [WholeSeconds(elapsed)];
        done := done + 1;
      }
    }

    /** Reloads, then records one type. directoryOk and writeOk are the outcomes
        of creating the configuration directory and of writing the file. */
    method RegisterDataType(typeName: TypeName, conf: TypeConf, file: ConfigFile, directoryOk: bool, writeOk: bool)
      returns (ok: bool)
      requires Aligned()
      modifies this
      ensures Aligned()
      ensures var named := 1 <= |typeName| <= 128;
              var ready := (file.Parsed? && file.clean) || directoryOk;
              var base := if named && file.Parsed? then file.conf else old(typeConf);
              && (ok <==> named && ready && writeOk)
              && typeConf == (if named && ready then base[typeName := conf] else base)
              && states == (if named && file.Parsed? then Reconciled(old(states), file.conf) else old(states))
    {
      if typeName == [] || |typeName| > TYPE_NAME_MAX_LENGTH {
        return false;
      }
      var loaded := LoadRegisteredTypes(file);
      if !loaded && !directoryOk {
        return false;
      }
      typeConf := typeConf[typeName := conf];
      return writeOk;
    }

    /** Client side, first leg: the snapshot sent to the peer. */
    method BeginSync(typeName: TypeName) returns (request: Option<State>)
      ensures request == if typeName in states then Some(states[typeName]) else None
    {
      if typeName !in states {
        return None;
      }
      return Some(states[typeName]);
    }

    /** Server side: merge and reply snapshot are one step, there is no
        suspension point between them. sent and recorded are the outcomes of
        sending the reply and of collecting the statistics; hooks run only behind
        both, when the view changed. */
    method HandleRequest(typeName: TypeName, slice: State, remote: bool, sent: bool, recorded: bool)
      returns (reply: Option<State>, ok: bool, notify: bool)
      requires Aligned()
      modifies this`states
      ensures Aligned()
      ensures reply.None? <==> typeName !in old(states)
      ensures ok <==> reply.Some? && sent && recorded
      ensures reply.None? ==> states == old(states) && !notify
      ensures reply.Some? ==>
                && reply.value == Store.Merge(Deployed, host, remote, old(states)[typeName], slice)
                && states == old(states)[typeName := reply.value]
                && (notify <==> ok && isPeer && CleanView(reply.value) != CleanView(old(states)[typeName]))
    {
      var changes := Merge(typeName, slice, remote);
      if changes == -1 {
        return None, false, false;
      }
      reply := Some(states[typeName]);
      if !sent {
        return reply, false, false;
      }
      if !recorded {
        return reply, false, false;
      }
      ChangedIsViewDifference(old(states)[typeName], states[typeName]);
      return reply, true, isPeer && changes > 0;
    }

    /** Client side, second leg: the reply is merged into whatever the state is by
        then, and kept even when collecting the statistics fails. */
    method FinishSync(typeName: TypeName, reply: State, remote: bool, recorded: bool) returns (ok: bool, notify: bool)
      requires Aligned()
      modifies this`states
      ensures Aligned()
      ensures ok <==> typeName in old(states) && recorded
      ensures typeName !in old(states) ==> states == old(states) && !notify
      ensures typeName in old(states) ==>
                && states == old(states)[typeName := Store.Merge(Deployed, host, remote, old(states)[typeName], reply)]
                && (notify <==> ok && isPeer && CleanView(states[typeName]) != CleanView(old(states)[typeName]))
    {
      var changes := Merge(typeName, reply, remote);
      if changes == -1 {
        return false, false;
      }
      if !recorded {
        return false, false;
      }
      ChangedIsViewDifference(old(states)[typeName], states[typeName]);
      return true, isPeer && changes > 0;
    }
  }

  /** A whole session between two daemons with nothing in between and nothing
      failing: it succeeds when both know the type, and then they agree on a key
      unless one side was locked out of it. */
  method RunSession(client: SharedState, server: SharedState, typeName: TypeName, remote: bool) returns (ok: bool)
    requires client != server && client.Aligned() && server.Aligned()
    modifies client`states, server`states
    ensures client.Aligned() && server.Aligned()
    ensures ok <==> typeName in old(client.states) && typeName in old(server.states)
    ensures !ok ==> client.states == old(client.states) && server.states == old(server.states)
    ensures ok ==>
              && client.states.Keys == old(client.states).Keys && server.states.Keys == old(server.states).Keys
              && forall k ::
                   var mine, theirs := old(client.states)[typeName], old(server.states)[typeName];
                   AgreeOn(client.states[typeName], server.states[typeName], k)
                   <==> !(remote && Lockout(client.host, server.host, mine, theirs, k))
    ensures ok ==>
              (client.states[typeName], server.states[typeName])
              == Session(client.host, server.host, remote, old(client.states)[typeName], old(server.states)[typeName])
    ensures client.states - {typeName} == old(client.states) - {typeName}
    ensures server.states - {typeName} == old(server.states) - {typeName}
  {
    var request := client.BeginSync(typeName);
    if request.None? {
      return false;
    }
    var reply, _, _ := server.HandleRequest(typeName, request.value, remote, true, true);
    if reply.None? {
      return false;
    }
    var _, _ := client.FinishSync(typeName, reply.value, remote, true);
    ghost var mine, theirs := old(client.states)[typeName], old(server.states)[typeName];
    forall k: Key
      ensures AgreeOn(client.states[typeName], server.states[typeName], k)
         <==> !(remote && Lockout(client.host, server.host, mine, theirs, k))
    {
      if remote {
        SessionOutcome(client.host, server.host, mine, theirs, k);
      } else {
        LoopbackSessionAgrees(client.host, server.host, mine, theirs);
      }
    }
    return true;
  }

  /** The TTL the insert command gives every entry. */
  function InsertTtl(conf: TypeConf): int {
    conf.bleachTtl + conf.updateInterval + 1
  }

  /** The slice an insert command sends to its daemon over loopback. */
  function CliSlice(host: Host, conf: TypeConf, entries: map<Key, Data>): State {
    map k | k in entries :: Entry(host, InsertTtl(conf), entries[k])
  }

  /** An inserted entry that nobody merges over is there, unaltered but for its
      TTL, as long as no more than the bleach TTL and the update interval of its
      type have passed, and gone one second later. */
  lemma InsertLifetime(host: Host, conf: TypeConf, entries: map<Key, Data>, ds: seq<nat>, k: Key)
    requires k in entries
    ensures var after, total := BleachAll(CliSlice(host, conf, entries), ds), Sum(ds);
            && (k in after <==> total <= conf.bleachTtl + conf.updateInterval)
            && (k in after ==>
                  after[k] == Entry(host, conf.bleachTtl + conf.updateInterval + 1 - total, entries[k]))
  {
    var slice := CliSlice(host, conf, entries);
    if ds == [] {
      assert Sum(ds) == 0;
    } else {
      BleachAction(slice, ds);
    }
  }

  /** The insert command: a short-lived instance on the same host fills its own
      state and syncs it over loopback. If no entry of the daemon outlives a
      fresh one, the daemon ends up with exactly what was inserted on top of
      what it had, and the command with the same. */
  method InsertCommand(cli: SharedState, daemon: SharedState, typeName: TypeName, entries: map<Key, Data>)
    returns (ok: bool)
    requires cli != daemon && cli.Aligned() && daemon.Aligned()
    requires typeName in cli.states ==> cli.states[typeName] == map[]
    modifies cli`states, daemon`states
    ensures cli.Aligned() && daemon.Aligned()
    ensures ok <==> typeName in old(cli.states) && typeName in old(daemon.states)
    ensures !ok ==> daemon.states == old(daemon.states)
    ensures ok ==>
              var before, slice := old(daemon.states)[typeName], CliSlice(cli.host, cli.typeConf[typeName], entries);
              && daemon.states.Keys == old(daemon.states).Keys
              && daemon.states - {typeName} == old(daemon.states) - {typeName}
              && daemon.states[typeName] == Store.Merge(Deployed, daemon.host, false, before, slice)
              && typeName in cli.states && cli.states[typeName] == daemon.states[typeName]
              && ((forall k :: k in before ==> before[k].ttl <= InsertTtl(cli.typeConf[typeName])) ==>
                    daemon.states[typeName] == before + slice)
  {
    if typeName !in cli.states {
      return false;
    }
    ghost var slice := CliSlice(cli.host, cli.typeConf[typeName], entries);
    FillFromInput(cli, typeName, entries);
    if typeName in daemon.states {
      LoopbackInsertSession(cli.host, daemon.host, slice, daemon.states[typeName]);
    }
    ok := RunSession(cli, daemon, typeName, false);
  }

  /** A loopback session of a fresh slice leaves both sides with the merge. */
  lemma LoopbackInsertSession(cliHost: Host, host: Host, slice: State, before: State)
    ensures var m := Store.Merge(Deployed, host, false, before, slice);
            && Session(cliHost, host, false, slice, before) == (m, m)
            && ((forall k :: k in before && k in slice ==> before[k].ttl <= slice[k].ttl) ==> m == before + slice)
  {
    LoopbackSessionAgrees(cliHost, host, slice, before);
    LoopbackInsert(host, before, slice);
  }

  method FillFromInput(cli: SharedState, typeName: TypeName, entries: map<Key, Data>)
    requires cli.Aligned() && typeName in cli.states && cli.states[typeName] == map[]
    modifies cli`states
    ensures cli.states == old(cli.states)[typeName := CliSlice(cli.host, cli.typeConf[typeName], entries)]
  {
    var conf := cli.typeConf[typeName];
    ghost var slice := CliSlice(cli.host, conf, entries);
    var tState: State := map[];
    var todo := entries.Keys;
    assert slice - todo == map[];
    while todo != {}
      invariant todo <= entries.Keys && tState == slice - todo
      invariant cli.states == old(cli.states)[typeName := tState]
      decreases todo
    {
      var key :| key in todo;
      var entry := Entry(cli.host, conf.bleachTtl + conf.updateInterval + 1, entries[key]);
      assert (slice - todo)[key := entry] == slice - (todo - {key});
      tState := tState[key := entry];
      cli.states := cli.states[typeName := tState];
      todo := todo - {key};
    }
    assert slice - {} == slice;
  }

  /** Over loopback a slice that nothing outlives replaces what it names. */
  lemma LoopbackInsert(host: Host, state: State, slice: State)
    ensures (forall k :: k in state && k in slice ==> state[k].ttl <= slice[k].ttl) ==>
              Store.Merge(Deployed, host, false, state, slice) == state + slice
  {
  }
}
