/** The supervisor's bookkeeping: the process registry as a state machine whose
    transitions (start all, restart all, the deferred start, restart one, kill
    one) return the next state together with the trace of effects they issue
    to the operating system. Spawning and killing are abstract effects; what
    the operating system answers (the pid a spawn gets, whether a kill signal
    raises) is an `Os` value passed in. */
module Supervisor {
  import opened Base
  import opened JsStrings
  import opened CommandTable

  /** A child process handle: its spawn serial number (the handle's identity),
      the table index it was launched from, and its pid, absent when the spawn
      did not produce one. */
  datatype Handle = Handle(id: nat, cmd: nat, pid: Option<int>)

  /** What the supervisor asks of the operating system. */
  datatype Effect =
    | ForceKill(pid: int)                      // `kill -9 <pid>` or `taskkill /F /PID <pid> /T`
    | Kill(handle: nat)                        // the runtime's `kill()` on a handle
    | Spawn(child: Handle, spec: LaunchSpec)   // `spawn(program, args)`

  /** The operating system's answers: the pid given to the child with a spawn
      serial number, and whether `kill()` on a handle raises. */
  datatype Os = Os(pidOf: nat -> Option<int>, killThrows: nat -> bool)

  /** The supervisor's state: the command table, the registry of handles, the
      next spawn serial number, and how many deferred starts are scheduled. */
  datatype State = State(table: seq<string>, registry: seq<Handle>, nextId: nat, pendingStarts: nat)

  /** Where a transition leaves the supervisor: still running, exited through
      `process.exit` with a status, or crashed on an uncaught exception. */
  datatype Outcome = Running(state: State) | Exited(code: int) | Crashed

  datatype Step = Step(outcome: Outcome, effects: seq<Effect>)

  // ---------------------------------------------------------------------------
  // Termination engine
  // ---------------------------------------------------------------------------

  /** JavaScript truthiness of a pid: present and not zero. */
  predicate PidTruthy(pid: Option<int>) {
    pid.Some? && pid.value != 0
  }

  /** `killProcessForce`: does nothing unless the pid is a number; otherwise it
      issues the force-kill, whose failure is caught and dropped, so the
      function has no failure result at all. */
  function KillProcessForce(pid: Option<int>): (effects: seq<Effect>)
    ensures effects == [] <==> pid.None?
    ensures forall k :: 0 <= k < |effects| ==> effects[k] == ForceKill(pid.value)
    ensures |effects| <= 1
  {
    if pid.None? then [] else [ForceKill(pid.value)]
  }

  /** The two-phase termination of one handle, as the three operations do it:
      a force-kill by pid when the pid is truthy, then the runtime's `kill()`. */
  function Terminate(h: Handle): (effects: seq<Effect>)
    ensures |effects| >= 1 && effects[|effects| - 1] == Kill(h.id)
    ensures |effects| == 2 <==> PidTruthy(h.pid)
    ensures |effects| <= 2
    ensures |effects| == 2 ==> effects[0] == ForceKill(h.pid.value)
  {
    (if PidTruthy(h.pid) then KillProcessForce(h.pid) else []) + [Kill(h.id)]
  }

  /** The concatenation of a sequence of traces. */
  function Flatten(traces: seq<seq<Effect>>): seq<Effect>
    decreases |traces|
  {
    if |traces| == 0 then [] else traces[0] + Flatten(traces[1..])
  }

  /** The termination trace of every handle, in registry order. */
  function Traces(hs: seq<Handle>): (ts: seq<seq<Effect>>)
    ensures |ts| == |hs|
    ensures forall k :: 0 <= k < |hs| ==> ts[k] == Terminate(hs[k])
  {
    seq(|hs|, k requires 0 <= k < |hs| => Terminate(hs[k]))
  }

  /** The handle ids that receive the runtime's `kill()`, in trace order. */
  function KillTargets(effects: seq<Effect>): seq<nat>
    decreases |effects|
  {
    if |effects| == 0 then []
    else (if effects[0].Kill? then [effects[0].handle] else []) + KillTargets(effects[1..])
  }

  /** The pids that are force-killed, in trace order. */
  function ForceKillTargets(effects: seq<Effect>): seq<int>
    decreases |effects|
  {
    if |effects| == 0 then []
    else (if effects[0].ForceKill? then [effects[0].pid] else []) + ForceKillTargets(effects[1..])
  }

  function Ids(hs: seq<Handle>): (ids: seq<nat>)
    ensures |ids| == |hs|
    ensures forall k :: 0 <= k < |hs| ==> ids[k] == hs[k].id
  {
    seq(|hs|, k requires 0 <= k < |hs| => hs[k].id)
  }

  /** The truthy pids of the handles, in order. */
  function TruthyPids(hs: seq<Handle>): seq<int>
    decreases |hs|
  {
    if |hs| == 0 then []
    else (if PidTruthy(hs[0].pid) then [hs[0].pid.value] else []) + TruthyPids(hs[1..])
  }

  lemma {:induction false} TargetsAppend(a: seq<Effect>, b: seq<Effect>)
    ensures KillTargets(a + b) == KillTargets(a) + KillTargets(b)
    ensures ForceKillTargets(a + b) == ForceKillTargets(a) + ForceKillTargets(b)
    decreases |a|
  {
    if |a| > 0 {
      assert (a + b)[0] == a[0];
      assert (a + b)[1..] == a[1..] + b;
      TargetsAppend(a[1..], b);
    } else {
      assert a + b == b;
    }
  }

  /** One termination kills its handle once and force-kills its pid when the
      pid is truthy. */
  lemma TerminateTargets(h: Handle)
    ensures KillTargets(Terminate(h)) == [h.id]
    ensures ForceKillTargets(Terminate(h)) == if PidTruthy(h.pid) then [h.pid.value] else []
  {
    var t := Terminate(h);
    if PidTruthy(h.pid) {
      assert t == [ForceKill(h.pid.value), Kill(h.id)];
      assert t[1..] == [Kill(h.id)];
      assert t[1..][1..] == [];
      assert KillTargets(t[1..]) == [h.id] && ForceKillTargets(t[1..]) == [];
    } else {
      assert t == [Kill(h.id)];
      assert t[1..] == [];
    }
  }

  /** Terminating every handle in order kills every handle exactly once, in
      registry order: no other handle is touched. */
  lemma {:induction false} TracesKillTargets(hs: seq<Handle>)
    ensures KillTargets(Flatten(Traces(hs))) == Ids(hs)
    decreases |hs|
  {
    if |hs| > 0 {
      FlattenTracesCons(hs);
      TargetsAppend(Terminate(hs[0]), Flatten(Traces(hs[1..])));
      TerminateTargets(hs[0]);
      TracesKillTargets(hs[1..]);
      assert Ids(hs) == [hs[0].id] + Ids(hs[1..]);
    }
  }

  /** The same sweep force-kills exactly the truthy pids, in registry order. */
  lemma {:induction false} TracesForceKillTargets(hs: seq<Handle>)
    ensures ForceKillTargets(Flatten(Traces(hs))) == TruthyPids(hs)
    decreases |hs|
  {
    if |hs| > 0 {
      FlattenTracesCons(hs);
      TargetsAppend(Terminate(hs[0]), Flatten(Traces(hs[1..])));
      TerminateTargets(hs[0]);
      TracesForceKillTargets(hs[1..]);
    }
  }

  /** How a sweep over the registry ended: its trace, and the slot whose
      `kill()` raised, if one did. */
  datatype Sweep = Sweep(effects: seq<Effect>, raisedAt: Option<nat>)

  lemma FlattenTracesCons(hs: seq<Handle>)
    requires |hs| > 0
    ensures Flatten(Traces(hs)) == Terminate(hs[0]) + Flatten(Traces(hs[1..]))
  {
    assert Traces(hs)[1..] == Traces(hs[1..]);
  }

  /** The loop of `restartAll`: terminate the handles in order, stopping at the
      first `kill()` that raises. */
  function TerminateEach(hs: seq<Handle>, os: Os): (r: Sweep)
    ensures r.raisedAt.None? <==> forall k :: 0 <= k < |hs| ==> !os.killThrows(hs[k].id)
    ensures r.raisedAt.None? ==> r.effects == Flatten(Traces(hs))
    ensures r.raisedAt.Some? ==>
              var j := r.raisedAt.value;
              && j < |hs|
              && os.killThrows(hs[j].id)
              && (forall k :: 0 <= k < j ==> !os.killThrows(hs[k].id))
              && r.effects == Flatten(Traces(hs[..j + 1]))
    decreases |hs|
  {
    if |hs| == 0 then Sweep([], None)
    else
      var first := Terminate(hs[0]);
      if os.killThrows(hs[0].id) then
        FlattenTracesCons(hs[..1]);
        assert Traces(hs[..1][1..]) == [];
        Sweep(first, Some(0))
      else
        var rest := TerminateEach(hs[1..], os);
        if rest.raisedAt.Some? then
          var j := rest.raisedAt.value;
          FlattenTracesCons(hs[..j + 2]);
          assert hs[1..][..j + 1] == hs[..j + 2][1..];
          Sweep(first + rest.effects, Some(j + 1))
        else
          FlattenTracesCons(hs);
          Sweep(first + rest.effects, None)
  }

  // ---------------------------------------------------------------------------
  // startProcesses
  // ---------------------------------------------------------------------------

  /** The handle the next spawn from table entry `cmd` produces. */
  function NewHandle(s: State, cmd: nat, os: Os): Handle {
    Handle(s.nextId, cmd, os.pidOf(s.nextId))
  }

  /** Every entry of the table from `i` on has a non-empty program token. */
  predicate LaunchableFrom(table: seq<string>, i: nat)
    requires i <= |table|
  {
    forall j :: i <= j < |table| ==> ParseCommand(table[j]).program != ""
  }

  /** The handles `n` consecutive spawns produce, for the table entries from
      `i` on, starting at spawn serial number `firstId`. */
  function Handles(i: nat, n: nat, firstId: nat, os: Os): (hs: seq<Handle>)
    ensures |hs| == n
    ensures forall k :: 0 <= k < n ==> hs[k].cmd == i + k && hs[k].id == firstId + k
  {
    seq(n, k requires 0 <= k < n => Handle(firstId + k, i + k, os.pidOf(firstId + k)))
  }

  /** The spawn effects for those handles, each with the launch spec of its entry. */
  function Launches(table: seq<string>, hs: seq<Handle>): (effects: seq<Effect>)
    requires forall k :: 0 <= k < |hs| ==> hs[k].cmd < |table|
    ensures |effects| == |hs|
  {
    seq(|hs|, k requires 0 <= k < |hs| => Spawn(hs[k], ParseCommand(table[hs[k].cmd])))
  }

  lemma LaunchesCons(table: seq<string>, h: Handle, hs: seq<Handle>)
    requires h.cmd < |table|
    requires forall k :: 0 <= k < |hs| ==> hs[k].cmd < |table|
    ensures Launches(table, [h] + hs) == [Spawn(h, ParseCommand(table[h.cmd]))] + Launches(table, hs)
  {
  }

  lemma HandlesCons(i: nat, n: nat, firstId: nat, os: Os)
    ensures Handles(i, n + 1, firstId, os) == [Handle(firstId, i, os.pidOf(firstId))] + Handles(i + 1, n, firstId + 1, os)
  {
  }

  lemma LaunchableFromStep(table: seq<string>, i: nat)
    requires i < |table|
    ensures LaunchableFrom(table, i) <==> ParseCommand(table[i]).program != "" && LaunchableFrom(table, i + 1)
  {
  }

  /** The loop of `startProcesses` from entry `i` on: spawn each entry in order
      and append its handle; the first entry whose program token is empty stops
      the supervisor with exit status 1, after the earlier spawns. */
  function StartFrom(s: State, i: nat, os: Os): (r: Step)
    requires i <= |s.table|
    ensures r.outcome.Running? <==> LaunchableFrom(s.table, i)
    ensures !r.outcome.Crashed?
    ensures r.outcome.Exited? ==> r.outcome.code == 1 && i + |r.effects| < |s.table|
    ensures r.outcome.Running? ==> |r.effects| == |s.table| - i
    decreases |s.table| - i
  {
    if i == |s.table| then Step(Running(s), [])
    else
      var spec := ParseCommand(s.table[i]);
      LaunchableFromStep(s.table, i);
      if spec.program == "" then Step(Exited(1), [])
      else
        var h := NewHandle(s, i, os);
        var rest := StartFrom(s.(registry := s.registry + [h], nextId := s.nextId + 1), i + 1, os);
        Step(rest.outcome, [Spawn(h, spec)] + rest.effects)
  }

  /** The trace of a start is the spawns of consecutive entries from `i` on,
      with consecutive serial numbers. */
  lemma {:induction false} StartFromTrace(s: State, i: nat, os: Os)
    requires i <= |s.table|
    ensures var r := StartFrom(s, i, os);
            r.effects == Launches(s.table, Handles(i, |r.effects|, s.nextId, os))
    decreases |s.table| - i
  {
    if i < |s.table| && ParseCommand(s.table[i]).program != "" {
      var h := NewHandle(s, i, os);
      var s1 := s.(registry := s.registry + [h], nextId := s.nextId + 1);
      var rest := StartFrom(s1, i + 1, os);
      StartFromTrace(s1, i + 1, os);
      var n := |rest.effects|;
      var tail := Handles(i + 1, n, s.nextId + 1, os);
      HandlesCons(i, n, s.nextId, os);
      LaunchesCons(s.table, h, tail);
      assert StartFrom(s, i, os).effects == [Spawn(h, ParseCommand(s.table[i]))] + rest.effects;
    }
  }

  /** One iteration of the start loop: spawn entry `i`, then go on. */
  lemma StartFromStep(s: State, i: nat, os: Os)
    requires i < |s.table| && ParseCommand(s.table[i]).program != ""
    ensures var h := NewHandle(s, i, os);
            var rest := StartFrom(s.(registry := s.registry + [h], nextId := s.nextId + 1), i + 1, os);
            StartFrom(s, i, os) == Step(rest.outcome, [Spawn(h, ParseCommand(s.table[i]))] + rest.effects)
  {
  }

  /** Every entry a start spawns has a program token. */
  lemma {:induction false} StartFromSpawnsLaunchable(s: State, i: nat, os: Os)
    requires i <= |s.table|
    ensures var r := StartFrom(s, i, os);
            forall j :: i <= j < i + |r.effects| ==> ParseCommand(s.table[j]).program != ""
    decreases |s.table| - i
  {
    if i < |s.table| && ParseCommand(s.table[i]).program != "" {
      var h := NewHandle(s, i, os);
      var s1 := s.(registry := s.registry + [h], nextId := s.nextId + 1);
      StartFromStep(s, i, os);
      StartFromSpawnsLaunchable(s1, i + 1, os);
      assert |StartFrom(s, i, os).effects| == 1 + |StartFrom(s1, i + 1, os).effects|;
    }
  }

  /** When a start exits, the entry after the last spawn is the one without a
      program token. */
  lemma {:induction false} StartFromExitsAt(s: State, i: nat, os: Os)
    requires i <= |s.table|
    ensures var r := StartFrom(s, i, os);
            r.outcome.Exited? ==> ParseCommand(s.table[i + |r.effects|]).program == ""
    decreases |s.table| - i
  {
    if i < |s.table| && ParseCommand(s.table[i]).program != "" {
      var h := NewHandle(s, i, os);
      var s1 := s.(registry := s.registry + [h], nextId := s.nextId + 1);
      StartFromStep(s, i, os);
      StartFromExitsAt(s1, i + 1, os);
    }
  }

  /** A start that runs to the end appends one handle per remaining entry and
      changes nothing else in the state. */
  lemma {:induction false} StartFromAppends(s: State, i: nat, os: Os)
    requires i <= |s.table|
    ensures var r := StartFrom(s, i, os);
            r.outcome.Running? ==>
              r.outcome.state == s.(registry := s.registry + Handles(i, |s.table| - i, s.nextId, os),
                                    nextId := s.nextId + (|s.table| - i))
    decreases |s.table| - i
  {
    if i < |s.table| && ParseCommand(s.table[i]).program != "" {
      var h := NewHandle(s, i, os);
      var s1 := s.(registry := s.registry + [h], nextId := s.nextId + 1);
      StartFromAppends(s1, i + 1, os);
      var n := |s.table| - (i + 1);
      var tail := Handles(i + 1, n, s.nextId + 1, os);
      HandlesCons(i, n, s.nextId, os);
      assert h == Handle(s.nextId, i, os.pidOf(s.nextId));
      assert (s.registry + [h]) + tail == s.registry + ([h] + tail);
      assert StartFrom(s, i, os).outcome == StartFrom(s1, i + 1, os).outcome;
    }
  }

  /** `startProcesses`: spawn the whole table and append the handles. */
  function StartProcesses(s: State, os: Os): Step
  {
    StartFrom(s, 0, os)
  }

  /** `startProcesses` from an empty registry: when every entry has a program
      token, the registry ends with one handle per entry, handle `i` spawned
      from entry `i`, and the spawns were issued in table order; otherwise the
      first entry without one exits with status 1 after the entries before it
      have been spawned. */
  lemma StartFromEmpty(s: State, os: Os)
    requires s.registry == []
    ensures var r := StartProcesses(s, os);
            && (r.outcome.Running? <==> LaunchableFrom(s.table, 0))
            && (r.outcome.Running? ==>
                  && |r.outcome.state.registry| == |s.table|
                  && (forall i :: 0 <= i < |s.table| ==> r.outcome.state.registry[i].cmd == i)
                  && |r.effects| == |s.table|
                  && (forall i :: 0 <= i < |s.table| ==>
                        r.effects[i] == Spawn(r.outcome.state.registry[i], ParseCommand(s.table[i]))))
            && (r.outcome.Exited? ==>
                  && r.outcome.code == 1
                  && |r.effects| < |s.table|
                  && ParseCommand(s.table[|r.effects|]).program == ""
                  && (forall k :: 0 <= k < |r.effects| ==> ParseCommand(s.table[k]).program != ""))
  {
    var r := StartProcesses(s, os);
    StartFromAppends(s, 0, os);
    StartFromTrace(s, 0, os);
    StartFromSpawnsLaunchable(s, 0, os);
    StartFromExitsAt(s, 0, os);
    if r.outcome.Running? {
      assert r.outcome.state.registry == Handles(0, |s.table|, s.nextId, os);
    }
  }

  // ---------------------------------------------------------------------------
  // restartAll and the deferred start
  // ---------------------------------------------------------------------------

  /** `restartAll`: terminate every handle in registry order; a `kill()` that
      raises is caught and the supervisor exits (status 0) at once; otherwise
      the registry is emptied and one start is deferred. */
  function RestartAll(s: State, os: Os): (r: Step)
    ensures r.outcome.Running? <==> forall k :: 0 <= k < |s.registry| ==> !os.killThrows(s.registry[k].id)
    ensures r.outcome.Running? ==>
              && r.outcome.state == s.(registry := [], pendingStarts := s.pendingStarts + 1)
              && r.effects == Flatten(Traces(s.registry))
    ensures r.outcome.Exited? ==>
              && r.outcome.code == 0
              && TerminateEach(s.registry, os).raisedAt.Some?
              && r.effects == TerminateEach(s.registry, os).effects
    ensures !r.outcome.Crashed?
  {
    var sweep := TerminateEach(s.registry, os);
    if sweep.raisedAt.Some? then Step(Exited(0), sweep.effects)
    else Step(Running(s.(registry := [], pendingStarts := s.pendingStarts + 1)), sweep.effects)
  }

  /** The deferred start firing: one scheduled start runs `startProcesses`,
      which appends to whatever the registry holds by then. */
  function FireDeferredStart(s: State, os: Os): (r: Step)
    requires s.pendingStarts > 0
    ensures r.outcome.Running? <==> LaunchableFrom(s.table, 0)
    ensures r.outcome.Running? ==>
              && r.outcome.state.pendingStarts == s.pendingStarts - 1
              && r.outcome.state.registry == s.registry + Handles(0, |s.table|, s.nextId, os)
              && r.outcome.state.nextId == s.nextId + |s.table|
              && r.outcome.state.table == s.table
  {
    var s' := s.(pendingStarts := s.pendingStarts - 1);
    StartFromAppends(s', 0, os);
    StartProcesses(s', os)
  }

  // ---------------------------------------------------------------------------
  // restartOne and killOne
  // ---------------------------------------------------------------------------

  /** `processes[parseInt(token)]`: the registry slot a token names, if any. */
  function SlotOf(registry: seq<Handle>, token: string): (r: Option<nat>)
    ensures r.Some? <==> ParseInt(token).Some? && 0 <= ParseInt(token).value < |registry|
    ensures r.Some? ==> r.value == ParseInt(token).value
  {
    match ParseInt(token)
    case Some(k) => if 0 <= k < |registry| then Some(k) else None
    case None => None
  }

  /** `processesStrings[token]`: the table entry a token names, looked up with
      the token itself as the key. */
  function EntryOf(table: seq<string>, token: string): (r: Option<nat>)
    ensures r.Some? <==> exists n: nat :: n < |table| && token == DecimalString(n)
    ensures r.Some? ==> r.value < |table| && token == DecimalString(r.value)
  {
    match ArrayIndexKey(token)
    case Some(n) =>
      assert forall m: nat :: token == DecimalString(m) ==> m == n by {
        forall m: nat ensures token == DecimalString(m) ==> m == n {
          ArrayIndexKeyIsDecimalString(token, m);
        }
      }
      ArrayIndexKeyIsDecimalString(token, n);
      if n < |table| then Some(n) else None
    case None =>
      assert forall n: nat :: token != DecimalString(n) by {
        forall n: nat ensures token != DecimalString(n) {
          ArrayIndexKeyIsDecimalString(token, n);
        }
      }
      None
  }

  /** `restartOne(token)`. A token naming no slot crashes on the missing handle
      (the `catch` reads the same missing handle). Otherwise the handle is
      terminated; a raising `kill()` is caught and the supervisor exits (status
      0) with nothing after the termination. Then the entry is looked up by the raw token, and a token that is
      not the canonical key of an entry crashes; a spawn with an empty program
      throws. Otherwise the new handle replaces the slot in place. */
  function RestartOne(s: State, token: string, os: Os): (r: Step)
    ensures SlotOf(s.registry, token).None? ==> r == Step(Crashed, [])
    ensures SlotOf(s.registry, token).Some? ==>
              var k := SlotOf(s.registry, token).value;
              && |r.effects| >= |Terminate(s.registry[k])|
              && r.effects[..|Terminate(s.registry[k])|] == Terminate(s.registry[k])
              && (os.killThrows(s.registry[k].id) <==> r.outcome.Exited?)
              && (r.outcome.Exited? ==> r.outcome.code == 0)
              && (!r.outcome.Running? ==> r.effects == Terminate(s.registry[k]))
    ensures r.outcome.Running? <==>
              && SlotOf(s.registry, token).Some?
              && !os.killThrows(s.registry[SlotOf(s.registry, token).value].id)
              && EntryOf(s.table, token).Some?
              && ParseCommand(s.table[EntryOf(s.table, token).value]).program != ""
  {
    match SlotOf(s.registry, token)
    case None => Step(Crashed, [])
    case Some(k) =>
      var prior := s.registry[k];
      var killing := Terminate(prior);
      if os.killThrows(prior.id) then Step(Exited(0), killing)
      else
        match EntryOf(s.table, token)
        case None => Step(Crashed, killing)
        case Some(n) =>
          ParseIntOfArrayIndexKey(token, n);
          KeyOfDecimalString(n);
          var spec := ParseCommand(s.table[n]);
          if spec.program == "" then Step(Crashed, killing)
          else
            var h := NewHandle(s, n, os);
            Step(Running(s.(registry := s.registry[k := h], nextId := s.nextId + 1)), killing + [Spawn(h, spec)])
  }

  /** A restart-one that completes was given the canonical key of slot `k`:
      it replaced slot `k` in place with a fresh handle launched from entry
      `k`, after terminating the old one, and left every other slot and the
      table alone. */
  lemma RestartOneInPlace(s: State, token: string, os: Os)
    requires RestartOne(s, token, os).outcome.Running?
    ensures SlotOf(s.registry, token).Some?
    ensures var k := SlotOf(s.registry, token).value;
            var r := RestartOne(s, token, os);
            var s' := r.outcome.state;
            && token == DecimalString(k)
            && k < |s.table|
            && s'.table == s.table
            && s'.pendingStarts == s.pendingStarts
            && s'.nextId == s.nextId + 1
            && |s'.registry| == |s.registry|
            && s'.registry[k] == Handle(s.nextId, k, os.pidOf(s.nextId))
            && (forall i :: 0 <= i < |s.registry| && i != k ==> s'.registry[i] == s.registry[i])
            && r.effects == Terminate(s.registry[k]) + [Spawn(s'.registry[k], ParseCommand(s.table[k]))]
  {
    var k := SlotOf(s.registry, token).value;
    var n := EntryOf(s.table, token).value;
    ParseIntOfArrayIndexKey(token, n);
    KeyOfDecimalString(n);
    assert n == k;
  }

  /** `killOne(token)`. A token naming no slot crashes on the missing handle.
      Otherwise the handle is terminated outside any `try`, so a raising
      `kill()` crashes the supervisor; the registry is never modified. */
  function KillOne(s: State, token: string, os: Os): (r: Step)
    ensures SlotOf(s.registry, token).None? ==> r == Step(Crashed, [])
    ensures SlotOf(s.registry, token).Some? ==>
              var k := SlotOf(s.registry, token).value;
              && r.effects == Terminate(s.registry[k])
              && (r.outcome.Running? <==> !os.killThrows(s.registry[k].id))
    ensures r.outcome.Running? ==> r.outcome.state == s
    ensures !r.outcome.Exited?
  {
    match SlotOf(s.registry, token)
    case None => Step(Crashed, [])
    case Some(k) =>
      var prior := s.registry[k];
      Step(if os.killThrows(prior.id) then Crashed else Running(s), Terminate(prior))
  }

  /** Killing the same slot twice leaves the registry as it was and issues the
      same termination twice. `Os.killThrows` answers per handle id, so the
      second `kill()` raises exactly when the first did. */
  lemma {:induction false} KillOneTwice(s: State, token: string, os: Os)
    requires KillOne(s, token, os).outcome.Running?
    ensures var second := KillOne(KillOne(s, token, os).outcome.state, token, os);
            && second.outcome == Running(s)
            && second.effects == KillOne(s, token, os).effects
  {
  }

  /** During the settling window (after `restartAll`, before the deferred start
      fires) the registry is empty, so any `restartOne` or `killOne` crashes. */
  lemma SettlingWindowCrashes(s: State, token: string, os: Os)
    requires RestartAll(s, os).outcome.Running?
    ensures RestartOne(RestartAll(s, os).outcome.state, token, os) == Step(Crashed, [])
    ensures KillOne(RestartAll(s, os).outcome.state, token, os) == Step(Crashed, [])
  {
  }

  /** A token that `parseInt` reads as a slot but that is not that slot's
      canonical key ("01", "+1", "0x1", "1x", "\t1") gets its process killed and
      then crashes the supervisor on the table lookup: no replacement is spawned. */
  lemma NonCanonicalTokenCrashes(s: State, token: string, os: Os)
    requires SlotOf(s.registry, token).Some?
    requires !os.killThrows(s.registry[SlotOf(s.registry, token).value].id)
    requires token != DecimalString(SlotOf(s.registry, token).value)
    ensures RestartOne(s, token, os) == Step(Crashed, Terminate(s.registry[SlotOf(s.registry, token).value]))
  {
    if EntryOf(s.table, token).Some? {
      var n := EntryOf(s.table, token).value;
      KeyOfDecimalString(n);
      ParseIntOfArrayIndexKey(token, n);
      assert false;
    }
  }

  /** A token with a leading zero, such as "01", names slot 1 for the kill but
      no table entry. */
  lemma LeadingZeroTokenCrashes(s: State, c: char, os: Os)
    requires IsDecimalDigit(c) && DigitValue(c) < |s.registry|
    requires !os.killThrows(s.registry[DigitValue(c)].id)
    ensures RestartOne(s, ['0', c], os) == Step(Crashed, Terminate(s.registry[DigitValue(c)]))
  {
    ParseIntLeadingZero(c);
    assert DecimalString(DigitValue(c)) != ['0', c];
    NonCanonicalTokenCrashes(s, ['0', c], os);
  }
}
