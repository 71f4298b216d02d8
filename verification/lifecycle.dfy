/** The supervisor's life: startup from an invocation, then a sequence of
    events (console lines, the Ctrl+R shortcut, the deferred start firing),
    each turned into supervisor transitions. The invariant kept throughout is
    that the registry stays index-aligned with the command table. */
module Lifecycle {
  import opened Base
  import opened JsStrings
  import opened CommandTable
  import opened Supervisor
  import Dispatcher

  /** Startup: a configuration error exits with status 1 before anything is
      spawned; otherwise every entry is started from an empty registry. */
  function Boot(inv: Invocation, os: Os): (r: Step)
    ensures Load(inv).Rejected? ==> r == Step(Exited(1), [])
    ensures r.outcome.Running? <==> Load(inv).Table? && LaunchableFrom(Load(inv).entries, 0)
    ensures !r.outcome.Running? ==> r.outcome == Exited(1)
    ensures r.outcome.Running? ==>
              && Load(inv).Table?
              && r.outcome.state.table == Load(inv).entries
              && |r.outcome.state.registry| == |Load(inv).entries|
              && r.outcome.state.pendingStarts == 0
              && Aligned(r.outcome.state)
  {
    match Load(inv)
    case Rejected(_) => Step(Exited(1), [])
    case Table(entries) =>
      var s := State(entries, [], 0, 0);
      StartFromAppends(s, 0, os);
      StartAligned(s, os);
      StartProcesses(s, os)
  }

  /** One operation asked for by the dispatcher. */
  function Apply(s: State, cmd: Dispatcher.Command, os: Os): Step
  {
    match cmd
    case RestartAll => RestartAll(s, os)
    case RestartOne(token) => RestartOne(s, token, os)
    case KillOne(token) => KillOne(s, token, os)
    case Exit => Step(Exited(0), [])
  }

  /** The operations of one line, in order, until one ends the supervisor. */
  function Execute(s: State, cmds: seq<Dispatcher.Command>, os: Os): Step
    decreases |cmds|
  {
    if |cmds| == 0 then Step(Running(s), [])
    else
      var first := Apply(s, cmds[0], os);
      if first.outcome.Running? then
        var rest := Execute(first.outcome.state, cmds[1..], os);
        Step(rest.outcome, first.effects + rest.effects)
      else first
  }

  /** What can happen to a running supervisor. */
  datatype Event =
    | Line(text: string)   // a console line
    | CtrlR                // the Ctrl+R keypress
    | TimerFires           // a scheduled deferred start runs

  /** A timer firing with no start scheduled is not an event that can occur;
      it leaves the supervisor as it is. */
  function React(s: State, e: Event, os: Os): Step
  {
    match e
    case Line(text) => Execute(s, Dispatcher.Dispatch(text), os)
    case CtrlR => RestartAll(s, os)
    case TimerFires => if s.pendingStarts > 0 then FireDeferredStart(s, os) else Step(Running(s), [])
  }

  /** A run of events, until one ends the supervisor. */
  function Run(s: State, events: seq<Event>, os: Os): Step
    decreases |events|
  {
    if |events| == 0 then Step(Running(s), [])
    else
      var first := React(s, events[0], os);
      if first.outcome.Running? then
        var rest := Run(first.outcome.state, events[1..], os);
        Step(rest.outcome, first.effects + rest.effects)
      else first
  }

  // ---------------------------------------------------------------------------
  // The registry invariant
  // ---------------------------------------------------------------------------

  /** The entry of a round of `n` starts that slot `i` belongs to: `i` modulo `n`. */
  function EntryOfSlot(i: nat, n: nat): (e: nat)
    requires n > 0
    ensures e < n
    decreases i
  {
    if i < n then i else EntryOfSlot(i - n, n)
  }

  /** `x` is a whole number of rounds of `n` starts. */
  predicate WholeRounds(x: nat, n: nat)
    requires n > 0
    decreases x
  {
    x == 0 || (x >= n && WholeRounds(x - n, n))
  }

  /** Past whole rounds, slot numbers count from the start of the new round. */
  lemma {:induction false} EntryOfSlotInRound(a: nat, k: nat, n: nat)
    requires n > 0 && WholeRounds(a, n) && k < n
    ensures EntryOfSlot(a + k, n) == k
    decreases a
  {
    if a > 0 {
      EntryOfSlotInRound(a - n, k, n);
    }
  }

  /** The registry is index-aligned with the table: it holds whole rounds of
      starts, the handle in slot `i` was spawned from entry `i` of its round,
      and every handle has a distinct serial number below `nextId`. */
  predicate RegistryAligned(table: seq<string>, registry: seq<Handle>, nextId: nat)
    requires |table| > 0
  {
    && WholeRounds(|registry|, |table|)
    && (forall i :: 0 <= i < |registry| ==> registry[i].cmd == EntryOfSlot(i, |table|))
    && (forall i :: 0 <= i < |registry| ==> registry[i].id < nextId)
    && (forall i, j :: 0 <= i < j < |registry| ==> registry[i].id != registry[j].id)
  }

  /** The supervisor invariant: a non-empty table whose every entry has a
      program token, and an aligned registry. */
  predicate Aligned(s: State) {
    && |s.table| > 0
    && LaunchableFrom(s.table, 0)
    && RegistryAligned(s.table, s.registry, s.nextId)
  }

  /** Appending one round of starts, entry `i` in slot `i` of the round, with
      serial numbers from `nextId` on, keeps the registry aligned. */
  lemma RoundAligned(table: seq<string>, registry: seq<Handle>, nextId: nat, os: Os)
    requires |table| > 0 && RegistryAligned(table, registry, nextId)
    ensures RegistryAligned(table, registry + Handles(0, |table|, nextId, os), nextId + |table|)
  {
    var n := |table|;
    var base := |registry|;
    var round := Handles(0, n, nextId, os);
    var r := registry + round;
    assert WholeRounds(base + n, n) by {
      EntryOfSlotInRound(base, 0, n);
      assert (base + n) - n == base;
    }
    forall i | 0 <= i < |r|
      ensures r[i].cmd == EntryOfSlot(i, n)
      ensures r[i].id < nextId + n
    {
      if i >= base {
        EntryOfSlotInRound(base, i - base, n);
        assert r[i] == round[i - base];
      }
    }
    RoundIdsDistinct(registry, round, nextId);
  }

  /** Serial numbers below `nextId`, all distinct, followed by a round of
      consecutive serial numbers from `nextId` on, stay all distinct. */
  lemma RoundIdsDistinct(registry: seq<Handle>, round: seq<Handle>, nextId: nat)
    requires forall i :: 0 <= i < |registry| ==> registry[i].id < nextId
    requires forall i, j :: 0 <= i < j < |registry| ==> registry[i].id != registry[j].id
    requires forall k :: 0 <= k < |round| ==> round[k].id == nextId + k
    ensures var r := registry + round;
            forall i, j :: 0 <= i < j < |r| ==> r[i].id != r[j].id
  {
    var r := registry + round;
    var base := |registry|;
    forall i, j | 0 <= i < j < |r|
      ensures r[i].id != r[j].id
    {
      if j >= base {
        assert r[j] == round[j - base];
        if i >= base {
          assert r[i] == round[i - base];
        }
      }
    }
  }

  /** A start from an aligned registry runs to the end and appends one whole
      round with fresh serial numbers, so the state stays aligned. */
  lemma StartAligned(s: State, os: Os)
    requires |s.table| > 0
    requires RegistryAligned(s.table, s.registry, s.nextId)
    ensures var r := StartProcesses(s, os);
            r.outcome.Running? ==> Aligned(r.outcome.state) && r.outcome.state.pendingStarts == s.pendingStarts
  {
    StartFromAppends(s, 0, os);
    RoundAligned(s.table, s.registry, s.nextId, os);
  }

  /** The deferred start keeps the invariant. */
  lemma FireAligned(s: State, os: Os)
    requires s.pendingStarts > 0 && Aligned(s)
    ensures FireDeferredStart(s, os).outcome.Running?
    ensures Aligned(FireDeferredStart(s, os).outcome.state)
  {
    StartAligned(s.(pendingStarts := s.pendingStarts - 1), os);
  }

  /** A restart-one that completes keeps the invariant: the new handle goes
      into the slot of its own entry and has a fresh serial number. */
  lemma RestartOneAligned(s: State, token: string, os: Os)
    requires Aligned(s)
    ensures var r := RestartOne(s, token, os);
            r.outcome.Running? ==> Aligned(r.outcome.state)
  {
    var r := RestartOne(s, token, os);
    if r.outcome.Running? {
      RestartOneInPlace(s, token, os);
      var k := SlotOf(s.registry, token).value;
      var s' := r.outcome.state;
      assert EntryOfSlot(k, |s.table|) == k;
      forall i | 0 <= i < |s'.registry|
        ensures s'.registry[i].cmd == EntryOfSlot(i, |s'.table|)
        ensures s'.registry[i].id < s'.nextId
      {
        if i != k {
          assert s'.registry[i] == s.registry[i];
        }
      }
      forall i, j | 0 <= i < j < |s'.registry|
        ensures s'.registry[i].id != s'.registry[j].id
      {
        if i != k && j != k {
          assert s'.registry[i] == s.registry[i] && s'.registry[j] == s.registry[j];
        } else if i == k {
          assert s'.registry[j] == s.registry[j];
        } else {
          assert s'.registry[i] == s.registry[i];
        }
      }
    }
  }

  /** Every operation a running supervisor performs keeps the invariant. */
  lemma ApplyAligned(s: State, cmd: Dispatcher.Command, os: Os)
    requires Aligned(s)
    ensures Apply(s, cmd, os).outcome.Running? ==> Aligned(Apply(s, cmd, os).outcome.state)
  {
    match cmd
    case RestartAll =>
    case KillOne(token) =>
    case Exit =>
    case RestartOne(token) => RestartOneAligned(s, token, os);
  }

  lemma {:induction false} ExecuteAligned(s: State, cmds: seq<Dispatcher.Command>, os: Os)
    requires Aligned(s)
    ensures Execute(s, cmds, os).outcome.Running? ==> Aligned(Execute(s, cmds, os).outcome.state)
    decreases |cmds|
  {
    if |cmds| > 0 {
      ApplyAligned(s, cmds[0], os);
      var first := Apply(s, cmds[0], os);
      if first.outcome.Running? {
        ExecuteAligned(first.outcome.state, cmds[1..], os);
      }
    }
  }

  lemma ReactAligned(s: State, e: Event, os: Os)
    requires Aligned(s)
    ensures React(s, e, os).outcome.Running? ==> Aligned(React(s, e, os).outcome.state)
  {
    match e
    case Line(text) => ExecuteAligned(s, Dispatcher.Dispatch(text), os);
    case CtrlR =>
    case TimerFires =>
      if s.pendingStarts > 0 {
        FireAligned(s, os);
      }
  }

  /** Whatever the operator types and whenever the deferred starts fire, a
      supervisor that is still running has its registry aligned with the
      table: restart-one replaces in place and nothing reorders the slots. */
  lemma {:induction false} RunAligned(s: State, events: seq<Event>, os: Os)
    requires Aligned(s)
    ensures Run(s, events, os).outcome.Running? ==> Aligned(Run(s, events, os).outcome.state)
    decreases |events|
  {
    if |events| > 0 {
      ReactAligned(s, events[0], os);
      var first := React(s, events[0], os);
      if first.outcome.Running? {
        RunAligned(first.outcome.state, events[1..], os);
      }
    }
  }

  /** From startup on, every running state is aligned. */
  lemma AlignedFromBoot(inv: Invocation, events: seq<Event>, os: Os)
    requires Boot(inv, os).outcome.Running?
    ensures var s := Boot(inv, os).outcome.state;
            Run(s, events, os).outcome.Running? ==> Aligned(Run(s, events, os).outcome.state)
  {
    RunAligned(Boot(inv, os).outcome.state, events, os);
  }

  // ---------------------------------------------------------------------------
  // restart-all and the settling window
  // ---------------------------------------------------------------------------

  /** A restart-all followed by its deferred start leaves one round process per
      entry, slot `i` spawned from entry `i`, after every old process was
      terminated in slot order. */
  lemma RestartAllRepopulates(s: State, os: Os)
    requires Aligned(s)
    requires forall k :: 0 <= k < |s.registry| ==> !os.killThrows(s.registry[k].id)
    ensures RestartAll(s, os).outcome.Running?
    ensures var s1 := RestartAll(s, os).outcome.state;
            var r := FireDeferredStart(s1, os);
            && r.outcome.Running?
            && r.outcome.state.pendingStarts == s.pendingStarts
            && |r.outcome.state.registry| == |s.table|
            && (forall i :: 0 <= i < |s.table| ==>
                  r.outcome.state.registry[i].cmd == i && r.outcome.state.registry[i].id >= s.nextId)
            && KillTargets(RestartAll(s, os).effects) == Ids(s.registry)
  {
    var s1 := RestartAll(s, os).outcome.state;
    FireAligned(s1, os);
    TracesKillTargets(s.registry);
  }

  /** Two restart-alls inside one settling window schedule two starts, and
      because a start appends, the registry ends up with every entry twice. */
  lemma DoubleRestartAppends(s: State, os: Os)
    requires Aligned(s)
    requires forall k :: 0 <= k < |s.registry| ==> !os.killThrows(s.registry[k].id)
    ensures RestartAll(s, os).outcome.Running?
    ensures var s1 := RestartAll(s, os).outcome.state;
            var s2 := RestartAll(s1, os).outcome.state;
            var s3 := FireDeferredStart(s2, os).outcome.state;
            var s4 := FireDeferredStart(s3, os).outcome.state;
            && RestartAll(s1, os).outcome.Running?
            && FireDeferredStart(s2, os).outcome.Running?
            && FireDeferredStart(s3, os).outcome.Running?
            && |s4.registry| == 2 * |s.table|
            && s4.pendingStarts == s.pendingStarts
  {
    var s1 := RestartAll(s, os).outcome.state;
    var s2 := RestartAll(s1, os).outcome.state;
    FireAligned(s2, os);
    var s3 := FireDeferredStart(s2, os).outcome.state;
    FireAligned(s3, os);
  }

  // ---------------------------------------------------------------------------
  // A session
  // ---------------------------------------------------------------------------

  /** The entry `program arg` splits into that program and that one argument. */
  lemma TwoWordEntry(program: string, arg: string)
    requires program != "" && ' ' !in program && ' ' !in arg
    ensures ParseCommand(program + " " + arg) == LaunchSpec(program, [arg])
  {
    SplitJoin([program, arg], ' ');
    assert Join([program, arg], ' ') == program + " " + arg;
  }

  /** The digit string of a slot below ten names that slot for both lookups. */
  lemma SingleDigitToken(n: nat)
    requires n < 10
    ensures DecimalString(n) == [('0' as int + n) as char]
    ensures ParseInt(DecimalString(n)) == Some(n)
  {
    KeyOfDecimalString(n);
    ParseIntOfArrayIndexKey(DecimalString(n), n);
  }

  /** A two-entry table such as `["node a.js", "node b.js"]`: one program, a
      different one-word argument per entry. */
  function SessionTable(program: string, first: string, second: string): seq<string> {
    [program + " " + first, program + " " + second]
  }

  predicate SessionWords(program: string, first: string, second: string) {
    program != "" && ' ' !in program && ' ' !in first && ' ' !in second
  }

  /** Both entries of the session table are launchable. */
  lemma SessionSpecs(program: string, first: string, second: string)
    requires SessionWords(program, first, second)
    ensures ParseCommand(SessionTable(program, first, second)[0]) == LaunchSpec(program, [first])
    ensures ParseCommand(SessionTable(program, first, second)[1]) == LaunchSpec(program, [second])
    ensures LaunchableFrom(SessionTable(program, first, second), 0)
  {
    TwoWordEntry(program, first);
    TwoWordEntry(program, second);
  }

  /** Starting the two entries from scratch spawns them in order. */
  lemma SessionStart(program: string, first: string, second: string, os: Os)
    requires SessionWords(program, first, second)
    ensures var table := SessionTable(program, first, second);
            var r := StartProcesses(State(table, [], 0, 0), os);
            && r.outcome == Running(State(table, [Handle(0, 0, os.pidOf(0)), Handle(1, 1, os.pidOf(1))], 2, 0))
            && r.effects == [Spawn(Handle(0, 0, os.pidOf(0)), LaunchSpec(program, [first])),
                             Spawn(Handle(1, 1, os.pidOf(1)), LaunchSpec(program, [second]))]
  {
    var s0 := State(SessionTable(program, first, second), [], 0, 0);
    SessionSpecs(program, first, second);
    StartFromEmpty(s0, os);
    StartFromAppends(s0, 0, os);
    var r := StartProcesses(s0, os);
    var hs := Handles(0, 2, 0, os);
    assert hs == [Handle(0, 0, os.pidOf(0)), Handle(1, 1, os.pidOf(1))];
    assert r.outcome.state.registry == hs;
    assert |r.effects| == 2;
  }

  /** A line that triggers one operation does exactly what that operation does. */
  lemma ExecuteSingle(s: State, cmd: Dispatcher.Command, os: Os)
    ensures Execute(s, [cmd], os) == Apply(s, cmd, os)
  {
    assert Apply(s, cmd, os).effects + [] == Apply(s, cmd, os).effects;
  }

  /** Restarting slot 0 of the session replaces it in place with a fresh handle
      launched from entry 0. */
  lemma SessionRestartZero(program: string, first: string, second: string, os: Os)
    requires SessionWords(program, first, second) && !os.killThrows(0)
    ensures var s := State(SessionTable(program, first, second), [Handle(0, 0, os.pidOf(0)), Handle(1, 1, os.pidOf(1))], 2, 0);
            RestartOne(s, "0", os) ==
              Step(Running(s.(registry := [Handle(2, 0, os.pidOf(2)), Handle(1, 1, os.pidOf(1))], nextId := 3)),
                   Terminate(Handle(0, 0, os.pidOf(0))) + [Spawn(Handle(2, 0, os.pidOf(2)), LaunchSpec(program, [first]))])
  {
    var s := State(SessionTable(program, first, second), [Handle(0, 0, os.pidOf(0)), Handle(1, 1, os.pidOf(1))], 2, 0);
    SessionSpecs(program, first, second);
    SingleDigitToken(0);
    assert SlotOf(s.registry, "0") == Some(0);
    assert EntryOf(s.table, "0").Some?;
    var one := RestartOne(s, "0", os);
    RestartOneInPlace(s, "0", os);
    assert one.outcome.state.registry == [Handle(2, 0, os.pidOf(2)), Handle(1, 1, os.pidOf(1))];
  }

  /** `reload 0` replaces slot 0 in place with a fresh handle launched from
      entry 0 and leaves slot 1 alone. */
  lemma SessionReload(program: string, first: string, second: string, os: Os)
    requires SessionWords(program, first, second) && !os.killThrows(0)
    ensures var s := State(SessionTable(program, first, second), [Handle(0, 0, os.pidOf(0)), Handle(1, 1, os.pidOf(1))], 2, 0);
            var r := Execute(s, Dispatcher.Dispatch("reload 0"), os);
            && r.outcome == Running(s.(registry := [Handle(2, 0, os.pidOf(2)), Handle(1, 1, os.pidOf(1))], nextId := 3))
            && r.effects == Terminate(Handle(0, 0, os.pidOf(0))) +
                            [Spawn(Handle(2, 0, os.pidOf(2)), LaunchSpec(program, [first]))]
  {
    var s := State(SessionTable(program, first, second), [Handle(0, 0, os.pidOf(0)), Handle(1, 1, os.pidOf(1))], 2, 0);
    ReloadZero();
    ExecuteSingle(s, Dispatcher.RestartOne("0"), os);
    SessionRestartZero(program, first, second, os);
  }

  lemma ReloadZero()
    ensures Dispatcher.Dispatch("reload 0") == [Dispatcher.RestartOne("0")]
  {
    assert Join(["0"], ',') == "0";
    Dispatcher.DispatchRestartList("reload", ["0"], "");
    assert "reload" + [' '] + "0" + "" == "reload 0";
  }

  lemma KillOneLine()
    ensures Dispatcher.Dispatch("kill 1") == [Dispatcher.KillOne("1")]
  {
    assert Join(["1"], ',') == "1";
    Dispatcher.DispatchKillList("kill", ["1"], "");
    assert "kill" + [' '] + "1" + "" == "kill 1";
  }

  /** `kill 1` terminates the handle in slot 1 and changes nothing. */
  lemma SessionKill(s: State, os: Os)
    requires |s.registry| == 2 && !os.killThrows(s.registry[1].id)
    ensures var r := Execute(s, Dispatcher.Dispatch("kill 1"), os);
            && r.outcome == Running(s)
            && r.effects == Terminate(s.registry[1])
  {
    SingleDigitToken(1);
    KillOneLine();
    ExecuteSingle(s, Dispatcher.KillOne("1"), os);
    assert SlotOf(s.registry, "1") == Some(1);
  }
}
