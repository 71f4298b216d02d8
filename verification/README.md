# batch-run supervisor, modelled in Dafny

batch-run is a small interactive process supervisor. It reads a fixed command
table, spawns one child per entry, and keeps the children in a registry indexed
like the table. An operator then steers it with console lines or Ctrl+R:

- `reload` / `restart` / `reboot` restarts all children;
- `reload 0,2` restarts the listed slots;
- `kill` exits the supervisor;
- `kill 1` kills the listed slots.

The model covers the core of `index.js`. Every module is pure: functions over
immutable datatypes.

- `Base`: `Option`.
- `JsStrings`: the JavaScript string primitives the code relies on, modelled on ECMA-262:
  - `split` with a one-character separator, and `join`;
  - `trim`, over the ECMAScript white-space and line-terminator set;
  - `parseInt` without a radix (leading white space, sign, `0x` prefix, longest digit run, `NaN` as `None`);
  - the canonical decimal keys under which an array element is found (`processesStrings[token]`);
  - ASCII case folding for the `/i` patterns.
- `CommandTable`: building the table from the parsed config file or the list argument (trimming each entry), startup validation, and splitting an entry into a `LaunchSpec`.
- `Supervisor`: the registry as a state machine. Each transition returns a `Step`, which holds:
  - an `Outcome`: still `Running(state)`, `Exited(code)` through `process.exit`, or `Crashed` on an uncaught exception;
  - the trace of effects it issues: `ForceKill(pid)`, `Kill(handle)`, `Spawn(handle, spec)`.

  The transitions are `startProcesses`, `restartAll`, the deferred start `restartAll` schedules, `restartOne`, `killOne`, and the two-phase termination with `killProcessForce`. What the operating system answers is an `Os` value passed in: the pid a spawn gets, and whether a handle's `kill()` raises. That answer is fixed per handle: a second `kill()` on a handle that was already killed gets the same answer as the first.
- `Dispatcher`: the console line handler, as the list of operations one line triggers.
- `Lifecycle`:
  - startup from an invocation;
  - events: a console line, Ctrl+R, or a deferred start firing;
  - the invariant that every running state keeps the registry index-aligned with the table;
  - a two-entry session.

Behaviour of the code that a reader might not expect:

- Termination issues the force-kill first, then `kill()`.
- A slot that does not exist crashes the supervisor (`TypeError` on `undefined.pid`). It is not a no-op.
- A `kill()` that raises inside `restartAll`/`restartOne` makes the supervisor exit through `process.exit()` with status 0. Inside `killOne` the `kill()` sits outside the `try` and crashes it.
- Startup validation only looks at entry 0.
  - A later entry without a program token stops the supervisor with status 1 inside `startProcesses`, after the earlier entries have been spawned.
  - A deferred start never meets such an entry. The supervisor only keeps running past startup when every entry has a program token, and the table never changes afterwards.
- `reload abc` matches no pattern and does nothing, silently.
- An empty list argument is falsy, so it counts as no source at all. Only a non-empty argument made of white space gives the table `[""]`, which is then rejected.
- `restartOne` finds the handle with `parseInt(token)` but the entry with the raw token. A token such as `01`, `+1`, `0x1` or `1x` kills the process and then crashes.
- A restart-all inside the 500 ms settling window schedules a second start. Both starts append, so the registry ends up with every entry twice.

## Model

| member | source | states |
|---|---|---|
| JsStrings.Split | index.js:101 | `split` always yields at least one piece, never a piece containing the separator, and exactly one more piece than separators |
| JsStrings.JoinSplit | index.js:101 | joining the pieces of a split with the separator gives back the original string |
| JsStrings.SplitJoin | index.js:130 | splitting a join of separator-free pieces gives back those pieces |
| JsStrings.Trim | index.js:97 | `trim` never lengthens a string and leaves no white space at either end |
| JsStrings.TrimWindow | index.js:104 | `trim` returns the window `s[i..j]` exactly when only white space lies outside it and neither of its ends is white space |
| JsStrings.TrimIdempotent | index.js:97 | trimming a trimmed entry changes nothing |
| JsStrings.ArrayIndexKeyIsDecimalString | index.js:183 | a token is the array key of element `n` exactly when it is the decimal string of `n` |
| JsStrings.ParseIntOfArrayIndexKey | index.js:173 | `parseInt` reads a canonical key as the element it names, so both lookups of `restartOne` agree on canonical keys |
| JsStrings.ParseIntLeadingZero | index.js:173 | for a decimal digit `c`, `parseInt("0" + c)` is the value of `c`, while `"0" + c` is not the key of any element |
| JsStrings.ParseIntSigned | index.js:173 | `parseInt` skips leading white space, reads one optional sign, and negates the magnitude that follows exactly when the sign is `-` |
| JsStrings.ParseIntDecimal | index.js:173 | after white space and an optional sign, a run of decimal digits that does not open a `0x` prefix is read in base 10, whatever follows the run |
| JsStrings.ParseIntHex | index.js:173 | after white space, an optional sign and `0x` or `0X`, the run of hexadecimal digits is read in base 16, and an empty run gives `NaN` |
| JsStrings.ParseIntNaN | index.js:173 | white space and an optional sign followed by no digit give `NaN` |
| CommandTable.ParseCommand | index.js:129-132 | no token of a split entry contains a space, and the program token is empty exactly when the entry is empty or starts with a space |
| CommandTable.ParseCommandRoundTrip | index.js:130-131 | joining the program and its arguments with spaces gives back the entry |
| CommandTable.TrimmedProgramEmpty | index.js:97-98 | a trimmed entry has an empty program token only when it is empty |
| CommandTable.TrimAll | index.js:95-99 | every entry is trimmed, count and order kept |
| CommandTable.ReadTable | index.js:92-110 | the config file wins when it exists; otherwise a non-empty list argument is split on commas into one entry per comma plus one, each trimmed; otherwise there is no source |
| CommandTable.ArgumentTableRoundTrip | index.js:100-106 | a list argument without stray white space is recovered from the table by joining it with commas |
| CommandTable.BlankArgumentTable | index.js:100-106 | a list argument made only of white space yields the table `[""]` |
| CommandTable.LoadTable | index.js:107-115 | startup proceeds exactly when there is a source whose table has a non-empty entry 0, whose program token is then non-empty; no source and no processes are told apart |
| CommandTable.BlankFirstEntryRejected | index.js:112-115 | a config file listing nothing, or whose first entry is only white space (`["", "  "]`), is rejected as having no processes |
| CommandTable.ListArgumentAsWritten | index.js:88 | the code's list argument is the last element of the whole argument vector |
| CommandTable.BareInvocationRunsScript | index.js:88-106 | with no config file and no user argument, the code's reading loads the table `[script path]` |
| CommandTable.ListArgument | index.js:107-110 | the intended list argument exists exactly when there is a user argument, and is the last one |
| CommandTable.LoadWithoutArguments | index.js:100-110 | without a config file, startup reports no source exactly when there is no user argument or the last one is empty |
| Supervisor.KillProcessForce | index.js:210-221 | a pid that is not a number issues nothing; a numeric pid issues exactly one force-kill of that pid and no failure result |
| Supervisor.Terminate | index.js:150-151 | terminating a handle force-kills its pid first exactly when the pid is truthy, and always ends with the handle's `kill()` |
| Supervisor.TerminateTargets | index.js:176-177 | one termination kills its handle once and force-kills only its own truthy pid |
| Supervisor.TracesKillTargets | index.js:146-157 | a complete restart-all sweep calls `kill()` on every handle exactly once, in registry order, and on nothing else |
| Supervisor.TracesForceKillTargets | index.js:146-157 | a complete sweep force-kills exactly the truthy pids of the registry, in order |
| Supervisor.TerminateEach | index.js:146-157 | the sweep stops at the first handle whose `kill()` raises, after terminating it and every earlier handle; it completes exactly when none raises |
| Supervisor.StartFrom | index.js:128-139 | the start loop runs to the end exactly when every remaining entry has a program token, never crashes, and otherwise exits with status 1 before the table's end |
| Supervisor.StartFromTrace | index.js:128-134 | the spawns of a start are consecutive entries in table order with consecutive serial numbers |
| Supervisor.StartFromSpawnsLaunchable | index.js:131-134 | every entry a start spawns has a program token |
| Supervisor.StartFromExitsAt | index.js:135-137 | a start that exits stops at the first entry without a program token |
| Supervisor.StartFromAppends | index.js:134 | a completed start appends one handle per entry to whatever the registry held and changes nothing else |
| Supervisor.StartFromEmpty | index.js:223-224 | from an empty registry a completed start leaves slot `i` holding a handle spawned from entry `i`, spawned in table order; a failed one spawned exactly the entries before the first without a program token |
| Supervisor.RestartAll | index.js:145-166 | restart-all completes exactly when no `kill()` raises, then empties the registry and schedules one start; otherwise it exits with status 0, and its trace is the sweep cut off at the first handle whose `kill()` raises; it never crashes |
| Supervisor.FireDeferredStart | index.js:163-165 | the deferred start appends one round of handles to the current registry and consumes one scheduled start |
| Supervisor.SlotOf | index.js:173 | a token names a slot exactly when `parseInt` reads it as an in-range index, and then names that index |
| Supervisor.EntryOf | index.js:183 | a token names a table entry exactly when it is the decimal string of an index of the table |
| Supervisor.RestartOne | index.js:172-188 | restart-one crashes without effects on a missing slot; otherwise it terminates the handle first, exits with 0 exactly when that `kill()` raises, and completes exactly when the token is the entry's key and the entry has a program; when it exits or crashes after the termination, nothing follows the termination in its trace |
| Supervisor.RestartOneInPlace | index.js:183-187 | a completed restart-one replaced only its own slot, with a fresh handle spawned from the same entry, and kept the registry's length |
| Supervisor.NonCanonicalTokenCrashes | index.js:173-186 | a token `parseInt` reads as a slot but which is not that slot's key gets the process terminated and then crashes, with no spawn |
| Supervisor.LeadingZeroTokenCrashes | index.js:173-186 | a token `0c` for a decimal digit `c`, such as `reload 01`, terminates slot `c` and then crashes |
| Supervisor.KillOne | index.js:194-204 | kill-one crashes without effects on a missing slot, otherwise terminates exactly that slot's handle, crashes when its `kill()` raises, and never changes the registry |
| Supervisor.KillOneTwice | index.js:194-198 | a kill-one that completed can be repeated with the same effects and the same unchanged state |
| Supervisor.SettlingWindowCrashes | index.js:161-197 | between a restart-all and its deferred start the registry is empty, so restart-one and kill-one crash |
| Dispatcher.VerbsExclusive | index.js:31-53 | a line matches at most one restart pattern, and a restart pattern excludes both kill patterns |
| Dispatcher.IndexTokensPresent | index.js:34-40 | a line matching a pattern with an index always has a second word, so "No processes to reload" is unreachable |
| Dispatcher.DispatchCases | index.js:30-69 | a bare restart verb gives one restart-all, an indexed restart one restart-one per token, a bare `kill` an exit, an indexed `kill` one kill-one per token; a line gives nothing exactly when it matches no pattern |
| Dispatcher.ListWord | index.js:35-36 | the index list after a verb is the line's second word and splits back into the tokens written |
| Dispatcher.DispatchRestartList | index.js:34-45 | a restart verb in any letter case followed by a comma-separated list gives one restart-one per token, in the order written |
| Dispatcher.DispatchKillList | index.js:53-64 | `kill` followed by a comma-separated list gives one kill-one per token, in the order written |
| Lifecycle.Boot | index.js:107-140 | startup keeps running exactly when the table loads and every entry has a program token, and otherwise exits with status 1; a configuration error exits before any spawn; a running supervisor holds one aligned handle per table entry |
| Lifecycle.EntryOfSlotInRound | index.js:134 | after whole rounds of appends, slot `a + k` of a new round belongs to entry `k` |
| Lifecycle.RoundAligned | index.js:128-134 | appending a round of starts keeps the registry aligned with the table |
| Lifecycle.StartAligned | index.js:127-140 | a start from an aligned registry that completes leaves it aligned |
| Lifecycle.FireAligned | index.js:163-165 | a deferred start keeps the registry aligned |
| Lifecycle.RestartOneAligned | index.js:183-187 | restart-one keeps the registry aligned |
| Lifecycle.ApplyAligned | index.js:30-76 | every operation the handler triggers keeps the registry aligned |
| Lifecycle.ExecuteAligned | index.js:43-45 | the operations of one line, run in order, keep the registry aligned |
| Lifecycle.RunAligned | index.js:30-76 | whatever lines are typed and whenever the deferred starts fire, a running supervisor has its registry aligned with the table |
| Lifecycle.AlignedFromBoot | index.js:223-224 | every running state reached from startup is aligned |
| Lifecycle.RestartAllRepopulates | index.js:145-166 | a restart-all and its deferred start leave one fresh handle per entry, slot `i` from entry `i`, after every old handle was killed once |
| Lifecycle.DoubleRestartAppends | index.js:161-165 | two restart-alls in one settling window leave twice as many handles as entries |
| Lifecycle.SessionStart | index.js:127-140 | a two-entry table is spawned in order into slots 0 and 1 |
| Lifecycle.SessionReload | index.js:34-45 | `reload 0` replaces slot 0 with a fresh handle spawned from entry 0 and leaves slot 1 alone |
| Lifecycle.SessionKill | index.js:53-64 | `kill 1` terminates the handle in slot 1 and changes nothing else |

## Left out

- The child processes themselves are not modelled: `spawn`, `execSync` and `ChildProcess.kill()` appear only as effects, and their answers come in through `Os`. This includes inherited stdio, `cwd`, the `bash.exe` shell option, and the choice between `kill -9` and `taskkill`. Both choices test `process.platform.match(/win/i)`, which holds on every platform whose name contains `win`: Windows (`win32`), and also macOS (`darwin`).
- A failed spawn of a non-empty program is not modelled: `Os` gives every such spawn a handle. In the code such a failure crashes the supervisor.
  - The child processes made at index.js:133 and index.js:186 get no `error` listener. So an asynchronous failure, such as a misspelled program (ENOENT), is an unhandled `error` event.
  - `spawn` also throws synchronously, uncaught, for other failures, such as ENOTDIR or a NUL character in an entry.
  - The only synchronous throw modelled is that of `spawn("")` in `restartOne`.
- `fs.existsSync`, `readFileSync` and `JSON.parse` are not modelled. The parsed config file is given as a sequence of strings.
- Console output and colours are left out, including the "Started 0 processes" line logged before the first start.
- The `readline` interface and the `keypress` hook are left out. Ctrl+R is the `CtrlR` event.
- The 500 ms timer is not modelled as time. It is the counter of scheduled starts and the `TimerFires` event.
- The `exit` handler (index.js:78-81) only logs and closes readline, so it is left out.
- The `batch-run` index lookup (index.js:87) is computed and never used, so it is left out.
- JsStrings.ParseInt: `parseInt` returns a floating-point number. Its loss of precision above 2^53 is not modelled, and neither are `Infinity` and the JavaScript value `-0`.
- Supervisor.StartFrom: assumes every spawn of a non-empty program succeeds. "Never crashes" holds only under that assumption, because a failed spawn at index.js:133 crashes the real supervisor.
- Supervisor.RestartOne: assumes the spawn at index.js:186 succeeds for a non-empty program. "Completes exactly when …" holds only under that assumption, because a failed spawn crashes the real supervisor.
- Lifecycle.Boot: "keeps running" makes the same spawn assumption as `Supervisor.StartFrom`.
- Supervisor.KillOneTwice: `kill()`'s answer is fixed per handle (`Os.killThrows` depends only on the handle id), so the lemma holds by construction. It says nothing about how `kill()` behaves on a handle whose process is already dead.
- Supervisor.KillProcessForce: a failed force-kill is caught and dropped, so it is not modelled as an outcome.
- Lifecycle.Boot: the argument vector is read with the corrected reading, `CommandTable.ListArgument` (see Findings).

## Findings

| source | as written | input that shows it | evidently intended | confidence | as-written member | corrected member |
|---|---|---|---|---|---|---|
| index.js:88 | the list argument is `process.argv.at(-1)`, the last element of the whole argument vector | `node index.js` with no `batchrun.config.json` and no user argument: the last element is the script path, so the table is `[script path]` and the supervisor spawns its own script as a program | no user argument means no list, so the "No arguments to run" error at index.js:108 is reported | not executed | CommandTable.ListArgumentAsWritten | CommandTable.ListArgument |
