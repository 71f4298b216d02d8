/** The command table: the ordered list of command strings the supervisor is
    started with, read once at startup from the parsed `batchrun.config.json`
    or from the comma-separated command-line argument, and the `LaunchSpec`
    each entry is split into when it is spawned. */
module CommandTable {
  import opened Base
  import opened JsStrings

  /** A table entry split into the program token and its argument tokens. */
  datatype LaunchSpec = LaunchSpec(program: string, args: seq<string>)

  /** An entry is split on single spaces and the first token is shifted off as
      the program; the program is empty exactly when the entry is empty or
      starts with a space. */
  function ParseCommand(entry: string): (spec: LaunchSpec)
    ensures ' ' !in spec.program
    ensures forall k :: 0 <= k < |spec.args| ==> ' ' !in spec.args[k]
    ensures spec.program == "" <==> entry == "" || entry[0] == ' '
  {
    var tokens := Split(entry, ' ');
    assert tokens == [tokens[0]] + tokens[1..];
    LaunchSpec(tokens[0], tokens[1..])
  }

  /** Joining the program and its arguments back with spaces gives the entry:
      splitting loses nothing. */
  lemma ParseCommandRoundTrip(entry: string)
    ensures var spec := ParseCommand(entry);
            Join([spec.program] + spec.args, ' ') == entry
  {
    var tokens := Split(entry, ' ');
    JoinSplit(entry, ' ');
    assert tokens == [tokens[0]] + tokens[1..];
  }

  /** Entries are trimmed before they are stored, so a stored entry has an
      empty program token only when the whole entry is empty. */
  lemma TrimmedProgramEmpty(raw: string)
    ensures ParseCommand(Trim(raw)).program == "" <==> Trim(raw) == ""
  {
  }

  /** The trimmed copy of every entry, count and order kept. */
  function TrimAll(entries: seq<string>): (table: seq<string>)
    ensures |table| == |entries|
    ensures forall i :: 0 <= i < |entries| ==> table[i] == Trim(entries[i])
  {
    seq(|entries|, i requires 0 <= i < |entries| => Trim(entries[i]))
  }

  /** The command table before validation. A config file that exists takes
      precedence; otherwise the list argument is used when it is a non-empty
      string; otherwise there is no source (`None`). */
  function ReadTable(configFile: Option<seq<string>>, listArgument: Option<string>): (r: Option<seq<string>>)
    ensures r.None? <==> configFile.None? && (listArgument.None? || listArgument.value == "")
    ensures configFile.Some? ==> r == Some(TrimAll(configFile.value))
    ensures configFile.None? && r.Some? ==>
              |r.value| == Count(listArgument.value, ',') + 1 &&
              r.value == TrimAll(Split(listArgument.value, ','))
  {
    if configFile.Some? then Some(TrimAll(configFile.value))
    else if listArgument.Some? && listArgument.value != "" then
      Some(TrimAll(Split(listArgument.value, ',')))
    else None
  }

  /** When no piece of the argument carries surrounding whitespace, the table
      joined back with commas is the argument itself. */
  lemma ArgumentTableRoundTrip(argument: string)
    requires argument != ""
    requires forall i :: 0 <= i < |Split(argument, ',')| ==> Trim(Split(argument, ',')[i]) == Split(argument, ',')[i]
    ensures ReadTable(None, Some(argument)).Some?
    ensures Join(ReadTable(None, Some(argument)).value, ',') == argument
  {
    var pieces := Split(argument, ',');
    assert TrimAll(pieces) == pieces;
    JoinSplit(argument, ',');
  }

  /** A non-empty argument of whitespace only gives the one-entry table `[""]`. */
  lemma BlankArgumentTable(argument: string)
    requires argument != "" && AllWhitespace(argument)
    ensures ReadTable(None, Some(argument)) == Some([""])
  {
    assert ',' !in argument by {
      forall k | 0 <= k < |argument| ensures argument[k] != ',' {
        assert IsJsWhitespace(argument[k]);
      }
    }
    SplitJoin([argument], ',');
    assert Join([argument], ',') == argument;
    TrimWindow(argument, 0, 0);
    assert WhitespaceOutside(argument, 0, 0);
    assert Trim(argument) == "";
    assert Split(argument, ',') == [argument];
    assert TrimAll([argument]) == [""];
  }

  /** Why startup stops with exit status 1. */
  datatype ConfigError =
    | NoSource     // neither a config file nor a list argument
    | NoProcesses  // the table is empty or its first entry is empty

  datatype Loaded = Table(entries: seq<string>) | Rejected(error: ConfigError)

  /** Startup validation: reading the table, then rejecting it when its entry 0
      is missing or empty. Only entry 0 is looked at here. */
  function LoadTable(configFile: Option<seq<string>>, listArgument: Option<string>): (r: Loaded)
    ensures r.Table? <==>
              ReadTable(configFile, listArgument).Some? &&
              |ReadTable(configFile, listArgument).value| > 0 &&
              ReadTable(configFile, listArgument).value[0] != ""
    ensures r.Table? ==> r.entries == ReadTable(configFile, listArgument).value
    ensures r.Table? ==> ParseCommand(r.entries[0]).program != ""
    ensures r == Rejected(NoSource) <==> ReadTable(configFile, listArgument).None?
  {
    match ReadTable(configFile, listArgument)
    case None => Rejected(NoSource)
    case Some(table) =>
      if |table| == 0 || table[0] == "" then Rejected(NoProcesses) else Table(table)
  }

  /** A config file listing nothing, or whose first entry is blank, stops
      startup with "No processes to run", whatever the later entries are. */
  lemma BlankFirstEntryRejected(entries: seq<string>, listArgument: Option<string>)
    requires |entries| == 0 || AllWhitespace(entries[0])
    ensures LoadTable(Some(entries), listArgument) == Rejected(NoProcesses)
  {
    if |entries| > 0 {
      TrimWindow(entries[0], 0, 0);
      assert WhitespaceOutside(entries[0], 0, 0);
    }
  }

  /** How the supervisor was invoked: the parsed config file when it exists, and
      the process argument vector (runtime path, script path, user arguments). */
  datatype Invocation = Invocation(configFile: Option<seq<string>>, argv: seq<string>)

  /** The list argument as the code reads it: the last element of the argument
      vector, whatever it is. */
  function ListArgumentAsWritten(argv: seq<string>): (r: Option<string>)
    ensures r.Some? <==> |argv| > 0
    ensures r.Some? ==> r.value == argv[|argv| - 1]
  {
    if |argv| == 0 then None else Some(argv[|argv| - 1])
  }

  /** With no user argument and no config file, the code's reading takes the
      script path itself as the command list. */
  lemma BareInvocationRunsScript(runtime: string, script: string)
    requires script != "" && ',' !in script && Untrimmable(script)
    ensures LoadTable(None, ListArgumentAsWritten([runtime, script])) == Table([script])
  {
    SplitJoin([script], ',');
    assert Join([script], ',') == script;
    TrimWindow(script, 0, |script|);
    assert script[0..|script|] == script;
  }

  /** The list argument as the error message intends it: the last user
      argument, present only when there is at least one user argument. */
  function ListArgument(argv: seq<string>): (r: Option<string>)
    ensures r.Some? <==> |argv| > 2
    ensures r.Some? ==> r.value == argv[|argv| - 1]
  {
    if |argv| <= 2 then None else Some(argv[|argv| - 1])
  }

  /** The table the supervisor starts with. */
  function Load(inv: Invocation): (r: Loaded)
  {
    LoadTable(inv.configFile, ListArgument(inv.argv))
  }

  /** Without a config file and without a user argument, startup fails with
      `NoSource`; with one it reads the last user argument. */
  lemma LoadWithoutArguments(inv: Invocation)
    requires inv.configFile.None?
    ensures Load(inv) == Rejected(NoSource) <==> |inv.argv| <= 2 || inv.argv[|inv.argv| - 1] == ""
  {
  }
}
