/** The console-line dispatcher: each line the operator types is classified by
    four case-insensitive patterns and turned into the list of supervisor
    operations it triggers, in the order the handler performs them. */
module Dispatcher {
  import opened Base
  import opened JsStrings

  /** An operation the dispatcher asks of the supervisor. `Exit` is
      `process.exit()` with no status. */
  datatype Command = RestartAll | RestartOne(token: string) | KillOne(token: string) | Exit

  /** `/^(reload|restart|reboot)$/i` on a whole word or line. */
  predicate IsRestartVerb(w: string) {
    var l := LowerAsciiString(w);
    l == "reload" || l == "restart" || l == "reboot"
  }

  /** `/^kill$/i` on a whole word or line. */
  predicate IsKillVerb(w: string) {
    LowerAsciiString(w) == "kill"
  }

  /** The line starts with `n` characters satisfying `verb`, one space and a
      decimal digit. */
  predicate VerbSpaceDigit(line: string, n: nat, kill: bool) {
    && |line| >= n + 2
    && (if kill then IsKillVerb(line[..n]) else IsRestartVerb(line[..n]))
    && line[n] == ' '
    && IsDecimalDigit(line[n + 1])
  }

  /** `/^(reload|restart|reboot) \d/i`. */
  predicate RestartWithIndex(line: string) {
    VerbSpaceDigit(line, 6, false) || VerbSpaceDigit(line, 7, false)
  }

  /** `/^kill \d/i`. */
  predicate KillWithIndex(line: string) {
    VerbSpaceDigit(line, 4, true)
  }

  /** The index tokens of a line: its second space-separated word split on
      commas. `None` is the "No processes to reload" branch, taken when that
      word is missing or empty. */
  function IndexTokens(line: string): (r: Option<seq<string>>)
    ensures r.Some? ==> |r.value| >= 1
  {
    var words := Split(line, ' ');
    if |words| >= 2 && words[1] != "" then Some(Split(words[1], ',')) else None
  }

  function RestartOnes(tokens: seq<string>): (cmds: seq<Command>)
    ensures |cmds| == |tokens|
    ensures forall i :: 0 <= i < |tokens| ==> cmds[i] == RestartOne(tokens[i])
  {
    seq(|tokens|, i requires 0 <= i < |tokens| => RestartOne(tokens[i]))
  }

  function KillOnes(tokens: seq<string>): (cmds: seq<Command>)
    ensures |cmds| == |tokens|
    ensures forall i :: 0 <= i < |tokens| ==> cmds[i] == KillOne(tokens[i])
  {
    seq(|tokens|, i requires 0 <= i < |tokens| => KillOne(tokens[i]))
  }

  /** The second `if` chain of the handler: the kill patterns. */
  function KillBlock(line: string): seq<Command>
  {
    if IsKillVerb(line) then [Exit]
    else if KillWithIndex(line) then
      match IndexTokens(line)
      case None => []
      case Some(tokens) => KillOnes(tokens)
    else []
  }

  /** The line handler. The restart patterns are tried first; the error branch
      of the indexed form returns before the kill patterns are tried. */
  function Dispatch(line: string): seq<Command>
  {
    if IsRestartVerb(line) then [RestartAll] + KillBlock(line)
    else if RestartWithIndex(line) then
      match IndexTokens(line)
      case None => []
      case Some(tokens) => RestartOnes(tokens) + KillBlock(line)
    else KillBlock(line)
  }

  // ---------------------------------------------------------------------------
  // Properties
  // ---------------------------------------------------------------------------

  lemma LowerPrefix(w: string, n: nat)
    requires n <= |w|
    ensures LowerAsciiString(w[..n]) == LowerAsciiString(w)[..n]
  {
  }

  /** A word matching a verb pattern contains no space. */
  lemma VerbHasNoSpace(w: string)
    requires IsRestartVerb(w) || IsKillVerb(w)
    ensures ' ' !in w
  {
    forall k | 0 <= k < |w| ensures w[k] != ' ' {
      assert LowerAsciiString(w)[k] == LowerAscii(w[k]);
    }
  }

  /** The second space-separated word of a line that starts with a space-free
      word and a space is the first space-separated word after that space. */
  lemma SecondWord(line: string, n: nat)
    requires n < |line| && ' ' !in line[..n] && line[n] == ' '
    ensures |Split(line, ' ')| >= 2
    ensures Split(line, ' ')[1] == Split(line[n + 1..], ' ')[0]
  {
    assert line == line[..n] + line[n..];
    SplitGlue(line[..n], line[n..], ' ');
    assert line[n..][1..] == line[n + 1..];
  }

  /** The patterns with an index force the second word to start with a digit,
      so the "No processes to reload" branches are unreachable. */
  lemma IndexTokensPresent(line: string)
    requires RestartWithIndex(line) || KillWithIndex(line)
    ensures IndexTokens(line).Some?
  {
    var n := if KillWithIndex(line) then 4 else if VerbSpaceDigit(line, 6, false) then 6 else 7;
    VerbHasNoSpace(line[..n]);
    SecondWord(line, n);
    var rest := line[n + 1..];
    assert rest[0] == line[n + 1] && rest[0] != ' ';
  }

  lemma VerbsExclusive(line: string)
    ensures IsRestartVerb(line) ==> !IsKillVerb(line) && !KillWithIndex(line) && !RestartWithIndex(line)
    ensures RestartWithIndex(line) ==> !IsKillVerb(line) && !KillWithIndex(line)
  {
    var l := LowerAsciiString(line);
    if |line| >= 4 {
      LowerPrefix(line, 4);
      assert l[..4] == LowerAsciiString(line[..4]);
    }
    if RestartWithIndex(line) {
      var n := if VerbSpaceDigit(line, 6, false) then 6 else 7;
      LowerPrefix(line, n);
      assert l[..n] == LowerAsciiString(line[..n]);
      assert l[..4] == l[..n][..4];
    }
  }

  /** How a line is classified: a bare restart verb gives one restart-all, a
      restart verb with indexes one restart-one per index token in order, a
      bare `kill` an exit, `kill` with indexes one kill-one per index token in
      order, and any other line nothing. */
  lemma DispatchCases(line: string)
    ensures IsRestartVerb(line) ==> Dispatch(line) == [RestartAll]
    ensures RestartWithIndex(line) ==>
              IndexTokens(line).Some? && Dispatch(line) == RestartOnes(IndexTokens(line).value)
    ensures IsKillVerb(line) ==> Dispatch(line) == [Exit]
    ensures KillWithIndex(line) ==>
              IndexTokens(line).Some? && Dispatch(line) == KillOnes(IndexTokens(line).value)
    ensures Dispatch(line) == [] <==>
              !IsRestartVerb(line) && !RestartWithIndex(line) && !IsKillVerb(line) && !KillWithIndex(line)
  {
    VerbsExclusive(line);
    if RestartWithIndex(line) || KillWithIndex(line) {
      IndexTokensPresent(line);
    }
    if IsRestartVerb(line) {
      assert KillBlock(line) == [];
    } else if RestartWithIndex(line) {
      assert KillBlock(line) == [];
      assert RestartOnes(IndexTokens(line).value) + [] == RestartOnes(IndexTokens(line).value);
    }
  }

  /** A character that is neither the separator nor in any piece is not in
      the join. */
  lemma {:induction false} JoinAvoids(parts: seq<string>, sep: char, c: char)
    requires c != sep
    requires forall i :: 0 <= i < |parts| ==> c !in parts[i]
    ensures c !in Join(parts, sep)
    decreases |parts|
  {
    if |parts| > 1 {
      JoinAvoids(parts[1..], sep, c);
    }
  }

  /** Index tokens written after a restart verb (any letter case) and a space,
      comma-separated, and optionally followed by more words, are dispatched as
      one restart-one per token, in the order given. */
  lemma DispatchRestartList(verb: string, tokens: seq<string>, tail: string)
    requires IsRestartVerb(verb)
    requires |tokens| >= 1 && |tokens[0]| >= 1 && IsDecimalDigit(tokens[0][0])
    requires forall i :: 0 <= i < |tokens| ==> ',' !in tokens[i] && ' ' !in tokens[i]
    requires tail == "" || tail[0] == ' '
    ensures Dispatch(verb + [' '] + Join(tokens, ',') + tail) == RestartOnes(tokens)
  {
    var list := Join(tokens, ',');
    var line := verb + [' '] + list + tail;
    ListWord(verb, tokens, tail);
    assert line[..|verb|] == verb;
    assert RestartWithIndex(line);
    DispatchCases(line);
  }

  /** The same for `kill` and kill-one. */
  lemma DispatchKillList(verb: string, tokens: seq<string>, tail: string)
    requires IsKillVerb(verb)
    requires |tokens| >= 1 && |tokens[0]| >= 1 && IsDecimalDigit(tokens[0][0])
    requires forall i :: 0 <= i < |tokens| ==> ',' !in tokens[i] && ' ' !in tokens[i]
    requires tail == "" || tail[0] == ' '
    ensures Dispatch(verb + [' '] + Join(tokens, ',') + tail) == KillOnes(tokens)
  {
    var list := Join(tokens, ',');
    var line := verb + [' '] + list + tail;
    ListWord(verb, tokens, tail);
    assert line[..|verb|] == verb;
    assert KillWithIndex(line);
    DispatchCases(line);
  }

  /** The first characters of a join, and what it cannot contain. */
  lemma JoinStart(tokens: seq<string>)
    requires |tokens| >= 1 && |tokens[0]| >= 1
    requires forall i :: 0 <= i < |tokens| ==> ' ' !in tokens[i]
    ensures |Join(tokens, ',')| >= 1
    ensures Join(tokens, ',')[0] == tokens[0][0]
    ensures ' ' !in Join(tokens, ',')
  {
    JoinAvoids(tokens, ',', ' ');
    if |tokens| > 1 {
      assert Join(tokens, ',') == tokens[0] + ([','] + Join(tokens[1..], ','));
    }
  }

  /** The second word of `verb list tail` is `list`. */
  lemma SecondWordIsList(verb: string, list: string, tail: string)
    requires ' ' !in verb && ' ' !in list
    requires tail == "" || tail[0] == ' '
    ensures var line := verb + [' '] + list + tail;
            |Split(line, ' ')| >= 2 && Split(line, ' ')[1] == list
  {
    var line := verb + [' '] + list + tail;
    assert line[..|verb|] == verb;
    SecondWord(line, |verb|);
    assert line[|verb| + 1..] == list + tail;
    SplitGlue(list, tail, ' ');
    assert Split(tail, ' ')[0] == "";
    assert list + "" == list;
  }

  /** The index list of such a line is its second word, and it splits back
      into the tokens. */
  lemma ListWord(verb: string, tokens: seq<string>, tail: string)
    requires IsRestartVerb(verb) || IsKillVerb(verb)
    requires |tokens| >= 1 && |tokens[0]| >= 1 && IsDecimalDigit(tokens[0][0])
    requires forall i :: 0 <= i < |tokens| ==> ',' !in tokens[i] && ' ' !in tokens[i]
    requires tail == "" || tail[0] == ' '
    ensures var line := verb + [' '] + Join(tokens, ',') + tail;
            && |line| >= |verb| + 2
            && line[|verb|] == ' '
            && line[|verb| + 1] == tokens[0][0]
            && IndexTokens(line) == Some(tokens)
  {
    var list := Join(tokens, ',');
    VerbHasNoSpace(verb);
    JoinStart(tokens);
    SecondWordIsList(verb, list, tail);
    SplitJoin(tokens, ',');
  }
}
