/** The decision `RunCommand` takes for one input line: run it in the shell,
    report an unknown command, call the handler directly, or call it with its
    output piped into a shell command. Running handlers and shells is left to
    the caller; this module says which of them runs, with what, and whether
    the blank separator line follows. */
module Dispatcher {
  import opened Text
  import opened Tokenizer

  /** A registered command handler as the dispatcher sees it: the name its
      `Command()` returns, and an identity that tells apart two handlers
      giving the same name. What `Execute` does is the handler's own affair. */
  datatype Handler = Handler(command: string, id: nat)

  /** What happens to one line. */
  datatype Action =
    | Shell(command: string)                                        // `/bin/bash -c command`, terminal attached
    | NotFound(name: string)                                        // "<name>: command not found"
    | Direct(handler: Handler, args: seq<string>)                   // handler.Execute(args...)
    | Piped(handler: Handler, handlerArgs: seq<string>, shellCommand: string)  // pipeCommand(handler, shellCommand, handlerArgs...)

  /** The action, and whether the blank separator line is printed after it. */
  datatype Decision = Decision(action: Action, blankLine: bool)

  /** A handler call: which handler, with which arguments. */
  datatype Call = Call(handler: Handler, args: seq<string>)

  /** The token that splits a handler's arguments from a shell command. */
  const PipeMarker: string := "|"

  /** `strings.HasPrefix(line, "!")`. */
  predicate IsShellEscape(line: string)
  {
    |line| > 0 && line[0] == '!'
  }

  /** The lines `RunCommand` can take without indexing an empty token list. */
  predicate Dispatchable(line: string)
  {
    IsShellEscape(line) || Tokenize(line) != []
  }

  /** The decision for a line that is not a shell escape, from its tokens.
      The pipe search only runs when more than one argument follows the
      command name; its guard `i < argsLen` always holds, so the first `|`
      is taken even when it is the last argument. */
  function Decide(commands: map<string, Handler>, tokens: seq<string>): Decision
    requires tokens != []
  {
    var name := tokens[0];
    if name !in commands then Decision(NotFound(name), true)
    else
      var args := tokens[1..];
      var pipe := Find(args, PipeMarker, 0);
      if |args| > 1 && pipe.Some? then
        var i := pipe.value;
        Decision(Piped(commands[name], args[..i], Join(args[i + 1..], " ")), false)
      else
        Decision(Direct(commands[name], args), true)
  }

  /** The decision `RunCommand(line)` takes with `commands` as its command map. */
  function Dispatch(commands: map<string, Handler>, line: string): Decision
    requires Dispatchable(line)
  {
    if IsShellEscape(line) then Decision(Shell(TrimSpace(line[1..])), false)
    else Decide(commands, Tokenize(line))
  }

  /** The handler call an action makes, if any. */
  function HandlerCall(a: Action): Option<Call>
  {
    match a
    case Direct(h, args) => Some(Call(h, args))
    case Piped(h, args, _) => Some(Call(h, args))
    case _ => None
  }

  /** The text `RunCommand` prints itself (handler and shell output aside). */
  function Printed(d: Decision): string
  {
    (if d.action.NotFound? then d.action.name + ": command not found\n" else "")
    + (if d.blankLine then "\n" else "")
  }

  // ---------------------------------------------------------------------------
  // Shell escapes.

  /** A line starting with `!` never consults the command map: whatever the
      map, its decision is the shell action on the rest of the line after the
      `!`, trimmed (`Text.TrimSpec` says what that keeps); no handler runs,
      and no blank line follows. */
  lemma ShellEscapeBypassesRegistry(commands: map<string, Handler>, line: string)
    requires IsShellEscape(line)
    ensures Dispatch(commands, line) == Decision(Shell(TrimSpace(line[1..])), false)
    ensures HandlerCall(Dispatch(commands, line).action).None?
  {
    var d := Decision(Shell(TrimSpace(line[1..])), false);
    assert Dispatch(commands, line) == d;
    assert HandlerCall(d.action) == None;
  }

  // ---------------------------------------------------------------------------
  // Unknown commands.

  /** A line whose first token is not a registered name reports
      `<name>: command not found` followed by the blank line, and calls no
      handler; a registered name never gives that report. */
  lemma UnknownCommand(commands: map<string, Handler>, tokens: seq<string>)
    requires tokens != []
    ensures Decide(commands, tokens).action.NotFound? <==> tokens[0] !in commands
    ensures tokens[0] !in commands ==>
      var d := Decide(commands, tokens);
      && d.action == NotFound(tokens[0]) && d.blankLine && HandlerCall(d.action).None?
      && Printed(d) == tokens[0] + ": command not found\n\n"
  {
  }

  // ---------------------------------------------------------------------------
  // Registered commands: direct or piped.

  /** The first `|` among more than one argument sends the arguments before
      it to the handler and the arguments after it, joined with single
      spaces, to the shell; nothing is lost in the split, and no blank line
      follows. */
  lemma {:induction false} FirstPipeSplits(commands: map<string, Handler>, tokens: seq<string>, i: nat)
    requires tokens != [] && tokens[0] in commands
    requires |tokens| > 2
    requires i < |tokens| - 1 && tokens[1..][i] == PipeMarker
    requires forall j :: 0 <= j < i ==> tokens[1..][j] != PipeMarker
    ensures var args := tokens[1..];
      Decide(commands, tokens)
        == Decision(Piped(commands[tokens[0]], args[..i], Join(args[i + 1..], " ")), false)
    ensures var a := Decide(commands, tokens).action;
      && PipeMarker !in a.handlerArgs
      && a.handlerArgs + [PipeMarker] + tokens[1..][i + 1..] == tokens[1..]
  {
    var args := tokens[1..];
    FindUnique(args, PipeMarker, 0, i);
    assert args[..i] + [PipeMarker] + args[i + 1..] == args;
  }

  /** The handler is called directly, with all the arguments unchanged and
      followed by the blank line, exactly when the name is registered and
      either at most one argument follows it or none of them is `|`. */
  lemma {:induction false} DirectCall(commands: map<string, Handler>, tokens: seq<string>)
    requires tokens != []
    ensures Decide(commands, tokens).action.Direct?
      <==> tokens[0] in commands && (|tokens| <= 2 || PipeMarker !in tokens[1..])
    ensures Decide(commands, tokens).action.Direct? ==>
      Decide(commands, tokens) == Decision(Direct(commands[tokens[0]], tokens[1..]), true)
  {
    var args := tokens[1..];
    var pipe := Find(args, PipeMarker, 0);
    if PipeMarker in args {
      var k :| 0 <= k < |args| && args[k] == PipeMarker;
      assert pipe.Some?;
    }
  }

  /** A `|` as the last of more than one argument (and the first `|`) still
      counts as the pipe: the handler gets the arguments before it and the
      shell command is empty. */
  lemma TrailingPipe(commands: map<string, Handler>, tokens: seq<string>)
    requires tokens != [] && tokens[0] in commands
    requires |tokens| > 2 && tokens[|tokens| - 1] == PipeMarker
    requires forall j :: 1 <= j < |tokens| - 1 ==> tokens[j] != PipeMarker
    ensures Decide(commands, tokens)
      == Decision(Piped(commands[tokens[0]], tokens[1..|tokens| - 1], ""), false)
  {
    var args := tokens[1..];
    FirstPipeSplits(commands, tokens, |args| - 1);
    assert args[..|args| - 1] == tokens[1..|tokens| - 1];
  }

  /** `|` after the first one stays in the shell command, between the words
      around it. A later `|` right after the first one or at the very end is
      covered by `FirstPipeSplits` (the shell command is the rest joined as
      is); `ExampleAdjacentPipes` shows both. */
  lemma LaterPipeKept(commands: map<string, Handler>, tokens: seq<string>, i: nat, j: nat)
    requires tokens != [] && tokens[0] in commands
    requires |tokens| > 2
    requires i + 1 < j < |tokens| - 2
    requires tokens[1..][i] == PipeMarker && tokens[1..][j] == PipeMarker
    requires forall k :: 0 <= k < i ==> tokens[1..][k] != PipeMarker
    ensures var args := tokens[1..];
      Decide(commands, tokens).action.shellCommand
        == Join(args[i + 1..j], " ") + " | " + Join(args[j + 1..], " ")
  {
    var args := tokens[1..];
    FirstPipeSplits(commands, tokens, i);
    var before, after := args[i + 1..j], args[j + 1..];
    assert args[i + 1..] == before + ([PipeMarker] + after);
    JoinAppend(before, [PipeMarker] + after, " ");
    JoinAppend([PipeMarker], after, " ");
  }

  /** Whatever the line, a handler runs only when the first token is its
      registered name, and it receives a prefix of the arguments that
      follow that name. */
  lemma OnlyRegisteredHandlerRuns(commands: map<string, Handler>, line: string)
    requires Dispatchable(line)
    ensures var call := HandlerCall(Dispatch(commands, line).action);
      call.Some? ==>
        && !IsShellEscape(line)
        && Tokenize(line)[0] in commands
        && call.value.handler == commands[Tokenize(line)[0]]
        && call.value.args <= Tokenize(line)[1..]
  {
  }

  /** The blank separator line follows exactly the unknown-command report
      and the direct call. */
  lemma BlankLineRule(commands: map<string, Handler>, line: string)
    requires Dispatchable(line)
    ensures var d := Dispatch(commands, line);
      d.blankLine <==> d.action.NotFound? || d.action.Direct?
  {
  }

  // ---------------------------------------------------------------------------
  // Worked token lists.

  /** `cmd x | sort`: `x` goes to the handler and `sort` to the shell. */
  lemma ExamplePipe(commands: map<string, Handler>)
    requires "cmd" in commands
    ensures Decide(commands, ["cmd", "x", "|", "sort"])
      == Decision(Piped(commands["cmd"], ["x"], "sort"), false)
  {
    var tokens := ["cmd", "x", "|", "sort"];
    FirstPipeSplits(commands, tokens, 1);
    assert tokens[1..][..1] == ["x"];
    assert tokens[1..][2..] == ["sort"];
  }

  /** `cmd a | | b` pipes into `| b`, and `cmd a | b |` into `b |`: only the
      first `|` splits. */
  lemma ExampleAdjacentPipes(commands: map<string, Handler>)
    requires "cmd" in commands
    ensures Decide(commands, ["cmd", "a", "|", "|", "b"])
      == Decision(Piped(commands["cmd"], ["a"], "| b"), false)
    ensures Decide(commands, ["cmd", "a", "|", "b", "|"])
      == Decision(Piped(commands["cmd"], ["a"], "b |"), false)
  {
    var t1 := ["cmd", "a", "|", "|", "b"];
    FirstPipeSplits(commands, t1, 1);
    assert t1[1..][..1] == ["a"];
    assert t1[1..][2..] == ["|", "b"];
    assert Join(["|", "b"], " ") == "|" + " " + Join(["b"], " ") == "| b";
    var t2 := ["cmd", "a", "|", "b", "|"];
    FirstPipeSplits(commands, t2, 1);
    assert t2[1..][..1] == ["a"];
    assert t2[1..][2..] == ["b", "|"];
    assert Join(["b", "|"], " ") == "b" + " " + Join(["|"], " ") == "b |";
  }

  /** `cmd |` and `cmd x`: one argument, so no pipe. */
  lemma ExampleNoPipe(commands: map<string, Handler>)
    requires "cmd" in commands
    ensures Decide(commands, ["cmd", "|"]) == Decision(Direct(commands["cmd"], ["|"]), true)
    ensures Decide(commands, ["cmd", "x"]) == Decision(Direct(commands["cmd"], ["x"]), true)
  {
  }
}
