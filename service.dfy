/** The command-line service object: its command map, filled once at start-up
    by registering every handler, and `RunCommand`, which takes one line to
    its decision. */
module Service {
  import opened Text
  import opened Tokenizer
  import opened Dispatcher

  /** The command map after registering `handlers` in order into `m`; a later
      handler with the same name replaces an earlier one. */
  function RegisterAll(m: map<string, Handler>, handlers: seq<Handler>): map<string, Handler>
  {
    if handlers == [] then m
    else
      var last := handlers[|handlers| - 1];
      RegisterAll(m, handlers[..|handlers| - 1])[last.command := last]
  }

  /** A name is registered after start-up exactly when it was before or some
      handler gives it; it then maps to the LAST handler giving it, and names
      no handler gives keep their old entry. */
  lemma {:induction false} RegisterAllLookup(m: map<string, Handler>, handlers: seq<Handler>, name: string)
    ensures name in RegisterAll(m, handlers)
      <==> name in m || exists j :: 0 <= j < |handlers| && handlers[j].command == name
    ensures forall j ::
              && 0 <= j < |handlers| && handlers[j].command == name
              && (forall k :: j < k < |handlers| ==> handlers[k].command != name)
              ==> RegisterAll(m, handlers)[name] == handlers[j]
    ensures (forall j :: 0 <= j < |handlers| ==> handlers[j].command != name) && name in m
      ==> RegisterAll(m, handlers)[name] == m[name]
  {
    if handlers != [] {
      var n := |handlers| - 1;
      var init := handlers[..n];
      RegisterAllLookup(m, init, name);
      if exists j :: 0 <= j < |init| && init[j].command == name {
        var j :| 0 <= j < |init| && init[j].command == name;
        assert handlers[j] == init[j];
      }
      forall j | 0 <= j < n && handlers[j].command == name
        ensures init[j].command == name
      {
        assert handlers[j] == init[j];
      }
    }
  }

  /** Registering two handlers under one name leaves only the second one
      reachable by that name. */
  lemma RegisterTwiceKeepsSecond(m: map<string, Handler>, first: Handler, second: Handler)
    requires first.command == second.command
    ensures RegisterAll(m, [first, second])[first.command] == second
  {
    RegisterAllLookup(m, [first, second], first.command);
  }

  /** Every entry of the map is keyed by the name its handler gives. */
  ghost predicate KeyedByCommand(m: map<string, Handler>)
  {
    forall name :: name in m ==> m[name].command == name
  }

  /** Registration keeps every entry keyed by its handler's name. */
  lemma {:induction false} RegisterAllKeyed(m: map<string, Handler>, handlers: seq<Handler>)
    requires KeyedByCommand(m)
    ensures KeyedByCommand(RegisterAll(m, handlers))
  {
    if handlers != [] {
      RegisterAllKeyed(m, handlers[..|handlers| - 1]);
    }
  }

  /** With a map keyed by handler names, the handler that runs for a line is
      one whose `Command()` is the line's first token. */
  lemma HandlerRunsUnderItsName(commands: map<string, Handler>, line: string)
    requires KeyedByCommand(commands)
    requires Dispatchable(line)
    ensures var call := HandlerCall(Dispatch(commands, line).action);
      call.Some? ==> call.value.handler.command == Tokenize(line)[0]
  {
    OnlyRegisteredHandlerRuns(commands, line);
  }

  class CmdlineService {
    var commandMap: map<string, Handler>
    var prompt: string

    /** Each handler sits under the name it gives. */
    ghost predicate Valid()
      reads this
    {
      KeyedByCommand(commandMap)
    }

    /** `New`: the service with its prompt and every handler the start-up
        discovery yields registered in order. */
    constructor New(prompt: string, handlers: seq<Handler>)
      ensures Valid()
      ensures this.prompt == prompt
      ensures commandMap == RegisterAll(map[], handlers)
    {
      this.prompt := prompt;
      commandMap := map[];
      new;
      var k := 0;
      while k < |handlers|
        invariant 0 <= k <= |handlers|
        invariant Valid() && this.prompt == prompt
        invariant commandMap == RegisterAll(map[], handlers[..k])
      {
        assert handlers[..k + 1][..k] == handlers[..k];
        Register(handlers[k]);
        k := k + 1;
      }
      assert handlers[..k] == handlers;
    }

    /** `Register`: the handler goes under the name it gives, replacing any
        handler there; every other entry stays as it was. */
    method Register(handler: Handler)
      requires Valid()
      modifies this
      ensures Valid()
      ensures commandMap == old(commandMap)[handler.command := handler]
      ensures prompt == old(prompt)
    {
      commandMap := commandMap[handler.command := handler];
    }

    /** `RunCommand`: the decision for one line. The pipe search is the
        source's loop, stopping at the first `|`. A handler that runs is the
        one registered under the line's first token, so its `Command()` is
        that token. */
    method RunCommand(command: string) returns (d: Decision)
      requires Valid()
      requires Dispatchable(command)
      ensures d == Dispatch(commandMap, command)
      ensures var call := HandlerCall(d.action);
        call.Some? ==> call.value.handler.command == Tokenize(command)[0]
    {
      HandlerRunsUnderItsName(commandMap, command);
      if |command| > 0 && command[0] == '!' {
        d := Decision(Shell(TrimSpace(command[1..])), false);
        return;
      }
      var splitArgs := Tokenize(command);
      var cmd := splitArgs[0];
      if cmd in commandMap {
        var handler := commandMap[cmd];
        var args := splitArgs[1..];
        var argsLen := |args|;
        if argsLen > 1 {
          var i := 0;
          while i < argsLen
            invariant 0 <= i <= argsLen
            invariant forall j :: 0 <= j < i ==> args[j] != PipeMarker
          {
            if args[i] == PipeMarker && i < argsLen {
              FindUnique(args, PipeMarker, 0, i);
              d := Decision(Piped(handler, args[..i], Join(args[i + 1..], " ")), false);
              return;
            }
            i := i + 1;
          }
        }
        d := Decision(Direct(handler, args), true);
      } else {
        d := Decision(NotFound(cmd), true);
      }
    }
  }
}
