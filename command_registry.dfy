/**
 * The command registry: a table of ready-made commands and a table of factories,
 * both keyed by the first token of the operator's line.
 */
module CommandRegistries {
  import opened Wrappers
  import opened JavaStrings
  import opened Commands

  /** The first token of a line as `input.split("\\s+")[0]` sees it. */
  function FirstToken(input: string): string
    requires Split(input) != []
  {
    Split(input)[0]
  }

  /** hasCommand: the first token names a simple command or a factory. */
  predicate Known(commands: map<string, Command>, factories: map<string, Factory>, input: string)
    requires Split(input) != []
  {
    FirstToken(input) in commands || FirstToken(input) in factories
  }

  /**
   * getCommand: a simple command wins over a factory of the same name and is
   * returned whatever tokens follow; a factory receives the remaining tokens in
   * order; an unknown name gives `None` (null).
   */
  function Lookup(commands: map<string, Command>, factories: map<string, Factory>, input: string): (r: Option<Command>)
    requires Split(input) != []
    ensures r.None? <==> !Known(commands, factories, input)
    ensures FirstToken(input) in commands ==> r == Some(commands[FirstToken(input)])
    ensures FirstToken(input) !in commands && FirstToken(input) in factories ==>
              exists args :: |args| == |Split(input)| - 1 && Split(input) == [FirstToken(input)] + args &&
                             r == Some(Create(factories[FirstToken(input)], args))
  {
    var parts := Split(input);
    var name := parts[0];
    if name in commands then Some(commands[name])
    else if name in factories then
      assert parts == [name] + parts[1..];
      Some(Create(factories[name], parts[1..]))
    else None
  }

  /**
   * A line typed as a name followed by argument words, separated by single
   * spaces: a simple command ignores the words, a factory receives exactly them.
   */
  lemma LookupTyped(commands: map<string, Command>, factories: map<string, Factory>, name: string, args: seq<string>)
    requires name != [] && NoRegexSpace(name)
    requires forall w <- args :: w != [] && NoRegexSpace(w)
    ensures Split(JoinSpaced([name] + args)) == [name] + args
    ensures name in commands ==> Lookup(commands, factories, JoinSpaced([name] + args)) == Some(commands[name])
    ensures name !in commands && name in factories ==>
              Lookup(commands, factories, JoinSpaced([name] + args)) == Some(Create(factories[name], args))
    ensures name !in commands && name !in factories ==> Lookup(commands, factories, JoinSpaced([name] + args)).None?
  {
    var ws := [name] + args;
    assert forall w <- ws :: w != [] && NoRegexSpace(w);
    WordsOfJoinSpaced(ws);
    var line := JoinSpaced(ws);
    assert line != [] && line[0] == name[0] by {
      if |ws| == 1 {
        assert line == name;
      } else {
        assert line == name + " " + JoinSpaced(ws[1..]);
      }
    }
    assert !IsRegexSpace(name[0]) by {
      assert NoRegexSpace(name);
    }
    assert Split(line) == ws;
    assert ws[1..] == args;
  }

  /** The two tables of the scriptable debugger; entries are overwritten by name. */
  class CommandRegistry {
    var commands: map<string, Command>
    var factories: map<string, Factory>

    constructor ()
      ensures commands == map[] && factories == map[]
    {
      commands := map[];
      factories := map[];
    }

    /** Binds `name` to a simple command, replacing any earlier binding of that name only. */
    method Register(name: string, command: Command)
      modifies this
      ensures commands == old(commands)[name := command] && factories == old(factories)
    {
      commands := commands[name := command];
    }

    /** Binds `name` to a factory, replacing any earlier binding of that name only. */
    method RegisterFactory(name: string, factory: Factory)
      modifies this
      ensures factories == old(factories)[name := factory] && commands == old(commands)
    {
      factories := factories[name := factory];
    }

    predicate HasCommand(input: string)
      requires Split(input) != []
      reads this
    {
      Known(commands, factories, input)
    }

    function GetCommand(input: string): Option<Command>
      requires Split(input) != []
      reads this
    {
      Lookup(commands, factories, input)
    }
  }

  /** The simple commands initializeCommands registers. */
  function StandardCommands(): map<string, Command> {
    map[
      "step" := StepCmd, "step-over" := StepOverCmd, "continue" := ContinueCmd,
      "frame" := FrameCmd, "method" := MethodCmd, "stack" := StackCmd,
      "temporaries" := TemporariesCmd, "arguments" := ArgumentsCmd, "receiver" := ReceiverCmd,
      "sender" := SenderCmd, "receiver-variables" := ReceiverVariablesCmd, "breakpoints" := BreakpointsCmd]
  }

  /** The factories initializeCommands registers. */
  function StandardFactories(): map<string, Factory> {
    map[
      "print-var" := PrintVarFactory, "break" := BreakFactory, "break-once" := BreakOnceFactory,
      "break-on-count" := BreakOnCountFactory, "break-before-method-call" := BreakBeforeMethodCallFactory]
  }

  /** initializeCommands: the registry the debugger starts with. */
  method InitializeCommands() returns (registry: CommandRegistry)
    ensures fresh(registry)
    ensures registry.commands == StandardCommands() && registry.factories == StandardFactories()
  {
    registry := new CommandRegistry();
    registry.Register("step", StepCmd);
    registry.Register("step-over", StepOverCmd);
    registry.Register("continue", ContinueCmd);
    registry.Register("frame", FrameCmd);
    registry.Register("method", MethodCmd);
    registry.Register("stack", StackCmd);
    registry.Register("temporaries", TemporariesCmd);
    registry.Register("arguments", ArgumentsCmd);
    registry.Register("receiver", ReceiverCmd);
    registry.Register("sender", SenderCmd);
    registry.Register("receiver-variables", ReceiverVariablesCmd);
    registry.Register("breakpoints", BreakpointsCmd);
    registry.RegisterFactory("print-var", PrintVarFactory);
    registry.RegisterFactory("break", BreakFactory);
    registry.RegisterFactory("break-once", BreakOnceFactory);
    registry.RegisterFactory("break-on-count", BreakOnCountFactory);
    registry.RegisterFactory("break-before-method-call", BreakBeforeMethodCallFactory);
  }

  /** In the standard registry no simple command and factory share a name, so every factory is reachable. */
  lemma StandardTablesDisjoint()
    ensures forall name :: name in StandardFactories() ==> name !in StandardCommands()
  {
  }
}
