/**
 * The scriptable debugger object: its breakpoint list holds BreakpointInfo
 * objects that the hit handler updates and removes in place, and its fields
 * (current event, resume flag, the VM's request tables, input and output) are
 * updated by the command and event handlers. Every method is proved to do what
 * the matching function of ScriptedSession says.
 */
module ScriptableDebuggers {
  import opened Wrappers
  import opened JavaStrings
  import opened Vm
  import opened BreakpointInfos
  import opened HitPolicy
  import opened Commands
  import opened CommandRegistries
  import opened Inspection
  import opened ScriptedSession

  /** Distinct objects of `repr`, in list order, whose current values are `es`. */
  ghost predicate Tracks(bs: seq<BreakpointInfo>, es: seq<Entry>, repr: set<BreakpointInfo>)
    reads repr
  {
    (forall i :: 0 <= i < |bs| ==> bs[i] in repr) &&
    |es| == |bs| &&
    (forall i, j :: 0 <= i < j < |bs| ==> bs[i] != bs[j]) &&
    (forall i :: 0 <= i < |bs| ==> bs[i].View() == es[i])
  }

  class ScriptableDebugger {
    var vm: VmState
    var breakpoints: seq<BreakpointInfo>
    /** The values of the breakpoint objects, in list order. */
    ghost var entries: seq<Entry>
    /** The breakpoint objects this debugger has created. */
    ghost var Repr: set<BreakpointInfo>
    var registry: CommandRegistry
    var currentEvent: Option<Event>
    var shouldResume: bool
    var input: seq<Option<string>>
    var out: seq<string>

    /** The list holds distinct objects, and `entries` is their current values. */
    ghost predicate Valid()
      reads this, Repr
    {
      Tracks(breakpoints, entries, Repr)
    }

    /** The whole debugger state as one value. */
    ghost function Snapshot(): Session
      reads this, registry
    {
      Session(vm, entries, registry.commands, registry.factories, currentEvent, shouldResume, input, out)
    }

    /** attachTo, without the VM launch: an empty list and the standard commands. */
    constructor (classes: seq<LoadedClass>, input: seq<Option<string>>)
      ensures Valid()
      ensures Snapshot() == Session(VmState(classes, [], [], [], 0, 0), [], StandardCommands(), StandardFactories(), None, false, input, [])
      ensures Repr == {}
    {
      var r := InitializeCommands();
      registry := r;
      vm := VmState(classes, [], [], [], 0, 0);
      breakpoints := [];
      entries := [];
      Repr := {};
      currentEvent := None;
      shouldResume := false;
      this.input := input;
      out := [];
    }

    // ---------------------------------------------------------------- stepping

    /** enableStepRequest on the current event's thread. */
    method EnableStepRequest(depth: Depth)
      requires currentEvent.Some? && currentEvent.value.Locatable()
      modifies this
      ensures currentEvent == old(currentEvent)
      ensures vm == old(vm).(steps := old(vm.steps) + [StepReq(old(vm.nextHandle), currentEvent.value.thread.id, depth, true)],
                            nextHandle := old(vm.nextHandle) + 1)
      ensures breakpoints == old(breakpoints) && entries == old(entries) && registry == old(registry) && Repr == old(Repr)
      ensures shouldResume == old(shouldResume) && input == old(input) && out == old(out)
    {
      var req := StepReq(vm.nextHandle, currentEvent.value.thread.id, depth, true);
      vm := vm.(steps := vm.steps + [req], nextHandle := vm.nextHandle + 1);
    }

    method StepWithType(depth: Depth)
      modifies this
      ensures Snapshot() == ScriptedSession.StepWithType(old(Snapshot()), depth)
      ensures breakpoints == old(breakpoints) && entries == old(entries) && registry == old(registry) && Repr == old(Repr)
    {
      if currentEvent.Some? && currentEvent.value.Locatable() {
        if vm.steps == [] {
          EnableStepRequest(depth);
        } else {
          vm := vm.(steps := vm.steps[1..]);
          EnableStepRequest(depth);
        }
      }
    }

    /** step: STEP_INTO, then release the debuggee. */
    method Step()
      modifies this
      ensures Snapshot() == ScriptedSession.Step(old(Snapshot()), Into)
      ensures breakpoints == old(breakpoints) && entries == old(entries) && registry == old(registry) && Repr == old(Repr)
    {
      StepWithType(Into);
      shouldResume := true;
    }

    /** stepOver: STEP_OVER, then release the debuggee. */
    method StepOver()
      modifies this
      ensures Snapshot() == ScriptedSession.Step(old(Snapshot()), Over)
      ensures breakpoints == old(breakpoints) && entries == old(entries) && registry == old(registry) && Repr == old(Repr)
    {
      StepWithType(Over);
      shouldResume := true;
    }

    /** continueExecution: the loop disabling every step request. */
    method ContinueExecution()
      modifies this
      ensures Snapshot() == Continue(old(Snapshot()))
      ensures breakpoints == old(breakpoints) && entries == old(entries) && registry == old(registry) && Repr == old(Repr)
    {
      var steps := vm.steps;
      var i := 0;
      while i < |steps|
        invariant 0 <= i <= |steps| == |vm.steps|
        invariant forall k :: 0 <= k < i ==> steps[k] == vm.steps[k].(enabled := false)
        invariant forall k :: i <= k < |steps| ==> steps[k] == vm.steps[k]
      {
        steps := steps[i := steps[i].(enabled := false)];
        i := i + 1;
      }
      assert steps == DisableAll(vm.steps);
      vm := vm.(steps := steps);
      out := out + [">>> Continuing..."];
      shouldResume := true;
    }

    // ---------------------------------------------------------------- the breakpoint list

    /** breakpoints.add(info) for a new object. */
    method Append(info: BreakpointInfo)
      requires Valid() && info !in Repr
      modifies this
      ensures Valid() && Repr == old(Repr) + {info}
      ensures breakpoints == old(breakpoints) + [info] && entries == old(entries) + [info.View()]
      ensures vm == old(vm) && registry == old(registry) && currentEvent == old(currentEvent)
      ensures shouldResume == old(shouldResume) && input == old(input) && out == old(out)
    {
      breakpoints := breakpoints + [info];
      entries := entries + [info.View()];
      Repr := Repr + {info};
    }

    /** The shared body of addBreakpoint, addBreakpointOnce and addBreakpointOnCount. */
    method AddLine(f: string, line: int, once: bool, target: int) returns (ok: bool)
      requires Valid()
      modifies this
      ensures Valid()
      ensures (Snapshot(), ok) == AddLineBreakpoint(old(Snapshot()), f, line, once, target)
      ensures registry == old(registry)
      ensures fresh(Repr - old(Repr))
    {
      var r := FindBreakpointLocation(vm.classes, f, line);
      match r
      case Located(_) =>
        Place(f, line, once, target);
        return true;
      case NoDebugInfo =>
        out := out + ["No debug info for " + f];
        return false;
      case NotFound =>
        return false;
    }

    /** A located line breakpoint: a new request, and a new object carrying it at the end of the list. */
    method Place(f: string, line: int, once: bool, target: int)
      requires Valid()
      modifies this
      ensures Valid()
      ensures vm == old(vm).(requests := old(vm.requests) + [old(vm.nextHandle)], nextHandle := old(vm.nextHandle) + 1)
      ensures entries == old(entries) + [Entry(f, line, Some(old(vm.nextHandle)), once, target, 0)]
      ensures registry == old(registry) && currentEvent == old(currentEvent) && shouldResume == old(shouldResume)
      ensures input == old(input) && out == old(out)
      ensures fresh(Repr - old(Repr))
    {
      var h := vm.nextHandle;
      vm := vm.(requests := vm.requests + [h], nextHandle := h + 1);
      var info := new BreakpointInfo(f, line, Some(h));
      if once {
        info.SetOnce(true);
      }
      if target != 0 {
        info.SetTargetCount(target);
      }
      Append(info);
    }

    /** addBreakpoint. */
    method AddBreakpoint(f: string, line: int) returns (ok: bool)
      requires Valid()
      modifies this
      ensures Valid()
      ensures (Snapshot(), ok) == AddLineBreakpoint(old(Snapshot()), f, line, false, 0)
      ensures registry == old(registry)
      ensures fresh(Repr - old(Repr))
    {
      ok := AddLine(f, line, false, 0);
    }

    /** addBreakpointOnce. */
    method AddBreakpointOnce(f: string, line: int) returns (ok: bool)
      requires Valid()
      modifies this
      ensures Valid()
      ensures (Snapshot(), ok) == AddLineBreakpoint(old(Snapshot()), f, line, true, 0)
      ensures registry == old(registry)
      ensures fresh(Repr - old(Repr))
    {
      ok := AddLine(f, line, true, 0);
    }

    /** addBreakpointOnCount. */
    method AddBreakpointOnCount(f: string, line: int, count: int) returns (ok: bool)
      requires Valid()
      modifies this
      ensures Valid()
      ensures (Snapshot(), ok) == AddLineBreakpoint(old(Snapshot()), f, line, false, count)
      ensures registry == old(registry)
      ensures fresh(Repr - old(Repr))
    {
      ok := AddLine(f, line, false, count);
    }

    /** addMethodBreakpoint. */
    method AddMethodBreakpoint(m: string) returns (ok: bool)
      requires Valid()
      modifies this
      ensures Valid()
      ensures (Snapshot(), ok) == ScriptedSession.AddMethodBreakpoint(old(Snapshot()), m)
      ensures registry == old(registry)
      ensures fresh(Repr - old(Repr))
    {
      var h := vm.nextHandle;
      vm := vm.(methodEntries := vm.methodEntries + [h], nextHandle := h + 1);
      var info := new BreakpointInfo(m, -1, None);
      Append(info);
      out := out + ["Method entry breakpoint set for: " + m];
      return true;
    }

    /** getBreakpoints, read out as values for the listing. */
    method BreakpointValues() returns (es: seq<Entry>)
      requires Valid()
      ensures es == entries
    {
      es := [];
      var i := 0;
      while i < |breakpoints|
        invariant 0 <= i <= |breakpoints|
        invariant es == entries[..i]
      {
        es := es + [breakpoints[i].View()];
        i := i + 1;
      }
    }

    /**
     * handleSpecialBreakpoint: walks the list; the first object whose request is
     * `h` counts the hit and decides; a once-object that halts is removed through
     * the iterator and its request deleted. A null request on the way throws.
     */
    method HandleSpecialBreakpoint(h: Handle) returns (d: Decision)
      requires Valid()
      modifies this, Repr
      ensures Valid()
      ensures var hit := OnHit(old(entries), h);
        d == hit.decision && entries == hit.entries && vm == DeleteRequest(old(vm), hit.deleted)
      ensures registry == old(registry) && currentEvent == old(currentEvent) && shouldResume == old(shouldResume)
      ensures input == old(input) && out == old(out)
      ensures Repr == old(Repr)
    {
      var i := 0;
      while i < |breakpoints|
        invariant 0 <= i <= |breakpoints|
        invariant Skips(entries, h, i)
        invariant ScanFrom(entries, h, i) == ScanFor(entries, h)
        invariant unchanged(this) && unchanged(Repr)
      {
        var bp := breakpoints[i];
        if bp.request.None? {
          return NullRequest;
        }
        if bp.request.value == h {
          d := HitAt(i, h);
          return;
        }
        i := i + 1;
      }
      return Halt;
    }

    /** The body of handleSpecialBreakpoint's walk at the first object whose request raised the event. */
    method HitAt(i: nat, h: Handle) returns (d: Decision)
      requires Valid() && i < |breakpoints| && breakpoints[i].request == Some(h)
      requires ScanFor(entries, h) == MatchAt(i)
      modifies this, Repr
      ensures Valid()
      ensures var hit := OnHit(old(entries), h);
        d == hit.decision && entries == hit.entries && vm == DeleteRequest(old(vm), hit.deleted)
      ensures registry == old(registry) && currentEvent == old(currentEvent) && shouldResume == old(shouldResume)
      ensures input == old(input) && out == old(out)
      ensures Repr == old(Repr)
    {
      var bp := breakpoints[i];
      bp.IncrementCount();
      entries := entries[i := bp.View()];
      OthersUnchanged(i);
      if !bp.ShouldActivate() {
        return Suppress;
      }
      if bp.isOnce {
        vm := vm.(requests := Without(vm.requests, h));
        RemoveAt(i);
      }
      return Halt;
    }

    // ---------------------------------------------------------------- commands

    /** Command.execute for the command the registry returned. */
    method Execute(c: Command) returns (result: Option<string>)
      requires Valid()
      modifies this
      ensures Valid()
      ensures (Snapshot(), result) == ScriptedSession.Execute(old(Snapshot()), c)
      ensures registry == old(registry)
      ensures fresh(Repr - old(Repr))
    {
      match c
      case StepCmd =>
        Step();
        return None;
      case StepOverCmd =>
        StepOver();
        return None;
      case ContinueCmd =>
        ContinueExecution();
        return None;
      case FrameCmd => return Some(FrameText(currentEvent));
      case MethodCmd => return Some(MethodText(currentEvent));
      case StackCmd =>
        var text := StackCommand(currentEvent);
        return Some(text);
      case TemporariesCmd =>
        var text := TemporariesCommand(currentEvent);
        return Some(text);
      case ArgumentsCmd =>
        var text := ArgumentsCommand(currentEvent);
        return Some(text);
      case ReceiverCmd => return Some(ReceiverText(currentEvent));
      case SenderCmd => return Some(SenderText(currentEvent));
      case ReceiverVariablesCmd =>
        var text := ReceiverVariablesCommand(currentEvent);
        return Some(text);
      case BreakpointsCmd =>
        var es := BreakpointValues();
        var text := BreakpointsCommand(es);
        return Some(text);
      case PrintVar(name) => return Some(PrintVarText(currentEvent, name));
      case Break(f, line) =>
        var ok := AddBreakpoint(f, line);
        return Some(BreakReply(c, ok));
      case BreakOnce(f, line) =>
        var ok := AddBreakpointOnce(f, line);
        return Some(BreakReply(c, ok));
      case BreakOnCount(f, line, count) =>
        var ok := AddBreakpointOnCount(f, line, count);
        return Some(BreakReply(c, ok));
      case BreakBeforeMethodCall(m) =>
        var ok := AddMethodBreakpoint(m);
        return Some(MethodBreakReply(m, ok));
      case Reply(text) => return Some(text);
    }

    /** readCommand. */
    method ReadCommand()
      requires Valid()
      modifies this
      ensures Valid()
      ensures Snapshot() == ScriptedSession.ReadCommand(old(Snapshot()))
      ensures registry == old(registry)
      ensures fresh(Repr - old(Repr))
    {
      ghost var s0 := Snapshot();
      out := out + ["\n>>> Enter command: "];
      if input == [] || input[0].None? {
        EndOfInput(s0);
      } else {
        ReadLine(s0);
      }
    }

    /** readCommand once the prompt is out and the input has ended: say so and continue. */
    method EndOfInput(ghost s0: Session)
      requires Valid() && AtEnd(s0) && Snapshot() == Print(s0, "\n>>> Enter command: ")
      modifies this
      ensures Valid()
      ensures Snapshot() == ScriptedSession.ReadCommand(s0)
      ensures registry == old(registry) && Repr == old(Repr)
    {
      EndOfInputContinues(s0);
      out := out + [">>> End of input, continuing..."];
      ContinueExecution();
    }

    /** readCommand once the prompt is out and a line is there: skip it when blank, dispatch it otherwise. */
    method ReadLine(ghost s0: Session)
      requires Valid() && !AtEnd(s0) && Snapshot() == Print(s0, "\n>>> Enter command: ")
      modifies this
      ensures Valid()
      ensures Snapshot() == ScriptedSession.ReadCommand(s0)
      ensures registry == old(registry)
      ensures fresh(Repr - old(Repr))
    {
      var raw := input[0].value;
      input := input[1..];
      var line := Trim(raw);
      if line == [] {
        BlankLineIgnored(s0);
        return;
      }
      ReadCommandDispatches(s0);
      Dispatch(line);
    }

    /** The rest of readCommand once a non-blank line is read: run a known command, report an unknown one. */
    method Dispatch(line: string)
      requires Valid() && Split(line) != []
      modifies this
      ensures Valid()
      ensures Snapshot() == ScriptedSession.Dispatch(old(Snapshot()), line)
      ensures registry == old(registry)
      ensures fresh(Repr - old(Repr))
    {
      if registry.HasCommand(line) {
        var command := registry.GetCommand(line).value;
        var result := Execute(command);
        if result.Some? {
          out := out + [result.value];
        }
      } else {
        out := out + [">>> Unknown command: " + line];
      }
    }

    /** shouldResume = false; while (!shouldResume) readCommand(); */
    method AwaitCommands()
      requires Valid()
      modifies this
      ensures Valid()
      ensures Snapshot() == Halted(old(Snapshot()))
      ensures registry == old(registry)
      ensures fresh(Repr - old(Repr))
    {
      shouldResume := false;
      assert Snapshot() == old(Snapshot()).(shouldResume := false);
      while !shouldResume
        invariant Valid() && registry == old(registry)
        invariant fresh(Repr - old(Repr))
        invariant ScriptedSession.AwaitCommands(Snapshot()) == Halted(old(Snapshot()))
        decreases |input|, if shouldResume then 0 else 1
      {
        ghost var before := Snapshot();
        ReadCommand();
        assert Snapshot() == ScriptedSession.ReadCommand(before);
        assert ScriptedSession.AwaitCommands(before) == ScriptedSession.AwaitCommands(Snapshot());
      }
    }

    // ---------------------------------------------------------------- events

    method Resume()
      modifies this
      ensures vm == old(vm).(resumes := old(vm.resumes) + 1)
      ensures breakpoints == old(breakpoints) && entries == old(entries) && registry == old(registry) && Repr == old(Repr)
      ensures currentEvent == old(currentEvent) && shouldResume == old(shouldResume) && input == old(input) && out == old(out)
    {
      vm := vm.(resumes := vm.resumes + 1);
    }

    /** One event of startDebugger's loop. */
    method ProcessEvent(e: Event) returns (status: Status)
      requires Valid()
      modifies this, Repr
      ensures Valid()
      ensures Outcome(status, Snapshot()) == ScriptedSession.ProcessEvent(old(Snapshot()), e)
      ensures registry == old(registry)
      ensures fresh(Repr - old(Repr))
    {
      currentEvent := Some(e);
      match e
      case ClassPrepare(_) =>
        OnClassPrepare();
        return Running;
      case VMDeath =>
        Resume();
        return Running;
      case VMDisconnect =>
        out := out + ["End of program"];
        return Ended;
      case _ =>
        status := OnHaltingEvent(e);
    }

    /** The events that may halt for commands: a breakpoint hit, a finished step, a method entry. */
    method OnHaltingEvent(e: Event) returns (status: Status)
      requires Valid() && currentEvent == Some(e)
      requires e.BreakpointHit? || e.StepDone? || e.MethodEntry?
      modifies this, Repr
      ensures Valid()
      ensures Outcome(status, Snapshot()) == ScriptedSession.ProcessEvent(old(Snapshot()), e)
      ensures registry == old(registry)
      ensures fresh(Repr - old(Repr))
    {
      assert old(Snapshot()).(current := Some(e)) == old(Snapshot());
      match e
      case BreakpointHit(h, _) =>
        status := OnBreakpointEvent(h);
      case StepDone(_, _) =>
        status := OnStepEvent();
      case MethodEntry(_) =>
        HaltAndResume();
        return Running;
    }

    /** The breakpoint branch: consult the hit policy, then resume at once or after the commands. */
    method OnBreakpointEvent(h: Handle) returns (status: Status)
      requires Valid()
      modifies this, Repr
      ensures Valid()
      ensures Outcome(status, Snapshot()) == OnBreakpoint(old(Snapshot()), h)
      ensures registry == old(registry)
      ensures fresh(Repr - old(Repr))
    {
      var d := HandleSpecialBreakpoint(h);
      if d.NullRequest? {
        return Crashed;
      }
      if d.Suppress? {
        Resume();
        return Running;
      }
      HaltAndResume();
      return Running;
    }

    /** The step branch: disable the first step request, then halt. */
    method OnStepEvent() returns (status: Status)
      requires Valid()
      modifies this
      ensures Valid()
      ensures Outcome(status, Snapshot()) == ScriptedSession.OnStepEvent(old(Snapshot()))
      ensures registry == old(registry)
      ensures fresh(Repr - old(Repr))
    {
      if vm.steps == [] {
        return Crashed;
      }
      vm := vm.(steps := vm.steps[0 := vm.steps[0].(enabled := false)]);
      HaltAndResume();
      return Running;
    }

    /** The class-prepare branch: set the hard-coded breakpoint, then resume. */
    method OnClassPrepare()
      requires Valid()
      modifies this
      ensures Valid()
      ensures Snapshot() == ScriptedSession.Resume(SetInitialBreakpoint(old(Snapshot())))
      ensures registry == old(registry) && Repr == old(Repr)
    {
      vm := vm.(requests := vm.requests + [vm.nextHandle], nextHandle := vm.nextHandle + 1);
      Resume();
    }

    /** A halt: read commands until one resumes, then resume the VM. */
    method HaltAndResume()
      requires Valid()
      modifies this
      ensures Valid()
      ensures Snapshot() == ScriptedSession.Resume(Halted(old(Snapshot())))
      ensures registry == old(registry)
      ensures fresh(Repr - old(Repr))
    {
      AwaitCommands();
      Resume();
    }

    /** startDebugger over the events the VM delivers, in order. */
    method StartDebugger(events: seq<Event>) returns (status: Status)
      requires Valid()
      modifies this, Repr
      ensures Valid()
      ensures Outcome(status, Snapshot()) == Run(old(Snapshot()), events)
    {
      var i := 0;
      while i < |events|
        invariant 0 <= i <= |events|
        invariant Valid() && registry == old(registry)
        invariant fresh(Repr - old(Repr))
        invariant Run(Snapshot(), events[i..]) == Run(old(Snapshot()), events)
      {
        assert events[i..][1..] == events[i + 1..];
        status := ProcessEvent(events[i]);
        if !status.Running? {
          return;
        }
        i := i + 1;
      }
      return Running;
    }

    /** After the object at `i` changed, the others still show their entries. */
    lemma OthersUnchanged(i: nat)
      requires forall j :: 0 <= j < |breakpoints| ==> breakpoints[j] in Repr
      requires |entries| == |breakpoints| && i < |breakpoints|
      requires forall a, b :: 0 <= a < b < |breakpoints| ==> breakpoints[a] != breakpoints[b]
      requires breakpoints[i].View() == entries[i]
      requires forall j :: 0 <= j < |breakpoints| && j != i ==> breakpoints[j].View() == entries[j]
      ensures Valid()
    {
    }

    /** it.remove() on the object at `i`. */
    method RemoveAt(i: nat)
      requires Valid() && i < |breakpoints|
      modifies this
      ensures Valid()
      ensures breakpoints == old(breakpoints[..i] + breakpoints[i + 1..]) && entries == old(entries[..i] + entries[i + 1..])
      ensures Repr == old(Repr)
      ensures vm == old(vm) && registry == old(registry) && currentEvent == old(currentEvent)
      ensures shouldResume == old(shouldResume) && input == old(input) && out == old(out)
    {
      breakpoints := breakpoints[..i] + breakpoints[i + 1..];
      entries := entries[..i] + entries[i + 1..];
      forall a, b | 0 <= a < b < |breakpoints| ensures breakpoints[a] != breakpoints[b] {
        var a' := if a < i then a else a + 1;
        var b' := if b < i then b else b + 1;
        assert breakpoints[a] == old(breakpoints)[a'] && breakpoints[b] == old(breakpoints)[b'];
      }
    }
  }
}
