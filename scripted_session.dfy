/**
 * The scriptable debugger as a state machine over values: the VM's request
 * tables, the tracked breakpoints, the registry tables, the current event, the
 * resume flag, the operator's input lines and the printed lines. Each function
 * is one operation of the debugger; the class in ScriptableDebuggers performs
 * the same operations in place and is proved to agree with these.
 */
module ScriptedSession {
  import opened Wrappers
  import opened JavaStrings
  import opened Vm
  import opened BreakpointInfos
  import opened HitPolicy
  import opened Commands
  import opened CommandRegistries
  import opened Inspection

  /**
   * What the debugger holds of the VM: loaded classes, live breakpoint requests
   * (the initial one included), method-entry requests, step requests in the order
   * stepRequests() lists them, the next unused handle, and how often the VM was
   * resumed.
   */
  datatype VmState = VmState(
    classes: seq<LoadedClass>,
    requests: seq<Handle>,
    methodEntries: seq<Handle>,
    steps: seq<StepReq>,
    nextHandle: Handle,
    resumes: nat)

  /**
   * Everything one operation reads or changes. `input` holds the lines
   * readLine() will return; `None`, or running out of lines, is end of input,
   * which stays put once reached. `out` holds the println'd texts in order.
   */
  datatype Session = Session(
    vm: VmState,
    entries: seq<Entry>,
    commands: map<string, Command>,
    factories: map<string, Factory>,
    current: Option<Event>,
    shouldResume: bool,
    input: seq<Option<string>>,
    out: seq<string>)

  function Print(s: Session, line: string): Session {
    s.(out := s.out + [line])
  }

  // ---------------------------------------------------------------- stepping

  /** The current event carries a thread a step request can be created on. */
  predicate HasThread(s: Session) {
    s.current.Some? && s.current.value.Locatable()
  }

  /** enableStepRequest: a new enabled STEP_LINE request on the current thread. */
  function EnableStep(s: Session, depth: Depth): (r: Session)
    requires HasThread(s)
    ensures r.vm.steps == s.vm.steps + [StepReq(s.vm.nextHandle, s.current.value.thread.id, depth, true)]
    ensures r.vm.nextHandle == s.vm.nextHandle + 1
  {
    var req := StepReq(s.vm.nextHandle, s.current.value.thread.id, depth, true);
    s.(vm := s.vm.(steps := s.vm.steps + [req], nextHandle := s.vm.nextHandle + 1))
  }

  /** stepWithType: delete the first step request, if any, then create one; nothing happens without a thread. */
  function StepWithType(s: Session, depth: Depth): Session {
    if !HasThread(s) then s
    else if s.vm.steps == [] then EnableStep(s, depth)
    else EnableStep(s.(vm := s.vm.(steps := s.vm.steps[1..])), depth)
  }

  /** step (depth Into) and stepOver (depth Over): the resume flag is set whether or not a request was created. */
  function Step(s: Session, depth: Depth): Session {
    StepWithType(s, depth).(shouldResume := true)
  }

  /** At most one step request exists: the single-flight invariant. */
  predicate SingleStep(s: Session) {
    |s.vm.steps| <= 1
  }

  /**
   * With a thread, a step leaves exactly one step request, enabled, with the
   * requested depth, on the current thread; the old one, if any, is gone.
   * Without a thread the VM is untouched. Either way the debuggee is released.
   */
  lemma StepSingleFlight(s: Session, depth: Depth)
    requires SingleStep(s)
    ensures var r := Step(s, depth);
      r.shouldResume && SingleStep(r) &&
      (HasThread(s) ==> r.vm.steps == [StepReq(s.vm.nextHandle, s.current.value.thread.id, depth, true)]) &&
      (!HasThread(s) ==> r.vm == s.vm) &&
      r.entries == s.entries && r.out == s.out && r.input == s.input
  {
    if HasThread(s) && s.vm.steps != [] {
      assert s.vm.steps[1..] == [];
    }
  }

  /** Every step request disabled, none deleted. */
  function DisableAll(steps: seq<StepReq>): (r: seq<StepReq>)
    ensures |r| == |steps|
    ensures forall i :: 0 <= i < |r| ==> r[i] == steps[i].(enabled := false)
  {
    seq(|steps|, i requires 0 <= i < |steps| => steps[i].(enabled := false))
  }

  /** continueExecution. */
  function Continue(s: Session): Session {
    Print(s.(vm := s.vm.(steps := DisableAll(s.vm.steps)), shouldResume := true), ">>> Continuing...")
  }

  /** continue keeps every step request, with its id, thread and depth, but disabled, and releases the debuggee. */
  lemma ContinueDisables(s: Session)
    ensures var r := Continue(s);
      r.shouldResume && |r.vm.steps| == |s.vm.steps| &&
      (forall i :: 0 <= i < |r.vm.steps| ==>
        !r.vm.steps[i].enabled && r.vm.steps[i].id == s.vm.steps[i].id &&
        r.vm.steps[i].thread == s.vm.steps[i].thread && r.vm.steps[i].depth == s.vm.steps[i].depth) &&
      r.vm.requests == s.vm.requests && r.entries == s.entries && r.out == s.out + [">>> Continuing..."]
  {
  }

  // ---------------------------------------------------------------- adding breakpoints

  /**
   * addBreakpoint (once false, target 0), addBreakpointOnce (once true) and
   * addBreakpointOnCount (target `target`): on success a request is created at
   * the resolved location and one entry is appended.
   */
  function AddLineBreakpoint(s: Session, f: string, line: int, once: bool, target: int): (Session, bool) {
    match Resolve(s.vm.classes, f, line)
    case Located(_) =>
      var h := s.vm.nextHandle;
      (s.(vm := s.vm.(requests := s.vm.requests + [h], nextHandle := h + 1),
          entries := s.entries + [Entry(f, line, Some(h), once, target, 0)]), true)
    case NotFound => (s, false)
    case NoDebugInfo => (Print(s, "No debug info for " + f), false)
  }

  /**
   * A line breakpoint is set exactly when some class named `f`, or ending in
   * "." + f, has code on the line and no earlier matching class lacks debug
   * information. Success appends exactly one fresh, untriggered entry at the
   * end; failure leaves the list and the VM as they were.
   */
  lemma AddLineBreakpointOutcome(s: Session, f: string, line: int, once: bool, target: int)
    ensures var (r, ok) := AddLineBreakpoint(s, f, line, once, target);
      (ok <==> Resolve(s.vm.classes, f, line).Located?) &&
      (ok ==> r.entries == s.entries + [Entry(f, line, Some(s.vm.nextHandle), once, target, 0)] &&
              r.vm.requests == s.vm.requests + [s.vm.nextHandle] && r.out == s.out) &&
      (!ok ==> r.entries == s.entries && r.vm == s.vm) &&
      r.vm.steps == s.vm.steps && r.shouldResume == s.shouldResume && r.input == s.input
    ensures (forall c <- s.vm.classes :: !Blocks(c, f)) ==>
              (AddLineBreakpoint(s, f, line, once, target).1 <==> exists c <- s.vm.classes :: Hits(c, f, line))
  {
    if forall c <- s.vm.classes :: !Blocks(c, f) {
      ResolveWithDebugInfo(s.vm.classes, f, line);
    }
  }

  /** addMethodBreakpoint: a method-entry request, an entry with no request and line -1, a message, and always success. */
  function AddMethodBreakpoint(s: Session, m: string): (Session, bool) {
    var h := s.vm.nextHandle;
    (Print(s.(vm := s.vm.(methodEntries := s.vm.methodEntries + [h], nextHandle := h + 1),
              entries := s.entries + [Entry(m, -1, None, false, 0, 0)]),
           "Method entry breakpoint set for: " + m), true)
  }

  // ---------------------------------------------------------------- commands

  /** Command.execute: the new state and the result (`None` for null). */
  function Execute(s: Session, c: Command): (r: (Session, Option<string>))
    ensures r.0.input == s.input
  {
    match c
    case StepCmd => (Step(s, Into), None)
    case StepOverCmd => (Step(s, Over), None)
    case ContinueCmd => (Continue(s), None)
    case FrameCmd => (s, Some(FrameText(s.current)))
    case MethodCmd => (s, Some(MethodText(s.current)))
    case StackCmd => (s, Some(StackText(s.current)))
    case TemporariesCmd => (s, Some(TemporariesText(s.current)))
    case ArgumentsCmd => (s, Some(ArgumentsText(s.current)))
    case ReceiverCmd => (s, Some(ReceiverText(s.current)))
    case SenderCmd => (s, Some(SenderText(s.current)))
    case ReceiverVariablesCmd => (s, Some(ReceiverVariablesText(s.current)))
    case BreakpointsCmd => (s, Some(BreakpointsText(s.entries)))
    case PrintVar(name) => (s, Some(PrintVarText(s.current, name)))
    case Break(f, line) =>
      var (t, ok) := AddLineBreakpoint(s, f, line, false, 0);
      (t, Some(BreakReply(c, ok)))
    case BreakOnce(f, line) =>
      var (t, ok) := AddLineBreakpoint(s, f, line, true, 0);
      (t, Some(BreakReply(c, ok)))
    case BreakOnCount(f, line, count) =>
      var (t, ok) := AddLineBreakpoint(s, f, line, false, count);
      (t, Some(BreakReply(c, ok)))
    case BreakBeforeMethodCall(m) =>
      var (t, ok) := AddMethodBreakpoint(s, m);
      (t, Some(MethodBreakReply(m, ok)))
    case Reply(text) => (s, Some(text))
  }

  /**
   * Only step, step-over and continue return null; every other command has a
   * result, and only those three and the breakpoint setters change the state.
   * break-before-method-call always reports success.
   */
  lemma ExecuteResult(s: Session, c: Command)
    ensures var (t, r) := Execute(s, c);
      (r.None? <==> c.StepCmd? || c.StepOverCmd? || c.ContinueCmd?) &&
      (!(c.StepCmd? || c.StepOverCmd? || c.ContinueCmd? || c.SetsBreakpoint()) ==> t == s) &&
      (c.BreakBeforeMethodCall? ==> r == Some("Method breakpoint set on: " + c.methodName))
  {
  }

  /**
   * The break commands report what the add operation did: the reply starts
   * with "Failed" exactly when no request was created.
   */
  lemma BreakCommandReports(s: Session, c: Command)
    requires c.Break? || c.BreakOnce? || c.BreakOnCount?
    ensures var (t, r) := Execute(s, c);
      r.Some? && (StartsWith(r.value, "Failed") <==> !Resolve(s.vm.classes, c.filename, c.line).Located?) &&
      (t.entries != s.entries <==> Resolve(s.vm.classes, c.filename, c.line).Located?)
  {
    var target := if c.BreakOnCount? then c.count else 0;
    AddLineBreakpointOutcome(s, c.filename, c.line, c.BreakOnce?, target);
    var (t, ok) := AddLineBreakpoint(s, c.filename, c.line, c.BreakOnce?, target);
    BreakReplyShape(c, ok);
    if ok {
      assert |t.entries| == |s.entries| + 1;
    }
  }

  // ---------------------------------------------------------------- reading commands

  /** readLine() has reached the end of input. */
  predicate AtEnd(s: Session) {
    s.input == [] || s.input[0].None?
  }

  /**
   * readCommand: prompt, read a line; end of input continues, a blank line does
   * nothing, a known first token runs its command and prints a non-null result,
   * anything else is reported as unknown.
   */
  function ReadCommand(s: Session): (r: Session)
    ensures AtEnd(s) ==> r.shouldResume && r.input == s.input
    ensures !AtEnd(s) ==> r.input == s.input[1..]
  {
    var prompted := Print(s, "\n>>> Enter command: ");
    if AtEnd(s) then Continue(Print(prompted, ">>> End of input, continuing..."))
    else
      var line := Trim(s.input[0].value);
      var t := prompted.(input := s.input[1..]);
      if line == [] then t
      else
        SplitOfTrimmed(s.input[0].value);
        Dispatch(t, line)
  }

  /** The part of readCommand after a non-blank line was read and trimmed. */
  function Dispatch(t: Session, line: string): (r: Session)
    requires Split(line) != []
    ensures r.input == t.input
  {
    if Known(t.commands, t.factories, line) then
      var (u, result) := Execute(t, Lookup(t.commands, t.factories, line).value);
      if result.Some? then Print(u, result.value) else u
    else Print(t, ">>> Unknown command: " + line)
  }

  /** A non-blank line is consumed, trimmed and handed to the dispatch after the prompt. */
  lemma ReadCommandDispatches(s: Session)
    requires !AtEnd(s) && Trim(s.input[0].value) != []
    ensures Split(Trim(s.input[0].value)) != []
    ensures ReadCommand(s) ==
              Dispatch(Print(s, "\n>>> Enter command: ").(input := s.input[1..]), Trim(s.input[0].value))
  {
    SplitOfTrimmed(s.input[0].value);
  }

  /** End of input acts exactly like continue, after the prompt and the end-of-input notice. */
  lemma EndOfInputContinues(s: Session)
    requires AtEnd(s)
    ensures ReadCommand(s) == Continue(s.(out := s.out + ["\n>>> Enter command: ", ">>> End of input, continuing..."]))
  {
    assert s.out + ["\n>>> Enter command: "] + [">>> End of input, continuing..."] ==
           s.out + ["\n>>> Enter command: ", ">>> End of input, continuing..."];
  }

  /** A blank or all-whitespace line only consumes itself and prints the prompt. */
  lemma BlankLineIgnored(s: Session)
    requires !AtEnd(s) && Trim(s.input[0].value) == []
    ensures ReadCommand(s) == s.(input := s.input[1..], out := s.out + ["\n>>> Enter command: "])
  {
  }

  /** An unregistered first token is reported and changes nothing else: no command runs, the resume flag stays. */
  lemma UnknownCommandReported(s: Session)
    requires !AtEnd(s) && Trim(s.input[0].value) != []
    requires Split(Trim(s.input[0].value)) != [] && !Known(s.commands, s.factories, Trim(s.input[0].value))
    ensures ReadCommand(s) ==
              s.(input := s.input[1..], out := s.out + ["\n>>> Enter command: ", ">>> Unknown command: " + Trim(s.input[0].value)])
  {
    assert s.out + ["\n>>> Enter command: "] + [">>> Unknown command: " + Trim(s.input[0].value)] ==
           s.out + ["\n>>> Enter command: ", ">>> Unknown command: " + Trim(s.input[0].value)];
  }

  /**
   * while (!shouldResume) readCommand(): every round consumes a line or reaches
   * the end of input, which releases the debuggee, so the loop always ends.
   */
  function AwaitCommands(s: Session): (r: Session)
    ensures r.shouldResume
    ensures |r.input| <= |s.input|
    decreases |s.input|, if s.shouldResume then 0 else 1
  {
    if s.shouldResume then s else AwaitCommands(ReadCommand(s))
  }

  /** Halting: the resume flag is cleared and commands are read until one releases the debuggee. */
  function Halted(s: Session): Session {
    AwaitCommands(s.(shouldResume := false))
  }

  // ---------------------------------------------------------------- the single-step invariant

  lemma ExecuteKeepsSingleStep(s: Session, c: Command)
    requires SingleStep(s)
    ensures SingleStep(Execute(s, c).0)
  {
    match c
    case StepCmd => StepSingleFlight(s, Into);
    case StepOverCmd => StepSingleFlight(s, Over);
    case _ =>
  }

  lemma ReadCommandKeepsSingleStep(s: Session)
    requires SingleStep(s)
    ensures SingleStep(ReadCommand(s))
  {
    if !AtEnd(s) {
      var line := Trim(s.input[0].value);
      if line != [] {
        SplitOfTrimmed(s.input[0].value);
        if Known(s.commands, s.factories, line) {
          var t := Print(s, "\n>>> Enter command: ").(input := s.input[1..]);
          ExecuteKeepsSingleStep(t, Lookup(t.commands, t.factories, line).value);
        }
      }
    }
  }

  lemma {:induction false} AwaitKeepsSingleStep(s: Session)
    requires SingleStep(s)
    ensures SingleStep(AwaitCommands(s))
    decreases |s.input|, if s.shouldResume then 0 else 1
  {
    if !s.shouldResume {
      ReadCommandKeepsSingleStep(s);
      AwaitKeepsSingleStep(ReadCommand(s));
    }
  }

  // ---------------------------------------------------------------- events

  /** How the event loop stands after an event: still waiting for events, returned after disconnect, or aborted by an exception. */
  datatype Status = Running | Ended | Crashed

  datatype Outcome = Outcome(status: Status, s: Session)

  function Resume(s: Session): Session {
    s.(vm := s.vm.(resumes := s.vm.resumes + 1))
  }

  /** The hard-coded line-6 breakpoint of setBreakPoint: a request no entry tracks. */
  function SetInitialBreakpoint(s: Session): Session {
    s.(vm := s.vm.(requests := s.vm.requests + [s.vm.nextHandle], nextHandle := s.vm.nextHandle + 1))
  }

  /** Deleting a breakpoint request from the VM. */
  function DeleteRequest(vm: VmState, h: Option<Handle>): VmState {
    match h
    case None => vm
    case Some(x) => vm.(requests := Without(vm.requests, x))
  }

  function Without(hs: seq<Handle>, x: Handle): (r: seq<Handle>)
    ensures forall y <- r :: y in hs && y != x
    ensures forall y <- hs :: y != x ==> y in r
  {
    if hs == [] then []
    else (if hs[0] == x then [] else [hs[0]]) + Without(hs[1..], x)
  }

  /**
   * One event of startDebugger's loop. A breakpoint event goes through the hit
   * policy: a suppressed hit resumes at once, a halting one reads commands and
   * then resumes, and a method-entry entry met on the way throws. A step event
   * disables the first step request (an empty list throws) and halts. A
   * method-entry event halts. Disconnect prints "End of program" and ends the
   * loop without resuming. Everything else resumes.
   */
  function ProcessEvent(s0: Session, e: Event): (r: Outcome)
    ensures r.status.Ended? <==> e.VMDisconnect?
  {
    var s := s0.(current := Some(e));
    match e
    case ClassPrepare(_) => Outcome(Running, Resume(SetInitialBreakpoint(s)))
    case BreakpointHit(h, _) => OnBreakpoint(s, h)
    case StepDone(_, _) => OnStepEvent(s)
    case MethodEntry(_) => Outcome(Running, Resume(Halted(s)))
    case VMDeath => Outcome(Running, Resume(s))
    case VMDisconnect => Outcome(Ended, Print(s, "End of program"))
  }

  /** The breakpoint branch of startDebugger. */
  function OnBreakpoint(s: Session, h: Handle): (r: Outcome)
    ensures !r.status.Ended?
  {
    var hit := OnHit(s.entries, h);
    match hit.decision
    case NullRequest => Outcome(Crashed, s)
    case Suppress => Outcome(Running, Resume(s.(entries := hit.entries)))
    case Halt => Outcome(Running, Resume(Halted(s.(entries := hit.entries, vm := DeleteRequest(s.vm, hit.deleted)))))
  }

  /** The step branch of startDebugger: stepRequests().get(0).disable(), then halt. */
  function OnStepEvent(s: Session): (r: Outcome)
    ensures !r.status.Ended?
  {
    if s.vm.steps == [] then Outcome(Crashed, s)
    else
      var steps := s.vm.steps[0 := s.vm.steps[0].(enabled := false)];
      Outcome(Running, Resume(Halted(s.(vm := s.vm.(steps := steps)))))
  }

  /** startDebugger over a finite event sequence: events are handled in order until the loop returns or throws. */
  function Run(s: Session, events: seq<Event>): Outcome
    decreases |events|
  {
    if events == [] then Outcome(Running, s)
    else
      var o := ProcessEvent(s, events[0]);
      if o.status.Running? then Run(o.s, events[1..]) else o
  }

  /**
   * A breakpoint hit that the hit policy suppresses resumes the debuggee at once
   * without reading a single input line or printing anything; only the entry's
   * counter changes.
   */
  lemma SuppressedHitResumes(s: Session, h: Handle, th: ThreadState)
    requires OnHit(s.entries, h).decision == Suppress
    ensures var r := ProcessEvent(s, BreakpointHit(h, th));
      r.status == Running && r.s.input == s.input && r.s.out == s.out &&
      r.s.vm == s.vm.(resumes := s.vm.resumes + 1) && r.s.entries == OnHit(s.entries, h).entries
  {
  }

  /** A breakpoint whose request no entry tracks (the initial one) always halts and leaves the entries alone. */
  lemma UntrackedBreakpointHalts(s: Session, h: Handle, th: ThreadState)
    requires forall e <- s.entries :: e.request.Some? && e.request.value != h
    ensures var r := ProcessEvent(s, BreakpointHit(h, th));
      r.status == Running && r == Outcome(Running, Resume(Halted(s.(current := Some(BreakpointHit(h, th))))))
  {
    UntrackedHalts(s.entries, h);
  }

  /** A method-entry breakpoint in the list ahead of the hit entry makes the breakpoint event throw. */
  lemma MethodEntryAheadCrashes(s: Session, h: Handle, th: ThreadState, j: nat)
    requires j < |s.entries| && s.entries[j].request.None? && Skips(s.entries, h, j)
    ensures ProcessEvent(s, BreakpointHit(h, th)).status == Crashed
  {
    NullRequestAhead(s.entries, h, j);
  }

  /** Every event handler keeps at most one step request alive. */
  lemma ProcessEventKeepsSingleStep(s: Session, e: Event)
    requires SingleStep(s)
    ensures SingleStep(ProcessEvent(s, e).s)
  {
    var t := s.(current := Some(e));
    match e
    case BreakpointHit(h, _) =>
      var hit := OnHit(t.entries, h);
      if hit.decision.Halt? {
        AwaitKeepsSingleStep(t.(entries := hit.entries, vm := DeleteRequest(t.vm, hit.deleted), shouldResume := false));
      }
    case StepDone(_, _) =>
      if t.vm.steps != [] {
        var steps := t.vm.steps[0 := t.vm.steps[0].(enabled := false)];
        AwaitKeepsSingleStep(t.(vm := t.vm.(steps := steps), shouldResume := false));
      }
    case MethodEntry(_) =>
      AwaitKeepsSingleStep(t.(shouldResume := false));
    case _ =>
  }

  /** Starting from no step request, a whole run never has two step requests at once. */
  lemma {:induction false} RunKeepsSingleStep(s: Session, events: seq<Event>)
    requires SingleStep(s)
    ensures SingleStep(Run(s, events).s)
    decreases |events|
  {
    if events != [] {
      ProcessEventKeepsSingleStep(s, events[0]);
      var o := ProcessEvent(s, events[0]);
      if o.status.Running? {
        RunKeepsSingleStep(o.s, events[1..]);
      }
    }
  }
}
