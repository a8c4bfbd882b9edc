/**
 * The debugger behind the graphical front end. It holds the VM's breakpoint and
 * step requests, whether its event loop is still running, and whether it is
 * waiting for the operator. Each event set is handled in turn. Breakpoint and
 * step events halt the debuggee until a command arrives. Commands are "step",
 * "step-over" and "continue"; a stop request can also arrive while the debugger
 * waits.
 */
module GuiDebuggers {
  import opened Wrappers
  import opened JavaStrings
  import opened Vm

  /** A breakpoint request the VM holds: its handle and the location it was created at. */
  datatype BpReq = BpReq(id: Handle, at: Location)

  /** What the debugger reports to its listener, in order. */
  datatype Notice =
    | Out(text: string)            // onOutput
    | ShowStop(frames: seq<Frame>)  // onDebuggerStopped with frame 0 and the whole stack
    | ProgramEnd                   // onProgramEnded

  /** What the GUI thread hands to a waiting debugger: a command line, or a stop request. */
  datatype GuiInput = Command(line: string) | StopRequest

  /**
   * The whole state. `blocked` records that the debugger is waiting for a
   * command that never comes. `vmResumes` counts vm.resume() after a halt;
   * `setResumes` counts EventSet.resume() at the end of a set.
   */
  datatype Gui = Gui(
    running: bool, waiting: bool, blocked: bool, current: Option<ThreadState>,
    breakpoints: seq<BpReq>, requests: seq<BpReq>, steps: seq<StepReq>, nextHandle: Handle,
    classes: seq<LoadedClass>, pending: seq<GuiInput>, trace: seq<Notice>,
    vmResumes: nat, setResumes: nat, exited: bool)

  /** At most one step request exists. */
  predicate SingleStep(g: Gui) {
    |g.steps| <= 1
  }

  function Say(g: Gui, text: string): (r: Gui)
    ensures r.trace == g.trace + [Out(text)]
  {
    g.(trace := g.trace + [Out(text)])
  }

  // ---------------------------------------------------------------- commands

  /**
   * doStep: without a current thread nothing happens; otherwise every step
   * request is disabled and deleted, one new enabled request of the given depth
   * is created for the thread, and the debugger stops waiting.
   */
  function Stepped(g: Gui, depth: Depth): Gui {
    match g.current
    case None => g
    case Some(t) =>
      g.(steps := [StepReq(g.nextHandle, t.id, depth, true)], nextHandle := g.nextHandle + 1, waiting := false)
  }

  /** doContinue: only the wait ends. */
  function Continued(g: Gui): Gui {
    g.(waiting := false)
  }

  /** stop(): the loop and the wait end and the VM is told to exit. */
  function Stopped(g: Gui): Gui {
    g.(running := false, waiting := false, exited := true)
  }

  /** processCommand: the three GUI commands by exact text; anything else is reported. */
  function Processed(g: Gui, command: string): (r: Gui)
    ensures r.pending == g.pending && r.running == g.running && r.blocked == g.blocked
    ensures r.setResumes == g.setResumes
  {
    if command == "step" then Stepped(g, Into)
    else if command == "step-over" then Stepped(g, Over)
    else if command == "continue" then Continued(g)
    else Say(g, "Unknown command: " + command + "\n")
  }

  /** One input taken from the GUI while waiting. */
  function Input(g: Gui, input: GuiInput): (r: Gui)
    requires !g.blocked
    ensures r.pending == g.pending && !r.blocked && r.setResumes == g.setResumes
    ensures r.running ==> g.running
  {
    match input
    case Command(line) => Processed(g, line)
    case StopRequest => Stopped(g)
  }

  /**
   * The polling loop of waitForCommand: inputs are processed while the
   * debugger is running and waiting; when none is left, the debugger is blocked.
   */
  function Await(g: Gui): (r: Gui)
    requires !g.blocked
    ensures r.blocked <==> r.running && r.waiting
    ensures |r.pending| <= |g.pending| && r.setResumes == g.setResumes
    ensures r.running ==> g.running
    decreases |g.pending|
  {
    if !(g.waiting && g.running) then g
    else if g.pending == [] then g.(blocked := true)
    else Await(Input(g.(pending := g.pending[1..]), g.pending[0]))
  }

  /** waitForCommand: raise the waiting flag and poll. */
  function Waited(g: Gui): Gui
    requires !g.blocked
  {
    Await(g.(waiting := true))
  }

  // ---------------------------------------------------------------- events

  /** notifyStop: a current thread with frames is shown to the listener. */
  function Notify(g: Gui): (r: Gui)
    ensures g.current.Some? && g.current.value.frames != [] ==> r.trace == g.trace + [ShowStop(g.current.value.frames)]
    ensures r.trace != g.trace <==> g.current.Some? && g.current.value.frames != []
    ensures r.(trace := g.trace) == g
  {
    match g.current
    case Some(t) => if t.frames != [] then g.(trace := g.trace + [ShowStop(t.frames)]) else g
    case None => g
  }

  /**
   * handleClassPrepare: the initial breakpoint goes at the first location of
   * line 6, or else at the class's first line location, or nowhere; a class
   * without line information is reported as such.
   */
  function ClassPrepared(g: Gui, c: LoadedClass): (r: Gui)
    ensures r.running == g.running && r.blocked == g.blocked && r.steps == g.steps
    ensures r.setResumes == g.setResumes && r.pending == g.pending
  {
    var g1 := Say(g, "Class loaded: " + c.name + "\n");
    match c.lineTable
    case None => Say(g1, "ERROR: No debug info! Recompile with: javac -g\n")
    case Some(table) =>
      var sixth := OnLine(table, 6);
      if sixth != [] then
        Say(g1.(requests := g1.requests + [BpReq(g1.nextHandle, sixth[0])], nextHandle := g1.nextHandle + 1),
            "Breakpoint set at line 6\n")
      else
        var g2 := Say(g1, "Warning: Could not find line 6\n");
        if table != [] then
          Say(g2.(requests := g2.requests + [BpReq(g2.nextHandle, table[0])], nextHandle := g2.nextHandle + 1),
              "Breakpoint set at line " + IntToString(table[0].line) + " instead\n")
        else g2
  }

  /** After the operator's command the handler resumes the VM itself, unless it is still waiting. */
  function ResumeAfterWait(g: Gui): (r: Gui)
    requires !g.blocked
    ensures r.setResumes == g.setResumes && (r.running ==> g.running)
  {
    var h := Waited(Notify(g));
    if h.blocked then h else h.(vmResumes := h.vmResumes + 1)
  }

  /** handleBreakpoint. */
  function OnBreakpoint(g: Gui, t: ThreadState): (r: Gui)
    requires !g.blocked
    ensures r.setResumes == g.setResumes
  {
    ResumeAfterWait(Say(g, "Breakpoint hit!\n").(current := Some(t)))
  }

  /** Every step request with handle `h` removed, the others kept in order. */
  function Without(steps: seq<StepReq>, h: Handle): (r: seq<StepReq>)
    ensures forall s <- r :: s in steps && s.id != h
    ensures forall s <- steps :: s.id != h ==> s in r
    ensures |r| <= |steps|
  {
    if steps == [] then []
    else (if steps[0].id == h then [] else [steps[0]]) + Without(steps[1..], h)
  }

  /** handleStep: the completed step's request is disabled and deleted before halting. */
  function OnStep(g: Gui, request: Handle, t: ThreadState): (r: Gui)
    requires !g.blocked
    ensures r.setResumes == g.setResumes
  {
    ResumeAfterWait(g.(steps := Without(g.steps, request), current := Some(t)))
  }

  /** A breakpoint or step event: the set is then left suspended by the loop. */
  predicate Halts(e: Event) {
    e.BreakpointHit? || e.StepDone?
  }

  predicate Ends(e: Event) {
    e.VMDeath? || e.VMDisconnect?
  }

  /**
   * The body of the eventLoop iteration from the given event on; `resume` is
   * still true when no breakpoint or step event has been handled so far.
   */
  function HandleEvents(g: Gui, events: seq<Event>, resume: bool): (r: Gui)
    requires !g.blocked
    ensures r.running ==> g.running
    ensures r.setResumes <= g.setResumes + 1
    decreases |events|
  {
    if events == [] then
      if g.running && resume then g.(setResumes := g.setResumes + 1) else g
    else
      match events[0]
      case ClassPrepare(c) => HandleEvents(ClassPrepared(g, c), events[1..], resume)
      case BreakpointHit(_, t) =>
        var h := OnBreakpoint(g, t);
        if h.blocked then h else HandleEvents(h, events[1..], false)
      case StepDone(request, t) =>
        var h := OnStep(g, request, t);
        if h.blocked then h else HandleEvents(h, events[1..], false)
      case MethodEntry(_) => HandleEvents(g, events[1..], resume)
      case VMDeath => g.(running := false, trace := g.trace + [ProgramEnd])
      case VMDisconnect => g.(running := false, trace := g.trace + [ProgramEnd])
  }

  /** One event set, from a fresh `shouldResume = true`. */
  function EventSet(g: Gui, events: seq<Event>): Gui
    requires !g.blocked
  {
    HandleEvents(g, events, true)
  }

  /** eventLoop: event sets are handled while the loop runs and the debugger is not stuck waiting. */
  function Loop(g: Gui, sets: seq<seq<Event>>): Gui
    decreases |sets|
  {
    if !g.running || g.blocked || sets == [] then g
    else Loop(EventSet(g, sets[0]), sets[1..])
  }

  // ---------------------------------------------------------------- breakpoints

  /**
   * addBreakpoint: the first matching class with code on the line receives an
   * enabled request, which is also appended to the debugger's list.
   */
  /** The line addBreakpoint reports for each outcome of the search. */
  function AddReport(found: Resolution, className: string, line: int): string {
    var place := className + ":" + IntToString(line);
    match found
    case Located(_) => "Breakpoint added at " + place + "\n"
    case NotFound => "Could not set breakpoint at " + place + "\n"
    case NoDebugInfo => "No debug info for " + className + "\n"
  }

  function Added(g: Gui, className: string, line: int): Gui {
    var found := Resolve(g.classes, className, line);
    var placed := if found.Located? then
                    var bp := BpReq(g.nextHandle, found.at);
                    g.(requests := g.requests + [bp], breakpoints := g.breakpoints + [bp], nextHandle := g.nextHandle + 1)
                  else g;
    Say(placed, AddReport(found, className, line))
  }

  // ---------------------------------------------------------------- properties

  /** processCommand routes the three commands and reports anything else without touching the wait. */
  lemma ProcessedRoutes(g: Gui, command: string)
    ensures command == "step" ==> Processed(g, command) == Stepped(g, Into)
    ensures command == "step-over" ==> Processed(g, command) == Stepped(g, Over)
    ensures command == "continue" ==> Processed(g, command).steps == g.steps && !Processed(g, command).waiting
    ensures command !in {"step", "step-over", "continue"} ==>
              Processed(g, command) == g.(trace := g.trace + [Out("Unknown command: " + command + "\n")]) &&
              Processed(g, command).waiting == g.waiting
  {
  }

  /**
   * doStep with a thread leaves exactly one step request: enabled, of the asked
   * depth, on that thread, under a handle never used before; without a thread
   * nothing changes and the wait goes on.
   */
  lemma StepLeavesOneRequest(g: Gui, depth: Depth)
    requires forall s <- g.steps :: s.id < g.nextHandle
    ensures g.current.None? ==> Stepped(g, depth) == g
    ensures g.current.Some? ==>
              var r := Stepped(g, depth);
              |r.steps| == 1 && r.steps[0].enabled && r.steps[0].depth == depth &&
              r.steps[0].thread == g.current.value.id &&
              (forall s <- g.steps :: s.id != r.steps[0].id) && !r.waiting &&
              forall s <- r.steps :: s.id < r.nextHandle
  {
  }

  /** doContinue keeps the step requests as they are, enabled ones included. */
  lemma ContinueKeepsSteps(g: Gui)
    ensures Continued(g).steps == g.steps && !Continued(g).waiting
    ensures Continued(g).(waiting := g.waiting) == g
  {
  }

  /** The step event's own request is gone when the operator is asked for a command. */
  lemma StepEventDeletesRequest(g: Gui, request: Handle, t: ThreadState)
    ensures forall s <- g.(steps := Without(g.steps, request)).steps :: s.id != request
    ensures SingleStep(g) ==> (Without(g.steps, request) == [] <==> g.steps == [] || g.steps[0].id == request)
  {
  }

  lemma {:induction false} AwaitKeepsSingleStep(g: Gui)
    requires !g.blocked && SingleStep(g)
    ensures SingleStep(Await(g))
    decreases |g.pending|
  {
    if g.waiting && g.running && g.pending != [] {
      AwaitKeepsSingleStep(Input(g.(pending := g.pending[1..]), g.pending[0]));
    }
  }

  lemma {:induction false} HandleEventsKeepsSingleStep(g: Gui, events: seq<Event>, resume: bool)
    requires !g.blocked && SingleStep(g)
    ensures SingleStep(HandleEvents(g, events, resume))
    decreases |events|
  {
    if events != [] {
      match events[0]
      case ClassPrepare(c) =>
        HandleEventsKeepsSingleStep(ClassPrepared(g, c), events[1..], resume);
      case BreakpointHit(_, t) =>
        var g1 := Say(g, "Breakpoint hit!\n").(current := Some(t));
        AwaitKeepsSingleStep(Notify(g1).(waiting := true));
        var h := OnBreakpoint(g, t);
        if !h.blocked {
          HandleEventsKeepsSingleStep(h, events[1..], false);
        }
      case StepDone(request, t) =>
        var g1 := g.(steps := Without(g.steps, request), current := Some(t));
        AwaitKeepsSingleStep(Notify(g1).(waiting := true));
        var h := OnStep(g, request, t);
        if !h.blocked {
          HandleEventsKeepsSingleStep(h, events[1..], false);
        }
      case MethodEntry(_) =>
        HandleEventsKeepsSingleStep(g, events[1..], resume);
      case VMDeath =>
      case VMDisconnect =>
    }
  }

  /** Single-flight stepping: no sequence of event sets and commands ever leaves two step requests. */
  lemma {:induction false} LoopKeepsSingleStep(g: Gui, sets: seq<seq<Event>>)
    requires SingleStep(g)
    ensures SingleStep(Loop(g, sets))
    decreases |sets|
  {
    if g.running && !g.blocked && sets != [] {
      HandleEventsKeepsSingleStep(g, sets[0], true);
      LoopKeepsSingleStep(EventSet(g, sets[0]), sets[1..]);
    }
  }

  /**
   * The end of an event set: it is resumed exactly when the loop was running and
   * the set held no breakpoint, step, death or disconnect event.
   */
  lemma {:induction false} EventSetResumption(g: Gui, events: seq<Event>, resume: bool)
    requires !g.blocked
    ensures HandleEvents(g, events, resume).setResumes == g.setResumes +
              (if g.running && resume && forall e <- events :: !Halts(e) && !Ends(e) then 1 else 0)
    decreases |events|
  {
    if events != [] {
      var rest := events[1..];
      assert forall e <- events :: e == events[0] || e in rest;
      match events[0]
      case ClassPrepare(c) =>
        EventSetResumption(ClassPrepared(g, c), rest, resume);
      case BreakpointHit(_, t) =>
        var h := OnBreakpoint(g, t);
        assert Halts(events[0]);
        if !h.blocked {
          EventSetResumption(h, rest, false);
          assert HandleEvents(g, events, resume) == HandleEvents(h, rest, false);
        }
      case StepDone(request, t) =>
        var h := OnStep(g, request, t);
        assert Halts(events[0]);
        if !h.blocked {
          EventSetResumption(h, rest, false);
          assert HandleEvents(g, events, resume) == HandleEvents(h, rest, false);
        }
      case MethodEntry(_) =>
        EventSetResumption(g, rest, resume);
      case VMDeath =>
        assert Ends(events[0]);
      case VMDisconnect =>
        assert Ends(events[0]);
    }
  }

  /**
   * A death or disconnect event ends the loop and reports the end of the
   * program at once, unless an earlier halt in the set is still waiting for a
   * command.
   */
  lemma {:induction false} EndEventStopsLoop(g: Gui, events: seq<Event>, resume: bool)
    requires !g.blocked
    ensures (exists e <- events :: Ends(e)) ==> !HandleEvents(g, events, resume).running || HandleEvents(g, events, resume).blocked
    ensures events != [] && Ends(events[0]) ==>
              HandleEvents(g, events, resume) == g.(running := false, trace := g.trace + [ProgramEnd])
    decreases |events|
  {
    if events != [] {
      var rest := events[1..];
      assert forall e <- events :: e == events[0] || e in rest;
      match events[0]
      case ClassPrepare(c) =>
        EndEventStopsLoop(ClassPrepared(g, c), rest, resume);
      case BreakpointHit(_, t) =>
        var h := OnBreakpoint(g, t);
        if !h.blocked {
          EndEventStopsLoop(h, rest, false);
        }
      case StepDone(request, t) =>
        var h := OnStep(g, request, t);
        if !h.blocked {
          EndEventStopsLoop(h, rest, false);
        }
      case MethodEntry(_) =>
        EndEventStopsLoop(g, rest, resume);
      case VMDeath =>
      case VMDisconnect =>
    }
  }

  /**
   * addBreakpoint appends exactly one request, to the VM and to the list, when
   * the search finds a location, and changes neither otherwise; the operator
   * always gets one line of report.
   */
  lemma AddedOutcome(g: Gui, className: string, line: int)
    ensures var r := Added(g, className, line);
            var found := Resolve(g.classes, className, line);
            |r.trace| == |g.trace| + 1 &&
            (found.Located? ==>
               r.breakpoints == g.breakpoints + [BpReq(g.nextHandle, found.at)] &&
               r.requests == g.requests + [BpReq(g.nextHandle, found.at)] &&
               found.at.line == line) &&
            (!found.Located? ==> r.breakpoints == g.breakpoints && r.requests == g.requests) &&
            r.steps == g.steps && r.running == g.running && r.waiting == g.waiting
    ensures (forall c <- g.classes :: !Blocks(c, className)) ==>
              (|Added(g, className, line).breakpoints| == |g.breakpoints| + 1 <==>
               exists c <- g.classes :: Hits(c, className, line))
  {
    var found := Resolve(g.classes, className, line);
    ResolveFirstMatch(g.classes, className, line);
    if found.Located? {
      var k :| Passes(g.classes, className, line, k) && k < |g.classes| && Hits(g.classes[k], className, line) &&
               found.at == OnLine(g.classes[k].lineTable.value, line)[0];
      assert found.at in OnLine(g.classes[k].lineTable.value, line);
    }
    if forall c <- g.classes :: !Blocks(c, className) {
      ResolveWithDebugInfo(g.classes, className, line);
    }
  }

  /**
   * The initial breakpoint on class prepare: on line 6 when the class has code
   * there, otherwise on the class's first line location, otherwise none; a class
   * without line information gets none.
   */
  lemma InitialBreakpointPlacement(g: Gui, c: LoadedClass)
    ensures var r := ClassPrepared(g, c);
            r.breakpoints == g.breakpoints &&
            (c.lineTable.None? ==> r.requests == g.requests) &&
            (c.lineTable.Some? && c.lineTable.value != [] ==>
               |r.requests| == |g.requests| + 1 && r.requests[..|g.requests|] == g.requests &&
               r.requests[|g.requests|].id == g.nextHandle &&
               ((exists l <- c.lineTable.value :: l.line == 6) ==> r.requests[|g.requests|].at.line == 6) &&
               ((forall l <- c.lineTable.value :: l.line != 6) ==>
                  r.requests[|g.requests|].at == c.lineTable.value[0])) &&
            (c.lineTable == Some([]) ==> r.requests == g.requests)
  {
    match c.lineTable
    case None =>
    case Some(table) =>
      var sixth := OnLine(table, 6);
      if sixth != [] {
        assert sixth[0] in sixth;
      }
  }

  // ---------------------------------------------------------------- the debugger object

  /**
   * GUIScriptableDebugger once attachTo has launched the VM: the loaded classes
   * and the inputs the GUI will hand over are given.
   */
  class GuiScriptableDebugger {
    var running: bool
    var waiting: bool
    var blocked: bool
    var current: Option<ThreadState>
    var breakpoints: seq<BpReq>
    var requests: seq<BpReq>
    var steps: seq<StepReq>
    var nextHandle: Handle
    var classes: seq<LoadedClass>
    var pending: seq<GuiInput>
    var trace: seq<Notice>
    var vmResumes: nat
    var setResumes: nat
    var exited: bool

    function View(): Gui
      reads this
    {
      Gui(running, waiting, blocked, current, breakpoints, requests, steps, nextHandle,
          classes, pending, trace, vmResumes, setResumes, exited)
    }

    constructor (classes: seq<LoadedClass>, pending: seq<GuiInput>)
      ensures View() == Gui(true, false, false, None, [], [], [], 0, classes, pending, [], 0, 0, false)
    {
      running := true;
      waiting := false;
      blocked := false;
      current := None;
      breakpoints := [];
      requests := [];
      steps := [];
      nextHandle := 0;
      this.classes := classes;
      this.pending := pending;
      trace := [];
      vmResumes := 0;
      setResumes := 0;
      exited := false;
    }

    method Report(text: string)
      modifies this
      ensures View() == Say(old(View()), text)
    {
      trace := trace + [Out(text)];
    }

    /** doStep: the old step requests are deleted one by one before the new one is created. */
    method DoStep(depth: Depth)
      modifies this
      ensures View() == Stepped(old(View()), depth)
    {
      if current.None? {
        return;
      }
      while steps != []
        invariant View() == old(View()).(steps := steps)
        decreases |steps|
      {
        steps := steps[1..];
      }
      steps := [StepReq(nextHandle, current.value.id, depth, true)];
      nextHandle := nextHandle + 1;
      waiting := false;
    }

    method DoContinue()
      modifies this
      ensures View() == Continued(old(View()))
    {
      waiting := false;
    }

    method Stop()
      modifies this
      ensures View() == Stopped(old(View()))
    {
      running := false;
      waiting := false;
      exited := true;
    }

    method ProcessCommand(command: string)
      modifies this
      ensures View() == Processed(old(View()), command)
    {
      if command == "step" {
        DoStep(Into);
      } else if command == "step-over" {
        DoStep(Over);
      } else if command == "continue" {
        DoContinue();
      } else {
        Report("Unknown command: " + command + "\n");
      }
    }

    /** waitForCommand: the inputs are taken one at a time while the debugger runs and waits. */
    method WaitForCommand()
      requires !blocked
      modifies this
      ensures View() == Waited(old(View()))
    {
      waiting := true;
      while waiting && running && pending != []
        invariant !blocked
        invariant Await(View()) == Await(old(View()).(waiting := true))
        decreases |pending|
      {
        var input := pending[0];
        pending := pending[1..];
        match input
        case Command(line) => ProcessCommand(line);
        case StopRequest => Stop();
      }
      if waiting && running {
        blocked := true;
      }
    }

    method NotifyStop()
      modifies this
      ensures View() == Notify(old(View()))
    {
      if current.Some? && current.value.frames != [] {
        trace := trace + [ShowStop(current.value.frames)];
      }
    }

    method HandleClassPrepare(c: LoadedClass)
      modifies this
      ensures View() == ClassPrepared(old(View()), c)
    {
      Report("Class loaded: " + c.name + "\n");
      match c.lineTable
      case None =>
        Report("ERROR: No debug info! Recompile with: javac -g\n");
      case Some(table) =>
        var locations := OnLine(table, 6);
        if locations != [] {
          requests := requests + [BpReq(nextHandle, locations[0])];
          nextHandle := nextHandle + 1;
          Report("Breakpoint set at line 6\n");
        } else {
          Report("Warning: Could not find line 6\n");
          if table != [] {
            requests := requests + [BpReq(nextHandle, table[0])];
            nextHandle := nextHandle + 1;
            Report("Breakpoint set at line " + IntToString(table[0].line) + " instead\n");
          }
        }
    }

    /** The tail both halting handlers share: notify, wait, then resume the VM. */
    method HaltAndResume()
      requires !blocked
      modifies this
      ensures View() == ResumeAfterWait(old(View()))
    {
      NotifyStop();
      WaitForCommand();
      if !blocked {
        vmResumes := vmResumes + 1;
      }
    }

    method HandleBreakpoint(t: ThreadState)
      requires !blocked
      modifies this
      ensures View() == OnBreakpoint(old(View()), t)
    {
      Report("Breakpoint hit!\n");
      current := Some(t);
      HaltAndResume();
    }

    method HandleStep(request: Handle, t: ThreadState)
      requires !blocked
      modifies this
      ensures View() == OnStep(old(View()), request, t)
    {
      steps := Without(steps, request);
      current := Some(t);
      HaltAndResume();
    }

    /** One iteration of eventLoop: the events of the set in order, then the set's own resume. */
    method HandleEventSet(events: seq<Event>)
      requires !blocked
      modifies this
      ensures View() == EventSet(old(View()), events)
    {
      var shouldResume := true;
      var i := 0;
      while i < |events|
        invariant 0 <= i <= |events| && !blocked
        invariant HandleEvents(View(), events[i..], shouldResume) == EventSet(old(View()), events)
      {
        assert events[i..][1..] == events[i + 1..];
        match events[i] {
          case ClassPrepare(c) =>
            HandleClassPrepare(c);
          case BreakpointHit(_, t) =>
            HandleBreakpoint(t);
            shouldResume := false;
            if blocked {
              return;
            }
          case StepDone(request, t) =>
            HandleStep(request, t);
            shouldResume := false;
            if blocked {
              return;
            }
          case MethodEntry(_) =>
          case VMDeath =>
            running := false;
            trace := trace + [ProgramEnd];
            return;
          case VMDisconnect =>
            running := false;
            trace := trace + [ProgramEnd];
            return;
        }
        i := i + 1;
      }
      if running && shouldResume {
        setResumes := setResumes + 1;
      }
    }

    /** eventLoop over the event sets the VM delivers, in order. */
    method EventLoop(sets: seq<seq<Event>>)
      modifies this
      ensures View() == Loop(old(View()), sets)
    {
      var i := 0;
      while running && !blocked && i < |sets|
        invariant 0 <= i <= |sets|
        invariant Loop(View(), sets[i..]) == Loop(old(View()), sets)
      {
        assert sets[i..][1..] == sets[i + 1..];
        HandleEventSet(sets[i]);
        i := i + 1;
      }
    }

    /** addBreakpoint: the class-by-class search, then one enabled request kept in the list. */
    method AddBreakpoint(className: string, line: int)
      modifies this
      ensures View() == Added(old(View()), className, line)
    {
      var found := FindBreakpointLocation(classes, className, line);
      if found.Located? {
        var bp := BpReq(nextHandle, found.at);
        requests := requests + [bp];
        breakpoints := breakpoints + [bp];
        nextHandle := nextHandle + 1;
      }
      Report(AddReport(found, className, line));
    }
  }
}
