# A verified model of a scriptable JDI debugger

The system is a small Java debugger built on the Java Debug Interface (JDI).
It launches a debuggee VM and sets breakpoints on it. When the debuggee halts,
it reads operator commands that inspect the halted thread or resume it. There
are two front ends:

- `ScriptableDebugger`, driven by text commands read line by line;
- `GUIScriptableDebugger`, driven by a Swing window. The window has a source
  view, a call-stack list and a variable inspector tree.

This project models the decision logic beneath the JDI and Swing plumbing, and
proves what that logic promises. JDI objects become values:

- loaded classes with their line tables;
- request handles;
- step requests;
- stack frames;
- an object heap that may be cyclic;
- the events the VM queues.

Operator input is a sequence of lines, and `None` stands for end of input.

## Modules

| file | module | what it holds |
|---|---|---|
| `wrappers.dfy` | `Wrappers` | `Option` |
| `java_strings.dfy` | `JavaStrings` | `trim`, `split("\\s+")`, `split("\n", -1)`, `indexOf`, `lastIndexOf`, `replace`, `Integer.toString`, `%3d` |
| `text_blocks.dfy` | `TextBlocks` | the "header, then one line per item, then `trim()`" texts the commands build |
| `java_int.dfy` | `JavaInt` | `Integer.parseInt` as a partial parser: an optional sign, decimal digits, the 32-bit range |
| `vm.dfy` | `Vm` | the debuggee's values, and the search that finds a breakpoint location |
| `breakpoint_info.dfy` | `BreakpointInfos` | `BreakpointInfo` as an `Entry` value, and as a class updated in place |
| `hit_policy.dfy` | `HitPolicy` | `handleSpecialBreakpoint` on the list of entries |
| `commands.dfy` | `Commands` | the command datatype, the factory lambdas and the replies of the break commands |
| `command_registry.dfy` | `CommandRegistries` | `CommandRegistry` (a class over two maps) and `getCommand` as a function |
| `inspection.dfy` | `Inspection` | the inspection commands (`frame`, `method`, `stack`, `temporaries`, `arguments`, `receiver`, `sender`, `receiver-variables`, `print-var`, `breakpoints`) |
| `scripted_session.dfy` | `ScriptedSession` | the whole text-driven debugger as functions over one `Session` value |
| `scriptable_debugger.dfy` | `ScriptableDebuggers` | the `ScriptableDebugger` class, each method proved equal to its `ScriptedSession` function |
| `gui_debugger.dfy` | `GuiDebuggers` | `GUIScriptableDebugger` as functions over a `Gui` value, and as a class proved equal to them |
| `inspector.dfy` | `Inspector` | the depth-bounded inspector tree of `InspectorPanel` |
| `debugger_gui.dfy` | `SourcePaths` | `extractClassName` and `findSourceFile` of `DebuggerGUI` |
| `source_panel.dfy` | `SourcePanels` | `SourceCodePanel`: gutter, toggling, click rows, line highlighting |
| `call_stack_panel.dfy` | `CallStackPanels` | `CallStackPanel`: list rows, selection, `clear` |

The stateful parts of the source are Dafny classes, with `modifies` clauses.
These are `ScriptableDebugger`, `BreakpointInfo`, `CommandRegistry`,
`GUIScriptableDebugger` and the three panels.

Each class method is proved to produce a new state equal to a function of the
old state. The class's `Snapshot()` or `View()` gives that state. The
properties are then proved as lemmas about those functions.

The breakpoint list of `ScriptableDebugger` holds distinct `BreakpointInfo`
objects. Its invariant ties the list to the entry values that the functions use.

## Model

| member | source | states |
|---|---|---|
| BreakpointInfos.BreakpointInfo.constructor | src/dbg/BreakpointInfo.java:15-22 | a new breakpoint keeps its file, line and request; it is not once, its target is 0 and its counter is 0 |
| BreakpointInfos.BreakpointInfo.IncrementCount | src/dbg/BreakpointInfo.java:56-58 | the counter goes up by exactly one and no other field changes |
| BreakpointInfos.BreakpointInfo.SetOnce | src/dbg/BreakpointInfo.java:40-42 | only the once flag changes |
| BreakpointInfos.BreakpointInfo.SetTargetCount | src/dbg/BreakpointInfo.java:48-50 | only the target changes |
| BreakpointInfos.Hit | src/dbg/BreakpointInfo.java:56-58 | the entry after a hit differs from the old one only in a counter one higher |
| BreakpointInfos.AlwaysActiveWithoutTarget | src/dbg/BreakpointInfo.java:61-66 | with a target of 0 or less, shouldActivate holds before and after any hit |
| BreakpointInfos.CountSchedule | src/dbg/BreakpointInfo.java:62-64 | from a fresh counter with target n > 0, the entry activates after k hits exactly when k >= n, so it stays active on every later hit; the other fields never change |
| BreakpointInfos.DescribeShape | src/dbg/BreakpointInfo.java:69-78 | toString starts with `file:line`; a once-entry continues with ` (once)`; a positive target ends it with ` (count: c/t)`; its length is the sum of those parts alone; it is one line and ends in a non-blank character |
| HitPolicy.ScanFrom | src/dbg/ScriptableDebugger.java:137-140 | the iterator walk stops at the first entry carrying the event's request, or at the first entry with a null request (whose comparison throws), or passes every entry |
| HitPolicy.UntrackedHalts | src/dbg/ScriptableDebugger.java:136-160 | an event whose request no entry carries halts, deletes nothing and leaves the list unchanged |
| HitPolicy.MatchedEntry | src/dbg/ScriptableDebugger.java:137-155 | only the first entry carrying the request is touched, and its counter goes up by one; an inactive one suppresses and stays in the list; an active once-entry is removed, its request deleted, and the rest keep their values and order; other active entries halt and stay |
| HitPolicy.NullRequestAhead | src/dbg/ScriptableDebugger.java:140 | a method-entry entry (null request) ahead of every entry carrying the request makes the hit fail, with the list unchanged |
| HitPolicy.CountBreakpointSchedule | src/dbg/ScriptableDebugger.java:141-146 | a count breakpoint's hit k+1 suppresses while k+1 < n and halts from hit n on, every time; the entry is never removed and its counter records every hit |
| HitPolicy.OnceBreakpointHaltsOnce | src/dbg/ScriptableDebugger.java:149-155 | a once-entry without a target halts on its first hit; it is then removed from the list, with the others in order, and its request is deleted |
| Vm.ResolveFirstMatch | src/dbg/ScriptableDebugger.java:361-384 | the location search stops at the first class named `f`, or ending in `.f`, that has code on the line or lacks debug information; NotFound only when every class is passed over |
| Vm.ResolveWithDebugInfo | src/dbg/ScriptableDebugger.java:364-377 | when no matching class lacks debug information, a location is found exactly when some matching class has code on the line |
| Vm.FindBreakpointLocation | src/dbg/ScriptableDebugger.java:364-383 | the class-by-class loop with its early returns yields the search's result |
| Vm.OnLine | src/dbg/ScriptableDebugger.java:367 | locationsOfLine keeps every location of the table that lies on the line, and no other |
| JavaInt.ParseInt | src/dbg/ScriptableDebugger.java:283 | Integer.parseInt succeeds exactly for an optional sign followed by one or more digits whose value fits in 32 bits, and then yields that value |
| JavaInt.ParseIntToString | src/dbg/ScriptableDebugger.java:283 | every 32-bit value, written in decimal, parses back to itself |
| JavaInt.ParseIntRejects | src/dbg/ScriptableDebugger.java:283 | an empty token, a lone sign, or a body holding a non-digit is rejected |
| Commands.Create | src/dbg/ScriptableDebugger.java:270-323 | too few tokens give the factory's usage reply; otherwise a reply comes exactly when a line or count does not parse, and reads "Invalid number" for break-on-count and "Invalid line number" for break and break-once; any other result is the factory's own command, carrying the first token as variable, file or method name and the parsed line (second token) and count (third token) |
| Commands.CreateFromWrittenNumbers | src/dbg/ScriptableDebugger.java:278-315 | break, break-once and break-on-count given a file and the decimal text of 32-bit numbers build exactly the command for those values, whatever tokens follow |
| Commands.CreateRejectsBadLine | src/dbg/ScriptableDebugger.java:280-286 | a line token that does not parse gives "Invalid line number" and no breakpoint command |
| Commands.BreakReplyShape | src/dbg/BreakCommand.java:17-24 | a break reply starts with "Failed" exactly when the add failed; a failure, and a plain or one-time success, ends with `file:line` |
| CommandRegistries.CommandRegistry.constructor | src/dbg/CommandRegistry.java:12-15 | both tables start empty |
| CommandRegistries.CommandRegistry.Register | src/dbg/CommandRegistry.java:18-20 | binds the name to the command, replacing only that name's binding; the factories are untouched |
| CommandRegistries.CommandRegistry.RegisterFactory | src/dbg/CommandRegistry.java:23-25 | binds the name to the factory, replacing only that name's binding; the commands are untouched |
| CommandRegistries.Lookup | src/dbg/CommandRegistry.java:39-56 | getCommand is null exactly when hasCommand is false; a simple command wins over a factory of the same name; a factory gets the remaining tokens |
| CommandRegistries.LookupTyped | src/dbg/CommandRegistry.java:44-55 | for a name and argument words separated by spaces, a simple command ignores the words, a factory receives exactly them in order, and an unknown name gives null |
| CommandRegistries.InitializeCommands | src/dbg/ScriptableDebugger.java:247-324 | the registry holds exactly the standard commands and factories |
| CommandRegistries.StandardTablesDisjoint | src/dbg/ScriptableDebugger.java:247-324 | no standard command shares its name with a factory, so every factory is reachable |
| Inspection.CurrentFrame | src/dbg/ScriptableDebugger.java:337-345 | frame 0 is returned exactly for a locatable event whose thread is suspended and has frames; a running thread throws |
| Inspection.StackFrames | src/dbg/ScriptableDebugger.java:347-353 | the thread's frames are returned exactly for a locatable event whose thread is suspended; a running thread throws |
| Inspection.FrameTextOutcomes | src/dbg/FrameCommand.java:16-32 | "No frame available" exactly without a frame; the not-suspended error for a running thread; otherwise a line starting "Frame: " |
| Inspection.MethodTextLines | src/dbg/MethodCommand.java:20-28 | a halted frame gives four lines: method, signature, declaring class and current line |
| Inspection.MethodTextOutcomes | src/dbg/MethodCommand.java:16-35 | "No method available" exactly without a frame, the not-suspended error exactly for a running thread |
| Inspection.StackCommand | src/dbg/StackCommand.java:18-44 | the loop over the frames builds the stack listing |
| Inspection.StackTextLines | src/dbg/StackCommand.java:27-39 | a halted, non-empty stack prints "Call Stack:" and then one line per frame in stack order, the i-th starting `  [i] ` |
| Inspection.StackTextOutcomes | src/dbg/StackCommand.java:22-43 | "No stack frames available" exactly for a missing or empty stack, the error exactly for a running thread |
| Inspection.AppendVarRows | src/dbg/TemporariesCommand.java:36-46 | the variable loop gives the header and then one row per variable, in order |
| Inspection.TemporariesCommand | src/dbg/TemporariesCommand.java:21-53 | the loop over visible locals builds the temporaries listing |
| Inspection.ArgumentsCommand | src/dbg/ArgumentsCommand.java:17-50 | the loop over declared arguments builds the arguments listing |
| Inspection.TemporariesTextOutcomes | src/dbg/TemporariesCommand.java:21-53 | each message (no frame, not suspended, no locals, no debug information) is printed exactly in its own case |
| Inspection.ArgumentsTextOutcomes | src/dbg/ArgumentsCommand.java:17-50 | each message (no frame, not suspended, no arguments, no debug information) is printed exactly in its own case |
| Inspection.VarBlockLines | src/dbg/TemporariesCommand.java:36-46 | the variables print one line each, in order, under the header |
| Inspection.DebugInfoMessagesDiffer | src/dbg/TemporariesCommand.java:48-51 | the missing-debug-information text of temporaries differs from its not-suspended text and from that of arguments |
| Inspection.ReceiverTextLines | src/dbg/ReceiverCommand.java:32-37 | a receiver is shown on three lines by its type and unique id |
| Inspection.ReceiverTextOutcomes | src/dbg/ReceiverCommand.java:17-42 | no frame, a running thread and a static method each have their own message, printed exactly in that case |
| Inspection.SenderTextLines | src/dbg/SenderCommand.java:28-41 | the sender is frame 1, shown by its receiver's type and id and its method name |
| Inspection.SenderTextOutcomes | src/dbg/SenderCommand.java:19-46 | fewer than two frames give "No sender ..." with no indexing; a static caller and a running thread have their own messages |
| Inspection.ReceiverVariablesTextOutcomes | src/dbg/ReceiverVariablesCommand.java:17-62 | each message (no frame, not suspended, static method, no instance variables) is printed exactly in its own case; emptiness counts static fields too |
| Inspection.ReceiverVariablesCommand | src/dbg/ReceiverVariablesCommand.java:17-62 | the loop over the field map builds the receiver-variables listing |
| Inspection.InstanceListing | src/dbg/ReceiverVariablesCommand.java:40-57 | the loop skips static fields and gives one row per remaining field under the header |
| Inspection.InstanceRowsAreNonStatic | src/dbg/ReceiverVariablesCommand.java:42-55 | the rows are exactly the non-static fields, in order, each `  name -> value` |
| Inspection.OnlyStaticFields | src/dbg/ReceiverVariablesCommand.java:35-57 | a receiver whose fields are all static prints the header alone |
| Inspection.FirstNamed | src/dbg/PrintVarCommand.java:26 | the local lookup finds the first visible variable with the name, or reports that none has it |
| Inspection.FieldByName | src/dbg/PrintVarCommand.java:39 | fieldByName finds a field exactly when one and only one visible field has the name, and then it is that field; no field or two fields of the name give null |
| Inspection.PrintVarTextOutcomes | src/dbg/PrintVarCommand.java:17-52 | "No frame available" and the not-suspended error are printed exactly in their own cases |
| Inspection.PrintVarLookupOrder | src/dbg/PrintVarCommand.java:26-47 | a visible local wins over a field; missing debug information or a missing local falls through to the receiver's only visible field of that name; no local and no such field (no receiver, no field, or an ambiguous name) gives "Variable not found: name" |
| Inspection.PrintVarAmbiguousField | src/dbg/PrintVarCommand.java:37-47 | without a local of the name, two visible fields of the same name make print-var answer "Variable not found: name" |
| Inspection.NoBreakpointsMessage | src/dbg/BreakpointsCommand.java:18-20 | "No breakpoints" is printed exactly for an empty list |
| Inspection.BreakpointsCommand | src/dbg/BreakpointsCommand.java:15-30 | the indexed loop builds the listing, and the list is only read |
| Inspection.BreakpointsTextLines | src/dbg/BreakpointsCommand.java:22-29 | a non-empty list prints "Breakpoints:" and then one line `  [i] <entry>` per entry, in list order |
| ScriptedSession.EnableStep | src/dbg/ScriptableDebugger.java:180-188 | one enabled STEP_LINE request of the depth, on the current thread, is appended under a fresh handle |
| ScriptedSession.StepSingleFlight | src/dbg/ScriptableDebugger.java:190-211 | with a thread, step leaves exactly one enabled step request, of the asked depth, on that thread; without one the VM is untouched; either way the debuggee is released |
| ScriptedSession.ContinueDisables | src/dbg/ScriptableDebugger.java:326-335 | continue keeps every step request, with its id, thread and depth, disables it and releases the debuggee |
| ScriptedSession.DisableAll | src/dbg/ScriptableDebugger.java:327-332 | every step request is disabled and none is deleted |
| ScriptedSession.AddLineBreakpointOutcome | src/dbg/ScriptableDebugger.java:361-438 | add* succeeds exactly when the search finds a location; success appends one fresh entry at the end; failure leaves the list and the VM unchanged |
| ScriptedSession.ExecuteResult | src/dbg/ScriptableDebugger.java:231-237 | only step, step-over and continue return null; only they and the break commands change the state; break-before-method-call always succeeds |
| ScriptedSession.BreakCommandReports | src/dbg/BreakOnCountCommand.java:19-26 | a break reply starts with "Failed" exactly when no request was created |
| ScriptedSession.ReadCommand | src/dbg/ScriptableDebugger.java:213-245 | end of input releases the debuggee and consumes nothing; any other input consumes exactly one line |
| ScriptedSession.ReadCommandDispatches | src/dbg/ScriptableDebugger.java:226-240 | a non-blank line is consumed, trimmed and dispatched after the prompt |
| ScriptedSession.EndOfInputContinues | src/dbg/ScriptableDebugger.java:220-223 | end of input acts exactly as continue, after the prompt and the end-of-input notice |
| ScriptedSession.BlankLineIgnored | src/dbg/ScriptableDebugger.java:226-229 | a blank or all-whitespace line only consumes itself and prints the prompt |
| ScriptedSession.UnknownCommandReported | src/dbg/ScriptableDebugger.java:238-240 | an unregistered first token prints "Unknown command"; no command runs and the resume flag stays |
| ScriptedSession.AwaitCommands | src/dbg/ScriptableDebugger.java:91-94 | the read loop always ends, with the debuggee released, and consumes no more lines than given |
| ScriptedSession.ExecuteKeepsSingleStep | src/dbg/ScriptableDebugger.java:190-211 | no command leaves two step requests |
| ScriptedSession.ReadCommandKeepsSingleStep | src/dbg/ScriptableDebugger.java:213-245 | reading one command keeps at most one step request |
| ScriptedSession.AwaitKeepsSingleStep | src/dbg/ScriptableDebugger.java:92-94 | the read loop keeps at most one step request |
| ScriptedSession.ProcessEvent | src/dbg/ScriptableDebugger.java:74-130 | the loop returns exactly on a disconnect event |
| ScriptedSession.SuppressedHitResumes | src/dbg/ScriptableDebugger.java:86-89 | a suppressed hit resumes at once, reads no input, prints nothing, and changes only the entry's counter |
| ScriptedSession.UntrackedBreakpointHalts | src/dbg/ScriptableDebugger.java:82-95 | a hit on a request no entry tracks, such as the initial line-6 breakpoint, halts and leaves the entries alone |
| ScriptedSession.MethodEntryAheadCrashes | src/dbg/ScriptableDebugger.java:140 | a method-entry breakpoint ahead of the hit entry makes the breakpoint event throw |
| ScriptedSession.ProcessEventKeepsSingleStep | src/dbg/ScriptableDebugger.java:74-130 | every event handler keeps at most one step request |
| ScriptedSession.RunKeepsSingleStep | src/dbg/ScriptableDebugger.java:71-133 | from at most one step request, no run of events ever has two |
| ScriptableDebuggers.ScriptableDebugger.constructor | src/dbg/ScriptableDebugger.java:46-69 | an empty breakpoint list, no requests and the standard command tables |
| ScriptableDebuggers.ScriptableDebugger.EnableStepRequest | src/dbg/ScriptableDebugger.java:180-188 | one enabled step request on the event's thread is appended, and nothing else changes |
| ScriptableDebuggers.ScriptableDebugger.StepWithType | src/dbg/ScriptableDebugger.java:200-211 | the new state is the step function of the old one |
| ScriptableDebuggers.ScriptableDebugger.Step | src/dbg/ScriptableDebugger.java:190-193 | the new state is a STEP_INTO step of the old one |
| ScriptableDebuggers.ScriptableDebugger.StepOver | src/dbg/ScriptableDebugger.java:195-198 | the new state is a STEP_OVER step of the old one |
| ScriptableDebuggers.ScriptableDebugger.ContinueExecution | src/dbg/ScriptableDebugger.java:326-335 | the disabling loop yields the continue function of the old state |
| ScriptableDebuggers.ScriptableDebugger.Append | src/dbg/ScriptableDebugger.java:375 | a new object is added at the end of the list and its value at the end of the entries |
| ScriptableDebuggers.ScriptableDebugger.AddLine | src/dbg/ScriptableDebugger.java:361-384 | the new state and the result are those of the add function |
| ScriptableDebuggers.ScriptableDebugger.Place | src/dbg/ScriptableDebugger.java:369-376 | one request is created and one entry carrying it is appended, with the once flag and target set |
| ScriptableDebuggers.ScriptableDebugger.AddBreakpoint | src/dbg/ScriptableDebugger.java:361-384 | the add function with once false and target 0 |
| ScriptableDebuggers.ScriptableDebugger.AddBreakpointOnce | src/dbg/ScriptableDebugger.java:387-411 | the add function with once true |
| ScriptableDebuggers.ScriptableDebugger.AddBreakpointOnCount | src/dbg/ScriptableDebugger.java:414-438 | the add function with the count as target |
| ScriptableDebuggers.ScriptableDebugger.AddMethodBreakpoint | src/dbg/ScriptableDebugger.java:441-452 | a method-entry request, an entry with a null request and line -1, and success |
| ScriptableDebuggers.ScriptableDebugger.BreakpointValues | src/dbg/ScriptableDebugger.java:356-358 | getBreakpoints read out as the list's current values |
| ScriptableDebuggers.ScriptableDebugger.HandleSpecialBreakpoint | src/dbg/ScriptableDebugger.java:136-160 | the walk over the objects updates and removes them in place as the hit policy says, and returns its decision |
| ScriptableDebuggers.ScriptableDebugger.HitAt | src/dbg/ScriptableDebugger.java:141-155 | at the matching object: count the hit, then suppress, or halt after removing a once-object |
| ScriptableDebuggers.ScriptableDebugger.RemoveAt | src/dbg/ScriptableDebugger.java:152 | the iterator's remove drops exactly the object at the position, keeping the others in order |
| ScriptableDebuggers.ScriptableDebugger.Execute | src/dbg/ScriptableDebugger.java:233 | running a command gives the state and result of the execute function |
| ScriptableDebuggers.ScriptableDebugger.ReadCommand | src/dbg/ScriptableDebugger.java:213-245 | the new state is the readCommand function of the old one |
| ScriptableDebuggers.ScriptableDebugger.EndOfInput | src/dbg/ScriptableDebugger.java:220-223 | the end-of-input branch completes readCommand |
| ScriptableDebuggers.ScriptableDebugger.ReadLine | src/dbg/ScriptableDebugger.java:217-240 | the branch for a line that was read completes readCommand |
| ScriptableDebuggers.ScriptableDebugger.Dispatch | src/dbg/ScriptableDebugger.java:231-240 | a known command runs and a non-null result is printed; an unknown one is reported |
| ScriptableDebuggers.ScriptableDebugger.AwaitCommands | src/dbg/ScriptableDebugger.java:91-94 | the read loop yields the halted state of the function model |
| ScriptableDebuggers.ScriptableDebugger.Resume | src/dbg/ScriptableDebugger.java:130 | vm.resume is counted and nothing else changes |
| ScriptableDebuggers.ScriptableDebugger.ProcessEvent | src/dbg/ScriptableDebugger.java:74-130 | one event gives the status and state of the event function |
| ScriptableDebuggers.ScriptableDebugger.OnHaltingEvent | src/dbg/ScriptableDebugger.java:82-112 | breakpoint, step and method-entry events give the event function's outcome |
| ScriptableDebuggers.ScriptableDebugger.OnBreakpointEvent | src/dbg/ScriptableDebugger.java:82-95 | the breakpoint branch gives the function model's outcome |
| ScriptableDebuggers.ScriptableDebugger.OnStepEvent | src/dbg/ScriptableDebugger.java:97-105 | the step branch gives the function model's outcome |
| ScriptableDebuggers.ScriptableDebugger.OnClassPrepare | src/dbg/ScriptableDebugger.java:78-80 | the initial breakpoint is set, then the VM is resumed |
| ScriptableDebuggers.ScriptableDebugger.HaltAndResume | src/dbg/ScriptableDebugger.java:107-112 | commands are read until one releases the debuggee, then the VM is resumed |
| ScriptableDebuggers.ScriptableDebugger.StartDebugger | src/dbg/ScriptableDebugger.java:71-133 | the event loop over the delivered events gives the run function's outcome |
| GuiDebuggers.Without | src/gui/GUIScriptableDebugger.java:163-165 | exactly the requests with the handle are removed |
| GuiDebuggers.Notify | src/gui/GUIScriptableDebugger.java:175-186 | the listener is shown the current thread's frames exactly when there is a current thread with at least one frame, and no other state changes |
| GuiDebuggers.Await | src/gui/GUIScriptableDebugger.java:206-223 | the wait ends blocked exactly when the debugger is still running and waiting with no input left; it never restarts the loop |
| GuiDebuggers.ProcessedRoutes | src/gui/GUIScriptableDebugger.java:231-245 | "step" and "step-over" step into and over; "continue" ends the wait with the steps kept; anything else is reported and the wait goes on |
| GuiDebuggers.StepLeavesOneRequest | src/gui/GUIScriptableDebugger.java:248-263 | with a thread, exactly one enabled request of the depth on that thread under a new handle remains, and the wait ends; without a thread nothing changes |
| GuiDebuggers.ContinueKeepsSteps | src/gui/GUIScriptableDebugger.java:266-268 | doContinue only ends the wait; the step requests stay as they are |
| GuiDebuggers.StepEventDeletesRequest | src/gui/GUIScriptableDebugger.java:161-165 | the completed step's request is gone before the operator is asked |
| GuiDebuggers.AwaitKeepsSingleStep | src/gui/GUIScriptableDebugger.java:206-223 | waiting for commands keeps at most one step request |
| GuiDebuggers.HandleEventsKeepsSingleStep | src/gui/GUIScriptableDebugger.java:88-107 | handling the events of a set keeps at most one step request |
| GuiDebuggers.LoopKeepsSingleStep | src/gui/GUIScriptableDebugger.java:78-122 | no sequence of event sets and commands leaves two step requests |
| GuiDebuggers.EventSetResumption | src/gui/GUIScriptableDebugger.java:86-111 | a set is resumed exactly when the loop runs and the set held no breakpoint, step, death or disconnect event |
| GuiDebuggers.EndEventStopsLoop | src/gui/GUIScriptableDebugger.java:102-106 | a death or disconnect event ends the loop unless an earlier halt in the same set is still waiting for a command; when it is first in the set, the result is exactly the loop stopped, the end of the program reported and nothing resumed |
| GuiDebuggers.AddedOutcome | src/gui/GUIScriptableDebugger.java:271-289 | one request is appended to the VM and the list exactly when the search finds a location; one report line is always given |
| GuiDebuggers.InitialBreakpointPlacement | src/gui/GUIScriptableDebugger.java:125-148 | the initial breakpoint goes on line 6, else on the first line location, else nowhere; no debug information gives none |
| GuiDebuggers.GuiScriptableDebugger.constructor | src/gui/GUIScriptableDebugger.java:23-31 | the loop runs, nothing waits, and there are no requests and no thread |
| GuiDebuggers.GuiScriptableDebugger.DoStep | src/gui/GUIScriptableDebugger.java:248-263 | the delete-all loop, then a new request, gives the doStep function |
| GuiDebuggers.GuiScriptableDebugger.DoContinue | src/gui/GUIScriptableDebugger.java:266-268 | the new state is the doContinue function of the old one |
| GuiDebuggers.GuiScriptableDebugger.Stop | src/gui/GUIScriptableDebugger.java:292-302 | the loop and the wait end and the VM is told to exit |
| GuiDebuggers.GuiScriptableDebugger.ProcessCommand | src/gui/GUIScriptableDebugger.java:231-245 | the new state is the processCommand function of the old one |
| GuiDebuggers.GuiScriptableDebugger.WaitForCommand | src/gui/GUIScriptableDebugger.java:206-223 | the polling loop gives the wait function |
| GuiDebuggers.GuiScriptableDebugger.NotifyStop | src/gui/GUIScriptableDebugger.java:175-186 | the new state is the notifyStop function of the old one |
| GuiDebuggers.GuiScriptableDebugger.HandleClassPrepare | src/gui/GUIScriptableDebugger.java:125-148 | the new state is the class-prepare function of the old one |
| GuiDebuggers.GuiScriptableDebugger.HaltAndResume | src/gui/GUIScriptableDebugger.java:154-157 | notify, wait, then resume unless still waiting |
| GuiDebuggers.GuiScriptableDebugger.HandleBreakpoint | src/gui/GUIScriptableDebugger.java:151-158 | the new state is the breakpoint-handler function of the old one |
| GuiDebuggers.GuiScriptableDebugger.HandleStep | src/gui/GUIScriptableDebugger.java:161-172 | the new state is the step-handler function of the old one |
| GuiDebuggers.GuiScriptableDebugger.HandleEventSet | src/gui/GUIScriptableDebugger.java:86-111 | one iteration of the loop gives the event-set function |
| GuiDebuggers.GuiScriptableDebugger.EventLoop | src/gui/GUIScriptableDebugger.java:78-122 | the loop over the delivered event sets gives the loop function |
| GuiDebuggers.GuiScriptableDebugger.AddBreakpoint | src/gui/GUIScriptableDebugger.java:271-289 | the class-by-class search gives the addBreakpoint function |
| Inspector.SimplifyTypeName | src/gui/InspectorPanel.java:197-203 | the result has no '.', and is the name's suffix after its last '.', or the whole name when it has none |
| Inspector.Clip | src/gui/InspectorPanel.java:139-142 | a string of at most 40 characters is kept; a longer one becomes its first 40 characters and "..." |
| Inspector.InstanceFields | src/gui/InspectorPanel.java:107-109 | exactly the non-static fields are kept |
| Inspector.FieldNodesPerField | src/gui/InspectorPanel.java:104-116 | the field loop makes one node per non-static field, in field order, one level deeper |
| Inspector.JdkObjectIsLeaf | src/gui/InspectorPanel.java:84-87 | a JDK object is one childless `name : Simple = display` line at any depth |
| Inspector.ObjectChildren | src/gui/InspectorPanel.java:90-120 | an object at the depth limit shows only "..."; above it, one child per non-static declared field, or "(empty)" when there is none |
| Inspector.ValueNodeHeight | src/gui/InspectorPanel.java:130-161 | a value node made at depth d nests at most MAX_DEPTH + 2 - d levels, even on a cyclic heap |
| Inspector.ObjectNodeHeight | src/gui/InspectorPanel.java:21 | an object shown at depth 0 has at most MAX_DEPTH + 1 levels under it |
| Inspector.FieldNodesHeight | src/gui/InspectorPanel.java:104-116 | every field node made at a depth obeys the same bound |
| Inspector.RootsOrder | src/gui/InspectorPanel.java:50-64 | the receiver's node comes first when there is one, then one depth-0 node per local, in order |
| Inspector.InspectorPanel.constructor | src/gui/InspectorPanel.java:23-39 | the tree starts with no variables |
| Inspector.InspectorPanel.UpdateVariables | src/gui/InspectorPanel.java:42-75 | the old children are replaced by the roots of the frame; a null frame leaves none |
| Inspector.InspectorPanel.Clear | src/gui/InspectorPanel.java:206-209 | no children remain |
| SourcePaths.RelativePath | src/gui/DebuggerGUI.java:222-231 | the part kept is a suffix of the normalised path: exactly what follows the first "/src/" when there is one, and otherwise the last component (no '/' in it, preceded by '/' or the whole path) |
| SourcePaths.DropJava | src/gui/DebuggerGUI.java:235-237 | one trailing ".java" is removed, and nothing else |
| SourcePaths.ExtractClassName | src/gui/DebuggerGUI.java:219-241 | the class name holds no '/' and no '\' |
| SourcePaths.ExtractClassNameUnderSrc | src/gui/DebuggerGUI.java:219-241 | a class's file under a "src" directory, written with '/' or '\', gives the class name back |
| SourcePaths.ExtractClassNameOfSourcePath | src/gui/DebuggerGUI.java:222-227 | the same for a single directory above "src" |
| SourcePaths.WindowsSourcePath | src/gui/DebuggerGUI.java:217-218 | `C:\Users\me\src\dbg\MaClasse.java` names `dbg.MaClasse` |
| SourcePaths.ExtractClassNameOutsideSrc | src/gui/DebuggerGUI.java:219-241 | a path with no "/src/" after normalising gives what follows its last separator ('/' or '\'), with one trailing ".java" dropped |
| SourcePaths.ExtractClassNameOfFileName | src/gui/DebuggerGUI.java:229-237 | a bare file name keeps everything but one trailing ".java" |
| SourcePaths.PackageDirOfQualified | src/gui/DebuggerGUI.java:134-140 | class `pkg.Simple` lives in directory `pkg` plus a separator |
| SourcePaths.PackageDirOfUnqualified | src/gui/DebuggerGUI.java:134-140 | a class in the unnamed package has no package directory |
| SourcePaths.Candidates | src/gui/DebuggerGUI.java:130-166 | findSourceFile tries exactly three places |
| SourcePaths.FindSourceFileFirst | src/gui/DebuggerGUI.java:130-166 | the first existing candidate in the fixed order is returned, and null only when none exists |
| SourcePanels.JavaDiv | src/gui/SourceCodePanel.java:64 | Java's division agrees with Dafny's for a non-negative dividend and a positive divisor |
| SourcePanels.ClickRow | src/gui/SourceCodePanel.java:61-68 | a click at a non-negative height selects the row it falls in, which is positive |
| SourcePanels.ClickAboveFirstRow | src/gui/SourceCodePanel.java:64 | truncation toward zero puts a click just above the gutter on row 1 |
| SourcePanels.Toggled | src/gui/SourceCodePanel.java:71-80 | the toggled line changes membership and no other line does |
| SourcePanels.ToggleTwice | src/gui/SourceCodePanel.java:71-80 | toggling a line twice restores the set |
| SourcePanels.GutterRow | src/gui/SourceCodePanel.java:115-119 | a gutter row is one line starting with '*' exactly on a breakpoint line |
| SourcePanels.GutterLines | src/gui/SourceCodePanel.java:111-122 | the gutter has one row per line of the text plus the trailing empty piece; row i starts with '*' exactly when i is a breakpoint line |
| SourcePanels.LoadedFileRows | src/gui/SourceCodePanel.java:93-99 | a file stored with a newline after every line has one row more than it has lines |
| SourcePanels.HighlightRange | src/gui/SourceCodePanel.java:125-146 | there is a range exactly for a line from 1 to the line count |
| SourcePanels.HighlightCoversLine | src/gui/SourceCodePanel.java:140-146 | the range lies within the text and covers exactly the line |
| SourcePanels.SourceCodePanel.constructor | src/gui/SourceCodePanel.java:21-58 | no text, no breakpoint lines, no file and no highlight |
| SourcePanels.SourceCodePanel.LoadSourceFile | src/gui/SourceCodePanel.java:85-108 | the text is every line with a newline after it, and the gutter is rebuilt; a missing file shows the not-found text |
| SourcePanels.SourceCodePanel.UpdateLineNumbers | src/gui/SourceCodePanel.java:111-122 | the loop builds the gutter of the current text and breakpoint lines |
| SourcePanels.SourceCodePanel.ToggleBreakpoint | src/gui/SourceCodePanel.java:71-82 | the line is toggled; only an addition with a file loaded is passed to the debugger window; the gutter is rebuilt |
| SourcePanels.SourceCodePanel.MouseClicked | src/gui/SourceCodePanel.java:42-47 | a click on a positive row toggles that row, records an addBreakpoint request for the open file when the row was not yet marked, and redraws the gutter from the new set; a click on row 0 or above the text changes nothing; text, file, current line and highlight never change |
| SourcePanels.SourceCodePanel.HighlightLine | src/gui/SourceCodePanel.java:125-159 | the offset loop yields the highlight range of the line |
| CallStackPanels.EntriesDescribeFrames | src/gui/CallStackPanel.java:42-60 | a null or empty stack gives the single "(empty)" row; otherwise row k describes frame k |
| CallStackPanels.PlaceholderIsNoFrame | src/gui/CallStackPanel.java:47 | the placeholder is never a frame's row |
| CallStackPanels.CallStackPanel.constructor | src/gui/CallStackPanel.java:17-39 | no rows, no stack and no selection |
| CallStackPanels.CallStackPanel.Select | src/gui/CallStackPanel.java:28-35 | a selected row's frame is handed to the window only when the stack holds that row |
| CallStackPanels.CallStackPanel.UpdateStack | src/gui/CallStackPanel.java:42-66 | the rows are rebuilt; a stack with frames gets row 0 selected, which hands over the top frame |
| CallStackPanels.CallStackPanel.Clear | src/gui/CallStackPanel.java:68-71 | no rows and no stack remain |

## Left out

- Launching and attaching the VM (`connectAndLaunchVM`, `attachTo`, `enableClassPrepareRequest`) is left out. It is foreign JDI code. Loaded classes, locations, frames and heaps are inputs instead.
- The blocking `eventQueue().remove()` is left out; events are a given sequence.
- The echo of every event, the event printouts of the GUI loop and the draining of the debuggee's standard output (`transferTo`, `readProcessOutput`) are left out. They are I/O with no decision in them.
- The sleep-polling handoff between the Swing thread and the debugger thread over `volatile` fields is not modelled. The inputs the GUI will hand over are a given sequence. A wait that finds no more input is recorded as blocked, not as a thread sleeping forever.
- Swing layout, fonts, styling, tree expansion, `CommandPanel`, `OutputPanel`, `MainGUI`, `Main` and the `DebuggerListener` interface are left out. They carry no logic.
- The window's wiring in `DebuggerGUI` is left out: `onDebuggerStopped`, `updateSourceCode`, `onFrameSelected`, `addBreakpoint`, `executeCommand` and `stopDebugger`. They forward values between the panels and the debugger, whose own operations are modelled.
- Reading a source file from disk in `loadSourceFile` is left out. The file's lines, or their absence, are a parameter. IOException paths are not modelled.
- File existence in `findSourceFile` is a predicate parameter.
- Inspector.Clip: lengths are counted in Unicode scalar values (Dafny characters), not in the UTF-16 code units of Java's `String.length()` and `substring`. A string with characters outside the Basic Multilingual Plane is clipped later than in Java, and Java's cut that splits a surrogate pair is not modelled.
- SourcePanels.HighlightRange: the offsets are counted in Unicode scalar values, not in the UTF-16 code units the Swing document uses, so they differ from Java's once an earlier line holds a character outside the Basic Multilingual Plane.
- SourcePanels.SourceCodePanel.HighlightLine: the offset loop adds line lengths in Unicode scalar values, not the UTF-16 units of `lines[i].length()`, with the same consequence as for HighlightRange.
- SourcePaths.FindSourceFile: the "Trying: " line printed before each probe and the "Source not found for: " line appended to the output panel when no candidate exists are not modelled. They are console and panel output; the returned path or null is.
- `setBreakPoint`'s unchecked `locationsOfLine(...).get(0)` is modelled only as an untracked request. A class without code on line 6 would throw there; the model does not capture that.
- The `catch (Exception)` paths that depend on JDI failures are not modelled. These are the inspector's "(error)" child and "Error: ..." root, `getSimpleDisplay`'s "(?)", `notifyStop`'s error line, and `stop()`'s swallowed exception.
- `eventLoop`'s InterruptedException and VMDisconnectedException handlers are not modelled.
- The IOException branch of `readCommand` is not modelled.
- `Value.toString()`, `uniqueID()`, type names and method signatures are opaque strings given with each value, frame or object.
- `StepCommand`, `StepOverCommand` and `ContinueCommand` are folded into `ScriptedSession.Execute`. Their whole effect is to call `step`, `stepOver` or `continueExecution` and return null.
- `CommandRegistry.get`, `SourceCodePanel.getBreakpointLines` and `getCurrentSourcePath` are plain field reads. They appear only as the fields themselves.
- Heap closure is a precondition of the inspector (`Inspector.Closed`): every reference in a shown object points to an object the heap holds. A live JVM guarantees this.
- Which fields of an object are visible is given with the object (`visibleFields`). The model does not compute hiding from a class hierarchy; it resolves a name among the visible fields as `fieldByName` does.
- The ordering of `getValues`' HashMap is taken as given. `allFields` lists the fields in the order the map yields them.
- JavaInt.ParseInt: accepts only ASCII digits '0'-'9'. `Integer.parseInt` also accepts other Unicode decimal digits.
- BreakpointInfos.BreakpointInfo.IncrementCount: the counter is an unbounded integer. Java's `int` would wrap after 2^31 - 1 hits, which is not modelled.
- SourcePanels.LineFromY: the quotient and the `+ 1` do not wrap at 32 bits.
- CallStackPanels.CallStackPanel.Select: requires a row index of the list or -1, which is what a JList reports. The `getValueIsAdjusting()` filter is not modelled.
- SourcePaths.ExtractClassNameUnderSrc: requires that the directories above "src" hold no "/src/" of their own. Otherwise the first "/src/" decides, and the result is a longer dotted name.
