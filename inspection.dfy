/**
 * The inspection commands of the scriptable debugger: what each prints for the
 * event the debugger is halted on. The straight-line ones are functions; the
 * ones that loop over frames, variables or breakpoints are methods proved equal
 * to a listing function.
 */
module Inspection {
  import opened Wrappers
  import opened JavaStrings
  import opened Vm
  import opened TextBlocks
  import opened BreakpointInfos

  // ---------------------------------------------------------------- the halted context

  /** getCurrentFrame: null, IncompatibleThreadStateException, or frame 0. */
  datatype FrameFetch = NoFrame | NotSuspended | TopFrame(frame: Frame)

  /** getStackFrames: null, IncompatibleThreadStateException, or the thread's frames. */
  datatype StackFetch = NoStack | StackNotSuspended | Frames(frames: seq<Frame>)

  /**
   * getCurrentFrame: only a locatable current event has a thread; asking a
   * running thread for its frame count throws; a thread without frames gives null.
   */
  function CurrentFrame(current: Option<Event>): (r: FrameFetch)
    ensures r.TopFrame? <==> current.Some? && current.value.Locatable() && current.value.thread.suspended && current.value.thread.frames != []
    ensures r.TopFrame? ==> r.frame == current.value.thread.frames[0]
    ensures r.NotSuspended? <==> current.Some? && current.value.Locatable() && !current.value.thread.suspended
  {
    if current.None? || !current.value.Locatable() then NoFrame
    else if !current.value.thread.suspended then NotSuspended
    else if current.value.thread.frames == [] then NoFrame
    else TopFrame(current.value.thread.frames[0])
  }

  /** getStackFrames: the whole stack of the current event's thread. */
  function StackFrames(current: Option<Event>): (r: StackFetch)
    ensures r.Frames? <==> current.Some? && current.value.Locatable() && current.value.thread.suspended
    ensures r.Frames? ==> r.frames == current.value.thread.frames
    ensures r.StackNotSuspended? <==> current.Some? && current.value.Locatable() && !current.value.thread.suspended
  {
    if current.None? || !current.value.Locatable() then NoStack
    else if !current.value.thread.suspended then StackNotSuspended
    else Frames(current.value.thread.frames)
  }

  /** A failure reported as text: "Error: " and the reason. */
  function Error(reason: string): (r: string)
    ensures r != [] && r[0] == 'E'
  {
    "Error: " + reason
  }

  /** `value != null ? value.toString() : "null"`. */
  function ValueText(v: Option<Val>): string {
    match v
    case None => "null"
    case Some(x) => x.text
  }

  // ---------------------------------------------------------------- frame, method

  /** FrameCommand.execute. */
  function FrameText(current: Option<Event>): string {
    match CurrentFrame(current)
    case NoFrame => "No frame available"
    case NotSuspended => Error("Cannot get frame (thread not suspended)")
    case TopFrame(f) => "Frame: " + f.typeName + "." + f.methodName + " (line " + IntToString(f.line) + ")"
  }

  /** "No frame available" is printed exactly when there is no frame; a halted frame is reported on a line starting "Frame: ". */
  lemma FrameTextOutcomes(current: Option<Event>)
    ensures FrameText(current) == "No frame available" <==> CurrentFrame(current).NoFrame?
    ensures CurrentFrame(current).NotSuspended? ==> FrameText(current) == Error("Cannot get frame (thread not suspended)")
    ensures CurrentFrame(current).TopFrame? ==> StartsWith(FrameText(current), "Frame: ")
  {
    match CurrentFrame(current)
    case TopFrame(f) =>
      var rest := f.typeName + "." + f.methodName + " (line " + IntToString(f.line) + ")";
      assert FrameText(current) == "Frame: " + rest;
      PrefixOfConcat("Frame: ", rest);
      assert FrameText(current)[0] == 'F';
      assert "No frame available"[0] == 'N';
    case NoFrame =>
    case NotSuspended =>
  }

  /** MethodCommand.execute. */
  function MethodText(current: Option<Event>): string {
    match CurrentFrame(current)
    case NoFrame => "No method available"
    case NotSuspended => Error("Cannot get method (thread not suspended)")
    case TopFrame(f) =>
      ("Method: " + f.methodName) + "\n" + ("  Signature: " + f.signature) + "\n" + ("  Class: " + f.typeName) + "\n" +
      ("  Line: " + IntToString(f.line))
  }

  /** For a halted frame the method command prints four lines: name, signature, declaring class and current line. */
  lemma MethodTextLines(current: Option<Event>)
    requires CurrentFrame(current).TopFrame?
    requires var f := CurrentFrame(current).frame; NoNewline(f.methodName) && NoNewline(f.signature) && NoNewline(f.typeName)
    ensures var f := CurrentFrame(current).frame;
      SplitLines(MethodText(current)) ==
        ["Method: " + f.methodName, "  Signature: " + f.signature, "  Class: " + f.typeName, "  Line: " + IntToString(f.line)]
  {
    var f := CurrentFrame(current).frame;
    var ls := ["Method: " + f.methodName, "  Signature: " + f.signature, "  Class: " + f.typeName, "  Line: " + IntToString(f.line)];
    NoNewlineConcat("Method: ", f.methodName);
    NoNewlineConcat("  Signature: ", f.signature);
    NoNewlineConcat("  Class: ", f.typeName);
    NoNewlineConcat("  Line: ", IntToString(f.line));
    JoinLines4(ls[0], ls[1], ls[2], ls[3]);
    SplitJoinLines(ls);
  }

  /** "No method available" is printed exactly when there is no frame, and the not-suspended error exactly when the thread runs. */
  lemma MethodTextOutcomes(current: Option<Event>)
    ensures MethodText(current) == "No method available" <==> CurrentFrame(current).NoFrame?
    ensures MethodText(current) == Error("Cannot get method (thread not suspended)") <==> CurrentFrame(current).NotSuspended?
  {
    if CurrentFrame(current).TopFrame? {
      var f := CurrentFrame(current).frame;
      assert MethodText(current)[0] == 'M';
    }
  }

  // ---------------------------------------------------------------- stack

  /** `  [i] Type.method (line n)`. */
  function StackRow(i: nat, f: Frame): string {
    "  [" + IntToString(i) + "] " + f.typeName + "." + f.methodName + " (line " + IntToString(f.line) + ")"
  }

  function StackRows(frames: seq<Frame>): (rows: seq<string>)
    ensures |rows| == |frames|
  {
    seq(|frames|, i requires 0 <= i < |frames| => StackRow(i, frames[i]))
  }

  /** StackCommand.execute. */
  function StackText(current: Option<Event>): string {
    match StackFrames(current)
    case NoStack => "No stack frames available"
    case StackNotSuspended => Error("Cannot get stack (thread not suspended)")
    case Frames(fs) => if fs == [] then "No stack frames available" else Block("Call Stack:", StackRows(fs))
  }

  /** StackCommand.execute with its loop over the frames. */
  method StackCommand(current: Option<Event>) returns (r: string)
    ensures r == StackText(current)
  {
    match StackFrames(current)
    case NoStack => return "No stack frames available";
    case StackNotSuspended => return Error("Cannot get stack (thread not suspended)");
    case Frames(frames) =>
      if frames == [] {
        return "No stack frames available";
      }
      ghost var rows := StackRows(frames);
      var sb := "Call Stack:" + "\n";
      var i := 0;
      while i < |frames|
        invariant 0 <= i <= |frames|
        invariant sb == "Call Stack:" + "\n" + Terminated(rows[..i])
      {
        var row := StackRow(i, frames[i]);
        PrefixSnoc(rows, i);
        BlockStep("Call Stack:", rows[..i], row);
        sb := sb + row + "\n";
        i := i + 1;
      }
      assert rows[..i] == rows;
      return Trim(sb);
  }

  lemma StackRowShape(i: nat, f: Frame)
    ensures StartsWith(StackRow(i, f), "  [" + IntToString(i) + "] ")
    ensures NoNewline(f.typeName) && NoNewline(f.methodName) ==> NoNewline(StackRow(i, f))
    ensures StackRow(i, f) != [] && StackRow(i, f)[|StackRow(i, f)| - 1] == ')'
  {
    var lead := "  [" + IntToString(i) + "] ";
    var rest := f.typeName + "." + f.methodName + " (line " + IntToString(f.line) + ")";
    assert StackRow(i, f) == lead + rest;
    PrefixOfConcat(lead, rest);
    LastOfConcat(lead, rest);
    if NoNewline(f.typeName) && NoNewline(f.methodName) {
      StackRowOneLine(i, f);
    }
  }

  lemma StackRowOneLine(i: nat, f: Frame)
    requires NoNewline(f.typeName) && NoNewline(f.methodName)
    ensures NoNewline(StackRow(i, f))
  {
    var lead := "  [" + IntToString(i) + "] ";
    NoNewlineConcat("  [", IntToString(i));
    NoNewlineConcat("  [" + IntToString(i), "] ");
    NoNewlineConcat(lead, f.typeName);
    NoNewlineConcat(lead + f.typeName, ".");
    NoNewlineConcat(lead + f.typeName + ".", f.methodName);
    NoNewlineConcat(lead + f.typeName + "." + f.methodName, " (line ");
    NoNewlineConcat(lead + f.typeName + "." + f.methodName + " (line ", IntToString(f.line));
    NoNewlineConcat(lead + f.typeName + "." + f.methodName + " (line " + IntToString(f.line), ")");
  }

  /**
   * A halted, non-empty stack prints "Call Stack:" and then one line per frame,
   * in stack order, the i-th beginning with `  [i] `.
   */
  lemma StackTextLines(current: Option<Event>)
    requires StackFrames(current).Frames? && StackFrames(current).frames != []
    requires forall f <- StackFrames(current).frames :: NoNewline(f.typeName) && NoNewline(f.methodName)
    ensures var fs := StackFrames(current).frames;
      SplitLines(StackText(current)) == ["Call Stack:"] + StackRows(fs) &&
      forall i :: 0 <= i < |fs| ==> StackRows(fs)[i] == StackRow(i, fs[i])
  {
    var fs := StackFrames(current).frames;
    var rows := StackRows(fs);
    StackRowsOneLine(fs);
    StackRowShape(|fs| - 1, fs[|fs| - 1]);
    assert rows[|rows| - 1] == StackRow(|fs| - 1, fs[|fs| - 1]);
    CallStackHeader();
    BlockLines("Call Stack:", rows);
    assert StackText(current) == Block("Call Stack:", rows);
  }

  lemma StackRowsOneLine(fs: seq<Frame>)
    requires forall f <- fs :: NoNewline(f.typeName) && NoNewline(f.methodName)
    ensures forall r <- StackRows(fs) :: NoNewline(r)
  {
    var rows := StackRows(fs);
    forall i | 0 <= i < |rows| ensures NoNewline(rows[i]) {
      assert fs[i] in fs;
      StackRowShape(i, fs[i]);
    }
  }

  lemma CallStackHeader()
    ensures var h := "Call Stack:"; h != [] && !IsTrimmable(h[0]) && NoNewline(h)
  {
    var h := "Call Stack:";
    assert h[0] == 'C';
  }

  /** "No stack frames available" stands for a missing or empty stack, the error for a running thread. */
  lemma StackTextOutcomes(current: Option<Event>)
    ensures StackText(current) == "No stack frames available" <==>
              StackFrames(current).NoStack? || StackFrames(current) == Frames([])
    ensures StackText(current) == Error("Cannot get stack (thread not suspended)") <==> StackFrames(current).StackNotSuspended?
  {
    if StackFrames(current).Frames? && StackFrames(current).frames != [] {
      BlockStart("Call Stack:", StackRows(StackFrames(current).frames));
    }
  }

  // ---------------------------------------------------------------- temporaries, arguments

  /** `  name<sep>value`. */
  function VarRow(v: Var, sep: string): string {
    "  " + v.name + sep + ValueText(v.value)
  }

  function VarRows(vs: seq<Var>, sep: string): (rows: seq<string>)
    ensures |rows| == |vs|
  {
    seq(|vs|, i requires 0 <= i < |vs| => VarRow(vs[i], sep))
  }

  /** TemporariesCommand.execute. */
  function TemporariesText(current: Option<Event>): string {
    match CurrentFrame(current)
    case NoFrame => "No frame available"
    case NotSuspended => Error("Thread not suspended")
    case TopFrame(f) =>
      match f.visible
      case None => Error("No debug information available (compile with -g flag)")
      case Some(vs) => if vs == [] then "No local variables" else Block("Local Variables:", VarRows(vs, " = "))
  }

  /** ArgumentsCommand.execute. */
  function ArgumentsText(current: Option<Event>): string {
    match CurrentFrame(current)
    case NoFrame => "No frame available"
    case NotSuspended => Error("Thread not suspended")
    case TopFrame(f) =>
      match f.arguments
      case None => Error("No debug info (compile with -g)")
      case Some(args) => if args == [] then "No arguments" else Block("Arguments:", VarRows(args, " -> "))
  }

  /** The loop shared in shape by the temporaries and arguments commands: one row per variable, in order. */
  method AppendVarRows(header: string, vs: seq<Var>, sep: string) returns (r: string)
    ensures r == Block(header, VarRows(vs, sep))
  {
    ghost var rows := VarRows(vs, sep);
    var sb := header + "\n";
    var i := 0;
    while i < |vs|
      invariant 0 <= i <= |vs|
      invariant sb == header + "\n" + Terminated(rows[..i])
    {
      var row := VarRow(vs[i], sep);
      PrefixSnoc(rows, i);
      BlockStep(header, rows[..i], row);
      sb := sb + row + "\n";
      i := i + 1;
    }
    assert rows[..i] == rows;
    return Trim(sb);
  }

  /** TemporariesCommand.execute with its loop over the visible locals. */
  method TemporariesCommand(current: Option<Event>) returns (r: string)
    ensures r == TemporariesText(current)
  {
    match CurrentFrame(current)
    case NoFrame => return "No frame available";
    case NotSuspended => return Error("Thread not suspended");
    case TopFrame(f) =>
      match f.visible
      case None => return Error("No debug information available (compile with -g flag)");
      case Some(vs) =>
        if vs == [] {
          return "No local variables";
        }
        r := AppendVarRows("Local Variables:", vs, " = ");
  }

  /** ArgumentsCommand.execute with its loop over the declared arguments. */
  method ArgumentsCommand(current: Option<Event>) returns (r: string)
    ensures r == ArgumentsText(current)
  {
    match CurrentFrame(current)
    case NoFrame => return "No frame available";
    case NotSuspended => return Error("Thread not suspended");
    case TopFrame(f) =>
      match f.arguments
      case None => return Error("No debug info (compile with -g)");
      case Some(args) =>
        if args == [] {
          return "No arguments";
        }
        r := AppendVarRows("Arguments:", args, " -> ");
  }

  /** Each message of the temporaries command stands for exactly one outcome. */
  lemma TemporariesTextOutcomes(current: Option<Event>)
    ensures TemporariesText(current) == "No frame available" <==> CurrentFrame(current).NoFrame?
    ensures TemporariesText(current) == Error("Thread not suspended") <==> CurrentFrame(current).NotSuspended?
    ensures TemporariesText(current) == "No local variables" <==>
              CurrentFrame(current).TopFrame? && CurrentFrame(current).frame.visible == Some([])
    ensures TemporariesText(current) == Error("No debug information available (compile with -g flag)") <==>
              CurrentFrame(current).TopFrame? && CurrentFrame(current).frame.visible.None?
  {
    if CurrentFrame(current).TopFrame? && CurrentFrame(current).frame.visible.Some? {
      var vs := CurrentFrame(current).frame.visible.value;
      if vs != [] {
        BlockStart("Local Variables:", VarRows(vs, " = "));
      }
    }
  }

  /** Each message of the arguments command stands for exactly one outcome. */
  lemma ArgumentsTextOutcomes(current: Option<Event>)
    ensures ArgumentsText(current) == "No frame available" <==> CurrentFrame(current).NoFrame?
    ensures ArgumentsText(current) == Error("Thread not suspended") <==> CurrentFrame(current).NotSuspended?
    ensures ArgumentsText(current) == "No arguments" <==>
              CurrentFrame(current).TopFrame? && CurrentFrame(current).frame.arguments == Some([])
    ensures ArgumentsText(current) == Error("No debug info (compile with -g)") <==>
              CurrentFrame(current).TopFrame? && CurrentFrame(current).frame.arguments.None?
  {
    if CurrentFrame(current).TopFrame? && CurrentFrame(current).frame.arguments.Some? {
      var args := CurrentFrame(current).frame.arguments.value;
      if args != [] {
        BlockStart("Arguments:", VarRows(args, " -> "));
      }
    }
  }

  /** A variable line has no newline when neither its name nor its value text has one. */
  lemma VarRowNoNewline(v: Var, sep: string)
    requires NoNewline(v.name) && NoNewline(sep) && NoNewline(ValueText(v.value))
    ensures NoNewline(VarRow(v, sep))
  {
    NoNewlineConcat("  ", v.name);
    NoNewlineConcat("  " + v.name, sep);
    NoNewlineConcat("  " + v.name + sep, ValueText(v.value));
  }

  /** The variables print one line each, in order, under the header, when the last value text ends in a significant character. */
  lemma VarBlockLines(header: string, vs: seq<Var>, sep: string)
    requires header != [] && !IsTrimmable(header[0]) && NoNewline(header) && NoNewline(sep)
    requires vs != [] && forall v <- vs :: NoNewline(v.name) && NoNewline(ValueText(v.value))
    requires var t := ValueText(vs[|vs| - 1].value); t != [] && !IsTrimmable(t[|t| - 1])
    ensures SplitLines(Block(header, VarRows(vs, sep))) == [header] + VarRows(vs, sep)
  {
    var rows := VarRows(vs, sep);
    forall r <- rows ensures NoNewline(r) {
      var i :| 0 <= i < |rows| && rows[i] == r;
      assert vs[i] in vs;
      VarRowNoNewline(vs[i], sep);
    }
    var last := vs[|vs| - 1];
    LastOfConcat("  " + last.name + sep, ValueText(last.value));
    BlockLines(header, rows);
  }

  /**
   * The two failures of the temporaries command are reported differently, and
   * differently from the arguments command's missing-debug-information text.
   */
  lemma DebugInfoMessagesDiffer(current: Option<Event>)
    requires CurrentFrame(current).TopFrame?
    requires CurrentFrame(current).frame.visible.None? && CurrentFrame(current).frame.arguments.None?
    ensures TemporariesText(current) != ArgumentsText(current)
    ensures TemporariesText(current) != Error("Thread not suspended")
  {
  }

  // ---------------------------------------------------------------- receiver, sender

  /** ReceiverCommand.execute. */
  function ReceiverText(current: Option<Event>): string {
    match CurrentFrame(current)
    case NoFrame => "No frame available"
    case NotSuspended => Error("Thread not suspended")
    case TopFrame(f) =>
      match f.thisObject
      case None => "Receiver: null (static method)"
      case Some(o) => "Receiver (this):" + "\n" + ("  Type: " + o.typeName) + "\n" + ("  ID: " + IntToString(o.id))
  }

  /** A receiver is shown by its type and unique id, on three lines. */
  lemma ReceiverTextLines(current: Option<Event>)
    requires CurrentFrame(current).TopFrame? && CurrentFrame(current).frame.thisObject.Some?
    requires NoNewline(CurrentFrame(current).frame.thisObject.value.typeName)
    ensures var o := CurrentFrame(current).frame.thisObject.value;
      SplitLines(ReceiverText(current)) == ["Receiver (this):", "  Type: " + o.typeName, "  ID: " + IntToString(o.id)]
  {
    var o := CurrentFrame(current).frame.thisObject.value;
    var ls := ["Receiver (this):", "  Type: " + o.typeName, "  ID: " + IntToString(o.id)];
    NoNewlineConcat("  Type: ", o.typeName);
    NoNewlineConcat("  ID: ", IntToString(o.id));
    JoinLines3(ls[0], ls[1], ls[2]);
    SplitJoinLines(ls);
  }

  /** A static method's missing receiver is reported apart from a missing frame and from a running thread. */
  lemma ReceiverTextOutcomes(current: Option<Event>)
    ensures ReceiverText(current) == "No frame available" <==> CurrentFrame(current).NoFrame?
    ensures ReceiverText(current) == Error("Thread not suspended") <==> CurrentFrame(current).NotSuspended?
    ensures ReceiverText(current) == "Receiver: null (static method)" <==>
              CurrentFrame(current).TopFrame? && CurrentFrame(current).frame.thisObject.None?
  {
    if CurrentFrame(current).TopFrame? && CurrentFrame(current).frame.thisObject.Some? {
      var t := ReceiverText(current);
      assert t[0] == 'R' && t[8] == ' ';
    }
  }

  /** SenderCommand.execute: the caller is always the frame at index 1. */
  function SenderText(current: Option<Event>): string {
    match StackFrames(current)
    case NoStack => "No sender (top of stack or no caller)"
    case StackNotSuspended => Error("Thread not suspended")
    case Frames(fs) =>
      if |fs| < 2 then "No sender (top of stack or no caller)"
      else
        match fs[1].thisObject
        case None => "Sender: null (called from static method)"
        case Some(o) =>
          "Sender:" + "\n" + ("  Type: " + o.typeName) + "\n" + ("  ID: " + IntToString(o.id)) + "\n" + ("  Method: " + fs[1].methodName)
  }

  /** A caller with a receiver is shown by the receiver's type and id and the caller's method name. */
  lemma SenderTextLines(current: Option<Event>)
    requires StackFrames(current).Frames? && |StackFrames(current).frames| >= 2
    requires var caller := StackFrames(current).frames[1];
      caller.thisObject.Some? && NoNewline(caller.thisObject.value.typeName) && NoNewline(caller.methodName)
    ensures var caller := StackFrames(current).frames[1]; var o := caller.thisObject.value;
      SplitLines(SenderText(current)) == ["Sender:", "  Type: " + o.typeName, "  ID: " + IntToString(o.id), "  Method: " + caller.methodName]
  {
    var caller := StackFrames(current).frames[1];
    var o := caller.thisObject.value;
    var ls := ["Sender:", "  Type: " + o.typeName, "  ID: " + IntToString(o.id), "  Method: " + caller.methodName];
    NoNewlineConcat("  Type: ", o.typeName);
    NoNewlineConcat("  ID: ", IntToString(o.id));
    NoNewlineConcat("  Method: ", caller.methodName);
    JoinLines4(ls[0], ls[1], ls[2], ls[3]);
    SplitJoinLines(ls);
  }

  /** Without a caller (fewer than two frames) nothing is indexed; a static caller is reported as such. */
  lemma SenderTextOutcomes(current: Option<Event>)
    ensures SenderText(current) == "No sender (top of stack or no caller)" <==>
              StackFrames(current).NoStack? || (StackFrames(current).Frames? && |StackFrames(current).frames| < 2)
    ensures SenderText(current) == Error("Thread not suspended") <==> StackFrames(current).StackNotSuspended?
    ensures SenderText(current) == "Sender: null (called from static method)" <==>
              StackFrames(current).Frames? && |StackFrames(current).frames| >= 2 &&
              StackFrames(current).frames[1].thisObject.None?
  {
    if StackFrames(current).Frames? && |StackFrames(current).frames| >= 2 &&
       StackFrames(current).frames[1].thisObject.Some? {
      var t := SenderText(current);
      assert t[0] == 'S' && t[7] == '\n';
    }
  }

  // ---------------------------------------------------------------- receiver variables

  /** The lines for the non-static fields, in map order; static fields are skipped. */
  function InstanceRows(fields: seq<Var>): (rows: seq<string>)
    ensures |rows| <= |fields|
  {
    if fields == [] then []
    else
      var last := fields[|fields| - 1];
      InstanceRows(fields[..|fields| - 1]) + (if last.isStatic then [] else [VarRow(last, " -> ")])
  }

  function InstanceHeader(o: Obj): string {
    "Instance variables of " + o.typeName + ":"
  }

  /** ReceiverVariablesCommand.execute. Emptiness is judged on all fields, before static ones are skipped. */
  function ReceiverVariablesText(current: Option<Event>): string {
    match CurrentFrame(current)
    case NoFrame => "No frame available"
    case NotSuspended => Error("Thread not suspended")
    case TopFrame(f) =>
      match f.thisObject
      case None => "No receiver (static method)"
      case Some(o) => if o.allFields == [] then "No instance variables" else Block(InstanceHeader(o), InstanceRows(o.allFields))
  }

  /** Each message of the receiver-variables command stands for exactly one outcome; emptiness counts static fields too. */
  lemma ReceiverVariablesTextOutcomes(current: Option<Event>)
    ensures ReceiverVariablesText(current) == "No frame available" <==> CurrentFrame(current).NoFrame?
    ensures ReceiverVariablesText(current) == Error("Thread not suspended") <==> CurrentFrame(current).NotSuspended?
    ensures ReceiverVariablesText(current) == "No receiver (static method)" <==>
              CurrentFrame(current).TopFrame? && CurrentFrame(current).frame.thisObject.None?
    ensures ReceiverVariablesText(current) == "No instance variables" <==>
              CurrentFrame(current).TopFrame? && CurrentFrame(current).frame.thisObject.Some? &&
              CurrentFrame(current).frame.thisObject.value.allFields == []
  {
    if CurrentFrame(current).TopFrame? && CurrentFrame(current).frame.thisObject.Some? {
      var o := CurrentFrame(current).frame.thisObject.value;
      if o.allFields != [] {
        assert InstanceHeader(o)[0] == 'I';
        BlockStart(InstanceHeader(o), InstanceRows(o.allFields));
      }
    }
  }

  /** ReceiverVariablesCommand.execute with its loop over the field map. */
  method ReceiverVariablesCommand(current: Option<Event>) returns (r: string)
    ensures r == ReceiverVariablesText(current)
  {
    match CurrentFrame(current)
    case NoFrame => return "No frame available";
    case NotSuspended => return Error("Thread not suspended");
    case TopFrame(f) =>
      match f.thisObject
      case None => return "No receiver (static method)";
      case Some(o) =>
        if o.allFields == [] {
          return "No instance variables";
        }
        r := InstanceListing(o);
  }

  /** The loop over the receiver's field map, skipping static fields. */
  method InstanceListing(o: Obj) returns (r: string)
    ensures r == Block(InstanceHeader(o), InstanceRows(o.allFields))
  {
    var fields := o.allFields;
    var sb := InstanceHeader(o) + "\n";
    var i := 0;
    while i < |fields|
      invariant 0 <= i <= |fields|
      invariant sb == InstanceHeader(o) + "\n" + Terminated(InstanceRows(fields[..i]))
    {
      InstanceRowsSnoc(fields, i);
      if fields[i].isStatic {
        assert InstanceRows(fields[..i + 1]) == InstanceRows(fields[..i]);
        i := i + 1;
        continue;
      }
      var row := VarRow(fields[i], " -> ");
      BlockStep(InstanceHeader(o), InstanceRows(fields[..i]), row);
      sb := sb + row + "\n";
      i := i + 1;
    }
    assert fields[..i] == fields;
    return Trim(sb);
  }

  lemma InstanceRowsSnoc(fields: seq<Var>, i: nat)
    requires i < |fields|
    ensures InstanceRows(fields[..i + 1]) ==
              InstanceRows(fields[..i]) + (if fields[i].isStatic then [] else [VarRow(fields[i], " -> ")])
  {
    assert fields[..i + 1][..i] == fields[..i];
  }

  /** A receiver whose fields are all static prints the header line alone. */
  lemma OnlyStaticFields(current: Option<Event>)
    requires CurrentFrame(current).TopFrame? && CurrentFrame(current).frame.thisObject.Some?
    requires var o := CurrentFrame(current).frame.thisObject.value;
      o.allFields != [] && (forall v <- o.allFields :: v.isStatic) && NoNewline(o.typeName)
    ensures ReceiverVariablesText(current) == InstanceHeader(CurrentFrame(current).frame.thisObject.value)
  {
    var o := CurrentFrame(current).frame.thisObject.value;
    AllStaticNoRows(o.allFields);
    var h := InstanceHeader(o);
    NoNewlineConcat("Instance variables of ", o.typeName);
    NoNewlineConcat("Instance variables of " + o.typeName, ":");
    BlockLines(h, []);
    assert JoinLines([h]) == h;
  }

  lemma {:induction false} AllStaticNoRows(fields: seq<Var>)
    requires forall v <- fields :: v.isStatic
    ensures InstanceRows(fields) == []
  {
    if fields != [] {
      assert fields[|fields| - 1] in fields;
      assert forall v <- fields[..|fields| - 1] :: v in fields;
      AllStaticNoRows(fields[..|fields| - 1]);
    }
  }

  /** The rows are exactly the non-static fields, in order, each as `  name -> value`. */
  lemma {:induction false} InstanceRowsAreNonStatic(fields: seq<Var>)
    ensures InstanceRows(fields) == VarRows(NonStatic(fields), " -> ")
  {
    if fields != [] {
      var init := fields[..|fields| - 1];
      var last := fields[|fields| - 1];
      InstanceRowsAreNonStatic(init);
      if !last.isStatic {
        VarRowsSnoc(NonStatic(init), last, " -> ");
      }
    }
  }

  lemma VarRowsSnoc(vs: seq<Var>, v: Var, sep: string)
    ensures VarRows(vs + [v], sep) == VarRows(vs, sep) + [VarRow(v, sep)]
  {
    var a := VarRows(vs + [v], sep);
    var b := VarRows(vs, sep) + [VarRow(v, sep)];
    forall i | 0 <= i < |a| ensures a[i] == b[i] {
      if i < |vs| {
        assert (vs + [v])[i] == vs[i];
      }
    }
  }

  /** The non-static fields, in order. */
  function NonStatic(fields: seq<Var>): (r: seq<Var>)
    ensures forall v <- r :: v in fields && !v.isStatic
    ensures forall v <- fields :: !v.isStatic ==> v in r
  {
    if fields == [] then []
    else
      var init := fields[..|fields| - 1];
      var last := fields[|fields| - 1];
      assert forall v <- init :: v in fields;
      assert fields == init + [last];
      NonStatic(init) + (if last.isStatic then [] else [last])
  }

  // ---------------------------------------------------------------- print-var

  /** The first variable called `name`, if any. */
  function FirstNamed(vs: seq<Var>, name: string): (r: Option<Var>)
    ensures r.Some? ==> r.value in vs && r.value.name == name
    ensures r.None? ==> forall v <- vs :: v.name != name
    ensures r.Some? ==> exists i :: 0 <= i < |vs| && vs[i] == r.value && forall j :: 0 <= j < i ==> vs[j].name != name
  {
    if vs == [] then None
    else if vs[0].name == name then Some(vs[0])
    else
      var r := FirstNamed(vs[1..], name);
      assert forall v <- vs[1..] :: v in vs;
      assert r.Some? ==> exists i :: 0 <= i < |vs[1..]| && vs[1..][i] == r.value && forall j :: 0 <= j < i ==> vs[1..][j].name != name;
      assert forall i :: 0 <= i < |vs[1..]| ==> vs[1..][i] == vs[i + 1];
      r
  }

  /** visibleVariableByName, with missing debug information read as "not found". */
  function LocalNamed(f: Frame, name: string): Option<Var> {
    match f.visible
    case None => None
    case Some(vs) => FirstNamed(vs, name)
  }

  /** The position of the first variable called `name` at or after `from`, if any. */
  function NamedFrom(vs: seq<Var>, name: string, from: nat): (r: Option<nat>)
    requires from <= |vs|
    ensures r.Some? ==> from <= r.value < |vs| && vs[r.value].name == name
    ensures forall j :: from <= j < |vs| && (r.None? || j < r.value) ==> vs[j].name != name
    decreases |vs| - from
  {
    if from == |vs| then None
    else if vs[from].name == name then Some(from)
    else NamedFrom(vs, name, from + 1)
  }

  /** The variable at position `i` is the only one called `name`. */
  predicate OnlyNamedAt(vs: seq<Var>, name: string, i: int) {
    0 <= i < |vs| && vs[i].name == name && forall j :: 0 <= j < |vs| && j != i ==> vs[j].name != name
  }

  /**
   * ReferenceType.fieldByName over the visible fields: the one field called
   * `name`, or `None` (null) when there is none or the name is ambiguous.
   */
  function FieldByName(visible: seq<Var>, name: string): (r: Option<Var>)
    ensures r.Some? <==> exists i :: OnlyNamedAt(visible, name, i)
    ensures forall i :: OnlyNamedAt(visible, name, i) ==> r == Some(visible[i])
  {
    match NamedFrom(visible, name, 0)
    case None => None
    case Some(i) =>
      match NamedFrom(visible, name, i + 1)
      case None =>
        assert OnlyNamedAt(visible, name, i);
        Some(visible[i])
      case Some(j) =>
        assert forall k :: !OnlyNamedAt(visible, name, k) by {
          forall k
            ensures !OnlyNamedAt(visible, name, k)
          {
            if k != i {
              assert visible[i].name == name;
            } else {
              assert visible[j].name == name;
            }
          }
        }
        None
  }

  /** The receiver's field `name`, looked up only when there is a receiver. */
  function FieldNamed(f: Frame, name: string): Option<Var> {
    match f.thisObject
    case None => None
    case Some(o) => FieldByName(o.visibleFields, name)
  }

  /** PrintVarCommand.execute: locals first, then the receiver's fields. */
  function PrintVarText(current: Option<Event>, name: string): string {
    match CurrentFrame(current)
    case NoFrame => "No frame available"
    case NotSuspended => Error("Thread not suspended")
    case TopFrame(f) =>
      match LocalNamed(f, name)
      case Some(v) => name + " -> " + ValueText(v.value)
      case None =>
        match FieldNamed(f, name)
        case Some(v) => name + " -> " + ValueText(v.value)
        case None => "Variable not found: " + name
  }

  /** A found variable is printed with " -> ", which no other message of print-var holds. */
  lemma ArrowNotAMessage(name: string, value: string)
    ensures name + " -> " + value != "No frame available"
    ensures name + " -> " + value != Error("Thread not suspended")
  {
    var t := name + " -> " + value;
    assert t[|name| + 2] == '>';
    assert forall i | 0 <= i < |"No frame available"| :: "No frame available"[i] != '>';
    assert forall i | 0 <= i < |Error("Thread not suspended")| :: Error("Thread not suspended")[i] != '>';
  }

  /** "No frame available" and the not-suspended error are printed exactly in their own cases. */
  lemma PrintVarTextOutcomes(current: Option<Event>, name: string)
    ensures PrintVarText(current, name) == "No frame available" <==> CurrentFrame(current).NoFrame?
    ensures PrintVarText(current, name) == Error("Thread not suspended") <==> CurrentFrame(current).NotSuspended?
  {
    if CurrentFrame(current).TopFrame? {
      var f := CurrentFrame(current).frame;
      match LocalNamed(f, name)
      case Some(v) => ArrowNotAMessage(name, ValueText(v.value));
      case None =>
        match FieldNamed(f, name)
        case Some(v) => ArrowNotAMessage(name, ValueText(v.value));
        case None => assert PrintVarText(current, name)[0] == 'V';
    }
  }

  /**
   * A visible local wins over a field of the same name; a frame without debug
   * information, or without the local, falls through to the receiver's one
   * visible field of that name; when neither exists, or the field name is
   * ambiguous, the command says the variable is not found.
   */
  lemma PrintVarLookupOrder(current: Option<Event>, name: string)
    requires CurrentFrame(current).TopFrame?
    ensures var f := CurrentFrame(current).frame;
      (f.visible.Some? && (exists v <- f.visible.value :: v.name == name) ==>
         PrintVarText(current, name) == name + " -> " + ValueText(FirstNamed(f.visible.value, name).value.value))
    ensures var f := CurrentFrame(current).frame;
      forall i :: (f.visible.None? || (forall v <- f.visible.value :: v.name != name)) && f.thisObject.Some? &&
                  OnlyNamedAt(f.thisObject.value.visibleFields, name, i) ==>
         PrintVarText(current, name) == name + " -> " + ValueText(f.thisObject.value.visibleFields[i].value)
    ensures var f := CurrentFrame(current).frame;
      ((f.visible.None? || (forall v <- f.visible.value :: v.name != name)) &&
       (f.thisObject.None? || !(exists i :: OnlyNamedAt(f.thisObject.value.visibleFields, name, i))) ==>
         PrintVarText(current, name) == "Variable not found: " + name)
  {
  }

  /** Two visible fields of the same name make it ambiguous: without a local of that name, print-var does not find it. */
  lemma PrintVarAmbiguousField(current: Option<Event>, name: string, i: nat, j: nat)
    requires CurrentFrame(current).TopFrame?
    requires var f := CurrentFrame(current).frame;
      (f.visible.None? || (forall v <- f.visible.value :: v.name != name)) && f.thisObject.Some? &&
      i != j && i < |f.thisObject.value.visibleFields| && j < |f.thisObject.value.visibleFields| &&
      f.thisObject.value.visibleFields[i].name == name && f.thisObject.value.visibleFields[j].name == name
    ensures PrintVarText(current, name) == "Variable not found: " + name
  {
    var fs := CurrentFrame(current).frame.thisObject.value.visibleFields;
    forall k
      ensures !OnlyNamedAt(fs, name, k)
    {
      if k != i {
        assert fs[i].name == name;
      } else {
        assert fs[j].name == name;
      }
    }
  }

  // ---------------------------------------------------------------- breakpoints

  /** `  [i] <entry>`. */
  function BreakpointRow(i: nat, e: Entry): string {
    "  [" + IntToString(i) + "] " + Describe(e)
  }

  function BreakpointRows(es: seq<Entry>): (rows: seq<string>)
    ensures |rows| == |es|
  {
    seq(|es|, i requires 0 <= i < |es| => BreakpointRow(i, es[i]))
  }

  /** BreakpointsCommand.execute. */
  function BreakpointsText(es: seq<Entry>): string {
    if es == [] then "No breakpoints" else Block("Breakpoints:", BreakpointRows(es))
  }

  /** "No breakpoints" is printed exactly for an empty list. */
  lemma NoBreakpointsMessage(es: seq<Entry>)
    ensures BreakpointsText(es) == "No breakpoints" <==> es == []
  {
    if es != [] {
      BlockStart("Breakpoints:", BreakpointRows(es));
    }
  }

  /** BreakpointsCommand.execute with its indexed loop; it only reads the list. */
  method BreakpointsCommand(es: seq<Entry>) returns (r: string)
    ensures r == BreakpointsText(es)
  {
    if es == [] {
      return "No breakpoints";
    }
    ghost var rows := BreakpointRows(es);
    var sb := "Breakpoints:" + "\n";
    var i := 0;
    while i < |es|
      invariant 0 <= i <= |es|
      invariant sb == "Breakpoints:" + "\n" + Terminated(rows[..i])
    {
      var row := BreakpointRow(i, es[i]);
      PrefixSnoc(rows, i);
      BlockStep("Breakpoints:", rows[..i], row);
      sb := sb + row + "\n";
      i := i + 1;
    }
    assert rows[..i] == rows;
    return Trim(sb);
  }

  lemma BreakpointRowShape(i: nat, e: Entry)
    ensures NoNewline(e.filename) ==> NoNewline(BreakpointRow(i, e))
    ensures BreakpointRow(i, e) != [] && !IsTrimmable(BreakpointRow(i, e)[|BreakpointRow(i, e)| - 1])
  {
    var lead := "  [" + IntToString(i) + "] ";
    DescribeShape(e);
    if NoNewline(e.filename) {
      NoNewlineConcat("  [", IntToString(i));
      NoNewlineConcat("  [" + IntToString(i), "] ");
      NoNewlineConcat(lead, Describe(e));
    }
    LastOfConcat(lead, Describe(e));
  }

  /**
   * A non-empty list prints "Breakpoints:" and then one line per entry in list
   * order, the i-th being `  [i] ` followed by the entry's description.
   */
  lemma BreakpointsTextLines(es: seq<Entry>)
    requires es != [] && forall e <- es :: NoNewline(e.filename)
    ensures SplitLines(BreakpointsText(es)) == ["Breakpoints:"] + BreakpointRows(es)
    ensures forall i :: 0 <= i < |es| ==> BreakpointRows(es)[i] == "  [" + IntToString(i) + "] " + Describe(es[i])
  {
    var rows := BreakpointRows(es);
    BreakpointRowsOneLine(es);
    BreakpointRowShape(|es| - 1, es[|es| - 1]);
    assert rows[|rows| - 1] == BreakpointRow(|es| - 1, es[|es| - 1]);
    BreakpointsHeader();
    BlockLines("Breakpoints:", rows);
    assert BreakpointsText(es) == Block("Breakpoints:", rows);
  }

  lemma BreakpointRowsOneLine(es: seq<Entry>)
    requires forall e <- es :: NoNewline(e.filename)
    ensures forall r <- BreakpointRows(es) :: NoNewline(r)
  {
    var rows := BreakpointRows(es);
    forall i | 0 <= i < |rows| ensures NoNewline(rows[i]) {
      assert es[i] in es;
      BreakpointRowShape(i, es[i]);
    }
  }

  lemma BreakpointsHeader()
    ensures var h := "Breakpoints:"; h != [] && !IsTrimmable(h[0]) && NoNewline(h)
  {
    var h := "Breakpoints:";
    assert h[0] == 'B';
  }
}
