/**
 * The commands the scriptable debugger understands, the factories that build the
 * parameterised ones from argument tokens, and the replies of the breakpoint
 * commands.
 */
module Commands {
  import opened Wrappers
  import opened JavaStrings
  import opened JavaInt

  /** A Command object as the registry hands it out. `Reply` is a factory's `() -> "message"` lambda. */
  datatype Command =
    | StepCmd
    | StepOverCmd
    | ContinueCmd
    | FrameCmd
    | MethodCmd
    | StackCmd
    | TemporariesCmd
    | ArgumentsCmd
    | ReceiverCmd
    | SenderCmd
    | ReceiverVariablesCmd
    | BreakpointsCmd
    | PrintVar(varName: string)
    | Break(filename: string, line: int)
    | BreakOnce(filename: string, line: int)
    | BreakOnCount(filename: string, line: int, count: int)
    | BreakBeforeMethodCall(methodName: string)
    | Reply(text: string)
  {
    /** The commands whose execute() places a breakpoint. */
    predicate SetsBreakpoint() {
      Break? || BreakOnce? || BreakOnCount? || BreakBeforeMethodCall?
    }
  }

  /** The factories registered for the commands that take arguments. */
  datatype Factory = PrintVarFactory | BreakFactory | BreakOnceFactory | BreakOnCountFactory | BreakBeforeMethodCallFactory

  /** How many argument tokens a factory needs. */
  function Arity(f: Factory): nat {
    match f
    case PrintVarFactory => 1
    case BreakFactory => 2
    case BreakOnceFactory => 2
    case BreakOnCountFactory => 3
    case BreakBeforeMethodCallFactory => 1
  }

  function Usage(f: Factory): string {
    match f
    case PrintVarFactory => "Usage: print-var <varName>"
    case BreakFactory => "Usage: break <filename> <line>"
    case BreakOnceFactory => "Usage: break-once <filename> <line>"
    case BreakOnCountFactory => "Usage: break-on-count <filename> <line> <count>"
    case BreakBeforeMethodCallFactory => "Usage: break-before-method-call <methodName>"
  }

  /** The kind of command each factory builds when its arguments are accepted. */
  predicate Builds(f: Factory, c: Command) {
    match f
    case PrintVarFactory => c.PrintVar?
    case BreakFactory => c.Break?
    case BreakOnceFactory => c.BreakOnce?
    case BreakOnCountFactory => c.BreakOnCount?
    case BreakBeforeMethodCallFactory => c.BreakBeforeMethodCall?
  }

  /**
   * The factory lambdas of initializeCommands: too few arguments give the usage
   * reply; a line or count that Integer.parseInt rejects gives "Invalid line
   * number" (break, break-once) or "Invalid number" (break-on-count); otherwise
   * the command carries the first argument and the parsed numbers. Extra
   * arguments are ignored.
   */
  function Create(f: Factory, args: seq<string>): (c: Command)
    ensures |args| < Arity(f) ==> c == Reply(Usage(f))
    ensures c.Reply? <==> |args| < Arity(f) || (f != PrintVarFactory && f != BreakBeforeMethodCallFactory &&
                                                 (ParseInt(args[1]).None? || (f == BreakOnCountFactory && ParseInt(args[2]).None?)))
    ensures !c.Reply? ==> c.SetsBreakpoint() || c.PrintVar?
    ensures c.Reply? && |args| >= Arity(f) ==>
              c.text == (if f == BreakOnCountFactory then "Invalid number" else "Invalid line number")
    ensures !c.Reply? ==> Builds(f, c)
    ensures c.PrintVar? ==> |args| >= 1 && c.varName == args[0]
    ensures c.BreakBeforeMethodCall? ==> |args| >= 1 && c.methodName == args[0]
    ensures c.Break? || c.BreakOnce? || c.BreakOnCount? ==>
              |args| >= 2 && c.filename == args[0] && ParseInt(args[1]) == Some(c.line)
    ensures c.BreakOnCount? ==> |args| >= 3 && ParseInt(args[2]) == Some(c.count)
  {
    if |args| < Arity(f) then Reply(Usage(f))
    else
      match f
      case PrintVarFactory => PrintVar(args[0])
      case BreakBeforeMethodCallFactory => BreakBeforeMethodCall(args[0])
      case BreakFactory =>
        (match ParseInt(args[1])
         case None => Reply("Invalid line number")
         case Some(line) => Break(args[0], line))
      case BreakOnceFactory =>
        (match ParseInt(args[1])
         case None => Reply("Invalid line number")
         case Some(line) => BreakOnce(args[0], line))
      case BreakOnCountFactory =>
        (match (ParseInt(args[1]), ParseInt(args[2]))
         case (Some(line), Some(count)) => BreakOnCount(args[0], line, count)
         case _ => Reply("Invalid number"))
  }

  /**
   * A factory given a file token and the decimal text of a 32-bit line (and
   * count) builds exactly the command for those values, whatever follows.
   */
  lemma CreateFromWrittenNumbers(file: string, line: int, count: int, extra: seq<string>)
    requires InRange(line) && InRange(count)
    ensures Create(BreakFactory, [file, IntToString(line)] + extra) == Break(file, line)
    ensures Create(BreakOnceFactory, [file, IntToString(line)] + extra) == BreakOnce(file, line)
    ensures Create(BreakOnCountFactory, [file, IntToString(line), IntToString(count)] + extra) == BreakOnCount(file, line, count)
  {
    CreateWithLine(BreakFactory, file, line, extra);
    CreateWithLine(BreakOnceFactory, file, line, extra);
    CreateWithCount(file, line, count, extra);
  }

  lemma CreateWithLine(f: Factory, file: string, line: int, extra: seq<string>)
    requires f == BreakFactory || f == BreakOnceFactory
    requires InRange(line)
    ensures Create(f, [file, IntToString(line)] + extra) ==
              if f == BreakFactory then Break(file, line) else BreakOnce(file, line)
  {
    ParseIntToString(line);
    var args := [file, IntToString(line)] + extra;
    assert |args| >= 2 && args[0] == file && args[1] == IntToString(line);
  }

  lemma CreateWithCount(file: string, line: int, count: int, extra: seq<string>)
    requires InRange(line) && InRange(count)
    ensures Create(BreakOnCountFactory, [file, IntToString(line), IntToString(count)] + extra) ==
              BreakOnCount(file, line, count)
  {
    ParseIntToString(line);
    ParseIntToString(count);
    var args := [file, IntToString(line), IntToString(count)] + extra;
    assert |args| >= 3 && args[0] == file && args[1] == IntToString(line) && args[2] == IntToString(count);
  }

  /** A line token that does not parse is reported, never turned into a breakpoint. */
  lemma CreateRejectsBadLine(f: Factory, args: seq<string>)
    requires f == BreakFactory || f == BreakOnceFactory
    requires |args| >= 2 && ParseInt(args[1]).None?
    ensures Create(f, args) == Reply("Invalid line number")
  {
  }

  /** What break, break-once and break-on-count report after addBreakpoint*: a lead, the location, and for a count breakpoint its target. */
  function BreakReply(c: Command, success: bool): string
    requires c.Break? || c.BreakOnce? || c.BreakOnCount?
  {
    ReplyLead(c, success) + (c.filename + ":" + IntToString(c.line)) + ReplyTail(c, success)
  }

  function ReplyLead(c: Command, success: bool): string
    requires c.Break? || c.BreakOnce? || c.BreakOnCount?
  {
    if !success then "Failed to set breakpoint at "
    else match c
      case Break(_, _) => "Breakpoint set at "
      case BreakOnce(_, _) => "One-time breakpoint set at "
      case BreakOnCount(_, _, _) => "Count breakpoint set at "
  }

  function ReplyTail(c: Command, success: bool): string
    requires c.Break? || c.BreakOnce? || c.BreakOnCount?
  {
    if success && c.BreakOnCount? then " (activates after " + IntToString(c.count) + " hits)" else ""
  }

  /** What break-before-method-call reports after addMethodBreakpoint. */
  function MethodBreakReply(methodName: string, success: bool): string {
    if success then "Method breakpoint set on: " + methodName
    else "Failed to set method breakpoint on: " + methodName
  }

  /** Success and failure are told apart by the first word of the reply; a failure, and a plain or one-time success, ends with the location. */
  lemma BreakReplyShape(c: Command, success: bool)
    requires c.Break? || c.BreakOnce? || c.BreakOnCount?
    ensures StartsWith(BreakReply(c, success), "Failed") <==> !success
    ensures !(success && c.BreakOnCount?) ==> EndsWith(BreakReply(c, success), c.filename + ":" + IntToString(c.line))
  {
    BreakReplyStart(c, success);
    if !(success && c.BreakOnCount?) {
      BreakReplyEnd(c, success);
    }
  }

  lemma BreakReplyStart(c: Command, success: bool)
    requires c.Break? || c.BreakOnce? || c.BreakOnCount?
    ensures StartsWith(BreakReply(c, success), "Failed") <==> !success
  {
    var at := c.filename + ":" + IntToString(c.line);
    var lead, tail := ReplyLead(c, success), ReplyTail(c, success);
    ReplyLeadWord(c, success);
    StartsWithLonger(lead + at, tail, "Failed");
    StartsWithLonger(lead, at, "Failed");
  }

  lemma BreakReplyEnd(c: Command, success: bool)
    requires c.Break? || c.BreakOnce? || c.BreakOnCount?
    requires !(success && c.BreakOnCount?)
    ensures EndsWith(BreakReply(c, success), c.filename + ":" + IntToString(c.line))
  {
    var at := c.filename + ":" + IntToString(c.line);
    var lead := ReplyLead(c, success);
    assert ReplyTail(c, success) == [];
    assert BreakReply(c, success) == lead + at;
    SuffixOfConcat(lead, at);
  }

  lemma ReplyLeadWord(c: Command, success: bool)
    requires c.Break? || c.BreakOnce? || c.BreakOnCount?
    ensures |ReplyLead(c, success)| >= 6
    ensures StartsWith(ReplyLead(c, success), "Failed") <==> !success
  {
    var lead := ReplyLead(c, success);
    if !success {
      assert lead == "Failed" + " to set breakpoint at ";
      PrefixOfConcat("Failed", " to set breakpoint at ");
    } else {
      assert lead[0] != 'F';
    }
  }

  /** A prefix no longer than `a` starts `a + b` exactly when it starts `a`. */
  lemma StartsWithLonger(a: string, b: string, p: string)
    requires |p| <= |a|
    ensures StartsWith(a + b, p) <==> StartsWith(a, p)
  {
    assert (a + b)[..|p|] == a[..|p|];
  }
}
