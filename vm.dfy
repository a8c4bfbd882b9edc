/**
 * The debuggee as the debugger sees it through JDI, reduced to values: loaded
 * classes with their line tables, request handles, step requests, stack frames,
 * object references and the events the VM queues.
 */
module Vm {
  import opened Wrappers
  import opened JavaStrings

  /** The identity of an event request (breakpoint, step or method-entry request). */
  type Handle = nat

  /** A code location: its source line and its index in the method's bytecode. */
  datatype Location = Location(line: int, codeIndex: nat)

  /**
   * A loaded reference type. `lineTable` lists allLineLocations() in order, or is
   * `None` when the class was compiled without debug information (JDI then throws
   * AbsentInformationException from every line query).
   */
  datatype LoadedClass = LoadedClass(name: string, lineTable: Option<seq<Location>>)

  /** The locations of a line table that lie on `line`, in table order. */
  function OnLine(table: seq<Location>, line: int): (r: seq<Location>)
    ensures |r| <= |table|
    ensures forall l <- r :: l in table && l.line == line
    ensures forall l <- table :: l.line == line ==> l in r
  {
    if table == [] then []
    else (if table[0].line == line then [table[0]] else []) + OnLine(table[1..], line)
  }

  /** ReferenceType.locationsOfLine: `None` stands for AbsentInformationException. */
  function LocationsOfLine(c: LoadedClass, line: int): Option<seq<Location>> {
    match c.lineTable
    case None => None
    case Some(t) => Some(OnLine(t, line))
  }

  /** A class name given on the command line matches a loaded class by full name or by trailing simple name. */
  predicate NameMatches(name: string, f: string) {
    name == f || EndsWith(name, "." + f)
  }

  /** The class aborts a breakpoint search: it matches but has no line information. */
  predicate Blocks(c: LoadedClass, f: string) {
    NameMatches(c.name, f) && c.lineTable.None?
  }

  /** The class takes the breakpoint: it matches and has code on the line. */
  predicate Hits(c: LoadedClass, f: string, line: int) {
    NameMatches(c.name, f) && c.lineTable.Some? && OnLine(c.lineTable.value, line) != []
  }

  /** The first `k` classes neither take the breakpoint nor abort the search. */
  predicate Passes(classes: seq<LoadedClass>, f: string, line: int, k: int) {
    0 <= k <= |classes| && forall j :: 0 <= j < k ==> !Hits(classes[j], f, line) && !Blocks(classes[j], f)
  }

  /** The result of looking for the first breakpoint location of `f:line` among the loaded classes. */
  datatype Resolution = Located(at: Location) | NotFound | NoDebugInfo

  /**
   * The search shared by addBreakpoint, addBreakpointOnce, addBreakpointOnCount
   * and the GUI's addBreakpoint: classes are visited in order, the first matching
   * class with code on the line gives its first location, and a matching class
   * without debug information ends the search with AbsentInformationException.
   */
  function Resolve(classes: seq<LoadedClass>, f: string, line: int): Resolution {
    if classes == [] then NotFound
    else if Blocks(classes[0], f) then NoDebugInfo
    else if Hits(classes[0], f, line) then Located(OnLine(classes[0].lineTable.value, line)[0])
    else Resolve(classes[1..], f, line)
  }

  /**
   * The search stops at the first class that matches the name: a location when
   * that class has code on the line, NoDebugInfo when it has no line table;
   * NotFound only after every class was passed over.
   */
  lemma {:induction false} ResolveFirstMatch(classes: seq<LoadedClass>, f: string, line: int)
    ensures var r := Resolve(classes, f, line);
            (r.Located? ==>
               exists k :: Passes(classes, f, line, k) && k < |classes| && Hits(classes[k], f, line) &&
                           r.at == OnLine(classes[k].lineTable.value, line)[0]) &&
            (r.NoDebugInfo? ==> exists k :: Passes(classes, f, line, k) && k < |classes| && Blocks(classes[k], f)) &&
            (r.NotFound? ==> Passes(classes, f, line, |classes|))
  {
    if classes != [] && !Blocks(classes[0], f) && !Hits(classes[0], f, line) {
      ResolveFirstMatch(classes[1..], f, line);
      assert forall j :: 1 <= j < |classes| ==> classes[j] == classes[1..][j - 1];
      var r := Resolve(classes, f, line);
      if r.Located? {
        var k :| Passes(classes[1..], f, line, k) && k < |classes| - 1 && Hits(classes[1..][k], f, line) &&
                 r.at == OnLine(classes[1..][k].lineTable.value, line)[0];
        assert Passes(classes, f, line, k + 1);
      } else if r.NoDebugInfo? {
        var k :| Passes(classes[1..], f, line, k) && k < |classes| - 1 && Blocks(classes[1..][k], f);
        assert Passes(classes, f, line, k + 1);
      }
    } else if classes != [] {
      assert Passes(classes, f, line, 0);
    }
  }

  /** When no matching class lacks debug information, a location is found exactly when some matching class has code on the line. */
  lemma ResolveWithDebugInfo(classes: seq<LoadedClass>, f: string, line: int)
    requires forall c <- classes :: !Blocks(c, f)
    ensures Resolve(classes, f, line).Located? <==> exists c <- classes :: Hits(c, f, line)
  {
    var r := Resolve(classes, f, line);
    ResolveFirstMatch(classes, f, line);
    if r.Located? {
      var k :| Passes(classes, f, line, k) && k < |classes| && Hits(classes[k], f, line) &&
               r.at == OnLine(classes[k].lineTable.value, line)[0];
      assert classes[k] in classes;
    } else if r.NotFound? {
      assert forall k :: 0 <= k < |classes| ==> !Hits(classes[k], f, line);
    }
  }

  /** The class-by-class loop of the add-breakpoint operations, with the early exits the source takes. */
  method FindBreakpointLocation(classes: seq<LoadedClass>, f: string, line: int) returns (r: Resolution)
    ensures r == Resolve(classes, f, line)
  {
    var i := 0;
    while i < |classes|
      invariant 0 <= i <= |classes|
      invariant Resolve(classes[i..], f, line) == Resolve(classes, f, line)
    {
      var c := classes[i];
      if NameMatches(c.name, f) {
        match LocationsOfLine(c, line)
        case None =>
          return NoDebugInfo;
        case Some(locations) =>
          if locations != [] {
            return Located(locations[0]);
          }
      }
      assert classes[i..][1..] == classes[i + 1..];
      i := i + 1;
    }
    return NotFound;
  }

  /** Step depth: STEP_INTO or STEP_OVER (the size is always STEP_LINE). */
  datatype Depth = Into | Over

  /** A step request the VM holds: its handle, its thread, its depth and whether it is enabled. */
  datatype StepReq = StepReq(id: Handle, thread: int, depth: Depth, enabled: bool)

  // ---------------------------------------------------------------- halted threads

  /** What Value.toString shows, and what kind of value it is. */
  datatype ValKind = Primitive | StringRef(chars: string) | ArrayRef(length: nat) | ObjectRef(id: int)
  datatype Val = Val(text: string, kind: ValKind)

  /** A local variable, argument or field: its name, declared type, static flag and value (`None` for null). */
  datatype Var = Var(name: string, typeName: string, isStatic: bool, value: Option<Val>)

  /**
   * An object reference: unique id, type name, Value.toString text, the fields its
   * type declares (ReferenceType.fields) and all its fields, inherited ones
   * included, in the order the debugger's map yields them (ReferenceType.allFields),
   * and its visible fields (ReferenceType.visibleFields): those declared or
   * inherited that no nearer declaration of the same name hides. Two visible
   * fields share a name only when inherited along different paths.
   */
  datatype Obj = Obj(id: int, typeName: string, text: string, declared: seq<Var>, allFields: seq<Var>, visibleFields: seq<Var>)

  /**
   * A stack frame: declaring type and method of its location, the method's
   * signature, the current line, the receiver (`None` in a static method), the
   * visible locals and the declared arguments (`None` when the class has no
   * debug information).
   */
  datatype Frame = Frame(
    typeName: string, methodName: string, signature: string, line: int,
    thisObject: Option<Obj>, visible: Option<seq<Var>>, arguments: Option<seq<Var>>)

  /** The thread an event happened in: whether it is suspended, and its frames, innermost first. */
  datatype ThreadState = ThreadState(id: int, suspended: bool, frames: seq<Frame>)

  /** The events the debugger reacts to. */
  datatype Event =
    | ClassPrepare(cls: LoadedClass)
    | BreakpointHit(request: Handle, thread: ThreadState)
    | StepDone(request: Handle, thread: ThreadState)
    | MethodEntry(thread: ThreadState)
    | VMDeath
    | VMDisconnect
  {
    /** The LocatableEvent subtypes: they carry a thread. */
    predicate Locatable() {
      BreakpointHit? || StepDone? || MethodEntry?
    }
  }
}
