/**
 * The inspector tree: a frame's receiver and locals shown as nodes, objects of
 * the program's own classes opened up field by field down to a fixed depth,
 * JDK objects shown as a single line. Objects live in an abstract heap that may
 * be cyclic; the depth bound is what makes the rendering finite.
 */
module Inspector {
  import opened Wrappers
  import opened JavaStrings
  import opened Vm

  /** MAX_DEPTH: the deepest object level whose fields are opened. */
  const MaxDepth: nat := 2

  /** A tree node: its text and its children in order. */
  datatype Node = Node(text: string, children: seq<Node>)

  function Leaf(text: string): Node {
    Node(text, [])
  }

  /** Object references resolved by their unique id. */
  type Heap = map<int, Obj>

  /** A value that is a reference points to an object the heap knows. */
  predicate Resolves(heap: Heap, value: Option<Val>) {
    value.None? || !value.value.kind.ObjectRef? || value.value.kind.id in heap
  }

  /** Every field of every object in the heap refers back into the heap. */
  predicate Closed(heap: Heap) {
    forall id <- heap :: forall v <- heap[id].declared :: Resolves(heap, v.value)
  }

  /** The fields of a shown object refer into a closed heap. */
  predicate Shown(heap: Heap, o: Obj) {
    Closed(heap) && forall v <- o.declared :: Resolves(heap, v.value)
  }

  /** isJdkClass: the five package prefixes whose objects are never opened. */
  predicate IsJdkClass(typeName: string) {
    StartsWith(typeName, "java.") || StartsWith(typeName, "javax.") || StartsWith(typeName, "sun.") ||
    StartsWith(typeName, "jdk.") || StartsWith(typeName, "com.sun.")
  }

  /** simplifyTypeName: the text after the last '.', or the whole name when it has none. */
  function SimplifyTypeName(typeName: string): (r: string)
    ensures '.' !in r && EndsWith(typeName, r)
    ensures '.' !in typeName ==> r == typeName
    ensures '.' in typeName ==> |r| < |typeName| && typeName[|typeName| - |r| - 1] == '.'
  {
    match LastIndexOf(typeName, '.')
    case None =>
      assert forall k :: 0 <= k < |typeName| ==> typeName[k] != '.';
      typeName
    case Some(lastDot) =>
      var r := typeName[lastDot + 1..];
      assert forall c <- r :: c != '.' by {
        assert forall i :: 0 <= i < |r| ==> r[i] == typeName[lastDot + 1 + i];
      }
      r
  }

  /** The wrapper classes whose own text is shown. */
  predicate IsWrapper(typeName: string) {
    typeName in {"java.lang.Integer", "java.lang.Long", "java.lang.Double",
                 "java.lang.Float", "java.lang.Boolean", "java.lang.Character"}
  }

  /** getSimpleDisplay: a wrapper's text, otherwise the object's id. */
  function SimpleDisplay(o: Obj): string {
    if IsWrapper(o.typeName) then o.text else "(id=" + IntToString(o.id) + ")"
  }

  /** A string value as shown: at most 40 characters, and "..." when it was cut. */
  function Clip(chars: string): (r: string)
    ensures |chars| <= 40 ==> r == chars
    ensures |chars| > 40 ==> |r| == 43 && r[..40] == chars[..40] && r[40..] == "..."
  {
    if |chars| > 40 then chars[..40] + "..." else chars
  }

  /** How far below `depth` objects can still be opened. */
  function Room(depth: nat): nat {
    if depth <= MaxDepth then MaxDepth - depth else 0
  }

  /** createValueNode. */
  function ValueNode(heap: Heap, name: string, typeName: string, value: Option<Val>, depth: nat): Node
    requires Closed(heap) && Resolves(heap, value)
    decreases Room(depth), 1, 0
  {
    match value
    case None => Leaf(name + " : " + SimplifyTypeName(typeName) + " = null")
    case Some(v) =>
      match v.kind
      case StringRef(chars) => Leaf(name + " : String = \"" + Clip(chars) + "\"")
      case ArrayRef(length) => Leaf(name + " : " + SimplifyTypeName(typeName) + " (length=" + NatToString(length) + ")")
      case ObjectRef(id) => ObjectNode(heap, name, heap[id], depth)
      case Primitive => Leaf(name + " : " + SimplifyTypeName(typeName) + " = " + v.text)
  }

  /** createObjectNode: JDK objects are leaves; others open their non-static declared fields above the depth limit. */
  function ObjectNode(heap: Heap, name: string, o: Obj, depth: nat): Node
    requires Shown(heap, o)
    decreases Room(depth), 0, 0
  {
    var simple := SimplifyTypeName(o.typeName);
    if IsJdkClass(o.typeName) then Leaf(name + " : " + simple + " = " + SimpleDisplay(o))
    else if depth >= MaxDepth then Node(name + " : " + simple, [Leaf("...")])
    else
      var children := FieldNodes(heap, o.declared, depth + 1);
      Node(name + " : " + simple, if children == [] then [Leaf("(empty)")] else children)
  }

  /** The loop over declared fields: one node per non-static field, in order. */
  function FieldNodes(heap: Heap, fields: seq<Var>, depth: nat): seq<Node>
    requires Closed(heap) && forall v <- fields :: Resolves(heap, v.value)
    decreases Room(depth), 2, |fields|
  {
    if fields == [] then []
    else
      var rest := FieldNodes(heap, fields[1..], depth);
      if fields[0].isStatic then rest
      else [ValueNode(heap, fields[0].name, fields[0].typeName, fields[0].value, depth)] + rest
  }

  /** The non-static fields, in order. */
  function InstanceFields(fields: seq<Var>): (r: seq<Var>)
    ensures forall v <- r :: v in fields && !v.isStatic
    ensures forall v <- fields :: !v.isStatic ==> v in r
  {
    if fields == [] then []
    else (if fields[0].isStatic then [] else [fields[0]]) + InstanceFields(fields[1..])
  }

  /** The number of nodes on the longest path down from `n`, `n` included. */
  function Height(n: Node): nat
    decreases n
  {
    1 + MaxHeight(n.children)
  }

  function MaxHeight(ns: seq<Node>): nat
    decreases ns
  {
    if ns == [] then 0
    else
      var h := Height(ns[0]);
      var rest := MaxHeight(ns[1..]);
      if h < rest then rest else h
  }

  // ---------------------------------------------------------------- properties

  /** `f` applied to every element, in order. */
  function Map<A, B>(xs: seq<A>, f: A --> B): (r: seq<B>)
    requires forall x <- xs :: f.requires(x)
    ensures |r| == |xs| && forall i :: 0 <= i < |xs| ==> r[i] == f(xs[i])
  {
    seq(|xs|, i requires 0 <= i < |xs| => assert xs[i] in xs; f(xs[i]))
  }

  lemma MapCons<A, B>(xs: seq<A>, f: A --> B)
    requires xs != [] && forall x <- xs :: f.requires(x)
    ensures forall x <- xs[1..] :: f.requires(x)
    ensures Map(xs, f) == [f(xs[0])] + Map(xs[1..], f)
  {
    assert xs[0] in xs;
    assert forall x <- xs[1..] :: x in xs;
  }

  lemma MapSnoc<A, B>(xs: seq<A>, x: A, f: A --> B)
    requires f.requires(x) && forall y <- xs :: f.requires(y)
    ensures forall y <- xs + [x] :: f.requires(y)
    ensures Map(xs + [x], f) == Map(xs, f) + [f(x)]
  {
    assert forall y <- xs + [x] :: y in xs || y == x;
  }

  /** createValueNode at a fixed depth, as a function of the variable. */
  function NodeOf(heap: Heap, depth: nat): Var --> Node {
    (v: Var) requires Closed(heap) && Resolves(heap, v.value) => ValueNode(heap, v.name, v.typeName, v.value, depth)
  }

  /** One node per variable, in order, all at the same depth. */
  function ValueNodes(heap: Heap, vars: seq<Var>, depth: nat): (r: seq<Node>)
    requires Closed(heap) && forall v <- vars :: Resolves(heap, v.value)
    ensures |r| == |vars|
  {
    Map(vars, NodeOf(heap, depth))
  }

  lemma ValueNodesCons(heap: Heap, vars: seq<Var>, depth: nat)
    requires Closed(heap) && forall v <- vars :: Resolves(heap, v.value)
    requires vars != []
    ensures forall v <- vars[1..] :: Resolves(heap, v.value)
    ensures ValueNodes(heap, vars, depth) ==
              [ValueNode(heap, vars[0].name, vars[0].typeName, vars[0].value, depth)] + ValueNodes(heap, vars[1..], depth)
  {
    assert vars[0] in vars;
    MapCons(vars, NodeOf(heap, depth));
  }

  lemma ValueNodesSnoc(heap: Heap, vars: seq<Var>, v: Var, depth: nat)
    requires Closed(heap) && Resolves(heap, v.value) && forall w <- vars :: Resolves(heap, w.value)
    ensures forall w <- vars + [v] :: Resolves(heap, w.value)
    ensures ValueNodes(heap, vars + [v], depth) ==
              ValueNodes(heap, vars, depth) + [ValueNode(heap, v.name, v.typeName, v.value, depth)]
  {
    MapSnoc(vars, v, NodeOf(heap, depth));
  }

  /** The field loop makes exactly one node per non-static field, in field order, each one level deeper. */
  lemma {:induction false} FieldNodesPerField(heap: Heap, fields: seq<Var>, depth: nat)
    requires Closed(heap) && forall v <- fields :: Resolves(heap, v.value)
    ensures forall v <- InstanceFields(fields) :: Resolves(heap, v.value)
    ensures FieldNodes(heap, fields, depth) == ValueNodes(heap, InstanceFields(fields), depth)
  {
    if fields != [] {
      var tail := fields[1..];
      assert forall v <- tail :: v in fields;
      FieldNodesPerField(heap, tail, depth);
      var inst := InstanceFields(fields);
      if fields[0].isStatic {
        assert inst == InstanceFields(tail);
        assert FieldNodes(heap, fields, depth) == FieldNodes(heap, tail, depth);
      } else {
        assert inst == [fields[0]] + InstanceFields(tail);
        ValueNodesCons(heap, inst, depth);
        assert inst[1..] == InstanceFields(tail);
        var head := ValueNode(heap, fields[0].name, fields[0].typeName, fields[0].value, depth);
        assert FieldNodes(heap, fields, depth) == [head] + FieldNodes(heap, tail, depth);
        assert ValueNodes(heap, inst, depth) == [head] + ValueNodes(heap, InstanceFields(tail), depth);
      }
    }
  }

  /** A JDK object is one childless line whatever its depth: this check comes before the depth check. */
  lemma JdkObjectIsLeaf(heap: Heap, name: string, o: Obj, depth: nat)
    requires Shown(heap, o) && IsJdkClass(o.typeName)
    ensures ObjectNode(heap, name, o, depth).children == []
    ensures ObjectNode(heap, name, o, depth).text ==
              name + " : " + SimplifyTypeName(o.typeName) + " = " + SimpleDisplay(o)
  {
  }

  /**
   * An object of the program's own classes at the depth limit shows only "...";
   * above it, one child per non-static declared field, or "(empty)" when there
   * is none.
   */
  lemma ObjectChildren(heap: Heap, name: string, o: Obj, depth: nat)
    requires Shown(heap, o) && !IsJdkClass(o.typeName)
    ensures var n := ObjectNode(heap, name, o, depth);
            n.text == name + " : " + SimplifyTypeName(o.typeName) &&
            (depth >= MaxDepth ==> n.children == [Leaf("...")]) &&
            (depth < MaxDepth && InstanceFields(o.declared) == [] ==> n.children == [Leaf("(empty)")]) &&
            (depth < MaxDepth && InstanceFields(o.declared) != [] ==>
               n.children == FieldNodes(heap, o.declared, depth + 1) &&
               |n.children| == |InstanceFields(o.declared)|)
  {
    if depth < MaxDepth {
      FieldNodesPerField(heap, o.declared, depth + 1);
    }
  }

  lemma {:induction false} MaxHeightBound(ns: seq<Node>, bound: nat)
    requires forall n <- ns :: Height(n) <= bound
    ensures MaxHeight(ns) <= bound
  {
    if ns != [] {
      assert ns[0] in ns;
      assert forall n <- ns[1..] :: n in ns;
      MaxHeightBound(ns[1..], bound);
    }
  }

  /**
   * The rendering is finite even on a cyclic heap: a node made at depth `d`
   * nests at most MAX_DEPTH + 1 - d levels below itself, so an object shown at
   * depth 0 has at most MAX_DEPTH + 1 levels under it.
   */
  lemma ChildlessHeight(n: Node)
    requires n.children == []
    ensures Height(n) == 1
  {
    assert MaxHeight([]) == 0;
  }

  lemma {:induction false} ValueNodeHeight(heap: Heap, name: string, typeName: string, value: Option<Val>, depth: nat)
    requires Closed(heap) && Resolves(heap, value) && depth <= MaxDepth
    ensures Height(ValueNode(heap, name, typeName, value, depth)) <= MaxDepth + 2 - depth
    decreases Room(depth), 1, 0
  {
    if value.Some? && value.value.kind.ObjectRef? {
      var o := heap[value.value.kind.id];
      assert Shown(heap, o);
      ObjectNodeHeight(heap, name, o, depth);
      assert ValueNode(heap, name, typeName, value, depth) == ObjectNode(heap, name, o, depth);
    } else {
      var n := ValueNode(heap, name, typeName, value, depth);
      assert n.children == [];
      ChildlessHeight(n);
    }
  }

  lemma {:induction false} ObjectNodeHeight(heap: Heap, name: string, o: Obj, depth: nat)
    requires Shown(heap, o) && depth <= MaxDepth
    ensures Height(ObjectNode(heap, name, o, depth)) <= MaxDepth + 2 - depth
    decreases Room(depth), 0, 0
  {
    var n := ObjectNode(heap, name, o, depth);
    if IsJdkClass(o.typeName) {
      assert MaxHeight([]) == 0;
    } else if depth >= MaxDepth {
      assert MaxHeight([]) == 0;
      assert Height(Leaf("...")) == 1;
      assert [Leaf("...")][1..] == [];
    } else {
      var children := FieldNodes(heap, o.declared, depth + 1);
      if children == [] {
        assert Height(Leaf("(empty)")) == 1;
        assert [Leaf("(empty)")][1..] == [];
      } else {
        FieldNodesHeight(heap, o.declared, depth + 1);
        MaxHeightBound(children, MaxDepth + 1 - depth);
      }
    }
  }

  lemma {:induction false} FieldNodesHeight(heap: Heap, fields: seq<Var>, depth: nat)
    requires Closed(heap) && (forall v <- fields :: Resolves(heap, v.value)) && depth <= MaxDepth
    ensures forall n <- FieldNodes(heap, fields, depth) :: Height(n) <= MaxDepth + 2 - depth
    decreases Room(depth), 2, |fields|
  {
    if fields != [] {
      FieldNodesHeight(heap, fields[1..], depth);
      if !fields[0].isStatic {
        ValueNodeHeight(heap, fields[0].name, fields[0].typeName, fields[0].value, depth);
      }
    }
  }

  // ---------------------------------------------------------------- the panel

  /** The receiver and the locals of a frame refer into a closed heap. */
  predicate FrameShown(heap: Heap, frame: Frame) {
    Closed(heap) &&
    (frame.thisObject.Some? ==> Shown(heap, frame.thisObject.value)) &&
    (frame.visible.Some? ==> forall v <- frame.visible.value :: Resolves(heap, v.value))
  }

  /** What updateVariables puts under the root: "this" first when there is a receiver, then the locals. */
  function Roots(heap: Heap, frame: Option<Frame>): seq<Node>
    requires frame.Some? ==> FrameShown(heap, frame.value)
  {
    match frame
    case None => []
    case Some(f) =>
      var receiver := if f.thisObject.Some? then [ObjectNode(heap, "this", f.thisObject.value, 0)] else [];
      match f.visible
      case None => receiver + [Leaf("(no debug info - compile with -g)")]
      case Some(locals) => receiver + ValueNodes(heap, locals, 0)
  }

  /**
   * updateVariables on a frame with debug information: the receiver's node
   * first when the method is not static, then one depth-0 node per local, in
   * order.
   */
  lemma RootsOrder(heap: Heap, f: Frame)
    requires FrameShown(heap, f) && f.visible.Some?
    ensures var r := Roots(heap, Some(f));
            var k := if f.thisObject.Some? then 1 else 0;
            |r| == k + |f.visible.value| &&
            (f.thisObject.Some? ==> r[0] == ObjectNode(heap, "this", f.thisObject.value, 0)) &&
            r[k..] == ValueNodes(heap, f.visible.value, 0)
  {
  }

  /** InspectorPanel: the children of the "Variables" root. */
  class InspectorPanel {
    var roots: seq<Node>

    constructor ()
      ensures roots == []
    {
      roots := [];
    }

    method UpdateVariables(heap: Heap, frame: Option<Frame>)
      requires frame.Some? ==> FrameShown(heap, frame.value)
      modifies this
      ensures roots == Roots(heap, frame)
    {
      roots := [];
      if frame.None? {
        return;
      }
      var f := frame.value;
      var receiver: seq<Node> := [];
      if f.thisObject.Some? {
        receiver := [ObjectNode(heap, "this", f.thisObject.value, 0)];
      }
      match f.visible
      case None =>
        roots := receiver + [Leaf("(no debug info - compile with -g)")];
      case Some(locals) =>
        var nodes: seq<Node> := [];
        var i := 0;
        while i < |locals|
          invariant 0 <= i <= |locals|
          invariant forall v <- locals[..i] :: v in locals
          invariant nodes == ValueNodes(heap, locals[..i], 0)
        {
          var v := locals[i];
          assert v in locals && locals[..i + 1] == locals[..i] + [v];
          ValueNodesSnoc(heap, locals[..i], v, 0);
          nodes := nodes + [ValueNode(heap, v.name, v.typeName, v.value, 0)];
          i := i + 1;
        }
        assert locals[..i] == locals;
        roots := receiver + nodes;
    }

    method Clear()
      modifies this
      ensures roots == []
    {
      roots := [];
    }
  }
}
