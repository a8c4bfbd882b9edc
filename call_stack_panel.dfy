/**
 * The call-stack list of the debugger window: one row per frame of the halted
 * thread, and the frame whose row is selected handed to the window, which then
 * shows that frame's source line and variables.
 */
module CallStackPanels {
  import opened Wrappers
  import opened JavaStrings
  import opened JavaInt
  import opened Vm

  /** Row `i` of the list: `[%d] %s.%s:%d` with the index, declaring type, method and line. */
  function StackRow(i: nat, f: Frame): string {
    "[" + IntToString(i) + "]" + Place(f)
  }

  /** The part of a row after the bracketed index: ` %s.%s:%d`. */
  function Place(f: Frame): string {
    " " + f.typeName + "." + f.methodName + ":" + IntToString(f.line)
  }

  /** The rows for a non-empty stack, frame by frame. */
  function Rows(fs: seq<Frame>): (r: seq<string>)
    ensures |r| == |fs|
  {
    seq(|fs|, k requires 0 <= k < |fs| => StackRow(k, fs[k]))
  }

  lemma RowsExtend(fs: seq<Frame>, i: nat)
    requires i < |fs|
    ensures Rows(fs[..i + 1]) == Rows(fs[..i]) + [StackRow(i, fs[i])]
  {
    var a, b := Rows(fs[..i + 1]), Rows(fs[..i]) + [StackRow(i, fs[i])];
    forall k | 0 <= k < |a|
      ensures a[k] == b[k]
    {
      assert fs[..i + 1][k] == fs[k];
    }
  }

  /** A stack that has frames to show: neither null nor empty. */
  predicate HasFrames(stack: Option<seq<Frame>>) {
    stack.Some? && stack.value != []
  }

  /** updateStack's list: the "(empty)" placeholder, or one row per frame. */
  function Entries(stack: Option<seq<Frame>>): seq<string> {
    if HasFrames(stack) then Rows(stack.value) else ["(empty)"]
  }

  /** The list never comes out empty, and row k of a shown stack describes frame k. */
  lemma EntriesDescribeFrames(stack: Option<seq<Frame>>)
    ensures Entries(stack) != []
    ensures !HasFrames(stack) ==> Entries(stack) == ["(empty)"]
    ensures HasFrames(stack) ==>
              |Entries(stack)| == |stack.value| &&
              forall k :: 0 <= k < |stack.value| ==> Entries(stack)[k] == StackRow(k, stack.value[k])
  {
  }

  /** The placeholder row is never the row of a frame. */
  lemma PlaceholderIsNoFrame(i: nat, f: Frame)
    ensures StackRow(i, f) != "(empty)"
  {
    assert StackRow(i, f)[0] == '[';
  }

  /** CallStackPanel. */
  class CallStackPanel {
    var entries: seq<string>
    var frames: Option<seq<Frame>>
    /** The selected row of the list, `None` when nothing is selected. */
    var selected: Option<nat>
    /** The frames passed to the window's onFrameSelected, in order. */
    var forwarded: seq<Frame>

    constructor ()
      ensures entries == [] && frames.None? && selected.None? && forwarded == []
    {
      entries := [];
      frames := None;
      selected := None;
      forwarded := [];
    }

    /**
     * The list's selection listener: selecting row `index` (-1 for none) hands
     * the frame of that row to the window when the stack holds one.
     */
    method Select(index: int)
      requires -1 <= index < |entries|
      modifies this
      ensures selected == (if index >= 0 then Some(index as nat) else None)
      ensures forwarded == old(forwarded) +
                (if frames.Some? && 0 <= index < |frames.value| then [frames.value[index]] else [])
      ensures entries == old(entries) && frames == old(frames)
    {
      selected := if index >= 0 then Some(index as nat) else None;
      if frames.Some? && 0 <= index < |frames.value| {
        forwarded := forwarded + [frames.value[index]];
      }
    }

    /**
     * updateStack: the list is rebuilt row by row; a stack with frames gets its
     * first row selected, which hands the top frame to the window.
     */
    method UpdateStack(stackFrames: Option<seq<Frame>>)
      modifies this
      ensures frames == stackFrames && entries == Entries(stackFrames)
      ensures selected == (if HasFrames(stackFrames) then Some(0) else None)
      ensures forwarded == old(forwarded) + (if HasFrames(stackFrames) then [stackFrames.value[0]] else [])
    {
      frames := stackFrames;
      entries := [];
      selected := None;
      if !HasFrames(stackFrames) {
        entries := ["(empty)"];
        return;
      }
      var fs := stackFrames.value;
      var i := 0;
      while i < |fs|
        invariant 0 <= i <= |fs|
        invariant entries == Rows(fs[..i])
        invariant frames == stackFrames && selected.None? && forwarded == old(forwarded)
      {
        RowsExtend(fs, i);
        entries := entries + [StackRow(i, fs[i])];
        i := i + 1;
      }
      assert fs[..i] == fs;
      if entries != [] {
        Select(0);
      }
    }

    /** clear: no rows, no stack and so no selection. */
    method Clear()
      modifies this
      ensures entries == [] && frames.None? && selected.None? && forwarded == old(forwarded)
    {
      entries := [];
      frames := None;
      selected := None;
    }
  }
}
