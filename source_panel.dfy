/**
 * The source view: the text of the loaded file, a gutter with one numbered row
 * per line and a '*' on breakpoint lines, clicks on the gutter that toggle
 * breakpoints, and the character range that highlights the current line.
 */
module SourcePanels {
  import opened Wrappers
  import opened JavaStrings
  import opened TextBlocks

  /** Java's `/` on int: the quotient truncated toward zero. */
  function JavaDiv(a: int, b: int): (q: int)
    requires b != 0
    ensures b > 0 && a >= 0 ==> q == a / b
  {
    var q := (if a < 0 then -a else a) / (if b < 0 then -b else b);
    if (a < 0) == (b < 0) then q else -q
  }

  /**
   * getLineFromY: the row under a click at height `y` with rows `lineHeight`
   * high, counted from 1; -1 when the division fails (a zero height).
   */
  function LineFromY(y: int, lineHeight: int): int {
    if lineHeight == 0 then -1 else JavaDiv(y, lineHeight) + 1
  }

  /** A click inside the gutter selects the row it falls in, and that row number is positive. */
  lemma ClickRow(y: int, lineHeight: int)
    requires lineHeight > 0 && y >= 0
    ensures var line := LineFromY(y, lineHeight);
            line > 0 && (line - 1) * lineHeight <= y < line * lineHeight
  {
  }

  /** Java truncates toward zero, so a click just above the gutter still lands on row 1. */
  lemma ClickAboveFirstRow(y: int, lineHeight: int)
    requires lineHeight > 0 && -lineHeight < y < 0
    ensures LineFromY(y, lineHeight) == 1
  {
  }

  /** A breakpoint line set after a toggle: removed when present, added when absent. */
  function Toggled(lines: set<int>, line: int): (r: set<int>)
    ensures line in r <==> line !in lines
    ensures forall l :: l != line ==> (l in r <==> l in lines)
  {
    if line in lines then lines - {line} else lines + {line}
  }

  /** Toggling the same line twice restores the set. */
  lemma ToggleTwice(lines: set<int>, line: int)
    ensures Toggled(Toggled(lines, line), line) == lines
  {
  }

  /** One gutter row: the breakpoint marker, then `%3d` and a space. */
  function GutterRow(i: int, marked: set<int>): (r: string)
    ensures NoNewline(r) && |r| >= 5
    ensures r[0] == '*' <==> i in marked
  {
    var mark: string := if i in marked then "*" else " ";
    PadLeft3OneLine(i);
    NoNewlineConcat(mark, PadLeft3(i));
    NoNewlineConcat(mark + PadLeft3(i), " ");
    mark + PadLeft3(i) + " "
  }

  /** Rows 1 to n. */
  function GutterRows(n: nat, marked: set<int>): (r: seq<string>)
    ensures |r| == n
  {
    seq(n, i => GutterRow(i + 1, marked))
  }

  /** The number of rows: String.split("\n", -1) keeps the trailing empty piece. */
  function LineCount(text: string): nat {
    |SplitLines(text)|
  }

  /** updateLineNumbers: every row followed by a newline. */
  function Gutter(text: string, marked: set<int>): string {
    GutterText(LineCount(text), marked)
  }

  /** The first n rows, each followed by a newline. */
  function GutterText(n: nat, marked: set<int>): string {
    Terminated(GutterRows(n, marked))
  }

  /** One more row appends that row and a newline. */
  lemma GutterTextSnoc(n: nat, marked: set<int>)
    ensures GutterText(n + 1, marked) == GutterText(n, marked) + GutterRow(n + 1, marked) + "\n"
  {
    TerminatedSnoc(GutterRows(n, marked), GutterRow(n + 1, marked));
    GutterRowsSnoc(n, marked);
  }

  lemma GutterRowsSnoc(n: nat, marked: set<int>)
    ensures GutterRows(n + 1, marked) == GutterRows(n, marked) + [GutterRow(n + 1, marked)]
  {
    var rows, more := GutterRows(n, marked), GutterRows(n + 1, marked);
    assert |more| == n + 1 && more[n] == GutterRow(n + 1, marked);
    assert forall k :: 0 <= k < n ==> more[k] == rows[k];
  }

  /**
   * The gutter reads back as one row per line of the text and a final empty
   * piece; row i (from 1) starts with '*' exactly when i is a breakpoint line.
   */
  lemma GutterLines(text: string, marked: set<int>)
    ensures var rows := SplitLines(Gutter(text, marked));
            |rows| == LineCount(text) + 1 && rows[LineCount(text)] == "" &&
            forall i :: 1 <= i <= LineCount(text) ==>
              rows[i - 1] == GutterRow(i, marked) && (rows[i - 1][0] == '*' <==> i in marked)
  {
    var n := LineCount(text);
    var rs := GutterRows(n, marked);
    GutterRowsOneLine(n, marked);
    SplitTerminated(rs);
    MarkedRows(n, marked);
  }

  lemma GutterRowsOneLine(n: nat, marked: set<int>)
    ensures forall r <- GutterRows(n, marked) :: NoNewline(r)
  {
  }

  lemma MarkedRows(n: nat, marked: set<int>)
    ensures forall i :: 1 <= i <= n ==>
              GutterRows(n, marked)[i - 1] == GutterRow(i, marked) &&
              (GutterRow(i, marked)[0] == '*' <==> i in marked)
  {
  }

  /**
   * A file read line by line and stored with a newline after every line has
   * one more row than the file has lines: the piece after the last newline is
   * empty, and the gutter numbers it too.
   */
  lemma LoadedFileRows(lines: seq<string>)
    requires forall l <- lines :: NoNewline(l)
    ensures LineCount(Terminated(lines)) == |lines| + 1
    ensures SplitLines(Terminated(lines))[..|lines|] == lines
    ensures SplitLines(Terminated(lines))[|lines|] == ""
  {
    SplitTerminated(lines);
    assert (lines + [""])[..|lines|] == lines;
  }

  /**
   * highlightLine's range: nothing for a line outside 1..count; otherwise the
   * start is the sum of the earlier lines' lengths plus their newlines, and the
   * end adds the line's own length.
   */
  function HighlightRange(text: string, line: int): (r: Option<(nat, nat)>)
    ensures r.Some? <==> 1 <= line <= LineCount(text)
  {
    var lines := SplitLines(text);
    if line <= 0 || line > |lines| then None
    else
      var start := LineStart(lines, line - 1);
      Some((start, start + |lines[line - 1]|))
  }

  /** `text[start..end]` is exactly `l`. */
  predicate Spans(text: string, start: int, end: int, l: string) {
    0 <= start <= end <= |text| && text[start..end] == l
  }

  /** For a line that exists, the highlighted range covers exactly that line and lies within the text. */
  lemma HighlightCoversLine(text: string, line: int)
    requires 1 <= line <= LineCount(text)
    ensures var range := HighlightRange(text, line).value;
            Spans(text, range.0, range.1, SplitLines(text)[line - 1])
  {
    var lines := SplitLines(text);
    var start := LineStart(lines, line - 1);
    var end := start + |lines[line - 1]|;
    assert HighlightRange(text, line).value == (start, end);
    assert Spans(text, start, end, lines[line - 1]) by {
      LineSlice(lines, line - 1);
      JoinSplitLines(text);
    }
  }

  /** SourceCodePanel. */
  class SourceCodePanel {
    var text: string
    var gutter: string
    var breakpointLines: set<int>
    var currentSourcePath: Option<string>
    var currentLine: int
    /**
     * The range last applied by highlightLine. Replacing the text drops the
     * document's attributes, but the window always highlights again after a
     * load, so the field keeps the last applied range.
     */
    var highlight: Option<(nat, nat)>
    /** The addBreakpoint calls made on the debugger window, in order. */
    var requested: seq<(string, int)>

    constructor ()
      ensures text == "" && gutter == "" && breakpointLines == {} && currentSourcePath.None?
      ensures currentLine == -1 && highlight.None? && requested == []
    {
      text := "";
      gutter := "";
      breakpointLines := {};
      currentSourcePath := None;
      currentLine := -1;
      highlight := None;
      requested := [];
    }

    /**
     * loadSourceFile with the file's lines already read (`None` when the file
     * does not exist): the text is every line followed by a newline.
     */
    method LoadSourceFile(path: string, contents: Option<seq<string>>)
      modifies this
      ensures currentSourcePath == Some(path)
      ensures contents.None? ==> text == "// Source file not found: " + path && gutter == old(gutter)
      ensures contents.Some? ==> text == Terminated(contents.value) && gutter == Gutter(text, breakpointLines)
      ensures breakpointLines == old(breakpointLines) && requested == old(requested)
      ensures currentLine == old(currentLine) && highlight == old(highlight)
    {
      currentSourcePath := Some(path);
      match contents
      case None =>
        text := "// Source file not found: " + path;
      case Some(lines) =>
        text := Terminated(lines);
        UpdateLineNumbers();
    }

    /** updateLineNumbers: one row per line, built in a loop. */
    method UpdateLineNumbers()
      modifies this
      ensures gutter == Gutter(text, breakpointLines)
      ensures text == old(text) && breakpointLines == old(breakpointLines) && requested == old(requested)
      ensures currentSourcePath == old(currentSourcePath) && currentLine == old(currentLine) && highlight == old(highlight)
    {
      var marked := breakpointLines;
      var lines := LineCount(text);
      var sb := "";
      var i := 1;
      while i <= lines
        invariant 1 <= i <= lines + 1
        invariant sb == GutterText(i - 1, marked)
        invariant unchanged(this)
      {
        GutterTextSnoc(i - 1, marked);
        sb := sb + GutterRow(i, marked) + "\n";
        i := i + 1;
      }
      gutter := sb;
    }

    /** toggleBreakpoint: only an addition is passed on to the debugger, and only once a file is loaded. */
    method ToggleBreakpoint(line: int)
      modifies this
      ensures breakpointLines == Toggled(old(breakpointLines), line)
      ensures requested == old(requested) +
                (if line !in old(breakpointLines) && old(currentSourcePath).Some?
                 then [(old(currentSourcePath).value, line)] else [])
      ensures gutter == Gutter(text, breakpointLines)
      ensures text == old(text) && currentSourcePath == old(currentSourcePath)
      ensures currentLine == old(currentLine) && highlight == old(highlight)
    {
      if line in breakpointLines {
        breakpointLines := breakpointLines - {line};
      } else {
        breakpointLines := breakpointLines + {line};
        if currentSourcePath.Some? {
          requested := requested + [(currentSourcePath.value, line)];
        }
      }
      UpdateLineNumbers();
    }

    /** The gutter's mouse listener: a click toggles the row under it when that row is positive. */
    method MouseClicked(y: int, lineHeight: int)
      modifies this
      ensures var line := LineFromY(y, lineHeight);
              breakpointLines == (if line > 0 then Toggled(old(breakpointLines), line) else old(breakpointLines))
      ensures var line := LineFromY(y, lineHeight);
              requested == old(requested) +
                (if line > 0 && line !in old(breakpointLines) && old(currentSourcePath).Some?
                 then [(old(currentSourcePath).value, line)] else [])
      ensures LineFromY(y, lineHeight) > 0 ==> gutter == Gutter(text, breakpointLines)
      ensures LineFromY(y, lineHeight) <= 0 ==> gutter == old(gutter)
      ensures text == old(text) && currentSourcePath == old(currentSourcePath)
      ensures currentLine == old(currentLine) && highlight == old(highlight)
    {
      var clickedLine := LineFromY(y, lineHeight);
      if clickedLine > 0 {
        ToggleBreakpoint(clickedLine);
      }
    }

    /** highlightLine: the start position is accumulated over the earlier lines. */
    method HighlightLine(line: int)
      modifies this
      ensures currentLine == line && highlight == HighlightRange(text, line)
      ensures text == old(text) && gutter == old(gutter) && breakpointLines == old(breakpointLines)
      ensures requested == old(requested) && currentSourcePath == old(currentSourcePath)
    {
      var range: Option<(nat, nat)> := None;
      var t := text;
      var lines := SplitLines(t);
      if 0 < line <= |lines| {
        var startPos := 0;
        var i := 0;
        while i < line - 1
          invariant 0 <= i <= line - 1
          invariant startPos == LineStart(lines, i)
          invariant unchanged(this)
        {
          startPos := startPos + |lines[i]| + 1;
          i := i + 1;
        }
        var endPos := startPos + |lines[line - 1]|;
        range := Some((startPos, endPos));
      }
      assert range == HighlightRange(t, line);
      currentLine := line;
      highlight := range;
    }
  }
}
