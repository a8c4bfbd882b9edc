/**
 * The listing shape the inspection commands build with a StringBuilder: a header
 * line, then one line per row, each followed by a newline, and the whole text
 * trimmed at the end.
 */
module TextBlocks {
  import opened JavaStrings

  /** Every row followed by a newline, appended in order. */
  function Terminated(rows: seq<string>): string {
    if rows == [] then "" else Terminated(rows[..|rows| - 1]) + rows[|rows| - 1] + "\n"
  }

  /** `header`, a newline, the terminated rows, and String.trim on the result. */
  function Block(header: string, rows: seq<string>): string {
    Trim(header + "\n" + Terminated(rows))
  }

  /** Appending one more row appends it and its newline. */
  lemma TerminatedSnoc(rows: seq<string>, row: string)
    ensures Terminated(rows + [row]) == Terminated(rows) + row + "\n"
  {
    assert (rows + [row])[..|rows|] == rows;
  }

  /** The first i + 1 elements are the first i and then element i. */
  lemma PrefixSnoc<T>(s: seq<T>, i: nat)
    requires i < |s|
    ensures s[..i + 1] == s[..i] + [s[i]]
  {
  }

  /** One more loop iteration: the text so far, the new row and its newline. */
  lemma BlockStep(header: string, rows: seq<string>, row: string)
    ensures header + "\n" + Terminated(rows + [row]) == (header + "\n" + Terminated(rows)) + row + "\n"
  {
    TerminatedSnoc(rows, row);
  }

  lemma JoinLines3(a: string, b: string, c: string)
    ensures JoinLines([a, b, c]) == a + "\n" + b + "\n" + c
  {
    assert [a, b, c][1..] == [b, c];
    assert [b, c][1..] == [c];
    assert JoinLines([b, c]) == b + "\n" + c;
    assert JoinLines([a, b, c]) == a + "\n" + (b + "\n" + c);
  }

  lemma JoinLines4(a: string, b: string, c: string, d: string)
    ensures JoinLines([a, b, c, d]) == a + "\n" + b + "\n" + c + "\n" + d
  {
    assert [a, b, c, d][1..] == [b, c, d];
    JoinLines3(b, c, d);
    assert JoinLines([a, b, c, d]) == a + "\n" + (b + "\n" + c + "\n" + d);
  }

  lemma {:induction false} JoinLinesSnoc(ls: seq<string>, last: string)
    requires |ls| >= 1
    ensures JoinLines(ls + [last]) == JoinLines(ls) + "\n" + last
  {
    if |ls| > 1 {
      JoinLinesSnoc(ls[1..], last);
      assert (ls + [last])[1..] == ls[1..] + [last];
    }
  }

  /** Terminated rows are the joined rows plus a final newline. */
  lemma {:induction false} TerminatedJoin(rows: seq<string>)
    requires rows != []
    ensures Terminated(rows) == JoinLines(rows) + "\n"
  {
    var init := rows[..|rows| - 1];
    if init != [] {
      TerminatedJoin(init);
      JoinLinesSnoc(init, rows[|rows| - 1]);
      assert init + [rows[|rows| - 1]] == rows;
    } else {
      assert rows == [rows[0]];
    }
  }

  /** Newline-free rows, each terminated, split back into the rows and one empty piece after the last newline. */
  lemma SplitTerminated(rows: seq<string>)
    requires forall r <- rows :: NoNewline(r)
    ensures SplitLines(Terminated(rows)) == rows + [""]
  {
    if rows != [] {
      TerminatedJoin(rows);
      JoinLinesSnoc(rows, "");
      assert JoinLines(rows) + "\n" + "" == Terminated(rows);
      assert forall l <- rows + [""] :: NoNewline(l);
      SplitJoinLines(rows + [""]);
    }
  }

  lemma {:induction false} LastOfJoinLines(ls: seq<string>)
    requires |ls| >= 1 && ls[|ls| - 1] != []
    ensures JoinLines(ls) != [] && JoinLines(ls)[|JoinLines(ls)| - 1] == ls[|ls| - 1][|ls[|ls| - 1]| - 1]
  {
    if |ls| > 1 {
      LastOfJoinLines(ls[1..]);
      assert JoinLines(ls) == (ls[0] + "\n") + JoinLines(ls[1..]);
    }
  }

  /** A block whose header starts with a significant character starts with that character. */
  lemma BlockStart(header: string, rows: seq<string>)
    requires header != [] && !IsTrimmable(header[0])
    ensures Block(header, rows) != [] && Block(header, rows)[0] == header[0]
  {
    var s := header + "\n" + Terminated(rows);
    assert s[0] == header[0];
    var l := TrimLeft(s);
    assert |l| == |s|;
    assert l[0] == header[0];
    var r := TrimRight(l);
    assert r != [];
  }

  /**
   * When the header starts with a significant character, no piece holds a
   * newline, and the text ends in a significant character, trimming only drops
   * the final newline: the result reads back as the header line followed by
   * exactly the rows, in order.
   */
  lemma BlockLines(header: string, rows: seq<string>)
    requires header != [] && !IsTrimmable(header[0]) && NoNewline(header)
    requires forall r <- rows :: NoNewline(r)
    requires rows == [] ==> !IsTrimmable(header[|header| - 1])
    requires rows != [] ==> rows[|rows| - 1] != [] && !IsTrimmable(rows[|rows| - 1][|rows[|rows| - 1]| - 1])
    ensures Block(header, rows) == JoinLines([header] + rows)
    ensures SplitLines(Block(header, rows)) == [header] + rows
  {
    var ls := [header] + rows;
    var x := JoinLines(ls);
    if rows == [] {
      assert x == header;
      assert header + "\n" + Terminated(rows) == x + "\n";
    } else {
      TerminatedJoin(rows);
      assert ls[1..] == rows;
      assert x == header + "\n" + JoinLines(rows);
      assert header + "\n" + Terminated(rows) == x + "\n";
      assert ls[|ls| - 1] == rows[|rows| - 1];
    }
    LastOfJoinLines(ls);
    assert x[0] == header[0] by {
      if rows != [] {
        assert x == header + ("\n" + JoinLines(rows));
      }
    }
    TrimDropsFinalNewline(x + "\n");
    assert (x + "\n")[..|x|] == x;
    assert forall l <- ls :: NoNewline(l);
    SplitJoinLines(ls);
  }
}
