/**
 * The parts of java.lang.String and java.util.Formatter that the debugger's
 * text handling relies on: trim, split on `\s+`, split on a newline with a
 * negative limit, lastIndexOf, indexOf, replace and decimal formatting.
 */
module JavaStrings {
  import opened Wrappers

  /** Characters matched by `\s` in a Java regular expression (ASCII classes only). */
  predicate IsRegexSpace(c: char) {
    c == ' ' || c == '\t' || c == '\n' || c == '\U{B}' || c == '\U{C}' || c == '\r'
  }

  /** Characters that String.trim removes at either end: every code point up to U+0020. */
  predicate IsTrimmable(c: char) {
    c <= ' '
  }

  predicate NoRegexSpace(s: string) {
    forall i :: 0 <= i < |s| ==> !IsRegexSpace(s[i])
  }

  predicate NoNewline(s: string) {
    '\n' !in s
  }

  predicate StartsWith(s: string, prefix: string) {
    |prefix| <= |s| && s[..|prefix|] == prefix
  }

  predicate EndsWith(s: string, suffix: string) {
    |suffix| <= |s| && s[|s| - |suffix|..] == suffix
  }

  // ---------------------------------------------------------------- concatenation

  lemma PrefixOfConcat(a: string, b: string)
    ensures StartsWith(a + b, a)
  {
    assert (a + b)[..|a|] == a;
  }

  lemma SuffixOfConcat(a: string, b: string)
    ensures EndsWith(a + b, b)
  {
    assert (a + b)[|a + b| - |b|..] == b;
  }

  lemma LastOfConcat(a: string, b: string)
    requires b != []
    ensures (a + b)[|a + b| - 1] == b[|b| - 1]
  {
  }

  lemma NoNewlineConcat(a: string, b: string)
    ensures NoNewline(a + b) <==> NoNewline(a) && NoNewline(b)
  {
    if NoNewline(a) && NoNewline(b) {
      forall i | 0 <= i < |a + b| ensures (a + b)[i] != '\n' {
        if i < |a| {
          assert (a + b)[i] == a[i] && a[i] in a;
        } else {
          assert (a + b)[i] == b[i - |a|] && b[i - |a|] in b;
        }
      }
    }
    if NoNewline(a + b) {
      forall i | 0 <= i < |a| ensures a[i] != '\n' {
        assert a[i] == (a + b)[i] && (a + b)[i] in a + b;
      }
      forall i | 0 <= i < |b| ensures b[i] != '\n' {
        assert b[i] == (a + b)[|a| + i] && (a + b)[|a| + i] in a + b;
      }
    }
  }

  // ---------------------------------------------------------------- trim

  function TrimLeft(s: string): (r: string)
    ensures |r| <= |s| && r == s[|s| - |r|..]
    ensures r == [] || !IsTrimmable(r[0])
    ensures forall i :: 0 <= i < |s| - |r| ==> IsTrimmable(s[i])
  {
    if s != [] && IsTrimmable(s[0]) then TrimLeft(s[1..]) else s
  }

  function TrimRight(s: string): (r: string)
    ensures |r| <= |s| && r == s[..|r|]
    ensures r == [] || !IsTrimmable(r[|r| - 1])
    ensures forall i :: |r| <= i < |s| ==> IsTrimmable(s[i])
  {
    if s != [] && IsTrimmable(s[|s| - 1]) then TrimRight(s[..|s| - 1]) else s
  }

  /** String.trim: both ends stripped of characters up to U+0020. */
  function Trim(s: string): (r: string)
    ensures |r| <= |s|
    ensures r == [] || (!IsTrimmable(r[0]) && !IsTrimmable(r[|r| - 1]))
  {
    TrimRight(TrimLeft(s))
  }

  /** A string whose two ends are already significant is its own trim. */
  lemma TrimOfTrimmed(s: string)
    requires s == [] || (!IsTrimmable(s[0]) && !IsTrimmable(s[|s| - 1]))
    ensures Trim(s) == s
  {
  }

  /** A text that starts with a significant character and ends with one newline after a significant character loses only that newline. */
  lemma TrimDropsFinalNewline(s: string)
    requires |s| >= 2 && !IsTrimmable(s[0])
    requires s[|s| - 1] == '\n' && !IsTrimmable(s[|s| - 2])
    ensures Trim(s) == s[..|s| - 1]
  {
    assert TrimLeft(s) == s;
    assert TrimRight(s[..|s| - 1]) == s[..|s| - 1];
  }

  // ---------------------------------------------------------------- split on \s+

  /** The end of the word that starts at `i`: the first space at or after `i`, or the end. */
  function WordEnd(s: string, i: nat): (j: nat)
    requires i <= |s|
    ensures i <= j <= |s|
    ensures forall k :: i <= k < j ==> !IsRegexSpace(s[k])
    ensures j == |s| || IsRegexSpace(s[j])
    decreases |s| - i
  {
    if i == |s| || IsRegexSpace(s[i]) then i else WordEnd(s, i + 1)
  }

  /** The maximal runs of non-space characters, in order. */
  function Words(s: string): (ws: seq<string>)
    ensures forall w <- ws :: w != [] && NoRegexSpace(w)
    decreases |s|
  {
    if s == [] then []
    else if IsRegexSpace(s[0]) then Words(s[1..])
    else
      var j := WordEnd(s, 0);
      assert j > 0;
      assert NoRegexSpace(s[..j]) by {
        forall i | 0 <= i < j ensures !IsRegexSpace(s[..j][i]) {
          assert s[..j][i] == s[i];
        }
      }
      [s[..j]] + Words(s[j..])
  }

  /**
   * String.split("\\s+"): the pieces between maximal runs of whitespace. A run at
   * the start leaves an empty first piece, trailing empty pieces are dropped, and
   * a string without any run (the empty one included) is its own single piece.
   */
  function Split(s: string): (parts: seq<string>)
    ensures s != [] && !IsRegexSpace(s[0]) ==> parts == Words(s) && |parts| >= 1
    ensures forall k :: 1 <= k < |parts| ==> parts[k] != [] && NoRegexSpace(parts[k])
  {
    if s == [] then [""]
    else if IsRegexSpace(s[0]) && Words(s) != [] then
      var ws := Words(s);
      assert forall k :: 0 <= k < |ws| ==> ws[k] in ws;
      [""] + ws
    else
      var ws := Words(s);
      assert forall k :: 0 <= k < |ws| ==> ws[k] in ws;
      ws
  }

  /** Words separated by single spaces, as an operator types them. */
  function JoinSpaced(ws: seq<string>): string {
    if ws == [] then ""
    else if |ws| == 1 then ws[0]
    else ws[0] + " " + JoinSpaced(ws[1..])
  }

  lemma WordEndIs(s: string, i: nat, j: nat)
    requires i <= j <= |s|
    requires forall k :: i <= k < j ==> !IsRegexSpace(s[k])
    requires j == |s| || IsRegexSpace(s[j])
    ensures WordEnd(s, i) == j
    decreases j - i
  {
    if i < j {
      WordEndIs(s, i + 1, j);
    }
  }

  /** A word followed by nothing or by whitespace is read back as that word. */
  lemma {:induction false} WordsCons(w: string, rest: string)
    requires w != [] && NoRegexSpace(w)
    requires rest == [] || IsRegexSpace(rest[0])
    ensures Words(w + rest) == [w] + Words(rest)
  {
    var s := w + rest;
    WordEndIs(s, 0, |w|);
    assert s[..|w|] == w && s[|w|..] == rest;
  }

  /** Splitting what `JoinSpaced` wrote gives the words back. */
  lemma {:induction false} WordsOfJoinSpaced(ws: seq<string>)
    requires forall w <- ws :: w != [] && NoRegexSpace(w)
    ensures Words(JoinSpaced(ws)) == ws
  {
    if ws == [] {
    } else if |ws| == 1 {
      assert ws[0] in ws;
      WordsCons(ws[0], "");
      assert ws[0] + "" == ws[0];
    } else {
      var tail := JoinSpaced(ws[1..]);
      assert ws[0] in ws;
      assert forall w <- ws[1..] :: w in ws;
      WordsOfJoinSpaced(ws[1..]);
      WordsAfterSpace(tail);
      WordsCons(ws[0], " " + tail);
      assert JoinSpaced(ws) == ws[0] + (" " + tail);
      assert [ws[0]] + ws[1..] == ws;
    }
  }

  lemma WordsAfterSpace(t: string)
    ensures Words(" " + t) == Words(t)
  {
    assert (" " + t)[1..] == t;
  }

  /** A trimmed, non-blank line always has a first token, and it is a word. */
  lemma SplitOfTrimmed(line: string)
    requires Trim(line) != []
    ensures Split(Trim(line)) == Words(Trim(line)) && |Split(Trim(line))| >= 1
  {
  }

  // ---------------------------------------------------------------- split on \n

  /** String.split("\n", -1): every newline separates two pieces; empty pieces are kept. */
  function SplitLines(s: string): (ls: seq<string>)
    ensures |ls| >= 1
    ensures forall l <- ls :: NoNewline(l)
  {
    if s == [] then [""]
    else
      var rest := SplitLines(s[1..]);
      if s[0] == '\n' then [""] + rest
      else
        assert rest[0] in rest;
        assert NoNewline([s[0]] + rest[0]);
        [[s[0]] + rest[0]] + rest[1..]
  }

  /** Lines glued back together with one newline between neighbours. */
  function JoinLines(ls: seq<string>): string
    requires |ls| >= 1
  {
    if |ls| == 1 then ls[0] else ls[0] + "\n" + JoinLines(ls[1..])
  }

  /** Joining the pieces of a split gives the text back. */
  lemma {:induction false} JoinSplitLines(s: string)
    ensures JoinLines(SplitLines(s)) == s
  {
    if s != [] {
      var rest := SplitLines(s[1..]);
      JoinSplitLines(s[1..]);
      if s[0] == '\n' {
        assert JoinLines([""] + rest) == "\n" + JoinLines(rest) by {
          assert ([""] + rest)[1..] == rest;
        }
        assert s == [s[0]] + s[1..];
      } else {
        var ls := [[s[0]] + rest[0]] + rest[1..];
        if |rest| == 1 {
          assert JoinLines(ls) == [s[0]] + rest[0];
        } else {
          assert ls[1..] == rest[1..];
          assert JoinLines(ls) == [s[0]] + (rest[0] + "\n" + JoinLines(rest[1..]));
        }
        assert s == [s[0]] + s[1..];
      }
    }
  }

  /** A newline-free head stays in the first piece. */
  lemma {:induction false} SplitLinesAppend(a: string, b: string)
    requires NoNewline(a)
    ensures SplitLines(a + b) == [a + SplitLines(b)[0]] + SplitLines(b)[1..]
  {
    if a != [] {
      assert a[0] in a && forall c <- a[1..] :: c in a;
      SplitLinesAppend(a[1..], b);
      SplitLinesPrepend(a[0], a[1..] + b);
      assert a + b == [a[0]] + (a[1..] + b);
      assert [a[0]] + (a[1..] + SplitLines(b)[0]) == a + SplitLines(b)[0];
    } else {
      assert a + b == b;
      var sb := SplitLines(b);
      assert sb == [sb[0]] + sb[1..];
      assert a + sb[0] == sb[0];
    }
  }

  /** A character other than a newline joins the first piece. */
  lemma SplitLinesPrepend(c: char, t: string)
    requires c != '\n'
    ensures SplitLines([c] + t) == [[c] + SplitLines(t)[0]] + SplitLines(t)[1..]
  {
    assert ([c] + t)[1..] == t;
  }

  lemma SplitLinesCons(a: string, b: string)
    requires NoNewline(a)
    ensures SplitLines(a + "\n" + b) == [a] + SplitLines(b)
  {
    SplitLinesAppend(a, "\n" + b);
    assert ("\n" + b)[1..] == b;
    var sn := SplitLines("\n" + b);
    assert sn == [""] + SplitLines(b);
    assert sn[1..] == SplitLines(b);
    assert a + sn[0] == a;
    assert a + "\n" + b == a + ("\n" + b);
  }

  /** Splitting what `JoinLines` wrote gives the lines back. */
  lemma {:induction false} SplitJoinLines(ls: seq<string>)
    requires |ls| >= 1
    requires forall l <- ls :: NoNewline(l)
    ensures SplitLines(JoinLines(ls)) == ls
  {
    if |ls| == 1 {
      SplitLinesAppend(ls[0], "");
      assert ls[0] + "" == ls[0];
    } else {
      SplitJoinLines(ls[1..]);
      SplitLinesCons(ls[0], JoinLines(ls[1..]));
      assert [ls[0]] + ls[1..] == ls;
    }
  }

  /** Where line `k` (from 0) starts in `JoinLines(ls)`: each earlier line and its newline come before it. */
  function LineStart(ls: seq<string>, k: nat): nat
    requires k <= |ls|
  {
    if k == 0 then 0 else LineStart(ls, k - 1) + |ls[k - 1]| + 1
  }

  lemma {:induction false} LineStartShift(ls: seq<string>, k: nat)
    requires 1 <= k <= |ls|
    ensures LineStart(ls, k) == |ls[0]| + 1 + LineStart(ls[1..], k - 1)
  {
    if k > 1 {
      LineStartShift(ls, k - 1);
    }
  }

  /** Line `k` sits exactly at [LineStart, LineStart + its length) of the joined text. */
  lemma {:induction false} LineSlice(ls: seq<string>, k: nat)
    requires k < |ls|
    ensures LineStart(ls, k) + |ls[k]| <= |JoinLines(ls)|
    ensures JoinLines(ls)[LineStart(ls, k)..LineStart(ls, k) + |ls[k]|] == ls[k]
  {
    if k == 0 {
      if |ls| > 1 {
        assert JoinLines(ls) == ls[0] + ("\n" + JoinLines(ls[1..]));
      }
    } else {
      var tail := JoinLines(ls[1..]);
      LineSlice(ls[1..], k - 1);
      LineStartShift(ls, k);
      var p := |ls[0]| + 1;
      assert JoinLines(ls) == (ls[0] + "\n") + tail;
      assert |ls[0] + "\n"| == p;
      var a, b := LineStart(ls[1..], k - 1), LineStart(ls[1..], k - 1) + |ls[k]|;
      assert ((ls[0] + "\n") + tail)[p + a..p + b] == tail[a..b];
    }
  }

  // ---------------------------------------------------------------- search and replace

  predicate OccursAt(s: string, pat: string, k: nat) {
    k + |pat| <= |s| && s[k..k + |pat|] == pat
  }

  function IndexOfFrom(s: string, pat: string, from: nat): (r: Option<nat>)
    requires from <= |s|
    ensures r.Some? ==> from <= r.value && OccursAt(s, pat, r.value)
    ensures forall k :: from <= k && (r.None? || k < r.value) ==> !OccursAt(s, pat, k)
    decreases |s| - from
  {
    if from + |pat| > |s| then None
    else if s[from..from + |pat|] == pat then Some(from)
    else if from == |s| then None
    else IndexOfFrom(s, pat, from + 1)
  }

  /** String.indexOf(pat): the first occurrence, `None` standing for -1. */
  function IndexOf(s: string, pat: string): (r: Option<nat>)
    ensures r.Some? ==> OccursAt(s, pat, r.value)
    ensures forall k :: 0 <= k && (r.None? || k < r.value) ==> !OccursAt(s, pat, k)
  {
    IndexOfFrom(s, pat, 0)
  }

  /** String.lastIndexOf(c): the last position holding `c`, `None` standing for -1. */
  function LastIndexOf(s: string, c: char): (r: Option<nat>)
    ensures r.Some? ==> r.value < |s| && s[r.value] == c
    ensures forall k :: (if r.None? then 0 else r.value + 1) <= k < |s| ==> s[k] != c
  {
    if s == [] then None
    else if s[|s| - 1] == c then Some(|s| - 1)
    else LastIndexOf(s[..|s| - 1], c)
  }

  /** String.replace(a, b) for one-character strings: every `a` becomes `b`. */
  function Replace(s: string, a: char, b: char): (r: string)
    ensures |r| == |s|
    ensures forall i :: 0 <= i < |s| ==> r[i] == (if s[i] == a then b else s[i])
  {
    if s == [] then [] else Replace(s[..|s| - 1], a, b) + [if s[|s| - 1] == a then b else s[|s| - 1]]
  }

  // ---------------------------------------------------------------- decimal formatting

  predicate IsDigit(c: char) {
    '0' <= c <= '9'
  }

  predicate AllDigits(s: string) {
    forall c <- s :: IsDigit(c)
  }

  function DigitChar(d: nat): (c: char)
    requires d < 10
    ensures IsDigit(c)
  {
    ('0' as int + d) as char
  }

  /** The decimal digits of `n`, most significant first, no leading zero. */
  function NatToString(n: nat): (r: string)
    ensures |r| >= 1 && AllDigits(r)
    ensures |r| > 1 ==> r[0] != '0'
  {
    if n < 10 then [DigitChar(n)] else NatToString(n / 10) + [DigitChar(n % 10)]
  }

  /** Integer.toString / `%d`: a minus sign for negative values, then the digits. */
  function IntToString(n: int): (r: string)
    ensures r != [] && IsDigit(r[|r| - 1])
    ensures NoNewline(r) && NoRegexSpace(r)
  {
    var digits := NatToString(if n < 0 then -n else n);
    assert forall c <- digits :: IsDigit(c);
    assert forall i :: 0 <= i < |digits| ==> digits[i] in digits;
    if n < 0 then
      var r := "-" + digits;
      assert forall i :: 1 <= i < |r| ==> r[i] == digits[i - 1];
      r
    else digits
  }

  /** `%3d`: right-aligned in a field of three characters, wider numbers untouched. */
  function PadLeft3(n: int): string {
    var d := IntToString(n);
    if |d| >= 3 then d else seq(3 - |d|, _ => ' ') + d
  }

  /** The padded number is at least three wide, ends in the digits and is blank before them. */
  lemma PadLeft3Shape(n: int)
    ensures var r, d := PadLeft3(n), IntToString(n);
            |r| >= 3 && EndsWith(r, d) && forall i :: 0 <= i < |r| - |d| ==> r[i] == ' '
  {
    var d := IntToString(n);
    if |d| < 3 {
      var r := seq(3 - |d|, _ => ' ') + d;
      assert r[|r| - |d|..] == d;
    }
  }

  /** A padded number is one line. */
  lemma PadLeft3OneLine(n: int)
    ensures |PadLeft3(n)| >= 3 && NoNewline(PadLeft3(n))
  {
    var d := IntToString(n);
    var p := PadLeft3(n);
    PadLeft3Shape(n);
    forall k | 0 <= k < |p|
      ensures p[k] != '\n'
    {
      if k >= |p| - |d| {
        assert p[k] == d[k - (|p| - |d|)] && d[k - (|p| - |d|)] in d;
      }
    }
  }
}
