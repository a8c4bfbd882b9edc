/**
 * One tracked breakpoint: where it was asked for, the request that implements
 * it, and the once/count policy that decides whether a hit halts.
 */
module BreakpointInfos {
  import opened Wrappers
  import opened JavaStrings
  import opened Vm

  /**
   * The state of a BreakpointInfo at one moment. A method-entry breakpoint has
   * no request (`None`, Java's null) and line -1.
   */
  datatype Entry = Entry(filename: string, line: int, request: Option<Handle>, once: bool, target: int, count: int)
  {
    /** shouldActivate: with a positive target the counter must have reached it; without one every hit halts. */
    predicate Activates() {
      target > 0 ==> count >= target
    }

    /** The entry after one more hit. */
    function Hit(): (e: Entry)
      ensures e.count == count + 1 && e.(count := count) == this
    {
      this.(count := count + 1)
    }
  }

  /** The first part of toString: `file:line`. */
  function Location(e: Entry): string {
    e.filename + ":" + IntToString(e.line)
  }

  /** The count suffix of toString: ` (count: c/t)`. */
  function CountTag(e: Entry): string {
    " (count: " + IntToString(e.count) + "/" + IntToString(e.target) + ")"
  }

  /**
   * toString: `file:line`, then ` (once)` for a once-entry, then the count
   * suffix when the entry has a positive target, in that order and nothing else.
   */
  function Describe(e: Entry): string {
    Location(e) + (if e.once then " (once)" else "") + (if e.target > 0 then CountTag(e) else "")
  }

  /** What toString's text is made of, and that it is one line ending in a significant character. */
  lemma DescribeShape(e: Entry)
    ensures StartsWith(Describe(e), Location(e))
    ensures e.once ==> StartsWith(Describe(e), Location(e) + " (once)")
    ensures e.target > 0 ==> EndsWith(Describe(e), CountTag(e))
    ensures |Describe(e)| == |Location(e)| + (if e.once then 7 else 0) + (if e.target > 0 then |CountTag(e)| else 0)
    ensures !IsTrimmable(Describe(e)[|Describe(e)| - 1])
    ensures NoNewline(e.filename) ==> NoNewline(Describe(e))
  {
    DescribeParts(e);
    DescribeLast(e);
    if NoNewline(e.filename) {
      DescribeOneLine(e);
    }
  }

  lemma DescribeParts(e: Entry)
    ensures StartsWith(Describe(e), Location(e))
    ensures e.once ==> StartsWith(Describe(e), Location(e) + " (once)")
    ensures e.target > 0 ==> EndsWith(Describe(e), CountTag(e))
    ensures |Describe(e)| == |Location(e)| + (if e.once then 7 else 0) + (if e.target > 0 then |CountTag(e)| else 0)
  {
    var onceTag: string := if e.once then " (once)" else "";
    var countTag: string := if e.target > 0 then CountTag(e) else "";
    ThreeParts(Location(e), onceTag, countTag);
  }

  /** The three pieces of a concatenation: its two prefixes, its suffix and its length. */
  lemma ThreeParts(a: string, b: string, c: string)
    ensures StartsWith(a + b + c, a) && StartsWith(a + b + c, a + b) && EndsWith(a + b + c, c)
    ensures |a + b + c| == |a| + |b| + |c|
  {
    PrefixOfConcat(a, b + c);
    assert a + b + c == a + (b + c);
    PrefixOfConcat(a + b, c);
    SuffixOfConcat(a + b, c);
  }

  lemma DescribeLast(e: Entry)
    ensures Describe(e) != [] && !IsTrimmable(Describe(e)[|Describe(e)| - 1])
  {
    var onceTag: string := if e.once then " (once)" else "";
    var countTag: string := if e.target > 0 then CountTag(e) else "";
    var r := Describe(e);
    assert r == Location(e) + onceTag + countTag;
    LastOfLocation(e);
    if countTag != [] {
      LastOfConcat(Location(e) + onceTag, countTag);
    } else if onceTag != [] {
      assert r == Location(e) + onceTag;
      LastOfConcat(Location(e), onceTag);
    } else {
      assert r == Location(e);
    }
  }

  lemma DescribeOneLine(e: Entry)
    requires NoNewline(e.filename)
    ensures NoNewline(Describe(e))
  {
    var onceTag: string := if e.once then " (once)" else "";
    var countTag: string := if e.target > 0 then CountTag(e) else "";
    assert Describe(e) == Location(e) + onceTag + countTag;
    NoNewlineOfLocation(e);
    NoNewlineConcat(Location(e), onceTag);
    NoNewlineConcat(Location(e) + onceTag, countTag);
    if e.target > 0 {
      NoNewlineOfCountTag(e);
    }
  }

  lemma LastOfLocation(e: Entry)
    ensures Location(e) != [] && !IsTrimmable(Location(e)[|Location(e)| - 1])
  {
    var d := IntToString(e.line);
    LastOfConcat(e.filename + ":", d);
    assert Location(e) == (e.filename + ":") + d;
  }

  lemma NoNewlineOfLocation(e: Entry)
    requires NoNewline(e.filename)
    ensures NoNewline(Location(e))
  {
    NoNewlineConcat(e.filename, ":");
    NoNewlineConcat(e.filename + ":", IntToString(e.line));
  }

  lemma NoNewlineOfCountTag(e: Entry)
    ensures NoNewline(CountTag(e))
  {
    var c, t := IntToString(e.count), IntToString(e.target);
    NoNewlineConcat(" (count: ", c);
    NoNewlineConcat(" (count: " + c, "/");
    NoNewlineConcat(" (count: " + c + "/", t);
    NoNewlineConcat(" (count: " + c + "/" + t, ")");
  }

  /** Without a positive target every hit halts. */
  lemma AlwaysActiveWithoutTarget(e: Entry)
    requires e.target <= 0
    ensures e.Activates() && e.Hit().Activates()
  {
  }

  /**
   * Starting from a fresh counter with target n > 0, the k-th hit halts exactly
   * when k >= n: the entry stays quiet for hits 1..n-1 and halts on hit n and on
   * every later hit.
   */
  lemma {:induction false} CountSchedule(e: Entry, k: nat)
    requires e.count == 0 && e.target > 0
    ensures HitTimes(e, k).Activates() <==> k >= e.target
    ensures HitTimes(e, k).count == k && HitTimes(e, k).(count := 0) == e
  {
    if k > 0 {
      CountSchedule(e, k - 1);
    }
  }

  /** The entry after `k` hits. */
  function HitTimes(e: Entry, k: nat): Entry {
    if k == 0 then e else HitTimes(e, k - 1).Hit()
  }

  /** Tracks one breakpoint; the counter and flags are updated in place. */
  class BreakpointInfo {
    var filename: string
    var lineNumber: int
    var request: Option<Handle>
    var isOnce: bool
    var targetCount: int
    var currentCount: int

    /** The current field values as one Entry. */
    function View(): Entry
      reads this
    {
      Entry(filename, lineNumber, request, isOnce, targetCount, currentCount)
    }

    /** A new entry keeps its arguments; it is not once, has target 0 and counter 0. */
    constructor (filename: string, lineNumber: int, request: Option<Handle>)
      ensures View() == Entry(filename, lineNumber, request, false, 0, 0)
    {
      this.filename := filename;
      this.lineNumber := lineNumber;
      this.request := request;
      this.isOnce := false;
      this.targetCount := 0;
      this.currentCount := 0;
    }

    /** shouldActivate, on the current field values. */
    predicate ShouldActivate()
      reads this
    {
      View().Activates()
    }

    /** Raises the counter by exactly one and changes no other field. */
    method IncrementCount()
      modifies this
      ensures View() == old(View()).Hit()
    {
      currentCount := currentCount + 1;
    }

    /** Changes only the once flag. */
    method SetOnce(once: bool)
      modifies this
      ensures View() == old(View()).(once := once)
    {
      isOnce := once;
    }

    /** Changes only the target. */
    method SetTargetCount(count: int)
      modifies this
      ensures View() == old(View()).(target := count)
    {
      targetCount := count;
    }
  }
}
