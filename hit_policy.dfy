/**
 * What handleSpecialBreakpoint decides for a breakpoint event, stated on the
 * list of tracked entries: which entry the event belongs to, whether the hit
 * halts the debuggee, and how the list changes.
 */
module HitPolicy {
  import opened Wrappers
  import opened Vm
  import opened BreakpointInfos

  /** The first `k` entries have a request, and it is not `h`. */
  predicate Skips(es: seq<Entry>, h: Handle, k: int) {
    0 <= k <= |es| && forall j :: 0 <= j < k ==> es[j].request.Some? && es[j].request.value != h
  }

  /**
   * The list walk: it stops at the first entry whose request is `h`, or fails at
   * the first entry that has no request (comparing a null request throws).
   */
  datatype Scan = MatchAt(at: nat) | NullAt(at: nat) | NoMatch

  function ScanFrom(es: seq<Entry>, h: Handle, i: nat): (r: Scan)
    requires Skips(es, h, i)
    ensures r.MatchAt? ==> Skips(es, h, r.at) && r.at < |es| && es[r.at].request == Some(h)
    ensures r.NullAt? ==> Skips(es, h, r.at) && r.at < |es| && es[r.at].request.None?
    ensures r.NoMatch? ==> Skips(es, h, |es|)
    decreases |es| - i
  {
    if i == |es| then NoMatch
    else if es[i].request.None? then NullAt(i)
    else if es[i].request.value == h then MatchAt(i)
    else ScanFrom(es, h, i + 1)
  }

  function ScanFor(es: seq<Entry>, h: Handle): Scan {
    ScanFrom(es, h, 0)
  }

  /** The three ways a hit ends: resume quietly, halt for commands, or fail on a null request. */
  datatype Decision = Suppress | Halt | NullRequest

  /** The decision, the list afterwards, and the request deleted from the VM, if any. */
  datatype HitResult = HitResult(decision: Decision, entries: seq<Entry>, deleted: Option<Handle>)

  /** handleSpecialBreakpoint on the list of entries for an event raised by request `h`. */
  function OnHit(es: seq<Entry>, h: Handle): HitResult {
    match ScanFor(es, h)
    case NullAt(_) => HitResult(NullRequest, es, None)
    case NoMatch => HitResult(Halt, es, None)
    case MatchAt(i) =>
      var e := es[i].Hit();
      if !e.Activates() then HitResult(Suppress, es[i := e], None)
      else if e.once then HitResult(Halt, es[..i] + es[i + 1..], Some(h))
      else HitResult(Halt, es[i := e], None)
  }

  /** An event whose request no entry carries halts and leaves the list as it was. */
  lemma UntrackedHalts(es: seq<Entry>, h: Handle)
    requires forall e <- es :: e.request.Some? && e.request.value != h
    ensures OnHit(es, h) == HitResult(Halt, es, None)
  {
    assert forall j :: 0 <= j < |es| ==> es[j] in es;
    assert ScanFor(es, h) == NoMatch;
  }

  /**
   * Only the first entry carrying `h` is touched, and its counter goes up by
   * exactly one. If it then qualifies and is a once-entry it is removed and its
   * request deleted; the other entries keep their values and their order.
   */
  lemma MatchedEntry(es: seq<Entry>, h: Handle, i: nat)
    requires i < |es| && es[i].request == Some(h) && Skips(es, h, i)
    ensures ScanFor(es, h) == MatchAt(i)
    ensures var r := OnHit(es, h);
      match r.decision
      case Suppress => !es[i].Hit().Activates() && r.entries == es[i := es[i].Hit()] && r.deleted.None?
      case Halt =>
        es[i].Hit().Activates() &&
        (if es[i].once then r.entries == es[..i] + es[i + 1..] && r.deleted == Some(h)
         else r.entries == es[i := es[i].Hit()] && r.deleted.None?)
      case NullRequest => false
  {
    ScanFromPast(es, h, 0, i);
  }

  /** Scanning from any point before the first `h` finds that same entry. */
  lemma {:induction false} ScanFromPast(es: seq<Entry>, h: Handle, from: nat, i: nat)
    requires from <= i < |es| && es[i].request == Some(h) && Skips(es, h, i)
    ensures ScanFrom(es, h, from) == MatchAt(i)
    decreases i - from
  {
    if from < i {
      ScanFromPast(es, h, from + 1, i);
    }
  }

  /** A method-entry entry (null request) ahead of every entry carrying `h` makes the hit fail. */
  lemma NullRequestAhead(es: seq<Entry>, h: Handle, j: nat)
    requires j < |es| && es[j].request.None? && Skips(es, h, j)
    ensures OnHit(es, h) == HitResult(NullRequest, es, None)
  {
    NullFromPast(es, h, 0, j);
  }

  lemma {:induction false} NullFromPast(es: seq<Entry>, h: Handle, from: nat, j: nat)
    requires from <= j < |es| && es[j].request.None? && Skips(es, h, j)
    ensures ScanFrom(es, h, from) == NullAt(j)
    decreases j - from
  {
    if from < j {
      NullFromPast(es, h, from + 1, j);
    }
  }

  /** The list after the entry at `i` has been hit `k` times. */
  function AfterHits(es: seq<Entry>, i: nat, k: nat): seq<Entry>
    requires i < |es|
  {
    es[i := HitTimes(es[i], k)]
  }

  /**
   * A count breakpoint (target n > 0, not once, fresh counter): hit number k + 1
   * suppresses while k + 1 < n and halts from hit n on, every time; the entry is
   * never removed and its counter records every hit.
   */
  lemma CountBreakpointSchedule(es: seq<Entry>, h: Handle, i: nat, k: nat)
    requires i < |es| && es[i].request == Some(h) && Skips(es, h, i)
    requires es[i].count == 0 && es[i].target > 0 && !es[i].once
    ensures OnHit(AfterHits(es, i, k), h).decision == (if k + 1 >= es[i].target then Halt else Suppress)
    ensures OnHit(AfterHits(es, i, k), h).entries == AfterHits(es, i, k + 1)
  {
    var cur := AfterHits(es, i, k);
    CountSchedule(es[i], k);
    CountSchedule(es[i], k + 1);
    assert Skips(cur, h, i) by {
      forall j | 0 <= j < i ensures cur[j] == es[j] { }
    }
    MatchedEntry(cur, h, i);
    assert cur[i].Hit() == HitTimes(es[i], k + 1);
    assert cur[i := cur[i].Hit()] == AfterHits(es, i, k + 1);
  }

  /** A once-entry without target halts on its first hit and is gone afterwards. */
  lemma OnceBreakpointHaltsOnce(es: seq<Entry>, h: Handle, i: nat)
    requires i < |es| && es[i].request == Some(h) && Skips(es, h, i)
    requires es[i].once && es[i].target <= 0
    ensures OnHit(es, h) == HitResult(Halt, es[..i] + es[i + 1..], Some(h))
  {
    MatchedEntry(es, h, i);
  }
}
