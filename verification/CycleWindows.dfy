/**
 * Cycle windows in a time line of events, stated by position: which start an end
 * closes, and which numbers the generated cycle identifiers carry.
 */
module CycleWindows {
  import opened Decimal
  import opened Wrappers

  // The three kinds of cycle that may be open side by side.
  datatype Slot = Review | Repair | Conversation

  datatype Mark = Starts(slot: Slot) | Ends(slot: Slot) | Neither

  datatype Window = Window(slot: Slot, first: nat, last: nat)

  // The start that is open after the first n events, if any: a later start of the slot replaces it.
  function OpenStart(ms: seq<Mark>, n: nat, slot: Slot): (r: Option<nat>)
    requires n <= |ms|
    ensures r.Some? ==> r.value < n
  {
    if n == 0 then None
    else if ms[n - 1] == Starts(slot) then Some(n - 1)
    else if ms[n - 1] == Ends(slot) then None
    else OpenStart(ms, n - 1, slot)
  }

  // The windows closed by the first n events, in order of their ends.
  function Closed(ms: seq<Mark>, n: nat): (ws: seq<Window>)
    requires n <= |ms|
    ensures forall w :: w in ws ==> w.first < w.last < n
  {
    if n == 0 then []
    else
      var before := Closed(ms, n - 1);
      match ms[n - 1]
      case Ends(slot) =>
        (match OpenStart(ms, n - 1, slot)
         case Some(i) => before + [Window(slot, i, n - 1)]
         case None => before)
      case _ => before
  }

  // A window opened at an event is numbered by the windows closed before that event.
  function CycleId(ms: seq<Mark>, slot: Slot, first: nat): string
    requires first <= |ms|
  {
    NumberedId(slot, |Closed(ms, first)| + 1)
  }

  function Prefix(slot: Slot): string {
    match slot
    case Review => "review_cycle_"
    case Repair => "repair_cycle_"
    case Conversation => "conv_loop_"
  }

  function NumberedId(slot: Slot, n: nat): string {
    Prefix(slot) + Digits(n)
  }

  // ---- What the windows are --------------------------------------------------

  // A start and an end of one slot with neither in between.
  ghost predicate Matched(ms: seq<Mark>, w: Window) {
    w.first < w.last < |ms| && ms[w.first] == Starts(w.slot) && ms[w.last] == Ends(w.slot) &&
    forall k :: w.first < k < w.last ==> ms[k] != Starts(w.slot) && ms[k] != Ends(w.slot)
  }

  lemma {:induction false} OpenStartIsLastMark(ms: seq<Mark>, n: nat, slot: Slot, i: nat)
    requires n <= |ms|
    ensures OpenStart(ms, n, slot) == Some(i) <==>
      i < n && ms[i] == Starts(slot) && forall k :: i < k < n ==> ms[k] != Starts(slot) && ms[k] != Ends(slot)
  {
    if n > 0 {
      OpenStartIsLastMark(ms, n - 1, slot, i);
    }
  }

  // Exactly the matched pairs are reported, and none twice.
  lemma {:induction false} ClosedIffMatched(ms: seq<Mark>, n: nat, w: Window)
    requires n <= |ms|
    ensures w in Closed(ms, n) <==> Matched(ms, w) && w.last < n
  {
    if n > 0 {
      ClosedIffMatched(ms, n - 1, w);
      OpenStartIsLastMark(ms, n - 1, w.slot, w.first);
    }
  }

  lemma {:induction false} ClosedGrows(ms: seq<Mark>, m: nat, n: nat)
    requires m <= n <= |ms|
    ensures Closed(ms, m) <= Closed(ms, n)
    decreases n
  {
    if m < n {
      ClosedGrows(ms, m, n - 1);
    }
  }

  lemma {:induction false} ClosedInOrderOfEnds(ms: seq<Mark>, n: nat, a: nat, b: nat)
    requires n <= |ms| && a < b < |Closed(ms, n)|
    ensures Closed(ms, n)[a].last < Closed(ms, n)[b].last < n
    decreases n
  {
    var before := Closed(ms, n - 1);
    ClosedGrows(ms, n - 1, n);
    if b < |before| {
      ClosedInOrderOfEnds(ms, n - 1, a, b);
    } else {
      assert before[a] in before;
      ClosedIffMatched(ms, n - 1, before[a]);
    }
  }

  // Windows of one slot follow one another.
  lemma SameSlotWindowsFollow(ms: seq<Mark>, n: nat, a: nat, b: nat)
    requires n <= |ms| && a < b < |Closed(ms, n)|
    requires Closed(ms, n)[a].slot == Closed(ms, n)[b].slot
    ensures Closed(ms, n)[a].last < Closed(ms, n)[b].first
  {
    var v, w := Closed(ms, n)[a], Closed(ms, n)[b];
    ClosedInOrderOfEnds(ms, n, a, b);
    assert v in Closed(ms, n) && w in Closed(ms, n);
    ClosedIffMatched(ms, n, v);
    ClosedIffMatched(ms, n, w);
  }

  // A start that is still open lies behind every closed window of its slot.
  lemma OpenStartFollows(ms: seq<Mark>, n: nat, a: nat, slot: Slot)
    requires n <= |ms| && a < |Closed(ms, n)| && Closed(ms, n)[a].slot == slot
    requires OpenStart(ms, n, slot).Some?
    ensures Closed(ms, n)[a].last < OpenStart(ms, n, slot).value
  {
    var v := Closed(ms, n)[a];
    assert v in Closed(ms, n);
    ClosedIffMatched(ms, n, v);
    OpenStartIsLastMark(ms, n, slot, OpenStart(ms, n, slot).value);
  }

  // ---- Identifiers ---------------------------------------------------------

  lemma PrefixesDiffer(ms: seq<Mark>, s: Slot, i: nat, t: Slot, j: nat)
    requires i <= |ms| && j <= |ms| && s != t
    ensures CycleId(ms, s, i) != CycleId(ms, t, j)
  {
    assert CycleId(ms, Review, i)[2] == CycleId(ms, Review, j)[2] == 'v';
    assert CycleId(ms, Repair, i)[2] == CycleId(ms, Repair, j)[2] == 'p';
    assert CycleId(ms, Conversation, i)[2] == CycleId(ms, Conversation, j)[2] == 'n';
  }

  lemma LaterStartHasNewId(ms: seq<Mark>, slot: Slot, i: nat, j: nat)
    requires i <= |ms| && j <= |ms| && |Closed(ms, i)| != |Closed(ms, j)|
    ensures CycleId(ms, slot, i) != CycleId(ms, slot, j)
  {
    if CycleId(ms, slot, i) == CycleId(ms, slot, j) {
      PrefixedInjective(Prefix(slot), |Closed(ms, i)| + 1, |Closed(ms, j)| + 1);
    }
  }

  // A window's own end makes the count of closed windows grow.
  lemma CountGrows(ms: seq<Mark>, w: Window, j: nat)
    requires Matched(ms, w) && w.last < j <= |ms|
    ensures |Closed(ms, w.first)| < |Closed(ms, j)|
  {
    ClosedGrows(ms, w.first, w.last);
    ClosedGrows(ms, w.last + 1, j);
    OpenStartIsLastMark(ms, w.last, w.slot, w.first);
    assert |Closed(ms, w.last + 1)| == |Closed(ms, w.last)| + 1;
  }

  // A window closed before event j was numbered lower than anything opened at j.
  lemma ClosedBeforeHasOtherId(ms: seq<Mark>, n: nat, a: nat, slot: Slot, j: nat)
    requires n <= |ms| && a < |Closed(ms, n)| && j <= |ms|
    requires Closed(ms, n)[a].slot == slot ==> Closed(ms, n)[a].last < j
    ensures Closed(ms, n)[a].first <= |ms|
    ensures CycleId(ms, Closed(ms, n)[a].slot, Closed(ms, n)[a].first) != CycleId(ms, slot, j)
  {
    var v := Closed(ms, n)[a];
    assert v in Closed(ms, n);
    ClosedIffMatched(ms, n, v);
    if v.slot != slot {
      PrefixesDiffer(ms, v.slot, v.first, slot, j);
    } else {
      CountGrows(ms, v, j);
      LaterStartHasNewId(ms, slot, v.first, j);
    }
  }

  // No two closed windows share an identifier.
  lemma ClosedIdsDiffer(ms: seq<Mark>, n: nat, a: nat, b: nat)
    requires n <= |ms| && a < b < |Closed(ms, n)|
    ensures Closed(ms, n)[a].first <= |ms| && Closed(ms, n)[b].first <= |ms|
    ensures CycleId(ms, Closed(ms, n)[a].slot, Closed(ms, n)[a].first)
         != CycleId(ms, Closed(ms, n)[b].slot, Closed(ms, n)[b].first)
  {
    var v, w := Closed(ms, n)[a], Closed(ms, n)[b];
    assert v in Closed(ms, n) && w in Closed(ms, n);
    ClosedIffMatched(ms, n, v);
    ClosedIffMatched(ms, n, w);
    if v.slot == w.slot {
      SameSlotWindowsFollow(ms, n, a, b);
    }
    ClosedBeforeHasOtherId(ms, n, a, w.slot, w.first);
  }

  // Nor does an open start share one with a closed window.
  lemma OpenIdDiffers(ms: seq<Mark>, n: nat, a: nat, slot: Slot)
    requires n <= |ms| && a < |Closed(ms, n)| && OpenStart(ms, n, slot).Some?
    ensures Closed(ms, n)[a].first <= |ms|
    ensures CycleId(ms, Closed(ms, n)[a].slot, Closed(ms, n)[a].first)
         != CycleId(ms, slot, OpenStart(ms, n, slot).value)
  {
    if Closed(ms, n)[a].slot == slot {
      OpenStartFollows(ms, n, a, slot);
    }
    ClosedBeforeHasOtherId(ms, n, a, slot, OpenStart(ms, n, slot).value);
  }
}
