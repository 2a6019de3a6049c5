/** What the gap lists and the current delays of a history are, stated over
    the positions at which each category is drawn.  These are the reference
    definitions the analyzer's loops are proved against.

    Every definition looks at a prefix of the history given by its length
    `k` (the draws h[0], ..., h[k - 1]), so that a loop that has visited the
    first `k` draws can be described without slicing the history. */
module Delays {
  import opened Categories
  import opened Statistics

  /** The positions below `k`, in increasing order, of the draws of `h` whose
      category under `s` is `c`. */
  function Occurrences(h: seq<int>, s: Scheme, c: int, k: nat): (r: seq<nat>)
    requires k <= |h|
    ensures |r| <= k
  {
    if k == 0 then []
    else
      var before := Occurrences(h, s, c, k - 1);
      if CategoryOf(s, h[k - 1]) == c then before + [k - 1] else before
  }

  /** The listed positions are draws of the category, below `k`, in strictly
      increasing order. */
  lemma {:induction false} OccurrencesSorted(h: seq<int>, s: Scheme, c: int, k: nat)
    requires k <= |h|
    ensures forall m :: 0 <= m < |Occurrences(h, s, c, k)| ==>
      Occurrences(h, s, c, k)[m] < k && CategoryOf(s, h[Occurrences(h, s, c, k)[m]]) == c
    ensures forall m, m' :: 0 <= m < m' < |Occurrences(h, s, c, k)| ==>
      Occurrences(h, s, c, k)[m] < Occurrences(h, s, c, k)[m']
  {
    if k > 0 {
      var before, r := Occurrences(h, s, c, k - 1), Occurrences(h, s, c, k);
      OccurrencesSorted(h, s, c, k - 1);
      assert forall m :: 0 <= m < |before| ==> r[m] == before[m];
    }
  }

  /** A position is listed exactly when its draw belongs to the category. */
  lemma {:induction false} OccurrencesMembership(h: seq<int>, s: Scheme, c: int, k: nat, i: int)
    requires k <= |h|
    ensures i in Occurrences(h, s, c, k) <==> 0 <= i < k && CategoryOf(s, h[i]) == c
  {
    OccurrencesSorted(h, s, c, k);
    if k > 0 && 0 <= i < k - 1 && CategoryOf(s, h[i]) == c {
      OccurrencesMembership(h, s, c, k - 1, i);
    }
  }

  /** The last element of a list of positions, or -1 when it is empty. */
  function LastIndex(o: seq<nat>): int {
    if o == [] then -1 else o[|o| - 1]
  }

  /** The position of the most recent draw of category `c`, or -1. */
  function LastSeen(h: seq<int>, s: Scheme, c: int): int {
    LastIndex(Occurrences(h, s, c, |h|))
  }

  /** The differences of successive elements among the first `k`. */
  function DifferencesWithin(o: seq<int>, k: nat): (r: seq<int>)
    requires k <= |o|
    ensures |r| == if k == 0 then 0 else k - 1
  {
    if k < 2 then []
    else DifferencesWithin(o, k - 1) + [o[k - 1] - o[k - 2]]
  }

  /** The differences of successive elements. */
  function Differences(o: seq<int>): seq<int> {
    DifferencesWithin(o, |o|)
  }

  lemma {:induction false} DifferencesWithinIndex(o: seq<int>, k: nat, m: nat)
    requires m + 1 < k <= |o|
    ensures DifferencesWithin(o, k)[m] == o[m + 1] - o[m]
  {
    if m + 2 < k {
      DifferencesWithinIndex(o, k - 1, m);
    }
  }

  /** The m-th difference is the step from element m to element m + 1. */
  lemma {:induction false} DifferencesIndex(o: seq<int>, m: nat)
    requires m + 1 < |o|
    ensures |Differences(o)| == |o| - 1
    ensures Differences(o)[m] == o[m + 1] - o[m]
  {
    DifferencesWithinIndex(o, |o|, m);
  }

  lemma {:induction false} DifferencesWithinPrefix(o: seq<int>, t: seq<int>, k: nat)
    requires k <= |o|
    ensures DifferencesWithin(o + t, k) == DifferencesWithin(o, k)
  {
    if k >= 2 {
      DifferencesWithinPrefix(o, t, k - 1);
      assert (o + t)[k - 1] == o[k - 1] && (o + t)[k - 2] == o[k - 2];
    }
  }

  /** Extending a list by one element adds one difference, unless the list was empty. */
  lemma {:induction false} DifferencesAppend(o: seq<int>, v: int)
    ensures Differences(o + [v]) == if o == [] then [] else Differences(o) + [v - o[|o| - 1]]
  {
    var w := o + [v];
    DifferencesWithinPrefix(o, [v], |o|);
    if o != [] {
      assert w[|o|] == v && w[|o| - 1] == o[|o| - 1];
    }
  }

  /** The gap list of category `c`: successive differences of the positions of its draws. */
  function GapList(h: seq<int>, s: Scheme, c: int): seq<int> {
    Differences(Occurrences(h, s, c, |h|))
  }

  /** A category has one gap fewer than draws (none when it is never drawn),
      and every gap lies between 1 and |h| - 1. */
  lemma {:induction false} GapListShape(h: seq<int>, s: Scheme, c: int)
    ensures var o := Occurrences(h, s, c, |h|);
      |GapList(h, s, c)| == if o == [] then 0 else |o| - 1
    ensures forall g :: g in GapList(h, s, c) ==> 1 <= g <= |h| - 1
    ensures h == [] ==> GapList(h, s, c) == []
  {
    var o := Occurrences(h, s, c, |h|);
    var gaps := GapList(h, s, c);
    OccurrencesSorted(h, s, c, |h|);
    forall g | g in gaps
      ensures 1 <= g <= |h| - 1
    {
      var m :| 0 <= m < |gaps| && gaps[m] == g;
      DifferencesIndex(o, m);
      assert o[m] < o[m + 1];
    }
  }

  /** The gaps of a category add up to the distance from its first draw to its last. */
  lemma {:induction false} GapSum(h: seq<int>, s: Scheme, c: int)
    requires Occurrences(h, s, c, |h|) != []
    ensures var o := Occurrences(h, s, c, |h|);
      Sum(GapList(h, s, c)) == LastSeen(h, s, c) - o[0]
  {
    DifferencesSum(Occurrences(h, s, c, |h|));
  }

  lemma {:induction false} DifferencesSum(o: seq<int>)
    requires o != []
    ensures Sum(Differences(o)) == o[|o| - 1] - o[0]
  {
    DifferencesWithinSum(o, |o|);
  }

  lemma {:induction false} DifferencesWithinSum(o: seq<int>, k: nat)
    requires 0 < k <= |o|
    ensures Sum(DifferencesWithin(o, k)) == o[k - 1] - o[0]
  {
    if k >= 2 {
      DifferencesWithinSum(o, k - 1);
      SumAppend(DifferencesWithin(o, k - 1), o[k - 1] - o[k - 2]);
    }
  }

  /** The walk the analyzer performs, one draw at a time: the last position
      of category `c` among the first `k` draws, or -1. */
  function LastWithin(h: seq<int>, s: Scheme, c: int, k: nat): int
    requires k <= |h|
  {
    if k == 0 then -1
    else if CategoryOf(s, h[k - 1]) == c then k - 1
    else LastWithin(h, s, c, k - 1)
  }

  /** The gaps of category `c` the walk has recorded after the first `k`
      draws: each draw of `c` after the first adds its distance to the
      previous one. */
  function GapsWithin(h: seq<int>, s: Scheme, c: int, k: nat): seq<int>
    requires k <= |h|
  {
    if k == 0 then []
    else
      var last := LastWithin(h, s, c, k - 1);
      if CategoryOf(s, h[k - 1]) == c && last != -1 then GapsWithin(h, s, c, k - 1) + [k - 1 - last]
      else GapsWithin(h, s, c, k - 1)
  }

  /** The walk computes the reference definitions: after `k` draws it holds
      the gap list and the last position of the first `k` draws. */
  lemma {:induction false} WalkMeaning(h: seq<int>, s: Scheme, c: int, k: nat)
    requires k <= |h|
    ensures GapsWithin(h, s, c, k) == Differences(Occurrences(h, s, c, k))
    ensures LastWithin(h, s, c, k) == LastIndex(Occurrences(h, s, c, k))
  {
    if k > 0 {
      var o := Occurrences(h, s, c, k - 1);
      WalkMeaning(h, s, c, k - 1);
      if CategoryOf(s, h[k - 1]) == c {
        DifferencesAppend(o, k - 1);
      }
    }
  }

  /** Appending a draw leaves the positions of the earlier draws as they were. */
  lemma {:induction false} OccurrencesPrefix(h: seq<int>, x: int, s: Scheme, c: int, k: nat)
    requires k <= |h|
    ensures Occurrences(h + [x], s, c, k) == Occurrences(h, s, c, k)
  {
    if k > 0 {
      assert (h + [x])[k - 1] == h[k - 1];
      OccurrencesPrefix(h, x, s, c, k - 1);
    }
  }

  /** Appending a draw makes it the last one seen of its own category. */
  lemma {:induction false} LastSeenAppend(h: seq<int>, x: int, s: Scheme, c: int)
    ensures LastSeen(h + [x], s, c) == if CategoryOf(s, x) == c then |h| else LastSeen(h, s, c)
  {
    OccurrencesGrow(h, x, s, c);
  }

  /** Appending a draw adds at most one gap, only to its own category, and
      only when that category had been drawn before; a zero adds none. */
  lemma {:induction false} GapListAppend(h: seq<int>, x: int, s: Scheme, c: int)
    ensures GapList(h + [x], s, c) ==
      if CategoryOf(s, x) == c && LastSeen(h, s, c) != -1 then GapList(h, s, c) + [|h| - LastSeen(h, s, c)]
      else GapList(h, s, c)
  {
    var o, o' := Occurrences(h, s, c, |h|), Occurrences(h + [x], s, c, |h| + 1);
    assert GapList(h + [x], s, c) == Differences(o');
    assert GapList(h, s, c) == Differences(o) && LastSeen(h, s, c) == LastIndex(o);
    OccurrencesGrow(h, x, s, c);
    DifferencesAppend(o, |h|);
  }

  /** The positions after appending a draw: the old ones, then the new
      draw's when it belongs to the category. */
  lemma {:induction false} OccurrencesGrow(h: seq<int>, x: int, s: Scheme, c: int)
    ensures Occurrences(h + [x], s, c, |h| + 1) ==
      if CategoryOf(s, x) == c then Occurrences(h, s, c, |h|) + [|h|] else Occurrences(h, s, c, |h|)
  {
    OccurrencesPrefix(h, x, s, c, |h|);
    assert (h + [x])[|h|] == x;
  }

  /** Draws since category `c` was last drawn among the first `k` draws, or
      `k` when it was not drawn among them. */
  function DelayWithin(h: seq<int>, s: Scheme, c: int, k: nat): (d: nat)
    requires k <= |h|
    ensures d <= k
  {
    if k == 0 then 0
    else if CategoryOf(s, h[k - 1]) == c then 0
    else DelayWithin(h, s, c, k - 1) + 1
  }

  /** Draws since category `c` was last drawn (|h| when it never was). */
  function CurrentDelay(h: seq<int>, s: Scheme, c: int): nat {
    DelayWithin(h, s, c, |h|)
  }

  lemma {:induction false} DelayWithinMeaning(h: seq<int>, s: Scheme, c: int, k: nat)
    requires k <= |h|
    ensures var d := DelayWithin(h, s, c, k);
      (d < k ==> CategoryOf(s, h[k - 1 - d]) == c) &&
      (forall j :: k - 1 - d < j < k ==> CategoryOf(s, h[j]) != c)
  {
    if k > 0 && CategoryOf(s, h[k - 1]) != c {
      DelayWithinMeaning(h, s, c, k - 1);
    }
  }

  /** With d the delay of `c`, `c` was drawn at position |h| - 1 - d and at
      no later position; when the delay is the whole length it was never
      drawn. */
  lemma {:induction false} CurrentDelayMeaning(h: seq<int>, s: Scheme, c: int)
    ensures var d := CurrentDelay(h, s, c);
      (d < |h| ==> CategoryOf(s, h[|h| - 1 - d]) == c) &&
      (forall j :: |h| - 1 - d < j < |h| ==> CategoryOf(s, h[j]) != c)
  {
    DelayWithinMeaning(h, s, c, |h|);
  }

  /** The delay is fixed by the category's most recent draw. */
  lemma {:induction false} CurrentDelayOfLast(h: seq<int>, s: Scheme, c: int, i: nat)
    requires i < |h| && CategoryOf(s, h[i]) == c
    requires forall j :: i < j < |h| ==> CategoryOf(s, h[j]) != c
    ensures CurrentDelay(h, s, c) == |h| - 1 - i
  {
    CurrentDelayMeaning(h, s, c);
  }

  /** A category that is never drawn has the history length as its delay. */
  lemma {:induction false} CurrentDelayAbsent(h: seq<int>, s: Scheme, c: int)
    requires forall j :: 0 <= j < |h| ==> CategoryOf(s, h[j]) != c
    ensures CurrentDelay(h, s, c) == |h|
  {
    CurrentDelayMeaning(h, s, c);
  }

  /** The delay agrees with the last position seen, the bookkeeping of the
      gap computation: it is the distance from that position to the end. */
  lemma {:induction false} CurrentDelayFromLastSeen(h: seq<int>, s: Scheme, c: int)
    ensures CurrentDelay(h, s, c) == if LastSeen(h, s, c) == -1 then |h| else |h| - 1 - LastSeen(h, s, c)
  {
    var o := Occurrences(h, s, c, |h|);
    OccurrencesSorted(h, s, c, |h|);
    if o == [] {
      forall j | 0 <= j < |h|
        ensures CategoryOf(s, h[j]) != c
      {
        OccurrencesMembership(h, s, c, |h|, j);
      }
      CurrentDelayAbsent(h, s, c);
    } else {
      var last := o[|o| - 1];
      forall j | last < j < |h|
        ensures CategoryOf(s, h[j]) != c
      {
        OccurrencesMembership(h, s, c, |h|, j);
      }
      CurrentDelayOfLast(h, s, c, last);
    }
  }

  lemma {:induction false} DelayWithinPrefix(h: seq<int>, x: int, s: Scheme, c: int, k: nat)
    requires k <= |h|
    ensures DelayWithin(h + [x], s, c, k) == DelayWithin(h, s, c, k)
  {
    if k > 0 {
      assert (h + [x])[k - 1] == h[k - 1];
      DelayWithinPrefix(h, x, s, c, k - 1);
    }
  }

  /** Appending a draw resets its own category's delay and ages the others by one. */
  lemma {:induction false} CurrentDelayAppend(h: seq<int>, x: int, s: Scheme, c: int)
    ensures CurrentDelay(h + [x], s, c) == if CategoryOf(s, x) == c then 0 else CurrentDelay(h, s, c) + 1
  {
    DelayWithinPrefix(h, x, s, c, |h|);
    assert (h + [x])[|h|] == x;
  }

  /** Every delay lies in [0, |h|]; it is 0 exactly for the category of the
      final draw, so when the final draw is the zero no category has delay 0. */
  lemma {:induction false} CurrentDelayZero(h: seq<int>, s: Scheme, c: int)
    requires 1 <= c <= 3
    ensures CurrentDelay(h, s, c) <= |h|
    ensures h == [] ==> CurrentDelay(h, s, c) == 0
    ensures h != [] ==> (CurrentDelay(h, s, c) == 0 <==> CategoryOf(s, h[|h| - 1]) == c)
    ensures h != [] && h[|h| - 1] == 0 ==> CurrentDelay(h, s, c) > 0
  {
  }
}
