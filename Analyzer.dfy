/** The roulette analyzer: a draw history that grows by appends or is
    replaced wholesale, and the delay analyses computed from it. */
module Analyzer {
  import opened Categories
  import opened Delays
  import opened Statistics

  /** The order-preserving filter that keeps the values in [0, 36]. */
  function InRange(numbers: seq<int>): (r: seq<int>)
    ensures |r| <= |numbers|
    ensures forall i :: 0 <= i < |r| ==> IsOutcome(r[i])
  {
    if numbers == [] then []
    else
      var last := numbers[|numbers| - 1];
      InRange(numbers[..|numbers| - 1]) + (if IsOutcome(last) then [last] else [])
  }

  /** Filtering distributes over concatenation, so it keeps the accepted
      values in their original order and drops the others. */
  lemma {:induction false} InRangeConcat(a: seq<int>, b: seq<int>)
    ensures InRange(a + b) == InRange(a) + InRange(b)
  {
    if b == [] {
      assert a + b == a;
    } else {
      var init := b[..|b| - 1];
      assert (a + b)[..|a + b| - 1] == a + init;
      assert (a + b)[|a + b| - 1] == b[|b| - 1];
      InRangeConcat(a, init);
    }
  }

  /** Each accepted value is kept as often as it occurs; every other value is
      dropped entirely. */
  lemma {:induction false} InRangeCounts(numbers: seq<int>, x: int)
    ensures multiset(InRange(numbers))[x] == if IsOutcome(x) then multiset(numbers)[x] else 0
  {
    if numbers != [] {
      var init := numbers[..|numbers| - 1];
      InRangeCounts(init, x);
      assert numbers == init + [numbers[|numbers| - 1]];
    }
  }

  /** Filtering an already filtered history changes nothing: loading a
      history again gives the same history. */
  lemma {:induction false} InRangeIdempotent(numbers: seq<int>)
    ensures InRange(InRange(numbers)) == InRange(numbers)
  {
    if numbers != [] {
      var init := numbers[..|numbers| - 1];
      var last := numbers[|numbers| - 1];
      InRangeIdempotent(init);
      InRangeConcat(InRange(init), if IsOutcome(last) then [last] else []);
    }
  }

  /** A list with no value in [0, 36] loads as the empty history. */
  lemma {:induction false} InRangeNoneValid(numbers: seq<int>)
    requires forall i :: 0 <= i < |numbers| ==> !IsOutcome(numbers[i])
    ensures InRange(numbers) == []
  {
    if numbers != [] {
      InRangeNoneValid(numbers[..|numbers| - 1]);
    }
  }

  /** Category `c` already holds its delay, or still holds the placeholder 0
      when the second pass has not reached it yet. */
  ghost predicate Settled(delays: map<int, int>, h: seq<int>, s: Scheme, c: int, upto: int) {
    c in delays && (delays[c] == CurrentDelay(h, s, c) || (upto <= c && delays[c] == 0))
  }

  /** The gaps and the last position of category `c` recorded by the walk
      over the first `i` draws. */
  ghost predicate Tracked(delays: map<int, seq<int>>, lastSeen: map<int, int>, h: seq<int>, s: Scheme, c: int, i: nat)
    requires i <= |h|
  {
    c in delays && c in lastSeen &&
    delays[c] == GapsWithin(h, s, c, i) && lastSeen[c] == LastWithin(h, s, c, i)
  }

  /** The signal of category `c` of a history at sigma level `level`; only a
      category with more than one gap can raise. */
  function CategorySignal(h: seq<int>, s: Scheme, c: int, level: int): (r: Result<Signal>)
    ensures r.Err? ==> |GapList(h, s, c)| > 1
    ensures r == Err(KeyError) <==> |GapList(h, s, c)| > 1 && !(1 <= level <= 3)
  {
    SignalFor(StatsOf(GapList(h, s, c)), CurrentDelay(h, s, c), level)
  }

  class RouletteAnalyzer {
    /** The draws, oldest first. */
    var history: seq<int>

    ghost predicate Valid()
      reads this
    {
      forall i :: 0 <= i < |history| ==> IsOutcome(history[i])
    }

    constructor ()
      ensures Valid() && history == []
    {
      history := [];
    }

    /** Records one draw; values outside [0, 36] are ignored. */
    method AddNumber(n: int)
      requires Valid()
      modifies this
      ensures Valid()
      ensures history == if IsOutcome(n) then old(history) + [n] else old(history)
    {
      if 0 <= n <= 36 {
        history := history + [n];
      }
    }

    /** Replaces the history by the values of `numbers` in [0, 36], in order. */
    method LoadHistory(numbers: seq<int>)
      modifies this
      ensures Valid()
      ensures history == InRange(numbers)
    {
      history := InRange(numbers);
    }

    /** The gap lists of the three categories: walking the history once, each
        non-zero category records the distance to its previous appearance. */
    method CalculateDelays(tipo: string) returns (delays: map<int, seq<int>>)
      ensures forall c :: c in delays <==> 1 <= c <= 3
      ensures forall c :: 1 <= c <= 3 ==> delays[c] == GapList(history, SchemeOf(tipo), c)
    {
      delays := map[1 := [], 2 := [], 3 := []];
      var lastSeen := map[1 := -1, 2 := -1, 3 := -1];
      var s := SchemeOf(tipo);
      var h := history;
      for i := 0 to |h|
        invariant Tracked(delays, lastSeen, h, s, 1, i)
        invariant Tracked(delays, lastSeen, h, s, 2, i)
        invariant Tracked(delays, lastSeen, h, s, 3, i)
        invariant forall c :: c in delays <==> 1 <= c <= 3
      {
        var category := Lookup(s, h[i]);
        if category > 0 {
          if lastSeen[category] != -1 {
            delays := delays[category := delays[category] + [i - lastSeen[category]]];
          }
          lastSeen := lastSeen[category := i];
        }
      }
      WalkMeaning(h, s, 1, |h|);
      WalkMeaning(h, s, 2, |h|);
      WalkMeaning(h, s, 3, |h|);
    }

    /** Per-category statistics over the gap lists. */
    method DelayStatistics(tipo: string) returns (stats: map<int, DelayStats>)
      ensures forall c :: c in stats <==> 1 <= c <= 3
      ensures forall c :: 1 <= c <= 3 ==> stats[c] == StatsOf(GapList(history, SchemeOf(tipo), c))
    {
      var delays := CalculateDelays(tipo);
      stats := map c | c in delays :: StatsOf(delays[c]);
    }

    /** Draws since each category last appeared, by two backward passes: the
        first finds the most recent categorised draw, the second rescans every
        category whose delay is still 0 and falls back to the history length
        when the category never appears. */
    method CurrentDelays(tipo: string) returns (delays: map<int, int>)
      ensures forall c :: c in delays <==> 1 <= c <= 3
      ensures forall c :: 1 <= c <= 3 ==> delays[c] == CurrentDelay(history, SchemeOf(tipo), c)
    {
      if |history| == 0 {
        return map[1 := 0, 2 := 0, 3 := 0];
      }
      delays := map[1 := 0, 2 := 0, 3 := 0];
      var s := SchemeOf(tipo);
      var n := |history|;

      for i := n downto 0
        invariant forall j :: i <= j < n ==> CategoryOf(s, history[j]) == 0
        invariant delays == map[1 := 0, 2 := 0, 3 := 0]
      {
        var category := Lookup(s, history[i]);
        if category > 0 {
          delays := delays[category := n - 1 - i];
          CurrentDelayOfLast(history, s, category, i);
          break;
        }
      }

      for category := 1 to 4
        invariant forall c :: c in delays <==> 1 <= c <= 3
        invariant Settled(delays, history, s, 1, category)
        invariant Settled(delays, history, s, 2, category)
        invariant Settled(delays, history, s, 3, category)
      {
        if delays[category] == 0 {
          var found := false;
          ghost var before := delays;
          for i := n downto 0
            invariant forall j :: i <= j < n ==> CategoryOf(s, history[j]) != category
            invariant !found && delays == before
          {
            var drawn := Lookup(s, history[i]);
            if drawn == category {
              delays := delays[category := n - 1 - i];
              CurrentDelayOfLast(history, s, category, i);
              found := true;
              break;
            }
          }
          if !found {
            CurrentDelayAbsent(history, s, category);
            delays := delays[category := n];
          }
        }
      }
    }

    /** The betting signals at sigma level `level`: statistics and current
        delays combined per category, raising as the source does. */
    method BettingSignals(tipo: string, level: int) returns (r: Result<map<int, Signal>>)
      ensures var s := SchemeOf(tipo);
        r.Ok? <==> forall c :: 1 <= c <= 3 ==> CategorySignal(history, s, c, level).Ok?
      ensures var s := SchemeOf(tipo);
        r.Ok? ==>
          (forall c :: c in r.value <==> 1 <= c <= 3) &&
          (forall c :: 1 <= c <= 3 ==> r.value[c] == CategorySignal(history, s, c, level).value)
      ensures var s := SchemeOf(tipo);
        r.Err? ==>
          exists c ::
            1 <= c <= 3 && CategorySignal(history, s, c, level) == Err(r.error) &&
            (forall d :: 1 <= d < c ==> CategorySignal(history, s, d, level).Ok?)
    {
      var stats := DelayStatistics(tipo);
      var delays := CurrentDelays(tipo);
      ghost var s := SchemeOf(tipo);
      var signals := map[];
      for c := 1 to 4
        invariant forall d :: d in signals ==> 1 <= d < c
        invariant forall d :: 1 <= d < c ==>
          CategorySignal(history, s, d, level).Ok? &&
          d in signals && signals[d] == CategorySignal(history, s, d, level).value
      {
        var signal := SignalFor(stats[c], delays[c], level);
        assert signal == CategorySignal(history, s, c, level);
        if signal.Err? {
          return Err(signal.error);
        }
        signals := signals[c := signal.value];
      }
      return Ok(signals);
    }
  }
}
