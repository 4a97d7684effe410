/**
 * The record filter of `/data`: a fixed chain of order-preserving boolean masks, each
 * narrowing the result of the previous one.
 */
module Pipeline {
  import opened Sequences
  import opened Records

  /** One mask of the chain, with the criterion value it compares against. */
  datatype Step =
    | SolvedOnly
    | DifficultyIs(level: string)
    | BvAtLeast(min: real)
    | EfficiencyAtLeast(min: real)
    | CompletionAtLeast(min: real)

  /**
   * Whether a record survives one mask. Levels are compared exactly, without changing the
   * record's letter case; a record on a minimum survives, one below it does not.
   */
  predicate Holds(st: Step, r: Record)
    ensures st.SolvedOnly? ==> (Holds(st, r) <==> r.solved)
    ensures st.DifficultyIs? ==> (Holds(st, r) <==> r.difficulty == st.level)
    ensures st.BvAtLeast? ==> (Holds(st, r) <==> st.min <= r.bv as real)
    ensures st.EfficiencyAtLeast? ==> (Holds(st, r) <==> st.min <= r.efficiency)
    ensures st.CompletionAtLeast? && r.bv > 0 ==>
      (Holds(st, r) <==> st.min * r.bv as real <= r.completedBv as real * 100.0)
  {
    match st
    case SolvedOnly => r.solved
    case DifficultyIs(level) => r.difficulty == level
    case BvAtLeast(min) => r.bv as real >= min
    case EfficiencyAtLeast(min) => r.efficiency >= min
    case CompletionAtLeast(min) => MeetsCompletion(r, min)
  }

  /** Applies one mask: keeps, in their order, the records the step accepts. */
  function Mask(s: seq<Record>, st: Step): (kept: seq<Record>)
    ensures IsSubsequence(kept, s)
    ensures forall x :: x in kept ==> Holds(st, x)
    ensures forall x :: x in s && Holds(st, x) ==> x in kept
    ensures forall x {:trigger multiset(kept)[x]} :: multiset(kept)[x] == if Holds(st, x) then multiset(s)[x] else 0
  {
    if s == [] then []
    else
      assert s == [s[0]] + s[1..];
      if Holds(st, s[0]) then [s[0]] + Mask(s[1..], st)
      else Mask(s[1..], st)
  }

  /** The masks the criteria switch on, in the order the handler applies them. */
  function Steps(c: Criteria): (steps: seq<Step>)
    ensures |steps| == 4
    ensures SolvedOnly in steps <==> c.solvedOnly
    ensures (exists min :: CompletionAtLeast(min) in steps) <==> !c.solvedOnly
    ensures !c.solvedOnly ==> CompletionAtLeast(c.solvedPercentThreshold) in steps
    ensures DifficultyIs(c.difficulty) in steps
    ensures BvAtLeast(c.bvThreshold) in steps && EfficiencyAtLeast(c.efficiencyThreshold) in steps
  {
    (if c.solvedOnly then [SolvedOnly] else [])
    + [DifficultyIs(c.difficulty), BvAtLeast(c.bvThreshold), EfficiencyAtLeast(c.efficiencyThreshold)]
    + (if c.solvedOnly then [] else [CompletionAtLeast(c.solvedPercentThreshold)])
  }

  /** The stages of the filter chain each delete records from the one before. */
  lemma ChainIsSubsequence(
    s: seq<Record>, solved: seq<Record>, atLevel: seq<Record>, bigEnough: seq<Record>,
    efficient: seq<Record>, kept: seq<Record>)
    requires IsSubsequence(solved, s) && IsSubsequence(atLevel, solved)
    requires IsSubsequence(bigEnough, atLevel) && IsSubsequence(efficient, bigEnough)
    requires IsSubsequence(kept, efficient)
    ensures IsSubsequence(kept, s)
  {
    SubsequenceTransitive(atLevel, solved, s);
    SubsequenceTransitive(bigEnough, atLevel, s);
    SubsequenceTransitive(efficient, bigEnough, s);
    SubsequenceTransitive(kept, efficient, s);
  }

  /** How often one record survives the filter chain. */
  lemma ChainCount(s: seq<Record>, c: Criteria, x: Record)
    ensures
      var solved := if c.solvedOnly then Mask(s, SolvedOnly) else s;
      var atLevel := Mask(solved, DifficultyIs(c.difficulty));
      var bigEnough := Mask(atLevel, BvAtLeast(c.bvThreshold));
      var efficient := Mask(bigEnough, EfficiencyAtLeast(c.efficiencyThreshold));
      var kept :=
        if c.solvedOnly then efficient
        else Mask(efficient, CompletionAtLeast(c.solvedPercentThreshold));
      multiset(kept)[x] == if Passes(x, c) then multiset(s)[x] else 0
  {
    PassesMeans(x, c);
  }

  /**
   * The handler's filter chain over the loaded records: the input with records deleted, each
   * record that passes every applicable mask kept as often as it occurs, every other one dropped.
   */
  function Filter(s: seq<Record>, c: Criteria): (kept: seq<Record>)
    ensures IsSubsequence(kept, s)
    ensures forall x :: multiset(kept)[x] == if Passes(x, c) then multiset(s)[x] else 0
  {
    var solved := if c.solvedOnly then Mask(s, SolvedOnly) else s;
    var atLevel := Mask(solved, DifficultyIs(c.difficulty));
    var bigEnough := Mask(atLevel, BvAtLeast(c.bvThreshold));
    var efficient := Mask(bigEnough, EfficiencyAtLeast(c.efficiencyThreshold));
    var kept :=
      if c.solvedOnly then efficient
      else Mask(efficient, CompletionAtLeast(c.solvedPercentThreshold));
    SubsequenceReflexive(s);
    SubsequenceReflexive(efficient);
    ChainIsSubsequence(s, solved, atLevel, bigEnough, efficient, kept);
    assert forall x :: multiset(kept)[x] == if Passes(x, c) then multiset(s)[x] else 0 by {
      forall x ensures multiset(kept)[x] == if Passes(x, c) then multiset(s)[x] else 0 {
        ChainCount(s, c, x);
      }
    }
    kept
  }

  /** A record passes a list of masks when every one of them accepts it. */
  predicate Admits(steps: seq<Step>, r: Record)
  {
    forall st :: st in steps ==> Holds(st, r)
  }

  /** A record passes the criteria: the conjunction of every predicate that applies. */
  predicate Passes(r: Record, c: Criteria)
  {
    Admits(Steps(c), r)
  }

  /** Reference definition: one pass over the records keeping those that pass every mask. */
  function Select(s: seq<Record>, steps: seq<Step>): (kept: seq<Record>)
    ensures IsSubsequence(kept, s)
    ensures forall x :: x in kept ==> Admits(steps, x)
    ensures forall x :: multiset(kept)[x] == if Admits(steps, x) then multiset(s)[x] else 0
  {
    if s == [] then []
    else
      var rest := Select(s[1..], steps);
      assert s == [s[0]] + s[1..];
      if Admits(steps, s[0]) then [s[0]] + rest else rest
  }

  /** Passing the criteria, spelled out predicate by predicate. */
  lemma PassesMeans(r: Record, c: Criteria)
    ensures Passes(r, c) <==>
      && (c.solvedOnly ==> r.solved)
      && r.difficulty == c.difficulty
      && r.bv as real >= c.bvThreshold
      && r.efficiency >= c.efficiencyThreshold
      && (!c.solvedOnly ==> MeetsCompletion(r, c.solvedPercentThreshold))
  {
  }

  lemma {:induction false} SelectNothing(s: seq<Record>)
    ensures Select(s, []) == s
  {
    if s != [] {
      SelectNothing(s[1..]);
    }
  }

  /** Masking the result of a one-pass selection is the one-pass selection with one more mask. */
  lemma {:induction false} MaskAfterSelect(s: seq<Record>, steps: seq<Step>, st: Step)
    ensures Mask(Select(s, steps), st) == Select(s, steps + [st])
  {
    if s != [] {
      MaskAfterSelect(s[1..], steps, st);
      assert Admits(steps + [st], s[0]) <==> Admits(steps, s[0]) && Holds(st, s[0]) by {
        assert st in steps + [st];
        assert forall x :: x in steps + [st] <==> x in steps || x == st;
      }
    }
  }

  /** The three masks every query applies, after a selection by `first`. */
  lemma CommonMasks(s: seq<Record>, first: seq<Step>, c: Criteria)
    ensures
      var atLevel := Mask(Select(s, first), DifficultyIs(c.difficulty));
      var bigEnough := Mask(atLevel, BvAtLeast(c.bvThreshold));
      Mask(bigEnough, EfficiencyAtLeast(c.efficiencyThreshold))
      == Select(s, first + [DifficultyIs(c.difficulty), BvAtLeast(c.bvThreshold), EfficiencyAtLeast(c.efficiencyThreshold)])
  {
    var d, b, e := DifficultyIs(c.difficulty), BvAtLeast(c.bvThreshold), EfficiencyAtLeast(c.efficiencyThreshold);
    MaskAfterSelect(s, first, d);
    MaskAfterSelect(s, first + [d], b);
    MaskAfterSelect(s, first + [d] + [b], e);
    assert first + [d] + [b] + [e] == first + [d, b, e];
  }

  /** The chain of masks equals the one-pass selection by the conjunction of its predicates. */
  lemma FilterIsSelect(s: seq<Record>, c: Criteria)
    ensures Filter(s, c) == Select(s, Steps(c))
  {
    var common := [DifficultyIs(c.difficulty), BvAtLeast(c.bvThreshold), EfficiencyAtLeast(c.efficiencyThreshold)];
    if c.solvedOnly {
      MaskAfterSelect(s, [], SolvedOnly);
      SelectNothing(s);
      assert [] + [SolvedOnly] == [SolvedOnly];
      CommonMasks(s, [SolvedOnly], c);
      assert Steps(c) == [SolvedOnly] + common;
    } else {
      SelectNothing(s);
      CommonMasks(s, [], c);
      assert [] + common == common;
      MaskAfterSelect(s, common, CompletionAtLeast(c.solvedPercentThreshold));
      assert Steps(c) == common + [CompletionAtLeast(c.solvedPercentThreshold)];
    }
  }

  /** The result is the input with records deleted: none is invented, reordered or changed. */
  lemma FilterSubsequence(s: seq<Record>, c: Criteria)
    ensures IsSubsequence(Filter(s, c), s)
  {
  }

  /**
   * Every record returned has exactly the requested level, at least the minimum 3BV and
   * efficiency, is solved when only solved games are asked for, and otherwise reaches the
   * minimum completion.
   */
  lemma FilterSound(s: seq<Record>, c: Criteria, x: Record)
    requires x in Filter(s, c)
    ensures x in s
    ensures x.difficulty == c.difficulty
    ensures x.bv as real >= c.bvThreshold
    ensures x.efficiency >= c.efficiencyThreshold
    ensures c.solvedOnly ==> x.solved
    ensures !c.solvedOnly ==> MeetsCompletion(x, c.solvedPercentThreshold)
  {
    FilterIsSelect(s, c);
    SubsequenceMembers(Filter(s, c), s, x);
    PassesMeans(x, c);
  }

  /** Every record that meets every applicable predicate is returned, also one sitting on a bound. */
  lemma FilterComplete(s: seq<Record>, c: Criteria, x: Record)
    requires x in s
    requires c.solvedOnly ==> x.solved
    requires x.difficulty == c.difficulty
    requires x.bv as real >= c.bvThreshold
    requires x.efficiency >= c.efficiencyThreshold
    requires !c.solvedOnly ==> MeetsCompletion(x, c.solvedPercentThreshold)
    ensures x in Filter(s, c)
  {
  }

  /** Each passing record is returned as often as it occurs in the input; no other record is. */
  lemma FilterCounts(s: seq<Record>, c: Criteria, x: Record)
    ensures multiset(Filter(s, c))[x] == if Passes(x, c) then multiset(s)[x] else 0
  {
  }

  /** With only solved games asked for, the completion minimum has no effect. */
  lemma SolvedOnlyIgnoresCompletion(s: seq<Record>, c: Criteria, pct: real)
    requires c.solvedOnly
    ensures Filter(s, c) == Filter(s, c.(solvedPercentThreshold := pct))
  {
  }

  lemma {:induction false} SelectIdempotent(s: seq<Record>, steps: seq<Step>)
    ensures Select(Select(s, steps), steps) == Select(s, steps)
  {
    if s != [] {
      SelectIdempotent(s[1..], steps);
    }
  }

  /** Filtering an already filtered result with the same criteria changes nothing. */
  lemma FilterIdempotent(s: seq<Record>, c: Criteria)
    ensures Filter(Filter(s, c), c) == Filter(s, c)
  {
    FilterIsSelect(s, c);
    FilterIsSelect(Filter(s, c), c);
    SelectIdempotent(s, Steps(c));
  }

  lemma {:induction false} SelectNarrows(s: seq<Record>, strict: seq<Step>, loose: seq<Step>)
    requires forall x :: Admits(strict, x) ==> Admits(loose, x)
    ensures IsSubsequence(Select(s, strict), Select(s, loose))
  {
    if s != [] {
      SelectNarrows(s[1..], strict, loose);
      var a, b := Select(s, strict), Select(s, loose);
      if Admits(strict, s[0]) {
        assert a[1..] == Select(s[1..], strict);
        assert b[1..] == Select(s[1..], loose);
      } else if Admits(loose, s[0]) {
        assert b[1..] == Select(s[1..], loose);
      }
    }
  }

  /** Raising the 3BV minimum can only drop records from the result, never add or reorder them. */
  lemma RaisingBvThresholdNarrows(s: seq<Record>, c: Criteria, min: real)
    requires min >= c.bvThreshold
    ensures IsSubsequence(Filter(s, c.(bvThreshold := min)), Filter(s, c))
  {
    var c' := c.(bvThreshold := min);
    FilterIsSelect(s, c);
    FilterIsSelect(s, c');
    forall x | Admits(Steps(c'), x) ensures Admits(Steps(c), x) {
      PassesMeans(x, c);
      PassesMeans(x, c');
    }
    SelectNarrows(s, Steps(c'), Steps(c));
  }

  /** With the default criteria, of a solved and an unsolved expert game only the solved one is kept. */
  lemma DefaultsKeepSolvedOnly()
    ensures
      var won := Record(true, "expert", 100, 100, 50.0);
      var lost := Record(false, "expert", 100, 40, 50.0);
      Filter([won, lost], Criteria(true, "expert", 0.0, 0.0, 0.0)) == [won]
  {
  }

  /** A game exactly on the 3BV minimum is kept; one a single 3BV below it is dropped. */
  lemma BvBoundIsInclusive()
    ensures
      var onBound := Record(true, "beginner", 30, 30, 80.0);
      var below := Record(true, "beginner", 29, 29, 80.0);
      Filter([below, onBound], Criteria(true, "beginner", 30.0, 0.0, 0.0)) == [onBound]
  {
    var onBound := Record(true, "beginner", 30, 30, 80.0);
    var below := Record(true, "beginner", 29, 29, 80.0);
    var games := [below, onBound];
    assert games[1..] == [onBound];
    assert Mask(games, SolvedOnly) == games;
    assert Mask(games, DifficultyIs("beginner")) == games;
    assert Mask(games, BvAtLeast(30.0)) == [onBound];
  }

  /**
   * A solved game whose completion column reads 0 is kept when only solved games are asked for,
   * whatever the completion minimum; asking for all games applies the minimum and drops it.
   */
  lemma SolvedGameSkipsCompletionMinimum()
    ensures
      var g := Record(true, "intermediate", 50, 0, 70.0);
      && Filter([g], Criteria(true, "intermediate", 0.0, 0.0, 100.0)) == [g]
      && Filter([g], Criteria(false, "intermediate", 0.0, 0.0, 100.0)) == []
  {
  }
}
