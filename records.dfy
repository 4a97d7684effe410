/** The values the `/data` handler works on: one row of the game log, and the validated filter. */
module Records {

  /**
   * One row of the game log, after the column casts: `Board Solved`, `Difficulty`,
   * `3BV` and `Completed 3BV` (cast to integers) and `Efficiency` (cast to a float).
   */
  datatype Record = Record(
    solved: bool,
    difficulty: string,
    bv: int,
    completedBv: int,
    efficiency: real)

  /**
   * The validated filter. `difficulty` is one of the three lower-case level names;
   * the thresholds are minimums, compared inclusively.
   */
  datatype Criteria = Criteria(
    solvedOnly: bool,
    difficulty: string,
    bvThreshold: real,
    efficiencyThreshold: real,
    solvedPercentThreshold: real)

  /** Share of the board's 3BV that was cleared, in percent; defined for a non-zero 3BV. */
  function Completion(r: Record): (pct: real)
    requires r.bv != 0
    ensures 0 <= r.completedBv <= r.bv ==> 0.0 <= pct <= 100.0
    ensures r.completedBv == r.bv ==> pct == 100.0
  {
    var done, total := r.completedBv as real, r.bv as real;
    var q := done / total;
    assert 0 <= r.completedBv <= r.bv ==> q <= 1.0 by {
      if 0 <= r.completedBv <= r.bv {
        assert total > 0.0;
        assert q * total == done;
      }
    }
    q * 100.0
  }

  /**
   * Whether the record's completion is at least `t`. For a 3BV of zero the column holds the
   * floating-point quotient by zero: +inf when the completed 3BV is positive (at least any
   * threshold), NaN or -inf otherwise (no comparison holds).
   */
  predicate MeetsCompletion(r: Record, t: real)
    ensures r.bv > 0 ==>
      (MeetsCompletion(r, t) <==> r.completedBv as real * 100.0 >= t * r.bv as real)
    ensures r.bv < 0 ==>
      (MeetsCompletion(r, t) <==> r.completedBv as real * 100.0 <= t * r.bv as real)
    ensures r.bv == 0 ==> (MeetsCompletion(r, t) <==> r.completedBv > 0)
    ensures 0 < r.bv == r.completedBv ==> (MeetsCompletion(r, t) <==> t <= 100.0)
  {
    if r.bv == 0 then r.completedBv > 0
    else
      var done, total := r.completedBv as real, r.bv as real;
      assert Completion(r) * total == done * 100.0;
      assert total > 0.0 ==> (Completion(r) >= t <==> Completion(r) * total >= t * total);
      assert total < 0.0 ==> (Completion(r) >= t <==> Completion(r) * total <= t * total);
      Completion(r) >= t
  }
}
