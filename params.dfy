/** Turning the optional query-string parameters of `/data` into validated filter criteria. */
module Params {
  import opened Wrappers
  import opened Records

  /** The raw query parameters, each absent or the string the client sent. */
  datatype Query = Query(
    solved: Option<string>,
    difficulty: Option<string>,
    bvThreshold: Option<string>,
    solvedPercentThreshold: Option<string>,
    efficiencyThreshold: Option<string>)

  /** The handler either proceeds with criteria or answers "Invalid filter". */
  datatype Outcome = Accepted(criteria: Criteria) | InvalidFilter

  const NoParameters := Query(None, None, None, None, None)

  const Levels: seq<string> := ["beginner", "intermediate", "expert"]

  predicate IsUpper(ch: char) { 'A' <= ch <= 'Z' }

  function LowerChar(ch: char): char
  {
    if IsUpper(ch) then (ch as int + 32) as char else ch
  }

  /** String lower-casing over ASCII letters; every other character is kept. */
  function Lower(s: string): (r: string)
    ensures |r| == |s|
    ensures forall i :: 0 <= i < |r| ==> !IsUpper(r[i])
    ensures forall i :: 0 <= i < |s| && !IsUpper(s[i]) ==> r[i] == s[i]
    ensures forall i :: 0 <= i < |s| && IsUpper(s[i]) ==> r[i] as int == s[i] as int + 32
  {
    seq(|s|, i requires 0 <= i < |s| => LowerChar(s[i]))
  }

  /** A lower-cased string is its own lower-case form, so the stored difficulty is stable. */
  lemma LowerIdempotent(s: string)
    ensures Lower(Lower(s)) == Lower(s)
  {
  }

  /** Mixed-case spellings are accepted because only their lower-case form is compared. */
  lemma MixedCaseSpellings()
    ensures Lower("TRUE") == "true" && Lower("False") == "false"
    ensures Lower("Expert") == "expert" && Lower("BeGiNnEr") == "beginner"
  {
  }

  /**
   * Criteria construction. Starts from the defaults (solved games only, expert level, all
   * three minimums zero) and overrides each one whose parameter is present, answering
   * "Invalid filter" at the first parameter that is not acceptable: a solved flag other than
   * true/false or a level other than the three names (both in any letter case), or a
   * threshold that `parseNumber` does not read as a number.
   */
  method ParseCriteria(q: Query, parseNumber: string -> Option<real>) returns (r: Outcome)
    ensures r.InvalidFilter? <==>
      || (q.solved.Some? && Lower(q.solved.value) != "true" && Lower(q.solved.value) != "false")
      || (q.difficulty.Some? && Lower(q.difficulty.value) !in Levels)
      || (q.bvThreshold.Some? && parseNumber(q.bvThreshold.value).None?)
      || (q.efficiencyThreshold.Some? && parseNumber(q.efficiencyThreshold.value).None?)
      || (q.solvedPercentThreshold.Some? && parseNumber(q.solvedPercentThreshold.value).None?)
    ensures r.Accepted? ==> r.criteria.solvedOnly == (q.solved.None? || Lower(q.solved.value) == "true")
    ensures r.Accepted? ==> r.criteria.difficulty in Levels
    ensures r.Accepted? ==>
      r.criteria.difficulty == if q.difficulty.None? then "expert" else Lower(q.difficulty.value)
    ensures r.Accepted? ==>
      if q.bvThreshold.None? then r.criteria.bvThreshold == 0.0
      else parseNumber(q.bvThreshold.value) == Some(r.criteria.bvThreshold)
    ensures r.Accepted? ==>
      if q.efficiencyThreshold.None? then r.criteria.efficiencyThreshold == 0.0
      else parseNumber(q.efficiencyThreshold.value) == Some(r.criteria.efficiencyThreshold)
    ensures r.Accepted? ==>
      if q.solvedPercentThreshold.None? then r.criteria.solvedPercentThreshold == 0.0
      else parseNumber(q.solvedPercentThreshold.value) == Some(r.criteria.solvedPercentThreshold)
    ensures q == NoParameters ==> r == Accepted(Criteria(true, "expert", 0.0, 0.0, 0.0))
  {
    var solvedOnly := true;
    var difficulty := "expert";
    var bvThreshold := 0.0;
    var solvedPercentThreshold := 0.0;
    var efficiencyThreshold := 0.0;

    if q.solved.Some? {
      var flag := Lower(q.solved.value);
      if flag != "true" && flag != "false" {
        return InvalidFilter;
      }
      solvedOnly := flag == "true";
    }

    if q.difficulty.Some? {
      var level := Lower(q.difficulty.value);
      if level !in Levels {
        return InvalidFilter;
      }
      difficulty := level;
    }

    if q.bvThreshold.Some? {
      var n := parseNumber(q.bvThreshold.value);
      if n.None? {
        return InvalidFilter;
      }
      bvThreshold := n.value;
    }

    if q.efficiencyThreshold.Some? {
      var n := parseNumber(q.efficiencyThreshold.value);
      if n.None? {
        return InvalidFilter;
      }
      efficiencyThreshold := n.value;
    }

    if q.solvedPercentThreshold.Some? {
      var n := parseNumber(q.solvedPercentThreshold.value);
      if n.None? {
        return InvalidFilter;
      }
      solvedPercentThreshold := n.value;
    }

    r := Accepted(Criteria(solvedOnly, difficulty, bvThreshold, efficiencyThreshold, solvedPercentThreshold));
  }
}
