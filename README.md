# minetracker-api `/data` filter, modelled in Dafny

The `/data` endpoint of minetracker-api serves a log of Minesweeper games, one row per game.
The filter reads five of each row's columns: whether the board was solved, the difficulty
level, the board's 3BV (Bechtel's Board Value), the 3BV actually cleared, and the efficiency.
A `Records.Record` holds exactly those five. The endpoint builds
filter criteria from optional query parameters and returns the rows that pass them. This
project models that logic and proves its properties.

- `Params.ParseCriteria` is criteria construction. It starts from the defaults: solved games
  only, level `expert`, and all three minimums `0`. Each parameter that is present overrides
  its default. The first unacceptable parameter makes the handler answer "Invalid filter"
  (`Outcome.InvalidFilter`). The solved flag and the level are compared in lower case, and
  the level is stored lower-cased. Thresholds are read by a number parser that is passed in
  as a parameter (`parseNumber`).
- `Pipeline.Filter` is the chain of boolean masks, in the handler's order:
  1. solved games only (when asked);
  2. exact level;
  3. 3BV at least the minimum;
  4. efficiency at least the minimum;
  5. completion at least the minimum, applied only when all games are asked for.

  Each mask is `Pipeline.Mask`, which accepts a record when `Pipeline.Holds`; the masks a
  query switches on are `Pipeline.Steps`. The central lemma, `Pipeline.FilterIsSelect`,
  shows the chain equals `Pipeline.Select`, a single pass that keeps every record passing
  all the applicable predicates. Order-preservation, soundness, completeness, exact
  multiplicities and idempotence are then proved about that single pass.
- `Records.Completion` is `Completed 3BV / 3BV * 100`. `Records.MeetsCompletion` handles a
  3BV of zero the way the floating-point column does. A positive cleared 3BV divided by zero
  gives +inf, which reaches every threshold. Zero divided by zero gives NaN, and a negative
  one gives -inf; neither reaches any threshold. So the filter has no precondition on 3BV.

Two facts of the code worth stating:
- The completion minimum defaults to `0` (main.py:44).
- A record's own `Difficulty` is compared as stored, without lower-casing (main.py:87, 97).

## Model

| member | source | states |
|---|---|---|
| `Params.ParseCriteria` | main.py:40-82 | Answers "Invalid filter" exactly when one of these holds: a solved flag is present whose lower-case form is neither `true` nor `false`; a level is present whose lower-case form is not one of the three level names; or a present threshold does not parse. Otherwise the criteria are: solved-only equal to (flag absent or lower-case `true`); the level lower-cased, or `expert` when absent; each threshold the parsed number, or `0` when absent. With no parameters, the result is the defaults. |
| `Params.Lower` | main.py:55-63 | The lower-case form has the same length, contains no upper-case letter, and changes only the upper-case letters, each to its lower-case counterpart. |
| `Params.LowerIdempotent` | main.py:60-63 | Lower-casing a stored lower-case level again changes nothing. |
| `Params.MixedCaseSpellings` | main.py:54-63 | Spellings such as `TRUE`, `False`, `Expert` and `BeGiNnEr` lower-case to the accepted words. |
| `Records.Completion` | main.py:91 | For a non-zero 3BV, completion lies between 0 and 100 when the cleared 3BV is between 0 and the board's 3BV. It is exactly 100 when the whole board was cleared. |
| `Pipeline.Holds` | main.py:94-102 | One mask's condition. The solved mask accepts exactly the solved records. The level mask accepts exactly an identical level string, letter case included. The 3BV and efficiency masks accept exactly the records at or above the minimum. For a positive 3BV, the completion mask accepts exactly when cleared 3BV times 100 is at least the minimum times the board's 3BV. |
| `Pipeline.Mask` | main.py:94-102 | One `.loc` mask keeps a subsequence of its input. Every record kept satisfies the step. Every input record that satisfies the step is kept. Each record appears in the output as often as in the input if it satisfies the step, and not at all otherwise. |
| `Pipeline.Steps` | main.py:94-102 | A query switches on four masks. The solved mask is among them exactly when only solved games are asked for, and a completion mask exactly when they are not. The level, 3BV and efficiency masks use the criteria's values, and so does the completion mask when present. |
| `Pipeline.Filter` | main.py:92-102 | The five-mask chain returns a subsequence of its input. Each record that passes every applicable mask appears as often as in the input; every other record is absent. |
| `Records.MeetsCompletion` | main.py:91-102 | The completion comparison. For a positive 3BV it holds exactly when cleared 3BV times 100 is at least the minimum times the 3BV; for a negative 3BV the inequality is reversed. For a 3BV of zero it holds exactly when the cleared 3BV is positive (the quotient is then +inf; otherwise NaN or -inf, which fail every comparison). A fully cleared board with positive 3BV meets exactly the minimums up to 100. |
| `Pipeline.Select` | main.py:92-102 | Reference single-pass filter. It keeps a subsequence of its input, and every record kept passes all steps. Each record's multiplicity in the output is its input multiplicity if it passes, and zero otherwise. |
| `Pipeline.PassesMeans` | main.py:94-102 | A record passes the criteria if and only if all of these hold: it is solved (when solved-only); its level is exactly the requested one; its 3BV is at least the minimum; its efficiency is at least the minimum; and it meets the completion minimum (when not solved-only). |
| `Pipeline.FilterIsSelect` | main.py:92-102 | The five-step mask chain equals the single-pass selection by the conjunction of the applicable predicates. |
| `Pipeline.FilterSubsequence` | main.py:92-102 | The result is a subsequence of the input: no record is invented or reordered, and no modelled field is changed. |
| `Pipeline.FilterSound` | main.py:94-102 | Every returned record comes from the input. Its level equals the criterion exactly. Its 3BV and its efficiency are at least their minimums. It is solved when solved-only is asked, and it meets the completion minimum otherwise. |
| `Pipeline.FilterComplete` | main.py:94-102 | Every input record that satisfies all applicable predicates is returned, including one exactly on a bound. |
| `Pipeline.FilterCounts` | main.py:92-102 | Each passing record appears as often as in the input; no other record appears. |
| `Pipeline.SolvedOnlyIgnoresCompletion` | main.py:94-102 | With solved-only set, changing the completion minimum never changes the result. |
| `Pipeline.FilterIdempotent` | main.py:92-102 | Filtering the result again with the same criteria returns it unchanged. |
| `Pipeline.RaisingBvThresholdNarrows` | main.py:98 | With a higher 3BV minimum, the result is a subsequence of the result with the lower one. |
| `Pipeline.DefaultsKeepSolvedOnly` | main.py:40-102 | The default criteria keep a solved expert game and drop an unsolved one. |
| `Pipeline.BvBoundIsInclusive` | main.py:98 | A game exactly on the 3BV minimum is kept; one below it is dropped. |
| `Pipeline.SolvedGameSkipsCompletionMinimum` | main.py:94-102 | A solved game whose completion reads 0 is kept under solved-only with a minimum of 100. The same minimum drops it when all games are asked for. |

## Left out

- Flask application setup, routes, CORS and HTTP status codes (main.py:1-24) are web plumbing. A rejected query is the value `Outcome.InvalidFilter`.
- CSV discovery and loading, including the "Data store not found" answer (main.py:26-35), are file-system input. The records are a parameter.
- The pandas column casts (main.py:88-90) are assumed already applied. Records carry typed fields; truncation by `int()` of non-integral values is not modelled.
- Python `float()` parsing of thresholds (main.py:68, 74, 80) is the `parseNumber` parameter. Thresholds are exact reals, so `nan` and `inf` thresholds, which `float()` accepts, are not represented.
- Records.Completion: exact real arithmetic, without the rounding of the floating-point division and multiplication. A record within rounding distance of the completion minimum may be decided differently.
- Params.Lower: lower-cases ASCII letters only. Python lower-cases all of Unicode, but no non-ASCII character lower-cases to a string made only of the letters in `true`, `false` and the three level names. So acceptance and the stored value are the same.
- Efficiency values that are NaN in the data are not represented; such a row fails every efficiency comparison in the source.
- JSON serialisation of the result (main.py:106-108) and the debug `print` calls (main.py:32, 56) are output formatting.
- Records are projections onto the five columns the filter reads. The other CSV columns (such as the 3BV/s column, main.py:52, 86) and the `Completion` column added at main.py:91 pass through to the response unmodelled; the model's subsequence and count properties are about these projections.
