# G-Eval score extraction, modelled in Dafny

The G-Eval scripts ask a language model to rate a summary several times and
collect the free-text answers of each evaluated item in its `all_responses`
list. `geval_scores.py` turns every answer into a number and averages the
numbers per metric (coherence, consistency, fluency, relevance). This project
models that score-extraction core:

- `ScoreParser.dfy` (module `ScoreParser`): `parse_output`. The regular
  expression `^ ?([\d\.]+)` becomes `LeadingRun`. It skips at most one
  leading space and then takes the maximal run of digits and points. It is
  proved equal to a direct description of what the pattern matches
  (`PatternMatches`, `GreedyMatch`). Python's `float` on the captured run
  becomes `ParseFloat`. It is proved to accept exactly the runs with at least
  one digit and at most one point, and it gives their exact decimal value.
  `ParseOutput` falls back to 0 on no match and on a rejected run, as the
  source does.
- `GevalScores.dfy` (module `GevalScores`): `parse_geval_outputs`. It is a
  method with the source's two nested loops. The loops are proved to build
  `Flatten(output)`: one score per completion, in record order and then
  completion order. The per-metric loop of the entry point becomes
  `ScoreMetrics`. It stores, per metric, the flat score list and either
  `Unscored` (the source's `[.0, None]`) or the mean.
- `Wrappers.dfy`: the `Option` datatype.

A fuller G-Eval aggregation would also filter scores to `[0, 5]`, count the
out-of-range ones, group by summarisation system and average per summary.
The code of `geval_scores.py` does none of these, so neither does the model:
it averages every extracted score, whatever its range.

Because the point belongs to the captured run, a decimal rating followed
directly by a point (`"2.5. Good"` captures `"2.5."`), or any rating followed
by two or more points (`"4... hard to say"`), captures a run with two or
more points. `float` rejects such a run, so the rating is lost and the
answer scores 0. An integer rating closed by a full stop (`"4. Good"`)
captures `"4."`, which has one point, and still scores 4. The fallback score
is the integer `0` in the code; it is numerically equal to `0.0` and is
modelled as `0.0`.

## Model

| member | source | states |
|---|---|---|
| `ScoreParser.RunLength` | geval_scores.py:53 | the greedy `[\d\.]+` run starting at a position: all its characters are in the class, and the next character (if any) is not |
| `ScoreParser.RunLengthOfRun` | geval_scores.py:53 | a stretch of class characters is covered by the greedy run, and is exactly the run when the next character ends it |
| `ScoreParser.LeadingRun` | geval_scores.py:53-54 | the search matches exactly when the string starts with a digit or point, or with one space followed by one; the captured group is non-empty and made of digits and points |
| `ScoreParser.LeadingRunIsGreedyMatch` | geval_scores.py:53 | the group returned is a match of `^ ?([\d\.]+)` that the greedy `+` cannot extend |
| `ScoreParser.MatchesAgreeWithLeadingRun` | geval_scores.py:53-54 | every match of the pattern takes the same optional space and captures a prefix of the returned run; the greedy match captures exactly it, so "no match" is exactly `None` |
| `ScoreParser.ParseFloat` | geval_scores.py:55-58 | `float` on the captured run succeeds exactly for runs with at least one digit and at most one point, and its value is non-negative |
| `ScoreParser.SplitAtPoint` | geval_scores.py:56 | splitting a run at its first point gives two digit strings exactly when the run has at most one point; with that, the parts are not both empty exactly when the run has a digit |
| `ScoreParser.DigitStringValue` | geval_scores.py:56 | a non-empty string of digits converts to the integer it spells |
| `ScoreParser.ParseOutput` | geval_scores.py:40-61 | the score of any completion is at least 0: no sign can be matched and both fallbacks are 0 |
| `ScoreParser.NoLeadingNumberScoresZero` | geval_scores.py:53-60 | a completion whose first character after at most one space is neither a digit nor a point (including the empty one) scores 0 |
| `ScoreParser.OneLeadingSpaceSkipped` | geval_scores.py:53 | a leading space before a number changes nothing; a leading space before anything else scores 0 |
| `ScoreParser.TwoLeadingSpacesScoreZero` | geval_scores.py:53-60 | two leading spaces never match, so the score is 0 |
| `ScoreParser.LeadingRunDecidesScore` | geval_scores.py:53-58 | text after the maximal leading run never changes the score; the score is the run's decimal value when it is a valid decimal and 0 when `float` would raise |
| `ScoreParser.IntegerRatingRoundTrip` | geval_scores.py:53-56 | an integer rating written in decimal and followed by text that does not start with a digit or a point scores exactly that rating, with or without one leading space |
| `ScoreParser.DecimalRatingRoundTrip` | geval_scores.py:53-56 | a rating `whole.fraction` (either side possibly empty, not both) followed by text that does not start with a digit or a point scores its exact decimal value |
| `ScoreParser.ExamplesWithoutNumber` | geval_scores.py:53-60 | `""`, `"not sure"` and `"  4"` score 0 |
| `ScoreParser.ExampleRatingWithExplanation` | geval_scores.py:53-56 | `"3 because..."` scores 3 |
| `ScoreParser.ExampleRatingAfterSpace` | geval_scores.py:53-56 | `" 4"` scores 4 |
| `ScoreParser.ExampleDecimalRating` | geval_scores.py:53-56 | `"2.5"` scores 2.5 |
| `ScoreParser.ExampleTrailingPoint` | geval_scores.py:53-56 | `"1."` scores 1 |
| `ScoreParser.ExampleLeadingPoint` | geval_scores.py:53-56 | `".5"` scores 0.5 |
| `ScoreParser.ExampleTwoPoints` | geval_scores.py:53-58 | `"1.2.3"` is captured whole, `float` rejects it, and it scores 0 |
| `ScoreParser.ExampleRatingWithFullStop` | geval_scores.py:53-58 | `"2.5. Good"` captures `"2.5."`, which `float` rejects, so it scores 0 |
| `ScoreParser.ExampleIntegerWithFullStop` | geval_scores.py:53-56 | `"4. Good"` captures `"4."`, which `float` accepts, so it scores 4 |
| `ScoreParser.ExampleLonePoint` | geval_scores.py:53-58 | `"."` is captured, `float` rejects it, and it scores 0 |
| `GevalScores.ParseGevalOutputs` | geval_scores.py:64-75 | the nested loops return exactly the flattening of all records' completion scores |
| `GevalScores.FlattenLength` | geval_scores.py:70-73 | the flat list has one score per completion over all records |
| `GevalScores.FlattenAt` | geval_scores.py:70-73 | completion `j` of record `i` is scored at position (completions of earlier records) + `j`, and that entry is its parsed score |
| `GevalScores.FlattenAppend` | geval_scores.py:71-73 | flattening concatenated record lists concatenates their score lists (record order is kept) |
| `GevalScores.FlattenNonNegative` | geval_scores.py:70-73 | every flattened score is at least 0 |
| `GevalScores.FlattenEmpty` | geval_scores.py:70-75 | the result is empty exactly when every record has an empty `all_responses` (including no records at all) |
| `GevalScores.Summarise` | geval_scores.py:123-126 | a metric gets `[.0, None]` exactly when its score list is empty; otherwise its mean times the number of scores is the sum of the scores |
| `GevalScores.MeanAtLeast` | geval_scores.py:126 | the mean `sum / len` of a non-empty list is at least any lower bound of its scores |
| `GevalScores.MeanAtMost` | geval_scores.py:126 | the mean of a non-empty list is at most any upper bound of its scores |
| `GevalScores.MetricScoreOfRecords` | geval_scores.py:121-126 | a metric is stored as `[.0, None]` exactly when none of its records has a completion; its stored mean is never negative |
| `GevalScores.ScoreMetrics` | geval_scores.py:121-126 | every loaded metric, and no other, gets its flat score list from `parse_geval_outputs` and its stored score from that list |

## Left out

- Unicode digits: Python's `\d` and `float` also accept non-ASCII decimal digits. The model takes only ASCII `'0'..'9'`.
- Binary floating point: `float` returns the nearest IEEE double (or `inf` for very long runs). The model keeps the exact decimal value as a `real`. The mean is also an exact `real` quotient.
- `parse_output` returns the integer `0` on failure. The model returns `0.0`, which is numerically equal.
- ScoreMetrics: does not compute the standard deviation (`np.std`, a foreign numerical routine). `Scored` carries only the mean.
- ScoreMetrics: the loaded metrics are a `map`, so the insertion order of the Python dict is not modelled. That order only affects the printed table.
- Records are assumed to carry an `all_responses` list of strings. A missing key (`KeyError`) or a non-string entry (`TypeError` from `re.search`) is not modelled.
- File loading (`load_json_file`, `load_jsonl_file`), argument parsing (`parse_arguments`) and the choice of which metric files to load are I/O. The printed table is also I/O: printing an unscored metric calls `round(None, 2)`, which raises `TypeError` in Python, and this crash is not modelled.
- gpt4_eval_async.py and gpt4_eval_prompt_generation.py (prompt assembly, concurrent API calls, file writes) are external calls and formatting, and they are not part of this model.
