# AI Response Analyzer front end — verified model of its helpers

The front end lets a user submit a prompt with a sweep range for the
sampling parameters (temperature, top-p, max tokens). A remote backend
generates and scores the candidate responses. The front end then shows:

- a results view with charts, the best response and the average quality profile;
- a history list of past experiments that can be expanded, exported or deleted.

Generation, scoring, storage and export files all live in that backend. This
project models the logic the front end computes itself, and proves what it
promises:

- `types.dfy` (`Types`): the record shapes from `src/types/index.ts`. Numbers
  are `real`, an idealisation of JavaScript numbers. Optional properties are
  `Option`.
- `metrics.dfy` (`Metrics`): the per-metric left fold
  `reduce((sum, r) => sum + r.metrics.<m>, 0)` and the mean, with bounds on both.
- `export.dfy` (`Export`): the export request body and the download name
  `experiment_<id>.<format>`. The parser proves that a name determines its
  id and format.
- `experiment_history.dfy` (`ExperimentHistory`): text previews, the display
  name, best and average score, the expanded-response set and local delete.
  The list's state is the class `HistoryView`.
- `response_display.dfy` (`ResponseDisplay`): chart rows, the best response
  (the first maximum), per-metric averages, the radar profile and the badge.
  The export dropdown flag is the class `ResultsView`.
- `parameter_controls.dfy` (`ParameterControls`): single-field range edits
  and the reset to defaults.
- `page.dfy` (`Page`): the page's initial parameter range.
- `prompt_input.dfy` (`PromptInput`): JavaScript `trim`, request building and
  validation, the submit condition and the run-count choices.
- `agreement.dfy` (`Agreement`): the history card and the results view
  report the same best and average score.

Empty inputs follow what JavaScript does:

- `Math.max()` of nothing is `-Infinity` and `0 / 0` is `NaN`. Both appear
  as cases of `ExperimentHistory.Num`.
- `reduce` with no initial value throws on an empty list. `BestResponse`
  returns `None` there.

## Model

| member | source | states |
|---|---|---|
| `Export.RequestFor` | src/components/ExperimentHistory.tsx:74-79 | the export body names the experiment and the format, asks for metrics and not for details |
| `Export.FilenameRoundTrip` | src/components/ExperimentHistory.tsx:87 | parsing the download name `experiment_<id>.<format>` gives back exactly the id and the format |
| `Export.ParsedFilenameIsFilename` | src/components/ResponseDisplay.tsx:95 | any name that parses is the download name of the id and format it parses to |
| `Export.FilenameInjective` | src/components/ExperimentHistory.tsx:87 | two different (id, format) pairs never get the same download name |
| `Metrics.SumAtMost` | src/components/ResponseDisplay.tsx:61-65 | a sum of n scores each at most hi is at most n·hi |
| `Metrics.SumAtLeast` | src/components/ResponseDisplay.tsx:61-65 | a sum of n scores each at least lo is at least n·lo |
| `Metrics.MeanAtMost` | src/components/ExperimentHistory.tsx:124-127 | the average never exceeds an upper bound of the scores |
| `Metrics.MeanAtLeast` | src/components/ResponseDisplay.tsx:60-66 | the average never falls below a lower bound of the scores |
| `ExperimentHistory.Truncate` | src/components/ExperimentHistory.tsx:141-144 | text up to the limit is unchanged; longer text becomes limit+3 characters: its first `limit` characters, then "..." |
| `ExperimentHistory.TruncateIdempotent` | src/components/ExperimentHistory.tsx:141-144 | truncating a preview again leaves it unchanged |
| `ExperimentHistory.PromptPreview` | src/components/ExperimentHistory.tsx:204-207 | the inline prompt preview is the same as `truncateText` with limit 100 |
| `ExperimentHistory.SliceLast` | src/components/ExperimentHistory.tsx:198 | `slice(-n)` for positive n (8 here) yields the last min(n, length) characters of the id, as a suffix of it |
| `ExperimentHistory.DisplayName` | src/components/ExperimentHistory.tsx:198 | a set, non-empty name is shown as is; otherwise "Experiment " and the id's last eight characters |
| `ExperimentHistory.FallbackNameShape` | src/components/ExperimentHistory.tsx:198 | the fallback heading is "Experiment " followed by at most 8 id characters, the whole id when it is short |
| `ExperimentHistory.MathMax` | src/components/ExperimentHistory.tsx:121 | `Math.max(...xs)` is `-Infinity` exactly for no arguments, never `NaN`, otherwise an upper bound that is one of the arguments |
| `ExperimentHistory.OverallScores` | src/components/ExperimentHistory.tsx:121 | the mapped list holds each response's overall score at the same position |
| `ExperimentHistory.GetBestScore` | src/components/ExperimentHistory.tsx:120-122 | for a non-empty experiment the best score is ≥ every overall score and equals one of them; `-Infinity` for none |
| `ExperimentHistory.GetAverageScore` | src/components/ExperimentHistory.tsx:124-127 | the average score is the sum of overall scores divided by their count; `NaN` for none |
| `ExperimentHistory.AverageAtMostBest` | src/components/ExperimentHistory.tsx:120-127 | on every non-empty card the average score is at most the best score |
| `ExperimentHistory.CardScoresWithinUnit` | src/components/ExperimentHistory.tsx:265-276 | overall scores in [0, 1] give a best and an average score in [0, 1] |
| `ExperimentHistory.Toggled` | src/components/ExperimentHistory.tsx:129-139 | the toggled set flips membership of the given id and keeps every other id's membership |
| `ExperimentHistory.ToggleTwice` | src/components/ExperimentHistory.tsx:129-139 | toggling the same id twice restores the original set |
| `ExperimentHistory.ResponsePreview` | src/components/ExperimentHistory.tsx:313-339 | an expanded response shows its whole content, a collapsed one its 150-character preview |
| `ExperimentHistory.ToggleRevealsContent` | src/components/ExperimentHistory.tsx:331-348 | expanding shows the full content; a second toggle restores the preview; no other response's text changes |
| `ExperimentHistory.ShortContentShownWhole` | src/components/ExperimentHistory.tsx:314 | content that gets no expand button is shown whole in either state |
| `ExperimentHistory.WithoutId` | src/components/ExperimentHistory.tsx:57 | after the filter no experiment has the deleted id, and every other experiment is kept |
| `ExperimentHistory.WithoutIdAppend` | src/components/ExperimentHistory.tsx:57 | the filter distributes over concatenation, so kept experiments stay in their relative order |
| `ExperimentHistory.WithoutAbsentId` | src/components/ExperimentHistory.tsx:57 | deleting an id no experiment carries leaves the list unchanged |
| `ExperimentHistory.HistoryView.constructor` | src/components/ExperimentHistory.tsx:14-18 | the list starts with no experiments, nothing expanded and no export menu open |
| `ExperimentHistory.HistoryView.ToggleResponseExpansion` | src/components/ExperimentHistory.tsx:129-139 | the stored set becomes the toggled copy of the old one, and no other field changes |
| `ExperimentHistory.HistoryView.DeleteExperiment` | src/components/ExperimentHistory.tsx:46-65 | a DELETE is sent only after confirmation; the list loses the id only on success and is otherwise unchanged |
| `ExperimentHistory.HistoryView.ToggleExportMenu` | src/components/ExperimentHistory.tsx:213 | the Export button opens this card's menu, or closes it if it was the open one |
| `ExperimentHistory.HistoryView.ChooseExport` | src/components/ExperimentHistory.tsx:221-247 | choosing a format sends the export body and closes the menu at once; the file is saved under its download name only on success |
| `ResponseDisplay.NatToString` | src/components/ResponseDisplay.tsx:48 | a position number is written as a non-empty string of decimal digits with no leading zero |
| `ResponseDisplay.DecimalRoundTrip` | src/components/ResponseDisplay.tsx:48 | reading back the decimal text of n gives n |
| `ResponseDisplay.ResponseLabelInjective` | src/components/ResponseDisplay.tsx:48 | different positions get different "Response n" labels |
| `ResponseDisplay.ChartData` | src/components/ResponseDisplay.tsx:47-54 | one chart row per response, in order; row i is named "Response i+1" and carries response i's five metrics |
| `ResponseDisplay.ChartNamesDistinct` | src/components/ResponseDisplay.tsx:47-54 | no two chart rows share a name |
| `ResponseDisplay.BestIndex` | src/components/ResponseDisplay.tsx:56-58 | the strict-`>` reduce stops on a response scoring ≥ all others and strictly above every earlier one |
| `ResponseDisplay.BestResponse` | src/components/ResponseDisplay.tsx:56-58 | the best response is one of the responses and scores ≥ all of them; none (the reduce throws) exactly for an empty list |
| `ResponseDisplay.BestIsEarliestMaximum` | src/components/ResponseDisplay.tsx:56-58 | on ties the earliest maximal response is the one chosen |
| `ResponseDisplay.BadgeOnBestOnly` | src/components/ResponseDisplay.tsx:221 | the best response carries the "Best Overall" badge; with unique ids it is the only one that does |
| `ResponseDisplay.AverageMetrics` | src/components/ResponseDisplay.tsx:60-66 | each of the five averages is that metric's sum over the responses divided by their count |
| `ResponseDisplay.RadarData` | src/components/ResponseDisplay.tsx:68-73 | four entries, Coherence, Completeness, Readability, Relevance, each with the matching average; the overall score is not among them |
| `ResponseDisplay.RadarWithinUnit` | src/components/ResponseDisplay.tsx:68-73 | scores in the charts' [0, 1] domain give radar entries in [0, 1] |
| `ResponseDisplay.ResultsView.constructor` | src/components/ResponseDisplay.tsx:21 | the dropdown starts closed |
| `ResponseDisplay.ResultsView.ToggleExportDropdown` | src/components/ResponseDisplay.tsx:118 | each click on Export negates the dropdown flag |
| `ResponseDisplay.ResultsView.ExportExperiment` | src/components/ResponseDisplay.tsx:75-105 | the export body is sent; on success the file is saved under its download name and the dropdown closes; on failure both stay as they were |
| `ParameterControls.UpdateParameter` | src/components/ParameterControls.tsx:12-20 | the edited field of the edited parameter takes the new value; the other eight values are unchanged |
| `ParameterControls.UpdateWithCurrentValue` | src/components/ParameterControls.tsx:13-19 | writing a field's current value back gives a range equal to the input |
| `ParameterControls.UpdateLastWriteWins` | src/components/ParameterControls.tsx:13-19 | a second edit of the same field overrides the first |
| `ParameterControls.UpdatesCommute` | src/components/ParameterControls.tsx:13-19 | edits of different fields commute |
| `ParameterControls.UpdateDoesNotValidate` | src/components/ParameterControls.tsx:12-20 | nothing is validated: one edit can give min > max, another a zero step |
| `ParameterControls.ResetToDefaults` | src/components/ParameterControls.tsx:22-28 | the reset gives temperature {0.1, 1.0, 0.1}, top_p {0.1, 1.0, 0.1}, max_tokens {100, 1000, 100} |
| `ParameterControls.ResetIgnoresInput` | src/components/ParameterControls.tsx:22-28 | the reset is the same whatever the current range, so resetting twice equals resetting once |
| `ParameterControls.DefaultsWellFormed` | src/components/ParameterControls.tsx:24-26 | the defaults have min ≤ max and a positive step for all three parameters |
| `Page.ResetRestoresInitialRange` | src/app/page.tsx:15-19 | the reset defaults are the page's initial parameter range |
| `PromptInput.TrimStart` | src/components/PromptInput.tsx:22 | the result is a suffix that starts with a non-whitespace character; everything dropped is whitespace |
| `PromptInput.TrimEnd` | src/components/PromptInput.tsx:22 | the result is a prefix that ends with a non-whitespace character; everything dropped is whitespace |
| `PromptInput.Trim` | src/components/PromptInput.tsx:28 | `trim()` is the input with only its leading and trailing whitespace removed: empty exactly for whitespace-only text, otherwise starting and ending with a non-whitespace character |
| `PromptInput.TrimIdempotent` | src/components/PromptInput.tsx:28 | trimming a trimmed string changes nothing |
| `PromptInput.OptionalTrimmed` | src/components/PromptInput.tsx:31-32 | an optional field is unset for whitespace-only input and otherwise the non-empty trimmed text |
| `PromptInput.InitialForm` | src/components/PromptInput.tsx:14-17 | the form starts with empty texts and 5 runs, one of the offered choices |
| `PromptInput.RunsAlwaysOffered` | src/components/PromptInput.tsx:97-108 | after any sequence of input events the run count is one of 3, 5, 10, 15, 20 |
| `PromptInput.HandleSubmit` | src/components/PromptInput.tsx:19-36 | no request for a whitespace-only prompt; otherwise one request with the trimmed non-empty prompt, trimmed-or-unset name and description, and the range and run count unchanged |
| `PromptInput.EnabledSubmitBuildsRequest` | src/components/PromptInput.tsx:113 | the submit button is enabled exactly when not generating and submitting would build a request |
| `PromptInput.SubmittedRequestWellFormed` | src/components/PromptInput.tsx:27-33 | every request built from the edited form has an offered run count and a prompt with no surrounding whitespace |
| `Agreement.BestScoresAgree` | src/components/ExperimentHistory.tsx:120-122 | the history card's best score equals the score of the response the results view marks best |
| `Agreement.AverageScoresAgree` | src/components/ExperimentHistory.tsx:124-127 | the history card's average score equals the overall field of the results view's averages |

## Left out

- The API routes under `src/app/api/` are not part of this model. They are network plumbing around an unseen backend:
  - The DELETE route answers 400 `{success: false, error: "Missing experiment ID"}` itself when the `id` query parameter is missing, without calling the backend.
  - Otherwise each route forwards the request. A successful backend answer is passed on; the export route passes the file body on with the backend's content type and disposition.
  - A failed backend answer is rewritten to `{success: false, error}`, with the backend's error text or "Backend error", and keeps the backend's status.
  - A thrown error becomes 500 `{success: false, error: "Internal server error"}`.
- Loading the history list (`fetchExperiments`, with its loading and error states) and the page's `handleGenerate` are not modelled. Both are network calls with busy-flag bookkeeping.
- `confirm`, `alert`, `console.error`, downloads via blobs and links, markdown, and chart rendering are not modelled. The confirmation and the request outcomes enter the model only as boolean parameters.
- `formatDate` is not modelled. It relies on `Date` and `Intl` locale formatting.
- `ResponseDisplay.ChartData`: rows carry the raw metric values. The rounding to two decimals by `formatScore`, `Math.round(x * 100) / 100`, is floating point and is not modelled.
- Scores and range values are `real`. IEEE-754 rounding in sums, averages and the literals 0.1 and 1.0 is not modelled.
- The `parseFloat` / `parseInt` conversions in the range inputs are not modelled. They can yield `NaN`. `UpdateParameter` takes the parsed value as a real.
- Strings are sequences of characters. JavaScript measures `length` and `substring` in UTF-16 code units, and that difference is not modelled.
- `ResponseDisplay.AverageMetrics`: for an empty list it returns `None` instead of a record whose fields are all `NaN`. The results view never reaches that point, because the `reduce` above it throws first.
- Nothing in the front end ties `totalRuns` to the number of responses, so the model does not assume it.
- Header and layout are static markup and are not modelled.
