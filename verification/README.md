# PromptForge prompt-refinement engine, modelled in Dafny

PromptForge refines a prompt for a large language model until it reproduces a
set of golden test cases. A bootstrap prompt is drafted from the first test
case. Each iteration then scores the current prompt against every case and
keeps the best-scoring prompt seen so far. It stops on a perfect score.
Otherwise it rewrites the prompt: every third iteration from the third on, the
model gives feedback and the prompt evolves from it; on the other iterations
the earliest failing case is patched.

This project models that engine and the pure pieces around it. Every model
call is an oracle passed in as a parameter (`Engine.Env`), so the model states
what is computed from any oracle answers.

- `Wrappers`: `Option` and `Result`. A Python exception is modelled as
  `Failure(message)`.
- `Text`: Python's `strip`, `lstrip`, `rstrip`, `lower`, `startswith`, `in`,
  `split` and `join` on one separator, over ASCII.
- `Config`: the parsed YAML configuration, `_validate_config`, the per-stage
  model routes, the built-in default configuration, and the web app's
  "Save Configuration" merge.
- `Extraction`: the `START <prompt> … </prompt> END` marker regex and
  `_extract_prompt_from_response`.
- `Engine`: output matching, `test_prompt_with_data`,
  `calculate_quality_score` and the four prompt-producing calls. The
  failure summary the feedback request carries is modelled too.
- `Refinement`: one iteration of `create_golden_prompt`, the loop as a
  method over any iteration function, and the properties of the trace it
  leaves.
- `GoldenFile`: the golden-prompt file header written by `main.py`, and the
  cleaner in `predict.py` that reads it back.
- `ReplyParser`: the `Answer:` / `Reasoning:` reply parser of
  `apply_prompt_with_reason`.
- `Sheets`: the two spreadsheet loaders. Each picks the input and output
  columns and turns rows into test cases; the web app's loader also attaches
  an optional reason.

## Model

| member | source | states |
|---|---|---|
| `Config.ValidateConfig` | prompt_optimizer.py:64-71 | Validation passes exactly when the `validation` section can be read and either checking is switched off or both `optimization` and `models` exist. A failed check names the first missing section, `optimization` before `models`. |
| `Config.StageRoute` | prompt_optimizer.py:73-86 | `_call_llm`'s lookup of a stage's provider and model succeeds exactly when the stage is routable. Without a `models` section it raises `KeyError`. |
| `Config.StageRouteSpec` | prompt_optimizer.py:73-86 | A stage's route fails exactly when the `models` section is missing or not a mapping, or the stage's own entry is not a mapping. A stage absent from `models` gets the fallback provider and model. A listed stage uses its own entries, each defaulting separately. |
| `Config.StageRouteIsLocal` | prompt_optimizer.py:73-78 | A stage's route depends only on that stage's entry in `models`. |
| `Config.DefaultConfigIsUsable` | prompt_optimizer.py:40-57 | The built-in configuration passes validation. It routes the bootstrap stage to Claude Sonnet 4.5 and the answer stage to Claude 3.5 Sonnet. |
| `Config.SetKeysSpec` | app.py:180-183 | Writing keys into one section succeeds exactly when the section is absent or a mapping. Then only that section changes, to its old entries overridden by the new ones. |
| `Config.SaveSidebar` | app.py:180-194 | The "Save Configuration" update succeeds exactly when each of `project`, `optimization` and `performance` is absent or a mapping. |
| `Config.SetSectionsSucceeds` | app.py:181-194 | Writing three distinct sections in turn succeeds exactly when each is absent or a mapping. |
| `Config.SetSectionsSpec` | app.py:181-194 | After a successful write, each written section is its old entries overridden by its updates. Every other section is unchanged, and the key set gains exactly the written sections. |
| `Config.SaveSidebarSpec` | app.py:180-194 | The sidebar save creates any missing `project`/`optimization`/`performance` section and sets exactly the listed keys. It leaves every other section as it was, and fails when one of the three is not a mapping. |
| `Extraction.SkipSpacesSpec` | prompt_optimizer.py:90-91 | `\s*` stops at the first non-whitespace character, having passed over whitespace only. |
| `Extraction.SkipSpacesFrom` | prompt_optimizer.py:90 | A `\s*` started anywhere inside a whitespace run ends where the run ends. |
| `Extraction.SpacesBeforeLiteral` | prompt_optimizer.py:90 | A `\s*` followed by `<prompt>`, `</prompt>` or `END` can only stop where the greedy run stops, so backtracking into it never finds another match. |
| `Extraction.GreedyGroupStart` | prompt_optimizer.py:90 | If a group starting earlier, on whitespace, reaches a closing match, so does the group starting after all the whitespace. Taking the whole `\s*` before `(.*?)` never loses a match. |
| `Extraction.FirstClose` | prompt_optimizer.py:90-91 | The lazy group `(.*?)` ends at the smallest index from which `\s*</prompt>\s*END` matches. |
| `Extraction.MatchAt` | prompt_optimizer.py:90-91 | A match attempt at a position succeeds exactly when a full span starts there. The group starts after `START\s*<prompt>\s*` and ends at the first closing match. |
| `Extraction.Search` | prompt_optimizer.py:91 | `re.search` returns the attempt at the leftmost position where one succeeds, with its group inside the text. It finds nothing exactly when every attempt fails. |
| `Extraction.ExtractPrompt` | prompt_optimizer.py:88-94 | The extracted prompt is always stripped. Which text it is, is stated by `ExtractPromptSpec` and `ExtractWrapped`. |
| `Extraction.ExtractPromptSpec` | prompt_optimizer.py:88-94 | Without any marker span the result is the stripped response. Otherwise it is the stripped group of the leftmost span. |
| `Extraction.NoCloseInside` | prompt_optimizer.py:90-91 | Inside a wrapped prompt that never mentions `</prompt>`, no closing match starts before the wrapper's own newline. |
| `Extraction.OpenWrapped` | prompt_optimizer.py:90-91 | In a wrapped prompt, the opening part matches at 0 and the group starts at the prompt. |
| `Extraction.CloseWrapped` | prompt_optimizer.py:90-91 | In a wrapped prompt, the closing part matches right after the prompt. |
| `Extraction.FirstCloseWrapped` | prompt_optimizer.py:90-91 | In a wrapped prompt, the lazy group ends exactly at the end of the prompt. |
| `Extraction.ExtractWrapped` | prompt_optimizer.py:88-94 | Extraction inverts wrapping: `START <prompt>\n p \n</prompt> END` yields `p` for every stripped `p` that does not mention `</prompt>`. |
| `Engine.MatchIsEquivalence` | prompt_optimizer.py:171-173 | Output matching is reflexive, symmetric and transitive. |
| `Engine.CheckOutputMatch` | prompt_optimizer.py:171-173 | Outputs that are equal once stripped match. Matching outputs have stripped forms of equal length, because lower-casing keeps the length. |
| `Engine.MatchIgnoresCase` | prompt_optimizer.py:171-173 | Every text matches its upper-cased form. |
| `Engine.MatchExample` | prompt_optimizer.py:171-173 | Surrounding whitespace and letter case are ignored (`" a "` matches `"A"`). |
| `Engine.MismatchExample` | prompt_optimizer.py:171-173 | Different letters do not match. |
| `Engine.GenerateAnswer` | prompt_optimizer.py:109-118 | An unroutable answer stage raises the route's error before the model is asked. With a routable stage and a model that never fails, an answer is always produced. |
| `Engine.Answers` | prompt_optimizer.py:109-118 | Answers are collected in case order, one per case. The first failing model call aborts with its own error. |
| `Engine.Evaluate` | prompt_optimizer.py:175-206 | The evaluation counts every case. Matches plus recorded failures equal the total, and the failures are the mismatches of the answers. |
| `Engine.MismatchesSplit` | prompt_optimizer.py:192-204 | Failures are recorded case by case: the failures of two blocks of cases are those of the first followed by those of the second. |
| `Engine.MismatchesMembers` | prompt_optimizer.py:192-204 | A failure is recorded exactly for each case whose answer does not match, carrying its input, expected value and answer. |
| `Engine.FirstMismatch` | prompt_optimizer.py:312-313 | The earliest case whose answer does not match; every earlier case matches. |
| `Engine.FirstMismatchIsEarliest` | prompt_optimizer.py:312-313 | `failed_cases[0]` is the earliest failing case, and there are no failures exactly when every case matches. |
| `Engine.QualityOf` | prompt_optimizer.py:208-228 | The success rate is `100 * matches / total` (0 with no cases) and lies in [0, 100]. It is 100 exactly when every case matches. The consistency, robustness and overall scores equal it. |
| `Engine.CalculateQualityScore` | prompt_optimizer.py:208-228 | Scoring fails exactly when the evaluation fails. Otherwise the score is `QualityOf` of the evaluation's match count over the number of cases, so it inherits the rate's bounds and its "100 exactly when all match". |
| `Engine.GenerateInitialPrompt` | prompt_optimizer.py:96-107 | The bootstrap prompt is stripped. An unroutable bootstrap stage raises the route's error. |
| `Engine.OptimizePrompt` | prompt_optimizer.py:120-133 | A patched prompt is stripped. An unroutable optimizer stage raises the route's error. |
| `Engine.EvolvePrompt` | prompt_optimizer.py:156-169 | An evolved prompt is stripped. With a model that never fails, evolution always succeeds. |
| `Engine.InitialPromptFromMarkers` | prompt_optimizer.py:96-107 | When the bootstrap reply wraps a prompt `p` in `START <prompt> … </prompt> END`, the bootstrap prompt is exactly `p`. A failed call raises its own error. |
| `Engine.PatchFromMarkers` | prompt_optimizer.py:120-133 | When the patch reply wraps a prompt `p` in the markers, the patched prompt is exactly `p`. A failed call raises its own error. |
| `Engine.EvolveFromMarkers` | prompt_optimizer.py:156-169 | When the evolution reply, asked directly of Claude, wraps a prompt `p` in the markers, the evolved prompt is exactly `p`. A failed call raises its own error. |
| `Engine.CollectFeedback` | prompt_optimizer.py:135-154 | Asked directly of Claude, feedback is always collected when the model never fails. |
| `Engine.FeedbackSeesFirstFive` | prompt_optimizer.py:141-154 | Failures after the fifth never change the feedback request. |
| `Engine.FailureSummary` | prompt_optimizer.py:141-144 | The failure text is empty exactly when there are no failures. |
| `Engine.JoinFormatted` | prompt_optimizer.py:141-144 | Joining the formatted failures with newlines gives their four lines each (`Input:`, `Expected:`, `Got:`, `---`) joined by newlines. |
| `Engine.AllFailureLinesSingle` | prompt_optimizer.py:141-144 | Single-line failures give four lines each, none holding a newline. |
| `Engine.FailureSummaryLines` | prompt_optimizer.py:141-144 | The summary is empty exactly when there are no failures. Otherwise it splits back into the lines of at most the first five failures. |
| `Engine.FailureSummaryShowsFive` | prompt_optimizer.py:144 | Failures after the fifth never reach the summary. |
| `Engine.EvaluateTotal` | prompt_optimizer.py:175-206 | With an oracle that never fails and a routable answer stage, evaluation succeeds. |
| `Refinement.RunIteration` | prompt_optimizer.py:264-321 | A successful iteration is faithful to the engine. Its evaluation is the prompt's evaluation, its record holds the prompt with the rate and score of that evaluation, and its move is the one the engine computes for that iteration. |
| `Refinement.IterationTotal` | prompt_optimizer.py:264-321 | With an oracle that never fails and a configuration that routes every stage, an iteration succeeds. |
| `Refinement.NextMove` | prompt_optimizer.py:295-321 | A perfect evaluation converges. An evolution happens only on an imperfect iteration divisible by 3 past the second. A patch happens only on the other imperfect iterations, and targets the first recorded failure. "Nothing to patch" only happens with no recorded failure. |
| `Refinement.NextMoveTotal` | prompt_optimizer.py:300-321 | With an oracle that never fails and a routable optimizer stage, choosing and computing the next prompt succeeds. |
| `Refinement.BestSoFarExtend` | prompt_optimizer.py:288-293 | A new record replaces the best prompt only when its score is strictly greater. |
| `Refinement.TracedByExtend` | prompt_optimizer.py:262-321 | Appending the next iteration's record and step keeps the history a faithful trace of the loop. |
| `Refinement.RefineLoop` | prompt_optimizer.py:258-321 | The loop runs between 1 and `max_iterations` iterations (none if `max_iterations <= 0`) and leaves a faithful trace. It stops early only on a perfect score. It returns the earliest best-scoring prompt. It succeeds whenever every iteration does. A failure is the error of an iteration the loop actually reaches, within the budget and after a continuing step. |
| `Refinement.CreateGoldenPrompt` | prompt_optimizer.py:230-344 | No test data gives the empty prompt. Otherwise the run starts from the drafted bootstrap prompt, and the loop's guarantees hold of it. It succeeds whenever the oracle never fails and every stage is routable. A failure is either the bootstrap call's error or the error of an iteration the loop reaches from that bootstrap prompt. |
| `Refinement.TracedAt` | prompt_optimizer.py:262-321 | In a trace, iteration `k+1` ran on the bootstrap prompt or on the previous step's next prompt, and its record holds that prompt. |
| `Refinement.TracedFaithful` | prompt_optimizer.py:262-321 | Every traced step is what the engine computes for that prompt and iteration number. |
| `Refinement.StepStopsIffPerfect` | prompt_optimizer.py:295-321 | An iteration stops the loop exactly when every case matches. The "no failed case" break never fires. |
| `Refinement.NextMoveKinds` | prompt_optimizer.py:295-321 | The chosen move converges exactly on a perfect evaluation, and is never the "nothing to patch" break. |
| `Refinement.StepScore` | prompt_optimizer.py:274-298 | The recorded score lies in [0, 100]. With data, the loop stops exactly when the score is 100. |
| `Refinement.StepEvolvesEveryThird` | prompt_optimizer.py:300-321 | When not perfect, the prompt evolves exactly on iterations divisible by 3 from the third on, using the collected feedback; otherwise it is patched. |
| `Refinement.PatchTargetsEarliestFailure` | prompt_optimizer.py:310-318 | A patch targets the earliest failing case, with the model's actual answer, and its result is the next prompt. |
| `Refinement.BestSoFarSpec` | prompt_optimizer.py:258-293 | The best score bounds every recorded score and is at least 0. At 0 the bootstrap prompt is returned. Otherwise the result is the first record that reaches the best score. |
| `Refinement.BestNeverDecreases` | prompt_optimizer.py:288-293 | The best score never decreases as the history grows. |
| `Refinement.EarlierStepsContinue` | prompt_optimizer.py:295-298 | Every step but the last in a trace continued the loop. |
| `Refinement.TracedScore` | prompt_optimizer.py:274-298 | Every traced score lies in [0, 100]. A step converges exactly at 100, and no step before the last scored 100. |
| `Refinement.PerfectRunReturnsLastPrompt` | prompt_optimizer.py:288-298 | A run that ends on a perfect score returns its last prompt with score 100. |
| `Refinement.LastPerfectIsBest` | prompt_optimizer.py:289-292 | A history whose last score is 100 and whose earlier scores are below 100 keeps its last prompt as the best. |
| `Text.StripEmptyIffBlank` | predict.py:75 | `s.strip() == ''` exactly when `s` is all whitespace. |
| `Text.StripOfStripped` | predict.py:80 | Stripping a text that has no whitespace at either end leaves it unchanged. |
| `Text.StripUpper` | prompt_optimizer.py:173 | Upper-casing commutes with stripping. |
| `Text.JoinSplit` | predict.py:69 | Joining the pieces of a split with the separator gives back the text. |
| `Text.SplitJoin` | predict.py:69 | Splitting a join of separator-free pieces gives back the pieces. |
| `Text.SplitAtFirst` | predict.py:165 | A text with the separator splits into the part before its first occurrence and the pieces after it. |
| `Text.SplitHead` | predict.py:165 | The first piece of a split runs up to the first separator. |
| `GoldenFile.KeepLines` | predict.py:69-78 | Kept lines are non-blank lines of the input, and no more than it has. While skipping the metadata, the first kept line is not a comment. |
| `GoldenFile.CleanGoldenPrompt` | predict.py:67-80 | The cleaned prompt has no whitespace at either end. |
| `GoldenFile.BodyStart` | predict.py:69-78 | The metadata section is the longest prefix of blank or `#` lines. |
| `GoldenFile.KeepLinesSpec` | predict.py:69-78 | The cleaner keeps every non-blank line from the first line that is neither blank nor a comment. Comment lines after it are kept. |
| `GoldenFile.KeepAll` | predict.py:69-78 | Lines that are all non-blank, and do not start with a comment, are all kept. |
| `GoldenFile.SkipMetadata` | predict.py:69-78 | A leading block of comment and blank lines is dropped whole. |
| `GoldenFile.StripJoin` | predict.py:80 | Stripping non-blank lines joined by newlines only trims the first line's start and the last line's end. |
| `GoldenFile.CleanIsIdempotent` | predict.py:67-80 | Cleaning a cleaned prompt changes nothing. |
| `GoldenFile.HeaderSkipped` | main.py:148-153 | The five `#` header lines and the blank line are all skipped by the cleaner. |
| `GoldenFile.SplitGoldenFile` | main.py:148-154 | With single-line header fields, the file splits into the six header lines followed by the prompt's lines. |
| `GoldenFile.PromptSurvives` | predict.py:67-80 | A stripped prompt whose lines are non-blank and whose first character is not `#` is cleaned to itself. |
| `GoldenFile.HeaderRoundTrip` | main.py:148-154 | Reading back a saved golden-prompt file recovers the prompt, under the conditions of `PromptSurvives` and with single-line header fields. |
| `ReplyParser.AfterColon` | predict.py:157 | `s.split(':', 1)[1]` is the part of `s` after its first colon: the character before it is a colon, and no earlier character is one. `AfterLabel` gives its value after a label. |
| `ReplyParser.AfterLabel` | predict.py:157 | After a label with no colon of its own, followed by `:`, comes exactly the rest of the line. |
| `ReplyParser.AnswerText` | predict.py:157 | The answer taken from an answer line is stripped. |
| `ReplyParser.Scan` | predict.py:155-161 | The scanned answer and reasoning are stripped. |
| `ReplyParser.ParseReply` | predict.py:150-167 | An empty reply parses to two empty strings. The answer is empty exactly when the reply is blank; a blank non-empty reply gets the "no reasoning" text. Both parts are stripped. |
| `ReplyParser.ApplyPromptWithReason` | predict.py:127-172 | A configuration error propagates. A model error becomes `("ERROR", message)`. A reply is parsed. |
| `ReplyParser.PredictRouteDefault` | predict.py:128-131 | Without an `answer_generator` entry the call goes to Claude's default haiku model. |
| `ReplyParser.PredictRoute` | predict.py:128-131 | The prediction route fails exactly when `models` or its `answer_generator` entry is present but not a mapping. A missing `models` section is tolerated, unlike in the optimizer. Where the optimizer's lookup succeeds, the two agree on the provider, and on the model when the entry names one. |
| `ReplyParser.LabelsExclusive` | predict.py:156-158 | No line is both an answer line and a reasoning line. |
| `ReplyParser.FirstReasoning` | predict.py:158-161 | The first reasoning line, before which there is none. |
| `ReplyParser.LastAnswer` | predict.py:156-157 | The last answer line before a bound, after which there is none. |
| `ReplyParser.LastAnswerShift` | predict.py:155-157 | Dropping the first line shifts the last answer line by one, or leaves line 0 when only it answers. |
| `ReplyParser.ScanReasoning` | predict.py:158-161 | The reasoning is everything from the first reasoning line on, after its first colon and stripped; it is empty without one. |
| `ReplyParser.ScanAnswer` | predict.py:155-161 | The answer comes from the last answer line before the first reasoning line, or is empty. Later lines are never looked at. |
| `ReplyParser.ScanSpec` | predict.py:155-161 | Both parts of the scan, as characterised by the two lemmas above. |
| `ReplyParser.ParseReplyUnlabelled` | predict.py:163-167 | When the scan finds no non-empty answer in a non-blank reply (no answer line, an empty `Answer:` line, or a reasoning line before any answer line), the answer is the stripped first line. The reasoning is the stripped rest after the first newline, or the "no reasoning" text for a one-line reply. |
| `ReplyParser.NoAnswerLineFallsBack` | predict.py:155-157 | A reply with no answer line scans to an empty answer, so it takes the fallback. |
| `ReplyParser.LineThenTail` | predict.py:154 | Two lines joined by a newline are already stripped when their ends are visible, and split into the first line and the second's pieces. |
| `ReplyParser.WellFormedLines` | predict.py:154 | A reply in the requested format is already stripped and splits after its answer line. |
| `ReplyParser.ScanAnswerThenReasoning` | predict.py:155-161 | An answer line followed by a reasoning line gives that answer and everything from the reasoning line on. |
| `ReplyParser.WellFormedReply` | predict.py:150-167 | `Answer: A\nReasoning: R` parses to `(strip(A), strip(R))`, even when `R` spans several lines. |
| `ReplyParser.ApplyFormattedReply` | predict.py:133-167 | When the model answers in the requested format, the prediction and its reasoning are the two fields, stripped. |
| `Sheets.FindColumn` | main.py:39-40 | The first column whose name satisfies the test, and none before it; absent exactly when no column does. |
| `Sheets.ChooseColumns` | main.py:35-44 | `input_data`/`expected_output` are used when both exist. Otherwise the columns are the first input-like and the first output-like ones, defaulting to 0 and 1. Fewer than two columns raise `IndexError` even when matching columns exist. |
| `Sheets.SelectPairs` | main.py:46-51 | At most one case per row; every loaded value is stripped and neither empty nor `nan`. |
| `Sheets.SelectPairsAppend` | main.py:46-51 | Rows are processed in order, one at a time: loading two blocks of rows is loading each in turn. |
| `Sheets.SelectPairsMember` | main.py:46-51 | A case is loaded exactly when some row's stripped cells are it and neither is empty or `nan`. |
| `Sheets.MainLoad` | main.py:30-67 | A read error or a column-choice error yields the sample data, provided the sample file can be written. Every loaded value is usable, and there are at most as many cases as rows. |
| `Sheets.ReasonColumn` | app.py:92 | The reason column is found exactly when the sheet has one. |
| `Sheets.SelectRows` | app.py:94-107 | At most one row per sheet row; a row carries a reason only with a reason column, and that reason is stripped and usable. |
| `Sheets.RowOf` | app.py:96-107 | A sheet row yields one row exactly when its stripped input and output are usable, and carries those values. A reason is attached only from the reason column, stripped and usable. |
| `Sheets.AppLoad` | app.py:75-112 | No file, a read error or an unusable header yields no rows. A row with a reason comes only from a sheet with a reason column. |
| `Sheets.RowOfReason` | app.py:96-107 | A kept row is a triple exactly when there is a reason column and the row's stripped reason is neither empty nor `nan`. |
| `Sheets.Cases` | app.py:94-107 | Dropping reasons keeps every row and its input and expected value. |
| `Sheets.SelectRowsProject` | app.py:96-98 | Whether a row is kept does not depend on its reason: without reasons, the web app loads exactly the command-line loader's cases. |
| `Sheets.LoadersAgree` | app.py:83-107 | Both loaders choose the same columns and keep the same rows. On an unusable header, one gives no rows and the other the sample data. |
| `Sheets.ReasonCount` | app.py:268 | The reason count is at most the number of rows. |
| `Sheets.ReasonCountPositive` | app.py:267-268 | `has_reason` holds exactly when `reason_count` is positive. |
| `Sheets.NoReasonColumn` | app.py:92-107 | Without a reason column, no loaded row has a reason. |
| `Sheets.UnpackCase` | prompt_optimizer.py:192 | Unpacking a row as `input, expected` succeeds exactly for a pair. |
| `Sheets.UnpackRows` | prompt_optimizer.py:192 | Unpacking the rows succeeds exactly when none has a reason, and then gives their cases in order. |
| `Sheets.ReasonRowBreaksUnpacking` | app.py:103 | A sheet with `input_data`, `expected_output` and `reason` columns whose first row is fully filled in is loaded with a reason, and the engine cannot unpack it. |
| `Sheets.CasesCorrectUnpack` | prompt_optimizer.py:192 | Dropping the reasons never fails and keeps every row. It agrees with unpacking wherever unpacking succeeds, and unpacking fails exactly when some row has a reason. |

## Left out

- File, YAML and spreadsheet I/O (`load_config`, `save_config`, `_load_prompts`, `read_excel`, `to_excel`, the golden-prompt file lookup) are not modelled. A read is a `Result` parameter.
- The model providers (`utils/llms.py`) are not modelled. Every model call is the oracle `Env.llm`, which either fails or answers.
- Template filling with `str.format` is the oracle `Env.render` over the named arguments. A template's own `KeyError` is not modelled.
- Console output, the Streamlit interface and the final report thresholds are not modelled.
- Each iteration evaluates the prompt twice, once in `test_prompt_with_data` and once in `calculate_quality_score`. The oracle is a function, so both evaluations agree and the model performs one.
- Scores are `real`. Python's floating-point rounding and the `:.1f` formatting of the header fields are not modelled; the header takes the formatted strings and the timestamp as parameters.
- `Text` covers ASCII only: whitespace is codes 9–13 and 28–32, and letter case is A–Z and a–z. Python's Unicode tables are not modelled.
- `Sheets` cells are strings already converted with `str`, so the `nan` of an empty cell is a cell value. A column name that is not a string, which would make `col.lower()` raise, is not modelled.
- `Engine.GenerateInitialPrompt`: its contract states only that the prompt is stripped and that a configuration error propagates. `Engine.InitialPromptFromMarkers` gives the prompt for a reply in the marker format, and `Extraction.ExtractPromptSpec` for any other reply. Which template arguments reach the model is fixed by the body only.
- `Engine.OptimizePrompt`: the same, with `Engine.PatchFromMarkers` as the marker-format lemma.
- `Engine.EvolvePrompt`: the same, with `Engine.EvolveFromMarkers` as the marker-format lemma.
- `Sheets.MainLoad`: the sample-data fallback also writes the sample spreadsheet from inside the exception handler (main.py:64-65). If that write raises, for instance because the directory is missing, the exception escapes the loader. The model has no file system, so it always returns the sample data on that path.
- `ReplyParser.WellFormedReply`: requires the reasoning to end in a non-whitespace character and the answer to be a single non-blank line. Other replies go through `ParseReply`'s general contract and `ScanSpec`.
- `GoldenFile.HeaderRoundTrip`: requires single-line header fields and a prompt without blank lines. A blank line inside the prompt is dropped by the cleaner, so the round trip holds only without them. The lemma is about the file's characters as written. Python's text-mode read turns `\r` and `\r\n` into `\n`, so a prompt or use case containing `\r` is not recovered. Which file `predict.py` opens is not modelled either. `main.py` writes `golden_prompt_<timestamp>.txt` in the working directory, while `predict.py` looks for `golden_prompts/golden_prompt_*.txt` and otherwise falls back to `golden_prompt.txt`, which has no header (main.py:145-158, predict.py:33-46).
- Configuration keys that the engine never reads (`target_success_rate`, `feedback_frequency`, `enable_parallel`, `max_workers`) are written by the sidebar model but have no effect on the loop, as in the source.

## Findings

| source | as written | input that shows it | evidently intended | confidence | as-written member | corrected member |
|---|---|---|---|---|---|---|
| app.py:103 | The web app's loader returns `(input, expected, reason)` for rows with a reason. The engine unpacks every test case as a pair (prompt_optimizer.py:192, 253), so a sheet with reasons makes the run raise `ValueError: too many values to unpack`. | Columns `input_data`, `expected_output`, `reason` and the row `a`, `b`, `c` | The engine receives the cases with their reasons dropped (or uses them), so that a sheet with a reason column can be optimised | high, not executed | `Sheets.UnpackRows` (with `Sheets.ReasonRowBreaksUnpacking`) | `Sheets.Cases` (with `Sheets.CasesCorrectUnpack` and `Sheets.LoadersAgree`) |
