# Assignment grader: question parsing, mark extraction and session totals

The application generates an assignment from course slides with an LLM. The
assignment has three text blobs: multiple-choice questions, long-answer
questions and programming questions. A student attempts it in a Streamlit
session, and the program grades the attempt. This project models the
deterministic layer between the LLM calls and the widgets.

- **Question parser** (`QuestionParser`):
  - `extract_marks_from_question` reads the first `[Marks: N]`.
  - `get_correct_mcq_answer` and `check_mcq_answer` find the letter of the
    first `Correct Answer: X` after `"<n>."`.
  - It splits the multiple-choice blob into blocks on `"Correct Answer"`.
  - It keeps the lines of a blob that start with `digits.` once stripped.
- **Suggested marks** (`SuggestedMarks`): `extract_suggested_marks` runs an
  ordered chain of eight case-insensitive patterns over a grader's
  feedback. The first pattern that matches anywhere wins, and its value is
  capped at the question's marks.
- **Session bookkeeping** (`Grading`):
  - The "Evaluate Assignment" handler builds `evaluation_results`. It has
    one entry per chosen or answered question, keyed `mcq{i}`, `long{i}`
    and `prog{i}`.
  - It seeds the instructor marks `override{i}` and `progmarks{i}` from
    the suggestions, but only where no mark exists yet.
  - `calculate_statistics` totals attempts, correct answers and marks per
    section.
  - The session is a `SessionState` object whose fields are the session
    keys these handlers read and write. `Evaluate` modifies only
    `results`, `overrides` and `progMarks`. Its effect is stated by the
    value-level `EvaluateAssignment`, which it calls.
- **Marks totaller** (`MarksTotaller`): `parse_questions_with_marks` from
  `test.py` totals every strict `[Marks: N]` and cuts those annotations out
  of the text. The same file has its own `check_mcq_answer`.

How the regular expressions are modelled (`Scanner`):
- Each regular expression the code uses is written as a fixed sequence of
  atoms: a literal, an optional character, `\s*`, `\d+` and one capture
  group `(\d+)`.
- The atoms are matched greedily, left to right, without backtracking. For
  every pattern used here this gives the same match as Python's `re`: each
  optional character, `\s*` and `\d+` is followed by an atom that cannot
  start with a character it consumed.
- `Search` is `re.search`, the leftmost match. `FindAll` is `re.finditer`.
  `Sub` is `re.sub(p, '', s)`.
- The multiple-choice pattern `{n}\..*?Correct Answer: ([A-D])` with
  `re.DOTALL` has its own two-level scanner, `AnswerSearch`.
  `CorrectMcqAnswerSpec` proves that it finds the first answer line after
  the first `"<n>."`.
- `{n}\.` is not anchored to a line start, and the model keeps that. In
  `1. Is 2.5 > 2? ... Correct Answer: A` followed by
  `2. ... Correct Answer: B`, question 2 reads `A`: the first `"2."` is
  the one inside `2.5`.

Where the description and the code disagree, the model follows the code:
- The total marks of a section add a question's marks only when that
  question has an entry in the results. With questions worth 2, 3 and 4
  and the second unanswered, the total is 6, not 9.
- The instructor marks are summed without clamping.

`Text` provides the Python string operations these rely on: `isspace`,
`int()` on digit runs, `str()` of a number, `upper()`, `find`, `split`,
`join` and `strip`.

## Model

| member | source | states |
|---|---|---|
| Text.DecimalRoundTrip | app.py:102 | Reading back the decimal spelling of a question number gives the number. |
| Text.Upper | app.py:105 | `upper()` keeps the length and upper-cases each character, changing only ASCII letters. |
| Text.FindFrom | app.py:110-111 | The result is the leftmost occurrence at or after the start, or there is none. |
| Text.SplitJoin | app.py:300 | Joining the pieces of `split(sep)` with `sep` gives back the text. |
| Text.SplitPiecesFree | app.py:300 | No piece of a split contains the separator. |
| Text.SplitCount | app.py:300 | A separator that cannot overlap itself gives one more piece than it has occurrences. |
| Text.StripSpec | app.py:314-315 | `strip()` result has non-space ends and is the original minus whitespace-only padding. |
| Text.StripOffset | app.py:314-315 | Gives the offset at which the stripped text sits inside the original, with whitespace on both sides. |
| Text.StripEmpty | app.py:353 | `answer.strip()` is empty exactly when the answer is all whitespace. |
| Scanner.Search | app.py:97 | `re.search`: the match returned is the leftmost, and with no result no position matches. |
| Scanner.FindAll | test.py:100-101 | `re.finditer`: every hit is a match, and the hits are non-empty, ordered and non-overlapping. |
| Scanner.FindAllComplete | test.py:100-101 | `re.finditer` skips no match: no position before the first hit, between one hit's end and the next hit, or after the last hit starts a match. |
| Scanner.SkipDigitsExact | app.py:97 | `\d+` stops exactly at the end of the digit run. |
| Scanner.SkipSpacesExact | app.py:97 | `\s*` stops exactly at the end of the whitespace run. |
| Scanner.SearchFindsLeftmost | app.py:97 | A match with none before it is what the search returns. |
| QuestionParser.MarksMatchIsAnnotation | app.py:96-98 | A match of `\[Marks:\s*(\d+)\]` is an annotation `[Marks:`, whitespace, digits, `]`, whose value is the digits' value. |
| QuestionParser.AnnotationIsMarksMatch | app.py:96-98 | Conversely, every such annotation is matched at its start with its value. |
| QuestionParser.ExtractMarksLeftmost | app.py:96-98 | The marks are the value of the leftmost annotation. |
| QuestionParser.ExtractMarksAbsent | app.py:96-98 | With no annotation the marks are 0. |
| QuestionParser.ExtractMarksPresent | app.py:96-98 | With some annotation, the marks are the value of an annotation that has none before it. |
| QuestionParser.AnnotationsBeforeLeftmost | app.py:97 | No annotation starts before the scanner's leftmost match. |
| QuestionParser.ExtractMarksPadded | app.py:314-315 | Whitespace padding around a question does not change its marks. |
| QuestionParser.ExtractMarksStrip | app.py:213 | A stripped question line carries the same marks as the raw line. |
| QuestionParser.NextAnswer | app.py:102 | The first `Correct Answer: ` followed by a letter A to D at or after a position, or none. |
| QuestionParser.AnswerAfter | app.py:110-112 | Any letter found is one of A, B, C, D. |
| QuestionParser.AnswerSearchSpec | app.py:110-111 | The lazy-dot search equals: find the first `"<n>."`, then the first answer line after it. |
| QuestionParser.AnswerSearchFails | app.py:110-112 | With no answer line after the prefix, the search finds nothing. |
| QuestionParser.CorrectMcqAnswerSpec | app.py:109-112 | `get_correct_mcq_answer` is the first answer letter after the first `"<n>."`, in A to D, or none. |
| QuestionParser.CheckMcqAnswerSpec | app.py:101-106 | With no answer line the check is false. Otherwise it is true exactly when the answer is the letter, in upper or lower case. |
| QuestionParser.McqBlocksCount | app.py:300-303 | There are as many multiple-choice slots as occurrences of `"Correct Answer"`, and no block contains it. |
| QuestionParser.McqBlocksRoundTrip | app.py:300-303 | The blocks, plus the dropped last piece, joined with the marker give back the blob. |
| QuestionParser.IsNumberedSpec | app.py:314-315 | A question line is one `re.match(r'^\d+\.')` accepts: one or more digits, then a dot. |
| QuestionParser.Filter | app.py:314-315 | The filter keeps only accepted lines, keeps every accepted line, and never grows the list. |
| QuestionParser.FilterAppend | app.py:314-315 | The filter distributes over concatenation, so kept lines stay in their original order. |
| QuestionParser.StripEachSpec | app.py:314 | Each stripped question is the stripped line at the same index. |
| QuestionParser.QuestionTextsSpec | app.py:314-315 | The k-th question text is the stripped k-th question line, and it is numbered. |
| SuggestedMarks.FirstMatch | app.py:127-131 | The result is the first pattern, in list order, that matches anywhere, with its leftmost match. Patterns before it match nowhere. |
| SuggestedMarks.FirstMatchIsFirst | app.py:127-131 | With no pattern matching the chain yields nothing. Otherwise it yields the first matching pattern's index and its leftmost match. |
| SuggestedMarks.ExtractSuggestedMarks | app.py:115-133 | The result lies in `[0, max_marks]` when `max_marks >= 0`; in any case it is 0 or at most `max_marks`. |
| SuggestedMarks.SuggestedMarksPriority | app.py:116-133 | No pattern matching gives 0. Otherwise the value is the first matching pattern's value, capped, wherever later patterns match. |
| SuggestedMarks.PromptFormatRead | app.py:150 | Feedback holding `Suggested marks: X` followed by a non-digit is read back as `min(X, max_marks)`, whatever comes before it, provided that text never spells `suggested mark`. |
| SuggestedMarks.ScoreBeforeSuggestion | app.py:116-133 | `Score: 9 Suggested marks: 7/10` with 10 marks gives 7: the suggested-marks pattern wins over an earlier score. |
| SuggestedMarks.LeadRun | app.py:116 | The first pattern matches `Suggested marks: ` and digits, wherever they start, with the digits' value. |
| SuggestedMarks.LeadAt | app.py:116 | `Suggested marks: X` followed by a non-digit is the first pattern's match at its position, worth X. |
| SuggestedMarks.NoLeadBefore | app.py:116 | The first pattern matches nowhere in text that never spells `suggested mark`. |
| Grading.McqEntry | app.py:341-348 | The entry records the answer and `get_correct_mcq_answer`'s letter for its slot. It is marked correct if and only if that letter exists and the upper-cased answer equals it. The letter is in A to D. |
| Grading.WrittenEntry | app.py:353-362 | The entry records question, answer and the language model's feedback. Its suggested marks lie in `[0, marks of the question]`. |
| Grading.WrittenEntrySuggestion | app.py:355-356 | The suggested marks are `extract_suggested_marks` of the entry's feedback, capped at the question's marks. |
| Grading.GradeMcqs | app.py:339-348 | The loop leaves exactly one entry per chosen slot `1..blocks`, each built from its own slot. |
| Grading.GradeWritten | app.py:351-381 | The loop leaves exactly one entry per question with a non-blank answer, and seeds a mark only where none existed. |
| Grading.EvaluateAssignment | app.py:337-383 | The new results are the evaluation of the attempt. Each instructor-mark map is the old one plus the new suggestions for the keys it lacked. |
| Grading.EvaluationOfSections | app.py:383 | The union of the three sections' entries is the evaluation of the whole attempt. |
| Grading.EvaluationUnique | app.py:337 | Results are rebuilt from scratch, so they depend on the attempt alone. |
| Grading.SeedingIdempotent | app.py:364-365 | Seeding again from the same entries changes no instructor mark. |
| Grading.EvaluateTwice | app.py:337-383 | Evaluating the same attempt twice leaves results and instructor marks as the first evaluation left them. |
| Grading.ReseedingKeepsMarks | app.py:364-365 | Seeding again from entries for the same answered questions changes no instructor mark, whatever feedback the grading calls returned. |
| Grading.EvaluateTwiceKeepsMarks | app.py:364-381 | A second evaluation of the same attempt leaves every instructor mark as the first left it, even when the grading calls answer differently. |
| Grading.SeedingKeepsRange | app.py:364-365 | Seeded marks lie within the question's marks, so in-range instructor marks stay in range. |
| Grading.EvaluationKeepsRange | app.py:337-383 | After an evaluation from in-range marks, including a fresh session's none, all instructor marks are in range. |
| Grading.QuestionTextsMarks | app.py:213 | The question texts carry the marks of the raw question lines. |
| Grading.McqTally | app.py:207-217 | The multiple-choice loop computes the attempted, correct, total, obtained and available counts of `McqTallyOf`. |
| Grading.WrittenTally | app.py:220-243 | The written-section loops compute the attempted, total, instructor-mark and available counts of `WrittenTallyOf`. |
| Grading.AttemptedAtMost | app.py:207-212 | No more questions are attempted than listed. |
| Grading.AttemptedIsCount | app.py:210-212 | `attempted` is the number of indices of the section that have an entry. |
| Grading.CorrectWithinAttempted | app.py:210-217 | Correct answers never exceed attempts, and marks obtained never exceed marks available. |
| Grading.AwardedWithinMarks | app.py:224-230 | In-range instructor marks sum to between 0 and the attempted questions' marks. |
| Grading.WrittenFiguresKeysOnly | app.py:224-243 | Written-section figures depend only on which questions have an entry, not on the suggested marks inside them. |
| Grading.WrittenTallyKeysOnly | app.py:224-243 | The whole written-section tally depends only on which questions have an entry. |
| Grading.StatsBounds | app.py:207-243 | In every section attempted does not exceed total. For multiple choice, correct does not exceed attempted and marks obtained do not exceed total marks. |
| Grading.EvaluatedStatsBounds | app.py:224-243 | After an evaluation from in-range marks, each written section obtains between 0 and its total marks. |
| Grading.NoClamp | app.py:229-230 | An instructor mark above a question's marks is added as it is, so marks obtained can exceed the total. |
| Grading.TotalCountsAttemptedOnly | app.py:224-228 | Questions worth 2, 3 and 4, with the second unanswered, give total marks 6, two attempts and three questions. |
| Grading.SessionState.constructor | app.py:251-252 | A new session has empty results, widget values and instructor marks. |
| Grading.SessionState.Evaluate | app.py:335-383 | The handler leaves the assignment and answers untouched. Results and instructor marks become what `EvaluateAssignment` states. |
| Grading.SessionState.CalculateStatistics | app.py:192-245 | The statistics are `StatsOf` the session's assignment, results and instructor marks. |
| MarksTotaller.TestMatchShape | test.py:100 | `\[Marks: (\d+)\]` matches exactly at a `[Marks: `, one space, digits, `]`, with the digits' value. |
| MarksTotaller.StrictMatchIsShape | test.py:100 | A strict match found at a position has the `[Marks: `, digits, `]` shape, ends where that shape does and carries the digits' value. |
| MarksTotaller.StrictShapeIsMatch | test.py:100 | Every `[Marks: `, digits, `]` shape is the strict match at its position. |
| MarksTotaller.StrictIsAnnotation | test.py:100 | Every strict annotation is also an app annotation with the same end and value. |
| MarksTotaller.StricterThanApp | test.py:100 | `[Marks:7]` is worth 7 to `extract_marks_from_question` but matches nowhere under the strict pattern. |
| MarksTotaller.SubDeletesMatches | test.py:108 | `re.sub` with `''` deletes exactly the matches `re.finditer` reports. |
| MarksTotaller.DeleteLength | test.py:108 | Deleting the matches shortens the text by the characters they cover. |
| MarksTotaller.SumValuesBound | test.py:103-105 | Each match's value is at most the total. |
| MarksTotaller.NoMatchNoHits | test.py:100-101 | With no match anywhere, `re.finditer` yields nothing. |
| MarksTotaller.SumMatches | test.py:103-105 | The loop's total is the sum of the matches' values and at least each of them. |
| MarksTotaller.ParseQuestionsWithMarks | test.py:84-110 | The total is the sum over all left-to-right non-overlapping matches, and no match is skipped. The cleaned text is the input with those matches deleted and shrinks by their length. Text with no annotation comes back unchanged with total 0. |
| MarksTotaller.TestCheckMcqAnswerSame | test.py:114-129 | `test.py`'s `check_mcq_answer` gives the same verdict as `app.py`'s for every input. |

## Left out

- The Gemini calls and prompt templates (`generate_*`, `evaluate_long_answer`, `analyze_programming`, and `test.py`'s generators) are foreign network calls. A grader is a function parameter from question and answer to feedback text. The model assumes it answers the same for the same inputs, which a real LLM does not.
- `read_pdf`, the Streamlit tabs, widgets and rendering, the temporary PDF file, the `__main__` demo and the client setup are I/O only.
- The float percentage and the grade bands of the evaluation view use float division and are not modelled.
- `st.number_input` clamps an instructor mark to `[0, max_marks]`. That happens in the widget, not in the aggregation. `calculate_statistics` is modelled without clamping (`NoClamp`), and clamping appears only as the `MarksInRange` hypothesis.
- The `[3:]` display slice of a multiple-choice block is rendering only and is not modelled.
- The `None` branch of `calculate_statistics` (no `evaluation_results` key) is not modelled. The key is created as `{}` when the page loads, so `CalculateStatistics` always returns statistics.
- `\s` and `strip()` follow Python's full `isspace` set. `\d` and `int()` are modelled for ASCII digits only, and `re.IGNORECASE` and `upper()` for ASCII letters only. Non-ASCII digits and case pairs are not modelled.
- General regular-expression semantics are not modelled. Only the patterns the code uses are modelled, each as a dedicated scanner. The `mards?` pattern is kept exactly as written, so it matches `mard` and `mards`, not `marks`.
- Grading.SessionState.Evaluate: the invariant that instructor marks stay in range is proved on values (`EvaluationKeepsRange`), not restated on the object.
- Grading.SessionState.Evaluate: a grader that raises is not modelled; graders are total functions. In the source, `evaluate_long_answer` (app.py:354) and `analyze_programming` (app.py:370) are called without `try`. A failure there ends the handler part-way: the instructor marks already seeded for earlier answered questions (app.py:364-365, 380-381) stay, and `evaluation_results` keeps its old value, because app.py:383 is not reached. The model always replaces the results and seeds every answered question.
- Grading.EvaluateAssignment: likewise, it has no partial outcome for a grader failure.
