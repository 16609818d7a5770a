/** The bookkeeping of app.py around the language-model calls: the evaluate handler that
    fills the results map and seeds the instructor marks, and
    `calculate_statistics`, which totals attempts and marks per section. The
    Streamlit session is a `SessionState` object whose fields are the session
    keys the two handlers read and write. */
module Grading {
  import opened Text
  import opened QuestionParser
  import opened SuggestedMarks

  datatype Section = Mcq | Long | Prog

  /** The session keys `mcq{i}`, `long{i}` and `prog{i}` of the results map. */
  datatype QKey = QKey(section: Section, index: nat)

  /** One entry of `evaluation_results`. Long-answer and programming entries share a shape:
      the source names the answer `user_answer` in one and `user_code` in the other. */
  datatype Outcome =
    | McqOutcome(userAnswer: string, correctAnswer: Option<char>, correct: bool)
    | WrittenOutcome(question: string, userAnswer: string, feedback: string, suggestedMarks: int)

  /** The three generated blobs of `st.session_state["assignment"]`. */
  datatype Assignment = Assignment(mcqs: string, longs: string, progs: string)

  /** A grading call (`evaluate_long_answer`, `analyze_programming`): question and answer to feedback text. */
  type Grader = (string, string) -> string

  // ---------------------------------------------------------------------
  // Evaluate handler (app.py:335-383)
  // ---------------------------------------------------------------------

  /** A radio choice was made for question `i` (`if user_answer:`). */
  predicate Chosen(choices: map<nat, string>, i: nat) {
    i in choices && choices[i] != []
  }

  /** Question `i` has an answer with something besides whitespace (`if user_answer and user_answer.strip():`). */
  predicate Answered(texts: map<nat, string>, i: nat) {
    i in texts && !AllSpaces(texts[i])
  }

  /** The entry for multiple-choice question `i` (app.py:341-348). */
  function McqEntry(mcqs: string, i: nat, answer: string): (o: Outcome)
    ensures o.McqOutcome? && o.userAnswer == answer
    ensures o.correctAnswer == CorrectMcqAnswer(mcqs, i)
    ensures o.correct <==> o.correctAnswer.Some? && Upper(answer) == [o.correctAnswer.value]
    ensures o.correctAnswer.Some? ==> 'A' <= o.correctAnswer.value <= 'D'
  {
    CorrectMcqAnswerSpec(mcqs, i);
    McqOutcome(answer, CorrectMcqAnswer(mcqs, i), CheckMcqAnswer(mcqs, i, answer))
  }

  /** The entry for a written answer `answer` to question `q` (app.py:353-362, 369-378). */
  function WrittenEntry(q: string, answer: string, grader: Grader): (o: Outcome)
    ensures o.WrittenOutcome? && o.question == q && o.userAnswer == answer
    ensures o.feedback == grader(q, answer)
    ensures 0 <= o.suggestedMarks <= ExtractMarks(q)
  {
    var feedback := grader(q, answer);
    WrittenOutcome(q, answer, feedback, ExtractSuggestedMarks(feedback, ExtractMarks(q)))
  }

  /** The suggested marks of a written entry are what the feedback suggests, capped at the question's marks. */
  lemma WrittenEntrySuggestion(q: string, answer: string, grader: Grader)
    ensures WrittenEntry(q, answer, grader).suggestedMarks
            == ExtractSuggestedMarks(WrittenEntry(q, answer, grader).feedback, ExtractMarks(q))
  {
  }

  /** `after` is `before` with a mark seeded from the suggestion for every entry of `section`
      whose index had none: existing values are never overwritten. */
  ghost predicate SeededFrom(before: map<nat, int>, after: map<nat, int>, entries: map<QKey, Outcome>, section: Section) {
    && (forall i: nat :: i in after <==> i in before || QKey(section, i) in entries)
    && (forall i: nat :: i in before ==> after[i] == before[i])
    && (forall i: nat :: i in after && i !in before ==>
          entries[QKey(section, i)].WrittenOutcome? && after[i] == entries[QKey(section, i)].suggestedMarks)
  }

  /** `entries` holds exactly one entry per chosen slot `1..slots`, built from that slot alone. */
  ghost predicate McqEntries(entries: map<QKey, Outcome>, mcqs: string, slots: nat, choices: map<nat, string>) {
    && (forall i: nat :: QKey(Mcq, i) in entries ==> 1 <= i <= slots && Chosen(choices, i))
    && (forall i: nat :: 1 <= i <= slots && Chosen(choices, i) ==>
          QKey(Mcq, i) in entries && entries[QKey(Mcq, i)] == McqEntry(mcqs, i, choices[i]))
  }

  /** `entries` holds exactly one entry of `section` per answered question, built from that question alone. */
  ghost predicate WrittenEntries(entries: map<QKey, Outcome>, section: Section, questions: seq<string>, n: nat,
                                 texts: map<nat, string>, grader: Grader) {
    && n <= |questions|
    && (forall i: nat :: QKey(section, i) in entries ==> 1 <= i <= n && Answered(texts, i))
    && (forall i: nat :: 1 <= i <= n && Answered(texts, i) ==>
          QKey(section, i) in entries && entries[QKey(section, i)] == WrittenEntry(questions[i - 1], texts[i], grader))
  }

  /** The multiple-choice loop: one entry per chosen slot of the split blob. */
  method GradeMcqs(mcqs: string, choices: map<nat, string>) returns (entries: map<QKey, Outcome>)
    ensures forall k :: k in entries ==> k.section == Mcq
    ensures McqEntries(entries, mcqs, |McqBlocks(mcqs)|, choices)
  {
    var slots := |McqBlocks(mcqs)|;
    entries := map[];
    var i := 1;
    while i <= slots
      invariant 1 <= i <= slots + 1
      invariant forall k :: k in entries ==> k.section == Mcq
      invariant McqEntries(entries, mcqs, i - 1, choices)
    {
      var answer := if i in choices then choices[i] else [];
      if answer != [] {
        entries := entries[QKey(Mcq, i) := McqEntry(mcqs, i, answer)];
      }
      i := i + 1;
    }
  }

  /** The long-answer or programming loop: one graded entry per answered question, and a
      seeded mark for each of them that has none yet. */
  method GradeWritten(section: Section, questions: seq<string>, texts: map<nat, string>, grader: Grader,
                      seeds: map<nat, int>)
    returns (entries: map<QKey, Outcome>, seeded: map<nat, int>)
    ensures forall k :: k in entries ==> k.section == section
    ensures WrittenEntries(entries, section, questions, |questions|, texts, grader)
    ensures SeededFrom(seeds, seeded, entries, section)
  {
    entries := map[];
    seeded := seeds;
    var i := 1;
    while i <= |questions|
      invariant 1 <= i <= |questions| + 1
      invariant forall k :: k in entries ==> k.section == section
      invariant WrittenEntries(entries, section, questions, i - 1, texts, grader)
      invariant SeededFrom(seeds, seeded, entries, section)
    {
      var answer := if i in texts then texts[i] else [];
      if answer != [] && !AllSpaces(answer) {  // `answer.strip()` is non-empty, by `StripEmpty`
        var entry := WrittenEntry(questions[i - 1], answer, grader);
        WrittenAdd(entries, section, questions, i, texts, grader, entry);
        SeededAdd(seeds, seeded, entries, section, i, entry);
        entries := entries[QKey(section, i) := entry];
        if i !in seeded {
          seeded := seeded[i := entry.suggestedMarks];
        }
      } else {
        WrittenSkip(entries, section, questions, i, texts, grader);
      }
      i := i + 1;
    }
  }

  /** One answered question adds its entry to the written entries of the questions before it. */
  lemma WrittenAdd(entries: map<QKey, Outcome>, section: Section, questions: seq<string>, i: nat,
                   texts: map<nat, string>, grader: Grader, entry: Outcome)
    requires 1 <= i <= |questions| && Answered(texts, i)
    requires WrittenEntries(entries, section, questions, i - 1, texts, grader)
    requires entry == WrittenEntry(questions[i - 1], texts[i], grader)
    ensures WrittenEntries(entries[QKey(section, i) := entry], section, questions, i, texts, grader)
  {
    var grown := entries[QKey(section, i) := entry];
    forall j: nat | QKey(section, j) in grown ensures 1 <= j <= i && Answered(texts, j) {
      if j != i {
        assert QKey(section, j) in entries;
      }
    }
    forall j: nat | 1 <= j <= i && Answered(texts, j)
      ensures QKey(section, j) in grown && grown[QKey(section, j)] == WrittenEntry(questions[j - 1], texts[j], grader)
    {
      if j < i {
        var k := QKey(section, j);
        assert k in entries && entries[k] == WrittenEntry(questions[j - 1], texts[j], grader);
        assert k != QKey(section, i);
        assert grown[k] == entries[k];
      }
    }
  }

  /** An unanswered question adds no entry. */
  lemma WrittenSkip(entries: map<QKey, Outcome>, section: Section, questions: seq<string>, i: nat,
                    texts: map<nat, string>, grader: Grader)
    requires 1 <= i <= |questions| && !Answered(texts, i)
    requires WrittenEntries(entries, section, questions, i - 1, texts, grader)
    ensures WrittenEntries(entries, section, questions, i, texts, grader)
  {
  }

  /** Adding a new written entry seeds its mark only where the index had none. */
  lemma SeededAdd(before: map<nat, int>, after: map<nat, int>, entries: map<QKey, Outcome>, section: Section,
                  i: nat, entry: Outcome)
    requires SeededFrom(before, after, entries, section) && QKey(section, i) !in entries && entry.WrittenOutcome?
    ensures SeededFrom(before, if i in after then after else after[i := entry.suggestedMarks],
                       entries[QKey(section, i) := entry], section)
  {
  }

  /** What the evaluate handler leaves in `evaluation_results`: exactly one entry per
      chosen or answered question, each computed from that question alone. */
  ghost predicate Evaluation(results: map<QKey, Outcome>, a: Assignment, mcqChoice: map<nat, string>,
                             longText: map<nat, string>, progText: map<nat, string>,
                             longGrader: Grader, progGrader: Grader) {
    && McqEntries(results, a.mcqs, |McqBlocks(a.mcqs)|, mcqChoice)
    && WrittenEntries(results, Long, QuestionTexts(a.longs), |QuestionTexts(a.longs)|, longText, longGrader)
    && WrittenEntries(results, Prog, QuestionTexts(a.progs), |QuestionTexts(a.progs)|, progText, progGrader)
  }

  /** `whole` and `part` agree on every key of `section`. */
  ghost predicate SameSection(whole: map<QKey, Outcome>, part: map<QKey, Outcome>, section: Section) {
    forall k: QKey :: k.section == section ==> (k in whole <==> k in part) && (k in part ==> whole[k] == part[k])
  }

  /** The union of the three sections' entries agrees with each of them on its own section. */
  lemma UnionSections(m: map<QKey, Outcome>, l: map<QKey, Outcome>, p: map<QKey, Outcome>)
    requires forall k :: k in m ==> k.section == Mcq
    requires forall k :: k in l ==> k.section == Long
    requires forall k :: k in p ==> k.section == Prog
    ensures SameSection(m + l + p, m, Mcq) && SameSection(m + l + p, l, Long) && SameSection(m + l + p, p, Prog)
  {
  }

  lemma McqEntriesOf(whole: map<QKey, Outcome>, part: map<QKey, Outcome>, mcqs: string, slots: nat,
                     choices: map<nat, string>)
    requires SameSection(whole, part, Mcq) && McqEntries(part, mcqs, slots, choices)
    ensures McqEntries(whole, mcqs, slots, choices)
  {
    forall i: nat | QKey(Mcq, i) in whole ensures 1 <= i <= slots && Chosen(choices, i) {
      assert QKey(Mcq, i).section == Mcq;
    }
    forall i: nat | 1 <= i <= slots && Chosen(choices, i)
      ensures QKey(Mcq, i) in whole && whole[QKey(Mcq, i)] == McqEntry(mcqs, i, choices[i])
    {
      assert QKey(Mcq, i).section == Mcq;
    }
  }

  lemma WrittenEntriesOf(whole: map<QKey, Outcome>, part: map<QKey, Outcome>, section: Section,
                         questions: seq<string>, n: nat, texts: map<nat, string>, grader: Grader)
    requires SameSection(whole, part, section) && WrittenEntries(part, section, questions, n, texts, grader)
    ensures WrittenEntries(whole, section, questions, n, texts, grader)
  {
    forall i: nat | QKey(section, i) in whole ensures 1 <= i <= n && Answered(texts, i) {
      assert QKey(section, i).section == section;
    }
    forall i: nat | 1 <= i <= n && Answered(texts, i)
      ensures QKey(section, i) in whole && whole[QKey(section, i)] == WrittenEntry(questions[i - 1], texts[i], grader)
    {
      assert QKey(section, i).section == section;
    }
  }

  lemma SeededOf(before: map<nat, int>, after: map<nat, int>, whole: map<QKey, Outcome>, part: map<QKey, Outcome>,
                 section: Section)
    requires SameSection(whole, part, section) && SeededFrom(before, after, part, section)
    ensures SeededFrom(before, after, whole, section)
  {
    forall i: nat ensures QKey(section, i) in whole <==> QKey(section, i) in part {
      assert QKey(section, i).section == section;
    }
    forall i: nat | i in after && i !in before
      ensures whole[QKey(section, i)].WrittenOutcome? && after[i] == whole[QKey(section, i)].suggestedMarks
    {
      assert QKey(section, i).section == section;
    }
  }

  /** The three sections' entries together are the evaluation of the whole assignment. */
  lemma EvaluationOfSections(a: Assignment, mcqChoice: map<nat, string>, longText: map<nat, string>,
                             progText: map<nat, string>, longGrader: Grader, progGrader: Grader,
                             m: map<QKey, Outcome>, l: map<QKey, Outcome>, p: map<QKey, Outcome>)
    requires forall k :: k in m ==> k.section == Mcq
    requires forall k :: k in l ==> k.section == Long
    requires forall k :: k in p ==> k.section == Prog
    requires McqEntries(m, a.mcqs, |McqBlocks(a.mcqs)|, mcqChoice)
    requires WrittenEntries(l, Long, QuestionTexts(a.longs), |QuestionTexts(a.longs)|, longText, longGrader)
    requires WrittenEntries(p, Prog, QuestionTexts(a.progs), |QuestionTexts(a.progs)|, progText, progGrader)
    ensures SameSection(m + l + p, l, Long) && SameSection(m + l + p, p, Prog)
    ensures Evaluation(m + l + p, a, mcqChoice, longText, progText, longGrader, progGrader)
  {
    var all := m + l + p;
    UnionSections(m, l, p);
    McqEntriesOf(all, m, a.mcqs, |McqBlocks(a.mcqs)|, mcqChoice);
    WrittenEntriesOf(all, l, Long, QuestionTexts(a.longs), |QuestionTexts(a.longs)|, longText, longGrader);
    WrittenEntriesOf(all, p, Prog, QuestionTexts(a.progs), |QuestionTexts(a.progs)|, progText, progGrader);
  }

  /** The evaluate handler's effect: `results` is the evaluation of the attempt and the two maps of
      instructor marks are the old ones with the new suggestions seeded where a mark was missing. */
  ghost predicate EvaluationStep(a: Assignment, mcqChoice: map<nat, string>, longText: map<nat, string>,
                                 progText: map<nat, string>, overrides: map<nat, int>, progMarks: map<nat, int>,
                                 longGrader: Grader, progGrader: Grader,
                                 results: map<QKey, Outcome>, newOverrides: map<nat, int>, newProgMarks: map<nat, int>) {
    && Evaluation(results, a, mcqChoice, longText, progText, longGrader, progGrader)
    && SeededFrom(overrides, newOverrides, results, Long)
    && SeededFrom(progMarks, newProgMarks, results, Prog)
  }

  /** The body of the evaluate handler: the new results map and the seeded instructor marks. */
  method EvaluateAssignment(a: Assignment, mcqChoice: map<nat, string>, longText: map<nat, string>,
                            progText: map<nat, string>, overrides: map<nat, int>, progMarks: map<nat, int>,
                            longGrader: Grader, progGrader: Grader)
    returns (results: map<QKey, Outcome>, newOverrides: map<nat, int>, newProgMarks: map<nat, int>)
    ensures EvaluationStep(a, mcqChoice, longText, progText, overrides, progMarks, longGrader, progGrader,
                           results, newOverrides, newProgMarks)
  {
    var longQuestions, progQuestions := QuestionTexts(a.longs), QuestionTexts(a.progs);
    var mcqEntries := GradeMcqs(a.mcqs, mcqChoice);
    var longEntries, progEntries;
    longEntries, newOverrides := GradeWritten(Long, longQuestions, longText, longGrader, overrides);
    progEntries, newProgMarks := GradeWritten(Prog, progQuestions, progText, progGrader, progMarks);
    results := mcqEntries + longEntries + progEntries;
    EvaluationOfSections(a, mcqChoice, longText, progText, longGrader, progGrader, mcqEntries, longEntries, progEntries);
    SeededOf(overrides, newOverrides, results, longEntries, Long);
    SeededOf(progMarks, newProgMarks, results, progEntries, Prog);
  }

  /** Two maps that both hold the multiple-choice entries of one attempt agree on that section. */
  lemma McqEntriesUnique(r1: map<QKey, Outcome>, r2: map<QKey, Outcome>, mcqs: string, slots: nat,
                         choices: map<nat, string>)
    requires McqEntries(r1, mcqs, slots, choices) && McqEntries(r2, mcqs, slots, choices)
    ensures forall i: nat :: (QKey(Mcq, i) in r1 <==> QKey(Mcq, i) in r2)
                             && (QKey(Mcq, i) in r1 ==> r1[QKey(Mcq, i)] == r2[QKey(Mcq, i)])
  {
  }

  /** Two maps that both hold the written entries of one attempt agree on that section. */
  lemma WrittenEntriesUnique(r1: map<QKey, Outcome>, r2: map<QKey, Outcome>, section: Section,
                             questions: seq<string>, n: nat, texts: map<nat, string>, grader: Grader)
    requires WrittenEntries(r1, section, questions, n, texts, grader)
    requires WrittenEntries(r2, section, questions, n, texts, grader)
    ensures forall i: nat :: (QKey(section, i) in r1 <==> QKey(section, i) in r2)
                             && (QKey(section, i) in r1 ==> r1[QKey(section, i)] == r2[QKey(section, i)])
  {
  }

  /** The evaluation is a function of the attempt: two results maps that both satisfy it are equal. */
  lemma EvaluationUnique(r1: map<QKey, Outcome>, r2: map<QKey, Outcome>, a: Assignment, mcqChoice: map<nat, string>,
                         longText: map<nat, string>, progText: map<nat, string>, longGrader: Grader, progGrader: Grader)
    requires Evaluation(r1, a, mcqChoice, longText, progText, longGrader, progGrader)
    requires Evaluation(r2, a, mcqChoice, longText, progText, longGrader, progGrader)
    ensures r1 == r2
  {
    var lq, pq := QuestionTexts(a.longs), QuestionTexts(a.progs);
    McqEntriesUnique(r1, r2, a.mcqs, |McqBlocks(a.mcqs)|, mcqChoice);
    WrittenEntriesUnique(r1, r2, Long, lq, |lq|, longText, longGrader);
    WrittenEntriesUnique(r1, r2, Prog, pq, |pq|, progText, progGrader);
    AgreeOnSections(r1, r2);
  }

  /** Two results maps that agree on every section are equal. */
  lemma AgreeOnSections(r1: map<QKey, Outcome>, r2: map<QKey, Outcome>)
    requires forall i: nat :: (QKey(Mcq, i) in r1 <==> QKey(Mcq, i) in r2)
                              && (QKey(Mcq, i) in r1 ==> r1[QKey(Mcq, i)] == r2[QKey(Mcq, i)])
    requires forall i: nat :: (QKey(Long, i) in r1 <==> QKey(Long, i) in r2)
                              && (QKey(Long, i) in r1 ==> r1[QKey(Long, i)] == r2[QKey(Long, i)])
    requires forall i: nat :: (QKey(Prog, i) in r1 <==> QKey(Prog, i) in r2)
                              && (QKey(Prog, i) in r1 ==> r1[QKey(Prog, i)] == r2[QKey(Prog, i)])
    ensures r1 == r2
  {
    forall k: QKey ensures (k in r1 <==> k in r2) && (k in r1 ==> r1[k] == r2[k]) {
      match k.section
      case Mcq => assert k == QKey(Mcq, k.index);
      case Long => assert k == QKey(Long, k.index);
      case Prog => assert k == QKey(Prog, k.index);
    }
  }

  /** Seeding a second time from the same entries changes nothing: every key it could add is already there. */
  lemma SeedingIdempotent(before: map<nat, int>, after: map<nat, int>, again: map<nat, int>,
                          entries: map<QKey, Outcome>, section: Section)
    requires SeededFrom(before, after, entries, section) && SeededFrom(after, again, entries, section)
    ensures again == after
  {
    forall i: nat ensures (i in again <==> i in after) && (i in after ==> again[i] == after[i]) {
    }
  }

  /** Pressing "Evaluate Assignment" twice on the same attempt, with graders that answer the same,
      leaves the results and every instructor mark as the first press left them. */
  lemma EvaluateTwice(a: Assignment, mcqChoice: map<nat, string>, longText: map<nat, string>,
                      progText: map<nat, string>, overrides: map<nat, int>, progMarks: map<nat, int>,
                      longGrader: Grader, progGrader: Grader,
                      r1: map<QKey, Outcome>, o1: map<nat, int>, p1: map<nat, int>,
                      r2: map<QKey, Outcome>, o2: map<nat, int>, p2: map<nat, int>)
    requires EvaluationStep(a, mcqChoice, longText, progText, overrides, progMarks, longGrader, progGrader, r1, o1, p1)
    requires EvaluationStep(a, mcqChoice, longText, progText, o1, p1, longGrader, progGrader, r2, o2, p2)
    ensures r2 == r1 && o2 == o1 && p2 == p1
  {
    EvaluationUnique(r1, r2, a, mcqChoice, longText, progText, longGrader, progGrader);
    SeedingIdempotent(overrides, o1, o2, r1, Long);
    SeedingIdempotent(progMarks, p1, p2, r1, Prog);
  }

  /** Seeding again from entries with the same keys as the first seeding's changes nothing, whatever
      the grading calls answered: only the keys of the answered questions matter, and they are all seeded. */
  lemma ReseedingKeepsMarks(before: map<nat, int>, after: map<nat, int>, again: map<nat, int>,
                            r1: map<QKey, Outcome>, r2: map<QKey, Outcome>, section: Section,
                            questions: seq<string>, n: nat, texts: map<nat, string>, g1: Grader, g2: Grader)
    requires WrittenEntries(r1, section, questions, n, texts, g1)
    requires WrittenEntries(r2, section, questions, n, texts, g2)
    requires SeededFrom(before, after, r1, section) && SeededFrom(after, again, r2, section)
    ensures again == after
  {
    forall i: nat ensures (i in again <==> i in after) && (i in after ==> again[i] == after[i]) {
      if QKey(section, i) in r2 {
        assert 1 <= i <= n && Answered(texts, i);
        assert QKey(section, i) in r1;
      }
    }
  }

  /** The instructor marks after a second press equal those after the first even when the grading calls
      answer differently the second time: the marks seeded by the first press are never overwritten. */
  lemma EvaluateTwiceKeepsMarks(a: Assignment, mcqChoice: map<nat, string>, longText: map<nat, string>,
                                progText: map<nat, string>, overrides: map<nat, int>, progMarks: map<nat, int>,
                                longGrader: Grader, progGrader: Grader, longGrader2: Grader, progGrader2: Grader,
                                r1: map<QKey, Outcome>, o1: map<nat, int>, p1: map<nat, int>,
                                r2: map<QKey, Outcome>, o2: map<nat, int>, p2: map<nat, int>)
    requires EvaluationStep(a, mcqChoice, longText, progText, overrides, progMarks, longGrader, progGrader, r1, o1, p1)
    requires EvaluationStep(a, mcqChoice, longText, progText, o1, p1, longGrader2, progGrader2, r2, o2, p2)
    ensures o2 == o1 && p2 == p1
  {
    var lq, pq := QuestionTexts(a.longs), QuestionTexts(a.progs);
    ReseedingKeepsMarks(overrides, o1, o2, r1, r2, Long, lq, |lq|, longText, longGrader, longGrader2);
    ReseedingKeepsMarks(progMarks, p1, p2, r1, r2, Prog, pq, |pq|, progText, progGrader, progGrader2);
  }

  /** Every instructor mark of questions `1..|lines|` lies between 0 and its question's marks. */
  ghost predicate MarksInRange(given: map<nat, int>, lines: seq<string>) {
    forall i: nat :: 1 <= i <= |lines| && i in given ==> 0 <= given[i] <= ExtractMarks(lines[i - 1])
  }

  /** A seeded mark lies between 0 and the question's marks, so seeding keeps every instructor
      mark in range when the earlier ones were; `lines` are the question lines and `questions`
      the texts the entries were built from, which carry the same marks. */
  lemma SeedingKeepsRange(before: map<nat, int>, after: map<nat, int>, results: map<QKey, Outcome>,
                          section: Section, lines: seq<string>, questions: seq<string>,
                          texts: map<nat, string>, grader: Grader)
    requires |questions| == |lines|
    requires forall k :: 0 <= k < |lines| ==> ExtractMarks(questions[k]) == ExtractMarks(lines[k])
    requires WrittenEntries(results, section, questions, |questions|, texts, grader)
    requires SeededFrom(before, after, results, section)
    requires MarksInRange(before, lines)
    ensures MarksInRange(after, lines)
  {
    forall i: nat | 1 <= i <= |lines| && i in after && i !in before
      ensures 0 <= after[i] <= ExtractMarks(lines[i - 1])
    {
      assert QKey(section, i) in results;
    }
  }

  /** The question texts of a blob carry the marks of its question lines. */
  lemma QuestionTextsMarks(blob: string)
    ensures forall k :: 0 <= k < |QuestionLines(blob)| ==>
              ExtractMarks(QuestionTexts(blob)[k]) == ExtractMarks(QuestionLines(blob)[k])
  {
    QuestionTextsSpec(blob);
    forall k | 0 <= k < |QuestionLines(blob)|
      ensures ExtractMarks(QuestionTexts(blob)[k]) == ExtractMarks(QuestionLines(blob)[k])
    {
      ExtractMarksStrip(QuestionLines(blob)[k]);
    }
  }

  /** After an evaluation from in-range instructor marks (none at all, on a fresh session), the
      new marks are in range too. */
  lemma EvaluationKeepsRange(a: Assignment, mcqChoice: map<nat, string>, longText: map<nat, string>,
                             progText: map<nat, string>, overrides: map<nat, int>, progMarks: map<nat, int>,
                             longGrader: Grader, progGrader: Grader,
                             results: map<QKey, Outcome>, newOverrides: map<nat, int>, newProgMarks: map<nat, int>)
    requires EvaluationStep(a, mcqChoice, longText, progText, overrides, progMarks, longGrader, progGrader,
                            results, newOverrides, newProgMarks)
    requires MarksInRange(overrides, QuestionLines(a.longs)) && MarksInRange(progMarks, QuestionLines(a.progs))
    ensures MarksInRange(newOverrides, QuestionLines(a.longs)) && MarksInRange(newProgMarks, QuestionLines(a.progs))
  {
    QuestionTextsMarks(a.longs);
    QuestionTextsMarks(a.progs);
    SeedingKeepsRange(overrides, newOverrides, results, Long, QuestionLines(a.longs), QuestionTexts(a.longs),
                      longText, longGrader);
    SeedingKeepsRange(progMarks, newProgMarks, results, Prog, QuestionLines(a.progs), QuestionTexts(a.progs),
                      progText, progGrader);
  }

  // ---------------------------------------------------------------------
  // calculate_statistics (app.py:192-245)
  // ---------------------------------------------------------------------

  /** One section of `stats`; `correct` stays 0 for the two written sections, which have no such counter. */
  datatype Tally = Tally(attempted: nat, correct: nat, total: nat, marksObtained: int, totalMarks: nat)

  datatype Stats = Stats(mcq: Tally, long: Tally, prog: Tally)

  /** The number of indices `1..n` of `section` that have a results entry. */
  function Attempted(results: map<QKey, Outcome>, section: Section, n: nat): nat {
    if n == 0 then 0
    else Attempted(results, section, n - 1) + (if QKey(section, n) in results then 1 else 0)
  }

  /** Multiple-choice question `i` has an entry marked correct. */
  predicate IsCorrect(results: map<QKey, Outcome>, i: nat) {
    QKey(Mcq, i) in results && results[QKey(Mcq, i)].McqOutcome? && results[QKey(Mcq, i)].correct
  }

  function CorrectCount(results: map<QKey, Outcome>, n: nat): nat {
    if n == 0 then 0
    else CorrectCount(results, n - 1) + (if IsCorrect(results, n) then 1 else 0)
  }

  /** The marks of the attempted questions among the first `n` lines. */
  function AttemptedMarks(lines: seq<string>, results: map<QKey, Outcome>, section: Section, n: nat): nat
    requires n <= |lines|
  {
    if n == 0 then 0
    else AttemptedMarks(lines, results, section, n - 1)
         + (if QKey(section, n) in results then ExtractMarks(lines[n - 1]) else 0)
  }

  /** The marks of the correctly answered questions among the first `n` lines. */
  function CorrectMarks(lines: seq<string>, results: map<QKey, Outcome>, n: nat): nat
    requires n <= |lines|
  {
    if n == 0 then 0
    else CorrectMarks(lines, results, n - 1) + (if IsCorrect(results, n) then ExtractMarks(lines[n - 1]) else 0)
  }

  /** `st.session_state.get(key, 0)` for an instructor mark. */
  function Given(given: map<nat, int>, i: nat): int {
    if i in given then given[i] else 0
  }

  /** The instructor marks of the attempted questions among indices `1..n`. */
  function Awarded(results: map<QKey, Outcome>, section: Section, given: map<nat, int>, n: nat): int {
    if n == 0 then 0
    else Awarded(results, section, given, n - 1) + (if QKey(section, n) in results then Given(given, n) else 0)
  }

  function McqTallyOf(lines: seq<string>, results: map<QKey, Outcome>): Tally {
    var n := |lines|;
    Tally(Attempted(results, Mcq, n), CorrectCount(results, n), n,
          CorrectMarks(lines, results, n), AttemptedMarks(lines, results, Mcq, n))
  }

  function WrittenTallyOf(lines: seq<string>, results: map<QKey, Outcome>, section: Section, given: map<nat, int>): Tally {
    var n := |lines|;
    Tally(Attempted(results, section, n), 0, n, Awarded(results, section, given, n),
          AttemptedMarks(lines, results, section, n))
  }

  /** The statistics of a session, section by section over the raw numbered lines of each blob. */
  function StatsOf(a: Assignment, results: map<QKey, Outcome>, overrides: map<nat, int>, progMarks: map<nat, int>): Stats {
    Stats(McqTallyOf(QuestionLines(a.mcqs), results),
          WrittenTallyOf(QuestionLines(a.longs), results, Long, overrides),
          WrittenTallyOf(QuestionLines(a.progs), results, Prog, progMarks))
  }

  /** The multiple-choice loop of app.py:210-217. */
  method McqTally(lines: seq<string>, results: map<QKey, Outcome>) returns (t: Tally)
    ensures t == McqTallyOf(lines, results)
  {
    t := Tally(0, 0, |lines|, 0, 0);
    var i := 1;
    while i <= |lines|
      invariant 1 <= i <= |lines| + 1
      invariant t == Tally(Attempted(results, Mcq, i - 1), CorrectCount(results, i - 1), |lines|,
                           CorrectMarks(lines, results, i - 1), AttemptedMarks(lines, results, Mcq, i - 1))
    {
      var key := QKey(Mcq, i);
      if key in results {
        var marks := ExtractMarks(lines[i - 1]);
        t := t.(attempted := t.attempted + 1, totalMarks := t.totalMarks + marks);
        if results[key].McqOutcome? && results[key].correct {
          t := t.(correct := t.correct + 1, marksObtained := t.marksObtained + marks);
        }
      }
      i := i + 1;
    }
  }

  /** The long-answer and programming loops of app.py:225-230 and 238-243. */
  method WrittenTally(lines: seq<string>, results: map<QKey, Outcome>, section: Section, given: map<nat, int>)
    returns (t: Tally)
    ensures t == WrittenTallyOf(lines, results, section, given)
  {
    t := Tally(0, 0, |lines|, 0, 0);
    var i := 1;
    while i <= |lines|
      invariant 1 <= i <= |lines| + 1
      invariant t == Tally(Attempted(results, section, i - 1), 0, |lines|,
                           Awarded(results, section, given, i - 1), AttemptedMarks(lines, results, section, i - 1))
    {
      if QKey(section, i) in results {
        var marks := ExtractMarks(lines[i - 1]);
        var awarded := if i in given then given[i] else 0;
        t := t.(attempted := t.attempted + 1, totalMarks := t.totalMarks + marks,
                marksObtained := t.marksObtained + awarded);
      }
      i := i + 1;
    }
  }

  /** At most `n` of the indices `1..n` are attempted. */
  lemma {:induction false} AttemptedAtMost(results: map<QKey, Outcome>, section: Section, n: nat)
    ensures Attempted(results, section, n) <= n
  {
    if n > 0 {
      AttemptedAtMost(results, section, n - 1);
    }
  }

  /** `Attempted` counts exactly the indices `1..n` of the section that have an entry. */
  lemma {:induction false} AttemptedIsCount(results: map<QKey, Outcome>, section: Section, n: nat)
    ensures Attempted(results, section, n) == |set i: nat | 1 <= i <= n && QKey(section, i) in results|
  {
    if n > 0 {
      AttemptedIsCount(results, section, n - 1);
      var before := set i: nat | 1 <= i <= n - 1 && QKey(section, i) in results;
      var now := set i: nat | 1 <= i <= n && QKey(section, i) in results;
      if QKey(section, n) in results {
        assert now == before + {n};
      } else {
        assert now == before;
      }
    }
  }

  /** Only attempted questions can be correct, and only their marks can be obtained. */
  lemma {:induction false} CorrectWithinAttempted(lines: seq<string>, results: map<QKey, Outcome>, n: nat)
    requires n <= |lines|
    ensures CorrectCount(results, n) <= Attempted(results, Mcq, n)
    ensures CorrectMarks(lines, results, n) <= AttemptedMarks(lines, results, Mcq, n)
  {
    if n > 0 {
      CorrectWithinAttempted(lines, results, n - 1);
    }
  }

  /** Instructor marks within each question's range add up to at most the attempted questions' marks. */
  lemma {:induction false} AwardedWithinMarks(lines: seq<string>, results: map<QKey, Outcome>, section: Section,
                                              given: map<nat, int>, n: nat)
    requires n <= |lines| && MarksInRange(given, lines)
    ensures 0 <= Awarded(results, section, given, n) <= AttemptedMarks(lines, results, section, n)
  {
    if n > 0 {
      AwardedWithinMarks(lines, results, section, given, n - 1);
    }
  }

  /** The figures of a written section depend only on which of its questions have an entry,
      not on what the entries hold: the suggested marks reach the totals only through the
      instructor marks they seeded. */
  lemma {:induction false} WrittenFiguresKeysOnly(lines: seq<string>, r1: map<QKey, Outcome>, r2: map<QKey, Outcome>,
                                                  section: Section, given: map<nat, int>, n: nat)
    requires n <= |lines|
    requires forall i: nat :: QKey(section, i) in r1 <==> QKey(section, i) in r2
    ensures Attempted(r1, section, n) == Attempted(r2, section, n)
    ensures Awarded(r1, section, given, n) == Awarded(r2, section, given, n)
    ensures AttemptedMarks(lines, r1, section, n) == AttemptedMarks(lines, r2, section, n)
  {
    if n > 0 {
      WrittenFiguresKeysOnly(lines, r1, r2, section, given, n - 1);
    }
  }

  lemma WrittenTallyKeysOnly(lines: seq<string>, r1: map<QKey, Outcome>, r2: map<QKey, Outcome>,
                             section: Section, given: map<nat, int>)
    requires forall i: nat :: QKey(section, i) in r1 <==> QKey(section, i) in r2
    ensures WrittenTallyOf(lines, r1, section, given) == WrittenTallyOf(lines, r2, section, given)
  {
    WrittenFiguresKeysOnly(lines, r1, r2, section, given, |lines|);
  }

  /** In every section no more questions are attempted than listed; among multiple-choice
      questions no more are correct than attempted and no more marks obtained than available. */
  lemma StatsBounds(a: Assignment, results: map<QKey, Outcome>, overrides: map<nat, int>, progMarks: map<nat, int>)
    ensures var s := StatsOf(a, results, overrides, progMarks);
            && s.mcq.attempted <= s.mcq.total && s.mcq.correct <= s.mcq.attempted
            && s.mcq.marksObtained <= s.mcq.totalMarks
            && s.long.attempted <= s.long.total && s.prog.attempted <= s.prog.total
  {
    var m, l, p := QuestionLines(a.mcqs), QuestionLines(a.longs), QuestionLines(a.progs);
    AttemptedAtMost(results, Mcq, |m|);
    AttemptedAtMost(results, Long, |l|);
    AttemptedAtMost(results, Prog, |p|);
    CorrectWithinAttempted(m, results, |m|);
  }

  /** After an evaluation from in-range instructor marks (none at all, on a fresh session), each
      written section's marks obtained lie between 0 and the marks of its attempted questions. */
  lemma EvaluatedStatsBounds(a: Assignment, mcqChoice: map<nat, string>, longText: map<nat, string>,
                             progText: map<nat, string>, overrides: map<nat, int>, progMarks: map<nat, int>,
                             longGrader: Grader, progGrader: Grader,
                             results: map<QKey, Outcome>, newOverrides: map<nat, int>, newProgMarks: map<nat, int>)
    requires EvaluationStep(a, mcqChoice, longText, progText, overrides, progMarks, longGrader, progGrader,
                            results, newOverrides, newProgMarks)
    requires MarksInRange(overrides, QuestionLines(a.longs)) && MarksInRange(progMarks, QuestionLines(a.progs))
    ensures var s := StatsOf(a, results, newOverrides, newProgMarks);
            && 0 <= s.long.marksObtained <= s.long.totalMarks
            && 0 <= s.prog.marksObtained <= s.prog.totalMarks
  {
    EvaluationKeepsRange(a, mcqChoice, longText, progText, overrides, progMarks, longGrader, progGrader,
                         results, newOverrides, newProgMarks);
    var l, p := QuestionLines(a.longs), QuestionLines(a.progs);
    AwardedWithinMarks(l, results, Long, newOverrides, |l|);
    AwardedWithinMarks(p, results, Prog, newProgMarks, |p|);
  }

  /** `calculate_statistics` does not clamp: an instructor mark above the question's marks is
      added as it is, so the marks obtained can exceed the total. */
  lemma NoClamp(lines: seq<string>, results: map<QKey, Outcome>, section: Section, given: map<nat, int>)
    requires |lines| == 1 && ExtractMarks(lines[0]) == 2
    requires QKey(section, 1) in results && given == map[1 := 5]
    ensures WrittenTallyOf(lines, results, section, given).marksObtained == 5
    ensures WrittenTallyOf(lines, results, section, given).totalMarks == 2
  {
    assert Awarded(results, section, given, 1) == Awarded(results, section, given, 0) + Given(given, 1) == 5;
    assert AttemptedMarks(lines, results, section, 1) == AttemptedMarks(lines, results, section, 0) + 2;
  }

  /** Only attempted questions add to the total marks: with questions worth 2, 3 and 4 and the
      second left unanswered, the total is 6. */
  lemma TotalCountsAttemptedOnly(lines: seq<string>, results: map<QKey, Outcome>, section: Section,
                                 given: map<nat, int>)
    requires |lines| == 3
    requires ExtractMarks(lines[0]) == 2 && ExtractMarks(lines[1]) == 3 && ExtractMarks(lines[2]) == 4
    requires QKey(section, 1) in results && QKey(section, 2) !in results && QKey(section, 3) in results
    ensures WrittenTallyOf(lines, results, section, given).totalMarks == 6
    ensures WrittenTallyOf(lines, results, section, given).attempted == 2
    ensures WrittenTallyOf(lines, results, section, given).total == 3
  {
    assert AttemptedMarks(lines, results, section, 1) == AttemptedMarks(lines, results, section, 0) + 2;
    assert AttemptedMarks(lines, results, section, 2) == AttemptedMarks(lines, results, section, 1);
    assert AttemptedMarks(lines, results, section, 3) == AttemptedMarks(lines, results, section, 2) + 4;
    assert Attempted(results, section, 1) == Attempted(results, section, 0) + 1;
    assert Attempted(results, section, 2) == Attempted(results, section, 1);
    assert Attempted(results, section, 3) == Attempted(results, section, 2) + 1;
  }

  // ---------------------------------------------------------------------
  // The session
  // ---------------------------------------------------------------------

  /** The session keys the two handlers use: the assignment, the attempt widgets' values
      (`mcq{i}`, `long{i}`, `prog{i}`), `evaluation_results` and the instructor marks
      (`override{i}`, `progmarks{i}`). */
  class SessionState {
    var assignment: Assignment
    var mcqChoice: map<nat, string>
    var longText: map<nat, string>
    var progText: map<nat, string>
    var results: map<QKey, Outcome>
    var overrides: map<nat, int>
    var progMarks: map<nat, int>

    /** A session holding a generated assignment, before anything is attempted;
        `evaluation_results` starts as the empty map (app.py:251-252). */
    constructor (a: Assignment)
      ensures assignment == a && results == map[]
      ensures mcqChoice == map[] && longText == map[] && progText == map[]
      ensures overrides == map[] && progMarks == map[]
    {
      assignment := a;
      mcqChoice, longText, progText := map[], map[], map[];
      results := map[];
      overrides, progMarks := map[], map[];
    }

    /** The "Evaluate Assignment" handler: replaces the results and seeds the instructor marks. */
    method Evaluate(longGrader: Grader, progGrader: Grader)
      modifies this`results, this`overrides, this`progMarks
      ensures EvaluationStep(old(assignment), old(mcqChoice), old(longText), old(progText), old(overrides),
                             old(progMarks), longGrader, progGrader, results, overrides, progMarks)
    {
      results, overrides, progMarks :=
        EvaluateAssignment(assignment, mcqChoice, longText, progText, overrides, progMarks, longGrader, progGrader);
    }

    /** `calculate_statistics()`. */
    method CalculateStatistics() returns (stats: Stats)
      ensures stats == StatsOf(assignment, results, overrides, progMarks)
    {
      var mcq := McqTally(QuestionLines(assignment.mcqs), results);
      var long := WrittenTally(QuestionLines(assignment.longs), results, Long, overrides);
      var prog := WrittenTally(QuestionLines(assignment.progs), results, Prog, progMarks);
      stats := Stats(mcq, long, prog);
    }
  }
}
