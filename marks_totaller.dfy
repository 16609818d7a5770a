/** test.py: `parse_questions_with_marks`, which totals the `[Marks: N]`
    annotations of a generated question text and cuts them out of it, and
    that file's own `check_mcq_answer`. */
module MarksTotaller {
  import opened Text
  import opened Scanner
  import opened QuestionParser

  // `\[Marks: (\d+)\]`: exactly one space after the colon
  const TestMarksPattern: Pattern := Pattern([Lit("[Marks: "), Group, Lit("]")], [], false)

  /** `s[i..e]` is an annotation of the strict form, worth `v`. */
  predicate StrictShape(s: string, i: nat, e: nat, v: nat) {
    && i + 8 < e - 1 && e <= |s|
    && s[i..i + 8] == "[Marks: "
    && AllDigits(s[i + 8..e - 1]) && s[e - 1] == ']'
    && v == DigitsValue(s[i + 8..e - 1])
  }

  /** The scanner matches the strict pattern at `i` exactly where a strict annotation starts. */
  lemma TestMatchShape(s: string, i: nat)
    requires i <= |s|
    ensures MatchAt(s, TestMarksPattern, i).Some? ==>
              var h := MatchAt(s, TestMarksPattern, i).value;
              StrictShape(s, i, h.end, h.value)
    ensures forall e: nat, v: nat :: StrictShape(s, i, e, v) ==> MatchAt(s, TestMarksPattern, i) == Some(Hit(i, e, v))
  {
    StrictMatchIsShape(s, i);
    forall e: nat, v: nat | StrictShape(s, i, e, v) ensures MatchAt(s, TestMarksPattern, i) == Some(Hit(i, e, v)) {
      StrictShapeIsMatch(s, i, e, v);
    }
  }

  lemma StrictMatchIsShape(s: string, i: nat)
    requires i <= |s|
    ensures MatchAt(s, TestMarksPattern, i).Some? ==>
              var h := MatchAt(s, TestMarksPattern, i).value;
              StrictShape(s, i, h.end, h.value)
  {
    var body := TestMarksPattern.body;
    if WordAt(s, i, "[Marks: ", false) {
      var d := SkipDigits(s, i + 8);
      if d > i + 8 && d < |s| && s[d] == ']' {
        StrictRun(s, i, d);
      } else {
        LitStep(s, body, i, false, 0);
        MarksRunDigitsFails(s, body[1..], i + 8);
      }
    } else {
      LitFails(s, body, i, false, 0);
    }
  }

  lemma StrictShapeIsMatch(s: string, i: nat, e: nat, v: nat)
    requires StrictShape(s, i, e, v)
    ensures MatchAt(s, TestMarksPattern, i) == Some(Hit(i, e, v))
  {
    assert WordAt(s, i, "[Marks: ", false) by {
      forall k | 0 <= k < 8 ensures s[i + k] == "[Marks: "[k] {
        assert s[i..i + 8][k] == s[i + k];
      }
    }
    assert IsDigit(s[i + 8..e - 1][0]);
    SkipDigitsExact(s, i + 8, e - 1);
    StrictRun(s, i, e - 1);
  }

  /** The scanner's steps over `[Marks: `, digits up to `d`, and `]`. */
  lemma StrictRun(s: string, i: nat, d: nat)
    requires i + 8 < d < |s| && s[d] == ']'
    requires WordAt(s, i, "[Marks: ", false) && SkipDigits(s, i + 8) == d
    ensures s[i..i + 8] == "[Marks: "
    ensures MatchAt(s, TestMarksPattern, i) == Some(Hit(i, d + 1, DigitsValue(s[i + 8..d])))
  {
    var p := TestMarksPattern;
    MarksRunDigits(s, p.body[1..], i + 8, d);
    LitThen(s, p, "[Marks: ", i, d + 1, DigitsValue(s[i + 8..d]));
  }

  /** Every strict annotation is also an annotation `extract_marks_from_question` reads, with the same value. */
  lemma StrictIsAnnotation(s: string, i: nat)
    requires i <= |s|
    ensures MatchAt(s, TestMarksPattern, i).Some? ==> MatchAt(s, MarksPattern, i) == MatchAt(s, TestMarksPattern, i)
  {
    TestMatchShape(s, i);
    if MatchAt(s, TestMarksPattern, i).Some? {
      var h := MatchAt(s, TestMarksPattern, i).value;
      assert s[i..i + 7] == s[i..i + 8][..7];
      assert s[i + 7] == s[i..i + 8][7];
      assert MarksShape(s, i, i + 8, h.end, h.value);
      AnnotationIsMarksMatch(s, i, h.end, h.value);
    }
  }

  /** The converse fails: `[Marks:7]`, with no space, is worth 7 to `extract_marks_from_question`
      but is not a strict annotation. */
  lemma StricterThanApp()
    ensures ExtractMarks("[Marks:7]") == 7
    ensures forall k :: 0 <= k <= 9 ==> MatchAt("[Marks:7]", TestMarksPattern, k).None?
  {
    var s := "[Marks:7]";
    assert MarksShape(s, 0, 7, 9, 7) by {
      assert s[7..8] == "7";
      assert DigitsValue("7") == 7;
    }
    ExtractMarksLeftmost(s, 0, 9, 7);
    forall k | 0 <= k <= 9 ensures MatchAt(s, TestMarksPattern, k).None? {
      TestMatchShape(s, k);
    }
  }

  /** `re.sub` deletes exactly the matches `re.finditer` reports. */
  lemma {:induction false} SubDeletesMatches(s: string, p: Pattern, i: nat)
    requires i <= |s| && Anchored(p)
    ensures Sub(s, p, i) == Delete(s, FindAll(s, p, i), i)
    decreases |s| - i
  {
    match Search(s, p, i)
    case None =>
    case Some(h) =>
      var rest := FindAll(s, p, h.end);
      assert FindAll(s, p, i) == [h] + rest;
      assert ([h] + rest)[1..] == rest;
      SubDeletesMatches(s, p, h.end);
  }

  /** Cutting out the hits shortens the text by the characters they cover. */
  lemma {:induction false} DeleteLength(s: string, hits: seq<Hit>, i: nat)
    requires i <= |s|
    requires forall k :: 0 <= k < |hits| ==> hits[k].start <= hits[k].end <= |s|
    requires forall k :: 0 <= k < |hits| ==> i <= hits[k].start
    requires forall j, k :: 0 <= j < k < |hits| ==> hits[j].end <= hits[k].start
    ensures |Delete(s, hits, i)| == |s| - i - Covered(hits)
    decreases |hits|
  {
    if hits != [] {
      DeleteLength(s, hits[1..], hits[0].end);
    }
  }

  /** Every value counts towards the sum. */
  lemma {:induction false} SumValuesBound(hits: seq<Hit>)
    ensures forall k :: 0 <= k < |hits| ==> hits[k].value <= SumValues(hits)
  {
    if hits != [] {
      var init := hits[..|hits| - 1];
      SumValuesBound(init);
      assert forall k :: 0 <= k < |init| ==> hits[k] == init[k];
    }
  }

  /** With no match anywhere, `re.finditer` reports nothing. */
  lemma NoMatchNoHits(s: string, p: Pattern)
    requires Anchored(p)
    requires forall k :: 0 <= k <= |s| ==> MatchAt(s, p, k).None?
    ensures FindAll(s, p, 0) == []
  {
  }

  /** The loop of test.py:102-104: `total_marks += int(match.group(1))` for each match. */
  method SumMatches(matches: seq<Hit>) returns (total: nat)
    ensures total == SumValues(matches)
    ensures forall k :: 0 <= k < |matches| ==> matches[k].value <= total
  {
    total := 0;
    for k := 0 to |matches|
      invariant total == SumValues(matches[..k])
    {
      assert matches[..k + 1][..k] == matches[..k];
      total := total + matches[k].value;
    }
    assert matches[..|matches|] == matches;
    SumValuesBound(matches);
  }

  /** test.py `parse_questions_with_marks`: the text with every strict annotation cut out, and the
      sum of their values, over the successive non-overlapping matches from left to right. */
  method ParseQuestionsWithMarks(text: string) returns (cleaned: string, total: nat)
    ensures total == SumValues(FindAll(text, TestMarksPattern, 0))
    ensures forall k :: 0 <= k < |FindAll(text, TestMarksPattern, 0)| ==>
              FindAll(text, TestMarksPattern, 0)[k].value <= total
    ensures cleaned == Delete(text, FindAll(text, TestMarksPattern, 0), 0)
    ensures |cleaned| == |text| - Covered(FindAll(text, TestMarksPattern, 0))
    ensures (forall k :: 0 <= k <= |text| ==> MatchAt(text, TestMarksPattern, k).None?) ==> cleaned == text && total == 0
    ensures NoneSkipped(text, TestMarksPattern, 0, FindAll(text, TestMarksPattern, 0))
  {
    var matches := FindAll(text, TestMarksPattern, 0);
    FindAllComplete(text, TestMarksPattern, 0);
    total := SumMatches(matches);
    cleaned := Sub(text, TestMarksPattern, 0);
    SubDeletesMatches(text, TestMarksPattern, 0);
    DeleteLength(text, matches, 0);
    if forall k :: 0 <= k <= |text| ==> MatchAt(text, TestMarksPattern, k).None? {
      NoMatchNoHits(text, TestMarksPattern);
      assert text[0..] == text;
    }
  }

  /** test.py `check_mcq_answer`: the same search as app.py, then `user_answer.upper() == letter.upper()`. */
  function TestCheckMcqAnswer(text: string, n: nat, userAnswer: string): (ok: bool)
  {
    match CorrectMcqAnswer(text, n)
    case None => false
    case Some(letter) => Upper(userAnswer) == Upper([letter])
  }

  /** Upper-casing the captured letter changes nothing, so both files judge every answer alike. */
  lemma TestCheckMcqAnswerSame(text: string, n: nat, userAnswer: string)
    ensures TestCheckMcqAnswer(text, n, userAnswer) == CheckMcqAnswer(text, n, userAnswer)
  {
    CorrectMcqAnswerSpec(text, n);
    match CorrectMcqAnswer(text, n)
    case None =>
    case Some(letter) =>
      assert Upper([letter]) == [letter];
  }
}
