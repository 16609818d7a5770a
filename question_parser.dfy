/** The question-text parser of app.py: the marks annotation of a question,
    the correct letter of a multiple-choice question, the split of the
    multiple-choice blob into question blocks and the filter that picks the
    numbered question lines out of the other two blobs. */
module QuestionParser {
  import opened Text
  import opened Scanner

  // ---------------------------------------------------------------------
  // Marks annotation: `\[Marks:\s*(\d+)\]`
  // ---------------------------------------------------------------------

  const MarksPattern: Pattern := Pattern([Lit("[Marks:"), Spaces, Group, Lit("]")], [], false)

  /** `s[i..e]` is a marks annotation worth `v` whose digits start at `a`:
      `[Marks:`, whitespace up to `a`, digits spelling `v`, then `]`. */
  predicate MarksShape(s: string, i: nat, a: nat, e: nat, v: nat) {
    && i + 7 <= a < e - 1 && e <= |s|
    && s[i..i + 7] == "[Marks:"
    && (forall k :: i + 7 <= k < a ==> IsSpace(s[k]))
    && AllDigits(s[a..e - 1]) && s[e - 1] == ']'
    && v == DigitsValue(s[a..e - 1])
  }

  /** `s[i..e]` is a whole marks annotation worth `v`. */
  ghost predicate MarksAnnotation(s: string, i: nat, e: nat, v: nat) {
    exists a :: MarksShape(s, i, a, e, v)
  }

  /** Some annotation starts at position `i` of `s`. */
  ghost predicate AnnotationAt(s: string, i: nat) {
    exists e, v :: MarksAnnotation(s, i, e, v)
  }

  /** What the scanner matches at `i` is an annotation. */
  lemma MarksMatchIsAnnotation(s: string, i: nat)
    requires i <= |s|
    ensures MatchAt(s, MarksPattern, i).Some? ==>
              MarksAnnotation(s, i, MatchAt(s, MarksPattern, i).value.end, MatchAt(s, MarksPattern, i).value.value)
    ensures MatchAt(s, MarksPattern, i).Some? ==> AnnotationAt(s, i)
  {
    if WordAt(s, i, "[Marks:", false) {
      var j := SkipSpaces(s, i + 7);
      var d := SkipDigits(s, j);
      if j < d < |s| && s[d] == ']' {
        MarksRunShape(s, i, j, d);
      } else {
        MarksRunMissing(s, i, j, d);
      }
    } else {
      LitFails(s, MarksPattern.body, i, false, 0);
    }
  }

  /** After `[Marks:` and whitespace up to `j`, digits up to `d` closed by `]` are a match and an annotation. */
  lemma MarksRunShape(s: string, i: nat, j: nat, d: nat)
    requires i + 7 <= |s| && WordAt(s, i, "[Marks:", false)
    requires j == SkipSpaces(s, i + 7) && d == SkipDigits(s, j) && j < d < |s| && s[d] == ']'
    ensures MatchAt(s, MarksPattern, i) == Some(Hit(i, d + 1, DigitsValue(s[j..d])))
    ensures MarksShape(s, i, j, d + 1, DigitsValue(s[j..d]))
  {
    MarksRun(s, i, j, d);
    assert s[i..i + 7] == "[Marks:";
  }

  /** After `[Marks:` and whitespace up to `j`, no digits closed by `]` means no match. */
  lemma MarksRunMissing(s: string, i: nat, j: nat, d: nat)
    requires i + 7 <= |s| && WordAt(s, i, "[Marks:", false)
    requires j == SkipSpaces(s, i + 7) && d == SkipDigits(s, j) && !(j < d < |s| && s[d] == ']')
    ensures MatchAt(s, MarksPattern, i).None?
  {
    var body := MarksPattern.body;
    LitStep(s, body, i, false, 0);
    SpacesStep(s, body[1..], i + 7, false, 0);
    MarksRunDigitsFails(s, body[1..][1..], j);
  }

  /** Every annotation is what the scanner matches at its start. */
  lemma AnnotationIsMarksMatch(s: string, i: nat, e: nat, v: nat)
    requires MarksAnnotation(s, i, e, v)
    ensures MatchAt(s, MarksPattern, i) == Some(Hit(i, e, v))
  {
    var a: nat :| MarksShape(s, i, a, e, v);
    assert WordAt(s, i, "[Marks:", false) by {
      forall k | 0 <= k < 7 ensures s[i + k] == "[Marks:"[k] {
        assert s[i..i + 7][k] == s[i + k];
      }
    }
    assert IsDigit(s[a..e - 1][0]);
    SkipSpacesExact(s, i + 7, a);
    SkipDigitsExact(s, a, e - 1);
    MarksRun(s, i, a, e - 1);
  }

  /** The scanner's steps over `[Marks:`, whitespace up to `a`, digits up to `d`, and `]`. */
  lemma MarksRun(s: string, i: nat, a: nat, d: nat)
    requires i + 7 <= a < d < |s| && s[d] == ']'
    requires WordAt(s, i, "[Marks:", false) && SkipSpaces(s, i + 7) == a && SkipDigits(s, a) == d
    ensures MatchAt(s, MarksPattern, i) == Some(Hit(i, d + 1, DigitsValue(s[a..d])))
  {
    var p := MarksPattern;
    MarksRunSpaces(s, p.body[1..], i + 7, a, d);
    LitThen(s, p, "[Marks:", i, d + 1, DigitsValue(s[a..d]));
  }

  /** `\s*(\d+)\]` over whitespace up to `a` and digits up to `d`. */
  lemma MarksRunSpaces(s: string, atoms: seq<Atom>, j: nat, a: nat, d: nat)
    requires |atoms| == 3 && atoms[0] == Spaces && atoms[1] == Group && atoms[2] == Lit("]")
    requires j <= a < d < |s| && s[d] == ']'
    requires SkipSpaces(s, j) == a && SkipDigits(s, a) == d
    ensures MatchAtoms(s, atoms, j, false, 0) == Some(Run(d + 1, DigitsValue(s[a..d])))
  {
    SpacesStep(s, atoms, j, false, 0);
    MarksRunDigits(s, atoms[1..], a, d);
  }

  /** `(\d+)\]` over digits up to `d`. */
  lemma MarksRunDigits(s: string, atoms: seq<Atom>, a: nat, d: nat)
    requires |atoms| == 2 && atoms[0] == Group && atoms[1] == Lit("]")
    requires a < d < |s| && s[d] == ']' && SkipDigits(s, a) == d
    ensures MatchAtoms(s, atoms, a, false, 0) == Some(Run(d + 1, DigitsValue(s[a..d])))
  {
    assert IsDigit(s[a..d][0]);
    GroupStep(s, atoms, a, false, 0);
    MarksRunClose(s, atoms[1..], d, DigitsValue(s[a..d]));
  }

  /** Without digits closed by `]` at `a`, the group and the bracket do not match. */
  lemma MarksRunDigitsFails(s: string, atoms: seq<Atom>, a: nat)
    requires |atoms| == 2 && atoms[0] == Group && atoms[1] == Lit("]")
    requires a <= |s|
    requires !(SkipDigits(s, a) > a && SkipDigits(s, a) < |s| && s[SkipDigits(s, a)] == ']')
    ensures MatchAtoms(s, atoms, a, false, 0).None?
  {
    var d := SkipDigits(s, a);
    if d > a {
      assert IsDigit(s[a..d][0]);
      GroupStep(s, atoms, a, false, 0);
      var close := atoms[1..];
      assert !WordAt(s, d, "]", false) by {
        if d < |s| {
          assert s[d + 0] != "]"[0];
        }
      }
      LitFails(s, close, d, false, DigitsValue(s[a..d]));
    }
  }

  /** `\]` at `d`. */
  lemma MarksRunClose(s: string, atoms: seq<Atom>, d: nat, v: nat)
    requires |atoms| == 1 && atoms[0] == Lit("]")
    requires d < |s| && s[d] == ']'
    ensures MatchAtoms(s, atoms, d, false, v) == Some(Run(d + 1, v))
  {
    assert WordAt(s, d, "]", false);
    LitStep(s, atoms, d, false, v);
  }

  /** app.py `extract_marks_from_question`: the value of the leftmost annotation, or 0. */
  function ExtractMarks(question: string): (n: nat)
  {
    match Search(question, MarksPattern, 0)
    case None => 0
    case Some(h) => h.value
  }

  /** Positions where no annotation starts are positions where the scanner matches nothing. */
  lemma NoAnnotationNoMatch(q: string, i: nat)
    requires i <= |q|
    requires forall k :: 0 <= k < i ==> !AnnotationAt(q, k)
    ensures forall k :: 0 <= k < i ==> MatchAt(q, MarksPattern, k).None?
  {
    forall k | 0 <= k < i
      ensures MatchAt(q, MarksPattern, k).None?
    {
      MarksMatchIsAnnotation(q, k);
    }
  }

  /** With an annotation at `i` and none before it, the marks are that annotation's value. */
  lemma ExtractMarksLeftmost(q: string, i: nat, e: nat, v: nat)
    requires MarksAnnotation(q, i, e, v)
    requires forall k :: 0 <= k < i ==> !AnnotationAt(q, k)
    ensures ExtractMarks(q) == v
  {
    AnnotationIsMarksMatch(q, i, e, v);
    NoAnnotationNoMatch(q, i);
    SearchFindsLeftmost(q, MarksPattern, 0, i);
  }

  /** Without any annotation the marks are 0. */
  lemma ExtractMarksAbsent(q: string)
    requires forall k :: 0 <= k <= |q| ==> !AnnotationAt(q, k)
    ensures ExtractMarks(q) == 0
  {
    NoAnnotationNoMatch(q, |q|);
    assert !AnnotationAt(q, |q|);
    MarksMatchIsAnnotation(q, |q|);
  }

  /** When there is an annotation, the marks are the value of the leftmost one. */
  lemma ExtractMarksPresent(q: string)
    requires exists k :: 0 <= k <= |q| && AnnotationAt(q, k)
    ensures exists i: nat, e: nat :: MarksAnnotation(q, i, e, ExtractMarks(q))
                                     && forall k :: 0 <= k < i ==> !AnnotationAt(q, k)
  {
    var k :| 0 <= k <= |q| && AnnotationAt(q, k);
    var e, v :| MarksAnnotation(q, k, e, v);
    AnnotationIsMarksMatch(q, k, e, v);
    var h := Search(q, MarksPattern, 0).value;
    MarksMatchIsAnnotation(q, h.start);
    assert MarksAnnotation(q, h.start, h.end, ExtractMarks(q));
    AnnotationsBeforeLeftmost(q, h.start);
  }

  /** No annotation starts before the scanner's leftmost match. */
  lemma AnnotationsBeforeLeftmost(q: string, i: nat)
    requires i <= |q|
    requires forall k :: 0 <= k < i ==> MatchAt(q, MarksPattern, k).None?
    ensures forall k :: 0 <= k < i ==> !AnnotationAt(q, k)
  {
    forall k | 0 <= k < i ensures !AnnotationAt(q, k) {
      if AnnotationAt(q, k) {
        var e, v :| MarksAnnotation(q, k, e, v);
        AnnotationIsMarksMatch(q, k, e, v);
      }
    }
  }

  /** An annotation of `t` is an annotation of any text holding `t` at offset `a`. */
  lemma ShapeShift(l: string, t: string, a: nat, i: nat, c: nat, e: nat, v: nat)
    requires a + |t| <= |l| && l[a..a + |t|] == t
    requires MarksShape(t, i, c, e, v)
    ensures MarksShape(l, a + i, a + c, a + e, v)
  {
    SliceShift(l, t, a, i, i + 7);
    SliceShift(l, t, a, c, e - 1);
    forall k | a + i + 7 <= k < a + c ensures IsSpace(l[k]) {
      assert l[k] == t[k - a];
    }
    assert l[a + e - 1] == t[e - 1];
  }

  /** An annotation of a text that is `t` padded with whitespace lies inside `t`. */
  lemma ShapeUnshift(l: string, t: string, a: nat, p: nat, c: nat, e: nat, v: nat)
    requires a + |t| <= |l| && l[a..a + |t|] == t
    requires AllSpaces(l[..a]) && AllSpaces(l[a + |t|..])
    requires MarksShape(l, p, c, e, v)
    ensures a <= p && e <= a + |t| && MarksShape(t, p - a, c - a, e - a, v)
  {
    assert l[p..p + 7] == "[Marks:";
    assert l[p..p + 7][0] == l[p];
    assert !IsSpace(l[p]) && !IsSpace(l[e - 1]);
    SliceShift(l, t, a, p - a, p - a + 7);
    SliceShift(l, t, a, c - a, e - a - 1);
    forall k | p - a + 7 <= k < c - a ensures IsSpace(t[k]) {
      assert t[k] == l[a + k];
    }
    assert t[e - a - 1] == l[e - 1];
  }

  /** Every annotation of a whitespace-padded `t` is an annotation of `t`. */
  lemma AnnotationUnshift(l: string, t: string, a: nat)
    requires a + |t| <= |l| && l[a..a + |t|] == t
    requires AllSpaces(l[..a]) && AllSpaces(l[a + |t|..])
    ensures forall k :: 0 <= k <= |l| && AnnotationAt(l, k) ==> a <= k && AnnotationAt(t, k - a)
  {
    forall k | 0 <= k <= |l| && AnnotationAt(l, k)
      ensures a <= k && AnnotationAt(t, k - a)
    {
      var e: nat, v: nat :| MarksAnnotation(l, k, e, v);
      var c: nat :| MarksShape(l, k, c, e, v);
      ShapeUnshift(l, t, a, k, c, e, v);
      assert MarksAnnotation(t, k - a, e - a, v);
    }
  }

  /** Surrounding whitespace does not change the marks a question carries. */
  lemma ExtractMarksPadded(l: string, t: string, a: nat)
    requires a + |t| <= |l| && l[a..a + |t|] == t
    requires AllSpaces(l[..a]) && AllSpaces(l[a + |t|..])
    ensures ExtractMarks(t) == ExtractMarks(l)
  {
    AnnotationUnshift(l, t, a);
    if exists k :: 0 <= k <= |t| && AnnotationAt(t, k) {
      ExtractMarksPresent(t);
      var i: nat, e: nat :| MarksAnnotation(t, i, e, ExtractMarks(t))
                            && forall k :: 0 <= k < i ==> !AnnotationAt(t, k);
      PaddedLeftmost(l, t, a, i, e, ExtractMarks(t));
    } else {
      ExtractMarksAbsent(t);
      ExtractMarksAbsent(l);
    }
  }

  /** The leftmost annotation of `t` is the leftmost annotation of `t` padded with whitespace. */
  lemma PaddedLeftmost(l: string, t: string, a: nat, i: nat, e: nat, v: nat)
    requires a + |t| <= |l| && l[a..a + |t|] == t
    requires forall k :: 0 <= k <= |l| && AnnotationAt(l, k) ==> a <= k && AnnotationAt(t, k - a)
    requires MarksAnnotation(t, i, e, v) && forall k :: 0 <= k < i ==> !AnnotationAt(t, k)
    ensures ExtractMarks(l) == v
  {
    var c: nat :| MarksShape(t, i, c, e, v);
    ShapeShift(l, t, a, i, c, e, v);
    assert MarksAnnotation(l, a + i, a + e, v);
    ExtractMarksLeftmost(l, a + i, a + e, v);
  }

  /** `extract_marks_from_question(q.strip()) == extract_marks_from_question(q)`. */
  lemma ExtractMarksStrip(line: string)
    ensures ExtractMarks(Strip(line)) == ExtractMarks(line)
  {
    var a := StripOffset(line);
    ExtractMarksPadded(line, Strip(line), a);
  }

  // ---------------------------------------------------------------------
  // Correct letter of question n: `{n}\..*?Correct Answer: ([A-D])`, DOTALL
  // ---------------------------------------------------------------------

  const AnswerLine: string := "Correct Answer: "

  /** `Correct Answer: ` followed by one of the letters A to D starts at `q`. */
  predicate AnswerAt(s: string, q: nat) {
    OccursAt(s, q, AnswerLine) && q + |AnswerLine| < |s| && 'A' <= s[q + |AnswerLine|] <= 'D'
  }

  /** The nearest answer line at or after `q`, found by the lazy `.*?` (which crosses newlines under DOTALL). */
  function NextAnswer(s: string, q: nat): (r: Option<nat>)
    requires q <= |s|
    ensures r.Some? ==> q <= r.value && AnswerAt(s, r.value)
    ensures r.Some? ==> forall k :: q <= k < r.value ==> !AnswerAt(s, k)
    ensures r.None? ==> forall k :: q <= k <= |s| ==> !AnswerAt(s, k)
    decreases |s| - q
  {
    if AnswerAt(s, q) then Some(q) else if q == |s| then None else NextAnswer(s, q + 1)
  }

  /** The letter of the nearest answer line at or after `q`. */
  function AnswerAfter(s: string, q: nat): (r: Option<char>)
    requires q <= |s|
    ensures r.Some? ==> 'A' <= r.value <= 'D'
  {
    match NextAnswer(s, q)
    case None => None
    case Some(k) => Some(s[k + |AnswerLine|])
  }

  /** `re.search(prefix + r".*?Correct Answer: ([A-D])", s[p:], re.DOTALL)`: the leftmost
      start where `prefix` occurs and an answer line follows it. */
  function AnswerSearch(s: string, prefix: string, p: nat): (r: Option<char>)
    requires p <= |s|
    decreases |s| - p
  {
    if OccursAt(s, p, prefix) && AnswerAfter(s, p + |prefix|).Some? then AnswerAfter(s, p + |prefix|)
    else if p == |s| then None
    else AnswerSearch(s, prefix, p + 1)
  }

  /** The literal `"<n>."` that opens question `n`'s pattern. */
  function QuestionPrefix(n: nat): string {
    Decimal(n) + "."
  }

  /** app.py `get_correct_mcq_answer`. */
  function CorrectMcqAnswer(text: string, n: nat): (r: Option<char>)
  {
    AnswerSearch(text, QuestionPrefix(n), 0)
  }

  /** Past the first occurrence of the prefix, no later start can succeed where it failed. */
  lemma {:induction false} AnswerSearchFails(s: string, prefix: string, p: nat, q: nat)
    requires p <= |s| && q <= |s|
    requires forall k :: q <= k <= |s| ==> !AnswerAt(s, k)
    requires q <= p + |prefix|
    ensures AnswerSearch(s, prefix, p) == None
    decreases |s| - p
  {
    if OccursAt(s, p, prefix) {
      assert NextAnswer(s, p + |prefix|) == None;
    }
    if p < |s| {
      AnswerSearchFails(s, prefix, p + 1, q);
    }
  }

  /** The search finds the first answer line after the FIRST occurrence of the prefix. */
  lemma {:induction false} AnswerSearchSpec(s: string, prefix: string, p: nat)
    requires p <= |s|
    ensures AnswerSearch(s, prefix, p) == match FindFrom(s, prefix, p)
                                          case None => None
                                          case Some(f) => AnswerAfter(s, f + |prefix|)
    decreases |s| - p
  {
    if OccursAt(s, p, prefix) {
      if AnswerAfter(s, p + |prefix|).None? && p < |s| {
        AnswerSearchFails(s, prefix, p + 1, p + |prefix|);
      }
    } else if p < |s| {
      AnswerSearchSpec(s, prefix, p + 1);
    }
  }

  /** `get_correct_mcq_answer(t, n)`: the letter of the first answer line after the first `"<n>."`, if any. */
  lemma CorrectMcqAnswerSpec(text: string, n: nat)
    ensures CorrectMcqAnswer(text, n) == match FindFrom(text, QuestionPrefix(n), 0)
                                         case None => None
                                         case Some(f) => AnswerAfter(text, f + |QuestionPrefix(n)|)
    ensures CorrectMcqAnswer(text, n).Some? ==> 'A' <= CorrectMcqAnswer(text, n).value <= 'D'
  {
    AnswerSearchSpec(text, QuestionPrefix(n), 0);
  }

  /** app.py `check_mcq_answer`: the same search, then `user_answer.upper() == letter`. */
  function CheckMcqAnswer(text: string, n: nat, userAnswer: string): (ok: bool)
  {
    match AnswerSearch(text, QuestionPrefix(n), 0)
    case None => false
    case Some(letter) => Upper(userAnswer) == [letter]
  }

  /** Correct exactly when there is a correct letter and the answer is that letter in either case;
      a question number with no answer line is simply incorrect. */
  lemma CheckMcqAnswerSpec(text: string, n: nat, userAnswer: string)
    ensures CorrectMcqAnswer(text, n).None? ==> !CheckMcqAnswer(text, n, userAnswer)
    ensures CorrectMcqAnswer(text, n).Some? ==>
              var letter := CorrectMcqAnswer(text, n).value;
              (CheckMcqAnswer(text, n, userAnswer) <==> userAnswer == [letter] || userAnswer == [LowerChar(letter)])
  {
    CorrectMcqAnswerSpec(text, n);
    if CorrectMcqAnswer(text, n).Some? {
      var letter := CorrectMcqAnswer(text, n).value;
      if Upper(userAnswer) == [letter] {
        assert UpperChar(userAnswer[0]) == letter;
      }
    }
  }

  // ---------------------------------------------------------------------
  // Multiple-choice blocks (app.py:300-303, 339)
  // ---------------------------------------------------------------------

  const BlockMarker: string := "Correct Answer"

  lemma BlockMarkerNoSelfOverlap()
    ensures NoSelfOverlap(BlockMarker)
  {
    assert BlockMarker[0] !in BlockMarker[1..];
    FirstLetterUnique(BlockMarker);
  }

  /** `mcqs.split("Correct Answer")[:-1]`: one block per question slot. */
  function McqBlocks(mcqs: string): (blocks: seq<string>)
  {
    var pieces := Split(mcqs, BlockMarker);
    pieces[..|pieces| - 1]
  }

  /** There are exactly as many slots as occurrences of the marker, and no block contains it. */
  lemma McqBlocksCount(mcqs: string)
    ensures |McqBlocks(mcqs)| == Count(mcqs, BlockMarker)
    ensures forall k :: 0 <= k < |McqBlocks(mcqs)| ==> !Contains(McqBlocks(mcqs)[k], BlockMarker)
  {
    BlockMarkerNoSelfOverlap();
    SplitCount(mcqs, BlockMarker, 0);
    SplitPiecesFree(mcqs, BlockMarker, 0);
  }

  /** The blocks and the dropped trailing piece, joined by the marker, give back the blob. */
  lemma McqBlocksRoundTrip(mcqs: string)
    ensures exists last :: !Contains(last, BlockMarker) && Join(McqBlocks(mcqs) + [last], BlockMarker) == mcqs
  {
    var pieces := Split(mcqs, BlockMarker);
    SplitJoin(mcqs, BlockMarker, 0);
    SplitPiecesFree(mcqs, BlockMarker, 0);
    assert McqBlocks(mcqs) + [pieces[|pieces| - 1]] == pieces;
    assert mcqs[0..] == mcqs;
  }

  // ---------------------------------------------------------------------
  // Numbered question lines: `re.match(r'^\d+\.', line.strip())`
  // ---------------------------------------------------------------------

  const NumberedPattern: Pattern := Pattern([Digits, Lit(".")], [], false)

  /** The line opens with a run of digits followed by a dot. */
  predicate IsNumbered(line: string) {
    var d := SkipDigits(line, 0);
    0 < d < |line| && line[d] == '.'
  }

  /** `IsNumbered` is what `re.match` of the numbered pattern at the start of the line
      reports, and it holds exactly when one or more digits and a dot open the line. */
  lemma IsNumberedSpec(line: string)
    ensures IsNumbered(line) <==> MatchAt(line, NumberedPattern, 0).Some?
    ensures IsNumbered(line) <==> exists k :: 0 < k < |line| && AllDigits(line[..k]) && line[k] == '.'
  {
    var b1 := [Lit(".")];
    assert NumberedPattern.body[1..] == b1;
    var d := SkipDigits(line, 0);
    assert line[0..d] == line[..d];
    if MatchAt(line, NumberedPattern, 0).Some? {
      assert WordAt(line, d, ".", false);
      assert line[d] == "."[0];
    }
    if IsNumbered(line) {
      assert WordAt(line, d, ".", false);
      assert MatchAtoms(line, b1, d, false, 0) == Some(Run(d + 1, 0));
    }
    if exists k :: 0 < k < |line| && AllDigits(line[..k]) && line[k] == '.' {
      var k :| 0 < k < |line| && AllDigits(line[..k]) && line[k] == '.';
      assert line[0..k] == line[..k];
      SkipDigitsExact(line, 0, k);
    }
  }

  /** `re.match(r'^\d+\.', line.strip())`: the filter that picks out question lines. */
  predicate IsQuestionLine(line: string) {
    IsNumbered(Strip(line))
  }

  /** The elements of `xs` that `keep` accepts, in their original order. */
  function Filter(xs: seq<string>, keep: string -> bool): (kept: seq<string>)
    ensures |kept| <= |xs|
    ensures forall k :: 0 <= k < |kept| ==> kept[k] in xs && keep(kept[k])
    ensures forall x :: x in xs && keep(x) ==> x in kept
  {
    if xs == [] then []
    else (if keep(xs[0]) then [xs[0]] else []) + Filter(xs[1..], keep)
  }

  /** Filtering commutes with concatenation, so the kept elements stay in their original order. */
  lemma {:induction false} FilterAppend(a: seq<string>, b: seq<string>, keep: string -> bool)
    ensures Filter(a + b, keep) == Filter(a, keep) + Filter(b, keep)
  {
    if a == [] {
      assert a + b == b;
    } else {
      assert (a + b)[1..] == a[1..] + b;
      FilterAppend(a[1..], b, keep);
    }
  }

  /** The lines the question filter keeps, unstripped, in their original order. */
  function NumberedLines(lines: seq<string>): seq<string> {
    Filter(lines, IsQuestionLine)
  }

  /** app.py:207, 220-221, 233-234: `calculate_statistics` keeps the raw numbered lines of a blob. */
  function QuestionLines(blob: string): seq<string> {
    NumberedLines(Split(blob, "\n"))
  }

  /** app.py:314-315, 324-325: the attempt and evaluation views keep the same lines, stripped. */
  function QuestionTexts(blob: string): (qs: seq<string>)
    ensures |qs| == |QuestionLines(blob)|
  {
    StripEach(QuestionLines(blob))
  }

  /** `[l.strip() for l in lines]`. */
  function StripEach(lines: seq<string>): (stripped: seq<string>)
    ensures |stripped| == |lines|
  {
    if lines == [] then [] else [Strip(lines[0])] + StripEach(lines[1..])
  }

  lemma {:induction false} StripEachSpec(lines: seq<string>)
    ensures forall k :: 0 <= k < |lines| ==> StripEach(lines)[k] == Strip(lines[k])
  {
    if lines != [] {
      StripEachSpec(lines[1..]);
    }
  }

  /** The `k`-th question text is the stripped `k`-th question line, and it is numbered. */
  lemma QuestionTextsSpec(blob: string)
    ensures forall k :: 0 <= k < |QuestionTexts(blob)| ==>
              QuestionTexts(blob)[k] == Strip(QuestionLines(blob)[k]) && IsNumbered(QuestionTexts(blob)[k])
  {
    StripEachSpec(QuestionLines(blob));
  }
}
