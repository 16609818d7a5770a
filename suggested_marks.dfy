/** app.py `extract_suggested_marks`: the marks a grader's feedback suggests,
    read by an ordered chain of eight case-insensitive patterns and capped at
    the question's marks. */
module SuggestedMarks {
  import opened Text
  import opened Scanner

  // The eight patterns of app.py:116-125, each matched with `re.IGNORECASE`.

  // `[Ss]uggested marks?:?\s*(\d+)(?:/\d+)?`
  const SuggestedLine: Pattern :=
    Pattern([Lit("suggested mark"), OptChar('s'), OptChar(':'), Spaces, Group], [Lit("/"), Digits], true)
  // `[Mm]ards?:?\s*(\d+)(?:\s*out of\s*\d+)?`, the `mards?` kept as written
  const MardLine: Pattern :=
    Pattern([Lit("mard"), OptChar('s'), OptChar(':'), Spaces, Group], [Spaces, Lit("out of"), Spaces, Digits], true)
  // `[Ss]core:?\s*(\d+)(?:/\d+)?`
  const ScoreLine: Pattern := Pattern([Lit("score"), OptChar(':'), Spaces, Group], [Lit("/"), Digits], true)
  // `[Gg]rade:?\s*(\d+)(?:/\d+)?`
  const GradeLine: Pattern := Pattern([Lit("grade"), OptChar(':'), Spaces, Group], [Lit("/"), Digits], true)
  // `(\d+)\s*marks?\s*out of`
  const MarksOutOf: Pattern := Pattern([Group, Spaces, Lit("mark"), OptChar('s'), Spaces, Lit("out of")], [], true)
  // `(\d+)\s*/\s*\d+\s*marks?`
  const FractionMarks: Pattern :=
    Pattern([Group, Spaces, Lit("/"), Spaces, Digits, Spaces, Lit("mark"), OptChar('s')], [], true)
  // `award\s*(\d+)\s*marks?`
  const AwardMarks: Pattern := Pattern([Lit("award"), Spaces, Group, Spaces, Lit("mark"), OptChar('s')], [], true)
  // `give\s*(\d+)\s*marks?`
  const GiveMarks: Pattern := Pattern([Lit("give"), Spaces, Group, Spaces, Lit("mark"), OptChar('s')], [], true)

  /** The chain, in the order it is tried. */
  const SuggestedPatterns: seq<Pattern> :=
    [SuggestedLine, MardLine, ScoreLine, GradeLine, MarksOutOf, FractionMarks, AwardMarks, GiveMarks]

  /** Which pattern of the chain matched, and its leftmost match. */
  datatype Found = Found(index: nat, hit: Hit)

  /** The first pattern, from `k` on, that matches anywhere in `s`, with its leftmost match. */
  function FirstMatch(s: string, patterns: seq<Pattern>, k: nat): (r: Option<Found>)
    requires k <= |patterns|
    ensures r.Some? ==> k <= r.value.index < |patterns|
                        && Search(s, patterns[r.value.index], 0) == Some(r.value.hit)
    ensures r.Some? ==> forall j :: k <= j < r.value.index ==> Search(s, patterns[j], 0).None?
    ensures r.None? ==> forall j :: k <= j < |patterns| ==> Search(s, patterns[j], 0).None?
    decreases |patterns| - k
  {
    if k == |patterns| then None
    else match Search(s, patterns[k], 0)
      case Some(h) => Some(Found(k, h))
      case None => FirstMatch(s, patterns, k + 1)
  }

  function Min(a: int, b: int): int {
    if a <= b then a else b
  }

  /** app.py `extract_suggested_marks(ai_response, max_marks)`. */
  function ExtractSuggestedMarks(response: string, maxMarks: int): (r: int)
    ensures r == 0 || r <= maxMarks
    ensures maxMarks >= 0 ==> 0 <= r <= maxMarks
  {
    match FirstMatch(response, SuggestedPatterns, 0)
    case None => 0
    case Some(found) => Min(found.hit.value, maxMarks)
  }

  /** `FirstMatch` picks the first pattern of the list that matches, and none when none does. */
  lemma FirstMatchIsFirst(s: string, patterns: seq<Pattern>)
    ensures (forall j :: 0 <= j < |patterns| ==> Search(s, patterns[j], 0).None?) ==> FirstMatch(s, patterns, 0) == None
    ensures forall j :: 0 <= j < |patterns| && Search(s, patterns[j], 0).Some?
                        && (forall i :: 0 <= i < j ==> Search(s, patterns[i], 0).None?)
                        ==> FirstMatch(s, patterns, 0) == Some(Found(j, Search(s, patterns[j], 0).value))
  {
    var r := FirstMatch(s, patterns, 0);
    forall j | 0 <= j < |patterns| && Search(s, patterns[j], 0).Some?
               && (forall i :: 0 <= i < j ==> Search(s, patterns[i], 0).None?)
      ensures r == Some(Found(j, Search(s, patterns[j], 0).value))
    {
      assert r.Some?;
    }
  }

  /** The value comes from the first pattern of the chain that matches anywhere in the text,
      whatever later patterns match earlier in it; with no pattern matching it is 0. */
  lemma SuggestedMarksPriority(response: string, maxMarks: int)
    ensures (forall j :: 0 <= j < |SuggestedPatterns| ==> Search(response, SuggestedPatterns[j], 0).None?)
              ==> ExtractSuggestedMarks(response, maxMarks) == 0
    ensures forall j :: 0 <= j < |SuggestedPatterns| && Search(response, SuggestedPatterns[j], 0).Some?
                        && (forall i :: 0 <= i < j ==> Search(response, SuggestedPatterns[i], 0).None?)
                        ==> ExtractSuggestedMarks(response, maxMarks)
                            == Min(Search(response, SuggestedPatterns[j], 0).value.value, maxMarks)
  {
    FirstMatchIsFirst(response, SuggestedPatterns);
  }

  /** The line the grading prompts ask for (app.py:150-153, 178-181). */
  const PromptLead: string := "Suggested marks: "

  /** Feedback that holds the requested `Suggested marks: X` is read back as X, capped, when no
      earlier text spells `suggested mark`: the first pattern of the chain then finds that line. */
  lemma PromptFormatRead(prefix: string, x: nat, rest: string, maxMarks: int)
    requires forall k :: 0 <= k < |prefix| ==> !WordAt(prefix + PromptLead, k, "suggested mark", true)
    requires rest == [] || !IsDigit(rest[0])
    ensures ExtractSuggestedMarks(prefix + PromptLead + Decimal(x) + rest, maxMarks) == Min(x, maxMarks)
  {
    var t := prefix + PromptLead;
    var s := t + Decimal(x) + rest;
    var o := |prefix|;
    assert s[..|t|] == t;
    NoLeadBefore(t, s, o);
    assert s[o..o + 17] == PromptLead;
    assert s[o + 17..o + 17 + |Decimal(x)|] == Decimal(x);
    assert o + 17 + |Decimal(x)| < |s| ==> s[o + 17 + |Decimal(x)|] == rest[0];
    LeadAt(s, o, x);
    SearchFindsLeftmost(s, SuggestedLine, 0, o);
    SuggestedMarksPriority(s, maxMarks);
  }

  /** The requested line at `o`, followed by a non-digit or the end, is the first pattern's match there, worth X. */
  lemma LeadAt(s: string, o: nat, x: nat)
    requires o + 17 + |Decimal(x)| <= |s|
    requires s[o..o + 17] == PromptLead && s[o + 17..o + 17 + |Decimal(x)|] == Decimal(x)
    requires o + 17 + |Decimal(x)| == |s| || !IsDigit(s[o + 17 + |Decimal(x)|])
    ensures MatchAt(s, SuggestedLine, o).Some? && MatchAt(s, SuggestedLine, o).value.value == x
  {
    var d := o + 17 + |Decimal(x)|;
    assert DigitsValue(s[o + 17..d]) == x by {
      assert s[o + 17..d] == Decimal(x);
      DecimalRoundTrip(x);
    }
    LeadChars(s, o);
    assert s[o + 17] == s[o + 17..d][0] == Decimal(x)[0];
    assert IsDigit(Decimal(x)[0]);
    SkipSpacesExact(s, o + 16, o + 17);
    SkipDigitsExact(s, o + 17, d);
    LeadRun(s, o, d);
  }

  /** The characters of `Suggested marks: ` at `o`, as the first pattern's atoms see them. */
  lemma LeadChars(s: string, o: nat)
    requires o + 17 <= |s| && s[o..o + 17] == PromptLead
    ensures WordAt(s, o, "suggested mark", true)
    ensures s[o + 14] == 's' && s[o + 15] == ':' && IsSpace(s[o + 16])
  {
    forall k | 0 <= k < 14 ensures CharMatches(s[o + k], "suggested mark"[k], true) {
      assert s[o + k] == s[o..o + 17][k] == PromptLead[k];
    }
    assert s[o + 14] == s[o..o + 17][14] && s[o + 15] == s[o..o + 17][15] && s[o + 16] == s[o..o + 17][16];
  }

  /** A score line ahead of the requested line does not win: the suggested-marks pattern comes first. */
  lemma ScoreBeforeSuggestion()
    ensures ExtractSuggestedMarks("Score: 9 Suggested marks: 7/10", 10) == 7
  {
    var s := "Score: 9 Suggested marks: 7/10";
    var prefix, rest := s[..9], s[27..];
    ScoreLineParts(s);
    forall k | 0 <= k < |prefix| ensures !WordAt(prefix + PromptLead, k, "suggested mark", true) {
      assert (prefix + PromptLead)[k + 1] == s[k + 1];
      assert "suggested mark"[1] == 'u' && LowerChar(s[k + 1]) != 'u';
      assert !CharMatches((prefix + PromptLead)[k + 1], "suggested mark"[1], true);
    }
    assert rest[0] == '/';
    PromptFormatRead(prefix, 7, rest, 10);
  }

  /** The example line cut into the text before the requested line, the line's lead, the digit and the rest. */
  lemma ScoreLineParts(s: string)
    requires s == "Score: 9 Suggested marks: 7/10"
    ensures |s| == 30 && s == s[..9] + PromptLead + Decimal(7) + s[27..]
  {
    assert s[9..26] == PromptLead && s[26..27] == Decimal(7);
    assert s == s[..9] + s[9..26] + s[26..27] + s[27..];
  }

  /** No match of the first pattern starts before `o` when the text up to there, and the 14
      characters of `suggested mark` after it, never spell the phrase. */
  lemma NoLeadBefore(t: string, s: string, o: nat)
    requires o + 14 <= |t| <= |s| && s[..|t|] == t
    requires forall k :: 0 <= k < o ==> !WordAt(t, k, "suggested mark", true)
    ensures forall k :: 0 <= k < o ==> MatchAt(s, SuggestedLine, k).None?
  {
    forall k | 0 <= k < o ensures MatchAt(s, SuggestedLine, k).None? {
      assert !WordAt(s, k, "suggested mark", true) by {
        assert !WordAt(t, k, "suggested mark", true);
        var m :| 0 <= m < 14 && !CharMatches(t[k + m], "suggested mark"[m], true);
        assert s[k + m] == s[..|t|][k + m];
      }
      LitFails(s, SuggestedLine.body, k, true, 0);
    }
  }

  /** The first pattern's steps, from `o`, over `Suggested mark`, `s`, `:`, one space and the digits up to `d`. */
  lemma LeadRun(s: string, o: nat, d: nat)
    requires o + 17 < d <= |s| && WordAt(s, o, "suggested mark", true)
    requires s[o + 14] == 's' && s[o + 15] == ':' && SkipSpaces(s, o + 16) == o + 17 && SkipDigits(s, o + 17) == d
    ensures MatchAt(s, SuggestedLine, o).Some?
    ensures MatchAt(s, SuggestedLine, o).value.value == DigitsValue(s[o + 17..d])
  {
    var p := SuggestedLine;
    var b1, b2, b3, b4 := [OptChar('s'), OptChar(':'), Spaces, Group], [OptChar(':'), Spaces, Group], [Spaces, Group], [Group];
    assert p.body[1..] == b1 && b1[1..] == b2 && b2[1..] == b3 && b3[1..] == b4;
    var v := DigitsValue(s[o + 17..d]);
    assert MatchAtoms(s, b4, o + 17, true, 0) == Some(Run(d, v));
    assert MatchAtoms(s, b1, o + 14, true, 0) == Some(Run(d, v));
  }
}
