/** Leftmost-match scanning for the fixed regular expressions of the
    question parser. Each expression is written as a sequence of atoms
    matched greedily, left to right, without backtracking. For the
    expressions used here that is exactly what Python's `re` finds: every
    optional character, `\s*` and `\d+` is followed by an atom that cannot
    begin with a character it consumes, so giving characters back never
    produces another match. */
module Scanner {
  import opened Text

  datatype Atom =
    | Lit(word: string)   // the word itself
    | OptChar(c: char)    // `c?`
    | Spaces              // `\s*`
    | Digits              // `\d+`, not captured
    | Group               // `(\d+)`, the expression's one capture group

  /** `body(?:tail)?`; `ignoreCase` is `re.IGNORECASE` (ASCII letters). */
  datatype Pattern = Pattern(body: seq<Atom>, tail: seq<Atom>, ignoreCase: bool)

  /** A match: where it starts and ends, and the integer value of its group. */
  datatype Hit = Hit(start: nat, end: nat, value: nat)

  datatype Run = Run(end: nat, value: nat)

  predicate CharMatches(c: char, want: char, ignoreCase: bool) {
    if ignoreCase then LowerChar(c) == LowerChar(want) else c == want
  }

  predicate WordAt(s: string, i: nat, w: string, ignoreCase: bool) {
    i + |w| <= |s| && forall k :: 0 <= k < |w| ==> CharMatches(s[i + k], w[k], ignoreCase)
  }

  function SkipDigits(s: string, i: nat): (j: nat)
    requires i <= |s|
    ensures i <= j <= |s| && (j == |s| || !IsDigit(s[j]))
    ensures AllDigits(s[i..j])
    decreases |s| - i
  {
    if i < |s| && IsDigit(s[i]) then SkipDigits(s, i + 1) else i
  }

  /** Match the single atom `a` at `i`: where it ends and the group's value after it. */
  function MatchAtom(s: string, a: Atom, i: nat, ignoreCase: bool, value: nat): (r: Option<Run>)
    requires i <= |s|
    ensures r.Some? ==> i <= r.value.end <= |s|
  {
    match a
    case Lit(w) => if WordAt(s, i, w, ignoreCase) then Some(Run(i + |w|, value)) else None
    case OptChar(c) => if i < |s| && CharMatches(s[i], c, ignoreCase) then Some(Run(i + 1, value)) else Some(Run(i, value))
    case Spaces => Some(Run(SkipSpaces(s, i), value))
    case Digits =>
      var j := SkipDigits(s, i);
      if j == i then None else Some(Run(j, value))
    case Group =>
      var j := SkipDigits(s, i);
      if j == i then None else Some(Run(j, DigitsValue(s[i..j])))
  }

  /** Match `atoms` at `i`; `value` is the group's value if it was already read. */
  function MatchAtoms(s: string, atoms: seq<Atom>, i: nat, ignoreCase: bool, value: nat): (r: Option<Run>)
    requires i <= |s|
    ensures r.Some? ==> i <= r.value.end <= |s|
    decreases |atoms|
  {
    if atoms == [] then Some(Run(i, value))
    else match MatchAtom(s, atoms[0], i, ignoreCase, value)
      case None => None
      case Some(run) => MatchAtoms(s, atoms[1..], run.end, ignoreCase, run.value)
  }

  /** Starts with a non-empty literal, so it never matches the empty string. */
  predicate Anchored(p: Pattern) {
    |p.body| > 0 && p.body[0].Lit? && |p.body[0].word| > 0
  }

  /** The match of `p` that starts exactly at `i`, if any. */
  function MatchAt(s: string, p: Pattern, i: nat): (r: Option<Hit>)
    requires i <= |s|
    ensures r.Some? ==> r.value.start == i && i <= r.value.end <= |s|
    ensures r.Some? && Anchored(p) ==> i < r.value.end
  {
    match MatchAtoms(s, p.body, i, p.ignoreCase, 0)
    case None => None
    case Some(run) =>
      match MatchAtoms(s, p.tail, run.end, p.ignoreCase, run.value)
      case None => Some(Hit(i, run.end, run.value))
      case Some(longer) => Some(Hit(i, longer.end, run.value))
  }

  /** `re.search(p, s[i:])`: the leftmost match starting at or after `i`. */
  function Search(s: string, p: Pattern, i: nat): (r: Option<Hit>)
    requires i <= |s|
    ensures r.Some? ==> i <= r.value.start <= |s| && MatchAt(s, p, r.value.start) == r
    ensures r.Some? ==> forall k :: i <= k < r.value.start ==> MatchAt(s, p, k).None?
    ensures r.None? ==> forall k :: i <= k <= |s| ==> MatchAt(s, p, k).None?
    decreases |s| - i
  {
    if MatchAt(s, p, i).Some? then MatchAt(s, p, i)
    else if i == |s| then None
    else Search(s, p, i + 1)
  }

  /** `re.finditer(p, s[i:])`: successive leftmost matches, each search resuming where the last match ended. */
  function FindAll(s: string, p: Pattern, i: nat): (hits: seq<Hit>)
    requires i <= |s| && Anchored(p)
    ensures forall k :: 0 <= k < |hits| ==> i <= hits[k].start < hits[k].end <= |s|
    ensures forall k :: 0 <= k < |hits| ==> MatchAt(s, p, hits[k].start) == Some(hits[k])
    ensures forall j, k :: 0 <= j < k < |hits| ==> hits[j].end <= hits[k].start
    decreases |s| - i
  {
    match Search(s, p, i)
    case None => []
    case Some(h) => [h] + FindAll(s, p, h.end)
  }

  /** No match starting at or after `i` is missing from `hits`: none starts before the first
      hit, none between the end of one hit and the start of the next, and none after the last. */
  ghost predicate NoneSkipped(s: string, p: Pattern, i: nat, hits: seq<Hit>)
    requires i <= |s|
    decreases |hits|
  {
    if hits == [] then forall k :: i <= k <= |s| ==> MatchAt(s, p, k).None?
    else
      && (forall k :: i <= k < hits[0].start && k <= |s| ==> MatchAt(s, p, k).None?)
      && hits[0].end <= |s| && NoneSkipped(s, p, hits[0].end, hits[1..])
  }

  /** `FindAll` reports every match it passes over, as `re.finditer` does. */
  lemma {:induction false} FindAllComplete(s: string, p: Pattern, i: nat)
    requires i <= |s| && Anchored(p)
    ensures NoneSkipped(s, p, i, FindAll(s, p, i))
    decreases |s| - i
  {
    match Search(s, p, i)
    case None =>
    case Some(h) =>
      FindAllComplete(s, p, h.end);
      assert FindAll(s, p, i)[1..] == FindAll(s, p, h.end);
  }

  /** `re.sub(p, '', s[i:])`: the text with every match that `FindAll` reports deleted. */
  function Sub(s: string, p: Pattern, i: nat): string
    requires i <= |s| && Anchored(p)
    decreases |s| - i
  {
    match Search(s, p, i)
    case None => s[i..]
    case Some(h) => s[i..h.start] + Sub(s, p, h.end)
  }

  /** The total of the groups' values over a list of matches. */
  function SumValues(hits: seq<Hit>): nat {
    if hits == [] then 0 else SumValues(hits[..|hits| - 1]) + hits[|hits| - 1].value
  }

  /** The number of characters a list of matches covers. */
  function Covered(hits: seq<Hit>): int {
    if hits == [] then 0 else (hits[0].end - hits[0].start) + Covered(hits[1..])
  }

  /** `s[i..]` with the text of every hit in the list cut out. */
  function Delete(s: string, hits: seq<Hit>, i: nat): string
    requires i <= |s|
    requires forall k :: 0 <= k < |hits| ==> hits[k].start <= hits[k].end <= |s|
    requires forall k :: 0 <= k < |hits| ==> i <= hits[k].start
    requires forall j, k :: 0 <= j < k < |hits| ==> hits[j].end <= hits[k].start
    decreases |hits|
  {
    if hits == [] then s[i..]
    else s[i..hits[0].start] + Delete(s, hits[1..], hits[0].end)
  }

  /** `SkipSpaces` stops exactly at the end of the run of whitespace. */
  lemma {:induction false} SkipSpacesExact(s: string, i: nat, j: nat)
    requires i <= j <= |s|
    requires forall k :: i <= k < j ==> IsSpace(s[k])
    requires j == |s| || !IsSpace(s[j])
    ensures SkipSpaces(s, i) == j
    decreases j - i
  {
    if i < j {
      SkipSpacesExact(s, i + 1, j);
    }
  }

  /** `SkipDigits` stops exactly at the end of the run of digits. */
  lemma {:induction false} SkipDigitsExact(s: string, i: nat, j: nat)
    requires i <= j <= |s|
    requires AllDigits(s[i..j])
    requires j == |s| || !IsDigit(s[j])
    ensures SkipDigits(s, i) == j
    decreases j - i
  {
    if i < j {
      assert IsDigit(s[i..j][0]);
      assert s[i + 1..j] == s[i..j][1..];
      SkipDigitsExact(s, i + 1, j);
    }
  }

  /** One step of `MatchAtoms` over a literal that is present. */
  lemma LitStep(s: string, atoms: seq<Atom>, i: nat, ignoreCase: bool, value: nat)
    requires i <= |s| && atoms != [] && atoms[0].Lit? && WordAt(s, i, atoms[0].word, ignoreCase)
    ensures MatchAtoms(s, atoms, i, ignoreCase, value)
            == MatchAtoms(s, atoms[1..], i + |atoms[0].word|, ignoreCase, value)
  {
  }

  /** A pattern without a tail matches where its body does. */
  lemma MatchAtBody(s: string, p: Pattern, i: nat, end: nat, value: nat)
    requires i <= |s| && p.tail == [] && MatchAtoms(s, p.body, i, p.ignoreCase, 0) == Some(Run(end, value))
    ensures MatchAt(s, p, i) == Some(Hit(i, end, value))
  {
  }

  /** A pattern without a tail whose body opens with a present literal matches where the rest of its body does. */
  lemma LitThen(s: string, p: Pattern, w: string, i: nat, end: nat, value: nat)
    requires p.tail == [] && p.body != [] && p.body[0] == Lit(w)
    requires i + |w| <= |s| && WordAt(s, i, w, p.ignoreCase)
    requires MatchAtoms(s, p.body[1..], i + |w|, p.ignoreCase, 0) == Some(Run(end, value))
    ensures MatchAt(s, p, i) == Some(Hit(i, end, value))
  {
    LitStep(s, p.body, i, p.ignoreCase, 0);
    MatchAtBody(s, p, i, end, value);
  }

  /** `MatchAtoms` fails at a literal that is absent. */
  lemma LitFails(s: string, atoms: seq<Atom>, i: nat, ignoreCase: bool, value: nat)
    requires i <= |s| && atoms != [] && atoms[0].Lit? && !WordAt(s, i, atoms[0].word, ignoreCase)
    ensures MatchAtoms(s, atoms, i, ignoreCase, value).None?
  {
  }

  /** One step of `MatchAtoms` over `\s*`. */
  lemma SpacesStep(s: string, atoms: seq<Atom>, i: nat, ignoreCase: bool, value: nat)
    requires i <= |s| && atoms != [] && atoms[0].Spaces?
    ensures MatchAtoms(s, atoms, i, ignoreCase, value) == MatchAtoms(s, atoms[1..], SkipSpaces(s, i), ignoreCase, value)
  {
  }

  /** One step of `MatchAtoms` over the capture group, when a digit follows. */
  lemma GroupStep(s: string, atoms: seq<Atom>, i: nat, ignoreCase: bool, value: nat)
    requires i < |s| && IsDigit(s[i]) && atoms != [] && atoms[0].Group?
    ensures SkipDigits(s, i) > i
    ensures MatchAtoms(s, atoms, i, ignoreCase, value)
            == MatchAtoms(s, atoms[1..], SkipDigits(s, i), ignoreCase, DigitsValue(s[i..SkipDigits(s, i)]))
  {
  }

  /** One step of `MatchAtoms` over an optional character that is present. */
  lemma OptStep(s: string, atoms: seq<Atom>, i: nat, ignoreCase: bool, value: nat)
    requires i < |s| && atoms != [] && atoms[0].OptChar? && CharMatches(s[i], atoms[0].c, ignoreCase)
    ensures MatchAtoms(s, atoms, i, ignoreCase, value) == MatchAtoms(s, atoms[1..], i + 1, ignoreCase, value)
  {
  }

  /** A match at `k` with none before it is what `Search` returns. */
  lemma SearchFindsLeftmost(s: string, p: Pattern, i: nat, k: nat)
    requires i <= k <= |s|
    requires MatchAt(s, p, k).Some?
    requires forall j :: i <= j < k ==> MatchAt(s, p, j).None?
    ensures Search(s, p, i) == MatchAt(s, p, k)
  {
  }
}
