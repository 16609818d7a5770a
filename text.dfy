/** The handful of Python `str` operations the question parser relies on:
    whitespace and digit classes, `int()` on a digit run, `str()` of a
    question number, `upper()`, `startswith`/`find`, `split` and `strip`. */
module Text {

  datatype Option<+T> = None | Some(value: T)

  /** Python's `str.isspace`, which is also the `\s` class of `re` on str patterns. */
  predicate IsSpace(c: char) {
    || '\t' <= c <= '\r'
    || '\U{1C}' <= c <= ' '
    || c == '\U{85}' || c == '\U{A0}' || c == '\U{1680}'
    || '\U{2000}' <= c <= '\U{200A}'
    || c == '\U{2028}' || c == '\U{2029}' || c == '\U{202F}' || c == '\U{205F}' || c == '\U{3000}'
  }

  /** The ASCII digits, the part of `\d` this model covers. */
  predicate IsDigit(c: char) {
    '0' <= c <= '9'
  }

  predicate AllDigits(s: string) {
    forall k :: 0 <= k < |s| ==> IsDigit(s[k])
  }

  predicate AllSpaces(s: string) {
    forall k :: 0 <= k < |s| ==> IsSpace(s[k])
  }

  function DigitValue(c: char): (d: nat)
    requires IsDigit(c)
    ensures d < 10
  {
    c as int - '0' as int
  }

  function DigitChar(d: nat): (c: char)
    requires d < 10
    ensures IsDigit(c) && DigitValue(c) == d
  {
    ('0' as int + d) as char
  }

  /** `int(d)` for a run of ASCII digits (leading zeros allowed). */
  function DigitsValue(d: string): nat
    requires AllDigits(d)
  {
    if |d| == 0 then 0 else 10 * DigitsValue(d[..|d| - 1]) + DigitValue(d[|d| - 1])
  }

  /** `str(n)`: the decimal spelling of a question number. */
  function Decimal(n: nat): (s: string)
    ensures |s| > 0 && AllDigits(s)
  {
    if n < 10 then [DigitChar(n)] else Decimal(n / 10) + [DigitChar(n % 10)]
  }

  lemma {:induction false} DecimalRoundTrip(n: nat)
    ensures DigitsValue(Decimal(n)) == n
  {
    if n >= 10 {
      DecimalRoundTrip(n / 10);
      var s := Decimal(n);
      assert s[..|s| - 1] == Decimal(n / 10);
    }
  }

  /** ASCII letters only; every other character is its own upper and lower case. */
  function UpperChar(c: char): char {
    if 'a' <= c <= 'z' then (c as int - 32) as char else c
  }

  function LowerChar(c: char): char {
    if 'A' <= c <= 'Z' then (c as int + 32) as char else c
  }

  /** `s.upper()`. */
  function Upper(s: string): (u: string)
    ensures |u| == |s|
    ensures forall k :: 0 <= k < |s| ==> u[k] == UpperChar(s[k])
  {
    if s == [] then [] else [UpperChar(s[0])] + Upper(s[1..])
  }

  /** `w` occurs in `s` at position `i`. */
  predicate OccursAt(s: string, i: int, w: string) {
    0 <= i && i + |w| <= |s| && s[i..i + |w|] == w
  }

  /** `s.find(w, i)`: the leftmost occurrence of `w` at or after `i`. */
  function FindFrom(s: string, w: string, i: nat): (r: Option<nat>)
    requires i <= |s|
    ensures r.Some? ==> i <= r.value && OccursAt(s, r.value, w)
    ensures r.Some? ==> forall p :: i <= p < r.value ==> !OccursAt(s, p, w)
    ensures r.None? ==> forall p :: i <= p <= |s| ==> !OccursAt(s, p, w)
    decreases |s| - i
  {
    if OccursAt(s, i, w) then Some(i)
    else if i == |s| then None
    else FindFrom(s, w, i + 1)
  }

  /** The number of positions at or after `i` where `w` occurs (overlapping ones included). */
  function CountFrom(s: string, w: string, i: nat): nat
    requires |w| > 0 && i <= |s|
    decreases |s| - i
  {
    if i == |s| then 0
    else (if OccursAt(s, i, w) then 1 else 0) + CountFrom(s, w, i + 1)
  }

  function Count(s: string, w: string): nat
    requires |w| > 0
  {
    CountFrom(s, w, 0)
  }

  /** `s.split(sep)`, from position `i` on. */
  function SplitFrom(s: string, sep: string, i: nat): (pieces: seq<string>)
    requires |sep| > 0 && i <= |s|
    ensures |pieces| > 0
    decreases |s| - i
  {
    match FindFrom(s, sep, i)
    case None => [s[i..]]
    case Some(p) => [s[i..p]] + SplitFrom(s, sep, p + |sep|)
  }

  function Split(s: string, sep: string): (pieces: seq<string>)
    requires |sep| > 0
    ensures |pieces| > 0
  {
    SplitFrom(s, sep, 0)
  }

  /** `sep.join(pieces)`. */
  function Join(pieces: seq<string>, sep: string): string {
    if |pieces| == 0 then []
    else if |pieces| == 1 then pieces[0]
    else pieces[0] + sep + Join(pieces[1..], sep)
  }

  predicate Contains(s: string, w: string) {
    exists p :: 0 <= p <= |s| && OccursAt(s, p, w)
  }

  /** No proper suffix of `w` is also a prefix, so two occurrences never overlap. */
  predicate NoSelfOverlap(w: string) {
    forall d :: 0 < d < |w| ==> w[d..] != w[..|w| - d]
  }

  /** Joining the pieces of a split with the separator gives back the text. */
  lemma {:induction false} SplitJoin(s: string, sep: string, i: nat)
    requires |sep| > 0 && i <= |s|
    ensures Join(SplitFrom(s, sep, i), sep) == s[i..]
    decreases |s| - i
  {
    match FindFrom(s, sep, i)
    case None =>
    case Some(p) =>
      SplitJoin(s, sep, p + |sep|);
      var rest := SplitFrom(s, sep, p + |sep|);
      assert SplitFrom(s, sep, i) == [s[i..p]] + rest;
      assert s[i..] == s[i..p] + sep + s[p + |sep|..];
  }

  /** No piece of a split contains the separator. */
  lemma {:induction false} SplitPiecesFree(s: string, sep: string, i: nat)
    requires |sep| > 0 && i <= |s|
    ensures forall k :: 0 <= k < |SplitFrom(s, sep, i)| ==> !Contains(SplitFrom(s, sep, i)[k], sep)
    decreases |s| - i
  {
    var pieces := SplitFrom(s, sep, i);
    match FindFrom(s, sep, i)
    case None =>
      NoOccurrenceInSlice(s, sep, i, |s|);
      assert s[i..|s|] == s[i..];
    case Some(p) =>
      SplitPiecesFree(s, sep, p + |sep|);
      NoOccurrenceInSlice(s, sep, i, p);
      var rest := SplitFrom(s, sep, p + |sep|);
      assert pieces == [s[i..p]] + rest;
      forall k | 0 < k < |pieces|
        ensures !Contains(pieces[k], sep)
      {
        assert pieces[k] == rest[k - 1];
      }
  }

  /** A slice `s[i..j]` contains `w` only where `s` itself has an occurrence inside `[i, j]`. */
  lemma NoOccurrenceInSlice(s: string, w: string, i: nat, j: nat)
    requires i <= j <= |s|
    requires forall p :: i <= p < j ==> !OccursAt(s, p, w)
    requires |w| > 0
    ensures !Contains(s[i..j], w)
  {
    if Contains(s[i..j], w) {
      var q :| 0 <= q <= j - i && OccursAt(s[i..j], q, w);
      assert q + |w| <= j - i;
      forall k | 0 <= k < |w| ensures s[i + q + k] == w[k] {
        assert s[i..j][q..q + |w|][k] == w[k];
      }
      assert s[i + q..i + q + |w|] == w;
      assert i + q < j && OccursAt(s, i + q, w);
      assert false;
    }
  }

  /** Occurrences never start in a stretch the scan has shown to be free of them. */
  lemma {:induction false} CountSkip(s: string, w: string, i: nat, j: nat)
    requires |w| > 0 && i <= j <= |s|
    requires forall p :: i <= p < j ==> !OccursAt(s, p, w)
    ensures CountFrom(s, w, i) == CountFrom(s, w, j)
    decreases j - i
  {
    if i < j {
      CountSkip(s, w, i + 1, j);
    }
  }

  /** Two occurrences of a separator without self-overlap are at least its length apart. */
  lemma OccurrencesApart(s: string, w: string, p: nat, q: nat)
    requires NoSelfOverlap(w)
    requires OccursAt(s, p, w) && p < q < p + |w|
    ensures !OccursAt(s, q, w)
  {
    var d := q - p;
    if OccursAt(s, q, w) {
      assert w[d..] == w[..|w| - d] by {
        assert s[p..p + |w|][d..] == s[q..p + |w|] == s[q..q + |w|][..|w| - d];
      }
    }
  }

  /** An occurrence of a separator without self-overlap hides no other occurrence. */
  lemma CountPastOccurrence(s: string, w: string, p: nat)
    requires |w| > 0 && NoSelfOverlap(w) && OccursAt(s, p, w)
    ensures CountFrom(s, w, p) == 1 + CountFrom(s, w, p + |w|)
  {
    forall q | p + 1 <= q < p + |w|
      ensures !OccursAt(s, q, w)
    {
      OccurrencesApart(s, w, p, q);
    }
    CountSkip(s, w, p + 1, p + |w|);
  }

  /** `s.split(sep)` has one piece more than `sep` has occurrences in `s`. */
  lemma {:induction false} SplitCount(s: string, sep: string, i: nat)
    requires |sep| > 0 && i <= |s| && NoSelfOverlap(sep)
    ensures |SplitFrom(s, sep, i)| == CountFrom(s, sep, i) + 1
    decreases |s| - i
  {
    match FindFrom(s, sep, i)
    case None =>
      CountSkip(s, sep, i, |s|);
    case Some(p) =>
      CountSkip(s, sep, i, p);
      CountPastOccurrence(s, sep, p);
      SplitCount(s, sep, p + |sep|);
  }

  /** A word whose first letter occurs nowhere else in it cannot overlap itself. */
  lemma FirstLetterUnique(w: string)
    requires |w| > 0 && w[0] !in w[1..]
    ensures NoSelfOverlap(w)
  {
    forall d | 0 < d < |w|
      ensures w[d..] != w[..|w| - d]
    {
      assert w[d..][0] == w[1..][d - 1];
    }
  }

  /** A slice of a text that holds `t` at offset `a` is the matching slice of `t`. */
  lemma SliceShift(s: string, t: string, a: nat, i: nat, j: nat)
    requires a + |t| <= |s| && s[a..a + |t|] == t && i <= j <= |t|
    ensures s[a + i..a + j] == t[i..j]
  {
    forall k | 0 <= k < j - i
      ensures s[a + i..a + j][k] == t[i..j][k]
    {
      assert t[i + k] == s[a..a + |t|][i + k];
    }
  }

  /** Index of the first non-whitespace character at or after `i`: where `\s*` stops,
      and, from 0, the first character that `strip` keeps. */
  function SkipSpaces(s: string, i: nat): (a: nat)
    requires i <= |s|
    ensures i <= a <= |s| && (a == |s| || !IsSpace(s[a]))
    ensures forall k :: i <= k < a ==> IsSpace(s[k])
    decreases |s| - i
  {
    if i < |s| && IsSpace(s[i]) then SkipSpaces(s, i + 1) else i
  }

  /** One past the last character that `strip` keeps, scanning down to `a`. */
  function StripEnd(s: string, a: nat, j: nat): (b: nat)
    requires a <= j <= |s|
    ensures a <= b <= j && (b == a || !IsSpace(s[b - 1]))
    ensures forall k :: b <= k < j ==> IsSpace(s[k])
    decreases j
  {
    if j > a && IsSpace(s[j - 1]) then StripEnd(s, a, j - 1) else j
  }

  /** `s.strip()`: the text between the leading and the trailing whitespace. */
  function Strip(s: string): (t: string)
    ensures |t| <= |s|
  {
    var a := SkipSpaces(s, 0);
    s[a..StripEnd(s, a, |s|)]
  }

  /** `strip` removes only whitespace, all of it from both ends, and keeps the rest in place. */
  lemma StripSpec(s: string)
    ensures var t := Strip(s);
            && (|t| == 0 || (!IsSpace(t[0]) && !IsSpace(t[|t| - 1])))
            && exists a :: 0 <= a <= |s| - |t| && s[a..a + |t|] == t
                        && AllSpaces(s[..a]) && AllSpaces(s[a + |t|..])
  {
    var a := StripOffset(s);
  }

  /** Where the stripped text sits inside the original. */
  lemma StripOffset(s: string) returns (a: nat)
    ensures var t := Strip(s);
            && (|t| == 0 || (!IsSpace(t[0]) && !IsSpace(t[|t| - 1])))
            && a + |t| <= |s| && s[a..a + |t|] == t
            && AllSpaces(s[..a]) && AllSpaces(s[a + |t|..])
  {
    a := SkipSpaces(s, 0);
    var b := StripEnd(s, a, |s|);
    assert AllSpaces(s[..a]) && AllSpaces(s[b..]);
  }

  /** `StripEnd` never moves below a character that is not whitespace. */
  lemma {:induction false} StripEndKeeps(s: string, a: nat, j: nat)
    requires a < j <= |s| && !IsSpace(s[a])
    ensures StripEnd(s, a, j) > a
    decreases j
  {
    if j > a + 1 && IsSpace(s[j - 1]) {
      StripEndKeeps(s, a, j - 1);
    }
  }

  /** `s.strip()` is empty exactly when `s` is all whitespace. */
  lemma StripEmpty(s: string)
    ensures Strip(s) == [] <==> AllSpaces(s)
  {
    var a := SkipSpaces(s, 0);
    if a < |s| {
      StripEndKeeps(s, a, |s|);
    }
  }
}
