/** The price-like token both the classifier and the evidence builder look for:
    the regular expression `(₩|KRW|NZD|\$)\s?\d{2,}` (classifier, digits only) and
    `(₩|KRW|NZD|\$)\s?[\d,]{2,}` (evidence, digits and commas), searched
    case-sensitively, written out as a scanner over positions of the text. */
module Prices {
  import opened Options
  import opened Text

  /** The currency markers, in the order the alternation tries them: WON SIGN (U+20A9),
      "KRW", "NZD", "$". No marker is a prefix of another. */
  const Markers: seq<string> := ["\U{20A9}", "KRW", "NZD", "$"]

  predicate IsDigit(c: char) {
    '0' <= c <= '9'
  }

  /** A character of the amount: `\d`, or `[\d,]` when commas are allowed. */
  predicate IsAmountChar(c: char, commas: bool) {
    IsDigit(c) || (commas && c == ',')
  }

  /** At least two amount characters and nothing else: `\d{2,}` or `[\d,]{2,}`. */
  predicate IsAmount(a: string, commas: bool) {
    |a| >= 2 && forall i :: 0 <= i < |a| ==> IsAmountChar(a[i], commas)
  }

  /** What follows the marker in a match: `\s?` and then the amount. */
  predicate IsTail(r: string, commas: bool) {
    IsAmount(r, commas) || (r != [] && IsSpace(r[0]) && IsAmount(r[1..], commas))
  }

  /** A whole string the pattern matches: a marker, at most one whitespace character,
      then an amount. */
  predicate IsToken(t: string, commas: bool) {
    MarkerAt(t, 0).Some? && IsTail(t[|MarkerAt(t, 0).value|..], commas)
  }

  /** The marker at position `i` of `s`, if any. */
  function MarkerAt(s: string, i: nat): (m: Option<string>)
    ensures m.Some? ==> m.value in Markers && OccursAt(s, m.value, i)
    ensures m.None? ==> forall k :: k in Markers ==> !OccursAt(s, k, i)
  {
    if OccursAt(s, "\U{20A9}", i) then Some("\U{20A9}")
    else if OccursAt(s, "KRW", i) then Some("KRW")
    else if OccursAt(s, "NZD", i) then Some("NZD")
    else if OccursAt(s, "$", i) then Some("$")
    else None
  }

  /** Markers are told apart by their first character. */
  lemma MarkerUnique(s: string, i: nat, m: string)
    requires m in Markers && OccursAt(s, m, i)
    ensures MarkerAt(s, i) == Some(m)
  {
    assert s[i] == s[i..i + |m|][0] == m[0];
    assert OccursAt(s, "\U{20A9}", i) ==> s[i] == s[i..i + 1][0] == '\U{20A9}';
    assert OccursAt(s, "KRW", i) ==> s[i] == s[i..i + 3][0] == 'K';
    assert OccursAt(s, "NZD", i) ==> s[i] == s[i..i + 3][0] == 'N';
  }

  /** A marker starts with its own first character. */
  lemma MarkerStart(s: string, i: nat)
    requires MarkerAt(s, i).Some?
    ensures i < |s| && s[i] == MarkerAt(s, i).value[0]
  {
    var m := MarkerAt(s, i).value;
    assert s[i..i + |m|][0] == s[i];
  }

  /** Length of the run of amount characters starting at `i` (the greedy `{2,}` takes
      all of it). */
  function RunLength(s: string, i: nat, commas: bool): (n: nat)
    requires i <= |s|
    ensures i + n <= |s|
    ensures forall k :: i <= k < i + n ==> IsAmountChar(s[k], commas)
    ensures i + n == |s| || !IsAmountChar(s[i + n], commas)
    decreases |s| - i
  {
    if i == |s| || !IsAmountChar(s[i], commas) then 0 else 1 + RunLength(s, i + 1, commas)
  }

  /** A run of amount characters from `i` is no longer than the run `RunLength` measures. */
  lemma {:induction false} RunCovers(s: string, i: nat, j: nat, commas: bool)
    requires i + j <= |s|
    requires forall k :: i <= k < i + j ==> IsAmountChar(s[k], commas)
    ensures RunLength(s, i, commas) >= j
    decreases j
  {
    if j > 0 {
      RunCovers(s, i + 1, j - 1, commas);
    }
  }

  /** Where the `\s?` and the amount that follow a marker ending at `j` end, if they
      match. The optional whitespace is tried first; without it the amount would have to
      start on a whitespace character, which it cannot. */
  function ScanTail(s: string, j: nat, commas: bool): Option<nat>
    requires j <= |s|
  {
    if j < |s| && IsSpace(s[j]) && RunLength(s, j + 1, commas) >= 2 then
      Some(j + 1 + RunLength(s, j + 1, commas))
    else if RunLength(s, j, commas) >= 2 then
      Some(j + RunLength(s, j, commas))
    else None
  }

  /** Where the match anchored at `i` ends, if there is one. */
  function TokenEnd(s: string, i: nat, commas: bool): Option<nat>
    requires i <= |s|
  {
    match MarkerAt(s, i)
    case None => None
    case Some(m) => ScanTail(s, i + |m|, commas)
  }

  /** The anchored match is a token, and no further amount character follows it. */
  lemma TokenEndSound(s: string, i: nat, commas: bool)
    requires i <= |s| && TokenEnd(s, i, commas).Some?
    ensures var e := TokenEnd(s, i, commas).value;
      && i < e <= |s| && IsToken(s[i..e], commas)
      && (e == |s| || !IsAmountChar(s[e], commas))
  {
    var e := TokenEnd(s, i, commas).value;
    var m := MarkerAt(s, i).value;
    ScanTailSound(s, i + |m|, commas);
    TokenOfSlice(s, i, e, m, commas);
  }

  /** What the scanner takes after the marker is a tail that no amount character
      extends. */
  lemma ScanTailSound(s: string, j: nat, commas: bool)
    requires j <= |s| && ScanTail(s, j, commas).Some?
    ensures var e := ScanTail(s, j, commas).value;
      && j < e <= |s| && IsTail(s[j..e], commas)
      && (e == |s| || !IsAmountChar(s[e], commas))
  {
    if j < |s| && IsSpace(s[j]) && RunLength(s, j + 1, commas) >= 2 {
      SpacedTail(s, j, commas);
    } else {
      PlainTail(s, j, commas);
    }
  }

  /** A marker at `i` followed by a tail up to `e` makes `s[i..e]` a token. */
  lemma TokenOfSlice(s: string, i: nat, e: nat, m: string, commas: bool)
    requires MarkerAt(s, i) == Some(m) && i + |m| <= e <= |s|
    requires IsTail(s[i + |m|..e], commas)
    ensures IsToken(s[i..e], commas)
  {
    MarkerOfSlice(s, i, e, m);
    assert s[i..e][|m|..] == s[i + |m|..e];
  }

  /** The marker found in `s` at `i` is the marker at the start of any slice from `i`
      that holds it. */
  lemma MarkerOfSlice(s: string, i: nat, e: nat, m: string)
    requires MarkerAt(s, i) == Some(m) && i + |m| <= e <= |s|
    ensures MarkerAt(s[i..e], 0) == Some(m)
  {
    var t := s[i..e];
    assert t[0..|m|] == s[i..i + |m|];
    MarkerUnique(t, 0, m);
  }

  /** A whitespace character followed by a run of two or more is a tail. */
  lemma SpacedTail(s: string, j: nat, commas: bool)
    requires j < |s| && IsSpace(s[j]) && RunLength(s, j + 1, commas) >= 2
    ensures IsTail(s[j..j + 1 + RunLength(s, j + 1, commas)], commas)
  {
    var r := s[j..j + 1 + RunLength(s, j + 1, commas)];
    assert r[0] == s[j];
    assert forall x :: 0 <= x < |r| - 1 ==> r[1..][x] == s[j + 1 + x];
  }

  /** A run of two or more is a tail. */
  lemma PlainTail(s: string, j: nat, commas: bool)
    requires j <= |s| && RunLength(s, j, commas) >= 2
    ensures IsTail(s[j..j + RunLength(s, j, commas)], commas)
  {
    var r := s[j..j + RunLength(s, j, commas)];
    assert forall x :: 0 <= x < |r| ==> r[x] == s[j + x];
  }

  /** If a token starts at `i` and ends at `k`, the anchored match exists and reaches at
      least `k` (greedy). */
  lemma TokenEndComplete(s: string, i: nat, k: nat, commas: bool)
    requires i <= k <= |s| && IsToken(s[i..k], commas)
    ensures TokenEnd(s, i, commas).Some?
    ensures k <= TokenEnd(s, i, commas).value
  {
    var m := SliceMarker(s, i, k, commas);
    MarkedTailComplete(s, i, k, m, commas);
  }

  /** A marker at `i` followed by a tail ending at `k`: the anchored match reaches at
      least `k`. */
  lemma MarkedTailComplete(s: string, i: nat, k: nat, m: string, commas: bool)
    requires MarkerAt(s, i) == Some(m) && i + |m| <= k <= |s|
    requires IsTail(s[i + |m|..k], commas)
    ensures TokenEnd(s, i, commas).Some? && k <= TokenEnd(s, i, commas).value
  {
    ScanTailComplete(s, i + |m|, k, commas);
    TokenEndAfterMarker(s, i, m, commas);
  }

  /** A token from `i` to `k` is the marker of `s` at `i` followed by a tail ending at
      `k`. */
  lemma SliceMarker(s: string, i: nat, k: nat, commas: bool) returns (m: string)
    requires i <= k <= |s| && IsToken(s[i..k], commas)
    ensures MarkerAt(s, i) == Some(m) && i + |m| <= k
    ensures IsTail(s[i + |m|..k], commas)
  {
    var t := s[i..k];
    m := MarkerAt(t, 0).value;
    assert t[0..|m|] == s[i..i + |m|];
    MarkerUnique(s, i, m);
    assert t[|m|..] == s[i + |m|..k];
  }

  /** After a marker the anchored match is what the tail scanner finds. */
  lemma TokenEndAfterMarker(s: string, i: nat, m: string, commas: bool)
    requires i <= |s| && MarkerAt(s, i) == Some(m)
    ensures i + |m| <= |s| && TokenEnd(s, i, commas) == ScanTail(s, i + |m|, commas)
  {
  }

  /** If a tail runs from `j` to `k`, the scanner takes a tail from `j` reaching at least
      `k`. */
  lemma ScanTailComplete(s: string, j: nat, k: nat, commas: bool)
    requires j <= k <= |s| && IsTail(s[j..k], commas)
    ensures ScanTail(s, j, commas).Some? && k <= ScanTail(s, j, commas).value
  {
    var r := s[j..k];
    assert forall x :: 0 <= x < |r| ==> r[x] == s[j + x];
    if r != [] && IsSpace(r[0]) {
      assert !IsAmountChar(r[0], commas);
      assert forall x :: 0 <= x < |r| - 1 ==> r[1..][x] == s[j + 1 + x];
      RunCovers(s, j + 1, k - j - 1, commas);
    } else {
      RunCovers(s, j, k - j, commas);
    }
  }

  /** `re.search` from position `i`: the leftmost position where the anchored match
      exists, and no earlier position has one; none when no position has one. */
  function FirstMatch(s: string, i: nat, commas: bool): (r: Option<nat>)
    requires i <= |s|
    ensures r.Some? ==>
      && i <= r.value <= |s| && TokenEnd(s, r.value, commas).Some?
      && forall j :: i <= j < r.value ==> TokenEnd(s, j, commas).None?
    ensures r.None? ==> forall j :: i <= j <= |s| ==> TokenEnd(s, j, commas).None?
    decreases |s| - i
  {
    if TokenEnd(s, i, commas).Some? then Some(i)
    else if i == |s| then None
    else FirstMatch(s, i + 1, commas)
  }

  /** The text of the first match in `s`. */
  function FirstToken(s: string, commas: bool): Option<string> {
    match FirstMatch(s, 0, commas)
    case None => None
    case Some(a) => Some(s[a..TokenEnd(s, a, commas).value])
  }

  /** A found token is a token and a substring of the text. */
  lemma FirstTokenOccurs(s: string, commas: bool)
    requires FirstToken(s, commas).Some?
    ensures IsToken(FirstToken(s, commas).value, commas)
    ensures Contains(s, FirstToken(s, commas).value)
  {
    var a := FirstMatch(s, 0, commas).value;
    TokenEndSound(s, a, commas);
    var t := FirstToken(s, commas).value;
    assert OccursAt(s, t, a);
  }

  /** What a token is made of: it is bare, and every character is a marker character,
      whitespace or an amount character. */
  lemma TokenShape(t: string, commas: bool)
    requires IsToken(t, commas)
    ensures |t| >= 3 && Bare(t)
    ensures forall i :: 0 <= i < |t| ==>
      t[i] in "\U{20A9}KRWNZD$" || IsSpace(t[i]) || IsAmountChar(t[i], commas)
  {
    var m := MarkerAt(t, 0).value;
    var r := t[|m|..];
    assert t[0] == t[0..|m|][0] == m[0];
    forall i | |m| <= i < |t| ensures IsSpace(t[i]) || IsAmountChar(t[i], commas) {
      assert t[i] == r[i - |m|];
      if !IsAmount(r, commas) && i > |m| {
        assert r[i - |m|] == r[1..][i - |m| - 1];
      }
    }
    assert t[|t| - 1] == r[|r| - 1];
    if !IsAmount(r, commas) {
      assert r[|r| - 1] == r[1..][|r| - 2];
    }
    forall i | 0 <= i < |m| ensures t[i] in "\U{20A9}KRWNZD$" {
      assert t[i] == t[0..|m|][i] == m[i];
    }
  }

  /** A digits-only token is also a token of the pattern that admits commas. */
  lemma TokenWidens(t: string)
    requires IsToken(t, false)
    ensures IsToken(t, true)
  {
    var r := t[|MarkerAt(t, 0).value|..];
    assert IsAmount(r, false) ==> IsAmount(r, true);
    assert r != [] && IsAmount(r[1..], false) ==> IsAmount(r[1..], true);
  }

  /** Where the digits-only pattern matches, the pattern that also admits commas matches. */
  lemma DigitsTokenWidens(s: string)
    requires FirstToken(s, false).Some?
    ensures FirstToken(s, true).Some?
  {
    var a := FirstMatch(s, 0, false).value;
    TokenEndSound(s, a, false);
    var e := TokenEnd(s, a, false).value;
    TokenWidens(s[a..e]);
    TokenEndComplete(s, a, e, true);
  }
}
