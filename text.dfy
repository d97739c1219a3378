/** The string operations the monitor borrows from Python: the whitespace test shared by
    `str.split()`, `str.strip()` and the regular expression class `\s`; splitting on and
    collapsing whitespace (`" ".join(text.split())`); stripping; the substring test `p in s`;
    and the ASCII case folding used to match patterns case-insensitively. */
module Text {

  /** Python's notion of whitespace for `str`: the ASCII separators tab to carriage return,
      the four information separators 0x1C-0x1F, space, and the Unicode space characters
      NEL, NBSP, OGHAM SPACE MARK, EN QUAD to HAIR SPACE, LINE and PARAGRAPH SEPARATOR,
      NARROW NBSP, MEDIUM MATHEMATICAL SPACE and IDEOGRAPHIC SPACE. */
  predicate IsSpace(c: char) {
    || c == ' '
    || ('\t' <= c <= '\r')
    || ('\U{1C}' <= c <= '\U{1F}')
    || c == '\U{85}' || c == '\U{A0}' || c == '\U{1680}'
    || ('\U{2000}' <= c <= '\U{200A}')
    || c == '\U{2028}' || c == '\U{2029}' || c == '\U{202F}' || c == '\U{205F}'
    || c == '\U{3000}'
  }

  /** A word as `str.split()` produces it: non-empty, no whitespace inside. */
  predicate IsWord(w: string) {
    w != [] && forall i :: 0 <= i < |w| ==> !IsSpace(w[i])
  }

  /** Neither starts nor ends with whitespace: what `str.strip()` leaves. */
  predicate Bare(s: string) {
    s == [] || (!IsSpace(s[0]) && !IsSpace(s[|s| - 1]))
  }

  /** The shape of a whitespace-collapsed string: bare, every whitespace character is a
      plain space, and no two whitespace characters are adjacent. */
  predicate Collapsed(s: string) {
    && Bare(s)
    && (forall i :: 0 <= i < |s| && IsSpace(s[i]) ==> s[i] == ' ')
    && (forall i :: 0 <= i < |s| - 1 ==> !SpaceRun(s, i))
  }

  /** Two whitespace characters side by side at index `i`. */
  predicate SpaceRun(s: string, i: int)
    requires 0 <= i < |s| - 1
  {
    IsSpace(s[i]) && IsSpace(s[i + 1])
  }

  // ---------------------------------------------------------------------------
  // Substrings

  predicate StartsWith(s: string, p: string) {
    |p| <= |s| && s[..|p|] == p
  }

  predicate EndsWith(s: string, p: string) {
    |p| <= |s| && s[|s| - |p|..] == p
  }

  /** `p` occurs in `s` starting at index `i`. */
  predicate OccursAt(s: string, p: string, i: int) {
    0 <= i && i + |p| <= |s| && s[i..i + |p|] == p
  }

  /** Python's `p in s` for strings. */
  predicate Contains(s: string, p: string) {
    exists i | 0 <= i <= |s| - |p| :: OccursAt(s, p, i)
  }

  /** Substring containment is transitive: a text holding `p` holds everything `p` holds. */
  lemma ContainsTransitive(s: string, p: string, q: string)
    requires Contains(s, p) && Contains(p, q)
    ensures Contains(s, q)
  {
    var i :| 0 <= i <= |s| - |p| && OccursAt(s, p, i);
    var j :| 0 <= j <= |p| - |q| && OccursAt(p, q, j);
    forall k | 0 <= k < |q|
      ensures s[i + j..i + j + |q|][k] == q[k]
    {
      assert q[k] == p[j + k] == s[i + j + k];
    }
    assert s[i + j..i + j + |q|] == q;
    assert OccursAt(s, q, i + j);
  }

  /** A text that does not hold the first character of `p` does not hold `p`. */
  lemma ContainsFirstChar(s: string, p: string)
    requires p != [] && Contains(s, p)
    ensures p[0] in s
  {
    var i :| 0 <= i <= |s| - |p| && OccursAt(s, p, i);
    assert s[i] == s[i..i + |p|][0];
  }

  // ---------------------------------------------------------------------------
  // Case folding

  /** ASCII upper case to lower case; every other character is left alone. */
  function LowerChar(c: char): char {
    if 'A' <= c <= 'Z' then (c as int + 32) as char else c
  }

  predicate IsUpper(c: char) {
    'A' <= c <= 'Z'
  }

  /** A literal without capital letters. */
  predicate NoCapitals(p: string) {
    forall c :: c in p ==> !IsUpper(c)
  }

  /** `a` and `b` are the same string up to ASCII case. */
  predicate SameUpToCase(a: string, b: string) {
    |a| == |b| && forall i :: 0 <= i < |a| ==> LowerChar(a[i]) == LowerChar(b[i])
  }

  /** Some window of `t` equals `p` up to ASCII case: what `re.search` with `re.I` finds
      for a pattern that is a plain literal. */
  predicate MatchesIgnoringCase(t: string, p: string) {
    exists k | 0 <= k <= |t| - |p| :: WindowMatches(t, p, k)
  }

  /** The window of `t` at `k` equals `p` up to ASCII case. */
  predicate WindowMatches(t: string, p: string, k: int) {
    0 <= k && k + |p| <= |t| && SameUpToCase(t[k..k + |p|], p)
  }

  /** The text with ASCII letters lower-cased: the same string up to case, with no
      capital letter left. */
  function Lower(s: string): (r: string)
    ensures SameUpToCase(r, s)
    ensures forall i :: 0 <= i < |r| ==> !IsUpper(r[i])
  {
    seq(|s|, i requires 0 <= i < |s| => LowerChar(s[i]))
  }

  /** Substring search in the lower-cased text is case-insensitive search: a literal
      without capitals occurs in `Lower(t)` exactly when some window of `t` equals it up
      to ASCII case. */
  lemma LowerMatches(t: string, p: string)
    requires NoCapitals(p)
    ensures Contains(Lower(t), p) <==> MatchesIgnoringCase(t, p)
  {
    if Contains(Lower(t), p) {
      var k :| 0 <= k <= |t| - |p| && OccursAt(Lower(t), p, k);
      LowerWindow(t, p, k);
      assert WindowMatches(t, p, k);
    }
    if MatchesIgnoringCase(t, p) {
      var k :| 0 <= k <= |t| - |p| && WindowMatches(t, p, k);
      LowerWindow(t, p, k);
      assert OccursAt(Lower(t), p, k);
    }
  }

  /** One window: the lower-cased text shows `p` there exactly when the text equals `p`
      there up to case. */
  lemma LowerWindow(t: string, p: string, k: nat)
    requires k + |p| <= |t|
    requires NoCapitals(p)
    ensures Lower(t)[k..k + |p|] == p <==> SameUpToCase(t[k..k + |p|], p)
  {
    var l, w := Lower(t), t[k..k + |p|];
    forall i | 0 <= i < |p|
      ensures l[k + i] == LowerChar(w[i]) && LowerChar(p[i]) == p[i]
    {
      assert w[i] == t[k + i];
      assert p[i] in p;
    }
    if SameUpToCase(w, p) {
      assert forall i :: 0 <= i < |p| ==> l[k..k + |p|][i] == p[i];
    }
    if l[k..k + |p|] == p {
      forall i | 0 <= i < |p| ensures LowerChar(w[i]) == LowerChar(p[i]) {
        assert l[k..k + |p|][i] == l[k + i];
      }
    }
  }

  // ---------------------------------------------------------------------------
  // Stripping

  /** Where the whitespace run starting at `i` ends. */
  function SkipSpace(s: string, i: nat): (n: nat)
    requires i <= |s|
    ensures i <= n <= |s|
    ensures forall j :: i <= j < n ==> IsSpace(s[j])
    ensures n == |s| || !IsSpace(s[n])
    decreases |s| - i
  {
    if i < |s| && IsSpace(s[i]) then SkipSpace(s, i + 1) else i
  }

  /** Where the whitespace run ending at `j` starts, looking no further back than `lo`. */
  function BackSpace(s: string, lo: nat, j: nat): (n: nat)
    requires lo <= j <= |s|
    ensures lo <= n <= j
    ensures forall x :: n <= x < j ==> IsSpace(s[x])
    ensures n == lo || !IsSpace(s[n - 1])
    decreases j
  {
    if lo < j && IsSpace(s[j - 1]) then BackSpace(s, lo, j - 1) else j
  }

  /** `s.strip()`: a bare infix of `s`, and everything cut off on either side is whitespace. */
  function Strip(s: string): (r: string)
    ensures Bare(r)
    ensures exists k ::
              && OccursAt(s, r, k)
              && (forall i :: 0 <= i < k ==> IsSpace(s[i]))
              && (forall i :: k + |r| <= i < |s| ==> IsSpace(s[i]))
  {
    var a := SkipSpace(s, 0);
    var b := BackSpace(s, a, |s|);
    assert a < b ==> s[a..b][0] == s[a] && s[a..b][b - a - 1] == s[b - 1];
    assert OccursAt(s, s[a..b], a);
    s[a..b]
  }

  /** Stripping a string that is already bare changes nothing. */
  lemma StripBare(s: string)
    requires Bare(s)
    ensures Strip(s) == s
  {
    if s != [] {
      assert SkipSpace(s, 0) == 0;
      assert BackSpace(s, 0, |s|) == |s|;
      assert s[0..|s|] == s;
    }
  }

  /** `(e + " ").strip()` gives `e` back when `e` is bare: the idiom the evidence
      builder uses to put a separator before a tag and take it away again. */
  lemma StripPadded(e: string)
    requires Bare(e)
    ensures Strip(e + " ") == e
  {
    var p := e + " ";
    if e == [] {
      assert SkipSpace(p, 0) == SkipSpace(p, 1) == 1;
      assert BackSpace(p, 1, 1) == 1;
    } else {
      assert SkipSpace(p, 0) == 0;
      assert p[|p| - 2] == e[|e| - 1];
      assert BackSpace(p, 0, |p|) == BackSpace(p, 0, |p| - 1) == |e|;
      assert p[0..|e|] == e;
    }
  }

  // ---------------------------------------------------------------------------
  // Splitting on whitespace and joining with single spaces

  /** Length of the leading run of non-whitespace characters. */
  function WordLength(s: string): (n: nat)
    ensures n <= |s|
    ensures forall i :: 0 <= i < n ==> !IsSpace(s[i])
    ensures n == |s| || IsSpace(s[n])
  {
    if s == [] || IsSpace(s[0]) then 0 else 1 + WordLength(s[1..])
  }

  /** `s.split()` with no separator: the maximal runs of non-whitespace, in order. */
  function Words(s: string): seq<string> {
    if s == [] then []
    else if IsSpace(s[0]) then Words(s[1..])
    else [s[..WordLength(s)]] + Words(s[WordLength(s)..])
  }

  /** Splitting yields words: non-empty and free of whitespace. */
  lemma {:induction false} WordsAreWords(s: string)
    ensures forall k :: 0 <= k < |Words(s)| ==> IsWord(Words(s)[k])
  {
    if s != [] {
      if IsSpace(s[0]) {
        WordsAreWords(s[1..]);
      } else {
        var n := WordLength(s);
        var w, rest := s[..n], s[n..];
        WordsAreWords(rest);
        assert IsWord(w) by {
          assert forall i :: 0 <= i < n ==> w[i] == s[i];
        }
        assert forall k :: 1 <= k < |Words(s)| ==> Words(s)[k] == Words(rest)[k - 1];
      }
    }
  }

  /** `" ".join(ws)`. */
  function JoinWords(ws: seq<string>): string {
    if |ws| == 0 then ""
    else if |ws| == 1 then ws[0]
    else ws[0] + " " + JoinWords(ws[1..])
  }

  /** The layout-insensitive form of a text: `" ".join(text.split())`. */
  function Normalize(s: string): string {
    JoinWords(Words(s))
  }

  /** A joined list of words starts with the first word's first character. */
  lemma JoinStart(ws: seq<string>)
    requires |ws| > 0 && IsWord(ws[0])
    ensures JoinWords(ws) != [] && JoinWords(ws)[0] == ws[0][0]
  {
  }

  /** Joining words with single spaces yields a collapsed string. */
  lemma {:induction false} JoinCollapsed(ws: seq<string>)
    requires forall k :: 0 <= k < |ws| ==> IsWord(ws[k])
    ensures Collapsed(JoinWords(ws))
  {
    if |ws| > 1 {
      var w := ws[0];
      var j := JoinWords(ws[1..]);
      JoinCollapsed(ws[1..]);
      JoinStart(ws[1..]);
      var s := w + " " + j;
      assert JoinWords(ws) == s;
      forall i | 0 <= i < |s| && IsSpace(s[i])
        ensures s[i] == ' '
      {
        if i > |w| {
          assert s[i] == j[i - |w| - 1];
        }
      }
      forall i | 0 <= i < |s| - 1
        ensures !SpaceRun(s, i)
      {
        if i == |w| {
          assert s[i + 1] == j[0];
        } else if i > |w| {
          assert s[i] == j[i - |w| - 1] && s[i + 1] == j[i - |w|];
          if i - |w| < |j| - 1 {
            assert !SpaceRun(j, i - |w| - 1);
          }
        } else if i == |w| - 1 {
          assert s[i] == w[i];
        }
      }
      assert s[|s| - 1] == j[|j| - 1];
    }
  }

  lemma WordLengthOfSeparated(w: string, rest: string)
    requires IsWord(w)
    requires rest == [] || IsSpace(rest[0])
    ensures WordLength(w + rest) == |w|
  {
    var s := w + rest;
    var n := WordLength(s);
    assert forall i :: 0 <= i < |w| ==> s[i] == w[i];
    assert rest != [] ==> s[|w|] == rest[0];
  }

  /** Splitting a string that starts with a word and a separator yields that word first. */
  lemma WordsOfSeparated(w: string, rest: string)
    requires IsWord(w)
    requires rest == [] || IsSpace(rest[0])
    ensures Words(w + rest) == [w] + Words(rest)
  {
    var s := w + rest;
    assert s[0] == w[0];
    WordLengthOfSeparated(w, rest);
    assert s[..|w|] == w && s[|w|..] == rest;
  }

  /** A separator in front of a string does not change its words. */
  lemma WordsAfterSpace(j: string)
    ensures Words(" " + j) == Words(j)
  {
    assert (" " + j)[1..] == j;
  }

  /** Splitting undoes joining: `" ".join(ws).split() == ws` for a list of words. */
  lemma {:induction false} WordsOfJoin(ws: seq<string>)
    requires forall k :: 0 <= k < |ws| ==> IsWord(ws[k])
    ensures Words(JoinWords(ws)) == ws
  {
    if |ws| == 0 {
    } else if |ws| == 1 {
      WordsOfSeparated(ws[0], "");
      assert ws[0] + "" == ws[0];
    } else {
      var w, j := ws[0], JoinWords(ws[1..]);
      assert JoinWords(ws) == w + (" " + j);
      WordsOfSeparated(w, " " + j);
      WordsAfterSpace(j);
      WordsOfJoin(ws[1..]);
      assert Words(JoinWords(ws)) == [w] + ws[1..];
    }
  }

  /** Normalization is idempotent: collapsing whitespace twice is collapsing it once. */
  lemma NormalizeIdempotent(s: string)
    ensures Normalize(Normalize(s)) == Normalize(s)
  {
    WordsAreWords(s);
    WordsOfJoin(Words(s));
  }

  /** Normalization yields a collapsed string: so a pattern `A\s*B` can only see
      "AB" or "A B" in it. */
  lemma NormalizeCollapsed(s: string)
    ensures Collapsed(Normalize(s))
  {
    WordsAreWords(s);
    JoinCollapsed(Words(s));
  }

  // ---------------------------------------------------------------------------
  // Normalization changes whitespace only

  /** The non-whitespace characters of a string, in order. */
  function Visible(s: string): string {
    if s == [] then [] else (if IsSpace(s[0]) then [] else [s[0]]) + Visible(s[1..])
  }

  function Concat(ws: seq<string>): string {
    if ws == [] then [] else ws[0] + Concat(ws[1..])
  }

  lemma {:induction false} VisibleAppend(a: string, b: string)
    ensures Visible(a + b) == Visible(a) + Visible(b)
  {
    if a != [] {
      assert (a + b)[1..] == a[1..] + b;
      VisibleAppend(a[1..], b);
    } else {
      assert a + b == b;
    }
  }

  lemma {:induction false} VisibleWord(w: string)
    requires forall i :: 0 <= i < |w| ==> !IsSpace(w[i])
    ensures Visible(w) == w
  {
    if w != [] {
      VisibleWord(w[1..]);
    }
  }

  lemma {:induction false} VisibleOfWords(s: string)
    ensures Visible(s) == Concat(Words(s))
  {
    if s != [] {
      if IsSpace(s[0]) {
        VisibleOfWords(s[1..]);
      } else {
        var n := WordLength(s);
        var w, rest := s[..n], s[n..];
        assert Words(s) == [w] + Words(rest);
        assert Concat([w] + Words(rest)) == w + Concat(Words(rest)) by {
          assert ([w] + Words(rest))[1..] == Words(rest);
        }
        assert s == w + rest;
        VisibleAppend(w, rest);
        VisibleWord(w);
        VisibleOfWords(rest);
      }
    }
  }

  lemma {:induction false} VisibleOfJoin(ws: seq<string>)
    requires forall k :: 0 <= k < |ws| ==> IsWord(ws[k])
    ensures Visible(JoinWords(ws)) == Concat(ws)
  {
    if |ws| == 1 {
      VisibleWord(ws[0]);
      assert Concat(ws) == ws[0] + Concat([]);
    } else if |ws| > 1 {
      var j := JoinWords(ws[1..]);
      VisibleAppend(ws[0] + " ", j);
      VisibleAppend(ws[0], " ");
      VisibleWord(ws[0]);
      assert Visible(" ") == [];
      VisibleOfJoin(ws[1..]);
    }
  }

  /** Collapsing whitespace keeps every other character, in order. */
  lemma NormalizeKeepsVisible(s: string)
    ensures Visible(Normalize(s)) == Visible(s)
  {
    VisibleOfWords(s);
    WordsAreWords(s);
    VisibleOfJoin(Words(s));
  }
}
