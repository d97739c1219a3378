/** The tail of `check_with_playwright`: once the page text is in hand, classify it and
    build the short evidence string that goes into the log line and the notification. The
    browser session in front of it is not modelled; what it hands back is a `Page`. */
module Evidence {
  import opened Options
  import opened Text
  import opened Prices
  import opened Classifier

  /** What the renderer returns for one URL: the body text, a navigation timeout, or any
      other failure with its message. */
  datatype Page = Rendered(text: string) | TimedOut | Failed(message: string)

  /** The status and evidence reported for one site. */
  datatype Observation = Observation(status: Status, evidence: string)

  /** `price_hint=<first raw-text match of currency, optional whitespace, two or more digits
      or commas>`, or nothing when the text has no such match. */
  function PriceHint(text: string): string {
    match FirstToken(text, true)
    case None => ""
    case Some(t) => "price_hint=" + t
  }

  /** The provider tags, Agoda's before Booking's. */
  function SourceTags(url: string): string {
    (if Contains(url, "agoda.com") then "[Agoda]" else "")
    + (if Contains(url, "booking.com") then "[Booking]" else "")
  }

  /** The evidence string: the price hint, then the tags, with nothing in between. */
  function EvidenceOf(text: string, url: string): string {
    PriceHint(text) + SourceTags(url)
  }

  /** The evidence is empty exactly when there is neither a price nor a known provider,
      and it starts with "price_hint=" exactly when there is a price. */
  lemma EvidenceCases(text: string, url: string)
    ensures EvidenceOf(text, url) == "" <==>
      FirstToken(text, true).None? && !Contains(url, "agoda.com") && !Contains(url, "booking.com")
    ensures FirstToken(text, true).Some? <==> StartsWith(EvidenceOf(text, url), "price_hint=")
  {
    var r := EvidenceOf(text, url);
    assert FirstToken(text, true).Some? ==> r[..11] == "price_hint=";
    assert FirstToken(text, true).None? && r != [] ==> r[0] == '[';
  }

  /** A price token holds no capital A. */
  lemma TokenLacksA(t: string)
    requires IsToken(t, true)
    ensures forall i :: 0 <= i < |t| ==> t[i] != 'A'
  {
    TokenShape(t, true);
  }

  /** The price hint is bare and holds no capital A, so it never contains "Agoda". */
  lemma HintShape(text: string)
    ensures Bare(PriceHint(text))
    ensures !Contains(PriceHint(text), "Agoda")
  {
    if FirstToken(text, true).Some? {
      var t := FirstToken(text, true).value;
      FirstTokenOccurs(text, true);
      HintOfToken(t);
    } else {
      assert PriceHint(text) == "";
    }
  }

  /** The hint built around a token is bare and does not contain "Agoda". */
  lemma HintOfToken(t: string)
    requires IsToken(t, true)
    ensures Bare("price_hint=" + t)
    ensures !Contains("price_hint=" + t, "Agoda")
  {
    var h := "price_hint=" + t;
    TokenShape(t, true);
    TokenLacksA(t);
    assert h[0] == 'p';
    assert h[|h| - 1] == t[|t| - 1];
    forall i | 0 <= i < |h| ensures h[i] != 'A' {
      if i >= 11 {
        assert h[i] == t[i - 11];
      }
    }
    if Contains(h, "Agoda") {
      ContainsFirstChar(h, "Agoda");
    }
  }

  /** Appending tags keeps the evidence bare. */
  lemma EvidenceBare(text: string, url: string)
    ensures Bare(EvidenceOf(text, url))
  {
    HintShape(text);
    var h, g := PriceHint(text), SourceTags(url);
    assert EvidenceOf(text, url) == h + g;
    if g != [] {
      assert g[|g| - 1] == ']';
      assert (h + g)[|h + g| - 1] == ']';
      assert h == [] ==> (h + g)[0] == '[';
    } else {
      assert h + g == h;
    }
  }

  /** The evidence block as the source writes it: start empty, set the price hint,
      append each tag after `(evidence + " ").strip()`, strip at the end. Every strip is
      a no-op and the guard `"Agoda" not in evidence` always holds, so the result is the
      hint followed by the tags, with no whitespace at either end. */
  method BuildEvidence(text: string, url: string) returns (evidence: string)
    ensures evidence == EvidenceOf(text, url)
    ensures Bare(evidence)
  {
    evidence := "";
    var m := FirstToken(text, true);
    if m.Some? {
      evidence := "price_hint=" + m.value;
    }
    assert evidence == PriceHint(text);
    HintShape(text);
    evidence := AddProviderTags(evidence, url);
    evidence := StripAll(evidence);
  }

  /** The two provider checks: on a bare evidence string without "Agoda", each tag the
      URL calls for is appended directly, Agoda's first. */
  method AddProviderTags(e: string, url: string) returns (r: string)
    ensures Bare(e) && !Contains(e, "Agoda") ==> r == e + SourceTags(url) && Bare(r)
  {
    r := e;
    assert Bare("[Agoda]") && Bare("[Booking]");
    if Contains(url, "agoda.com") {
      if !Contains(r, "Agoda") {
        r := AppendTag(r, "[Agoda]");
      }
    }
    ghost var afterAgoda := r;
    if Contains(url, "booking.com") {
      r := AppendTag(r, "[Booking]");
    }
    if Bare(e) && !Contains(e, "Agoda") {
      assert afterAgoda == e + (if Contains(url, "agoda.com") then "[Agoda]" else "");
      assert Bare(afterAgoda);
    }
  }

  /** `(evidence + " ").strip() + tag`: on a bare `evidence` the padding is stripped off
      again, so the tag follows directly, and a tag that is itself bare keeps the result
      bare. */
  method AppendTag(e: string, tag: string) returns (r: string)
    ensures Bare(e) ==> r == e + tag
    ensures Bare(e) && Bare(tag) && tag != [] ==> Bare(r)
  {
    r := Strip(e + " ") + tag;
    if Bare(e) {
      StripPadded(e);
      if Bare(tag) && tag != [] {
        assert r[|r| - 1] == tag[|tag| - 1];
        assert e == [] ==> r[0] == tag[0];
        assert e != [] ==> r[0] == e[0];
      }
    }
  }

  /** `evidence.strip()`: always bare, and a no-op on what is bare already. */
  method StripAll(e: string) returns (r: string)
    ensures Bare(r)
    ensures Bare(e) ==> r == e
  {
    r := Strip(e);
    if Bare(e) {
      StripBare(e);
    }
  }

  /** What one site check reports: a rendered page is classified and given evidence; a
      timeout is "unknown" with evidence "timeout"; any other failure is "unknown" with
      evidence "error: " and the message. */
  function Observe(url: string, page: Page): Observation {
    match page
    case Rendered(text) => Observation(Classify(text), EvidenceOf(text, url))
    case TimedOut => Observation(Unknown, "timeout")
    case Failed(message) => Observation(Unknown, "error: " + message)
  }

  /** A failed render is never conclusive, and a rendered page's evidence has no
      whitespace at either end. */
  lemma ObserveSpec(url: string, page: Page)
    ensures !page.Rendered? ==> Observe(url, page).status == Unknown
    ensures page.Rendered? ==> Bare(Observe(url, page).evidence)
  {
    if page.Rendered? {
      EvidenceBare(page.text, url);
    }
  }

  /** `check_with_playwright` after the browser is closed. */
  method Inspect(url: string, page: Page) returns (status: Status, evidence: string)
    ensures Observation(status, evidence) == Observe(url, page)
  {
    match page
    case Rendered(text) =>
      status := Classify(text);
      evidence := BuildEvidence(text, url);
    case TimedOut =>
      status, evidence := Unknown, "timeout";
    case Failed(message) =>
      status, evidence := Unknown, "error: " + message;
  }

  /** A digits-only price in the raw text always yields a price hint: the pattern with
      commas matches wherever the digits-only one does. The classifier's fallback reads
      the collapsed text instead, so it can fire while the hint stays empty
      (`SpacedPriceIsAvailable`). */
  lemma HintCoversPrice(text: string)
    requires HasPrice(text)
    ensures StartsWith(EvidenceOf(text, ""), "price_hint=")
  {
    DigitsTokenWidens(text);
    EvidenceCases(text, "");
  }

  /** The two patterns disagree on comma-grouped prices: in "$1,500" the digits-only
      pattern finds one digit before the comma and gives up, so the page is "unknown",
      while the evidence still reports the price in full. */
  lemma CommaPriceIsUnknown()
    ensures Classify("$1,500") == Unknown
    ensures EvidenceOf("$1,500", "") == "price_hint=" + "$1,500"
  {
    CommaPriceCollapsed();
    CommaPriceNoSignal();
    CommaPriceNoDigitsToken();
    CommaPriceCommaToken();
    assert !Contains("", "agoda.com") && !Contains("", "booking.com");
  }

  lemma CommaPriceCollapsed()
    ensures Normalize("$1,500") == "$1,500"
  {
    var s := "$1,500";
    assert IsWord(s);
    WordsOfJoin([s]);
  }

  lemma CommaPriceNoSignal()
    ensures !AvailableSignal("$1,500") && !SoldoutSignal("$1,500")
  {
    var s := "$1,500";
    assert Lower(s) == s;
    NoPhraseIn(s);
  }

  lemma CommaPriceNoDigitsToken()
    ensures !HasPrice("$1,500")
  {
    var s := "$1,500";
    assert s[0..1] == "$";
    MarkerUnique(s, 0, "$");
    assert RunLength(s, 2, false) == 0;
    assert TokenEnd(s, 0, false).None?;
    forall j | 1 <= j <= |s| ensures TokenEnd(s, j, false).None? {
      NoMarkerIn(s, j);
    }
  }

  lemma CommaPriceCommaToken()
    ensures FirstToken("$1,500", true) == Some("$1,500")
  {
    var s := "$1,500";
    assert s[0..1] == "$";
    MarkerUnique(s, 0, "$");
    assert !IsSpace(s[1]);
    RunCovers(s, 1, 5, true);
    assert TokenEnd(s, 0, true) == Some(6);
    assert s[0..6] == s;
  }

  /** The other way the patterns disagree: the classifier reads the collapsed text, the
      evidence builder the raw text. With two spaces after the marker, "$  150" collapses
      to "$ 150", which the fallback reads as a price, so the page is "available"; the raw
      text has no match, so the evidence is empty. */
  lemma SpacedPriceIsAvailable()
    ensures Classify("$  150") == Available
    ensures EvidenceOf("$  150", "") == ""
  {
    SpacedPriceCollapsed();
    SpacedPriceNoSignal();
    SpacedPriceDigitsToken();
    SpacedPriceNoCommaToken();
    assert !Contains("", "agoda.com") && !Contains("", "booking.com");
  }

  lemma SpacedPriceCollapsed()
    ensures Normalize("$  150") == "$ 150"
  {
    var s := "$  150";
    assert IsWord("$") && IsWord("150");
    assert s == "$" + "  150";
    WordsOfSeparated("$", "  150");
    assert "  150" == " " + " 150" && " 150" == " " + "150";
    WordsAfterSpace(" 150");
    WordsAfterSpace("150");
    WordsOfSeparated("150", "");
    assert "150" + "" == "150";
    assert Words(s) == ["$", "150"];
  }

  lemma SpacedPriceNoSignal()
    ensures !AvailableSignal("$ 150") && !SoldoutSignal("$ 150")
  {
    var t := "$ 150";
    assert Lower(t) == t;
    NoPhraseIn(t);
  }

  lemma SpacedPriceDigitsToken()
    ensures HasPrice("$ 150")
  {
    var t := "$ 150";
    assert t[0..1] == "$";
    MarkerUnique(t, 0, "$");
    RunCovers(t, 2, 3, false);
    assert TokenEnd(t, 0, false).Some?;
  }

  lemma SpacedPriceNoCommaToken()
    ensures FirstToken("$  150", true).None?
  {
    var s := "$  150";
    assert s[0..1] == "$";
    MarkerUnique(s, 0, "$");
    assert RunLength(s, 2, true) == 0 && RunLength(s, 1, true) == 0;
    assert TokenEnd(s, 0, true).None?;
    forall j | 1 <= j <= |s| ensures TokenEnd(s, j, true).None? {
      NoMarkerIn(s, j);
    }
  }

  /** A text made only of characters up to '9' (digits, "$", commas, spaces) holds no
      phrase of either table. */
  lemma NoPhraseIn(s: string)
    requires forall c :: c in s ==> c <= '9'
    ensures forall p :: p in AvailablePhrases + SoldoutPhrases ==> !Contains(s, p)
  {
    PhraseInitials();
    forall p | p in AvailablePhrases + SoldoutPhrases ensures !Contains(s, p) {
      if Contains(s, p) {
        ContainsFirstChar(s, p);
      }
    }
  }

  /** No marker starts after the first character of a text whose only marker character is
      its leading "$". */
  lemma NoMarkerIn(s: string, j: nat)
    requires 1 <= j <= |s|
    requires forall i :: 1 <= i < |s| ==> s[i] in "0123456789, "
    ensures MarkerAt(s, j).None?
  {
    if MarkerAt(s, j).Some? {
      MarkerStart(s, j);
    }
  }
}
