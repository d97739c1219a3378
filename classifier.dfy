/** `classify_content`: from a page's text to one of three availability labels.

    The two pattern tables are regular expressions matched case-insensitively against the
    whitespace-collapsed text. Each is written here as the literal strings it can match
    there: a pattern `A\s*B` becomes "AB" and "A B", which is exact because a collapsed
    text holds no whitespace but single plain spaces (`Text.NormalizeCollapsed`), and
    `Rooms? available` becomes "room available" and "rooms available". Matching is
    substring search in the lower-cased text against lower-case literals. */
module Classifier {
  import opened Text
  import opened Prices

  datatype Status = Available | Soldout | Unknown {

    /** The string the source uses for the status, in the state file and in messages. */
    function Label(): string {
      match this
      case Available => "available"
      case Soldout => "soldout"
      case Unknown => "unknown"
    }
  }

  /** The available-signal table: 객실 선택 (select room), 객실 남음 (rooms left),
      예약 가능 (bookable), 지금 예약 (book now), and the English phrases. */
  const AvailablePhrases: seq<string> := [
    "객실선택", "객실 선택", "객실남음", "객실 남음", "예약가능", "예약 가능", "지금예약", "지금 예약",
    "selectroom", "select room", "available", "book now", "room available", "rooms available"
  ]

  /** The sold-out-signal table: 매진 (sold out), 매진되었습니다 (it has sold out),
      객실이 없습니다 (there are no rooms), 품절 (out of stock), 객실 없음 (no rooms), and the
      English phrases. */
  const SoldoutPhrases: seq<string> := [
    "매진", "매진되었습니다", "객실이없습니다", "객실이 없습니다", "품절", "객실없음", "객실 없음",
    "soldout", "sold out", "no rooms available", "fully booked"
  ]

  /** Every phrase starts with a lower-case letter or a Hangul syllable, so never with a
      digit, a sign or a space. */
  lemma PhraseInitials()
    ensures forall p :: p in AvailablePhrases + SoldoutPhrases ==> p != [] && p[0] >= 'a'
  {
  }

  /** Some phrase of the table occurs in the text, ignoring ASCII case. */
  predicate MatchesAny(t: string, phrases: seq<string>) {
    exists p | p in phrases :: Contains(Lower(t), p)
  }

  /** Both tables hold lower-case literals only. */
  lemma PhrasesLowerCase()
    ensures forall p :: p in AvailablePhrases + SoldoutPhrases ==> NoCapitals(p)
  {
    AvailableLowerCase();
    SoldoutLowerCase();
  }

  lemma AvailableLowerCase()
    ensures forall p :: p in AvailablePhrases ==> NoCapitals(p)
  {
  }

  lemma SoldoutLowerCase()
    ensures forall p :: p in SoldoutPhrases ==> NoCapitals(p)
  {
  }

  /** A signal is a case-insensitive match: some literal of the table equals a window of
      the text up to ASCII case, as `re.search(p, t, flags=re.I)` finds it. */
  lemma SignalsIgnoreCase(t: string)
    ensures AvailableSignal(t) <==> exists p :: p in AvailablePhrases && MatchesIgnoringCase(t, p)
    ensures SoldoutSignal(t) <==> exists p :: p in SoldoutPhrases && MatchesIgnoringCase(t, p)
  {
    PhrasesLowerCase();
    forall p | p in AvailablePhrases + SoldoutPhrases
      ensures Contains(Lower(t), p) <==> MatchesIgnoringCase(t, p)
    {
      LowerMatches(t, p);
    }
  }

  predicate AvailableSignal(t: string) {
    MatchesAny(t, AvailablePhrases)
  }

  predicate SoldoutSignal(t: string) {
    MatchesAny(t, SoldoutPhrases)
  }

  /** The fallback: a currency marker, an optional whitespace character and two digits. */
  predicate HasPrice(t: string) {
    FirstToken(t, false).Some?
  }

  /** The ordered decision rule, stated per outcome on the collapsed text: a sold-out
      signal rules out "available"; "soldout" needs a sold-out signal and no available
      signal; both signals together, or no signal and no price, give "unknown". */
  function Classify(text: string): (s: Status)
    ensures var t := Normalize(text);
      && (s == Available <==> !SoldoutSignal(t) && (AvailableSignal(t) || HasPrice(t)))
      && (s == Soldout <==> SoldoutSignal(t) && !AvailableSignal(t))
      && (s == Unknown <==> (AvailableSignal(t) && SoldoutSignal(t))
                            || (!AvailableSignal(t) && !SoldoutSignal(t) && !HasPrice(t)))
  {
    var t := Normalize(text);
    var available := AvailableSignal(t);
    var soldout := SoldoutSignal(t);
    if available && !soldout then Available
    else if soldout && !available then Soldout
    else if HasPrice(t) && !soldout then Available
    else Unknown
  }

  /** The label depends on the text only through its collapsed form: re-collapsing an
      already collapsed text changes nothing. */
  lemma ClassifyIgnoresLayout(text: string)
    ensures Classify(Normalize(text)) == Classify(text)
  {
    NormalizeIdempotent(text);
  }

  /** The empty page is "unknown". */
  lemma ClassifyEmpty()
    ensures Classify("") == Unknown
  {
    assert Words("") == [];
    assert Lower("") == "";
    assert TokenEnd("", 0, false).None?;
    forall p | p in AvailablePhrases + SoldoutPhrases ensures !Contains("", p) {
      if Contains("", p) {
        ContainsFirstChar("", p);
      }
    }
  }

  /** The sold-out phrase "No rooms available" also matches the available pattern
      "Available", so a page whose only sold-out wording is that phrase is never
      classified "soldout", whatever the comment "soldout beats available" suggests. */
  lemma NoRoomsAvailableNeverSoldout(text: string)
    requires Contains(Lower(Normalize(text)), "no rooms available")
    ensures Classify(text) != Soldout
    ensures Classify(text) == Unknown
  {
    var t := Normalize(text);
    assert OccursAt("no rooms available", "available", 9);
    ContainsTransitive(Lower(t), "no rooms available", "available");
    assert "available" in AvailablePhrases;
    assert "no rooms available" in SoldoutPhrases;
  }
}
