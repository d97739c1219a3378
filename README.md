# Hotel room availability monitor, modelled in Dafny

The monitor watches a list of hotel booking pages (Agoda, Booking.com, hotel sites). On each
run it renders every configured page and reads the body text. It classifies the text as
"available", "soldout" or "unknown" and builds a short evidence string: the first price-like
token and a provider tag. It compares the new status with the one saved by the previous run
and sends a notification when the status has changed to "available" or "soldout". Finally it
saves the new status map.

This project models the decision logic of `monitor.py`:

- `Text`: the Python string operations the monitor relies on.
  - The whitespace class shared by `str.split()`, `str.strip()` and `\s`.
  - `" ".join(text.split())`, and stripping.
  - Substring search, and ASCII case folding.
- `Prices`: the price patterns as an explicit scanner. The classifier uses the digits-only
  form; the evidence builder uses the form that admits commas. Matching is leftmost and greedy.
- `Classifier`: `classify_content` with its two phrase tables.
- `Evidence`: what `check_with_playwright` returns once the renderer has produced text, timed
  out or failed. The renderer's outcome is an input (`Page`).
- `Monitor`: the per-site loop of `main`. It covers:
  - the stored-status lookup and the notification gate;
  - the staged state map that is saved whole;
  - the text of the notification.

  Each site comes paired with the renderer's outcome for this run. The run returns the
  notifications it hands to delivery, in order.

The classifier's regular expressions are matched against text whose whitespace has been
collapsed. A pattern `A\s*B` is therefore written as the two literals "AB" and "A B".
This is exact because a collapsed text holds no whitespace other than single plain spaces, and
never at either end (`Text.NormalizeCollapsed`).

The comment on `classify_content` says a sold-out signal beats an available one. The code
does something else: when both kinds of phrase appear, the page is "unknown", and the price
fallback is blocked. The model follows the code (`Classifier.Classify`).

## Model

| member | source | states |
|---|---|---|
| Text.Lower | monitor.py:70-71 | case folding for `re.I`: the result equals the text up to ASCII case and holds no capital letter, which determines it |
| Text.LowerMatches | monitor.py:70-71 | searching a literal without capitals in the lower-cased text succeeds exactly when some window of the text equals the literal up to ASCII case: case-insensitive search |
| Text.Contains | monitor.py:134-137 | definition: Python's `p in s` for strings, some index where `p` occurs; used for the URL and "Agoda" tests and, with `Text.LowerMatches`, for the phrase search |
| Text.Strip | monitor.py:136-140 | `str.strip()`: the result is a substring of the input, has no whitespace at either end, and only whitespace was removed around it |
| Text.StripBare | monitor.py:140 | stripping a string without whitespace at its ends returns it unchanged |
| Text.StripPadded | monitor.py:136 | `(e + " ").strip()` gives back `e` when `e` has no whitespace at its ends |
| Text.Words | monitor.py:69 | definition: `str.split()`, the maximal runs of non-whitespace in order; stated by `Text.WordsAreWords` and `Text.WordsOfJoin` |
| Text.JoinWords | monitor.py:69 | definition: `" ".join`; stated by `Text.WordsOfJoin` |
| Text.Normalize | monitor.py:69 | definition: `" ".join(text.split())`; stated by `Text.NormalizeCollapsed`, `Text.NormalizeIdempotent` and `Text.NormalizeKeepsVisible` |
| Text.WordsAreWords | monitor.py:69 | `text.split()` yields only non-empty words free of whitespace |
| Text.WordsOfJoin | monitor.py:69 | splitting a space-joined list of words gives the words back (round trip) |
| Text.NormalizeCollapsed | monitor.py:69 | the collapsed text has no whitespace at its ends, no whitespace except plain spaces, and no two spaces in a row |
| Text.NormalizeIdempotent | monitor.py:69 | collapsing twice is collapsing once |
| Text.NormalizeKeepsVisible | monitor.py:69 | collapsing keeps every non-whitespace character, in order |
| Prices.MarkerAt | monitor.py:77 | the currency alternation: a marker is found exactly when the text starts with one of the markers |
| Prices.RunLength | monitor.py:77 | the greedy amount: every character counted is an amount character and the next one, if any, is not |
| Prices.TokenEndSound | monitor.py:77 | the match anchored at a position is a marker, at most one whitespace character and an amount, and no further amount character follows it |
| Prices.TokenEndComplete | monitor.py:77 | the anchored match exists whenever a token starts at that position, and it reaches at least as far (greedy) |
| Prices.FirstMatch | monitor.py:77 | `re.search`: the match found is the one at the leftmost position that has a match, and none means no position has one |
| Prices.FirstToken | monitor.py:129 | definition: `m.group(0)` of the search (and, for the digits-only pattern, the price test of line 77); stated by `Prices.FirstMatch` and `Prices.FirstTokenOccurs` |
| Prices.FirstTokenOccurs | monitor.py:129 | the matched token is a token and occurs in the text |
| Prices.TokenShape | monitor.py:129 | a token has at least three characters, no whitespace at its ends, and only marker, whitespace and amount characters |
| Prices.DigitsTokenWidens | monitor.py:77 | wherever the digits-only pattern matches, the pattern admitting commas also matches |
| Classifier.PhrasesLowerCase | monitor.py:30-38 | every literal of both phrase tables (`AvailablePhrases`, `SoldoutPhrases`, the literal expansions of the two pattern lists) is free of capitals |
| Classifier.SignalsIgnoreCase | monitor.py:30-38 | an available (sold-out) signal is present exactly when some literal of that table matches a window of the text up to ASCII case, as `re.search` with `re.I` finds it |
| Classifier.Classify | monitor.py:67-80 | "available" iff no sold-out signal and (an available signal or a price); "soldout" iff a sold-out signal and no available signal; "unknown" iff both signals, or neither and no price |
| Classifier.ClassifyIgnoresLayout | monitor.py:69 | the label depends on the text only through its collapsed form |
| Classifier.ClassifyEmpty | monitor.py:67-80 | an empty page is "unknown" |
| Classifier.NoRoomsAvailableNeverSoldout | monitor.py:33-37 | a page whose text contains "No rooms available" (any case) is never "soldout"; it is "unknown" |
| Evidence.PriceHint | monitor.py:129-131 | definition: `price_hint=` and the first match of the comma pattern in the raw text, or nothing; its shape is stated by `Evidence.HintShape` |
| Evidence.SourceTags | monitor.py:134-138 | definition: "[Agoda]" then "[Booking]", each when its domain occurs in the URL; `Evidence.AddProviderTags` proves the source's steps produce it |
| Evidence.EvidenceOf | monitor.py:126-140 | definition: the price hint followed by the tags; its properties are stated by `Evidence.EvidenceCases` and `Evidence.EvidenceBare` |
| Evidence.EvidenceCases | monitor.py:126-140 | the evidence is empty iff there is no price and no known provider in the URL; it starts with "price_hint=" iff the raw text holds a price |
| Evidence.HintShape | monitor.py:129-135 | the price hint has no whitespace at its ends and never contains "Agoda" |
| Evidence.EvidenceBare | monitor.py:126-140 | the evidence string has no whitespace at its ends |
| Evidence.BuildEvidence | monitor.py:126-140 | the step-by-step builder returns the hint followed by the tags; every strip is a no-op and the "Agoda" guard always holds |
| Evidence.AddProviderTags | monitor.py:134-138 | on a bare evidence string without "Agoda", the tags the URL calls for are appended directly, Agoda's before Booking's, and the result stays bare |
| Evidence.AppendTag | monitor.py:136-138 | appending a tag after `(e + " ").strip()` is plain concatenation when `e` has no whitespace at its ends, and keeps that property |
| Evidence.StripAll | monitor.py:140 | the final strip leaves no whitespace at either end, and changes nothing when there was none |
| Evidence.Observe | monitor.py:113-140 | definition: a rendered page is classified and given evidence, a timeout is "unknown" with "timeout", another failure "unknown" with "error: " and the message; stated by `Evidence.ObserveSpec` and `Evidence.Inspect` |
| Evidence.ObserveSpec | monitor.py:113-118 | a timeout or other failure reports "unknown"; a rendered page's evidence has no whitespace at its ends |
| Evidence.Inspect | monitor.py:113-140 | one site check returns exactly the specified observation |
| Evidence.HintCoversPrice | monitor.py:129 | a digits-only price (the pattern of line 77) in the raw text always yields a price hint, because the comma pattern matches wherever the digits-only one does |
| Evidence.SpacedPriceIsAvailable | monitor.py:69-79 | "$  150" (two spaces) is "available", because its collapsed form "$ 150" matches the fallback, yet its evidence is empty, because the raw text read at line 129 has no match |
| Evidence.CommaPriceIsUnknown | monitor.py:77 | the text "$1,500" is "unknown", yet its evidence is "price_hint=$1,500": the two patterns disagree on comma-grouped prices |
| Monitor.LoadState | monitor.py:40-47 | definition: the stored map, or the empty map when the file is missing or unreadable; see `Monitor.FreshStateNotifiesConclusive` |
| Monitor.FreshStateNotifiesConclusive | monitor.py:40-47 | without a readable state file every checked site that reads "available" or "soldout" is notified, with "unknown" as the previous status |
| Monitor.Prev | monitor.py:170 | definition: `state.get(url, "unknown")`; stated by `Monitor.GateOnStatuses` |
| Monitor.ShouldNotify | monitor.py:174 | definition: the status changed and is "available" or "soldout"; stated by `Monitor.GateOnStatuses` |
| Monitor.GateOnStatuses | monitor.py:170-174 | a notification goes out iff the status changed and the new one is not "unknown"; for any URL absent from the loaded map the gate opens iff the new status is not "unknown" |
| Monitor.Message | monitor.py:175 | the message starts with the hotel emoji and the name in bold, shows "<b>prev ➜ status</b>", and ends with the evidence line, a blank line and the URL |
| Monitor.MessageShowsChange | monitor.py:174-175 | the message of a notification shows the stored status and the new one, which differ, the new one being "available" or "soldout" |
| Monitor.Staged | monitor.py:160-171 | definition: the loaded map with each checked site's status written over it in order; stated by `Monitor.StagedFrame`, `Monitor.StagedLastWins` and `Monitor.StagedFromReading` |
| Monitor.Alerts | monitor.py:170-176 | definition: the notifications of the readings in order, each gated against the loaded map; stated by `Monitor.AlertsExactly` and `Monitor.AlertsAreChanges` |
| Monitor.RunPass | monitor.py:159-177 | the loop produces exactly the staged map and the notification list of the specification functions |
| Monitor.CheckSite | monitor.py:161-176 | one iteration: the staged map and the notification list change exactly as the specification of a single reading says; a site without a URL changes neither |
| Monitor.RunMonitor | monitor.py:151-160 | an unreadable site list stops the run with nothing saved or sent; otherwise the staged map is saved, with the loaded keys plus the checked URLs |
| Monitor.StagedFrame | monitor.py:160-171 | the saved keys are the loaded keys plus the checked URLs; an entry not checked in this run keeps its value |
| Monitor.StagedLastWins | monitor.py:171 | a URL ends with the status of the last site entry that has it |
| Monitor.StagedFromReading | monitor.py:171 | every checked URL is saved with the status of some site entry that has it |
| Monitor.AlertsExactly | monitor.py:170-176 | a notification is sent iff some checked entry passes the gate against the state loaded at the start of the run |
| Monitor.AlertsAreChanges | monitor.py:170-174 | every notification is a change to "available" or "soldout" from the stored status, for a URL checked in this run |
| Monitor.NoNotifierNoAlerts | monitor.py:174-176 | when no entry passes the gate, nothing is sent |
| Monitor.RerunIsQuiet | monitor.py:159-178 | a second run on the saved state, with the same readings, sends nothing, provided each repeated URL reads the same each time |
| Monitor.ConflictingDuplicatesNotifyAgain | monitor.py:170-171 | two entries for one URL that read differently, the first of them "available" or "soldout", make the rerun notify again |
| Monitor.DuplicatesCompareWithSnapshot | monitor.py:170 | two entries for one URL that each pass the gate against the loaded state are both notified, in order, though the first has already restaged the URL (from an empty map, "available" then "soldout" notifies twice) |

## Left out

- Rendering (monitor.py:87-123) is not modelled. The browser, navigation, waits, scrolling and banner clicks appear only through their outcome: page text, a timeout, or another failure with its message.
- A failure to launch the browser or open a context (monitor.py:88-98) is not modelled. It happens outside the `try` and ends the whole run without saving.
- Telegram delivery (monitor.py:53-65) is not modelled. The run returns the notifications in order and `Monitor.Message` gives their text. Two consequences are not captured:
  - when delivery is not configured, the notification is dropped but the state is still saved;
  - a network error from `requests.post` happens outside its `try` and ends the run before the state is saved.
- Configuration from the environment and `.env` (monitor.py:24-29, 152) is not modelled, nor are the log lines and the timestamp `now_iso` (monitor.py:148-149, 167, 172).
- JSON reading and writing is not modelled. `Monitor.StateFile` and `Monitor.SitesFile` stand for what `load_state` and `load_sites` produce:
  - a missing or unparseable state file loads as the empty map;
  - a site list that cannot be read, or is not an array, ends the run.
- The shape of JSON values is not modelled: a state file holding something other than a map of strings, a site entry that is not an object, and a non-string "url" or "name" are all outside the model. A site is a pair of optional strings.
- Classifier.Classify: matching is ASCII-case-insensitive only. Python's `re.I` also folds a few non-ASCII letters onto ASCII ones (U+017F LONG S onto "s", U+212A KELVIN SIGN onto "k"). A page spelling "sold out" with those letters is not matched by the model.
- Prices.RunLength: `\d` is the ASCII digits only. Python's `\d` on `str` also matches other Unicode decimal digits (Arabic-Indic, full-width and others).
- check_hotel.py is not part of this model.
