/** One run of the monitor (`main`): for every configured site with a URL, check the page,
    compare the new status with the one stored at the start of the run, notify on a change
    to "available" or "soldout", and stage the new status; then save the staged map whole.

    The renderer is outside the model: each configured site comes paired with the `Page`
    the renderer returns for it in this run. Delivery is outside too: the run returns the
    notifications it hands over, in order, and `Message` is the text each one carries. */
module Monitor {
  import opened Options
  import opened Text
  import opened Classifier
  import opened Evidence

  /** An entry of the site list: its "url" and "name" keys, either of which may be absent. */
  datatype Site = Site(url: Option<string>, name: Option<string>)

  /** A configured site and what the renderer returns for it during this run. */
  datatype Visit = Visit(site: Site, page: Page)

  /** A notification: site name, stored status, new status, evidence, URL. */
  datatype Alert = Alert(name: string, prev: string, status: Status, evidence: string, url: string)

  /** The site list as loaded, or the failure that stops the run before any site. */
  datatype SitesFile = SiteList(visits: seq<Visit>) | Unreadable(reason: string)

  /** The state file as found at start-up. */
  datatype StateFile = Stored(entries: map<string, string>) | Missing | Corrupt

  // ---------------------------------------------------------------------------
  // One site

  /** What the check of one configured site yields: the site entry with the status and
      evidence reported for its page. */
  datatype Reading = Reading(site: Site, status: Status, evidence: string)

  /** Check one site. A site without a URL is never checked; its reading is ignored. */
  function ReadingOf(v: Visit): Reading {
    var o := Observe(v.site.url.GetOr(""), v.page);
    Reading(v.site, o.status, o.evidence)
  }

  function Readings(vs: seq<Visit>): seq<Reading> {
    seq(|vs|, i requires 0 <= i < |vs| => ReadingOf(vs[i]))
  }

  /** `if not url: continue` skips a site whose URL is absent or empty. */
  predicate Checked(r: Reading) {
    r.site.url.Some? && r.site.url.value != ""
  }

  function UrlOf(r: Reading): string
    requires Checked(r)
  {
    r.site.url.value
  }

  /** `site.get("name", url)`. */
  function NameOf(r: Reading): string
    requires Checked(r)
  {
    r.site.name.GetOr(UrlOf(r))
  }

  /** `state.get(key, "unknown")`: the stored status, "unknown" for a URL never stored. */
  function Prev(state: map<string, string>, url: string): string {
    if url in state then state[url] else "unknown"
  }

  /** The gate: notify when the status differs from the stored one and is "available" or
      "soldout". */
  predicate ShouldNotify(prev: string, status: Status) {
    status.Label() != prev && (status == Available || status == Soldout)
  }

  /** The gate on the three statuses: a change notifies unless it goes to "unknown", and
      staying put never notifies. A URL never stored counts as "unknown", so its first
      confident reading notifies. */
  lemma GateOnStatuses(state: map<string, string>, url: string, prev: Status, status: Status)
    ensures ShouldNotify(prev.Label(), status) <==> prev != status && status != Unknown
    ensures !ShouldNotify(prev.Label(), Unknown)
    ensures url !in state ==> (ShouldNotify(Prev(state, url), status) <==> status != Unknown)
  {
  }

  /** The reading notifies against the stored map. */
  predicate Notifies(state: map<string, string>, r: Reading) {
    Checked(r) && ShouldNotify(Prev(state, UrlOf(r)), r.status)
  }

  function AlertOf(state: map<string, string>, r: Reading): Alert
    requires Checked(r)
  {
    Alert(NameOf(r), Prev(state, UrlOf(r)), r.status, r.evidence, UrlOf(r))
  }

  /** The text sent for a notification: the name in bold, "상태 변화" (status change)
      with the stored and new status in bold, the evidence, then the URL. */
  function Message(a: Alert): (m: string)
    ensures StartsWith(m, "\U{1F3E8} <b>" + a.name + "</b>\n")
    ensures Contains(m, "<b>" + a.prev + " \U{279C} " + a.status.Label() + "</b>")
    ensures EndsWith(m, "\n" + a.evidence + "\n\n" + a.url)
  {
    var head := "\U{1F3E8} <b>" + a.name + "</b>\n" + "상태 변화: ";
    var change := "<b>" + a.prev + " \U{279C} " + a.status.Label() + "</b>";
    var tail := "\n" + a.evidence + "\n\n" + a.url;
    var m := head + change + tail;
    assert m[..|head|] == head;
    assert m[|head|..|head| + |change|] == change;
    assert OccursAt(m, change, |head|);
    assert m[|m| - |tail|..] == tail;
    m
  }

  /** The message of a notification shows a real change: the stored status and the new
      one differ, and the new one is "available" or "soldout". */
  lemma MessageShowsChange(state: map<string, string>, r: Reading)
    requires Notifies(state, r)
    ensures var a := AlertOf(state, r);
      && Contains(Message(a), "<b>" + Prev(state, UrlOf(r)) + " \U{279C} " + a.status.Label() + "</b>")
      && a.prev != a.status.Label() && a.status.Label() in {"available", "soldout"}
  {
  }

  // ---------------------------------------------------------------------------
  // The pass over all sites, as functions of the start-of-run state

  /** `new_state[key] = status` for a checked site; a skipped site changes nothing. */
  function Stage(staged: map<string, string>, r: Reading): map<string, string> {
    if Checked(r) then staged[UrlOf(r) := r.status.Label()] else staged
  }

  /** The map to be saved after the readings `rs`: the start-of-run map with every
      checked site's new status written over it, in order. */
  function Staged(state: map<string, string>, rs: seq<Reading>): map<string, string> {
    if rs == [] then state else Stage(Staged(state, rs[..|rs| - 1]), rs[|rs| - 1])
  }

  function AlertsFor(state: map<string, string>, r: Reading): seq<Alert> {
    if Notifies(state, r) then [AlertOf(state, r)] else []
  }

  /** The notifications sent while processing `rs`, each against the start-of-run map. */
  function Alerts(state: map<string, string>, rs: seq<Reading>): seq<Alert> {
    if rs == [] then [] else Alerts(state, rs[..|rs| - 1]) + AlertsFor(state, rs[|rs| - 1])
  }

  /** The URLs of the checked sites of `rs`. */
  function Visited(rs: seq<Reading>): set<string> {
    set r | r in rs && Checked(r) :: UrlOf(r)
  }

  // ---------------------------------------------------------------------------
  // The loop of `main`

  /** The per-site loop: `new_state` starts as a copy of the loaded map, every checked
      site's status overwrites its entry, and a notification goes out when the gate
      opens against the loaded map. */
  method RunPass(state: map<string, string>, visits: seq<Visit>)
    returns (newState: map<string, string>, sent: seq<Alert>)
    ensures newState == Staged(state, Readings(visits))
    ensures sent == Alerts(state, Readings(visits))
  {
    ghost var rs := Readings(visits);
    newState := state;
    sent := [];
    var i := 0;
    while i < |visits|
      invariant 0 <= i <= |visits|
      invariant newState == Staged(state, rs[..i])
      invariant sent == Alerts(state, rs[..i])
    {
      assert rs[..i + 1][..i] == rs[..i];
      newState, sent := CheckSite(state, newState, sent, visits[i]);
      i := i + 1;
    }
    assert rs[..i] == rs;
  }

  /** One iteration of the loop: skip a site without a URL; otherwise check it, stage
      its status and notify when the gate opens against the loaded map. */
  method CheckSite(state: map<string, string>, staged: map<string, string>, sent: seq<Alert>, v: Visit)
    returns (staged': map<string, string>, sent': seq<Alert>)
    ensures staged' == Stage(staged, ReadingOf(v))
    ensures sent' == sent + AlertsFor(state, ReadingOf(v))
  {
    staged', sent' := staged, sent;
    var url := v.site.url;
    if url.Some? && url.value != "" {
      var name := v.site.name.GetOr(url.value);
      var status, evidence := Inspect(url.value, v.page);
      ghost var r := ReadingOf(v);
      assert r == Reading(v.site, status, evidence);
      var prev := if url.value in state then state[url.value] else "unknown";
      staged' := staged[url.value := status.Label()];
      if status.Label() != prev && (status == Available || status == Soldout) {
        sent' := sent + [Alert(name, prev, status, evidence, url.value)];
      }
    }
  }

  /** `load_state`: the stored map, or an empty one when the file is missing or unreadable. */
  function LoadState(f: StateFile): map<string, string> {
    match f
    case Stored(entries) => entries
    case Missing => map[]
    case Corrupt => map[]
  }

  /** `main`: a site list that cannot be loaded ends the run before anything else, and the
      state file is left as it was; otherwise the pass runs against the loaded state and
      the staged map is saved whole, keeping every key the state had. */
  method RunMonitor(sites: SitesFile, stored: StateFile)
    returns (saved: Option<map<string, string>>, sent: seq<Alert>)
    ensures sites.Unreadable? ==> saved == None && sent == []
    ensures sites.SiteList? ==>
      && saved == Some(Staged(LoadState(stored), Readings(sites.visits)))
      && sent == Alerts(LoadState(stored), Readings(sites.visits))
      && saved.value.Keys == LoadState(stored).Keys + Visited(Readings(sites.visits))
  {
    if sites.Unreadable? {
      return None, [];
    }
    var state := LoadState(stored);
    var newState;
    newState, sent := RunPass(state, sites.visits);
    StagedFrame(state, Readings(sites.visits));
    saved := Some(newState);
  }

  // ---------------------------------------------------------------------------
  // What a pass does to the state

  /** The update only adds or overwrites: the saved keys are the loaded keys plus the
      checked URLs, and an entry for a URL not checked in this run keeps its value. */
  lemma {:induction false} StagedFrame(state: map<string, string>, rs: seq<Reading>)
    ensures Staged(state, rs).Keys == state.Keys + Visited(rs)
    ensures forall k :: k in state && k !in Visited(rs) ==> Staged(state, rs)[k] == state[k]
  {
    if rs != [] {
      var init, last := rs[..|rs| - 1], rs[|rs| - 1];
      StagedFrame(state, init);
      assert rs == init + [last];
      assert Visited(rs) == Visited(init) + (if Checked(last) then {UrlOf(last)} else {});
    }
  }

  /** A checked URL ends up with the status of the last reading in the list that has it. */
  lemma {:induction false} StagedLastWins(state: map<string, string>, rs: seq<Reading>, i: nat)
    requires i < |rs| && Checked(rs[i])
    requires forall j :: i < j < |rs| && Checked(rs[j]) ==> UrlOf(rs[j]) != UrlOf(rs[i])
    ensures UrlOf(rs[i]) in Staged(state, rs)
    ensures Staged(state, rs)[UrlOf(rs[i])] == rs[i].status.Label()
  {
    var init := rs[..|rs| - 1];
    if i < |rs| - 1 {
      assert init[i] == rs[i];
      StagedLastWins(state, init, i);
    }
  }

  /** Every checked URL ends up with the status of some reading in the list that has it. */
  lemma {:induction false} StagedFromReading(state: map<string, string>, rs: seq<Reading>, k: string)
    requires k in Visited(rs)
    ensures k in Staged(state, rs)
    ensures exists i :: 0 <= i < |rs| && Checked(rs[i]) && UrlOf(rs[i]) == k
                        && Staged(state, rs)[k] == rs[i].status.Label()
  {
    var last := rs[|rs| - 1];
    if Checked(last) && UrlOf(last) == k {
      assert Staged(state, rs)[k] == rs[|rs| - 1].status.Label();
    } else {
      var init := rs[..|rs| - 1];
      assert rs == init + [last];
      assert k in Visited(init);
      StagedFromReading(state, init, k);
      var i :| 0 <= i < |init| && Checked(init[i]) && UrlOf(init[i]) == k
        && Staged(state, init)[k] == init[i].status.Label();
      assert rs[i] == init[i];
    }
  }

  // ---------------------------------------------------------------------------
  // What a pass notifies

  /** A notification goes out for exactly the checked readings whose status passes the
      gate against the start-of-run map, even when an earlier site of the same run has
      already restaged that URL. */
  lemma AlertsExactly(state: map<string, string>, rs: seq<Reading>, a: Alert)
    ensures a in Alerts(state, rs) <==>
      exists i :: 0 <= i < |rs| && Notifies(state, rs[i]) && a == AlertOf(state, rs[i])
  {
    if a in Alerts(state, rs) {
      AlertHasSource(state, rs, a);
    }
    if exists i :: 0 <= i < |rs| && Notifies(state, rs[i]) && a == AlertOf(state, rs[i]) {
      var i :| 0 <= i < |rs| && Notifies(state, rs[i]) && a == AlertOf(state, rs[i]);
      SourceIsAlerted(state, rs, i);
    }
  }

  /** Each notification comes from a reading that passes the gate. */
  lemma {:induction false} AlertHasSource(state: map<string, string>, rs: seq<Reading>, a: Alert)
    requires a in Alerts(state, rs)
    ensures exists i :: 0 <= i < |rs| && Notifies(state, rs[i]) && a == AlertOf(state, rs[i])
  {
    var init, last := rs[..|rs| - 1], rs[|rs| - 1];
    if a in Alerts(state, init) {
      AlertHasSource(state, init, a);
      var i :| 0 <= i < |init| && Notifies(state, init[i]) && a == AlertOf(state, init[i]);
      assert rs[i] == init[i];
    } else {
      assert a in AlertsFor(state, last);
      assert Notifies(state, rs[|rs| - 1]);
    }
  }

  /** Each reading that passes the gate is notified. */
  lemma {:induction false} SourceIsAlerted(state: map<string, string>, rs: seq<Reading>, i: nat)
    requires i < |rs| && Notifies(state, rs[i])
    ensures AlertOf(state, rs[i]) in Alerts(state, rs)
  {
    var init, last := rs[..|rs| - 1], rs[|rs| - 1];
    if i < |init| {
      assert init[i] == rs[i];
      SourceIsAlerted(state, init, i);
    } else {
      assert AlertsFor(state, last) == [AlertOf(state, rs[i])];
    }
  }

  /** Without a readable state file every URL starts out "unknown", so every checked
      site that reads "available" or "soldout" is notified. */
  lemma FreshStateNotifiesConclusive(f: StateFile, rs: seq<Reading>, i: nat)
    requires !f.Stored? && i < |rs| && Checked(rs[i]) && rs[i].status != Unknown
    ensures AlertOf(LoadState(f), rs[i]) in Alerts(LoadState(f), rs)
    ensures AlertOf(LoadState(f), rs[i]).prev == "unknown"
  {
    assert LoadState(f) == map[];
    assert Notifies(LoadState(f), rs[i]);
    SourceIsAlerted(LoadState(f), rs, i);
  }

  /** Every notification is a change to "available" or "soldout" from the stored status,
      for a URL checked in this run: an inconclusive reading, a failed render included,
      never notifies. */
  lemma AlertsAreChanges(state: map<string, string>, rs: seq<Reading>, a: Alert)
    requires a in Alerts(state, rs)
    ensures a.status != Unknown && a.status.Label() != a.prev
    ensures a.prev == Prev(state, a.url) && a.url in Visited(rs)
  {
    AlertsExactly(state, rs, a);
    var i :| 0 <= i < |rs| && Notifies(state, rs[i]) && a == AlertOf(state, rs[i]);
    assert rs[i] in rs;
  }

  /** No reading notifies: nothing is sent. */
  lemma NoNotifierNoAlerts(state: map<string, string>, rs: seq<Reading>)
    requires forall i :: 0 <= i < |rs| ==> !Notifies(state, rs[i])
    ensures Alerts(state, rs) == []
  {
    if Alerts(state, rs) != [] {
      AlertsExactly(state, rs, Alerts(state, rs)[0]);
    }
  }

  /** Every URL listed more than once gets the same status each time. */
  predicate Consistent(rs: seq<Reading>) {
    forall i, j ::
      (0 <= i < |rs| && 0 <= j < |rs| && Checked(rs[i]) && Checked(rs[j])
       && UrlOf(rs[i]) == UrlOf(rs[j])) ==> rs[i].status == rs[j].status
  }

  /** Running the same pass again on the state it saved notifies nobody, provided the
      readings are consistent. */
  lemma RerunIsQuiet(state: map<string, string>, rs: seq<Reading>)
    requires Consistent(rs)
    ensures Alerts(Staged(state, rs), rs) == []
  {
    var saved := Staged(state, rs);
    forall i | 0 <= i < |rs| ensures !Notifies(saved, rs[i]) {
      if Checked(rs[i]) {
        assert rs[i] in rs;
        StagedFromReading(state, rs, UrlOf(rs[i]));
      }
    }
    NoNotifierNoAlerts(saved, rs);
  }

  /** Without that proviso the rerun can notify: two entries for one URL with different
      statuses leave the second one stored, and the first one then differs from it. */
  lemma ConflictingDuplicatesNotifyAgain(state: map<string, string>, r: Reading, q: Reading)
    requires Checked(r) && Checked(q) && UrlOf(r) == UrlOf(q)
    requires r.status != q.status && r.status != Unknown
    ensures Alerts(Staged(state, [r, q]), [r, q]) != []
  {
    var saved := Staged(state, [r, q]);
    StagedLastWins(state, [r, q], 1);
    assert Prev(saved, UrlOf(r)) == q.status.Label();
    AlertsExactly(saved, [r, q], AlertOf(saved, r));
    assert [r, q][0] == r;
  }

  /** Two entries for one URL are both compared with the stored status, not with each
      other: when each passes the gate against the loaded map, both are notified, in order,
      even though the first has already restaged the URL. From an empty map, "available"
      followed by "soldout" for one URL sends two notifications. */
  lemma DuplicatesCompareWithSnapshot(state: map<string, string>, r: Reading, q: Reading)
    requires Checked(r) && Checked(q) && UrlOf(r) == UrlOf(q)
    requires Notifies(state, r) && Notifies(state, q)
    ensures Alerts(state, [r, q]) == [AlertOf(state, r), AlertOf(state, q)]
  {
    assert [r, q][..1] == [r];
    assert [r][..0] == [];
    assert Alerts(state, [r]) == [AlertOf(state, r)];
  }
}
