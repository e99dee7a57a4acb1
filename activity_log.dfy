/** Values and pure rules of the activity extension's background script
    (Activity-Browser-Extension/background.js): sessions, the URL filter, the
    activity-record merge rule, the folding of domain totals into daily and
    weekly buckets, and the session maps built by restore, start and tick.
    The class that owns the mutable state is in module ActivityTracker. */
module ActivityLog {
  import opened Wrappers
  import opened Text

  /** Chrome tab ids are positive. */
  type TabId = t: int | t > 0 witness 1

  /** Key of `domainTotals`: sessions made by createNewSession carry no domain,
      so JavaScript's Map receives the key `undefined` (None here). */
  type DomainKey = Option<string>

  const SAVE_INTERVAL := 60000
  const AGGREGATE_INTERVAL := 300000
  /** Largest gap between two visits of one URL that still merges them. */
  const MERGE_GAP := 300000

  /** What chrome.tabs reports about a tab; `url` is undefined for some tabs. */
  datatype Tab = Tab(id: TabId, url: Option<string>, title: string)

  datatype Session = Session(
    url: string,
    title: string,
    domain: DomainKey,
    startTime: int,
    lastUpdate: int,
    totalTime: int,
    isActive: bool)

  /** An entry of the persisted `activity` log; `start` and `end` are kept as
      timestamps and the formatted duration is left out. */
  datatype Record = Record(url: string, title: string, start: int, end: int, totalTime: int)

  /** isValidUrl, as defined last in the script (hoisting makes it the one used). */
  predicate IsValidUrl(url: Option<string>) {
    url.Some? && url.value != ""
    && !StartsWith(url.value, "chrome://")
    && !StartsWith(url.value, "chrome-extension://")
    && !StartsWith(url.value, "moz-extension://")
  }

  /** The first definition of isValidUrl, which the later one shadows. */
  predicate IsValidUrlFirstDefinition(url: Option<string>) {
    url.Some? && url.value != ""
    && !StartsWith(url.value, "chrome://")
    && !StartsWith(url.value, "chrome-extension://")
  }

  /** createNewSession: never sets `domain`, starts inactive with no time. */
  function CreateNewSession(tab: Tab, now: int): Session
    requires IsValidUrl(tab.url)
  {
    Session(tab.url.value, tab.title, None, now, now, 0, false)
  }

  function Get(m: map<DomainKey, int>, d: DomainKey): int {
    if d in m then m[d] else 0
  }

  // ---------------------------------------------------------------------------
  // The URL filter

  /** Empty, missing and browser-internal URLs are refused. */
  lemma {:induction false} InternalUrlsRejected(url: Option<string>)
    requires url.None? || url == Some("")
      || (url.Some? && (StartsWith(url.value, "chrome://")
                        || StartsWith(url.value, "chrome-extension://")
                        || StartsWith(url.value, "moz-extension://")))
    ensures !IsValidUrl(url)
  {
  }

  /** Every other URL is accepted: together with InternalUrlsRejected this is
      the whole of isValidUrl. */
  lemma OtherUrlsAccepted(url: Option<string>)
    requires url.Some? && url.value != ""
    requires !StartsWith(url.value, "chrome://") && !StartsWith(url.value, "chrome-extension://")
    requires !StartsWith(url.value, "moz-extension://")
    ensures IsValidUrl(url)
  {
  }

  /** In particular every http and https URL is accepted. */
  lemma {:induction false} HttpUrlsAccepted(u: string)
    requires StartsWith(u, "http://") || StartsWith(u, "https://")
    ensures IsValidUrl(Some(u))
  {
    assert u[0] == 'h' by {
      if StartsWith(u, "http://") { assert u[0] == "http://"[0]; } else { assert u[0] == "https://"[0]; }
    }
    assert !StartsWith(u, "chrome://") by { assert "chrome://"[0] == 'c'; }
    assert !StartsWith(u, "chrome-extension://") by { assert "chrome-extension://"[0] == 'c'; }
    assert !StartsWith(u, "moz-extension://") by { assert "moz-extension://"[0] == 'm'; }
  }

  /** `about:blank` is accepted: no prefix rules it out. */
  lemma AboutBlankAccepted()
    ensures IsValidUrl(Some("about:blank"))
  {
    assert !StartsWith("about:blank", "chrome://") by { assert "about:blank"[0] != "chrome://"[0]; }
    assert !StartsWith("about:blank", "chrome-extension://") by { assert "about:blank"[0] != "chrome-extension://"[0]; }
    assert !StartsWith("about:blank", "moz-extension://") by { assert "about:blank"[0] != "moz-extension://"[0]; }
  }

  /** The effective isValidUrl is the earlier, shadowed one with Firefox
      extension pages refused as well. */
  lemma EffectiveDefinitionAddsMozExtension(url: Option<string>)
    ensures IsValidUrl(url) <==>
      IsValidUrlFirstDefinition(url) && !(url.Some? && StartsWith(url.value, "moz-extension://"))
  {
  }

  /** The shadowed first definition let Firefox extension pages through. */
  lemma FirstDefinitionAcceptedMozExtension()
    ensures IsValidUrlFirstDefinition(Some("moz-extension://x"))
    ensures !IsValidUrl(Some("moz-extension://x"))
  {
    assert !StartsWith("moz-extension://x", "chrome://") by { assert "moz-extension://x"[0] != "chrome://"[0]; }
    assert !StartsWith("moz-extension://x", "chrome-extension://")
      by { assert "moz-extension://x"[0] != "chrome-extension://"[0]; }
    assert "moz-extension://x"[..16] == "moz-extension://";
  }

  // ---------------------------------------------------------------------------
  // saveActivityRecord: the merge rule

  /** The last record is the same URL and ended less than five minutes before
      the session started. */
  predicate Merges(log: seq<Record>, s: Session) {
    |log| > 0 && log[|log| - 1].url == s.url && log[|log| - 1].end > s.startTime - MERGE_GAP
  }

  /** The activity log after saveActivityRecord(session, endTime). A merged
      record grows by the wall time since the session started; a new record
      adds the time since the session's last update to its total. */
  function RecordActivity(log: seq<Record>, s: Session, endTime: int): (r: seq<Record>)
    ensures Merges(log, s) ==> |r| == |log|
    ensures !Merges(log, s) ==> |r| == |log| + 1 && r[..|log|] == log
    ensures forall i :: 0 <= i < |log| - 1 ==> r[i] == log[i]
    ensures r[|r| - 1].url == s.url && r[|r| - 1].end == endTime
    ensures Merges(log, s) ==>
      var last := log[|log| - 1];
      r[|r| - 1] == Record(last.url, last.title, last.start, endTime, last.totalTime + (endTime - s.startTime))
    ensures !Merges(log, s) ==>
      r[|r| - 1] == Record(s.url, s.title, s.startTime, endTime, s.totalTime + (endTime - s.lastUpdate))
  {
    if Merges(log, s) then
      var last := log[|log| - 1];
      log[|log| - 1 := last.(end := endTime, totalTime := last.totalTime + (endTime - s.startTime))]
    else
      log + [Record(s.url, s.title, s.startTime, endTime, s.totalTime + (endTime - s.lastUpdate))]
  }

  /** Two visits of one URL less than five minutes apart leave one record,
      whose total is the first visit's total plus the second visit's wall time. */
  lemma CloseVisitsMerge(log: seq<Record>, a: Session, endA: int, b: Session, endB: int)
    requires !Merges(log, a)
    requires b.url == a.url && endA > b.startTime - MERGE_GAP
    ensures var r := RecordActivity(RecordActivity(log, a, endA), b, endB);
      |r| == |log| + 1 && r[..|log|] == log
      && r[|log|].totalTime == a.totalTime + (endA - a.lastUpdate) + (endB - b.startTime)
      && r[|log|].start == a.startTime && r[|log|].end == endB
  {
    var r1 := RecordActivity(log, a, endA);
    assert Merges(r1, b);
    var r := RecordActivity(r1, b, endB);
    assert r[..|log|] == r1[..|log|];
  }

  /** Visits five minutes or more apart leave two records. */
  lemma DistantVisitsSplit(log: seq<Record>, a: Session, endA: int, b: Session, endB: int)
    requires !Merges(log, a)
    requires endA <= b.startTime - MERGE_GAP
    ensures var r := RecordActivity(RecordActivity(log, a, endA), b, endB);
      |r| == |log| + 2 && r[..|log|] == log
      && r[|log|].url == a.url && r[|log| + 1].url == b.url
  {
    var r1 := RecordActivity(log, a, endA);
    var r := RecordActivity(r1, b, endB);
    assert r[..|log|] == r1[..|log|];
  }

  /** The log after saveActivityRecord for the sessions of `order`, in order,
      all with the same end time (stopPeriodicUpdate). */
  function FinalizeAll(log: seq<Record>, sessions: map<TabId, Session>, order: seq<TabId>, endTime: int): seq<Record>
    requires forall i :: 0 <= i < |order| ==> order[i] in sessions
  {
    if |order| == 0 then log
    else
      RecordActivity(FinalizeAll(log, sessions, order[..|order| - 1], endTime),
                     sessions[order[|order| - 1]], endTime)
  }

  /** Finalizing n sessions adds at most n records, changes no record but the
      last one of the old log, and leaves the last session's URL at the end. */
  lemma {:induction false} FinalizeAllShape(log: seq<Record>, sessions: map<TabId, Session>, order: seq<TabId>, endTime: int)
    requires forall i :: 0 <= i < |order| ==> order[i] in sessions
    ensures var r := FinalizeAll(log, sessions, order, endTime);
      |log| <= |r| <= |log| + |order|
      && (forall i :: 0 <= i < |log| - 1 ==> r[i] == log[i])
      && (|order| > 0 ==> r[|r| - 1].url == sessions[order[|order| - 1]].url)
      && (|order| > 0 && |log| == 0 ==> |r| >= 1)
  {
    if |order| > 0 {
      var front := order[..|order| - 1];
      FinalizeAllShape(log, sessions, front, endTime);
    }
  }

  /** With an empty log and n sessions of pairwise different URLs, stopping
      writes exactly n records, one per session, in order. */
  lemma {:induction false} FinalizeDistinctUrls(sessions: map<TabId, Session>, order: seq<TabId>, endTime: int)
    requires forall i :: 0 <= i < |order| ==> order[i] in sessions
    requires forall i, j :: 0 <= i < j < |order| ==> sessions[order[i]].url != sessions[order[j]].url
    ensures var r := FinalizeAll([], sessions, order, endTime);
      |r| == |order| && forall i :: 0 <= i < |order| ==> r[i].url == sessions[order[i]].url
  {
    if |order| > 0 {
      var front := order[..|order| - 1];
      FinalizeDistinctUrls(sessions, front, endTime);
    }
  }

  /** Sessions of one URL can merge, so stopping can write fewer records than
      there are sessions: two sessions of one URL, the second started less
      than five minutes before the stop, leave a single record. */
  lemma StopMergesSameUrl(sessions: map<TabId, Session>, a: TabId, b: TabId, endTime: int)
    requires a in sessions && b in sessions && a != b
    requires sessions[a].url == sessions[b].url
    requires endTime > sessions[b].startTime - MERGE_GAP
    ensures |FinalizeAll([], sessions, [a, b], endTime)| == 1
  {
    assert [a, b][..1] == [a];
    assert [a][..0] == [];
    assert FinalizeAll([], sessions, [], endTime) == [];
    var first := FinalizeAll([], sessions, [a], endTime);
    assert first == RecordActivity([], sessions[a], endTime);
    assert |first| == 1 && first[0].end == endTime && first[0].url == sessions[a].url;
    assert Merges(first, sessions[b]);
  }

  // ---------------------------------------------------------------------------
  // aggregateData: folding domain totals into a bucket

  /** A daily or weekly bucket after adding every domain total into it. */
  ghost function Folded(bucket: map<DomainKey, int>, totals: map<DomainKey, int>): map<DomainKey, int> {
    map d | d in bucket.Keys + totals.Keys :: Get(bucket, d) + Get(totals, d)
  }

  /** Every domain total is added into the bucket; buckets entries of other
      domains are kept. */
  lemma FoldedAddsEveryTotal(bucket: map<DomainKey, int>, totals: map<DomainKey, int>)
    ensures var r := Folded(bucket, totals);
      r.Keys == bucket.Keys + totals.Keys
      && (forall d :: d in totals ==> r[d] == Get(bucket, d) + totals[d])
      && (forall d :: d in bucket && d !in totals ==> r[d] == bucket[d])
  {
  }

  /** The bucket kept under `key`, or an empty one (`stats[key] || {}`). */
  function BucketOf<K>(stats: map<K, map<DomainKey, int>>, key: K): map<DomainKey, int> {
    if key in stats then stats[key] else map[]
  }

  /** aggregateData's loop over the domain totals, for one bucket. */
  method AddInto(bucket: map<DomainKey, int>, totals: map<DomainKey, int>) returns (r: map<DomainKey, int>)
    ensures r == Folded(bucket, totals)
  {
    r := bucket;
    var pending := totals.Keys;
    while pending != {}
      invariant pending <= totals.Keys
      invariant r == map d | d in bucket.Keys + (totals.Keys - pending) ::
                       Get(bucket, d) + (if d in pending then 0 else Get(totals, d))
      decreases pending
    {
      var d :| d in pending;
      r := r[d := Get(r, d) + totals[d]];
      pending := pending - {d};
    }
  }

  /** Because the running totals are never reset, a second aggregation adds
      the same totals again. */
  lemma AggregatingTwiceAddsTwice(bucket: map<DomainKey, int>, totals: map<DomainKey, int>, d: DomainKey)
    ensures Get(Folded(Folded(bucket, totals), totals), d) == Get(bucket, d) + 2 * Get(totals, d)
  {
  }

  // ---------------------------------------------------------------------------
  // Session maps built by restore, start and the tick

  /** A session read back from storage: URL, title, start and total are kept,
      the domain is recomputed, the clock restarts now and the session is idle. */
  function RestoredSession(s: Session, now: int, domainOf: string -> string): Session {
    Session(s.url, s.title, Some(domainOf(s.url)), s.startTime, now, s.totalTime, false)
  }

  function RestoredSessions(stored: map<TabId, Session>, now: int, domainOf: string -> string): map<TabId, Session> {
    map t | t in stored :: RestoredSession(stored[t], now, domainOf)
  }

  /** Restoring a saved session map gives back every tab with its URL, title,
      start time and accumulated time; only the clock and the activity flag are reset. */
  lemma SnapshotRestoreRoundTrip(saved: map<TabId, Session>, now: int, domainOf: string -> string)
    ensures var r := RestoredSessions(saved, now, domainOf);
      r.Keys == saved.Keys
      && forall t :: t in r ==>
           r[t].url == saved[t].url && r[t].title == saved[t].title
           && r[t].startTime == saved[t].startTime && r[t].totalTime == saved[t].totalTime
           && r[t].lastUpdate == now && !r[t].isActive && r[t].domain == Some(domainOf(saved[t].url))
  {
  }

  /** Sessions for the open tabs with trackable URLs, in query order. With
      `replace` (start command) every such tab gets a fresh session; without it
      (restore) only tabs that have none yet. */
  function SeedSessions(m: map<TabId, Session>, tabs: seq<Tab>, now: int, replace: bool): map<TabId, Session> {
    if |tabs| == 0 then m
    else
      var m' := SeedSessions(m, tabs[..|tabs| - 1], now, replace);
      var tab := tabs[|tabs| - 1];
      if (replace || tab.id !in m') && IsValidUrl(tab.url) then m'[tab.id := CreateNewSession(tab, now)]
      else m'
  }

  /** Seeding adds exactly the open tabs with trackable URLs. */
  lemma {:induction false} SeedSessionsKeys(m: map<TabId, Session>, tabs: seq<Tab>, now: int, replace: bool)
    ensures var r := SeedSessions(m, tabs, now, replace);
      forall t :: t in r <==> t in m || exists i :: 0 <= i < |tabs| && tabs[i].id == t && IsValidUrl(tabs[i].url)
  {
    if |tabs| > 0 {
      var front := tabs[..|tabs| - 1];
      SeedSessionsKeys(m, front, now, replace);
      var r := SeedSessions(m, tabs, now, replace);
      forall t | t in r ensures t in m || exists i :: 0 <= i < |tabs| && tabs[i].id == t && IsValidUrl(tabs[i].url) {
        if t !in SeedSessions(m, front, now, replace) {
          assert tabs[|tabs| - 1].id == t;
        } else if t !in m {
          var i :| 0 <= i < |front| && front[i].id == t && IsValidUrl(front[i].url);
          assert tabs[i] == front[i];
        }
      }
      forall t | t in m || exists i :: 0 <= i < |tabs| && tabs[i].id == t && IsValidUrl(tabs[i].url) ensures t in r {
        if t !in m {
          var i :| 0 <= i < |tabs| && tabs[i].id == t && IsValidUrl(tabs[i].url);
          if i < |front| {
            assert front[i] == tabs[i];
          }
        }
      }
    }
  }

  /** Seeding creates only idle zero-time sessions without a domain, and
      without `replace` keeps the sessions already present as they are. */
  lemma {:induction false} SeedSessionsValues(m: map<TabId, Session>, tabs: seq<Tab>, now: int, replace: bool)
    ensures var r := SeedSessions(m, tabs, now, replace);
      && m.Keys <= r.Keys
      && (forall t :: t in r && r[t].isActive ==> t in m && r[t] == m[t])
      && (forall t :: t in r && (t !in m || r[t] != m[t]) ==> r[t].totalTime == 0 && r[t].startTime == now && r[t].domain == None)
      && (!replace ==> forall t :: t in m ==> r[t] == m[t])
  {
    if |tabs| > 0 {
      SeedSessionsValues(m, tabs[..|tabs| - 1], now, replace);
    }
  }

  /** A session after one tick: time accrues while it is active, and its title
      follows the tab's current title. */
  function TickedSession(s: Session, now: int, title: string): Session {
    if s.isActive then s.(totalTime := s.totalTime + (now - s.lastUpdate), lastUpdate := now, title := title)
    else s.(title := title)
  }

  /** The sessions left after one tick: tabs that no longer exist are dropped
      without a record; `openTitles` maps each open tab to its current title. */
  function TickedSessions(sessions: map<TabId, Session>, now: int, openTitles: map<TabId, string>): map<TabId, Session> {
    map t | t in sessions && t in openTitles :: TickedSession(sessions[t], now, openTitles[t])
  }

  /** The domain totals after one tick. Only the session of the active tab can
      be active, so at most one domain grows, by that session's time since its
      last update. */
  function TickedTotals(totals: map<DomainKey, int>, sessions: map<TabId, Session>, active: Option<TabId>, now: int): map<DomainKey, int> {
    if active.Some? && active.value in sessions && sessions[active.value].isActive then
      var s := sessions[active.value];
      totals[s.domain := Get(totals, s.domain) + (now - s.lastUpdate)]
    else totals
  }

  /** The tab pointer after a tick: cleared when its session's tab is gone. */
  function TickedActiveTab(active: Option<TabId>, sessions: map<TabId, Session>, openTitles: map<TabId, string>): Option<TabId> {
    if active.Some? && active.value in sessions && active.value !in openTitles then None else active
  }

  /** The sessions part-way through a tick: those still `pending` are as
      before, the others are ticked or dropped. */
  ghost function PartlyTicked(before: map<TabId, Session>, pending: set<TabId>, now: int,
                              openTitles: map<TabId, string>): map<TabId, Session> {
    map t | t in before && (t in pending || t in openTitles) ::
      if t in pending then before[t] else TickedSession(before[t], now, openTitles[t])
  }

  lemma PartlyTickedStep(before: map<TabId, Session>, pending: set<TabId>, now: int,
                         openTitles: map<TabId, string>, t: TabId)
    requires t in pending && pending <= before.Keys
    ensures var cur := PartlyTicked(before, pending, now, openTitles);
      PartlyTicked(before, pending - {t}, now, openTitles)
        == if t in openTitles then cur[t := TickedSession(before[t], now, openTitles[t])] else cur - {t}
  {
  }

  lemma PartlyTickedDone(before: map<TabId, Session>, now: int, openTitles: map<TabId, string>)
    ensures PartlyTicked(before, {}, now, openTitles) == TickedSessions(before, now, openTitles)
  {
  }

  /** On a tick each active session's total and its domain's total grow by
      exactly the time since its last update, which moves to now; inactive
      sessions keep their time. */
  lemma TickAccrual(sessions: map<TabId, Session>, totals: map<DomainKey, int>, active: Option<TabId>,
                    now: int, openTitles: map<TabId, string>, t: TabId)
    requires forall u :: u in sessions && sessions[u].isActive ==> active == Some(u)
    requires t in sessions && t in openTitles
    ensures var s, s' := sessions[t], TickedSessions(sessions, now, openTitles)[t];
      && (s.isActive ==>
            && s'.totalTime == s.totalTime + (now - s.lastUpdate) && s'.lastUpdate == now
            && Get(TickedTotals(totals, sessions, active, now), s.domain) == Get(totals, s.domain) + (now - s.lastUpdate))
      && (!s.isActive ==> s'.totalTime == s.totalTime && s'.lastUpdate == s.lastUpdate)
      && s'.isActive == s.isActive && s'.url == s.url && s'.startTime == s.startTime
  {
  }

  /** Time only accrues while a tab is active: if no session is active, a tick
      changes no domain total. */
  lemma IdleTickAddsNothing(sessions: map<TabId, Session>, totals: map<DomainKey, int>, active: Option<TabId>, now: int)
    requires forall u :: u in sessions ==> !sessions[u].isActive
    ensures TickedTotals(totals, sessions, active, now) == totals
  {
  }

  // ---------------------------------------------------------------------------
  // Activation

  /** The previous tab's session, if it was active, is flushed and made idle. */
  function Deactivated(m: map<TabId, Session>, prev: Option<TabId>, now: int): map<TabId, Session> {
    if prev.Some? && prev.value in m && m[prev.value].isActive then
      var s := m[prev.value];
      m[prev.value := s.(isActive := false, totalTime := s.totalTime + (now - s.lastUpdate), lastUpdate := now)]
    else m
  }

  /** The activated tab, if it exists and has a trackable URL, gets a session
      (a fresh one if it had none) that is active from now on. */
  function Activated(m: map<TabId, Session>, tabId: TabId, tab: Option<Tab>, now: int): map<TabId, Session>
    requires tab.Some? ==> tab.value.id == tabId
  {
    if tab.None? || !IsValidUrl(tab.value.url) then m
    else
      var s := if tabId in m then m[tabId] else CreateNewSession(tab.value, now);
      m[tabId := s.(isActive := true, lastUpdate := now)]
  }

  /** Activation leaves the activated tab's session as the only active one; the
      previously active session is idle with its time since the last update
      added; a newly created session starts at zero; the rest is unchanged. */
  lemma ActivationShape(m: map<TabId, Session>, prev: Option<TabId>, tabId: TabId, tab: Option<Tab>, now: int)
    requires forall u :: u in m && m[u].isActive ==> prev == Some(u)
    requires tab.Some? ==> tab.value.id == tabId
    ensures var r := Activated(Deactivated(m, prev, now), tabId, tab, now);
      var tracked := tab.Some? && IsValidUrl(tab.value.url);
      && (forall u :: u in r && r[u].isActive ==> u == tabId)
      && r.Keys == m.Keys + (if tracked then {tabId} else {})
      && (forall u :: u in m && u != tabId && !m[u].isActive ==> r[u] == m[u])
      && (forall u :: u in m && u != tabId && m[u].isActive ==>
            r[u] == m[u].(isActive := false, totalTime := m[u].totalTime + (now - m[u].lastUpdate), lastUpdate := now))
      && (tracked ==>
            && r[tabId].isActive && r[tabId].lastUpdate == now
            && r[tabId].totalTime == (if tabId !in m then 0
                                      else if m[tabId].isActive then m[tabId].totalTime + (now - m[tabId].lastUpdate)
                                      else m[tabId].totalTime))
      && (!tracked && tabId in m ==> !r[tabId].isActive)
  {
  }

  // ---------------------------------------------------------------------------
  // Navigation

  /** The session as the navigation path flushes it: the time since the last
      update is added to the total but `lastUpdate` is left where it was. */
  function FlushOnNavigation(s: Session, now: int): Session {
    if s.isActive then s.(totalTime := s.totalTime + (now - s.lastUpdate)) else s
  }

  /** Leaving an active session by navigation records the time since its last
      update twice: once in the flush and once more in saveActivityRecord. */
  lemma NavigationCountsLastIntervalTwice(log: seq<Record>, s: Session, now: int)
    requires s.isActive && !Merges(log, s)
    ensures RecordActivity(log, FlushOnNavigation(s, now), now)[|log|].totalTime
         == s.totalTime + 2 * (now - s.lastUpdate)
  {
    assert !Merges(log, FlushOnNavigation(s, now));
  }

  /** A tab activated at t = 0, ticked at t = 20000 and navigated away at
      t = 25000 leaves a record of 30000 ms, not the 25000 ms it was active. */
  lemma NavigateAfterTickScenario(tab: Tab)
    requires IsValidUrl(tab.url)
    ensures var s0 := CreateNewSession(tab, 0).(isActive := true, lastUpdate := 0);
      var s1 := TickedSession(s0, 20000, tab.title);
      s1.totalTime == 20000
      && RecordActivity([], FlushOnNavigation(s1, 25000), 25000)
           == [Record(tab.url.value, tab.title, 0, 25000, 30000)]
  {
  }

  // ---------------------------------------------------------------------------
  // Only trackable URLs are kept

  /** Every live session is for a URL the filter accepts. */
  predicate SessionsTracked(m: map<TabId, Session>) {
    forall t :: t in m ==> IsValidUrl(Some(m[t].url))
  }

  /** Every entry of the activity log is for a URL the filter accepts. */
  predicate LogTracked(log: seq<Record>) {
    forall i :: 0 <= i < |log| ==> IsValidUrl(Some(log[i].url))
  }

  /** Saving a tracked session keeps the log tracked: a merge keeps the last
      entry's URL, and a new entry has the session's URL. */
  lemma RecordActivityKeepsLogTracked(log: seq<Record>, s: Session, endTime: int)
    requires LogTracked(log) && IsValidUrl(Some(s.url))
    ensures LogTracked(RecordActivity(log, s, endTime))
  {
  }

  /** Finalizing tracked sessions keeps the log tracked. */
  lemma {:induction false} FinalizeAllKeepsLogTracked(log: seq<Record>, sessions: map<TabId, Session>,
                                                      order: seq<TabId>, endTime: int)
    requires LogTracked(log) && SessionsTracked(sessions)
    requires forall i :: 0 <= i < |order| ==> order[i] in sessions
    ensures LogTracked(FinalizeAll(log, sessions, order, endTime))
  {
    if |order| > 0 {
      var front := order[..|order| - 1];
      FinalizeAllKeepsLogTracked(log, sessions, front, endTime);
      RecordActivityKeepsLogTracked(FinalizeAll(log, sessions, front, endTime), sessions[order[|order| - 1]], endTime);
    }
  }

  /** Seeding creates sessions only for URLs the filter accepts. */
  lemma {:induction false} SeedSessionsKeepTracked(m: map<TabId, Session>, tabs: seq<Tab>, now: int, replace: bool)
    requires SessionsTracked(m)
    ensures SessionsTracked(SeedSessions(m, tabs, now, replace))
  {
    if |tabs| > 0 {
      SeedSessionsKeepTracked(m, tabs[..|tabs| - 1], now, replace);
    }
  }

  /** Restoring keeps every session's URL. */
  lemma RestoredSessionsKeepTracked(stored: map<TabId, Session>, now: int, domainOf: string -> string)
    requires SessionsTracked(stored)
    ensures SessionsTracked(RestoredSessions(stored, now, domainOf))
  {
  }

  /** Activation creates a session only for a tab the filter accepts. */
  lemma ActivationKeepsTracked(m: map<TabId, Session>, prev: Option<TabId>, tabId: TabId, tab: Option<Tab>, now: int)
    requires SessionsTracked(m)
    requires tab.Some? ==> tab.value.id == tabId
    ensures SessionsTracked(Activated(Deactivated(m, prev, now), tabId, tab, now))
  {
  }

  /** A tick only retitles and drops sessions. */
  lemma TickKeepsTracked(sessions: map<TabId, Session>, now: int, openTitles: map<TabId, string>)
    requires SessionsTracked(sessions)
    ensures SessionsTracked(TickedSessions(sessions, now, openTitles))
  {
  }
}
