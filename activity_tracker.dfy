/** The state and event handlers of the activity extension's background
    script (Activity-Browser-Extension/background.js). Each Chrome callback is
    run to completion at once; chrome.storage.local is the `store` field;
    clock readings, open tabs and tab lookups are parameters. */
module ActivityTracker {
  import opened Wrappers
  import opened ActivityLog
  import WeekNumbers

  /** The extension's keys in chrome.storage.local. `lastSaveTime` is None
      when the key was never written. */
  datatype Store = Store(
    isTracking: bool,
    sessions: map<TabId, Session>,
    domainTotals: map<DomainKey, int>,
    activeTabId: Option<TabId>,
    lastSaveTime: Option<int>,
    activity: seq<Record>,
    dailyStats: map<string, map<DomainKey, int>>,
    weeklyStats: map<int, map<DomainKey, int>>)

  /** The parts of onUpdated's changeInfo the script reads: whether loading
      completed, and the new title ("" when absent). */
  datatype ChangeInfo = ChangeInfo(complete: bool, title: string)

  class Tracker {
    var sessions: map<TabId, Session>      // activeSessions
    var domainTotals: map<DomainKey, int>
    var isTracking: bool
    var timerRunning: bool                 // updateInterval !== null
    var activeTabId: Option<TabId>
    var lastSaveTime: int
    var nextAggregateTime: int
    var store: Store
    /** getDomain: the hostname of a URL; URL parsing is not modelled. */
    const domainOf: string -> string

    /** Only the session of the foreground tab may be active, the timer only
        runs while tracking, and no session or logged visit is for a URL the
        filter refuses. */
    ghost predicate Valid()
      reads this
    {
      && (forall t :: t in sessions && sessions[t].isActive ==> activeTabId == Some(t))
      && (timerRunning ==> isTracking)
      && SessionsTracked(sessions)
      && LogTracked(store.activity)
    }

    /** At most one session is active at any time. */
    lemma AtMostOneActive(a: TabId, b: TabId)
      requires Valid()
      requires a in sessions && sessions[a].isActive
      requires b in sessions && sessions[b].isActive
      ensures a == b
    {
    }

    /** Loading the script and the restore callback: the module-level
        initial values, then the persisted flag, save time and domain totals;
        when tracking was on, the saved sessions (idle, clock restarted) plus a
        fresh session for every open trackable tab without one, and the timer. */
    constructor Startup(now: int, persisted: Store, openTabs: seq<Tab>, domainOf: string -> string)
      requires SessionsTracked(persisted.sessions) && LogTracked(persisted.activity)
      ensures Valid()
      ensures this.domainOf == domainOf && store == persisted
      ensures isTracking == persisted.isTracking && timerRunning == persisted.isTracking
      ensures lastSaveTime == persisted.lastSaveTime.GetOr(now)
      ensures nextAggregateTime == now + AGGREGATE_INTERVAL
      ensures activeTabId == None
      ensures domainTotals == persisted.domainTotals
      ensures sessions == if persisted.isTracking
                          then SeedSessions(RestoredSessions(persisted.sessions, now, domainOf), openTabs, now, false)
                          else map[]
      ensures forall t :: t in sessions ==> !sessions[t].isActive
    {
      this.domainOf := domainOf;
      sessions := map[];
      domainTotals := map[];
      isTracking := false;
      timerRunning := false;
      activeTabId := None;
      lastSaveTime := now;
      nextAggregateTime := now + AGGREGATE_INTERVAL;
      store := persisted;
      new;
      isTracking := store.isTracking;
      lastSaveTime := store.lastSaveTime.GetOr(now);
      // every stored total is set into the still empty map
      domainTotals := store.domainTotals;
      if isTracking {
        sessions := RestoredSessions(store.sessions, now, domainOf);
        var restored := sessions;
        sessions := SeedOpenTabs(sessions, openTabs, now, false);
        SeedSessionsValues(restored, openTabs, now, false);
        RestoredSessionsKeepTracked(store.sessions, now, domainOf);
        SeedSessionsKeepTracked(restored, openTabs, now, false);
        timerRunning := true;
      }
    }

    /** The "startTracking" message: tracking on (also in storage), a fresh
        idle session for every open trackable tab, replacing any it had, and
        the timer started. */
    method StartTracking(now: int, openTabs: seq<Tab>)
      requires Valid()
      modifies this`isTracking, this`store, this`sessions, this`timerRunning
      ensures Valid()
      ensures isTracking && timerRunning
      ensures store == old(store).(isTracking := true)
      ensures sessions == SeedSessions(old(sessions), openTabs, now, true)
    {
      isTracking := true;
      store := store.(isTracking := true);
      var before := sessions;
      sessions := SeedOpenTabs(sessions, openTabs, now, true);
      SeedSessionsValues(before, openTabs, now, true);
      SeedSessionsKeepTracked(before, openTabs, now, true);
      timerRunning := true;
    }

    /** The "stopTracking" message and stopPeriodicUpdate: tracking off, the
        timer cleared, every session finalized into the activity log in the
        map's iteration order `order`, and the session map emptied. */
    method StopTracking(now: int, order: seq<TabId>)
      requires Valid()
      requires forall t :: t in sessions <==> t in order
      requires forall i, j :: 0 <= i < j < |order| ==> order[i] != order[j]
      modifies this`isTracking, this`store, this`sessions, this`timerRunning
      ensures Valid()
      ensures !isTracking && !timerRunning && sessions == map[]
      ensures store == old(store).(isTracking := false,
                                   activity := FinalizeAll(old(store.activity), old(sessions), order, now))
    {
      isTracking := false;
      store := store.(isTracking := false);
      timerRunning := false;
      var i := 0;
      while i < |order|
        invariant 0 <= i <= |order|
        invariant sessions == old(sessions) && !isTracking && !timerRunning
        invariant store == old(store).(isTracking := false,
                                       activity := FinalizeAll(old(store.activity), old(sessions), order[..i], now))
      {
        assert order[..i + 1][..i] == order[..i];
        SaveActivityRecord(sessions[order[i]], now);
        i := i + 1;
      }
      assert order[..|order|] == order;
      FinalizeAllKeepsLogTracked(old(store.activity), sessions, order, now);
      sessions := map[];
    }

    /** saveActivityRecord: merge into or append to the stored activity log. */
    method SaveActivityRecord(s: Session, endTime: int)
      modifies this`store
      ensures store == old(store).(activity := RecordActivity(old(store.activity), s, endTime))
    {
      var activity := store.activity;
      if |activity| > 0 && activity[|activity| - 1].url == s.url
         && activity[|activity| - 1].end > s.startTime - MERGE_GAP {
        var last := activity[|activity| - 1];
        activity := activity[|activity| - 1 := last.(end := endTime, totalTime := last.totalTime + (endTime - s.startTime))];
      } else {
        activity := activity + [Record(s.url, s.title, s.startTime, endTime, s.totalTime + (endTime - s.lastUpdate))];
      }
      store := store.(activity := activity);
    }

    /** chrome.tabs.onActivated; `tab` is what chrome.tabs.get returns for
        the activated tab (None when it is gone). Domain totals are untouched. */
    method OnActivated(tabId: TabId, now: int, tab: Option<Tab>)
      requires Valid()
      requires tab.Some? ==> tab.value.id == tabId
      modifies this`sessions, this`activeTabId
      ensures Valid()
      ensures !old(isTracking) ==> sessions == old(sessions) && activeTabId == old(activeTabId)
      ensures old(isTracking) ==>
        && activeTabId == Some(tabId)
        && sessions == Activated(Deactivated(old(sessions), old(activeTabId), now), tabId, tab, now)
    {
      if !isTracking {
        return;
      }
      var prevActiveTabId := activeTabId;
      activeTabId := Some(tabId);
      Deactivate(prevActiveTabId, now);
      Activate(tabId, tab, now);
      ActivationShape(old(sessions), prevActiveTabId, tabId, tab, now);
      ActivationKeepsTracked(old(sessions), prevActiveTabId, tabId, tab, now);
    }

    /** The first half of onActivated: the previous foreground session, if
        active, is flushed and made idle. */
    method Deactivate(prev: Option<TabId>, now: int)
      modifies this`sessions
      ensures sessions == Deactivated(old(sessions), prev, now)
    {
      if prev.Some? && prev.value in sessions {
        var prevSession := sessions[prev.value];
        if prevSession.isActive {
          prevSession := prevSession.(isActive := false);
          prevSession := prevSession.(totalTime := prevSession.totalTime + (now - prevSession.lastUpdate));
          prevSession := prevSession.(lastUpdate := now);
          sessions := sessions[prev.value := prevSession];
        }
      }
    }

    /** The chrome.tabs.get callback of onActivated: a trackable tab's session,
        created if it had none, becomes active from now. */
    method Activate(tabId: TabId, tab: Option<Tab>, now: int)
      requires tab.Some? ==> tab.value.id == tabId
      modifies this`sessions
      ensures sessions == Activated(old(sessions), tabId, tab, now)
    {
      if tab.None? || !IsValidUrl(tab.value.url) {
        return;
      }
      var session;
      if tabId !in sessions {
        session := CreateNewSession(tab.value, now);
      } else {
        session := sessions[tabId];
      }
      session := session.(isActive := true, lastUpdate := now);
      sessions := sessions[tabId := session];
    }

    /** chrome.tabs.onUpdated. A completed load of a trackable URL that differs
        from the tab's session finalizes that session, after adding its active
        time to its total without moving its clock, and starts a fresh one,
        active when the tab is the foreground tab; a tab without a session gets
        one the same way; a load of the same URL changes nothing. Otherwise a
        new title replaces the session's title. */
    method OnUpdated(tabId: TabId, change: ChangeInfo, tab: Tab, now: int)
      requires Valid()
      modifies this`sessions, this`store
      ensures Valid()
      ensures !old(isTracking) ==> sessions == old(sessions) && store == old(store)
      ensures old(isTracking) && change.complete && IsValidUrl(tab.url) ==>
        var started := CreateNewSession(tab, now).(isActive := activeTabId == Some(tabId));
        if tabId in old(sessions) && old(sessions)[tabId].url != tab.url.value then
          && store == old(store).(activity := RecordActivity(old(store.activity),
                                                             FlushOnNavigation(old(sessions)[tabId], now), now))
          && sessions == old(sessions)[tabId := started]
        else if tabId !in old(sessions) then
          store == old(store) && sessions == old(sessions)[tabId := started]
        else
          store == old(store) && sessions == old(sessions)
      ensures old(isTracking) && !(change.complete && IsValidUrl(tab.url)) ==>
        && store == old(store)
        && sessions == if change.title != "" && tabId in old(sessions)
                       then old(sessions)[tabId := old(sessions)[tabId].(title := change.title)]
                       else old(sessions)
    {
      if !isTracking {
        return;
      }
      if change.complete && IsValidUrl(tab.url) {
        if tabId in sessions && sessions[tabId].url != tab.url.value {
          var oldSession := sessions[tabId];
          if oldSession.isActive {
            oldSession := oldSession.(totalTime := oldSession.totalTime + (now - oldSession.lastUpdate));
          }
          SaveActivityRecord(oldSession, now);
          RecordActivityKeepsLogTracked(old(store.activity), oldSession, now);
          var newSession := CreateNewSession(tab, now);
          newSession := newSession.(isActive := activeTabId == Some(tabId));
          sessions := sessions[tabId := newSession];
        } else if tabId !in sessions {
          var newSession := CreateNewSession(tab, now);
          newSession := newSession.(isActive := activeTabId == Some(tabId));
          sessions := sessions[tabId := newSession];
        }
      } else if change.title != "" {
        if tabId in sessions {
          sessions := sessions[tabId := sessions[tabId].(title := change.title)];
        }
      }
    }

    /** chrome.tabs.onRemoved: the tab's session is finalized and dropped; the
        foreground-tab pointer is left as it was. */
    method OnRemoved(tabId: TabId, now: int)
      requires Valid()
      modifies this`sessions, this`store
      ensures Valid()
      ensures !old(isTracking) || tabId !in old(sessions) ==> sessions == old(sessions) && store == old(store)
      ensures old(isTracking) && tabId in old(sessions) ==>
        && store == old(store).(activity := RecordActivity(old(store.activity), old(sessions)[tabId], now))
        && sessions == old(sessions) - {tabId}
    {
      if !isTracking {
        return;
      }
      if tabId in sessions {
        SaveActivityRecord(sessions[tabId], now);
        RecordActivityKeepsLogTracked(old(store.activity), sessions[tabId], now);
        sessions := sessions - {tabId};
      }
    }

    /** saveState: the snapshot of sessions, totals and the foreground tab. */
    method SaveState(now: int)
      modifies this`store
      ensures store == old(store).(sessions := sessions, domainTotals := domainTotals,
                                   activeTabId := activeTabId, lastSaveTime := Some(now))
    {
      store := store.(sessions := sessions, domainTotals := domainTotals,
                      activeTabId := activeTabId, lastSaveTime := Some(now));
    }

    /** aggregateData: every domain total is added into today's bucket of the
        daily stats and this week's bucket of the weekly stats. */
    method AggregateData(today: string, thisWeek: int)
      modifies this`store
      ensures store == old(store).(
        dailyStats := old(store.dailyStats)[today := Folded(BucketOf(old(store.dailyStats), today), domainTotals)],
        weeklyStats := old(store.weeklyStats)[thisWeek := Folded(BucketOf(old(store.weeklyStats), thisWeek), domainTotals)])
    {
      var day := AddInto(BucketOf(store.dailyStats, today), domainTotals);
      var week := AddInto(BucketOf(store.weeklyStats, thisWeek), domainTotals);
      store := store.(dailyStats := store.dailyStats[today := day], weeklyStats := store.weeklyStats[thisWeek := week]);
    }

    /** The first part of a tick: the loop over the sessions, with the
        liveness check of each tab run as soon as it is issued. */
    method AccrueAndPrune(now: int, openTitles: map<TabId, string>)
      requires Valid()
      modifies this`sessions, this`domainTotals, this`activeTabId
      ensures Valid()
      ensures sessions == TickedSessions(old(sessions), now, openTitles)
      ensures domainTotals == TickedTotals(old(domainTotals), old(sessions), old(activeTabId), now)
      ensures activeTabId == TickedActiveTab(old(activeTabId), old(sessions), openTitles)
    {
      ghost var before, totals0, active0 := sessions, domainTotals, activeTabId;
      var pending := sessions.Keys;
      while pending != {}
        invariant pending <= before.Keys
        invariant forall u :: u in before && before[u].isActive ==> active0 == Some(u)
        invariant sessions == PartlyTicked(before, pending, now, openTitles)
        invariant domainTotals == if active0.Some? && active0.value in before && active0.value !in pending
                                  then TickedTotals(totals0, before, active0, now) else totals0
        invariant activeTabId == if active0.Some? && active0.value in before && active0.value !in pending
                                 then TickedActiveTab(active0, before, openTitles) else active0
        decreases pending
      {
        var tabId :| tabId in pending;
        PartlyTickedStep(before, pending, now, openTitles, tabId);
        assert sessions[tabId] == before[tabId];
        TickOne(tabId, now, openTitles);
        pending := pending - {tabId};
      }
      PartlyTickedDone(before, now, openTitles);
      TickKeepsTracked(before, now, openTitles);
    }

    /** One turn of the tick's loop, with the tab's liveness check: an active
        session accrues into its total and its domain's total; the session
        then takes the tab's title, or is dropped if the tab is gone. */
    method TickOne(tabId: TabId, now: int, openTitles: map<TabId, string>)
      requires tabId in sessions
      modifies this`sessions, this`domainTotals, this`activeTabId
      ensures var s := old(sessions)[tabId];
        && sessions == (if tabId in openTitles then old(sessions)[tabId := TickedSession(s, now, openTitles[tabId])]
                        else old(sessions) - {tabId})
        && domainTotals == (if s.isActive then old(domainTotals)[s.domain := Get(old(domainTotals), s.domain) + (now - s.lastUpdate)]
                            else old(domainTotals))
        && activeTabId == (if tabId !in openTitles && old(activeTabId) == Some(tabId) then None else old(activeTabId))
    {
      var session := sessions[tabId];
      if session.isActive {
        var timeSinceUpdate := now - session.lastUpdate;
        session := session.(totalTime := session.totalTime + timeSinceUpdate, lastUpdate := now);
        domainTotals := domainTotals[session.domain := Get(domainTotals, session.domain) + timeSinceUpdate];
      }
      if tabId in openTitles {
        session := session.(title := openTitles[tabId]);
        sessions := sessions[tabId := session];
      } else {
        if session.isActive {
          // lastUpdate was just moved to now, so this adds nothing
          var finalTime := now - session.lastUpdate;
          domainTotals := domainTotals[session.domain := Get(domainTotals, session.domain) + finalTime];
        }
        sessions := sessions - {tabId};
        if activeTabId == Some(tabId) {
          activeTabId := None;
        }
      }
    }

    /** One run of the 10-second timer. `openTitles` maps every tab that still
        exists to its title; `today` is the ISO date key and `localDate` the
        local calendar date of `now`. Active sessions accrue, vanished tabs'
        sessions are dropped without a record, then the state is saved once a
        minute and aggregated every five minutes. */
    method Tick(now: int, openTitles: map<TabId, string>, today: string, localDate: WeekNumbers.Date)
      requires Valid() && timerRunning
      requires WeekNumbers.ValidDate(localDate)
      modifies this`sessions, this`domainTotals, this`activeTabId, this`lastSaveTime, this`nextAggregateTime, this`store
      ensures Valid()
      ensures sessions == TickedSessions(old(sessions), now, openTitles)
      ensures domainTotals == TickedTotals(old(domainTotals), old(sessions), old(activeTabId), now)
      ensures activeTabId == TickedActiveTab(old(activeTabId), old(sessions), openTitles)
      ensures var saved := now - old(lastSaveTime) >= SAVE_INTERVAL;
        && lastSaveTime == (if saved then now else old(lastSaveTime))
        && var s1 := if saved
                     then old(store).(sessions := sessions, domainTotals := domainTotals,
                                      activeTabId := activeTabId, lastSaveTime := Some(now))
                     else old(store);
           var week := WeekNumbers.GetWeekNumber(localDate);
           if now >= old(nextAggregateTime) then
             && nextAggregateTime == now + AGGREGATE_INTERVAL
             && store == s1.(dailyStats := s1.dailyStats[today := Folded(BucketOf(s1.dailyStats, today), domainTotals)],
                             weeklyStats := s1.weeklyStats[week := Folded(BucketOf(s1.weeklyStats, week), domainTotals)])
           else
             nextAggregateTime == old(nextAggregateTime) && store == s1
    {
      AccrueAndPrune(now, openTitles);
      if now - lastSaveTime >= SAVE_INTERVAL {
        SaveState(now);
        lastSaveTime := now;
      }
      if now >= nextAggregateTime {
        AggregateData(today, WeekNumbers.GetWeekNumber(localDate));
        nextAggregateTime := now + AGGREGATE_INTERVAL;
      }
    }
  }

  /** The loops over the open tabs in the restore callback and in the start
      command. */
  method SeedOpenTabs(m: map<TabId, Session>, tabs: seq<Tab>, now: int, replace: bool) returns (r: map<TabId, Session>)
    ensures r == SeedSessions(m, tabs, now, replace)
  {
    r := m;
    var i := 0;
    while i < |tabs|
      invariant 0 <= i <= |tabs|
      invariant r == SeedSessions(m, tabs[..i], now, replace)
    {
      var tab := tabs[i];
      if (replace || tab.id !in r) && IsValidUrl(tab.url) {
        r := r[tab.id := CreateNewSession(tab, now)];
      }
      assert tabs[..i + 1][..i] == tabs[..i];
      i := i + 1;
    }
    assert tabs[..|tabs|] == tabs;
  }
}
