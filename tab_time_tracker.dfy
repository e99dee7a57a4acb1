/** The per-URL time accumulator of Tab-Time-Tracker/background.js.
    Each handler, with the storage and tab callbacks it issues, is run to
    completion at once, so the `urls` object in memory and in storage are the
    same field here; `currentTabInfo` is the value kept in storage. Undefined
    titles and URLs are the empty string, which JavaScript also treats as
    false. */
module TabTimeTracker {
  import opened Wrappers
  import opened Text

  /** A stay shorter than this is not credited. */
  const MIN_CREDIT := 30000

  datatype UrlRecord = UrlRecord(startTime: int, totalTime: int, tabId: int, title: string)

  /** The foreground tab as saved by saveCurrentTabInfo. */
  datatype TabInfo = TabInfo(url: string, tabId: int, startTime: int, title: string)

  /** The tab object of a Chrome event or of chrome.tabs.get. */
  datatype BrowserTab = BrowserTab(id: int, url: string, title: string)

  /** The parts of onUpdated's changeInfo the script reads. */
  datatype ChangeInfo = ChangeInfo(complete: bool, title: string)

  /** isTrackable: no empty URL, no chrome://, chrome-extension:// or edge://
      page, and not about:blank. */
  predicate IsTrackable(url: string) {
    && url != ""
    && !StartsWith(url, "chrome://")
    && !StartsWith(url, "chrome-extension://")
    && !StartsWith(url, "edge://")
    && url != "about:blank"
  }

  /** JavaScript's `a || b` on strings. */
  function Or(a: string, b: string): string {
    if a != "" then a else b
  }

  /** The record initializeTab writes. */
  function NewRecord(url: string, tabId: int, title: string, now: int): UrlRecord {
    UrlRecord(now, 0, tabId, Or(title, url))
  }

  /** Every stored URL is trackable, and every total is zero or at least one
      credited stay. */
  ghost predicate WellFormed(urls: map<string, UrlRecord>) {
    forall u :: u in urls ==> IsTrackable(u) && (urls[u].totalTime == 0 || urls[u].totalTime >= MIN_CREDIT)
  }

  /** Time credited for a stay: all of it from 30 seconds on, nothing below. */
  function Credit(elapsed: int): int {
    if elapsed >= MIN_CREDIT then elapsed else 0
  }

  // ---------------------------------------------------------------------------
  // The filter

  lemma {:induction false} UntrackableUrls(url: string)
    requires url == "" || url == "about:blank" || StartsWith(url, "chrome://")
      || StartsWith(url, "chrome-extension://") || StartsWith(url, "edge://")
    ensures !IsTrackable(url)
  {
  }

  /** Every other URL is tracked: together with UntrackableUrls this is the
      whole of isTrackable. */
  lemma OtherUrlsTrackable(url: string)
    requires url != "" && url != "about:blank"
    requires !StartsWith(url, "chrome://") && !StartsWith(url, "chrome-extension://") && !StartsWith(url, "edge://")
    ensures IsTrackable(url)
  {
  }

  /** In particular every http and https page is tracked. */
  lemma {:induction false} WebUrlsTrackable(url: string)
    requires StartsWith(url, "http://") || StartsWith(url, "https://")
    ensures IsTrackable(url)
  {
    assert url[0] == 'h' by {
      if StartsWith(url, "http://") { assert url[0] == "http://"[0]; } else { assert url[0] == "https://"[0]; }
    }
    assert !StartsWith(url, "chrome://") by { assert "chrome://"[0] == 'c'; }
    assert !StartsWith(url, "chrome-extension://") by { assert "chrome-extension://"[0] == 'c'; }
    assert !StartsWith(url, "edge://") by { assert "edge://"[0] == 'e'; }
    assert url != "about:blank" by { assert "about:blank"[0] == 'a'; }
  }

  // ---------------------------------------------------------------------------
  // onUpdated

  /** The title branch: a new title is stored only for a trackable URL that
      already has a record. */
  function TitleChanged(urls: map<string, UrlRecord>, change: ChangeInfo, tab: BrowserTab): map<string, UrlRecord> {
    if change.title != "" && IsTrackable(tab.url) && tab.url in urls
    then urls[tab.url := urls[tab.url].(title := change.title)]
    else urls
  }

  /** The first half of a completed load: when the foreground tab was another
      trackable URL, that URL gets a record if it had none and is credited the
      time since `previous.startTime` when that is 30 seconds or more. */
  function CreditedPrevious(urls: map<string, UrlRecord>, previous: Option<TabInfo>, loadedUrl: string, now: int): map<string, UrlRecord> {
    if previous.Some? && previous.value.url != "" && previous.value.url != loadedUrl && IsTrackable(previous.value.url) then
      var p := previous.value;
      var u0 := if p.url in urls then urls else urls[p.url := NewRecord(p.url, p.tabId, Or(p.title, p.url), now)];
      var elapsed := now - (if p.startTime != 0 then p.startTime else now);
      if elapsed >= MIN_CREDIT then u0[p.url := u0[p.url].(totalTime := u0[p.url].totalTime + elapsed)] else u0
    else urls
  }

  /** The second half: the loaded URL gets a record if it had none, or the
      tab's title if its title was empty. */
  function Entered(urls: map<string, UrlRecord>, tab: BrowserTab, now: int): map<string, UrlRecord> {
    if tab.url !in urls then urls[tab.url := NewRecord(tab.url, tab.id, tab.title, now)]
    else if urls[tab.url].title == "" && tab.title != "" then urls[tab.url := urls[tab.url].(title := tab.title)]
    else urls
  }

  /** The branch for a completed load of a trackable URL. */
  function LoadCompleted(urls: map<string, UrlRecord>, previous: Option<TabInfo>, tab: BrowserTab, now: int): map<string, UrlRecord> {
    Entered(CreditedPrevious(urls, previous, tab.url, now), tab, now)
  }

  /** A title change never creates a record and touches only the title of the
      tab's URL. */
  lemma TitleChangedShape(urls: map<string, UrlRecord>, change: ChangeInfo, tab: BrowserTab)
    ensures var r := TitleChanged(urls, change, tab);
      && r.Keys == urls.Keys
      && (forall u :: u in urls && u != tab.url ==> r[u] == urls[u])
      && (tab.url in urls ==>
            r[tab.url] == urls[tab.url].(title := if change.title != "" && IsTrackable(tab.url)
                                                  then change.title else urls[tab.url].title))
  {
  }

  /** The URL the previous foreground tab showed, when a completed load of
      `loadedUrl` finalizes it. */
  function PreviousUrl(previous: Option<TabInfo>, loadedUrl: string): set<string> {
    if previous.Some? && previous.value.url != loadedUrl && IsTrackable(previous.value.url)
    then {previous.value.url} else {}
  }

  /** Finalizing the previous URL gives it a record if it had none and
      credits it the whole stay when that lasted 30 seconds or more, nothing
      otherwise; no other record changes. */
  lemma CreditedPreviousShape(urls: map<string, UrlRecord>, previous: Option<TabInfo>, loadedUrl: string, now: int)
    ensures var r := CreditedPrevious(urls, previous, loadedUrl, now);
      var prev := PreviousUrl(previous, loadedUrl);
      && r.Keys == urls.Keys + prev
      && (forall u :: u in urls && u !in prev ==> r[u] == urls[u])
      && (forall u :: u in prev && u in urls ==>
            r[u].startTime == urls[u].startTime && r[u].title == urls[u].title
            && (r[u].totalTime == urls[u].totalTime || r[u].totalTime >= urls[u].totalTime + MIN_CREDIT))
      && (forall u :: u in prev && u !in urls ==> r[u].totalTime == 0 || r[u].totalTime >= MIN_CREDIT)
      && (previous.Some? ==>
            var stay := now - (if previous.value.startTime != 0 then previous.value.startTime else now);
            forall u :: u in prev ==>
              var before := if u in urls then urls[u].totalTime else 0;
              && (stay >= MIN_CREDIT ==> r[u].totalTime == before + stay)
              && (stay < MIN_CREDIT ==> r[u].totalTime == before))
  {
  }

  /** Entering the loaded URL gives it a record if it had none, or fills its
      title if that was empty; no other record changes. */
  lemma EnteredShape(urls: map<string, UrlRecord>, tab: BrowserTab, now: int)
    ensures var r := Entered(urls, tab, now);
      && r.Keys == urls.Keys + {tab.url}
      && (forall u :: u in urls && u != tab.url ==> r[u] == urls[u])
      && (tab.url in urls ==>
            r[tab.url] == urls[tab.url].(title := if urls[tab.url].title == "" then tab.title else urls[tab.url].title))
      && (tab.url !in urls ==> r[tab.url] == NewRecord(tab.url, tab.id, tab.title, now))
  {
  }

  /** A completed load leaves a record for the loaded URL, fills its title
      only when it was empty, credits only the previous URL and only stays of
      30 seconds or more, and adds records only for those two URLs. */
  lemma LoadCompletedShape(urls: map<string, UrlRecord>, previous: Option<TabInfo>, tab: BrowserTab, now: int)
    ensures var r := LoadCompleted(urls, previous, tab, now);
      var prev := PreviousUrl(previous, tab.url);
      && r.Keys == urls.Keys + {tab.url} + prev
      && (forall u :: u in urls && u != tab.url && u !in prev ==> r[u] == urls[u])
      && (tab.url in urls ==>
            r[tab.url] == urls[tab.url].(title := if urls[tab.url].title == "" then tab.title else urls[tab.url].title))
      && (tab.url !in urls ==> r[tab.url] == NewRecord(tab.url, tab.id, tab.title, now))
      && (forall u :: u in prev && u in urls ==>
            r[u].startTime == urls[u].startTime && r[u].title == urls[u].title
            && (r[u].totalTime == urls[u].totalTime || r[u].totalTime >= urls[u].totalTime + MIN_CREDIT))
      && (forall u :: u in prev && u !in urls ==> r[u].totalTime == 0 || r[u].totalTime >= MIN_CREDIT)
      && (previous.Some? ==>
            var stay := now - (if previous.value.startTime != 0 then previous.value.startTime else now);
            forall u :: u in prev ==>
              var before := if u in urls then urls[u].totalTime else 0;
              && (stay >= MIN_CREDIT ==> r[u].totalTime == before + stay)
              && (stay < MIN_CREDIT ==> r[u].totalTime == before))
  {
    var mid := CreditedPrevious(urls, previous, tab.url, now);
    CreditedPreviousShape(urls, previous, tab.url, now);
    EnteredShape(mid, tab, now);
  }

  // ---------------------------------------------------------------------------
  // onActivated

  /** The previous foreground URL is trackable but has no record: the script
      reads `urls[prevTabUrl].totalTime` before the record exists and throws. */
  predicate PreviousRecordMissing(urls: map<string, UrlRecord>, previous: Option<TabInfo>) {
    previous.Some? && IsTrackable(previous.value.url) && previous.value.url !in urls
  }

  /** The urls object after an activation. `prevTabTitle` is the title that
      chrome.tabs.get reports for the previous tab ("" when it is gone or
      untitled). A missing record is only created, afterwards, by the pending
      tab lookup; an existing one is credited the stay (from 30 seconds on),
      restarts now and gets a title if it had none. */
  function Switched(urls: map<string, UrlRecord>, previous: Option<TabInfo>, prevTabTitle: string, now: int): map<string, UrlRecord> {
    if previous.None? || !IsTrackable(previous.value.url) then urls
    else
      var p := previous.value;
      if p.url !in urls then urls[p.url := NewRecord(p.url, p.tabId, Or(prevTabTitle, p.url), now)]
      else
        var r := urls[p.url];
        var r1 := r.(totalTime := r.totalTime + Credit(now - p.startTime), startTime := now);
        urls[p.url := if r.title == "" && prevTabTitle != "" then r1.(title := prevTabTitle) else r1]
  }

  /** On activation an untrackable previous URL leaves the records alone;
      otherwise the previous URL's record restarts now, and its total grows
      by the whole stay when that lasted 30 seconds or more, by nothing
      otherwise. No other record changes. */
  lemma SwitchedShape(urls: map<string, UrlRecord>, previous: Option<TabInfo>, prevTabTitle: string, now: int)
    ensures var r := Switched(urls, previous, prevTabTitle, now);
      && (previous.None? || !IsTrackable(previous.value.url) ==> r == urls)
      && (previous.Some? && IsTrackable(previous.value.url) ==>
            var u := previous.value.url;
            && r.Keys == urls.Keys + {u}
            && r[u].startTime == now
            && (forall v :: v in urls && v != u ==> r[v] == urls[v])
            && (u in urls ==> r[u].totalTime == urls[u].totalTime || r[u].totalTime >= urls[u].totalTime + MIN_CREDIT)
            && (u !in urls ==> r[u].totalTime == 0)
            && var stay := now - previous.value.startTime;
               && (u in urls && stay >= MIN_CREDIT ==> r[u].totalTime == urls[u].totalTime + stay)
               && (u in urls && stay < MIN_CREDIT ==> r[u].totalTime == urls[u].totalTime))
  {
  }

  /** A switch after 29.999 seconds credits nothing; one after 30 seconds
      credits all 30 seconds. */
  lemma ThirtySecondThreshold(urls: map<string, UrlRecord>, url: string, tabId: int, start: int)
    requires IsTrackable(url) && url in urls
    ensures Switched(urls, Some(TabInfo(url, tabId, start, "")), "", start + 29999)[url].totalTime == urls[url].totalTime
    ensures Switched(urls, Some(TabInfo(url, tabId, start, "")), "", start + 30000)[url].totalTime == urls[url].totalTime + 30000
  {
  }

  // ---------------------------------------------------------------------------
  // Well-formedness is kept

  lemma TitleChangedWellFormed(urls: map<string, UrlRecord>, change: ChangeInfo, tab: BrowserTab)
    requires WellFormed(urls)
    ensures WellFormed(TitleChanged(urls, change, tab))
  {
  }

  lemma LoadCompletedWellFormed(urls: map<string, UrlRecord>, previous: Option<TabInfo>, tab: BrowserTab, now: int)
    requires WellFormed(urls) && IsTrackable(tab.url)
    ensures WellFormed(LoadCompleted(urls, previous, tab, now))
  {
    LoadCompletedShape(urls, previous, tab, now);
  }

  lemma SwitchedWellFormed(urls: map<string, UrlRecord>, previous: Option<TabInfo>, prevTabTitle: string, now: int)
    requires WellFormed(urls)
    ensures WellFormed(Switched(urls, previous, prevTabTitle, now))
  {
  }

  class TimeTracker {
    var urls: map<string, UrlRecord>
    var currentTabInfo: Option<TabInfo>
    var trackingEnabled: bool

    ghost predicate Valid()
      reads this
    {
      WellFormed(urls)
    }

    /** Loading the script: the stored records and foreground tab, and the
        stored flag when it is a boolean, tracking on otherwise. */
    constructor (storedUrls: map<string, UrlRecord>, storedTabInfo: Option<TabInfo>, storedFlag: Option<bool>)
      requires WellFormed(storedUrls)
      ensures Valid()
      ensures urls == storedUrls && currentTabInfo == storedTabInfo
      ensures trackingEnabled == storedFlag.GetOr(true)
    {
      urls := storedUrls;
      currentTabInfo := storedTabInfo;
      trackingEnabled := true;
      new;
      if storedFlag.Some? {
        trackingEnabled := storedFlag.value;
      }
    }

    /** initializeTab: a fresh record for `url`, replacing any, unless
        tracking is off. */
    method InitializeTab(url: string, tabId: int, title: string, now: int)
      modifies this`urls
      ensures urls == if trackingEnabled then old(urls)[url := NewRecord(url, tabId, title, now)] else old(urls)
    {
      if !trackingEnabled {
        return;
      }
      var newTab := UrlRecord(now, 0, tabId, Or(title, url));
      urls := urls[url := newTab];
    }

    /** saveCurrentTabInfo: stores the foreground tab unless tracking is off. */
    method SaveCurrentTabInfo(info: TabInfo)
      modifies this`currentTabInfo
      ensures currentTabInfo == if trackingEnabled then Some(info) else old(currentTabInfo)
    {
      if !trackingEnabled {
        return;
      }
      currentTabInfo := Some(info);
    }

    /** chrome.storage.onChanged: a change of the `trackingEnabled` key in the
        local area turns tracking off exactly when the new value is `false`
        (`newValue` is None when it is not a boolean), and turning it off
        clears the stored foreground tab. */
    method OnStorageChanged(area: string, flagChanged: bool, newValue: Option<bool>)
      requires Valid()
      modifies this`trackingEnabled, this`currentTabInfo
      ensures Valid()
      ensures area == "local" && flagChanged ==>
        && trackingEnabled == (newValue != Some(false))
        && currentTabInfo == if trackingEnabled then old(currentTabInfo) else None
      ensures !(area == "local" && flagChanged) ==>
        trackingEnabled == old(trackingEnabled) && currentTabInfo == old(currentTabInfo)
    {
      if area == "local" && flagChanged {
        trackingEnabled := newValue != Some(false);
        if !trackingEnabled {
          currentTabInfo := None;
        }
      }
    }

    /** chrome.tabs.onUpdated: the title branch, then the completed-load
        branch, which also makes the loaded tab the foreground tab. Nothing
        happens while tracking is off or for an untrackable load. */
    method OnUpdated(change: ChangeInfo, tab: BrowserTab, now: int)
      requires Valid()
      modifies this`urls, this`currentTabInfo
      ensures Valid()
      ensures !trackingEnabled ==> urls == old(urls) && currentTabInfo == old(currentTabInfo)
      ensures trackingEnabled && change.complete && IsTrackable(tab.url) ==>
        && urls == LoadCompleted(TitleChanged(old(urls), change, tab), old(currentTabInfo), tab, now)
        && currentTabInfo == Some(TabInfo(tab.url, tab.id, now, tab.title))
      ensures trackingEnabled && !(change.complete && IsTrackable(tab.url)) ==>
        urls == TitleChanged(old(urls), change, tab) && currentTabInfo == old(currentTabInfo)
    {
      if !trackingEnabled {
        return;
      }
      if change.title != "" && IsTrackable(tab.url) {
        var updatedUrl := tab.url;
        if updatedUrl in urls {
          urls := urls[updatedUrl := urls[updatedUrl].(title := change.title)];
        }
      }
      TitleChangedWellFormed(old(urls), change, tab);
      if change.complete {
        var newTabUrl, newTabId, newTabTitle := tab.url, tab.id, tab.title;
        if !IsTrackable(newTabUrl) {
          return;
        }
        ghost var titled := urls;
        var previous := currentTabInfo;
        CreditPrevious(previous, newTabUrl, now);
        EnterLoaded(tab, now);
        LoadCompletedWellFormed(titled, previous, tab, now);
        var newTabInfo := TabInfo(newTabUrl, newTabId, now, newTabTitle);
        SaveCurrentTabInfo(newTabInfo);
      }
    }

    /** The finalisation of the previous URL in onUpdated. */
    method CreditPrevious(previous: Option<TabInfo>, loadedUrl: string, now: int)
      requires trackingEnabled
      modifies this`urls
      ensures urls == CreditedPrevious(old(urls), previous, loadedUrl, now)
    {
      if previous.Some? && previous.value.url != "" && previous.value.url != loadedUrl && IsTrackable(previous.value.url) {
        var p := previous.value;
        if p.url !in urls {
          InitializeTab(p.url, p.tabId, Or(p.title, p.url), now);
        }
        var elapsed := now - (if p.startTime != 0 then p.startTime else now);
        if elapsed >= MIN_CREDIT {
          urls := urls[p.url := urls[p.url].(totalTime := urls[p.url].totalTime + elapsed)];
        }
      }
    }

    /** The record for the loaded URL in onUpdated. */
    method EnterLoaded(tab: BrowserTab, now: int)
      requires trackingEnabled
      modifies this`urls
      ensures urls == Entered(old(urls), tab, now)
    {
      if tab.url !in urls {
        InitializeTab(tab.url, tab.id, tab.title, now);
      } else if urls[tab.url].title == "" && tab.title != "" {
        urls := urls[tab.url := urls[tab.url].(title := tab.title)];
      }
    }

    /** chrome.tabs.onActivated: the previous foreground URL's record is
        brought up to date (see Switched) and the activated tab, whose URL
        chrome.tabs.get reports as `activeTabUrl`, becomes the foreground tab
        with no title. `crashed` reports the TypeError thrown when the
        previous URL had no record yet. */
    method OnActivated(activeTabId: int, activeTabUrl: string, prevTabTitle: string, now: int) returns (crashed: bool)
      requires Valid()
      modifies this`urls, this`currentTabInfo
      ensures Valid()
      ensures !trackingEnabled ==> urls == old(urls) && currentTabInfo == old(currentTabInfo) && !crashed
      ensures trackingEnabled ==>
        && urls == Switched(old(urls), old(currentTabInfo), prevTabTitle, now)
        && crashed == PreviousRecordMissing(old(urls), old(currentTabInfo))
        && currentTabInfo == Some(TabInfo(activeTabUrl, activeTabId, now, ""))
    {
      crashed := false;
      if !trackingEnabled {
        return;
      }
      var previousTabInfo := currentTabInfo;
      if previousTabInfo.Some? {
        crashed := CatchUpPrevious(previousTabInfo.value, prevTabTitle, now);
      }
      SwitchedWellFormed(old(urls), previousTabInfo, prevTabTitle, now);
      var currentTabInfo' := TabInfo(activeTabUrl, activeTabId, now, "");
      SaveCurrentTabInfo(currentTabInfo');
    }

    /** The storage callback of onActivated for a stored previous tab. */
    method CatchUpPrevious(previous: TabInfo, prevTabTitle: string, now: int) returns (crashed: bool)
      requires trackingEnabled
      modifies this`urls
      ensures urls == Switched(old(urls), Some(previous), prevTabTitle, now)
      ensures crashed == PreviousRecordMissing(old(urls), Some(previous))
    {
      crashed := false;
      var prevTabId, prevTabUrl := previous.tabId, previous.url;
      if !IsTrackable(prevTabUrl) {
        return;
      }
      if prevTabUrl !in urls {
        // urls[prevTabUrl].totalTime throws; the pending lookup of the
        // previous tab still creates its record afterwards
        crashed := true;
        InitializeTab(prevTabUrl, prevTabId, Or(prevTabTitle, prevTabUrl), now);
        return;
      }
      var timeSpent := now - previous.startTime;
      if timeSpent >= MIN_CREDIT {
        urls := urls[prevTabUrl := urls[prevTabUrl].(totalTime := urls[prevTabUrl].totalTime + timeSpent)];
      }
      urls := urls[prevTabUrl := urls[prevTabUrl].(startTime := now)];
      if urls[prevTabUrl].title == "" && prevTabTitle != "" {
        urls := urls[prevTabUrl := urls[prevTabUrl].(title := prevTabTitle)];
      }
    }
  }
}
