# Tab activity tracking, modelled in Dafny

This project models the tracking core of a browser-activity repository. The
repository has two Chrome extensions and a small Spring backend:

- **Activity browser extension** (`Activity-Browser-Extension/background.js`). It keeps a
  live session per open tab, with a running total and an "active" flag for the
  foreground tab. A 10-second timer accrues the foreground tab's time into its session
  and into a per-domain total. It saves a snapshot every minute. Every five minutes it
  adds the domain totals into a daily bucket and an ISO-week bucket. A session is
  finalized into an activity log when its tab navigates, closes or tracking stops. A
  new log entry is merged into the last one when they have the same URL less than five
  minutes apart.
- **Tab time tracker** (`Tab-Time-Tracker/background.js`). It keeps one record per URL
  with a start time, a total, a tab id and a title. It credits a stay to the URL it
  left only when the stay lasted at least 30 seconds. A `trackingEnabled` flag in
  storage switches every handler off.
- **Auth service** (`AuthService.java`). Sign-up refuses a taken email and then a taken
  username. Log-in checks a password against the stored hash.

Module layout:

| file | module | contents |
|---|---|---|
| `wrappers.dfy` | `Wrappers` | `Option`, `Result` |
| `text.dfy` | `Text` | `StartsWith` |
| `week_numbers.dfy` | `WeekNumbers` | `getWeekNumber` on a day count, and its calendar lemmas |
| `activity_log.dfy` | `ActivityLog` | sessions, the URL filter, the merge rule, folding into buckets, and the session maps after restore, start, tick, activation and navigation, each as a function with lemmas |
| `activity_tracker.dfy` | `ActivityTracker` | class `Tracker`: the extension's state, including `chrome.storage.local` as the field `store`, and one method per handler |
| `tab_time_tracker.dfy` | `TabTimeTracker` | `isTrackable`, the per-URL record maps after each handler, and class `TimeTracker` with the handlers |
| `auth_service.dfy` | `Auth` | class `AuthService` over a map from email to user, with sign-up and log-in rules |

Each Chrome callback runs to completion as soon as it is issued. The clock, the list of
open tabs and the answers of `chrome.tabs.get` are parameters of the methods.

The code is modelled as written, except as listed under "## Left out". The following behaviours of the code are proved as
lemmas:

- Sessions made by `createNewSession` never get a `domain`. Their time therefore goes
  to the domain key `undefined`, which is `None` here.
- Activation flushes the previous session's time into its total but not into the
  domain totals.
- Navigating away from an active session counts the time since its last update twice
  (`NavigationCountsLastIntervalTwice`). In the worked example a tab active from 0 to
  25000 ms, ticked at 20000, is logged with 30000 ms (`NavigateAfterTickScenario`).
- A merged log entry grows by the second visit's wall time since its start, not by
  the second visit's total.
- The domain totals are never reset, so every aggregation adds them again
  (`AggregatingTwiceAddsTwice`).
- Stopping adds a record for a session exactly when it does not merge with the log
  written so far. On an empty log, sessions with pairwise different URLs give one
  record each (`FinalizeDistinctUrls`). Two sessions of one URL, the second started
  less than five minutes before the stop, give a single record (`StopMergesSameUrl`).
- The activity extension's URL filter lets `about:blank` through
  (`AboutBlankAccepted`). The tab time tracker's filter refuses it (`UntrackableUrls`).
- No live session and no entry of the activity log is for a URL the filter refuses.
  Every `createNewSession` call sits behind an `isValidUrl` check, and a merge keeps
  the last entry's URL. This is part of `Tracker.Valid`, which every handler keeps.
- In the tab time tracker, activating a tab after a foreground URL that has no record
  throws a TypeError. That URL's record is created afterwards by the pending tab lookup.

## Model

| member | source | states |
|---|---|---|
| ActivityLog.IsValidUrl | Activity-Browser-Extension/background.js:383-385 | the effective URL filter; InternalUrlsRejected and OtherUrlsAccepted give both directions |
| ActivityLog.IsValidUrlFirstDefinition | Activity-Browser-Extension/background.js:165-167 | the shadowed first URL filter; EffectiveDefinitionAddsMozExtension relates it to the effective one |
| ActivityLog.CreateNewSession | Activity-Browser-Extension/background.js:169-178 | a new session with the URL and title of the tab, no domain, start and last update now, no time, idle |
| ActivityLog.Merges | Activity-Browser-Extension/background.js:358-361 | the merge condition: the last entry has the URL of the session and ended less than five minutes before the session started; CloseVisitsMerge and DistantVisitsSplit are its two outcomes |
| ActivityLog.InternalUrlsRejected | Activity-Browser-Extension/background.js:383-385 | a missing or empty URL, and any URL starting with `chrome://`, `chrome-extension://` or `moz-extension://`, is not tracked |
| ActivityLog.OtherUrlsAccepted | Activity-Browser-Extension/background.js:383-385 | every URL that is present, non-empty and starts with none of the three prefixes is tracked; with InternalUrlsRejected this covers both directions |
| ActivityLog.HttpUrlsAccepted | Activity-Browser-Extension/background.js:383-385 | every `http://` and `https://` URL is tracked |
| ActivityLog.AboutBlankAccepted | Activity-Browser-Extension/background.js:383-385 | `about:blank` is tracked, since none of the three prefixes rules it out |
| ActivityLog.EffectiveDefinitionAddsMozExtension | Activity-Browser-Extension/background.js:165-167 | the effective `isValidUrl` (:383-385) accepts a URL exactly when the shadowed first definition does and the URL does not start with `moz-extension://` |
| ActivityLog.FirstDefinitionAcceptedMozExtension | Activity-Browser-Extension/background.js:165-167 | the earlier, shadowed `isValidUrl` accepts a `moz-extension://` URL that the effective one refuses |
| ActivityLog.RecordActivity | Activity-Browser-Extension/background.js:352-380 | saving a record either extends the last entry (same URL, ended less than 5 minutes before the session started) by the wall time since the session's start, or appends one entry whose total adds the time since the last update; no other entry changes |
| ActivityLog.CloseVisitsMerge | Activity-Browser-Extension/background.js:358-365 | two visits of one URL less than five minutes apart leave one entry, spanning from the first start to the second end |
| ActivityLog.DistantVisitsSplit | Activity-Browser-Extension/background.js:366-376 | visits five minutes or more apart leave two entries |
| ActivityLog.FinalizeAll | Activity-Browser-Extension/background.js:241-244 | the log after saving every session in the given order; FinalizeAllShape, FinalizeDistinctUrls and StopMergesSameUrl state its properties |
| ActivityLog.FinalizeAllShape | Activity-Browser-Extension/background.js:241-244 | finalizing n sessions adds at most n entries, keeps all but the last old entry, and ends with the last session's URL |
| ActivityLog.FinalizeDistinctUrls | Activity-Browser-Extension/background.js:241-244 | on an empty log, n sessions with different URLs give exactly n entries, one per session, in order |
| ActivityLog.StopMergesSameUrl | Activity-Browser-Extension/background.js:241-244 | two sessions of one URL, the second started less than five minutes before the stop, leave a single record |
| ActivityLog.Folded | Activity-Browser-Extension/background.js:319-321 | a bucket after adding every domain total; FoldedAddsEveryTotal and AggregatingTwiceAddsTwice state its properties |
| ActivityLog.FoldedAddsEveryTotal | Activity-Browser-Extension/background.js:316-329 | after aggregation each domain's bucket entry is its old value (or 0) plus its total; other entries are kept |
| ActivityLog.AddInto | Activity-Browser-Extension/background.js:319-321 | the loop over the domain totals produces exactly the folded bucket |
| ActivityLog.AggregatingTwiceAddsTwice | Activity-Browser-Extension/background.js:310-333 | since the totals are never reset, two aggregations add every total twice |
| ActivityLog.RestoredSessions | Activity-Browser-Extension/background.js:33-44 | the session map rebuilt from storage; SnapshotRestoreRoundTrip states its properties |
| ActivityLog.SnapshotRestoreRoundTrip | Activity-Browser-Extension/background.js:33-44 | restoring saved sessions keeps every tab with its URL, title, start time and total; only the clock moves to now, the session becomes idle and the domain is recomputed |
| ActivityLog.SeedSessions | Activity-Browser-Extension/background.js:49-54 | the session map after seeding the open tabs, also used by the start command at :67-72; SeedSessionsKeys and SeedSessionsValues state its properties |
| ActivityLog.SeedSessionsKeys | Activity-Browser-Extension/background.js:49-54 | the seeded map holds exactly the old sessions and the open tabs with trackable URLs |
| ActivityLog.SeedSessionsValues | Activity-Browser-Extension/background.js:49-54 | every session seeding creates or replaces is idle, has no time and no domain, and starts now; without replacing, old sessions are kept as they are |
| ActivityLog.TickedSession | Activity-Browser-Extension/background.js:190-205 | one session after a tick: time accrued while active, title taken from the tab |
| ActivityLog.TickedSessions | Activity-Browser-Extension/background.js:189-217 | the session map after a tick, without the tabs that are gone; TickAccrual states its properties |
| ActivityLog.TickedTotals | Activity-Browser-Extension/background.js:195-211 | the domain totals after a tick; TickAccrual and IdleTickAddsNothing state its properties |
| ActivityLog.TickedActiveTab | Activity-Browser-Extension/background.js:213-216 | the foreground tab after a tick, cleared when its tab is gone; Tracker.TickOne ties it to the tick loop |
| ActivityLog.TickAccrual | Activity-Browser-Extension/background.js:189-198 | on a tick an active session's total and its domain's total both grow by the time since its last update, which becomes now; inactive sessions keep their time |
| ActivityLog.IdleTickAddsNothing | Activity-Browser-Extension/background.js:189-198 | with no active session a tick changes no domain total |
| ActivityLog.Deactivated | Activity-Browser-Extension/background.js:92-99 | the previous foreground session flushed and made idle; ActivationShape states its properties |
| ActivityLog.Activated | Activity-Browser-Extension/background.js:102-116 | the session of the activated tab, created if needed, active from now; ActivationShape states its properties |
| ActivityLog.ActivationShape | Activity-Browser-Extension/background.js:84-117 | after activation only the activated tab's session is active; the previously active one is idle with its time added; a new session starts at zero; nothing else changes |
| ActivityLog.FlushOnNavigation | Activity-Browser-Extension/background.js:129-131 | the active time of the old session added without moving its clock; NavigationCountsLastIntervalTwice states its consequence |
| ActivityLog.NavigationCountsLastIntervalTwice | Activity-Browser-Extension/background.js:127-132 | leaving an active session by navigation records the time since its last update twice |
| ActivityLog.NavigateAfterTickScenario | Activity-Browser-Extension/background.js:120-141 | a tab active from 0, ticked at 20000 and navigated at 25000 gets an entry of 30000 ms |
| ActivityLog.SessionsTracked | Activity-Browser-Extension/background.js:123-140 | no live session is for a URL the filter refuses; part of the tracker invariant |
| ActivityLog.LogTracked | Activity-Browser-Extension/background.js:352-378 | no entry of the activity log is for a URL the filter refuses; part of the tracker invariant |
| ActivityLog.RecordActivityKeepsLogTracked | Activity-Browser-Extension/background.js:358-375 | saving a session with a trackable URL keeps the log free of refused URLs |
| ActivityLog.FinalizeAllKeepsLogTracked | Activity-Browser-Extension/background.js:241-244 | finalizing sessions with trackable URLs keeps the log free of refused URLs |
| ActivityLog.SeedSessionsKeepTracked | Activity-Browser-Extension/background.js:49-54 | seeding the open tabs adds sessions only for trackable URLs (also the start command, :67-72) |
| ActivityLog.RestoredSessionsKeepTracked | Activity-Browser-Extension/background.js:33-44 | restoring keeps every session URL, so a restored map of trackable URLs stays so |
| ActivityLog.ActivationKeepsTracked | Activity-Browser-Extension/background.js:92-116 | activation creates a session only for a tab whose URL passes the filter |
| ActivityLog.TickKeepsTracked | Activity-Browser-Extension/background.js:189-217 | a tick only retitles and drops sessions, so no refused URL appears |
| ActivityTracker.Tracker.AtMostOneActive | Activity-Browser-Extension/background.js:92-98 | under the class invariant at most one session is active |
| ActivityTracker.Tracker.Startup | Activity-Browser-Extension/background.js:16-58 | start-up restores the flag, save time and totals; when tracking, it restores idle sessions and seeds the open tabs, and the timer runs; persisted sessions and log of trackable URLs give a valid tracker |
| ActivityTracker.Tracker.StartTracking | Activity-Browser-Extension/background.js:62-75 | the start command turns tracking on in memory and storage, gives every open trackable tab a fresh session and starts the timer |
| ActivityTracker.Tracker.StopTracking | Activity-Browser-Extension/background.js:235-248 | stopping finalizes every session into the log in map order, empties the session map and stops the timer |
| ActivityTracker.Tracker.SaveActivityRecord | Activity-Browser-Extension/background.js:352-380 | the stored activity log becomes `RecordActivity` of the old one; nothing else in storage changes |
| ActivityTracker.Tracker.OnActivated | Activity-Browser-Extension/background.js:84-117 | activation sets the foreground tab and the session map of `ActivationShape`, keeps the invariant, and does nothing while not tracking |
| ActivityTracker.Tracker.Deactivate | Activity-Browser-Extension/background.js:92-99 | the sessions become `Deactivated` of the old ones: the previous foreground session, if active, is flushed and idle |
| ActivityTracker.Tracker.Activate | Activity-Browser-Extension/background.js:102-116 | the sessions become `Activated` of the old ones: a trackable tab has a session active from now |
| ActivityTracker.Tracker.OnUpdated | Activity-Browser-Extension/background.js:120-151 | a completed load of a new trackable URL logs the old session (double-flushed) and starts a fresh one, active if it is the foreground tab; a title change updates an existing session; nothing happens while not tracking |
| ActivityTracker.Tracker.OnRemoved | Activity-Browser-Extension/background.js:154-163 | closing a tab logs its session and removes it |
| ActivityTracker.Tracker.SaveState | Activity-Browser-Extension/background.js:291-308 | the snapshot stores the sessions, the totals, the foreground tab and the save time |
| ActivityTracker.Tracker.AggregateData | Activity-Browser-Extension/background.js:310-333 | today's and this week's buckets become the folded buckets; other buckets are kept |
| ActivityTracker.Tracker.AccrueAndPrune | Activity-Browser-Extension/background.js:189-219 | the tick's loop gives the ticked sessions and totals, drops sessions of vanished tabs, and clears the foreground pointer if its tab vanished |
| ActivityTracker.Tracker.TickOne | Activity-Browser-Extension/background.js:190-217 | one turn of the tick adds an active session's time since its last update to it and to its domain's total, then retitles the session or drops it (clearing the foreground pointer) when its tab is gone |
| ActivityTracker.Tracker.Tick | Activity-Browser-Extension/background.js:185-232 | one timer run accrues and prunes, saves once 60 s have passed since the last save, and aggregates into the ISO week of the local date once the aggregation time is reached |
| ActivityTracker.SeedOpenTabs | Activity-Browser-Extension/background.js:50-54 | the loop over the open tabs builds exactly the seeded session map |
| WeekNumbers.GetWeekNumber | Activity-Browser-Extension/background.js:335-341 | the ISO week number of a valid date lies between 1 and 53 |
| WeekNumbers.SameWeekSameNumber | Activity-Browser-Extension/background.js:335-341 | the seven days from a Monday get one week number, also across a year boundary |
| WeekNumbers.NewYear2024IsWeekOne | Activity-Browser-Extension/background.js:335-341 | 2024-01-01 is a Monday in week 1 |
| WeekNumbers.NewYear2021IsWeek53 | Activity-Browser-Extension/background.js:335-341 | 2021-01-01 is a Friday in week 53 |
| TabTimeTracker.IsTrackable | Tab-Time-Tracker/background.js:84-89 | the URL filter; UntrackableUrls and OtherUrlsTrackable give both directions |
| TabTimeTracker.NewRecord | Tab-Time-Tracker/background.js:37-42 | the record initializeTab writes: start now, no time, the tab id, the title or else the URL |
| TabTimeTracker.UntrackableUrls | Tab-Time-Tracker/background.js:84-89 | empty URLs, `about:blank`, and URLs starting with `chrome://`, `chrome-extension://` or `edge://` are not tracked |
| TabTimeTracker.OtherUrlsTrackable | Tab-Time-Tracker/background.js:84-89 | every non-empty URL other than `about:blank` that starts with none of the three prefixes is tracked; with UntrackableUrls this covers both directions |
| TabTimeTracker.WebUrlsTrackable | Tab-Time-Tracker/background.js:84-89 | every `http://` and `https://` URL is tracked |
| TabTimeTracker.TitleChanged | Tab-Time-Tracker/background.js:109-119 | the records after the title branch; TitleChangedShape and TitleChangedWellFormed state its properties |
| TabTimeTracker.CreditedPrevious | Tab-Time-Tracker/background.js:140-148 | the records after the previous URL is finalized on a load; CreditedPreviousShape states its properties |
| TabTimeTracker.Entered | Tab-Time-Tracker/background.js:150-156 | the records after the loaded URL is entered; EnteredShape states its properties |
| TabTimeTracker.LoadCompleted | Tab-Time-Tracker/background.js:121-170 | the records after a completed load; LoadCompletedShape and LoadCompletedWellFormed state its properties |
| TabTimeTracker.TitleChangedShape | Tab-Time-Tracker/background.js:109-119 | a title change only retitles an existing record of a trackable URL and never creates one |
| TabTimeTracker.CreditedPreviousShape | Tab-Time-Tracker/background.js:140-148 | finalizing the previous URL gives it a record if needed; a stay (measured from `startTime`, or zero when that is 0) of 30 s or more is added in full and a shorter one adds nothing; no other record changes |
| TabTimeTracker.EnteredShape | Tab-Time-Tracker/background.js:150-156 | the loaded URL gets a record if it had none, or its empty title is filled; no other record changes |
| TabTimeTracker.LoadCompletedShape | Tab-Time-Tracker/background.js:121-170 | a completed load leaves a record for the loaded URL, fills its title only if empty, credits only the previous URL, with the whole stay from 30 s on and nothing below, and adds records only for those two URLs |
| TabTimeTracker.PreviousRecordMissing | Tab-Time-Tracker/background.js:204-224 | the case in which activation throws: a trackable previous URL without a record |
| TabTimeTracker.Switched | Tab-Time-Tracker/background.js:199-226 | the records after an activation; SwitchedShape, ThirtySecondThreshold and SwitchedWellFormed state its properties |
| TabTimeTracker.SwitchedShape | Tab-Time-Tracker/background.js:199-226 | an untrackable previous URL leaves the records alone; otherwise its record restarts now, and an existing record gains the whole stay when it lasted 30 s or more and nothing otherwise; no other record changes |
| TabTimeTracker.ThirtySecondThreshold | Tab-Time-Tracker/background.js:221-225 | a stay of 29999 ms credits nothing, one of 30000 ms credits 30000 |
| TabTimeTracker.TitleChangedWellFormed | Tab-Time-Tracker/background.js:109-119 | a title change keeps every key trackable and every total 0 or at least 30 s |
| TabTimeTracker.LoadCompletedWellFormed | Tab-Time-Tracker/background.js:139-156 | a completed load keeps every key trackable and every total 0 or at least 30 s |
| TabTimeTracker.SwitchedWellFormed | Tab-Time-Tracker/background.js:199-226 | an activation keeps every key trackable and every total 0 or at least 30 s |
| TabTimeTracker.TimeTracker.constructor | Tab-Time-Tracker/background.js:63-72 | tracking starts on, and takes the stored flag when it is a boolean |
| TabTimeTracker.TimeTracker.InitializeTab | Tab-Time-Tracker/background.js:33-48 | while tracking, the URL gets a fresh record (start now, total 0, title defaulting to the URL), replacing any; otherwise nothing changes |
| TabTimeTracker.TimeTracker.SaveCurrentTabInfo | Tab-Time-Tracker/background.js:50-59 | while tracking, the given tab becomes the stored foreground tab |
| TabTimeTracker.TimeTracker.OnStorageChanged | Tab-Time-Tracker/background.js:75-82 | a local change of the flag sets it to "new value is not false", and switching off clears the stored foreground tab |
| TabTimeTracker.TimeTracker.OnUpdated | Tab-Time-Tracker/background.js:106-172 | the records become the title change followed by the completed load, and the loaded tab becomes the foreground tab; no-op while tracking is off or for an untrackable load |
| TabTimeTracker.TimeTracker.CreditPrevious | Tab-Time-Tracker/background.js:139-148 | the previous URL is given a record if needed and credited its stay from 30 s on |
| TabTimeTracker.TimeTracker.EnterLoaded | Tab-Time-Tracker/background.js:150-156 | the loaded URL is given a record, or its empty title is filled |
| TabTimeTracker.TimeTracker.OnActivated | Tab-Time-Tracker/background.js:175-250 | the previous URL's record is brought up to date, a missing record is reported as the crash, and the activated tab becomes the foreground tab without a title; no-op while tracking is off |
| TabTimeTracker.TimeTracker.CatchUpPrevious | Tab-Time-Tracker/background.js:193-227 | the storage callback of activation credits, restarts and retitles the previous record, or reports the crash and creates it |
| Auth.UsernameTaken | backend/src/main/java/com/example/backend/AuthService.java:26-27 | some stored user has the username, as `findByUsername(username).isPresent()` |
| Auth.SignedUp | backend/src/main/java/com/example/backend/AuthService.java:21-35 | the outcome of sign-up and the repository after it; SignupOutcome, SignupKeepsConsistent and SecondSignupFails state its properties |
| Auth.LoginAccepted | backend/src/main/java/com/example/backend/AuthService.java:37-43 | the answer of log-in; SignupThenLogin and UnknownEmailRefused state its properties |
| Auth.SignupOutcome | backend/src/main/java/com/example/backend/AuthService.java:21-35 | sign-up fails with "Email already exists" exactly when the email is stored, with "Username already exists" exactly when only the username is taken, stores nothing when it fails, and otherwise adds exactly one user with the encoded password |
| Auth.SignupKeepsConsistent | backend/src/main/java/com/example/backend/AuthService.java:21-35 | sign-up keeps every user under its own email and usernames unique |
| Auth.SecondSignupFails | backend/src/main/java/com/example/backend/AuthService.java:22-25 | signing up again with a registered email fails with the email error |
| Auth.SignupThenLogin | backend/src/main/java/com/example/backend/AuthService.java:33-42 | right after sign-up, log-in checks the attempt against the hash just stored |
| Auth.UnknownEmailRefused | backend/src/main/java/com/example/backend/AuthService.java:38-41 | an unknown email never logs in |
| Auth.AuthService.constructor | backend/src/main/java/com/example/backend/AuthService.java:15-18 | the service holds the given repository and encoder |
| Auth.AuthService.Signup | backend/src/main/java/com/example/backend/AuthService.java:21-35 | sign-up returns the outcome and leaves the repository described by `SignedUp`, keeping it consistent |
| Auth.AuthService.Login | backend/src/main/java/com/example/backend/AuthService.java:37-43 | log-in is false for an unknown email and otherwise `matches(raw, storedHash)`; the repository is unchanged |
| Auth.AuthService.GetUserByEmail | backend/src/main/java/com/example/backend/AuthService.java:45-48 | the lookup returns the user stored under the email, whose email it is, or None (Java's null) |

## Left out

- ActivityTracker.Tracker.Startup: requires the persisted sessions and log to hold only trackable URLs, as the script's own writes leave them. Storage written by other code is not modelled.
- `getDomain` is the abstract function `domainOf`. URL parsing and the fallback for unparsable URLs are not modelled.
- `saveSessionToStorage` and `formatDuration` are called but not defined in `background.js`, so each call throws a ReferenceError. The model treats them as returning normally. The writes of `saveSessionToStorage` are not modelled, and records have no `duration` display field. What this hides:
  - The start command throws at line 73, before `startPeriodicUpdate()` at line 74, so the script as written never starts the timer from that command. `ActivityTracker.Tracker.StartTracking` starts it.
  - `saveActivityRecord` throws at line 365 or line 374, before `chrome.storage.local.set` at line 378, so the script as written never persists an activity record. `ActivityTracker.Tracker.SaveActivityRecord` writes it.
  - The other calls (lines 115, 142, 148, 161 and 247) come last in their handlers, so nothing else is skipped.
- Record `start` and `end` are kept as timestamps. The code stores `toLocaleString()` text and parses it back with `new Date(...)`. Locale formatting and its loss of milliseconds are not modelled.
- JSON serialisation of the `undefined` domain key and of numeric tab ids as strings is not modelled. Snapshots are stored as maps.
- ActivityTracker.Tracker.StopTracking: the Map's insertion order is not tracked. The order of finalisation is a parameter that lists each session once.
- Asynchronous interleaving is not modelled: every callback runs at once and atomically. In the tick, each liveness check runs right after its session's update and before the save and aggregation steps. Interleavings in which a handler runs between the two halves are not covered.
- Tab id 0 is excluded (tab ids are positive). The truthiness test on the previous tab id would treat id 0 as "no tab".
- WeekNumbers.GetWeekNumber: `Date.UTC` maps years 0-99 to 1900-1999. That case and time zones are not modelled. The caller passes the local calendar date.
- The `today` date key is a parameter. `toISOString` formatting is not modelled.
- The dead code `clearCurrentSession` and `handleTabSwitch` (lines 250-289) uses undeclared variables. The analytics functions after line 396 are never called. Neither is modelled.
- Tab time tracker: `onInstalled`/`onStartup` reload `urls` from storage. `getCurrentTab` and `saveUrlsToStorage` only mirror state or log. The in-memory `urls` and the stored one are one field.
- TabTimeTracker.TimeTracker.constructor: requires the stored `urls` to be well formed (trackable URLs, totals 0 or at least 30 s), as the script's own handlers leave them. Storage written by other code is not modelled.
- TabTimeTracker.TimeTracker.OnActivated: the stored `urls` object may be missing entirely, and `urls[prevTabUrl]` would then throw. That case is not modelled; storage is assumed to hold an object.
- TabTimeTracker.TimeTracker.OnActivated: the order of the two storage callbacks and the `chrome.tabs.get` callbacks is fixed (previous tab first, then the new foreground tab), as is the title back-fill of the previous record.
- The popup, the React frontend, `AuthController` and the JPA repository are not modelled. The repository is a map keyed by email. The column length limits and null handling of the database are not modelled.
- `PasswordEncoder` is the pair of abstract functions `encode` and `matches`.
