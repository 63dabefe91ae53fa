# Quilix browser controller — a Dafny model

Quilix is a desktop web-browser shell: a tabbed window around an embedded
web engine, with per-tab notes, a pomodoro focus timer, session restore and a
"smart search" address field. This project models the decision logic of its
`ModernBrowser` controller. Two nearly identical copies of that controller
exist: `core/modern_browser.py` and the older single-file `core-gui/main.py`.
Apart from parameter names, type annotations and toolbar icons, the two
`ModernBrowser` classes are the same, so one model covers both.

Once the GUI objects are removed, each piece is a small pure function over
strings, sequences and maps:

- `Text` (text.dfy): ASCII lower-casing, prefix tests, and substring search.
  Substring search is checked against a reference "occurs at some offset"
  definition.
- `Records`, `Config` (records.dfy, config.dfy): the history/bookmark entry
  and session entry records. Also the built-in home page and the settings
  record with its `home_url` fallback.
- `History` (history.dfy): the history recorder. Its main lemma says the
  recorded url list equals the visited non-empty urls with consecutive
  repeats collapsed.
- `SmartSearch`, `SearchExamples` (search.dfy, search_examples.dfy): the
  smart-search classifier. It returns an `Action`: no-op, one of four
  commands, or opening a new tab at a url. It is proved equal to a
  declarative statement of the priority order: commands, then bookmarks in
  stored order, then history newest first, then the url-or-search fallback.
- `Pomodoro` (pomodoro.dfy): the Idle/Running timer with its seconds counter
  and the one-second tick.
- `Tabs` (tabs.dfy): the tab list as a sequence of `Tab(id, url, note)`,
  with the current index, the notes map and the settings. It covers add,
  close, duplicate, restore-session, save-note, the tab label and fullscreen.
- `Controller` (controller.dfy): the smart-search submission and the
  url-changed hook, wired to the state above.

Values the program gets from outside are parameters of the model:

- the new tab's id (drawn from `os.urandom`);
- the result of the minutes dialog (`Option<Minutes>`, bounded to [1, 120]);
- the url and title the engine reports.

The search text is taken already trimmed.

Three behaviours of the code worth knowing:

- The search query is appended to `https://www.google.com/search?q=`
  verbatim. It is not percent-escaped.
- The timer command is any text whose lower-case form *starts with*
  "timer". So "timers" also toggles the timer.
- The "http" test of the fallback is case-sensitive on the original text.
  So "HTTP://a.b" becomes "https://HTTP://a.b".

## Model

| member | source | states |
|---|---|---|
| Config.Home | core/config/config.py:8 | the home page is the settings' `home_url`, or the built-in `https://www.google.com` when the key is missing |
| Text.Lower | core/modern_browser.py:199 | lower-casing keeps the length and maps each ASCII capital to its small letter, leaving other characters |
| Text.Contains | core/modern_browser.py:212 | the substring test is true exactly when the needle occurs in the haystack at some offset |
| History.TitleFor | core-gui/main.py:382 | the stored title is the page title when it is non-empty, else the url |
| History.Record | core/modern_browser.py:314-323 | a visit is appended iff its url is non-empty and differs from the last entry's url; earlier entries are untouched; the list grows by at most one; "no two adjacent entries share a url" is preserved |
| History.RecordAllIsCollapse | core-gui/main.py:376-385 | after any sequence of visits, the history's urls are the prior urls plus the non-empty visited urls with consecutive repeats collapsed, so only consecutive duplicates are suppressed |
| History.ConsecutiveVersusInterleaved | core/modern_browser.py:321-322 | visiting u1, u1, u2 records two entries; visiting u1, u2, u1 records three |
| SmartSearch.FirstHit | core/modern_browser.py:211-214 | the bookmark scan returns the first entry in stored order whose lower-cased title or url contains the text, or reports that none does |
| SmartSearch.LastHit | core/modern_browser.py:215-218 | the history scan returns the last (most recent) matching entry, or reports that none matches |
| SmartSearch.FallbackUrl | core/modern_browser.py:219-223 | a text starting with "http" is kept; another dotted text gets "https://"; any other text is appended verbatim to the search prefix; the result always starts with "http" and ends with the text |
| SmartSearch.Classify | core/modern_browser.py:193-223 | the result is a no-op iff the text is empty, and opens a tab iff the text is non-empty and not a command word |
| SmartSearch.HitsIsMatches | core/modern_browser.py:216 | matching against the lower-cased text is the case-insensitive substring match of title or url |
| SmartSearch.ClassifyMeetsSpec | core/modern_browser.py:196-223 | the classifier's action satisfies the declarative priority order: empty, then command, then first bookmark, then most recent history entry, then fallback |
| SmartSearch.ChosenIsUnique | core-gui/main.py:258-285 | the priority order admits exactly one action for any input |
| SmartSearch.ClassifyIsChosen | core-gui/main.py:255-285 | an action is the prescribed one if and only if it is the classifier's |
| SmartSearch.CommandsBeatLookups | core/modern_browser.py:196-210 | a command word is obeyed whatever the bookmarks and history hold |
| SmartSearch.TimerIsAPrefixCommand | core-gui/main.py:264-266 | "timers" toggles the timer, and so does "TIMER" beside a bookmark titled "timer-app" |
| SmartSearch.BookmarkBeatsHistory | core-gui/main.py:273-280 | when a bookmark matches, the first matching bookmark is opened and the history has no influence |
| SmartSearch.MostRecentHistoryWins | core-gui/main.py:277-279 | with no bookmark match, the newest matching history entry is opened |
| SearchExamples.FallbackWhenNothingMatches | core-gui/main.py:281-285 | a non-command text that matches no bookmark or history entry opens its fallback url |
| SearchExamples.DottedTextIsUrl | core/modern_browser.py:219-221 | "example.com" opens "https://example.com" |
| SearchExamples.PlainTextIsSearch | core/modern_browser.py:222-223 | "openai docs" opens the search prefix followed by the unescaped text |
| SearchExamples.HttpPrefixIsKept | core-gui/main.py:281-283 | "httpbin" has no dot but starts with "http", so it is opened unchanged |
| SearchExamples.HttpTestIsCaseSensitive | core-gui/main.py:282 | "HTTP://a.b" fails the case-sensitive "http" test and is given an extra "https://" prefix |
| Pomodoro.Toggle | core/modern_browser.py:254-267 | from Idle, a dialog result m starts Running with 60*m seconds; a cancelled dialog changes nothing; from Running it goes Idle at once whatever remains |
| Pomodoro.Tick | core/modern_browser.py:269-276 | a tick lowers the counter by exactly one, and it goes Idle with a "time's up" notice iff the new value is at most zero |
| Pomodoro.Fire | core-gui/main.py:324-336 | the periodic tick acts only while the timer runs; an idle timer is left unchanged |
| Pomodoro.IdleStaysIdle | core/modern_browser.py:273-275 | once idle, no number of seconds changes the timer or announces anything |
| Pomodoro.ElapseFromRunning | core-gui/main.py:331-338 | a running timer with n seconds left runs for n-1 more seconds, goes idle on the n-th, announces it exactly once, and stays idle after |
| Pomodoro.StartThenCountDown | core-gui/main.py:319-338 | after starting with m minutes, exactly 60*m ticks reach Idle, no earlier tick does, and the expiry is announced once |
| Pomodoro.StopThenRestart | core-gui/main.py:326-328 | stopping a running timer and starting it again counts down from the newly chosen duration |
| Tabs.Empty | core/modern_browser.py:59 | the freshly built window has no tab, no current tab, not fullscreen, and the loaded notes and settings |
| Tabs.ResolveUrl | core-gui/main.py:190 | a new tab opens the requested url, or the home page when none or an empty one is requested |
| Tabs.NoteFor | core-gui/main.py:198-199 | a new tab's notes start with the stored note for its id, or empty when there is none |
| Tabs.AddTab | core/modern_browser.py:124-138 | exactly one tab is appended at the end and made current; earlier tabs are unchanged; its url falls back to home; its note is preloaded iff its id is a key of the notes map |
| Tabs.CurrentAfterRemove | core-gui/main.py:207 | after a removal the current index stays on a tab: it shifts left when an earlier tab is removed, is kept when a later one is, and moves to the right-hand neighbour (or the new last tab) when the current tab itself is removed |
| Tabs.CloseTab | core/modern_browser.py:140-149 | with several tabs exactly the given index is removed, others keep their order, and the current tab is kept unless it was closed; with one tab the count stays one and its url becomes home; an invalid index changes nothing |
| Tabs.DuplicateTab | core/modern_browser.py:376-383 | a new current tab is appended with the source tab's url (home if that url is empty) and the note stored for its id; notes, settings and fullscreen are unchanged; an invalid index changes nothing |
| Tabs.DuplicateIsAddTab | core-gui/main.py:438-445 | duplicating a tab is exactly adding a tab at the source tab's url |
| Tabs.RestoreSession | core-gui/main.py:294-300 | the tabs become one per session entry, in order, each with its url (home if empty) and preloaded note; an empty session leaves no tab |
| Tabs.SaveNote | core-gui/main.py:302-307 | the notes map gets the tab's text under the tab's id, and every other key is unchanged; the tab keeps its id and url and every other tab is unchanged |
| Tabs.SavedNoteIsPreloaded | core/modern_browser.py:136-137 | a note saved for a tab is the text a later tab with the same id starts with (reachable only through an id collision, since every opened tab draws a fresh random id) |
| Tabs.TabLabel | core-gui/main.py:361-366 | a tab's label is its page title, or "New Tab" when the title is empty, so it is never empty |
| Tabs.ToggleFullscreen | core/modern_browser.py:325-333 | the fullscreen flag flips and the tab state is unchanged |
| Tabs.FullscreenTwiceRestores | core-gui/main.py:387-395 | toggling fullscreen twice restores the window state |
| Controller.Startup | core/modern_browser.py:49-120 | after construction there is exactly one tab, current, at the home page (with its note preloaded), the timer is idle at zero, and the loaded collections are kept |
| Controller.Submit | core-gui/main.py:258-285 | a submission opens one new current tab at the classified url iff the classifier chose to open one, with the drawn id and that id's stored note, and keeps the old tabs, settings and fullscreen flag; the timer command toggles the timer; the history, bookmarks and notes never change |
| Controller.UrlChanged | core-gui/main.py:193-196 | a url change records the visit through the history recorder and keeps the no-adjacent-repeat invariant; only the url of tab idx changes, and the notes, settings, fullscreen flag and every other tab stay as they were |
| Controller.TimerCommandStopsRunningTimer | core/modern_browser.py:202-204 | typing a "timer…" command while the timer runs stops it and opens no tab |

## Left out

- Qt widgets, signals, toolbars, menus, message boxes and dialogs. Dialog
  results are parameters. Message boxes appear only as the pomodoro `Notice`.
- Web-engine behaviour: navigation, back/forward/reload/home, audio mute and
  screenshot capture. These are opaque engine calls. The `note`, `mute` and
  `screenshot` commands are classified but act only on widgets, so `Submit`
  leaves the model state unchanged for them. The visibility of the notes
  pane is not modelled.
- JSON persistence (`load_json`/`save_json` in core/util.py). Only the
  in-memory lists and map that would be written are modelled, not a
  save/load round trip.
- `save_session`. Its comprehension tests `tab` before the walrus assigns it,
  and it collects widget objects rather than `{url}` records. So it cannot
  produce what `restore_session` reads, and no session round trip is claimed.
- Tab-id generation with `os.urandom` (core/browser_tab.py:46). Ids are
  parameters, and their uniqueness is not claimed. Every tab the program
  opens draws a fresh id, so a note reaches a new tab only through an id
  collision (`Tabs.SavedNoteIsPreloaded`); notes do not follow a page into
  a duplicated or restored tab.
- Tab title and icon updates. They use the index captured when the tab was
  created, which goes stale after a close. Only the "New Tab" label fallback
  is modelled (`Tabs.TabLabel`).
- Dark-mode styling, the real fullscreen window calls, the environment and
  Chromium flags (core/main.py), and config constants other than `HOME_URL`.
  The unused `TypedDict` shapes in core/model/setting_model.py are also left
  out.
- `strip()` and Unicode case folding. The text is taken already trimmed.
- Text.Lower: lower-cases ASCII letters only, where Python's `str.lower`
  also folds non-ASCII letters.
- Tabs.CloseTab: the current index after a removal follows the tab bar's
  default policy (select the tab to the right, or the new last tab). This is
  Qt behaviour and is not in the program's own text.
- Controller.UrlChanged: closing a tab or restoring a session removes the
  tab's page from the tab bar without deleting it (Qt's `removeTab` and
  `clear`), so a closed tab's page keeps its url-changed hook and its later
  visits still reach the history. The model allows this, since an index
  that names no tab still records the visit, but it does not model the
  detached pages themselves.
- Tabs.CloseTab: resetting the last tab to home makes the engine report a
  url change. That change reaches the history only through
  `Controller.UrlChanged`, which is not called here.
- Tabs.AddTab: the url-changed, title-changed, icon-changed and
  note-changed hooks that add_tab registers are modelled as separate entry
  points (`Controller.UrlChanged`, `Tabs.SaveNote`, `Tabs.TabLabel`), not as
  registrations.
- Controller.UrlChanged: the tab's url is updated from the event. In the
  program the url lives in the engine, and the hook only updates the
  address bar and the history.
