/** The browser controller: the tab window together with the bookmark and
    history lists and the pomodoro timer, and the two entry points that tie
    them together — the smart-search field and the url-changed hook. */
module Controller {
  import opened Wrappers
  import opened Records
  import Config
  import History
  import opened SmartSearch
  import opened Pomodoro
  import opened Tabs

  datatype App = App(
    window: Window,
    bookmarks: seq<Entry>,
    history: seq<Entry>,
    timer: Timer)

  /** The controller just after construction: the loaded notes, settings,
      bookmarks and history, an idle timer, and one tab (drawing the id `id`)
      opened at the home page and made current. */
  function Startup(notes: map<string, string>, settings: Config.Settings,
                   bookmarks: seq<Entry>, history: seq<Entry>, id: string): (r: App)
    ensures Valid(r.window)
    ensures |r.window.tabs| == 1 && r.window.current == 0
    ensures r.window.tabs[0].id == id
    ensures r.window.tabs[0].url == Config.Home(settings)
    ensures r.window.tabs[0].note == NoteFor(notes, id)
    ensures r.window.notes == notes && r.window.settings == settings && !r.window.fullscreen
    ensures r.timer.phase == Idle && r.timer.seconds == 0
    ensures r.bookmarks == bookmarks && r.history == history
  {
    App(AddTab(Empty(notes, settings), Some(Config.Home(settings)), id), bookmarks, history, Initial)
  }

  /** Submit `text` (already trimmed) in the smart-search field. A new tab,
      when one is opened, draws the fresh id `id`; `dialog` is what the
      minutes dialog returns should the timer be started. The notes pane,
      mute and screenshot commands act on widgets only and leave this state
      alone. */
  function Submit(app: App, text: string, id: string, dialog: Option<Minutes>): (r: App)
    ensures r.bookmarks == app.bookmarks && r.history == app.history
    ensures r.window.notes == app.window.notes
    ensures text == [] ==> r == app
    ensures Classify(text, app.bookmarks, app.history).OpenTab? <==>
      |r.window.tabs| == |app.window.tabs| + 1
    ensures !Classify(text, app.bookmarks, app.history).OpenTab? ==> r.window == app.window
    ensures Classify(text, app.bookmarks, app.history).OpenTab? ==>
      && r.window.tabs[..|app.window.tabs|] == app.window.tabs
      && r.window.current == |app.window.tabs|
      && r.window.tabs[|app.window.tabs|].url
         == ResolveUrl(Some(Classify(text, app.bookmarks, app.history).url), app.window.settings)
      && r.window.tabs[|app.window.tabs|].id == id
      && r.window.tabs[|app.window.tabs|].note == NoteFor(app.window.notes, id)
      && r.window.settings == app.window.settings
      && r.window.fullscreen == app.window.fullscreen
      && r.timer == app.timer
    ensures Classify(text, app.bookmarks, app.history) == TogglePomodoro ==>
      r.timer == Toggle(app.timer, dialog).state
    ensures Classify(text, app.bookmarks, app.history) != TogglePomodoro ==> r.timer == app.timer
  {
    match Classify(text, app.bookmarks, app.history)
    case OpenTab(u) => app.(window := AddTab(app.window, Some(u), id))
    case TogglePomodoro => app.(timer := Toggle(app.timer, dialog).state)
    case _ => app
  }

  /** The url-changed hook of tab `idx`: its page now shows `url`, titled
      `title`. The visit is recorded in the history, and the tab shows the
      new url. */
  function UrlChanged(app: App, idx: int, url: string, title: string): (r: App)
    ensures r.history == History.Record(app.history, url, title)
    ensures History.NoAdjacentRepeat(app.history) ==> History.NoAdjacentRepeat(r.history)
    ensures |r.window.tabs| == |app.window.tabs| && r.window.current == app.window.current
    ensures 0 <= idx < |app.window.tabs| ==> r.window.tabs[idx] == app.window.tabs[idx].(url := url)
    ensures !(0 <= idx < |app.window.tabs|) ==> r.window == app.window
    ensures r.window.notes == app.window.notes && r.window.settings == app.window.settings
    ensures r.window.fullscreen == app.window.fullscreen
    ensures forall j :: 0 <= j < |app.window.tabs| && j != idx ==> r.window.tabs[j] == app.window.tabs[j]
    ensures r.bookmarks == app.bookmarks && r.timer == app.timer
  {
    var w := app.window;
    var w' := if 0 <= idx < |w.tabs| then w.(tabs := w.tabs[idx := w.tabs[idx].(url := url)]) else w;
    app.(window := w', history := History.Record(app.history, url, title))
  }

  /** A "timer" command typed while the timer runs stops it, whatever the
      bookmarks and history hold and whatever the dialog would say. */
  lemma TimerCommandStopsRunningTimer(app: App, text: string, id: string, dialog: Option<Minutes>)
    requires Text.StartsWith(Text.Lower(text), "timer")
    requires app.timer.phase == Running
    ensures Submit(app, text, id, dialog).timer.phase == Idle
    ensures Submit(app, text, id, dialog).window == app.window
  {
    assert text != [];
    assert Classify(text, app.bookmarks, app.history) == TogglePomodoro by {
      assert Text.Lower(text) != "note" && Text.Lower(text) != "mute";
      assert Text.Lower(text)[..5] == "timer";
      assert Text.Lower(text) != "screenshot" by {
        assert "screenshot"[..5] == "scree";
      }
    }
  }
}
