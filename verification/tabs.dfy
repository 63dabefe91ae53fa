/** The tab list of the browser window: tabs in display order, the index of
    the current tab, the notes map keyed by tab id, and the settings that
    supply the home page. */
module Tabs {
  import opened Wrappers
  import opened Config
  import opened Records

  /** One tab: its opaque id, the url its page shows, and the text of its
      notes pane. */
  datatype Tab = Tab(id: string, url: string, note: string)

  /** The window state. `current` is -1 exactly when there are no tabs. */
  datatype Window = Window(
    tabs: seq<Tab>,
    current: int,
    notes: map<string, string>,
    settings: Settings,
    fullscreen: bool)

  /** The current index designates a tab, or is -1 for an empty tab list. */
  predicate Valid(w: Window) {
    -1 <= w.current < |w.tabs| && (w.current == -1 <==> w.tabs == [])
  }

  /** The window at start-up, before its first tab is added. */
  function Empty(notes: map<string, string>, settings: Settings): (w: Window)
    ensures Valid(w) && w.tabs == []
    ensures w.notes == notes && w.settings == settings && !w.fullscreen
  {
    Window([], -1, notes, settings, false)
  }

  /** The url a new tab opens: the requested url, or the home page when none
      (or an empty one) is requested. */
  function ResolveUrl(url: Option<string>, s: Settings): (u: string)
    ensures url.Some? && url.value != "" ==> u == url.value
    ensures url.None? || url.value == "" ==> u == Home(s)
  {
    match url
    case Some(v) => if v != "" then v else Home(s)
    case None => Home(s)
  }

  /** The notes text a new tab with id `id` starts with: the stored note for
      that id, or nothing. */
  function NoteFor(notes: map<string, string>, id: string): (n: string)
    ensures id in notes ==> n == notes[id]
    ensures id !in notes ==> n == ""
  {
    if id in notes then notes[id] else ""
  }

  /** Open a new tab at the end of the list and make it current. `id` is the
      fresh id the new tab draws. */
  function AddTab(w: Window, url: Option<string>, id: string): (r: Window)
    ensures Valid(r)
    ensures |r.tabs| == |w.tabs| + 1
    ensures r.tabs[..|w.tabs|] == w.tabs
    ensures r.current == |w.tabs|
    ensures r.tabs[|w.tabs|].id == id
    ensures r.tabs[|w.tabs|].url == ResolveUrl(url, w.settings)
    ensures r.tabs[|w.tabs|].url != "" || Home(w.settings) == ""
    ensures id in w.notes ==> r.tabs[|w.tabs|].note == w.notes[id]
    ensures id !in w.notes ==> r.tabs[|w.tabs|].note == ""
    ensures r.notes == w.notes && r.settings == w.settings && r.fullscreen == w.fullscreen
  {
    var t := Tab(id, ResolveUrl(url, w.settings), NoteFor(w.notes, id));
    w.(tabs := w.tabs + [t], current := |w.tabs|)
  }

  /** The current index after removing tab `idx`, following the tab bar's
      default of selecting the tab to the right of a removed current tab
      (or the new last tab when there is none). */
  function CurrentAfterRemove(cur: int, idx: int, newLen: nat): (c: int)
    requires 0 <= cur <= newLen && 0 <= idx <= newLen && 0 < newLen
    ensures 0 <= c < newLen
    ensures idx < cur ==> c == cur - 1
    ensures idx > cur ==> c == cur
    ensures idx == cur ==> c == (if cur < newLen then cur else newLen - 1)
  {
    if idx < cur then cur - 1 else if cur < newLen then cur else newLen - 1
  }

  /** Close tab `idx`. With more than one tab the tab is removed; the last
      remaining tab is never removed but sent back to the home page. An index
      that designates no tab changes nothing. */
  function CloseTab(w: Window, idx: int): (r: Window)
    requires Valid(w)
    ensures Valid(r)
    ensures |w.tabs| >= 1 ==> |r.tabs| >= 1
    ensures !(0 <= idx < |w.tabs|) ==> r == w
    ensures |w.tabs| > 1 && 0 <= idx < |w.tabs| ==>
      && |r.tabs| == |w.tabs| - 1
      && (forall j :: 0 <= j < idx ==> r.tabs[j] == w.tabs[j])
      && (forall j :: idx <= j < |r.tabs| ==> r.tabs[j] == w.tabs[j + 1])
      && (idx != w.current ==> r.tabs[r.current] == w.tabs[w.current])
    ensures |w.tabs| == 1 && idx == 0 ==>
      r.tabs == [Tab(w.tabs[0].id, Home(w.settings), w.tabs[0].note)] && r.current == 0
    ensures r.notes == w.notes && r.settings == w.settings && r.fullscreen == w.fullscreen
  {
    if !(0 <= idx < |w.tabs|) then w
    else if |w.tabs| > 1 then
      var rest := w.tabs[..idx] + w.tabs[idx + 1..];
      w.(tabs := rest, current := CurrentAfterRemove(w.current, idx, |rest|))
    else
      w.(tabs := w.tabs[idx := w.tabs[idx].(url := Home(w.settings))])
  }

  /** Open a copy of tab `idx` (its url, under the fresh id `id`) as a new
      current tab. */
  function DuplicateTab(w: Window, idx: int, id: string): (r: Window)
    ensures !(0 <= idx < |w.tabs|) ==> r == w
    ensures 0 <= idx < |w.tabs| ==>
      && Valid(r)
      && |r.tabs| == |w.tabs| + 1
      && r.tabs[..|w.tabs|] == w.tabs
      && r.current == |w.tabs|
      && r.tabs[|w.tabs|].id == id
      && (w.tabs[idx].url != "" ==> r.tabs[|w.tabs|].url == w.tabs[idx].url)
      && (w.tabs[idx].url == "" ==> r.tabs[|w.tabs|].url == Home(w.settings))
      && r.tabs[|w.tabs|].note == NoteFor(w.notes, id)
      && r.notes == w.notes && r.settings == w.settings && r.fullscreen == w.fullscreen
  {
    if 0 <= idx < |w.tabs| then AddTab(w, Some(w.tabs[idx].url), id) else w
  }

  /** Duplicating a tab is adding a tab at the source tab's url. */
  lemma DuplicateIsAddTab(w: Window, idx: int, id: string)
    requires 0 <= idx < |w.tabs|
    ensures DuplicateTab(w, idx, id) == AddTab(w, Some(w.tabs[idx].url), id)
  {
  }

  /** Replace all tabs by one tab per session entry, in order; `ids` are the
      fresh ids the new tabs draw. An empty session leaves no tab at all. */
  function RestoreSession(w: Window, session: seq<SessionEntry>, ids: seq<string>): (r: Window)
    requires |ids| == |session|
    ensures Valid(r)
    ensures |r.tabs| == |session|
    ensures forall k :: 0 <= k < |session| ==>
      && r.tabs[k].id == ids[k]
      && r.tabs[k].url == ResolveUrl(Some(session[k].url), w.settings)
      && r.tabs[k].note == NoteFor(w.notes, ids[k])
    ensures r.current == |session| - 1
    ensures r.notes == w.notes && r.settings == w.settings && r.fullscreen == w.fullscreen
  {
    if session == [] then w.(tabs := [], current := -1)
    else
      var n := |session| - 1;
      var prior := RestoreSession(w, session[..n], ids[..n]);
      AddTab(prior, Some(session[n].url), ids[n])
  }

  /** The notes pane of tab `idx` now holds `text`: the tab keeps it and the
      notes map records it under the tab's id, leaving every other key
      unchanged. */
  function SaveNote(w: Window, idx: int, text: string): (r: Window)
    ensures !(0 <= idx < |w.tabs|) ==> r == w
    ensures 0 <= idx < |w.tabs| ==>
      && var id := w.tabs[idx].id;
      && r.notes.Keys == w.notes.Keys + {id}
      && r.notes[id] == text
      && (forall k :: k in w.notes && k != id ==> r.notes[k] == w.notes[k])
      && |r.tabs| == |w.tabs|
      && r.tabs[idx] == w.tabs[idx].(note := text)
      && (forall j :: 0 <= j < |w.tabs| && j != idx ==> r.tabs[j] == w.tabs[j])
    ensures r.current == w.current && r.settings == w.settings && r.fullscreen == w.fullscreen
  {
    if 0 <= idx < |w.tabs| then
      var t := w.tabs[idx];
      w.(tabs := w.tabs[idx := t.(note := text)], notes := w.notes[t.id := text])
    else w
  }

  /** A note saved for a tab is what a later tab drawing the same id starts
      with. The program draws a fresh random id for every tab it opens, so
      this is reached only when a drawn id collides with an earlier one; it
      does not say that notes follow a page into a duplicated or restored
      tab. */
  lemma SavedNoteIsPreloaded(w: Window, idx: int, text: string, url: Option<string>)
    requires 0 <= idx < |w.tabs|
    ensures var r := AddTab(SaveNote(w, idx, text), url, w.tabs[idx].id);
      r.tabs[|w.tabs|].note == text
  {
  }

  /** The label of a tab whose page title is `title`. */
  function TabLabel(title: string): (shown: string)
    ensures shown != ""
    ensures title != "" ==> shown == title
    ensures title == "" ==> shown == "New Tab"
  {
    if title != "" then title else "New Tab"
  }

  /** The fullscreen button flips between fullscreen and normal display. */
  function ToggleFullscreen(w: Window): (r: Window)
    ensures r.fullscreen != w.fullscreen
    ensures r.tabs == w.tabs && r.current == w.current && r.notes == w.notes
    ensures r.settings == w.settings
  {
    w.(fullscreen := !w.fullscreen)
  }

  /** Pressing the fullscreen button twice restores the window. */
  lemma FullscreenTwiceRestores(w: Window)
    ensures ToggleFullscreen(ToggleFullscreen(w)) == w
  {
  }
}
