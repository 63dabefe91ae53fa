/** The smart-search classifier: turns the trimmed text of the address field
    into exactly one action, by first-match priority. */
module SmartSearch {
  import opened Wrappers
  import opened Text
  import opened Config
  import opened Records

  /** What one smart-search submission does. */
  datatype Action =
    | NoOp                    // empty input
    | ShowNotes               // toggle the current tab's notes pane
    | TogglePomodoro          // start or stop the focus timer
    | ToggleMute              // toggle the current tab's audio mute
    | Screenshot              // capture the current tab
    | OpenTab(url: string)    // open `url` in a new tab

  // ----- Reference definition (declarative) -----

  /** The lower-cased input is a reserved command word. */
  predicate IsCommand(low: string) {
    low == "note" || StartsWith(low, "timer") || low == "mute" || low == "screenshot"
  }

  /** `a` is the command the lower-cased input `low` names. */
  predicate CommandFor(low: string, a: Action) {
    || (low == "note" && a == ShowNotes)
    || (StartsWith(low, "timer") && a == TogglePomodoro)
    || (low == "mute" && a == ToggleMute)
    || (low == "screenshot" && a == Screenshot)
  }

  /** `e` matches `text`: the lower-cased text occurs in the lower-cased
      title or the lower-cased url. */
  ghost predicate Matches(e: Entry, text: string) {
    Occurs(Lower(text), Lower(e.title)) || Occurs(Lower(text), Lower(e.url))
  }

  /** Some entry of `s` matches `text`. */
  ghost predicate AnyMatch(s: seq<Entry>, text: string) {
    exists i :: 0 <= i < |s| && Matches(s[i], text)
  }

  /** `i` is the first entry of `s` that matches `text`. */
  ghost predicate FirstMatchAt(s: seq<Entry>, text: string, i: int) {
    0 <= i < |s| && Matches(s[i], text) && forall j :: 0 <= j < i ==> !Matches(s[j], text)
  }

  /** `i` is the last (most recent) entry of `s` that matches `text`. */
  ghost predicate LastMatchAt(s: seq<Entry>, text: string, i: int) {
    0 <= i < |s| && Matches(s[i], text) && forall j :: i < j < |s| ==> !Matches(s[j], text)
  }

  /** The url a text opens when it names neither a command, a bookmark nor a
      history entry, stated case by case. */
  ghost predicate FallsBackTo(text: string, url: string) {
    && (StartsWith(text, "http") ==> url == text)
    && ('.' in text && !StartsWith(text, "http") ==> url == "https://" + text)
    && ('.' !in text && !StartsWith(text, "http") ==> url == SearchPrefix + text)
  }

  /** `a` is the action the priority order prescribes: empty input does
      nothing; a command word wins; then the first matching bookmark in
      stored order; then the most recent matching history entry; then the
      url-or-search fallback. */
  ghost predicate Chosen(text: string, bookmarks: seq<Entry>, history: seq<Entry>, a: Action) {
    if text == [] then a == NoOp
    else if IsCommand(Lower(text)) then CommandFor(Lower(text), a)
    else if AnyMatch(bookmarks, text) then
      exists i :: FirstMatchAt(bookmarks, text, i) && a == OpenTab(bookmarks[i].url)
    else if AnyMatch(history, text) then
      exists i :: LastMatchAt(history, text, i) && a == OpenTab(history[i].url)
    else
      a.OpenTab? && FallsBackTo(text, a.url)
  }

  // ----- The classifier -----

  /** `e` matches the already lower-cased `low`. */
  function Hits(e: Entry, low: string): (b: bool)
    requires IsLower(low)
  {
    Contains(Lower(e.title), low) || Contains(Lower(e.url), low)
  }

  /** Scan `s` in stored order for the first entry matching `low`. */
  function FirstHit(s: seq<Entry>, low: string): (r: Option<nat>)
    requires IsLower(low)
    ensures r.Some? ==> r.value < |s| && Hits(s[r.value], low)
    ensures r.Some? ==> forall j :: 0 <= j < r.value ==> !Hits(s[j], low)
    ensures r.None? ==> forall j :: 0 <= j < |s| ==> !Hits(s[j], low)
  {
    if s == [] then None
    else if Hits(s[0], low) then Some(0)
    else
      match FirstHit(s[1..], low)
      case Some(i) =>
        assert forall j :: 1 <= j < i + 1 ==> s[j] == s[1..][j - 1];
        Some(i + 1)
      case None =>
        assert forall j :: 1 <= j < |s| ==> s[j] == s[1..][j - 1];
        None
  }

  /** Scan `s` from its last entry backwards for one matching `low`. */
  function LastHit(s: seq<Entry>, low: string): (r: Option<nat>)
    requires IsLower(low)
    ensures r.Some? ==> r.value < |s| && Hits(s[r.value], low)
    ensures r.Some? ==> forall j :: r.value < j < |s| ==> !Hits(s[j], low)
    ensures r.None? ==> forall j :: 0 <= j < |s| ==> !Hits(s[j], low)
  {
    if s == [] then None
    else if Hits(s[|s| - 1], low) then Some(|s| - 1)
    else
      var r := LastHit(s[..|s| - 1], low);
      assert forall j :: 0 <= j < |s| - 1 ==> s[j] == s[..|s| - 1][j];
      r
  }

  /** The url a text opens when nothing else matched: a text containing a
      dot or starting with "http" (case-sensitively) is a url, given an
      "https://" scheme unless it starts with "http"; anything else is
      appended verbatim to the search-engine prefix. */
  function FallbackUrl(text: string): (url: string)
    ensures FallsBackTo(text, url)
    ensures EndsWith(url, text)
    ensures StartsWith(url, "http")
  {
    if '.' in text || StartsWith(text, "http") then
      if StartsWith(text, "http") then text else "https://" + text
    else
      SearchPrefix + text
  }

  /** Classify the trimmed address-field text against the bookmarks (in
      stored order) and the history (oldest first). */
  function Classify(text: string, bookmarks: seq<Entry>, history: seq<Entry>): (a: Action)
    ensures a == NoOp <==> text == []
    ensures a.OpenTab? <==> text != [] && !IsCommand(Lower(text))
  {
    if text == [] then NoOp
    else
      var low := Lower(text);
      LowerIdempotent(text);
      if low == "note" then ShowNotes
      else if StartsWith(low, "timer") then TogglePomodoro
      else if low == "mute" then ToggleMute
      else if low == "screenshot" then Screenshot
      else match FirstHit(bookmarks, low)
        case Some(i) => OpenTab(bookmarks[i].url)
        case None =>
          match LastHit(history, low)
          case Some(i) => OpenTab(history[i].url)
          case None => OpenTab(FallbackUrl(text))
  }

  // ----- The classifier against the reference definition -----

  /** Matching on the lower-cased text is the reference notion of a match. */
  lemma HitsIsMatches(e: Entry, text: string)
    ensures IsLower(Lower(text))
    ensures Hits(e, Lower(text)) <==> Matches(e, text)
  {
    LowerIdempotent(text);
  }

  /** The classifier picks the action the priority order prescribes. */
  lemma ClassifyMeetsSpec(text: string, bookmarks: seq<Entry>, history: seq<Entry>)
    ensures Chosen(text, bookmarks, history, Classify(text, bookmarks, history))
  {
    if text != [] && !IsCommand(Lower(text)) {
      var low := Lower(text);
      LowerIdempotent(text);
      forall e | true ensures Hits(e, low) <==> Matches(e, text) {
        HitsIsMatches(e, text);
      }
      match FirstHit(bookmarks, low)
      case Some(i) =>
        assert FirstMatchAt(bookmarks, text, i);
      case None =>
        assert !AnyMatch(bookmarks, text);
        match LastHit(history, low)
        case Some(i) =>
          assert LastMatchAt(history, text, i);
        case None =>
          assert !AnyMatch(history, text);
    }
  }

  /** The priority order prescribes at most one action. */
  lemma ChosenIsUnique(text: string, bookmarks: seq<Entry>, history: seq<Entry>, a1: Action, a2: Action)
    requires Chosen(text, bookmarks, history, a1)
    requires Chosen(text, bookmarks, history, a2)
    ensures a1 == a2
  {
    if text == [] {
    } else if IsCommand(Lower(text)) {
      var low := Lower(text);
      assert !StartsWith("note", "timer") && !StartsWith("mute", "timer");
      assert "screenshot"[..5] == "scree";
      assert !StartsWith("screenshot", "timer");
    } else if AnyMatch(bookmarks, text) {
      var i1 :| FirstMatchAt(bookmarks, text, i1) && a1 == OpenTab(bookmarks[i1].url);
      var i2 :| FirstMatchAt(bookmarks, text, i2) && a2 == OpenTab(bookmarks[i2].url);
      assert !(i1 < i2) && !(i2 < i1);
    } else if AnyMatch(history, text) {
      var i1 :| LastMatchAt(history, text, i1) && a1 == OpenTab(history[i1].url);
      var i2 :| LastMatchAt(history, text, i2) && a2 == OpenTab(history[i2].url);
      assert !(i1 < i2) && !(i2 < i1);
    } else {
      if StartsWith(text, "http") {
      } else if '.' in text {
      } else {
      }
    }
  }

  /** An action is the prescribed one exactly when it is the classifier's. */
  lemma ClassifyIsChosen(text: string, bookmarks: seq<Entry>, history: seq<Entry>, a: Action)
    ensures Chosen(text, bookmarks, history, a) <==> a == Classify(text, bookmarks, history)
  {
    ClassifyMeetsSpec(text, bookmarks, history);
    if Chosen(text, bookmarks, history, a) {
      ChosenIsUnique(text, bookmarks, history, a, Classify(text, bookmarks, history));
    }
  }

  // ----- Consequences of the priority order -----

  /** A command word is obeyed whatever the bookmarks and history hold. */
  lemma CommandsBeatLookups(text: string, b1: seq<Entry>, h1: seq<Entry>, b2: seq<Entry>, h2: seq<Entry>)
    requires IsCommand(Lower(text))
    ensures CommandFor(Lower(text), Classify(text, b1, h1))
    ensures Classify(text, b1, h1) == Classify(text, b2, h2)
  {
  }

  /** "timer" is a prefix test on the lower-cased text: "timers" and "TIMER"
      both toggle the timer, even beside a bookmark titled "timer-app". */
  lemma TimerIsAPrefixCommand(history: seq<Entry>)
    ensures Classify("timers", [], history) == TogglePomodoro
    ensures Classify("TIMER", [Entry("timer-app", "https://timer.app")], history) == TogglePomodoro
  {
    assert StartsWith(Lower("timers"), "timer");
    assert Lower("TIMER") == "timer";
  }

  /** A matching bookmark wins over every history entry: the first matching
      bookmark in stored order is opened, whatever the history holds. */
  lemma BookmarkBeatsHistory(text: string, bookmarks: seq<Entry>, h1: seq<Entry>, h2: seq<Entry>, i: int)
    requires text != [] && !IsCommand(Lower(text))
    requires FirstMatchAt(bookmarks, text, i)
    ensures Classify(text, bookmarks, h1) == OpenTab(bookmarks[i].url)
    ensures Classify(text, bookmarks, h1) == Classify(text, bookmarks, h2)
  {
    ClassifyIsChosen(text, bookmarks, h1, OpenTab(bookmarks[i].url));
    ClassifyIsChosen(text, bookmarks, h2, OpenTab(bookmarks[i].url));
  }

  /** Without a bookmark match, the most recent matching history entry is
      opened. */
  lemma MostRecentHistoryWins(text: string, bookmarks: seq<Entry>, history: seq<Entry>, i: int)
    requires text != [] && !IsCommand(Lower(text))
    requires !AnyMatch(bookmarks, text)
    requires LastMatchAt(history, text, i)
    ensures Classify(text, bookmarks, history) == OpenTab(history[i].url)
  {
    ClassifyIsChosen(text, bookmarks, history, OpenTab(history[i].url));
  }
}
