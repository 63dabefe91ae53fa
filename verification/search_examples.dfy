/** The url-or-search fallback of the smart-search classifier, in general
    and on worked inputs. */
module SearchExamples {
  import opened Text
  import opened Config
  import opened Records
  import opened SmartSearch

  /** When the text is no command and matches no bookmark or history entry,
      the classifier opens the fallback url in a new tab. */
  lemma FallbackWhenNothingMatches(text: string, bookmarks: seq<Entry>, history: seq<Entry>)
    requires text != [] && !IsCommand(Lower(text))
    requires !AnyMatch(bookmarks, text) && !AnyMatch(history, text)
    ensures Classify(text, bookmarks, history) == OpenTab(FallbackUrl(text))
  {
    ClassifyIsChosen(text, bookmarks, history, OpenTab(FallbackUrl(text)));
  }

  /** A text whose first letter is none of n, t, m or s (in either case) is
      not a command word. */
  lemma NotACommand(t: string)
    requires t != [] && LowerChar(t[0]) !in "ntms"
    ensures !IsCommand(Lower(t))
  {
    assert Lower(t)[0] == LowerChar(t[0]);
  }

  /** A text whose first letter is not a small h does not start with
      "http". */
  lemma NotHttp(t: string)
    requires t != [] && t[0] != 'h'
    ensures !StartsWith(t, "http")
  {
    if |t| >= 4 {
      assert t[..4][0] == t[0];
    }
  }

  /** A text containing a dot becomes an https url. */
  lemma DottedTextIsUrl(t: string)
    requires t == "example.com"
    ensures Classify(t, [], []) == OpenTab("https://" + t)
  {
    assert t[0] == 'e' && t[7] == '.';
    NotACommand(t);
    NotHttp(t);
    FallbackWhenNothingMatches(t, [], []);
  }

  /** A text without a dot or "http" prefix is appended, without escaping,
      to the search-engine prefix. */
  lemma PlainTextIsSearch(t: string)
    requires t == "openai docs"
    ensures Classify(t, [], []) == OpenTab(SearchPrefix + t)
  {
    assert t[0] == 'o' && '.' !in t;
    NotACommand(t);
    NotHttp(t);
    FallbackWhenNothingMatches(t, [], []);
  }

  /** A text starting with "http" is opened as it is, even without a dot. */
  lemma HttpPrefixIsKept(t: string)
    requires t == "httpbin"
    ensures Classify(t, [], []) == OpenTab(t)
  {
    assert !IsCommand(Lower(t)) by { assert Lower(t)[0] == 'h' && Lower(t)[4] == 'b'; }
    assert StartsWith(t, "http");
    FallbackWhenNothingMatches(t, [], []);
  }

  /** The "http" test is case-sensitive on the original text, so an
      upper-case scheme is given a second, "https://", prefix. */
  lemma HttpTestIsCaseSensitive(t: string)
    requires t == "HTTP://a.b"
    ensures Classify(t, [], []) == OpenTab("https://" + t)
  {
    assert !IsCommand(Lower(t)) by { assert Lower(t)[0] == 'h' && Lower(t)[4] == ':'; }
    assert t[0] == 'H' && t[8] == '.';
    NotHttp(t);
    FallbackWhenNothingMatches(t, [], []);
  }
}
