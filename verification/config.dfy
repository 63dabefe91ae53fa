/** Configuration constants and the settings record the controller reads. */
module Config {
  import opened Wrappers

  /** The built-in home page, used whenever the settings carry no `home_url`. */
  const HomeUrl: string := "https://www.google.com"

  /** Prefix of the search-engine URL that a free-text query is appended to. */
  const SearchPrefix: string := "https://www.google.com/search?q="

  /** The loaded settings document. `homeUrl` is `None` when the document has
      no `home_url` key (for instance when the settings file was absent). */
  datatype Settings = Settings(homeUrl: Option<string>, darkMode: bool)

  /** The home page the controller navigates to: the stored `home_url`, or
      the built-in default when the key is missing. */
  function Home(s: Settings): (h: string)
    ensures s.homeUrl.None? ==> h == HomeUrl
    ensures s.homeUrl.Some? ==> h == s.homeUrl.value
  {
    s.homeUrl.GetOr(HomeUrl)
  }
}
