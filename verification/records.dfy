/** The record shapes kept in the controller's JSON-backed collections. */
module Records {

  /** One history or bookmark item: `{"title": ..., "url": ...}`. */
  datatype Entry = Entry(title: string, url: string)

  /** One saved-session item: `{"url": ...}`. */
  datatype SessionEntry = SessionEntry(url: string)

  /** The url column of a list of entries, in order. */
  function Urls(h: seq<Entry>): (u: seq<string>)
    ensures |u| == |h|
    ensures forall i :: 0 <= i < |h| ==> u[i] == h[i].url
  {
    seq(|h|, i requires 0 <= i < |h| => h[i].url)
  }
}
