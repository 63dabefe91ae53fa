/** The history recorder: the url-changed hook appends a visit to the
    history list unless it repeats the most recent entry. */
module History {
  import opened Records

  /** No two neighbouring items are equal. */
  predicate NoRepeats(s: seq<string>) {
    forall i :: 0 < i < |s| ==> s[i - 1] != s[i]
  }

  /** No two neighbouring history entries share a url. */
  predicate NoAdjacentRepeat(h: seq<Entry>) {
    NoRepeats(Urls(h))
  }

  /** The title stored with a visit: the page title, or the url when the page
      has no title yet. */
  function TitleFor(url: string, title: string): (t: string)
    ensures t == "" ==> url == ""
    ensures title != "" ==> t == title
    ensures title == "" ==> t == url
  {
    if title != "" then title else url
  }

  /** Record a visit to `url` whose page title is `title`. */
  function Record(h: seq<Entry>, url: string, title: string): (r: seq<Entry>)
    ensures |h| <= |r| <= |h| + 1
    ensures r[..|h|] == h
    ensures |r| == |h| + 1 <==> url != "" && (h == [] || h[|h| - 1].url != url)
    ensures |r| == |h| + 1 ==> r[|h|] == Entry(TitleFor(url, title), url)
    ensures NoAdjacentRepeat(h) ==> NoAdjacentRepeat(r)
  {
    if url != "" && (h == [] || h[|h| - 1].url != url) then
      h + [Entry(TitleFor(url, title), url)]
    else
      h
  }

  /** One url-changed event: the new url and the page's title at that time. */
  datatype Visit = Visit(url: string, title: string)

  /** The history after recording every visit of `vs` in order. */
  function RecordAll(h: seq<Entry>, vs: seq<Visit>): (r: seq<Entry>)
    ensures |h| <= |r| <= |h| + |vs|
    ensures r[..|h|] == h
  {
    if vs == [] then h
    else
      var prior := RecordAll(h, vs[..|vs| - 1]);
      Record(prior, vs[|vs| - 1].url, vs[|vs| - 1].title)
  }

  /** The non-empty urls of `vs`, in order. */
  function NonEmptyUrls(vs: seq<Visit>): (u: seq<string>)
    ensures |u| <= |vs|
    ensures forall i :: 0 <= i < |u| ==> u[i] != ""
  {
    if vs == [] then []
    else
      var v := vs[|vs| - 1];
      NonEmptyUrls(vs[..|vs| - 1]) + (if v.url != "" then [v.url] else [])
  }

  /** Reference definition: `s` with every run of equal neighbours collapsed
      to a single item. */
  function Collapse(s: seq<string>): (r: seq<string>)
    ensures |r| <= |s|
    ensures s != [] ==> r != [] && r[0] == s[0] && r[|r| - 1] == s[|s| - 1]
    ensures NoRepeats(r)
  {
    if |s| <= 1 then s
    else if s[0] == s[1] then Collapse(s[1..])
    else [s[0]] + Collapse(s[1..])
  }

  /** A sequence without neighbouring repeats is its own collapse. */
  lemma {:induction false} CollapseFixesNoRepeats(s: seq<string>)
    requires NoRepeats(s)
    ensures Collapse(s) == s
  {
    if |s| > 1 {
      assert NoRepeats(s[1..]);
      CollapseFixesNoRepeats(s[1..]);
      assert s == [s[0]] + s[1..];
    }
  }

  /** Collapsing after appending one item either absorbs it into the final
      run or appends it. */
  lemma {:induction false} CollapseSnoc(s: seq<string>, x: string)
    ensures Collapse(s + [x]) ==
      if s != [] && s[|s| - 1] == x then Collapse(s) else Collapse(s) + [x]
  {
    if |s| == 0 {
      assert s + [x] == [x];
    } else if |s| == 1 {
      assert (s + [x])[1..] == [x];
    } else {
      assert (s + [x])[1..] == s[1..] + [x];
      CollapseSnoc(s[1..], x);
    }
  }

  /** Recording a visit extends the url column by at most the visited url. */
  lemma RecordUrls(h: seq<Entry>, url: string, title: string)
    ensures Urls(Record(h, url, title)) ==
      if url != "" && (h == [] || h[|h| - 1].url != url) then Urls(h) + [url] else Urls(h)
  {
  }

  /** One recording step keeps the url column equal to the collapse of
      everything visited so far. */
  lemma RecordStepCollapses(prior: seq<Entry>, s: seq<string>, v: Visit)
    requires Urls(prior) == Collapse(s)
    ensures Urls(Record(prior, v.url, v.title)) ==
      Collapse(s + (if v.url != "" then [v.url] else []))
  {
    RecordUrls(prior, v.url, v.title);
    if v.url == "" {
      assert s + [] == s;
    } else {
      CollapseSnoc(s, v.url);
      assert prior == [] <==> s == [];
      assert prior != [] ==> prior[|prior| - 1].url == s[|s| - 1];
    }
  }

  /** The history, read as a url list, is exactly the existing urls followed
      by the visited non-empty urls with consecutive repeats collapsed: the
      recorder suppresses consecutive duplicates and nothing else. */
  lemma {:induction false} RecordAllIsCollapse(h: seq<Entry>, vs: seq<Visit>)
    requires NoAdjacentRepeat(h)
    ensures Urls(RecordAll(h, vs)) == Collapse(Urls(h) + NonEmptyUrls(vs))
  {
    if vs == [] {
      assert Urls(h) + NonEmptyUrls(vs) == Urls(h);
      CollapseFixesNoRepeats(Urls(h));
    } else {
      var front := vs[..|vs| - 1];
      var v := vs[|vs| - 1];
      var s := Urls(h) + NonEmptyUrls(front);
      RecordAllIsCollapse(h, front);
      RecordStepCollapses(RecordAll(h, front), s, v);
      assert Urls(h) + NonEmptyUrls(vs) == s + (if v.url != "" then [v.url] else []);
    }
  }

  /** Repeating a url immediately is suppressed, but a url revisited after
      another one is recorded again. */
  lemma ConsecutiveVersusInterleaved(u1: string, u2: string)
    requires u1 != "" && u2 != "" && u1 != u2
    ensures |RecordAll([], [Visit(u1, ""), Visit(u1, ""), Visit(u2, "")])| == 2
    ensures |RecordAll([], [Visit(u1, ""), Visit(u2, ""), Visit(u1, "")])| == 3
  {
    var a := [Visit(u1, ""), Visit(u1, ""), Visit(u2, "")];
    assert a[..2][..1] == [Visit(u1, "")];
    assert RecordAll([], a[..2][..1]) == [Entry(u1, u1)];
    assert RecordAll([], a[..2]) == [Entry(u1, u1)];
    var b := [Visit(u1, ""), Visit(u2, ""), Visit(u1, "")];
    assert b[..2][..1] == [Visit(u1, "")];
    assert RecordAll([], b[..2][..1]) == [Entry(u1, u1)];
    assert RecordAll([], b[..2]) == [Entry(u1, u1), Entry(u2, u2)];
  }
}
