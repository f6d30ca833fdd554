/** The "main part" of a URL and the detail-page URLs built from it. */
module Urls {
  import opened Results

  /** Splits a URL at its last '/': the part before it and the part after it. */
  function SplitLast(url: string): (r: Option<(string, string)>)
    ensures r.None? <==> '/' !in url
    ensures r.Some? ==> r.value.0 + "/" + r.value.1 == url && '/' !in r.value.1
  {
    if url == [] then None
    else
      var init, last := url[..|url| - 1], url[|url| - 1];
      assert url == init + [last];
      if last == '/' then Some((init, ""))
      else match SplitLast(init)
        case None => None
        case Some((main, tail)) =>
          assert main + "/" + (tail + [last]) == (main + "/" + tail) + [last];
          Some((main, tail + [last]))
  }

  /** The URL with its last '/'-delimited segment removed; a URL without '/' is kept whole. */
  function MainPart(url: string): (r: string)
    ensures '/' !in url ==> r == url
    ensures '/' in url ==> |r| < |url| && url == r + "/" + url[|r| + 1..] && '/' !in url[|r| + 1..]
  {
    match SplitLast(url)
    case None => url
    case Some((main, last)) =>
      assert url[|main| + 1..] == last;
      main
  }

  /** A relative link resolved against a main part. */
  function Join(main: string, link: string): string
  {
    main + "/" + link
  }

  /** The URL of a municipality's detail page, relative to the listing URL: when the link has
      no '/', the detail URL splits back into the listing URL's main part and the link. */
  function DetailUrl(url: string, link: string): (r: string)
    ensures '/' !in link ==> SplitLast(r) == Some((MainPart(url), link)) && MainPart(r) == MainPart(url)
  {
    var main := MainPart(url);
    assert '/' !in link ==> SplitLast(Join(main, link)) == Some((main, link)) && MainPart(Join(main, link)) == main by {
      if '/' !in link {
        MainPartOfJoin(main, link);
      }
    }
    Join(main, link)
  }

  /** The split at the last '/' is unique: joining a main part with a slash-free segment and
      taking the main part again gives the main part back. */
  lemma MainPartOfJoin(main: string, last: string)
    requires '/' !in last
    ensures MainPart(Join(main, last)) == main
    ensures SplitLast(Join(main, last)) == Some((main, last))
  {
    var url := Join(main, last);
    assert url[|main|] == '/';
    assert url[|main| + 1..] == last;
    var r := MainPart(url);
    var tail := url[|r| + 1..];
    assert forall k :: |r| < k < |url| ==> url[k] == tail[k - |r| - 1];
    assert forall k :: |main| < k < |url| ==> url[k] == last[k - |main| - 1];
    assert url[|r|] == '/';
    assert forall k :: |r| < k < |url| ==> url[k] != '/';
    assert forall k :: |main| < k < |url| ==> url[k] != '/';
    assert |r| == |main|;
    assert url[..|main|] == main;
    var split := SplitLast(url).value;
    assert |split.0| == |main| && split.0 == main;
    assert split.1 == url[|main| + 1..];
  }
}
