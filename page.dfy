/** A parsed result page, seen as the sequence of its table cells in document order. */
module Page {
  import opened Results

  /** The first link inside a cell; its `href` attribute may be absent. */
  datatype Anchor = Anchor(href: Option<string>)

  /** A table cell: its `headers` attribute, its text and its first link, if any. */
  datatype Cell = Cell(headers: string, text: string, anchor: Option<Anchor>)

  type Document = seq<Cell>

  /** The pages the network would return, by URL; a URL not in the map cannot be fetched. */
  type Web = map<string, Document>

  function Fetch(web: Web, url: string): Result<Document>
  {
    if url in web then Ok(web[url]) else Err(FetchFailed(url))
  }

  /** The cells whose `headers` attribute equals one of the selectors, in document order. */
  function Select(doc: Document, selectors: seq<string>): (r: seq<Cell>)
    ensures |r| <= |doc|
    ensures forall c :: c in r <==> c in doc && c.headers in selectors
  {
    if doc == [] then []
    else (if doc[0].headers in selectors then [doc[0]] else []) + Select(doc[1..], selectors)
  }

  /** Selection is a filter: it distributes over concatenation, so it keeps document order. */
  lemma {:induction false} SelectAppend(a: Document, b: Document, selectors: seq<string>)
    ensures Select(a + b, selectors) == Select(a, selectors) + Select(b, selectors)
  {
    if a == [] {
      assert a + b == b;
    } else {
      assert (a + b)[1..] == a[1..] + b;
      SelectAppend(a[1..], b, selectors);
    }
  }

  /** Only the set of selectors matters, never the order in which they are given. */
  lemma {:induction false} SelectIgnoresSelectorOrder(doc: Document, s1: seq<string>, s2: seq<string>)
    requires forall x :: x in s1 <==> x in s2
    ensures Select(doc, s1) == Select(doc, s2)
  {
    if doc != [] {
      SelectIgnoresSelectorOrder(doc[1..], s1, s2);
    }
  }

  /** The text of each cell, position by position. */
  function Texts(cells: seq<Cell>): (r: seq<string>)
    ensures |r| == |cells|
    ensures forall i :: 0 <= i < |cells| ==> r[i] == cells[i].text
  {
    seq(|cells|, i requires 0 <= i < |cells| => cells[i].text)
  }

  lemma TextsAppend(a: seq<Cell>, b: seq<Cell>)
    ensures Texts(a + b) == Texts(a) + Texts(b)
  {
    assert |Texts(a + b)| == |Texts(a) + Texts(b)|;
    forall i | 0 <= i < |a + b|
      ensures Texts(a + b)[i] == (Texts(a) + Texts(b))[i]
    {
      if i < |a| { assert (a + b)[i] == a[i]; } else { assert (a + b)[i] == b[i - |a|]; }
    }
  }
}
