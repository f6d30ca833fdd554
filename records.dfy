/** The output header and the per-municipality rows, read from the detail pages. */
module Records {
  import opened Results
  import opened Page
  import opened Urls
  import opened Lister

  /** The columns that precede the party columns. */
  const BaseHeader: seq<string> := ["code", "location", "registered", "envelopes", "valid"]

  /** Party-name cells of the two party tables of a detail page. */
  const PartySelectors: seq<string> := ["t1sa1 t1sb2", "t2sa1 t2sb2"]

  /** Registered voters, envelopes, valid votes, then the vote counts of both party tables. */
  const DataSelectors: seq<string> := ["sa2", "sa3", "sa6", "t1sa2 t1sb3", "t2sa2 t2sb3"]

  /** The no-break space the site uses as a thousands separator. */
  const Nbsp: char := '\U{A0}'

  /** The text with every no-break space removed. */
  function RemoveNbsp(s: string): (r: string)
    ensures Nbsp !in r
    ensures |r| <= |s|
    ensures Nbsp !in s ==> r == s
  {
    if s == [] then []
    else
      assert s == [s[0]] + s[1..];
      (if s[0] == Nbsp then [] else [s[0]]) + RemoveNbsp(s[1..])
  }

  /** Every other character keeps its number of occurrences. */
  lemma {:induction false} RemoveNbspKeepsOthers(s: string, c: char)
    requires c != Nbsp
    ensures multiset(RemoveNbsp(s))[c] == multiset(s)[c]
  {
    if s != [] {
      RemoveNbspKeepsOthers(s[1..], c);
      assert s == [s[0]] + s[1..];
    }
  }

  /** Removal works character by character, so the remaining characters keep their order. */
  lemma {:induction false} RemoveNbspAppend(a: string, b: string)
    ensures RemoveNbsp(a + b) == RemoveNbsp(a) + RemoveNbsp(b)
  {
    if a == [] {
      assert a + b == b;
    } else {
      assert (a + b)[0] == a[0] && (a + b)[1..] == a[1..] + b;
      RemoveNbspAppend(a[1..], b);
      assert RemoveNbsp(a + b) == (if a[0] == Nbsp then [] else [a[0]]) + RemoveNbsp(a[1..] + b);
    }
  }

  method PartiesList(web: Web, url: string) returns (r: Result<seq<string>>)
    ensures r.Ok? <==> url in web
    ensures r.Err? ==> r.error == FetchFailed(url)
    ensures r.Ok? ==> r.value == Texts(Select(web[url], PartySelectors))
  {
    var page := Fetch(web, url);
    if page.Err? {
      return Err(page.error);
    }
    var cells := Select(page.value, PartySelectors);
    var parties := [];
    for i := 0 to |cells|
      invariant parties == Texts(cells[..i])
    {
      TextsAppend(cells[..i], [cells[i]]);
      assert cells[..i + 1] == cells[..i] + [cells[i]];
      parties := parties + [cells[i].text];
    }
    assert cells[..|cells|] == cells;
    return Ok(parties);
  }

  /** The header of the output: the five fixed columns, then the party names of the detail
      page of `link`, in document order. */
  function HeaderFor(web: Web, url: string, link: string): (r: Result<seq<string>>)
    ensures r.Ok? <==> DetailUrl(url, link) in web
    ensures r.Err? ==> r.error == FetchFailed(DetailUrl(url, link))
    ensures r.Ok? ==>
      var parties := Select(web[DetailUrl(url, link)], PartySelectors);
      |r.value| == |BaseHeader| + |parties| &&
      r.value[..|BaseHeader|] == BaseHeader &&
      r.value[|BaseHeader|..] == Texts(parties)
  {
    match Fetch(web, DetailUrl(url, link))
    case Err(e) => Err(e)
    case Ok(doc) => Ok(BaseHeader + Texts(Select(doc, PartySelectors)))
  }

  method CsvHeader(web: Web, url: string, link: string) returns (r: Result<seq<string>>)
    ensures r == HeaderFor(web, url, link)
  {
    var header := BaseHeader;
    var page := DetailUrl(url, link);
    // The detail page is fetched once here and its contents thrown away; only a failed
    // fetch matters, since it ends the header.
    var discarded := Fetch(web, page);
    if discarded.Err? {
      return Err(discarded.error);
    }
    var parties := PartiesList(web, page);
    match parties
    case Ok(names) => return Ok(header + names);
    case Err(e) => return Err(e);
  }

  /** The cell texts with no-break spaces removed, position by position. */
  function CleanTexts(cells: seq<Cell>): (r: seq<string>)
    ensures |r| == |cells|
    ensures forall i :: 0 <= i < |cells| ==> r[i] == RemoveNbsp(cells[i].text)
  {
    seq(|cells|, i requires 0 <= i < |cells| => RemoveNbsp(cells[i].text))
  }

  lemma CleanTextsStep(cells: seq<Cell>, i: nat)
    requires i < |cells|
    ensures CleanTexts(cells[..i + 1]) == CleanTexts(cells[..i]) + [RemoveNbsp(cells[i].text)]
  {
    assert |CleanTexts(cells[..i + 1])| == |CleanTexts(cells[..i]) + [RemoveNbsp(cells[i].text)]|;
  }

  /** The values of a municipality's detail page: one per matched data cell, in document order,
      none holding a no-break space. */
  function DataFor(web: Web, url: string, link: string): (r: Result<seq<string>>)
    ensures r.Ok? <==> DetailUrl(url, link) in web
    ensures r.Err? ==> r.error == FetchFailed(DetailUrl(url, link))
    ensures r.Ok? ==>
      var cells := Select(web[DetailUrl(url, link)], DataSelectors);
      |r.value| == |cells| &&
      forall i :: 0 <= i < |cells| ==> r.value[i] == RemoveNbsp(cells[i].text) && Nbsp !in r.value[i]
  {
    match Fetch(web, DetailUrl(url, link))
    case Err(e) => Err(e)
    case Ok(doc) => Ok(CleanTexts(Select(doc, DataSelectors)))
  }

  method MunicipalityData(web: Web, url: string, link: string) returns (r: Result<seq<string>>)
    ensures r == DataFor(web, url, link)
  {
    var page := Fetch(web, DetailUrl(url, link));
    if page.Err? {
      return Err(page.error);
    }
    var cells := Select(page.value, DataSelectors);
    var data := [];
    for i := 0 to |cells|
      invariant data == CleanTexts(cells[..i])
    {
      CleanTextsStep(cells, i);
      data := data + [RemoveNbsp(cells[i].text)];
    }
    assert cells[..|cells|] == cells;
    return Ok(data);
  }

  /** A value of an output row: the integer code or a text. */
  datatype Field = Num(n: int) | Str(s: string)

  type Row = seq<Field>

  /** A row: the municipality's code and name, then its values; the link is not written. */
  function TableRow(m: Municipality, data: seq<string>): (row: Row)
    ensures |row| == 2 + |data|
    ensures row[0] == Num(m.code) && row[1] == Str(m.name)
    ensures forall i :: 0 <= i < |data| ==> row[2 + i] == Str(data[i])
  {
    [Num(m.code), Str(m.name)] + seq(|data|, i requires 0 <= i < |data| => Str(data[i]))
  }
}
