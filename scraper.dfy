/** The whole run: list the municipalities, build the header, build one row per municipality,
    then append everything to the output file. */
module Scraper {
  import opened Results
  import opened Page
  import opened Urls
  import opened Numbers
  import opened Lister
  import opened Records
  import opened Output

  /** The row of one municipality, or why its page could not be read. */
  function RowOf(web: Web, url: string, m: Municipality): Result<Row>
  {
    match DataFor(web, url, m.link)
    case Err(e) => Err(e)
    case Ok(data) => Ok(TableRow(m, data))
  }

  /** The outcome of reading each municipality's page, in list order. */
  function RowResults(web: Web, url: string, ms: seq<Municipality>): (r: seq<Result<Row>>)
    ensures |r| == |ms| && forall i :: 0 <= i < |ms| ==> r[i] == RowOf(web, url, ms[i])
  {
    seq(|ms|, i requires 0 <= i < |ms| => RowOf(web, url, ms[i]))
  }

  /** The rows of the given municipalities, in order; the first page that cannot be fetched
      stops the run. */
  function RowsFor(web: Web, url: string, ms: seq<Municipality>): Result<seq<Row>>
  {
    Collect(RowResults(web, url, ms))
  }

  /** Building the rows succeeds exactly when every municipality's row can be built. */
  lemma RowsForSucceeds(web: Web, url: string, ms: seq<Municipality>)
    ensures RowsFor(web, url, ms).Ok? <==> forall i :: 0 <= i < |ms| ==> RowOf(web, url, ms[i]).Ok?
  {
    CollectSucceeds(RowResults(web, url, ms));
  }

  /** When building the rows succeeds, row i is the row of municipality i. */
  lemma RowsForValues(web: Web, url: string, ms: seq<Municipality>)
    requires RowsFor(web, url, ms).Ok?
    ensures |RowsFor(web, url, ms).value| == |ms|
    ensures forall i :: 0 <= i < |ms| ==>
      RowOf(web, url, ms[i]).Ok? && RowsFor(web, url, ms).value[i] == RowOf(web, url, ms[i]).value
  {
    CollectValues(RowResults(web, url, ms));
  }

  /** What a run computes from the listing URL: the header and the rows, or why it stopped. */
  function RunSpec(web: Web, url: string): Result<(seq<string>, seq<Row>)>
  {
    match Fetch(web, url)
    case Err(e) => Err(e)
    case Ok(doc) =>
      match MunicipalitiesOf(doc)
      case Err(e) => Err(e)
      case Ok(ms) =>
        if ms == [] then Err(NoMunicipalities)
        else
          match HeaderFor(web, url, ms[0].link)
          case Err(e) => Err(e)
          case Ok(header) =>
            match RowsFor(web, url, ms)
            case Err(e) => Err(e)
            case Ok(rows) => Ok((header, rows))
  }

  /** The row-building loop: one row per municipality, fetched in list order. */
  method BuildTable(web: Web, url: string, ms: seq<Municipality>) returns (r: Result<seq<Row>>)
    ensures r == RowsFor(web, url, ms)
  {
    var table := [];
    ghost var rs := RowResults(web, url, ms);
    for i := 0 to |ms|
      invariant Collect(rs[..i]) == Ok(table)
    {
      var m := ms[i];
      CollectStep(rs, i, table);
      var data := MunicipalityData(web, url, m.link);
      if data.Err? {
        CollectErrorSticks(rs, i + 1);
        return Err(data.error);
      }
      var row := TableRow(m, data.value);
      table := table + [row];
    }
    assert rs[..|ms|] == rs;
    return Ok(table);
  }

  /** The run: any failure leaves the file as it was; success appends header and rows. */
  method Run(web: Web, url: string, file: CsvFile) returns (r: Result<(seq<string>, seq<Row>)>)
    modifies file
    ensures r == RunSpec(web, url)
    ensures file.rows == if r.Ok? then Appended(old(file.rows), r.value.0, r.value.1) else old(file.rows)
  {
    var page := Fetch(web, url);
    if page.Err? {
      return Err(page.error);
    }
    var names := MunicipalityNames(page.value);
    var pairs := NumbersAndLinks(page.value);
    if pairs.Err? {
      return Err(pairs.error);
    }
    var ms := MunicipalitiesList(names, pairs.value);
    if ms.Err? {
      return Err(ms.error);
    }
    var municipalities := ms.value;
    if |municipalities| == 0 {
      return Err(NoMunicipalities);
    }
    var header := CsvHeader(web, url, municipalities[0].link);
    if header.Err? {
      return Err(header.error);
    }
    var table := BuildTable(web, url, municipalities);
    if table.Err? {
      return Err(table.error);
    }
    file.WriteCsv(header.value, table.value);
    return Ok((header.value, table.value));
  }

  /** The listing in terms of the page: entry i pairs the i-th name with the i-th non-placeholder
      number cell, and there are as many entries as the shorter of the two lists. */
  lemma MunicipalitiesOfCharacterized(doc: Document)
    ensures MunicipalitiesOf(doc).Ok? ==>
      var names, kept, ms := NamesOf(doc), Kept(CellsUpTo(doc, NumberColumn, 3)), MunicipalitiesOf(doc).value;
      AllKeptLinked(CellsUpTo(doc, NumberColumn, 3)) &&
      |ms| == Min(|names|, |kept|) &&
      forall i :: 0 <= i < |ms| ==>
        ParseInt(kept[i].text).Some? &&
        ms[i] == Municipality(ParseInt(kept[i].text).value, names[i], LinkOf(kept[i]).value)
    ensures !AllKeptLinked(CellsUpTo(doc, NumberColumn, 3)) ==> MunicipalitiesOf(doc).Err?
  {
    NumbersAndLinksCharacterized(CellsUpTo(doc, NumberColumn, 3));
  }

  /** A successful run writes the fixed header prefix followed by the party names of the first
      municipality's page, and exactly one row per listed municipality: the table row of its code,
      its name and its page's values, that is one value per data cell, none holding a no-break
      space. */
  lemma RunSucceeds(web: Web, url: string)
    requires RunSpec(web, url).Ok?
    ensures url in web && MunicipalitiesOf(web[url]).Ok?
    ensures
      var ms, header, rows := MunicipalitiesOf(web[url]).value, RunSpec(web, url).value.0, RunSpec(web, url).value.1;
      |ms| > 0 && |rows| == |ms| &&
      DetailUrl(url, ms[0].link) in web &&
      header[..5] == BaseHeader &&
      header[5..] == Texts(Select(web[DetailUrl(url, ms[0].link)], PartySelectors)) &&
      forall i :: 0 <= i < |rows| ==>
        DetailUrl(url, ms[i].link) in web &&
        rows[i] == TableRow(ms[i], DataFor(web, url, ms[i].link).value) &&
        |rows[i]| == 2 + |Select(web[DetailUrl(url, ms[i].link)], DataSelectors)| &&
        rows[i][0] == Num(ms[i].code) && rows[i][1] == Str(ms[i].name) &&
        forall k :: 2 <= k < |rows[i]| ==> rows[i][k].Str? && Nbsp !in rows[i][k].s
  {
    var ms: seq<Municipality> := MunicipalitiesOf(web[url]).value;
    RowsForValues(web, url, ms);
    var rows: seq<Row> := RunSpec(web, url).value.1;
    forall i | 0 <= i < |rows|
      ensures forall k :: 2 <= k < |rows[i]| ==> rows[i][k].Str? && Nbsp !in rows[i][k].s
    {
      var data := DataFor(web, url, ms[i].link).value;
      assert rows[i] == TableRow(ms[i], data);
      forall k | 2 <= k < |rows[i]|
        ensures rows[i][k].Str? && Nbsp !in rows[i][k].s
      {
        assert rows[i][2 + (k - 2)] == Str(data[k - 2]);
      }
    }
  }

  /** A run stops, and so writes nothing, when the listing page cannot be fetched, when a kept
      number cell has no link, or when no municipality is listed. */
  lemma RunStops(web: Web, url: string)
    ensures url !in web ==> RunSpec(web, url) == Err(FetchFailed(url))
    ensures url in web && !AllKeptLinked(CellsUpTo(web[url], NumberColumn, 3)) ==> RunSpec(web, url).Err?
    ensures url in web && MunicipalitiesOf(web[url]) == Ok([]) ==> RunSpec(web, url) == Err(NoMunicipalities)
  {
    if url in web {
      MunicipalitiesOfCharacterized(web[url]);
    }
  }

  /** Appending a successful run's output to a file adds the header line only when the file was
      empty: no data line of the run reads as the header, whose first column is "code". */
  lemma RunWritesHeaderOnce(web: Web, url: string, file: seq<Row>)
    requires RunSpec(web, url).Ok?
    ensures
      var header, rows := RunSpec(web, url).value.0, RunSpec(web, url).value.1;
      Occurrences(FileText(Appended(file, header, rows)), RowText(HeaderRow(header))) ==
        (if file == [] then 1 else Occurrences(FileText(file), RowText(HeaderRow(header))))
  {
    var header, rows := RunSpec(web, url).value.0, RunSpec(web, url).value.1;
    RunSucceeds(web, url);
    var ms := MunicipalitiesOf(web[url]).value;
    RowsForValues(web, url, ms);
    assert header[0] == header[..5][0] == "code";
    forall i | 0 <= i < |rows|
      ensures RowText(rows[i]) != RowText(HeaderRow(header))
    {
      DataRowIsNotHeaderText(ms[i], DataFor(web, url, ms[i].link).value, header);
    }
    HeaderWrittenOnce(file, header, rows);
  }
}
