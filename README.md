# Election results scraper — Dafny model

A model of the extraction-and-assembly pipeline of `Election_Scraper.py`, the scraper that
reads Czech parliamentary election results from volby.cz and appends one CSV row per
municipality to an output file. The network and the HTML parser sit at the boundary:
a page is a sequence of table cells (`Page.Cell`: its `headers` attribute, its text and
its first link), and the network is a map from URL to page (`Page.Web`); a URL missing
from the map cannot be fetched. The output file is an object holding the sequence of
rows written so far (`Output.CsvFile`). Every fatal `exit()` of the program becomes an
`Err` of `Results.Result`, carrying a `Results.Failure`.

Modules, leaf first:

- `Results`: `Option`, `Result` and the failure reasons of a run.
- `Page`: cells, pages, fetching and cell selection (`get_td_data`).
- `Urls`: the main part of a URL (`get_main_part_url`) and detail-page URLs.
- `Numbers`: the integer parse applied to municipality codes, and its inverse.
- `Lister`: municipality names, (number, link) pairs and the municipality list.
- `Records`: the header, the per-municipality values and the row layout.
- `Output`: the append-only output file (`write_csv`).
- `Scraper`: the top-level run of `__main__`, as a specification function `RunSpec` and
  as the method `Run`, which is proved to compute it and to change the file only on success.

The loops of the source (the tab loops of `get_municipality_names` and
`get_numbers_and_links`, the cell loops of `get_parties_list` and `get_municipality_data`,
the row loop of `__main__` and the row writes of `write_csv`) are methods with loop
invariants, each proved equal to a function that specifies it. The expressions of the
source (`get_main_part_url`, `get_td_data`, the zip of `get_municipalities_list`,
`get_table_data`) are functions.

Three points of the program's behaviour that the model keeps:

- Rows are built for every municipality first and written in one `write_csv` call at the
  end; a failing detail page therefore leaves the file untouched (`Scraper.Run`).
- The fatal "missing link" error arises when a non-placeholder number cell has no link
  element; a page with no number cells at all yields an empty list, which the program
  reports (the `IndexError` of `municipalities[0]`) and then ends without writing anything.
  Both paths are modelled.
- `get_csv_header` fetches the detail page twice (once without using the result, once in
  `get_parties_list`); the model performs both fetches.

## Model

| member | source | states |
|---|---|---|
| `Page.Select` | Election_Scraper.py:48-51 | the selected cells are exactly the page's cells whose `headers` value is one of the selectors, and there are no more of them than cells |
| `Page.SelectAppend` | Election_Scraper.py:48-51 | selection distributes over concatenation of pages, so matches come out in document order |
| `Page.SelectIgnoresSelectorOrder` | Election_Scraper.py:48-51 | the order in which selectors are given never changes the result: order follows the document |
| `Urls.SplitLast` | Election_Scraper.py:8 | there is a split exactly when the URL holds a '/', and then main + "/" + last is the URL with no '/' in last |
| `Urls.MainPart` | Election_Scraper.py:6-8 | a URL without '/' is returned unchanged; otherwise the URL is the result, a '/', and a segment without '/' |
| `Urls.MainPartOfJoin` | Election_Scraper.py:6-8 | the split is unique: the main part of main + "/" + last (last free of '/') is main |
| `Urls.DetailUrl` | Election_Scraper.py:22 | for a link without '/', the detail URL splits back into the listing URL's main part and the link, so it has the same main part as the listing URL (the same resolution as Election_Scraper.py:32) |
| `Numbers.ParseInt` | Election_Scraper.py:79 | a code parses exactly when it is an optional sign followed by decimal digits; the sign decides the sign of the value |
| `Numbers.ParseFormatRoundTrip` | Election_Scraper.py:79 | parsing the decimal rendering of any integer gives that integer back |
| `Numbers.FormatParseRoundTrip` | Election_Scraper.py:79 | a code written the canonical way (no superfluous leading zero, no '+', no "-0") parses to the integer whose decimal rendering it is |
| `Numbers.ParseIgnoresLeadingZero` | Election_Scraper.py:79 | a leading zero, after a '-' sign or with no sign, does not change the parsed value |
| `Numbers.ParseIgnoresPlus` | Election_Scraper.py:79 | a '+' sign does not change the parsed value |
| `Numbers.ParseNegates` | Election_Scraper.py:79 | a '-' sign negates the value of the digits after it, so these lemmas with the round trip fix the value of every accepted literal |
| `Numbers.NoDigitIsNotACode` | Election_Scraper.py:67 | no text without a digit, the placeholder "-" among them, parses as a code |
| `Numbers.CodeIsNotHeaderText` | Election_Scraper.py:96-98 | the written form of any code differs from "code", the header's first column |
| `Lister.MunicipalityNames` | Election_Scraper.py:53-59 | the names are the name cells of tab 1, then tab 2, then tab 3, each in document order; their number is the sum of the three match counts |
| `Lister.NamesOfTabs` | Election_Scraper.py:53-59 | the name list of a page is the concatenation of the three tabs' name texts |
| `Lister.Kept` | Election_Scraper.py:67 | a cell is kept exactly when it is a cell of the input whose text is not "-" |
| `Lister.KeptAppend` | Election_Scraper.py:65-67 | dropping "-" cells distributes over concatenation, so the kept cells keep scan order and multiplicity |
| `Lister.LinkOf` | Election_Scraper.py:68-70 | a cell's link is found exactly when it has a link element with a target, and is that target; no link element is the `TypeError` failure, a link without target the `KeyError` one |
| `Lister.NumbersAndLinksCharacterized` | Election_Scraper.py:61-69 | the scan succeeds exactly when every non-"-" cell has a link; it then yields, in order, the text and link of each non-"-" cell, and no text is "-" |
| `Lister.NumbersAndLinksErrorSticks` | Election_Scraper.py:68-73 | once a cell without a link is met, the scan of everything after it fails the same way: no list is returned |
| `Lister.NumbersAndLinks` | Election_Scraper.py:61-73 | the nested tab and cell loops compute the reference scan over tabs 1 to 3, stopping at the first missing link |
| `Lister.MunicipalitiesOf` | Election_Scraper.py:110 | the listing of a page succeeds exactly when every kept number cell has a link and every number paired with a name parses as an integer |
| `Lister.MunicipalitiesList` | Election_Scraper.py:75-85 | the list succeeds exactly when every paired number text is an integer; it then has min(len names, len pairs) entries, entry i being (int of number i, name i, link i); a failure is a bad code |
| `Records.RemoveNbsp` | Election_Scraper.py:26 | the result holds no no-break space, is no longer than the input, and is the input itself when it had none |
| `Records.RemoveNbspKeepsOthers` | Election_Scraper.py:26 | every other character occurs as often as in the input |
| `Records.RemoveNbspAppend` | Election_Scraper.py:26 | removal distributes over concatenation, so the remaining characters keep their order |
| `Records.PartiesList` | Election_Scraper.py:11-18 | fails exactly when the page cannot be fetched; otherwise returns the texts of the party-name cells of both party tables in document order |
| `Records.HeaderFor` | Election_Scraper.py:29-34 | the header is the fixed five columns code, location, registered, envelopes, valid, followed by the party names of the detail page, in document order; failure is the detail page's fetch failure |
| `Records.CsvHeader` | Election_Scraper.py:29-34 | the method, with its two fetches, computes `HeaderFor` |
| `Records.DataFor` | Election_Scraper.py:20-27 | one value per matched data cell of the detail page, in document order, each the cell text with no-break spaces removed |
| `Records.MunicipalityData` | Election_Scraper.py:20-27 | the cell loop computes `DataFor` |
| `Records.TableRow` | Election_Scraper.py:88-89 | a row is the municipality's code and name followed by its values, one field per value; its length is 2 plus the number of values |
| `Output.HeaderRow` | Election_Scraper.py:97 | the header row has one text field per header column, in order |
| `Output.Appended` | Election_Scraper.py:92-98 | the new file keeps the old rows unchanged, holds the header only when the old file was empty, and ends with the new rows in order |
| `Output.AppendInPieces` | Election_Scraper.py:92-98 | appending two tables one after the other gives the same file as appending them at once |
| `Output.DataRowIsNotHeaderText` | Election_Scraper.py:96-98 | the line of a data row (code, name, values) never reads as the line of a header whose first column is "code" |
| `Output.HeaderWrittenOnce` | Election_Scraper.py:96-98 | when no new line reads as the header, the file's text holds the header line exactly once after an append into an empty file, and as often as before after an append into a non-empty one |
| `Output.CsvFile.WriteCsv` | Election_Scraper.py:92-98 | the file after the call is `Appended` of the file before it |
| `Scraper.RowsForSucceeds` | Election_Scraper.py:118-122 | building the rows succeeds exactly when every municipality's detail page can be read |
| `Scraper.RowsForValues` | Election_Scraper.py:118-122 | on success there is one row per municipality, row i being the row of municipality i |
| `Scraper.BuildTable` | Election_Scraper.py:118-122 | the row loop computes the rows of all municipalities in list order, stopping at the first unreadable page |
| `Scraper.MunicipalitiesOfCharacterized` | Election_Scraper.py:110 | entry i of the listing pairs name i with the i-th non-"-" number cell (its parsed code and its link); the count is the shorter of the two lists; a kept cell without a link makes the listing fail |
| `Scraper.RunSucceeds` | Election_Scraper.py:108-123 | a successful run has a header starting with the five fixed columns followed by the party names of the first municipality's page, and exactly one row per municipality, row i being the table row of municipality i and its page's values: code, name, then one value per data cell, none holding a no-break space |
| `Scraper.RunStops` | Election_Scraper.py:108-116 | a run fails when the listing page cannot be fetched, when a kept number cell has no link, and when no municipality is listed |
| `Scraper.RunWritesHeaderOnce` | Election_Scraper.py:94-98 | after a successful run is appended, the header line occurs exactly once in a file that was empty and as often as before in one that was not |
| `Scraper.Run` | Election_Scraper.py:103-123 | the run computes `RunSpec`; on failure the file is unchanged, on success the header and rows are appended as `Appended` says |

## Left out

- HTTP fetching and HTML parsing (`requests`, BeautifulSoup in `get_soup`): a page is given as its cells and the network as a map from URL to page. Connection errors, a missing scheme and an HTTP error status all become the one failure `FetchFailed`; the program exits on the first two and crashes on the third, and both end the run.
- BeautifulSoup treats `headers` as a multi-valued attribute; the model matches a cell only when its whole `headers` value equals a selector.
- How an anchor is found inside a cell: the model stores the cell's first link directly. A missing link (`TypeError`, caught) and a link without `href` (`KeyError`, not caught) are both modelled as failures that end the run.
- `Numbers.ParseInt`: accepts only an optional sign followed by ASCII digits; Python's `int()` also accepts surrounding whitespace, underscores between digits and non-ASCII digits.
- CSV quoting and escaping by the `csv` module, and the filesystem calls (`open`, `os.path.exists`, `os.path.getsize`): the file is a sequence of rows, and a missing file is an empty one.
- `print`, `input`, the sample URL and the `.csv` file-name suffix of `__main__`: user I/O without logic.
- No check that the header and the rows have the same length: the program never enforces it, so the model does not claim it.
