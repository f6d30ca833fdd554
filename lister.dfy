/** The municipality listing: names, codes and detail links read from three tab groups. */
module Lister {
  import opened Results
  import opened Page
  import opened Numbers

  /** The listing page spreads its municipalities over three parallel tables, tabs 1 to 3. */
  type TabNumber = t: int | 1 <= t <= 3 witness 1

  const NameColumn: string := "sb2"
  const NumberColumn: string := "sb1"

  /** Text of a number cell that has no detail page. */
  const Placeholder: string := "-"

  /** The `headers` value of a column of a tab, such as "t2sa1 t2sb2". */
  function TabSelector(t: TabNumber, column: string): string
  {
    var d := (('0' as int) + t) as char;
    "t" + [d] + "sa1 t" + [d] + column
  }

  function TabCells(doc: Document, t: TabNumber, column: string): seq<Cell>
  {
    Select(doc, [TabSelector(t, column)])
  }

  /** The cells of one column of tabs 1 to k, tab after tab, each in document order. */
  function CellsUpTo(doc: Document, column: string, k: nat): seq<Cell>
    requires k <= 3
  {
    if k == 0 then [] else CellsUpTo(doc, column, k - 1) + TabCells(doc, k, column)
  }

  lemma {:induction false} CellsUpToPrefix(doc: Document, column: string, k: nat, m: nat)
    requires k <= m <= 3
    ensures |CellsUpTo(doc, column, k)| <= |CellsUpTo(doc, column, m)|
    ensures CellsUpTo(doc, column, m)[..|CellsUpTo(doc, column, k)|] == CellsUpTo(doc, column, k)
    decreases m - k
  {
    if k < m {
      CellsUpToPrefix(doc, column, k, m - 1);
    }
  }

  /** The municipality names: the name cells of tab 1, then of tab 2, then of tab 3. */
  function NamesOf(doc: Document): seq<string>
  {
    Texts(CellsUpTo(doc, NameColumn, 3))
  }

  /** One more name cell of tab t appends its text. */
  lemma NamesStepInTab(doc: Document, t: TabNumber, j: nat)
    requires j < |TabCells(doc, t, NameColumn)|
    ensures
      var done, cells := CellsUpTo(doc, NameColumn, t - 1), TabCells(doc, t, NameColumn);
      Texts(done + cells[..j + 1]) == Texts(done + cells[..j]) + [cells[j].text]
  {
    var done, cells := CellsUpTo(doc, NameColumn, t - 1), TabCells(doc, t, NameColumn);
    assert done + cells[..j + 1] == (done + cells[..j]) + [cells[j]];
    TextsAppend(done + cells[..j], [cells[j]]);
  }

  lemma TabDone(doc: Document, column: string, t: TabNumber)
    ensures CellsUpTo(doc, column, t - 1) + TabCells(doc, t, column)[..|TabCells(doc, t, column)|]
            == CellsUpTo(doc, column, t)
    ensures CellsUpTo(doc, column, t - 1) + TabCells(doc, t, column)[..0] == CellsUpTo(doc, column, t - 1)
  {
    var cells := TabCells(doc, t, column);
    assert cells[..|cells|] == cells;
  }

  /** The names of all three tabs, tab after tab. */
  lemma NamesOfTabs(doc: Document)
    ensures NamesOf(doc) == Texts(TabCells(doc, 1, NameColumn)) + Texts(TabCells(doc, 2, NameColumn))
                            + Texts(TabCells(doc, 3, NameColumn))
  {
    var t1, t2, t3 := TabCells(doc, 1, NameColumn), TabCells(doc, 2, NameColumn), TabCells(doc, 3, NameColumn);
    assert CellsUpTo(doc, NameColumn, 1) == t1;
    assert CellsUpTo(doc, NameColumn, 3) == t1 + t2 + t3;
    TextsAppend(t1, t2);
    TextsAppend(t1 + t2, t3);
  }

  method MunicipalityNames(doc: Document) returns (names: seq<string>)
    ensures names == NamesOf(doc)
    ensures names == Texts(TabCells(doc, 1, NameColumn)) + Texts(TabCells(doc, 2, NameColumn))
                     + Texts(TabCells(doc, 3, NameColumn))
    ensures |names| == |TabCells(doc, 1, NameColumn)| + |TabCells(doc, 2, NameColumn)|
                       + |TabCells(doc, 3, NameColumn)|
  {
    names := [];
    for t := 1 to 4
      invariant names == Texts(CellsUpTo(doc, NameColumn, t - 1))
    {
      var cells := TabCells(doc, t, NameColumn);
      TabDone(doc, NameColumn, t);
      for j := 0 to |cells|
        invariant names == Texts(CellsUpTo(doc, NameColumn, t - 1) + cells[..j])
      {
        NamesStepInTab(doc, t, j);
        names := names + [cells[j].text];
      }
    }
    NamesOfTabs(doc);
  }

  /** The link target of a cell, or why it cannot be read. */
  function LinkOf(c: Cell): (r: Result<string>)
    ensures r.Ok? <==> c.anchor.Some? && c.anchor.value.href.Some?
    ensures r.Ok? ==> r.value == c.anchor.value.href.value
    ensures c.anchor.None? ==> r == Err(NoAnchor(c.text))
    ensures c.anchor.Some? && c.anchor.value.href.None? ==> r == Err(NoHref(c.text))
  {
    if c.anchor.None? then Err(NoAnchor(c.text))
    else if c.anchor.value.href.None? then Err(NoHref(c.text))
    else Ok(c.anchor.value.href.value)
  }

  /** Reference definition of the (number, link) scan: placeholder cells are skipped, every other
      cell yields its text and link, and the first cell without a link stops the scan. */
  function NumbersAndLinksOf(cells: seq<Cell>): Result<seq<(string, string)>>
  {
    if cells == [] then Ok([])
    else
      match NumbersAndLinksOf(cells[..|cells| - 1])
      case Err(e) => Err(e)
      case Ok(acc) =>
        var c := cells[|cells| - 1];
        if c.text == Placeholder then Ok(acc)
        else match LinkOf(c)
          case Err(e) => Err(e)
          case Ok(href) => Ok(acc + [(c.text, href)])
  }

  /** Once the scan of a prefix has failed, the scan of the whole fails the same way. */
  lemma {:induction false} NumbersAndLinksErrorSticks(cells: seq<Cell>, k: nat)
    requires k <= |cells| && NumbersAndLinksOf(cells[..k]).Err?
    ensures NumbersAndLinksOf(cells) == NumbersAndLinksOf(cells[..k])
    decreases |cells| - k
  {
    if k < |cells| {
      var init := cells[..|cells| - 1];
      assert init[..k] == cells[..k];
      NumbersAndLinksErrorSticks(init, k);
    } else {
      assert cells[..k] == cells;
    }
  }

  /** The cells other than placeholders, in order. */
  function Kept(cells: seq<Cell>): (r: seq<Cell>)
    ensures |r| <= |cells|
    ensures forall c :: c in r <==> c in cells && c.text != Placeholder
  {
    if cells == [] then []
    else
      var init, c := cells[..|cells| - 1], cells[|cells| - 1];
      assert cells == init + [c];
      Kept(init) + (if c.text == Placeholder then [] else [c])
  }

  /** Dropping placeholders is a filter: it distributes over concatenation, so the kept cells
      stay in scan order and each occurrence is kept once. */
  lemma {:induction false} KeptAppend(a: seq<Cell>, b: seq<Cell>)
    ensures Kept(a + b) == Kept(a) + Kept(b)
    decreases |b|
  {
    if b == [] {
      assert a + b == a;
    } else {
      var init, c := b[..|b| - 1], b[|b| - 1];
      assert (a + b)[..|a + b| - 1] == a + init;
      assert (a + b)[|a + b| - 1] == c;
      KeptAppend(a, init);
    }
  }

  predicate AllKeptLinked(cells: seq<Cell>)
  {
    forall i :: 0 <= i < |cells| && cells[i].text != Placeholder ==> LinkOf(cells[i]).Ok?
  }

  /** The scan succeeds exactly when every non-placeholder cell has a link; it then returns,
      for each non-placeholder cell in order, its text and its link, and no text is "-". */
  lemma {:induction false} NumbersAndLinksCharacterized(cells: seq<Cell>)
    ensures NumbersAndLinksOf(cells).Ok? <==> AllKeptLinked(cells)
    ensures NumbersAndLinksOf(cells).Ok? ==>
      var r, kept := NumbersAndLinksOf(cells).value, Kept(cells);
      |r| == |kept| &&
      forall i :: 0 <= i < |r| ==> r[i] == (kept[i].text, LinkOf(kept[i]).value) && r[i].0 != Placeholder
  {
    if cells != [] {
      var init, c := cells[..|cells| - 1], cells[|cells| - 1];
      NumbersAndLinksCharacterized(init);
      assert forall i :: 0 <= i < |init| ==> init[i] == cells[i];
      if AllKeptLinked(cells) {
        assert AllKeptLinked(init);
      }
    }
  }

  /** One step of the scan: the scan of `cells + [c]` from the scan of `cells`. */
  lemma NumbersAndLinksStep(cells: seq<Cell>, c: Cell)
    ensures NumbersAndLinksOf(cells + [c]) ==
      match NumbersAndLinksOf(cells)
      case Err(e) => Err(e)
      case Ok(acc) =>
        if c.text == Placeholder then Ok(acc)
        else match LinkOf(c)
          case Err(e) => Err(e)
          case Ok(href) => Ok(acc + [(c.text, href)])
  {
    assert (cells + [c])[..|cells + [c]| - 1] == cells;
  }

  /** Tabs 1 to t-1 and the first j cells of tab t are a prefix of all three tabs. */
  lemma ScannedIsPrefix(doc: Document, column: string, t: TabNumber, j: nat)
    requires j <= |TabCells(doc, t, column)|
    ensures
      var scanned := CellsUpTo(doc, column, t - 1) + TabCells(doc, t, column)[..j];
      |scanned| <= |CellsUpTo(doc, column, 3)| && CellsUpTo(doc, column, 3)[..|scanned|] == scanned
  {
    var cells := TabCells(doc, t, column);
    var done := CellsUpTo(doc, column, t - 1);
    var upto := CellsUpTo(doc, column, t);
    CellsUpToPrefix(doc, column, t, 3);
    assert upto == done + cells;
    assert upto[..|done| + j] == done + cells[..j];
  }

  /** A scan that fails inside tab t fails the scan of all three tabs. */
  lemma NumbersAndLinksStopsInTab(doc: Document, t: TabNumber, j: nat, e: Failure)
    requires j < |TabCells(doc, t, NumberColumn)|
    requires NumbersAndLinksOf(CellsUpTo(doc, NumberColumn, t - 1) + TabCells(doc, t, NumberColumn)[..j + 1]) == Err(e)
    ensures NumbersAndLinksOf(CellsUpTo(doc, NumberColumn, 3)) == Err(e)
  {
    var scanned := CellsUpTo(doc, NumberColumn, t - 1) + TabCells(doc, t, NumberColumn)[..j + 1];
    ScannedIsPrefix(doc, NumberColumn, t, j + 1);
    NumbersAndLinksErrorSticks(CellsUpTo(doc, NumberColumn, 3), |scanned|);
  }

  /** The scan of the cells already done and the first j + 1 cells of the current tab, from
      that of one cell less. */
  lemma NumbersAndLinksStepInTab(done: seq<Cell>, cells: seq<Cell>, j: nat, acc: seq<(string, string)>)
    requires j < |cells| && NumbersAndLinksOf(done + cells[..j]) == Ok(acc)
    ensures
      NumbersAndLinksOf(done + cells[..j + 1]) ==
        if cells[j].text == Placeholder then Ok(acc)
        else match LinkOf(cells[j])
          case Err(e) => Err(e)
          case Ok(href) => Ok(acc + [(cells[j].text, href)])
  {
    assert done + cells[..j + 1] == (done + cells[..j]) + [cells[j]];
    NumbersAndLinksStep(done + cells[..j], cells[j]);
  }

  method NumbersAndLinks(doc: Document) returns (r: Result<seq<(string, string)>>)
    ensures r == NumbersAndLinksOf(CellsUpTo(doc, NumberColumn, 3))
  {
    var acc := [];
    for t := 1 to 4
      invariant NumbersAndLinksOf(CellsUpTo(doc, NumberColumn, t - 1)) == Ok(acc)
    {
      var cells := TabCells(doc, t, NumberColumn);
      TabDone(doc, NumberColumn, t);
      for j := 0 to |cells|
        invariant NumbersAndLinksOf(CellsUpTo(doc, NumberColumn, t - 1) + cells[..j]) == Ok(acc)
      {
        var c := cells[j];
        NumbersAndLinksStepInTab(CellsUpTo(doc, NumberColumn, t - 1), cells, j, acc);
        if c.text != Placeholder {
          var link := LinkOf(c);
          if link.Err? {
            NumbersAndLinksStopsInTab(doc, t, j, link.error);
            return Err(link.error);
          }
          acc := acc + [(c.text, link.value)];
        }
      }
    }
    return Ok(acc);
  }

  /** A municipality as listed: its integer code, its name and its detail-page link. */
  datatype Municipality = Municipality(code: int, name: string, link: string)

  function Min(a: nat, b: nat): nat
  {
    if a <= b then a else b
  }

  /** Pairs names with (number, link) entries by position, the shorter list deciding the length,
      and parses each paired number; the first number that is not an integer stops the listing. */
  function MunicipalitiesList(names: seq<string>, pairs: seq<(string, string)>): (r: Result<seq<Municipality>>)
    ensures r.Ok? <==> forall i :: 0 <= i < Min(|names|, |pairs|) ==> ParseInt(pairs[i].0).Some?
    ensures r.Err? ==> r.error.BadCode?
    ensures r.Ok? ==>
      |r.value| == Min(|names|, |pairs|) &&
      forall i :: 0 <= i < |r.value| ==>
        r.value[i] == Municipality(ParseInt(pairs[i].0).value, names[i], pairs[i].1)
  {
    if names == [] || pairs == [] then Ok([])
    else
      match ParseInt(pairs[0].0)
      case None => Err(BadCode(pairs[0].0))
      case Some(code) =>
        match MunicipalitiesList(names[1..], pairs[1..])
        case Err(e) => Err(e)
        case Ok(rest) => Ok([Municipality(code, names[0], pairs[0].1)] + rest)
  }

  /** The municipality listing of a page: it is read exactly when every non-placeholder number
      cell has a link and each of them that is paired with a name holds an integer. */
  function MunicipalitiesOf(doc: Document): (r: Result<seq<Municipality>>)
    ensures
      var cells := CellsUpTo(doc, NumberColumn, 3);
      var kept := Kept(cells);
      r.Ok? <==>
        AllKeptLinked(cells) &&
        forall i :: 0 <= i < Min(|NamesOf(doc)|, |kept|) ==> ParseInt(kept[i].text).Some?
  {
    NumbersAndLinksCharacterized(CellsUpTo(doc, NumberColumn, 3));
    match NumbersAndLinksOf(CellsUpTo(doc, NumberColumn, 3))
    case Err(e) => Err(e)
    case Ok(pairs) => MunicipalitiesList(NamesOf(doc), pairs)
  }
}
