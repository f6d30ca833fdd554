/** The output file, seen as the sequence of rows it holds. */
module Output {
  import opened Numbers
  import opened Records

  /** The header, written as a row of texts. */
  function HeaderRow(header: seq<string>): (row: Row)
    ensures |row| == |header|
    ensures forall i :: 0 <= i < |header| ==> row[i] == Str(header[i])
  {
    seq(|header|, i requires 0 <= i < |header| => Str(header[i]))
  }

  /** The file after appending a table: the old rows untouched, the header only when the file was
      empty (or did not exist), then every new row in order. */
  function Appended(file: seq<Row>, header: seq<string>, table: seq<Row>): (r: seq<Row>)
    ensures |r| == |file| + (if file == [] then 1 else 0) + |table|
    ensures r[..|file|] == file
    ensures file == [] ==> r[0] == HeaderRow(header)
    ensures r[|r| - |table|..] == table
  {
    file + (if file == [] then [HeaderRow(header)] else []) + table
  }

  /** Writing a table in two appends gives the same file as writing it in one. */
  lemma AppendInPieces(file: seq<Row>, header: seq<string>, t1: seq<Row>, t2: seq<Row>)
    ensures Appended(Appended(file, header, t1), header, t2) == Appended(file, header, t1 + t2)
  {
  }

  /** The text a field is written as: the decimal rendering of a code, or the text itself. */
  function FieldText(f: Field): string
  {
    match f
    case Num(n) => FormatInt(n)
    case Str(s) => s
  }

  /** The texts of a row's fields, as the CSV writer puts them on one line. */
  function RowText(row: Row): (r: seq<string>)
    ensures |r| == |row|
    ensures forall i :: 0 <= i < |row| ==> r[i] == FieldText(row[i])
  {
    seq(|row|, i requires 0 <= i < |row| => FieldText(row[i]))
  }

  /** The lines of the file, as texts. */
  function FileText(rows: seq<Row>): (r: seq<seq<string>>)
    ensures |r| == |rows|
    ensures forall i :: 0 <= i < |rows| ==> r[i] == RowText(rows[i])
  {
    seq(|rows|, i requires 0 <= i < |rows| => RowText(rows[i]))
  }

  lemma FileTextAppend(a: seq<Row>, b: seq<Row>)
    ensures FileText(a + b) == FileText(a) + FileText(b)
  {
    assert |FileText(a + b)| == |FileText(a) + FileText(b)|;
    forall i | 0 <= i < |a + b|
      ensures FileText(a + b)[i] == (FileText(a) + FileText(b))[i]
    {
      if i < |a| { assert (a + b)[i] == a[i]; } else { assert (a + b)[i] == b[i - |a|]; }
    }
  }

  /** How often a line occurs in a file. */
  function Occurrences<T(==)>(lines: seq<T>, x: T): nat
  {
    if lines == [] then 0
    else Occurrences(lines[..|lines| - 1], x) + (if lines[|lines| - 1] == x then 1 else 0)
  }

  lemma {:induction false} OccurrencesAppend<T>(a: seq<T>, b: seq<T>, x: T)
    ensures Occurrences(a + b, x) == Occurrences(a, x) + Occurrences(b, x)
    decreases |b|
  {
    if b == [] {
      assert a + b == a;
    } else {
      assert (a + b)[..|a + b| - 1] == a + b[..|b| - 1];
      OccurrencesAppend(a, b[..|b| - 1], x);
    }
  }

  lemma {:induction false} NoOccurrences<T>(lines: seq<T>, x: T)
    requires forall i :: 0 <= i < |lines| ==> lines[i] != x
    ensures Occurrences(lines, x) == 0
  {
    if lines != [] {
      NoOccurrences(lines[..|lines| - 1], x);
    }
  }

  /** A data row's first line entry is its written code, which never reads "code", so a data line
      is never the line of a header that starts with the code column. */
  lemma DataRowIsNotHeaderText(m: Lister.Municipality, data: seq<string>, header: seq<string>)
    requires |header| > 0 && header[0] == "code"
    ensures RowText(TableRow(m, data)) != RowText(HeaderRow(header))
  {
    CodeIsNotHeaderText(m.code);
    assert RowText(TableRow(m, data))[0] == FormatInt(m.code);
    assert RowText(HeaderRow(header))[0] == "code";
  }

  /** An append writes the header line once into an empty file and never into a non-empty one,
      provided no new line reads as the header. */
  lemma HeaderWrittenOnce(file: seq<Row>, header: seq<string>, table: seq<Row>)
    requires forall i :: 0 <= i < |table| ==> RowText(table[i]) != RowText(HeaderRow(header))
    ensures Occurrences(FileText(Appended(file, header, table)), RowText(HeaderRow(header))) ==
            (if file == [] then 1 else Occurrences(FileText(file), RowText(HeaderRow(header))))
  {
    var h := HeaderRow(header);
    var line := RowText(h);
    var middle: seq<Row> := if file == [] then [h] else [];
    FileTextAppend(file + middle, table);
    FileTextAppend(file, middle);
    OccurrencesAppend(FileText(file) + FileText(middle), FileText(table), line);
    OccurrencesAppend(FileText(file), FileText(middle), line);
    NoOccurrences(FileText(table), line);
    if file == [] {
      assert FileText(middle) == [line];
      assert Occurrences([line], line) == 1 by {
        assert [line][..0] == [];
      }
    } else {
      assert FileText(middle) == [];
    }
  }

  /** The output file: appending rows is the only way it changes. */
  class CsvFile {
    var rows: seq<Row>

    constructor (initial: seq<Row>)
      ensures rows == initial
    {
      rows := initial;
    }

    method WriteCsv(header: seq<string>, table: seq<Row>)
      modifies this
      ensures rows == Appended(old(rows), header, table)
    {
      if rows == [] {
        rows := rows + [HeaderRow(header)];
      }
      ghost var start := rows;
      for i := 0 to |table|
        invariant rows == start + table[..i]
      {
        assert table[..i + 1] == table[..i] + [table[i]];
        rows := rows + [table[i]];
      }
      assert table[..|table|] == table;
    }
  }
}
