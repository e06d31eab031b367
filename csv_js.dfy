/**
 * The CSV writer of the page script (extension/csv.js): `csvEscape` also
 * quotes a cell holding a carriage return, and `toCsv` prefixes a byte-order
 * mark and separates (rather than terminates) lines with CR LF.
 */
module CsvJs {
  import opened Wrappers
  import opened Text
  import opened CsvFormat

  /** The characters `/[",\n\r]/` looks for. */
  const Specials: set<char> := {'"', ',', '\n', '\r'}

  const CrLf: string := "\r\n"

  const Bom: char := '\U{FEFF}'

  /** `csvEscape(value)`: null and undefined are written as nothing. */
  function CsvEscape(value: Option<string>): (cell: string)
    ensures value.None? ==> cell == ""
    ensures ParseField(cell, CrLf) == Some(Cut(value.GetOr(""), ""))
  {
    var cell := match value
      case None => ""
      case Some(s) => Escape(s, Specials);
    assert Escape("", Specials) == "";
    FieldRoundTrip(value.GetOr(""), "", Specials, CrLf);
    assert cell + "" == cell;
    cell
  }

  /** `columns.map(...csvEscape...).join(',')`: the record written as `EncodeLine` writes it. */
  function EscapeLine(values: seq<Option<string>>): (line: string)
    ensures line == EncodeLine(Texts(values), Specials)
  {
    var cells := seq(|values|, i requires 0 <= i < |values| => CsvEscape(values[i]));
    EscapedCells(values, cells);
    Join(cells, ",")
  }

  lemma EscapedCells(values: seq<Option<string>>, cells: seq<string>)
    requires cells == seq(|values|, i requires 0 <= i < |values| => CsvEscape(values[i]))
    ensures cells == EscapeAll(Texts(values), Specials)
  {
    assert Escape("", Specials) == "";
  }

  /** `toCsv(rows, columns)`. */
  function ToCsv(rows: seq<Row>, columns: seq<string>): (text: string)
    ensures text != [] && text[0] == Bom
  {
    var header := EscapeLine(Present(columns));
    var lines := seq(|rows|, i requires 0 <= i < |rows| => EscapeLine(RowValues(rows[i], columns)));
    [Bom] + Join([header] + lines, CrLf)
  }

  /** A cell escaped by `csvEscape` reads back as its text. */
  lemma CsvEscapeReadsBack(value: Option<string>, rest: string)
    requires FieldEnd(rest, CrLf)
    ensures ParseField(CsvEscape(value) + rest, CrLf) == Some(Cut(value.GetOr(""), rest))
  {
    assert Escape("", Specials) == "";
    FieldRoundTrip(value.GetOr(""), rest, Specials, CrLf);
  }

  /**
   * After the byte-order mark, the text with a final CR LF added reads back as
   * the header and one record per row.
   */
  lemma ToCsvReadsBack(rows: seq<Row>, columns: seq<string>)
    requires columns != []
    ensures ParseDocument(ToCsv(rows, columns)[1..] + CrLf, CrLf) == Some([columns] + Table(rows, columns))
  {
    var records := [columns] + Table(rows, columns);
    var header := EscapeLine(Present(columns));
    var lines := seq(|rows|, i requires 0 <= i < |rows| => EscapeLine(RowValues(rows[i], columns)));
    TextsOfPresent(columns);
    assert [header] + lines == EncodeLines(records, Specials);
    assert ToCsv(rows, columns)[1..] == Join([header] + lines, CrLf);
    JoinTerminated(records, Specials, CrLf);
    DocumentRoundTrip(records, Specials, CrLf);
  }
}
