/**
 * The CSV writer of the export builder (extension/background.js):
 * `toCsvLine` quotes a cell holding a double quote, a comma or a line feed,
 * and `buildCsv` writes the header line, then every row, each followed by a
 * line feed.
 */
module ExportCsv {
  import opened Wrappers
  import opened Text
  import opened CsvFormat

  /** The characters `/[",\n]/` looks for. */
  const Specials: set<char> := {'"', ',', '\n'}

  const Newline: string := "\n"

  /** `toCsvLine(values)`: nothing for no values; otherwise, once terminated, it reads back as the cell texts. */
  function ToCsvLine(values: seq<Option<string>>): (line: string)
    ensures values == [] ==> line == ""
    ensures values != [] ==> ParseRecord(line + Newline, Newline) == Some(Cut(Texts(values), ""))
  {
    var line := EncodeLine(Texts(values), Specials);
    if values == [] then line else LineReads(Texts(values)); line
  }

  lemma LineReads(fields: seq<string>)
    requires fields != []
    ensures ParseRecord(EncodeLine(fields, Specials) + Newline, Newline) == Some(Cut(fields, ""))
  {
    var line := EncodeLine(fields, Specials);
    RecordRoundTrip(fields, "", Specials, Newline);
    assert line + Newline + "" == line + Newline;
  }

  function Lines(rows: seq<Row>, columns: seq<string>): seq<string> {
    seq(|rows|, i requires 0 <= i < |rows| => ToCsvLine(RowValues(rows[i], columns)))
  }

  /** `buildCsv(rows, columns)`. */
  function BuildCsv(rows: seq<Row>, columns: seq<string>): (text: string)
    ensures text != [] && text[|text| - 1] == '\n'
  {
    ToCsvLine(Present(columns)) + Newline + Join(Lines(rows, columns), Newline) + Newline
  }

  /** A line written by `toCsvLine`, once terminated, reads back as the cell texts. */
  lemma ToCsvLineReadsBack(values: seq<Option<string>>, rest: string)
    requires values != []
    ensures ParseRecord(ToCsvLine(values) + Newline + rest, Newline) == Some(Cut(Texts(values), rest))
  {
    RecordRoundTrip(Texts(values), rest, Specials, Newline);
  }

  lemma LinesAreEncoded(rows: seq<Row>, columns: seq<string>)
    ensures [ToCsvLine(Present(columns))] + Lines(rows, columns) == EncodeLines([columns] + Table(rows, columns), Specials)
  {
    TextsOfPresent(columns);
  }

  /** The file reads back as the header, then one record per row with each column's cell text. */
  lemma BuildCsvReadsBack(rows: seq<Row>, columns: seq<string>)
    requires rows != [] && columns != []
    ensures ParseDocument(BuildCsv(rows, columns), Newline) == Some([columns] + Table(rows, columns))
  {
    var records := [columns] + Table(rows, columns);
    var head := ToCsvLine(Present(columns));
    LinesAreEncoded(rows, columns);
    JoinCons(head, Lines(rows, columns), Newline);
    JoinTerminated(records, Specials, Newline);
    DocumentRoundTrip(records, Specials, Newline);
  }

  /** With no rows the file is the header and an empty line, which reads as one empty cell. */
  lemma BuildCsvNoRows(columns: seq<string>)
    requires columns != []
    ensures BuildCsv([], columns) == ToCsvLine(Present(columns)) + "\n\n"
    ensures ParseDocument(BuildCsv([], columns), Newline) == Some([columns, [""]])
  {
    var records := [columns, [""]];
    var head := ToCsvLine(Present(columns));
    assert Lines([], columns) == [];
    assert BuildCsv([], columns) == head + "\n" + "" + "\n";
    assert head + "\n" + "" + "\n" == head + "\n\n";
    TextsOfPresent(columns);
    assert !HasAny("", Specials);
    assert EscapeAll([""], Specials) == [""];
    assert EncodeLine([""], Specials) == "";
    assert records[1..] == [[""]] && records[1..][1..] == [];
    assert EncodeDocument([[""]], Specials, Newline) == "" + Newline + "";
    assert EncodeDocument(records, Specials, Newline) == head + Newline + ("" + Newline + "");
    assert head + Newline + ("" + Newline + "") == head + "\n\n";
    DocumentRoundTrip(records, Specials, Newline);
  }
}
