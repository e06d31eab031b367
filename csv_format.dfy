/**
 * The CSV text shape both exporters write: a field is quoted, with its
 * double quotes doubled, when it holds one of the dialect's special
 * characters; fields are joined with commas; records end with a line
 * terminator.
 *
 * The reader below is the inverse used to state what the writers promise:
 * whatever they write reads back as the cells they were given.
 */
module CsvFormat {
  import opened Wrappers
  import opened Text

  /** `s` contains a character of `specials` (the regular-expression test on the field). */
  predicate HasAny(s: string, specials: set<char>) {
    exists i :: 0 <= i < |s| && s[i] in specials
  }

  /** `s.replace(/"/g, '""')`. */
  function DoubleQuotes(s: string): (r: string)
    ensures |r| >= |s|
  {
    if s == [] then []
    else (if s[0] == '"' then "\"\"" else [s[0]]) + DoubleQuotes(s[1..])
  }

  /** One field as written: quoted when it holds a special character, verbatim otherwise. */
  function Escape(s: string, specials: set<char>): string {
    if HasAny(s, specials) then "\"" + DoubleQuotes(s) + "\"" else s
  }

  function EscapeAll(fields: seq<string>, specials: set<char>): (r: seq<string>)
    ensures |r| == |fields|
    ensures forall i :: 0 <= i < |fields| ==> r[i] == Escape(fields[i], specials)
  {
    if fields == [] then [] else [Escape(fields[0], specials)] + EscapeAll(fields[1..], specials)
  }

  /** A record as written: the escaped fields joined by commas. */
  function EncodeLine(fields: seq<string>, specials: set<char>): string {
    Join(EscapeAll(fields, specials), ",")
  }

  /** Every record followed by the terminator. */
  function EncodeDocument(records: seq<seq<string>>, specials: set<char>, term: string): string {
    if records == [] then ""
    else EncodeLine(records[0], specials) + term + EncodeDocument(records[1..], specials, term)
  }

  // ---------------------------------------------------------------------
  // Rows as the exporters see them

  /** A row object: a property may be missing, or present and null. */
  type Row = map<string, Option<string>>

  /** `r[c]`: undefined for a missing property. */
  function Cell(r: Row, c: string): Option<string> {
    if c in r then r[c] else None
  }

  /** The text of each cell, null and undefined written as nothing. */
  function Texts(values: seq<Option<string>>): seq<string> {
    seq(|values|, i requires 0 <= i < |values| => values[i].GetOr(""))
  }

  /** `columns.map((c) => r[c])`. */
  function RowValues(r: Row, columns: seq<string>): seq<Option<string>> {
    seq(|columns|, i requires 0 <= i < |columns| => Cell(r, columns[i]))
  }

  /** The cell texts of every row, column by column: what a reader should get back. */
  function Table(rows: seq<Row>, columns: seq<string>): seq<seq<string>> {
    seq(|rows|, i requires 0 <= i < |rows| => Texts(RowValues(rows[i], columns)))
  }

  /** The column names as present cells. */
  function Present(columns: seq<string>): seq<Option<string>> {
    seq(|columns|, i requires 0 <= i < |columns| => Some(columns[i]))
  }

  lemma TextsOfPresent(columns: seq<string>)
    ensures Texts(Present(columns)) == columns
  {
  }

  // ---------------------------------------------------------------------
  // The reader

  /** A value read from the front of a text, and the text after it. */
  datatype Cut<T> = Cut(value: T, rest: string)

  predicate StartsWith(s: string, p: string) {
    |p| <= |s| && s[..|p|] == p
  }

  /** The body of a quoted field, after its opening quote: `""` is a quote, a lone `"` closes. */
  function ParseQuoted(s: string): (r: Option<Cut<string>>)
    ensures r.Some? ==> |r.value.rest| < |s|
  {
    if s == [] then None
    else if s[0] == '"' then
      if |s| >= 2 && s[1] == '"' then
        match ParseQuoted(s[2..])
        case Some(c) => Some(Cut("\"" + c.value, c.rest))
        case None => None
      else Some(Cut("", s[1..]))
    else
      match ParseQuoted(s[1..])
      case Some(c) => Some(Cut([s[0]] + c.value, c.rest))
      case None => None
  }

  /** An unquoted field runs up to a comma, the terminator, or the end. */
  function ParseUnquoted(s: string, term: string): (r: Cut<string>)
    ensures |r.rest| <= |s|
  {
    if s == [] || s[0] == ',' || StartsWith(s, term) then Cut("", s)
    else
      var c := ParseUnquoted(s[1..], term);
      Cut([s[0]] + c.value, c.rest)
  }

  function ParseField(s: string, term: string): (r: Option<Cut<string>>)
    ensures r.Some? ==> |r.value.rest| <= |s|
  {
    if s != [] && s[0] == '"' then ParseQuoted(s[1..]) else Some(ParseUnquoted(s, term))
  }

  /** Fields separated by commas, up to and including the terminator (or the end of the text). */
  function ParseRecord(s: string, term: string): (r: Option<Cut<seq<string>>>)
    requires term != []
    ensures r.Some? ==> |r.value.rest| <= |s| && (s != [] ==> |r.value.rest| < |s|)
    decreases |s|
  {
    match ParseField(s, term)
    case None => None
    case Some(f) =>
      if f.rest != [] && f.rest[0] == ',' then
        match ParseRecord(f.rest[1..], term)
        case Some(c) => Some(Cut([f.value] + c.value, c.rest))
        case None => None
      else if StartsWith(f.rest, term) then Some(Cut([f.value], f.rest[|term|..]))
      else if f.rest == [] then Some(Cut([f.value], []))
      else None
  }

  function ParseDocument(s: string, term: string): Option<seq<seq<string>>>
    requires term != []
    decreases |s|
  {
    if s == [] then Some([])
    else
      match ParseRecord(s, term)
      case None => None
      case Some(c) =>
        match ParseDocument(c.rest, term)
        case Some(rs) => Some([c.value] + rs)
        case None => None
  }

  // ---------------------------------------------------------------------
  // Writing then reading gives back the cells

  /** The characters that force quoting include the quote, the comma and the terminator's first character. */
  predicate Dialect(specials: set<char>, term: string) {
    && '"' in specials && ',' in specials
    && term != [] && term[0] in specials && term[0] != '"' && term[0] != ','
  }

  /** What may follow a field: nothing, a comma, or the terminator. */
  predicate FieldEnd(rest: string, term: string) {
    rest == [] || rest[0] == ',' || StartsWith(rest, term)
  }

  lemma {:induction false} QuotedRoundTrip(v: string, rest: string)
    requires rest == [] || rest[0] != '"'
    ensures ParseQuoted(DoubleQuotes(v) + "\"" + rest) == Some(Cut(v, rest))
  {
    var s := DoubleQuotes(v) + "\"" + rest;
    if v == [] {
      assert s == "\"" + rest;
      assert s[1..] == rest;
    } else if v[0] == '"' {
      assert s == "\"\"" + (DoubleQuotes(v[1..]) + "\"" + rest);
      assert s[2..] == DoubleQuotes(v[1..]) + "\"" + rest;
      QuotedRoundTrip(v[1..], rest);
      assert "\"" + v[1..] == v;
    } else {
      assert s == [v[0]] + (DoubleQuotes(v[1..]) + "\"" + rest);
      assert s[1..] == DoubleQuotes(v[1..]) + "\"" + rest;
      QuotedRoundTrip(v[1..], rest);
      assert [v[0]] + v[1..] == v;
    }
  }

  lemma {:induction false} UnquotedRoundTrip(v: string, rest: string, specials: set<char>, term: string)
    requires Dialect(specials, term) && !HasAny(v, specials) && FieldEnd(rest, term)
    ensures ParseUnquoted(v + rest, term) == Cut(v, rest)
  {
    if v == [] {
      assert v + rest == rest;
    } else {
      var s := v + rest;
      assert s[0] == v[0] && v[0] !in specials;
      assert s[1..] == v[1..] + rest;
      assert !HasAny(v[1..], specials) by {
        forall i | 0 <= i < |v[1..]| ensures v[1..][i] !in specials {
          assert v[1..][i] == v[i + 1];
        }
      }
      UnquotedRoundTrip(v[1..], rest, specials, term);
      assert [v[0]] + v[1..] == v;
    }
  }

  /** A field written by `Escape` reads back as itself, whatever follows it. */
  lemma FieldRoundTrip(v: string, rest: string, specials: set<char>, term: string)
    requires Dialect(specials, term) && FieldEnd(rest, term)
    ensures ParseField(Escape(v, specials) + rest, term) == Some(Cut(v, rest))
  {
    assert rest == [] || rest[0] != '"' by {
      if rest != [] && StartsWith(rest, term) {
        assert rest[0] == rest[..|term|][0] == term[0];
      }
    }
    if HasAny(v, specials) {
      var s := "\"" + DoubleQuotes(v) + "\"" + rest;
      assert s[1..] == DoubleQuotes(v) + "\"" + rest;
      QuotedRoundTrip(v, rest);
    } else {
      assert v != [] ==> v[0] != '"';
      assert v != [] ==> (v + rest)[0] == v[0];
      assert v == [] ==> v + rest == rest;
      UnquotedRoundTrip(v, rest, specials, term);
    }
  }

  lemma EncodeLineCons(fields: seq<string>, specials: set<char>)
    requires |fields| >= 2
    ensures EncodeLine(fields, specials) == Escape(fields[0], specials) + "," + EncodeLine(fields[1..], specials)
  {
    var parts := EscapeAll(fields, specials);
    assert parts[1..] == EscapeAll(fields[1..], specials);
  }

  /** A record written by `EncodeLine` and terminated reads back as its fields. */
  lemma {:induction false} RecordRoundTrip(fields: seq<string>, rest: string, specials: set<char>, term: string)
    requires Dialect(specials, term) && fields != []
    ensures ParseRecord(EncodeLine(fields, specials) + term + rest, term) == Some(Cut(fields, rest))
  {
    var f0 := Escape(fields[0], specials);
    if |fields| == 1 {
      assert EncodeLine(fields, specials) == f0;
      var after := term + rest;
      assert after[..|term|] == term && after[|term|..] == rest;
      assert f0 + term + rest == f0 + after;
      FieldRoundTrip(fields[0], after, specials, term);
      assert [fields[0]] == fields;
    } else {
      EncodeLineCons(fields, specials);
      var tail := EncodeLine(fields[1..], specials) + term + rest;
      var after := "," + tail;
      assert EncodeLine(fields, specials) + term + rest == f0 + after;
      assert after[1..] == tail;
      FieldRoundTrip(fields[0], after, specials, term);
      RecordRoundTrip(fields[1..], rest, specials, term);
      assert [fields[0]] + fields[1..] == fields;
    }
  }

  /** Terminated records written by `EncodeDocument` read back as the same records. */
  lemma {:induction false} DocumentRoundTrip(records: seq<seq<string>>, specials: set<char>, term: string)
    requires Dialect(specials, term)
    requires forall i :: 0 <= i < |records| ==> records[i] != []
    ensures ParseDocument(EncodeDocument(records, specials, term), term) == Some(records)
  {
    if records != [] {
      var rest := EncodeDocument(records[1..], specials, term);
      RecordRoundTrip(records[0], rest, specials, term);
      DocumentRoundTrip(records[1..], specials, term);
      assert [records[0]] + records[1..] == records;
    }
  }

  /** `lines.join(term) + term` is every line followed by the terminator. */
  lemma {:induction false} JoinTerminated(records: seq<seq<string>>, specials: set<char>, term: string)
    requires records != []
    ensures Join(EncodeLines(records, specials), term) + term == EncodeDocument(records, specials, term)
  {
    var lines := EncodeLines(records, specials);
    if |records| > 1 {
      assert lines[1..] == EncodeLines(records[1..], specials);
      JoinTerminated(records[1..], specials, term);
    } else {
      assert records[1..] == [];
    }
  }

  function EncodeLines(records: seq<seq<string>>, specials: set<char>): (r: seq<string>)
    ensures |r| == |records|
    ensures forall i :: 0 <= i < |records| ==> r[i] == EncodeLine(records[i], specials)
  {
    if records == [] then [] else [EncodeLine(records[0], specials)] + EncodeLines(records[1..], specials)
  }
}
