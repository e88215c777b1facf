/** The passenger manifest as CSV, and a reader for it.
 *
 * The reader follows section 2 of RFC 4180, with records ended by a single line feed: a field is
 * either quoted, a doubled quote standing for one quote, or it contains no quote, comma, carriage
 * return or line feed.
 */
module Manifest {
  import opened Domain
  import Text

  datatype ManifestRow = ManifestRow(
    firstName: string, lastName: string, email: string, phone: Option<string>,
    seats: nat, paid: bool, status: string)

  const CSV_HEADER := ["name", "email", "phone", "seats", "paid", "status"]

  // ---- the writer ----

  predicate NeedsQuotes(value: string) {
    exists i :: 0 <= i < |value| && value[i] in {'"', ',', '\n', '\r'}
  }

  function DoubleQuotes(value: string): string {
    if value == "" then ""
    else (if value[0] == '"' then "\"\"" else [value[0]]) + DoubleQuotes(value[1..])
  }

  function CsvField(value: string): string {
    if NeedsQuotes(value) then "\"" + DoubleQuotes(value) + "\"" else value
  }

  function Join(parts: seq<string>, separator: string): string {
    if parts == [] then ""
    else if |parts| == 1 then parts[0]
    else parts[0] + separator + Join(parts[1..], separator)
  }

  function Decimal(n: nat): string {
    (if n < 10 then "" else Decimal(n / 10)) + [('0' as int + n % 10) as char]
  }

  function Name(row: ManifestRow): string {
    Text.Trim(row.firstName + " " + row.lastName)
  }

  /** The six values of a row, before any quoting. */
  function Rendered(row: ManifestRow): (fields: seq<string>)
    ensures |fields| == 6
  {
    [ Name(row),
      row.email,
      if row.phone.Some? then row.phone.value else "",
      Decimal(row.seats),
      if row.paid then "yes" else "no",
      row.status ]
  }

  function Quoted(fields: seq<string>): seq<string> {
    seq(|fields|, i requires 0 <= i < |fields| => CsvField(fields[i]))
  }

  function Record(fields: seq<string>): string {
    Join(Quoted(fields), ",")
  }

  // ---- the reader ----

  datatype Field = Field(value: string, rest: string)

  datatype Fields = Fields(values: seq<string>, rest: string)

  /** The rest of a quoted field, after its opening quote. */
  function ReadQuoted(s: string): Option<Field> {
    if s == "" then None
    else if s[0] != '"' then
      var tail := ReadQuoted(s[1..]);
      if tail.None? then None else Some(Field([s[0]] + tail.value.value, tail.value.rest))
    else if |s| > 1 && s[1] == '"' then
      var tail := ReadQuoted(s[2..]);
      if tail.None? then None else Some(Field("\"" + tail.value.value, tail.value.rest))
    else Some(Field("", s[1..]))
  }

  function ReadBare(s: string): Option<Field> {
    if s == "" || s[0] == ',' || s[0] == '\n' then Some(Field("", s))
    else if s[0] == '"' || s[0] == '\r' then None
    else
      var tail := ReadBare(s[1..]);
      if tail.None? then None else Some(Field([s[0]] + tail.value.value, tail.value.rest))
  }

  function ReadField(s: string): Option<Field> {
    if s != "" && s[0] == '"' then ReadQuoted(s[1..]) else ReadBare(s)
  }

  lemma {:induction false} QuotedShrinks(s: string)
    ensures ReadQuoted(s).Some? ==> |ReadQuoted(s).value.rest| < |s|
  {
    if s == "" {
    } else if s[0] != '"' {
      QuotedShrinks(s[1..]);
    } else if |s| > 1 && s[1] == '"' {
      QuotedShrinks(s[2..]);
    }
  }

  lemma {:induction false} BareShrinks(s: string)
    ensures ReadBare(s).Some? ==> |ReadBare(s).value.rest| <= |s|
  {
    if s != "" {
      BareShrinks(s[1..]);
    }
  }

  lemma FieldShrinks(s: string)
    ensures ReadField(s).Some? ==> |ReadField(s).value.rest| <= |s|
  {
    if s != "" && s[0] == '"' { QuotedShrinks(s[1..]); } else { BareShrinks(s); }
  }

  /** One record: fields separated by commas, ended by a line feed or the end of the file. */
  function ReadRecord(s: string): Option<Fields>
    decreases |s|
  {
    FieldShrinks(s);
    var field := ReadField(s);
    if field.None? then None
    else
      var rest := field.value.rest;
      if rest == "" then Some(Fields([field.value.value], ""))
      else if rest[0] == '\n' then Some(Fields([field.value.value], rest[1..]))
      else if rest[0] == ',' then
        var tail := ReadRecord(rest[1..]);
        if tail.None? then None else Some(Fields([field.value.value] + tail.value.values, tail.value.rest))
      else None
  }

  lemma {:induction false} RecordShrinks(s: string)
    requires s != ""
    ensures ReadRecord(s).Some? ==> |ReadRecord(s).value.rest| < |s|
    decreases |s|
  {
    FieldShrinks(s);
    var field := ReadField(s);
    if field.Some? && field.value.rest != "" && field.value.rest[0] == ',' && field.value.rest[1..] != "" {
      RecordShrinks(field.value.rest[1..]);
    }
  }

  function ReadFile(s: string): Option<seq<seq<string>>>
    decreases |s|
  {
    if s == "" then Some([])
    else
      RecordShrinks(s);
      var record := ReadRecord(s);
      if record.None? then None
      else
        var tail := ReadFile(record.value.rest);
        if tail.None? then None else Some([record.value.values] + tail.value)
  }

  // ---- reading back ----

  /** What may follow a field: the next field, the next record, or nothing. */
  predicate Follows(rest: string) {
    rest == "" || rest[0] == ',' || rest[0] == '\n'
  }

  lemma OneMoreQuotedChar(c: char, tail: string, field: Field)
    requires ReadQuoted(tail) == Some(field)
    ensures ReadQuoted((if c == '"' then "\"\"" else [c]) + tail) == Some(Field([c] + field.value, field.rest))
  {
    if c == '"' {
      assert ("\"\"" + tail)[2..] == tail;
    } else {
      assert ([c] + tail)[1..] == tail;
    }
  }

  lemma {:induction false} QuotedReadsBack(value: string, rest: string)
    requires Follows(rest)
    ensures ReadQuoted(DoubleQuotes(value) + ("\"" + rest)) == Some(Field(value, rest))
  {
    if value == "" {
      assert DoubleQuotes(value) + ("\"" + rest) == "\"" + rest;
      assert ("\"" + rest)[1..] == rest;
    } else {
      QuotedReadsBack(value[1..], rest);
      var tail := DoubleQuotes(value[1..]) + ("\"" + rest);
      OneMoreQuotedChar(value[0], tail, Field(value[1..], rest));
      assert value == [value[0]] + value[1..];
      assert DoubleQuotes(value) + ("\"" + rest) == (if value[0] == '"' then "\"\"" else [value[0]]) + tail;
    }
  }

  lemma {:induction false} BareReadsBack(value: string, rest: string)
    requires !NeedsQuotes(value) && Follows(rest)
    ensures ReadBare(value + rest) == Some(Field(value, rest))
  {
    if value == "" {
      assert value + rest == rest;
    } else {
      assert !NeedsQuotes(value[1..]) by {
        assert forall i :: 0 <= i < |value[1..]| ==> value[1..][i] == value[i + 1];
      }
      BareReadsBack(value[1..], rest);
      assert (value + rest)[1..] == value[1..] + rest;
      assert value == [value[0]] + value[1..];
      assert value[0] !in {'"', ',', '\n', '\r'};
    }
  }

  lemma QuotedFieldReadsBack(value: string, rest: string)
    requires NeedsQuotes(value) && Follows(rest)
    ensures ReadField(CsvField(value) + rest) == Some(Field(value, rest))
  {
    var inner := DoubleQuotes(value) + ("\"" + rest);
    assert CsvField(value) + rest == "\"" + inner;
    assert ("\"" + inner)[1..] == inner;
    QuotedReadsBack(value, rest);
  }

  /** Any field value at all reads back, whatever quotes, commas and line ends it contains. */
  lemma FieldReadsBack(value: string, rest: string)
    requires Follows(rest)
    ensures ReadField(CsvField(value) + rest) == Some(Field(value, rest))
  {
    if NeedsQuotes(value) {
      QuotedFieldReadsBack(value, rest);
    } else {
      BareReadsBack(value, rest);
      if value != "" {
        assert value[0] !in {'"', ',', '\n', '\r'};
        assert (value + rest)[0] == value[0];
      } else {
        assert value + rest == rest;
      }
    }
  }

  /** A value is quoted only if it needs to be. */
  lemma QuotedOnlyIfNeeded(value: string)
    ensures if '"' in value || ',' in value || '\n' in value || '\r' in value
            then |CsvField(value)| >= 2 && CsvField(value)[0] == '"' && CsvField(value)[|CsvField(value)| - 1] == '"'
            else CsvField(value) == value
  {
  }

  lemma OneMoreField(value: string, tail: string, fields: Fields)
    requires ReadRecord(tail) == Some(fields)
    ensures ReadRecord(CsvField(value) + ("," + tail)) == Some(Fields([value] + fields.values, fields.rest))
  {
    FieldReadsBack(value, "," + tail);
    assert ("," + tail)[1..] == tail;
  }

  lemma LastField(value: string, rest: string)
    ensures ReadRecord(CsvField(value) + ("\n" + rest)) == Some(Fields([value], rest))
  {
    FieldReadsBack(value, "\n" + rest);
    assert ("\n" + rest)[1..] == rest;
  }

  lemma RecordUnfolds(fields: seq<string>, rest: string)
    requires fields != []
    ensures |fields| == 1 ==> Record(fields) == CsvField(fields[0])
    ensures |fields| > 1 ==> Record(fields) + rest == CsvField(fields[0]) + ("," + (Record(fields[1..]) + rest))
  {
    assert Quoted(fields)[1..] == Quoted(fields[1..]);
  }

  lemma {:induction false} RecordReadsBack(fields: seq<string>, rest: string)
    requires fields != []
    ensures ReadRecord(Record(fields) + ("\n" + rest)) == Some(Fields(fields, rest))
    decreases |fields|
  {
    RecordUnfolds(fields, "\n" + rest);
    if |fields| == 1 {
      LastField(fields[0], rest);
      assert fields == [fields[0]];
    } else {
      RecordReadsBack(fields[1..], rest);
      OneMoreField(fields[0], Record(fields[1..]) + ("\n" + rest), Fields(fields[1..], rest));
      assert fields == [fields[0]] + fields[1..];
    }
  }

  function Records(records: seq<seq<string>>): seq<string> {
    seq(|records|, i requires 0 <= i < |records| => Record(records[i]))
  }

  lemma OneMoreRecord(fields: seq<string>, tail: string, records: seq<seq<string>>)
    requires fields != [] && ReadFile(tail) == Some(records)
    ensures ReadFile(Record(fields) + ("\n" + tail)) == Some([fields] + records)
  {
    RecordReadsBack(fields, tail);
  }

  /** The text of a file: every record ended by a line feed. */
  function FileText(records: seq<seq<string>>): string {
    Join(Records(records), "\n") + "\n"
  }

  lemma FileUnfolds(records: seq<seq<string>>)
    requires records != []
    ensures |records| == 1 ==> FileText(records) == Record(records[0]) + ("\n" + "")
    ensures |records| > 1 ==> FileText(records) == Record(records[0]) + ("\n" + FileText(records[1..]))
  {
    assert Records(records)[1..] == Records(records[1..]);
  }

  lemma {:induction false} FileReadsBack(records: seq<seq<string>>)
    requires records != [] && forall i :: 0 <= i < |records| ==> records[i] != []
    ensures ReadFile(FileText(records)) == Some(records)
    decreases |records|
  {
    FileUnfolds(records);
    if |records| == 1 {
      OneMoreRecord(records[0], "", []);
      assert records == [records[0]] + [];
    } else {
      FileReadsBack(records[1..]);
      OneMoreRecord(records[0], FileText(records[1..]), records[1..]);
      assert records == [records[0]] + records[1..];
    }
  }

  function AllRendered(rows: seq<ManifestRow>): seq<seq<string>> {
    seq(|rows|, i requires 0 <= i < |rows| => Rendered(rows[i]))
  }

  lemma LettersNeedNoQuotes(word: string)
    requires forall c :: c in word ==> 'a' <= c <= 'z'
    ensures CsvField(word) == word
  {
    assert forall i :: 0 <= i < |word| ==> word[i] in word;
  }

  lemma HeaderNeedsNoQuotes()
    ensures Record(CSV_HEADER) == Join(CSV_HEADER, ",")
  {
    forall i | 0 <= i < |CSV_HEADER| ensures CsvField(CSV_HEADER[i]) == CSV_HEADER[i] {
      LettersNeedNoQuotes(CSV_HEADER[i]);
    }
    assert Quoted(CSV_HEADER) == CSV_HEADER;
  }

  /** One line: the six values, each quoted where needed. */
  function Line(row: ManifestRow): (line: string)
    ensures line == Record(Rendered(row))
  {
    var fields := [
      CsvField(Name(row)),
      CsvField(row.email),
      CsvField(if row.phone.Some? then row.phone.value else ""),
      CsvField(Decimal(row.seats)),
      CsvField(if row.paid then "yes" else "no"),
      CsvField(row.status) ];
    assert fields == Quoted(Rendered(row));
    Join(fields, ",")
  }

  lemma OneMoreRow(rows: seq<ManifestRow>, i: nat)
    requires i < |rows|
    ensures [CSV_HEADER] + AllRendered(rows[..i + 1]) == [CSV_HEADER] + AllRendered(rows[..i]) + [Rendered(rows[i])]
    ensures Records([CSV_HEADER] + AllRendered(rows[..i + 1]))
         == Records([CSV_HEADER] + AllRendered(rows[..i])) + [Record(Rendered(rows[i]))]
  {
    assert AllRendered(rows[..i + 1]) == AllRendered(rows[..i]) + [Rendered(rows[i])];
  }

  /** The number in decimal, without leading zeros. */
  ghost predicate SaysNumber(text: string, n: nat) {
    text != "" && ReadDecimal(text) == Some(n) && (|text| > 1 ==> text[0] != '0')
  }

  lemma DecimalSays(n: nat)
    ensures SaysNumber(Decimal(n), n)
  {
    DecimalReadsBack(n);
  }

  /** What the six fields of a passenger say, in the order of the header. */
  ghost predicate Describes(fields: seq<string>, row: ManifestRow) {
    && |fields| == 6
    && fields[0] == Text.Trim(row.firstName + " " + row.lastName)
    && fields[1] == row.email
    && fields[2] == (if row.phone.Some? then row.phone.value else "")
    && SaysNumber(fields[3], row.seats)
    && fields[4] == (if row.paid then "yes" else "no")
    && fields[5] == row.status
  }

  lemma RenderedDescribes(row: ManifestRow)
    ensures Describes(Rendered(row), row)
  {
    DecimalSays(row.seats);
  }

  /** The header, and then one record for each passenger. */
  ghost predicate DescribesAll(file: seq<seq<string>>, rows: seq<ManifestRow>) {
    && |file| == 1 + |rows|
    && file[0] == ["name", "email", "phone", "seats", "paid", "status"]
    && forall i :: 0 <= i < |rows| ==> Describes(file[1 + i], rows[i])
  }

  lemma RowsDescribeAll(rows: seq<ManifestRow>)
    ensures DescribesAll([CSV_HEADER] + AllRendered(rows), rows)
  {
    var file := [CSV_HEADER] + AllRendered(rows);
    forall i | 0 <= i < |rows| ensures Describes(file[1 + i], rows[i]) {
      RenderedDescribes(rows[i]);
      assert file[1 + i] == Rendered(rows[i]);
    }
  }

  /** Reading the manifest back gives exactly the header and, per passenger, the six values in order. */
  method BuildPassengerManifestCsv(rows: seq<ManifestRow>) returns (csv: string)
    ensures ReadFile(csv) == Some([CSV_HEADER] + AllRendered(rows))
    ensures ReadFile(csv).Some? && DescribesAll(ReadFile(csv).value, rows)
    ensures csv != "" && csv[|csv| - 1] == '\n'
  {
    HeaderNeedsNoQuotes();
    var lines := [Join(CSV_HEADER, ",")];
    for i := 0 to |rows|
      invariant lines == Records([CSV_HEADER] + AllRendered(rows[..i]))
    {
      OneMoreRow(rows, i);
      lines := lines + [Line(rows[i])];
    }
    assert rows[..|rows|] == rows;
    FileReadsBack([CSV_HEADER] + AllRendered(rows));
    RowsDescribeAll(rows);
    csv := Join(lines, "\n") + "\n";
  }

  // ---- the numbers ----

  function DigitValue(c: char): Option<nat> {
    if '0' <= c <= '9' then Some(c as int - '0' as int) else None
  }

  function ReadDecimal(s: string): Option<nat> {
    if s == "" then Some(0)
    else
      var front, last := ReadDecimal(s[..|s| - 1]), DigitValue(s[|s| - 1]);
      if front.None? || last.None? then None else Some(10 * front.value + last.value)
  }

  /** The seats column is the number of seats. */
  lemma {:induction false} DecimalReadsBack(n: nat)
    ensures Decimal(n) != "" && ReadDecimal(Decimal(n)) == Some(n)
    ensures |Decimal(n)| > 1 ==> Decimal(n)[0] != '0'
    ensures n > 0 ==> Decimal(n)[0] != '0'
  {
    var front := if n < 10 then "" else Decimal(n / 10);
    if n >= 10 {
      DecimalReadsBack(n / 10);
    }
    assert Decimal(n)[..|Decimal(n)| - 1] == front;
    assert DigitValue(Decimal(n)[|Decimal(n)| - 1]) == Some(n % 10);
  }
}
