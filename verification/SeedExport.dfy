/**
  The SQL seed script of tools/database/export_seed.py, and a reader of such scripts.

  The reader follows the lexical rules of SQL: a quoted string or name ends at the first quotation mark
  that is not doubled. Outside statements it goes line by line.
 */
module SeedExport {
  import opened Options
  import opened Text
  import opened PyLines
  import opened Decimal
  import opened Escaping

  // ---- Printing ----

  /** A database value; floats, dates, JSON values and values of other types come as their text. */
  datatype Value = Null | Bool(b: bool) | Int(n: int) | Float(text: string) | DateTime(iso: string) | Json(dumped: string) | Str(s: string) | Other(image: string)

  function RightTrimmed(lines: seq<string>): (r: seq<string>)
    ensures |r| == |lines|
  {
    seq(|lines|, i requires 0 <= i < |lines| => TrimRight(lines[i], PySpace))
  }

  /** What a string becomes: lines without trailing white space, joined with newlines. */
  function Normalize(s: string): string {
    Join(RightTrimmed(BareLines(s)), "\n")
  }

  function Doubled(s: string): string {
    ReplaceAll(s, '\'', "''")
  }

  function FormatVal(v: Value): string {
    match v
    case Null => "NULL"
    case Bool(b) => if b then "TRUE" else "FALSE"
    case Int(n) => OfInt(n)
    case Float(text) => text
    case DateTime(iso) => "'" + iso + "'"
    case Json(t) => "'" + Doubled(t) + "'"
    case Str(s) => "'" + Doubled(Normalize(s)) + "'"
    case Other(t) => "'" + Doubled(t) + "'"
  }

  function FormatAll(row: seq<Value>): (r: seq<string>)
    ensures |r| == |row|
  {
    seq(|row|, i requires 0 <= i < |row| => FormatVal(row[i]))
  }

  function QuoteAll(names: seq<string>): (r: seq<string>)
    ensures |r| == |names|
  {
    seq(|names|, i requires 0 <= i < |names| => "\"" + names[i] + "\"")
  }

  const HEAD := "INSERT INTO \""
  const TAIL := ") ON CONFLICT DO NOTHING;"

  function PrintRow(table: string, columns: seq<string>, row: seq<Value>): string {
    HEAD + table + "\" (" + Join(QuoteAll(columns), ", ") + ") VALUES (" + Join(FormatAll(row), ", ") + TAIL
  }

  datatype Table = Table(name: string, columns: seq<string>, rows: seq<seq<Value>>)

  function PrintRows(t: Table, n: nat): seq<string>
    requires n <= |t.rows|
  {
    if n == 0 then [] else PrintRows(t, n - 1) + [PrintRow(t.name, t.columns, t.rows[n - 1])]
  }

  function TableHeading(t: Table): string {
    "-- Table: " + t.name + " (" + OfNat(|t.rows|) + " rows)"
  }

  function TableLines(t: Table): seq<string> {
    if t.columns == [] then [] else [TableHeading(t)] + PrintRows(t, |t.rows|) + [""]
  }

  function AllTableLines(tables: seq<Table>): seq<string> {
    if tables == [] then [] else AllTableLines(tables[..|tables| - 1]) + TableLines(tables[|tables| - 1])
  }

  /** A sequence with the highest key of its table. */
  datatype Counter = Counter(name: string, highest: int)

  function CounterLine(c: Counter): string {
    "SELECT setval('" + c.name + "', " + OfInt(c.highest) + ", true);"
  }

  function CounterLines(counters: seq<Counter>): (r: seq<string>)
    ensures |r| == |counters|
  {
    seq(|counters|, i requires 0 <= i < |counters| => CounterLine(counters[i]))
  }

  /** The fixed lines before, between and after the data: comments, settings and the transaction. */
  datatype Frame = Frame(opening: seq<string>, restoring: seq<string>, closing: seq<string>)

  function ScriptLines(frame: Frame, tables: seq<Table>, counters: seq<Counter>): seq<string> {
    frame.opening + AllTableLines(tables) + (frame.restoring + (CounterLines(counters) + frame.closing))
  }

  /** The lines, each ended by a newline, in front of the text `rest`. */
  function Lay(lines: seq<string>, rest: string): string {
    if lines == [] then rest else lines[0] + ("\n" + Lay(lines[1..], rest))
  }

  /** The lines of the script and the text of the file; `counters` are the listed and the discovered sequences. */
  method Export(frame: Frame, tables: seq<Table>, counters: seq<Counter>) returns (lines: seq<string>, file: string)
    requires frame.opening != []
    ensures lines == ScriptLines(frame, tables, counters)
    ensures file == Lay(lines, "")
  {
    hide PrintRow, TableHeading, CounterLine, TableLines, Join, Lay;
    lines := frame.opening;
    for k := 0 to |tables|
      invariant lines == frame.opening + AllTableLines(tables[..k])
    {
      var section := ExportTable(tables[k]);
      assert tables[..k + 1][..k] == tables[..k];
      lines := lines + section;
    }
    assert tables[..|tables|] == tables;
    ghost var before := lines;
    lines := lines + frame.restoring;
    for i := 0 to |counters|
      invariant lines == before + (frame.restoring + CounterLines(counters)[..i])
    {
      lines := lines + [CounterLine(counters[i])];
    }
    lines := lines + frame.closing;
    file := Join(lines, "\n") + "\n";
    JoinedIsLaid(lines);
  }

  method ExportTable(t: Table) returns (lines: seq<string>)
    ensures lines == TableLines(t)
  {
    lines := [];
    if t.columns != [] {
      hide PrintRow, TableHeading;
      lines := [TableHeading(t)];
      for i := 0 to |t.rows|
        invariant lines == [TableHeading(t)] + PrintRows(t, i)
      {
        lines := lines + [PrintRow(t.name, t.columns, t.rows[i])];
      }
      lines := lines + [""];
    }
  }

  lemma {:induction false} JoinedIsLaid(lines: seq<string>)
    requires lines != []
    ensures Join(lines, "\n") + "\n" == Lay(lines, "")
  {
    if |lines| > 1 {
      JoinedIsLaid(lines[1..]);
      assert Join(lines, "\n") + "\n" == lines[0] + ("\n" + (Join(lines[1..], "\n") + "\n"));
    } else {
      assert Lay(lines[1..], "") == "";
    }
  }

  // ---- Reading ----

  datatype SqlValue = SqlNull | SqlBool(b: bool) | SqlInt(n: int) | SqlFloat(text: string) | SqlText(t: string)

  datatype Statement = Statement(table: string, columns: seq<string>, values: seq<SqlValue>)

  /** The string behind an opening quotation mark, and what follows the closing one. */
  function ReadQuoted(s: string, quote: char): (r: Option<(string, string)>)
    ensures r.Some? ==> |r.value.0| + 1 + |r.value.1| <= |s| && ((exists c :: c in r.value.0 && c == quote) ==> |r.value.0| + 1 + |r.value.1| < |s|)
  {
    if s == [] then None
    else if s[0] != quote then
      match ReadQuoted(s[1..], quote)
      case None => None
      case Some(r) => Some(([s[0]] + r.0, r.1))
    else if |s| > 1 && s[1] == quote then
      match ReadQuoted(s[2..], quote)
      case None => None
      case Some(r) => Some(([quote] + r.0, r.1))
    else Some(([], s[1..]))
  }

  predicate WordChar(c: char) {
    IsDigit(c) || 'A' <= c <= 'Z' || c == '-' || c == '+' || c == '.' || c == 'e'
  }

  predicate IsDigits(s: string) {
    s != "" && AllDigits(s)
  }

  predicate IsFraction(s: string) {
    var parts := Split(s, '.');
    |parts| == 2 && IsDigits(parts[0]) && IsDigits(parts[1])
  }

  predicate IsExponent(s: string) {
    IsDigits(s) || (s != "" && s[0] in "+-" && IsDigits(s[1..]))
  }

  predicate IsPositiveFloat(s: string) {
    var parts := Split(s, 'e');
    (|parts| == 1 && IsFraction(s)) || (|parts| == 2 && (IsFraction(parts[0]) || IsDigits(parts[0])) && IsExponent(parts[1]))
  }

  /** The text of a finite number with a fraction or an exponent. */
  predicate IsFloat(s: string) {
    IsPositiveFloat(if s != "" && s[0] == '-' then s[1..] else s)
  }

  function Word(s: string): (w: string)
    ensures |w| <= |s| && w == s[..|w|]
  {
    if s == [] || !WordChar(s[0]) then [] else [s[0]] + Word(s[1..])
  }

  lemma SplitInTwo(s: string, sep: char)
    requires |Split(s, sep)| == 2
    ensures s == Split(s, sep)[0] + [sep] + Split(s, sep)[1]
  {
    hide Split;
    JoinSplit(s, sep);
    assert Split(s, sep)[1..] == [Split(s, sep)[1]];
  }

  lemma PositiveFloatIsWord(s: string)
    requires IsPositiveFloat(s)
    ensures s != "" && IsDigit(s[0]) && (forall i :: 0 <= i < |s| ==> WordChar(s[i])) && !AllDigits(s)
  {
    hide Split;
    var parts := Split(s, 'e');
    if |parts| == 1 {
      FractionIsWord(s);
    } else {
      SplitInTwo(s, 'e');
      var mantissa, exponent := parts[0], parts[1];
      if IsFraction(mantissa) {
        FractionIsWord(mantissa);
      }
      assert s[|mantissa|] == 'e';
      forall i | 0 <= i < |s| ensures WordChar(s[i]) {
        if i > |mantissa| {
          assert s[i] == exponent[i - |mantissa| - 1];
          assert i > |mantissa| + 1 ==> s[i] == exponent[1..][i - |mantissa| - 2];
        }
      }
    }
  }

  lemma FractionIsWord(s: string)
    requires IsFraction(s)
    ensures s != "" && IsDigit(s[0]) && (forall i :: 0 <= i < |s| ==> WordChar(s[i])) && !AllDigits(s)
  {
    hide Split;
    SplitInTwo(s, '.');
    var whole, digits := Split(s, '.')[0], Split(s, '.')[1];
    assert s[|whole|] == '.';
    forall i | 0 <= i < |s| ensures WordChar(s[i]) {
      if i > |whole| {
        assert s[i] == digits[i - |whole| - 1];
      }
    }
  }

  /** The text of a float is a word that is no integer and no keyword. */
  lemma FloatIsWord(s: string)
    requires IsFloat(s)
    ensures s != "" && (IsDigit(s[0]) || s[0] == '-') && (forall i :: 0 <= i < |s| ==> WordChar(s[i])) && ToInt(s).None?
  {
    hide IsPositiveFloat;
    if s != "" && s[0] == '-' {
      PositiveFloatIsWord(s[1..]);
      assert forall i :: 0 < i < |s| ==> s[i] == s[1..][i - 1];
    } else {
      PositiveFloatIsWord(s);
    }
  }

  function ReadValue(s: string): (r: Option<(SqlValue, string)>)
    ensures r.Some? ==> |r.value.1| < |s|
  {
    if s != [] && s[0] == '\'' then
      match ReadQuoted(s[1..], '\'')
      case None => None
      case Some(r) => Some((SqlText(r.0), r.1))
    else
      var w := Word(s);
      if w == "NULL" then Some((SqlNull, s[4..]))
      else if w == "TRUE" then Some((SqlBool(true), s[4..]))
      else if w == "FALSE" then Some((SqlBool(false), s[5..]))
      else if ToInt(w).Some? then Some((SqlInt(ToInt(w).value), s[|w|..]))
      else if IsFloat(w) then
        FloatIsWord(w);
        Some((SqlFloat(w), s[|w|..]))
      else None
  }

  function ReadName(s: string): (r: Option<(string, string)>)
    ensures r.Some? ==> |r.value.1| < |s|
  {
    if s != [] && s[0] == '"' then ReadQuoted(s[1..], '"') else None
  }

  /** What follows the text p. */
  function Expect(s: string, p: string): (r: Option<string>)
    ensures r.Some? ==> s == p + r.value
  {
    if StartsWith(s, p) then Some(s[|p|..]) else None
  }

  /** A list separated by commas, read to its end. */
  function ReadList<T>(s: string, read: string -> Option<(T, string)>): (r: Option<(seq<T>, string)>)
    requires forall t :: read(t).Some? ==> |read(t).value.1| < |t|
    ensures r.Some? ==> |r.value.1| < |s|
    decreases |s|
  {
    match read(s)
    case None => None
    case Some(first) =>
      if Expect(first.1, ", ").None? then Some(([first.0], first.1))
      else
        match ReadList(Expect(first.1, ", ").value, read)
        case None => None
        case Some(others) => Some(([first.0] + others.0, others.1))
  }

  function ReadStatement(s: string): (r: Option<(Statement, string)>)
    ensures r.Some? ==> |r.value.1| < |s|
  {
    if Expect(s, HEAD).None? then None else
    var table := ReadQuoted(Expect(s, HEAD).value, '"');
    if table.None? || Expect(table.value.1, " (").None? then None else
    var columns := ReadList(Expect(table.value.1, " (").value, ReadName);
    if columns.None? || Expect(columns.value.1, ") VALUES (").None? then None else
    var values := ReadList(Expect(columns.value.1, ") VALUES (").value, ReadValue);
    if values.None? || Expect(values.value.1, TAIL).None? then None else
    Some((Statement(table.value.0, columns.value.0, values.value.0), Expect(values.value.1, TAIL).value))
  }

  /** What follows the first newline. */
  function NextLine(s: string): (r: string)
    ensures |r| <= |s| && (s != [] ==> |r| < |s|)
  {
    if s == [] then [] else if s[0] == '\n' then s[1..] else NextLine(s[1..])
  }

  function Before<T>(first: seq<T>, rest: Option<seq<T>>): Option<seq<T>> {
    match rest
    case None => None
    case Some(r) => Some(first + r)
  }

  /** The insert statements of a script, in order. */
  function ReadScript(s: string): Option<seq<Statement>>
    decreases |s|
  {
    if s == [] then Some([])
    else if !StartsWith(s, HEAD) then ReadScript(NextLine(s))
    else
      match ReadStatement(s)
      case None => None
      case Some(r) => if r.1 == [] || r.1[0] != '\n' then None else Before([r.0], ReadScript(r.1[1..]))
  }

  // ---- What the values mean ----

  function Meaning(v: Value): SqlValue {
    match v
    case Null => SqlNull
    case Bool(b) => SqlBool(b)
    case Int(n) => SqlInt(n)
    case Float(text) => SqlFloat(text)
    case DateTime(iso) => SqlText(iso)
    case Json(t) => SqlText(t)
    case Str(s) => SqlText(Normalize(s))
    case Other(t) => SqlText(t)
  }

  function MeaningAll(row: seq<Value>): (r: seq<SqlValue>)
    ensures |r| == |row|
  {
    seq(|row|, i requires 0 <= i < |row| => Meaning(row[i]))
  }

  function RowStatement(t: Table, row: seq<Value>): Statement {
    Statement(t.name, t.columns, MeaningAll(row))
  }

  function TableStatements(t: Table): seq<Statement> {
    if t.columns == [] then [] else seq(|t.rows|, i requires 0 <= i < |t.rows| => RowStatement(t, t.rows[i]))
  }

  function AllStatements(tables: seq<Table>): seq<Statement> {
    if tables == [] then [] else AllStatements(tables[..|tables| - 1]) + TableStatements(tables[|tables| - 1])
  }

  // ---- Reading one value ----

  lemma {:induction false} ReadDoubled(s: string, rest: string)
    requires rest == [] || rest[0] != '\''
    ensures ReadQuoted(Doubled(s) + "'" + rest, '\'') == Some((s, rest))
  {
    var text := Doubled(s) + "'" + rest;
    if s == [] {
      assert text == "'" + rest;
    } else {
      var others := Doubled(s[1..]) + "'" + rest;
      ReadDoubled(s[1..], rest);
      assert s == [s[0]] + s[1..];
      if s[0] == '\'' {
        assert text == "''" + others && text[2..] == others;
      } else {
        assert text == [s[0]] + others && text[1..] == others;
      }
    }
  }

  /** A name that is not doubled is read back exactly when it holds no quotation mark. */
  lemma NameRoundTrip(name: string, quote: char, rest: string)
    requires rest == [] || rest[0] != quote
    ensures ReadQuoted(name + [quote] + rest, quote) == Some((name, rest)) <==> quote !in name
  {
    if quote !in name {
      ReadUnquoted(name, quote, rest);
    }
  }

  lemma {:induction false} ReadUnquoted(name: string, quote: char, rest: string)
    requires quote !in name && (rest == [] || rest[0] != quote)
    ensures ReadQuoted(name + [quote] + rest, quote) == Some((name, rest))
  {
    var text := name + [quote] + rest;
    if name == [] {
      assert text == [quote] + rest;
    } else {
      assert text[1..] == name[1..] + [quote] + rest;
      assert name == [name[0]] + name[1..];
      ReadUnquoted(name[1..], quote, rest);
    }
  }

  lemma {:induction false} WordOf(w: string, rest: string)
    requires (forall i :: 0 <= i < |w| ==> WordChar(w[i])) && (rest == [] || !WordChar(rest[0]))
    ensures Word(w + rest) == w
  {
    if w == [] {
      assert w + rest == rest;
    } else {
      assert (w + rest)[1..] == w[1..] + rest;
      WordOf(w[1..], rest);
    }
  }

  /** What may follow a value in a list. */
  predicate EndsValue(rest: string) {
    rest != [] && rest[0] in ",)"
  }

  /** The text of a date holds no quotation mark; a float is finite. */
  predicate WellFormed(v: Value) {
    (v.DateTime? ==> '\'' !in v.iso) && (v.Float? ==> IsFloat(v.text))
  }

  /** No literal ends early, and no text is taken for NULL, a truth value or a number. */
  lemma ValueRoundTrip(v: Value, rest: string)
    requires WellFormed(v) && EndsValue(rest)
    ensures ReadValue(FormatVal(v) + rest) == Some((Meaning(v), rest))
  {
    match v
    case Null => WordOf("NULL", rest); assert ("NULL" + rest)[4..] == rest;
    case Bool(b) =>
      if b {
        WordOf("TRUE", rest);
        assert ("TRUE" + rest)[4..] == rest;
      } else {
        WordOf("FALSE", rest);
        assert ("FALSE" + rest)[5..] == rest;
      }
    case Int(n) => IntRoundTrip(n, rest);
    case Float(text) => FloatReadIff(text, rest);
    case DateTime(iso) =>
      ReadUnquoted(iso, '\'', rest);
      QuotedText(iso, iso, rest);
    case Json(t) => DoubledText(t, rest);
    case Str(s) => DoubledText(Normalize(s), rest);
    case Other(t) => DoubledText(t, rest);
  }

  lemma QuotedText(t: string, body: string, rest: string)
    requires ReadQuoted(body + "'" + rest, '\'') == Some((t, rest))
    ensures ReadValue("'" + body + "'" + rest) == Some((SqlText(t), rest))
  {
    var text := "'" + body + "'" + rest;
    assert text[0] == '\'' && text[1..] == body + "'" + rest;
  }

  lemma DoubledText(t: string, rest: string)
    requires EndsValue(rest)
    ensures ReadValue("'" + Doubled(t) + "'" + rest) == Some((SqlText(t), rest))
  {
    ReadDoubled(t, rest);
    QuotedText(t, Doubled(t), rest);
  }

  lemma IntRoundTrip(n: int, rest: string)
    requires EndsValue(rest)
    ensures ReadValue(OfInt(n) + rest) == Some((SqlInt(n), rest))
  {
    var w := OfInt(n);
    WordOf(w, rest);
    ToIntOfInt(n);
    assert (w + rest)[|w|..] == rest && (w + rest)[0] == w[0];
    assert "NULL"[0] == 'N' && "TRUE"[0] == 'T' && "FALSE"[0] == 'F';
  }

  /** A float is read as itself exactly when its text has the form of a finite one. */
  lemma FloatReadIff(text: string, rest: string)
    requires EndsValue(rest)
    ensures ReadValue(text + rest) == Some((SqlFloat(text), rest)) <==> IsFloat(text)
  {
    hide IsFloat, ToInt;
    if IsFloat(text) {
      FloatIsWord(text);
      WordOf(text, rest);
      assert (text + rest)[|text|..] == rest && (text + rest)[0] == text[0];
      assert "NULL"[0] == 'N' && "TRUE"[0] == 'T' && "FALSE"[0] == 'F';
    }
  }

  /** Python prints the float that is no number as a bare `nan`, which is no SQL value. */
  lemma NanIsUnreadable(rest: string)
    ensures ReadValue("nan" + rest).None?
  {
    var s := "nan" + rest;
    assert s[0] == 'n' && Word(s) == "";
    assert ToInt("").None? && !IsFloat("") by { NothingIsNoFloat(); }
  }

  lemma NothingIsNoFloat()
    ensures !IsFloat("")
  {
    assert Split("", 'e') == [""] && Split("", '.') == [""];
  }

  // ---- Reading lists ----

  /** A list of printed parts is read back, if every part is whatever follows it. */
  lemma {:induction false} ListRoundTrip<T>(parts: seq<string>, values: seq<T>, read: string -> Option<(T, string)>, rest: string)
    requires |parts| == |values| > 0 && rest != [] && rest[0] == ')'
    requires forall t :: read(t).Some? ==> |read(t).value.1| < |t|
    requires forall i, r | 0 <= i < |parts| && EndsValue(r) :: read(parts[i] + r) == Some((values[i], r))
    ensures ReadList(Join(parts, ", ") + rest, read) == Some((values, rest))
  {
    var s := Join(parts, ", ") + rest;
    if |parts| == 1 {
      assert EndsValue(rest) && Join(parts, ", ") == parts[0] && values == [values[0]];
      if StartsWith(rest, ", ") {
        StartsWithFirst(rest, ", ");
      }
      assert read(parts[0] + rest) == Some((values[0], rest));
    } else {
      var others := Join(parts[1..], ", ") + rest;
      var tail := ", " + others;
      assert s == parts[0] + tail && tail[..2] == ", " && tail[2..] == others;
      assert EndsValue(tail);
      assert read(parts[0] + tail) == Some((values[0], tail));
      forall i, r | 0 <= i < |parts[1..]| && EndsValue(r) ensures read(parts[1..][i] + r) == Some((values[1..][i], r)) {
        assert read(parts[i + 1] + r) == Some((values[i + 1], r));
      }
      ListRoundTrip(parts[1..], values[1..], read, rest);
      ExpectFound(", ", others);
      assert values == [values[0]] + values[1..];
    }
  }

  predicate WellFormedRow(row: seq<Value>) {
    forall i :: 0 <= i < |row| ==> WellFormed(row[i])
  }

  lemma ValuesRoundTrip(row: seq<Value>, rest: string)
    requires row != [] && WellFormedRow(row) && rest != [] && rest[0] == ')'
    ensures ReadList(Join(FormatAll(row), ", ") + rest, ReadValue) == Some((MeaningAll(row), rest))
  {
    forall i, r | 0 <= i < |row| && EndsValue(r) ensures ReadValue(FormatAll(row)[i] + r) == Some((MeaningAll(row)[i], r)) {
      ValueRoundTrip(row[i], r);
    }
    hide ReadValue, FormatVal, Meaning;
    ListRoundTrip(FormatAll(row), MeaningAll(row), ReadValue, rest);
  }

  predicate PlainNames(names: seq<string>) {
    forall i :: 0 <= i < |names| ==> '"' !in names[i]
  }

  lemma NamesRoundTrip(names: seq<string>, rest: string)
    requires names != [] && PlainNames(names) && rest != [] && rest[0] == ')'
    ensures ReadList(Join(QuoteAll(names), ", ") + rest, ReadName) == Some((names, rest))
  {
    forall i, r | 0 <= i < |names| && EndsValue(r) ensures ReadName(QuoteAll(names)[i] + r) == Some((names[i], r)) {
      var text := QuoteAll(names)[i] + r;
      assert text[0] == '"' && text[1..] == names[i] + "\"" + r;
      ReadUnquoted(names[i], '"', r);
    }
    hide ReadName;
    ListRoundTrip(QuoteAll(names), names, ReadName, rest);
  }

  lemma StartsWithFirst(s: string, p: string)
    requires p != [] && StartsWith(s, p)
    ensures s != [] && s[0] == p[0]
  {
    assert s[0] == s[..|p|][0];
  }

  lemma ExpectFound(p: string, rest: string)
    ensures Expect(p + rest, p) == Some(rest)
  {
  }

  // ---- Reading statements ----

  /** The newline of the comment over a table must stay the only one. */
  predicate WellFormedTable(t: Table) {
    '"' !in t.name && '\n' !in t.name && PlainNames(t.columns) &&
    forall i :: 0 <= i < |t.rows| ==> |t.rows[i]| == |t.columns| && WellFormedRow(t.rows[i])
  }

  lemma RowRoundTrip(t: Table, i: nat, rest: string)
    requires WellFormedTable(t) && t.columns != [] && i < |t.rows|
    ensures ReadStatement(PrintRow(t.name, t.columns, t.rows[i]) + rest) == Some((RowStatement(t, t.rows[i]), rest))
  {
    hide ReadQuoted, ReadValue, ReadName, ReadList, Join, Expect, FormatAll, QuoteAll;
    var row := t.rows[i];
    var names, values := Join(QuoteAll(t.columns), ", "), Join(FormatAll(row), ", ");
    var s4 := values + (TAIL + rest);
    var s3 := names + (") VALUES (" + s4);
    var s2 := " (" + s3;
    var s1 := t.name + ['"'] + s2;
    assert PrintRow(t.name, t.columns, row) + rest == HEAD + s1;
    ExpectFound(HEAD, s1);
    ReadUnquoted(t.name, '"', s2);
    ExpectFound(" (", s3);
    NamesRoundTrip(t.columns, ") VALUES (" + s4);
    ExpectFound(") VALUES (", s4);
    ValuesRoundTrip(row, TAIL + rest);
    ExpectFound(TAIL, rest);
  }

  lemma {:induction false} LayConcat(a: seq<string>, b: seq<string>, rest: string)
    ensures Lay(a + b, rest) == Lay(a, Lay(b, rest))
  {
    if a == [] {
      assert a + b == b;
    } else {
      assert (a + b)[1..] == a[1..] + b;
      LayConcat(a[1..], b, rest);
    }
  }

  lemma LayOne(line: string, rest: string)
    ensures Lay([line], rest) == line + ("\n" + rest)
  {
  }

  /** A line that is no statement and is passed over as a whole. */
  predicate Skipped(line: string) {
    '\n' !in line && (line == "" || line[0] != 'I')
  }

  predicate SkippedAll(lines: seq<string>) {
    forall i :: 0 <= i < |lines| ==> Skipped(lines[i])
  }

  lemma {:induction false} NextLineOf(line: string, rest: string)
    requires '\n' !in line
    ensures NextLine(line + ("\n" + rest)) == rest
  {
    var s := line + ("\n" + rest);
    if line == [] {
      assert s[1..] == rest;
    } else {
      assert s[1..] == line[1..] + ("\n" + rest);
      NextLineOf(line[1..], rest);
    }
  }

  lemma SkipLine(line: string, rest: string)
    requires Skipped(line)
    ensures ReadScript(line + ("\n" + rest)) == ReadScript(rest)
  {
    var s := line + ("\n" + rest);
    NextLineOf(line, rest);
    assert HEAD[0] == 'I';
    if StartsWith(s, HEAD) {
      StartsWithFirst(s, HEAD);
    }
  }

  lemma {:induction false} SkipLines(lines: seq<string>, rest: string)
    requires SkippedAll(lines)
    ensures ReadScript(Lay(lines, rest)) == ReadScript(rest)
  {
    if lines != [] {
      hide Skipped, ReadScript;
      SkipLine(lines[0], Lay(lines[1..], rest));
      SkipLines(lines[1..], rest);
    }
  }

  lemma RowStartsWithHead(t: Table, i: nat, rest: string)
    requires i < |t.rows|
    ensures StartsWith(PrintRow(t.name, t.columns, t.rows[i]) + rest, HEAD)
  {
    hide FormatAll, QuoteAll, Join;
  }

  lemma ReadRow(t: Table, i: nat, rest: string)
    requires WellFormedTable(t) && t.columns != [] && i < |t.rows|
    ensures ReadScript(PrintRow(t.name, t.columns, t.rows[i]) + ("\n" + rest)) == Before([RowStatement(t, t.rows[i])], ReadScript(rest))
  {
    hide ReadStatement, PrintRow, WellFormedTable;
    RowStartsWithHead(t, i, "\n" + rest);
    RowRoundTrip(t, i, "\n" + rest);
    assert ("\n" + rest)[1..] == rest;
  }

  lemma {:induction false} ReadRows(t: Table, n: nat, rest: string)
    requires WellFormedTable(t) && t.columns != [] && n <= |t.rows|
    ensures ReadScript(Lay(PrintRows(t, n), rest)) == Before(TableStatements(t)[..n], ReadScript(rest))
  {
    hide PrintRow, ReadScript, RowStatement, WellFormedTable;
    if n == 0 {
      assert Before([], ReadScript(rest)) == ReadScript(rest) by { BeforeNothing(ReadScript(rest)); }
    } else {
      var line := PrintRow(t.name, t.columns, t.rows[n - 1]);
      LayConcat(PrintRows(t, n - 1), [line], rest);
      LayOne(line, rest);
      ReadRow(t, n - 1, rest);
      ReadRows(t, n - 1, line + ("\n" + rest));
      BeforeTwice(TableStatements(t)[..n - 1], [RowStatement(t, t.rows[n - 1])], ReadScript(rest));
      assert TableStatements(t)[..n] == TableStatements(t)[..n - 1] + [RowStatement(t, t.rows[n - 1])];
    }
  }

  lemma BeforeNothing<T>(rest: Option<seq<T>>)
    ensures Before([], rest) == rest
  {
    if rest.Some? {
      assert [] + rest.value == rest.value;
    }
  }

  lemma BeforeTwice<T>(a: seq<T>, b: seq<T>, rest: Option<seq<T>>)
    ensures Before(a, Before(b, rest)) == Before(a + b, rest)
  {
    if rest.Some? {
      assert a + (b + rest.value) == a + b + rest.value;
    }
  }

  lemma DigitsAreOneLine(s: string)
    requires AllDigits(s)
    ensures '\n' !in s
  {
  }

  lemma HeadingSkipped(t: Table)
    requires '\n' !in t.name
    ensures Skipped(TableHeading(t))
  {
    DigitsAreOneLine(OfNat(|t.rows|));
    assert TableHeading(t)[0] == "-- Table: "[0];
  }

  lemma ReadTable(t: Table, rest: string)
    requires WellFormedTable(t)
    ensures ReadScript(Lay(TableLines(t), rest)) == Before(TableStatements(t), ReadScript(rest))
  {
    if t.columns == [] {
      BeforeNothing(ReadScript(rest));
    } else {
      HeadingSkipped(t);
      assert Skipped("");
      hide PrintRow, ReadScript, WellFormedTable, TableHeading, PrintRows, Skipped;
      var heading, rows := TableHeading(t), PrintRows(t, |t.rows|);
      LayConcat([heading] + rows, [""], rest);
      LayConcat([heading], rows, Lay([""], rest));
      LayOne(heading, Lay(rows, Lay([""], rest)));
      SkipLine(heading, Lay(rows, Lay([""], rest)));
      ReadRows(t, |t.rows|, Lay([""], rest));
      LayOne("", rest);
      SkipLine("", rest);
      assert TableStatements(t)[..|t.rows|] == TableStatements(t);
    }
  }

  lemma {:induction false} ReadTables(tables: seq<Table>, rest: string)
    requires forall i :: 0 <= i < |tables| ==> WellFormedTable(tables[i])
    ensures ReadScript(Lay(AllTableLines(tables), rest)) == Before(AllStatements(tables), ReadScript(rest))
  {
    hide WellFormedTable, ReadScript, TableLines, TableStatements;
    if tables == [] {
      BeforeNothing(ReadScript(rest));
    } else {
      var n := |tables| - 1;
      LayConcat(AllTableLines(tables[..n]), TableLines(tables[n]), rest);
      ReadTable(tables[n], rest);
      ReadTables(tables[..n], Lay(TableLines(tables[n]), rest));
      BeforeTwice(AllStatements(tables[..n]), TableStatements(tables[n]), ReadScript(rest));
    }
  }

  lemma CounterSkipped(c: Counter)
    requires '\n' !in c.name
    ensures Skipped(CounterLine(c))
  {
    var digits := OfInt(c.highest);
    if c.highest < 0 {
      DigitsAreOneLine(OfNat(-c.highest));
    } else {
      DigitsAreOneLine(digits);
    }
    assert CounterLine(c)[0] == "SELECT setval('"[0];
  }

  /** The sequence and the value that a `setval` statement sets, as one that has been given out. */
  function ReadCounter(s: string): Option<Counter> {
    if Expect(s, "SELECT setval(").None? then None else
    var name := ReadValue(Expect(s, "SELECT setval(").value);
    if name.None? || !name.value.0.SqlText? || Expect(name.value.1, ", ").None? then None else
    var highest := ReadValue(Expect(name.value.1, ", ").value);
    if highest.None? || !highest.value.0.SqlInt? || highest.value.1 != ", true);" then None else
    Some(Counter(name.value.0.t, highest.value.0.n))
  }

  /** A printed counter is read back if its name holds no quotation mark. */
  lemma CounterRoundTrip(c: Counter)
    requires '\'' !in c.name
    ensures ReadCounter(CounterLine(c)) == Some(c)
  {
    var s3 := ", true);";
    var s2 := OfInt(c.highest) + s3;
    var s1 := "'" + c.name + "'" + (", " + s2);
    CounterText(c);
    ExpectFound("SELECT setval(", s1);
    ReadUnquoted(c.name, '\'', ", " + s2);
    QuotedText(c.name, c.name, ", " + s2);
    ExpectFound(", ", s2);
    IntRoundTrip(c.highest, s3);
    hide ReadValue, Expect, OfInt, CounterLine;
  }

  lemma CounterText(c: Counter)
    ensures CounterLine(c) == "SELECT setval(" + ("'" + c.name + "'" + (", " + (OfInt(c.highest) + ", true);")))
  {
    hide OfInt;
    assert "SELECT setval('" == "SELECT setval(" + "'" && "', " == "'" + ", ";
  }

  lemma SkippedConcat(a: seq<string>, b: seq<string>)
    requires SkippedAll(a) && SkippedAll(b)
    ensures SkippedAll(a + b)
  {
    hide Skipped;
  }

  lemma CountersSkipped(counters: seq<Counter>)
    requires forall i :: 0 <= i < |counters| ==> '\n' !in counters[i].name
    ensures SkippedAll(CounterLines(counters))
  {
    forall i | 0 <= i < |counters| ensures Skipped(CounterLines(counters)[i]) {
      CounterSkipped(counters[i]);
    }
  }

  lemma ReadParts(opening: seq<string>, tables: seq<Table>, ending: seq<string>)
    requires SkippedAll(opening) && SkippedAll(ending)
    requires forall i :: 0 <= i < |tables| ==> WellFormedTable(tables[i])
    ensures ReadScript(Lay(opening + AllTableLines(tables) + ending, "")) == Before(AllStatements(tables), Some([]))
  {
    hide *;
    var middle := AllTableLines(tables);
    LayConcat(opening + middle, ending, "");
    LayConcat(opening, middle, Lay(ending, ""));
    SkipLines(opening, Lay(middle, Lay(ending, "")));
    ReadTables(tables, Lay(ending, ""));
    SkipLines(ending, "");
    ReadNothing();
  }

  /** Reading the file gives every row of every table back, in order, and nothing else. */
  lemma ScriptRoundTrip(frame: Frame, tables: seq<Table>, counters: seq<Counter>)
    requires SkippedAll(frame.opening) && SkippedAll(frame.restoring) && SkippedAll(frame.closing)
    requires forall i :: 0 <= i < |tables| ==> WellFormedTable(tables[i])
    requires forall i :: 0 <= i < |counters| ==> '\n' !in counters[i].name
    ensures ReadScript(Lay(ScriptLines(frame, tables, counters), "")) == Some(AllStatements(tables))
  {
    hide SkippedAll, ReadScript, AllTableLines, AllStatements, CounterLines, WellFormedTable, Lay;
    CountersSkipped(counters);
    SkippedConcat(CounterLines(counters), frame.closing);
    SkippedConcat(frame.restoring, CounterLines(counters) + frame.closing);
    ReadParts(frame.opening, tables, frame.restoring + (CounterLines(counters) + frame.closing));
    assert AllStatements(tables) + [] == AllStatements(tables);
  }

  lemma ReadNothing()
    ensures ReadScript("") == Some([])
  {
  }

  // ---- Which strings survive ----

  /** Only newlines end lines, no white space stands before one or at the end, and the last line is not ended. */
  predicate Normal(s: string) {
    (forall i :: 0 <= i < |s| && IsBoundary(s[i]) ==> s[i] == '\n') &&
    (forall i :: 0 <= i < |s| - 1 && s[i + 1] == '\n' ==> s[i] == '\n' || !PySpace(s[i])) &&
    (s != [] ==> !PySpace(s[|s| - 1]))
  }

  lemma NormalizeStep(s: string)
    requires s != []
    ensures var n := FirstLine(s);
      var line := TrimRight(WithoutEnd(s[..n]), PySpace);
      Normalize(s) == if n == |s| then line else line + "\n" + Normalize(s[n..])
  {
    hide PySpace, FirstLine, WithoutEnd, TrimRight, BareLines, Join;
    var n := FirstLine(s);
    var first, others := WithoutEnd(s[..n]), BareLines(s[n..]);
    BareLinesStep(s);
    RightTrimmedFront(first, others);
    JoinFront(TrimRight(first, PySpace), RightTrimmed(others));
  }

  lemma RightTrimmedFront(first: string, others: seq<string>)
    ensures RightTrimmed([first] + others) == [TrimRight(first, PySpace)] + RightTrimmed(others)
  {
    hide TrimRight, PySpace;
  }

  lemma JoinFront(first: string, others: seq<string>)
    ensures Join([first] + others, "\n") == if others == [] then first else first + "\n" + Join(others, "\n")
  {
  }

  /** The shape of the first line: no boundary but its end; only the last line of a text may have none. */
  predicate FirstLineShape(s: string, n: nat, k: nat)
    requires k <= n <= |s|
  {
    OneLine(s[..k]) &&
    ((n == k + 1 && IsBoundary(s[k]) && (s[k] == '\n' ==> k == 0 || s[k - 1] != '\r')) || (n == k + 2 && s[k] == '\r' && s[k + 1] == '\n') || n == k == |s|)
  }

  lemma {:induction false} FirstLineHasShape(s: string) returns (k: nat)
    requires s != []
    ensures k <= FirstLine(s) <= |s| && FirstLineShape(s, FirstLine(s), k)
  {
    hide IsBoundary;
    if IsBoundary(s[0]) {
      k := 0;
    } else if |s| == 1 {
      k := 1;
    } else {
      var m := FirstLineHasShape(s[1..]);
      k := m + 1;
      ShapeFront(s, FirstLine(s[1..]), m);
    }
  }

  lemma ShapeFront(s: string, n: nat, k: nat)
    requires s != [] && k <= n <= |s| - 1 && !IsBoundary(s[0]) && FirstLineShape(s[1..], n, k)
    ensures FirstLineShape(s, n + 1, k + 1)
  {
    NewlineIsBoundary();
    hide IsBoundary;
    assert forall i :: 0 <= i < |s| - 1 ==> s[1..][i] == s[i + 1];
    assert s[..k + 1] == [s[0]] + s[1..][..k];
  }

  lemma ShapeBare(s: string, n: nat, k: nat)
    requires k <= n <= |s| && FirstLineShape(s, n, k)
    ensures WithoutEnd(s[..n]) == s[..k]
  {
    NewlineIsBoundary();
    hide IsBoundary;
    var line := s[..n];
    assert n >= 2 ==> line[n - 2..] == [s[n - 2], s[n - 1]];
    if n == k && k > 0 {
      assert s[..k][k - 1] == s[k - 1];
    }
  }

  /** The first line without its end is the part before its first boundary. */
  lemma FirstBare(s: string) returns (k: nat)
    requires s != []
    ensures k <= FirstLine(s) <= |s| && FirstLineShape(s, FirstLine(s), k) && WithoutEnd(s[..FirstLine(s)]) == s[..k]
  {
    k := FirstLineHasShape(s);
    ShapeBare(s, FirstLine(s), k);
  }

  lemma {:induction false} NormalizeIsNoLonger(s: string)
    ensures |Normalize(s)| <= |s|
    decreases |s|
  {
    if s != [] {
      hide PySpace, IsBoundary, Normalize, FirstLine, WithoutEnd;
      NormalizeStep(s);
      var k := FirstBare(s);
      if FirstLine(s) < |s| {
        NormalizeIsNoLonger(s[FirstLine(s)..]);
      }
    } else {
      assert Normalize("") == "";
    }
  }

  /** Both the string and the condition split at the first line in the same way. */
  lemma NormalStep(s: string)
    requires s != []
    ensures var n := FirstLine(s);
      var line := TrimRight(WithoutEnd(s[..n]), PySpace);
      Normal(s) <==> if n == |s| then s == line else s[..n] == line + "\n" && Normal(s[n..])
  {
    hide *;
    var n := FirstLine(s);
    var k := FirstBare(s);
    if n == |s| {
      LastLineNormal(s, k);
    } else {
      InnerLineNormal(s, n, k);
    }
  }

  lemma LastLineNormal(s: string, k: nat)
    requires s != [] && k <= |s| && FirstLineShape(s, |s|, k)
    ensures Normal(s) <==> s == TrimRight(s[..k], PySpace)
  {
    BoundaryIsSpace();
    NewlineIsBoundary();
    hide PySpace, IsBoundary;
    assert k == |s| ==> s[..k] == s;
    assert s == TrimRight(s[..k], PySpace) ==> k == |s|;
    assert Normal(s) ==> k == |s|;
  }

  lemma InnerLineNormal(s: string, n: nat, k: nat)
    requires k <= n < |s| && FirstLineShape(s, n, k)
    ensures Normal(s) <==> s[..n] == TrimRight(s[..k], PySpace) + "\n" && Normal(s[n..])
  {
    hide *;
    if Normal(s) {
      NormalFront(s, n, k);
    }
    if s[..n] == TrimRight(s[..k], PySpace) + "\n" && Normal(s[n..]) {
      ShapeLength(s, n, k);
      assert |TrimRight(s[..k], PySpace)| + 1 == n;
      assert TrimRight(s[..k], PySpace) == s[..k];
      ShapeOneLine(s, n, k);
      NormalPrepend(s[..k], s[n..]);
      assert s == s[..n] + s[n..];
    }
  }

  lemma ShapeLength(s: string, n: nat, k: nat)
    requires k <= n < |s| && FirstLineShape(s, n, k)
    ensures k < n
  {
    hide IsBoundary, OneLine;
  }

  lemma ShapeOneLine(s: string, n: nat, k: nat)
    requires k <= n <= |s| && FirstLineShape(s, n, k)
    ensures OneLine(s[..k])
  {
    hide IsBoundary, OneLine;
  }

  lemma BoundaryIsSpace()
    ensures forall c :: IsBoundary(c) ==> PySpace(c)
  {
  }

  lemma NormalFront(s: string, n: nat, k: nat)
    requires Normal(s) && k <= n < |s| && FirstLineShape(s, n, k)
    ensures TrimRight(s[..k], PySpace) == s[..k] && s[..n] == s[..k] + "\n" && Normal(s[n..])
  {
    NewlineIsBoundary();
    hide PySpace, IsBoundary;
    assert s[k] == '\n' && n == k + 1;
    if k > 0 {
      assert !IsBoundary(s[..k][k - 1]);
      assert !PySpace(s[k - 1]);
    }
    assert s[n..] != [] && forall i :: 0 <= i < |s[n..]| ==> s[n..][i] == s[i + n];
  }

  lemma NormalPrepend(bare: string, rest: string)
    requires OneLine(bare) && TrimRight(bare, PySpace) == bare && Normal(rest) && rest != []
    ensures Normal(bare + "\n" + rest)
  {
    hide PySpace, IsBoundary;
    var s := bare + "\n" + rest;
    assert forall i :: 0 <= i < |s| ==> s[i] == if i < |bare| then bare[i] else if i == |bare| then '\n' else rest[i - |bare| - 1];
    NewlineIsBoundary();
  }

  lemma NewlineIsBoundary()
    ensures IsBoundary('\n') && IsBoundary('\r') && PySpace('\n')
  {
  }

  /** A string comes back unchanged exactly when it is in the normal form. */
  lemma {:induction false} StringSurvivesIff(s: string)
    ensures Meaning(Str(s)) == SqlText(s) <==> Normal(s)
    decreases |s|
  {
    if s != [] {
      hide Normal, IsBoundary, PySpace, WithoutEnd;
      var n := FirstLine(s);
      var line := TrimRight(WithoutEnd(s[..n]), PySpace);
      NormalizeStep(s);
      NormalStep(s);
      var k := FirstBare(s);
      if n < |s| {
        StringSurvivesIff(s[n..]);
        NormalizeIsNoLonger(s[n..]);
        assert s == s[..n] + s[n..];
        SplitEqual(s[..n], s[n..], line + "\n", Normalize(s[n..]));
      }
    }
  }

  /** Two splits with no shorter parts on the left agree only part by part. */
  lemma SplitEqual(a: string, b: string, c: string, d: string)
    requires |a| >= |c| && |b| >= |d|
    ensures a + b == c + d <==> a == c && b == d
  {
    if a + b == c + d {
      assert |a| == |c|;
      assert a == (a + b)[..|a|] && c == (c + d)[..|c|];
      assert b == (a + b)[|a|..] && d == (c + d)[|c|..];
    }
  }

  /** A final newline is lost. */
  lemma FinalNewlineIsLost()
    ensures Meaning(Str("a\n")) == SqlText("a")
  {
    hide FirstLine, TrimRight, Normalize;
    var s := "a\n";
    assert s == "a" + "\n" + "";
    LetterIsPlain();
    FirstLineEnds("a", "");
    NormalizeStep(s);
    LineEndGone();
  }

  lemma LetterIsPlain()
    ensures OneLine("a") && TrimRight("a", PySpace) == "a"
  {
  }

  lemma LineEndGone()
    ensures WithoutEnd("a\n") == "a" && "a\n"[..2] == "a\n"
  {
    var s := "a\n";
    assert s[0..] == s && s[..1] == "a";
  }

  /** The lines of a normalised string are the lines of the string without trailing white space. */
  lemma NormalizedLines(s: string)
    requires s != ""
    ensures Split(Normalize(s), '\n') == RightTrimmed(BareLines(s))
    ensures |RightTrimmed(BareLines(s))| == |BareLines(s)|
    ensures forall i :: 0 <= i < |BareLines(s)| ==> RightTrimmed(BareLines(s))[i] == TrimRight(BareLines(s)[i], PySpace)
  {
    BareLinesStep(s);
    BareLinesAreOneLine(s);
    hide BareLines, Split, PySpace;
    var lines := BareLines(s);
    forall i | 0 <= i < |lines| ensures '\n' !in RightTrimmed(lines)[i] {
      assert '\n' !in lines[i];
    }
    SplitJoin(RightTrimmed(lines), '\n');
  }

  lemma {:induction false} BareLinesAreOneLine(s: string)
    ensures forall i :: 0 <= i < |BareLines(s)| ==> '\n' !in BareLines(s)[i]
    decreases |s|
  {
    if s == "" {
      assert BareLines("") == [];
    } else {
      hide BareLines, FirstLine, WithoutEnd;
      var n := FirstLine(s);
      BareLinesStep(s);
      var k := FirstBare(s);
      ShapeOneLine(s, n, k);
      NoNewline(s[..k]);
      BareLinesAreOneLine(s[n..]);
    }
  }

  lemma NoNewline(s: string)
    requires OneLine(s)
    ensures '\n' !in s
  {
  }
}
