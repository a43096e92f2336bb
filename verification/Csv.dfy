/** Comma separated values as the sqlite shell writes and imports them: what a table looks like in
    CSV mode, what `.import` makes of a text, and that the one undoes the other. */
module Csv {

  import opened ByteStrings

  // ---------- printing ----------

  /** The bytes marked in the table needCsvQuote. */
  predicate NeedsQuote(c: Byte) {
    c <= 32 || c == 34 || c == 39 || c >= 127
  }

  predicate MustQuote(z: Str, sep: Byte) {
    z == [] || exists i | 0 <= i < |z| :: NeedsQuote(z[i]) || z[i] == sep
  }

  /** `z` with every quote written twice. */
  function Doubled(z: Str): Str {
    if z == [] then [] else (if z[0] == QUOTE then [QUOTE, QUOTE] else [z[0]]) + Doubled(z[1..])
  }

  function CsvField(z: Str, sep: Byte): Str {
    if MustQuote(z, sep) then [QUOTE] + Doubled(z) + [QUOTE] else z
  }

  /** A row without its line feed. */
  function CsvRow(row: seq<Str>, sep: Byte): Str {
    if row == [] then []
    else if |row| == 1 then CsvField(row[0], sep)
    else CsvField(row[0], sep) + [sep] + CsvRow(row[1..], sep)
  }

  function CsvTable(rows: seq<seq<Str>>, sep: Byte): Str {
    if rows == [] then [] else CsvRow(rows[0], sep) + [LF] + CsvTable(rows[1..], sep)
  }

  // ---------- importing ----------

  predicate Toggle(q: bool, c: Byte) {
    q != (c == QUOTE)
  }

  /** How much of the text the next line takes, its line feed included, and whether there is one.
      A line feed between quotes does not end the line. */
  function CutLine(text: Str, q: bool): (r: (nat, bool))
    ensures r.0 <= |text| && (r.1 ==> r.0 > 0 && text[r.0 - 1] == LF) && (text != [] ==> r.0 > 0)
  {
    if text == [] then (0, false)
    else if text[0] == LF && !q then (1, true)
    else
      var r := CutLine(text[1..], Toggle(q, text[0]));
      (r.0 + 1, r.1)
  }

  function WithoutEnd(line: Str): Str
    requires line != []
  {
    var n := |line| - 1;
    if n > 0 && line[n - 1] == CR then line[..n - 1] else line[..n]
  }

  /** The line itself: without its line feed and without one carriage return before that. */
  function LineOf(text: Str): Str {
    var (n, ended) := CutLine(text, false);
    if ended then WithoutEnd(text[..n]) else text[..n]
  }

  /** The pieces between separators that are not between quotes. */
  function SplitFields(line: Str, q: bool, sep: Byte): (r: seq<Str>)
    ensures |r| > 0
  {
    if line == [] then [[]]
    else
      var q' := Toggle(q, line[0]);
      var rest := SplitFields(line[1..], q', sep);
      if !q' && line[0] == sep then [[]] + rest else [[line[0]] + rest[0]] + rest[1..]
  }

  /** What follows an opening quote: of every quote the byte behind it is taken, and one at the end
      closes the field. */
  function UnquoteBody(s: Str): Str {
    if s == [] then []
    else if s[0] != QUOTE then [s[0]] + UnquoteBody(s[1..])
    else if |s| == 1 then []
    else [s[1]] + UnquoteBody(s[2..])
  }

  function Unquote(field: Str): Str {
    if field != [] && field[0] == QUOTE then UnquoteBody(field[1..]) else field
  }

  function UnquoteAll(fields: seq<Str>): (r: seq<Str>)
    ensures |r| == |fields|
  {
    if fields == [] then [] else [Unquote(fields[0])] + UnquoteAll(fields[1..])
  }

  datatype Import = Rows(rows: seq<seq<Str>>) | BadColumnCount

  /** The rows of a text, or the error at its first line with another number of columns, after which
      the whole import is rolled back. */
  function ImportText(text: Str, columns: nat, sep: Byte): Import
    decreases |text|
  {
    if text == [] then Rows([])
    else
      var fields := SplitFields(LineOf(text), false, sep);
      if |fields| != columns then BadColumnCount
      else
        match ImportText(text[CutLine(text, false).0..], columns, sep)
        case BadColumnCount => BadColumnCount
        case Rows(rows) => Rows([UnquoteAll(fields)] + rows)
  }

  // ---------- printed fields under the import ----------

  /** Read from state `q` on, `e` neither ends a line nor a field, and it leaves no quote open. */
  predicate Closed(e: Str, q: bool, sep: Byte) {
    if e == [] then !q
    else
      var q' := Toggle(q, e[0]);
      (q' || (e[0] != LF && e[0] != sep)) && Closed(e[1..], q', sep)
  }

  lemma {:induction false} DoubledClosed(z: Str, sep: Byte)
    requires sep != QUOTE
    ensures Closed(Doubled(z) + [QUOTE], true, sep)
  {
    var e := Doubled(z) + [QUOTE];
    if z == [] {
      assert e == [QUOTE] && e[1..] == [];
    } else {
      var rest := Doubled(z[1..]) + [QUOTE];
      DoubledClosed(z[1..], sep);
      if z[0] == QUOTE {
        assert e[0] == QUOTE && e[1..][0] == QUOTE && e[1..][1..] == rest;
        assert Closed(e[1..], false, sep);
      } else {
        assert e[0] == z[0] && e[1..] == rest;
      }
    }
  }

  lemma {:induction false} PlainClosed(z: Str, sep: Byte)
    requires forall i | 0 <= i < |z| :: !NeedsQuote(z[i]) && z[i] != sep
    ensures Closed(z, false, sep)
  {
    if z != [] { PlainClosed(z[1..], sep); }
  }

  lemma FieldClosed(z: Str, sep: Byte)
    requires sep != QUOTE
    ensures Closed(CsvField(z, sep), false, sep)
  {
    if MustQuote(z, sep) {
      DoubledClosed(z, sep);
      assert CsvField(z, sep)[1..] == Doubled(z) + [QUOTE];
    } else {
      PlainClosed(z, sep);
    }
  }

  lemma {:induction false} UnquoteDoubled(z: Str)
    ensures UnquoteBody(Doubled(z) + [QUOTE]) == z
  {
    var e := Doubled(z) + [QUOTE];
    if z == [] {
      assert e == [QUOTE];
    } else {
      UnquoteDoubled(z[1..]);
      var rest := Doubled(z[1..]) + [QUOTE];
      if z[0] == QUOTE {
        assert e[0] == QUOTE && e[1] == QUOTE && e[2..] == rest;
      } else {
        assert e[0] == z[0] && e[1..] == rest;
      }
    }
  }

  lemma {:induction false} DoubledLonger(z: Str)
    ensures |Doubled(z)| >= |z|
  {
    if z != [] {
      DoubledLonger(z[1..]);
    }
  }

  /** A field is printed as it is just when it has something in it, and nothing but visible characters
      that are neither quotation marks, apostrophes nor separators. */
  lemma UnquotedExactly(z: Str, sep: Byte)
    ensures CsvField(z, sep) == z <==>
            z != [] && forall i | 0 <= i < |z| :: (z[i] == 33 || 35 <= z[i] <= 38 || 40 <= z[i] <= 126) && z[i] != sep
  {
    DoubledLonger(z);
  }

  /** Within a quoted field a quotation mark stands for the byte behind it, whatever that is. */
  lemma {:induction false} QuotedByte(a: Str, c: Byte, b: Str)
    requires QUOTE !in a
    ensures UnquoteBody(a + [QUOTE, c] + b) == a + [c] + UnquoteBody(b)
    ensures UnquoteBody(a) == UnquoteBody(a + [QUOTE]) == a
  {
    var s := a + [QUOTE, c] + b;
    if a == [] {
      assert s[2..] == b;
      assert UnquoteBody([QUOTE]) == [];
    } else {
      QuotedByte(a[1..], c, b);
      assert s[1..] == a[1..] + [QUOTE, c] + b;
      assert (a + [QUOTE])[1..] == a[1..] + [QUOTE];
    }
  }

  /** Dequoting undoes quoting. */
  lemma UnquoteField(z: Str, sep: Byte)
    ensures Unquote(CsvField(z, sep)) == z
  {
    if MustQuote(z, sep) {
      assert CsvField(z, sep)[1..] == Doubled(z) + [QUOTE];
      UnquoteDoubled(z);
    } else {
      assert !NeedsQuote(z[0]);
    }
  }

  lemma {:induction false} CutClosed(e: Str, q: bool, sep: Byte, rest: Str)
    requires Closed(e, q, sep)
    ensures CutLine(e + rest, q).0 == |e| + CutLine(rest, false).0
    ensures CutLine(e + rest, q).1 == CutLine(rest, false).1
  {
    if e == [] {
      assert e + rest == rest;
    } else {
      assert (e + rest)[1..] == e[1..] + rest;
      CutClosed(e[1..], Toggle(q, e[0]), sep, rest);
    }
  }

  lemma {:induction false} SplitClosed(e: Str, q: bool, sep: Byte, rest: Str)
    requires Closed(e, q, sep)
    ensures var r := SplitFields(rest, false, sep);
            SplitFields(e + rest, q, sep) == [e + r[0]] + r[1..]
  {
    var r := SplitFields(rest, false, sep);
    if e == [] {
      assert e + rest == rest && e + r[0] == r[0];
    } else {
      assert (e + rest)[1..] == e[1..] + rest;
      SplitClosed(e[1..], Toggle(q, e[0]), sep, rest);
      assert [e[0]] + (e[1..] + r[0]) == e + r[0];
    }
  }

  // ---------- rows and tables ----------

  function CsvFields(row: seq<Str>, sep: Byte): (r: seq<Str>)
    ensures |r| == |row|
  {
    if row == [] then [] else [CsvField(row[0], sep)] + CsvFields(row[1..], sep)
  }

  lemma {:induction false} SplitRow(row: seq<Str>, sep: Byte)
    requires row != [] && sep != QUOTE
    ensures SplitFields(CsvRow(row, sep), false, sep) == CsvFields(row, sep)
  {
    var e := CsvField(row[0], sep);
    FieldClosed(row[0], sep);
    if |row| == 1 {
      SplitClosed(e, false, sep, []);
      assert e + [] == e;
      assert CsvFields(row[1..], sep) == [];
    } else {
      var tail := [sep] + CsvRow(row[1..], sep);
      SplitRow(row[1..], sep);
      assert tail[1..] == CsvRow(row[1..], sep);
      assert SplitFields(tail, false, sep) == [[]] + CsvFields(row[1..], sep);
      SplitClosed(e, false, sep, tail);
      assert e + tail == CsvRow(row, sep);
      assert e + [] == e;
    }
  }

  /** A printed row is read to its end, and then whatever comes `after` it. */
  lemma {:induction false} CutRow(row: seq<Str>, sep: Byte, after: Str)
    requires row != [] && sep != QUOTE && (sep != LF || |row| == 1)
    ensures var cut := CutLine(after, false);
            CutLine(CsvRow(row, sep) + after, false) == (|CsvRow(row, sep)| + cut.0, cut.1)
  {
    hide CsvField, Closed, CutLine;
    var e := CsvField(row[0], sep);
    FieldClosed(row[0], sep);
    if |row| == 1 {
      CutClosed(e, false, sep, after);
    } else {
      var more := CsvRow(row[1..], sep) + after;
      CutRow(row[1..], sep, after);
      CutAfterSeparator(sep, more);
      CutClosed(e, false, sep, [sep] + more);
      assert CsvRow(row, sep) + after == e + ([sep] + more);
    }
  }

  lemma CutAfterSeparator(sep: Byte, more: Str)
    requires sep != QUOTE && sep != LF
    ensures CutLine([sep] + more, false) == (CutLine(more, false).0 + 1, CutLine(more, false).1)
  {
    assert ([sep] + more)[1..] == more;
  }

  lemma {:induction false} RowEnd(row: seq<Str>, sep: Byte)
    requires row != []
    ensures var t := CsvRow(row, sep); |t| > 0 && t[|t| - 1] != CR
  {
    if |row| == 1 {
      if !MustQuote(row[0], sep) {
        assert !NeedsQuote(row[0][|row[0]| - 1]);
      }
    } else {
      RowEnd(row[1..], sep);
    }
  }

  lemma {:induction false} UnquoteFields(row: seq<Str>, sep: Byte)
    ensures UnquoteAll(CsvFields(row, sep)) == row
  {
    if row != [] {
      UnquoteField(row[0], sep);
      UnquoteFields(row[1..], sep);
    }
  }

  /** A line feed can only separate fields where there is nothing to separate, and a quotation mark
      not even there, since it appears within fields. */
  predicate Separates(sep: Byte, columns: nat) {
    sep != QUOTE && (sep != LF || columns == 1)
  }

  /** The two ways a line may end. */
  datatype LineEnd = Unix | Rfc4180

  function EndBytes(end: LineEnd): Str {
    match end
    case Unix => [LF]
    case Rfc4180 => [CR, LF]
  }

  /** Rows with an end of line behind each. */
  function Lines(rows: seq<seq<Str>>, ends: seq<LineEnd>, sep: Byte): Str
    requires |ends| == |rows|
  {
    if rows == [] then [] else CsvRow(rows[0], sep) + EndBytes(ends[0]) + Lines(rows[1..], ends[1..], sep)
  }

  /** What an import of `rows` is: all of them, or none when one has another number of columns. */
  function Checked(rows: seq<seq<Str>>, columns: nat): Import {
    if forall i | 0 <= i < |rows| :: |rows[i]| == columns then Rows(rows) else BadColumnCount
  }

  function Before(row: seq<Str>, columns: nat, rest: Import): Import {
    if |row| == columns && rest.Rows? then Rows([row] + rest.rows) else BadColumnCount
  }

  ghost predicate Printable(rows: seq<seq<Str>>, sep: Byte) {
    forall i | 0 <= i < |rows| :: |rows[i]| > 0 && Separates(sep, |rows[i]|)
  }

  lemma CutAtEnd(end: LineEnd, rest: Str)
    ensures CutLine(EndBytes(end) + rest, false) == (|EndBytes(end)|, true)
  {
    var after := EndBytes(end) + rest;
    if end.Rfc4180? {
      assert after[1..] == [LF] + rest;
    }
  }

  lemma WithoutItsEnd(line: Str, end: LineEnd)
    requires line == [] || line[|line| - 1] != CR
    ensures WithoutEnd(line + EndBytes(end)) == line
  {
  }

  /** The line that is read is the row, whether it ends in one way, the other, or not at all. */
  lemma ReadsRow(row: seq<Str>, end: LineEnd, sep: Byte, rest: Str)
    requires row != [] && Separates(sep, |row|)
    ensures var text := CsvRow(row, sep) + EndBytes(end) + rest;
            && LineOf(text) == CsvRow(row, sep)
            && CutLine(text, false).0 == |CsvRow(row, sep)| + |EndBytes(end)|
    ensures LineOf(CsvRow(row, sep)) == CsvRow(row, sep) && CutLine(CsvRow(row, sep), false).0 == |CsvRow(row, sep)|
  {
    hide CsvRow, CutLine, EndBytes, WithoutEnd;
    var line := CsvRow(row, sep);
    RowEnd(row, sep);
    CutRow(row, sep, EndBytes(end) + rest);
    CutAtEnd(end, rest);
    assert line + EndBytes(end) + rest == line + (EndBytes(end) + rest);
    assert (line + EndBytes(end) + rest)[..|line| + |EndBytes(end)|] == line + EndBytes(end);
    WithoutItsEnd(line, end);
    CutRow(row, sep, []);
    CutNothing();
    assert line + [] == line;
  }

  lemma CutNothing()
    ensures CutLine([], false) == (0, false)
  {
  }

  lemma ImportFirst(row: seq<Str>, end: LineEnd, columns: nat, sep: Byte, rest: Str)
    requires row != [] && Separates(sep, |row|)
    ensures ImportText(CsvRow(row, sep) + EndBytes(end) + rest, columns, sep)
              == Before(row, columns, ImportText(rest, columns, sep))
    ensures ImportText(CsvRow(row, sep), columns, sep) == Before(row, columns, Rows([]))
  {
    hide CsvRow, SplitFields, CutLine, UnquoteAll, LineOf, EndBytes;
    var line := CsvRow(row, sep);
    var text := line + EndBytes(end) + rest;
    ReadsRow(row, end, sep, rest);
    RowEnd(row, sep);
    SplitRow(row, sep);
    UnquoteFields(row, sep);
    assert text[|line| + |EndBytes(end)|..] == rest;
    assert line[|line|..] == [];
  }

  /** Whatever the ends of its lines, a text of printed rows is imported as those rows, and refused if
      one has another number of columns. */
  lemma {:induction false} ImportLines(rows: seq<seq<Str>>, ends: seq<LineEnd>, columns: nat, sep: Byte)
    requires |ends| == |rows| && Printable(rows, sep)
    ensures ImportText(Lines(rows, ends, sep), columns, sep) == Checked(rows, columns)
  {
    hide CsvRow, SplitFields, CutLine, UnquoteAll, LineOf, EndBytes, Separates;
    if rows != [] {
      ImportFirst(rows[0], ends[0], columns, sep, Lines(rows[1..], ends[1..], sep));
      ImportLines(rows[1..], ends[1..], columns, sep);
      CheckedFirst(rows, columns);
    }
  }

  lemma CheckedFirst(rows: seq<seq<Str>>, columns: nat)
    requires rows != []
    ensures Checked(rows, columns) == Before(rows[0], columns, Checked(rows[1..], columns))
  {
    assert rows == [rows[0]] + rows[1..];
    assert forall i | 0 <= i < |rows[1..]| :: rows[1..][i] == rows[i + 1];
  }

  /** The last row needs no end. */
  lemma {:induction false} ImportUnended(rows: seq<seq<Str>>, ends: seq<LineEnd>, row: seq<Str>, columns: nat, sep: Byte)
    requires |ends| == |rows| && Printable(rows + [row], sep)
    ensures ImportText(Lines(rows, ends, sep) + CsvRow(row, sep), columns, sep) == Checked(rows + [row], columns)
  {
    hide CsvRow, SplitFields, CutLine, UnquoteAll, LineOf, EndBytes, Separates;
    CheckedFirst(rows + [row], columns);
    assert (rows + [row])[|rows|] == row;
    if rows == [] {
      assert Lines(rows, ends, sep) + CsvRow(row, sep) == CsvRow(row, sep) && (rows + [row])[1..] == [];
      ImportFirst(row, Unix, columns, sep, []);
    } else {
      assert (rows + [row])[1..] == rows[1..] + [row] && (rows + [row])[0] == rows[0];
      ImportUnended(rows[1..], ends[1..], row, columns, sep);
      var rest := Lines(rows[1..], ends[1..], sep) + CsvRow(row, sep);
      ImportFirst(rows[0], ends[0], columns, sep, rest);
      assert Lines(rows, ends, sep) + CsvRow(row, sep) == CsvRow(rows[0], sep) + EndBytes(ends[0]) + rest;
    }
  }

  lemma {:induction false} TableIsLines(rows: seq<seq<Str>>, sep: Byte)
    ensures CsvTable(rows, sep) == Lines(rows, seq(|rows|, _ => Unix), sep)
  {
    hide CsvRow;
    if rows != [] {
      TableIsLines(rows[1..], sep);
      assert seq(|rows|, _ => Unix)[1..] == seq(|rows[1..]|, _ => Unix);
    }
  }

  /** Importing what CSV mode prints yields the same rows and fields, whatever they contain. */
  lemma RoundTrip(rows: seq<seq<Str>>, columns: nat, sep: Byte)
    requires columns > 0 && forall i | 0 <= i < |rows| :: |rows[i]| == columns
    requires Separates(sep, columns)
    ensures ImportText(CsvTable(rows, sep), columns, sep) == Rows(rows)
  {
    hide CsvTable, Lines, ImportText;
    TableIsLines(rows, sep);
    ImportLines(rows, seq(|rows|, _ => Unix), columns, sep);
  }

  /** The tables the program can hold. */
  ghost predicate IsTable(rows: seq<seq<Str>>, columns: nat) {
    && (forall i | 0 <= i < |rows| :: |rows[i]| == columns)
    && (forall i | 0 <= i < |rows| :: forall j | 0 <= j < |rows[i]| :: NulFree(rows[i][j]))
  }

  // ---------- the field grammar of RFC 4180 ----------

  const COMMA: Byte := 44

  /** TEXTDATA of section 2 of RFC 4180. */
  predicate TextData(c: Byte) {
    0x20 <= c <= 0x21 || 0x23 <= c <= 0x2B || 0x2D <= c <= 0x7E
  }

  /** What follows the opening quotation mark of `escaped`. */
  predicate EscapedRest(s: Str) {
    if s == [] then false
    else if s[0] == QUOTE then |s| == 1 || (s[1] == QUOTE && EscapedRest(s[2..]))
    else (TextData(s[0]) || s[0] == COMMA || s[0] == CR || s[0] == LF) && EscapedRest(s[1..])
  }

  /** `field = (escaped / non-escaped)` */
  predicate IsField(f: Str) {
    || (f != [] && f[0] == QUOTE && EscapedRest(f[1..]))
    || forall i | 0 <= i < |f| :: TextData(f[i])
  }

  predicate Rfc4180Byte(c: Byte) {
    c == CR || c == LF || 32 <= c <= 126
  }

  lemma {:induction false} DoubledGrammar(z: Str)
    ensures EscapedRest(Doubled(z) + [QUOTE]) <==> forall i | 0 <= i < |z| :: Rfc4180Byte(z[i])
  {
    var e := Doubled(z) + [QUOTE];
    if z == [] {
      assert e == [QUOTE];
    } else {
      DoubledGrammar(z[1..]);
      var rest := Doubled(z[1..]) + [QUOTE];
      if z[0] == QUOTE {
        assert e[0] == QUOTE && e[1] == QUOTE && e[2..] == rest;
      } else {
        assert e[0] == z[0] && e[1..] == rest;
      }
      assert (forall i | 0 <= i < |z| :: Rfc4180Byte(z[i]))
        <==> Rfc4180Byte(z[0]) && forall i | 0 <= i < |z[1..]| :: Rfc4180Byte(z[1..][i]);
    }
  }

  /** With a comma, a field is printed as section 2 of RFC 4180 writes it, exactly when that section
      has a way of writing it. */
  lemma FieldIsRfc4180(z: Str)
    ensures IsField(CsvField(z, COMMA)) <==> forall i | 0 <= i < |z| :: Rfc4180Byte(z[i])
  {
    var f := CsvField(z, COMMA);
    if MustQuote(z, COMMA) {
      assert f[1..] == Doubled(z) + [QUOTE] && !TextData(f[0]);
      DoubledGrammar(z);
    } else {
      assert forall i | 0 <= i < |z| :: TextData(z[i]) && Rfc4180Byte(z[i]);
    }
  }

  // ---------- separators that do not separate ----------

  function Quotes(n: nat): Str {
    seq(n, i => QUOTE)
  }

  function RowOf(z: Str, columns: nat): seq<Str> {
    seq(columns, i => z)
  }

  /** A row of letters is cut at its first line feed. */
  lemma LettersCut(columns: nat)
    requires columns > 1
    ensures ImportText(CsvTable([RowOf([97], columns)], LF), columns, LF) == BadColumnCount
  {
    var row: seq<Str> := RowOf([97], columns);
    var text := CsvTable([row], LF);
    assert CsvField([97], LF) == [97];
    assert CsvRow(row, LF) == [97] + [LF] + CsvRow(row[1..], LF);
    assert text[0] == 97 && text[1] == LF && text[1..][0] == LF;
    assert CutLine(text[1..], false) == (1, true);
    assert CutLine(text, false) == (2, true);
    assert LineOf(text) == [97] && [97][1..] == [];
    assert |SplitFields([97], false, LF)| == 1;
  }

  /** A row of empty strings is printed as nothing but quotation marks. */
  lemma {:induction false} EmptyRow(columns: nat)
    requires columns > 0
    ensures CsvRow(RowOf([], columns), QUOTE) == Quotes(3 * columns - 1)
  {
    assert CsvField([], QUOTE) == [QUOTE, QUOTE];
    var row: seq<Str> := RowOf([], columns);
    if columns == 1 {
      assert [QUOTE, QUOTE] == Quotes(2);
    } else {
      EmptyRow(columns - 1);
      assert row[1..] == RowOf([], columns - 1);
      assert [QUOTE, QUOTE] + [QUOTE] + Quotes(3 * columns - 4) == Quotes(3 * columns - 1);
    }
  }

  lemma {:induction false} QuotesCut(n: nat, q: bool)
    ensures CutLine(Quotes(n) + [LF], q) == (n + 1, q == (n % 2 == 1))
  {
    var text := Quotes(n) + [LF];
    if n == 0 {
      assert text == [LF] && [LF][1..] == [];
    } else {
      QuotesCut(n - 1, !q);
      assert text[1..] == Quotes(n - 1) + [LF];
    }
  }

  /** Every second one of them is taken for a separator. */
  lemma {:induction false} QuotesSplit(n: nat, q: bool, tail: Str)
    requires tail == [] || tail == [LF]
    ensures |SplitFields(Quotes(n) + tail, q, QUOTE)| == 1 + (if q then (n + 1) / 2 else n / 2)
  {
    var line := Quotes(n) + tail;
    if n == 0 {
      assert line == tail && (tail == [LF] ==> tail[1..] == []);
    } else {
      QuotesSplit(n - 1, !q, tail);
      assert line[1..] == Quotes(n - 1) + tail;
    }
  }

  lemma EmptiesSplit(columns: nat)
    requires columns > 0
    ensures ImportText(CsvTable([RowOf([], columns)], QUOTE), columns, QUOTE) == BadColumnCount
  {
    var n := 3 * columns - 1;
    var rows := [RowOf([], columns)];
    var text := CsvTable(rows, QUOTE);
    EmptyRow(columns);
    assert rows[1..] == [] && CsvTable(rows[1..], QUOTE) == [];
    assert text == Quotes(n) + [LF];
    QuotesCut(n, false);
    assert text[..n + 1] == text && text[..n] == Quotes(n) == Quotes(n) + [];
    QuotesSplit(n, false, []);
    QuotesSplit(n, false, [LF]);
    assert text[n - 1] == QUOTE;
    assert WithoutEnd(text) == text[..n];
    assert CutLine(text, false) == (n + 1, n % 2 == 0);
    assert LineOf(text) == if n % 2 == 0 then Quotes(n) + [] else text;
  }

  /** For every number of columns, the separators under which every table comes back. */
  lemma RoundTripExactly(sep: Byte, columns: nat)
    requires sep != NUL && columns > 0
    ensures (forall rows | IsTable(rows, columns) :: ImportText(CsvTable(rows, sep), columns, sep) == Rows(rows))
            <==> sep != QUOTE && (sep != LF || columns == 1)
  {
    if Separates(sep, columns) {
      forall rows | IsTable(rows, columns) ensures ImportText(CsvTable(rows, sep), columns, sep) == Rows(rows) {
        RoundTrip(rows, columns, sep);
      }
    } else {
      var rows: seq<seq<Str>> := [RowOf(if sep == QUOTE then [] else [97], columns)];
      assert IsTable(rows, columns);
      if sep == QUOTE { EmptiesSplit(columns); } else { LettersCut(columns); }
    }
  }
}
