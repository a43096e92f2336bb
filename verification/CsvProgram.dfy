/** The loops of the sqlite shell behind CSV mode and `.import`: printing with a look ahead, reading
    lines through a growing buffer, and splitting and dequoting a line in place. */
module CsvProgram {
  import opened ByteStrings
  import opened Csv

  // ---------- printing ----------

  /** `output_csv` on a value that is not null, with a separator of one byte: what it writes. */
  method OutputCsv(z: Str, sep: Byte, bSep: bool) returns (out: Str)
    requires NulFree(z)
    ensures out == CsvField(z, sep) + if bSep then [sep] else []
  {
    var i := 0;
    while i < |z|
      invariant 0 <= i <= |z|
      invariant forall k | 0 <= k < i :: !NeedsQuote(z[k]) && z[k] != sep
    {
      if NeedsQuote(z[i]) || z[i] == sep {
        i := 0;
        break;
      }
      i := i + 1;
    }
    assert i == 0 <==> MustQuote(z, sep);
    if i == 0 {
      out := WriteQuoted(z);
    } else {
      out := z;
    }
    if bSep {
      out := out + [sep];
    }
  }

  /** The value between quotes, with its own quotes doubled. */
  method WriteQuoted(z: Str) returns (out: Str)
    ensures out == [QUOTE] + Doubled(z) + [QUOTE]
  {
    out := [QUOTE];
    var i := 0;
    while i < |z|
      invariant 0 <= i <= |z|
      invariant out + Doubled(z[i..]) == [QUOTE] + Doubled(z)
    {
      ghost var before := out;
      if z[i] == QUOTE {
        out := out + [QUOTE];
      }
      out := out + [z[i]];
      assert z[i..][1..] == z[i + 1..];
      assert before + Doubled(z[i..]) == out + Doubled(z[i + 1..]);
      i := i + 1;
    }
    assert out == [QUOTE] + Doubled(z);
    out := out + [QUOTE];
  }

  /** The MODE_Csv case of `shell_callback` for every row of a table. */
  method PrintTable(rows: seq<seq<Str>>, sep: Byte) returns (out: Str)
    requires forall i | 0 <= i < |rows| :: forall j | 0 <= j < |rows[i]| :: NulFree(rows[i][j])
    ensures out == CsvTable(rows, sep)
  {
    hide CsvRow;
    out := [];
    for r := 0 to |rows|
      invariant out + CsvTable(rows[r..], sep) == CsvTable(rows, sep)
    {
      var line := PrintRow(rows[r], sep);
      assert rows[r..][0] == rows[r] && rows[r..][1..] == rows[r + 1..];
      assert CsvTable(rows[r..], sep) == line + [LF] + CsvTable(rows[r + 1..], sep);
      assert out + CsvTable(rows[r..], sep) == (out + line + [LF]) + CsvTable(rows[r + 1..], sep);
      out := out + line + [LF];
    }
    assert rows[|rows|..] == [];
  }

  method PrintRow(row: seq<Str>, sep: Byte) returns (out: Str)
    requires forall j | 0 <= j < |row| :: NulFree(row[j])
    ensures out == CsvRow(row, sep)
  {
    hide CsvField;
    out := [];
    for i := 0 to |row|
      invariant out + CsvRow(row[i..], sep) == CsvRow(row, sep)
    {
      var field := OutputCsv(row[i], sep, i < |row| - 1);
      assert row[i..][1..] == row[i + 1..];
      assert out + CsvRow(row[i..], sep) == (out + field) + CsvRow(row[i + 1..], sep);
      out := out + field;
    }
    assert row[|row|..] == [];
  }

  // ---------- reading lines ----------

  /** Where a read of at most `room` bytes ends that stops behind a line feed. */
  function ReadEnd(file: Str, pos: nat, room: nat): (end: nat)
    requires pos <= |file|
    ensures pos <= end <= |file| && end <= pos + room && (pos < |file| && room > 0 ==> pos < end)
    ensures forall j | pos <= j < end - 1 :: file[j] != LF
    decreases room
  {
    if pos == |file| || room == 0 then pos
    else if file[pos] == LF then pos + 1
    else ReadEnd(file, pos + 1, room - 1)
  }

  /** What a C string shows of some bytes. */
  function Visible(s: Str): (v: Str)
    ensures v <= s && NulFree(v)
    ensures NulFree(s) ==> v == s
  {
    if s == [] || s[0] == NUL then [] else [s[0]] + Visible(s[1..])
  }

  /** Whether a quotation is open behind `s`. */
  predicate Toggled(q: bool, s: Str)
    decreases |s|
  {
    if s == [] then q else Toggled(Toggle(q, s[0]), s[1..])
  }

  predicate EndsLine(s: Str, q: bool) {
    s != [] && s[|s| - 1] == LF && !q
  }

  function Grown(nLine: nat, n: nat): nat {
    if n + 100 > nLine then nLine * 2 + 100 else nLine
  }

  /** What the program gets to see of a file, read by read: of every read what comes before a zero byte.  `n`
      bytes of the current line are in the buffer of `nLine` bytes already. */
  function Seen(file: Str, pos: nat, n: nat, nLine: nat, q: bool): Str
    requires pos <= |file| && n < nLine && 100 <= nLine
    decreases |file| - pos
  {
    var size := Grown(nLine, n);
    var end := ReadEnd(file, pos, size - n - 1);
    if end == pos then [] else
      var part := Visible(file[pos..end]);
      if EndsLine(part, Toggled(q, part)) then part + Seen(file, end, 0, 100, false)
      else part + Seen(file, end, n + |part|, size, Toggled(q, part))
  }

  /** The file as the import sees it. */
  function Contents(file: Str, pos: nat): Str
    requires pos <= |file|
  {
    Seen(file, pos, 0, 100, false)
  }

  lemma NulFreeJoined(a: Str, b: Str)
    ensures NulFree(a + b) <==> NulFree(a) && NulFree(b)
  {
    if NulFree(a + b) {
      assert forall i | 0 <= i < |a| :: a[i] == (a + b)[i];
      assert forall i | 0 <= i < |b| :: b[i] == (a + b)[|a| + i];
    }
  }

  lemma {:induction false} SeenNulFree(file: Str, pos: nat, n: nat, nLine: nat, q: bool)
    requires pos <= |file| && n < nLine && 100 <= nLine
    ensures NulFree(Seen(file, pos, n, nLine, q))
    ensures NulFree(file[pos..]) ==> Seen(file, pos, n, nLine, q) == file[pos..]
    decreases |file| - pos
  {
    hide ReadEnd, Visible, Toggled, EndsLine, NulFree, Seen;
    var size := Grown(nLine, n);
    var end := ReadEnd(file, pos, size - n - 1);
    var part := Visible(file[pos..end]);
    SeenStep(file, pos, n, nLine, q);
    if end == pos {
      NothingNulFree();
    } else {
      if EndsLine(part, Toggled(q, part)) {
        SeenNulFree(file, end, 0, 100, false);
      } else {
        SeenNulFree(file, end, n + |part|, size, Toggled(q, part));
      }
      NulFreeJoined(part, After(file, end, n, part, size, q));
      NulFreeJoined(file[pos..end], file[end..]);
      assert file[pos..] == file[pos..end] + file[end..];
    }
  }

  lemma NothingNulFree()
    ensures NulFree([])
  {
  }

  lemma {:induction false} ReadsTo(file: Str, pos: nat, room: nat, end: nat)
    requires pos <= end < |file| && end - pos < room && file[end] == LF && forall j | pos <= j < end :: file[j] != LF
    ensures ReadEnd(file, pos, room) == end + 1
    decreases end - pos
  {
    if pos < end {
      ReadsTo(file, pos + 1, room - 1, end);
    }
  }

  lemma {:induction false} VisibleToNul(s: Str)
    ensures |Visible(s)| < |s| ==> s[|Visible(s)|] == NUL
  {
    if s != [] && s[0] != NUL {
      VisibleToNul(s[1..]);
    }
  }

  /** A zero byte hides the rest of its line and the line feed with it, so that the next line is read as
      part of this one. */
  lemma ZeroByteHides(a: Str, b: Str, rest: Str)
    requires LF !in a && LF !in b && |a| + |b| < 98 && NulFree(a) && NulFree(rest)
    ensures Contents(a + [NUL] + b + [LF] + rest, 0) == a + rest
  {
    hide Toggled, Seen, ReadEnd, Visible;
    var line := a + [NUL] + b;
    var file := line + [LF] + rest;
    ReadsTo(file, 0, 99, |line|);
    var end := |line| + 1;
    SeenStep(file, 0, 0, 100, false);
    var part := Visible(file[0..end]);
    VisibleToNul(file[0..end]);
    assert file[0..end] == line + [LF];
    assert (line + [LF])[|a|] == NUL && (line + [LF])[..|a|] == a;
    assert part == a;
    assert !EndsLine(a, Toggled(false, a));
    assert file[end..] == rest;
    SeenNulFree(file, end, |a|, 100, Toggled(false, a));
  }

  /** The program sees all of a file just when there is no zero byte in it. */
  lemma SeenExactly(file: Str)
    ensures NulFree(Contents(file, 0))
    ensures Contents(file, 0) == file <==> NulFree(file)
  {
    hide Seen;
    SeenNulFree(file, 0, 0, 100, false);
    assert file[0..] == file;
  }

  /** A part of a line that holds no line feed but at its end either ends the line, or the line goes on behind
      it. */
  lemma {:induction false} CutPart(part: Str, rest: Str, q: bool)
    requires forall j | 0 <= j < |part| - 1 :: part[j] != LF
    ensures var q' := Toggled(q, part);
            var d := CutLine(rest, q');
            CutLine(part + rest, q) == if EndsLine(part, q') then (|part|, true) else (|part| + d.0, d.1)
    decreases |part|
  {
    hide CutLine;
    if part == [] {
      assert part + rest == rest;
    } else {
      var tail := part[1..];
      CutFirst(part + rest, q);
      assert (part + rest)[1..] == tail + rest && (part + rest)[0] == part[0];
      CutPart(tail, rest, Toggle(q, part[0]));
      assert Toggled(q, part) == Toggled(Toggle(q, part[0]), tail);
      if |part| > 1 {
        assert tail[|tail| - 1] == part[|part| - 1];
      }
    }
  }

  lemma CutFirst(text: Str, q: bool)
    requires text != []
    ensures var more := CutLine(text[1..], Toggle(q, text[0]));
            CutLine(text, q) == if text[0] == LF && !q then (1, true) else (more.0 + 1, more.1)
  {
  }

  /** The library function fgets: where a read of at most `size - 1` bytes ends. */
  method Fgets(file: Str, pos: nat, size: nat) returns (end: nat)
    requires pos <= |file| && size > 0
    ensures end == ReadEnd(file, pos, size - 1)
  {
    end := pos;
    while end < |file| && end - pos < size - 1
      invariant pos <= end <= |file| && end - pos <= size - 1
      invariant ReadEnd(file, pos, size - 1) == ReadEnd(file, end, size - 1 - (end - pos))
    {
      end := end + 1;
      if file[end - 1] == LF {
        return;
      }
    }
  }

  lemma VisibleStep(chunk: Str, k: nat, q: bool)
    requires k < |chunk| && chunk[k] != NUL
    ensures |Visible(chunk[k..])| == 1 + |Visible(chunk[k + 1..])|
    ensures Toggled(q, Visible(chunk[k..])) == Toggled(Toggle(q, chunk[k]), Visible(chunk[k + 1..]))
  {
    assert chunk[k..][1..] == chunk[k + 1..];
    assert Visible(chunk[k..]) == [chunk[k]] + Visible(chunk[k + 1..]);
    assert Visible(chunk[k..])[1..] == Visible(chunk[k + 1..]);
  }

  lemma VisibleEnds(chunk: Str, k: nat, q: bool)
    requires k <= |chunk| && (k == |chunk| || chunk[k] == NUL)
    ensures Visible(chunk[k..]) == [] && Toggled(q, []) == q
  {
  }

  /** The part of the buffer up to its zero byte is counted, and the quotes in it. */
  method ScanPart(chunk: Str, q0: bool) returns (k: nat, q: bool)
    ensures k == |Visible(chunk)| && q == Toggled(q0, Visible(chunk))
  {
    hide Visible, Toggled;
    k, q := 0, q0;
    assert chunk[0..] == chunk;
    while k < |chunk| && chunk[k] != NUL
      invariant k <= |chunk|
      invariant |Visible(chunk)| == k + |Visible(chunk[k..])|
      invariant Toggled(q0, Visible(chunk)) == Toggled(q, Visible(chunk[k..]))
    {
      VisibleStep(chunk, k, q);
      if chunk[k] == QUOTE {
        q := !q;
      }
      k := k + 1;
    }
    VisibleEnds(chunk, k, q);
  }

  /** The line so far: `got` has been read of the text `whole`, and `more` of it is still to come. */
  ghost predicate LineSoFar(whole: Str, got: Str, more: Str, q: bool) {
    && whole == got + more && !EndsLine(got, q)
    && var d := CutLine(more, q); CutLine(whole, false) == (|got| + d.0, d.1)
  }

  lemma LineStarts(whole: Str)
    ensures LineSoFar(whole, [], whole, false)
  {
    assert [] + whole == whole;
  }

  lemma LineGoesOn(whole: Str, got: Str, part: Str, more: Str, q: bool)
    requires LineSoFar(whole, got, part + more, q) && forall j | 0 <= j < |part| - 1 :: part[j] != LF
    ensures var q' := Toggled(q, part);
            && (EndsLine(got + part, q') <==> EndsLine(part, q'))
            && (EndsLine(part, q') ==> CutLine(whole, false) == (|got + part|, true) && whole[..|got + part|] == got + part)
            && (!EndsLine(part, q') ==> LineSoFar(whole, got + part, more, q'))
            && whole == got + part + more
  {
    CutPart(part, more, q);
    if part == [] {
      assert got + part == got;
    } else {
      assert (got + part)[|got + part| - 1] == part[|part| - 1];
    }
  }

  /** `local_getline` with csvFlag set.  The buffer grows so that every read has room; what a read brought
      behind a zero byte is overwritten by the next. */
  method GetLine(file: Str, pos: nat) returns (found: bool, line: Str, next: nat)
    requires pos <= |file|
    ensures found <==> Contents(file, pos) != []
    ensures found ==>
              && pos < next <= |file| && line == LineOf(Contents(file, pos))
              && Contents(file, next) == Contents(file, pos)[CutLine(Contents(file, pos), false).0..]
  {
    hide CutLine, LineOf, WithoutEnd, Visible, Toggled, EndsLine, Seen, ReadEnd, LineSoFar;
    var nLine, inQuote := 100, false;
    next, line := pos, [];
    ghost var whole := Contents(file, pos);
    LineStarts(whole);
    while true
      invariant |line| < nLine && 100 <= nLine && pos <= next <= |file| && (line != [] ==> pos < next)
      invariant LineSoFar(whole, line, Seen(file, next, |line|, nLine, inQuote), inQuote)
      decreases |file| - next
    {
      SeenStep(file, next, |line|, nLine, inQuote);
      if |line| + 100 > nLine {
        nLine := nLine * 2 + 100;
      }
      var end := Fgets(file, next, nLine - |line|);
      if end == next {
        AtEnd(file, whole, line, inQuote);
        return line != [], line, next;
      }
      var k, q := ScanPart(file[next..end], inQuote);
      var part := file[next..end][..k];
      assert part == Visible(file[next..end]);
      LineGoesOn(whole, line, part, After(file, end, |line|, part, nLine, inQuote), inQuote);
      line := line + part;
      next, inQuote := end, q;
      if line != [] && line[|line| - 1] == LF && !inQuote {
        LineEnds(line, inQuote);
        LineFound(whole);
        line := TrimEnd(line);
        return true, line, next;
      }
      LineEnds(line, inQuote);
    }
  }

  /** What is seen behind a part of a line. */
  ghost function After(file: Str, end: nat, n: nat, part: Str, size: nat, q: bool): Str
    requires end <= |file| && n + |part| < size && 100 <= size
  {
    if EndsLine(part, Toggled(q, part)) then Contents(file, end) else Seen(file, end, n + |part|, size, Toggled(q, part))
  }

  lemma SeenStep(file: Str, pos: nat, n: nat, nLine: nat, q: bool)
    requires pos <= |file| && n < nLine && 100 <= nLine
    ensures var size := Grown(nLine, n);
            var end := ReadEnd(file, pos, size - n - 1);
            var part := Visible(file[pos..end]);
            && n + |part| < size && (forall j | 0 <= j < |part| - 1 :: part[j] != LF)
            && (end == pos ==> pos == |file|)
            && Seen(file, pos, n, nLine, q) == if end == pos then [] else part + After(file, end, n, part, size, q)
  {
    hide Toggled, EndsLine, ReadEnd, Visible;
    var end := ReadEnd(file, pos, Grown(nLine, n) - n - 1);
    var part := Visible(file[pos..end]);
    assert forall j | 0 <= j < |part| - 1 :: part[j] == file[pos..end][j] == file[pos + j];
  }

  lemma LineEnds(line: Str, q: bool)
    ensures EndsLine(line, q) <==> line != [] && line[|line| - 1] == LF && !q
  {
  }

  lemma AtEnd(file: Str, whole: Str, line: Str, q: bool)
    requires LineSoFar(whole, line, [], q)
    ensures whole == line && LineOf(whole) == line && CutLine(whole, false) == (|line|, false)
    ensures Contents(file, |file|) == [] == whole[|line|..]
  {
    assert line + [] == line;
  }

  lemma LineFound(text: Str)
    ensures var (n, ended) := CutLine(text, false);
            LineOf(text) == if ended then WithoutEnd(text[..n]) else text[..n]
  {
  }

  /** The line feed, and a carriage return before it, are cut off. */
  method TrimEnd(line: Str) returns (trimmed: Str)
    requires line != []
    ensures trimmed == WithoutEnd(line)
  {
    var n := |line|;
    n := n - 1;
    if n > 0 && line[n - 1] == CR {
      n := n - 1;
    }
    trimmed := line[..n];
  }

  // ---------- splitting and dequoting in place ----------

  /** C strings one behind the other, each with its terminator. */
  function Packed(fields: seq<Str>): Str {
    if fields == [] then []
    else Packed(fields[..|fields| - 1]) + fields[|fields| - 1] + [NUL]
  }

  lemma PackedNone(fields: seq<Str>)
    requires fields == []
    ensures Packed(fields) == []
  {
  }

  lemma PackedAppend(fields: seq<Str>, f: Str)
    ensures Packed(fields + [f]) == Packed(fields) + f + [NUL]
  {
    assert (fields + [f])[..|fields|] == fields;
  }

  /** What the splitting loop will have found in the end: the fields `done`, the one it is in, and
      those still ahead. */
  ghost function Outlook(done: seq<Str>, line: Str, start: nat, p: nat, q: bool, sep: Byte): seq<Str>
    requires start <= p <= |line|
  {
    var rest := SplitFields(line[p..], q, sep);
    done + [line[start..p] + rest[0]] + rest[1..]
  }

  /** A separator outside quotes completes the field before it. */
  lemma OutlookAtSeparator(done: seq<Str>, line: Str, start: nat, p: nat, q: bool, sep: Byte)
    requires start <= p < |line| && !Toggle(q, line[p]) && line[p] == sep
    ensures Outlook(done, line, start, p, q, sep) ==
            Outlook(done + [line[start..p]], line, p + 1, p + 1, Toggle(q, line[p]), sep)
  {
    var rest := SplitFields(line[p + 1..], Toggle(q, line[p]), sep);
    assert line[p..][1..] == line[p + 1..];
    assert SplitFields(line[p..], q, sep) == [[]] + rest;
    assert line[start..p] + [] == line[start..p] && line[p + 1..p + 1] + rest[0] == rest[0];
    assert ([[]] + rest)[1..] == rest && rest == [rest[0]] + rest[1..];
    assert done + [line[start..p]] + rest == done + [line[start..p]] + ([rest[0]] + rest[1..]);
  }

  /** Any other byte belongs to the field. */
  lemma OutlookInside(done: seq<Str>, line: Str, start: nat, p: nat, q: bool, sep: Byte)
    requires start <= p < |line| && (Toggle(q, line[p]) || line[p] != sep)
    ensures Outlook(done, line, start, p, q, sep) == Outlook(done, line, start, p + 1, Toggle(q, line[p]), sep)
  {
    var rest := SplitFields(line[p + 1..], Toggle(q, line[p]), sep);
    assert line[p..][1..] == line[p + 1..];
    assert SplitFields(line[p..], q, sep) == [[line[p]] + rest[0]] + rest[1..];
    assert line[start..p] + ([line[p]] + rest[0]) == line[start..p + 1] + rest[0];
  }

  /** Writing a terminator over the separator packs the field. */
  lemma PackField(done: seq<Str>, line: Str, start: nat, p: nat)
    requires start <= p < |line|
    ensures var z := Packed(done) + line[start..] + [NUL];
            z[|Packed(done)| + (p - start) := NUL] == Packed(done + [line[start..p]]) + line[p + 1..] + [NUL]
  {
    hide Packed;
    PackedAppend(done, line[start..p]);
    assert line[start..] == line[start..p] + [line[p]] + line[p + 1..];
  }

  /** The splitting loop of `.import`: separators outside quotes become terminators, and the places
      behind them are noted, as long as there are columns for them. */
  method SplitLine(z: array<Byte>, sep: Byte, columns: nat, ghost line: Str) returns (count: nat, cols: seq<nat>)
    requires columns > 0 && NulFree(line) && z[..] == line + [NUL]
    modifies z
    ensures var fields := SplitFields(line, false, sep);
            && count == |fields| && z[..] == Packed(fields)
            && |cols| == (if count < columns then count else columns)
            && forall k | 0 <= k < |cols| :: cols[k] == |Packed(fields[..k])|
  {
    hide Packed, SplitFields, Outlook;
    ghost var fields := SplitFields(line, false, sep);
    var i, p, inQuote := 0, 0, false;
    cols := [0];
    ghost var done: seq<Str>, start := [], 0;
    Starting(line, sep);
    while z[p] != NUL
      invariant start <= p <= |line| && z.Length == |line| + 1
      invariant |Packed(done)| == start && z[..] == Packed(done) + line[start..] + [NUL]
      invariant |done| == i < |fields| && Outlook(done, line, start, p, inQuote, sep) == fields
      invariant |cols| == if i < columns then i + 1 else columns
      invariant forall k | 0 <= k < |cols| :: cols[k] == |Packed(fields[..k])|
      decreases |line| - p
    {
      var c := z[p];
      ghost var q := inQuote;
      assert c == line[p];
      if c == QUOTE {
        inQuote := !inQuote;
      }
      if !inQuote && c == sep {
        z[p] := NUL;
        PackField(done, line, start, p);
        OutlookAtSeparator(done, line, start, p, q, sep);
        done := done + [line[start..p]];
        OutlookPrefix(done, line, p + 1, p + 1, inQuote, sep);
        i := i + 1;
        start := p + 1;
        if i < columns {
          cols := cols + [p + 1];
        }
      } else {
        OutlookInside(done, line, start, p, q, sep);
      }
      p := p + 1;
    }
    assert p == |line|;
    Ending(done, line, start, inQuote, sep);
    count := i + 1;
  }

  lemma OutlookPrefix(done: seq<Str>, line: Str, start: nat, p: nat, q: bool, sep: Byte)
    requires start <= p <= |line|
    ensures var fields := Outlook(done, line, start, p, q, sep);
            |done| < |fields| && fields[..|done|] == done
  {
    hide SplitFields;
  }

  lemma Starting(line: Str, sep: Byte)
    ensures Packed([]) == [] && Outlook([], line, 0, 0, false, sep) == SplitFields(line, false, sep)
  {
    hide SplitFields;
    var rest := SplitFields(line, false, sep);
    assert line[0..] == line && line[0..0] + rest[0] == rest[0];
    assert [] + [rest[0]] + rest[1..] == rest;
  }

  lemma Ending(done: seq<Str>, line: Str, start: nat, q: bool, sep: Byte)
    requires start <= |line|
    ensures var fields := Outlook(done, line, start, |line|, q, sep);
            |fields| == |done| + 1 && Packed(fields) == Packed(done) + line[start..] + [NUL]
  {
    PackedAppend(done, line[start..]);
    assert line[start..|line|] + [] == line[start..];
    assert Outlook(done, line, start, |line|, q, sep) == done + [line[start..]];
  }

  /** The dequoting loop of `.import`, on the field at `off`.  The place it writes to stays behind the
      place it reads from, and it does not leave the field. */
  method Dequote(z: array<Byte>, off: nat, ghost field: Str)
    requires Holds(z[..], off, field) && NulFree(field) && field != [] && field[0] == QUOTE
    modifies z
    ensures Holds(z[..], off, Unquote(field))
    ensures z[..off] == old(z[..off]) && z[off + |field|..] == old(z[off + |field|..])
  {
    hide Unquote, NulFree, Holds, Midway, Decoded;
    HoldsRoom(z[..], off, field);
    ghost var pre, post := z[..off], z[off + |field|..];
    ghost var out: Str := [];
    var j, k := 1, 0;
    MidwayStart(z[..], pre, field, 1, post);
    MidwayRead(z[..], pre, out, field, 1, 1, post);
    DecodedStart(field);
    var closed := false;
    while !closed && z[off + j] != NUL
      invariant |out| == k < j <= |field| && off + j < z.Length
      invariant Decoded(out, field, j) && Midway(z[..], pre, out, field, j, post)
      invariant closed ==> j == |field|
      decreases |field| - j
    {
      MidwayRead(z[..], pre, out, field, j, j, post);
      j, k, closed, out := DequoteStep(z, off, j, k, pre, out, field, post);
      MidwayRead(z[..], pre, out, field, j, j, post);
    }
    MidwayRead(z[..], pre, out, field, j, j, post);
    DecodedEnd(out, field, j);
    ghost var before := z[..];
    z[off + k] := NUL;
    MidwayEnd(before, z[..], off + k, pre, out, field, j, post);
  }

  /** One turn of the loop: the byte at `j` is copied, or the one behind it if it is a quote; a quote
      with nothing behind it closes the field. */
  method DequoteStep(z: array<Byte>, off: nat, j0: nat, k0: nat, ghost pre: Str, ghost out: Str, ghost field: Str, ghost post: Str)
    returns (j: nat, k: nat, closed: bool, ghost out': Str)
    requires |pre| == off && |out| == k0 < j0 < |field| && NulFree(field)
    requires Decoded(out, field, j0) && Midway(z[..], pre, out, field, j0, post)
    modifies z
    ensures j0 < j && |out'| == k < j <= |field| && (closed ==> j == |field|)
    ensures Decoded(out', field, j) && Midway(z[..], pre, out', field, j, post)
  {
    hide NulFree, Midway, Decoded;
    j, k, closed, out' := j0, k0, false, out;
    MidwayRead(z[..], pre, out, field, j, j, post);
    MidwayRead(z[..], pre, out, field, j, j + 1, post);
    if z[off + j] == QUOTE {
      j := j + 1;
      if z[off + j] == NUL {
        DecodedClose(out, field, j0);
        MidwaySkip(z[..], pre, out, field, j0, j, post);
        closed := true;
        return;
      }
    }
    DecodedCopy(out, field, j0, j);
    ghost var before := z[..];
    z[off + k] := z[off + j];
    MidwayWrite(before, z[..], off + k, field[j], pre, out, field, j0, j + 1, post);
    out' := out + [field[j]];
    k := k + 1;
    j := j + 1;
  }

  /** `out` is what the field yields up to place `j`. */
  ghost predicate Decoded(out: Str, field: Str, j: nat)
    requires 0 < j <= |field|
  {
    out + UnquoteBody(field[j..]) == UnquoteBody(field[1..])
  }

  lemma DecodedStart(field: Str)
    requires field != []
    ensures Decoded([], field, 1)
  {
  }

  lemma DecodedCopy(out: Str, field: Str, j0: nat, j: nat)
    requires 0 < j0 <= j < |field| && Decoded(out, field, j0)
    requires if field[j0] == QUOTE then j == j0 + 1 else j == j0
    ensures Decoded(out + [field[j]], field, j + 1)
  {
    assert field[j0..][1..] == field[j0 + 1..];
    assert field[j0..][j + 1 - j0..] == field[j + 1..];
  }

  lemma DecodedClose(out: Str, field: Str, j0: nat)
    requires 0 < j0 && j0 + 1 == |field| && field[j0] == QUOTE && Decoded(out, field, j0)
    ensures Decoded(out, field, |field|)
  {
  }

  lemma DecodedEnd(out: Str, field: Str, j: nat)
    requires 0 < j == |field| && Decoded(out, field, j) && field[0] == QUOTE
    ensures out == Unquote(field)
  {
  }

  method ReadString(z: array<Byte>, off: nat, ghost s: Str) returns (r: Str)
    requires Holds(z[..], off, s) && NulFree(s)
    ensures r == s
  {
    r := [];
    while z[off + |r|] != NUL
      invariant |r| <= |s| && r == s[..|r|]
      decreases |s| - |r|
    {
      assert z[..][off..off + |s|][|r|] == s[|r|];
      r := r + [z[off + |r|]];
    }
  }

  /** Where a packed string lies. */
  lemma {:induction false} PackedAt(fields: seq<Str>, k: nat)
    requires k < |fields|
    ensures Holds(Packed(fields), |Packed(fields[..k])|, fields[k])
    ensures |Packed(fields[..k + 1])| == |Packed(fields[..k])| + |fields[k]| + 1 <= |Packed(fields)|
    decreases |fields|
  {
    hide Packed;
    var n := |fields| - 1;
    var init := fields[..n];
    assert fields == init + [fields[n]];
    PackedAppend(init, fields[n]);
    if k < n {
      PackedAt(init, k);
      assert init[..k] == fields[..k] && init[..k + 1] == fields[..k + 1];
      assert Packed(fields)[|Packed(fields[..k])|..][..|fields[k]|] == Packed(init)[|Packed(fields[..k])|..][..|fields[k]|];
    } else {
      assert fields[..k] == init && fields[..k + 1] == fields;
    }
  }

  lemma {:induction false} UnquoteNulFree(s: Str)
    requires NulFree(s)
    ensures NulFree(UnquoteBody(s))
  {
    if s == [] {
    } else if s[0] != QUOTE {
      UnquoteNulFree(s[1..]);
    } else if |s| > 1 {
      UnquoteNulFree(s[2..]);
    }
  }

  /** One column: dequoted if it begins with a quote, and bound. */
  method TakeColumn(z: array<Byte>, off: nat, ghost field: Str) returns (value: Str)
    requires Holds(z[..], off, field) && NulFree(field)
    modifies z
    ensures value == Unquote(field)
    ensures z[off + |field|..] == old(z[off + |field|..])
  {
    assert field != [] ==> z[off] == z[..][off..off + |field|][0];
    if z[off] == QUOTE {
      Dequote(z, off, field);
      UnquoteNulFree(field[1..]);
    }
    value := ReadString(z, off, Unquote(field));
  }

  /** The columns of a split line, dequoted and bound one after the other. */
  method TakeRow(z: array<Byte>, cols: seq<nat>, ghost fields: seq<Str>) returns (row: seq<Str>)
    requires z[..] == Packed(fields) && |cols| == |fields|
    requires forall k | 0 <= k < |cols| :: cols[k] == |Packed(fields[..k])|
    requires forall k | 0 <= k < |fields| :: NulFree(fields[k])
    modifies z
    ensures row == UnquoteAll(fields)
  {
    hide Packed, Unquote;
    ghost var packed := Packed(fields);
    row := [];
    ghost var c := |Packed(fields[..0])|;
    PackedNone(fields[..0]);
    for i := 0 to |cols|
      invariant c == |Packed(fields[..i])| <= z.Length == |packed| && z[c..] == packed[c..]
      invariant row + UnquoteAll(fields[i..]) == UnquoteAll(fields)
    {
      PackedAt(fields, i);
      assert Holds(z[..], c, fields[i]) by {
        assert z[..][c..c + |fields[i]|] == z[c..][..|fields[i]|] == packed[c..][..|fields[i]|];
        assert z[c + |fields[i]|] == z[c..][|fields[i]|] == packed[c..][|fields[i]|];
      }
      assert z[c + |fields[i]|..] == z[c..][|fields[i]|..] == packed[c + |fields[i]|..];
      var value := TakeColumn(z, cols[i], fields[i]);
      assert fields[i..][1..] == fields[i + 1..];
      ghost var c' := c + |fields[i]| + 1;
      assert z[c'..] == z[c + |fields[i]|..][1..] == packed[c'..];
      c := c';
      row := row + [value];
    }
    assert fields[|fields|..] == [];
  }

  // ---------- the import ----------

  lemma {:induction false} FieldsNulFree(line: Str, q: bool, sep: Byte)
    requires NulFree(line)
    ensures forall k | 0 <= k < |SplitFields(line, q, sep)| :: NulFree(SplitFields(line, q, sep)[k])
  {
    if line != [] {
      FieldsNulFree(line[1..], Toggle(q, line[0]), sep);
    }
  }

  /** The rows found so far, before what the rest of the text yields. */
  function Continued(rows: seq<seq<Str>>, rest: Import): Import {
    match rest
    case BadColumnCount => BadColumnCount
    case Rows(more) => Rows(rows + more)
  }

  lemma ImportLine(rows: seq<seq<Str>>, text: Str, columns: nat, sep: Byte)
    requires text != []
    ensures var fields := SplitFields(LineOf(text), false, sep);
            Continued(rows, ImportText(text, columns, sep)) ==
            if |fields| != columns then BadColumnCount
            else Continued(rows + [UnquoteAll(fields)], ImportText(text[CutLine(text, false).0..], columns, sep))
  {
    hide LineOf, SplitFields, CutLine, UnquoteAll;
    var fields := SplitFields(LineOf(text), false, sep);
    var rest := ImportText(text[CutLine(text, false).0..], columns, sep);
    if rest.Rows? {
      assert rows + ([UnquoteAll(fields)] + rest.rows) == rows + [UnquoteAll(fields)] + rest.rows;
    }
  }

  /** The reading loop of `.import`, into a table with the given number of columns. */
  method ImportFile(file: Str, columns: nat, sep: Byte) returns (result: Import)
    requires columns > 0
    ensures result == ImportText(Contents(file, 0), columns, sep)
  {
    hide LineOf, SplitFields, CutLine, UnquoteAll, ImportText, Packed, Contents;
    ghost var whole := Contents(file, 0);
    var rows: seq<seq<Str>> := [];
    var pos := 0;
    ImportNothingYet(whole, columns, sep);
    while true
      invariant pos <= |file|
      invariant ImportText(whole, columns, sep) == Continued(rows, ImportText(Contents(file, pos), columns, sep))
      decreases |file| - pos
    {
      var found, line, next := GetLine(file, pos);
      if !found {
        ImportEnd(rows, Contents(file, pos), columns, sep);
        return Rows(rows);
      }
      ContentsNulFree(file, pos);
      LineNulFree(Contents(file, pos));
      ImportLine(rows, Contents(file, pos), columns, sep);
      var z := new Byte[|line| + 1](i requires 0 <= i <= |line| => if i < |line| then line[i] else NUL);
      assert z[..] == line + [NUL];
      var count, cols := SplitLine(z, sep, columns, line);
      if count != columns {
        return BadColumnCount;
      }
      FieldsNulFree(line, false, sep);
      var row := TakeRow(z, cols, SplitFields(line, false, sep));
      rows := rows + [row];
      pos := next;
    }
  }

  lemma ContentsNulFree(file: Str, pos: nat)
    requires pos <= |file|
    ensures NulFree(Contents(file, pos))
  {
    hide Seen;
    SeenNulFree(file, pos, 0, 100, false);
  }

  lemma ImportNothingYet(file: Str, columns: nat, sep: Byte)
    ensures ImportText(file, columns, sep) == Continued([], ImportText(file, columns, sep))
  {
    hide ImportText;
    var rest := ImportText(file, columns, sep);
    if rest.Rows? { assert [] + rest.rows == rest.rows; }
  }

  lemma ImportEnd(rows: seq<seq<Str>>, text: Str, columns: nat, sep: Byte)
    requires text == []
    ensures Continued(rows, ImportText(text, columns, sep)) == Rows(rows)
  {
    assert rows + [] == rows;
  }

  lemma LineNulFree(text: Str)
    requires NulFree(text)
    ensures NulFree(LineOf(text))
  {
    hide CutLine;
  }

  /** A table printed in CSV mode and imported again. */
  method PrintAndImport(rows: seq<seq<Str>>, columns: nat, sep: Byte) returns (result: Import)
    requires columns > 0 && forall i | 0 <= i < |rows| :: |rows[i]| == columns
    requires sep != NUL && Separates(sep, columns)
    requires forall i | 0 <= i < |rows| :: forall j | 0 <= j < |rows[i]| :: NulFree(rows[i][j])
    ensures result == Rows(rows)
  {
    hide CsvTable, ImportText, Contents;
    var text := PrintTable(rows, sep);
    TableNulFree(rows, sep);
    SeenExactly(text);
    result := ImportFile(text, columns, sep);
    RoundTrip(rows, columns, sep);
  }

  lemma {:induction false} TableNulFree(rows: seq<seq<Str>>, sep: Byte)
    requires sep != NUL
    requires forall i | 0 <= i < |rows| :: forall j | 0 <= j < |rows[i]| :: NulFree(rows[i][j])
    ensures NulFree(CsvTable(rows, sep))
  {
    hide CsvRow;
    if rows != [] {
      RowNulFree(rows[0], sep);
      TableNulFree(rows[1..], sep);
    }
  }

  lemma {:induction false} RowNulFree(row: seq<Str>, sep: Byte)
    requires sep != NUL && forall j | 0 <= j < |row| :: NulFree(row[j])
    ensures NulFree(CsvRow(row, sep))
  {
    if row != [] {
      DoubledNulFree(row[0]);
      RowNulFree(row[1..], sep);
    }
  }

  lemma {:induction false} DoubledNulFree(z: Str)
    requires NulFree(z)
    ensures NulFree(Doubled(z))
  {
    if z != [] { DoubledNulFree(z[1..]); }
  }
}
