/** The CSV dialect of `saveCSV` and `parseCSVLine`: every present cell is
    quoted with inner quotes doubled, cells are joined by commas and rows by
    line feeds, and the file starts with a byte-order mark. */
module CsvFormat {

  const Quote: char := '"'
  const Comma: char := ','
  const NewLine: char := '\n'
  /** U+FEFF, written first so spreadsheet programs read the text as UTF-8. */
  const Bom: char := '\U{FEFF}'

  /** A cell: `null`/`undefined`, or the text `String(cell)`. */
  datatype Cell = Missing | Text(s: string)

  /** `String(cell).replace(/"/g, '""')`. */
  function EscapeQuotes(s: string): (r: string)
    ensures |r| >= |s|
    ensures Comma in s ==> Comma in r
    ensures (forall k :: 0 <= k < |s| ==> s[k] != Quote) ==> r == s
    decreases |s|
  {
    if s == [] then []
    else (if s[0] == Quote then [Quote, Quote] else [s[0]]) + EscapeQuotes(s[1..])
  }

  /** One cell of `saveCSV`: empty for a missing cell, otherwise quoted.
      Read back alone by `parseCSVLine`, it gives its decoded text. */
  function EncodeCell(c: Cell): (e: string)
    ensures ParseCsvLine(e) == [DecodedCell(c)]
  {
    match c
    case Missing => ""
    case Text(s) =>
      ScanQuotedCell(s, [], []);
      assert [Quote] + EscapeQuotes(s) + [Quote] + [] == [Quote] + EscapeQuotes(s) + [Quote];
      assert [] + DecodedCell(c) == DecodedCell(c);
      [Quote] + EscapeQuotes(s) + [Quote]
  }

  /** A row: encoded cells joined by commas. */
  function EncodeRow(row: seq<Cell>): string
    decreases |row|
  {
    if row == [] then ""
    else if |row| == 1 then EncodeCell(row[0])
    else EncodeCell(row[0]) + [Comma] + EncodeRow(row[1..])
  }

  /** Lines joined by line feeds. */
  function JoinLines(lines: seq<string>): string
    decreases |lines|
  {
    if lines == [] then ""
    else if |lines| == 1 then lines[0]
    else lines[0] + [NewLine] + JoinLines(lines[1..])
  }

  function EncodeRows(data: seq<seq<Cell>>): (lines: seq<string>)
    ensures |lines| == |data| && forall k :: 0 <= k < |data| ==> lines[k] == EncodeRow(data[k])
  {
    seq(|data|, k requires 0 <= k < |data| => EncodeRow(data[k]))
  }

  /** No cell of the table holds a line feed. */
  predicate AllOnOneLine(data: seq<seq<Cell>>) {
    forall r, k :: 0 <= r < |data| && 0 <= k < |data[r]| ==> CellOnOneLine(data[r][k])
  }

  /** The file contents `saveCSV(data, filename)` writes: the byte-order
      mark, then the encoded rows; when no cell holds a line feed,
      `split('\n')` finds the encoded rows again, the first one behind the
      mark. */
  function SaveCsv(data: seq<seq<Cell>>): (text: string)
    ensures |text| >= 1 && text[0] == Bom
    ensures data != [] && AllOnOneLine(data) ==>
              var lines := SplitLines(text);
              && |lines| == |data| && lines[0] == [Bom] + EncodeRow(data[0])
              && forall r :: 1 <= r < |data| ==> lines[r] == EncodeRow(data[r])
  {
    var rows := EncodeRows(data);
    if data != [] && AllOnOneLine(data) then
      SplitSaved(data);
      [Bom] + JoinLines(rows)
    else
      [Bom] + JoinLines(rows)
  }

  // ---------------------------------------------------------------------
  // parseCSVLine

  /** The scan of `parseCSVLine` from the current position: `inside` is
      `insideQuotes`, `cur` is `currentValue`.  A doubled quote is a literal
      quote wherever it occurs; a single quote toggles quoting; a comma
      outside quotes ends a field. */
  function Scan(s: string, inside: bool, cur: string): (fields: seq<string>)
    ensures |fields| >= 1
    ensures Plain(s) ==> fields == [cur + s]
    decreases |s|
  {
    if s == [] then
      assert cur + s == cur;
      [cur]
    else if s[0] == Quote then
      if |s| > 1 && s[1] == Quote then Scan(s[2..], inside, cur + [Quote])
      else Scan(s[1..], !inside, cur)
    else if s[0] == Comma && !inside then [cur] + Scan(s[1..], false, [])
    else
      assert Plain(s) ==> Plain(s[1..]);
      assert cur + [s[0]] + s[1..] == cur + s;
      Scan(s[1..], inside, cur + [s[0]])
  }

  /** Text with neither quotes nor commas. */
  predicate Plain(s: string) {
    forall k :: 0 <= k < |s| ==> s[k] != Quote && s[k] != Comma
  }

  /** `parseCSVLine(line)`: at least one field, and a line with neither
      quotes nor commas is a single field. */
  function ParseCsvLine(line: string): (fields: seq<string>)
    ensures |fields| >= 1
    ensures Plain(line) ==> fields == [line]
  {
    assert [] + line == line;
    Scan(line, false, [])
  }

  // One step of the scan for each kind of leading character.

  lemma ScanDoubled(x: string, inside: bool, cur: string)
    ensures Scan([Quote, Quote] + x, inside, cur) == Scan(x, inside, cur + [Quote])
  {
    assert ([Quote, Quote] + x)[2..] == x;
  }

  lemma ScanToggle(x: string, inside: bool, cur: string)
    requires x == [] || x[0] != Quote
    ensures Scan([Quote] + x, inside, cur) == Scan(x, !inside, cur)
  {
    assert ([Quote] + x)[1..] == x;
  }

  lemma ScanSeparator(x: string, cur: string)
    ensures Scan([Comma] + x, false, cur) == [cur] + Scan(x, false, [])
  {
    assert ([Comma] + x)[1..] == x;
  }

  lemma ScanOrdinary(c: char, x: string, inside: bool, cur: string)
    requires c != Quote && (c != Comma || inside)
    ensures Scan([c] + x, inside, cur) == Scan(x, inside, cur + [c])
  {
    assert ([c] + x)[1..] == x;
  }

  predicate AllQuotes(s: string) {
    forall k :: 0 <= k < |s| ==> s[k] == Quote
  }

  /** What `parseCSVLine` gives back for an encoded cell: the text itself,
      except that a text made only of quotes (the empty text included) comes
      back with one quote more, because the opening quote pairs with the
      first quote after it; a missing cell comes back empty. */
  function DecodedCell(c: Cell): string {
    match c
    case Missing => ""
    case Text(s) => if AllQuotes(s) then s + [Quote] else s
  }

  lemma EscapeStep(t: string)
    requires t != []
    ensures EscapeQuotes(t) == (if t[0] == Quote then [Quote, Quote] else [t[0]]) + EscapeQuotes(t[1..])
  {
  }

  /** Inside quotes, escaped text followed by the closing quote reads as the
      text, provided the closing quote is not followed by another quote. */
  lemma {:induction false} ScanEscaped(t: string, rest: string, cur: string)
    requires rest == [] || rest[0] != Quote
    ensures Scan(EscapeQuotes(t) + [Quote] + rest, true, cur) == Scan(rest, false, cur + t)
    decreases |t|
  {
    if t == [] {
      assert EscapeQuotes(t) + [Quote] + rest == [Quote] + rest;
      ScanToggle(rest, true, cur);
      assert cur + t == cur;
    } else {
      var tail := EscapeQuotes(t[1..]) + [Quote] + rest;
      EscapedSplit(t, rest);
      ScanEscaped(t[1..], rest, cur + [t[0]]);
      AppendFirst(cur, t);
      if t[0] == Quote {
        ScanDoubled(tail, true, cur);
      } else {
        ScanOrdinary(t[0], tail, true, cur);
      }
    }
  }

  lemma EscapedSplit(t: string, rest: string)
    requires t != []
    ensures EscapeQuotes(t) + [Quote] + rest
            == (if t[0] == Quote then [Quote, Quote] else [t[0]]) + (EscapeQuotes(t[1..]) + [Quote] + rest)
  {
    EscapeStep(t);
  }

  lemma AppendFirst(cur: string, t: string)
    requires t != []
    ensures cur + [t[0]] + t[1..] == cur + t
  {
    assert [t[0]] + t[1..] == t;
  }

  lemma AllQuotesStep(t: string)
    requires t != [] && t[0] == Quote
    ensures AllQuotes(t) <==> AllQuotes(t[1..])
  {
    if AllQuotes(t[1..]) {
      forall k | 0 <= k < |t|
        ensures t[k] == Quote
      {
        if k > 0 {
          assert t[k] == t[1..][k - 1];
        }
      }
    }
  }

  /** A leading quote of the text is a leading quote of its decoding. */
  lemma DecodedQuoteStep(t: string)
    requires t != [] && t[0] == Quote
    ensures DecodedCell(Text(t)) == [Quote] + DecodedCell(Text(t[1..]))
  {
    AllQuotesStep(t);
    assert [Quote] + t[1..] == t;
  }

  /** The encoded form of a text that starts with anything but a quote: the
      opening quote toggles quoting and the escaped text follows. */
  lemma ScanQuotedPlain(t: string, rest: string, cur: string)
    requires t != [] && t[0] != Quote
    requires rest == [] || rest[0] != Quote
    ensures Scan([Quote] + EscapeQuotes(t) + [Quote] + rest, false, cur) == Scan(rest, false, cur + t)
  {
    var tail := EscapeQuotes(t) + [Quote] + rest;
    EscapeStep(t);
    assert [Quote] + EscapeQuotes(t) + [Quote] + rest == [Quote] + tail;
    assert tail[0] == t[0];
    ScanToggle(tail, false, cur);
    ScanEscaped(t, rest, cur);
  }

  /** An encoded text cell followed by something other than a quote reads
      as its decoded text. */
  lemma {:induction false} ScanQuotedCell(t: string, rest: string, cur: string)
    requires rest == [] || rest[0] != Quote
    ensures Scan([Quote] + EscapeQuotes(t) + [Quote] + rest, false, cur) == Scan(rest, false, cur + DecodedCell(Text(t)))
    decreases |t|
  {
    if t == [] {
      ScanQuotedEmpty(rest, cur);
    } else if t[0] == Quote {
      ScanQuotedCell(t[1..], rest, cur + [Quote]);
      ScanLeadingQuote(t, rest, cur);
    } else {
      ScanQuotedPlain(t, rest, cur);
      assert !AllQuotes(t);
    }
  }

  lemma ScanQuotedEmpty(rest: string, cur: string)
    requires rest == [] || rest[0] != Quote
    ensures Scan([Quote] + EscapeQuotes([]) + [Quote] + rest, false, cur) == Scan(rest, false, cur + DecodedCell(Text([])))
  {
    assert [Quote] + EscapeQuotes([]) + [Quote] + rest == [Quote, Quote] + rest;
    ScanDoubled(rest, false, cur);
    assert DecodedCell(Text([])) == [Quote];
  }

  /** A leading quote of the text is written doubled and reads back as one
      quote before the rest of the cell. */
  lemma ScanLeadingQuote(t: string, rest: string, cur: string)
    requires t != [] && t[0] == Quote
    requires Scan([Quote] + EscapeQuotes(t[1..]) + [Quote] + rest, false, cur + [Quote])
             == Scan(rest, false, cur + [Quote] + DecodedCell(Text(t[1..])))
    ensures Scan([Quote] + EscapeQuotes(t) + [Quote] + rest, false, cur) == Scan(rest, false, cur + DecodedCell(Text(t)))
  {
    var tail := [Quote] + EscapeQuotes(t[1..]) + [Quote] + rest;
    QuotedLeadingQuote(t, rest);
    ScanDoubled(tail, false, cur);
    DecodedAfter(t, cur);
  }

  lemma QuotedLeadingQuote(t: string, rest: string)
    requires t != [] && t[0] == Quote
    ensures [Quote] + EscapeQuotes(t) + [Quote] + rest == [Quote, Quote] + ([Quote] + EscapeQuotes(t[1..]) + [Quote] + rest)
  {
    EscapeStep(t);
  }

  lemma DecodedAfter(t: string, cur: string)
    requires t != [] && t[0] == Quote
    ensures cur + [Quote] + DecodedCell(Text(t[1..])) == cur + DecodedCell(Text(t))
  {
    DecodedQuoteStep(t);
  }

  /** Any encoded cell followed by nothing or a comma reads as its decoded
      text. */
  lemma ScanCell(c: Cell, rest: string, cur: string)
    requires rest == [] || rest[0] == Comma
    ensures Scan(EncodeCell(c) + rest, false, cur) == Scan(rest, false, cur + DecodedCell(c))
  {
    match c
    case Missing =>
      assert EncodeCell(c) + rest == rest;
      assert cur + DecodedCell(c) == cur;
    case Text(t) =>
      assert EncodeCell(c) + rest == [Quote] + EscapeQuotes(t) + [Quote] + rest;
      ScanQuotedCell(t, rest, cur);
  }

  function DecodedRow(row: seq<Cell>): (fields: seq<string>)
    ensures |fields| == |row| && forall k :: 0 <= k < |row| ==> fields[k] == DecodedCell(row[k])
  {
    seq(|row|, k requires 0 <= k < |row| => DecodedCell(row[k]))
  }

  /** Round trip of a row: `parseCSVLine` of an encoded non-empty row gives
      one field per cell, each the cell's decoded text. */
  lemma {:induction false} ParseEncodedRow(row: seq<Cell>)
    requires row != []
    ensures ParseCsvLine(EncodeRow(row)) == DecodedRow(row)
    decreases |row|
  {
    if |row| == 1 {
      ScanCell(row[0], [], []);
      assert EncodeRow(row) + [] == EncodeRow(row);
      assert [] + DecodedCell(row[0]) == DecodedCell(row[0]);
      assert DecodedRow(row) == [DecodedCell(row[0])];
    } else {
      var rest := [Comma] + EncodeRow(row[1..]);
      ScanCell(row[0], rest, []);
      assert EncodeRow(row) == EncodeCell(row[0]) + rest;
      assert [] + DecodedCell(row[0]) == DecodedCell(row[0]);
      ScanSeparator(EncodeRow(row[1..]), DecodedCell(row[0]));
      ParseEncodedRow(row[1..]);
      DecodedRowStep(row);
    }
  }

  lemma DecodedRowStep(row: seq<Cell>)
    requires row != []
    ensures DecodedRow(row) == [DecodedCell(row[0])] + DecodedRow(row[1..])
  {
    assert DecodedRow(row) == [DecodedCell(row[0])] + DecodedRow(row[1..]);
  }

  /** Text with a character other than a quote survives the round trip
      unchanged, in its own field. */
  lemma TextRoundTrip(row: seq<Cell>, k: int)
    requires row != [] && 0 <= k < |row|
    requires row[k].Text? && !AllQuotes(row[k].s)
    ensures var fields := ParseCsvLine(EncodeRow(row)); |fields| == |row| && fields[k] == row[k].s
  {
    ParseEncodedRow(row);
  }

  // ---------------------------------------------------------------------
  // Lines

  /** `text.split('\n')`: the pieces between line feeds, at least one. */
  function SplitLines(s: string): (lines: seq<string>)
    ensures |lines| >= 1
    decreases |s|
  {
    if s == [] then [[]]
    else if s[0] == NewLine then [[]] + SplitLines(s[1..])
    else var r := SplitLines(s[1..]); [[s[0]] + r[0]] + r[1..]
  }

  /** Text without a line feed joins the first piece of what follows it. */
  lemma {:induction false} SplitPlainPrefix(a: string, rest: string)
    requires NewLine !in a
    ensures SplitLines(a + rest) == [a + SplitLines(rest)[0]] + SplitLines(rest)[1..]
    decreases |a|
  {
    if a == [] {
      assert a + rest == rest;
      assert a + SplitLines(rest)[0] == SplitLines(rest)[0];
      assert SplitLines(rest) == [SplitLines(rest)[0]] + SplitLines(rest)[1..];
    } else {
      assert a[0] in a;
      assert forall c :: c in a[1..] ==> c in a;
      assert (a + rest)[1..] == a[1..] + rest;
      SplitPlainPrefix(a[1..], rest);
      assert [a[0]] + (a[1..] + SplitLines(rest)[0]) == a + SplitLines(rest)[0];
    }
  }

  /** Splitting joined lines gives the lines back when none holds a line
      feed. */
  lemma {:induction false} SplitJoinedLines(lines: seq<string>)
    requires lines != []
    requires forall k :: 0 <= k < |lines| ==> NewLine !in lines[k]
    ensures SplitLines(JoinLines(lines)) == lines
    decreases |lines|
  {
    if |lines| == 1 {
      SplitPlainPrefix(lines[0], []);
      assert lines[0] + [] == lines[0];
    } else {
      var rest := [NewLine] + JoinLines(lines[1..]);
      assert JoinLines(lines) == lines[0] + rest;
      assert rest[1..] == JoinLines(lines[1..]);
      SplitJoinedLines(lines[1..]);
      SplitPlainPrefix(lines[0], rest);
      assert SplitLines(rest) == [[]] + lines[1..];
      assert lines[0] + [] == lines[0];
    }
  }

  lemma {:induction false} EscapeKeepsLines(s: string)
    requires NewLine !in s
    ensures NewLine !in EscapeQuotes(s)
    decreases |s|
  {
    if s != [] {
      assert s[0] in s;
      assert forall c :: c in s[1..] ==> c in s;
      EscapeKeepsLines(s[1..]);
    }
  }

  predicate CellOnOneLine(c: Cell) {
    c.Text? ==> NewLine !in c.s
  }

  /** A row whose texts hold no line feed encodes to one line. */
  lemma {:induction false} RowOnOneLine(row: seq<Cell>)
    requires forall k :: 0 <= k < |row| ==> CellOnOneLine(row[k])
    ensures NewLine !in EncodeRow(row)
    decreases |row|
  {
    if row != [] {
      if row[0].Text? {
        EscapeKeepsLines(row[0].s);
      }
      if |row| > 1 {
        RowOnOneLine(row[1..]);
      }
    }
  }

  /** The saved text splits back into the encoded rows, the mark in front
      of the first. */
  lemma SplitSaved(data: seq<seq<Cell>>)
    requires data != [] && AllOnOneLine(data)
    ensures SplitLines([Bom] + JoinLines(EncodeRows(data))) == [[Bom] + EncodeRows(data)[0]] + EncodeRows(data)[1..]
  {
    var rows := EncodeRows(data);
    RowsOnOneLine(data);
    SplitJoinedLines(rows);
    SplitPlainPrefix([Bom], JoinLines(rows));
  }

  /** Every encoded row of a table without line feeds is one line. */
  lemma RowsOnOneLine(data: seq<seq<Cell>>)
    requires AllOnOneLine(data)
    ensures forall r :: 0 <= r < |data| ==> NewLine !in EncodeRows(data)[r]
  {
    forall r | 0 <= r < |data|
      ensures NewLine !in EncodeRows(data)[r]
    {
      RowOnOneLine(data[r]);
    }
  }
}
