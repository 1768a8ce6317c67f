/**
 * The naive CSV decoder: trim the text, split it on line feeds, split each line
 * on commas, trim every field and strip its double quotes, and pair the cells of
 * each data line with the header fields by position. Quoted commas and quoted
 * line breaks are not understood; a quoted field is simply cut at its commas.
 */
module Csv {
  import opened Wrappers
  import opened Seqs
  import opened Text
  import opened Rows

  /** A header or cell: whitespace trimmed, then every double quote removed. */
  function CleanField(f: string): (r: string)
    ensures '"' !in r
    ensures multiset(r) == multiset(Trim(f))['"' := 0]
    ensures IsSubsequence(r, Trim(f))
  {
    RemoveChar(Trim(f), '"')
  }

  /** The cleaned comma-separated fields of one line. */
  function CleanFields(line: string): (fields: seq<string>)
    ensures |fields| == |Split(line, ',')|
    ensures forall i :: 0 <= i < |fields| ==> '"' !in fields[i]
    ensures forall i {:trigger fields[i], Split(line, ',')[i]} :: 0 <= i < |fields| ==> fields[i] == CleanField(Split(line, ',')[i])
  {
    var raw := Split(line, ',');
    seq(|raw|, i requires 0 <= i < |raw| => CleanField(raw[i]))
  }

  /** `values[index] ? values[index] : ''`: a missing or empty cell reads as the empty string. */
  function CellAt(values: seq<string>, i: int): string {
    if 0 <= i < |values| && values[i] != "" then values[i] else ""
  }

  /**
   * The `reduce` over the headers that builds one row: every header becomes a key,
   * in the order the headers come, and the key's cell is set from the column at
   * the same position.
   */
  function BuildRow(headers: seq<string>, values: seq<string>): (row: Row)
    ensures WellFormed(row)
    ensures forall k :: k in row.cells <==> k in headers
    decreases |headers|
  {
    if headers == [] then Row([], map[])
    else
      var n := |headers| - 1;
      assert headers == headers[..n] + [headers[n]];
      Put(BuildRow(headers[..n], values), headers[n], CellAt(values, n))
  }

  /** For a repeated header name, the cell of its last column wins. */
  lemma {:induction false} BuildRowLastWins(headers: seq<string>, values: seq<string>, k: string)
    requires k in headers
    ensures BuildRow(headers, values).cells[k] == CellAt(values, LastIndexOf(headers, k))
    decreases |headers|
  {
    var n := |headers| - 1;
    if headers[n] != k {
      assert headers == headers[..n] + [headers[n]];
      BuildRowLastWins(headers[..n], values, k);
    }
  }

  /** `keys` lists names in the order of their first appearance in `headers`. */
  ghost predicate InFirstSeenOrder(keys: seq<string>, headers: seq<string>) {
    forall i, j :: 0 <= i < j < |keys| ==> IndexOf(headers, keys[i]) < IndexOf(headers, keys[j])
  }

  /** The keys keep the order in which each header name first appears. */
  lemma {:induction false} BuildRowKeyOrder(headers: seq<string>, values: seq<string>)
    ensures InFirstSeenOrder(BuildRow(headers, values).keys, headers)
    decreases |headers|
  {
    if headers != [] {
      var n := |headers| - 1;
      var prefix := headers[..n];
      var last := headers[n];
      assert headers == prefix + [last];
      BuildRowKeyOrder(prefix, values);
      var before := BuildRow(prefix, values).keys;
      assert forall i :: 0 <= i < |before| ==> before[i] in prefix;
      if last in prefix {
        KeyOrderKeep(before, prefix, last);
        assert BuildRow(headers, values).keys == before;
      } else {
        KeyOrderExtend(before, prefix, last);
        assert BuildRow(headers, values).keys == before + [last];
      }
    }
  }

  /** Appending a name leaves the first positions of the earlier names where they were. */
  lemma PrefixIndexes(prefix: seq<string>, last: string)
    ensures forall k :: k in prefix ==> IndexOf(prefix + [last], k) == IndexOf(prefix, k) < |prefix|
  {
    forall k | k in prefix
      ensures IndexOf(prefix + [last], k) == IndexOf(prefix, k) < |prefix|
    {
      IndexOfAppend(prefix, last, k);
    }
  }

  lemma KeyOrderKeep(before: seq<string>, prefix: seq<string>, last: string)
    requires InFirstSeenOrder(before, prefix)
    requires forall i :: 0 <= i < |before| ==> before[i] in prefix
    ensures InFirstSeenOrder(before, prefix + [last])
  {
    PrefixIndexes(prefix, last);
  }

  lemma KeyOrderExtend(before: seq<string>, prefix: seq<string>, last: string)
    requires InFirstSeenOrder(before, prefix)
    requires forall i :: 0 <= i < |before| ==> before[i] in prefix
    requires last !in prefix
    ensures InFirstSeenOrder(before + [last], prefix + [last])
  {
    var keys, headers := before + [last], prefix + [last];
    PrefixIndexes(prefix, last);
    IndexOfAppend(prefix, last, last);
    forall i, j | 0 <= i < j < |keys|
      ensures IndexOf(headers, keys[i]) < IndexOf(headers, keys[j])
    {
      assert keys[i] == before[i] && keys[i] in prefix;
      if j < |before| {
        assert keys[j] == before[j] && keys[j] in prefix;
      }
    }
  }

  /** The keys depend on the headers only, so every row of one text has the same keys. */
  lemma {:induction false} BuildRowKeysIgnoreValues(headers: seq<string>, v1: seq<string>, v2: seq<string>)
    ensures BuildRow(headers, v1).keys == BuildRow(headers, v2).keys
    decreases |headers|
  {
    if headers != [] {
      BuildRowKeysIgnoreValues(headers[..|headers| - 1], v1, v2);
    }
  }

  /** The lines of the text after trimming it; `\r` of a CRLF ending stays on its line. */
  function Lines(text: string): seq<string> {
    Split(Trim(text), '\n')
  }

  /** One row per data line, each paired with the same header fields. */
  function DataRows(headers: seq<string>, dataLines: seq<string>): (rows: seq<Row>)
    ensures |rows| == |dataLines|
  {
    if dataLines == [] then []
    else [BuildRow(headers, CleanFields(dataLines[0]))] + DataRows(headers, dataLines[1..])
  }

  /** Row `i` is built from data line `i`. */
  lemma {:induction false} DataRowsAt(headers: seq<string>, dataLines: seq<string>, i: nat)
    requires i < |dataLines|
    ensures DataRows(headers, dataLines)[i] == BuildRow(headers, CleanFields(dataLines[i]))
  {
    if i > 0 {
      DataRowsAt(headers, dataLines[1..], i - 1);
    }
  }

  /** The rows of a list of lines: the first line names the columns, each later line is one row. */
  function DecodeLines(lines: seq<string>): (rows: seq<Row>)
    ensures |rows| == if |lines| < 2 then 0 else |lines| - 1
  {
    if |lines| < 2 then [] else DataRows(CleanFields(lines[0]), lines[1..])
  }

  /** `parseCSV`: one row per line after the header line; fewer than two lines give no rows. */
  function ParseCsv(text: string): (rows: seq<Row>)
    ensures |rows| == if |Lines(text)| < 2 then 0 else |Lines(text)| - 1
  {
    DecodeLines(Lines(text))
  }

  /**
   * Row `i` comes from line `i + 1`: its keys are the header fields (the same list
   * for every row), no key or cell holds a double quote, and each key's cell is the
   * field of the last column with that header, or "" when the line is too short.
   */
  lemma ParseCsvRow(text: string, i: int)
    requires 0 <= i < |ParseCsv(text)|
    ensures var headers := CleanFields(Lines(text)[0]);
      var values := CleanFields(Lines(text)[i + 1]);
      var row := ParseCsv(text)[i];
      && WellFormed(row)
      && row.keys == ParseCsv(text)[0].keys
      && (forall k :: k in row.cells <==> k in headers)
      && (forall k :: k in row.cells ==> row.cells[k] == CellAt(values, LastIndexOf(headers, k)))
      && (forall k :: k in row.cells ==> '"' !in k && '"' !in row.cells[k])
  {
    var lines := Lines(text);
    var headers := CleanFields(lines[0]);
    var values := CleanFields(lines[i + 1]);
    DecodeLinesAt(lines, i);
    DecodeLinesAt(lines, 0);
    BuildRowKeysIgnoreValues(headers, values, CleanFields(lines[1]));
    BuildRowCells(headers, values);
  }

  /** Every cell of a row comes from the last column of its header, and quote-free fields give quote-free rows. */
  lemma BuildRowCells(headers: seq<string>, values: seq<string>)
    requires forall j :: 0 <= j < |headers| ==> '"' !in headers[j]
    requires forall j :: 0 <= j < |values| ==> '"' !in values[j]
    ensures var row := BuildRow(headers, values);
      forall k :: k in row.cells ==>
        row.cells[k] == CellAt(values, LastIndexOf(headers, k)) && '"' !in k && '"' !in row.cells[k]
  {
    var row := BuildRow(headers, values);
    forall k | k in row.cells
      ensures row.cells[k] == CellAt(values, LastIndexOf(headers, k))
      ensures '"' !in k && '"' !in row.cells[k]
    {
      BuildRowLastWins(headers, values, k);
      assert k in headers;
    }
  }

  /**
   * Trimming comes before quote stripping, so a quoted field keeps its inner
   * text verbatim, padding included: `" x "` reads as ` x `.
   */
  lemma QuotedPaddingKept(inner: string)
    requires '"' !in inner
    ensures CleanField("\"" + inner + "\"") == inner
  {
    var f := "\"" + inner + "\"";
    assert f[0] == '"' && f[|f| - 1] == '"';
    TrimKeepsTrimmed(f);
    RemoveCharAppend("\"" + inner, "\"", '"');
    RemoveCharAppend("\"", inner, '"');
  }

  /** A field without quotes comes out trimmed and otherwise unchanged. */
  lemma CleanFieldUnquoted(f: string)
    requires '"' !in f
    ensures CleanField(f) == Trim(f) && IsTrimmed(CleanField(f))
  {
    var t := TrimStart(f);
    assert '"' !in t by { assert forall i :: 0 <= i < |t| ==> t[i] == f[|f| - |t| + i]; }
    var u := TrimEnd(t);
    assert '"' !in u by { assert forall i :: 0 <= i < |u| ==> u[i] == t[i]; }
  }

  /** A text with no line feed inside it (a header alone) decodes to no rows. */
  lemma ParseCsvSingleLine(text: string)
    requires '\n' !in Trim(text)
    ensures ParseCsv(text) == []
  {
  }

  /** Two data lines under the header `A,B` give two rows keyed A and B. */
  lemma ParseCsvExample(text: string)
    requires text == "A,B\n1,2\n3,4"
    ensures ParseCsv(text) == [
      Row(["A", "B"], map["A" := "1", "B" := "2"]),
      Row(["A", "B"], map["A" := "3", "B" := "4"])]
  {
    var x, y, z := ['A', ',', 'B'], ['1', ',', '2'], ['3', ',', '4'];
    ExampleLines(text, x, y, z);
    ExampleRows(x, y, z);
  }

  lemma ExampleRows(x: string, y: string, z: string)
    requires x == ['A', ',', 'B'] && y == ['1', ',', '2'] && z == ['3', ',', '4']
    ensures DecodeLines([x, y, z]) == [
      Row(["A", "B"], map["A" := "1", "B" := "2"]),
      Row(["A", "B"], map["A" := "3", "B" := "4"])]
  {
    ExampleFields(x, y, z);
    TwoDataLines(x, y, z);
    HeaderPairRow("1", "2");
    HeaderPairRow("3", "4");
  }

  lemma ExampleFields(x: string, y: string, z: string)
    requires x == ['A', ',', 'B'] && y == ['1', ',', '2'] && z == ['3', ',', '4']
    ensures CleanFields(x) == ["A", "B"] && CleanFields(y) == ["1", "2"] && CleanFields(z) == ["3", "4"]
  {
    PlainPair('A', 'B');
    PlainPair('1', '2');
    PlainPair('3', '4');
  }

  lemma ExampleLines(text: string, x: string, y: string, z: string)
    requires text == "A,B\n1,2\n3,4"
    requires x == ['A', ',', 'B'] && y == ['1', ',', '2'] && z == ['3', ',', '4']
    ensures Lines(text) == [x, y, z]
  {
    assert text == x + "\n" + y + "\n" + z;
    assert !IsWhitespace('A') && !IsWhitespace('4');
    assert text[0] == 'A' && text[|text| - 1] == '4';
    ThreeLines(x, y, z);
  }

  lemma TwoDataLines(x: string, y: string, z: string)
    ensures DecodeLines([x, y, z]) == [BuildRow(CleanFields(x), CleanFields(y)), BuildRow(CleanFields(x), CleanFields(z))]
  {
    var lines := [x, y, z];
    var rows := DecodeLines(lines);
    DecodeLinesAt(lines, 0);
    DecodeLinesAt(lines, 1);
    assert rows == [rows[0], rows[1]];
  }

  /** Row `i` of a decoded list of lines is built from the header line and line `i + 1`. */
  lemma DecodeLinesAt(lines: seq<string>, i: nat)
    requires i + 1 < |lines|
    ensures DecodeLines(lines)[i] == BuildRow(CleanFields(lines[0]), CleanFields(lines[i + 1]))
  {
    DataRowsAt(CleanFields(lines[0]), lines[1..], i);
  }

  lemma ThreeLines(x: string, y: string, z: string)
    requires '\n' !in x && '\n' !in y && '\n' !in z
    requires IsTrimmed(x + "\n" + y + "\n" + z)
    ensures Lines(x + "\n" + y + "\n" + z) == [x, y, z]
  {
    var parts := [x, y, z];
    assert parts[1..] == [y, z] && parts[1..][1..] == [z];
    assert Join(parts[1..], '\n') == y + "\n" + z;
    assert Join(parts, '\n') == x + "\n" + (y + "\n" + z);
    assert x + "\n" + (y + "\n" + z) == x + "\n" + y + "\n" + z;
    TrimKeepsTrimmed(x + "\n" + y + "\n" + z);
    SplitJoin(parts, '\n');
  }

  lemma HeaderPairRow(a: string, b: string)
    ensures BuildRow(["A", "B"], [a, b]) == Row(["A", "B"], map["A" := a, "B" := b])
  {
    var headers := ["A", "B"];
    assert headers[..1] == ["A"] && headers[..1][..0] == [];
  }

  /** Cleaning `a,b` for two plain characters gives the two one-letter fields. */
  lemma PlainPair(a: char, b: char)
    requires a != ',' && a != '"' && !IsWhitespace(a) && a != '\n'
    requires b != ',' && b != '"' && !IsWhitespace(b) && b != '\n'
    ensures CleanFields([a, ',', b]) == [[a], [b]]
  {
    var line := [a, ',', b];
    assert Join([[a], [b]], ',') == line;
    SplitJoin([[a], [b]], ',');
    var parts := Split(line, ',');
    PlainField(a);
    PlainField(b);
    var fields := CleanFields(line);
    assert fields[0] == CleanField(parts[0]) && fields[1] == CleanField(parts[1]);
    assert fields == [fields[0], fields[1]];
  }

  /** A one-character field without quote or whitespace is kept as it is. */
  lemma PlainField(a: char)
    requires a != '"' && !IsWhitespace(a)
    ensures CleanField([a]) == [a]
  {
    CleanFieldUnquoted([a]);
    TrimKeepsTrimmed([a]);
  }
}
