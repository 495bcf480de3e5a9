/**
 * `TableFormat`: a list of records printed as a table with one column per
 * key of the first record, each column as wide as its widest entry. A
 * record's values are given by the text `str()` makes of them; what is
 * printed is returned as its lines.
 */
module TableFormatter {
  import opened Wrappers
  import opened PyText

  /** A record: its keys and the `str()` of its values, in dictionary order. */
  type Record = seq<(string, string)>

  const NoRecords: string := "No records"
  const IndexError: string := "IndexError"

  function Keys(r: Record): (ks: seq<string>)
    ensures |ks| == |r| && forall i :: 0 <= i < |r| ==> ks[i] == r[i].0
  {
    seq(|r|, i requires 0 <= i < |r| => r[i].0)
  }

  function Values(r: Record): (vs: seq<string>)
    ensures |vs| == |r| && forall i :: 0 <= i < |r| ==> vs[i] == r[i].1
  {
    seq(|r|, i requires 0 <= i < |r| => r[i].1)
  }

  /** The data rows: the values of every record, in order. */
  function Rows(results: seq<Record>): (rows: seq<seq<string>>)
    ensures |rows| == |results| && forall i :: 0 <= i < |results| ==> rows[i] == Values(results[i])
  {
    seq(|results|, i requires 0 <= i < |results| => Values(results[i]))
  }

  // ---------------------------------------------------------------------
  // Column widths

  /** Every row has an entry in column `j`. */
  predicate HasColumn(data: seq<seq<string>>, j: nat) {
    forall i :: 0 <= i < |data| ==> j < |data[i]|
  }

  /**
   * The inner loop of `_print_table`: starting from `init`, the longest
   * entry of column `j`. It is the maximum of `init` and the entries.
   */
  function Longest(init: nat, data: seq<seq<string>>, j: nat): (r: nat)
    requires HasColumn(data, j)
    ensures init <= r
    ensures forall i :: 0 <= i < |data| ==> |data[i][j]| <= r
  {
    if data == [] then init
    else
      var front := data[..|data| - 1];
      assert forall i :: 0 <= i < |front| ==> front[i] == data[i];
      var m := Longest(init, front, j);
      var c := |data[|data| - 1][j]|;
      if c > m then c else m
  }

  /** The longest entry is one of the entries, unless `init` is longer. */
  lemma {:induction false} LongestAttained(init: nat, data: seq<seq<string>>, j: nat) returns (i: int)
    requires HasColumn(data, j)
    ensures i == -1 ==> Longest(init, data, j) == init
    ensures 0 <= i ==> i < |data| && Longest(init, data, j) == |data[i][j]|
  {
    if data == [] {
      return -1;
    }
    var front := data[..|data| - 1];
    assert forall k :: 0 <= k < |front| ==> front[k] == data[k];
    if |data[|data| - 1][j]| > Longest(init, front, j) {
      return |data| - 1;
    }
    i := LongestAttained(init, front, j);
  }

  /** Every row has exactly one entry per header. */
  predicate Rectangular(headers: seq<string>, data: seq<seq<string>>) {
    forall i :: 0 <= i < |data| ==> |data[i]| == |headers|
  }

  /** The width of each column: its header's length or its longest entry, whichever is larger. */
  function Widths(headers: seq<string>, data: seq<seq<string>>): (ws: seq<nat>)
    requires Rectangular(headers, data)
    ensures |ws| == |headers|
  {
    seq(|headers|, j requires 0 <= j < |headers| => Longest(|headers[j]|, data, j))
  }

  // ---------------------------------------------------------------------
  // The lines of the table

  /** `_print_border` without its closing `+`: a `+` and `width + 2` dashes per column. */
  function BorderCells(widths: seq<nat>): string {
    if widths == [] then ""
    else BorderCells(widths[..|widths| - 1]) + "+" + Repeat('-', Last(widths) + 2)
  }

  function Border(widths: seq<nat>): string {
    BorderCells(widths) + "+"
  }

  /** One cell of a data line: `| `, the text, and spaces up to one past the width. */
  function Cell(text: string, width: nat): string {
    "| " + text + Spaces(width - |text| + 1)
  }

  /** `_print_data_line` without its closing `|`. */
  function CellsLine(cells: seq<string>, widths: seq<nat>): string
    requires |cells| == |widths|
  {
    if cells == [] then ""
    else CellsLine(cells[..|cells| - 1], widths[..|widths| - 1]) + Cell(Last(cells), Last(widths))
  }

  lemma CellsLineAppend(cells: seq<string>, widths: seq<nat>, k: nat)
    requires |cells| == |widths| && k < |cells|
    ensures CellsLine(cells[..k + 1], widths[..k + 1]) == CellsLine(cells[..k], widths[..k]) + Cell(cells[k], widths[k])
  {
    assert cells[..k + 1][..k] == cells[..k] && widths[..k + 1][..k] == widths[..k];
  }

  lemma CellsLineStep(cells: seq<string>, widths: seq<nat>, k: nat, line: string)
    requires |cells| == |widths| && k < |cells| && line == CellsLine(cells[..k], widths[..k])
    ensures line + "| " + cells[k] + Spaces(widths[k] - |cells[k]| + 1) == CellsLine(cells[..k + 1], widths[..k + 1])
  {
    CellsLineAppend(cells, widths, k);
  }

  function DataLine(cells: seq<string>, widths: seq<nat>): string
    requires |cells| == |widths|
  {
    CellsLine(cells, widths) + "|"
  }

  /** A header as printed: title-cased, then underscores turned into spaces. */
  function HeaderText(h: string): string {
    ReplaceChar(Title(h), '_', " ")
  }

  function HeaderTexts(headers: seq<string>): (r: seq<string>)
    ensures |r| == |headers| && forall j :: 0 <= j < |headers| ==> r[j] == HeaderText(headers[j])
  {
    seq(|headers|, j requires 0 <= j < |headers| => HeaderText(headers[j]))
  }

  /** The data lines, one per row. */
  function DataLines(data: seq<seq<string>>, ws: seq<nat>): (r: seq<string>)
    requires forall i :: 0 <= i < |data| ==> |data[i]| == |ws|
    ensures |r| == |data| && forall i :: 0 <= i < |data| ==> r[i] == DataLine(data[i], ws)
  {
    seq(|data|, i requires 0 <= i < |data| => DataLine(data[i], ws))
  }

  lemma DataLinesAppend(data: seq<seq<string>>, ws: seq<nat>, i: nat)
    requires i < |data| && forall k :: 0 <= k < |data| ==> |data[k]| == |ws|
    ensures DataLines(data[..i + 1], ws) == DataLines(data[..i], ws) + [DataLine(data[i], ws)]
  {
  }

  /** The table: border, headers, border, one line per row, border. */
  function Table(headers: seq<string>, data: seq<seq<string>>): (lines: seq<string>)
    requires Rectangular(headers, data)
  {
    var ws := Widths(headers, data);
    [Border(ws), DataLine(HeaderTexts(headers), ws), Border(ws)] + DataLines(data, ws) + [Border(ws)]
  }

  // ---------------------------------------------------------------------
  // The printing code

  /** `_print_border`. */
  method PrintBorder(widths: seq<nat>) returns (line: string)
    ensures line == Border(widths)
  {
    line := "";
    var k := 0;
    while k < |widths|
      invariant 0 <= k <= |widths|
      invariant line == BorderCells(widths[..k])
    {
      assert widths[..k + 1][..k] == widths[..k];
      line := line + "+" + Repeat('-', widths[k] + 2);
      k := k + 1;
    }
    assert widths[..k] == widths;
    line := line + "+";
  }

  /** `_print_data_line`: a header line title-cases its cells first. */
  method PrintDataLine(cells: seq<string>, widths: seq<nat>, headers: bool) returns (line: string)
    requires |cells| == |widths|
    ensures line == DataLine(if headers then HeaderTexts(cells) else cells, widths)
  {
    ghost var shown := if headers then HeaderTexts(cells) else cells;
    line := "";
    var k := 0;
    while k < |cells|
      invariant 0 <= k <= |cells|
      invariant line == CellsLine(shown[..k], widths[..k])
    {
      var data := cells[k];
      if headers {
        data := HeaderText(data);
      }
      assert data == shown[k];
      CellsLineStep(shown, widths, k, line);
      line := line + "| " + data;
      line := line + Spaces(widths[k] - |data| + 1);
      k := k + 1;
    }
    assert shown[..k] == shown && widths[..k] == widths;
    line := line + "|";
  }

  /** The inner loop of `_print_table` for column `j`: its longest entry, or IndexError when a row is too short. */
  method MeasureColumn(heading: string, data: seq<seq<string>>, j: nat) returns (r: Option<nat>)
    ensures r.None? <==> !HasColumn(data, j)
    ensures r.Some? ==> HasColumn(data, j) && r.value == Longest(|heading|, data, j)
  {
    var longest := |heading|;
    var i := 0;
    while i < |data|
      invariant 0 <= i <= |data|
      invariant HasColumn(data[..i], j)
      invariant longest == Longest(|heading|, data[..i], j)
    {
      if j >= |data[i]| {
        return None;
      }
      assert data[..i + 1][..i] == data[..i];
      if |data[i][j]| > longest {
        longest := |data[i][j]|;
      }
      i := i + 1;
    }
    assert data[..i] == data;
    r := Some(longest);
  }

  /**
   * `_print_table`: the widths are worked out into an array first, then the
   * lines are printed. A row with fewer entries than headers fails in the
   * first loop and one with more in the second, both with IndexError and
   * before anything is printed.
   */
  method PrintTable(headers: seq<string>, data: seq<seq<string>>) returns (r: Result<seq<string>, string>)
    ensures r.Failure? <==> !Rectangular(headers, data)
    ensures r.Failure? ==> r.error == IndexError
    ensures r.Success? ==> Rectangular(headers, data) && r.value == Table(headers, data)
  {
    var colWidths := new nat[|headers|];
    var j := 0;
    while j < |headers|
      invariant 0 <= j <= |headers|
      invariant forall i :: 0 <= i < |data| ==> j <= |data[i]|
      invariant forall k :: 0 <= k < j ==> HasColumn(data, k) && colWidths[k] == Longest(|headers[k]|, data, k)
    {
      var longest := MeasureColumn(headers[j], data, j);
      if longest.None? {
        return Failure(IndexError);
      }
      colWidths[j] := longest.value;
      j := j + 1;
    }
    var i := 0;
    while i < |data|
      invariant 0 <= i <= |data|
      invariant forall k :: 0 <= k < i ==> |data[k]| == |headers|
    {
      if |data[i]| > |headers| {
        return Failure(IndexError);
      }
      i := i + 1;
    }
    var widths := colWidths[..];
    assert widths == Widths(headers, data);
    r := PrintLines(headers, data, widths);
  }

  /** The printing half of `_print_table`, once the widths are known. */
  method PrintLines(headers: seq<string>, data: seq<seq<string>>, widths: seq<nat>) returns (r: Result<seq<string>, string>)
    requires |headers| == |widths| && forall i :: 0 <= i < |data| ==> |data[i]| == |widths|
    ensures r == Success([Border(widths), DataLine(HeaderTexts(headers), widths), Border(widths)]
                         + DataLines(data, widths) + [Border(widths)])
  {
    var border := PrintBorder(widths);
    var heading := PrintDataLine(headers, widths, true);
    var rows: seq<string> := [];
    var i := 0;
    while i < |data|
      invariant 0 <= i <= |data|
      invariant rows == DataLines(data[..i], widths)
    {
      var line := PrintDataLine(data[i], widths, false);
      DataLinesAppend(data, widths, i);
      rows := rows + [line];
      i := i + 1;
    }
    assert data[..i] == data;
    r := Success([border, heading, border] + rows + [border]);
  }

  /** `format_output`: "No records" for no results, else the table of the first record's keys and every record's values. */
  method FormatOutput(results: seq<Record>) returns (r: Result<seq<string>, string>)
    ensures results == [] ==> r == Success([NoRecords])
    ensures results != [] ==>
              (r.Failure? <==> !Rectangular(Keys(results[0]), Rows(results))) &&
              (r.Success? ==> Rectangular(Keys(results[0]), Rows(results)) &&
                              r.value == Table(Keys(results[0]), Rows(results)))
  {
    if results == [] {
      return Success([NoRecords]);
    }
    var columns := Keys(results[0]);
    var data: seq<seq<string>> := [];
    var i := 0;
    while i < |results|
      invariant 0 <= i <= |results|
      invariant data == Rows(results[..i])
    {
      data := data + [Values(results[i])];
      i := i + 1;
    }
    assert results[..i] == results;
    r := PrintTable(columns, data);
  }

  // ---------------------------------------------------------------------
  // Properties of the table

  /** Where column `k` starts in a border or data line: three characters more than its width per earlier column. */
  function Offset(widths: seq<nat>, k: nat): nat
    requires k <= |widths|
  {
    if k == 0 then 0 else Offset(widths, k - 1) + widths[k - 1] + 3
  }

  lemma {:induction false} OffsetPrefix(widths: seq<nat>, n: nat, k: nat)
    requires k <= n <= |widths|
    ensures Offset(widths[..n], k) == Offset(widths, k)
  {
    if k > 0 {
      OffsetPrefix(widths, n, k - 1);
    }
  }

  /** A slice within the first part of a concatenation is a slice of that part. */
  lemma SliceOfPrefix(a: string, b: string, lo: nat, hi: nat)
    requires lo <= hi <= |a|
    ensures (a + b)[lo..hi] == a[lo..hi]
  {
    assert forall i :: lo <= i < hi ==> (a + b)[i] == a[i];
  }

  /** Every entry fits its column. */
  predicate Fits(cells: seq<string>, widths: seq<nat>) {
    |cells| == |widths| && forall k :: 0 <= k < |cells| ==> |cells[k]| <= widths[k]
  }

  /** A border is as long as its columns together, and column `k` of it is a `+` and `width + 2` dashes. */
  lemma {:induction false} BorderAt(widths: seq<nat>, k: nat)
    requires k < |widths|
    ensures |BorderCells(widths)| == Offset(widths, |widths|)
    ensures Offset(widths, k) + widths[k] + 3 <= |BorderCells(widths)|
    ensures BorderCells(widths)[Offset(widths, k)..Offset(widths, k) + widths[k] + 3]
            == "+" + Repeat('-', widths[k] + 2)
  {
    var n := |widths| - 1;
    var front := widths[..n];
    OffsetPrefix(widths, n, n);
    if n > 0 {
      BorderAt(front, if k < n then k else 0);
    }
    if k < n {
      OffsetPrefix(widths, n, k);
    }
  }

  lemma CellLength(text: string, width: nat)
    requires |text| <= width
    ensures |Cell(text, width)| == width + 3
  {
  }

  /** A data line whose entries fit is as long as the border without its closing `+`. */
  lemma {:induction false} CellsLineLength(cells: seq<string>, widths: seq<nat>)
    requires Fits(cells, widths)
    ensures |CellsLine(cells, widths)| == Offset(widths, |widths|)
  {
    if widths != [] {
      var n := |widths| - 1;
      assert Fits(cells[..n], widths[..n]);
      CellsLineLength(cells[..n], widths[..n]);
      OffsetPrefix(widths, n, n);
      CellLength(cells[n], widths[n]);
    }
  }

  /** Column `k` of a data line whose entries fit is the `k`th cell. */
  lemma {:induction false} CellAt(cells: seq<string>, widths: seq<nat>, k: nat)
    requires Fits(cells, widths) && k < |widths|
    ensures Offset(widths, k) + widths[k] + 3 <= |CellsLine(cells, widths)|
    ensures CellsLine(cells, widths)[Offset(widths, k)..Offset(widths, k) + widths[k] + 3]
            == Cell(cells[k], widths[k])
  {
    var n := |widths| - 1;
    var cf, wf := cells[..n], widths[..n];
    assert Fits(cf, wf);
    var front := CellsLine(cf, wf);
    var line := CellsLine(cells, widths);
    assert line == front + Cell(cells[n], widths[n]);
    CellsLineLength(cf, wf);
    OffsetPrefix(widths, n, n);
    CellLength(cells[n], widths[n]);
    if k == n {
      assert line[|front|..] == Cell(cells[n], widths[n]);
    } else {
      CellAt(cf, wf, k);
      OffsetPrefix(widths, n, k);
      var o := Offset(widths, k);
      assert line[o..o + widths[k] + 3] == front[o..o + widths[k] + 3];
    }
  }

  /** Replacing a character by one character keeps the length. */
  lemma {:induction false} ReplaceCharLength(s: string, c: char, d: char)
    ensures |ReplaceChar(s, c, [d])| == |s|
  {
    if s != "" {
      ReplaceCharLength(s[1..], c, d);
    }
  }

  /** Every row fits the widths, and so do the header texts. */
  lemma RowFits(headers: seq<string>, data: seq<seq<string>>, i: nat)
    requires Rectangular(headers, data) && i < |data|
    ensures Fits(data[i], Widths(headers, data))
  {
    var ws := Widths(headers, data);
    forall j | 0 <= j < |headers| ensures |data[i][j]| <= ws[j] {
      assert ws[j] == Longest(|headers[j]|, data, j);
    }
  }

  lemma HeadersFit(headers: seq<string>, data: seq<seq<string>>)
    requires Rectangular(headers, data)
    ensures Fits(HeaderTexts(headers), Widths(headers, data))
  {
    var ws := Widths(headers, data);
    var titles := HeaderTexts(headers);
    forall j | 0 <= j < |headers| ensures |titles[j]| <= ws[j] {
      ReplaceCharLength(Title(headers[j]), '_', ' ');
      assert ws[j] == Longest(|headers[j]|, data, j);
    }
  }

  /** A data line of entries that fit is as long as the border. */
  lemma LineLength(cells: seq<string>, widths: seq<nat>)
    requires Fits(cells, widths)
    ensures |DataLine(cells, widths)| == |Border(widths)|
  {
    CellsLineLength(cells, widths);
    if widths != [] {
      BorderAt(widths, 0);
    }
  }

  /** Which line of the table is which. */
  lemma TableLines(headers: seq<string>, data: seq<seq<string>>, ws: seq<nat>)
    requires Rectangular(headers, data) && ws == Widths(headers, data)
    ensures var lines := Table(headers, data);
            && |lines| == |data| + 4
            && lines[0] == lines[2] == lines[|lines| - 1] == Border(ws)
            && lines[1] == DataLine(HeaderTexts(headers), ws)
            && forall i :: 0 <= i < |data| ==> lines[3 + i] == DataLine(data[i], ws)
  {
  }

  /** The header line and each data line are as long as the border. */
  lemma LinesLength(headers: seq<string>, data: seq<seq<string>>, ws: seq<nat>)
    requires Rectangular(headers, data) && ws == Widths(headers, data)
    ensures |DataLine(HeaderTexts(headers), ws)| == |Border(ws)|
    ensures forall i :: 0 <= i < |data| ==> |DataLine(data[i], ws)| == |Border(ws)|
  {
    HeadersFit(headers, data);
    LineLength(HeaderTexts(headers), ws);
    forall i | 0 <= i < |data| ensures |DataLine(data[i], ws)| == |Border(ws)| {
      RowFits(headers, data, i);
      LineLength(data[i], ws);
    }
  }

  /** The table has a line per row and four more, opens and closes with the border, and all its lines are equally long. */
  lemma TableShape(headers: seq<string>, data: seq<seq<string>>)
    requires Rectangular(headers, data)
    ensures var lines := Table(headers, data);
            var ws := Widths(headers, data);
            && |lines| == |data| + 4
            && lines[0] == lines[2] == lines[|lines| - 1] == Border(ws)
            && forall n :: 0 <= n < |lines| ==> |lines[n]| == |Border(ws)|
  {
    var ws := Widths(headers, data);
    var lines := Table(headers, data);
    TableLines(headers, data, ws);
    LinesLength(headers, data, ws);
    forall n | 3 <= n < |lines| - 1 ensures |lines[n]| == |Border(ws)| {
      assert lines[n] == DataLine(data[n - 3], ws);
    }
  }

  /** Column `k` of a data line whose entries fit is the `k`th cell, and the line is as long as the border. */
  lemma LineColumn(cells: seq<string>, ws: seq<nat>, k: nat)
    requires Fits(cells, ws) && k < |ws|
    ensures var o := Offset(ws, k);
            && |DataLine(cells, ws)| == |Border(ws)|
            && o + ws[k] + 3 <= |Border(ws)|
            && DataLine(cells, ws)[o..o + ws[k] + 3] == Cell(cells[k], ws[k])
  {
    var o := Offset(ws, k);
    CellAt(cells, ws, k);
    LineLength(cells, ws);
    SliceOfPrefix(CellsLine(cells, ws), "|", o, o + ws[k] + 3);
  }

  /** Column `k` of the border is a `+` and `width + 2` dashes. */
  lemma BorderColumn(ws: seq<nat>, k: nat)
    requires k < |ws|
    ensures var o := Offset(ws, k);
            && o + ws[k] + 3 < |Border(ws)|
            && Border(ws)[o..o + ws[k] + 3] == "+" + Repeat('-', ws[k] + 2)
  {
    BorderAt(ws, k);
    SliceOfPrefix(BorderCells(ws), "+", Offset(ws, k), Offset(ws, k) + ws[k] + 3);
  }

  /** On the line of row `i`, column `k` holds the cell of entry `k`, at the same place as on the header line. */
  lemma DataColumn(headers: seq<string>, data: seq<seq<string>>, i: nat, k: nat)
    requires Rectangular(headers, data) && i < |data| && k < |headers|
    ensures var ws := Widths(headers, data);
            var o := Offset(ws, k);
            && o + ws[k] + 3 <= |Border(ws)| == |DataLine(data[i], ws)|
            && DataLine(data[i], ws)[o..o + ws[k] + 3] == Cell(data[i][k], ws[k])
  {
    RowFits(headers, data, i);
    LineColumn(data[i], Widths(headers, data), k);
  }
}
