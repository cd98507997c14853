/** The printed table read back from the text: its lines, and what stands where in each of them. */
module TableText {
  import opened QueryTable

  // ----- lines -----

  /** The text cut at its newlines. */
  function Cut(s: string): (lines: seq<string>)
    ensures |lines| >= 1
  {
    if s == "" then [""]
    else
      var rest := Cut(s[1..]);
      if s[0] == '\n' then [""] + rest else [[s[0]] + rest[0]] + rest[1..]
  }

  /** Every line closed by a newline. */
  function Joined(lines: seq<string>): string {
    if lines == [] then "" else lines[0] + "\n" + Joined(lines[1..])
  }

  predicate OneLine(s: string) {
    '\n' !in s
  }

  lemma {:induction false} CutLine(line: string, rest: string)
    requires OneLine(line)
    ensures Cut(line + "\n" + rest) == [line] + Cut(rest)
  {
    var s := line + "\n" + rest;
    if line == "" {
      assert s[1..] == rest;
    } else {
      assert s[1..] == line[1..] + "\n" + rest;
      CutLine(line[1..], rest);
      assert [s[0]] + line[1..] == line;
    }
  }

  lemma {:induction false} CutJoined(lines: seq<string>)
    requires forall line | line in lines :: OneLine(line)
    ensures Cut(Joined(lines)) == lines + [""]
  {
    if lines != [] {
      CutJoined(lines[1..]);
      CutLine(lines[0], Joined(lines[1..]));
      assert lines == [lines[0]] + lines[1..];
    }
  }

  lemma {:induction false} JoinedAppend(a: seq<string>, b: seq<string>)
    ensures Joined(a + b) == Joined(a) + Joined(b)
  {
    if a == [] {
      assert a + b == b;
    } else {
      assert (a + b)[1..] == a[1..] + b;
      JoinedAppend(a[1..], b);
    }
  }

  // ----- the lines of a table -----

  lemma WidthOfPrefix(rows: seq<seq<string>>, n: nat, k: nat)
    requires SameWidth(rows, n) && k < |rows|
    ensures SameWidth(rows[..k], n) && |rows[k]| == n
  {
    assert rows[k] in rows;
    assert forall row | row in rows[..k] :: row in rows;
  }

  /** A border and a row for each row of cells. */
  function RowLines(rows: seq<seq<string>>, lens: seq<nat>): (lines: seq<string>)
    requires SameWidth(rows, |lens|)
    ensures |lines| == 2 * |rows|
  {
    if rows == [] then []
    else
      var last := |rows| - 1;
      WidthOfPrefix(rows, |lens|, last);
      RowLines(rows[..last], lens) + [BorderLine(lens), RowLine(rows[last], lens)]
  }

  lemma {:induction false} RowLinesAt(rows: seq<seq<string>>, lens: seq<nat>, k: nat)
    requires SameWidth(rows, |lens|) && k < |rows|
    ensures |rows[k]| == |lens|
    ensures RowLines(rows, lens)[2 * k] == BorderLine(lens)
    ensures RowLines(rows, lens)[2 * k + 1] == RowLine(rows[k], lens)
  {
    var last := |rows| - 1;
    WidthOfPrefix(rows, |lens|, last);
    TwoMore(RowLines(rows[..last], lens), BorderLine(lens), RowLine(rows[last], lens), last, k);
    if k < last {
      RowLinesAt(rows[..last], lens, k);
      assert rows[..last][k] == rows[k];
    }
  }

  lemma TwoMore(lines: seq<string>, a: string, b: string, n: nat, k: nat)
    requires |lines| == 2 * n && k <= n
    ensures k < n ==> (lines + [a, b])[2 * k] == lines[2 * k] && (lines + [a, b])[2 * k + 1] == lines[2 * k + 1]
    ensures k == n ==> (lines + [a, b])[2 * k] == a && (lines + [a, b])[2 * k + 1] == b
  {
  }

  lemma TwoJoined(a: string, b: string)
    ensures Joined([a, b]) == a + "\n" + (b + "\n")
  {
    assert [a, b][1..] == [b] && [b][1..] == [];
    assert Joined([b]) == b + "\n";
  }

  lemma OneJoined(a: string)
    ensures Joined([a]) == a + "\n"
  {
    assert [a][1..] == [];
  }

  lemma {:induction false} BlocksAreLines(rows: seq<seq<string>>, lens: seq<nat>)
    requires SameWidth(rows, |lens|)
    ensures Blocks(rows, lens) == Joined(RowLines(rows, lens))
  {
    if rows != [] {
      var last := |rows| - 1;
      assert rows[last] in rows;
      BlocksAreLines(rows[..last], lens);
      TwoJoined(BorderLine(lens), RowLine(rows[last], lens));
      JoinedAppend(RowLines(rows[..last], lens), [BorderLine(lens), RowLine(rows[last], lens)]);
    }
  }

  /** The widths of the columns, in unsigned chars: of the name, or of the first row's cell when that is not shorter. */
  predicate Widths(result: ResultSet, lens: seq<nat>)
    requires result.Valid() && result.rows != []
  {
    && |lens| == |result.names|
    && forall i | 0 <= i < |lens| ::
         assert result.rows[0] in result.rows;
         var length := |result.rows[0][i]| % 256;
         lens[i] == (if |result.names[i]| > length then |result.names[i]| else length) % 256
  }

  lemma WidthWithHead(head: seq<string>, rows: seq<seq<string>>, n: nat)
    requires |head| == n && SameWidth(rows, n)
    ensures SameWidth([head] + rows, n)
  {
  }

  lemma BlocksLast(rows: seq<seq<string>>, last: seq<string>, lens: seq<nat>)
    requires SameWidth(rows, |lens|) && |last| == |lens|
    ensures SameWidth(rows + [last], |lens|)
    ensures Blocks(rows + [last], lens) == Blocks(rows, lens) + Block(last, lens)
  {
    var all := rows + [last];
    assert all[..|all| - 1] == rows && all[|all| - 1] == last;
  }

  lemma {:induction false} BlocksFromHead(head: seq<string>, rows: seq<seq<string>>, lens: seq<nat>)
    requires |head| == |lens| && SameWidth(rows, |lens|)
    ensures SameWidth([head] + rows, |lens|)
    ensures Blocks([head] + rows, lens) == Block(head, lens) + Blocks(rows, lens)
  {
    WidthWithHead(head, rows, |lens|);
    if rows == [] {
      BlocksLast([], head, lens);
      assert [] + [head] == [head] && [head] + rows == [head];
      assert Blocks([], lens) == "";
    } else {
      var i := |rows| - 1;
      WidthOfPrefix(rows, |lens|, i);
      BlocksFromHead(head, rows[..i], lens);
      BlocksLast(rows[..i], rows[i], lens);
      BlocksLast([head] + rows[..i], rows[i], lens);
      LastApart(head, rows);
      Regrouped(Block(head, lens), Blocks(rows[..i], lens), Block(rows[i], lens));
    }
  }

  lemma LastApart(head: seq<string>, rows: seq<seq<string>>)
    requires rows != []
    ensures rows[..|rows| - 1] + [rows[|rows| - 1]] == rows
    ensures ([head] + rows[..|rows| - 1]) + [rows[|rows| - 1]] == [head] + rows
  {
  }

  lemma Regrouped(a: string, b: string, c: string)
    ensures (a + b) + c == a + (b + c)
  {
  }

  /** The widths are the ones the columns are printed with. */
  lemma WidthsAreLens(result: ResultSet, lens: seq<nat>)
    requires result.Valid() && result.rows != [] && Widths(result, lens)
    ensures |result.rows[0]| == |result.names| && lens == ColumnLens(result.names, result.rows[0])
  {
    assert result.rows[0] in result.rows;
  }

  lemma ShownParts(level: nat, result: ResultSet, lens: seq<nat>)
    requires result.Valid() && level >= 1 && result.rows != [] && Widths(result, lens)
    ensures Shown(level, result) ==
            "\n" + Block(result.names, lens) + Blocks(result.rows, lens) + (BorderLine(lens) + "\n") + "\n"
  {
    WidthsAreLens(result, lens);
  }

  /** All lines of the output: an empty one, the table's, and an empty one. */
  lemma ShownIsLines(level: nat, result: ResultSet, lens: seq<nat>)
    requires result.Valid() && level >= 1 && result.rows != [] && Widths(result, lens)
    ensures SameWidth([result.names] + result.rows, |lens|)
    ensures Shown(level, result) ==
            Joined([""] + RowLines([result.names] + result.rows, lens) + [BorderLine(lens), ""])
  {
    var all := [result.names] + result.rows;
    ShownParts(level, result, lens);
    BlocksFromHead(result.names, result.rows, lens);
    BlocksAreLines(all, lens);
    Framed(RowLines(all, lens), BorderLine(lens));
    Regrouped("\n", Block(result.names, lens), Blocks(result.rows, lens));
  }

  lemma Framed(lines: seq<string>, border: string)
    ensures Joined([""] + lines + [border, ""]) == "\n" + Joined(lines) + (border + "\n") + "\n"
  {
    OneJoined("");
    TwoJoined(border, "");
    JoinedAppend([""], lines);
    JoinedAppend([""] + lines, [border, ""]);
  }

  // ----- what stands in a line -----

  /** A '+' where every column starts and at the end, and nothing but '-' between. */
  ghost predicate HoldsBorder(line: string, lens: seq<nat>) {
    && |line| == ColumnAt(lens, |lens|) + 1
    && line[|line| - 1] == '+'
    && forall i | 0 <= i < |lens| :: HoldsDashes(line, ColumnAt(lens, i), lens[i])
  }

  /** "+-", a dash for every character of the column, and one more. */
  predicate HoldsDashes(line: string, at: nat, len: nat) {
    && at + len + 3 <= |line|
    && line[at] == '+'
    && forall j | at < j < at + len + 3 :: line[j] == '-'
  }

  /** A bar where every column starts and at the end; in a column a blank, the cell, and blanks up to the next. */
  ghost predicate HoldsRow(line: string, cells: seq<string>, lens: seq<nat>)
    requires |cells| == |lens|
  {
    && |line| == CellAt(cells, lens, |lens|) + 1
    && line[|line| - 1] == '|'
    && forall i | 0 <= i < |lens| :: HoldsCell(line, CellAt(cells, lens, i), cells[i], CellWidth(cells[i], lens[i]))
  }

  predicate HoldsCell(line: string, at: nat, cell: string, width: nat) {
    && at + width + 3 <= |line| && |cell| <= width
    && line[at] == '|' && line[at + 1] == ' '
    && line[at + 2..at + 2 + |cell|] == cell
    && forall j | at + 2 + |cell| <= j < at + width + 3 :: line[j] == ' '
  }

  lemma {:induction false} FillHolds(n: nat, c: char)
    ensures forall j | 0 <= j < n :: Fill(n, c)[j] == c
  {
    if n > 0 {
      FillHolds(n - 1, c);
    }
  }

  /** A longer line holds what a shorter one did. */
  lemma DashesStay(line: string, more: string, at: nat, len: nat)
    requires HoldsDashes(line, at, len)
    ensures HoldsDashes(line + more, at, len)
  {
  }

  lemma CellStays(line: string, more: string, at: nat, cell: string, width: nat)
    requires HoldsCell(line, at, cell, width)
    ensures HoldsCell(line + more, at, cell, width)
  {
    assert (line + more)[at + 2..at + 2 + |cell|] == line[at + 2..at + 2 + |cell|];
  }

  lemma OneBorder(before: string, len: nat)
    ensures HoldsDashes(before + ("+-" + Fill(len, '-') + "-"), |before|, len)
  {
    FillHolds(len, '-');
    var part := "+-" + Fill(len, '-') + "-";
    assert forall j | 0 < j < len + 3 :: part[j] == '-';
    assert forall j | 0 <= j < len + 3 :: (before + part)[|before| + j] == part[j];
    forall j | |before| < j < |before| + len + 3
      ensures (before + part)[j] == '-'
    {
      assert (before + part)[|before| + (j - |before|)] == part[j - |before|];
    }
  }

  lemma OneCell(before: string, cell: string, len: nat)
    ensures HoldsCell(before + ("| " + cell + " " + Fill(Padding(cell, len), ' ')),
                      |before|, cell, CellWidth(cell, len))
  {
    var pad := Padding(cell, len);
    FillHolds(pad, ' ');
    var part := "| " + cell + " " + Fill(pad, ' ');
    var line := before + part;
    assert part[2..2 + |cell|] == cell;
    assert line[|before| + 2..|before| + 2 + |cell|] == part[2..2 + |cell|];
    forall j | |before| + 2 + |cell| <= j < |line|
      ensures line[j] == ' '
    {
      var k := j - |before|;
      assert line[j] == part[k];
      assert k > 2 + |cell| ==> part[k] == Fill(pad, ' ')[k - |cell| - 3];
    }
  }

  lemma {:induction false} DashesAt(lens: seq<nat>, i: nat)
    requires i < |lens|
    ensures HoldsDashes(Border(lens), ColumnAt(lens, i), lens[i])
  {
    var n := |lens| - 1;
    var before := Border(lens[..n]);
    ColumnAtPrefix(lens, n, i);
    if i < n {
      DashesAt(lens[..n], i);
      assert lens[..n][i] == lens[i];
      DashesStay(before, "+-" + Fill(lens[n], '-') + "-", ColumnAt(lens, i), lens[i]);
    } else {
      BorderLayout(lens[..n]);
      OneBorder(before, lens[n]);
    }
  }

  lemma {:induction false} CellStands(cells: seq<string>, lens: seq<nat>, i: nat)
    requires i < |lens| == |cells|
    ensures HoldsCell(Row(cells, lens), CellAt(cells, lens, i), cells[i], CellWidth(cells[i], lens[i]))
  {
    var n := |lens| - 1;
    var before := Row(cells[..n], lens[..n]);
    CellAtPrefix(cells, lens, n, i);
    if i < n {
      CellStands(cells[..n], lens[..n], i);
      assert lens[..n][i] == lens[i] && cells[..n][i] == cells[i];
      CellStays(before, "| " + cells[n] + " " + Fill(Padding(cells[n], lens[n]), ' '),
                CellAt(cells, lens, i), cells[i], CellWidth(cells[i], lens[i]));
    } else {
      RowLayout(cells[..n], lens[..n]);
      OneCell(before, cells[n], lens[n]);
    }
  }

  lemma BorderLineHolds(lens: seq<nat>)
    ensures HoldsBorder(BorderLine(lens), lens)
  {
    BorderLayout(lens);
    forall i | 0 <= i < |lens| ensures HoldsDashes(BorderLine(lens), ColumnAt(lens, i), lens[i]) {
      DashesAt(lens, i);
      DashesStay(Border(lens), "+", ColumnAt(lens, i), lens[i]);
    }
  }

  lemma RowLineHolds(cells: seq<string>, lens: seq<nat>)
    requires |cells| == |lens|
    ensures HoldsRow(RowLine(cells, lens), cells, lens)
  {
    RowLayout(cells, lens);
    forall i | 0 <= i < |lens|
      ensures HoldsCell(RowLine(cells, lens), CellAt(cells, lens, i), cells[i], CellWidth(cells[i], lens[i]))
    {
      CellStands(cells, lens, i);
      CellStays(Row(cells, lens), "|", CellAt(cells, lens, i), cells[i], CellWidth(cells[i], lens[i]));
    }
  }

  // ----- no line has a newline in it -----

  predicate Writable(cells: seq<string>) {
    forall cell | cell in cells :: OneLine(cell)
  }

  lemma {:induction false} FillOneLine(n: nat, c: char)
    requires c != '\n'
    ensures OneLine(Fill(n, c))
  {
    if n > 0 {
      FillOneLine(n - 1, c);
    }
  }

  lemma {:induction false} BorderOneLine(lens: seq<nat>)
    ensures OneLine(Border(lens))
  {
    if lens != [] {
      BorderOneLine(lens[..|lens| - 1]);
      FillOneLine(lens[|lens| - 1], '-');
    }
  }

  lemma {:induction false} RowOneLine(cells: seq<string>, lens: seq<nat>)
    requires |cells| == |lens| && Writable(cells)
    ensures OneLine(Row(cells, lens))
  {
    if lens != [] {
      var i := |lens| - 1;
      assert cells[i] in cells;
      RowOneLine(cells[..i], lens[..i]);
      FillOneLine(Padding(cells[i], lens[i]), ' ');
    }
  }

  lemma {:induction false} TableOneLine(rows: seq<seq<string>>, lens: seq<nat>)
    requires SameWidth(rows, |lens|) && forall row | row in rows :: Writable(row)
    ensures forall line | line in RowLines(rows, lens) :: OneLine(line)
    ensures OneLine(BorderLine(lens))
  {
    BorderOneLine(lens);
    if rows != [] {
      var last := |rows| - 1;
      WidthOfPrefix(rows, |lens|, last);
      assert rows[last] in rows;
      TableOneLine(rows[..last], lens);
      RowOneLine(rows[last], lens);
    }
  }

  /** An empty line, the lines of a body, a border and two empty lines. */
  ghost predicate Frames(lines: seq<string>, body: seq<string>, border: string) {
    && |lines| == |body| + 4
    && lines[0] == "" && lines[|body| + 1] == border && lines[|body| + 2] == "" && lines[|body| + 3] == ""
    && forall n | 0 <= n < |body| :: lines[n + 1] == body[n]
  }

  lemma CutFramed(body: seq<string>, border: string)
    requires (forall line | line in body :: OneLine(line)) && OneLine(border)
    ensures Frames(Cut(Joined([""] + body + [border, ""])), body, border)
  {
    var lines := [""] + body + [border, ""];
    CutJoined(lines);
    FramesAre(lines, body, border);
  }

  lemma FramesAre(lines: seq<string>, body: seq<string>, border: string)
    requires lines == [""] + body + [border, ""]
    ensures Frames(lines + [""], body, border)
  {
  }

  /** The output cut at its newlines. */
  lemma ShownCut(level: nat, result: ResultSet, lens: seq<nat>, all: seq<seq<string>>)
    requires result.Valid() && level >= 1 && result.rows != [] && Widths(result, lens)
    requires Writable(result.names) && forall row | row in result.rows :: Writable(row)
    requires all == [result.names] + result.rows
    ensures SameWidth(all, |lens|)
    ensures Frames(Cut(Shown(level, result)), RowLines(all, lens), BorderLine(lens))
  {
    ShownIsLines(level, result, lens);
    AllWritable(result, all);
    TableOneLine(all, lens);
    CutFramed(RowLines(all, lens), BorderLine(lens));
  }

  lemma AllWritable(result: ResultSet, all: seq<seq<string>>)
    requires Writable(result.names) && forall row | row in result.rows :: Writable(row)
    requires all == [result.names] + result.rows
    ensures forall row | row in all :: Writable(row)
  {
  }

  /** Row k of a table under its border, counting the lines from an empty one. */
  ghost predicate HoldsBlock(lines: seq<string>, rows: seq<seq<string>>, lens: seq<nat>, k: nat) {
    && k < |rows| && 2 * k + 2 < |lines| && |rows[k]| == |lens|
    && HoldsBorder(lines[2 * k + 1], lens)
    && HoldsRow(lines[2 * k + 2], rows[k], lens)
  }

  /** An empty line before n blocks, and a border and two empty ends after them. */
  ghost predicate HoldsEnds(lines: seq<string>, lens: seq<nat>, n: nat) {
    && |lines| == 2 * n + 4
    && lines[0] == "" && lines[2 * n + 2] == "" && lines[2 * n + 3] == ""
    && HoldsBorder(lines[2 * n + 1], lens)
  }

  /** The lines of a table: each of the rows under a border, and what stands around them. */
  ghost predicate IsTable(lines: seq<string>, rows: seq<seq<string>>, lens: seq<nat>) {
    HoldsEnds(lines, lens, |rows|) && forall k | 0 <= k < |rows| :: HoldsBlock(lines, rows, lens, k)
  }

  lemma BlockHolds(rows: seq<seq<string>>, lens: seq<nat>, lines: seq<string>, body: seq<string>, k: nat)
    requires SameWidth(rows, |lens|) && k < |rows| && body == RowLines(rows, lens)
    requires Frames(lines, body, BorderLine(lens))
    ensures HoldsBlock(lines, rows, lens, k)
  {
    RowLinesAt(rows, lens, k);
    BorderLineHolds(lens);
    RowLineHolds(rows[k], lens);
    FramedAt(lines, body, BorderLine(lens), 2 * k);
  }

  lemma FramedAt(lines: seq<string>, body: seq<string>, border: string, n: nat)
    requires Frames(lines, body, border) && n + 1 < |body|
    ensures lines[n + 1] == body[n] && lines[n + 2] == body[n + 1]
  {
    assert lines[(n + 1) + 1] == body[n + 1];
  }

  lemma EndsHold(lens: seq<nat>, lines: seq<string>, body: seq<string>, n: nat)
    requires |body| == 2 * n && Frames(lines, body, BorderLine(lens))
    ensures HoldsEnds(lines, lens, n)
  {
    BorderLineHolds(lens);
  }

  lemma BlocksHold(rows: seq<seq<string>>, lens: seq<nat>, lines: seq<string>, body: seq<string>)
    requires SameWidth(rows, |lens|) && body == RowLines(rows, lens) && Frames(lines, body, BorderLine(lens))
    ensures forall k | 0 <= k < |rows| :: HoldsBlock(lines, rows, lens, k)
  {
    forall k | 0 <= k < |rows| ensures HoldsBlock(lines, rows, lens, k) {
      BlockHolds(rows, lens, lines, body, k);
    }
  }

  lemma LinesAreTable(rows: seq<seq<string>>, lens: seq<nat>, lines: seq<string>, body: seq<string>)
    requires SameWidth(rows, |lens|) && body == RowLines(rows, lens) && Frames(lines, body, BorderLine(lens))
    ensures IsTable(lines, rows, lens)
  {
    EndsHold(lens, lines, body, |rows|);
    BlocksHold(rows, lens, lines, body);
  }

  /**
   The output for a result with rows, read back line by line: an empty line; the names and then every
   row, each under a border; one more border; an empty line. Borders and rows hold what they should, at
   the places the widths give.
   */
  lemma TableRead(level: nat, result: ResultSet, lens: seq<nat>)
    requires result.Valid() && level >= 1 && result.rows != [] && Widths(result, lens)
    requires Writable(result.names) && forall row | row in result.rows :: Writable(row)
    ensures IsTable(Cut(Shown(level, result)), [result.names] + result.rows, lens)
  {
    var all := [result.names] + result.rows;
    ShownCut(level, result, lens, all);
    LinesAreTable(all, lens, Cut(Shown(level, result)), RowLines(all, lens));
  }

  /** Without details or without rows there is no table. */
  lemma NoTable(level: nat, result: ResultSet)
    requires result.Valid()
    ensures level == 0 ==> Shown(level, result) == ""
    ensures level >= 1 && result.rows == [] ==> Shown(level, result) == "\n"
  {
  }

  /** A table of one column and one row. */
  lemma SmallTable()
    ensures Shown(1, ResultSet(["a"], [["xy"]])) ==
            "\n" + ("+----+" + "\n" + ("| a  |" + "\n")) + ("+----+" + "\n" + ("| xy |" + "\n"))
            + ("+----+" + "\n") + "\n"
  {
    var result := ResultSet(["a"], [["xy"]]);
    OneColumn("a", 2);
    OneColumn("xy", 2);
    assert Fill(2, '-') == "--" && "+-" + "--" + "-" + "+" == "+----+" by {
      assert Fill(1, '-') == "-";
    }
    assert Fill(1, ' ') == " " && Fill(0, ' ') == "";
    assert "| " + "a" + " " + " " + "|" == "| a  |" && "| " + "xy" + " " + "" + "|" == "| xy |";
    ShownParts(1, result, [2]);
    OneRow(["xy"], [2]);
  }

  lemma OneColumn(cell: string, len: nat)
    ensures BorderLine([len]) == "+-" + Fill(len, '-') + "-" + "+"
    ensures RowLine([cell], [len]) == "| " + cell + " " + Fill(Padding(cell, len), ' ') + "|"
  {
    assert [len][..0] == [] && [cell][..0] == [];
    assert Border([len]) == "" + ("+-" + Fill(len, '-') + "-");
    assert Row([cell], [len]) == "" + ("| " + cell + " " + Fill(Padding(cell, len), ' '));
  }

  lemma OneRow(row: seq<string>, lens: seq<nat>)
    requires |row| == |lens|
    ensures SameWidth([row], |lens|) && Blocks([row], lens) == Block(row, lens)
  {
    assert [row][..0] == [];
    assert Blocks([row], lens) == "" + Block(row, lens);
  }
}
