/** The aligned table a query result is shown as: its lines, and the loops that print them. */
module QueryTable {
  const MAX_COLUMNS := 20

  /** The column width, computed in unsigned chars as the code does. */
  function ColumnLen(name: string, cell: string): nat {
    var length := |cell| % 256;
    (if |name| > length then |name| else length) % 256
  }

  function ColumnLens(names: seq<string>, row: seq<string>): (lens: seq<nat>)
    requires |names| == |row|
    ensures |lens| == |names|
    ensures forall i | 0 <= i < |names| :: lens[i] == ColumnLen(names[i], row[i])
  {
    seq(|names|, i requires 0 <= i < |names| => ColumnLen(names[i], row[i]))
  }

  function Fill(n: nat, c: char): (s: string)
    ensures |s| == n
  {
    if n == 0 then "" else Fill(n - 1, c) + [c]
  }

  function Padding(cell: string, len: nat): nat {
    if |cell| < len then len - |cell| else 0
  }

  /** The columns of a border, without the closing '+'. */
  function Border(lens: seq<nat>): string {
    if lens == [] then ""
    else Border(lens[..|lens| - 1]) + ("+-" + Fill(lens[|lens| - 1], '-') + "-")
  }

  /** The columns of a row, without the closing '|'. */
  function Row(cells: seq<string>, lens: seq<nat>): string
    requires |cells| == |lens|
  {
    if lens == [] then ""
    else
      var i := |lens| - 1;
      Row(cells[..i], lens[..i]) + ("| " + cells[i] + " " + Fill(Padding(cells[i], lens[i]), ' '))
  }

  function BorderLine(lens: seq<nat>): string {
    Border(lens) + "+"
  }

  function RowLine(cells: seq<string>, lens: seq<nat>): string
    requires |cells| == |lens|
  {
    Row(cells, lens) + "|"
  }

  /** A border and a row, each on its line. */
  function Block(cells: seq<string>, lens: seq<nat>): string
    requires |cells| == |lens|
  {
    BorderLine(lens) + "\n" + (RowLine(cells, lens) + "\n")
  }

  predicate SameWidth(rows: seq<seq<string>>, n: nat) {
    forall row | row in rows :: |row| == n
  }

  function Blocks(rows: seq<seq<string>>, lens: seq<nat>): string
    requires SameWidth(rows, |lens|)
  {
    if rows == [] then ""
    else Blocks(rows[..|rows| - 1], lens) + Block(rows[|rows| - 1], lens)
  }

  /** A result set: column names, and rows with one cell for each. */
  datatype ResultSet = ResultSet(names: seq<string>, rows: seq<seq<string>>)
  {
    predicate Valid() {
      |names| <= MAX_COLUMNS && SameWidth(rows, |names|)
    }
  }

  /** Everything printed for a result; without rows just an empty line. */
  function Shown(level: nat, result: ResultSet): string
    requires result.Valid()
  {
    if level < 1 then ""
    else if result.rows == [] then "\n"
    else
      assert result.rows[0] in result.rows;
      var lens := ColumnLens(result.names, result.rows[0]);
      "\n" + Block(result.names, lens) + Blocks(result.rows, lens) + (BorderLine(lens) + "\n") + "\n"
  }

  // ----- the printing loops -----

  method PrintBorder(columnlen: array<nat>, filednum: nat) returns (s: string)
    requires filednum <= columnlen.Length
    ensures s == BorderLine(columnlen[..filednum])
  {
    s := "";
    for i := 0 to filednum
      invariant s == Border(columnlen[..i])
    {
      var part := "+-";
      for j := 0 to columnlen[i]
        invariant part == "+-" + Fill(j, '-')
      {
        part := part + "-";
        assert "+-" + Fill(j + 1, '-') == "+-" + Fill(j, '-') + "-";
      }
      s := s + (part + "-");
      assert columnlen[..i + 1][..i] == columnlen[..i];
    }
    s := s + "+";
  }

  method PrintCell(cell: string, lengths: array<nat>, columnlen: array<nat>, i: nat) returns (s: string)
    requires i < lengths.Length && i < columnlen.Length && lengths != columnlen
    requires lengths[i] == |cell|
    modifies lengths
    ensures s == "| " + cell + " " + Fill(Padding(cell, columnlen[i]), ' ')
    ensures lengths[i] == |cell| + Padding(cell, columnlen[i])
    ensures forall k | 0 <= k < lengths.Length && k != i :: lengths[k] == old(lengths[k])
  {
    s := "| " + cell + " ";
    ghost var len := columnlen[i];
    while lengths[i] < columnlen[i]
      invariant columnlen[i] == len
      invariant |cell| <= lengths[i] <= |cell| + Padding(cell, len)
      invariant s == "| " + cell + " " + Fill(lengths[i] - |cell|, ' ')
      invariant forall k | 0 <= k < lengths.Length && k != i :: lengths[k] == old(lengths[k])
    {
      FillOneMore("| " + cell + " ", lengths[i] - |cell|);
      s := s + " ";
      lengths[i] := lengths[i] + 1;
    }
  }

  /** The lengths are counted up in place to the column widths, one blank at a time. */
  method PrintRow(cells: seq<string>, lengths: array<nat>, columnlen: array<nat>, filednum: nat) returns (s: string)
    requires filednum == |cells| <= lengths.Length && filednum <= columnlen.Length && lengths != columnlen
    requires forall i | 0 <= i < filednum :: lengths[i] == |cells[i]|
    modifies lengths
    ensures s == RowLine(cells, columnlen[..filednum])
    ensures forall i | 0 <= i < filednum :: lengths[i] == |cells[i]| + Padding(cells[i], columnlen[i])
  {
    s := "";
    ghost var lens := columnlen[..filednum];
    for i := 0 to filednum
      invariant columnlen[..filednum] == lens
      invariant s == Row(cells[..i], lens[..i])
      invariant forall k | 0 <= k < i :: lengths[k] == |cells[k]| + Padding(cells[k], lens[k])
      invariant forall k | i <= k < filednum :: lengths[k] == |cells[k]|
    {
      var part := PrintCell(cells[i], lengths, columnlen, i);
      s := s + part;
      assert cells[..i + 1][..i] == cells[..i] && lens[..i + 1][..i] == lens[..i];
    }
    assert cells[..filednum] == cells && lens[..filednum] == lens;
    s := s + "|";
  }

  lemma FillOneMore(head: string, n: nat)
    ensures head + Fill(n + 1, ' ') == head + Fill(n, ' ') + " "
  {
  }

  /** mysql_fetch_lengths for one row, or the name_length of each field. */
  method FetchLengths(cells: seq<string>) returns (lengths: array<nat>)
    ensures fresh(lengths) && lengths.Length == |cells|
    ensures forall i | 0 <= i < |cells| :: lengths[i] == |cells[i]|
  {
    lengths := new nat[|cells|](i requires 0 <= i < |cells| => |cells[i]|);
  }

  method MeasureColumns(names: array<nat>, lengths: array<nat>, filednum: nat) returns (columnlen: array<nat>)
    requires filednum == names.Length == lengths.Length <= MAX_COLUMNS
    ensures fresh(columnlen) && columnlen.Length == MAX_COLUMNS
    ensures forall i | 0 <= i < filednum ::
              columnlen[i] == (if names[i] > lengths[i] % 256 then names[i] else lengths[i] % 256) % 256
  {
    columnlen := new nat[MAX_COLUMNS](_ => 0);
    for i := 0 to filednum
      invariant forall k | 0 <= k < i ::
                  columnlen[k] == (if names[k] > lengths[k] % 256 then names[k] else lengths[k] % 256) % 256
    {
      columnlen[i] := (if names[i] > lengths[i] % 256 then names[i] else lengths[i] % 256) % 256;
    }
  }

  method PrintBlock(cells: seq<string>, lengths: array<nat>, columnlen: array<nat>) returns (s: string)
    requires |cells| == lengths.Length <= columnlen.Length && lengths != columnlen
    requires forall i | 0 <= i < |cells| :: lengths[i] == |cells[i]|
    modifies lengths
    ensures s == Block(cells, columnlen[..|cells|])
  {
    var border := PrintBorder(columnlen, |cells|);
    var row := PrintRow(cells, lengths, columnlen, |cells|);
    s := border + "\n" + (row + "\n");
  }

  /** One more row: its lengths are fetched, then counted up. */
  method PrintNextRow(row: seq<string>, columnlen: array<nat>) returns (s: string)
    requires |row| <= columnlen.Length
    ensures s == Block(row, columnlen[..|row|])
  {
    var lengths := FetchLengths(row);
    s := PrintBlock(row, lengths, columnlen);
  }

  lemma OneMoreBlock(rows: seq<seq<string>>, lens: seq<nat>, k: nat)
    requires k < |rows| && SameWidth(rows, |lens|)
    ensures SameWidth(rows[..k], |lens|) && SameWidth(rows[..k + 1], |lens|) && |rows[k]| == |lens|
    ensures Blocks(rows[..k + 1], lens) == Blocks(rows[..k], lens) + Block(rows[k], lens)
  {
    assert rows[k] in rows;
    var taken := rows[..k + 1];
    assert taken[..k] == rows[..k] && taken[k] == rows[k];
  }

  /** The first row with the lengths already fetched, then every later one. */
  method PrintRows(rows: seq<seq<string>>, firstLengths: array<nat>, columnlen: array<nat>, ghost lens: seq<nat>)
    returns (s: string)
    requires rows != [] && SameWidth(rows, |lens|)
    requires |lens| <= columnlen.Length && columnlen[..|lens|] == lens
    requires firstLengths != columnlen && |rows[0]| == firstLengths.Length
    requires forall i | 0 <= i < |rows[0]| :: firstLengths[i] == |rows[0][i]|
    modifies firstLengths
    ensures s == Blocks(rows, lens)
  {
    OneMoreBlock(rows, lens, 0);
    s := PrintBlock(rows[0], firstLengths, columnlen);
    for k := 1 to |rows|
      invariant columnlen[..|lens|] == lens
      invariant s == Blocks(rows[..k], lens)
    {
      OneMoreBlock(rows, lens, k);
      var block := PrintNextRow(rows[k], columnlen);
      s := s + block;
    }
    assert rows[..|rows|] == rows;
  }

  method ShowQueryDetails(level: nat, result: ResultSet) returns (out: string)
    requires result.Valid()
    ensures out == Shown(level, result)
  {
    if level < 1 {
      return "";
    }
    out := "\n";
    if result.rows == [] {
      return;
    }
    assert result.rows[0] in result.rows;
    var filednum := |result.names|;
    var lengths := FetchLengths(result.rows[0]);
    var nameLengths := FetchLengths(result.names);
    var columnlen := MeasureColumns(nameLengths, lengths, filednum);
    ghost var lens := ColumnLens(result.names, result.rows[0]);
    assert columnlen[..filednum] == lens;

    var head := PrintBlock(result.names, nameLengths, columnlen);
    var rows := PrintRows(result.rows, lengths, columnlen, lens);
    var border := PrintBorder(columnlen, filednum);
    out := out + head + rows + (border + "\n") + "\n";
  }

  // ----- the layout -----

  /** Where column i starts in a line of the border's layout. */
  function ColumnAt(lens: seq<nat>, i: nat): nat
    requires i <= |lens|
  {
    if i == 0 then 0 else ColumnAt(lens, i - 1) + lens[i - 1] + 3
  }

  function CellWidth(cell: string, len: nat): nat {
    if |cell| < len then len else |cell|
  }

  /** Where column i starts in a row. */
  function CellAt(cells: seq<string>, lens: seq<nat>, i: nat): nat
    requires i <= |lens| == |cells|
  {
    if i == 0 then 0 else CellAt(cells, lens, i - 1) + CellWidth(cells[i - 1], lens[i - 1]) + 3
  }

  predicate CellsFit(cells: seq<string>, lens: seq<nat>)
    requires |cells| == |lens|
  {
    forall i | 0 <= i < |cells| :: |cells[i]| <= lens[i]
  }

  lemma {:induction false} ColumnAtPrefix(lens: seq<nat>, n: nat, i: nat)
    requires i <= n <= |lens|
    ensures ColumnAt(lens[..n], i) == ColumnAt(lens, i)
  {
    if i > 0 {
      ColumnAtPrefix(lens, n, i - 1);
    }
  }

  lemma {:induction false} CellAtPrefix(cells: seq<string>, lens: seq<nat>, n: nat, i: nat)
    requires i <= n <= |lens| == |cells|
    ensures CellAt(cells[..n], lens[..n], i) == CellAt(cells, lens, i)
  {
    if i > 0 {
      CellAtPrefix(cells, lens, n, i - 1);
    }
  }

  /** Every border line has width 1 + sum(columnlen + 3), with a '+' at the start of each column and at the end. */
  lemma {:induction false} BorderLayout(lens: seq<nat>)
    ensures |Border(lens)| == ColumnAt(lens, |lens|)
    ensures forall i | 0 <= i < |lens| :: ColumnAt(lens, i) < |Border(lens)| && Border(lens)[ColumnAt(lens, i)] == '+'
  {
    if lens != [] {
      var n := |lens| - 1;
      BorderLayout(lens[..n]);
      ColumnAtPrefix(lens, n, n);
      forall i | 0 <= i < |lens|
        ensures ColumnAt(lens, i) < |Border(lens)| && Border(lens)[ColumnAt(lens, i)] == '+'
      {
        if i < n {
          ColumnAtPrefix(lens, n, i);
        }
      }
    }
  }

  /** Every row is 1 + sum(max(cell, columnlen) + 3) wide, a '|' standing where each column starts and at the end. */
  lemma {:induction false} RowLayout(cells: seq<string>, lens: seq<nat>)
    requires |cells| == |lens|
    ensures |Row(cells, lens)| == CellAt(cells, lens, |lens|)
    ensures forall i | 0 <= i < |lens| ::
              CellAt(cells, lens, i) < |Row(cells, lens)| && Row(cells, lens)[CellAt(cells, lens, i)] == '|'
  {
    if lens != [] {
      var n := |lens| - 1;
      RowLayout(cells[..n], lens[..n]);
      CellAtPrefix(cells, lens, n, n);
      forall i | 0 <= i < |lens|
        ensures CellAt(cells, lens, i) < |Row(cells, lens)| && Row(cells, lens)[CellAt(cells, lens, i)] == '|'
      {
        if i < n {
          CellAtPrefix(cells, lens, n, i);
        }
      }
    }
  }

  /** A row starts no column before the border does, and starts all up to column n level with it iff the cells fit. */
  lemma {:induction false} ColumnsLevel(cells: seq<string>, lens: seq<nat>, n: nat)
    requires n <= |lens| == |cells|
    ensures CellAt(cells, lens, n) >= ColumnAt(lens, n)
    ensures CellAt(cells, lens, n) == ColumnAt(lens, n) <==> forall i | 0 <= i < n :: |cells[i]| <= lens[i]
    ensures (forall i | 0 <= i < n :: |cells[i]| <= lens[i]) ==>
              forall i | 0 <= i <= n :: CellAt(cells, lens, i) == ColumnAt(lens, i)
  {
    if n > 0 {
      ColumnsLevel(cells, lens, n - 1);
    }
  }

  /** A row is as wide as a border, with its separators in the same places, iff no cell exceeds its column. */
  lemma RowAligned(cells: seq<string>, lens: seq<nat>)
    requires |cells| == |lens|
    ensures |BorderLine(lens)| == 1 + ColumnAt(lens, |lens|)
    ensures |RowLine(cells, lens)| == 1 + CellAt(cells, lens, |lens|) >= |BorderLine(lens)|
    ensures |RowLine(cells, lens)| == |BorderLine(lens)| <==> CellsFit(cells, lens)
    ensures CellsFit(cells, lens) ==>
              forall i | 0 <= i <= |lens| ::
                && ColumnAt(lens, i) < |BorderLine(lens)|
                && BorderLine(lens)[ColumnAt(lens, i)] == '+'
                && RowLine(cells, lens)[ColumnAt(lens, i)] == '|'
  {
    BorderLayout(lens);
    RowLayout(cells, lens);
    ColumnsLevel(cells, lens, |lens|);
  }

  /** The column measured from a name and a first-row cell holds both iff neither is longer than 255. */
  lemma ColumnHolds(name: string, cell: string)
    ensures |name| <= ColumnLen(name, cell) && |cell| <= ColumnLen(name, cell) <==> |name| <= 255 && |cell| <= 255
  {
  }

  /** Names and first row line up with every border exactly when none of them is longer than 255. */
  lemma HeadAligned(names: seq<string>, row: seq<string>)
    requires |names| == |row|
    ensures var lens := ColumnLens(names, row);
            CellsFit(names, lens) && CellsFit(row, lens) <==>
            forall i | 0 <= i < |names| :: |names[i]| <= 255 && |row[i]| <= 255
  {
    var lens := ColumnLens(names, row);
    forall i | 0 <= i < |names|
      ensures |names[i]| <= lens[i] && |row[i]| <= lens[i] <==> |names[i]| <= 255 && |row[i]| <= 255
    {
      ColumnHolds(names[i], row[i]);
    }
  }
}
