/** Editing the rows of an open CSV file in place. */
module CsvGrid {
  import opened Bytes
  import opened Wrappers
  import opened FirstOfEach

  type Row = seq<string>
  type Grid = seq<Row>

  datatype CellChange = CellChange(row: int, col: int, value: string)

  function Blank(n: nat): Row {
    seq(n, _ => "")
  }

  function Pad(row: Row, n: nat): Row {
    if |row| >= n then row else row + Blank(n - |row|)
  }

  function AtLeastOne(count: int): nat {
    if count < 1 then 1 else count
  }

  // ---------------------------------------------------------------- reading cells

  function CellAt(row: Row, col: int): string {
    if col < 0 || col >= |row| then "" else row[col]
  }

  /** The text shown at a place of the grid, inside or outside the stored rows. */
  function Shown(rows: Grid, r: int, c: int): string {
    if r < 0 || r >= |rows| then "" else CellAt(rows[r], c)
  }

  function MaxColumns(rows: Grid): (m: nat)
    ensures forall i | 0 <= i < |rows| :: |rows[i]| <= m
    ensures m == 0 || exists i | 0 <= i < |rows| :: |rows[i]| == m
  {
    if rows == [] then 0
    else
      var last := |rows| - 1;
      var m := MaxColumns(rows[..last]);
      assert forall i | 0 <= i < last :: rows[i] == rows[..last][i];
      if |rows[last]| > m then |rows[last]| else m
  }

  method MaxColumnCount(rows: Grid) returns (maxCols: nat)
    ensures maxCols == MaxColumns(rows)
  {
    maxCols := 0;
    for i := 0 to |rows|
      invariant maxCols == MaxColumns(rows[..i])
    {
      assert rows[..i + 1][..i] == rows[..i];
      if |rows[i]| > maxCols {
        maxCols := |rows[i]|;
      }
    }
    assert rows[..|rows|] == rows;
  }

  // ---------------------------------------------------------------- what the edits yield

  function WithHeader(rows: Grid): Grid {
    if rows == [] then [Blank(10)] else rows
  }

  function BlankRows(n: nat, width: nat): Grid {
    seq(n, _ => Blank(width))
  }

  function Clamp(i: int, low: nat, high: nat): (r: nat)
    requires low <= high
    ensures low <= r <= high
  {
    if i < low then low else if i > high then high else i
  }

  function RowsInserted(rows: Grid, dataRow: int, count: int): Grid {
    var g := WithHeader(rows);
    var target := Clamp(dataRow + 1, 1, |g|);
    var width := if MaxColumns(g) == 0 then 10 else MaxColumns(g);
    g[..target] + BlankRows(AtLeastOne(count), width) + g[target..]
  }

  function RowsDeleted(rows: Grid, dataRow: int, count: int): Grid {
    var target := dataRow + 1;
    if target < 1 || target >= |rows| then rows
    else
      var end := if target + AtLeastOne(count) > |rows| then |rows| else target + AtLeastOne(count);
      rows[..target] + rows[end..]
  }

  function ColsInsertedRow(row: Row, col: nat, count: nat): Row {
    var padded := Pad(row, col);
    padded[..col] + Blank(count) + padded[col..]
  }

  function ColsDeletedRow(row: Row, col: nat, count: nat): Row {
    if col >= |row| then row
    else row[..col] + row[if col + count > |row| then |row| else col + count..]
  }

  function ColsInserted(rows: Grid, col: int, count: int): Grid {
    var g := WithHeader(rows);
    var at := if col < 0 then 0 else col;
    seq(|g|, i requires 0 <= i < |g| => ColsInsertedRow(g[i], at, AtLeastOne(count)))
  }

  function ColsDeleted(rows: Grid, col: int, count: int): Grid {
    if col < 0 then rows
    else seq(|rows|, i requires 0 <= i < |rows| => ColsDeletedRow(rows[i], col, AtLeastOne(count)))
  }

  /** Row `row` and the header are made at least `col + 1` wide. */
  function CellEnsured(rows: Grid, row: nat, col: nat): (g: Grid)
    requires row > 0
    ensures row < |g| && col < |g[row]| && col < |g[0]|
  {
    var h := WithHeader(rows);
    var long := if |h| > row then h else h + BlankRows(row + 1 - |h|, MaxColumns(h));
    long[row := Pad(long[row], col + 1)][0 := Pad(long[0], col + 1)]
  }

  predicate Valid(cell: CellChange) {
    cell.row >= 0 && cell.col >= 0
  }

  function CellWritten(rows: Grid, cell: CellChange): Grid
    requires Valid(cell)
  {
    var g := CellEnsured(rows, cell.row + 1, cell.col);
    g[cell.row + 1 := g[cell.row + 1][cell.col := cell.value]]
  }

  /** How many changes come before the first invalid one. */
  function ValidPrefix(cells: seq<CellChange>): (n: nat)
    ensures n <= |cells| && (n < |cells| ==> !Valid(cells[n])) && forall i | 0 <= i < n :: Valid(cells[i])
  {
    if cells == [] || !Valid(cells[0]) then 0 else 1 + ValidPrefix(cells[1..])
  }

  predicate AllValid(cells: seq<CellChange>) {
    forall i | 0 <= i < |cells| :: Valid(cells[i])
  }

  function CellsWritten(rows: Grid, cells: seq<CellChange>): Grid
    requires AllValid(cells)
  {
    if cells == [] then rows
    else
      var front, last := cells[..|cells| - 1], cells[|cells| - 1];
      assert Valid(last) && forall i | 0 <= i < |front| :: front[i] == cells[i];
      CellWritten(CellsWritten(rows, front), last)
  }

  function HeaderOf(rows: Grid): Row {
    if rows == [] then [] else rows[0]
  }

  // ---------------------------------------------------------------- duplicate rows

  function KeyCells(row: Row, columns: seq<int>, width: nat): Row {
    if columns == [] then seq(width, col => CellAt(row, col))
    else seq(|columns|, i requires 0 <= i < |columns| => CellAt(row, columns[i]))
  }

  /** Each cell, ended by a NUL. */
  function KeyText(cells: Row): string {
    if cells == [] then "" else KeyText(cells[..|cells| - 1]) + cells[|cells| - 1] + ['\0']
  }

  function DedupKey(row: Row, columns: seq<int>, width: nat): string {
    KeyText(KeyCells(row, columns, width))
  }

  method BuildDedupKey(row: Row, columns: seq<int>, width: nat) returns (key: string)
    ensures key == DedupKey(row, columns, width)
  {
    ghost var cells := KeyCells(row, columns, width);
    key := "";
    if |columns| == 0 {
      for col := 0 to width
        invariant key == KeyText(cells[..col])
      {
        assert cells[..col + 1][..col] == cells[..col];
        key := key + CellAt(row, col) + ['\0'];
      }
      assert cells[..width] == cells;
      return;
    }
    for i := 0 to |columns|
      invariant key == KeyText(cells[..i])
    {
      assert cells[..i + 1][..i] == cells[..i];
      key := key + CellAt(row, columns[i]) + ['\0'];
    }
    assert cells[..|columns|] == cells;
  }

  function KeyBy(columns: seq<int>, width: nat): Row -> string {
    row => DedupKey(row, columns, width)
  }

  function DuplicatesRemoved(rows: Grid, columns: seq<int>): Grid {
    if |rows| <= 1 then rows else [rows[0]] + Deduped(rows[1..], KeyBy(columns, MaxColumns(rows)))
  }

  // ---------------------------------------------------------------- the adapter

  method Padded(row: Row, n: nat) returns (r: Row)
    ensures r == Pad(row, n)
  {
    r := row;
    while |r| < n
      invariant |row| <= |r| && (|r| <= n || r == row) && r == Pad(row, |r|)
    {
      r := r + [""];
    }
  }

  class CsvAdapter {
    var rows: Grid
    var columns: Row

    /** The columns are those of the header row. */
    ghost predicate Synced()
      reads this
    {
      columns == HeaderOf(rows)
    }

    constructor (rows: Grid)
      ensures this.rows == rows && Synced()
    {
      this.rows := rows;
      columns := if rows == [] then [] else rows[0];
    }

    method SyncColumns()
      modifies this`columns
      ensures Synced()
    {
      if |rows| == 0 {
        columns := [];
        return;
      }
      columns := rows[0];
    }

    method EnsureHeader()
      modifies this`rows
      ensures rows == WithHeader(old(rows))
    {
      if |rows| == 0 {
        rows := rows + [Blank(10)];
      }
    }

    method PadRow(r: nat, col: nat)
      requires r < |rows|
      modifies this`rows
      ensures rows == old(rows)[r := Pad(old(rows)[r], col + 1)]
    {
      ghost var was := rows[r];
      while |rows[r]| <= col
        invariant |rows| == |old(rows)| && rows == old(rows)[r := rows[r]]
        invariant rows[r] == Pad(was, |rows[r]|)
        invariant |was| <= |rows[r]| && (|rows[r]| <= col + 1 || rows[r] == was)
      {
        rows := rows[r := rows[r] + [""]];
      }
    }

    method GrowRows(row: nat)
      requires rows != []
      modifies this`rows
      ensures rows == if |old(rows)| > row then old(rows)
                      else old(rows) + BlankRows(row + 1 - |old(rows)|, MaxColumns(old(rows)))
    {
      ghost var h := rows;
      while |rows| <= row
        invariant |h| <= |rows| && (|rows| <= row + 1 || rows == h)
        invariant rows == h + BlankRows(|rows| - |h|, MaxColumns(h))
      {
        BlankRowsKeepWidth(h, |rows| - |h|);
        var width := MaxColumnCount(rows);
        rows := rows + [Blank(width)];
      }
    }

    method EnsureCell(row: nat, col: nat)
      requires row > 0
      modifies this`rows
      ensures rows == CellEnsured(old(rows), row, col)
    {
      EnsureHeader();
      GrowRows(row);
      PadRow(row, col);
      if |rows[0]| <= col {
        PadRow(0, col);
      }
    }

    method WriteCell(cell: CellChange)
      requires Valid(cell)
      modifies this`rows
      ensures rows == CellWritten(old(rows), cell)
    {
      var rawRow := cell.row + 1;
      EnsureCell(rawRow, cell.col);
      rows := rows[rawRow := rows[rawRow][cell.col := cell.value]];
    }

    /** On an error the changes before the invalid one stay written, and the columns are not brought up to date. */
    method WriteCells(cells: seq<CellChange>) returns (ok: bool)
      modifies this
      ensures ok <==> ValidPrefix(cells) == |cells|
      ensures rows == CellsWritten(old(rows), cells[..ValidPrefix(cells)])
      ensures if ok then Synced() else columns == old(columns)
    {
      assert cells[..0] == [];
      for k := 0 to |cells|
        invariant columns == old(columns) && k <= ValidPrefix(cells)
        invariant rows == CellsWritten(old(rows), cells[..k])
      {
        var cell := cells[k];
        PrefixReaches(cells, k);
        if cell.row < 0 || cell.col < 0 {
          return false;
        }
        CellsWrittenNext(old(rows), cells, k);
        WriteCell(cell);
      }
      SyncColumns();
      ok := true;
    }

    method WriteHeaders(headers: Row) returns (ok: bool)
      modifies this
      ensures ok <==> headers != []
      ensures ok ==> rows == WithHeader(old(rows))[0 := headers] && Synced()
      ensures !ok ==> rows == old(rows) && columns == old(columns)
    {
      if |headers| == 0 {
        return false;
      }
      EnsureHeader();
      rows := rows[0 := headers];
      SyncColumns();
      ok := true;
    }

    method InsertRows(dataRow: int, count: int)
      modifies this
      ensures rows == RowsInserted(old(rows), dataRow, count) && Synced()
    {
      var n := if count < 1 then 1 else count;
      EnsureHeader();
      var target := dataRow + 1;
      if target < 1 {
        target := 1;
      }
      if target > |rows| {
        target := |rows|;
      }
      var width := MaxColumnCount(rows);
      if width == 0 {
        width := 10;
      }
      var inserted := BlankRows(n, width);
      rows := rows[..target] + inserted + rows[target..];
      SyncColumns();
    }

    method DeleteRows(dataRow: int, count: int)
      modifies this
      ensures rows == RowsDeleted(old(rows), dataRow, count)
      ensures if 0 <= dataRow < |old(rows)| - 1 then Synced() else columns == old(columns)
    {
      var n := if count < 1 then 1 else count;
      var target := dataRow + 1;
      if target < 1 || target >= |rows| {
        return;
      }
      var end := target + n;
      if end > |rows| {
        end := |rows|;
      }
      rows := rows[..target] + rows[end..];
      SyncColumns();
    }

    method InsertCols(col: int, count: int)
      modifies this
      ensures rows == ColsInserted(old(rows), col, count) && Synced()
    {
      var n := if count < 1 then 1 else count;
      var at := if col < 0 then 0 else col;
      EnsureHeader();
      ghost var g := rows;
      for ri := 0 to |rows|
        invariant |rows| == |g| && forall k | ri <= k < |g| :: rows[k] == g[k]
        invariant forall k | 0 <= k < ri :: rows[k] == ColsInsertedRow(g[k], at, n)
      {
        var row := Padded(rows[ri], at);
        rows := rows[ri := row[..at] + Blank(n) + row[at..]];
      }
      SyncColumns();
    }

    method DeleteCols(col: int, count: int)
      modifies this
      ensures rows == ColsDeleted(old(rows), col, count)
      ensures if col >= 0 then Synced() else columns == old(columns)
    {
      var n := if count < 1 then 1 else count;
      if col < 0 {
        return;
      }
      ghost var g := rows;
      for ri := 0 to |rows|
        invariant |rows| == |g| && forall k | ri <= k < |g| :: rows[k] == g[k]
        invariant forall k | 0 <= k < ri :: rows[k] == ColsDeletedRow(g[k], col, n)
      {
        if col >= |rows[ri]| {
          continue;
        }
        var end := col + n;
        if end > |rows[ri]| {
          end := |rows[ri]|;
        }
        rows := rows[ri := rows[ri][..col] + rows[ri][end..]];
      }
      SyncColumns();
    }

    method RemoveDuplicates(columns: seq<int>) returns (removed: nat)
      modifies this
      ensures rows == DuplicatesRemoved(old(rows), columns) && removed + |rows| == |old(rows)|
      ensures if |old(rows)| > 1 then Synced() else this.columns == old(this.columns)
    {
      if |rows| <= 1 {
        return 0;
      }
      var keyWidth := MaxColumnCount(rows);
      var data: Grid;
      data, removed := KeepFirst(rows[1..], columns, keyWidth);
      rows := [rows[0]] + data;
      SyncColumns();
    }
  }

  /** What the loop of KeepFirst has made of the first `i` rows. */
  ghost predicate KeptSoFar(rows: Grid, i: nat, key: Row -> string, data: Grid, seen: set<string>) {
    i <= |rows| && data == Deduped(rows[..i], key) && seen == KeysOf(rows[..i], key)
  }

  lemma KeptNext(rows: Grid, i: nat, key: Row -> string, data: Grid, seen: set<string>, k: string)
    requires KeptSoFar(rows, i, key, data, seen) && i < |rows| && k == key(rows[i])
    ensures if k in seen then KeptSoFar(rows, i + 1, key, data, seen)
            else KeptSoFar(rows, i + 1, key, data + [rows[i]], seen + {k})
  {
    DedupedNext(rows, i, key);
    assert k in seen ==> seen + {k} == seen && data + [] == data;
  }

  method KeepFirst(rows: Grid, columns: seq<int>, keyWidth: nat) returns (data: Grid, removed: nat)
    ensures data == Deduped(rows, KeyBy(columns, keyWidth)) && removed + |data| == |rows|
  {
    var seen: set<string> := {};
    data, removed := [], 0;
    for i := 0 to |rows|
      invariant KeptSoFar(rows, i, KeyBy(columns, keyWidth), data, seen) && removed + |data| == i
    {
      var key := BuildDedupKey(rows[i], columns, keyWidth);
      KeptNext(rows, i, KeyBy(columns, keyWidth), data, seen, key);
      if key in seen {
        removed := removed + 1;
        continue;
      }
      seen := seen + {key};
      data := data + [rows[i]];
    }
    assert rows[..|rows|] == rows;
  }

  lemma CellsWrittenNext(rows: Grid, cells: seq<CellChange>, k: nat)
    requires k < ValidPrefix(cells)
    ensures CellsWritten(rows, cells[..k + 1]) == CellWritten(CellsWritten(rows, cells[..k]), cells[k])
  {
    assert cells[..k + 1][..k] == cells[..k];
  }

  lemma {:induction false} PrefixReaches(cells: seq<CellChange>, k: nat)
    requires k < |cells| && k <= ValidPrefix(cells)
    ensures Valid(cells[k]) <==> k < ValidPrefix(cells)
  {
  }

  lemma {:induction false} BlankRowsKeepWidth(h: Grid, n: nat)
    requires h != []
    ensures MaxColumns(h + BlankRows(n, MaxColumns(h))) == MaxColumns(h)
  {
    var all := h + BlankRows(n, MaxColumns(h));
    var m := MaxColumns(all);
    assert forall i | 0 <= i < |h| :: all[i] == h[i];
  }

  // ---------------------------------------------------------------- writing cells

  /** A written cell shows its value; every other place shows what it did before. */
  lemma WrittenIsShown(rows: Grid, cell: CellChange, r: int, c: int)
    requires Valid(cell)
    ensures Shown(CellWritten(rows, cell), r, c)
         == if r == cell.row + 1 && c == cell.col then cell.value else Shown(rows, r, c)
  {
  }

  /** The last change to a place, if any. */
  function LastChange(cells: seq<CellChange>, r: int, c: int): Option<string> {
    if cells == [] then None
    else
      var last := cells[|cells| - 1];
      if last.row + 1 == r && last.col == c then Some(last.value) else LastChange(cells[..|cells| - 1], r, c)
  }

  /** After a batch each place shows its last change, or what it showed before. */
  lemma {:induction false} BatchIsShown(rows: Grid, cells: seq<CellChange>, r: int, c: int)
    requires AllValid(cells)
    ensures var change := LastChange(cells, r, c);
            Shown(CellsWritten(rows, cells), r, c) == if change.Some? then change.value else Shown(rows, r, c)
  {
    if cells != [] {
      var front, last := cells[..|cells| - 1], cells[|cells| - 1];
      assert Valid(last) && AllValid(front);
      BatchIsShown(rows, front, r, c);
      WrittenIsShown(CellsWritten(rows, front), last, r, c);
    }
  }

  lemma {:induction false} HeaderKept(rows: Grid, cells: seq<CellChange>)
    requires AllValid(cells) && forall k | 0 <= k < |cells| :: cells[k].col < |HeaderOf(rows)|
    ensures HeaderOf(CellsWritten(rows, cells)) == HeaderOf(rows)
  {
    if cells != [] {
      var front, last := cells[..|cells| - 1], cells[|cells| - 1];
      assert Valid(last) && AllValid(front);
      HeaderKept(rows, front);
      HeaderWritten(CellsWritten(rows, front), last);
    }
  }

  lemma CellsSnoc(rows: Grid, front: seq<CellChange>, last: CellChange)
    requires AllValid(front) && Valid(last)
    ensures CellsWritten(rows, front + [last]) == CellWritten(CellsWritten(rows, front), last)
  {
    assert (front + [last])[..|front|] == front;
  }

  lemma {:induction false} HeaderGrows(rows: Grid, cells: seq<CellChange>, k: nat)
    requires AllValid(cells) && k < |cells|
    ensures |HeaderOf(CellsWritten(rows, cells))| > cells[k].col
  {
    var front, last := cells[..|cells| - 1], cells[|cells| - 1];
    assert Valid(last) && AllValid(front) && cells == front + [last];
    CellsSnoc(rows, front, last);
    HeaderWritten(CellsWritten(rows, front), last);
    if k < |front| {
      HeaderGrows(rows, front, k);
    }
  }

  lemma HeaderWritten(rows: Grid, cell: CellChange)
    requires Valid(cell)
    ensures |HeaderOf(CellWritten(rows, cell))| >= |HeaderOf(rows)|
    ensures |HeaderOf(CellWritten(rows, cell))| > cell.col
    ensures cell.col < |HeaderOf(rows)| ==> HeaderOf(CellWritten(rows, cell)) == HeaderOf(rows)
  {
  }

  /** When a batch stops at an invalid change, columns that were right stay right exactly when no change before
      it lies beyond the header. */
  lemma StaleAfterError(rows: Grid, cells: seq<CellChange>)
    requires ValidPrefix(cells) < |cells|
    ensures var written := cells[..ValidPrefix(cells)];
            && AllValid(written)
            && (HeaderOf(CellsWritten(rows, written)) == HeaderOf(rows)
                <==> forall k | 0 <= k < |written| :: written[k].col < |HeaderOf(rows)|)
  {
    var written := cells[..ValidPrefix(cells)];
    if forall k | 0 <= k < |written| :: written[k].col < |HeaderOf(rows)| {
      HeaderKept(rows, written);
    } else {
      var k :| 0 <= k < |written| && written[k].col >= |HeaderOf(rows)|;
      HeaderGrows(rows, written, k);
    }
  }

  /** A header of one column, a change in the second and an invalid one: the stored header grows to two columns, the
      columns shown stay as they were. */
  lemma BatchLeavesStale(value: string)
    ensures var rows, cells := [["h"]], [CellChange(0, 1, value), CellChange(-1, 0, value)];
            && ValidPrefix(cells) == 1
            && CellsWritten(rows, cells[..1]) == [["h", ""], ["", value]] && HeaderOf(rows) == ["h"]
  {
    var rows, first, cells := [["h"]], CellChange(0, 1, value), [CellChange(0, 1, value), CellChange(-1, 0, value)];
    assert cells[1..] == [CellChange(-1, 0, value)] && cells[..1] == [] + [first];
    CellsSnoc(rows, [], first);
    WriteBeyond(value);
  }

  lemma WriteBeyond(value: string)
    ensures CellWritten([["h"]], CellChange(0, 1, value)) == [["h", ""], ["", value]]
  {
    var h: Grid := [["h"]];
    assert |h[0]| == 1 && MaxColumns(h) == 1;
    assert Blank(1) == [""] && BlankRows(1, 1) == [[""]];
    assert h + [[""]] == [["h"], [""]];
    assert Pad([""], 2) == ["", ""] && Pad(["h"], 2) == ["h", ""];
    assert WithHeader(h) == h && |h| == 1;
    assert CellEnsured(h, 1, 1) == [["h", ""], ["", ""]];
    assert ["", ""][1 := value] == ["", value];
    assert [["h", ""], ["", ""]][1 := ["", value]] == [["h", ""], ["", value]];
  }

  // ---------------------------------------------------------------- inserting and deleting

  /** Inserted rows are blank, those above them stay and those below move down. */
  lemma InsertedRowsShown(rows: Grid, dataRow: int, count: int, r: int, c: int)
    ensures Shown(RowsInserted(rows, dataRow, count), r, c)
         == var target := Clamp(dataRow + 1, 1, |WithHeader(rows)|);
            if r < target then Shown(rows, r, c)
            else if r < target + AtLeastOne(count) then "" else Shown(rows, r - AtLeastOne(count), c)
  {
  }

  /** Deleted rows take nothing else along, and the header never goes. */
  lemma DeletedRowsShown(rows: Grid, dataRow: int, count: int, r: int, c: int)
    ensures Shown(RowsDeleted(rows, dataRow, count), r, c)
         == if dataRow < 0 || r <= dataRow then Shown(rows, r, c) else Shown(rows, r + AtLeastOne(count), c)
  {
  }

  lemma InsertedColsRow(row: Row, col: nat, count: nat, c: int)
    ensures CellAt(ColsInsertedRow(row, col, count), c)
         == if c < col then CellAt(row, c) else if c < col + count then "" else CellAt(row, c - count)
  {
  }

  /** In every row inserted columns are blank, and those right of them move right. */
  lemma InsertedColsShown(rows: Grid, col: int, count: int, r: int, c: int)
    ensures Shown(ColsInserted(rows, col, count), r, c)
         == var at := if col < 0 then 0 else col;
            if c < at then Shown(rows, r, c)
            else if c < at + AtLeastOne(count) then "" else Shown(rows, r, c - AtLeastOne(count))
  {
    var g := WithHeader(rows);
    if 0 <= r < |g| {
      InsertedColsRow(g[r], if col < 0 then 0 else col, AtLeastOne(count), c);
    }
  }

  /** In every row deleted columns take nothing else along. */
  lemma DeletedColsShown(rows: Grid, col: int, count: int, r: int, c: int)
    ensures Shown(ColsDeleted(rows, col, count), r, c)
         == if col < 0 || c < col then Shown(rows, r, c) else Shown(rows, r, c + AtLeastOne(count))
  {
  }

  /** Deleting the rows just inserted gives back the grid exactly when the grid was not empty and the row was one
      of its data rows, or the place behind the last. */
  lemma InsertDeleteRows(rows: Grid, dataRow: int, count: int)
    ensures RowsDeleted(RowsInserted(rows, dataRow, count), dataRow, count) == rows
       <==> rows != [] && 0 <= dataRow < |rows|
  {
    var inserted := RowsInserted(rows, dataRow, count);
    var n, target := AtLeastOne(count), dataRow + 1;
    if rows != [] && 0 <= dataRow < |rows| {
      assert inserted[..target] == rows[..target] && inserted[target + n..] == rows[target..];
      assert rows[..target] + rows[target..] == rows;
    }
  }

  /** Deleting the columns just inserted gives back each row, filled up to the column with blanks. */
  lemma InsertDeleteColsRow(row: Row, col: nat, count: nat)
    requires count > 0
    ensures ColsDeletedRow(ColsInsertedRow(row, col, count), col, count) == Pad(row, col)
  {
    var padded := Pad(row, col);
    var wide := ColsInsertedRow(row, col, count);
    assert wide[..col] == padded[..col] && wide[col + count..] == padded[col..];
    assert padded == padded[..col] + padded[col..];
  }

  /** So every place shows what it did, and the stored grid is the same exactly when it was not empty and every
      row reached the column. A negative column is inserted at the front but never deleted. */
  lemma InsertDeleteCols(rows: Grid, col: int, count: int)
    ensures var back := ColsDeleted(ColsInserted(rows, col, count), col, count);
            && (col >= 0 ==> |back| == |WithHeader(rows)| && forall r, c :: Shown(back, r, c) == Shown(rows, r, c))
            && (back == rows <==> rows != [] && col >= 0 && forall i | 0 <= i < |rows| :: |rows[i]| >= col)
  {
    var g := WithHeader(rows);
    var n := AtLeastOne(count);
    var back := ColsDeleted(ColsInserted(rows, col, count), col, count);
    if col >= 0 {
      forall i | 0 <= i < |g|
        ensures back[i] == Pad(g[i], col)
      {
        InsertDeleteColsRow(g[i], col, n);
      }
      forall r, c
        ensures Shown(back, r, c) == Shown(rows, r, c)
      {
        if 0 <= r < |g| {
          assert back[r] == Pad(g[r], col);
        }
      }
    } else {
      assert |back[0]| > |g[0]|;
    }
  }

  lemma {:induction false} ShiftedIsBlank(row: Row, n: nat, c: nat)
    requires n > 0 && c < |row| && forall k: int :: CellAt(Blank(n) + row, k) == CellAt(row, k)
    ensures row[c] == ""
  {
    assert CellAt(Blank(n) + row, c) == row[c];
    if c >= n {
      ShiftedIsBlank(row, n, c - n);
    }
  }

  /** At a negative column the new columns stay, so every place shows what it did exactly if nothing was shown. */
  lemma NegativeColShownIff(rows: Grid, col: int, count: int)
    requires col < 0
    ensures var back := ColsDeleted(ColsInserted(rows, col, count), col, count);
            (forall r, c :: Shown(back, r, c) == Shown(rows, r, c)) <==> forall r, c :: Shown(rows, r, c) == ""
  {
    var g, n := WithHeader(rows), AtLeastOne(count);
    var back := ColsDeleted(ColsInserted(rows, col, count), col, count);
    assert forall i | 0 <= i < |g| :: back[i] == [] + Blank(n) + g[i] == Blank(n) + g[i];
    if forall r, c :: Shown(back, r, c) == Shown(rows, r, c) {
      forall r, c
        ensures Shown(rows, r, c) == ""
      {
        if 0 <= r < |rows| && 0 <= c < |rows[r]| {
          assert forall k: int :: CellAt(Blank(n) + rows[r], k) == Shown(back, r, k) == CellAt(rows[r], k);
          ShiftedIsBlank(rows[r], n, c);
        }
      }
    }
    if forall r, c :: Shown(rows, r, c) == "" {
      forall r, c
        ensures Shown(back, r, c) == ""
      {
        if 0 <= r < |g| && 0 <= c < |back[r]| && c >= n && rows != [] {
          assert back[r][c] == Shown(rows, r, c - n);
        }
      }
    }
  }

  /** One column inserted before the first and deleted there: it stays. */
  lemma NegativeColStays()
    ensures ColsDeleted(ColsInserted([["h"]], -1, 1), -1, 1) == [["", "h"]]
  {
    assert Pad(["h"], 0)[..0] + Blank(1) + ["h"][0..] == ["", "h"];
  }

  // ---------------------------------------------------------------- removing duplicates

  lemma KeyTextSnoc(cells: Row, last: string)
    ensures KeyText(cells + [last]) == KeyText(cells) + last + ['\0']
  {
    assert (cells + [last])[..|cells|] == cells;
  }

  /** Counting blanks behind a row adds as many NULs to its key as to any other's. */
  lemma {:induction false} WiderKey(a: Row, b: Row, narrow: nat, wide: nat)
    requires |a| <= narrow <= wide && |b| <= narrow
    requires DedupKey(a, [], narrow) == DedupKey(b, [], narrow)
    ensures DedupKey(a, [], wide) == DedupKey(b, [], wide)
    decreases wide - narrow
  {
    if narrow < wide {
      assert KeyCells(a, [], narrow + 1) == KeyCells(a, [], narrow) + [""];
      assert KeyCells(b, [], narrow + 1) == KeyCells(b, [], narrow) + [""];
      KeyTextSnoc(KeyCells(a, [], narrow), "");
      KeyTextSnoc(KeyCells(b, [], narrow), "");
      WiderKey(a, b, narrow + 1, wide);
    }
  }

  lemma NarrowerKeepsDistinct(rows: Grid, columns: seq<int>, narrow: nat, wide: nat)
    requires narrow <= wide && forall i | 0 <= i < |rows| :: |rows[i]| <= narrow
    requires DistinctKeys(rows, KeyBy(columns, wide))
    ensures DistinctKeys(rows, KeyBy(columns, narrow))
  {
    forall i, j | 0 <= i < j < |rows|
      ensures KeyBy(columns, narrow)(rows[i]) != KeyBy(columns, narrow)(rows[j])
    {
      assert KeyBy(columns, wide)(rows[i]) != KeyBy(columns, wide)(rows[j]);
      if columns == [] && DedupKey(rows[i], [], narrow) == DedupKey(rows[j], [], narrow) {
        WiderKey(rows[i], rows[j], narrow, wide);
      }
    }
  }

  lemma KeptAreNarrower(rows: Grid, columns: seq<int>)
    requires |rows| > 1
    ensures var once := DuplicatesRemoved(rows, columns);
            && MaxColumns(once) <= MaxColumns(rows)
            && forall i | 0 <= i < |once[1..]| :: |once[1..][i]| <= MaxColumns(once)
  {
    var once := DuplicatesRemoved(rows, columns);
    KeptAreItems(rows[1..], KeyBy(columns, MaxColumns(rows)));
    forall i | 0 <= i < |once|
      ensures |once[i]| <= MaxColumns(rows)
    {
      assert once[i] == rows[0] || once[i] in rows[1..];
      assert once[i] in rows;
    }
  }

  /** Removing duplicates a second time removes nothing, even when the widest row went the first time. */
  lemma RemovingTwice(rows: Grid, columns: seq<int>)
    ensures DuplicatesRemoved(DuplicatesRemoved(rows, columns), columns) == DuplicatesRemoved(rows, columns)
  {
    if |rows| > 1 {
      var once := DuplicatesRemoved(rows, columns);
      var key := KeyBy(columns, MaxColumns(rows));
      assert once[1..] == Deduped(rows[1..], key);
      KeptAreDistinct(rows[1..], key);
      KeptAreNarrower(rows, columns);
      NarrowerKeepsDistinct(once[1..], columns, MaxColumns(once), MaxColumns(rows));
      DistinctStay(once[1..], KeyBy(columns, MaxColumns(once)));
    }
  }

  /** Of the data rows exactly the first of each key stay, in their order, below the header. */
  lemma RemovingKeepsFirst(rows: Grid, columns: seq<int>)
    requires |rows| > 1
    ensures var once := DuplicatesRemoved(rows, columns); var key := KeyBy(columns, MaxColumns(rows));
            && once != [] && once[0] == rows[0]
            && FirstsAt(rows[1..], once[1..], Places(rows[1..], key), key)
  {
    var key := KeyBy(columns, MaxColumns(rows));
    assert DuplicatesRemoved(rows, columns)[1..] == Deduped(rows[1..], key);
    DedupKeepsFirst(rows[1..], key);
  }

  predicate NulFree(cells: Row) {
    forall i | 0 <= i < |cells| :: '\0' !in cells[i]
  }

  lemma NoLonger(front: string, cell: string, front': string, cell': string)
    requires front + cell == front' + cell' && '\0' !in cell'
    requires front == "" || front[|front| - 1] == '\0'
    ensures |cell| >= |cell'|
  {
    var s := front' + cell';
    assert front != "" ==> (front + cell)[|front| - 1] == '\0';
    assert front != "" ==> s[|front| - 1] == '\0';
    assert forall i | |front'| <= i < |s| :: s[i] == cell'[i - |front'|] && s[i] != '\0';
  }

  lemma LastCellIs(front: string, cell: string, front': string, cell': string)
    requires '\0' !in cell && '\0' !in cell' && front + cell == front' + cell'
    requires front == "" || front[|front| - 1] == '\0'
    requires front' == "" || front'[|front'| - 1] == '\0'
    ensures cell == cell' && front == front'
  {
    NoLonger(front, cell, front', cell');
    NoLonger(front', cell', front, cell);
    var s := front + cell;
    assert s[..|front|] == front && s[|front|..] == cell;
    assert s[..|front'|] == front' && s[|front'|..] == cell';
  }

  lemma {:induction false} NulFreeKeys(a: Row, b: Row)
    requires NulFree(a) && NulFree(b)
    ensures KeyText(a) == KeyText(b) <==> a == b
  {
    if a != [] && b != [] {
      var fa, fb, la, lb := a[..|a| - 1], b[..|b| - 1], a[|a| - 1], b[|b| - 1];
      NulFreeKeys(fa, fb);
      if KeyText(a) == KeyText(b) {
        assert KeyText(a)[..|KeyText(a)| - 1] == KeyText(fa) + la;
        assert KeyText(b)[..|KeyText(b)| - 1] == KeyText(fb) + lb;
        LastCellIs(KeyText(fa), la, KeyText(fb), lb);
        assert a == fa + [la] && b == fb + [lb];
      }
    }
  }

  function Nuls(s: string): nat {
    if s == "" then 0 else Nuls(s[..|s| - 1]) + if s[|s| - 1] == '\0' then 1 else 0
  }

  lemma {:induction false} NulsSplit(a: string, b: string)
    ensures Nuls(a + b) == Nuls(a) + Nuls(b)
    decreases |b|
  {
    if b == "" {
      assert a + b == a;
    } else {
      assert (a + b)[..|a + b| - 1] == a + b[..|b| - 1];
      NulsSplit(a, b[..|b| - 1]);
    }
  }

  lemma {:induction false} NoNuls(s: string)
    ensures Nuls(s) == 0 <==> '\0' !in s
  {
    if s != "" {
      NoNuls(s[..|s| - 1]);
    }
  }

  lemma OneNul()
    ensures Nuls(['\0']) == 1
  {
    assert ['\0'][..0] == "";
  }

  /** A key has a NUL per cell, and more exactly if a cell holds one. */
  lemma {:induction false} KeyNuls(cells: Row)
    ensures Nuls(KeyText(cells)) >= |cells|
    ensures Nuls(KeyText(cells)) == |cells| <==> NulFree(cells)
  {
    if cells != [] {
      var front, last := cells[..|cells| - 1], cells[|cells| - 1];
      KeyNuls(front);
      NulsSplit(KeyText(front) + last, ['\0']);
      NulsSplit(KeyText(front), last);
      OneNul();
      NoNuls(last);
      assert forall i | 0 <= i < |front| :: front[i] == cells[i];
    }
  }

  /** At equal width the key of cells without NUL is theirs alone, whatever the other cells hold. */
  lemma KeyIsFaithful(a: Row, b: Row)
    requires NulFree(a) && |a| == |b|
    ensures KeyText(a) == KeyText(b) <==> a == b
  {
    KeyNuls(a);
    KeyNuls(b);
    if KeyText(a) == KeyText(b) {
      NulFreeKeys(a, b);
    }
  }

  lemma {:induction false} KeyTextSplit(a: Row, b: Row)
    ensures KeyText(a + b) == KeyText(a) + KeyText(b)
    decreases |b|
  {
    if b == [] {
      assert a + b == a;
    } else {
      var front, last := b[..|b| - 1], b[|b| - 1];
      KeyTextSplit(a, front);
      assert b == front + [last];
      Associative(a, front, [last]);
      KeyTextSnoc(a + front, last);
      Associative(KeyText(a), KeyText(front), last);
      Associative(KeyText(a), KeyText(front) + last, ['\0']);
    }
  }

  lemma KeyTextOne(cell: string)
    ensures KeyText([cell]) == cell + ['\0']
  {
    KeyTextSnoc([], cell);
    assert [] + [cell] == [cell];
  }

  lemma KeyTextTwo(c: string, d: string)
    ensures KeyText([c, d]) == c + ['\0'] + d + ['\0']
  {
    KeyTextOne(c);
    KeyTextSnoc([c], d);
    assert [c] + [d] == [c, d];
  }

  /** A NUL can be read as part of either cell beside it. */
  lemma NulMoves(front: Row, u: string, v: string, d: string, back: Row)
    ensures KeyText(front + [u + ['\0'] + v, d] + back) == KeyText(front + [u, v + ['\0'] + d] + back)
  {
    KeyTextSplit(front + [u + ['\0'] + v, d], back);
    KeyTextSplit(front, [u + ['\0'] + v, d]);
    KeyTextSplit(front + [u, v + ['\0'] + d], back);
    KeyTextSplit(front, [u, v + ['\0'] + d]);
    KeyTextTwo(u + ['\0'] + v, d);
    KeyTextTwo(u, v + ['\0'] + d);
    assert (u + ['\0'] + v) + ['\0'] + d + ['\0'] == u + ['\0'] + (v + ['\0'] + d) + ['\0'];
  }

  /** Some other cells, as many, have the same key. */
  ghost predicate Confused(a: Row) {
    exists b :: Confuses(a, b)
  }

  predicate Confuses(a: Row, b: Row) {
    b != a && |b| == |a| && KeyText(b) == KeyText(a)
  }

  lemma NulConfuses(a: Row, i: nat, p: nat)
    requires |a| >= 2 && i < |a| && p < |a[i]| && a[i][p] == '\0'
    ensures Confused(a)
  {
    var u, v := a[i][..p], a[i][p + 1..];
    assert a[i] == u + ['\0'] + v;
    if i + 1 < |a| {
      var front, back, d := a[..i], a[i + 2..], a[i + 1];
      var b := front + [u, v + ['\0'] + d] + back;
      assert a == front + [u + ['\0'] + v, d] + back;
      NulMoves(front, u, v, d, back);
      assert b[i] == u && |b[i]| < |a[i]|;
      assert Confuses(a, b);
    } else {
      var front, c := a[..i - 1], a[i - 1];
      var b := front + [c + ['\0'] + u, v] + [];
      assert a == front + [c, u + ['\0'] + v] + [];
      NulMoves(front, c, u, v, []);
      assert b[i] == v && |b[i]| < |a[i]|;
      assert Confuses(a, b);
    }
  }

  /** Cells share their key with other cells, as many, exactly if there are two or more and one holds a NUL: one
      key cell is always told apart. */
  lemma ConfusedIff(a: Row)
    ensures Confused(a) <==> |a| >= 2 && !NulFree(a)
  {
    if |a| >= 2 && !NulFree(a) {
      var i :| 0 <= i < |a| && '\0' in a[i];
      var p :| 0 <= p < |a[i]| && a[i][p] == '\0';
      NulConfuses(a, i, p);
    } else {
      forall b
        ensures !Confuses(a, b)
      {
        if |b| == |a| && KeyText(b) == KeyText(a) {
          SameKeySameCells(a, b);
        }
      }
    }
  }

  lemma SameKeySameCells(a: Row, b: Row)
    requires |b| == |a| && KeyText(b) == KeyText(a) && (|a| < 2 || NulFree(a))
    ensures a == b
  {
    if NulFree(a) {
      KeyIsFaithful(a, b);
    } else {
      assert a == [a[0]] && b == [b[0]];
      KeyTextOne(a[0]);
      KeyTextOne(b[0]);
      assert (a[0] + ['\0'])[..|a[0]|] == a[0] && (b[0] + ['\0'])[..|b[0]|] == b[0];
    }
  }

  predicate KeyCellsFree(row: Row, columns: seq<int>, width: nat) {
    NulFree(KeyCells(row, columns, width))
  }

  /** Which cells of two rows decide: the given columns, or all up to the width. Without NUL in those of one row the
      rows have one key exactly if they show the same text there. */
  lemma DuplicatesIff(a: Row, b: Row, columns: seq<int>, width: nat)
    requires KeyCellsFree(a, columns, width)
    ensures DedupKey(a, columns, width) == DedupKey(b, columns, width)
            <==> if columns == [] then forall c | 0 <= c < width :: CellAt(a, c) == CellAt(b, c)
                 else forall i | 0 <= i < |columns| :: CellAt(a, columns[i]) == CellAt(b, columns[i])
  {
    var x, y := KeyCells(a, columns, width), KeyCells(b, columns, width);
    KeyIsFaithful(x, y);
    if columns == [] {
      assert forall c | 0 <= c < width :: x[c] == CellAt(a, c) && y[c] == CellAt(b, c);
    } else {
      assert forall i | 0 <= i < |columns| :: x[i] == CellAt(a, columns[i]) && y[i] == CellAt(b, columns[i]);
    }
  }

  /** With a NUL inside a cell, two different rows can have one key. */
  lemma NulConfusesRows()
    ensures DedupKey(["a\0", "b"], [], 2) == DedupKey(["a", "\0b"], [], 2)
  {
    assert KeyCells(["a\0", "b"], [], 2) == [] + ["a\0"] + ["b"];
    assert KeyCells(["a", "\0b"], [], 2) == [] + ["a"] + ["\0b"];
    KeyTextSnoc([], "a\0");
    KeyTextSnoc([] + ["a\0"], "b");
    KeyTextSnoc([], "a");
    KeyTextSnoc([] + ["a"], "\0b");
  }
}
