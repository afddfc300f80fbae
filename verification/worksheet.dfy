/**
  `worksheetToJson` (src/App.tsx): turns a worksheet into one record per data
  row, keyed by the text of the header row (row 1).
 */
module Worksheet {
  import opened Wrappers
  import opened Cells
  import opened Rows
  import Seqs

  /**
    A worksheet as a grid of cell values: `grid[0]` is row 1, `grid[r][c]` is
    the cell in row r+1, column c+1, and `Null` marks an empty cell.
   */
  type Grid = seq<seq<Cell>>

  /** The header of column c+1 when it is a string; any other header keys nothing. */
  function HeaderName(grid: Grid, c: nat): Option<string> {
    if |grid| > 0 && c < |grid[0]| && grid[0][c].Text? then Some(grid[0][c].s) else None
  }

  /** Column c+1 of `cells` is non-empty and stored under key `k`. */
  predicate Keyed(grid: Grid, cells: seq<Cell>, c: nat, k: string) {
    c < |cells| && cells[c] != Null && HeaderName(grid, c) == Some(k)
  }

  /** Column c+1 is the last of the first n columns stored under `k`. */
  ghost predicate LastKeyed(grid: Grid, cells: seq<Cell>, n: nat, c: nat, k: string) {
    c < n && Keyed(grid, cells, c, k) && forall c' :: c < c' < n ==> !Keyed(grid, cells, c', k)
  }

  /**
    Among the first n columns, key `k1` is stored before key `k2` is first
    stored: some column keyed `k1` has no column keyed `k2` at or before it.
   */
  ghost predicate KeyedBefore(grid: Grid, cells: seq<Cell>, n: nat, k1: string, k2: string) {
    exists c1 :: 0 <= c1 < n && Keyed(grid, cells, c1, k1) && forall c2 :: 0 <= c2 <= c1 ==> !Keyed(grid, cells, c2, k2)
  }

  /**
    `r` holds exactly the keys of the first n columns, each once, in the order
    of the columns where they are first stored, and each with its last value.
   */
  ghost predicate RecordOf(grid: Grid, cells: seq<Cell>, n: nat, r: Row)
    requires n <= |cells|
  {
    && WellFormed(r)
    && (forall k :: k in Names(r) <==> exists c :: 0 <= c < n && Keyed(grid, cells, c, k))
    && (forall a, b :: 0 <= a < b < |r| ==> KeyedBefore(grid, cells, n, r[a].name, r[b].name))
    && (forall k, c: nat :: LastKeyed(grid, cells, n, c, k) ==> Get(r, k) == Some(cells[c]))
  }

  /**
    The record built from the first n columns of a row, visiting the
    non-empty cells left to right and assigning each under its header.
   */
  function RecordUpTo(grid: Grid, cells: seq<Cell>, n: nat): (r: Row)
    requires n <= |cells|
    ensures WellFormed(r)
    ensures forall k :: k in Names(r) <==> exists c :: 0 <= c < n && Keyed(grid, cells, c, k)
    ensures forall a, b :: 0 <= a < b < |r| ==> KeyedBefore(grid, cells, n, r[a].name, r[b].name)
    ensures forall k, c: nat :: LastKeyed(grid, cells, n, c, k) ==> Get(r, k) == Some(cells[c])
  {
    if n == 0 then []
    else
      var r := RecordUpTo(grid, cells, n - 1);
      assert RecordOf(grid, cells, n - 1, r);
      if cells[n - 1] != Null && HeaderName(grid, n - 1).Some? then
        var k := HeaderName(grid, n - 1).value;
        AssignStep(grid, cells, n, r, k);
        Set(r, k, cells[n - 1])
      else
        SkipStep(grid, cells, n, r);
        r
  }

  /** Assigning the non-empty column n under its header extends the record to n columns. */
  lemma AssignStep(grid: Grid, cells: seq<Cell>, n: nat, r: Row, k0: string)
    requires 0 < n <= |cells|
    requires RecordOf(grid, cells, n - 1, r)
    requires Keyed(grid, cells, n - 1, k0)
    ensures RecordOf(grid, cells, n, Set(r, k0, cells[n - 1]))
  {
    var r' := Set(r, k0, cells[n - 1]);
    forall k
      ensures k in Names(r') <==> exists c :: 0 <= c < n && Keyed(grid, cells, c, k)
    {
      if k != k0 {
        if exists c :: 0 <= c < n && Keyed(grid, cells, c, k) {
          var c :| 0 <= c < n && Keyed(grid, cells, c, k);
          assert c < n - 1;
        }
      }
    }
    AssignOrder(grid, cells, n, r, k0);
    forall k, c: nat | LastKeyed(grid, cells, n, c, k)
      ensures Get(r', k) == Some(cells[c])
    {
      if k == k0 {
        assert c == n - 1;
      } else {
        assert LastKeyed(grid, cells, n - 1, c, k);
      }
    }
  }

  /** Assigning column n keeps the keys in the order they are first stored. */
  lemma AssignOrder(grid: Grid, cells: seq<Cell>, n: nat, r: Row, k0: string)
    requires 0 < n <= |cells|
    requires RecordOf(grid, cells, n - 1, r)
    requires Keyed(grid, cells, n - 1, k0)
    ensures var r' := Set(r, k0, cells[n - 1]);
      forall a, b :: 0 <= a < b < |r'| ==> KeyedBefore(grid, cells, n, r'[a].name, r'[b].name)
  {
    var r' := Set(r, k0, cells[n - 1]);
    forall a, b | 0 <= a < b < |r'|
      ensures KeyedBefore(grid, cells, n, r'[a].name, r'[b].name)
    {
      assert r'[a].name == Names(r')[a] && r'[b].name == Names(r')[b];
      if b < |r| {
        assert Names(r')[a] == Names(r)[a] && Names(r')[b] == Names(r)[b];
        KeyedBeforeGrows(grid, cells, n, r[a].name, r[b].name);
      } else {
        assert k0 !in Names(r) && r'[b].name == k0;
        assert r[a].name in Names(r) && r'[a].name == r[a].name;
        var c1 :| 0 <= c1 < n - 1 && Keyed(grid, cells, c1, r[a].name);
        assert forall c2 :: 0 <= c2 <= c1 ==> !Keyed(grid, cells, c2, k0);
      }
    }
  }

  /** Looking at one more column does not change which key came first. */
  lemma KeyedBeforeGrows(grid: Grid, cells: seq<Cell>, n: nat, k1: string, k2: string)
    requires 0 < n && KeyedBefore(grid, cells, n - 1, k1, k2)
    ensures KeyedBefore(grid, cells, n, k1, k2)
  {
    var c1 :| 0 <= c1 < n - 1 && Keyed(grid, cells, c1, k1) && forall c2 :: 0 <= c2 <= c1 ==> !Keyed(grid, cells, c2, k2);
    assert c1 < n;
  }

  /** Skipping an empty or unkeyed column n keeps the record as it is. */
  lemma SkipStep(grid: Grid, cells: seq<Cell>, n: nat, r: Row)
    requires 0 < n <= |cells|
    requires RecordOf(grid, cells, n - 1, r)
    requires cells[n - 1] == Null || HeaderName(grid, n - 1).None?
    ensures RecordOf(grid, cells, n, r)
  {
    forall k
      ensures k in Names(r) <==> exists c :: 0 <= c < n && Keyed(grid, cells, c, k)
    {
      if exists c :: 0 <= c < n && Keyed(grid, cells, c, k) {
        var c :| 0 <= c < n && Keyed(grid, cells, c, k);
        assert c < n - 1;
      }
    }
    forall a, b | 0 <= a < b < |r|
      ensures KeyedBefore(grid, cells, n, r[a].name, r[b].name)
    {
      KeyedBeforeGrows(grid, cells, n, r[a].name, r[b].name);
    }
    forall k, c: nat | LastKeyed(grid, cells, n, c, k)
      ensures Get(r, k) == Some(cells[c])
    {
      assert LastKeyed(grid, cells, n - 1, c, k);
    }
  }

  /** The record for one data row. */
  function Record(grid: Grid, cells: seq<Cell>): Row {
    RecordUpTo(grid, cells, |cells|)
  }

  /** ExcelJS's `eachRow` visits only rows holding at least one non-empty cell. */
  predicate HasValues(cells: seq<Cell>) {
    exists c :: 0 <= c < |cells| && cells[c] != Null
  }

  /** What the `eachRow` callback makes of a data row: a record, or nothing for an empty row. */
  function DataRow(grid: Grid): seq<Cell> -> Option<Row> {
    cells => if HasValues(cells) then Some(Record(grid, cells)) else None
  }

  /** `worksheetToJson`: the records of the non-empty rows after the header row, in order. */
  function WorksheetToJson(grid: Grid): (rows: seq<Row>)
    ensures |grid| <= 1 ==> rows == []
    ensures |grid| > 0 ==> |rows| <= |grid| - 1
    ensures forall r :: r in rows ==> WellFormed(r)
  {
    if |grid| == 0 then [] else Seqs.FilterMap(grid[1..], DataRow(grid))
  }

  /**
    Row 1 is never emitted; every other row is emitted, in order, exactly when
    it has a non-empty cell, as the record keyed by row 1's texts.
   */
  lemma {:induction false} WorksheetToJsonRows(grid: Grid)
    requires |grid| > 0
    ensures var rows, idx := WorksheetToJson(grid), Seqs.Selected(grid[1..], DataRow(grid));
      && Seqs.Ascending(idx)
      && |rows| == |idx|
      && (forall i :: 1 <= i < |grid| ==> (i - 1 in idx <==> HasValues(grid[i])))
      && (forall k :: 0 <= k < |rows| ==>
            idx[k] + 1 < |grid| && rows[k] == Record(grid, grid[idx[k] + 1]))
  {
    var data := grid[1..];
    Seqs.FilterMapSelected(data, DataRow(grid));
    var idx := Seqs.Selected(data, DataRow(grid));
    forall i | 1 <= i < |grid|
      ensures i - 1 in idx <==> HasValues(grid[i])
    {
      assert data[i - 1] == grid[i];
    }
    forall k | 0 <= k < |idx|
      ensures data[idx[k]] == grid[idx[k] + 1]
    {
    }
  }

  /** A record has a key exactly when some non-empty cell of the row sits under that string header. */
  lemma RecordKeys(grid: Grid, cells: seq<Cell>, k: string)
    ensures k in Names(Record(grid, cells)) <==> exists c :: 0 <= c < |cells| && Keyed(grid, cells, c, k)
  {
  }

  /** When two columns share a header, the later non-empty one wins. */
  lemma RecordLastWins(grid: Grid, cells: seq<Cell>, c: nat, k: string)
    requires Keyed(grid, cells, c, k)
    requires forall c' :: c < c' < |cells| ==> !Keyed(grid, cells, c', k)
    ensures Get(Record(grid, cells), k) == Some(cells[c])
  {
    assert LastKeyed(grid, cells, |cells|, c, k);
  }

  /**
    `KeyedBefore` is a strict order on the keys a row stores, so the key order
    of a record is fixed by its columns.
   */
  lemma KeyedBeforeAsymmetric(grid: Grid, cells: seq<Cell>, n: nat, k1: string, k2: string)
    requires KeyedBefore(grid, cells, n, k1, k2)
    ensures !KeyedBefore(grid, cells, n, k2, k1)
  {
    var c1 :| 0 <= c1 < n && Keyed(grid, cells, c1, k1) && forall c2 :: 0 <= c2 <= c1 ==> !Keyed(grid, cells, c2, k2);
    forall c2 | 0 <= c2 < n && Keyed(grid, cells, c2, k2)
      ensures exists c :: 0 <= c <= c2 && Keyed(grid, cells, c, k1)
    {
      assert c1 < c2;
    }
  }

  /** The keys of a record follow the header order, not the order of the key texts. */
  lemma RecordOrderExample()
    ensures Names(Record([[Text("b"), Text("a")]], [Num(1), Num(2)])) == ["b", "a"]
  {
    var grid: Grid := [[Text("b"), Text("a")]];
    var cells := [Num(1), Num(2)];
    assert RecordUpTo(grid, cells, 0) == [];
    assert RecordUpTo(grid, cells, 1) == [Field("b", Num(1))];
    assert RecordUpTo(grid, cells, 2) == [Field("b", Num(1)), Field("a", Num(2))];
  }

  /** Row i+1 is the first row after the header holding a non-empty cell. */
  ghost predicate FirstDataRow(grid: Grid, i: nat) {
    1 <= i < |grid| && HasValues(grid[i]) && forall i' :: 1 <= i' < i ==> !HasValues(grid[i'])
  }

  /** The first record is the one of the first non-empty row after the header. */
  lemma WorksheetToJsonFirst(grid: Grid)
    requires |WorksheetToJson(grid)| > 0
    ensures exists i: nat :: FirstDataRow(grid, i) && WorksheetToJson(grid)[0] == Record(grid, grid[i])
  {
    WorksheetToJsonRows(grid);
    var data := grid[1..];
    var idx := Seqs.Selected(data, DataRow(grid));
    Seqs.SelectedFirst(data, DataRow(grid));
    var i := idx[0] + 1;
    forall i' | 1 <= i' < i
      ensures !HasValues(grid[i'])
    {
      assert data[i' - 1] == grid[i'];
    }
    assert FirstDataRow(grid, i);
  }
}
