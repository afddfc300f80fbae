/**
  `filter_rows` (src-tauri/src/lib.rs): keeps the member rows whose mobile
  phone number starts with "01", dropping the header row.
 */
module PhoneFilter {
  import opened Wrappers
  import Seqs

  /** The header text of the mobile phone column. */
  const PhoneHeader := "휴대폰번호"
  /** The prefix of a Korean mobile number. */
  const MobilePrefix := "01"

  predicate StartsWith(s: string, prefix: string) {
    |prefix| <= |s| && s[..|prefix|] == prefix
  }

  /**
    The `filter` test: the row has a cell at `col` whose first two characters
    are '0' and '1'. A row too short to have the cell is dropped.
   */
  predicate KeepRow(row: seq<string>, col: nat): (keep: bool)
    ensures keep <==> col < |row| && |row[col]| >= 2 && row[col][0] == '0' && row[col][1] == '1'
  {
    col < |row| && StartsWith(row[col], MobilePrefix)
  }

  /** The `filter` closure over the data rows, as a filter-and-map that keeps rows unchanged. */
  function Keep(col: nat): seq<string> -> Option<seq<string>> {
    row => if KeepRow(row, col) then Some(row) else None
  }

  /** `header.iter().position(|col| col == "휴대폰번호")`. */
  function PhoneColumn(header: seq<string>): (i: Option<nat>)
    ensures i.Some? ==> i.value < |header| && header[i.value] == PhoneHeader
    ensures i.Some? ==> forall j :: 0 <= j < i.value ==> header[j] != PhoneHeader
    ensures i.None? <==> PhoneHeader !in header
  {
    Seqs.FirstIndex(header, (h: string) => h == PhoneHeader)
  }

  /** `filter_rows`. */
  function FilterRows(rows: seq<seq<string>>): (out: seq<seq<string>>)
    ensures |rows| == 0 ==> out == []
    ensures |rows| > 0 && PhoneHeader !in rows[0] ==> out == []
    ensures |rows| > 0 ==> |out| <= |rows| - 1
    ensures forall r :: r in out ==> r in rows[1..]
  {
    if |rows| == 0 then []
    else
      match PhoneColumn(rows[0])
      case None => []
      case Some(col) =>
        var out := Seqs.FilterMap(rows[1..], Keep(col));
        assert forall r :: r in out ==> r in rows[1..];
        out
  }

  /**
    With the phone column at position `col` (its first occurrence in the
    header), the output is exactly the rows after the header that have a cell
    at `col` starting with "01", in their original order.
   */
  lemma {:induction false} FilterRowsSpec(rows: seq<seq<string>>, col: nat)
    requires |rows| > 0
    requires col < |rows[0]| && rows[0][col] == PhoneHeader
    requires forall j :: 0 <= j < col ==> rows[0][j] != PhoneHeader
    ensures var out, idx := FilterRows(rows), Seqs.Selected(rows[1..], Keep(col));
      && Seqs.Ascending(idx)
      && |out| == |idx|
      && (forall i :: 1 <= i < |rows| ==> (i - 1 in idx <==> KeepRow(rows[i], col)))
      && (forall k :: 0 <= k < |out| ==> idx[k] + 1 < |rows| && out[k] == rows[idx[k] + 1])
  {
    var data := rows[1..];
    var found := PhoneColumn(rows[0]);
    assert found == Some(col);
    Seqs.FilterMapSelected(data, Keep(col));
    var idx := Seqs.Selected(data, Keep(col));
    forall i | 1 <= i < |rows|
      ensures i - 1 in idx <==> KeepRow(rows[i], col)
    {
      assert data[i - 1] == rows[i];
    }
  }

  /** Every row kept has the phone cell, and it starts with "01". */
  lemma KeptRowsAreMobile(rows: seq<seq<string>>, col: nat, r: seq<string>)
    requires |rows| > 0 && PhoneColumn(rows[0]) == Some(col)
    requires r in FilterRows(rows)
    ensures col < |r| && r[col][..2] == "01"
  {
  }
}
