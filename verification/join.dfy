/**
  The reconciliation in `processExcel` (src/App.tsx): every BOS order row is
  matched against the ERP rows on the rendered order number, and a matched
  row is written out with the ERP tracking number and carrier code added.
 */
module Join {
  import opened Wrappers
  import opened Cells
  import opened Rows
  import Carriers
  import Seqs
  import Worksheet

  /** BOS column holding the per-item order number. */
  const OrderKey := "품목별주문번호"
  /** ERP column holding the order detail number, compared with `OrderKey`. */
  const DetailKey := "주문상세번호"
  /** ERP column holding the invoice (tracking) number. */
  const InvoiceField := "송장번호"
  /** ERP column holding the carrier name. */
  const CarrierField := "택배사"
  /** Output column receiving the tracking number. */
  const TrackingColumn := "운송장번호"
  /** Output column receiving the carrier code. */
  const CarrierCodeColumn := "배송사코드"

  /**
    The `find` callback: both order numbers render to the same string. Equal
    stored values (or both missing) always match, and two numeric order
    numbers match exactly when they are the same number.
   */
  predicate Matches(erpRow: Row, bosRow: Row): (m: bool)
    ensures Get(bosRow, OrderKey) == Get(erpRow, DetailKey) ==> m
    ensures var b, e := Get(bosRow, OrderKey), Get(erpRow, DetailKey);
      b.Some? && b.value.Num? && e.Some? && e.value.Num? ==> (m <==> b.value.n == e.value.n)
  {
    FieldString(erpRow, DetailKey) == FieldString(bosRow, OrderKey)
  }

  /** `erpExcelData.find(...)`: the position of the first ERP row matching `bosRow`. */
  function FindMatch(erp: seq<Row>, bosRow: Row): (j: Option<nat>)
    ensures j.Some? ==> j.value < |erp| && Matches(erp[j.value], bosRow)
    ensures j.Some? ==> forall i :: 0 <= i < j.value ==> !Matches(erp[i], bosRow)
    ensures j.None? <==> forall i :: 0 <= i < |erp| ==> !Matches(erp[i], bosRow)
  {
    Seqs.FirstIndex(erp, (e: Row) => Matches(e, bosRow))
  }

  /**
    `${lookuped['송장번호']}`: the ERP invoice number as text. A numeric invoice
    number is carried without loss, and a missing one becomes "undefined".
   */
  function TrackingOf(erpRow: Row): (c: Cell)
    ensures c.Text?
    ensures InvoiceField !in Names(erpRow) ==> c.s == "undefined"
    ensures Get(erpRow, InvoiceField).Some? && Get(erpRow, InvoiceField).value.Num? ==>
              ParseDecimal(c.s) == Some(Get(erpRow, InvoiceField).value.n)
  {
    Text(FieldString(erpRow, InvoiceField))
  }

  /** `DILIVERY_CODE_MAP[`${lookuped['택배사']}`] || 0`: the code of the ERP carrier name. */
  function CarrierCodeOf(erpRow: Row): (c: Cell)
    ensures c.Num? && (c.n == Carriers.UnknownCarrier || c.n in Carriers.CarrierCodes.Values)
  {
    Num(Carriers.CarrierCode(FieldString(erpRow, CarrierField)))
  }

  /**
    The two assignments to a matched row, tracking number first: the only
    fields that change are the two written ones, and a key the row lacked is
    appended after the existing keys.
   */
  function WriteBack(bosRow: Row, tracking: Cell, code: Cell): (out: Row)
    ensures Get(out, TrackingColumn) == Some(tracking)
    ensures Get(out, CarrierCodeColumn) == Some(code)
    ensures forall k :: k != TrackingColumn && k != CarrierCodeColumn ==> Get(out, k) == Get(bosRow, k)
    ensures Names(bosRow) <= Names(out)
    ensures forall k :: k in Names(out) ==> k in Names(bosRow) || k == TrackingColumn || k == CarrierCodeColumn
    ensures WellFormed(bosRow) ==> WellFormed(out)
  {
    var tracked := Set(bosRow, TrackingColumn, tracking);
    assert TrackingColumn != CarrierCodeColumn;
    Set(tracked, CarrierCodeColumn, code)
  }

  /** A matched BOS row after enrichment from its ERP row. */
  function Enrich(bosRow: Row, erpRow: Row): (out: Row)
    ensures EnrichedFrom(out, bosRow, erpRow)
    ensures Names(bosRow) <= Names(out)
    ensures WellFormed(bosRow) ==> WellFormed(out)
  {
    WriteBack(bosRow, TrackingOf(erpRow), CarrierCodeOf(erpRow))
  }

  /**
    One turn of the `for` loop: nothing when no ERP row matches, and otherwise
    the BOS row enriched from the first ERP row that matches it.
   */
  function EnrichIfMatched(erp: seq<Row>, bosRow: Row): (out: Option<Row>)
    ensures out.Some? <==> exists j :: 0 <= j < |erp| && Matches(erp[j], bosRow)
    ensures out.Some? ==> exists j :: 0 <= j < |erp| && FirstMatchAt(erp, bosRow, j) && EnrichedFrom(out.value, bosRow, erp[j])
  {
    match FindMatch(erp, bosRow)
    case Some(j) =>
      assert FirstMatchAt(erp, bosRow, j);
      Some(Enrich(bosRow, erp[j]))
    case None => None
  }

  /** The loop body as a function of the BOS row. */
  function JoinStep(erp: seq<Row>): Row -> Option<Row> {
    bosRow => EnrichIfMatched(erp, bosRow)
  }

  /** The rows the loop hands to `addRow`, in order. */
  function MatchRows(bos: seq<Row>, erp: seq<Row>): (out: seq<Row>)
    ensures |out| <= |bos|
    ensures forall r :: r in out ==> exists b :: b in bos && JoinStep(erp)(b) == Some(r)
  {
    Seqs.FilterMap(bos, JoinStep(erp))
  }

  /** The positions of the BOS rows that some ERP row matches, in ascending order. */
  function MatchedIndices(bos: seq<Row>, erp: seq<Row>): (idx: seq<nat>)
    ensures Seqs.Ascending(idx)
    ensures forall k :: 0 <= k < |idx| ==> idx[k] < |bos|
    ensures forall i :: 0 <= i < |bos| ==>
              (i in idx <==> exists j :: 0 <= j < |erp| && Matches(erp[j], bos[i]))
  {
    Seqs.Selected(bos, JoinStep(erp))
  }

  /**
    The output is an order-preserving filter-and-map of the BOS rows: the
    k-th output row is the k-th matched BOS row, enriched from the first ERP
    row that matches it.
   */
  lemma {:induction false} MatchRowsSpec(bos: seq<Row>, erp: seq<Row>)
    ensures var out, idx := MatchRows(bos, erp), MatchedIndices(bos, erp);
      && |out| == |idx|
      && forall k :: 0 <= k < |out| ==>
           && FindMatch(erp, bos[idx[k]]).Some?
           && out[k] == Enrich(bos[idx[k]], erp[FindMatch(erp, bos[idx[k]]).value])
  {
    Seqs.FilterMapSelected(bos, JoinStep(erp));
  }

  /**
    What a single output row holds: the matched BOS row's fields unchanged
    except the two written ones, which come from the lowest-positioned ERP
    row whose order number renders like the BOS row's, even when later ERP
    rows match too.
   */
  lemma MatchedRowContents(bos: seq<Row>, erp: seq<Row>, k: nat)
    ensures k < |MatchRows(bos, erp)| <==> k < |MatchedIndices(bos, erp)|
    ensures k < |MatchRows(bos, erp)| ==>
      var i := MatchedIndices(bos, erp)[k];
      exists j :: 0 <= j < |erp| && FirstMatchAt(erp, bos[i], j) && EnrichedFrom(MatchRows(bos, erp)[k], bos[i], erp[j])
  {
    MatchRowsSpec(bos, erp);
    if k < |MatchRows(bos, erp)| {
      var i := MatchedIndices(bos, erp)[k];
      var j := FindMatch(erp, bos[i]).value;
      assert FirstMatchAt(erp, bos[i], j);
      assert EnrichedFrom(MatchRows(bos, erp)[k], bos[i], erp[j]);
    }
  }

  /** Position j holds the first ERP row matching `bosRow`. */
  ghost predicate FirstMatchAt(erp: seq<Row>, bosRow: Row, j: nat) {
    j < |erp| && Matches(erp[j], bosRow) && forall i :: 0 <= i < j ==> !Matches(erp[i], bosRow)
  }

  /** `out` is `bosRow` with the tracking number and carrier code of `erpRow` written in. */
  ghost predicate EnrichedFrom(out: Row, bosRow: Row, erpRow: Row) {
    && Get(out, TrackingColumn) == Some(TrackingOf(erpRow))
    && Get(out, CarrierCodeColumn) == Some(CarrierCodeOf(erpRow))
    && forall f :: f != TrackingColumn && f != CarrierCodeColumn ==> Get(out, f) == Get(bosRow, f)
  }

  /** BOS rows whose order numbers render alike are matched to the same ERP row. */
  lemma SameKeySameMatch(erp: seq<Row>, b1: Row, b2: Row)
    requires FieldString(b1, OrderKey) == FieldString(b2, OrderKey)
    ensures FindMatch(erp, b1) == FindMatch(erp, b2)
  {
  }

  /**
    A BOS row without an order number renders its key as "undefined", so it
    matches an ERP row without a detail number, or an earlier ERP row whose
    detail number is the text "undefined".
   */
  lemma MissingKeysMatch(erp: seq<Row>, bosRow: Row, j: nat)
    requires OrderKey !in Names(bosRow)
    requires j < |erp| && DetailKey !in Names(erp[j])
    ensures FindMatch(erp, bosRow).Some? && FindMatch(erp, bosRow).value <= j
  {
  }

  /** Numeric order numbers match exactly when they are equal numbers. */
  lemma NumericKeysMatchIff(erpRow: Row, bosRow: Row, a: int, b: int)
    requires Get(bosRow, OrderKey) == Some(Num(a))
    requires Get(erpRow, DetailKey) == Some(Num(b))
    ensures Matches(erpRow, bosRow) <==> a == b
  {
    NumKeysMatchIff(a, b);
  }

  /**
    A textual order number matches a numeric detail number exactly when the
    text is that number in canonical decimal form: the number 1001 matches
    the text "1001" but not "01001".
   */
  lemma NumericMatchesText(erpRow: Row, bosRow: Row, t: string, n: int)
    requires Get(bosRow, OrderKey) == Some(Text(t))
    requires Get(erpRow, DetailKey) == Some(Num(n))
    ensures Matches(erpRow, bosRow) <==> Canonical(t) && ParseDecimal(t) == Some(n)
  {
    NumMatchesTextIff(t, n);
  }

  /** The sheet handed to the writer: declared columns, then the rows to add. */
  datatype Table = Table(columns: seq<string>, rows: seq<Row>)

  /** `Object.keys(bosExcelData[0])` throws when there is no BOS data row. */
  datatype ReconcileError = NoSourceRows

  /**
    The core of `processExcel`: the columns are the keys of the first BOS
    data row, read before any row is enriched, followed by the matched rows.
   */
  function Reconcile(bos: seq<Row>, erp: seq<Row>): (res: Result<Table, ReconcileError>)
    ensures res.Failure? <==> |bos| == 0
    ensures res.Success? ==> res.value.columns == Names(bos[0])
    ensures res.Success? ==> res.value.rows == MatchRows(bos, erp)
    ensures res.Success? ==> |res.value.rows| <= |bos|
  {
    if |bos| == 0 then Failure(NoSourceRows)
    else Success(Table(Names(bos[0]), MatchRows(bos, erp)))
  }

  /**
    The declared columns do not depend on the ERP data: the tracking and
    carrier-code columns are declared only when the first BOS row already
    had those keys, whether or not it was matched.
   */
  lemma ColumnsIgnoreErp(bos: seq<Row>, erp1: seq<Row>, erp2: seq<Row>)
    requires |bos| > 0
    ensures Reconcile(bos, erp1).value.columns == Reconcile(bos, erp2).value.columns
    ensures TrackingColumn in Reconcile(bos, erp1).value.columns <==> TrackingColumn in Names(bos[0])
    ensures CarrierCodeColumn in Reconcile(bos, erp1).value.columns <==> CarrierCodeColumn in Names(bos[0])
  {
  }

  /**
    `processExcel` from the two worksheets to the sheet it writes. The
    declared columns are the keys of the first non-empty BOS row after the
    header, in the order of its columns.
   */
  function ProcessExcel(bosSheet: Worksheet.Grid, erpSheet: Worksheet.Grid): (res: Result<Table, ReconcileError>)
    ensures res.Success? ==> exists i: nat ::
      Worksheet.FirstDataRow(bosSheet, i) && res.value.columns == Names(Worksheet.Record(bosSheet, bosSheet[i]))
  {
    var bos := Worksheet.WorksheetToJson(bosSheet);
    if |bos| > 0 then
      Worksheet.WorksheetToJsonFirst(bosSheet);
      Reconcile(bos, Worksheet.WorksheetToJson(erpSheet))
    else
      Reconcile(bos, Worksheet.WorksheetToJson(erpSheet))
  }

  /** Processing fails exactly when no BOS row after the header holds a non-empty cell. */
  lemma ProcessExcelFailsIff(bosSheet: Worksheet.Grid, erpSheet: Worksheet.Grid)
    ensures ProcessExcel(bosSheet, erpSheet).Failure? <==>
            forall i :: 1 <= i < |bosSheet| ==> !Worksheet.HasValues(bosSheet[i])
  {
    if |bosSheet| > 0 {
      Worksheet.WorksheetToJsonRows(bosSheet);
      var idx := Seqs.Selected(bosSheet[1..], Worksheet.DataRow(bosSheet));
      if |idx| > 0 {
        assert Worksheet.HasValues(bosSheet[idx[0] + 1]);
      }
    }
  }
}
