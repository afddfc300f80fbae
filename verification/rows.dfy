/**
  A record read from a worksheet: a JavaScript object whose own keys are the
  header texts, kept in insertion order as `Object.keys` lists them.
 */
module Rows {
  import opened Wrappers
  import opened Cells
  import Seqs

  datatype Field = Field(name: string, value: Cell)

  /** The fields of one record, in key insertion order. */
  type Row = seq<Field>

  /** `Object.keys(row)`: one key per field, in insertion order, none listed twice. */
  function Names(r: Row): (ns: seq<string>)
    ensures |ns| == |r|
    ensures forall i :: 0 <= i < |r| ==> ns[i] == r[i].name
    ensures WellFormed(r) <==> Distinct(ns)
  {
    seq(|r|, i requires 0 <= i < |r| => r[i].name)
  }

  /** No string is listed twice. */
  ghost predicate Distinct(ns: seq<string>) {
    forall i, j :: 0 <= i < j < |ns| ==> ns[i] != ns[j]
  }

  /** No key occurs twice, as in any JavaScript object. */
  ghost predicate WellFormed(r: Row) {
    forall a, b :: 0 <= a < b < |r| ==> r[a].name != r[b].name
  }

  /** Where the field named `k` sits, if the record has one. */
  function FieldIndex(r: Row, k: string): (i: Option<nat>)
    ensures i.Some? ==> i.value < |r| && r[i.value].name == k
    ensures i.Some? ==> forall j :: 0 <= j < i.value ==> r[j].name != k
    ensures i.None? <==> k !in Names(r)
  {
    Seqs.FirstIndex(r, (f: Field) => f.name == k)
  }

  /** `row[k]`: the value stored under `k`, or `None` for `undefined`. */
  function Get(r: Row, k: string): (v: Option<Cell>)
    ensures v.Some? <==> k in Names(r)
    ensures v.Some? ==> Field(k, v.value) in r
  {
    match FieldIndex(r, k)
    case Some(i) => Some(r[i].value)
    case None => None
  }

  /**
    `row[k] = v`: overwrites the value in place when the key exists, and
    otherwise appends the key after the existing ones.
   */
  function Set(r: Row, k: string, v: Cell): (r': Row)
    ensures Get(r', k) == Some(v)
    ensures forall j :: j != k ==> Get(r', j) == Get(r, j)
    ensures Names(r') == if k in Names(r) then Names(r) else Names(r) + [k]
    ensures forall j :: j in Names(r') <==> j in Names(r) || j == k
    ensures WellFormed(r) ==> WellFormed(r')
  {
    match FieldIndex(r, k)
    case Some(i) =>
      var r' := r[i := Field(k, v)];
      assert Names(r') == Names(r);
      forall j | j != k
        ensures FieldIndex(r', j) == FieldIndex(r, j)
      {
        FieldIndexByNames(r, r', j);
      }
      r'
    case None =>
      forall j | j != k
        ensures FieldIndex(r + [Field(k, v)], j) == FieldIndex(r, j)
      {
        FieldIndexAppend(r, Field(k, v), j);
      }
      var r' := r + [Field(k, v)];
      assert Names(r')[|r|] == k;
      assert forall j :: 0 <= j < |r| ==> r'[j].name == Names(r)[j] != k;
      r'
  }

  /** Records with the same keys at the same positions find a key at the same place. */
  lemma FieldIndexByNames(r: Row, r': Row, k: string)
    requires Names(r) == Names(r')
    ensures FieldIndex(r, k) == FieldIndex(r', k)
  {
  }

  /** Appending a field under another key does not move where `k` is found. */
  lemma FieldIndexAppend(r: Row, f: Field, k: string)
    requires f.name != k
    ensures FieldIndex(r + [f], k) == FieldIndex(r, k)
  {
    var a := FieldIndex(r, k);
    if a.Some? {
      assert (r + [f])[a.value] == r[a.value];
    }
  }

  /**
    `${row[k]}`: the template-literal rendering of a field. A missing key and
    the text "undefined" are the only fields that render as "undefined", and a
    numeric field renders as text reading back as its number.
   */
  function FieldString(r: Row, k: string): (s: string)
    ensures s == "undefined" <==> Get(r, k).None? || Get(r, k) == Some(Text("undefined"))
    ensures Get(r, k).Some? && Get(r, k).value.Num? ==> ParseDecimal(s) == Some(Get(r, k).value.n)
  {
    match Get(r, k)
    case None => "undefined"
    case Some(c) => Render(c)
  }
}
