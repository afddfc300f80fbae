/**
  The carrier-code table `DILIVERY_CODE_MAP` (src/App.tsx) and the lookup
  `DILIVERY_CODE_MAP[name] || 0` that turns a carrier name into the numeric
  code of the downstream system.
 */
module Carriers {
  import opened Wrappers

  /** The fixed carrier table: exact carrier name to code. */
  const CarrierCodes: map<string, int> := map[
    "CJ대한통운" := 2,
    "우체국택배" := 3,
    "한진택배" := 4,
    "롯데택배" := 5,
    "로젠택배" := 6,
    "KG로지스" := 7,
    "CVSnet" := 8,
    "KGB택배" := 9,
    "경동택배" := 10,
    "대신택배" := 11,
    "일양로지스" := 12,
    "GTX로지스" := 13,
    "천일택배" := 15,
    "건영택배" := 14,
    "직접배송/수령" := 29,
    "합동택배" := 28,
    "농협택배" := 27
  ]

  /** The code for carriers the table does not know. */
  const UnknownCarrier := 0

  /** JavaScript's `v || 0` on a property read: `undefined` and `0` are falsy and give 0. */
  function OrZero(v: Option<int>): int {
    if v.Some? && v.value != 0 then v.value else 0
  }

  /**
    `DILIVERY_CODE_MAP[name] || 0`: exact, case-sensitive lookup, where any
    name outside the table gives the unknown-carrier code.
   */
  function CarrierCode(name: string): (code: int)
    ensures name in CarrierCodes ==> code == CarrierCodes[name]
    ensures name !in CarrierCodes ==> code == UnknownCarrier
    ensures code == UnknownCarrier || code in CarrierCodes.Values
  {
    OrZero(if name in CarrierCodes then Some(CarrierCodes[name]) else None)
  }

  /** No listed carrier has the unknown code, so `|| 0` only ever replaces a miss. */
  lemma TableCodesNonZero()
    ensures forall name :: name in CarrierCodes ==> 2 <= CarrierCodes[name] <= 29
  {
  }

  /** A code other than the unknown one is produced exactly for the listed names. */
  lemma KnownIffNonZero(name: string)
    ensures CarrierCode(name) != UnknownCarrier <==> name in CarrierCodes
  {
  }

  /** Each listed carrier gets its own code, as written in the table. */
  lemma ListedCodes()
    ensures CarrierCode("CJ대한통운") == 2
    ensures CarrierCode("우체국택배") == 3
    ensures CarrierCode("한진택배") == 4
    ensures CarrierCode("롯데택배") == 5
    ensures CarrierCode("로젠택배") == 6
    ensures CarrierCode("KG로지스") == 7
    ensures CarrierCode("CVSnet") == 8
    ensures CarrierCode("KGB택배") == 9
    ensures CarrierCode("경동택배") == 10
    ensures CarrierCode("대신택배") == 11
    ensures CarrierCode("일양로지스") == 12
    ensures CarrierCode("GTX로지스") == 13
    ensures CarrierCode("천일택배") == 15
    ensures CarrierCode("건영택배") == 14
    ensures CarrierCode("직접배송/수령") == 29
    ensures CarrierCode("합동택배") == 28
    ensures CarrierCode("농협택배") == 27
  {
    assert "CJ대한통운" in CarrierCodes && CarrierCodes["CJ대한통운"] == 2;
    assert "우체국택배" in CarrierCodes && CarrierCodes["우체국택배"] == 3;
    assert "한진택배" in CarrierCodes && CarrierCodes["한진택배"] == 4;
    assert "롯데택배" in CarrierCodes && CarrierCodes["롯데택배"] == 5;
    assert "로젠택배" in CarrierCodes && CarrierCodes["로젠택배"] == 6;
    assert "KG로지스" in CarrierCodes && CarrierCodes["KG로지스"] == 7;
    assert "CVSnet" in CarrierCodes && CarrierCodes["CVSnet"] == 8;
    assert "KGB택배" in CarrierCodes && CarrierCodes["KGB택배"] == 9;
    assert "경동택배" in CarrierCodes && CarrierCodes["경동택배"] == 10;
    assert "대신택배" in CarrierCodes && CarrierCodes["대신택배"] == 11;
    assert "일양로지스" in CarrierCodes && CarrierCodes["일양로지스"] == 12;
    assert "GTX로지스" in CarrierCodes && CarrierCodes["GTX로지스"] == 13;
    assert "천일택배" in CarrierCodes && CarrierCodes["천일택배"] == 15;
    assert "건영택배" in CarrierCodes && CarrierCodes["건영택배"] == 14;
    assert "직접배송/수령" in CarrierCodes && CarrierCodes["직접배송/수령"] == 29;
    assert "합동택배" in CarrierCodes && CarrierCodes["합동택배"] == 28;
    assert "농협택배" in CarrierCodes && CarrierCodes["농협택배"] == 27;
  }

  /**
    Names outside the table, including an empty cell rendered as `""`, a
    missing field rendered as `"undefined"`, and case or spacing variants,
    give the unknown code.
   */
  lemma UnlistedCodes()
    ensures CarrierCode("") == UnknownCarrier
    ensures CarrierCode("undefined") == UnknownCarrier
    ensures CarrierCode("알수없음") == UnknownCarrier
    ensures CarrierCode("cj대한통운") == UnknownCarrier
    ensures CarrierCode("CJ대한통운 ") == UnknownCarrier
  {
  }

  /** No two listed carriers share a code, so a code names its carrier. */
  lemma CodesDistinct()
    ensures forall a, b :: a in CarrierCodes && b in CarrierCodes && a != b ==> CarrierCodes[a] != CarrierCodes[b]
  {
  }
}
