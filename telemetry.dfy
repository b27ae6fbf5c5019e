/** Decoding the value (0x14) response: `decode_normal_info_from_resp14`
    and the per-field rules of `connect_and_poll` that turn the raw u16
    table into a reading. Scaled quantities stay raw integers with their
    divisor named in the field. */
module Telemetry {
  import opened Bytes

  const ValuesOffset: nat := 8

  /** The table for `codes`: code `codes[i]` maps to the u16 at payload
      offset 8 + 2i, a later index overwriting an earlier one. */
  function Table(payload: seq<byte>, codes: seq<byte>): (vals: map<byte, int>)
    requires |payload| >= ValuesOffset + 2 * |codes|
    ensures vals.Keys == set c | c in codes
    ensures forall c :: c in vals ==> 0 <= vals[c] <= 0xFFFF
    decreases |codes|
  {
    if codes == [] then map[]
    else
      var n := |codes| - 1;
      Table(payload, codes[..n])[codes[n] := U16At(payload, ValuesOffset + 2 * n)]
  }

  /** The value of a code is the one at its last index. */
  lemma {:induction false} TableLastIndexWins(payload: seq<byte>, codes: seq<byte>, i: nat)
    requires |payload| >= ValuesOffset + 2 * |codes|
    requires i < |codes|
    requires forall j :: i < j < |codes| ==> codes[j] != codes[i]
    ensures codes[i] in Table(payload, codes)
    ensures Table(payload, codes)[codes[i]] == U16At(payload, ValuesOffset + 2 * i)
    decreases |codes|
  {
    var n := |codes| - 1;
    var prev := Table(payload, codes[..n]);
    assert Table(payload, codes) == prev[codes[n] := U16At(payload, ValuesOffset + 2 * n)];
    if i < n {
      assert codes[..n][i] == codes[i] && codes[n] != codes[i];
      TableLastIndexWins(payload, codes[..n], i);
    }
  }

  /** What `decode_normal_info_from_resp14` returns or raises. */
  function DecodeValues(resp: seq<byte>, codes: seq<byte>): (r: Result<map<byte, int>>)
    ensures r.Ok? <==> |Drop(resp, HeaderSize)| >= ValuesOffset + 2 * |codes|
    ensures r.Err? ==> r.error == PayloadTooShort(|Drop(resp, HeaderSize)|, ValuesOffset + 2 * |codes|)
    ensures r.Ok? ==> r.value.Keys == set c | c in codes
  {
    var payload := Drop(resp, HeaderSize);
    var need := ValuesOffset + 2 * |codes|;
    if |payload| < need then Err(PayloadTooShort(|payload|, need)) else Ok(Table(payload, codes))
  }

  /** `decode_normal_info_from_resp14`: checks the length, then fills the
      table code by code. */
  method DecodeNormalInfo(resp: seq<byte>, codes: seq<byte>) returns (r: Result<map<byte, int>>)
    ensures r == DecodeValues(resp, codes)
  {
    var payload := Drop(resp, HeaderSize);
    var need := ValuesOffset + 2 * |codes|;
    if |payload| < need {
      return Err(PayloadTooShort(|payload|, need));
    }
    var vals: map<byte, int> := map[];
    for idx := 0 to |codes|
      invariant vals == Table(payload, codes[..idx])
    {
      assert codes[..idx + 1][..idx] == codes[..idx];
      var off := ValuesOffset + idx * 2;
      vals := vals[codes[idx] := payload[off] as int + (payload[off + 1] as int) * 256];
    }
    assert codes[..|codes|] == codes;
    return Ok(vals);
  }

  /** 256 to the power `n`. */
  function Exp256(n: nat): (r: nat)
    ensures r >= 1
  {
    if n == 0 then 1 else 256 * Exp256(n - 1)
  }

  /** `int.from_bytes(b, "little")`. */
  function LittleEndian(b: seq<byte>): (v: nat)
    ensures v < Exp256(|b|)
  {
    if b == [] then 0 else b[0] + 256 * LittleEndian(b[1..])
  }

  /** `payload[2:6]`: the clock field, or as much of it as there is. */
  function ClockField(p: seq<byte>): (b: seq<byte>)
    ensures |b| <= 4
    ensures |p| >= 6 ==> b == p[2..6]
  {
    var w := Drop(p, 2);
    if |w| > 4 then w[..4] else w
  }

  /** The device clock: `int.from_bytes(payload[2:6], "little")`, which
      reads whatever of those four bytes the payload has. */
  function PmuEpoch(resp: seq<byte>): (e: nat)
    ensures e < 0x1_0000_0000
  {
    var b := ClockField(Drop(resp, HeaderSize));
    assert Exp256(|b|) <= 0x1_0000_0000 by {
      assert |b| == 0 || |b| == 1 || |b| == 2 || |b| == 3 || |b| == 4;
    }
    LittleEndian(b)
  }

  /** With the whole field present, the clock's low and high halves are
      the u16 values at payload offsets 2 and 4. */
  lemma PmuEpochHalves(resp: seq<byte>)
    requires |Drop(resp, HeaderSize)| >= 6
    ensures var p := Drop(resp, HeaderSize);
            && PmuEpoch(resp) % 0x1_0000 == U16At(p, 2)
            && PmuEpoch(resp) / 0x1_0000 == U16At(p, 4)
  {
    var p := Drop(resp, HeaderSize);
    var b := ClockField(p);
    var lo, hi := p[2] as int + 256 * p[3] as int, p[4] as int + 256 * p[5] as int;
    assert b == [p[2], p[3], p[4], p[5]];
    assert LittleEndian(b[2..]) == hi by {
      assert b[2..][1..][1..] == [];
    }
    assert LittleEndian(b) == lo + 0x1_0000 * hi;
    assert U16At(p, 2) == lo && U16At(p, 4) == hi;
  }

  // ---------------------------------------------------------------------
  // The reading

  const PowerCode: byte := 0x44
  const AcVoltageCode: byte := 0x42
  const AcFrequencyCode: byte := 0x43
  const EnergyTodayCode: byte := 0x0D
  const ModeCode: byte := 0x4C
  const EnergyTotalLow: byte := 0x47
  const EnergyTotalHigh: byte := 0x48
  const HoursTotalLow: byte := 0x49
  const HoursTotalHigh: byte := 0x4A
  const ErrorFlagsLow: byte := 0x4D
  const ErrorFlagsHigh: byte := 0x4E
  const PvVoltageCodes: seq<byte> := [0x01, 0x02, 0x40]
  const PvCurrentCodes: seq<byte> := [0x41, 0x04, 0x05, 0x46]
  const PvCurrentLimit: int := 2000

  /** The PV current: a raw candidate in tenths of an ampere, or the
      fallback `round(power_w / pv_v, 3)` (its arguments are kept, the
      floating-point quotient is not computed), or unknown. */
  datatype PvCurrent =
    | PvCurrentUnknown
    | PvCurrentRaw(deciAmps: int)
    | PvCurrentFromPower(powerW: int, pvDeciVolts: int)

  /** One poll's reading. Field names carry the unit of the raw value:
      `DeciVolts` is tenths of a volt, `CentiHz` hundredths of a hertz and
      so on; `None` is an absent field, never a zero. */
  datatype Reading = Reading(
    inverterId: string,
    powerW: Option<int>,
    acDeciVolts: Option<int>,
    acCentiHz: Option<int>,
    energyTodayCentiKwh: Option<int>,
    energyTotalDeciKwh: Option<int>,
    hoursTotal: Option<int>,
    mode: Option<int>,
    pvDeciVolts: Option<int>,
    pvCurrent: PvCurrent,
    errorFlags: Option<int>,
    pmuEpoch: int,
    raw: map<byte, int>)

  /** `vals.get(code)`. */
  function Get(vals: map<byte, int>, code: byte): (r: Option<int>)
    ensures r.Some? <==> code in vals
    ensures r.Some? ==> r.value == vals[code]
  {
    if code in vals then Some(vals[code]) else None
  }

  /** A raw candidate is usable when it is neither 0 nor the 0xFFFF
      "not available" marker, and within the limit when there is one. */
  predicate Usable(raw: int, limit: Option<int>) {
    raw != 0 && raw != 0xFFFF && (limit.Some? ==> raw <= limit.value)
  }

  /** The index of the first candidate code present in `vals` whose value is
      usable. */
  function FirstUsable(vals: map<byte, int>, cands: seq<byte>, limit: Option<int>): (r: Option<nat>)
    ensures r.Some? ==> r.value < |cands| && cands[r.value] in vals && Usable(vals[cands[r.value]], limit)
    ensures r.Some? ==> forall j :: 0 <= j < r.value && cands[j] in vals ==> !Usable(vals[cands[j]], limit)
    ensures r.None? ==> forall j :: 0 <= j < |cands| && cands[j] in vals ==> !Usable(vals[cands[j]], limit)
    decreases |cands|
  {
    if cands == [] then None
    else if cands[0] in vals && Usable(vals[cands[0]], limit) then Some(0)
    else match FirstUsable(vals, cands[1..], limit)
      case None => None
      case Some(i) => Some(i + 1)
  }

  /** The value of the first usable candidate. */
  function Select(vals: map<byte, int>, cands: seq<byte>, limit: Option<int>): (r: Option<int>)
    ensures r.Some? <==> exists j :: 0 <= j < |cands| && cands[j] in vals && Usable(vals[cands[j]], limit)
    ensures r.Some? ==> Usable(r.value, limit)
    ensures r.Some? ==> && FirstUsable(vals, cands, limit).Some?
                        && r.value == vals[cands[FirstUsable(vals, cands, limit).value]]
  {
    match FirstUsable(vals, cands, limit)
    case None => None
    case Some(i) => Some(vals[cands[i]])
  }

  /** Two u16 halves as one value: `low + high * 65536`, absent unless both
      codes are present. */
  function Combine(vals: map<byte, int>, low: byte, high: byte): (r: Option<int>)
    ensures r.Some? <==> low in vals && high in vals
    ensures r.Some? && 0 <= vals[low] <= 0xFFFF && 0 <= vals[high] <= 0xFFFF ==>
              && 0 <= r.value < 0x1_0000_0000
              && r.value % 0x1_0000 == vals[low]
              && r.value / 0x1_0000 == vals[high]
  {
    if low in vals && high in vals then Some(vals[low] + vals[high] * 0x1_0000) else None
  }

  /** The PV current rule: the first usable candidate at most 2000, else
      the power-over-voltage fallback when a positive PV voltage and the
      power are both known. */
  function PvCurrentOf(vals: map<byte, int>, pvDeciVolts: Option<int>): (r: PvCurrent)
    ensures r.PvCurrentRaw? <==> Select(vals, PvCurrentCodes, Some(PvCurrentLimit)).Some?
    ensures r.PvCurrentRaw? ==> Usable(r.deciAmps, Some(PvCurrentLimit))
    ensures r.PvCurrentRaw? ==> Some(r.deciAmps) == Select(vals, PvCurrentCodes, Some(PvCurrentLimit))
    ensures r.PvCurrentFromPower? <==>
              && Select(vals, PvCurrentCodes, Some(PvCurrentLimit)).None?
              && pvDeciVolts.Some? && pvDeciVolts.value > 0
              && PowerCode in vals
    ensures r.PvCurrentFromPower? ==> r.powerW == vals[PowerCode] && Some(r.pvDeciVolts) == pvDeciVolts
  {
    match Select(vals, PvCurrentCodes, Some(PvCurrentLimit))
    case Some(a) => PvCurrentRaw(a)
    case None =>
      if pvDeciVolts.Some? && pvDeciVolts.value != 0 && PowerCode in vals && pvDeciVolts.value > 0
      then PvCurrentFromPower(vals[PowerCode], pvDeciVolts.value)
      else PvCurrentUnknown
  }

  /** The field rules of `connect_and_poll`, applied to a decoded table. */
  function BuildReading(id: string, vals: map<byte, int>, epoch: int): (r: Reading)
    ensures r.powerW == Get(vals, PowerCode) && r.mode == Get(vals, ModeCode)
    ensures r.acDeciVolts == Get(vals, AcVoltageCode)
    ensures r.acCentiHz == Get(vals, AcFrequencyCode)
    ensures r.energyTodayCentiKwh == Get(vals, EnergyTodayCode)
    ensures r.pvDeciVolts == Select(vals, PvVoltageCodes, None)
    ensures r.pvCurrent == PvCurrentOf(vals, r.pvDeciVolts)
    ensures r.energyTotalDeciKwh == Combine(vals, EnergyTotalLow, EnergyTotalHigh)
    ensures r.hoursTotal == Combine(vals, HoursTotalLow, HoursTotalHigh)
    ensures r.errorFlags == Combine(vals, ErrorFlagsLow, ErrorFlagsHigh)
    ensures r.inverterId == id && r.pmuEpoch == epoch && r.raw == vals
  {
    var pvV := Select(vals, PvVoltageCodes, None);
    Reading(
      inverterId := id,
      powerW := Get(vals, PowerCode),
      acDeciVolts := Get(vals, AcVoltageCode),
      acCentiHz := Get(vals, AcFrequencyCode),
      energyTodayCentiKwh := Get(vals, EnergyTodayCode),
      energyTotalDeciKwh := Combine(vals, EnergyTotalLow, EnergyTotalHigh),
      hoursTotal := Combine(vals, HoursTotalLow, HoursTotalHigh),
      mode := Get(vals, ModeCode),
      pvDeciVolts := pvV,
      pvCurrent := PvCurrentOf(vals, pvV),
      errorFlags := Combine(vals, ErrorFlagsLow, ErrorFlagsHigh),
      pmuEpoch := epoch,
      raw := vals)
  }

  /** The PV voltage is the first of 0x01, 0x02, 0x40 whose value is
      neither 0 nor 0xFFFF: a usable 0x01 wins outright, and 0x40 is used
      only when neither 0x01 nor 0x02 is usable. */
  lemma PvVoltagePriority(vals: map<byte, int>)
    ensures 0x01 in vals && Usable(vals[0x01], None) ==>
              Select(vals, PvVoltageCodes, None) == Some(vals[0x01])
    ensures (0x01 !in vals || !Usable(vals[0x01], None)) && 0x02 in vals && Usable(vals[0x02], None) ==>
              Select(vals, PvVoltageCodes, None) == Some(vals[0x02])
    ensures (0x01 !in vals || !Usable(vals[0x01], None)) && (0x02 !in vals || !Usable(vals[0x02], None)) ==>
              Select(vals, PvVoltageCodes, None) == (if 0x40 in vals && Usable(vals[0x40], None) then Some(vals[0x40]) else None)
  {
    var c := PvVoltageCodes;
    assert c[0] == 0x01 && c[1] == 0x02 && c[2] == 0x40;
    match FirstUsable(vals, c, None)
    case None =>
    case Some(i) =>
      assert i == 0 || i == 1 || i == 2;
  }

  /** The raw PV current is the first of 0x41, 0x04, 0x05, 0x46 whose
      value is neither 0 nor 0xFFFF and at most 2000: an earlier usable
      candidate always wins over a later one. */
  lemma PvCurrentPriority(vals: map<byte, int>)
    ensures 0x41 in vals && Usable(vals[0x41], Some(PvCurrentLimit)) ==>
              PvCurrentOf(vals, Select(vals, PvVoltageCodes, None)) == PvCurrentRaw(vals[0x41])
    ensures (0x41 !in vals || !Usable(vals[0x41], Some(PvCurrentLimit)))
            && 0x04 in vals && Usable(vals[0x04], Some(PvCurrentLimit)) ==>
              PvCurrentOf(vals, Select(vals, PvVoltageCodes, None)) == PvCurrentRaw(vals[0x04])
    ensures (0x41 !in vals || !Usable(vals[0x41], Some(PvCurrentLimit)))
            && (0x04 !in vals || !Usable(vals[0x04], Some(PvCurrentLimit)))
            && 0x05 in vals && Usable(vals[0x05], Some(PvCurrentLimit)) ==>
              PvCurrentOf(vals, Select(vals, PvVoltageCodes, None)) == PvCurrentRaw(vals[0x05])
    ensures (0x41 !in vals || !Usable(vals[0x41], Some(PvCurrentLimit)))
            && (0x04 !in vals || !Usable(vals[0x04], Some(PvCurrentLimit)))
            && (0x05 !in vals || !Usable(vals[0x05], Some(PvCurrentLimit)))
            && 0x46 in vals && Usable(vals[0x46], Some(PvCurrentLimit)) ==>
              PvCurrentOf(vals, Select(vals, PvVoltageCodes, None)) == PvCurrentRaw(vals[0x46])
  {
    var c := PvCurrentCodes;
    assert c[0] == 0x41 && c[1] == 0x04 && c[2] == 0x05 && c[3] == 0x46;
    match FirstUsable(vals, c, Some(PvCurrentLimit))
    case None =>
    case Some(i) =>
      assert i == 0 || i == 1 || i == 2 || i == 3;
  }
}
