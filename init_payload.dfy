/** The 188-byte payload of the INIT (0x01) request: `tz_field_84` and
    `build_init_payload`. Layout: the prefix A8 FD FF FF, two 84-byte
    UTF-16LE time-zone name fields (standard, then daylight), then eight
    little-endian u16 values: year, month, weekday (Sunday = 0), day, hour,
    minute, second and the constant 0x0346. */
module InitPayload {
  import opened Bytes

  /** The fields of the local `datetime` the payload is built from;
      `weekday` is Python's `weekday()`, Monday = 0 … Sunday = 6. */
  datatype LocalTime = LocalTime(year: int, month: int, day: int,
                                 hour: int, minute: int, second: int,
                                 weekday: int)

  /** The ranges a Python `datetime` guarantees for these fields. */
  predicate ValidTime(t: LocalTime) {
    && 1 <= t.year <= 9999 && 1 <= t.month <= 12 && 1 <= t.day <= 31
    && 0 <= t.hour < 24 && 0 <= t.minute < 60 && 0 <= t.second < 60
    && 0 <= t.weekday < 7
  }

  const Prefix: seq<byte> := [0xA8, 0xFD, 0xFF, 0xFF]
  const FieldSize: nat := 84
  const PayloadSize: nat := 188
  const TimeOffset: nat := 172
  const TrailingConstant: int := 0x0346
  const StandardZone: string := "E. Australia Standard Time"
  const DaylightZone: string := "E. Australia Daylight Time"

  predicate IsAscii(s: string) {
    forall i :: 0 <= i < |s| ==> s[i] as int < 128
  }

  /** `str.encode("utf-16-le")` of an ASCII string: each character becomes
      its code followed by a zero byte. */
  function Utf16Le(s: string): (r: seq<byte>)
    requires IsAscii(s)
    ensures |r| == 2 * |s|
    ensures forall i :: 0 <= i < |s| ==> r[2 * i] == s[i] as int && r[2 * i + 1] == 0
  {
    seq(2 * |s|, i requires 0 <= i < 2 * |s| => if i % 2 == 0 then s[i / 2] as int else 0)
  }

  /** `tz_field_84`: the encoding cut to 84 bytes, or zero-padded up to 84. */
  function TzField(encoded: seq<byte>): (r: seq<byte>)
    ensures |r| == FieldSize
    ensures |encoded| >= FieldSize ==> r == encoded[..FieldSize]
    ensures |encoded| < FieldSize ==> r[..|encoded|] == encoded
    ensures forall i :: |encoded| <= i < FieldSize ==> r[i] == 0
  {
    var b := if |encoded| > FieldSize then encoded[..FieldSize] else encoded;
    b + seq(FieldSize - |b|, _ => 0)
  }

  /** The weekday as the device wants it, from Python's Monday-based one:
      `(weekday() + 1) % 7`. */
  function WireWeekday(weekday: int): (w: int)
    requires 0 <= weekday < 7
    ensures 0 <= w < 7
    ensures w == 0 <==> weekday == 6
    ensures weekday < 6 ==> w == weekday + 1
  {
    (weekday + 1) % 7
  }

  /** The eight u16 values of the time block, in wire order. */
  function TimeValues(t: LocalTime): (vs: seq<int>)
    requires ValidTime(t)
    ensures |vs| == 8 && forall i :: 0 <= i < 8 ==> 0 <= vs[i] <= 0xFFFF
  {
    [t.year, t.month, WireWeekday(t.weekday), t.day, t.hour, t.minute, t.second, TrailingConstant]
  }

  /** The payload for the zone names `std` and `dst`: the prefix, their
      two fields, then the time block. */
  function InitPayloadFor(t: LocalTime, std: string, dst: string): (p: seq<byte>)
    requires ValidTime(t) && IsAscii(std) && IsAscii(dst)
    ensures |p| == PayloadSize
    ensures p[..4] == Prefix
    ensures p[4..4 + FieldSize] == TzField(Utf16Le(std))
    ensures p[4 + FieldSize..TimeOffset] == TzField(Utf16Le(dst))
    ensures p[TimeOffset..] == PackU16s(TimeValues(t))
  {
    var stdField, dstField := TzField(Utf16Le(std)), TzField(Utf16Le(dst));
    var time := PackU16s(TimeValues(t));
    var p := Prefix + stdField + dstField + time;
    assert p[..4] == Prefix && p[4..4 + FieldSize] == stdField && p[4 + FieldSize..TimeOffset] == dstField;
    assert p[TimeOffset..] == time;
    p
  }

  /** `build_init_payload`, with the two Brisbane zone names; its length
      self-check (which raises unless the payload has 188 bytes) can never
      fire. */
  function BuildInitPayload(t: LocalTime): (p: seq<byte>)
    requires ValidTime(t)
    ensures |p| == PayloadSize
    ensures p[..4] == Prefix
    ensures p[4..4 + FieldSize] == TzField(Utf16Le(StandardZone))
    ensures p[4 + FieldSize..TimeOffset] == TzField(Utf16Le(DaylightZone))
    ensures p[TimeOffset..] == PackU16s(TimeValues(t))
  {
    ZoneNamesAscii();
    InitPayloadFor(t, StandardZone, DaylightZone)
  }

  /** Both zone names are NUL-free ASCII text. */
  lemma ZoneNamesAscii()
    ensures IsAscii(StandardZone) && IsAscii(DaylightZone)
    ensures forall i :: 0 <= i < |StandardZone| ==> StandardZone[i] != '\0'
    ensures forall i :: 0 <= i < |DaylightZone| ==> DaylightZone[i] != '\0'
  {
  }

  /** Names that fit their fields are read back in full from the payload. */
  lemma InitPayloadZones(t: LocalTime, std: string, dst: string)
    requires ValidTime(t) && IsAscii(std) && IsAscii(dst)
    requires forall i :: 0 <= i < |std| ==> std[i] != '\0'
    requires forall i :: 0 <= i < |dst| ==> dst[i] != '\0'
    requires 2 * |std| <= FieldSize && 2 * |dst| <= FieldSize
    ensures ReadZoneName(InitPayloadFor(t, std, dst)[4..4 + FieldSize]) == CodeUnits(std)
    ensures ReadZoneName(InitPayloadFor(t, std, dst)[4 + FieldSize..TimeOffset]) == CodeUnits(dst)
  {
    ZoneNameRoundTrip(std);
    ZoneNameRoundTrip(dst);
    assert std[..FittingChars(std)] == std;
    assert dst[..FittingChars(dst)] == dst;
  }

  /** A reader of the INIT payload recovers both zone names in full from
      their fields. */
  lemma InitZoneNames(t: LocalTime)
    requires ValidTime(t)
    ensures ReadZoneName(BuildInitPayload(t)[4..4 + FieldSize]) == CodeUnits(StandardZone)
    ensures ReadZoneName(BuildInitPayload(t)[4 + FieldSize..TimeOffset]) == CodeUnits(DaylightZone)
  {
    ZoneNamesAscii();
    InitPayloadZones(t, StandardZone, DaylightZone);
  }

  /** The `k`-th u16 of the time block, little-endian. */
  lemma InitTimeValue(t: LocalTime, k: nat)
    requires ValidTime(t) && k < 8
    ensures U16At(BuildInitPayload(t), TimeOffset + 2 * k) == TimeValues(t)[k]
  {
    var p, time := BuildInitPayload(t), PackU16s(TimeValues(t));
    assert p[TimeOffset + 2 * k] == time[2 * k];
    assert p[TimeOffset + 2 * k + 1] == time[2 * k + 1];
  }

  /** The UTF-16 code units of a field up to its first NUL unit: how the
      device reads a name back. */
  function ReadZoneName(b: seq<byte>): (units: seq<int>)
    decreases |b|
  {
    if |b| < 2 || (b[0] == 0 && b[1] == 0) then [] else [U16At(b, 0)] + ReadZoneName(b[2..])
  }

  /** The character codes of a string. */
  function CodeUnits(s: string): (units: seq<int>)
    ensures |units| == |s|
  {
    if s == [] then [] else [s[0] as int] + CodeUnits(s[1..])
  }

  /** A NUL-free ASCII name survives the 84-byte field, cut to the 42
      characters that fit. */
  lemma ZoneNameRoundTrip(s: string)
    requires IsAscii(s)
    requires forall i :: 0 <= i < |s| ==> s[i] != '\0'
    ensures ReadZoneName(TzField(Utf16Le(s))) == CodeUnits(s[..FittingChars(s)])
  {
    var f := TzField(Utf16Le(s));
    FieldHoldsName(s);
    FieldReadsBack(f, s, FittingChars(s), 0);
    assert f[2 * 0..] == f;
    assert s[0..FittingChars(s)] == s[..FittingChars(s)];
  }

  /** How many characters of `s` fit in a field. */
  function FittingChars(s: string): (n: nat)
    ensures 2 * |s| <= FieldSize ==> n == |s|
    ensures 2 * |s| > FieldSize ==> n == FieldSize / 2
  {
    if 2 * |s| <= FieldSize then |s| else FieldSize / 2
  }

  /** `f` holds the first `n` characters of `s` as code units, then a NUL
      unit unless the field is full. */
  predicate HoldsName(f: seq<byte>, s: string, n: nat) {
    && n <= |s| && 2 * n <= |f|
    && (forall i :: 0 <= i < n ==> f[2 * i] == s[i] as int && f[2 * i + 1] == 0)
    && (2 * n == |f| || (2 * n + 2 <= |f| && f[2 * n] == 0 && f[2 * n + 1] == 0))
  }

  /** The field built from an ASCII name holds as much of it as fits. */
  lemma FieldHoldsName(s: string)
    requires IsAscii(s)
    ensures HoldsName(TzField(Utf16Le(s)), s, FittingChars(s))
  {
    var e := Utf16Le(s);
    var f := TzField(e);
    var n := FittingChars(s);
    forall i | 0 <= i < n
      ensures f[2 * i] == s[i] as int && f[2 * i + 1] == 0
    {
      if |e| >= FieldSize {
        assert f == e[..FieldSize];
      } else {
        assert f[..|e|] == e;
        assert f[2 * i] == f[..|e|][2 * i] && f[2 * i + 1] == f[..|e|][2 * i + 1];
      }
    }
  }

  /** Reading a field that holds the first `n` characters of a NUL-free
      `s`, from character `k` onward, gives the characters from `k` up
      to `n`. */
  lemma {:induction false} FieldReadsBack(f: seq<byte>, s: string, n: nat, k: nat)
    requires HoldsName(f, s, n) && k <= n
    requires forall i :: 0 <= i < n ==> s[i] != '\0'
    ensures ReadZoneName(f[2 * k..]) == CodeUnits(s[k..n])
    decreases n - k
  {
    var rest := f[2 * k..];
    if k < n {
      assert rest[0] == s[k] as int != 0 && rest[1] == 0;
      assert rest[2..] == f[2 * (k + 1)..];
      FieldReadsBack(f, s, n, k + 1);
      assert s[k..n][1..] == s[k + 1..n];
    } else if 2 * n < |f| {
      assert rest[0] == 0 && rest[1] == 0;
    } else {
      assert rest == [];
    }
  }

  /** What a reader of the time block recovers: the fields, with the
      weekday mapped back to Monday = 0. */
  function ReadLocalTime(p: seq<byte>): LocalTime
    requires |p| == PayloadSize
  {
    LocalTime(U16At(p, TimeOffset + 2 * 0), U16At(p, TimeOffset + 2 * 1), U16At(p, TimeOffset + 2 * 3),
              U16At(p, TimeOffset + 2 * 4), U16At(p, TimeOffset + 2 * 5), U16At(p, TimeOffset + 2 * 6),
              (U16At(p, TimeOffset + 2 * 2) + 6) % 7)
  }

  /** The time block round-trips: the payload determines the local time it
      was built from, and ends with the constant 0x0346. */
  lemma InitTimeRoundTrip(t: LocalTime)
    requires ValidTime(t)
    ensures ReadLocalTime(BuildInitPayload(t)) == t
    ensures U16At(BuildInitPayload(t), TimeOffset + 14) == TrailingConstant
  {
    var p := BuildInitPayload(t);
    var vs := TimeValues(t);
    InitTimeValue(t, 0);
    InitTimeValue(t, 1);
    InitTimeValue(t, 2);
    InitTimeValue(t, 3);
    InitTimeValue(t, 4);
    InitTimeValue(t, 5);
    InitTimeValue(t, 6);
    InitTimeValue(t, 7);
  }
}
