/** Decoding the identity (0x12) response: `parse_inverter_id` and
    `parse_code_list_from_resp12`. Both skip the 5-byte header, look for
    the first 16-byte run of `[A-Z0-9]`, and fail when there is none; the
    telemetry codes are the bytes after that run, up to trailing zero
    padding. */
module Identity {
  import opened Bytes

  const IdLength: nat := 16

  /** A byte of the class `[A-Z0-9]`. */
  predicate IsIdByte(b: byte) {
    0x41 <= b <= 0x5A || 0x30 <= b <= 0x39
  }

  /** `p[i..i + 16]` consists of id bytes only. */
  predicate IdWindowAt(p: seq<byte>, i: nat) {
    i + IdLength <= |p| && forall k :: i <= k < i + IdLength ==> IsIdByte(p[k])
  }

  /** `re.search(rb"[A-Z0-9]{16}", p[from:])`: the leftmost window start at
      or after `from`. */
  function FindId(p: seq<byte>, from: nat): (r: Option<nat>)
    ensures r.Some? ==> from <= r.value && IdWindowAt(p, r.value)
    ensures r.Some? ==> forall i :: from <= i < r.value ==> !IdWindowAt(p, i)
    ensures r.None? ==> forall i :: from <= i ==> !IdWindowAt(p, i)
    decreases |p| - from
  {
    if from + IdLength > |p| then None
    else if IdWindowAt(p, from) then Some(from)
    else FindId(p, from + 1)
  }

  /** `bytes.decode("ascii")` of ASCII bytes. */
  function AsciiString(b: seq<byte>): (s: string)
    requires forall i :: 0 <= i < |b| ==> b[i] < 128
    ensures |s| == |b| && forall i :: 0 <= i < |b| ==> s[i] as int == b[i]
  {
    seq(|b|, i requires 0 <= i < |b| => b[i] as char)
  }

  /** `str.encode("ascii")` of a string whose characters fit in a byte. */
  function AsciiBytes(s: string): (b: seq<byte>)
    requires forall i :: 0 <= i < |s| ==> s[i] as int < 128
    ensures |b| == |s| && forall i :: 0 <= i < |s| ==> b[i] == s[i] as int
  {
    seq(|s|, i requires 0 <= i < |s| => s[i] as int)
  }

  /** `parse_inverter_id`: the first 16-character `[A-Z0-9]` run of the
      payload, as text. */
  function ParseInverterId(resp: seq<byte>): (r: Result<string>)
    ensures r.Err? <==> FindId(Drop(resp, HeaderSize), 0).None?
    ensures r.Err? ==> r.error == InverterIdNotFound
    ensures r.Ok? ==> var i := FindId(Drop(resp, HeaderSize), 0).value;
              && |r.value| == IdLength
              && (forall k :: 0 <= k < IdLength ==> r.value[k] as int < 128)
              && AsciiBytes(r.value) == Drop(resp, HeaderSize)[i..i + IdLength]
  {
    var p := Drop(resp, HeaderSize);
    match FindId(p, 0)
    case None => Err(InverterIdNotFound)
    case Some(i) =>
      var window := p[i..i + IdLength];
      assert forall k :: 0 <= k < IdLength ==> window[k] == p[i + k] && IsIdByte(p[i + k]);
      var id := AsciiString(window);
      assert AsciiBytes(id) == window;
      Ok(id)
  }

  /** The 16 bytes the id was read from, encoded back, are an id window;
      so the value request carries exactly those bytes. */
  lemma InverterIdIsWindow(resp: seq<byte>)
    requires ParseInverterId(resp).Ok?
    ensures var id := ParseInverterId(resp).value;
            && (forall k :: 0 <= k < |id| ==> id[k] as int < 128)
            && IdWindowAt(AsciiBytes(id), 0)
  {
    var p := Drop(resp, HeaderSize);
    var i := FindId(p, 0).value;
    var id := ParseInverterId(resp).value;
    assert forall k :: 0 <= k < IdLength ==> AsciiBytes(id)[k] == p[i + k];
  }

  /** Four zero bytes start at `pos`: the zero run the decoder counts there
      is at least 4 long. */
  predicate ZeroRunAt(tail: seq<byte>, pos: nat) {
    pos + 4 <= |tail| && forall k :: pos <= k < pos + 4 ==> tail[k] == 0
  }

  /** Decoding stops at `pos`: a run of at least four zeros begins there and
      at least two codes (zero or not) have been collected. */
  predicate StopsAt(tail: seq<byte>, pos: nat) {
    pos >= 2 && ZeroRunAt(tail, pos)
  }

  /** The first position from `from` on where decoding stops, or the end. */
  function CodeListEnd(tail: seq<byte>, from: nat): (e: nat)
    requires from <= |tail|
    ensures from <= e <= |tail|
    ensures e < |tail| ==> StopsAt(tail, e)
    ensures forall p :: from <= p < e ==> !StopsAt(tail, p)
    decreases |tail| - from
  {
    if from == |tail| || StopsAt(tail, from) then from else CodeListEnd(tail, from + 1)
  }

  /** The codes decoded from the bytes after the id: every byte up to the
      stopping point, zero bytes included. */
  function CodeList(tail: seq<byte>): (codes: seq<byte>)
    ensures codes <= tail
    ensures codes == [] <==> tail == []
    ensures |codes| < |tail| ==> StopsAt(tail, |codes|)
    ensures forall p :: 0 <= p < |codes| ==> !StopsAt(tail, p)
  {
    tail[..CodeListEnd(tail, 0)]
  }

  /** What `parse_code_list_from_resp12` returns or raises. */
  function ParseCodes(resp: seq<byte>): (r: Result<seq<byte>>)
    ensures FindId(Drop(resp, HeaderSize), 0).None? ==> r == Err(InverterIdNotFound)
    ensures FindId(Drop(resp, HeaderSize), 0).Some? ==>
              var tail := Drop(resp, HeaderSize)[FindId(Drop(resp, HeaderSize), 0).value + IdLength..];
              && (r.Ok? <==> tail != [])
              && (r.Ok? ==> r.value == CodeList(tail))
              && (r.Err? ==> r.error == NoCodes)
  {
    var p := Drop(resp, HeaderSize);
    match FindId(p, 0)
    case None => Err(InverterIdNotFound)
    case Some(i) =>
      var codes := CodeList(p[i + IdLength..]);
      if codes == [] then Err(NoCodes) else Ok(codes)
  }

  /** The stopping point is determined by the two conditions it meets. */
  lemma {:induction false} CodeListEndUnique(tail: seq<byte>, from: nat, e: nat)
    requires from <= e <= |tail|
    requires e == |tail| || StopsAt(tail, e)
    requires forall p :: from <= p < e ==> !StopsAt(tail, p)
    ensures CodeListEnd(tail, from) == e
    decreases e - from
  {
    if from < e {
      CodeListEndUnique(tail, from + 1, e);
    }
  }

  /** `parse_code_list_from_resp12`: walks the tail one byte at a time,
      counting the zero run at each zero byte. */
  method ParseCodeListFromResp12(resp: seq<byte>) returns (r: Result<seq<byte>>)
    ensures r == ParseCodes(resp)
  {
    var payload := Drop(resp, HeaderSize);
    var m := FindId(payload, 0);
    if m.None? {
      return Err(InverterIdNotFound);
    }
    var tail := payload[m.value + IdLength..];
    var codes: seq<byte> := [];
    var pos := 0;
    while pos < |tail|
      invariant pos <= |tail|
      invariant codes == tail[..pos]
      invariant forall p :: 0 <= p < pos ==> !StopsAt(tail, p)
    {
      var b := tail[pos];
      if b == 0 {
        var zr := 1;
        while pos + zr < |tail| && tail[pos + zr] == 0
          invariant 1 <= zr && pos + zr <= |tail|
          invariant forall k :: pos <= k < pos + zr ==> tail[k] == 0
        {
          zr := zr + 1;
        }
        if zr >= 4 && |codes| >= 2 {
          break;
        }
        assert !ZeroRunAt(tail, pos) || pos < 2 by {
          if zr < 4 && pos + 4 <= |tail| {
            assert tail[pos + zr] != 0;
          }
        }
        codes := codes + [0];
        pos := pos + 1;
        continue;
      }
      codes := codes + [b];
      pos := pos + 1;
    }
    CodeListEndUnique(tail, 0, pos);
    if codes == [] {
      return Err(NoCodes);
    }
    return Ok(codes);
  }

  /** A lone zero between codes is a code, not padding. */
  lemma SingleZeroIsCode()
    ensures CodeList([0x01, 0x00, 0x02]) == [0x01, 0x00, 0x02]
  {
    CodeListEndUnique([0x01, 0x00, 0x02], 0, 3);
  }

  /** Codes followed by five zero bytes stop before the zeros. */
  lemma PaddingIsDropped()
    ensures CodeList([0x01, 0x02, 0x03, 0x00, 0x00, 0x00, 0x00, 0x00]) == [0x01, 0x02, 0x03]
  {
    var t: seq<byte> := [0x01, 0x02, 0x03, 0x00, 0x00, 0x00, 0x00, 0x00];
    assert StopsAt(t, 3);
    assert !ZeroRunAt(t, 2) by { assert t[2] != 0; }
    CodeListEndUnique(t, 0, 3);
  }

  /** Zero codes count towards the two collected codes: a tail of six zero
      bytes decodes to two zero codes. */
  lemma ZeroCodesCountTowardsTwo()
    ensures CodeList([0x00, 0x00, 0x00, 0x00, 0x00, 0x00]) == [0x00, 0x00]
  {
    var t: seq<byte> := [0x00, 0x00, 0x00, 0x00, 0x00, 0x00];
    assert StopsAt(t, 2);
    CodeListEndUnique(t, 0, 2);
  }
}
