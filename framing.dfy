/** Request frames (`build_req`) and frame reception (`recv_exact`,
    `recv_frame`). A frame on the wire is
    `AA 55 cmd 00 len payload crc_hi crc_lo`; reception reads the 5-byte
    header and exactly `len` payload bytes, and never reads or checks a
    trailing CRC. */
module Framing {
  import opened Bytes
  import opened Crc16
  import opened Transport

  const Sync: seq<byte> := [0xAA, 0x55]
  const MaxPayload: nat := 255

  /** The five header bytes of a request carrying `payload`. */
  function Header(cmd: byte, payload: seq<byte>): (h: seq<byte>)
    requires |payload| <= MaxPayload
    ensures FrameAt(h + payload) == Ok(h + payload)
  {
    var h := [0xAA, 0x55, cmd, 0x00, |payload| as byte];
    assert (h + payload)[..2] == Sync && (h + payload)[4] as int == |payload|;
    assert (h + payload)[..HeaderSize + |payload|] == h + payload;
    h
  }

  /** `build_req`: refuses payloads over 255 bytes; otherwise header,
      payload, and the CRC-16/XMODEM of both, most significant byte first. */
  function BuildRequest(cmd: byte, payload: seq<byte>): (r: Result<seq<byte>>)
    ensures r.Ok? <==> |payload| <= MaxPayload
    ensures r.Err? ==> r.error == PayloadTooLarge(|payload|)
    ensures r.Ok? ==> var n := |payload|;
              && |r.value| == 7 + n
              && r.value[..5] == [0xAA, 0x55, cmd, 0x00, n]
              && r.value[5..5 + n] == payload
              && r.value[5 + n..] == CrcBytes(Crc(r.value[..5 + n]))
  {
    if |payload| > MaxPayload then Err(PayloadTooLarge(|payload|))
    else
      var body := Header(cmd, payload) + payload;
      assert (body + CrcBytes(Crc(body)))[..5 + |payload|] == body;
      Ok(body + CrcBytes(Crc(body)))
  }

  /** `struct.pack(">H", c)`: the register's two bytes, high byte first. */
  function CrcBytes(c: nat): (r: seq<byte>)
    requires c < Modulus
    ensures |r| == 2 && r[0] as int * 256 + r[1] == c
  {
    [c / 256, c % 256]
  }

  /** What `recv_frame` yields from the byte stream `a`: the header and the
      declared number of payload bytes, or the error it raises. */
  function FrameAt(a: seq<byte>): (r: Result<seq<byte>>)
    ensures r.Ok? <==> |a| >= HeaderSize && a[..2] == Sync && |a| >= HeaderSize + a[4]
    ensures r.Ok? ==> |r.value| == HeaderSize + a[4] && r.value == a[..|r.value|]
    ensures |a| >= HeaderSize && a[..2] != Sync ==> r == Err(BadSync(a[..HeaderSize]))
  {
    if |a| < HeaderSize then Err(SocketClosed(HeaderSize, |a|))
    else if a[..2] != Sync then Err(BadSync(a[..HeaderSize]))
    else if |a| < HeaderSize + a[4] then Err(SocketClosed(a[4], |a| - HeaderSize))
    else Ok(a[..HeaderSize + a[4]])
  }

  /** `recv_exact`: keeps asking for the missing bytes until it has `n`,
      and fails as soon as a read returns nothing. */
  method RecvExact(ch: Channel, n: nat) returns (r: Result<seq<byte>>)
    modifies ch`inbox
    ensures var a := Available(old(ch.inbox));
            && (r.Ok? <==> n <= |a|)
            && (r.Ok? ==> r.value == a[..n] && Available(ch.inbox) == a[n..])
            && (r.Err? ==> r.error == SocketClosed(n, |a|) && Available(ch.inbox) == [])
  {
    ghost var a := Available(ch.inbox);
    var out: seq<byte> := [];
    while |out| < n
      invariant |out| <= n
      invariant out + Available(ch.inbox) == a
      decreases n - |out|
    {
      var chunk := ch.Recv(n - |out|);
      if chunk == [] {
        assert Available(ch.inbox) == [];
        assert out == a;
        return Err(SocketClosed(n, |out|));
      }
      out := out + chunk;
    }
    assert a[..n] == out && a[n..] == Available(ch.inbox);
    return Ok(out);
  }

  /** `recv_frame`: an exact 5-byte header, the sync check, then exactly
      `hdr[4]` payload bytes (no read at all when that is 0). */
  method RecvFrame(ch: Channel) returns (r: Result<seq<byte>>)
    modifies ch`inbox
    ensures r == FrameAt(Available(old(ch.inbox)))
    ensures r.Ok? ==> Available(ch.inbox) == Available(old(ch.inbox))[|r.value|..]
  {
    ghost var a := Available(ch.inbox);
    var hdr :- RecvExact(ch, HeaderSize);
    if hdr[..2] != Sync {
      return Err(BadSync(hdr));
    }
    var payloadLen := hdr[4];
    var payload: seq<byte> := [];
    if payloadLen > 0 {
      var got := RecvExact(ch, payloadLen);
      if got.Err? {
        return Err(got.error);
      }
      payload := got.value;
    }
    assert a[..HeaderSize + payloadLen] == hdr + payload;
    assert a[HeaderSize + payloadLen..] == a[HeaderSize..][payloadLen..];
    return Ok(hdr + payload);
  }

  /** Every request frame carries its own CRC: the CRC of the whole frame,
      trailer included, is zero. */
  lemma {:induction false} RequestCrcResidue(cmd: byte, payload: seq<byte>)
    requires |payload| <= MaxPayload
    ensures Crc(BuildRequest(cmd, payload).value) == 0
  {
    var f := BuildRequest(cmd, payload).value;
    var body := f[..5 + |payload|];
    var c := Crc(body);
    assert f == (body + [c / 256]) + [c % 256];
    CrcSnoc(body, c / 256);
    CrcSnoc(body + [c / 256], c % 256);
    FeedOwnValueClears(c);
  }

  /** Reading a request frame back with `recv_frame` recovers its command
      and payload, and leaves exactly its two CRC bytes in the stream. */
  lemma RequestRoundTrip(cmd: byte, payload: seq<byte>, rest: seq<byte>)
    requires |payload| <= MaxPayload
    ensures var f := BuildRequest(cmd, payload).value;
            var r := FrameAt(f + rest);
            && r.Ok?
            && r.value[2] == cmd
            && r.value[HeaderSize..] == payload
            && (f + rest)[|r.value|..] == f[HeaderSize + |payload|..] + rest
  {
    var f := BuildRequest(cmd, payload).value;
    var n := |payload|;
    var s := f + rest;
    assert f[..5] == [0xAA, 0x55, cmd, 0x00, n];
    assert s[..5] == f[..5];
    assert s[..2] == Sync && s[4] == n;
    assert s[..5 + n] == f[..5] + f[5..5 + n];
    assert s[..5 + n][HeaderSize..] == payload;
    assert s[5 + n..] == f[5 + n..] + rest;
  }
}
