/** Shared vocabulary of the protocol model: bytes, optional values, the
    errors the client raises, and little-endian 16-bit fields. */
module Bytes {

  /** One octet on the wire. */
  type byte = x: int | 0 <= x < 256

  /** Every frame starts with a five-byte header: the sync bytes `AA 55`,
      the command, a zero byte and the payload length. */
  const HeaderSize: nat := 5

  datatype Option<+T> = None | Some(value: T)

  /** The distinct failures the client raises (all of them RuntimeError or
      ValueError in the original; the message is what tells them apart). */
  datatype Error =
    | PayloadTooLarge(size: nat)
    | SocketClosed(wanted: nat, got: nat)
    | BadSync(header: seq<byte>)
    | InverterIdNotFound
    | NoCodes
    | PayloadTooShort(size: nat, need: nat)
    | ConnectFailed

  datatype Result<+T> = Ok(value: T) | Err(error: Error) {
    predicate IsFailure() {
      Err?
    }

    function PropagateFailure<U>(): Result<U>
      requires Err?
    {
      Err(error)
    }

    function Extract(): T
      requires Ok?
    {
      value
    }
  }

  /** Python's `b[k:]`: never fails, yields the empty sequence past the end. */
  function Drop(b: seq<byte>, k: nat): (r: seq<byte>)
    ensures |b| <= k ==> r == []
    ensures k < |b| ==> |r| == |b| - k && forall i :: 0 <= i < |r| ==> r[i] == b[k + i]
  {
    if k <= |b| then b[k..] else []
  }

  /** The unsigned 16-bit little-endian value stored at `b[off..off + 2]`. */
  function U16At(b: seq<byte>, off: nat): (v: int)
    requires off + 2 <= |b|
    ensures 0 <= v <= 0xFFFF
    ensures v % 256 == b[off] && v / 256 == b[off + 1]
  {
    b[off] as int + 256 * (b[off + 1] as int)
  }

  /** `struct.pack("<H", v)`: two bytes, low byte first. */
  function PackU16(v: int): (r: seq<byte>)
    requires 0 <= v <= 0xFFFF
    ensures |r| == 2 && U16At(r, 0) == v
  {
    [v % 256, v / 256]
  }

  /** Concatenation of `struct.pack("<H", …)` over a list of values. */
  function PackU16s(vs: seq<int>): (r: seq<byte>)
    requires forall i :: 0 <= i < |vs| ==> 0 <= vs[i] <= 0xFFFF
    ensures |r| == 2 * |vs|
    ensures forall i :: 0 <= i < |vs| ==> U16At(r, 2 * i) == vs[i]
  {
    if vs == [] then [] else PackU16(vs[0]) + PackU16s(vs[1..])
  }
}
