/** The poll session, `EversolarPMU.connect_and_poll`: over one connection
    it sends six requests in a fixed order, reads one frame after each,
    decodes the identity and value responses, and closes the connection on
    every way out. */
module Session {
  import opened Bytes
  import opened Transport
  import opened Crc16
  import opened Framing
  import opened InitPayload
  import opened Identity
  import opened Telemetry

  const CmdInit: byte := 0x01
  const CmdIdentity: byte := 0x11
  const CmdValues: byte := 0x13
  const CmdKeepAlive: byte := 0x73
  /** The payloads of the fixed requests: the keep-alive carries none, the
      two identity queries one selector byte each. */
  const EmptyPayload: seq<byte> := []
  const FirstQuery: seq<byte> := [0x00]
  const SecondQuery: seq<byte> := [0x01]

  /** A request whose payload is known to fit. */
  function Request(cmd: byte, payload: seq<byte>): (f: seq<byte>)
    requires |payload| <= MaxPayload
    ensures |f| == 7 + |payload|
  {
    BuildRequest(cmd, payload).value
  }

  /** The frames a poll sends: four fixed ones, and the value query for
      whichever inverter id the identity response names. */
  datatype Plan = Plan(init: seq<byte>, firstQuery: seq<byte>, keepAlive: seq<byte>,
                       secondQuery: seq<byte>, valueQuery: string -> seq<byte>)

  /** What `parse_inverter_id` can yield: 16 ASCII characters. */
  predicate IsInverterId(id: string) {
    |id| == IdLength && forall i :: 0 <= i < |id| ==> id[i] as int < 128
  }

  /** The value query, which carries the inverter id in ASCII. */
  function ValueQuery(id: string): (f: seq<byte>)
    requires IsInverterId(id)
    ensures |f| == 7 + IdLength
  {
    Request(CmdValues, AsciiBytes(id))
  }

  /** The plan of a poll at local time `now`: INIT with the time and zone,
      the identity query `0x11 [00]`, the keep-alive `0x73`, the identity
      query `0x11 [01]`, and `0x13` with the id (a string that no id
      response can yield gets no frame). */
  function PollPlan(now: LocalTime): (p: Plan)
    requires ValidTime(now)
    ensures |p.init| == 7 + PayloadSize && |p.keepAlive| == 7
    ensures |p.firstQuery| == 8 && |p.secondQuery| == 8
    ensures forall id :: IsInverterId(id) ==> |p.valueQuery(id)| == 7 + IdLength
  {
    Plan(Request(CmdInit, BuildInitPayload(now)), Request(CmdIdentity, FirstQuery),
         Request(CmdKeepAlive, EmptyPayload), Request(CmdIdentity, SecondQuery),
         id => if IsInverterId(id) then ValueQuery(id) else [])
  }

  /** The six frames of a complete poll for the inverter `id`, in the
      order they are sent. */
  function Schedule(p: Plan, id: string): (rs: seq<seq<byte>>)
    ensures |rs| == 6
  {
    [p.init, p.firstQuery, p.keepAlive, p.secondQuery, p.keepAlive, p.valueQuery(id)]
  }

  /** `f` is a request frame with command `cmd` and payload `payload`,
      ending in the CRC that makes the CRC of the whole frame zero. */
  predicate Carries(f: seq<byte>, cmd: byte, payload: seq<byte>) {
    && |payload| <= MaxPayload
    && |f| == 7 + |payload|
    && f[..5] == [0xAA, 0x55, cmd, 0x00, |payload|]
    && f[5..5 + |payload|] == payload
    && Crc(f) == 0
  }

  lemma RequestCarries(cmd: byte, payload: seq<byte>)
    requires |payload| <= MaxPayload
    ensures Carries(Request(cmd, payload), cmd, payload)
  {
    RequestCrcResidue(cmd, payload);
  }

  /** The plan's frames: INIT with the time payload, the identity queries
      `0x11 [00]` and `0x11 [01]`, the keep-alive `0x73 []`, and for each
      possible inverter id `0x13` with the id in ASCII, each ending in its
      CRC. */
  lemma PollPlanFrames(now: LocalTime)
    requires ValidTime(now)
    ensures var p := PollPlan(now);
            && Carries(p.init, CmdInit, BuildInitPayload(now))
            && Carries(p.firstQuery, CmdIdentity, [0x00])
            && Carries(p.keepAlive, CmdKeepAlive, [])
            && Carries(p.secondQuery, CmdIdentity, [0x01])
    ensures forall id :: IsInverterId(id) ==> Carries(PollPlan(now).valueQuery(id), CmdValues, AsciiBytes(id))
  {
    RequestCarries(CmdInit, BuildInitPayload(now));
    RequestCarries(CmdIdentity, FirstQuery);
    RequestCarries(CmdKeepAlive, EmptyPayload);
    RequestCarries(CmdIdentity, SecondQuery);
    forall id | IsInverterId(id)
      ensures Carries(PollPlan(now).valueQuery(id), CmdValues, AsciiBytes(id))
    {
      RequestCarries(CmdValues, AsciiBytes(id));
    }
  }

  /** What the value response yields: the inverter id, the value table
      and the device clock, from which the reading is built. */
  datatype Decoded = Decoded(inverterId: string, vals: map<byte, int>, epoch: nat)

  /** What one poll did: the frames sent and received, and its outcome. */
  datatype Trace = Trace(sent: seq<seq<byte>>, received: seq<seq<byte>>, result: Result<Decoded>)

  /** The reading a poll returns, by the field rules of `BuildReading`. */
  function ReadingOf(d: Result<Decoded>): (r: Result<Reading>)
    ensures r.Ok? <==> d.Ok?
    ensures d.Err? ==> r.error == d.error
    ensures d.Ok? ==> && r.value.inverterId == d.value.inverterId
                      && r.value.raw == d.value.vals
                      && r.value.pmuEpoch == d.value.epoch
  {
    match d
    case Err(e) => Err(e)
    case Ok(x) => Ok(BuildReading(x.inverterId, x.vals, x.epoch))
  }

  /** Frames back to back. */
  function Concat(fs: seq<seq<byte>>): seq<byte> {
    if fs == [] then [] else fs[0] + Concat(fs[1..])
  }

  /** What is left of the byte stream `a` after `recv_frame` has yielded
      the frames `fs` one after the other, or `None` when it would not
      yield them. */
  function After(fs: seq<seq<byte>>, a: seq<byte>): Option<seq<byte>>
    decreases |fs|
  {
    if fs == [] then Some(a) else
    match FrameAt(a)
    case Err(_) => None
    case Ok(f) => if f == fs[0] then After(fs[1..], a[|f|..]) else None
  }

  /** The frames read are consecutive segments at the front of the stream,
      and what is left follows them. */
  lemma {:induction false} AfterIsSuffix(fs: seq<seq<byte>>, a: seq<byte>)
    requires After(fs, a).Some?
    ensures Concat(fs) + After(fs, a).value == a
    decreases |fs|
  {
    if fs != [] {
      var f := FrameAt(a).value;
      AfterIsSuffix(fs[1..], a[|f|..]);
      assert a == f + a[|f|..];
    }
  }

  /** Reading `xs` and then `ys` is reading `xs + ys`. */
  lemma {:induction false} AfterAppend(xs: seq<seq<byte>>, ys: seq<seq<byte>>, a: seq<byte>)
    requires After(xs, a).Some?
    ensures After(xs + ys, a) == After(ys, After(xs, a).value)
    decreases |xs|
  {
    if xs == [] {
      assert xs + ys == ys;
    } else {
      var f := FrameAt(a).value;
      AfterAppend(xs[1..], ys, a[|f|..]);
      assert (xs + ys)[0] == xs[0] && (xs + ys)[1..] == xs[1..] + ys;
    }
  }

  /** The outcome of up to `n` exchanges' reads: the frames read, the
      error of the first read that failed, and the bytes left. */
  datatype Reads = Reads(frames: seq<seq<byte>>, failure: Option<Error>, rest: seq<byte>)

  /** Reading one frame for each of `n` requests, stopping at the first
      read that fails. */
  function ReadFrames(n: nat, a: seq<byte>): (r: Reads)
    ensures |r.frames| <= n
    ensures r.failure.None? <==> |r.frames| == n
    ensures After(r.frames, a) == Some(r.rest)
    ensures r.failure.Some? ==> FrameAt(r.rest) == Err(r.failure.value)
    decreases n
  {
    if n == 0 then Reads([], None, a) else
    match FrameAt(a)
    case Err(e) => Reads([], Some(e), a)
    case Ok(f) =>
      var r := ReadFrames(n - 1, a[|f|..]);
      assert ([f] + r.frames)[1..] == r.frames;
      Reads([f] + r.frames, r.failure, r.rest)
  }

  /** The identity a response to `0x11 [00]` carries: the inverter id,
      then the code list; a missing id is reported before anything else. */
  function Identify(resp: seq<byte>): (r: Result<(string, seq<byte>)>)
    ensures r.Ok? <==> ParseInverterId(resp).Ok? && ParseCodes(resp).Ok?
    ensures r.Ok? ==> r.value == (ParseInverterId(resp).value, ParseCodes(resp).value)
    ensures r.Ok? ==> IsInverterId(r.value.0)
    ensures ParseInverterId(resp).Err? ==> r == Err(ParseInverterId(resp).error)
  {
    var id :- ParseInverterId(resp);
    var codes :- ParseCodes(resp);
    Ok((id, codes))
  }

  /** How the first two exchanges went: the frames read, the identity
      learned or the first error, and the bytes still to come. */
  datatype Handshake = Handshake(received: seq<seq<byte>>, outcome: Result<(string, seq<byte>)>, rest: seq<byte>)

  /** Connecting, then INIT and the identity query `0x11 [00]`, given
      whether the connection is accepted and the bytes the device
      delivers. */
  function Opening(reachable: bool, a: seq<byte>): (h: Handshake)
    ensures |h.received| <= 2
    ensures h.outcome.Ok? ==> |h.received| == 2 && IsInverterId(h.outcome.value.0)
  {
    if !reachable then Handshake([], Err(ConnectFailed), a) else
    var r := ReadFrames(2, a);
    match r.failure
    case Some(e) => Handshake(r.frames, Err(e), r.rest)
    case None => Handshake(r.frames, Identify(r.frames[1]), r.rest)
  }

  /** The requests sent during the handshake: none when the connection is
      refused, then INIT, then the identity query once INIT was answered. */
  function OpeningSent(reachable: bool, p: Plan, h: Handshake): (s: seq<seq<byte>>)
    ensures s <= [p.init, p.firstQuery]
    ensures s == [] <==> !reachable
  {
    if !reachable then [] else if h.received == [] then [p.init] else [p.init, p.firstQuery]
  }

  /** Steps 3 to 6 once the identity is known: keep-alive, `0x11 [01]`
      and keep-alive, whose answers are read and discarded, then the value
      request and the decoding of its answer. */
  function Values(rq: seq<seq<byte>>, id: string, codes: seq<byte>, a: seq<byte>): (t: Trace)
    requires |rq| == 4
    ensures |t.received| <= 4
    ensures t.result.Ok? <==> |t.received| == 4 && DecodeValues(t.received[3], codes).Ok?
    ensures |t.received| == 4 && t.result.Err? ==> t.result == Err(DecodeValues(t.received[3], codes).error)
    ensures t.result.Ok? ==> t.sent == rq && t.result.value.inverterId == id
  {
    var r := ReadFrames(3, a);
    match r.failure
    case Some(e) => Trace(rq[..|r.frames| + 1], r.frames, Err(e))
    case None =>
      match FrameAt(r.rest)
      case Err(e) => Trace(rq, r.frames, Err(e))
      case Ok(f6) =>
        match DecodeValues(f6, codes)
        case Err(e) => Trace(rq, r.frames + [f6], Err(e))
        case Ok(vals) => Trace(rq, r.frames + [f6], Ok(Decoded(id, vals, PmuEpoch(f6))))
  }

  /** The frames sent after the handshake for the inverter `id`. */
  function LaterRequests(p: Plan, id: string): (rq: seq<seq<byte>>)
    ensures |rq| == 4
  {
    [p.keepAlive, p.secondQuery, p.keepAlive, p.valueQuery(id)]
  }

  /** The poll, given whether the connection is accepted, the frames of
      its plan and the bytes the device delivers. */
  function Poll(reachable: bool, p: Plan, a: seq<byte>): (tr: Trace)
    ensures !reachable ==> tr == Trace([], [], Err(ConnectFailed))
    ensures tr.result.Ok? ==> |tr.sent| == 6 && |tr.received| == 6
    ensures tr.result.Ok? ==> ParseInverterId(tr.received[1]) == Ok(tr.result.value.inverterId)
  {
    var h := Opening(reachable, a);
    var first := OpeningSent(reachable, p, h);
    match h.outcome
    case Err(e) => Trace(first, h.received, Err(e))
    case Ok(known) =>
    var rest := Values(LaterRequests(p, known.0), known.0, known.1, h.rest);
    Trace(first + rest.sent, h.received + rest.received, rest.result)
  }

  /** The handshake reads its frames in order from the front of the
      stream, and a failed read of either frame is its outcome. */
  lemma OpeningReadsInOrder(reachable: bool, p: Plan, a: seq<byte>)
    ensures var h := Opening(reachable, a);
            var sent := OpeningSent(reachable, p, h);
            && After(h.received, a) == Some(h.rest)
            && |h.received| <= |sent| <= |h.received| + 1
            && (reachable ==> |sent| >= 1)
            && (|sent| == |h.received| + 1 ==>
                  FrameAt(h.rest).Err? && h.outcome == Err(FrameAt(h.rest).error))
  {
  }

  /** Steps 3 to 6 read their frames in order from what the handshake
      left, and a failed read is their outcome. */
  lemma ValuesReadsInOrder(rq: seq<seq<byte>>, id: string, codes: seq<byte>, a: seq<byte>)
    requires |rq| == 4
    ensures var t := Values(rq, id, codes, a);
            var rest := After(t.received, a);
            && rest.Some?
            && |t.received| <= |t.sent| <= |t.received| + 1
            && (|t.sent| == |t.received| + 1 ==>
                  FrameAt(rest.value).Err? && t.result == Err(FrameAt(rest.value).error))
  {
    var r := ReadFrames(3, a);
    if r.failure.None? && FrameAt(r.rest).Ok? {
      var f6 := FrameAt(r.rest).value;
      AfterAppend(r.frames, [f6], a);
    }
  }

  /** The poll reads one frame after each request it sends, one after
      the other from the stream the device delivers, and stops at the
      first failure: when the last request got no frame, the poll's error
      is that of the read. */
  lemma PollReadsInOrder(reachable: bool, p: Plan, a: seq<byte>)
    ensures var tr := Poll(reachable, p, a);
            var rest := After(tr.received, a);
            && rest.Some?
            && Concat(tr.received) + rest.value == a
            && |tr.received| <= |tr.sent| <= |tr.received| + 1
            && (reachable ==> |tr.sent| >= 1)
            && (|tr.sent| == |tr.received| + 1 ==>
                  FrameAt(rest.value).Err? && tr.result == Err(FrameAt(rest.value).error))
  {
    var h := Opening(reachable, a);
    OpeningReadsInOrder(reachable, p, a);
    if h.outcome.Ok? {
      var known := h.outcome.value;
      var rq := LaterRequests(p, known.0);
      var t := Values(rq, known.0, known.1, h.rest);
      ValuesReadsInOrder(rq, known.0, known.1, h.rest);
      AfterAppend(h.received, t.received, a);
      assert Poll(reachable, p, a) == Trace([p.init, p.firstQuery] + t.sent, h.received + t.received, t.result);
    }
    AfterIsSuffix(Poll(reachable, p, a).received, a);
  }

  /** Steps 3 to 6 send a non-empty prefix of their four requests, one
      more than the frames they read when a read failed, and all four
      when they produce a reading. */
  lemma ValuesSent(rq: seq<seq<byte>>, id: string, codes: seq<byte>, a: seq<byte>)
    requires |rq| == 4
    ensures var t := Values(rq, id, codes, a);
            && 1 <= |t.sent| <= 4 && t.sent == rq[..|t.sent|]
            && (t.result.Ok? ==> |t.sent| == 4 && |t.received| == 4)
  {
    assert rq[..4] == rq;
  }

  /** The schedule is the handshake's two requests and then the later four. */
  lemma ScheduleSplits(p: Plan, id: string)
    ensures Schedule(p, id) == [p.init, p.firstQuery] + LaterRequests(p, id)
  {
  }

  /** `x` followed by the first `k` of `y` is the first `|x| + k` of `x + y`. */
  lemma AppendTake<T>(x: seq<T>, y: seq<T>, k: nat)
    requires k <= |y|
    ensures x + y[..k] == (x + y)[..|x| + k]
  {
  }

  /** The requests go out in the fixed order INIT, `0x11 [00]`,
      keep-alive, `0x11 [01]`, keep-alive, value query: whatever happens,
      the poll has sent a prefix of that schedule, at most the first two
      before the identity is known and at least three after. */
  lemma PollFollowsSchedule(reachable: bool, p: Plan, a: seq<byte>)
    ensures var tr := Poll(reachable, p, a);
            var h := Opening(reachable, a);
            && (h.outcome.Err? ==> tr.sent <= [p.init, p.firstQuery] && tr.result.Err?)
            && (h.outcome.Ok? ==> tr.sent <= Schedule(p, h.outcome.value.0) && |tr.sent| >= 3)
  {
    var h := Opening(reachable, a);
    if h.outcome.Ok? {
      var known := h.outcome.value;
      var rq := LaterRequests(p, known.0);
      var t := Values(rq, known.0, known.1, h.rest);
      ValuesSent(rq, known.0, known.1, h.rest);
      var first := [p.init, p.firstQuery];
      ScheduleSplits(p, known.0);
      AppendTake(first, rq, |t.sent|);
    }
  }

  /** After the handshake, a successful run sent all four later
      requests, read four frames and decoded the value table and the
      clock from the last. */
  lemma ValuesSuccess(rq: seq<seq<byte>>, id: string, codes: seq<byte>, a: seq<byte>)
    requires |rq| == 4 && Values(rq, id, codes, a).result.Ok?
    ensures var t := Values(rq, id, codes, a);
            && t.sent == rq && |t.received| == 4
            && DecodeValues(t.received[3], codes).Ok?
            && t.result.value == Decoded(id, DecodeValues(t.received[3], codes).value,
                                         PmuEpoch(t.received[3]))
  {
  }

  /** A successful poll is its handshake followed by the four later
      exchanges, all of which succeeded. */
  lemma PollOk(reachable: bool, p: Plan, a: seq<byte>)
    requires Poll(reachable, p, a).result.Ok?
    ensures var h := Opening(reachable, a);
            && h.outcome.Ok?
            && var t := Values(LaterRequests(p, h.outcome.value.0), h.outcome.value.0, h.outcome.value.1, h.rest);
            && t.result.Ok?
            && Poll(reachable, p, a) == Trace([p.init, p.firstQuery] + t.sent, h.received + t.received, t.result)
  {
  }

  /** A poll that yields a reading sent all six requests in the order of
      the schedule and read six frames, the first two being those of the
      handshake. */
  lemma PollSuccessExchanges(reachable: bool, p: Plan, a: seq<byte>)
    requires Poll(reachable, p, a).result.Ok?
    ensures var tr := Poll(reachable, p, a);
            var h := Opening(reachable, a);
            && h.outcome.Ok?
            && tr.sent == Schedule(p, h.outcome.value.0)
            && |tr.received| == 6
            && tr.received[..2] == h.received
  {
    PollOk(reachable, p, a);
    var h := Opening(reachable, a);
    var known := h.outcome.value;
    var rq := LaterRequests(p, known.0);
    var t := Values(rq, known.0, known.1, h.rest);
    ValuesSuccess(rq, known.0, known.1, h.rest);
    ScheduleSplits(p, known.0);
    AppendTake(h.received, t.received, 0);
    assert h.received + t.received[..0] == h.received;
  }

  /** The outcome of a successful poll is built from its sixth frame,
      decoded with the code list, and the identity the second carried. */
  lemma PollSuccessDecodes(reachable: bool, p: Plan, a: seq<byte>)
    requires Poll(reachable, p, a).result.Ok?
    ensures var tr := Poll(reachable, p, a);
            var h := Opening(reachable, a);
            && h.outcome.Ok? && |tr.received| == 6
            && DecodeValues(tr.received[5], h.outcome.value.1).Ok?
            && tr.result.value == Decoded(h.outcome.value.0,
                 DecodeValues(tr.received[5], h.outcome.value.1).value, PmuEpoch(tr.received[5]))
  {
    PollOk(reachable, p, a);
    var h := Opening(reachable, a);
    var known := h.outcome.value;
    var rq := LaterRequests(p, known.0);
    var t := Values(rq, known.0, known.1, h.rest);
    ValuesSuccess(rq, known.0, known.1, h.rest);
    assert Poll(reachable, p, a).received[5] == t.received[3];
  }

  /** One exchange: send a request, then read one frame. */
  method Exchange(ch: Channel, frame: seq<byte>) returns (r: Result<seq<byte>>)
    modifies ch`inbox, ch`sent
    ensures ch.sent == old(ch.sent) + [frame]
    ensures r == FrameAt(Available(old(ch.inbox)))
    ensures r.Ok? ==> Available(ch.inbox) == Available(old(ch.inbox))[|r.value|..]
  {
    ch.SendAll(frame);
    r := RecvFrame(ch);
  }

  /** Connect, INIT, the identity query, and the decoding of its answer;
      the first failure returns at once. */
  method Open(ch: Channel, p: Plan) returns (k: Result<(string, seq<byte>)>)
    requires !ch.connected && ch.sent == []
    modifies ch`inbox, ch`sent, ch`connected
    ensures var h := Opening(ch.reachable, Available(old(ch.inbox)));
            && k == h.outcome
            && ch.sent == OpeningSent(ch.reachable, p, h)
            && (k.Ok? ==> Available(ch.inbox) == h.rest)
  {
    ghost var a := Available(ch.inbox);
    var ok := ch.Connect();
    if !ok {
      return Err(ConnectFailed);
    }
    // 1) INIT (0x01) with the local time and zone
    var f1 := Exchange(ch, p.init);
    if f1.Err? {
      return Err(f1.error);
    }
    // 2) identity query 0x11 [00]: inverter id and code list
    var f2 := Exchange(ch, p.firstQuery);
    if f2.Err? {
      return Err(f2.error);
    }
    var id := ParseInverterId(f2.value);
    if id.Err? {
      return Err(id.error);
    }
    var cs := ParseCodeListFromResp12(f2.value);
    if cs.Err? {
      return Err(cs.error);
    }
    return Ok((id.value, cs.value));
  }

  class EversolarPMU {
    const host: string
    const port: int
    /** The identity learned by the last poll that got that far. */
    var inverterId: Option<string>
    var codes: Option<seq<byte>>

    constructor (host: string, port: int)
      ensures this.host == host && this.port == port
      ensures inverterId == None && codes == None
    {
      this.host := host;
      this.port := port;
      inverterId := None;
      codes := None;
    }

    /** `connect_and_poll` over a fresh socket `ch`: the exchanges, then
        `close` whatever happened. */
    method ConnectAndPoll(ch: Channel, now: LocalTime) returns (r: Result<Reading>)
      requires ValidTime(now)
      requires ch.open && !ch.connected && ch.sent == []
      modifies this, ch
      ensures var tr := Poll(ch.reachable, PollPlan(now), Available(old(ch.inbox)));
              && r == ReadingOf(tr.result)
              && ch.sent == tr.sent
      ensures var h := Opening(ch.reachable, Available(old(ch.inbox)));
              && (h.outcome.Ok? ==> inverterId == Some(h.outcome.value.0) && codes == Some(h.outcome.value.1))
              && (h.outcome.Err? ==> inverterId == old(inverterId) && codes == old(codes))
      ensures !ch.open
    {
      var d := Exchanges(ch, PollPlan(now));
      ch.Close();
      r := ReadingOf(d);
    }

    /** The body of the `try`: the handshake, which records the identity
        it learns, then the remaining exchanges. */
    method Exchanges(ch: Channel, p: Plan) returns (d: Result<Decoded>)
      requires !ch.connected && ch.sent == []
      modifies this, ch`inbox, ch`sent, ch`connected
      ensures var tr := Poll(ch.reachable, p, Available(old(ch.inbox)));
              && d == tr.result
              && ch.sent == tr.sent
      ensures var h := Opening(ch.reachable, Available(old(ch.inbox)));
              && (h.outcome.Ok? ==> inverterId == Some(h.outcome.value.0) && codes == Some(h.outcome.value.1))
              && (h.outcome.Err? ==> inverterId == old(inverterId) && codes == old(codes))
    {
      var known := Open(ch, p);
      if known.Err? {
        return Err(known.error);
      }
      var id, cs := known.value.0, known.value.1;
      inverterId := Some(id);
      codes := Some(cs);
      d := ExchangeValues(ch, LaterRequests(p, id), id, cs);
    }

    /** Steps 3 to 6 of `Exchanges`, sending the frames `rq`. */
    method ExchangeValues(ch: Channel, rq: seq<seq<byte>>, id: string, cs: seq<byte>) returns (d: Result<Decoded>)
      requires |rq| == 4
      modifies ch`inbox, ch`sent
      ensures var tr := Values(rq, id, cs, Available(old(ch.inbox)));
              && d == tr.result
              && ch.sent == old(ch.sent) + tr.sent
    {
      ghost var s0 := ch.sent;
      var e := ExchangeKeepAlives(ch, rq[..3]);
      if e.Some? {
        return Err(e.value);
      }
      // 6) value query 0x13 with the inverter id
      var f6 := Exchange(ch, rq[3]);
      assert ch.sent == s0 + rq by { assert rq == rq[..3] + [rq[3]]; }
      if f6.Err? {
        return Err(f6.error);
      }
      var vals := DecodeNormalInfo(f6.value, cs);
      if vals.Err? {
        return Err(vals.error);
      }
      return Ok(Decoded(id, vals.value, PmuEpoch(f6.value)));
    }

    /** Steps 3 to 5: keep-alive, `0x11 [01]` (kept for compatibility)
        and keep-alive again, each answer read and discarded. */
    method ExchangeKeepAlives(ch: Channel, rq: seq<seq<byte>>) returns (e: Option<Error>)
      requires |rq| == 3
      modifies ch`inbox, ch`sent
      ensures var r := ReadFrames(3, Available(old(ch.inbox)));
              && e == r.failure
              && (e.Some? ==> ch.sent == old(ch.sent) + rq[..|r.frames| + 1])
              && (e.None? ==> ch.sent == old(ch.sent) + rq && Available(ch.inbox) == r.rest)
    {
      ghost var a := Available(ch.inbox);
      ghost var s0 := ch.sent;
      // 3) keep-alive 0x73
      var f3 := Exchange(ch, rq[0]);
      assert ch.sent == s0 + rq[..1];
      if f3.Err? {
        return Some(f3.error);
      }
      ghost var a3 := a[|f3.value|..];
      // 4) identity query 0x11 [01]
      var f4 := Exchange(ch, rq[1]);
      assert ch.sent == s0 + rq[..2] by { assert rq[..2] == rq[..1] + [rq[1]]; }
      if f4.Err? {
        return Some(f4.error);
      }
      // 5) keep-alive again
      var f5 := Exchange(ch, rq[2]);
      assert ch.sent == s0 + rq by { assert rq == rq[..2] + [rq[2]]; }
      if f5.Err? {
        return Some(f5.error);
      }
      return None;
    }
  }
}
