# Eversolar PMU protocol client, modelled in Dafny

This project models the protocol client that polls an Eversolar
power-management unit (PMU) over TCP. The model covers:

- the CRC-16/XMODEM engine;
- building request frames (`AA 55 cmd 00 len payload crc_hi crc_lo`);
- receiving response frames as a 5-byte header plus an exact-length payload;
- the 188-byte INIT payload, with two UTF-16LE time-zone fields and the local time;
- decoding the identity response (0x12) into the inverter id and the list of telemetry codes;
- decoding the value response (0x14) into a table of u16 values;
- the field rules that turn that table into a reading;
- the six-step session of `EversolarPMU.connect_and_poll`: INIT, `0x11 [00]`, keep-alive, `0x11 [01]`, keep-alive, then `0x13 <id>`.

Modules, one per concern:

| module | file | models |
|---|---|---|
| `Bytes` | `bytes.dfy` | bytes, `Option`/`Result`, the error kinds, little-endian u16 fields |
| `Transport` | `transport.dfy` | the socket as a scripted `Channel` class: queued reply chunks, a log of sent frames, connected/open flags |
| `Crc16` | `crc.dfy` | `crc16_xmodem`, with the register as an unbounded natural as in the original |
| `Framing` | `framing.dfy` | `build_req`, `recv_exact`, `recv_frame` |
| `InitPayload` | `init_payload.dfy` | `tz_field_84`, `build_init_payload` |
| `Identity` | `identity.dfy` | `parse_inverter_id`, `parse_code_list_from_resp12` |
| `Telemetry` | `telemetry.dfy` | `decode_normal_info_from_resp14`, the device clock, the reading's field rules |
| `Session` | `session.dfy` | `EversolarPMU` and `connect_and_poll` |

How each part is modelled:

- The loops of the original are methods with loop invariants:
  - the CRC's two nested loops;
  - `recv_exact`;
  - the code-list walk;
  - the value-table fill.
- Each of these methods is proved equal to a specification function, and lemmas prove the properties of those functions.
- The poll is a `class EversolarPMU` whose methods send and read through a `Channel`.
- Its contract ties the outcome, the frames sent and the stored identity to the pure function `Poll`. The lemmas about `Poll` state:
  - the request order;
  - that the session stops at the first failure;
  - that frames are read consecutively from the stream.
- Every exception the original raises is an `Err` value of `Bytes.Error`.

Where the protocol's description and the code disagree, the model follows the code:

- A response frame's CRC is never read or checked. `recv_frame` reads the header and `len` payload bytes only, so any trailer a device sends stays in the stream and is where the next read starts (`Framing.RequestRoundTrip`).
- A zero byte counts as a code in the "two codes collected" test that ends the code list (`Identity.ZeroCodesCountTowardsTwo`).
- The device clock is read from `payload[2:6]` whatever the payload's length. A short payload gives the value of the bytes that are there, and an empty one gives 0 (`Telemetry.PmuEpoch`).

## Model

| member | source | states |
|---|---|---|
| Bytes.Drop | custom_components/eversolar_pmu/eversolar_protocol.py:96 | `resp[5:]` never fails: empty past the end, otherwise the bytes from offset 5 on |
| Bytes.U16At | custom_components/eversolar_pmu/eversolar_protocol.py:147 | a little-endian u16 is in 0..0xFFFF, its low byte first and its high byte second |
| Bytes.PackU16 | custom_components/eversolar_pmu/eversolar_protocol.py:77-87 | one `<H` field of `struct.pack`: two bytes that read back as the value |
| Bytes.PackU16s | custom_components/eversolar_pmu/eversolar_protocol.py:77-87 | `struct.pack("<8H", …)`: two bytes per value, each reading back as that value |
| Transport.Channel.constructor | custom_components/eversolar_pmu/eversolar_protocol.py:183-184 | a fresh socket: nothing sent, not connected, open |
| Transport.Available | custom_components/eversolar_pmu/eversolar_protocol.py:33-39 | the bytes the peer delivers before it closes are at least as many as its first chunk holds |
| Transport.Channel.Connect | custom_components/eversolar_pmu/eversolar_protocol.py:187 | `connect` succeeds exactly when the peer is reachable |
| Transport.Channel.Recv | custom_components/eversolar_pmu/eversolar_protocol.py:34 | `recv(n)` returns 1 to n bytes while the peer has bytes and nothing once it has closed; the bytes returned and the bytes left make up what was available |
| Transport.Channel.SendAll | custom_components/eversolar_pmu/eversolar_protocol.py:195 | `sendall` appends the frame to what was sent |
| Transport.Channel.Close | custom_components/eversolar_pmu/eversolar_protocol.py:307-308 | `close` leaves the socket closed |
| Crc16.ShiftBit | custom_components/eversolar_pmu/eversolar_protocol.py:22-25 | one conditional shift keeps the register below 2^16 |
| Crc16.Xor | custom_components/eversolar_pmu/eversolar_protocol.py:20-23 | the `^` of the register: `a ^ b` has the parity of `a + b` and is at most `a + b` |
| Crc16.Crc | custom_components/eversolar_pmu/eversolar_protocol.py:16-26 | the CRC of any input is a 16-bit value |
| Crc16.Crc16Xmodem | custom_components/eversolar_pmu/eversolar_protocol.py:16-26 | the nested byte and bit loops compute `Crc(data)`, a value below 2^16 |
| Crc16.FeedByte | custom_components/eversolar_pmu/eversolar_protocol.py:20-25 | feeding one byte leaves the register below 2^16 whatever it held before |
| Crc16.CrcEmpty | custom_components/eversolar_pmu/eversolar_protocol.py:18-26 | the empty input has CRC 0 |
| Crc16.CrcAppend | custom_components/eversolar_pmu/eversolar_protocol.py:19-25 | the CRC of `a + b` continues from the CRC of `a` over the bytes of `b` |
| Crc16.CrcSnoc | custom_components/eversolar_pmu/eversolar_protocol.py:19-25 | appending a byte feeds it to the register of the prefix |
| Crc16.FeedOwnValueClears | custom_components/eversolar_pmu/eversolar_protocol.py:58-59 | feeding a register its own value, high byte then low byte, clears it to 0 |
| Framing.BuildRequest | custom_components/eversolar_pmu/eversolar_protocol.py:53-60 | fails with `PayloadTooLarge` exactly when the payload exceeds 255 bytes; otherwise `AA 55 cmd 00 len`, the payload, then the CRC of those bytes big-endian, 7 + len bytes in all |
| Framing.Header | custom_components/eversolar_pmu/eversolar_protocol.py:57 | `SYNC + bytes([cmd, 0x00, len])`: the header followed by its payload is read back by `recv_frame` as exactly that frame |
| Framing.CrcBytes | custom_components/eversolar_pmu/eversolar_protocol.py:59 | `struct.pack(">H", c)`: two bytes whose big-endian value is `c` |
| Framing.FrameAt | custom_components/eversolar_pmu/eversolar_protocol.py:43-50 | a frame is read exactly when the stream holds a header starting `AA 55` and the declared number of payload bytes; the frame is the first 5 + len bytes; a wrong sync reports the header |
| Framing.RecvExact | custom_components/eversolar_pmu/eversolar_protocol.py:29-40 | succeeds exactly when `n` bytes are available, returns the first `n` and consumes them; otherwise fails with the number of bytes it got |
| Framing.RecvFrame | custom_components/eversolar_pmu/eversolar_protocol.py:43-50 | yields `FrameAt` of the available bytes and consumes exactly the frame |
| Framing.RequestCrcResidue | custom_components/eversolar_pmu/eversolar_protocol.py:53-60 | the CRC over a whole request frame, trailer included, is 0 |
| Framing.RequestRoundTrip | custom_components/eversolar_pmu/eversolar_protocol.py:43-60 | reading a built request back gives its command and payload, and leaves its two CRC bytes at the front of the rest of the stream |
| Identity.FindId | custom_components/eversolar_pmu/eversolar_protocol.py:97 | `re.search(rb"[A-Z0-9]{16}")`: the leftmost 16-byte window of id bytes, or none when no window exists |
| Identity.AsciiString | custom_components/eversolar_pmu/eversolar_protocol.py:100 | ASCII decoding keeps the length and every code |
| Identity.AsciiBytes | custom_components/eversolar_pmu/eversolar_protocol.py:221 | `str.encode("ascii")` of text below code 128 keeps the length and every code |
| Identity.ParseInverterId | custom_components/eversolar_pmu/eversolar_protocol.py:94-100 | fails with `InverterIdNotFound` exactly when the payload has no id window; otherwise 16 ASCII characters that encode back to the leftmost window |
| Identity.InverterIdIsWindow | custom_components/eversolar_pmu/eversolar_protocol.py:97-100 | the parsed id, encoded again, is itself a window of `[A-Z0-9]` bytes |
| Identity.CodeListEnd | custom_components/eversolar_pmu/eversolar_protocol.py:114-129 | the first position where a run of four zeros starts after at least two codes, or the end of the tail |
| Identity.CodeList | custom_components/eversolar_pmu/eversolar_protocol.py:111-129 | the codes are a prefix of the tail, empty only for an empty tail, and cut exactly at the first stopping point |
| Identity.CodeListEndUnique | custom_components/eversolar_pmu/eversolar_protocol.py:114-129 | the stopping point is the only position that is a stop (or the end) with no stop before it |
| Identity.ParseCodes | custom_components/eversolar_pmu/eversolar_protocol.py:103-133 | fails with `InverterIdNotFound` without an id; fails with `NoCodes` exactly when nothing follows the id; otherwise the code list of the bytes after the id |
| Identity.ParseCodeListFromResp12 | custom_components/eversolar_pmu/eversolar_protocol.py:103-133 | the byte walk with its zero-run count returns `ParseCodes(resp)` |
| Identity.SingleZeroIsCode | custom_components/eversolar_pmu/eversolar_protocol.py:116-127 | a lone zero between codes is kept as a code |
| Identity.PaddingIsDropped | custom_components/eversolar_pmu/eversolar_protocol.py:121-123 | three codes followed by five zeros decode to the three codes |
| Identity.ZeroCodesCountTowardsTwo | custom_components/eversolar_pmu/eversolar_protocol.py:122 | six zero bytes decode to two zero codes, because zero codes count towards the two |
| InitPayload.Utf16Le | custom_components/eversolar_pmu/eversolar_protocol.py:65 | UTF-16LE of ASCII text: each character's code, then a zero byte |
| InitPayload.TzField | custom_components/eversolar_pmu/eversolar_protocol.py:63-68 | 84 bytes: the encoding cut to 84 bytes, or the encoding followed by zeros |
| InitPayload.FittingChars | custom_components/eversolar_pmu/eversolar_protocol.py:66-67 | the whole name when its encoding fits in 84 bytes, else 42 characters |
| InitPayload.FieldHoldsName | custom_components/eversolar_pmu/eversolar_protocol.py:63-68 | the field holds the characters that fit, then a NUL unit unless it is full |
| InitPayload.FieldReadsBack | custom_components/eversolar_pmu/eversolar_protocol.py:63-68 | reading such a field up to its first NUL unit gives those characters back |
| InitPayload.ZoneNameRoundTrip | custom_components/eversolar_pmu/eversolar_protocol.py:63-68 | a NUL-free ASCII zone name survives the field, cut to what fits |
| InitPayload.WireWeekday | custom_components/eversolar_pmu/eversolar_protocol.py:76 | `(weekday() + 1) % 7`: Sunday is 0 and the other days move up by one |
| InitPayload.TimeValues | custom_components/eversolar_pmu/eversolar_protocol.py:77-87 | eight values in wire order, each fitting a u16 |
| InitPayload.InitPayloadFor | custom_components/eversolar_pmu/eversolar_protocol.py:71-91 | for any two ASCII zone names, the prefix, the two `tz_field_84` fields of their UTF-16LE and the time block, 188 bytes in all |
| InitPayload.ZoneNamesAscii | custom_components/eversolar_pmu/eversolar_protocol.py:73-74 | both zone names are ASCII text with no NUL character |
| InitPayload.InitPayloadZones | custom_components/eversolar_pmu/eversolar_protocol.py:63-91 | NUL-free ASCII names whose encodings fit in 84 bytes read back whole from their fields of the payload |
| InitPayload.BuildInitPayload | custom_components/eversolar_pmu/eversolar_protocol.py:71-91 | 188 bytes: the prefix `A8 FD FF FF`, `tz_field_84` of the UTF-16LE of "E. Australia Standard Time", the same of "E. Australia Daylight Time", then the packed time block (the length check cannot fail) |
| InitPayload.InitTimeValue | custom_components/eversolar_pmu/eversolar_protocol.py:77-87 | the k-th u16 of the time block is the k-th time value |
| InitPayload.InitTimeRoundTrip | custom_components/eversolar_pmu/eversolar_protocol.py:76-88 | the payload gives back the local time it was built from, and it ends with 0x0346 |
| InitPayload.InitZoneNames | custom_components/eversolar_pmu/eversolar_protocol.py:73-88 | reading the two zone fields of the INIT payload gives back "E. Australia Standard Time" and "E. Australia Daylight Time" |
| Telemetry.Table | custom_components/eversolar_pmu/eversolar_protocol.py:144-148 | the table's keys are exactly the codes, and every value is a u16 |
| Telemetry.TableLastIndexWins | custom_components/eversolar_pmu/eversolar_protocol.py:145-148 | a code holds the value at its last index in the code list |
| Telemetry.DecodeValues | custom_components/eversolar_pmu/eversolar_protocol.py:136-149 | fails with `PayloadTooShort(len, 8 + 2·n)` exactly when the payload is shorter than that; otherwise a table keyed by the codes |
| Telemetry.DecodeNormalInfo | custom_components/eversolar_pmu/eversolar_protocol.py:136-149 | the length check and the table loop return `DecodeValues` |
| Telemetry.LittleEndian | custom_components/eversolar_pmu/eversolar_protocol.py:231 | `int.from_bytes(b, "little")` is below 256^len(b) |
| Telemetry.ClockField | custom_components/eversolar_pmu/eversolar_protocol.py:230-231 | at most four bytes, exactly `payload[2:6]` when the payload has six bytes |
| Telemetry.PmuEpoch | custom_components/eversolar_pmu/eversolar_protocol.py:229-231 | the device clock is a 32-bit value for any response |
| Telemetry.PmuEpochHalves | custom_components/eversolar_pmu/eversolar_protocol.py:229-231 | with six payload bytes, the clock's low and high halves are the u16 values at offsets 2 and 4 |
| Telemetry.Get | custom_components/eversolar_pmu/eversolar_protocol.py:246 | `vals.get(code)`: present exactly when the code is in the table, with its value |
| Telemetry.FirstUsable | custom_components/eversolar_pmu/eversolar_protocol.py:253-267 | the first candidate that is present and usable (not 0, not 0xFFFF, within the limit), with no usable candidate before it, or none when no candidate is usable |
| Telemetry.Select | custom_components/eversolar_pmu/eversolar_protocol.py:253-259 | a value exactly when some candidate is usable; that value is usable and is the value of the first usable candidate in the order given |
| Telemetry.PvVoltagePriority | custom_components/eversolar_pmu/eversolar_protocol.py:253-259 | the PV voltage comes from 0x01 if usable, else from 0x02 if usable, else from 0x40 if usable, else none |
| Telemetry.PvCurrentPriority | custom_components/eversolar_pmu/eversolar_protocol.py:261-267 | the PV current comes from 0x41 if usable and at most 2000, else from 0x04, else from 0x05, else from 0x46 |
| Telemetry.Combine | custom_components/eversolar_pmu/eversolar_protocol.py:275-287 | present exactly when both halves are; for u16 halves a 32-bit value whose low and high halves are theirs |
| Telemetry.PvCurrentOf | custom_components/eversolar_pmu/eversolar_protocol.py:261-270 | a raw current exactly when a candidate is usable and at most 2000, and then it is the value of the first such candidate; otherwise the power/voltage fallback exactly when the PV voltage is positive and the power is known |
| Telemetry.BuildReading | custom_components/eversolar_pmu/eversolar_protocol.py:246-305 | every field of the reading follows its rule: direct lookups, the PV voltage and current selections, the three 32-bit combinations, the id, the clock and the raw table |
| Session.Request | custom_components/eversolar_pmu/eversolar_protocol.py:195-221 | a request with a fitting payload has 7 + len bytes |
| Session.PollPlan | custom_components/eversolar_pmu/eversolar_protocol.py:195-221 | the plan's frames have their wire lengths: INIT 195 bytes, the identity queries 8, the keep-alive 7, and the value query 23 for any id |
| Session.ValueQuery | custom_components/eversolar_pmu/eversolar_protocol.py:221 | the value request for a 16-character id has 23 bytes |
| Session.Schedule | custom_components/eversolar_pmu/eversolar_protocol.py:195-221 | a complete poll sends six frames |
| Session.RequestCarries | custom_components/eversolar_pmu/eversolar_protocol.py:53-60 | a request carries its command and payload in the header layout, and its CRC over the whole frame is 0 |
| Session.PollPlanFrames | custom_components/eversolar_pmu/eversolar_protocol.py:195-221 | the plan's frames are INIT with the time payload, `0x11 [00]`, `0x73 []`, `0x11 [01]`, and for every id `0x13` with the id in ASCII, each in the header layout with a CRC that makes the whole frame's CRC 0 |
| Session.AfterIsSuffix | custom_components/eversolar_pmu/eversolar_protocol.py:196-222 | frames read one after another are consecutive segments at the front of the stream, and the unread bytes follow them |
| Session.AfterAppend | custom_components/eversolar_pmu/eversolar_protocol.py:196-222 | reading `xs` then `ys` is reading `xs + ys` |
| Session.ReadFrames | custom_components/eversolar_pmu/eversolar_protocol.py:196-222 | reading up to n frames: n of them exactly when no read failed; they come one after another from the front of the stream and leave the rest; a failure is the error of reading the rest |
| Session.ReadingOf | custom_components/eversolar_pmu/eversolar_protocol.py:243-306 | a reading exactly when decoding succeeded, carrying the id, the clock and the raw table; otherwise the same error |
| Session.Identify | custom_components/eversolar_pmu/eversolar_protocol.py:200-202 | the identity succeeds exactly when both the id and the code list parse; the id is a 16-character ASCII string; a missing id is the error reported first |
| Session.Opening | custom_components/eversolar_pmu/eversolar_protocol.py:187-202 | the handshake reads at most two frames, and two when it learns an identity |
| Session.OpeningSent | custom_components/eversolar_pmu/eversolar_protocol.py:187-199 | the handshake sends a prefix of INIT and `0x11 [00]`, and nothing exactly when the connection is refused |
| Session.LaterRequests | custom_components/eversolar_pmu/eversolar_protocol.py:208-221 | four frames follow the handshake |
| Session.Values | custom_components/eversolar_pmu/eversolar_protocol.py:208-243 | steps 3 to 6 read at most four frames; they give a result exactly when four frames came back and the fourth decodes, otherwise a decoding failure is the error; on success all four requests went out and the id is the one learned |
| Session.Poll | custom_components/eversolar_pmu/eversolar_protocol.py:186-243 | a refused connection sends and reads nothing and fails with `ConnectFailed`; a successful poll sent and read six frames, and its id is the one parsed from the second frame |
| Session.OpeningReadsInOrder | custom_components/eversolar_pmu/eversolar_protocol.py:187-202 | the handshake reads its frames from the front of the stream, sends at most one request more than it has answers for, and a request left unanswered makes the failed read its outcome |
| Session.ValuesReadsInOrder | custom_components/eversolar_pmu/eversolar_protocol.py:208-243 | steps 3 to 6 do the same on the stream the handshake left |
| Session.PollReadsInOrder | custom_components/eversolar_pmu/eversolar_protocol.py:186-243 | over the whole poll, the frames received are the front of the stream in order; the poll sends one request more than it got answers for only when the last read failed, and then that failure is its outcome |
| Session.ValuesSent | custom_components/eversolar_pmu/eversolar_protocol.py:208-222 | after the handshake, 1 to 4 of the later requests go out in order, all four when decoding succeeds |
| Session.ScheduleSplits | custom_components/eversolar_pmu/eversolar_protocol.py:195-221 | the schedule is the two handshake requests followed by the later four |
| Session.PollFollowsSchedule | custom_components/eversolar_pmu/eversolar_protocol.py:186-222 | every poll sends a prefix of the six-frame schedule: at most INIT and `0x11 [00]`, with an error, when no identity is learned; at least three frames once it is |
| Session.ValuesSuccess | custom_components/eversolar_pmu/eversolar_protocol.py:208-243 | when steps 3 to 6 succeed, all four requests went out, four frames came back, and the result is decoded from the fourth |
| Session.PollOk | custom_components/eversolar_pmu/eversolar_protocol.py:186-243 | a successful poll is a successful handshake followed by successful later exchanges |
| Session.PollSuccessExchanges | custom_components/eversolar_pmu/eversolar_protocol.py:186-222 | a successful poll sent exactly the schedule and received six frames, the first two being the handshake's |
| Session.PollSuccessDecodes | custom_components/eversolar_pmu/eversolar_protocol.py:200-243 | a successful poll's result is the table and clock decoded from the sixth frame, with the code list and id of the second |
| Session.Exchange | custom_components/eversolar_pmu/eversolar_protocol.py:195-196 | send one frame, then read one: the frame is logged and the read is `FrameAt` of the stream |
| Session.Open | custom_components/eversolar_pmu/eversolar_protocol.py:186-202 | connect, INIT and the identity query give the handshake's outcome, send its requests, and leave the rest of the stream |
| Session.EversolarPMU.constructor | custom_components/eversolar_pmu/eversolar_protocol.py:155-161 | host and port are stored; no identity is known yet |
| Session.EversolarPMU.ConnectAndPoll | custom_components/eversolar_pmu/eversolar_protocol.py:181-308 | returns the reading of `Poll` and sends exactly its frames; stores the identity only when the handshake learned one and leaves it unchanged otherwise; the socket is closed on every path |
| Session.EversolarPMU.Exchanges | custom_components/eversolar_pmu/eversolar_protocol.py:186-306 | the body of the `try`: the outcome and frames of `Poll`, storing the identity right after it parses |
| Session.EversolarPMU.ExchangeValues | custom_components/eversolar_pmu/eversolar_protocol.py:208-243 | steps 3 to 6 give the outcome and frames of `Values` |
| Session.EversolarPMU.ExchangeKeepAlives | custom_components/eversolar_pmu/eversolar_protocol.py:208-218 | steps 3 to 5 read three frames, stopping at the first failure, and send one request per attempted read |

## Left out

- Socket timeouts (`settimeout`, the `timeout` argument): the model has no notion of time. A read that times out is not distinguished from the peer closing.
- `sendall` failures: sending always succeeds in the model.
- Host and port do not affect the model; whether the peer accepts the connection is the channel's `reachable` flag.
- The local clock and zone lookup (`datetime.now`, `ZoneInfo`, the `tz_name` and unused `set_time` arguments): the local time is a parameter of `PollPlan`.
- `pmu_time_utc` and `time_delta` need the host clock and `datetime` formatting; they are not modelled. The clock conversion is assumed to succeed, so the `except` branch that clears `pmu_epoch` is not modelled either.
- Floating point: scaled fields stay raw integers, with the divisor named in the field (`acDeciVolts`, `acCentiHz`, `energyTodayCentiKwh`, `energyTotalDeciKwh`). `round` is not modelled.
- `Telemetry.PvCurrentOf`: the fallback keeps the power and the PV voltage, not the rounded quotient `round(power_w / pv_v, 3)`.
- `pv_w_est` is not modelled, because it is a floating-point product.
- `raw_u16`: the reading keeps the value table keyed by code bytes, not by the formatted strings `"0x%02x"`.
- UTF-16 encoding of non-ASCII text, and `errors="ignore"`: both zone names are ASCII constants. `InitPayload.Utf16Le` covers ASCII only.
- Literal CRC values, such as the check value 0x31C3 of `"123456789"` or the exact trailer bytes of a given frame, are not evaluated. CRC correctness is stated by the residue property (`Framing.RequestCrcResidue`) and by the loop's equality with `Crc16.Crc`.
- `Session.PollPlan`: a string that no identity response can yield gets an empty value query. That case cannot occur, because `Session.Identify` only yields 16-character ASCII ids.
- Exception messages: errors are values of `Bytes.Error` carrying the numbers in the message, not the text.
- `test_connection` and `sync_time` are not part of this model. Neither are the integration's setup, coordinator and sensor files.
