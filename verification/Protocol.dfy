/** ST3215 packets: checksums, codecs, the SyncWrite builder and the reply parsers. */
module Protocol {
  import opened Arithmetic
  import opened Bytes
  import opened Outcome

  const HEADER: Byte := 0xFF
  const BROADCAST_ID: Byte := 0xFE
  const INSTRUCTION_SYNC_WRITE: Byte := 0x83
  const ACCELERATION_ADDRESS: Byte := 0x29
  const FEEDBACK_LENGTH: Byte := 15
  const SYNC_WRITE_LENGTH: Byte := 7

  type Int16 = x: int | -0x8000 <= x < 0x8000
  type UInt16 = x: int | 0 <= x < 0x1_0000

  // ---------------------------------------------------------------------------------- checksum

  function Sum(s: seq<Byte>): nat {
    if s == [] then 0 else Sum(s[..|s| - 1]) + s[|s| - 1]
  }

  lemma {:induction false} SumAppend(s: seq<Byte>, t: seq<Byte>)
    ensures Sum(s + t) == Sum(s) + Sum(t)
  {
    if t == [] {
      assert s + t == s;
    } else {
      assert (s + t)[..|s + t| - 1] == s + t[..|t| - 1];
      SumAppend(s, t[..|t| - 1]);
    }
  }

  lemma SumChange(s: seq<Byte>, i: nat, b: Byte)
    requires i < |s|
    ensures Sum(s[i := b]) == Sum(s) - s[i] + b
  {
    SumAppend(s[..i] + [s[i]], s[i + 1..]);
    SumAppend(s[..i], [s[i]]);
    SumAppend(s[..i] + [b], s[i + 1..]);
    SumAppend(s[..i], [b]);
    assert s == s[..i] + [s[i]] + s[i + 1..];
    assert s[i := b] == s[..i] + [b] + s[i + 1..];
  }

  // The low byte of the complemented sum. The source adds in 32 bits, a multiple of 8.
  function Checksum(body: seq<Byte>): (c: Byte)
    ensures (Sum(body) + c) % 256 == 255
  {
    255 - Sum(body) % 256
  }

  method ComputeChecksum(body: seq<Byte>) returns (c: Byte)
    ensures c == Checksum(body)
  {
    var sum: nat := 0;
    for i := 0 to |body|
      invariant sum == Sum(body[..i])
    {
      assert body[..i + 1][..i] == body[..i];
      sum := sum + body[i];
    }
    assert body[..|body|] == body;
    c := 255 - sum % 256;
  }

  // ----------------------------------------------------------------------------------- packets

  // The bytes of one packet: two headers, ID, length field, instruction (or, in a reply, the
  // status), parameters and checksum.
  function Packet(id: Byte, instruction: Byte, params: seq<Byte>): (p: seq<Byte>)
    requires |params| <= 253
    ensures |p| == |params| + 6
  {
    var body := [id, |params| + 2, instruction] + params;
    [HEADER, HEADER] + body + [Checksum(body)]
  }

  method BuildPacket(id: Byte, instruction: Byte, params: seq<Byte>) returns (r: Result<seq<Byte>>)
    ensures r.Ok? <==> |params| <= 253
    ensures r.Ok? ==> r.value == Packet(id, instruction, params)
  {
    if |params| > 253 {
      return Error("ST3215 packet parameter list is too large");
    }
    var body := [id, |params| + 2, instruction] + params;
    var checksum := ComputeChecksum(body);
    return Ok([HEADER, HEADER] + body + [checksum]);
  }

  predicate ValidFrame(frame: seq<Byte>) {
    |frame| >= 6 && frame[0] == HEADER && frame[1] == HEADER && Sum(frame[2..]) % 256 == 255
  }

  method ValidateFrameChecksum(frame: seq<Byte>) returns (ok: bool)
    ensures ok <==> ValidFrame(frame)
  {
    if |frame| < 6 || frame[0] != HEADER || frame[1] != HEADER {
      return false;
    }
    var sum: nat := 0;
    for i := 2 to |frame|
      invariant sum == Sum(frame[2..i])
    {
      assert frame[2..i + 1][..i - 2] == frame[2..i];
      sum := sum + frame[i];
    }
    assert frame[2..|frame|] == frame[2..];
    return sum % 256 == 255;
  }

  // Whether a frame's length field agrees with its size.
  predicate LengthAgrees(frame: seq<Byte>)
    requires |frame| >= 4
  {
    frame[3] == |frame| - 4
  }

  // Valid frames with an honest length field are exactly the packets.
  lemma FrameIsPacket(frame: seq<Byte>)
    requires |frame| >= 6 && LengthAgrees(frame)
    ensures ValidFrame(frame)
       <==> frame == Packet(frame[2], frame[4], frame[5..|frame| - 1])
  {
    hide Checksum, Sum;
    var last := |frame| - 1;
    var body := frame[2..last];
    assert body == [frame[2], |frame| - 4, frame[4]] + frame[5..last];
    SumWithLast(frame);
    OneChecksum(Sum(body), frame[last], Checksum(body));
    assert frame == frame[..2] + body + [frame[last]];
    assert frame[0] == HEADER && frame[1] == HEADER ==> frame[..2] == [HEADER, HEADER];
  }

  lemma SumWithLast(frame: seq<Byte>)
    requires |frame| >= 6
    ensures Sum(frame[2..]) == Sum(frame[2..|frame| - 1]) + frame[|frame| - 1]
  {
    var tail := frame[2..];
    assert tail[..|tail| - 1] == frame[2..|frame| - 1];
  }

  lemma OneChecksum(sum: nat, x: Byte, c: Byte)
    requires (sum + c) % 256 == 255
    ensures (sum + x) % 256 == 255 <==> x == c
  {
  }

  lemma PacketIsValid(id: Byte, instruction: Byte, params: seq<Byte>)
    requires |params| <= 253
    ensures ValidFrame(Packet(id, instruction, params))
    ensures LengthAgrees(Packet(id, instruction, params))
  {
    var p := Packet(id, instruction, params);
    assert p[5..|p| - 1] == params;
    FrameIsPacket(p);
  }

  // What the checksum cannot see: two frames with the same header pass or fail together exactly
  // when their sums agree modulo 256.
  lemma UndetectedChange(frame: seq<Byte>, other: seq<Byte>)
    requires ValidFrame(frame) && |other| >= 6 && other[..2] == frame[..2]
    ensures ValidFrame(other) <==> (Sum(other[2..]) - Sum(frame[2..])) % 256 == 0
  {
    assert other[0] == other[..2][0] && other[1] == other[..2][1];
  }

  // Every single-byte corruption of a valid frame, header included, is detected.
  lemma OneByteChangeDetected(frame: seq<Byte>, i: nat, b: Byte)
    requires ValidFrame(frame) && i < |frame| && b != frame[i]
    ensures !ValidFrame(frame[i := b])
  {
    if i >= 2 {
      hide ValidFrame, Sum;
      SumChange(frame[2..], i - 2, b);
      assert frame[i := b][2..] == frame[2..][i - 2 := b];
      assert frame[i := b][..2] == frame[..2];
      UndetectedChange(frame, frame[i := b]);
    }
  }

  // ------------------------------------------------------------------------------ signed codecs

  function EncodeSignedBit15(value: int): UInt16 {
    var magnitude := Clamp(if value < 0 then -value else value, 0, 0x7FFF);
    if value < 0 then magnitude + 0x8000 else magnitude
  }

  function DecodeSignedBit15(raw: UInt16): int {
    if raw >= 0x8000 then -(raw % 0x8000) else raw
  }

  function DecodeSignedBit10(raw: UInt16): int {
    if raw / 0x400 % 2 == 1 then -(raw % 0x400) else raw % 0x400
  }

  // Encoding saturates at 15 bits of magnitude and loses nothing else; decoding is undone by
  // encoding except for the second representation of zero.
  lemma SignedBit15RoundTrip(value: int, raw: UInt16)
    ensures DecodeSignedBit15(EncodeSignedBit15(value)) == Clamp(value, -0x7FFF, 0x7FFF)
    ensures EncodeSignedBit15(DecodeSignedBit15(raw)) == raw <==> raw != 0x8000
  {
  }

  function LowByte(word: UInt16): Byte { word % 256 }

  function HighByte(word: UInt16): Byte { word / 256 }

  function LittleEndian(lo: Byte, hi: Byte): UInt16 { lo + 256 * hi }

  // ------------------------------------------------------------------------------- sync writes

  datatype Target = Target(id: Byte, position: Int16, speed: UInt16, acceleration: Byte)

  function TargetBytes(t: Target): (s: seq<Byte>)
    ensures |s| == 8
  {
    var position := EncodeSignedBit15(t.position);
    [t.id, t.acceleration, LowByte(position), HighByte(position), 0, 0,
     LowByte(t.speed), HighByte(t.speed)]
  }

  function SyncWriteBody(targets: seq<Target>): (s: seq<Byte>)
    ensures |s| == 8 * |targets|
  {
    if targets == [] then []
    else SyncWriteBody(targets[..|targets| - 1]) + TargetBytes(targets[|targets| - 1])
  }

  function SyncWritePacket(targets: seq<Target>): seq<Byte>
    requires 1 <= |targets| <= 31
  {
    Packet(BROADCAST_ID, INSTRUCTION_SYNC_WRITE,
           [ACCELERATION_ADDRESS, SYNC_WRITE_LENGTH] + SyncWriteBody(targets))
  }

  method BuildSyncWritePositionEx(targets: seq<Target>) returns (r: Result<seq<Byte>>)
    ensures r.Ok? <==> 1 <= |targets| <= 31
    ensures r.Ok? ==> r.value == SyncWritePacket(targets)
  {
    if |targets| == 0 {
      return Error("SyncWrite requires at least one target");
    }
    if |targets| > 31 {
      return Error("Too many targets for an 8-bit ST3215 packet length");
    }
    var params := [ACCELERATION_ADDRESS, SYNC_WRITE_LENGTH];
    for i := 0 to |targets|
      invariant params == [ACCELERATION_ADDRESS, SYNC_WRITE_LENGTH] + SyncWriteBody(targets[..i])
    {
      var encoded := EncodeSignedBit15(targets[i].position);
      assert targets[..i + 1][..i] == targets[..i];
      params := params + [targets[i].id];
      params := params + [targets[i].acceleration];
      params := params + [LowByte(encoded)];
      params := params + [HighByte(encoded)];
      params := params + [0x00];
      params := params + [0x00];
      params := params + [LowByte(targets[i].speed)];
      params := params + [HighByte(targets[i].speed)];
    }
    assert targets[..|targets|] == targets;
    r := BuildPacket(BROADCAST_ID, INSTRUCTION_SYNC_WRITE, params);
  }

  // What a servo on the bus reads out of a SyncWrite packet: the reference the builder is
  // measured against.
  function DecodeTarget(s: seq<Byte>): Target
    requires |s| == 8
  {
    var position := DecodeSignedBit15(LittleEndian(s[2], s[3]));
    Target(s[0], position, LittleEndian(s[6], s[7]), s[1])
  }

  function DecodeTargets(s: seq<Byte>): Result<seq<Target>> {
    if |s| == 0 then Ok([])
    else if |s| < 8 then Error("partial target")
    else
      match DecodeTargets(s[8..])
      case Ok(rest) => Ok([DecodeTarget(s[..8])] + rest)
      case Error(reason) => Error(reason)
  }

  function DecodeSyncWrite(packet: seq<Byte>): Result<seq<Target>> {
    if !ValidFrame(packet) || !LengthAgrees(packet) then Error("invalid frame")
    else if packet[2] != BROADCAST_ID || packet[4] != INSTRUCTION_SYNC_WRITE then Error("other packet")
    else if |packet| < 8 || packet[5] != ACCELERATION_ADDRESS || packet[6] != SYNC_WRITE_LENGTH then
      Error("other registers")
    else DecodeTargets(packet[7..|packet| - 1])
  }

  // The one position a 15-bit magnitude cannot carry is -32768, sent as -32767.
  function Representable(t: Target): Target {
    t.(position := Clamp(t.position, -0x7FFF, 0x7FFF))
  }

  function RepresentableAll(targets: seq<Target>): (s: seq<Target>)
    ensures |s| == |targets|
    ensures forall i :: 0 <= i < |s| ==> s[i] == Representable(targets[i])
  {
    seq(|targets|, i requires 0 <= i < |targets| => Representable(targets[i]))
  }

  lemma WordRoundTrip(word: UInt16)
    ensures LittleEndian(LowByte(word), HighByte(word)) == word
  {
  }

  lemma TargetRoundTrip(t: Target)
    ensures DecodeTarget(TargetBytes(t)) == Representable(t)
  {
    hide LittleEndian, LowByte, HighByte, DecodeSignedBit15, EncodeSignedBit15;
    WordRoundTrip(EncodeSignedBit15(t.position));
    WordRoundTrip(t.speed);
    SignedBit15RoundTrip(t.position, 0);
  }

  lemma {:induction false} TargetsRoundTrip(targets: seq<Target>)
    ensures DecodeTargets(SyncWriteBody(targets)) == Ok(RepresentableAll(targets))
  {
    hide DecodeTarget, TargetBytes, Representable;
    if targets == [] {
    } else {
      SyncWriteBodyFirst(targets);
      var s := SyncWriteBody(targets);
      assert s[..8] == TargetBytes(targets[0]) && s[8..] == SyncWriteBody(targets[1..]);
      TargetRoundTrip(targets[0]);
      TargetsRoundTrip(targets[1..]);
      assert RepresentableAll(targets) == [Representable(targets[0])] + RepresentableAll(targets[1..]);
    }
  }

  lemma {:induction false} SyncWriteBodyFirst(targets: seq<Target>)
    requires targets != []
    ensures SyncWriteBody(targets) == TargetBytes(targets[0]) + SyncWriteBody(targets[1..])
  {
    hide TargetBytes;
    if |targets| > 1 {
      var front := targets[..|targets| - 1];
      SyncWriteBodyFirst(front);
      assert front[1..] == targets[1..][..|targets| - 2];
    } else {
      assert targets[..0] == [] == targets[1..];
    }
  }

  // 1 to 31 targets fit the length byte, and the packet decodes to the very targets sent, unless
  // one of them asks for position -32768.
  lemma SyncWriteRoundTrip(targets: seq<Target>)
    requires 1 <= |targets| <= 31
    ensures |SyncWritePacket(targets)| == 8 * |targets| + 8
    ensures ValidFrame(SyncWritePacket(targets)) && LengthAgrees(SyncWritePacket(targets))
    ensures DecodeSyncWrite(SyncWritePacket(targets)) == Ok(RepresentableAll(targets))
    ensures DecodeSyncWrite(SyncWritePacket(targets)) == Ok(targets)
       <==> forall i :: 0 <= i < |targets| ==> targets[i].position != -0x8000
  {
    hide ValidFrame, DecodeTargets, SyncWriteBody, Checksum;
    var params := [ACCELERATION_ADDRESS, SYNC_WRITE_LENGTH] + SyncWriteBody(targets);
    PacketIsValid(BROADCAST_ID, INSTRUCTION_SYNC_WRITE, params);
    var p := SyncWritePacket(targets);
    assert p[7..|p| - 1] == SyncWriteBody(targets);
    TargetsRoundTrip(targets);
    var sent := RepresentableAll(targets);
    if forall i :: 0 <= i < |targets| ==> targets[i].position != -0x8000 {
      assert sent == targets;
    } else {
      var i :| 0 <= i < |targets| && targets[i].position == -0x8000;
      assert sent[i] != targets[i];
    }
  }

  // A little-endian word, and what it means in a signed register: a magnitude below the sign bit.
  ghost function WordOf(lo: int, hi: int): int { lo + 256 * hi }

  ghost predicate SignAndMagnitude(word: int, signBit: int, value: int) {
    if value > 0 then word == value
    else if value < 0 then word == signBit - value
    else word == 0 || word == signBit
  }

  // The bytes of the packet: a write of seven registers from 0x29 on, by every servo addressed; for
  // each its ID, acceleration, position with the sign in bit 15, no goal time, and speed.
  lemma SyncWriteLayout(targets: seq<Target>, i: nat)
    requires i < |targets| <= 31
    ensures
      var p, n, t := SyncWritePacket(targets), |targets|, targets[i];
      var k := 7 + 8 * i;
      && |p| == 8 * n + 8 && p[..7] == [0xFF, 0xFF, 0xFE, 8 * n + 4, 0x83, 0x29, 7]
      && p[k] == t.id && p[k + 1] == t.acceleration
      && SignAndMagnitude(WordOf(p[k + 2], p[k + 3]), 0x8000,
                          if t.position == -0x8000 then -0x7FFF else t.position)
      && p[k + 4] == p[k + 5] == 0 && WordOf(p[k + 6], p[k + 7]) == t.speed
  {
    hide SyncWritePacket, SyncWriteBody, SignAndMagnitude, WordOf, TargetBytes;
    var p, body, k := SyncWritePacket(targets), SyncWriteBody(targets), 7 + 8 * i;
    SyncWriteParts(targets);
    BodyPart(targets, i);
    forall m | 0 <= m < 8 ensures p[k + m] == TargetBytes(targets[i])[m] {
      assert body[8 * i..8 * i + 8][m] == body[8 * i + m];
    }
    TargetLayout(targets[i]);
  }

  lemma SyncWriteParts(targets: seq<Target>)
    requires 1 <= |targets| <= 31
    ensures var p, n := SyncWritePacket(targets), |targets|;
            && |p| == 8 * n + 8 && p[..7] == [0xFF, 0xFF, 0xFE, 8 * n + 4, 0x83, 0x29, 7]
            && forall m :: 0 <= m < 8 * n ==> p[7 + m] == SyncWriteBody(targets)[m]
  {
    hide Checksum, SyncWriteBody;
  }

  lemma TargetLayout(t: Target)
    ensures
      var b := TargetBytes(t);
      && b[0] == t.id && b[1] == t.acceleration && b[4] == b[5] == 0
      && SignAndMagnitude(WordOf(b[2], b[3]), 0x8000,
                          if t.position == -0x8000 then -0x7FFF else t.position)
      && WordOf(b[6], b[7]) == t.speed
  {
    hide SignAndMagnitude, EncodeSignedBit15, LowByte, HighByte;
    WordRoundTrip(EncodeSignedBit15(t.position));
    WordRoundTrip(t.speed);
    PositionWord(t.position);
  }

  lemma PositionWord(position: Int16)
    ensures SignAndMagnitude(EncodeSignedBit15(position), 0x8000,
                             if position == -0x8000 then -0x7FFF else position)
  {
  }

  lemma {:induction false} BodyPart(targets: seq<Target>, i: nat)
    requires i < |targets|
    ensures SyncWriteBody(targets)[8 * i..8 * i + 8] == TargetBytes(targets[i])
  {
    hide TargetBytes;
    var front := targets[..|targets| - 1];
    if i < |front| {
      BodyPart(front, i);
    }
  }

  // ------------------------------------------------------------------------------------ replies

  // The parser of any read reply: expected size, header, ID, length byte and checksum, in order.
  // Lengths beyond 253 do not fit the length byte, which the source then compares truncated.
  method ParseReadReply(frame: seq<Byte>, expectedId: Byte, expectedLength: nat)
    returns (r: Result<(Byte, seq<Byte>)>)
    ensures r.Ok? <==> |frame| == expectedLength + 6 && ValidFrame(frame) && frame[2] == expectedId
                       && frame[3] == (expectedLength + 2) % 256
    ensures r.Ok? ==> |r.value.1| == expectedLength
    ensures r.Ok? && expectedLength <= 253 ==>
              frame == Packet(expectedId, r.value.0, r.value.1)
    ensures r.Error? && expectedLength <= 253 ==>
              forall status: Byte, data: seq<Byte> | |data| == expectedLength ::
                frame != Packet(expectedId, status, data)
  {
    hide Checksum;
    if |frame| != expectedLength + 6 {
      return Error("read reply has unexpected frame size");
    }
    if expectedLength <= 253 {
      FrameShape(frame, expectedId);
    }
    if frame[0] != HEADER || frame[1] != HEADER {
      return Error("invalid frame header");
    }
    if frame[2] != expectedId {
      return Error("reply servo ID does not match request");
    }
    if frame[3] != (expectedLength + 2) % 256 {
      return Error("unexpected reply length field");
    }
    var valid := ValidateFrameChecksum(frame);
    if !valid {
      return Error("checksum mismatch");
    }
    return Ok((frame[4], frame[5..|frame| - 1]));
  }

  // A frame is a packet from an ID exactly when it is valid, honest about its length and names it.
  lemma FrameShape(frame: seq<Byte>, id: Byte)
    requires 6 <= |frame| <= 259
    ensures (exists status: Byte, data: seq<Byte> {:trigger Packet(id, status, data)} ::
               |data| == |frame| - 6 && frame == Packet(id, status, data))
       <==> ValidFrame(frame) && LengthAgrees(frame) && frame[2] == id
    ensures ValidFrame(frame) && LengthAgrees(frame) && frame[2] == id
        ==> frame == Packet(id, frame[4], frame[5..|frame| - 1])
    ensures ValidFrame(frame) ==> frame[0] == HEADER && frame[1] == HEADER
  {
    if LengthAgrees(frame) {
      FrameIsPacket(frame);
    }
    if status: Byte, data: seq<Byte> {:trigger Packet(id, status, data)} :|
         |data| == |frame| - 6 && frame == Packet(id, status, data) {
      PacketIsValid(id, status, data);
    }
  }

  datatype Feedback = Feedback(
    id: Byte, statusError: Byte, position: int, speed: int, load: int, voltage: Byte,
    temperature: Byte, servoStatus: Byte, moving: bool, current: int)

  method ParsePresentFeedbackReply(frame: seq<Byte>, expectedId: Byte) returns (r: Result<Feedback>)
    ensures r.Ok? <==> exists status: Byte, data: seq<Byte> {:trigger Packet(expectedId, status, data)} ::
                |data| == FEEDBACK_LENGTH && frame == Packet(expectedId, status, data)
    ensures r.Ok? ==> frame == Packet(expectedId, r.value.statusError, frame[5..|frame| - 1])
    ensures r.Ok? ==>
              r.value == DecodeFeedback(expectedId, r.value.statusError, frame[5..|frame| - 1])
  {
    hide ValidFrame, Checksum;
    if |frame| != FEEDBACK_LENGTH + 6 {
      return Error("present-feedback reply must be exactly 21 bytes");
    }
    FrameShape(frame, expectedId);
    if frame[0] != HEADER || frame[1] != HEADER {
      return Error("invalid frame header");
    }
    if frame[2] != expectedId {
      return Error("reply servo ID does not match request");
    }
    if frame[3] != FEEDBACK_LENGTH + 2 {
      return Error("unexpected reply length field");
    }
    var valid := ValidateFrameChecksum(frame);
    if !valid {
      return Error("checksum mismatch");
    }
    return Ok(Feedback(
      frame[2], frame[4],
      DecodeSignedBit15(LittleEndian(frame[5], frame[6])),
      DecodeSignedBit15(LittleEndian(frame[7], frame[8])),
      DecodeSignedBit10(LittleEndian(frame[9], frame[10])),
      frame[11], frame[12], frame[14], frame[15] != 0,
      DecodeSignedBit15(LittleEndian(frame[18], frame[19]))));
  }

  // The registers 0x38 to 0x46 read as feedback.
  function DecodeFeedback(id: Byte, status: Byte, data: seq<Byte>): Feedback
    requires |data| == 15
  {
    Feedback(
      id, status,
      DecodeSignedBit15(LittleEndian(data[0], data[1])),
      DecodeSignedBit15(LittleEndian(data[2], data[3])),
      DecodeSignedBit10(LittleEndian(data[4], data[5])),
      data[6], data[7], data[9], data[10] != 0,
      DecodeSignedBit15(LittleEndian(data[13], data[14])))
  }

  // Where in the reply the fields come from, and with what signs: bit 15 of the words, but bit 10 of
  // the load, whose higher bits are ignored.
  lemma FeedbackLayout(id: Byte, status: Byte, data: seq<Byte>)
    requires |data| == 15
    ensures
      var p, f := Packet(id, status, data), DecodeFeedback(id, status, data);
      && p[..5] == [0xFF, 0xFF, id, 17, status] && f.id == id && f.statusError == status
      && SignAndMagnitude(WordOf(p[5], p[6]), 0x8000, f.position)
      && SignAndMagnitude(WordOf(p[7], p[8]), 0x8000, f.speed)
      && SignAndMagnitude(WordOf(p[9], p[10]) % 0x800, 0x400, f.load)
      && f.voltage == p[11] && f.temperature == p[12] && f.servoStatus == p[14]
      && (f.moving <==> p[15] != 0)
      && SignAndMagnitude(WordOf(p[18], p[19]), 0x8000, f.current)
  {
    hide SignAndMagnitude, Checksum, WordOf;
    SignedWords(data[0], data[1]);
    SignedWords(data[2], data[3]);
    SignedWords(data[4], data[5]);
    SignedWords(data[13], data[14]);
  }

  lemma SignedWords(lo: Byte, hi: Byte)
    ensures SignAndMagnitude(WordOf(lo, hi), 0x8000, DecodeSignedBit15(LittleEndian(lo, hi)))
    ensures SignAndMagnitude(WordOf(lo, hi) % 0x800, 0x400, DecodeSignedBit10(LittleEndian(lo, hi)))
  {
  }

  // The load register: a 10-bit magnitude and the sign above it.
  function EncodeSignedBit10(value: int): UInt16 {
    Clamp(if value < 0 then -value else value, 0, 0x3FF) + if value < 0 then 0x400 else 0
  }

  lemma SignedBit10RoundTrip(value: int)
    ensures DecodeSignedBit10(EncodeSignedBit10(value)) == Clamp(value, -0x3FF, 0x3FF)
  {
  }

  // A servo that measures these values fills its registers like this. `other` stands for the
  // three registers the driver does not read, and `movingByte` for any non-zero moving flag.
  function FeedbackRegisters(f: Feedback, other: (Byte, Byte, Byte), movingByte: Byte): (s: seq<Byte>)
    ensures |s| == 15
  {
    var position, speed, current :=
      EncodeSignedBit15(f.position), EncodeSignedBit15(f.speed), EncodeSignedBit15(f.current);
    var load := EncodeSignedBit10(f.load);
    [LowByte(position), HighByte(position), LowByte(speed), HighByte(speed),
     LowByte(load), HighByte(load), f.voltage, f.temperature, other.0, f.servoStatus,
     if f.moving then movingByte else 0, other.1, other.2, LowByte(current), HighByte(current)]
  }

  predicate Measurable(f: Feedback) {
    && -0x7FFF <= f.position <= 0x7FFF && -0x7FFF <= f.speed <= 0x7FFF
    && -0x3FF <= f.load <= 0x3FF && -0x7FFF <= f.current <= 0x7FFF
  }

  lemma FeedbackRoundTrip(f: Feedback, other: (Byte, Byte, Byte), movingByte: Byte)
    requires Measurable(f) && movingByte != 0
    ensures DecodeFeedback(f.id, f.statusError, FeedbackRegisters(f, other, movingByte)) == f
  {
    hide LittleEndian, LowByte, HighByte, EncodeSignedBit15, DecodeSignedBit15, EncodeSignedBit10,
         DecodeSignedBit10;
    SignedBit15RoundTrip(f.position, 0);
    SignedBit15RoundTrip(f.speed, 0);
    SignedBit15RoundTrip(f.current, 0);
    SignedBit10RoundTrip(f.load);
    WordRoundTrip(EncodeSignedBit15(f.position));
    WordRoundTrip(EncodeSignedBit15(f.speed));
    WordRoundTrip(EncodeSignedBit10(f.load));
    WordRoundTrip(EncodeSignedBit15(f.current));
  }
}
