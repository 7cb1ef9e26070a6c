/** Frame extraction from the UART byte stream, and reading one reply. */
module SerialFrames {
  import opened Bytes
  import opened Protocol

  datatype Event = Frame(bytes: seq<Byte>) | Malformed | NeedMore

  predicate StartsFrame(buffer: seq<Byte>) {
    |buffer| >= 2 && buffer[0] == HEADER && buffer[1] == HEADER
  }

  // Bytes in front of the first header pair are dropped; a lone last byte is kept.
  function Skip(buffer: seq<Byte>): (rest: seq<Byte>)
    ensures |rest| <= |buffer|
    ensures StartsFrame(rest) || |rest| < 2
  {
    if |buffer| >= 2 && !StartsFrame(buffer) then Skip(buffer[1..]) else buffer
  }

  // One call of extractFrame: what it reports and what stays in the buffer.
  function Extract(buffer: seq<Byte>): (r: (Event, seq<Byte>))
    ensures |r.1| <= |buffer|
    ensures r.0 != NeedMore ==> |r.1| < |buffer|
  {
    var b := Skip(buffer);
    if |b| < 4 then (NeedMore, b)
    else
      var size: nat := b[3] as int + 4;
      if size < 6 then (Malformed, b[1..])
      else if |b| < size then (NeedMore, b)
      else (Frame(b[..size]), b[size..])
  }

  // Repeated extraction until the buffer holds no complete event.
  function Drain(buffer: seq<Byte>): (r: (seq<Event>, seq<Byte>))
    decreases |buffer|
  {
    var (e, rest) := Extract(buffer);
    if e == NeedMore then ([], rest)
    else
      var (es, left) := Drain(rest);
      ([e] + es, left)
  }

  function Concat(chunks: seq<seq<Byte>>): seq<Byte> {
    if chunks == [] then [] else chunks[0] + Concat(chunks[1..])
  }

  // Extraction as it happens: drain after each chunk that arrives.
  function DrainChunks(buffer: seq<Byte>, chunks: seq<seq<Byte>>): (seq<Event>, seq<Byte>)
    decreases |chunks|
  {
    if chunks == [] then Drain(buffer)
    else
      var (es, left) := Drain(buffer);
      var (fs, last) := DrainChunks(left + chunks[0], chunks[1..]);
      (es + fs, last)
  }

  // ------------------------------------------------------------------------ chunk independence

  lemma {:induction false} SkipAppend(b: seq<Byte>, c: seq<Byte>)
    ensures Skip(b + c) == Skip(Skip(b) + c)
    ensures StartsFrame(Skip(b)) ==> Skip(b + c) == Skip(b) + c
  {
    if |b| >= 2 && !StartsFrame(b) {
      assert (b + c)[1..] == b[1..] + c;
      SkipAppend(b[1..], c);
    }
  }

  // More input never changes an event already there, and never depends on when garbage went.
  lemma ExtractAppend(b: seq<Byte>, c: seq<Byte>)
    ensures Extract(b).0 != NeedMore ==> Extract(b + c) == (Extract(b).0, Extract(b).1 + c)
    ensures Extract(b).0 == NeedMore ==> Extract(b + c) == Extract(Extract(b).1 + c)
  {
    hide Skip;
    SkipAppend(b, c);
    var s := Skip(b);
    if Extract(b).0 != NeedMore {
      assert (s + c)[1..] == s[1..] + c;
      var size: nat := s[3] as int + 4;
      if |s| >= size {
        assert (s + c)[..size] == s[..size] && (s + c)[size..] == s[size..] + c;
      }
    }
  }

  lemma {:induction false} DrainAppend(b: seq<Byte>, c: seq<Byte>)
    ensures Drain(b + c) == (Drain(b).0 + Drain(Drain(b).1 + c).0, Drain(Drain(b).1 + c).1)
    decreases |b|
  {
    hide Extract;
    ExtractAppend(b, c);
    var (e, rest) := Extract(b);
    if e == NeedMore {
      var joined := rest + c;
      assert Drain(b + c) == Drain(joined);
      assert [] + Drain(joined).0 == Drain(joined).0;
    } else {
      DrainAppend(rest, c);
      assert [e] + (Drain(rest).0 + Drain(Drain(rest).1 + c).0)
          == [e] + Drain(rest).0 + Drain(Drain(rest).1 + c).0;
    }
  }

  // Whatever the split of the stream, the same frames, malformed events and leftover come out.
  lemma {:induction false} ChunkIndependent(buffer: seq<Byte>, chunks: seq<seq<Byte>>)
    ensures DrainChunks(buffer, chunks) == Drain(buffer + Concat(chunks))
    decreases |chunks|
  {
    hide Drain;
    if chunks == [] {
      assert buffer + [] == buffer;
    } else {
      var left := Drain(buffer).1;
      ChunkIndependent(left + chunks[0], chunks[1..]);
      var rest := chunks[0] + Concat(chunks[1..]);
      assert left + chunks[0] + Concat(chunks[1..]) == left + rest;
      DrainAppend(buffer, rest);
    }
  }

  lemma SplitsAgree(buffer: seq<Byte>, some: seq<seq<Byte>>, other: seq<seq<Byte>>)
    requires Concat(some) == Concat(other)
    ensures DrainChunks(buffer, some) == DrainChunks(buffer, other)
  {
    ChunkIndependent(buffer, some);
    ChunkIndependent(buffer, other);
  }

  // ---------------------------------------------------------------------- what a frame event is

  lemma {:induction false} SkipStopsAtFirstHeader(b: seq<Byte>) returns (k: nat)
    ensures k <= |b| && Skip(b) == b[k..]
    ensures forall i :: 0 <= i < k ==> !StartsFrame(b[i..])
  {
    if |b| >= 2 && !StartsFrame(b) {
      var j := SkipStopsAtFirstHeader(b[1..]);
      k := j + 1;
      assert b[1..][j..] == b[k..];
      forall i | 0 <= i < k ensures !StartsFrame(b[i..]) {
        if i > 0 {
          assert b[1..][i - 1..] == b[i..];
        }
      }
    } else {
      k := 0;
    }
  }

  // An extracted frame is an unbroken slice of the stream that starts at its first header pair,
  // is as long as its own length field says, and is followed by exactly what stays buffered.
  lemma ExtractedFrameIsSlice(b: seq<Byte>) returns (k: nat)
    requires Extract(b).0.Frame?
    ensures var f := Extract(b).0.bytes;
            && k + |f| <= |b| && f == b[k..k + |f|] && Extract(b).1 == b[k + |f|..]
            && StartsFrame(f) && 6 <= |f| <= 259 && LengthAgrees(f)
    ensures forall i :: 0 <= i < k ==> !StartsFrame(b[i..])
  {
    k := SkipStopsAtFirstHeader(b);
  }

  // ----------------------------------------------------------------------------- sent and found

  lemma ExtractPacket(id: Byte, instruction: Byte, params: seq<Byte>, rest: seq<Byte>)
    requires |params| <= 253
    ensures Extract(Packet(id, instruction, params) + rest)
         == (Frame(Packet(id, instruction, params)), rest)
  {
    hide Checksum;
    var p := Packet(id, instruction, params);
    var b := p + rest;
    assert StartsFrame(b) && Skip(b) == b && b[3] == |params| + 2;
    assert b[..|p|] == p && b[|p|..] == rest;
  }

  datatype Command = Command(id: Byte, instruction: Byte, params: seq<Byte>)

  predicate Sendable(c: Command) { |c.params| <= 253 }

  function Wire(c: Command): seq<Byte>
    requires Sendable(c)
  {
    Packet(c.id, c.instruction, c.params)
  }

  function Stream(cs: seq<Command>): seq<Byte>
    requires forall c | c in cs :: Sendable(c)
  {
    if cs == [] then [] else Wire(cs[0]) + Stream(cs[1..])
  }

  function Frames(cs: seq<Command>): (es: seq<Event>)
    requires forall c | c in cs :: Sendable(c)
    ensures |es| == |cs|
  {
    if cs == [] then [] else [Frame(Wire(cs[0]))] + Frames(cs[1..])
  }

  lemma {:induction false} PacketsDecode(cs: seq<Command>)
    requires forall c | c in cs :: Sendable(c)
    ensures Drain(Stream(cs)) == (Frames(cs), [])
  {
    hide Packet;
    if cs != [] {
      assert Sendable(cs[0]);
      ExtractPacket(cs[0].id, cs[0].instruction, cs[0].params, Stream(cs[1..]));
      PacketsDecode(cs[1..]);
    }
  }

  // Line noise the resynchronisation copes with.
  predicate Harmless(noise: seq<Byte>) {
    && (forall i :: 0 <= i < |noise| - 1 ==> !(noise[i] == HEADER && noise[i + 1] == HEADER))
    && (noise != [] ==> noise[|noise| - 1] != HEADER)
  }

  lemma {:induction false} SkipNoise(noise: seq<Byte>, b: seq<Byte>)
    requires Harmless(noise) && StartsFrame(b)
    ensures Skip(noise + b) == b
  {
    if noise == [] {
      assert noise + b == b;
    } else {
      var all := noise + b;
      assert all[1] == if |noise| > 1 then noise[1] else b[0];
      assert all[1..] == noise[1..] + b;
      SkipNoise(noise[1..], b);
    }
  }

  // Any packets, in any chunks, after any harmless noise, come out as exactly those packets.
  lemma NoisyPacketsDecode(noise: seq<Byte>, cs: seq<Command>, chunks: seq<seq<Byte>>)
    requires forall c | c in cs :: Sendable(c)
    requires Harmless(noise) && cs != []
    requires Concat(chunks) == noise + Stream(cs)
    ensures DrainChunks([], chunks) == (Frames(cs), [])
  {
    hide Packet, Harmless, Drain;
    var b := Stream(cs);
    ChunkIndependent([], chunks);
    assert [] + Concat(chunks) == noise + b;
    assert Sendable(cs[0]);
    assert StartsFrame(Wire(cs[0])) by {
      PacketIsValid(cs[0].id, cs[0].instruction, cs[0].params);
    }
    assert StartsFrame(b);
    SkipNoise(noise, b);
    assert Skip(b) == b;
    DrainDependsOnSkip(noise + b, b);
    PacketsDecode(cs);
  }

  lemma DrainDependsOnSkip(b: seq<Byte>, c: seq<Byte>)
    requires Skip(b) == Skip(c)
    ensures Drain(b) == Drain(c)
  {
  }

  // A stray header byte in front of a packet is not noise of that kind. Whatever follows, a packet
  // with an ID below 2 still comes out whole; any other ID is taken for a length, and the first
  // thing cut off is the packet only if all of it is header bytes.
  lemma StrayHeader(c: Command, rest: seq<Byte>)
    requires Sendable(c)
    ensures var b := [HEADER] + Wire(c) + rest;
            && (c.id < 2 ==>
                  Drain(b) == ([Malformed, Frame(Wire(c))] + Drain(rest).0, Drain(rest).1))
            && (c.id >= 2 ==>
                  Extract(b).0 == if |b| < 4 + c.id then NeedMore else Frame(b[..4 + c.id]))
            && (Extract(b).0 == Frame(Wire(c)) ==> forall i :: 0 <= i < |Wire(c)| ==> Wire(c)[i] == HEADER)
  {
    hide Checksum, Drain;
    var p := Wire(c);
    var b := [HEADER] + p + rest;
    assert b[1..] == p + rest;
    assert StartsFrame(b) && Skip(b) == b && b[3] == c.id;
    if c.id < 2 {
      assert Extract(b) == (Malformed, p + rest);
      ExtractPacket(c.id, c.instruction, c.params, rest);
      DrainFirst(b);
      DrainFirst(p + rest);
      assert [Malformed] + ([Frame(p)] + Drain(rest).0) == [Malformed, Frame(p)] + Drain(rest).0;
    } else if Extract(b).0 == Frame(p) {
      var size := 4 + c.id;
      assert b[..size] == p;
      forall i | 0 <= i < |p| - 1 ensures p[i + 1] == p[i] {
        assert b[..size][i + 1] == p[i];
      }
      AllSame(p);
    }
  }

  lemma DrainFirst(b: seq<Byte>)
    requires Extract(b).0 != NeedMore
    ensures Drain(b) == ([Extract(b).0] + Drain(Extract(b).1).0, Drain(Extract(b).1).1)
  {
  }

  // With nothing behind it the packet comes out whole if and only if its ID is below 2 or all of
  // it is header bytes.
  lemma StrayHeaderAlone(c: Command)
    requires Sendable(c)
    ensures Frame(Wire(c)) in Drain([HEADER] + Wire(c)).0
       <==> c.id < 2 || (forall i :: 0 <= i < |Wire(c)| ==> Wire(c)[i] == HEADER)
  {
    hide Wire, Drain, Extract;
    if c.id < 2 {
      StrayHeader(c, []);
      assert [HEADER] + Wire(c) + [] == [HEADER] + Wire(c);
      assert Drain([HEADER] + Wire(c)).0[1] == Frame(Wire(c));
    } else {
      StrayHeaderSwallows(c);
    }
  }

  lemma StrayHeaderSwallows(c: Command)
    requires Sendable(c) && c.id >= 2
    ensures Frame(Wire(c)) in Drain([HEADER] + Wire(c)).0
       <==> (forall i :: 0 <= i < |Wire(c)| ==> Wire(c)[i] == HEADER)
  {
    hide Checksum;
    var p := Wire(c);
    var b := [HEADER] + p;
    var size: nat := 4 + c.id;
    assert StartsFrame(b) && Skip(b) == b && b[3] == c.id;
    if |b| < size {
      assert Drain(b).0 == [];
      assert p[3] == |c.params| + 2;
    } else {
      assert Extract(b) == (Frame(b[..size]), b[size..]);
      DrainedFramesFit(b[size..]);
      assert |b[size..]| < |p|;
      assert Frame(p) !in Drain(b[size..]).0;
      assert (forall i :: 0 <= i < |p| ==> p[i] == HEADER) ==> p[3] == HEADER && b[..size] == p;
      if b[..size] == p {
        assert forall i :: 0 <= i < |p| - 1 ==> p[i + 1] == p[i] by {
          forall i | 0 <= i < |p| - 1 ensures p[i + 1] == p[i] {
            assert b[..size][i + 1] == p[i];
          }
        }
        AllSame(p);
      }
    }
  }

  lemma {:induction false} AllSame(p: seq<Byte>)
    requires |p| > 0 && forall i :: 0 <= i < |p| - 1 ==> p[i + 1] == p[i]
    ensures forall i :: 0 <= i < |p| ==> p[i] == p[0]
  {
    if |p| > 1 {
      AllSame(p[..|p| - 1]);
      assert p[|p| - 2 + 1] == p[|p| - 2] == p[..|p| - 1][|p| - 2];
    }
  }

  lemma {:induction false} DrainedFramesFit(b: seq<Byte>)
    ensures forall e | e in Drain(b).0 :: e.Frame? ==> |e.bytes| <= |b|
    decreases |b|
  {
    var (e, rest) := Extract(b);
    if e != NeedMore {
      DrainedFramesFit(rest);
    }
  }

  // -------------------------------------------------------------------------------- the reader

  datatype IoStatus = IoOk | Timeout | ChecksumError | MalformedFrame | WrongServoId | IoError

  // What one pass of readFrame's loop meets when no event is buffered: bytes (possibly none), a
  // poll that times out or fails, or a read that fails after some bytes.
  datatype Arrival = Data(bytes: seq<Byte>) | PollTimeout | PollError | ReadError(bytes: seq<Byte>)

  function Classify(e: Event, expectedId: Byte): IoStatus
    requires e != NeedMore && (e.Frame? ==> |e.bytes| >= 6)
  {
    match e
    case Malformed => MalformedFrame
    case Frame(f) =>
      if !ValidFrame(f) then ChecksumError else if f[2] != expectedId then WrongServoId else IoOk
  }

  lemma ExtractedFrameSize(b: seq<Byte>)
    ensures Extract(b).0.Frame? ==> |Extract(b).0.bytes| >= 6
  {
  }

  // readFrame on the bytes already buffered: status, frame and what stays buffered. The deadline
  // passes once the arrivals are used up, and is checked before extraction.
  function ReadOutcome(buffer: seq<Byte>, arrivals: seq<Arrival>, expectedId: Byte)
    : (IoStatus, seq<Byte>, seq<Byte>)
    decreases |arrivals|
  {
    if arrivals == [] then (Timeout, [], buffer)
    else
      var (e, rest) := Extract(buffer);
      ExtractedFrameSize(buffer);
      if e != NeedMore then (Classify(e, expectedId), if e.Frame? then e.bytes else [], rest)
      else
        match arrivals[0]
        case PollTimeout => (Timeout, [], rest)
        case PollError => (IoError, [], rest)
        case ReadError(bytes) => (IoError, [], rest + bytes)
        case Data(bytes) => ReadOutcome(rest + bytes, arrivals[1..], expectedId)
  }

  // The bytes that all those passes deliver.
  function Delivered(arrivals: seq<Arrival>): seq<Byte> {
    if arrivals == [] then []
    else
      match arrivals[0]
      case Data(bytes) => bytes + Delivered(arrivals[1..])
      case ReadError(bytes) => bytes
      case PollTimeout => []
      case PollError => []
  }

  // A reply that is reported, good or bad, is the first event of everything delivered, however it
  // was delivered.
  lemma {:induction false} OutcomeIsFirstEvent(buffer: seq<Byte>, arrivals: seq<Arrival>, expectedId: Byte)
    requires ReadOutcome(buffer, arrivals, expectedId).0 !in {Timeout, IoError}
    ensures var e := Extract(buffer + Delivered(arrivals)).0;
            && e != NeedMore && (e.Frame? ==> |e.bytes| >= 6)
            && ReadOutcome(buffer, arrivals, expectedId).0 == Classify(e, expectedId)
            && ReadOutcome(buffer, arrivals, expectedId).1 == (if e.Frame? then e.bytes else [])
    decreases |arrivals|
  {
    hide Extract, ValidFrame;
    ExtractedFrameSize(buffer);
    ExtractedFrameSize(buffer + Delivered(arrivals));
    ExtractAppend(buffer, Delivered(arrivals));
    var (e, rest) := Extract(buffer);
    if e == NeedMore && arrivals[0].Data? {
      OutcomeIsFirstEvent(rest + arrivals[0].bytes, arrivals[1..], expectedId);
      assert rest + arrivals[0].bytes + Delivered(arrivals[1..]) == rest + Delivered(arrivals);
    }
  }

  // Conversely, a first event complete before the deadline is always reported.
  lemma {:induction false} FirstEventIsReported(buffer: seq<Byte>, arrivals: seq<Arrival>, expectedId: Byte)
    requires arrivals != [] && forall a | a in arrivals :: a.Data?
    requires Extract(buffer + Delivered(arrivals[..|arrivals| - 1])).0 != NeedMore
    ensures ReadOutcome(buffer, arrivals, expectedId).0 !in {Timeout, IoError}
    decreases |arrivals|
  {
    hide Extract;
    var front := arrivals[..|arrivals| - 1];
    ExtractAppend(buffer, Delivered(front));
    assert buffer + [] == buffer;
    var (e, rest) := Extract(buffer);
    if e == NeedMore {
      assert arrivals[0].Data?;
      if front != [] {
        assert arrivals[1..][..|arrivals| - 2] == front[1..];
        assert rest + arrivals[0].bytes + Delivered(front[1..]) == rest + Delivered(front);
        FirstEventIsReported(rest + arrivals[0].bytes, arrivals[1..], expectedId);
      }
    }
  }

  // What readFrame does, by the bytes it took: it stops at the first pass k with an event in them, or
  // that delivers none. A frame is good if its checksum is and it names the expected servo; what is
  // not part of the event stays buffered.
  lemma {:induction false} ReadsExactly(buffer: seq<Byte>, arrivals: seq<Arrival>, expectedId: Byte)
    returns (k: nat)
    ensures k <= |arrivals| && forall i :: 0 <= i < k ==> arrivals[i].Data?
    ensures forall j :: 0 <= j < k ==> Extract(buffer + Delivered(arrivals[..j])).0 == NeedMore
    ensures
      var (status, frame, left) := ReadOutcome(buffer, arrivals, expectedId);
      var (e, rest) := Extract(buffer + Delivered(arrivals[..k]));
      if k == |arrivals| then
        status == Timeout && frame == [] && Extract(left) == (e, rest)
      else if e != NeedMore then
        && left == rest
        && match e
           case Malformed => status == MalformedFrame && frame == []
           case Frame(f) =>
             && frame == f && |f| >= 6
             && status == if !ValidFrame(f) then ChecksumError
                          else if f[2] != expectedId then WrongServoId else IoOk
      else
        && frame == []
        && match arrivals[k]
           case PollTimeout => status == Timeout && left == rest
           case PollError => status == IoError && left == rest
           case ReadError(bytes) => status == IoError && left == rest + bytes
           case Data(_) => false
    decreases |arrivals|
  {
    hide Extract, ValidFrame;
    assert buffer + [] == buffer && (arrivals != [] ==> arrivals[..0] == []);
    ExtractedFrameSize(buffer);
    if arrivals == [] || Extract(buffer).0 != NeedMore || !arrivals[0].Data? {
      k := 0;
    } else {
      var rest, bytes := Extract(buffer).1, arrivals[0].bytes;
      var m := ReadsExactly(rest + bytes, arrivals[1..], expectedId);
      k := m + 1;
      forall j | 0 <= j <= k && j > 0
        ensures Extract(buffer + Delivered(arrivals[..j]))
             == Extract(rest + bytes + Delivered(arrivals[1..][..j - 1]))
      {
        TakenBytes(buffer, arrivals, j);
      }
    }
  }

  // The bytes of the first pass may as well have been buffered from the start.
  lemma TakenBytes(buffer: seq<Byte>, arrivals: seq<Arrival>, j: nat)
    requires 0 < j <= |arrivals| && arrivals[0].Data? && Extract(buffer).0 == NeedMore
    ensures Extract(buffer + Delivered(arrivals[..j]))
         == Extract(Extract(buffer).1 + arrivals[0].bytes + Delivered(arrivals[1..][..j - 1]))
  {
    hide Extract;
    var rest, more := Extract(buffer).1, Delivered(arrivals[1..][..j - 1]);
    assert arrivals[..j][1..] == arrivals[1..][..j - 1];
    var bytes := arrivals[0].bytes;
    assert Delivered(arrivals[..j]) == bytes + more;
    ExtractAppend(buffer, bytes + more);
    assert rest + (bytes + more) == rest + bytes + more;
  }

  // A packet cut up in any way and delivered in time to an empty buffer is read whole.
  lemma DeliveredPacketIsRead(id: Byte, status: Byte, data: seq<Byte>, arrivals: seq<Arrival>)
    requires |data| <= 253
    requires arrivals != [] && forall a | a in arrivals :: a.Data?
    requires Delivered(arrivals[..|arrivals| - 1]) == Packet(id, status, data)
    ensures ReadOutcome([], arrivals, id).0 == IoOk
    ensures ReadOutcome([], arrivals, id).1 == Packet(id, status, data)
  {
    hide ReadOutcome, ValidFrame, Delivered, Extract;
    var p := Packet(id, status, data);
    var front, last := arrivals[..|arrivals| - 1], arrivals[|arrivals| - 1..];
    assert [] + Delivered(front) == p == p + [];
    ExtractPacket(id, status, data, []);
    FirstEventIsReported([], arrivals, id);
    OutcomeIsFirstEvent([], arrivals, id);
    DeliveredAppend(front, last);
    assert front + last == arrivals;
    assert [] + Delivered(arrivals) == p + Delivered(last);
    ExtractPacket(id, status, data, Delivered(last));
    PacketIsValid(id, status, data);
    assert p[2] == id;
  }

  // One feedback transaction: the servo's reply is read and parsed back to what it measured.
  lemma FeedbackTransaction(
    f: Feedback, other: (Byte, Byte, Byte), movingByte: Byte, arrivals: seq<Arrival>)
    requires Measurable(f) && movingByte != 0
    requires arrivals != [] && forall a | a in arrivals :: a.Data?
    requires Delivered(arrivals[..|arrivals| - 1])
          == Packet(f.id, f.statusError, FeedbackRegisters(f, other, movingByte))
    ensures var (status, frame, _) := ReadOutcome([], arrivals, f.id);
            && status == IoOk && |frame| == 21
            && DecodeFeedback(f.id, frame[4], frame[5..20]) == f
  {
    hide FeedbackRegisters, DecodeFeedback, ReadOutcome;
    var data := FeedbackRegisters(f, other, movingByte);
    DeliveredPacketIsRead(f.id, f.statusError, data, arrivals);
    FeedbackRoundTrip(f, other, movingByte);
    assert Packet(f.id, f.statusError, data)[5..20] == data;
  }

  lemma {:induction false} DeliveredAppend(a: seq<Arrival>, b: seq<Arrival>)
    requires forall x | x in a :: x.Data?
    ensures Delivered(a + b) == Delivered(a) + Delivered(b)
  {
    if a == [] {
      assert a + b == b;
    } else {
      assert a[0].Data?;
      assert (a + b)[1..] == a[1..] + b;
      DeliveredAppend(a[1..], b);
    }
  }

  class SerialPort {
    var rxBuffer: seq<Byte>

    constructor ()
      ensures rxBuffer == []
    {
      rxBuffer := [];
    }

    method FlushInput()
      modifies this
      ensures rxBuffer == []
    {
      rxBuffer := [];
    }

    method ExtractFrame() returns (e: Event)
      modifies this
      ensures (e, rxBuffer) == Extract(old(rxBuffer))
    {
      while |rxBuffer| >= 2
        invariant Skip(rxBuffer) == Skip(old(rxBuffer))
        decreases |rxBuffer|
      {
        if rxBuffer[0] == HEADER && rxBuffer[1] == HEADER {
          break;
        }
        rxBuffer := rxBuffer[1..];
      }
      if |rxBuffer| < 4 {
        return NeedMore;
      }
      var length := rxBuffer[3];
      var frameSize: nat := length as int + 4;
      if frameSize < 6 || frameSize > 260 {
        rxBuffer := rxBuffer[1..];
        return Malformed;
      }
      if |rxBuffer| < frameSize {
        return NeedMore;
      }
      e := Frame(rxBuffer[..frameSize]);
      rxBuffer := rxBuffer[frameSize..];
    }

    method ReadFrame(expectedId: Byte, arrivals: seq<Arrival>)
      returns (status: IoStatus, frame: seq<Byte>)
      modifies this
      ensures (status, frame, rxBuffer) == ReadOutcome(old(rxBuffer), arrivals, expectedId)
      ensures status == IoOk ==> ValidFrame(frame) && frame[2] == expectedId
    {
      hide Extract, Skip, ValidFrame;
      var i := 0;
      while i < |arrivals|
        invariant 0 <= i <= |arrivals|
        invariant ReadOutcome(rxBuffer, arrivals[i..], expectedId)
               == ReadOutcome(old(rxBuffer), arrivals, expectedId)
      {
        ExtractedFrameSize(rxBuffer);
        assert arrivals[i..][1..] == arrivals[i + 1..];
        var e := ExtractFrame();
        if e.Frame? {
          var ok := ValidateFrameChecksum(e.bytes);
          if !ok {
            return ChecksumError, e.bytes;
          }
          if e.bytes[2] != expectedId {
            return WrongServoId, e.bytes;
          }
          return IoOk, e.bytes;
        }
        if e == Malformed {
          return MalformedFrame, [];
        }
        match arrivals[i] {
          case PollTimeout => return Timeout, [];
          case PollError => return IoError, [];
          case Data(bytes) => rxBuffer := rxBuffer + bytes;
          case ReadError(bytes) =>
            rxBuffer := rxBuffer + bytes;
            return IoError, [];
        }
        i := i + 1;
      }
      return Timeout, [];
    }
  }
}
