/**
 The minimal protobuf reader of the bundle audit, against an encoder of the wire format
 ("Base 128 Varints" and "Message Structure" of the Protocol Buffers encoding specification).
 */
module Protobuf {
  import opened Bytes
  import opened Outcome
  import opened Arithmetic

  // ------------------------------------------------------------------------------- varints

  const MAX_VARINT_BYTES := 11  // the shift may reach 70

  function Pow128(n: nat): nat
    ensures Pow128(n) >= 1
  {
    if n == 0 then 1 else 128 * Pow128(n - 1)
  }

  function EncodeVarint(v: nat): (b: seq<Byte>)
    ensures |b| >= 1
    decreases v
  {
    if v < 128 then [v] else [v % 128 + 128] + EncodeVarint(v / 128)
  }

  // Reads a varint of which `count` bytes are behind us: the value from here on and its length.
  function Varint(b: seq<Byte>, count: nat): (r: Result<(nat, nat)>)
    ensures r.Ok? ==> 1 <= r.value.1 <= |b| && r.value.1 + count <= MAX_VARINT_BYTES
    decreases |b|
  {
    if b == [] || count >= MAX_VARINT_BYTES then Error("invalid protobuf varint")
    else if b[0] < 128 then Ok((b[0], 1))
    else
      match Varint(b[1..], count + 1)
      case Error(reason) => Error(reason)
      case Ok(rest) => Ok((b[0] - 128 + 128 * rest.0, rest.1 + 1))
  }

  // The result for a whole varint from that for its bytes after the first k.
  function Resumed(value: nat, weight: nat, k: nat, rest: Result<(nat, nat)>): Result<(nat, nat)> {
    match rest
    case Ok(v) => Ok((value + weight * v.0, k + v.1))
    case Error(reason) => Error(reason)
  }

  lemma ResumeStep(b: seq<Byte>, k: nat, value: nat, weight: nat)
    requires b != [] && k < MAX_VARINT_BYTES && b[0] >= 128
    ensures Resumed(value, weight, k, Varint(b, k)) ==
              Resumed(value + weight * (b[0] - 128), 128 * weight, k + 1, Varint(b[1..], k + 1))
  {
    var above := Varint(b[1..], k + 1);
    if above.Ok? {
      Distribute(weight, b[0] - 128, 128 * above.value.0);
      Reassociate(weight, 128, above.value.0);
    }
  }

  lemma LastByte(b: seq<Byte>, k: nat)
    ensures b == [] || k >= MAX_VARINT_BYTES ==> Varint(b, k) == Error("invalid protobuf varint")
    ensures b != [] && k < MAX_VARINT_BYTES && b[0] < 128 ==> Varint(b, k) == Ok((b[0] as nat, 1))
  {
  }

  lemma ResumeNothing(rest: Result<(nat, nat)>)
    ensures Resumed(0, 1, 0, rest) == rest
  {
  }

  // _read_varint; the masked bits land above those already set, so `or` adds them.
  method ReadVarint(buffer: seq<Byte>, start: nat) returns (r: Result<(nat, nat)>)
    requires start <= |buffer|
    ensures r == Moved(start, Varint(buffer[start..], 0))
  {
    hide Varint, Resumed;
    var value: nat, weight: nat := 0, 1;
    var index, shift := start, 0;
    ResumeNothing(Varint(buffer[start..], 0));
    while true
      invariant start <= index <= |buffer| && shift == 7 * (index - start) && shift <= 77
      invariant weight == Pow128(index - start) && value < weight
      invariant Varint(buffer[start..], 0) ==
                Resumed(value, weight, index - start, Varint(buffer[index..], index - start))
      decreases |buffer| - index
    {
      LastByte(buffer[index..], index - start);
      if index >= |buffer| || shift > 70 {
        ResumeError(value, weight, index - start);
        return Error("invalid protobuf varint");
      }
      var byte: nat := buffer[index];
      if byte < 128 {
        ResumeOk(value, weight, index - start, byte);
        return Ok((value + weight * byte, index + 1));
      }
      assert buffer[index..][1..] == buffer[index + 1..];
      ResumeStep(buffer[index..], index - start, value, weight);
      ValueFits(value, weight, byte - 128);
      index := index + 1;
      value := value + weight * (byte - 128);
      shift := shift + 7;
      weight := 128 * weight;
    }
  }

  // A length in bytes turned into an index.
  function Moved(start: nat, r: Result<(nat, nat)>): Result<(nat, nat)> {
    match r
    case Ok(v) => Ok((v.0, start + v.1))
    case Error(reason) => Error(reason)
  }

  lemma ResumeError(value: nat, weight: nat, k: nat)
    ensures Resumed(value, weight, k, Error("invalid protobuf varint")) == Error("invalid protobuf varint")
  {
  }

  lemma ResumeOk(value: nat, weight: nat, k: nat, byte: nat)
    ensures Resumed(value, weight, k, Ok((byte, 1))) == Ok((value + weight * byte, k + 1))
  {
  }

  lemma Reassociate(a: int, b: int, c: int)
    ensures a * (b * c) == (b * a) * c
  {
  }

  lemma ValueFits(value: nat, weight: nat, digit: nat)
    requires value < weight && digit < 128
    ensures value + weight * digit < 128 * weight
  {
    Distribute(weight, digit, 1);
    if digit < 127 {
      Distribute(weight, digit + 1, 127 - digit);
    }
  }

  lemma DigitBelow(v: nat, n: nat)
    requires n > 0
    ensures v / 128 < Pow128(n - 1) <==> v < Pow128(n)
  {
  }

  // A varint is read back, consuming exactly its bytes, whatever follows, if and only if it fits
  // the eleven bytes the reader allows; every 64-bit value does.
  lemma {:induction false} VarintRoundTrip(v: nat, rest: seq<Byte>, count: nat)
    requires count < MAX_VARINT_BYTES
    ensures v < Pow128(MAX_VARINT_BYTES - count) ==>
              Varint(EncodeVarint(v) + rest, count) == Ok((v, |EncodeVarint(v)|))
    ensures v >= Pow128(MAX_VARINT_BYTES - count) ==> Varint(EncodeVarint(v) + rest, count).Error?
    decreases v
  {
    var b := EncodeVarint(v) + rest;
    DigitBelow(v, MAX_VARINT_BYTES - count);
    if v < 128 {
      assert b[0] == v;
    } else {
      assert b[1..] == EncodeVarint(v / 128) + rest;
      if count + 1 < MAX_VARINT_BYTES {
        VarintRoundTrip(v / 128, rest, count + 1);
      }
    }
  }

  const MAX_VARINT := 128 * 128 * 128 * 128 * 128 * 128 * 128 * 128 * 128 * 128 * 128

  lemma SixtyFourBitsFit(v: nat, rest: seq<Byte>)
    requires v < 0x1_0000_0000_0000_0000
    ensures Varint(EncodeVarint(v) + rest, 0) == Ok((v, |EncodeVarint(v)|))
  {
    assert Pow128(11) == MAX_VARINT by { ElevenBytes(); }
    VarintRoundTrip(v, rest, 0);
  }

  lemma ElevenBytes()
    ensures Pow128(11) == MAX_VARINT
  {
    assert Pow128(1) == 128 && Pow128(2) == 128 * 128;
    assert Pow128(4) == 128 * 128 * 128 * 128;
    assert Pow128(6) == 128 * 128 * 128 * 128 * 128 * 128;
    assert Pow128(8) == 128 * 128 * 128 * 128 * 128 * 128 * 128 * 128;
    assert Pow128(10) == 128 * 128 * 128 * 128 * 128 * 128 * 128 * 128 * 128 * 128;
  }

  // ------------------------------------------------------------------------------- fields

  datatype Value = Number(n: nat) | Data(bytes: seq<Byte>)

  datatype Field = Field(number: nat, wire: nat, value: Value)

  predicate Shaped(f: Field) { f.wire == 0 <==> f.value.Number? }

  // Python slices stop at the end of the buffer.
  function Take(b: seq<Byte>, n: nat): seq<Byte> { if n <= |b| then b[..n] else b }

  function Drop(b: seq<Byte>, n: nat): seq<Byte> { if n <= |b| then b[n..] else [] }

  // The payload that follows a key of the given number and wire type.
  function FirstPayload(number: nat, wire: nat, rest: seq<Byte>): (r: Result<(Field, seq<Byte>)>)
    ensures r.Ok? ==> |r.value.1| <= |rest| && Shaped(r.value.0)
  {
    if wire == 0 then
      match Varint(rest, 0)
      case Error(reason) => Error(reason)
      case Ok(v) => Ok((Field(number, wire, Number(v.0)), rest[v.1..]))
    else if wire == 1 then Ok((Field(number, wire, Data(Take(rest, 8))), Drop(rest, 8)))
    else if wire == 2 then
      match Varint(rest, 0)
      case Error(reason) => Error(reason)
      case Ok(length) =>
        var body := rest[length.1..];
        Ok((Field(number, wire, Data(Take(body, length.0))), Drop(body, length.0)))
    else if wire == 5 then Ok((Field(number, wire, Data(Take(rest, 4))), Drop(rest, 4)))
    else Error("unsupported protobuf wire type")
  }

  // One field and what follows it.
  function FirstField(b: seq<Byte>): (r: Result<(Field, seq<Byte>)>)
    requires b != []
    ensures r.Ok? ==> |r.value.1| < |b| && Shaped(r.value.0)
  {
    match Varint(b, 0)
    case Error(reason) => Error(reason)
    case Ok(key) =>
      FirstPayload(key.0 / 8, key.0 % 8, b[key.1..])
  }

  predicate AllShaped(fs: seq<Field>) { forall i :: 0 <= i < |fs| ==> Shaped(fs[i]) }

  function Fields(b: seq<Byte>): (r: Result<seq<Field>>)
    ensures r.Ok? ==> AllShaped(r.value)
    decreases |b|
  {
    if b == [] then Ok([])
    else
      match FirstField(b)
      case Error(reason) => Error(reason)
      case Ok(first) =>
        Prepend([first.0], Fields(first.1))
  }

  // _protobuf_fields, collected; the index may run past the end of the buffer.
  method ProtobufFields(buffer: seq<Byte>) returns (r: Result<seq<Field>>)
    ensures r == Fields(buffer)
  {
    hide Varint, FirstField;
    var fields: seq<Field> := [];
    var index := 0;
    PrependNothing(Fields(buffer));
    assert Drop(buffer, 0) == buffer;
    while index < |buffer|
      invariant Fields(buffer) == Prepend(fields, Fields(Drop(buffer, index)))
      decreases |buffer| - index
    {
      var step := NextField(buffer, index);
      assert Drop(buffer, index) != [];
      if step.Error? {
        return Error(step.reason);
      }
      PrependMore(fields, step.value.0, Fields(Drop(buffer, step.value.1)));
      fields := fields + [step.value.0];
      index := step.value.1;
    }
    assert fields + [] == fields;
    return Ok(fields);
  }

  function Prepend(fields: seq<Field>, rest: Result<seq<Field>>): (r: Result<seq<Field>>) {
    match rest
    case Ok(more) => Ok(fields + more)
    case Error(reason) => Error(reason)
  }

  lemma PrependNothing(rest: Result<seq<Field>>)
    ensures Prepend([], rest) == rest
  {
    if rest.Ok? {
      assert [] + rest.value == rest.value;
    }
  }

  lemma PrependMore(fields: seq<Field>, f: Field, rest: Result<seq<Field>>)
    ensures Prepend(fields + [f], rest) == Prepend(fields, Prepend([f], rest))
  {
    if rest.Ok? {
      assert (fields + [f]) + rest.value == fields + ([f] + rest.value);
    }
  }

  method NextField(buffer: seq<Byte>, start: nat) returns (r: Result<(Field, nat)>)
    requires start < |buffer|
    ensures match FirstField(buffer[start..])
            case Error(reason) => r == Error(reason)
            case Ok(first) =>
              r.Ok? && r.value.0 == first.0 && start < r.value.1 && Drop(buffer, r.value.1) == first.1
  {
    hide Varint, FirstPayload;
    var key := ReadVarint(buffer, start);
    if key.Error? {
      return Error(key.reason);
    }
    assert buffer[start..][key.value.1 - start..] == buffer[key.value.1..];
    r := NextPayload(buffer, key.value.1, key.value.0 / 8, key.value.0 % 8);
  }

  method NextPayload(buffer: seq<Byte>, index: nat, number: nat, wire: nat)
    returns (r: Result<(Field, nat)>)
    requires index <= |buffer|
    ensures match FirstPayload(number, wire, buffer[index..])
            case Error(reason) => r == Error(reason)
            case Ok(first) =>
              r.Ok? && r.value.0 == first.0 && index <= r.value.1 && Drop(buffer, r.value.1) == first.1
  {
    hide Varint;
    if wire == 0 {
      var v := ReadVarint(buffer, index);
      if v.Error? {
        return Error(v.reason);
      }
      return Ok((Field(number, wire, Number(v.value.0)), v.value.1));
    } else if wire == 1 {
      return Ok((Field(number, wire, Data(Slice(buffer, index, 8))), index + 8));
    } else if wire == 2 {
      var length := ReadVarint(buffer, index);
      if length.Error? {
        return Error(length.reason);
      }
      var body := length.value.1;
      assert buffer[index..][body - index..] == buffer[body..];
      return Ok((Field(number, wire, Data(Slice(buffer, body, length.value.0))), body + length.value.0));
    } else if wire == 5 {
      return Ok((Field(number, wire, Data(Slice(buffer, index, 4))), index + 4));
    }
    return Error("unsupported protobuf wire type");
  }

  // buffer[start:start + n]
  function Slice(buffer: seq<Byte>, start: nat, n: nat): (r: seq<Byte>)
    requires start <= |buffer|
    ensures r == Take(buffer[start..], n)
  {
    if start + n <= |buffer| then buffer[start..start + n] else buffer[start..]
  }

  // ------------------------------------------------------------------------------- encoding

  predicate Fits(v: nat) { v < MAX_VARINT }

  predicate Encodable(f: Field) {
    && Fits(8 * f.number + f.wire)
    && match f.value
       case Number(n) => f.wire == 0 && Fits(n)
       case Data(bytes) =>
         || (f.wire == 1 && |bytes| == 8)
         || (f.wire == 2 && Fits(|bytes|))
         || (f.wire == 5 && |bytes| == 4)
  }

  function Payload(f: Field): seq<Byte> {
    match f.value
    case Number(n) => EncodeVarint(n)
    case Data(bytes) => if f.wire == 2 then EncodeVarint(|bytes|) + bytes else bytes
  }

  function EncodeField(f: Field): (b: seq<Byte>)
    ensures b != []
  {
    EncodeVarint(8 * f.number + f.wire) + Payload(f)
  }

  function EncodeFields(fs: seq<Field>): seq<Byte> {
    if fs == [] then [] else EncodeField(fs[0]) + EncodeFields(fs[1..])
  }

  lemma FitsRoundTrip(v: nat, rest: seq<Byte>)
    requires Fits(v)
    ensures Varint(EncodeVarint(v) + rest, 0) == Ok((v, |EncodeVarint(v)|))
    ensures (EncodeVarint(v) + rest)[|EncodeVarint(v)|..] == rest
  {
    ElevenBytes();
    VarintRoundTrip(v, rest, 0);
  }

  lemma PayloadRoundTrip(f: Field, rest: seq<Byte>)
    requires Encodable(f)
    ensures FirstPayload(f.number, f.wire, Payload(f) + rest) == Ok((f, rest))
  {
    hide Varint, EncodeVarint, Fits;
    match f.value
    case Number(n) => FitsRoundTrip(n, rest);
    case Data(bytes) =>
      if f.wire == 2 {
        FitsRoundTrip(|bytes|, bytes + rest);
        assert Payload(f) + rest == EncodeVarint(|bytes|) + (bytes + rest);
      }
      assert Take(bytes + rest, |bytes|) == bytes && Drop(bytes + rest, |bytes|) == rest;
  }

  // Every encodable field is read back, leaving exactly what follows it.
  lemma FieldRoundTrip(f: Field, rest: seq<Byte>)
    requires Encodable(f)
    ensures FirstField(EncodeField(f) + rest) == Ok((f, rest))
  {
    hide Varint, EncodeVarint, Fits, FirstPayload, Payload;
    var key := 8 * f.number + f.wire;
    assert EncodeField(f) + rest == EncodeVarint(key) + (Payload(f) + rest);
    FitsRoundTrip(key, Payload(f) + rest);
    PayloadRoundTrip(f, rest);
  }

  // Every list of fields of wire types 0, 1, 2 and 5 parses back to itself.
  lemma {:induction false} FieldsRoundTrip(fs: seq<Field>)
    requires forall i :: 0 <= i < |fs| ==> Encodable(fs[i])
    ensures Fields(EncodeFields(fs)) == Ok(fs)
  {
    hide FirstField, EncodeField, Encodable;
    if fs != [] {
      FieldRoundTrip(fs[0], EncodeFields(fs[1..]));
      FieldsRoundTrip(fs[1..]);
      assert [fs[0]] + fs[1..] == fs;
    }
  }

  // The bytes a field other than a varint announces: eight, four, or its stated length.
  function Announced(wire: nat, length: nat): nat {
    if wire == 1 then 8 else if wire == 5 then 4 else length
  }

  function Announcement(number: nat, wire: nat, length: nat): seq<Byte> {
    EncodeVarint(8 * number + wire) + if wire == 2 then EncodeVarint(length) else []
  }

  // Such a field cut short is still accepted: its value is whatever is left. It is the value
  // announced if and only if the buffer reaches that far.
  lemma TruncationGoesUnnoticed(number: nat, wire: nat, length: nat, left: seq<Byte>)
    requires wire == 1 || wire == 2 || wire == 5
    requires Fits(8 * number + wire) && (wire == 2 ==> Fits(length))
    ensures var b, n := Announcement(number, wire, length) + left, Announced(wire, length);
            && b != [] && FirstField(b).Ok?
            && (|FirstField(b).value.0.value.bytes| == n <==> |left| >= n)
            && (|left| <= n ==> Fields(b) == Ok([Field(number, wire, Data(left))]))
  {
    hide Varint, EncodeVarint, Fits;
    var key := 8 * number + wire;
    var b, n := Announcement(number, wire, length) + left, Announced(wire, length);
    var announced := (if wire == 2 then EncodeVarint(length) else []) + left;
    assert b == EncodeVarint(key) + announced;
    FitsRoundTrip(key, announced);
    if wire == 2 {
      FitsRoundTrip(length, left);
    } else {
      assert announced == left;
    }
    assert FirstField(b) == Ok((Field(number, wire, Data(Take(left, n))), Drop(left, n)));
    if |left| <= n {
      assert Take(left, n) == left && Drop(left, n) == [];
      OnlyField(b, Field(number, wire, Data(left)));
    }
  }

  lemma OnlyField(b: seq<Byte>, f: Field)
    requires b != [] && FirstField(b) == Ok((f, []))
    ensures Fields(b) == Ok([f])
  {
    hide FirstField;
    assert Fields([]) == Ok([]);
    assert [f] + [] == [f];
  }
}
