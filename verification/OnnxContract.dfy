/** The ONNX messages the audit reads: the graph's input and output tensors. */
module OnnxContract {
  import opened Bytes
  import opened Outcome
  import opened Protobuf

  datatype Dim = Unknown | Size(n: nat) | Named(name: seq<Byte>)

  datatype ValueInfo = ValueInfo(name: seq<Byte>, shape: seq<Dim>, elementType: int)

  datatype Contract = Contract(input: ValueInfo, output: ValueInfo)

  // _length_fields
  function LengthFields(fs: seq<Field>, number: nat): seq<seq<Byte>>
    requires AllShaped(fs)
  {
    if fs == [] then []
    else (if fs[0].number == number && fs[0].wire == 2 then [fs[0].value.bytes] else [])
         + LengthFields(fs[1..], number)
  }

  // The last field of a number with a given wire type wins.
  function LastOf(fs: seq<Field>, number: nat, wire: nat): (r: Option<Value>)
    requires AllShaped(fs)
    ensures r.Some? ==> (wire == 0 <==> r.value.Number?)
  {
    if fs == [] then None
    else
      var last := fs[|fs| - 1];
      if last.number == number && last.wire == wire then Some(last.value)
      else LastOf(fs[..|fs| - 1], number, wire)
  }

  // A dimension's size or name, whichever comes last.
  function LastDim(fs: seq<Field>): Dim
    requires AllShaped(fs)
  {
    if fs == [] then Unknown
    else
      var last := fs[|fs| - 1];
      if last.number == 1 && last.wire == 0 then Size(last.value.n)
      else if last.number == 2 && last.wire == 2 then Named(last.value.bytes)
      else LastDim(fs[..|fs| - 1])
  }

  function ParseDim(b: seq<Byte>): Result<Dim> {
    match Fields(b)
    case Error(reason) => Error(reason)
    case Ok(fs) => Ok(LastDim(fs))
  }

  function ParseDims(bs: seq<seq<Byte>>): Result<seq<Dim>> {
    if bs == [] then Ok([])
    else
      match ParseDims(bs[..|bs| - 1])
      case Error(reason) => Error(reason)
      case Ok(dims) =>
        match ParseDim(bs[|bs| - 1])
        case Error(reason) => Error(reason)
        case Ok(dim) => Ok(dims + [dim])
  }

  function ParseShape(shape: Option<Value>): Result<seq<Dim>>
    requires shape.Some? ==> shape.value.Data?
  {
    if shape == None then Ok([])
    else
      match Fields(shape.value.bytes)
      case Error(reason) => Error(reason)
      case Ok(fs) => ParseDims(LengthFields(fs, 1))
  }

  function ParseTensor(name: seq<Byte>, b: seq<Byte>): Result<ValueInfo> {
    match Fields(b)
    case Error(reason) => Error(reason)
    case Ok(fs) =>
      var elementType := LastOf(fs, 1, 0);
      match ParseShape(LastOf(fs, 2, 2))
      case Error(reason) => Error(reason)
      case Ok(dims) => Ok(ValueInfo(name, dims, if elementType.Some? then elementType.value.n else -1))
  }

  // _value_info
  function ParseValueInfo(b: seq<Byte>): Result<ValueInfo> {
    match Fields(b)
    case Error(reason) => Error(reason)
    case Ok(fs) =>
      var name, typeProto := LastOf(fs, 1, 2), LastOf(fs, 2, 2);
      if typeProto == None then Error("no type")
      else
        match Fields(typeProto.value.bytes)
        case Error(reason) => Error(reason)
        case Ok(ts) =>
          var tensors := LengthFields(ts, 1);
          if |tensors| != 1 then Error("not a tensor")
          else ParseTensor(if name.Some? then name.value.bytes else [], tensors[0])
  }

  // inspect_onnx_contract, on the bytes of the model.
  function Inspect(b: seq<Byte>): Result<Contract> {
    match Fields(b)
    case Error(reason) => Error(reason)
    case Ok(fs) =>
      var graphs := LengthFields(fs, 7);
      if |graphs| != 1 then Error("expected one graph")
      else
        match Fields(graphs[0])
        case Error(reason) => Error(reason)
        case Ok(gs) => InspectGraph(LengthFields(gs, 11), LengthFields(gs, 12))
  }

  function ParseAll(bs: seq<seq<Byte>>): Result<seq<ValueInfo>> {
    if bs == [] then Ok([])
    else
      match ParseValueInfo(bs[0])
      case Error(reason) => Error(reason)
      case Ok(info) =>
        match ParseAll(bs[1..])
        case Error(reason) => Error(reason)
        case Ok(more) => Ok([info] + more)
  }

  function InspectGraph(inputs: seq<seq<Byte>>, outputs: seq<seq<Byte>>): Result<Contract> {
    match ParseAll(inputs)
    case Error(reason) => Error(reason)
    case Ok(ins) =>
      match ParseAll(outputs)
      case Error(reason) => Error(reason)
      case Ok(outs) =>
        if |ins| != 1 || |outs| != 1 then Error("exactly one input and one output")
        else Ok(Contract(ins[0], outs[0]))
  }

  // ------------------------------------------------------------------------------- the loops

  // _value_info, on the fields it reads one by one.
  method ReadValueInfo(b: seq<Byte>) returns (r: Result<ValueInfo>)
    ensures r == ParseValueInfo(b)
  {
    hide Fields, LengthFields, ParseTensor;
    var parsed := ProtobufFields(b);
    if parsed.Error? {
      return Error(parsed.reason);
    }
    var fields := parsed.value;
    var name: Option<seq<Byte>>, typeProto: Option<seq<Byte>> := None, None;
    for i := 0 to |fields|
      invariant name == BytesOf(LastOf(fields[..i], 1, 2))
      invariant typeProto == BytesOf(LastOf(fields[..i], 2, 2))
    {
      assert fields[..i + 1][..i] == fields[..i];
      if fields[i].number == 1 && fields[i].wire == 2 {
        name := Some(fields[i].value.bytes);
      } else if fields[i].number == 2 && fields[i].wire == 2 {
        typeProto := Some(fields[i].value.bytes);
      }
    }
    assert fields[..|fields|] == fields;
    if typeProto == None {
      return Error("no type");
    }
    var types := ProtobufFields(typeProto.value);
    if types.Error? {
      return Error(types.reason);
    }
    var tensors := LengthFields(types.value, 1);
    if |tensors| != 1 {
      return Error("not a tensor");
    }
    r := ReadTensor(if name.Some? then name.value else [], tensors[0]);
  }

  function BytesOf(v: Option<Value>): Option<seq<Byte>>
    requires v.Some? ==> v.value.Data?
  {
    if v.Some? then Some(v.value.bytes) else None
  }

  method ReadTensor(name: seq<Byte>, b: seq<Byte>) returns (r: Result<ValueInfo>)
    ensures r == ParseTensor(name, b)
  {
    hide Fields, LengthFields, ParseDims;
    var parsed := ProtobufFields(b);
    if parsed.Error? {
      return Error(parsed.reason);
    }
    var fields := parsed.value;
    var elementType: int, shape: Option<seq<Byte>> := -1, None;
    for i := 0 to |fields|
      invariant var e := LastOf(fields[..i], 1, 0);
                elementType == if e.Some? then e.value.n else -1
      invariant shape == BytesOf(LastOf(fields[..i], 2, 2))
    {
      assert fields[..i + 1][..i] == fields[..i];
      if fields[i].number == 1 && fields[i].wire == 0 {
        elementType := fields[i].value.n;
      } else if fields[i].number == 2 && fields[i].wire == 2 {
        shape := Some(fields[i].value.bytes);
      }
    }
    assert fields[..|fields|] == fields;
    if shape == None {
      return Ok(ValueInfo(name, [], elementType));
    }
    var shapeFields := ProtobufFields(shape.value);
    if shapeFields.Error? {
      return Error(shapeFields.reason);
    }
    var dims := ReadDims(LengthFields(shapeFields.value, 1));
    if dims.Error? {
      return Error(dims.reason);
    }
    return Ok(ValueInfo(name, dims.value, elementType));
  }

  method ReadDims(bs: seq<seq<Byte>>) returns (r: Result<seq<Dim>>)
    ensures r == ParseDims(bs)
  {
    hide Fields, LastDim;
    var dims: seq<Dim> := [];
    for i := 0 to |bs|
      invariant ParseDims(bs[..i]) == Ok(dims)
    {
      assert bs[..i + 1][..i] == bs[..i];
      var dim := ReadDim(bs[i]);
      if dim.Error? {
        ErrorStays(bs, i + 1);
        return Error(dim.reason);
      }
      dims := dims + [dim.value];
    }
    assert bs[..|bs|] == bs;
    return Ok(dims);
  }

  lemma {:induction false} ErrorStays(bs: seq<seq<Byte>>, n: nat)
    requires n <= |bs| && ParseDims(bs[..n]).Error?
    ensures ParseDims(bs) == ParseDims(bs[..n])
    decreases |bs| - n
  {
    if n < |bs| {
      assert bs[..n + 1][..n] == bs[..n];
      ErrorStays(bs, n + 1);
    } else {
      assert bs[..n] == bs;
    }
  }

  method ReadDim(b: seq<Byte>) returns (r: Result<Dim>)
    ensures r == ParseDim(b)
  {
    hide Fields;
    var parsed := ProtobufFields(b);
    if parsed.Error? {
      return Error(parsed.reason);
    }
    var fields := parsed.value;
    var dim := Unknown;
    for i := 0 to |fields|
      invariant dim == LastDim(fields[..i])
    {
      assert fields[..i + 1][..i] == fields[..i];
      if fields[i].number == 1 && fields[i].wire == 0 {
        dim := Size(fields[i].value.n);
      } else if fields[i].number == 2 && fields[i].wire == 2 {
        dim := Named(fields[i].value.bytes);
      }
    }
    assert fields[..|fields|] == fields;
    return Ok(dim);
  }

  // ------------------------------------------------------------------------------- recovery

  function DimFields(d: Dim): (fs: seq<Field>)
    ensures AllShaped(fs) && LastDim(fs) == d
  {
    match d
    case Unknown => []
    case Size(n) => [Field(1, 0, Number(n))]
    case Named(name) => [Field(2, 2, Data(name))]
  }

  function ShapeFields(dims: seq<Dim>): (fs: seq<Field>)
    ensures AllShaped(fs) && |fs| == |dims|
  {
    if dims == [] then []
    else [Field(1, 2, Data(EncodeFields(DimFields(dims[0]))))] + ShapeFields(dims[1..])
  }

  function TensorFields(v: ValueInfo): (fs: seq<Field>)
    requires v.elementType >= 0
    ensures AllShaped(fs)
  {
    [Field(1, 0, Number(v.elementType)), Field(2, 2, Data(EncodeFields(ShapeFields(v.shape))))]
  }

  function TypeFields(v: ValueInfo): (fs: seq<Field>)
    requires v.elementType >= 0
    ensures AllShaped(fs)
  {
    [Field(1, 2, Data(EncodeFields(TensorFields(v))))]
  }

  function InfoFields(v: ValueInfo): (fs: seq<Field>)
    requires v.elementType >= 0
    ensures AllShaped(fs)
  {
    [Field(1, 2, Data(v.name)), Field(2, 2, Data(EncodeFields(TypeFields(v))))]
  }

  predicate AllEncodable(fs: seq<Field>) { forall i :: 0 <= i < |fs| ==> Encodable(fs[i]) }

  // Every message nested in the value info can be encoded.
  predicate EncodableInfo(v: ValueInfo) {
    && v.elementType >= 0
    && (forall i :: 0 <= i < |v.shape| ==> AllEncodable(DimFields(v.shape[i])))
    && AllEncodable(ShapeFields(v.shape)) && AllEncodable(TensorFields(v))
    && AllEncodable(TypeFields(v)) && AllEncodable(InfoFields(v))
  }

  function Encoded(v: ValueInfo): seq<Byte>
    requires v.elementType >= 0
  {
    EncodeFields(InfoFields(v))
  }

  lemma {:induction false} DimsRecovered(dims: seq<Dim>, fs: seq<Field>)
    requires fs == ShapeFields(dims)
    requires forall i :: 0 <= i < |dims| ==> AllEncodable(DimFields(dims[i]))
    ensures |LengthFields(fs, 1)| == |dims|
    ensures forall i :: 0 <= i < |dims| ==> ParseDim(LengthFields(fs, 1)[i]) == Ok(dims[i])
  {
    hide Fields, EncodeFields, Encodable, DimFields;
    if dims != [] {
      assert fs[1..] == ShapeFields(dims[1..]);
      DimsRecovered(dims[1..], fs[1..]);
      FieldsRoundTrip(DimFields(dims[0]));
      assert LengthFields(fs, 1)[1..] == LengthFields(fs[1..], 1);
    }
  }

  lemma {:induction false} DimsCollected(bs: seq<seq<Byte>>, dims: seq<Dim>)
    requires |bs| == |dims| && forall i :: 0 <= i < |dims| ==> ParseDim(bs[i]) == Ok(dims[i])
    ensures ParseDims(bs) == Ok(dims)
  {
    hide ParseDim;
    if dims != [] {
      var n := |dims| - 1;
      DimsCollected(bs[..n], dims[..n]);
      assert dims == dims[..n] + [dims[n]];
    }
  }

  // A value info's name, type and shape, fixed and symbolic dimensions alike, are recovered from
  // its encoding.
  lemma ValueInfoRecovered(v: ValueInfo)
    requires EncodableInfo(v)
    ensures ParseValueInfo(Encoded(v)) == Ok(v)
  {
    hide Fields, EncodeFields, Encodable, DimFields, ShapeFields;
    FieldsRoundTrip(InfoFields(v));
    FieldsRoundTrip(TypeFields(v));
    FieldsRoundTrip(TensorFields(v));
    FieldsRoundTrip(ShapeFields(v.shape));
    DimsRecovered(v.shape, ShapeFields(v.shape));
    DimsCollected(LengthFields(ShapeFields(v.shape), 1), v.shape);
    var tensor := TensorFields(v);
    assert tensor[..1] == [tensor[0]];
    TwoFields(InfoFields(v));
    TwoFields(tensor);
    OneField(Field(1, 2, Data(EncodeFields(tensor))));
    assert ParseTensor(v.name, EncodeFields(tensor)) == Ok(v);
  }

  lemma TwoFields(fs: seq<Field>)
    requires |fs| == 2 && AllShaped(fs) && fs[0].number == 1 && fs[1].number == 2
    ensures LastOf(fs, 1, fs[0].wire) == Some(fs[0].value)
    ensures LastOf(fs, 2, fs[1].wire) == Some(fs[1].value)
  {
    assert fs[..1] == [fs[0]];
  }

  lemma OneField(f: Field)
    requires f.wire == 2 && Shaped(f)
    ensures LengthFields([f], f.number) == [f.value.bytes]
  {
    assert [f][1..] == [];
  }

  // A model whose graph has one input and one output, among any other fields, is read as exactly
  // these two.
  lemma ContractRecovered(model: seq<Field>, graph: seq<Field>, input: ValueInfo, output: ValueInfo)
    requires AllShaped(model) && AllEncodable(model) && AllShaped(graph) && AllEncodable(graph)
    requires EncodableInfo(input) && EncodableInfo(output)
    requires LengthFields(model, 7) == [EncodeFields(graph)]
    requires LengthFields(graph, 11) == [Encoded(input)] && LengthFields(graph, 12) == [Encoded(output)]
    ensures Inspect(EncodeFields(model)) == Ok(Contract(input, output))
  {
    hide Fields, EncodeFields, Encodable, ParseValueInfo, Encoded, ParseAll;
    FieldsRoundTrip(model);
    FieldsRoundTrip(graph);
    ValueInfoRecovered(input);
    ValueInfoRecovered(output);
    ParseOne(Encoded(input), input);
    ParseOne(Encoded(output), output);
  }

  lemma ParseOne(b: seq<Byte>, v: ValueInfo)
    requires ParseValueInfo(b) == Ok(v)
    ensures ParseAll([b]) == Ok([v])
  {
    hide ParseValueInfo;
    assert [b][1..] == [];
    assert [v] + [] == [v];
  }
}
