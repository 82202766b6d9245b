/** Messages as dictionaries of named fields, encoded and decoded by a schema. */
module Messages {
  import opened Common
  import opened Wire
  import Utf8

  /** `Unsigned` stands for both `uint32` and `enum`. */
  datatype Kind = String | ByteString | Bool | Unsigned

  datatype FieldSpec = FieldSpec(name: string, number: nat, kind: Kind)

  datatype FieldValue = Text(text: string) | Raw(bytes: Bytes) | Flag(on: bool) | Number(n: nat)

  // ---------------------------------------------------------------- the generated schema

  const STATUS_REQUEST: seq<FieldSpec> := [
    FieldSpec("protocol_version", 1, Unsigned), FieldSpec("client_version", 2, String)]
  const STATUS_RESPONSE: seq<FieldSpec> := [
    FieldSpec("hostname", 1, String), FieldSpec("host_version", 2, String), FieldSpec("protocol_version", 3, Unsigned),
    FieldSpec("paired", 4, Bool), FieldSpec("host_id", 5, String)]
  const PAIR_REQUEST: seq<FieldSpec> := [
    FieldSpec("protocol_version", 1, Unsigned), FieldSpec("client_spake2_message", 2, ByteString),
    FieldSpec("session_id", 3, ByteString), FieldSpec("client_confirmation", 4, ByteString),
    FieldSpec("client_version", 5, String)]
  const PAIR_RESPONSE: seq<FieldSpec> := [
    FieldSpec("host_spake2_message", 1, ByteString), FieldSpec("encryption_nonce", 2, ByteString),
    FieldSpec("encrypted_credential", 3, ByteString), FieldSpec("hostname", 4, String),
    FieldSpec("host_version", 5, String), FieldSpec("protocol_version", 6, Unsigned),
    FieldSpec("host_id", 7, String), FieldSpec("session_id", 8, ByteString)]
  const SHUTDOWN_REQUEST: seq<FieldSpec> := [
    FieldSpec("protocol_version", 1, Unsigned), FieldSpec("client_version", 2, String)]
  const SHUTDOWN_RESPONSE: seq<FieldSpec> := [FieldSpec("accepted", 1, Bool)]
  const ERROR_RESPONSE: seq<FieldSpec> := [FieldSpec("code", 1, Unsigned), FieldSpec("message", 2, String)]

  /** Field numbers and names identify fields, and tags are short enough to read back. */
  predicate WellFormed(schema: seq<FieldSpec>) {
    && (forall i :: 0 <= i < |schema| ==> 1 <= schema[i].number < 0x1_0000_0000)
    && (forall i, j :: 0 <= i < j < |schema| ==>
          schema[i].number != schema[j].number && schema[i].name != schema[j].name)
  }

  /** Names that differ in length or in their first letter are different. */
  function Hallmark(name: string): (nat, char) {
    (|name|, if name == [] then ' ' else name[0])
  }

  lemma DistinctHallmarks(schema: seq<FieldSpec>)
    requires forall i :: 0 <= i < |schema| ==> schema[i].number == i + 1
    requires forall i, j :: 0 <= i < j < |schema| ==> Hallmark(schema[i].name) != Hallmark(schema[j].name)
    requires |schema| < 100
    ensures WellFormed(schema)
  {
  }

  lemma RequestsAreWellFormed()
    ensures WellFormed(STATUS_REQUEST) && WellFormed(PAIR_REQUEST) && WellFormed(SHUTDOWN_REQUEST)
  {
    DistinctHallmarks(STATUS_REQUEST);
    DistinctHallmarks(PAIR_REQUEST);
    DistinctHallmarks(SHUTDOWN_REQUEST);
  }

  lemma ResponsesAreWellFormed()
    ensures WellFormed(STATUS_RESPONSE) && WellFormed(PAIR_RESPONSE) && WellFormed(SHUTDOWN_RESPONSE)
            && WellFormed(ERROR_RESPONSE)
  {
    DistinctHallmarks(STATUS_RESPONSE);
    DistinctHallmarks(PAIR_RESPONSE);
    DistinctHallmarks(SHUTDOWN_RESPONSE);
    DistinctHallmarks(ERROR_RESPONSE);
  }

  // ---------------------------------------------------------------- decoding

  function ExpectedWire(kind: Kind): nat {
    if kind == String || kind == ByteString then 2 else 0
  }

  function DecodeValue(kind: Kind, entry: Entry): Result<FieldValue, DecodeError> {
    if entry.wire != ExpectedWire(kind) then Err(WrongWireType)
    else
      match (kind, entry.value)
      case (String, Blob(bytes)) =>
        (var s := Utf8.Decode(bytes); if s.None? then Err(InvalidUtf8) else Ok(Text(s.value)))
      case (ByteString, Blob(bytes)) => Ok(Raw(bytes))
      case (Bool, Int(n)) => Ok(Flag(n != 0))
      case (Unsigned, Int(n)) => Ok(Number(n))
      case _ => Err(WrongWireType)
  }

  function Decoded(schema: seq<FieldSpec>, encoded: map<nat, Entry>): Result<map<string, FieldValue>, DecodeError> {
    if schema == [] then Ok(map[])
    else
      var spec := schema[|schema| - 1];
      var front := Decoded(schema[..|schema| - 1], encoded);
      if front.Err? || spec.number !in encoded then front
      else
        var v := DecodeValue(spec.kind, encoded[spec.number]);
        if v.Err? then Err(v.error) else Ok(front.value[spec.name := v.value])
  }

  function MessageIn(schema: seq<FieldSpec>, data: Bytes): Result<map<string, FieldValue>, DecodeError> {
    var encoded := FieldsIn(data);
    if encoded.Err? then Err(encoded.error) else Decoded(schema, encoded.value)
  }

  lemma {:induction false} DecodedError(schema: seq<FieldSpec>, encoded: map<nat, Entry>, k: nat)
    requires k <= |schema| && Decoded(schema[..k], encoded).Err?
    ensures Decoded(schema, encoded) == Decoded(schema[..k], encoded)
  {
    if k == |schema| {
      assert schema[..k] == schema;
    } else {
      var n := |schema| - 1;
      assert schema[..n][..k] == schema[..k];
      DecodedError(schema[..n], encoded, k);
    }
  }

  method DecodeMessage(schema: seq<FieldSpec>, data: Bytes) returns (r: Result<map<string, FieldValue>, DecodeError>)
    ensures r == MessageIn(schema, data)
  {
    var encoded := ParseFields(data);
    if encoded.Err? {
      return Err(encoded.error);
    }
    var decoded: map<string, FieldValue> := map[];
    for i := 0 to |schema|
      invariant Decoded(schema[..i], encoded.value) == Ok(decoded)
    {
      var spec := schema[i];
      assert schema[..i + 1][..i] == schema[..i];
      if spec.number in encoded.value {
        var v := DecodeValue(spec.kind, encoded.value[spec.number]);
        if v.Err? {
          DecodedError(schema, encoded.value, i + 1);
          return Err(v.error);
        }
        decoded := decoded[spec.name := v.value];
      }
    }
    assert schema[..|schema|] == schema;
    return Ok(decoded);
  }

  // ---------------------------------------------------------------- exactly what is decoded

  /** An entry of the right wire type that reads as this value; text must be strictly encoded. */
  predicate Reads(kind: Kind, e: Entry, v: FieldValue) {
    match kind
    case String => e.wire == 2 && v.Text? && e.value == Blob(Utf8.Encode(v.text))
    case ByteString => e.wire == 2 && v.Raw? && e.value == Blob(v.bytes)
    case Bool => e.wire == 0 && e.value.Int? && v == Flag(e.value.n != 0)
    case Unsigned => e.wire == 0 && v.Number? && e.value == Int(v.n)
  }

  lemma DecodeValueIff(kind: Kind, e: Entry, v: FieldValue)
    ensures DecodeValue(kind, e) == Ok(v) <==> Reads(kind, e, v)
  {
    if kind == String && e.value.Blob? && v.Text? {
      Utf8.DecodesExactly(e.value.bytes, v.text);
    }
  }

  /** A value that does not read has the wrong wire type, or is text that is not strictly encoded. */
  lemma DecodeValueErrors(kind: Kind, e: Entry)
    requires e.value.Int? <==> e.wire == 0
    ensures var r, wire := DecodeValue(kind, e), if kind == String || kind == ByteString then 2 else 0;
            && (r == Err(WrongWireType) <==> e.wire != wire)
            && (r == Err(InvalidUtf8) <==> kind == String && e.wire == 2 && forall s :: e.value != Blob(Utf8.Encode(s)))
            && (r.Err? ==> r.error in {WrongWireType, InvalidUtf8})
  {
    if kind == String && e.wire == 2 {
      forall s ensures Utf8.Decode(e.value.bytes) == Some(s) <==> e.value == Blob(Utf8.Encode(s)) {
        Utf8.DecodesExactly(e.value.bytes, s);
      }
      if Utf8.Decode(e.value.bytes).Some? {
        assert e.value == Blob(Utf8.Encode(Utf8.Decode(e.value.bytes).value));
      }
    }
  }

  /** The first field of the schema that does not read decides the error. */
  lemma {:induction false} FirstErrorWins(schema: seq<FieldSpec>, encoded: map<nat, Entry>, k: nat)
    requires k < |schema| && schema[k].number in encoded && DecodeValue(schema[k].kind, encoded[schema[k].number]).Err?
    requires forall i :: 0 <= i < k && schema[i].number in encoded ==>
               DecodeValue(schema[i].kind, encoded[schema[i].number]).Ok?
    ensures Decoded(schema, encoded) == Err(DecodeValue(schema[k].kind, encoded[schema[k].number]).error)
  {
    AllDecodeOk(schema[..k], encoded);
    assert schema[..k + 1][..k] == schema[..k];
    DecodedError(schema, encoded, k + 1);
  }

  lemma {:induction false} AllDecodeOk(schema: seq<FieldSpec>, encoded: map<nat, Entry>)
    requires forall i :: 0 <= i < |schema| && schema[i].number in encoded ==>
               DecodeValue(schema[i].kind, encoded[schema[i].number]).Ok?
    ensures Decoded(schema, encoded).Ok?
  {
    if schema != [] {
      AllDecodeOk(schema[..|schema| - 1], encoded);
    }
  }

  /** The field is absent on both sides, or its entry reads as its value. */
  predicate Decodes(spec: FieldSpec, encoded: map<nat, Entry>, d: map<string, FieldValue>) {
    if spec.number in encoded then spec.name in d && Reads(spec.kind, encoded[spec.number], d[spec.name])
    else spec.name !in d
  }

  ghost predicate DecodesAll(schema: seq<FieldSpec>, encoded: map<nat, Entry>, d: map<string, FieldValue>) {
    && (forall i :: 0 <= i < |schema| ==> Decodes(schema[i], encoded, d))
    && (forall name :: name in d ==> Named(schema, name))
  }

  ghost predicate Named(schema: seq<FieldSpec>, name: string) {
    exists i :: 0 <= i < |schema| && schema[i].name == name
  }

  lemma NamedFront(schema: seq<FieldSpec>, name: string)
    requires schema != []
    ensures var n := |schema| - 1;
            Named(schema, name) <==> name == schema[n].name || Named(schema[..n], name)
  {
    var n := |schema| - 1;
    if i :| 0 <= i < |schema| && schema[i].name == name {
      if i < n {
        assert schema[..n][i].name == name;
      }
    }
  }

  lemma DecodesFront(schema: seq<FieldSpec>, encoded: map<nat, Entry>, d: map<string, FieldValue>)
    requires schema != [] && WellFormed(schema)
    ensures var n := |schema| - 1;
            DecodesAll(schema, encoded, d) <==>
              DecodesAll(schema[..n], encoded, d - {schema[n].name}) && Decodes(schema[n], encoded, d)
  {
    var n := |schema| - 1;
    var front := d - {schema[n].name};
    assert forall i :: 0 <= i < n ==> schema[..n][i] == schema[i] && schema[i].name != schema[n].name;
    assert forall i :: 0 <= i < n ==> (Decodes(schema[i], encoded, d) <==> Decodes(schema[i], encoded, front));
    forall name ensures Named(schema, name) <==> name == schema[n].name || Named(schema[..n], name) {
      NamedFront(schema, name);
    }
    if DecodesAll(schema[..n], encoded, front) && Decodes(schema[n], encoded, d) {
      forall i | 0 <= i < |schema| ensures Decodes(schema[i], encoded, d) {
        if i < n {
          assert Decodes(schema[..n][i], encoded, front);
        }
      }
    }
  }

  lemma {:induction false} DecodedIff(schema: seq<FieldSpec>, encoded: map<nat, Entry>, d: map<string, FieldValue>)
    requires WellFormed(schema)
    ensures Decoded(schema, encoded) == Ok(d) <==> DecodesAll(schema, encoded, d)
  {
    if schema != [] {
      var n := |schema| - 1;
      var spec := schema[n];
      DecodesFront(schema, encoded, d);
      DecodedIff(schema[..n], encoded, d - {spec.name});
      if spec.number in encoded && spec.name in d {
        DecodeValueIff(spec.kind, encoded[spec.number], d[spec.name]);
      }
      LastDecoded(schema, encoded, d);
    } else {
      assert Decoded(schema, encoded) == Ok(map[]);
    }
  }

  lemma LastDecoded(schema: seq<FieldSpec>, encoded: map<nat, Entry>, d: map<string, FieldValue>)
    requires schema != [] && WellFormed(schema)
    ensures var n := |schema| - 1;
            var spec, front := schema[n], Decoded(schema[..n], encoded);
            Decoded(schema, encoded) == Ok(d) <==>
              front == Ok(d - {spec.name})
              && (if spec.number in encoded then
                    spec.name in d && DecodeValue(spec.kind, encoded[spec.number]) == Ok(d[spec.name])
                  else spec.name !in d)
  {
    var n := |schema| - 1;
    var spec, front := schema[n], Decoded(schema[..n], encoded);
    DecodedNames(schema[..n], encoded);
    if front.Ok? {
      assert spec.name !in front.value;
      assert spec.name in d ==> d == (d - {spec.name})[spec.name := d[spec.name]];
      assert spec.name !in d ==> d == d - {spec.name};
      if spec.number in encoded && DecodeValue(spec.kind, encoded[spec.number]).Ok? {
        var v := DecodeValue(spec.kind, encoded[spec.number]).value;
        assert front.value[spec.name := v] - {spec.name} == front.value;
      }
    }
  }

  /** Only names of the schema are decoded. */
  lemma {:induction false} DecodedNames(schema: seq<FieldSpec>, encoded: map<nat, Entry>)
    ensures Decoded(schema, encoded).Ok? ==>
              forall name :: name in Decoded(schema, encoded).value ==> Named(schema, name)
  {
    if schema != [] {
      var n := |schema| - 1;
      DecodedNames(schema[..n], encoded);
      forall name ensures Named(schema, name) <==> name == schema[n].name || Named(schema[..n], name) {
        NamedFront(schema, name);
      }
    }
  }

  /** Exactly which bytes decode, and to what: fields that parse, of which those of the schema have the
      right wire type and strict text, and the dictionary has exactly their values. */
  lemma MessageExactly(schema: seq<FieldSpec>, data: Bytes, d: map<string, FieldValue>)
    requires WellFormed(schema)
    ensures MessageIn(schema, data) == Ok(d) <==> FieldsIn(data).Ok? && DecodesAll(schema, FieldsIn(data).value, d)
  {
    if FieldsIn(data).Ok? {
      DecodedIff(schema, FieldsIn(data).value, d);
    }
  }

  // ---------------------------------------------------------------- unknown fields

  /** Only the numbers of the schema matter to decoding. */
  lemma {:induction false} DecodedIgnores(schema: seq<FieldSpec>, m: map<nat, Entry>, n: map<nat, Entry>)
    requires forall i :: 0 <= i < |schema| ==>
               (schema[i].number in m <==> schema[i].number in n)
               && (schema[i].number in m ==> m[schema[i].number] == n[schema[i].number])
    ensures Decoded(schema, m) == Decoded(schema, n)
  {
    if schema != [] {
      DecodedIgnores(schema[..|schema| - 1], m, n);
    }
  }

  /** Fields unknown to the schema, wherever they are inserted between fields, never change what is
      decoded or which error is raised. */
  lemma UnknownFieldsAreIgnored(schema: seq<FieldSpec>, a: Bytes, unknown: Bytes, b: Bytes)
    requires FieldsIn(a).Ok? && FieldsIn(unknown).Ok?
    requires forall i :: 0 <= i < |schema| ==> schema[i].number !in FieldsIn(unknown).value
    ensures MessageIn(schema, a + unknown + b) == MessageIn(schema, a + b)
  {
    ParsingMerges(a, unknown);
    ParsingMerges(a + unknown, b);
    ParsingMerges(a, b);
    if FieldsIn(b).Ok? {
      DecodedIgnores(schema, FieldsIn(a + unknown + b).value, FieldsIn(a + b).value);
    }
  }

  // ---------------------------------------------------------------- encoding

  predicate WellTyped(kind: Kind, v: FieldValue) {
    match kind
    case String => v.Text?
    case ByteString => v.Raw?
    case Bool => v.Flag?
    case Unsigned => v.Number?
  }

  function EntryOf(kind: Kind, v: FieldValue): Entry
    requires WellTyped(kind, v)
  {
    match v
    case Text(s) => Entry(2, Blob(Utf8.Encode(s)))
    case Raw(bytes) => Entry(2, Blob(bytes))
    case Flag(on) => Entry(0, Int(if on then 1 else 0))
    case Number(n) => Entry(0, Int(n))
  }

  /** A flag is encoded as one or zero, and every value with the wire type that its kind is decoded with. */
  lemma EntriesAreCanonical(kind: Kind, v: FieldValue)
    requires WellTyped(kind, v)
    ensures EntryOf(kind, v).wire == ExpectedWire(kind) && Reads(kind, EntryOf(kind, v), v)
    ensures v.Flag? ==> EntryOf(kind, v).value in {Int(0), Int(1)} && (v.on <==> EntryOf(kind, v).value == Int(1))
  {
  }

  /** `uint`, `blob` and `text`. */
  function EncodeField(number: nat, e: Entry): Bytes {
    match e.value
    case Int(n) => Varint(8 * number) + Varint(n)
    case Blob(bytes) => Varint(8 * number + 2) + Varint(|bytes|) + bytes
  }

  function Lookup(schema: seq<FieldSpec>, name: string): (r: Option<FieldSpec>)
    ensures r.Some? ==> r.value in schema && r.value.name == name
    ensures r.None? ==> forall i :: 0 <= i < |schema| ==> schema[i].name != name
  {
    if schema == [] then None else if schema[0].name == name then Some(schema[0]) else Lookup(schema[1..], name)
  }

  /** Every entry names a field of the schema, with a value of its kind. */
  predicate Encodable(schema: seq<FieldSpec>, values: seq<(string, FieldValue)>) {
    forall i :: 0 <= i < |values| ==>
      Lookup(schema, values[i].0).Some? && WellTyped(Lookup(schema, values[i].0).value.kind, values[i].1)
  }

  function EncodeOne(schema: seq<FieldSpec>, name: string, v: FieldValue): Bytes
    requires Lookup(schema, name).Some? && WellTyped(Lookup(schema, name).value.kind, v)
  {
    var spec := Lookup(schema, name).value;
    EncodeField(spec.number, EntryOf(spec.kind, v))
  }

  function Encoded(schema: seq<FieldSpec>, values: seq<(string, FieldValue)>): Bytes
    requires Encodable(schema, values)
  {
    if values == [] then [] else EncodeOne(schema, values[0].0, values[0].1) + Encoded(schema, values[1..])
  }

  method EncodeUint(number: nat, value: nat) returns (r: Bytes)
    ensures r == EncodeField(number, Entry(0, Int(value)))
  {
    var tag := EncodeVarint(8 * number);
    var body := EncodeVarint(value);
    return tag + body;
  }

  method EncodeBlob(number: nat, value: Bytes) returns (r: Bytes)
    ensures r == EncodeField(number, Entry(2, Blob(value)))
  {
    var tag := EncodeVarint(8 * number + 2);
    var length := EncodeVarint(|value|);
    return tag + length + value;
  }

  /** What Python's `str`, `bytes` or `int` makes of a value for a kind of field; `None` if it raises. */
  type Conversion = (Kind, FieldValue) -> Option<Value>

  /** Values of the right type are kept; about the others nothing is assumed. */
  ghost predicate KeepsTyped(content: Conversion) {
    forall kind, v :: WellTyped(kind, v) ==> content(kind, v) == Some(EntryOf(kind, v).value)
  }

  /** The name is in the schema, and the value converts. */
  predicate Convertible(schema: seq<FieldSpec>, value: (string, FieldValue), content: Conversion) {
    var spec := Lookup(schema, value.0);
    spec.Some? && content(spec.value.kind, value.1).Some?
  }

  function Part(schema: seq<FieldSpec>, value: (string, FieldValue), content: Conversion): Bytes
    requires Convertible(schema, value, content)
  {
    var spec := Lookup(schema, value.0).value;
    var v := content(spec.kind, value.1).value;
    EncodeField(spec.number, Entry(if v.Int? then 0 else 2, v))
  }

  /** The encoded fields joined, or `None` if one raises. */
  function Assembled(schema: seq<FieldSpec>, values: seq<(string, FieldValue)>, content: Conversion): Option<Bytes> {
    if values == [] then Some([])
    else
      var n := |values| - 1;
      var front := Assembled(schema, values[..n], content);
      if front.None? || !Convertible(schema, values[n], content) then None
      else Some(front.value + Part(schema, values[n], content))
  }

  lemma {:induction false} AssembledPrefix(schema: seq<FieldSpec>, values: seq<(string, FieldValue)>,
                                           content: Conversion, k: nat)
    requires k <= |values| && Assembled(schema, values[..k], content).None?
    ensures Assembled(schema, values, content).None?
  {
    if k == |values| {
      assert values[..k] == values;
    } else {
      assert values[..|values| - 1][..k] == values[..k];
      AssembledPrefix(schema, values[..|values| - 1], content, k);
    }
  }

  /** The loop, for values of any type. */
  method EncodeMessage(schema: seq<FieldSpec>, values: seq<(string, FieldValue)>, content: Conversion)
    returns (r: Option<Bytes>)
    ensures r == Assembled(schema, values, content)
  {
    var output := [];
    for i := 0 to |values|
      invariant Assembled(schema, values[..i], content) == Some(output)
    {
      assert values[..i + 1][..i] == values[..i];
      var spec := Lookup(schema, values[i].0);
      if spec.None? {
        AssembledPrefix(schema, values, content, i + 1);
        return None;
      }
      var v := content(spec.value.kind, values[i].1);
      if v.None? {
        AssembledPrefix(schema, values, content, i + 1);
        return None;
      }
      var field;
      match v.value {
        case Int(n) => field := EncodeUint(spec.value.number, n);
        case Blob(bytes) => field := EncodeBlob(spec.value.number, bytes);
      }
      output := output + field;
    }
    assert values[..|values|] == values;
    return Some(output);
  }

  lemma {:induction false} EncodedAppend(schema: seq<FieldSpec>, values: seq<(string, FieldValue)>,
                                         last: (string, FieldValue))
    requires Encodable(schema, values) && Encodable(schema, values + [last])
    ensures Lookup(schema, last.0).Some? && WellTyped(Lookup(schema, last.0).value.kind, last.1)
    ensures Encoded(schema, values + [last]) == Encoded(schema, values) + EncodeOne(schema, last.0, last.1)
  {
    assert (values + [last])[|values|] == last;
    if values == [] {
      assert values + [last] == [last] && [last][1..] == [];
    } else {
      assert (values + [last])[1..] == values[1..] + [last];
      EncodedAppend(schema, values[1..], last);
    }
  }

  /** Encoding raises exactly when a name is not in the schema or a value does not convert; and what it
      makes of a well-typed message is the message's encoding. */
  lemma {:induction false} EncodesExactly(schema: seq<FieldSpec>, values: seq<(string, FieldValue)>,
                                          content: Conversion)
    requires KeepsTyped(content)
    ensures Assembled(schema, values, content).Some?
       <==> forall i :: 0 <= i < |values| ==> Convertible(schema, values[i], content)
    ensures Encodable(schema, values) ==> Assembled(schema, values, content) == Some(Encoded(schema, values))
  {
    if values != [] {
      var n := |values| - 1;
      EncodesExactly(schema, values[..n], content);
      assert values == values[..n] + [values[n]];
      if Encodable(schema, values) {
        EncodedAppend(schema, values[..n], values[n]);
      }
    }
  }

  // ---------------------------------------------------------------- round trip

  const VARINT_LIMIT: nat := 0x40_0000_0000_0000_0000

  /** The numbers and lengths that ten varint bytes can carry. */
  predicate Representable(v: FieldValue) {
    match v
    case Text(s) => |Utf8.Encode(s)| < VARINT_LIMIT
    case Raw(bytes) => |bytes| < VARINT_LIMIT
    case Flag(_) => true
    case Number(n) => n < VARINT_LIMIT
  }

  lemma TagRoundTrip(number: nat, wire: nat, rest: Bytes)
    requires 1 <= number < 0x1_0000_0000 && wire < 8
    ensures var tag := Varint(8 * number + wire);
            var content := ContentIn(rest, wire);
            FieldIn(tag + rest)
            == if content.Err? then Err(content.error)
               else Ok(Field(number, content.value.0, |tag| + content.value.1))
  {
    BudgetIsSeventyBits();
    var tag := Varint(8 * number + wire);
    VarintRoundTrip(8 * number + wire, rest, MAX_VARINT_BYTES);
    assert (tag + rest)[|tag|..] == rest;
  }

  /** Fixed-width fields, which the schema never uses, are skipped whole: eight bytes for wire type 1
      and four for wire type 5. */
  lemma FixedFieldsAreSkipped(number: nat, wide: bool, bytes: Bytes, tail: Bytes)
    requires 1 <= number < 0x1_0000_0000 && |bytes| == if wide then 8 else 4
    ensures var wire := if wide then 1 else 5;
            FieldsIn(Varint(8 * number + wire) + (bytes + tail))
            == Merge(map[number := Entry(wire, Blob(bytes))], FieldsIn(tail))
  {
    var wire := if wide then 1 else 5;
    FixedField(number, wire, bytes, tail);
    var tag := Varint(8 * number + wire);
    Reassociate(tag, bytes, [], tail);
    FirstField(tag + bytes, Field(number, Entry(wire, Blob(bytes)), |tag| + |bytes|), tail);
  }

  lemma FixedField(number: nat, wire: nat, bytes: Bytes, tail: Bytes)
    requires 1 <= number < 0x1_0000_0000 && ((wire == 1 && |bytes| == 8) || (wire == 5 && |bytes| == 4))
    ensures var tag := Varint(8 * number + wire);
            FieldIn(tag + (bytes + tail)) == Ok(Field(number, Entry(wire, Blob(bytes)), |tag| + |bytes|))
  {
    TagRoundTrip(number, wire, bytes + tail);
    assert (bytes + tail)[..|bytes|] == bytes;
  }

  lemma Reassociate(a: Bytes, b: Bytes, c: Bytes, d: Bytes)
    ensures a + b + c + d == a + (b + (c + d))
    ensures a + b + d == a + (b + d)
  {
  }

  lemma Grouped(a: Bytes, b: Bytes, c: Bytes, d: Bytes)
    ensures a + b + c + d == a + (b + c) + d && b + c + d == b + (c + d)
    ensures |a + b + c| == |a| + |b| + |c|
  {
  }

  /** A field whose content is followed by more. */
  lemma TagThen(number: nat, wire: nat, body: Bytes, tail: Bytes)
    requires 1 <= number < 0x1_0000_0000 && wire < 8
    ensures var tag := Varint(8 * number + wire);
            var content := ContentIn(body + tail, wire);
            FieldIn(tag + body + tail)
            == if content.Err? then Err(content.error)
               else Ok(Field(number, content.value.0, |tag| + content.value.1))
  {
    Reassociate(Varint(8 * number + wire), body, [], tail);
    TagRoundTrip(number, wire, body + tail);
  }

  lemma UintRoundTrip(number: nat, n: nat, tail: Bytes)
    requires 1 <= number < 0x1_0000_0000
    ensures var data := EncodeField(number, Entry(0, Int(n)));
            FieldIn(data + tail)
            == if n < VARINT_LIMIT then Ok(Field(number, Entry(0, Int(n)), |data|)) else Err(OversizedVarint)
  {
    TagThen(number, 0, Varint(n), tail);
    UintContent(n, tail);
  }

  lemma UintContent(n: nat, tail: Bytes)
    ensures ContentIn(Varint(n) + tail, 0)
         == if n < VARINT_LIMIT then Ok((Entry(0, Int(n)), |Varint(n)|)) else Err(OversizedVarint)
  {
    BudgetIsSeventyBits();
    VarintRoundTrip(n, tail, MAX_VARINT_BYTES);
  }

  lemma BlobContent(bytes: Bytes, tail: Bytes)
    ensures ContentIn(Varint(|bytes|) + (bytes + tail), 2)
         == if |bytes| < VARINT_LIMIT then Ok((Entry(2, Blob(bytes)), |Varint(|bytes|)| + |bytes|))
            else Err(OversizedVarint)
  {
    BudgetIsSeventyBits();
    VarintRoundTrip(|bytes|, bytes + tail, MAX_VARINT_BYTES);
    var k := |Varint(|bytes|)|;
    assert (Varint(|bytes|) + (bytes + tail))[k..k + |bytes|] == bytes;
  }

  lemma BlobRoundTrip(number: nat, bytes: Bytes, tail: Bytes)
    requires 1 <= number < 0x1_0000_0000
    ensures var data := EncodeField(number, Entry(2, Blob(bytes)));
            FieldIn(data + tail)
            == if |bytes| < VARINT_LIMIT then Ok(Field(number, Entry(2, Blob(bytes)), |data|)) else Err(OversizedVarint)
  {
    var tag, length := Varint(8 * number + 2), Varint(|bytes|);
    Grouped(tag, length, bytes, tail);
    TagThen(number, 2, length + bytes, tail);
    BlobContent(bytes, tail);
  }

  ghost predicate AllRepresentable(values: seq<(string, FieldValue)>) {
    forall i :: 0 <= i < |values| ==> Representable(values[i].1)
  }

  lemma AllRepresentableRest(values: seq<(string, FieldValue)>)
    requires values != []
    ensures AllRepresentable(values) <==> Representable(values[0].1) && AllRepresentable(values[1..])
  {
    assert forall i :: 1 <= i < |values| ==> values[i] == values[1..][i - 1];
  }

  lemma FieldRoundTrip(number: nat, kind: Kind, v: FieldValue, tail: Bytes)
    requires 1 <= number < 0x1_0000_0000 && WellTyped(kind, v)
    ensures var e := EntryOf(kind, v);
            var data := EncodeField(number, e);
            FieldIn(data + tail) == if Representable(v) then Ok(Field(number, e, |data|)) else Err(OversizedVarint)
  {
    match EntryOf(kind, v).value
    case Int(n) => UintRoundTrip(number, n, tail);
    case Blob(bytes) => BlobRoundTrip(number, bytes, tail);
  }

  /** The dictionary, later entries replacing earlier ones. */
  function Dictionary(values: seq<(string, FieldValue)>): map<string, FieldValue> {
    if values == [] then map[] else map[values[0].0 := values[0].1] + Dictionary(values[1..])
  }

  /** The parsed fields are exactly the encoded values of the dictionary. */
  ghost predicate Carries(schema: seq<FieldSpec>, m: map<nat, Entry>, d: map<string, FieldValue>) {
    forall i :: 0 <= i < |schema| ==>
      && (schema[i].number in m <==> schema[i].name in d)
      && (schema[i].name in d ==> WellTyped(schema[i].kind, d[schema[i].name])
                                  && m[schema[i].number] == EntryOf(schema[i].kind, d[schema[i].name]))
  }

  lemma CarriesOne(schema: seq<FieldSpec>, spec: FieldSpec, v: FieldValue, m: map<nat, Entry>,
                   d: map<string, FieldValue>)
    requires WellFormed(schema) && spec in schema && WellTyped(spec.kind, v) && Carries(schema, m, d)
    ensures Carries(schema, map[spec.number := EntryOf(spec.kind, v)] + m, map[spec.name := v] + d)
  {
  }

  lemma FirstField(data: Bytes, f: Field, tail: Bytes)
    requires data != [] && f.length == |data| && FieldIn(data + tail) == Ok(f)
    ensures FieldsIn(data + tail) == Merge(map[f.number := f.entry], FieldsIn(tail))
  {
    assert (data + tail)[|data|..] == tail;
  }

  lemma {:induction false} EncodedFields(schema: seq<FieldSpec>, values: seq<(string, FieldValue)>)
    requires WellFormed(schema) && Encodable(schema, values)
    ensures var m := FieldsIn(Encoded(schema, values));
            if AllRepresentable(values) then m.Ok? && Carries(schema, m.value, Dictionary(values))
            else m == Err(OversizedVarint)
  {
    if values != [] {
      var (name, v) := values[0];
      var spec := Lookup(schema, name).value;
      var data, tail := EncodeOne(schema, name, v), Encoded(schema, values[1..]);
      FieldRoundTrip(spec.number, spec.kind, v, tail);
      assert Encodable(schema, values[1..]) by {
        assert forall i :: 0 <= i < |values[1..]| ==> values[1..][i] == values[i + 1];
      }
      EncodedFields(schema, values[1..]);
      AllRepresentableRest(values);
      assert data != [];
      if Representable(v) {
        FirstField(data, Field(spec.number, EntryOf(spec.kind, v), |data|), tail);
        if FieldsIn(tail).Ok? {
          CarriesOne(schema, spec, v, FieldsIn(tail).value, Dictionary(values[1..]));
        }
      }
    }
  }

  lemma CarriedDecodes(schema: seq<FieldSpec>, m: map<nat, Entry>, d: map<string, FieldValue>)
    requires Carries(schema, m, d) && forall name :: name in d ==> Named(schema, name)
    ensures DecodesAll(schema, m, d)
  {
  }

  lemma {:induction false} DictionaryIsNamed(schema: seq<FieldSpec>, values: seq<(string, FieldValue)>, name: string)
    requires Encodable(schema, values) && name in Dictionary(values)
    ensures Named(schema, name)
  {
    if name == values[0].0 {
      var spec := Lookup(schema, name).value;
      var i :| 0 <= i < |schema| && schema[i] == spec;
      assert schema[i].name == name;
    } else {
      assert forall i :: 0 <= i < |values[1..]| ==> values[1..][i] == values[i + 1];
      DictionaryIsNamed(schema, values[1..], name);
    }
  }

  /** Decoding an encoded message returns the original dictionary, for every schema and every
      well-typed message whose numbers and lengths are below 2^70; any larger one makes the encoded
      message unreadable. */
  lemma MessageRoundTrip(schema: seq<FieldSpec>, values: seq<(string, FieldValue)>)
    requires WellFormed(schema) && Encodable(schema, values)
    ensures MessageIn(schema, Encoded(schema, values))
         == if AllRepresentable(values) then Ok(Dictionary(values)) else Err(OversizedVarint)
  {
    EncodedFields(schema, values);
    var d, m := Dictionary(values), FieldsIn(Encoded(schema, values));
    if m.Ok? {
      forall name | name in d ensures Named(schema, name) {
        DictionaryIsNamed(schema, values, name);
      }
      CarriedDecodes(schema, m.value, d);
      DecodedIff(schema, m.value, d);
    }
  }
}
