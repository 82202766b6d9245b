/** The Deck's Protobuf codec: base-128 varints, fields by number with the last one winning, and
    messages described by a schema. Shifts and masks are written as arithmetic. */
module Wire {
  import opened Common

  datatype DecodeError =
    | TruncatedVarint | OversizedVarint | FieldZero | TruncatedField | TruncatedFixed | UnsupportedWireType
    | WrongWireType | InvalidUtf8

  // ---------------------------------------------------------------- varints

  const MAX_VARINT_BYTES: nat := 10

  function Pow128(k: nat): nat {
    if k == 0 then 1 else 128 * Pow128(k - 1)
  }

  function Varint(value: nat): Bytes {
    if value < 128 then [value] else [value % 128 + 128] + Varint(value / 128)
  }

  method EncodeVarint(value: nat) returns (output: Bytes)
    ensures output == Varint(value)
  {
    output := [];
    var v := value;
    while v > 0x7f
      invariant output + Varint(v) == Varint(value)
      decreases v
    {
      output := output + [v % 128 + 128];
      v := v / 128;
    }
    output := output + [v];
  }

  /** The value of the varint at the start of `data` and its length, reading at most `budget` bytes. */
  function VarintIn(data: Bytes, budget: nat): Result<(nat, nat), DecodeError> {
    if budget == 0 then Err(OversizedVarint)
    else if data == [] then Err(TruncatedVarint)
    else if data[0] < 128 then Ok((data[0], 1))
    else
      var rest := VarintIn(data[1..], budget - 1);
      if rest.Err? then rest else Ok((data[0] - 128 + 128 * rest.value.0, 1 + rest.value.1))
  }

  lemma {:induction false} VarintLength(data: Bytes, budget: nat)
    ensures VarintIn(data, budget).Ok? ==> 1 <= VarintIn(data, budget).value.1 <= |data|
  {
    if budget > 0 && data != [] {
      VarintLength(data[1..], budget - 1);
    }
  }

  /** `x << 7 * i`. */
  function Shift(x: nat, i: nat): nat {
    if i == 0 then x else 128 * Shift(x, i - 1)
  }

  lemma {:induction false} ShiftIn(low: nat, high: nat, i: nat)
    ensures Shift(low + 128 * high, i) == Shift(low, i) + Shift(high, i + 1)
  {
    if i > 0 {
      ShiftIn(low, high, i - 1);
    }
  }

  /** The low part read so far, joined with what the rest yields. */
  function Accumulate(value: nat, i: nat, rest: Result<(nat, nat), DecodeError>): Result<(nat, nat), DecodeError> {
    if rest.Err? then rest else Ok((value + Shift(rest.value.0, i), i + rest.value.1))
  }

  lemma AccumulateStep(data: Bytes, at: nat, budget: nat, value: nat, i: nat)
    requires at < |data| && budget > 0
    ensures var whole := Accumulate(value, i, VarintIn(data[at..], budget));
            var low := data[at] % 128;
            && (data[at] < 128 ==> whole == Ok((value + Shift(low, i), i + 1)))
            && (data[at] >= 128 ==>
                  whole == Accumulate(value + Shift(low, i), i + 1, VarintIn(data[at + 1..], budget - 1)))
  {
    assert data[at..][0] == data[at] && data[at..][1..] == data[at + 1..];
    var rest := VarintIn(data[at + 1..], budget - 1);
    if data[at] >= 128 && rest.Ok? {
      ShiftIn(data[at] % 128, rest.value.0, i);
    }
  }

  /** Reads the varint at `offset`, accumulating seven bits at a time from the low end. */
  method ReadVarint(data: Bytes, offset: nat) returns (r: Result<(nat, nat), DecodeError>)
    requires offset <= |data|
    ensures var v := VarintIn(data[offset..], MAX_VARINT_BYTES);
            r == if v.Err? then Err(v.error) else Ok((v.value.0, offset + v.value.1))
    ensures r.Ok? ==> offset < r.value.1 <= |data|
  {
    var value: nat := 0;
    ghost var whole := VarintIn(data[offset..], MAX_VARINT_BYTES);
    assert whole == Accumulate(0, 0, whole);
    for i := 0 to MAX_VARINT_BYTES
      invariant offset + i <= |data|
      invariant whole == Accumulate(value, i, VarintIn(data[offset + i..], MAX_VARINT_BYTES - i))
    {
      if offset + i >= |data| {
        return Err(TruncatedVarint);
      }
      var b := data[offset + i];
      AccumulateStep(data, offset + i, MAX_VARINT_BYTES - i, value, i);
      value := value + Shift(b % 128, i);
      if b < 128 {
        return Ok((value, offset + i + 1));
      }
    }
    return Err(OversizedVarint);
  }

  /** A varint is read back, whatever follows it, if and only if it fits in the byte budget. */
  lemma {:induction false} VarintRoundTrip(value: nat, tail: Bytes, budget: nat)
    requires budget > 0 || value > 0
    ensures VarintIn(Varint(value) + tail, budget)
         == if value < Pow128(budget) then Ok((value, |Varint(value)|)) else Err(OversizedVarint)
  {
    var data := Varint(value) + tail;
    if budget > 0 && value >= 128 {
      VarintRoundTrip(value / 128, tail, budget - 1);
      assert data[1..] == Varint(value / 128) + tail;
    }
    if budget > 0 && value < 128 {
      assert Pow128(budget) >= 128 by { PowPositive(budget - 1); }
    }
  }

  lemma {:induction false} PowPositive(k: nat)
    ensures Pow128(k) >= 1
  {
    if k > 0 {
      PowPositive(k - 1);
    }
  }

  /** The number whose groups of seven bits the bytes carry, least significant first. */
  function Groups(b: Bytes): nat {
    if b == [] then 0 else Groups(b[..|b| - 1]) + Shift(b[|b| - 1] % 128, |b| - 1)
  }

  /** A varint: every byte but the last has its high bit set. */
  predicate IsVarint(b: Bytes) {
    b != [] && b[|b| - 1] < 128 && forall i :: 0 <= i < |b| - 1 ==> b[i] >= 128
  }

  lemma {:induction false} GroupsFirst(b: Bytes)
    requires b != []
    ensures Groups(b) == b[0] % 128 + 128 * Groups(b[1..])
  {
    if |b| > 1 {
      var n := |b| - 1;
      GroupsFirst(b[..n]);
      assert b[..n][1..] == b[1..][..n - 1];
      assert Shift(b[n] % 128, n) == 128 * Shift(b[n] % 128, n - 1);
    } else {
      assert b[..0] == [];
    }
  }

  /** Reading accepts exactly the varints that fit in the budget, minimal or not, as the number their
      groups make up. */
  lemma {:induction false} VarintExactly(data: Bytes, budget: nat, value: nat, n: nat)
    ensures VarintIn(data, budget) == Ok((value, n))
       <==> n <= budget && n <= |data| && IsVarint(data[..n]) && value == Groups(data[..n])
  {
    VarintLength(data, budget);
    if VarintIn(data, budget).Ok? {
      VarintSound(data, budget);
    }
    if n <= budget && n <= |data| && IsVarint(data[..n]) {
      VarintComplete(data, budget, n);
    }
  }

  lemma {:induction false} VarintSound(data: Bytes, budget: nat)
    requires VarintIn(data, budget).Ok?
    ensures var (value, n) := VarintIn(data, budget).value;
            1 <= n <= budget && n <= |data| && IsVarint(data[..n]) && value == Groups(data[..n])
  {
    if data[0] >= 128 {
      VarintSound(data[1..], budget - 1);
      VarintParts(data, VarintIn(data[1..], budget - 1).value.1 + 1);
    } else {
      VarintParts(data, 1);
      assert data[1..][..0] == [];
    }
  }

  lemma {:induction false} VarintComplete(data: Bytes, budget: nat, n: nat)
    requires n <= budget && n <= |data| && IsVarint(data[..n])
    ensures VarintIn(data, budget) == Ok((Groups(data[..n]), n))
  {
    VarintParts(data, n);
    if data[0] >= 128 {
      VarintComplete(data[1..], budget - 1, n - 1);
    } else {
      assert data[1..][..0] == [];
    }
  }

  lemma VarintParts(data: Bytes, n: nat)
    requires 0 < n <= |data|
    ensures Groups(data[..n]) == data[0] % 128 + 128 * Groups(data[1..][..n - 1])
    ensures data[0] < 128 ==> (IsVarint(data[..n]) <==> n == 1)
    ensures data[0] >= 128 ==> (IsVarint(data[..n]) <==> IsVarint(data[1..][..n - 1]))
  {
    var b := data[..n];
    GroupsFirst(b);
    assert b[1..] == data[1..][..n - 1] && b[0] == data[0];
    assert forall i :: 0 <= i < |b[1..]| ==> b[1..][i] == b[i + 1];
    if n == 1 {
      assert b[1..] == [];
    } else if IsVarint(b[1..]) && data[0] >= 128 {
      forall i | 0 <= i < n - 1 ensures b[i] >= 128 {
        assert i > 0 ==> b[i] == b[1..][i - 1];
      }
    }
  }

  /** An encoded number is the shortest varint that carries it. */
  lemma {:induction false} VarintIsShortest(value: nat)
    ensures IsVarint(Varint(value)) && Groups(Varint(value)) == value
    ensures |Varint(value)| > 1 ==> Varint(value)[|Varint(value)| - 1] != 0
  {
    var b := Varint(value);
    if value < 128 {
      assert b[..0] == [];
    } else {
      VarintIsShortest(value / 128);
      assert b[1..] == Varint(value / 128);
      GroupsFirst(b);
    }
  }

  /** Reading fails exactly if no byte of the budget ends the number: for lack of data, or of budget. */
  lemma {:induction false} VarintErrors(data: Bytes, budget: nat)
    ensures VarintIn(data, budget) == Err(TruncatedVarint)
       <==> |data| < budget && forall i :: 0 <= i < |data| ==> data[i] >= 128
    ensures VarintIn(data, budget) == Err(OversizedVarint)
       <==> budget <= |data| && forall i :: 0 <= i < budget ==> data[i] >= 128
    ensures VarintIn(data, budget).Err? ==> VarintIn(data, budget).error in {TruncatedVarint, OversizedVarint}
  {
    if budget > 0 && data != [] {
      VarintErrors(data[1..], budget - 1);
      assert forall i :: 1 <= i < |data| ==> data[i] == data[1..][i - 1];
    }
  }

  lemma BudgetIsSeventyBits()
    ensures Pow128(MAX_VARINT_BYTES) == 0x40_0000_0000_0000_0000
  {
    assert Pow128(2) == 0x4000;
    assert Pow128(4) == 128 * (128 * Pow128(2));
    assert Pow128(6) == 128 * (128 * Pow128(4));
    assert Pow128(8) == 128 * (128 * Pow128(6));
    assert Pow128(10) == 128 * (128 * Pow128(8));
  }

  /** A varint that is read successfully is not affected by what follows it. */
  lemma {:induction false} VarintPrefix(data: Bytes, tail: Bytes, budget: nat)
    requires VarintIn(data, budget).Ok?
    ensures VarintIn(data + tail, budget) == VarintIn(data, budget)
  {
    if data[0] >= 128 {
      assert (data + tail)[1..] == data[1..] + tail;
      VarintPrefix(data[1..], tail, budget - 1);
    }
  }

  // ---------------------------------------------------------------- fields

  datatype Value = Int(n: nat) | Blob(bytes: Bytes)

  datatype Entry = Entry(wire: nat, value: Value)

  /** One field and the number of bytes it takes. */
  datatype Field = Field(number: nat, entry: Entry, length: nat)

  /** The content at the start of `data` for a wire type, and its length. */
  function ContentIn(data: Bytes, wire: nat): Result<(Entry, nat), DecodeError> {
    if wire == 0 then
      var v := VarintIn(data, MAX_VARINT_BYTES);
      if v.Err? then Err(v.error) else Ok((Entry(0, Int(v.value.0)), v.value.1))
    else if wire == 2 then
      var n := VarintIn(data, MAX_VARINT_BYTES);
      if n.Err? then Err(n.error)
      else
        VarintLength(data, MAX_VARINT_BYTES);
        var end := n.value.1 + n.value.0;
        if end > |data| then Err(TruncatedField) else Ok((Entry(2, Blob(data[n.value.1..end])), end))
    else if wire == 1 || wire == 5 then
      var end := if wire == 1 then 8 else 4;
      if end > |data| then Err(TruncatedFixed) else Ok((Entry(wire, Blob(data[..end])), end))
    else Err(UnsupportedWireType)
  }

  function FieldIn(data: Bytes): Result<Field, DecodeError> {
    var tag := VarintIn(data, MAX_VARINT_BYTES);
    if tag.Err? then Err(tag.error)
    else
      VarintLength(data, MAX_VARINT_BYTES);
      var (number, wire) := (tag.value.0 / 8, tag.value.0 % 8);
      if number == 0 then Err(FieldZero)
      else
        var content := ContentIn(data[tag.value.1..], wire);
        if content.Err? then Err(content.error)
        else Ok(Field(number, content.value.0, tag.value.1 + content.value.1))
  }

  /** Which error a field of each wire type gives for its content. */
  lemma ContentErrors(data: Bytes, wire: nat)
    ensures var r, v := ContentIn(data, wire), VarintIn(data, 10);
            && (r == Err(UnsupportedWireType) <==> wire !in {0, 1, 2, 5})
            && (r == Err(TruncatedFixed) <==> (wire == 1 && |data| < 8) || (wire == 5 && |data| < 4))
            && (r == Err(TruncatedField) <==> wire == 2 && v.Ok? && v.value.1 + v.value.0 > |data|)
            && (wire in {0, 2} && v.Err? ==> r == Err(v.error))
            && (r.Err? && r.error in {TruncatedVarint, OversizedVarint} ==> wire in {0, 2} && v.Err?)
  {
    VarintErrors(data, 10);
  }

  /** And which a field gives: that of its tag, that its number is zero, or that of its content. */
  lemma FieldErrors(data: Bytes)
    ensures var r, tag := FieldIn(data), VarintIn(data, 10);
            && (tag.Err? ==> r == Err(tag.error))
            && (r == Err(FieldZero) <==> tag.Ok? && tag.value.0 < 8)
            && (tag.Ok? && tag.value.0 >= 8 ==>
                  && tag.value.1 <= |data|
                  && (r.Err? <==> ContentIn(data[tag.value.1..], tag.value.0 % 8).Err?)
                  && (r.Err? ==> r.error == ContentIn(data[tag.value.1..], tag.value.0 % 8).error))
  {
    VarintLength(data, 10);
    VarintErrors(data, 10);
    if VarintIn(data, 10).Ok? {
      ContentErrors(data[VarintIn(data, 10).value.1..], VarintIn(data, 10).value.0 % 8);
      ContentNeverZero(data[VarintIn(data, 10).value.1..], VarintIn(data, 10).value.0 % 8);
    }
  }

  lemma ContentNeverZero(data: Bytes, wire: nat)
    ensures ContentIn(data, wire) != Err(FieldZero)
  {
    VarintErrors(data, 10);
  }

  lemma ContentLength(data: Bytes, wire: nat)
    ensures ContentIn(data, wire).Ok? ==> ContentIn(data, wire).value.1 <= |data|
  {
    VarintLength(data, MAX_VARINT_BYTES);
  }

  /** Every field consumes at least its tag, and never more than there is. */
  lemma FieldLength(data: Bytes)
    ensures FieldIn(data).Ok? ==> 1 <= FieldIn(data).value.length <= |data|
  {
    VarintLength(data, MAX_VARINT_BYTES);
    var tag := VarintIn(data, MAX_VARINT_BYTES);
    if tag.Ok? {
      ContentLength(data[tag.value.1..], tag.value.0 % 8);
    }
  }

  /** All fields by number; a later occurrence replaces an earlier one. */
  function FieldsIn(data: Bytes): Result<map<nat, Entry>, DecodeError> {
    if data == [] then Ok(map[])
    else
      var f := FieldIn(data);
      if f.Err? then Err(f.error)
      else
        FieldLength(data);
        var rest := FieldsIn(data[f.value.length..]);
        if rest.Err? then rest else Ok(map[f.value.number := f.value.entry] + rest.value)
  }

  lemma Slices(data: Bytes, offset: nat, from: nat, to: nat)
    requires offset <= offset + from <= offset + to <= |data|
    ensures data[offset..][from..to] == data[offset + from..offset + to]
    ensures data[offset..][from..] == data[offset + from..]
  {
  }

  method ReadBlob(data: Bytes, offset: nat) returns (r: Result<(Value, nat), DecodeError>)
    requires offset <= |data|
    ensures var c := ContentIn(data[offset..], 2);
            r == if c.Err? then Err(c.error) else Ok((c.value.0.value, offset + c.value.1))
  {
    var n := ReadVarint(data, offset);
    if n.Err? { return Err(n.error); }
    var start := n.value.1;
    var end := start + n.value.0;
    if end > |data| { return Err(TruncatedField); }
    Slices(data, offset, start - offset, end - offset);
    return Ok((Blob(data[start..end]), end));
  }

  method ReadContent(data: Bytes, offset: nat, wire: nat) returns (r: Result<(Value, nat), DecodeError>)
    requires offset <= |data|
    ensures var c := ContentIn(data[offset..], wire);
            r == if c.Err? then Err(c.error) else Ok((c.value.0.value, offset + c.value.1))
  {
    if wire == 0 {
      var v := ReadVarint(data, offset);
      return if v.Err? then Err(v.error) else Ok((Int(v.value.0), v.value.1));
    } else if wire == 2 {
      r := ReadBlob(data, offset);
      return;
    } else if wire == 1 || wire == 5 {
      var end := offset + if wire == 1 then 8 else 4;
      if end > |data| { return Err(TruncatedFixed); }
      Slices(data, offset, 0, end - offset);
      return Ok((Blob(data[offset..end]), end));
    }
    return Err(UnsupportedWireType);
  }

  /** A field, given how its tag reads. */
  lemma FieldAfterTag(here: Bytes, tag: nat, k: nat)
    requires VarintIn(here, MAX_VARINT_BYTES) == Ok((tag, k)) && k <= |here| && tag / 8 != 0
    ensures var content := ContentIn(here[k..], tag % 8);
            FieldIn(here)
            == if content.Err? then Err(content.error) else Ok(Field(tag / 8, content.value.0, k + content.value.1))
  {
  }

  method ReadField(data: Bytes, offset: nat) returns (r: Result<Field, DecodeError>)
    requires offset <= |data|
    ensures r == FieldIn(data[offset..])
  {
    var tag := ReadVarint(data, offset);
    if tag.Err? { return Err(tag.error); }
    var number, wire := tag.value.0 / 8, tag.value.0 % 8;
    if number == 0 { return Err(FieldZero); }
    Slices(data, offset, tag.value.1 - offset, tag.value.1 - offset);
    FieldAfterTag(data[offset..], tag.value.0, tag.value.1 - offset);
    var content := ReadContent(data, tag.value.1, wire);
    if content.Err? { return Err(content.error); }
    return Ok(Field(number, Entry(wire, content.value.0), content.value.1 - offset));
  }

  /** Fields read so far, overridden by what the rest yields. */
  function Merge(result: map<nat, Entry>, rest: Result<map<nat, Entry>, DecodeError>)
    : Result<map<nat, Entry>, DecodeError>
  {
    if rest.Err? then rest else Ok(result + rest.value)
  }

  lemma MergeStep(data: Bytes, offset: nat, result: map<nat, Entry>)
    requires offset < |data|
    ensures var f := FieldIn(data[offset..]);
            var whole := Merge(result, FieldsIn(data[offset..]));
            && (f.Err? ==> whole == Err(f.error))
            && (f.Ok? ==> 1 <= f.value.length <= |data| - offset
                          && whole == Merge(result[f.value.number := f.value.entry],
                                            FieldsIn(data[offset + f.value.length..])))
  {
    var here := data[offset..];
    FieldLength(here);
    if FieldIn(here).Ok? {
      var f := FieldIn(here).value;
      assert here[f.length..] == data[offset + f.length..];
      var rest := FieldsIn(here[f.length..]);
      if rest.Ok? {
        assert result + (map[f.number := f.entry] + rest.value) == result[f.number := f.entry] + rest.value;
      }
    }
  }

  lemma MergeEmpty(r: Result<map<nat, Entry>, DecodeError>)
    ensures Merge(map[], r) == r
  {
    if r.Ok? {
      assert map[] + r.value == r.value;
    }
  }

  /** One turn of the loop: reads the field at `offset` into `result`. */
  method Advance(data: Bytes, offset: nat, result: map<nat, Entry>)
    returns (error: Option<DecodeError>, next: nat, updated: map<nat, Entry>)
    requires offset < |data|
    ensures error.Some? ==> Merge(result, FieldsIn(data[offset..])) == Err(error.value)
    ensures error.None? ==> offset < next <= |data|
                            && Merge(result, FieldsIn(data[offset..])) == Merge(updated, FieldsIn(data[next..]))
  {
    MergeStep(data, offset, result);
    var field := ReadField(data, offset);
    if field.Err? { return Some(field.error), offset, result; }
    var f := field.value;
    return None, offset + f.length, result[f.number := f.entry];
  }

  method ParseFields(data: Bytes) returns (r: Result<map<nat, Entry>, DecodeError>)
    ensures r == FieldsIn(data)
  {
    var result: map<nat, Entry> := map[];
    var offset := 0;
    MergeEmpty(FieldsIn(data));
    assert data[0..] == data;
    while offset < |data|
      invariant offset <= |data|
      invariant FieldsIn(data) == Merge(result, FieldsIn(data[offset..]))
    {
      var error: Option<DecodeError>;
      error, offset, result := Advance(data, offset, result);
      if error.Some? { return Err(error.value); }
    }
    assert data[offset..] == [];
    assert result + map[] == result;
    return Ok(result);
  }

  lemma ContentPrefix(data: Bytes, tail: Bytes, wire: nat)
    requires ContentIn(data, wire).Ok?
    ensures ContentIn(data + tail, wire) == ContentIn(data, wire)
  {
    if wire == 0 {
      VarintPrefix(data, tail, MAX_VARINT_BYTES);
    } else if wire == 2 {
      VarintPrefix(data, tail, MAX_VARINT_BYTES);
      VarintLength(data, MAX_VARINT_BYTES);
      var n := VarintIn(data, MAX_VARINT_BYTES).value;
      assert (data + tail)[n.1..n.1 + n.0] == data[n.1..n.1 + n.0];
    } else {
      var end := if wire == 1 then 8 else 4;
      assert (data + tail)[..end] == data[..end];
    }
  }

  lemma FieldPrefix(data: Bytes, tail: Bytes)
    requires FieldIn(data).Ok?
    ensures FieldIn(data + tail) == FieldIn(data)
  {
    VarintPrefix(data, tail, MAX_VARINT_BYTES);
    VarintLength(data, MAX_VARINT_BYTES);
    var tag := VarintIn(data, MAX_VARINT_BYTES).value;
    assert (data + tail)[tag.1..] == data[tag.1..] + tail;
    ContentPrefix(data[tag.1..], tail, tag.0 % 8);
  }

  /** Parsing concatenated data merges: once the first part parses, the whole parses exactly when
      the second part does, fails with its error otherwise, and later fields win. */
  lemma {:induction false} ParsingMerges(a: Bytes, b: Bytes)
    requires FieldsIn(a).Ok?
    ensures FieldsIn(a + b) == Merge(FieldsIn(a).value, FieldsIn(b))
    decreases |a|
  {
    if a == [] {
      assert a + b == b;
      assert FieldsIn(b).Ok? ==> FieldsIn(a).value + FieldsIn(b).value == FieldsIn(b).value;
    } else {
      var f := FieldIn(a).value;
      FieldPrefix(a, b);
      FieldLength(a);
      assert (a + b)[f.length..] == a[f.length..] + b;
      ParsingMerges(a[f.length..], b);
      if FieldsIn(b).Ok? {
        var rest := FieldsIn(a[f.length..]).value;
        assert map[f.number := f.entry] + (rest + FieldsIn(b).value)
            == (map[f.number := f.entry] + rest) + FieldsIn(b).value;
      }
    }
  }
}
