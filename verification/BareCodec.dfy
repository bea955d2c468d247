/**
 The byte formats of the actor runtime socket: BARE primitives (draft-devault-bare, sections 2.1 and 2.2), SQL values,
 query results and requests, as functions from values to bytes and back.
 */
module BareCodec {
  import opened Common
  import opened ByteStrings
  import Utf8

  const MAX_VALUE_BYTES: nat := 1048576
  const MAX_PARAMETERS: nat := 1024
  const MAX_COLUMNS: nat := 1024

  datatype Error =
    | Short | Overflow | TooLong | BadLength | BadText | BadBool | UnknownTag | RaggedRow
    | MissingPayload | UnknownKind | ZeroId | TooManyArguments | MissingLease

  /** A value and the position after it, or the reason there is none. */
  datatype Parsed<T> = Parsed(value: T, next: nat) | Failed(error: Error)

  datatype Result<T> = Ok(value: T) | Err(error: Error)

  // -- unsigned integers, seven bits to a byte

  function EncUint(value: nat): (bytes: Bytes)
    ensures |bytes| > 0
  {
    if value >= 0x80 then [value % 0x80 + 0x80] + EncUint(value / 0x80) else [value]
  }

  /** The groups from number `group` on. Ten groups hold 64 bits if the last one is at most 1. */
  function DecGroups(data: Bytes, pos: nat, group: nat): (r: Parsed<nat>)
    ensures r.Parsed? ==> pos < r.next <= |data|
    decreases 10 - group, data
  {
    if group >= 10 then Failed(TooLong)
    else if pos >= |data| then Failed(Short)
    else
      var part: nat := data[pos];
      if group == 9 && part > 1 then Failed(Overflow)
      else if part < 0x80 then Parsed(part, pos + 1)
      else
        var more := DecGroups(data, pos + 1, group + 1);
        if more.Failed? then more else Parsed(part % 0x80 + 0x80 * more.value, more.next)
  }

  function DecUint(data: Bytes, pos: nat): Parsed<nat> { DecGroups(data, pos, 0) }

  function Pow128(n: nat): (p: nat)
    ensures p > 0
  {
    if n == 0 then 1 else 0x80 * Pow128(n - 1)
  }

  /** How much fits in the groups from `group` on. */
  function Room(group: nat): (room: nat)
    requires group < 10
    ensures room >= 2
    decreases 10 - group
  {
    if group == 9 then 2 else 0x80 * Room(group + 1)
  }

  lemma RoomIsU64()
    ensures Room(0) == U64_MODULUS
  {
    assert Room(9) == 2;
    assert Room(8) == 0x80 * Room(9);
    assert Room(7) == 0x80 * Room(8);
    assert Room(6) == 0x80 * Room(7);
    assert Room(5) == 0x80 * Room(6);
    assert Room(4) == 0x80 * Room(5);
    assert Room(3) == 0x80 * Room(4);
    assert Room(2) == 0x80 * Room(3);
    assert Room(1) == 0x80 * Room(2);
  }

  lemma {:induction false} GroupsReadBack(value: nat, data: Bytes, pos: nat, group: nat)
    requires group < 10 && value < Room(group) && At(data, pos, EncUint(value))
    ensures DecGroups(data, pos, group) == Parsed(value, pos + |EncUint(value)|)
    ensures |EncUint(value)| <= 10 - group
    decreases 10 - group
  {
    assert EncUint(value)[0] == data[pos];
    if value >= 0x80 {
      AtParts(data, pos, [value % 0x80 + 0x80], EncUint(value / 0x80));
      GroupsReadBack(value / 0x80, data, pos + 1, group + 1);
    }
  }

  lemma {:induction false} GroupsInRange(data: Bytes, pos: nat, group: nat)
    requires group < 10
    ensures DecGroups(data, pos, group).Parsed? ==>
      DecGroups(data, pos, group).value < Room(group) && DecGroups(data, pos, group).next <= pos + (10 - group)
    ensures DecGroups(data, pos, group) != Failed(TooLong)
    decreases 10 - group
  {
    if group < 9 {
      GroupsInRange(data, pos + 1, group + 1);
      assert Room(group) == 0x80 * Room(group + 1) && Room(group + 1) >= 2;
    }
  }

  /** Every 64-bit integer is written in at most ten bytes and read back exactly, wherever it stands. */
  lemma UintRoundTrip(value: nat, data: Bytes, pos: nat)
    requires value < U64_MODULUS && At(data, pos, EncUint(value))
    ensures DecUint(data, pos) == Parsed(value, pos + |EncUint(value)|) && |EncUint(value)| <= 10
  {
    RoomIsU64();
    GroupsReadBack(value, data, pos, 0);
  }

  /** No shorter form exists: the last group of a longer one is not zero. */
  lemma {:induction false} UintIsShortest(value: nat)
    ensures |EncUint(value)| == 1 || value >= Pow128(|EncUint(value)| - 1)
    ensures value < Pow128(|EncUint(value)|)
  {
    if value >= 0x80 {
      UintIsShortest(value / 0x80);
      var n := |EncUint(value / 0x80)|;
      assert |EncUint(value)| == n + 1 && Pow128(n + 1) == 0x80 * Pow128(n);
      assert n > 1 ==> Pow128(n) == 0x80 * Pow128(n - 1);
    } else {
      assert Pow128(1) == 0x80 * Pow128(0);
    }
  }

  /** On arbitrary bytes the reader yields a 64-bit integer from at most ten bytes or fails; the check for an eleventh
      byte never fires, because the tenth can neither exceed 1 nor announce another. */
  lemma UintInRange(data: Bytes, pos: nat)
    ensures DecUint(data, pos).Parsed? ==> DecUint(data, pos).value < U64_MODULUS && DecUint(data, pos).next <= pos + 10
    ensures DecUint(data, pos) != Failed(TooLong)
  {
    RoomIsU64();
    GroupsInRange(data, pos, 0);
  }

  // -- fixed-width integers

  function EncFixed(value: nat, width: nat): (bytes: Bytes)
    ensures |bytes| == width
    decreases width, value
  {
    if width == 0 then [] else [value % 0x100] + EncFixed(value / 0x100, width - 1)
  }

  function FixedValue(data: Bytes, pos: nat, width: nat): nat
    requires pos + width <= |data|
    decreases width, data
  {
    if width == 0 then 0 else data[pos] + 0x100 * FixedValue(data, pos + 1, width - 1)
  }

  function DecFixed(data: Bytes, pos: nat, width: nat): Parsed<nat>
  {
    if pos + width > |data| then Failed(Short) else Parsed(FixedValue(data, pos, width), pos + width)
  }

  function Pow256(n: nat): (p: nat)
    ensures p > 0
  {
    if n == 0 then 1 else 0x100 * Pow256(n - 1)
  }

  lemma Pow256Widths()
    ensures Pow256(4) == U32_MODULUS && Pow256(8) == U64_MODULUS
  {
    assert Pow256(4) == 0x100 * (0x100 * (0x100 * (0x100 * Pow256(0))));
    assert Pow256(8) == 0x100 * (0x100 * (0x100 * (0x100 * Pow256(4))));
  }

  lemma {:induction false} FixedReadsBack(value: nat, width: nat, data: Bytes, pos: nat)
    requires value < Pow256(width) && At(data, pos, EncFixed(value, width))
    ensures FixedValue(data, pos, width) == value
    decreases width
  {
    if width > 0 {
      assert EncFixed(value, width)[0] == data[pos];
      AtParts(data, pos, [value % 0x100], EncFixed(value / 0x100, width - 1));
      FixedReadsBack(value / 0x100, width - 1, data, pos + 1);
    }
  }

  lemma U32ReadsBack(value: nat, data: Bytes, pos: nat)
    requires value < U32_MODULUS && At(data, pos, EncFixed(value, 4))
    ensures DecFixed(data, pos, 4) == Parsed(value, pos + 4)
  {
    Pow256Widths();
    FixedReadsBack(value, 4, data, pos);
  }

  lemma U64ReadsBack(value: nat, data: Bytes, pos: nat)
    requires value < U64_MODULUS && At(data, pos, EncFixed(value, 8))
    ensures DecFixed(data, pos, 8) == Parsed(value, pos + 8)
  {
    Pow256Widths();
    FixedReadsBack(value, 8, data, pos);
  }

  /** Signed integers travel as their two's complement. */
  predicate IsI64(value: int) { -0x8000_0000_0000_0000 <= value < 0x8000_0000_0000_0000 }

  function ToUnsigned(value: int): nat { value % U64_MODULUS }

  function ToSigned(value: nat): int { if value < 0x8000_0000_0000_0000 then value else value - U64_MODULUS }

  function EncI64(value: int): Bytes { EncFixed(ToUnsigned(value), 8) }

  function DecI64(data: Bytes, pos: nat): Parsed<int>
  {
    var r := DecFixed(data, pos, 8);
    if r.Failed? then Failed(r.error) else Parsed(ToSigned(r.value), r.next)
  }

  lemma I64ReadsBack(value: int, data: Bytes, pos: nat)
    requires IsI64(value) && At(data, pos, EncI64(value))
    ensures DecI64(data, pos) == Parsed(value, pos + 8)
  {
    if value < 0 { DivModUnique(value, U64_MODULUS, -1, value + U64_MODULUS); }
    U64ReadsBack(ToUnsigned(value), data, pos);
  }

  // -- byte strings and text

  function EncBytes(bytes: Bytes): Bytes { EncUint(|bytes|) + bytes }

  /** A length no larger than `maximum` and than what is left, then that many bytes. */
  function DecLength(data: Bytes, pos: nat, maximum: nat): (r: Parsed<nat>)
    requires pos <= |data|
    ensures r.Parsed? ==> pos < r.next <= |data| && r.value <= maximum && r.value <= |data| - r.next
  {
    var length := DecUint(data, pos);
    if length.Failed? then length
    else if length.value > maximum || length.value > |data| - length.next then Failed(BadLength)
    else length
  }

  function DecBytes(data: Bytes, pos: nat, maximum: nat): (r: Parsed<Bytes>)
    requires pos <= |data|
    ensures r.Parsed? ==> pos < r.next <= |data|
  {
    var length := DecLength(data, pos, maximum);
    if length.Failed? then Failed(length.error)
    else Parsed(data[length.next..length.next + length.value], length.next + length.value)
  }

  function DecText(data: Bytes, pos: nat): (r: Parsed<Bytes>)
    requires pos <= |data|
    ensures r.Parsed? ==> pos < r.next <= |data|
  {
    var bytes := DecBytes(data, pos, MAX_VALUE_BYTES);
    if bytes.Parsed? && !Utf8.Valid(bytes.value) then Failed(BadText) else bytes
  }

  lemma LengthReadsBack(n: nat, data: Bytes, pos: nat, maximum: nat)
    requires n < U64_MODULUS && At(data, pos, EncUint(n)) && n <= maximum && pos + |EncUint(n)| + n <= |data|
    ensures DecLength(data, pos, maximum) == Parsed(n, pos + |EncUint(n)|)
  {
    UintRoundTrip(n, data, pos);
  }

  /** A count and what it counts, each item at least a byte long. */
  lemma CountReadsBack(n: nat, items: Bytes, data: Bytes, pos: nat, maximum: nat) returns (next: nat)
    requires At(data, pos, EncUint(n) + items) && n <= |items| && n <= maximum && n < U64_MODULUS
    ensures next == pos + |EncUint(n)| && pos + |EncUint(n) + items| == next + |items| <= |data|
    ensures DecLength(data, pos, maximum) == Parsed(n, next) && At(data, next, items)
  {
    AtParts(data, pos, EncUint(n), items);
    LengthReadsBack(n, data, pos, maximum);
    next := pos + |EncUint(n)|;
  }

  lemma BytesReadBack(bytes: Bytes, data: Bytes, pos: nat, maximum: nat)
    requires |bytes| < U64_MODULUS && |bytes| <= maximum && At(data, pos, EncBytes(bytes))
    ensures DecBytes(data, pos, maximum) == Parsed(bytes, pos + |EncBytes(bytes)|)
  {
    AtParts(data, pos, EncUint(|bytes|), bytes);
    LengthReadsBack(|bytes|, data, pos, maximum);
    var start := pos + |EncUint(|bytes|)|;
    assert data[start..start + |bytes|] == bytes;
  }

  // -- SQL values

  /** The record names its kind by a string; any other string is an unknown kind. */
  datatype Kind = NullKind | IntegerKind | RealKind | TextKind | BlobKind | OtherKind(name: string)

  /** The wire record: a kind and at most one meaningful payload. */
  datatype SqlValue = SqlValue(
    kind: Kind, integer: Option<int>, bits: Option<nat>, text: Option<Bytes>, blob: Option<Bytes>)

  const NULL_VALUE := SqlValue(NullKind, None, None, None, None)

  /** The payload ranges of the record's own field types. */
  predicate Typed(v: SqlValue)
  {
    (v.integer.Some? ==> IsI64(v.integer.value)) && (v.bits.Some? ==> v.bits.value < U64_MODULUS)
  }

  function EncSql(v: SqlValue): Result<Bytes>
  {
    if v.kind.NullKind? then Ok(EncUint(0))
    else if v.kind.IntegerKind? then
      if v.integer.None? then Err(MissingPayload) else Ok(EncUint(1) + EncI64(v.integer.value))
    else if v.kind.RealKind? then
      if v.bits.None? then Err(MissingPayload) else Ok(EncUint(2) + EncFixed(v.bits.value, 8))
    else if v.kind.TextKind? then
      if v.text.None? || |v.text.value| > MAX_VALUE_BYTES then Err(MissingPayload) else Ok(EncUint(3) + EncBytes(v.text.value))
    else if v.kind.BlobKind? then
      if v.blob.None? || |v.blob.value| > MAX_VALUE_BYTES then Err(MissingPayload) else Ok(EncUint(4) + EncBytes(v.blob.value))
    else Err(UnknownKind)
  }

  /** `utf8`: refuse text that is not UTF-8, as this side does for what it receives. */
  function DecSql(data: Bytes, pos: nat, utf8: bool): (r: Parsed<SqlValue>)
    requires pos <= |data|
    ensures r.Parsed? ==> pos < r.next <= |data|
  {
    var tag := DecUint(data, pos);
    if tag.Failed? then Failed(tag.error)
    else match tag.value
      case 0 => Parsed(NULL_VALUE, tag.next)
      case 1 =>
        var n := DecI64(data, tag.next);
        if n.Failed? then Failed(n.error) else Parsed(SqlValue(IntegerKind, Some(n.value), None, None, None), n.next)
      case 2 =>
        var bits := DecFixed(data, tag.next, 8);
        if bits.Failed? then Failed(bits.error) else Parsed(SqlValue(RealKind, None, Some(bits.value), None, None), bits.next)
      case 3 =>
        var text := if utf8 then DecText(data, tag.next) else DecBytes(data, tag.next, MAX_VALUE_BYTES);
        if text.Failed? then Failed(text.error) else Parsed(SqlValue(TextKind, None, None, Some(text.value), None), text.next)
      case 4 =>
        var blob := DecBytes(data, tag.next, MAX_VALUE_BYTES);
        if blob.Failed? then Failed(blob.error) else Parsed(SqlValue(BlobKind, None, None, None, Some(blob.value)), blob.next)
      case _ => Failed(UnknownTag)
  }

  /** The record with only the payload its kind uses. */
  function Used(v: SqlValue): SqlValue
  {
    if v.kind.IntegerKind? then SqlValue(IntegerKind, v.integer, None, None, None)
    else if v.kind.RealKind? then SqlValue(RealKind, None, v.bits, None, None)
    else if v.kind.TextKind? then SqlValue(TextKind, None, None, v.text, None)
    else if v.kind.BlobKind? then SqlValue(BlobKind, None, None, None, v.blob)
    else NULL_VALUE
  }

  predicate TextIsUtf8(v: SqlValue) { v.kind.TextKind? && v.text.Some? ==> Utf8.Valid(v.text.value) }

  lemma TagReadsBack(tag: nat, payload: Bytes, data: Bytes, pos: nat)
    requires tag < 0x80 && At(data, pos, EncUint(tag) + payload)
    ensures DecUint(data, pos) == Parsed(tag, pos + 1) && At(data, pos + 1, payload)
  {
    AtParts(data, pos, EncUint(tag), payload);
    UintRoundTrip(tag, data, pos);
  }

  /** What can be encoded reads back as the payload its kind uses, consuming exactly its bytes; a reader that insists
      on UTF-8 accepts it if and only if its text, if it is text, is UTF-8. */
  lemma SqlRoundTrip(v: SqlValue, data: Bytes, pos: nat, utf8: bool)
    requires Typed(v) && EncSql(v).Ok? && At(data, pos, EncSql(v).value)
    ensures !utf8 || TextIsUtf8(v) ==> DecSql(data, pos, utf8) == Parsed(Used(v), pos + |EncSql(v).value|)
    ensures utf8 && !TextIsUtf8(v) ==> DecSql(data, pos, utf8) == Failed(BadText)
  {
    if v.kind.NullKind? {
      assert EncUint(0) + [] == EncUint(0);
      TagReadsBack(0, [], data, pos);
    } else if v.kind.IntegerKind? {
      TagReadsBack(1, EncI64(v.integer.value), data, pos);
      I64ReadsBack(v.integer.value, data, pos + 1);
    } else if v.kind.RealKind? {
      TagReadsBack(2, EncFixed(v.bits.value, 8), data, pos);
      U64ReadsBack(v.bits.value, data, pos + 1);
    } else if v.kind.TextKind? {
      TagReadsBack(3, EncBytes(v.text.value), data, pos);
      BytesReadBack(v.text.value, data, pos + 1, MAX_VALUE_BYTES);
    } else {
      TagReadsBack(4, EncBytes(v.blob.value), data, pos);
      BytesReadBack(v.blob.value, data, pos + 1, MAX_VALUE_BYTES);
    }
  }
}
