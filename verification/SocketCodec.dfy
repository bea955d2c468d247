/**
 The socket codec as it runs: an encoder that appends to its buffer and a decoder that advances through its input,
 each operation proved to do what the functions of BareCodec and SocketMessages say.
 */
module SocketCodec {
  import opened Common
  import opened ByteStrings
  import Utf8
  import Bits
  import opened BareCodec
  import opened SocketMessages

  class Encoder {
    var data: Bytes

    constructor (start: Bytes)
      ensures data == start
    {
      data := start;
    }

    method Uint(value: nat)
      modifies this
      ensures data == old(data) + EncUint(value)
    {
      var left := value;
      while left >= 0x80
        invariant data + EncUint(left) == old(data) + EncUint(value)
      {
        NextByte(left);
        var byte := Bits.Or(left % 0x100, 0x80);
        assert data + EncUint(left) == (data + [byte]) + EncUint(Bits.ShiftRight(left, 7));
        data := data + [byte];
        left := Bits.ShiftRight(left, 7);
      }
      data := data + [left];
    }

    method Fixed(value: nat, width: nat)
      modifies this
      ensures data == old(data) + EncFixed(value, width)
    {
      var left := value;
      for i := 0 to width
        invariant data + EncFixed(left, width - i) == old(data) + EncFixed(value, width)
      {
        assert data + EncFixed(left, width - i) == (data + [left % 0x100]) + EncFixed(left / 0x100, width - i - 1);
        data := data + [left % 0x100];
        left := left / 0x100;
      }
      assert data + [] == data;
    }

    method String(value: Bytes)
      modifies this
      ensures data == old(data) + EncBytes(value)
    {
      Uint(|value|);
      assert old(data) + EncUint(|value|) + value == old(data) + EncBytes(value);
      data := data + value;
    }

    method OptionalString(value: Option<Bytes>)
      modifies this
      ensures data == old(data) + EncOptionalBytes(value)
    {
      if value.None? {
        data := data + [0];
        return;
      }
      assert old(data) + [1] + EncBytes(value.value) == old(data) + EncOptionalBytes(value);
      data := data + [1];
      String(value.value);
    }

    method Timeout(value: Option<nat>)
      modifies this
      ensures data == old(data) + EncTimeout(value)
    {
      if value.None? {
        data := data + [0];
        return;
      }
      assert old(data) + [1] + EncFixed(value.value, 8) == old(data) + EncTimeout(value);
      data := data + [1];
      Fixed(value.value, 8);
    }

    method Tagged(tag: nat, ghost payload: Bytes)
      modifies this
      ensures data == old(data) + EncUint(tag)
      ensures data + payload == old(data) + (EncUint(tag) + payload)
    {
      Uint(tag);
    }

    /** On failure the buffer is left as it was. */
    method SqlValue(value: BareCodec.SqlValue) returns (error: Option<Error>)
      modifies this
      ensures error.None? ==> EncSql(value).Ok? && data == old(data) + EncSql(value).value
      ensures error.Some? ==> EncSql(value) == Err(error.value) && data == old(data)
    {
      match value.kind {
        case NullKind =>
          Uint(0);
        case IntegerKind =>
          if value.integer.None? { return Some(MissingPayload); }
          Tagged(1, EncI64(value.integer.value));
          Fixed(ToUnsigned(value.integer.value), 8);
        case RealKind =>
          if value.bits.None? { return Some(MissingPayload); }
          Tagged(2, EncFixed(value.bits.value, 8));
          Fixed(value.bits.value, 8);
        case TextKind =>
          if value.text.None? || |value.text.value| > MAX_VALUE_BYTES { return Some(MissingPayload); }
          Tagged(3, EncBytes(value.text.value));
          String(value.text.value);
        case BlobKind =>
          if value.blob.None? || |value.blob.value| > MAX_VALUE_BYTES { return Some(MissingPayload); }
          Tagged(4, EncBytes(value.blob.value));
          String(value.blob.value);
        case _ =>
          return Some(UnknownKind);
      }
      error := None;
    }

    method Args(args: seq<BareCodec.SqlValue>) returns (error: Option<Error>)
      modifies this
      ensures error.None? ==> EncArgs(args).Ok? && data == old(data) + EncArgs(args).value
      ensures error.Some? ==> EncArgs(args) == Err(error.value)
    {
      var i := 0;
      assert args[0..] == args;
      while i < |args|
        invariant i <= |args| && After(old(data), EncArgs(args)) == After(data, EncArgs(args[i..]))
      {
        NextArg(data, args, i);
        error := SqlValue(args[i]);
        if error.Some? { return; }
        i := i + 1;
      }
      assert args[i..] == [] && data + [] == data;
      error := None;
    }
  }

  /** A result placed after bytes already written. */
  function After(data: Bytes, r: Result<Bytes>): Result<Bytes> { if r.Err? then r else Ok(data + r.value) }

  lemma NextArg(data: Bytes, args: seq<BareCodec.SqlValue>, i: nat)
    requires i < |args|
    ensures EncSql(args[i]).Err? ==> After(data, EncArgs(args[i..])) == EncSql(args[i])
    ensures EncSql(args[i]).Ok? ==>
      After(data, EncArgs(args[i..])) == After(data + EncSql(args[i]).value, EncArgs(args[i + 1..]))
  {
    var rest := args[i..];
    assert rest[0] == args[i] && rest[1..] == args[i + 1..];
    if EncSql(args[i]).Ok? && EncArgs(args[i + 1..]).Ok? {
      assert data + (EncSql(args[i]).value + EncArgs(args[i + 1..]).value)
          == data + EncSql(args[i]).value + EncArgs(args[i + 1..]).value;
    }
  }

  lemma Associate(a: Bytes, b: Bytes, c: Bytes)
    ensures a + b + c == a + (b + c)
  {
  }

  lemma Regrouped(a: Bytes, b: Bytes, c: Bytes, d: Bytes)
    ensures a + b + c + d == a + (b + (c + d))
  {
  }

  method EncodeQueryBody(e: Encoder, sql: Bytes, args: seq<BareCodec.SqlValue>) returns (error: Option<Error>)
    modifies e
    ensures error.None? ==>
      EncArgs(args).Ok? && e.data == old(e.data) + (EncBytes(sql) + (EncUint(|args|) + EncArgs(args).value))
    ensures error.Some? ==> EncArgs(args) == Err(error.value)
  {
    ghost var before := e.data;
    e.String(sql);
    e.Uint(|args|);
    error := e.Args(args);
    if error.None? { Regrouped(before, EncBytes(sql), EncUint(|args|), EncArgs(args).value); }
  }

  method EncodeBeginBody(e: Encoder, lease: Bytes, timeout: Option<nat>)
    modifies e
    ensures e.data == old(e.data) + (EncBytes(lease) + EncTimeout(timeout))
  {
    ghost var before := e.data;
    e.String(lease);
    e.Timeout(timeout);
    Associate(before, EncBytes(lease), EncTimeout(timeout));
  }

  /** The kind's own part, appended after the frame. */
  method EncodeBody(e: Encoder, r: Request) returns (error: Option<Error>)
    modifies e
    ensures error.None? ==> EncBody(r).Ok? && e.data == old(e.data) + EncBody(r).value
    ensures error.Some? ==> EncBody(r) == Err(error.value)
  {
    if r.kind == EXEC {
      e.String(r.sql);
    } else if r.kind == QUERY {
      error := EncodeQueryBody(e, r.sql, r.args);
      if error.Some? { return; }
    } else if r.kind == BEGIN {
      if r.lease.None? { return Some(MissingLease); }
      EncodeBeginBody(e, r.lease.value, r.timeout);
    } else if r.kind == COMMIT || r.kind == ROLLBACK {
      if r.lease.None? { return Some(MissingLease); }
      e.String(r.lease.value);
    } else {
      return Some(UnknownKind);
    }
    error := None;
  }

  method EncodeRequest(r: Request) returns (result: Result<Bytes>)
    ensures result == EncRequest(r)
  {
    if r.id == 0 { return Err(ZeroId); }
    if |r.args| > MAX_PARAMETERS { return Err(TooManyArguments); }
    var e := new Encoder([1, 0]);
    e.Uint(0);
    e.Fixed(r.id, 4);
    assert e.data == EncHead(r);
    if r.kind == BEGIN || r.kind == COMMIT || r.kind == ROLLBACK {
      e.OptionalString(None);
    } else {
      e.OptionalString(r.lease);
    }
    e.Uint(r.kind);
    ghost var lease := EncOptionalBytes(FrameLease(r));
    assert e.data == EncHead(r) + lease + EncUint(r.kind);
    var error := EncodeBody(e, r);
    if error.Some? { return Err(error.value); }
    Regrouped(EncHead(r), lease, EncUint(r.kind), EncBody(r).value);
    return Ok(e.data);
  }

  class Decoder {
    const data: Bytes
    var pos: nat

    constructor (data: Bytes)
      ensures this.data == data && pos == 0 && Valid()
    {
      this.data := data;
      pos := 0;
    }

    predicate Valid()
      reads this
    {
      pos <= |data|
    }

    /** A result of this decoder: on success the position has moved to its end. */
    ghost predicate Yields<T>(r: Result<T>, p: Parsed<T>)
      reads this
    {
      if p.Parsed? then r == Ok(p.value) && pos == p.next else r == Err(p.error)
    }

    method Take(count: nat) returns (r: Result<Bytes>)
      requires Valid()
      modifies this
      ensures Valid()
      ensures if old(pos) + count <= |data| then r == Ok(data[old(pos)..old(pos) + count]) && pos == old(pos) + count
              else r == Err(Short) && pos == old(pos)
    {
      if count > |data| - pos { return Err(Short); }
      r := Ok(data[pos..pos + count]);
      pos := pos + count;
    }

    /** The groups collected so far lie below bit `shift`, where the bits of the next one start. */
    method Uint() returns (r: Result<nat>)
      requires Valid()
      modifies this
      ensures Valid() && Yields(r, DecUint(data, old(pos)))
    {
      ghost var start := pos;
      var value: nat, shift: nat := 0, 0;
      ghost var group: nat := 0;
      while shift < 70
        invariant group <= 10 && shift == 7 * group && Valid() && value < Pow128(group)
        invariant DecUint(data, start) == Weighed(value, Pow128(group), DecGroups(data, pos, group))
      {
        GroupRead(data, pos, group, value);
        var byte := Take(1);
        if byte.Err? { return Err(byte.error); }
        var part: nat := byte.value[0];
        if shift == 63 && part > 1 { return Err(Overflow); }
        value := Joined(value, part, shift);
        if part < 0x80 { return Ok(value); }
        shift, group := shift + 7, group + 1;
      }
      return Err(TooLong);
    }

    method Fixed(width: nat) returns (r: Result<nat>)
      requires Valid()
      modifies this
      ensures Valid() && Yields(r, DecFixed(data, old(pos), width))
    {
      var start := pos;
      var bytes := Take(width);
      if bytes.Err? { return Err(bytes.error); }
      r := Ok(FixedValue(data, start, width));
    }

    method I64() returns (r: Result<int>)
      requires Valid()
      modifies this
      ensures Valid() && Yields(r, DecI64(data, old(pos)))
    {
      var n := Fixed(8);
      if n.Err? { return Err(n.error); }
      r := Ok(ToSigned(n.value));
    }

    method Boolean() returns (r: Result<bool>)
      requires Valid()
      modifies this
      ensures Valid() && Yields(r, DecBool(data, old(pos)))
    {
      var byte := Take(1);
      if byte.Err? { return Err(byte.error); }
      if byte.value[0] > 1 { return Err(BadBool); }
      r := Ok(byte.value[0] == 1);
    }

    method Length(maximum: nat) returns (r: Result<nat>)
      requires Valid()
      modifies this
      ensures Valid() && Yields(r, DecLength(data, old(pos), maximum))
    {
      var length := Uint();
      if length.Err? { return length; }
      if length.value > maximum || length.value > |data| - pos { return Err(BadLength); }
      r := length;
    }

    method Blob() returns (r: Result<Bytes>)
      requires Valid()
      modifies this
      ensures Valid() && Yields(r, DecBytes(data, old(pos), MAX_VALUE_BYTES))
    {
      var length := Length(MAX_VALUE_BYTES);
      if length.Err? { return Err(length.error); }
      r := Take(length.value);
    }

    method String() returns (r: Result<Bytes>)
      requires Valid()
      modifies this
      ensures Valid() && Yields(r, DecText(data, old(pos)))
    {
      r := Blob();
      if r.Ok? && !Utf8.Valid(r.value) { r := Err(BadText); }
    }

    method SqlValue() returns (r: Result<BareCodec.SqlValue>)
      requires Valid()
      modifies this
      ensures Valid() && Yields(r, DecSql(data, old(pos), true))
    {
      var tag := Uint();
      if tag.Err? { return Err(tag.error); }
      match tag.value {
        case 0 => r := Ok(NULL_VALUE);
        case 1 =>
          var n := I64();
          r := if n.Err? then Err(n.error) else Ok(BareCodec.SqlValue(IntegerKind, Some(n.value), None, None, None));
        case 2 =>
          var bits := Fixed(8);
          r := if bits.Err? then Err(bits.error) else Ok(BareCodec.SqlValue(RealKind, None, Some(bits.value), None, None));
        case 3 =>
          var text := String();
          r := if text.Err? then Err(text.error) else Ok(BareCodec.SqlValue(TextKind, None, None, Some(text.value), None));
        case 4 =>
          var blob := Blob();
          r := if blob.Err? then Err(blob.error) else Ok(BareCodec.SqlValue(BlobKind, None, None, None, Some(blob.value)));
        case _ => r := Err(UnknownTag);
      }
    }

    method Texts(count: nat) returns (r: Result<seq<Bytes>>)
      requires Valid()
      modifies this
      ensures Valid() && Yields(r, DecTexts(data, old(pos), count))
    {
      ghost var start := pos;
      var texts := [];
      BehindNothing(DecTexts(data, start, count));
      for i := 0 to count
        invariant Valid()
        invariant DecTexts(data, start, count) == Behind(texts, DecTexts(data, pos, count - i))
      {
        NextText(data, pos, count - i, texts);
        var text := String();
        if text.Err? { return Err(text.error); }
        texts := texts + [text.value];
      }
      assert texts + [] == texts;
      r := Ok(texts);
    }

    method Columns() returns (r: Result<seq<Bytes>>)
      requires Valid()
      modifies this
      ensures Valid() && Yields(r, DecColumns(data, old(pos)))
    {
      var count := Length(MAX_COLUMNS);
      if count.Err? { return Err(count.error); }
      r := Texts(count.value);
    }

    /** Values appended to those read before. */
    method Values(count: nat, values: seq<BareCodec.SqlValue>) returns (r: Result<seq<BareCodec.SqlValue>>)
      requires Valid()
      modifies this
      ensures Valid() && Yields(r, Behind(values, DecValues(data, old(pos), count, true)))
    {
      ghost var start := pos;
      var all := values;
      for i := 0 to count
        invariant Valid()
        invariant Behind(values, DecValues(data, start, count, true)) == Behind(all, DecValues(data, pos, count - i, true))
      {
        NextValue(data, pos, count - i, all);
        var value := SqlValue();
        if value.Err? { return Err(value.error); }
        all := all + [value.value];
      }
      assert all + [] == all;
      r := Ok(all);
    }

    method Row(width: nat, values: seq<BareCodec.SqlValue>) returns (r: Result<seq<BareCodec.SqlValue>>)
      requires Valid()
      modifies this
      ensures Valid() && Yields(r, Behind(values, DecRow(data, old(pos), width)))
    {
      var count := Length(MAX_COLUMNS);
      if count.Err? { return Err(count.error); }
      if count.value != width { return Err(RaggedRow); }
      r := Values(count.value, values);
    }

    method Rows(count: nat, width: nat) returns (r: Result<seq<BareCodec.SqlValue>>)
      requires Valid()
      modifies this
      ensures Valid() && Yields(r, DecRows(data, old(pos), count, width))
    {
      ghost var start := pos;
      var values := [];
      BehindNothing(DecRows(data, start, count, width));
      for i := 0 to count
        invariant Valid()
        invariant DecRows(data, start, count, width) == Behind(values, DecRows(data, pos, count - i, width))
      {
        NextRow(data, pos, count - i, width, values);
        var more := Row(width, values);
        if more.Err? { return Err(more.error); }
        values := more.value;
      }
      assert values + [] == values;
      r := Ok(values);
    }

    method Table(width: nat) returns (r: Result<seq<BareCodec.SqlValue>>)
      requires Valid()
      modifies this
      ensures Valid() && Yields(r, DecTable(data, old(pos), width))
    {
      var rows := Length(|data| - pos);
      if rows.Err? { return Err(rows.error); }
      r := Rows(rows.value, width);
    }

    method QueryResult() returns (r: Result<Response>)
      requires Valid()
      modifies this
      ensures Valid() && Yields(r, DecQuery(data, old(pos)))
    {
      var columns := Columns();
      if columns.Err? { return Err(columns.error); }
      var values := Table(|columns.value|);
      if values.Err? { return Err(values.error); }
      var changes := I64();
      if changes.Err? { return Err(changes.error); }
      var present := Boolean();
      if present.Err? { return Err(present.error); }
      var lastInsert := None;
      if present.value {
        var last := I64();
        if last.Err? { return Err(last.error); }
        lastInsert := Some(last.value);
      }
      r := Ok(Response(columns.value, values.value, changes.value, lastInsert));
    }
  }

  /** A list result with what was read before it in front. */
  function Behind<T>(done: seq<T>, p: Parsed<seq<T>>): Parsed<seq<T>>
  {
    if p.Failed? then p else Parsed(done + p.value, p.next)
  }

  lemma BehindNothing<T>(p: Parsed<seq<T>>)
    ensures Behind([], p) == p
  {
    if p.Parsed? { assert [] + p.value == p.value; }
  }

  lemma NextText(data: Bytes, pos: nat, count: nat, done: seq<Bytes>)
    requires pos <= |data| && count > 0
    ensures var first := DecText(data, pos);
      Behind(done, DecTexts(data, pos, count)) ==
        if first.Failed? then Failed(first.error)
        else Behind(done + [first.value], DecTexts(data, first.next, count - 1))
  {
    var first := DecText(data, pos);
    if first.Parsed? {
      var rest := DecTexts(data, first.next, count - 1);
      if rest.Parsed? { assert done + ([first.value] + rest.value) == done + [first.value] + rest.value; }
    }
  }

  lemma NextValue(data: Bytes, pos: nat, count: nat, done: seq<BareCodec.SqlValue>)
    requires pos <= |data| && count > 0
    ensures var first := DecSql(data, pos, true);
      Behind(done, DecValues(data, pos, count, true)) ==
        if first.Failed? then Failed(first.error)
        else Behind(done + [first.value], DecValues(data, first.next, count - 1, true))
  {
    var first := DecSql(data, pos, true);
    if first.Parsed? {
      var rest := DecValues(data, first.next, count - 1, true);
      if rest.Parsed? { assert done + ([first.value] + rest.value) == done + [first.value] + rest.value; }
    }
  }

  lemma NextRow(data: Bytes, pos: nat, rows: nat, width: nat, done: seq<BareCodec.SqlValue>)
    requires pos <= |data| && rows > 0
    ensures var first := DecRow(data, pos, width);
      Behind(done, DecRows(data, pos, rows, width)) ==
        if first.Failed? then first else Behind(done + first.value, DecRows(data, first.next, rows - 1, width))
  {
    var first := DecRow(data, pos, width);
    if first.Parsed? {
      var rest := DecRows(data, first.next, rows - 1, width);
      if rest.Parsed? { assert done + (first.value + rest.value) == done + first.value + rest.value; }
    }
  }

  /** Setting the top bit of the low byte and dropping seven bits is one step of the encoding. */
  lemma NextByte(value: nat)
    requires value >= 0x80
    ensures Bits.Or(value % 0x100, 0x80) < 0x100
    ensures EncUint(value) == [Bits.Or(value % 0x100, 0x80)] + EncUint(Bits.ShiftRight(value, 7))
    ensures Bits.ShiftRight(value, 7) < value
  {
    TopBit(value);
    Bits.SevenBits();
    Bits.ShiftRightDivides(value, 7);
  }

  lemma TopBit(value: nat)
    ensures Bits.Or(value % 0x100, 0x80) == value % 0x80 + 0x80
  {
    Bits.SevenBits();
    Bits.OrTopBit(value, 7);
  }

  lemma {:induction false} GroupStart(group: nat)
    ensures Pow128(group) == Bits.Pow2(7 * group)
  {
    if group > 0 {
      GroupStart(group - 1);
      Bits.SevenBits();
      Bits.PowersAdd(7, 7 * group - 7);
    }
  }

  function Joined(value: nat, part: Byte, shift: nat): nat
  {
    Bits.Or(value, Bits.ShiftLeft64(Bits.And(part, 0x7f), shift))
  }

  /** One round of the loop: the groups read so far and the ones to come make up the same integer. */
  lemma GroupRead(data: Bytes, pos: nat, group: nat, value: nat)
    requires group < 10 && pos <= |data| && value < Pow128(group)
    ensures var here := Weighed(value, Pow128(group), DecGroups(data, pos, group));
      if pos >= |data| then here == Failed(Short)
      else if group == 9 && data[pos] > 1 then here == Failed(Overflow)
      else
        var sum := Joined(value, data[pos], 7 * group);
        && sum < Pow128(group + 1)
        && if data[pos] < 0x80 then here == Parsed(sum, pos + 1)
           else here == Weighed(sum, Pow128(group + 1), DecGroups(data, pos + 1, group + 1))
  {
    NextGroup(data, pos, group, value);
    if pos < |data| && (group == 9 ==> data[pos] <= 1) { JoinGroup(value, data[pos], group); }
  }

  /** Masking, shifting and or-ing a group onto the ones below it adds its weight, and nothing leaves the word. */
  lemma JoinGroup(value: nat, part: Byte, group: nat)
    requires group < 10 && value < Pow128(group) && (group == 9 ==> part <= 1)
    ensures Joined(value, part, 7 * group) == value + part % 0x80 * Pow128(group)
    ensures value + part % 0x80 * Pow128(group) < Pow128(group + 1)
  {
    Bits.SevenBits();
    Bits.AndMask(part, 7);
    GroupStart(group);
    var bits := part % 0x80;
    MulMonotone(bits, 0x7f, Pow128(group));
    GroupFits(bits, group);
    Bits.OrDisjoint(value, bits, 7 * group);
  }

  lemma GroupFits(bits: nat, group: nat)
    requires group < 10 && bits < 0x80 && (group == 9 ==> bits <= 1)
    ensures Bits.ShiftLeft64(bits, 7 * group) == bits * Bits.Pow2(7 * group)
  {
    var weight := Bits.Pow2(7 * group);
    GroupBelowWord(group);
    if group < 9 { MulMonotone(bits, 0x7f, weight); }
    assert 0 <= bits * weight < U64_MODULUS;
  }

  lemma GroupBelowWord(group: nat)
    requires group < 10
    ensures (if group == 9 then 2 else 0x80) * Bits.Pow2(7 * group) <= U64_MODULUS
  {
    var top := if group == 9 then 1 else 7;
    Bits.WordSize(8);
    Bits.SevenBits();
    Bits.PowersAdd(top, 7 * group);
    Bits.PowersGrow(top + 7 * group, 64);
  }

  function Weighed(value: nat, weight: nat, p: Parsed<nat>): Parsed<nat>
  {
    if p.Failed? then p else Parsed(value + weight * p.value, p.next)
  }

  lemma Distribute(w: nat, part: nat, more: nat)
    ensures w * (part + 0x80 * more) == part * w + 0x80 * w * more
  {
  }

  lemma NextGroup(data: Bytes, pos: nat, group: nat, value: nat)
    requires group < 10 && pos <= |data|
    ensures var here := Weighed(value, Pow128(group), DecGroups(data, pos, group));
      if pos >= |data| then here == Failed(Short)
      else if group == 9 && data[pos] > 1 then here == Failed(Overflow)
      else
        var sum := value + data[pos] % 0x80 * Pow128(group);
        if data[pos] < 0x80 then here == Parsed(sum, pos + 1)
        else here == Weighed(sum, Pow128(group + 1), DecGroups(data, pos + 1, group + 1))
  {
    if pos < |data| && data[pos] >= 0x80 && group < 9 {
      var more := DecGroups(data, pos + 1, group + 1);
      if more.Parsed? { Distribute(Pow128(group), data[pos] % 0x80, more.value); }
    }
  }
}
