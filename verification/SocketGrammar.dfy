/**
 What the socket client accepts as a query result, said without the decoder: a grammar over the bytes in which only the
 variable-length integers may be written in more than one way. The decoder accepts exactly this language.
 */
module SocketGrammar {
  import opened Common
  import opened ByteStrings
  import Utf8
  import opened BareCodec
  import opened SocketMessages

  // -- integers

  /** Digits to the base 128, least significant first. */
  function Base128(digits: Bytes): nat
  {
    if digits == [] then 0 else digits[0] % 0x80 + 0x80 * Base128(digits[1..])
  }

  /** At most ten bytes, all but the last with the top bit set, and a value of 64 bits. */
  ghost predicate UintAt(data: Bytes, pos: nat, n: nat, next: nat)
  {
    && pos < next <= |data| && next <= pos + 10
    && (forall i :: pos <= i < next ==> (data[i] >= 0x80 <==> i < next - 1))
    && n == Base128(data[pos..next]) < U64_MODULUS
  }

  /** Little-endian: each byte is one digit to the base 256. */
  ghost predicate FixedAt(data: Bytes, pos: nat, n: nat, width: nat)
  {
    && pos + width <= |data| && n < Pow256(width)
    && forall i :: 0 <= i < width ==> data[pos + i] == n / Pow256(i) % 0x100
  }

  /** Two's complement in eight bytes. */
  ghost predicate I64At(data: Bytes, pos: nat, n: int)
  {
    IsI64(n) && FixedAt(data, pos, if n < 0 then n + U64_MODULUS else n, 8)
  }

  lemma FirstDigit(data: Bytes, pos: nat, next: nat)
    requires pos < next <= |data|
    ensures Base128(data[pos..next]) == data[pos] % 0x80 + 0x80 * Base128(data[pos + 1..next])
  {
    var digits := data[pos..next];
    assert digits[1..] == data[pos + 1..next];
  }

  /** A group that reads on from `group`, as the decoder has it. */
  lemma {:induction false} GroupsIff(data: Bytes, pos: nat, group: nat, n: nat, next: nat)
    requires group < 10
    ensures DecGroups(data, pos, group) == Parsed(n, next) <==>
      && pos < next <= |data| && next <= pos + (10 - group)
      && (forall i :: pos <= i < next ==> (data[i] >= 0x80 <==> i < next - 1))
      && n == Base128(data[pos..next]) < Room(group)
    decreases 10 - group
  {
    if pos < |data| {
      var part: nat := data[pos];
      if part < 0x80 {
        if next == pos + 1 { OneDigit(data, pos); }
        if group < 9 { assert Room(group) == 0x80 * Room(group + 1) && Room(group + 1) >= 2; }
      } else if group < 9 {
        MoreGroups(data, pos, group, n, next);
      }
    }
  }

  lemma OneDigit(data: Bytes, pos: nat)
    requires pos < |data|
    ensures Base128(data[pos..pos + 1]) == data[pos] % 0x80
  {
    FirstDigit(data, pos, pos + 1);
    assert data[pos + 1..pos + 1] == [];
  }

  lemma {:induction false} MoreGroups(data: Bytes, pos: nat, group: nat, n: nat, next: nat)
    requires group < 9 && pos < |data| && data[pos] >= 0x80
    ensures DecGroups(data, pos, group) == Parsed(n, next) <==>
      && pos < next <= |data| && next <= pos + (10 - group)
      && (forall i :: pos <= i < next ==> (data[i] >= 0x80 <==> i < next - 1))
      && n == Base128(data[pos..next]) < Room(group)
    decreases 10 - group, 0
  {
    var more := DecGroups(data, pos + 1, group + 1);
    assert Room(group) == 0x80 * Room(group + 1);
    if more.Parsed? { GroupsIff(data, pos + 1, group + 1, more.value, more.next); }
    if pos + 1 < next <= |data| {
      FirstDigit(data, pos, next);
      GroupsIff(data, pos + 1, group + 1, Base128(data[pos + 1..next]), next);
    }
  }

  lemma UintIff(data: Bytes, pos: nat, n: nat, next: nat)
    ensures DecUint(data, pos) == Parsed(n, next) <==> UintAt(data, pos, n, next)
  {
    RoomIsU64();
    GroupsIff(data, pos, 0, n, next);
  }

  lemma {:induction false} FixedFits(data: Bytes, pos: nat, width: nat)
    requires pos + width <= |data|
    ensures FixedValue(data, pos, width) < Pow256(width)
    decreases width
  {
    if width > 0 { FixedFits(data, pos + 1, width - 1); }
  }

  lemma {:induction false} DigitsOf(data: Bytes, pos: nat, width: nat, i: nat)
    requires i < width && pos + width <= |data|
    ensures FixedValue(data, pos, width) / Pow256(i) % 0x100 == data[pos + i]
    decreases width
  {
    var n, rest := FixedValue(data, pos, width), FixedValue(data, pos + 1, width - 1);
    assert n == data[pos] + 0x100 * rest;
    if i == 0 {
      assert Pow256(0) == 1;
    } else {
      DigitsOf(data, pos + 1, width - 1, i - 1);
      DivByPower(n, rest, i);
    }
  }

  lemma DivByPower(n: nat, rest: nat, i: nat)
    requires i > 0 && n / 0x100 == rest
    ensures n / Pow256(i) == rest / Pow256(i - 1)
  {
    var p := Pow256(i - 1);
    var q, r := rest / p, rest % p;
    assert rest == q * p + r;
    var low := n % 0x100;
    assert n == rest * 0x100 + low;
    assert Pow256(i) == 0x100 * p;
    assert n == q * (0x100 * p) + (r * 0x100 + low);
    assert r * 0x100 + low < 0x100 * p by { MulMonotone(r + 1, p, 0x100); }
    DivModUnique(n, 0x100 * p, q, r * 0x100 + low);
  }

  lemma {:induction false} FixedOf(data: Bytes, pos: nat, n: nat, width: nat)
    requires FixedAt(data, pos, n, width)
    ensures FixedValue(data, pos, width) == n
    decreases width
  {
    if width > 0 {
      assert Pow256(0) == 1 && data[pos + 0] == n / Pow256(0) % 0x100;
      forall i | 0 <= i < width - 1 ensures data[pos + 1 + i] == n / 0x100 / Pow256(i) % 0x100 {
        assert data[pos + (i + 1)] == n / Pow256(i + 1) % 0x100;
        DivByPower(n, n / 0x100, i + 1);
      }
      assert Pow256(width) == 0x100 * Pow256(width - 1);
      FixedOf(data, pos + 1, n / 0x100, width - 1);
    }
  }

  lemma FixedIff(data: Bytes, pos: nat, n: nat, width: nat, next: nat)
    ensures DecFixed(data, pos, width) == Parsed(n, next) <==> FixedAt(data, pos, n, width) && next == pos + width
  {
    if pos + width <= |data| {
      forall i | 0 <= i < width
        ensures data[pos + i] == FixedValue(data, pos, width) / Pow256(i) % 0x100
      {
        DigitsOf(data, pos, width, i);
      }
      FixedFits(data, pos, width);
      if FixedAt(data, pos, n, width) { FixedOf(data, pos, n, width); }
    }
  }

  lemma I64Iff(data: Bytes, pos: nat, n: int, next: nat)
    ensures DecI64(data, pos) == Parsed(n, next) <==> I64At(data, pos, n) && next == pos + 8
  {
    Pow256Widths();
    var r := DecFixed(data, pos, 8);
    if r.Parsed? { FixedIff(data, pos, r.value, 8, r.next); }
    if IsI64(n) { FixedIff(data, pos, if n < 0 then n + U64_MODULUS else n, 8, pos + 8); }
  }

  // -- strings and values

  /** A length and that many bytes, no more than `maximum`. */
  ghost predicate BytesAt(data: Bytes, pos: nat, bytes: Bytes, maximum: nat, next: nat)
  {
    && |bytes| <= maximum && |bytes| <= next <= |data| && data[next - |bytes|..next] == bytes
    && UintAt(data, pos, |bytes|, next - |bytes|)
  }

  /** The encoding of a sequence of Unicode scalar values, of at most a megabyte. */
  ghost predicate TextAt(data: Bytes, pos: nat, text: Bytes, next: nat)
  {
    BytesAt(data, pos, text, 1024 * 1024, next) && exists scalars :: Utf8.IsText(text, scalars)
  }

  /** A tag and the payload it announces. */
  ghost predicate ValueAt(data: Bytes, pos: nat, v: SqlValue, next: nat)
  {
    || (UintAt(data, pos, 0, next) && v == SqlValue(NullKind, None, None, None, None))
    || (next >= 8 && UintAt(data, pos, 1, next - 8) && v.integer.Some? && I64At(data, next - 8, v.integer.value)
        && v == SqlValue(IntegerKind, v.integer, None, None, None))
    || (next >= 8 && UintAt(data, pos, 2, next - 8) && v.bits.Some? && FixedAt(data, next - 8, v.bits.value, 8)
        && v == SqlValue(RealKind, None, v.bits, None, None))
    || (v.text.Some? && v == SqlValue(TextKind, None, None, v.text, None)
        && exists mid :: UintAt(data, pos, 3, mid) && TextAt(data, mid, v.text.value, next))
    || (v.blob.Some? && v == SqlValue(BlobKind, None, None, None, v.blob)
        && exists mid :: UintAt(data, pos, 4, mid) && BytesAt(data, mid, v.blob.value, 1024 * 1024, next))
  }

  lemma BytesIff(data: Bytes, pos: nat, bytes: Bytes, maximum: nat, next: nat)
    requires pos <= |data|
    ensures DecBytes(data, pos, maximum) == Parsed(bytes, next) <==> BytesAt(data, pos, bytes, maximum, next)
  {
    var length := DecUint(data, pos);
    if length.Parsed? { UintIff(data, pos, length.value, length.next); }
    if |bytes| <= next { UintIff(data, pos, |bytes|, next - |bytes|); }
  }

  lemma TextIff(data: Bytes, pos: nat, text: Bytes, next: nat)
    requires pos <= |data|
    ensures DecText(data, pos) == Parsed(text, next) <==> TextAt(data, pos, text, next)
  {
    BytesIff(data, pos, text, 1024 * 1024, next);
    Utf8.ValidIffText(text);
  }

  /** Every accepted value is one of the grammar's. */
  lemma ValueSound(data: Bytes, pos: nat)
    requires pos <= |data| && DecSql(data, pos, true).Parsed?
    ensures ValueAt(data, pos, DecSql(data, pos, true).value, DecSql(data, pos, true).next)
  {
    var tag, r := DecUint(data, pos), DecSql(data, pos, true);
    UintIff(data, pos, tag.value, tag.next);
    match tag.value
    case 1 => I64Iff(data, tag.next, r.value.integer.value, r.next);
    case 2 => FixedIff(data, tag.next, r.value.bits.value, 8, r.next);
    case 3 => TextIff(data, tag.next, r.value.text.value, r.next);
    case 4 => BytesIff(data, tag.next, r.value.blob.value, 1024 * 1024, r.next);
    case _ =>
  }

  /** Every value of the grammar is accepted as such. */
  lemma ValueComplete(data: Bytes, pos: nat, v: SqlValue, next: nat)
    requires pos <= |data| && ValueAt(data, pos, v, next)
    ensures DecSql(data, pos, true) == Parsed(v, next)
  {
    if v.kind.NullKind? {
      UintIff(data, pos, 0, next);
    } else if v.kind.IntegerKind? {
      UintIff(data, pos, 1, next - 8);
      I64Iff(data, next - 8, v.integer.value, next);
    } else if v.kind.RealKind? {
      UintIff(data, pos, 2, next - 8);
      FixedIff(data, next - 8, v.bits.value, 8, next);
    } else if v.kind.TextKind? {
      var mid :| UintAt(data, pos, 3, mid) && TextAt(data, mid, v.text.value, next);
      UintIff(data, pos, 3, mid);
      TextIff(data, mid, v.text.value, next);
    } else {
      var mid :| UintAt(data, pos, 4, mid) && BytesAt(data, mid, v.blob.value, 1024 * 1024, next);
      UintIff(data, pos, 4, mid);
      BytesIff(data, mid, v.blob.value, 1024 * 1024, next);
    }
  }

  lemma ValueIff(data: Bytes, pos: nat, v: SqlValue, next: nat)
    requires pos <= |data|
    ensures DecSql(data, pos, true) == Parsed(v, next) <==> ValueAt(data, pos, v, next)
  {
    if DecSql(data, pos, true) == Parsed(v, next) { ValueSound(data, pos); }
    if ValueAt(data, pos, v, next) { ValueComplete(data, pos, v, next); }
  }

  // -- lists

  ghost predicate TextsAt(data: Bytes, pos: nat, texts: seq<Bytes>, next: nat)
    decreases |texts|
  {
    if texts == [] then pos == next
    else exists mid :: TextAt(data, pos, texts[0], mid) && TextsAt(data, mid, texts[1..], next)
  }

  ghost predicate ValuesAt(data: Bytes, pos: nat, values: seq<SqlValue>, next: nat)
    decreases |values|
  {
    if values == [] then pos == next
    else exists mid :: ValueAt(data, pos, values[0], mid) && ValuesAt(data, mid, values[1..], next)
  }

  /** A row says its own width. */
  ghost predicate RowAt(data: Bytes, pos: nat, row: seq<SqlValue>, next: nat)
  {
    exists start :: UintAt(data, pos, |row|, start) && ValuesAt(data, start, row, next)
  }

  /** And every row has the width of the columns. */
  ghost predicate RowsAt(data: Bytes, pos: nat, rows: seq<seq<SqlValue>>, width: nat, next: nat)
    decreases |rows|
  {
    if rows == [] then pos == next
    else |rows[0]| == width && exists mid :: RowAt(data, pos, rows[0], mid) && RowsAt(data, mid, rows[1..], width, next)
  }

  function Concat(rows: seq<seq<SqlValue>>): seq<SqlValue> { if rows == [] then [] else rows[0] + Concat(rows[1..]) }

  lemma {:induction false} TextsSound(data: Bytes, pos: nat, texts: seq<Bytes>, next: nat)
    requires pos <= |data| && DecTexts(data, pos, |texts|) == Parsed(texts, next)
    ensures TextsAt(data, pos, texts, next)
    decreases |texts|
  {
    if texts != [] {
      var mid := TextsParts(data, pos, texts, next);
      TextIff(data, pos, texts[0], mid);
      TextsSound(data, mid, texts[1..], next);
    }
  }

  lemma TextsParts(data: Bytes, pos: nat, texts: seq<Bytes>, next: nat) returns (mid: nat)
    requires pos <= |data| && texts != [] && DecTexts(data, pos, |texts|) == Parsed(texts, next)
    ensures DecText(data, pos) == Parsed(texts[0], mid) && mid <= |data|
    ensures DecTexts(data, mid, |texts| - 1) == Parsed(texts[1..], next)
  {
    var first := DecText(data, pos);
    mid := first.next;
    var rest := DecTexts(data, mid, |texts| - 1);
    assert ([first.value] + rest.value)[0] == first.value && ([first.value] + rest.value)[1..] == rest.value;
  }

  lemma {:induction false} TextsComplete(data: Bytes, pos: nat, texts: seq<Bytes>, next: nat)
    requires pos <= |data| && TextsAt(data, pos, texts, next)
    ensures DecTexts(data, pos, |texts|) == Parsed(texts, next)
    decreases |texts|
  {
    if texts != [] {
      var mid := FirstText(data, pos, texts, next);
      TextsComplete(data, mid, texts[1..], next);
      TextThenTexts(data, pos, texts, mid, next);
    }
  }

  lemma FirstText(data: Bytes, pos: nat, texts: seq<Bytes>, next: nat) returns (mid: nat)
    requires pos <= |data| && texts != [] && TextsAt(data, pos, texts, next)
    ensures DecText(data, pos) == Parsed(texts[0], mid) && pos < mid <= |data| && TextsAt(data, mid, texts[1..], next)
  {
    mid :| TextAt(data, pos, texts[0], mid) && TextsAt(data, mid, texts[1..], next);
    TextIff(data, pos, texts[0], mid);
  }

  lemma TextThenTexts(data: Bytes, pos: nat, texts: seq<Bytes>, mid: nat, next: nat)
    requires pos <= |data| && texts != [] && DecText(data, pos) == Parsed(texts[0], mid)
    requires DecTexts(data, mid, |texts| - 1) == Parsed(texts[1..], next)
    ensures DecTexts(data, pos, |texts|) == Parsed(texts, next)
  {
    assert [texts[0]] + texts[1..] == texts;
  }

  lemma {:induction false} ValuesSound(data: Bytes, pos: nat, values: seq<SqlValue>, next: nat)
    requires pos <= |data| && DecValues(data, pos, |values|, true) == Parsed(values, next)
    ensures ValuesAt(data, pos, values, next)
    decreases |values|
  {
    if values != [] {
      var mid := ValuesParts(data, pos, values, next);
      ValueIff(data, pos, values[0], mid);
      ValuesSound(data, mid, values[1..], next);
    }
  }

  lemma ValuesParts(data: Bytes, pos: nat, values: seq<SqlValue>, next: nat) returns (mid: nat)
    requires pos <= |data| && values != [] && DecValues(data, pos, |values|, true) == Parsed(values, next)
    ensures DecSql(data, pos, true) == Parsed(values[0], mid) && mid <= |data|
    ensures DecValues(data, mid, |values| - 1, true) == Parsed(values[1..], next)
  {
    var first := DecSql(data, pos, true);
    mid := first.next;
    var rest := DecValues(data, mid, |values| - 1, true);
    assert ([first.value] + rest.value)[0] == first.value && ([first.value] + rest.value)[1..] == rest.value;
  }

  lemma {:induction false} ValuesComplete(data: Bytes, pos: nat, values: seq<SqlValue>, next: nat)
    requires pos <= |data| && ValuesAt(data, pos, values, next)
    ensures DecValues(data, pos, |values|, true) == Parsed(values, next)
    decreases |values|
  {
    if values != [] {
      var mid := FirstValue(data, pos, values, next);
      ValuesComplete(data, mid, values[1..], next);
      ValueThenValues(data, pos, values, mid, next);
    }
  }

  lemma FirstValue(data: Bytes, pos: nat, values: seq<SqlValue>, next: nat) returns (mid: nat)
    requires pos <= |data| && values != [] && ValuesAt(data, pos, values, next)
    ensures DecSql(data, pos, true) == Parsed(values[0], mid) && pos < mid <= |data|
    ensures ValuesAt(data, mid, values[1..], next)
  {
    mid :| ValueAt(data, pos, values[0], mid) && ValuesAt(data, mid, values[1..], next);
    ValueIff(data, pos, values[0], mid);
  }

  lemma ValueThenValues(data: Bytes, pos: nat, values: seq<SqlValue>, mid: nat, next: nat)
    requires pos <= |data| && values != [] && DecSql(data, pos, true) == Parsed(values[0], mid)
    requires DecValues(data, mid, |values| - 1, true) == Parsed(values[1..], next)
    ensures DecValues(data, pos, |values|, true) == Parsed(values, next)
  {
    assert [values[0]] + values[1..] == values;
  }

  lemma RowIff(data: Bytes, pos: nat, row: seq<SqlValue>, next: nat)
    requires pos <= |data| && |row| <= 1024
    ensures DecRow(data, pos, |row|) == Parsed(row, next) <==> RowAt(data, pos, row, next)
  {
    var count := DecUint(data, pos);
    if DecRow(data, pos, |row|) == Parsed(row, next) {
      UintIff(data, pos, |row|, count.next);
      ValuesSound(data, count.next, row, next);
    }
    if RowAt(data, pos, row, next) {
      var start :| UintAt(data, pos, |row|, start) && ValuesAt(data, start, row, next);
      UintIff(data, pos, |row|, start);
      ValuesComplete(data, start, row, next);
      ValuesTakeRoom(data, start, row, next);
    }
  }

  /** A value takes at least a byte, so a list cannot be longer than the bytes it stands in. */
  lemma {:induction false} ValuesTakeRoom(data: Bytes, pos: nat, values: seq<SqlValue>, next: nat)
    requires pos <= |data| && ValuesAt(data, pos, values, next)
    ensures pos + |values| <= next <= |data|
    decreases |values|
  {
    if values != [] {
      var mid := FirstValue(data, pos, values, next);
      ValuesTakeRoom(data, mid, values[1..], next);
    }
  }

  lemma {:induction false} TextsTakeRoom(data: Bytes, pos: nat, texts: seq<Bytes>, next: nat)
    requires pos <= |data| && TextsAt(data, pos, texts, next)
    ensures pos + |texts| <= next <= |data|
    decreases |texts|
  {
    if texts != [] {
      var mid := FirstText(data, pos, texts, next);
      TextsTakeRoom(data, mid, texts[1..], next);
    }
  }

  lemma RowOnTop(data: Bytes, pos: nat, row: seq<SqlValue>, mid: nat, rest: seq<seq<SqlValue>>, width: nat, next: nat)
    returns (rows: seq<seq<SqlValue>>)
    requires pos <= |data| && width <= 1024 && |row| == width && DecRow(data, pos, width) == Parsed(row, mid)
    requires RowsAt(data, mid, rest, width, next)
    ensures |rows| == 1 + |rest| && RowsAt(data, pos, rows, width, next) && Concat(rows) == row + Concat(rest)
  {
    rows := [row] + rest;
    RowIff(data, pos, row, mid);
    assert rows[0] == row && rows[1..] == rest;
  }

  lemma {:induction false} RowsSound(data: Bytes, pos: nat, count: nat, width: nat, values: seq<SqlValue>, next: nat)
    returns (rows: seq<seq<SqlValue>>)
    requires pos <= |data| && width <= 1024 && DecRows(data, pos, count, width) == Parsed(values, next)
    ensures |rows| == count && RowsAt(data, pos, rows, width, next) && values == Concat(rows)
    decreases count
  {
    if count == 0 {
      rows := [];
    } else {
      var row, mid, others := FirstDecoded(data, pos, count, width, values, next);
      var rest := RowsSound(data, mid, count - 1, width, others, next);
      rows := RowOnTop(data, pos, row, mid, rest, width, next);
    }
  }

  lemma FirstDecoded(data: Bytes, pos: nat, count: nat, width: nat, values: seq<SqlValue>, next: nat)
    returns (row: seq<SqlValue>, mid: nat, others: seq<SqlValue>)
    requires pos <= |data| && count > 0 && DecRows(data, pos, count, width) == Parsed(values, next)
    ensures |row| == width && DecRow(data, pos, width) == Parsed(row, mid) && mid <= |data|
    ensures DecRows(data, mid, count - 1, width) == Parsed(others, next) && values == row + others
  {
    var first := DecRow(data, pos, width);
    row, mid := first.value, first.next;
    others := DecRows(data, mid, count - 1, width).value;
  }

  lemma FirstRow(data: Bytes, pos: nat, rows: seq<seq<SqlValue>>, width: nat, next: nat) returns (mid: nat)
    requires pos <= |data| && width <= 1024 && rows != [] && RowsAt(data, pos, rows, width, next)
    ensures DecRow(data, pos, width) == Parsed(rows[0], mid) && pos < mid <= |data|
    ensures RowsAt(data, mid, rows[1..], width, next)
  {
    mid :| RowAt(data, pos, rows[0], mid) && RowsAt(data, mid, rows[1..], width, next);
    RowIff(data, pos, rows[0], mid);
  }

  lemma {:induction false} RowsComplete(data: Bytes, pos: nat, rows: seq<seq<SqlValue>>, width: nat, next: nat)
    requires pos <= |data| && width <= 1024 && RowsAt(data, pos, rows, width, next)
    ensures DecRows(data, pos, |rows|, width) == Parsed(Concat(rows), next)
    decreases |rows|
  {
    if rows != [] {
      var mid := FirstRow(data, pos, rows, width, next);
      RowsComplete(data, mid, rows[1..], width, next);
      RowThenRows(data, pos, rows, width, mid, next);
    }
  }

  lemma {:induction false} RowsTakeRoom(data: Bytes, pos: nat, rows: seq<seq<SqlValue>>, width: nat, next: nat)
    requires pos <= |data| && width <= 1024 && RowsAt(data, pos, rows, width, next)
    ensures pos + |rows| <= next <= |data|
    decreases |rows|
  {
    if rows != [] {
      var mid := FirstRow(data, pos, rows, width, next);
      RowsTakeRoom(data, mid, rows[1..], width, next);
    }
  }

  lemma RowThenRows(data: Bytes, pos: nat, rows: seq<seq<SqlValue>>, width: nat, mid: nat, next: nat)
    requires pos <= |data| && rows != [] && DecRow(data, pos, width) == Parsed(rows[0], mid)
    requires mid <= |data| && DecRows(data, mid, |rows| - 1, width) == Parsed(Concat(rows[1..]), next)
    ensures DecRows(data, pos, |rows|, width) == Parsed(Concat(rows), next)
  {
  }

  // -- query results

  ghost predicate ColumnsAt(data: Bytes, pos: nat, columns: seq<Bytes>, next: nat)
  {
    |columns| <= 1024 && exists start :: UintAt(data, pos, |columns|, start) && TextsAt(data, start, columns, next)
  }

  ghost predicate TableAt(data: Bytes, pos: nat, values: seq<SqlValue>, width: nat, next: nat)
  {
    exists rows, start ::
      UintAt(data, pos, |rows|, start) && RowsAt(data, start, rows, width, next) && values == Concat(rows)
  }

  /** The number of changed rows, and a byte that says whether the last row id follows. */
  ghost predicate CountersAt(data: Bytes, pos: nat, changes: int, last: Option<int>, next: nat)
  {
    && I64At(data, pos, changes) && pos + 8 < |data|
    && if last.None? then data[pos + 8] == 0 && next == pos + 9
       else data[pos + 8] == 1 && I64At(data, pos + 9, last.value) && next == pos + 17
  }

  ghost predicate QueryAt(data: Bytes, pos: nat, r: Response, next: nat)
  {
    exists table, counters ::
      && ColumnsAt(data, pos, r.columns, table) && TableAt(data, table, r.values, |r.columns|, counters)
      && CountersAt(data, counters, r.changes, r.lastInsert, next)
  }

  lemma ColumnsIff(data: Bytes, pos: nat, columns: seq<Bytes>, next: nat)
    requires pos <= |data|
    ensures DecColumns(data, pos) == Parsed(columns, next) <==> ColumnsAt(data, pos, columns, next)
  {
    var width := DecUint(data, pos);
    if DecColumns(data, pos) == Parsed(columns, next) {
      UintIff(data, pos, |columns|, width.next);
      TextsSound(data, width.next, columns, next);
    }
    if ColumnsAt(data, pos, columns, next) {
      var start :| UintAt(data, pos, |columns|, start) && TextsAt(data, start, columns, next);
      UintIff(data, pos, |columns|, start);
      TextsComplete(data, start, columns, next);
      TextsTakeRoom(data, start, columns, next);
    }
  }

  lemma TableIff(data: Bytes, pos: nat, values: seq<SqlValue>, width: nat, next: nat)
    requires pos <= |data| && width <= 1024
    ensures DecTable(data, pos, width) == Parsed(values, next) <==> TableAt(data, pos, values, width, next)
  {
    var rows := DecUint(data, pos);
    if DecTable(data, pos, width) == Parsed(values, next) {
      UintIff(data, pos, rows.value, rows.next);
      var table := RowsSound(data, rows.next, rows.value, width, values, next);
    }
    if TableAt(data, pos, values, width, next) {
      var table, start :|
        UintAt(data, pos, |table|, start) && RowsAt(data, start, table, width, next) && values == Concat(table);
      UintIff(data, pos, |table|, start);
      RowsTakeRoom(data, start, table, width, next);
      RowsComplete(data, start, table, width, next);
    }
  }

  lemma CountersIff(data: Bytes, pos: nat, changes: int, last: Option<int>, next: nat)
    ensures DecCounters(data, pos) == Parsed((changes, last), next) <==> CountersAt(data, pos, changes, last, next)
  {
    I64Iff(data, pos, changes, pos + 8);
    if last.Some? { I64Iff(data, pos + 9, last.value, pos + 17); }
  }

  /** The client accepts bytes as a query result, and as this one, if and only if the grammar says so. */
  lemma QueryAcceptedIff(data: Bytes, pos: nat, r: Response, next: nat)
    requires pos <= |data|
    ensures DecQuery(data, pos) == Parsed(r, next) <==> QueryAt(data, pos, r, next)
  {
    if DecQuery(data, pos) == Parsed(r, next) { QuerySound(data, pos, r, next); }
    if QueryAt(data, pos, r, next) { QueryComplete(data, pos, r, next); }
  }

  lemma QuerySound(data: Bytes, pos: nat, r: Response, next: nat)
    requires pos <= |data| && DecQuery(data, pos) == Parsed(r, next)
    ensures QueryAt(data, pos, r, next)
  {
    var columns := DecColumns(data, pos);
    var values := DecTable(data, columns.next, |columns.value|);
    ColumnsIff(data, pos, r.columns, columns.next);
    TableIff(data, columns.next, r.values, |r.columns|, values.next);
    CountersIff(data, values.next, r.changes, r.lastInsert, next);
  }

  lemma QueryComplete(data: Bytes, pos: nat, r: Response, next: nat)
    requires pos <= |data| && QueryAt(data, pos, r, next)
    ensures DecQuery(data, pos) == Parsed(r, next)
  {
    var table, counters :|
      && ColumnsAt(data, pos, r.columns, table) && TableAt(data, table, r.values, |r.columns|, counters)
      && CountersAt(data, counters, r.changes, r.lastInsert, next);
    ColumnsIff(data, pos, r.columns, table);
    TableIff(data, table, r.values, |r.columns|, counters);
    CountersIff(data, counters, r.changes, r.lastInsert, next);
  }
}
