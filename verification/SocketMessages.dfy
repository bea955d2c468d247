/**
 The messages of the actor runtime socket: query results as the socket client decodes them and requests as it encodes
 them. The other end is not part of the repository; its encoder and its reader are given here as the reference.
 */
module SocketMessages {
  import opened Common
  import opened ByteStrings
  import Utf8
  import opened BareCodec

  // -- query results

  /** What the client keeps: column names, all values row after row, and the statement's counters. */
  datatype Response = Response(columns: seq<Bytes>, values: seq<SqlValue>, changes: int, lastInsert: Option<int>)

  function DecTexts(data: Bytes, pos: nat, count: nat): (r: Parsed<seq<Bytes>>)
    requires pos <= |data|
    ensures r.Parsed? ==> pos <= r.next <= |data| && |r.value| == count
    decreases count
  {
    if count == 0 then Parsed([], pos)
    else
      var first := DecText(data, pos);
      if first.Failed? then Failed(first.error)
      else
        var rest := DecTexts(data, first.next, count - 1);
        if rest.Failed? then rest else Parsed([first.value] + rest.value, rest.next)
  }

  function DecValues(data: Bytes, pos: nat, count: nat, utf8: bool): (r: Parsed<seq<SqlValue>>)
    requires pos <= |data|
    ensures r.Parsed? ==> pos <= r.next <= |data| && |r.value| == count
    decreases count
  {
    if count == 0 then Parsed([], pos)
    else
      var first := DecSql(data, pos, utf8);
      if first.Failed? then Failed(first.error)
      else
        var rest := DecValues(data, first.next, count - 1, utf8);
        if rest.Failed? then rest else Parsed([first.value] + rest.value, rest.next)
  }

  function DecRow(data: Bytes, pos: nat, width: nat): (r: Parsed<seq<SqlValue>>)
    requires pos <= |data|
    ensures r.Parsed? ==> pos < r.next <= |data| && |r.value| == width
  {
    var count := DecLength(data, pos, MAX_COLUMNS);
    if count.Failed? then Failed(count.error)
    else if count.value != width then Failed(RaggedRow)
    else DecValues(data, count.next, width, true)
  }

  function DecRows(data: Bytes, pos: nat, rows: nat, width: nat): (r: Parsed<seq<SqlValue>>)
    requires pos <= |data|
    ensures r.Parsed? ==> pos <= r.next <= |data| && |r.value| == rows * width
    decreases rows
  {
    if rows == 0 then Parsed([], pos)
    else
      var first := DecRow(data, pos, width);
      if first.Failed? then first
      else
        var rest := DecRows(data, first.next, rows - 1, width);
        if rest.Failed? then rest
        else
          assert (rows - 1) * width + width == rows * width;
          Parsed(first.value + rest.value, rest.next)
  }

  function DecBool(data: Bytes, pos: nat): Parsed<bool>
  {
    if pos >= |data| then Failed(Short) else if data[pos] > 1 then Failed(BadBool) else Parsed(data[pos] == 1, pos + 1)
  }

  function DecOptionalI64(data: Bytes, pos: nat): Parsed<Option<int>>
  {
    var present := DecBool(data, pos);
    if present.Failed? then Failed(present.error)
    else if !present.value then Parsed(None, present.next)
    else
      var n := DecI64(data, present.next);
      if n.Failed? then Failed(n.error) else Parsed(Some(n.value), n.next)
  }

  function DecColumns(data: Bytes, pos: nat): (r: Parsed<seq<Bytes>>)
    requires pos <= |data|
    ensures r.Parsed? ==> pos <= r.next <= |data| && |r.value| <= MAX_COLUMNS
  {
    var width := DecLength(data, pos, MAX_COLUMNS);
    if width.Failed? then Failed(width.error) else DecTexts(data, width.next, width.value)
  }

  function DecTable(data: Bytes, pos: nat, width: nat): (r: Parsed<seq<SqlValue>>)
    requires pos <= |data|
    ensures r.Parsed? ==> pos <= r.next <= |data| && exists rows: nat :: |r.value| == rows * width
  {
    var rows := DecLength(data, pos, |data| - pos);
    if rows.Failed? then Failed(rows.error) else DecRows(data, rows.next, rows.value, width)
  }

  function DecCounters(data: Bytes, pos: nat): Parsed<(int, Option<int>)>
  {
    var changes := DecI64(data, pos);
    if changes.Failed? then Failed(changes.error)
    else
      var last := DecOptionalI64(data, changes.next);
      if last.Failed? then Failed(last.error) else Parsed((changes.value, last.value), last.next)
  }

  function DecQuery(data: Bytes, pos: nat): (r: Parsed<Response>)
    requires pos <= |data|
  {
    var columns := DecColumns(data, pos);
    if columns.Failed? then Failed(columns.error)
    else
      var values := DecTable(data, columns.next, |columns.value|);
      if values.Failed? then Failed(values.error)
      else
        var counters := DecCounters(data, values.next);
        if counters.Failed? then Failed(counters.error)
        else Parsed(Response(columns.value, values.value, counters.value.0, counters.value.1), counters.next)
  }

  /** Whatever the bytes, an accepted result is rectangular: its values are whole rows of as many values as there are
      columns, and there are at most 1,024 columns. */
  lemma AcceptedIsRectangular(data: Bytes, pos: nat)
    requires pos <= |data| && DecQuery(data, pos).Parsed?
    ensures var r := DecQuery(data, pos).value;
      |r.columns| <= 1024 && exists rows: nat :: |r.values| == rows * |r.columns|
  {
    var columns := DecColumns(data, pos);
    var values := DecTable(data, columns.next, |columns.value|);
    var rows: nat :| |values.value| == rows * |columns.value|;
  }

  // -- the encoder at the other end

  datatype Query = Query(columns: seq<Bytes>, rows: seq<seq<SqlValue>>, changes: int, lastInsert: Option<int>)

  predicate AllSendable(row: seq<SqlValue>, utf8: bool)
  {
    forall i :: 0 <= i < |row| ==> Typed(row[i]) && EncSql(row[i]).Ok? && (utf8 ==> TextIsUtf8(row[i]))
  }

  predicate ValidRow(row: seq<SqlValue>, width: nat) { |row| == width && AllSendable(row, true) }

  predicate ValidText(text: Bytes) { |text| <= MAX_VALUE_BYTES && Utf8.Valid(text) }

  predicate ValidTexts(texts: seq<Bytes>) { forall i :: 0 <= i < |texts| ==> ValidText(texts[i]) }

  predicate ValidRows(rows: seq<seq<SqlValue>>, width: nat) { forall i :: 0 <= i < |rows| ==> ValidRow(rows[i], width) }

  predicate ValidQuery(q: Query)
  {
    && |q.columns| <= MAX_COLUMNS && |q.rows| < U64_MODULUS && IsI64(q.changes)
    && (q.lastInsert.Some? ==> IsI64(q.lastInsert.value))
    && ValidTexts(q.columns) && ValidRows(q.rows, |q.columns|)
  }

  function EncTexts(texts: seq<Bytes>): (bytes: Bytes)
    ensures |bytes| >= |texts|
  {
    if texts == [] then [] else EncBytes(texts[0]) + EncTexts(texts[1..])
  }

  function EncValues(values: seq<SqlValue>): (bytes: Bytes)
    requires AllSendable(values, false)
    ensures |bytes| >= |values|
  {
    if values == [] then [] else EncSql(values[0]).value + EncValues(values[1..])
  }

  function EncRow(row: seq<SqlValue>): (bytes: Bytes)
    requires AllSendable(row, false)
    ensures |bytes| > 0
  {
    EncUint(|row|) + EncValues(row)
  }

  function EncRows(rows: seq<seq<SqlValue>>, width: nat): (bytes: Bytes)
    requires ValidRows(rows, width)
    ensures |bytes| >= |rows|
  {
    if rows == [] then []
    else
      assert ValidRow(rows[0], width);
      EncRow(rows[0]) + EncRows(rows[1..], width)
  }

  function EncOptionalI64(value: Option<int>): Bytes
  {
    if value.None? then [0] else [1] + EncI64(value.value)
  }

  function EncColumns(columns: seq<Bytes>): Bytes { EncUint(|columns|) + EncTexts(columns) }

  function EncTable(rows: seq<seq<SqlValue>>, width: nat): Bytes
    requires ValidRows(rows, width)
  {
    EncUint(|rows|) + EncRows(rows, width)
  }

  function EncCounters(changes: int, lastInsert: Option<int>): Bytes { EncI64(changes) + EncOptionalI64(lastInsert) }

  function EncQuery(q: Query): Bytes
    requires ValidQuery(q)
  {
    EncColumns(q.columns) + (EncTable(q.rows, |q.columns|) + EncCounters(q.changes, q.lastInsert))
  }

  function UsedAll(values: seq<SqlValue>): seq<SqlValue>
  {
    if values == [] then [] else [Used(values[0])] + UsedAll(values[1..])
  }

  /** All rows, one after the other. */
  function RowMajor(rows: seq<seq<SqlValue>>): seq<SqlValue>
  {
    if rows == [] then [] else UsedAll(rows[0]) + RowMajor(rows[1..])
  }

  lemma TextReadsBack(text: Bytes, data: Bytes, pos: nat, next: nat)
    requires ValidText(text) && At(data, pos, EncBytes(text)) && next == pos + |EncBytes(text)|
    ensures DecText(data, pos) == Parsed(text, next)
  {
    BytesReadBack(text, data, pos, MAX_VALUE_BYTES);
  }

  lemma TextsParts(texts: seq<Bytes>, data: Bytes, pos: nat) returns (next: nat)
    requires texts != [] && At(data, pos, EncTexts(texts))
    ensures next == pos + |EncBytes(texts[0])| && pos + |EncTexts(texts)| == next + |EncTexts(texts[1..])|
    ensures At(data, pos, EncBytes(texts[0])) && At(data, next, EncTexts(texts[1..]))
  {
    AtParts(data, pos, EncBytes(texts[0]), EncTexts(texts[1..]));
    next := pos + |EncBytes(texts[0])|;
  }

  lemma TextThenTexts(data: Bytes, pos: nat, texts: seq<Bytes>, next: nat, end: nat)
    requires texts != [] && pos <= |data| && next <= |data|
    requires DecText(data, pos) == Parsed(texts[0], next)
    requires DecTexts(data, next, |texts| - 1) == Parsed(texts[1..], end)
    ensures DecTexts(data, pos, |texts|) == Parsed(texts, end)
  {
    assert [texts[0]] + texts[1..] == texts;
  }

  lemma {:induction false} TextsReadBack(texts: seq<Bytes>, data: Bytes, pos: nat, end: nat)
    requires ValidTexts(texts) && At(data, pos, EncTexts(texts)) && end == pos + |EncTexts(texts)|
    ensures DecTexts(data, pos, |texts|) == Parsed(texts, end)
  {
    if texts != [] {
      var next := TextsParts(texts, data, pos);
      TextReadsBack(texts[0], data, pos, next);
      TextsReadBack(texts[1..], data, next, end);
      TextThenTexts(data, pos, texts, next, end);
    }
  }

  lemma ValuesParts(values: seq<SqlValue>, data: Bytes, pos: nat) returns (next: nat)
    requires values != [] && AllSendable(values, false) && At(data, pos, EncValues(values))
    ensures next == pos + |EncSql(values[0]).value| && pos + |EncValues(values)| == next + |EncValues(values[1..])|
    ensures At(data, pos, EncSql(values[0]).value) && At(data, next, EncValues(values[1..]))
  {
    AtParts(data, pos, EncSql(values[0]).value, EncValues(values[1..]));
    next := pos + |EncSql(values[0]).value|;
  }

  lemma ValueThenValues(data: Bytes, pos: nat, values: seq<SqlValue>, utf8: bool, next: nat, end: nat)
    requires values != [] && pos <= |data| && next <= |data|
    requires DecSql(data, pos, utf8) == Parsed(Used(values[0]), next)
    requires DecValues(data, next, |values| - 1, utf8) == Parsed(UsedAll(values[1..]), end)
    ensures DecValues(data, pos, |values|, utf8) == Parsed(UsedAll(values), end)
  {
  }

  lemma {:induction false} ValuesReadBack(values: seq<SqlValue>, data: Bytes, pos: nat, utf8: bool, end: nat)
    requires AllSendable(values, utf8) && At(data, pos, EncValues(values)) && end == pos + |EncValues(values)|
    ensures DecValues(data, pos, |values|, utf8) == Parsed(UsedAll(values), end)
  {
    if values != [] {
      var next := ValuesParts(values, data, pos);
      SqlRoundTrip(values[0], data, pos, utf8);
      ValuesReadBack(values[1..], data, next, utf8, end);
      ValueThenValues(data, pos, values, utf8, next, end);
    }
  }

  lemma RowReadsBack(row: seq<SqlValue>, data: Bytes, pos: nat, width: nat, next: nat)
    requires ValidRow(row, width) && width <= MAX_COLUMNS && At(data, pos, EncRow(row)) && next == pos + |EncRow(row)|
    ensures DecRow(data, pos, width) == Parsed(UsedAll(row), next)
  {
    var values := CountReadsBack(|row|, EncValues(row), data, pos, MAX_COLUMNS);
    ValuesReadBack(row, data, values, true, next);
  }

  lemma RowsParts(rows: seq<seq<SqlValue>>, data: Bytes, pos: nat, width: nat) returns (next: nat)
    requires rows != [] && ValidRows(rows, width) && At(data, pos, EncRows(rows, width))
    ensures ValidRow(rows[0], width) && next == pos + |EncRow(rows[0])|
    ensures pos + |EncRows(rows, width)| == next + |EncRows(rows[1..], width)|
    ensures At(data, pos, EncRow(rows[0])) && At(data, next, EncRows(rows[1..], width))
  {
    assert ValidRow(rows[0], width);
    AtParts(data, pos, EncRow(rows[0]), EncRows(rows[1..], width));
    next := pos + |EncRow(rows[0])|;
  }

  lemma RowThenRows(data: Bytes, pos: nat, rows: seq<seq<SqlValue>>, width: nat, next: nat, end: nat)
    requires rows != [] && pos <= |data| && next <= |data|
    requires DecRow(data, pos, width) == Parsed(UsedAll(rows[0]), next)
    requires DecRows(data, next, |rows| - 1, width) == Parsed(RowMajor(rows[1..]), end)
    ensures DecRows(data, pos, |rows|, width) == Parsed(RowMajor(rows), end)
  {
  }

  lemma {:induction false} RowsReadBack(rows: seq<seq<SqlValue>>, data: Bytes, pos: nat, width: nat, end: nat)
    requires ValidRows(rows, width) && width <= MAX_COLUMNS
    requires At(data, pos, EncRows(rows, width)) && end == pos + |EncRows(rows, width)|
    ensures DecRows(data, pos, |rows|, width) == Parsed(RowMajor(rows), end)
  {
    if rows != [] {
      var next := RowsParts(rows, data, pos, width);
      RowReadsBack(rows[0], data, pos, width, next);
      RowsReadBack(rows[1..], data, next, width, end);
      RowThenRows(data, pos, rows, width, next, end);
    }
  }

  lemma OptionalReadsBack(value: Option<int>, data: Bytes, pos: nat)
    requires (value.Some? ==> IsI64(value.value)) && At(data, pos, EncOptionalI64(value))
    ensures DecOptionalI64(data, pos) == Parsed(value, pos + |EncOptionalI64(value)|)
  {
    assert EncOptionalI64(value)[0] == data[pos];
    if value.Some? {
      AtParts(data, pos, [1], EncI64(value.value));
      I64ReadsBack(value.value, data, pos + 1);
    }
  }

  lemma ColumnsReadBack(columns: seq<Bytes>, data: Bytes, pos: nat, end: nat)
    requires ValidTexts(columns) && |columns| <= MAX_COLUMNS && At(data, pos, EncColumns(columns))
    requires end == pos + |EncColumns(columns)|
    ensures DecColumns(data, pos) == Parsed(columns, end)
  {
    var texts := CountReadsBack(|columns|, EncTexts(columns), data, pos, MAX_COLUMNS);
    TextsReadBack(columns, data, texts, end);
  }

  lemma TableReadsBack(rows: seq<seq<SqlValue>>, width: nat, data: Bytes, pos: nat, end: nat)
    requires ValidRows(rows, width) && width <= MAX_COLUMNS && |rows| < U64_MODULUS && At(data, pos, EncTable(rows, width))
    requires end == pos + |EncTable(rows, width)|
    ensures DecTable(data, pos, width) == Parsed(RowMajor(rows), end)
  {
    var first := CountReadsBack(|rows|, EncRows(rows, width), data, pos, |data| - pos);
    RowsReadBack(rows, data, first, width, end);
  }

  lemma CountersReadBack(changes: int, lastInsert: Option<int>, data: Bytes, pos: nat, end: nat)
    requires IsI64(changes) && (lastInsert.Some? ==> IsI64(lastInsert.value)) && At(data, pos, EncCounters(changes, lastInsert))
    requires end == pos + |EncCounters(changes, lastInsert)|
    ensures DecCounters(data, pos) == Parsed((changes, lastInsert), end)
  {
    AtParts(data, pos, EncI64(changes), EncOptionalI64(lastInsert));
    I64ReadsBack(changes, data, pos);
    OptionalReadsBack(lastInsert, data, pos + 8);
  }

  lemma ThreeParts(data: Bytes, pos: nat, a: Bytes, b: Bytes, c: Bytes)
    requires At(data, pos, a + (b + c))
    ensures At(data, pos, a) && At(data, pos + |a|, b) && At(data, pos + |a| + |b|, c)
  {
    AtParts(data, pos, a, b + c);
    AtParts(data, pos + |a|, b, c);
  }

  lemma PartsMakeQuery(data: Bytes, pos: nat, r: Response, p1: nat, p2: nat, end: nat)
    requires pos <= |data| && p1 <= |data| && DecColumns(data, pos) == Parsed(r.columns, p1)
    requires DecTable(data, p1, |r.columns|) == Parsed(r.values, p2)
    requires DecCounters(data, p2) == Parsed((r.changes, r.lastInsert), end)
    ensures DecQuery(data, pos) == Parsed(r, end)
  {
  }

  /** Every well-formed query result, followed by anything, decodes to its columns, its values in row order and its
      counters, consuming exactly its bytes. The early length checks never refuse one. */
  lemma QueryRoundTrip(q: Query, data: Bytes, pos: nat)
    requires ValidQuery(q) && At(data, pos, EncQuery(q))
    ensures DecQuery(data, pos)
         == Parsed(Response(q.columns, RowMajor(q.rows), q.changes, q.lastInsert), pos + |EncQuery(q)|)
  {
    var a, b, c := EncColumns(q.columns), EncTable(q.rows, |q.columns|), EncCounters(q.changes, q.lastInsert);
    var p1, p2 := pos + |a|, pos + |a| + |b|;
    ThreeParts(data, pos, a, b, c);
    ColumnsReadBack(q.columns, data, pos, p1);
    TableReadsBack(q.rows, |q.columns|, data, p1, p2);
    CountersReadBack(q.changes, q.lastInsert, data, p2, p2 + |c|);
    PartsMakeQuery(data, pos, Response(q.columns, RowMajor(q.rows), q.changes, q.lastInsert), p1, p2, p2 + |c|);
  }

  // -- requests

  const EXEC: nat := 0
  const QUERY: nat := 1
  const BEGIN: nat := 2
  const COMMIT: nat := 3
  const ROLLBACK: nat := 4

  datatype Request = Request(
    id: nat, kind: nat, sql: Bytes, args: seq<SqlValue>, lease: Option<Bytes>, timeout: Option<nat>)

  /** The ranges of the record's own field types. */
  predicate InRange(r: Request)
  {
    && r.id < U32_MODULUS && r.kind < 0x100 && |r.sql| < U64_MODULUS
    && (r.lease.Some? ==> |r.lease.value| < U64_MODULUS) && (r.timeout.Some? ==> r.timeout.value < U64_MODULUS)
    && (forall i :: 0 <= i < |r.args| ==> Typed(r.args[i]))
  }

  function EncOptionalBytes(value: Option<Bytes>): Bytes
  {
    if value.None? then [0] else [1] + EncBytes(value.value)
  }

  /** The arguments one after the other, or the first failure. */
  function EncArgs(args: seq<SqlValue>): Result<Bytes>
  {
    if args == [] then Ok([])
    else
      var first := EncSql(args[0]);
      if first.Err? then first
      else
        var rest := EncArgs(args[1..]);
        if rest.Err? then rest else Ok(first.value + rest.value)
  }

  function EncTimeout(timeout: Option<nat>): Bytes { if timeout.None? then [0] else [1] + EncFixed(timeout.value, 8) }

  /** What follows the kind. */
  function EncBody(r: Request): Result<Bytes>
  {
    if r.kind == EXEC then Ok(EncBytes(r.sql))
    else if r.kind == QUERY then
      var args := EncArgs(r.args);
      if args.Err? then args else Ok(EncBytes(r.sql) + (EncUint(|r.args|) + args.value))
    else if r.kind == BEGIN then
      if r.lease.None? then Err(MissingLease) else Ok(EncBytes(r.lease.value) + EncTimeout(r.timeout))
    else if r.kind == COMMIT || r.kind == ROLLBACK then
      if r.lease.None? then Err(MissingLease) else Ok(EncBytes(r.lease.value))
    else Err(UnknownKind)
  }

  function FrameLease(r: Request): Option<Bytes>
  {
    if r.kind == BEGIN || r.kind == COMMIT || r.kind == ROLLBACK then None else r.lease
  }

  function EncHead(r: Request): Bytes { [1, 0] + (EncUint(0) + EncFixed(r.id, 4)) }

  function EncRequest(r: Request): Result<Bytes>
  {
    if r.id == 0 then Err(ZeroId)
    else if |r.args| > MAX_PARAMETERS then Err(TooManyArguments)
    else
      var body := EncBody(r);
      if body.Err? then body
      else Ok(EncHead(r) + (EncOptionalBytes(FrameLease(r)) + (EncUint(r.kind) + body.value)))
  }

  // -- the reader at the other end

  function DecOptionalBytes(data: Bytes, pos: nat): Parsed<Option<Bytes>>
  {
    var present := DecBool(data, pos);
    if present.Failed? then Failed(present.error)
    else if !present.value then Parsed(None, present.next)
    else if present.next > |data| then Failed(Short)
    else
      var bytes := DecBytes(data, present.next, U64_MODULUS);
      if bytes.Failed? then Failed(bytes.error) else Parsed(Some(bytes.value), bytes.next)
  }

  function DecTimeout(data: Bytes, pos: nat): Parsed<Option<nat>>
  {
    var present := DecBool(data, pos);
    if present.Failed? then Failed(present.error)
    else if !present.value then Parsed(None, present.next)
    else
      var n := DecFixed(data, present.next, 8);
      if n.Failed? then Failed(n.error) else Parsed(Some(n.value), n.next)
  }

  function DecArgs(data: Bytes, pos: nat): Parsed<seq<SqlValue>>
    requires pos <= |data|
  {
    var count := DecLength(data, pos, MAX_PARAMETERS);
    if count.Failed? then Failed(count.error) else DecValues(data, count.next, count.value, false)
  }

  /** The request's fields after its kind, given what came before it. */
  function ReadBody(data: Bytes, pos: nat, id: nat, lease: Option<Bytes>, kind: nat): Parsed<Request>
    requires pos <= |data|
  {
    var first := DecBytes(data, pos, U64_MODULUS);
    if first.Failed? then Failed(first.error)
    else if kind == EXEC then Parsed(Request(id, kind, first.value, [], lease, None), first.next)
    else if kind == QUERY then
      var args := DecArgs(data, first.next);
      if args.Failed? then Failed(args.error) else Parsed(Request(id, kind, first.value, args.value, lease, None), args.next)
    else if kind == BEGIN then
      var timeout := DecTimeout(data, first.next);
      if timeout.Failed? then Failed(timeout.error)
      else Parsed(Request(id, kind, [], [], Some(first.value), timeout.value), timeout.next)
    else if kind == COMMIT || kind == ROLLBACK then Parsed(Request(id, kind, [], [], Some(first.value), None), first.next)
    else Failed(UnknownKind)
  }

  function ReadRequest(data: Bytes): Parsed<Request>
  {
    if |data| < 7 || data[..3] != [1, 0, 0] then Failed(UnknownTag)
    else
      var id := FixedValue(data, 3, 4);
      var lease := DecOptionalBytes(data, 7);
      if lease.Failed? then Failed(lease.error)
      else
        var kind := DecUint(data, lease.next);
        if kind.Failed? then Failed(kind.error) else ReadBody(data, kind.next, id, lease.value, kind.value)
  }

  /** The fields a request of this kind uses; the others do not travel. */
  function UsedFields(r: Request): Request
  {
    if r.kind == EXEC then Request(r.id, r.kind, r.sql, [], r.lease, None)
    else if r.kind == QUERY then Request(r.id, r.kind, r.sql, UsedAll(r.args), r.lease, None)
    else if r.kind == BEGIN then Request(r.id, r.kind, [], [], r.lease, r.timeout)
    else Request(r.id, r.kind, [], [], r.lease, None)
  }

  lemma ArgsEncode(args: seq<SqlValue>)
    requires EncArgs(args).Ok? && forall i :: 0 <= i < |args| ==> Typed(args[i])
    ensures AllSendable(args, false) && EncArgs(args).value == EncValues(args)
  {
    if args != [] {
      ArgsEncode(args[1..]);
      SendableBehind(args);
    }
  }

  lemma SendableBehind(args: seq<SqlValue>)
    requires args != [] && Typed(args[0]) && EncSql(args[0]).Ok? && AllSendable(args[1..], false)
    ensures AllSendable(args, false)
  {
    forall i | 0 < i < |args| ensures Typed(args[i]) && EncSql(args[i]).Ok? { assert args[i] == args[1..][i - 1]; }
  }

  lemma ArgsReadBack(args: seq<SqlValue>, data: Bytes, pos: nat, end: nat)
    requires |args| <= MAX_PARAMETERS && AllSendable(args, false)
    requires At(data, pos, EncUint(|args|) + EncValues(args)) && end == pos + |EncUint(|args|) + EncValues(args)|
    ensures DecArgs(data, pos) == Parsed(UsedAll(args), end)
  {
    var values := CountReadsBack(|args|, EncValues(args), data, pos, MAX_PARAMETERS);
    ValuesReadBack(args, data, values, false, end);
  }

  lemma TimeoutReadsBack(timeout: Option<nat>, data: Bytes, pos: nat)
    requires (timeout.Some? ==> timeout.value < U64_MODULUS) && At(data, pos, EncTimeout(timeout))
    ensures DecTimeout(data, pos) == Parsed(timeout, pos + |EncTimeout(timeout)|)
  {
    assert EncTimeout(timeout)[0] == data[pos];
    if timeout.Some? {
      AtParts(data, pos, [1], EncFixed(timeout.value, 8));
      U64ReadsBack(timeout.value, data, pos + 1);
    }
  }

  lemma OptionalBytesReadBack(value: Option<Bytes>, data: Bytes, pos: nat, end: nat)
    requires (value.Some? ==> |value.value| < U64_MODULUS) && At(data, pos, EncOptionalBytes(value))
    requires end == pos + |EncOptionalBytes(value)|
    ensures DecOptionalBytes(data, pos) == Parsed(value, end)
  {
    assert EncOptionalBytes(value)[0] == data[pos];
    if value.Some? {
      AtParts(data, pos, [1], EncBytes(value.value));
      BytesReadBack(value.value, data, pos + 1, U64_MODULUS);
    }
  }

  lemma QueryBodyReadsBack(id: nat, sql: Bytes, args: seq<SqlValue>, lease: Option<Bytes>, data: Bytes, pos: nat, end: nat)
    requires |sql| < U64_MODULUS && |args| <= MAX_PARAMETERS && AllSendable(args, false)
    requires At(data, pos, EncBytes(sql) + (EncUint(|args|) + EncValues(args)))
    requires end == pos + |EncBytes(sql) + (EncUint(|args|) + EncValues(args))|
    ensures ReadBody(data, pos, id, lease, QUERY) == Parsed(Request(id, QUERY, sql, UsedAll(args), lease, None), end)
  {
    var next := pos + |EncBytes(sql)|;
    AtParts(data, pos, EncBytes(sql), EncUint(|args|) + EncValues(args));
    BytesReadBack(sql, data, pos, U64_MODULUS);
    ArgsReadBack(args, data, next, end);
    PartsMakeQueryBody(id, sql, UsedAll(args), lease, data, pos, next, end);
  }

  lemma PartsMakeQueryBody(
      id: nat, sql: Bytes, args: seq<SqlValue>, lease: Option<Bytes>, data: Bytes, pos: nat, next: nat, end: nat)
    requires pos <= |data| && DecBytes(data, pos, U64_MODULUS) == Parsed(sql, next) && DecArgs(data, next) == Parsed(args, end)
    ensures ReadBody(data, pos, id, lease, QUERY) == Parsed(Request(id, QUERY, sql, args, lease, None), end)
  {
  }

  lemma BeginBodyReadsBack(r: Request, data: Bytes, pos: nat, end: nat)
    requires InRange(r) && r.kind == BEGIN && EncBody(r).Ok?
    requires At(data, pos, EncBody(r).value) && end == pos + |EncBody(r).value|
    ensures ReadBody(data, pos, r.id, None, r.kind) == Parsed(UsedFields(r), end)
  {
    AtParts(data, pos, EncBytes(r.lease.value), EncTimeout(r.timeout));
    BytesReadBack(r.lease.value, data, pos, U64_MODULUS);
    TimeoutReadsBack(r.timeout, data, pos + |EncBytes(r.lease.value)|);
  }

  lemma BodyReadsBack(r: Request, data: Bytes, pos: nat, end: nat)
    requires InRange(r) && |r.args| <= MAX_PARAMETERS && EncBody(r).Ok?
    requires At(data, pos, EncBody(r).value) && end == pos + |EncBody(r).value|
    ensures ReadBody(data, pos, r.id, FrameLease(r), r.kind) == Parsed(UsedFields(r), end)
  {
    if r.kind == QUERY {
      ArgsEncode(r.args);
      QueryBodyReadsBack(r.id, r.sql, r.args, r.lease, data, pos, end);
    } else if r.kind == BEGIN {
      BeginBodyReadsBack(r, data, pos, end);
    } else if r.kind == EXEC {
      BytesReadBack(r.sql, data, pos, U64_MODULUS);
    } else {
      BytesReadBack(r.lease.value, data, pos, U64_MODULUS);
    }
  }

  lemma HeadReadsBack(r: Request, data: Bytes)
    requires r.id < U32_MODULUS && At(data, 0, EncHead(r))
    ensures |data| >= 7 && data[..3] == [1, 0, 0] && FixedValue(data, 3, 4) == r.id && |EncHead(r)| == 7
  {
    ThreeParts(data, 0, [1, 0], EncUint(0), EncFixed(r.id, 4));
    U32ReadsBack(r.id, data, 3);
    assert [1, 0][0] == data[0] && [1, 0][1] == data[1] && EncUint(0)[0] == data[2];
  }

  lemma PartsMakeRequest(data: Bytes, id: nat, lease: Option<Bytes>, p1: nat, kind: nat, p2: nat, r: Request, end: nat)
    requires |data| >= 7 && data[..3] == [1, 0, 0] && FixedValue(data, 3, 4) == id
    requires DecOptionalBytes(data, 7) == Parsed(lease, p1) && DecUint(data, p1) == Parsed(kind, p2)
    requires p2 <= |data| && ReadBody(data, p2, id, lease, kind) == Parsed(r, end)
    ensures ReadRequest(data) == Parsed(r, end)
  {
  }

  lemma FrameReadsBack(r: Request, data: Bytes, body: Bytes) returns (p: nat)
    requires InRange(r) && EncRequest(r).Ok? && body == EncBody(r).value && At(data, 0, EncRequest(r).value)
    ensures |data| >= 7 && data[..3] == [1, 0, 0] && FixedValue(data, 3, 4) == r.id
    ensures DecOptionalBytes(data, 7) == Parsed(FrameLease(r), p) && DecUint(data, p) == Parsed(r.kind, p + 1)
    ensures At(data, p + 1, body) && |EncRequest(r).value| == p + 1 + |body|
  {
    var lease := EncOptionalBytes(FrameLease(r));
    p := 7 + |lease|;
    ThreeParts(data, 0, EncHead(r), lease, EncUint(r.kind) + body);
    HeadReadsBack(r, data);
    OptionalBytesReadBack(FrameLease(r), data, 7, p);
    TagReadsBack(r.kind, body, data, p);
  }

  lemma RequestReadsBack(r: Request, data: Bytes)
    requires InRange(r) && EncRequest(r).Ok? && At(data, 0, EncRequest(r).value)
    ensures ReadRequest(data) == Parsed(UsedFields(r), |EncRequest(r).value|)
  {
    var body := EncBody(r).value;
    var p := FrameReadsBack(r, data, body);
    BodyReadsBack(r, data, p + 1, p + 1 + |body|);
    PartsMakeRequest(data, r.id, FrameLease(r), p, r.kind, p + 1, UsedFields(r), p + 1 + |body|);
  }

  /** A value that has a payload of its kind, within a megabyte where that is text or a blob. */
  ghost predicate Sound(v: SqlValue)
  {
    || v.kind.NullKind?
    || (v.kind.IntegerKind? && v.integer.Some?)
    || (v.kind.RealKind? && v.bits.Some?)
    || (v.kind.TextKind? && v.text.Some? && |v.text.value| <= 1024 * 1024)
    || (v.kind.BlobKind? && v.blob.Some? && |v.blob.value| <= 1024 * 1024)
  }

  lemma {:induction false} ArgsEncodableIff(args: seq<SqlValue>)
    ensures EncArgs(args).Ok? <==> forall i :: 0 <= i < |args| ==> Sound(args[i])
  {
    if args != [] {
      var rest := args[1..];
      ArgsEncodableIff(rest);
      assert forall i :: 0 < i < |args| ==> args[i] == rest[i - 1];
    }
  }

  /** Which requests can be sent: those with an id, at most 1024 arguments, and what their kind needs: sound arguments
      for a query, a lease for begin, commit and rollback. */
  lemma RequestEncodableIff(r: Request)
    ensures EncRequest(r).Ok? <==>
      && r.id != 0 && |r.args| <= 1024 && r.kind <= 4
      && (r.kind == 1 ==> forall i :: 0 <= i < |r.args| ==> Sound(r.args[i]))
      && (r.kind >= 2 ==> r.lease.Some?)
  {
    ArgsEncodableIff(r.args);
  }

  /** A request that can be encoded is read back as exactly the fields its kind uses. */
  lemma RequestRoundTrip(r: Request)
    requires InRange(r) && EncRequest(r).Ok?
    ensures ReadRequest(EncRequest(r).value) == Parsed(UsedFields(r), |EncRequest(r).value|)
  {
    RequestReadsBack(r, EncRequest(r).value);
  }

  lemma UsedArgsEncodeAlike(args: seq<SqlValue>)
    requires EncArgs(args).Ok?
    ensures EncArgs(UsedAll(args)) == EncArgs(args) && |UsedAll(args)| == |args|
  {
    if args != [] {
      UsedArgsEncodeAlike(args[1..]);
      assert UsedAll(args)[1..] == UsedAll(args[1..]);
      assert EncSql(Used(args[0])) == EncSql(args[0]);
    }
  }

  /** Two encodable requests have the same bytes if and only if they agree on every field their kind uses. */
  lemma RequestsAreInjective(a: Request, b: Request)
    requires InRange(a) && InRange(b) && EncRequest(a).Ok? && EncRequest(b).Ok?
    ensures EncRequest(a) == EncRequest(b) <==> UsedFields(a) == UsedFields(b)
  {
    RequestRoundTrip(a);
    RequestRoundTrip(b);
    if UsedFields(a) == UsedFields(b) {
      if a.kind == QUERY {
        UsedArgsEncodeAlike(a.args);
        UsedArgsEncodeAlike(b.args);
      }
      assert EncBody(a) == EncBody(b) && FrameLease(a) == FrameLease(b) && EncHead(a) == EncHead(b);
    }
  }
}
