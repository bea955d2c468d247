/**
 Query results arrive from the native side in chunks: the assembler puts them together again and the database layer
 turns the flat list of values into rows.
 */
module ResultChunks {
  import opened Common
  import opened ByteStrings
  import opened BareCodec

  const LIMIT: nat := 33554432

  datatype Chunk = Chunk(
    index: nat, failed: bool, columns: seq<Bytes>, rowsAffected: int, lastInsert: Option<int>,
    values: seq<SqlValue>, done: bool)

  /** What has been assembled so far. */
  datatype Partial = Partial(
    columns: seq<Bytes>, rowsAffected: int, lastInsert: Option<int>, values: seq<SqlValue>, next: nat, total: nat)

  datatype Reason = WrongIndex | NativeError | TooLarge | RepeatedMetadata | NoColumns | Ragged | BadValue

  datatype Outcome = More(partial: Partial) | Done(partial: Partial) | Rejected(reason: Reason)

  const START := Partial([], 0, None, [], 0, 0)

  function ContentBytes(v: SqlValue): (n: nat)
    ensures n > 0
  {
    match v.kind
    case NullKind => 1
    case TextKind => if v.text.Some? then |v.text.value| + 16 else 16
    case BlobKind => if v.blob.Some? then |v.blob.value| + 16 else 16
    case _ => 16
  }

  function Content(values: seq<SqlValue>): nat
  {
    if values == [] then 0 else Content(values[..|values| - 1]) + ContentBytes(values[|values| - 1])
  }

  function NameBytes(columns: seq<Bytes>): nat
  {
    if columns == [] then 0 else NameBytes(columns[..|columns| - 1]) + |columns[|columns| - 1]|
  }

  lemma {:induction false} ContentJoin(a: seq<SqlValue>, b: seq<SqlValue>)
    ensures Content(a + b) == Content(a) + Content(b)
  {
    if b == [] {
      assert a + b == a;
    } else {
      assert (a + b)[..|a + b| - 1] == a + b[..|b| - 1];
      ContentJoin(a, b[..|b| - 1]);
    }
  }

  /** An empty result has no columns either; any other is whole rows. */
  predicate Rectangular(width: nat, count: nat) { if width == 0 then count == 0 else count % width == 0 }

  /** A chunk that fits: what the partial result becomes, and when it is complete. */
  function Verdict(b: Partial, done: bool): Outcome
  {
    if !done then More(b)
    else if b.columns == [] && b.values != [] then Rejected(NoColumns)
    else if b.columns != [] && |b.values| % |b.columns| != 0 then Rejected(Ragged)
    else Done(b)
  }

  /** The effect of one chunk on what came before it. */
  function Step(a: Partial, c: Chunk): Outcome
  {
    if c.index != a.next then Rejected(WrongIndex)
    else if c.failed then Rejected(NativeError)
    else if c.index != 0 && (c.columns != [] || c.rowsAffected != 0 || c.lastInsert.Some?) then Rejected(RepeatedMetadata)
    else
      var total := a.total + (if c.index == 0 then NameBytes(c.columns) else 0) + Content(c.values);
      if total > LIMIT then Rejected(TooLarge)
      else
        var next := (a.next + 1) % U32_MODULUS;
        var b := if c.index == 0
          then Partial(c.columns, c.rowsAffected, c.lastInsert, a.values + c.values, next, total)
          else a.(values := a.values + c.values, next := next, total := total);
        Verdict(b, c.done)
  }

  class Assembler {
    var columns: seq<Bytes>
    var rowsAffected: int
    var lastInsert: Option<int>
    var values: seq<SqlValue>
    var nextChunk: nat
    var totalBytes: nat

    constructor ()
      ensures View() == START
    {
      columns, rowsAffected, lastInsert, values, nextChunk, totalBytes := [], 0, None, [], 0, 0;
    }

    function View(): Partial
      reads this
    {
      Partial(columns, rowsAffected, lastInsert, values, nextChunk, totalBytes)
    }

    method AddColumns(names: seq<Bytes>)
      modifies this`totalBytes
      ensures totalBytes == old(totalBytes) + NameBytes(names)
    {
      for i := 0 to |names|
        invariant totalBytes == old(totalBytes) + NameBytes(names[..i])
      {
        assert names[..i + 1][..i] == names[..i];
        totalBytes := totalBytes + |names[i]|;
      }
      assert names[..|names|] == names;
    }

    /** Stops at the value that passes the limit, which happens exactly when all of them together do. */
    method AddContent(more: seq<SqlValue>) returns (fits: bool)
      requires totalBytes <= LIMIT
      modifies this`totalBytes
      ensures fits <==> old(totalBytes) + Content(more) <= LIMIT
      ensures fits ==> totalBytes == old(totalBytes) + Content(more)
    {
      for i := 0 to |more|
        invariant totalBytes == old(totalBytes) + Content(more[..i]) <= LIMIT
      {
        assert more[..i + 1][..i] == more[..i];
        totalBytes := totalBytes + ContentBytes(more[i]);
        if totalBytes > LIMIT {
          ContentJoin(more[..i + 1], more[i + 1..]);
          assert more[..i + 1] + more[i + 1..] == more;
          return false;
        }
      }
      assert more[..|more|] == more;
      return true;
    }

    method Add(c: Chunk) returns (done: bool, error: Option<Reason>)
      requires totalBytes <= LIMIT
      modifies this
      ensures match Step(old(View()), c)
        case More(b) => error == None && !done && View() == b
        case Done(b) => error == None && done && View() == b
        case Rejected(reason) => error == Some(reason) && !done
      ensures error == None ==> totalBytes <= LIMIT
    {
      done, error := false, None;
      if c.index != nextChunk { error := Some(WrongIndex); return; }
      nextChunk := (nextChunk + 1) % U32_MODULUS;
      if c.failed { error := Some(NativeError); return; }
      if c.index == 0 {
        columns, rowsAffected, lastInsert := c.columns, c.rowsAffected, c.lastInsert;
        AddColumns(c.columns);
        if totalBytes > LIMIT { error := Some(TooLarge); return; }
      } else if |c.columns| != 0 || c.rowsAffected != 0 || c.lastInsert.Some? {
        error := Some(RepeatedMetadata);
        return;
      }
      var fits := AddContent(c.values);
      if !fits { error := Some(TooLarge); return; }
      values := values + c.values;
      if !c.done { return; }
      if |columns| == 0 && |values| != 0 { error := Some(NoColumns); return; }
      if |columns| != 0 && |values| % |columns| != 0 { error := Some(Ragged); return; }
      done := true;
    }
  }

  // -- whole sequences of chunks

  /** What has come of these chunks; nothing is read after the last one or after a failure. */
  function After(chunks: seq<Chunk>): Outcome
  {
    if chunks == [] then More(START)
    else
      var before := After(chunks[..|chunks| - 1]);
      if before.More? then Step(before.partial, chunks[|chunks| - 1]) else before
  }

  /** All values of the chunks, in order. */
  function AllValues(chunks: seq<Chunk>): seq<SqlValue>
  {
    if chunks == [] then [] else AllValues(chunks[..|chunks| - 1]) + chunks[|chunks| - 1].values
  }

  function ResultBytes(chunks: seq<Chunk>): nat
  {
    (if chunks == [] then 0 else NameBytes(chunks[0].columns)) + Content(AllValues(chunks))
  }

  /** Numbered from zero without gaps, free of errors, described by the first chunk alone and within the limit. */
  ghost predicate Consecutive(chunks: seq<Chunk>)
  {
    && (forall i :: 0 <= i < |chunks| ==> chunks[i].index == i && !chunks[i].failed)
    && (forall i :: 0 < i < |chunks| ==> chunks[i].columns == [] && chunks[i].rowsAffected == 0 && chunks[i].lastInsert.None?)
    && ResultBytes(chunks) <= LIMIT
  }

  ghost predicate Unfinished(chunks: seq<Chunk>) { forall i :: 0 <= i < |chunks| ==> !chunks[i].done }

  function Summary(chunks: seq<Chunk>): Partial
  {
    if chunks == [] then START
    else Partial(chunks[0].columns, chunks[0].rowsAffected, chunks[0].lastInsert, AllValues(chunks),
                 |chunks| % U32_MODULUS, ResultBytes(chunks))
  }

  lemma OneMoreChunk(chunks: seq<Chunk>, c: Chunk)
    ensures AllValues(chunks + [c]) == AllValues(chunks) + c.values
    ensures chunks != [] ==> ResultBytes(chunks + [c]) == ResultBytes(chunks) + Content(c.values)
    ensures chunks == [] ==> ResultBytes(chunks + [c]) == NameBytes(c.columns) + Content(c.values)
  {
    assert (chunks + [c])[..|chunks|] == chunks;
    ContentJoin(AllValues(chunks), c.values);
    if chunks == [] { assert [] + c.values == c.values; }
  }

  lemma ConsecutivePrefix(chunks: seq<Chunk>, c: Chunk)
    requires Consecutive(chunks + [c])
    ensures Consecutive(chunks) && c.index == |chunks| && !c.failed
    ensures chunks != [] ==> c.columns == [] && c.rowsAffected == 0 && c.lastInsert.None?
  {
    var all := chunks + [c];
    assert forall i :: 0 <= i < |chunks| ==> all[i] == chunks[i];
    assert all[|chunks|] == c;
    OneMoreChunk(chunks, c);
  }

  lemma ConsecutiveExtended(chunks: seq<Chunk>, c: Chunk)
    requires Consecutive(chunks) && c.index == |chunks| && !c.failed && ResultBytes(chunks + [c]) <= LIMIT
    requires chunks != [] ==> c.columns == [] && c.rowsAffected == 0 && c.lastInsert.None?
    ensures Consecutive(chunks + [c])
  {
    var all := chunks + [c];
    assert all[|chunks|] == c && forall i :: 0 <= i < |chunks| ==> all[i] == chunks[i];
  }

  lemma FirstAccepted(c: Chunk)
    requires Consecutive([c])
    ensures Step(START, c) == Verdict(Summary([c]), c.done)
  {
    OneMoreChunk([], c);
    assert [] + [c] == [c] && [] + c.values == c.values && [c][0] == c;
    assert AllValues([c]) == c.values;
  }

  lemma SummaryGrows(chunks: seq<Chunk>, c: Chunk)
    requires chunks != [] && |chunks| < U32_MODULUS
    ensures var a := Summary(chunks);
      && Summary(chunks + [c]) == a.(values := a.values + c.values, next := (a.next + 1) % U32_MODULUS,
                                     total := a.total + Content(c.values))
      && a.next == |chunks| && a.total == ResultBytes(chunks) && Summary(chunks + [c]).total == ResultBytes(chunks + [c])
  {
    var longer := chunks + [c];
    OneMoreChunk(chunks, c);
    assert longer[0] == chunks[0] && |longer| == |chunks| + 1;
    SummaryCounts(chunks);
  }

  lemma SummaryCounts(chunks: seq<Chunk>)
    requires chunks != [] && |chunks| < U32_MODULUS
    ensures Summary(chunks).next == |chunks| && Summary(chunks).total == ResultBytes(chunks)
  {
  }

  lemma LaterAccepted(chunks: seq<Chunk>, c: Chunk)
    requires chunks != [] && Consecutive(chunks + [c]) && |chunks| < U32_MODULUS
    ensures Step(Summary(chunks), c) == Verdict(Summary(chunks + [c]), c.done)
  {
    SummaryGrows(chunks, c);
    ConsecutivePrefix(chunks, c);
  }

  lemma StepAccepts(chunks: seq<Chunk>, c: Chunk)
    requires Consecutive(chunks + [c]) && |chunks| < U32_MODULUS
    ensures Step(Summary(chunks), c) == Verdict(Summary(chunks + [c]), c.done)
  {
    if chunks == [] {
      assert chunks + [c] == [c];
      FirstAccepted(c);
    } else {
      LaterAccepted(chunks, c);
    }
  }

  lemma FirstRefused(c: Chunk)
    requires !Consecutive([c])
    ensures Step(START, c).Rejected?
  {
    OneMoreChunk([], c);
    assert [] + [c] == [c];
    assert ResultBytes([c]) == NameBytes(c.columns) + Content(c.values);
  }

  lemma LaterRefused(chunks: seq<Chunk>, c: Chunk)
    requires chunks != [] && Consecutive(chunks) && |chunks| < U32_MODULUS && !Consecutive(chunks + [c])
    ensures Step(Summary(chunks), c).Rejected?
  {
    SummaryGrows(chunks, c);
    if c.index == |chunks| && !c.failed && c.columns == [] && c.rowsAffected == 0 && c.lastInsert.None?
       && ResultBytes(chunks + [c]) <= LIMIT {
      ConsecutiveExtended(chunks, c);
    }
  }

  /** Any chunk that does not continue the sequence is refused. */
  lemma StepRefuses(chunks: seq<Chunk>, c: Chunk)
    requires Consecutive(chunks) && |chunks| < U32_MODULUS && !Consecutive(chunks + [c])
    ensures Step(Summary(chunks), c).Rejected?
  {
    if chunks == [] {
      assert chunks + [c] == [c];
      FirstRefused(c);
    } else {
      LaterRefused(chunks, c);
    }
  }

  /** Chunks are still being awaited exactly after consecutive, unfinished ones, and then everything so far is kept. */
  lemma {:induction false} AwaitingIff(chunks: seq<Chunk>)
    requires |chunks| < U32_MODULUS
    ensures After(chunks).More? <==> Consecutive(chunks) && Unfinished(chunks)
    ensures After(chunks).More? ==> After(chunks).partial == Summary(chunks)
  {
    if chunks != [] {
      var shorter, c := chunks[..|chunks| - 1], chunks[|chunks| - 1];
      assert chunks == shorter + [c];
      AwaitingIff(shorter);
      if Consecutive(chunks) {
        ConsecutivePrefix(shorter, c);
        StepAccepts(shorter, c);
      } else if Consecutive(shorter) {
        StepRefuses(shorter, c);
      }
    }
  }

  /** A result is complete exactly at the last of a sequence of chunks that is a cutting of a rectangular result under
      the limit: consecutive, only the last one done. A missing, repeated or reordered chunk never completes one. */
  lemma CompleteIff(chunks: seq<Chunk>)
    requires 0 < |chunks| <= U32_MODULUS
    ensures After(chunks[..|chunks| - 1]).More? && After(chunks).Done? <==>
      && Consecutive(chunks) && Unfinished(chunks[..|chunks| - 1]) && chunks[|chunks| - 1].done
      && Rectangular(|chunks[0].columns|, |AllValues(chunks)|)
    ensures After(chunks[..|chunks| - 1]).More? && After(chunks).Done? ==> After(chunks).partial == Summary(chunks)
  {
    var shorter, c := chunks[..|chunks| - 1], chunks[|chunks| - 1];
    assert chunks == shorter + [c];
    AwaitingIff(shorter);
    if Consecutive(chunks) {
      ConsecutivePrefix(shorter, c);
      StepAccepts(shorter, c);
    } else if Consecutive(shorter) {
      StepRefuses(shorter, c);
    }
  }

  /** The chunk that breaks the numbering is the one that is refused. */
  lemma MisplacedChunkRejected(chunks: seq<Chunk>, c: Chunk)
    requires |chunks| < U32_MODULUS && After(chunks).More? && c.index != |chunks|
    ensures After(chunks + [c]) == Rejected(WrongIndex)
  {
    AwaitingIff(chunks);
    if chunks != [] { SummaryCounts(chunks); }
    var all := chunks + [c];
    assert all[..|all| - 1] == chunks && all[|all| - 1] == c;
  }

  // -- cutting a result up

  function Flat<T>(parts: seq<seq<T>>): seq<T>
  {
    if parts == [] then [] else Flat(parts[..|parts| - 1]) + parts[|parts| - 1]
  }

  function Cut(columns: seq<Bytes>, rowsAffected: int, lastInsert: Option<int>, parts: seq<seq<SqlValue>>): seq<Chunk>
  {
    seq(|parts|, i requires 0 <= i < |parts| =>
      if i == 0 then Chunk(0, false, columns, rowsAffected, lastInsert, parts[0], |parts| == 1)
      else Chunk(i, false, [], 0, None, parts[i], i == |parts| - 1))
  }

  lemma {:induction false} CutKeepsValues(chunks: seq<Chunk>, parts: seq<seq<SqlValue>>)
    requires |chunks| == |parts| && forall i :: 0 <= i < |chunks| ==> chunks[i].values == parts[i]
    ensures AllValues(chunks) == Flat(parts)
  {
    if chunks != [] { CutKeepsValues(chunks[..|chunks| - 1], parts[..|parts| - 1]); }
  }

  /** However a rectangular result under the limit is cut, its chunks assemble to the same columns, values and counters. */
  lemma AnyCuttingAssembles(columns: seq<Bytes>, rowsAffected: int, lastInsert: Option<int>, parts: seq<seq<SqlValue>>)
    requires 0 < |parts| <= U32_MODULUS && NameBytes(columns) + Content(Flat(parts)) <= LIMIT
    requires Rectangular(|columns|, |Flat(parts)|)
    ensures var end := After(Cut(columns, rowsAffected, lastInsert, parts));
      && end.Done? && end.partial.columns == columns && end.partial.values == Flat(parts)
      && end.partial.rowsAffected == rowsAffected && end.partial.lastInsert == lastInsert
  {
    var chunks := Cut(columns, rowsAffected, lastInsert, parts);
    CutKeepsValues(chunks, parts);
    assert chunks[0].columns == columns;
    assert Consecutive(chunks);
    CompleteIff(chunks);
  }

  // -- how much fits

  function PayloadOf(v: SqlValue): Bytes
  {
    if v.kind.TextKind? && v.text.Some? then v.text.value
    else if v.kind.BlobKind? && v.blob.Some? then v.blob.value
    else []
  }

  function Payloads(values: seq<SqlValue>): seq<Bytes>
  {
    seq(|values|, i requires 0 <= i < |values| => PayloadOf(values[i]))
  }

  function Nulls(values: seq<SqlValue>): set<nat> { set i: nat | i < |values| && values[i].kind.NullKind? }

  lemma FlatOneMore<T>(parts: seq<seq<T>>, last: seq<T>)
    ensures Flat(parts + [last]) == Flat(parts) + last
  {
    assert (parts + [last])[..|parts|] == parts;
  }

  /** A value weighs its text or blob and sixteen bytes, a null one byte. */
  lemma {:induction false} ContentIs(values: seq<SqlValue>)
    ensures Content(values) == |Flat(Payloads(values))| + 16 * (|values| - |Nulls(values)|) + |Nulls(values)|
  {
    if values == [] {
      assert Nulls(values) == {} && Payloads(values) == [];
    } else {
      var shorter, v := values[..|values| - 1], values[|values| - 1];
      ContentIs(shorter);
      assert Payloads(values) == Payloads(shorter) + [PayloadOf(v)];
      FlatOneMore(Payloads(shorter), PayloadOf(v));
      assert Nulls(values) == Nulls(shorter) + if v.kind.NullKind? then {|shorter|} else {};
    }
  }

  lemma {:induction false} NameBytesIs(columns: seq<Bytes>)
    ensures NameBytes(columns) == |Flat(columns)|
  {
    if columns != [] { NameBytesIs(columns[..|columns| - 1]); }
  }

  lemma CutIsConsecutiveIff(columns: seq<Bytes>, rowsAffected: int, lastInsert: Option<int>, parts: seq<seq<SqlValue>>)
    requires parts != []
    ensures var chunks := Cut(columns, rowsAffected, lastInsert, parts);
      && chunks[0].columns == columns && AllValues(chunks) == Flat(parts)
      && (Consecutive(chunks) <==> NameBytes(columns) + Content(Flat(parts)) <= LIMIT)
  {
    CutKeepsValues(Cut(columns, rowsAffected, lastInsert, parts), parts);
  }

  /** A rectangular result, however it is cut, is assembled if and only if its names, texts and blobs together with
      sixteen bytes a value and one a null come to at most 32 MiB. */
  lemma AssembledIffWithinLimit(columns: seq<Bytes>, rowsAffected: int, lastInsert: Option<int>, parts: seq<seq<SqlValue>>)
    requires 0 < |parts| <= U32_MODULUS && Rectangular(|columns|, |Flat(parts)|)
    ensures var chunks, values := Cut(columns, rowsAffected, lastInsert, parts), Flat(parts);
      After(chunks[..|chunks| - 1]).More? && After(chunks).Done? <==>
        |Flat(columns)| + |Flat(Payloads(values))| + 16 * (|values| - |Nulls(values)|) + |Nulls(values)| <= 32 * 1024 * 1024
  {
    var chunks := Cut(columns, rowsAffected, lastInsert, parts);
    CutIsConsecutiveIff(columns, rowsAffected, lastInsert, parts);
    ContentIs(Flat(parts));
    NameBytesIs(columns);
    CompleteIff(chunks);
  }

  // -- rows

  datatype Cell = Null | Integer(n: int) | Real(bits: nat) | Text(text: Bytes) | Blob(blob: Bytes)

  function DecodeValue(v: SqlValue): Option<Cell>
  {
    match v.kind
    case NullKind => Some(Null)
    case IntegerKind => if v.integer.Some? then Some(Integer(v.integer.value)) else None
    case RealKind => if v.bits.Some? then Some(Real(v.bits.value)) else None
    case TextKind => if v.text.Some? then Some(Text(v.text.value)) else None
    case BlobKind => if v.blob.Some? then Some(Blob(v.blob.value)) else None
    case OtherKind(_) => None
  }

  function EncodeCell(c: Cell): (v: SqlValue)
    ensures DecodeValue(v) == Some(c)
  {
    match c
    case Null => NULL_VALUE
    case Integer(n) => SqlValue(IntegerKind, Some(n), None, None, None)
    case Real(bits) => SqlValue(RealKind, None, Some(bits), None, None)
    case Text(text) => SqlValue(TextKind, None, None, Some(text), None)
    case Blob(blob) => SqlValue(BlobKind, None, None, None, Some(blob))
  }

  function DecodeRow(row: seq<SqlValue>): (r: Option<seq<Cell>>)
    ensures r.Some? ==> |r.value| == |row|
  {
    if row == [] then Some([])
    else
      var before, last := DecodeRow(row[..|row| - 1]), DecodeValue(row[|row| - 1]);
      if before.None? || last.None? then None else Some(before.value + [last.value])
  }

  /** Whole rows from the front, as long as there are enough values. */
  function DecodeTable(width: nat, values: seq<SqlValue>): Option<seq<seq<Cell>>>
    requires width > 0
    decreases |values|
  {
    if |values| < width then Some([])
    else
      var first, rest := DecodeRow(values[..width]), DecodeTable(width, values[width..]);
      if first.None? || rest.None? then None else Some([first.value] + rest.value)
  }

  function RowsOf(width: nat, values: seq<SqlValue>): Option<seq<seq<Cell>>>
  {
    if !Rectangular(width, |values|) then None
    else if width == 0 then Some([])
    else DecodeTable(width, values)
  }

  lemma ShortRowFails(row: seq<SqlValue>, n: nat)
    requires n <= |row| && DecodeRow(row[..n]).None?
    ensures DecodeRow(row).None?
    decreases |row|
  {
    if n < |row| {
      assert row[..|row| - 1][..n] == row[..n];
      ShortRowFails(row[..|row| - 1], n);
    } else {
      assert row[..n] == row;
    }
  }

  /** One row of `width` values starting at `offset`. */
  method DecodeRowAt(values: seq<SqlValue>, offset: nat, width: nat) returns (row: Option<seq<Cell>>)
    requires offset + width <= |values|
    ensures row == DecodeRow(values[offset..offset + width])
  {
    ghost var all := values[offset..offset + width];
    var cells := [];
    for column := 0 to width
      invariant DecodeRow(all[..column]) == Some(cells)
    {
      ghost var upTo := all[..column + 1];
      assert upTo[..column] == all[..column] && upTo[column] == values[offset + column];
      var cell := DecodeValue(values[offset + column]);
      if cell.None? {
        ShortRowFails(all, column + 1);
        return None;
      }
      cells := cells + [cell.value];
    }
    assert all[..width] == all;
    return Some(cells);
  }

  /** A table with the rows read before it in front. */
  function Below(done: seq<seq<Cell>>, rest: Option<seq<seq<Cell>>>): Option<seq<seq<Cell>>>
  {
    if rest.None? then None else Some(done + rest.value)
  }

  lemma BelowNothing(table: Option<seq<seq<Cell>>>)
    ensures Below([], table) == table
  {
    if table.Some? { assert [] + table.value == table.value; }
  }

  lemma NextRow(width: nat, values: seq<SqlValue>, offset: nat, done: seq<seq<Cell>>)
    requires width > 0 && offset + width <= |values|
    ensures var row := DecodeRow(values[offset..offset + width]);
      Below(done, DecodeTable(width, values[offset..])) ==
        if row.None? then None else Below(done + [row.value], DecodeTable(width, values[offset + width..]))
  {
    var rest := values[offset..];
    assert rest[..width] == values[offset..offset + width] && rest[width..] == values[offset + width..];
    var row, table := DecodeRow(rest[..width]), DecodeTable(width, rest[width..]);
    if row.Some? && table.Some? { assert done + ([row.value] + table.value) == done + [row.value] + table.value; }
  }

  lemma StrideStays(offset: nat, width: nat, count: nat)
    requires width > 0 && offset % width == 0 && count % width == 0 && offset < count
    ensures offset + width <= count && (offset + width) % width == 0
  {
    var q, n := offset / width, count / width;
    assert offset == q * width && count == n * width;
    if n <= q { MulMonotone(n, q, width); }
    MulMonotone(q + 1, n, width);
    DivModUnique(offset + width, width, q + 1, 0);
  }

  method DecodeSqliteRows(columns: seq<Bytes>, values: seq<SqlValue>) returns (rows: Option<seq<seq<Cell>>>)
    ensures rows == RowsOf(|columns|, values)
  {
    var width := |columns|;
    if width == 0 {
      if |values| != 0 { return None; }
      return Some([]);
    }
    if |values| % width != 0 { return None; }
    var table, offset := [], 0;
    assert values[0..] == values;
    BelowNothing(DecodeTable(width, values));
    while offset < |values|
      invariant offset <= |values| && offset % width == 0
      invariant DecodeTable(width, values) == Below(table, DecodeTable(width, values[offset..]))
    {
      StrideStays(offset, width, |values|);
      NextRow(width, values, offset, table);
      var row := DecodeRowAt(values, offset, width);
      if row.None? { return None; }
      table, offset := table + [row.value], offset + width;
    }
    assert values[offset..] == [] && table + [] == table;
    return Some(table);
  }

  // -- end to end

  function EncodeRow(row: seq<Cell>): (values: seq<SqlValue>)
    ensures |values| == |row|
  {
    if row == [] then [] else EncodeRow(row[..|row| - 1]) + [EncodeCell(row[|row| - 1])]
  }

  function EncodeTable(table: seq<seq<Cell>>): seq<SqlValue>
  {
    if table == [] then [] else EncodeRow(table[0]) + EncodeTable(table[1..])
  }

  lemma {:induction false} RowDecodes(row: seq<Cell>)
    ensures DecodeRow(EncodeRow(row)) == Some(row)
  {
    if row != [] {
      RowDecodes(row[..|row| - 1]);
      var values := EncodeRow(row);
      assert values[..|values| - 1] == EncodeRow(row[..|row| - 1]);
      assert row == row[..|row| - 1] + [row[|row| - 1]];
    }
  }

  predicate Width(table: seq<seq<Cell>>, width: nat) { forall i :: 0 <= i < |table| ==> |table[i]| == width }

  lemma {:induction false} TableDecodes(table: seq<seq<Cell>>, width: nat)
    requires Width(table, width) && width > 0
    ensures DecodeTable(width, EncodeTable(table)) == Some(table) && |EncodeTable(table)| == |table| * width
  {
    if table != [] {
      TableDecodes(table[1..], width);
      RowDecodes(table[0]);
      var values := EncodeTable(table);
      assert values[..width] == EncodeRow(table[0]) && values[width..] == EncodeTable(table[1..]);
      assert [table[0]] + table[1..] == table;
      assert (|table| - 1) * width + width == |table| * width;
    }
  }

  lemma {:induction false} NoColumnsNoValues(table: seq<seq<Cell>>)
    requires Width(table, 0)
    ensures EncodeTable(table) == []
  {
    if table != [] { NoColumnsNoValues(table[1..]); }
  }

  /** The rows come out as they went in, if and only if there are columns or no rows: rows of a result without columns
      leave no trace. */
  lemma RowsRecovered(table: seq<seq<Cell>>, width: nat)
    requires Width(table, width)
    ensures Rectangular(width, |EncodeTable(table)|)
    ensures RowsOf(width, EncodeTable(table)) == Some(table) <==> width > 0 || table == []
  {
    if width > 0 {
      TableDecodes(table, width);
      DivModUnique(|table| * width, width, |table|, 0);
    } else {
      NoColumnsNoValues(table);
    }
  }

  // -- on any values

  /** The value carries this cell. */
  ghost predicate Shows(v: SqlValue, c: Cell)
  {
    match c
    case Null => v.kind.NullKind?
    case Integer(n) => v.kind.IntegerKind? && v.integer == Some(n)
    case Real(bits) => v.kind.RealKind? && v.bits == Some(bits)
    case Text(text) => v.kind.TextKind? && v.text == Some(text)
    case Blob(blob) => v.kind.BlobKind? && v.blob == Some(blob)
  }

  ghost predicate RowShown(values: seq<SqlValue>, offset: nat, cells: seq<Cell>)
  {
    offset + |cells| <= |values| && forall j :: 0 <= j < |cells| ==> Shows(values[offset + j], cells[j])
  }

  lemma {:induction false} RowIff(row: seq<SqlValue>, cells: seq<Cell>)
    ensures DecodeRow(row) == Some(cells) <==> |cells| == |row| && RowShown(row, 0, cells)
    decreases |row|
  {
    if row != [] {
      var n := |row| - 1;
      var before, last := DecodeRow(row[..n]), DecodeValue(row[n]);
      if before.Some? && last.Some? {
        RowIff(row[..n], before.value);
        assert forall j :: 0 <= j < n ==> row[..n][j] == row[j];
      }
      if |cells| == |row| && RowShown(row, 0, cells) {
        assert forall j :: 0 <= j < n ==> Shows(row[..n][j], cells[..n][j]) by {
          assert forall j :: 0 <= j < n ==> row[..n][j] == row[0 + j];
        }
        RowIff(row[..n], cells[..n]);
        assert Shows(row[0 + n], cells[n]);
        assert cells[..n] + [cells[n]] == cells;
      }
    }
  }

  ghost predicate TableShown(values: seq<SqlValue>, offset: nat, width: nat, table: seq<seq<Cell>>)
    decreases |table|
  {
    if table == [] then offset == |values|
    else |table[0]| == width && RowShown(values, offset, table[0]) && TableShown(values, offset + width, width, table[1..])
  }

  lemma SliceShown(values: seq<SqlValue>, offset: nat, width: nat, cells: seq<Cell>)
    requires offset + width <= |values| && |cells| == width
    ensures RowShown(values[offset..offset + width], 0, cells) <==> RowShown(values, offset, cells)
  {
    var slice := values[offset..offset + width];
    assert forall j :: 0 <= j < width ==> slice[j] == values[offset + j];
  }

  lemma {:induction false} TableIff(width: nat, values: seq<SqlValue>, offset: nat, table: seq<seq<Cell>>)
    requires width > 0 && offset <= |values| && (|values| - offset) % width == 0
    ensures DecodeTable(width, values[offset..]) == Some(table) <==> TableShown(values, offset, width, table)
    decreases |values| - offset
  {
    var left := values[offset..];
    if |left| == 0 {
      if table != [] && TableShown(values, offset, width, table) { assert false; }
    } else {
      StrideFits(|left|, width);
      var first, rest := DecodeRow(left[..width]), DecodeTable(width, left[width..]);
      assert left[..width] == values[offset..offset + width] && left[width..] == values[offset + width..];
      if first.Some? && rest.Some? {
        RowIff(left[..width], first.value);
        SliceShown(values, offset, width, first.value);
        TableIff(width, values, offset + width, rest.value);
        assert ([first.value] + rest.value)[1..] == rest.value;
      }
      if table != [] && TableShown(values, offset, width, table) {
        SliceShown(values, offset, width, table[0]);
        RowIff(left[..width], table[0]);
        TableIff(width, values, offset + width, table[1..]);
        assert [table[0]] + table[1..] == table;
      }
    }
  }

  lemma StrideFits(n: nat, width: nat)
    requires width > 0 && n > 0 && n % width == 0
    ensures n >= width && (n - width) % width == 0
  {
    var q := n / width;
    assert n == q * width;
    MulMonotone(1, q, width);
    DivModUnique(n - width, width, q - 1, 0);
  }

  /** Whatever the values, they decode to a table if and only if there are columns, the values are whole rows, and row after
      row each value carries its cell; without columns, to the empty table if and only if there are no values. */
  lemma RowsIff(width: nat, values: seq<SqlValue>, table: seq<seq<Cell>>)
    ensures RowsOf(width, values) == Some(table) <==>
      if width == 0 then values == [] && table == []
      else |values| % width == 0 && TableShown(values, 0, width, table)
  {
    if width > 0 && |values| % width == 0 {
      assert values[0..] == values;
      TableIff(width, values, 0, table);
    }
  }

  /** From a table of cells through any cutting into chunks and back to the same table. */
  lemma TableSurvivesChunking(columns: seq<Bytes>, table: seq<seq<Cell>>, rowsAffected: int, lastInsert: Option<int>,
                              parts: seq<seq<SqlValue>>)
    requires Width(table, |columns|) && columns != []
    requires 0 < |parts| <= U32_MODULUS && Flat(parts) == EncodeTable(table)
    requires NameBytes(columns) + Content(Flat(parts)) <= LIMIT
    ensures var end := After(Cut(columns, rowsAffected, lastInsert, parts));
      && end.Done? && end.partial.columns == columns && end.partial.rowsAffected == rowsAffected
      && end.partial.lastInsert == lastInsert && RowsOf(|columns|, end.partial.values) == Some(table)
  {
    RowsRecovered(table, |columns|);
    AnyCuttingAssembles(columns, rowsAffected, lastInsert, parts);
  }
}
