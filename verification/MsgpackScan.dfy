/**
 The shape scanner that runs over every native message before it is decoded, and the MessagePack formats it is meant
 to accept ("Formats" section of the MessagePack specification).
 */
module MsgpackScan {
  import opened Common
  import opened ByteStrings

  const MAX_DEPTH: nat := 64
  const MAX_ENTRIES: nat := 1024
  const MAX_BLOB: nat := 1048576

  // -- reference: value trees and their serializations

  /** A value with the format it is written in. `width` is the number of bytes of its length prefix, 0 for the forms
      that keep the length in the head byte. A map's items are its keys and values in turn. */
  datatype Node =
    | Nil | Bool(value: bool) | FixInt(head: Byte) | Number(head: Byte, payload: Bytes)
    | Str(width: nat, bytes: Bytes) | Bin(width: nat, bytes: Bytes) | Ext(width: nat, kind: Byte, bytes: Bytes)
    | Array(width: nat, items: seq<Node>) | Map(width: nat, items: seq<Node>)

  /** A length that fits its prefix. */
  predicate Fits(width: nat, length: nat, short: nat)
  {
    match width
    case 0 => length < short
    case 1 => length < 0x100
    case 2 => length < 0x10000
    case 4 => length < 0x100000000
    case _ => false
  }

  function BigEndian(width: nat, n: nat): (bytes: Bytes)
    requires Fits(width, n, 1)
    ensures |bytes| == width
  {
    match width
    case 1 => [n]
    case 2 => [n / 0x100, n % 0x100]
    case 4 => [n / 0x1000000, n / 0x10000 % 0x100, n / 0x100 % 0x100, n % 0x100]
    case _ => []
  }

  function NumberSize(head: Byte): nat
  {
    if head == 0xcc || head == 0xd0 then 1
    else if head == 0xcd || head == 0xd1 then 2
    else if head == 0xca || head == 0xce || head == 0xd2 then 4
    else if head == 0xcb || head == 0xcf || head == 0xd3 then 8
    else 0
  }

  predicate Formed(node: Node)
  {
    match node
    case Nil => true
    case Bool(_) => true
    case FixInt(head) => head <= 0x7f || head >= 0xe0
    case Number(head, payload) => NumberSize(head) > 0 && |payload| == NumberSize(head)
    case Str(width, bytes) => Fits(width, |bytes|, 32)
    case Bin(width, bytes) => width > 0 && Fits(width, |bytes|, 1)
    case Ext(width, _, bytes) => if width == 0 then |bytes| in {1, 2, 4, 8, 16} else Fits(width, |bytes|, 1)
    case Array(width, items) =>
      width != 1 && Fits(width, |items|, 16) && forall i :: 0 <= i < |items| ==> Formed(items[i])
    case Map(width, items) =>
      width != 1 && |items| % 2 == 0 && Fits(width, |items| / 2, 16) && forall i :: 0 <= i < |items| ==> Formed(items[i])
  }

  /** Within the scanner's limits when it sits at this depth. */
  predicate Limited(node: Node, depth: nat)
  {
    depth <= 64 &&
    match node
    case Str(_, bytes) => |bytes| <= 1024 * 1024
    case Bin(_, bytes) => |bytes| <= 1024 * 1024
    case Ext(_, _, bytes) => |bytes| + 1 <= 1024 * 1024
    case Array(_, items) => |items| <= 1024 && forall i :: 0 <= i < |items| ==> Limited(items[i], depth + 1)
    case Map(_, items) => |items| / 2 <= 1024 && forall i :: 0 <= i < |items| ==> Limited(items[i], depth + 1)
    case _ => true
  }

  function ByWidth(width: nat, short: Byte, one: Byte, two: Byte, four: Byte): Byte
  {
    match width case 0 => short case 1 => one case 2 => two case _ => four
  }

  function HeadByte(node: Node): Byte
    requires Formed(node)
  {
    match node
    case Nil => 0xc0
    case Bool(value) => if value then 0xc3 else 0xc2
    case FixInt(head) => head
    case Number(head, _) => head
    case Str(width, bytes) => ByWidth(width, if width == 0 then 0xa0 + |bytes| else 0, 0xd9, 0xda, 0xdb)
    case Bin(width, _) => ByWidth(width, 0, 0xc4, 0xc5, 0xc6)
    case Ext(width, _, bytes) => ByWidth(width, FixExtHead(|bytes|), 0xc7, 0xc8, 0xc9)
    case Array(width, items) => ByWidth(width, if width == 0 then 0x90 + |items| else 0, 0, 0xdc, 0xdd)
    case Map(width, items) => ByWidth(width, if width == 0 then 0x80 + |items| / 2 else 0, 0, 0xde, 0xdf)
  }

  function FixExtHead(length: nat): Byte
  {
    match length case 1 => 0xd4 case 2 => 0xd5 case 4 => 0xd6 case 8 => 0xd7 case _ => 0xd8
  }

  /** The length written before the body, if the format has one. */
  function LengthField(node: Node): Bytes
    requires Formed(node)
  {
    match node
    case Str(width, bytes) => if width == 0 then [] else BigEndian(width, |bytes|)
    case Bin(width, bytes) => BigEndian(width, |bytes|)
    case Ext(width, _, bytes) => if width == 0 then [] else BigEndian(width, |bytes|)
    case Array(width, items) => if width == 0 then [] else BigEndian(width, |items|)
    case Map(width, items) => if width == 0 then [] else BigEndian(width, |items| / 2)
    case _ => []
  }

  function Serialize(node: Node): (bytes: Bytes)
    requires Formed(node)
    ensures |bytes| > 0
    decreases node, 1
  {
    [HeadByte(node)] + (LengthField(node) + Body(node))
  }

  function Body(node: Node): Bytes
    requires Formed(node)
    decreases node, 0
  {
    match node
    case Number(_, payload) => payload
    case Str(_, bytes) => bytes
    case Bin(_, bytes) => bytes
    case Ext(_, kind, bytes) => [kind] + bytes
    case Array(_, items) => SerializeAll(items)
    case Map(_, items) => SerializeAll(items)
    case _ => []
  }

  function SerializeAll(items: seq<Node>): (bytes: Bytes)
    requires forall i :: 0 <= i < |items| ==> Formed(items[i])
    ensures |bytes| >= |items|
    decreases items, 2
  {
    if items == [] then [] else Serialize(items[0]) + SerializeAll(items[1..])
  }

  // -- the scanner

  function Length(data: Bytes, pos: nat, width: nat): nat
    requires width in {1, 2, 4} && pos + width <= |data|
  {
    var first: nat := data[pos];
    if width == 1 then first
    else
      var second: nat := first * 0x100 + data[pos + 1];
      if width == 2 then second
      else
        var third: nat := second * 0x100 + data[pos + 2];
        third * 0x100 + data[pos + 3]
  }

  function ScanLen(data: Bytes, pos: nat, width: nat): (r: Option<(nat, nat)>)
    requires width in {1, 2, 4}
    ensures r.Some? ==> r.value.1 == pos + width && r.value.0 <= |data| - r.value.1
  {
    if pos + width > |data| then None
    else
      var n := Length(data, pos, width);
      if n > |data| - (pos + width) then None else Some((n, pos + width))
  }

  function ScanBlob(data: Bytes, pos: nat, n: nat): Option<nat>
  {
    if n > MAX_BLOB then None else if n > |data| - pos then None else Some(pos + n)
  }

  /** A blob behind a length prefix, `extra` bytes longer than the prefix says. */
  function ScanCounted(data: Bytes, pos: nat, width: nat, extra: nat): (r: Option<nat>)
    requires width in {1, 2, 4}
    ensures r.Some? ==> pos < r.value <= |data|
  {
    var n := ScanLen(data, pos, width);
    if n.None? then None else ScanBlob(data, n.value.1, n.value.0 + extra)
  }

  /** An array (`per` 1) or map (`per` 2) behind a count prefix. */
  function ScanContainer(data: Bytes, pos: nat, depth: nat, width: nat, per: nat): (r: Option<nat>)
    requires width in {1, 2, 4} && pos <= |data|
    ensures r.Some? ==> pos <= r.value <= |data|
    decreases |data| - pos, 2, 0
  {
    var n := ScanLen(data, pos, width);
    if n.None? then None
    else if n.value.0 > MAX_ENTRIES then None
    else ScanEntries(data, n.value.1, depth, per * n.value.0)
  }

  /** What a head byte announces: nothing more, a payload of fixed size, a payload or a container behind a length
      prefix, or a container whose count is in the head. */
  datatype Shape =
    | Bare | Unknown | Payload(size: nat) | Counted(width: nat, extra: nat)
    | Entries(count: nat) | CountedEntries(width: nat, per: nat)

  function ShapeOf(b: Byte): (shape: Shape)
    ensures shape.Counted? || shape.CountedEntries? ==> shape.width in {1, 2, 4}
  {
    if b <= 0x7f || b >= 0xe0 then Bare
    else if b <= 0x8f then Entries(2 * (b - 0x80))
    else if b <= 0x9f then Entries(b - 0x90)
    else if b <= 0xbf then Payload(b - 0xa0)
    else match b
      case 0xc0 => Bare
      case 0xc2 => Bare
      case 0xc3 => Bare
      case 0xc4 => Counted(1, 0)
      case 0xc5 => Counted(2, 0)
      case 0xc6 => Counted(4, 0)
      case 0xc7 => Counted(1, 1)
      case 0xc8 => Counted(2, 1)
      case 0xc9 => Counted(4, 1)
      case 0xca => Payload(4)
      case 0xcb => Payload(8)
      case 0xcc => Payload(1)
      case 0xcd => Payload(2)
      case 0xce => Payload(4)
      case 0xcf => Payload(8)
      case 0xd0 => Payload(1)
      case 0xd1 => Payload(2)
      case 0xd2 => Payload(4)
      case 0xd3 => Payload(8)
      case 0xd4 => Payload(2)
      case 0xd5 => Payload(3)
      case 0xd6 => Payload(5)
      case 0xd7 => Payload(9)
      case 0xd8 => Payload(17)
      case 0xd9 => Counted(1, 0)
      case 0xda => Counted(2, 0)
      case 0xdb => Counted(4, 0)
      case 0xdc => CountedEntries(2, 1)
      case 0xdd => CountedEntries(4, 1)
      case 0xde => CountedEntries(2, 2)
      case 0xdf => CountedEntries(4, 2)
      case _ => Unknown
  }

  /** The position after one value, or nothing if it is malformed or over a limit. */
  function ScanValue(data: Bytes, pos: nat, depth: nat): (end: Option<nat>)
    requires pos <= |data|
    ensures end.Some? ==> pos < end.value <= |data|
    decreases |data| - pos, 0, 0
  {
    if depth > MAX_DEPTH then None
    else if pos >= |data| then None
    else ScanRest(data, pos + 1, depth, ShapeOf(data[pos]))
  }

  function ScanRest(data: Bytes, pos: nat, depth: nat, shape: Shape): (end: Option<nat>)
    requires pos <= |data| && (shape.Counted? || shape.CountedEntries? ==> shape.width in {1, 2, 4})
    ensures end.Some? ==> pos <= end.value <= |data|
    decreases |data| - pos, 3, 0
  {
    match shape
    case Bare => Some(pos)
    case Unknown => None
    case Payload(size) => ScanBlob(data, pos, size)
    case Counted(width, extra) => ScanCounted(data, pos, width, extra)
    case Entries(count) => ScanEntries(data, pos, depth, count)
    case CountedEntries(width, per) => ScanContainer(data, pos, depth, width, per)
  }

  function ScanEntries(data: Bytes, pos: nat, depth: nat, count: nat): (end: Option<nat>)
    requires pos <= |data|
    ensures end.Some? ==> pos <= end.value <= |data|
    decreases |data| - pos, 1, count + 1
  {
    if count > |data| - pos then None else ScanItems(data, pos, depth, count)
  }

  /** One value after the other, each a level deeper. */
  function ScanItems(data: Bytes, pos: nat, depth: nat, count: nat): (end: Option<nat>)
    requires pos <= |data|
    ensures end.Some? ==> pos <= end.value <= |data|
    decreases |data| - pos, 1, count
  {
    if count == 0 then Some(pos)
    else
      var next := ScanValue(data, pos, depth + 1);
      if next.None? then None else ScanItems(data, next.value, depth, count - 1)
  }

  method ScanEntriesLoop(data: Bytes, start: nat, depth: nat, count: nat) returns (end: Option<nat>)
    requires start <= |data|
    ensures end == ScanEntries(data, start, depth, count)
  {
    if count > |data| - start { return None; }
    var pos := start;
    for i := 0 to count
      invariant start <= pos <= |data|
      invariant ScanItems(data, start, depth, count) == ScanItems(data, pos, depth, count - i)
    {
      var next := ScanValue(data, pos, depth + 1);
      if next.None? { return None; }
      pos := next.value;
    }
    return Some(pos);
  }

  predicate ValidateShape(data: Bytes) { ScanValue(data, 0, 0) == Some(|data|) }

  // -- what it accepts

  lemma LenReadsBack(data: Bytes, pos: nat, width: nat, n: nat)
    requires width in {1, 2, 4} && Fits(width, n, 1) && At(data, pos, BigEndian(width, n))
    ensures Length(data, pos, width) == n
    ensures n <= |data| - (pos + width) ==> ScanLen(data, pos, width) == Some((n, pos + width))
  {
    var part := BigEndian(width, n);
    assert part[0] == data[pos];
    if width >= 2 { assert part[1] == data[pos + 1]; }
    if width == 4 { assert part[2] == data[pos + 2] && part[3] == data[pos + 3]; FourBytes(n); }
  }

  lemma LenWasWritten(data: Bytes, pos: nat, width: nat)
    requires width in {1, 2, 4} && ScanLen(data, pos, width).Some?
    ensures var n := ScanLen(data, pos, width).value.0; Fits(width, n, 1) && At(data, pos, BigEndian(width, n))
  {
    if width == 4 { FourWereWritten(data, pos); }
  }

  lemma FourWereWritten(data: Bytes, pos: nat)
    requires pos + 4 <= |data|
    ensures var n := Length(data, pos, 4); Fits(4, n, 1) && At(data, pos, BigEndian(4, n))
  {
    BytesOfFour(Length(data, pos, 4), data[pos], data[pos + 1], data[pos + 2], data[pos + 3]);
  }

  /** The shape a well-formed value's head byte must announce. */
  function Announced(node: Node): Shape
    requires Formed(node)
  {
    match node
    case Number(_, payload) => Payload(|payload|)
    case Str(width, bytes) => if width == 0 then Payload(|bytes|) else Counted(width, 0)
    case Bin(width, _) => Counted(width, 0)
    case Ext(width, _, bytes) => if width == 0 then Payload(1 + |bytes|) else Counted(width, 1)
    case Array(width, items) => if width == 0 then Entries(|items|) else CountedEntries(width, 1)
    case Map(width, items) => if width == 0 then Entries(|items|) else CountedEntries(width, 2)
    case _ => Bare
  }

  lemma HeadAnnounces(node: Node)
    requires Formed(node)
    ensures ShapeOf(HeadByte(node)) == Announced(node)
  {
  }

  /** The early remaining-bytes checks cannot fire when the bytes are there. */
  lemma CountedAccepts(data: Bytes, pos: nat, width: nat, n: nat, body: Bytes)
    requires width in {1, 2, 4} && Fits(width, n, 1) && At(data, pos, BigEndian(width, n) + body)
    requires n <= |body| <= MAX_BLOB
    ensures ScanCounted(data, pos, width, |body| - n) == Some(pos + width + |body|)
  {
    AtParts(data, pos, BigEndian(width, n), body);
    LenReadsBack(data, pos, width, n);
  }

  lemma ContainerAccepts(data: Bytes, pos: nat, depth: nat, width: nat, per: nat, count: nat, body: Bytes)
    requires width in {1, 2, 4} && Fits(width, count, 1) && At(data, pos, BigEndian(width, count) + body)
    requires per > 0 && per * count <= |body| && count <= MAX_ENTRIES
    ensures pos + width + |body| <= |data|
    ensures ScanContainer(data, pos, depth, width, per) == ScanItems(data, pos + width, depth, per * count)
  {
    AtParts(data, pos, BigEndian(width, count), body);
    MulAtLeast(per, count);
    LenReadsBack(data, pos, width, count);
  }

  lemma LeafAccepted(node: Node, depth: nat, data: Bytes, pos: nat)
    requires Formed(node) && Limited(node, depth) && !node.Array? && !node.Map?
    requires At(data, pos, LengthField(node) + Body(node))
    ensures ScanRest(data, pos, depth, Announced(node)) == Some(pos + |LengthField(node) + Body(node)|)
  {
    if (node.Str? || node.Bin? || node.Ext?) && node.width > 0 {
      CountedAccepts(data, pos, node.width, |node.bytes|, Body(node));
    }
  }

  lemma ContainerAccepted(node: Node, depth: nat, data: Bytes, pos: nat)
    requires Formed(node) && Limited(node, depth) && (node.Array? || node.Map?)
    requires At(data, pos, LengthField(node) + Body(node))
    ensures pos + |LengthField(node)| <= |data|
    ensures ScanRest(data, pos, depth, Announced(node))
         == ScanItems(data, pos + |LengthField(node)|, depth, |node.items|)
  {
    var per, count := if node.Array? then 1 else 2, if node.Array? then |node.items| else |node.items| / 2;
    if node.width > 0 {
      ContainerAccepts(data, pos, depth, node.width, per, count, Body(node));
    }
  }

  lemma ItemThenItems(data: Bytes, pos: nat, depth: nat, count: nat, next: nat, end: nat)
    requires pos <= |data| && next <= |data| && count > 0
    requires ScanValue(data, pos, depth + 1) == Some(next) && ScanItems(data, next, depth, count - 1) == Some(end)
    ensures ScanItems(data, pos, depth, count) == Some(end)
  {
  }

  predicate Good(items: seq<Node>, depth: nat)
  {
    forall i :: 0 <= i < |items| ==> Formed(items[i]) && Limited(items[i], depth)
  }

  lemma AllParts(items: seq<Node>, data: Bytes, pos: nat) returns (next: nat, end: nat)
    requires items != [] && (forall i :: 0 <= i < |items| ==> Formed(items[i])) && At(data, pos, SerializeAll(items))
    ensures next == pos + |Serialize(items[0])| && end == pos + |SerializeAll(items)|
    ensures end == next + |SerializeAll(items[1..])| && pos < next <= |data|
    ensures At(data, pos, Serialize(items[0])) && At(data, next, SerializeAll(items[1..]))
  {
    var a, b := Serialize(items[0]), SerializeAll(items[1..]);
    assert SerializeAll(items) == a + b;
    AtParts(data, pos, a, b);
    next, end := pos + |a|, pos + |a| + |b|;
  }

  lemma {:induction false} ItemsAccepted(items: seq<Node>, depth: nat, data: Bytes, pos: nat, end: nat)
    requires Good(items, depth + 1) && At(data, pos, SerializeAll(items)) && end == pos + |SerializeAll(items)|
    ensures ScanItems(data, pos, depth, |items|) == Some(end)
    decreases |data| - pos, 1
  {
    if items != [] {
      var next, _ := AllParts(items, data, pos);
      Accepted(items[0], depth + 1, data, pos, next);
      ItemsAccepted(items[1..], depth, data, next, end);
      ItemThenItems(data, pos, depth, |items|, next, end);
    }
  }

  lemma HeadThenRest(data: Bytes, pos: nat, depth: nat, node: Node)
    requires Formed(node) && depth <= MAX_DEPTH && pos < |data| && data[pos] == HeadByte(node)
    ensures ScanValue(data, pos, depth) == ScanRest(data, pos + 1, depth, Announced(node))
  {
    HeadAnnounces(node);
  }

  lemma SerializeParts(node: Node, data: Bytes, pos: nat)
    requires Formed(node) && At(data, pos, Serialize(node))
    ensures data[pos] == HeadByte(node) && At(data, pos + 1, LengthField(node) + Body(node))
    ensures At(data, pos + 1 + |LengthField(node)|, Body(node))
    ensures |Serialize(node)| == 1 + |LengthField(node)| + |Body(node)|
  {
    var rest := LengthField(node) + Body(node);
    AtParts(data, pos, [HeadByte(node)], rest);
    AtParts(data, pos + 1, LengthField(node), Body(node));
    assert [HeadByte(node)][0] == data[pos];
  }

  lemma LeafValue(node: Node, depth: nat, data: Bytes, pos: nat, end: nat)
    requires Formed(node) && Limited(node, depth) && !node.Array? && !node.Map?
    requires At(data, pos, Serialize(node)) && end == pos + |Serialize(node)|
    ensures ScanValue(data, pos, depth) == Some(end)
  {
    LeafRest(node, depth, data, pos, end);
    HeadThenRest(data, pos, depth, node);
  }

  lemma LeafRest(node: Node, depth: nat, data: Bytes, pos: nat, end: nat)
    requires Formed(node) && Limited(node, depth) && !node.Array? && !node.Map?
    requires At(data, pos, Serialize(node)) && end == pos + |Serialize(node)|
    ensures pos < |data| && data[pos] == HeadByte(node) && depth <= MAX_DEPTH
    ensures ScanRest(data, pos + 1, depth, Announced(node)) == Some(end)
  {
    var rest := AfterHead(node, data, pos);
    RestAccepted(node, depth, data, pos + 1, rest);
  }

  lemma AfterHead(node: Node, data: Bytes, pos: nat) returns (rest: Bytes)
    requires Formed(node) && At(data, pos, Serialize(node))
    ensures rest == LengthField(node) + Body(node) && |Serialize(node)| == 1 + |rest|
    ensures data[pos] == HeadByte(node) && At(data, pos + 1, rest)
  {
    SerializeParts(node, data, pos);
    rest := LengthField(node) + Body(node);
  }

  lemma RestAccepted(node: Node, depth: nat, data: Bytes, pos: nat, rest: Bytes)
    requires Formed(node) && Limited(node, depth) && !node.Array? && !node.Map?
    requires rest == LengthField(node) + Body(node) && At(data, pos, rest)
    ensures ScanRest(data, pos, depth, Announced(node)) == Some(pos + |rest|)
  {
    LeafAccepted(node, depth, data, pos);
  }

  /** Where a container's items start; if they scan to `end`, so does the container. */
  lemma ContainerValue(node: Node, depth: nat, data: Bytes, pos: nat) returns (items: nat)
    requires Formed(node) && Limited(node, depth) && (node.Array? || node.Map?) && At(data, pos, Serialize(node))
    ensures pos < items && At(data, items, SerializeAll(node.items))
    ensures pos + |Serialize(node)| == items + |SerializeAll(node.items)|
    ensures ScanValue(data, pos, depth) == ScanItems(data, items, depth, |node.items|)
  {
    SerializeParts(node, data, pos);
    items := pos + 1 + |LengthField(node)|;
    ContainerAccepted(node, depth, data, pos + 1);
    HeadThenRest(data, pos, depth, node);
  }

  /** Every formed tree within the limits is scanned to its last byte, whatever surrounds it. */
  lemma {:induction false} Accepted(node: Node, depth: nat, data: Bytes, pos: nat, end: nat)
    requires Formed(node) && Limited(node, depth) && At(data, pos, Serialize(node)) && end == pos + |Serialize(node)|
    ensures ScanValue(data, pos, depth) == Some(end)
    decreases |data| - pos, 0
  {
    if node.Array? || node.Map? {
      assert Good(node.items, depth + 1);
      var items := ContainerValue(node, depth, data, pos);
      ItemsAccepted(node.items, depth, data, items, end);
    } else {
      LeafValue(node, depth, data, pos, end);
    }
  }

  // -- and nothing else

  predicate LeafShape(b: Byte, payload: Bytes)
  {
    match ShapeOf(b)
    case Bare => payload == []
    case Payload(size) => |payload| == size
    case Counted(width, extra) => |payload| >= extra && Fits(width, |payload| - extra, 1)
    case _ => false
  }

  /** The value that starts with this head byte and has this body. */
  function LeafFor(b: Byte, payload: Bytes): Node
    requires LeafShape(b, payload)
  {
    match ShapeOf(b)
    case Bare => if b == 0xc0 then Nil else if b == 0xc2 then Bool(false) else if b == 0xc3 then Bool(true) else FixInt(b)
    case Payload(size) =>
      if b <= 0xbf then Str(0, payload)
      else if b <= 0xd3 then Number(b, payload)
      else Ext(0, payload[0], payload[1..])
    case Counted(width, extra) =>
      if b <= 0xc6 then Bin(width, payload)
      else if b <= 0xc9 then Ext(width, payload[0], payload[1..])
      else Str(width, payload)
    case _ => Nil
  }

  lemma LeafForFits(b: Byte, payload: Bytes)
    requires LeafShape(b, payload)
    ensures Formed(LeafFor(b, payload)) && HeadByte(LeafFor(b, payload)) == b
  {
  }

  lemma LeafForParts(b: Byte, payload: Bytes)
    requires LeafShape(b, payload) && Formed(LeafFor(b, payload))
    ensures Body(LeafFor(b, payload)) == payload
    ensures LengthField(LeafFor(b, payload)) ==
      if ShapeOf(b).Counted? then BigEndian(ShapeOf(b).width, |payload| - ShapeOf(b).extra) else []
  {
  }

  lemma LeafForLimits(b: Byte, payload: Bytes, depth: nat)
    requires LeafShape(b, payload) && |payload| <= MAX_BLOB && depth <= MAX_DEPTH
    ensures Limited(LeafFor(b, payload), depth)
  {
  }

  lemma PartsSerialize(node: Node, data: Bytes, pos: nat)
    requires Formed(node) && pos < |data| && data[pos] == HeadByte(node)
    requires At(data, pos + 1, LengthField(node)) && At(data, pos + 1 + |LengthField(node)|, Body(node))
    ensures At(data, pos, Serialize(node))
    ensures |Serialize(node)| == 1 + |LengthField(node)| + |Body(node)|
  {
    AtJoined(data, pos + 1, LengthField(node), Body(node));
    AtJoined(data, pos, [HeadByte(node)], LengthField(node) + Body(node));
  }

  /** The body of a leaf that was scanned. */
  lemma LeafPayload(data: Bytes, pos: nat, depth: nat, end: nat) returns (start: nat)
    requires pos < |data| && ScanValue(data, pos, depth) == Some(end)
    requires var shape := ShapeOf(data[pos]); shape.Bare? || shape.Payload? || shape.Counted?
    ensures pos < start <= end <= |data| && end - start <= MAX_BLOB
    ensures LeafShape(data[pos], data[start..end])
    ensures var shape := ShapeOf(data[pos]);
      if shape.Counted?
      then start == pos + 1 + shape.width && At(data, pos + 1, BigEndian(shape.width, end - start - shape.extra))
      else start == pos + 1
  {
    var shape := ShapeOf(data[pos]);
    if shape.Counted? {
      LenWasWritten(data, pos + 1, shape.width);
      start := pos + 1 + shape.width;
    } else {
      start := pos + 1;
    }
  }

  lemma LeafSound(data: Bytes, pos: nat, depth: nat, end: nat) returns (node: Node)
    requires pos < |data| && ScanValue(data, pos, depth) == Some(end)
    requires var shape := ShapeOf(data[pos]); shape.Bare? || shape.Payload? || shape.Counted?
    ensures Formed(node) && Limited(node, depth) && At(data, pos, Serialize(node)) && end == pos + |Serialize(node)|
  {
    var start := LeafPayload(data, pos, depth, end);
    node := LeafFor(data[pos], data[start..end]);
    LeafForFits(data[pos], data[start..end]);
    LeafForLimits(data[pos], data[start..end], depth);
    LeafBuilt(data, pos, start, end, node);
  }

  lemma LeafBuilt(data: Bytes, pos: nat, start: nat, end: nat, node: Node)
    requires pos < start <= end <= |data| && LeafShape(data[pos], data[start..end])
    requires node == LeafFor(data[pos], data[start..end]) && Formed(node) && HeadByte(node) == data[pos]
    requires var shape := ShapeOf(data[pos]);
      if shape.Counted?
      then start == pos + 1 + shape.width && At(data, pos + 1, BigEndian(shape.width, end - start - shape.extra))
      else start == pos + 1
    ensures At(data, pos, Serialize(node)) && end == pos + |Serialize(node)|
  {
    LeafForParts(data[pos], data[start..end]);
    PartsStand(data, pos, start, end, node);
  }

  lemma PartsStand(data: Bytes, pos: nat, start: nat, end: nat, node: Node)
    requires Formed(node) && pos < start <= end <= |data| && data[pos] == HeadByte(node)
    requires At(data, pos + 1, LengthField(node)) && start == pos + 1 + |LengthField(node)| && Body(node) == data[start..end]
    ensures At(data, pos, Serialize(node)) && end == pos + |Serialize(node)|
  {
    PartsSerialize(node, data, pos);
  }

  /** A container head byte's own form, and the node it makes of its items. */
  function ContainerFor(b: Byte, items: seq<Node>): Node
  {
    var width := if ShapeOf(b).CountedEntries? then ShapeOf(b).width else 0;
    if 0x90 <= b <= 0x9f || b == 0xdc || b == 0xdd then Array(width, items) else Map(width, items)
  }

  predicate ContainerShape(b: Byte, count: nat)
  {
    match ShapeOf(b)
    case Entries(n) => count == n
    case CountedEntries(width, per) => count % per == 0 && Fits(width, count / per, 1) && count / per <= MAX_ENTRIES
    case _ => false
  }

  lemma ContainerForFits(b: Byte, items: seq<Node>, depth: nat)
    requires ContainerShape(b, |items|) && Good(items, depth + 1) && depth <= MAX_DEPTH
    ensures Formed(ContainerFor(b, items)) && Limited(ContainerFor(b, items), depth)
    ensures HeadByte(ContainerFor(b, items)) == b
    ensures LengthField(ContainerFor(b, items)) ==
      if ShapeOf(b).CountedEntries? then BigEndian(ShapeOf(b).width, |items| / ShapeOf(b).per) else []
  {
    if ShapeOf(b).CountedEntries? { CountedContainer(b, items, depth); } else { FixedContainer(b, items, depth); }
  }

  lemma CountedContainer(b: Byte, items: seq<Node>, depth: nat)
    requires ShapeOf(b).CountedEntries? && ContainerShape(b, |items|) && Good(items, depth + 1) && depth <= MAX_DEPTH
    ensures Formed(ContainerFor(b, items)) && Limited(ContainerFor(b, items), depth)
    ensures HeadByte(ContainerFor(b, items)) == b
    ensures LengthField(ContainerFor(b, items)) == BigEndian(ShapeOf(b).width, |items| / ShapeOf(b).per)
  {
    assert 0xdc <= b <= 0xdf;
  }

  lemma FixedContainer(b: Byte, items: seq<Node>, depth: nat)
    requires ShapeOf(b).Entries? && ContainerShape(b, |items|) && Good(items, depth + 1) && depth <= MAX_DEPTH
    ensures Formed(ContainerFor(b, items)) && Limited(ContainerFor(b, items), depth)
    ensures HeadByte(ContainerFor(b, items)) == b && LengthField(ContainerFor(b, items)) == []
  {
    assert 0x80 <= b <= 0x9f;
  }

  /** Where the items of a scanned container start and how many there are. */
  lemma ContainerItems(data: Bytes, pos: nat, depth: nat, end: nat) returns (start: nat, count: nat)
    requires pos < |data| && ScanValue(data, pos, depth) == Some(end)
    requires var shape := ShapeOf(data[pos]); shape.Entries? || shape.CountedEntries?
    ensures pos < start <= |data| && ScanItems(data, start, depth, count) == Some(end)
    ensures ContainerShape(data[pos], count)
    ensures var shape := ShapeOf(data[pos]);
      if shape.CountedEntries?
      then start == pos + 1 + shape.width && At(data, pos + 1, BigEndian(shape.width, count / shape.per))
      else start == pos + 1
  {
    var shape := ShapeOf(data[pos]);
    if shape.CountedEntries? {
      assert ScanContainer(data, pos + 1, depth, shape.width, shape.per) == Some(end);
      LenWasWritten(data, pos + 1, shape.width);
      var n := ScanLen(data, pos + 1, shape.width).value.0;
      start, count := pos + 1 + shape.width, shape.per * n;
      assert count / shape.per == n && count % shape.per == 0;
      assert ScanEntries(data, start, depth, count) == Some(end);
    } else {
      start, count := pos + 1, shape.count;
      assert ScanEntries(data, start, depth, count) == Some(end);
    }
  }

  lemma {:induction false} ItemsSound(data: Bytes, pos: nat, depth: nat, count: nat, end: nat) returns (items: seq<Node>)
    requires pos <= |data| && ScanItems(data, pos, depth, count) == Some(end)
    ensures |items| == count && Good(items, depth + 1)
    ensures At(data, pos, SerializeAll(items)) && end == pos + |SerializeAll(items)|
    decreases |data| - pos, 1, count
  {
    items := [];
    if count > 0 {
      var next := ScanValue(data, pos, depth + 1).value;
      var first := Sound(data, pos, depth + 1, next);
      var rest := ItemsSound(data, next, depth, count - 1, end);
      items := Joined(data, pos, depth + 1, first, rest);
    }
  }

  lemma Joined(data: Bytes, pos: nat, depth: nat, first: Node, rest: seq<Node>) returns (items: seq<Node>)
    requires Formed(first) && Limited(first, depth) && Good(rest, depth)
    requires At(data, pos, Serialize(first)) && At(data, pos + |Serialize(first)|, SerializeAll(rest))
    ensures items == [first] + rest && Good(items, depth) && At(data, pos, SerializeAll(items))
    ensures |SerializeAll(items)| == |Serialize(first)| + |SerializeAll(rest)|
  {
    items := [first] + rest;
    assert items[1..] == rest && forall i :: 0 < i < |items| ==> items[i] == rest[i - 1];
    AtJoined(data, pos, Serialize(first), SerializeAll(rest));
  }

  lemma ContainerSound(data: Bytes, pos: nat, depth: nat, start: nat, items: seq<Node>) returns (node: Node)
    requires pos < |data| && depth <= MAX_DEPTH && ContainerShape(data[pos], |items|) && Good(items, depth + 1)
    requires var shape := ShapeOf(data[pos]);
      if shape.CountedEntries?
      then start == pos + 1 + shape.width && At(data, pos + 1, BigEndian(shape.width, |items| / shape.per))
      else start == pos + 1
    requires At(data, start, SerializeAll(items))
    ensures Formed(node) && Limited(node, depth) && At(data, pos, Serialize(node))
    ensures pos + |Serialize(node)| == start + |SerializeAll(items)|
  {
    node := ContainerFor(data[pos], items);
    ContainerForFits(data[pos], items, depth);
    assert Body(node) == SerializeAll(items);
    PartsSerialize(node, data, pos);
  }

  /** Whatever is scanned is a formed tree within the limits, from the first byte to the last. */
  lemma {:induction false} Sound(data: Bytes, pos: nat, depth: nat, end: nat) returns (node: Node)
    requires pos <= |data| && ScanValue(data, pos, depth) == Some(end)
    ensures Formed(node) && Limited(node, depth) && At(data, pos, Serialize(node)) && end == pos + |Serialize(node)|
    decreases |data| - pos, 0, 0
  {
    var shape := ShapeOf(data[pos]);
    if shape.Entries? || shape.CountedEntries? {
      var start, count := ContainerItems(data, pos, depth, end);
      var items := ItemsSound(data, start, depth, count, end);
      node := ContainerSound(data, pos, depth, start, items);
    } else {
      node := LeafSound(data, pos, depth, end);
    }
  }

  /** The scanner accepts a message exactly when it is the serialization of one value tree within the limits. */
  lemma AcceptsExactlyTheLegalTrees(data: Bytes)
    ensures ValidateShape(data) <==> exists node :: Formed(node) && Limited(node, 0) && Serialize(node) == data
  {
    if ValidateShape(data) {
      var node := Sound(data, 0, 0, |data|);
      assert Serialize(node) == data;
    }
    if exists node :: Formed(node) && Limited(node, 0) && Serialize(node) == data {
      var node :| Formed(node) && Limited(node, 0) && Serialize(node) == data;
      Accepted(node, 0, data, 0, |data|);
    }
  }

  // -- unambiguously

  lemma LeafCanonical(node: Node)
    requires Formed(node) && !node.Array? && !node.Map?
    ensures LeafShape(HeadByte(node), Body(node)) && LeafFor(HeadByte(node), Body(node)) == node
  {
    HeadAnnounces(node);
    if node.Ext? { assert Body(node)[1..] == node.bytes; }
  }

  /** A leaf's head byte and length field fix how long its body is. */
  lemma LeafSize(node: Node, data: Bytes, pos: nat)
    requires Formed(node) && !node.Array? && !node.Map? && At(data, pos, Serialize(node))
    ensures data[pos] == HeadByte(node) && At(data, pos + 1 + |LengthField(node)|, Body(node))
    ensures match ShapeOf(data[pos])
      case Bare => |LengthField(node)| == 0 && |Body(node)| == 0
      case Payload(size) => |LengthField(node)| == 0 && |Body(node)| == size
      case Counted(width, extra) =>
        |LengthField(node)| == width && pos + 1 + width <= |data| && |Body(node)| == Length(data, pos + 1, width) + extra
      case _ => false
  {
    SerializeParts(node, data, pos);
    HeadAnnounces(node);
    if ShapeOf(data[pos]).Counted? {
      AtParts(data, pos + 1, LengthField(node), Body(node));
      LenReadsBack(data, pos + 1, node.width, |node.bytes|);
    }
  }

  lemma LeafUnique(a: Node, b: Node, data: Bytes, pos: nat)
    requires Formed(a) && Formed(b) && !a.Array? && !a.Map? && !b.Array? && !b.Map?
    requires At(data, pos, Serialize(a)) && At(data, pos, Serialize(b))
    ensures a == b
  {
    LeafSize(a, data, pos);
    LeafSize(b, data, pos);
    assert Body(a) == Body(b);
    LeafCanonical(a);
    LeafCanonical(b);
  }

  lemma ContainerSize(node: Node, data: Bytes, pos: nat)
    requires Formed(node) && (node.Array? || node.Map?) && At(data, pos, Serialize(node))
    ensures data[pos] == HeadByte(node) && ContainerFor(data[pos], node.items) == node
    ensures At(data, pos + 1 + |LengthField(node)|, SerializeAll(node.items))
    ensures match ShapeOf(data[pos])
      case Entries(n) => |LengthField(node)| == 0 && |node.items| == n
      case CountedEntries(width, per) =>
        |LengthField(node)| == width && pos + 1 + width <= |data| && |node.items| == per * Length(data, pos + 1, width)
      case _ => false
  {
    SerializeParts(node, data, pos);
    HeadAnnounces(node);
    if ShapeOf(data[pos]).CountedEntries? {
      AtParts(data, pos + 1, LengthField(node), Body(node));
      LenReadsBack(data, pos + 1, node.width, if node.Array? then |node.items| else |node.items| / 2);
    }
  }

  lemma SameHeadAndTail(a: seq<Node>, b: seq<Node>)
    requires a != [] && b != [] && a[0] == b[0] && a[1..] == b[1..]
    ensures a == b
  {
    assert a == [a[0]] + a[1..] && b == [b[0]] + b[1..];
  }

  predicate AllFormed(items: seq<Node>) { forall i :: 0 <= i < |items| ==> Formed(items[i]) }

  /** `items` stand in `data` one after the other from `pos`. */
  ghost predicate Stand(items: seq<Node>, data: Bytes, pos: nat)
  {
    items == [] ||
    (Formed(items[0]) && At(data, pos, Serialize(items[0])) && Stand(items[1..], data, pos + |Serialize(items[0])|))
  }

  lemma {:induction false} AllStand(items: seq<Node>, data: Bytes, pos: nat)
    requires AllFormed(items) && At(data, pos, SerializeAll(items))
    ensures Stand(items, data, pos)
  {
    if items != [] {
      var next, _ := AllParts(items, data, pos);
      AllStand(items[1..], data, next);
    }
  }

  lemma {:induction false} ItemsUnique(a: seq<Node>, b: seq<Node>, data: Bytes, pos: nat)
    requires |a| == |b| && Stand(a, data, pos) && Stand(b, data, pos)
    ensures a == b
    decreases |data| - pos, 2
  {
    if a != [] {
      var size := HeadsUnique(a, b, data, pos);
      ItemsUnique(a[1..], b[1..], data, pos + size);
      SameHeadAndTail(a, b);
    }
  }

  lemma {:induction false} HeadsUnique(a: seq<Node>, b: seq<Node>, data: Bytes, pos: nat) returns (size: nat)
    requires a != [] && b != [] && Stand(a, data, pos) && Stand(b, data, pos)
    ensures a[0] == b[0] && size > 0 && pos + size <= |data|
    ensures Stand(a[1..], data, pos + size) && Stand(b[1..], data, pos + size)
    decreases |data| - pos, 1
  {
    size := HeadSize(a, data, pos);
    var size' := HeadSize(b, data, pos);
    Unambiguous(a[0], b[0], data, pos);
  }

  lemma HeadSize(items: seq<Node>, data: Bytes, pos: nat) returns (size: nat)
    requires items != [] && Stand(items, data, pos)
    ensures Formed(items[0]) && At(data, pos, Serialize(items[0])) && size == |Serialize(items[0])|
    ensures size > 0 && pos + size <= |data| && Stand(items[1..], data, pos + size)
  {
    size := |Serialize(items[0])|;
  }

  /** No bytes are the start of two different values: the tree an accepted message stands for is unique. */
  lemma {:induction false} Unambiguous(a: Node, b: Node, data: Bytes, pos: nat)
    requires Formed(a) && Formed(b) && At(data, pos, Serialize(a)) && At(data, pos, Serialize(b))
    ensures a == b
    decreases |data| - pos, 0, 1
  {
    HeadStandsFor(a, data, pos);
    HeadStandsFor(b, data, pos);
    if a.Array? || a.Map? {
      ContainerUnique(a, b, data, pos);
    } else {
      LeafUnique(a, b, data, pos);
    }
  }

  lemma {:induction false} ContainerUnique(a: Node, b: Node, data: Bytes, pos: nat)
    requires Formed(a) && Formed(b) && (a.Array? || a.Map?) && (b.Array? || b.Map?)
    requires At(data, pos, Serialize(a)) && At(data, pos, Serialize(b))
    ensures a == b
    decreases |data| - pos, 0, 0
  {
    var size := SameContainer(a, b, data, pos);
    ItemsUnique(a.items, b.items, data, pos + 1 + size);
  }

  /** The head byte tells leaves from containers. */
  lemma HeadStandsFor(node: Node, data: Bytes, pos: nat)
    requires Formed(node) && At(data, pos, Serialize(node))
    ensures pos < |data|
    ensures (node.Array? || node.Map?) <==> ShapeOf(data[pos]).Entries? || ShapeOf(data[pos]).CountedEntries?
  {
    SerializeParts(node, data, pos);
    HeadAnnounces(node);
  }

  /** Two containers at one place have the same head and number of items, and are equal if these are. */
  lemma SameContainer(a: Node, b: Node, data: Bytes, pos: nat) returns (size: nat)
    requires Formed(a) && Formed(b) && (a.Array? || a.Map?) && (b.Array? || b.Map?)
    requires At(data, pos, Serialize(a)) && At(data, pos, Serialize(b))
    ensures |a.items| == |b.items| && Stand(a.items, data, pos + 1 + size) && Stand(b.items, data, pos + 1 + size)
    ensures pos < |data| && (a.items == b.items ==> a == b)
  {
    ContainerSize(a, data, pos);
    ContainerSize(b, data, pos);
    size := |LengthField(a)|;
    AllStand(a.items, data, pos + 1 + size);
    AllStand(b.items, data, pos + 1 + size);
  }
}
