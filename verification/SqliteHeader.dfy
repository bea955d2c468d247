/** The two numbers the VFS reads from the header of the first page, and the page it starts a fresh database with. */
module SqliteHeader {
  import opened Common

  const DEFAULT_PAGE_SIZE: nat := 4096
  const HEADER_SIZE: nat := 100

  /** "SQLite format 3" and a zero byte. */
  const MAGIC: seq<Byte> := [83, 81, 76, 105, 116, 101, 32, 102, 111, 114, 109, 97, 116, 32, 51, 0]

  predicate HasHeader(page: seq<Byte>) { |page| >= HEADER_SIZE && page[..|MAGIC|] == MAGIC }

  predicate IsPowerOfTwo(n: nat) { n == 1 || (n > 0 && n % 2 == 0 && IsPowerOfTwo(n / 2)) }

  function Join(high: nat, low: Byte): nat { high * 256 + low }

  /** Two bytes, most significant first; the value 1 stands for 65536, which does not fit. */
  function PageSize(page: seq<Byte>): (size: Option<nat>)
    ensures size.Some? ==> HasHeader(page) && 512 <= size.value <= 65536 && IsPowerOfTwo(size.value)
  {
    if HasHeader(page) then SizeFrom(Join(page[16], page[17])) else None
  }

  function SizeFrom(raw: nat): (size: Option<nat>)
    ensures size.Some? ==> 512 <= size.value <= 65536 && IsPowerOfTwo(size.value)
  {
    var size := if raw == 1 then 65536 else raw;
    if 512 <= size <= 65536 && IsPowerOfTwo(size) then Some(size) else None
  }

  /** Four bytes, most significant first; an empty count means one page. */
  function SizeInPages(page: seq<Byte>): (size: Option<nat>)
    ensures size.Some? <==> HasHeader(page)
    ensures size.Some? ==> 1 <= size.value < U32_MODULUS
  {
    if !HasHeader(page) then None
    else Some(Max(Join(Join(Join(page[28], page[29]), page[30]), page[31]), 1))
  }

  function EmptyHeaderByte(i: nat): Byte
  {
    if i < |MAGIC| then MAGIC[i]
    else match i
      case 16 => 16
      case 18 => 1
      case 19 => 1
      case 21 => 64
      case 22 => 32
      case 23 => 32
      case 27 => 3
      case 31 => 1
      case 43 => 3
      case 59 => 1
      case 95 => 3
      case 97 => 46
      case 98 => 138
      case 99 => 17
      case 100 => 13
      case 105 => 16
      case _ => 0
  }

  function EmptyDbPage(): (page: seq<Byte>)
    ensures |page| == DEFAULT_PAGE_SIZE
  {
    seq(DEFAULT_PAGE_SIZE, i requires 0 <= i => EmptyHeaderByte(i))
  }

  // -- the numbers as SQLite writes them

  /** Big-endian, most significant byte first. */
  function BigEndian16(n: nat): seq<Byte>
    requires n < 0x1_0000
  {
    [n / 0x100, n % 0x100]
  }

  function BigEndian32(n: nat): seq<Byte>
    requires n < U32_MODULUS
  {
    [n / 0x100_0000, n / 0x1_0000 % 0x100, n / 0x100 % 0x100, n % 0x100]
  }

  predicate AllowedPageSize(size: nat) { size in {512, 1024, 2048, 4096, 8192, 16384, 32768, 65536} }

  function Ascii(text: string): seq<Byte>
    requires forall i :: 0 <= i < |text| ==> text[i] < 128 as char
  {
    seq(|text|, i requires 0 <= i < |text| => text[i] as int)
  }

  lemma {:induction false} PowersOfTwo(n: nat)
    requires 1 <= n <= 65536
    ensures IsPowerOfTwo(n) <==>
      n in {1, 2, 4, 8, 16, 32, 64, 128, 256, 512, 1024, 2048, 4096, 8192, 16384, 32768, 65536}
  {
    if n > 1 { PowersOfTwo(n / 2); }
  }

  predicate HasText(page: seq<Byte>) { |page| >= 100 && page[..15] == Ascii("SQLite format 3") && page[15] == 0 }

  lemma HeaderIff(page: seq<Byte>)
    ensures HasHeader(page) <==> HasText(page)
  {
    if |page| >= 100 {
      assert MAGIC[..15] == Ascii("SQLite format 3");
      assert page[..16] == page[..15] + [page[15]];
      assert MAGIC == MAGIC[..15] + [0];
      assert page[..16][..15] == page[..15];
    }
  }

  lemma Bytes16(a: Byte, b: Byte, n: nat)
    requires n < 0x1_0000
    ensures [a, b] == BigEndian16(n) <==> Join(a, b) == n
  {
  }

  lemma Bytes32(a: Byte, b: Byte, c: Byte, d: Byte, n: nat)
    requires n < U32_MODULUS
    ensures [a, b, c, d] == BigEndian32(n) <==> Join(Join(Join(a, b), c), d) == n
  {
    if Join(Join(Join(a, b), c), d) == n { JoinedBytes(a, b, c, d, n); }
    if [a, b, c, d] == BigEndian32(n) {
      var bytes := [a, b, c, d];
      assert bytes[0] == a && bytes[1] == b && bytes[2] == c && bytes[3] == d;
      BytesJoin(n);
    }
  }

  lemma JoinedBytes(a: Byte, b: Byte, c: Byte, d: Byte, n: nat)
    requires n == Join(Join(Join(a, b), c), d)
    ensures n < U32_MODULUS && BigEndian32(n) == [a, b, c, d]
  {
    BytesOfFour(n, a, b, c, d);
  }

  lemma BytesJoin(n: nat)
    requires n < U32_MODULUS
    ensures var bytes := BigEndian32(n); Join(Join(Join(bytes[0], bytes[1]), bytes[2]), bytes[3]) == n
  {
    FourBytes(n);
  }

  lemma SizeFromIff(raw: nat, size: nat)
    requires raw < 0x1_0000
    ensures SizeFrom(raw) == Some(size) <==> AllowedPageSize(size) && raw == if size == 65536 then 1 else size
  {
    if raw > 0 { PowersOfTwo(raw); }
    PowersOfTwo(65536);
  }

  /** A page size is read if and only if the header holds it: any power of two from 512 to 65536, and no other number. */
  lemma PageSizeIff(page: seq<Byte>, size: nat)
    ensures PageSize(page) == Some(size) <==>
      HasText(page) && AllowedPageSize(size) && page[16..18] == BigEndian16(if size == 65536 then 1 else size)
  {
    HeaderIff(page);
    if HasText(page) {
      assert page[16..18] == [page[16], page[17]];
      PageSizeFrom(page[16], page[17], size);
    }
  }

  lemma PageSizeFrom(a: Byte, b: Byte, size: nat)
    ensures SizeFrom(Join(a, b)) == Some(size) <==>
      AllowedPageSize(size) && [a, b] == BigEndian16(if size == 65536 then 1 else size)
  {
    SizeFromIff(Join(a, b), size);
    if AllowedPageSize(size) { Bytes16(a, b, if size == 65536 then 1 else size); }
  }

  /** A page count is read if and only if the header holds it, and a count of zero is read as one. */
  lemma SizeInPagesIff(page: seq<Byte>, count: nat)
    requires count < U32_MODULUS
    ensures SizeInPages(page) == Some(count) <==>
      HasText(page) && ((count > 0 && page[28..32] == BigEndian32(count)) || (count == 1 && page[28..32] == [0, 0, 0, 0]))
  {
    HeaderIff(page);
    if HasText(page) {
      assert page[28..32] == [page[28], page[29], page[30], page[31]];
      CountFrom(page[28], page[29], page[30], page[31], count);
    }
  }

  lemma CountFrom(a: Byte, b: Byte, c: Byte, d: Byte, count: nat)
    requires count < U32_MODULUS
    ensures Max(Join(Join(Join(a, b), c), d), 1) == count <==>
      (count > 0 && [a, b, c, d] == BigEndian32(count)) || (count == 1 && [a, b, c, d] == [0, 0, 0, 0])
  {
    var bytes := [a, b, c, d];
    Bytes32(a, b, c, d, count);
    ZeroBytes(a, b, c, d);
    CountCases(Join(Join(Join(a, b), c), d), count, bytes == BigEndian32(count), bytes == [0, 0, 0, 0]);
  }

  lemma ZeroBytes(a: Byte, b: Byte, c: Byte, d: Byte)
    ensures [a, b, c, d] == [0, 0, 0, 0] <==> Join(Join(Join(a, b), c), d) == 0
  {
  }

  lemma CountCases(n: nat, count: nat, same: bool, zero: bool)
    requires (same <==> n == count) && (zero <==> n == 0)
    ensures Max(n, 1) == count <==> (count > 0 && same) || (count == 1 && zero)
  {
  }

  /** The header of a database of `count` pages of `size` bytes each. */
  ghost predicate Tells(page: seq<Byte>, size: nat, count: nat)
  {
    && HasText(page)
    && AllowedPageSize(size) && page[16..18] == BigEndian16(if size == 65536 then 1 else size)
    && 0 < count < U32_MODULUS && page[28..32] == BigEndian32(count)
  }

  lemma SizesReadBack(page: seq<Byte>, size: nat, count: nat)
    requires Tells(page, size, count)
    ensures PageSize(page) == Some(size) && SizeInPages(page) == Some(count)
  {
    PageSizeIff(page, size);
    SizeInPagesIff(page, count);
  }

  /** The page a fresh database starts with describes itself: one page of the default size. */
  lemma EmptyDbPageDescribesItself()
    ensures Tells(EmptyDbPage(), DEFAULT_PAGE_SIZE, 1)
    ensures PageSize(EmptyDbPage()) == Some(DEFAULT_PAGE_SIZE) && SizeInPages(EmptyDbPage()) == Some(1)
  {
    var page := EmptyDbPage();
    EmptyDbPageHasHeader();
    HeaderIff(page);
    assert page[16..18] == [16, 0] && page[28..32] == [0, 0, 0, 1];
    SizesReadBack(page, DEFAULT_PAGE_SIZE, 1);
  }

  /** The other fields of the page hold what SQLite's file format asks of an empty database: legacy file format, no
      reserved bytes, the fixed payload fractions, UTF-8 text, and an empty leaf of a table whose cell area starts at the
      end of the page. */
  lemma EmptyDbPageIsAnEmptyDatabase()
    ensures var page := EmptyDbPage();
      && page[18] == page[19] == 1 && page[20] == 0
      && page[21] == 64 && page[22] == page[23] == 32
      && page[32..40] == [0, 0, 0, 0, 0, 0, 0, 0]
      && page[56..60] == BigEndian32(1)
      && page[100] == 13 && page[101..105] == [0, 0, 0, 0] && page[105..107] == BigEndian16(DEFAULT_PAGE_SIZE)
      && forall i :: 107 <= i < |page| ==> page[i] == 0
  {
    var page := EmptyDbPage();
    assert page[32..40] == [0, 0, 0, 0, 0, 0, 0, 0] && page[101..105] == [0, 0, 0, 0];
    assert page[56..60] == [0, 0, 0, 1] && page[105..107] == [16, 0];
  }

  lemma EmptyDbPageHasHeader()
    ensures HasHeader(EmptyDbPage())
  {
    var page := EmptyDbPage();
    forall i | 0 <= i < |MAGIC| ensures page[i] == MAGIC[i] {
      assert page[i] == EmptyHeaderByte(i);
    }
    assert page[..|MAGIC|] == MAGIC;
  }
}
