/**
 The main database file of the SQLite VFS as a state machine over values: a dirty-page write buffer and two
 aging page caches in front of a remote page store. `File` is the flat byte file a caller is meant to see;
 the lemmas show that every operation acts on it as a plain byte file would.
 */
module PageStore {
  import opened Common
  import SqliteHeader

  type Page = seq<Byte>

  /** `ttl == 0` builds caches that never expire; `cachesAny` is the page-cache mode being on. */
  datatype Config = Config(pageSize: nat, ttl: nat, cachesAny: bool, cachesPrefetched: bool, retainReads: bool)

  datatype Entry = Entry(bytes: Page, at: nat)

  datatype Store = Store(pages: map<nat, Page>, size: nat)

  datatype Vfs = Vfs(
    cfg: Config,
    size: nat,
    dirty: map<nat, Page>,
    pageCache: map<nat, Entry>,
    committedCache: map<nat, Entry>,
    inAtomicWrite: bool,
    savedSize: nat,
    dead: bool,
    deferredError: bool,
    now: nat,
    store: Store)

  /** What the transport does with one request. */
  datatype Transport = Answers | Fails | FenceLost

  function Zeros(n: nat): (z: Page)
    ensures |z| == n && forall j :: 0 <= j < n ==> z[j] == 0
  {
    seq(n, _ => 0)
  }

  /** How offsets are cut into pages. The length of the file is counted in pages of `pageSize` all the same. */
  function Cut(cfg: Config): (cut: nat)
    ensures cut > 0
  {
    Max(cfg.pageSize, SqliteHeader.DEFAULT_PAGE_SIZE)
  }

  // ---------------------------------------------------------------- pages

  predicate Live(v: Vfs, e: Entry) { v.cfg.ttl == 0 || v.now < e.at + v.cfg.ttl }

  predicate CanReadCached(cfg: Config, k: nat) { k == 1 || cfg.cachesAny }

  /** The committed cache is consulted before the read cache. */
  function CachedPage(v: Vfs, k: nat): Option<Page>
  {
    if !CanReadCached(v.cfg, k) then None
    else if k in v.committedCache && Live(v, v.committedCache[k]) then Some(v.committedCache[k].bytes)
    else if k in v.pageCache && Live(v, v.pageCache[k]) then Some(v.pageCache[k].bytes)
    else None
  }

  function Stored(v: Vfs, k: nat): Option<Page>
  {
    if k in v.store.pages then Some(v.store.pages[k]) else None
  }

  /** Found without asking the store. */
  predicate Readable(v: Vfs, k: nat) { k in v.dirty || CachedPage(v, k).Some? }

  /** The page a read of `k` is answered with. */
  function Resolve(v: Vfs, k: nat): Option<Page>
  {
    if k in v.dirty then Some(v.dirty[k])
    else if CachedPage(v, k).Some? then CachedPage(v, k)
    else Stored(v, k)
  }

  /** Pages beyond the targets that this fetch brings into the read cache. */
  function Prefetched(v: Vfs, targets: set<nat>, predicted: set<nat>): map<nat, Entry>
  {
    map k | k in predicted && k !in targets && !Readable(v, k) && k in v.store.pages
      :: Entry(v.store.pages[k], v.now)
  }

  /** Resolving pages changes nothing but the read cache, and only when some target must be fetched. */
  function AfterResolve(v: Vfs, targets: set<nat>, predicted: set<nat>): Vfs
  {
    if (forall k :: k in targets ==> Readable(v, k)) || !(v.cfg.cachesPrefetched && v.cfg.ttl > 0) then v
    else v.(pageCache := v.pageCache + Prefetched(v, targets, predicted))
  }

  predicate NeedsFetch(v: Vfs, targets: set<nat>) { exists k :: k in targets && !Readable(v, k) }

  // ---------------------------------------------------------------- the flat file

  function PageOr(p: Option<Page>, n: nat): Page { if p.Some? then p.value else Zeros(n) }

  /** The bytes of page `k` of the visible file: the write buffer over the store over zeros. */
  function Content(v: Vfs, k: nat): Page
  {
    if k in v.dirty then v.dirty[k] else PageOr(Stored(v, k), v.cfg.pageSize)
  }

  /** Every page at hand has the size that the header tells. */
  ghost predicate EvenPages(v: Vfs)
  {
    && v.cfg.pageSize > 0
    && (forall k :: k in v.dirty ==> |v.dirty[k]| == v.cfg.pageSize)
    && (forall k :: k in v.store.pages ==> |v.store.pages[k]| == v.cfg.pageSize)
    && (forall k :: k in v.pageCache ==> |v.pageCache[k].bytes| == v.cfg.pageSize)
    && (forall k :: k in v.committedCache ==> |v.committedCache[k].bytes| == v.cfg.pageSize)
  }

  /** And offsets are cut into pages of that size. */
  ghost predicate FullPages(v: Vfs) { EvenPages(v) && Cut(v.cfg) == v.cfg.pageSize }

  /** The length reported for the file. */
  function FileSize(v: Vfs): nat { v.size * v.cfg.pageSize }

  ghost function File(v: Vfs): seq<Byte>
    requires EvenPages(v)
  {
    seq(v.size * v.cfg.pageSize, i requires 0 <= i < v.size * v.cfg.pageSize => FileByte(v, i))
  }

  ghost function FileByte(v: Vfs, i: nat): Byte
    requires EvenPages(v)
  {
    Content(v, i / v.cfg.pageSize + 1)[i % v.cfg.pageSize]
  }

  /** What a fresh reader of the store alone would see. */
  ghost function StoredFile(v: Vfs): seq<Byte>
    requires EvenPages(v)
  {
    File(v.(dirty := map[], size := v.store.size))
  }

  /** What a rollback of the open atomic write returns to. */
  ghost function SavedFile(v: Vfs): seq<Byte>
    requires EvenPages(v)
  {
    File(v.(dirty := map[], size := v.savedSize))
  }

  lemma FilesAgree(v: Vfs, w: Vfs)
    requires EvenPages(v) && EvenPages(w)
    requires v.cfg.pageSize == w.cfg.pageSize && v.size == w.size
    requires forall k :: 1 <= k <= v.size ==> Content(v, k) == Content(w, k)
    ensures File(v) == File(w)
  {
    forall i: nat | i < |File(w)| ensures FileByte(v, i) == File(w)[i] {
      PageOfByte(v, i);
      BytesAgree(v, w, i);
      FileAt(w, i);
    }
    FileIs(v, File(w));
  }

  lemma BytesAgree(v: Vfs, w: Vfs, i: nat)
    requires EvenPages(v) && EvenPages(w) && v.cfg.pageSize == w.cfg.pageSize
    requires Content(v, i / v.cfg.pageSize + 1) == Content(w, i / v.cfg.pageSize + 1)
    ensures FileByte(v, i) == FileByte(w, i)
  {
  }

  // ---------------------------------------------------------------- operations

  datatype ReadResult = ReadOk(bytes: seq<Byte>) | ShortRead(bytes: seq<Byte>) | ReadError

  /** First and last page touched by a non-empty byte range. */
  function FirstPage(offset: nat, pageSize: nat): nat requires pageSize > 0 { offset / pageSize + 1 }

  function LastPage(offset: nat, length: nat, pageSize: nat): nat
    requires pageSize > 0 && length > 0
  {
    (offset + length - 1) / pageSize + 1
  }

  function Span(offset: nat, length: nat, pageSize: nat): set<nat>
    requires pageSize > 0 && length > 0
  {
    set k: nat | k <= LastPage(offset, length, pageSize) && AtOrAfter(k, FirstPage(offset, pageSize))
  }

  predicate AtOrAfter(k: nat, first: nat) { first <= k }

  function ByteAt(page: Page, j: nat): Byte { if j < |page| then page[j] else 0 }

  function BufferByte(v: Vfs, i: nat): Byte
  {
    ByteAt(PageOr(Resolve(v, i / Cut(v.cfg) + 1), Cut(v.cfg)), i % Cut(v.cfg))
  }

  /** The caller's buffer: absent pages read as zeros. */
  function ReadBuffer(v: Vfs, offset: nat, length: nat): (bytes: seq<Byte>)
    ensures |bytes| == length
  {
    seq<Byte>(length, j requires 0 <= j < length => BufferByte(v, offset + j))
  }

  /** A page at `start` is long enough for the part of it that a range ending at `end` asks for. */
  predicate Reaches(page: Option<Page>, start: int, cut: nat, end: nat)
  {
    page.Some? ==> Min(start + cut, end) <= start + |page.value|
  }

  /** Copying out of a page that is too short is a fault, which the callback turns into an error. */
  predicate ReadFits(v: Vfs, offset: nat, length: nat)
    requires length > 0
  {
    forall k :: k in Span(offset, length, Cut(v.cfg)) ==>
      Reaches(Resolve(v, k), (k - 1) * Cut(v.cfg), Cut(v.cfg), offset + length)
  }

  function AfterEviction(v: Vfs, pages: set<nat>): Vfs
  {
    if v.cfg.retainReads then v else v.(pageCache := v.pageCache - pages)
  }

  function Read(v: Vfs, offset: int, length: nat, predicted: set<nat>, transport: Transport): (Vfs, ReadResult)
  {
    if length == 0 then (v, ReadOk([]))
    else if v.dead || offset < 0 then (v, ReadError)
    else
      var span := Span(offset, length, Cut(v.cfg));
      if NeedsFetch(v, span) && transport.Fails? then (v, ReadError)
      else if NeedsFetch(v, span) && transport.FenceLost? then (v.(dead := true), ReadError)
      else if !ReadFits(v, offset, length) then (AfterResolve(v, span, predicted), ReadError)
      else
        var bytes := ReadBuffer(v, offset, length);
        (AfterEviction(AfterResolve(v, span, predicted), span),
         if offset + length > FileSize(v) then ShortRead(bytes) else ReadOk(bytes))
  }

  predicate WholePages(offset: nat, length: nat, pageSize: nat)
    requires pageSize > 0
  {
    offset % pageSize == 0 && length % pageSize == 0
  }

  /** A page that is too short is filled up with zeros before it is patched. */
  function Fitted(page: Page, n: nat): (p: Page)
    ensures |p| == Max(|page|, n) && forall j :: 0 <= j < |p| ==> p[j] == ByteAt(page, j)
  {
    if |page| < n then page + Zeros(n - |page|) else page
  }

  /** What a written page is patched onto: nothing is fetched for whole-page writes or for pages past the end. */
  function PatchBase(v: Vfs, whole: bool, k: nat): Page
  {
    if whole || k > v.size then Zeros(Cut(v.cfg)) else Fitted(PageOr(Resolve(v, k), Cut(v.cfg)), Cut(v.cfg))
  }

  function Patched(base: Page, k: nat, cut: nat, offset: nat, source: seq<Byte>): (p: Page)
    requires k >= 1
    ensures |p| == |base|
  {
    seq(|base|, j requires 0 <= j < |base| =>
      var i := (k - 1) * cut + j;
      if j < cut && offset <= i < offset + |source| then source[i - offset] else base[j])
  }

  function WrittenPages(v: Vfs, offset: nat, source: seq<Byte>): map<nat, Page>
    requires |source| > 0
  {
    var C := Cut(v.cfg);
    var whole := WholePages(offset, |source|, C);
    assert FirstPage(offset, C) >= 1;
    map k | k in Span(offset, |source|, C) :: Patched(PatchBase(v, whole, k), k, C, offset, source)
  }

  /** Targets that a partial write must read first. */
  function PatchTargets(v: Vfs, offset: nat, length: nat): set<nat>
    requires length > 0
  {
    if WholePages(offset, length, Cut(v.cfg)) then {}
    else set k | k in Span(offset, length, Cut(v.cfg)) && k <= v.size
  }

  function Write(v: Vfs, offset: int, source: seq<Byte>, transport: Transport): (Vfs, bool)
  {
    if source == [] then (v, true)
    else if v.dead || offset < 0 then (v, false)
    else
      var targets := PatchTargets(v, offset, |source|);
      if NeedsFetch(v, targets) && transport.Fails? then (v, false)
      else if NeedsFetch(v, targets) && transport.FenceLost? then (v.(dead := true), false)
      else
        (v.(dirty := v.dirty + WrittenPages(v, offset, source),
            size := Max(v.size, (offset + |source| + Cut(v.cfg) - 1) / Cut(v.cfg))),
         true)
  }

  function PagesFor(size: nat, pageSize: nat): nat requires pageSize > 0 { (size + pageSize - 1) / pageSize }

  function Truncate(v: Vfs, size: int): (Vfs, bool)
  {
    if size < 0 then (v, false)
    else
      var n := PagesFor(size, Cut(v.cfg));
      (v.(size := n, dirty := map k | k in v.dirty && k <= n :: v.dirty[k], pageCache := map[], committedCache := map[]),
       true)
  }

  /** The store applies a commit atomically: pages past the new size are gone. */
  function Applied(store: Store, dirty: map<nat, Page>, size: nat): Store
  {
    Store(map k | k in store.pages.Keys + dirty.Keys && k <= size :: if k in dirty then dirty[k] else store.pages[k], size)
  }

  function CommittedEntries(v: Vfs): map<nat, Entry>
  {
    if v.cfg.ttl == 0 || !v.cfg.cachesAny then map[]
    else map k | k in v.dirty :: Entry(v.dirty[k], v.now)
  }

  /** State after the store accepted the buffered pages. The read cache is deliberately left alone. */
  function AfterCommit(v: Vfs): Vfs
  {
    v.(store := Applied(v.store, v.dirty, v.size),
       committedCache := v.committedCache + CommittedEntries(v),
       dirty := map[])
  }

  /** A no-op inside an atomic write and when nothing is buffered. */
  function Flush(v: Vfs, transport: Transport): (Vfs, bool)
  {
    if v.dead then (v, false)
    else if v.inAtomicWrite || v.dirty == map[] then (v, true)
    else match transport
      case Fails => (v, false)
      case FenceLost => (v.(dead := true), false)
      case Answers => (AfterCommit(v), true)
  }

  function BeginAtomic(v: Vfs): Vfs
  {
    v.(inAtomicWrite := true, savedSize := v.size, dirty := map[])
  }

  /** A failed commit other than a lost fence is reported once more by the next sync. */
  function CommitAtomic(v: Vfs, transport: Transport): (Vfs, bool)
  {
    if v.dead then (v.(deferredError := true), false)
    else if !v.inAtomicWrite then (v, true)
    else if v.dirty == map[] then (v.(inAtomicWrite := false), true)
    else match transport
      case Fails => (v.(deferredError := true), false)
      case FenceLost => (v.(dead := true), false)
      case Answers => (AfterCommit(v).(inAtomicWrite := false), true)
  }

  /** xSync: a deferred commit error fails it once, before anything is sent. */
  function Sync(v: Vfs, transport: Transport): (Vfs, bool)
  {
    if v.deferredError then (v.(deferredError := false), false) else Flush(v, transport)
  }

  /** xClose: sends what is buffered, an open atomic write included, unless the caller asked not to. An error is not put
      off: there is no sync to come. */
  function Close(v: Vfs, skipFlush: bool, transport: Transport): (Vfs, bool)
  {
    if skipFlush then (v, true)
    else if v.inAtomicWrite then
      var (w, ok) := CommitAtomic(v, transport);
      (w.(deferredError := v.deferredError), ok)
    else if v.dirty != map[] then Flush(v, transport)
    else (v, true)
  }

  function RollbackAtomic(v: Vfs): Vfs
  {
    v.(dirty := map[], inAtomicWrite := false, size := v.savedSize)
  }

  // ---------------------------------------------------------------- invariant

  /** Committed pages are kept in the committed cache. */
  ghost predicate Caching(cfg: Config) { cfg.ttl > 0 && cfg.cachesAny }

  /** Whatever the caches say about page `k`, now or after any wait, is `page`: a read-cache copy that says otherwise is
      outlived by a committed one. */
  ghost predicate Says(v: Vfs, k: nat, page: Page)
  {
    CanReadCached(v.cfg, k) ==>
      && (k in v.committedCache && Live(v, v.committedCache[k]) ==> v.committedCache[k].bytes == page)
      && (k in v.pageCache && Live(v, v.pageCache[k]) ==>
            || v.pageCache[k].bytes == page
            || (k in v.committedCache && (v.cfg.ttl == 0 || v.pageCache[k].at <= v.committedCache[k].at)))
  }

  /** Nothing was cached in the future, and the caches agree with every stored page. */
  ghost predicate Coherent(v: Vfs)
  {
    && (forall k :: k in v.committedCache ==> v.committedCache[k].at <= v.now)
    && (forall k :: k in v.pageCache ==> v.pageCache[k].at <= v.now)
    && (forall k :: k in v.store.pages ==> Says(v, k, v.store.pages[k]))
  }

  ghost predicate Harmless(v: Vfs, k: nat) { Says(v, k, Zeros(v.cfg.pageSize)) }

  /** No cache remembers other bytes for a page of the file that the store does not hold. */
  ghost predicate NoGhosts(v: Vfs, n: nat, shadow: map<nat, Page>)
  {
    forall k :: 1 <= k <= n && k !in shadow && k !in v.store.pages ==> Harmless(v, k)
  }

  ghost predicate Inv(v: Vfs)
  {
    && FullPages(v)
    && (forall k :: k in v.dirty ==> 1 <= k <= v.size)
    && (forall k :: k in v.store.pages ==> 1 <= k <= v.store.size)
    && Coherent(v)
    && NoGhosts(v, v.size, v.dirty)
    && (v.inAtomicWrite ==> NoGhosts(v, v.savedSize, map[]))
  }

  /** A cached copy of a page is the store's latest content of it: the stored page, or zeros where the file has a page
      that the store does not hold. */
  lemma CachedIsCommitted(v: Vfs, k: nat)
    requires Inv(v) && (k in v.store.pages || (1 <= k <= v.size && k !in v.dirty))
    ensures CachedPage(v, k).Some? ==> CachedPage(v, k).value == PageOr(Stored(v, k), v.cfg.pageSize)
  {
    if k !in v.store.pages { assert Harmless(v, k); }
  }

  lemma ResolveIsContent(v: Vfs, k: nat)
    requires Inv(v) && 1 <= k <= v.size
    ensures PageOr(Resolve(v, k), v.cfg.pageSize) == Content(v, k)
  {
    if k !in v.dirty { CachedIsCommitted(v, k); }
  }

  // ---------------------------------------------------------------- reads

  lemma ReadCacheGrows(v: Vfs, extra: map<nat, Entry>)
    requires Inv(v)
    requires forall k :: k in extra ==> k in v.store.pages && extra[k] == Entry(v.store.pages[k], v.now)
    ensures Inv(v.(pageCache := v.pageCache + extra))
    ensures File(v.(pageCache := v.pageCache + extra)) == File(v)
  {
    var w := v.(pageCache := v.pageCache + extra);
    forall k | k !in v.store.pages && Harmless(v, k) ensures Harmless(w, k) {
      assert k !in extra;
    }
    assert FullPages(w);
    GrownIsCoherent(v, extra);
    FilesAgree(v, w);
  }

  lemma GrownIsCoherent(v: Vfs, extra: map<nat, Entry>)
    requires Coherent(v)
    requires forall k :: k in extra ==> k in v.store.pages && extra[k] == Entry(v.store.pages[k], v.now)
    ensures Coherent(v.(pageCache := v.pageCache + extra))
  {
    var w := v.(pageCache := v.pageCache + extra);
    forall k | k in w.store.pages ensures Says(w, k, w.store.pages[k]) {
      assert Says(v, k, v.store.pages[k]);
    }
  }

  lemma ResolveKeepsInv(v: Vfs, targets: set<nat>, predicted: set<nat>)
    requires Inv(v)
    ensures Inv(AfterResolve(v, targets, predicted))
    ensures File(AfterResolve(v, targets, predicted)) == File(v)
  {
    ReadCacheGrows(v, Prefetched(v, targets, predicted));
  }

  lemma EvictionKeepsInv(v: Vfs, pages: set<nat>)
    requires Inv(v)
    ensures Inv(AfterEviction(v, pages)) && File(AfterEviction(v, pages)) == File(v)
  {
    EvictedKeepsInv(v, pages);
    FilesAgree(v, AfterEviction(v, pages));
  }

  lemma EvictedKeepsInv(v: Vfs, pages: set<nat>)
    requires Inv(v)
    ensures Inv(AfterEviction(v, pages))
  {
    var w := AfterEviction(v, pages);
    assert Coherent(w);
    forall k | Harmless(v, k) ensures Harmless(w, k) {}
  }

  lemma BufferByteIs(v: Vfs, i: nat)
    requires FullPages(v)
    ensures BufferByte(v, i) == PageOr(Resolve(v, i / v.cfg.pageSize + 1), v.cfg.pageSize)[i % v.cfg.pageSize]
  {
  }

  lemma BufferByteIsFileByte(v: Vfs, i: nat)
    requires Inv(v) && i / v.cfg.pageSize < v.size
    ensures BufferByte(v, i) == FileByte(v, i)
  {
    BufferByteIs(v, i);
    ResolveIsContent(v, i / v.cfg.pageSize + 1);
  }

  lemma BufferIsFile(v: Vfs, offset: nat, length: nat, j: nat)
    requires Inv(v) && j < length && offset + j < |File(v)|
    ensures ReadBuffer(v, offset, length)[j] == File(v)[offset + j]
  {
    PageOfByte(v, offset + j);
    BufferByteIsFileByte(v, offset + j);
  }

  /** The answer of a plain byte file: short exactly when the range passes the end, right on every byte before it. */
  ghost predicate ReadMatches(file: seq<Byte>, offset: int, length: nat, r: ReadResult)
  {
    && offset >= 0
    && !r.ReadError?
    && |r.bytes| == length
    && (r.ShortRead? <==> offset + length > |file|)
    && forall j :: 0 <= j < length && offset + j < |file| ==> r.bytes[j] == file[offset + j]
  }

  lemma DeadKeepsInv(v: Vfs)
    requires Inv(v)
    ensures Inv(v.(dead := true)) && File(v.(dead := true)) == File(v)
  {
    FilesAgree(v, v.(dead := true));
    assert forall k :: Harmless(v, k) ==> Harmless(v.(dead := true), k);
  }

  lemma DeferredKeepsInv(v: Vfs, deferred: bool)
    requires Inv(v)
    ensures Inv(v.(deferredError := deferred)) && File(v.(deferredError := deferred)) == File(v)
  {
    FilesAgree(v, v.(deferredError := deferred));
    assert forall k :: Harmless(v, k) ==> Harmless(v.(deferredError := deferred), k);
  }

  lemma ReadEndState(v: Vfs, offset: int, length: nat, predicted: set<nat>, transport: Transport)
    requires FullPages(v)
    ensures length > 0 && offset >= 0 ==> ReadFits(v, offset, length)
    ensures var w := Read(v, offset, length, predicted, transport).0;
      || w == v
      || w == v.(dead := true)
      || (length > 0 && offset >= 0
          && w == AfterEviction(AfterResolve(v, Span(offset, length, v.cfg.pageSize), predicted), Span(offset, length, v.cfg.pageSize)))
  {
  }

  /** Reading changes no byte of the file and nothing in the store. */
  lemma ReadKeepsFile(v: Vfs, offset: int, length: nat, predicted: set<nat>, transport: Transport)
    requires Inv(v)
    ensures Inv(Read(v, offset, length, predicted, transport).0)
    ensures File(Read(v, offset, length, predicted, transport).0) == File(v)
  {
    var w := Read(v, offset, length, predicted, transport).0;
    ReadEndState(v, offset, length, predicted, transport);
    if w == v {
    } else if w == v.(dead := true) {
      DeadKeepsInv(v);
    } else {
      var span := Span(offset, length, v.cfg.pageSize);
      ResolveKeepsInv(v, span, predicted);
      EvictionKeepsInv(AfterResolve(v, span, predicted), span);
    }
  }

  /** A read returns the flat file's bytes, whatever was cached or predicted. */
  lemma ReadRefines(v: Vfs, offset: int, length: nat, predicted: set<nat>, transport: Transport)
    requires Inv(v) && length > 0
    ensures var r := Read(v, offset, length, predicted, transport).1;
      && (!r.ReadError? ==> ReadMatches(File(v), offset, length, r))
      && (!v.dead && offset >= 0 && transport.Answers? ==> !r.ReadError?)
  {
    if offset >= 0 {
      var bytes := ReadBuffer(v, offset, length);
      forall j | 0 <= j < length && offset + j < |File(v)| ensures bytes[j] == File(v)[offset + j] {
        BufferIsFile(v, offset, length, j);
      }
    }
  }

  /** The part of the page that falls into the range is zeros. */
  predicate ZeroWithin(page: Page, k: nat, offset: nat, length: nat)
  {
    forall j :: 0 <= j < |page| && offset <= (k - 1) * |page| + j < offset + length ==> page[j] == 0
  }

  /** What a read puts in the buffer from beyond the end of the file. */
  ghost predicate ZeroPastEnd(v: Vfs, offset: nat, bytes: seq<Byte>)
  {
    forall j :: 0 <= j < |bytes| && v.size * v.cfg.pageSize <= offset + j ==> bytes[j] == 0
  }

  ghost predicate PagesPastEndAreZero(v: Vfs, offset: nat, length: nat)
    requires length > 0 && v.cfg.pageSize > 0
  {
    forall k :: k in Span(offset, length, v.cfg.pageSize) && k > v.size ==>
      ZeroWithin(PageOr(Resolve(v, k), v.cfg.pageSize), k, offset, length)
  }

  /** A short read is zero-filled if and only if every page of the span past the end, as far as it is read, resolves to
      nothing or to zeros: pages are copied whatever the size of the file. */
  lemma ShortReadIsZeroFilledIff(v: Vfs, offset: nat, length: nat, predicted: set<nat>, transport: Transport)
    requires Inv(v) && length > 0 && !Read(v, offset, length, predicted, transport).1.ReadError?
    ensures ZeroPastEnd(v, offset, Read(v, offset, length, predicted, transport).1.bytes)
      <==> PagesPastEndAreZero(v, offset, length)
  {
    var bytes := ReadBuffer(v, offset, length);
    if PagesPastEndAreZero(v, offset, length) {
      forall j | 0 <= j < length && v.size * v.cfg.pageSize <= offset + j ensures bytes[j] == 0 {
        ByteFromZeroPage(v, offset, length, j);
      }
    }
    if ZeroPastEnd(v, offset, bytes) {
      forall k | k in Span(offset, length, v.cfg.pageSize) && k > v.size
        ensures ZeroWithin(PageOr(Resolve(v, k), v.cfg.pageSize), k, offset, length)
      {
        ZeroPageFromBytes(v, offset, length, k);
      }
    }
  }

  lemma ByteFromZeroPage(v: Vfs, offset: nat, length: nat, j: nat)
    requires FullPages(v) && j < length && v.size * v.cfg.pageSize <= offset + j && PagesPastEndAreZero(v, offset, length)
    ensures ReadBuffer(v, offset, length)[j] == 0
  {
    var P := v.cfg.pageSize;
    var i := offset + j;
    var k := i / P + 1;
    ByteInSpan(i, offset, length, P);
    DivBounds(i, P);
    if k <= v.size { MulMonotone(k, v.size, P); }
    assert (k - 1) * P + i % P == i;
    BufferByteIs(v, i);
  }

  lemma ZeroPageFromBytes(v: Vfs, offset: nat, length: nat, k: nat)
    requires FullPages(v) && length > 0 && k > v.size && ZeroPastEnd(v, offset, ReadBuffer(v, offset, length))
    ensures ZeroWithin(PageOr(Resolve(v, k), v.cfg.pageSize), k, offset, length)
  {
    var P := v.cfg.pageSize;
    var page := PageOr(Resolve(v, k), P);
    forall j | 0 <= j < |page| && offset <= (k - 1) * P + j < offset + length ensures page[j] == 0 {
      var i := (k - 1) * P + j;
      DivModUnique(i, P, k - 1, j);
      MulMonotone(v.size, k - 1, P);
      BufferByteIs(v, i);
      assert ReadBuffer(v, offset, length)[i - offset] == page[j];
    }
  }

  /** From every registered database with a first page: after truncating it away, reading it is short and returns the old
      bytes. */
  lemma ShortReadReturnsOldPage(v: Vfs)
    requires Opened(v) && 1 in v.store.pages
    ensures var w := Truncate(v, 0).0;
      Inv(v) && Allowed(v, OpTruncate(0)) && Inv(w)
      && Read(w, 0, v.cfg.pageSize, {}, Answers).1 == ShortRead(v.store.pages[1])
  {
    var P := v.cfg.pageSize;
    var w := Truncate(v, 0).0;
    assert Inv(v);
    DivModUnique(P - 1, P, 0, P - 1);
    TruncateKeepsInv(v, 0);
    assert w.size == 0 && Resolve(w, 1) == Some(v.store.pages[1]);
    FirstPageBuffer(w);
  }

  lemma FirstPageBuffer(v: Vfs)
    requires FullPages(v)
    ensures ReadBuffer(v, 0, v.cfg.pageSize) == PageOr(Resolve(v, 1), v.cfg.pageSize)
  {
    var P := v.cfg.pageSize;
    var bytes := ReadBuffer(v, 0, P);
    forall j | 0 <= j < P ensures bytes[j] == PageOr(Resolve(v, 1), P)[j] {
      DivModUnique(j, P, 0, j);
      BufferByteIs(v, j);
      assert bytes[j] == BufferByte(v, 0 + j);
    }
  }

  // ---------------------------------------------------------------- writes and truncation

  /** The pages a write skips over, between the old end and `first`: zeros wherever they are stored, and nothing else
      cached where they are not. */
  ghost predicate GapClean(v: Vfs, first: nat)
  {
    && GapStoredClean(v, first)
    && forall k :: v.size < k < first && k !in v.store.pages ==> Harmless(v, k)
  }

  ghost predicate GapStoredClean(v: Vfs, first: nat)
  {
    forall k :: v.size < k < first && k in v.store.pages ==> v.store.pages[k] == Zeros(v.cfg.pageSize)
  }

  /** A plain byte file that grows in whole pages. */
  ghost function FlatWrite(file: seq<Byte>, pageSize: nat, offset: nat, source: seq<Byte>): seq<Byte>
    requires pageSize > 0
  {
    seq(Max(|file|, PagesFor(offset + |source|, pageSize) * pageSize),
        i requires 0 <= i < Max(|file|, PagesFor(offset + |source|, pageSize) * pageSize) =>
          if offset <= i < offset + |source| then source[i - offset] else if i < |file| then file[i] else 0)
  }

  ghost function FlatTruncate(file: seq<Byte>, pageSize: nat, size: nat): seq<Byte>
    requires pageSize > 0
  {
    seq(PagesFor(size, pageSize) * pageSize,
        i requires 0 <= i < PagesFor(size, pageSize) * pageSize => if i < |file| then file[i] else 0)
  }

  /** A byte of the range lies in a page of the span. */
  lemma ByteInSpan(i: nat, offset: nat, length: nat, pageSize: nat)
    requires pageSize > 0 && offset <= i < offset + length
    ensures i / pageSize + 1 in Span(offset, length, pageSize)
  {
    DivMonotone(offset, i, pageSize);
    DivMonotone(i, offset + length - 1, pageSize);
    assert AtOrAfter(i / pageSize + 1, FirstPage(offset, pageSize));
  }

  lemma DivMonotone(a: nat, b: nat, d: nat)
    requires a <= b && d > 0
    ensures a / d <= b / d
  {
    DivBounds(a, d);
    DivBounds(b, d);
    if b / d < a / d { MulMonotone(b / d + 1, a / d, d); assert false; }
  }

  /** A whole-page write overwrites every byte of every page it touches. */
  lemma WholePagesCover(k: nat, offset: nat, length: nat, pageSize: nat)
    requires pageSize > 0 && length > 0 && WholePages(offset, length, pageSize)
    requires k in Span(offset, length, pageSize)
    ensures k >= 1 && offset <= (k - 1) * pageSize && k * pageSize <= offset + length
  {
    DivBounds(offset, pageSize);
    DivBounds(length, pageSize);
    MulMonotone(offset / pageSize, k - 1, pageSize);
    var pages := offset / pageSize + length / pageSize;
    assert pages * pageSize == offset + length;
    DivLess(offset + length - 1, pageSize, pages);
    MulMonotone(k, pages, pageSize);
  }

  /** One page of the file after a write, byte by byte. */
  lemma WrittenByte(v: Vfs, offset: nat, source: seq<Byte>, k: nat, j: nat)
    requires Inv(v) && source != [] && k in Span(offset, |source|, v.cfg.pageSize) && j < v.cfg.pageSize
    ensures var i := (k - 1) * v.cfg.pageSize + j;
      k >= 1 && |WrittenPages(v, offset, source)[k]| == v.cfg.pageSize
      && WrittenPages(v, offset, source)[k][j] ==
         if offset <= i < offset + |source| then source[i - offset]
         else if k <= v.size then Content(v, k)[j] else 0
  {
    var P := v.cfg.pageSize;
    var whole := WholePages(offset, |source|, P);
    if whole {
      WholePagesCover(k, offset, |source|, P);
      assert k * P == (k - 1) * P + P;
    } else if k <= v.size {
      ResolveIsContent(v, k);
    }
  }

  /** The state a successful write ends in. */
  function Written(v: Vfs, offset: nat, source: seq<Byte>): Vfs
    requires source != []
  {
    v.(dirty := v.dirty + WrittenPages(v, offset, source), size := Max(v.size, PagesFor(offset + |source|, Cut(v.cfg))))
  }

  lemma WrittenIsFull(v: Vfs, offset: nat, source: seq<Byte>)
    requires Inv(v) && source != []
    ensures FullPages(Written(v, offset, source))
    ensures forall k :: k in Span(offset, |source|, v.cfg.pageSize) ==> 1 <= k <= Written(v, offset, source).size
  {
    var P := v.cfg.pageSize;
    var w := Written(v, offset, source);
    CeilIsLastPage(offset + |source|, P);
    forall k | k in Span(offset, |source|, P) ensures |w.dirty[k]| == P && 1 <= k <= w.size {
      WrittenByte(v, offset, source, k, 0);
    }
  }

  lemma SkippedPage(v: Vfs, offset: nat, source: seq<Byte>, k: nat)
    requires Cut(v.cfg) == v.cfg.pageSize && source != [] && v.size < k <= Written(v, offset, source).size
    requires k !in Span(offset, |source|, v.cfg.pageSize)
    ensures k < FirstPage(offset, v.cfg.pageSize)
  {
    CeilIsLastPage(offset + |source|, v.cfg.pageSize);
    assert !AtOrAfter(k, FirstPage(offset, v.cfg.pageSize));
  }

  lemma WrittenKeepsInv(v: Vfs, offset: nat, source: seq<Byte>)
    requires Inv(v) && source != []
    requires GapClean(v, FirstPage(offset, v.cfg.pageSize))
    ensures Inv(Written(v, offset, source))
  {
    var w := Written(v, offset, source);
    WrittenIsFull(v, offset, source);
    forall k | Harmless(v, k) ensures Harmless(w, k) {}
    forall k | v.size < k <= w.size && k !in w.dirty && k !in w.store.pages ensures Harmless(w, k) {
      SkippedPage(v, offset, source, k);
    }
  }

  lemma WrittenFileByte(v: Vfs, offset: nat, source: seq<Byte>, i: nat)
    requires Inv(v) && source != []
    requires FullPages(Written(v, offset, source))
    requires i / v.cfg.pageSize < Written(v, offset, source).size
    ensures FileByte(Written(v, offset, source), i) ==
            if offset <= i < offset + |source| then source[i - offset]
            else if i / v.cfg.pageSize < v.size then FileByte(v, i)
            else if i / v.cfg.pageSize + 1 < FirstPage(offset, v.cfg.pageSize)
            then PageOr(Stored(v, i / v.cfg.pageSize + 1), v.cfg.pageSize)[i % v.cfg.pageSize]
            else 0
  {
    var P := v.cfg.pageSize;
    var k, j := i / P + 1, i % P;
    DivBounds(i, P);
    assert (k - 1) * P + j == i;
    if offset <= i < offset + |source| { ByteInSpan(i, offset, |source|, P); }
    if k in Span(offset, |source|, P) {
      WrittenByte(v, offset, source, k, j);
      assert AtOrAfter(k, FirstPage(offset, P));
    } else if k > v.size {
      SkippedPage(v, offset, source, k);
    }
  }

  lemma PageOfByte(v: Vfs, i: nat)
    requires v.cfg.pageSize > 0
    ensures i < v.size * v.cfg.pageSize <==> i / v.cfg.pageSize < v.size
  {
    var P := v.cfg.pageSize;
    DivBounds(i, P);
    if i < v.size * P { DivLess(i, P, v.size); }
    if i / P < v.size { MulMonotone(i / P + 1, v.size, P); }
  }

  /** A write changes exactly its own bytes, the whole-page fast path included, and growth is zero-filled where no page
      that is skipped over is still stored or cached with other bytes. */
  lemma WriteRefines(v: Vfs, offset: int, source: seq<Byte>, transport: Transport)
    requires Inv(v)
    ensures var (w, ok) := Write(v, offset, source, transport);
      && w.store == v.store
      && (!ok || source == [] ==> Inv(w) && File(w) == File(v))
      && (ok && source != [] ==> offset >= 0 && w == Written(v, offset, source))
      && (ok && source != [] && GapClean(v, FirstPage(offset, v.cfg.pageSize)) ==>
            Inv(w) && File(w) == FlatWrite(File(v), v.cfg.pageSize, offset, source))
      && (!v.dead && offset >= 0 && transport.Answers? ==> ok)
  {
    WriteCases(v, offset, source, transport);
    DeadKeepsInv(v);
    if source != [] && offset >= 0 && GapClean(v, FirstPage(offset, v.cfg.pageSize)) {
      CleanWriteRefines(v, offset, source);
    }
  }

  lemma WriteCases(v: Vfs, offset: int, source: seq<Byte>, transport: Transport)
    ensures var (w, ok) := Write(v, offset, source, transport);
      && (!ok || source == [] ==> w == v || w == v.(dead := true))
      && (ok && source != [] ==> offset >= 0 && w == Written(v, offset, source))
      && (!v.dead && offset >= 0 && transport.Answers? ==> ok)
  {
  }

  lemma CleanWriteRefines(v: Vfs, offset: nat, source: seq<Byte>)
    requires Inv(v) && source != [] && GapClean(v, FirstPage(offset, v.cfg.pageSize))
    ensures Inv(Written(v, offset, source))
    ensures File(Written(v, offset, source)) == FlatWrite(File(v), v.cfg.pageSize, offset, source)
  {
    WrittenKeepsInv(v, offset, source);
    WrittenFileIff(v, offset, source);
  }

  lemma FlatWriteSize(v: Vfs, offset: nat, source: seq<Byte>)
    requires Inv(v) && source != []
    ensures |FlatWrite(File(v), v.cfg.pageSize, offset, source)| == Written(v, offset, source).size * v.cfg.pageSize
  {
    var P := v.cfg.pageSize;
    var w := Written(v, offset, source);
    MulMonotone(v.size, w.size, P);
    MulMonotone(PagesFor(offset + |source|, P), w.size, P);
  }

  /** One byte of the file after a write against the flat file's. */
  lemma WrittenAgainstFlat(v: Vfs, offset: nat, source: seq<Byte>, i: nat)
    requires Inv(v) && source != [] && FullPages(Written(v, offset, source))
    requires i / v.cfg.pageSize < Written(v, offset, source).size && i < |FlatWrite(File(v), v.cfg.pageSize, offset, source)|
    ensures var flat := FlatWrite(File(v), v.cfg.pageSize, offset, source)[i];
      var k := i / v.cfg.pageSize + 1;
      if v.size < k < FirstPage(offset, v.cfg.pageSize)
      then flat == 0 && FileByte(Written(v, offset, source), i) == PageOr(Stored(v, k), v.cfg.pageSize)[i % v.cfg.pageSize]
      else flat == FileByte(Written(v, offset, source), i)
  {
    var P := v.cfg.pageSize;
    WrittenFileByte(v, offset, source, i);
    FlatWriteByte(v, offset, source, i);
    if v.size < i / P + 1 < FirstPage(offset, P) { BeforeFirst(i, offset, P); }
  }

  lemma FlatWriteByte(v: Vfs, offset: nat, source: seq<Byte>, i: nat)
    requires EvenPages(v) && i < |FlatWrite(File(v), v.cfg.pageSize, offset, source)|
    ensures FlatWrite(File(v), v.cfg.pageSize, offset, source)[i] ==
            if offset <= i < offset + |source| then source[i - offset]
            else if i / v.cfg.pageSize < v.size then FileByte(v, i)
            else 0
  {
    PageOfByte(v, i);
  }

  lemma BeforeFirst(i: nat, offset: nat, pageSize: nat)
    requires pageSize > 0 && i / pageSize + 1 < FirstPage(offset, pageSize)
    ensures i < offset
  {
    if offset <= i { DivMonotone(offset, i, pageSize); }
  }

  /** The stored and buffered bytes after a write are the flat file's if and only if no page that is skipped over is still
      stored with other bytes than zeros. */
  lemma WrittenFileIff(v: Vfs, offset: nat, source: seq<Byte>)
    requires Inv(v) && source != []
    ensures FullPages(Written(v, offset, source))
    ensures File(Written(v, offset, source)) == FlatWrite(File(v), v.cfg.pageSize, offset, source)
      <==> GapStoredClean(v, FirstPage(offset, v.cfg.pageSize))
  {
    WrittenIsFull(v, offset, source);
    if GapStoredClean(v, FirstPage(offset, v.cfg.pageSize)) {
      CleanWriteFile(v, offset, source);
    } else {
      var k :| v.size < k < FirstPage(offset, v.cfg.pageSize) && k in v.store.pages
        && v.store.pages[k] != Zeros(v.cfg.pageSize);
      DirtyWriteFile(v, offset, source, k);
    }
  }

  lemma CleanWriteFile(v: Vfs, offset: nat, source: seq<Byte>)
    requires Inv(v) && source != [] && FullPages(Written(v, offset, source))
    requires GapStoredClean(v, FirstPage(offset, v.cfg.pageSize))
    ensures File(Written(v, offset, source)) == FlatWrite(File(v), v.cfg.pageSize, offset, source)
  {
    var w := Written(v, offset, source);
    var flat := FlatWrite(File(v), v.cfg.pageSize, offset, source);
    FlatWriteSize(v, offset, source);
    forall i: nat | i < w.size * v.cfg.pageSize ensures FileByte(w, i) == flat[i] {
      PageOfByte(w, i);
      WrittenAgainstFlat(v, offset, source, i);
    }
    FileIs(w, flat);
  }

  lemma DirtyWriteFile(v: Vfs, offset: nat, source: seq<Byte>, k: nat)
    requires Inv(v) && source != [] && FullPages(Written(v, offset, source))
    requires v.size < k < FirstPage(offset, v.cfg.pageSize)
    requires k in v.store.pages && v.store.pages[k] != Zeros(v.cfg.pageSize)
    ensures File(Written(v, offset, source)) != FlatWrite(File(v), v.cfg.pageSize, offset, source)
  {
    var j :| 0 <= j < v.cfg.pageSize && v.store.pages[k][j] != 0;
    var i := GapByte(v, offset, source, k, j);
    FlatWriteSize(v, offset, source);
    WrittenAgainstFlat(v, offset, source, i);
    FileDiffers(Written(v, offset, source), FlatWrite(File(v), v.cfg.pageSize, offset, source), i);
  }

  lemma FileIs(v: Vfs, bytes: seq<Byte>)
    requires EvenPages(v) && |bytes| == v.size * v.cfg.pageSize
    requires forall i: nat :: i < |bytes| ==> FileByte(v, i) == bytes[i]
    ensures File(v) == bytes
  {
  }

  lemma FileDiffers(v: Vfs, bytes: seq<Byte>, i: nat)
    requires FullPages(v) && i < |bytes| && i < v.size * v.cfg.pageSize && FileByte(v, i) != bytes[i]
    ensures File(v) != bytes
  {
    assert File(v)[i] == FileByte(v, i);
  }

  /** Byte `j` of page `k` in a file of `n` pages. */
  lemma ByteOfPage(k: nat, j: nat, pageSize: nat, n: nat) returns (i: nat)
    requires 1 <= k <= n && j < pageSize
    ensures i / pageSize + 1 == k && i % pageSize == j && i < n * pageSize
  {
    i := (k - 1) * pageSize + j;
    DivModUnique(i, pageSize, k - 1, j);
    MulMonotone(k, n, pageSize);
    assert k * pageSize == (k - 1) * pageSize + pageSize;
  }

  /** Where byte `j` of a skipped page lies. */
  lemma GapByte(v: Vfs, offset: nat, source: seq<Byte>, k: nat, j: nat) returns (i: nat)
    requires Cut(v.cfg) == v.cfg.pageSize && source != []
    requires v.size < k < FirstPage(offset, v.cfg.pageSize) && j < v.cfg.pageSize
    ensures i / v.cfg.pageSize + 1 == k && i % v.cfg.pageSize == j
    ensures k <= Written(v, offset, source).size && i < Written(v, offset, source).size * v.cfg.pageSize
  {
    CeilIsLastPage(offset + |source|, v.cfg.pageSize);
    DivMonotone(offset, offset + |source| - 1, v.cfg.pageSize);
    i := ByteOfPage(k, j, v.cfg.pageSize, Written(v, offset, source).size);
  }

  // What reads see, which is what the caches say as long as they are alive.

  ghost function SeenFile(v: Vfs): seq<Byte> { ReadBuffer(v, 0, FileSize(v)) }

  function Later(v: Vfs, elapsed: nat): Vfs { v.(now := v.now + elapsed) }

  /** Every reader, now and after any wait, sees `bytes`. */
  ghost predicate AlwaysSeen(v: Vfs, bytes: seq<Byte>)
  {
    forall elapsed :: SeenFile(Later(v, elapsed)) == bytes
  }

  lemma SeenIsFile(v: Vfs)
    requires Inv(v)
    ensures SeenFile(v) == File(v)
  {
    forall i: nat | i < v.size * v.cfg.pageSize ensures BufferByte(v, i) == FileByte(v, i) {
      PageOfByte(v, i);
      BufferByteIsFileByte(v, i);
    }
  }

  ghost predicate DirtyGap(v: Vfs, k: nat)
  {
    if k in v.store.pages then v.store.pages[k] != Zeros(v.cfg.pageSize) else !Harmless(v, k)
  }

  lemma SomeDirtyGap(v: Vfs, first: nat) returns (k: nat)
    requires !GapClean(v, first)
    ensures v.size < k < first && DirtyGap(v, k)
  {
    if GapStoredClean(v, first) {
      k :| v.size < k < first && k !in v.store.pages && !Harmless(v, k);
    } else {
      k :| v.size < k < first && k in v.store.pages && v.store.pages[k] != Zeros(v.cfg.pageSize);
    }
  }

  /** A moment at which a page that is not clean is seen with other bytes than zeros. */
  lemma DirtyGapShows(v: Vfs, k: nat) returns (elapsed: nat)
    requires Inv(v) && k > v.size && DirtyGap(v, k)
    ensures PageOr(Resolve(Later(v, elapsed), k), v.cfg.pageSize) != Zeros(v.cfg.pageSize)
  {
    elapsed := 0;
    if k in v.store.pages {
      CachedIsCommitted(v, k);
    } else {
      elapsed := OtherPageShows(v, k, Zeros(v.cfg.pageSize));
    }
  }

  /** If the caches do not say `page`, a reader sees another one: at once, or once a committed copy that hides it has
      expired. */
  lemma OtherPageShows(v: Vfs, k: nat, page: Page) returns (elapsed: nat)
    requires Coherent(v) && !Says(v, k, page)
    ensures CachedPage(Later(v, elapsed), k).Some? && CachedPage(Later(v, elapsed), k).value != page
  {
    elapsed := 0;
    if k in v.committedCache && Live(v, v.committedCache[k]) && v.committedCache[k].bytes == page {
      elapsed := v.committedCache[k].at + v.cfg.ttl - v.now;
    }
  }

  lemma StaysSeen(v: Vfs)
    requires Inv(v)
    ensures AlwaysSeen(v, File(v))
  {
    forall elapsed ensures SeenFile(Later(v, elapsed)) == File(v) {
      SeenLater(v, elapsed);
    }
  }

  lemma SeenLater(v: Vfs, elapsed: nat)
    requires Inv(v)
    ensures SeenFile(Later(v, elapsed)) == File(v)
  {
    TickKeepsInv(v, elapsed);
    SeenIsFile(Later(v, elapsed));
  }

  /** A write is the flat file's write for every reader, now and after any wait, if and only if the pages it skips over are
      clean. */
  lemma WriteRefinesIff(v: Vfs, offset: nat, source: seq<Byte>)
    requires Inv(v) && source != []
    ensures FullPages(Written(v, offset, source))
    ensures AlwaysSeen(Written(v, offset, source), FlatWrite(File(v), v.cfg.pageSize, offset, source))
      <==> GapClean(v, FirstPage(offset, v.cfg.pageSize))
  {
    var first := FirstPage(offset, v.cfg.pageSize);
    WrittenIsFull(v, offset, source);
    if GapClean(v, first) {
      CleanWriteRefines(v, offset, source);
      StaysSeen(Written(v, offset, source));
    } else {
      var k := SomeDirtyGap(v, first);
      var elapsed := DirtyGapShows(v, k);
      GapSeen(v, offset, source, k, elapsed);
    }
  }

  lemma SkippedResolves(v: Vfs, offset: nat, source: seq<Byte>, k: nat, elapsed: nat)
    requires Cut(v.cfg) == v.cfg.pageSize && source != [] && k < FirstPage(offset, v.cfg.pageSize)
    ensures Resolve(Later(Written(v, offset, source), elapsed), k) == Resolve(Later(v, elapsed), k)
  {
    assert !AtOrAfter(k, FirstPage(offset, v.cfg.pageSize));
  }

  lemma SeenDiffers(v: Vfs, bytes: seq<Byte>, i: nat)
    requires FullPages(v) && i < |bytes| && i < v.size * v.cfg.pageSize && BufferByte(v, i) != bytes[i]
    ensures SeenFile(v) != bytes
  {
    assert SeenFile(v)[i] == BufferByte(v, i);
  }

  lemma GapSeen(v: Vfs, offset: nat, source: seq<Byte>, k: nat, elapsed: nat)
    requires Inv(v) && source != [] && FullPages(Written(v, offset, source))
    requires v.size < k < FirstPage(offset, v.cfg.pageSize)
    requires PageOr(Resolve(Later(v, elapsed), k), v.cfg.pageSize) != Zeros(v.cfg.pageSize)
    ensures SeenFile(Later(Written(v, offset, source), elapsed)) != FlatWrite(File(v), v.cfg.pageSize, offset, source)
  {
    var page := PageOr(Resolve(Later(v, elapsed), k), v.cfg.pageSize);
    var j :| 0 <= j < v.cfg.pageSize && page[j] != 0;
    var i := GapByte(v, offset, source, k, j);
    GapByteIsZero(v, offset, source, i);
    SkippedResolves(v, offset, source, k, elapsed);
    SeenDiffers(Later(Written(v, offset, source), elapsed), FlatWrite(File(v), v.cfg.pageSize, offset, source), i);
  }

  lemma GapByteIsZero(v: Vfs, offset: nat, source: seq<Byte>, i: nat)
    requires Inv(v) && source != [] && i < Written(v, offset, source).size * v.cfg.pageSize
    requires v.size < i / v.cfg.pageSize + 1 < FirstPage(offset, v.cfg.pageSize)
    ensures var flat := FlatWrite(File(v), v.cfg.pageSize, offset, source); i < |flat| && flat[i] == 0
  {
    FlatWriteSize(v, offset, source);
    PageOfByte(v, i);
    BeforeFirst(i, offset, v.cfg.pageSize);
  }

  // ---------------------------------------------------------------- truncation

  lemma TruncateKeepsInv(v: Vfs, size: nat)
    requires Inv(v)
    ensures Inv(Truncate(v, size).0) && Truncate(v, size).0.store == v.store
  {
  }

  /** The pages a truncation brings back are zeros wherever they are stored. */
  ghost predicate TailClean(v: Vfs, size: nat)
  {
    forall k :: v.size < k <= PagesFor(size, Cut(v.cfg)) && k in v.store.pages ==>
      v.store.pages[k] == Zeros(v.cfg.pageSize)
  }

  lemma TruncatedByte(v: Vfs, size: nat, i: nat)
    requires Inv(v) && FullPages(Truncate(v, size).0) && i / v.cfg.pageSize < Truncate(v, size).0.size
    ensures FileByte(Truncate(v, size).0, i) ==
      if i / v.cfg.pageSize < v.size then FileByte(v, i)
      else PageOr(Stored(v, i / v.cfg.pageSize + 1), v.cfg.pageSize)[i % v.cfg.pageSize]
  {
  }

  /** Truncation cuts the flat file at a page boundary; growth is zero-filled if and only if none of the pages it brings
      back is still stored with other bytes. */
  lemma TruncateRefines(v: Vfs, size: int)
    requires Inv(v)
    ensures var (w, ok) := Truncate(v, size);
      && Inv(w)
      && w.store == v.store
      && (ok <==> size >= 0)
      && (!ok ==> File(w) == File(v))
      && (ok ==> (File(w) == FlatTruncate(File(v), v.cfg.pageSize, size) <==> TailClean(v, size)))
  {
    if size >= 0 {
      TruncateKeepsInv(v, size);
      TruncatedFileIff(v, size);
    }
  }

  lemma TruncatedFileIff(v: Vfs, size: nat)
    requires Inv(v) && FullPages(Truncate(v, size).0)
    ensures File(Truncate(v, size).0) == FlatTruncate(File(v), v.cfg.pageSize, size) <==> TailClean(v, size)
  {
    if TailClean(v, size) {
      CleanTruncate(v, size);
    } else {
      var k :| v.size < k <= PagesFor(size, v.cfg.pageSize) && k in v.store.pages
        && v.store.pages[k] != Zeros(v.cfg.pageSize);
      DirtyTruncate(v, size, k);
    }
  }

  lemma CleanTruncate(v: Vfs, size: nat)
    requires Inv(v) && FullPages(Truncate(v, size).0) && TailClean(v, size)
    ensures File(Truncate(v, size).0) == FlatTruncate(File(v), v.cfg.pageSize, size)
  {
    var w := Truncate(v, size).0;
    var flat := FlatTruncate(File(v), v.cfg.pageSize, size);
    forall i: nat | i < w.size * v.cfg.pageSize ensures FileByte(w, i) == flat[i] {
      PageOfByte(w, i);
      PageOfByte(v, i);
      TruncatedByte(v, size, i);
    }
    FileIs(w, flat);
  }

  lemma DirtyTruncate(v: Vfs, size: nat, k: nat)
    requires Inv(v) && FullPages(Truncate(v, size).0) && v.size < k <= Truncate(v, size).0.size
    requires k in v.store.pages && v.store.pages[k] != Zeros(v.cfg.pageSize)
    ensures File(Truncate(v, size).0) != FlatTruncate(File(v), v.cfg.pageSize, size)
  {
    var j :| 0 <= j < v.cfg.pageSize && v.store.pages[k][j] != 0;
    var i := ByteOfPage(k, j, v.cfg.pageSize, Truncate(v, size).0.size);
    TruncatedByte(v, size, i);
    PageOfByte(v, i);
    FileDiffers(Truncate(v, size).0, FlatTruncate(File(v), v.cfg.pageSize, size), i);
  }

  lemma WholePagesFor(n: nat, pageSize: nat)
    requires pageSize > 0
    ensures PagesFor(n * pageSize, pageSize) == n && FirstPage(n * pageSize, pageSize) == n + 1
  {
    DivModUnique(n * pageSize + pageSize - 1, pageSize, n, pageSize - 1);
    DivModUnique(n * pageSize, pageSize, n, 0);
  }

  /** Cutting a stored page off and growing over it again brings its old bytes back, from every registered database and
      for every page that is not all zeros: by truncation, and by writing behind it. */
  lemma OldPageComesBack(v: Vfs, k: nat, source: seq<Byte>)
    requires Opened(v) && k in v.store.pages && v.store.pages[k] != Zeros(v.cfg.pageSize)
    requires source != []
    ensures Inv(v) && Allowed(v, OpTruncate((k - 1) * v.cfg.pageSize))
    ensures var P := v.cfg.pageSize;
      var cut := Truncate(v, (k - 1) * P).0;
      && Inv(cut) && cut.size == k - 1
      && File(Truncate(cut, k * P).0) != FlatTruncate(File(cut), P, k * P)
      && FullPages(Written(cut, k * P, source))
      && File(Written(cut, k * P, source)) != FlatWrite(File(cut), P, k * P, source)
  {
    var P := v.cfg.pageSize;
    WholePagesFor(k - 1, P);
    TruncateKeepsInv(v, (k - 1) * P);
    GrowthOverOldPage(Truncate(v, (k - 1) * P).0, k, k * P, source);
  }

  lemma GrowthOverOldPage(v: Vfs, k: nat, end: nat, source: seq<Byte>)
    requires Inv(v) && v.size + 1 == k && end == k * v.cfg.pageSize && source != []
    requires k in v.store.pages && v.store.pages[k] != Zeros(v.cfg.pageSize)
    ensures File(Truncate(v, end).0) != FlatTruncate(File(v), v.cfg.pageSize, end)
    ensures FullPages(Written(v, end, source))
    ensures File(Written(v, end, source)) != FlatWrite(File(v), v.cfg.pageSize, end, source)
  {
    WholePagesFor(k, v.cfg.pageSize);
    assert !TailClean(v, end);
    assert !GapStoredClean(v, FirstPage(end, v.cfg.pageSize));
    TruncateRefines(v, end);
    WrittenFileIff(v, end, source);
  }

  // ---------------------------------------------------------------- commits

  /** Committing hides no buffered page behind an old copy: always so where committed pages are kept. */
  ghost predicate CommitClean(v: Vfs)
  {
    Caching(v.cfg) || forall k :: k in v.dirty ==> Says(v, k, v.dirty[k])
  }

  function Committed(v: Vfs): Vfs { AfterCommit(v).(inAtomicWrite := false) }

  lemma CommittedIsFull(v: Vfs)
    requires Inv(v)
    ensures FullPages(Committed(v)) && FullPages(AfterCommit(v))
  {
  }

  lemma CommitKeepsInv(v: Vfs)
    requires Inv(v) && CommitClean(v)
    ensures Inv(Committed(v))
  {
    var w := Committed(v);
    CommittedIsFull(v);
    forall k | k !in w.store.pages && 1 <= k <= w.size ensures Harmless(w, k) {
      assert k !in v.dirty && k !in v.store.pages;
      assert Harmless(v, k);
    }
    CommitCoherent(v);
  }

  lemma CommitCoherent(v: Vfs)
    requires Inv(v) && CommitClean(v)
    ensures Coherent(Committed(v))
  {
    var w := Committed(v);
    forall k | k in w.store.pages ensures Says(w, k, w.store.pages[k]) {
      if k !in v.dirty { assert Says(v, k, v.store.pages[k]); }
    }
  }

  /** Committing makes the visible file the stored file, and keeps what the caches say in step with it unless an old copy
      of a committed page stays in front. */
  lemma CommitRefines(v: Vfs)
    requires Inv(v)
    ensures var w := Committed(v);
      FullPages(w) && File(w) == File(v) && StoredFile(w) == File(v) && (CommitClean(v) ==> Inv(w))
  {
    var w := Committed(v);
    CommittedIsFull(v);
    if CommitClean(v) { CommitKeepsInv(v); }
    FilesAgree(v, w);
    FilesAgree(w, w.(dirty := map[], size := w.store.size));
  }

  /** After a commit every reader goes on seeing the file if and only if no old copy of a committed page stays in front. */
  lemma CommitSeenIff(v: Vfs)
    requires Inv(v)
    ensures FullPages(Committed(v))
    ensures AlwaysSeen(Committed(v), File(v)) <==> CommitClean(v)
  {
    CommitRefines(v);
    if CommitClean(v) {
      StaysSeen(Committed(v));
    } else {
      var k :| k in v.dirty && !Says(v, k, v.dirty[k]);
      OldCopySeen(v, k);
    }
  }

  lemma CommitLeavesCaches(v: Vfs, k: nat, elapsed: nat)
    requires !Caching(v.cfg) && CachedPage(Later(v, elapsed), k).Some?
    ensures Resolve(Later(Committed(v), elapsed), k) == CachedPage(Later(v, elapsed), k)
  {
    assert Committed(v).committedCache == v.committedCache;
  }

  lemma OldCopySeen(v: Vfs, k: nat)
    requires Inv(v) && FullPages(Committed(v)) && !Caching(v.cfg) && k in v.dirty && !Says(v, k, v.dirty[k])
    ensures !AlwaysSeen(Committed(v), File(v))
  {
    var w := Committed(v);
    var elapsed := OtherPageShows(v, k, v.dirty[k]);
    CommitLeavesCaches(v, k, elapsed);
    OtherPageSeen(v, Later(w, elapsed), k);
  }

  lemma OtherPageSeen(v: Vfs, w: Vfs, k: nat)
    requires FullPages(v) && FullPages(w) && v.cfg == w.cfg && v.size == w.size && 1 <= k <= v.size && k in v.dirty
    requires PageOr(Resolve(w, k), v.cfg.pageSize) != v.dirty[k]
    ensures SeenFile(w) != File(v)
  {
    var page := PageOr(Resolve(w, k), v.cfg.pageSize);
    var j :| 0 <= j < v.cfg.pageSize && page[j] != v.dirty[k][j];
    var i := ByteOfPage(k, j, v.cfg.pageSize, v.size);
    FileAt(v, i);
    BufferByteIs(w, i);
    SeenDiffers(w, File(v), i);
  }

  lemma FileAt(v: Vfs, i: nat)
    requires EvenPages(v) && i < v.size * v.cfg.pageSize
    ensures i < |File(v)| && File(v)[i] == FileByte(v, i)
  {
  }

  /** A request reaches the store and is accepted. */
  predicate Sends(v: Vfs, transport: Transport) { !v.dead && v.dirty != map[] && transport.Answers? }

  /** A flush that reports success makes the visible file the stored file exactly when it had something to send
      or the two already had one size: a truncation alone never reaches the store. */
  lemma FlushRefines(v: Vfs, transport: Transport)
    requires Inv(v)
    ensures var (w, ok) := Flush(v, transport);
      && FullPages(w)
      && File(w) == File(v)
      && (ok <==> !v.dead && (v.inAtomicWrite || v.dirty == map[] || transport.Answers?))
      && (v.inAtomicWrite || v.dirty == map[] ==> w == v)
      && (!v.inAtomicWrite && Sends(v, transport) ==> w == AfterCommit(v) && ok)
      && ((!v.inAtomicWrite && Sends(v, transport) ==> CommitClean(v)) ==> Inv(w))
      && (v.inAtomicWrite || !ok ==> w.store == v.store)
      && (!v.inAtomicWrite && ok ==> (StoredFile(w) == File(w) <==> v.dirty != map[] || v.size == v.store.size))
  {
    var (w, ok) := Flush(v, transport);
    DeadKeepsInv(v);
    if !v.inAtomicWrite && Sends(v, transport) {
      CommitRefines(v);
      assert w == Committed(v);
    } else if !v.inAtomicWrite && ok {
      StoredFileIsFile(v);
    }
  }

  /** A sync is a flush, except that it first reports a commit error left over from an atomic write, once. */
  lemma SyncRefines(v: Vfs, transport: Transport)
    requires Inv(v)
    ensures var (w, ok) := Sync(v, transport);
      && FullPages(w) && File(w) == File(v)
      && ((!v.deferredError && !v.inAtomicWrite && Sends(v, transport) ==> CommitClean(v)) ==> Inv(w))
      && (v.deferredError ==> !ok && w == v.(deferredError := false))
      && (!v.deferredError ==> (w, ok) == Flush(v, transport))
  {
    FlushRefines(v, transport);
    DeferredKeepsInv(v, false);
  }

  lemma StoredFileIsFile(v: Vfs)
    requires FullPages(v) && v.dirty == map[]
    ensures StoredFile(v) == File(v) <==> v.size == v.store.size
  {
    if v.size == v.store.size {
      assert v.(dirty := map[], size := v.store.size) == v;
    } else {
      SizesDiffer(v.size, v.store.size, v.cfg.pageSize);
      assert |StoredFile(v)| == v.store.size * v.cfg.pageSize;
      assert |File(v)| == v.size * v.cfg.pageSize;
    }
  }

  lemma SizesDiffer(a: nat, b: nat, d: nat)
    requires a != b && d > 0
    ensures a * d != b * d
  {
    if a < b { MulMonotone(a + 1, b, d); } else { MulMonotone(b + 1, a, d); }
  }

  lemma BeginKeepsInv(v: Vfs)
    requires Inv(v) && v.dirty == map[]
    ensures Inv(BeginAtomic(v)) && File(BeginAtomic(v)) == File(v) == SavedFile(BeginAtomic(v))
  {
    var w := BeginAtomic(v);
    forall k | Harmless(v, k) ensures Harmless(w, k) {}
    FilesAgree(v, w);
    assert w.(dirty := map[], size := w.savedSize) == w;
  }

  /** Opening an atomic write keeps the visible file exactly when every buffered page already equals the store's. */
  lemma BeginKeepsFileIff(v: Vfs)
    requires Inv(v)
    ensures File(BeginAtomic(v)) == File(v)
      <==> forall k :: k in v.dirty ==> v.dirty[k] == PageOr(Stored(v, k), v.cfg.pageSize)
  {
    if k :| k in v.dirty && v.dirty[k] != PageOr(Stored(v, k), v.cfg.pageSize) {
      BeginLosesPage(v, k);
    } else {
      FilesAgree(v, BeginAtomic(v));
    }
  }

  lemma BeginLosesPage(v: Vfs, k: nat)
    requires FullPages(v) && 1 <= k <= v.size
    requires k in v.dirty && v.dirty[k] != PageOr(Stored(v, k), v.cfg.pageSize)
    ensures File(BeginAtomic(v)) != File(v)
  {
    var P := v.cfg.pageSize;
    var w := BeginAtomic(v);
    var lost := PageOr(Stored(v, k), P);
    var j :| 0 <= j < P && v.dirty[k][j] != lost[j];
    var i := (k - 1) * P + j;
    DivModUnique(i, P, k - 1, j);
    MulMonotone(k, v.size, P);
    assert k * P == (k - 1) * P + P;
    assert FileByte(v, i) == v.dirty[k][j];
    assert FileByte(w, i) == lost[j];
    assert File(v)[i] == FileByte(v, i) && File(w)[i] == FileByte(w, i);
  }

  /** Rolling back returns to the file seen when the atomic write was opened. */
  lemma RollbackRefines(v: Vfs)
    requires Inv(v) && v.inAtomicWrite
    ensures Inv(RollbackAtomic(v)) && File(RollbackAtomic(v)) == SavedFile(v)
    ensures RollbackAtomic(v).store == v.store && !RollbackAtomic(v).inAtomicWrite
  {
    var w := RollbackAtomic(v);
    forall k | Harmless(v, k) ensures Harmless(w, k) {}
    FilesAgree(w, v.(dirty := map[], size := v.savedSize));
  }

  lemma IdleKeepsInv(v: Vfs)
    requires Inv(v)
    ensures Inv(v.(inAtomicWrite := false)) && File(v.(inAtomicWrite := false)) == File(v)
  {
    var w := v.(inAtomicWrite := false);
    forall k | Harmless(v, k) ensures Harmless(w, k) {}
    FilesAgree(v, w);
  }

  /** An atomic commit changes no visible byte; a successful one leaves the file usable and stores it under the same
      condition as a flush. */
  lemma AtomicCommitRefines(v: Vfs, transport: Transport)
    requires Inv(v)
    ensures FullPages(CommitAtomic(v, transport).0)
    ensures (v.inAtomicWrite && Sends(v, transport) ==> CommitClean(v)) ==> Inv(CommitAtomic(v, transport).0)
    ensures File(CommitAtomic(v, transport).0) == File(v)
    ensures var (w, ok) := CommitAtomic(v, transport);
      && (!ok ==> w.store == v.store && w.inAtomicWrite == v.inAtomicWrite
                  && w == if v.dead || transport.Fails? then v.(deferredError := true) else v.(dead := true))
      && (v.inAtomicWrite && ok ==>
            && !w.inAtomicWrite && !w.dead && w.deferredError == v.deferredError
            && (StoredFile(w) == File(w) <==> v.dirty != map[] || v.size == v.store.size))
  {
    var (w, ok) := CommitAtomic(v, transport);
    DeferredKeepsInv(v, true);
    if w == v || w == v.(deferredError := true) {
    } else if w == v.(dead := true) {
      DeadKeepsInv(v);
    } else if v.dirty == map[] {
      IdleKeepsInv(v);
      StoredFileIsFile(w);
    } else {
      CommitRefines(v);
    }
  }

  lemma DeferredKeepsFiles(v: Vfs, deferred: bool)
    requires FullPages(v)
    ensures var w := v.(deferredError := deferred);
      FullPages(w) && File(w) == File(v) && StoredFile(w) == StoredFile(v)
  {
    var w := v.(deferredError := deferred);
    FilesAgree(w, v);
    FilesAgree(w.(dirty := map[], size := w.store.size), v.(dirty := map[], size := v.store.size));
  }

  /** Closing keeps the file, and a close that reports success has stored it, an atomic write that was left open included,
      under the same condition as a flush. */
  lemma CloseRefines(v: Vfs, skipFlush: bool, transport: Transport)
    requires Inv(v)
    ensures var (w, ok) := Close(v, skipFlush, transport);
      && FullPages(w) && File(w) == File(v)
      && (ok <==> skipFlush || (!v.inAtomicWrite && v.dirty == map[])
                  || (!v.dead && (v.dirty == map[] || transport.Answers?)))
      && (skipFlush || !ok ==> w.store == v.store)
      && w.deferredError == v.deferredError
      && (w.dead <==> v.dead || (!skipFlush && v.dirty != map[] && transport.FenceLost?))
      && (ok && !skipFlush ==> (StoredFile(w) == File(w) <==> v.dirty != map[] || v.size == v.store.size))
  {
    if skipFlush {
    } else if v.inAtomicWrite {
      AtomicCommitRefines(v, transport);
      DeferredKeepsFiles(CommitAtomic(v, transport).0, v.deferredError);
    } else if v.dirty != map[] {
      FlushRefines(v, transport);
    } else {
      StoredFileIsFile(v);
    }
  }

  lemma TickKeepsInv(v: Vfs, elapsed: nat)
    requires Inv(v)
    ensures Inv(v.(now := v.now + elapsed)) && File(v.(now := v.now + elapsed)) == File(v)
  {
    var w := v.(now := v.now + elapsed);
    forall k | Harmless(v, k) ensures Harmless(w, k) {}
    FilesAgree(v, w);
  }

  // ---------------------------------------------------------------- whole runs

  datatype Op =
    | OpRead(offset: int, length: nat, predicted: set<nat>, transport: Transport)
    | OpWrite(at: int, source: seq<Byte>, transport: Transport)
    | OpTruncate(newSize: int)
    | OpSync(transport: Transport)
    | OpBegin
    | OpCommit(transport: Transport)
    | OpRollback
    | OpTick(elapsed: nat)

  datatype Out = Bytes(result: ReadResult) | Done(ok: bool)

  function Step(v: Vfs, op: Op): (Vfs, Out)
  {
    match op
    case OpRead(offset, length, predicted, t) => var (w, r) := Read(v, offset, length, predicted, t); (w, Bytes(r))
    case OpWrite(offset, source, t) => var (w, ok) := Write(v, offset, source, t); (w, Done(ok))
    case OpTruncate(size) => var (w, ok) := Truncate(v, size); (w, Done(ok))
    case OpSync(t) => var (w, ok) := Sync(v, t); (w, Done(ok))
    case OpBegin => (BeginAtomic(v), Done(true))
    case OpCommit(t) => var (w, ok) := CommitAtomic(v, t); (w, Done(ok))
    case OpRollback => (RollbackAtomic(v), Done(true))
    case OpTick(elapsed) => (v.(now := v.now + elapsed), Done(true))
  }

  /** What SQLite does: an atomic write opens on an empty buffer and only an open one is rolled back; and neither growth nor
      a commit runs into the cases above in which an old page comes back or stays in front. */
  ghost predicate Allowed(v: Vfs, op: Op)
  {
    match op
    case OpWrite(offset, _, _) => offset >= 0 ==> GapClean(v, FirstPage(offset, Cut(v.cfg)))
    case OpTruncate(size) => size >= 0 ==> TailClean(v, size)
    case OpSync(t) => !v.deferredError && !v.inAtomicWrite && Sends(v, t) ==> CommitClean(v)
    case OpBegin => v.dirty == map[]
    case OpCommit(t) => v.inAtomicWrite && Sends(v, t) ==> CommitClean(v)
    case OpRollback => v.inAtomicWrite
    case _ => true
  }

  /** The specification: a byte sequence, and the one to return to on rollback. */
  datatype Flat = Flat(bytes: seq<Byte>, saved: seq<Byte>)

  ghost function FlatStep(f: Flat, pageSize: nat, op: Op, out: Out): Flat
    requires pageSize > 0
  {
    match op
    case OpWrite(offset, source, _) =>
      if out.Done? && out.ok && source != [] && offset >= 0
      then f.(bytes := FlatWrite(f.bytes, pageSize, offset, source)) else f
    case OpTruncate(size) =>
      if out.Done? && out.ok && size >= 0 then f.(bytes := FlatTruncate(f.bytes, pageSize, size)) else f
    case OpBegin => f.(saved := f.bytes)
    case OpRollback => f.(bytes := f.saved)
    case _ => f
  }

  ghost predicate OutMatches(f: Flat, op: Op, out: Out)
  {
    op.OpRead? ==>
      && out.Bytes?
      && (op.length > 0 && !out.result.ReadError? ==> ReadMatches(f.bytes, op.offset, op.length, out.result))
  }

  ghost predicate Rel(v: Vfs, f: Flat)
  {
    Inv(v) && File(v) == f.bytes && (v.inAtomicWrite ==> SavedFile(v) == f.saved)
  }

  lemma SavedFileKept(v: Vfs, w: Vfs)
    requires FullPages(v) && FullPages(w)
    requires v.cfg == w.cfg && v.store == w.store && v.savedSize == w.savedSize
    ensures SavedFile(v) == SavedFile(w)
  {
    FilesAgree(v.(dirty := map[], size := v.savedSize), w.(dirty := map[], size := w.savedSize));
  }

  /** Parts of the state that only a commit, a begin or a rollback may change. */
  lemma StepFrame(v: Vfs, op: Op)
    ensures Step(v, op).0.cfg == v.cfg
    ensures v.inAtomicWrite && !op.OpCommit? ==> Step(v, op).0.store == v.store
    ensures op.OpCommit? && !Step(v, op).1.ok ==> Step(v, op).0.store == v.store
    ensures !op.OpBegin? ==> Step(v, op).0.savedSize == v.savedSize
    ensures !op.OpBegin? && !op.OpRollback? && !(op.OpCommit? && Step(v, op).1.ok)
      ==> Step(v, op).0.inAtomicWrite == v.inAtomicWrite
    ensures op.OpCommit? && v.inAtomicWrite && Step(v, op).1.ok ==> !Step(v, op).0.inAtomicWrite
    ensures op.OpCommit? && !v.inAtomicWrite && Step(v, op).1.ok ==> Step(v, op).0 == v
  {
    if MovesData(op) { DataFrame(v, op); }
  }

  lemma DataFrame(v: Vfs, op: Op)
    requires MovesData(op)
    ensures var w := Step(v, op).0;
      w.cfg == v.cfg && w.store == v.store && w.savedSize == v.savedSize && w.inAtomicWrite == v.inAtomicWrite
  {
  }

  predicate MovesData(op: Op) { op.OpRead? || op.OpWrite? || op.OpTruncate? }

  lemma DataStepRefines(v: Vfs, f: Flat, op: Op)
    requires Inv(v) && File(v) == f.bytes && Allowed(v, op) && MovesData(op)
    ensures Inv(Step(v, op).0) && OutMatches(f, op, Step(v, op).1)
    ensures File(Step(v, op).0) == FlatStep(f, v.cfg.pageSize, op, Step(v, op).1).bytes
  {
    match op
    case OpRead(offset, length, predicted, t) =>
      ReadKeepsFile(v, offset, length, predicted, t);
      if length > 0 { ReadRefines(v, offset, length, predicted, t); }
    case OpWrite(offset, source, t) => WriteRefines(v, offset, source, t);
    case OpTruncate(size) => TruncateRefines(v, size);
  }

  lemma StoreStepRefines(v: Vfs, op: Op)
    requires Inv(v) && Allowed(v, op) && (op.OpSync? || op.OpCommit? || op.OpTick?)
    ensures Inv(Step(v, op).0) && File(Step(v, op).0) == File(v)
  {
    match op
    case OpSync(t) => SyncRefines(v, t);
    case OpCommit(t) => AtomicCommitRefines(v, t);
    case OpTick(elapsed) => TickKeepsInv(v, elapsed);
  }

  lemma BracketStepRefines(v: Vfs, f: Flat, op: Op)
    requires Inv(v) && File(v) == f.bytes && (v.inAtomicWrite ==> SavedFile(v) == f.saved)
    requires Allowed(v, op) && !MovesData(op)
    ensures Inv(Step(v, op).0) && (op.OpBegin? ==> SavedFile(Step(v, op).0) == File(v))
    ensures File(Step(v, op).0) == FlatStep(f, v.cfg.pageSize, op, Step(v, op).1).bytes
  {
    if op.OpBegin? {
      BeginKeepsInv(v);
    } else if op.OpRollback? {
      RollbackRefines(v);
    } else {
      StoreStepRefines(v, op);
    }
  }

  lemma StepKeepsInv(v: Vfs, op: Op)
    requires Inv(v) && Allowed(v, op)
    ensures Inv(Step(v, op).0)
  {
    var f := Flat(File(v), SavedFile(v));
    if MovesData(op) { DataStepRefines(v, f, op); } else { BracketStepRefines(v, f, op); }
  }

  /** One step of the page store is one step of the byte file. */
  lemma StepRefines(v: Vfs, f: Flat, op: Op)
    requires Rel(v, f) && Allowed(v, op)
    ensures Rel(Step(v, op).0, FlatStep(f, v.cfg.pageSize, op, Step(v, op).1))
    ensures OutMatches(f, op, Step(v, op).1)
  {
    var w := Step(v, op).0;
    if MovesData(op) { DataStepRefines(v, f, op); } else { BracketStepRefines(v, f, op); }
    StepFrame(v, op);
    if w.inAtomicWrite && !op.OpBegin? && w.store == v.store { SavedFileKept(v, w); }
  }

  ghost predicate AllAllowed(v: Vfs, ops: seq<Op>)
    decreases |ops|
  {
    ops == [] || (Allowed(v, ops[0]) && AllAllowed(Step(v, ops[0]).0, ops[1..]))
  }

  ghost function Exec(v: Vfs, ops: seq<Op>): Vfs
    decreases |ops|
  {
    if ops == [] then v else Exec(Step(v, ops[0]).0, ops[1..])
  }

  ghost function FlatExec(v: Vfs, f: Flat, ops: seq<Op>): Flat
    decreases |ops|
  {
    if ops == [] then f
    else
      var (w, out) := Step(v, ops[0]);
      FlatExec(w, FlatStep(f, Cut(v.cfg), ops[0], out), ops[1..])
  }

  ghost predicate OutsMatch(v: Vfs, f: Flat, ops: seq<Op>)
    decreases |ops|
  {
    ops == [] ||
    var (w, out) := Step(v, ops[0]);
    OutMatches(f, ops[0], out) && OutsMatch(w, FlatStep(f, Cut(v.cfg), ops[0], out), ops[1..])
  }

  /** Over every run the page store is indistinguishable from a flat byte file. */
  lemma {:induction false} RunRefines(v: Vfs, f: Flat, ops: seq<Op>)
    requires Rel(v, f) && AllAllowed(v, ops)
    ensures Rel(Exec(v, ops), FlatExec(v, f, ops))
    ensures OutsMatch(v, f, ops)
    decreases |ops|
  {
    if ops != [] {
      StepRefines(v, f, ops[0]);
      var (w, out) := Step(v, ops[0]);
      RunRefines(w, FlatStep(f, v.cfg.pageSize, ops[0], out), ops[1..]);
    }
  }

  // What fails, and when.

  /** A page of the range, up to page `last`, is neither buffered nor cached. */
  ghost predicate Misses(v: Vfs, offset: nat, length: nat, last: nat)
  {
    exists k: nat :: offset / Cut(v.cfg) < k <= last && (k - 1) * Cut(v.cfg) < offset + length
      && k !in v.dirty && CachedPage(v, k).None?
  }

  /** Whether an operation sends a request. */
  ghost predicate Asks(v: Vfs, op: Op)
  {
    !v.dead &&
    match op
    case OpRead(offset, length, _, _) => offset >= 0 && length > 0 && Misses(v, offset, length, offset + length)
    case OpWrite(offset, source, _) =>
      && offset >= 0 && source != [] && (offset % Cut(v.cfg) != 0 || |source| % Cut(v.cfg) != 0)
      && Misses(v, offset, |source|, v.size)
    case OpSync(_) => !v.deferredError && !v.inAtomicWrite && v.dirty != map[]
    case OpCommit(_) => v.inAtomicWrite && v.dirty != map[]
    case _ => false
  }

  function TransportOf(op: Op): Transport
  {
    match op
    case OpRead(_, _, _, t) => t
    case OpWrite(_, _, t) => t
    case OpSync(t) => t
    case OpCommit(t) => t
    case _ => Answers
  }

  /** The pages of a range are those that start before its end, from the one its first byte lies in. */
  lemma SpanIs(k: nat, offset: nat, length: nat, cut: nat)
    requires cut > 0 && length > 0
    ensures k in Span(offset, length, cut) <==> offset / cut < k && (k - 1) * cut < offset + length
  {
    var end := offset + length - 1;
    DivBounds(end, cut);
    assert AtOrAfter(k, FirstPage(offset, cut)) <==> offset / cut < k;
    if k <= end / cut + 1 { MulMonotone(k - 1, end / cut, cut); }
    if k > end / cut + 1 { MulMonotone(end / cut + 1, k - 1, cut); }
  }

  lemma ReadAsks(v: Vfs, offset: nat, length: nat)
    requires length > 0
    ensures NeedsFetch(v, Span(offset, length, Cut(v.cfg))) <==> Misses(v, offset, length, offset + length)
  {
    var C := Cut(v.cfg);
    if k :| k in Span(offset, length, C) && !Readable(v, k) {
      SpanIs(k, offset, length, C);
      MulMonotone(1, C, k - 1);
      assert (k - 1) * C >= k - 1;
    }
    if k: nat :| offset / C < k <= offset + length && (k - 1) * C < offset + length && k !in v.dirty && CachedPage(v, k).None? {
      SpanIs(k, offset, length, C);
      assert !Readable(v, k);
    }
  }

  lemma WriteAsks(v: Vfs, offset: nat, length: nat)
    requires length > 0
    ensures NeedsFetch(v, PatchTargets(v, offset, length)) <==>
      (offset % Cut(v.cfg) != 0 || length % Cut(v.cfg) != 0) && Misses(v, offset, length, v.size)
  {
    var C := Cut(v.cfg);
    if k :| k in PatchTargets(v, offset, length) && !Readable(v, k) {
      SpanIs(k, offset, length, C);
    }
    if k: nat :| offset / C < k <= v.size && (k - 1) * C < offset + length && k !in v.dirty && CachedPage(v, k).None? {
      SpanIs(k, offset, length, C);
      assert !Readable(v, k);
    }
  }

  /** The file is lost if and only if it was, or a request came back with the fence lost; and a commit error is put off if
      and only if a commit failed otherwise, or one was put off and no sync has reported it. */
  lemma DeadIff(v: Vfs, op: Op)
    ensures Step(v, op).0.dead <==> v.dead || (Asks(v, op) && TransportOf(op).FenceLost?)
    ensures Step(v, op).0.deferredError <==>
      if op.OpCommit? then v.deferredError || v.dead || (Asks(v, op) && TransportOf(op).Fails?)
      else v.deferredError && !op.OpSync?
  {
    if op.OpRead? && op.offset >= 0 && op.length > 0 { ReadAsks(v, op.offset, op.length); }
    if op.OpWrite? && op.at >= 0 && op.source != [] { WriteAsks(v, op.at, |op.source|); }
  }

  /** Each operation succeeds if and only if its argument is legal, the file is not lost and its request, if it sends one,
      is answered; a sync besides has no commit error to report. */
  lemma OutcomeIff(v: Vfs, op: Op)
    requires FullPages(v)
    ensures var out := Step(v, op).1;
      var served := Asks(v, op) ==> TransportOf(op).Answers?;
      match op
      case OpRead(offset, length, _, _) =>
        out.Bytes? && (!out.result.ReadError? <==> length == 0 || (!v.dead && offset >= 0 && served))
      case OpWrite(offset, source, _) => out == Done(source == [] || (!v.dead && offset >= 0 && served))
      case OpTruncate(size) => out == Done(size >= 0)
      case OpSync(_) => out == Done(!v.deferredError && !v.dead && served)
      case OpCommit(_) => out == Done(!v.dead && served)
      case _ => out == Done(true)
  {
    if op.OpRead? && op.offset >= 0 && op.length > 0 {
      ReadEndState(v, op.offset, op.length, op.predicted, op.transport);
      ReadAsks(v, op.offset, op.length);
    }
    if op.OpWrite? && op.at >= 0 && op.source != [] { WriteAsks(v, op.at, |op.source|); }
  }

  /** An atomic write is open from its begin to its rollback or to a commit that succeeds. */
  lemma OpenIff(v: Vfs, op: Op)
    ensures Step(v, op).0.inAtomicWrite <==>
      op.OpBegin? || (v.inAtomicWrite && !op.OpRollback? && !(op.OpCommit? && Step(v, op).1 == Done(true)))
  {
    if MovesData(op) { DataFrame(v, op); }
  }

  /** Which operations touch the caches: a read only its read cache, a truncation empties both, a commit that is accepted
      adds to the committed one, and nothing else does anything to them. */
  lemma CachesChangedBy(v: Vfs, op: Op)
    ensures var w := Step(v, op).0;
      && (w.committedCache != v.committedCache ==> op.OpTruncate? || ((op.OpSync? || op.OpCommit?) && Asks(v, op)))
      && (w.pageCache != v.pageCache ==> op.OpTruncate? || (op.OpRead? && op.offset >= 0 && op.length > 0))
      && (op.OpTruncate? && op.newSize >= 0 ==> w.pageCache == map[] && w.committedCache == map[])
  {
    match op
    case OpRead(offset, length, predicted, t) => ReadLeavesCommitted(v, offset, length, predicted, t);
    case OpWrite(offset, source, t) => WriteLeavesCaches(v, offset, source, t);
    case OpSync(t) => SyncLeavesReads(v, t);
    case OpCommit(t) => CommitLeavesReads(v, t);
    case _ =>
  }

  lemma ReadLeavesCommitted(v: Vfs, offset: int, length: nat, predicted: set<nat>, t: Transport)
    ensures var w := Read(v, offset, length, predicted, t).0;
      && w.committedCache == v.committedCache
      && (offset < 0 || length == 0 ==> w.pageCache == v.pageCache)
  {
  }

  lemma WriteLeavesCaches(v: Vfs, offset: int, source: seq<Byte>, t: Transport)
    ensures var w := Write(v, offset, source, t).0; w.committedCache == v.committedCache && w.pageCache == v.pageCache
  {
  }

  lemma SyncLeavesReads(v: Vfs, t: Transport)
    ensures var w := Sync(v, t).0;
      w.pageCache == v.pageCache && (w.committedCache != v.committedCache ==> Asks(v, OpSync(t)))
  {
  }

  lemma CommitLeavesReads(v: Vfs, t: Transport)
    ensures var w := CommitAtomic(v, t).0;
      w.pageCache == v.pageCache && (w.committedCache != v.committedCache ==> Asks(v, OpCommit(t)))
  {
  }

  /** A read that stumbles over a short page has prefetched all the same. */
  lemma FaultedReadCaches(v: Vfs, offset: nat, length: nat, predicted: set<nat>, k: nat)
    requires !v.dead && length > 0 && !ReadFits(v, offset, length)
    requires Misses(v, offset, length, offset + length) && KeepsPredicted(v, predicted, k)
    requires k !in Span(offset, length, Cut(v.cfg))
    ensures Read(v, offset, length, predicted, Answers).1 == ReadError
    ensures Readable(Read(v, offset, length, predicted, Answers).0, k)
  {
    ReadAsks(v, offset, length);
  }

  /** The answer of a flat file that never fails. */
  ghost predicate Serves(f: Flat, op: Op, out: Out)
  {
    match op
    case OpRead(offset, length, _, _) =>
      out.Bytes? && (length > 0 && offset >= 0 ==> ReadMatches(f.bytes, offset, length, out.result))
    case OpWrite(offset, source, _) => out == Done(source == [] || offset >= 0)
    case OpTruncate(size) => out == Done(size >= 0)
    case _ => out == Done(true)
  }

  ghost predicate AllServed(v: Vfs, f: Flat, ops: seq<Op>)
    decreases |ops|
  {
    ops == [] ||
    var (w, out) := Step(v, ops[0]);
    Serves(f, ops[0], out) && AllServed(w, FlatStep(f, Cut(v.cfg), ops[0], out), ops[1..])
  }

  lemma AnsweredStepServes(v: Vfs, f: Flat, op: Op)
    requires Rel(v, f) && Allowed(v, op) && !v.dead && !v.deferredError && TransportOf(op).Answers?
    ensures Serves(f, op, Step(v, op).1) && !Step(v, op).0.dead && !Step(v, op).0.deferredError
  {
    OutcomeIff(v, op);
    DeadIff(v, op);
    StepRefines(v, f, op);
  }

  /** Over every run whose requests are all answered the file stays usable: every operation with a legal argument succeeds,
      and every read returns the flat file's bytes. */
  lemma {:induction false} AnsweredRunServes(v: Vfs, f: Flat, ops: seq<Op>)
    requires Rel(v, f) && AllAllowed(v, ops) && !v.dead && !v.deferredError
    requires forall i :: 0 <= i < |ops| ==> TransportOf(ops[i]).Answers?
    ensures !Exec(v, ops).dead && AllServed(v, f, ops)
    decreases |ops|
  {
    if ops != [] {
      AnsweredStepServes(v, f, ops[0]);
      StepRefines(v, f, ops[0]);
      var (w, out) := Step(v, ops[0]);
      AnsweredRunServes(w, FlatStep(f, v.cfg.pageSize, ops[0], out), ops[1..]);
    }
  }

  // What the caches are for.

  ghost predicate KeepsPredicted(v: Vfs, predicted: set<nat>, k: nat)
  {
    v.cfg.ttl > 0 && v.cfg.cachesPrefetched && CanReadCached(v.cfg, k) && k in predicted && k in v.store.pages
  }

  /** After a read that had to ask, every predicted page that is stored is at hand, where prefetched pages are kept; and
      the pages read are forgotten again unless the read cache retains them. */
  lemma ReadCaches(v: Vfs, offset: nat, length: nat, predicted: set<nat>, transport: Transport, k: nat)
    requires FullPages(v) && length > 0 && !Read(v, offset, length, predicted, transport).1.ReadError?
    ensures var w := Read(v, offset, length, predicted, transport).0;
      && (Misses(v, offset, length, offset + length) && KeepsPredicted(v, predicted, k)
          && k !in Span(offset, length, v.cfg.pageSize) ==>
            Readable(w, k))
      && (k in Span(offset, length, v.cfg.pageSize) && !v.cfg.retainReads ==> k !in w.pageCache)
      && (k in v.pageCache && (v.cfg.retainReads || k !in Span(offset, length, v.cfg.pageSize)) ==>
            k in w.pageCache && (w.pageCache[k] == v.pageCache[k] || !Readable(v, k)))
  {
    if Misses(v, offset, length, offset + length) && KeepsPredicted(v, predicted, k)
       && k !in Span(offset, length, v.cfg.pageSize) {
      ReadPrefetches(v, offset, length, predicted, transport, k);
    }
    ReadRetains(v, offset, length, predicted, transport, k);
  }

  lemma ReadPrefetches(v: Vfs, offset: nat, length: nat, predicted: set<nat>, transport: Transport, k: nat)
    requires length > 0 && !Read(v, offset, length, predicted, transport).1.ReadError?
    requires Misses(v, offset, length, offset + length) && KeepsPredicted(v, predicted, k)
    requires k !in Span(offset, length, Cut(v.cfg))
    ensures Readable(Read(v, offset, length, predicted, transport).0, k)
  {
    ReadAsks(v, offset, length);
  }

  lemma ReadRetains(v: Vfs, offset: nat, length: nat, predicted: set<nat>, transport: Transport, k: nat)
    requires length > 0 && !Read(v, offset, length, predicted, transport).1.ReadError?
    ensures var w := Read(v, offset, length, predicted, transport).0;
      && (k in Span(offset, length, Cut(v.cfg)) && !v.cfg.retainReads ==> k !in w.pageCache)
      && (k in v.pageCache && (v.cfg.retainReads || k !in Span(offset, length, Cut(v.cfg))) ==>
            k in w.pageCache && (w.pageCache[k] == v.pageCache[k] || !Readable(v, k)))
  {
  }

  /** A committed page is served without asking until it expires, where committed pages are kept. */
  lemma CommittedIsAtHand(v: Vfs, k: nat, elapsed: nat)
    requires Caching(v.cfg) && k in v.dirty && elapsed < v.cfg.ttl
    ensures CachedPage(Later(AfterCommit(v), elapsed), k) == Some(v.dirty[k])
  {
  }

  /** Registration: the first stored pages are put in the read cache. */
  ghost predicate Registered(v: Vfs)
  {
    && v.cfg.pageSize > 0
    && v.dirty == map[] && v.committedCache == map[] && !v.inAtomicWrite && !v.dead && !v.deferredError
    && v.size == v.store.size
    && (forall k :: k in v.store.pages ==> 1 <= k <= v.store.size && |v.store.pages[k]| == v.cfg.pageSize)
    && (forall k :: k in v.pageCache ==> k in v.store.pages && v.pageCache[k] == Entry(v.store.pages[k], v.now))
  }

  /** A registered database with pages that offsets are cut into. */
  ghost predicate Opened(v: Vfs) { Registered(v) && v.cfg.pageSize >= SqliteHeader.DEFAULT_PAGE_SIZE }

  // Pages smaller than the size that offsets are cut by.

  lemma PagesCover(n: nat, d: nat)
    requires d > 0
    ensures PagesFor(n, d) * d >= n
  {
    DivBounds(n + d - 1, d);
    assert (PagesFor(n, d) + 1) * d == PagesFor(n, d) * d + d;
  }

  lemma SmallPagesAreMore(pageSize: nat, m: nat)
    requires 0 < pageSize < SqliteHeader.DEFAULT_PAGE_SIZE && m > 0
    ensures PagesFor(m * SqliteHeader.DEFAULT_PAGE_SIZE, pageSize) > m
  {
    var n := m * SqliteHeader.DEFAULT_PAGE_SIZE;
    var q := PagesFor(n, pageSize);
    PagesCover(n, pageSize);
    assert n > m * pageSize;
    if q <= m { MulMonotone(q, m, pageSize); assert false; }
  }

  /** What a flat file of this page size would measure after growing or shrinking to `n` bytes. */
  function Rounded(cfg: Config, n: nat): nat requires cfg.pageSize > 0 { PagesFor(n, cfg.pageSize) * cfg.pageSize }

  /** Truncation leaves the file as long as asked, in whole pages, for every length if and only if pages are at least as
      large as offsets are cut. */
  lemma TruncateMeasuresIff(v: Vfs)
    requires v.cfg.pageSize > 0
    ensures (forall size: nat :: FileSize(Truncate(v, size).0) == Rounded(v.cfg, size))
      <==> v.cfg.pageSize >= SqliteHeader.DEFAULT_PAGE_SIZE
  {
    var P := v.cfg.pageSize;
    if P < SqliteHeader.DEFAULT_PAGE_SIZE {
      var size := 1 * SqliteHeader.DEFAULT_PAGE_SIZE;
      WholePagesFor(1, SqliteHeader.DEFAULT_PAGE_SIZE);
      SmallPagesAreMore(P, 1);
      SizesDiffer(1, PagesFor(size, P), P);
      assert FileSize(Truncate(v, size).0) != Rounded(v.cfg, size);
    }
  }

  ghost predicate MeasuresWrites(v: Vfs)
    requires v.cfg.pageSize > 0
  {
    forall offset: nat, source: seq<Byte> :: source != [] ==>
      FileSize(Written(v, offset, source)) == Max(FileSize(v), Rounded(v.cfg, offset + |source|))
  }

  /** So with writes: each grows the file by the pages it needs if and only if pages are large enough. */
  lemma WriteMeasuresIff(v: Vfs)
    requires v.cfg.pageSize > 0
    ensures MeasuresWrites(v) <==> v.cfg.pageSize >= SqliteHeader.DEFAULT_PAGE_SIZE
  {
    if v.cfg.pageSize < SqliteHeader.DEFAULT_PAGE_SIZE {
      WriteMismeasured(v, v.size + 1);
    } else {
      forall offset: nat, source: seq<Byte> | source != []
        ensures FileSize(Written(v, offset, source)) == Max(FileSize(v), Rounded(v.cfg, offset + |source|))
      {
        WriteMeasured(v, offset, source);
      }
    }
  }

  lemma WriteMeasured(v: Vfs, offset: nat, source: seq<Byte>)
    requires Cut(v.cfg) == v.cfg.pageSize && source != []
    ensures FileSize(Written(v, offset, source)) == Max(FileSize(v), Rounded(v.cfg, offset + |source|))
  {
    var n := PagesFor(offset + |source|, v.cfg.pageSize);
    if v.size <= n { MulMonotone(v.size, n, v.cfg.pageSize); } else { MulMonotone(n, v.size, v.cfg.pageSize); }
  }

  lemma WriteMismeasured(v: Vfs, m: nat)
    requires 0 < v.cfg.pageSize < SqliteHeader.DEFAULT_PAGE_SIZE && m > v.size
    ensures !MeasuresWrites(v)
  {
    var P := v.cfg.pageSize;
    var end := m * SqliteHeader.DEFAULT_PAGE_SIZE;
    var source: seq<Byte> := [0];
    WholePagesFor(m, SqliteHeader.DEFAULT_PAGE_SIZE);
    SmallPagesAreMore(P, m);
    MulMonotone(v.size, m, P);
    MulMonotone(m + 1, PagesFor(end, P), P);
    assert end - 1 + |source| == end;
    assert Written(v, end - 1, source).size == m;
    assert FileSize(Written(v, end - 1, source)) != Max(FileSize(v), Rounded(v.cfg, end - 1 + |source|));
  }

  /** Every read inside the file is answered with its bytes. */
  ghost predicate ReadsFile(v: Vfs, predicted: set<nat>)
    requires EvenPages(v)
  {
    forall offset: nat, length: nat :: length > 0 && offset + length <= |File(v)| ==>
      Read(v, offset, length, predicted, Answers).1 == ReadOk(File(v)[offset..offset + length])
  }

  /** A registered database can be read if and only if its pages are large enough or there is only one: otherwise the byte
      after the first page is looked for inside it. */
  lemma ReadsFileIff(v: Vfs, predicted: set<nat>)
    requires Registered(v) && 1 in v.store.pages
    ensures EvenPages(v)
    ensures ReadsFile(v, predicted) <==> v.cfg.pageSize >= SqliteHeader.DEFAULT_PAGE_SIZE || v.size == 1
  {
    var P := v.cfg.pageSize;
    if P >= SqliteHeader.DEFAULT_PAGE_SIZE {
      assert Inv(v);
      forall offset: nat, length: nat | length > 0 && offset + length <= |File(v)|
        ensures Read(v, offset, length, predicted, Answers).1 == ReadOk(File(v)[offset..offset + length])
      {
        ReadRefines(v, offset, length, predicted, Answers);
      }
    } else if v.size == 1 {
      forall offset: nat, length: nat | length > 0 && offset + length <= |File(v)|
        ensures Read(v, offset, length, predicted, Answers).1 == ReadOk(File(v)[offset..offset + length])
      {
        OnlyPageReads(v, offset, length, predicted);
      }
    } else {
      MulMonotone(2, v.size, P);
      ShortPageFaults(v, 1, predicted);
      assert Read(v, P, 1, predicted, Answers).1.ReadError?;
    }
  }

  lemma FirstSpan(offset: nat, length: nat, cut: nat)
    requires length > 0 && offset + length <= cut
    ensures Span(offset, length, cut) == {1}
  {
    DivModUnique(offset, cut, 0, offset);
    DivModUnique(offset + length - 1, cut, 0, offset + length - 1);
    assert AtOrAfter(1, FirstPage(offset, cut));
    assert !AtOrAfter(0, FirstPage(offset, cut));
  }

  lemma ShortPageFaults(v: Vfs, length: nat, predicted: set<nat>)
    requires Registered(v) && 1 in v.store.pages
    requires length > 0 && v.cfg.pageSize + length <= SqliteHeader.DEFAULT_PAGE_SIZE
    ensures Read(v, v.cfg.pageSize, length, predicted, Answers).1 == ReadError
  {
    FirstSpan(v.cfg.pageSize, length, Cut(v.cfg));
    assert Resolve(v, 1) == Some(v.store.pages[1]);
    assert !Reaches(Resolve(v, 1), 0, Cut(v.cfg), v.cfg.pageSize + length);
  }

  lemma OnlyPageReads(v: Vfs, offset: nat, length: nat, predicted: set<nat>)
    requires Registered(v) && 1 in v.store.pages && v.size == 1 && v.cfg.pageSize < SqliteHeader.DEFAULT_PAGE_SIZE
    requires EvenPages(v) && length > 0 && offset + length <= |File(v)|
    ensures Read(v, offset, length, predicted, Answers).1 == ReadOk(File(v)[offset..offset + length])
  {
    FirstSpan(offset, length, Cut(v.cfg));
    assert Resolve(v, 1) == Some(v.store.pages[1]);
    var bytes := ReadBuffer(v, offset, length);
    forall j | 0 <= j < length ensures bytes[j] == File(v)[offset + j] {
      OnlyPageByte(v, offset + j);
      FileAt(v, offset + j);
    }
  }

  lemma OnlyPageByte(v: Vfs, i: nat)
    requires EvenPages(v) && v.dirty == map[] && Resolve(v, 1) == Stored(v, 1) && i < v.cfg.pageSize
    ensures BufferByte(v, i) == FileByte(v, i)
  {
    DivModUnique(i, Cut(v.cfg), 0, i);
    DivModUnique(i, v.cfg.pageSize, 0, i);
  }

  /** Two pages of 512, 1024 or 2048 bytes: the second one cannot be read, and truncating to the length the file already
      has drops it. */
  lemma SmallPagesAreLost(v: Vfs, predicted: set<nat>)
    requires Registered(v) && 1 in v.store.pages && v.size == 2 && v.cfg.pageSize in {512, 1024, 2048}
    ensures var P := v.cfg.pageSize;
      && FileSize(v) == 2 * P
      && Read(v, P, P, predicted, Answers).1 == ReadError
      && Truncate(v, FileSize(v)).0.size == 1 && FileSize(Truncate(v, FileSize(v)).0) == P
  {
    ShortPageFaults(v, v.cfg.pageSize, predicted);
  }

  /** After any run from registration, a cached copy of a stored page is the latest committed content, although
      commits never touch the read cache. */
  lemma CachedPageIsCommittedOverRuns(v: Vfs, ops: seq<Op>, k: nat)
    requires Opened(v) && AllAllowed(v, ops)
    ensures var w := Exec(v, ops);
      (k in w.store.pages || (1 <= k <= w.size && k !in w.dirty)) && CachedPage(w, k).Some? ==>
        CachedPage(w, k).value == PageOr(Stored(w, k), w.cfg.pageSize)
  {
    assert Inv(v);
    RunRefines(v, Flat(File(v), []), ops);
    var w := Exec(v, ops);
    if k in w.store.pages || (1 <= k <= w.size && k !in w.dirty) { CachedIsCommitted(w, k); }
  }

  lemma MainPageSpan(P: nat)
    requires P > 0
    ensures Span(0, P, P) == {1} && WholePages(0, P, P) && PagesFor(P, P) == 1
  {
    DivModUnique(P - 1, P, 0, P - 1);
    DivModUnique(0, P, 0, 0);
    DivModUnique(P, P, 1, 0);
    CeilIsLastPage(P, P);
    assert AtOrAfter(1, FirstPage(0, P));
  }

  lemma MainPagePatched(v: Vfs, bytes: Page)
    requires Cut(v.cfg) == v.cfg.pageSize == |bytes|
    ensures WrittenPages(v, 0, bytes) == map[1 := bytes]
  {
    MainPageSpan(v.cfg.pageSize);
    assert Patched(Zeros(v.cfg.pageSize), 1, v.cfg.pageSize, 0, bytes) == bytes;
  }

  lemma MainPageWritten(v: Vfs, bytes: Page)
    requires FullPages(v) && !v.dead && |bytes| == v.cfg.pageSize && v.dirty == map[] && v.size > 0
    ensures Write(v, 0, bytes, Answers) == (v.(dirty := map[1 := bytes]), true)
  {
    MainPageSpan(v.cfg.pageSize);
    MainPagePatched(v, bytes);
    assert v.dirty + map[1 := bytes] == map[1 := bytes];
  }

  /** Where committed pages are not kept, from every registration: writing the main page and syncing stores it, and the
      next read of it returns the copy seeded at registration. */
  lemma MainPageGoesStale(v: Vfs, bytes: Page)
    requires Opened(v) && !Caching(v.cfg)
    requires 1 in v.pageCache && |bytes| == v.cfg.pageSize && bytes != v.store.pages[1]
    ensures var w := Write(v, 0, bytes, Answers).0;
      var (x, ok) := Sync(w, Answers);
      && ok && FullPages(x)
      && 1 in x.store.pages && x.store.pages[1] == bytes
      && Read(x, 0, v.cfg.pageSize, {}, Answers).1 == ReadOk(v.store.pages[1])
  {
    var w := v.(dirty := map[1 := bytes]);
    MainPageWritten(v, bytes);
    var x := AfterCommit(w);
    assert Sync(w, Answers) == (x, true);
    assert x.pageCache == v.pageCache && x.committedCache == map[];
    assert Resolve(x, 1) == Some(v.store.pages[1]);
    FirstPageBuffer(x);
    MulMonotone(1, x.size, v.cfg.pageSize);
    MainPageSpan(v.cfg.pageSize);
  }

  // ---------------------------------------------------------------- the atomic-write bracket

  /** Everything SQLite may do inside an atomic write, failed commits included. */
  ghost predicate Inside(v: Vfs, ops: seq<Op>)
    decreases |ops|
  {
    ops == [] ||
    (!ops[0].OpBegin? && !ops[0].OpRollback?
     && (ops[0].OpCommit? ==> !Step(v, ops[0]).1.ok)
     && Inside(Step(v, ops[0]).0, ops[1..]))
  }

  /** Nothing reaches the store while an atomic write is open. */
  lemma {:induction false} NothingStoredInside(v: Vfs, ops: seq<Op>)
    requires Inv(v) && v.inAtomicWrite && AllAllowed(v, ops) && Inside(v, ops)
    ensures var w := Exec(v, ops);
      Inv(w) && w.inAtomicWrite && w.store == v.store && w.savedSize == v.savedSize && w.cfg == v.cfg
    decreases |ops|
  {
    if ops != [] {
      StepKeepsInv(v, ops[0]);
      StepFrame(v, ops[0]);
      NothingStoredInside(Step(v, ops[0]).0, ops[1..]);
    }
  }

  /** Begin, any writes, truncates, syncs and failed commits, then rollback: the file and the store of before. */
  lemma BracketRollsBack(v: Vfs, ops: seq<Op>)
    requires Inv(v) && v.dirty == map[]
    requires AllAllowed(BeginAtomic(v), ops) && Inside(BeginAtomic(v), ops)
    ensures var w := RollbackAtomic(Exec(BeginAtomic(v), ops));
      Inv(w) && File(w) == File(v) && w.store == v.store && !w.inAtomicWrite && w.dirty == map[]
  {
    BeginKeepsInv(v);
    NothingStoredInside(BeginAtomic(v), ops);
    var x := Exec(BeginAtomic(v), ops);
    SavedFileKept(BeginAtomic(v), x);
    RollbackRefines(x);
  }

  /** Begin, any work, then a commit that succeeds with something to send: the store goes from the old file to the
      new one in that one step. */
  lemma BracketCommits(v: Vfs, ops: seq<Op>, transport: Transport)
    requires Inv(v) && v.dirty == map[]
    requires AllAllowed(BeginAtomic(v), ops) && Inside(BeginAtomic(v), ops)
    ensures var x := Exec(BeginAtomic(v), ops);
      var (w, ok) := CommitAtomic(x, transport);
      && x.store == v.store
      && FullPages(w) && Inv(x)
      && (Allowed(x, OpCommit(transport)) ==> Inv(w))
      && (ok ==> !w.inAtomicWrite && !w.dead)
      && (ok && x.dirty != map[] ==> File(w) == File(x) && StoredFile(w) == File(x))
  {
    BeginKeepsInv(v);
    NothingStoredInside(BeginAtomic(v), ops);
    CommitEndsBracket(Exec(BeginAtomic(v), ops), transport);
  }

  lemma CommitEndsBracket(v: Vfs, transport: Transport)
    requires Inv(v) && v.inAtomicWrite
    ensures var (w, ok) := CommitAtomic(v, transport);
      && FullPages(w)
      && (Allowed(v, OpCommit(transport)) ==> Inv(w))
      && (ok ==> !w.inAtomicWrite && !w.dead)
      && (ok && v.dirty != map[] ==> File(w) == File(v) && StoredFile(w) == File(v))
  {
    AtomicCommitRefines(v, transport);
  }
}
