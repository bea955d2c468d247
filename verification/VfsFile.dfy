/**
 The VFS callbacks as they run: loops over page lists, a caller-owned buffer filled in place, and a mutable
 state behind one handle. Each method is proved equal to the operation of the same name in `PageStore`.
 */
module VfsFile {
  import opened Common
  import opened PageStore
  import SqliteHeader

  datatype FetchedPage = FetchedPage(pgno: nat, bytes: Option<Page>)

  /** The remote page store: full pages, answers for the pages asked for and no others, atomic commits. */
  class RemoteStore {
    var pages: map<nat, Page>
    var size: nat

    constructor (pages: map<nat, Page>, size: nat)
      ensures this.pages == pages && this.size == size
    {
      this.pages, this.size := pages, size;
    }

    method GetPages(pgnos: seq<nat>) returns (answer: seq<FetchedPage>)
      ensures |answer| == |pgnos|
      ensures forall i :: 0 <= i < |pgnos| ==>
        answer[i] == FetchedPage(pgnos[i], if pgnos[i] in pages then Some(pages[pgnos[i]]) else None)
    {
      answer := [];
      for i := 0 to |pgnos|
        invariant |answer| == i
        invariant forall j :: 0 <= j < i ==>
          answer[j] == FetchedPage(pgnos[j], if pgnos[j] in pages then Some(pages[pgnos[j]]) else None)
      {
        answer := answer + [FetchedPage(pgnos[i], if pgnos[i] in pages then Some(pages[pgnos[i]]) else None)];
      }
    }

    method Commit(dirty: map<nat, Page>, newSize: nat)
      modifies this
      ensures Store(pages, size) == Applied(old(Store(pages, size)), dirty, newSize)
    {
      pages := map k | k in pages.Keys + dirty.Keys && k <= newSize :: if k in dirty then dirty[k] else pages[k];
      size := newSize;
    }
  }

  function Elements(s: seq<nat>): set<nat> { set k | k in s }

  predicate NoRepeats(s: seq<nat>) { forall i, j :: 0 <= i < j < |s| ==> s[i] != s[j] }

  /** What registration knows of the database: from the first page where it has one, else the defaults. */
  datatype Startup = Startup(pageSize: nat, size: nat, cache: map<nat, Entry>)

  function KnownPageSize(first: Option<Page>): (size: nat)
    ensures size > 0
  {
    if first.Some? && SqliteHeader.PageSize(first.value).Some? then SqliteHeader.PageSize(first.value).value
    else SqliteHeader.DEFAULT_PAGE_SIZE
  }

  function KnownSize(first: Option<Page>): (size: nat)
    ensures size > 0
  {
    if first.Some? && SqliteHeader.SizeInPages(first.value).Some? then SqliteHeader.SizeInPages(first.value).value else 1
  }

  /** The first page is always seeded, if need be with the empty one; the others only in a mode that keeps them. */
  ghost predicate Seeds(stored: map<nat, Page>, count: nat, keep: bool, now: nat, cache: map<nat, Entry>)
  {
    && (forall k :: k in cache <==> k == 1 || (keep && k in stored && 1 <= k <= count))
    && (forall k :: k in cache ==>
          cache[k] == Entry(if k in stored && k <= count then stored[k] else SqliteHeader.EmptyDbPage(), now))
  }

  /** Reads the header of the first page and puts the preloaded pages in the read cache. */
  method SeedPages(ttl: nat, cachesStartup: bool, pages: seq<FetchedPage>, now: nat, ghost stored: map<nat, Page>)
    returns (s: Startup)
    requires |pages| > 0
    requires forall i :: 0 <= i < |pages| ==>
      pages[i] == FetchedPage(i + 1, if i + 1 in stored then Some(stored[i + 1]) else None)
    ensures s.pageSize == KnownPageSize(pages[0].bytes) && s.size == KnownSize(pages[0].bytes)
    ensures Seeds(stored, |pages|, ttl > 0 && cachesStartup, now, s.cache)
  {
    var size, pageSize := 1, SqliteHeader.DEFAULT_PAGE_SIZE;
    var cache: map<nat, Entry> := map[1 := Entry(SqliteHeader.EmptyDbPage(), now)];
    for i := 0 to |pages|
      invariant i > 0 ==> pageSize == KnownPageSize(pages[0].bytes) && size == KnownSize(pages[0].bytes)
      invariant i == 0 ==> pageSize == SqliteHeader.DEFAULT_PAGE_SIZE && size == 1
      invariant Seeds(stored, i, ttl > 0 && cachesStartup, now, cache)
    {
      var page := pages[i];
      if page.bytes.Some? {
        if page.pgno == 1 {
          if SqliteHeader.PageSize(page.bytes.value).Some? { pageSize := SqliteHeader.PageSize(page.bytes.value).value; }
          if SqliteHeader.SizeInPages(page.bytes.value).Some? { size := SqliteHeader.SizeInPages(page.bytes.value).value; }
        }
        if page.pgno == 1 || (ttl > 0 && cachesStartup) {
          cache := cache[page.pgno := Entry(page.bytes.value, now)];
        }
      }
    }
    s := Startup(pageSize, size, cache);
  }

  /** A stored database whose first page tells its true sizes. */
  ghost predicate Describes(pages: map<nat, Page>, count: nat, size: nat)
  {
    && 1 in pages && SqliteHeader.Tells(pages[1], size, count)
    && forall k :: k in pages ==> 1 <= k <= count && |pages[k]| == size
  }

  class Handle {
    const cfg: Config
    const remote: RemoteStore
    var dbSizePages: nat
    var dirty: map<nat, Page>
    var pageCache: map<nat, Entry>
    var committedPageCache: map<nat, Entry>
    var inAtomicWrite: bool
    var savedDbSize: nat
    var dead: bool
    var deferredError: bool
    var now: nat

    /** Registration: asks for the first `count` pages and starts from what the first one says about itself. The database
        is registered as the store holds it if and only if that page is there and tells its sizes right, and open if its
        pages are large enough besides. */
    constructor (settings: Config, cachesStartup: bool, remote: RemoteStore, count: nat, now: nat)
      requires count >= 1
      ensures this.remote == remote && this.now == now
      ensures var first := if 1 in remote.pages then Some(remote.pages[1]) else None;
        cfg == settings.(pageSize := KnownPageSize(first)) && dbSizePages == KnownSize(first)
      ensures Seeds(remote.pages, count, cfg.ttl > 0 && cachesStartup, now, pageCache)
      ensures Opened(View()) <==> Registered(View()) && cfg.pageSize >= SqliteHeader.DEFAULT_PAGE_SIZE
      ensures Registered(View()) <==>
        && 1 in remote.pages && dbSizePages == remote.size
        && forall k :: k in remote.pages ==> 1 <= k <= remote.size && |remote.pages[k]| == cfg.pageSize
      ensures forall size: nat :: Describes(remote.pages, remote.size, size) ==>
        Registered(View()) && cfg.pageSize == size && dbSizePages == remote.size
    {
      forall size: nat | Describes(remote.pages, remote.size, size)
        ensures KnownPageSize(Some(remote.pages[1])) == size && KnownSize(Some(remote.pages[1])) == remote.size
      {
        SqliteHeader.SizesReadBack(remote.pages[1], size, remote.size);
      }
      var answer := remote.GetPages(seq(count, i => i + 1));
      var s := SeedPages(settings.ttl, cachesStartup, answer, now, remote.pages);
      this.cfg, this.remote, this.now := settings.(pageSize := s.pageSize), remote, now;
      dbSizePages, savedDbSize, pageCache := s.size, 0, s.cache;
      dirty, committedPageCache := map[], map[];
      inAtomicWrite, dead, deferredError := false, false, false;
    }

    ghost function View(): Vfs
      reads this, remote
    {
      Vfs(cfg, dbSizePages, dirty, pageCache, committedPageCache, inAtomicWrite, savedDbSize, dead,
          deferredError, now, Store(remote.pages, remote.size))
    }

    predicate IsLive(e: Entry)
      reads this
    {
      cfg.ttl == 0 || now < e.at + cfg.ttl
    }

    function Cached(k: nat): (page: Option<Page>)
      reads this, remote
      ensures page == CachedPage(View(), k)
    {
      if !(k == 1 || cfg.cachesAny) then None
      else if k in committedPageCache && IsLive(committedPageCache[k]) then Some(committedPageCache[k].bytes)
      else if k in pageCache && IsLive(pageCache[k]) then Some(pageCache[k].bytes)
      else None
    }

    /** Splits the targets into pages at hand and pages to fetch. */
    method Lookup(targets: seq<nat>) returns (resolved: map<nat, Option<Page>>, missing: seq<nat>)
      ensures forall k :: k in resolved <==> k in targets && Readable(View(), k)
      ensures forall k :: k in resolved ==> resolved[k] == Resolve(View(), k)
      ensures forall k :: k in missing <==> k in targets && !Readable(View(), k)
      ensures NoRepeats(missing)
    {
      resolved, missing := map[], [];
      for i := 0 to |targets|
        invariant forall k :: k in resolved <==> k in targets[..i] && Readable(View(), k)
        invariant forall k :: k in resolved ==> resolved[k] == Resolve(View(), k)
        invariant forall k :: k in missing <==> k in targets[..i] && !Readable(View(), k)
        invariant NoRepeats(missing)
      {
        var k := targets[i];
        assert targets[..i + 1] == targets[..i] + [k];
        if k in resolved || k in missing {
        } else if k in dirty {
          resolved := resolved[k := Some(dirty[k])];
        } else if Cached(k).Some? {
          resolved := resolved[k := Cached(k)];
        } else {
          missing := missing + [k];
        }
      }
    }

    /** Adds the predicted pages that are not at hand to the pages to fetch. */
    method Plan(resolved: map<nat, Option<Page>>, missing: seq<nat>, predicted: seq<nat>) returns (toFetch: seq<nat>)
      requires NoRepeats(missing)
      ensures NoRepeats(toFetch)
      ensures forall k :: k in toFetch <==>
        k in missing || (k in predicted && k !in resolved && !Readable(View(), k))
    {
      toFetch := missing;
      for i := 0 to |predicted|
        invariant forall k :: k in toFetch <==>
          k in missing || (k in predicted[..i] && k !in resolved && !Readable(View(), k))
        invariant NoRepeats(toFetch)
      {
        var k := predicted[i];
        assert predicted[..i + 1] == predicted[..i] + [k];
        if k !in resolved && k !in toFetch && k !in dirty && Cached(k).None? {
          toFetch := toFetch + [k];
        }
      }
    }

    /** A page that was only predicted goes to the read cache; a target does not. */
    method KeepPrefetched(missing: seq<nat>, page: FetchedPage, ghost done: set<nat>, ghost v: Vfs)
      requires page.bytes == Stored(v, page.pgno) && now == v.now
      requires pageCache == KeptCache(v, cfg, missing, done)
      modifies this`pageCache
      ensures pageCache == KeptCache(v, cfg, missing, done + {page.pgno})
    {
      KeptExtends(v, missing, done, page.pgno);
      if page.bytes.Some? && page.pgno !in missing && cfg.ttl > 0 && cfg.cachesPrefetched {
        pageCache := pageCache[page.pgno := Entry(page.bytes.value, now)];
      }
    }

    /** Stores fetched pages that nobody asked for in the read cache and adds every answer to `atHand`. */
    method Absorb(atHand: map<nat, Option<Page>>, missing: seq<nat>, fetched: seq<FetchedPage>)
      returns (resolved: map<nat, Option<Page>>)
      requires forall i :: 0 <= i < |fetched| ==> fetched[i].bytes == Stored(View(), fetched[i].pgno)
      modifies this`pageCache
      ensures pageCache == KeptCache(old(View()), cfg, missing, Numbers(fetched))
      ensures resolved == atHand + Answered(old(View()), Numbers(fetched))
    {
      ghost var v := View();
      ghost var done: set<nat> := {};
      resolved := atHand;
      assert KeptCache(v, cfg, missing, {}) == v.pageCache;
      for i := 0 to |fetched|
        invariant done == Numbers(fetched[..i])
        invariant pageCache == KeptCache(v, cfg, missing, done)
        invariant resolved == atHand + Answered(v, done)
      {
        var page := fetched[i];
        NumbersPush(fetched, i);
        KeepPrefetched(missing, page, done, v);
        AnsweredExtends(atHand, v, done, page.pgno);
        done := done + {page.pgno};
        resolved := resolved[page.pgno := page.bytes];
      }
      assert fetched[..|fetched|] == fetched;
    }

    /** Fetches, keeps prefetched pages in the read cache, and answers every target. */
    method ResolvePages(targets: seq<nat>, predicted: seq<nat>, transport: Transport)
      returns (ok: bool, resolved: map<nat, Option<Page>>)
      modifies this`pageCache
      ensures !ok <==> NeedsFetch(old(View()), Elements(targets)) && !transport.Answers?
      ensures !ok ==> View() == old(View())
      ensures ok ==> View() == AfterResolve(old(View()), Elements(targets), Elements(predicted))
      ensures ok ==> forall k :: k in targets ==> k in resolved && resolved[k] == Resolve(old(View()), k)
    {
      var missing;
      ghost var v := View();
      resolved, missing := Lookup(targets);
      if missing == [] {
        assert forall k :: k in targets && !Readable(v, k) ==> k in missing;
        return true, resolved;
      }
      assert NeedsFetch(v, Elements(targets)) by {
        assert missing[0] in missing;
        assert missing[0] in Elements(targets) && !Readable(v, missing[0]);
      }
      if !transport.Answers? { return false, resolved; }
      resolved := FetchMissing(targets, predicted, resolved, missing);
      ok := true;
    }

    method FetchMissing(targets: seq<nat>, predicted: seq<nat>, atHand: map<nat, Option<Page>>, missing: seq<nat>)
      returns (resolved: map<nat, Option<Page>>)
      requires NoRepeats(missing) && NeedsFetch(View(), Elements(targets))
      requires forall k :: k in atHand <==> k in targets && Readable(View(), k)
      requires forall k :: k in atHand ==> atHand[k] == Resolve(View(), k)
      requires forall k :: k in missing <==> k in targets && !Readable(View(), k)
      modifies this`pageCache
      ensures View() == AfterResolve(old(View()), Elements(targets), Elements(predicted))
      ensures forall k :: k in targets ==> k in resolved && resolved[k] == Resolve(old(View()), k)
    {
      ghost var v := View();
      var toFetch := Plan(atHand, missing, predicted);
      var fetched := remote.GetPages(toFetch);
      NumbersOf(fetched, toFetch);
      KeptIsPrefetched(v, targets, predicted, atHand, missing, toFetch);
      resolved := Absorb(atHand, missing, fetched);
    }

    /** Zero-fills the buffer, then copies each page's overlap into it; a page that is too short for it is a fault. */
    method CopyPages(buffer: array<Byte>, offset: nat, resolved: map<nat, Option<Page>>, first: nat, last: nat, ghost v: Vfs)
      returns (ok: bool)
      requires v.cfg == cfg && buffer.Length > 0
      requires first == FirstPage(offset, Cut(cfg)) <= last == LastPage(offset, buffer.Length, Cut(cfg))
      requires forall k :: first <= k <= last ==> k in resolved && resolved[k] == Resolve(v, k)
      modifies buffer
      ensures ok <==> ReadFits(v, offset, buffer.Length)
      ensures ok ==> buffer[..] == ReadBuffer(v, offset, buffer.Length)
    {
      var amount, C := buffer.Length, Cut(cfg);
      ghost var want := ReadBuffer(v, offset, amount);
      forall j | 0 <= j < amount { buffer[j] := 0; }
      DivBounds(offset, C);
      var k := first;
      while k <= last
        invariant first <= k <= last + 1
        invariant forall j :: 0 <= j < amount && offset + j < (k - 1) * C ==> buffer[j] == want[j]
        invariant forall j :: 0 <= j < amount && offset + j >= (k - 1) * C ==> buffer[j] == 0
        invariant forall q :: first <= q < k ==> Reaches(resolved[q], (q - 1) * C, C, offset + amount)
        decreases last + 1 - k
      {
        var start := (k - 1) * C;
        assert (k + 1 - 1) * C == start + C;
        var copyStart, copyEnd := Max(start, offset), Min(start + C, offset + amount);
        PatchNotEmpty(offset, amount, C, k);
        if resolved[k].Some? && start + |resolved[k].value| < copyEnd {
          NotReaching(v, offset, amount, k);
          return false;
        }
        PageOfBuffer(v, offset, amount, k);
        if resolved[k].Some? && copyStart < copyEnd {
          var bytes := resolved[k].value;
          forall j | copyStart - offset <= j < copyEnd - offset { buffer[j] := bytes[offset + j - start]; }
        }
        k := k + 1;
      }
      DivBounds(offset + amount - 1, C);
      assert (last + 1 - 1) * C >= offset + amount;
      AllReach(v, offset, amount);
      ok := true;
    }

    /** The caller's buffer and the return code of a read. */
    method IoRead(buffer: array<Byte>, offset: int, predicted: seq<nat>, transport: Transport)
      returns (result: ReadResult)
      modifies this`pageCache, this`dead, buffer
      ensures Read(old(View()), offset, buffer.Length, Elements(predicted), transport) == (View(), result)
      ensures !result.ReadError? ==> buffer[..] == result.bytes
    {
      var amount := buffer.Length;
      if amount == 0 { return ReadOk([]); }
      if dead || offset < 0 { return ReadError; }
      ghost var v := View();
      var C := Cut(cfg);
      var first, last := offset / C + 1, (offset + amount - 1) / C + 1;
      DivMonotone(offset, offset + amount - 1, C);
      var pages := seq(last + 1 - first, i requires 0 <= i < last + 1 - first => first + i);
      SpanElements(pages, offset, amount, C);
      var ok, resolved := ResolvePages(pages, predicted, transport);
      if !ok {
        if transport.FenceLost? { dead := true; }
        return ReadError;
      }
      forall k | first <= k <= last ensures k in resolved && resolved[k] == Resolve(v, k) {
        assert pages[k - first] == k;
      }
      ok := CopyPages(buffer, offset, resolved, first, last, v);
      if !ok { return ReadError; }
      if !cfg.retainReads { pageCache := pageCache - (set p | p in pages); }
      return if offset + amount > dbSizePages * cfg.pageSize then ShortRead(buffer[..]) else ReadOk(buffer[..]);
    }

    method IoFileSize() returns (size: nat)
      ensures size == FileSize(View())
    {
      return dbSizePages * cfg.pageSize;
    }

    /** A partial write first reads the pages it will patch; nothing is prefetched for it. */
    method ReadForPatch(offset: nat, amount: nat, first: nat, last: nat, transport: Transport)
      returns (ok: bool, resolved: map<nat, Option<Page>>)
      requires amount > 0 && !WholePages(offset, amount, Cut(cfg))
      requires first == FirstPage(offset, Cut(cfg)) <= last == LastPage(offset, amount, Cut(cfg))
      modifies this`pageCache
      ensures View() == old(View())
      ensures !ok <==> NeedsFetch(old(View()), PatchTargets(old(View()), offset, amount)) && !transport.Answers?
      ensures ok ==> forall k :: first <= k <= last && k <= dbSizePages ==> k in resolved && resolved[k] == Resolve(View(), k)
    {
      ghost var v := View();
      var known := Min(last, dbSizePages);
      var pages := if first <= known then seq(known + 1 - first, i requires 0 <= i < known + 1 - first => first + i) else [];
      TargetElements(v, pages, offset, amount);
      ok, resolved := ResolvePages(pages, [], transport);
      assert Prefetched(v, Elements(pages), Elements([])) == map[];
      assert v.pageCache + map[] == v.pageCache;
      if ok {
        forall k | first <= k <= last && k <= v.size ensures k in resolved && resolved[k] == Resolve(v, k) {
          assert pages[k - first] == k;
        }
      }
    }

    method IoWrite(source: seq<Byte>, offset: int, transport: Transport) returns (ok: bool)
      modifies this`dirty, this`dbSizePages, this`pageCache, this`dead
      ensures Write(old(View()), offset, source, transport) == (View(), ok)
    {
      if |source| == 0 { return true; }
      if dead || offset < 0 { return false; }
      ghost var v := View();
      var written;
      ok, written := BuildPages(source, offset, transport);
      if !ok {
        WriteFails(v, offset, source, transport);
        if transport.FenceLost? { dead := true; }
        return false;
      }
      WriteSucceeds(v, offset, source, transport);
      dirty := dirty + written;
      dbSizePages := Max(dbSizePages, (offset + |source| + Cut(cfg) - 1) / Cut(cfg));
    }

    /** The patched pages of a write, before anything is published. */
    method BuildPages(source: seq<Byte>, offset: nat, transport: Transport) returns (ok: bool, written: map<nat, Page>)
      requires source != []
      modifies this`pageCache
      ensures View() == old(View())
      ensures ok ==> written == WrittenPages(View(), offset, source)
      ensures ok == (WholePages(offset, |source|, Cut(cfg))
                     || !NeedsFetch(View(), PatchTargets(View(), offset, |source|)) || transport.Answers?)
    {
      var amount, C := |source|, Cut(cfg);
      var first, last := offset / C + 1, (offset + amount - 1) / C + 1;
      DivMonotone(offset, offset + amount - 1, C);
      var whole := offset % C == 0 && amount % C == 0;
      var resolved: map<nat, Option<Page>> := map[];
      ok, written := true, map[];
      if !whole {
        ok, resolved := ReadForPatch(offset, amount, first, last, transport);
        if !ok { return; }
      }
      written := PatchAll(source, offset, resolved, first, last, whole);
    }

    method PatchAll(source: seq<Byte>, offset: nat, resolved: map<nat, Option<Page>>, first: nat, last: nat, whole: bool)
      returns (written: map<nat, Page>)
      requires source != []
      requires first == FirstPage(offset, Cut(cfg)) <= last == LastPage(offset, |source|, Cut(cfg))
      requires whole == WholePages(offset, |source|, Cut(cfg))
      requires !whole ==> forall k :: first <= k <= last && k <= dbSizePages ==>
        k in resolved && resolved[k] == Resolve(View(), k)
      ensures written == WrittenPages(View(), offset, source)
    {
      var C := Cut(cfg);
      ghost var want := WrittenPages(View(), offset, source);
      written := map[];
      var k := first;
      while k <= last
        invariant first <= k <= last + 1
        invariant forall q :: q in written <==> first <= q < k
        invariant forall q :: q in written ==> q in want && written[q] == want[q]
        decreases last + 1 - k
      {
        var base := if !whole && k <= dbSizePages && resolved[k].Some? then Fitted(resolved[k].value, C) else Zeros(C);
        var page := PatchPage(source, offset, base, k);
        assert AtOrAfter(k, FirstPage(offset, C));
        assert k in Span(offset, |source|, C);
        written := written[k := page];
        k := k + 1;
      }
      forall q ensures q in written <==> q in want {
        if q in want { assert AtOrAfter(q, first); }
      }
    }

    /** The part of the source that falls into page `k`, copied over the page. */
    method PatchPage(source: seq<Byte>, offset: nat, base: Page, k: nat) returns (page: Page)
      requires source != [] && |base| >= Cut(cfg)
      requires FirstPage(offset, Cut(cfg)) <= k <= LastPage(offset, |source|, Cut(cfg))
      ensures page == Patched(base, k, Cut(cfg), offset, source)
    {
      var C := Cut(cfg);
      var start := (k - 1) * C;
      var patchStart, patchEnd := Max(start, offset), Min(start + C, offset + |source|);
      PatchNotEmpty(offset, |source|, C, k);
      PatchSlices(base, k, C, offset, source);
      page := base[..patchStart - start] + source[patchStart - offset..patchEnd - offset] + base[patchEnd - start..];
    }

    method IoTruncate(size: int) returns (ok: bool)
      modifies this`dbSizePages, this`dirty, this`pageCache, this`committedPageCache
      ensures Truncate(old(View()), size) == (View(), ok)
    {
      if size < 0 { return false; }
      dbSizePages := (size + Cut(cfg) - 1) / Cut(cfg);
      dirty := map k | k in dirty && k <= dbSizePages :: dirty[k];
      pageCache, committedPageCache := map[], map[];
      ok := true;
    }

    /** Moves the buffered pages to the committed cache one by one. */
    method KeepCommitted()
      modifies this`committedPageCache
      ensures committedPageCache == old(committedPageCache) + CommittedEntries(old(View()))
    {
      ghost var v := View();
      if cfg.ttl == 0 || !cfg.cachesAny { return; }
      var left := dirty.Keys;
      while left != {}
        invariant left <= dirty.Keys
        invariant committedPageCache == v.committedCache + KeptBut(v, left)
        decreases left
      {
        var k :| k in left;
        OneMoreKept(v, left, k);
        committedPageCache := committedPageCache[k := Entry(dirty[k], now)];
        left := left - {k};
      }
    }

    /** Sends the buffered pages; the state moves on only once the store has accepted them. */
    method SendBuffered(transport: Transport) returns (ok: bool)
      modifies this`dirty, this`committedPageCache, this`dead, remote
      ensures ok == transport.Answers?
      ensures View() == match transport
                        case Answers => AfterCommit(old(View()))
                        case Fails => old(View())
                        case FenceLost => old(View()).(dead := true)
    {
      if transport.Fails? { return false; }
      if transport.FenceLost? {
        dead := true;
        return false;
      }
      remote.Commit(dirty, dbSizePages);
      KeepCommitted();
      dirty := map[];
      ok := true;
    }

    method FlushDirtyPages(transport: Transport) returns (ok: bool)
      modifies this`dirty, this`committedPageCache, this`dead, remote
      ensures Flush(old(View()), transport) == (View(), ok)
    {
      if dead { return false; }
      if inAtomicWrite || dirty == map[] { return true; }
      ok := SendBuffered(transport);
    }

    /** Reports a commit error that was put off, once, before it flushes anything. */
    method IoSync(transport: Transport) returns (ok: bool)
      modifies this`dirty, this`committedPageCache, this`dead, this`deferredError, remote
      ensures Sync(old(View()), transport) == (View(), ok)
    {
      if deferredError {
        deferredError := false;
        return false;
      }
      ok := FlushDirtyPages(transport);
    }

    method IoClose(skipFlush: bool, transport: Transport) returns (ok: bool)
      modifies this`dirty, this`committedPageCache, this`dead, this`inAtomicWrite, this`deferredError, remote
      ensures Close(old(View()), skipFlush, transport) == (View(), ok)
    {
      ok := true;
      if (inAtomicWrite || dirty != map[]) && !skipFlush {
        if inAtomicWrite {
          ok := SendAtomicWrite(transport);
        } else {
          ok := FlushDirtyPages(transport);
        }
      }
    }

    method BeginAtomicWrite()
      modifies this`inAtomicWrite, this`savedDbSize, this`dirty
      ensures View() == BeginAtomic(old(View()))
    {
      inAtomicWrite, savedDbSize, dirty := true, dbSizePages, map[];
    }

    /** Sends the pages of an open atomic write and ends it. */
    method SendAtomicWrite(transport: Transport) returns (ok: bool)
      modifies this`dirty, this`committedPageCache, this`dead, this`inAtomicWrite, remote
      ensures var (w, done) := CommitAtomic(old(View()), transport);
        ok == done && View() == w.(deferredError := old(deferredError))
    {
      if dead { return false; }
      if !inAtomicWrite { return true; }
      if dirty == map[] {
        inAtomicWrite := false;
        return true;
      }
      ok := SendBuffered(transport);
      if ok { inAtomicWrite := false; }
    }

    /** The error of a failed commit is put off to the next sync, unless the fence is lost. */
    method CommitAtomicWrite(transport: Transport) returns (ok: bool)
      modifies this`dirty, this`committedPageCache, this`dead, this`inAtomicWrite, this`deferredError, remote
      ensures CommitAtomic(old(View()), transport) == (View(), ok)
    {
      var wasDead := dead;
      ok := SendAtomicWrite(transport);
      if !ok && (wasDead || transport.Fails?) { deferredError := true; }
    }

    method RollbackAtomicWrite()
      modifies this`inAtomicWrite, this`dbSizePages, this`dirty
      ensures View() == RollbackAtomic(old(View()))
    {
      dirty, inAtomicWrite, dbSizePages := map[], false, savedDbSize;
    }
  }

  ghost function Numbers(pages: seq<FetchedPage>): set<nat> { set i | 0 <= i < |pages| :: pages[i].pgno }

  ghost function Kept(v: Vfs, missing: seq<nat>, fetched: set<nat>): map<nat, Entry>
  {
    map k | k in fetched && k !in missing && k in v.store.pages :: Entry(v.store.pages[k], v.now)
  }

  ghost function KeptCache(v: Vfs, cfg: Config, missing: seq<nat>, fetched: set<nat>): map<nat, Entry>
  {
    if cfg.ttl > 0 && cfg.cachesPrefetched then v.pageCache + Kept(v, missing, fetched) else v.pageCache
  }

  ghost function Answered(v: Vfs, fetched: set<nat>): map<nat, Option<Page>>
  {
    map k | k in fetched :: Stored(v, k)
  }

  lemma AnsweredExtends(atHand: map<nat, Option<Page>>, v: Vfs, fetched: set<nat>, k: nat)
    ensures (atHand + Answered(v, fetched))[k := Stored(v, k)] == atHand + Answered(v, fetched + {k})
  {
  }

  lemma NumbersPush(fetched: seq<FetchedPage>, i: nat)
    requires i < |fetched|
    ensures Numbers(fetched[..i + 1]) == Numbers(fetched[..i]) + {fetched[i].pgno}
  {
    forall k | k in Numbers(fetched[..i]) + {fetched[i].pgno} ensures k in Numbers(fetched[..i + 1]) {
      if k == fetched[i].pgno {
        assert fetched[..i + 1][i].pgno == k;
      } else {
        var j :| 0 <= j < i && fetched[..i][j].pgno == k;
        assert fetched[..i + 1][j].pgno == k;
      }
    }
  }

  lemma KeptExtends(v: Vfs, missing: seq<nat>, fetched: set<nat>, k: nat)
    ensures Kept(v, missing, fetched + {k}) ==
      if k !in missing && k in v.store.pages
      then Kept(v, missing, fetched)[k := Entry(v.store.pages[k], v.now)] else Kept(v, missing, fetched)
  {
  }

  lemma NumbersOf(fetched: seq<FetchedPage>, pgnos: seq<nat>)
    requires |fetched| == |pgnos| && forall i :: 0 <= i < |pgnos| ==> fetched[i].pgno == pgnos[i]
    ensures Numbers(fetched) == Elements(pgnos)
  {
    forall k | k in Elements(pgnos) ensures k in Numbers(fetched) {
      var i :| 0 <= i < |pgnos| && pgnos[i] == k;
      assert fetched[i].pgno == k;
    }
  }

  lemma KeptIsPrefetched(
      v: Vfs, targets: seq<nat>, predicted: seq<nat>, atHand: map<nat, Option<Page>>, missing: seq<nat>, toFetch: seq<nat>)
    requires forall k :: k in atHand <==> k in targets && Readable(v, k)
    requires forall k :: k in missing <==> k in targets && !Readable(v, k)
    requires forall k :: k in toFetch <==> k in missing || (k in predicted && k !in atHand && !Readable(v, k))
    ensures Kept(v, missing, Elements(toFetch)) == Prefetched(v, Elements(targets), Elements(predicted))
  {
  }

  /** The bytes of the buffer that page `k` supplies. */
  lemma PageOfBuffer(v: Vfs, offset: nat, length: nat, k: nat)
    requires k >= 1
    ensures var start := (k - 1) * Cut(v.cfg);
      forall j: nat :: j < length && start <= offset + j < start + Cut(v.cfg) ==>
        ReadBuffer(v, offset, length)[j] == ByteAt(PageOr(Resolve(v, k), Cut(v.cfg)), offset + j - start)
  {
    var C := Cut(v.cfg);
    var start := (k - 1) * C;
    forall j: nat | j < length && start <= offset + j < start + C
      ensures ReadBuffer(v, offset, length)[j] == ByteAt(PageOr(Resolve(v, k), C), offset + j - start)
    {
      DivModUnique(offset + j, C, k - 1, offset + j - start);
      assert ReadBuffer(v, offset, length)[j] == BufferByte(v, offset + j);
    }
  }

  lemma NotReaching(v: Vfs, offset: nat, length: nat, k: nat)
    requires length > 0 && FirstPage(offset, Cut(v.cfg)) <= k <= LastPage(offset, length, Cut(v.cfg))
    requires !Reaches(Resolve(v, k), (k - 1) * Cut(v.cfg), Cut(v.cfg), offset + length)
    ensures !ReadFits(v, offset, length)
  {
    assert AtOrAfter(k, FirstPage(offset, Cut(v.cfg)));
  }

  lemma AllReach(v: Vfs, offset: nat, length: nat)
    requires length > 0
    requires forall k :: FirstPage(offset, Cut(v.cfg)) <= k <= LastPage(offset, length, Cut(v.cfg)) ==>
      Reaches(Resolve(v, k), (k - 1) * Cut(v.cfg), Cut(v.cfg), offset + length)
    ensures ReadFits(v, offset, length)
  {
    forall k | k in Span(offset, length, Cut(v.cfg))
      ensures Reaches(Resolve(v, k), (k - 1) * Cut(v.cfg), Cut(v.cfg), offset + length)
    {
      assert AtOrAfter(k, FirstPage(offset, Cut(v.cfg)));
    }
  }

  /** The committed copies of the buffered pages, except those still to be made. */
  ghost function KeptBut(v: Vfs, left: set<nat>): map<nat, Entry>
  {
    map k | k in v.dirty && k !in left :: Entry(v.dirty[k], v.now)
  }

  lemma OneMoreKept(v: Vfs, left: set<nat>, k: nat)
    requires k in left && k in v.dirty
    ensures (v.committedCache + KeptBut(v, left))[k := Entry(v.dirty[k], v.now)] == v.committedCache + KeptBut(v, left - {k})
  {
  }

  lemma WriteFails(v: Vfs, offset: nat, source: seq<Byte>, transport: Transport)
    requires source != [] && !v.dead
    requires NeedsFetch(v, PatchTargets(v, offset, |source|)) && !transport.Answers?
    ensures Write(v, offset, source, transport) == (if transport.FenceLost? then v.(dead := true) else v, false)
  {
  }

  lemma WriteSucceeds(v: Vfs, offset: nat, source: seq<Byte>, transport: Transport)
    requires source != [] && !v.dead
    requires WholePages(offset, |source|, Cut(v.cfg))
          || !NeedsFetch(v, PatchTargets(v, offset, |source|)) || transport.Answers?
    ensures Write(v, offset, source, transport) ==
      (v.(dirty := v.dirty + WrittenPages(v, offset, source),
          size := Max(v.size, (offset + |source| + Cut(v.cfg) - 1) / Cut(v.cfg))), true)
  {
  }

  /** Splicing the overlap of the source into a page is patching it byte by byte. */
  lemma PatchSlices(base: Page, k: nat, cut: nat, offset: nat, source: seq<Byte>)
    requires k >= 1 && cut <= |base|
    requires Max((k - 1) * cut, offset) < Min((k - 1) * cut + cut, offset + |source|)
    ensures var start := (k - 1) * cut;
      var patchStart, patchEnd := Max(start, offset), Min(start + cut, offset + |source|);
      base[..patchStart - start] + source[patchStart - offset..patchEnd - offset] + base[patchEnd - start..]
      == Patched(base, k, cut, offset, source)
  {
  }

  lemma SpanElements(pages: seq<nat>, offset: nat, length: nat, pageSize: nat)
    requires pageSize > 0 && length > 0
    requires var first := FirstPage(offset, pageSize); var last := LastPage(offset, length, pageSize);
      first <= last + 1 && |pages| == last + 1 - first && forall i :: 0 <= i < |pages| ==> pages[i] == first + i
    ensures Elements(pages) == Span(offset, length, pageSize)
  {
    var first := FirstPage(offset, pageSize);
    forall k ensures k in Elements(pages) <==> k in Span(offset, length, pageSize) {
      if k in Span(offset, length, pageSize) {
        assert AtOrAfter(k, first);
        assert pages[k - first] == k;
      }
      if k in pages { assert AtOrAfter(k, first); }
    }
  }

  lemma TargetElements(v: Vfs, pages: seq<nat>, offset: nat, length: nat)
    requires length > 0 && !WholePages(offset, length, Cut(v.cfg))
    requires var first := FirstPage(offset, Cut(v.cfg));
      var known := Min(LastPage(offset, length, Cut(v.cfg)), v.size);
      && |pages| == (if first <= known then known + 1 - first else 0)
      && forall i :: 0 <= i < |pages| ==> pages[i] == first + i
    ensures Elements(pages) == PatchTargets(v, offset, length)
  {
    var first := FirstPage(offset, Cut(v.cfg));
    forall k ensures k in Elements(pages) <==> k in PatchTargets(v, offset, length) {
      if k in PatchTargets(v, offset, length) {
        assert AtOrAfter(k, first);
        assert pages[k - first] == k;
      }
      if k in pages { assert AtOrAfter(k, first); }
    }
  }

  /** Every page of a span shares at least one byte with the range. */
  lemma PatchNotEmpty(offset: nat, length: nat, pageSize: nat, k: nat)
    requires pageSize > 0 && length > 0
    requires FirstPage(offset, pageSize) <= k <= LastPage(offset, length, pageSize)
    ensures k >= 1
    ensures Max((k - 1) * pageSize, offset) < Min((k - 1) * pageSize + pageSize, offset + length)
  {
    DivBounds(offset, pageSize);
    DivBounds(offset + length - 1, pageSize);
    MulMonotone(offset / pageSize + 1, k, pageSize);
    MulMonotone(k - 1, (offset + length - 1) / pageSize, pageSize);
    assert k * pageSize == (k - 1) * pageSize + pageSize;
  }
}
