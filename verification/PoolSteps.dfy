/** The pool's methods carry out the steps of a run: the global list and every
    caller's list stay linked, and no page is in two of them. */
module PoolSteps {
  import opened Basics
  import opened PoolLayout
  import opened SockBufPool
  import opened PoolRuns
  import opened PoolMemory

  /** The link of one page of a list. */
  ghost predicate LinkHolds(pages: seq<Page>, k: nat)
    requires k < |pages|
    reads pages[k]
  {
    pages[k].next == At(pages, k + 1) && pages[k].size == 0
  }

  /** A caller's list holds some pages. */
  ghost predicate ListHolds(local: LocalList, pages: seq<Page>)
    reads local, pages
  {
    && local.pages == pages && local.head == At(pages, 0) && Distinct(pages)
    && forall k :: 0 <= k < |pages| ==> LinkHolds(pages, k)
  }

  lemma ListIsLinked(local: LocalList, pages: seq<Page>)
    ensures ListHolds(local, pages) <==>
              local.pages == pages && Linked(local.head, pages) && SockBuf.Blank(pages)
  {
    if Linked(local.head, pages) && SockBuf.Blank(pages) {
      assert forall k :: 0 <= k < |pages| ==> LinkHolds(pages, k);
    }
    if ListHolds(local, pages) {
      forall k | 0 <= k < |pages| ensures pages[k].next == At(pages, k + 1) && pages[k].size == 0 {
        assert LinkHolds(pages, k);
      }
    }
  }

  ghost function InLists(lists: seq<seq<Page>>): (r: set<Page>)
    ensures forall i, p :: 0 <= i < |lists| && p in lists[i] ==> p in r
  {
    set i, p | 0 <= i < |lists| && p in lists[i] :: p
  }

  ghost predicate ListsHold(locals: seq<LocalList>, lists: seq<seq<Page>>)
    reads locals, InLists(lists)
  {
    |locals| == |lists| && forall i :: 0 <= i < |locals| ==> ListHolds(locals[i], lists[i])
  }

  /** The pages have their buffers where a state of a run says. */
  ghost predicate BuffersHold(buffer: map<Page, Buffer>)
    reads buffer.Keys`buffer
  {
    forall p :: p in buffer ==> p.buffer == buffer[p]
  }

  /** The pool, the callers' lists and the pages hold what a state of a run says. */
  ghost predicate PoolHolds(pool: SockBuf, locals: seq<LocalList>, s: Pool)
    reads pool, s.free, locals, InLists(s.locals), s.buffer.Keys`buffer
  {
    && pool.free == s.free && pool.Valid() && pool.allocSegments == s.segments && pool.pageSize == s.pageSize
    && Distinct(locals) && ListsHold(locals, s.locals) && BuffersHold(s.buffer)
  }

  /** In a partition the lists share no page. */
  lemma ListsAreApart(s: Pool, t: nat)
    requires Partition(s) && t < |s.locals|
    ensures Apart(s.free, s.locals[t])
    ensures forall u, p :: 0 <= u < |s.locals| && u != t && p in s.locals[u] ==> p !in s.locals[t]
  {
    forall p | p in s.free ensures p !in s.locals[t] {
      LocalListsAreApart(s, t, t, p);
    }
    forall u, p | 0 <= u < |s.locals| && u != t && p in s.locals[u] ensures p !in s.locals[t] {
      LocalListsAreApart(s, t, u, p);
    }
  }

  lemma FreeIsApart(s: Pool)
    requires Partition(s)
    ensures forall u, p :: 0 <= u < |s.locals| && p in s.locals[u] ==> p !in s.free
  {
    forall u, p | 0 <= u < |s.locals| && p in s.locals[u] ensures p !in s.free {
      LocalListsAreApart(s, u, u, p);
    }
  }

  lemma HeldIsApart(s: Pool, p: Page)
    requires Partition(s) && p in s.held
    ensures p !in s.free && forall u :: 0 <= u < |s.locals| ==> p !in s.locals[u]
  {
    OnePlaceForEachPage(s, p);
    forall u | 0 <= u < |s.locals| ensures p !in s.locals[u] {
      LocalListsAreApart(s, u, u, p);
    }
  }

  lemma BeforeGet(pool: SockBuf, locals: seq<LocalList>, t: nat, s: Pool)
    requires PoolHolds(pool, locals, s) && t < |s.locals| && Apart(s.free, s.locals[t])
    ensures |locals| == |s.locals| && pool.free == s.free && locals[t].pages == s.locals[t]
    ensures pool.ValidWith(locals[t]) && LocalPages(locals[t]) == Some(s.locals[t])
    ensures Distinct(locals) && pool.allocSegments == s.segments && pool.pageSize == s.pageSize
    ensures BuffersHold(s.buffer)
    ensures forall i :: 0 <= i < |locals| ==> ListHolds(locals[i], s.locals[i])
    ensures forall i :: 0 <= i < |locals| && i != t ==> locals[i] != locals[t]
  {
    ListIsLinked(locals[t], s.locals[t]);
    hide Linked, SockBuf.Blank, BuffersHold;
  }

  lemma AfterGet(pool: SockBuf, locals: seq<LocalList>, t: nat, s: Pool, next: Pool)
    requires t < |locals| == |s.locals| == |next.locals| && pool.ValidWith(locals[t]) && Distinct(locals)
    requires pool.free == next.free && pool.allocSegments == next.segments && locals[t].pages == next.locals[t]
    requires pool.pageSize == next.pageSize && BuffersHold(next.buffer)
    requires forall i :: 0 <= i < |locals| && i != t ==>
               next.locals[i] == s.locals[i] && ListHolds(locals[i], s.locals[i])
    ensures PoolHolds(pool, locals, next)
  {
    ListIsLinked(locals[t], next.locals[t]);
    hide ListHolds, Distinct, BuffersHold;
  }

  lemma GetByThread(s: Pool, t: nat, batch: nat, bufSize: nat)
    requires Enabled(s, Get(Some(t), batch, bufSize))
    ensures t < |s.locals| && batch > 0
    ensures var r, next := GetPages(s.free, Some(s.locals[t]), batch, bufSize), Next(s, Get(Some(t), batch, bufSize));
            && r.local.Some? && next.free == r.free && next.locals == s.locals[t := r.local.value]
            && next.segments == s.segments && next.pageSize == s.pageSize
            && next.buffer == BuffersAfter(s.buffer, s.free, Some(s.locals[t]), batch, bufSize)
    ensures bufSize != 0 ==> s.pageSize == 0
  {
  }

  /** The lists and the page handed out are those of a result. */
  ghost predicate Got(pool: SockBuf, local: LocalList?, page: Page?, r: PageResult<Page>)
    reads pool, local, page
  {
    && pool.free == r.free && LocalPages(local) == r.local
    && page == (if r.page.Some? then r.page.value else null)
    && (page != null ==> page.next == null)
    && (page != null && r.companion.Some? ==> page.size == CACHE_LINE && page.buffer == Companion(r.companion.value))
  }

  lemma GotMeans(pool: SockBuf, local: LocalList?, page: Page?, r: PageResult<Page>)
    requires Got(pool, local, page, r)
    ensures pool.free == r.free && LocalPages(local) == r.local
    ensures page == null <==> r.page.None?
    ensures page != null ==>
              && r.page == Some(page) && page.next == null
              && (r.companion.Some? ==> page.size == CACHE_LINE && page.buffer == Companion(r.companion.value))
  {
  }

  /** A get puts the buffers where the run says. */
  method GetBuffers(pool: SockBuf, local: LocalList?, ghost mine: seq<Page>, batch: nat, bufSize: nat,
                    ghost buffer: map<Page, Buffer>)
      returns (page: Page?)
    requires BuffersHold(buffer)
    requires pool.ValidWith(local) && batch > 0 && (if local == null then mine == [] else local.pages == mine)
    requires bufSize != 0 ==> pool.pageSize == 0
    modifies pool, pool.free, local, mine
    ensures pool.ValidWith(local) && pool.allocSegments == old(pool.allocSegments)
    ensures Got(pool, local, page, GetPages(old(pool.free), old(LocalPages(local)), batch, bufSize))
    ensures BuffersHold(BuffersAfter(buffer, old(pool.free), old(LocalPages(local)), batch, bufSize))
  {
    LowGetFrom(pool.free, LocalPages(local), batch);
    hide GetPages, LowGet, SockBuf.ValidWith, NeedsCompanion;
    page := pool.GetPage(bufSize, local, batch);
    ghost var first := LowGet(old(pool.free), old(LocalPages(local)), batch).page;
    ghost var second := GetPages(old(pool.free), old(LocalPages(local)), batch, bufSize).companion;
    forall p | p in buffer ensures p.buffer == BufferAfter(buffer[p], p, first, second, bufSize) {
      if p !in old(pool.free) && p !in mine {
        assert unchanged(p) && first != Some(p);
      }
    }
  }

  /** A get leaves every other list alone. */
  method GetAmong(pool: SockBuf, local: LocalList?, ghost mine: seq<Page>, batch: nat, bufSize: nat,
                  ghost locals: seq<LocalList>, ghost lists: seq<seq<Page>>, ghost buffer: map<Page, Buffer>)
      returns (page: Page?)
    requires BuffersHold(buffer)
    requires pool.ValidWith(local) && batch > 0 && (if local == null then mine == [] else local.pages == mine)
    requires bufSize != 0 ==> pool.pageSize == 0
    requires |locals| == |lists| && forall i :: 0 <= i < |locals| && locals[i] != local ==>
              ListHolds(locals[i], lists[i])
    requires forall i, p :: 0 <= i < |lists| && locals[i] != local && p in lists[i] ==> p !in pool.free && p !in mine
    modifies pool, pool.free, local, mine
    ensures pool.ValidWith(local) && pool.allocSegments == old(pool.allocSegments)
    ensures Got(pool, local, page, GetPages(old(pool.free), old(LocalPages(local)), batch, bufSize))
    ensures BuffersHold(BuffersAfter(buffer, old(pool.free), old(LocalPages(local)), batch, bufSize))
    ensures forall i :: 0 <= i < |locals| && locals[i] != local ==> ListHolds(locals[i], lists[i])
  {
    hide GetPages, LowGet, SockBuf.ValidWith, Distinct, Got, BuffersAfter, BuffersHold;
    page := GetBuffers(pool, local, mine, batch, bufSize, buffer);
    forall i | 0 <= i < |locals| && locals[i] != local ensures ListHolds(locals[i], lists[i]) {
      forall k | 0 <= k < |lists[i]| ensures LinkHolds(lists[i], k) {
        var p := lists[i][k];
        assert p in lists[i];
        assert p !in old(pool.free) && p !in mine && unchanged(p);
      }
    }
  }

  /** A get by a caller with a list of its own. */
  method GetStep(pool: SockBuf, locals: seq<LocalList>, t: nat, batch: nat, bufSize: nat, ghost s: Pool)
      returns (page: Page?, ghost next: Pool)
    requires PoolHolds(pool, locals, s) && Partition(s) && Enabled(s, Get(Some(t), batch, bufSize))
    requires bufSize != 0 ==> pool.pageSize == 0
    modifies pool, s.free, locals[t], s.locals[t]
    ensures next == Next(s, Get(Some(t), batch, bufSize)) && PoolHolds(pool, locals, next) && Partition(next)
    ensures var r := GetPages(s.free, Some(s.locals[t]), batch, bufSize);
            && (page == null <==> r.page.None?)
            && (page != null ==> r.page == Some(page) && page.next == null)
            && (page != null && r.companion.Some? ==>
                  page.size == CACHE_LINE && page.buffer == Companion(r.companion.value))
  {
    hide *;
    next := Next(s, Get(Some(t), batch, bufSize));
    GetKeepsPartition(s, Some(t), batch, bufSize);
    GetByThread(s, t, batch, bufSize);
    FreeIsApart(s);
    ListsAreApart(s, t);
    BeforeGet(pool, locals, t, s);
    page := GetAmong(pool, locals[t], s.locals[t], batch, bufSize, locals, s.locals, s.buffer);
    GotMeans(pool, locals[t], page, GetPages(s.free, Some(s.locals[t]), batch, bufSize));
    LocalIs(locals[t], next.locals[t]);
    AfterGet(pool, locals, t, s, next);
  }

  lemma LocalIs(local: LocalList, pages: seq<Page>)
    ensures LocalPages(local) == Some(pages) <==> local.pages == pages
  {
  }

  /** A get without a list of its own. */
  method GetFreeStep(pool: SockBuf, locals: seq<LocalList>, batch: nat, bufSize: nat, ghost s: Pool)
      returns (page: Page?, ghost next: Pool)
    requires PoolHolds(pool, locals, s) && Partition(s) && Enabled(s, Get(None, batch, bufSize))
    requires bufSize != 0 ==> pool.pageSize == 0
    modifies pool, s.free
    ensures next == Next(s, Get(None, batch, bufSize)) && PoolHolds(pool, locals, next) && Partition(next)
    ensures var r := GetPages(s.free, None, batch, bufSize);
            && (page == null <==> r.page.None?)
            && (page != null ==> r.page == Some(page) && page.next == null)
            && (page != null && r.companion.Some? ==>
                  page.size == CACHE_LINE && page.buffer == Companion(r.companion.value))
  {
    next := Next(s, Get(None, batch, bufSize));
    GetKeepsPartition(s, None, batch, bufSize);
    FreeIsApart(s);
    assert batch > 0 && pool.ValidWith(null) && LocalPages(null) == None;
    assert next.locals == s.locals && next.segments == s.segments && next.pageSize == s.pageSize;
    assert next.buffer == BuffersAfter(s.buffer, s.free, None, batch, bufSize);
    hide GetPages, SockBuf.ValidWith, Distinct, Partition, Apart, Linked, BuffersAfter;
    page := GetAmong(pool, null, [], batch, bufSize, locals, s.locals, s.buffer);
    GotMeans(pool, null, page, GetPages(s.free, None, batch, bufSize));
  }

  lemma HoldsMeans(pool: SockBuf, locals: seq<LocalList>, s: Pool)
    requires PoolHolds(pool, locals, s)
    ensures pool.Valid() && pool.free == s.free && pool.allocSegments == s.segments && pool.pageSize == s.pageSize
    ensures Distinct(locals) && ListsHold(locals, s.locals) && BuffersHold(s.buffer)
  {
    hide ListsHold, Distinct;
  }

  lemma HoldsIs(pool: SockBuf, locals: seq<LocalList>, s: Pool)
    requires pool.Valid() && pool.free == s.free && pool.allocSegments == s.segments && pool.pageSize == s.pageSize
    requires Distinct(locals) && ListsHold(locals, s.locals) && BuffersHold(s.buffer)
    ensures PoolHolds(pool, locals, s)
  {
    hide ListsHold, Distinct;
  }

  lemma HeldIsInNoList(s: Pool, page: Page)
    requires Partition(s) && Enabled(s, Return(page))
    ensures page !in s.free && page !in InLists(s.locals)
    ensures var next := Next(s, Return(page));
            && next.free == AfterReturn(s.free, [page]) && next.locals == s.locals && next.segments == s.segments
            && next.pageSize == s.pageSize
            && next.buffer == (if s.pageSize == 0 then s.buffer[page := NoBuffer] else s.buffer)
  {
    HeldIsApart(s, page);
    hide Partition;
  }

  lemma SinglePage(pool: SockBuf, page: Page)
    requires pool.CompanionOf(page) == None && page !in pool.free && page.next == null
    ensures WithCompanions([page], pool.Companions([page])) == [page]
    ensures Distinct([page]) && Apart(pool.free, [page]) && Linked(page, [page])
  {
  }

  /** A single page without companion is returned by a caller that holds it. */
  method ReturnStep(pool: SockBuf, locals: seq<LocalList>, page: Page, ghost s: Pool)
      returns (ghost next: Pool)
    requires PoolHolds(pool, locals, s) && Partition(s) && Enabled(s, Return(page))
    requires page.next == null && pool.Returnable([page]) && pool.CompanionOf(page) == None
    modifies pool, page
    ensures next == Next(s, Return(page)) && PoolHolds(pool, locals, next) && Partition(next)
  {
    hide *;
    next := Next(s, Return(page));
    ReturnKeepsPartition(s, page);
    HeldIsInNoList(s, page);
    HoldsMeans(pool, locals, s);
    SinglePage(pool, page);
    ReturnOne(pool, page, locals, s.locals, s.buffer);
    HoldsIs(pool, locals, next);
  }

  method ReturnOne(pool: SockBuf, page: Page, ghost locals: seq<LocalList>, ghost lists: seq<seq<Page>>,
                   ghost buffer: map<Page, Buffer>)
    requires pool.Valid() && Linked(page, [page]) && pool.Returnable([page])
    requires WithCompanions([page], pool.Companions([page])) == [page] && Distinct([page]) && Apart(pool.free, [page])
    requires ListsHold(locals, lists) && page !in InLists(lists) && BuffersHold(buffer)
    requires pool.CompanionOf(page) == None
    modifies pool, page
    ensures pool.Valid() && pool.free == AfterReturn(old(pool.free), [page])
    ensures pool.allocSegments == old(pool.allocSegments) && ListsHold(locals, lists)
    ensures BuffersHold(if pool.pageSize == 0 then buffer[page := NoBuffer] else buffer)
  {
    assert !SockBuf.HasCompanion([page], pool.Companions([page]), page);
    hide SockBuf.Valid, SockBuf.Returnable, SockBuf.HasCompanion, AfterReturn, WithCompanions, ListHolds, Distinct,
        Apart;
    pool.ReturnPages(page, [page]);
    forall p | p in buffer && p != page ensures p.buffer == buffer[p] {
      assert unchanged(p);
    }
    assert page in [page];
  }

  /** Where the pages of a list have their buffers. */
  ghost function BuffersOf(pages: seq<Page>): (buffer: map<Page, Buffer>)
    reads pages`buffer
  {
    map p | p in pages :: p.buffer
  }

  /** The pages of a segment as it was carved. */
  lemma CarvedIsSegment(pages: seq<Page>, ptr: int, pageSize: nat)
    requires Carved(Layout(pages, pageSize), ptr, pageSize, |pages|)
    requires forall p :: p in pages ==> IsHome(p, pageSize)
    ensures IsSegment(pages, BuffersOf(pages), ptr, pageSize)
  {
    var d := Layout(pages, pageSize);
    forall i | 0 <= i < |pages|
      ensures pages[i].addr == ptr + i * CACHE_LINE
      ensures pages[i].buffer == if pageSize == 0 then NoBuffer else Segment(ptr + |pages| * CACHE_LINE + i * pageSize)
    {
      assert IsHome(pages[i], pageSize) && d[i].addr == ptr + i * CACHE_LINE;
      assert d[i].buf == if pageSize == 0 then 0 else ptr + |pages| * CACHE_LINE + i * pageSize;
    }
  }

  method GrowOne(pool: SockBuf, noOfPages: nat, memory: Option<int>, ghost locals: seq<LocalList>,
                 ghost lists: seq<seq<Page>>, ghost buffer: map<Page, Buffer>)
      returns (error: int)
    requires pool.Valid() && noOfPages > 0 && ListsHold(locals, lists) && BuffersHold(buffer)
    modifies pool
    ensures pool.Valid() && ListsHold(locals, lists) && BuffersHold(buffer)
    ensures error == 0 <==> memory.Some? && old(pool.allocSegments) < MAX_ALLOC_SEGMENTS
    ensures error != 0 ==> pool.free == old(pool.free) && pool.allocSegments == old(pool.allocSegments)
    ensures error == 0 ==>
              && |pool.free| == noOfPages + |old(pool.free)| && pool.free[noOfPages..] == old(pool.free)
              && fresh(pool.free[..noOfPages]) && pool.allocSegments == old(pool.allocSegments) + 1
              && IsSegment(pool.free[..noOfPages], BuffersOf(pool.free[..noOfPages]), memory.value, pool.pageSize)
  {
    hide SockBuf.Valid, ListHolds, Carved, Layout, IsHome, BuffersOf, IsSegment;
    error := pool.IncSockBuf(noOfPages, memory);
    if error == 0 {
      CarvedIsSegment(pool.free[..noOfPages], memory.value, pool.pageSize);
    }
  }

  lemma FrontIsDistinct(pool: SockBuf, n: nat)
    requires pool.Valid() && n <= |pool.free|
    ensures Distinct(pool.free[..n])
  {
  }

  lemma BuffersJoin(buffer: map<Page, Buffer>, added: seq<Page>)
    requires BuffersHold(buffer)
    ensures BuffersHold(buffer + BuffersOf(added))
  {
  }

  lemma GrownState(pool: SockBuf, s: Pool, n: nat, ptr: int) returns (grow: Action)
    requires pool.Valid() && |pool.free| == n + |s.free| && n > 0 && pool.free[n..] == s.free
    requires forall p :: p in pool.free[..n] ==> p !in s.pages
    requires s.segments < MAX_ALLOC_SEGMENTS && pool.pageSize == s.pageSize && BuffersHold(s.buffer)
    requires IsSegment(pool.free[..n], BuffersOf(pool.free[..n]), ptr, s.pageSize)
    requires IsClear(s, Range(ptr, SegmentBytes(s, n)))
    ensures grow == Grow(pool.free[..n], BuffersOf(pool.free[..n]), ptr) && Enabled(s, grow)
    ensures var next := Next(s, grow);
            && next.free == pool.free && next.locals == s.locals && next.segments == s.segments + 1
            && next.pageSize == s.pageSize && BuffersHold(next.buffer)
  {
    var added := pool.free[..n];
    grow := Grow(added, BuffersOf(added), ptr);
    FrontIsDistinct(pool, n);
    BuffersJoin(s.buffer, added);
    assert pool.free == added + s.free;
    hide *;
    GrowIs(s, added, grow.home, ptr);
  }

  lemma GrowIs(s: Pool, added: seq<Page>, home: map<Page, Buffer>, ptr: int)
    requires added != [] && Distinct(added) && forall p :: p in added ==> p !in s.pages
    requires IsSegment(added, home, ptr, s.pageSize) && IsClear(s, Range(ptr, SegmentBytes(s, |added|)))
    requires s.segments < MAX_ALLOC_SEGMENTS
    ensures Enabled(s, Grow(added, home, ptr))
    ensures var next := Next(s, Grow(added, home, ptr));
            && next.free == added + s.free && next.locals == s.locals && next.segments == s.segments + 1
            && next.pageSize == s.pageSize && next.buffer == s.buffer + home
  {
    hide Distinct, IsSegment, IsClear, SegmentBytes;
  }

  /** A segment is added, or refused when there are eight or there is no memory
      for it. Memory that is allocated overlaps none in use. */
  method GrowStep(pool: SockBuf, locals: seq<LocalList>, noOfPages: nat, memory: Option<int>, ghost s: Pool)
      returns (error: int, ghost next: Pool)
    requires PoolHolds(pool, locals, s) && Partition(s) && noOfPages > 0 && s.buffer.Keys == s.pages
    requires memory.Some? ==> IsClear(s, Range(memory.value, SegmentBytes(s, noOfPages)))
    modifies pool
    ensures PoolHolds(pool, locals, next) && Partition(next)
    ensures error == 0 <==> memory.Some? && s.segments < MAX_ALLOC_SEGMENTS
    ensures error != 0 ==> next == s
    ensures error == 0 ==>
              && |pool.free| == noOfPages + |s.free| && fresh(pool.free[..noOfPages])
              && var grow := Grow(pool.free[..noOfPages], BuffersOf(pool.free[..noOfPages]), memory.value);
                 Enabled(s, grow) && next == Next(s, grow)
  {
    hide *;
    next := s;
    HoldsMeans(pool, locals, s);
    error := GrowOne(pool, noOfPages, memory, locals, s.locals, s.buffer);
    if error == 0 {
      ghost var grow := GrownState(pool, s, noOfPages, memory.value);
      next := Next(s, grow);
      GrowKeepsPartition(s, grow.added, grow.home, grow.ptr);
    }
    HoldsIs(pool, locals, next);
  }

  lemma FreshHolds(pool: SockBuf, locals: seq<LocalList>)
    requires pool.Valid() && pool.allocSegments == 1 && Distinct(locals)
    requires forall i :: 0 <= i < |locals| ==> locals[i].head == null && locals[i].pages == []
    ensures PoolHolds(pool, locals, FreshPool(pool.free, |locals|, pool.pageSize, BuffersOf(pool.free)))
  {
    var s := FreshPool(pool.free, |locals|, pool.pageSize, BuffersOf(pool.free));
    assert forall i :: 0 <= i < |locals| ==> ListHolds(locals[i], s.locals[i]);
    assert BuffersHold(s.buffer);
    hide Linked, Distinct, InLists, BuffersHold;
  }

  lemma FreeIsDistinct(pool: SockBuf)
    requires pool.Valid()
    ensures Distinct(pool.free)
  {
  }

  /** A new pool, for callers whose lists are still empty. */
  method CreateStep(pageSize: nat, noOfPages: nat, ptr: int, ghost locals: seq<LocalList>)
      returns (pool: SockBuf, ghost s: Pool)
    requires noOfPages > 0 && Distinct(locals)
    requires forall i :: 0 <= i < |locals| ==> locals[i].head == null && locals[i].pages == []
    ensures PoolHolds(pool, locals, s) && Partition(s) && Paired(s) && Laid(s)
    ensures s == FreshPool(pool.free, |locals|, pageSize, BuffersOf(pool.free))
  {
    hide *;
    pool := new SockBuf(pageSize, noOfPages, ptr);
    s := FreshPool(pool.free, |locals|, pageSize, BuffersOf(pool.free));
    CarvedIsSegment(pool.free, ptr, pageSize);
    FreeIsDistinct(pool);
    FreshPoolIsPartitioned(pool.free, |locals|, pageSize, BuffersOf(pool.free));
    FreshPoolIsLaid(pool.free, |locals|, pageSize, BuffersOf(pool.free), ptr);
    FreshHolds(pool, locals);
  }
}
