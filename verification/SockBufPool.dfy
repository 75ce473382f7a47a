/** The socket buffer page pool of comm/ic_sock_buf.c: a global free list of
    pages, thread-local free lists filled in batches, segments added on demand,
    and pages that borrow a second page as their buffer. */
module SockBufPool {
  import opened Basics
  import opened PoolLayout

  const BUF_AREA_OFFSET: nat := 64    // offset of buf_area in a page descriptor
  const MAX_ALLOC_SEGMENTS: nat := 8
  const MEM_ALLOC_ERROR: int := 7005

  // ----- what the operations do to lists of pages -----

  datatype GetResult<T> = GetResult(page: Option<T>, free: seq<T>, local: Option<seq<T>>)

  /** low_get_sock_buf_page: one page from the local list, or a batch from the
      global list whose first page is handed out and whose rest becomes the
      local list. Without a local list the batch is a single page. */
  function LowGet<T>(free: seq<T>, local: Option<seq<T>>, batch: nat): GetResult<T> {
    if local.Some? && local.value != [] then
      GetResult(Some(local.value[0]), free, Some(local.value[1..]))
    else
      var want := if local.Some? then batch else 1;
      var k := if want < |free| then want else |free|;
      if k == 0 then GetResult(None, free, local)
      else GetResult(Some(free[0]), free[k..], if local.Some? then Some(free[1..k]) else None)
  }

  /** Nothing comes out of a get that was not in one of the two lists. */
  lemma LowGetFrom<T>(free: seq<T>, local: Option<seq<T>>, batch: nat)
    ensures var r := LowGet(free, local, batch);
            && r.local.Some? == local.Some?
            && (forall p :: p in r.free ==> p in free)
            && (r.local.Some? ==> forall p :: p in r.local.value ==> p in free || p in local.value)
            && (r.page.Some? ==> r.page.value in free || (local.Some? && r.page.value in local.value))
  {
  }

  /** Only buffers between the in-page area and one cache line need a second page. */
  predicate NeedsCompanion(bufSize: nat) {
    CACHE_LINE - BUF_AREA_OFFSET < bufSize <= CACHE_LINE
  }

  datatype PageResult<T> = PageResult(page: Option<T>, companion: Option<T>, free: seq<T>, local: Option<seq<T>>)

  /** get_sock_buf_page. If the second page is not to be had, the first goes
      back to the global list. */
  function GetPages<T>(free: seq<T>, local: Option<seq<T>>, batch: nat, bufSize: nat): PageResult<T> {
    var a := LowGet(free, local, batch);
    if a.page.None? || !NeedsCompanion(bufSize) then PageResult(a.page, None, a.free, a.local)
    else
      var b := LowGet(a.free, a.local, batch);
      if b.page.None? then PageResult(None, None, [a.page.value] + b.free, b.local)
      else PageResult(a.page, b.page, b.free, b.local)
  }

  /** The pages a chain hands back: each page, then its companion if it has one. */
  function WithCompanions<T>(chain: seq<T>, companions: seq<Option<T>>): (pages: seq<T>)
    requires |companions| == |chain|
    ensures chain != [] ==> pages != [] && pages[0] == chain[0]
  {
    if chain == [] then []
    else
      [chain[0]] + (if companions[0].Some? then [companions[0].value] else [])
      + WithCompanions(chain[1..], companions[1..])
  }

  /** return_sock_buf_page as written: the pages are linked backwards, the old
      free list is hung on the last of them, and the list head is set to the
      first. Only a single page keeps its connection to the old list. */
  function AfterReturn<T>(free: seq<T>, returned: seq<T>): seq<T>
    requires returned != []
  {
    if |returned| == 1 then returned + free else [returned[0]]
  }

  // ----- the linked structure -----

  /** Where the buffer of a page is: nowhere, inside the page, at an address of
      the segment, or a second page. */
  datatype Buffer = NoBuffer | OwnArea | Segment(start: int) | Companion(page: Page)

  class Page {
    const addr: int
    var next: Page?
    var buffer: Buffer
    var size: nat
    var refCount: int

    constructor (addr: int, buffer: Buffer, size: nat)
      ensures this.addr == addr && next == null && this.buffer == buffer && this.size == size && refCount == 0
    {
      this.addr := addr;
      next, this.buffer, this.size, refCount := null, buffer, size, 0;
    }
  }

  /** The memory a page itself takes. */
  function Cell(page: Page): Range {
    Range(page.addr, CACHE_LINE)
  }

  /** The memory of its buffer, when pages have `pageSize` bytes of their own. */
  function Area(page: Page, buffer: Buffer, pageSize: nat): Range {
    match buffer
    case NoBuffer => Range(0, 0)
    case OwnArea => Range(page.addr + BUF_AREA_OFFSET, CACHE_LINE - BUF_AREA_OFFSET)
    case Segment(start) => Range(start, pageSize)
    case Companion(second) => Cell(second)
  }

  /** The buffer of a page after a get that took `first` off the lists, and the
      second page if it needed one and there was one. */
  function BufferAfter(was: Buffer, page: Page, first: Option<Page>, companion: Option<Page>, bufSize: nat): Buffer {
    if first != Some(page) || bufSize == 0 || bufSize > CACHE_LINE then was
    else if !NeedsCompanion(bufSize) then OwnArea
    else if companion.Some? then Companion(companion.value)
    else NoBuffer
  }

  /** The layout of a list of pages, each linked to the memory behind it. */
  function Layout(pages: seq<Page>, pageSize: nat): (d: seq<Descriptor>)
    reads pages`buffer
    ensures |d| == |pages|
    ensures forall i :: 0 <= i < |pages| ==>
              d[i] == Descriptor(pages[i].addr, Area(pages[i], pages[i].buffer, pageSize).start, pages[i].addr +
                  CACHE_LINE)
  {
    if pages == [] then []
    else
      var n := |pages| - 1;
      Layout(pages[..n], pageSize)
      + [Descriptor(pages[n].addr, Area(pages[n], pages[n].buffer, pageSize).start, pages[n].addr + CACHE_LINE)]
  }

  /** The buffer of a page that is in no caller's hands. */
  predicate IsHome(page: Page, pageSize: nat)
    reads page`buffer
  {
    if pageSize == 0 then page.buffer == NoBuffer else page.buffer.Segment?
  }

  predicate Distinct<T(==)>(s: seq<T>) {
    forall i, j :: 0 <= i < j < |s| ==> s[i] != s[j]
  }

  predicate Apart<T(==)>(a: seq<T>, b: seq<T>) {
    forall x :: x in a ==> x !in b
  }

  lemma DistinctConcat<T>(a: seq<T>, b: seq<T>)
    requires Distinct(a) && Distinct(b) && Apart(a, b)
    ensures Distinct(a + b)
  {
    forall i, j | 0 <= i < j < |a + b| ensures (a + b)[i] != (a + b)[j] {
      assert j >= |a| ==> (a + b)[j] in b;
    }
  }

  /** `pages` are, in order, the NULL-terminated list that starts at `head`. */
  ghost predicate Linked(head: Page?, pages: seq<Page>)
    reads pages
  {
    && Distinct(pages)
    && head == At(pages, 0)
    && forall i :: 0 <= i < |pages| ==> pages[i].next == At(pages, i + 1)
  }

  function At(pages: seq<Page>, i: nat): Page? {
    if i < |pages| then pages[i] else null
  }

  /** A caller's own list of free pages. */
  class LocalList {
    var head: Page?
    ghost var pages: seq<Page>

    constructor ()
      ensures head == null && pages == []
    {
      head, pages := null, [];
    }
  }

  ghost function LocalPages(local: LocalList?): Option<seq<Page>>
    reads local
  {
    if local == null then None else Some(local.pages)
  }

  class SockBuf {
    const pageSize: nat
    var first: Page?
    var allocSegments: nat
    ghost var free: seq<Page>

    ghost predicate Valid()
      reads this, free
    {
      Linked(first, free) && allocSegments <= MAX_ALLOC_SEGMENTS
    }

    /** Pages as a refill leaves them: no size recorded. */
    static ghost predicate Blank(pages: seq<Page>)
      reads pages
    {
      forall i :: 0 <= i < |pages| ==> pages[i].size == 0
    }

    /** The pool and a local list, sharing no page. */
    ghost predicate ValidWith(local: LocalList?)
      reads this, free, local, if local == null then [] else local.pages
    {
      && Valid()
      && (local != null ==> Linked(local.head, local.pages) && Apart(free, local.pages) && Blank(local.pages))
    }

    /** ic_create_sock_buf, given the memory it allocated. */
    constructor (pageSize: nat, noOfPages: nat, ptr: int)
      requires noOfPages > 0
      ensures Valid() && |free| == noOfPages && fresh(free) && this.pageSize == pageSize && allocSegments == 1
      ensures Carved(Layout(free, pageSize), ptr, pageSize, noOfPages)
      ensures forall p :: p in free ==> IsHome(p, pageSize)
    {
      hide Linked, Carved, Layout, IsHome;
      var pages := NewPages(noOfPages, pageSize, ptr);
      this.pageSize := pageSize;
      allocSegments := 1;
      first, free := pages[0], pages;
    }

    /** The list that set_up_pages_in_linked_list carves from a segment, its
        last link cleared: the pages at the front, their buffers behind them. */
    static method NewPages(n: nat, pageSize: nat, ptr: int) returns (pages: seq<Page>)
      requires n > 0
      ensures |pages| == n && fresh(pages) && Linked(pages[0], pages)
      ensures forall p :: p in pages ==> p.size == pageSize && p.refCount == 0 && IsHome(p, pageSize)
      ensures Carved(Layout(pages, pageSize), ptr, pageSize, n)
    {
      hide Linked;
      pages := [];
      var pagePtr, loopPtr := ptr, if pageSize == 0 then 0 else ptr + n * CACHE_LINE;
      EmptyIsLinked();
      for i := 0 to n
        invariant |pages| == i && fresh(pages) && Linked(At(pages, 0), pages)
        invariant pagePtr == ptr + i * CACHE_LINE
        invariant loopPtr == if pageSize == 0 then 0 else ptr + n * CACHE_LINE + i * pageSize
        invariant forall j :: 0 <= j < i ==> IsCut(pages[j], pageSize, ptr, n, j)
      {
        pages := AddPage(pages, pageSize, pagePtr, if pageSize == 0 then NoBuffer else Segment(loopPtr));
        assert (i + 1) * pageSize == i * pageSize + pageSize;
        pagePtr, loopPtr := pagePtr + CACHE_LINE, loopPtr + pageSize;
      }
      CutsAreCarved(pages, pageSize, ptr, n);
    }

    static lemma EmptyIsLinked()
      ensures Linked(At([], 0), [])
    {
    }

    static method AddPage(pages: seq<Page>, pageSize: nat, addr: int, buffer: Buffer) returns (grown: seq<Page>)
      requires Linked(At(pages, 0), pages)
      modifies pages`next
      ensures |grown| == |pages| + 1 && grown[..|pages|] == pages && fresh(grown[|pages|])
      ensures Linked(grown[0], grown)
      ensures var page := grown[|pages|];
              page.addr == addr && page.buffer == buffer && page.size == pageSize && page.refCount == 0
    {
      var page := new Page(addr, buffer, pageSize);
      if pages != [] {
        pages[|pages| - 1].next := page;
      }
      grown := pages + [page];
    }

    /** A page is piece `j` of a segment of `n` pages. */
    static predicate IsCut(page: Page, pageSize: nat, ptr: int, n: nat, j: nat)
      reads page
    {
      && page.addr == ptr + j * CACHE_LINE && page.size == pageSize && page.refCount == 0
      && page.buffer == if pageSize == 0 then NoBuffer else Segment(ptr + n * CACHE_LINE + j * pageSize)
    }

    static lemma CutsAreCarved(pages: seq<Page>, pageSize: nat, ptr: int, n: nat)
      requires |pages| == n && forall j :: 0 <= j < n ==> IsCut(pages[j], pageSize, ptr, n, j)
      ensures Carved(Layout(pages, pageSize), ptr, pageSize, n)
      ensures forall p :: p in pages ==> p.size == pageSize && p.refCount == 0 && IsHome(p, pageSize)
    {
      forall j | 0 <= j < n
        ensures var d := Layout(pages, pageSize)[j];
                && d.addr == ptr + j * CACHE_LINE && d.next == d.addr + CACHE_LINE
                && d.buf == if pageSize == 0 then 0 else ptr + n * CACHE_LINE + j * pageSize
      {
        assert IsCut(pages[j], pageSize, ptr, n, j);
      }
    }

    /** Take the first page off a local list that has one. */
    method PopLocal(local: LocalList) returns (page: Page)
      requires local.head != null && Linked(local.head, local.pages) && Blank(local.pages)
      modifies local, local.pages`next
      ensures page == old(local.pages[0]) && local.pages == old(local.pages[1..])
      ensures Linked(local.head, local.pages) && Blank(local.pages)
      ensures page.next == null && page.size == 0
    {
      page := local.head;
      local.head := local.head.next;
      page.next := null;
      local.pages := local.pages[1..];
    }

    /** low_get_sock_buf_page. */
    method LowGetPage(local: LocalList?, num: nat) returns (page: Page?)
      requires ValidWith(local) && num > 0
      modifies this`first, this`free, free`next, free`size, free`refCount
      modifies local, (if local == null then [] else local.pages)`next
      ensures ValidWith(local)
      ensures var r := LowGet(old(free), old(LocalPages(local)), num);
              && free == r.free
              && LocalPages(local) == r.local
              && page == (if r.page.Some? then r.page.value else null)
      ensures page != null ==> page.next == null && page !in free && (local != null ==> page !in local.pages)
      ensures page != null ==> page.size == 0
    {
      var want := num;
      if local != null {
        if local.head != null {
          page := GetFromLocal(local, num);
          return;
        }
      } else {
        want := 1;
      }
      page := GetFromGlobal(local, want);
    }

    /** The fast path: the local list has a page. */
    method GetFromLocal(local: LocalList, ghost num: nat) returns (page: Page)
      requires ValidWith(local) && local.head != null
      modifies local, local.pages`next
      ensures ValidWith(local)
      ensures LowGet(free, Some(old(local.pages)), num) == GetResult(Some(page), free, Some(local.pages))
      ensures page.next == null && page.size == 0 && page !in free && page !in local.pages
    {
      assert forall i :: 0 <= i < |free| ==> free[i] in free;
      assert local.pages[0] !in free && local.pages[0] !in local.pages[1..];
      page := PopLocal(local);
    }

    /** Under the mutex: move the list head past `want` pages, or as many as
        there are. The links of the pages passed are not touched. */
    method DetachBatch(want: nat) returns (page: Page?, ghost k: nat)
      requires Valid() && want > 0
      modifies this`first, this`free
      ensures k == if want < |old(free)| then want else |old(free)|
      ensures free == old(free)[k..] && Linked(first, free)
      ensures page == At(old(free), 0)
    {
      page := first;
      var next := first;
      k := 0;
      var i := 0;
      while i < want && next != null
        invariant 0 <= i <= want && k == i <= |free| && next == At(free, i)
      {
        next := next.next;
        i := i + 1;
        k := k + 1;
      }
      first := next;
      free := free[k..];
      assert forall j :: 0 <= j < |free| ==> free[j] == old(free)[k + j];
    }

    /** Initialise up to `want` pages from `page` on: the first `k` of the list
        `all`. Returns the last of them. */
    method InitBatch(page: Page, want: nat, ghost all: seq<Page>, ghost k: nat) returns (last: Page)
      requires 0 < k <= |all| && Distinct(all) && page == all[0]
      requires k == if want < |all| then want else |all|
      requires forall i :: 0 <= i < k ==> all[i].next == At(all, i + 1)
      modifies all[..k]`size, all[..k]`refCount
      ensures last == all[k - 1]
      ensures forall i :: 0 <= i < k ==> all[i].size == 0 && all[i].refCount == 0
      ensures forall i :: 0 <= i < k ==> all[i].next == At(all, i + 1)
    {
      var next: Page? := page;
      last := page;
      var i := 0;
      while i < want && next != null
        invariant 0 <= i <= k && next == At(all, i)
        invariant i > 0 ==> last == all[i - 1]
        invariant forall j :: 0 <= j < k ==> all[j].next == At(all, j + 1)
        invariant forall j :: 0 <= j < i ==> all[j].size == 0 && all[j].refCount == 0
        decreases want - i
      {
        assert next == all[..k][i];
        next.size := 0;
        next.refCount := 0;
        last := next;
        next := next.next;
        i := i + 1;
      }
    }

    /** A list without repetitions, split behind its first page and at `k`. */
    static lemma SplitFacts(all: seq<Page>, k: nat)
      requires 0 < k <= |all| && Distinct(all)
      ensures Distinct(all[1..k]) && Apart(all[k..], all[1..k])
      ensures forall j :: 0 <= j < |all[k..]| ==> all[k..][j] !in all[..k]
    {
      assert forall j :: 0 <= j < |all[k..]| ==> all[k..][j] == all[k + j];
    }

    /** Hand out the first page of a batch and make the others the local list. */
    method CutBatch(local: LocalList?, page: Page, last: Page, ghost all: seq<Page>, ghost k: nat)
      requires 0 < k <= |all| && Distinct(all) && page == all[0] && last == all[k - 1]
      requires forall i :: 0 <= i < k ==> all[i].next == At(all, i + 1)
      requires forall i :: 0 <= i < k ==> all[i].size == 0
      requires local != null ==> local.head == null
      modifies local, all[..k]`next
      ensures page.next == null && page.size == 0
      ensures local != null ==> local.pages == all[1..k] && Linked(local.head, local.pages) && Blank(local.pages)
    {
      assert page == all[..k][0] && last == all[..k][k - 1];
      SplitFacts(all, k);
      assert forall i :: 0 <= i < k - 1 ==> all[1..k][i] == all[i + 1];
      assert forall i :: 0 <= i < k - 1 ==> all[i] != last;
      assert forall i :: 1 <= i < k ==> all[i] != page;
      hide Distinct, Apart;
      if local != null {
        if last != page {
          local.head := page.next;
          last.next := null;
        }
        local.pages := all[1..k];
      }
      page.next := null;
    }

    /** The refill path: a batch of min(want, free pages) leaves the global list. */
    method GetFromGlobal(local: LocalList?, want: nat) returns (page: Page?)
      requires ValidWith(local) && want > 0
      requires local == null ==> want == 1
      requires local != null ==> local.head == null
      modifies this`first, this`free, free`next, free`size, free`refCount, local
      ensures ValidWith(local)
      ensures var k := if want < |old(free)| then want else |old(free)|;
              && free == old(free)[k..]
              && (k == 0 ==> page == null && LocalPages(local) == old(LocalPages(local)))
              && (k > 0 ==> page == old(free)[0] && (local != null ==> local.pages == old(free)[1..k]))
      ensures page != null ==> page.next == null && page.size == 0
    {
      ghost var all, k := free, 0;
      page, k := DetachBatch(want);
      if page != null {
        SplitFacts(all, k);
        hide Distinct, Apart, Linked, At, Blank;
        HandOut(local, page, want, all, k);
      }
    }

    /** A detached batch becomes page and local list; the rest of the pool is
        another list. */
    method HandOut(local: LocalList?, page: Page, want: nat, ghost all: seq<Page>, ghost k: nat)
      requires 0 < k <= |all| && Distinct(all) && page == all[0] && free == all[k..]
      requires Valid() && Apart(free, all[1..k])
      requires k == if want < |all| then want else |all|
      requires forall i :: 0 <= i < k ==> all[i].next == At(all, i + 1)
      requires forall j :: 0 <= j < |free| ==> free[j] !in all[..k]
      requires local != null ==> local.head == null
      modifies local, all[..k]`next, all[..k]`size, all[..k]`refCount
      ensures Valid() && ValidWith(local) && page.next == null && page.size == 0
      ensures local != null ==> local.pages == all[1..k]
    {
      hide Distinct, Apart;
      TakeBatch(local, page, want, all, k);
    }

    /** Initialise a detached batch and divide it between caller and local list. */
    method TakeBatch(local: LocalList?, page: Page, want: nat, ghost all: seq<Page>, ghost k: nat)
      requires 0 < k <= |all| && Distinct(all) && page == all[0]
      requires k == if want < |all| then want else |all|
      requires forall i :: 0 <= i < k ==> all[i].next == At(all, i + 1)
      requires local != null ==> local.head == null
      modifies local, all[..k]`next, all[..k]`size, all[..k]`refCount
      ensures page.next == null && page.size == 0
      ensures local != null ==> local.pages == all[1..k] && Linked(local.head, local.pages) && Blank(local.pages)
    {
      var last := InitBatch(page, want, all, k);
      CutBatch(local, page, last, all, k);
    }

    /** The companion of each page of a chain, recorded in pools without own
        buffers by a size of one cache line. */
    ghost function Companions(chain: seq<Page>): (c: seq<Option<Page>>)
      reads chain
      ensures |c| == |chain|
    {
      seq(|chain|, i requires 0 <= i < |chain| reads chain => CompanionOf(chain[i]))
    }

    ghost function CompanionOf(page: Page): Option<Page>
      reads page
    {
      if pageSize == 0 && page.size != 0 && page.buffer.Companion? then Some(page.buffer.page) else None
    }

    /** The source requires a nonzero size to be that of a companion. */
    ghost predicate Returnable(chain: seq<Page>)
      reads chain
    {
      pageSize == 0 ==> forall i :: 0 <= i < |chain| && chain[i].size != 0 ==>
          chain[i].size == CACHE_LINE && chain[i].buffer.Companion?
    }

    /** What is left to return: from a companion just put in line, or from
        position `i` of the chain. */
    static ghost function StillToReturn(chain: seq<Page>, companions: seq<Option<Page>>, i: nat,
                                        atCompanion: bool): seq<Page>
      requires |companions| == |chain| && i <= |chain|
      requires atCompanion ==> i < |chain| && companions[i].Some?
    {
      if atCompanion then [companions[i].value] + WithCompanions(chain[i + 1..], companions[i + 1..])
      else WithCompanions(chain[i..], companions[i..])
    }

    /** Midway through a return: the first `n` of `pages` are linked backwards
        up to `prev`, and `page` leads on through the rest of the chain. */
    ghost predicate Midway(chain: seq<Page>, companions: seq<Option<Page>>, pages: seq<Page>,
                           n: nat, i: nat, atCompanion: bool, page: Page?, prev: Page?)
      reads pages, chain, page
    {
      && |companions| == |chain| && n <= |pages| && i <= |chain|
      && (atCompanion ==> i < |chain| && companions[i].Some?)
      && pages[n..] == StillToReturn(chain, companions, i, atCompanion)
      && page == (if atCompanion then companions[i].value else At(chain, i))
      && prev == (if n == 0 then null else pages[n - 1])
      && (atCompanion ==> page.next == At(chain, i + 1) && page.size == 0)
      && (forall j :: (if atCompanion then i + 1 else i) <= j < |chain| ==> Waiting(chain, companions, j))
      && (forall k :: 0 <= k < n ==> BackLinked(pages, k))
    }

    static ghost predicate BackLinked(pages: seq<Page>, k: nat)
      requires k < |pages|
      reads pages[k]
    {
      pages[k].next == if k == 0 then null else pages[k - 1]
    }

    /** A page of the chain that has not been reached. */
    ghost predicate Waiting(chain: seq<Page>, companions: seq<Option<Page>>, j: nat)
      requires j < |chain| == |companions|
      reads chain[j]
    {
      && chain[j].next == At(chain, j + 1)
      && CompanionOf(chain[j]) == companions[j]
      && (pageSize == 0 && chain[j].size != 0 ==> chain[j].buffer.Companion?)
    }

    /** The loop of return_sock_buf_page: link the pages, each companion behind
        its page, in reverse order. */
    method LinkBackwards(inPage: Page, ghost chain: seq<Page>, ghost companions: seq<Option<Page>>,
                         ghost pages: seq<Page>) returns (last: Page)
      requires chain != [] && Linked(inPage, chain) && Returnable(chain) && companions == Companions(chain)
      requires pages == WithCompanions(chain, companions) && Distinct(pages)
      modifies pages
      ensures last == pages[|pages| - 1] && forall k :: 0 <= k < |pages| ==> BackLinked(pages, k)
      ensures pageSize > 0 ==> forall p :: p in pages ==> p.buffer == old(p.buffer)
      ensures pageSize == 0 ==> Emptied(chain, companions, pages, |pages|)
    {
      hide *;
      var page: Page?, prev: Page? := inPage, null;
      ghost var i: nat, atCompanion, n: nat := 0, false, 0;
      AtStart(inPage, chain, companions, pages);
      while page != null
        invariant Midway(chain, companions, pages, n, i, atCompanion, page, prev)
        invariant pageSize > 0 ==> forall p :: p in pages ==> p.buffer == old(p.buffer)
        invariant n <= |pages| && |companions| == |chain|
        invariant pageSize == 0 ==> Emptied(chain, companions, pages, n)
        decreases |pages| - n
      {
        var here: Page := page;
        page, i, atCompanion := LinkOne(here, prev, chain, companions, pages, n, i, atCompanion);
        prev, n := here, n + 1;
      }
      AllLinked(chain, companions, pages, n, i, atCompanion, prev);
      last := prev;
    }

    lemma AtStart(inPage: Page, chain: seq<Page>, companions: seq<Option<Page>>, pages: seq<Page>)
      requires chain != [] && Linked(inPage, chain) && Returnable(chain) && companions == Companions(chain)
      requires pages == WithCompanions(chain, companions)
      ensures |companions| == |chain| && Midway(chain, companions, pages, 0, 0, false, inPage, null)
      ensures Emptied(chain, companions, pages, 0)
    {
      assert chain[0..] == chain && companions[0..] == companions;
      ChainInside(chain, companions);
    }

    lemma AllLinked(chain: seq<Page>, companions: seq<Option<Page>>, pages: seq<Page>, n: nat, i: nat,
                    atCompanion: bool, prev: Page?)
      requires chain != [] && |companions| == |chain| && pages == WithCompanions(chain, companions)
      requires Midway(chain, companions, pages, n, i, atCompanion, null, prev)
      ensures n == |pages| && pages != [] && prev == pages[n - 1]
      ensures forall k :: 0 <= k < n ==> BackLinked(pages, k)
    {
      assert chain[i..] == [];
    }

    static ghost predicate HasCompanion(chain: seq<Page>, companions: seq<Option<Page>>, p: Page)
      requires |companions| == |chain|
    {
      exists j :: 0 <= j < |chain| && chain[j] == p && companions[j].Some?
    }

    /** The first `n` pages have no buffer any more, but for those that had a
        companion. */
    static ghost predicate Emptied(chain: seq<Page>, companions: seq<Option<Page>>, pages: seq<Page>, n: nat)
      requires |companions| == |chain| && n <= |pages|
      reads pages
    {
      forall k :: 0 <= k < n ==> pages[k].buffer == NoBuffer || HasCompanion(chain, companions, pages[k])
    }

    /** One round: turn the link of `page` round, put its companion in line
        next if it has one, and give the page to go on with. */
    method LinkOne(page: Page, prev: Page?, ghost chain: seq<Page>, ghost companions: seq<Option<Page>>,
                   ghost pages: seq<Page>, ghost n: nat, ghost i: nat, ghost atCompanion: bool)
      returns (next: Page?, ghost i': nat, ghost atCompanion': bool)
      requires Midway(chain, companions, pages, n, i, atCompanion, page, prev) && Distinct(pages)
      modifies pages
      ensures n < |pages|
      ensures Midway(chain, companions, pages, n + 1, i', atCompanion', next, page)
      ensures pageSize > 0 ==> forall p :: p in pages ==> p.buffer == old(p.buffer)
      ensures pageSize == 0 && old(Emptied(chain, companions, pages, n)) ==> Emptied(chain, companions, pages, n + 1)
    {
      assert !atCompanion ==> Waiting(chain, companions, i);
      ghost var companion := if atCompanion then None else companions[i];
      Places(chain, companions, pages, n, i, atCompanion);
      assert companion.Some? ==> HasCompanion(chain, companions, page);
      hide Distinct, StillToReturn, HasCompanion, WithCompanions, Companions, Returnable, Linked;
      next := TurnLink(page, prev, companion);
      i', atCompanion' := if companion.Some? then i else i + 1, companion.Some?;
      assert forall k :: 0 <= k <= n ==> BackLinked(pages, k);
      assert forall j :: i < j < |chain| ==> Waiting(chain, companions, j);
    }

    /** The pointer work of one round. */
    method TurnLink(page: Page, prev: Page?, ghost companion: Option<Page>) returns (next: Page?)
      requires companion == CompanionOf(page) && companion != Some(page)
      requires pageSize == 0 && page.size != 0 ==> page.buffer.Companion?
      modifies page, if companion.Some? then {companion.value} else {}
      ensures page.next == prev
      ensures companion.Some? ==> next == companion.value && next.next == old(page.next) && next.size == 0
      ensures companion.None? ==> next == old(page.next)
      ensures pageSize > 0 ==> page.buffer == old(page.buffer)
      ensures pageSize == 0 && companion.Some? ==>
                companion.value.buffer == NoBuffer && page.buffer == old(page.buffer)
      ensures pageSize == 0 && companion.None? ==> page.buffer == NoBuffer
    {
      next := page.next;
      var thisSize := page.size;
      page.next := prev;
      page.refCount := 0;
      if pageSize == 0 {
        var current := page;
        if thisSize != 0 {
          current := page.buffer.page;
          current.next := next;
          current.size := 0;
          current.refCount := 0;
          next := current;
        }
        current.buffer := NoBuffer;
      }
    }

    /** Where the current page, its companion and the pages already linked or
        still waiting stand in `pages`: all are different. */
    static lemma Places(chain: seq<Page>, companions: seq<Option<Page>>, pages: seq<Page>, n: nat, i: nat,
                        atCompanion: bool)
      requires |companions| == |chain| && i < |chain| && n <= |pages| && Distinct(pages)
      requires atCompanion ==> companions[i].Some?
      requires pages[n..] == StillToReturn(chain, companions, i, atCompanion)
      ensures n < |pages|
      ensures pages[n] == if atCompanion then companions[i].value else chain[i]
      ensures forall k :: 0 <= k < n ==> pages[k] != pages[n]
      ensures forall j :: i < j < |chain| ==> chain[j] != pages[n]
      ensures pages[n + 1..] == (if !atCompanion && companions[i].Some? then StillToReturn(chain, companions, i, true)
                                 else StillToReturn(chain, companions, i + 1, false))
      ensures !atCompanion && companions[i].Some? ==>
                && n + 1 < |pages| && pages[n + 1] == companions[i].value
                && (forall k :: 0 <= k <= n ==> pages[k] != pages[n + 1])
                && (forall j :: i < j < |chain| ==> chain[j] != pages[n + 1])
    {
      NextToReturn(chain, companions, i, atCompanion);
      assert pages[n] == pages[n..][0] && pages[n + 1..] == pages[n..][1..];
      assert pages[n] !in pages[n + 1..];
      if !atCompanion && companions[i].Some? {
        NextToReturn(chain, companions, i, true);
        assert pages[n + 1] == pages[n + 1..][0] && pages[n + 2..] == pages[n + 1..][1..];
        assert pages[n + 1] !in pages[n + 2..];
      }
    }

    static lemma NextToReturn(chain: seq<Page>, companions: seq<Option<Page>>, i: nat, atCompanion: bool)
      requires |companions| == |chain| && i < |chain|
      requires atCompanion ==> companions[i].Some?
      ensures var left := StillToReturn(chain, companions, i, atCompanion);
              && left != []
              && left[0] == (if atCompanion then companions[i].value else chain[i])
              && left[1..] == (if !atCompanion && companions[i].Some? then StillToReturn(chain, companions, i, true)
                               else StillToReturn(chain, companions, i + 1, false))
              && forall j :: i < j < |chain| ==> chain[j] in left[1..]
    {
      assert chain[i..][1..] == chain[i + 1..] && companions[i..][1..] == companions[i + 1..];
      ChainInside(chain[i + 1..], companions[i + 1..]);
      assert forall j :: i < j < |chain| ==> chain[j] == chain[i + 1..][j - i - 1];
    }

    static lemma {:induction false} ChainInside(chain: seq<Page>, companions: seq<Option<Page>>)
      requires |companions| == |chain|
      ensures forall p :: p in chain ==> p in WithCompanions(chain, companions)
    {
      if chain != [] {
        ChainInside(chain[1..], companions[1..]);
        assert chain == [chain[0]] + chain[1..];
      }
    }

    /** return_sock_buf_page. */
    method ReturnPages(inPage: Page, ghost chain: seq<Page>)
      requires Valid() && chain != [] && Linked(inPage, chain) && Returnable(chain)
      requires var pages := WithCompanions(chain, Companions(chain)); Distinct(pages) && Apart(free, pages)
      modifies this`first, this`free, WithCompanions(chain, Companions(chain))
      ensures Valid()
      ensures free == AfterReturn(old(free), old(WithCompanions(chain, Companions(chain))))
      ensures pageSize > 0 ==> forall p :: p in old(WithCompanions(chain, Companions(chain))) ==>
                p.buffer == old(p.buffer)
      ensures pageSize == 0 ==> forall p :: p in old(WithCompanions(chain, Companions(chain))) ==>
                p.buffer == NoBuffer || HasCompanion(chain, old(Companions(chain)), p)
    {
      ghost var pages := WithCompanions(chain, Companions(chain));
      FirstIsFirst(inPage, chain, Companions(chain));
      assert forall j :: 0 <= j < |free| ==> free[j] !in pages;
      hide WithCompanions, Companions, Returnable, Distinct, Apart;
      var last := LinkBackwards(inPage, chain, Companions(chain), pages);
      assert BackLinked(pages, 0);
      Splice(inPage, last, pages);
    }

    static lemma FirstIsFirst(inPage: Page, chain: seq<Page>, companions: seq<Option<Page>>)
      requires chain != [] && Linked(inPage, chain) && |companions| == |chain|
      ensures WithCompanions(chain, companions) != [] && WithCompanions(chain, companions)[0] == inPage
    {
    }

    /** Hang the old list on the last page linked, and start it with the first. */
    method Splice(inPage: Page, last: Page, ghost pages: seq<Page>)
      requires Valid() && pages != [] && inPage == pages[0] && last == pages[|pages| - 1]
      requires Distinct(pages) && Apart(free, pages) && inPage.next == null
      modifies this`first, this`free, last`next
      ensures Valid() && free == AfterReturn(old(free), pages)
    {
      assert forall j :: 0 <= j < |free| ==> free[j] !in pages;
      last.next := first;
      first := inPage;
      if |pages| == 1 {
        assert forall j :: 0 < j <= |free| ==> (pages + free)[j] == free[j - 1];
        free := pages + free;
      } else {
        free := [inPage];
      }
    }

    /** get_sock_buf_page. The source requires a pool without own buffers when
        a buffer size is given. */
    method GetPage(bufSize: nat, local: LocalList?, num: nat) returns (page: Page?)
      requires ValidWith(local) && num > 0
      requires bufSize != 0 ==> pageSize == 0
      modifies this`first, this`free, free, local, if local == null then [] else local.pages
      ensures ValidWith(local)
      ensures var first := LowGet(old(free), old(LocalPages(local)), num).page;
              var companion := GetPages(old(free), old(LocalPages(local)), num, bufSize).companion;
              forall p :: p in old(free) || (local != null && p in old(local.pages)) ==>
                p.buffer == BufferAfter(old(p.buffer), p, first, companion, bufSize)
      ensures var r := GetPages(old(free), old(LocalPages(local)), num, bufSize);
              && free == r.free
              && LocalPages(local) == r.local
              && page == (if r.page.Some? then r.page.value else null)
              && (page != null ==> page.next == null)
              && (page != null && r.companion.None? ==> page.size == 0)
              && (r.companion.Some? ==> page.size == CACHE_LINE && page.buffer == Companion(r.companion.value))
    {
      LowGetFrom(free, LocalPages(local), num);
      hide LowGet, Distinct, Apart, Linked, Blank;
      page := LowGetPage(local, num);
      if bufSize == 0 || page == null || bufSize > CACHE_LINE {
        return;
      }
      if bufSize <= CACHE_LINE - BUF_AREA_OFFSET {
        page.buffer := OwnArea;
        return;
      }
      assert forall i :: 0 <= i < |free| ==> free[i] in old(free);
      assert local != null ==> forall i :: 0 <= i < |local.pages| ==>
          local.pages[i] in old(free) || local.pages[i] in old(local.pages);
      assert page in old(free) || (local != null && page in old(local.pages));
      page := AttachSecond(page, local, num);
    }

    /** Get a second page to serve as the buffer of `page`, or give it back. */
    method AttachSecond(page: Page, local: LocalList?, num: nat) returns (result: Page?)
      requires ValidWith(local) && num > 0
      requires page.next == null && page.size == 0 && page !in free && (local != null ==> page !in local.pages)
      modifies this`first, this`free, free, page, local, if local == null then [] else local.pages
      ensures ValidWith(local)
      ensures var b := LowGet(old(free), old(LocalPages(local)), num);
              && LocalPages(local) == b.local
              && (if b.page.None? then result == null && free == [page] + b.free
                  else
                    && result == page && free == b.free && page.next == null
                    && page.size == CACHE_LINE && page.buffer == Companion(b.page.value))
      ensures forall p :: p in old(free) || (local != null && p in old(local.pages)) ==> p.buffer == old(p.buffer)
      ensures result == null ==> page.buffer == (if pageSize == 0 then NoBuffer else old(page.buffer))
    {
      LowGetFrom(free, LocalPages(local), num);
      hide LowGet, Distinct, Linked;
      var second := LowGetPage(local, num);
      if second == null {
        GiveBack(page);
        return null;
      }
      page.size := CACHE_LINE;
      page.buffer := Companion(second);
      return page;
    }

    /** Return a single page that has no companion. */
    method GiveBack(page: Page)
      requires Valid() && page.next == null && page.size == 0 && page !in free
      modifies this`first, this`free, page
      ensures Valid() && free == [page] + old(free)
      ensures page.buffer == if pageSize == 0 then NoBuffer else old(page.buffer)
    {
      assert WithCompanions([page], Companions([page])) == [page];
      ReturnPages(page, [page]);
    }

    /** inc_sock_buf, given the memory it allocated: a ninth segment is refused. */
    method IncSockBuf(noOfPages: nat, memory: Option<int>) returns (error: int)
      requires Valid() && noOfPages > 0
      modifies this`first, this`free, this`allocSegments
      ensures Valid()
      ensures error == 0 <==> memory.Some? && old(allocSegments) < MAX_ALLOC_SEGMENTS
      ensures error == 0 ==>
                |free| == noOfPages + |old(free)| && free[noOfPages..] == old(free) && fresh(free[..noOfPages])
      ensures error == 0 ==>
                && Carved(Layout(free[..noOfPages], pageSize), memory.value, pageSize, noOfPages)
                && forall p :: p in free[..noOfPages] ==> IsHome(p, pageSize)
      ensures error == 0 ==> allocSegments == old(allocSegments) + 1
      ensures error != 0 ==> error == MEM_ALLOC_ERROR && free == old(free) && allocSegments == old(allocSegments)
    {
      hide Distinct, Carved, Layout, Linked;
      if memory.None? {
        return MEM_ALLOC_ERROR;
      }
      var pages := NewPages(noOfPages, pageSize, memory.value);
      if allocSegments < MAX_ALLOC_SEGMENTS {
        Prepend(pages);
        allocSegments := allocSegments + 1;
        assert free[..noOfPages] == pages;
        return 0;
      }
      return MEM_ALLOC_ERROR;
    }

    /** Hang the free list on the last page of a new segment. */
    method Prepend(pages: seq<Page>)
      requires Valid() && pages != [] && Linked(pages[0], pages) && Apart(pages, free)
      modifies this`first, this`free, pages`next
      ensures Valid() && free == pages + old(free)
    {
      ghost var grown := pages + free;
      DistinctConcat(pages, free);
      hide Distinct;
      assert forall i :: |pages| <= i < |grown| ==> grown[i] == free[i - |pages|];
      assert pages[|pages| - 1] !in free;
      pages[|pages| - 1].next := first;
      first := pages[0];
      free := grown;
    }
  }
}
