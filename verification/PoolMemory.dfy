/** The memory behind the pages of a pool, over whole runs: no byte of a
    caller's buffer belongs to another page or to another page's buffer. */
module PoolMemory {
  import opened Basics
  import opened PoolLayout
  import opened SockBufPool
  import opened PoolRuns

  /** Second pages are held like the pages they serve, each by one page, and
      have no second page themselves. */
  ghost predicate Paired(s: Pool) {
    && (forall p :: p in s.companion ==> p in s.held && s.companion[p] in s.held && s.companion[p] !in s.companion)
    && (forall p, q :: p in s.companion && q in s.companion && p != q ==> s.companion[p] != s.companion[q])
  }

  /** The pages lie apart; with buffers of their own, these lie apart as well;
      otherwise only a held page has a buffer, in itself or in its second page. */
  ghost predicate Laid(s: Pool) {
    && s.buffer.Keys == s.pages
    && (forall p, q :: p in s.pages && q in s.pages && p != q ==> Disjoint(Cell(p), Cell(q)))
    && forall p :: p in s.pages ==> if s.pageSize > 0 then HasOwn(s, p) else IsBorrowed(s, p)
  }

  ghost predicate HasOwn(s: Pool, p: Page)
    requires s.buffer.Keys == s.pages && p in s.pages
  {
    s.buffer[p].Segment? && forall q :: q in s.pages ==>
      && Disjoint(Area(p, s.buffer[p], s.pageSize), Cell(q))
      && (p != q ==> Disjoint(Area(p, s.buffer[p], s.pageSize), Area(q, s.buffer[q], s.pageSize)))
  }

  ghost predicate IsBorrowed(s: Pool, p: Page)
    requires p in s.buffer
  {
    && (p in s.companion <==> s.buffer[p].Companion?)
    && match s.buffer[p]
       case NoBuffer => true
       case OwnArea => p in s.held && p !in s.companion.Values
       case Companion(second) => p in s.companion && s.companion[p] == second
       case Segment(_) => false
  }

  /** The page in whose memory a borrowed buffer is. */
  function Host(p: Page, buffer: Buffer): Page {
    if buffer.Companion? then buffer.page else p
  }

  lemma HeldIsInPool(s: Pool, p: Page)
    requires Partition(s) && p in s.held
    ensures p in s.pages
  {
    OnePlaceForEachPage(s, p);
  }

  lemma HostsLieApart(s: Pool, p: Page, q: Page)
    requires Laid(s) && s.pageSize == 0 && p in s.pages && q in s.pages
    requires Host(p, s.buffer[p]) in s.pages && Host(p, s.buffer[p]) != q
    ensures Disjoint(Area(p, s.buffer[p], 0), Cell(q))
  {
    assert IsBorrowed(s, p);
    assert Disjoint(Cell(Host(p, s.buffer[p])), Cell(q));
  }

  /** The buffer a caller may write to shares no byte with another page of the
      pool, other than the second page it consists of, nor with its buffer. */
  lemma HeldShareNoByte(s: Pool, p: Page, q: Page)
    requires Partition(s) && Paired(s) && Laid(s) && p in s.held && q in s.pages && p != q && p in s.buffer
    requires s.buffer[p] != Companion(q) && s.buffer[q] != Companion(p)
    ensures Disjoint(Area(p, s.buffer[p], s.pageSize), Cell(q))
    ensures Disjoint(Area(p, s.buffer[p], s.pageSize), Area(q, s.buffer[q], s.pageSize))
  {
    if s.pageSize == 0 {
      assert IsBorrowed(s, p) && IsBorrowed(s, q);
      var host, other := Host(p, s.buffer[p]), Host(q, s.buffer[q]);
      forall page | page in s.held ensures page in s.pages {
        HeldIsInPool(s, page);
      }
      hide Partition;
      HostsLieApart(s, p, q);
      HostsLieApart(s, p, other);
    } else {
      HeldIsInPool(s, p);
      assert HasOwn(s, p);
    }
  }

  // ----- every step keeps it -----

  predicate Listed(s: Pool, thread: Option<nat>, p: Page)
    requires thread.Some? ==> thread.value < |s.locals|
  {
    p in s.free || (thread.Some? && p in s.locals[thread.value])
  }

  lemma ListedAreNotHeld(s: Pool, thread: Option<nat>)
    requires Partition(s) && (thread.Some? ==> thread.value < |s.locals|)
    ensures forall p :: Listed(s, thread, p) ==> p !in s.held
  {
    forall p | Listed(s, thread, p) ensures p !in s.held {
      OnePlaceForEachPage(s, p);
      if thread.Some? {
        LocalListsAreApart(s, thread.value, thread.value, p);
      }
    }
  }

  /** A get takes the first page, unless it needs a second one and there is none. */
  function TakenPages(first: Option<Page>, second: Option<Page>, bufSize: nat): multiset<Page> {
    (if first.Some? && (NeedsCompanion(bufSize) ==> second.Some?) then multiset{first.value} else multiset{})
    + (if second.Some? then multiset{second.value} else multiset{})
  }

  /** What a get does to the callers' pages and to the buffers. */
  ghost predicate Takes(s: Pool, next: Pool, first: Option<Page>, second: Option<Page>, bufSize: nat) {
    && next.pages == s.pages && next.pageSize == s.pageSize && next.buffer.Keys == s.buffer.Keys
    && (first.Some? ==> first.value !in s.held)
    && (second.Some? ==> first.Some? && second != first && second.value !in s.held && NeedsCompanion(bufSize))
    && next.held == s.held + TakenPages(first, second, bufSize)
    && next.companion == (if second.Some? && first.Some? then s.companion[first.value := second.value] else s.companion)
    && forall p :: p in s.buffer ==> next.buffer[p] == BufferAfter(s.buffer[p], p, first, second, bufSize)
  }

  lemma SecondDiffers(s: Pool, next: Pool, r: PageResult<Page>)
    requires Partition(next) && next.held == s.held + Taken(r)
    ensures r.page.Some? && r.companion.Some? ==> r.page != r.companion
  {
    if r.page.Some? {
      OnePlaceForEachPage(next, r.page.value);
      hide Partition;
      assert next.held[r.page.value] == s.held[r.page.value] + Taken(r)[r.page.value];
    }
  }

  lemma SecondComesFrom(s: Pool, thread: Option<nat>, batch: nat, bufSize: nat)
    requires thread.Some? ==> thread.value < |s.locals|
    ensures var local := Local(s, thread);
            var first, r := LowGet(s.free, local, batch).page, GetPages(s.free, local, batch, bufSize);
            && (first.Some? ==> Listed(s, thread, first.value))
            && (r.companion.Some? ==> r.page.Some? && Listed(s, thread, r.companion.value) && NeedsCompanion(bufSize))
            && (r.page.Some? ==> r.page == first)
            && (r.page.Some? <==> first.Some? && (NeedsCompanion(bufSize) ==> r.companion.Some?))
  {
    var local := Local(s, thread);
    LowGetFrom(s.free, local, batch);
    var a := LowGet(s.free, local, batch);
    LowGetFrom(a.free, a.local, batch);
    hide LowGet;
  }

  lemma GetIs(s: Pool, thread: Option<nat>, batch: nat, bufSize: nat, first: Option<Page>, r: PageResult<Page>)
    requires Enabled(s, Get(thread, batch, bufSize))
    requires first == LowGet(s.free, Local(s, thread), batch).page
    requires r == GetPages(s.free, Local(s, thread), batch, bufSize)
    ensures (thread.Some? ==> thread.value < |s.locals|) && (bufSize != 0 ==> s.pageSize == 0) && batch > 0
    ensures var next := Next(s, Get(thread, batch, bufSize));
            && next.pages == s.pages && next.pageSize == s.pageSize && next.buffer.Keys == s.buffer.Keys
            && next.held == s.held + Taken(r)
            && next.companion == (if r.page.Some? &&
                r.companion.Some? then s.companion[r.page.value := r.companion.value]
                                  else s.companion)
            && forall p :: p in s.buffer ==>
                 next.buffer[p] == BufferAfter(s.buffer[p], p, first, r.companion, bufSize)
  {
    hide GetPages, LowGet, BufferAfter, Taken;
  }

  lemma TakesIs(s: Pool, next: Pool, first: Option<Page>, r: PageResult<Page>, bufSize: nat)
    requires next.pages == s.pages && next.pageSize == s.pageSize && next.buffer.Keys == s.buffer.Keys
    requires first.Some? ==> first.value !in s.held
    requires r.companion.Some? ==>
               r.page.Some? && r.companion.value !in s.held && NeedsCompanion(bufSize) && r.page != r.companion
    requires r.page.Some? ==> r.page == first
    requires r.page.Some? <==> first.Some? && (NeedsCompanion(bufSize) ==> r.companion.Some?)
    requires next.held == s.held + Taken(r)
    requires next.companion == if r.page.Some? && r.companion.Some? then s.companion[r.page.value := r.companion.value]
        else s.companion
    requires forall p :: p in s.buffer ==>
               next.buffer[p] == BufferAfter(s.buffer[p], p, first, r.companion, bufSize)
    ensures Takes(s, next, first, r.companion, bufSize)
  {
    hide BufferAfter, NeedsCompanion;
  }

  lemma GetTakes(s: Pool, thread: Option<nat>, batch: nat, bufSize: nat)
      returns (first: Option<Page>, second: Option<Page>)
    requires Partition(s) && Enabled(s, Get(thread, batch, bufSize))
    ensures Takes(s, Next(s, Get(thread, batch, bufSize)), first, second, bufSize)
    ensures bufSize != 0 ==> s.pageSize == 0
  {
    var local := Local(s, thread);
    var r := GetPages(s.free, local, batch, bufSize);
    var next := Next(s, Get(thread, batch, bufSize));
    first, second := LowGet(s.free, local, batch).page, r.companion;
    hide *;
    GetIs(s, thread, batch, bufSize, first, r);
    ListedAreNotHeld(s, thread);
    SecondComesFrom(s, thread, batch, bufSize);
    GetKeepsPartition(s, thread, batch, bufSize);
    SecondDiffers(s, next, r);
    TakesIs(s, next, first, r, bufSize);
  }

  lemma GetKeepsPaired(s: Pool, next: Pool, first: Option<Page>, second: Option<Page>, bufSize: nat)
    requires Paired(s) && Takes(s, next, first, second, bufSize)
    ensures Paired(next)
  {
    hide BufferAfter;
  }

  lemma GetKeepsBorrowed(s: Pool, next: Pool, first: Option<Page>, second: Option<Page>, bufSize: nat, p: Page)
    requires Paired(s) && Takes(s, next, first, second, bufSize) && p in s.buffer && IsBorrowed(s, p)
    ensures p in next.buffer && IsBorrowed(next, p)
  {
  }

  lemma GetKeepsLaid(s: Pool, next: Pool, first: Option<Page>, second: Option<Page>, bufSize: nat)
    requires Paired(s) && Laid(s) && Takes(s, next, first, second, bufSize) && (bufSize != 0 ==> s.pageSize == 0)
    ensures Laid(next)
  {
    if s.pageSize > 0 {
      assert next.buffer == s.buffer;
      hide Paired, Takes;
      assert forall p :: p in s.pages ==> HasOwn(s, p) && HasOwn(next, p);
    } else {
      forall p | p in s.pages ensures IsBorrowed(next, p) {
        GetKeepsBorrowed(s, next, first, second, bufSize, p);
      }
      hide Paired, IsBorrowed, BufferAfter;
    }
  }

  lemma ReturnIs(s: Pool, p: Page)
    requires Partition(s) && Enabled(s, Return(p))
    ensures var next := Next(s, Return(p));
            && p in s.pages && p !in s.companion.Keys && p !in s.companion.Values
            && next.pages == s.pages && next.pageSize == s.pageSize && next.companion == s.companion
            && next.buffer == (if s.pageSize == 0 then s.buffer[p := NoBuffer] else s.buffer)
            && next.held == s.held - multiset{p}
  {
    HeldIsInPool(s, p);
  }

  lemma ReturnKeepsPlace(s: Pool, next: Pool, p: Page, q: Page)
    requires next.pages == s.pages && next.pageSize == s.pageSize && next.companion == s.companion
    requires next.buffer == (if s.pageSize == 0 then s.buffer[p := NoBuffer] else s.buffer)
    requires next.held == s.held - multiset{p} && p in s.pages && p !in s.companion.Keys
    requires s.buffer.Keys == s.pages && q in s.pages
    ensures s.pageSize > 0 && HasOwn(s, q) ==> HasOwn(next, q)
    ensures s.pageSize == 0 && IsBorrowed(s, q) ==> IsBorrowed(next, q)
  {
    hide Area, Disjoint, Cell;
  }

  lemma ReturnKeepsPaired(s: Pool, next: Pool, p: Page)
    requires Paired(s) && p !in s.companion.Keys && p !in s.companion.Values
    requires next.companion == s.companion && next.held == s.held - multiset{p}
    ensures Paired(next)
  {
  }

  lemma ReturnKeepsLaid(s: Pool, p: Page)
    requires Partition(s) && Paired(s) && Laid(s) && Enabled(s, Return(p))
    ensures Paired(Next(s, Return(p))) && Laid(Next(s, Return(p)))
  {
    ReturnIs(s, p);
    var next := Next(s, Return(p));
    hide Partition, Next, Enabled, Paired, IsBorrowed, HasOwn, Disjoint;
    ReturnKeepsPaired(s, next, p);
    forall q | q in s.pages ensures if s.pageSize > 0 then HasOwn(next, q) else IsBorrowed(next, q) {
      ReturnKeepsPlace(s, next, p, q);
    }
  }

  /** Pieces of a segment lie inside it and apart from each other. */
  lemma SegmentIsLaid(s: Pool, added: seq<Page>, home: map<Page, Buffer>, ptr: int, i: nat, j: nat)
    requires IsSegment(added, home, ptr, s.pageSize) && i < |added| && j < |added|
    ensures added[i] in home && added[j] in home
    ensures var segment := Range(ptr, SegmentBytes(s, |added|));
            && Inside(Cell(added[i]), segment.start, segment.size)
            && (s.pageSize > 0 ==>
                  Inside(Area(added[i], home[added[i]], s.pageSize), segment.start, segment.size))
    ensures i != j ==> Disjoint(Cell(added[i]), Cell(added[j]))
    ensures s.pageSize > 0 ==> Disjoint(Area(added[i], home[added[i]], s.pageSize), Cell(added[j]))
    ensures s.pageSize > 0 && i != j ==>
              Disjoint(Area(added[i], home[added[i]], s.pageSize), Area(added[j], home[added[j]], s.pageSize))
  {
    var d := seq(|added|, k requires 0 <= k < |added| => Descriptor(ptr + k * CACHE_LINE,
        if s.pageSize == 0 then 0 else ptr + |added| * CACHE_LINE + k * s.pageSize, ptr + (k + 1) * CACHE_LINE));
    assert Carved(d, ptr, s.pageSize, |added|);
    PiecesFitIff(d, ptr, s.pageSize, |added|, SegmentBytes(s, |added|));
    assert added[i] in home && added[j] in home;
    assert Piece(d, s.pageSize, i, false) == Cell(added[i]) && Piece(d, s.pageSize, j, false) == Cell(added[j]);
    if i != j {
      PiecesAreDisjoint(d, ptr, s.pageSize, |added|, i, false, j, false);
    }
    if s.pageSize > 0 {
      assert Piece(d, s.pageSize, i, true) == Area(added[i], home[added[i]], s.pageSize);
      assert Piece(d, s.pageSize, j, true) == Area(added[j], home[added[j]], s.pageSize);
      PiecesAreDisjoint(d, ptr, s.pageSize, |added|, i, true, j, false);
      if i != j {
        PiecesAreDisjoint(d, ptr, s.pageSize, |added|, i, true, j, true);
      }
    }
  }

  lemma InsideIsDisjoint(a: Range, segment: Range, b: Range)
    requires Inside(a, segment.start, segment.size) && Disjoint(segment, b)
    ensures Disjoint(a, b) && Disjoint(b, a)
  {
  }

  /** A new page against any page of the grown pool. */
  lemma NewPageLiesApart(s: Pool, added: seq<Page>, home: map<Page, Buffer>, ptr: int, p: Page, q: Page)
    requires Laid(s) && Enabled(s, Grow(added, home, ptr)) && p in added && (q in added || q in s.pages)
    ensures p in home && (q in home || q in s.buffer)
    ensures p != q ==> Disjoint(Cell(p), Cell(q)) && Disjoint(Cell(q), Cell(p))
    ensures var other := if q in home then home[q] else s.buffer[q];
            s.pageSize > 0 ==>
              && Disjoint(Area(p, home[p], s.pageSize), Cell(q))
              && Disjoint(Area(q, other, s.pageSize), Cell(p))
              && (p != q ==> Disjoint(Area(p, home[p], s.pageSize), Area(q, other, s.pageSize)))
  {
    var i: nat :| i < |added| && added[i] == p;
    if q in added {
      var j: nat :| j < |added| && added[j] == q;
      SegmentIsLaid(s, added, home, ptr, i, j);
      SegmentIsLaid(s, added, home, ptr, j, i);
    } else {
      SegmentIsLaid(s, added, home, ptr, i, i);
      var segment := Range(ptr, SegmentBytes(s, |added|));
      assert q in s.buffer && Disjoint(segment, Cell(q)) && Disjoint(segment, Area(q, s.buffer[q], s.pageSize));
      hide Enabled, Laid, IsSegment, SegmentBytes, Area, Disjoint;
      InsideIsDisjoint(Cell(p), segment, Cell(q));
      if s.pageSize > 0 {
        InsideIsDisjoint(Cell(p), segment, Area(q, s.buffer[q], s.pageSize));
        InsideIsDisjoint(Area(p, home[p], s.pageSize), segment, Cell(q));
        InsideIsDisjoint(Area(p, home[p], s.pageSize), segment, Area(q, s.buffer[q], s.pageSize));
      }
    }
  }

  lemma GrownIs(s: Pool, added: seq<Page>, home: map<Page, Buffer>, ptr: int)
    requires Laid(s) && Partition(s) && Paired(s) && Enabled(s, Grow(added, home, ptr))
    requires s.segments < MAX_ALLOC_SEGMENTS
    ensures var next := Next(s, Grow(added, home, ptr));
            && next.buffer.Keys == next.pages && next.pageSize == s.pageSize
            && (forall p :: p in next.pages <==> p in added || p in s.pages)
            && (forall p :: p in added ==>
                  && p !in s.pages && p in home && next.buffer[p] == home[p]
                  && (s.pageSize == 0 ==> IsBorrowed(next, p)) && (s.pageSize > 0 ==> home[p].Segment?))
            && forall p :: p in s.pages ==> p !in home && next.buffer[p] == s.buffer[p]
  {
    var next := Next(s, Grow(added, home, ptr));
    forall p | p in added ensures p !in s.companion && p !in s.held {
      if p in s.held {
        HeldIsInPool(s, p);
      }
    }
  }

  lemma OldPagesLieApart(s: Pool, p: Page, q: Page)
    requires Laid(s) && p in s.pages && q in s.pages
    ensures p != q ==> Disjoint(Cell(p), Cell(q))
    ensures s.pageSize > 0 ==>
              && s.buffer[p].Segment? && Disjoint(Area(p, s.buffer[p], s.pageSize), Cell(q))
              && (p != q ==> Disjoint(Area(p, s.buffer[p], s.pageSize), Area(q, s.buffer[q], s.pageSize)))
    ensures s.pageSize == 0 ==> IsBorrowed(s, p)
  {
    assert s.pageSize > 0 ==> HasOwn(s, p);
  }

  lemma DisjointEitherWay(a: Range, b: Range)
    ensures Disjoint(a, b) <==> Disjoint(b, a)
  {
  }

  /** Any two pages of the grown pool. */
  lemma GrownPagesLieApart(s: Pool, added: seq<Page>, home: map<Page, Buffer>, ptr: int, p: Page, q: Page)
    requires Partition(s) && Paired(s) && Laid(s) && Enabled(s, Grow(added, home, ptr))
    requires s.segments < MAX_ALLOC_SEGMENTS
    ensures var next := Next(s, Grow(added, home, ptr));
            p in next.pages && q in next.pages ==>
              && p in next.buffer && q in next.buffer
              && (p != q ==> Disjoint(Cell(p), Cell(q)))
              && (s.pageSize > 0 ==>
                    && next.buffer[p].Segment? && Disjoint(Area(p, next.buffer[p], s.pageSize), Cell(q))
                    && (p != q ==> Disjoint(Area(p, next.buffer[p], s.pageSize), Area(q, next.buffer[q], s.pageSize))))
  {
    GrownIs(s, added, home, ptr);
    var next := Next(s, Grow(added, home, ptr));
    hide *;
    if p in next.pages && q in next.pages {
      if p in added {
        NewPageLiesApart(s, added, home, ptr, p, q);
      } else if q in added {
        NewPageLiesApart(s, added, home, ptr, q, p);
        OldPagesLieApart(s, p, p);
        DisjointEitherWay(Area(p, next.buffer[p], s.pageSize), Area(q, next.buffer[q], s.pageSize));
      } else {
        OldPagesLieApart(s, p, q);
      }
    }
  }

  lemma GrowKeepsBorrowed(s: Pool, added: seq<Page>, home: map<Page, Buffer>, ptr: int, p: Page)
    requires Partition(s) && Paired(s) && Laid(s) && Enabled(s, Grow(added, home, ptr)) && s.pageSize == 0
    requires s.segments < MAX_ALLOC_SEGMENTS
    ensures var next := Next(s, Grow(added, home, ptr));
            p in next.pages ==> p in next.buffer && IsBorrowed(next, p)
  {
    GrownIs(s, added, home, ptr);
    var next := Next(s, Grow(added, home, ptr));
    assert next.companion == s.companion && next.held == s.held;
    hide Next, Enabled, Partition, Paired;
    if p in s.pages {
      OldPagesLieApart(s, p, p);
    }
  }

  lemma GrowKeepsLaid(s: Pool, added: seq<Page>, home: map<Page, Buffer>, ptr: int)
    requires Partition(s) && Paired(s) && Laid(s) && Enabled(s, Grow(added, home, ptr))
    ensures Laid(Next(s, Grow(added, home, ptr)))
  {
    if s.segments < MAX_ALLOC_SEGMENTS {
      GrownIs(s, added, home, ptr);
      var next := Next(s, Grow(added, home, ptr));
      hide Next, Enabled, Partition, Paired, Area, Disjoint, IsBorrowed, IsSegment;
      forall p, q | p in next.pages && q in next.pages
        ensures p != q ==> Disjoint(Cell(p), Cell(q))
        ensures s.pageSize > 0 ==>
          && next.buffer[p].Segment? && Disjoint(Area(p, next.buffer[p], s.pageSize), Cell(q))
          && (p != q ==> Disjoint(Area(p, next.buffer[p], s.pageSize), Area(q, next.buffer[q], s.pageSize)))
      {
        GrownPagesLieApart(s, added, home, ptr, p, q);
      }
      forall p | p in next.pages && s.pageSize == 0 ensures IsBorrowed(next, p) {
        GrowKeepsBorrowed(s, added, home, ptr, p);
      }
    }
  }

  /** Over every run from a laid-out pool, any two pages' buffers lie apart. */
  lemma {:induction false} RunsKeepLaid(states: seq<Pool>, actions: seq<Action>, n: nat)
    requires IsRun(states, actions) && Partition(states[0]) && Paired(states[0]) && Laid(states[0]) && n < |states|
    ensures Partition(states[n]) && Paired(states[n]) && Laid(states[n])
  {
    hide Partition, Next, Paired, Laid, Enabled;
    if n > 0 {
      RunsKeepLaid(states, actions, n - 1);
      RunsKeepPartition(states, actions, n);
      StepKeepsLaid(states[n - 1], actions[n - 1]);
    }
  }

  lemma StepKeepsLaid(s: Pool, a: Action)
    requires Partition(s) && Paired(s) && Laid(s) && Enabled(s, a)
    ensures Paired(Next(s, a)) && Laid(Next(s, a))
  {
    match a {
      case Get(thread, batch, bufSize) =>
        var first, second := GetTakes(s, thread, batch, bufSize);
        GetKeepsPaired(s, Next(s, a), first, second, bufSize);
        GetKeepsLaid(s, Next(s, a), first, second, bufSize);
      case Return(p) => ReturnKeepsLaid(s, p);
      case Grow(added, home, ptr) => GrowKeepsLaid(s, added, home, ptr);
    }
  }

  /** A new pool is laid out. */
  lemma FreshPoolIsLaid(pages: seq<Page>, threads: nat, pageSize: nat, home: map<Page, Buffer>, ptr: int)
    requires Distinct(pages) && IsSegment(pages, home, ptr, pageSize)
    ensures var s := FreshPool(pages, threads, pageSize, home); Paired(s) && Laid(s)
  {
    var s := FreshPool(pages, threads, pageSize, home);
    forall p, q | p in pages && q in pages
      ensures p != q ==> Disjoint(Cell(p), Cell(q))
      ensures pageSize > 0 ==>
        && Disjoint(Area(p, home[p], pageSize), Cell(q))
        && (p != q ==> Disjoint(Area(p, home[p], pageSize), Area(q, home[q], pageSize)))
    {
      var i: nat :| i < |pages| && pages[i] == p;
      var j: nat :| j < |pages| && pages[j] == q;
      SegmentIsLaid(s, pages, home, ptr, i, j);
    }
    hide Area;
  }

  /** So at every point of every run the buffers of two held pages, neither of
      them the other's second page, share no byte. */
  lemma RunsShareNoByte(states: seq<Pool>, actions: seq<Action>, n: nat, p: Page, q: Page)
    requires IsRun(states, actions) && Partition(states[0]) && Paired(states[0]) && Laid(states[0]) && n < |states|
    requires p in states[n].held && q in states[n].held && p != q
    ensures var s := states[n];
            && p in s.buffer && q in s.buffer
            && (s.buffer[p] != Companion(q) && s.buffer[q] != Companion(p) ==>
                  Disjoint(Area(p, s.buffer[p], s.pageSize), Area(q, s.buffer[q], s.pageSize)))
  {
    RunsKeepLaid(states, actions, n);
    hide IsRun, IsBorrowed, HasOwn, Partition, Paired, Area, Disjoint;
    var s := states[n];
    HeldIsInPool(s, p);
    HeldIsInPool(s, q);
    if s.buffer[p] != Companion(q) && s.buffer[q] != Companion(p) {
      HeldShareNoByte(s, p, q);
    }
  }

  /** Up to 64 bytes the page's own area, up to 128 a second page, else what it was. */
  predicate IsForSize(buffer: Buffer, was: Buffer, bufSize: nat) {
    if 1 <= bufSize <= 64 then buffer == OwnArea
    else if 65 <= bufSize <= 128 then buffer.Companion?
    else buffer == was
  }

  lemma BufferHasRoom(was: Buffer, page: Page, second: Option<Page>, bufSize: nat, pageSize: nat)
    requires (NeedsCompanion(bufSize) ==> second.Some?) && (bufSize != 0 ==> pageSize == 0)
    requires pageSize > 0 ==> was.Segment?
    ensures var room := Area(page, BufferAfter(was, page, Some(page), second, bufSize), pageSize).size;
            (bufSize <= CACHE_LINE ==> bufSize <= room) && (pageSize > 0 ==> room == pageSize)
    ensures IsForSize(BufferAfter(was, page, Some(page), second, bufSize), was, bufSize)
  {
  }

  /** A page that is handed out for a size up to one cache line has a buffer
      for it; with buffers of their own, every page has one of the full size. */
  lemma GotHasRoom(s: Pool, thread: Option<nat>, batch: nat, bufSize: nat, page: Page)
    requires Laid(s) && Partition(s) && Enabled(s, Get(thread, batch, bufSize))
    requires GetPages(s.free, Local(s, thread), batch, bufSize).page == Some(page)
    ensures var next := Next(s, Get(thread, batch, bufSize));
            && page in next.held && page in next.buffer && page in s.buffer
            && IsForSize(next.buffer[page], s.buffer[page], bufSize)
            && var room := Area(page, next.buffer[page], s.pageSize).size;
               (bufSize <= CACHE_LINE ==> bufSize <= room) && (s.pageSize > 0 ==> room == s.pageSize)
  {
    var r := GetPages(s.free, Local(s, thread), batch, bufSize);
    var first := LowGet(s.free, Local(s, thread), batch).page;
    var next := Next(s, Get(thread, batch, bufSize));
    assert page in Taken(r);
    hide *;
    GetIs(s, thread, batch, bufSize, first, r);
    SecondComesFrom(s, thread, batch, bufSize);
    GetKeepsPartition(s, thread, batch, bufSize);
    HeldIsInPool(next, page);
    LaidKeys(s, page);
    BufferHasRoom(s.buffer[page], page, r.companion, bufSize, s.pageSize);
  }

  lemma LaidKeys(s: Pool, p: Page)
    requires Laid(s) && p in s.pages
    ensures p in s.buffer && (s.pageSize > 0 ==> s.buffer[p].Segment?)
  {
    assert s.pageSize > 0 ==> HasOwn(s, p);
  }
}
