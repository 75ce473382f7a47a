/** Whole runs of the page pool: gets by any number of threads with or without
    local lists, returns of single pages, and growth. The list operations are
    those the pool's methods are proved to perform. */
module PoolRuns {
  import opened Basics
  import opened PoolLayout
  import opened SockBufPool

  datatype Pool = Pool(
    free: seq<Page>,              // global free list
    locals: seq<seq<Page>>,       // thread-local lists, by thread
    held: multiset<Page>,         // pages with the callers
    companion: map<Page, Page>,   // held pages that use a second page as buffer
    pages: set<Page>,             // every page of every segment
    segments: nat,
    pageSize: nat,
    buffer: map<Page, Buffer>)    // where the buffer of each page is

  datatype Action =
    | Get(thread: Option<nat>, batch: nat, bufSize: nat)
    | Return(page: Page)
    | Grow(added: seq<Page>, home: map<Page, Buffer>, ptr: int)

  /** A segment at `ptr` is carved into these pages with these buffers. */
  predicate IsSegment(added: seq<Page>, home: map<Page, Buffer>, ptr: int, pageSize: nat) {
    && home.Keys == (set p | p in added)
    && forall i :: 0 <= i < |added| ==>
         && added[i].addr == ptr + i * CACHE_LINE
         && home[added[i]] == if pageSize == 0 then NoBuffer else Segment(ptr + |added| * CACHE_LINE + i * pageSize)
  }

  /** The memory of a new segment overlaps none that is in use. */
  predicate IsClear(s: Pool, segment: Range) {
    forall p :: p in s.buffer ==>
      Disjoint(segment, Cell(p)) && Disjoint(segment, Area(p, s.buffer[p], s.pageSize))
  }

  function SegmentBytes(s: Pool, n: nat): nat {
    n * (s.pageSize + CACHE_LINE)
  }

  /** What callers must respect: a batch of at least one, a buffer size only in
      pools without own buffers, returns of a page they hold that is in no
      companion pair; and new segments hold new pages. */
  predicate Enabled(s: Pool, a: Action) {
    match a
    case Get(thread, batch, bufSize) =>
      batch > 0 && (thread.Some? ==> thread.value < |s.locals|) && (bufSize != 0 ==> s.pageSize == 0)
    case Return(p) => p in s.held && p !in s.companion.Keys && p !in s.companion.Values
    case Grow(added, home, ptr) =>
      && added != [] && Distinct(added) && (forall i :: 0 <= i < |added| ==> added[i] !in s.pages)
      && IsSegment(added, home, ptr, s.pageSize) && IsClear(s, Range(ptr, SegmentBytes(s, |added|)))
  }

  function Local(s: Pool, thread: Option<nat>): Option<seq<Page>>
    requires thread.Some? ==> thread.value < |s.locals|
  {
    if thread.Some? then Some(s.locals[thread.value]) else None
  }

  function Taken(r: PageResult<Page>): multiset<Page> {
    (if r.page.Some? then multiset{r.page.value} else multiset{})
    + (if r.companion.Some? then multiset{r.companion.value} else multiset{})
  }

  function BuffersAfter(buffer: map<Page, Buffer>, free: seq<Page>, local: Option<seq<Page>>, batch: nat, bufSize: nat)
    : map<Page, Buffer>
  {
    var first, second := LowGet(free, local, batch).page, GetPages(free, local, batch, bufSize).companion;
    map p | p in buffer :: BufferAfter(buffer[p], p, first, second, bufSize)
  }

  function Next(s: Pool, a: Action): Pool
    requires Enabled(s, a)
  {
    match a
    case Get(thread, batch, bufSize) =>
      var r := GetPages(s.free, Local(s, thread), batch, bufSize);
      s.(free := r.free,
         locals := if thread.Some? && r.local.Some? then s.locals[thread.value := r.local.value] else s.locals,
         held := s.held + Taken(r),
         companion := if r.page.Some? && r.companion.Some? then s.companion[r.page.value := r.companion.value]
             else s.companion,
         buffer := BuffersAfter(s.buffer, s.free, Local(s, thread), batch, bufSize))
    case Return(p) =>
      s.(free := AfterReturn(s.free, [p]), held := s.held - multiset{p},
         buffer := if s.pageSize == 0 then s.buffer[p := NoBuffer] else s.buffer)
    case Grow(added, home, _) =>
      if s.segments < MAX_ALLOC_SEGMENTS then
        s.(free := added + s.free, pages := s.pages + (set p | p in added), segments := s.segments + 1,
           buffer := s.buffer + home)
      else s
  }

  // ----- the invariant -----

  ghost function Sum(lists: seq<seq<Page>>): multiset<Page> {
    if lists == [] then multiset{} else multiset(lists[0]) + Sum(lists[1..])
  }

  /** Every page of the pool, with as many copies as there are places holding
      it: conservation says that there is exactly one of each. */
  ghost function Everywhere(s: Pool): multiset<Page> {
    multiset(s.free) + Sum(s.locals) + s.held
  }

  ghost predicate Partition(s: Pool) {
    Everywhere(s) == multiset(s.pages)
  }

  lemma {:induction false} SumSplit(lists: seq<seq<Page>>, t: nat)
    requires t < |lists|
    ensures Sum(lists) == multiset(lists[t]) + Sum(lists[..t] + lists[t + 1..])
  {
    var others := lists[..t] + lists[t + 1..];
    if t == 0 {
      assert others == lists[1..];
    } else {
      SumSplit(lists[1..], t - 1);
      assert others[0] == lists[0] && others[1..] == lists[1..][..t - 1] + lists[1..][t..];
    }
  }

  lemma SumSplitTwice(lists: seq<seq<Page>>, t: nat, u: nat) returns (rest: multiset<Page>)
    requires t < |lists| && u < |lists| && t != u
    ensures Sum(lists) == multiset(lists[t]) + (multiset(lists[u]) + rest)
  {
    SumSplit(lists, t);
    var others := lists[..t] + lists[t + 1..];
    var u' := if u < t then u else u - 1;
    assert others[u'] == lists[u];
    SumSplit(others, u');
    rest := Sum(others[..u'] + others[u' + 1..]);
  }

  /** What the equation means for a page: it has exactly one place, counted
      over the global list, all local lists and the callers, if it belongs to
      the pool, and none otherwise. */
  lemma OnePlaceForEachPage(s: Pool, p: Page)
    requires Partition(s)
    ensures multiset(s.free)[p] + Sum(s.locals)[p] + s.held[p] == if p in s.pages then 1 else 0
  {
    hide Sum;
    assert Everywhere(s)[p] == multiset(s.pages)[p];
  }

  /** So no local list holds a page twice, and no two of them hold the same. */
  lemma LocalListsAreApart(s: Pool, t: nat, u: nat, p: Page)
    requires Partition(s) && t < |s.locals| && u < |s.locals|
    ensures multiset(s.locals[t])[p] + multiset(s.free)[p] + s.held[p] <= 1
    ensures t != u ==> multiset(s.locals[t])[p] + multiset(s.locals[u])[p] <= 1
  {
    OnePlaceForEachPage(s, p);
    SumSplit(s.locals, t);
    if t != u {
      var rest := SumSplitTwice(s.locals, t, u);
      hide Sum;
      assert Sum(s.locals)[p] == multiset(s.locals[t])[p] + multiset(s.locals[u])[p] + rest[p];
    }
    var others := s.locals[..t] + s.locals[t + 1..];
    hide Sum;
    assert Sum(s.locals)[p] == multiset(s.locals[t])[p] + Sum(others)[p];
  }

  /** A pool as ic_create_sock_buf makes it, before any thread has pages. */
  function FreshPool(pages: seq<Page>, threads: nat, pageSize: nat, home: map<Page, Buffer>): Pool {
    Pool(pages, seq(threads, _ => []), multiset{}, map[], set p | p in pages, 1, pageSize, home)
  }

  lemma {:induction false} FreshPoolIsPartitioned(pages: seq<Page>, threads: nat, pageSize: nat,
                                                  home: map<Page, Buffer>)
    requires Distinct(pages)
    ensures Partition(FreshPool(pages, threads, pageSize, home))
  {
    DistinctAsSet(pages);
    EmptyListsHoldNothing(threads);
  }

  lemma {:induction false} EmptyListsHoldNothing(threads: nat)
    ensures Sum(seq(threads, _ => [])) == multiset{}
  {
    if threads > 0 {
      var lists: seq<seq<Page>> := seq(threads, _ => []);
      assert lists[1..] == seq(threads - 1, _ => []);
      EmptyListsHoldNothing(threads - 1);
    }
  }

  // ----- every step keeps it -----

  ghost function Of(local: Option<seq<Page>>): multiset<Page> {
    if local.Some? then multiset(local.value) else multiset{}
  }

  /** A global refill takes exactly min(batch, free) pages off the list, and
      they are the page handed out and the new local list. */
  lemma RefillTakesMin<T>(free: seq<T>, local: Option<seq<T>>, batch: nat)
    requires batch > 0 && (local.Some? ==> local.value == [])
    ensures var r := LowGet(free, local, batch);
            var want := if local.Some? then batch else 1;
            && |free| - |r.free| == (if want < |free| then want else |free|)
            && (r.page.None? <==> free == [])
            && (r.page.Some? ==> free == [r.page.value] + (if r.local.Some? then r.local.value else []) + r.free)
  {
  }

  lemma ThreeParts(all: seq<Page>, p: Page, middle: seq<Page>, rest: seq<Page>)
    requires all == [p] + middle + rest
    ensures multiset(all) == multiset(rest) + multiset(middle) + multiset{p}
  {
  }

  lemma LowGetConserves(free: seq<Page>, local: Option<seq<Page>>, batch: nat)
    requires batch > 0
    ensures var r := LowGet(free, local, batch);
            && r.local.Some? == local.Some?
            && multiset(free) + Of(local)
            == multiset(r.free) + Of(r.local) + (if r.page.Some? then multiset{r.page.value} else multiset{})
  {
    if local.Some? && local.value != [] {
      assert local.value == [local.value[0]] + local.value[1..];
    } else {
      RefillTakesMin(free, local, batch);
      var r := LowGet(free, local, batch);
      if r.page.Some? {
        ThreeParts(free, r.page.value, if r.local.Some? then r.local.value else [], r.free);
      }
    }
  }

  lemma GetPagesConserves(free: seq<Page>, local: Option<seq<Page>>, batch: nat, bufSize: nat)
    requires batch > 0
    ensures var r := GetPages(free, local, batch, bufSize);
            r.local.Some? == local.Some? && multiset(free) + Of(local) == multiset(r.free) + Of(r.local) + Taken(r)
  {
    LowGetConserves(free, local, batch);
    var a := LowGet(free, local, batch);
    LowGetConserves(a.free, a.local, batch);
    hide LowGet;
  }

  lemma Regroup(a: multiset<Page>, l: multiset<Page>, others: multiset<Page>, h: multiset<Page>,
                a': multiset<Page>, l': multiset<Page>, taken: multiset<Page>)
    requires a + l == a' + l' + taken
    ensures a + (l + others) + h == a' + (l' + others) + (h + taken)
  {
    assert a + (l + others) + h == (a + l) + others + h;
    assert a' + (l' + others) + (h + taken) == (a' + l' + taken) + others + h;
  }

  lemma GetKeepsPartition(s: Pool, thread: Option<nat>, batch: nat, bufSize: nat)
    requires Partition(s) && Enabled(s, Get(thread, batch, bufSize))
    ensures Partition(Next(s, Get(thread, batch, bufSize)))
  {
    var s' := Next(s, Get(thread, batch, bufSize));
    var local := Local(s, thread);
    var r := GetPages(s.free, local, batch, bufSize);
    GetPagesConserves(s.free, local, batch, bufSize);
    hide GetPages, Taken;
    if thread.Some? {
      var t := thread.value;
      var others := s.locals[..t] + s.locals[t + 1..];
      SumSplit(s.locals, t);
      SumSplit(s'.locals, t);
      assert s'.locals[..t] + s'.locals[t + 1..] == others;
      hide Sum;
      Regroup(multiset(s.free), Of(local), Sum(others), s.held, multiset(r.free), Of(r.local), Taken(r));
    } else {
      hide Sum;
      Regroup(multiset(s.free), multiset{}, Sum(s.locals), s.held, multiset(r.free), multiset{}, Taken(r));
      assert multiset{} + Sum(s.locals) == Sum(s.locals);
    }
  }

  lemma ReturnKeepsPartition(s: Pool, p: Page)
    requires Partition(s) && Enabled(s, Return(p))
    ensures Partition(Next(s, Return(p)))
  {
    hide Sum;
    assert multiset([p] + s.free) == multiset{p} + multiset(s.free);
    assert s.held == (s.held - multiset{p}) + multiset{p};
    assert multiset{p} + multiset(s.free) + Sum(s.locals) + (s.held - multiset{p}) == Everywhere(s);
  }

  lemma GrowKeepsPartition(s: Pool, added: seq<Page>, home: map<Page, Buffer>, ptr: int)
    requires Partition(s) && Enabled(s, Grow(added, home, ptr))
    ensures Partition(Next(s, Grow(added, home, ptr)))
  {
    DistinctAsSet(added);
    assert multiset(s.pages + (set p | p in added)) == multiset(s.pages) + multiset(set p | p in added);
  }

  lemma {:induction false} DistinctAsSet(list: seq<Page>)
    requires Distinct(list)
    ensures multiset(list) == multiset(set p | p in list)
  {
    if list != [] {
      var last := list[|list| - 1];
      var before := list[..|list| - 1];
      DistinctAsSet(before);
      assert list == before + [last];
      assert (set p | p in list) == (set p | p in before) + {last};
      assert last !in before;
    }
  }

  /** A run: every action enabled where it is taken. */
  ghost predicate IsRun(states: seq<Pool>, actions: seq<Action>) {
    && |states| == |actions| + 1
    && forall i :: 0 <= i < |actions| ==> Enabled(states[i], actions[i]) && states[i + 1] == Next(states[i], actions[i])
  }

  /** Over every run, all pages stay divided between the global list, the
      local lists and the callers. */
  lemma {:induction false} RunsKeepPartition(states: seq<Pool>, actions: seq<Action>, n: nat)
    requires IsRun(states, actions) && Partition(states[0]) && n < |states|
    ensures Partition(states[n])
  {
    hide Partition, Next;
    if n > 0 {
      RunsKeepPartition(states, actions, n - 1);
      var s := states[n - 1];
      match actions[n - 1] {
        case Get(thread, batch, bufSize) => GetKeepsPartition(s, thread, batch, bufSize);
        case Return(p) => ReturnKeepsPartition(s, p);
        case Grow(added, home, ptr) => GrowKeepsPartition(s, added, home, ptr);
      }
    }
  }

  // ----- returning more than one page -----

  /** Returning conserves pages exactly when one page without a companion is
      returned; otherwise all but the first page and the whole old list are lost. */
  lemma ReturnConservesIffSingle<T>(free: seq<T>, chain: seq<T>, companions: seq<Option<T>>)
    requires chain != [] && |companions| == |chain|
    ensures var returned := WithCompanions(chain, companions);
            && (multiset(AfterReturn(free, returned)) == multiset(free) + multiset(returned)
                  <==> |chain| == 1 && companions[0].None?)
            && (|chain| == 1 && companions[0].None? ==> AfterReturn(free, returned) == chain + free)
            && (!(|chain| == 1 && companions[0].None?) ==> AfterReturn(free, returned) == [chain[0]])
  {
    var returned := WithCompanions(chain, companions);
    LengthOfReturn(chain, companions);
    assert |multiset(AfterReturn(free, returned))| == |AfterReturn(free, returned)|;
    assert |multiset(free) + multiset(returned)| == |free| + |returned|;
    if |returned| == 1 {
      assert returned == chain;
      assert multiset(returned + free) == multiset(free) + multiset(returned);
    }
  }

  lemma LengthOfReturn<T>(chain: seq<T>, companions: seq<Option<T>>)
    requires chain != [] && |companions| == |chain|
    ensures |WithCompanions(chain, companions)| == 1 <==> |chain| == 1 && companions[0].None?
    ensures |WithCompanions(chain, companions)| == 1 ==> WithCompanions(chain, companions) == chain
  {
    assert chain[1..] != [] ==> WithCompanions(chain[1..], companions[1..]) != [];
    assert |chain| == 1 ==> chain == [chain[0]] && WithCompanions(chain[1..], companions[1..]) == [];
  }
}
