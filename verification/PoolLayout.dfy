/** How a segment of memory is carved into page descriptors and buffers, with
    the C arithmetic that decides how much memory is asked for. */
module PoolLayout {
  import opened Basics

  const CACHE_LINE: nat := 128        // IC_STD_CACHE_LINE_SIZE

  datatype Range = Range(start: int, size: nat)

  /** No byte is in both. */
  predicate Disjoint(a: Range, b: Range) {
    a.size == 0 || b.size == 0 || a.start + a.size <= b.start || b.start + b.size <= a.start
  }

  predicate Inside(a: Range, start: int, bytes: nat) {
    start <= a.start && a.start + a.size <= start + bytes
  }

  /** A descriptor at `addr`, its buffer (0 for none) and its link. */
  datatype Descriptor = Descriptor(addr: int, buf: int, next: int)

  ghost predicate Carved(d: seq<Descriptor>, ptr: int, pageSize: nat, n: nat) {
    && |d| == n
    && forall i :: 0 <= i < n ==>
         && d[i].addr == ptr + i * CACHE_LINE
         && d[i].buf == (if pageSize == 0 then 0 else ptr + n * CACHE_LINE + i * pageSize)
         && d[i].next == ptr + (i + 1) * CACHE_LINE
  }

  /** set_up_pages_in_linked_list. The caller replaces the last link. */
  method SetUpPages(ptr: int, pageSize: nat, noOfPages: nat) returns (descriptors: seq<Descriptor>)
    requires noOfPages > 0
    ensures Carved(descriptors, ptr, pageSize, noOfPages)
  {
    descriptors := [];
    var loopPtr := if pageSize == 0 then 0 else ptr + noOfPages * CACHE_LINE;
    var pagePtr := ptr;
    for i := 0 to noOfPages
      invariant |descriptors| == i
      invariant pagePtr == ptr + i * CACHE_LINE
      invariant loopPtr == if pageSize == 0 then 0 else ptr + noOfPages * CACHE_LINE + i * pageSize
      invariant forall j :: 0 <= j < i ==>
        && descriptors[j].addr == ptr + j * CACHE_LINE
        && descriptors[j].buf == (if pageSize == 0 then 0 else ptr + noOfPages * CACHE_LINE + j * pageSize)
        && descriptors[j].next == ptr + (j + 1) * CACHE_LINE
    {
      descriptors := descriptors + [Descriptor(pagePtr, loopPtr, pagePtr + CACHE_LINE)];
      assert (i + 1) * pageSize == i * pageSize + pageSize;
      loopPtr := loopPtr + pageSize;
      pagePtr := pagePtr + CACHE_LINE;
    }
  }

  /** The memory of descriptor `i` (kind false) or of its buffer (kind true). */
  function Piece(d: seq<Descriptor>, pageSize: nat, i: nat, isBuffer: bool): Range
    requires i < |d|
  {
    if isBuffer then Range(d[i].buf, pageSize) else Range(d[i].addr, CACHE_LINE)
  }

  lemma Scaled(i: nat, j: nat, k: nat)
    requires i < j
    ensures i * k + k <= j * k
  {
    assert (i + 1) * k <= j * k;
  }

  /** Two different pieces of a segment never overlap. */
  lemma PiecesAreDisjoint(d: seq<Descriptor>, ptr: int, pageSize: nat, n: nat,
                          i: nat, isBuffer: bool, j: nat, isBuffer': bool)
    requires Carved(d, ptr, pageSize, n) && (isBuffer || isBuffer' ==> pageSize > 0)
    requires i < n && j < n && (i != j || isBuffer != isBuffer')
    ensures Disjoint(Piece(d, pageSize, i, isBuffer), Piece(d, pageSize, j, isBuffer'))
  {
    var k := if isBuffer then pageSize else CACHE_LINE;
    if isBuffer == isBuffer' {
      if i < j { Scaled(i, j, k); } else { Scaled(j, i, k); }
    } else {
      Scaled(i, n, CACHE_LINE);
      Scaled(j, n, CACHE_LINE);
    }
  }

  /** Every piece lies inside `bytes` bytes exactly when there are as many as
      pages and descriptors need. */
  lemma PiecesFitIff(d: seq<Descriptor>, ptr: int, pageSize: nat, n: nat, bytes: nat)
    requires Carved(d, ptr, pageSize, n) && n > 0
    ensures (forall i, b :: 0 <= i < n && (b ==> pageSize > 0) ==> Inside(Piece(d, pageSize, i, b), ptr, bytes))
            <==> n * (pageSize + CACHE_LINE) <= bytes
  {
    assert n * (pageSize + CACHE_LINE) == n * pageSize + n * CACHE_LINE;
    assert (n - 1) * pageSize + pageSize == n * pageSize;
    var last := Piece(d, pageSize, n - 1, pageSize > 0);
    assert last.start + last.size == ptr + n * (pageSize + CACHE_LINE);
    if n * (pageSize + CACHE_LINE) <= bytes {
      forall i, b | 0 <= i < n && (b ==> pageSize > 0) ensures Inside(Piece(d, pageSize, i, b), ptr, bytes) {
        Scaled(i, n, CACHE_LINE);
        Scaled(i, n, pageSize);
      }
    }
  }

  // ----- how much memory is asked for -----

  /** ic_create_sock_buf: 64-bit products and sum. */
  function CreateBytes(pageSize: nat, n: nat): nat {
    ((pageSize * n) % TWO_TO_64 + (n * CACHE_LINE) % TWO_TO_64) % TWO_TO_64
  }

  /** inc_sock_buf: the sum of the two sizes is a 32-bit one. */
  function IncBytes(pageSize: nat, n: nat): nat {
    (n * ((pageSize + CACHE_LINE) % TWO_TO_32)) % TWO_TO_64
  }

  /** A new pool gets enough memory exactly when the total is a 64-bit number. */
  lemma CreateAllocatesEnoughIff(pageSize: nat, n: nat)
    requires n > 0
    ensures n * (pageSize + CACHE_LINE) <= CreateBytes(pageSize, n) <==> n * (pageSize + CACHE_LINE) < TWO_TO_64
  {
    var x, y := pageSize * n, n * CACHE_LINE;
    assert n * (pageSize + CACHE_LINE) == x + y;
    assert CreateBytes(pageSize, n) == (x % TWO_TO_64 + y % TWO_TO_64) % TWO_TO_64;
    hide CreateBytes;
    WrappedSum(x, y);
  }

  lemma WrappedSum(x: nat, y: nat)
    ensures x + y <= (x % TWO_TO_64 + y % TWO_TO_64) % TWO_TO_64 <==> x + y < TWO_TO_64
  {
    assert x % TWO_TO_64 <= x && y % TWO_TO_64 <= y;
  }

  /** A grown segment needs in addition that descriptor and page size add up
      within 32 bits. */
  lemma IncAllocatesEnoughIff(pageSize: nat, n: nat)
    requires n > 0
    ensures n * (pageSize + CACHE_LINE) <= IncBytes(pageSize, n)
            <==> pageSize + CACHE_LINE < TWO_TO_32 && n * (pageSize + CACHE_LINE) < TWO_TO_64
  {
    var each := pageSize + CACHE_LINE;
    var wrapped := each % TWO_TO_32;
    if each >= TWO_TO_32 {
      assert wrapped < each;
      SmallerProduct(n, wrapped, each);
    }
    assert (n * wrapped) % TWO_TO_64 <= n * wrapped;
  }

  lemma SmallerProduct(n: nat, a: nat, b: nat)
    requires n > 0 && a < b
    ensures n * a < n * b
  {
    assert n * b == n * a + n * (b - a);
  }

  /** The page sizes for which growing by one page asks for too little. */
  lemma GrowthCanAskForTooLittle(pageSize: nat)
    requires TWO_TO_32 - CACHE_LINE <= pageSize < TWO_TO_32
    ensures IncBytes(pageSize, 1) < pageSize + CACHE_LINE
  {
    IncAllocatesEnoughIff(pageSize, 1);
  }
}
