/** The poll set of comm/ic_poll_set.c: a table of connections, the list of
    those ready in the current scan, and the two ways of telling the kernel
    about them. */
module PollSets {

  const MAX_CONNECTIONS: nat := 1024   // MAX_POLL_SET_CONNECTIONS
  const MEM_ALLOC_ERROR: int := 7005
  const POLL_SET_FULL: int := 7026
  const NOT_FOUND_IN_POLL_SET: int := 7027

  class PollConnection {
    const fd: int
    const userObj: int
    const index: nat

    constructor (fd: int, userObj: int, index: nat)
      ensures this.fd == fd && this.userObj == userObj && this.index == index
    {
      this.fd, this.userObj, this.index := fd, userObj, index;
    }
  }

  // ----- tables and lists -----

  type Table = seq<PollConnection?>

  /** First position that holds `fd`, or the length. */
  function FdIndex(t: Table, fd: int): (i: nat)
    ensures i <= |t|
    ensures i < |t| ==> t[i] != null && t[i].fd == fd
    ensures forall j :: 0 <= j < i && t[j] != null ==> t[j].fd != fd
  {
    if t == [] then 0
    else if t[0] != null && t[0].fd == fd then 0
    else
      var i := 1 + FdIndex(t[1..], fd);
      assert forall j :: 1 <= j < |t| ==> t[j] == t[1..][j - 1];
      i
  }

  function FirstEmpty(t: Table): (i: nat)
    ensures i <= |t|
    ensures i < |t| ==> t[i] == null
    ensures forall j :: 0 <= j < i ==> t[j] != null
  {
    if t == [] || t[0] == null then 0
    else
      var i := 1 + FirstEmpty(t[1..]);
      assert forall j :: 1 <= j < |t| ==> t[j] == t[1..][j - 1];
      i
  }

  function Occupied(t: Table): nat {
    if t == [] then 0 else (if t[|t| - 1] == null then 0 else 1) + Occupied(t[..|t| - 1])
  }

  function One(c: PollConnection?): nat {
    if c == null then 0 else 1
  }

  lemma {:induction false} OccupiedUpdate(t: Table, i: nat, c: PollConnection?)
    requires i < |t|
    ensures Occupied(t[i := c]) + One(t[i]) == Occupied(t) + One(c)
  {
    var n := |t| - 1;
    if i < n {
      OccupiedUpdate(t[..n], i, c);
      assert t[i := c][..n] == t[..n][i := c];
    } else {
      assert t[i := c][..n] == t[..n];
    }
  }

  lemma {:induction false} FullTableHasNoGap(t: Table)
    ensures Occupied(t) <= |t|
    ensures Occupied(t) < |t| ==> FirstEmpty(t) < |t|
  {
    if t != [] {
      var n := |t| - 1;
      FullTableHasNoGap(t[..n]);
      assert forall j :: 0 <= j < n ==> t[j] == t[..n][j];
    }
  }

  /** Compact discipline: the connections are the first `n` entries. */
  predicate IsPrefix(t: Table, n: nat) {
    n <= |t| && forall i :: 0 <= i < |t| ==> (t[i] != null <==> i < n)
  }

  /** Sparse discipline: a connection stays in the slot it was given. */
  predicate IsIndexed(t: Table) {
    forall i :: 0 <= i < |t| && t[i] != null ==> t[i].index == i
  }

  lemma {:induction false} PrefixIsCount(t: Table, n: nat)
    requires IsPrefix(t, n)
    ensures Occupied(t) == n
  {
    if t != [] {
      var m := |t| - 1;
      PrefixIsCount(t[..m], if n <= m then n else m);
    }
  }

  /** Remove position `i` by moving the last element there. */
  function DropAt<T>(list: seq<T>, i: nat): (r: seq<T>)
    requires i < |list|
    ensures |r| == |list| - 1
  {
    list[i := list[|list| - 1]][..|list| - 1]
  }

  /** The ready list after `fd` leaves the poll set. */
  function WithoutFd(list: Table, fd: int): Table {
    var i := FdIndex(list, fd);
    if i < |list| then DropAt(list, i) else list
  }

  predicate DistinctFds(t: Table) {
    forall i, j :: 0 <= i < j < |t| && t[i] != null && t[j] != null ==> t[i].fd != t[j].fd
  }

  predicate NoNull(t: Table) {
    forall i :: 0 <= i < |t| ==> t[i] != null
  }

  lemma DropKeepsDistinct(list: Table, i: nat)
    requires i < |list| && NoNull(list) && DistinctFds(list)
    ensures NoNull(DropAt(list, i)) && DistinctFds(DropAt(list, i))
    ensures forall c :: c in DropAt(list, i) ==> c in list
    ensures forall j :: 0 <= j < |list| - 1 ==> DropAt(list, i)[j].fd != list[i].fd
  {
    var r := DropAt(list, i);
    assert forall j :: 0 <= j < |r| ==> r[j] == if j == i then list[|list| - 1] else list[j];
  }

  /** The table after slot `i` is given up: a compact array, whose last entry
      is at `last`, closes the gap with it; a sparse one keeps the gap. */
  function Vacated(t: Table, i: nat, last: nat, compact: bool): Table
    requires i < |t| && last < |t|
  {
    if compact then t[i := t[last]][last := null] else t[i := null]
  }

  /** Giving up a slot keeps the discipline of the array. */
  lemma VacatedKeepsDiscipline(t: Table, i: nat, last: nat, compact: bool)
    requires i < |t| && last < |t| && t[i] != null
    requires if compact then IsPrefix(t, last + 1) else IsIndexed(t)
    ensures if compact then IsPrefix(Vacated(t, i, last, compact), last) else IsIndexed(Vacated(t, i, last, compact))
  {
  }

  /** Giving up a slot removes its connection and no other. */
  lemma VacatedFacts(t: Table, i: nat, last: nat, compact: bool)
    requires i < |t| && last < |t| && t[i] != null && t[last] != null
    ensures var r := Vacated(t, i, last, compact);
            && Occupied(r) == Occupied(t) - 1
            && (DistinctFds(t) ==> DistinctFds(r) && FdIndex(r, t[i].fd) == |r|)
            && forall x :: x in t && x != null && x.fd != t[i].fd ==> x in r
  {
    var r := Vacated(t, i, last, compact);
    if compact {
      OccupiedUpdate(t, i, t[last]);
      OccupiedUpdate(t[i := t[last]], last, null);
    } else {
      OccupiedUpdate(t, i, null);
    }
    hide Occupied;
    forall x | x in t && x != null && x.fd != t[i].fd ensures x in r {
      var k :| 0 <= k < |t| && t[k] == x;
      assert r[if compact && k == last then i else k] == x;
    }
  }

  /** The fds of the table are registered with the kernel, and each index
      registered names the slot that holds that fd. */
  ghost predicate Agrees(kernel: map<int, nat>, t: Table) {
    && (forall fd :: fd in kernel ==> kernel[fd] < |t| && t[kernel[fd]] != null && t[kernel[fd]].fd == fd)
    && (forall i :: 0 <= i < |t| && t[i] != null ==> t[i].fd in kernel)
  }

  lemma AgreesAt(kernel: map<int, nat>, t: Table, fd: int)
    requires Agrees(kernel, t) && fd in kernel
    ensures kernel[fd] < |t| && t[kernel[fd]] != null && t[kernel[fd]].fd == fd
  {
  }

  /** Filling an empty slot moves no connection, registered or not. */
  lemma FillKeepsAgreement(kernel: map<int, nat>, t: Table, i: nat, c: PollConnection)
    requires Agrees(kernel, t) && i < |t| && t[i] == null
    ensures Agrees(kernel[c.fd := i], t[i := c])
  {
  }

  /** Nor does giving up a slot of a sparse table. */
  lemma VacatedKeepsAgreement(kernel: map<int, nat>, t: Table, i: nat, last: nat)
    requires Agrees(kernel, t) && DistinctFds(t) && i < |t| && last < |t| && t[i] != null
    ensures Agrees(kernel - {t[i].fd}, Vacated(t, i, last, false))
  {
  }

  // ----- an fd that is added twice -----

  /** A sparse table after the first entry with `fd` is taken out. */
  function RolledBack(t: Table, fd: int): Table {
    var k := FdIndex(t, fd);
    if k < |t| then t[k := null] else t
  }

  /** Table, ready list, whether a scan is going on, and what the kernel was told. */
  datatype Whole = Whole(table: Table, ready: Table, scanning: bool, kernel: map<int, nat>)

  /** Adding an fd whose registration the kernel refuses: the new entry goes to
      the first empty slot, and removing the fd again takes it from the ready
      list and takes out the first entry with it. */
  function AfterRefusal(w: Whole, c: PollConnection): Whole
    requires FirstEmpty(w.table) < |w.table|
  {
    w.(table := RolledBack(w.table[FirstEmpty(w.table) := c], c.fd),
       ready := if w.scanning then WithoutFd(w.ready, c.fd) else w.ready)
  }

  /** A second add of a registered fd, which the kernel refuses. */
  ghost predicate IsSecondAdd(w: Whole, c: PollConnection) {
    && Agrees(w.kernel, w.table) && DistinctFds(w.table) && FirstEmpty(w.table) < |w.table|
    && c.fd in w.kernel && c !in w.table
  }

  /** Everything is as before exactly when the first empty slot came before the
      slot of the original entry, and that entry was not waiting in a scan. The
      kernel still names the right slot exactly when the first of these holds. */
  lemma DuplicateAddRollsBackIff(w: Whole, c: PollConnection)
    requires IsSecondAdd(w, c)
    ensures var j := FirstEmpty(w.table);
            && (AfterRefusal(w, c) == w <==>
                  j < w.kernel[c.fd] && !(w.scanning && FdIndex(w.ready, c.fd) < |w.ready|))
            && (Agrees(w.kernel, AfterRefusal(w, c).table) <==> j < w.kernel[c.fd])
  {
    DuplicateInTable(w, c);
    var k := FdIndex(w.ready, c.fd);
    hide Agrees, RolledBack, DistinctFds;
    if w.scanning && k < |w.ready| {
      assert |AfterRefusal(w, c).ready| == |w.ready| - 1;
    }
  }

  lemma DuplicateInTable(w: Whole, c: PollConnection)
    requires IsSecondAdd(w, c)
    ensures var j := FirstEmpty(w.table);
            var back := RolledBack(w.table[j := c], c.fd);
            && (Agrees(w.kernel, back) <==> j < w.kernel[c.fd])
            && (back == w.table <==> j < w.kernel[c.fd])
            && DistinctFds(back)
  {
    var t, i, j := w.table, w.kernel[c.fd], FirstEmpty(w.table);
    AgreesAt(w.kernel, t, c.fd);
    var added := t[j := c];
    var k := FdIndex(added, c.fd);
    assert added[i].fd == c.fd && added[j].fd == c.fd;
    assert k == if j < i then j else i;
    var back := RolledBack(added, c.fd);
    if j < i {
      assert back == t;
    } else {
      assert back[i] == null && back[j] == c;
    }
  }

  /** A second add during a scan, with the table restored: the connection that
      was waiting is gone from the ready list, though it is still a member. */
  lemma DuplicateAddLosesReady(w: Whole, c: PollConnection)
    requires IsSecondAdd(w, c) && FirstEmpty(w.table) < w.kernel[c.fd]
    requires w.scanning && NoNull(w.ready) && DistinctFds(w.ready) && FdIndex(w.ready, c.fd) < |w.ready|
    ensures var after := AfterRefusal(w, c);
            && after.table == w.table && FdIndex(after.table, c.fd) < |after.table|
            && |after.ready| == |w.ready| - 1 && FdIndex(after.ready, c.fd) == |after.ready|
  {
    DuplicateInTable(w, c);
    AgreesAt(w.kernel, w.table, c.fd);
    DropKeepsDistinct(w.ready, FdIndex(w.ready, c.fd));
  }

  /** The poll form takes a second entry for an fd: after one removal the fd is
      still in the table. */
  lemma DuplicateOutlivesRemoval(t: Table, n: nat, c: PollConnection)
    requires IsPrefix(t, n) && n < |t| && FdIndex(t, c.fd) < |t|
    ensures var added := t[n := c];
            var i := FdIndex(added, c.fd);
            i < |added| && FdIndex(Vacated(added, i, n, true), c.fd) < |t|
  {
    var added := t[n := c];
    var i := FdIndex(added, c.fd);
    var k := FdIndex(t, c.fd);
    assert k < n && added[k] == t[k];
    assert i <= k;
    assert Vacated(added, i, n, true)[i] == c;
  }

  /** In a sparse table with two entries for an fd, one removal leaves the other
      without a registration; the entry left is the old one exactly when the new
      one was put before it. */
  lemma EntryOutlivesRegistration(t: Table, kernel: map<int, nat>, c: PollConnection)
    requires FirstEmpty(t) < |t| && FdIndex(t, c.fd) < |t| && c !in t
    ensures var added := t[FirstEmpty(t) := c];
            var i := FdIndex(added, c.fd);
            && i < |added| && FdIndex(added[i := null], c.fd) < |t| && !Agrees(kernel - {c.fd}, added[i := null])
            && (added[i := null] == t <==> FirstEmpty(t) < FdIndex(t, c.fd))
  {
    var j, k := FirstEmpty(t), FdIndex(t, c.fd);
    var added := t[j := c];
    var i := FdIndex(added, c.fd);
    assert added[j] == c && added[k] == t[k];
    var after := added[i := null];
    if j < k {
      assert i == j && after == t && t[k].fd == c.fd;
    } else {
      assert i == k && after[j] == c;
    }
  }

  // ----- the poll set -----

  /** What epoll_ctl answers to a deletion: done, ENOENT, or another error. */
  datatype RemoveReply = Removed | AlreadyGone | Refused

  /** What epoll_wait and poll answer. */
  datatype WaitReply<T> = Reported(events: seq<T>) | Interrupted | WaitFailed(code: int)

  /** The entries of `t` at the positions marked in `revents`, in order. */
  function Selected(t: Table, revents: seq<bool>): (r: Table)
    requires |revents| <= |t|
    ensures |r| <= |revents|
    ensures forall i :: 0 <= i < |r| ==> r[i] in t[..|revents|]
    ensures forall i :: 0 <= i < |revents| && revents[i] ==> t[i] in r
  {
    if revents == [] then []
    else
      var n := |revents| - 1;
      var r := Selected(t, revents[..n]);
      if revents[n] then r + [t[n]] else r
  }

  lemma {:induction false} SelectedIsDistinct(t: Table, revents: seq<bool>)
    requires |revents| <= |t| && DistinctFds(t) && NoNull(t[..|revents|])
    ensures NoNull(Selected(t, revents)) && DistinctFds(Selected(t, revents))
  {
    if revents != [] {
      var n := |revents| - 1;
      assert t[..n + 1] == t[..n] + [t[n]];
      SelectedIsDistinct(t, revents[..n]);
      var r := Selected(t, revents[..n]);
      assert Selected(t, revents) == if revents[n] then r + [t[n]] else r;
      hide Selected;
      forall i | 0 <= i < |r| ensures r[i].fd != t[n].fd {
        assert r[i] in t[..n];
        var k :| 0 <= k < n && t[k] == r[i];
      }
      LastIsNew(r, t[n]);
    }
  }

  lemma LastIsNew(r: Table, c: PollConnection)
    requires NoNull(r) && DistinctFds(r) && forall i :: 0 <= i < |r| ==> r[i].fd != c.fd
    ensures NoNull(r + [c]) && DistinctFds(r + [c])
  {
  }

  /** A connection is selected exactly when its position is marked. */
  lemma {:induction false} SelectedIff(t: Table, revents: seq<bool>, i: nat)
    requires i < |revents| <= |t| && DistinctFds(t) && NoNull(t[..|revents|])
    ensures revents[i] <==> t[i] in Selected(t, revents)
  {
    var n := |revents| - 1;
    assert t[..n + 1] == t[..n] + [t[n]];
    if i < n {
      SelectedIff(t, revents[..n], i);
      assert t[i].fd != t[n].fd;
    } else {
      assert t[n] !in t[..n];
    }
  }

  class PollSet {
    const pollConnections: array<PollConnection?>
    const readyConnections: array<PollConnection?>
    const pollFds: array<int>        // the pollfd array of the poll variant
    const useCompactArray: bool
    var numPollConnections: nat
    var numReadyConnections: nat
    var pollScanOngoing: bool
    ghost var kernel: map<int, nat>  // epoll: the slot index registered for each fd

    ghost predicate Shape()
      reads this
    {
      && pollConnections.Length == readyConnections.Length == pollFds.Length == MAX_CONNECTIONS
      && pollConnections != readyConnections
      && numReadyConnections <= MAX_CONNECTIONS && numPollConnections <= MAX_CONNECTIONS
    }

    ghost function Members(): Table
      reads pollConnections
    {
      pollConnections[..]
    }

    ghost function Ready(): Table
      requires Shape()
      reads this, readyConnections
    {
      readyConnections[..numReadyConnections]
    }

    /** The table: the count of entries, and the discipline of the array. */
    ghost predicate TableOrdered()
      requires Shape()
      reads this, pollConnections
    {
      && numPollConnections == Occupied(Members())
      && if useCompactArray then IsPrefix(Members(), numPollConnections) else IsIndexed(Members())
    }

    /** During a scan the ready list holds live members, none twice. */
    ghost predicate ScanValid()
      requires Shape()
      reads this, pollConnections, readyConnections
    {
      pollScanOngoing ==>
        && NoNull(Ready()) && DistinctFds(Ready())
        && forall i :: 0 <= i < numReadyConnections ==> readyConnections[i] in Members()
    }

    /** What holds whatever fds are added. */
    ghost predicate Ordered()
      reads this, pollConnections, readyConnections
    {
      Shape() && TableOrdered() && ScanValid()
    }

    /** In addition there is one entry per fd. */
    ghost predicate Valid()
      reads this, pollConnections, readyConnections
    {
      Ordered() && DistinctFds(Members())
    }

    ghost function State(): Whole
      requires Shape()
      reads this, pollConnections, readyConnections
    {
      Whole(Members(), Ready(), pollScanOngoing, kernel)
    }

    ghost predicate Has(fd: int)
      reads pollConnections
    {
      FdIndex(Members(), fd) < pollConnections.Length
    }

    /** What the kernel was told still names the slot holding that fd. */
    ghost predicate KernelAgrees()
      requires Shape()
      reads this, pollConnections
    {
      Agrees(kernel, Members())
    }

    /** The pollfd array lists the fds of the table in the table's order. */
    ghost predicate PollFdsAgree()
      requires Shape()
      reads this, pollConnections, pollFds
    {
      forall i :: 0 <= i < MAX_CONNECTIONS && pollConnections[i] != null ==> pollFds[i] == pollConnections[i].fd
    }

    constructor (compact: bool)
      ensures Valid() && numPollConnections == 0 && !pollScanOngoing && useCompactArray == compact
      ensures kernel == map[] && KernelAgrees() && PollFdsAgree()
      ensures forall fd :: !Has(fd)
      ensures fresh(pollConnections) && fresh(readyConnections) && fresh(pollFds)
    {
      var a := new PollConnection?[MAX_CONNECTIONS](_ => null);
      var b := new PollConnection?[MAX_CONNECTIONS](_ => null);
      var f := new int[MAX_CONNECTIONS](_ => 0);
      pollConnections, readyConnections, pollFds := a, b, f;
      useCompactArray := compact;
      numPollConnections, numReadyConnections, pollScanOngoing := 0, 0, false;
      kernel := map[];
      new;
      PrefixIsCount(Members(), 0);
    }

    /** add_poll_set_member: an fd that is there already gets a second entry. */
    method AddMember(fd: int, userObj: int, memory: bool) returns (code: int, index: nat)
      requires Ordered()
      modifies this`numPollConnections, pollConnections
      ensures Ordered()
      ensures code == 0 ==> (DistinctFds(Members()) <==> DistinctFds(old(Members())) && !old(Has(fd)))
      ensures code == (if old(numPollConnections) == MAX_CONNECTIONS then POLL_SET_FULL
                       else if !memory then MEM_ALLOC_ERROR else 0)
      ensures code != 0 ==> Members() == old(Members())
      ensures code == 0 ==>
                && index < MAX_CONNECTIONS && old(pollConnections[index]) == null
                && index == (if useCompactArray then old(numPollConnections) else FirstEmpty(old(Members())))
                && pollConnections[index] != null && fresh(pollConnections[index])
                && pollConnections[index].fd == fd && pollConnections[index].userObj == userObj
                && Members() == old(Members())[index := pollConnections[index]]
    {
      FullTableHasNoGap(Members());
      if numPollConnections == MAX_CONNECTIONS {
        return POLL_SET_FULL, 0;
      }
      if !memory {
        return MEM_ALLOC_ERROR, 0;
      }
      if useCompactArray {
        index := numPollConnections;
      } else {
        index := FindEmpty();
      }
      var conn := new PollConnection(fd, userObj, index);
      Place(conn, index);
      return 0, index;
    }

    method Place(conn: PollConnection, index: nat)
      requires Ordered()
      requires index < MAX_CONNECTIONS && pollConnections[index] == null
      requires if useCompactArray then index == numPollConnections else conn.index == index
      modifies this`numPollConnections, pollConnections
      ensures Ordered()
      ensures DistinctFds(Members()) <==> DistinctFds(old(Members())) && !old(Has(conn.fd))
      ensures Members() == old(Members())[index := conn]
    {
      ghost var was := Members();
      OccupiedUpdate(was, index, conn);
      FullTableHasNoGap(was[index := conn]);
      FillKeepsMembers(was, index, conn);
      hide Occupied, FdIndex;
      pollConnections[index] := conn;
      numPollConnections := numPollConnections + 1;
      assert Members() == was[index := conn];
    }

    static lemma FillKeepsMembers(t: Table, i: nat, c: PollConnection)
      requires i < |t| && t[i] == null
      ensures DistinctFds(t[i := c]) <==> DistinctFds(t) && FdIndex(t, c.fd) == |t|
      ensures forall x :: x in t && x != null ==> x in t[i := c]
    {
      var r := t[i := c];
      var m := FdIndex(t, c.fd);
      assert m < |t| ==> r[m] == t[m] && r[m].fd == r[i].fd && m != i;
      if DistinctFds(r) {
        forall k, l | 0 <= k < l < |t| && t[k] != null && t[l] != null ensures t[k].fd != t[l].fd {
          assert r[k] == t[k] && r[l] == t[l];
        }
      }
      forall x | x in t && x != null ensures x in r {
        var k :| 0 <= k < |t| && t[k] == x;
        assert r[k] == x;
      }
    }

    method FindEmpty() returns (i: nat)
      ensures i == FirstEmpty(pollConnections[..])
    {
      i := 0;
      while i < pollConnections.Length && pollConnections[i] != null
        invariant i <= pollConnections.Length
        invariant forall j :: 0 <= j < i ==> pollConnections[j] != null
      {
        i := i + 1;
      }
    }

    method FindFd(a: array<PollConnection?>, n: nat, fd: int) returns (i: nat)
      requires n <= a.Length
      ensures i == FdIndex(a[..n], fd)
    {
      i := 0;
      while i < n && (a[i] == null || a[i].fd != fd)
        invariant i <= n
        invariant forall j :: 0 <= j < i && a[j] != null ==> a[j].fd != fd
      {
        i := i + 1;
      }
    }

    /** remove_poll_set_member. */
    method RemoveMember(fd: int) returns (code: int, index: nat)
      requires Ordered()
      modifies this`numPollConnections, this`numReadyConnections, pollConnections, readyConnections
      ensures Ordered()
      ensures DistinctFds(old(Members())) ==> DistinctFds(Members()) && !Has(fd)
      ensures Ready() == if pollScanOngoing then WithoutFd(old(Ready()), fd) else old(Ready())
      ensures code == if old(Has(fd)) then 0 else NOT_FOUND_IN_POLL_SET
      ensures code != 0 ==> Members() == old(Members()) && Ready() == old(Ready())
      ensures code == 0 ==>
                && index == FdIndex(old(Members()), fd)
                && numPollConnections == old(numPollConnections) - 1 < MAX_CONNECTIONS
                && Members() == Vacated(old(Members()), index, numPollConnections, useCompactArray)
    {
      if pollScanOngoing {
        DropFromReady(fd);
      }
      index := FindFd(pollConnections, MAX_CONNECTIONS, fd);
      assert pollConnections[..MAX_CONNECTIONS] == Members();
      if index == MAX_CONNECTIONS {
        assert forall i :: 0 <= i < |old(Ready())| && old(pollScanOngoing) ==> old(Ready()[i]) in old(Members());
        return NOT_FOUND_IN_POLL_SET, 0;
      }
      Vacate(index);
      return 0, index;
    }

    /** No event is reported any more on a connection that is being removed. */
    method DropFromReady(fd: int)
      requires Ordered() && pollScanOngoing
      modifies this`numReadyConnections, readyConnections
      ensures Ordered() && Ready() == WithoutFd(old(Ready()), fd)
      ensures forall i :: 0 <= i < numReadyConnections ==> readyConnections[i].fd != fd
    {
      ghost var was := Ready();
      var n := numReadyConnections;
      var i := FindFd(readyConnections, n, fd);
      if i < n {
        DropKeepsDistinct(was, i);
        hide FdIndex, DistinctFds;
        SwapOut(i);
        assert forall j :: 0 <= j < numReadyConnections ==> readyConnections[j] == Ready()[j];
      } else {
        assert forall j :: 0 <= j < n ==> was[j] == readyConnections[j];
      }
    }

    method SwapOut(i: nat)
      requires Shape() && i < numReadyConnections
      modifies this`numReadyConnections, readyConnections
      ensures Shape() && Ready() == DropAt(old(Ready()), i)
    {
      var n := numReadyConnections;
      readyConnections[i] := readyConnections[n - 1];
      readyConnections[n - 1] := null;
      numReadyConnections := n - 1;
    }

    method Vacate(found: nat)
      requires Ordered() && found < MAX_CONNECTIONS && pollConnections[found] != null
      requires pollScanOngoing ==>
                forall i :: 0 <= i < numReadyConnections ==> readyConnections[i].fd != pollConnections[found].fd
      modifies this`numPollConnections, pollConnections
      ensures Ordered()
      ensures DistinctFds(old(Members())) ==> DistinctFds(Members()) && !Has(old(pollConnections[found].fd))
      ensures numPollConnections == old(numPollConnections) - 1 < MAX_CONNECTIONS
      ensures Members() == Vacated(old(Members()), found, numPollConnections, useCompactArray)
    {
      ghost var was := Members();
      OccupiedUpdate(was, found, null);
      ghost var last := if useCompactArray then numPollConnections - 1 else found;
      assert last < MAX_CONNECTIONS && was[last] != null;
      VacatedFacts(was, found, last, useCompactArray);
      VacatedKeepsDiscipline(was, found, last, useCompactArray);
      hide Occupied, FdIndex, DistinctFds, IsPrefix, IsIndexed;
      numPollConnections := numPollConnections - 1;
      ClearSlot(found);
    }

    method ClearSlot(found: nat)
      requires pollConnections.Length == MAX_CONNECTIONS && found < MAX_CONNECTIONS
      requires numPollConnections < MAX_CONNECTIONS
      modifies pollConnections
      ensures Members() == Vacated(old(Members()), found, numPollConnections, useCompactArray)
    {
      if useCompactArray {
        pollConnections[found] := pollConnections[numPollConnections];
        pollConnections[numPollConnections] := null;
      } else {
        pollConnections[found] := null;
      }
    }

    /** get_next_connection: the source asserts that a scan is going on. */
    method GetNextConnection() returns (conn: PollConnection?)
      requires Ordered() && pollScanOngoing
      modifies this`numReadyConnections, this`pollScanOngoing
      ensures Ordered() && Members() == old(Members())
      ensures conn == null <==> old(Ready()) == []
      ensures conn == null ==> !pollScanOngoing && Ready() == []
      ensures conn != null ==> pollScanOngoing && old(Ready()) == Ready() + [conn] && conn in Members()
    {
      if numReadyConnections == 0 {
        pollScanOngoing := false;
        return null;
      }
      numReadyConnections := numReadyConnections - 1;
      conn := readyConnections[numReadyConnections];
      assert old(Ready()) == Ready() + [conn];
      assert forall i :: 0 <= i < numReadyConnections ==> Ready()[i] == old(Ready())[i];
    }

    // ----- epoll: the sparse table -----

    /** epoll_poll_set_add_connection; `kernelError` is 0 or the error of
        epoll_ctl. A refused registration is rolled back; `tried` is the entry
        that was made. An fd whose registration was lost, as when it is closed
        without being removed, can be added with success while its old entry is
        still there: then two entries are left, and the kernel names the new one. */
    method EpollAdd(fd: int, userObj: int, memory: bool, kernelError: nat)
        returns (code: int, ghost tried: PollConnection?)
      requires Valid() && !useCompactArray && KernelAgrees()
      modifies this`numPollConnections, this`numReadyConnections, this`kernel, pollConnections, readyConnections
      ensures Ordered() && (Valid() <==> code != 0 || !old(Has(fd)))
      ensures code == (if old(numPollConnections) == MAX_CONNECTIONS then POLL_SET_FULL
                       else if !memory then MEM_ALLOC_ERROR else kernelError)
      ensures code == 0 ==>
                && KernelAgrees() && FirstEmpty(old(Members())) < MAX_CONNECTIONS
                && kernel == old(kernel)[fd := FirstEmpty(old(Members()))]
                && pollConnections[kernel[fd]] != null && pollConnections[kernel[fd]].fd == fd
                && pollConnections[kernel[fd]].userObj == userObj
                && Members() == old(Members())[kernel[fd] := pollConnections[kernel[fd]]]
                && Ready() == old(Ready())
      ensures code != 0 && !(old(numPollConnections) < MAX_CONNECTIONS && memory) ==> State() == old(State())
      ensures code != 0 && old(numPollConnections) < MAX_CONNECTIONS && memory ==>
                && FirstEmpty(old(Members())) < MAX_CONNECTIONS
                && tried != null && tried.fd == fd && tried !in old(Members())
                && State() == AfterRefusal(old(State()), tried)
      ensures code != 0 && fd !in old(kernel) ==> State() == old(State())
    {
      ghost var was := State();
      tried := null;
      FullTableHasNoGap(Members());
      var index: nat;
      code, index := AddMember(fd, userObj, memory);
      if code != 0 {
        return;
      }
      tried := pollConnections[index];
      if kernelError != 0 {
        Refuse(fd, was, tried);
        return kernelError, tried;
      }
      FillKeepsAgreement(kernel, was.table, index, tried);
      hide Occupied, DistinctFds, IsPrefix, IsIndexed, NoNull, Agrees;
      kernel := kernel[fd := index];
    }

    /** An fd that is not registered is not in the table. */
    static lemma NotRegistered(kernel: map<int, nat>, t: Table, fd: int)
      requires Agrees(kernel, t) && fd !in kernel
      ensures FdIndex(t, fd) == |t|
    {
    }

    /** Take an entry for `fd` out again after the kernel refused it. */
    method Refuse(fd: int, ghost was: Whole, ghost tried: PollConnection)
      requires Ordered() && !useCompactArray && |was.table| == MAX_CONNECTIONS && FirstEmpty(was.table) < |was.table|
      requires State() == was.(table := was.table[FirstEmpty(was.table) := tried]) && tried.fd == fd
      requires tried !in was.table
      requires Agrees(was.kernel, was.table) && DistinctFds(was.table)
      requires was.scanning ==> forall i :: 0 <= i < |was.ready| ==> was.ready[i] in was.table
      modifies this`numPollConnections, this`numReadyConnections, pollConnections, readyConnections
      ensures Valid() && State() == AfterRefusal(was, tried)
      ensures fd !in was.kernel ==> State() == was
    {
      RefusalFacts(was, tried);
      hide Occupied, DistinctFds, IsPrefix, IsIndexed, NoNull, Agrees;
      var gone, at := RemoveMember(fd);
    }

    static lemma RefusalFacts(was: Whole, c: PollConnection)
      requires FirstEmpty(was.table) < |was.table| && c !in was.table
      requires Agrees(was.kernel, was.table) && DistinctFds(was.table)
      requires was.scanning ==> forall i :: 0 <= i < |was.ready| ==> was.ready[i] in was.table
      ensures var added := was.table[FirstEmpty(was.table) := c];
              && FdIndex(added, c.fd) < |added|
              && RolledBack(added, c.fd) == Vacated(added, FdIndex(added, c.fd), FdIndex(added, c.fd), false)
              && DistinctFds(RolledBack(added, c.fd))
      ensures c.fd !in was.kernel ==> AfterRefusal(was, c) == was
    {
      var j := FirstEmpty(was.table);
      var added := was.table[j := c];
      assert added[j] == c;
      if c.fd in was.kernel {
        DuplicateInTable(was, c);
      } else {
        NotRegistered(was.kernel, was.table, c.fd);
        assert FdIndex(added, c.fd) == j;
        assert RolledBack(added, c.fd) == was.table;
        if was.scanning {
          assert FdIndex(was.ready, c.fd) == |was.ready|;
        }
      }
    }

    /** epoll_poll_set_remove_connection. An error other than ENOENT aborts the
        program after the table was changed. */
    method EpollRemove(fd: int, reply: RemoveReply) returns (code: int, aborted: bool)
      requires Ordered() && !useCompactArray && KernelAgrees()
      modifies this`numPollConnections, this`numReadyConnections, this`kernel, pollConnections, readyConnections
      ensures Ordered() && (old(Valid()) ==> Valid())
      ensures code == if old(Has(fd)) then 0 else NOT_FOUND_IN_POLL_SET
      ensures aborted <==> old(Has(fd)) && reply == Refused
      ensures !aborted && old(Valid()) ==> KernelAgrees() && !Has(fd)
      ensures !aborted && code == 0 ==> kernel == old(kernel) - {fd}
      ensures code == 0 ==> Members() == old(Members())[FdIndex(old(Members()), fd) := null]
      ensures code != 0 ==> State() == old(State())
      ensures Ready() == if pollScanOngoing then WithoutFd(old(Ready()), fd) else old(Ready())
    {
      ghost var was := Members();
      var index: nat;
      code, index := RemoveMember(fd);
      hide Occupied, DistinctFds, IsPrefix, IsIndexed, NoNull;
      if code != 0 {
        return code, false;
      }
      if reply == Refused {
        return 0, true;
      }
      if DistinctFds(was) {
        VacatedKeepsAgreement(kernel, was, index, numPollConnections);
      }
      kernel := kernel - {fd};
      return 0, false;
    }

    /** epoll_check_poll_set. The kernel reports registered fds, each at most
        once; `reply` carries the index it was given for each of `fds`. */
    method EpollCheck(reply: WaitReply<nat>, ghost fds: seq<int>) returns (code: int)
      requires Ordered() && !useCompactArray && KernelAgrees()
      requires reply.Reported? ==>
                 && |reply.events| == |fds| <= MAX_CONNECTIONS
                 && (forall i :: 0 <= i < |fds| ==> fds[i] in kernel && reply.events[i] == kernel[fds[i]])
                 && (forall i, j :: 0 <= i < j < |fds| ==> fds[i] != fds[j])
      modifies this`numReadyConnections, this`pollScanOngoing, readyConnections
      ensures Ordered() && KernelAgrees() && Members() == old(Members())
      ensures reply.WaitFailed? ==> code == reply.code && !pollScanOngoing
      ensures !reply.WaitFailed? ==> code == 0 && pollScanOngoing
      ensures reply.Interrupted? ==> Ready() == []
      ensures reply.Reported? ==>
                && |Ready()| == |fds|
                && forall i :: 0 <= i < |fds| ==> Ready()[i] != null && Ready()[i].fd == fds[i]
    {
      hide Occupied;
      if reply.WaitFailed? {
        pollScanOngoing := false;
        return reply.code;
      }
      var events := if reply.Reported? then reply.events else [];
      assert forall i :: 0 <= i < |events| ==> fds[i] in kernel && events[i] == kernel[fds[i]];
      forall i | 0 <= i < |events| ensures events[i] < MAX_CONNECTIONS {
        AgreesAt(kernel, Members(), fds[i]);
      }
      FillReady(events);
      pollScanOngoing := true;
      forall i | 0 <= i < |events| ensures Ready()[i] in Members() && Ready()[i] != null && Ready()[i].fd == fds[i] {
        AgreesAt(kernel, Members(), fds[i]);
        assert Ready()[i] == Members()[kernel[fds[i]]];
      }
      return 0;
    }

    method FillReady(events: seq<nat>)
      requires Shape() && |events| <= MAX_CONNECTIONS
      requires forall i :: 0 <= i < |events| ==> events[i] < MAX_CONNECTIONS
      modifies this`numReadyConnections, readyConnections
      ensures Shape() && |Ready()| == |events|
      ensures forall i :: 0 <= i < |events| ==> Ready()[i] == Members()[events[i]]
    {
      for i := 0 to |events|
        invariant forall j :: 0 <= j < i ==> readyConnections[j] == pollConnections[events[j]]
      {
        readyConnections[i] := pollConnections[events[i]];
      }
      numReadyConnections := |events|;
    }

    // ----- poll: the compact table -----

    /** poll_poll_set_add_connection. */
    method PollAdd(fd: int, userObj: int, memory: bool) returns (code: int)
      requires Ordered() && useCompactArray && PollFdsAgree()
      modifies this`numPollConnections, pollConnections, pollFds
      ensures Ordered() && PollFdsAgree()
      ensures Valid() <==> old(Valid()) && (code != 0 || !old(Has(fd)))
      ensures code == (if old(numPollConnections) == MAX_CONNECTIONS then POLL_SET_FULL
                       else if !memory then MEM_ALLOC_ERROR else 0)
      ensures code != 0 ==> Members() == old(Members())
      ensures code == 0 ==>
                && pollConnections[old(numPollConnections)] != null
                && pollConnections[old(numPollConnections)].fd == fd
                && pollConnections[old(numPollConnections)].userObj == userObj
                && Members() == old(Members())[old(numPollConnections) := pollConnections[old(numPollConnections)]]
    {
      var index: nat;
      ghost var was := Members();
      code, index := AddMember(fd, userObj, memory);
      if code != 0 {
        return;
      }
      hide Occupied, DistinctFds;
      pollFds[index] := fd;
      assert forall i :: 0 <= i < MAX_CONNECTIONS && i != index ==> pollConnections[i] == was[i];
    }

    /** poll_poll_set_remove_connection: the pollfd entry moves with the
        connection that closes the gap. */
    method PollRemove(fd: int) returns (code: int)
      requires Ordered() && useCompactArray && PollFdsAgree()
      modifies this`numPollConnections, this`numReadyConnections, pollConnections, readyConnections, pollFds
      ensures Ordered() && PollFdsAgree() && (old(Valid()) ==> Valid() && !Has(fd))
      ensures code == if old(Has(fd)) then 0 else NOT_FOUND_IN_POLL_SET
      ensures code == 0 ==>
                && numPollConnections == old(numPollConnections) - 1 < MAX_CONNECTIONS
                && Members() == Vacated(old(Members()), FdIndex(old(Members()), fd), numPollConnections, true)
      ensures code != 0 ==> Members() == old(Members())
      ensures Ready() == if pollScanOngoing then WithoutFd(old(Ready()), fd) else old(Ready())
    {
      var index: nat;
      ghost var was := Members();
      code, index := RemoveMember(fd);
      hide Occupied, DistinctFds, NoNull;
      if code != 0 {
        return;
      }
      pollFds[index] := pollFds[numPollConnections];
      pollFds[numPollConnections] := 0;
      assert forall i :: 0 <= i < MAX_CONNECTIONS ==>
          pollConnections[i] == Vacated(was, index, numPollConnections, true)[i];
    }

    /** poll_check_poll_set. `revents` marks the entries of the pollfd array
        that are readable; the source asserts that no other event occurs. */
    method PollCheck(reply: WaitReply<bool>) returns (code: int)
      requires Valid() && useCompactArray && PollFdsAgree()
      requires reply.Reported? ==> |reply.events| == numPollConnections
      modifies this`numReadyConnections, this`pollScanOngoing, readyConnections
      ensures Valid() && PollFdsAgree()
      ensures !reply.Reported? ==> !pollScanOngoing && code == if reply.WaitFailed? then reply.code else -1
      ensures reply.Reported? ==>
                && code == 0 && pollScanOngoing
                && Ready() == Selected(Members(), reply.events)
                && forall i :: 0 <= i < numPollConnections ==>
                     && pollConnections[i] != null && pollConnections[i].fd == pollFds[i]
                     && (reply.events[i] <==> pollConnections[i] in Ready())
    {
      numReadyConnections := 0;
      pollScanOngoing := true;
      if !reply.Reported? {
        pollScanOngoing := false;
        return if reply.WaitFailed? then reply.code else -1;
      }
      SelectedIsDistinct(Members(), reply.events);
      forall i | 0 <= i < numPollConnections
        ensures reply.events[i] <==> Members()[i] in Selected(Members(), reply.events)
      {
        SelectedIff(Members(), reply.events, i);
      }
      hide Occupied, Selected, DistinctFds, NoNull;
      CollectReady(reply.events);
      assert forall i :: 0 <= i < numReadyConnections ==>
          readyConnections[i] == Ready()[i] && Ready()[i] in Members()[..|reply.events|];
      return 0;
    }

    /** The ready list holds what the marks seen so far select. */
    ghost predicate Collected(done: seq<bool>)
      reads this, pollConnections, readyConnections
    {
      && Shape() && |done| <= MAX_CONNECTIONS && numReadyConnections <= |done|
      && Ready() == Selected(Members(), done)
    }

    method CollectReady(revents: seq<bool>)
      requires Shape() && |revents| <= MAX_CONNECTIONS && numReadyConnections == 0
      modifies this`numReadyConnections, readyConnections
      ensures Shape() && Ready() == Selected(Members(), revents)
    {
      ghost var done: seq<bool> := [];
      assert Collected(done);
      for i: nat := 0 to |revents|
        invariant done == revents[..i] && Collected(done)
      {
        hide *;
        CollectOne(i, revents[i], done);
        done := done + [revents[i]];
      }
      assert done == revents;
    }

    method CollectOne(i: nat, marked: bool, ghost done: seq<bool>)
      requires i == |done| < MAX_CONNECTIONS && Collected(done)
      modifies this`numReadyConnections, readyConnections
      ensures Collected(done + [marked])
    {
      assert (done + [marked])[..i] == done;
      if marked {
        readyConnections[numReadyConnections] := pollConnections[i];
        numReadyConnections := numReadyConnections + 1;
      }
    }
  }
}
