/** One scan of a poll set, from the check that fills the ready list to the
    NULL that ends it, under any mix of reports, removals and additions. */
module PollScan {
  import opened PollSets

  /** The fds of the ready list, of the members, of those reported so far, and
      of those removed before their turn. */
  datatype Scan = Scan(ready: seq<int>, members: set<int>, returned: seq<int>, skipped: multiset<int>)

  datatype Action = GetNext | Remove(fd: int) | Add(fd: int, memory: bool)

  function IndexOf(list: seq<int>, fd: int): (i: nat)
    ensures i <= |list|
    ensures i < |list| ==> list[i] == fd
    ensures i == |list| ==> fd !in list
  {
    if list == [] || list[0] == fd then 0 else 1 + IndexOf(list[1..], fd)
  }

  function Without(list: seq<int>, fd: int): seq<int> {
    var i := IndexOf(list, fd);
    if i < |list| then DropAt(list, i) else list
  }

  predicate Enabled(s: Scan, a: Action) {
    match a
    case GetNext => s.ready != []
    case Remove(fd) => true
    case Add(fd, _) => fd !in s.members
  }

  function Next(s: Scan, a: Action): Scan {
    match a
    case GetNext =>
      if s.ready == [] then s
      else
        var n := |s.ready| - 1;
        s.(ready := s.ready[..n], returned := s.returned + [s.ready[n]])
    case Remove(fd) =>
      s.(ready := Without(s.ready, fd), members := s.members - {fd},
         skipped := if fd in s.ready then s.skipped + multiset{fd} else s.skipped)
    case Add(fd, memory) =>
      if memory && |s.members| < MAX_CONNECTIONS then s.(members := s.members + {fd}) else s
  }

  /** The poll set's own ready list, read as fds. */
  ghost function Fds(t: Table): (r: seq<int>)
    requires NoNull(t)
    ensures |r| == |t| && forall i :: 0 <= i < |t| ==> r[i] == t[i].fd
  {
    seq(|t|, i requires 0 <= i < |t| => t[i].fd)
  }

  /** remove_poll_set_member acts on the ready list as `Remove` does. */
  lemma RemovalMatches(t: Table, fd: int)
    requires NoNull(t)
    ensures NoNull(WithoutFd(t, fd)) && Fds(WithoutFd(t, fd)) == Without(Fds(t), fd)
  {
    SameIndex(t, fd);
  }

  lemma {:induction false} SameIndex(t: Table, fd: int)
    requires NoNull(t)
    ensures FdIndex(t, fd) == IndexOf(Fds(t), fd)
  {
    if t != [] {
      SameIndex(t[1..], fd);
      assert Fds(t)[1..] == Fds(t[1..]);
    }
  }

  /** All fds that were ready at the check, each in exactly one of: still
      waiting, reported, removed before its turn; and those waiting are live. */
  ghost predicate Accounted(s: Scan, start: multiset<int>) {
    && multiset(s.ready) + multiset(s.returned) + s.skipped == start
    && (forall fd :: fd in start ==> start[fd] == 1)
    && (forall fd :: fd in s.ready ==> fd in s.members)
  }

  lemma DropIsRemoval(list: seq<int>, i: nat)
    requires i < |list|
    ensures multiset(list) == multiset(DropAt(list, i)) + multiset{list[i]}
  {
    var n := |list| - 1;
    assert list == list[..n] + [list[n]];
    if i < n {
      assert list[..n] == list[..i] + [list[i]] + list[i + 1..n];
      assert DropAt(list, i) == list[..i] + [list[n]] + list[i + 1..n];
    } else {
      assert DropAt(list, i) == list[..n];
    }
  }

  lemma StepKeepsAccount(s: Scan, a: Action, start: multiset<int>)
    requires Accounted(s, start) && Enabled(s, a)
    ensures Accounted(Next(s, a), start)
  {
    match a {
      case GetNext =>
        var n := |s.ready| - 1;
        assert s.ready == s.ready[..n] + [s.ready[n]];
        assert forall fd :: fd in s.ready[..n] ==> fd in s.ready;
      case Remove(fd) => RemoveKeepsAccount(s, fd, start);
      case Add(_, _) =>
    }
  }

  lemma RemoveKeepsAccount(s: Scan, fd: int, start: multiset<int>)
    requires Accounted(s, start)
    ensures Accounted(Next(s, Remove(fd)), start)
  {
    var s' := Next(s, Remove(fd));
    if fd in s.ready {
      DropIsRemoval(s.ready, IndexOf(s.ready, fd));
      assert multiset(s'.ready) + multiset{fd} == multiset(s.ready);
      assert multiset(s'.ready) + multiset(s.returned) + (s.skipped + multiset{fd}) == start;
      assert start[fd] == 1 && multiset(s.ready)[fd] == 1;
      forall x | x in s'.ready ensures x in s'.members {
        assert x in multiset(s'.ready) && multiset(s'.ready)[fd] == 0;
        assert x in multiset(s.ready);
      }
    } else {
      assert IndexOf(s.ready, fd) == |s.ready|;
    }
  }

  ghost function Run(s: Scan, actions: seq<Action>): Scan {
    if actions == [] then s else Next(Run(s, actions[..|actions| - 1]), actions[|actions| - 1])
  }

  ghost predicate RunEnabled(s: Scan, actions: seq<Action>) {
    actions == [] ||
    var before := actions[..|actions| - 1];
    RunEnabled(s, before) && Enabled(Run(s, before), actions[|actions| - 1])
  }

  lemma {:induction false} RunsKeepAccount(s: Scan, actions: seq<Action>, start: multiset<int>)
    requires Accounted(s, start) && RunEnabled(s, actions)
    ensures Accounted(Run(s, actions), start)
  {
    if actions != [] {
      var before := actions[..|actions| - 1];
      RunsKeepAccount(s, before, start);
      StepKeepsAccount(Run(s, before), actions[|actions| - 1], start);
    }
  }

  /** The whole scan: every entry still waiting is a live member, no fd is
      reported twice, and when the list is used up the reported fds are exactly
      those ready at the check minus those removed before their turn. */
  lemma ScanReportsReady(ready: seq<int>, members: set<int>, actions: seq<Action>)
    requires forall fd :: fd in ready ==> fd in members && multiset(ready)[fd] == 1
    requires RunEnabled(Scan(ready, members, [], multiset{}), actions)
    ensures var end := Run(Scan(ready, members, [], multiset{}), actions);
            && (forall fd :: fd in end.ready ==> fd in end.members)
            && (forall fd :: fd in end.returned ==>
                multiset(end.returned)[fd] == 1 && fd !in end.skipped && fd !in end.ready)
            && (end.ready == [] ==> forall fd :: fd in end.returned <==> fd in ready && fd !in end.skipped)
  {
    var s := Scan(ready, members, [], multiset{});
    var start := multiset(ready);
    assert multiset(s.ready) + multiset(s.returned) + s.skipped == start;
    RunsKeepAccount(s, actions, start);
    hide Run, RunEnabled;
    var end := Run(s, actions);
    forall fd ensures multiset(end.ready)[fd] + multiset(end.returned)[fd] + end.skipped[fd] == start[fd] {
      assert (multiset(end.ready) + multiset(end.returned) + end.skipped)[fd] == start[fd];
    }
    assert forall fd :: fd in end.returned <==> multiset(end.returned)[fd] > 0;
    assert forall fd :: fd in end.ready <==> multiset(end.ready)[fd] > 0;
    assert forall fd :: fd in ready <==> start[fd] > 0;
  }

  // ----- the poll set carries out a scan -----

  ghost function FdSet(t: Table): set<int> {
    set i | 0 <= i < |t| && t[i] != null :: t[i].fd
  }

  lemma FdSetHas(t: Table, fd: int)
    ensures fd in FdSet(t) <==> FdIndex(t, fd) < |t|
  {
  }

  lemma FdSetFill(t: Table, i: nat, c: PollConnection)
    requires i < |t| && t[i] == null
    ensures FdSet(t[i := c]) == FdSet(t) + {c.fd}
  {
    var r := t[i := c];
    assert r[i].fd in FdSet(r);
    forall x | x in FdSet(t) ensures x in FdSet(r) {
      var k :| 0 <= k < |t| && t[k] != null && t[k].fd == x;
      assert r[k] == t[k];
    }
  }

  lemma FdSetVacated(t: Table, i: nat, last: nat, compact: bool)
    requires i < |t| && last < |t| && t[i] != null && t[last] != null && DistinctFds(t)
    ensures FdSet(Vacated(t, i, last, compact)) == FdSet(t) - {t[i].fd}
  {
    var r := Vacated(t, i, last, compact);
    VacatedFacts(t, i, last, compact);
    FdSetHas(r, t[i].fd);
    forall x | x in FdSet(t) && x != t[i].fd ensures x in FdSet(r) {
      var k :| 0 <= k < |t| && t[k] != null && t[k].fd == x;
      assert t[k] in r;
    }
    forall x | x in FdSet(r) ensures x in FdSet(t) {
      var k :| 0 <= k < |r| && r[k] != null && r[k].fd == x;
      assert r[k] == t[if compact && k == i then last else k];
    }
  }

  lemma {:induction false} FdSetSize(t: Table)
    requires DistinctFds(t)
    ensures |FdSet(t)| == Occupied(t)
  {
    if t == [] {
      assert FdSet(t) == {};
    } else {
      var n := |t| - 1;
      assert forall i :: 0 <= i < n ==> t[i] == t[..n][i];
      FdSetSize(t[..n]);
      if t[n] == null {
        assert FdSet(t) == FdSet(t[..n]);
      } else {
        assert t[n].fd !in FdSet(t[..n]);
        assert FdSet(t) == FdSet(t[..n]) + {t[n].fd};
      }
    }
  }

  /** The poll set is where a scan is. */
  ghost predicate AtScan(poll: PollSet, s: Scan)
    reads poll, poll.pollConnections, poll.readyConnections
  {
    && poll.Valid() && poll.pollScanOngoing && NoNull(poll.Ready())
    && Fds(poll.Ready()) == s.ready && FdSet(poll.Members()) == s.members
  }

  lemma ScanReady(t: Table, list: Table, c: PollConnection)
    requires NoNull(t) && t == list + [c]
    ensures NoNull(list) && Fds(t) == Fds(list) + [c.fd]
  {
    assert forall i :: 0 <= i < |list| ==> t[i] == list[i];
    assert t[|list|] == c;
  }

  /** get_next_connection in a scan that is not used up. */
  method ReportOne(poll: PollSet, ghost s: Scan) returns (fd: int)
    requires AtScan(poll, s) && s.ready != []
    modifies poll, poll.pollConnections, poll.readyConnections
    ensures AtScan(poll, Next(s, GetNext)) && fd == s.ready[|s.ready| - 1]
  {
    ghost var was := poll.Ready();
    hide DistinctFds, Occupied, IsPrefix, IsIndexed, FdSet;
    var conn := poll.GetNextConnection();
    ScanReady(was, poll.Ready(), conn);
    fd := conn.fd;
  }

  lemma RemovalFacts(t: Table, i: nat, last: nat, compact: bool, fd: int)
    requires DistinctFds(t) && i == FdIndex(t, fd) < |t| && last < |t| && t[last] != null
    ensures FdSet(Vacated(t, i, last, compact)) == FdSet(t) - {fd}
  {
    FdSetVacated(t, i, last, compact);
  }

  /** remove_poll_set_member during a scan. */
  method RemoveOne(poll: PollSet, fd: int, ghost s: Scan)
    requires AtScan(poll, s)
    modifies poll, poll.pollConnections, poll.readyConnections
    ensures AtScan(poll, Next(s, Remove(fd)))
  {
    ghost var was, ready := poll.Members(), poll.Ready();
    RemovalMatches(ready, fd);
    FdSetHas(was, fd);
    hide DistinctFds, Occupied, FdSet, FdIndex, WithoutFd, IsIndexed;
    var code, index := poll.RemoveMember(fd);
    if code == 0 {
      assert poll.useCompactArray ==> was[poll.numPollConnections] != null;
      RemovalFacts(was, index, if poll.useCompactArray then poll.numPollConnections
          else index, poll.useCompactArray, fd);
    }
  }

  /** add_poll_set_member of a new fd during a scan. */
  method AddOne(poll: PollSet, fd: int, userObj: int, memory: bool, ghost s: Scan) returns (code: int)
    requires AtScan(poll, s) && fd !in s.members
    modifies poll, poll.pollConnections, poll.readyConnections
    ensures AtScan(poll, Next(s, Add(fd, memory)))
    ensures code == 0 <==> memory && |s.members| < MAX_CONNECTIONS
  {
    ghost var was := poll.Members();
    FdSetHas(was, fd);
    FdSetSize(was);
    hide DistinctFds, Occupied, FdSet, FdIndex, IsIndexed, IsPrefix;
    var index;
    code, index := poll.AddMember(fd, userObj, memory);
    if code == 0 {
      FdSetFill(was, index, poll.pollConnections[index]);
    }
  }

  /** Any mix of calls within a scan: the fds reported are those of the run. */
  method ScanAll(poll: PollSet, actions: seq<Action>, ghost s: Scan) returns (returned: seq<int>)
    requires AtScan(poll, s) && s.returned == [] && RunEnabled(s, actions)
    modifies poll, poll.pollConnections, poll.readyConnections
    ensures AtScan(poll, Run(s, actions)) && returned == Run(s, actions).returned
  {
    returned := [];
    assert actions[..0] == [];
    for i := 0 to |actions|
      invariant AtScan(poll, Run(s, actions[..i])) && returned == Run(s, actions[..i]).returned
    {
      RunNext(s, actions, i);
      hide *;
      match actions[i] {
        case GetNext =>
          var fd := ReportOne(poll, Run(s, actions[..i]));
          returned := returned + [fd];
        case Remove(fd) => RemoveOne(poll, fd, Run(s, actions[..i]));
        case Add(fd, memory) => var code := AddOne(poll, fd, 0, memory, Run(s, actions[..i]));
      }
    }
    assert actions[..|actions|] == actions;
  }

  lemma {:induction false} EnabledBefore(s: Scan, actions: seq<Action>, n: nat)
    requires RunEnabled(s, actions) && n <= |actions|
    ensures RunEnabled(s, actions[..n])
    decreases |actions|
  {
    if n == |actions| {
      assert actions[..n] == actions;
    } else {
      var before := actions[..|actions| - 1];
      EnabledBefore(s, before, n);
      assert before[..n] == actions[..n];
    }
  }

  lemma RunNext(s: Scan, actions: seq<Action>, i: nat)
    requires RunEnabled(s, actions) && i < |actions|
    ensures var now, a := Run(s, actions[..i]), actions[i];
            && Enabled(now, a) && Run(s, actions[..i + 1]) == Next(now, a)
            && (a.GetNext? ==> now.ready != [] && Next(now, a).returned == now.returned + [now.ready[|now.ready| - 1]])
            && (!a.GetNext? ==> Next(now, a).returned == now.returned)
            && (a.Add? ==> a.fd !in now.members)
  {
    EnabledBefore(s, actions, i + 1);
    assert actions[..i + 1][..i] == actions[..i];
  }
}
