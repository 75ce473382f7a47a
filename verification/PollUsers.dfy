/** Whose connection is reported: over any mix of additions, removals, checks
    and reports, the user object of the last addition of the fd. */
module PollUsers {
  import opened PollSets
  import opened PollScan

  /** The user object of each member, the fds still to be reported while a scan
      goes on, and what was reported. */
  datatype Users = Users(members: map<int, int>, ready: seq<int>, scanning: bool, reported: seq<(int, int)>)

  const NOBODY: Users := Users(map[], [], false, [])

  /** An addition succeeds or changes nothing; a check finds some members ready,
      or fails. */
  datatype Call = Added(fd: int,
      userObj: int) | AddFailed | Removed(fd: int) | Checked(ready: seq<int>) | CheckFailed | Report

  ghost predicate OnceEach(list: seq<int>) {
    forall i, j :: 0 <= i < j < |list| ==> list[i] != list[j]
  }

  ghost predicate Allowed(s: Users, c: Call) {
    match c
    case Added(fd, _) => fd !in s.members
    case Checked(ready) => OnceEach(ready) && forall fd :: fd in ready ==> fd in s.members
    case Report => s.scanning
    case _ => true
  }

  function After(s: Users, c: Call): Users {
    match c
    case Added(fd, userObj) => s.(members := s.members[fd := userObj])
    case AddFailed => s
    case Removed(fd) =>
      s.(members := s.members - {fd}, ready := if s.scanning then Without(s.ready, fd) else s.ready)
    case Checked(ready) => s.(ready := ready, scanning := true)
    case CheckFailed => s.(scanning := false)
    case Report =>
      if s.ready == [] then s.(scanning := false)
      else
        var n := |s.ready| - 1;
        var fd := s.ready[n];
        if fd in s.members then s.(ready := s.ready[..n], reported := s.reported + [(fd, s.members[fd])]) else s
  }

  function AfterAll(calls: seq<Call>): Users {
    if calls == [] then NOBODY else After(AfterAll(calls[..|calls| - 1]), calls[|calls| - 1])
  }

  ghost predicate AllAllowed(calls: seq<Call>) {
    forall n :: 0 <= n < |calls| ==> Allowed(AfterAll(calls[..n]), calls[n])
  }

  lemma AfterNext(calls: seq<Call>, n: nat)
    requires n < |calls|
    ensures AfterAll(calls[..n + 1]) == After(AfterAll(calls[..n]), calls[n])
  {
    assert calls[..n + 1][..n] == calls[..n];
  }

  /** Call `j` is the last of the first `n` that adds or removes the fd, and it
      adds it with this user object. */
  predicate IsLastAdd(calls: seq<Call>, n: nat, j: nat, fd: int, userObj: int)
    requires n <= |calls|
  {
    && j < n && calls[j] == Added(fd, userObj)
    && forall k :: j < k < n && (calls[k].Added? || calls[k].Removed?) ==> calls[k].fd != fd
  }

  lemma {:induction false} MembersWereAdded(calls: seq<Call>, n: nat, fd: int)
    requires n <= |calls| && fd in AfterAll(calls[..n]).members
    ensures exists j :: IsLastAdd(calls, n, j, fd, AfterAll(calls[..n]).members[fd])
  {
    if n > 0 {
      AfterNext(calls, n - 1);
      var before, c := AfterAll(calls[..n - 1]), calls[n - 1];
      var userObj := AfterAll(calls[..n]).members[fd];
      if c.Added? && c.fd == fd {
        assert IsLastAdd(calls, n, n - 1, fd, userObj);
      } else {
        MembersWereAdded(calls, n - 1, fd);
        var j: nat :| IsLastAdd(calls, n - 1, j, fd, userObj);
        assert IsLastAdd(calls, n, j, fd, userObj);
      }
    }
  }

  /** In a scan only members wait to be reported, each once. */
  ghost predicate WaitingAreMembers(s: Users) {
    s.scanning ==> OnceEach(s.ready) && forall fd :: fd in s.ready ==> fd in s.members
  }

  lemma WithoutFacts(list: seq<int>, fd: int)
    requires OnceEach(list)
    ensures OnceEach(Without(list, fd))
    ensures forall x :: x in Without(list, fd) ==> x in list && x != fd
  {
    var i, r := IndexOf(list, fd), Without(list, fd);
    if i < |list| {
      assert forall j :: 0 <= j < |r| ==> r[j] == list[if j == i then |list| - 1 else j];
    }
  }

  lemma {:induction false} RunsKeepWaiting(calls: seq<Call>, n: nat)
    requires AllAllowed(calls) && n <= |calls|
    ensures WaitingAreMembers(AfterAll(calls[..n]))
  {
    if n > 0 {
      RunsKeepWaiting(calls, n - 1);
      AfterNext(calls, n - 1);
      var s := AfterAll(calls[..n - 1]);
      if calls[n - 1].Removed? && s.scanning {
        WithoutFacts(s.ready, calls[n - 1].fd);
      }
    }
  }

  predicate EndsIn(list: seq<int>, fd: int) {
    list != [] && list[|list| - 1] == fd
  }

  /** Call `n` reports the fd, and the user object is that of its last addition. */
  ghost predicate IsReport(calls: seq<Call>, n: nat, report: (int, int)) {
    && n < |calls| && calls[n] == Report && EndsIn(AfterAll(calls[..n]).ready, report.0)
    && exists j :: IsLastAdd(calls, n, j, report.0, report.1)
  }

  lemma NextReport(calls: seq<Call>, n: nat)
    requires AllAllowed(calls) && n < |calls|
    ensures var before, after := AfterAll(calls[..n]).reported, AfterAll(calls[..n + 1]).reported;
            after == before ||
            (after != [] && after[..|after| - 1] == before && IsReport(calls, n, after[|after| - 1]))
    ensures calls[n] == Report && AfterAll(calls[..n]).ready != [] ==>
              |AfterAll(calls[..n + 1]).reported| == |AfterAll(calls[..n]).reported| + 1
  {
    AfterNext(calls, n);
    var s := AfterAll(calls[..n]);
    if calls[n] == Report && s.ready != [] {
      RunsKeepWaiting(calls, n);
      var fd := s.ready[|s.ready| - 1];
      assert fd in s.ready;
      MembersWereAdded(calls, n, fd);
      assert IsReport(calls, n, (fd, s.members[fd]));
    }
  }

  ghost predicate WasReported(calls: seq<Call>, n: nat, report: (int, int)) {
    exists m: nat :: m < n && IsReport(calls, m, report)
  }

  lemma StillReported(calls: seq<Call>, n: nat, report: (int, int))
    ensures WasReported(calls, n, report) ==> WasReported(calls, n + 1, report)
    ensures IsReport(calls, n, report) ==> WasReported(calls, n + 1, report)
  {
    hide IsReport;
  }

  lemma NoneAtStart(calls: seq<Call>)
    ensures AfterAll(calls[..0]).reported == []
  {
    assert calls[..0] == [];
  }

  /** Every connection reported in a run carries the user object of the last
      successful addition of its fd before the report. */
  lemma {:induction false} ReportedIsLastAdded(calls: seq<Call>, n: nat)
    requires AllAllowed(calls) && n <= |calls|
    ensures forall report :: report in AfterAll(calls[..n]).reported ==> WasReported(calls, n, report)
  {
    hide *;
    NoneAtStart(calls);
    if n > 0 {
      var m := n - 1;
      ReportedIsLastAdded(calls, m);
      NextReport(calls, m);
      var before, after := AfterAll(calls[..m]).reported, AfterAll(calls[..m + 1]).reported;
      forall report | report in after ensures WasReported(calls, n, report) {
        StillReported(calls, m, report);
        if report !in before {
          assert after == before + [after[|after| - 1]];
        }
      }
    }
  }

  // ----- the poll set carries out the calls -----

  /** The table holds the members with their user objects. */
  ghost predicate Carries(t: Table, users: map<int, int>) {
    && FdSet(t) == users.Keys
    && forall i :: 0 <= i < |t| && t[i] != null ==> t[i].fd in users && users[t[i].fd] == t[i].userObj
  }

  /** A new entry is all the fd stands for exactly when no other object is
      entered for that fd. */
  lemma CarriesFill(t: Table, users: map<int, int>, i: nat, c: PollConnection)
    requires Carries(t, users) && i < |t| && t[i] == null
    ensures Carries(t[i := c], users[c.fd := c.userObj]) <==> c.fd !in users || users[c.fd] == c.userObj
  {
    var r := t[i := c];
    FdSetFill(t, i, c);
    assert r[i] == c;
    if c.fd in users {
      var k :| 0 <= k < |t| && t[k] != null && t[k].fd == c.fd;
      assert r[k] == t[k] && users[c.fd] == t[k].userObj;
    }
  }

  lemma CarriesVacated(t: Table, users: map<int, int>, i: nat, last: nat, compact: bool)
    requires Carries(t, users) && DistinctFds(t)
    requires i < |t| && last < |t| && t[i] != null && t[last] != null
    ensures Carries(Vacated(t, i, last, compact), users - {t[i].fd})
  {
    var r := Vacated(t, i, last, compact);
    FdSetVacated(t, i, last, compact);
    forall k | 0 <= k < |r| && r[k] != null
      ensures r[k].fd in users && users[r[k].fd] == r[k].userObj && r[k].fd != t[i].fd
    {
      var from := if compact && k == i then last else k;
      assert r[k] == t[from] && from != i;
    }
  }

  lemma CarriesNot(t: Table, users: map<int, int>, fd: int)
    requires Carries(t, users) && FdIndex(t, fd) == |t|
    ensures users - {fd} == users && fd !in users
  {
    FdSetHas(t, fd);
  }

  /** What the kernel or the pollfd array knows agrees with the table. */
  ghost predicate Linked(poll: PollSet)
    requires poll.Shape()
    reads poll, poll.pollConnections, poll.pollFds
  {
    if poll.useCompactArray then poll.PollFdsAgree() else poll.KernelAgrees()
  }

  /** The poll set is where the run is. */
  ghost predicate AtUsers(poll: PollSet, s: Users)
    reads poll, poll.pollConnections, poll.readyConnections, poll.pollFds
  {
    && poll.Valid() && Linked(poll) && Carries(poll.Members(), s.members)
    && poll.pollScanOngoing == s.scanning
    && (s.scanning ==> NoNull(poll.Ready()) && Fds(poll.Ready()) == s.ready)
  }

  lemma AddedIsCarried(t: Table, users: map<int, int>, i: nat, fd: int, userObj: int, c: PollConnection)
    requires Carries(t, users) && i < |t| && t[i] == null && fd !in users
    requires c.fd == fd && c.userObj == userObj
    ensures Carries(t[i := c], users[fd := userObj])
  {
    CarriesFill(t, users, i, c);
  }

  lemma NewToBoth(poll: PollSet, s: Users, fd: int)
    requires AtUsers(poll, s) && fd !in s.members
    ensures !poll.Has(fd) && |s.members| == poll.numPollConnections
    ensures !poll.useCompactArray ==> fd !in poll.kernel
  {
    FdSetHas(poll.Members(), fd);
    FdSetSize(poll.Members());
    assert |s.members| == |s.members.Keys|;
  }

  /** ic_poll_set_add_connection of a new fd, in both forms. */
  method AddUser(poll: PollSet, fd: int, userObj: int, memory: bool, kernelError: nat, ghost s: Users)
      returns (code: int)
    requires AtUsers(poll, s) && fd !in s.members
    modifies poll, poll.pollConnections, poll.readyConnections, poll.pollFds
    ensures AtUsers(poll, After(s, if code == 0 then Added(fd, userObj) else AddFailed))
    ensures code == (if |s.members| == MAX_CONNECTIONS then POLL_SET_FULL
                     else if !memory then MEM_ALLOC_ERROR else if poll.useCompactArray then 0 else kernelError)
  {
    NewToBoth(poll, s, fd);
    ghost var was := poll.Members();
    if poll.useCompactArray {
      hide Occupied, FdIndex, Carries, DistinctFds;
      code := poll.PollAdd(fd, userObj, memory);
      if code == 0 {
        ghost var i: nat := old(poll.numPollConnections);
        AddedIsCarried(was, s.members, i, fd, userObj, poll.pollConnections[i]);
      }
    } else {
      hide Occupied, FdIndex, Carries, DistinctFds;
      ghost var tried;
      code, tried := poll.EpollAdd(fd, userObj, memory, kernelError);
      if code == 0 {
        ghost var i := poll.kernel[fd];
        AddedIsCarried(was, s.members, i, fd, userObj, poll.pollConnections[i]);
      }
    }
  }

  lemma RemovedIsCarried(t: Table, users: map<int, int>, fd: int, last: nat, compact: bool, after: Table)
    requires Carries(t, users) && DistinctFds(t)
    requires FdIndex(t, fd) < |t| ==>
               last < |t| && t[last] != null && after == Vacated(t, FdIndex(t, fd), last, compact)
    requires FdIndex(t, fd) == |t| ==> after == t
    ensures Carries(after, users - {fd})
    ensures FdIndex(t, fd) < |t| <==> fd in users
  {
    FdSetHas(t, fd);
    if FdIndex(t, fd) < |t| {
      CarriesVacated(t, users, FdIndex(t, fd), last, compact);
    } else {
      CarriesNot(t, users, fd);
    }
  }

  /** ic_poll_set_remove_connection, in both forms. */
  method RemoveUser(poll: PollSet, fd: int, reply: RemoveReply, ghost s: Users) returns (code: int, aborted: bool)
    requires AtUsers(poll, s)
    modifies poll, poll.pollConnections, poll.readyConnections, poll.pollFds
    ensures aborted <==> !poll.useCompactArray && fd in s.members && reply == Refused
    ensures !aborted ==> AtUsers(poll, After(s, Call.Removed(fd)))
    ensures code == if fd in s.members then 0 else NOT_FOUND_IN_POLL_SET
  {
    ghost var was, ready, compact := poll.Members(), poll.Ready(), poll.useCompactArray;
    ghost var at := FdIndex(was, fd);
    if s.scanning {
      RemovalMatches(ready, fd);
    }
    aborted := false;
    hide Occupied, FdIndex, Carries, DistinctFds, WithoutFd, Without;
    if poll.useCompactArray {
      code := poll.PollRemove(fd);
    } else {
      code, aborted := poll.EpollRemove(fd, reply);
    }
    RemovedIsCarried(was, s.members, fd, if compact then poll.numPollConnections else at, compact, poll.Members());
  }

  lemma ReadyIs(t: Table, fds: seq<int>)
    requires NoNull(t) && |t| == |fds| && forall i :: 0 <= i < |fds| ==> t[i] != null && t[i].fd == fds[i]
    ensures Fds(t) == fds
  {
  }

  /** ic_check_poll_set in the epoll form. */
  method CheckByEpoll(poll: PollSet, reply: WaitReply<nat>, ghost fds: seq<int>, ghost s: Users)
      returns (code: int, ghost call: Call)
    requires AtUsers(poll, s) && !poll.useCompactArray
    requires reply.Reported? ==>
               && |reply.events| == |fds| <= MAX_CONNECTIONS && OnceEach(fds)
               && forall i :: 0 <= i < |fds| ==> fds[i] in poll.kernel && reply.events[i] == poll.kernel[fds[i]]
    modifies poll, poll.readyConnections
    ensures Allowed(s, call) && AtUsers(poll, After(s, call))
    ensures call == (if reply.WaitFailed? then CheckFailed else Checked(if reply.Reported? then fds else []))
    ensures code == if reply.WaitFailed? then reply.code else 0
  {
    ghost var ready := if reply.Reported? then fds else [];
    forall i | 0 <= i < |ready| ensures ready[i] in s.members {
      AgreesAt(poll.kernel, poll.Members(), ready[i]);
      FdSetHas(poll.Members(), ready[i]);
    }
    hide Occupied, FdIndex, Carries, DistinctFds, FdSet;
    code := poll.EpollCheck(reply, fds);
    call := CheckFailed;
    if !reply.WaitFailed? {
      ReadyIs(poll.Ready(), ready);
      call := Checked(ready);
    }
  }

  lemma DistinctIsOnceEach(t: Table)
    requires NoNull(t) && DistinctFds(t)
    ensures OnceEach(Fds(t))
  {
  }

  lemma EntriesAreMembers(t: Table, ready: Table, users: map<int, int>)
    requires Carries(t, users) && NoNull(ready) && forall i :: 0 <= i < |ready| ==> ready[i] in t
    ensures forall fd :: fd in Fds(ready) ==> fd in users
    ensures forall i :: 0 <= i < |ready| ==> ready[i].fd in users && users[ready[i].fd] == ready[i].userObj
  {
  }

  lemma MarkedAreReady(t: Table, ready: Table)
    requires DistinctFds(t) && NoNull(ready) && forall i :: 0 <= i < |ready| ==> ready[i] in t
    ensures forall i :: 0 <= i < |t| && t[i] != null ==> (t[i] in ready <==> t[i].fd in Fds(ready))
  {
    forall i | 0 <= i < |t| && t[i] != null && t[i].fd in Fds(ready) ensures t[i] in ready {
      var j :| 0 <= j < |ready| && Fds(ready)[j] == t[i].fd;
      var k :| 0 <= k < |t| && t[k] == ready[j];
      assert k == i;
    }
  }

  /** ic_check_poll_set in the poll form. */
  method CheckByPoll(poll: PollSet, reply: WaitReply<bool>, ghost s: Users) returns (code: int, ghost call: Call)
    requires AtUsers(poll, s) && poll.useCompactArray
    requires reply.Reported? ==> |reply.events| == poll.numPollConnections
    modifies poll, poll.readyConnections
    ensures Allowed(s, call) && AtUsers(poll, After(s, call))
    ensures call.CheckFailed? <==> !reply.Reported?
    ensures reply.Reported? ==>
              && call.Checked? && forall i :: 0 <= i < poll.numPollConnections ==>
                   (poll.pollFds[i] in call.ready <==> reply.events[i])
  {
    hide Occupied, FdIndex, Carries, DistinctFds, FdSet, Selected;
    code := poll.PollCheck(reply);
    call := CheckFailed;
    if reply.Reported? {
      DistinctIsOnceEach(poll.Ready());
      EntriesAreMembers(poll.Members(), poll.Ready(), s.members);
      call := Checked(Fds(poll.Ready()));
      MarkedAreReady(poll.Members(), poll.Ready());
    }
  }

  /** get_next_connection: the connection handed out carries the user object
      that the run has for its fd. */
  method ReportUser(poll: PollSet, ghost s: Users) returns (conn: PollConnection?)
    requires AtUsers(poll, s) && Allowed(s, Report)
    modifies poll, poll.readyConnections
    ensures AtUsers(poll, After(s, Report))
    ensures conn == null <==> s.ready == []
    ensures conn != null ==> After(s, Report).reported == s.reported + [(conn.fd, conn.userObj)]
  {
    ghost var was := poll.Ready();
    EntriesAreMembers(poll.Members(), was, s.members);
    hide Occupied, FdIndex, Carries, DistinctFds, FdSet;
    conn := poll.GetNextConnection();
    if conn != null {
      ScanReady(was, poll.Ready(), conn);
      assert was[|was| - 1] == conn;
    }
  }

  lemma SelectedNext(t: Table, done: seq<bool>, marked: bool)
    requires |done| < |t|
    ensures Selected(t, []) == []
    ensures Selected(t, done + [marked]) == Selected(t, done) + if marked then [t[|done|]] else []
  {
    assert (done + [marked])[..|done|] == done;
  }

  /** The poll form takes an fd twice. A check that marks both entries puts
      both in the ready list, so the object of the first addition is reported
      after that of the second. */
  lemma SecondAddReportsFirst(t: Table, first: PollConnection, second: PollConnection)
    requires |t| >= 2 && t[0] == first && t[1] == second && first.fd == second.fd
    ensures Selected(t, [true, true]) == [first, second]
  {
    hide *;
    SelectedNext(t, [], true);
    assert [] + [true] == [true] && Selected(t, [true]) == [first];
    SelectedNext(t, [true], true);
    assert [true] + [true] == [true, true];
  }
}
