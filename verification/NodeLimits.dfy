/** Behind a full list: where the checks are right, and what they do instead. */
module NodeLimits {
  import opened Basics
  import opened BootGrammar
  import opened NodeIds
  import opened NodeRuns

  /** Among numbers up to the length of a list one is missing in the list. */
  lemma {:induction false} MissingNumber(list: seq<nat>) returns (x: nat)
    ensures x <= |list| && x !in list
    decreases |list|
  {
    if |list| !in list {
      x := |list|;
    } else {
      var i :| 0 <= i < |list| && list[i] == |list|;
      var others := list[..i] + list[i + 1..];
      x := MissingNumber(others);
      assert list == list[..i] + [list[i]] + list[i + 1..];
    }
  }

  function Entries(lists: Lists): seq<Entry> {
    lists.cs + lists.mgr + lists.ds + lists.fs + lists.rep + lists.sql
  }

  lemma EntriesHoldAll(lists: Lists, s: Server, i: nat)
    requires i < |lists.Of(s)|
    ensures lists.Of(s)[i] in Entries(lists)
  {
  }

  /** A node id that no recorded server has. */
  lemma FreshId(lists: Lists) returns (id: uint32)
    requires forall s :: |lists.Of(s)| <= Limit(s)
    ensures forall s, i :: 0 <= i < |lists.Of(s)| ==> lists.Of(s)[i].nodeId != id
  {
    var entries := Entries(lists);
    var ids: seq<nat> := seq(|entries|, i requires 0 <= i < |entries| => entries[i].nodeId);
    assert |lists.Of(ClusterServer)| <= 4 && |lists.Of(ClusterManager)| <= 4 && |lists.Of(DataServer)| <= 12288;
    assert |lists.Of(FileServer)| <= 255 && |lists.Of(ReplicationServer)| <= 255 && |lists.Of(SqlServer)| <= 255;
    assert |ids| < TWO_TO_32;
    id := MissingNumber(ids);
    hide Lists.Of, Entries, Limit;
    forall s, i | 0 <= i < |lists.Of(s)| ensures lists.Of(s)[i].nodeId != id {
      EntriesHoldAll(lists, s, i);
      var k :| 0 <= k < |entries| && entries[k] == lists.Of(s)[i];
      assert ids[k] == entries[k].nodeId;
    }
  }

  lemma FreshIsAccepted(lists: Lists, s: Server, e: Entry)
    requires InCluster(s) && forall t, i :: 0 <= i < |lists.Of(t)| ==> lists.Of(t)[i].nodeId != e.nodeId
    ensures Accepts(lists, s, e)
  {
    hide Lists.Of;
  }

  /** What a command finds does not depend on the command once its list is full. */
  lemma FullListIgnoresEntry(p: State, after: After, s: Server, e: Entry, f: Entry)
    requires p.next.Of(s) >= Limit(s)
    ensures Next(p, after, Event(s, e)) == Next(p, after, Event(s, f))
  {
    assert Record(p, Event(s, e)) == Record(p, Event(s, f));
    hide Record, ClashFound;
  }

  /** A check is right, for every server that may come next, exactly when there
      is room for one more of its kind: behind a full list the command is
      either always or never flagged. */
  lemma CheckIsRightIff(p: State, after: After, s: Server)
    requires InLimits(p) && !p.exited
    ensures (forall e :: Next(p, after, Event(s, e)).exited <==> !Accepts(p.lists, s, e)) <==> HasRoom(p, s)
  {
    if HasRoom(p, s) {
      forall e ensures Next(p, after, Event(s, e)).exited <==> !Accepts(p.lists, s, e) {
        StepIsRight(p, after, Event(s, e));
      }
    } else {
      FullListIsWrong(p, after, s);
    }
  }

  lemma FullListIsWrong(p: State, after: After, s: Server)
    requires InLimits(p) && !p.exited && !HasRoom(p, s)
    ensures exists e :: Next(p, after, Event(s, e)).exited <==> Accepts(p.lists, s, e)
  {
    assert p.next.Of(s) == |p.lists.Of(s)| == Limit(s) && |p.lists.Of(s)| > 0;
    var same := p.lists.Of(s)[0];
    assert ClashesIn(p.lists.Of(s), s, s, same);
    assert !Accepts(p.lists, s, same);
    var id := FreshId(p.lists);
    var other := Entry(0, id);
    FreshIsAccepted(p.lists, s, other);
    hide Accepts, Next, Limit, InLimits;
    FullListIgnoresEntry(p, after, s, same, other);
    if Next(p, after, Event(s, same)).exited {
      assert Next(p, after, Event(s, other)).exited <==> Accepts(p.lists, s, other);
    } else {
      assert Next(p, after, Event(s, same)).exited <==> Accepts(p.lists, s, same);
    }
  }

  /** The kind whose array lies behind. */
  function Behind(s: Server): Server
    requires s == DataServer || s == FileServer || s == ReplicationServer
  {
    if s == DataServer then FileServer else if s == FileServer then ReplicationServer else SqlServer
  }

  /** A full list with nothing recorded in the array behind it. */
  ghost predicate AtTheEnd(p: State, s: Server) {
    && (s == DataServer || s == FileServer || s == ReplicationServer)
    && InLimits(p) && !p.exited && p.next.Of(s) == Limit(s) && p.lists.Of(Behind(s)) == []
    && forall t, i :: 0 <= i < |p.lists.Of(t)| ==> p.lists.Of(t)[i].nodeId != 0
  }

  /** Reads behind a full list find the unset entries of the next array. */
  lemma LoadsBehind(q: State, after: After, s: Server, i: nat)
    requires s == DataServer || s == FileServer || s == ReplicationServer
    requires |q.lists.Of(s)| == Limit(s) && q.lists.Of(Behind(s)) == [] && i < 255
    ensures Load(q, after, s, Limit(s) + i) == UNSET
  {
    assert Load(q, after, Behind(s), i) == UNSET;
  }

  /** The first server too many is not flagged, whatever its node id. */
  lemma FirstBehindIsUnchecked(p: State, after: After, s: Server, e: Entry)
    requires AtTheEnd(p, s)
    ensures var q := Next(p, after, Event(s, e));
            !q.exited && q.lists == p.lists && q.next == p.next.Inc(s)
  {
    var q := Record(p, Event(s, e));
    assert |q.lists.Of(s)| == Limit(s) && InCluster(s);
    LoadsBehind(q, after, s, 0);
    forall t ensures Searched(q, after, t, s) == p.lists.Of(t) {
      assert p.next.Of(t) == |p.lists.Of(t)|;
    }
    hide Load, View, Searched, Limit, Lists.Of, Counts.Of;
    forall t ensures !ClashesIn(Searched(q, after, t, s), t, s, UNSET) {
      assert Searched(q, after, t, s) == p.lists.Of(t);
    }
  }

  /** The second is flagged, whatever its node id. */
  lemma SecondBehindIsFlagged(p: State, after: After, later: After, s: Server, e: Entry, f: Entry)
    requires AtTheEnd(p, s)
    ensures Next(Next(p, after, Event(s, e)), later, Event(s, f)).exited
  {
    FirstBehindIsUnchecked(p, after, s, e);
    var q := Next(p, after, Event(s, e));
    assert |q.lists.Of(s)| == Limit(s) && q.next.Of(s) == Limit(s) + 1;
    hide Next;
    var r := Record(q, Event(s, f));
    assert r.lists == q.lists && r.next.Of(s) == Limit(s) + 2;
    LoadsBehind(r, later, s, 0);
    LoadsBehind(r, later, s, 1);
    hide Load, Limit, Lists.Of, Counts.Of;
    var searched := Searched(r, later, s, s);
    assert searched[Limit(s)] == UNSET;
    assert Clash(s, searched[Limit(s)], s, UNSET);
    assert ClashesIn(searched, s, s, UNSET);
    NextOf(q, later, Event(s, f));
  }

  lemma NextOf(q: State, after: After, ev: Event)
    ensures !q.exited && ClashFound(Record(q, ev), after, ev.server) ==> Next(q, after, ev).exited
  {
  }

  // ----- two runs of file servers -----

  /** File servers with node ids 1 to `n`. */
  function FileServers(n: nat): (events: seq<Event>)
    requires n < TWO_TO_32
    ensures |events| == n
    ensures forall i :: 0 <= i < n ==> events[i] == Event(FileServer, Entry(0, i + 1))
  {
    seq(n, i requires 0 <= i < n => Event(FileServer, Entry(0, i + 1)))
  }

  lemma {:induction false} FileServersAre(n: nat)
    requires n < TWO_TO_32 - 1
    ensures FileServers(n + 1) == FileServers(n) + [Event(FileServer, Entry(0, n + 1))]
    ensures Distinct(FileServers(n)) && |Recorded(FileServers(n), FileServer)| == n
    ensures forall i :: 0 <= i < n ==> Recorded(FileServers(n), FileServer)[i].nodeId == i + 1
    ensures forall s :: s != FileServer ==> Recorded(FileServers(n), s) == []
  {
    if n > 0 {
      FileServersAre(n - 1);
      var init, ev := FileServers(n - 1), Event(FileServer, Entry(0, n));
      assert FileServers(n) == init + [ev];
      DistinctSnoc(init, ev);
      hide Distinct, Recorded;
      forall s ensures Recorded(FileServers(n), s) == Recorded(init, s) + if s == FileServer then [ev.entry] else [] {
        RecordedSnoc(init, ev, s);
      }
    }
  }

  lemma FileServersFillTheList(world: World)
    ensures AtTheEnd(Run(world, AllExecuted(FileServers(255))), FileServer)
  {
    var events := FileServers(255);
    FileServersAre(255);
    FileServersFit(events);
    hide Recorded, FileServers, Distinct, Run, InLimits, AllExecuted, Few, WithinLimits, RoomWhileDistinct, ClashesIn,
        Clash, Load;
    WithinLimitsHasRoom(events);
    ExecutedFlagIff(world, events);
    var p := Run(world, AllExecuted(events));
    assert p.lists.Of(FileServer) == Recorded(events, FileServer);
    CountedIsRecorded(p, FileServer);
    forall t, i | 0 <= i < |p.lists.Of(t)| ensures p.lists.Of(t)[i].nodeId != 0 {
      assert p.lists.Of(t) == Recorded(events, t);
    }
  }

  lemma FileServersFit(events: seq<Event>)
    requires |Recorded(events, FileServer)| == 255 && forall s :: s != FileServer ==> Recorded(events, s) == []
    ensures Few(events) && WithinLimits(events)
  {
    hide Recorded;
  }

  lemma CountedIsRecorded(p: State, s: Server)
    requires InLimits(p)
    ensures p.next.Of(s) == |p.lists.Of(s)|
  {
  }

  /** The same for whole runs: with a list full and nothing behind it, the next
      server of its kind passes and the one after it is flagged. */
  lemma RunsBehindTheList(world: World, full: seq<Event>, s: Server, e: Entry, f: Entry)
    requires AtTheEnd(Run(world, AllExecuted(full)), s)
    ensures !Run(world, AllExecuted(full + [Event(s, e)])).exited
    ensures Run(world, AllExecuted(full + [Event(s, e)] + [Event(s, f)])).exited
  {
    hide *;
    var p := Run(world, AllExecuted(full));
    ExecutedSnoc(world, full, Event(s, e));
    ExecutedSnoc(world, full + [Event(s, e)], Event(s, f));
    FirstBehindIsUnchecked(p, world(|full|), s, e);
    SecondBehindIsFlagged(p, world(|full|), world(|full + [Event(s, e)]|), s, e, f);
  }

  lemma ExecutedSnoc(world: World, events: seq<Event>, ev: Event)
    ensures Run(world, AllExecuted(events + [ev])) == Next(Run(world, AllExecuted(events)), world(|events|), ev)
  {
    assert AllExecuted(events + [ev]) == AllExecuted(events) + [Execute(ev)];
    RunSnoc(world, AllExecuted(events), Execute(ev));
    hide Run;
  }

  /** A node id given a second time, to file server 256, is not flagged. */
  lemma DuplicateBehindTheList(world: World)
    ensures var events := FileServers(255) + [Event(FileServer, Entry(0, 1))];
            !Distinct(events) && !Run(world, AllExecuted(events)).exited
  {
    var full, again := FileServers(255), Event(FileServer, Entry(0, 1));
    DistinctSnoc(full, again);
    assert Clash(full[0].server, full[0].entry, again.server, again.entry);
    hide FileServers, Distinct, Run, AtTheEnd;
    FileServersFillTheList(world);
    RunsBehindTheList(world, full, FileServer, again.entry, again.entry);
  }

  /** 257 file servers with different node ids are flagged. */
  lemma DistinctBehindTheList(world: World)
    ensures Distinct(FileServers(257)) && Few(FileServers(257)) && Run(world, AllExecuted(FileServers(257))).exited
  {
    FileServersAre(257);
    assert Few(FileServers(257));
    FileServersAre(256);
    FileServersAre(255);
    hide FileServers, Distinct, Run, AtTheEnd, Few, Recorded;
    FileServersFillTheList(world);
    RunsBehindTheList(world, FileServers(255), FileServer, Entry(0, 256), Entry(0, 257));
  }
}
