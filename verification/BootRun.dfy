/** A bootstrap run on the file generated from a configuration. */
module BootRun {
  import opened Basics
  import opened Symbols
  import opened BootLex
  import opened BootGrammar
  import opened BootPrint
  import opened BootSplit
  import opened BootFile
  import opened BootGenerate
  import opened BootEffects
  import opened NodeIds
  import opened NodeRuns

  // ----- the PREPAREs among commands -----

  lemma {:induction false} EventsAppend(a: seq<Command>, b: seq<Command>)
    ensures EventsOf(a + b) == EventsOf(a) + EventsOf(b)
  {
    if b == [] {
      assert a + b == a;
    } else {
      var u, c := b[..|b| - 1], b[|b| - 1];
      assert b == u + [c] && a + b == a + u + [c];
      hide EventsOf, EventsIn;
      EventsAppend(a, u);
      EventsSnoc(a + u, c);
      EventsSnoc(u, c);
    }
  }

  lemma {:induction false} CountIsRecorded(commands: seq<Command>, s: Server)
    ensures |Recorded(EventsOf(commands), s)| == Count(commands, s)
  {
    if commands != [] {
      var u, c := commands[..|commands| - 1], commands[|commands| - 1];
      assert commands == u + [c];
      CountIsRecorded(u, s);
      EventsSnoc(u, c);
      CountSnoc(u, c, s);
      if c.Prepare? {
        RecordedSnoc(EventsOf(u), EventsIn(c)[0], s);
        assert EventsIn(c) == [EventsIn(c)[0]];
      } else {
        assert EventsOf(u) + [] == EventsOf(u);
      }
    }
  }

  lemma {:induction false} NoEventsInFinal(commands: seq<Command>)
    requires forall i :: 0 <= i < |commands| ==> !commands[i].Prepare?
    ensures EventsOf(commands) == []
  {
    if commands != [] {
      NoEventsInFinal(commands[..|commands| - 1]);
    }
  }

  lemma GeneratedEvents(grid: seq<Slot>, clusters: seq<seq<Slot>>)
    requires IsGrid(grid, clusters)
    ensures EventsOf(GeneratedCommands(grid, clusters)) == EventsOf(PrepareCommands(grid, clusters, |clusters|))
  {
    var prepares := PrepareCommands(grid, clusters, |clusters|);
    NoEventsInFinal(FinalCommands(prepares));
    hide PrepareCommands, FinalCommands, EventsOf;
    EventsAppend(prepares, FinalCommands(prepares));
  }

  lemma {:induction false} NodesDoNotExit(inCluster: bool, clusterId: uint32, nodes: seq<Slot>, k: nat)
    requires IsTable(nodes) && k < |nodes|
    ensures NoneExits(NodeCommands(inCluster, clusterId, nodes, k))
  {
    hide InCluster;
    if k > 0 {
      NodesDoNotExit(inCluster, clusterId, nodes, k - 1);
    }
  }

  lemma {:induction false} PreparesDoNotExit(grid: seq<Slot>, clusters: seq<seq<Slot>>, n: nat)
    requires IsGrid(grid, clusters) && n <= |clusters|
    ensures NoneExits(PrepareCommands(grid, clusters, n))
  {
    hide NodeCommands;
    if n == 0 {
      NodesDoNotExit(false, 0, grid, |grid| - 1);
    } else {
      PreparesDoNotExit(grid, clusters, n - 1);
      assert IsTable(clusters[n - 1]);
      NodesDoNotExit(true, n - 1, clusters[n - 1], |clusters[n - 1]| - 1);
    }
  }

  lemma NoExit(grid: seq<Slot>, clusters: seq<seq<Slot>>)
    requires IsGrid(grid, clusters)
    ensures NoneExits(GeneratedCommands(grid, clusters))
  {
    PreparesDoNotExit(grid, clusters, |clusters|);
    hide PrepareCommands, Count;
  }

  /** The generator keeps to the limit that the run checks. */
  lemma GeneratedAreFew(grid: seq<Slot>, clusters: seq<seq<Slot>>)
    requires IsGrid(grid, clusters) && GenerateCode(grid, clusters) == 0
    ensures Few(EventsOf(GeneratedCommands(grid, clusters)))
  {
    var prepares := PrepareCommands(grid, clusters, |clusters|);
    GeneratedEvents(grid, clusters);
    GridServersCounted(grid, clusters, |clusters|, ClusterServer);
    GridServersCounted(grid, clusters, |clusters|, ClusterManager);
    hide PrepareCommands, EventsOf, Recorded, Count, AllServers, LacksData, GeneratedCommands, IsGrid;
    CountIsRecorded(prepares, ClusterServer);
    CountIsRecorded(prepares, ClusterManager);
  }

  // ----- the tables of a configuration -----

  /** Table 0 is the grid's, table `i` that of cluster `i - 1`. */
  function TableAt(grid: seq<Slot>, clusters: seq<seq<Slot>>, i: nat): seq<Slot>
    requires i <= |clusters|
  {
    if i == 0 then grid else clusters[i - 1]
  }

  /** A node that gets a PREPARE. */
  predicate Holds(nodes: seq<Slot>, inCluster: bool, k: nat) {
    1 <= k < |nodes| && nodes[k].Node? && InCluster(nodes[k].server) == inCluster
  }

  /** Some server of a table clashes with a given one. */
  ghost predicate ClashesInTable(nodes: seq<Slot>, inCluster: bool, clusterId: uint32, t: Server, f: Entry)
    requires |nodes| <= TWO_TO_32
  {
    Holds(nodes, inCluster, f.nodeId) && Clash(nodes[f.nodeId].server, Entry(clusterId, f.nodeId), t, f)
  }

  function EventAt(nodes: seq<Slot>, clusterId: uint32, k: uint32): Event
    requires k < |nodes| && nodes[k].Node?
  {
    Event(nodes[k].server, Entry(clusterId, k))
  }

  /** The events of node ids 1 to `k`. */
  function NodeEvents(inCluster: bool, clusterId: uint32, nodes: seq<Slot>, k: nat): seq<Event>
    requires IsTable(nodes) && k < |nodes|
  {
    if k == 0 then []
    else
      NodeEvents(inCluster, clusterId, nodes, k - 1) +
      if Holds(nodes, inCluster, k) then [EventAt(nodes, clusterId, k)] else []
  }

  lemma {:induction false} NodeEventsOfCommands(inCluster: bool, clusterId: uint32, nodes: seq<Slot>, k: nat)
    requires IsTable(nodes) && k < |nodes|
    ensures EventsOf(NodeCommands(inCluster, clusterId, nodes, k)) == NodeEvents(inCluster, clusterId, nodes, k)
  {
    hide EventsOf, NodeCommands, CommandOf, NodeEvents;
    NodeEventsNext(inCluster, clusterId, nodes, k);
    NodeCommandsNone(inCluster, clusterId, nodes);
    NoEventsInFinal([]);
    if k > 0 {
      NodeEventsOfCommands(inCluster, clusterId, nodes, k - 1);
      NodeCommandsNext(inCluster, clusterId, nodes, k, []);
      EventsAppend(NodeCommands(inCluster, clusterId, nodes, k - 1), CommandOf(inCluster, clusterId, nodes[k], k));
      EventsOfSlot(inCluster, clusterId, nodes, k);
    }
  }

  lemma NodeEventsNext(inCluster: bool, clusterId: uint32, nodes: seq<Slot>, k: nat)
    requires IsTable(nodes) && k < |nodes|
    ensures NodeEvents(inCluster, clusterId, nodes, k) ==
              if k == 0 then []
              else
                NodeEvents(inCluster, clusterId, nodes, k - 1) +
                if Holds(nodes, inCluster, k) then [EventAt(nodes, clusterId, k)] else []
  {
  }

  lemma EventsOfSlot(inCluster: bool, clusterId: uint32, nodes: seq<Slot>, k: nat)
    requires IsTable(nodes) && 0 < k < |nodes|
    ensures EventsOf(CommandOf(inCluster, clusterId, nodes[k], k)) ==
              if Holds(nodes, inCluster, k) then [EventAt(nodes, clusterId, k)] else []
  {
    var more := CommandOf(inCluster, clusterId, nodes[k], k);
    if more != [] {
      EventsSnoc([], more[0]);
      assert [] + [more[0]] == more;
    }
  }

  /** Searching the events of node ids up to `k` finds only the same node id. */
  lemma {:induction false} NodeEventsClash(inCluster: bool, clusterId: uint32, nodes: seq<Slot>, k: nat, t: Server,
                                           f: Entry)
    requires IsTable(nodes) && k < |nodes|
    ensures ClashesWith(NodeEvents(inCluster, clusterId, nodes, k), t, f) <==>
              f.nodeId <= k && ClashesInTable(nodes, inCluster, clusterId, t, f)
  {
    if k > 0 {
      var before := NodeEvents(inCluster, clusterId, nodes, k - 1);
      assert NodeEvents(inCluster, clusterId, nodes, k) ==
        before + if Holds(nodes, inCluster, k) then [EventAt(nodes, clusterId, k)] else [];
      hide NodeEvents, ClashesWith;
      NodeEventsClash(inCluster, clusterId, nodes, k - 1, t, f);
      if Holds(nodes, inCluster, k) {
        ClashesWithSnoc(before, EventAt(nodes, clusterId, k), t, f);
      } else {
        assert before + [] == before;
      }
    }
  }

  lemma {:induction false} ClashesWithAppend(a: seq<Event>, b: seq<Event>, t: Server, f: Entry)
    ensures ClashesWith(a + b, t, f) <==> ClashesWith(a, t, f) || ClashesWith(b, t, f)
  {
    if b == [] {
      assert a + b == a;
    } else {
      var u, ev := b[..|b| - 1], b[|b| - 1];
      assert b == u + [ev] && a + b == a + u + [ev];
      hide ClashesWith;
      ClashesWithAppend(a, u, t, f);
      ClashesWithSnoc(a + u, ev, t, f);
      ClashesWithSnoc(u, ev, t, f);
    }
  }

  /** No server of a table clashes with events before it. */
  ghost predicate TableIsFree(before: seq<Event>, inCluster: bool, clusterId: uint32, nodes: seq<Slot>, k: nat)
    requires IsTable(nodes) && k < |nodes|
  {
    forall m: nat :: m <= k && Holds(nodes, inCluster, m) ==> !ClashesWith(before, nodes[m].server, Entry(clusterId, m))
  }

  /** Within a table all node ids differ. */
  lemma {:induction false} DistinctTable(before: seq<Event>, inCluster: bool, clusterId: uint32, nodes: seq<Slot>,
                                         k: nat)
    requires IsTable(nodes) && k < |nodes|
    ensures Distinct(before + NodeEvents(inCluster, clusterId, nodes, k)) <==>
              Distinct(before) && TableIsFree(before, inCluster, clusterId, nodes, k)
  {
    if k == 0 {
      assert before + [] == before;
    } else {
      var events := NodeEvents(inCluster, clusterId, nodes, k - 1);
      assert NodeEvents(inCluster, clusterId, nodes, k) ==
        events + if Holds(nodes, inCluster, k) then [EventAt(nodes, clusterId, k)] else [];
      hide NodeEvents, Distinct, ClashesWith;
      DistinctTable(before, inCluster, clusterId, nodes, k - 1);
      if Holds(nodes, inCluster, k) {
        var ev := EventAt(nodes, clusterId, k);
        assert before + (events + [ev]) == before + events + [ev];
        DistinctSnoc(before + events, ev);
        ClashesWithAppend(before, events, ev.server, ev.entry);
        NodeEventsClash(inCluster, clusterId, nodes, k - 1, ev.server, ev.entry);
      } else {
        assert events + [] == events;
      }
    }
  }

  // ----- collisions between tables -----

  function ClusterIdOf(i: nat): nat {
    if i == 0 then 0 else i - 1
  }

  function TableEvents(grid: seq<Slot>, clusters: seq<seq<Slot>>, i: nat): seq<Event>
    requires IsGrid(grid, clusters) && i <= |clusters|
  {
    NodeEvents(i > 0, ClusterIdOf(i), TableAt(grid, clusters, i), |TableAt(grid, clusters, i)| - 1)
  }

  /** The events of tables 0 to `n`. */
  function PrepareEvents(grid: seq<Slot>, clusters: seq<seq<Slot>>, n: nat): seq<Event>
    requires IsGrid(grid, clusters) && n <= |clusters|
  {
    if n == 0 then TableEvents(grid, clusters, 0)
    else PrepareEvents(grid, clusters, n - 1) + TableEvents(grid, clusters, n)
  }

  lemma {:induction false} EventsOfPrepares(grid: seq<Slot>, clusters: seq<seq<Slot>>, n: nat)
    requires IsGrid(grid, clusters) && n <= |clusters|
    ensures EventsOf(PrepareCommands(grid, clusters, n)) == PrepareEvents(grid, clusters, n)
  {
    hide EventsOf, NodeCommands, NodeEvents;
    if n == 0 {
      NodeEventsOfCommands(false, 0, grid, |grid| - 1);
    } else {
      EventsOfPrepares(grid, clusters, n - 1);
      assert IsTable(clusters[n - 1]);
      NodeEventsOfCommands(true, n - 1, clusters[n - 1], |clusters[n - 1]| - 1);
      EventsAppend(PrepareCommands(grid, clusters, n - 1), TableCommands(true, n - 1, clusters[n - 1]));
    }
  }

  /** Tables `i` and `j` both use node id `k`, and not both for a data server. */
  predicate Collide(grid: seq<Slot>, clusters: seq<seq<Slot>>, i: nat, j: nat, k: nat)
    requires i <= |clusters| && j <= |clusters|
  {
    var a, b := TableAt(grid, clusters, i), TableAt(grid, clusters, j);
    Holds(a, i > 0, k) && Holds(b, j > 0, k) && !(a[k].server == DataServer && b[k].server == DataServer)
  }

  /** No collision among tables 0 to `n`. */
  ghost predicate NoCollision(grid: seq<Slot>, clusters: seq<seq<Slot>>, n: nat)
    requires n <= |clusters|
  {
    forall i: nat, j: nat, k: nat :: i < j <= n ==> !Collide(grid, clusters, i, j, k)
  }

  /** Table `n` collides with none before it. */
  ghost predicate IsFree(grid: seq<Slot>, clusters: seq<seq<Slot>>, n: nat)
    requires n <= |clusters|
  {
    forall i: nat, k: nat :: i < n ==> !Collide(grid, clusters, i, n, k)
  }

  lemma NoCollisionNext(grid: seq<Slot>, clusters: seq<seq<Slot>>, n: nat)
    requires 0 < n <= |clusters|
    ensures NoCollision(grid, clusters, n) <==> NoCollision(grid, clusters, n - 1) && IsFree(grid, clusters, n)
  {
    hide Collide;
  }

  ghost predicate ClashesAt(grid: seq<Slot>, clusters: seq<seq<Slot>>, i: nat, t: Server, f: Entry)
    requires IsGrid(grid, clusters) && i <= |clusters|
  {
    ClashesInTable(TableAt(grid, clusters, i), i > 0, ClusterIdOf(i), t, f)
  }

  lemma TableEventsClash(grid: seq<Slot>, clusters: seq<seq<Slot>>, i: nat, t: Server, f: Entry)
    requires IsGrid(grid, clusters) && i <= |clusters|
    ensures ClashesWith(TableEvents(grid, clusters, i), t, f) <==> ClashesAt(grid, clusters, i, t, f)
  {
    var nodes := TableAt(grid, clusters, i);
    assert IsTable(nodes);
    hide NodeEvents, ClashesWith;
    NodeEventsClash(i > 0, ClusterIdOf(i), nodes, |nodes| - 1, t, f);
  }

  lemma {:induction false} PrepareEventsClash(grid: seq<Slot>, clusters: seq<seq<Slot>>, n: nat, t: Server, f: Entry)
    requires IsGrid(grid, clusters) && n <= |clusters|
    ensures ClashesWith(PrepareEvents(grid, clusters, n), t, f) <==>
              exists i: nat :: i <= n && ClashesAt(grid, clusters, i, t, f)
  {
    hide ClashesWith, ClashesAt, TableEvents, IsGrid;
    TableEventsClash(grid, clusters, n, t, f);
    if n > 0 {
      PrepareEventsClash(grid, clusters, n - 1, t, f);
      ClashesWithAppend(PrepareEvents(grid, clusters, n - 1), TableEvents(grid, clusters, n), t, f);
    }
  }

  /** A collision is a clash between the events of two tables. */
  lemma CollisionIsClash(grid: seq<Slot>, clusters: seq<seq<Slot>>, i: nat, n: nat, k: nat)
    requires IsGrid(grid, clusters) && i < n <= |clusters| && Holds(TableAt(grid, clusters, n), n > 0, k)
    requires k < TWO_TO_32
    ensures ClashesAt(grid, clusters, i, TableAt(grid, clusters, n)[k].server, Entry(ClusterIdOf(n), k)) <==>
              Collide(grid, clusters, i, n, k)
  {
  }

  /** A node of table `n` meets an earlier event exactly when it collides. */
  lemma FreeAt(grid: seq<Slot>, clusters: seq<seq<Slot>>, n: nat, m: nat)
    requires IsGrid(grid, clusters) && 0 < n <= |clusters| && IsTable(clusters[n - 1])
    requires m < |clusters[n - 1]| && Holds(clusters[n - 1], true, m)
    ensures !ClashesWith(PrepareEvents(grid, clusters, n - 1), clusters[n - 1][m].server, Entry(n - 1, m)) <==>
              forall i: nat :: i < n ==> !Collide(grid, clusters, i, n, m)
  {
    var server, e := clusters[n - 1][m].server, Entry(n - 1, m);
    assert TableAt(grid, clusters, n) == clusters[n - 1] && ClusterIdOf(n) == n - 1;
    PrepareEventsClash(grid, clusters, n - 1, server, e);
    hide ClashesWith, ClashesAt, PrepareEvents, Collide;
    if ClashesWith(PrepareEvents(grid, clusters, n - 1), server, e) {
      var i: nat :| i <= n - 1 && ClashesAt(grid, clusters, i, server, e);
      CollisionIsClash(grid, clusters, i, n, m);
    } else {
      forall i: nat | i < n ensures !Collide(grid, clusters, i, n, m) {
        assert !ClashesAt(grid, clusters, i, server, e);
        CollisionIsClash(grid, clusters, i, n, m);
      }
    }
  }

  lemma FreeIff(grid: seq<Slot>, clusters: seq<seq<Slot>>, n: nat)
    requires IsGrid(grid, clusters) && 0 < n <= |clusters| && IsTable(clusters[n - 1])
    ensures TableIsFree(PrepareEvents(grid, clusters, n - 1), true, n - 1, clusters[n - 1], |clusters[n - 1]| - 1) <==>
              IsFree(grid, clusters, n)
  {
    var nodes, before := clusters[n - 1], PrepareEvents(grid, clusters, n - 1);
    assert TableAt(grid, clusters, n) == nodes && ClusterIdOf(n) == n - 1;
    hide ClashesWith, ClashesAt, PrepareEvents;
    forall m: nat | m < |nodes| && Holds(nodes, true, m)
      ensures !ClashesWith(before, nodes[m].server, Entry(n - 1, m)) <==>
                forall i: nat :: i < n ==> !Collide(grid, clusters, i, n, m)
    {
      FreeAt(grid, clusters, n, m);
    }
  }

  lemma GridIsDistinct(grid: seq<Slot>, clusters: seq<seq<Slot>>)
    requires IsGrid(grid, clusters)
    ensures Distinct(PrepareEvents(grid, clusters, 0))
  {
    hide NodeEvents, PrepareEvents, Distinct, TableIsFree, IsGrid, IsTable;
    PrepareEventsAre(grid, clusters, 0);
    NothingBefore(false, 0, grid);
    DistinctTable([], false, 0, grid, |grid| - 1);
    assert [] + NodeEvents(false, 0, grid, |grid| - 1) == NodeEvents(false, 0, grid, |grid| - 1);
  }

  lemma NothingBefore(inCluster: bool, clusterId: uint32, nodes: seq<Slot>)
    requires IsTable(nodes)
    ensures Distinct([]) && TableIsFree([], inCluster, clusterId, nodes, |nodes| - 1)
  {
  }

  lemma PrepareEventsAre(grid: seq<Slot>, clusters: seq<seq<Slot>>, n: nat)
    requires IsGrid(grid, clusters) && n <= |clusters|
    ensures IsTable(grid) && |grid| >= 1
    ensures n > 0 ==> n - 1 < TWO_TO_32 && IsTable(clusters[n - 1]) && |clusters[n - 1]| >= 1
    ensures PrepareEvents(grid, clusters, n) ==
              if n == 0 then NodeEvents(false, 0, grid, |grid| - 1)
              else
                PrepareEvents(grid, clusters, n - 1) +
                NodeEvents(true, n - 1, clusters[n - 1], |clusters[n - 1]| - 1)
  {
    hide NodeEvents;
    assert n > 0 ==> IsTable(clusters[n - 1]);
  }

  lemma {:induction false} DistinctIffNoCollision(grid: seq<Slot>, clusters: seq<seq<Slot>>, n: nat)
    requires IsGrid(grid, clusters) && n <= |clusters|
    ensures Distinct(PrepareEvents(grid, clusters, n)) <==> NoCollision(grid, clusters, n)
  {
    hide *;
    PrepareEventsAre(grid, clusters, n);
    if n == 0 {
      GridIsDistinct(grid, clusters);
      NoCollisionNone(grid, clusters);
    } else {
      var nodes := clusters[n - 1];
      DistinctIffNoCollision(grid, clusters, n - 1);
      DistinctTable(PrepareEvents(grid, clusters, n - 1), true, n - 1, nodes, |nodes| - 1);
      FreeIff(grid, clusters, n);
      NoCollisionNext(grid, clusters, n);
    }
  }

  lemma NoCollisionNone(grid: seq<Slot>, clusters: seq<seq<Slot>>)
    ensures NoCollision(grid, clusters, 0)
  {
  }

  // ----- the lengths of the lists -----

  /** The events of tables 0 to `n - 1` and of node ids 1 to `k` of cluster `n - 1`. */
  function EventsTo(grid: seq<Slot>, clusters: seq<seq<Slot>>, n: nat, k: nat): seq<Event>
    requires IsGrid(grid, clusters) && 0 < n <= |clusters| && IsTable(clusters[n - 1]) && k < |clusters[n - 1]|
  {
    PrepareEvents(grid, clusters, n - 1) + NodeEvents(true, n - 1, clusters[n - 1], k)
  }

  lemma {:induction false} NodeEventsAreSmall(inCluster: bool, clusterId: uint32, nodes: seq<Slot>, k: nat)
    requires IsTable(nodes) && k < |nodes|
    ensures SmallIds(NodeEvents(inCluster, clusterId, nodes, k), IC_MAX_NODE_ID)
    ensures |NodeEvents(inCluster, clusterId, nodes, k)| <= k
  {
    if k > 0 {
      NodeEventsAreSmall(inCluster, clusterId, nodes, k - 1);
    }
  }

  lemma SmallAppend(a: seq<Event>, b: seq<Event>, n: nat)
    requires SmallIds(a, n) && SmallIds(b, n)
    ensures SmallIds(a + b, n)
  {
  }

  lemma {:induction false} PrepareEventsAreSmall(grid: seq<Slot>, clusters: seq<seq<Slot>>, n: nat)
    requires IsGrid(grid, clusters) && n <= |clusters|
    ensures SmallIds(PrepareEvents(grid, clusters, n), IC_MAX_NODE_ID)
  {
    hide *;
    PrepareEventsAre(grid, clusters, n);
    if n == 0 {
      GridEventsAreSmall(grid);
    } else {
      var nodes := clusters[n - 1];
      PrepareEventsAreSmall(grid, clusters, n - 1);
      NodeEventsAreSmall(true, n - 1, nodes, |nodes| - 1);
      SmallAppend(PrepareEvents(grid, clusters, n - 1), NodeEvents(true, n - 1, nodes, |nodes| - 1), IC_MAX_NODE_ID);
    }
  }

  lemma GridEventsAreSmall(grid: seq<Slot>)
    requires IsTable(grid)
    ensures SmallIds(NodeEvents(false, 0, grid, |grid| - 1), IC_MAX_NODE_ID)
  {
    hide NodeEvents, SmallIds;
    NodeEventsAreSmall(false, 0, grid, |grid| - 1);
  }

  /** The grid's own table has no server of a cluster, cluster 0 a data server. */
  lemma FirstTables(grid: seq<Slot>, clusters: seq<seq<Slot>>, s: Server)
    requires IsGrid(grid, clusters) && GenerateCode(grid, clusters) == 0 && InCluster(s)
    ensures Recorded(PrepareEvents(grid, clusters, 0), s) == []
    ensures |clusters| > 0 ==> Recorded(PrepareEvents(grid, clusters, 1), DataServer) != []
  {
    TableCountsServers(false, 0, grid, s);
    CountIsRecorded(PrepareCommands(grid, clusters, 0), s);
    EventsOfPrepares(grid, clusters, 0);
    if |clusters| > 0 {
      assert !LacksData(clusters, |clusters|) && AllServers(clusters[0], DataServer) > 0;
      assert IsTable(clusters[0]);
      TableCountsServers(true, 0, clusters[0], DataServer);
      var before, more := PrepareCommands(grid, clusters, 0), TableCommands(true, 0, clusters[0]);
      assert PrepareCommands(grid, clusters, 1) == before + more;
      hide PrepareCommands, TableCommands, Count, Recorded, EventsOf, PrepareEvents, AllServers;
      CountAppend(before, more, DataServer);
      CountIsRecorded(PrepareCommands(grid, clusters, 1), DataServer);
      EventsOfPrepares(grid, clusters, 1);
    }
  }

  lemma {:induction false} DataServersStay(grid: seq<Slot>, clusters: seq<seq<Slot>>, n: nat)
    requires IsGrid(grid, clusters) && 1 <= n <= |clusters|
    ensures |Recorded(PrepareEvents(grid, clusters, 1), DataServer)|
         <= |Recorded(PrepareEvents(grid, clusters, n), DataServer)|
  {
    hide *;
    if n > 1 {
      DataServersStay(grid, clusters, n - 1);
      PrepareEventsAre(grid, clusters, n);
      var nodes := clusters[n - 1];
      RecordedAppend(PrepareEvents(grid, clusters, n - 1), NodeEvents(true, n - 1, nodes, |nodes| - 1), DataServer);
    }
  }

  /** While node ids are distinct, a table with a node still to come leaves room
      in the lists of file, replication and SQL servers. */
  lemma RoomInTable(grid: seq<Slot>, clusters: seq<seq<Slot>>, n: nat, k: nat, s: Server)
    requires IsGrid(grid, clusters) && GenerateCode(grid, clusters) == 0
    requires 0 < n <= |clusters| && IsTable(clusters[n - 1]) && k + 1 < |clusters[n - 1]|
    requires InCluster(s) && s != DataServer && Distinct(EventsTo(grid, clusters, n, k))
    ensures |Recorded(EventsTo(grid, clusters, n, k), s)| < IC_MAX_NODE_ID
  {
    hide *;
    var nodes := clusters[n - 1];
    TableSizes(grid, clusters, n, k);
    var before, more := PrepareEvents(grid, clusters, n - 1), NodeEvents(true, n - 1, nodes, k);
    FirstTables(grid, clusters, s);
    EventsToAre(grid, clusters, n, k);
    NodeEventsAreSmall(true, n - 1, nodes, k);
    RecordedAppend(before, more, s);
    RecordedFrom(more, IC_MAX_NODE_ID, s);
    if n > 1 {
      PrepareEventsAreSmall(grid, clusters, n - 1);
      SmallAppend(before, more, IC_MAX_NODE_ID);
      DataServersStay(grid, clusters, n - 1);
      RecordedAppend(before, more, DataServer);
      OneIdLess(EventsTo(grid, clusters, n, k), IC_MAX_NODE_ID, s);
    }
  }

  lemma TableSizes(grid: seq<Slot>, clusters: seq<seq<Slot>>, n: nat, k: nat)
    requires IsGrid(grid, clusters) && 0 < n <= |clusters| && IsTable(clusters[n - 1]) && k + 1 < |clusters[n - 1]|
    ensures n - 1 < TWO_TO_32 && k < IC_MAX_NODE_ID
  {
  }

  lemma EventsToAre(grid: seq<Slot>, clusters: seq<seq<Slot>>, n: nat, k: nat)
    requires IsGrid(grid, clusters) && 0 < n <= |clusters| && IsTable(clusters[n - 1]) && k < |clusters[n - 1]|
    ensures n - 1 < TWO_TO_32
    ensures EventsTo(grid, clusters, n, k) ==
              PrepareEvents(grid, clusters, n - 1) + NodeEvents(true, n - 1, clusters[n - 1], k)
  {
  }

  /** The data servers of the first `n` clusters. */
  function DataServers(clusters: seq<seq<Slot>>, n: nat): nat
    requires n <= |clusters|
  {
    if n == 0 then 0 else DataServers(clusters, n - 1) + AllServers(clusters[n - 1], DataServer)
  }

  lemma DataServersNext(clusters: seq<seq<Slot>>, n: nat)
    requires n <= |clusters|
    ensures InCluster(DataServer)
    ensures DataServers(clusters, n) ==
              if n == 0 then 0 else DataServers(clusters, n - 1) + AllServers(clusters[n - 1], DataServer)
  {
  }

  lemma {:induction false} DataServersGrow(clusters: seq<seq<Slot>>, n: nat, m: nat)
    requires n <= m <= |clusters|
    ensures DataServers(clusters, n) <= DataServers(clusters, m)
  {
    if n < m {
      DataServersGrow(clusters, n, m - 1);
    }
  }

  lemma {:induction false} ServersGrow(nodes: seq<Slot>, s: Server, k: nat, m: nat)
    requires k <= m < |nodes|
    ensures Servers(nodes, s, k) <= Servers(nodes, s, m)
  {
    if k < m {
      ServersGrow(nodes, s, k, m - 1);
    }
  }

  lemma AllServersAre(nodes: seq<Slot>, s: Server)
    requires IsTable(nodes)
    ensures |nodes| > 0 && AllServers(nodes, s) == Servers(nodes, s, |nodes| - 1) && InCluster(DataServer)
  {
    hide Servers;
  }

  lemma NodeDataServers(clusterId: uint32, nodes: seq<Slot>, k: nat)
    requires IsTable(nodes) && k < |nodes|
    ensures |Recorded(NodeEvents(true, clusterId, nodes, k), DataServer)| <= AllServers(nodes, DataServer)
    ensures k == |nodes| - 1 ==>
              |Recorded(NodeEvents(true, clusterId, nodes, k), DataServer)| == AllServers(nodes, DataServer)
  {
    hide *;
    AllServersAre(nodes, DataServer);
    CommandsCountServers(true, clusterId, nodes, k, DataServer);
    ServersGrow(nodes, DataServer, k, |nodes| - 1);
    CountIsRecorded(NodeCommands(true, clusterId, nodes, k), DataServer);
    NodeEventsOfCommands(true, clusterId, nodes, k);
  }

  lemma {:induction false} TableDataServers(grid: seq<Slot>, clusters: seq<seq<Slot>>, n: nat)
    requires IsGrid(grid, clusters) && GenerateCode(grid, clusters) == 0 && n <= |clusters|
    ensures |Recorded(PrepareEvents(grid, clusters, n), DataServer)| == DataServers(clusters, n)
  {
    hide *;
    DataServersNext(clusters, n);
    if n == 0 {
      FirstTables(grid, clusters, DataServer);
    } else {
      TableDataServers(grid, clusters, n - 1);
      PrepareEventsAre(grid, clusters, n);
      var nodes := clusters[n - 1];
      RecordedAppend(PrepareEvents(grid, clusters, n - 1), NodeEvents(true, n - 1, nodes, |nodes| - 1), DataServer);
      NodeDataServers(n - 1, nodes, |nodes| - 1);
    }
  }

  /** No list of data servers on the way is longer than the last. */
  lemma DataServersOnTheWay(grid: seq<Slot>, clusters: seq<seq<Slot>>, n: nat, k: nat)
    requires IsGrid(grid, clusters) && GenerateCode(grid, clusters) == 0
    requires 0 < n <= |clusters| && IsTable(clusters[n - 1]) && k < |clusters[n - 1]|
    ensures |Recorded(EventsTo(grid, clusters, n, k), DataServer)| <= DataServers(clusters, |clusters|)
  {
    hide *;
    DataServersNext(clusters, n);
    EventsToAre(grid, clusters, n, k);
    TableDataServers(grid, clusters, n - 1);
    RecordedAppend(PrepareEvents(grid, clusters, n - 1), NodeEvents(true, n - 1, clusters[n - 1], k), DataServer);
    NodeDataServers(n - 1, clusters[n - 1], k);
    DataServersGrow(clusters, n, |clusters|);
  }

  lemma EventsToNext(grid: seq<Slot>, clusters: seq<seq<Slot>>, n: nat, k: nat)
    requires IsGrid(grid, clusters) && 0 < n <= |clusters| && IsTable(clusters[n - 1]) && k < |clusters[n - 1]|
    ensures n - 1 < TWO_TO_32 && k < TWO_TO_32
    ensures EventsTo(grid, clusters, n, k) ==
              if k == 0 then PrepareEvents(grid, clusters, n - 1)
              else if Holds(clusters[n - 1], true, k)
              then EventsTo(grid, clusters, n, k - 1) + [EventAt(clusters[n - 1], n - 1, k)]
              else EventsTo(grid, clusters, n, k - 1)
  {
    hide PrepareEvents, Holds, EventAt;
    NodeEventsNext(true, n - 1, clusters[n - 1], k);
    hide NodeEvents;
    var before := PrepareEvents(grid, clusters, n - 1);
    assert before + [] == before;
  }

  lemma {:induction false} TableKeepsRoom(grid: seq<Slot>, clusters: seq<seq<Slot>>, n: nat, k: nat)
    requires IsGrid(grid, clusters) && GenerateCode(grid, clusters) == 0
    requires DataServers(clusters, |clusters|) <= Limit(DataServer)
    requires 0 < n <= |clusters| && IsTable(clusters[n - 1]) && k < |clusters[n - 1]|
    requires RoomWhileDistinct(PrepareEvents(grid, clusters, n - 1))
    ensures RoomWhileDistinct(EventsTo(grid, clusters, n, k))
  {
    hide *;
    EventsToNext(grid, clusters, n, k);
    if k > 0 {
      TableKeepsRoom(grid, clusters, n, k - 1);
      if Holds(clusters[n - 1], true, k) {
        RoomForNode(grid, clusters, n, k);
        RoomWhileDistinctSnoc(EventsTo(grid, clusters, n, k - 1), EventAt(clusters[n - 1], n - 1, k));
      }
    }
  }

  lemma RoomForNode(grid: seq<Slot>, clusters: seq<seq<Slot>>, n: nat, k: nat)
    requires IsGrid(grid, clusters) && GenerateCode(grid, clusters) == 0
    requires DataServers(clusters, |clusters|) <= Limit(DataServer)
    requires 0 < n <= |clusters| && IsTable(clusters[n - 1]) && 0 < k < |clusters[n - 1]|
    requires Holds(clusters[n - 1], true, k)
    ensures n - 1 < TWO_TO_32 && k < TWO_TO_32 && clusters[n - 1][k].Node?
    ensures Distinct(EventsTo(grid, clusters, n, k - 1)) ==>
              RoomAfter(EventsTo(grid, clusters, n, k - 1), EventAt(clusters[n - 1], n - 1, k).server)
  {
    hide *;
    HeldServer(grid, clusters, n, k);
    EventsToNext(grid, clusters, n, k);
    var before, s := EventsTo(grid, clusters, n, k - 1), EventAt(clusters[n - 1], n - 1, k).server;
    if s == DataServer {
      DataServersOnTheWay(grid, clusters, n, k);
      RecordedSnoc(before, EventAt(clusters[n - 1], n - 1, k), DataServer);
      RoomIs(before, DataServer);
    } else if Distinct(before) {
      RoomInTable(grid, clusters, n, k - 1, s);
      RoomIs(before, s);
    }
  }

  lemma HeldServer(grid: seq<Slot>, clusters: seq<seq<Slot>>, n: nat, k: nat)
    requires IsGrid(grid, clusters) && 0 < n <= |clusters| && IsTable(clusters[n - 1])
    requires k < |clusters[n - 1]| && Holds(clusters[n - 1], true, k)
    ensures n - 1 < TWO_TO_32 && k < TWO_TO_32 && clusters[n - 1][k].Node?
    ensures InCluster(EventAt(clusters[n - 1], n - 1, k).server)
  {
  }

  lemma RoomIs(events: seq<Event>, s: Server)
    requires InCluster(s)
    requires s == DataServer ==> |Recorded(events, s)| < Limit(DataServer)
    requires s != DataServer ==> |Recorded(events, s)| < IC_MAX_NODE_ID
    ensures RoomAfter(events, s)
  {
    hide Recorded;
  }

  lemma {:induction false} GridEventsHaveRoom(grid: seq<Slot>, k: nat)
    requires IsTable(grid) && k < |grid|
    ensures RoomWhileDistinct(NodeEvents(false, 0, grid, k))
  {
    hide *;
    GridNode(grid, k);
    NodeEventsNext(false, 0, grid, k);
    if k > 0 {
      GridEventsHaveRoom(grid, k - 1);
      var before := NodeEvents(false, 0, grid, k - 1);
      if Holds(grid, false, k) {
        RoomWhileDistinctSnoc(before, EventAt(grid, 0, k));
        GridNeedsNoRoom(before, EventAt(grid, 0, k).server);
      } else {
        assert before + [] == before;
      }
    } else {
      NoEventsHaveRoom();
    }
  }

  lemma GridNode(grid: seq<Slot>, k: nat)
    requires IsTable(grid) && k < |grid|
    ensures 0 < TWO_TO_32 && k < TWO_TO_32
    ensures Holds(grid, false, k) ==> grid[k].Node? && !InCluster(EventAt(grid, 0, k).server)
  {
  }

  lemma GridNeedsNoRoom(events: seq<Event>, s: Server)
    requires !InCluster(s)
    ensures RoomAfter(events, s)
  {
  }

  lemma NoEventsHaveRoom()
    ensures RoomWhileDistinct([])
  {
  }

  /** In a generated file no list is full before a clash, but for that of data
      servers. */
  lemma {:induction false} GeneratedHaveRoom(grid: seq<Slot>, clusters: seq<seq<Slot>>, n: nat)
    requires IsGrid(grid, clusters) && GenerateCode(grid, clusters) == 0 && n <= |clusters|
    requires DataServers(clusters, |clusters|) <= Limit(DataServer)
    ensures RoomWhileDistinct(PrepareEvents(grid, clusters, n))
  {
    hide *;
    PrepareEventsAre(grid, clusters, n);
    if n == 0 {
      GridEventsHaveRoom(grid, |grid| - 1);
    } else {
      var nodes := clusters[n - 1];
      GeneratedHaveRoom(grid, clusters, n - 1);
      TableKeepsRoom(grid, clusters, n, |nodes| - 1);
      EventsToAre(grid, clusters, n, |nodes| - 1);
    }
  }

  // ----- the whole pipeline -----

  lemma GeneratedIsExecuted(table: SymbolTable, grid: seq<Slot>, clusters: seq<seq<Slot>>)
    requires Perfect(BootSymbols(), table) && IsGrid(grid, clusters) && GoodGrid(table, grid, clusters)
    requires AllFit(PrepareCommands(grid, clusters, |clusters|))
    ensures var commands := GeneratedCommands(grid, clusters);
            var texts := SplitRun(FileText(commands)).commands;
            && AllReadAs(table, texts, commands) && AllTerminated(texts)
            && ActionsOf(table, texts) == AllExecuted(EventsOf(commands))
  {
    GeneratedFileRoundTrip(table, grid, clusters);
    var commands := GeneratedCommands(grid, clusters);
    var texts := SplitRun(FileText(commands)).commands;
    NoExit(grid, clusters);
    hide GeneratedCommands, PrepareCommands, SplitRun, FileText, ReadBack, IsGrid, Perfect, AllFit, GoodGrid;
    forall i | 0 <= i < |texts| ensures ReadBack(table, texts[i]) == Some(commands[i]) {
      assert ReadFile(table, FileText(commands))[i] == Some(commands[i]);
    }
    ReadBackIsExecuted(table, texts, commands);
  }

  /** For every configuration the generator accepts: the generated file is read
      back as the generated commands, every one is executed, and preparing their
      servers raises the exit flag exactly when two tables use a node id other
      than for data servers, provided the data servers fit their list. */
  lemma BootstrapOfGeneratedFile(table: SymbolTable, world: World, grid: seq<Slot>, clusters: seq<seq<Slot>>)
    requires Perfect(BootSymbols(), table) && IsGrid(grid, clusters) && GoodGrid(table, grid, clusters)
    requires AllFit(PrepareCommands(grid, clusters, |clusters|)) && GenerateCode(grid, clusters) == 0
    ensures var commands := GeneratedCommands(grid, clusters);
            var read := ReadFile(table, FileText(commands));
            var texts := SplitRun(FileText(commands)).commands;
            && |read| == |commands| && (forall i :: 0 <= i < |commands| ==> read[i] == Some(commands[i]))
            && AllTerminated(texts) && ActionsOf(table, texts) == AllExecuted(EventsOf(commands))
            && (DataServers(clusters, |clusters|) <= Limit(DataServer) ==>
                  (!NodeRuns.Run(world, ActionsOf(table, texts)).exited <==>
                     NoCollision(grid, clusters, |clusters|)))
  {
    GeneratedFileRoundTrip(table, grid, clusters);
    hide *;
    GeneratedIsExecuted(table, grid, clusters);
    GeneratedEvents(grid, clusters);
    EventsOfPrepares(grid, clusters, |clusters|);
    if DataServers(clusters, |clusters|) <= Limit(DataServer) {
      GeneratedAreFew(grid, clusters);
      DistinctIffNoCollision(grid, clusters, |clusters|);
      GeneratedHaveRoom(grid, clusters, |clusters|);
      ExecutedFlagIff(world, EventsOf(GeneratedCommands(grid, clusters)));
    }
  }
}
