/** generate_bootstrap_file: a bootstrap file for a configuration. */
module BootGenerate {
  import opened Basics
  import opened Decimals
  import opened Symbols
  import opened BootLex
  import opened BootCommands
  import opened BootGrammar
  import opened BootPrint
  import opened BootHosts
  import opened BootSplit
  import opened BootFile

  const IC_MAX_CLUSTER_SERVERS: nat := 4
  const IC_MAX_CLUSTER_MANAGERS: nat := 4
  const IC_MAX_NODE_ID: nat := 255
  const IC_MAX_CLUSTER_ID: nat := 255

  const IC_ERROR_CONFIGURATION_ERROR: int := 7118
  const IC_ERROR_TOO_MANY_CS_HOSTS: int := 7057
  const IC_ERROR_TOO_MANY_CLUSTER_MANAGERS: int := 7120

  /** An entry of a node table: nothing, a node of no interest here, or a server. */
  datatype Slot = Empty | Other | Node(server: Server, host: string, pcntrlHost: string, pcntrlPort: uint32)

  /** Node tables are indexed by node id; entry 0 is not used. */
  predicate IsTable(nodes: seq<Slot>) {
    1 <= |nodes| <= IC_MAX_NODE_ID + 1
  }

  predicate IsGrid(grid: seq<Slot>, clusters: seq<seq<Slot>>) {
    IsTable(grid) && |clusters| <= IC_MAX_CLUSTER_ID + 1 && forall i :: 0 <= i < |clusters| ==> IsTable(clusters[i])
  }

  // ----- the commands of a configuration -----

  /** The grid's table holds servers of no cluster, the others servers of one. */
  function CommandOf(inCluster: bool, clusterId: uint32, slot: Slot, nodeId: uint32): seq<Command> {
    if slot.Node? && InCluster(slot.server) == inCluster
    then [Prepare(slot.server, slot.host, slot.pcntrlHost, slot.pcntrlPort, clusterId, nodeId)]
    else []
  }

  /** The commands for node ids 1 to `k`. */
  function NodeCommands(inCluster: bool, clusterId: uint32, nodes: seq<Slot>, k: nat): seq<Command>
    requires k < |nodes| && IsTable(nodes)
  {
    if k == 0 then []
    else NodeCommands(inCluster, clusterId, nodes, k - 1) + CommandOf(inCluster, clusterId, nodes[k], k)
  }

  function TableCommands(inCluster: bool, clusterId: uint32, nodes: seq<Slot>): seq<Command>
    requires IsTable(nodes)
  {
    NodeCommands(inCluster, clusterId, nodes, |nodes| - 1)
  }

  /** The PREPARE commands of the grid and its first `n` clusters. */
  function PrepareCommands(grid: seq<Slot>, clusters: seq<seq<Slot>>, n: nat): seq<Command>
    requires IsGrid(grid, clusters) && n <= |clusters|
  {
    if n == 0 then TableCommands(false, 0, grid)
    else PrepareCommands(grid, clusters, n - 1) + TableCommands(true, n - 1, clusters[n - 1])
  }

  function Count(commands: seq<Command>, server: Server): nat {
    if commands == [] then 0
    else
      var last := commands[|commands| - 1];
      Count(commands[..|commands| - 1], server) + if last.Prepare? && last.server == server then 1 else 0
  }

  function StartIf(commands: seq<Command>, server: Server): seq<Command> {
    if Count(commands, server) > 0 then [Start(server)] else []
  }

  const ALWAYS: seq<Command> := [SendFiles, Start(ClusterServer), Start(ClusterManager), Start(DataServer)]

  /** The commands behind the PREPAREs. */
  function FinalCommands(prepares: seq<Command>): seq<Command> {
    ALWAYS + StartIf(prepares, ReplicationServer) + StartIf(prepares, FileServer) + StartIf(prepares, SqlServer)
  }

  function GeneratedCommands(grid: seq<Slot>, clusters: seq<seq<Slot>>): seq<Command>
    requires IsGrid(grid, clusters)
  {
    var prepares := PrepareCommands(grid, clusters, |clusters|);
    prepares + FinalCommands(prepares)
  }

  // ----- which configurations are accepted -----

  /** The number of servers of a kind among node ids 1 to `k`. */
  function Servers(nodes: seq<Slot>, server: Server, k: nat): nat
    requires k < |nodes|
  {
    if k == 0 then 0
    else Servers(nodes, server, k - 1) + if nodes[k].Node? && nodes[k].server == server then 1 else 0
  }

  function AllServers(nodes: seq<Slot>, server: Server): nat {
    if nodes == [] then 0 else Servers(nodes, server, |nodes| - 1)
  }

  ghost predicate LacksData(clusters: seq<seq<Slot>>, n: nat)
    requires n <= |clusters|
  {
    exists i :: 0 <= i < n && AllServers(clusters[i], DataServer) == 0
  }

  ghost function GenerateCode(grid: seq<Slot>, clusters: seq<seq<Slot>>): int
    requires IsGrid(grid, clusters)
  {
    var cs := AllServers(grid, ClusterServer);
    var cm := AllServers(grid, ClusterManager);
    if LacksData(clusters, |clusters|) || cs == 0 || cm == 0 then IC_ERROR_CONFIGURATION_ERROR
    else if cs > IC_MAX_CLUSTER_SERVERS then IC_ERROR_TOO_MANY_CS_HOSTS
    else if cm > IC_MAX_CLUSTER_MANAGERS then IC_ERROR_TOO_MANY_CLUSTER_MANAGERS
    else 0
  }

  lemma CountSnoc(commands: seq<Command>, c: Command, server: Server)
    ensures Count(commands + [c], server) == Count(commands, server) + if c.Prepare? && c.server == server then 1 else 0
  {
    assert (commands + [c])[..|commands|] == commands;
  }

  lemma {:induction false} CountAppend(a: seq<Command>, b: seq<Command>, server: Server)
    ensures Count(a + b, server) == Count(a, server) + Count(b, server)
  {
    if b == [] {
      assert a + b == a;
    } else {
      var u, c := b[..|b| - 1], b[|b| - 1];
      assert b == u + [c] && a + b == a + u + [c];
      CountAppend(a, u, server);
      CountSnoc(a + u, c, server);
      CountSnoc(u, c, server);
    }
  }

  /** One command for each server that belongs to the table. */
  lemma {:induction false} CommandsCountServers(inCluster: bool, clusterId: uint32, nodes: seq<Slot>, k: nat,
                                                server: Server)
    requires IsTable(nodes) && k < |nodes|
    ensures Count(NodeCommands(inCluster, clusterId, nodes, k), server) ==
              if InCluster(server) == inCluster then Servers(nodes, server, k) else 0
  {
    hide *;
    ServersNext(inCluster, clusterId, nodes, k, server);
    if k == 0 {
      NodeCommandsNone(inCluster, clusterId, nodes);
      CountNone();
    } else {
      CommandsCountServers(inCluster, clusterId, nodes, k - 1, server);
      NodeCommandsNext(inCluster, clusterId, nodes, k, []);
      CountAppend(NodeCommands(inCluster, clusterId, nodes, k - 1), CommandOf(inCluster, clusterId, nodes[k], k),
          server);
    }
  }

  /** What one node adds on both sides. */
  lemma ServersNext(inCluster: bool, clusterId: uint32, nodes: seq<Slot>, k: nat, server: Server)
    requires IsTable(nodes) && k < |nodes|
    ensures k < TWO_TO_32 && (k == 0 ==> Servers(nodes, server, k) == 0)
    ensures k > 0 && InCluster(server) == inCluster ==>
              Servers(nodes, server, k) == Servers(nodes, server, k - 1) +
                  Count(CommandOf(inCluster, clusterId, nodes[k], k), server)
    ensures k > 0 && InCluster(server) != inCluster ==> Count(CommandOf(inCluster, clusterId, nodes[k], k), server) == 0
  {
    if k > 0 {
      OneCommand(inCluster, clusterId, nodes[k], k, server);
    }
    hide Count, CommandOf;
  }

  lemma OneCommand(inCluster: bool, clusterId: uint32, slot: Slot, nodeId: uint32, server: Server)
    ensures Count(CommandOf(inCluster, clusterId, slot, nodeId), server) ==
              if slot.Node? && InCluster(slot.server) == inCluster && slot.server == server then 1 else 0
  {
    hide InCluster;
    var more := CommandOf(inCluster, clusterId, slot, nodeId);
    if more != [] {
      CountSnoc([], more[0], server);
      assert [] + [more[0]] == more;
    }
  }

  lemma TableCountsServers(inCluster: bool, clusterId: uint32, nodes: seq<Slot>, server: Server)
    requires IsTable(nodes)
    ensures Count(TableCommands(inCluster, clusterId, nodes), server) ==
              if InCluster(server) == inCluster then AllServers(nodes, server) else 0
  {
    hide Count, NodeCommands, Servers, InCluster;
    CommandsCountServers(inCluster, clusterId, nodes, |nodes| - 1, server);
  }

  /** Clusters add nothing to the count of servers of the grid. */
  lemma {:induction false} GridServersCounted(grid: seq<Slot>, clusters: seq<seq<Slot>>, n: nat, server: Server)
    requires IsGrid(grid, clusters) && n <= |clusters| && !InCluster(server)
    ensures Count(PrepareCommands(grid, clusters, n), server) == AllServers(grid, server)
  {
    hide Count, TableCommands, AllServers;
    if n == 0 {
      TableCountsServers(false, 0, grid, server);
    } else {
      GridServersCounted(grid, clusters, n - 1, server);
      assert IsTable(clusters[n - 1]);
      TableCountsServers(true, n - 1, clusters[n - 1], server);
      CountAppend(PrepareCommands(grid, clusters, n - 1), TableCommands(true, n - 1, clusters[n - 1]), server);
    }
  }

  // ----- the generator's loops -----

  /** The six counters. */
  datatype Tally = Tally(cs: nat, cm: nat, ds: nat, fs: nat, rep: nat, sql: nat) {
    function Of(server: Server): nat {
      match server
      case ClusterServer => cs
      case ClusterManager => cm
      case DataServer => ds
      case FileServer => fs
      case ReplicationServer => rep
      case SqlServer => sql
    }

    function Add(server: Server): (t: Tally)
      ensures forall s :: t.Of(s) == Of(s) + if s == server then 1 else 0
    {
      match server
      case ClusterServer => this.(cs := cs + 1)
      case ClusterManager => this.(cm := cm + 1)
      case DataServer => this.(ds := ds + 1)
      case FileServer => this.(fs := fs + 1)
      case ReplicationServer => this.(rep := rep + 1)
      case SqlServer => this.(sql := sql + 1)
    }
  }

  ghost predicate Counts(tally: Tally, start: Tally, commands: seq<Command>) {
    forall s :: tally.Of(s) == start.Of(s) + Count(commands, s)
  }

  lemma CountsCompose(last: Tally, middle: Tally, start: Tally, a: seq<Command>, b: seq<Command>)
    requires Counts(middle, start, a) && Counts(last, middle, b)
    ensures Counts(last, start, a + b)
  {
    hide Count, Tally.Of;
    forall s ensures last.Of(s) == start.Of(s) + Count(a + b, s) {
      CountAppend(a, b, s);
      assert middle.Of(s) == start.Of(s) + Count(a, s) && last.Of(s) == middle.Of(s) + Count(b, s);
    }
  }

  /** Print the command of one node, if it is a server that belongs to the table. */
  method WriteNode(inCluster: bool, clusterId: uint32, slot: Slot, nodeId: uint32, file: string, start: Tally,
                   ghost before: seq<Command>)
      returns (text: string, tally: Tally)
    requires file == FileText(before)
    requires AllFit(CommandOf(inCluster, clusterId, slot, nodeId))
    ensures text == FileText(before + CommandOf(inCluster, clusterId, slot, nodeId))
    ensures Counts(tally, start, CommandOf(inCluster, clusterId, slot, nodeId))
  {
    text, tally := file, start;
    hide FileText, Text, InCluster;
    if slot.Node? && InCluster(slot.server) == inCluster {
      var c := Prepare(slot.server, slot.host, slot.pcntrlHost, slot.pcntrlPort, clusterId, nodeId);
      text := text + (Text(c) + ['\n']);
      tally := tally.Add(slot.server);
      FileSnoc(before, c);
      forall s ensures Count([c], s) == if s == slot.server then 1 else 0 {
        CountSnoc([], c, s);
        assert [] + [c] == [c];
      }
    } else {
      assert before + [] == before;
    }
  }

  /** The file and the counters after node ids 1 to `k`. */
  ghost predicate Written(inCluster: bool, clusterId: uint32, nodes: seq<Slot>, k: int, text: string, tally: Tally,
                          start: Tally, before: seq<Command>)
    requires IsTable(nodes) && 0 <= k < |nodes|
  {
    && text == FileText(before + NodeCommands(inCluster, clusterId, nodes, k))
    && Counts(tally, start, NodeCommands(inCluster, clusterId, nodes, k))
  }

  method WriteNext(inCluster: bool, clusterId: uint32, nodes: seq<Slot>, nodeId: nat, file: string, middle: Tally,
                   ghost start: Tally, ghost before: seq<Command>)
      returns (text: string, tally: Tally)
    requires IsTable(nodes) && 0 < nodeId < |nodes|
    requires Written(inCluster, clusterId, nodes, nodeId - 1, file, middle, start, before)
    requires AllFit(TableCommands(inCluster, clusterId, nodes))
    ensures Written(inCluster, clusterId, nodes, nodeId, text, tally, start, before)
  {
    ghost var done, more := NodeCommands(inCluster, clusterId, nodes, nodeId - 1),
        CommandOf(inCluster, clusterId, nodes[nodeId], nodeId);
    NodeFits(inCluster, clusterId, nodes, nodeId);
    hide FileText, NodeCommands, Counts, CommandOf, AllFit;
    text, tally := WriteNode(inCluster, clusterId, nodes[nodeId], nodeId, file, middle, before + done);
    CountsCompose(tally, middle, start, done, more);
    NodeCommandsNext(inCluster, clusterId, nodes, nodeId, before);
  }

  /** Print the commands of one table behind what the file already holds. */
  method WriteTable(inCluster: bool, clusterId: uint32, nodes: seq<Slot>, file: string, start: Tally,
                    ghost before: seq<Command>)
      returns (text: string, tally: Tally)
    requires IsTable(nodes) && file == FileText(before)
    requires AllFit(TableCommands(inCluster, clusterId, nodes))
    ensures text == FileText(before + TableCommands(inCluster, clusterId, nodes))
    ensures Counts(tally, start, TableCommands(inCluster, clusterId, nodes))
  {
    hide *;
    text, tally := file, start;
    NothingWritten(inCluster, clusterId, nodes, text, tally, before);
    for nodeId: nat := 1 to |nodes|
      invariant Written(inCluster, clusterId, nodes, nodeId - 1, text, tally, start, before)
    {
      text, tally := WriteNext(inCluster, clusterId, nodes, nodeId, text, tally, start, before);
    }
    AllWritten(inCluster, clusterId, nodes, text, tally, start, before);
  }

  lemma NothingWritten(inCluster: bool, clusterId: uint32, nodes: seq<Slot>, text: string, tally: Tally,
                       before: seq<Command>)
    requires IsTable(nodes) && text == FileText(before)
    ensures |nodes| >= 1 && Written(inCluster, clusterId, nodes, 0, text, tally, tally, before)
  {
    NodeCommandsNone(inCluster, clusterId, nodes);
    CountsNone(tally);
    hide FileText, Counts, NodeCommands;
    assert before + [] == before;
  }

  lemma AllWritten(inCluster: bool, clusterId: uint32, nodes: seq<Slot>, text: string, tally: Tally, start: Tally,
                   before: seq<Command>)
    requires IsTable(nodes) && Written(inCluster, clusterId, nodes, |nodes| - 1, text, tally, start, before)
    ensures text == FileText(before + TableCommands(inCluster, clusterId, nodes))
    ensures Counts(tally, start, TableCommands(inCluster, clusterId, nodes))
  {
    hide FileText, Counts, NodeCommands;
  }

  lemma NodeCommandsNone(inCluster: bool, clusterId: uint32, nodes: seq<Slot>)
    requires IsTable(nodes)
    ensures NodeCommands(inCluster, clusterId, nodes, 0) == []
  {
  }

  lemma NodeCommandsNext(inCluster: bool, clusterId: uint32, nodes: seq<Slot>, k: nat, before: seq<Command>)
    requires IsTable(nodes) && 0 < k < |nodes|
    ensures NodeCommands(inCluster, clusterId, nodes, k) ==
              NodeCommands(inCluster, clusterId, nodes, k - 1) + CommandOf(inCluster, clusterId, nodes[k], k)
    ensures before + NodeCommands(inCluster, clusterId, nodes, k) ==
              before + NodeCommands(inCluster, clusterId, nodes, k - 1) + CommandOf(inCluster, clusterId, nodes[k], k)
  {
    hide CommandOf;
  }

  ghost predicate AllFit(commands: seq<Command>) {
    forall i :: 0 <= i < |commands| ==> Fits(commands[i])
  }

  lemma NodeFits(inCluster: bool, clusterId: uint32, nodes: seq<Slot>, k: nat)
    requires IsTable(nodes) && 0 < k < |nodes| && AllFit(TableCommands(inCluster, clusterId, nodes))
    ensures AllFit(CommandOf(inCluster, clusterId, nodes[k], k))
  {
    hide Fits, CommandOf;
    var whole, part, more := TableCommands(inCluster, clusterId, nodes), NodeCommands(inCluster, clusterId, nodes, k),
        CommandOf(inCluster, clusterId, nodes[k], k);
    NodeCommandsGrow(inCluster, clusterId, nodes, k, |nodes| - 1);
    var n := |part| - |more|;
    assert part == NodeCommands(inCluster, clusterId, nodes, k - 1) + more;
    forall i | 0 <= i < |more| ensures Fits(more[i]) {
      assert more[i] == part[n + i] && part[n + i] == whole[n + i];
    }
  }

  lemma {:induction false} NodeCommandsGrow(inCluster: bool, clusterId: uint32, nodes: seq<Slot>, k: nat, m: nat)
    requires IsTable(nodes) && k <= m < |nodes|
    ensures NodeCommands(inCluster, clusterId, nodes, k) <= NodeCommands(inCluster, clusterId, nodes, m)
  {
    if k < m {
      NodeCommandsGrow(inCluster, clusterId, nodes, k, m - 1);
    }
  }

  lemma CountsNone(start: Tally)
    ensures Counts(start, start, [])
  {
    CountNone();
  }

  lemma CountNone()
    ensures forall s :: Count([], s) == 0
  {
  }

  /** The file and the counters after the grid and `n` clusters; the counter of
      data servers starts again for each cluster. */
  ghost predicate Prefixed(grid: seq<Slot>, clusters: seq<seq<Slot>>, n: nat, text: string, tally: Tally)
    requires IsGrid(grid, clusters) && n <= |clusters|
  {
    && text == FileText(PrepareCommands(grid, clusters, n)) && tally.ds == 0
    && forall s :: s != DataServer ==> tally.Of(s) == Count(PrepareCommands(grid, clusters, n), s)
  }

  lemma {:induction false} PreparesGrow(grid: seq<Slot>, clusters: seq<seq<Slot>>, n: nat, m: nat)
    requires IsGrid(grid, clusters) && n <= m <= |clusters|
    ensures PrepareCommands(grid, clusters, n) <= PrepareCommands(grid, clusters, m)
  {
    if n < m {
      PreparesGrow(grid, clusters, n, m - 1);
    }
  }

  lemma TableFits(grid: seq<Slot>, clusters: seq<seq<Slot>>, n: nat)
    requires IsGrid(grid, clusters) && AllFit(PrepareCommands(grid, clusters, |clusters|)) && n <= |clusters|
    ensures AllFit(if n == 0 then TableCommands(false, 0, grid) else TableCommands(true, n - 1, clusters[n - 1]))
  {
    hide Fits, TableCommands;
    var whole, part := PrepareCommands(grid, clusters, |clusters|), PrepareCommands(grid, clusters, n);
    var table := if n == 0 then TableCommands(false, 0, grid) else TableCommands(true, n - 1, clusters[n - 1]);
    PreparesGrow(grid, clusters, n, |clusters|);
    var k := |part| - |table|;
    forall i | 0 <= i < |table| ensures Fits(table[i]) {
      assert table[i] == part[k + i] && part[k + i] == whole[k + i];
    }
  }

  method WriteGrid(grid: seq<Slot>, ghost clusters: seq<seq<Slot>>) returns (text: string, tally: Tally)
    requires IsGrid(grid, clusters) && AllFit(PrepareCommands(grid, clusters, |clusters|))
    ensures Prefixed(grid, clusters, 0, text, tally)
  {
    hide FileText, TableCommands, PrepareCommands, AllFit, Counts, Prefixed, IsGrid;
    TableFits(grid, clusters, 0);
    GridReady(grid, clusters);
    text, tally := WriteTable(false, 0, grid, "", Tally(0, 0, 0, 0, 0, 0), []);
    GridPrefixed(grid, clusters, text, tally);
  }

  lemma GridReady(grid: seq<Slot>, clusters: seq<seq<Slot>>)
    requires IsGrid(grid, clusters)
    ensures IsTable(grid) && FileText([]) == ""
  {
  }

  lemma GridPrefixed(grid: seq<Slot>, clusters: seq<seq<Slot>>, text: string, tally: Tally)
    requires IsGrid(grid, clusters) && IsTable(grid) && text == FileText([] + TableCommands(false, 0, grid))
    requires Counts(tally, Tally(0, 0, 0, 0, 0, 0), TableCommands(false, 0, grid))
    ensures Prefixed(grid, clusters, 0, text, tally)
  {
    TableCountsServers(false, 0, grid, DataServer);
    var commands := TableCommands(false, 0, grid);
    assert PrepareCommands(grid, clusters, 0) == commands;
    hide FileText, TableCommands, Count, PrepareCommands, AllServers;
    assert [] + commands == commands;
    assert tally.ds == tally.Of(DataServer);
  }

  /** One round of the loop over clusters. */
  method WriteCluster(ghost grid: seq<Slot>, clusters: seq<seq<Slot>>, n: nat, file: string, start: Tally)
      returns (ok: bool, text: string, tally: Tally)
    requires IsGrid(grid, clusters) && AllFit(PrepareCommands(grid, clusters, |clusters|))
    requires n < |clusters| && Prefixed(grid, clusters, n, file, start)
    ensures ok <==> AllServers(clusters[n], DataServer) > 0
    ensures ok ==> Prefixed(grid, clusters, n + 1, text, tally)
  {
    hide *;
    ClusterReady(grid, clusters, n, file, start);
    text, tally := WriteTable(true, n, clusters[n], file, start, PrepareCommands(grid, clusters, n));
    NextPrefixed(grid, clusters, n, file, start, text, tally);
    ok := tally.ds != 0;
    tally := tally.(ds := 0);
  }

  lemma ClusterReady(grid: seq<Slot>, clusters: seq<seq<Slot>>, n: nat, file: string, start: Tally)
    requires IsGrid(grid, clusters) && AllFit(PrepareCommands(grid, clusters, |clusters|))
    requires n < |clusters| && Prefixed(grid, clusters, n, file, start)
    ensures n < TWO_TO_32 && IsTable(clusters[n]) && AllFit(TableCommands(true, n, clusters[n]))
    ensures file == FileText(PrepareCommands(grid, clusters, n))
  {
    hide FileText, PrepareCommands, TableCommands, AllFit, Count;
    assert IsTable(clusters[n]);
    TableFits(grid, clusters, n + 1);
  }

  lemma NextPrefixed(grid: seq<Slot>, clusters: seq<seq<Slot>>, n: nat, file: string, start: Tally, text: string,
                     counted: Tally)
    requires IsGrid(grid, clusters) && n < |clusters| && Prefixed(grid, clusters, n, file, start)
    requires IsTable(clusters[n]) && Counts(counted, start, TableCommands(true, n, clusters[n]))
    requires text == FileText(PrepareCommands(grid, clusters, n) + TableCommands(true, n, clusters[n]))
    ensures counted.ds == AllServers(clusters[n], DataServer)
    ensures Prefixed(grid, clusters, n + 1, text, counted.(ds := 0))
  {
    hide *;
    PreparesNext(grid, clusters, n);
    var before, more := PrepareCommands(grid, clusters, n), TableCommands(true, n, clusters[n]);
    PrefixedMeans(grid, clusters, n, file, start);
    TableCountsServers(true, n, clusters[n], DataServer);
    CountsOf(counted, start, more, DataServer);
    TallyReset(counted, DataServer);
    TallyReset(start, DataServer);
    forall s | s != DataServer ensures counted.(ds := 0).Of(s) == Count(before + more, s) {
      TallyReset(counted, s);
      CountsOf(counted, start, more, s);
      CountAppend(before, more, s);
    }
    PrefixedIs(grid, clusters, n + 1, text, counted.(ds := 0));
  }

  lemma PreparesNext(grid: seq<Slot>, clusters: seq<seq<Slot>>, n: nat)
    requires IsGrid(grid, clusters) && n < |clusters|
    ensures n < TWO_TO_32 && IsTable(clusters[n])
    ensures PrepareCommands(grid, clusters, n + 1) ==
              PrepareCommands(grid, clusters, n) + TableCommands(true, n, clusters[n])
  {
    hide TableCommands;
  }

  lemma TallyReset(t: Tally, s: Server)
    ensures if s == DataServer then t.Of(s) == t.ds && InCluster(s) else t.(ds := 0).Of(s) == t.Of(s)
  {
  }

  lemma PrefixedMeans(grid: seq<Slot>, clusters: seq<seq<Slot>>, n: nat, text: string, tally: Tally)
    requires IsGrid(grid, clusters) && n <= |clusters| && Prefixed(grid, clusters, n, text, tally)
    ensures text == FileText(PrepareCommands(grid, clusters, n)) && tally.ds == 0
    ensures forall s :: s != DataServer ==> tally.Of(s) == Count(PrepareCommands(grid, clusters, n), s)
  {
    hide FileText, PrepareCommands, Count, Tally.Of, IsGrid;
  }

  lemma PrefixedIs(grid: seq<Slot>, clusters: seq<seq<Slot>>, n: nat, text: string, tally: Tally)
    requires IsGrid(grid, clusters) && n <= |clusters|
    requires text == FileText(PrepareCommands(grid, clusters, n)) && tally.ds == 0
    requires forall s :: s != DataServer ==> tally.Of(s) == Count(PrepareCommands(grid, clusters, n), s)
    ensures Prefixed(grid, clusters, n, text, tally)
  {
    hide FileText, PrepareCommands, Count, Tally.Of, IsGrid;
  }

  lemma CountsOf(counted: Tally, start: Tally, commands: seq<Command>, s: Server)
    requires Counts(counted, start, commands)
    ensures counted.Of(s) == start.Of(s) + Count(commands, s)
  {
    hide Count;
  }

  method WriteClusters(ghost grid: seq<Slot>, clusters: seq<seq<Slot>>, file: string, start: Tally)
      returns (ok: bool, text: string, tally: Tally)
    requires IsGrid(grid, clusters) && AllFit(PrepareCommands(grid, clusters, |clusters|))
    requires Prefixed(grid, clusters, 0, file, start)
    ensures ok <==> !LacksData(clusters, |clusters|)
    ensures ok ==> Prefixed(grid, clusters, |clusters|, text, tally)
  {
    ok, text, tally := true, file, start;
    var i := 0;
    hide Prefixed, AllServers, IsGrid, PrepareCommands, AllFit;
    while i < |clusters| && ok
      invariant 0 <= i <= |clusters|
      invariant ok <==> !LacksData(clusters, i)
      invariant ok ==> Prefixed(grid, clusters, i, text, tally)
    {
      ok, text, tally := WriteCluster(grid, clusters, i, text, tally);
      i := i + 1;
    }
  }

  method WriteLine(file: string, c: Command, ghost before: seq<Command>) returns (text: string)
    requires file == FileText(before) && Fits(c)
    ensures text == FileText(before + [c])
  {
    text := file + (Text(c) + ['\n']);
    FileSnoc(before, c);
  }

  method WriteStartIf(file: string, count: nat, server: Server, ghost before: seq<Command>,
                      ghost prepares: seq<Command>) returns (text: string)
    requires file == FileText(before) && count == Count(prepares, server)
    ensures text == FileText(before + StartIf(prepares, server))
  {
    text := file;
    hide FileText, Text, Count;
    if count > 0 {
      StartFits(server);
      text := WriteLine(text, Start(server), before);
    } else {
      assert before + [] == before;
    }
  }

  lemma SpellingIsShort(id: nat)
    requires IsKeyword(id)
    ensures |Spelling(id)| <= 11
  {
  }

  lemma StartFits(server: Server)
    ensures Fits(Start(server)) && Fits(SendFiles)
  {
    SpellingIsShort(SEND);
    SpellingIsShort(FILES);
    SpellingIsShort(START);
    SpellingIsShort(KindWord(server));
    SpellingIsShort(RolesWord(server));
    hide Spelling, KindWord, RolesWord;
    RenderTwo(Key(SEND, ' '), Key(FILES, ';'));
    RenderThree(Key(START, ' '), Key(KindWord(server), ' '), Key(RolesWord(server), ';'));
  }

  lemma RenderTwo(a: Piece, b: Piece)
    ensures |Render([a, b])| == |a.word| + |b.word| + 2
  {
    assert [a, b][1..] == [b] && [b][1..] == [];
    assert Render([b]) == b.word + [b.end] + Render([]);
  }

  lemma RenderThree(a: Piece, b: Piece, c: Piece)
    ensures |Render([a, b, c])| == |a.word| + |b.word| + |c.word| + 3
  {
    assert [a, b, c][1..] == [b, c];
    RenderTwo(b, c);
  }

  /** The commands behind the PREPAREs. */
  method WriteFinal(file: string, tally: Tally, ghost prepares: seq<Command>) returns (text: string)
    requires file == FileText(prepares)
    requires tally.rep == Count(prepares, ReplicationServer) && tally.fs == Count(prepares, FileServer)
    requires tally.sql == Count(prepares, SqlServer)
    ensures text == FileText(prepares + FinalCommands(prepares))
  {
    StartFits(ClusterServer);
    StartFits(ClusterManager);
    StartFits(DataServer);
    hide FileText, Fits, Count, StartIf;
    text := WriteLine(file, SendFiles, prepares);
    text := WriteLine(text, Start(ClusterServer), prepares + [SendFiles]);
    text := WriteLine(text, Start(ClusterManager), prepares + [SendFiles] + [Start(ClusterServer)]);
    ghost var three := prepares + [SendFiles] + [Start(ClusterServer)] + [Start(ClusterManager)];
    text := WriteLine(text, Start(DataServer), three);
    ghost var b0 := prepares + ALWAYS;
    assert prepares + [SendFiles] + [Start(ClusterServer)] + [Start(ClusterManager)] + [Start(DataServer)] == b0;
    ghost var r, f, q := StartIf(prepares, ReplicationServer), StartIf(prepares, FileServer),
        StartIf(prepares, SqlServer);
    text := WriteStartIf(text, tally.rep, ReplicationServer, b0, prepares);
    text := WriteStartIf(text, tally.fs, FileServer, b0 + r, prepares);
    text := WriteStartIf(text, tally.sql, SqlServer, b0 + r + f, prepares);
    assert b0 + r + f + q == prepares + FinalCommands(prepares);
  }

  lemma PrefixedCounts(grid: seq<Slot>, clusters: seq<seq<Slot>>, text: string, tally: Tally)
    requires IsGrid(grid, clusters) && Prefixed(grid, clusters, |clusters|, text, tally)
    ensures tally.cs == AllServers(grid, ClusterServer) && tally.cm == AllServers(grid, ClusterManager)
    ensures var prepares := PrepareCommands(grid, clusters, |clusters|);
            && text == FileText(prepares)
            && tally.rep == Count(prepares, ReplicationServer) && tally.fs == Count(prepares, FileServer)
            && tally.sql == Count(prepares, SqlServer)
  {
    GridServersCounted(grid, clusters, |clusters|, ClusterServer);
    GridServersCounted(grid, clusters, |clusters|, ClusterManager);
    hide PrepareCommands, FileText, Count, AllServers, IsGrid;
    assert tally.cs == tally.Of(ClusterServer) && tally.cm == tally.Of(ClusterManager);
    assert tally.rep == tally.Of(ReplicationServer) && tally.fs == tally.Of(FileServer) &&
        tally.sql == tally.Of(SqlServer);
  }

  /** generate_bootstrap_file: which configurations are refused, and the text of
      the file for the others. */
  method GenerateBootstrapFile(grid: seq<Slot>, clusters: seq<seq<Slot>>) returns (code: int, text: string)
    requires IsGrid(grid, clusters) && AllFit(PrepareCommands(grid, clusters, |clusters|))
    ensures code == GenerateCode(grid, clusters)
    ensures code == 0 ==> text == FileText(GeneratedCommands(grid, clusters))
  {
    hide PrepareCommands, FileText, Count, FinalCommands, AllServers, LacksData, AllFit, Prefixed;
    var ok, tally;
    text, tally := WriteGrid(grid, clusters);
    ok, text, tally := WriteClusters(grid, clusters, text, tally);
    if !ok {
      return IC_ERROR_CONFIGURATION_ERROR, "";
    }
    ghost var prepares := PrepareCommands(grid, clusters, |clusters|);
    PrefixedCounts(grid, clusters, text, tally);
    if tally.cs == 0 {
      return IC_ERROR_CONFIGURATION_ERROR, "";
    } else if tally.cm == 0 {
      return IC_ERROR_CONFIGURATION_ERROR, "";
    } else if tally.cs > IC_MAX_CLUSTER_SERVERS {
      return IC_ERROR_TOO_MANY_CS_HOSTS, "";
    } else if tally.cm > IC_MAX_CLUSTER_MANAGERS {
      return IC_ERROR_TOO_MANY_CLUSTER_MANAGERS, "";
    }
    text := WriteFinal(text, tally, prepares);
    code := 0;
  }

  // ----- commands of short host names fit -----

  const IC_MAX_CONFIG_LINE_LEN: nat := 120

  /** A value read from a configuration is shorter than its line. */
  predicate IsShort(h: string) {
    |h| < IC_MAX_CONFIG_LINE_LEN
  }

  lemma NumberIsShort(n: uint32)
    ensures |Decimal(n)| <= 10
  {
    assert PowerOf10(5) == 100000;
    assert PowerOf10(10) == 10000000000;
    DecimalLength(n, 10);
  }

  lemma SettingLength(id: nat, value: string, end: char, later: seq<Piece>)
    requires IsKeyword(id)
    ensures |Render(Setting(id, value, end) + later)| <= 13 + |value| + |Render(later)|
  {
    SpellingIsShort(id);
    hide Spelling;
    RenderTwo(Key(id, '='), Piece(value, end));
    RenderAppend(Setting(id, value, end), later);
  }

  lemma PortLength(c: Command)
    requires c.Prepare?
    ensures |Render(PortPieces(c))| <= 69
  {
    NumberIsShort(c.nodeId);
    NumberIsShort(c.clusterId);
    NumberIsShort(c.pcntrlPort);
    hide Decimal, Setting, Render, PowerOf10;
    SettingLength(NODE_ID, Decimal(c.nodeId), ';', []);
    assert Setting(NODE_ID, Decimal(c.nodeId), ';') + [] == NodePieces(c);
    assert Render([]) == "" by { NothingRendered(); }
    SettingLength(CLUSTER_ID, Decimal(c.clusterId), ' ', NodePieces(c));
    assert [] + NodePieces(c) == NodePieces(c);
    SettingLength(PCNTRL_PORT, Decimal(c.pcntrlPort), ' ', ClusterPieces(c));
  }

  lemma NothingRendered()
    ensures Render([]) == ""
  {
  }

  /** A command with short host names fits the print buffer. */
  lemma ShortHostsFit(c: Command)
    requires c.Prepare? && IsShort(c.host) && IsShort(c.pcntrlHost)
    ensures Fits(c)
  {
    PortLength(c);
    SpellingIsShort(PREPARE);
    SpellingIsShort(KindWord(c.server));
    SpellingIsShort(RoleWord(c.server));
    var keys := [Key(PREPARE, ' '), Key(KindWord(c.server), ' '), Key(RoleWord(c.server), ' ')];
    hide Spelling, Setting, Render, PortPieces, KindWord, RoleWord;
    RenderThree(keys[0], keys[1], keys[2]);
    SettingLength(PCNTRL_HOST, c.pcntrlHost, ' ', PortPieces(c));
    SettingLength(HOST, c.host, ' ', Setting(PCNTRL_HOST, c.pcntrlHost, ' ') + PortPieces(c));
    RenderAppend(keys, HostPieces(c));
  }

  predicate HostsAreShort(nodes: seq<Slot>) {
    forall k :: 1 <= k < |nodes| && nodes[k].Node? ==> IsShort(nodes[k].host) && IsShort(nodes[k].pcntrlHost)
  }

  lemma {:induction false} NodesFit(inCluster: bool, clusterId: uint32, nodes: seq<Slot>, k: nat)
    requires IsTable(nodes) && k < |nodes| && HostsAreShort(nodes)
    ensures AllFit(NodeCommands(inCluster, clusterId, nodes, k))
  {
    hide IsShort, Fits, InCluster;
    if k > 0 {
      NodesFit(inCluster, clusterId, nodes, k - 1);
      var more := CommandOf(inCluster, clusterId, nodes[k], k);
      if more != [] {
        ShortHostsFit(more[0]);
      }
    }
  }

  /** Every command of a configuration as it is read from files fits. */
  lemma {:induction false} ConfigurationFits(grid: seq<Slot>, clusters: seq<seq<Slot>>, n: nat)
    requires IsGrid(grid, clusters) && n <= |clusters|
    requires HostsAreShort(grid) && forall i :: 0 <= i < |clusters| ==> HostsAreShort(clusters[i])
    ensures AllFit(PrepareCommands(grid, clusters, n))
  {
    hide HostsAreShort, NodeCommands, Fits;
    if n == 0 {
      NodesFit(false, 0, grid, |grid| - 1);
    } else {
      ConfigurationFits(grid, clusters, n - 1);
      assert IsTable(clusters[n - 1]);
      NodesFit(true, n - 1, clusters[n - 1], |clusters[n - 1]| - 1);
    }
  }

  // ----- the file is read back as generated -----

  /** The host names of the servers of a table come back as they are. */
  ghost predicate GoodHosts(table: SymbolTable, inCluster: bool, nodes: seq<Slot>)
    requires table.Shaped()
  {
    forall k :: 1 <= k < |nodes| && nodes[k].Node? && InCluster(nodes[k].server) == inCluster ==>
      IsGoodHost(table, nodes[k].host) && IsGoodHost(table, nodes[k].pcntrlHost)
  }

  ghost predicate GoodGrid(table: SymbolTable, grid: seq<Slot>, clusters: seq<seq<Slot>>)
    requires table.Shaped()
  {
    GoodHosts(table, false, grid) && forall i :: 0 <= i < |clusters| ==> GoodHosts(table, true, clusters[i])
  }

  ghost predicate AllPrinted(table: SymbolTable, commands: seq<Command>)
    requires table.Shaped()
  {
    forall i :: 0 <= i < |commands| ==> IsPrinted(table, commands[i])
  }

  lemma {:induction false} NodesArePrinted(table: SymbolTable, inCluster: bool, clusterId: uint32, nodes: seq<Slot>,
                                           k: nat)
    requires table.Shaped() && IsTable(nodes) && k < |nodes| && GoodHosts(table, inCluster, nodes)
    requires !inCluster ==> clusterId == 0
    ensures AllPrinted(table, NodeCommands(inCluster, clusterId, nodes, k))
  {
    hide IsGoodHost;
    if k > 0 {
      NodesArePrinted(table, inCluster, clusterId, nodes, k - 1);
    }
  }

  lemma {:induction false} PreparesArePrinted(table: SymbolTable, grid: seq<Slot>, clusters: seq<seq<Slot>>, n: nat)
    requires table.Shaped() && IsGrid(grid, clusters) && n <= |clusters| && GoodGrid(table, grid, clusters)
    ensures AllPrinted(table, PrepareCommands(grid, clusters, n))
  {
    hide GoodHosts, IsPrinted, NodeCommands;
    if n == 0 {
      NodesArePrinted(table, false, 0, grid, |grid| - 1);
    } else {
      PreparesArePrinted(table, grid, clusters, n - 1);
      assert IsTable(clusters[n - 1]);
      NodesArePrinted(table, true, n - 1, clusters[n - 1], |clusters[n - 1]| - 1);
    }
  }

  lemma FinalIsPrinted(table: SymbolTable, prepares: seq<Command>)
    requires table.Shaped()
    ensures AllPrinted(table, FinalCommands(prepares)) && AllFit(FinalCommands(prepares))
  {
    AlwaysIsPrinted(table);
    StartIfIsPrinted(table, prepares, ReplicationServer);
    StartIfIsPrinted(table, prepares, FileServer);
    StartIfIsPrinted(table, prepares, SqlServer);
    hide AllPrinted, AllFit, StartIf;
    var r, f, q := StartIf(prepares, ReplicationServer), StartIf(prepares, FileServer), StartIf(prepares, SqlServer);
    BothAppend(table, ALWAYS, r);
    BothAppend(table, ALWAYS + r, f);
    BothAppend(table, ALWAYS + r + f, q);
  }

  lemma AlwaysIsPrinted(table: SymbolTable)
    requires table.Shaped()
    ensures AllPrinted(table, ALWAYS) && AllFit(ALWAYS)
  {
    StartFits(ClusterServer);
    StartFits(ClusterManager);
    StartFits(DataServer);
    hide Fits;
  }

  lemma StartIfIsPrinted(table: SymbolTable, prepares: seq<Command>, server: Server)
    requires table.Shaped()
    ensures AllPrinted(table, StartIf(prepares, server)) && AllFit(StartIf(prepares, server))
  {
    StartFits(server);
    hide Fits, Count;
  }

  lemma BothAppend(table: SymbolTable, a: seq<Command>, b: seq<Command>)
    requires table.Shaped() && AllPrinted(table, a) && AllFit(a) && AllPrinted(table, b) && AllFit(b)
    ensures AllPrinted(table, a + b) && AllFit(a + b)
  {
    hide IsPrinted, Fits;
  }

  /** The generated file, split, lexed and parsed, gives exactly the commands it
      was generated from, in order, and then the input ends. */
  lemma GeneratedFileRoundTrip(table: SymbolTable, grid: seq<Slot>, clusters: seq<seq<Slot>>)
    requires Perfect(BootSymbols(), table) && IsGrid(grid, clusters) && GoodGrid(table, grid, clusters)
    requires AllFit(PrepareCommands(grid, clusters, |clusters|))
    ensures var commands := GeneratedCommands(grid, clusters);
            var file := FileText(commands);
            && SplitRun(file) == Run(Texts(commands), InputEnded)
            && |ReadFile(table, file)| == |commands|
            && forall i :: 0 <= i < |commands| ==> ReadFile(table, file)[i] == Some(commands[i])
  {
    var prepares := PrepareCommands(grid, clusters, |clusters|);
    PreparesArePrinted(table, grid, clusters, |clusters|);
    FinalIsPrinted(table, prepares);
    BothAppend(table, prepares, FinalCommands(prepares));
    assert FinalCommands(prepares) != [];
    hide PrepareCommands, FinalCommands, IsPrinted, Fits, Perfect, SplitRun, ReadFile, FileText;
    FileIsSplit(table, GeneratedCommands(grid, clusters));
    FileRoundTrip(table, GeneratedCommands(grid, clusters));
  }
}
