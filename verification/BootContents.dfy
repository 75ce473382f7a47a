/** What a generated bootstrap file says, in terms of the configuration alone:
    which commands it holds, in which order and in which words, and which
    configurations get one. */
module BootContents {
  import opened Basics
  import opened Decimals
  import opened Symbols
  import opened BootLex
  import opened BootCommands
  import opened BootGrammar
  import opened BootPrint
  import opened BootHosts
  import opened BootSplit
  import opened BootFile
  import opened BootGenerate
  import opened BootEffects
  import opened BootRun

  // ----- which servers are prepared -----

  predicate IsOfGrid(s: Server) {
    s == ClusterServer || s == ClusterManager
  }

  /** Table `i` holds, at the node id of the command, the server it prepares:
      kind, host, process controller host and port. Servers of the grid are in
      table 0, those of cluster `i - 1` in table `i`. */
  predicate Describes(grid: seq<Slot>, clusters: seq<seq<Slot>>, i: nat, c: Command)
    requires i <= |clusters| && c.Prepare?
  {
    var nodes := TableAt(grid, clusters, i);
    && 1 <= c.nodeId < |nodes| && nodes[c.nodeId] == Node(c.server, c.host, c.pcntrlHost, c.pcntrlPort)
    && (if i == 0 then IsOfGrid(c.server) && c.clusterId == 0 else !IsOfGrid(c.server) && c.clusterId == i - 1)
  }

  /** Node ids 1 to `k` of a table. */
  predicate DescribesNode(inCluster: bool, clusterId: uint32, nodes: seq<Slot>, k: nat, c: Command)
    requires k < |nodes|
  {
    && c.Prepare? && 1 <= c.nodeId <= k && nodes[c.nodeId] == Node(c.server, c.host, c.pcntrlHost, c.pcntrlPort)
    && c.clusterId == clusterId && (inCluster <==> !IsOfGrid(c.server))
  }

  lemma NodeCommandIff(inCluster: bool, clusterId: uint32, nodes: seq<Slot>, k: nat, c: Command)
    requires IsTable(nodes) && 0 < k < |nodes|
    ensures c in CommandOf(inCluster, clusterId, nodes[k], k) <==>
              DescribesNode(inCluster, clusterId, nodes, k, c) && c.nodeId == k
  {
  }

  lemma {:induction false} NodeCommandsIff(inCluster: bool, clusterId: uint32, nodes: seq<Slot>, k: nat, c: Command)
    requires IsTable(nodes) && k < |nodes|
    ensures c in NodeCommands(inCluster, clusterId, nodes, k) <==> DescribesNode(inCluster, clusterId, nodes, k, c)
  {
    if k > 0 {
      NodeCommandsIff(inCluster, clusterId, nodes, k - 1, c);
      NodeCommandIff(inCluster, clusterId, nodes, k, c);
      hide CommandOf, IsOfGrid;
    }
  }

  /** The last of `n` tables. */
  lemma TableCommandsIff(grid: seq<Slot>, clusters: seq<seq<Slot>>, n: nat, c: Command)
    requires IsGrid(grid, clusters) && n <= |clusters|
    ensures n > 0 ==> IsTable(clusters[n - 1]) && n - 1 < TWO_TO_32
    ensures c in (if n == 0 then TableCommands(false, 0, grid) else TableCommands(true, n - 1, clusters[n - 1])) <==>
              c.Prepare? && Describes(grid, clusters, n, c)
  {
    if n == 0 {
      NodeCommandsIff(false, 0, grid, |grid| - 1, c);
    } else {
      var nodes := clusters[n - 1];
      assert IsTable(nodes);
      NodeCommandsIff(true, n - 1, nodes, |nodes| - 1, c);
    }
    hide NodeCommands;
  }

  lemma {:induction false} PreparesIff(grid: seq<Slot>, clusters: seq<seq<Slot>>, n: nat, c: Command)
    requires IsGrid(grid, clusters) && n <= |clusters|
    ensures c in PrepareCommands(grid, clusters, n) <==>
              c.Prepare? && exists i :: 0 <= i <= n && Describes(grid, clusters, i, c)
  {
    TableCommandsIff(grid, clusters, n, c);
    hide TableCommands, Describes, IsTable;
    if n > 0 {
      PreparesIff(grid, clusters, n - 1, c);
    }
  }

  // ----- in which order -----

  /** The table a command was made for. */
  function TableOf(c: Command): nat
    requires c.Prepare?
  {
    if IsOfGrid(c.server) then 0 else c.clusterId + 1
  }

  /** Table by table, and node by node in a table. */
  predicate ComesBefore(c: Command, d: Command) {
    c.Prepare? && d.Prepare? && (TableOf(c) < TableOf(d) || (TableOf(c) == TableOf(d) && c.nodeId < d.nodeId))
  }

  ghost predicate InOrder(commands: seq<Command>) {
    forall a, b :: 0 <= a < b < |commands| ==> ComesBefore(commands[a], commands[b])
  }

  lemma InOrderAppend(first: seq<Command>, more: seq<Command>)
    requires InOrder(first) && InOrder(more)
    requires forall c, d :: c in first && d in more ==> ComesBefore(c, d)
    ensures InOrder(first + more)
  {
    hide ComesBefore;
    var all := first + more;
    forall a, b | 0 <= a < b < |all| ensures ComesBefore(all[a], all[b]) {
      assert a < |first| ==> all[a] in first;
      assert b >= |first| ==> all[b] in more;
    }
  }

  lemma {:induction false} NodesInOrder(inCluster: bool, clusterId: uint32, nodes: seq<Slot>, k: nat)
    requires IsTable(nodes) && k < |nodes| && (!inCluster ==> clusterId == 0)
    ensures InOrder(NodeCommands(inCluster, clusterId, nodes, k))
  {
    if k > 0 {
      NodesInOrder(inCluster, clusterId, nodes, k - 1);
      var first, more := NodeCommands(inCluster, clusterId, nodes, k - 1), CommandOf(inCluster, clusterId, nodes[k], k);
      forall c, d | c in first && d in more ensures ComesBefore(c, d) {
        NodeCommandsIff(inCluster, clusterId, nodes, k - 1, c);
        NodeCommandIff(inCluster, clusterId, nodes, k, d);
      }
      assert InOrder(more);
      InOrderAppend(first, more);
    }
  }

  lemma {:induction false} PreparesInOrder(grid: seq<Slot>, clusters: seq<seq<Slot>>, n: nat)
    requires IsGrid(grid, clusters) && n <= |clusters|
    ensures InOrder(PrepareCommands(grid, clusters, n))
  {
    hide NodeCommands, InOrder;
    if n == 0 {
      NodesInOrder(false, 0, grid, |grid| - 1);
    } else {
      var nodes := clusters[n - 1];
      assert IsTable(nodes);
      PreparesInOrder(grid, clusters, n - 1);
      NodesInOrder(true, n - 1, nodes, |nodes| - 1);
      var first, more := PrepareCommands(grid, clusters, n - 1), TableCommands(true, n - 1, nodes);
      forall c, d | c in first && d in more ensures ComesBefore(c, d) {
        PreparesIff(grid, clusters, n - 1, c);
        NodeCommandsIff(true, n - 1, nodes, |nodes| - 1, d);
      }
      hide ComesBefore, PrepareCommands;
      InOrderAppend(first, more);
    }
  }

  // ----- the commands behind them -----

  /** Some table holds a server of a kind that belongs to it. */
  ghost predicate HasServer(grid: seq<Slot>, clusters: seq<seq<Slot>>, s: Server) {
    exists c: Command, i :: c.Prepare? && c.server == s && 0 <= i <= |clusters| && Describes(grid, clusters, i, c)
  }

  lemma {:induction false} CountIff(commands: seq<Command>, s: Server)
    ensures Count(commands, s) > 0 <==> exists c :: c in commands && c.Prepare? && c.server == s
  {
    if commands != [] {
      var init, last := commands[..|commands| - 1], commands[|commands| - 1];
      CountIff(init, s);
      assert commands == init + [last];
      assert last in commands;
    }
  }

  lemma HasServerIff(grid: seq<Slot>, clusters: seq<seq<Slot>>, s: Server)
    requires IsGrid(grid, clusters)
    ensures Count(PrepareCommands(grid, clusters, |clusters|), s) > 0 <==> HasServer(grid, clusters, s)
  {
    var prepares := PrepareCommands(grid, clusters, |clusters|);
    CountIff(prepares, s);
    forall c ensures c in prepares <==>
                       c.Prepare? && exists i :: 0 <= i <= |clusters| && Describes(grid, clusters, i, c) {
      PreparesIff(grid, clusters, |clusters|, c);
    }
    hide Describes, PrepareCommands, Count;
  }

  ghost function StartWhen(has: bool, s: Server): seq<Command> {
    if has then [Start(s)] else []
  }

  /** Behind the PREPAREs the files are sent and the servers started, those of
      the last three kinds only if there are any. */
  lemma FinalCommandsAre(grid: seq<Slot>, clusters: seq<seq<Slot>>)
    requires IsGrid(grid, clusters)
    ensures GeneratedCommands(grid, clusters) ==
              PrepareCommands(grid, clusters, |clusters|) +
              ([SendFiles, Start(ClusterServer), Start(ClusterManager), Start(DataServer)] +
               StartWhen(HasServer(grid, clusters, ReplicationServer), ReplicationServer) +
               StartWhen(HasServer(grid, clusters, FileServer), FileServer) +
               StartWhen(HasServer(grid, clusters, SqlServer), SqlServer))
  {
    HasServerIff(grid, clusters, ReplicationServer);
    HasServerIff(grid, clusters, FileServer);
    HasServerIff(grid, clusters, SqlServer);
    hide PrepareCommands, Count, HasServer;
  }

  lemma FinalHasNoPrepare(prepares: seq<Command>, i: nat)
    requires i < |FinalCommands(prepares)|
    ensures !FinalCommands(prepares)[i].Prepare?
  {
    hide Count;
  }

  // ----- which configurations are accepted -----

  /** The node ids of the servers of a kind in a table. */
  function NodesOf(nodes: seq<Slot>, s: Server): set<nat> {
    set k: nat | 1 <= k < |nodes| && nodes[k].Node? && nodes[k].server == s
  }

  function NodesTo(nodes: seq<Slot>, s: Server, n: nat): set<nat>
    requires n < |nodes|
  {
    set k: nat | 1 <= k <= n && nodes[k].Node? && nodes[k].server == s
  }

  lemma NodesNext(nodes: seq<Slot>, s: Server, n: nat)
    requires n < |nodes|
    ensures NodesTo(nodes, s, n) ==
              if n == 0 then {}
              else NodesTo(nodes, s, n - 1) + if nodes[n].Node? && nodes[n].server == s then {n} else {}
  {
  }

  lemma {:induction false} ServersAreNodes(nodes: seq<Slot>, s: Server, n: nat)
    requires n < |nodes|
    ensures Servers(nodes, s, n) == |NodesTo(nodes, s, n)|
  {
    NodesNext(nodes, s, n);
    if n > 0 {
      ServersAreNodes(nodes, s, n - 1);
      assert n !in NodesTo(nodes, s, n - 1);
      hide NodesTo;
    }
  }

  lemma CountedNodes(nodes: seq<Slot>, s: Server)
    requires IsTable(nodes)
    ensures AllServers(nodes, s) == |NodesOf(nodes, s)|
  {
    ServersAreNodes(nodes, s, |nodes| - 1);
    assert NodesTo(nodes, s, |nodes| - 1) == NodesOf(nodes, s);
  }

  ghost predicate EveryClusterHasData(clusters: seq<seq<Slot>>) {
    forall i :: 0 <= i < |clusters| ==> NodesOf(clusters[i], DataServer) != {}
  }

  /** A file is generated exactly when every cluster has a data server and there
      are one to four servers of either kind of the grid; otherwise the code
      says what is wrong. */
  lemma GenerateCodeIs(grid: seq<Slot>, clusters: seq<seq<Slot>>)
    requires IsGrid(grid, clusters)
    ensures var cs, cm := |NodesOf(grid, ClusterServer)|, |NodesOf(grid, ClusterManager)|;
            var code := GenerateCode(grid, clusters);
            && (code == 0 <==> EveryClusterHasData(clusters) && 1 <= cs <= 4 && 1 <= cm <= 4)
            && (code == 7118 <==> !EveryClusterHasData(clusters) || cs == 0 || cm == 0)
            && (code == 7057 <==> EveryClusterHasData(clusters) && cm >= 1 && cs > 4)
            && (code == 7120 <==> EveryClusterHasData(clusters) && 1 <= cs <= 4 && cm > 4)
  {
    CountedNodes(grid, ClusterServer);
    CountedNodes(grid, ClusterManager);
    forall i | 0 <= i < |clusters|
      ensures AllServers(clusters[i], DataServer) == 0 <==> NodesOf(clusters[i], DataServer) == {}
    {
      assert IsTable(clusters[i]);
      CountedNodes(clusters[i], DataServer);
    }
    hide NodesOf, AllServers;
  }

  // ----- in which words -----

  function KindText(s: Server): string {
    match s
    case ClusterServer => "CLUSTER SERVER"
    case ClusterManager => "CLUSTER MANAGER"
    case DataServer => "DATA SERVER"
    case FileServer => "FILE SERVER"
    case ReplicationServer => "REPLICATION SERVER"
    case SqlServer => "SQL SERVER"
  }

  lemma KindWords(s: Server)
    ensures Spelling(KindWord(s)) + [' '] + Spelling(RoleWord(s)) == KindText(s)
    ensures IsKeyword(RoleWord(s))
  {
  }

  lemma PartWords()
    ensures Spelling(PREPARE) == "PREPARE" && Spelling(HOST) == "HOST" && Spelling(PCNTRL_HOST) == "PCNTRL_HOST"
    ensures Spelling(PCNTRL_PORT) == "PCNTRL_PORT" && Spelling(CLUSTER_ID) == "CLUSTER_ID"
    ensures Spelling(NODE_ID) == "NODE_ID"
  {
  }

  lemma SettingText(id: nat, value: string, end: char, later: seq<Piece>)
    requires IsKeyword(id)
    ensures Render(Setting(id, value, end) + later) == Spelling(id) + "=" + value + [end] + Render(later)
  {
    assert Setting(id, value, end) + later == [Key(id, '=')] + ([Piece(value, end)] + later);
    assert Key(id, '=').word == Spelling(id);
    hide Spelling, Render;
    RenderFirst(Key(id, '='), [Piece(value, end)] + later);
    RenderFirst(Piece(value, end), later);
  }

  function SettingsText(c: Command): string
    requires c.Prepare?
  {
    "PCNTRL_PORT=" + Decimal(c.pcntrlPort) + " " +
    (if IsOfGrid(c.server) then "" else "CLUSTER_ID=" + Decimal(c.clusterId) + " ") +
    ("NODE_ID=" + Decimal(c.nodeId) + ";")
  }

  lemma SettingsAre(c: Command)
    requires c.Prepare?
    ensures Render(PortPieces(c)) == SettingsText(c)
  {
    PartWords();
    hide Spelling, Decimal, Setting, Render;
    RenderFirst(Piece("", ' '), []);
    SettingText(NODE_ID, Decimal(c.nodeId), ';', []);
    assert Setting(NODE_ID, Decimal(c.nodeId), ';') + [] == NodePieces(c);
    SettingText(CLUSTER_ID, Decimal(c.clusterId), ' ', NodePieces(c));
    assert [] + NodePieces(c) == NodePieces(c);
    SettingText(PCNTRL_PORT, Decimal(c.pcntrlPort), ' ', ClusterPieces(c));
  }

  lemma PiecesAre(c: Command)
    requires c.Prepare?
    ensures IsKeyword(PREPARE) && IsKeyword(HOST) && IsKeyword(PCNTRL_HOST) && IsKeyword(RoleWord(c.server))
    ensures Pieces(c) ==
              [Key(PREPARE, ' ')] + ([Key(KindWord(c.server), ' ')] + ([Key(RoleWord(c.server), ' ')] +
              (Setting(HOST, c.host, ' ') + (Setting(PCNTRL_HOST, c.pcntrlHost, ' ') + PortPieces(c)))))
    ensures Key(PREPARE, ' ') == Piece(Spelling(PREPARE), ' ')
    ensures Key(KindWord(c.server), ' ') == Piece(Spelling(KindWord(c.server)), ' ')
    ensures Key(RoleWord(c.server), ' ') == Piece(Spelling(RoleWord(c.server)), ' ')
    ensures Text(c) == Render(Pieces(c))
  {
    hide Spelling, KindWord, Setting, Render, PortPieces;
  }

  lemma JoinedText(kind: string, role: string, host: string, pcntrlHost: string, rest: string)
    ensures "PREPARE" + [' '] + (kind + [' '] + (role + [' '] +
            ("HOST" + "=" + host + [' '] + ("PCNTRL_HOST" + "=" + pcntrlHost + [' '] + rest)))) ==
            "PREPARE " + (kind + [' '] + role) + " HOST=" + host + " PCNTRL_HOST=" + pcntrlHost + " " + rest
  {
    assert "PREPARE" + [' '] == "PREPARE ";
    assert [' '] + ("HOST" + "=") == " HOST=";
    assert [' '] + ("PCNTRL_HOST" + "=") == " PCNTRL_HOST=";
  }

  /** A printed PREPARE, word for word. */
  lemma PrepareTextIs(c: Command)
    requires c.Prepare?
    ensures Text(c) == "PREPARE " + KindText(c.server) + " HOST=" + c.host + " PCNTRL_HOST=" + c.pcntrlHost + " " +
                       SettingsText(c)
  {
    hide *;
    PartWords();
    KindWords(c.server);
    SettingsAre(c);
    PiecesAre(c);
    var two := Setting(PCNTRL_HOST, c.pcntrlHost, ' ') + PortPieces(c);
    var one := Setting(HOST, c.host, ' ') + two;
    SettingText(PCNTRL_HOST, c.pcntrlHost, ' ', PortPieces(c));
    SettingText(HOST, c.host, ' ', two);
    RenderFirst(Key(RoleWord(c.server), ' '), one);
    RenderFirst(Key(KindWord(c.server), ' '), [Key(RoleWord(c.server), ' ')] + one);
    RenderFirst(Key(PREPARE, ' '), [Key(KindWord(c.server), ' ')] + ([Key(RoleWord(c.server), ' ')] + one));
    JoinedText(Spelling(KindWord(c.server)), Spelling(RoleWord(c.server)), c.host, c.pcntrlHost, SettingsText(c));
  }

  /** The other commands, word for word. */
  lemma OtherTextIs(s: Server)
    ensures Text(SendFiles) == "SEND FILES;" && Text(Start(s)) == "START " + KindText(s) + "S;"
  {
    hide *;
    OtherWords();
    RolesWords(s);
    OtherPieces(s);
    RenderFirst(Key(FILES, ';'), []);
    RenderFirst(Key(SEND, ' '), [Key(FILES, ';')] + []);
    RenderFirst(Key(RolesWord(s), ';'), []);
    RenderFirst(Key(KindWord(s), ' '), [Key(RolesWord(s), ';')] + []);
    RenderFirst(Key(BootLex.START, ' '), [Key(KindWord(s), ' ')] + ([Key(RolesWord(s), ';')] + []));
    var kind, role := Spelling(KindWord(s)), Spelling(RoleWord(s));
    assert kind + [' '] + (role + "S") == kind + [' '] + role + "S";
    OtherJoined(kind, Spelling(RolesWord(s)), KindText(s));
  }

  lemma OtherPieces(s: Server)
    ensures IsKeyword(SEND) && IsKeyword(FILES) && IsKeyword(BootLex.START) && IsKeyword(RolesWord(s))
    ensures Text(SendFiles) == Render([Key(SEND, ' ')] + ([Key(FILES, ';')] + []))
    ensures Text(Start(s)) ==
              Render([Key(BootLex.START, ' ')] + ([Key(KindWord(s), ' ')] + ([Key(RolesWord(s), ';')] + [])))
    ensures Key(SEND, ' ') == Piece(Spelling(SEND), ' ') && Key(FILES, ';') == Piece(Spelling(FILES), ';')
    ensures Key(BootLex.START, ' ') == Piece(Spelling(BootLex.START), ' ')
    ensures Key(KindWord(s), ' ') == Piece(Spelling(KindWord(s)), ' ')
    ensures Key(RolesWord(s), ';') == Piece(Spelling(RolesWord(s)), ';')
  {
    hide Spelling, KindWord, Render;
    assert Pieces(SendFiles) == [Key(SEND, ' ')] + ([Key(FILES, ';')] + []);
    assert Pieces(Start(s)) ==
      [Key(BootLex.START, ' ')] + ([Key(KindWord(s), ' ')] + ([Key(RolesWord(s), ';')] + []));
  }

  lemma OtherWords()
    ensures IsKeyword(SEND) && Spelling(SEND) == "SEND" && IsKeyword(FILES) && Spelling(FILES) == "FILES"
    ensures IsKeyword(BootLex.START) && Spelling(BootLex.START) == "START"
  {
  }

  lemma RolesWords(s: Server)
    ensures IsKeyword(RolesWord(s)) && IsKeyword(RoleWord(s))
    ensures Spelling(RolesWord(s)) == Spelling(RoleWord(s)) + "S"
    ensures Spelling(KindWord(s)) + [' '] + Spelling(RoleWord(s)) == KindText(s)
  {
    KindWords(s);
    hide KindText, KindWord;
  }

  lemma OtherJoined(kind: string, roles: string, name: string)
    requires kind + [' '] + roles == name + "S"
    ensures "SEND" + [' '] + ("FILES" + [';'] + "") == "SEND FILES;"
    ensures "START" + [' '] + (kind + [' '] + (roles + [';'] + "")) == "START " + name + "S;"
  {
    assert "START" + [' '] == "START ";
    assert kind + [' '] + (roles + [';'] + "") == (kind + [' '] + roles) + ";";
    assert name + "S" + ";" == name + "S;";
  }

  // ----- which host names come back -----

  predicate IsLetter(c: char) {
    'a' <= c <= 'z' || 'A' <= c <= 'Z'
  }

  /** A letter, and behind it letters, digits, dots, underscores and hyphens. */
  predicate IsHostName(h: string) {
    && h != "" && IsLetter(h[0])
    && forall i :: 0 <= i < |h| ==> IsLetter(h[i]) || '0' <= h[i] <= '9' || h[i] in "._-"
  }

  /** Every such host name that meets no keyword by hash is read back. */
  lemma HostNamesComeBack(table: SymbolTable, c: Command)
    requires Perfect(BootSymbols(), table) && c.Prepare? && (IsOfGrid(c.server) ==> c.clusterId == 0)
    requires IsHostName(c.host) && table.Lookup(c.host) == 0
    requires IsHostName(c.pcntrlHost) && table.Lookup(c.pcntrlHost) == 0
    ensures ReadBack(table, Text(c)) == Some(c)
  {
    HostNameIff(c.host);
    HostNameIff(c.pcntrlHost);
    HostsDecide(table, c);
    hide IsName, IsHostName, Text, ReadBack, SymbolTable.Lookup;
  }

  lemma HostNameIff(h: string)
    ensures IsName(h) <==> IsHostName(h)
  {
  }

  // ----- what the file is read back as -----

  /** The commands read back from a generated file: a PREPARE is among them
      exactly when some table describes it, they come table by table and node by
      node, and nothing else stands before the last of them. */
  lemma GeneratedFileSays(table: SymbolTable, grid: seq<Slot>, clusters: seq<seq<Slot>>)
    requires Perfect(BootSymbols(), table) && IsGrid(grid, clusters) && GoodGrid(table, grid, clusters)
    requires AllFit(PrepareCommands(grid, clusters, |clusters|))
    ensures var read := ReadFile(table, FileText(GeneratedCommands(grid, clusters)));
            && (forall c: Command :: c.Prepare? ==>
                  (Some(c) in read <==> exists i :: 0 <= i <= |clusters| && Describes(grid, clusters, i, c)))
            && (forall a, b :: 0 <= a < b < |read| && IsPrepare(read[b]) ==>
                  IsPrepare(read[a]) && ComesBefore(read[a].value, read[b].value))
  {
    hide *;
    PerfectIsShaped(table);
    GeneratedFileRoundTrip(table, grid, clusters);
    var commands := GeneratedCommands(grid, clusters);
    var read := ReadFile(table, FileText(commands));
    PrepareParts(grid, clusters);
    PreparesInOrder(grid, clusters, |clusters|);
    var prepares := PrepareCommands(grid, clusters, |clusters|);
    forall c: Command | c.Prepare?
      ensures Some(c) in read <==> exists i :: 0 <= i <= |clusters| && Describes(grid, clusters, i, c)
    {
      PreparesIff(grid, clusters, |clusters|, c);
      ReadIff(read, commands, c);
    }
    forall a, b | 0 <= a < b < |read| && IsPrepare(read[b])
      ensures IsPrepare(read[a]) && ComesBefore(read[a].value, read[b].value)
    {
      IsPrepareMeans(read[a]);
      IsPrepareMeans(read[b]);
      InOrderAt(prepares, a, b);
    }
  }

  lemma IsPrepareMeans(c: Option<Command>)
    ensures IsPrepare(c) <==> c.Some? && c.value.Prepare?
  {
  }

  lemma ReadIff(read: seq<Option<Command>>, commands: seq<Command>, c: Command)
    requires |read| == |commands| && forall i :: 0 <= i < |commands| ==> read[i] == Some(commands[i])
    ensures Some(c) in read <==> c in commands
  {
    if c in commands {
      var i :| 0 <= i < |commands| && commands[i] == c;
      assert read[i] == Some(c);
    }
  }

  lemma InOrderAt(prepares: seq<Command>, a: nat, b: nat)
    requires a < b < |prepares| && InOrder(prepares)
    ensures prepares[a].Prepare? && ComesBefore(prepares[a], prepares[b])
  {
  }

  /** The PREPAREs are the front part of the generated commands. */
  lemma PrepareParts(grid: seq<Slot>, clusters: seq<seq<Slot>>)
    requires IsGrid(grid, clusters)
    ensures var prepares, commands := PrepareCommands(grid, clusters, |clusters|), GeneratedCommands(grid, clusters);
            && prepares <= commands
            && (forall i :: |prepares| <= i < |commands| ==> !commands[i].Prepare?)
            && (forall c: Command :: c.Prepare? ==> (c in commands <==> c in prepares))
  {
    var prepares := PrepareCommands(grid, clusters, |clusters|);
    forall i | 0 <= i < |FinalCommands(prepares)| ensures !FinalCommands(prepares)[i].Prepare? {
      FinalHasNoPrepare(prepares, i);
    }
    hide PrepareCommands, FinalCommands;
  }
}
