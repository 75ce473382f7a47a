/** The grammar of bootstrap commands, bootstrap/ic_boot_parser.y. */
module BootGrammar {
  import opened Basics
  import opened BootLex

  type uint32 = x: nat | x < TWO_TO_32

  const IC_DEF_PCNTRL_PORT: nat := 11860

  datatype Server = ClusterServer | ClusterManager | DataServer | FileServer | ReplicationServer | SqlServer

  datatype Command =
    | Prepare(server: Server, host: string, pcntrlHost: string, pcntrlPort: uint32, clusterId: uint32, nodeId: uint32)
    | SendFiles
    | Start(server: Server)
    | Exit

  /** The word that names a kind of server, and the one that follows it. */
  function KindWord(server: Server): (id: nat)
    ensures IsKeyword(id) && id != EQUAL
  {
    match server
    case ClusterServer => CLUSTER
    case ClusterManager => CLUSTER
    case DataServer => DATA
    case FileServer => FILE
    case ReplicationServer => REPLICATION
    case SqlServer => SQL
  }

  function RoleWord(server: Server): nat {
    if server == ClusterManager then MANAGER else SERVER
  }

  function RolesWord(server: Server): nat {
    if server == ClusterManager then MANAGERS else SERVERS
  }

  /** Servers of the grid as a whole belong to no cluster. */
  predicate InCluster(server: Server) {
    server != ClusterServer && server != ClusterManager
  }

  function ServerOf(kind: Token, role: Token, manager: nat, other: nat): Option<Server> {
    if kind == Keyword(CLUSTER) && role == Keyword(other) then Some(ClusterServer)
    else if kind == Keyword(CLUSTER) && role == Keyword(manager) then Some(ClusterManager)
    else if role != Keyword(other) then None
    else if kind == Keyword(DATA) then Some(DataServer)
    else if kind == Keyword(FILE) then Some(FileServer)
    else if kind == Keyword(REPLICATION) then Some(ReplicationServer)
    else if kind == Keyword(SQL) then Some(SqlServer)
    else None
  }

  // ----- the parser -----

  datatype Field<+T> = NoField | Field(value: T, rest: seq<Token>)

  datatype Settings = Settings(pcntrlHost: string, pcntrlPort: nat, clusterId: nat, nodeId: nat)

  predicate StartsWith(t: seq<Token>, id: nat) {
    t != [] && t[0] == Keyword(id)
  }

  /** A keyword and an optional equal sign. */
  function AfterKeyword(t: seq<Token>): seq<Token>
    requires t != []
  {
    if StartsWith(t[1..], EQUAL) then t[2..] else t[1..]
  }

  function NameField(t: seq<Token>, id: nat): Field<string> {
    if !StartsWith(t, id) then NoField
    else
      var u := AfterKeyword(t);
      if u != [] && u[0].Identifier? then Field(u[0].name, u[1..]) else NoField
  }

  function NumberField(t: seq<Token>, id: nat): Field<nat> {
    if !StartsWith(t, id) then NoField
    else
      var u := AfterKeyword(t);
      if u != [] && u[0].Integer? then Field(u[0].value, u[1..]) else NoField
  }

  /** `node`, the last part, with defaults for the optional parts before it. */
  function ParseNode(host: string, t: seq<Token>): Option<Settings> {
    var node := NumberField(t, NODE_ID);
    if node.NoField? || node.rest != [] then None
    else Some(Settings(host, IC_DEF_PCNTRL_PORT, 0, node.value))
  }

  function ParseCluster(inCluster: bool, host: string, t: seq<Token>): Option<Settings> {
    if !inCluster || !StartsWith(t, CLUSTER_ID) then ParseNode(host, t)
    else
      var cluster := NumberField(t, CLUSTER_ID);
      if cluster.NoField? then None
      else
        var later := ParseNode(host, cluster.rest);
        if later.None? then None else Some(later.value.(clusterId := cluster.value))
  }

  function ParsePort(inCluster: bool, host: string, t: seq<Token>): Option<Settings> {
    if !StartsWith(t, PCNTRL_PORT) then ParseCluster(inCluster, host, t)
    else
      var port := NumberField(t, PCNTRL_PORT);
      if port.NoField? then None
      else
        var later := ParseCluster(inCluster, host, port.rest);
        if later.None? then None else Some(later.value.(pcntrlPort := port.value))
  }

  function ParsePcntrlHost(inCluster: bool, host: string, t: seq<Token>): Option<Settings> {
    if !StartsWith(t, PCNTRL_HOST) then ParsePort(inCluster, host, t)
    else
      var name := NameField(t, PCNTRL_HOST);
      if name.NoField? then None
      else
        var later := ParsePort(inCluster, host, name.rest);
        if later.None? then None else Some(later.value.(pcntrlHost := name.value))
  }

  function Narrow(x: nat): uint32 {
    x % TWO_TO_32
  }

  /** The record built for a PREPARE: its fields are 32 bits wide. */
  function Prepared(server: Server, host: string, s: Settings): Command {
    Prepare(server, host, s.pcntrlHost, Narrow(s.pcntrlPort), Narrow(s.clusterId), Narrow(s.nodeId))
  }

  function ParsePrepare(server: Server, t: seq<Token>): Option<Command> {
    var host := NameField(t, HOST);
    if host.NoField? then None
    else
      var s := ParsePcntrlHost(InCluster(server), host.value, host.rest);
      if s.None? then None else Some(Prepared(server, host.value, s.value))
  }

  function Parse(t: seq<Token>): Option<Command> {
    if t == [Keyword(QUIT)] || t == [Keyword(EXIT)] then Some(Exit)
    else if t == [Keyword(SEND), Keyword(FILES)] then Some(SendFiles)
    else if |t| == 3 && t[0] == Keyword(START) then
      var server := ServerOf(t[1], t[2], MANAGERS, SERVERS);
      if server.None? then None else Some(Start(server.value))
    else if |t| > 3 && t[0] == Keyword(PREPARE) then
      var server := ServerOf(t[1], t[2], MANAGER, SERVER);
      if server.None? then None else ParsePrepare(server.value, t[3..])
    else None
  }

  // ----- the sentences -----

  datatype Part<+T> = Omitted | Given(equal: bool, value: T)

  /** The choices a user has when writing a command. */
  datatype Form =
    | PrepareForm(server: Server, hostEqual: bool, host: string, pcntrlHost: Part<string>, pcntrlPort: Part<nat>,
                  clusterId: Part<nat>, nodeEqual: bool, nodeId: nat)
    | SendForm
    | StartForm(server: Server)
    | ExitForm
    | QuitForm

  predicate IsForm(f: Form) {
    f.PrepareForm? && !InCluster(f.server) ==> f.clusterId.Omitted?
  }

  function FieldText(id: nat, equal: bool, value: Token): seq<Token> {
    if equal then [Keyword(id), Keyword(EQUAL), value] else [Keyword(id), value]
  }

  function NamePart(id: nat, part: Part<string>): seq<Token> {
    if part.Omitted? then [] else FieldText(id, part.equal, Identifier(part.value))
  }

  function NumberPart(id: nat, part: Part<nat>): seq<Token> {
    if part.Omitted? then [] else FieldText(id, part.equal, Integer(part.value))
  }

  function NodeText(f: Form): seq<Token>
    requires f.PrepareForm?
  {
    FieldText(NODE_ID, f.nodeEqual, Integer(f.nodeId))
  }

  function ClusterText(f: Form): seq<Token>
    requires f.PrepareForm?
  {
    NumberPart(CLUSTER_ID, f.clusterId) + NodeText(f)
  }

  function PortText(f: Form): seq<Token>
    requires f.PrepareForm?
  {
    NumberPart(PCNTRL_PORT, f.pcntrlPort) + ClusterText(f)
  }

  function PcntrlHostText(f: Form): seq<Token>
    requires f.PrepareForm?
  {
    NamePart(PCNTRL_HOST, f.pcntrlHost) + PortText(f)
  }

  function HostText(f: Form): seq<Token>
    requires f.PrepareForm?
  {
    FieldText(HOST, f.hostEqual, Identifier(f.host)) + PcntrlHostText(f)
  }

  /** The tokens of a command written with given choices. */
  function Sentence(f: Form): seq<Token> {
    match f
    case PrepareForm(server, _, _, _, _, _, _, _) =>
      [Keyword(PREPARE), Keyword(KindWord(server)), Keyword(RoleWord(server))] + HostText(f)
    case SendForm => [Keyword(SEND), Keyword(FILES)]
    case StartForm(server) => [Keyword(START), Keyword(KindWord(server)), Keyword(RolesWord(server))]
    case ExitForm => [Keyword(EXIT)]
    case QuitForm => [Keyword(QUIT)]
  }

  function PartOr<T>(part: Part<T>, default: T): T {
    if part.Omitted? then default else part.value
  }

  function SettingsOf(f: Form): Settings
    requires f.PrepareForm?
  {
    Settings(PartOr(f.pcntrlHost, f.host), PartOr(f.pcntrlPort, IC_DEF_PCNTRL_PORT), PartOr(f.clusterId, 0), f.nodeId)
  }

  /** The command meant, with the documented defaults. */
  function Meaning(f: Form): Command {
    match f
    case PrepareForm(server, _, host, _, _, _, _, _) => Prepared(server, host, SettingsOf(f))
    case SendForm => SendFiles
    case StartForm(server) => Start(server)
    case ExitForm => Exit
    case QuitForm => Exit
  }

  // ----- every sentence is parsed as meant -----

  lemma FieldReads(id: nat, equal: bool, value: Token, rest: seq<Token>)
    requires !value.Keyword?
    ensures var t := FieldText(id, equal, value) + rest;
            && StartsWith(t, id)
            && NameField(t, id) == (if value.Identifier? then Field(value.name, rest) else NoField)
            && NumberField(t, id) == (if value.Integer? then Field(value.value, rest) else NoField)
  {
    var t := FieldText(id, equal, value) + rest;
    if equal {
      assert t[2..] == [value] + rest;
    } else {
      assert t[1..] == [value] + rest;
    }
    assert AfterKeyword(t) == [value] + rest;
    assert ([value] + rest)[1..] == rest;
  }

  lemma NodeReads(f: Form)
    requires f.PrepareForm?
    ensures NodeText(f) != [] && NodeText(f)[0] == Keyword(NODE_ID)
    ensures ParseNode(f.host, NodeText(f)) == Some(Settings(f.host, IC_DEF_PCNTRL_PORT, 0, f.nodeId))
  {
    FieldReads(NODE_ID, f.nodeEqual, Integer(f.nodeId), []);
    assert NodeText(f) + [] == NodeText(f);
  }

  lemma ClusterReads(f: Form)
    requires f.PrepareForm? && IsForm(f)
    ensures ClusterText(f) != [] && (ClusterText(f)[0] == Keyword(NODE_ID) || ClusterText(f)[0] == Keyword(CLUSTER_ID))
    ensures ParseCluster(InCluster(f.server), f.host, ClusterText(f)) ==
              Some(Settings(f.host, IC_DEF_PCNTRL_PORT, PartOr(f.clusterId, 0), f.nodeId))
  {
    NodeReads(f);
    if f.clusterId.Omitted? {
      assert ClusterText(f) == NodeText(f);
    } else {
      FieldReads(CLUSTER_ID, f.clusterId.equal, Integer(f.clusterId.value), NodeText(f));
    }
    hide ParseNode, NodeText, NumberField;
  }

  lemma PortReads(f: Form)
    requires f.PrepareForm? && IsForm(f)
    ensures PortText(f) != [] && PortText(f)[0] != Keyword(PCNTRL_HOST)
    ensures ParsePort(InCluster(f.server), f.host, PortText(f)) == Some(SettingsOf(f).(pcntrlHost := f.host))
  {
    ClusterReads(f);
    if f.pcntrlPort.Omitted? {
      assert PortText(f) == ClusterText(f);
    } else {
      FieldReads(PCNTRL_PORT, f.pcntrlPort.equal, Integer(f.pcntrlPort.value), ClusterText(f));
    }
    hide ParseCluster, ClusterText, NumberField;
  }

  lemma PcntrlHostReads(f: Form)
    requires f.PrepareForm? && IsForm(f)
    ensures ParsePcntrlHost(InCluster(f.server), f.host, PcntrlHostText(f)) == Some(SettingsOf(f))
  {
    PortReads(f);
    if f.pcntrlHost.Omitted? {
      assert PcntrlHostText(f) == PortText(f);
    } else {
      FieldReads(PCNTRL_HOST, f.pcntrlHost.equal, Identifier(f.pcntrlHost.value), PortText(f));
    }
    hide ParsePort, PortText, NameField;
  }

  /** Every way of writing a command is parsed as meant. */
  lemma SentenceIsParsed(f: Form)
    requires IsForm(f)
    ensures Parse(Sentence(f)) == Some(Meaning(f))
  {
    if f.PrepareForm? {
      PrepareReads(f);
    } else if f.StartForm? {
      ServerReads(f.server);
    }
  }

  lemma ServerReads(server: Server)
    ensures ServerOf(Keyword(KindWord(server)), Keyword(RoleWord(server)), MANAGER, SERVER) == Some(server)
    ensures ServerOf(Keyword(KindWord(server)), Keyword(RolesWord(server)), MANAGERS, SERVERS) == Some(server)
  {
  }

  lemma PrepareReads(f: Form)
    requires f.PrepareForm? && IsForm(f)
    ensures Parse(Sentence(f)) == Some(Meaning(f))
  {
    PcntrlHostReads(f);
    FieldReads(HOST, f.hostEqual, Identifier(f.host), PcntrlHostText(f));
    assert HostText(f) != [];
    ServerReads(f.server);
    hide ParsePcntrlHost, PcntrlHostText, NameField, SettingsOf, ServerOf, KindWord, RoleWord, FieldText, InCluster;
    assert ParsePrepare(f.server, HostText(f)) == Some(Meaning(f));
    var t := Sentence(f);
    hide ParsePrepare, HostText;
    assert t[3..] == HostText(f);
  }

  // ----- and nothing else is -----

  lemma FieldWas(t: seq<Token>, id: nat) returns (equal: bool, value: Token, rest: seq<Token>)
    requires NameField(t, id).Field? || NumberField(t, id).Field?
    ensures t == FieldText(id, equal, value) + rest
    ensures NameField(t, id).Field? ==> value == Identifier(NameField(t, id).value) && rest == NameField(t, id).rest
    ensures NumberField(t, id).Field? ==> value == Integer(NumberField(t, id).value) && rest == NumberField(t, id).rest
  {
    equal := StartsWith(t[1..], EQUAL);
    var u := AfterKeyword(t);
    value, rest := u[0], u[1..];
  }

  /** A sentence is found for every token list that is parsed. */
  lemma ParsedIsSentence(t: seq<Token>) returns (f: Form)
    requires Parse(t).Some?
    ensures IsForm(f) && t == Sentence(f) && Parse(t) == Some(Meaning(f))
  {
    if t == [Keyword(QUIT)] {
      f := QuitForm;
    } else if t == [Keyword(EXIT)] {
      f := ExitForm;
    } else if t == [Keyword(SEND), Keyword(FILES)] {
      f := SendForm;
    } else if |t| == 3 && t[0] == Keyword(START) {
      f := StartForm(ServerOf(t[1], t[2], MANAGERS, SERVERS).value);
    } else {
      f := PrepareIsSentence(t);
    }
  }

  lemma PrepareIsSentence(t: seq<Token>) returns (f: Form)
    requires |t| > 3 && t[0] == Keyword(PREPARE) && Parse(t).Some?
    ensures IsForm(f) && t == Sentence(f) && Parse(t) == Some(Meaning(f))
  {
    var server := ServerOf(t[1], t[2], MANAGER, SERVER).value;
    ServerWas(t[1], t[2]);
    f := PreparedIsSentence(server, t[3..]);
    hide ServerOf, KindWord, RoleWord, HostText, ParsePrepare;
    assert t == [t[0], t[1], t[2]] + t[3..];
    SentenceIsParsed(f);
  }

  lemma ServerWas(kind: Token, role: Token)
    requires ServerOf(kind, role, MANAGER, SERVER).Some?
    ensures var server := ServerOf(kind, role, MANAGER, SERVER).value;
            kind == Keyword(KindWord(server)) && role == Keyword(RoleWord(server))
  {
  }

  lemma PreparedIsSentence(server: Server, t: seq<Token>) returns (f: Form)
    requires ParsePrepare(server, t).Some?
    ensures f.PrepareForm? && f.server == server && IsForm(f) && t == HostText(f)
  {
    var hostEqual, host, t1 := FieldWas(t, HOST);
    var part, t2 := PcntrlHostWas(InCluster(server), host.name, t1);
    var port, t3 := PortWas(InCluster(server), host.name, t2);
    var cluster, t4 := ClusterWas(InCluster(server), host.name, t3);
    var nodeEqual, node, t5 := FieldWas(t4, NODE_ID);
    f := PrepareForm(server, hostEqual, host.name, part, port, cluster, nodeEqual, node.value);
    assert t4 == NodeText(f);
    assert t3 == ClusterText(f);
    assert t2 == PortText(f);
    assert t1 == PcntrlHostText(f);
  }

  lemma PcntrlHostWas(inCluster: bool, host: string, t: seq<Token>) returns (part: Part<string>, rest: seq<Token>)
    requires ParsePcntrlHost(inCluster, host, t).Some?
    ensures t == NamePart(PCNTRL_HOST, part) + rest && ParsePort(inCluster, host, rest).Some?
  {
    if StartsWith(t, PCNTRL_HOST) {
      var equal, value, r := FieldWas(t, PCNTRL_HOST);
      part, rest := Given(equal, value.name), r;
    } else {
      part, rest := Omitted, t;
    }
  }

  lemma PortWas(inCluster: bool, host: string, t: seq<Token>) returns (part: Part<nat>, rest: seq<Token>)
    requires ParsePort(inCluster, host, t).Some?
    ensures t == NumberPart(PCNTRL_PORT, part) + rest && ParseCluster(inCluster, host, rest).Some?
  {
    if StartsWith(t, PCNTRL_PORT) {
      var equal, value, r := FieldWas(t, PCNTRL_PORT);
      part, rest := Given(equal, value.value), r;
    } else {
      part, rest := Omitted, t;
    }
  }

  lemma ClusterWas(inCluster: bool, host: string, t: seq<Token>) returns (part: Part<nat>, rest: seq<Token>)
    requires ParseCluster(inCluster, host, t).Some?
    ensures t == NumberPart(CLUSTER_ID, part) + rest && ParseNode(host, rest).Some?
    ensures !inCluster ==> part.Omitted?
  {
    if inCluster && StartsWith(t, CLUSTER_ID) {
      var equal, value, r := FieldWas(t, CLUSTER_ID);
      part, rest := Given(equal, value.value), r;
    } else {
      part, rest := Omitted, t;
    }
  }
}
