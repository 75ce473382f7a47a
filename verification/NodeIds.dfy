/** The node ids of PREPARE commands: the check functions and the
    ic_prepare_*_cmd functions of bootstrap/ic_bootstrap.c. */
module NodeIds {
  import opened Basics
  import opened BootGrammar

  const MAX_GRID_SERVERS: nat := 4   // IC_MAX_CLUSTER_SERVERS, used for both kinds

  /** How many servers of a kind are recorded: the lengths of the arrays of
      IC_PARSE_DATA. */
  function Limit(server: Server): nat {
    if !InCluster(server) then MAX_GRID_SERVERS
    else if server == DataServer then 256 * 48
    else 255
  }

  /** What is recorded of a prepared server. */
  datatype Entry = Entry(clusterId: uint32, nodeId: uint32)

  /** The six lists of IC_PARSE_DATA. */
  datatype Lists = Lists(cs: seq<Entry>, mgr: seq<Entry>, ds: seq<Entry>,
                         fs: seq<Entry>, rep: seq<Entry>, sql: seq<Entry>) {
    function Of(server: Server): seq<Entry> {
      match server
      case ClusterServer => cs
      case ClusterManager => mgr
      case DataServer => ds
      case FileServer => fs
      case ReplicationServer => rep
      case SqlServer => sql
    }

    function Append(server: Server, e: Entry): (l: Lists)
      ensures forall s :: l.Of(s) == if s == server then Of(s) + [e] else Of(s)
    {
      match server
      case ClusterServer => this.(cs := cs + [e])
      case ClusterManager => this.(mgr := mgr + [e])
      case DataServer => this.(ds := ds + [e])
      case FileServer => this.(fs := fs + [e])
      case ReplicationServer => this.(rep := rep + [e])
      case SqlServer => this.(sql := sql + [e])
    }
  }

  const NOTHING: Lists := Lists([], [], [], [], [], [])

  /** The six next_*_index counters. */
  datatype Counts = Counts(cs: nat, mgr: nat, ds: nat, fs: nat, rep: nat, sql: nat) {
    function Of(server: Server): nat {
      match server
      case ClusterServer => cs
      case ClusterManager => mgr
      case DataServer => ds
      case FileServer => fs
      case ReplicationServer => rep
      case SqlServer => sql
    }

    function Inc(server: Server): (c: Counts)
      ensures forall s :: c.Of(s) == Of(s) + if s == server then 1 else 0
    {
      match server
      case ClusterServer => this.(cs := cs + 1)
      case ClusterManager => this.(mgr := mgr + 1)
      case DataServer => this.(ds := ds + 1)
      case FileServer => this.(fs := fs + 1)
      case ReplicationServer => this.(rep := rep + 1)
      case SqlServer => this.(sql := sql + 1)
    }
  }

  datatype State = State(lists: Lists, next: Counts, exited: bool)

  const START: State := State(NOTHING, Counts(0, 0, 0, 0, 0, 0), false)

  // ----- reading a list, and behind it -----

  /** The structure is zeroed before the first command. */
  const UNSET: Entry := Entry(0, 0)

  /** What one command finds when it reads behind the array of SQL servers, or
      behind those of grid servers, whose entries have another size than those
      that follow. It may be different for every command. */
  type After = (Server, nat) -> Entry

  /** Entry `i` of a list as the source reads it. The arrays of data, file,
      replication and SQL servers lie behind each other, so that an index past
      the end of one reads the next. */
  function Load(p: State, after: After, s: Server, i: nat): Entry
    decreases match s case DataServer => 3 case FileServer => 2 case ReplicationServer => 1 case _ => 0
  {
    if i < |p.lists.Of(s)| then p.lists.Of(s)[i]
    else if i < Limit(s) then UNSET
    else
      match s
      case DataServer => Load(p, after, FileServer, i - Limit(s))
      case FileServer => Load(p, after, ReplicationServer, i - Limit(s))
      case ReplicationServer => Load(p, after, SqlServer, i - Limit(s))
      case _ => after(s, i - Limit(s))
  }

  /** A list as long as its counter says. */
  function View(p: State, after: After, s: Server): (v: seq<Entry>)
    ensures |v| == p.next.Of(s)
    ensures forall i :: 0 <= i < |v| ==> v[i] == Load(p, after, s, i)
  {
    seq(p.next.Of(s), i requires 0 <= i < p.next.Of(s) => Load(p, after, s, i))
  }

  // ----- what may be prepared -----

  /** Two servers that must not both be prepared. */
  predicate Clash(s: Server, e: Entry, t: Server, f: Entry) {
    if s == DataServer && t == DataServer then e == f else e.nodeId == f.nodeId
  }

  ghost predicate ClashesIn(list: seq<Entry>, s: Server, t: Server, f: Entry) {
    exists i :: 0 <= i < |list| && Clash(s, list[i], t, f)
  }

  /** At most four servers of either grid kind are kept. */
  predicate HasSlot(lists: Lists, server: Server) {
    !InCluster(server) ==> |lists.Of(server)| < MAX_GRID_SERVERS
  }

  ghost predicate Accepts(lists: Lists, server: Server, e: Entry) {
    HasSlot(lists, server) && forall s :: !ClashesIn(lists.Of(s), s, server, e)
  }

  lemma ClashesSnoc(list: seq<Entry>, last: Entry, s: Server, t: Server, f: Entry)
    ensures ClashesIn(list + [last], s, t, f) <==> ClashesIn(list, s, t, f) || Clash(s, last, t, f)
  {
    hide Clash;
    var all := list + [last];
    if ClashesIn(list, s, t, f) {
      var i :| 0 <= i < |list| && Clash(s, list[i], t, f);
      assert all[i] == list[i];
    }
    assert all[|list|] == last;
  }

  // ----- one PREPARE -----

  datatype Event = Event(server: Server, entry: Entry)

  /** The parser's part: the counter goes up, and the server is recorded while
      there is room. */
  function Record(p: State, ev: Event): (q: State)
    ensures q.next == p.next.Inc(ev.server) && q.exited == p.exited
    ensures q.next.Of(ev.server) > 0
  {
    p.(next := p.next.Inc(ev.server),
       lists := if p.next.Of(ev.server) < Limit(ev.server) then p.lists.Append(ev.server, ev.entry) else p.lists)
  }

  /** The server taken for the new one: the last entry of its list. */
  function Newest(q: State, after: After, server: Server): Entry
    requires q.next.Of(server) > 0
  {
    Load(q, after, server, q.next.Of(server) - 1)
  }

  /** The entries searched for a clash: in its own list not the newest. */
  function Searched(q: State, after: After, s: Server, server: Server): seq<Entry>
    requires q.next.Of(server) > 0
  {
    if s == server then View(q, after, s)[..q.next.Of(s) - 1] else View(q, after, s)
  }

  ghost predicate ClashFound(q: State, after: After, server: Server)
    requires q.next.Of(server) > 0
  {
    exists s :: ClashesIn(Searched(q, after, s, server), s, server, Newest(q, after, server))
  }

  predicate TooMany(q: State, server: Server) {
    !InCluster(server) && q.next.Of(server) > MAX_GRID_SERVERS
  }

  /** A PREPARE as the source carries it out; nothing happens once the flag is up. */
  ghost function Next(p: State, after: After, ev: Event): State {
    if p.exited then p
    else
      var q := Record(p, ev);
      q.(exited := TooMany(q, ev.server) || ClashFound(q, after, ev.server))
  }

  // ----- the checks -----

  /** The lists in the order in which they are searched for a new server. */
  function CheckOrder(server: Server): (order: seq<Server>)
    ensures |order| == 6
  {
    match server
    case ClusterServer => [ClusterServer, DataServer, FileServer, ReplicationServer, SqlServer, ClusterManager]
    case ClusterManager => [ClusterServer, DataServer, FileServer, ReplicationServer, SqlServer, ClusterManager]
    case DataServer => [ClusterServer, ClusterManager, FileServer, SqlServer, ReplicationServer, DataServer]
    case FileServer => [ClusterServer, ClusterManager, DataServer, ReplicationServer, SqlServer, FileServer]
    case ReplicationServer => [ClusterServer, ClusterManager, DataServer, FileServer, SqlServer, ReplicationServer]
    case SqlServer => [ClusterServer, ClusterManager, DataServer, FileServer, SqlServer, ReplicationServer]
  }

  /** No list is forgotten. */
  lemma EveryListIsChecked(server: Server, s: Server) returns (k: nat)
    ensures k < 6 && CheckOrder(server)[k] == s
  {
    var order := CheckOrder(server);
    k := if s == order[0] then 0 else if s == order[1] then 1 else if s == order[2] then 2
         else if s == order[3] then 3 else if s == order[4] then 4 else 5;
  }

  /** The search loop of a check over the first `bound` entries of a list. */
  method FindClash(q: State, after: After, bound: int, s: Server, server: Server, e: Entry) returns (error: bool)
    requires bound <= q.next.Of(s)
    ensures error <==> bound > 0 && ClashesIn(View(q, after, s)[..bound], s, server, e)
  {
    error := false;
    var i: nat := 0;
    ghost var list := View(q, after, s);
    hide Clash, Load, View, Counts.Of;
    while i < bound && !error
      invariant i <= |list| && (bound >= 0 ==> i <= bound) && (bound < 0 ==> i == 0)
      invariant error <==> ClashesIn(list[..i], s, server, e)
    {
      assert list[..i + 1] == list[..i] + [list[i]];
      ClashesSnoc(list[..i], list[i], s, server, e);
      error := Clash(s, Load(q, after, s, i), server, e);
      i := i + 1;
    }
    if error {
      ghost var k :| 0 <= k < i && Clash(s, list[..i][k], server, e);
      assert list[..bound][k] == list[..i][k];
    } else if bound > 0 {
      assert list[..i] == list[..bound];
    }
  }

  class ParseData {
    var lists: Lists
    var next: Counts
    var exitFlag: bool

    constructor ()
      ensures Current() == START
    {
      lists, next, exitFlag := START.lists, START.next, false;
    }

    function Current(): State
      reads this
    {
      State(lists, next, exitFlag)
    }

    /** A check: in the list of the new server its own entry is left out. */
    method CheckNodeId(s: Server, server: Server, e: Entry, after: After) returns (error: bool)
      requires next.Of(server) > 0
      modifies this`exitFlag
      ensures error <==> ClashesIn(Searched(old(Current()), after, s, server), s, server, e)
      ensures exitFlag <==> old(exitFlag) || error
    {
      var q := Current();
      var includeLast := if s == server then 0 else 1;
      var bound := next.Of(s) - 1 + includeLast;
      ghost var searched := Searched(q, after, s, server);
      assert searched == View(q, after, s)[..bound];
      hide ClashesIn, View, Searched, Counts.Of;
      NoClashInNothing(s, server, e);
      error := FindClash(q, after, bound, s, server, e);
      assert bound == 0 ==> searched == [];
      if error {
        exitFlag := true;
      }
    }

    /** The parser's record of a server. */
    method RecordServer(server: Server, e: Entry)
      modifies this
      ensures Current() == Record(old(Current()), Event(server, e))
    {
      if next.Of(server) < Limit(server) {
        lists := lists.Append(server, e);
      }
      next := next.Inc(server);
    }

    /** The parser's record and the ic_prepare_*_cmd function. */
    method Prepare(server: Server, e: Entry, after: After)
      requires !exitFlag
      modifies this
      ensures Current() == Next(old(Current()), after, Event(server, e))
    {
      RecordServer(server, e);
      if TooMany(Current(), server) {
        exitFlag := true;
        return;
      }
      CheckAll(server, after);
    }

    /** The checks of one command, up to the first that fails. */
    method CheckAll(server: Server, after: After)
      requires !exitFlag && next.Of(server) > 0
      modifies this`exitFlag
      ensures exitFlag <==> ClashFound(old(Current()), after, server)
    {
      ghost var q := Current();
      var e := Newest(Current(), after, server);
      var order := CheckOrder(server);
      var k: nat := 0;
      hide ClashesIn, CheckOrder, Searched, Newest, Counts.Of, Load;
      while k < 6 && !exitFlag
        invariant k <= 6 && Current() == q.(exited := exitFlag)
        invariant exitFlag ==> ClashFound(q, after, server)
        invariant !exitFlag ==> forall j :: 0 <= j < k ==>
            !ClashesIn(Searched(q, after, order[j], server), order[j], server, e)
      {
        var error := CheckNodeId(order[k], server, e, after);
        k := k + 1;
      }
      if !exitFlag {
        forall s ensures !ClashesIn(Searched(q, after, s, server), s, server, e) {
          var j := EveryListIsChecked(server, s);
          assert order[j] == s;
        }
      }
    }
  }

  lemma NoClashInNothing(s: Server, t: Server, f: Entry)
    ensures !ClashesIn([], s, t, f)
  {
  }
}
