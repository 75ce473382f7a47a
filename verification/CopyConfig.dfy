/** Copying config.ini to every process controller once: copy_config_ini of
    bootstrap/ic_bootstrap.c. */
module CopyConfig {
  import opened Basics

  /** A process controller: host name and port. */
  datatype Target = Target(host: string, port: nat)

  /** A node table, indexed by node id; an empty one stands for no configuration. */
  type Table = seq<Option<Target>>

  /** Node ids start at 1. */
  predicate IsTable(nodes: Table) {
    nodes != [] ==> nodes[0].None?
  }

  ghost predicate AreTables(tables: seq<Table>) {
    forall i :: 0 <= i < |tables| ==> IsTable(tables[i])
  }

  // ----- the targets in cluster-then-node order -----

  function TargetIn(slot: Option<Target>): seq<Target> {
    if slot.None? then [] else [slot.value]
  }

  function Targets(nodes: Table): seq<Target> {
    if nodes == [] then [] else Targets(nodes[..|nodes| - 1]) + TargetIn(nodes[|nodes| - 1])
  }

  function Flatten(tables: seq<Table>): seq<Target> {
    if tables == [] then [] else Flatten(tables[..|tables| - 1]) + Targets(tables[|tables| - 1])
  }

  /** The targets of `s` at their first position, those of `seen` left out. */
  function Fresh(seen: seq<Target>, s: seq<Target>): seq<Target> {
    if s == [] then []
    else
      var init, x := s[..|s| - 1], s[|s| - 1];
      Fresh(seen, init) + if x in seen || x in init then [] else [x]
  }

  /** Every target at its first position. */
  function FirstOnly(s: seq<Target>): seq<Target> {
    Fresh([], s)
  }

  lemma FreshSnoc(seen: seq<Target>, s: seq<Target>, x: Target)
    ensures Fresh(seen, s + [x]) == Fresh(seen, s) + if x in seen || x in s then [] else [x]
  {
    assert (s + [x])[..|s|] == s;
  }

  lemma {:induction false} FreshAppend(a: seq<Target>, b: seq<Target>)
    ensures Fresh([], a + b) == Fresh([], a) + Fresh(a, b)
  {
    if b == [] {
      assert a + b == a;
    } else {
      var u, x := b[..|b| - 1], b[|b| - 1];
      assert b == u + [x] && a + b == a + u + [x];
      FreshAppend(a, u);
      FreshSnoc([], a + u, x);
      FreshSnoc(a, u, x);
    }
  }

  /** Exactly the targets of the list, each once, ordered by first position. */
  lemma {:induction false} FirstOnlyIsExact(s: seq<Target>)
    ensures forall x :: x in FirstOnly(s) <==> x in s
    ensures forall x :: multiset(FirstOnly(s))[x] <= 1
  {
    if s != [] {
      var init, x := s[..|s| - 1], s[|s| - 1];
      assert s == init + [x];
      FirstOnlyIsExact(init);
      assert FirstOnly(s) == FirstOnly(init) + if x in init then [] else [x];
    }
  }

  /** Where a target stands first. */
  function FirstIndex(s: seq<Target>, x: Target): (i: nat)
    requires x in s
    ensures i < |s| && s[i] == x && x !in s[..i]
  {
    if s[0] == x then 0
    else
      assert s == [s[0]] + s[1..];
      var i := FirstIndex(s[1..], x);
      assert s[..1 + i] == [s[0]] + s[1..][..i];
      1 + i
  }

  lemma FirstIndexIs(s: seq<Target>, i: nat)
    requires i < |s| && s[i] !in s[..i]
    ensures FirstIndex(s, s[i]) == i
  {
    var j := FirstIndex(s, s[i]);
    assert forall k :: 0 <= k < i ==> s[..i][k] == s[k];
    assert forall k :: 0 <= k < j ==> s[..j][k] == s[k];
  }

  lemma {:induction false} FirstOnlyIsOrdered(s: seq<Target>, i: nat, j: nat)
    requires i < j < |FirstOnly(s)|
    ensures FirstOnly(s)[i] in s && FirstOnly(s)[j] in s
    ensures FirstIndex(s, FirstOnly(s)[i]) < FirstIndex(s, FirstOnly(s)[j])
  {
    FirstOnlyIsExact(s);
    var init, x := s[..|s| - 1], s[|s| - 1];
    assert s == init + [x];
    var f := FirstOnly(init);
    assert FirstOnly(s) == f + if x in init then [] else [x];
    FirstOnlyIsExact(init);
    var a, b := FirstOnly(s)[i], FirstOnly(s)[j];
    SameFirstIndex(init, x, a);
    if j < |f| {
      FirstOnlyIsOrdered(init, i, j);
      SameFirstIndex(init, x, b);
    } else {
      assert s[..|init|] == init;
      FirstIndexIs(s, |init|);
    }
  }

  lemma SameFirstIndex(init: seq<Target>, x: Target, a: Target)
    requires a in init
    ensures FirstIndex(init + [x], a) == FirstIndex(init, a)
  {
    var i := FirstIndex(init, a);
    assert (init + [x])[..i] == init[..i];
    FirstIndexIs(init + [x], i);
  }

  // ----- sends -----

  /** What the `k`-th send of the run returns; 0 is success. */
  function Result(results: seq<int>, k: nat): int {
    if k < |results| then results[k] else 0
  }

  /** How many of `n` sends, the first being send number `from`, are made when
      the first failure ends them. */
  function SendsMade(results: seq<int>, from: nat, n: nat): (m: nat)
    ensures m <= n && (n > 0 ==> m > 0)
    decreases n
  {
    if n == 0 then 0
    else if Result(results, from) != 0 then 1
    else 1 + SendsMade(results, from + 1, n - 1)
  }

  ghost predicate AllSucceed(results: seq<int>, from: nat, m: nat) {
    forall k :: from <= k < from + m ==> Result(results, k) == 0
  }

  lemma {:induction false} SendsMadeIs(results: seq<int>, from: nat, n: nat, m: nat)
    requires m <= n && (m == 0 || AllSucceed(results, from, m - 1))
    requires m < n ==> m > 0 && Result(results, from + m - 1) != 0
    ensures SendsMade(results, from, n) == m
    decreases n
  {
    if n > 0 {
      if m == 1 && m < n {
        assert Result(results, from) != 0;
      } else if m > 1 {
        assert Result(results, from) == 0;
        SendsMadeIs(results, from + 1, n - 1, m - 1);
      }
    }
  }

  // ----- the search for an earlier node -----

  lemma TargetsNext(nodes: Table, k: nat)
    requires k < |nodes|
    ensures Targets(nodes[..k + 1]) == Targets(nodes[..k]) + TargetIn(nodes[k])
  {
    assert nodes[..k + 1][..k] == nodes[..k];
  }

  lemma FlattenNext(tables: seq<Table>, c: nat)
    requires c < |tables|
    ensures Flatten(tables[..c + 1]) == Flatten(tables[..c]) + Targets(tables[c])
  {
    assert tables[..c + 1][..c] == tables[..c];
  }

  method SearchTable(nodes: Table, bound: nat, x: Target) returns (found: bool)
    requires IsTable(nodes) && bound <= |nodes|
    ensures found <==> x in Targets(nodes[..bound])
  {
    found := false;
    NoNodes(nodes, x);
    hide *;
    if bound == 0 {
      return;
    }
    var j: nat := 1;
    while j < bound && !found
      invariant 1 <= j <= bound
      invariant found <==> x in Targets(nodes[..j])
    {
      TargetHere(nodes, j, x);
      found := nodes[j].Some? && nodes[j].value == x;
      j := j + 1;
    }
    TargetsGrow(nodes, j, bound);
    StaysIn(Targets(nodes[..j]), Targets(nodes[..bound]), x);
  }

  lemma NoNodes(nodes: Table, x: Target)
    requires IsTable(nodes)
    ensures x !in Targets(nodes[..0]) && (nodes != [] ==> x !in Targets(nodes[..1]))
  {
    assert Targets(nodes[..0]) == [];
    if nodes != [] {
      TargetsNext(nodes, 0);
    }
  }

  lemma TargetHere(nodes: Table, j: nat, x: Target)
    requires j < |nodes|
    ensures x in Targets(nodes[..j + 1]) <==>
              x in Targets(nodes[..j]) || (nodes[j].Some? && nodes[j].value == x)
  {
    TargetsNext(nodes, j);
    hide Targets;
  }

  lemma StaysIn(a: seq<Target>, b: seq<Target>, x: Target)
    requires a <= b
    ensures x in a ==> x in b
  {
    assert forall k :: 0 <= k < |a| ==> b[k] == a[k];
  }

  lemma {:induction false} TargetsGrow(nodes: Table, k: nat, m: nat)
    requires k <= m <= |nodes|
    ensures Targets(nodes[..k]) <= Targets(nodes[..m])
  {
    hide Targets;
    if k < m {
      TargetsGrow(nodes, k, m - 1);
      TargetsNext(nodes, m - 1);
    }
  }

  /** The targets before a node. */
  function Before(tables: seq<Table>, c: nat, nodeId: nat): seq<Target>
    requires c < |tables| && nodeId <= |tables[c]|
  {
    Flatten(tables[..c]) + Targets(tables[c][..nodeId])
  }

  /** check_for_same_pcntrl_hostname: does an earlier node have this target? */
  method CheckForSame(tables: seq<Table>, c: nat, nodeId: nat, x: Target) returns (found: bool)
    requires AreTables(tables) && c < |tables| && nodeId <= |tables[c]|
    ensures found <==> x in Before(tables, c, nodeId)
  {
    found := false;
    var i: nat := 0;
    hide Flatten, Targets;
    assert Flatten(tables[..0]) == [] by { NoTables(tables); }
    while i < c && !found
      invariant i <= c
      invariant found <==> x in Flatten(tables[..i])
    {
      found := SearchTable(tables[i], |tables[i]|, x);
      assert tables[i][..|tables[i]|] == tables[i];
      FlattenNext(tables, i);
      i := i + 1;
    }
    FlattenGrow(tables, i, c);
    StaysIn(Flatten(tables[..i]), Flatten(tables[..c]), x);
    if !found {
      found := SearchTable(tables[c], nodeId, x);
    }
  }

  lemma NoTables(tables: seq<Table>)
    ensures Flatten(tables[..0]) == []
  {
  }

  lemma {:induction false} FlattenGrow(tables: seq<Table>, k: nat, m: nat)
    requires k <= m <= |tables|
    ensures Flatten(tables[..k]) <= Flatten(tables[..m])
  {
    hide Flatten, Targets;
    if k < m {
      FlattenGrow(tables, k, m - 1);
      FlattenNext(tables, m - 1);
    }
  }

  // ----- the list of targets, slot by slot -----

  /** The list is in the order of clusters, then of node ids: the target of a
      slot stands right behind those of the slots before it. */
  lemma SlotStandsAt(tables: seq<Table>, c: nat, k: nat)
    requires c < |tables| && k < |tables[c]| && tables[c][k].Some?
    ensures Before(tables, c, k) + [tables[c][k].value] <= Flatten(tables)
  {
    TargetsNext(tables[c], k);
    TargetsGrow(tables[c], k + 1, |tables[c]|);
    FlattenNext(tables, c);
    FlattenGrow(tables, c + 1, |tables|);
    assert tables[c][..|tables[c]|] == tables[c] && tables[..|tables|] == tables;
    hide Flatten, Targets;
    assert Before(tables, c, k) + [tables[c][k].value] == Flatten(tables[..c]) + Targets(tables[c][..k + 1]);
  }

  lemma SlotsAreInOrder(tables: seq<Table>, c: nat, k: nat, d: nat, l: nat)
    requires c < |tables| && k < |tables[c]| && tables[c][k].Some? && d < |tables| && l <= |tables[d]|
    requires c < d || (c == d && k < l)
    ensures |Before(tables, c, k)| < |Before(tables, d, l)|
  {
    TargetsNext(tables[c], k);
    if c < d {
      TargetsGrow(tables[c], k + 1, |tables[c]|);
      FlattenNext(tables, c);
      FlattenGrow(tables, c + 1, d);
      assert tables[c][..|tables[c]|] == tables[c];
    } else {
      TargetsGrow(tables[c], k + 1, l);
    }
    hide Flatten, Targets;
  }

  lemma {:induction false} SlotOfTarget(nodes: Table, p: nat) returns (k: nat)
    requires p < |Targets(nodes)|
    ensures k < |nodes| && nodes[k].Some? && |Targets(nodes[..k])| == p
  {
    var n := |nodes| - 1;
    if p < |Targets(nodes[..n])| {
      k := SlotOfTarget(nodes[..n], p);
      assert nodes[..n][..k] == nodes[..k];
    } else {
      k := n;
    }
  }

  /** Every place in the list is that of a slot. */
  lemma {:induction false} SlotOfPlace(tables: seq<Table>, p: nat) returns (c: nat, k: nat)
    requires p < |Flatten(tables)|
    ensures c < |tables| && k < |tables[c]| && tables[c][k].Some? && |Before(tables, c, k)| == p
  {
    var n := |tables| - 1;
    var init := Flatten(tables[..n]);
    if p < |init| {
      c, k := SlotOfPlace(tables[..n], p);
      assert tables[..n][..c] == tables[..c];
    } else {
      k := SlotOfTarget(tables[n], p - |init|);
      c := n;
    }
  }

  /** So the places of the list are the filled slots, in the same order, and the
      target at each place is that of its slot. */
  lemma PlacesAreSlots(tables: seq<Table>, p: nat)
    requires p < |Flatten(tables)|
    ensures exists c: nat, k: nat :: IsSlotAt(tables, c, k, p, Flatten(tables)[p])
    ensures forall c: nat, k: nat, d: nat, l: nat, x, y ::
              IsSlotAt(tables, c, k, p, x) && IsSlotAt(tables, d, l, p, y) ==> c == d && k == l
  {
    var c, k := SlotOfPlace(tables, p);
    SlotStandsAt(tables, c, k);
    assert IsSlotAt(tables, c, k, p, Flatten(tables)[p]);
    forall c: nat, k: nat, d: nat, l: nat, x, y | IsSlotAt(tables, c, k, p, x) && IsSlotAt(tables, d, l, p, y)
      ensures c == d && k == l
    {
      if c < d || (c == d && k < l) {
        SlotsAreInOrder(tables, c, k, d, l);
      } else if d < c || (c == d && l < k) {
        SlotsAreInOrder(tables, d, l, c, k);
      }
    }
  }

  /** Slot `k` of table `c` holds `x` and is the `p`-th of the filled slots. */
  predicate IsSlotAt(tables: seq<Table>, c: nat, k: nat, p: nat, x: Target) {
    c < |tables| && k < |tables[c]| && tables[c][k] == Some(x) && |Before(tables, c, k)| == p
  }

  // ----- the copies -----

  /** The targets of a table that no earlier table has. */
  function New(tables: seq<Table>, c: nat): seq<Target>
    requires c < |tables|
  {
    Fresh(Flatten(tables[..c]), Targets(tables[c]))
  }

  /** What a finished cluster_copy_config_ini has sent and returns: the new
      targets up to the first failure. The return value is not set when
      nothing is sent. */
  ghost predicate Copied(tables: seq<Table>, c: nat, results: seq<int>, before: seq<Target>, unset: int,
                         sent: seq<Target>, code: int)
    requires c < |tables|
  {
    var added := New(tables, c);
    && sent == before + added[..SendsMade(results, |before|, |added|)]
    && code == if tables[c] == [] then 0 else if added == [] then unset else Result(results, |sent| - 1)
  }

  /** The new targets among the nodes below `i`. */
  function NewUpTo(tables: seq<Table>, c: nat, i: nat): seq<Target>
    requires c < |tables| && i <= |tables[c]|
  {
    Fresh(Flatten(tables[..c]), Targets(tables[c][..i]))
  }

  lemma NewNext(tables: seq<Table>, c: nat, i: nat)
    requires c < |tables| && i < |tables[c]|
    ensures NewUpTo(tables, c, i + 1) == NewUpTo(tables, c, i) +
              if tables[c][i].None? || tables[c][i].value in Before(tables, c, i) then [] else [tables[c][i].value]
  {
    TargetsNext(tables[c], i);
    var seen, was, slot := Flatten(tables[..c]), Targets(tables[c][..i]), tables[c][i];
    hide Flatten, Targets, Fresh;
    if slot.Some? {
      FreshSnoc(seen, was, slot.value);
    } else {
      assert was + [] == was;
    }
  }

  lemma {:induction false} NewGrows(tables: seq<Table>, c: nat, i: nat, m: nat)
    requires c < |tables| && i <= m <= |tables[c]|
    ensures NewUpTo(tables, c, i) <= NewUpTo(tables, c, m)
  {
    hide NewUpTo;
    if i < m {
      NewGrows(tables, c, i, m - 1);
      NewNext(tables, c, m - 1);
    }
  }

  lemma NewAtEnds(tables: seq<Table>, c: nat)
    requires c < |tables|
    ensures NewUpTo(tables, c, 0) == [] && NewUpTo(tables, c, |tables[c]|) == New(tables, c)
  {
    assert tables[c][..|tables[c]|] == tables[c];
  }

  /** The nodes below `i` are done and every send was successful. */
  ghost predicate Going(tables: seq<Table>, c: nat, i: nat, results: seq<int>, before: seq<Target>, unset: int,
                        sent: seq<Target>, code: int)
    requires c < |tables| && i <= |tables[c]|
  {
    var added := NewUpTo(tables, c, i);
    sent == before + added && AllSucceed(results, |before|, |added|) && code == if added == [] then unset else 0
  }

  /** The last node below `i` was sent to without success. */
  ghost predicate Stopped(tables: seq<Table>, c: nat, i: nat, results: seq<int>, before: seq<Target>,
                          sent: seq<Target>, code: int)
    requires c < |tables| && i <= |tables[c]|
  {
    var added := NewUpTo(tables, c, i);
    && added != [] && sent == before + added && AllSucceed(results, |before|, |added| - 1)
    && code == Result(results, |before| + |added| - 1) && code != 0
  }

  /** One round of the loop of cluster_copy_config_ini. */
  method CopyNode(tables: seq<Table>, c: nat, i: nat, results: seq<int>, ghost before: seq<Target>, ghost unset: int,
                  sent0: seq<Target>, code0: int)
      returns (sent: seq<Target>, code: int, stop: bool)
    requires AreTables(tables) && c < |tables| && i < |tables[c]|
    requires Going(tables, c, i, results, before, unset, sent0, code0)
    ensures if stop then Stopped(tables, c, i + 1, results, before, sent, code)
            else Going(tables, c, i + 1, results, before, unset, sent, code)
  {
    hide *;
    sent, code, stop := sent0, code0, false;
    var slot := tables[c][i];
    var same := slot.None?;
    if slot.Some? {
      same := CheckForSame(tables, c, i, slot.value);
    }
    if same {
      SkipGoes(tables, c, i, results, before, unset, sent0, code0);
    } else {
      SendGoes(tables, c, i, results, before, unset, sent0, code0);
      code := Result(results, |sent|);
      sent := sent + [slot.value];
      stop := code != 0;
    }
  }

  lemma SkipGoes(tables: seq<Table>, c: nat, i: nat, results: seq<int>, before: seq<Target>, unset: int,
                 sent: seq<Target>, code: int)
    requires c < |tables| && i < |tables[c]| && Going(tables, c, i, results, before, unset, sent, code)
    requires tables[c][i].None? || tables[c][i].value in Before(tables, c, i)
    ensures Going(tables, c, i + 1, results, before, unset, sent, code)
  {
    NewNext(tables, c, i);
    hide NewUpTo, Before, Result;
    assert NewUpTo(tables, c, i) + [] == NewUpTo(tables, c, i);
  }

  lemma SendGoes(tables: seq<Table>, c: nat, i: nat, results: seq<int>, before: seq<Target>, unset: int,
                 sent: seq<Target>, code: int)
    requires c < |tables| && i < |tables[c]| && Going(tables, c, i, results, before, unset, sent, code)
    requires tables[c][i].Some? && tables[c][i].value !in Before(tables, c, i)
    ensures var next := Result(results, |sent|);
            if next != 0 then Stopped(tables, c, i + 1, results, before, sent + [tables[c][i].value], next)
            else Going(tables, c, i + 1, results, before, unset, sent + [tables[c][i].value], next)
  {
    NewNext(tables, c, i);
    var added, x := NewUpTo(tables, c, i), tables[c][i].value;
    hide NewUpTo, Before, Result, AllSucceed;
    assert |added + [x]| - 1 == |added| && added + [x] != [];
    assert before + added + [x] == before + (added + [x]);
    if Result(results, |sent|) == 0 {
      SucceedNext(results, |before|, |added|);
    }
  }

  lemma SucceedNext(results: seq<int>, from: nat, n: nat)
    requires AllSucceed(results, from, n) && Result(results, from + n) == 0
    ensures AllSucceed(results, from, n + 1)
  {
  }

  /** cluster_copy_config_ini. */
  method ClusterCopy(tables: seq<Table>, c: nat, results: seq<int>, before: seq<Target>, unset: int)
      returns (sent: seq<Target>, code: int)
    requires AreTables(tables) && c < |tables|
    ensures Copied(tables, c, results, before, unset, sent, code)
  {
    hide *;
    sent, code := before, unset;
    if tables[c] == [] {
      EmptyIsCopied(tables, c, results, before, unset);
      return before, 0;
    }
    StartGoes(tables, c, results, before, unset);
    var i: nat := 0;
    while i < |tables[c]|
      invariant i <= |tables[c]| && Going(tables, c, i, results, before, unset, sent, code)
    {
      var stop;
      sent, code, stop := CopyNode(tables, c, i, results, before, unset, sent, code);
      i := i + 1;
      if stop {
        StoppedIsCopied(tables, c, i, results, before, unset, sent, code);
        return;
      }
    }
    GoingIsCopied(tables, c, results, before, unset, sent, code);
  }

  lemma EmptyIsCopied(tables: seq<Table>, c: nat, results: seq<int>, before: seq<Target>, unset: int)
    requires c < |tables| && tables[c] == []
    ensures Copied(tables, c, results, before, unset, before, 0)
  {
    NewAtEnds(tables, c);
  }

  lemma StartGoes(tables: seq<Table>, c: nat, results: seq<int>, before: seq<Target>, unset: int)
    requires c < |tables|
    ensures Going(tables, c, 0, results, before, unset, before, unset)
  {
    NewAtEnds(tables, c);
    hide NewUpTo, New;
    assert before + [] == before;
  }

  lemma StoppedIsCopied(tables: seq<Table>, c: nat, i: nat, results: seq<int>, before: seq<Target>, unset: int,
                        sent: seq<Target>, code: int)
    requires c < |tables| && 0 < i <= |tables[c]| && Stopped(tables, c, i, results, before, sent, code)
    ensures Copied(tables, c, results, before, unset, sent, code)
  {
    hide *;
    NewAtEnds(tables, c);
    NewGrows(tables, c, i, |tables[c]|);
    StoppedMeans(tables, c, i, results, before, sent, code);
    var added, all := NewUpTo(tables, c, i), New(tables, c);
    SendsMadeIs(results, |before|, |all|, |added|);
    assert all[..|added|] == added;
    CopiedIs(tables, c, results, before, unset, sent, code);
  }

  lemma StoppedMeans(tables: seq<Table>, c: nat, i: nat, results: seq<int>, before: seq<Target>, sent: seq<Target>,
                     code: int)
    requires c < |tables| && i <= |tables[c]| && Stopped(tables, c, i, results, before, sent, code)
    ensures var added := NewUpTo(tables, c, i);
            && added != [] && sent == before + added && AllSucceed(results, |before|, |added| - 1)
            && code == Result(results, |before| + |added| - 1) && code != 0
  {
  }

  lemma CopiedIs(tables: seq<Table>, c: nat, results: seq<int>, before: seq<Target>, unset: int, sent: seq<Target>,
                 code: int)
    requires c < |tables| && New(tables, c) != [] && sent != [] && tables[c] != []
    requires code == Result(results, |sent| - 1)
    requires sent == before + New(tables, c)[..SendsMade(results, |before|, |New(tables, c)|)]
    ensures Copied(tables, c, results, before, unset, sent, code)
  {
  }

  lemma GoingIsCopied(tables: seq<Table>, c: nat, results: seq<int>, before: seq<Target>, unset: int,
                      sent: seq<Target>, code: int)
    requires c < |tables| && tables[c] != [] && Going(tables, c, |tables[c]|, results, before, unset, sent, code)
    ensures Copied(tables, c, results, before, unset, sent, code)
  {
    NewAtEnds(tables, c);
    hide NewUpTo, New, SendsMade, Result;
    var all := New(tables, c);
    SendsMadeIs(results, |before|, |all|, |all|);
    assert all[..|all|] == all;
  }

  // ----- the whole grid -----

  /** A table whose copy sends nothing and so returns a value that was never set. */
  predicate IsSilent(tables: seq<Table>, c: nat)
    requires c < |tables|
  {
    tables[c] != [] && New(tables, c) == []
  }

  /** The number of tables visited while every send succeeds: a silent table
      that happens to return an error ends the run. */
  function Visited(tables: seq<Table>, unset: seq<int>, c: nat): (n: nat)
    requires c <= |tables| && |unset| == |tables|
    ensures c <= n <= |tables|
    decreases |tables| - c
  {
    if c == |tables| then c
    else if IsSilent(tables, c) && unset[c] != 0 then c + 1
    else Visited(tables, unset, c + 1)
  }

  /** The targets to be sent to, in order. */
  function Wanted(tables: seq<Table>, n: nat): seq<Target>
    requires n <= |tables|
  {
    FirstOnly(Flatten(tables[..n]))
  }

  lemma WantedNext(tables: seq<Table>, c: nat)
    requires c < |tables|
    ensures Wanted(tables, c + 1) == Wanted(tables, c) + New(tables, c)
  {
    FlattenNext(tables, c);
    FreshAppend(Flatten(tables[..c]), Targets(tables[c]));
  }

  lemma {:induction false} WantedGrows(tables: seq<Table>, c: nat, n: nat)
    requires c <= n <= |tables|
    ensures Wanted(tables, c) <= Wanted(tables, n)
  {
    hide Wanted, New;
    if c < n {
      WantedGrows(tables, c, n - 1);
      WantedNext(tables, n - 1);
    }
  }

  /** All tables below `c` were visited with success. */
  ghost predicate OnTrack(tables: seq<Table>, results: seq<int>, unset: seq<int>, c: nat, sent: seq<Target>)
    requires c <= |tables| && |unset| == |tables|
  {
    sent == Wanted(tables, c) && AllSucceed(results, 0, |sent|) &&
        Visited(tables, unset, 0) == Visited(tables, unset, c)
  }

  /** What the run has sent: the wanted targets up to the first failure. */
  ghost predicate IsOutcome(tables: seq<Table>, results: seq<int>, unset: seq<int>, sent: seq<Target>)
    requires |unset| == |tables|
  {
    var wanted := Wanted(tables, Visited(tables, unset, 0));
    sent == wanted[..SendsMade(results, 0, |wanted|)]
  }

  /** copy_config_ini; the first table is the grid's own. */
  method CopyConfigIni(tables: seq<Table>, results: seq<int>, unset: seq<int>) returns (sent: seq<Target>, code: int)
    requires AreTables(tables) && tables != [] && |unset| == |tables|
    ensures IsOutcome(tables, results, unset, sent)
  {
    sent, code := [], 0;
    var c: nat := 0;
    assert OnTrack(tables, results, unset, 0, sent);
    hide *;
    while c < |tables|
      invariant c <= |tables| && OnTrack(tables, results, unset, c, sent)
    {
      ghost var before := sent;
      sent, code := ClusterCopy(tables, c, results, sent, unset[c]);
      TableDone(tables, results, unset, c, before, sent, code);
      c := c + 1;
      if code != 0 {
        return;
      }
    }
    AllDone(tables, results, unset, sent);
  }

  lemma AllDone(tables: seq<Table>, results: seq<int>, unset: seq<int>, sent: seq<Target>)
    requires |unset| == |tables| && OnTrack(tables, results, unset, |tables|, sent)
    ensures IsOutcome(tables, results, unset, sent)
  {
    SendsMadeIs(results, 0, |sent|, |sent|);
    hide Wanted, SendsMade, Result;
    assert sent[..|sent|] == sent;
  }

  lemma {:induction false} NoFailure(results: seq<int>, from: nat, n: nat)
    requires n > 0
    ensures AllSucceed(results, from, SendsMade(results, from, n) - 1)
    ensures Result(results, from + SendsMade(results, from, n) - 1) == 0 ==>
              SendsMade(results, from, n) == n && AllSucceed(results, from, n)
    decreases n
  {
    if Result(results, from) == 0 && n > 1 {
      NoFailure(results, from + 1, n - 1);
    }
  }

  lemma TableDone(tables: seq<Table>, results: seq<int>, unset: seq<int>, c: nat, before: seq<Target>,
                  sent: seq<Target>, code: int)
    requires c < |tables| && |unset| == |tables| && OnTrack(tables, results, unset, c, before)
    requires Copied(tables, c, results, before, unset[c], sent, code)
    ensures if code == 0 then OnTrack(tables, results, unset, c + 1, sent) else IsOutcome(tables, results, unset, sent)
  {
    if New(tables, c) == [] {
      SilentDone(tables, results, unset, c, before, sent, code);
    } else {
      SendsDone(tables, results, unset, c, before, sent, code);
    }
  }

  lemma SilentDone(tables: seq<Table>, results: seq<int>, unset: seq<int>, c: nat, before: seq<Target>,
                   sent: seq<Target>, code: int)
    requires c < |tables| && |unset| == |tables| && OnTrack(tables, results, unset, c, before)
    requires New(tables, c) == [] && Copied(tables, c, results, before, unset[c], sent, code)
    ensures if code == 0 then OnTrack(tables, results, unset, c + 1, sent) else IsOutcome(tables, results, unset, sent)
  {
    WantedNext(tables, c);
    hide New, Wanted, Result, AllSucceed;
    assert sent == before && Wanted(tables, c + 1) == before;
    if code != 0 {
      assert Visited(tables, unset, 0) == c + 1;
      hide SendsMade;
      assert sent == [] || AllSucceed(results, 0, |sent| - 1) by { FewerSucceed(results, |sent|); }
      SendsMadeIs(results, 0, |sent|, |sent|);
      assert sent[..|sent|] == sent;
    }
  }

  lemma FewerSucceed(results: seq<int>, n: nat)
    requires AllSucceed(results, 0, n)
    ensures n == 0 || AllSucceed(results, 0, n - 1)
  {
  }

  lemma SendsDone(tables: seq<Table>, results: seq<int>, unset: seq<int>, c: nat, before: seq<Target>,
                  sent: seq<Target>, code: int)
    requires c < |tables| && |unset| == |tables| && OnTrack(tables, results, unset, c, before)
    requires New(tables, c) != [] && Copied(tables, c, results, before, unset[c], sent, code)
    ensures if code == 0 then OnTrack(tables, results, unset, c + 1, sent) else IsOutcome(tables, results, unset, sent)
  {
    hide *;
    var added := New(tables, c);
    var m := SendsMade(results, |before|, |added|);
    CopiedMeans(tables, c, results, before, unset[c], sent, code);
    NoFailure(results, |before|, |added|);
    VisitedPast(tables, unset, c);
    if code == 0 {
      SuccessDone(tables, results, unset, c, before);
      assert added[..m] == added;
    } else {
      FailureDone(tables, results, unset, c, before, m, sent);
    }
  }

  lemma CopiedMeans(tables: seq<Table>, c: nat, results: seq<int>, before: seq<Target>, unset: int, sent: seq<Target>,
                    code: int)
    requires c < |tables| && New(tables, c) != [] && Copied(tables, c, results, before, unset, sent, code)
    ensures var m := SendsMade(results, |before|, |New(tables, c)|);
            0 < m <= |New(tables, c)| && sent == before + New(tables, c)[..m] &&
                code == Result(results, |before| + m - 1)
  {
    NewNeedsTable(tables, c);
    hide New, Result;
  }

  lemma VisitedPast(tables: seq<Table>, unset: seq<int>, c: nat)
    requires c < |tables| == |unset| && New(tables, c) != []
    ensures Visited(tables, unset, c) == Visited(tables, unset, c + 1)
  {
  }

  lemma SuccessDone(tables: seq<Table>, results: seq<int>, unset: seq<int>, c: nat, before: seq<Target>)
    requires c < |tables| == |unset| && OnTrack(tables, results, unset, c, before)
    requires Visited(tables, unset, c) == Visited(tables, unset, c + 1)
    requires AllSucceed(results, |before|, |New(tables, c)|)
    ensures OnTrack(tables, results, unset, c + 1, before + New(tables, c))
  {
    WantedNext(tables, c);
    hide New, Wanted, AllSucceed, Visited;
    SucceedJoin(results, |before|, |New(tables, c)|);
  }

  lemma FailureDone(tables: seq<Table>, results: seq<int>, unset: seq<int>, c: nat, before: seq<Target>, m: nat,
                    sent: seq<Target>)
    requires c < |tables| == |unset| && OnTrack(tables, results, unset, c, before)
    requires Visited(tables, unset, c) == Visited(tables, unset, c + 1)
    requires 0 < m <= |New(tables, c)| && sent == before + New(tables, c)[..m]
    requires AllSucceed(results, |before|, m - 1) && Result(results, |before| + m - 1) != 0
    ensures IsOutcome(tables, results, unset, sent)
  {
    hide *;
    OnTrackMeans(tables, results, unset, c, before);
    WantedNext(tables, c);
    var n := Visited(tables, unset, 0);
    WantedGrows(tables, c + 1, n);
    CutAtFailure(results, Wanted(tables, n), before, New(tables, c), m, sent);
    OutcomeIs(tables, results, unset, sent);
  }

  lemma OnTrackMeans(tables: seq<Table>, results: seq<int>, unset: seq<int>, c: nat, before: seq<Target>)
    requires c <= |tables| == |unset| && OnTrack(tables, results, unset, c, before)
    ensures before == Wanted(tables, c) && AllSucceed(results, 0, |before|)
    ensures Visited(tables, unset, 0) == Visited(tables, unset, c)
  {
  }

  lemma OutcomeIs(tables: seq<Table>, results: seq<int>, unset: seq<int>, sent: seq<Target>)
    requires |unset| == |tables|
    requires var wanted := Wanted(tables, Visited(tables, unset, 0)); sent == wanted[..SendsMade(results, 0, |wanted|)]
    ensures IsOutcome(tables, results, unset, sent)
  {
  }

  lemma NewNeedsTable(tables: seq<Table>, c: nat)
    requires c < |tables| && New(tables, c) != []
    ensures tables[c] != []
  {
    NewAtEnds(tables, c);
    hide New, NewUpTo;
  }

  lemma SucceedJoin(results: seq<int>, n: nat, m: nat)
    requires AllSucceed(results, 0, n) && AllSucceed(results, n, m)
    ensures AllSucceed(results, 0, n + m)
  {
  }

  lemma CutAtFailure(results: seq<int>, wanted: seq<Target>, before: seq<Target>, added: seq<Target>, m: nat,
                     sent: seq<Target>)
    requires 0 < m <= |added| && before + added <= wanted && sent == before + added[..m]
    requires AllSucceed(results, 0, |before|) && AllSucceed(results, |before|, m - 1)
    requires Result(results, |before| + m - 1) != 0
    ensures sent == wanted[..SendsMade(results, 0, |wanted|)]
  {
    SucceedJoin(results, |before|, m - 1);
    hide SendsMade, Result, AllSucceed;
    SendsMadeIs(results, 0, |wanted|, |sent|);
    assert wanted[..|before| + |added|] == before + added;
    assert wanted[..|sent|] == sent;
  }

  // ----- exactly once -----

  /** A run sends to every target at most once, in order of first position. */
  lemma NeverTwice(tables: seq<Table>, results: seq<int>, unset: seq<int>, sent: seq<Target>)
    requires |unset| == |tables| && IsOutcome(tables, results, unset, sent)
    ensures sent <= FirstOnly(Flatten(tables))
    ensures forall x :: multiset(sent)[x] <= 1
  {
    var n := Visited(tables, unset, 0);
    WantedGrows(tables, n, |tables|);
    assert tables[..|tables|] == tables;
    var all := FirstOnly(Flatten(tables));
    FirstOnlyIsExact(Flatten(tables));
    hide Wanted, FirstOnly, Flatten, SendsMade, Visited;
    assert sent <= all;
    hide *;
    forall x ensures multiset(sent)[x] <= 1 {
      PrefixCounts(sent, all, x);
      assert multiset(all)[x] <= 1;
    }
  }

  lemma PrefixCounts(a: seq<Target>, b: seq<Target>, x: Target)
    requires a <= b
    ensures multiset(a)[x] <= multiset(b)[x]
  {
    assert b == a + b[|a|..];
  }

  /** If every send succeeds, every process controller of the grid gets the file,
      exactly once, exactly when no table with a new one lies behind the first
      silent table that returns an error. */
  lemma EachOnceIff(tables: seq<Table>, unset: seq<int>, results: seq<int>, sent: seq<Target>)
    requires |unset| == |tables| && IsOutcome(tables, results, unset, sent)
    requires forall k :: 0 <= k < |results| ==> results[k] == 0
    ensures sent == FirstOnly(Flatten(tables)) <==>
              forall c :: Visited(tables, unset, 0) <= c < |tables| ==> New(tables, c) == []
    ensures (forall c :: 0 <= c < |tables| ==> unset[c] == 0) ==> sent == FirstOnly(Flatten(tables))
  {
    var n := Visited(tables, unset, 0);
    var wanted := Wanted(tables, n);
    assert AllSucceed(results, 0, |wanted|);
    SendsMadeIs(results, 0, |wanted|, |wanted|);
    assert wanted[..|wanted|] == wanted;
    assert sent == wanted;
    assert tables[..|tables|] == tables;
    assert Wanted(tables, |tables|) == FirstOnly(Flatten(tables));
    WantedStays(tables, n, |tables|);
    if forall c :: 0 <= c < |tables| ==> unset[c] == 0 {
      AllVisited(tables, unset, 0);
    }
  }

  lemma {:induction false} WantedStays(tables: seq<Table>, n: nat, m: nat)
    requires n <= m <= |tables|
    ensures Wanted(tables, n) == Wanted(tables, m) <==> forall c :: n <= c < m ==> New(tables, c) == []
  {
    hide Wanted, New;
    if n < m {
      WantedStays(tables, n, m - 1);
      WantedNext(tables, m - 1);
      WantedGrows(tables, n, m - 1);
    }
  }

  lemma {:induction false} AllVisited(tables: seq<Table>, unset: seq<int>, c: nat)
    requires c <= |tables| == |unset| && forall i :: 0 <= i < |unset| ==> unset[i] == 0
    ensures Visited(tables, unset, c) == |tables|
    decreases |tables| - c
  {
    if c < |tables| {
      AllVisited(tables, unset, c + 1);
    }
  }

  lemma {:induction false} VisitedStops(tables: seq<Table>, unset: seq<int>, c: nat)
    requires c <= |tables| == |unset| && Visited(tables, unset, c) < |tables|
    ensures c < Visited(tables, unset, c) && IsSilent(tables, Visited(tables, unset, c) - 1)
    decreases |tables| - c
  {
    hide IsSilent;
    if !(IsSilent(tables, c) && unset[c] != 0) {
      VisitedStops(tables, unset, c + 1);
    }
  }

  lemma {:induction false} VisitedUpTo(tables: seq<Table>, unset: seq<int>, i: nat, c: nat)
    requires c <= i < |tables| == |unset| && IsSilent(tables, i) && unset[i] != 0
    requires forall k :: 0 <= k < i ==> unset[k] == 0
    ensures Visited(tables, unset, c) == i + 1
    decreases i - c
  {
    hide IsSilent;
    if c < i {
      VisitedUpTo(tables, unset, i, c + 1);
    }
  }

  /** No table with a new process controller lies behind a silent one. */
  ghost predicate NewBeforeSilent(tables: seq<Table>) {
    forall i, j :: 0 <= i < j < |tables| && IsSilent(tables, i) ==> New(tables, j) == []
  }

  /** Every run without a failed send gives the file to all process controllers. */
  ghost predicate AlwaysCopied(tables: seq<Table>, results: seq<int>) {
    forall unset, sent :: |unset| == |tables| && IsOutcome(tables, results, unset, sent) ==>
      sent == FirstOnly(Flatten(tables))
  }

  /** Whatever the values that are never set: if every send succeeds, every
      process controller of the grid gets the file, exactly once, exactly when no
      table with a new one lies behind a table that sends nothing. */
  lemma EachOnceAlwaysIff(tables: seq<Table>, results: seq<int>)
    requires forall k :: 0 <= k < |results| ==> results[k] == 0
    ensures AlwaysCopied(tables, results) <==> NewBeforeSilent(tables)
  {
    hide Flatten, FirstOnly, IsOutcome, IsSilent, New, Visited;
    if NewBeforeSilent(tables) {
      forall unset: seq<int>, sent | |unset| == |tables| && IsOutcome(tables, results, unset, sent)
        ensures sent == FirstOnly(Flatten(tables))
      {
        EachOnceIff(tables, unset, results, sent);
        if Visited(tables, unset, 0) < |tables| {
          VisitedStops(tables, unset, 0);
        }
      }
    } else {
      var i, j :| 0 <= i < j < |tables| && IsSilent(tables, i) && New(tables, j) != [];
      var unset, sent := LeavesOut(tables, results, i, j);
    }
  }

  /** An error from table `i` alone leaves out what table `j` adds. */
  lemma LeavesOut(tables: seq<Table>, results: seq<int>, i: nat, j: nat) returns (unset: seq<int>, sent: seq<Target>)
    requires forall k :: 0 <= k < |results| ==> results[k] == 0
    requires i < j < |tables| && IsSilent(tables, i) && New(tables, j) != []
    ensures |unset| == |tables| && IsOutcome(tables, results, unset, sent) && sent != FirstOnly(Flatten(tables))
  {
    hide Flatten, FirstOnly, IsSilent, New, Visited, Wanted, SendsMade;
    unset := seq(|tables|, k => if k == i then 1 else 0);
    VisitedUpTo(tables, unset, i, 0);
    var wanted := Wanted(tables, Visited(tables, unset, 0));
    sent := wanted[..SendsMade(results, 0, |wanted|)];
    EachOnceIff(tables, unset, results, sent);
  }

  /** It can happen: the second cluster has only a controller that the first has
      too, its copy returns some error, and the third cluster is left out. */
  lemma UnsetValueCanEndTheRun(a: Target, b: Target)
    requires a != b
    ensures var tables: seq<Table> := [[None, Some(a)], [None, Some(a)], [None, Some(b)]];
            && AreTables(tables) && Visited(tables, [0, 1, 0], 0) == 2
            && b in Flatten(tables) && b !in Wanted(tables, 2)
  {
    var tables: seq<Table> := [[None, Some(a)], [None, Some(a)], [None, Some(b)]];
    OneTarget(a);
    OneTarget(b);
    assert tables[0][0].None? && tables[1][0].None? && tables[2][0].None?;
    hide Flatten, Targets, Visited, Wanted;
    ExampleRun(tables, [0, 1, 0], a, b);
  }

  lemma ExampleRun(tables: seq<Table>, unset: seq<int>, a: Target, b: Target)
    requires a != b && |tables| == 3 && |unset| == 3 && unset[0] == 0 && unset[1] != 0 && tables[0] != []
    requires tables[1] != []
    requires Targets(tables[0]) == [a] && Targets(tables[1]) == [a] && Targets(tables[2]) == [b]
    ensures Visited(tables, unset, 0) == 2 && b in Flatten(tables) && b !in Wanted(tables, 2)
  {
    ExampleFlatten(tables, a, b);
    ExampleFresh(a);
    assert [a, a, b][2] == b;
    hide Flatten, Targets, Fresh;
    assert New(tables, 0) == [a] && New(tables, 1) == [] && Wanted(tables, 2) == [a];
    hide New, Wanted;
    assert Visited(tables, unset, 1) == 2;
  }

  lemma ExampleFlatten(tables: seq<Table>, a: Target, b: Target)
    requires |tables| == 3 && Targets(tables[0]) == [a] && Targets(tables[1]) == [a] && Targets(tables[2]) == [b]
    ensures Flatten(tables[..0]) == [] && Flatten(tables[..1]) == [a] && Flatten(tables[..2]) == [a, a]
    ensures Flatten(tables) == [a, a, b]
  {
    hide Targets, Flatten;
    NoTables(tables);
    FlattenNext(tables, 0);
    FlattenNext(tables, 1);
    FlattenNext(tables, 2);
    assert tables[..3] == tables;
  }

  lemma ExampleFresh(a: Target)
    ensures Fresh([], [a]) == [a] && Fresh([a], [a]) == [] && Fresh([], [a, a]) == [a]
  {
    FreshSnoc([], [], a);
    FreshSnoc([a], [], a);
    FreshSnoc([], [a], a);
    assert [] + [a] == [a] && [a] + [a] == [a, a];
    assert Fresh([], []) == [] && Fresh([a], []) == [];
  }

  lemma OneTarget(x: Target)
    ensures Targets([None, Some(x)]) == [x]
  {
    var nodes: Table := [None, Some(x)];
    TargetsNext(nodes, 0);
    TargetsNext(nodes, 1);
    assert nodes[..2] == nodes && Targets(nodes[..0]) == [];
  }
}
