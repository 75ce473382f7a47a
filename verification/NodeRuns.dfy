/** Whole runs of PREPARE commands: what is recorded stays distinct, and exactly
    which runs raise the exit flag. */
module NodeRuns {
  import opened Basics
  import opened BootGrammar
  import opened NodeIds

  /** What one command does: a PREPARE is recorded and checked, or recorded when
      the command is rejected behind it and then not checked; EXIT ends the run. */
  datatype Action = Execute(ev: Event) | RecordOnly(ev: Event) | Quit

  /** What each command finds when it reads behind a list. */
  type World = nat -> After

  ghost function Act(p: State, after: After, a: Action): State {
    if p.exited then p
    else
      match a
      case Execute(ev) => Next(p, after, ev)
      case RecordOnly(ev) => Record(p, ev)
      case Quit => p.(exited := true)
  }

  /** The state after some actions. */
  ghost function Run(world: World, actions: seq<Action>): State {
    if actions == [] then START
    else
      var n := |actions| - 1;
      Act(Run(world, actions[..n]), world(n), actions[n])
  }

  lemma RunSnoc(world: World, actions: seq<Action>, a: Action)
    ensures Run(world, actions + [a]) == Act(Run(world, actions), world(|actions|), a)
  {
    assert (actions + [a])[..|actions|] == actions;
  }

  /** The methods carry out the run. */
  method RunAll(data: ParseData, actions: seq<Action>, world: World)
    requires data.Current() == START
    modifies data
    ensures data.Current() == Run(world, actions)
  {
    var i: nat := 0;
    assert actions[..0] == [];
    hide Next, Record;
    while i < |actions| && !data.exitFlag
      invariant i <= |actions|
      invariant data.Current() == Run(world, actions[..i])
    {
      assert actions[..i + 1] == actions[..i] + [actions[i]];
      RunSnoc(world, actions[..i], actions[i]);
      hide Run;
      match actions[i] {
        case Execute(ev) => data.Prepare(ev.server, ev.entry, world(i));
        case RecordOnly(ev) => data.RecordServer(ev.server, ev.entry);
        case Quit => data.exitFlag := true;
      }
      i := i + 1;
    }
    if data.exitFlag {
      ExitIsFinal(world, actions, i);
    } else {
      assert actions[..i] == actions;
    }
  }

  lemma {:induction false} ExitIsFinal(world: World, actions: seq<Action>, i: nat)
    requires i <= |actions| && Run(world, actions[..i]).exited
    ensures Run(world, actions) == Run(world, actions[..i])
    decreases |actions| - i
  {
    if i == |actions| {
      assert actions[..i] == actions;
    } else {
      assert actions[..i + 1] == actions[..i] + [actions[i]];
      RunSnoc(world, actions[..i], actions[i]);
      ExitIsFinal(world, actions, i + 1);
    }
  }

  // ----- lists and counters -----

  /** A counter passes the length of its list only when the list is full. */
  ghost predicate Shaped(p: State) {
    forall s :: |p.lists.Of(s)| == if p.next.Of(s) < Limit(s) then p.next.Of(s) else Limit(s)
  }

  /** Everything that was counted is recorded. */
  ghost predicate InLimits(p: State) {
    forall s :: p.next.Of(s) == |p.lists.Of(s)| <= Limit(s)
  }

  lemma RecordKeepsShape(p: State, ev: Event)
    requires Shaped(p)
    ensures Shaped(Record(p, ev))
  {
    var q := Record(p, ev);
    hide Limit;
    forall s ensures |q.lists.Of(s)| == if q.next.Of(s) < Limit(s) then q.next.Of(s) else Limit(s) {
      assert |p.lists.Of(s)| == if p.next.Of(s) < Limit(s) then p.next.Of(s) else Limit(s);
    }
  }

  /** The first entries of a view are the recorded ones. */
  lemma ViewStartsWithList(p: State, after: After, s: Server)
    requires Shaped(p)
    ensures p.lists.Of(s) <= View(p, after, s)
    ensures InLimits(p) ==> View(p, after, s) == p.lists.Of(s)
  {
    var list := p.lists.Of(s);
    hide View, Counts.Of, Limit;
    assert |list| == if p.next.Of(s) < Limit(s) then p.next.Of(s) else Limit(s);
    assert InLimits(p) ==> p.next.Of(s) == |list|;
    hide Lists.Of;
  }

  /** Node ids are pairwise distinct, except that data servers of different
      clusters may share one. */
  ghost predicate AllDistinct(lists: Lists) {
    forall s, i, t, j :: 0 <= i < |lists.Of(s)| && 0 <= j < |lists.Of(t)| && (s != t || i != j) ==>
      !Clash(s, lists.Of(s)[i], t, lists.Of(t)[j])
  }

  lemma AcceptKeepsDistinct(lists: Lists, server: Server, e: Entry)
    requires AllDistinct(lists) && forall s :: !ClashesIn(lists.Of(s), s, server, e)
    ensures AllDistinct(lists.Append(server, e))
  {
    var next := lists.Append(server, e);
    forall s, i, t, j | 0 <= i < |next.Of(s)| && 0 <= j < |next.Of(t)| && (s != t || i != j)
      ensures !Clash(s, next.Of(s)[i], t, next.Of(t)[j])
    {
      hide Clash, AllDistinct, ClashesIn, Lists.Of;
      if i < |lists.Of(s)| && j < |lists.Of(t)| {
        OldPair(lists, s, i, t, j);
      }
      NewPair(lists.Of(s), next.Of(s), lists.Of(t), next.Of(t), server, e, s, i, t, j);
    }
  }

  lemma NewPair(a: seq<Entry>, a': seq<Entry>, b: seq<Entry>, b': seq<Entry>, server: Server, e: Entry,
                s: Server, i: nat, t: Server, j: nat)
    requires a' == (if s == server then a + [e] else a) && b' == (if t == server then b + [e] else b)
    requires s == t ==> a == b
    requires !ClashesIn(a, s, server, e) && !ClashesIn(b, t, server, e)
    requires i < |a'| && j < |b'| && (s != t || i != j)
    requires i < |a| && j < |b| ==> !Clash(s, a[i], t, b[j])
    ensures !Clash(s, a'[i], t, b'[j])
  {
    hide Clash, ClashesIn;
    if i >= |a| && j < |b| {
      NoClashAt(b, j, t, server, e);
    } else if i < |a| && j >= |b| {
      NoClashAt(a, i, s, server, e);
    }
  }

  lemma OldPair(lists: Lists, s: Server, i: nat, t: Server, j: nat)
    requires AllDistinct(lists) && i < |lists.Of(s)| && j < |lists.Of(t)| && (s != t || i != j)
    ensures !Clash(s, lists.Of(s)[i], t, lists.Of(t)[j])
  {
    hide Lists.Of, Clash;
  }

  lemma NoClashAt(list: seq<Entry>, i: nat, s: Server, t: Server, f: Entry)
    requires i < |list| && !ClashesIn(list, s, t, f)
    ensures !Clash(s, list[i], t, f) && !Clash(t, f, s, list[i])
  {
  }

  lemma NoClashInPart(part: seq<Entry>, list: seq<Entry>, s: Server, t: Server, f: Entry)
    requires part <= list && !ClashesIn(list, s, t, f)
    ensures !ClashesIn(part, s, t, f)
  {
    hide Clash;
    forall i | 0 <= i < |part| ensures !Clash(s, part[i], t, f) {
      assert part[i] == list[i];
    }
  }

  /** A server that is recorded and not flagged clashes with none recorded before. */
  lemma RecordedIsChecked(p: State, after: After, ev: Event, s: Server)
    requires Shaped(p) && !p.exited && !Next(p, after, ev).exited && p.next.Of(ev.server) < Limit(ev.server)
    ensures !ClashesIn(p.lists.Of(s), s, ev.server, ev.entry)
  {
    var q := Record(p, ev);
    RecordKeepsShape(p, ev);
    ViewStartsWithList(q, after, ev.server);
    ViewStartsWithList(q, after, s);
    assert !ClashesIn(Searched(q, after, s, ev.server), s, ev.server, Newest(q, after, ev.server));
    var n := p.next.Of(ev.server);
    assert q.lists.Of(ev.server) == p.lists.Of(ev.server) + [ev.entry] && |p.lists.Of(ev.server)| == n;
    assert q.lists.Of(s) == if s == ev.server then p.lists.Of(s) + [ev.entry] else p.lists.Of(s);
    assert q.next.Of(ev.server) == n + 1;
    hide View, Load, ClashesIn, Limit, Counts.Of, Lists.Of, Shaped;
    assert Newest(q, after, ev.server) == ev.entry by {
      assert View(q, after, ev.server)[n] == q.lists.Of(ev.server)[n];
    }
    assert p.lists.Of(s) <= Searched(q, after, s, ev.server);
    NoClashInPart(p.lists.Of(s), Searched(q, after, s, ev.server), s, ev.server, ev.entry);
  }

  /** A further server keeps the ids distinct exactly when it clashes with none. */
  lemma AppendDistinctIff(lists: Lists, server: Server, e: Entry)
    ensures AllDistinct(lists.Append(server, e)) <==>
              AllDistinct(lists) && forall s :: !ClashesIn(lists.Of(s), s, server, e)
  {
    var next := lists.Append(server, e);
    if AllDistinct(next) {
      hide Lists.Of, Lists.Append, Clash, ClashesIn;
      forall s ensures next.Of(s)[..|lists.Of(s)|] == lists.Of(s) {
      }
      DistinctBefore(lists, next);
      forall s ensures !ClashesIn(lists.Of(s), s, server, e) {
        LastMeetsNone(lists, next, server, e, s);
      }
    } else if AllDistinct(lists) && forall s :: !ClashesIn(lists.Of(s), s, server, e) {
      AcceptKeepsDistinct(lists, server, e);
    }
  }

  lemma DistinctBefore(lists: Lists, next: Lists)
    requires AllDistinct(next) && forall s :: lists.Of(s) <= next.Of(s)
    ensures AllDistinct(lists)
  {
    hide Lists.Of, Clash;
    forall s, i, t, j | 0 <= i < |lists.Of(s)| && 0 <= j < |lists.Of(t)| && (s != t || i != j)
      ensures !Clash(s, lists.Of(s)[i], t, lists.Of(t)[j])
    {
      OldPair(next, s, i, t, j);
    }
  }

  lemma LastMeetsNone(lists: Lists, next: Lists, server: Server, e: Entry, s: Server)
    requires AllDistinct(next) && lists.Of(s) <= next.Of(s) && next.Of(server) == lists.Of(server) + [e]
    ensures !ClashesIn(lists.Of(s), s, server, e)
  {
    hide Lists.Of, Clash;
    forall i | 0 <= i < |lists.Of(s)| ensures !Clash(s, lists.Of(s)[i], server, e) {
      OldPair(next, s, i, server, |lists.Of(server)|);
    }
  }

  /** A server that is recorded without a check clashes with none recorded before. */
  ghost predicate IsClean(p: State, a: Action) {
    a.RecordOnly? && p.next.Of(a.ev.server) < Limit(a.ev.server) ==>
      forall s :: !ClashesIn(p.lists.Of(s), s, a.ev.server, a.ev.entry)
  }

  ghost predicate AllClean(world: World, actions: seq<Action>) {
    forall j :: 0 <= j < |actions| ==> IsClean(Run(world, actions[..j]), actions[j])
  }

  lemma AllCleanSnoc(world: World, actions: seq<Action>, a: Action)
    ensures AllClean(world, actions + [a]) <==> AllClean(world, actions) && IsClean(Run(world, actions), a)
  {
    hide IsClean, Run;
    var all := actions + [a];
    forall j | 0 <= j < |actions| ensures all[..j] == actions[..j] && all[j] == actions[j] {
    }
    assert all[..|actions|] == actions && all[|actions|] == a;
  }

  lemma ActKeepsDistinctIff(p: State, after: After, a: Action)
    requires Shaped(p) && !p.exited && !Act(p, after, a).exited
    ensures Shaped(Act(p, after, a))
    ensures AllDistinct(Act(p, after, a).lists) <==> AllDistinct(p.lists) && IsClean(p, a)
  {
    var ev := a.ev;
    RecordKeepsShape(p, ev);
    assert Act(p, after, a).lists == Record(p, ev).lists && Act(p, after, a).next == Record(p, ev).next;
    if p.next.Of(ev.server) < Limit(ev.server) {
      AppendDistinctIff(p.lists, ev.server, ev.entry);
      if a.Execute? {
        forall s ensures !ClashesIn(p.lists.Of(s), s, ev.server, ev.entry) {
          RecordedIsChecked(p, after, ev, s);
        }
      }
    }
    hide AllDistinct, Limit, ClashesIn, Lists.Of, Counts.Of;
  }

  /** After every run that has not raised the flag, whatever lies behind the
      arrays, no list is longer than its array, and the recorded ids are distinct
      exactly when every server recorded without a check was clean. */
  lemma {:induction false} RunsKeepDistinctIff(world: World, actions: seq<Action>)
    requires !Run(world, actions).exited
    ensures Shaped(Run(world, actions))
    ensures AllDistinct(Run(world, actions).lists) <==> AllClean(world, actions)
  {
    if actions == [] {
      StartIsDistinct();
    } else {
      var n := |actions| - 1;
      var init, a := actions[..n], actions[n];
      assert actions == init + [a];
      hide *;
      RunSnoc(world, init, a);
      NotExitedBefore(Run(world, init), world(n), a);
      RunsKeepDistinctIff(world, init);
      ActKeepsDistinctIff(Run(world, init), world(n), a);
      AllCleanSnoc(world, init, a);
    }
  }

  lemma StartIsDistinct()
    ensures Shaped(START) && AllDistinct(START.lists)
  {
  }

  lemma NotExitedBefore(p: State, after: After, a: Action)
    ensures p.exited ==> Act(p, after, a) == p
  {
  }

  // ----- one step within the limits -----

  /** Room for one more server of a kind; a fifth one of a grid kind is refused
      and needs none. */
  predicate HasRoom(p: State, server: Server) {
    InCluster(server) ==> p.next.Of(server) < Limit(server)
  }

  lemma RecordInLimits(p: State, after: After, ev: Event)
    requires InLimits(p) && p.next.Of(ev.server) < Limit(ev.server)
    ensures var q := Record(p, ev);
            && InLimits(q) && q.lists == p.lists.Append(ev.server, ev.entry)
            && Newest(q, after, ev.server) == ev.entry
            && forall s :: Searched(q, after, s, ev.server) == p.lists.Of(s)
  {
    var q := Record(p, ev);
    hide Load;
    forall s ensures q.next.Of(s) == |q.lists.Of(s)| <= Limit(s) {
      assert p.next.Of(s) == |p.lists.Of(s)| <= Limit(s);
    }
    InLimitsIsShaped(q);
    hide Limit, Counts.Of, Lists.Of, View, InLimits;
    var n := p.next.Of(ev.server);
    ViewStartsWithList(q, after, ev.server);
    assert Newest(q, after, ev.server) == View(q, after, ev.server)[n];
    forall s ensures Searched(q, after, s, ev.server) == p.lists.Of(s) {
      ViewStartsWithList(q, after, s);
    }
  }

  lemma InLimitsIsShaped(p: State)
    requires InLimits(p)
    ensures Shaped(p)
  {
    hide Limit;
    forall s ensures |p.lists.Of(s)| == if p.next.Of(s) < Limit(s) then p.next.Of(s) else Limit(s) {
      assert p.next.Of(s) == |p.lists.Of(s)| <= Limit(s);
    }
  }

  /** With room the flag is raised exactly for one server too many or a clash,
      and the server is recorded otherwise. */
  lemma StepIsRight(p: State, after: After, ev: Event)
    requires InLimits(p) && !p.exited && HasRoom(p, ev.server)
    ensures Next(p, after, ev).exited <==> !Accepts(p.lists, ev.server, ev.entry)
    ensures !Next(p, after, ev).exited ==>
              InLimits(Next(p, after, ev)) && Next(p, after, ev).lists == p.lists.Append(ev.server, ev.entry)
  {
    var q := Record(p, ev);
    assert p.next.Of(ev.server) == |p.lists.Of(ev.server)| <= Limit(ev.server);
    assert q.next.Of(ev.server) == p.next.Of(ev.server) + 1;
    if p.next.Of(ev.server) < Limit(ev.server) {
      RecordInLimits(p, after, ev);
      hide Searched, Newest, ClashesIn, Lists.Of, Counts.Of, Record;
      ClashIsRefusal(p, q, after, ev);
    }
  }

  lemma ClashIsRefusal(p: State, q: State, after: After, ev: Event)
    requires q.next.Of(ev.server) > 0 && Newest(q, after, ev.server) == ev.entry
    requires forall s :: Searched(q, after, s, ev.server) == p.lists.Of(s)
    ensures ClashFound(q, after, ev.server) <==> exists s :: ClashesIn(p.lists.Of(s), s, ev.server, ev.entry)
  {
    hide Searched, Newest, ClashesIn, Lists.Of;
    if ClashFound(q, after, ev.server) {
      var s :| ClashesIn(Searched(q, after, s, ev.server), s, ev.server, Newest(q, after, ev.server));
      assert ClashesIn(p.lists.Of(s), s, ev.server, ev.entry);
    }
    if exists s :: ClashesIn(p.lists.Of(s), s, ev.server, ev.entry) {
      var s :| ClashesIn(p.lists.Of(s), s, ev.server, ev.entry);
      assert ClashesIn(Searched(q, after, s, ev.server), s, ev.server, Newest(q, after, ev.server));
    }
  }

  // ----- exactly which runs raise the flag -----

  /** The entries of one kind, in order. */
  function Recorded(events: seq<Event>, s: Server): seq<Entry> {
    if events == [] then []
    else
      var ev := events[|events| - 1];
      Recorded(events[..|events| - 1], s) + if ev.server == s then [ev.entry] else []
  }

  ghost predicate ClashesWith(events: seq<Event>, t: Server, f: Entry) {
    exists i :: 0 <= i < |events| && Clash(events[i].server, events[i].entry, t, f)
  }

  ghost predicate Distinct(events: seq<Event>) {
    forall j :: 0 <= j < |events| ==> !ClashesWith(events[..j], events[j].server, events[j].entry)
  }

  ghost predicate Few(events: seq<Event>) {
    |Recorded(events, ClusterServer)| <= MAX_GRID_SERVERS && |Recorded(events, ClusterManager)| <= MAX_GRID_SERVERS
  }

  lemma RecordedSnoc(events: seq<Event>, ev: Event, s: Server)
    ensures Recorded(events + [ev], s) == Recorded(events, s) + if ev.server == s then [ev.entry] else []
  {
    assert (events + [ev])[..|events|] == events;
  }

  lemma ClashesWithSnoc(events: seq<Event>, ev: Event, t: Server, f: Entry)
    ensures ClashesWith(events + [ev], t, f) <==> ClashesWith(events, t, f) || Clash(ev.server, ev.entry, t, f)
  {
    hide Clash;
    var all := events + [ev];
    if ClashesWith(events, t, f) {
      var i :| 0 <= i < |events| && Clash(events[i].server, events[i].entry, t, f);
      assert all[i] == events[i];
    }
    assert all[|events|] == ev;
  }

  /** Searching the lists one by one is searching all events. */
  lemma {:induction false} ListsHoldEvents(events: seq<Event>, t: Server, f: Entry)
    ensures ClashesWith(events, t, f) <==> SomeListClashes(events, t, f)
  {
    if events != [] {
      var init, ev := events[..|events| - 1], events[|events| - 1];
      assert events == init + [ev];
      ListsHoldEvents(init, t, f);
      ClashesWithSnoc(init, ev, t, f);
      hide ClashesWith, ClashesIn, Clash, Recorded;
      forall s ensures ClashesIn(Recorded(events, s), s, t, f) <==>
                         ClashesIn(Recorded(init, s), s, t, f) || (s == ev.server && Clash(s, ev.entry, t, f)) {
        RecordedSnoc(init, ev, s);
        if s == ev.server {
          ClashesSnoc(Recorded(init, s), ev.entry, s, t, f);
        } else {
          assert Recorded(init, s) + [] == Recorded(init, s);
        }
      }
      if SomeListClashes(init, t, f) {
        var s :| ClashesIn(Recorded(init, s), s, t, f);
        ThisListClashes(events, s, t, f);
      } else if Clash(ev.server, ev.entry, t, f) {
        ThisListClashes(events, ev.server, t, f);
      }
    }
  }

  ghost predicate SomeListClashes(events: seq<Event>, t: Server, f: Entry) {
    exists s :: ClashesIn(Recorded(events, s), s, t, f)
  }

  lemma ThisListClashes(events: seq<Event>, s: Server, t: Server, f: Entry)
    requires ClashesIn(Recorded(events, s), s, t, f)
    ensures SomeListClashes(events, t, f)
  {
  }

  lemma DistinctSnoc(events: seq<Event>, ev: Event)
    ensures Distinct(events + [ev]) <==> Distinct(events) && !ClashesWith(events, ev.server, ev.entry)
  {
    hide ClashesWith;
    var all := events + [ev];
    forall j | 0 <= j < |events| ensures all[..j] == events[..j] && all[j] == events[j] {
    }
    assert all[..|events|] == events && all[|events|] == ev;
  }

  lemma FewSnoc(events: seq<Event>, ev: Event)
    ensures Few(events + [ev]) <==>
              Few(events) && (!InCluster(ev.server) ==> |Recorded(events, ev.server)| < MAX_GRID_SERVERS)
  {
    RecordedSnoc(events, ev, ClusterServer);
    RecordedSnoc(events, ev, ClusterManager);
    hide Recorded;
  }

  /** The servers that actions record, checked or not. */
  function ServersIn(actions: seq<Action>): seq<Event> {
    if actions == [] then []
    else
      var a := actions[|actions| - 1];
      ServersIn(actions[..|actions| - 1]) + if a.Quit? then [] else [a.ev]
  }

  lemma ServersSnoc(actions: seq<Action>, a: Action)
    ensures ServersIn(actions + [a]) == ServersIn(actions) + if a.Quit? then [] else [a.ev]
  {
    assert (actions + [a])[..|actions|] == actions;
  }

  /** An action that does not raise the flag, behind the servers recorded so far. */
  ghost predicate IsGood(before: seq<Event>, a: Action) {
    match a
    case Execute(ev) =>
      && !ClashesWith(before, ev.server, ev.entry)
      && (!InCluster(ev.server) ==> |Recorded(before, ev.server)| < MAX_GRID_SERVERS)
    case RecordOnly(_) => true
    case Quit => false
  }

  ghost predicate AllGood(actions: seq<Action>) {
    forall j :: 0 <= j < |actions| ==> IsGood(ServersIn(actions[..j]), actions[j])
  }

  lemma AllGoodSnoc(actions: seq<Action>, a: Action)
    ensures AllGood(actions + [a]) <==> AllGood(actions) && IsGood(ServersIn(actions), a)
  {
    hide IsGood, ServersIn;
    var all := actions + [a];
    forall j | 0 <= j < |actions| ensures all[..j] == actions[..j] && all[j] == actions[j] {
    }
    assert all[..|actions|] == actions && all[|actions|] == a;
  }

  /** Room for what an action records; a fifth checked server of a grid kind is
      refused and needs none. */
  ghost predicate HasPlace(before: seq<Event>, a: Action) {
    a.Quit? || (a.Execute? && !InCluster(a.ev.server)) || |Recorded(before, a.ev.server)| < Limit(a.ev.server)
  }

  /** As long as the flag is down there is room for what comes next. */
  ghost predicate PlaceWhileGood(actions: seq<Action>) {
    forall j :: 0 <= j < |actions| && AllGood(actions[..j]) ==> HasPlace(ServersIn(actions[..j]), actions[j])
  }

  lemma PlaceSnoc(actions: seq<Action>, a: Action)
    ensures PlaceWhileGood(actions + [a]) <==>
              PlaceWhileGood(actions) && (AllGood(actions) ==> HasPlace(ServersIn(actions), a))
  {
    hide AllGood, HasPlace, ServersIn;
    var all := actions + [a];
    forall j | 0 <= j < |actions| ensures all[..j] == actions[..j] && all[j] == actions[j] {
    }
    assert all[..|actions|] == actions && all[|actions|] == a;
  }

  /** The flag is raised exactly when a checked server clashes with one recorded
      before it, checked or not, is the fifth of a grid kind, or the run is
      ended; otherwise every server is recorded, in order. */
  lemma {:induction false} FlagIff(world: World, actions: seq<Action>)
    requires PlaceWhileGood(actions)
    ensures !Run(world, actions).exited <==> AllGood(actions)
    ensures !Run(world, actions).exited ==> Holds(Run(world, actions), ServersIn(actions))
  {
    if actions == [] {
      NothingIsRight();
    } else {
      var n := |actions| - 1;
      var init, a := actions[..n], actions[n];
      assert actions == init + [a];
      hide *;
      PlaceSnoc(init, a);
      FlagIff(world, init);
      RunSnoc(world, init, a);
      AllGoodSnoc(init, a);
      ServersSnoc(init, a);
      NotExitedBefore(Run(world, init), world(n), a);
      if !Run(world, init).exited {
        FlagStep(Run(world, init), world(n), ServersIn(init), a);
      }
    }
  }

  /** The lists hold exactly some servers. */
  ghost predicate Holds(p: State, events: seq<Event>) {
    InLimits(p) && forall s :: p.lists.Of(s) == Recorded(events, s)
  }

  lemma NothingIsRight()
    ensures AllGood([]) && ServersIn([]) == [] && Holds(START, []) && !START.exited
  {
  }

  lemma FlagStep(p: State, after: After, before: seq<Event>, a: Action)
    requires !p.exited && Holds(p, before) && HasPlace(before, a)
    ensures !Act(p, after, a).exited <==> IsGood(before, a)
    ensures !Act(p, after, a).exited ==> !a.Quit? && Holds(Act(p, after, a), before + [a.ev])
  {
    if !a.Quit? {
      assert p.next.Of(a.ev.server) == |p.lists.Of(a.ev.server)| &&
          p.lists.Of(a.ev.server) == Recorded(before, a.ev.server);
      if a.Execute? {
        ExecuteStep(p, after, before, a.ev);
      } else {
        RecordInLimits(p, after, a.ev);
        AppendHolds(p, before, a.ev);
      }
    }
  }

  lemma ExecuteStep(p: State, after: After, before: seq<Event>, ev: Event)
    requires !p.exited && Holds(p, before) && HasPlace(before, Execute(ev))
    ensures !Next(p, after, ev).exited <==> IsGood(before, Execute(ev))
    ensures !Next(p, after, ev).exited ==> Holds(Next(p, after, ev), before + [ev])
  {
    assert p.next.Of(ev.server) == |p.lists.Of(ev.server)| && p.lists.Of(ev.server) == Recorded(before, ev.server);
    assert HasRoom(p, ev.server);
    StepIsRight(p, after, ev);
    ListsHoldEvents(before, ev.server, ev.entry);
    AcceptsIff(p.lists, before, ev);
    hide InLimits, Next, Accepts, Recorded, ClashesWith, Counts.Of, Limit;
    AppendHolds(p, before, ev);
  }

  lemma AppendHolds(p: State, before: seq<Event>, ev: Event)
    requires forall s :: p.lists.Of(s) == Recorded(before, s)
    ensures forall s :: p.lists.Append(ev.server, ev.entry).Of(s) == Recorded(before + [ev], s)
  {
    hide Recorded;
    forall s ensures p.lists.Append(ev.server, ev.entry).Of(s) == Recorded(before + [ev], s) {
      RecordedSnoc(before, ev, s);
      assert p.lists.Of(s) == Recorded(before, s);
    }
  }

  lemma AcceptsIff(lists: Lists, init: seq<Event>, ev: Event)
    requires forall s :: lists.Of(s) == Recorded(init, s)
    ensures Accepts(lists, ev.server, ev.entry) <==>
              HasSlot(lists, ev.server) && !SomeListClashes(init, ev.server, ev.entry)
  {
    hide ClashesIn, Recorded, HasSlot;
    if SomeListClashes(init, ev.server, ev.entry) {
      var s :| ClashesIn(Recorded(init, s), s, ev.server, ev.entry);
      assert ClashesIn(lists.Of(s), s, ev.server, ev.entry);
    } else {
      forall s ensures !ClashesIn(lists.Of(s), s, ev.server, ev.entry) {
        assert lists.Of(s) == Recorded(init, s);
      }
    }
  }

  // ----- what distinct node ids say about the length of a list -----

  function ListsOf(events: seq<Event>): Lists {
    Lists(Recorded(events, ClusterServer), Recorded(events, ClusterManager), Recorded(events, DataServer),
          Recorded(events, FileServer), Recorded(events, ReplicationServer), Recorded(events, SqlServer))
  }

  lemma ListsOfIs(events: seq<Event>, s: Server)
    ensures ListsOf(events).Of(s) == Recorded(events, s)
  {
    hide Recorded;
  }

  lemma ListsOfSnoc(events: seq<Event>, ev: Event)
    ensures ListsOf(events + [ev]) == ListsOf(events).Append(ev.server, ev.entry)
  {
    RecordedSnoc(events, ev, ClusterServer);
    RecordedSnoc(events, ev, ClusterManager);
    RecordedSnoc(events, ev, DataServer);
    RecordedSnoc(events, ev, FileServer);
    RecordedSnoc(events, ev, ReplicationServer);
    RecordedSnoc(events, ev, SqlServer);
    hide Recorded;
  }

  lemma {:induction false} DistinctLists(events: seq<Event>)
    requires Distinct(events)
    ensures AllDistinct(ListsOf(events))
  {
    if events != [] {
      var init, ev := events[..|events| - 1], events[|events| - 1];
      assert events == init + [ev];
      hide *;
      DistinctSnoc(init, ev);
      DistinctLists(init);
      ListsHoldEvents(init, ev.server, ev.entry);
      forall s ensures !ClashesIn(ListsOf(init).Of(s), s, ev.server, ev.entry) {
        ListsOfIs(init, s);
        if ClashesIn(Recorded(init, s), s, ev.server, ev.entry) {
          ThisListClashes(init, s, ev.server, ev.entry);
        }
      }
      AcceptKeepsDistinct(ListsOf(init), ev.server, ev.entry);
      ListsOfSnoc(init, ev);
    }
  }

  /** Different numbers from 1 to `n` are at most `n`. */
  lemma {:induction false} DistinctFit(list: seq<nat>, n: nat)
    requires forall i, j :: 0 <= i < j < |list| ==> list[i] != list[j]
    requires forall i :: 0 <= i < |list| ==> 1 <= list[i] <= n
    ensures |list| <= n
    decreases n
  {
    if list == [] {
      return;
    }
    assert 1 <= list[0] <= n;
    if n in list {
      var i :| 0 <= i < |list| && list[i] == n;
      var others := list[..i] + list[i + 1..];
      assert forall k :: 0 <= k < |others| ==> others[k] == list[if k < i then k else k + 1];
      DistinctFit(others, n - 1);
    } else {
      DistinctFit(list, n - 1);
    }
  }

  ghost predicate SmallIds(events: seq<Event>, n: nat) {
    forall i :: 0 <= i < |events| ==> 1 <= events[i].entry.nodeId <= n
  }

  lemma {:induction false} RecordedFrom(events: seq<Event>, n: nat, s: Server)
    requires SmallIds(events, n)
    ensures |Recorded(events, s)| <= |events|
    ensures forall i :: 0 <= i < |Recorded(events, s)| ==> 1 <= Recorded(events, s)[i].nodeId <= n
  {
    if events != [] {
      RecordedFrom(events[..|events| - 1], n, s);
    }
  }

  lemma {:induction false} RecordedAppend(a: seq<Event>, b: seq<Event>, s: Server)
    ensures Recorded(a + b, s) == Recorded(a, s) + Recorded(b, s)
  {
    if b == [] {
      assert a + b == a;
    } else {
      var u, ev := b[..|b| - 1], b[|b| - 1];
      assert b == u + [ev] && a + b == a + u + [ev];
      hide Recorded;
      RecordedAppend(a, u, s);
      RecordedSnoc(a + u, ev, s);
      RecordedSnoc(u, ev, s);
    }
  }

  /** A data server takes a node id that servers of other kinds then lack. */
  lemma OneIdLess(events: seq<Event>, n: nat, s: Server)
    requires Distinct(events) && SmallIds(events, n) && s != DataServer && Recorded(events, DataServer) != []
    ensures |Recorded(events, s)| < n
  {
    DistinctLists(events);
    RecordedFrom(events, n, s);
    RecordedFrom(events, n, DataServer);
    var list, d := Recorded(events, s), Recorded(events, DataServer)[0];
    ListsOfIs(events, s);
    ListsOfIs(events, DataServer);
    hide Recorded, Distinct, ListsOf, Lists.Of, SmallIds;
    var ids: seq<nat> := seq(|list|, i requires 0 <= i < |list| => list[i].nodeId);
    forall i, j | 0 <= i < j < |list| ensures ids[i] != ids[j] {
      OldPair(ListsOf(events), s, i, s, j);
    }
    forall i | 0 <= i < |list| ensures ids[i] != d.nodeId {
      OldPair(ListsOf(events), s, i, DataServer, 0);
    }
    DistinctFit(ids + [d.nodeId], n);
  }

  // ----- unique node ids -----

  /** No server recorded without a check clashes with one recorded before it. */
  ghost predicate NoStrayClash(actions: seq<Action>) {
    forall j :: 0 <= j < |actions| && actions[j].RecordOnly? ==>
      !ClashesWith(ServersIn(actions[..j]), actions[j].ev.server, actions[j].ev.entry)
  }

  lemma NoStraySnoc(actions: seq<Action>, a: Action)
    ensures NoStrayClash(actions + [a]) <==>
              NoStrayClash(actions) &&
              (a.RecordOnly? ==> !ClashesWith(ServersIn(actions), a.ev.server, a.ev.entry))
  {
    hide ClashesWith, ServersIn;
    var all := actions + [a];
    forall j | 0 <= j < |actions| ensures all[..j] == actions[..j] && all[j] == actions[j] {
    }
    assert all[..|actions|] == actions && all[|actions|] == a;
  }

  lemma {:induction false} DistinctIffNoStray(actions: seq<Action>)
    requires AllGood(actions)
    ensures Distinct(ServersIn(actions)) <==> NoStrayClash(actions)
  {
    if actions != [] {
      var init, a := actions[..|actions| - 1], actions[|actions| - 1];
      assert actions == init + [a];
      hide AllGood, Distinct, NoStrayClash, ClashesWith, ServersIn;
      AllGoodSnoc(init, a);
      DistinctIffNoStray(init);
      NoStraySnoc(init, a);
      ServersSnoc(init, a);
      DistinctSnoc(ServersIn(init), a.ev);
    } else {
      assert ServersIn(actions) == [];
    }
  }

  lemma {:induction false} ListsDistinctIff(events: seq<Event>)
    ensures AllDistinct(ListsOf(events)) <==> Distinct(events)
  {
    if events != [] {
      var init, ev := events[..|events| - 1], events[|events| - 1];
      assert events == init + [ev];
      hide *;
      ListsDistinctIff(init);
      DistinctSnoc(init, ev);
      ListsOfSnoc(init, ev);
      AppendDistinctIff(ListsOf(init), ev.server, ev.entry);
      ListsHoldEvents(init, ev.server, ev.entry);
      ListsSearched(init, ev);
    } else {
      NothingIsDistinct();
    }
  }

  lemma NothingIsDistinct()
    ensures AllDistinct(ListsOf([])) && Distinct([])
  {
  }

  lemma ListsSearched(events: seq<Event>, ev: Event)
    ensures SomeListClashes(events, ev.server, ev.entry) <==>
              !forall s :: !ClashesIn(ListsOf(events).Of(s), s, ev.server, ev.entry)
  {
    hide ClashesIn, Recorded, ListsOf, Lists.Of;
    forall s ensures ListsOf(events).Of(s) == Recorded(events, s) {
      ListsOfIs(events, s);
    }
    if SomeListClashes(events, ev.server, ev.entry) {
      var s :| ClashesIn(Recorded(events, s), s, ev.server, ev.entry);
      assert ClashesIn(ListsOf(events).Of(s), s, ev.server, ev.entry);
    }
  }

  lemma HeldListsAre(p: State, events: seq<Event>)
    requires Holds(p, events)
    ensures p.lists == ListsOf(events)
  {
    assert p.lists.cs == p.lists.Of(ClusterServer) && p.lists.mgr == p.lists.Of(ClusterManager);
    assert p.lists.ds == p.lists.Of(DataServer) && p.lists.fs == p.lists.Of(FileServer);
    assert p.lists.rep == p.lists.Of(ReplicationServer) && p.lists.sql == p.lists.Of(SqlServer);
    hide Recorded, InLimits;
  }

  /** Node ids over runs within the limits that have not raised the flag: they
      are distinct exactly when no server that was recorded and not checked
      clashes with one before it. */
  lemma UniqueIff(world: World, actions: seq<Action>)
    requires PlaceWhileGood(actions) && !Run(world, actions).exited
    ensures AllDistinct(Run(world, actions).lists) <==> NoStrayClash(actions)
  {
    hide *;
    FlagIff(world, actions);
    HeldListsAre(Run(world, actions), ServersIn(actions));
    ListsDistinctIff(ServersIn(actions));
    DistinctIffNoStray(actions);
  }

  // ----- runs in which every command is executed -----

  /** As long as nothing clashes there is room for what comes next. */
  ghost predicate RoomWhileDistinct(events: seq<Event>) {
    forall j :: 0 <= j < |events| && Distinct(events[..j]) ==> RoomAfter(events[..j], events[j].server)
  }

  ghost predicate RoomAfter(events: seq<Event>, s: Server) {
    InCluster(s) ==> |Recorded(events, s)| < Limit(s)
  }

  lemma RoomWhileDistinctSnoc(events: seq<Event>, ev: Event)
    ensures RoomWhileDistinct(events + [ev]) <==>
              RoomWhileDistinct(events) && (Distinct(events) ==> RoomAfter(events, ev.server))
  {
    hide Distinct, RoomAfter;
    var all := events + [ev];
    forall j | 0 <= j < |events| ensures all[..j] == events[..j] && all[j] == events[j] {
    }
    assert all[..|events|] == events && all[|events|] == ev;
  }

  /** No more servers of a kind than its array holds. */
  ghost predicate WithinLimits(events: seq<Event>) {
    forall s :: InCluster(s) ==> |Recorded(events, s)| <= Limit(s)
  }

  lemma {:induction false} WithinLimitsHasRoom(events: seq<Event>)
    requires WithinLimits(events)
    ensures RoomWhileDistinct(events)
  {
    if events != [] {
      var init, ev := events[..|events| - 1], events[|events| - 1];
      assert events == init + [ev];
      hide RoomWhileDistinct, Distinct, Limit;
      forall s ensures |Recorded(init, s)| + (if s == ev.server then 1 else 0) == |Recorded(events, s)| {
        RecordedSnoc(init, ev, s);
      }
      hide Recorded;
      WithinLimitsHasRoom(init);
      RoomWhileDistinctSnoc(init, ev);
    } else {
      hide Distinct, RoomAfter;
    }
  }

  function AllExecuted(events: seq<Event>): (actions: seq<Action>)
    ensures |actions| == |events| && forall i :: 0 <= i < |events| ==> actions[i] == Execute(events[i])
  {
    seq(|events|, i requires 0 <= i < |events| => Execute(events[i]))
  }

  lemma {:induction false} ExecutedServers(events: seq<Event>)
    ensures ServersIn(AllExecuted(events)) == events
    ensures AllGood(AllExecuted(events)) <==> Distinct(events) && Few(events)
    ensures RoomWhileDistinct(events) ==> PlaceWhileGood(AllExecuted(events))
  {
    if events == [] {
      assert AllExecuted(events) == [];
      NothingIsFew();
    } else {
      var init, ev := events[..|events| - 1], events[|events| - 1];
      assert events == init + [ev];
      assert AllExecuted(events) == AllExecuted(init) + [Execute(ev)];
      hide AllGood, Distinct, Few, ServersIn, PlaceWhileGood, RoomWhileDistinct, AllExecuted, ClashesWith, Recorded;
      ExecutedServers(init);
      ServersSnoc(AllExecuted(init), Execute(ev));
      AllGoodSnoc(AllExecuted(init), Execute(ev));
      DistinctSnoc(init, ev);
      FewSnoc(init, ev);
      PlaceSnoc(AllExecuted(init), Execute(ev));
      RoomWhileDistinctSnoc(init, ev);
    }
  }

  lemma NothingIsFew()
    ensures AllGood([]) && Distinct([]) && Few([]) && ServersIn([]) == [] && PlaceWhileGood([])
  {
  }

  /** When all commands are executed, the flag is raised exactly when two servers
      clash or there are more than four of a grid kind. */
  lemma ExecutedFlagIff(world: World, events: seq<Event>)
    requires RoomWhileDistinct(events)
    ensures !Run(world, AllExecuted(events)).exited <==> Distinct(events) && Few(events)
    ensures !Run(world, AllExecuted(events)).exited ==> Holds(Run(world, AllExecuted(events)), events)
  {
    hide *;
    ExecutedServers(events);
    FlagIff(world, AllExecuted(events));
  }

  /** And without the flag all recorded ids are distinct, with no limits at all. */
  lemma ExecutedKeepDistinct(world: World, events: seq<Event>)
    requires !Run(world, AllExecuted(events)).exited
    ensures AllDistinct(Run(world, AllExecuted(events)).lists)
  {
    var actions := AllExecuted(events);
    assert forall j :: 0 <= j < |actions| ==> actions[j].Execute?;
    hide AllDistinct, Run;
    RunsKeepDistinctIff(world, actions);
  }
}
