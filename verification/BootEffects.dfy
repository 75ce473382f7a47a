/** What a command text does to the servers recorded, executed or rejected: the
    grammar actions of bootstrap/ic_boot_parser.y and execute_command. */
module BootEffects {
  import opened Basics
  import opened Decimals
  import opened Symbols
  import opened BootLex
  import opened BootCommands
  import opened BootGrammar
  import opened BootPrint
  import opened BootHosts
  import opened BootSplit
  import opened NodeIds
  import opened NodeRuns

  /** A command is executed; or it is rejected, after its server was recorded, or
      without any effect. */
  datatype Effect = Executes(c: Command) | OnlyRecords(c: Command) | NoEffect

  /** The tokens the parser is given: a lexical error reads as the end of input. */
  function TokensRead(table: SymbolTable, s: string): seq<Token>
    requires table.Shaped() && Terminated(s)
  {
    match LexAll(table, s)
    case Good(tokens) => tokens
    case Bad(before, _) => before
  }

  /** The first PREPARE that is complete among the first `n` tokens: its server is
      recorded as soon as its last token is read. */
  function FirstPrepare(t: seq<Token>, n: nat): (c: Option<Command>)
    requires n <= |t|
    ensures c.Some? ==> c.value.Prepare?
  {
    if n > 0 && FirstPrepare(t, n - 1).Some? then FirstPrepare(t, n - 1)
    else if IsPrepare(Parse(t[..n])) then Parse(t[..n])
    else None
  }

  predicate IsPrepare(c: Option<Command>) {
    c.Some? && c.value.Prepare?
  }

  function EffectOf(table: SymbolTable, s: string): Effect
    requires table.Shaped() && Terminated(s)
  {
    if ReadBack(table, s).Some? then Executes(ReadBack(table, s).value)
    else
      var t := TokensRead(table, s);
      var c := FirstPrepare(t, |t|);
      if c.Some? then OnlyRecords(c.value) else NoEffect
  }

  // ----- which texts only record a server -----

  /** What stands before the node id. */
  function FrontText(f: Form): seq<Token>
    requires f.PrepareForm?
  {
    [Keyword(PREPARE), Keyword(KindWord(f.server)), Keyword(RoleWord(f.server))] +
    (FieldText(HOST, f.hostEqual, Identifier(f.host)) +
     (NamePart(PCNTRL_HOST, f.pcntrlHost) +
         (NumberPart(PCNTRL_PORT, f.pcntrlPort) + NumberPart(CLUSTER_ID, f.clusterId))))
  }

  lemma FrontHasNoNodeId(f: Form)
    requires f.PrepareForm?
    ensures Keyword(NODE_ID) !in FrontText(f)
  {
    assert Keyword(NODE_ID) !in FieldText(HOST, f.hostEqual, Identifier(f.host));
    assert Keyword(NODE_ID) !in NamePart(PCNTRL_HOST, f.pcntrlHost);
    assert Keyword(NODE_ID) !in NumberPart(PCNTRL_PORT, f.pcntrlPort);
    assert Keyword(NODE_ID) !in NumberPart(CLUSTER_ID, f.clusterId);
    assert KindWord(f.server) != NODE_ID && RoleWord(f.server) != NODE_ID;
    hide FieldText, NamePart, NumberPart, KindWord, RoleWord;
  }

  lemma FrontThenNode(f: Form)
    requires f.PrepareForm?
    ensures Sentence(f) == FrontText(f) + NodeText(f)
  {
    hide FieldText, NamePart, NumberPart, KindWord, RoleWord, NodeText;
  }

  /** A PREPARE ends behind its node id. */
  lemma NodeIdAt(f: Form) returns (p: nat)
    requires f.PrepareForm?
    ensures EndsAt(Sentence(f), p)
  {
    p := |FrontText(f)|;
    FrontHasNoNodeId(f);
    FrontThenNode(f);
    hide FrontText, Sentence;
  }

  predicate EndsAt(t: seq<Token>, p: nat) {
    && p + 1 < |t| && t[p] == Keyword(NODE_ID) && (forall i :: 0 <= i < p ==> t[i] != Keyword(NODE_ID))
    && |t| == p + if t[p + 1] == Keyword(EQUAL) then 3 else 2
  }

  lemma OneEnd(t: seq<Token>, n: nat, m: nat, p: nat, q: nat)
    requires n <= |t| && m <= |t| && EndsAt(t[..n], p) && EndsAt(t[..m], q)
    ensures n == m
  {
    assert t[p] == t[..n][p] && t[q] == t[..m][q];
    assert t[p + 1] == t[..n][p + 1] && t[q + 1] == t[..m][q + 1];
  }

  /** So no PREPARE is the front part of another. */
  lemma OnePrepare(t: seq<Token>, n: nat, m: nat)
    requires n <= |t| && m <= |t|
    requires IsPrepare(Parse(t[..n])) && IsPrepare(Parse(t[..m]))
    ensures n == m
  {
    hide Parse, Sentence, Meaning, EndsAt;
    var f := ParsedIsSentence(t[..n]);
    var g := ParsedIsSentence(t[..m]);
    FormOfPrepare(f);
    FormOfPrepare(g);
    var p := NodeIdAt(f);
    var q := NodeIdAt(g);
    OneEnd(t, n, m, p, q);
  }

  lemma {:induction false} FirstPrepareIff(t: seq<Token>, n: nat, c: Command)
    requires n <= |t| && c.Prepare?
    ensures FirstPrepare(t, n) == Some(c) <==> exists m :: 0 <= m <= n && Parse(t[..m]) == Some(c)
  {
    hide Parse;
    if n > 0 {
      FirstPrepareIff(t, n - 1, c);
      if Parse(t[..n]) == Some(c) && FirstPrepare(t, n - 1).Some? {
        var d := FirstPrepare(t, n - 1).value;
        FirstPrepareIff(t, n - 1, d);
        var m :| 0 <= m <= n - 1 && Parse(t[..m]) == Some(d);
        OnePrepare(t, m, n);
      }
    }
  }

  /** A text is rejected with its server recorded exactly when its tokens start
      with a PREPARE and more follows: another token, or a lexical error. */
  lemma OnlyRecordsIff(table: SymbolTable, s: string, c: Command)
    requires table.Shaped() && Terminated(s)
    ensures EffectOf(table, s) == OnlyRecords(c) <==>
              exists f :: StartsWithForm(TokensRead(table, s), f) && Meaning(f) == c &&
                  (LexAll(table, s).Bad? || Sentence(f) != TokensRead(table, s))
  {
    EffectIs(table, s);
    hide *;
    var t := TokensRead(table, s);
    if EffectOf(table, s) == OnlyRecords(c) {
      var f := PrepareInFront(t, c);
      SentenceIsParsed(f);
    }
    if f :| StartsWithForm(t, f) && Meaning(f) == c && (LexAll(table, s).Bad? || Sentence(f) != t) {
      FrontIsFirst(t, f);
      if LexAll(table, s).Good? && Parse(t).Some? {
        var g := ParsedIsSentence(t);
        FormInFront(t, f);
        NothingFollows(f, g);
      }
    }
  }

  lemma EffectIs(table: SymbolTable, s: string)
    requires table.Shaped() && Terminated(s)
    ensures var t, all, c := TokensRead(table, s), LexAll(table, s), FirstPrepare(TokensRead(table, s),
                |TokensRead(table, s)|);
            && (all.Good? && Parse(t).Some? <==> EffectOf(table, s).Executes?)
            && (EffectOf(table, s).Executes? ==> ReadBack(table, s) == Parse(t) == Some(EffectOf(table, s).c))
            && (!EffectOf(table, s).Executes? ==>
                  ReadBack(table, s) == None && EffectOf(table, s) == if c.Some? then OnlyRecords(c.value)
                      else NoEffect)
  {
    hide Parse, LexAll, FirstPrepare;
  }

  lemma PrepareInFront(t: seq<Token>, c: Command) returns (f: Form)
    requires FirstPrepare(t, |t|) == Some(c)
    ensures StartsWithForm(t, f) && Meaning(f) == c
  {
    assert c.Prepare?;
    hide Parse, Sentence, Meaning, FirstPrepare;
    FirstPrepareIff(t, |t|, c);
    var m :| 0 <= m <= |t| && Parse(t[..m]) == Some(c);
    f := ParsedIsSentence(t[..m]);
    FormOfPrepare(f);
  }

  lemma FrontIsFirst(t: seq<Token>, f: Form)
    requires StartsWithForm(t, f)
    ensures FirstPrepare(t, |t|) == Some(Meaning(f))
  {
    hide Parse, Sentence, Meaning, FirstPrepare;
    var m := |Sentence(f)|;
    SentenceIsParsed(f);
    FormOfPrepare(f);
    assert t[..m] == Sentence(f);
    FirstPrepareIff(t, |t|, Meaning(f));
  }

  lemma FormInFront(t: seq<Token>, f: Form)
    requires StartsWithForm(t, f)
    ensures f.PrepareForm? && IsForm(f) && Sentence(f) <= t
  {
  }

  ghost predicate StartsWithForm(t: seq<Token>, f: Form) {
    f.PrepareForm? && IsForm(f) && Sentence(f) <= t
  }

  lemma FormOfPrepare(f: Form)
    ensures f.PrepareForm? <==> Meaning(f).Prepare?
  {
  }

  lemma NothingFollows(f: Form, g: Form)
    requires f.PrepareForm? && IsForm(f) && IsForm(g) && Sentence(f) <= Sentence(g)
    ensures Sentence(f) == Sentence(g)
  {
    var t := Sentence(g);
    PrepareFirst(f, g);
    SentenceIsParsed(f);
    SentenceIsParsed(g);
    FormOfPrepare(f);
    FormOfPrepare(g);
    hide Parse, Sentence, Meaning;
    assert t[..|Sentence(f)|] == Sentence(f) && t[..|t|] == t;
    OnePrepare(t, |Sentence(f)|, |t|);
  }

  lemma PrepareFirst(f: Form, g: Form)
    requires f.PrepareForm? && Sentence(f) <= Sentence(g)
    ensures g.PrepareForm?
  {
    assert Sentence(f)[0] == Sentence(g)[0];
  }

  // ----- the actions of a file -----

  function EventOf(c: Command): Event
    requires c.Prepare?
  {
    Event(c.server, Entry(c.clusterId, c.nodeId))
  }

  /** What a command does to the recorded servers and the exit flag. */
  function ActionsIn(effect: Effect): seq<Action> {
    match effect
    case Executes(c) => if c.Prepare? then [Execute(EventOf(c))] else if c.Exit? then [Quit] else []
    case OnlyRecords(c) => if c.Prepare? then [RecordOnly(EventOf(c))] else []
    case NoEffect => []
  }

  predicate AllTerminated(texts: seq<string>) {
    forall i :: 0 <= i < |texts| ==> Terminated(texts[i])
  }

  function ActionsOf(table: SymbolTable, texts: seq<string>): seq<Action>
    requires table.Shaped() && AllTerminated(texts)
  {
    if texts == [] then []
    else
      var n := |texts| - 1;
      ActionsOf(table, texts[..n]) + ActionsIn(EffectOf(table, texts[n]))
  }

  lemma ActionsSnoc(table: SymbolTable, texts: seq<string>, s: string)
    requires table.Shaped() && AllTerminated(texts) && Terminated(s)
    ensures ActionsOf(table, texts + [s]) == ActionsOf(table, texts) + ActionsIn(EffectOf(table, s))
  {
    assert (texts + [s])[..|texts|] == texts;
    hide EffectOf;
  }

  /** Every command the reader hands on ends in the separator. */
  lemma {:induction false} SplitTextsEnd(rest: string)
    ensures AllTerminated(SplitRun(rest).commands)
    decreases |rest|
  {
    hide *;
    RunStep(rest);
    var line := NextLine("", rest);
    if line.Command? {
      LineTextEnds(rest);
      SplitTextsEnd(line.rest);
      TerminatedFirst(line.text, SplitRun(line.rest).commands);
    } else {
      NoTexts();
    }
  }

  lemma LineTextEnds(rest: string)
    requires NextLine("", rest).Command?
    ensures Terminated(NextLine("", rest).text)
  {
    PieceText("", rest);
    hide CutLength, Drop;
  }

  lemma TerminatedFirst(s: string, texts: seq<string>)
    requires Terminated(s) && AllTerminated(texts)
    ensures AllTerminated([s] + texts)
  {
    hide Terminated;
  }

  lemma NoTexts()
    ensures AllTerminated([])
  {
  }

  /** main, from a file to the recorded servers. */
  method RunFile(table: SymbolTable, file: string, world: World) returns (data: ParseData)
    requires table.Shaped()
    ensures fresh(data) && AllTerminated(SplitRun(file).commands)
    ensures var actions := ActionsOf(table, SplitRun(file).commands);
            && data.Current() == NodeRuns.Run(world, actions)
            && (!data.exitFlag ==> (AllDistinct(data.lists) <==> AllClean(world, actions)))
  {
    var reader := new CommandReader(file);
    assert reader.Rest() == file;
    SplitTextsEnd(file);
    var texts, ending := ReadAll(reader);
    hide *;
    data := new ParseData();
    var actions := ActionsOf(table, texts);
    RunAll(data, actions, world);
    CurrentIs(data);
    if !data.exitFlag {
      RunsKeepDistinctIff(world, actions);
    }
  }

  lemma CurrentIs(data: ParseData)
    ensures data.Current() == State(data.lists, data.next, data.exitFlag)
  {
  }

  // ----- files whose commands are all read back -----

  function EventsIn(c: Command): seq<Event> {
    if c.Prepare? then [EventOf(c)] else []
  }

  /** The PREPAREs among commands. */
  function EventsOf(commands: seq<Command>): seq<Event> {
    if commands == [] then []
    else EventsOf(commands[..|commands| - 1]) + EventsIn(commands[|commands| - 1])
  }

  lemma EventsSnoc(commands: seq<Command>, c: Command)
    ensures EventsOf(commands + [c]) == EventsOf(commands) + EventsIn(c)
  {
    assert (commands + [c])[..|commands|] == commands;
  }

  lemma ExecutedAppend(a: seq<Event>, b: seq<Event>)
    ensures AllExecuted(a + b) == AllExecuted(a) + AllExecuted(b)
  {
  }

  lemma ActionsOfRead(table: SymbolTable, s: string)
    requires table.Shaped() && Terminated(s) && ReadBack(table, s).Some?
    ensures var c := ReadBack(table, s).value;
            ActionsIn(EffectOf(table, s)) == if c.Exit? then [Quit] else AllExecuted(EventsIn(c))
  {
    hide ReadBack;
  }

  ghost predicate AllReadAs(table: SymbolTable, texts: seq<string>, commands: seq<Command>)
    requires table.Shaped()
  {
    |texts| == |commands| && forall i :: 0 <= i < |texts| ==> ReadBack(table, texts[i]) == Some(commands[i])
  }

  lemma ReadIsTerminated(table: SymbolTable, texts: seq<string>, commands: seq<Command>)
    requires table.Shaped() && AllReadAs(table, texts, commands)
    ensures AllTerminated(texts)
  {
    hide LexAll, Parse, Terminated;
  }

  predicate NoneExits(commands: seq<Command>) {
    forall i :: 0 <= i < |commands| ==> !commands[i].Exit?
  }

  /** When every command is read back and none ends the run, exactly its PREPAREs
      are recorded, and all are checked. */
  lemma {:induction false} ReadBackIsExecuted(table: SymbolTable, texts: seq<string>, commands: seq<Command>)
    requires table.Shaped() && AllReadAs(table, texts, commands)
    requires NoneExits(commands)
    ensures AllTerminated(texts) && ActionsOf(table, texts) == AllExecuted(EventsOf(commands))
  {
    hide *;
    ReadIsTerminated(table, texts, commands);
    if texts != [] {
      var n := |texts| - 1;
      ReadInit(table, texts, commands);
      ReadBackIsExecuted(table, texts[..n], commands[..n]);
      ActionsSnoc(table, texts[..n], texts[n]);
      ActionsOfRead(table, texts[n]);
      EventsSnoc(commands[..n], commands[n]);
      ExecutedAppend(EventsOf(commands[..n]), EventsIn(commands[n]));
    } else {
      NothingRead(table, texts, commands);
    }
  }

  lemma ReadInit(table: SymbolTable, texts: seq<string>, commands: seq<Command>)
    requires table.Shaped() && AllReadAs(table, texts, commands) && texts != [] && NoneExits(commands)
    ensures |texts| == |commands| > 0 && NoneExits(commands[..|texts| - 1]) && !commands[|texts| - 1].Exit?
    ensures var n := |texts| - 1;
            && AllReadAs(table, texts[..n], commands[..n]) && AllTerminated(texts[..n])
            && Terminated(texts[n]) && ReadBack(table, texts[n]) == Some(commands[n])
            && texts == texts[..n] + [texts[n]] && commands == commands[..n] + [commands[n]]
  {
    hide ReadBack, Terminated;
    var n := |texts| - 1;
    ReadIsTerminated(table, texts, commands);
    forall i | 0 <= i < n ensures texts[..n][i] == texts[i] && commands[..n][i] == commands[i] {
    }
    hide SymbolTable.Shaped;
  }

  lemma NothingRead(table: SymbolTable, texts: seq<string>, commands: seq<Command>)
    requires table.Shaped() && AllReadAs(table, texts, commands) && texts == []
    ensures AllTerminated(texts) && ActionsOf(table, texts) == AllExecuted(EventsOf(commands))
  {
  }

  predicate AllChecked(actions: seq<Action>) {
    forall j :: 0 <= j < |actions| ==> !actions[j].RecordOnly?
  }

  ghost predicate AllReadBack(table: SymbolTable, texts: seq<string>)
    requires table.Shaped()
  {
    forall i :: 0 <= i < |texts| ==> ReadBack(table, texts[i]).Some?
  }

  lemma {:induction false} ReadBackIsChecked(table: SymbolTable, texts: seq<string>)
    requires table.Shaped() && AllTerminated(texts) && AllReadBack(table, texts)
    ensures AllChecked(ActionsOf(table, texts))
  {
    hide *;
    TextsInit(table, texts);
    if texts != [] {
      var init, s := texts[..|texts| - 1], texts[|texts| - 1];
      ReadBackIsChecked(table, init);
      ActionsSnoc(table, init, s);
      ActionsOfRead(table, s);
      ExecutedIsChecked(ActionsOf(table, init), EventsIn(ReadBack(table, s).value));
    }
  }

  lemma TextsInit(table: SymbolTable, texts: seq<string>)
    requires table.Shaped() && AllTerminated(texts) && AllReadBack(table, texts)
    ensures texts == [] ==> AllChecked(ActionsOf(table, texts))
    ensures texts != [] ==>
              var n := |texts| - 1;
              && texts == texts[..n] + [texts[n]] && AllTerminated(texts[..n]) && AllReadBack(table, texts[..n])
              && Terminated(texts[n]) && ReadBack(table, texts[n]).Some?
  {
    hide ReadBack, Terminated;
  }

  lemma ExecutedIsChecked(actions: seq<Action>, events: seq<Event>)
    requires AllChecked(actions)
    ensures AllChecked(actions + AllExecuted(events)) && AllChecked(actions + [Quit])
  {
  }

  /** Node ids of a file whose commands are all read back: while the flag is down
      they are distinct, with no limits at all. */
  lemma ReadBackKeepsDistinct(world: World, table: SymbolTable, texts: seq<string>)
    requires table.Shaped() && AllTerminated(texts) && AllReadBack(table, texts)
    requires !NodeRuns.Run(world, ActionsOf(table, texts)).exited
    ensures AllDistinct(NodeRuns.Run(world, ActionsOf(table, texts)).lists)
  {
    ReadBackIsChecked(table, texts);
    hide AllReadBack, ActionsOf, NodeRuns.Run, AllDistinct;
    RunsKeepDistinctIff(world, ActionsOf(table, texts));
  }

  // ----- a server recorded and not checked -----

  predicate IsBadCharacter(c: char) {
    !In(c, Blank) && c != ';' && c != '=' && !IsDigit(c) && !IsAlpha(c)
  }

  lemma BadIsLexed(table: SymbolTable, rest: string)
    requires table.Shaped() && Terminated(rest) && IsBadCharacter(rest[0])
    ensures LexAll(table, rest) == Bad([], BadCharacter)
  {
    assert RunLength(rest, Blank) == 0;
    assert rest[0..] == rest;
  }

  ghost predicate AreOpen(pieces: seq<Piece>) {
    AreWords(pieces) && forall i :: 0 <= i < |pieces| ==> pieces[i].end == ' ' || pieces[i].end == '='
  }

  /** Words in front of a text are lexed before it. */
  lemma {:induction false} OpenPiecesAreLexed(table: SymbolTable, pieces: seq<Piece>, rest: string)
    requires table.Shaped() && AreOpen(pieces) && Terminated(rest) && rest[0] != ';'
    ensures var s := Render(pieces) + rest;
            && Terminated(s) && s[0] != ';' && AreWords(pieces)
            && LexAll(table, s) == Consed(PieceTokens(table, pieces), LexAll(table, rest))
  {
    hide *;
    OpenFirst(table, pieces);
    if pieces == [] {
      assert Render(pieces) + rest == rest;
      ConsedTwice([], [], LexAll(table, rest));
    } else {
      var p, later := pieces[0], Render(pieces[1..]) + rest;
      OpenPiecesAreLexed(table, pieces[1..], rest);
      PieceIsLexed(table, p, later);
      NotSeparator(p.word);
      assert Render(pieces) + rest == p.word + [p.end] + later;
      ConsedTwice([WordToken(table, p.word)] + EndTokens(p), PieceTokens(table, pieces[1..]), LexAll(table, rest));
    }
  }

  lemma OpenFirst(table: SymbolTable, pieces: seq<Piece>)
    requires table.Shaped() && AreOpen(pieces)
    ensures AreWords(pieces) && forall i :: 0 <= i < |pieces| ==> IsWord(pieces[i].word)
    ensures pieces == [] ==> Render(pieces) == "" && PieceTokens(table, pieces) == []
    ensures pieces != [] ==>
              var p := pieces[0];
              && IsWord(p.word) && (p.end == ' ' || p.end == '=') && AreOpen(pieces[1..])
              && (forall i :: 0 <= i < |pieces[1..]| ==> IsWord(pieces[1..][i].word))
              && Render(pieces) == p.word + [p.end] + Render(pieces[1..])
              && PieceTokens(table, pieces) ==
                     [WordToken(table, p.word)] + EndTokens(p) + PieceTokens(table, pieces[1..])
  {
    hide IsWord, WordToken;
  }

  /** A PREPARE with its node id in front of what cannot be read. */
  function StrayPieces(server: Server, h: string, k: nat): seq<Piece> {
    BeforeHost(server) + [Piece(h, ' '), Key(NODE_ID, ' '), Piece(Decimal(k), ' ')]
  }

  function StrayForm(server: Server, h: string, k: nat): Form {
    PrepareForm(server, true, h, Omitted, Omitted, Omitted, false, k)
  }

  lemma TokensBefore(table: SymbolTable, p: Piece, later: seq<Piece>)
    requires table.Shaped() && IsWord(p.word) && AreOpen(later) && (p.end == ' ' || p.end == '=')
    ensures AreOpen([p] + later) && AreWords(later) && AreWords([p] + later)
    ensures PieceTokens(table, [p] + later) == [WordToken(table, p.word)] + EndTokens(p) + PieceTokens(table, later)
  {
    hide IsWord, WordToken;
    assert ([p] + later)[1..] == later;
  }

  lemma KeyTokens(table: SymbolTable, id: nat, end: char, later: seq<Piece>)
    requires Perfect(BootSymbols(), table) && IsKeyword(id) && id != EQUAL && AreOpen(later)
    requires end == ' ' || end == '='
    ensures AreOpen([Key(id, end)] + later) && AreWords(later) && AreWords([Key(id, end)] + later)
    ensures PieceTokens(table, [Key(id, end)] + later) ==
              [Keyword(id)] + (if end == '=' then [Keyword(EQUAL)] else []) + PieceTokens(table, later)
  {
    KeyToken(table, id);
    assert Key(id, end) == Piece(Spelling(id), end);
    assert EndTokens(Key(id, end)) == if end == '=' then [Keyword(EQUAL)] else [];
    hide *;
    TokensBefore(table, Key(id, end), later);
  }

  lemma StrayTokens(table: SymbolTable, server: Server, h: string, k: uint32)
    requires Perfect(BootSymbols(), table) && IsGoodHost(table, h)
    ensures AreOpen(StrayPieces(server, h, k)) && AreWords(StrayPieces(server, h, k))
    ensures PieceTokens(table, StrayPieces(server, h, k)) == Sentence(StrayForm(server, h, k))
  {
    hide *;
    StrayShape(server, h, k);
    var five := HostAndNode(h, k);
    HostAndNodeTokens(table, h, k);
    var four := [Key(HOST, '=')] + five;
    KeyTokens(table, HOST, '=', five);
    var three := [Key(RoleWord(server), ' ')] + four;
    KeyTokens(table, RoleWord(server), ' ', four);
    var two := [Key(KindWord(server), ' ')] + three;
    KeyTokens(table, KindWord(server), ' ', three);
    KeyTokens(table, PREPARE, ' ', two);
  }

  function HostAndNode(h: string, k: nat): seq<Piece> {
    [Piece(h, ' ')] + ([Key(NODE_ID, ' ')] + ([Piece(Decimal(k), ' ')] + []))
  }

  lemma HostAndNodeTokens(table: SymbolTable, h: string, k: uint32)
    requires Perfect(BootSymbols(), table) && IsGoodHost(table, h)
    ensures AreOpen(HostAndNode(h, k)) && AreWords(HostAndNode(h, k))
    ensures PieceTokens(table, HostAndNode(h, k)) == [Identifier(h)] + ([Keyword(NODE_ID)] + ([Integer(k)] + []))
  {
    assert table.Shaped();
    assert EndTokens(Piece(h, ' ')) == [] && EndTokens(Piece(Decimal(k), ' ')) == [];
    NothingOpen(table);
    HostToken(table, h);
    SmallNumber(k);
    NumberToken(table, k);
    assert IsKeyword(NODE_ID) && NODE_ID != EQUAL;
    assert HostAndNode(h, k) == [Piece(h, ' ')] + ([Key(NODE_ID, ' ')] + ([Piece(Decimal(k), ' ')] + []));
    hide *;
    var last := [Piece(Decimal(k), ' ')] + [];
    TokensBefore(table, Piece(Decimal(k), ' '), []);
    KeyTokens(table, NODE_ID, ' ', last);
    TokensBefore(table, Piece(h, ' '), [Key(NODE_ID, ' ')] + last);
  }

  lemma NothingOpen(table: SymbolTable)
    requires table.Shaped()
    ensures AreOpen([]) && AreWords([]) && PieceTokens(table, []) == []
  {
  }

  lemma StrayShape(server: Server, h: string, k: nat)
    ensures StrayPieces(server, h, k) ==
              [Key(PREPARE, ' ')] + ([Key(KindWord(server), ' ')] + ([Key(RoleWord(server), ' ')] +
              ([Key(HOST, '=')] + HostAndNode(h, k))))
    ensures Sentence(StrayForm(server, h, k)) ==
              [Keyword(PREPARE)] + ([Keyword(KindWord(server))] + ([Keyword(RoleWord(server))] +
              ([Keyword(HOST), Keyword(EQUAL)] + ([Identifier(h)] + ([Keyword(NODE_ID)] + ([Integer(k)] + []))))))
    ensures IsKeyword(PREPARE) && PREPARE != EQUAL && IsKeyword(HOST) && HOST != EQUAL
    ensures IsKeyword(RoleWord(server)) && RoleWord(server) != EQUAL
  {
    hide KindWord, Spelling, Decimal;
  }

  /** Behind a complete PREPARE a character that starts no word: the server is
      recorded, and the command is rejected before any check. */
  lemma StrayIsRecorded(table: SymbolTable, server: Server, h: string, k: uint32, rest: string)
    requires Perfect(BootSymbols(), table) && IsGoodHost(table, h)
    requires Terminated(rest) && IsBadCharacter(rest[0])
    ensures var s := Render(StrayPieces(server, h, k)) + rest;
            && Terminated(s) && ReadBack(table, s) == None
            && EffectOf(table, s) == OnlyRecords(Prepare(server, h, h, IC_DEF_PCNTRL_PORT, 0, k))
  {
    var s, f := Render(StrayPieces(server, h, k)) + rest, StrayForm(server, h, k);
    assert table.Shaped() && rest[0] != ';';
    StrayMeans(server, h, k);
    hide *;
    StrayTokens(table, server, h, k);
    BadIsLexed(table, rest);
    OpenPiecesAreLexed(table, StrayPieces(server, h, k), rest);
    BadConsed(Sentence(f));
    BadTokens(table, s, Sentence(f));
    FrontIsFirst(Sentence(f), f);
    EffectIs(table, s);
  }

  lemma StrayMeans(server: Server, h: string, k: uint32)
    ensures var f := StrayForm(server, h, k);
            StartsWithForm(Sentence(f), f) && Meaning(f) == Prepare(server, h, h, IC_DEF_PCNTRL_PORT, 0, k)
  {
    hide Sentence, Narrow, InCluster;
    NarrowKeeps(k);
    NarrowKeeps(0);
    NarrowKeeps(IC_DEF_PCNTRL_PORT);
  }

  lemma BadConsed(tokens: seq<Token>)
    ensures Consed(tokens, Bad([], BadCharacter)) == Bad(tokens, BadCharacter)
  {
  }

  lemma BadTokens(table: SymbolTable, s: string, tokens: seq<Token>)
    requires table.Shaped() && Terminated(s) && LexAll(table, s) == Bad(tokens, BadCharacter)
    ensures TokensRead(table, s) == tokens && LexAll(table, s).Bad?
  {
    hide LexAll;
  }

  lemma RenderFirst(p: Piece, later: seq<Piece>)
    ensures Render([p] + later) == p.word + [p.end] + Render(later)
    ensures Render([]) == ""
  {
    assert ([p] + later)[1..] == later;
  }

  lemma StrayRender(server: Server, h: string, k: nat)
    ensures Render(StrayPieces(server, h, k)) == Render(BeforeHost(server)) + (h + " NODE_ID " + Decimal(k) + " ")
  {
    NodeKey();
    assert StrayPieces(server, h, k) == BeforeHost(server) + HostAndNode(h, k);
    assert HostAndNode(h, k) == [Piece(h, ' ')] + ([Key(NODE_ID, ' ')] + ([Piece(Decimal(k), ' ')] + []));
    hide *;
    RenderFirst(Piece(Decimal(k), ' '), []);
    RenderFirst(Key(NODE_ID, ' '), [Piece(Decimal(k), ' ')] + []);
    RenderFirst(Piece(h, ' '), [Key(NODE_ID, ' ')] + ([Piece(Decimal(k), ' ')] + []));
    RenderAppend(BeforeHost(server), HostAndNode(h, k));
    NodeWords(h, Decimal(k));
  }

  lemma NodeKey()
    ensures IsKeyword(NODE_ID) && Key(NODE_ID, ' ') == Piece("NODE_ID", ' ')
  {
  }

  lemma NodeWords(h: string, digits: string)
    ensures h + [' '] + ("NODE_ID" + [' '] + (digits + [' '] + "")) == h + " NODE_ID " + digits + " "
  {
    assert [' '] + ("NODE_ID" + [' ']) == " NODE_ID ";
    assert digits + [' '] + "" == digits + " ";
  }

  /** A host with blanks in it that a configuration may hold: the command printed
      for it only records a server with the node id in the host. */
  lemma BlankHost(table: SymbolTable, c: Command, h: string, k: uint32)
    requires Perfect(BootSymbols(), table) && c.Prepare? && IsGoodHost(table, h)
    requires c.host == h + " NODE_ID " + Decimal(k) + " /"
    ensures Terminated(Text(c)) && ReadBack(table, Text(c)) == None
    ensures EffectOf(table, Text(c)) == OnlyRecords(Prepare(c.server, h, h, IC_DEF_PCNTRL_PORT, 0, k))
  {
    hide *;
    var rest := "/" + ([' '] + Render(AfterHost(c)));
    StrayRender(c.server, h, k);
    TextAroundHost(c);
    SlashFirst([' '] + Render(AfterHost(c)));
    assert c.host == h + " NODE_ID " + Decimal(k) + " " + "/";
    SlashRegroup(Render(BeforeHost(c.server)), h + " NODE_ID " + Decimal(k) + " ", Render(AfterHost(c)));
    assert Text(c) == Render(StrayPieces(c.server, h, k)) + rest;
    StrayIsRecorded(table, c.server, h, k, rest);
  }

  lemma SlashFirst(s: string)
    requires Terminated(s)
    ensures Terminated("/" + s) && IsBadCharacter(("/" + s)[0])
  {
  }

  lemma SlashRegroup(a: string, b: string, later: string)
    ensures a + ((b + "/") + [' '] + later) == (a + b) + ("/" + ([' '] + later))
  {
  }

  /** Two file servers with node id 1 are recorded and nothing is flagged. */
  lemma StrayTwice(table: SymbolTable, world: World, h: string)
    requires Perfect(BootSymbols(), table) && IsGoodHost(table, h)
    ensures var s := "PREPARE FILE SERVER HOST=" + h + " NODE_ID 1 ?;";
            && AllTerminated([s, s])
            && var p := NodeRuns.Run(world, ActionsOf(table, [s, s]));
               !p.exited && p.lists.fs == [Entry(0, 1), Entry(0, 1)] && !AllDistinct(p.lists)
  {
    PerfectIsShaped(table);
    hide *;
    var s := "PREPARE FILE SERVER HOST=" + h + " NODE_ID 1 ?;";
    FileServerText(h, s);
    EndsInQuestion();
    StrayIsRecorded(table, FileServer, h, 1, "?;");
    SameTwice(table, s, Prepare(FileServer, h, h, IC_DEF_PCNTRL_PORT, 0, 1));
    RecordedTwice(world, Event(FileServer, Entry(0, 1)));
  }

  lemma PerfectIsShaped(table: SymbolTable)
    requires Perfect(BootSymbols(), table)
    ensures table.Shaped()
  {
  }

  lemma SameTwice(table: SymbolTable, s: string, c: Command)
    requires table.Shaped() && Terminated(s) && c.Prepare? && EffectOf(table, s) == OnlyRecords(c)
    ensures AllTerminated([s, s])
    ensures var a := RecordOnly(Event(c.server, Entry(c.clusterId, c.nodeId)));
            ActionsOf(table, [s, s]) == [a, a]
  {
    var a := RecordOnly(EventOf(c));
    assert ActionsIn(OnlyRecords(c)) == [a];
    OneText(table, s);
    hide *;
    ActionsSnoc(table, [], s);
    ActionsSnoc(table, [s], s);
    assert [] + [s] == [s] && [s] + [s] == [s, s] && [] + [a] == [a] && [a] + [a] == [a, a];
  }

  lemma OneText(table: SymbolTable, s: string)
    requires table.Shaped() && Terminated(s)
    ensures AllTerminated([]) && AllTerminated([s]) && AllTerminated([s, s])
    ensures ActionsOf(table, []) == []
  {
  }

  lemma FileServerText(h: string, s: string)
    requires s == "PREPARE FILE SERVER HOST=" + h + " NODE_ID 1 ?;"
    ensures s == Render(StrayPieces(FileServer, h, 1)) + "?;"
  {
    assert Decimal(1) == "1";
    hide *;
    FileServerFront();
    StrayRender(FileServer, h, 1);
    assert Render(BeforeHost(FileServer)) + (h + " NODE_ID " + "1" + " ") + "?;" ==
      Render(BeforeHost(FileServer)) + h + " NODE_ID 1 ?;";
  }

  lemma FileServerFront()
    ensures Render(BeforeHost(FileServer)) == "PREPARE FILE SERVER HOST="
  {
    FileServerKeys();
    KeyWords();
    hide *;
    RenderFirst(Key(HOST, '='), []);
    RenderFirst(Key(SERVER, ' '), [Key(HOST, '=')] + []);
    RenderFirst(Key(FILE, ' '), [Key(SERVER, ' ')] + ([Key(HOST, '=')] + []));
    RenderFirst(Key(PREPARE, ' '), [Key(FILE, ' ')] + ([Key(SERVER, ' ')] + ([Key(HOST, '=')] + [])));
    FrontWords();
  }

  lemma FileServerKeys()
    ensures IsKeyword(HOST) && IsKeyword(SERVER) && IsKeyword(FILE) && IsKeyword(PREPARE)
    ensures BeforeHost(FileServer) ==
              [Key(PREPARE, ' ')] + ([Key(FILE, ' ')] + ([Key(SERVER, ' ')] + ([Key(HOST, '=')] + [])))
  {
    hide Spelling;
  }

  lemma KeyWords()
    ensures Key(HOST, '=') == Piece("HOST", '=') && Key(SERVER, ' ') == Piece("SERVER", ' ')
    ensures Key(FILE, ' ') == Piece("FILE", ' ') && Key(PREPARE, ' ') == Piece("PREPARE", ' ')
  {
  }

  lemma FrontWords()
    ensures "PREPARE" + [' '] + ("FILE" + [' '] + ("SERVER" + [' '] + ("HOST" + ['='] + "")))
         == "PREPARE FILE SERVER HOST="
  {
    assert "HOST" + ['='] + "" == "HOST=";
    assert "SERVER" + [' '] + "HOST=" == "SERVER HOST=";
    assert "FILE" + [' '] + "SERVER HOST=" == "FILE SERVER HOST=";
  }

  lemma EndsInQuestion()
    ensures Terminated("?;") && IsBadCharacter("?;"[0]) && 1 < TWO_TO_32
  {
  }

  lemma RecordedTwice(world: World, ev: Event)
    requires ev == Event(FileServer, Entry(0, 1))
    ensures var p := NodeRuns.Run(world, [RecordOnly(ev), RecordOnly(ev)]);
            !p.exited && p.lists.fs == [Entry(0, 1), Entry(0, 1)] && !AllDistinct(p.lists)
  {
    var a := RecordOnly(ev);
    RunSnoc(world, [], a);
    RunSnoc(world, [a], a);
    assert [] + [a] == [a] && [a] + [a] == [a, a];
    var p := NodeRuns.Run(world, [a, a]);
    assert p == Record(Record(NodeIds.START, ev), ev);
    assert p.lists.Of(FileServer) == [Entry(0, 1), Entry(0, 1)];
    assert Clash(FileServer, p.lists.Of(FileServer)[0], FileServer, p.lists.Of(FileServer)[1]);
  }
}
