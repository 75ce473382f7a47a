/** The text of bootstrap commands as generate_bootstrap_file prints them, and
    its way back through the lexer and the parser. */
module BootPrint {
  import opened Basics
  import opened Decimals
  import opened Symbols
  import opened BootLex
  import opened BootCommands
  import opened BootGrammar

  /** A host name that comes back as it was: an identifier that meets no
      keyword's hash value, or an address. */
  ghost predicate IsGoodHost(table: SymbolTable, h: string)
    requires table.Shaped()
  {
    (IsName(h) && table.Lookup(h) == 0) || IsDottedQuad(h)
  }

  /** The commands that are printed: servers of the grid have no cluster id. */
  ghost predicate IsPrinted(table: SymbolTable, c: Command)
    requires table.Shaped()
  {
    match c
    case Prepare(server, host, pcntrlHost, _, clusterId, _) =>
      IsGoodHost(table, host) && IsGoodHost(table, pcntrlHost) && (!InCluster(server) ==> clusterId == 0)
    case Exit => false
    case _ => true
  }

  // ----- printing -----

  function Key(id: nat, end: char): Piece
    requires IsKeyword(id)
  {
    Piece(Spelling(id), end)
  }

  function Setting(id: nat, value: string, end: char): seq<Piece>
    requires IsKeyword(id)
  {
    [Key(id, '='), Piece(value, end)]
  }

  function NodePieces(c: Command): seq<Piece>
    requires c.Prepare?
  {
    Setting(NODE_ID, Decimal(c.nodeId), ';')
  }

  function ClusterPieces(c: Command): seq<Piece>
    requires c.Prepare?
  {
    (if InCluster(c.server) then Setting(CLUSTER_ID, Decimal(c.clusterId), ' ') else []) + NodePieces(c)
  }

  function PortPieces(c: Command): seq<Piece>
    requires c.Prepare?
  {
    Setting(PCNTRL_PORT, Decimal(c.pcntrlPort), ' ') + ClusterPieces(c)
  }

  function HostPieces(c: Command): seq<Piece>
    requires c.Prepare?
  {
    Setting(HOST, c.host, ' ') + (Setting(PCNTRL_HOST, c.pcntrlHost, ' ') + PortPieces(c))
  }

  /** The words of a command in the order they are printed. */
  function Pieces(c: Command): seq<Piece> {
    match c
    case Prepare(server, _, _, _, _, _) =>
      [Key(PREPARE, ' '), Key(KindWord(server), ' '), Key(RoleWord(server), ' ')] + HostPieces(c)
    case SendFiles => [Key(SEND, ' '), Key(FILES, ';')]
    case Start(server) => [Key(START, ' '), Key(KindWord(server), ' '), Key(RolesWord(server), ';')]
    case Exit => [Key(EXIT, ';')]
  }

  /** The command without its newline. */
  function Text(c: Command): string {
    Render(Pieces(c))
  }

  /** The choices made by the printer: every part, each with an equal sign. */
  function PrintedForm(c: Command): Form {
    match c
    case Prepare(server, host, pcntrlHost, pcntrlPort, clusterId, nodeId) =>
      PrepareForm(server, true, host, Given(true, pcntrlHost), Given(true, pcntrlPort),
                  if InCluster(server) then Given(true, clusterId) else Omitted, true, nodeId)
    case SendFiles => SendForm
    case Start(server) => StartForm(server)
    case Exit => ExitForm
  }

  lemma PrintedFormMeans(table: SymbolTable, c: Command)
    requires table.Shaped() && IsPrinted(table, c)
    ensures IsForm(PrintedForm(c)) && Meaning(PrintedForm(c)) == c
  {
    if c.Prepare? {
      assert !InCluster(c.server) ==> c.clusterId == 0;
      NarrowKeeps(c.pcntrlPort);
      NarrowKeeps(c.clusterId);
      NarrowKeeps(c.nodeId);
      hide Narrow, IsGoodHost, InCluster;
    }
  }

  lemma NarrowKeeps(x: uint32)
    ensures Narrow(x) == x
  {
  }

  // ----- the tokens of printed words -----

  lemma QuadIsWord(h: string)
    requires IsDottedQuad(h)
    ensures IsWord(h) && !IsName(h) && IsNumeric(h) && !AllDigits(h) && IsAddress(h)
  {
    var a, b, c, d :| IsPart(a) && IsPart(b) && IsPart(c) && IsPart(d) && h == Dotted(Dotted(Dotted(a, b), c), d);
    DottedIsNumeric(a, b);
    DottedIsNumeric(Dotted(a, b), c);
    DottedIsNumeric(Dotted(Dotted(a, b), c), d);
    assert h[0] == a[0] && h[|a|] == '.';
    QuadIsAddress(a, b, c, d);
  }

  lemma DottedIsNumeric(u: string, p: string)
    requires IsNumeric(u) && AllDigits(p)
    ensures IsNumeric(Dotted(u, p))
  {
  }

  lemma HostToken(table: SymbolTable, h: string)
    requires table.Shaped() && IsGoodHost(table, h)
    ensures IsWord(h) && WordToken(table, h) == Identifier(h)
  {
    if IsDottedQuad(h) {
      QuadIsWord(h);
    }
  }

  lemma NumberToken(table: SymbolTable, n: nat)
    requires table.Shaped() && n < TWO_TO_64
    ensures IsWord(Decimal(n)) && WordToken(table, Decimal(n)) == Integer(n)
  {
    var w := Decimal(n);
    DecimalReadsBack(n);
    assert IsDigit(w[0]);
    assert !IsName(w);
  }

  lemma KeyToken(table: SymbolTable, id: nat)
    requires Perfect(BootSymbols(), table) && IsKeyword(id) && id != EQUAL
    ensures IsWord(Spelling(id)) && WordToken(table, Spelling(id)) == Keyword(id)
  {
    SpellingIsName(id);
    SpellingIsUpperCase(id);
    KeywordIsFound(table, id, Spelling(id));
    hide Spelling;
  }

  // ----- the tokens of printed commands -----

  ghost predicate AreWords(pieces: seq<Piece>) {
    forall i :: 0 <= i < |pieces| ==> IsWord(pieces[i].word)
  }

  /** What may follow a piece that ends so. */
  ghost predicate CanFollow(end: char, later: seq<Piece>) {
    if later == [] then end == ';' else IsPrintable(later) && (end == ' ' || end == '=')
  }

  lemma PieceBefore(table: SymbolTable, p: Piece, later: seq<Piece>)
    requires table.Shaped() && IsWord(p.word) && AreWords(later) && CanFollow(p.end, later)
    ensures AreWords([p] + later) && IsPrintable([p] + later)
    ensures PieceTokens(table, [p] + later) == [WordToken(table, p.word)] + EndTokens(p) + PieceTokens(table, later)
  {
    var s := [p] + later;
    hide IsWord, WordToken;
    assert s[0] == p && s[1..] == later && forall i :: 1 <= i < |s| ==> s[i] == later[i - 1];
  }

  lemma KeyBefore(table: SymbolTable, id: nat, end: char, later: seq<Piece>)
    requires Perfect(BootSymbols(), table) && IsKeyword(id) && id != EQUAL && end != '='
    requires AreWords(later) && CanFollow(end, later)
    ensures AreWords([Key(id, end)] + later) && IsPrintable([Key(id, end)] + later)
    ensures PieceTokens(table, [Key(id, end)] + later) == [Keyword(id)] + PieceTokens(table, later)
  {
    KeyToken(table, id);
    assert EndTokens(Key(id, end)) == [];
    assert Key(id, end) == Piece(Spelling(id), end);
    hide *;
    PieceBefore(table, Key(id, end), later);
    assert [Keyword(id)] + [] == [Keyword(id)];
  }

  lemma SettingShape(id: nat, value: string, end: char, later: seq<Piece>)
    requires IsKeyword(id) && end != '='
    ensures Key(id, '=').word == Spelling(id) && EndTokens(Key(id, '=')) == [Keyword(EQUAL)]
    ensures EndTokens(Piece(value, end)) == []
    ensures Setting(id, value, end) + later == [Key(id, '=')] + ([Piece(value, end)] + later)
  {
    hide Spelling;
  }

  lemma FieldShape(id: nat, value: Token, rest: seq<Token>)
    ensures FieldText(id, true, value) + rest == [Keyword(id)] + [Keyword(EQUAL)] + ([value] + [] + rest)
  {
  }

  lemma SettingBefore(table: SymbolTable, id: nat, value: string, end: char, later: seq<Piece>)
    requires Perfect(BootSymbols(), table) && IsKeyword(id) && id != EQUAL && end != '=' && IsWord(value)
    requires AreWords(later) && CanFollow(end, later)
    ensures AreWords(Setting(id, value, end) + later) && IsPrintable(Setting(id, value, end) + later)
    ensures PieceTokens(table, Setting(id, value, end) + later)
         == FieldText(id, true, WordToken(table, value)) + PieceTokens(table, later)
  {
    var key, p := Key(id, '='), Piece(value, end);
    KeyToken(table, id);
    SettingShape(id, value, end, later);
    FieldShape(id, WordToken(table, value), PieceTokens(table, later));
    assert IsPrintable([p] + later) ==> CanFollow('=', [p] + later);
    hide *;
    PieceBefore(table, p, later);
    PieceBefore(table, key, [p] + later);
  }

  lemma ClusterTokens(table: SymbolTable, c: Command)
    requires Perfect(BootSymbols(), table) && c.Prepare?
    ensures AreWords(ClusterPieces(c))
    ensures PieceTokens(table, ClusterPieces(c)) == ClusterText(PrintedForm(c))
    ensures IsPrintable(ClusterPieces(c))
  {
    NumberToken(table, c.nodeId);
    NumberToken(table, c.clusterId);
    Nothing(table);
    hide Perfect, PieceTokens, WordToken, IsWord, IsPrintable, Decimal, Setting;
    SettingBefore(table, NODE_ID, Decimal(c.nodeId), ';', []);
    assert NodePieces(c) + [] == NodePieces(c);
    if InCluster(c.server) {
      SettingBefore(table, CLUSTER_ID, Decimal(c.clusterId), ' ', NodePieces(c));
    } else {
      assert ClusterPieces(c) == NodePieces(c);
    }
  }

  lemma HostTokens(table: SymbolTable, c: Command)
    requires Perfect(BootSymbols(), table) && c.Prepare? && IsWord(c.host) && IsWord(c.pcntrlHost)
    ensures AreWords(HostPieces(c))
    ensures PieceTokens(table, HostPieces(c)) ==
              FieldText(HOST, true, WordToken(table, c.host)) +
              (FieldText(PCNTRL_HOST, true, WordToken(table, c.pcntrlHost)) + PortText(PrintedForm(c)))
    ensures IsPrintable(HostPieces(c))
  {
    NumberToken(table, c.pcntrlPort);
    ClusterTokens(table, c);
    hide Perfect, PieceTokens, WordToken, IsWord, IsPrintable, ClusterPieces, ClusterText, Decimal;
    SettingBefore(table, PCNTRL_PORT, Decimal(c.pcntrlPort), ' ', ClusterPieces(c));
    SettingBefore(table, PCNTRL_HOST, c.pcntrlHost, ' ', PortPieces(c));
    SettingBefore(table, HOST, c.host, ' ', Setting(PCNTRL_HOST, c.pcntrlHost, ' ') + PortPieces(c));
  }

  lemma TwoKeys(table: SymbolTable, first: nat, second: nat, end: char, later: seq<Piece>)
    requires Perfect(BootSymbols(), table) && AreWords(later)
    requires IsKeyword(first) && first != EQUAL && IsKeyword(second) && second != EQUAL
    requires end != '=' && CanFollow(end, later)
    ensures AreWords([Key(first, ' '), Key(second, end)] + later)
    ensures PieceTokens(table, [Key(first, ' '), Key(second, end)] + later) ==
              [Keyword(first), Keyword(second)] + PieceTokens(table, later)
    ensures IsPrintable([Key(first, ' '), Key(second, end)] + later)
  {
    hide IsPrintable, Perfect, AreWords, PieceTokens, Key;
    KeyBefore(table, second, end, later);
    KeyBefore(table, first, ' ', [Key(second, end)] + later);
    assert [Key(first, ' '), Key(second, end)] + later == [Key(first, ' ')] + ([Key(second, end)] + later);
  }

  lemma ThreeKeys(table: SymbolTable, first: nat, second: nat, third: nat, end: char, later: seq<Piece>)
    requires Perfect(BootSymbols(), table) && AreWords(later)
    requires IsKeyword(first) && first != EQUAL && IsKeyword(second) && second != EQUAL && IsKeyword(third)
    requires third != EQUAL
    requires end != '=' && CanFollow(end, later)
    ensures AreWords([Key(first, ' '), Key(second, ' '), Key(third, end)] + later)
    ensures PieceTokens(table, [Key(first, ' '), Key(second, ' '), Key(third, end)] + later)
         == [Keyword(first), Keyword(second), Keyword(third)] + PieceTokens(table, later)
    ensures IsPrintable([Key(first, ' '), Key(second, ' '), Key(third, end)] + later)
  {
    hide IsPrintable, Perfect, AreWords, PieceTokens, Key;
    var two := [Key(second, ' '), Key(third, end)] + later;
    TwoKeys(table, second, third, end, later);
    KeyBefore(table, first, ' ', two);
    assert [Key(first, ' '), Key(second, ' '), Key(third, end)] + later == [Key(first, ' ')] + two;
  }

  /** The words printed for a command are the tokens of the sentence meant. */
  lemma PrintedTokens(table: SymbolTable, c: Command)
    requires Perfect(BootSymbols(), table) && IsPrinted(table, c)
    ensures AreWords(Pieces(c)) && IsPrintable(Pieces(c))
    ensures PieceTokens(table, Pieces(c)) == Sentence(PrintedForm(c))
  {
    match c
    case Prepare(server, _, _, _, _, _) =>
      HostToken(table, c.host);
      HostToken(table, c.pcntrlHost);
      HostTokens(table, c);
      HostTextOf(c);
      hide Perfect, PieceTokens, HostPieces, HostText, PortText, IsGoodHost, IsPrintable, AreWords, Key, FieldText;
      ThreeKeys(table, PREPARE, KindWord(server), RoleWord(server), ' ', HostPieces(c));
    case SendFiles =>
      Nothing(table);
      hide Perfect, PieceTokens, IsPrintable, AreWords, Key;
      TwoKeys(table, SEND, FILES, ';', []);
      assert Pieces(c) + [] == Pieces(c);
    case Start(server) =>
      Nothing(table);
      hide Perfect, PieceTokens, IsPrintable, AreWords, Key;
      ThreeKeys(table, START, KindWord(server), RolesWord(server), ';', []);
      assert Pieces(c) + [] == Pieces(c);
  }

  lemma HostTextOf(c: Command)
    requires c.Prepare?
    ensures HostText(PrintedForm(c)) ==
              FieldText(HOST, true, Identifier(c.host)) +
                  (FieldText(PCNTRL_HOST, true, Identifier(c.pcntrlHost)) + PortText(PrintedForm(c)))
  {
  }

  lemma Nothing(table: SymbolTable)
    requires table.Shaped()
    ensures AreWords([]) && PieceTokens(table, []) == []
  {
  }

  /** What a command text is read as: its tokens, parsed; nothing after an error. */
  function ReadBack(table: SymbolTable, s: string): Option<Command>
    requires table.Shaped()
  {
    if !Terminated(s) then None
    else
      var all := LexAll(table, s);
      if all.Bad? then None else Parse(all.tokens)
  }

  /** One command: lexing gives the tokens printed, and parsing the command. */
  lemma PrintedIsRead(table: SymbolTable, c: Command)
    requires Perfect(BootSymbols(), table) && IsPrinted(table, c)
    ensures Terminated(Text(c)) && LexAll(table, Text(c)) == Good(Sentence(PrintedForm(c)))
    ensures ReadBack(table, Text(c)) == Some(c)
  {
    PrintedTokens(table, c);
    PiecesAreLexed(table, Pieces(c), "");
    assert Render(Pieces(c)) + "" == Render(Pieces(c));
    PrintedFormMeans(table, c);
    SentenceIsParsed(PrintedForm(c));
  }

  /** The tokens of a PREPARE whose hosts are any words. */
  function PrepareTokens(table: SymbolTable, c: Command): seq<Token>
    requires table.Shaped() && c.Prepare? && IsWord(c.host) && IsWord(c.pcntrlHost)
  {
    [Keyword(PREPARE), Keyword(KindWord(c.server)), Keyword(RoleWord(c.server))] +
    (FieldText(HOST, true, WordToken(table, c.host)) +
     (FieldText(PCNTRL_HOST, true, WordToken(table, c.pcntrlHost)) + PortText(PrintedForm(c))))
  }

  lemma PrepareIsLexed(table: SymbolTable, c: Command)
    requires Perfect(BootSymbols(), table) && c.Prepare? && IsWord(c.host) && IsWord(c.pcntrlHost)
    ensures Terminated(Text(c)) && LexAll(table, Text(c)) == Good(PrepareTokens(table, c))
  {
    HostTokens(table, c);
    hide Perfect, PieceTokens, HostPieces, PortText, IsPrintable, AreWords, Key, FieldText, WordToken, IsWord;
    ThreeKeys(table, PREPARE, KindWord(c.server), RoleWord(c.server), ' ', HostPieces(c));
    PiecesAreLexed(table, Pieces(c), "");
    assert Render(Pieces(c)) + "" == Render(Pieces(c));
  }

  lemma GoodHostIff(table: SymbolTable, h: string)
    requires table.Shaped() && IsWord(h)
    ensures IsGoodHost(table, h) <==> WordToken(table, h).Identifier?
  {
    if IsName(h) {
      if IsDottedQuad(h) {
        QuadIsWord(h);
      }
    } else {
      AddressIsDottedQuad(h);
      if IsDottedQuad(h) {
        QuadIsWord(h);
      }
    }
  }

  /** A host that is a word and not good makes the parser reject the command: a
      name that meets a keyword's hash value, or a bare number. */
  lemma WordHostsDecide(table: SymbolTable, c: Command)
    requires Perfect(BootSymbols(), table) && c.Prepare? && IsWord(c.host) && IsWord(c.pcntrlHost)
    requires !InCluster(c.server) ==> c.clusterId == 0
    ensures ReadBack(table, Text(c)) ==
              if IsGoodHost(table, c.host) && IsGoodHost(table, c.pcntrlHost) then Some(c) else None
  {
    PrepareIsLexed(table, c);
    hide Parse, Text, WordToken, PrepareTokens, Perfect, IsWord, LexAll;
    GoodHostIff(table, c.host);
    GoodHostIff(table, c.pcntrlHost);
    if IsGoodHost(table, c.host) && IsGoodHost(table, c.pcntrlHost) {
      PrintedIsRead(table, c);
    } else {
      BadHostIsRejected(table, c);
    }
  }

  lemma BadHostIsRejected(table: SymbolTable, c: Command)
    requires table.Shaped() && c.Prepare? && IsWord(c.host) && IsWord(c.pcntrlHost)
    requires !WordToken(table, c.host).Identifier? || !WordToken(table, c.pcntrlHost).Identifier?
    ensures Parse(PrepareTokens(table, c)) == None
  {
    var later := FieldText(PCNTRL_HOST, true, WordToken(table, c.pcntrlHost)) + PortText(PrintedForm(c));
    var t := FieldText(HOST, true, WordToken(table, c.host)) + later;
    FieldTakes(HOST, WordToken(table, c.host), later);
    FieldTakes(PCNTRL_HOST, WordToken(table, c.pcntrlHost), PortText(PrintedForm(c)));
    hide WordToken, FieldText, PortText, NameField, IsWord, ParsePort;
    assert ParsePrepare(c.server, t) == None;
    assert PrepareTokens(table, c)[3..] == t;
  }

  lemma FieldTakes(id: nat, value: Token, rest: seq<Token>)
    ensures var t := FieldText(id, true, value) + rest;
            StartsWith(t, id) && |t| >= 3 && NameField(t, id) == if value.Identifier? then Field(value.name, rest)
                else NoField
  {
    var t := FieldText(id, true, value) + rest;
    assert t[2..] == [value] + rest;
    assert ([value] + rest)[1..] == rest;
  }
}
