/** Which host names survive printing and reading back. */
module BootHosts {
  import opened Basics
  import opened Decimals
  import opened Symbols
  import opened BootLex
  import opened BootCommands
  import opened BootGrammar
  import opened BootPrint

  // ----- any host -----

  /** An identifier that the lexer reports is a good host. */
  lemma LexedNameIsGood(table: SymbolTable, s: string)
    requires table.Shaped() && Terminated(s) && !In(s[0], Blank)
    ensures var r := LexWord(table, s);
            r.Found? && r.token.Identifier? ==> IsGoodHost(table, r.token.name)
  {
    var r := LexWord(table, s);
    if r.Found? && r.token.Identifier? {
      if IsDigit(s[0]) {
        var w := s[..RunLength(s, Numeric)];
        assert forall i :: 0 <= i < |w| ==> w[i] == s[i];
        hide RunLength, PartLengths, IsDottedQuad, In;
        AddressIsDottedQuad(w);
      } else {
        RunEndsInside(s, NameLike);
        var n := RunLength(s, NameLike);
        var w := s[..n];
        assert n > 0;
        assert forall i :: 0 <= i < |w| ==> w[i] == s[i];
        assert IsName(w);
      }
    }
  }

  lemma {:induction false} IdentifiersAreGood(table: SymbolTable, s: string, i: nat)
    requires table.Shaped() && Terminated(s)
    requires LexAll(table, s).Good? && i < |LexAll(table, s).tokens| && LexAll(table, s).tokens[i].Identifier?
    ensures IsGoodHost(table, LexAll(table, s).tokens[i].name)
    decreases |s|
  {
    hide *;
    LexAllStep(table, s);
    if i == 0 {
      LexedNameIsGood(table, s[RunLength(s, Blank)..]);
    } else {
      IdentifiersAreGood(table, LexOne(table, s).rest, i - 1);
    }
  }

  lemma LexAllStep(table: SymbolTable, s: string)
    requires table.Shaped() && Terminated(s)
    ensures var t := s[RunLength(s, Blank)..];
            Terminated(t) && !In(t[0], Blank) && LexOne(table, s) == LexWord(table, t)
    ensures var r, all := LexOne(table, s), LexAll(table, s);
            all.Good? && all.tokens != [] ==>
              && r.Found? && Terminated(r.rest) && |r.rest| < |s|
              && LexAll(table, r.rest).Good? && all.tokens == [r.token] + LexAll(table, r.rest).tokens
  {
    RunEndsInside(s, Blank);
    hide LexWord, RunLength;
  }

  lemma HostsAreTokens(f: Form)
    requires f.PrepareForm?
    ensures Identifier(f.host) in Sentence(f)
    ensures f.pcntrlHost.Given? ==> Identifier(f.pcntrlHost.value) in Sentence(f)
  {
    var host := FieldText(HOST, f.hostEqual, Identifier(f.host));
    assert host[|host| - 1] == Identifier(f.host);
    if f.pcntrlHost.Given? {
      var part := NamePart(PCNTRL_HOST, f.pcntrlHost);
      assert part[|part| - 1] == Identifier(f.pcntrlHost.value);
      assert Identifier(f.pcntrlHost.value) in PcntrlHostText(f);
    }
  }

  /** A command that comes back has good hosts. */
  lemma HostsWereGood(table: SymbolTable, c: Command)
    requires table.Shaped() && c.Prepare? && ReadBack(table, Text(c)) == Some(c)
    ensures IsGoodHost(table, c.host) && IsGoodHost(table, c.pcntrlHost)
  {
    hide Text, LexAll, IsGoodHost;
    var tokens := LexAll(table, Text(c)).tokens;
    var f := ParsedIsSentence(tokens);
    assert f.PrepareForm? && c.host == f.host && c.pcntrlHost == PartOr(f.pcntrlHost, f.host);
    HostsAreTokens(f);
    hide Sentence, Meaning, Parse;
    var i :| 0 <= i < |tokens| && tokens[i] == Identifier(c.host);
    IdentifiersAreGood(table, Text(c), i);
    if f.pcntrlHost.Given? {
      var j :| 0 <= j < |tokens| && tokens[j] == Identifier(c.pcntrlHost);
      IdentifiersAreGood(table, Text(c), j);
    }
  }

  /** Whatever strings the hosts are, a printed PREPARE comes back as itself
      exactly when both are good. */
  lemma HostsDecide(table: SymbolTable, c: Command)
    requires Perfect(BootSymbols(), table) && c.Prepare?
    requires !InCluster(c.server) ==> c.clusterId == 0
    ensures ReadBack(table, Text(c)) == Some(c) <==> IsGoodHost(table, c.host) && IsGoodHost(table, c.pcntrlHost)
  {
    assert table.Shaped();
    hide Perfect, ReadBack, Text, IsGoodHost, SymbolTable.Shaped;
    if IsGoodHost(table, c.host) && IsGoodHost(table, c.pcntrlHost) {
      PrintedIsRead(table, c);
    }
    if ReadBack(table, Text(c)) == Some(c) {
      HostsWereGood(table, c);
    }
  }

  // ----- a host that ends the command -----

  lemma {:induction false} RenderAppend(a: seq<Piece>, b: seq<Piece>)
    ensures Render(a + b) == Render(a) + Render(b)
  {
    if a == [] {
      assert a + b == b;
    } else {
      assert (a + b)[1..] == a[1..] + b;
      RenderAppend(a[1..], b);
    }
  }

  lemma {:induction false} RenderEnds(pieces: seq<Piece>)
    requires pieces != [] && pieces[|pieces| - 1].end == ';'
    ensures Terminated(Render(pieces))
  {
    if |pieces| > 1 {
      RenderEnds(pieces[1..]);
    } else {
      assert Render(pieces[1..]) == "";
    }
  }

  /** The words before a host. */
  function BeforeHost(server: Server): seq<Piece> {
    [Key(PREPARE, ' '), Key(KindWord(server), ' '), Key(RoleWord(server), ' '), Key(HOST, '=')]
  }

  function AfterHost(c: Command): seq<Piece>
    requires c.Prepare?
  {
    Setting(PCNTRL_HOST, c.pcntrlHost, ' ') + PortPieces(c)
  }

  /** A host with a node id and a separator in it. */
  function InnerPieces(h: string, k: nat): seq<Piece> {
    [Piece(h, ' '), Key(NODE_ID, '='), Piece(Decimal(k), ';')]
  }

  lemma TextAroundHost(c: Command)
    requires c.Prepare?
    ensures Text(c) == Render(BeforeHost(c.server)) + (c.host + [' '] + Render(AfterHost(c)))
    ensures Terminated([' '] + Render(AfterHost(c)))
  {
    var before, host, later := BeforeHost(c.server), [Piece(c.host, ' ')], AfterHost(c);
    assert later[|later| - 1].end == ';';
    assert Pieces(c) == before + (host + later);
    assert host[1..] == [] && (host + later)[1..] == later;
    hide Key, Pieces, AfterHost, BeforeHost;
    RenderAppend(before, host + later);
    RenderEnds(later);
    assert Render(host + later) == c.host + [' '] + Render(later);
    hide Render;
    var s := [' '] + Render(later);
    assert s[|s| - 1] == Render(later)[|Render(later)| - 1];
  }

  lemma InnerTokens(table: SymbolTable, server: Server, h: string, k: uint32)
    requires Perfect(BootSymbols(), table) && IsGoodHost(table, h)
    ensures AreWords(BeforeHost(server) + InnerPieces(h, k)) && IsPrintable(BeforeHost(server) + InnerPieces(h, k))
    ensures PieceTokens(table, BeforeHost(server) + InnerPieces(h, k)) == Sentence(InnerForm(server, h, k))
  {
    assert table.Shaped();
    hide *;
    HostToken(table, h);
    SmallNumber(k);
    NumberToken(table, k);
    Nothing(table);
    InnerShape(server, h, k);
    var node := Setting(NODE_ID, Decimal(k), ';') + [];
    Follows([]);
    SettingBefore(table, NODE_ID, Decimal(k), ';', []);
    Follows(node);
    SettingBefore(table, HOST, h, ' ', node);
    Follows(Setting(HOST, h, ' ') + node);
    ThreeKeys(table, PREPARE, KindWord(server), RoleWord(server), ' ', Setting(HOST, h, ' ') + node);
  }

  lemma Follows(later: seq<Piece>)
    ensures later == [] ==> CanFollow(';', later)
    ensures IsPrintable(later) ==> CanFollow(' ', later)
  {
    hide IsWord;
  }

  lemma SmallNumber(k: uint32)
    ensures k < TWO_TO_64
  {
  }

  /** The words and the tokens, put together in the same way. */
  lemma InnerShape(server: Server, h: string, k: nat)
    ensures BeforeHost(server) + InnerPieces(h, k) ==
              [Key(PREPARE, ' '), Key(KindWord(server), ' '), Key(RoleWord(server), ' ')] +
              (Setting(HOST, h, ' ') + (Setting(NODE_ID, Decimal(k), ';') + []))
    ensures Sentence(InnerForm(server, h, k)) ==
              [Keyword(PREPARE), Keyword(KindWord(server)), Keyword(RoleWord(server))] +
              (FieldText(HOST, true, Identifier(h)) + (FieldText(NODE_ID, true, Integer(k)) + []))
    ensures IsKeyword(PREPARE) && PREPARE != EQUAL && IsKeyword(HOST) && HOST != EQUAL
    ensures IsKeyword(NODE_ID) && NODE_ID != EQUAL && IsKeyword(RoleWord(server)) && RoleWord(server) != EQUAL
  {
    hide KindWord, Spelling, Decimal;
  }

  function InnerForm(server: Server, h: string, k: nat): Form {
    PrepareForm(server, true, h, Omitted, Omitted, Omitted, true, k)
  }

  /** A host that holds a separator cuts the command short: it is read as a
      different PREPARE and not rejected. */
  lemma InjectedHost(table: SymbolTable, c: Command, h: string, k: uint32)
    requires Perfect(BootSymbols(), table) && c.Prepare? && IsGoodHost(table, h)
    requires c.host == Render(InnerPieces(h, k))
    ensures ReadBack(table, Text(c)) == Some(Prepare(c.server, h, h, IC_DEF_PCNTRL_PORT, 0, k))
  {
    var inner, rest := BeforeHost(c.server) + InnerPieces(h, k), [' '] + Render(AfterHost(c));
    InnerMeaning(c.server, h, k);
    assert Terminated(rest) ==> MayFollow(rest);
    hide *;
    TextAroundHost(c);
    InnerTokens(table, c.server, h, k);
    RenderAppend(BeforeHost(c.server), InnerPieces(h, k));
    Regroup(Render(BeforeHost(c.server)), c.host, Render(AfterHost(c)));
    assert Text(c) == Render(inner) + rest;
    PiecesAreLexed(table, inner, rest);
    ReadBackIs(table, Text(c), Sentence(InnerForm(c.server, h, k)));
  }

  lemma Regroup(a: string, host: string, later: string)
    ensures a + (host + [' '] + later) == (a + host) + ([' '] + later)
  {
  }

  lemma ReadBackIs(table: SymbolTable, s: string, tokens: seq<Token>)
    requires table.Shaped() && Terminated(s) && LexAll(table, s) == Good(tokens)
    ensures ReadBack(table, s) == Parse(tokens)
  {
    hide LexAll, Parse;
  }

  lemma InnerMeaning(server: Server, h: string, k: uint32)
    ensures Parse(Sentence(InnerForm(server, h, k))) == Some(Prepare(server, h, h, IC_DEF_PCNTRL_PORT, 0, k))
  {
    hide Parse, Sentence, Narrow, InCluster;
    SentenceIsParsed(InnerForm(server, h, k));
    NarrowKeeps(k);
    NarrowKeeps(0);
    NarrowKeeps(IC_DEF_PCNTRL_PORT);
  }
}
