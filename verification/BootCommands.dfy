/** Bootstrap commands: their printed form and the grammar that reads them back. */
module BootCommands {
  import opened Decimals
  import opened Symbols
  import opened BootLex

  // ----- printed words -----

  /** A word and the character printed behind it. */
  datatype Piece = Piece(word: string, end: char)

  function Render(pieces: seq<Piece>): string {
    if pieces == [] then ""
    else pieces[0].word + [pieces[0].end] + Render(pieces[1..])
  }

  /** A word the lexer reads as a whole: a name, a number or an address. */
  predicate IsWord(w: string) {
    IsName(w) || (w != "" && IsDigit(w[0]) && IsNumeric(w) && (AllDigits(w) || IsAddress(w)))
  }

  function WordToken(table: SymbolTable, w: string): (t: Token)
    requires table.Shaped() && IsWord(w)
    ensures !t.End?
  {
    if IsName(w) then NameToken(table, w) else NumericToken(w)
  }

  /** Every piece but the last ends in a space or an equal sign. */
  predicate IsPrintable(pieces: seq<Piece>) {
    && pieces != []
    && (forall i :: 0 <= i < |pieces| ==> IsWord(pieces[i].word))
    && (forall i :: 0 <= i < |pieces| - 1 ==> pieces[i].end == ' ' || pieces[i].end == '=')
    && pieces[|pieces| - 1].end == ';'
  }

  function EndTokens(p: Piece): seq<Token> {
    if p.end == '=' then [Keyword(EQUAL)] else []
  }

  function PieceTokens(table: SymbolTable, pieces: seq<Piece>): seq<Token>
    requires table.Shaped() && forall i :: 0 <= i < |pieces| ==> IsWord(pieces[i].word)
  {
    if pieces == [] then []
    else
      [WordToken(table, pieces[0].word)] + EndTokens(pieces[0]) + PieceTokens(table, pieces[1..])
  }

  /** A word followed by an ending character is read as a whole. */
  lemma WordIsLexed(table: SymbolTable, w: string, more: string)
    requires table.Shaped() && IsWord(w) && Terminated(more) && EndsSymbol(more[0])
    ensures Terminated(w + more) && !In((w + more)[0], Blank)
    ensures LexWord(table, w + more) == Found(WordToken(table, w), more)
  {
    var s := w + more;
    var n := |w|;
    assert s[..n] == w && s[n..] == more && s[n] == more[0];
    assert s[0] == w[0];
    if IsName(w) {
      assert forall i :: 0 <= i < n ==> s[i] == w[i];
      RunLengthIs(s, NameLike, n);
    } else {
      assert forall i :: 0 <= i < n ==> s[i] == w[i];
      RunLengthIs(s, Numeric, n);
    }
  }

  function Consed(first: seq<Token>, all: Tokens): Tokens {
    match all
    case Good(tokens) => Good(first + tokens)
    case Bad(before, error) => Bad(first + before, error)
  }

  lemma LexAllWord(table: SymbolTable, w: string, more: string)
    requires table.Shaped() && IsWord(w) && Terminated(more) && EndsSymbol(more[0])
    ensures Terminated(w + more)
    ensures LexAll(table, w + more) == Consed([WordToken(table, w)], LexAll(table, more))
  {
    WordIsLexed(table, w, more);
    var s := w + more;
    hide LexWord, WordToken, IsWord, EndsSymbol, In;
    assert RunLength(s, Blank) == 0;
    assert s[0..] == s;
    assert LexOne(table, s) == Found(WordToken(table, w), more);
  }

  lemma LexAllSpace(table: SymbolTable, more: string)
    requires table.Shaped() && Terminated(more)
    ensures Terminated([' '] + more) && LexAll(table, [' '] + more) == LexAll(table, more)
  {
    var s := [' '] + more;
    assert s[1..] == more;
    assert RunLength(s, Blank) == 1 + RunLength(more, Blank);
    RunEndsInside(more, Blank);
    assert s[RunLength(s, Blank)..] == more[RunLength(more, Blank)..];
    hide LexWord;
    assert LexOne(table, s) == LexOne(table, more);
  }

  lemma LexAllEqual(table: SymbolTable, more: string)
    requires table.Shaped() && Terminated(more) && more[0] != ';'
    ensures Terminated(['='] + more) && LexAll(table, ['='] + more) == Consed([Keyword(EQUAL)], LexAll(table, more))
  {
    var s := ['='] + more;
    assert s[1..] == more && s[0..] == s;
    assert RunLength(s, Blank) == 0;
    assert LexOne(table, s) == Found(Keyword(EQUAL), more);
  }

  /** Text behind a separator: a command given to the lexer ends in one. */
  predicate MayFollow(rest: string) {
    rest == "" || Terminated(rest)
  }

  lemma LexAllEnd(table: SymbolTable, rest: string)
    requires table.Shaped() && MayFollow(rest)
    ensures Terminated([';'] + rest) && LexAll(table, [';'] + rest) == Good([])
  {
    var s := [';'] + rest;
    assert s[0] == ';' && s[0..] == s;
    assert RunLength(s, Blank) == 0;
  }

  lemma {:induction false} RenderIsTerminated(pieces: seq<Piece>)
    requires IsPrintable(pieces)
    ensures Terminated(Render(pieces)) && Render(pieces)[0] == pieces[0].word[0]
  {
    if |pieces| > 1 {
      RenderIsTerminated(pieces[1..]);
    }
  }

  lemma TerminatedWith(s: string, rest: string)
    requires Terminated(s) && MayFollow(rest)
    ensures Terminated(s + rest) && (s + rest)[0] == s[0]
  {
    assert rest == "" ==> s + rest == s;
  }

  lemma PieceIsLexed(table: SymbolTable, p: Piece, later: string)
    requires table.Shaped() && IsWord(p.word) && (p.end == ' ' || p.end == '=')
    requires Terminated(later) && later[0] != ';'
    ensures Terminated(p.word + [p.end] + later)
    ensures LexAll(table, p.word + [p.end] + later) ==
              Consed([WordToken(table, p.word)] + EndTokens(p), LexAll(table, later))
  {
    var all := LexAll(table, later);
    ConsedTwice([WordToken(table, p.word)], EndTokens(p), all);
    assert EndsSymbol(p.end);
    assert EndTokens(p) == if p.end == '=' then [Keyword(EQUAL)] else [];
    hide *;
    if p.end == ' ' {
      LexAllSpace(table, later);
      SplitPiece(table, p.word, ' ', later);
    } else {
      LexAllEqual(table, later);
      SplitPiece(table, p.word, '=', later);
    }
  }

  lemma SplitPiece(table: SymbolTable, w: string, e: char, later: string)
    requires table.Shaped() && IsWord(w) && EndsSymbol(e) && Terminated(later)
    ensures Terminated(w + [e] + later) && Terminated([e] + later)
    ensures LexAll(table, w + [e] + later) == Consed([WordToken(table, w)], LexAll(table, [e] + later))
  {
    var s := [e] + later;
    assert s[0] == e && s[|s| - 1] == later[|later| - 1];
    assert w + [e] + later == w + s;
    LexAllWord(table, w, s);
  }

  lemma ConsedTwice(a: seq<Token>, b: seq<Token>, all: Tokens)
    ensures Consed(a, Consed(b, all)) == Consed(a + b, all) && Consed([], all) == all
  {
    if all.Good? {
      assert a + (b + all.tokens) == a + b + all.tokens && [] + all.tokens == all.tokens;
    } else {
      assert a + (b + all.before) == a + b + all.before && [] + all.before == all.before;
    }
  }

  lemma LastPieceIsLexed(table: SymbolTable, w: string, rest: string)
    requires table.Shaped() && IsWord(w) && MayFollow(rest)
    ensures Terminated(w + [';'] + rest)
    ensures LexAll(table, w + [';'] + rest) == Good([WordToken(table, w)])
  {
    var s := [';'] + rest;
    assert w + [';'] + rest == w + s && s[0] == ';';
    hide LexAll, WordToken, IsWord, MayFollow;
    LexAllEnd(table, rest);
    LexAllWord(table, w, s);
  }

  lemma PrintableFirst(pieces: seq<Piece>)
    requires IsPrintable(pieces)
    ensures pieces != [] && forall i :: 0 <= i < |pieces| ==> IsWord(pieces[i].word)
    ensures |pieces| == 1 ==> pieces[0].end == ';'
    ensures |pieces| > 1 ==> IsPrintable(pieces[1..]) && (pieces[0].end == ' ' || pieces[0].end == '=')
  {
  }

  /** Lexing undoes printing, word by word, up to the first separator; what
      follows it is not read. */
  lemma {:induction false} PiecesAreLexed(table: SymbolTable, pieces: seq<Piece>, rest: string)
    requires table.Shaped() && IsPrintable(pieces) && MayFollow(rest)
    ensures Terminated(Render(pieces) + rest)
    ensures LexAll(table, Render(pieces) + rest) == Good(PieceTokens(table, pieces))
  {
    hide *;
    PrintableFirst(pieces);
    PiecesFirst(table, pieces);
    RenderIsTerminated(pieces);
    TerminatedWith(Render(pieces), rest);
    var p, later := pieces[0], Render(pieces[1..]);
    assert p.word + [p.end] + later + rest == p.word + [p.end] + (later + rest);
    if |pieces| == 1 {
      NoPieces(table, pieces[1..]);
      assert later + rest == rest;
      LastPieceIsLexed(table, p.word, rest);
      LastTokens(table, p);
    } else {
      PiecesAreLexed(table, pieces[1..], rest);
      RenderIsTerminated(pieces[1..]);
      TerminatedWith(later, rest);
      NotSeparator(pieces[1].word);
      PieceIsLexed(table, p, later + rest);
      GoodConsed([WordToken(table, p.word)] + EndTokens(p), PieceTokens(table, pieces[1..]));
    }
  }

  lemma PiecesFirst(table: SymbolTable, pieces: seq<Piece>)
    requires table.Shaped() && pieces != [] && forall i :: 0 <= i < |pieces| ==> IsWord(pieces[i].word)
    ensures forall i :: 0 <= i < |pieces[1..]| ==> IsWord(pieces[1..][i].word)
    ensures Render(pieces) == pieces[0].word + [pieces[0].end] + Render(pieces[1..])
    ensures PieceTokens(table, pieces) ==
              [WordToken(table, pieces[0].word)] + EndTokens(pieces[0]) + PieceTokens(table, pieces[1..])
  {
    hide IsWord, WordToken;
  }

  lemma NoPieces(table: SymbolTable, pieces: seq<Piece>)
    requires table.Shaped() && pieces == []
    ensures Render(pieces) == "" && PieceTokens(table, pieces) == []
  {
  }

  lemma LastTokens(table: SymbolTable, p: Piece)
    requires table.Shaped() && IsWord(p.word) && p.end == ';'
    ensures [WordToken(table, p.word)] + EndTokens(p) + [] == [WordToken(table, p.word)]
  {
    hide WordToken, IsWord;
  }

  lemma NotSeparator(w: string)
    requires IsWord(w)
    ensures w != "" && w[0] != ';'
  {
  }

  lemma GoodConsed(first: seq<Token>, tokens: seq<Token>)
    ensures Consed(first, Good(tokens)) == Good(first + tokens)
  {
  }
}
