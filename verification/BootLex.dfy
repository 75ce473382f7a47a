/** The tokens of a bootstrap command, as bootstrap/ic_boot_lex.c reads them. */
module BootLex {
  import opened Basics
  import opened Decimals
  import opened Symbols

  // ----- keywords -----

  /** The token numbers the parser generator gives the keywords, in order. */
  const CLUSTER: nat := 258
  const CLUSTER_ID: nat := 259
  const DATA: nat := 260
  const EQUAL: nat := 261
  const EXIT: nat := 262
  const FILE: nat := 263
  const FILES: nat := 264
  const HOST: nat := 265
  const MANAGER: nat := 266
  const MANAGERS: nat := 267
  const NODE_ID: nat := 268
  const PCNTRL_HOST: nat := 269
  const PCNTRL_PORT: nat := 270
  const PREPARE: nat := 271
  const REPLICATION: nat := 272
  const QUIT: nat := 273
  const SEND: nat := 274
  const SERVER: nat := 275
  const SERVERS: nat := 276
  const SQL: nat := 277
  const START: nat := 278

  predicate IsKeyword(id: nat) {
    CLUSTER <= id <= START
  }

  function Spelling(id: nat): string
    requires IsKeyword(id)
  {
    match id
    case 258 => "CLUSTER"
    case 259 => "CLUSTER_ID"
    case 260 => "DATA"
    case 261 => "="
    case 262 => "EXIT"
    case 263 => "FILE"
    case 264 => "FILES"
    case 265 => "HOST"
    case 266 => "MANAGER"
    case 267 => "MANAGERS"
    case 268 => "NODE_ID"
    case 269 => "PCNTRL_HOST"
    case 270 => "PCNTRL_PORT"
    case 271 => "PREPARE"
    case 272 => "REPLICATION"
    case 273 => "QUIT"
    case 274 => "SEND"
    case 275 => "SERVER"
    case 276 => "SERVERS"
    case 277 => "SQL"
    case _ => "START"
  }

  /** parse_symbols. */
  function BootSymbols(): (symbols: seq<Symbol>)
    ensures |symbols| == 21 && WellFormed(symbols)
  {
    seq(21, i requires 0 <= i < 21 => Symbol(Spelling(CLUSTER + i), CLUSTER + i))
  }

  lemma SpellingIsUpperCase(id: nat)
    requires IsKeyword(id)
    ensures Upper(Spelling(id)) == Spelling(id)
  {
  }

  /** A keyword is spelled as an identifier is; `=` apart. */
  lemma SpellingIsName(id: nat)
    requires IsKeyword(id) && id != EQUAL
    ensures IsName(Spelling(id))
  {
  }

  /** With a table that keeps the keywords apart, every keyword is found, in
      upper or lower case. */
  lemma KeywordIsFound(table: SymbolTable, id: nat, word: string)
    requires Perfect(BootSymbols(), table) && IsKeyword(id) && Upper(word) == Spelling(id)
    ensures table.Lookup(word) == id
  {
    var symbols := BootSymbols();
    assert symbols[id - CLUSTER] == Symbol(Spelling(id), id);
    WordIsTakenByHash(symbols, table, word);
  }

  // ----- characters -----

  predicate IsAlpha(c: char) {
    'a' <= c <= 'z' || 'A' <= c <= 'Z'
  }

  predicate EndsSymbol(c: char) {
    c == ' ' || c == '\t' || c == '\n' || c == ';' || c == '='
  }

  datatype CharClass = Blank | Numeric | NameLike

  predicate In(c: char, cls: CharClass) {
    match cls
    case Blank => c == ' ' || c == '\t' || c == '\n'
    case Numeric => c == '.' || IsDigit(c)
    case NameLike => c == '_' || c == '.' || c == '-' || IsAlpha(c) || IsDigit(c)
  }

  /** How many characters at the front belong to a class. */
  function RunLength(s: string, cls: CharClass): (n: nat)
    ensures n <= |s|
    ensures forall i :: 0 <= i < n ==> In(s[i], cls)
    ensures n < |s| ==> !In(s[n], cls)
  {
    if s != "" && In(s[0], cls) then 1 + RunLength(s[1..], cls) else 0
  }

  lemma RunLengthIs(s: string, cls: CharClass, n: nat)
    requires n < |s| && !In(s[n], cls)
    requires forall i :: 0 <= i < n ==> In(s[i], cls)
    ensures RunLength(s, cls) == n
  {
    hide In;
    var m := RunLength(s, cls);
  }

  predicate IsName(w: string) {
    w != "" && IsAlpha(w[0]) && forall i :: 0 <= i < |w| ==> In(w[i], NameLike)
  }

  // ----- numbers and addresses -----

  predicate IsNumeric(w: string) {
    forall i :: 0 <= i < |w| ==> In(w[i], Numeric)
  }

  /** The lengths of the parts between dots. */
  function PartLengths(w: string): (p: seq<nat>)
    ensures |p| > 0
  {
    if w == "" then [0]
    else
      var p := PartLengths(w[..|w| - 1]);
      if w[|w| - 1] == '.' then p + [0] else p[..|p| - 1] + [p[|p| - 1] + 1]
  }

  predicate PartsFit(p: seq<nat>) {
    forall i :: 0 <= i < |p| ==> 1 <= p[i] <= 3
  }

  /** Four parts of one to three characters. */
  predicate IsAddress(w: string) {
    |PartLengths(w)| == 4 && PartsFit(PartLengths(w))
  }

  predicate IsPart(p: string) {
    1 <= |p| <= 3 && AllDigits(p)
  }

  ghost predicate IsDottedQuad(w: string) {
    exists a, b, c, d :: IsPart(a) && IsPart(b) && IsPart(c) && IsPart(d) && w == Dotted(Dotted(Dotted(a, b), c), d)
  }

  function Dotted(u: string, p: string): string {
    u + "." + p
  }

  lemma {:induction false} PartLengthsOfDigits(w: string)
    requires AllDigits(w)
    ensures PartLengths(w) == [|w|]
  {
    if w != "" {
      PartLengthsOfDigits(w[..|w| - 1]);
    }
  }

  lemma {:induction false} PartLengthsDotted(u: string, p: string)
    requires AllDigits(p)
    ensures PartLengths(Dotted(u, p)) == PartLengths(u) + [|p|]
  {
    var w := Dotted(u, p);
    if p == "" {
      assert w[..|w| - 1] == u;
    } else {
      PartLengthsDotted(u, p[..|p| - 1]);
      assert w[..|w| - 1] == Dotted(u, p[..|p| - 1]);
    }
  }

  /** Cut at the last dot. */
  lemma {:induction false} CutAtLastDot(w: string) returns (u: string, p: string)
    requires IsNumeric(w) && |PartLengths(w)| > 1
    ensures w == Dotted(u, p) && IsNumeric(u) && AllDigits(p)
    ensures PartLengths(w) == PartLengths(u) + [|p|]
  {
    var v := w[..|w| - 1];
    var last := w[|w| - 1];
    assert w == v + [last];
    if last == '.' {
      u, p := v, "";
    } else {
      assert In(last, Numeric) && IsNumeric(v);
      var q;
      u, q := CutAtLastDot(v);
      p := q + [last];
    }
    PartLengthsDotted(u, p);
  }

  lemma {:induction false} OnePartIsDigits(w: string)
    requires IsNumeric(w)
    ensures |PartLengths(w)| == 1 <==> AllDigits(w)
  {
    if AllDigits(w) {
      PartLengthsOfDigits(w);
    } else if |PartLengths(w)| == 1 {
      OnePartIsDigits(w[..|w| - 1]);
    }
  }

  /** Counting parts and digits accepts exactly the dotted quads. */
  lemma AddressIsDottedQuad(w: string)
    requires IsNumeric(w)
    ensures IsAddress(w) <==> IsDottedQuad(w)
  {
    if IsDottedQuad(w) {
      var a, b, c, d :| IsPart(a) && IsPart(b) && IsPart(c) && IsPart(d) && w == Dotted(Dotted(Dotted(a, b), c), d);
      QuadIsAddress(a, b, c, d);
    }
    if IsAddress(w) {
      var u, d := CutAtLastDot(w);
      var v, c := CutAtLastDot(u);
      var a, b := CutAtLastDot(v);
      OnePartIsDigits(a);
      PartLengthsOfDigits(a);
      assert PartLengths(w) == [|a|, |b|, |c|, |d|];
      assert forall i :: 0 <= i < 4 ==> 1 <= PartLengths(w)[i] <= 3;
      assert PartLengths(w)[0] == |a| && PartLengths(w)[1] == |b| && PartLengths(w)[2] == |c| &&
          PartLengths(w)[3] == |d|;
    }
  }

  lemma QuadIsAddress(a: string, b: string, c: string, d: string)
    requires IsPart(a) && IsPart(b) && IsPart(c) && IsPart(d)
    ensures IsAddress(Dotted(Dotted(Dotted(a, b), c), d))
  {
    PartLengthsOfDigits(a);
    PartLengthsDotted(a, b);
    PartLengthsDotted(Dotted(a, b), c);
    PartLengthsDotted(Dotted(Dotted(a, b), c), d);
  }

  // ----- tokens -----

  datatype Token = End | Keyword(id: nat) | Identifier(name: string) | Integer(value: nat)

  datatype LexError = NumberEnd | BadAddress | IdentifierEnd | BadCharacter

  datatype Scan = Found(token: Token, rest: string) | Failed(error: LexError)

  /** The command a lexer is given ends in the separator. */
  predicate Terminated(s: string) {
    s != "" && s[|s| - 1] == ';'
  }

  lemma RunEndsInside(s: string, cls: CharClass)
    requires Terminated(s)
    ensures RunLength(s, cls) < |s|
  {
    assert !In(s[|s| - 1], cls);
  }

  /** What a word of digits and dots stands for. */
  function NumericToken(w: string): (t: Token)
    requires IsNumeric(w)
  {
    if AllDigits(w) then Integer(DigitsValue(w) % TWO_TO_64)
    else if IsAddress(w) then Identifier(w)
    else End
  }

  function NameToken(table: SymbolTable, w: string): Token
    requires table.Shaped()
  {
    if table.Lookup(w) == 0 then Identifier(w) else Keyword(table.Lookup(w))
  }

  /** The next token of a command and the text after it. */
  function LexOne(table: SymbolTable, s: string): (r: Scan)
    requires table.Shaped() && Terminated(s)
    ensures r.Found? && !r.token.End? ==> Terminated(r.rest) && |r.rest| < |s|
  {
    RunEndsInside(s, Blank);
    LexWord(table, s[RunLength(s, Blank)..])
  }

  /** Spaces, tabs and newlines in front of a token do not matter. */
  lemma {:induction false} BlanksAreSkipped(table: SymbolTable, blanks: string, s: string)
    requires table.Shaped() && Terminated(s)
    requires forall i :: 0 <= i < |blanks| ==> blanks[i] == ' ' || blanks[i] == '\t' || blanks[i] == '\n'
    ensures Terminated(blanks + s) && LexOne(table, blanks + s) == LexOne(table, s)
  {
    hide LexOne, LexWord, In, Terminated;
    if blanks == "" {
      assert blanks + s == s;
    } else {
      var rest := blanks[1..] + s;
      BlanksAreSkipped(table, blanks[1..], s);
      assert (blanks + s)[1..] == rest;
      BlankIsSkipped(table, blanks[0], rest);
      assert [blanks[0]] + rest == blanks + s;
    }
  }

  lemma BlankIsSkipped(table: SymbolTable, c: char, s: string)
    requires table.Shaped() && Terminated(s) && (c == ' ' || c == '\t' || c == '\n')
    ensures Terminated([c] + s) && LexOne(table, [c] + s) == LexOne(table, s)
  {
    hide LexWord;
    var n := RunLength(s, Blank);
    assert ([c] + s)[1..] == s;
    assert ([c] + s)[1 + n..] == s[n..];
  }

  function LexWord(table: SymbolTable, s: string): (r: Scan)
    requires table.Shaped() && Terminated(s) && !In(s[0], Blank)
    ensures r.Found? && !r.token.End? ==> Terminated(r.rest) && |r.rest| < |s|
  {
    if s[0] == ';' then Found(End, s[1..])
    else if IsDigit(s[0]) then LexNumber(s)
    else if IsAlpha(s[0]) then LexName(table, s)
    else if s[0] == '=' then
      if s[1] == ';' then Failed(IdentifierEnd) else Found(Keyword(EQUAL), s[1..])
    else Failed(BadCharacter)
  }

  function LexNumber(s: string): (r: Scan)
    requires Terminated(s) && IsDigit(s[0])
    ensures r.Found? ==> !r.token.End? && Terminated(r.rest) && |r.rest| < |s|
  {
    RunEndsInside(s, Numeric);
    var n := RunLength(s, Numeric);
    if !EndsSymbol(s[n]) then Failed(NumberEnd)
    else
      var token := NumericToken(s[..n]);
      if token.End? then Failed(BadAddress) else Found(token, s[n..])
  }

  function LexName(table: SymbolTable, s: string): (r: Scan)
    requires table.Shaped() && Terminated(s) && IsAlpha(s[0])
    ensures r.Found? ==> !r.token.End? && Terminated(r.rest) && |r.rest| < |s|
  {
    RunEndsInside(s, NameLike);
    var n := RunLength(s, NameLike);
    if !EndsSymbol(s[n]) then Failed(IdentifierEnd)
    else Found(NameToken(table, s[..n]), s[n..])
  }

  // ----- the lexer's loops -----

  method SkipBlanks(text: string, pos: nat) returns (start: nat)
    requires Terminated(text) && pos < |text|
    ensures pos <= start < |text|
    ensures start - pos == RunLength(text[pos..], Blank)
  {
    start := pos;
    while In(text[start], Blank)
      invariant pos <= start < |text|
      invariant forall i :: pos <= i < start ==> In(text[i], Blank)
      decreases |text| - start
    {
      start := start + 1;
    }
    RunLengthIs(text[pos..], Blank, start - pos);
  }

  method NameEnd(text: string, start: nat) returns (end: nat)
    requires Terminated(text) && start < |text| && IsAlpha(text[start])
    ensures start < end < |text|
    ensures end - start == RunLength(text[start..], NameLike)
  {
    end := start + 1;
    while In(text[end], NameLike)
      invariant start < end < |text|
      invariant forall i :: start <= i < end ==> In(text[i], NameLike)
      decreases |text| - end
    {
      end := end + 1;
    }
    RunLengthIs(text[start..], NameLike, end - start);
  }

  /** The smallest and largest of some part lengths, from the values the
      counters start with. */
  function Fewest(p: seq<nat>): nat {
    if p == [] then 4 else var m := Fewest(p[..|p| - 1]); if p[|p| - 1] < m then p[|p| - 1] else m
  }

  function Most(p: seq<nat>): nat {
    if p == [] then 1 else var m := Most(p[..|p| - 1]); if p[|p| - 1] > m then p[|p| - 1] else m
  }

  lemma {:induction false} CountersDecide(p: seq<nat>)
    ensures Fewest(p) >= 1 && Most(p) <= 3 <==> PartsFit(p)
  {
    if p != [] {
      var q := p[..|p| - 1];
      CountersDecide(q);
      assert p == q + [p[|p| - 1]];
    }
  }

  /** The digit loop: where a number ends, its dots, and the shortest and
      longest run of digits in it. */
  method NumberEndAndParts(text: string, start: nat) returns (end: nat, dots: nat, fewest: nat, most: nat)
    requires Terminated(text) && start < |text| && IsDigit(text[start])
    ensures start < end < |text|
    ensures end - start == RunLength(text[start..], Numeric)
    ensures var p := PartLengths(text[start..end]); dots == |p| - 1 && fewest == Fewest(p) && most == Most(p)
  {
    dots, fewest, most := 0, 4, 1;
    var count: nat := 1;
    end := start + 1;
    ghost var w := [text[start]];
    PartLengthsOfDigits(w);
    assert Fewest([]) == 4 && Most([]) == 1;
    ghost var done: seq<nat> := [];
    hide *;
    assert IsNumeric(w) by { NumericSnoc("", text[start]); }
    while true
      invariant start < end < |text|
      invariant w == text[start..end] && IsNumeric(w)
      invariant PartLengths(w) == done + [count]
      invariant dots == |done| && fewest == Fewest(done) && most == Most(done)
      decreases |text| - end
    {
      var c := text[end];
      NumericSnoc(w, c);
      PartLengthsSnoc(w, done, count, c);
      if c == '.' || !IsDigit(c) {
        fewest, most := CountPart(done, count, fewest, most);
        if c != '.' {
          break;
        }
        done, dots, count := done + [count], dots + 1, 0;
      } else {
        count := count + 1;
      }
      SliceSnoc(text, start, end);
      w := w + [c];
      end := end + 1;
      EndsInside(text, end, c);
    }
    NumberRun(text, start, end);
  }

  lemma SliceSnoc(text: string, start: nat, end: nat)
    requires start <= end < |text|
    ensures text[start..end + 1] == text[start..end] + [text[end]]
  {
  }

  lemma EndsInside(text: string, end: nat, c: char)
    requires Terminated(text) && 0 < end <= |text| && c == text[end - 1] && In(c, Numeric)
    ensures end < |text|
  {
  }

  lemma NumericSnoc(w: string, c: char)
    ensures IsNumeric("") && (IsNumeric(w + [c]) <==> IsNumeric(w) && In(c, Numeric))
    ensures In(c, Numeric) <==> c == '.' || IsDigit(c)
  {
    if IsNumeric(w + [c]) {
      assert forall i :: 0 <= i < |w| ==> w[i] == (w + [c])[i];
      assert In((w + [c])[|w|], Numeric);
    }
  }

  lemma NumberRun(text: string, start: nat, end: nat)
    requires start <= end < |text| && IsNumeric(text[start..end]) && !In(text[end], Numeric)
    ensures end - start == RunLength(text[start..], Numeric)
  {
    assert forall i :: 0 <= i < end - start ==> text[start..][i] == text[start..end][i];
    RunLengthIs(text[start..], Numeric, end - start);
  }

  method CountPart(ghost done: seq<nat>, count: nat, f: nat, m: nat) returns (fewest: nat, most: nat)
    requires f == Fewest(done) && m == Most(done)
    ensures fewest == Fewest(done + [count]) && most == Most(done + [count])
  {
    CountersSnoc(done, count);
    fewest, most := f, m;
    if count > most {
      most := count;
    }
    if count < fewest {
      fewest := count;
    }
  }

  lemma PartLengthsSnoc(w: string, done: seq<nat>, count: nat, c: char)
    requires PartLengths(w) == done + [count]
    ensures PartLengths(w + [c]) == if c == '.' then done + [count] + [0] else done + [count + 1]
  {
    assert (w + [c])[..|w|] == w;
  }

  lemma CountersSnoc(done: seq<nat>, count: nat)
    ensures Fewest(done + [count]) == if count < Fewest(done) then count else Fewest(done)
    ensures Most(done + [count]) == if count > Most(done) then count else Most(done)
  {
    assert (done + [count])[..|done|] == done;
  }

  /** ic_conv_config_str_to_int on digits: 64-bit arithmetic that wraps. */
  method FoundNum(w: string) returns (value: nat)
    requires AllDigits(w)
    ensures value == DigitsValue(w) % TWO_TO_64
  {
    value := 0;
    hide Wrapped;
    for i: nat := 0 to |w|
      invariant value == DigitsValue(w[..i]) % TWO_TO_64
    {
      assert w[..i + 1][..i] == w[..i];
      var digit: nat := w[i] as int - '0' as int;
      WrapStep(DigitsValue(w[..i]), digit);
      assert DigitsValue(w[..i + 1]) == DigitsValue(w[..i]) * 10 + digit;
      value := Wrapped(value, digit);
    }
    assert w[..|w|] == w;
  }

  /** One step of a decimal conversion in 64 bits. */
  function Wrapped(value: nat, digit: nat): nat {
    (value * 10 + digit) % TWO_TO_64
  }

  lemma WrapStep(v: nat, digit: nat)
    ensures Wrapped(v % TWO_TO_64, digit) == (v * 10 + digit) % TWO_TO_64
  {
    WrapAny(v, digit, TWO_TO_64);
  }

  lemma WrapAny(v: nat, digit: nat, m: nat)
    requires m > 0
    ensures (v % m * 10 + digit) % m == (v * 10 + digit) % m
  {
    var low := v % m * 10 + digit;
    assert v == m * (v / m) + v % m;
    assert v * 10 + digit == m * (10 * (v / m)) + low;
    AddMultiple(low, 10 * (v / m), m);
  }

  /** The token of a number word, from its end and its parts. */
  lemma NumberIsLexed(table: SymbolTable, text: string, start: nat, end: nat)
    requires table.Shaped() && Terminated(text)
    requires start < end < |text| && IsDigit(text[start]) && end - start == RunLength(text[start..], Numeric)
    ensures AllDigits(text[start..end]) <==> |PartLengths(text[start..end])| == 1
    ensures LexWord(table, text[start..]) ==
              if !EndsSymbol(text[end]) then Failed(NumberEnd)
              else if AllDigits(text[start..end]) then
                Found(Integer(DigitsValue(text[start..end]) % TWO_TO_64), text[end..])
              else if IsAddress(text[start..end]) then Found(Identifier(text[start..end]), text[end..])
              else Failed(BadAddress)
  {
    var s, w := text[start..], text[start..end];
    var n := end - start;
    assert s[..n] == w && s[n..] == text[end..] && s[n] == text[end];
    assert forall i :: 0 <= i < |w| ==> w[i] == s[i];
    OnePartIsDigits(w);
  }

  lemma SkippedTo(table: SymbolTable, text: string, pos: nat, start: nat)
    requires table.Shaped() && Terminated(text) && pos <= start < |text|
    requires start - pos == RunLength(text[pos..], Blank)
    ensures Terminated(text[start..]) && !In(text[start], Blank)
    ensures LexOne(table, text[pos..]) == LexWord(table, text[start..])
  {
    assert text[pos..][start - pos..] == text[start..];
    hide LexWord;
  }

  /** What is read where no number and no name starts. */
  lemma WordKinds(table: SymbolTable, text: string, start: nat)
    requires table.Shaped() && Terminated(text) && start < |text| && !In(text[start], Blank)
    ensures text[start] == '=' ==> start + 1 < |text|
    ensures var c, r := text[start], LexWord(table, text[start..]);
            && (c == ';' ==> r == Found(End, text[start + 1..]))
            && (c == '=' && text[start + 1] == ';' ==> r == Failed(IdentifierEnd))
            && (c == '=' && text[start + 1] != ';' ==> r == Found(Keyword(EQUAL), text[start + 1..]))
            && (c != ';' && c != '=' && !IsDigit(c) && !IsAlpha(c) ==> r == Failed(BadCharacter))
  {
    var s := text[start..];
    assert s[1..] == text[start + 1..];
    assert s[0] == '=' ==> |s| > 1 && s[1] == text[start + 1];
    hide LexNumber, LexName;
  }

  // ----- the lexer's state -----

  /** The buffer in which ic_found_identifier makes a word upper case. */
  const SYMBOL_BUF_SIZE: nat := 1024

  /** A word at the front that is looked up has room in that buffer. */
  ghost predicate NameFits(s: string) {
    var n := RunLength(s, NameLike);
    n < |s| && EndsSymbol(s[n]) ==> n <= SYMBOL_BUF_SIZE
  }

  ghost predicate NextNameFits(s: string) {
    var n := RunLength(s, Blank);
    n < |s| && IsAlpha(s[n]) ==> NameFits(s[n..])
  }

  lemma NextNameAt(text: string, pos: nat, start: nat)
    requires pos <= start < |text| && start - pos == RunLength(text[pos..], Blank) && NextNameFits(text[pos..])
    ensures IsAlpha(text[start]) ==> NameFits(text[start..])
  {
    assert text[pos..][start - pos..] == text[start..];
    hide NameFits, RunLength;
  }

  /** The parts of IC_LEX_DATA that ic_boot_lex works on, with the flag that
      ic_boot_parse_error raises. */
  class Lexer {
    const table: SymbolTable
    const text: string
    var pos: nat
    var breakFlag: bool

    constructor (table: SymbolTable, text: string)
      requires table.Shaped() && Terminated(text)
      ensures this.table == table && this.text == text && pos == 0 && !breakFlag && Valid()
    {
      this.table, this.text, pos, breakFlag := table, text, 0, false;
    }

    ghost predicate Valid()
      reads this
    {
      table.Shaped() && Terminated(text) && pos <= |text|
    }

    /** ic_boot_lex: the next token; on a lexical error the end of input is
        reported, the flag raised and the position kept. */
    method Next() returns (token: Token)
      requires Valid() && pos < |text| && NextNameFits(text[pos..])
      modifies this
      ensures Valid()
      ensures var r := LexOne(table, old(text[pos..]));
              if r.Found? then token == r.token && text[pos..] == r.rest && breakFlag == old(breakFlag)
              else token == End && breakFlag && pos == old(pos)
    {
      var start := SkipBlanks(text, pos);
      SkippedTo(table, text, pos, start);
      WordKinds(table, text, start);
      NextNameAt(text, pos, start);
      hide LexOne, LexWord, RunLength, In, NameFits, NextNameFits;
      var c := text[start];
      if c == ';' {
        pos := start + 1;
        token := End;
      } else if IsDigit(c) {
        token := NextNumber(start);
      } else if IsAlpha(c) {
        token := NextName(start);
      } else if c == '=' {
        if text[start + 1] == ';' {
          breakFlag := true;
          token := End;
        } else {
          pos := start + 1;
          token := Keyword(EQUAL);
        }
      } else {
        breakFlag := true;
        token := End;
      }
    }

    ghost predicate Lexed(start: nat, token: Token, oldPos: nat, oldFlag: bool)
      requires Valid() && start < |text| && !In(text[start], Blank)
      reads this
    {
      var r := LexWord(table, text[start..]);
      if r.Found? then token == r.token && text[pos..] == r.rest && breakFlag == oldFlag
      else token == End && breakFlag && pos == oldPos
    }

    method NextNumber(start: nat) returns (token: Token)
      requires Valid() && start < |text| && IsDigit(text[start])
      modifies this
      ensures Valid() && Lexed(start, token, old(pos), old(breakFlag))
    {
      var end, dots, fewest, most := NumberEndAndParts(text, start);
      var w := text[start..end];
      NumberIsLexed(table, text, start, end);
      CountersDecide(PartLengths(w));
      hide LexWord, PartLengths, AllDigits, PartsFit, RunLength, EndsSymbol;
      if !EndsSymbol(text[end]) || (dots > 0 && (dots != 3 || fewest < 1 || most > 3)) {
        breakFlag := true;
        token := End;
      } else if dots > 0 {
        token := Identifier(w);
        pos := end;
      } else {
        var value := FoundNum(w);
        token := Integer(value);
        pos := end;
      }
    }

    method NextName(start: nat) returns (token: Token)
      requires Valid() && start < |text| && IsAlpha(text[start]) && NameFits(text[start..])
      modifies this
      ensures Valid() && Lexed(start, token, old(pos), old(breakFlag))
    {
      var end := NameEnd(text, start);
      var w := text[start..end];
      ghost var n := RunLength(text[start..], NameLike);
      assert text[start..][..n] == w && text[start..][n..] == text[end..];
      if !EndsSymbol(text[end]) {
        breakFlag := true;
        token := End;
      } else {
        assert |w| <= SYMBOL_BUF_SIZE;
        var id := table.Lookup(w);
        token := if id == 0 then Identifier(w) else Keyword(id);
        pos := end;
      }
    }
  }

  // ----- all tokens of a command -----

  datatype Tokens = Good(tokens: seq<Token>) | Bad(before: seq<Token>, error: LexError)

  /** The tokens up to the end of the command. */
  function LexAll(table: SymbolTable, s: string): Tokens
    requires table.Shaped() && Terminated(s)
    decreases |s|
  {
    var r := LexOne(table, s);
    if r.Failed? then Bad([], r.error)
    else if r.token.End? then Good([])
    else
      match LexAll(table, r.rest)
      case Good(tokens) => Good([r.token] + tokens)
      case Bad(before, error) => Bad([r.token] + before, error)
  }
}
