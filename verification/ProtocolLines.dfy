/** The protocol lines built on ic_rec_with_cr and ic_send_with_cr: fixed
    strings, `prefix number` and `prefix string` lines, required or optional. */
module ProtocolLines {
  import opened Basics
  import opened Framing
  import opened ByteStream
  import opened Connections
  import opened Decimals

  const SPACE: char := ' '
  const MAX_UINT32: nat := 0xFFFF_FFFF

  // ----- reading one line -----

  predicate IsSpace(c: char) {
    c == ' ' || 9 <= c as int <= 13
  }

  /** g_ascii_strtoull restricted to text it consumes completely: white space,
      a sign, digits; too large a number saturates, a minus sign wraps. */
  function ParseUnsigned(s: string): Option<nat> {
    if s == "" then None
    else if IsSpace(s[0]) then ParseUnsigned(s[1..])
    else
      var negative := s[0] == '-';
      var digits := if negative || s[0] == '+' then s[1..] else s;
      if digits == "" || !AllDigits(digits) then None
      else
        var v := DigitsValue(digits);
        if v >= TWO_TO_64 then Some(TWO_TO_64 - 1)
        else if negative && v != 0 then Some(TWO_TO_64 - v)
        else Some(v)
  }

  /** ic_convert_str_to_int_fixed_size: zero must be spelled "0". */
  function ConvertNumber(s: string): Option<nat> {
    var v := ParseUnsigned(s);
    if v.Some? && (v.value != 0 || s == "0") then v else None
  }

  /** What follows `prefix` and one optional space, if the line starts so and is longer. */
  function AfterPrefix(line: string, prefix: string): Option<string> {
    if |line| < |prefix| + 1 || !(prefix <= line) then None
    else if line[|prefix|] == SPACE then Some(line[|prefix| + 1..])
    else Some(line[|prefix|..])
  }

  /** ic_check_buf_with_int. */
  function CheckNumber(line: string, prefix: string): Option<nat> {
    var rest := AfterPrefix(line, prefix);
    if rest.None? then None else ConvertNumber(rest.value)
  }

  /** The lines of this form: the prefix, a space and any text, or the prefix and
      directly behind it a text that is not empty and starts with no space. */
  predicate IsPrefixed(line: string, prefix: string, text: string) {
    line == prefix + [SPACE] + text || (text != "" && text[0] != SPACE && line == prefix + text)
  }

  /** A text is taken from exactly those lines. */
  lemma AfterPrefixIff(line: string, prefix: string, text: string)
    ensures AfterPrefix(line, prefix) == Some(text) <==> IsPrefixed(line, prefix, text)
    ensures AfterPrefix(line, prefix).Some? <==> prefix < line
  {
    if prefix <= line && |line| > |prefix| {
      assert line == prefix + line[|prefix|..];
      if line[|prefix|] == SPACE {
        assert line == prefix + [SPACE] + line[|prefix| + 1..];
      }
    }
    if line == prefix + [SPACE] + text {
      assert line[|prefix| + 1..] == text;
    } else if line == prefix + text {
      assert line[|prefix|..] == text;
    }
  }

  predicate AllSpaces(s: string) {
    forall i :: 0 <= i < |s| ==> IsSpace(s[i])
  }

  /** Blanks, at most one sign, and digits. */
  predicate IsNumberText(s: string, blanks: string, sign: string, digits: string) {
    && s == blanks + sign + digits && AllSpaces(blanks) && (sign == "" || sign == "+" || sign == "-")
    && digits != "" && AllDigits(digits)
  }

  /** The 64-bit number of a sign and digits: too large a number saturates, a
      negative one is reduced modulo 2^64. */
  function NumberOf(sign: string, digits: string): nat
    requires AllDigits(digits)
  {
    var v := DigitsValue(digits);
    if v >= TWO_TO_64 then TWO_TO_64 - 1 else if sign == "-" then (TWO_TO_64 - v) % TWO_TO_64 else v
  }

  lemma {:induction false} NumberTextIsParsed(s: string, blanks: string, sign: string, digits: string)
    requires IsNumberText(s, blanks, sign, digits)
    ensures ParseUnsigned(s) == Some(NumberOf(sign, digits))
  {
    if blanks == "" {
      assert s == sign + digits;
      assert sign != "" ==> s[1..] == digits && s[0] == sign[0];
      assert sign == "" ==> s == digits && IsDigit(s[0]);
    } else {
      assert s[0] == blanks[0] && s[1..] == blanks[1..] + sign + digits;
      NumberTextIsParsed(s[1..], blanks[1..], sign, digits);
    }
  }

  lemma {:induction false} ParsedIsNumberText(s: string) returns (blanks: string, sign: string, digits: string)
    requires ParseUnsigned(s).Some?
    ensures IsNumberText(s, blanks, sign, digits)
  {
    if IsSpace(s[0]) {
      blanks, sign, digits := ParsedIsNumberText(s[1..]);
      blanks := [s[0]] + blanks;
    } else {
      var signed := s[0] == '-' || s[0] == '+';
      blanks, sign, digits := "", if signed then [s[0]] else "", if signed then s[1..] else s;
    }
  }

  /** A line is recognised as a number exactly when it is the prefix and such a
      text, and zero is spelled "0" alone. */
  lemma NumberLineIff(line: string, prefix: string, n: nat)
    ensures CheckNumber(line, prefix) == Some(n) <==>
              exists text, blanks, sign, digits ::
                && IsPrefixed(line, prefix, text) && IsNumberText(text, blanks, sign, digits)
                && n == NumberOf(sign, digits) && (n != 0 || text == "0")
  {
    if CheckNumber(line, prefix) == Some(n) {
      var text := AfterPrefix(line, prefix).value;
      AfterPrefixIff(line, prefix, text);
      var blanks, sign, digits := ParsedIsNumberText(text);
      NumberTextIsParsed(text, blanks, sign, digits);
      hide IsPrefixed, IsNumberText, NumberOf, ParseUnsigned, AfterPrefix;
    }
    if text, blanks, sign, digits :|
      && IsPrefixed(line, prefix, text) && IsNumberText(text, blanks, sign, digits)
      && n == NumberOf(sign, digits) && (n != 0 || text == "0")
    {
      AfterPrefixIff(line, prefix, text);
      NumberTextIsParsed(text, blanks, sign, digits);
      hide IsPrefixed, IsNumberText, NumberOf, ParseUnsigned, AfterPrefix;
    }
  }

  /** A line with another prefix is neither number nor text. */
  lemma OtherPrefix(line: string, prefix: string)
    requires !(prefix < line)
    ensures AfterPrefix(line, prefix) == None && CheckNumber(line, prefix) == None
  {
    AfterPrefixIff(line, prefix, "");
  }

  // ----- operations on a connection -----

  /** A receive that put its line back: the line is unread again. */
  ghost predicate PutBack(conn: Connection, o: RecOutcome)
    requires conn.Valid() && o.Line?
    reads conn, conn.readBuf
  {
    conn.incoming == o.net && conn.Unread() == o.line + [CR] + o.rest
  }

  /** A receive that used up its line. */
  ghost predicate Consumed(conn: Connection, o: RecOutcome)
    requires conn.Valid() && o.Line?
    reads conn, conn.readBuf
  {
    conn.incoming == o.net && conn.Unread() == o.rest
  }

  /** ic_rec_simple_str_impl: a line that is not the expected one is put back
      whether or not it was optional. */
  method RecSimpleStr(conn: Connection, str: string, optional: bool) returns (code: int, found: bool)
    requires conn.Valid()
    modifies conn`incoming, conn`sizeCurrReadBuf, conn`readBufPos, conn.readBuf
    ensures conn.Valid()
    ensures var o := ReceiveLine(conn.readBuf.Length, old(conn.Unread()), old(conn.incoming));
            && (o.NoLine? ==> code == o.code && !found)
            && (o.Line? && o.line == str ==> code == 0 && found && Consumed(conn, o))
            && (o.Line? && o.line != str ==>
                  !found && PutBack(conn, o) && code == if optional then 0 else PROTOCOL_ERROR)
  {
    hide ReceiveLine;
    var ret, readSize, readCount := conn.RecWithCr();
    if ret != 0 {
      return ret, false;
    }
    ghost var line := conn.readBuf[..readSize];
    if conn.readBuf[..readSize] != str {
      conn.StepBack(readSize);
      assert conn.readBuf[0..readSize + 1] == line + [CR];
      return if optional then 0 else PROTOCOL_ERROR, false;
    }
    return 0, true;
  }

  /** ic_rec_number_impl: a line of another form is put back only when the
      number is optional; a number that is too large is used up and refused. */
  method RecNumber(conn: Connection, str: string, optional: bool) returns (code: int, id: Option<nat>)
    requires conn.Valid()
    modifies conn`incoming, conn`sizeCurrReadBuf, conn`readBufPos, conn.readBuf
    ensures conn.Valid()
    ensures var o := ReceiveLine(conn.readBuf.Length, old(conn.Unread()), old(conn.incoming));
            if o.NoLine? then code == o.code && id == None
            else
              var n := CheckNumber(o.line, str);
              if n.Some? then
                && Consumed(conn, o)
                && (if n.value >= MAX_UINT32 then code == PROTOCOL_ERROR && id == None else code == 0 && id == n)
              else
                && id == None
                && (if optional then code == 0 && PutBack(conn, o) else code == PROTOCOL_ERROR && Consumed(conn, o))
    ensures var o := ReceiveLine(conn.readBuf.Length, old(conn.Unread()), old(conn.incoming));
            o.Line? && !(str < o.line) ==>
              && id == None
              && (if optional then code == 0 && PutBack(conn, o) else code == PROTOCOL_ERROR && Consumed(conn, o))
  {
    hide ReceiveLine;
    var ret, readSize, readCount := conn.RecWithCr();
    if ret != 0 {
      return ret, None;
    }
    ghost var line := conn.readBuf[..readSize];
    if !(str < line) {
      OtherPrefix(line, str);
    }
    var n := CheckNumber(conn.readBuf[..readSize], str);
    if n.Some? {
      if n.value >= MAX_UINT32 {
        return PROTOCOL_ERROR, None;
      }
      return 0, n;
    }
    if !optional {
      return PROTOCOL_ERROR, None;
    }
    conn.StepBack(readSize);
    assert conn.readBuf[0..readSize + 1] == line + [CR];
    return 0, None;
  }

  /** ic_rec_string. */
  method RecString(conn: Connection, prefix: string) returns (code: int, text: Option<string>)
    requires conn.Valid()
    modifies conn`incoming, conn`sizeCurrReadBuf, conn`readBufPos, conn.readBuf
    ensures conn.Valid()
    ensures var o := ReceiveLine(conn.readBuf.Length, old(conn.Unread()), old(conn.incoming));
            if o.NoLine? then code == o.code && text == None
            else
              && Consumed(conn, o)
              && text == AfterPrefix(o.line, prefix)
              && (if text.Some? then IsPrefixed(o.line, prefix, text.value) else !(prefix < o.line))
              && code == if text.Some? then 0 else PROTOCOL_ERROR
  {
    hide ReceiveLine;
    var ret, readSize, readCount := conn.RecWithCr();
    if ret != 0 {
      return ret, None;
    }
    text := AfterPrefix(conn.readBuf[..readSize], prefix);
    AfterPrefixIff(conn.readBuf[..readSize], prefix, if text.Some? then text.value else "");
    code := if text.Some? then 0 else PROTOCOL_ERROR;
  }

  /** ic_mc_rec_opt_string: only the empty line is put back. */
  method RecOptString(conn: Connection, prefix: string) returns (code: int, text: Option<string>)
    requires conn.Valid() && prefix != ""
    modifies conn`incoming, conn`sizeCurrReadBuf, conn`readBufPos, conn.readBuf
    ensures conn.Valid()
    ensures var o := ReceiveLine(conn.readBuf.Length, old(conn.Unread()), old(conn.incoming));
            if o.NoLine? then code == o.code && text == None
            else if o.line == "" then code == 0 && text == None && PutBack(conn, o)
            else
              && Consumed(conn, o)
              && text == AfterPrefix(o.line, prefix)
              && (if text.Some? then IsPrefixed(o.line, prefix, text.value) else !(prefix < o.line))
              && code == if text.Some? then 0 else PROTOCOL_ERROR
  {
    hide ReceiveLine;
    var ret, readSize, readCount := conn.RecWithCr();
    if ret != 0 {
      return ret, None;
    }
    if readSize == 0 {
      conn.StepBack(0);
      assert conn.readBuf[0..1] == [CR];
      return 0, None;
    }
    text := AfterPrefix(conn.readBuf[..readSize], prefix);
    AfterPrefixIff(conn.readBuf[..readSize], prefix, if text.Some? then text.value else "");
    code := if text.Some? then 0 else PROTOCOL_ERROR;
  }

  // ----- trying alternatives in turn -----

  datatype Alternative = Fixed(str: string) | Number(prefix: string) {
    predicate Recognises(line: string) {
      match this
      case Fixed(str) => line == str
      case Number(prefix) => CheckNumber(line, prefix).Some?
    }

    /** The result for a line it recognises: a number may be too large. */
    function CodeFor(line: string): int
      requires Recognises(line)
    {
      if Number? && CheckNumber(line, prefix).value >= MAX_UINT32 then PROTOCOL_ERROR else 0
    }
  }

  /** One optional receive, as RecSimpleStr and RecNumber do it. */
  datatype Attempt = Attempt(code: int, matched: bool, unread: string, net: seq<RecvEvent>)

  function TryOne(size: nat, unread: string, net: seq<RecvEvent>, alt: Alternative): Attempt
    requires |unread| <= size
  {
    var o := ReceiveLine(size, unread, net);
    if o.NoLine? then Attempt(o.code, false, o.seen, o.net)
    else if alt.Recognises(o.line) then
      Attempt(alt.CodeFor(o.line), true, o.rest, o.net)
    else Attempt(0, false, o.line + [CR] + o.rest, o.net)
  }

  /** Try the alternatives in order until one matches or a receive fails;
      `which` is the position of the one that matched. */
  function TryInTurn(size: nat, unread: string, net: seq<RecvEvent>, alts: seq<Alternative>): (r: (Attempt, nat))
    requires |unread| <= size && alts != []
    decreases |alts|
  {
    ReceiveConserves(size, unread, net);
    var a := TryOne(size, unread, net, alts[0]);
    if a.code != 0 || a.matched || |alts| == 1 then (a, 0)
    else
      var (b, k) := TryInTurn(size, a.unread, a.net, alts[1..]);
      (b, k + 1)
  }

  /** The first alternative that recognises the line, or the number of them. */
  function FirstRecognising(alts: seq<Alternative>, line: string): (k: nat)
    ensures k <= |alts|
    ensures k < |alts| ==> alts[k].Recognises(line)
    ensures forall i :: 0 <= i < k ==> !alts[i].Recognises(line)
  {
    if alts == [] || alts[0].Recognises(line) then 0
    else
      var k := 1 + FirstRecognising(alts[1..], line);
      assert forall i :: 1 <= i < k ==> alts[i] == alts[1..][i - 1];
      k
  }

  /** Putting a line back makes it the next line again, without any read. */
  lemma PutBackIsReread(size: nat, unread: string, net: seq<RecvEvent>)
    requires |unread| <= size
    ensures var o := ReceiveLine(size, unread, net);
            o.Line? ==>
              && |o.line + [CR] + o.rest| <= size
              && ReceiveLine(size, o.line + [CR] + o.rest, o.net) == Line(o.line, o.rest, o.net, 0)
  {
    ReceiveConserves(size, unread, net);
    var o := ReceiveLine(size, unread, net);
    if o.Line? {
      FirstCRUnique(o.line, o.rest);
      var s := o.line + [CR] + o.rest;
      assert s[..|o.line|] == o.line && s[|o.line| + 1..] == o.rest;
    }
  }

  /** Trying alternatives in turn is a choice on the next line: exactly the
      first alternative that recognises it takes it, one line is used up, and
      if none does the unread stream is as before. */
  lemma {:induction false} AlternativesAreAChoice(size: nat, unread: string, net: seq<RecvEvent>,
                                                  alts: seq<Alternative>)
    requires |unread| <= size && alts != []
    requires ReceiveLine(size, unread, net).Line?
    ensures var o := ReceiveLine(size, unread, net);
            var (a, which) := TryInTurn(size, unread, net, alts);
            var k := FirstRecognising(alts, o.line);
            && a.net == o.net
            && (k < |alts| ==> a.matched && which == k && a.unread == o.rest && a.code == alts[k].CodeFor(o.line))
            && (k == |alts| ==> !a.matched && a.code == 0 && a.unread == o.line + [CR] + o.rest)
    decreases |alts|
  {
    var o := ReceiveLine(size, unread, net);
    if !alts[0].Recognises(o.line) && |alts| > 1 {
      PutBackIsReread(size, unread, net);
      AlternativesAreAChoice(size, o.line + [CR] + o.rest, o.net, alts[1..]);
    }
  }

  /** Alternatives that do not match leave every byte of the stream unread. */
  lemma MismatchesKeepTheStream(size: nat, unread: string, net: seq<RecvEvent>, alts: seq<Alternative>)
    requires |unread| <= size && alts != []
    requires ReceiveLine(size, unread, net).Line?
    requires forall i :: 0 <= i < |alts| ==> !alts[i].Recognises(ReceiveLine(size, unread, net).line)
    ensures var a := TryInTurn(size, unread, net, alts).0;
            a.unread + Stream(a.net) == unread + Stream(net)
  {
    hide ReceiveLine, TryInTurn, Stream;
    AlternativesAreAChoice(size, unread, net, alts);
    ReceiveConserves(size, unread, net);
    var o := ReceiveLine(size, unread, net);
    assert (o.line + [CR] + o.rest) + Stream(o.net) == (o.line + [CR]) + (o.rest + Stream(o.net));
  }

  /** One optional receive on a connection. A number that is too large uses up
      its line and gives an error. */
  method TryAlternative(conn: Connection, alt: Alternative, ghost unread: string, ghost net: seq<RecvEvent>)
      returns (code: int, matched: bool)
    requires conn.Valid() && unread == conn.Unread() && net == conn.incoming
    modifies conn`incoming, conn`sizeCurrReadBuf, conn`readBufPos, conn.readBuf
    ensures conn.Valid()
    ensures var a := TryOne(conn.readBuf.Length, unread, net, alt);
            && code == a.code && (matched <==> a.matched && a.code == 0)
            && (ReceiveLine(conn.readBuf.Length, unread, net).Line? ==>
                conn.Unread() == a.unread && conn.incoming == a.net)
  {
    hide ReceiveLine, Stream, CheckNumber;
    match alt {
      case Fixed(str) =>
        code, matched := RecSimpleStr(conn, str, true);
      case Number(prefix) =>
        var id;
        code, id := RecNumber(conn, prefix, true);
        matched := id.Some?;
    }
  }

  /** Try alternatives on a connection until one matches or a receive fails. */
  method TryAlternatives(conn: Connection, alts: seq<Alternative>) returns (code: int, matched: bool, which: nat)
    requires conn.Valid() && alts != []
    modifies conn`incoming, conn`sizeCurrReadBuf, conn`readBufPos, conn.readBuf
    ensures conn.Valid()
    ensures var (a, k) := TryInTurn(conn.readBuf.Length, old(conn.Unread()), old(conn.incoming), alts);
            && code == a.code && which == k && (matched <==> a.matched && a.code == 0)
            && (ReceiveLine(conn.readBuf.Length, old(conn.Unread()), old(conn.incoming)).Line? ==>
                  conn.Unread() == a.unread && conn.incoming == a.net)
    decreases |alts|
  {
    ghost var unread, net := conn.Unread(), conn.incoming;
    TryInTurnStep(conn.readBuf.Length, unread, net, alts);
    hide *;
    code, matched := TryAlternative(conn, alts[0], unread, net);
    which := 0;
    if code == 0 && !matched && |alts| > 1 {
      var k;
      code, matched, k := TryAlternatives(conn, alts[1..]);
      which := k + 1;
    }
  }

  lemma TryInTurnStep(size: nat, unread: string, net: seq<RecvEvent>, alts: seq<Alternative>)
    requires |unread| <= size && alts != []
    ensures var o := ReceiveLine(size, unread, net);
            var a := TryOne(size, unread, net, alts[0]);
            && (a.code == 0 ==> o.Line?)
            && (if a.code != 0 || a.matched || |alts| == 1 then TryInTurn(size, unread, net, alts) == (a, 0)
                else
                  && |a.unread| <= size && ReceiveLine(size, a.unread, a.net).Line?
                  && var r := TryInTurn(size, a.unread, a.net, alts[1..]);
                     TryInTurn(size, unread, net, alts) == (r.0, r.1 + 1))
  {
    hide ReceiveLine, TryOne, Conserves, Stream, IsLine;
    OneAttempt(size, unread, net, alts[0]);
    var a := TryOne(size, unread, net, alts[0]);
    if a.code == 0 && !a.matched && |alts| > 1 {
      var r := TryInTurn(size, a.unread, a.net, alts[1..]);
      assert TryInTurn(size, unread, net, alts) == (r.0, r.1 + 1);
    }
  }

  lemma OneAttempt(size: nat, unread: string, net: seq<RecvEvent>, alt: Alternative)
    requires |unread| <= size
    ensures var o := ReceiveLine(size, unread, net);
            var a := TryOne(size, unread, net, alt);
            && (a.code == 0 ==> o.Line?)
            && (a.code == 0 && !a.matched ==> |a.unread| <= size && ReceiveLine(size, a.unread, a.net).Line?)
  {
    PutBackIsReread(size, unread, net);
    hide ReceiveLine, Stream, CheckNumber, Alternative.Recognises, Alternative.CodeFor, FirstCR;
  }

  // ----- writing lines -----

  function Joined(parts: seq<string>): string
    requires parts != []
  {
    if |parts| == 1 then parts[0] else parts[0] + [SPACE] + Joined(parts[1..])
  }

  /** ic_send_with_cr_composed fills a local buffer of COMMAND_READ_BUF_SIZE
      bytes; the caller must pass at least one string and text that fits. */
  method SendComposed(conn: Connection, parts: seq<string>) returns (code: int)
    requires conn.Valid() && parts != []
    requires |Joined(parts)| + 1 <= 2048 && |Joined(parts)| + 1 < conn.writeBuf.Length
    modifies conn`outgoing, conn`accepted, conn`writeBufPos, conn.writeBuf
    ensures conn.Valid()
    ensures SendState(conn.Pending(), conn.accepted, code, conn.outgoing)
         == SendLine(conn.writeBuf.Length, old(conn.Pending()), old(conn.accepted), old(conn.outgoing), Joined(parts))
  {
    var local := "";
    for i := 0 to |parts|
      invariant i < |parts| ==> local + Joined(parts[i..]) == Joined(parts)
      invariant i == |parts| ==> local == Joined(parts) + [SPACE]
    {
      assert parts[i..][1..] == parts[i + 1..];
      local := local + parts[i] + [SPACE];
    }
    code := conn.SendWithCr(local[..|local| - 1]);
  }

  /** The line of ic_send_with_cr_with_number: a 128-byte buffer keeps 127 characters. */
  function NumberLine(prefix: string, n: nat): string {
    var s := prefix + [SPACE] + Decimal(n);
    if |s| <= 127 then s else s[..127]
  }

  /** A two-string line is read back as its second string. */
  lemma StringLineReadsBack(prefix: string, text: string)
    ensures AfterPrefix(Joined([prefix, text]), prefix) == Some(text)
  {
    var line := prefix + [SPACE] + text;
    assert Joined([text]) == text;
    assert [prefix, text][1..] == [text];
    assert line[|prefix| + 1..] == text;
  }

  /** A number line is read back as its number exactly when it fits the
      128-byte buffer: cut digits give a smaller number, cut prefixes none. */
  lemma NumberLineReadsBack(prefix: string, n: nat)
    requires n < TWO_TO_64
    ensures CheckNumber(NumberLine(prefix, n), prefix) == Some(n) <==> |prefix| + 1 + |Decimal(n)| <= 127
  {
    var line := NumberLine(prefix, n);
    if |line| >= |prefix| + 1 {
      var k := |line| - |prefix| - 1;
      assert line[|prefix| + 1..] == Decimal(n)[..k];
      assert prefix <= line;
      assert line[|prefix|] == SPACE;
      if k == |Decimal(n)| {
        assert Decimal(n)[..k] == Decimal(n);
        DecimalReadsBack(n);
        DecimalStart(n);
        assert IsDigit(Decimal(n)[0]);
        assert n == 0 ==> Decimal(n) == "0";
      } else if k > 0 {
        CutDecimalIsSmaller(n, k);
        assert IsDigit(Decimal(n)[..k][0]);
      }
    }
  }

  lemma {:induction false} CutDecimalIsSmaller(n: nat, k: nat)
    requires 0 < k < |Decimal(n)|
    ensures AllDigits(Decimal(n)[..k]) && DigitsValue(Decimal(n)[..k]) < n
  {
    var s := Decimal(n);
    var shorter := Decimal(n / 10);
    assert s[..k] == shorter[..k];
    if k == |shorter| {
      assert shorter[..k] == shorter;
      DecimalReadsBack(n / 10);
    } else {
      CutDecimalIsSmaller(n / 10, k);
    }
  }
}
