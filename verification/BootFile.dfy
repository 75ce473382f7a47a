/** The bootstrap file as a whole: generated from a configuration, and read back
    as exactly the commands printed. */
module BootFile {
  import opened Basics
  import opened Symbols
  import opened BootLex
  import opened BootCommands
  import opened BootGrammar
  import opened BootPrint
  import opened BootSplit

  // ----- any file of printed commands -----

  /** Every command on a line of its own. */
  function FileText(commands: seq<Command>): string {
    if commands == [] then ""
    else FileText(commands[..|commands| - 1]) + (Text(commands[|commands| - 1]) + ['\n'])
  }

  function Texts(commands: seq<Command>): (texts: seq<string>)
    ensures |texts| == |commands| && forall i :: 0 <= i < |texts| ==> texts[i] == Text(commands[i])
  {
    seq(|commands|, i requires 0 <= i < |commands| => Text(commands[i]))
  }

  /** g_snprintf has room for the line and a NUL. */
  predicate Fits(c: Command) {
    |Text(c)| + 1 < COMMAND_READ_BUF_SIZE
  }

  predicate Clean(s: string) {
    CMD_SEPARATOR !in s && CARRIAGE_RETURN !in s
  }

  lemma WordIsClean(w: string)
    requires IsWord(w)
    ensures Clean(w) && |w| > 0
  {
    if IsName(w) {
      assert forall i :: 0 <= i < |w| ==> In(w[i], NameLike);
    } else {
      assert forall i :: 0 <= i < |w| ==> In(w[i], Numeric);
    }
  }

  lemma {:induction false} RenderIsClean(pieces: seq<Piece>) returns (body: string)
    requires IsPrintable(pieces)
    ensures Render(pieces) == body + [CMD_SEPARATOR] && Clean(body) && |body| > 0
  {
    WordIsClean(pieces[0].word);
    var first := pieces[0].word + [pieces[0].end];
    assert Render(pieces) == first + Render(pieces[1..]);
    if |pieces| == 1 {
      body := pieces[0].word;
      assert Render(pieces[1..]) == "";
    } else {
      var later := RenderIsClean(pieces[1..]);
      body := first + later;
    }
  }

  lemma {:induction false} DropOfClean(s: string)
    requires CARRIAGE_RETURN !in s
    ensures Drop(s) == s
  {
    if s != "" {
      assert s == s[..|s| - 1] + [s[|s| - 1]];
      DropOfClean(s[..|s| - 1]);
    }
  }

  lemma CompleteBody(body: string)
    requires CMD_SEPARATOR !in body
    ensures IsComplete(body + [CMD_SEPARATOR])
  {
    assert (body + [CMD_SEPARATOR])[..|body|] == body;
  }

  lemma NewlineBefore(s: string)
    requires CARRIAGE_RETURN !in s
    ensures Drop(s) == s && Drop(['\n'] + s) == s
  {
    DropOfClean(s);
    DropAppend(['\n'], s);
    NewlineTail();
  }

  lemma NewlineTail()
    ensures !HasSeparator(['\n']) && Drop(['\n']) == ""
  {
    assert ['\n'] == [] + ['\n'];
    DropSnoc([], '\n');
  }

  /** A printed command is one raw command, with or without a newline before it. */
  lemma TextIsRaw(table: SymbolTable, c: Command)
    requires Perfect(BootSymbols(), table) && IsPrinted(table, c)
    ensures IsComplete(Text(c)) && IsComplete(['\n'] + Text(c))
    ensures Drop(Text(c)) == Text(c) && Drop(['\n'] + Text(c)) == Text(c) && |Text(c)| > 1
  {
    PrintedTokens(table, c);
    var body := RenderIsClean(Pieces(c));
    assert Text(c) == body + [CMD_SEPARATOR];
    hide *;
    assert Clean(body) ==> CMD_SEPARATOR !in body && CARRIAGE_RETURN !in body by { CleanIs(body); }
    CompleteBody(body);
    CompleteBody(['\n'] + body);
    assert ['\n'] + Text(c) == ['\n'] + body + [CMD_SEPARATOR];
    NewlineBefore(Text(c));
  }

  lemma CleanIs(s: string)
    requires Clean(s)
    ensures CMD_SEPARATOR !in s && CARRIAGE_RETURN !in s
  {
  }

  /** The raw commands of a printed file: the newline comes before the next one. */
  function Raws(commands: seq<Command>): (raws: seq<string>)
    ensures |raws| == |commands|
    ensures forall i :: 0 <= i < |raws| ==> raws[i] == if i == 0 then Text(commands[0]) else ['\n'] + Text(commands[i])
  {
    seq(|commands|, i requires 0 <= i < |commands| => if i == 0 then Text(commands[0]) else ['\n'] + Text(commands[i]))
  }

  lemma {:induction false} ConcatSnoc(texts: seq<string>, s: string)
    ensures Concat(texts + [s]) == Concat(texts) + s
  {
    if texts == [] {
      assert [] + [s] == [s] && [s][1..] == [];
      assert Concat([s]) == s + Concat([]);
    } else {
      ConcatSnoc(texts[1..], s);
      assert (texts + [s])[1..] == texts[1..] + [s];
      assert Concat(texts + [s]) == texts[0] + Concat(texts[1..] + [s]);
    }
  }

  lemma {:induction false} FileIsRaws(commands: seq<Command>)
    requires commands != []
    ensures FileText(commands) == Concat(Raws(commands)) + ['\n']
  {
    var init, last := commands[..|commands| - 1], commands[|commands| - 1];
    assert commands == init + [last];
    FileSnoc(init, last);
    if init == [] {
      FirstLine(last);
    } else {
      FileIsRaws(init);
      RawsSnoc(init, last);
      hide *;
      ConcatSnoc(Raws(init), ['\n'] + Text(last));
      MoveNewline(Concat(Raws(init)), Text(last));
    }
  }

  lemma FileSnoc(init: seq<Command>, last: Command)
    ensures FileText(init + [last]) == FileText(init) + (Text(last) + ['\n'])
  {
    assert (init + [last])[..|init|] == init;
  }

  lemma FirstLine(c: Command)
    ensures FileText([] + [c]) == Concat(Raws([] + [c])) + ['\n']
  {
    FileSnoc([], c);
    hide Text;
    assert Raws([] + [c]) == [] + [Text(c)];
    ConcatSnoc([], Text(c));
    assert FileText([]) == "" && Concat([]) == "";
  }

  lemma MoveNewline(u: string, t: string)
    ensures u + ['\n'] + (t + ['\n']) == u + (['\n'] + t) + ['\n']
  {
  }

  lemma RawsSnoc(init: seq<Command>, last: Command)
    requires init != []
    ensures Raws(init + [last]) == Raws(init) + [['\n'] + Text(last)]
  {
    hide Text;
  }

  /** Splitting a printed file gives the text of each command, once and in order. */
  lemma FileIsSplit(table: SymbolTable, commands: seq<Command>)
    requires Perfect(BootSymbols(), table) && commands != []
    requires forall i :: 0 <= i < |commands| ==> IsPrinted(table, commands[i]) && Fits(commands[i])
    ensures SplitRun(FileText(commands)) == Run(Texts(commands), InputEnded)
  {
    hide Perfect, IsPrinted, Text, SplitRun, FileText, Drop, Concat;
    var raws := Raws(commands);
    forall i | 0 <= i < |raws|
      ensures IsComplete(raws[i]) && Drop(raws[i]) == Text(commands[i]) && IsHandedOn(raws[i])
    {
      TextIsRaw(table, commands[i]);
    }
    FileIsRaws(commands);
    NewlineTail();
    SplitIsCutting(raws, ['\n'], |raws|);
    assert raws[..|raws|] == raws;
    assert DropEach(raws) == Texts(commands);
  }

  /** The commands a whole file is read as. */
  function ReadFile(table: SymbolTable, file: string): (r: seq<Option<Command>>)
    requires table.Shaped()
    ensures |r| == |SplitRun(file).commands|
    ensures forall i :: 0 <= i < |r| ==> r[i] == ReadBack(table, SplitRun(file).commands[i])
  {
    var texts := SplitRun(file).commands;
    seq(|texts|, i requires 0 <= i < |texts| => ReadBack(table, texts[i]))
  }

  /** Print, split, lex, parse: every printed command comes back, in order, and
      then the input ends. */
  lemma FileRoundTrip(table: SymbolTable, commands: seq<Command>)
    requires Perfect(BootSymbols(), table) && commands != []
    requires forall i :: 0 <= i < |commands| ==> IsPrinted(table, commands[i]) && Fits(commands[i])
    ensures SplitRun(FileText(commands)).ending == InputEnded
    ensures |ReadFile(table, FileText(commands))| == |commands|
    ensures forall i :: 0 <= i < |commands| ==> ReadFile(table, FileText(commands))[i] == Some(commands[i])
    ensures forall i :: 0 <= i < |commands| ==>
              Terminated(Text(commands[i])) &&
                  LexAll(table, Text(commands[i])) == Good(Sentence(PrintedForm(commands[i])))
  {
    FileIsSplit(table, commands);
    hide SplitRun, FileText, Perfect, IsPrinted, Text, ReadBack, LexAll, Sentence, PrintedForm, Terminated;
    forall i | 0 <= i < |commands|
      ensures ReadFile(table, FileText(commands))[i] == Some(commands[i])
      ensures Terminated(Text(commands[i]))
      ensures LexAll(table, Text(commands[i])) == Good(Sentence(PrintedForm(commands[i])))
    {
      PrintedIsRead(table, commands[i]);
    }
  }
}
