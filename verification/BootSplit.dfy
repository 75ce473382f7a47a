/** Cutting a bootstrap file into commands: get_line of bootstrap/ic_bootstrap.c. */
module BootSplit {

  const CMD_SEPARATOR: char := ';'
  const CARRIAGE_RETURN: char := '\n'
  const COMMAND_READ_BUF_SIZE: nat := 2048

  const IC_ERROR_COMMAND_TOO_LONG: int := 7091
  const IC_ERROR_NO_FINAL_COMMAND: int := 7093

  // ----- the text -----

  /** The length of the text up to and including the first separator, or all of it. */
  function CutLength(s: string): (n: nat)
    ensures n <= |s|
    ensures forall i :: 0 <= i < n - 1 ==> s[i] != CMD_SEPARATOR
    ensures n == |s| || (n > 0 && s[n - 1] == CMD_SEPARATOR)
  {
    if s == "" then 0
    else if s[0] == CMD_SEPARATOR then 1
    else 1 + CutLength(s[1..])
  }

  lemma CutLengthIs(s: string, n: nat)
    requires n <= |s| && (n == |s| || (n > 0 && s[n - 1] == CMD_SEPARATOR))
    requires forall i :: 0 <= i < n - 1 ==> s[i] != CMD_SEPARATOR
    ensures CutLength(s) == n
  {
  }

  /** The text without its newlines. */
  function Drop(s: string): (d: string)
    ensures |d| <= |s|
  {
    if s == "" then ""
    else Drop(s[..|s| - 1]) + (if s[|s| - 1] == CARRIAGE_RETURN then "" else [s[|s| - 1]])
  }

  lemma DropSnoc(s: string, c: char)
    ensures Drop(s + [c]) == Drop(s) + if c == CARRIAGE_RETURN then "" else [c]
  {
    assert (s + [c])[..|s|] == s;
  }

  lemma {:induction false} DropAppend(s: string, t: string)
    ensures Drop(s + t) == Drop(s) + Drop(t)
  {
    if t == "" {
      assert s + t == s;
    } else {
      var u, c := t[..|t| - 1], t[|t| - 1];
      assert t == u + [c] && s + t == s + u + [c];
      DropAppend(s, u);
      DropSnoc(s + u, c);
      DropSnoc(u, c);
    }
  }

  lemma {:induction false} DropKeepsOthers(s: string)
    ensures '\n' !in Drop(s) && ('\n' !in s ==> Drop(s) == s)
  {
    if s != "" {
      var u, c := s[..|s| - 1], s[|s| - 1];
      assert s == u + [c];
      DropKeepsOthers(u);
    }
  }

  /** Newlines are what is dropped, and nothing else. */
  lemma DropIsExact(s: string, i: nat)
    requires i < |s|
    ensures '\n' !in Drop(s) && ('\n' !in s ==> Drop(s) == s)
    ensures s[i] == '\n' ==> Drop(s) == Drop(s[..i]) + Drop(s[i + 1..])
  {
    hide *;
    DropKeepsOthers(s);
    assert s == s[..i] + [s[i]] + s[i + 1..];
    DropAppend(s[..i] + [s[i]], s[i + 1..]);
    DropSnoc(s[..i], s[i]);
  }

  predicate HasSeparator(s: string) {
    CMD_SEPARATOR in s
  }

  /** A separator at its end and nowhere else. */
  predicate IsComplete(s: string) {
    s != "" && s[|s| - 1] == CMD_SEPARATOR && !HasSeparator(s[..|s| - 1])
  }

  lemma {:induction false} DropKeepsSeparators(s: string)
    ensures HasSeparator(Drop(s)) <==> HasSeparator(s)
  {
    if s != "" {
      var u, c := s[..|s| - 1], s[|s| - 1];
      assert s == u + [c];
      DropKeepsSeparators(u);
    }
  }

  lemma DropOfComplete(s: string)
    requires IsComplete(s)
    ensures IsComplete(Drop(s)) && Drop(s) == Drop(s[..|s| - 1]) + [CMD_SEPARATOR]
  {
    DropKeepsSeparators(s[..|s| - 1]);
  }

  lemma CutIsComplete(s: string)
    ensures HasSeparator(s) <==> IsComplete(s[..CutLength(s)])
    ensures !HasSeparator(s) ==> CutLength(s) == |s|
  {
    hide *;
    var n := CutLength(s);
    SeparatorAt(s);
    if HasSeparator(s) {
      CompleteUpTo(s, n);
    } else {
      CompleteHasSeparator(s);
    }
  }

  lemma SeparatorAt(s: string)
    ensures if HasSeparator(s) then 0 < CutLength(s) && s[CutLength(s) - 1] == CMD_SEPARATOR
            else CutLength(s) == |s| && s[..|s|] == s
  {
    hide CutLength;
    var n := CutLength(s);
    if k :| 0 <= k < |s| && s[k] == CMD_SEPARATOR {
      assert n - 1 <= k;
    }
  }

  lemma CompleteHasSeparator(s: string)
    ensures IsComplete(s) ==> HasSeparator(s)
  {
  }

  lemma CompleteUpTo(s: string, n: nat)
    requires 0 < n <= |s| && s[n - 1] == CMD_SEPARATOR && forall i :: 0 <= i < n - 1 ==> s[i] != CMD_SEPARATOR
    ensures IsComplete(s[..n])
  {
    var cut := s[..n];
    assert cut[..n - 1] == s[..n - 1];
  }

  // ----- one call of get_line -----

  datatype Line =
    | Command(text: string, pending: string, rest: string)
    | EndOfInput
    | CommandTooLong
    | NoFinalCommand

  /** What get_line reports, given the text still pending in the parse buffer
      and the file text not yet read. */
  function NextLine(pending: string, rest: string): Line {
    if HasSeparator(pending) then
      var n := CutLength(pending);
      if n == 1 then EndOfInput else Command(pending[..n], pending[n..], rest)
    else
      var n := CutLength(rest);
      if n + |pending| > COMMAND_READ_BUF_SIZE then CommandTooLong
      else
        var text := pending + Drop(rest[..n]);
        if HasSeparator(text) then
          if |text| == 1 then EndOfInput else Command(text, "", rest[n..])
        else if |text| == 0 then EndOfInput
        else NoFinalCommand
  }

  lemma CompleteIsCutWhole(s: string)
    requires IsComplete(s)
    ensures CutLength(s) == |s| && HasSeparator(s)
  {
    assert forall i :: 0 <= i < |s| - 1 ==> s[..|s| - 1][i] == s[i];
    CutLengthIs(s, |s|);
  }

  lemma AppendToComplete(pending: string, s: string)
    requires !HasSeparator(pending) && IsComplete(s)
    ensures IsComplete(pending + s)
  {
    var t := pending + s;
    assert t[..|t| - 1] == pending + s[..|s| - 1];
  }

  lemma PieceText(pending: string, rest: string)
    requires !HasSeparator(pending)
    ensures var text := pending + Drop(rest[..CutLength(rest)]);
            if HasSeparator(rest) then IsComplete(text) else !HasSeparator(text) && CutLength(rest) == |rest|
  {
    CutIsComplete(rest);
    DropKeepsSeparators(rest[..CutLength(rest)]);
    hide *;
    if HasSeparator(rest) {
      DropOfComplete(rest[..CutLength(rest)]);
      AppendToComplete(pending, Drop(rest[..CutLength(rest)]));
    } else {
      assert rest[..CutLength(rest)] == rest;
      NoSeparatorInBoth(pending, Drop(rest));
    }
  }

  lemma NoSeparatorInBoth(s: string, t: string)
    requires !HasSeparator(s) && !HasSeparator(t)
    ensures !HasSeparator(s + t)
  {
  }

  /** What is reported once a raw command has been added to the pending text. */
  lemma PieceDecides(pending: string, rest: string, text: string)
    requires !HasSeparator(pending) && CutLength(rest) + |pending| <= COMMAND_READ_BUF_SIZE
    requires text == pending + Drop(rest[..CutLength(rest)])
    ensures HasSeparator(text) ==>
              CutLength(text) == |text| &&
              NextLine(pending, rest) == if |text| == 1 then EndOfInput else Command(text, "", rest[CutLength(rest)..])
    ensures !HasSeparator(text) ==>
              CutLength(rest) == |rest| && NextLine(pending, rest) == if |text| == 0 then EndOfInput else NoFinalCommand
  {
    PieceText(pending, rest);
    hide HasSeparator, CutLength, Drop, IsComplete;
    if HasSeparator(rest) {
      CompleteIsCutWhole(text);
    }
  }

  lemma PendingDecides(pending: string, rest: string)
    requires HasSeparator(pending)
    ensures NextLine(pending, rest) ==
              if CutLength(pending) == 1 then EndOfInput
              else Command(pending[..CutLength(pending)], pending[CutLength(pending)..], rest)
  {
  }

  // ----- the reader -----

  /** A fixed-size command buffer over the file content. */
  class CommandReader {
    const file: string
    var filePtr: nat
    const parseBuf: array<char>
    var currPos: nat
    var currLength: nat

    constructor (file: string)
      ensures Valid() && fresh(parseBuf)
      ensures this.file == file && filePtr == 0 && Pending() == ""
    {
      this.file := file;
      filePtr, currPos, currLength := 0, 0, 0;
      parseBuf := new char[COMMAND_READ_BUF_SIZE + 1](_ => ' ');
    }

    ghost predicate Valid()
      reads this
    {
      && filePtr <= |file| && parseBuf.Length == COMMAND_READ_BUF_SIZE + 1
      && currPos <= currLength <= COMMAND_READ_BUF_SIZE
      && (currPos == 0 ==> currLength == 0)
    }

    ghost function Pending(): string
      requires Valid()
      reads this, parseBuf
    {
      parseBuf[currPos..currLength]
    }

    ghost function Rest(): string
      requires Valid()
      reads this
    {
      file[filePtr..]
    }

    /** get_line_from_file_content: move past the next raw command. */
    method GetLineFromFileContent() returns (start: nat, len: nat)
      requires filePtr <= |file|
      modifies this`filePtr
      ensures start == old(filePtr) && filePtr == start + len <= |file|
      ensures len == CutLength(file[start..])
    {
      start := filePtr;
      while filePtr < |file|
        invariant start <= filePtr <= |file|
        invariant forall i :: start <= i < filePtr ==> file[i] != CMD_SEPARATOR
      {
        var c := file[filePtr];
        filePtr := filePtr + 1;
        if c == CMD_SEPARATOR {
          break;
        }
      }
      len := filePtr - start;
      CutLengthIs(file[start..], len);
    }

    /** The copy that leaves out newlines; `at` is where the buffer is filled to. */
    method CopyDropping(start: nat, len: nat, at: nat) returns (end: nat)
      requires start + len <= |file| && at + len <= parseBuf.Length
      modifies parseBuf
      ensures at <= end <= at + len
      ensures parseBuf[..end] == old(parseBuf[..at]) + Drop(file[start..start + len])
    {
      hide *;
      end := at;
      ghost var kept := "";
      NothingDropped(file, start, parseBuf[..at]);
      ghost var was := parseBuf[..at];
      for i := 0 to len
        invariant at <= end <= at + i
        invariant parseBuf[..end] == was + kept && kept == Drop(file[start..start + i])
      {
        end, kept := CopyOne(file[start + i], end, was, kept);
        DropNext(file, start, i);
      }
    }

    /** One round of the copy. */
    method CopyOne(c: char, at: nat, ghost was: string, ghost kept: string) returns (end: nat, ghost now: string)
      requires at < parseBuf.Length && parseBuf[..at] == was + kept
      modifies parseBuf
      ensures now == kept + (if c == CARRIAGE_RETURN then "" else [c])
      ensures at <= end <= at + 1 && parseBuf[..end] == was + now
    {
      end, now := at, kept + "";
      if c != CARRIAGE_RETURN {
        PutChar(at, c);
        end, now := at + 1, kept + [c];
      }
    }

    method PutChar(at: nat, c: char)
      requires at < parseBuf.Length
      modifies parseBuf
      ensures parseBuf[..at + 1] == old(parseBuf[..at]) + [c]
    {
      parseBuf[at] := c;
    }

    /** The position of the first separator between two positions, or the second. */
    method FindSeparator(from: nat, to: nat) returns (i: nat)
      requires from <= to <= parseBuf.Length
      ensures from <= i <= to
      ensures i < to <==> HasSeparator(parseBuf[from..to])
      ensures i < to ==> i - from + 1 == CutLength(parseBuf[from..to])
    {
      i := from;
      while i < to && parseBuf[i] != CMD_SEPARATOR
        invariant from <= i <= to
        invariant forall k :: from <= k < i ==> parseBuf[k] != CMD_SEPARATOR
      {
        i := i + 1;
      }
      ghost var s := parseBuf[from..to];
      if i < to {
        assert s[i - from] == CMD_SEPARATOR;
        CutLengthIs(s, i - from + 1);
      }
    }

    /** memmove of the pending text to the start of the buffer. */
    method MoveToStart(from: nat, to: nat)
      requires from <= to <= parseBuf.Length
      modifies parseBuf
      ensures parseBuf[..to - from] == old(parseBuf[from..to])
    {
      forall k | 0 <= k < to - from {
        parseBuf[k] := parseBuf[from + k];
      }
    }
  
    /** Append the next raw command to the first `bufLength` characters. */
    method FillBuffer(bufLength: nat) returns (tooLong: bool, newLength: nat, endOfFile: bool)
      requires filePtr <= |file| && parseBuf.Length == COMMAND_READ_BUF_SIZE + 1 && bufLength <= COMMAND_READ_BUF_SIZE
      modifies this`filePtr, this`currLength, parseBuf
      ensures filePtr == old(filePtr) + CutLength(old(file[filePtr..])) <= |file|
      ensures tooLong <==> CutLength(old(file[filePtr..])) + bufLength > COMMAND_READ_BUF_SIZE
      ensures !tooLong ==> newLength == currLength <= COMMAND_READ_BUF_SIZE && (endOfFile <==> filePtr == |file|)
      ensures !tooLong ==> parseBuf[..newLength] == old(parseBuf[..bufLength]) + Drop(file[old(filePtr)..filePtr])
    {
      newLength, endOfFile := bufLength, false;
      var start, len := GetLineFromFileContent();
      tooLong := len + bufLength > COMMAND_READ_BUF_SIZE;
      if !tooLong {
        newLength := CopyDropping(start, len, bufLength);
        endOfFile := filePtr == |file|;
        currLength := newLength;
      }
    }

    /** What a finished call has reported and left behind. */
    ghost predicate Reported(line: Line, code: int, endOfInput: bool, start: nat, size: nat)
      reads this, parseBuf
    {
      match line
      case Command(text, pending, rest) =>
        && code == 0 && !endOfInput && Valid()
        && start + size <= COMMAND_READ_BUF_SIZE && parseBuf[start..start + size] == text
        && Pending() == pending && Rest() == rest
      case EndOfInput => code == 0 && endOfInput
      case CommandTooLong => code == IC_ERROR_COMMAND_TOO_LONG
      case NoFinalCommand => code == IC_ERROR_NO_FINAL_COMMAND
    }

    /** A round of get_line that starts at the front of the buffer: it reads
        the next raw command and always ends the call. */
    method ReadRound(bufLength: nat, ghost pending: string, ghost rest: string)
        returns (code: int, endOfInput: bool, readBuf: nat, lineSize: nat)
      requires filePtr <= |file| && parseBuf.Length == COMMAND_READ_BUF_SIZE + 1 && bufLength <= COMMAND_READ_BUF_SIZE
      requires parseBuf[..bufLength] == pending && file[filePtr..] == rest && !HasSeparator(pending)
      modifies this`filePtr, this`currPos, this`currLength, parseBuf
      ensures Reported(NextLine(pending, rest), code, endOfInput, readBuf, lineSize)
    {
      hide NextLine, Drop, CutLength, HasSeparator;
      code, endOfInput, readBuf, lineSize := 0, false, 0, 0;
      var tooLong, newLength, endOfFile := FillBuffer(bufLength);
      if tooLong {
        TooLong(pending, rest);
        return IC_ERROR_COMMAND_TOO_LONG, false, 0, 0;
      }
      assert file[old(filePtr)..filePtr] == rest[..CutLength(rest)];
      ghost var text := pending + Drop(rest[..CutLength(rest)]);
      PieceDecides(pending, rest, text);
      assert parseBuf[0..newLength] == text;
      var i := FindSeparator(0, newLength);
      if i < newLength {
        currPos := i + 1;
        if i == 0 {
          return 0, true, 0, 0;
        }
        lineSize := currPos;
        assert parseBuf[0..lineSize] == text && Pending() == "" && Rest() == rest[CutLength(rest)..];
      } else {
        currPos := 0;
        if newLength == 0 {
          return 0, true, 0, 0;
        }
        return IC_ERROR_NO_FINAL_COMMAND, false, 0, 0;
      }
    }

    /** A round of get_line that starts behind an earlier command: the pending
        text is reported up to its separator, or moved to the front. */
    method PendingRound(ghost pending: string, ghost rest: string)
        returns (found: bool, bufLength: nat, endOfInput: bool, readBuf: nat, lineSize: nat)
      requires Valid() && currPos > 0 && Pending() == pending && Rest() == rest
      modifies this`currPos, this`currLength, parseBuf
      ensures found ==> Reported(NextLine(pending, rest), 0, endOfInput, readBuf, lineSize)
      ensures !found ==> bufLength <= COMMAND_READ_BUF_SIZE && parseBuf[..bufLength] == pending
      ensures !found ==> !HasSeparator(pending) && currPos == 0
    {
      hide NextLine, CutLength, HasSeparator;
      var startPos := currPos;
      bufLength, endOfInput, readBuf, lineSize := currLength, false, 0, 0;
      var i := FindSeparator(startPos, bufLength);
      found := i < bufLength;
      if found {
        PendingDecides(pending, rest);
        currPos := i + 1;
        if i == startPos {
          endOfInput := true;
        } else {
          lineSize := currPos - startPos;
          readBuf := startPos;
          assert parseBuf[readBuf..readBuf + lineSize] == pending[..lineSize];
          assert Pending() == pending[lineSize..];
        }
      } else {
        if bufLength > startPos {
          MoveToStart(startPos, bufLength);
          bufLength := bufLength - startPos;
          currLength := bufLength;
        } else {
          bufLength := 0;
        }
        currPos := 0;
      }
    }

    /** get_line. */
    method GetLine() returns (code: int, endOfInput: bool, readBuf: nat, lineSize: nat)
      requires Valid()
      modifies this`filePtr, this`currPos, this`currLength, parseBuf
      ensures Reported(NextLine(old(Pending()), old(Rest())), code, endOfInput, readBuf, lineSize)
    {
      var bufLength := currLength;
      ghost var pending, rest := Pending(), Rest();
      NoSeparator();
      hide *;
      if currPos > 0 {
        var found;
        code := 0;
        found, bufLength, endOfInput, readBuf, lineSize := PendingRound(pending, rest);
        if found {
          return;
        }
      }
      code, endOfInput, readBuf, lineSize := ReadRound(bufLength, pending, rest);
    }
  }

  lemma NothingDropped(file: string, start: nat, was: string)
    requires start <= |file|
    ensures "" == Drop(file[start..start]) && was == was + ""
  {
  }

  lemma DropNext(file: string, start: nat, i: nat)
    requires start + i < |file|
    ensures Drop(file[start..start + i + 1]) ==
              Drop(file[start..start + i]) + if file[start + i] == CARRIAGE_RETURN then "" else [file[start + i]]
  {
    assert file[start..start + i + 1] == file[start..start + i] + [file[start + i]];
    DropSnoc(file[start..start + i], file[start + i]);
  }

  lemma NoSeparator()
    ensures !HasSeparator("")
  {
  }

  lemma TooLong(pending: string, rest: string)
    requires !HasSeparator(pending) && CutLength(rest) + |pending| > COMMAND_READ_BUF_SIZE
    ensures NextLine(pending, rest) == CommandTooLong
  {
  }

  // ----- whole files -----

  datatype Ending = InputEnded | InputTooLong | InputUnfinished

  datatype Run = Run(commands: seq<string>, ending: Ending)

  /** The commands of repeated get_line calls, up to the call that ends the run. */
  function SplitRun(rest: string): Run
    decreases |rest|
  {
    match NextLine("", rest)
    case EndOfInput => Run([], InputEnded)
    case CommandTooLong => Run([], InputTooLong)
    case NoFinalCommand => Run([], InputUnfinished)
    case Command(text, _, later) =>
      LessIsLeft(rest);
      var run := SplitRun(later);
      Run([text] + run.commands, run.ending)
  }

  lemma LessIsLeft(rest: string)
    requires NextLine("", rest).Command?
    ensures NextLine("", rest).pending == "" && |NextLine("", rest).rest| < |rest|
  {
    assert Drop(rest[..0]) == "";
  }

  lemma RunStep(rest: string)
    ensures var line, run := NextLine("", rest), SplitRun(rest);
            if line.Command? then
              line.pending == "" && |line.rest| < |rest| &&
              run == Run([line.text] + SplitRun(line.rest).commands, SplitRun(line.rest).ending)
            else run.commands == [] && run.ending == EndingOf(line)
  {
    if NextLine("", rest).Command? {
      LessIsLeft(rest);
    }
    hide NextLine;
  }

  function EndingOf(line: Line): Ending {
    match line
    case CommandTooLong => InputTooLong
    case NoFinalCommand => InputUnfinished
    case _ => InputEnded
  }

  /** One round of the loop of main: the command is given to the parser, which
      puts a NUL behind it. */
  method ReadOne(reader: CommandReader) returns (text: string, ended: bool, ending: Ending)
    requires reader.Valid() && reader.Pending() == ""
    modifies reader, reader.parseBuf
    ensures var line := NextLine("", old(reader.Rest()));
            if line.Command? then
              !ended && text == line.text && reader.Valid() && reader.Pending() == "" && reader.Rest() == line.rest
            else ended && ending == EndingOf(line)
  {
    ghost var rest := reader.Rest();
    RunStep(rest);
    hide NextLine, SplitRun;
    text, ended, ending := "", true, InputEnded;
    var code, endOfInput, readBuf, lineSize := reader.GetLine();
    if code != 0 || endOfInput {
      ending := if code == 0 then InputEnded
                else if code == IC_ERROR_COMMAND_TOO_LONG then InputTooLong
                else InputUnfinished;
    } else {
      ended, text := false, reader.parseBuf[readBuf..readBuf + lineSize];
      assert reader.Pending() == "";
      reader.parseBuf[readBuf + lineSize] := 0 as char;
    }
  }

  /** The loop of main over a whole file. */
  method ReadAll(reader: CommandReader) returns (commands: seq<string>, ending: Ending)
    requires reader.Valid() && reader.Pending() == ""
    modifies reader, reader.parseBuf
    ensures Run(commands, ending) == SplitRun(old(reader.Rest()))
  {
    commands := [];
    ghost var rest := reader.Rest();
    ghost var whole := SplitRun(rest);
    hide *;
    RunsOn([], whole, rest);
    while true
      invariant reader.Valid() && reader.Pending() == "" && reader.Rest() == rest
      invariant GoesOn(commands, whole, rest)
      decreases |rest|
    {
      RunStep(rest);
      var text, ended;
      text, ended, ending := ReadOne(reader);
      if ended {
        RunEnds(commands, whole, rest, ending);
        return;
      }
      RunsOnWith(commands, whole, rest);
      commands := commands + [text];
      rest := NextLine("", rest).rest;
    }
  }

  /** Commands handed on, and the run of what is left. */
  ghost predicate GoesOn(commands: seq<string>, whole: Run, rest: string) {
    whole == Run(commands + SplitRun(rest).commands, SplitRun(rest).ending)
  }

  lemma RunsOn(commands: seq<string>, whole: Run, rest: string)
    requires commands == [] && whole == SplitRun(rest)
    ensures GoesOn(commands, whole, rest)
  {
    hide SplitRun;
    assert [] + whole.commands == whole.commands;
  }

  lemma RunsOnWith(commands: seq<string>, whole: Run, rest: string)
    requires GoesOn(commands, whole, rest) && NextLine("", rest).Command?
    ensures GoesOn(commands + [NextLine("", rest).text], whole, NextLine("", rest).rest)
  {
    RunStep(rest);
    hide SplitRun, NextLine;
    var text, later := NextLine("", rest).text, SplitRun(NextLine("", rest).rest).commands;
    assert commands + ([text] + later) == commands + [text] + later;
  }

  lemma RunEnds(commands: seq<string>, whole: Run, rest: string, ending: Ending)
    requires GoesOn(commands, whole, rest) && SplitRun(rest).commands == [] && SplitRun(rest).ending == ending
    ensures Run(commands, ending) == whole
  {
    hide SplitRun;
    assert commands + [] == commands;
  }

  function Concat(texts: seq<string>): string {
    if texts == [] then "" else texts[0] + Concat(texts[1..])
  }

  ghost predicate AllComplete(raws: seq<string>) {
    forall i :: 0 <= i < |raws| ==> IsComplete(raws[i])
  }

  /** A raw command that is handed on: it fits the buffer and is not empty. */
  predicate IsHandedOn(raw: string) {
    |raw| <= COMMAND_READ_BUF_SIZE && |Drop(raw)| > 1
  }

  /** Every text is a list of complete commands and a rest without separator. */
  lemma {:induction false} CutUp(file: string) returns (raws: seq<string>, tail: string)
    ensures file == Concat(raws) + tail && AllComplete(raws) && !HasSeparator(tail)
    decreases |file|
  {
    if !HasSeparator(file) {
      raws, tail := [], file;
      assert Concat(raws) + tail == file;
    } else {
      var n := CutLength(file);
      CutIsComplete(file);
      var later;
      later, tail := CutUp(file[n..]);
      raws := [file[..n]] + later;
      assert raws[1..] == later;
      assert file == file[..n] + file[n..];
    }
  }

  lemma CutOfComplete(raw: string, more: string)
    requires IsComplete(raw)
    ensures CutLength(raw + more) == |raw|
    ensures (raw + more)[..|raw|] == raw && (raw + more)[|raw|..] == more
  {
    var s := raw + more;
    assert forall i :: 0 <= i < |raw| - 1 ==> s[i] == raw[..|raw| - 1][i];
    CutLengthIs(s, |raw|);
  }

  lemma FirstOfComplete(raw: string, more: string)
    requires IsComplete(raw)
    ensures NextLine("", raw + more) ==
              if |raw| > COMMAND_READ_BUF_SIZE then CommandTooLong
              else if |Drop(raw)| <= 1 then EndOfInput
              else Command(Drop(raw), "", more)
  {
    CutOfComplete(raw, more);
    DropOfComplete(raw);
    CompleteIsCutWhole(Drop(raw));
    assert "" + Drop(raw) == Drop(raw);
  }

  lemma TailOnly(tail: string)
    requires !HasSeparator(tail)
    ensures NextLine("", tail) ==
              if |tail| > COMMAND_READ_BUF_SIZE then CommandTooLong
              else if Drop(tail) == "" then EndOfInput
              else NoFinalCommand
  {
    hide *;
    CutIsComplete(tail);
    DropKeepsSeparators(tail);
    assert tail[..|tail|] == tail && "" + Drop(tail) == Drop(tail);
    LineWithoutPending(tail);
  }

  lemma LineWithoutPending(rest: string)
    ensures var n := CutLength(rest);
            var text := "" + Drop(rest[..n]);
            NextLine("", rest) ==
              if n > COMMAND_READ_BUF_SIZE then CommandTooLong
              else if HasSeparator(text) then
                if |text| == 1 then EndOfInput else Command(text, "", rest[n..])
              else if |text| == 0 then EndOfInput
              else NoFinalCommand
  {
    NoSeparator();
    hide CutLength, Drop, HasSeparator;
  }

  function EndingAt(raws: seq<string>, tail: string, k: nat): Ending
    requires k <= |raws|
  {
    if k < |raws| then
      if |raws[k]| > COMMAND_READ_BUF_SIZE then InputTooLong else InputEnded
    else if |tail| > COMMAND_READ_BUF_SIZE then InputTooLong
    else if Drop(tail) == "" then InputEnded
    else InputUnfinished
  }

  /** Repeated get_line calls cut after each separator and drop newlines: with
      the file cut up as `raws` and `tail`, and `k` the first raw command that is
      not handed on, the commands are the first `k`, once each and in order. */
  lemma {:induction false} SplitIsCutting(raws: seq<string>, tail: string, k: nat)
    requires AllComplete(raws) && !HasSeparator(tail) && k <= |raws|
    requires forall i :: 0 <= i < k ==> IsHandedOn(raws[i])
    requires k < |raws| ==> !IsHandedOn(raws[k])
    ensures SplitRun(Concat(raws) + tail) == Run(DropEach(raws[..k]), EndingAt(raws, tail, k))
  {
    hide *;
    if raws == [] {
      assert raws[..k] == [];
      RunOfTail(tail);
    } else {
      RunOfFirst(raws, tail);
      if k > 0 {
        SplitIsCutting(raws[1..], tail, k - 1);
        DropEachFirst(raws, k);
      } else {
        DropEachFirst(raws, 0);
      }
    }
  }

  function DropEach(raws: seq<string>): (commands: seq<string>)
    ensures |commands| == |raws| && forall i :: 0 <= i < |raws| ==> commands[i] == Drop(raws[i])
  {
    seq(|raws|, i requires 0 <= i < |raws| => Drop(raws[i]))
  }

  lemma DropEachFirst(raws: seq<string>, k: nat)
    requires k <= |raws| && raws != []
    ensures DropEach(raws[..k]) == if k == 0 then [] else [Drop(raws[0])] + DropEach(raws[1..][..k - 1])
    ensures k > 0 ==> forall tail :: EndingAt(raws, tail, k) == EndingAt(raws[1..], tail, k - 1)
  {
    if k > 0 {
      assert raws[..k] == [raws[0]] + raws[1..][..k - 1];
    }
  }

  lemma RunOfTail(tail: string)
    requires !HasSeparator(tail)
    ensures SplitRun(Concat([]) + tail) == Run(DropEach([]), EndingAt([], tail, 0))
  {
    assert Concat([]) + tail == tail;
    TailOnly(tail);
    hide NextLine, Drop;
  }

  lemma RunOfFirst(raws: seq<string>, tail: string)
    requires raws != [] && AllComplete(raws)
    ensures AllComplete(raws[1..])
    ensures var run := SplitRun(Concat(raws) + tail);
            if !IsHandedOn(raws[0]) then run == Run([], EndingAt(raws, tail, 0))
            else var later := SplitRun(Concat(raws[1..]) + tail);
                 run == Run([Drop(raws[0])] + later.commands, later.ending)
  {
    var more := Concat(raws[1..]) + tail;
    assert Concat(raws) + tail == raws[0] + more;
    assert IsComplete(raws[0]);
    FirstOfComplete(raws[0], more);
    hide NextLine, Drop, CutLength, Concat, IsComplete;
  }

  /** Nothing is lost: when every raw command is handed on and the input ends,
      the commands together are the file without its newlines. */
  lemma {:induction false} CommandsAreTheFile(raws: seq<string>, tail: string)
    requires AllComplete(raws) && !HasSeparator(tail)
    requires forall i :: 0 <= i < |raws| ==> IsHandedOn(raws[i])
    requires |tail| <= COMMAND_READ_BUF_SIZE && Drop(tail) == ""
    ensures Concat(SplitRun(Concat(raws) + tail).commands) == Drop(Concat(raws) + tail)
  {
    SplitIsCutting(raws, tail, |raws|);
    assert raws[..|raws|] == raws;
    DropOfAll(raws, DropEach(raws));
    DropAppend(Concat(raws), tail);
  }

  lemma {:induction false} DropOfAll(raws: seq<string>, commands: seq<string>)
    requires |commands| == |raws| && forall i :: 0 <= i < |raws| ==> commands[i] == Drop(raws[i])
    ensures Concat(commands) == Drop(Concat(raws))
  {
    if raws != [] {
      DropOfAll(raws[1..], commands[1..]);
      DropAppend(raws[0], Concat(raws[1..]));
    }
  }
}
