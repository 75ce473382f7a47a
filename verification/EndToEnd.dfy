/** Two parties over one socket: whatever the sender's partial writes and the
    receiver's chunks, the lines that come out are the lines that went in. Both
    sides stop at their first error. */
module EndToEnd {
  import opened Framing
  import opened ByteStream
  import opened Connections

  /** ic_send_with_cr, or ic_send_empty_line with its flush. */
  datatype SendOp = SendText(line: string) | SendEnd {
    function Text(): string {
      if SendText? then line else ""
    }
  }

  function Texts(ops: seq<SendOp>): (lines: seq<string>)
    ensures |lines| == |ops|
    ensures forall i :: 0 <= i < |ops| ==> lines[i] == ops[i].Text()
  {
    seq(|ops|, i requires 0 <= i < |ops| => ops[i].Text())
  }

  function Perform(size: nat, s: SendState, op: SendOp): SendState {
    match op
    case SendText(line) => SendLine(size, s.pending, s.accepted, s.events, line)
    case SendEnd => SendEmptyLine(size, s.pending, s.accepted, s.events)
  }

  /** A sender performing `ops` one after the other, until the first error. */
  function RunSender(size: nat, ops: seq<SendOp>, events: seq<SendEvent>): SendState
    decreases |ops|
  {
    if ops == [] then SendState("", "", 0, events)
    else
      var s := RunSender(size, ops[..|ops| - 1], events);
      if s.code != 0 then s else Perform(size, s, ops[|ops| - 1])
  }

  lemma PrefixTrans(a: string, b: string, c: string)
    requires a <= b && b <= c
    ensures a <= c
  {
  }

  lemma FlushTakesPrefix(pending: string, accepted: string, events: seq<SendEvent>)
    ensures var f := FlushPending(pending, accepted, events);
            && accepted <= f.accepted
            && f.accepted <= accepted + pending
            && (f.code == 0 ==> f.accepted == accepted + pending)
            && f.pending == ""
  {
    var w := Write(|pending|, 0, 0, 0, 1, events);
    assert accepted + pending[..w.written] == (accepted + pending)[..|accepted| + w.written];
  }

  /** One send keeps the wire image: nothing lost, reordered or repeated. */
  lemma PerformKeepsStream(size: nat, s: SendState, op: SendOp)
    requires s.code == 0
    ensures var t := Perform(size, s, op);
            var whole := s.accepted + s.pending + op.Text() + [CR];
            && t.accepted <= whole
            && (t.code == 0 ==> t.accepted + t.pending == whole)
            && (t.code == 0 && op.SendEnd? ==> t.pending == "")
  {
    hide Write;
    var line := op.Text();
    var whole := s.accepted + s.pending + line + [CR];
    FlushTakesPrefix(s.pending, s.accepted, s.events);
    var m := SendLine(size, s.pending, s.accepted, s.events, line);
    assert m.code == 0 ==> m.accepted + m.pending == whole;
    assert m.accepted <= s.accepted + s.pending <= whole;
    if m.code == 0 {
      FlushTakesPrefix(m.pending, m.accepted, m.events);
    }
  }

  /** The sender's side of the theorem: the bytes the socket took are a prefix
      of the frame of all lines, and together with what is still buffered they
      are all of it unless an error stopped the sender. */
  lemma {:induction false} SenderEmitsFrame(size: nat, ops: seq<SendOp>, events: seq<SendEvent>)
    ensures var s := RunSender(size, ops, events);
            && s.accepted <= Frame(Texts(ops))
            && (s.code == 0 ==> s.accepted + s.pending == Frame(Texts(ops)))
            && (s.code == 0 && ops != [] && ops[|ops| - 1].SendEnd? ==> s.pending == "")
    decreases |ops|
  {
    if ops == [] {
      assert Texts(ops) == [];
    } else {
      var before, op := ops[..|ops| - 1], ops[|ops| - 1];
      SenderEmitsFrame(size, before, events);
      var s := RunSender(size, before, events);
      assert Texts(ops) == Texts(before) + [op.Text()];
      FrameSnoc(Texts(before), op.Text());
      if s.code == 0 {
        PerformKeepsStream(size, s, op);
        assert s.accepted + s.pending + op.Text() + [CR] == Frame(Texts(ops));
      } else {
        PrefixTrans(s.accepted, Frame(Texts(before)), Frame(Texts(ops)));
      }
    }
  }

  /** Lines that fit together are only buffered: the socket is not used. */
  lemma {:induction false} LinesAreBuffered(size: nat, ops: seq<SendOp>, events: seq<SendEvent>)
    requires |Frame(Texts(ops))| <= size && forall i :: 0 <= i < |ops| ==> ops[i].SendText?
    ensures RunSender(size, ops, events) == SendState(Frame(Texts(ops)), "", 0, events)
    decreases |ops|
  {
    if ops == [] {
      assert Texts(ops) == [];
    } else {
      var before, op := ops[..|ops| - 1], ops[|ops| - 1];
      assert Texts(ops) == Texts(before) + [op.Text()];
      FrameSnoc(Texts(before), op.Text());
      LinesAreBuffered(size, before, events);
    }
  }

  // ----- scripts on which the sender succeeds -----

  ghost predicate AllInterrupts(events: seq<SendEvent>, i: nat, k: nat)
    requires i + k <= |events|
  {
    forall j :: i <= j < i + k ==> events[j].SendError?
  }

  /** Partial sends and interrupts in any mix: no fault, no send that is late,
      and fewer than 998 interrupts in a row. */
  ghost predicate Calm(events: seq<SendEvent>) {
    && (forall i :: 0 <= i < |events| ==> !IsFault(events[i]) && (events[i].Sent? ==> !events[i].late))
    && forall i :: 0 <= i <= |events| - 998 ==> !AllInterrupts(events, i, 998)
  }

  lemma StretchBehind(events: seq<SendEvent>, i: nat)
    requires i <= |events| && IsRound1000(events[..i])
    ensures i >= 998 && AllInterrupts(events, i - 998, 998)
  {
    var before := events[..i];
    var k := Interrupts(before);
    assert forall j :: |before| - k <= j < |before| ==> before[j].SendError? && events[j] == before[j];
  }

  lemma CalmNeverExpires(events: seq<SendEvent>, i: nat)
    requires Calm(events) && i < |events|
    ensures !Expired(events, i)
  {
    if IsRound1000(events[..i]) {
      StretchBehind(events, i);
    }
  }

  lemma CalmDelivers(size: nat, secsToTry: nat, events: seq<SendEvent>)
    requires Calm(events)
    ensures Delivers(size, secsToTry, events)
  {
    forall i | 0 <= i < |events| ensures !GivesUp(secsToTry, events, i) {
      CalmNeverExpires(events, i);
    }
  }

  lemma StretchMoves(events: seq<SendEvent>, k: nat, i: nat)
    requires k <= |events| && i + 998 <= |events| - k
    ensures AllInterrupts(events[k..], i, 998) ==> AllInterrupts(events, k + i, 998)
  {
    assert forall j :: k + i <= j < k + i + 998 ==> events[j] == events[k..][j - k];
  }

  lemma CalmStays(events: seq<SendEvent>, k: nat)
    requires Calm(events) && k <= |events|
    ensures Calm(events[k..])
  {
    var later := events[k..];
    forall i | 0 <= i <= |later| - 998 ensures !AllInterrupts(later, i, 998) {
      StretchMoves(events, k, i);
      assert !AllInterrupts(events, k + i, 998);
    }
  }

  /** A flush uses up events from the front only. */
  lemma {:induction false} WriteUsesFront(size: nat, written: nat, loops: nat, secs: nat, secsToTry: nat,
                                          events: seq<SendEvent>) returns (k: nat)
    requires written <= size
    ensures k <= |events| && Write(size, written, loops, secs, secsToTry, events).events == events[k..]
    decreases |events|
  {
    if events == [] || Write(size, written, loops, secs, secsToTry, events).events == events[1..] {
      k := if events == [] then 0 else 1;
      return;
    }
    var e, more := events[0], events[1..];
    var w := if e.SendError? then written else if written + e.n < size then written + e.n else size;
    var s := if loops == 0 then 0 else if e.Sent? && (e.late || loops == 1000) then secs + 1 else secs;
    k := WriteUsesFront(size, w, if loops == 0 then 1 else if e.Sent? then 2 else loops + 1, s, secsToTry, more);
    assert more[k..] == events[k + 1..];
    k := k + 1;
  }

  lemma FlushOnCalm(pending: string, accepted: string, events: seq<SendEvent>)
    requires Calm(events)
    ensures var f := FlushPending(pending, accepted, events); f.code == 0 && Calm(f.events)
  {
    CalmDelivers(|pending|, 1, events);
    WriteSucceedsIff(|pending|, 1, events);
    hide Write, Calm, Delivers;
    var k := WriteUsesFront(|pending|, 0, 0, 0, 1, events);
    CalmStays(events, k);
  }

  lemma {:induction false} SenderSucceeds(size: nat, ops: seq<SendOp>, events: seq<SendEvent>)
    requires Calm(events)
    ensures var s := RunSender(size, ops, events); s.code == 0 && Calm(s.events)
    decreases |ops|
  {
    hide Calm, Write;
    if ops != [] {
      var before, op := ops[..|ops| - 1], ops[|ops| - 1];
      SenderSucceeds(size, before, events);
      var s := RunSender(size, before, events);
      FlushOnCalm(s.pending, s.accepted, s.events);
      hide FlushPending;
      var m := SendLine(size, s.pending, s.accepted, s.events, op.Text());
      FlushOnCalm(m.pending, m.accepted, m.events);
    }
  }

  // ----- receiving -----

  /** The lines of at most `calls` receives, until the first error; `code` is
      that error, or 0. */
  datatype RecRun = RecRun(lines: seq<string>, code: int)

  function RunReceiver(size: nat, unread: string, net: seq<RecvEvent>, calls: nat): RecRun
    requires |unread| <= size
    decreases calls
  {
    if calls == 0 then RecRun([], 0)
    else
      ReceiveConserves(size, unread, net);
      match ReceiveLine(size, unread, net)
      case NoLine(code, _, _, _) => RecRun([], code)
      case Line(line, rest, net', _) =>
        var r := RunReceiver(size, rest, net', calls - 1);
        RecRun([line] + r.lines, r.code)
  }

  predicate Fits(size: nat, lines: seq<string>) {
    forall i :: 0 <= i < |lines| ==> |lines[i]| + 1 <= size
  }

  /** Soundness on every script: the lines received from any prefix of a framed
      stream are the first lines sent, complete and in order. */
  lemma {:induction false} ReceivedLinesAreSent(size: nat, unread: string, net: seq<RecvEvent>, calls: nat,
                                                lines: seq<string>)
    requires |unread| <= size && AllLines(lines)
    requires unread + Stream(net) <= Frame(lines)
    ensures RunReceiver(size, unread, net, calls).lines <= lines
    decreases calls
  {
    hide Stream, ReceiveLine, Frame;
    if calls > 0 {
      ReceiveConserves(size, unread, net);
      var o := ReceiveLine(size, unread, net);
      if o.Line? {
        var all := unread + Stream(net);
        TakeFirstLine(all, o.line, o.rest + Stream(o.net), lines);
        ReceivedLinesAreSent(size, o.rest, o.net, calls - 1, lines[1..]);
        assert lines == [lines[0]] + lines[1..];
      }
    }
  }

  lemma TakeFirstLine(all: string, line: string, rest: string, lines: seq<string>)
    requires AllLines(lines) && all <= Frame(lines) && IsLine(line)
    requires all == (line + [CR]) + rest
    ensures lines != [] && line == lines[0] && rest <= Frame(lines[1..])
  {
    hide Frame, FirstCR;
    assert all == line + [CR] + rest;
    FirstCRUnique(line, rest);
    assert all[|line|] == CR;
    FirstLineOfPrefix(all, lines);
    assert all[..|line|] == line && all[|line| + 1..] == rest;
  }

  /** The next receive on a fault-free script gives the first line. */
  lemma NextLineArrives(size: nat, unread: string, net: seq<RecvEvent>, lines: seq<string>)
    requires |unread| <= size && AllLines(lines) && lines != [] && |lines[0]| + 1 <= size && Benign(net)
    requires unread + Stream(net) == Frame(lines)
    ensures var o := ReceiveLine(size, unread, net);
            && o.Line? && o.line == lines[0]
            && |o.rest| <= size && Benign(o.net)
            && o.rest + Stream(o.net) == Frame(lines[1..])
  {
    hide Stream, ReceiveLine, FirstCR;
    var all := unread + Stream(net);
    assert all == lines[0] + [CR] + Frame(lines[1..]);
    hide Frame;
    FirstCRUnique(lines[0], Frame(lines[1..]));
    ReceiveDecidedByStream(size, unread, net);
    ReceiveConserves(size, unread, net);
    var o := ReceiveLine(size, unread, net);
    assert all[..|lines[0]|] == lines[0];
    assert all[|lines[0]| + 1..] == Frame(lines[1..]);
    assert all[|o.line| + 1..] == o.rest + Stream(o.net);
  }

  /** Completeness on scripts without faults: if the whole frame arrives and
      every line fits the buffer, |lines| receives return all of them. */
  lemma {:induction false} AllLinesArrive(size: nat, unread: string, net: seq<RecvEvent>, lines: seq<string>)
    requires |unread| <= size && AllLines(lines) && Fits(size, lines) && Benign(net)
    requires unread + Stream(net) == Frame(lines)
    ensures RunReceiver(size, unread, net, |lines|) == RecRun(lines, 0)
    decreases |lines|
  {
    hide Stream, ReceiveLine, Frame;
    if lines != [] {
      NextLineArrives(size, unread, net, lines);
      var o := ReceiveLine(size, unread, net);
      AllLinesArrive(size, o.rest, o.net, lines[1..]);
      assert lines == [lines[0]] + lines[1..];
    }
  }

  /** End-to-end framing. The network hands over, in some chunking `net`, a
      prefix of what the socket accepted under some schedule `events` of
      partial sends. Then the lines received are the first lines sent. If the
      sender finished with an empty line without error, the network delivers
      everything it took and raises no fault, and the lines fit the receive
      buffer, then all lines are received. */
  lemma LinesInEqualLinesOut(sendSize: nat, recSize: nat, ops: seq<SendOp>, events: seq<SendEvent>,
                             net: seq<RecvEvent>, calls: nat)
    requires AllLines(Texts(ops))
    requires Stream(net) <= RunSender(sendSize, ops, events).accepted
    ensures RunReceiver(recSize, "", net, calls).lines <= Texts(ops)
    ensures && ops != [] && ops[|ops| - 1].SendEnd?
            && RunSender(sendSize, ops, events).code == 0
            && Stream(net) == RunSender(sendSize, ops, events).accepted
            && Benign(net)
            && Fits(recSize, Texts(ops))
            ==> RunReceiver(recSize, "", net, |ops|) == RecRun(Texts(ops), 0)
  {
    hide Stream, RunSender, RunReceiver, Frame;
    var s := RunSender(sendSize, ops, events);
    var lines := Texts(ops);
    SenderEmitsFrame(sendSize, ops, events);
    PrefixTrans(Stream(net), s.accepted, Frame(lines));
    assert "" + Stream(net) == Stream(net);
    ReceivedLinesAreSent(recSize, "", net, calls, lines);
    if && ops != [] && ops[|ops| - 1].SendEnd? && s.code == 0 && Stream(net) == s.accepted
       && Benign(net) && Fits(recSize, lines) {
      assert s.accepted + s.pending == s.accepted;
      AllLinesArrive(recSize, "", net, lines);
    }
  }

  /** Nothing is assumed of the sender but a script of partial sends and
      interrupts: it succeeds, the socket takes the whole frame, and when the
      network delivers that without fault, all lines are received. */
  lemma LinesAreDelivered(sendSize: nat, recSize: nat, ops: seq<SendOp>, events: seq<SendEvent>, net: seq<RecvEvent>)
    requires AllLines(Texts(ops)) && ops != [] && ops[|ops| - 1].SendEnd? && Calm(events)
    requires Stream(net) == RunSender(sendSize, ops, events).accepted && Benign(net) && Fits(recSize, Texts(ops))
    ensures RunSender(sendSize, ops, events).code == 0
    ensures RunSender(sendSize, ops, events).accepted == Frame(Texts(ops))
    ensures RunReceiver(recSize, "", net, |ops|) == RecRun(Texts(ops), 0)
  {
    hide *;
    SenderSucceeds(sendSize, ops, events);
    SenderEmitsFrame(sendSize, ops, events);
    var s := RunSender(sendSize, ops, events);
    assert s.accepted + s.pending == s.accepted;
    LinesInEqualLinesOut(sendSize, recSize, ops, events, net, 0);
  }

  lemma LineEndsAtFirstCR(size: nat, unread: string, net: seq<RecvEvent>)
    requires |unread| <= size
    ensures var o := ReceiveLine(size, unread, net);
            var all := unread + Stream(net);
            o.Line? ==> CR in all && FirstCR(all) == |o.line| < size
  {
    hide Stream, ReceiveLine;
    ReceiveConserves(size, unread, net);
    var o := ReceiveLine(size, unread, net);
    if o.Line? {
      var all := unread + Stream(net);
      assert all == o.line + [CR] + (o.rest + Stream(o.net));
      FirstCRUnique(o.line, o.rest + Stream(o.net));
      assert all[|o.line|] == CR;
    }
  }

  /** A line that does not fit is an error and never a shorter line. */
  lemma LongLineIsAnError(size: nat, unread: string, net: seq<RecvEvent>, line: string, rest: string)
    requires |unread| <= size && IsLine(line) && |line| >= size
    requires unread + Stream(net) <= line + [CR] + rest
    ensures ReceiveLine(size, unread, net).NoLine?
  {
    hide Stream, ReceiveLine;
    LineEndsAtFirstCR(size, unread, net);
    FirstCRUnique(line, rest);
    if CR in unread + Stream(net) {
      FirstCRPrefix(unread + Stream(net), line + [CR] + rest);
    }
  }

  // ----- after an error -----

  /** How many bytes a script delivers into `room` bytes of buffer before the
      first event that makes a receive fail: nothing ready, peer closed, an
      error, or no room left. */
  function BytesBeforeFault(room: nat, net: seq<RecvEvent>): (b: nat)
    ensures b <= room && b <= |Stream(net)|
    decreases room
  {
    if !DataReady(net) then 0
    else
      match Read(net, room)
      case NotRead(_, _) => 0
      case Got(d, net') => |d| + BytesBeforeFault(room - |d|, net')
  }

  /** A receive fails exactly when no CR comes before the first fault, and it
      has then seen what came before. */
  lemma {:induction false} FailureIsDecidedByScript(size: nat, unread: string, net: seq<RecvEvent>)
    requires |unread| <= size
    ensures var o := ReceiveLine(size, unread, net);
            var seen := unread + Stream(net)[..BytesBeforeFault(size - |unread|, net)];
            (o.NoLine? <==> CR !in seen) && (o.NoLine? ==> o.seen == seen)
    decreases |Stream(net)|
  {
    hide ReceiveLine, Stream, Read, BytesBeforeFault, DataReady;
    BytesStep(size - |unread|, net);
    if CR in unread {
      LineAtHand(size, unread, net);
    } else {
      ReceiveFails(size, unread, net);
      var r := Read(net, size - |unread|);
      if DataReady(net) && r.Got? {
        ReadThenReceive(size, unread, net);
        FailureIsDecidedByScript(size, unread + r.data, r.net);
        SplitSeen(unread, r.data, Stream(r.net), BytesBeforeFault(size - |unread| - |r.data|, r.net));
      } else {
        assert unread + Stream(net)[..0] == unread;
      }
    }
  }

  lemma SplitSeen(unread: string, d: string, rest: string, b: nat)
    requires b <= |rest|
    ensures unread + (d + rest)[..|d| + b] == unread + d + rest[..b]
  {
  }

  lemma LineAtHand(size: nat, unread: string, net: seq<RecvEvent>)
    requires |unread| <= size && CR in unread
    ensures ReceiveLine(size, unread, net).Line?
  {
  }

  lemma BytesStep(room: nat, net: seq<RecvEvent>)
    ensures var r := Read(net, room);
            if DataReady(net) && r.Got? then
              && |r.data| <= room && Stream(net) == r.data + Stream(r.net)
              && BytesBeforeFault(room, net) == |r.data| + BytesBeforeFault(room - |r.data|, r.net)
            else BytesBeforeFault(room, net) == 0
  {
    hide Stream;
  }

  // ----- the code of a failed receive -----

  /** Event `i` makes a receive fail: the peer has closed, an error, or nothing
      is ready when the receive waits. Behind an interrupt it does not wait
      again but stays in the read. */
  predicate FailsAt(net: seq<RecvEvent>, i: nat)
    requires i < |net|
  {
    match net[i]
    case Arrived(_) => false
    case NotReady => i == 0 || net[i - 1].Arrived?
    case PeerClosed => true
    case RecvError(code) => code != EINTR
  }

  ghost predicate FirstFailure(net: seq<RecvEvent>, f: nat) {
    f <= |net| && (forall j :: 0 <= j < f ==> !FailsAt(net, j)) && (f < |net| ==> FailsAt(net, f))
  }

  /** The code of a receive that finds no line in what `room` bytes of buffer
      take of the `bytes` bytes before the first failure. */
  function FailureCode(room: nat, bytes: nat, net: seq<RecvEvent>, f: nat): Errno
    requires f <= |net|
  {
    if bytes > room then END_OF_FILE
    else if f == |net| then if f == 0 || net[f - 1].Arrived? then RECEIVE_TIMEOUT else END_OF_FILE
    else
      match net[f]
      case NotReady => RECEIVE_TIMEOUT
      case RecvError(code) => if bytes == room then END_OF_FILE else code
      case _ => END_OF_FILE
  }

  /** How many events a read passes over: interrupts, and what does not count
      as waiting behind them. */
  function PassedOver(net: seq<RecvEvent>): (k: nat)
    ensures k <= |net|
    ensures forall i :: 0 <= i < k ==> net[i].NotReady? || net[i] == RecvError(EINTR)
    ensures k < |net| ==> !net[k].NotReady? && net[k] != RecvError(EINTR)
  {
    if net == [] || !(net[0].NotReady? || net[0] == RecvError(EINTR)) then 0 else 1 + PassedOver(net[1..])
  }

  lemma {:induction false} ReadIs(net: seq<RecvEvent>, room: nat)
    requires room > 0
    ensures var k := PassedOver(net);
            Read(net, room) ==
            if k == |net| then NotRead(END_OF_FILE, [])
            else
              match net[k]
              case Arrived(d) =>
                if |d| <= room then Got(d, net[k + 1..]) else Got(d[..room], [Arrived(d[room..])] + net[k + 1..])
              case RecvError(code) => NotRead(code, net[k + 1..])
              case _ => NotRead(END_OF_FILE, net[k..])
    ensures Stream(net[..PassedOver(net)]) == ""
  {
    hide Stream;
    if net != [] && (net[0].NotReady? || net[0] == RecvError(EINTR)) {
      ReadIs(net[1..], room);
      var k := PassedOver(net[1..]);
      assert PassedOver(net) == k + 1;
      assert net[k + 1..] == net[1..][k..] && (k < |net| - 1 ==> net[k + 2..] == net[1..][k + 1..]);
      StreamFirst(net[..k + 1]);
      assert net[..k + 1][1..] == net[1..][..k];
    } else {
      NoStream();
      assert net[..0] == [] && net[0..] == net;
    }
  }

  lemma StreamFirst(net: seq<RecvEvent>)
    requires net != []
    ensures Stream(net) == (if net[0].Arrived? then net[0].data else "") + Stream(net[1..])
  {
  }

  lemma NoStream()
    ensures Stream([]) == ""
  {
  }

  lemma {:induction false} StreamAppend(a: seq<RecvEvent>, b: seq<RecvEvent>)
    ensures Stream(a + b) == Stream(a) + Stream(b)
  {
    if a == [] {
      assert a + b == b;
    } else {
      assert (a + b)[1..] == a[1..] + b;
      StreamAppend(a[1..], b);
      assert Stream(a + b) == (if a[0].Arrived? then a[0].data else "") + Stream((a + b)[1..]);
    }
  }

  /** The first failure lies behind what a read passes over. */
  lemma FailureBehind(net: seq<RecvEvent>, f: nat)
    requires FirstFailure(net, f) && DataReady(net)
    ensures var k := PassedOver(net);
            f >= k && (f == k <==> k == |net| || !net[k].Arrived?)
  {
    var k := PassedOver(net);
    assert forall j :: 0 <= j < k ==> !FailsAt(net, j);
    assert k < |net| ==> (FailsAt(net, k) <==> !net[k].Arrived?);
  }

  /** Behind bytes that arrived the receive waits again. */
  lemma FailureAfterChunk(net: seq<RecvEvent>, k: nat, f: nat)
    requires k < f && k < |net| && net[k].Arrived? && FirstFailure(net, f) && Stream(net[..k]) == ""
    ensures FirstFailure(net[k + 1..], f - k - 1)
    ensures Stream(net[..f]) == net[k].data + Stream(net[k + 1..][..f - k - 1])
  {
    var later := net[k + 1..];
    forall j | 0 <= j < |later| ensures FailsAt(later, j) <==> FailsAt(net, k + 1 + j) {
      assert later[j] == net[k + 1 + j] && (j > 0 ==> later[j - 1] == net[k + j]);
    }
    var first, rest := net[..k], net[k..f];
    assert net[..f] == first + rest && rest[1..] == later[..f - k - 1] && rest[0] == net[k];
    StreamAppend(first, rest);
    StreamFirst(rest);
    hide Stream, FailsAt;
    assert "" + Stream(rest) == Stream(rest);
  }

  lemma NothingReady(room: nat, net: seq<RecvEvent>, f: nat)
    requires FirstFailure(net, f) && !DataReady(net)
    ensures f == 0 && Stream(net[..f]) == "" && FailureCode(room, 0, net, f) == RECEIVE_TIMEOUT
  {
    assert net[..0] == [];
    assert net != [] ==> FailsAt(net, 0);
  }

  /** What the next read finds: the first failure, or a chunk before it. */
  lemma NextChunk(room: nat, net: seq<RecvEvent>, f: nat)
    requires FirstFailure(net, f) && DataReady(net) && room > 0
    ensures var k := PassedOver(net);
            if f > k then
              && k < |net| && net[k].Arrived?
              && var d, later := net[k].data, net[k + 1..];
                 && FirstFailure(later, f - k - 1)
                 && |Stream(net[..f])| == |d| + |Stream(later[..f - k - 1])|
                 && Read(net, room) == if |d| <= room then Got(d, later)
                     else Got(d[..room], [Arrived(d[room..])] + later)
            else
              && f == k && |Stream(net[..f])| == 0
              && Read(net, room).NotRead? && Read(net, room).code == FailureCode(room, 0, net, f)
  {
    ReadIs(net, room);
    FailureBehind(net, f);
    var k := PassedOver(net);
    if f > k {
      FailureAfterChunk(net, k, f);
    } else {
      assert k == |net| ==> !net[k - 1].Arrived?;
    }
    hide Stream, Read, FirstFailure;
  }

  /** What a script delivers before its first failure. */
  lemma {:induction false} BytesAre(room: nat, net: seq<RecvEvent>, f: nat)
    requires FirstFailure(net, f)
    ensures f <= |net|
    ensures BytesBeforeFault(room, net) == if |Stream(net[..f])| < room then |Stream(net[..f])| else room
    decreases |net|
  {
    hide *;
    FailureInside(net, f);
    BytesStep(room, net);
    if !DataReady(net) {
      NothingReady(room, net, f);
    } else if room > 0 {
      NextChunk(room, net, f);
      var k := PassedOver(net);
      if f > k {
        var d := net[k].data;
        if |d| <= room {
          BytesAre(room - |d|, net[k + 1..], f - k - 1);
        } else {
          FullBuffer([Arrived(d[room..])] + net[k + 1..]);
        }
      }
    } else {
      FullBuffer(net);
    }
  }

  lemma FailureInside(net: seq<RecvEvent>, f: nat)
    requires FirstFailure(net, f)
    ensures f <= |net|
  {
  }

  lemma FullBuffer(net: seq<RecvEvent>)
    ensures BytesBeforeFault(0, net) == 0
  {
  }

  /** The code of a receive that finds no line: the first failure of the script
      decides it, unless the buffer is full before. */
  lemma {:induction false} FailureHasCode(size: nat, unread: string, net: seq<RecvEvent>, f: nat)
    requires |unread| <= size && FirstFailure(net, f) && ReceiveLine(size, unread, net).NoLine?
    ensures f <= |net|
    ensures ReceiveLine(size, unread, net).code == FailureCode(size - |unread|, |Stream(net[..f])|, net, f)
    decreases |net|
  {
    hide *;
    var room := size - |unread|;
    FailureInside(net, f);
    NoLineMeans(size, unread, net);
    ReceiveFails(size, unread, net);
    if !DataReady(net) {
      NothingReady(room, net, f);
    } else if room == 0 {
      FullReceive(size, unread, net);
      FullCode(net, f);
    } else {
      NextChunk(room, net, f);
      var k := PassedOver(net);
      if f > k {
        ReadThenReceive(size, unread, net);
        var d := net[k].data;
        if |d| <= room {
          FailureHasCode(size, unread + d, net[k + 1..], f - k - 1);
          LaterCode(room, d, |Stream(net[k + 1..][..f - k - 1])|, net, k, f);
        } else {
          FullReceive(size, unread + d[..room], [Arrived(d[room..])] + net[k + 1..]);
          TooMany(room, |Stream(net[..f])|, net, f);
        }
      }
    }
  }

  lemma TooMany(room: nat, bytes: nat, net: seq<RecvEvent>, f: nat)
    requires f <= |net| && bytes > room
    ensures FailureCode(room, bytes, net, f) == END_OF_FILE
  {
  }

  lemma NoLineMeans(size: nat, unread: string, net: seq<RecvEvent>)
    requires |unread| <= size && ReceiveLine(size, unread, net).NoLine?
    ensures CR !in unread
  {
  }

  /** With a full buffer a receive that has something to read fails. */
  lemma FullReceive(size: nat, unread: string, net: seq<RecvEvent>)
    requires |unread| == size && (DataReady(net) || (net != [] && net[0].Arrived?))
    ensures ReceiveLine(size, unread, net).NoLine? ==> ReceiveLine(size, unread, net).code == END_OF_FILE
  {
  }

  lemma FullCode(net: seq<RecvEvent>, f: nat)
    requires DataReady(net) && FirstFailure(net, f)
    ensures FailureCode(0, |Stream(net[..f])|, net, f) == END_OF_FILE
  {
    NextChunk(1, net, f);
    var k := PassedOver(net);
    if f > k {
      assert |net[k].data| > 0;
    } else {
      assert k == |net| ==> !net[k - 1].Arrived?;
    }
    hide Stream, Read, FirstFailure;
  }

  /** What follows a chunk fails as it does behind it. */
  lemma LaterCode(room: nat, d: Chunk, bytes: nat, net: seq<RecvEvent>, k: nat, f: nat)
    requires |d| <= room && k < f <= |net| && net[k] == Arrived(d)
    ensures FailureCode(room, |d| + bytes, net, f) == FailureCode(room - |d|, bytes, net[k + 1..], f - k - 1)
  {
    var later := net[k + 1..];
    assert f < |net| ==> later[f - k - 1] == net[f];
    assert f > k + 1 ==> later[f - k - 2] == net[f - 1];
  }

  // ----- the connection after an error -----

  /** After a failed receive the connection still holds the stream, in its
      buffer and to come, exactly when the bytes delivered before the fault are
      as many as had been used up of the buffer. `was` is the whole buffer,
      filled to `sizeWas` and read up to `pos`. */
  lemma ErrorKeepsStreamIff(was: string, pos: nat, sizeWas: nat, net: seq<RecvEvent>)
    requires pos <= sizeWas <= |was|
    requires CR !in was[pos..sizeWas] + Stream(net)[..BytesBeforeFault(|was| - (sizeWas - pos), net)]
    ensures var o := ReceiveLine(|was|, was[pos..sizeWas], net);
            && o.NoLine? && |o.seen| <= |was|
            && (StaleUnread(was, sizeWas, o.seen) + Stream(o.net) == was[pos..sizeWas] + Stream(net)
                <==> BytesBeforeFault(|was| - (sizeWas - pos), net) == pos)
  {
    hide Stream, ReceiveLine, BytesBeforeFault, StaleUnread;
    var unread := was[pos..sizeWas];
    FailureIsDecidedByScript(|was|, unread, net);
    ReceiveConserves(|was|, unread, net);
    var o := ReceiveLine(|was|, unread, net);
    StaleIff(was, sizeWas, o.seen, Stream(o.net));
  }

  lemma StaleIff(was: string, sizeWas: nat, seen: string, rest: string)
    requires sizeWas <= |was| && |seen| <= |was|
    ensures StaleUnread(was, sizeWas, seen) + rest == seen + rest <==> |seen| == sizeWas
  {
    var stale := StaleUnread(was, sizeWas, seen);
    assert |stale + rest| == sizeWas + |rest|;
    if |seen| == sizeWas {
      assert stale == seen;
    }
  }

  /** A receive that times out at once, after a line at the front of the buffer
      was used up, makes the next receive return that line a second time. */
  lemma TimeoutRepeatsLine(was: string, line: string, net: seq<RecvEvent>)
    requires IsLine(line) && line + [CR] <= was
    ensures var used := |line| + 1;
            var failed := ReceiveLine(|was|, was[used..used], [NotReady] + net);
            && failed == NoLine(RECEIVE_TIMEOUT, "", net, 0)
            && ReceiveLine(|was|, StaleUnread(was, used, failed.seen), net) == Line(line, "", net, 0)
  {
    var used := |line| + 1;
    var script := [NotReady] + net;
    assert script[1..] == net;
    var again := StaleUnread(was, used, "");
    assert again == line + [CR] + "";
    FirstCRUnique(line, "");
    assert again[..|line|] == line && again[|line| + 1..] == "";
  }

  // ----- both runs on connections -----

  /** Receive up to `calls` lines from a connection, until the first error. */
  method ReceiveLines(conn: Connection, calls: nat) returns (lines: seq<string>, code: int)
    requires conn.Valid()
    modifies conn`incoming, conn`sizeCurrReadBuf, conn`readBufPos, conn.readBuf
    ensures RecRun(lines, code) == RunReceiver(conn.readBuf.Length, old(conn.Unread()), old(conn.incoming), calls)
    decreases calls
  {
    hide *;
    ghost var unread, net := conn.Unread(), conn.incoming;
    if calls == 0 {
      NoReceives(conn.readBuf.Length, unread, net);
      return [], 0;
    }
    RunReceiverStep(conn.readBuf.Length, unread, net, calls);
    var line;
    line, code := ReceiveOne(conn, unread, net);
    if code != 0 {
      return [], code;
    }
    lines, code := ReceiveLines(conn, calls - 1);
    BeforeIs(line, RecRun(lines, code));
    lines := [line] + lines;
  }

  method ReceiveOne(conn: Connection, ghost unread: string, ghost net: seq<RecvEvent>) returns (line: string, code: int)
    requires conn.Valid() && unread == conn.Unread() && net == conn.incoming
    modifies conn`incoming, conn`sizeCurrReadBuf, conn`readBufPos, conn.readBuf
    ensures conn.Valid()
    ensures var o := ReceiveLine(conn.readBuf.Length, unread, net);
            if o.NoLine? then code == o.code && code != 0
            else code == 0 && line == o.line && conn.Unread() == o.rest && conn.incoming == o.net
  {
    hide ReceiveLine, Stream;
    var size;
    ghost var readCount;
    code, size, readCount := conn.RecWithCr();
    line := if code == 0 then conn.readBuf[..size] else "";
  }

  lemma NoReceives(size: nat, unread: string, net: seq<RecvEvent>)
    requires |unread| <= size
    ensures RunReceiver(size, unread, net, 0) == RecRun([], 0)
  {
  }

  lemma BeforeIs(line: string, r: RecRun)
    ensures Before(line, r) == RecRun([line] + r.lines, r.code)
  {
  }

  function Before(line: string, r: RecRun): RecRun {
    RecRun([line] + r.lines, r.code)
  }

  lemma RunReceiverStep(size: nat, unread: string, net: seq<RecvEvent>, calls: nat)
    requires |unread| <= size && calls > 0
    ensures var o := ReceiveLine(size, unread, net);
            var r := RunReceiver(size, unread, net, calls);
            if o.NoLine? then r == RecRun([], o.code)
            else |o.rest| <= size && r == Before(o.line, RunReceiver(size, o.rest, o.net, calls - 1))
  {
    ReceiveConserves(size, unread, net);
    hide ReceiveLine, Stream;
  }

  /** Perform send operations on a fresh connection, until the first error. */
  method PerformAll(conn: Connection, ops: seq<SendOp>) returns (code: int)
    requires conn.Valid() && conn.Pending() == "" && conn.accepted == "" && 1 < conn.writeBuf.Length
    requires forall i :: 0 <= i < |ops| ==> |ops[i].Text()| + 1 < conn.writeBuf.Length
    modifies conn`outgoing, conn`accepted, conn`writeBufPos, conn.writeBuf
    ensures conn.Valid()
    ensures SendState(conn.Pending(), conn.accepted, code, conn.outgoing)
         == RunSender(conn.writeBuf.Length, ops, old(conn.outgoing))
  {
    code := 0;
    var i: nat := 0;
    ghost var events := conn.outgoing;
    assert ops[..0] == [];
    hide SendLine, SendEmptyLine;
    while i < |ops| && code == 0
      invariant i <= |ops| && conn.Valid()
      invariant SendState(conn.Pending(), conn.accepted, code, conn.outgoing)
             == RunSender(conn.writeBuf.Length, ops[..i], events)
    {
      RunSenderStep(conn.writeBuf.Length, ops, i, events);
      hide RunSender;
      match ops[i] {
        case SendText(line) =>
          assert |ops[i].Text()| + 1 < conn.writeBuf.Length;
          code := conn.SendWithCr(line);
        case SendEnd =>
          code := conn.SendEmpty();
      }
      i := i + 1;
    }
    SenderStops(conn.writeBuf.Length, ops, i, events);
  }

  lemma RunSenderStep(size: nat, ops: seq<SendOp>, i: nat, events: seq<SendEvent>)
    requires i < |ops|
    ensures var s := RunSender(size, ops[..i], events);
            RunSender(size, ops[..i + 1], events) == if s.code != 0 then s else Perform(size, s, ops[i])
  {
    assert ops[..i + 1][..i] == ops[..i];
  }

  lemma {:induction false} SenderStops(size: nat, ops: seq<SendOp>, i: nat, events: seq<SendEvent>)
    requires i <= |ops| && (i == |ops| || RunSender(size, ops[..i], events).code != 0)
    ensures RunSender(size, ops, events) == RunSender(size, ops[..i], events)
    decreases |ops| - i
  {
    if i == |ops| {
      assert ops[..i] == ops;
    } else {
      RunSenderStep(size, ops, i, events);
      SenderStops(size, ops, i + 1, events);
    }
  }
}
