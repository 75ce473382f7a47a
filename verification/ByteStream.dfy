/** What the socket layer does to a byte stream. The kernel is an environment:
    a script of receive events and a script of send events say, in order, what
    each `recv`, `poll` and `send` call will find. Every chunking of a stream,
    every interrupt and every error is one such script. */
module ByteStream {
  import opened Framing

  type Errno = e: int | e > 0 witness 1

  const EINTR: Errno := 4
  const RECEIVE_TIMEOUT: Errno := 7039
  const END_OF_FILE: Errno := 7043
  const PROTOCOL_ERROR: Errno := 7044

  type Chunk = s: string | s != "" witness "x"

  /** NotReady: nothing arrived within the poll time limit. */
  datatype RecvEvent = Arrived(data: Chunk) | NotReady | PeerClosed | RecvError(code: Errno)

  /** `late` tells whether the send timer had passed its next one-second mark. */
  datatype SendEvent = Sent(n: nat, late: bool) | SendError(code: Errno)

  /** All bytes the script will ever deliver. */
  function Stream(net: seq<RecvEvent>): string {
    if net == [] then ""
    else (if net[0].Arrived? then net[0].data else "") + Stream(net[1..])
  }

  /** A script in which nothing goes wrong: bytes arrive, calls may be interrupted. */
  predicate Benign(net: seq<RecvEvent>) {
    forall i :: 0 <= i < |net| ==> net[i].Arrived? || net[i] == RecvError(EINTR)
  }

  // ----- receiving -----

  datatype ReadOutcome =
    | Got(data: Chunk, net: seq<RecvEvent>)
    | NotRead(code: Errno, net: seq<RecvEvent>)

  /** One call of read_socket_connection with `room` bytes of buffer space. A
      `recv` asked for no bytes returns 0, which is read as end of file. A
      script that runs out means the peer has gone. */
  function Read(net: seq<RecvEvent>, room: nat): (r: ReadOutcome)
    ensures r.Got? ==> |r.data| <= room && Stream(net) == r.data + Stream(r.net)
    ensures r.NotRead? ==> Stream(net) == Stream(r.net)
    ensures Benign(net) ==> Benign(r.net)
  {
    if room == 0 || net == [] then NotRead(END_OF_FILE, net)
    else match net[0]
      case Arrived(d) =>
        if |d| <= room then Got(d, net[1..])
        else
          var left := [Arrived(d[room..])] + net[1..];
          assert left[1..] == net[1..];
          assert d == d[..room] + d[room..];
          Got(d[..room], left)
      case PeerClosed => NotRead(END_OF_FILE, net)
      case NotReady => Read(net[1..], room)
      case RecvError(code) =>
        if code == EINTR then Read(net[1..], room) else NotRead(code, net[1..])
  }

  predicate DataReady(net: seq<RecvEvent>) {
    net != [] && !net[0].NotReady?
  }

  /** The script after one poll: a poll that times out uses up its event. */
  function Polled(net: seq<RecvEvent>): seq<RecvEvent> {
    if net != [] && net[0].NotReady? then net[1..] else net
  }

  datatype RecOutcome =
    | Line(line: string, rest: string, net: seq<RecvEvent>, readCount: nat)
    | NoLine(code: Errno, seen: string, net: seq<RecvEvent>, readCount: nat)

  /** What one call of ic_rec_with_cr amounts to, given the unread bytes it
      starts from. `readCount` counts the successful reads. */
  function ReceiveLine(size: nat, unread: string, net: seq<RecvEvent>): (o: RecOutcome)
    requires |unread| <= size
    decreases |Stream(net)|
  {
    if CR in unread then
      var i := FirstCR(unread);
      Line(unread[..i], unread[i + 1..], net, 0)
    else if !DataReady(net) then NoLine(RECEIVE_TIMEOUT, unread, Polled(net), 0)
    else
      match Read(net, size - |unread|)
      case NotRead(code, net') => NoLine(code, unread, net', 0)
      case Got(d, net') =>
        var o := ReceiveLine(size, unread + d, net');
        o.(readCount := o.readCount + 1)
  }

  /** `all` is every byte not yet handed out before the call. Conservation: a
      receive takes exactly one line off the front of the stream and nothing
      else, or takes nothing out of it, and it never reports part of a line. */
  predicate Conserves(size: nat, all: string, o: RecOutcome) {
    match o
    case Line(line, rest, net, _) =>
      IsLine(line) && |line| + 1 + |rest| <= size && all == (line + [CR]) + (rest + Stream(net))
    case NoLine(_, seen, net, _) =>
      IsLine(seen) && |seen| <= size && all == seen + Stream(net)
  }

  /** Reading a chunk moves bytes from the stream to the buffer and goes on. */
  lemma ReadThenReceive(size: nat, unread: string, net: seq<RecvEvent>)
    requires |unread| <= size && CR !in unread && DataReady(net)
    requires Read(net, size - |unread|).Got?
    ensures var r := Read(net, size - |unread|);
            var o := ReceiveLine(size, unread + r.data, r.net);
            && ReceiveLine(size, unread, net) == o.(readCount := o.readCount + 1)
            && unread + Stream(net) == (unread + r.data) + Stream(r.net)
            && |Stream(r.net)| < |Stream(net)|
  {
    var r := Read(net, size - |unread|);
    assert unread + (r.data + Stream(r.net)) == (unread + r.data) + Stream(r.net);
  }

  /** Where a receive fails without another read. */
  lemma ReceiveFails(size: nat, unread: string, net: seq<RecvEvent>)
    requires |unread| <= size && CR !in unread
    ensures !DataReady(net) ==> ReceiveLine(size, unread, net) == NoLine(RECEIVE_TIMEOUT, unread, Polled(net), 0)
    ensures var r := Read(net, size - |unread|);
            DataReady(net) && r.NotRead? ==> ReceiveLine(size, unread, net) == NoLine(r.code, unread, r.net, 0)
  {
  }

  lemma LineFromBuffer(size: nat, unread: string, net: seq<RecvEvent>)
    requires |unread| <= size && CR in unread
    ensures Conserves(size, unread + Stream(net), ReceiveLine(size, unread, net))
  {
    var i := FirstCR(unread);
    assert unread + Stream(net) == (unread[..i] + [CR]) + (unread[i + 1..] + Stream(net));
  }

  lemma {:induction false} ReceiveConserves(size: nat, unread: string, net: seq<RecvEvent>)
    requires |unread| <= size
    ensures Conserves(size, unread + Stream(net), ReceiveLine(size, unread, net))
    decreases |Stream(net)|
  {
    if CR in unread {
      LineFromBuffer(size, unread, net);
    } else if DataReady(net) {
      var r := Read(net, size - |unread|);
      if r.Got? {
        ReadThenReceive(size, unread, net);
        ReceiveConserves(size, unread + r.data, r.net);
      }
    }
  }

  /** One call reads at most once per free byte of its buffer, and a failing
      call reports everything it has seen, starting with what it had. */
  lemma {:induction false} ReceiveIsBounded(size: nat, unread: string, net: seq<RecvEvent>)
    requires |unread| <= size
    ensures var o := ReceiveLine(size, unread, net);
            && o.readCount <= size - |unread|
            && (o.NoLine? ==> unread <= o.seen)
    decreases |Stream(net)|
  {
    if CR !in unread && DataReady(net) {
      var r := Read(net, size - |unread|);
      if r.Got? {
        ReceiveIsBounded(size, unread + r.data, r.net);
      }
    }
  }

  /** The line a stream gives to a receiver with a buffer of `size` bytes. */
  predicate ShowsLine(size: nat, all: string) {
    FirstCR(all) < |all| && FirstCR(all) < size
  }

  predicate DecidedBy(size: nat, all: string, o: RecOutcome) {
    && (o.Line? <==> ShowsLine(size, all))
    && (o.Line? ==> o.line == all[..FirstCR(all)])
    && Benign(o.net)
  }

  /** When nothing goes wrong on the network, the outcome depends on the bytes
      alone and not on how they are cut: a line comes back exactly when the
      stream shows a CR within the first `size` bytes. */
  lemma {:induction false} ReceiveDecidedByStream(size: nat, unread: string, net: seq<RecvEvent>)
    requires |unread| <= size && Benign(net)
    ensures DecidedBy(size, unread + Stream(net), ReceiveLine(size, unread, net))
    decreases |Stream(net)|
  {
    var all := unread + Stream(net);
    if CR in unread {
      FirstCRPrefix(unread, all);
      assert all[..FirstCR(all)] == unread[..FirstCR(all)];
    } else if net == [] {
      assert all == unread;
    } else {
      var r := Read(net, size - |unread|);
      if r.Got? {
        ReadThenReceive(size, unread, net);
        ReceiveDecidedByStream(size, unread + r.data, r.net);
      } else {
        NoLineInUnread(size, unread, net);
      }
    }
  }

  lemma NoLineInUnread(size: nat, unread: string, net: seq<RecvEvent>)
    requires |unread| <= size && Benign(net) && CR !in unread
    requires Read(net, size - |unread|).NotRead?
    ensures !ShowsLine(size, unread + Stream(net))
  {
    BenignReadFails(net, size - |unread|);
    var all := unread + Stream(net);
    assert forall k :: 0 <= k < |unread| ==> all[k] == unread[k];
  }

  lemma {:induction false} BenignReadFails(net: seq<RecvEvent>, room: nat)
    requires Benign(net) && Read(net, room).NotRead?
    ensures room == 0 || Stream(net) == ""
  {
    if room != 0 && net != [] {
      BenignReadFails(net[1..], room);
    }
  }

  // ----- sending -----

  datatype WriteOutcome = Wrote(written: nat, code: int, events: seq<SendEvent>)

  /** write_socket_connection from the point where `written` bytes are gone:
      `loops` is its loop_count and `secs` its secs_count. A script that runs
      out means the socket takes whatever is left. */
  function Write(size: nat, written: nat, loops: nat, secs: nat, secsToTry: nat,
                 events: seq<SendEvent>): (w: WriteOutcome)
    requires written <= size
    ensures written <= w.written <= size
    ensures w.code >= 0
    ensures w.code == 0 <==> w.written == size
    decreases |events|
  {
    if events == [] then Wrote(size, 0, events)
    else match events[0]
      case SendError(code) =>
        if written == size then Wrote(written, 0, events[1..])
        else if code == EINTR then
          Write(size, written, loops + 1, if loops == 0 then 0 else secs, secsToTry, events[1..])
        else Wrote(written, code, events[1..])
      case Sent(n, late) =>
        var w := if written + n < size then written + n else size;
        if w == size then Wrote(w, 0, events[1..])
        else if loops == 0 then Write(size, w, 1, 0, secsToTry, events[1..])
        else if late || loops == 1000 then
          if secs + 1 >= secsToTry then Wrote(w, EINTR, events[1..])
          else Write(size, w, 2, secs + 1, secsToTry, events[1..])
        else Write(size, w, 2, secs, secsToTry, events[1..])
  }

  // ----- which scripts make a write succeed -----

  /** The bytes a script takes. */
  function Taken(events: seq<SendEvent>): nat {
    if events == [] then 0
    else
      var last := events[|events| - 1];
      Taken(events[..|events| - 1]) + if last.Sent? then last.n else 0
  }

  lemma TakenNext(events: seq<SendEvent>, i: nat)
    requires i < |events|
    ensures Taken(events[..i + 1]) == Taken(events[..i]) + if events[i].Sent? then events[i].n else 0
  {
    assert events[..i + 1][..i] == events[..i];
  }

  lemma {:induction false} TakenGrows(events: seq<SendEvent>, i: nat, j: nat)
    requires i <= j <= |events|
    ensures Taken(events[..i]) <= Taken(events[..j])
  {
    if i < j {
      TakenGrows(events, i, j - 1);
      TakenNext(events, j - 1);
    }
  }

  /** How many events at the end are interrupted sends. */
  function Interrupts(events: seq<SendEvent>): (k: nat)
    ensures k <= |events|
    ensures forall i :: |events| - k <= i < |events| ==> events[i].SendError?
    ensures k < |events| ==> events[|events| - k - 1].Sent?
  {
    if events == [] || events[|events| - 1].Sent? then 0 else 1 + Interrupts(events[..|events| - 1])
  }

  /** 1000 rounds have gone by when the next send follows 998 interrupts, or is
      the 1001st event and behind interrupts only, but for the first event. */
  predicate IsRound1000(before: seq<SendEvent>) {
    var k := Interrupts(before);
    if k + 1 >= |before| then |before| == 1000 else k == 998
  }

  /** A send that is late or comes in round 1000; the first event never is. */
  predicate Expired(events: seq<SendEvent>, i: nat)
    requires i < |events|
  {
    i > 0 && events[i].Sent? && (events[i].late || IsRound1000(events[..i]))
  }

  function ExpiredCount(events: seq<SendEvent>, n: nat): nat
    requires n <= |events|
  {
    if n == 0 then 0 else ExpiredCount(events, n - 1) + if Expired(events, n - 1) then 1 else 0
  }

  predicate IsFault(e: SendEvent) {
    e.SendError? && e.code != EINTR
  }

  /** Event `i` fails a write that tries for some seconds. */
  predicate GivesUp(secsToTry: nat, events: seq<SendEvent>, i: nat)
    requires i < |events|
  {
    IsFault(events[i]) || (Expired(events, i) && ExpiredCount(events, i + 1) >= secsToTry)
  }

  /** Event `i` ends a write of `size` bytes. */
  predicate Ends(size: nat, secsToTry: nat, events: seq<SendEvent>, i: nat)
    requires i < |events|
  {
    Taken(events[..i + 1]) >= size || GivesUp(secsToTry, events, i)
  }

  /** The outcome of a write that event `i` ends. */
  function OutcomeAt(size: nat, events: seq<SendEvent>, i: nat): WriteOutcome
    requires i < |events|
  {
    if Taken(events[..i + 1]) >= size then Wrote(size, 0, events[i + 1..])
    else if IsFault(events[i]) then Wrote(Taken(events[..i]), events[i].code, events[i + 1..])
    else Wrote(Taken(events[..i + 1]), EINTR, events[i + 1..])
  }

  /** loop_count after some events. */
  function Loops(before: seq<SendEvent>): nat {
    var k := Interrupts(before);
    if k + 1 >= |before| then |before| else k + 2
  }

  lemma LoopsNext(events: seq<SendEvent>, i: nat)
    requires i < |events|
    ensures Loops(events[..i]) == 0 <==> i == 0
    ensures IsRound1000(events[..i]) <==> Loops(events[..i]) == 1000
    ensures Loops(events[..i + 1]) ==
              if events[i].SendError? then Loops(events[..i]) + 1 else if i == 0 then 1 else 2
  {
    assert events[..i + 1][..i] == events[..i];
  }

  /** One event that does not end the write. */
  lemma WriteStep(size: nat, secsToTry: nat, events: seq<SendEvent>, i: nat)
    requires i < |events| && !Ends(size, secsToTry, events, i) && Taken(events[..i]) <= size
    ensures Taken(events[..i + 1]) < size
    ensures Write(size, Taken(events[..i]), Loops(events[..i]), ExpiredCount(events, i), secsToTry, events[i..]) ==
              Write(size, Taken(events[..i + 1]), Loops(events[..i + 1]), ExpiredCount(events, i + 1), secsToTry,
                    events[i + 1..])
  {
    TakenNext(events, i);
    LoopsNext(events, i);
    assert i == 0 ==> ExpiredCount(events, 1) == ExpiredCount(events, 0) == 0;
    assert ExpiredCount(events, i + 1) == ExpiredCount(events, i) + if Expired(events, i) then 1 else 0;
    assert events[i..][0] == events[i] && events[i..][1..] == events[i + 1..];
    hide Taken, Loops, IsRound1000, Interrupts, ExpiredCount;
  }

  /** What the write has come to before event `i`. */
  lemma {:induction false} WriteGoesOn(size: nat, secsToTry: nat, events: seq<SendEvent>, i: nat)
    requires i <= |events| && forall j :: 0 <= j < i ==> !Ends(size, secsToTry, events, j)
    ensures Taken(events[..i]) <= size && (i > 0 ==> Taken(events[..i]) < size)
    ensures Write(size, 0, 0, 0, secsToTry, events) ==
              Write(size, Taken(events[..i]), Loops(events[..i]), ExpiredCount(events, i), secsToTry, events[i..])
  {
    if i == 0 {
      assert events[0..] == events && events[..0] == [];
      hide Write;
    } else {
      hide *;
      WriteGoesOn(size, secsToTry, events, i - 1);
      WriteStep(size, secsToTry, events, i - 1);
    }
  }

  /** The outcome of a write, read off the script: the first event that ends it
      decides, and a script that runs out takes everything. */
  lemma WriteIsDecided(size: nat, secsToTry: nat, events: seq<SendEvent>, i: nat)
    requires i <= |events| && forall j :: 0 <= j < i ==> !Ends(size, secsToTry, events, j)
    requires i < |events| ==> Ends(size, secsToTry, events, i)
    ensures Write(size, 0, 0, 0, secsToTry, events) ==
              if i < |events| then OutcomeAt(size, events, i) else Wrote(size, 0, [])
  {
    WriteGoesOn(size, secsToTry, events, i);
    if i < |events| {
      TakenNext(events, i);
      LoopsNext(events, i);
      assert events[i..][0] == events[i] && events[i..][1..] == events[i + 1..];
      hide Taken, Loops, IsRound1000, Interrupts;
    }
  }

  /** No fault, and fewer expired rounds than the seconds to try, before the
      script has taken `size` bytes. */
  ghost predicate Delivers(size: nat, secsToTry: nat, events: seq<SendEvent>) {
    forall i :: 0 <= i < |events| && Taken(events[..i + 1]) < size ==> !GivesUp(secsToTry, events, i)
  }

  /** A write succeeds exactly on those scripts. */
  lemma WriteSucceedsIff(size: nat, secsToTry: nat, events: seq<SendEvent>)
    ensures Write(size, 0, 0, 0, secsToTry, events).code == 0 <==> Delivers(size, secsToTry, events)
  {
    var i := FirstEnd(size, secsToTry, events);
    WriteIsDecided(size, secsToTry, events, i);
    hide Write, GivesUp, Taken;
    if i < |events| && Taken(events[..i + 1]) < size {
      assert Ends(size, secsToTry, events, i) && GivesUp(secsToTry, events, i);
    } else {
      forall j | 0 <= j < |events| && Taken(events[..j + 1]) < size ensures !GivesUp(secsToTry, events, j) {
        if j < i {
          assert !Ends(size, secsToTry, events, j);
        } else {
          TakenGrows(events, i + 1, j + 1);
        }
      }
    }
  }

  lemma FirstEnd(size: nat, secsToTry: nat, events: seq<SendEvent>) returns (i: nat)
    ensures i <= |events| && forall j :: 0 <= j < i ==> !Ends(size, secsToTry, events, j)
    ensures i < |events| ==> Ends(size, secsToTry, events, i)
  {
    hide Ends;
    i := 0;
    while i < |events| && !Ends(size, secsToTry, events, i)
      invariant i <= |events| && forall j :: 0 <= j < i ==> !Ends(size, secsToTry, events, j)
    {
      i := i + 1;
    }
  }
}
