/** The connection object of comm/ic_connection.c and the line operations that
    comm/ic_protocol_support.c performs on its two fixed buffers. */
module Connections {
  import opened Framing
  import opened ByteStream

  /** The effect of ic_send_with_cr and flush_connection on what is buffered
      and what the socket has taken. */
  datatype SendState = SendState(pending: string, accepted: string, code: int, events: seq<SendEvent>)

  /** Hand the whole write buffer to the socket; it is emptied even on error. */
  function FlushPending(pending: string, accepted: string, events: seq<SendEvent>): SendState {
    var w := Write(|pending|, 0, 0, 0, 1, events);
    SendState("", accepted + pending[..w.written], w.code, w.events)
  }

  function SendLine(size: nat, pending: string, accepted: string, events: seq<SendEvent>, line: string): SendState {
    if |pending| + |line| + 1 > size then
      var f := FlushPending(pending, accepted, events);
      if f.code != 0 then f else f.(pending := line + [CR])
    else SendState(pending + line + [CR], accepted, 0, events)
  }

  /** ic_send_empty_line: an empty line, then a flush. */
  function SendEmptyLine(size: nat, pending: string, accepted: string, events: seq<SendEvent>): SendState {
    var s := SendLine(size, pending, accepted, events, "");
    if s.code != 0 then s else FlushPending(s.pending, s.accepted, s.events)
  }

  /** What a connection whose receive failed will treat as unread on the next
      call: its buffer `was`, filled to `sizeWas` and read up to `pos`, was
      compacted and extended to `seen`, but the old fill is kept. */
  function StaleUnread(was: string, sizeWas: nat, seen: string): string
    requires sizeWas <= |was| && |seen| <= |was|
  {
    (seen + was[|seen|..])[..sizeWas]
  }

  class Connection {
    const readBuf: array<char>
    const writeBuf: array<char>
    var sizeCurrReadBuf: nat
    var readBufPos: nat
    var writeBufPos: nat

    // The socket, as an environment.
    var incoming: seq<RecvEvent>
    var outgoing: seq<SendEvent>
    var accepted: string

    ghost predicate Valid()
      reads this
    {
      && readBuf != writeBuf
      && readBufPos <= sizeCurrReadBuf <= readBuf.Length
      && writeBufPos <= writeBuf.Length
    }

    ghost function Unread(): (s: string)
      requires Valid()
      reads this, readBuf
      ensures |s| <= readBuf.Length
    {
      readBuf[readBufPos..sizeCurrReadBuf]
    }

    ghost function Pending(): string
      requires Valid()
      reads this, writeBuf
    {
      writeBuf[..writeBufPos]
    }

    /** int_create_socket_object gives both buffers the same size. */
    constructor (bufSize: nat, incoming: seq<RecvEvent>, outgoing: seq<SendEvent>)
      ensures Valid() && fresh(readBuf) && fresh(writeBuf)
      ensures readBuf.Length == writeBuf.Length == bufSize
      ensures Unread() == "" && Pending() == "" && accepted == ""
      ensures this.incoming == incoming && this.outgoing == outgoing
    {
      var r := new char[bufSize](_ => '\0');
      var w := new char[bufSize](_ => '\0');
      readBuf, writeBuf := r, w;
      sizeCurrReadBuf, readBufPos, writeBufPos := 0, 0, 0;
      this.incoming, this.outgoing, accepted := incoming, outgoing, "";
    }

    // ----- receiving -----

    /** read_socket_connection: put what one recv delivers at `offset`, trying
        again when interrupted. */
    method ReadConnection(offset: nat) returns (code: int, readSize: nat)
      requires Valid() && offset <= readBuf.Length
      modifies this`incoming, readBuf
      ensures var r := Read(old(incoming), readBuf.Length - offset);
              && incoming == r.net
              && (r.Got? ==>
                    && code == 0 && readSize == |r.data|
                    && (forall k :: 0 <= k < readSize ==> readBuf[offset + k] == r.data[k])
                    && (forall k :: 0 <= k < readBuf.Length && !(offset <= k < offset + readSize) ==>
                          readBuf[k] == old(readBuf[k])))
              && (r.NotRead? ==> code == r.code && readSize == 0 && readBuf[..] == old(readBuf[..]))
    {
      hide Stream;
      var room := readBuf.Length - offset;
      while true
        invariant Read(incoming, room) == Read(old(incoming), room)
        invariant readBuf[..] == old(readBuf[..])
        decreases |incoming|
      {
        if room == 0 || incoming == [] {
          return END_OF_FILE, 0;
        }
        match incoming[0] {
          case Arrived(d) =>
            var n := if |d| <= room then |d| else room;
            forall i | 0 <= i < n {
              readBuf[offset + i] := d[i];
            }
            incoming := if n == |d| then incoming[1..] else [Arrived(d[n..])] + incoming[1..];
            assert n == |d| ==> d[..n] == d;
            return 0, n;
          case PeerClosed =>
            return END_OF_FILE, 0;
          case NotReady =>
            incoming := incoming[1..];
          case RecvError(e) =>
            incoming := incoming[1..];
            if e != EINTR {
              return e, 0;
            }
        }
      }
    }

    /** The connection after a receive that amounts to `o`. On success the line
        is readBuf[..readSize]. On error the sizes kept in the connection are
        not brought up to date: `was` and `sizeWas` are the buffer and its fill
        before the call. */
    ghost predicate Received(o: RecOutcome, code: int, readSize: nat, was: seq<char>, sizeWas: nat)
      requires Valid()
      reads this, readBuf
    {
      && incoming == o.net
      && (o.Line? ==>
            && code == 0
            && readSize == |o.line| < readBuf.Length
            && readBuf[..readSize] == o.line
            && readBufPos == readSize + 1
            && readBuf[readSize] == CR
            && Unread() == o.rest)
      && (o.NoLine? ==>
            && code == o.code
            && readSize == 0
            && sizeCurrReadBuf == sizeWas
            && readBufPos == 0
            && |o.seen| <= |was|
            && readBuf[..] == o.seen + was[|o.seen|..]
            && sizeWas <= |was|
            && Unread() == StaleUnread(was, sizeWas, o.seen))
    }

    /** ic_rec_with_cr; `readCount` is the number of successful reads it made. */
    method RecWithCr() returns (code: int, readSize: nat, ghost readCount: nat)
      requires Valid()
      modifies this`incoming, this`sizeCurrReadBuf, this`readBufPos, readBuf
      ensures Valid()
      ensures var o := ReceiveLine(readBuf.Length, old(Unread()), old(incoming));
              Received(o, code, readSize, old(readBuf[..]), old(sizeCurrReadBuf)) && readCount == o.readCount
    {
      ghost var goal := ReceiveLine(readBuf.Length, Unread(), incoming);
      ghost var was, fill := readBuf[..], sizeCurrReadBuf;
      hide ReceiveLine, Stream;
      var sizeCurr: nat := Compact();
      readCount := 0;
      assert readBuf[sizeCurr..] == was[sizeCurr..];
      assert Receiving(sizeCurr, goal, 0, was, fill);
      hide *;
      while true
        invariant Receiving(sizeCurr, goal, readCount, was, fill)
        decreases |Stream(incoming)|
      {
        var done, next;
        done, code, readSize, next := ReceiveRound(sizeCurr, goal, readCount, was, fill);
        if done {
          return;
        }
        sizeCurr, readCount := next, readCount + 1;
      }
    }

    /** Midway through a receive: no line yet in the first `sizeCurr` bytes that
        was looked for, and `readCount` reads made towards `goal`. */
    ghost predicate Receiving(sizeCurr: nat, goal: RecOutcome, readCount: nat, was: seq<char>, fill: nat)
      reads this, readBuf
    {
      && Valid() && sizeCurr <= readBuf.Length == |was| && fill <= |was|
      && sizeCurrReadBuf == fill && readBufPos == 0 && readBuf[sizeCurr..] == was[sizeCurr..]
      && AfterReads(ReceiveLine(readBuf.Length, readBuf[..sizeCurr], incoming), readCount) == goal
    }

    /** One round of ic_rec_with_cr: it ends the call, or reads more. */
    method ReceiveRound(sizeCurr: nat, ghost goal: RecOutcome, ghost readCount: nat, ghost was: seq<char>,
                        ghost fill: nat)
      returns (done: bool, code: int, readSize: nat, next: nat)
      requires Receiving(sizeCurr, goal, readCount, was, fill)
      modifies this`incoming, this`sizeCurrReadBuf, this`readBufPos, readBuf
      ensures Valid()
      ensures done ==> Received(goal, code, readSize, was, fill) && readCount == goal.readCount
      ensures !done ==> Receiving(next, goal, readCount + 1, was, fill) && |Stream(incoming)| < |Stream(old(incoming))|
    {
      hide ReceiveLine, Stream, Received;
      done, code, readSize, next := true, 0, 0, sizeCurr;
      if sizeCurr > 0 {
        var inx := FindCR(sizeCurr);
        if inx != sizeCurr {
          ghost var o := ReceiveLine(readBuf.Length, readBuf[..sizeCurr], incoming);
          ReportLine(sizeCurr, inx, was, fill);
          CountIsNoPart(o, readCount, 0, inx, was, fill);
          readSize := inx;
          return;
        }
      }
      ghost var here := readBuf[..sizeCurr];
      var n;
      code, n := WaitAndRead(sizeCurr);
      if code != 0 {
        ReportError(sizeCurr, code, was, fill);
        CountIsNoPart(NoLine(code, here, incoming, 0), readCount, code, 0, was, fill);
      } else {
        done, next := false, sizeCurr + n;
        assert readBuf[next..] == was[next..];
      }
    }

    /** What is left behind does not depend on the number of reads. */
    lemma CountIsNoPart(o: RecOutcome, n: nat, code: int, readSize: nat, was: seq<char>, fill: nat)
      requires Valid() && Received(o, code, readSize, was, fill)
      ensures Received(AfterReads(o, n), code, readSize, was, fill) && AfterReads(o, n).readCount == o.readCount + n
    {
    }

    lemma ReportError(sizeCurr: nat, code: Errno, was: seq<char>, fill: nat)
      requires Valid() && sizeCurr <= readBuf.Length == |was| && fill <= |was|
      requires sizeCurrReadBuf == fill && readBufPos == 0 && readBuf[sizeCurr..] == was[sizeCurr..]
      ensures Received(NoLine(code, readBuf[..sizeCurr], incoming, 0), code, 0, was, fill)
    {
      assert readBuf[..] == readBuf[..sizeCurr] + was[sizeCurr..];
      assert readBuf[..][..fill] == readBuf[0..fill];
    }

    /** A line was found: remember how far the buffer is filled and read. */
    method ReportLine(sizeCurr: nat, inx: nat, ghost was: seq<char>, ghost fill: nat)
      requires Valid() && inx < sizeCurr <= readBuf.Length && inx == FirstCR(readBuf[..sizeCurr])
      modifies this`sizeCurrReadBuf, this`readBufPos
      ensures Valid()
      ensures Received(ReceiveLine(readBuf.Length, readBuf[..sizeCurr], incoming), 0, inx, was, fill)
      ensures ReceiveLine(readBuf.Length, readBuf[..sizeCurr], incoming).readCount == 0
    {
      sizeCurrReadBuf := sizeCurr;
      readBufPos := inx + 1;
      assert readBuf[..sizeCurr][inx + 1..] == readBuf[inx + 1..sizeCurr];
      assert readBuf[..sizeCurr][..inx] == readBuf[..inx];
    }

    /** One round of waiting for data and reading it behind the `sizeCurr` bytes
        that hold no line yet: either the receive fails here, or it goes on
        from the longer buffer. */
    method WaitAndRead(sizeCurr: nat) returns (code: int, n: nat)
      requires Valid() && sizeCurr <= readBuf.Length && CR !in readBuf[..sizeCurr]
      modifies this`incoming, readBuf
      ensures sizeCurr + n <= readBuf.Length
      ensures forall k :: sizeCurr + n <= k < readBuf.Length ==> readBuf[k] == old(readBuf[k])
      ensures var o := ReceiveLine(readBuf.Length, old(readBuf[..sizeCurr]), old(incoming));
              if code != 0 then
                code > 0 && n == 0 && readBuf[..] == old(readBuf[..]) &&
                    o == NoLine(code, readBuf[..sizeCurr], incoming, 0)
              else
                && o == AfterReads(ReceiveLine(readBuf.Length, readBuf[..sizeCurr + n], incoming), 1)
                && |Stream(incoming)| < |Stream(old(incoming))|
    {
      hide Stream, Read, ReceiveLine;
      ReceiveFails(readBuf.Length, readBuf[..sizeCurr], incoming);
      if !DataReady(incoming) {
        incoming := Polled(incoming);
        return RECEIVE_TIMEOUT, 0;
      }
      ghost var net, before := incoming, readBuf[..sizeCurr];
      code, n := ReadConnection(sizeCurr);
      if code == 0 {
        ReadThenReceive(readBuf.Length, before, net);
        assert readBuf[..sizeCurr + n] == before + Read(net, readBuf.Length - |before|).data;
      }
    }

    /** An outcome reached after some more reads. */
    static function AfterReads(o: RecOutcome, n: nat): RecOutcome {
      o.(readCount := o.readCount + n)
    }

    /** Slide the unread bytes to the front of the buffer. */
    method Compact() returns (sizeCurr: nat)
      requires Valid()
      modifies this`readBufPos, readBuf
      ensures sizeCurr == |old(Unread())| && readBufPos == 0
      ensures readBuf[..sizeCurr] == old(Unread())
      ensures forall k :: sizeCurr <= k < readBuf.Length ==> readBuf[k] == old(readBuf[k])
    {
      sizeCurr := sizeCurrReadBuf;
      if sizeCurr > 0 {
        var pos := readBufPos;
        sizeCurr := sizeCurr - pos;
        forall i | 0 <= i < sizeCurr {
          readBuf[i] := readBuf[pos + i];
        }
        readBufPos := 0;
      }
    }

    method FindCR(sizeCurr: nat) returns (inx: nat)
      requires sizeCurr <= readBuf.Length
      ensures inx == FirstCR(readBuf[..sizeCurr])
    {
      inx := 0;
      while inx < sizeCurr && readBuf[inx] != CR
        invariant inx <= sizeCurr
        invariant CR !in readBuf[..inx]
      {
        inx := inx + 1;
      }
      if inx < sizeCurr {
        assert readBuf[..sizeCurr] == readBuf[..inx] + [CR] + readBuf[inx + 1..sizeCurr];
        FirstCRUnique(readBuf[..inx], readBuf[inx + 1..sizeCurr]);
      }
    }

    /** ic_step_back_rec_with_cr, used right after a line of `readSize` bytes. */
    method StepBack(readSize: nat)
      requires Valid() && readSize + 1 <= readBufPos
      modifies this`readBufPos
      ensures Valid()
      ensures Unread() == readBuf[old(readBufPos) - readSize - 1..old(readBufPos)] + old(Unread())
    {
      readBufPos := readBufPos - (readSize + 1);
    }

    // ----- sending -----

    /** write_socket_connection with handle_return_write. */
    method WriteConnection(buf: string, secsToTry: nat) returns (code: int)
      modifies this`outgoing, this`accepted
      ensures var w := Write(|buf|, 0, 0, 0, secsToTry, old(outgoing));
              code == w.code && outgoing == w.events && accepted == old(accepted) + buf[..w.written]
    {
      var writeSize, loopCount, secsCount := 0, 0, 0;
      while true
        invariant writeSize <= |buf|
        invariant accepted == old(accepted) + buf[..writeSize]
        invariant Write(|buf|, writeSize, loopCount, secsCount, secsToTry, outgoing)
               == Write(|buf|, 0, 0, 0, secsToTry, old(outgoing))
        decreases |outgoing|
      {
        if outgoing == [] {
          accepted := accepted + buf[writeSize..];
          assert buf[..writeSize] + buf[writeSize..] == buf;
          return 0;
        }
        var event := outgoing[0];
        outgoing := outgoing[1..];
        if event.Sent? {
          var w := if writeSize + event.n < |buf| then writeSize + event.n else |buf|;
          accepted := accepted + buf[writeSize..w];
          assert buf[..writeSize] + buf[writeSize..w] == buf[..w];
          writeSize := w;
        }
        if writeSize == |buf| {
          return 0;
        }
        if loopCount == 0 {
          secsCount := 0;
        }
        if event.SendError? {
          if event.code != EINTR {
            return event.code;
          }
        } else if loopCount > 0 {
          if event.late || loopCount == 1000 {
            secsCount := secsCount + 1;
            if secsCount >= secsToTry {
              return EINTR;
            }
          }
          loopCount := 1;
        }
        loopCount := loopCount + 1;
      }
    }

    /** flush_connection. */
    method Flush() returns (code: int)
      requires Valid()
      modifies this`outgoing, this`accepted, this`writeBufPos
      ensures Valid() && writeBufPos == 0
      ensures SendState(Pending(), accepted, code, outgoing)
           == FlushPending(old(Pending()), old(accepted), old(outgoing))
    {
      code := WriteConnection(writeBuf[..writeBufPos], 1);
      writeBufPos := 0;
    }

    /** ic_send_with_cr: the source asserts that a line and its CR leave room. */
    method SendWithCr(line: string) returns (code: int)
      requires Valid() && |line| + 1 < writeBuf.Length
      modifies this`outgoing, this`accepted, this`writeBufPos, writeBuf
      ensures Valid()
      ensures SendState(Pending(), accepted, code, outgoing)
           == SendLine(writeBuf.Length, old(Pending()), old(accepted), old(outgoing), line)
    {
      if writeBufPos + |line| + 1 > writeBuf.Length {
        code := Flush();
        if code != 0 {
          return code;
        }
      }
      var start := writeBufPos;
      ghost var before := writeBuf[..start];
      forall i | 0 <= i < |line| {
        writeBuf[start + i] := line[i];
      }
      writeBufPos := writeBufPos + |line|;
      writeBuf[writeBufPos] := CR;
      writeBufPos := writeBufPos + 1;
      assert writeBuf[..writeBufPos] == before + line + [CR];
      return 0;
    }

    /** ic_send_empty_line. */
    method SendEmpty() returns (code: int)
      requires Valid() && 1 < writeBuf.Length
      modifies this`outgoing, this`accepted, this`writeBufPos, writeBuf
      ensures Valid()
      ensures SendState(Pending(), accepted, code, outgoing)
           == SendEmptyLine(writeBuf.Length, old(Pending()), old(accepted), old(outgoing))
    {
      code := SendWithCr("");
      if code != 0 {
        return code;
      }
      code := Flush();
    }
  }
}
