/**
 * What the host tools do over the serial line, as functions of the line's
 * state: the bytes that will still arrive (everything that ever will; once
 * they are used up a read returns nothing) and the bytes written so far.
 * `efm8.py` and `flash_tool.py` share the transport, the acknowledged
 * commands and the line loop of `write`; `flash_tool` adds a read-back
 * after each acknowledged frame.
 */
module HostSession {
  import opened Bytes
  import opened HostCodec
  import IntelHex

  /** The host's view of the serial line. */
  datatype Link = Link(rx: seq<byte>, tx: seq<byte>)

  /** How a host call ends other than by returning. */
  datatype Halt =
    | Raised   // an exception (a failed `assert`, `ValueError`, `IndexError`) leaves the call
    | Stalled  // a `while True` loop waits for bytes that never arrive
    | Exited   // `initialize` caught an exception and called `exit(1)`

  /** `serial.write(bytes)`. */
  function Sent(l: Link, bytes: seq<byte>): Link
  {
    l.(tx := l.tx + bytes)
  }

  /** `serial.read(k)`: at most `k` of the bytes that have arrived; fewer when the timeout ends the wait. */
  function Received(l: Link, k: nat): (r: seq<byte>)
    ensures |r| == Min(k, |l.rx|) && r == l.rx[..|r|]
  {
    l.rx[..Min(k, |l.rx|)]
  }

  /** The line after `serial.read(k)`. */
  function AfterRead(l: Link, k: nat): Link
  {
    l.(rx := l.rx[Min(k, |l.rx|)..])
  }

  /**
   * `while True: response = serial.read(size + 1); if len(response) > 1: break`:
   * the first read that returns two or more bytes, or `None` when the loop
   * never ends (a read of one byte can never satisfy it, and neither can a
   * line that has fewer than two bytes left).
   */
  function Awaited(l: Link, size: nat): (r: Option<seq<byte>>)
    ensures r.Some? ==> 1 < |r.value| <= size + 1 && |r.value| <= |l.rx| && r.value == l.rx[..|r.value|]
    ensures r.None? <==> size == 0 || |l.rx| < 2
  {
    if size >= 1 && |l.rx| >= 2 then Some(Received(l, size + 1)) else None
  }

  /** The line after that loop: when it never ends, it has consumed every byte. */
  function AfterAwait(l: Link, size: nat): Link
  {
    if size >= 1 && |l.rx| >= 2 then AfterRead(l, size + 1) else l.(rx := [])
  }

  // ---------------------------------------------------------------------
  // Acknowledged commands: initialize, erase, reset, deviceInfo
  // ---------------------------------------------------------------------

  /** A call that returns nothing, and the line after it. */
  datatype Done = Done(link: Link, outcome: Outcome<Halt>)

  /** `serial.write(request); assert serial.read(1) == ack`. */
  function Acked(l: Link, request: seq<byte>, ack: byte): Done
  {
    var l1 := Sent(l, request);
    Done(AfterRead(l1, 1), if Received(l1, 1) == [ack] then Pass else Fail(Raised))
  }

  /** The two-byte frames of the commands that carry no payload. */
  const InitRequest: seq<byte> := [0x01, 0x00]
  const ResetRequest: seq<byte> := [0x02, 0x00]
  const EraseRequest: seq<byte> := [0x04, 0x00]
  const InfoRequest: seq<byte> := [0x08, 0x00]

  /** `initialize`: any exception there ends the program. */
  function Initialize(l: Link): Done
  {
    var d := Acked(l, InitRequest, 0x81);
    if d.outcome.Pass? then d else Done(d.link, Fail(Exited))
  }

  /** `reset`. */
  function Reset(l: Link): Done
  {
    Acked(l, ResetRequest, 0x82)
  }

  /** `erase`. */
  function Erase(l: Link): Done
  {
    Acked(l, EraseRequest, 0x84)
  }

  /** The identity `deviceInfo` reads, as the bytes `serial.read(1)` returned. */
  datatype Identity = Identity(link: Link, id: Result<seq<byte>, Halt>)

  /**
   * `deviceInfo`: the 0x88 is asserted; the identity and revision bytes are
   * read with `serial.read(1)` and not checked (either may be empty).
   */
  function DeviceInfo(l: Link): Identity
  {
    var l1 := Sent(l, InfoRequest);
    var l2 := AfterRead(l1, 1);
    if Received(l1, 1) != [0x88] then Identity(l2, Err(Raised))
    else
      var id := Received(l2, 1);
      var l3 := AfterRead(l2, 1);
      Identity(AfterRead(l3, 1), Ok(id))
  }

  /** What flash_tool's `getProgrammingInterface` learns from a new interface. */
  datatype Answer = Answer(link: Link, result: Result<bool, Halt>)

  /**
   * `initialize()`, then `deviceInfo() != "39"` with flash_tool's
   * `deviceInfo` returning the identity byte as lower-case hex.
   */
  function Identify(l: Link): Answer
  {
    var i := Initialize(l);
    if i.outcome.Fail? then Answer(i.link, Err(Exited))
    else
      var d := DeviceInfo(i.link);
      match d.id
      case Err(e) => Answer(d.link, Err(e))
      case Ok(id) => Answer(d.link, Ok(HexLower(id) == "39"))
  }

  /** Only the identity byte 0x39 spells "39". */
  lemma LowerHexOf39(id: seq<byte>)
    requires |id| <= 1
    ensures HexLower(id) == "39" <==> id == [0x39]
  {
    if |id| == 1 {
      var b := id[0];
      assert HexLower(id) == [LowerDigits[b / 16], LowerDigits[b % 16]];
      if HexLower(id) == "39" {
        DigitValue(b / 16);
        DigitValue(b % 16);
      }
    }
  }

  /**
   * The interface is accepted exactly when the bridge answers INIT with 0x81
   * and INFO with 0x88 and the identity 0x39.
   */
  lemma IdentifyAccepts(l: Link)
    ensures Identify(l).result == Ok(true) <==> |l.rx| >= 3 && l.rx[..3] == [0x81, 0x88, 0x39]
    ensures Identify(l).link.tx == l.tx + InitRequest + (if Initialize(l).outcome.Pass? then InfoRequest else [])
  {
    var i := Initialize(l);
    if i.outcome.Pass? {
      var l1 := Sent(i.link, InfoRequest);
      var l2 := AfterRead(l1, 1);
      LowerHexOf39(Received(l2, 1));
      if |l.rx| >= 3 {
        assert l.rx[..3] == [l.rx[0], l.rx[1], l.rx[2]];
      }
    }
  }

  // ---------------------------------------------------------------------
  // write: one frame per data record line
  // ---------------------------------------------------------------------

  /** How `write` ends. */
  datatype Verdict =
    | Completed      // every line written and the closing reset acknowledged
    | Rejected       // a frame's answer was not 0x83: `return None`, no reset
    | Mismatch       // flash_tool's read-back reported a difference
    | Halted(why: Halt)

  /** `write` part way through the file. */
  datatype Progress = Going(link: Link) | Ended(link: Link, verdict: Verdict)

  /** flash_tool's `prettyHex`: it prints, and returns Python's `None`. */
  function PrettyHex(address: nat, data: seq<byte>): Option<string>
  {
    None
  }

  /** flash_tool's `read(address, size)`: the request, the wait, and the value of `prettyHex`. */
  datatype Shown = Shown(link: Link, value: Result<Option<string>, Halt>)

  function ReadBack(l: Link, address: nat, size: nat): Shown
  {
    if size > 0xFF then Shown(l, Err(Raised))  // pyserial refuses the request list
    else
    var l1 := Sent(l, ReadRequest(address, size));
    match Awaited(l1, size)
    case None => Shown(AfterAwait(l1, size), Err(Stalled))
    case Some(response) => Shown(AfterAwait(l1, size), Ok(PrettyHex(address, response[1..])))
  }

  /**
   * One line of the file in `write`, once its checks are done: skip it,
   * raise, or send its frame and read one byte; anything but 0x83 ends the
   * loop.  With `readBack` (flash_tool) the block is then read back and the
   * value `read` returns is compared with the one `prettyHex` returned for
   * the data.
   */
  function LineStep(readBack: bool, p: Progress, item: Decoded): Progress
  {
    match p
    case Ended(_, _) => p
    case Going(l) =>
      match item
      case Skip => p
      case Raise => Ended(l, Halted(Raised))
      case Frame(address, data, frame) =>
        var l1 := Sent(l, frame);
        var l2 := AfterRead(l1, 1);
        if Received(l1, 1) != [0x83] then Ended(l2, Rejected)
        else if !readBack then Going(l2)
        else
          var expected := PrettyHex(address, data);
          var shown := ReadBack(l2, address, |data|);
          match shown.value
          case Err(why) => Ended(shown.link, Halted(why))
          case Ok(value) => if value != expected then Ended(shown.link, Mismatch) else Going(shown.link)
  }

  /** The checks of `write` on every line of the file, in order. */
  function DecodeAll(lines: seq<string>): (items: seq<Decoded>)
    ensures |items| == |lines| && forall i :: 0 <= i < |lines| ==> items[i] == DecodeLine(lines[i])
  {
    seq(|lines|, i requires 0 <= i < |lines| => DecodeLine(lines[i]))
  }

  /** The `for line in lines` loop of `write`, over the checked lines. */
  function WriteLines(readBack: bool, l: Link, items: seq<Decoded>): Progress
  {
    if items == [] then Going(l)
    else LineStep(readBack, WriteLines(readBack, l, items[..|items| - 1]), items[|items| - 1])
  }

  /** `write`: the loop, then `reset` when the loop ran to the end. */
  function WriteSession(readBack: bool, l: Link, lines: seq<string>): (p: Progress)
    ensures p.Ended?
  {
    match WriteLines(readBack, l, DecodeAll(lines))
    case Ended(l', v) => Ended(l', v)
    case Going(l') =>
      var r := Reset(l');
      Ended(r.link, if r.outcome.Pass? then Completed else Halted(Raised))
  }

  /** The frames of the data record lines, in order. */
  function Frames(items: seq<Decoded>): seq<byte>
  {
    if items == [] then []
    else Frames(items[..|items| - 1]) + match items[|items| - 1] { case Frame(_, _, f) => f case _ => [] }
  }

  /** How many lines are data records. */
  function DataLines(items: seq<Decoded>): nat
  {
    if items == [] then 0
    else DataLines(items[..|items| - 1]) + if items[|items| - 1].Frame? then 1 else 0
  }

  /** Every line passes the checks of `write`. */
  predicate Decodable(items: seq<Decoded>)
  {
    forall i :: 0 <= i < |items| ==> !items[i].Raise?
  }

  /** `k` acknowledgements of WRITE frames. */
  function WriteAcks(k: nat): (s: seq<byte>)
    ensures |s| == k && forall i :: 0 <= i < k ==> s[i] == 0x83
  {
    seq(k, _ => 0x83)
  }

  // ---------------------------------------------------------------------
  // efm8's read: one request and one record per chunk
  // ---------------------------------------------------------------------

  /** `range(start, end, chunk)`. */
  function Chunks(start: nat, end: nat, chunk: nat): (c: seq<nat>)
    requires chunk > 0
    ensures forall i :: 0 <= i < |c| ==> c[i] == start + i * chunk && c[i] < end
    ensures c == [] <==> start >= end
    ensures c != [] ==> c[|c| - 1] + chunk >= end
    decreases end - start
  {
    if start >= end then [] else [start] + Chunks(start + chunk, end, chunk)
  }

  /** The records written so far, and whether the loop is stuck waiting. */
  datatype Dump = Dump(link: Link, lines: seq<string>, stalled: bool)

  /** One iteration of efm8's `read` loop. */
  function ReadChunk(d: Dump, address: nat, chunk: byte): Dump
  {
    if d.stalled then d
    else
      var l1 := Sent(d.link, ReadRequest(address, chunk));
      match Awaited(l1, chunk)
      case None => Dump(AfterAwait(l1, chunk), d.lines, true)
      case Some(response) =>
        Dump(AfterAwait(l1, chunk), d.lines + [IntelHex.RecordLine(chunk, address, response[1..])], false)
  }

  /** efm8's `read` over the given addresses. */
  function ReadAll(l: Link, addresses: seq<nat>, chunk: byte): Dump
  {
    if addresses == [] then Dump(l, [], false)
    else ReadChunk(ReadAll(l, addresses[..|addresses| - 1], chunk), addresses[|addresses| - 1], chunk)
  }

  /** The read requests for the given addresses, in order. */
  function Requests(addresses: seq<nat>, chunk: byte): seq<byte>
  {
    if addresses == [] then []
    else Requests(addresses[..|addresses| - 1], chunk) + ReadRequest(addresses[|addresses| - 1], chunk)
  }

  // ---------------------------------------------------------------------
  // Properties of write
  // ---------------------------------------------------------------------

  /** Once `write` has ended, later lines change nothing. */
  lemma {:induction false} EndedStays(readBack: bool, l: Link, items: seq<Decoded>, k: nat)
    requires k <= |items| && WriteLines(readBack, l, items[..k]).Ended?
    ensures WriteLines(readBack, l, items) == WriteLines(readBack, l, items[..k])
    decreases |items|
  {
    if k < |items| {
      var front := items[..|items| - 1];
      assert front[..k] == items[..k];
      EndedStays(readBack, l, front, k);
    } else {
      assert items[..k] == items;
    }
  }

  /**
   * `write` stops at the first frame whose answer is not 0x83: the frame is
   * the last thing it sends (no later frame and no reset), and the verdict is
   * `Rejected`.
   */
  lemma StopsAtFirstRejection(readBack: bool, l: Link, lines: seq<string>, k: nat)
    requires k < |lines| && WriteLines(readBack, l, DecodeAll(lines)[..k]).Going?
    requires DecodeLine(lines[k]).Frame?
    requires Received(Sent(WriteLines(readBack, l, DecodeAll(lines)[..k]).link, DecodeLine(lines[k]).frame), 1) != [0x83]
    ensures var g := WriteLines(readBack, l, DecodeAll(lines)[..k]).link;
            WriteSession(readBack, l, lines) == Ended(AfterRead(Sent(g, DecodeLine(lines[k]).frame), 1), Rejected)
  {
    var items := DecodeAll(lines);
    assert items[k] == DecodeLine(lines[k]);
    RejectionEnds(readBack, l, items, k);
  }

  /** `StopsAtFirstRejection` over the checked lines. */
  lemma RejectionEnds(readBack: bool, l: Link, items: seq<Decoded>, k: nat)
    requires k < |items| && WriteLines(readBack, l, items[..k]).Going? && items[k].Frame?
    requires Received(Sent(WriteLines(readBack, l, items[..k]).link, items[k].frame), 1) != [0x83]
    ensures var g := WriteLines(readBack, l, items[..k]).link;
            WriteLines(readBack, l, items) == Ended(AfterRead(Sent(g, items[k].frame), 1), Rejected)
  {
    assert items[..k + 1][..k] == items[..k];
    EndedStays(readBack, l, items, k + 1);
  }

  /** The loop alone never reports `Completed`: only the closing reset does. */
  lemma {:induction false} LoopNeverCompletes(readBack: bool, l: Link, items: seq<Decoded>)
    ensures WriteLines(readBack, l, items).Ended? ==> WriteLines(readBack, l, items).verdict != Completed
    decreases |items|
  {
    if items != [] {
      LoopNeverCompletes(readBack, l, items[..|items| - 1]);
    }
  }

  /** A frame efm8's loop gets past was answered 0x83, and it was sent. */
  lemma AckedFrame(g: Link, item: Decoded)
    requires item.Frame? && LineStep(false, Going(g), item).Going?
    ensures var h := LineStep(false, Going(g), item).link;
            g.rx == [0x83] + h.rx && h.tx == g.tx + item.frame
  {
  }

  /**
   * efm8's loop runs to the end only when every line passes its checks and
   * every frame was answered 0x83; it has then sent exactly the frames of
   * the data records.
   */
  lemma {:induction false} LoopRanToEnd(l: Link, items: seq<Decoded>)
    requires WriteLines(false, l, items).Going?
    ensures var g := WriteLines(false, l, items).link;
            && Decodable(items)
            && l.rx == WriteAcks(DataLines(items)) + g.rx
            && g.tx == l.tx + Frames(items)
    decreases |items|
  {
    if items != [] {
      var front, last := items[..|items| - 1], items[|items| - 1];
      var p := WriteLines(false, l, front);
      assert p.Going?;
      LoopRanToEnd(l, front);
      if last.Frame? {
        AckedFrame(p.link, last);
        assert WriteAcks(DataLines(front)) + [0x83] == WriteAcks(DataLines(items));
      }
    }
  }

  /** Conversely, decodable lines and one 0x83 per frame carry the loop to its end. */
  lemma {:induction false} AckedToEnd(l: Link, items: seq<Decoded>, rest: seq<byte>)
    requires Decodable(items) && l.rx == WriteAcks(DataLines(items)) + rest
    ensures WriteLines(false, l, items) == Going(Link(rest, l.tx + Frames(items)))
    decreases |items|
  {
    if items != [] {
      var front, last := items[..|items| - 1], items[|items| - 1];
      var k := DataLines(front);
      assert Decodable(front) && !last.Raise? && items[..|items| - 1] == front;
      if last.Frame? {
        assert WriteAcks(k + 1) == WriteAcks(k) + [0x83];
        ConcatAssoc(WriteAcks(k), [0x83], rest);
        AckedToEnd(l, front, [0x83] + rest);
        ConcatAssoc(l.tx, Frames(front), last.frame);
      } else {
        AckedToEnd(l, front, rest);
        assert Frames(items) == Frames(front) + [];
      }
    }
  }

  /**
   * efm8's `write` completes exactly when every line passes its checks, each
   * frame is answered 0x83 and the reset 0x82; it has then sent the frames of
   * the data records followed by `02 00`.
   */
  lemma WriteCompletes(l: Link, lines: seq<string>)
    ensures var items := DecodeAll(lines);
            var d := DataLines(items);
            WriteSession(false, l, lines).verdict == Completed
            <==> Decodable(items) && |l.rx| > d && l.rx[..d + 1] == WriteAcks(d) + [0x82]
    ensures WriteSession(false, l, lines).verdict == Completed ==>
              WriteSession(false, l, lines).link.tx == l.tx + Frames(DecodeAll(lines)) + ResetRequest
  {
    var items := DecodeAll(lines);
    LoopCompletes(l, items);
    LoopNeverCompletes(false, l, items);
  }

  /** `WriteCompletes` over the checked lines: the loop runs to its end and the reset is acknowledged. */
  lemma LoopCompletes(l: Link, items: seq<Decoded>)
    ensures var p := WriteLines(false, l, items);
            var d := DataLines(items);
            p.Going? && Reset(p.link).outcome.Pass?
            <==> Decodable(items) && |l.rx| > d && l.rx[..d + 1] == WriteAcks(d) + [0x82]
    ensures var p := WriteLines(false, l, items);
            p.Going? ==> p.link.tx == l.tx + Frames(items)
  {
    var d := DataLines(items);
    var p := WriteLines(false, l, items);
    if p.Going? {
      var g := p.link;
      LoopRanToEnd(l, items);
      assert Reset(g).outcome.Pass? <==> |g.rx| > 0 && g.rx[0] == 0x82;
      assert |l.rx| > d <==> |g.rx| > 0;
      if |l.rx| > d {
        assert l.rx[..d + 1] == WriteAcks(d) + [g.rx[0]];
        assert l.rx[..d + 1][d] == g.rx[0];
      }
    } else if Decodable(items) && |l.rx| > d && l.rx[..d + 1] == WriteAcks(d) + [0x82] {
      assert l.rx == WriteAcks(d) + l.rx[d..];
      AckedToEnd(l, items, l.rx[d..]);
      assert false;
    }
  }

  /** flash_tool's read-back never reports a difference: both sides of the comparison are `None`. */
  lemma {:induction false} ReadBackNeverMismatches(l: Link, items: seq<Decoded>)
    ensures WriteLines(true, l, items).Ended? ==> WriteLines(true, l, items).verdict != Mismatch
    decreases |items|
  {
    if items != [] {
      ReadBackNeverMismatches(l, items[..|items| - 1]);
    }
  }

  /** Hence flash_tool's `write` never ends with a reported mismatch. */
  lemma NoMismatchReported(l: Link, lines: seq<string>)
    ensures WriteSession(true, l, lines).verdict != Mismatch
  {
    ReadBackNeverMismatches(l, DecodeAll(lines));
  }

  /**
   * flash_tool's `write` never gets past an acknowledged data record with no
   * data: the read-back asks for zero bytes and waits for two.
   */
  lemma EmptyRecordStalls(g: Link, line: string)
    requires DecodeLine(line).Frame? && DecodeLine(line).data == []
    requires Received(Sent(g, DecodeLine(line).frame), 1) == [0x83]
    ensures LineStep(true, Going(g), DecodeLine(line)).Ended?
    ensures LineStep(true, Going(g), DecodeLine(line)).verdict == Halted(Stalled)
  {
  }

  // ---------------------------------------------------------------------
  // Properties of efm8's read
  // ---------------------------------------------------------------------

  /** A line `read` writes for the request at `address`: a valid data record with the chunk size as its count. */
  predicate RecordFor(line: string, chunk: byte, address: nat)
  {
    var r := IntelHex.ParseRecord(line);
    && r.Some?
    && IntelHex.ValidDataRecord(r.value)
    && r.value[0] == chunk
    && r.value[1] as int * 0x100 + r.value[2] == address % 0x1_0000
    && 6 <= |r.value| <= chunk + 5
  }

  /** One iteration of `read`: it sends the request, then writes one record or gets stuck. */
  lemma ChunkStep(d: Dump, address: nat, chunk: byte)
    requires !d.stalled
    ensures var e := ReadChunk(d, address, chunk);
            && e.link.tx == d.link.tx + ReadRequest(address, chunk)
            && (e.stalled ==> e.lines == d.lines)
            && (!e.stalled ==> e.lines == d.lines + [e.lines[|d.lines|]] && RecordFor(e.lines[|d.lines|], chunk, address))
  {
    var l1 := Sent(d.link, ReadRequest(address, chunk));
    match Awaited(l1, chunk)
    case None =>
    case Some(response) =>
      IntelHex.EmittedRecord(chunk, address, response[1..]);
  }

  /**
   * `read` sends every request unless it is stuck waiting, and writes one
   * record per answered request; when stuck it has written one record fewer
   * than requests sent.
   */
  lemma {:induction false} ReadSendsRequests(l: Link, addresses: seq<nat>, chunk: byte)
    ensures var d := ReadAll(l, addresses, chunk);
            && |d.lines| <= |addresses|
            && (d.stalled ==> |d.lines| < |addresses|)
            && (!d.stalled ==> |d.lines| == |addresses| && d.link.tx == l.tx + Requests(addresses, chunk))
    decreases |addresses|
  {
    if addresses != [] {
      var front, address := addresses[..|addresses| - 1], addresses[|addresses| - 1];
      ReadSendsRequests(l, front, chunk);
      var d0 := ReadAll(l, front, chunk);
      var d := ReadChunk(d0, address, chunk);
      assert ReadAll(l, addresses, chunk) == d;
      if !d0.stalled {
        assert && d.link.tx == d0.link.tx + ReadRequest(address, chunk)
               && (d.stalled ==> d.lines == d0.lines)
               && (!d.stalled ==> |d.lines| == |d0.lines| + 1) by {
          ChunkStep(d0, address, chunk);
        }
        ConcatAssoc(l.tx, Requests(front, chunk), ReadRequest(address, chunk));
      }
    }
  }

  /** Every line `read` writes is a valid data record for its request, in request order. */
  lemma {:induction false} ReadWritesRecords(l: Link, addresses: seq<nat>, chunk: byte)
    ensures var d := ReadAll(l, addresses, chunk);
            |d.lines| <= |addresses| && forall i :: 0 <= i < |d.lines| ==> RecordFor(d.lines[i], chunk, addresses[i])
    decreases |addresses|
  {
    if addresses != [] {
      var front, address := addresses[..|addresses| - 1], addresses[|addresses| - 1];
      ReadWritesRecords(l, front, chunk);
      var d0 := ReadAll(l, front, chunk);
      if !d0.stalled {
        ReadSendsRequests(l, front, chunk);
        ChunkStep(d0, address, chunk);
        var lines := ReadAll(l, addresses, chunk).lines;
        forall i | 0 <= i < |lines|
          ensures RecordFor(lines[i], chunk, addresses[i])
        {
          if i < |d0.lines| {
            assert lines[i] == d0.lines[i] && addresses[i] == front[i];
          } else {
            assert i == |front| && addresses[i] == address;
          }
        }
      }
    }
  }

  /** Once `read` is stuck waiting, later addresses change nothing. */
  lemma {:induction false} StalledStays(l: Link, addresses: seq<nat>, k: nat, chunk: byte)
    requires k <= |addresses| && ReadAll(l, addresses[..k], chunk).stalled
    ensures ReadAll(l, addresses, chunk) == ReadAll(l, addresses[..k], chunk)
    decreases |addresses|
  {
    if k < |addresses| {
      var front := addresses[..|addresses| - 1];
      assert front[..k] == addresses[..k];
      StalledStays(l, front, k, chunk);
    } else {
      assert addresses[..k] == addresses;
    }
  }
}
