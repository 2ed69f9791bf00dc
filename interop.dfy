/**
 * The two ends together: the frames the host tools build, fed byte by byte
 * into the bridge's `loop`, and the bridge's answers read back by the host.
 */
module Interop {
  import opened Bytes
  import opened BridgeSpec
  import opened HostCodec
  import opened HostSession

  /** Bytes fed one after another: the second part starts where the first ended. */
  lemma {:induction false} FeedConcat(cfg: Config, dev: Device, b: Bridge, x: seq<byte>, y: seq<byte>)
    requires Valid(b)
    ensures Feed(cfg, dev, b, x + y) == Feed(cfg, dev, Feed(cfg, dev, b, x), y)
    decreases |y|
  {
    if y == [] {
      assert x + y == x;
    } else {
      var n := |y| - 1;
      assert (x + y)[..|x + y| - 1] == x + y[..n] && (x + y)[|x + y| - 1] == y[n];
      FeedConcat(cfg, dev, b, x, y[..n]);
    }
  }

  /** A checked line whose frame is the write frame for its address and data. */
  predicate Framed(d: Decoded)
  {
    d.Frame? ==>
      && |d.data| <= 250 && |d.frame| >= 7
      && d.frame == WriteFrame(d.frame[4], d.frame[5], d.data)
      && d.address == d.frame[4] as int * 0x100 + d.frame[5]
  }

  /** Every frame `write` builds is the write frame for the line's address and data. */
  lemma DecodedFramed(line: string)
    ensures Framed(DecodeLine(line))
  {
    if DecodeLine(line).Frame? {
      var length := ParseHex2(Slice(line, 1, 3)).value;
      var f := LineFields(line, length).value;
      assert DecodeLine(line).frame == WriteFrame(f.hi, f.lo, f.data);
    }
  }

  /**
   * Every frame the host's `write` sends for a data record line is
   * assembled by `updateState` into a complete WRITE message whose fields
   * sit where `loop` reads them and whose checksum the bridge accepts: the
   * bridge answers 0x83, resets, and writes exactly that data at that
   * address, with the data staged in `_flashBuffer`.
   */
  lemma WriteFrameAccepted(cfg: Config, dev: Device, b: Bridge, line: string)
    requires HostOpcodes(cfg.actions) && Valid(b) && b.asm.state == 0
    requires DecodeLine(line).Frame?
    ensures var d := DecodeLine(line);
            var r := Feed(cfg, dev, b, d.frame);
            && r.out == b.out + [0x83]
            && r.asm.state == 0
            && r.bus == b.bus + WriteBlockOps(cfg, dev, b.consumed, d.address, d.data)
            && r.flash[..|d.data|] == d.data
  {
    DecodedFramed(line);
    FrameAccepted(cfg, dev, b, DecodeLine(line));
  }

  /** The same for any framed line. */
  lemma FrameAccepted(cfg: Config, dev: Device, b: Bridge, d: Decoded)
    requires HostOpcodes(cfg.actions) && Valid(b) && b.asm.state == 0
    requires d.Frame? && Framed(d)
    ensures var r := Feed(cfg, dev, b, d.frame);
            && r.out == b.out + [0x83]
            && r.asm.state == 0
            && r.bus == b.bus + WriteBlockOps(cfg, dev, b.consumed, d.address, d.data)
            && r.flash[..|d.data|] == d.data
  {
    var c := b.(asm := Run(b.asm, d.frame));
    assert && d.frame[1] as int == |d.frame| - 2
           && c.asm.state == 3 && c.asm.buf[2] as int == |d.data| && CommandOf(cfg.actions, c.asm.buf[0]) == Write
           && WriteAddress(c.asm.buf) == d.address && Payload(c.asm.buf) == d.data && ChecksumMatches(c.asm.buf) by {
      AssembledWrite(b.asm, d.frame[4], d.frame[5], d.data);
    }
    FeedFrame(cfg, dev, b, d.frame);
    WriteVerdict(cfg, dev, c);
  }

  /** The message `updateState` assembles from a write frame: the fields `loop` reads, and a matching checksum. */
  lemma AssembledWrite(a: Assembler, hi: byte, lo: byte, data: seq<byte>)
    requires WellFormed(a) && a.state == 0 && |data| <= 250
    ensures var r := Run(a, WriteFrame(hi, lo, data));
            var m := r.buf;
            && r.state == 3 && m[0] == 0x03 && m[2] as int == |data|
            && WriteAddress(m) == hi as int * 0x100 + lo && Payload(m) == data && ChecksumMatches(m)
  {
    var frame := WriteFrame(hi, lo, data);
    FrameStored(a, frame);
    var m := frame + a.buf[|frame|..];
    assert m[0] == 0x03 && m[2] as int == |data| && m[4] == hi && m[5] == lo by {
      assert m[..7] == [0x03, |data| + 5, |data|, 0, hi, lo, FrameChecksum(hi, lo, data)];
    }
    assert Payload(m) == data by {
      assert m[7..7 + |data|] == data;
    }
  }

  /**
   * The host's read request is a complete READ message: the bridge answers
   * 0x85 and exactly `amount` bytes, reads the block at the low 16 bits of
   * the requested address, and resets.
   */
  lemma ReadRequestAnswered(cfg: Config, dev: Device, b: Bridge, address: nat, amount: byte)
    requires HostOpcodes(cfg.actions) && Valid(b) && b.asm.state == 0
    ensures var r := Feed(cfg, dev, b, ReadRequest(address, amount));
            && r.out == b.out + [0x85] + (if dev(b.consumed) == FlashReady then Answers(dev, b.consumed + 2, amount)
                                         else b.flash[..amount])
            && r.bus == b.bus + ReadBlockOps(cfg, dev, b.consumed, address % 0x1_0000, amount)
            && r.asm.state == 0
  {
    var request := ReadRequest(address, amount);
    var m := Run(b.asm, request).buf;
    assert && m[2] == amount && CommandOf(cfg.actions, m[0]) == Read
           && ReadAddress(m) % 0x1_0000 == address % 0x1_0000 by {
      AssembledRead(b.asm, address, amount);
    }
    FeedRead(cfg, dev, b, request);
  }

  /** A complete READ frame fed to an idle bridge gets the reply of `ReadReply`. */
  lemma FeedRead(cfg: Config, dev: Device, b: Bridge, frame: seq<byte>)
    requires Valid(b) && b.asm.state == 0 && |frame| >= 2 && frame[1] as int == |frame| - 2
    requires CommandOf(cfg.actions, Run(b.asm, frame).buf[0]) == Read
    ensures var r := Feed(cfg, dev, b, frame);
            var m := Run(b.asm, frame).buf;
            var n := m[2];
            && r.out == b.out + [0x85] + (if dev(b.consumed) == FlashReady then Answers(dev, b.consumed + 2, n)
                                         else b.flash[..n])
            && r.bus == b.bus + ReadBlockOps(cfg, dev, b.consumed, ReadAddress(m) % 0x1_0000, n)
            && r.asm.state == 0
  {
    FeedFrame(cfg, dev, b, frame);
    ReadReply(cfg, dev, b.(asm := Run(b.asm, frame)));
  }

  /** The message `updateState` assembles from a read request: a READ of `amount` bytes at the low 24 bits of `address`. */
  lemma AssembledRead(a: Assembler, address: nat, amount: byte)
    requires WellFormed(a) && a.state == 0
    ensures var r := Run(a, ReadRequest(address, amount));
            var m := r.buf;
            && r.state == 3 && m[0] == 0x05 && m[2] == amount
            && ReadAddress(m) == address % 0x100_0000 && ReadAddress(m) % 0x1_0000 == address % 0x1_0000
  {
    var request := ReadRequest(address, amount);
    FrameStored(a, request);
    var m := request + a.buf[7..];
    assert m[..7] == request;
    assert ReadAddress(m) == address % 0x100_0000;
    LowBits(address);
  }

  /** The low 16 bits of the low 24 bits are the low 16 bits. */
  lemma LowBits(x: nat)
    ensures (x % 0x100_0000) % 0x1_0000 == x % 0x1_0000
  {
    var q, r := x / 0x100_0000, x % 0x100_0000;
    assert x == (q * 0x100) * 0x1_0000 + r;
  }

  /** INIT, as the host sends it: answered 0x81, the identity cached, the machine reset. */
  lemma InitAnswered(cfg: Config, dev: Device, b: Bridge)
    requires HostOpcodes(cfg.actions) && Valid(b) && b.asm.state == 0
    ensures var r := Feed(cfg, dev, b, InitRequest);
            r.out == b.out + [0x81] && r.asm.state == 0 && r.id == dev(b.consumed) && r.revision == dev(b.consumed + 1)
  {
    AssembledCommand(cfg, dev, b, InitRequest);
    var c := b.(asm := Run(b.asm, InitRequest));
    assert Dispatch(cfg, dev, c) == InitCase(cfg, dev, c);
  }

  /** RESET, as the host sends it: answered 0x82, the machine reset. */
  lemma ResetAnswered(cfg: Config, dev: Device, b: Bridge)
    requires HostOpcodes(cfg.actions) && Valid(b) && b.asm.state == 0
    ensures var r := Feed(cfg, dev, b, ResetRequest);
            r.out == b.out + [0x82] && r.asm.state == 0
  {
    AssembledCommand(cfg, dev, b, ResetRequest);
    var c := b.(asm := Run(b.asm, ResetRequest));
    assert CommandOf(cfg.actions, c.asm.buf[0]) == Reset;
  }

  /** ERASE, as the host sends it: answered 0x84, the machine reset. */
  lemma EraseAnswered(cfg: Config, dev: Device, b: Bridge)
    requires HostOpcodes(cfg.actions) && Valid(b) && b.asm.state == 0
    ensures var r := Feed(cfg, dev, b, EraseRequest);
            r.out == b.out + [0x84] && r.asm.state == 0
  {
    AssembledCommand(cfg, dev, b, EraseRequest);
    var c := b.(asm := Run(b.asm, EraseRequest));
    assert Dispatch(cfg, dev, c) == EraseCase(cfg, dev, c);
  }

  /** INFO, as the host sends it: answered 0x88 and the cached identity, the machine reset. */
  lemma InfoAnswered(cfg: Config, dev: Device, b: Bridge)
    requires HostOpcodes(cfg.actions) && Valid(b) && b.asm.state == 0
    ensures var r := Feed(cfg, dev, b, InfoRequest);
            r.out == b.out + [0x88, b.id, b.revision] && r.asm.state == 0
  {
    AssembledCommand(cfg, dev, b, InfoRequest);
    var c := b.(asm := Run(b.asm, InfoRequest));
    assert CommandOf(cfg.actions, c.asm.buf[0]) == Info;
  }

  /** A two-byte request is complete at its length byte and dispatched on its opcode. */
  lemma AssembledCommand(cfg: Config, dev: Device, b: Bridge, request: seq<byte>)
    requires Valid(b) && b.asm.state == 0 && |request| == 2 && request[1] == 0
    ensures var c := b.(asm := Run(b.asm, request));
            && c.asm.state == 3 && c.asm.buf[0] == request[0]
            && Feed(cfg, dev, b, request) == Dispatch(cfg, dev, c)
  {
    FeedFrame(cfg, dev, b, request);
    FrameStored(b.asm, request);
  }

  /**
   * The frames of a whole file of decodable lines, fed to a bridge waiting
   * for an opcode, are each answered 0x83, and the bridge ends waiting for
   * the next opcode.
   */
  lemma {:induction false} FramesAccepted(cfg: Config, dev: Device, b: Bridge, items: seq<Decoded>)
    requires HostOpcodes(cfg.actions) && Valid(b) && b.asm.state == 0
    requires Decodable(items) && forall i :: 0 <= i < |items| ==> Framed(items[i])
    ensures var r := Feed(cfg, dev, b, Frames(items));
            r.out == b.out + WriteAcks(DataLines(items)) && r.asm.state == 0
    decreases |items|
  {
    if items != [] {
      var before, d := items[..|items| - 1], items[|items| - 1];
      assert !d.Raise? && Framed(d);
      FramesAccepted(cfg, dev, b, before);
      var r0 := Feed(cfg, dev, b, Frames(before));
      var k := DataLines(before);
      if d.Frame? {
        assert Frames(items) == Frames(before) + d.frame;
        assert DataLines(items) == k + 1;
        var r := Feed(cfg, dev, r0, d.frame);
        assert r.out == r0.out + [0x83] && r.asm.state == 0 by {
          FrameAccepted(cfg, dev, r0, d);
        }
        FeedConcat(cfg, dev, b, Frames(before), d.frame);
        assert WriteAcks(k) + [0x83] == WriteAcks(k + 1);
        ConcatAssoc(b.out, WriteAcks(k), [0x83]);
        assert Feed(cfg, dev, b, Frames(items)) == r;
      } else {
        assert Frames(items) == Frames(before) + [];
        assert Frames(before) + [] == Frames(before);
        assert DataLines(items) == k;
      }
    } else {
      assert WriteAcks(0) == [];
    }
  }

  /**
   * efm8's `write` against the bridge: when the bytes arriving at the host
   * are exactly the bridge's answers to the frames of the file and the
   * closing RESET, the session completes, having sent those frames and
   * `02 00`.
   */
  lemma WriteAgainstBridge(cfg: Config, dev: Device, b: Bridge, l: Link, lines: seq<string>)
    requires HostOpcodes(cfg.actions) && Valid(b) && b.asm.state == 0 && b.out == []
    requires Decodable(DecodeAll(lines))
    requires l.rx == Feed(cfg, dev, b, Frames(DecodeAll(lines)) + ResetRequest).out
    ensures WriteSession(false, l, lines).verdict == Completed
    ensures WriteSession(false, l, lines).link.tx == l.tx + Frames(DecodeAll(lines)) + ResetRequest
  {
    var items := DecodeAll(lines);
    var k := DataLines(items);
    forall i | 0 <= i < |items|
      ensures Framed(items[i])
    {
      DecodedFramed(lines[i]);
    }
    FramesAccepted(cfg, dev, b, items);
    FeedConcat(cfg, dev, b, Frames(items), ResetRequest);
    var r := Feed(cfg, dev, b, Frames(items));
    ResetAnswered(cfg, dev, r);
    assert l.rx == WriteAcks(k) + [0x82];
    assert l.rx[..k + 1] == l.rx;
    WriteCompletes(l, lines);
  }

  /**
   * The host's wait for a read reply takes exactly the bridge's answer when
   * that answer is all that has arrived before the rest: the status byte and
   * the `amount` bytes that become the record's data.
   */
  lemma ReplyAwaited(l: Link, reply: seq<byte>, amount: byte)
    requires amount >= 1 && |reply| == amount as int + 1
    requires |l.rx| >= |reply| && l.rx[..|reply|] == reply
    ensures Awaited(l, amount) == Some(reply)
    ensures AfterAwait(l, amount).rx == l.rx[|reply|..]
  {
  }

  /**
   * efm8's `read` of one chunk against the bridge: the record line it
   * writes carries exactly the bytes the bridge read from the target (or
   * the stale buffer when the target was not ready).
   */
  lemma ChunkAgainstBridge(cfg: Config, dev: Device, b: Bridge, l: Link, address: nat, amount: byte)
    requires HostOpcodes(cfg.actions) && Valid(b) && b.asm.state == 0 && b.out == [] && amount >= 1
    requires l.rx == Feed(cfg, dev, b, ReadRequest(address, amount)).out
    ensures var data := if dev(b.consumed) == FlashReady then Answers(dev, b.consumed + 2, amount) else b.flash[..amount];
            ReadChunk(Dump(l, [], false), address, amount)
            == Dump(Link([], l.tx + ReadRequest(address, amount)), [IntelHex.RecordLine(amount, address, data)], false)
  {
    ReadRequestAnswered(cfg, dev, b, address, amount);
    var l1 := Sent(l, ReadRequest(address, amount));
    ReplyAwaited(l1, l1.rx, amount);
    assert l1.rx[|l1.rx|..] == [];
  }
}
