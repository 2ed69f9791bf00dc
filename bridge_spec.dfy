/**
 * Value-level model of the bridge firmware's command engine
 * (lib/C2/C2.cpp): the frame assembler behind `updateState`, the command
 * dispatch of `loop`, and the sequences of C2 instructions the flash
 * procedures issue.  The class in bridge.dfy is proved to follow these
 * functions step by step; the properties of the engine are proved here.
 *
 * Constants that live in C2.h (the `Actions` opcodes, the C2 register
 * addresses, the flash-programming command codes and status masks, the buffer
 * sizes) are not part of this model and appear as parameters.
 *
 * The target device is an oracle: `dev(k)` is the byte the target answers to
 * the k-th Data Read the bridge issues.  The bridge is deterministic given
 * those answers, so every run of the real pair is described by some oracle.
 * The `pollBitLow`/`pollBitHigh` loops wait on the physical target; they are
 * recorded as single steps and consume no answers.
 */
module BridgeSpec {
  import opened Bytes

  // ---------------------------------------------------------------------
  // Constants from C2.h, as parameters
  // ---------------------------------------------------------------------

  /** Opcode values of the `Actions` enumeration. */
  datatype Actions = Actions(ack: byte, init: byte, reset: byte, write: byte, erase: byte, read: byte, info: byte)

  /** The opcodes the host tools put in their frames; ACK is never sent by them. */
  predicate HostOpcodes(a: Actions)
  {
    && a.init == 0x01 && a.reset == 0x02 && a.write == 0x03
    && a.erase == 0x04 && a.read == 0x05 && a.info == 0x08
    && a.ack != 0x01 && a.ack != 0x02 && a.ack != 0x03
    && a.ack != 0x04 && a.ack != 0x05 && a.ack != 0x08
  }

  /**
   * Everything else C2.h fixes: the `C2Addresses` registers used here
   * (`FPCTL`, `FPDAT`, `DEVICEID`, `REVID`), the flash commands `BLOCK_READ`,
   * `BLOCK_WRITE` and `DEVICE_ERASE`, and the status masks `_inBusy` and
   * `_outReady`.
   */
  datatype Config = Config(
    actions: Actions,
    fpctl: byte, fpdat: byte, deviceIdRegister: byte, revisionRegister: byte,
    blockRead: byte, blockWrite: byte, deviceErase: byte,
    inBusy: byte, outReady: byte)

  /**
   * Least `_message` capacity the dispatch can index: WRITE reads
   * `_message[i + 7]` for every i < `_message[2]`, whatever the frame length.
   */
  const MessageCapacity: nat := 262

  /** Least `_flashBuffer` capacity: it holds up to 255 payload bytes. */
  const FlashBufferCapacity: nat := 255

  /** The status byte the target's flash programming interface answers when ready. */
  const FlashReady: byte := 0x0D

  // ---------------------------------------------------------------------
  // updateState: the frame assembler
  // ---------------------------------------------------------------------

  /**
   * `_state`, `_messagePtr`, `_bytesLeft` and the whole `_message` buffer
   * (bytes past the current frame are whatever earlier frames left there).
   */
  datatype Assembler = Assembler(state: nat, ptr: nat, left: nat, buf: seq<byte>)

  /**
   * The states `updateState` can be in: 0 waiting for an opcode, 1 waiting for
   * the length byte, 2 collecting `left` more payload bytes, 3 holding a
   * complete frame.
   */
  predicate WellFormed(a: Assembler)
  {
    && |a.buf| >= MessageCapacity
    && a.state <= 3
    && (a.state == 1 ==> a.ptr == 1)
    && (a.state == 2 ==> 2 <= a.ptr && 1 <= a.left && a.ptr + a.left == a.buf[1] as int + 2)
  }

  /** One byte through `updateState`. No byte ever brings the state back to 0. */
  function Step(a: Assembler, data: byte): (r: Assembler)
    requires WellFormed(a)
    ensures WellFormed(r) && |r.buf| == |a.buf|
    ensures r.state != 0
  {
    match a.state
    case 0 => Assembler(1, 1, a.left, a.buf[0 := data])
    case 1 => Assembler(if data == 0 then 3 else 2, 2, data, a.buf[1 := data])
    case 2 => Assembler(if a.left - 1 == 0 then 3 else 2, a.ptr + 1, a.left - 1, a.buf[a.ptr := data])
    case _ => a
  }

  /** Bytes through `updateState`, oldest first. */
  function Run(a: Assembler, bytes: seq<byte>): (r: Assembler)
    requires WellFormed(a)
    ensures WellFormed(r) && |r.buf| == |a.buf|
  {
    if bytes == [] then a else Step(Run(a, bytes[..|bytes| - 1]), bytes[|bytes| - 1])
  }

  /** Where the assembler stands after the first k >= 2 bytes of a frame. */
  function Midway(a: Assembler, frame: seq<byte>, k: nat): Assembler
    requires 2 <= k <= |frame| <= |a.buf|
  {
    Assembler(if k == |frame| then 3 else 2, k, |frame| - k, frame[..k] + a.buf[k..])
  }

  lemma {:induction false} RunPrefix(a: Assembler, frame: seq<byte>, k: nat)
    requires WellFormed(a) && a.state == 0
    requires |frame| >= 2 && frame[1] == |frame| - 2 && 2 <= k <= |frame|
    ensures Run(a, frame[..k]) == Midway(a, frame, k)
    decreases k
  {
    if k == 2 {
      RunFirstTwo(a, frame);
    } else {
      RunPrefix(a, frame, k - 1);
      assert frame[..k][..k - 1] == frame[..k - 1];
      MidwayStep(a, frame, k);
    }
  }

  /** The opcode and the length byte leave the assembler waiting for the payload, or complete an empty one. */
  lemma RunFirstTwo(a: Assembler, frame: seq<byte>)
    requires WellFormed(a) && a.state == 0
    requires |frame| >= 2 && frame[1] == |frame| - 2
    ensures Run(a, frame[..2]) == Midway(a, frame, 2)
  {
    var one := frame[..2][..1];
    assert one == [frame[0]] && one[..0] == [];
    assert Run(a, one) == Step(a, frame[0]);
    assert Run(a, frame[..2]) == Step(Step(a, frame[0]), frame[1]);
    assert a.buf[0 := frame[0]][1 := frame[1]] == frame[..2] + a.buf[2..];
  }

  /** A payload byte moves the assembler one place along the frame. */
  lemma MidwayStep(a: Assembler, frame: seq<byte>, k: nat)
    requires WellFormed(a) && |frame| >= 2 && frame[1] == |frame| - 2 && 3 <= k <= |frame|
    ensures Step(Midway(a, frame, k - 1), frame[k - 1]) == Midway(a, frame, k)
  {
    assert (frame[..k - 1] + a.buf[k - 1..])[k - 1 := frame[k - 1]] == frame[..k] + a.buf[k..];
  }

  /**
   * A frame `[op, n, b1 .. bn]` fed from state 0 completes exactly at its
   * last byte (for n = 0 that is the length byte itself), with the frame
   * stored in order at the start of `_message` and the rest untouched.
   */
  lemma FrameAssembled(a: Assembler, frame: seq<byte>)
    requires WellFormed(a) && a.state == 0
    requires |frame| >= 2 && frame[1] == |frame| - 2
    ensures Run(a, frame).state == 3 && Run(a, frame).ptr == |frame|
    ensures Run(a, frame).buf == frame + a.buf[|frame|..]
    ensures forall k :: 0 <= k < |frame| ==> Run(a, frame[..k]).state != 3
  {
    FrameStored(a, frame);
    forall k | 0 <= k < |frame|
      ensures Run(a, frame[..k]).state != 3
    {
      if k == 0 {
        assert frame[..0] == [];
      } else if k == 1 {
        assert frame[..1][..0] == [];
      } else {
        RunPrefix(a, frame, k);
      }
    }
  }

  /** The complete frame, stored in order at the start of `_message`. */
  lemma FrameStored(a: Assembler, frame: seq<byte>)
    requires WellFormed(a) && a.state == 0
    requires |frame| >= 2 && frame[1] == |frame| - 2
    ensures Run(a, frame).state == 3 && Run(a, frame).ptr == |frame|
    ensures Run(a, frame).buf == frame + a.buf[|frame|..]
  {
    RunPrefix(a, frame, |frame|);
    assert frame[..|frame|] == frame;
  }

  /** A complete frame absorbs every later byte until `resetState`. */
  lemma {:induction false} CompleteAbsorbs(a: Assembler, bytes: seq<byte>)
    requires WellFormed(a) && a.state == 3
    ensures Run(a, bytes) == a
    decreases |bytes|
  {
    if bytes != [] {
      CompleteAbsorbs(a, bytes[..|bytes| - 1]);
    }
  }

  // ---------------------------------------------------------------------
  // Fields of a complete frame, at the offsets `loop` reads them
  // ---------------------------------------------------------------------

  datatype Command = Ack | Init | Reset | Write | Erase | Read | Info | Unknown

  /** The `switch(_message[0])` of `loop`. */
  function CommandOf(actions: Actions, opcode: byte): Command
  {
    if opcode == actions.ack then Ack
    else if opcode == actions.init then Init
    else if opcode == actions.reset then Reset
    else if opcode == actions.write then Write
    else if opcode == actions.erase then Erase
    else if opcode == actions.read then Read
    else if opcode == actions.info then Info
    else Unknown
  }

  /** WRITE: `(_message[4] << 8) + _message[5]`. */
  function WriteAddress(m: seq<byte>): (address: nat)
    requires |m| >= MessageCapacity
    ensures address < 0x1_0000
  {
    m[4] as int * 256 + m[5]
  }

  /** WRITE: the `_message[2]` bytes from `_message[7]` on, copied into `_flashBuffer`. */
  function Payload(m: seq<byte>): (p: seq<byte>)
    requires |m| >= MessageCapacity
    ensures |p| == m[2]
  {
    m[7..7 + m[2]]
  }

  /** WRITE accepts when `_message[6]` is the 8-bit sum of both address bytes and the payload. */
  predicate ChecksumMatches(m: seq<byte>)
    requires |m| >= MessageCapacity
  {
    m[6] == (m[4] + m[5] + Sum(Payload(m))) % 256
  }

  /** READ: `_message[3..5]` big-endian, as `(m3 << 16) | (m4 << 8) | m5` (the parts do not overlap). */
  function ReadAddress(m: seq<byte>): (address: nat)
    requires |m| >= MessageCapacity
    ensures address < 0x100_0000
  {
    m[3] as int * 0x1_0000 + m[4] as int * 0x100 + m[5]
  }

  // ---------------------------------------------------------------------
  // C2 instructions of the flash procedures
  // ---------------------------------------------------------------------

  /** One C2 instruction as the bridge issues it; a Data Read records what the target answered. */
  datatype BusOp =
    | AddressWriteOp(address: byte)
    | DataWriteOp(data: byte)
    | DataReadOp(value: byte)
    | PollLowOp(mask: byte)
    | PollHighOp(mask: byte)

  /** The target's answer to the k-th Data Read. */
  type Device = nat -> byte

  /** `count` successive answers of the target, starting with the `from`-th. */
  function Answers(dev: Device, from: nat, count: nat): (s: seq<byte>)
    ensures |s| == count
  {
    if count == 0 then [] else Answers(dev, from, count - 1) + [dev(from + count - 1)]
  }

  lemma {:induction false} AnswersAt(dev: Device, from: nat, count: nat, k: nat)
    requires k < count
    ensures Answers(dev, from, count)[k] == dev(from + k)
    decreases count
  {
    if k < count - 1 {
      AnswersAt(dev, from, count - 1, k);
    }
  }

  /** The opening every flash procedure shares: select FPDAT, send the command, read the status. */
  function Gate(cfg: Config, command: byte, status: byte): seq<BusOp>
  {
    [AddressWriteOp(cfg.fpdat)] + Push(cfg, command) + Fetch(cfg, status)
  }

  /** `dataWrite(d); pollBitLow(_inBusy)`. */
  function Push(cfg: Config, d: byte): seq<BusOp>
  {
    [DataWriteOp(d), PollLowOp(cfg.inBusy)]
  }

  /** `pollBitHigh(_outReady); dataRead()`, answered `v`. */
  function Fetch(cfg: Config, v: byte): seq<BusOp>
  {
    [PollHighOp(cfg.outReady), DataReadOp(v)]
  }

  /** Address high byte, address low byte and length, each followed by a wait for not-busy. */
  function BlockHeader(cfg: Config, address: nat, count: byte): seq<BusOp>
    requires address < 0x1_0000
  {
    Push(cfg, address / 256) + Push(cfg, address % 256) + Push(cfg, count)
  }

  /** `for i < length: dataWrite(data[i]); pollBitLow(_inBusy)`. */
  function Pushes(cfg: Config, data: seq<byte>): seq<BusOp>
  {
    if data == [] then [] else Pushes(cfg, data[..|data| - 1]) + Push(cfg, data[|data| - 1])
  }

  /** `for i < bytes: pollBitHigh(_outReady); data[i] = dataRead()`. */
  function Fetches(cfg: Config, values: seq<byte>): seq<BusOp>
  {
    if values == [] then [] else Fetches(cfg, values[..|values| - 1]) + Fetch(cfg, values[|values| - 1])
  }

  lemma FetchesSnoc(cfg: Config, values: seq<byte>, v: byte)
    ensures Fetches(cfg, values + [v]) == Fetches(cfg, values) + Fetch(cfg, v)
  {
    assert (values + [v])[..|values|] == values;
  }

  lemma PushesSnoc(cfg: Config, data: seq<byte>, d: byte)
    ensures Pushes(cfg, data + [d]) == Pushes(cfg, data) + Push(cfg, d)
  {
    assert (data + [d])[..|data|] == data;
  }

  /** `readFlashBlock(address, data, bytes)`: the instructions issued, given the oracle from answer `r` on. */
  function ReadBlockOps(cfg: Config, dev: Device, r: nat, address: nat, count: byte): seq<BusOp>
    requires address < 0x1_0000
  {
    Gate(cfg, cfg.blockRead, dev(r))
    + if dev(r) != FlashReady then []
      else BlockHeader(cfg, address, count) + Fetch(cfg, dev(r + 1)) + Fetches(cfg, Answers(dev, r + 2, count))
  }

  lemma ReadBlockOpsReady(cfg: Config, dev: Device, r: nat, address: nat, count: byte)
    requires address < 0x1_0000 && dev(r) == FlashReady
    ensures ReadBlockOps(cfg, dev, r, address, count)
         == Gate(cfg, cfg.blockRead, dev(r))
            + (BlockHeader(cfg, address, count) + Fetch(cfg, dev(r + 1)) + Fetches(cfg, Answers(dev, r + 2, count)))
  {
  }

  /** How many answers `readFlashBlock` consumes. */
  function ReadBlockReads(dev: Device, r: nat, count: byte): nat
  {
    if dev(r) != FlashReady then 1 else 2 + count
  }

  /** `_flashBuffer` after `readFlashBlock`: untouched when the status check fails. */
  function ReadBlockBuffer(buffer: seq<byte>, dev: Device, r: nat, count: byte): (b: seq<byte>)
    requires count <= |buffer|
    ensures |b| == |buffer|
  {
    if dev(r) != FlashReady then buffer else Answers(dev, r + 2, count) + buffer[count..]
  }

  /** `writeFlashBlock(address, data, length)`. */
  function WriteBlockOps(cfg: Config, dev: Device, r: nat, address: nat, data: seq<byte>): seq<BusOp>
    requires address < 0x1_0000 && |data| < 256
  {
    Gate(cfg, cfg.blockWrite, dev(r))
    + if dev(r) != FlashReady then []
      else BlockHeader(cfg, address, |data|) + Pushes(cfg, data) + Fetch(cfg, dev(r + 1))
  }

  lemma WriteBlockOpsReady(cfg: Config, dev: Device, r: nat, address: nat, data: seq<byte>)
    requires address < 0x1_0000 && |data| < 256 && dev(r) == FlashReady
    ensures WriteBlockOps(cfg, dev, r, address, data)
         == Gate(cfg, cfg.blockWrite, dev(r))
            + (BlockHeader(cfg, address, |data|) + Pushes(cfg, data) + Fetch(cfg, dev(r + 1)))
  {
  }

  /** `eraseDevice()`: the three-byte erase key after a ready status. */
  function EraseOps(cfg: Config, dev: Device, r: nat): seq<BusOp>
  {
    Gate(cfg, cfg.deviceErase, dev(r))
    + if dev(r) != FlashReady then []
      else Push(cfg, 0xDE) + Push(cfg, 0xAD) + Push(cfg, 0xA5) + Fetch(cfg, dev(r + 1))
  }

  /** Answers consumed by `writeFlashBlock` and `eraseDevice`: one status, or two. */
  function GatedReads(dev: Device, r: nat): nat
  {
    if dev(r) != FlashReady then 1 else 2
  }

  /** `init()`: enable programming through FPCTL. */
  function InitOps(cfg: Config): seq<BusOp>
  {
    [AddressWriteOp(cfg.fpctl), DataWriteOp(0x02), DataWriteOp(0x04), DataWriteOp(0x01)]
  }

  /** `deviceInfo()`: read the DEVICEID and REVID registers. */
  function InfoOps(cfg: Config, id: byte, revision: byte): seq<BusOp>
  {
    [AddressWriteOp(cfg.deviceIdRegister), DataReadOp(id), AddressWriteOp(cfg.revisionRegister), DataReadOp(revision)]
  }

  /** The bytes carried by the Data Write instructions of a trace, in order. */
  function Written(ops: seq<BusOp>): seq<byte>
  {
    if ops == [] then []
    else Written(ops[..|ops| - 1]) + (if ops[|ops| - 1].DataWriteOp? then [ops[|ops| - 1].data] else [])
  }

  lemma {:induction false} WrittenConcat(a: seq<BusOp>, b: seq<BusOp>)
    ensures Written(a + b) == Written(a) + Written(b)
    decreases |b|
  {
    if b == [] {
      assert a + b == a;
    } else {
      assert (a + b)[..|a + b| - 1] == a + b[..|b| - 1];
      WrittenConcat(a, b[..|b| - 1]);
    }
  }

  lemma PieceWritten(cfg: Config, x: byte)
    ensures Written(Push(cfg, x)) == [x]
    ensures Written(Fetch(cfg, x)) == []
    ensures Written([AddressWriteOp(x)]) == []
  {
    var p, f := Push(cfg, x), Fetch(cfg, x);
    assert p[..1] == [DataWriteOp(x)] && p[..1][..0] == [];
    assert Written(p[..1]) == [x];
    assert f[..1] == [PollHighOp(cfg.outReady)] && f[..1][..0] == [];
    assert Written(f[..1]) == [];
    assert [AddressWriteOp(x)][..0] == [];
  }

  /** The data-write loop of `writeFlashBlock` sends the payload itself, in order. */
  lemma {:induction false} PushesWritten(cfg: Config, data: seq<byte>)
    ensures Written(Pushes(cfg, data)) == data
    decreases |data|
  {
    if data != [] {
      var front := data[..|data| - 1];
      PushesWritten(cfg, front);
      WrittenConcat(Pushes(cfg, front), Push(cfg, data[|data| - 1]));
      PieceWritten(cfg, data[|data| - 1]);
    }
  }

  /** The fetch loop of `readFlashBlock` writes nothing. */
  lemma {:induction false} FetchesWriteNothing(cfg: Config, values: seq<byte>)
    ensures Written(Fetches(cfg, values)) == []
    decreases |values|
  {
    if values != [] {
      var front := values[..|values| - 1];
      FetchesWriteNothing(cfg, front);
      WrittenConcat(Fetches(cfg, front), Fetch(cfg, values[|values| - 1]));
      PieceWritten(cfg, values[|values| - 1]);
    }
  }

  lemma GateWritten(cfg: Config, command: byte, status: byte)
    ensures Written(Gate(cfg, command, status)) == [command]
  {
    var a, p, f := [AddressWriteOp(cfg.fpdat)], Push(cfg, command), Fetch(cfg, status);
    PieceWritten(cfg, cfg.fpdat);
    PieceWritten(cfg, command);
    PieceWritten(cfg, status);
    WrittenConcat(a + p, f);
    WrittenConcat(a, p);
  }

  lemma HeaderWritten(cfg: Config, address: nat, count: byte)
    requires address < 0x1_0000
    ensures Written(BlockHeader(cfg, address, count)) == [address / 256, address % 256, count]
  {
    var hi, lo, n := Push(cfg, address / 256), Push(cfg, address % 256), Push(cfg, count);
    PieceWritten(cfg, address / 256);
    PieceWritten(cfg, address % 256);
    PieceWritten(cfg, count);
    WrittenConcat(hi + lo, n);
    WrittenConcat(hi, lo);
  }

  /**
   * `readFlashBlock` sends only its command when the first status is not
   * 0x0D; otherwise the command, address high, address low and length.
   */
  lemma ReadBlockWritten(cfg: Config, dev: Device, r: nat, address: nat, count: byte)
    requires address < 0x1_0000
    ensures Written(ReadBlockOps(cfg, dev, r, address, count))
         == if dev(r) != FlashReady then [cfg.blockRead]
            else [cfg.blockRead, address / 256, address % 256, count]
  {
    var g := Gate(cfg, cfg.blockRead, dev(r));
    GateWritten(cfg, cfg.blockRead, dev(r));
    if dev(r) == FlashReady {
      var h, s := BlockHeader(cfg, address, count), Fetch(cfg, dev(r + 1));
      var f := Fetches(cfg, Answers(dev, r + 2, count));
      HeaderWritten(cfg, address, count);
      PieceWritten(cfg, dev(r + 1));
      FetchesWriteNothing(cfg, Answers(dev, r + 2, count));
      WrittenConcat(g, h + s + f);
      WrittenConcat(h + s, f);
      WrittenConcat(h, s);
    } else {
      assert ReadBlockOps(cfg, dev, r, address, count) == g;
    }
  }

  /**
   * `writeFlashBlock` sends only its command when the first status is not
   * 0x0D; otherwise the command, address high, address low, length and the
   * payload.
   */
  lemma WriteBlockWritten(cfg: Config, dev: Device, r: nat, address: nat, data: seq<byte>)
    requires address < 0x1_0000 && |data| < 256
    ensures Written(WriteBlockOps(cfg, dev, r, address, data))
         == if dev(r) != FlashReady then [cfg.blockWrite]
            else [cfg.blockWrite, address / 256, address % 256, |data|] + data
  {
    var g := Gate(cfg, cfg.blockWrite, dev(r));
    GateWritten(cfg, cfg.blockWrite, dev(r));
    if dev(r) == FlashReady {
      var h, p, s := BlockHeader(cfg, address, |data|), Pushes(cfg, data), Fetch(cfg, dev(r + 1));
      HeaderWritten(cfg, address, |data|);
      PushesWritten(cfg, data);
      PieceWritten(cfg, dev(r + 1));
      WrittenConcat(g, h + p + s);
      WrittenConcat(h + p, s);
      WrittenConcat(h, p);
    } else {
      assert WriteBlockOps(cfg, dev, r, address, data) == g;
    }
  }

  /** `eraseDevice` sends the erase key 0xDE, 0xAD, 0xA5 only after a ready status. */
  lemma EraseWritten(cfg: Config, dev: Device, r: nat)
    ensures Written(EraseOps(cfg, dev, r))
         == if dev(r) != FlashReady then [cfg.deviceErase] else [cfg.deviceErase, 0xDE, 0xAD, 0xA5]
  {
    var g := Gate(cfg, cfg.deviceErase, dev(r));
    GateWritten(cfg, cfg.deviceErase, dev(r));
    if dev(r) == FlashReady {
      var k1, k2, k3, s := Push(cfg, 0xDE), Push(cfg, 0xAD), Push(cfg, 0xA5), Fetch(cfg, dev(r + 1));
      PieceWritten(cfg, 0xDE);
      PieceWritten(cfg, 0xAD);
      PieceWritten(cfg, 0xA5);
      PieceWritten(cfg, dev(r + 1));
      WrittenConcat(g, k1 + k2 + k3 + s);
      WrittenConcat(k1 + k2 + k3, s);
      WrittenConcat(k1 + k2, k3);
      WrittenConcat(k1, k2);
    } else {
      assert EraseOps(cfg, dev, r) == g;
    }
  }

  // ---------------------------------------------------------------------
  // loop: one received byte
  // ---------------------------------------------------------------------

  /**
   * What one call of `loop` can observe and change: the assembler, the
   * cached device identity, every byte written to the serial port, every C2
   * instruction issued, how many target answers were consumed, and
   * `_flashBuffer`.
   */
  datatype Bridge = Bridge(
    asm: Assembler, id: byte, revision: byte,
    out: seq<byte>, bus: seq<BusOp>, consumed: nat, flash: seq<byte>)

  predicate Valid(b: Bridge)
  {
    WellFormed(b.asm) && |b.flash| >= FlashBufferCapacity
  }

  /** The bridge as the constructor leaves it: identity 0x00, 0x00, waiting for an opcode. */
  predicate Fresh(b: Bridge)
  {
    Valid(b) && b.asm.state == 0 && b.id == 0 && b.revision == 0 && b.out == [] && b.bus == [] && b.consumed == 0
  }

  /** INIT: enable programming, read the identity, answer 0x81, reset. */
  function InitCase(cfg: Config, dev: Device, b: Bridge): (r: Bridge)
    requires Valid(b)
    ensures Valid(r)
  {
    var id, revision := dev(b.consumed), dev(b.consumed + 1);
    b.(asm := b.asm.(state := 0), id := id, revision := revision, out := b.out + [0x81],
       bus := b.bus + InitOps(cfg) + InfoOps(cfg, id, revision), consumed := b.consumed + 2)
  }

  /**
   * WRITE: stage the payload, compare the checksum; on a match write the
   * block, answer 0x83 and reset, otherwise answer 0x43 and keep the frame.
   */
  function WriteCase(cfg: Config, dev: Device, b: Bridge): (r: Bridge)
    requires Valid(b)
    ensures Valid(r) && |r.flash| == |b.flash|
  {
    var m := b.asm.buf;
    var staged := b.(flash := Payload(m) + b.flash[m[2]..]);
    if !ChecksumMatches(m) then staged.(out := b.out + [0x43])
    else staged.(asm := b.asm.(state := 0), out := b.out + [0x83],
                 bus := b.bus + WriteBlockOps(cfg, dev, b.consumed, WriteAddress(m), Payload(m)),
                 consumed := b.consumed + GatedReads(dev, b.consumed))
  }

  /** ERASE: erase the device, reset, answer 0x84. */
  function EraseCase(cfg: Config, dev: Device, b: Bridge): (r: Bridge)
    requires Valid(b)
    ensures Valid(r)
  {
    b.(asm := b.asm.(state := 0), out := b.out + [0x84],
       bus := b.bus + EraseOps(cfg, dev, b.consumed), consumed := b.consumed + GatedReads(dev, b.consumed))
  }

  /** READ: read the block into `_flashBuffer`, reset, answer 0x85 and the first `_message[2]` buffer bytes. */
  function ReadCase(cfg: Config, dev: Device, b: Bridge): (r: Bridge)
    requires Valid(b)
    ensures Valid(r) && |r.flash| == |b.flash|
  {
    var m := b.asm.buf;
    var count := m[2];
    var flash := ReadBlockBuffer(b.flash, dev, b.consumed, count);
    b.(asm := b.asm.(state := 0), out := b.out + [0x85] + flash[..count],
       bus := b.bus + ReadBlockOps(cfg, dev, b.consumed, ReadAddress(m) % 0x1_0000, count),
       consumed := b.consumed + ReadBlockReads(dev, b.consumed, count), flash := flash)
  }

  /** The `switch(_message[0])` of `loop` on a complete frame. */
  function Dispatch(cfg: Config, dev: Device, b: Bridge): (r: Bridge)
    requires Valid(b) && b.asm.state == 3
    ensures Valid(r) && |r.flash| == |b.flash| && r.asm.buf == b.asm.buf
  {
    match CommandOf(cfg.actions, b.asm.buf[0])
    case Ack => b.(out := b.out + [0x80])
    case Init => InitCase(cfg, dev, b)
    case Reset => b.(asm := b.asm.(state := 0), out := b.out + [0x82])
    case Write => WriteCase(cfg, dev, b)
    case Erase => EraseCase(cfg, dev, b)
    case Read => ReadCase(cfg, dev, b)
    case Info => b.(asm := b.asm.(state := 0), out := b.out + [0x88, b.id, b.revision])
    case Unknown => b
  }

  /** One call of `loop` with one byte available. */
  function Next(cfg: Config, dev: Device, b: Bridge, data: byte): (r: Bridge)
    requires Valid(b)
    ensures Valid(r)
  {
    var a := Step(b.asm, data);
    if a.state == 3 then Dispatch(cfg, dev, b.(asm := a)) else b.(asm := a)
  }

  /** Calls of `loop` for a sequence of received bytes. */
  function Feed(cfg: Config, dev: Device, b: Bridge, bytes: seq<byte>): (r: Bridge)
    requires Valid(b)
    ensures Valid(r)
  {
    if bytes == [] then b else Next(cfg, dev, Feed(cfg, dev, b, bytes[..|bytes| - 1]), bytes[|bytes| - 1])
  }

  /** Bytes that do not complete a frame only move the assembler. */
  lemma {:induction false} FeedQuiet(cfg: Config, dev: Device, b: Bridge, bytes: seq<byte>)
    requires Valid(b)
    requires forall k :: 1 <= k <= |bytes| ==> Run(b.asm, bytes[..k]).state != 3
    ensures Feed(cfg, dev, b, bytes) == b.(asm := Run(b.asm, bytes))
    decreases |bytes|
  {
    if bytes != [] {
      var front := bytes[..|bytes| - 1];
      forall k | 1 <= k <= |front|
        ensures Run(b.asm, front[..k]).state != 3
      {
        assert front[..k] == bytes[..k];
      }
      FeedQuiet(cfg, dev, b, front);
      assert bytes[..|bytes|] == bytes;
    }
  }

  /**
   * A whole frame fed from state 0 produces no reply until its last byte,
   * and then exactly the dispatch of that frame.
   */
  lemma FeedFrame(cfg: Config, dev: Device, b: Bridge, frame: seq<byte>)
    requires Valid(b) && b.asm.state == 0
    requires |frame| >= 2 && frame[1] == |frame| - 2
    ensures Run(b.asm, frame).state == 3
    ensures Feed(cfg, dev, b, frame) == Dispatch(cfg, dev, b.(asm := Run(b.asm, frame)))
  {
    FrameAssembled(b.asm, frame);
    var front := frame[..|frame| - 1];
    forall k | 1 <= k <= |front|
      ensures Run(b.asm, front[..k]).state != 3
    {
      assert front[..k] == frame[..k];
    }
    FeedQuiet(cfg, dev, b, front);
  }

  /**
   * The cases of `loop` that never call `resetState`: ACK, an opcode no case
   * names, and a WRITE whose checksum does not match.
   */
  lemma KeepsFrameExactly(cfg: Config, dev: Device, b: Bridge)
    requires Valid(b) && b.asm.state == 3
    ensures var c := CommandOf(cfg.actions, b.asm.buf[0]);
            Dispatch(cfg, dev, b).asm.state == 3
            <==> (c == Ack || c == Unknown || (c == Write && !ChecksumMatches(b.asm.buf)))
  {
  }

  /** What a frame that is never reset answers to every later byte. */
  function StuckReply(cfg: Config, m: seq<byte>): seq<byte>
    requires |m| >= MessageCapacity
  {
    match CommandOf(cfg.actions, m[0])
    case Ack => [0x80]
    case Write => [0x43]
    case _ => []
  }

  function Repeat(s: seq<byte>, k: nat): (r: seq<byte>)
    ensures |r| == k * |s|
  {
    if k == 0 then [] else Repeat(s, k - 1) + s
  }

  /**
   * Once a frame that is never reset is complete, every later byte
   * re-dispatches the same message: ACK answers 0x80 again, a WRITE with a
   * bad checksum 0x43 again, an unknown opcode nothing, and the message, the
   * C2 bus and the consumed answers stay as they are.
   */
  lemma {:induction false} StuckFrameRepeats(cfg: Config, dev: Device, b: Bridge, bytes: seq<byte>)
    requires Valid(b) && b.asm.state == 3 && Dispatch(cfg, dev, b).asm.state == 3
    ensures Feed(cfg, dev, b, bytes).asm == b.asm
    ensures Feed(cfg, dev, b, bytes).bus == b.bus && Feed(cfg, dev, b, bytes).consumed == b.consumed
    ensures Feed(cfg, dev, b, bytes).out == b.out + Repeat(StuckReply(cfg, b.asm.buf), |bytes|)
    decreases |bytes|
  {
    if bytes != [] {
      var front := bytes[..|bytes| - 1];
      StuckFrameRepeats(cfg, dev, b, front);
      var f := Feed(cfg, dev, b, front);
      StuckStep(cfg, dev, b, f, bytes[|bytes| - 1]);
      ConcatAssoc(b.out, Repeat(StuckReply(cfg, b.asm.buf), |front|), StuckReply(cfg, b.asm.buf));
    }
  }

  /** One more byte on a frame that is never reset: the same reply, and nothing else that matters changes. */
  lemma StuckStep(cfg: Config, dev: Device, b: Bridge, f: Bridge, data: byte)
    requires Valid(b) && b.asm.state == 3 && Dispatch(cfg, dev, b).asm.state == 3
    requires Valid(f) && f.asm == b.asm && f.bus == b.bus && f.consumed == b.consumed
    ensures var r := Next(cfg, dev, f, data);
            && r.asm == b.asm && r.bus == b.bus && r.consumed == b.consumed
            && r.out == f.out + StuckReply(cfg, b.asm.buf)
  {
    assert Step(f.asm, data) == f.asm;
  }

  /**
   * A WRITE frame is answered 0x83 and the machine is reset exactly when its
   * checksum matches, whatever `writeFlashBlock` returned; otherwise 0x43 and
   * the frame stays; only the accepted frame's block goes to the target.
   * Either way the payload has been copied to `_flashBuffer`.
   */
  lemma WriteVerdict(cfg: Config, dev: Device, b: Bridge)
    requires Valid(b) && b.asm.state == 3 && CommandOf(cfg.actions, b.asm.buf[0]) == Write
    ensures var r := Dispatch(cfg, dev, b);
            && r.out == b.out + [if ChecksumMatches(b.asm.buf) then 0x83 else 0x43]
            && (r.asm.state == 0 <==> ChecksumMatches(b.asm.buf))
            && r.flash[..b.asm.buf[2]] == Payload(b.asm.buf)
            && r.bus == b.bus + (if ChecksumMatches(b.asm.buf)
                                 then WriteBlockOps(cfg, dev, b.consumed, WriteAddress(b.asm.buf), Payload(b.asm.buf))
                                 else [])
  {
  }

  /**
   * READ answers 0x85 and exactly `_message[2]` bytes: the target's answers
   * when the status check passed, otherwise whatever `_flashBuffer` held.
   */
  lemma ReadReply(cfg: Config, dev: Device, b: Bridge)
    requires Valid(b) && b.asm.state == 3 && CommandOf(cfg.actions, b.asm.buf[0]) == Read
    ensures var r := Dispatch(cfg, dev, b);
            var n := b.asm.buf[2];
            && r.out == b.out + [0x85] + (if dev(b.consumed) == FlashReady then Answers(dev, b.consumed + 2, n)
                                         else b.flash[..n])
            && r.bus == b.bus + ReadBlockOps(cfg, dev, b.consumed, ReadAddress(b.asm.buf) % 0x1_0000, n)
            && r.asm.state == 0
  {
    var n := b.asm.buf[2];
    if dev(b.consumed) == FlashReady {
      assert (Answers(dev, b.consumed + 2, n) + b.flash[n..])[..n] == Answers(dev, b.consumed + 2, n);
    }
  }

  /** INFO answers the cached identity; only INIT changes it. */
  lemma InfoReply(cfg: Config, dev: Device, b: Bridge)
    requires Valid(b) && b.asm.state == 3
    ensures CommandOf(cfg.actions, b.asm.buf[0]) == Info ==>
              Dispatch(cfg, dev, b).out == b.out + [0x88, b.id, b.revision]
    ensures CommandOf(cfg.actions, b.asm.buf[0]) != Init ==>
              Dispatch(cfg, dev, b).id == b.id && Dispatch(cfg, dev, b).revision == b.revision
  {
  }

  /** The byte `data` completes an INIT frame. */
  predicate CompletesInit(cfg: Config, b: Bridge, data: byte)
    requires Valid(b)
  {
    var a := Step(b.asm, data);
    a.state == 3 && CommandOf(cfg.actions, a.buf[0]) == Init
  }

  /** No byte of `bytes`, fed from `b`, completes an INIT frame. */
  predicate NeverInit(cfg: Config, dev: Device, b: Bridge, bytes: seq<byte>)
    requires Valid(b)
  {
    bytes == []
    || (&& NeverInit(cfg, dev, b, bytes[..|bytes| - 1])
        && !CompletesInit(cfg, Feed(cfg, dev, b, bytes[..|bytes| - 1]), bytes[|bytes| - 1]))
  }

  /**
   * The identity starts as 0x00, 0x00 and only an INIT replaces it, so until
   * an INIT has been dispatched, INFO answers 0x88, 0x00, 0x00.
   */
  lemma {:induction false} IdentityZeroUntilInit(cfg: Config, dev: Device, b: Bridge, bytes: seq<byte>)
    requires Valid(b) && b.id == 0 && b.revision == 0
    requires NeverInit(cfg, dev, b, bytes)
    ensures Feed(cfg, dev, b, bytes).id == 0 && Feed(cfg, dev, b, bytes).revision == 0
    decreases |bytes|
  {
    if bytes != [] {
      IdentityZeroUntilInit(cfg, dev, b, bytes[..|bytes| - 1]);
    }
  }
}
