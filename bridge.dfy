/**
 * The bridge firmware's `C2` class (lib/C2/C2.cpp) as an imperative class:
 * the receive buffer `_message` and the staging buffer `_flashBuffer` are
 * arrays updated in place, the parser state and the cached device identity
 * are fields, and every method is proved to do what the value-level model
 * in bridge_spec.dfy says.  `Loop` is proved to be exactly one
 * `BridgeSpec.Next` step, so every property proved there holds of the class.
 *
 * The serial port is a queue of received bytes and a log of written ones;
 * the target is the oracle `device` (answer to the k-th Data Read).  Pins,
 * clock pulses, delays and the LED are not modelled.
 */
module Bridge {
  import opened Bytes
  import opened BridgeSpec

  class C2 {
    const cfg: Config
    /** The target: its answer to the k-th Data Read. */
    const device: Device
    /** `_message`: the frame being assembled. */
    const message: array<byte>
    /** `_flashBuffer`: payload to write, or bytes read back. */
    const flashBuffer: array<byte>

    var state: nat
    var messagePtr: nat
    var bytesLeft: nat
    var deviceId: byte
    var deviceRevision: byte

    /** Bytes received and not yet read by `loop`. */
    var serialIn: seq<byte>
    /** Every byte written to the serial port. */
    var serialOut: seq<byte>
    /** Every C2 instruction issued. */
    var bus: seq<BusOp>
    /** How many Data Reads the target has answered. */
    var answered: nat

    ghost function Assembly(): Assembler
      reads this, message
    {
      Assembler(state, messagePtr, bytesLeft, message[..])
    }

    /** The observable state, as the value-level model describes it. */
    ghost function Snapshot(): Bridge
      reads this, message, flashBuffer
    {
      Bridge(Assembly(), deviceId, deviceRevision, serialOut, bus, answered, flashBuffer[..])
    }

    ghost predicate Valid()
      reads this, message, flashBuffer
    {
      && message != flashBuffer
      && flashBuffer.Length >= FlashBufferCapacity
      && BridgeSpec.Valid(Snapshot())
    }

    /** The constructor: identity 0x00, 0x00; `_state` starts at 0. */
    constructor (cfg: Config, device: Device, messageSize: nat, flashSize: nat, received: seq<byte>)
      requires messageSize >= MessageCapacity && flashSize >= FlashBufferCapacity
      ensures Valid() && Fresh(Snapshot())
      ensures this.cfg == cfg && this.device == device && serialIn == received
      ensures fresh(message) && fresh(flashBuffer)
    {
      this.cfg := cfg;
      this.device := device;
      message := new byte[messageSize](_ => 0);
      flashBuffer := new byte[flashSize](_ => 0);
      state, messagePtr, bytesLeft := 0, 0, 0;
      deviceId, deviceRevision := 0x00, 0x00;
      serialIn, serialOut, bus, answered := received, [], [], 0;
    }

    // -------------------------------------------------------------------
    // C2 primitives
    // -------------------------------------------------------------------

    method AddressWrite(address: byte)
      modifies this`bus
      ensures bus == old(bus) + [AddressWriteOp(address)]
    {
      bus := bus + [AddressWriteOp(address)];
    }

    method DataWrite(data: byte)
      modifies this`bus
      ensures bus == old(bus) + [DataWriteOp(data)]
    {
      bus := bus + [DataWriteOp(data)];
    }

    method DataRead() returns (value: byte)
      modifies this`bus, this`answered
      ensures value == device(old(answered)) && answered == old(answered) + 1
      ensures bus == old(bus) + [DataReadOp(value)]
    {
      value := device(answered);
      answered := answered + 1;
      bus := bus + [DataReadOp(value)];
    }

    /** `pollBitLow`: wait until the target clears `mask` in its status register. */
    method PollBitLow(mask: byte)
      modifies this`bus
      ensures bus == old(bus) + [PollLowOp(mask)]
    {
      bus := bus + [PollLowOp(mask)];
    }

    /** `pollBitHigh`: wait until the target sets `mask` in its status register. */
    method PollBitHigh(mask: byte)
      modifies this`bus
      ensures bus == old(bus) + [PollHighOp(mask)]
    {
      bus := bus + [PollHighOp(mask)];
    }

    method Send(b: byte)
      modifies this`serialOut
      ensures serialOut == old(serialOut) + [b]
    {
      serialOut := serialOut + [b];
    }

    // -------------------------------------------------------------------
    // Programming interface procedures
    // -------------------------------------------------------------------

    method Init()
      modifies this`bus
      ensures bus == old(bus) + InitOps(cfg)
    {
      AddressWrite(cfg.fpctl);
      DataWrite(0x02);
      DataWrite(0x04);
      DataWrite(0x01);
    }

    method DeviceInfo()
      modifies this`bus, this`answered, this`deviceId, this`deviceRevision
      ensures deviceId == device(old(answered)) && deviceRevision == device(old(answered) + 1)
      ensures answered == old(answered) + 2
      ensures bus == old(bus) + InfoOps(cfg, deviceId, deviceRevision)
    {
      AddressWrite(cfg.deviceIdRegister);
      deviceId := DataRead();
      AddressWrite(cfg.revisionRegister);
      deviceRevision := DataRead();
    }

    /** `dataWrite(d); pollBitLow(_inBusy)`: a byte to the flash interface, then wait until it is taken. */
    method WriteAndWait(d: byte)
      modifies this`bus
      ensures bus == old(bus) + Push(cfg, d)
    {
      DataWrite(d);
      PollBitLow(cfg.inBusy);
    }

    /** `pollBitHigh(_outReady); dataRead()`: wait for a byte from the flash interface and read it. */
    method WaitAndRead() returns (v: byte)
      modifies this`bus, this`answered
      ensures v == device(old(answered)) && answered == old(answered) + 1
      ensures bus == old(bus) + Fetch(cfg, v)
    {
      PollBitHigh(cfg.outReady);
      v := DataRead();
    }

    /**
     * The opening the three flash procedures share: select FPDAT, send the
     * command, wait until it is taken, and read the status.
     */
    method OpenCommand(command: byte) returns (status: byte)
      modifies this`bus, this`answered
      ensures status == device(old(answered)) && answered == old(answered) + 1
      ensures bus == old(bus) + Gate(cfg, command, status)
    {
      AddressWrite(cfg.fpdat);
      DataWrite(command);
      PollBitLow(cfg.inBusy);
      status := WaitAndRead();
    }

    /**
     * `readFlashBlock`: on a ready status, `count` bytes from the target land
     * in `data[0 .. count)`; on any other status nothing is stored.
     */
    method ReadFlashBlock(address: nat, data: array<byte>, count: byte) returns (ok: bool)
      requires address < 0x1_0000 && count <= data.Length
      modifies this`bus, this`answered, data
      ensures ok <==> device(old(answered)) == FlashReady
      ensures bus == old(bus) + ReadBlockOps(cfg, device, old(answered), address, count)
      ensures answered == old(answered) + ReadBlockReads(device, old(answered), count)
      ensures data[..] == ReadBlockBuffer(old(data[..]), device, old(answered), count)
    {
      ghost var start, b0 := answered, bus;
      var value := OpenCommand(cfg.blockRead);
      ghost var gate := Gate(cfg, cfg.blockRead, value);
      if value != FlashReady {
        assert gate + [] == gate;
        return false;
      }
      ReadBlockOpsReady(cfg, device, start, address, count);
      ghost var b1 := bus;
      ghost var block := Answers(device, start + 2, count);
      ghost var tail := BlockHeader(cfg, address, count) + Fetch(cfg, device(start + 1)) + Fetches(cfg, block);
      TransferBlock(address, data, count);
      assert bus == b1 + tail;
      ConcatAssoc(b0, gate, tail);
      assert data[..] == block + old(data[..])[count..] by {
        assert data[..] == data[..count] + data[count..];
      }
      return true;
    }

    /**
     * `readFlashBlock` after a ready status: address, length, the status the
     * interface answers, and the data loop.
     */
    method TransferBlock(address: nat, data: array<byte>, count: byte)
      requires address < 0x1_0000 && count <= data.Length
      modifies this`bus, this`answered, data
      ensures answered == old(answered) + 1 + count
      ensures bus == old(bus) + (BlockHeader(cfg, address, count) + Fetch(cfg, device(old(answered)))
                                 + Fetches(cfg, Answers(device, old(answered) + 1, count)))
      ensures data[..count] == Answers(device, old(answered) + 1, count)
      ensures data[count..] == old(data[..])[count..]
    {
      ghost var b0 := bus;
      WriteAndWait(address / 256);
      WriteAndWait(address % 256);
      WriteAndWait(count);
      var _ := WaitAndRead();
      ghost var header := BlockHeader(cfg, address, count) + Fetch(cfg, device(old(answered)));
      assert bus == b0 + header;
      FetchBlock(data, count);
      ConcatAssoc(b0, header, Fetches(cfg, Answers(device, old(answered) + 1, count)));
    }

    /** The data loop of `readFlashBlock`: `count` bytes from the target into `data[0 .. count)`. */
    method FetchBlock(data: array<byte>, count: byte)
      requires count <= data.Length
      modifies this`bus, this`answered, data
      ensures answered == old(answered) + count
      ensures bus == old(bus) + Fetches(cfg, Answers(device, old(answered), count))
      ensures data[..count] == Answers(device, old(answered), count)
      ensures data[count..] == old(data[..])[count..]
    {
      ghost var from, got := answered, [];
      for i := 0 to count
        invariant answered == from + i
        invariant got == Answers(device, from, i)
        invariant bus == old(bus) + Fetches(cfg, got)
        invariant forall k :: 0 <= k < i ==> data[k] == got[k]
        invariant forall k :: i <= k < data.Length ==> data[k] == old(data[k])
      {
        var v := WaitAndRead();
        data[i] := v;
        FetchesSnoc(cfg, got, v);
        ConcatAssoc(old(bus), Fetches(cfg, got), Fetch(cfg, v));
        assert Answers(device, from, i + 1) == got + [v];
        got := got + [v];
      }
      assert data[..count] == got;
    }

    /**
     * `writeFlashBlock`: reports success only when both the opening and the
     * closing status are 0x0D.
     */
    method WriteFlashBlock(address: nat, data: array<byte>, length: byte) returns (ok: bool)
      requires address < 0x1_0000 && length <= data.Length
      modifies this`bus, this`answered
      ensures ok <==> device(old(answered)) == FlashReady && device(old(answered) + 1) == FlashReady
      ensures bus == old(bus) + WriteBlockOps(cfg, device, old(answered), address, data[..length])
      ensures answered == old(answered) + GatedReads(device, old(answered))
    {
      ghost var b0 := bus;
      var value := OpenCommand(cfg.blockWrite);
      ghost var gate := Gate(cfg, cfg.blockWrite, value);
      if value != FlashReady {
        assert gate + [] == gate;
        return false;
      }
      ghost var b1 := bus;
      WriteAndWait(address / 256);
      WriteAndWait(address % 256);
      WriteAndWait(length);
      ghost var header := BlockHeader(cfg, address, length);
      assert bus == b1 + header;
      ghost var b2 := bus;
      ghost var pushed: seq<byte> := [];
      for i := 0 to length
        invariant answered == old(answered) + 1
        invariant pushed == data[..i]
        invariant bus == b2 + Pushes(cfg, pushed)
      {
        WriteAndWait(data[i]);
        PushesSnoc(cfg, pushed, data[i]);
        pushed := pushed + [data[i]];
      }
      ghost var b3 := bus;
      value := WaitAndRead();
      ghost var closing := Fetch(cfg, value);
      ConcatAssoc4(b1, header, Pushes(cfg, pushed), closing);
      ConcatAssoc(b0, gate, header + Pushes(cfg, pushed) + closing);
      WriteBlockOpsReady(cfg, device, old(answered), address, data[..length]);
      return value == FlashReady;
    }

    /** `eraseDevice`: sends the erase key after a ready status. */
    method EraseDevice() returns (ok: bool)
      modifies this`bus, this`answered
      ensures ok <==> device(old(answered)) == FlashReady && device(old(answered) + 1) == FlashReady
      ensures bus == old(bus) + EraseOps(cfg, device, old(answered))
      ensures answered == old(answered) + GatedReads(device, old(answered))
    {
      ghost var b0 := bus;
      var value := OpenCommand(cfg.deviceErase);
      ghost var gate := Gate(cfg, cfg.deviceErase, value);
      if value != FlashReady {
        assert gate + [] == gate;
        return false;
      }
      ghost var b1 := bus;
      WriteAndWait(0xDE);
      WriteAndWait(0xAD);
      WriteAndWait(0xA5);
      value := WaitAndRead();
      ghost var key := Push(cfg, 0xDE) + Push(cfg, 0xAD) + Push(cfg, 0xA5) + Fetch(cfg, value);
      ConcatAssoc5(b1, Push(cfg, 0xDE), Push(cfg, 0xAD), Push(cfg, 0xA5), Fetch(cfg, value));
      ConcatAssoc(b0, gate, key);
      return value == FlashReady;
    }

    // -------------------------------------------------------------------
    // Frame assembly and dispatch
    // -------------------------------------------------------------------

    method ResetState()
      modifies this`state
      ensures state == 0
    {
      state := 0;
    }

    /** `updateState`: one received byte into `_message`. */
    method UpdateState(data: byte) returns (s: nat)
      requires Valid()
      modifies this`state, this`messagePtr, this`bytesLeft, message
      ensures Valid()
      ensures Assembly() == Step(old(Assembly()), data) && s == state
    {
      if state == 0 {
        messagePtr := 0;
        message[messagePtr] := data;
        messagePtr := messagePtr + 1;
        state := 1;
      } else if state == 1 {
        bytesLeft := data;
        message[messagePtr] := data;
        messagePtr := messagePtr + 1;
        if bytesLeft == 0 {
          state := 3;
        } else {
          state := 2;
        }
      } else if state == 2 {
        message[messagePtr] := data;
        messagePtr := messagePtr + 1;
        bytesLeft := bytesLeft - 1;
        if bytesLeft == 0 {
          state := 3;
        }
      }
      s := state;
    }

    /** The first loop of the WRITE case: the payload `_message[7 ..]` into `_flashBuffer`. */
    method StagePayload()
      requires Valid()
      modifies flashBuffer
      ensures flashBuffer[..] == Payload(message[..]) + old(flashBuffer[..])[message[2]..]
    {
      var n := message[2];
      for i := 0 to n
        invariant flashBuffer[..i] == message[7..7 + i]
        invariant flashBuffer[i..] == old(flashBuffer[..])[i..]
      {
        flashBuffer[i] := message[i + 7];
        assert flashBuffer[..i + 1] == message[7..7 + i] + [message[i + 7]];
      }
      assert flashBuffer[..] == flashBuffer[..n] + flashBuffer[n..];
    }

    /**
     * The second loop of the WRITE case: the 8-bit sum (`unsigned char`) of
     * both address bytes and the staged payload.
     */
    method StagedChecksum() returns (newcrc: byte)
      requires Valid() && flashBuffer[..message[2]] == Payload(message[..])
      ensures newcrc == (message[4] + message[5] + Sum(Payload(message[..]))) % 256
    {
      newcrc := (message[5] as int + message[4]) % 256;
      for i := 0 to message[2]
        invariant newcrc == (message[4] as int + message[5] + Sum(flashBuffer[..i])) % 256
      {
        SumModStep(message[4] as int + message[5], flashBuffer[..], i);
        newcrc := (newcrc + flashBuffer[i]) % 256;
      }
    }

    /** The WRITE case of `loop`. */
    method HandleWrite()
      requires Valid() && state == 3
      modifies this`state, this`serialOut, this`bus, this`answered, flashBuffer
      ensures Valid()
      ensures Snapshot() == WriteCase(cfg, device, old(Snapshot()))
    {
      var address := message[4] as int * 256 + message[5];
      var crc := message[6];
      StagePayload();
      assert flashBuffer[..message[2]] == Payload(message[..]);
      var newcrc := StagedChecksum();
      if crc != newcrc {
        Send(0x43);
        return;
      }
      var n := message[2];
      var _ := WriteFlashBlock(address, flashBuffer, n);
      Send(0x83);
      ResetState();
    }

    /** The reply loop of the READ case: the first `count` bytes of `_flashBuffer`. */
    method SendBlock(count: byte)
      requires count <= flashBuffer.Length
      modifies this`serialOut
      ensures serialOut == old(serialOut) + flashBuffer[..count]
    {
      ghost var sent := [];
      for i := 0 to count
        invariant sent == flashBuffer[..i]
        invariant serialOut == old(serialOut) + sent
      {
        Send(flashBuffer[i]);
        sent := sent + [flashBuffer[i]];
      }
    }

    /** The READ case of `loop`. */
    method HandleRead()
      requires Valid() && state == 3
      modifies this`state, this`serialOut, this`bus, this`answered, flashBuffer
      ensures Valid()
      ensures Snapshot() == ReadCase(cfg, device, old(Snapshot()))
    {
      ghost var expected := ReadCase(cfg, device, Snapshot());
      var count := message[2];
      var address := message[3] as int * 0x1_0000 + message[4] as int * 0x100 + message[5];
      var _ := ReadFlashBlock(address % 0x1_0000, flashBuffer, count);
      assert flashBuffer[..] == expected.flash && bus == expected.bus && answered == expected.consumed;
      ResetState();
      Send(0x85);
      SendBlock(count);
      assert serialOut == expected.out;
      assert Assembly() == expected.asm;
    }

    /** The INIT case of `loop`: enable programming, read the identity, answer 0x81. */
    method HandleInit()
      requires Valid() && state == 3
      modifies this`state, this`serialOut, this`bus, this`answered, this`deviceId, this`deviceRevision
      ensures Valid()
      ensures Snapshot() == InitCase(cfg, device, old(Snapshot()))
    {
      ghost var b0 := bus;
      Init();
      DeviceInfo();
      ConcatAssoc(b0, InitOps(cfg), InfoOps(cfg, deviceId, deviceRevision));
      Send(0x81);
      ResetState();
    }

    /** The ERASE case of `loop`: erase, reset and answer 0x84 whatever the outcome. */
    method HandleErase()
      requires Valid() && state == 3
      modifies this`state, this`serialOut, this`bus, this`answered
      ensures Valid()
      ensures Snapshot() == EraseCase(cfg, device, old(Snapshot()))
    {
      var _ := EraseDevice();
      ResetState();
      Send(0x84);
    }

    /** The `switch(_message[0])` of `loop`, once a frame is complete. */
    method Execute()
      requires Valid() && state == 3
      modifies this`state, this`serialOut, this`bus, this`answered, this`deviceId, this`deviceRevision, flashBuffer
      ensures Valid()
      ensures Snapshot() == Dispatch(cfg, device, old(Snapshot()))
    {
      match CommandOf(cfg.actions, message[0])
      case Ack =>
        Send(0x80);
      case Init =>
        HandleInit();
      case Reset =>
        ResetState();
        Send(0x82);
      case Write =>
        HandleWrite();
      case Erase =>
        HandleErase();
      case Read =>
        HandleRead();
      case Info =>
        ResetState();
        Send(0x88);
        Send(deviceId);
        Send(deviceRevision);
      case Unknown =>
    }

    /**
     * `loop`: when a byte is available, read it, feed it to `updateState`
     * and, if that completes a frame, dispatch it.  This is one step of the
     * value-level model.
     */
    method Loop()
      requires Valid()
      modifies this, message, flashBuffer
      ensures Valid()
      ensures old(serialIn) == [] ==> serialIn == [] && Snapshot() == old(Snapshot())
      ensures old(serialIn) != [] ==>
                serialIn == old(serialIn)[1..] && Snapshot() == Next(cfg, device, old(Snapshot()), old(serialIn)[0])
    {
      if serialIn != [] {
        var data := serialIn[0];
        serialIn := serialIn[1..];
        var _ := UpdateState(data);
        if state == 3 {
          Execute();
        }
      }
    }

    /**
     * The firmware's main loop run until the receive queue is empty: the
     * state reached is that of feeding every queued byte to the model.
     */
    method Drain()
      requires Valid()
      modifies this, message, flashBuffer
      ensures Valid() && serialIn == []
      ensures Snapshot() == Feed(cfg, device, old(Snapshot()), old(serialIn))
    {
      ghost var received, start, k := serialIn, Snapshot(), 0;
      while serialIn != []
        invariant Valid() && BridgeSpec.Valid(start)
        invariant k <= |received| && serialIn == received[k..]
        invariant Snapshot() == Feed(cfg, device, start, received[..k])
        decreases |serialIn|
      {
        assert serialIn[0] == received[k];
        Loop();
        assert received[..k + 1][..k] == received[..k];
        k := k + 1;
      }
      assert received[..k] == received;
    }
  }
}
