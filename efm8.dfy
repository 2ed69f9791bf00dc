/**
 * `client/efm8.py`: the command-line programmer.  Each method of
 * `ProgrammingInterface` is proved against the session functions of
 * `HostSession`, over a port whose incoming bytes are scripted.
 */
module Efm8 {
  import opened Bytes
  import opened HostCodec
  import opened HostSession
  import opened SerialPort
  import IntelHex

  class ProgrammingInterface {
    const serial: Port

    /** Opening the port and the two-second pause are not modelled: the port is given. */
    constructor (serial: Port)
      ensures this.serial == serial
    {
      this.serial := serial;
    }

    /** `initialize`: INIT must be answered 0x81, otherwise the program exits. */
    method Initialize() returns (r: Outcome<Halt>)
      modifies serial
      ensures Done(serial.State(), r) == HostSession.Initialize(old(serial.State()))
    {
      serial.Write(InitRequest);
      var result := serial.Read(1);
      r := if result == [0x81] then Pass else Fail(Exited);
    }

    /**
     * `read(file, start, size, chunksize)`: for each address of
     * `range(start, start + size, chunksize)` send a read request, wait for
     * a reply of two or more bytes, and write the reply body as one data
     * record.  `stalled` means the source is still waiting.
     */
    method Read(start: nat, size: nat, chunk: byte) returns (lines: seq<string>, stalled: bool)
      requires chunk > 0
      modifies serial
      ensures Dump(serial.State(), lines, stalled) == ReadAll(old(serial.State()), Chunks(start, start + size, chunk), chunk)
    {
      ghost var l0 := serial.State();
      ghost var all := Chunks(start, start + size, chunk);
      ghost var done: seq<nat> := [];
      lines, stalled := [], false;
      var address := start;
      while address < start + size
        invariant all == done + Chunks(address, start + size, chunk)
        invariant Dump(serial.State(), lines, false) == ReadAll(l0, done, chunk)
        decreases start + size - address
      {
        var here := address;
        ghost var next := done + [here];
        assert Chunks(here, start + size, chunk) == [here] + Chunks(here + chunk, start + size, chunk);
        address := address + chunk;
        ghost var later := Chunks(address, start + size, chunk);
        ConcatAssoc(done, [here], later);
        assert all == next + later;
        assert (next + later)[..|next|] == next;
        assert next[..|next| - 1] == done;
        assert ReadAll(l0, next, chunk) == ReadChunk(ReadAll(l0, done, chunk), here, chunk);
        serial.Write(ReadRequest(here, chunk));
        var response := serial.AwaitReply(chunk);
        if response.None? {
          stalled := true;
          StalledStays(l0, all, |next|, chunk);
          return;
        }
        var body := response.value[1..];
        var line := IntelHex.FormatRecord(chunk, here, body);
        lines := lines + [line];
        done := next;
      }
      assert Chunks(address, start + size, chunk) == [];
      assert done == all;
    }

    /** `erase`: ERASE must be answered 0x84. */
    method Erase() returns (r: Outcome<Halt>)
      modifies serial
      ensures Done(serial.State(), r) == HostSession.Erase(old(serial.State()))
    {
      serial.Write(EraseRequest);
      var result := serial.Read(1);
      r := if result == [0x84] then Pass else Fail(Raised);
    }

    /** `reset`: RESET must be answered 0x82. */
    method Reset() returns (r: Outcome<Halt>)
      modifies serial
      ensures Done(serial.State(), r) == HostSession.Reset(old(serial.State()))
    {
      serial.Write(ResetRequest);
      var result := serial.Read(1);
      r := if result == [0x82] then Pass else Fail(Raised);
    }

    /**
     * One pass of the `for line in lines` loop of `write` once the line's
     * checks are done: nothing, an exception, or the frame and its answer.
     * `None` means the loop goes on.
     */
    method SendLine(d: Decoded) returns (stop: Option<Verdict>)
      requires d.Frame? ==> |d.frame| == 7 + |d.data| && d.frame[7..] == d.data
      modifies serial
      ensures LineStep(false, Going(old(serial.State())), d)
              == if stop.None? then Going(serial.State()) else Ended(serial.State(), stop.value)
    {
      match d
      case Skip =>
        stop := None;
      case Raise =>
        stop := Some(Halted(Raised));
      case Frame(_, data, frame) =>
        ghost var sent := Sent(serial.State(), frame);
        serial.Write(frame[..7]);
        serial.Write(data);
        assert frame[..7] + data == frame;
        var response := serial.Read(1);
        assert response == Received(sent, 1) && serial.State() == AfterRead(sent, 1);
        stop := if response != [0x83] then Some(Rejected) else None;
    }

    /**
     * `write(file)`: one frame per data record line, each to be answered
     * 0x83; the first other answer ends the call without a reset, and a
     * reset follows only when every line went through.
     */
    method Write(lines: seq<string>) returns (v: Verdict)
      modifies serial
      ensures Ended(serial.State(), v) == WriteSession(false, old(serial.State()), lines)
    {
      ghost var l0 := serial.State();
      ghost var items := DecodeAll(lines);
      for i := 0 to |lines|
        invariant WriteLines(false, l0, items[..i]) == Going(serial.State())
      {
        ghost var g := serial.State();
        assert items[..i + 1][..i] == items[..i];
        assert WriteLines(false, l0, items[..i + 1]) == LineStep(false, Going(g), items[i]);
        var d := CheckLine(lines[i]);
        var stop := SendLine(d);
        if stop.Some? {
          EndedStays(false, l0, items, i + 1);
          return stop.value;
        }
      }
      assert items[..|lines|] == items;
      var r := Reset();
      v := if r.Pass? then Completed else Halted(Raised);
    }

    /** `deviceInfo`: INFO must be answered 0x88; the identity and revision are only printed. */
    method DeviceInfo() returns (r: Outcome<Halt>)
      modifies serial
      ensures Done(serial.State(), r) == (var d := HostSession.DeviceInfo(old(serial.State()));
                                          Done(d.link, if d.id.Ok? then Pass else Fail(d.id.error)))
    {
      serial.Write(InfoRequest);
      var result := serial.Read(1);
      if result != [0x88] {
        return Fail(Raised);
      }
      var deviceId := serial.Read(1);
      var revision := serial.Read(1);
      r := Pass;
    }
  }
}
