/**
 * `client/flash_tool.py`: the programmer behind the graphical tool.  Its
 * `ProgrammingInterface` is efm8's with a read-back after every written
 * block and a `deviceInfo` that returns the identity as hexadecimal text;
 * `AppContext` opens the interface once and checks the device identity.
 */
module FlashTool {
  import opened Bytes
  import opened HostCodec
  import opened HostSession
  import opened SerialPort
  import IntelHex

  class ProgrammingInterface {
    const serial: Port

    /** Opening the port and the two-second pause are not modelled: the port is given. */
    constructor (serial: Port)
      ensures this.serial == serial
    {
      this.serial := serial;
    }

    /** `initialize`: INIT must be answered 0x81, otherwise the program exits. */
    method Initialize() returns (r: Outcome<Halt>)
      modifies serial
      ensures Done(serial.State(), r) == HostSession.Initialize(old(serial.State()))
    {
      serial.Write(InitRequest);
      var result := serial.Read(1);
      r := if result == [0x81] then Pass else Fail(Exited);
    }

    /**
     * `read(address, size)`: one request, the wait for two or more bytes, a
     * record line that is built and dropped, and the value of `prettyHex`.
     */
    method Read(address: nat, size: nat) returns (r: Result<Option<string>, Halt>)
      modifies serial
      ensures Shown(serial.State(), r) == ReadBack(old(serial.State()), address, size)
    {
      if size > 0xFF {
        return Err(Raised);
      }
      serial.Write(ReadRequest(address, size));
      var response := serial.AwaitReply(size);
      if response.None? {
        return Err(Stalled);
      }
      var body := response.value[1..];
      var line := IntelHex.FormatRecord(size, address, body);
      r := Ok(PrettyHex(address, body));
    }

    /** `erase`: ERASE must be answered 0x84. */
    method Erase() returns (r: Outcome<Halt>)
      modifies serial
      ensures Done(serial.State(), r) == HostSession.Erase(old(serial.State()))
    {
      serial.Write(EraseRequest);
      var result := serial.Read(1);
      r := if result == [0x84] then Pass else Fail(Raised);
    }

    /** `reset`: RESET must be answered 0x82. */
    method Reset() returns (r: Outcome<Halt>)
      modifies serial
      ensures Done(serial.State(), r) == HostSession.Reset(old(serial.State()))
    {
      serial.Write(ResetRequest);
      var result := serial.Read(1);
      r := if result == [0x82] then Pass else Fail(Raised);
    }

    /**
     * One pass of the `for line in lines` loop of `write` once the line's
     * checks are done: nothing, an exception, or the frame and its answer, then the read-back of the block just written.
     * `None` means the loop goes on.
     */
    method SendLine(d: Decoded) returns (stop: Option<Verdict>)
      requires d.Frame? ==> |d.frame| == 7 + |d.data| && d.frame[7..] == d.data
      modifies serial
      ensures LineStep(true, Going(old(serial.State())), d)
              == if stop.None? then Going(serial.State()) else Ended(serial.State(), stop.value)
    {
      match d
      case Skip =>
        stop := None;
      case Raise =>
        stop := Some(Halted(Raised));
      case Frame(address, data, frame) =>
        ghost var sent := Sent(serial.State(), frame);
        var expected := PrettyHex(address, data);
        serial.Write(frame[..7]);
        serial.Write(data);
        assert frame[..7] + data == frame;
        var response := serial.Read(1);
        ghost var acked := serial.State();
        assert response == Received(sent, 1) && acked == AfterRead(sent, 1);
        if response != [0x83] {
          return Some(Rejected);
        }
        var shown := Read(address, |data|);
        assert Shown(serial.State(), shown) == ReadBack(acked, address, |data|);
        match shown
        case Err(why) =>
          stop := Some(Halted(why));
        case Ok(value) =>
          stop := if value != expected then Some(Mismatch) else None;
    }

    /**
     * `write(file)`: as efm8's, with the read-back; the first failure ends
     * the call without a reset.
     */
    method Write(lines: seq<string>) returns (v: Verdict)
      modifies serial
      ensures Ended(serial.State(), v) == WriteSession(true, old(serial.State()), lines)
    {
      ghost var l0 := serial.State();
      ghost var items := DecodeAll(lines);
      for i := 0 to |lines|
        invariant WriteLines(true, l0, items[..i]) == Going(serial.State())
      {
        ghost var g := serial.State();
        assert items[..i + 1][..i] == items[..i];
        assert WriteLines(true, l0, items[..i + 1]) == LineStep(true, Going(g), items[i]);
        var d := CheckLine(lines[i]);
        var stop := SendLine(d);
        if stop.Some? {
          EndedStays(true, l0, items, i + 1);
          return stop.value;
        }
      }
      assert items[..|lines|] == items;
      var r := Reset();
      v := if r.Pass? then Completed else Halted(Raised);
    }

    /** `deviceInfo`: INFO must be answered 0x88; returns the identity byte read as lower-case hexadecimal. */
    method DeviceInfo() returns (r: Result<string, Halt>)
      modifies serial
      ensures var d := HostSession.DeviceInfo(old(serial.State()));
              && serial.State() == d.link
              && r == match d.id { case Ok(id) => Ok(HexLower(id)) case Err(e) => Err(e) }
    {
      serial.Write(InfoRequest);
      var result := serial.Read(1);
      if result != [0x88] {
        return Err(Raised);
      }
      var deviceId := serial.Read(1);
      var revision := serial.Read(1);
      r := Ok(HexLower(deviceId));
    }
  }

  /** The tool's state: the interface once opened, and the chosen port name. */
  class AppContext {
    var iface: ProgrammingInterface?
    var port: string

    constructor ()
      ensures iface == null && port == ""
    {
      iface, port := null, "";
    }

    /** `choosePort`: the name picked from the listed ports (the listing and the prompt are not modelled). */
    method ChoosePort(name: string)
      modifies this
      ensures port == name && iface == old(iface)
    {
      port := name;
    }

    /**
     * `getProgrammingInterface`: with no interface yet and no port, `False`;
     * otherwise the interface on `link` is opened and kept, initialised, and
     * accepted only if the device identity reads "39".  The interface is kept
     * even when rejected, so every later call answers `True` unchecked.
     */
    method GetProgrammingInterface(link: Port) returns (r: Result<bool, Halt>)
      modifies this, link
      ensures old(iface) != null ==> r == Ok(true) && iface == old(iface) && unchanged(link)
      ensures old(iface) == null && port == "" ==> r == Ok(false) && iface == null && unchanged(link)
      ensures old(iface) == null && port != "" ==>
                && iface != null && fresh(iface) && iface.serial == link
                && Answer(link.State(), r) == Identify(old(link.State()))
      ensures port == old(port)
    {
      if iface != null {
        return Ok(true);
      }
      if port == "" {
        return Ok(false);
      }
      var created := new ProgrammingInterface(link);
      iface := created;
      var init := created.Initialize();
      if init.Fail? {
        return Err(init.error);
      }
      var id := created.DeviceInfo();
      match id
      case Err(e) =>
        r := Err(e);
      case Ok(hex) =>
        r := Ok(hex == "39");
    }
  }
}
