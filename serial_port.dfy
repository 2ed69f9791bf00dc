/**
 * The host's serial port (`self.serial`), with the bytes the bridge will
 * send scripted in advance: a read returns what has arrived, up to the
 * amount asked for, and nothing once the script is used up (the timeout).
 */
module SerialPort {
  import opened Bytes
  import opened HostSession

  class Port {
    /** Bytes that will still arrive, in order. */
    var rx: seq<byte>
    /** Bytes written so far. */
    var tx: seq<byte>

    constructor (script: seq<byte>)
      ensures rx == script && tx == []
    {
      rx, tx := script, [];
    }

    function State(): Link
      reads this
    {
      Link(rx, tx)
    }

    /** `serial.write(bytes)`. */
    method Write(bytes: seq<byte>)
      modifies this
      ensures State() == Sent(old(State()), bytes)
    {
      tx := tx + bytes;
    }

    /** `serial.read(k)`. */
    method Read(k: nat) returns (r: seq<byte>)
      modifies this
      ensures r == Received(old(State()), k) && State() == AfterRead(old(State()), k)
    {
      var n := Min(k, |rx|);
      r, rx := rx[..n], rx[n..];
    }

    /**
     * The `while True` loop of `read`: read `size + 1` bytes until a read
     * returns more than one.  When nothing more can arrive the source spins
     * for ever; the model returns `None` there.
     */
    method AwaitReply(size: nat) returns (r: Option<seq<byte>>)
      modifies this
      ensures r == Awaited(old(State()), size) && State() == AfterAwait(old(State()), size)
    {
      while true
        invariant tx == old(tx)
        invariant size == 0 || rx == old(rx)
        decreases |rx|
      {
        var response := Read(size + 1);
        if |response| > 1 {
          return Some(response);
        }
        if rx == [] {
          return None;
        }
      }
    }
  }
}
