/**
 * The frames both host tools build (`ProgrammingInterface.getReadRequest`
 * and the write frame of `write`) and the per-line checks `write` makes on
 * an Intel HEX file before it sends anything.  The two tools share this code
 * line for line.
 */
module HostCodec {
  import opened Bytes
  import IntelHex

  /**
   * `getReadRequest(address, amount)`: opcode 0x05, a payload of five
   * bytes, the amount, the address big-endian in three bytes, a zero.
   */
  function ReadRequest(address: nat, amount: byte): (r: seq<byte>)
    ensures |r| == 7 && r[0] == 0x05 && r[1] as int == |r| - 2 && r[2] == amount && r[6] == 0
    ensures r[3] as int * 0x1_0000 + r[4] as int * 0x100 + r[5] == address % 0x100_0000
  {
    BigEndian3(address);
    [0x05, 0x05, amount, (address / 0x1_0000) % 0x100, (address / 0x100) % 0x100, address % 0x100, 0x00]
  }

  /** `(x >> 16) & 0xFF`, `(x >> 8) & 0xFF` and `x & 0xFF` are the low three bytes of `x`, big-endian. */
  lemma BigEndian3(x: nat)
    ensures ((x / 0x1_0000) % 0x100) * 0x1_0000 + ((x / 0x100) % 0x100) * 0x100 + x % 0x100 == x % 0x100_0000
  {
    var a, r := x / 0x1_0000, x % 0x1_0000;
    assert x == a * 0x1_0000 + r;
    assert x / 0x100 == a * 0x100 + r / 0x100;
    assert (x / 0x100) % 0x100 == r / 0x100;
    assert x % 0x100 == r % 0x100;
    assert x % 0x100_0000 == (a % 0x100) * 0x1_0000 + r;
  }

  /** Python's `s[i:j]` for `i <= j`: the part of `s[i..j]` that exists. */
  function Slice(s: string, i: nat, j: nat): string
    requires i <= j
  {
    s[Min(i, |s|)..Min(j, |s|)]
  }

  /** `crc = addressHi + addressLo; crc += data[i] ...; crc & 0xFF`. */
  function FrameChecksum(hi: byte, lo: byte, data: seq<byte>): byte
  {
    (hi + lo + Sum(data)) % 0x100
  }

  /** The running sum of `write`, kept unbounded and masked at the end. */
  method ComputeChecksum(hi: byte, lo: byte, data: seq<byte>) returns (crc: byte)
    ensures crc == FrameChecksum(hi, lo, data)
  {
    var sum: int := hi + lo;
    for i := 0 to |data|
      invariant sum == hi + lo + Sum(data[..i])
    {
      SumStep(data, i);
      sum := sum + data[i];
    }
    assert data[..|data|] == data;
    crc := sum % 0x100;
  }

  /**
   * The write frame as the source writes it, before pyserial turns the list
   * into bytes: `[0x3, len(data) + 5, len(data), 0, addressHi, addressLo, crc]`
   * followed by the data.  Its second entry is 256 when the data is 251
   * bytes long.
   */
  function FrameAsWritten(hi: byte, lo: byte, data: seq<byte>): seq<int>
  {
    [0x03, |data| + 5, |data|, 0, hi, lo, FrameChecksum(hi, lo, data)] + data
  }

  /** pyserial accepts a list only when every entry is a byte. */
  predicate AllBytes(s: seq<int>)
  {
    forall i :: 0 <= i < |s| ==> 0 <= s[i] < 0x100
  }

  /** The write frame for data the corrected guard lets through. */
  function WriteFrame(hi: byte, lo: byte, data: seq<byte>): (f: seq<byte>)
    requires |data| <= 250
    ensures f == FrameAsWritten(hi, lo, data)
  {
    [0x03, |data| + 5, |data|, 0, hi, lo, FrameChecksum(hi, lo, data)] + data
  }

  /** What `write` does with one line of the file. */
  datatype Decoded =
    | Skip                                                  // not a data record
    | Frame(address: nat, data: seq<byte>, frame: seq<byte>) // send this frame
    | Raise                                                 // an exception leaves `write`

  /** The address bytes and the data of a data record line. */
  datatype Fields = Fields(hi: byte, lo: byte, data: seq<byte>)

  /**
   * `int(line[3:5], 16)`, `int(line[5:7], 16)`,
   * `bytearray.fromhex(line[9 : 9 + length * 2])` and
   * `assert len(data) == length`; `None` where one of them raises.  Only
   * these characters are read as data: the record's own checksum is never
   * looked at.
   */
  function LineFields(line: string, length: byte): (f: Option<Fields>)
    ensures f.Some? ==> |f.value.data| == length
  {
    match (ParseHex2(Slice(line, 3, 5)), ParseHex2(Slice(line, 5, 7)), ParseHexBytes(Slice(line, 9, 9 + 2 * length)))
    case (Some(hi), Some(lo), Some(data)) => if |data| == length then Some(Fields(hi, lo, data)) else None
    case _ => None
  }

  /**
   * The checks of `write` on one line, as written: the ':' marker (an
   * `IndexError` on an empty line), the record type, the length field and
   * `assert length + 4 < 256`, the fields, and finally pyserial's refusal
   * of a frame entry above 255.
   */
  function DecodeLineAsWritten(line: string): Decoded
  {
    if |line| == 0 || line[0] != ':' then Raise
    else if Slice(line, 7, 9) != "00" then Skip
    else match ParseHex2(Slice(line, 1, 3))
      case None => Raise
      case Some(length) =>
        if !(length + 4 < 256) then Raise
        else match LineFields(line, length)
          case None => Raise
          case Some(f) =>
            if !AllBytes(FrameAsWritten(f.hi, f.lo, f.data)) then Raise
            else assert FrameAsWritten(f.hi, f.lo, f.data)[1] == |f.data| + 5;
                 Frame(f.hi as int * 0x100 + f.lo, f.data, WriteFrame(f.hi, f.lo, f.data))
  }

  /**
   * The same checks with the guard the frame needs, `length + 5 < 256`:
   * every line it accepts yields a frame of bytes.
   */
  function DecodeLine(line: string): (d: Decoded)
    ensures d.Frame? ==> |d.data| <= 250 && d.address < 0x1_0000
    ensures d.Frame? ==> |d.frame| == 7 + |d.data| && d.frame[7..] == d.data
  {
    if |line| == 0 || line[0] != ':' then Raise
    else if Slice(line, 7, 9) != "00" then Skip
    else match ParseHex2(Slice(line, 1, 3))
      case None => Raise
      case Some(length) =>
        if !(length + 5 < 256) then Raise
        else match LineFields(line, length)
          case None => Raise
          case Some(f) => Frame(f.hi as int * 0x100 + f.lo, f.data, WriteFrame(f.hi, f.lo, f.data))
  }

  /**
   * The checks of `write` on one line, step by step, with the running
   * checksum; the guard is the corrected one.
   */
  method CheckLine(line: string) returns (d: Decoded)
    ensures d == DecodeLine(line)
  {
    if |line| == 0 || line[0] != ':' {
      return Raise;
    }
    if Slice(line, 7, 9) != "00" {
      return Skip;
    }
    var length := ParseHex2(Slice(line, 1, 3));
    if length.None? || !(length.value as int + 5 < 256) {
      return Raise;
    }
    var fields := LineFields(line, length.value);
    if fields.None? {
      return Raise;
    }
    var hi, lo, data := fields.value.hi, fields.value.lo, fields.value.data;
    var crc := ComputeChecksum(hi, lo, data);
    var frame := [0x03, |data| + 5, |data|, 0, hi, lo, crc] + data;
    return Frame(hi as int * 0x100 + lo, data, frame);
  }

  /** The data record with 251 zero bytes at address 0 (its checksum field is never read). */
  function Record251(): string
  {
    ":FB000000" + HexUpper(seq(251, _ => 0)) + "00\n"
  }

  /**
   * As written, the guard `length + 4 < 256` passes a 251-byte data record,
   * whose frame then carries 256 as its length byte.
   */
  lemma GuardAdmits251()
    ensures var line := Record251();
            && Slice(line, 7, 9) == "00"
            && ParseHex2(Slice(line, 1, 3)) == Some(251)
            && 251 + 4 < 256
            && ParseHexBytes(Slice(line, 9, 9 + 2 * 251)) == Some(seq(251, _ => 0))
            && FrameAsWritten(0, 0, seq(251, _ => 0))[1] == 256
  {
    var line := Record251();
    var zeros: seq<byte> := seq(251, _ => 0);
    assert Slice(line, 9, 9 + 2 * 251) == HexUpper(zeros);
    ParseHexUpper(zeros);
  }

  /**
   * The corrected guard changes no outcome: where the source passes its
   * assert with length 251, pyserial raises instead.
   */
  lemma CorrectedGuardAgrees(line: string)
    ensures DecodeLine(line) == DecodeLineAsWritten(line)
  {
    if |line| > 0 && line[0] == ':' && Slice(line, 7, 9) == "00" && ParseHex2(Slice(line, 1, 3)) == Some(251) {
      var f := LineFields(line, 251);
      if f.Some? {
        assert FrameAsWritten(f.value.hi, f.value.lo, f.value.data)[1] == 256;
      }
    }
  }

  /**
   * `write` reads a line only up to the end of its data field: whatever
   * follows (the record's own checksum, the line ending) never changes
   * what the line is turned into, so a wrong checksum goes unnoticed.
   */
  lemma {:induction false} ChecksumFieldIgnored(line: string, tail: string, tail': string)
    requires |line| >= 9 && ParseHex2(Slice(line, 1, 3)).Some?
    requires |line| == 9 + 2 * ParseHex2(Slice(line, 1, 3)).value
    ensures DecodeLine(line + tail) == DecodeLine(line + tail')
  {
    var n: nat := ParseHex2(Slice(line, 1, 3)).value;
    var x, y := line + tail, line + tail';
    assert x[0] == line[0] == y[0];
    assert Slice(x, 1, 3) == Slice(line, 1, 3) == Slice(y, 1, 3);
    assert Slice(x, 3, 5) == Slice(line, 3, 5) == Slice(y, 3, 5);
    assert Slice(x, 5, 7) == Slice(line, 5, 7) == Slice(y, 5, 7);
    assert Slice(x, 7, 9) == Slice(line, 7, 9) == Slice(y, 7, 9);
    assert Slice(x, 9, 9 + 2 * n) == Slice(line, 9, 9 + 2 * n) == Slice(y, 9, 9 + 2 * n);
  }

  /** Characters `1 + 2i .. 1 + 2j` of a record line spell record bytes `i .. j`. */
  lemma LineSlice(record: seq<byte>, i: nat, j: nat)
    requires i <= j <= |record|
    ensures Slice(":" + HexUpper(record) + "\n", 1 + 2 * i, 1 + 2 * j) == HexUpper(record[i..j])
  {
    var line := ":" + HexUpper(record) + "\n";
    assert line[1 + 2 * i..1 + 2 * j] == HexUpper(record)[2 * i..2 * j];
    HexSlice(UpperDigits, record, i, j);
  }

  /** Characters `1 + 2i .. 3 + 2i` of a record line read back as record byte `i`. */
  lemma LineByte(record: seq<byte>, i: nat)
    requires i < |record|
    ensures ParseHex2(Slice(":" + HexUpper(record) + "\n", 1 + 2 * i, 3 + 2 * i)) == Some(record[i])
  {
    LineSlice(record, i, i + 1);
    assert HexUpper(record[i..i + 1]) == HexPair(UpperDigits, record[i]);
    ParsePair(UpperDigits, record[i]);
  }

  /** The fields `write` slices out of a record line the host's `read` emits. */
  lemma RecordLineFields(address: nat, body: seq<byte>)
    requires |body| < 256
    ensures var line := IntelHex.RecordLine(|body|, address, body);
            && ParseHex2(Slice(line, 1, 3)) == Some(|body|)
            && ParseHex2(Slice(line, 3, 5)) == Some((address / 0x100) % 0x100)
            && ParseHex2(Slice(line, 5, 7)) == Some(address % 0x100)
            && Slice(line, 7, 9) == "00"
            && ParseHexBytes(Slice(line, 9, 9 + 2 * |body|)) == Some(body)
  {
    var bytes := IntelHex.RecordBytes(|body|, address, body);
    var record := bytes + [IntelHex.Checksum(bytes)];
    assert IntelHex.RecordLine(|body|, address, body) == ":" + HexUpper(record) + "\n";
    LineByte(record, 0);
    LineByte(record, 1);
    LineByte(record, 2);
    LineSlice(record, 3, 4);
    assert HexUpper(record[3..4]) == "00";
    LineSlice(record, 4, 4 + |body|);
    assert record[4..4 + |body|] == body;
    ParseHexUpper(body);
  }

  /**
   * A data record line the host's `read` emits, with a byte count equal to
   * its data length, decodes in `write` to the frame for the same address
   * and data; a longer one raises.
   */
  lemma ReadRecordWrites(address: nat, body: seq<byte>)
    requires |body| < 256
    ensures var d := DecodeLine(IntelHex.RecordLine(|body|, address, body));
            var hi, lo := (address / 0x100) % 0x100, address % 0x100;
            if |body| <= 250 then d == Frame(address % 0x1_0000, body, WriteFrame(hi, lo, body))
            else d == Raise
  {
    var line := IntelHex.RecordLine(|body|, address, body);
    var hi, lo := (address / 0x100) % 0x100, address % 0x100;
    RecordLineFields(address, body);
    assert line[0] == ':';
    assert LineFields(line, |body|) == Some(Fields(hi, lo, body));
    BigEndian2(address);
  }

  /** `(x >> 8) & 0xFF` and `x & 0xFF` are the low two bytes of `x`, big-endian. */
  lemma BigEndian2(x: nat)
    ensures ((x / 0x100) % 0x100) * 0x100 + x % 0x100 == x % 0x1_0000
  {
    var a, r := x / 0x1_0000, x % 0x1_0000;
    assert x == a * 0x1_0000 + r;
    assert x / 0x100 == a * 0x100 + r / 0x100;
    assert x % 0x100 == r % 0x100;
  }
}
