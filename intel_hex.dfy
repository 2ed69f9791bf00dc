/**
 * Intel HEX data records as the host's `read` emits them: a colon, the
 * record bytes in upper-case hexadecimal (byte count, address high, address
 * low, record type 00, the data, the checksum) and a newline.  The checksum
 * is the two's complement of the 8-bit sum of the preceding bytes, so that
 * all record bytes add up to zero modulo 256 ("Intel Hexadecimal Object
 * File Format Specification", Data Record).
 */
module IntelHex {
  import opened Bytes

  /** Record type of a Data Record. */
  const DataRecord: byte := 0x00

  /**
   * The record before its checksum:
   * `bytearray([chunksize, (address >> 8) & 0xFF, address & 0xFF, 0x00]) + body`.
   * The count field is whatever the caller passes, not `|body|`.
   */
  function RecordBytes(count: byte, address: nat, body: seq<byte>): seq<byte>
  {
    [count, (address / 0x100) % 0x100, address % 0x100, DataRecord] + body
  }

  /**
   * `(~crc + 1) & 0xFF` for the running sum `crc >= 0`: on Python integers
   * `~crc` is `-crc - 1`, and `& 0xFF` keeps the least residue modulo 256.
   */
  function Checksum(bytes: seq<byte>): byte
  {
    ((-Sum(bytes) - 1) + 1) % 0x100
  }

  /** `":%s\n" % line.hex().upper()` for the record and its checksum. */
  function RecordLine(count: byte, address: nat, body: seq<byte>): string
  {
    var bytes := RecordBytes(count, address, body);
    ":" + HexUpper(bytes + [Checksum(bytes)]) + "\n"
  }

  /** The bytes a record line spells: `None` unless it is a colon, digit pairs and a newline. */
  function ParseRecord(line: string): Option<seq<byte>>
  {
    if |line| >= 2 && line[0] == ':' && line[|line| - 1] == '\n'
    then ParseHexBytes(line[1..|line| - 1])
    else None
  }

  /** A well-formed data record: header, data, checksum, all bytes summing to zero modulo 256. */
  predicate ValidDataRecord(r: seq<byte>)
  {
    |r| >= 5 && r[3] == DataRecord && Sum(r) % 0x100 == 0
  }

  /** Appending the checksum makes the record sum to zero modulo 256. */
  lemma ChecksumCancels(bytes: seq<byte>)
    ensures Sum(bytes + [Checksum(bytes)]) % 0x100 == 0
  {
    SumConcat(bytes, [Checksum(bytes)]);
    assert Sum([Checksum(bytes)]) == Checksum(bytes) by {
      assert [Checksum(bytes)][..0] == [];
    }
  }

  /** A colon, upper-case digit pairs and a newline read back as the bytes they spell. */
  lemma ParseLine(record: seq<byte>)
    ensures ParseRecord(":" + HexUpper(record) + "\n") == Some(record)
  {
    var line := ":" + HexUpper(record) + "\n";
    assert line[1..|line| - 1] == HexUpper(record);
    ParseHexUpper(record);
  }

  /**
   * Every emitted line reads back as a valid data record whose count field
   * is `count`, whose address is the low 16 bits of `address`, and whose
   * data is `body`.
   */
  lemma EmittedRecord(count: byte, address: nat, body: seq<byte>)
    ensures var r := ParseRecord(RecordLine(count, address, body));
            && r.Some?
            && ValidDataRecord(r.value)
            && r.value[0] == count
            && r.value[1] as int * 0x100 + r.value[2] == address % 0x1_0000
            && r.value[4..|r.value| - 1] == body
            && |r.value| == |body| + 5
  {
    var bytes := RecordBytes(count, address, body);
    var record := bytes + [Checksum(bytes)];
    ParseLine(record);
    ChecksumCancels(bytes);
    assert record[4..|record| - 1] == body;
  }

  /**
   * The emitting step of `read`: the record bytes, the running sum, the
   * checksum appended, the hexadecimal line.
   */
  method FormatRecord(count: byte, address: nat, body: seq<byte>) returns (line: string)
    ensures line == RecordLine(count, address, body)
  {
    var bytes := RecordBytes(count, address, body);
    var crc: int := 0;
    for i := 0 to |bytes|
      invariant crc == Sum(bytes[..i])
    {
      SumStep(bytes, i);
      crc := crc + bytes[i];
    }
    assert bytes[..|bytes|] == bytes;
    var check: byte := ((-crc - 1) + 1) % 0x100;
    line := ":" + HexUpper(bytes + [check]) + "\n";
  }
}
