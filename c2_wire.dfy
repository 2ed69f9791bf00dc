/**
 * The four C2 instructions the bridge clocks out on the D line, as bit
 * sequences.  C2 sends every field least significant bit first (SiLabs
 * Application Note AN127): a Data Write is the instruction code 01, the
 * length code 00 and the data byte; an Address Write is the code 11 and the
 * address; a Data Read is the code 00 and the length code 00, after which the
 * target drives eight data bits; an Address Read is the code 10, after which
 * the target drives the eight bits of its address register.
 *
 * The source works on `uint8_t` and `uint16_t`, so this module does too
 * (`bv8`, `bv16`).  Clock pulses, the start and stop cycles and the wait for
 * the target's ready bit are timing, not data, and are not part of these
 * sequences.
 */
module C2Wire {

  /** Bit `j` of a 16-bit instruction word, as `(word >> j) & 0x1` reads it. */
  predicate Bit(word: bv16, j: nat)
    requires j < 16
  {
    (word >> j) & 1 == 1
  }

  /** The `n` low bits of `word`, least significant first. */
  function LsbFirst(word: bv16, n: nat): (bits: seq<bool>)
    requires n <= 16
    ensures |bits| == n
    ensures forall j :: 0 <= j < n ==> bits[j] == Bit(word, j)
  {
    if n == 0 then [] else LsbFirst(word, n - 1) + [Bit(word, n - 1)]
  }

  /** The eight bits of a byte as C2 sends it, least significant first. */
  function ByteBits(b: bv8): (bits: seq<bool>)
    ensures |bits| == 8
  {
    LsbFirst(b as bv16, 8)
  }

  /** Two bytes with the same bits on the wire are the same byte. */
  lemma ByteBitsInjective(a: bv8, b: bv8)
    requires ByteBits(a) == ByteBits(b)
    ensures a == b
  {
    var x, y := a as bv16, b as bv16;
    var s, t := ByteBits(a), ByteBits(b);
    assert s[0] == t[0] && s[1] == t[1] && s[2] == t[2] && s[3] == t[3];
    assert s[4] == t[4] && s[5] == t[5] && s[6] == t[6] && s[7] == t[7];
    assert Bit(x, 0) == Bit(y, 0) && Bit(x, 1) == Bit(y, 1) && Bit(x, 2) == Bit(y, 2) && Bit(x, 3) == Bit(y, 3);
    assert Bit(x, 4) == Bit(y, 4) && Bit(x, 5) == Bit(y, 5) && Bit(x, 6) == Bit(y, 6) && Bit(x, 7) == Bit(y, 7);
  }

  lemma DataWriteLowBits(data: bv8)
    ensures var w, d := ((data as bv16) << 4) | 1, data as bv16;
            Bit(w, 0) && !Bit(w, 1) && !Bit(w, 2) && !Bit(w, 3)
            && Bit(w, 4) == Bit(d, 0) && Bit(w, 5) == Bit(d, 1)
            && Bit(w, 6) == Bit(d, 2) && Bit(w, 7) == Bit(d, 3)
  {
  }

  lemma DataWriteHighBits(data: bv8)
    ensures var w, d := ((data as bv16) << 4) | 1, data as bv16;
            Bit(w, 8) == Bit(d, 4) && Bit(w, 9) == Bit(d, 5)
            && Bit(w, 10) == Bit(d, 6) && Bit(w, 11) == Bit(d, 7)
  {
  }

  lemma DataWriteCode(data: bv8)
    ensures LsbFirst(((data as bv16) << 4) | 1, 12)[..4] == [true, false, false, false]
  {
    DataWriteLowBits(data);
  }

  lemma DataWriteData(data: bv8)
    ensures LsbFirst(((data as bv16) << 4) | 1, 12)[4..] == ByteBits(data)
  {
    DataWriteLowBits(data);
    DataWriteHighBits(data);
  }

  /** The Data Write word `(data << 4) | 1`, bit by bit. */
  lemma DataWriteLayout(data: bv8)
    ensures LsbFirst(((data as bv16) << 4) | 1, 12) == [true, false, false, false] + ByteBits(data)
  {
    var bits := LsbFirst(((data as bv16) << 4) | 1, 12);
    DataWriteCode(data);
    DataWriteData(data);
    assert bits == bits[..4] + bits[4..];
  }

  lemma AddressWriteLowBits(address: bv8)
    ensures var w, a := ((address as bv16) << 2) | 3, address as bv16;
            Bit(w, 0) && Bit(w, 1)
            && Bit(w, 2) == Bit(a, 0) && Bit(w, 3) == Bit(a, 1)
            && Bit(w, 4) == Bit(a, 2) && Bit(w, 5) == Bit(a, 3)
  {
  }

  lemma AddressWriteHighBits(address: bv8)
    ensures var w, a := ((address as bv16) << 2) | 3, address as bv16;
            Bit(w, 6) == Bit(a, 4) && Bit(w, 7) == Bit(a, 5)
            && Bit(w, 8) == Bit(a, 6) && Bit(w, 9) == Bit(a, 7)
  {
  }

  lemma AddressWriteData(address: bv8)
    ensures LsbFirst(((address as bv16) << 2) | 3, 10)[2..] == ByteBits(address)
  {
    AddressWriteLowBits(address);
    AddressWriteHighBits(address);
  }

  /** The Address Write word `(address << 2) | 3`, bit by bit. */
  lemma AddressWriteLayout(address: bv8)
    ensures LsbFirst(((address as bv16) << 2) | 3, 10) == [true, true] + ByteBits(address)
  {
    var bits := LsbFirst(((address as bv16) << 2) | 3, 10);
    AddressWriteLowBits(address);
    AddressWriteData(address);
    assert bits[..2] == [true, true];
    assert bits == bits[..2] + bits[2..];
  }

  /**
   * `dataWrite`: the bits of `(data << 4) | 1` for i = 0 .. 11, that is the
   * Data Write code, a zero length code and the data byte.
   */
  method DataWriteBits(data: bv8) returns (bits: seq<bool>)
    ensures bits == [true, false, false, false] + ByteBits(data)
  {
    var instruction: bv16 := (data as bv16) << 4;
    instruction := instruction | 1;
    bits := [];
    for i := 0 to 12
      invariant bits == LsbFirst(instruction, i)
    {
      bits := bits + [(instruction >> i) & 1 == 1];
    }
    DataWriteLayout(data);
  }

  /**
   * `addressWrite`: the bits of `(address << 2) | 3` for i = 0 .. 9, that is
   * the Address Write code and the address.
   */
  method AddressWriteBits(address: bv8) returns (bits: seq<bool>)
    ensures bits == [true, true] + ByteBits(address)
  {
    var instruction: bv16 := (address as bv16) << 2;
    instruction := instruction | 3;
    bits := [];
    for i := 0 to 10
      invariant bits == LsbFirst(instruction, i)
    {
      bits := bits + [(instruction >> i) & 1 == 1];
    }
    AddressWriteLayout(address);
  }

  /** The byte whose bit `j` is set for every high level `levels[j]`, j < n. */
  function Gathered(levels: seq<bool>, n: nat): bv8
    requires n <= |levels| && n <= 8
  {
    if n == 0 then 0
    else Gathered(levels, n - 1) | (if levels[n - 1] then (1 as bv8) << (n - 1) else 0)
  }

  /** The byte with bit j set exactly when `l[j]` holds, written out. */
  function Packed(l0: bool, l1: bool, l2: bool, l3: bool, l4: bool, l5: bool, l6: bool, l7: bool): bv8
  {
    (if l0 then 1 else 0) | (if l1 then 2 else 0) | (if l2 then 4 else 0) | (if l3 then 8 else 0)
    | (if l4 then 16 else 0) | (if l5 then 32 else 0) | (if l6 then 64 else 0) | (if l7 then 128 else 0)
  }

  lemma GatheredPacked(levels: seq<bool>)
    requires |levels| == 8
    ensures Gathered(levels, 8)
         == Packed(levels[0], levels[1], levels[2], levels[3], levels[4], levels[5], levels[6], levels[7])
  {
    assert Gathered(levels, 1) == (if levels[0] then 1 else 0);
    assert Gathered(levels, 2) == Gathered(levels, 1) | (if levels[1] then 2 else 0);
    assert Gathered(levels, 3) == Gathered(levels, 2) | (if levels[2] then 4 else 0);
    assert Gathered(levels, 4) == Gathered(levels, 3) | (if levels[3] then 8 else 0);
    assert Gathered(levels, 5) == Gathered(levels, 4) | (if levels[4] then 16 else 0);
    assert Gathered(levels, 6) == Gathered(levels, 5) | (if levels[5] then 32 else 0);
    assert Gathered(levels, 7) == Gathered(levels, 6) | (if levels[6] then 64 else 0);
    assert Gathered(levels, 8) == Gathered(levels, 7) | (if levels[7] then 128 else 0);
  }

  lemma PackedLowBits(l0: bool, l1: bool, l2: bool, l3: bool, l4: bool, l5: bool, l6: bool, l7: bool)
    ensures var o := Packed(l0, l1, l2, l3, l4, l5, l6, l7) as bv16;
            Bit(o, 0) == l0 && Bit(o, 1) == l1 && Bit(o, 2) == l2 && Bit(o, 3) == l3
  {
  }

  lemma PackedHighBits(l0: bool, l1: bool, l2: bool, l3: bool, l4: bool, l5: bool, l6: bool, l7: bool)
    ensures var o := Packed(l0, l1, l2, l3, l4, l5, l6, l7) as bv16;
            Bit(o, 4) == l4 && Bit(o, 5) == l5 && Bit(o, 6) == l6 && Bit(o, 7) == l7
  {
  }

  lemma PackedBits(l0: bool, l1: bool, l2: bool, l3: bool, l4: bool, l5: bool, l6: bool, l7: bool)
    ensures ByteBits(Packed(l0, l1, l2, l3, l4, l5, l6, l7)) == [l0, l1, l2, l3, l4, l5, l6, l7]
  {
    PackedLowBits(l0, l1, l2, l3, l4, l5, l6, l7);
    PackedHighBits(l0, l1, l2, l3, l4, l5, l6, l7);
    var e := ByteBits(Packed(l0, l1, l2, l3, l4, l5, l6, l7));
    assert e[0] == l0 && e[1] == l1 && e[2] == l2 && e[3] == l3;
    assert e[4] == l4 && e[5] == l5 && e[6] == l6 && e[7] == l7;
  }

  /** Gathering eight levels gives the byte whose bits they are. */
  lemma GatheredBits(levels: seq<bool>)
    requires |levels| == 8
    ensures ByteBits(Gathered(levels, 8)) == levels
  {
    var l := [levels[0], levels[1], levels[2], levels[3], levels[4], levels[5], levels[6], levels[7]];
    assert levels == l;
    var p := Packed(levels[0], levels[1], levels[2], levels[3], levels[4], levels[5], levels[6], levels[7]);
    GatheredPacked(levels);
    PackedBits(levels[0], levels[1], levels[2], levels[3], levels[4], levels[5], levels[6], levels[7]);
    calc {
      ByteBits(Gathered(levels, 8));
      ByteBits(p);
      l;
    }
  }

  /**
   * The loop both read instructions share: output bit `i` is set exactly when
   * the `i`-th sampled level of the D line is high.  Sampling therefore
   * inverts the least-significant-first encoding.
   */
  method SampleByte(levels: seq<bool>) returns (output: bv8)
    requires |levels| == 8
    ensures ByteBits(output) == levels
  {
    output := 0;
    for i := 0 to 8
      invariant output == Gathered(levels, i)
    {
      if levels[i] {
        output := output | ((1 as bv8) << i);
      }
    }
    GatheredBits(levels);
  }

  /**
   * `dataRead`: four low bits (the Data Read code and a zero length code),
   * then the byte the target drives.
   */
  method DataReadBits(levels: seq<bool>) returns (instruction: seq<bool>, output: bv8)
    requires |levels| == 8
    ensures instruction == [false, false, false, false]
    ensures ByteBits(output) == levels
  {
    instruction := [];
    for i := 0 to 4
      invariant instruction == seq(i, _ => false)
    {
      instruction := instruction + [false];
    }
    output := SampleByte(levels);
  }

  /**
   * `addressRead`: the bits of the constant 0x2 for i = 0 .. 1 (the Address
   * Read code), then the byte the target drives.
   */
  method AddressReadBits(levels: seq<bool>) returns (instruction: seq<bool>, output: bv8)
    requires |levels| == 8
    ensures instruction == [false, true]
    ensures ByteBits(output) == levels
  {
    var code: bv16 := 2;
    instruction := [];
    for i := 0 to 2
      invariant instruction == LsbFirst(code, i)
    {
      instruction := instruction + [(code >> i) & 1 == 1];
    }
    assert !Bit(code, 0) && Bit(code, 1);
    output := SampleByte(levels);
  }
}
