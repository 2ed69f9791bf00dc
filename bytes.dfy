/**
 * Bytes, the wrappers used for error paths, byte sums and the hexadecimal
 * text forms both ends of the programmer rely on.
 */
module Bytes {

  /** An 8-bit unsigned value (`uint8_t` on the bridge, an element of `bytes` on the host). */
  type byte = x: int | 0 <= x < 256

  datatype Option<+T> = None | Some(value: T)

  datatype Result<+T, +E> = Ok(value: T) | Err(error: E)

  datatype Outcome<+E> = Pass | Fail(error: E)

  function Min(a: int, b: int): int
  {
    if a < b then a else b
  }

  lemma ConcatAssoc<T>(a: seq<T>, b: seq<T>, c: seq<T>)
    ensures a + b + c == a + (b + c)
  {
  }

  lemma ConcatAssoc4<T>(a: seq<T>, b: seq<T>, c: seq<T>, d: seq<T>)
    ensures a + b + c + d == a + (b + c + d)
  {
  }

  lemma ConcatAssoc5<T>(a: seq<T>, b: seq<T>, c: seq<T>, d: seq<T>, e: seq<T>)
    ensures a + b + c + d + e == a + (b + c + d + e)
  {
  }

  /** Sum of a sequence, accumulated from the front as the source's loops do. */
  function Sum(s: seq<int>): int
  {
    if s == [] then 0 else Sum(s[..|s| - 1]) + s[|s| - 1]
  }

  lemma {:induction false} SumConcat(a: seq<int>, b: seq<int>)
    ensures Sum(a + b) == Sum(a) + Sum(b)
    decreases |b|
  {
    if b == [] {
      assert a + b == a;
    } else {
      assert (a + b)[..|a + b| - 1] == a + b[..|b| - 1];
      SumConcat(a, b[..|b| - 1]);
    }
  }

  /** Sum of a prefix one element longer, as a loop that adds `s[i]` sees it. */
  lemma SumStep(s: seq<int>, i: nat)
    requires i < |s|
    ensures Sum(s[..i + 1]) == Sum(s[..i]) + s[i]
  {
    assert s[..i + 1][..i] == s[..i];
  }

  /** A running sum kept modulo 256 stays the sum of the prefix, modulo 256. */
  lemma SumModStep(base: int, s: seq<int>, i: nat)
    requires i < |s|
    ensures ((base + Sum(s[..i])) % 0x100 + s[i]) % 0x100 == (base + Sum(s[..i + 1])) % 0x100
  {
    SumStep(s, i);
  }

  // ---------------------------------------------------------------------
  // Hexadecimal text
  // ---------------------------------------------------------------------

  /** Digits of Python's `bytes.hex().upper()`. */
  const UpperDigits: string := "0123456789ABCDEF"

  /** Digits of Python's `bytes.hex()`. */
  const LowerDigits: string := "0123456789abcdef"

  /** Value of one hexadecimal digit, in either case. */
  function HexValue(c: char): (r: Option<nat>)
    ensures r.Some? ==> r.value < 16
  {
    if '0' <= c <= '9' then Some(c as int - '0' as int)
    else if 'a' <= c <= 'f' then Some(c as int - 'a' as int + 10)
    else if 'A' <= c <= 'F' then Some(c as int - 'A' as int + 10)
    else None
  }

  /** Two digits for one byte, high nibble first. */
  function HexPair(digits: string, b: byte): string
    requires |digits| == 16
  {
    [digits[b / 16], digits[b % 16]]
  }

  /** Every byte as two digits, in order. */
  function Hex(digits: string, bs: seq<byte>): (h: string)
    requires |digits| == 16
    ensures |h| == 2 * |bs|
  {
    if bs == [] then "" else HexPair(digits, bs[0]) + Hex(digits, bs[1..])
  }

  function HexUpper(bs: seq<byte>): (h: string)
    ensures |h| == 2 * |bs|
  {
    Hex(UpperDigits, bs)
  }

  function HexLower(bs: seq<byte>): (h: string)
    ensures |h| == 2 * |bs|
  {
    Hex(LowerDigits, bs)
  }

  /**
   * A two-character field read as `int(field, 16)`: exactly two hexadecimal
   * digits, either case.
   */
  function ParseHex2(s: string): Option<byte>
  {
    if |s| == 2 && HexValue(s[0]).Some? && HexValue(s[1]).Some?
    then Some(16 * HexValue(s[0]).value + HexValue(s[1]).value)
    else None
  }

  /** Pairs of hexadecimal digits to bytes; `None` unless the text is all digit pairs. */
  function ParseHexBytes(s: string): (r: Option<seq<byte>>)
    ensures r.Some? ==> 2 * |r.value| == |s|
  {
    if s == [] then Some([])
    else if |s| < 2 then None
    else match ParseHex2(s[..2])
      case None => None
      case Some(b) =>
        match ParseHexBytes(s[2..])
        case None => None
        case Some(rest) => Some([b] + rest)
  }

  lemma DigitValue(i: nat)
    requires i < 16
    ensures HexValue(UpperDigits[i]) == Some(i)
    ensures HexValue(LowerDigits[i]) == Some(i)
  {
  }

  lemma {:induction false} HexConcat(digits: string, a: seq<byte>, b: seq<byte>)
    requires |digits| == 16
    ensures Hex(digits, a + b) == Hex(digits, a) + Hex(digits, b)
    decreases |a|
  {
    if a == [] {
      assert a + b == b;
    } else {
      assert (a + b)[1..] == a[1..] + b;
      HexConcat(digits, a[1..], b);
    }
  }

  /** Characters `2i .. 2j` of the hexadecimal text spell bytes `i .. j`. */
  lemma HexSlice(digits: string, bs: seq<byte>, i: nat, j: nat)
    requires |digits| == 16 && i <= j <= |bs|
    ensures Hex(digits, bs)[2 * i..2 * j] == Hex(digits, bs[i..j])
  {
    assert bs == bs[..i] + bs[i..];
    assert bs[i..] == bs[i..j] + bs[j..];
    HexConcat(digits, bs[..i], bs[i..]);
    HexConcat(digits, bs[i..j], bs[j..]);
  }

  /** Reading back a pair written in either digit table gives the byte. */
  lemma ParsePair(digits: string, b: byte)
    requires digits == UpperDigits || digits == LowerDigits
    ensures ParseHex2(HexPair(digits, b)) == Some(b)
  {
    DigitValue(b / 16);
    DigitValue(b % 16);
  }

  /** Upper-case hex text parses back to the bytes it was made from. */
  lemma {:induction false} ParseHexUpper(bs: seq<byte>)
    ensures ParseHexBytes(HexUpper(bs)) == Some(bs)
    decreases |bs|
  {
    if bs != [] {
      var h := HexUpper(bs);
      assert h == HexPair(UpperDigits, bs[0]) + HexUpper(bs[1..]);
      assert h[..2] == HexPair(UpperDigits, bs[0]);
      assert h[2..] == HexUpper(bs[1..]);
      ParsePair(UpperDigits, bs[0]);
      ParseHexUpper(bs[1..]);
      assert [bs[0]] + bs[1..] == bs;
    }
  }
}
