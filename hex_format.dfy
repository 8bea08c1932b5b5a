/**
 * How `checksum` renders a digest: `joinToString { "%02x".format(it) }`, that is, each
 * byte as two lower-case hexadecimal digits, joined with `joinToString`'s default
 * separator ", ". `ParseHex` reads such a string back and is the partner of `Hex`.
 */
module HexFormat {

  import opened Wrappers

  /** A byte as `%02x` sees it: Kotlin's signed `Byte` is formatted as its unsigned value. */
  newtype byte = x: int | 0 <= x < 256

  const HexDigits: string := "0123456789abcdef"

  const Separator: string := ", "

  /** `"%02x".format(b)`: exactly two lower-case hexadecimal digits, high nibble first. */
  function HexByte(b: byte): (r: string)
    ensures |r| == 2 && r[0] in HexDigits && r[1] in HexDigits
  {
    [HexDigits[b as int / 16], HexDigits[b as int % 16]]
  }

  /** The value of one lower-case hexadecimal digit. */
  function DigitValue(c: char): (r: Option<nat>)
    ensures r.Some? <==> c in HexDigits
    ensures r.Some? ==> r.value < 16 && HexDigits[r.value] == c
  {
    if '0' <= c <= '9' then Some(c as int - '0' as int)
    else if 'a' <= c <= 'f' then Some(c as int - 'a' as int + 10)
    else None
  }

  /** Reads two lower-case hexadecimal digits back into a byte. */
  function ParseHexByte(s: string): Option<byte>
    requires |s| == 2
  {
    var hi, lo := DigitValue(s[0]), DigitValue(s[1]);
    if hi.Some? && lo.Some? then Some((hi.value * 16 + lo.value) as byte) else None
  }

  /** Each digit reads back as its own position in `HexDigits`. */
  lemma DigitValueOfDigit(k: nat)
    requires k < 16
    ensures DigitValue(HexDigits[k]) == Some(k)
  {
    if k < 10 {
      assert HexDigits[k] == ('0' as int + k) as char;
    } else {
      assert HexDigits[k] == ('a' as int + k - 10) as char;
    }
  }

  /** Two digits read back as the byte they spell, high nibble first. */
  lemma ParseHexDigits(hi: nat, lo: nat)
    requires hi < 16 && lo < 16
    ensures ParseHexByte([HexDigits[hi], HexDigits[lo]]) == Some((hi * 16 + lo) as byte)
  {
    var s := [HexDigits[hi], HexDigits[lo]];
    assert s[0] == HexDigits[hi] && s[1] == HexDigits[lo];
    DigitValueOfDigit(hi);
    DigitValueOfDigit(lo);
  }

  /** The two nibbles of a byte. */
  lemma Nibbles(x: int)
    requires 0 <= x < 256
    ensures 0 <= x / 16 < 16 && 0 <= x % 16 < 16 && x / 16 * 16 + x % 16 == x
  {
  }

  /** `%02x` is undone by reading the two digits back. */
  lemma HexByteRoundTrip(b: byte)
    ensures ParseHexByte(HexByte(b)) == Some(b)
  {
    var hi, lo := b as int / 16, b as int % 16;
    Nibbles(b as int);
    assert HexByte(b) == [HexDigits[hi], HexDigits[lo]];
    ParseHexDigits(hi, lo);
    assert (hi * 16 + lo) as byte == b;
  }

  /** Kotlin's `joinToString(separator)`: the parts with the separator between each two of them. */
  function JoinToString(parts: seq<string>, sep: string): string
  {
    if parts == [] then ""
    else if |parts| == 1 then parts[0]
    else parts[0] + sep + JoinToString(parts[1..], sep)
  }

  /** The rendering of a digest: `digest.joinToString { "%02x".format(it) }`. */
  function Hex(d: seq<byte>): (r: string)
    ensures r == [] <==> d == []
    ensures d != [] ==> HexByte(d[0]) <= r
  {
    JoinToString(HexParts(d), Separator)
  }

  /** The `%02x` rendering of each byte, in order (the transform passed to `joinToString`). */
  function HexParts(d: seq<byte>): (r: seq<string>)
    ensures |r| == |d|
  {
    if d == [] then [] else [HexByte(d[0])] + HexParts(d[1..])
  }

  /** `Hex` unfolded one byte at a time. */
  lemma HexCons(d: seq<byte>)
    requires |d| >= 2
    ensures Hex(d) == HexByte(d[0]) + Separator + Hex(d[1..])
  {
    assert HexParts(d)[1..] == HexParts(d[1..]);
  }

  lemma HexSingle(b: byte)
    ensures Hex([b]) == HexByte(b)
  {
    assert HexParts([b]) == [HexByte(b)];
  }

  /** Four characters per byte, less the separator after the last one. */
  lemma {:induction false} HexLength(d: seq<byte>)
    ensures |Hex(d)| == if d == [] then 0 else 4 * |d| - 2
  {
    if |d| >= 2 {
      HexCons(d);
      HexLength(d[1..]);
    }
  }

  /** Only lower-case hexadecimal digits, commas and spaces occur in a rendering. */
  lemma {:induction false} HexAlphabet(d: seq<byte>)
    ensures forall c :: c in Hex(d) ==> c in HexDigits || c in Separator
  {
    if |d| >= 2 {
      HexCons(d);
      HexAlphabet(d[1..]);
    }
  }

  /** Reads a rendering back: groups of two digits separated by ", ". */
  function ParseHex(s: string): Option<seq<byte>>
    decreases |s|
  {
    if s == [] then Some([])
    else if |s| == 2 then
      match ParseHexByte(s) { case Some(b) => Some([b]) case None => None }
    else if |s| > 4 && s[2..4] == Separator then
      match (ParseHexByte(s[..2]), ParseHex(s[4..]))
      case (Some(b), Some(rest)) => Some([b] + rest)
      case _ => None
    else None
  }

  /** `ParseHex` unfolded on one group of two digits followed by the separator. */
  lemma ParseHexCons(s: string, b: byte, rest: seq<byte>)
    requires |s| > 4 && s[2..4] == Separator
    requires ParseHexByte(s[..2]) == Some(b) && ParseHex(s[4..]) == Some(rest)
    ensures ParseHex(s) == Some([b] + rest)
  {
  }

  /** Reading a rendering back gives the digest that was rendered. */
  lemma {:induction false} HexRoundTrip(d: seq<byte>)
    ensures ParseHex(Hex(d)) == Some(d)
  {
    if |d| == 1 {
      assert [d[0]] == d;
      HexSingle(d[0]);
      HexByteRoundTrip(d[0]);
    } else if |d| >= 2 {
      var s := Hex(d);
      var head, tail := HexByte(d[0]), Hex(d[1..]);
      HexCons(d);
      HexLength(d[1..]);
      assert s == head + Separator + tail;
      assert s[..2] == head;
      assert s[2..4] == Separator;
      assert s[4..] == tail;
      HexByteRoundTrip(d[0]);
      HexRoundTrip(d[1..]);
      ParseHexCons(s, d[0], d[1..]);
      assert [d[0]] + d[1..] == d;
    }
  }

  /** Two digests render to the same string only when they are the same digest. */
  lemma HexInjective(d1: seq<byte>, d2: seq<byte>)
    ensures Hex(d1) == Hex(d2) <==> d1 == d2
  {
    if Hex(d1) == Hex(d2) {
      HexRoundTrip(d1);
      HexRoundTrip(d2);
    }
  }
}
