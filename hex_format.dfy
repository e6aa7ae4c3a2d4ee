/**
 * Hex rendering shared by the content observers: `std::hex` with
 * `std::setw(2)` and `std::setfill('0')` applied to a value 0 .. 255 gives
 * two lowercase digits. `Hex` is the checksum text, `SpacedHex` the text of
 * `printVectorAsHex`; `ParseHex` is the reference inverse of `Hex`.
 */
module HexFormat {
  import opened Basics

  /** The lowercase digit of a value 0 .. 15. */
  function HexDigit(d: nat): (c: char)
    requires d < 16
  {
    if d < 10 then ('0' as int + d) as char else ('a' as int + d - 10) as char
  }

  /** The value of a lowercase hex digit; `None` for any other character. */
  function DigitValue(c: char): (r: Option<nat>)
    ensures r.Some? ==> r.value < 16
  {
    if '0' <= c <= '9' then Some(c as int - '0' as int)
    else if 'a' <= c <= 'f' then Some(c as int - 'a' as int + 10)
    else None
  }

  lemma DigitRoundTrip(d: nat, c: char)
    requires d < 16
    ensures DigitValue(HexDigit(d)) == Some(d)
    ensures DigitValue(c).Some? ==> HexDigit(DigitValue(c).value) == c
  {
  }

  predicate IsLowerHexDigit(c: char)
  {
    '0' <= c <= '9' || 'a' <= c <= 'f'
  }

  /** One byte as two characters, high nibble first. */
  function HexByte(b: byte): string
  {
    [HexDigit(b as int / 16), HexDigit(b as int % 16)]
  }

  /** The bytes in order, two characters each, no separator. */
  function Hex(bs: seq<byte>): string
  {
    if bs == [] then [] else Hex(bs[..|bs| - 1]) + HexByte(bs[|bs| - 1])
  }

  /** The bytes in order, each as two characters and a space. */
  function SpacedHex(bs: seq<byte>): string
  {
    if bs == [] then [] else SpacedHex(bs[..|bs| - 1]) + HexByte(bs[|bs| - 1]) + " "
  }

  /** Reads back a `Hex` text: pairs of lowercase digits, high nibble first. */
  function ParseHex(s: string): Option<seq<byte>>
    decreases |s|
  {
    if s == [] then Some([])
    else if |s| < 2 then None
    else
      var init := ParseHex(s[..|s| - 2]);
      var hi := DigitValue(s[|s| - 2]);
      var lo := DigitValue(s[|s| - 1]);
      if init.Some? && hi.Some? && lo.Some? then Some(init.value + [(hi.value * 16 + lo.value) as byte])
      else None
  }

  /** Two characters per byte, every one a lowercase hex digit, byte `i` at positions `2i` and `2i+1`. */
  lemma {:induction false} HexLayout(bs: seq<byte>)
    ensures |Hex(bs)| == 2 * |bs|
    ensures forall i :: 0 <= i < |bs| ==> Hex(bs)[2 * i..2 * i + 2] == HexByte(bs[i])
    ensures forall c :: c in Hex(bs) ==> IsLowerHexDigit(c)
  {
    if bs != [] {
      var init := bs[..|bs| - 1];
      HexLayout(init);
      var h := Hex(bs);
      assert h == Hex(init) + HexByte(bs[|bs| - 1]);
      forall i | 0 <= i < |bs| ensures h[2 * i..2 * i + 2] == HexByte(bs[i]) {
        if i < |init| {
          assert h[2 * i..2 * i + 2] == Hex(init)[2 * i..2 * i + 2];
          assert init[i] == bs[i];
        } else {
          assert h[2 * i..2 * i + 2] == HexByte(bs[|bs| - 1]);
        }
      }
      forall c | c in h ensures IsLowerHexDigit(c) {
        if c !in Hex(init) {
          var b := bs[|bs| - 1] as int;
          assert c == HexDigit(b / 16) || c == HexDigit(b % 16);
        }
      }
    }
  }

  /** Three characters per byte: byte `i` at positions `3i`, `3i+1`, followed by a space. */
  lemma {:induction false} SpacedHexLayout(bs: seq<byte>)
    ensures |SpacedHex(bs)| == 3 * |bs|
    ensures forall i :: 0 <= i < |bs| ==> SpacedHex(bs)[3 * i..3 * i + 3] == HexByte(bs[i]) + " "
  {
    if bs != [] {
      var init := bs[..|bs| - 1];
      SpacedHexLayout(init);
      var h := SpacedHex(bs);
      assert h == SpacedHex(init) + (HexByte(bs[|bs| - 1]) + " ");
      forall i | 0 <= i < |bs| ensures h[3 * i..3 * i + 3] == HexByte(bs[i]) + " " {
        if i < |init| {
          assert h[3 * i..3 * i + 3] == SpacedHex(init)[3 * i..3 * i + 3];
          assert init[i] == bs[i];
        }
      }
    }
  }

  /** A byte splits into its two nibbles and back. */
  lemma Nibbles(b: byte)
    ensures b as int / 16 < 16 && (b as int / 16 * 16 + b as int % 16) as byte == b
  {
  }

  /** Reading two more digits at the end of a readable text reads the byte they denote. */
  lemma ParseHexAppendDigits(s: string, hi: nat, lo: nat)
    requires ParseHex(s).Some? && hi < 16 && lo < 16
    ensures ParseHex(s + [HexDigit(hi), HexDigit(lo)]) == Some(ParseHex(s).value + [(hi * 16 + lo) as byte])
  {
    var t := s + [HexDigit(hi), HexDigit(lo)];
    assert t[..|t| - 2] == s;
    DigitRoundTrip(hi, ' ');
    DigitRoundTrip(lo, ' ');
  }

  /** `ParseHex` undoes `Hex`, so no two byte sequences have the same text. */
  lemma {:induction false} HexRoundTrip(bs: seq<byte>)
    ensures ParseHex(Hex(bs)) == Some(bs)
  {
    if bs != [] {
      var init := bs[..|bs| - 1];
      HexRoundTrip(init);
      var b := bs[|bs| - 1];
      Nibbles(b);
      var hi, lo := b as int / 16, b as int % 16;
      ParseHexAppendDigits(Hex(init), hi, lo);
      assert Hex(bs) == Hex(init) + [HexDigit(hi), HexDigit(lo)];
      assert init + [bs[|bs| - 1]] == bs;
    }
  }

  /** `Hex` undoes `ParseHex`: a text that reads back is exactly the rendering of what it reads as. */
  lemma {:induction false} ParseHexCanonical(s: string)
    ensures ParseHex(s).Some? ==> Hex(ParseHex(s).value) == s
    decreases |s|
  {
    if s != [] && |s| >= 2 && ParseHex(s).Some? {
      var init := ParseHex(s[..|s| - 2]).value;
      var hi := DigitValue(s[|s| - 2]).value;
      var lo := DigitValue(s[|s| - 1]).value;
      ParseHexCanonical(s[..|s| - 2]);
      var b := (hi * 16 + lo) as byte;
      var bs := init + [b];
      assert ParseHex(s).value == bs;
      assert bs[..|bs| - 1] == init;
      assert b as int / 16 == hi && b as int % 16 == lo;
      DigitRoundTrip(hi, s[|s| - 2]);
      DigitRoundTrip(lo, s[|s| - 1]);
      assert s == s[..|s| - 2] + [s[|s| - 2], s[|s| - 1]];
    }
  }

  /** Each `char` taken as `unsigned char`. */
  function AsUnsigned(data: seq<CChar>): seq<byte>
  {
    seq(|data|, i requires 0 <= i < |data| => Unsigned(data[i]))
  }

  /**
   * `printVectorAsHex`: each element, as unsigned, rendered as two digits
   * and a space, and then the end of line.
   */
  method PrintVectorAsHex(data: seq<CChar>) returns (out: string)
    ensures out == SpacedHex(AsUnsigned(data)) + "\n"
  {
    out := [];
    var i := 0;
    while i < |data|
      invariant 0 <= i <= |data|
      invariant out == SpacedHex(AsUnsigned(data[..i]))
    {
      var c := Unsigned(data[i]);
      out := out + HexByte(c) + " ";
      i := i + 1;
      assert AsUnsigned(data[..i])[..i - 1] == AsUnsigned(data[..i - 1]);
    }
    assert data[..i] == data;
    out := out + "\n";
  }
}
