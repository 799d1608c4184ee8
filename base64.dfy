/** The standard base64 alphabet with '=' padding (section 4 of RFC 4648), which is what
    Go's `base64.StdEncoding` produces. The decoder exists to state that encoding loses
    nothing. */
module Base64 {
  import opened Common

  function Digit(i: int): (c: char)
    requires 0 <= i < 64
  {
    if i < 26 then ('A' as int + i) as char
    else if i < 52 then ('a' as int + i - 26) as char
    else if i < 62 then ('0' as int + i - 52) as char
    else if i == 62 then '+'
    else '/'
  }

  /** The position of a character in the alphabet (0 for characters outside it). */
  function DigitValue(c: char): (v: int)
    ensures 0 <= v < 64
  {
    if 'A' <= c <= 'Z' then c as int - 'A' as int
    else if 'a' <= c <= 'z' then c as int - 'a' as int + 26
    else if '0' <= c <= '9' then c as int - '0' as int + 52
    else if c == '+' then 62
    else if c == '/' then 63
    else 0
  }

  lemma DigitValueOfDigit(i: int)
    requires 0 <= i < 64
    ensures DigitValue(Digit(i)) == i && Digit(i) != '='
  {
  }

  /** base64.StdEncoding.EncodedLen. */
  function EncodedLen(n: nat): nat
  {
    (n + 2) / 3 * 4
  }

  function Encode(bs: seq<byte>): (r: string)
    decreases |bs|
  {
    if |bs| == 0 then []
    else if |bs| == 1 then
      [Digit(bs[0] / 4), Digit(bs[0] % 4 * 16), '=', '=']
    else if |bs| == 2 then
      [Digit(bs[0] / 4), Digit(bs[0] % 4 * 16 + bs[1] / 16), Digit(bs[1] % 16 * 4), '=']
    else
      [Digit(bs[0] / 4), Digit(bs[0] % 4 * 16 + bs[1] / 16),
       Digit(bs[1] % 16 * 4 + bs[2] / 64), Digit(bs[2] % 64)] + Encode(bs[3..])
  }

  /** Decoding of well-formed input, four characters at a time. */
  function Decode(s: string): seq<byte>
    decreases |s|
  {
    if |s| < 4 then []
    else
      var v0, v1, v2, v3 := DigitValue(s[0]), DigitValue(s[1]), DigitValue(s[2]), DigitValue(s[3]);
      var b0: byte := v0 * 4 + v1 / 16;
      var b1: byte := v1 % 16 * 16 + v2 / 4;
      var b2: byte := v2 % 4 * 64 + v3;
      if s[2] == '=' then [b0]
      else if s[3] == '=' then [b0, b1]
      else [b0, b1, b2] + Decode(s[4..])
  }

  /** The digit arithmetic of one group: the decoder's formulas undo the encoder's. */
  lemma GroupArithmetic(b0: byte, b1: byte, b2: byte)
    ensures var v1 := b0 % 4 * 16 + b1 / 16;
            var v2 := b1 % 16 * 4 + b2 / 64;
            && b0 / 4 * 4 + v1 / 16 == b0
            && v1 % 16 * 16 + v2 / 4 == b1
            && v2 % 4 * 64 + b2 % 64 == b2
  {
    var v1 := b0 % 4 * 16 + b1 / 16;
    var v2 := b1 % 16 * 4 + b2 / 64;
    assert v1 / 16 == b0 % 4 && v1 % 16 == b1 / 16;
    assert v2 / 4 == b1 % 16 && v2 % 4 == b2 / 64;
  }

  /** Decoding a full group of four digits yields its three bytes and moves on. */
  lemma DecodeFullGroup(b0: byte, b1: byte, b2: byte, rest: string)
    ensures Decode([Digit(b0 / 4), Digit(b0 % 4 * 16 + b1 / 16),
                    Digit(b1 % 16 * 4 + b2 / 64), Digit(b2 % 64)] + rest)
         == [b0, b1, b2] + Decode(rest)
  {
    var d0, d1, d2, d3 := b0 / 4, b0 % 4 * 16 + b1 / 16, b1 % 16 * 4 + b2 / 64, b2 % 64;
    var s := [Digit(d0), Digit(d1), Digit(d2), Digit(d3)] + rest;
    DigitValueOfDigit(d0);
    DigitValueOfDigit(d1);
    DigitValueOfDigit(d2);
    DigitValueOfDigit(d3);
    GroupArithmetic(b0, b1, b2);
    assert s[4..] == rest;
    assert s[2] != '=' && s[3] != '=';
  }

  lemma DecodeOneByte(b0: byte)
    ensures Decode(Encode([b0])) == [b0]
  {
    var d0, d1 := b0 / 4, b0 % 4 * 16;
    var s := [Digit(d0), Digit(d1), '=', '='];
    assert Encode([b0]) == s;
    DigitValueOfDigit(d0);
    DigitValueOfDigit(d1);
    assert d1 / 16 == b0 % 4;
    assert Decode(s) == [d0 * 4 + d1 / 16];
  }

  lemma DecodeTwoBytes(b0: byte, b1: byte)
    ensures Decode(Encode([b0, b1])) == [b0, b1]
  {
    var d0, d1, d2 := b0 / 4, b0 % 4 * 16 + b1 / 16, b1 % 16 * 4;
    var s := [Digit(d0), Digit(d1), Digit(d2), '='];
    assert Encode([b0, b1]) == s;
    DigitValueOfDigit(d0);
    DigitValueOfDigit(d1);
    DigitValueOfDigit(d2);
    GroupArithmetic(b0, b1, 0);
    assert Decode(s) == [d0 * 4 + d1 / 16, d1 % 16 * 16 + d2 / 4];
  }

  lemma {:induction false} DecodeEncode(bs: seq<byte>)
    ensures Decode(Encode(bs)) == bs
    decreases |bs|
  {
    if |bs| == 1 {
      assert bs == [bs[0]];
      DecodeOneByte(bs[0]);
    } else if |bs| == 2 {
      assert bs == [bs[0], bs[1]];
      DecodeTwoBytes(bs[0], bs[1]);
    } else if |bs| >= 3 {
      var rest := Encode(bs[3..]);
      assert Encode(bs) == [Digit(bs[0] / 4), Digit(bs[0] % 4 * 16 + bs[1] / 16),
                            Digit(bs[1] % 16 * 4 + bs[2] / 64), Digit(bs[2] % 64)] + rest;
      DecodeFullGroup(bs[0], bs[1], bs[2], rest);
      DecodeEncode(bs[3..]);
      assert bs == [bs[0], bs[1], bs[2]] + bs[3..];
    }
  }

  /** The output has base64.StdEncoding.EncodedLen(len(src)) characters; in particular it
      is empty exactly when the input is. */
  lemma {:induction false} EncodeLength(bs: seq<byte>)
    ensures |Encode(bs)| == EncodedLen(|bs|)
    ensures Encode(bs) == [] <==> bs == []
    decreases |bs|
  {
    if |bs| >= 3 {
      var rest := bs[3..];
      EncodeLength(rest);
      assert |Encode(bs)| == 4 + |Encode(rest)|;
      assert EncodedLen(|bs|) == EncodedLen(|rest|) + 4;
    } else if bs != [] {
      assert |Encode(bs)| == 4;
    }
  }
}
