/** Base64 with padding, section 4 of RFC 4648: how encoding/json writes a []byte. */
module Base64 {
  import opened Prelude

  type Sextet = d: int | 0 <= d < 64

  function DigitChar(d: Sextet): char {
    if d < 26 then (d + 65) as char
    else if d < 52 then (d + 71) as char
    else if d < 62 then (d - 4) as char
    else if d == 62 then '+' else '/'
  }

  function CharDigit(c: char): (d: Option<Sextet>)
    ensures d.Some? ==> DigitChar(d.value) == c
  {
    if 'A' <= c <= 'Z' then Some(c as int - 65)
    else if 'a' <= c <= 'z' then Some(c as int - 71)
    else if '0' <= c <= '9' then Some(c as int + 4)
    else if c == '+' then Some(62)
    else if c == '/' then Some(63)
    else None
  }

  // The four sextets of three bytes, and back.
  function D0(x: Byte): Sextet { x / 4 }
  function D1(x: Byte, y: Byte): Sextet { x % 4 * 16 + y / 16 }
  function D2(y: Byte, z: Byte): Sextet { y % 16 * 4 + z / 64 }
  function D3(z: Byte): Sextet { z % 64 }
  function B0(a: Sextet, b: Sextet): Byte { a * 4 + b / 16 }
  function B1(b: Sextet, c: Sextet): Byte { b % 16 * 16 + c / 4 }
  function B2(c: Sextet, d: Sextet): Byte { c % 4 * 64 + d }

  function Encode(data: seq<Byte>): string {
    if data == [] then ""
    else if |data| == 1 then [DigitChar(D0(data[0])), DigitChar(D1(data[0], 0)), '=', '=']
    else if |data| == 2 then
      [DigitChar(D0(data[0])), DigitChar(D1(data[0], data[1])), DigitChar(D2(data[1], 0)), '=']
    else
      [DigitChar(D0(data[0])), DigitChar(D1(data[0], data[1])), DigitChar(D2(data[1], data[2])),
       DigitChar(D3(data[2]))] + Encode(data[3..])
  }

  /** Strict decoding: padding only at the end, unused bits zero. */
  function Decode(text: string): Option<seq<Byte>> {
    if text == "" then Some([])
    else if |text| < 4 then None
    else
      match (CharDigit(text[0]), CharDigit(text[1]), CharDigit(text[2]), CharDigit(text[3]))
      case (Some(a), Some(b), Some(c), Some(d)) =>
        (match Decode(text[4..])
         case Some(rest) => Some([B0(a, b), B1(b, c), B2(c, d)] + rest)
         case None => None)
      case (Some(a), Some(b), Some(c), None) =>
        if text[3..] == "=" && c % 4 == 0 then Some([B0(a, b), B1(b, c)]) else None
      case (Some(a), Some(b), None, None) =>
        if text[2..] == "==" && b % 16 == 0 then Some([B0(a, b)]) else None
      case _ => None
  }

  lemma CharOfDigit(d: Sextet)
    ensures CharDigit(DigitChar(d)) == Some(d)
  {
  }

  lemma BytesOfSextets(x: Byte, y: Byte, z: Byte)
    ensures B0(D0(x), D1(x, y)) == x && B1(D1(x, y), D2(y, z)) == y && B2(D2(y, z), D3(z)) == z
    ensures D1(x, 0) % 16 == 0 && D2(y, 0) % 4 == 0
  {
  }

  lemma SextetsOfBytes(a: Sextet, b: Sextet, c: Sextet, d: Sextet)
    ensures D0(B0(a, b)) == a && D1(B0(a, b), B1(b, c)) == b && D2(B1(b, c), B2(c, d)) == c && D3(B2(c, d)) == d
    ensures b % 16 == 0 ==> D1(B0(a, b), 0) == b
    ensures c % 4 == 0 ==> D2(B1(b, c), 0) == c
  {
  }

  lemma DecodeTwoPads(a: Sextet, b: Sextet)
    requires b % 16 == 0
    ensures Decode([DigitChar(a), DigitChar(b), '=', '=']) == Some([B0(a, b)])
  {
    CharOfDigit(a);
    CharOfDigit(b);
    assert [DigitChar(a), DigitChar(b), '=', '='][2..] == "==";
  }

  lemma DecodeOnePad(a: Sextet, b: Sextet, c: Sextet)
    requires c % 4 == 0
    ensures Decode([DigitChar(a), DigitChar(b), DigitChar(c), '=']) == Some([B0(a, b), B1(b, c)])
  {
    CharOfDigit(a);
    CharOfDigit(b);
    CharOfDigit(c);
    assert [DigitChar(a), DigitChar(b), DigitChar(c), '='][3..] == "=";
  }

  lemma DecodeFull(a: Sextet, b: Sextet, c: Sextet, d: Sextet, more: string, rest: seq<Byte>)
    requires Decode(more) == Some(rest)
    ensures Decode([DigitChar(a), DigitChar(b), DigitChar(c), DigitChar(d)] + more)
         == Some([B0(a, b), B1(b, c), B2(c, d)] + rest)
  {
    CharOfDigit(a);
    CharOfDigit(b);
    CharOfDigit(c);
    CharOfDigit(d);
    assert ([DigitChar(a), DigitChar(b), DigitChar(c), DigitChar(d)] + more)[4..] == more;
  }

  lemma DecodeEncodeOne(x: Byte)
    ensures Decode(Encode([x])) == Some([x])
  {
    BytesOfSextets(x, 0, 0);
    DecodeTwoPads(D0(x), D1(x, 0));
  }

  lemma DecodeEncodeTwo(x: Byte, y: Byte)
    ensures Decode(Encode([x, y])) == Some([x, y])
  {
    BytesOfSextets(x, y, 0);
    DecodeOnePad(D0(x), D1(x, y), D2(y, 0));
  }

  lemma DecodeEncodeThree(x: Byte, y: Byte, z: Byte, more: string, rest: seq<Byte>)
    requires Decode(more) == Some(rest)
    ensures Decode([DigitChar(D0(x)), DigitChar(D1(x, y)), DigitChar(D2(y, z)), DigitChar(D3(z))] + more)
         == Some([x, y, z] + rest)
  {
    BytesOfSextets(x, y, z);
    DecodeFull(D0(x), D1(x, y), D2(y, z), D3(z), more, rest);
  }

  lemma {:induction false} DecodeEncode(data: seq<Byte>)
    ensures Decode(Encode(data)) == Some(data)
  {
    if |data| == 1 {
      DecodeEncodeOne(data[0]);
      assert data == [data[0]];
    } else if |data| == 2 {
      DecodeEncodeTwo(data[0], data[1]);
      assert data == [data[0], data[1]];
    } else if |data| > 2 {
      DecodeEncode(data[3..]);
      DecodeEncodeThree(data[0], data[1], data[2], Encode(data[3..]), data[3..]);
      assert data == [data[0], data[1], data[2]] + data[3..];
    }
  }

  lemma EncodeThree(x: Byte, y: Byte, z: Byte, rest: seq<Byte>, a: Sextet, b: Sextet, c: Sextet, d: Sextet)
    requires D0(x) == a && D1(x, y) == b && D2(y, z) == c && D3(z) == d
    ensures Encode([x, y, z] + rest) == [DigitChar(a), DigitChar(b), DigitChar(c), DigitChar(d)] + Encode(rest)
  {
    assert ([x, y, z] + rest)[3..] == rest;
  }

  lemma EncodeFull(a: Sextet, b: Sextet, c: Sextet, d: Sextet, rest: seq<Byte>)
    ensures Encode([B0(a, b), B1(b, c), B2(c, d)] + rest)
         == [DigitChar(a), DigitChar(b), DigitChar(c), DigitChar(d)] + Encode(rest)
  {
    SextetsOfBytes(a, b, c, d);
    EncodeThree(B0(a, b), B1(b, c), B2(c, d), rest, a, b, c, d);
  }

  lemma EncodeOnePad(a: Sextet, b: Sextet, c: Sextet)
    requires c % 4 == 0
    ensures Encode([B0(a, b), B1(b, c)]) == [DigitChar(a), DigitChar(b), DigitChar(c), '=']
  {
    SextetsOfBytes(a, b, c, 0);
  }

  lemma EncodeTwoPads(a: Sextet, b: Sextet)
    requires b % 16 == 0
    ensures Encode([B0(a, b)]) == [DigitChar(a), DigitChar(b), '=', '=']
  {
    SextetsOfBytes(a, b, 0, 0);
  }

  lemma EncodeDecodeFull(text: string, rest: seq<Byte>)
    requires |text| >= 4 && forall i :: 0 <= i < 4 ==> CharDigit(text[i]).Some?
    requires Decode(text[4..]) == Some(rest) && Encode(rest) == text[4..]
    ensures Decode(text).Some? && Encode(Decode(text).value) == text
  {
    var a, b := CharDigit(text[0]).value, CharDigit(text[1]).value;
    var c, d := CharDigit(text[2]).value, CharDigit(text[3]).value;
    assert text == [DigitChar(a), DigitChar(b), DigitChar(c), DigitChar(d)] + text[4..];
    DecodeFull(a, b, c, d, text[4..], rest);
    EncodeFull(a, b, c, d, rest);
  }

  lemma EncodeDecodePadded(text: string)
    requires |text| >= 4 && Decode(text).Some? && CharDigit(text[3]).None?
    ensures Encode(Decode(text).value) == text
  {
    var a, b := CharDigit(text[0]).value, CharDigit(text[1]).value;
    if CharDigit(text[2]).Some? {
      EncodeOnePad(a, b, CharDigit(text[2]).value);
      assert text == [text[0], text[1], text[2]] + text[3..];
    } else {
      EncodeTwoPads(a, b);
      assert text == [text[0], text[1]] + text[2..];
    }
  }

  /** Only one text decodes to given bytes. */
  lemma {:induction false} EncodeDecode(text: string)
    requires Decode(text).Some?
    ensures Encode(Decode(text).value) == text
  {
    if text != "" {
      if CharDigit(text[3]).Some? {
        EncodeDecode(text[4..]);
        EncodeDecodeFull(text, Decode(text[4..]).value);
      } else {
        EncodeDecodePadded(text);
      }
    }
  }

  /** Test vectors of section 10 of RFC 4648: "f", "fo", "foo", "foob". */
  lemma Vectors()
    ensures Encode([0x66]) == "Zg==" && Encode([0x66, 0x6F]) == "Zm8="
    ensures Encode([0x66, 0x6F, 0x6F]) == "Zm9v" && Encode([0x66, 0x6F, 0x6F, 0x62]) == "Zm9vYg=="
  {
    var foob: seq<Byte> := [0x66, 0x6F, 0x6F, 0x62];
    assert foob[3..] == [0x62];
    assert Encode([0x62]) == "Yg==";
  }

  predicate InAlphabet(c: char) { CharDigit(c).Some? || c == '=' }

  lemma {:induction false} EncodeAlphabet(data: seq<Byte>)
    ensures forall i :: 0 <= i < |Encode(data)| ==> InAlphabet(Encode(data)[i])
  {
    if |data| > 2 {
      EncodeAlphabet(data[3..]);
    }
  }
}
