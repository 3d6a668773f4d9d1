/** Base64 as section 4 of RFC 4648 words it: groups of 24 bits, written in base 64 with an alphabet. */
module Base64Standard {
  import opened Prelude
  import opened Base64

  /** The alphabet of section 4 of RFC 4648. */
  const UPPER := "ABCDEFGHIJKLMNOPQRSTUVWXYZ"
  const LOWER := "abcdefghijklmnopqrstuvwxyz"
  const ALPHABET := UPPER + LOWER + "0123456789+/"

  lemma UpperDigits(d: Sextet)
    requires d < 26
    ensures DigitChar(d) == UPPER[d]
  {
  }

  lemma LowerDigits(d: Sextet)
    requires 26 <= d < 52
    ensures DigitChar(d) == LOWER[d - 26]
  {
  }

  lemma DigitsAreAlphabet(d: Sextet)
    ensures |ALPHABET| == 64 && DigitChar(d) == ALPHABET[d]
  {
    if d < 26 {
      UpperDigits(d);
    } else if d < 52 {
      LowerDigits(d);
    } else {
      assert DigitChar(d) == "0123456789+/"[d - 52];
    }
  }

  /** The digit of n in base 64 at the given place. */
  function Place(n: nat, place: nat): Sextet {
    (if place == 0 then n else if place == 1 then n / 64 else if place == 2 then n / 4096 else n / 262144) % 64
  }

  /** Three bytes are a 24-bit number, written in base 64. */
  lemma EncodeGroup(x: Byte, y: Byte, z: Byte, rest: seq<Byte>, n: nat)
    requires n == 65536 * x + 256 * y + z
    ensures Encode([x, y, z] + rest)
         == [DigitChar(Place(n, 3)), DigitChar(Place(n, 2)), DigitChar(Place(n, 1)), DigitChar(Place(n, 0))]
            + Encode(rest)
  {
    GroupPlaces(x, y, z, n);
    EncodeThree(x, y, z, rest, D0(x), D1(x, y), D2(y, z), D3(z));
  }

  /** A final group of two bytes is filled up with zero bits and padded. */
  lemma EncodeTwo(x: Byte, y: Byte, n: nat)
    requires n == 65536 * x + 256 * y
    ensures Encode([x, y]) == [DigitChar(Place(n, 3)), DigitChar(Place(n, 2)), DigitChar(Place(n, 1)), '=']
  {
    GroupPlaces(x, y, 0, n);
  }

  /** So is a final group of one byte. */
  lemma EncodeOne(x: Byte, n: nat)
    requires n == 65536 * x
    ensures Encode([x]) == [DigitChar(Place(n, 3)), DigitChar(Place(n, 2)), '=', '=']
  {
    GroupPlaces(x, 0, 0, n);
  }

  lemma GroupPlaces(x: Byte, y: Byte, z: Byte, n: nat)
    requires n == 65536 * x + 256 * y + z
    ensures Place(n, 3) == D0(x) && Place(n, 2) == D1(x, y) && Place(n, 1) == D2(y, z) && Place(n, 0) == D3(z)
  {
    GroupArithmetic(x / 4, x % 4, y / 16, y % 16, z / 64, z % 64);
  }

  lemma GroupArithmetic(a: nat, b: nat, c: nat, d: nat, e: nat, f: nat)
    requires a < 64 && b < 4 && c < 16 && d < 16 && e < 4 && f < 64
    ensures var n := 65536 * (4 * a + b) + 256 * (16 * c + d) + (64 * e + f);
            && n / 262144 == a && n / 4096 % 64 == 16 * b + c && n / 64 % 64 == 4 * d + e && n % 64 == f
  {
    var n := 65536 * (4 * a + b) + 256 * (16 * c + d) + (64 * e + f);
    assert n / 64 == 64 * (64 * a + 16 * b + c) + (4 * d + e);
    assert n / 4096 == 64 * a + (16 * b + c);
  }
}
