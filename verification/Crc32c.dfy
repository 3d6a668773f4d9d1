/** CRC-32C (Castagnoli), the app-level checksum of a journal entry: section 12.1 of RFC 3720.
    A 32-bit register is its 32 bits, least significant first. The checksum SubmitResult computes is
    driven by a 256-entry table; the reference is a shift register fed one bit at a time. */
module Crc32c {
  import opened Prelude

  type Register = r: seq<bool> | |r| == 32 witness seq(32, _ => false)

  function Value(bits: seq<bool>): nat {
    if bits == [] then 0 else (if bits[0] then 1 else 0) + 2 * Value(bits[1..])
  }

  /** The k low bits of n, least significant first. */
  function NatBits(n: nat, k: nat): (bits: seq<bool>)
    ensures |bits| == k
    decreases k
  {
    if k == 0 then [] else [n % 2 == 1] + NatBits(n / 2, k - 1)
  }

  /** The generator of section 12.1 of RFC 3720, 0x11EDC6F41, by its exponents below 32. */
  const EXPONENTS: set<nat> := {0, 6, 8, 9, 10, 11, 13, 14, 18, 19, 20, 22, 23, 25, 26, 27, 28}

  /** The generator as register content: the coefficient of the highest power in the lowest bit. */
  function Poly(): Register { seq(32, i requires 0 <= i < 32 => 31 - i in EXPONENTS) }

  function Zeros(n: nat): (z: seq<bool>)
    ensures |z| == n
  {
    seq(n, _ => false)
  }

  function Ones(n: nat): (z: seq<bool>)
    ensures |z| == n
  {
    seq(n, _ => true)
  }

  function Xor(a: Register, b: Register): Register {
    seq(32, i requires 0 <= i < 32 => a[i] != b[i])
  }

  // ---- the reference: a shift register fed one bit at a time ----

  function Shift(s: Register): Register {
    if s[0] then Xor(s[1..] + [false], Poly()) else s[1..] + [false]
  }

  /** At most 32 bits as register content, first bit least significant. */
  function Word(bits: seq<bool>): Register
    requires |bits| <= 32
  {
    bits + Zeros(32 - |bits|)
  }

  function Feed(s: Register, bits: seq<bool>): Register
    decreases bits
  {
    if bits == [] then s else Feed(Shift(Xor(s, Word([bits[0]]))), bits[1..])
  }

  /** The bits of a byte in transmission order: least significant first. */
  function ByteBits(x: Byte): (bits: seq<bool>)
    ensures |bits| == 8
  {
    NatBits(x, 8)
  }

  function Bits(data: seq<Byte>): (bits: seq<bool>)
    ensures |bits| == 8 * |data|
  {
    if data == [] then [] else ByteBits(data[0]) + Bits(data[1..])
  }

  // ---- the table-driven form, one byte at a time ----

  function Shifts(s: Register, n: nat): Register
    decreases n
  {
    if n == 0 then s else Shifts(Shift(s), n - 1)
  }

  /** The Castagnoli table at the index held in the low eight bits of i. */
  function Table(i: Register): Register { Shifts(i, 8) }

  function TableUpdate(s: Register, x: Byte): Register {
    Xor(Table(Word(Xor(s, Word(ByteBits(x)))[..8])), s[8..] + Zeros(8))
  }

  function Update(s: Register, data: seq<Byte>): Register
    decreases data
  {
    if data == [] then s else Update(TableUpdate(s, data[0]), data[1..])
  }

  function AllOnes(): Register { Ones(32) }

  function ChecksumRegister(data: seq<Byte>): Register { Xor(Update(AllOnes(), data), AllOnes()) }

  function Checksum(data: seq<Byte>): nat { Value(ChecksumRegister(data)) }

  function Pow2(n: nat): nat { if n == 0 then 1 else 2 * Pow2(n - 1) }

  lemma {:induction false} ValueOfNatBits(n: nat, k: nat)
    requires n < Pow2(k)
    ensures Value(NatBits(n, k)) == n
    decreases k
  {
    if k != 0 {
      ValueOfNatBits(n / 2, k - 1);
      assert NatBits(n, k)[1..] == NatBits(n / 2, k - 1);
    }
  }

  lemma {:induction false} ValueBound(bits: seq<bool>)
    ensures Value(bits) < Pow2(|bits|)
  {
    if bits != [] {
      ValueBound(bits[1..]);
    }
  }

  /** A checksum fits the uint32 field that carries it. */
  lemma ChecksumFits(data: seq<Byte>)
    ensures Checksum(data) < 0x1_0000_0000
  {
    ValueBound(ChecksumRegister(data));
    PowersOfTwo();
  }

  lemma {:induction false} ValueInjective(a: seq<bool>, b: seq<bool>)
    requires |a| == |b| && Value(a) == Value(b)
    ensures a == b
  {
    if a != [] {
      ValueInjective(a[1..], b[1..]);
      assert a == [a[0]] + a[1..] && b == [b[0]] + b[1..];
    }
  }

  // ---- the register is linear and loses nothing ----

  lemma ShiftLinear(a: Register, b: Register)
    ensures Shift(Xor(a, b)) == Xor(Shift(a), Shift(b))
  {
  }

  lemma PolyTop()
    ensures Poly()[31]
  {
  }

  /** The generator's top bit is set, so a shift records the bit it pushes out. */
  lemma TopBitTellsLowBit(a: Register)
    ensures Shift(a)[31] == a[0]
  {
    PolyTop();
  }

  lemma ShiftInjective(a: Register, b: Register)
    requires Shift(a) == Shift(b)
    ensures a == b
  {
    TopBitTellsLowBit(a);
    TopBitTellsLowBit(b);
    if a[0] {
      XorCancel(a[1..] + [false], b[1..] + [false], Poly());
    }
    assert a == [a[0]] + (a[1..] + [false])[..31] && b == [b[0]] + (b[1..] + [false])[..31];
  }

  lemma {:induction false} ShiftsLinear(a: Register, b: Register, n: nat)
    ensures Shifts(Xor(a, b), n) == Xor(Shifts(a, n), Shifts(b, n))
    decreases n
  {
    if n != 0 {
      ShiftLinear(a, b);
      ShiftsLinear(Shift(a), Shift(b), n - 1);
    }
  }

  lemma {:induction false} ShiftsInjective(a: Register, b: Register, n: nat)
    requires Shifts(a, n) == Shifts(b, n)
    ensures a == b
    decreases n
  {
    if n != 0 {
      ShiftsInjective(Shift(a), Shift(b), n - 1);
      ShiftInjective(a, b);
    }
  }

  lemma XorCancel(s: Register, t: Register, b: Register)
    requires Xor(s, b) == Xor(t, b) || Xor(b, s) == Xor(b, t)
    ensures s == t
  {
    forall i | 0 <= i < 32
      ensures s[i] == t[i]
    {
      assert (s[i] != b[i]) == Xor(s, b)[i] == Xor(b, s)[i];
      assert (t[i] != b[i]) == Xor(t, b)[i] == Xor(b, t)[i];
    }
  }

  lemma {:induction false} FeedConcat(s: Register, a: seq<bool>, b: seq<bool>)
    ensures Feed(s, a + b) == Feed(Feed(s, a), b)
    decreases a
  {
    if a == [] {
      assert a + b == b;
    } else {
      assert (a + b)[1..] == a[1..] + b;
      FeedConcat(Shift(Xor(s, Word([a[0]]))), a[1..], b);
    }
  }

  lemma FeedThree(s: Register, a: seq<bool>, b: seq<bool>, c: seq<bool>)
    ensures Feed(s, a + (b + c)) == Feed(Feed(Feed(s, a), b), c)
  {
    FeedConcat(s, a, b + c);
    FeedConcat(Feed(s, a), b, c);
  }

  /** Different registers stay different whatever common bits follow. */
  lemma {:induction false} FeedInjectiveInState(s: Register, t: Register, bits: seq<bool>)
    requires Feed(s, bits) == Feed(t, bits)
    ensures s == t
    decreases bits
  {
    if bits != [] {
      var b := Word([bits[0]]);
      FeedInjectiveInState(Shift(Xor(s, b)), Shift(Xor(t, b)), bits[1..]);
      ShiftInjective(Xor(s, b), Xor(t, b));
      XorCancel(s, t, b);
    }
  }

  // ---- a window of at most 32 bits is absorbed into the register without loss ----

  /** A bit string of at most 31 bits, moved up one place, is shifted back unchanged. */
  lemma ShiftWord(s: Register, bits: seq<bool>)
    requires 0 < |bits| <= 32
    ensures Shift(Xor(s, Word(bits))) == Xor(Shift(Xor(s, Word([bits[0]]))), Word(bits[1..]))
  {
  }

  /** Feeding at most 32 bits is: xor them into the register, then shift. */
  lemma {:induction false} FeedIsXorThenShift(s: Register, bits: seq<bool>)
    requires |bits| <= 32
    ensures Feed(s, bits) == Shifts(Xor(s, Word(bits)), |bits|)
    decreases bits
  {
    if bits == [] {
      assert Xor(s, Word([])) == s;
    } else {
      FeedIsXorThenShift(Shift(Xor(s, Word([bits[0]]))), bits[1..]);
      ShiftWord(s, bits);
    }
  }

  // ---- the table-driven form refines the register ----

  /** Content whose low n bits are clear is shifted out unchanged. */
  lemma {:induction false} ShiftOut(s: Register, n: nat)
    requires n <= 32 && s[..n] == Zeros(n)
    ensures Shifts(s, n) == s[n..] + Zeros(n)
    decreases n
  {
    if n == 0 {
      assert s[0..] + Zeros(0) == s;
    } else {
      assert s[0] == s[..n][0];
      assert Shift(s)[..n - 1] == Zeros(n - 1) by {
        forall i | 0 <= i < n - 1 ensures !Shift(s)[i] { assert s[i + 1] == s[..n][i + 1]; }
      }
      ShiftOut(Shift(s), n - 1);
      assert Shift(s)[n - 1..] + Zeros(n - 1) == s[n..] + Zeros(n);
    }
  }

  lemma SplitRegister(t: Register)
    ensures t == Xor(Word(t[..8]), Zeros(8) + t[8..])
  {
  }

  lemma UpperBytesUntouched(s: Register, byte: seq<bool>)
    requires |byte| == 8
    ensures Xor(s, Word(byte))[8..] == s[8..]
  {
  }

  /** One table step is eight register steps. */
  lemma TableStep(s: Register, x: Byte)
    ensures TableUpdate(s, x) == Feed(s, ByteBits(x))
  {
    var t := Xor(s, Word(ByteBits(x)));
    FeedIsXorThenShift(s, ByteBits(x));
    SplitRegister(t);
    UpperBytesUntouched(s, ByteBits(x));
    ShiftsLinear(Word(t[..8]), Zeros(8) + t[8..], 8);
    ShiftOut(Zeros(8) + t[8..], 8);
    assert (Zeros(8) + t[8..])[8..] == s[8..];
  }

  /** The table-driven update is the bit-serial one, for every input. */
  lemma {:induction false} TableRefinesRegister(s: Register, data: seq<Byte>)
    ensures Update(s, data) == Feed(s, Bits(data))
    decreases data
  {
    if data != [] {
      TableStep(s, data[0]);
      FeedConcat(s, ByteBits(data[0]), Bits(data[1..]));
      TableRefinesRegister(Feed(s, ByteBits(data[0])), data[1..]);
    }
  }

  // ---- the constants ----

  lemma ValueFrom(bits: seq<bool>, i: nat)
    requires i < |bits|
    ensures Value(bits[i..]) == (if bits[i] then 1 else 0) + 2 * Value(bits[i + 1..])
  {
    assert bits[i..][1..] == bits[i + 1..];
  }

  lemma Nibble(bits: seq<bool>, i: nat, a: bool, b: bool, c: bool, d: bool)
    requires i + 4 <= |bits| && bits[i] == a && bits[i + 1] == b && bits[i + 2] == c && bits[i + 3] == d
    ensures Value(bits[i..]) == (if a then 1 else 0) + (if b then 2 else 0) + (if c then 4 else 0)
                              + (if d then 8 else 0) + 16 * Value(bits[i + 4..])
  {
    ValueFrom(bits, i);
    ValueFrom(bits, i + 1);
    ValueFrom(bits, i + 2);
    ValueFrom(bits, i + 3);
  }

  lemma PolyNibble(i: nat, a: bool, b: bool, c: bool, d: bool)
    requires i + 4 <= 32
    requires a == (31 - i in EXPONENTS) && b == (30 - i in EXPONENTS)
    requires c == (29 - i in EXPONENTS) && d == (28 - i in EXPONENTS)
    ensures Value(Poly()[i..]) == (if a then 1 else 0) + (if b then 2 else 0) + (if c then 4 else 0)
                                + (if d then 8 else 0) + 16 * Value(Poly()[i + 4..])
  {
    Nibble(Poly(), i, a, b, c, d);
  }

  /** The generator is the reversed Castagnoli constant. */
  lemma PolyIsCastagnoli()
    ensures Value(Poly()) == 0x82F63B78
  {
    PolyNibble(28, false, false, false, true);
    PolyNibble(24, false, true, false, false);
    PolyNibble(20, true, true, true, true);
    PolyNibble(16, false, true, true, false);
    PolyNibble(12, true, true, false, false);
    PolyNibble(8, true, true, false, true);
    PolyNibble(4, true, true, true, false);
    PolyNibble(0, false, false, false, true);
    assert Poly()[0..] == Poly() && Poly()[32..] == [];
  }

  lemma BitsOfOne(x: Byte)
    ensures Bits([x]) == ByteBits(x)
  {
    assert Bits([x][1..]) == [];
  }

  /** Seven of the eight shifts discard a zero, the last brings in the generator. */
  lemma SevenZerosThenOne(s: Register)
    requires s == Zeros(7) + Ones(25)
    ensures Shifts(s, 8) == Xor(Ones(24) + Zeros(8), Poly())
  {
    ShiftOut(s, 7);
    ShiftsLast(s, 7);
    assert s[7..] + Zeros(7) == Ones(25) + Zeros(7);
    assert (Ones(25) + Zeros(7))[1..] + [false] == Ones(24) + Zeros(8);
  }

  lemma {:induction false} ValueSplit(low: seq<bool>, high: seq<bool>)
    ensures Value(low + high) == Value(low) + Pow2(|low|) * Value(high)
  {
    if low == [] {
      assert low + high == high;
    } else {
      assert (low + high)[1..] == low[1..] + high;
      ValueSplit(low[1..], high);
      Doubled(Pow2(|low| - 1), Value(high));
    }
  }

  lemma Doubled(m: nat, n: nat)
    ensures 2 * (m * n) == (2 * m) * n
  {
  }

  lemma {:induction false} ValueComplement(a: seq<bool>, b: seq<bool>)
    requires |a| == |b| && forall i :: 0 <= i < |a| ==> a[i] != b[i]
    ensures Value(a) + Value(b) == Pow2(|a|) - 1
  {
    if a != [] {
      ValueComplement(a[1..], b[1..]);
    }
  }

  /** Complementing the top byte of a register: the low 24 bits stay, the top eight add up to 255. */
  lemma TopByteComplemented(p: Register, r: Register)
    requires r[..24] == p[..24] && forall i :: 24 <= i < 32 ==> r[i] != p[i]
    ensures Value(p) % 0x100_0000 == Value(r) % 0x100_0000
    ensures Value(p) / 0x100_0000 + Value(r) / 0x100_0000 == 255
  {
    TopByte(p);
    TopByte(r);
    ValueComplement(p[24..], r[24..]);
    PowersOfTwo();
  }

  lemma TopByte(p: Register)
    ensures Value(p) % 0x100_0000 == Value(p[..24]) && Value(p) / 0x100_0000 == Value(p[24..])
  {
    assert p == p[..24] + p[24..];
    ValueSplit(p[..24], p[24..]);
    ValueBound(p[..24]);
    PowersOfTwo();
  }

  lemma PowersOfTwo()
    ensures Pow2(8) == 0x100 && Pow2(24) == 0x100_0000 && Pow2(32) == 0x1_0000_0000
  {
    assert Pow2(8) == 0x100 && Pow2(16) == 0x1_0000 && Pow2(24) == 0x100_0000;
  }

  lemma VectorRegister(s: Register, p: Register)
    requires s == Xor(Ones(24) + Zeros(8), p) && Value(p) == 0x82F63B78
    ensures Value(Xor(s, AllOnes())) == 0x7DF63B78
  {
    TopByteComplemented(p, Xor(s, AllOnes()));
  }

  lemma OneByteRegister()
    ensures Feed(AllOnes(), Bits([0x7F])) == Xor(Ones(24) + Zeros(8), Poly())
  {
    BitsOfOne(0x7F);
    FeedIsXorThenShift(AllOnes(), ByteBits(0x7F));
    SevenLowBits();
    SevenZerosThenOne(Xor(AllOnes(), Word(ByteBits(0x7F))));
  }

  /** The checksum of the byte 0x7F. */
  lemma OneByteVector()
    ensures Checksum([0x7F]) == 0x7DF63B78
  {
    var data: seq<Byte> := [0x7F];
    TableRefinesRegister(AllOnes(), data);
    OneByteRegister();
    PolyIsCastagnoli();
    VectorRegister(Update(AllOnes(), data), Poly());
  }

  lemma SevenLowBits()
    ensures Xor(AllOnes(), Word(ByteBits(0x7F))) == Zeros(7) + Ones(25)
  {
    assert NatBits(0x7F, 8) == [true, true, true, true] + NatBits(7, 4);
    assert NatBits(7, 4) == [true, true, true, false];
    assert Word(ByteBits(0x7F)) == Ones(7) + Zeros(25);
  }

  lemma {:induction false} ShiftsLast(s: Register, n: nat)
    ensures Shifts(s, n + 1) == Shift(Shifts(s, n))
    decreases n
  {
    if n != 0 {
      ShiftsLast(Shift(s), n - 1);
    }
  }

  // ---- error detection ----

  /** Two messages agree outside the window of the given width that starts at k. */
  ghost predicate AgreeOutside(a: seq<bool>, b: seq<bool>, k: nat, width: nat := 32) {
    |a| == |b| && forall i :: 0 <= i < |a| && !(k <= i < k + width) ==> a[i] == b[i]
  }

  lemma WindowInjective(s: Register, a: seq<bool>, b: seq<bool>)
    requires |a| == |b| <= 32 && Feed(s, a) == Feed(s, b)
    ensures a == b
  {
    FeedIsXorThenShift(s, a);
    FeedIsXorThenShift(s, b);
    ShiftsInjective(Xor(s, Word(a)), Xor(s, Word(b)), |a|);
    XorCancel(Word(a), Word(b), s);
    assert a == Word(a)[..|a|] && b == Word(b)[..|b|];
  }

  lemma SplitAtWindow(a: seq<bool>, b: seq<bool>, k: nat)
    returns (before: seq<bool>, u: seq<bool>, v: seq<bool>, after: seq<bool>)
    requires AgreeOutside(a, b, k)
    ensures a == before + (u + after) && b == before + (v + after) && |u| == |v| <= 32
  {
    var lo := if k <= |a| then k else |a|;
    var hi := if k + 32 <= |a| then k + 32 else |a|;
    before, u, v, after := a[..lo], a[lo..hi], b[lo..hi], a[hi..];
    assert b[..lo] == before;
    assert b[hi..] == after;
  }

  lemma BurstChangesRegister(s: Register, a: seq<bool>, b: seq<bool>, k: nat)
    requires AgreeOutside(a, b, k) && Feed(s, a) == Feed(s, b)
    ensures a == b
  {
    var before, u, v, after := SplitAtWindow(a, b, k);
    var s1 := Feed(s, before);
    FeedThree(s, before, u, after);
    FeedThree(s, before, v, after);
    FeedInjectiveInState(Feed(s1, u), Feed(s1, v), after);
    WindowInjective(s1, u, v);
  }

  lemma ByteFromBits(x: Byte)
    ensures Value(ByteBits(x)) == x
  {
    assert Pow2(8) == 256;
    ValueOfNatBits(x, 8);
  }

  lemma {:induction false} BitsInjective(a: seq<Byte>, b: seq<Byte>)
    requires Bits(a) == Bits(b)
    ensures a == b
  {
    if a != [] && b != [] {
      assert Bits(a)[..8] == ByteBits(a[0]) && Bits(a)[8..] == Bits(a[1..]);
      assert Bits(b)[..8] == ByteBits(b[0]) && Bits(b)[8..] == Bits(b[1..]);
      ByteFromBits(a[0]);
      ByteFromBits(b[0]);
      BitsInjective(a[1..], b[1..]);
      assert a == [a[0]] + a[1..] && b == [b[0]] + b[1..];
    }
  }

  /** Every burst of at most 32 bits, at any bit position of a payload of any length, changes the
      checksum. */
  lemma BurstDetected(a: seq<Byte>, b: seq<Byte>, k: nat)
    requires a != b && AgreeOutside(Bits(a), Bits(b), k)
    ensures Checksum(a) != Checksum(b)
  {
    if Checksum(a) == Checksum(b) {
      ValueInjective(ChecksumRegister(a), ChecksumRegister(b));
      XorCancel(Update(AllOnes(), a), Update(AllOnes(), b), AllOnes());
      TableRefinesRegister(AllOnes(), a);
      TableRefinesRegister(AllOnes(), b);
      BurstChangesRegister(AllOnes(), Bits(a), Bits(b), k);
      BitsInjective(a, b);
    }
  }

  lemma {:induction false} BitsConcat(a: seq<Byte>, b: seq<Byte>)
    ensures Bits(a + b) == Bits(a) + Bits(b)
  {
    if a == [] {
      assert a + b == b;
    } else {
      assert (a + b)[1..] == a[1..] + b;
      BitsConcat(a[1..], b);
    }
  }

  lemma MiddleWindow(before: seq<bool>, x: seq<bool>, y: seq<bool>, after: seq<bool>)
    requires |x| == |y| <= 32
    ensures AgreeOutside(before + x + after, before + y + after, |before|)
  {
  }

  /** Up to four consecutive bytes replaced by others: the checksum changes. */
  lemma FourBytesDetected(before: seq<Byte>, x: seq<Byte>, y: seq<Byte>, after: seq<Byte>)
    requires |x| == |y| <= 4 && x != y
    ensures Checksum(before + x + after) != Checksum(before + y + after)
  {
    BitsConcat(before + x, after);
    BitsConcat(before, x);
    BitsConcat(before + y, after);
    BitsConcat(before, y);
    MiddleWindow(Bits(before), Bits(x), Bits(y), Bits(after));
    assert before + x + after != before + y + after by {
      assert (before + x + after)[|before|..|before| + |x|] == x;
      assert (before + y + after)[|before|..|before| + |x|] == y;
    }
    BurstDetected(before + x + after, before + y + after, |Bits(before)|);
  }

  /** Any single byte changed, at any position: the checksum changes. */
  lemma ByteChangeDetected(data: seq<Byte>, i: nat, x: Byte)
    requires i < |data| && data[i] != x
    ensures Checksum(data[i := x]) != Checksum(data)
  {
    assert data == data[..i] + [data[i]] + data[i + 1..];
    assert data[i := x] == data[..i] + [x] + data[i + 1..];
    FourBytesDetected(data[..i], [x], [data[i]], data[i + 1..]);
  }

  /** The generator itself, a pattern of 33 bits, added to any window. */
  function Flipped(window: seq<bool>): (other: seq<bool>)
    requires |window| == 33
    ensures |other| == 33 && other != window
  {
    assert ([!window[0]] + Xor(window[1..], Poly()))[0] != window[0];
    [!window[0]] + Xor(window[1..], Poly())
  }

  lemma FlippedEscapes(s: Register, before: seq<bool>, window: seq<bool>, after: seq<bool>)
    requires |window| == 33
    ensures Feed(s, before + (window + after)) == Feed(s, before + (Flipped(window) + after))
  {
    GeneratorEscapes(Feed(s, before), window, Flipped(window));
    FeedThree(s, before, window, after);
    FeedThree(s, before, Flipped(window), after);
  }

  lemma {:induction false} BitsOfValue(bits: seq<bool>)
    ensures NatBits(Value(bits), |bits|) == bits
  {
    if bits != [] {
      BitsOfValue(bits[1..]);
      assert Value(bits) / 2 == Value(bits[1..]);
      assert bits == [bits[0]] + bits[1..];
    }
  }

  /** Every bit string that fills its bytes is the bits of some bytes. */
  lemma {:induction false} BytesFor(bits: seq<bool>, n: nat) returns (data: seq<Byte>)
    requires |bits| == 8 * n
    ensures |data| == n && Bits(data) == bits
    decreases n
  {
    if n == 0 {
      data := [];
    } else {
      var rest := BytesFor(bits[8..], n - 1);
      ValueBound(bits[..8]);
      assert Pow2(8) == 256;
      BitsOfValue(bits[..8]);
      data := [Value(bits[..8])] + rest;
      assert data[1..] == rest && bits == bits[..8] + bits[8..];
    }
  }

  lemma OtherWindow(bits: seq<bool>, k: nat) returns (other: seq<bool>)
    requires k + 33 <= |bits|
    ensures |other| == |bits| && other != bits && AgreeOutside(bits, other, k, 33)
    ensures forall s: Register :: Feed(s, bits) == Feed(s, other)
  {
    var before, window, after := bits[..k], bits[k..k + 33], bits[k + 33..];
    other := before + (Flipped(window) + after);
    assert bits == before + (window + after);
    assert other[k..k + 33] == Flipped(window);
    forall s: Register ensures Feed(s, bits) == Feed(s, other) { FlippedEscapes(s, before, window, after); }
  }

  /** 32 is the exact bound: in every payload, every window of 33 bits can be replaced by another that leaves
      the checksum as it is. */
  lemma ThirtyThreeBitsEscape(a: seq<Byte>, k: nat) returns (b: seq<Byte>)
    requires k + 33 <= 8 * |a|
    ensures |b| == |a| && b != a && AgreeOutside(Bits(a), Bits(b), k, 33) && Checksum(a) == Checksum(b)
  {
    var other := OtherWindow(Bits(a), k);
    b := BytesFor(other, |a|);
    TableRefinesRegister(AllOnes(), a);
    TableRefinesRegister(AllOnes(), b);
  }

  lemma ShiftFlipped(s: Register, b: bool)
    ensures Shift(Xor(s, Word([!b]))) == Xor(Shift(Xor(s, Word([b]))), Poly())
  {
  }

  lemma XorTwice(t: Register, w: Register, p: Register)
    ensures Xor(Xor(t, p), Xor(w, p)) == Xor(t, w)
  {
  }

  lemma GeneratorEscapes(s: Register, window: seq<bool>, other: seq<bool>)
    requires |window| == 33 && other == Flipped(window)
    ensures Feed(s, window) == Feed(s, other)
  {
    var w, t := window[1..], Shift(Xor(s, Word([window[0]])));
    assert other[1..] == Xor(w, Poly());
    assert Word(w) == w && Word(other[1..]) == other[1..];
    ShiftFlipped(s, window[0]);
    XorTwice(t, w, Poly());
    FeedIsXorThenShift(t, w);
    FeedIsXorThenShift(Xor(t, Poly()), other[1..]);
  }
}
