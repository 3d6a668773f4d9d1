/** A worked example: the bytes SubmitResult publishes for a nil payload, checksum included. */
module Example {
  import opened Prelude
  import opened Crc32c
  import opened HexCrc
  import opened Jcs
  import opened Envelope
  import Base64

  /** The inner record, its bytes and its base64 text. */
  const INNER := "{\"isTerminal\":true,\"result\":null}"

  predicate IsInner(data: seq<Byte>) {
    && |data| == 33
    && data[0] == 0x7B && data[1] == 0x22 && data[2] == 0x69 && data[3] == 0x73 && data[4] == 0x54
    && data[5] == 0x65 && data[6] == 0x72 && data[7] == 0x6D && data[8] == 0x69 && data[9] == 0x6E
    && data[10] == 0x61 && data[11] == 0x6C && data[12] == 0x22 && data[13] == 0x3A && data[14] == 0x74
    && data[15] == 0x72 && data[16] == 0x75 && data[17] == 0x65 && data[18] == 0x2C && data[19] == 0x22
    && data[20] == 0x72 && data[21] == 0x65 && data[22] == 0x73 && data[23] == 0x75 && data[24] == 0x6C
    && data[25] == 0x74 && data[26] == 0x22 && data[27] == 0x3A && data[28] == 0x6E && data[29] == 0x75
    && data[30] == 0x6C && data[31] == 0x6C && data[32] == 0x7D
  }

  const CODE := "eyJpc1Rlcm1p" + ("bmFsIjp0cnVl" + ("LCJyZXN1bHQi" + ("Om51bGx9")))

  lemma SpelledInner(data: seq<Byte>)
    requires Spells(data, INNER)
    ensures IsInner(data)
  {
  }

  // ---- its checksum, the first byte and then four at a time ----

  lemma Steps0()
    ensures StepHex(Hex32(XF, XF, XF, XF, XF, XF, XF, XF), X7, XB) == Hex32(X4, X5, X9, X3, X5, X3, X9, X8)
  {
    EightShifts(Hex32(XF, XF, XF, XF, XF, XF, XF, XF), X7, XB, Hex32(X4, X5, X9, X3, X5, X3, X9, X8));
  }

  lemma Part0(data: seq<Byte>)
    requires |data| == 33 && data[0] == 0x7B
    ensures Update(Reg(Hex32(XF, XF, XF, XF, XF, XF, XF, XF)), data[0..])
         == Update(Reg(Hex32(X4, X5, X9, X3, X5, X3, X9, X8)), data[1..])
  {
    Steps0();
    Advance(data, 0, Hex32(XF, XF, XF, XF, XF, XF, XF, XF), X7, XB,
            Hex32(X4, X5, X9, X3, X5, X3, X9, X8));
  }

  lemma Steps1()
    ensures StepHex(Hex32(X4, X5, X9, X3, X5, X3, X9, X8), X2, X2) == Hex32(XD, X9, XB, X2, XC, X9, XA, X2)
    ensures StepHex(Hex32(XD, X9, XB, X2, XC, X9, XA, X2), X6, X9) == Hex32(X5, XA, XD, XD, X3, XF, X3, X6)
    ensures StepHex(Hex32(X5, XA, XD, XD, X3, XF, X3, X6), X7, X3) == Hex32(X7, X4, XD, X0, XD, X4, X9, XF)
    ensures StepHex(Hex32(X7, X4, XD, X0, XD, X4, X9, XF), X5, X4) == Hex32(X5, XA, X7, X0, X5, XD, X2, XB)
  {
    EightShifts(Hex32(X4, X5, X9, X3, X5, X3, X9, X8), X2, X2, Hex32(XD, X9, XB, X2, XC, X9, XA, X2));
    EightShifts(Hex32(XD, X9, XB, X2, XC, X9, XA, X2), X6, X9, Hex32(X5, XA, XD, XD, X3, XF, X3, X6));
    EightShifts(Hex32(X5, XA, XD, XD, X3, XF, X3, X6), X7, X3, Hex32(X7, X4, XD, X0, XD, X4, X9, XF));
    EightShifts(Hex32(X7, X4, XD, X0, XD, X4, X9, XF), X5, X4, Hex32(X5, XA, X7, X0, X5, XD, X2, XB));
  }

  lemma Part1(data: seq<Byte>)
    requires |data| == 33 && data[1] == 0x22 && data[2] == 0x69 && data[3] == 0x73 && data[4] == 0x54
    ensures Update(Reg(Hex32(X4, X5, X9, X3, X5, X3, X9, X8)), data[1..])
         == Update(Reg(Hex32(X5, XA, X7, X0, X5, XD, X2, XB)), data[5..])
  {
    Steps1();
    Advance(data, 1, Hex32(X4, X5, X9, X3, X5, X3, X9, X8), X2, X2,
            Hex32(XD, X9, XB, X2, XC, X9, XA, X2));
    Advance(data, 2, Hex32(XD, X9, XB, X2, XC, X9, XA, X2), X6, X9,
            Hex32(X5, XA, XD, XD, X3, XF, X3, X6));
    Advance(data, 3, Hex32(X5, XA, XD, XD, X3, XF, X3, X6), X7, X3,
            Hex32(X7, X4, XD, X0, XD, X4, X9, XF));
    Advance(data, 4, Hex32(X7, X4, XD, X0, XD, X4, X9, XF), X5, X4,
            Hex32(X5, XA, X7, X0, X5, XD, X2, XB));
  }

  lemma Steps2()
    ensures StepHex(Hex32(X5, XA, X7, X0, X5, XD, X2, XB), X6, X5) == Hex32(XE, XD, X5, X9, XD, X2, XC, X6)
    ensures StepHex(Hex32(XE, XD, X5, X9, XD, X2, XC, X6), X7, X2) == Hex32(X7, X5, X6, X2, XB, XC, X0, X4)
    ensures StepHex(Hex32(X7, X5, X6, X2, XB, XC, X0, X4), X6, XD) == Hex32(X1, X9, X0, X1, X2, XA, X1, X2)
    ensures StepHex(Hex32(X1, X9, X0, X1, X2, XA, X1, X2), X6, X9) == Hex32(XE, X8, X0, X8, XF, XE, X1, XC)
  {
    EightShifts(Hex32(X5, XA, X7, X0, X5, XD, X2, XB), X6, X5, Hex32(XE, XD, X5, X9, XD, X2, XC, X6));
    EightShifts(Hex32(XE, XD, X5, X9, XD, X2, XC, X6), X7, X2, Hex32(X7, X5, X6, X2, XB, XC, X0, X4));
    EightShifts(Hex32(X7, X5, X6, X2, XB, XC, X0, X4), X6, XD, Hex32(X1, X9, X0, X1, X2, XA, X1, X2));
    EightShifts(Hex32(X1, X9, X0, X1, X2, XA, X1, X2), X6, X9, Hex32(XE, X8, X0, X8, XF, XE, X1, XC));
  }

  lemma Part2(data: seq<Byte>)
    requires |data| == 33 && data[5] == 0x65 && data[6] == 0x72 && data[7] == 0x6D && data[8] == 0x69
    ensures Update(Reg(Hex32(X5, XA, X7, X0, X5, XD, X2, XB)), data[5..])
         == Update(Reg(Hex32(XE, X8, X0, X8, XF, XE, X1, XC)), data[9..])
  {
    Steps2();
    Advance(data, 5, Hex32(X5, XA, X7, X0, X5, XD, X2, XB), X6, X5,
            Hex32(XE, XD, X5, X9, XD, X2, XC, X6));
    Advance(data, 6, Hex32(XE, XD, X5, X9, XD, X2, XC, X6), X7, X2,
            Hex32(X7, X5, X6, X2, XB, XC, X0, X4));
    Advance(data, 7, Hex32(X7, X5, X6, X2, XB, XC, X0, X4), X6, XD,
            Hex32(X1, X9, X0, X1, X2, XA, X1, X2));
    Advance(data, 8, Hex32(X1, X9, X0, X1, X2, XA, X1, X2), X6, X9,
            Hex32(XE, X8, X0, X8, XF, XE, X1, XC));
  }

  lemma Steps3()
    ensures StepHex(Hex32(XE, X8, X0, X8, XF, XE, X1, XC), X6, XE) == Hex32(X9, X0, X4, XB, X2, XC, X0, X4)
    ensures StepHex(Hex32(X9, X0, X4, XB, X2, XC, X0, X4), X6, X1) == Hex32(X5, X4, XA, X7, XC, XC, X5, X2)
    ensures StepHex(Hex32(X5, X4, XA, X7, XC, XC, X5, X2), X6, XC) == Hex32(X9, XC, XC, XF, X5, X1, X5, XA)
    ensures StepHex(Hex32(X9, XC, XC, XF, X5, X1, X5, XA), X2, X2) == Hex32(XF, XB, XD, XD, XC, X3, X9, X3)
  {
    EightShifts(Hex32(XE, X8, X0, X8, XF, XE, X1, XC), X6, XE, Hex32(X9, X0, X4, XB, X2, XC, X0, X4));
    EightShifts(Hex32(X9, X0, X4, XB, X2, XC, X0, X4), X6, X1, Hex32(X5, X4, XA, X7, XC, XC, X5, X2));
    EightShifts(Hex32(X5, X4, XA, X7, XC, XC, X5, X2), X6, XC, Hex32(X9, XC, XC, XF, X5, X1, X5, XA));
    EightShifts(Hex32(X9, XC, XC, XF, X5, X1, X5, XA), X2, X2, Hex32(XF, XB, XD, XD, XC, X3, X9, X3));
  }

  lemma Part3(data: seq<Byte>)
    requires |data| == 33 && data[9] == 0x6E && data[10] == 0x61 && data[11] == 0x6C && data[12] == 0x22
    ensures Update(Reg(Hex32(XE, X8, X0, X8, XF, XE, X1, XC)), data[9..])
         == Update(Reg(Hex32(XF, XB, XD, XD, XC, X3, X9, X3)), data[13..])
  {
    Steps3();
    Advance(data, 9, Hex32(XE, X8, X0, X8, XF, XE, X1, XC), X6, XE,
            Hex32(X9, X0, X4, XB, X2, XC, X0, X4));
    Advance(data, 10, Hex32(X9, X0, X4, XB, X2, XC, X0, X4), X6, X1,
            Hex32(X5, X4, XA, X7, XC, XC, X5, X2));
    Advance(data, 11, Hex32(X5, X4, XA, X7, XC, XC, X5, X2), X6, XC,
            Hex32(X9, XC, XC, XF, X5, X1, X5, XA));
    Advance(data, 12, Hex32(X9, XC, XC, XF, X5, X1, X5, XA), X2, X2,
            Hex32(XF, XB, XD, XD, XC, X3, X9, X3));
  }

  lemma Steps4()
    ensures StepHex(Hex32(XF, XB, XD, XD, XC, X3, X9, X3), X3, XA) == Hex32(XD, XA, X0, X2, XB, X3, XA, X9)
    ensures StepHex(Hex32(XD, XA, X0, X2, XB, X3, XA, X9), X7, X4) == Hex32(X6, XC, X2, X1, XA, XF, XC, XB)
    ensures StepHex(Hex32(X6, XC, X2, X1, XA, XF, XC, XB), X7, X2) == Hex32(XC, XA, XC, XB, X8, X8, XA, XA)
    ensures StepHex(Hex32(XC, XA, XC, XB, X8, X8, XA, XA), X7, X5) == Hex32(X8, XD, X0, XA, X1, X6, X0, X7)
  {
    EightShifts(Hex32(XF, XB, XD, XD, XC, X3, X9, X3), X3, XA, Hex32(XD, XA, X0, X2, XB, X3, XA, X9));
    EightShifts(Hex32(XD, XA, X0, X2, XB, X3, XA, X9), X7, X4, Hex32(X6, XC, X2, X1, XA, XF, XC, XB));
    EightShifts(Hex32(X6, XC, X2, X1, XA, XF, XC, XB), X7, X2, Hex32(XC, XA, XC, XB, X8, X8, XA, XA));
    EightShifts(Hex32(XC, XA, XC, XB, X8, X8, XA, XA), X7, X5, Hex32(X8, XD, X0, XA, X1, X6, X0, X7));
  }

  lemma Part4(data: seq<Byte>)
    requires |data| == 33 && data[13] == 0x3A && data[14] == 0x74 && data[15] == 0x72 && data[16] == 0x75
    ensures Update(Reg(Hex32(XF, XB, XD, XD, XC, X3, X9, X3)), data[13..])
         == Update(Reg(Hex32(X8, XD, X0, XA, X1, X6, X0, X7)), data[17..])
  {
    Steps4();
    Advance(data, 13, Hex32(XF, XB, XD, XD, XC, X3, X9, X3), X3, XA,
            Hex32(XD, XA, X0, X2, XB, X3, XA, X9));
    Advance(data, 14, Hex32(XD, XA, X0, X2, XB, X3, XA, X9), X7, X4,
            Hex32(X6, XC, X2, X1, XA, XF, XC, XB));
    Advance(data, 15, Hex32(X6, XC, X2, X1, XA, XF, XC, XB), X7, X2,
            Hex32(XC, XA, XC, XB, X8, X8, XA, XA));
    Advance(data, 16, Hex32(XC, XA, XC, XB, X8, X8, XA, XA), X7, X5,
            Hex32(X8, XD, X0, XA, X1, X6, X0, X7));
  }

  lemma Steps5()
    ensures StepHex(Hex32(X8, XD, X0, XA, X1, X6, X0, X7), X6, X5) == Hex32(X8, X0, X7, X0, XE, X9, X8, X3)
    ensures StepHex(Hex32(X8, X0, X7, X0, XE, X9, X8, X3), X2, XC) == Hex32(XF, XC, XD, X8, XF, X9, X6, XB)
    ensures StepHex(Hex32(XF, XC, XD, X8, XF, X9, X6, XB), X2, X2) == Hex32(X3, X9, X3, X5, X1, XE, X8, X9)
    ensures StepHex(Hex32(X3, X9, X3, X5, X1, XE, X8, X9), X7, X2) == Hex32(X6, XA, XD, XE, XF, X1, X5, X0)
  {
    EightShifts(Hex32(X8, XD, X0, XA, X1, X6, X0, X7), X6, X5, Hex32(X8, X0, X7, X0, XE, X9, X8, X3));
    EightShifts(Hex32(X8, X0, X7, X0, XE, X9, X8, X3), X2, XC, Hex32(XF, XC, XD, X8, XF, X9, X6, XB));
    EightShifts(Hex32(XF, XC, XD, X8, XF, X9, X6, XB), X2, X2, Hex32(X3, X9, X3, X5, X1, XE, X8, X9));
    EightShifts(Hex32(X3, X9, X3, X5, X1, XE, X8, X9), X7, X2, Hex32(X6, XA, XD, XE, XF, X1, X5, X0));
  }

  lemma Part5(data: seq<Byte>)
    requires |data| == 33 && data[17] == 0x65 && data[18] == 0x2C && data[19] == 0x22 && data[20] == 0x72
    ensures Update(Reg(Hex32(X8, XD, X0, XA, X1, X6, X0, X7)), data[17..])
         == Update(Reg(Hex32(X6, XA, XD, XE, XF, X1, X5, X0)), data[21..])
  {
    Steps5();
    Advance(data, 17, Hex32(X8, XD, X0, XA, X1, X6, X0, X7), X6, X5,
            Hex32(X8, X0, X7, X0, XE, X9, X8, X3));
    Advance(data, 18, Hex32(X8, X0, X7, X0, XE, X9, X8, X3), X2, XC,
            Hex32(XF, XC, XD, X8, XF, X9, X6, XB));
    Advance(data, 19, Hex32(XF, XC, XD, X8, XF, X9, X6, XB), X2, X2,
            Hex32(X3, X9, X3, X5, X1, XE, X8, X9));
    Advance(data, 20, Hex32(X3, X9, X3, X5, X1, XE, X8, X9), X7, X2,
            Hex32(X6, XA, XD, XE, XF, X1, X5, X0));
  }

  lemma Steps6()
    ensures StepHex(Hex32(X6, XA, XD, XE, XF, X1, X5, X0), X6, X5) == Hex32(X0, X5, X7, X8, X8, X3, X5, XC)
    ensures StepHex(Hex32(X0, X5, X7, X8, X8, X3, X5, XC), X7, X3) == Hex32(X7, XE, XA, XB, XC, XA, X7, X9)
    ensures StepHex(Hex32(X7, XE, XA, XB, XC, XA, X7, X9), X7, X5) == Hex32(X4, XD, X3, XD, X6, X4, X1, XA)
    ensures StepHex(Hex32(X4, XD, X3, XD, X6, X4, X1, XA), X6, XC) == Hex32(X5, X7, X7, X4, X8, XE, X8, X1)
  {
    EightShifts(Hex32(X6, XA, XD, XE, XF, X1, X5, X0), X6, X5, Hex32(X0, X5, X7, X8, X8, X3, X5, XC));
    EightShifts(Hex32(X0, X5, X7, X8, X8, X3, X5, XC), X7, X3, Hex32(X7, XE, XA, XB, XC, XA, X7, X9));
    EightShifts(Hex32(X7, XE, XA, XB, XC, XA, X7, X9), X7, X5, Hex32(X4, XD, X3, XD, X6, X4, X1, XA));
    EightShifts(Hex32(X4, XD, X3, XD, X6, X4, X1, XA), X6, XC, Hex32(X5, X7, X7, X4, X8, XE, X8, X1));
  }

  lemma Part6(data: seq<Byte>)
    requires |data| == 33 && data[21] == 0x65 && data[22] == 0x73 && data[23] == 0x75 && data[24] == 0x6C
    ensures Update(Reg(Hex32(X6, XA, XD, XE, XF, X1, X5, X0)), data[21..])
         == Update(Reg(Hex32(X5, X7, X7, X4, X8, XE, X8, X1)), data[25..])
  {
    Steps6();
    Advance(data, 21, Hex32(X6, XA, XD, XE, XF, X1, X5, X0), X6, X5,
            Hex32(X0, X5, X7, X8, X8, X3, X5, XC));
    Advance(data, 22, Hex32(X0, X5, X7, X8, X8, X3, X5, XC), X7, X3,
            Hex32(X7, XE, XA, XB, XC, XA, X7, X9));
    Advance(data, 23, Hex32(X7, XE, XA, XB, XC, XA, X7, X9), X7, X5,
            Hex32(X4, XD, X3, XD, X6, X4, X1, XA));
    Advance(data, 24, Hex32(X4, XD, X3, XD, X6, X4, X1, XA), X6, XC,
            Hex32(X5, X7, X7, X4, X8, XE, X8, X1));
  }

  lemma Steps7()
    ensures StepHex(Hex32(X5, X7, X7, X4, X8, XE, X8, X1), X7, X4) == Hex32(XC, X6, XC, X8, X0, XF, XE, X7)
    ensures StepHex(Hex32(XC, X6, XC, X8, X0, XF, XE, X7), X2, X2) == Hex32(XF, X6, XB, XA, XF, XA, XD, X7)
    ensures StepHex(Hex32(XF, X6, XB, XA, XF, XA, XD, X7), X3, XA) == Hex32(X5, XC, XE, XE, X5, XE, X3, X3)
    ensures StepHex(Hex32(X5, XC, XE, XE, X5, XE, X3, X3), X6, XE) == Hex32(XE, XE, X5, X1, X7, X8, X5, XE)
  {
    EightShifts(Hex32(X5, X7, X7, X4, X8, XE, X8, X1), X7, X4, Hex32(XC, X6, XC, X8, X0, XF, XE, X7));
    EightShifts(Hex32(XC, X6, XC, X8, X0, XF, XE, X7), X2, X2, Hex32(XF, X6, XB, XA, XF, XA, XD, X7));
    EightShifts(Hex32(XF, X6, XB, XA, XF, XA, XD, X7), X3, XA, Hex32(X5, XC, XE, XE, X5, XE, X3, X3));
    EightShifts(Hex32(X5, XC, XE, XE, X5, XE, X3, X3), X6, XE, Hex32(XE, XE, X5, X1, X7, X8, X5, XE));
  }

  lemma Part7(data: seq<Byte>)
    requires |data| == 33 && data[25] == 0x74 && data[26] == 0x22 && data[27] == 0x3A && data[28] == 0x6E
    ensures Update(Reg(Hex32(X5, X7, X7, X4, X8, XE, X8, X1)), data[25..])
         == Update(Reg(Hex32(XE, XE, X5, X1, X7, X8, X5, XE)), data[29..])
  {
    Steps7();
    Advance(data, 25, Hex32(X5, X7, X7, X4, X8, XE, X8, X1), X7, X4,
            Hex32(XC, X6, XC, X8, X0, XF, XE, X7));
    Advance(data, 26, Hex32(XC, X6, XC, X8, X0, XF, XE, X7), X2, X2,
            Hex32(XF, X6, XB, XA, XF, XA, XD, X7));
    Advance(data, 27, Hex32(XF, X6, XB, XA, XF, XA, XD, X7), X3, XA,
            Hex32(X5, XC, XE, XE, X5, XE, X3, X3));
    Advance(data, 28, Hex32(X5, XC, XE, XE, X5, XE, X3, X3), X6, XE,
            Hex32(XE, XE, X5, X1, X7, X8, X5, XE));
  }

  lemma Steps8()
    ensures StepHex(Hex32(XE, XE, X5, X1, X7, X8, X5, XE), X7, X5) == Hex32(XB, X9, XD, XA, X7, X4, X9, XD)
    ensures StepHex(Hex32(XB, X9, XD, XA, X7, X4, X9, XD), X6, XC) == Hex32(X0, X1, XB, XC, X3, X6, X0, X2)
    ensures StepHex(Hex32(X0, X1, XB, XC, X3, X6, X0, X2), X6, XC) == Hex32(XC, XD, XB, XF, X9, X0, X7, X3)
    ensures StepHex(Hex32(XC, XD, XB, XF, X9, X0, X7, X3), X7, XD) == Hex32(XA, XC, XB, X5, X0, X0, XB, X7)
  {
    EightShifts(Hex32(XE, XE, X5, X1, X7, X8, X5, XE), X7, X5, Hex32(XB, X9, XD, XA, X7, X4, X9, XD));
    EightShifts(Hex32(XB, X9, XD, XA, X7, X4, X9, XD), X6, XC, Hex32(X0, X1, XB, XC, X3, X6, X0, X2));
    EightShifts(Hex32(X0, X1, XB, XC, X3, X6, X0, X2), X6, XC, Hex32(XC, XD, XB, XF, X9, X0, X7, X3));
    EightShifts(Hex32(XC, XD, XB, XF, X9, X0, X7, X3), X7, XD, Hex32(XA, XC, XB, X5, X0, X0, XB, X7));
  }

  lemma Part8(data: seq<Byte>)
    requires |data| == 33 && data[29] == 0x75 && data[30] == 0x6C && data[31] == 0x6C && data[32] == 0x7D
    ensures Update(Reg(Hex32(XE, XE, X5, X1, X7, X8, X5, XE)), data[29..])
         == Update(Reg(Hex32(XA, XC, XB, X5, X0, X0, XB, X7)), data[33..])
  {
    Steps8();
    Advance(data, 29, Hex32(XE, XE, X5, X1, X7, X8, X5, XE), X7, X5,
            Hex32(XB, X9, XD, XA, X7, X4, X9, XD));
    Advance(data, 30, Hex32(XB, X9, XD, XA, X7, X4, X9, XD), X6, XC,
            Hex32(X0, X1, XB, XC, X3, X6, X0, X2));
    Advance(data, 31, Hex32(X0, X1, XB, XC, X3, X6, X0, X2), X6, XC,
            Hex32(XC, XD, XB, XF, X9, X0, X7, X3));
    Advance(data, 32, Hex32(XC, XD, XB, XF, X9, X0, X7, X3), X7, XD,
            Hex32(XA, XC, XB, X5, X0, X0, XB, X7));
  }

  lemma InnerRegister(data: seq<Byte>)
    requires IsInner(data)
    ensures Update(Reg(ONES), data[0..]) == Update(Reg(Hex32(XA, XC, XB, X5, X0, X0, XB, X7)), data[33..])
  {
    Part0(data);
    Part1(data);
    Part2(data);
    Part3(data);
    Part4(data);
    Part5(data);
    Part6(data);
    Part7(data);
    Part8(data);
  }

  lemma InnerNumber()
    ensures Numeral(XorHex(Hex32(XA, XC, XB, X5, X0, X0, XB, X7), ONES)) == 1397423944
  {
  }

  lemma InnerChecksum(data: seq<Byte>)
    requires IsInner(data)
    ensures Checksum(data) == 1397423944
  {
    InnerRegister(data);
    InnerNumber();
    ChecksumIs(data, Hex32(XA, XC, XB, X5, X0, X0, XB, X7));
  }

  lemma FirstDigits()
    ensures Digits(13974) == "13974"
  {
    DigitsLaw(1);
    DigitsLaw(13);
    DigitsLaw(3);
    DigitsLaw(139);
    DigitsLaw(9);
    DigitsLaw(1397);
    DigitsLaw(7);
    DigitsLaw(13974);
    DigitsLaw(4);
  }

  lemma ChecksumDigits()
    ensures Digits(1397423944) == "1397423944"
  {
    FirstDigits();
    DigitsLaw(139742);
    DigitsLaw(2);
    DigitsLaw(1397423);
    DigitsLaw(3);
    DigitsLaw(13974239);
    DigitsLaw(9);
    DigitsLaw(139742394);
    DigitsLaw(4);
    DigitsLaw(1397423944);
    DigitsLaw(4);
  }

  // ---- its base64 text, nine bytes at a time ----

  /** Three bytes more. */
  lemma Group(data: seq<Byte>, k: nat, x: Byte, y: Byte, z: Byte, a: Base64.Sextet, b: Base64.Sextet,
              c: Base64.Sextet, d: Base64.Sextet, code: string)
    requires k + 3 <= |data| && data[k] == x && data[k + 1] == y && data[k + 2] == z
    requires Base64.D0(x) == a && Base64.D1(x, y) == b && Base64.D2(y, z) == c && Base64.D3(z) == d
    requires code == [Base64.DigitChar(a), Base64.DigitChar(b), Base64.DigitChar(c), Base64.DigitChar(d)]
    ensures Base64.Encode(data[k..]) == code + Base64.Encode(data[k + 3..])
  {
    Base64.EncodeThree(x, y, z, data[k + 3..], a, b, c, d);
    assert data[k..] == [x, y, z] + data[k + 3..];
  }

  lemma Code0(data: seq<Byte>)
    requires IsInner(data)
    ensures Base64.Encode(data[0..]) == "eyJpc1Rlcm1p" + Base64.Encode(data[9..])
  {
    Group(data, 0, 123, 34, 105, 30, 50, 9, 41, "eyJp");
    Group(data, 3, 115, 84, 101, 28, 53, 17, 37, "c1Rl");
    Group(data, 6, 114, 109, 105, 28, 38, 53, 41, "cm1p");
  }

  lemma Code1(data: seq<Byte>)
    requires IsInner(data)
    ensures Base64.Encode(data[9..]) == "bmFsIjp0cnVl" + Base64.Encode(data[18..])
  {
    Group(data, 9, 110, 97, 108, 27, 38, 5, 44, "bmFs");
    Group(data, 12, 34, 58, 116, 8, 35, 41, 52, "Ijp0");
    Group(data, 15, 114, 117, 101, 28, 39, 21, 37, "cnVl");
  }

  lemma Code2(data: seq<Byte>)
    requires IsInner(data)
    ensures Base64.Encode(data[18..]) == "LCJyZXN1bHQi" + Base64.Encode(data[27..])
  {
    Group(data, 18, 44, 34, 114, 11, 2, 9, 50, "LCJy");
    Group(data, 21, 101, 115, 117, 25, 23, 13, 53, "ZXN1");
    Group(data, 24, 108, 116, 34, 27, 7, 16, 34, "bHQi");
  }

  lemma Code3(data: seq<Byte>)
    requires IsInner(data)
    ensures Base64.Encode(data[27..]) == "Om51bGx9" + Base64.Encode(data[33..])
  {
    Group(data, 27, 58, 110, 117, 14, 38, 57, 53, "Om51");
    Group(data, 30, 108, 108, 125, 27, 6, 49, 61, "bGx9");
  }

  lemma InnerCode(data: seq<Byte>)
    requires IsInner(data)
    ensures Base64.Encode(data) == CODE
  {
    Code0(data);
    Code1(data);
    Code2(data);
    Code3(data);
    assert data[0..] == data && data[33..] == [];
  }

  // ---- the whole ----

  lemma InnerIs()
    ensures InnerText(None) == INNER
  {
  }

  /** A nil payload, byte by byte. */
  lemma NilWire()
    ensures Spells(Wire(None),
              "{\"appChecksum\":" + ("1397423944" + (",\"payload\":" + (("\"" + CODE + "\"")
              + (",\"seqNo\":" + ("0" + (",\"type\":" + ("3" + "}"))))))))
  {
    var inner := WireText(None);
    InnerIs();
    SpelledInner(inner);
    InnerChecksum(inner);
    InnerCode(inner);
    ChecksumDigits();
  }
}
