/**
 * The CRC on the program's 32-bit registers.
 *
 * Here a register is a machine word and its operations are the machine's:
 * exclusive or and a logical shift by one. They do to the numbers of the
 * CRC's definition what that definition says. So the register can be followed
 * shift by shift on words, and the published check value of this CRC comes
 * out at the end.
 *
 * The operations have names of their own, so that proofs about numbers need
 * not look into words.
 */
module CrcWords {
  import opened Types
  import opened Crc

  predicate Odd(w: bv32) {
    w & 1 == 1
  }

  function Half(w: bv32): bv32 {
    w >> 1
  }

  function Sum(w: bv32, v: bv32): bv32 {
    w ^ v
  }

  /** The number a 32-bit register holds. */
  function Number(w: bv32): nat
    decreases w
  {
    if w == 0 then 0 else 2 * Number(Half(w)) + if Odd(w) then 1 else 0
  }

  lemma NumberHalf(w: bv32)
    ensures Number(w) == 2 * Number(Half(w)) + if Odd(w) then 1 else 0
  {
  }

  lemma HalfOfSum(w: bv32, v: bv32)
    ensures Half(Sum(w, v)) == Sum(Half(w), Half(v))
  {
  }

  lemma OddSum(w: bv32, v: bv32)
    ensures Odd(Sum(w, v)) <==> Odd(w) != Odd(v)
  {
  }

  lemma HalfIsLess(w: bv32)
    ensures w != 0 ==> Half(w) < w
  {
  }

  lemma XorDoubles(a: nat, b: nat, p: bool, q: bool)
    ensures Xor(2 * a + (if p then 1 else 0), 2 * b + (if q then 1 else 0))
         == 2 * Xor(a, b) + if p == q then 0 else 1
  {
    XorHalf(2 * a + (if p then 1 else 0), 2 * b + (if q then 1 else 0));
    hide Xor;
  }

  lemma NumberZero(v: bv32)
    ensures Number(0) == 0 && Sum(0, v) == v
  {
  }

  /** Exclusive or of numbers is that of machine words. */
  lemma {:induction false} XorOfWords(w: bv32, v: bv32)
    ensures Xor(Number(w), Number(v)) == Number(Sum(w, v))
    decreases w, v
  {
    hide Number, Xor, Odd, Half, Sum;
    if w == 0 {
      NumberZero(v);
      XorZero(Number(v));
    } else {
      NumberHalf(w);
      NumberHalf(v);
      NumberHalf(Sum(w, v));
      HalfOfSum(w, v);
      OddSum(w, v);
      HalfIsLess(w);
      XorDoubles(Number(Half(w)), Number(Half(v)), Odd(w), Odd(v));
      XorOfWords(Half(w), Half(v));
    }
  }

  /** The last hexadecimal digit of a register. */
  lemma LastDigit(w: bv32)
    ensures var a := Half(w); var b := Half(a); var c := Half(b);
            Number(w) == 16 * Number(Half(c))
                         + (if Odd(w) then 1 else 0) + (if Odd(a) then 2 else 0)
                         + (if Odd(b) then 4 else 0) + (if Odd(c) then 8 else 0)
  {
    hide Number, Odd, Half;
    NumberHalf(w);
    NumberHalf(Half(w));
    NumberHalf(Half(Half(w)));
    NumberHalf(Half(Half(Half(w))));
  }

  /** The polynomial, the start value and the check value as words. */
  lemma Constants()
    ensures Number(0xEDB8_8320) == POLY && Number(0xFFFF_FFFF) == ONES && Number(0xCBF4_3926) == 0xCBF4_3926
  {
    NumberZero(0);
    hide Number;
    LastDigit(0xEDB8_8320);
    LastDigit(0xEDB_8832);
    LastDigit(0xED_B883);
    LastDigit(0xE_DB88);
    LastDigit(0xEDB8);
    LastDigit(0xEDB);
    LastDigit(0xED);
    LastDigit(0xE);
    LastDigit(0xFFFF_FFFF);
    LastDigit(0xFFF_FFFF);
    LastDigit(0xFF_FFFF);
    LastDigit(0xF_FFFF);
    LastDigit(0xFFFF);
    LastDigit(0xFFF);
    LastDigit(0xFF);
    LastDigit(0xF);
    LastDigit(0xCBF4_3926);
    LastDigit(0xCBF_4392);
    LastDigit(0xCB_F439);
    LastDigit(0xC_BF43);
    LastDigit(0xCBF4);
    LastDigit(0xCBF);
    LastDigit(0xCB);
    LastDigit(0xC);
  }

  /** One shift of the program's register. */
  function Shift(w: bv32): bv32 {
    if Odd(w) then Sum(0xEDB8_8320, Half(w)) else Half(w)
  }

  lemma ShiftIsStep(w: bv32)
    ensures Step(Number(w)) == Number(Shift(w))
  {
    hide Number, Xor, Odd, Half, Sum;
    NumberHalf(w);
    Constants();
    XorOfWords(0xEDB8_8320, Half(w));
  }

  function Shifts(w: bv32, k: nat): bv32 {
    if k == 0 then w else Shift(Shifts(w, k - 1))
  }

  lemma {:induction false} ShiftsAreSteps(w: bv32, k: nat)
    ensures Steps(Number(w), k) == Number(Shifts(w, k))
  {
    hide Number, Shift, Step;
    if k > 0 {
      ShiftsAreSteps(w, k - 1);
      ShiftIsStep(Shifts(w, k - 1));
    }
  }

  /** The register after one byte more. */
  function Taken(w: bv32, b: bv32): bv32 {
    Shift(Shift(Shift(Shift(Shift(Shift(Shift(Shift(Sum(w, b)))))))))
  }

  lemma TakenIsShifts(w: bv32, b: bv32)
    ensures Taken(w, b) == Shifts(Sum(w, b), 8)
  {
    hide Shift, Sum, Shifts;
    var x := Sum(w, b);
    ShiftsNext(x, 0);
    ShiftsNext(x, 1);
    ShiftsNext(x, 2);
    ShiftsNext(x, 3);
    ShiftsNext(x, 4);
    ShiftsNext(x, 5);
    ShiftsNext(x, 6);
    ShiftsNext(x, 7);
  }

  lemma ShiftsNext(w: bv32, k: nat)
    ensures Shifts(w, 0) == w && Shifts(w, k + 1) == Shift(Shifts(w, k))
  {
  }

  lemma TakesByte(s: seq<byte>, n: nat, w: bv32, v: bv32)
    requires n < |s| && Feed(ONES, s[..n]) == Number(w) && Number(v) == s[n]
    ensures Feed(ONES, s[..n + 1]) == Number(Taken(w, v))
  {
    hide Number, Shifts, Xor, Feed, Steps, Sum, Taken;
    XorOfWords(w, v);
    TakenIsShifts(w, v);
    ShiftsAreSteps(Sum(w, v), 8);
    FeedLast(ONES, s[..n + 1], s[..n], s[n]);
  }

  /** The registers that the digits 1 to 9 lead through. */
  lemma DigitsTaken()
    ensures Taken(0xFFFF_FFFF, 0x31) == 0x7C23_1048
    ensures Taken(0x7C23_1048, 0x32) == 0xB0AC_BB32
    ensures Taken(0xB0AC_BB32, 0x33) == 0x77B7_9C2D
    ensures Taken(0x77B7_9C2D, 0x34) == 0x641C_1F5C
    ensures Taken(0x641C_1F5C, 0x35) == 0x340A_C5E3
    ensures Taken(0x340A_C5E3, 0x36) == 0xF68D_2C9E
    ensures Taken(0xF68D_2C9E, 0x37) == 0xAFFC_9660
    ensures Taken(0xAFFC_9660, 0x38) == 0x651F_2550
    ensures Taken(0x651F_2550, 0x39) == 0x340B_C6D9
  {
  }

  lemma DigitBytes()
    ensures Number(0x31) == 0x31 && Number(0x32) == 0x32 && Number(0x33) == 0x33 && Number(0x34) == 0x34
    ensures Number(0x35) == 0x35 && Number(0x36) == 0x36 && Number(0x37) == 0x37
    ensures Number(0x38) == 0x38 && Number(0x39) == 0x39
  {
    NumberZero(0);
    hide Number;
    LastDigit(0x3);
    LastDigit(0x31);
    LastDigit(0x32);
    LastDigit(0x33);
    LastDigit(0x34);
    LastDigit(0x35);
    LastDigit(0x36);
    LastDigit(0x37);
    LastDigit(0x38);
    LastDigit(0x39);
  }

  /** The published check value of this CRC: that of the digits 1 to 9 as text. */
  lemma CheckValue()
    ensures Crc32([0x31, 0x32, 0x33, 0x34, 0x35, 0x36, 0x37, 0x38, 0x39]) == 0xCBF4_3926
  {
    hide Number, Taken, Xor, Feed, Sum;
    Constants();
    DigitBytes();
    DigitsTaken();
    var s: seq<byte> := [0x31, 0x32, 0x33, 0x34, 0x35, 0x36, 0x37, 0x38, 0x39];
    FeedNone();
    assert s[..0] == [];
    TakesByte(s, 0, 0xFFFF_FFFF, 0x31);
    TakesByte(s, 1, 0x7C23_1048, 0x32);
    TakesByte(s, 2, 0xB0AC_BB32, 0x33);
    TakesByte(s, 3, 0x77B7_9C2D, 0x34);
    TakesByte(s, 4, 0x641C_1F5C, 0x35);
    TakesByte(s, 5, 0x340A_C5E3, 0x36);
    TakesByte(s, 6, 0xF68D_2C9E, 0x37);
    TakesByte(s, 7, 0xAFFC_9660, 0x38);
    TakesByte(s, 8, 0x651F_2550, 0x39);
    assert s[..9] == s;
    Crc32Value(s);
    XorOfWords(0x340B_C6D9, 0xFFFF_FFFF);
    Complement();
  }

  lemma FeedNone()
    ensures Feed(ONES, []) == ONES
  {
  }

  lemma Complement()
    ensures Sum(0x340B_C6D9, 0xFFFF_FFFF) == 0xCBF4_3926
  {
  }
}
