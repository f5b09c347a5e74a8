/** What the logical functions of SHA-256 compute, bit by bit. */
module Sha256Bits {
  import opened Sha256

  // ----- the logical functions, section 4.1.2 of FIPS 180-4 -----

  /** Bit `i` of a word, counted from the least significant; positions are modulo 32. */
  function Bit(x: bv32, i: bv5): bool { (x >> i) & 1 == 1 }

  function OneBit(b: bool): nat { if b then 1 else 0 }

  /** At least two of the three. */
  lemma MajorityBit(x: bv32, y: bv32, z: bv32, i: bv5)
    ensures Bit(Majority(x, y, z), i) <==> OneBit(Bit(x, i)) + OneBit(Bit(y, i)) + OneBit(Bit(z, i)) >= 2
  {
    MajorityBits(x, y, z, i);
    hide Bit, Majority;
  }

  lemma MajorityBits(x: bv32, y: bv32, z: bv32, i: bv5)
    ensures Bit(Majority(x, y, z), i) == if Bit(x, i) then Bit(y, i) || Bit(z, i) else Bit(y, i) && Bit(z, i)
  {
    TwoOfThree(Majority(x, y, z), x, y, z, i);
    hide Bit, Majority;
  }

  lemma TwoOfThree(m: bv32, x: bv32, y: bv32, z: bv32, i: bv5)
    requires m == (x & y) ^ (x & z) ^ (y & z)
    ensures Bit(m, i) == if Bit(x, i) then Bit(y, i) || Bit(z, i) else Bit(y, i) && Bit(z, i)
  {
  }

  /** The first chooses between the other two. */
  lemma ChooseBit(x: bv32, y: bv32, z: bv32, i: bv5)
    ensures Bit(Choose(x, y, z), i) == if Bit(x, i) then Bit(y, i) else Bit(z, i)
  {
    OneOfTwo(Choose(x, y, z), x, y, z, i);
    hide Bit, Choose;
  }

  lemma OneOfTwo(c: bv32, x: bv32, y: bv32, z: bv32, i: bv5)
    requires c == (x & y) ^ (!x & z)
    ensures Bit(c, i) == if Bit(x, i) then Bit(y, i) else Bit(z, i)
  {
  }

  /** An odd number of the three. */
  predicate Odd(p: bool, q: bool, r: bool) { (OneBit(p) + OneBit(q) + OneBit(r)) % 2 == 1 }

  lemma SumBit(s: bv32, u: bv32, v: bv32, w: bv32, i: bv5)
    requires s == u ^ v ^ w
    ensures Bit(s, i) == Odd(Bit(u, i), Bit(v, i), Bit(w, i))
  {
    SumBits(u, v, w, i);
    hide Bit;
  }

  lemma SumBits(u: bv32, v: bv32, w: bv32, i: bv5)
    ensures Bit(u ^ v ^ w, i) == ((Bit(u, i) != Bit(v, i)) != Bit(w, i))
  {
  }

  lemma Turned2(x: bv32, i: bv5)
    ensures Bit(RotRight(x, 2), i) == Bit(x, i + 2)
  {
  }

  lemma Turned6(x: bv32, i: bv5)
    ensures Bit(RotRight(x, 6), i) == Bit(x, i + 6)
  {
  }

  lemma Turned7(x: bv32, i: bv5)
    ensures Bit(RotRight(x, 7), i) == Bit(x, i + 7)
  {
  }

  lemma Turned11(x: bv32, i: bv5)
    ensures Bit(RotRight(x, 11), i) == Bit(x, i + 11)
  {
  }

  lemma Turned13(x: bv32, i: bv5)
    ensures Bit(RotRight(x, 13), i) == Bit(x, i + 13)
  {
  }

  lemma Turned17(x: bv32, i: bv5)
    ensures Bit(RotRight(x, 17), i) == Bit(x, i + 17)
  {
  }

  lemma Turned18(x: bv32, i: bv5)
    ensures Bit(RotRight(x, 18), i) == Bit(x, i + 18)
  {
  }

  lemma Turned19(x: bv32, i: bv5)
    ensures Bit(RotRight(x, 19), i) == Bit(x, i + 19)
  {
  }

  lemma Turned22(x: bv32, i: bv5)
    ensures Bit(RotRight(x, 22), i) == Bit(x, i + 22)
  {
  }

  lemma Turned25(x: bv32, i: bv5)
    ensures Bit(RotRight(x, 25), i) == Bit(x, i + 25)
  {
  }

  lemma Shifted3(x: bv32, i: bv5)
    ensures Bit(ShiftRight(x, 3), i) == (i < 29 && Bit(x, i + 3))
  {
  }

  lemma Shifted10(x: bv32, i: bv5)
    ensures Bit(ShiftRight(x, 10), i) == (i < 22 && Bit(x, i + 10))
  {
  }

  lemma BigSigma0Bit(x: bv32, i: bv5)
    ensures Bit(BigSigma0(x), i) <==> Odd(Bit(x, i + 2), Bit(x, i + 13), Bit(x, i + 22))
  {
    hide Bit, RotRight, ShiftRight, Odd;
    var u, v, w := RotRight(x, 2), RotRight(x, 13), RotRight(x, 22);
    Turned2(x, i);
    Turned13(x, i);
    Turned22(x, i);
    SumBit(BigSigma0(x), u, v, w, i);
  }

  lemma BigSigma1Bit(x: bv32, i: bv5)
    ensures Bit(BigSigma1(x), i) <==> Odd(Bit(x, i + 6), Bit(x, i + 11), Bit(x, i + 25))
  {
    hide Bit, RotRight, ShiftRight, Odd;
    var u, v, w := RotRight(x, 6), RotRight(x, 11), RotRight(x, 25);
    Turned6(x, i);
    Turned11(x, i);
    Turned25(x, i);
    SumBit(BigSigma1(x), u, v, w, i);
  }

  // The third term is a shift: nothing comes in at the top.
  lemma SmallSigma0Bit(x: bv32, i: bv5)
    ensures Bit(SmallSigma0(x), i) <==> Odd(Bit(x, i + 7), Bit(x, i + 18), i < 29 && Bit(x, i + 3))
  {
    hide Bit, RotRight, ShiftRight, Odd;
    var u, v, w := RotRight(x, 7), RotRight(x, 18), ShiftRight(x, 3);
    Turned7(x, i);
    Turned18(x, i);
    Shifted3(x, i);
    SumBit(SmallSigma0(x), u, v, w, i);
  }

  // The third term is a shift: nothing comes in at the top.
  lemma SmallSigma1Bit(x: bv32, i: bv5)
    ensures Bit(SmallSigma1(x), i) <==> Odd(Bit(x, i + 17), Bit(x, i + 19), i < 22 && Bit(x, i + 10))
  {
    hide Bit, RotRight, ShiftRight, Odd;
    var u, v, w := RotRight(x, 17), RotRight(x, 19), ShiftRight(x, 10);
    Turned17(x, i);
    Turned19(x, i);
    Shifted10(x, i);
    SumBit(SmallSigma1(x), u, v, w, i);
  }

  // ----- the rounds, section 6.2.2 -----

  /** Six of the eight working variables are the other two of one, two and three steps before. */
  lemma ShiftRegister(s: Words, block: seq<bv8>, t: nat)
    requires |block| == 64 && 3 <= t <= 64
    ensures var x := After(s, block, t);
            && x.b == After(s, block, t - 1).a && x.c == After(s, block, t - 2).a && x.d == After(s, block, t - 3).a
            && x.f == After(s, block, t - 1).e && x.g == After(s, block, t - 2).e && x.h == After(s, block, t - 3).e
  {
    hide After, FirstTemp, SecondTemp, Plus, Constant, ScheduleWord;
    AfterStep(s, block, t - 1);
    AfterStep(s, block, t - 2);
    AfterStep(s, block, t - 3);
  }
}
