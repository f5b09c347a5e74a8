/** The cipher and its key expansion byte by byte, in the terms of FIPS 197. */
module AesLaws {
  import opened Bytes
  import opened AesTables
  import opened Aes

  // ----- the cipher, section 5.1 -----

  /** The byte that the shift of rows brings to row `r`, column `c`, substituted. */
  function Moved(s: Block, r: nat, c: nat): (b: bv8)
    requires r < 4 && c < 4
  {
    Sbox(s[4 * r + (c + r) % 4])
  }

  /** The first key: block bytes run down the columns. */
  lemma FirstCell(b: Block, w: seq<bv32>, r: nat, c: nat)
    requires 4 <= |w| && r < 4 && c < 4
    ensures AfterRounds(Load(b), w, 0)[4 * r + c] == Xor(b[4 * c + r], KeyByte(w[c], r))
  {
    hide KeyByte, Xor;
    RowColumn(r, c);
    LoadCell(b, r, c);
    hide Load;
  }

  lemma LoadCell(b: Block, r: nat, c: nat)
    requires r < 4 && c < 4
    ensures Load(b)[4 * r + c] == b[4 * c + r]
  {
    assert r == 0 || r == 1 || r == 2 || r == 3;
    assert c == 0 || c == 1 || c == 2 || c == 3;
  }

  lemma RowColumn(r: nat, c: nat)
    requires r < 4 && c < 4
    ensures (4 * r + c) % 4 == c && (4 * r + c) / 4 == r && 4 * r + c < 16
  {
  }

  lemma ShiftCell(s: Block, r: nat, c: nat)
    requires r < 4 && c < 4
    ensures Shifted(Subbed(s))[4 * r + c] == Moved(s, r, c)
  {
    hide Sbox;
    assert r == 0 || r == 1 || r == 2 || r == 3;
    assert c == 0 || c == 1 || c == 2 || c == 3;
  }

  /** Each round: substitute, shift row `r` by `r`, mix the column, add the round key. */
  lemma RoundCell(s: Block, w: seq<bv32>, n: nat, r: nat, c: nat)
    requires 4 * n + 4 <= |w| && r < 4 && c < 4
    ensures FullRound(s, w, n)[4 * r + c] ==
            Xor(MixByte(Moved(s, r, c), Moved(s, (r + 1) % 4, c), Moved(s, (r + 2) % 4, c), Moved(s, (r + 3) % 4, c)), KeyByte(w[4 * n + c], r))
  {
    hide Sbox, MixByte, Xor, KeyByte, Subbed, Shifted, Moved;
    RowColumn(r, c);
    ShiftCell(s, r, c);
    ShiftCell(s, (r + 1) % 4, c);
    ShiftCell(s, (r + 2) % 4, c);
    ShiftCell(s, (r + 3) % 4, c);
    MixedCell(Shifted(Subbed(s)), r, c);
  }

  lemma MixedCell(s: Block, r: nat, c: nat)
    requires r < 4 && c < 4
    ensures var r1, r2, r3 := (r + 1) % 4, (r + 2) % 4, (r + 3) % 4;
            Mixed(s)[4 * r + c] == MixByte(s[4 * r + c], s[4 * r1 + c], s[4 * r2 + c], s[4 * r3 + c])
  {
    hide MixByte;
  }

  /** The last round leaves out the mixing. */
  lemma LastCell(b: Block, w: seq<bv32>, n: nat, r: nat, c: nat)
    requires 1 <= n && 4 * n + 4 <= |w| && r < 4 && c < 4
    ensures Encrypt(b, w, n)[4 * c + r] == Xor(Moved(AfterRounds(Load(b), w, n - 1), r, c), KeyByte(w[4 * n + c], r))
  {
    hide Sbox, Xor, KeyByte, Subbed, Shifted, Moved, AfterRounds, Keyed, Load;
    var t := AfterRounds(Load(b), w, n - 1);
    ShiftCell(t, r, c);
    RowColumn(r, c);
    KeyedCell(Shifted(Subbed(t)), w, n, r, c);
    LoadCell(Keyed(Shifted(Subbed(t)), w, 4 * n), c, r);
  }

  lemma KeyedCell(s: Block, w: seq<bv32>, n: nat, r: nat, c: nat)
    requires 4 * n + 4 <= |w| && r < 4 && c < 4
    ensures 4 * r + c < 16 && Keyed(s, w, 4 * n)[4 * r + c] == Xor(s[4 * r + c], KeyByte(w[4 * n + c], r))
  {
    hide Xor, KeyByte;
    RowColumn(r, c);
  }

  /** Ten, twelve or fourteen rounds. */
  lemma RoundsAre()
    ensures Rounds(128) == 10 && Rounds(192) == 12 && Rounds(256) == 14
  {
  }

  // ----- the key expansion, section 5.2 -----

  /** x to the power `j`, modulo the polynomial of the field. */
  function PowerOfX(j: nat): (b: bv8) { if j == 0 then 1 else Xtime(PowerOfX(j - 1)) }

  lemma {:induction false} RconIsPower(j: nat)
    requires j < |RCON|
    ensures KeyByte(RCON[j], 0) == PowerOfX(j) && KeyByte(RCON[j], 1) == KeyByte(RCON[j], 2) == KeyByte(RCON[j], 3) == 0
  {
    hide Xtime, KeyByte, RCON;
    RconLow(j);
    if j == 0 {
      RconFirst();
    } else {
      RconIsPower(j - 1);
      RconDoubles(j - 1);
    }
  }

  lemma RconFirst()
    ensures |RCON| > 0 && KeyByte(RCON[0], 0) == 1
  {
  }

  lemma RconLow(j: nat)
    requires j < |RCON|
    ensures KeyByte(RCON[j], 1) == KeyByte(RCON[j], 2) == KeyByte(RCON[j], 3) == 0
  {
  }

  lemma XorByte0(x: bv32, y: bv32)
    ensures (((x ^ y) >> 24) & 0xFF) as bv8 == (((x >> 24) & 0xFF) as bv8) ^ (((y >> 24) & 0xFF) as bv8)
  {
  }

  lemma XorByte1(x: bv32, y: bv32)
    ensures (((x ^ y) >> 16) & 0xFF) as bv8 == (((x >> 16) & 0xFF) as bv8) ^ (((y >> 16) & 0xFF) as bv8)
  {
  }

  lemma XorByte2(x: bv32, y: bv32)
    ensures (((x ^ y) >> 8) & 0xFF) as bv8 == (((x >> 8) & 0xFF) as bv8) ^ (((y >> 8) & 0xFF) as bv8)
  {
  }

  lemma XorByte3(x: bv32, y: bv32)
    ensures ((x ^ y) & 0xFF) as bv8 == ((x & 0xFF) as bv8) ^ ((y & 0xFF) as bv8)
  {
  }

  lemma XorBytes(z: bv32, x: bv32, y: bv32, r: nat)
    requires r < 4 && z == x ^ y
    ensures KeyByte(z, r) == Xor(KeyByte(x, r), KeyByte(y, r))
  {
    match r
    case 0 => XorByte0(x, y);
    case 1 => XorByte1(x, y);
    case 2 => XorByte2(x, y);
    case _ => XorByte3(x, y);
  }

  /** At every `nk`-th word the word before is turned by a byte and substituted, and a power of x is added. */
  lemma TurnedByte(before: bv32, nk: nat, j: nat, r: nat)
    requires nk in {4, 6, 8} && nk * (j + 1) < 60 && r < 4
    ensures nk * (j + 1) >= nk
    ensures KeyByte(Stirred(before, nk, nk * (j + 1)), r) == Xor(Sbox(KeyByte(before, (r + 1) % 4)), if r == 0 then PowerOfX(j) else 0)
  {
    hide Sbox, KeyByte, SubWord, RotWord, Xor, PowerOfX, RCON;
    WordsBefore(nk, j);
    var x := SubWord(RotWord(before));
    StirredTurn(before, nk, j);
    XorBytes(Stirred(before, nk, nk * (j + 1)), x, RCON[j], r);
    SubWordIsBytewise(RotWord(before), r);
    RotWordTurns(before, r);
    RconIsPower(j);
  }

  lemma StirredTurn(before: bv32, nk: nat, j: nat)
    requires nk in {4, 6, 8} && nk <= nk * (j + 1) < 60
    ensures j < |RCON| && Stirred(before, nk, nk * (j + 1)) == SubWord(RotWord(before)) ^ RCON[j]
  {
    hide SubWord, RotWord;
    WordsBefore(nk, j);
  }

  lemma WordsBefore(nk: nat, j: nat)
    requires nk in {4, 6, 8} && nk * (j + 1) < 60
    ensures nk * (j + 1) >= nk && nk * (j + 1) % nk == 0 && (nk * (j + 1) - 1) / nk == j < 15
  {
    assert nk == 4 || nk == 6 || nk == 8;
  }

  /** For 256-bit keys it is also substituted half way between, and elsewhere taken over as it is. */
  lemma KeptByte(before: bv32, nk: nat, i: nat, r: nat)
    requires nk in {4, 6, 8} && nk <= i < 60 && i % nk != 0 && r < 4
    ensures KeyByte(Stirred(before, nk, i), r) == if nk == 8 && i % 8 == 4 then Sbox(KeyByte(before, r)) else KeyByte(before, r)
  {
    hide Sbox, KeyByte, SubWord;
    if nk == 8 && i % 8 == 4 {
      SubWordIsBytewise(before, r);
    }
  }

  /** And so each byte of the expanded key: the key itself first, then the sum with the word `nk` before. */
  lemma ExpandedByte(key: seq<bv8>, nk: nat, i: nat, r: nat)
    requires nk in {4, 6, 8} && 4 * nk <= |key| && i < 60 && r < 4
    ensures i < nk ==> KeyByte(ScheduleWord(key, nk, i), r) == key[4 * i + r]
    ensures i >= nk ==> KeyByte(ScheduleWord(key, nk, i), r) ==
                        Xor(KeyByte(ScheduleWord(key, nk, i - nk), r), KeyByte(Stirred(ScheduleWord(key, nk, i - 1), nk, i), r))
  {
    hide KeyByte, Xor, Stirred, ScheduleWord, PackWord;
    ScheduleStep(key, nk, i);
    if i < nk {
      PackedBytes(key[4 * i], key[4 * i + 1], key[4 * i + 2], key[4 * i + 3]);
    } else {
      XorBytes(ScheduleWord(key, nk, i), ScheduleWord(key, nk, i - nk), Stirred(ScheduleWord(key, nk, i - 1), nk, i), r);
    }
  }
}
