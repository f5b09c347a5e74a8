/**
  * The AES block cipher over a 4 x 4 byte state (row r, column c at index
  * 4 * r + c, the layout of `BYTE state[4][4]`). Every round operation works
  * on the state array in place and is tied to a function of its old contents;
  * decryption undoes encryption for every round-key array.
  */
module Aes {
  import opened Bytes
  import opened AesTables

  type Block = s: seq<bv8> | |s| == 16 witness [0, 0, 0, 0, 0, 0, 0, 0, 0, 0, 0, 0, 0, 0, 0, 0]

  // ----- The round operations as functions of the state -----

  function Subbed(s: Block): (r: Block)
  {
    seq(16, i requires 0 <= i < 16 => Sbox(s[i]))
  }

  function Unsubbed(s: Block): (r: Block)
  {
    seq(16, i requires 0 <= i < 16 => InvSbox(s[i]))
  }

  // Where `ShiftRows` takes the byte of cell i from, and `InvShiftRows`.
  function ShiftFrom(i: nat): (j: nat)
    requires i < 16
    ensures j < 16
  {
    if i < 4 then i
    else if i < 8 then (if i == 7 then 4 else i + 1)
    else if i < 12 then (if i < 10 then i + 2 else i - 2)
    else (if i == 12 then 15 else i - 1)
  }

  function UnshiftFrom(i: nat): (j: nat)
    requires i < 16
    ensures j < 16
  {
    if i < 4 then i
    else if i < 8 then (if i == 4 then 7 else i - 1)
    else if i < 12 then (if i < 10 then i + 2 else i - 2)
    else (if i == 15 then 12 else i + 1)
  }

  function Shifted(s: Block): (r: Block)
  {
    seq(16, i requires 0 <= i < 16 => s[ShiftFrom(i)])
  }

  function Unshifted(s: Block): (r: Block)
  {
    seq(16, i requires 0 <= i < 16 => s[UnshiftFrom(i)])
  }

  // One byte of a mixed column, read from its own row downwards.
  function MixByte(a: bv8, b: bv8, c: bv8, d: bv8): (r: bv8)
  {
    Xor(Xor(Xor(Times(2, a), Times(3, b)), c), d)
  }

  function UnmixByte(a: bv8, b: bv8, c: bv8, d: bv8): (r: bv8)
  {
    Xor(Xor(Xor(Times(14, a), Times(11, b)), Times(13, c)), Times(9, d))
  }

  // The cell `k / 4` rows below cell `i`, around the column.
  function Down(i: nat, k: nat): (j: nat)
    requires i < 16 && k < 16
    ensures j < 16
  {
    if i + k < 16 then i + k else i + k - 16
  }

  function MixCell(s: Block, i: nat): (r: bv8)
    requires i < 16
  {
    MixByte(s[i], s[Down(i, 4)], s[Down(i, 8)], s[Down(i, 12)])
  }

  function UnmixCell(s: Block, i: nat): (r: bv8)
    requires i < 16
  {
    UnmixByte(s[i], s[Down(i, 4)], s[Down(i, 8)], s[Down(i, 12)])
  }

  function Mixed(s: Block): (r: Block)
  {
    seq(16, i requires 0 <= i < 16 => MixCell(s, i))
  }

  function Unmixed(s: Block): (r: Block)
  {
    seq(16, i requires 0 <= i < 16 => UnmixCell(s, i))
  }

  // Byte `r` of a round-key word, most significant first.
  function KeyByte(w: bv32, r: nat): (b: bv8)
    requires r < 4
  {
    if r == 0 then ((w >> 24) & 0xFF) as bv8
    else if r == 1 then ((w >> 16) & 0xFF) as bv8
    else if r == 2 then ((w >> 8) & 0xFF) as bv8
    else (w & 0xFF) as bv8
  }

  function KeyCell(x: bv8, w: seq<bv32>, at: nat, i: nat): (r: bv8)
    requires at + 4 <= |w| && i < 16
  {
    Xor(x, KeyByte(w[at + i % 4], i / 4))
  }

  function Keyed(s: Block, w: seq<bv32>, at: nat): (r: Block)
    requires at + 4 <= |w|
  {
    seq(16, i requires 0 <= i < 16 => KeyCell(s[i], w, at, i))
  }

  // Block bytes run down the columns of the state.
  function Load(b: Block): (s: Block)
  {
    [b[0], b[4], b[8], b[12],
     b[1], b[5], b[9], b[13],
     b[2], b[6], b[10], b[14],
     b[3], b[7], b[11], b[15]]
  }

  // ----- Each operation has an inverse -----

  lemma UnsubUndoes(s: Block)
    ensures Unsubbed(Subbed(s)) == s
  {
    hide Sbox, InvSbox;
    forall i | 0 <= i < 16
      ensures Unsubbed(Subbed(s))[i] == s[i]
    {
      InvSboxUndoes(s[i]);
    }
  }

  // Row r is rotated left by r, and back.
  lemma ShiftRotates(s: Block, r: nat, c: nat)
    requires r < 4 && c < 4
    ensures Shifted(s)[4 * r + c] == s[4 * r + (c + r) % 4]
    ensures Unshifted(s)[4 * r + (c + r) % 4] == s[4 * r + c]
  {
    assert r == 0 || r == 1 || r == 2 || r == 3;
    assert c == 0 || c == 1 || c == 2 || c == 3;
  }

  // Byte i of a block is in row i mod 4 of column i / 4.
  lemma LoadByColumns(b: Block, i: nat)
    requires i < 16
    ensures Load(b)[4 * (i % 4) + i / 4] == b[i]
  {
    LoadByRow(b, i % 4, i / 4);
  }

  lemma LoadByRow(b: Block, r: nat, c: nat)
    requires r < 4 && c < 4
    ensures Load(b)[4 * r + c] == b[4 * c + r]
  {
    assert r == 0 || r == 1 || r == 2 || r == 3;
    assert c == 0 || c == 1 || c == 2 || c == 3;
  }

  lemma UnshiftUndoes(s: Block)
    ensures Unshifted(Shifted(s)) == s
  {
    assert forall i | 0 <= i < 16 :: ShiftFrom(UnshiftFrom(i)) == i;
  }

  lemma LoadTwice(b: Block)
    ensures Load(Load(b)) == b
  {
  }

  lemma KeyedTwice(s: Block, w: seq<bv32>, at: nat)
    requires at + 4 <= |w|
    ensures Keyed(Keyed(s, w, at), w, at) == s
  {
    hide KeyByte, Xor;
    forall i | 0 <= i < 16
      ensures Keyed(Keyed(s, w, at), w, at)[i] == s[i]
    {
      XorTwice(s[i], KeyByte(w[at + i % 4], i / 4));
    }
  }

  lemma XtimesAdd(x: bv8, y: bv8)
    ensures Xtime(Xor(x, y)) == Xor(Xtime(x), Xtime(y))
    ensures Xtime(Xtime(Xor(x, y))) == Xor(Xtime(Xtime(x)), Xtime(Xtime(y)))
    ensures Xtime(Xtime(Xtime(Xor(x, y)))) == Xor(Xtime(Xtime(Xtime(x))), Xtime(Xtime(Xtime(y))))
  {
    hide Xtime, Xor;
    XtimeAdds(x, y);
    XtimeAdds(Xtime(x), Xtime(y));
    XtimeAdds(Xtime(Xtime(x)), Xtime(Xtime(y)));
  }

  lemma XorTriples(a: bv8, b: bv8, c: bv8, d: bv8, e: bv8, f: bv8)
    ensures Xor(Xor(Xor(a, d), Xor(b, e)), Xor(c, f)) == Xor(Xor(Xor(a, b), c), Xor(Xor(d, e), f))
  {
    hide Xor;
    XorPairs(a, d, b, e);
    XorPairs(Xor(a, b), Xor(d, e), c, f);
  }

  // Multiplication by a constant distributes over addition.
  lemma TimesAdds(x: bv8, y: bv8)
    ensures Times(9, Xor(x, y)) == Xor(Times(9, x), Times(9, y))
    ensures Times(11, Xor(x, y)) == Xor(Times(11, x), Times(11, y))
    ensures Times(13, Xor(x, y)) == Xor(Times(13, x), Times(13, y))
    ensures Times(14, Xor(x, y)) == Xor(Times(14, x), Times(14, y))
  {
    hide Times, Xtime, Xor;
    var x1, x2, x3 := Xtime(x), Xtime(Xtime(x)), Xtime(Xtime(Xtime(x)));
    var y1, y2, y3 := Xtime(y), Xtime(Xtime(y)), Xtime(Xtime(Xtime(y)));
    XtimesAdd(x, y);
    Times9(x); Times9(y); Times9(Xor(x, y));
    Times11(x); Times11(y); Times11(Xor(x, y));
    Times13(x); Times13(y); Times13(Xor(x, y));
    Times14(x); Times14(y); Times14(Xor(x, y));
    XorPairs(x3, y3, x, y);
    XorTriples(x3, x1, x, y3, y1, y);
    XorTriples(x3, x2, x, y3, y2, y);
    XorTriples(x3, x2, x1, y3, y2, y1);
  }

  lemma UnmixAdds(a: bv8, b: bv8, c: bv8, d: bv8, e: bv8, f: bv8, g: bv8, h: bv8)
    ensures UnmixByte(Xor(a, e), Xor(b, f), Xor(c, g), Xor(d, h)) == Xor(UnmixByte(a, b, c, d), UnmixByte(e, f, g, h))
  {
    hide Times, Xor;
    TimesAdds(a, e);
    TimesAdds(b, f);
    TimesAdds(c, g);
    TimesAdds(d, h);
    XorTriples(Times(14, a), Times(11, b), Times(13, c), Times(14, e), Times(11, f), Times(13, g));
    XorPairs(Xor(Xor(Times(14, a), Times(11, b)), Times(13, c)), Xor(Xor(Times(14, e), Times(11, f)), Times(13, g)),
             Times(9, d), Times(9, h));
  }

  // What one byte of a column contributes to the mixed column unmixes to
  // that byte in its own row and to nothing in the others.
  lemma UnmixOne0(x: bv8)
    ensures UnmixByte(Times(2, x), x, x, Times(3, x)) == x
  {
    hide Times;
    Times2(x); Times3(x);
    Times14(Xtime(x)); Times11(x); Times13(x); Times9(Times(3, x));
  }

  lemma UnmixOne1(x: bv8)
    ensures UnmixByte(Times(3, x), Times(2, x), x, x) == 0
  {
    hide Times;
    Times2(x); Times3(x);
    Times14(Times(3, x)); Times11(Xtime(x)); Times13(x); Times9(x);
  }

  lemma UnmixOne2(x: bv8)
    ensures UnmixByte(x, Times(3, x), Times(2, x), x) == 0
  {
    hide Times;
    Times2(x); Times3(x);
    Times14(x); Times11(Times(3, x)); Times13(Xtime(x)); Times9(x);
  }

  lemma UnmixOne3(x: bv8)
    ensures UnmixByte(x, x, Times(3, x), Times(2, x)) == 0
  {
    hide Times;
    Times2(x); Times3(x);
    Times14(x); Times11(x); Times13(Times(3, x)); Times9(Xtime(x));
  }

  // A sum of four, started at any of its terms.
  lemma XorTurns(a: bv8, b: bv8, c: bv8, d: bv8)
    ensures Xor(Xor(Xor(b, c), d), a) == Xor(Xor(Xor(a, b), c), d)
  {
    hide Xor;
    XorOrder(Xor(Xor(b, c), d), a);
    XorGroups(a, Xor(b, c), d);
    XorGroups(a, b, c);
  }

  lemma UnmixFirst(a: bv8, b: bv8, c: bv8, d: bv8)
    ensures UnmixByte(MixByte(a, b, c, d), MixByte(b, c, d, a), MixByte(c, d, a, b), MixByte(d, a, b, c)) == a
  {
    hide Times, UnmixByte, Xor;
    var a2, b2, c2, d2 := Times(2, a), Times(2, b), Times(2, c), Times(2, d);
    var a3, b3, c3, d3 := Times(3, a), Times(3, b), Times(3, c), Times(3, d);
    XorTurns(a, b2, c3, d);
    XorTurns(b, c2, d3, a);
    XorTurns(a, b, c2, d3);
    XorTurns(a3, b, c, d2);
    XorTurns(b, c, d2, a3);
    XorTurns(c, d2, a3, b);
    UnmixAdds(a2, a, a, a3, b3, b2, b, b);
    UnmixAdds(Xor(a2, b3), Xor(a, b2), Xor(a, b), Xor(a3, b), c, c3, c2, c);
    UnmixAdds(Xor(Xor(a2, b3), c), Xor(Xor(a, b2), c3), Xor(Xor(a, b), c2), Xor(Xor(a3, b), c), d, d, d3, d2);
    UnmixOne0(a);
    UnmixOne1(b);
    UnmixOne2(c);
    UnmixOne3(d);
    XorZero(a);
  }

  lemma MixedAt(s: Block, i: nat, j: nat, k: nat, l: nat)
    requires i < 16 && j == Down(i, 4) && k == Down(i, 8) && l == Down(i, 12)
    ensures Mixed(s)[i] == MixByte(s[i], s[j], s[k], s[l])
    ensures Unmixed(s)[i] == UnmixByte(s[i], s[j], s[k], s[l])
  {
    hide MixByte, UnmixByte;
  }

  lemma UnmixAt(s: Block, i: nat, j: nat, k: nat, l: nat)
    requires i < 16 && j == Down(i, 4) && k == Down(i, 8) && l == Down(i, 12)
    ensures Unmixed(Mixed(s))[i] == s[i]
  {
    hide MixByte, UnmixByte, Mixed, Unmixed;
    MixedAt(s, i, j, k, l);
    MixedAt(s, j, k, l, i);
    MixedAt(s, k, l, i, j);
    MixedAt(s, l, i, j, k);
    MixedAt(Mixed(s), i, j, k, l);
    UnmixFirst(s[i], s[j], s[k], s[l]);
  }

  lemma UnmixUndoes(s: Block)
    ensures Unmixed(Mixed(s)) == s
  {
    hide Mixed, Unmixed;
    forall i | 0 <= i < 16
      ensures Unmixed(Mixed(s))[i] == s[i]
    {
      UnmixAt(s, i, Down(i, 4), Down(i, 8), Down(i, 12));
    }
  }

  // ----- Rounds -----

  function Rounds(keysize: int): (n: nat)
  {
    if keysize == 128 then 10 else if keysize == 192 then 12 else 14
  }

  function UndoneRounds(keysize: int): (n: nat)
  {
    if keysize > 192 then 14 else if keysize > 128 then 12 else 10
  }

  function FullRound(s: Block, w: seq<bv32>, n: nat): (r: Block)
    requires 4 * n + 4 <= |w|
  {
    Keyed(Mixed(Shifted(Subbed(s))), w, 4 * n)
  }

  function UnfullRound(s: Block, w: seq<bv32>, n: nat): (r: Block)
    requires 4 * n + 4 <= |w|
  {
    Unmixed(Keyed(Unsubbed(Unshifted(s)), w, 4 * n))
  }

  // The state after the first key and `n` full rounds.
  function AfterRounds(s: Block, w: seq<bv32>, n: nat): (r: Block)
    requires 4 * n + 4 <= |w|
  {
    if n == 0 then Keyed(s, w, 0) else FullRound(AfterRounds(s, w, n - 1), w, n)
  }

  // The state when the last `n` full rounds and the first key are undone.
  function BeforeRounds(s: Block, w: seq<bv32>, n: nat): (r: Block)
    requires 4 * n + 4 <= |w|
    decreases n
  {
    if n == 0 then Keyed(Unsubbed(Unshifted(s)), w, 0) else BeforeRounds(UnfullRound(s, w, n), w, n - 1)
  }

  function Encrypt(b: Block, w: seq<bv32>, n: nat): (r: Block)
    requires 1 <= n && 4 * n + 4 <= |w|
  {
    Load(Keyed(Shifted(Subbed(AfterRounds(Load(b), w, n - 1))), w, 4 * n))
  }

  function Decrypt(b: Block, w: seq<bv32>, n: nat): (r: Block)
    requires 1 <= n && 4 * n + 4 <= |w|
  {
    Load(BeforeRounds(Keyed(Load(b), w, 4 * n), w, n - 1))
  }

  lemma UnfullUndoes(s: Block, w: seq<bv32>, n: nat)
    requires 4 * n + 4 <= |w|
    ensures UnfullRound(Shifted(Subbed(FullRound(s, w, n))), w, n) == Shifted(Subbed(s))
  {
    hide Subbed, Unsubbed, Shifted, Unshifted, Mixed, Unmixed, Keyed;
    var t := FullRound(s, w, n);
    UnshiftUndoes(Subbed(t));
    UnsubUndoes(t);
    KeyedTwice(Mixed(Shifted(Subbed(s))), w, 4 * n);
    UnmixUndoes(Shifted(Subbed(s)));
  }

  lemma {:induction false} BeforeUndoesAfter(s: Block, w: seq<bv32>, n: nat)
    requires 4 * n + 4 <= |w|
    ensures BeforeRounds(Shifted(Subbed(AfterRounds(s, w, n))), w, n) == s
  {
    hide Subbed, Unsubbed, Shifted, Unshifted, Mixed, Unmixed, Keyed, FullRound, UnfullRound;
    if n == 0 {
      var t := Keyed(s, w, 0);
      UnshiftUndoes(Subbed(t));
      UnsubUndoes(t);
      KeyedTwice(s, w, 0);
    } else {
      UnfullUndoes(AfterRounds(s, w, n - 1), w, n);
      BeforeUndoesAfter(s, w, n - 1);
    }
  }

  // Decryption undoes encryption with any round keys and any round count.
  lemma DecryptUndoesEncrypt(b: Block, w: seq<bv32>, n: nat)
    requires 1 <= n && 4 * n + 4 <= |w|
    ensures Decrypt(Encrypt(b, w, n), w, n) == b
  {
    hide Load, Subbed, Shifted, Keyed, AfterRounds, BeforeRounds;
    var t := Shifted(Subbed(AfterRounds(Load(b), w, n - 1)));
    LoadTwice(Keyed(t, w, 4 * n));
    KeyedTwice(t, w, 4 * n);
    BeforeUndoesAfter(Load(b), w, n - 1);
    LoadTwice(b);
  }

  // The two directions choose the same number of rounds exactly for the
  // sizes the key setup accepts and those above them.
  lemma SameRounds(keysize: int)
    ensures Rounds(keysize) == UndoneRounds(keysize) <==> keysize == 128 || keysize == 192 || keysize > 192
  {
  }

  // ----- The operations in place -----

  method AddRoundKey(state: array<bv8>, w: seq<bv32>, at: nat)
    requires state.Length == 16 && at + 4 <= |w|
    modifies state
    ensures state[..] == Keyed(old(state[..]), w, at)
  {
    hide KeyCell;
    AddKeyColumn(state, 0, w, at);
    AddKeyColumn(state, 1, w, at);
    AddKeyColumn(state, 2, w, at);
    AddKeyColumn(state, 3, w, at);
    forall i | 0 <= i < 16
      ensures state[i] == KeyCell(old(state[i]), w, at, i)
    {
    }
  }

  method SetColumn(state: array<bv8>, c: nat, v0: bv8, v1: bv8, v2: bv8, v3: bv8)
    requires state.Length == 16 && c < 4
    modifies state
    ensures state[c] == v0 && state[4 + c] == v1 && state[8 + c] == v2 && state[12 + c] == v3
    ensures forall i | 0 <= i < 16 && i % 4 != c :: state[i] == old(state[i])
  {
    state[c] := v0;
    state[4 + c] := v1;
    state[8 + c] := v2;
    state[12 + c] := v3;
  }

  lemma ColumnIndex(i: nat, c: nat)
    requires i < 16 && c < 4 && i % 4 == c
    ensures (i == c && i / 4 == 0) || (i == 4 + c && i / 4 == 1) || (i == 8 + c && i / 4 == 2) || (i == 12 + c && i / 4 == 3)
  {
  }

  method AddKeyColumn(state: array<bv8>, c: nat, w: seq<bv32>, at: nat)
    requires state.Length == 16 && c < 4 && at + 4 <= |w|
    modifies state
    ensures forall i | 0 <= i < 16 :: state[i] == if i % 4 == c then KeyCell(old(state[i]), w, at, i) else old(state[i])
  {
    hide KeyByte, Xor;
    var word := w[at + c];
    SetColumn(state, c,
      Xor(state[c], KeyByte(word, 0)), Xor(state[4 + c], KeyByte(word, 1)),
      Xor(state[8 + c], KeyByte(word, 2)), Xor(state[12 + c], KeyByte(word, 3)));
    forall i | 0 <= i < 16 && i % 4 == c
      ensures state[i] == KeyCell(old(state[i]), w, at, i)
    {
      ColumnIndex(i, c);
    }
  }

  method SubRow(state: array<bv8>, r: nat)
    requires state.Length == 16 && r < 4
    modifies state
    ensures forall i | 0 <= i < 16 :: state[i] == if i / 4 == r then Sbox(old(state[i])) else old(state[i])
  {
    hide Sbox;
    state[4 * r] := Sbox(state[4 * r]);
    state[4 * r + 1] := Sbox(state[4 * r + 1]);
    state[4 * r + 2] := Sbox(state[4 * r + 2]);
    state[4 * r + 3] := Sbox(state[4 * r + 3]);
  }

  method SubBytes(state: array<bv8>)
    requires state.Length == 16
    modifies state
    ensures state[..] == Subbed(old(state[..]))
  {
    hide Sbox;
    SubRow(state, 0);
    SubRow(state, 1);
    SubRow(state, 2);
    SubRow(state, 3);
    assert forall i | 0 <= i < 16 :: state[i] == Sbox(old(state[i]));
  }

  method InvSubRow(state: array<bv8>, r: nat)
    requires state.Length == 16 && r < 4
    modifies state
    ensures forall i | 0 <= i < 16 :: state[i] == if i / 4 == r then InvSbox(old(state[i])) else old(state[i])
  {
    hide InvSbox;
    state[4 * r] := InvSbox(state[4 * r]);
    state[4 * r + 1] := InvSbox(state[4 * r + 1]);
    state[4 * r + 2] := InvSbox(state[4 * r + 2]);
    state[4 * r + 3] := InvSbox(state[4 * r + 3]);
  }

  method InvSubBytes(state: array<bv8>)
    requires state.Length == 16
    modifies state
    ensures state[..] == Unsubbed(old(state[..]))
  {
    hide InvSbox;
    InvSubRow(state, 0);
    InvSubRow(state, 1);
    InvSubRow(state, 2);
    InvSubRow(state, 3);
    assert forall i | 0 <= i < 16 :: state[i] == InvSbox(old(state[i]));
  }

  // Rotates four cells left by one.
  method RotateLeft(state: array<bv8>, at: nat)
    requires state.Length == 16 && at + 4 <= 16
    modifies state
    ensures forall i | at <= i < at + 4 :: state[i] == old(state[if i == at + 3 then at else i + 1])
    ensures forall i | 0 <= i < 16 && !(at <= i < at + 4) :: state[i] == old(state[i])
  {
    var t := state[at];
    state[at] := state[at + 1];
    state[at + 1] := state[at + 2];
    state[at + 2] := state[at + 3];
    state[at + 3] := t;
  }

  // Rotates four cells right by one.
  method RotateRight(state: array<bv8>, at: nat)
    requires state.Length == 16 && at + 4 <= 16
    modifies state
    ensures forall i | at <= i < at + 4 :: state[i] == old(state[if i == at then at + 3 else i - 1])
    ensures forall i | 0 <= i < 16 && !(at <= i < at + 4) :: state[i] == old(state[i])
  {
    var t := state[at + 3];
    state[at + 3] := state[at + 2];
    state[at + 2] := state[at + 1];
    state[at + 1] := state[at];
    state[at] := t;
  }

  // Rotates row 2 by two, either way.
  method SwapHalves(state: array<bv8>)
    requires state.Length == 16
    modifies state
    ensures forall i | 8 <= i < 12 :: state[i] == old(state[if i < 10 then i + 2 else i - 2])
    ensures forall i | 0 <= i < 16 && !(8 <= i < 12) :: state[i] == old(state[i])
  {
    var t := state[8];
    state[8] := state[10];
    state[10] := t;
    t := state[9];
    state[9] := state[11];
    state[11] := t;
  }

  // Left by one, two and three, the last as one to the right.
  method ShiftRows(state: array<bv8>)
    requires state.Length == 16
    modifies state
    ensures state[..] == Shifted(old(state[..]))
  {
    RotateLeft(state, 4);
    SwapHalves(state);
    RotateRight(state, 12);
    forall i | 0 <= i < 16
      ensures state[i] == old(state[ShiftFrom(i)])
    {
    }
  }

  method InvShiftRows(state: array<bv8>)
    requires state.Length == 16
    modifies state
    ensures state[..] == Unshifted(old(state[..]))
  {
    RotateRight(state, 4);
    SwapHalves(state);
    RotateLeft(state, 12);
    forall i | 0 <= i < 16
      ensures state[i] == old(state[UnshiftFrom(i)])
    {
    }
  }

  // Each row of a mixed column, as the source writes it.
  lemma MixRows(a: bv8, b: bv8, c: bv8, d: bv8)
    ensures Xor(Xor(Xor(Mul2(a), Mul3(b)), c), d) == MixByte(a, b, c, d)
    ensures Xor(Xor(Xor(a, Mul2(b)), Mul3(c)), d) == MixByte(b, c, d, a)
    ensures Xor(Xor(Xor(a, b), Mul2(c)), Mul3(d)) == MixByte(c, d, a, b)
    ensures Xor(Xor(Xor(Mul3(a), b), c), Mul2(d)) == MixByte(d, a, b, c)
  {
    hide Xor, Mul2, Mul3, Mul9, Mul11, Mul13, Mul14, Times;
    GfMulIsProduct(a);
    GfMulIsProduct(b);
    GfMulIsProduct(c);
    GfMulIsProduct(d);
    XorTurns(a, Mul2(b), Mul3(c), d);
    XorTurns(a, b, Mul2(c), Mul3(d));
    XorTurns(b, Mul2(c), Mul3(d), a);
    XorTurns(Mul3(a), b, c, Mul2(d));
    XorTurns(b, c, Mul2(d), Mul3(a));
    XorTurns(c, Mul2(d), Mul3(a), b);
  }

  lemma UnmixRows(a: bv8, b: bv8, c: bv8, d: bv8)
    ensures Xor(Xor(Xor(Mul14(a), Mul11(b)), Mul13(c)), Mul9(d)) == UnmixByte(a, b, c, d)
    ensures Xor(Xor(Xor(Mul9(a), Mul14(b)), Mul11(c)), Mul13(d)) == UnmixByte(b, c, d, a)
    ensures Xor(Xor(Xor(Mul13(a), Mul9(b)), Mul14(c)), Mul11(d)) == UnmixByte(c, d, a, b)
    ensures Xor(Xor(Xor(Mul11(a), Mul13(b)), Mul9(c)), Mul14(d)) == UnmixByte(d, a, b, c)
  {
    hide Xor, Mul2, Mul3, Mul9, Mul11, Mul13, Mul14, Times;
    GfMulIsProduct(a);
    GfMulIsProduct(b);
    GfMulIsProduct(c);
    GfMulIsProduct(d);
    XorTurns(Mul9(a), Mul14(b), Mul11(c), Mul13(d));
    XorTurns(Mul13(a), Mul9(b), Mul14(c), Mul11(d));
    XorTurns(Mul9(b), Mul14(c), Mul11(d), Mul13(a));
    XorTurns(Mul11(a), Mul13(b), Mul9(c), Mul14(d));
    XorTurns(Mul13(b), Mul9(c), Mul14(d), Mul11(a));
    XorTurns(Mul9(c), Mul14(d), Mul11(a), Mul13(b));
  }

  lemma ColumnCells(s: Block, c: nat)
    requires c < 4
    ensures MixCell(s, c) == MixByte(s[c], s[4 + c], s[8 + c], s[12 + c])
    ensures MixCell(s, 4 + c) == MixByte(s[4 + c], s[8 + c], s[12 + c], s[c])
    ensures MixCell(s, 8 + c) == MixByte(s[8 + c], s[12 + c], s[c], s[4 + c])
    ensures MixCell(s, 12 + c) == MixByte(s[12 + c], s[c], s[4 + c], s[8 + c])
    ensures UnmixCell(s, c) == UnmixByte(s[c], s[4 + c], s[8 + c], s[12 + c])
    ensures UnmixCell(s, 4 + c) == UnmixByte(s[4 + c], s[8 + c], s[12 + c], s[c])
    ensures UnmixCell(s, 8 + c) == UnmixByte(s[8 + c], s[12 + c], s[c], s[4 + c])
    ensures UnmixCell(s, 12 + c) == UnmixByte(s[12 + c], s[c], s[4 + c], s[8 + c])
  {
    hide MixByte, UnmixByte;
  }

  // One column of `MixColumns`; the products come from the table.
  method MixColumn(state: array<bv8>, c: nat)
    requires state.Length == 16 && c < 4
    modifies state
    ensures forall i | 0 <= i < 16 :: state[i] == if i % 4 == c then MixCell(old(state[..]), i) else old(state[i])
  {
    hide Xor, Mul2, Mul3, MixByte, MixCell;
    ghost var was := state[..];
    ColumnCells(was, c);
    var col0, col1, col2, col3 := state[c], state[4 + c], state[8 + c], state[12 + c];
    MixRows(col0, col1, col2, col3);
    SetColumn(state, c,
      Xor(Xor(Xor(Mul2(col0), Mul3(col1)), col2), col3),
      Xor(Xor(Xor(col0, Mul2(col1)), Mul3(col2)), col3),
      Xor(Xor(Xor(col0, col1), Mul2(col2)), Mul3(col3)),
      Xor(Xor(Xor(Mul3(col0), col1), col2), Mul2(col3)));
    forall i | 0 <= i < 16 && i % 4 == c
      ensures state[i] == MixCell(was, i)
    {
      ColumnIndex(i, c);
    }
  }

  method InvMixColumn(state: array<bv8>, c: nat)
    requires state.Length == 16 && c < 4
    modifies state
    ensures forall i | 0 <= i < 16 :: state[i] == if i % 4 == c then UnmixCell(old(state[..]), i) else old(state[i])
  {
    hide Xor, Mul9, Mul11, Mul13, Mul14, UnmixByte, UnmixCell;
    ghost var was := state[..];
    ColumnCells(was, c);
    var col0, col1, col2, col3 := state[c], state[4 + c], state[8 + c], state[12 + c];
    UnmixRows(col0, col1, col2, col3);
    SetColumn(state, c,
      Xor(Xor(Xor(Mul14(col0), Mul11(col1)), Mul13(col2)), Mul9(col3)),
      Xor(Xor(Xor(Mul9(col0), Mul14(col1)), Mul11(col2)), Mul13(col3)),
      Xor(Xor(Xor(Mul13(col0), Mul9(col1)), Mul14(col2)), Mul11(col3)),
      Xor(Xor(Xor(Mul11(col0), Mul13(col1)), Mul9(col2)), Mul14(col3)));
    forall i | 0 <= i < 16 && i % 4 == c
      ensures state[i] == UnmixCell(was, i)
    {
      ColumnIndex(i, c);
    }
  }

  // A cell of column c is mixed from column c only.
  lemma CellsAgree(s: Block, t: Block, i: nat)
    requires i < 16 && forall j | 0 <= j < 16 && j % 4 == i % 4 :: s[j] == t[j]
    ensures MixCell(s, i) == MixCell(t, i) && UnmixCell(s, i) == UnmixCell(t, i)
  {
    hide MixByte, UnmixByte;
    assert Down(i, 4) % 4 == i % 4 && Down(i, 8) % 4 == i % 4 && Down(i, 12) % 4 == i % 4;
  }

  method MixColumns(state: array<bv8>)
    requires state.Length == 16
    modifies state
    ensures state[..] == Mixed(old(state[..]))
  {
    hide MixCell;
    ghost var s0 := state[..];
    MixColumn(state, 0);
    ghost var s1 := state[..];
    MixColumn(state, 1);
    ghost var s2 := state[..];
    MixColumn(state, 2);
    ghost var s3 := state[..];
    MixColumn(state, 3);
    forall i | 0 <= i < 16
      ensures state[i] == MixCell(s0, i)
    {
      CellsAgree(s0, if i % 4 == 0 then s0 else if i % 4 == 1 then s1 else if i % 4 == 2 then s2 else s3, i);
    }
  }

  method InvMixColumns(state: array<bv8>)
    requires state.Length == 16
    modifies state
    ensures state[..] == Unmixed(old(state[..]))
  {
    hide UnmixCell;
    ghost var s0 := state[..];
    InvMixColumn(state, 0);
    ghost var s1 := state[..];
    InvMixColumn(state, 1);
    ghost var s2 := state[..];
    InvMixColumn(state, 2);
    ghost var s3 := state[..];
    InvMixColumn(state, 3);
    forall i | 0 <= i < 16
      ensures state[i] == UnmixCell(s0, i)
    {
      CellsAgree(s0, if i % 4 == 0 then s0 else if i % 4 == 1 then s1 else if i % 4 == 2 then s2 else s3, i);
    }
  }

  // ----- Whole blocks -----

  method LoadState(input: Block) returns (state: array<bv8>)
    ensures fresh(state) && state.Length == 16 && state[..] == Load(input)
  {
    state := new bv8[16] [
      input[0], input[4], input[8], input[12],
      input[1], input[5], input[9], input[13],
      input[2], input[6], input[10], input[14],
      input[3], input[7], input[11], input[15]];
  }

  method StoreState(state: array<bv8>) returns (out: Block)
    requires state.Length == 16
    ensures out == Load(state[..])
  {
    out := [state[0], state[4], state[8], state[12],
            state[1], state[5], state[9], state[13],
            state[2], state[6], state[10], state[14],
            state[3], state[7], state[11], state[15]];
  }

  method Round(state: array<bv8>, key: seq<bv32>, n: nat, ghost start: Block)
    requires state.Length == 16 && 1 <= n && 4 * n + 4 <= |key|
    requires state[..] == AfterRounds(start, key, n - 1)
    modifies state
    ensures state[..] == AfterRounds(start, key, n)
  {
    hide Subbed, Shifted, Mixed, Keyed;
    SubBytes(state);
    ShiftRows(state);
    MixColumns(state);
    AddRoundKey(state, key, 4 * n);
  }

  method LastRound(state: array<bv8>, key: seq<bv32>, n: nat)
    requires state.Length == 16 && 4 * n + 4 <= |key|
    modifies state
    ensures state[..] == Keyed(Shifted(Subbed(old(state[..]))), key, 4 * n)
  {
    hide Subbed, Shifted, Keyed;
    SubBytes(state);
    ShiftRows(state);
    AddRoundKey(state, key, 4 * n);
  }

  method AesEncrypt(input: Block, key: seq<bv32>, keysize: int) returns (out: Block)
    requires 4 * Rounds(keysize) + 4 <= |key|
    ensures out == Encrypt(input, key, Rounds(keysize))
  {
    hide Load, Subbed, Shifted, Keyed;
    var state := LoadState(input);
    ghost var start := Load(input);
    AddRoundKey(state, key, 0);
    assert state[..] == AfterRounds(start, key, 0);
    hide AfterRounds;
    Round(state, key, 1, start);
    Round(state, key, 2, start);
    Round(state, key, 3, start);
    Round(state, key, 4, start);
    Round(state, key, 5, start);
    Round(state, key, 6, start);
    Round(state, key, 7, start);
    Round(state, key, 8, start);
    Round(state, key, 9, start);
    if keysize != 128 {
      Round(state, key, 10, start);
      Round(state, key, 11, start);
      if keysize != 192 {
        Round(state, key, 12, start);
        Round(state, key, 13, start);
        LastRound(state, key, 14);
      } else {
        LastRound(state, key, 12);
      }
    } else {
      LastRound(state, key, 10);
    }
    out := StoreState(state);
  }

  // Undoes round `n`: what is still to undo stays the same.
  method InvRound(state: array<bv8>, key: seq<bv32>, n: nat, ghost goal: Block)
    requires state.Length == 16 && 1 <= n && 4 * n + 4 <= |key|
    requires BeforeRounds(state[..], key, n) == goal
    modifies state
    ensures BeforeRounds(state[..], key, n - 1) == goal
  {
    hide Unsubbed, Unshifted, Unmixed, Keyed;
    InvShiftRows(state);
    InvSubBytes(state);
    AddRoundKey(state, key, 4 * n);
    InvMixColumns(state);
  }

  method AesDecrypt(input: Block, key: seq<bv32>, keysize: int) returns (out: Block)
    requires 4 * UndoneRounds(keysize) + 4 <= |key|
    ensures out == Decrypt(input, key, UndoneRounds(keysize))
  {
    hide Load, Unsubbed, Unshifted, Keyed, BeforeRounds;
    var state := LoadState(input);
    ghost var last := UndoneRounds(keysize);
    ghost var goal := BeforeRounds(Keyed(Load(input), key, 4 * last), key, last - 1);
    if keysize > 128 {
      if keysize > 192 {
        AddRoundKey(state, key, 56);
        InvRound(state, key, 13, goal);
        InvRound(state, key, 12, goal);
      } else {
        AddRoundKey(state, key, 48);
      }
      InvRound(state, key, 11, goal);
      InvRound(state, key, 10, goal);
    } else {
      AddRoundKey(state, key, 40);
    }
    InvRound(state, key, 9, goal);
    InvRound(state, key, 8, goal);
    InvRound(state, key, 7, goal);
    InvRound(state, key, 6, goal);
    InvRound(state, key, 5, goal);
    InvRound(state, key, 4, goal);
    InvRound(state, key, 3, goal);
    InvRound(state, key, 2, goal);
    InvRound(state, key, 1, goal);
    InvFirst(state, key, goal);
    out := StoreState(state);
  }

  method InvFirst(state: array<bv8>, key: seq<bv32>, ghost goal: Block)
    requires state.Length == 16 && 4 <= |key|
    requires BeforeRounds(state[..], key, 0) == goal
    modifies state
    ensures state[..] == goal
  {
    hide Unsubbed, Unshifted, Keyed;
    InvShiftRows(state);
    InvSubBytes(state);
    AddRoundKey(state, key, 0);
  }

  // Encrypting and then decrypting a block gives it back, for every key size
  // on which the two directions agree and every array of round keys.
  method EncryptThenDecrypt(block: Block, key: seq<bv32>, keysize: int) returns (out: Block)
    requires keysize == 128 || keysize == 192 || keysize > 192
    requires 4 * Rounds(keysize) + 4 <= |key|
    ensures out == block
  {
    hide Encrypt, Decrypt;
    SameRounds(keysize);
    var cipher := AesEncrypt(block, key, keysize);
    out := AesDecrypt(cipher, key, keysize);
    DecryptUndoesEncrypt(block, key, Rounds(keysize));
  }

  // ----- Key setup -----

  function SubWord(w: bv32): (r: bv32)
  {
    (Sbox(KeyByte(w, 3)) as bv32) + ((Sbox(KeyByte(w, 2)) as bv32) << 8)
    + ((Sbox(KeyByte(w, 1)) as bv32) << 16) + ((Sbox(KeyByte(w, 0)) as bv32) << 24)
  }

  function RotWord(w: bv32): (r: bv32)
  {
    (w << 8) | (w >> 24)
  }

  const RCON: seq<bv32> := [
    0x01000000, 0x02000000, 0x04000000, 0x08000000, 0x10000000, 0x20000000,
    0x40000000, 0x80000000, 0x1b000000, 0x36000000, 0x6c000000, 0xd8000000,
    0xab000000, 0x4d000000, 0x9a000000]

  // Each constant is x times the one before, in the top byte.
  lemma RconDoubles(j: nat)
    requires j + 1 < |RCON|
    ensures KeyByte(RCON[j + 1], 0) == Xtime(KeyByte(RCON[j], 0)) && RCON[j] & 0xFFFFFF == 0
  {
  }

  lemma SumIsPack(b0: bv8, b1: bv8, b2: bv8, b3: bv8)
    ensures (b3 as bv32) + ((b2 as bv32) << 8) + ((b1 as bv32) << 16) + ((b0 as bv32) << 24) == PackWord(b0, b1, b2, b3)
  {
  }

  lemma PackedBytes(b0: bv8, b1: bv8, b2: bv8, b3: bv8)
    ensures var w := PackWord(b0, b1, b2, b3);
            KeyByte(w, 0) == b0 && KeyByte(w, 1) == b1 && KeyByte(w, 2) == b2 && KeyByte(w, 3) == b3
  {
  }

  lemma SubWordIsBytewise(w: bv32, r: nat)
    requires r < 4
    ensures KeyByte(SubWord(w), r) == Sbox(KeyByte(w, r))
  {
    hide Sbox, KeyByte, PackWord;
    var b0, b1, b2, b3 := Sbox(KeyByte(w, 0)), Sbox(KeyByte(w, 1)), Sbox(KeyByte(w, 2)), Sbox(KeyByte(w, 3));
    SumIsPack(b0, b1, b2, b3);
    PackedBytes(b0, b1, b2, b3);
  }

  lemma RotWordTurns(w: bv32, r: nat)
    requires r < 4
    ensures KeyByte(RotWord(w), r) == KeyByte(w, (r + 1) % 4)
  {
  }

  function KeyWords(keysize: int): (nk: nat)
    requires keysize in {128, 192, 256}
  {
    if keysize == 128 then 4 else if keysize == 192 then 6 else 8
  }

  lemma RconFits(nk: nat, i: nat)
    requires nk in {4, 6, 8} && nk <= i < 60
    ensures 0 <= (i - 1) / nk < 15
  {
    assert nk == 4 || nk == 6 || nk == 8;
  }

  // What the word before contributes to word `i`.
  function Stirred(before: bv32, nk: nat, i: nat): (w: bv32)
    requires nk in {4, 6, 8} && nk <= i < 60
  {
    RconFits(nk, i);
    if i % nk == 0 then SubWord(RotWord(before)) ^ RCON[(i - 1) / nk]
    else if nk > 6 && i % nk == 4 then SubWord(before)
    else before
  }

  // Word `i` of the expanded key, section 5.2 of FIPS 197.
  function ScheduleWord(key: seq<bv8>, nk: nat, i: nat): (w: bv32)
    requires nk in {4, 6, 8} && 4 * nk <= |key| && i < 60
  {
    if i < nk then PackWord(key[4 * i], key[4 * i + 1], key[4 * i + 2], key[4 * i + 3])
    else
      ScheduleWord(key, nk, i - nk) ^ Stirred(ScheduleWord(key, nk, i - 1), nk, i)
  }

  lemma ScheduleStep(key: seq<bv8>, nk: nat, i: nat)
    requires nk in {4, 6, 8} && 4 * nk <= |key| && i < 60
    ensures i < nk ==> ScheduleWord(key, nk, i) == PackWord(key[4 * i], key[4 * i + 1], key[4 * i + 2], key[4 * i + 3])
    ensures i >= nk ==> ScheduleWord(key, nk, i) == ScheduleWord(key, nk, i - nk) ^ Stirred(ScheduleWord(key, nk, i - 1), nk, i)
  {
    hide PackWord, Stirred;
  }

  function Schedule(key: seq<bv8>, keysize: int): (w: seq<bv32>)
    requires keysize in {128, 192, 256} && 4 * KeyWords(keysize) <= |key|
    ensures |w| == 4 * Rounds(keysize) + 4
  {
    seq(4 * Rounds(keysize) + 4, i requires 0 <= i < 4 * Rounds(keysize) + 4 => ScheduleWord(key, KeyWords(keysize), i))
  }

  method KeySetup(key: seq<bv8>, w: array<bv32>, keysize: int)
    requires keysize in {128, 192, 256} ==> 4 * KeyWords(keysize) <= |key| && 4 * Rounds(keysize) + 4 <= w.Length
    modifies w
    ensures keysize in {128, 192, 256} ==> w[..4 * Rounds(keysize) + 4] == Schedule(key, keysize)
    ensures keysize !in {128, 192, 256} ==> w[..] == old(w[..])
  {
    hide ScheduleWord;
    if keysize == 128 {
      Expand(key, w, 10, 4);
    } else if keysize == 192 {
      Expand(key, w, 12, 6);
    } else if keysize == 256 {
      Expand(key, w, 14, 8);
    }
  }

  method Expand(key: seq<bv8>, w: array<bv32>, nr: nat, nk: nat)
    requires nk in {4, 6, 8} && 4 * nk <= |key| && nr == nk + 6 && 4 * (nr + 1) <= w.Length
    modifies w
    ensures forall i | 0 <= i < 4 * (nr + 1) :: w[i] == ScheduleWord(key, nk, i)
  {
    hide PackWord, Stirred, ScheduleWord;
    var idx := 0;
    while idx < nk
      invariant 0 <= idx <= nk
      invariant forall i | 0 <= i < idx :: w[i] == ScheduleWord(key, nk, i)
    {
      ScheduleStep(key, nk, idx);
      w[idx] := PackWord(key[4 * idx], key[4 * idx + 1], key[4 * idx + 2], key[4 * idx + 3]);
      idx := idx + 1;
    }
    while idx < 4 * (nr + 1)
      invariant nk <= idx <= 4 * (nr + 1)
      invariant forall i | 0 <= i < idx :: w[i] == ScheduleWord(key, nk, i)
    {
      ScheduleStep(key, nk, idx);
      var temp := Stir(w[idx - 1], nk, idx);
      w[idx] := w[idx - nk] ^ temp;
      idx := idx + 1;
    }
  }

  method Stir(before: bv32, nk: nat, idx: nat) returns (temp: bv32)
    requires nk in {4, 6, 8} && nk <= idx < 60
    ensures temp == Stirred(before, nk, idx)
  {
    hide SubWord, RotWord;
    temp := before;
    RconFits(nk, idx);
    if idx % nk == 0 {
      temp := SubWord(RotWord(temp)) ^ RCON[(idx - 1) / nk];
    } else if nk > 6 && idx % nk == 4 {
      temp := SubWord(temp);
    }
  }
}
