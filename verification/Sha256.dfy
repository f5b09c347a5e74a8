/**
  * SHA-256: the compression function against its recursive definition, and
  * the streaming context, which hashes the padded message however the message
  * is cut into updates.
  */
module Sha256 {
  import opened Bytes

  // ----- Compression, section 6.2.2 of FIPS 180-4 -----

  datatype Words = Words(a: bv32, b: bv32, c: bv32, d: bv32, e: bv32, f: bv32, g: bv32, h: bv32)

  const INITIAL := Words(0x6a09e667, 0xbb67ae85, 0x3c6ef372, 0xa54ff53a, 0x510e527f, 0x9b05688c, 0x1f83d9ab, 0x5be0cd19)

  // The table k[] as eight rows of eight.
  function Constant(t: nat): (k: bv32)
    requires t < 64
  {
    var i, j := t / 8, t % 8;
    Pick(i, Pick(j, 0x428a2f98, 0x71374491, 0xb5c0fbcf, 0xe9b5dba5, 0x3956c25b, 0x59f111f1, 0x923f82a4, 0xab1c5ed5),
         Pick(j, 0xd807aa98, 0x12835b01, 0x243185be, 0x550c7dc3, 0x72be5d74, 0x80deb1fe, 0x9bdc06a7, 0xc19bf174),
         Pick(j, 0xe49b69c1, 0xefbe4786, 0x0fc19dc6, 0x240ca1cc, 0x2de92c6f, 0x4a7484aa, 0x5cb0a9dc, 0x76f988da),
         Pick(j, 0x983e5152, 0xa831c66d, 0xb00327c8, 0xbf597fc7, 0xc6e00bf3, 0xd5a79147, 0x06ca6351, 0x14292967),
         Pick(j, 0x27b70a85, 0x2e1b2138, 0x4d2c6dfc, 0x53380d13, 0x650a7354, 0x766a0abb, 0x81c2c92e, 0x92722c85),
         Pick(j, 0xa2bfe8a1, 0xa81a664b, 0xc24b8b70, 0xc76c51a3, 0xd192e819, 0xd6990624, 0xf40e3585, 0x106aa070),
         Pick(j, 0x19a4c116, 0x1e376c08, 0x2748774c, 0x34b0bcb5, 0x391c0cb3, 0x4ed8aa4a, 0x5b9cca4f, 0x682e6ff3),
         Pick(j, 0x748f82ee, 0x78a5636f, 0x84c87814, 0x8cc70208, 0x90befffa, 0xa4506ceb, 0xbef9a3f7, 0xc67178f2))
  }

  function Pick(i: nat, a: bv32, b: bv32, c: bv32, d: bv32, e: bv32, f: bv32, g: bv32, h: bv32): (r: bv32)
  {
    if i < 4 then if i < 2 then if i < 1 then a else b else if i < 3 then c else d
    else if i < 6 then if i < 5 then e else f else if i < 7 then g else h
  }

  function RotRight(x: bv32, n: bv6): (r: bv32)
    requires 0 < n < 32
  {
    (x >> n) | (x << (32 - n))
  }

  function ShiftRight(x: bv32, n: bv6): (r: bv32)
    requires n < 32
  {
    x >> n
  }

  function Choose(x: bv32, y: bv32, z: bv32): (r: bv32)
  {
    (x & y) ^ (!x & z)
  }

  function Majority(x: bv32, y: bv32, z: bv32): (r: bv32)
  {
    (x & y) ^ (x & z) ^ (y & z)
  }

  function BigSigma0(x: bv32): (r: bv32)
  {
    RotRight(x, 2) ^ RotRight(x, 13) ^ RotRight(x, 22)
  }

  function BigSigma1(x: bv32): (r: bv32)
  {
    RotRight(x, 6) ^ RotRight(x, 11) ^ RotRight(x, 25)
  }

  function SmallSigma0(x: bv32): (r: bv32)
  {
    RotRight(x, 7) ^ RotRight(x, 18) ^ ShiftRight(x, 3)
  }

  function SmallSigma1(x: bv32): (r: bv32)
  {
    RotRight(x, 17) ^ RotRight(x, 19) ^ ShiftRight(x, 10)
  }

  function ExpandWord(w2: bv32, w7: bv32, w15: bv32, w16: bv32): (w: bv32)
  {
    SmallSigma1(w2) + w7 + SmallSigma0(w15) + w16
  }

  // Word t of the message schedule.
  function ScheduleWord(block: seq<bv8>, t: nat): (w: bv32)
    requires |block| == 64 && t < 64
    decreases |block|, t
  {
    if t < 16 then PackWord(block[4 * t], block[4 * t + 1], block[4 * t + 2], block[4 * t + 3])
    else ExpandWord(ScheduleWord(block, t - 2), ScheduleWord(block, t - 7), ScheduleWord(block, t - 15), ScheduleWord(block, t - 16))
  }

  // Addition of 32-bit words.
  function Plus(x: bv32, y: bv32): (r: bv32)
  {
    x + y
  }

  function FirstTemp(s: Words, k: bv32, w: bv32): (r: bv32)
  {
    s.h + BigSigma1(s.e) + Choose(s.e, s.f, s.g) + k + w
  }

  function SecondTemp(s: Words): (r: bv32)
  {
    BigSigma0(s.a) + Majority(s.a, s.b, s.c)
  }

  function Stepped(s: Words, k: bv32, w: bv32): (r: Words)
  {
    var t1 := FirstTemp(s, k, w);
    Words(Plus(t1, SecondTemp(s)), s.a, s.b, s.c, Plus(s.d, t1), s.e, s.f, s.g)
  }

  // The working variables after t steps.
  function After(s: Words, block: seq<bv8>, t: nat): (r: Words)
    requires |block| == 64 && t <= 64
    decreases |block|, t
  {
    if t == 0 then s else Stepped(After(s, block, t - 1), Constant(t - 1), ScheduleWord(block, t - 1))
  }

  function Added(s: Words, t: Words): (r: Words)
  {
    Words(Plus(s.a, t.a), Plus(s.b, t.b), Plus(s.c, t.c), Plus(s.d, t.d),
          Plus(s.e, t.e), Plus(s.f, t.f), Plus(s.g, t.g), Plus(s.h, t.h))
  }

  function Compress(s: Words, block: seq<bv8>): (r: Words)
    requires |block| == 64
  {
    Added(s, After(s, block, 64))
  }

  // The hash value after every whole block of `s`.
  function Fold(h: Words, s: seq<bv8>): (r: Words)
    decreases |s|
  {
    if |s| < 64 then h else Fold(Compress(h, s[..64]), s[64..])
  }

  lemma {:induction false} FoldAppend(h: Words, s: seq<bv8>, t: seq<bv8>)
    requires |s| % 64 == 0
    decreases |s|
    ensures Fold(h, s + t) == Fold(Fold(h, s), t)
  {
    hide Compress;
    if |s| == 0 {
      assert s + t == t;
    } else {
      assert (s + t)[..64] == s[..64] && (s + t)[64..] == s[64..] + t;
      FoldAppend(Compress(h, s[..64]), s[64..], t);
    }
  }

  lemma FoldBlock(h: Words, s: seq<bv8>, block: seq<bv8>)
    requires |s| % 64 == 0 && |block| == 64
    ensures Fold(h, s + block) == Compress(Fold(h, s), block)
  {
    hide Compress;
    FoldAppend(h, s, block);
    assert block[..64] == block && block[64..] == [];
  }

  // ----- Padding, section 5.1.1 of FIPS 180-4 -----

  // Eight bytes, most significant first.
  function LengthBytes(n: nat): (s: seq<bv8>)
    ensures |s| == 8
  {
    [ByteOf(n / 0x100_0000_0000_0000), ByteOf(n / 0x1_0000_0000_0000), ByteOf(n / 0x100_0000_0000), ByteOf(n / 0x1_0000_0000),
     ByteOf(n / 0x100_0000), ByteOf(n / 0x1_0000), ByteOf(n / 0x100), ByteOf(n)]
  }

  const TWO64 := 0x1_0000_0000_0000_0000

  // The fewest zero bytes that leave room for the length.
  function PadZeros(len: nat): (z: nat)
    ensures z < 64 && (len + 1 + z + 8) % 64 == 0
  {
    (55 - len) % 64
  }

  function Padded(m: seq<bv8>): (r: seq<bv8>)
    ensures |r| % 64 == 0 && |m| + 9 <= |r| < |m| + 73
  {
    m + [0x80] + Zeros(PadZeros(|m|)) + LengthBytes(8 * |m| % TWO64)
  }

  // ----- The digest -----

  function WordByte(w: bv32, i: nat): (b: bv8)
    requires i < 4
  {
    ((w >> (24 - i * 8)) & 0xff) as bv8
  }

  function WordAt(s: Words, j: nat): (w: bv32)
    requires j < 8
  {
    if j == 0 then s.a else if j == 1 then s.b else if j == 2 then s.c else if j == 3 then s.d
    else if j == 4 then s.e else if j == 5 then s.f else if j == 6 then s.g else s.h
  }

  // The eight words, each most significant byte first.
  function Digest(s: Words): (r: seq<bv8>)
    ensures |r| == 32
  {
    seq(32, n requires 0 <= n < 32 => WordByte(WordAt(s, n / 4), n % 4))
  }

  function Hash(m: seq<bv8>): (r: seq<bv8>)
  {
    Digest(Fold(INITIAL, Padded(m)))
  }

  // ----- The compression loops -----

  lemma ScheduleStep(block: seq<bv8>, t: nat)
    requires |block| == 64 && t < 64
    ensures t < 16 ==> ScheduleWord(block, t) == PackWord(block[4 * t], block[4 * t + 1], block[4 * t + 2], block[4 * t + 3])
    ensures t >= 16 ==> ScheduleWord(block, t) == ExpandWord(ScheduleWord(block, t - 2), ScheduleWord(block, t - 7), ScheduleWord(block, t - 15), ScheduleWord(block, t - 16))
  {
    hide PackWord, ExpandWord;
  }

  method FillSchedule(block: seq<bv8>) returns (m: array<bv32>)
    requires |block| == 64
    ensures fresh(m) && m.Length == 64
    ensures forall t | 0 <= t < 64 :: m[t] == ScheduleWord(block, t)
  {
    hide PackWord, ExpandWord, ScheduleWord;
    m := new bv32[64];
    var i, j := 0, 0;
    while i < 16
      invariant 0 <= i <= 16 && j == 4 * i
      invariant forall t | 0 <= t < i :: m[t] == ScheduleWord(block, t)
    {
      ScheduleStep(block, i);
      m[i] := PackWord(block[j], block[j + 1], block[j + 2], block[j + 3]);
      i, j := i + 1, j + 4;
    }
    while i < 64
      invariant 16 <= i <= 64
      invariant forall t | 0 <= t < i :: m[t] == ScheduleWord(block, t)
    {
      ScheduleStep(block, i);
      m[i] := ExpandWord(m[i - 2], m[i - 7], m[i - 15], m[i - 16]);
      i := i + 1;
    }
  }

  lemma AfterStep(s: Words, block: seq<bv8>, t: nat)
    requires |block| == 64 && t < 64
    ensures After(s, block, 0) == s
    ensures After(s, block, t + 1) == Stepped(After(s, block, t), Constant(t), ScheduleWord(block, t))
  {
    hide Stepped, Constant, ScheduleWord;
  }

  method Transform(state: Words, block: seq<bv8>) returns (r: Words)
    requires |block| == 64
    ensures r == Compress(state, block)
  {
    hide FirstTemp, SecondTemp, Constant, ScheduleWord, After, Plus;
    var m := FillSchedule(block);
    var a, b, c, d, e, f, g, h := state.a, state.b, state.c, state.d, state.e, state.f, state.g, state.h;
    AfterStep(state, block, 0);
    var i := 0;
    while i < 64
      invariant 0 <= i <= 64
      invariant Words(a, b, c, d, e, f, g, h) == After(state, block, i)
      invariant forall t | 0 <= t < 64 :: m[t] == ScheduleWord(block, t)
    {
      AfterStep(state, block, i);
      var t1 := FirstTemp(Words(a, b, c, d, e, f, g, h), Constant(i), m[i]);
      var t2 := SecondTemp(Words(a, b, c, d, e, f, g, h));
      h := g;
      g := f;
      f := e;
      e := Plus(d, t1);
      d := c;
      c := b;
      b := a;
      a := Plus(t1, t2);
      i := i + 1;
    }
    r := Words(Plus(state.a, a), Plus(state.b, b), Plus(state.c, c), Plus(state.d, d),
               Plus(state.e, e), Plus(state.f, f), Plus(state.g, g), Plus(state.h, h));
  }

  // Writes every fourth byte from `at`.
  method StoreFour(hash: array<bv8>, at: nat, v0: bv8, v1: bv8, v2: bv8, v3: bv8)
    requires at + 12 < hash.Length
    modifies hash
    ensures hash[at] == v0 && hash[at + 4] == v1 && hash[at + 8] == v2 && hash[at + 12] == v3
    ensures forall n | 0 <= n < hash.Length && n != at && n != at + 4 && n != at + 8 && n != at + 12 :: hash[n] == old(hash[n])
  {
    hash[at] := v0;
    hash[at + 4] := v1;
    hash[at + 8] := v2;
    hash[at + 12] := v3;
  }

  method PutFour(a: array<bv8>, at: nat, v0: bv8, v1: bv8, v2: bv8, v3: bv8)
    requires at + 4 <= a.Length
    modifies a
    ensures a[..] == old(a[..at]) + [v0, v1, v2, v3] + old(a[at + 4..])
  {
    a[at + 3] := v3;
    a[at + 2] := v2;
    a[at + 1] := v1;
    a[at] := v0;
  }

  lemma ColumnIndex(n: nat, i: nat)
    requires n < 32 && i < 4 && n % 4 == i
    ensures n == i || n == i + 4 || n == i + 8 || n == i + 12 || n == i + 16 || n == i + 20 || n == i + 24 || n == i + 28
    ensures n == i + n / 4 * 4
  {
  }

  method StoreColumn(hash: array<bv8>, s: Words, i: nat)
    requires hash.Length >= 32 && i < 4
    modifies hash
    ensures forall n | 0 <= n < 32 :: hash[n] == if n % 4 == i then WordByte(WordAt(s, n / 4), i) else old(hash[n])
    ensures forall n | 32 <= n < hash.Length :: hash[n] == old(hash[n])
  {
    hide WordByte;
    StoreFour(hash, i, WordByte(s.a, i), WordByte(s.b, i), WordByte(s.c, i), WordByte(s.d, i));
    StoreFour(hash, i + 16, WordByte(s.e, i), WordByte(s.f, i), WordByte(s.g, i), WordByte(s.h, i));
    forall n | 0 <= n < 32 && n % 4 == i
      ensures hash[n] == WordByte(WordAt(s, n / 4), i)
    {
      ColumnIndex(n, i);
    }
  }

  method StoreDigest(hash: array<bv8>, s: Words)
    requires hash.Length >= 32
    modifies hash
    ensures hash[..32] == Digest(s) && hash[32..] == old(hash[32..])
  {
    hide WordByte, WordAt;
    var i := 0;
    while i < 4
      invariant 0 <= i <= 4
      invariant forall n | 0 <= n < 32 && n % 4 < i :: hash[n] == WordByte(WordAt(s, n / 4), n % 4)
      invariant forall n | 32 <= n < hash.Length :: hash[n] == old(hash[n])
    {
      StoreColumn(hash, s, i);
      i := i + 1;
    }
  }

  // ----- The context -----

  // What the fields of a context say about the bytes it was given.
  ghost predicate Streams(message: seq<bv8>, datalen: nat, bitlen: nat, data: seq<bv8>, state: Words)
  {
    |data| == 64 && datalen < 64 && datalen == |message| % 64
    && bitlen == 8 * (|message| - datalen) % TWO64
    && data[..datalen] == message[|message| - datalen..]
    && state == Fold(INITIAL, message[..|message| - datalen])
  }

  lemma StreamStarts(data: seq<bv8>)
    requires |data| == 64
    ensures Streams([], 0, 0, data, INITIAL)
  {
  }

  lemma TailGrows(m: seq<bv8>, whole: nat, x: bv8)
    requires whole <= |m|
    ensures (m + [x])[..whole] == m[..whole] && (m + [x])[whole..] == m[whole..] + [x]
  {
  }

  lemma DataGrows(data: seq<bv8>, d: nat, x: bv8)
    requires d < |data|
    ensures data[d := x][..d + 1] == data[..d] + [x]
  {
  }

  lemma LengthGrows(len: nat, d: nat)
    requires d == len % 64
    ensures d <= len && (len + 1) % 64 == if d < 63 then d + 1 else 0
  {
  }

  lemma StreamByte(message: seq<bv8>, datalen: nat, bitlen: nat, data: seq<bv8>, state: Words, x: bv8)
    requires Streams(message, datalen, bitlen, data, state) && datalen < 63
    ensures Streams(message + [x], datalen + 1, bitlen, data[datalen := x], state)
  {
    hide Fold;
    LengthGrows(|message|, datalen);
    TailGrows(message, |message| - datalen, x);
    DataGrows(data, datalen, x);
  }

  lemma BitsGrow(k: nat, n: nat)
    ensures (8 * k % TWO64 + 8 * n) % TWO64 == 8 * (k + n) % TWO64
  {
  }

  lemma Regroup(m: seq<bv8>, whole: nat, x: bv8)
    requires whole <= |m|
    ensures m + [x] == m[..whole] + (m[whole..] + [x])
  {
  }

  lemma BlockFolds(m: seq<bv8>, data: seq<bv8>, x: bv8)
    requires |m| % 64 == 63 && |data| == 64 && data[..63] == m[|m| - 63..]
    ensures Fold(INITIAL, m + [x]) == Compress(Fold(INITIAL, m[..|m| - 63]), data[63 := x])
  {
    hide Fold, Compress;
    var whole, tail, block := m[..|m| - 63], m[|m| - 63..], data[63 := x];
    DataGrows(data, 63, x);
    assert block == tail + [x];
    Regroup(m, |m| - 63, x);
    WholeBlocks(|m|, 63);
    FoldBlock(INITIAL, whole, block);
  }

  lemma StreamBlock(message: seq<bv8>, bitlen: nat, data: seq<bv8>, state: Words, x: bv8)
    requires Streams(message, 63, bitlen, data, state)
    ensures Streams(message + [x], 0, (bitlen + 512) % TWO64, data[63 := x], Compress(state, data[63 := x]))
  {
    hide Fold, Compress;
    LengthGrows(|message|, 63);
    BitsGrow(|message| - 63, 64);
    BlockFolds(message, data, x);
    var m := message + [x];
    assert m[..|m|] == m && m[|m|..] == [] && data[63 := x][..0] == [];
  }

  // The last block, when the length still fits in it.
  function ShortBlock(tail: seq<bv8>, bits: nat): (r: seq<bv8>)
    requires |tail| < 56
    ensures |r| == 64
  {
    tail + [0x80] + Zeros(55 - |tail|) + LengthBytes(bits)
  }

  // The last two blocks otherwise.
  function MarkedBlock(tail: seq<bv8>): (r: seq<bv8>)
    requires 56 <= |tail| < 64
    ensures |r| == 64
  {
    tail + [0x80] + Zeros(63 - |tail|)
  }

  function LengthBlock(bits: nat): (r: seq<bv8>)
    ensures |r| == 64
  {
    Zeros(56) + LengthBytes(bits)
  }

  lemma BlockForms(tail: seq<bv8>, bits: nat)
    requires |tail| < 64
    ensures |tail| < 56 ==> ShortBlock(tail, bits) == tail + [0x80] + Zeros(56 - |tail| - 1) + LengthBytes(bits)
    ensures |tail| >= 56 ==> MarkedBlock(tail) == tail + [0x80] + Zeros(64 - |tail| - 1)
    ensures LengthBlock(bits) == Zeros(56) + LengthBytes(bits)
  {
  }

  lemma ZerosAdd(a: nat, b: nat)
    ensures Zeros(a + b) == Zeros(a) + Zeros(b)
  {
  }

  lemma PadZerosIs(len: nat, d: nat)
    requires d == len % 64
    ensures PadZeros(len) == if d < 56 then 55 - d else 119 - d
  {
  }

  lemma PaddedIsBlocks(m: seq<bv8>, d: nat)
    requires d == |m| % 64
    ensures var whole, tail, bits := m[..|m| - d], m[|m| - d..], 8 * |m| % TWO64;
            Padded(m) == whole + if d < 56 then ShortBlock(tail, bits) else MarkedBlock(tail) + LengthBlock(bits)
  {
    hide LengthBytes, Zeros, PadZeros;
    PadZerosIs(|m|, d);
    assert m == m[..|m| - d] + m[|m| - d..];
    if d >= 56 {
      ZerosAdd(63 - d, 56);
    }
  }

  lemma WholeBlocks(len: nat, d: nat)
    requires d == len % 64
    ensures d <= len && (len - d) % 64 == 0
  {
  }

  lemma FoldTwo(h: Words, whole: seq<bv8>, b: seq<bv8>, c: seq<bv8>)
    requires |whole| % 64 == 0 && |b| == 64 && |c| == 64
    ensures Fold(h, whole + (b + c)) == Compress(Compress(Fold(h, whole), b), c)
  {
    hide Compress, Fold;
    FoldBlock(h, whole, b);
    FoldBlock(h, whole + b, c);
    assert whole + (b + c) == whole + b + c;
  }

  // The hash of the padded message from the state the context has reached.
  lemma FinalState(m: seq<bv8>, d: nat, bitlen: nat, data: seq<bv8>, state: Words)
    requires Streams(m, d, bitlen, data, state)
    ensures d < 64 && (bitlen + 8 * d) % TWO64 == 8 * |m| % TWO64
    ensures var bits := 8 * |m| % TWO64;
            Fold(INITIAL, Padded(m)) ==
            if d < 56 then Compress(state, ShortBlock(data[..d], bits))
            else Compress(Compress(state, MarkedBlock(data[..d])), LengthBlock(bits))
  {
    hide Compress, ShortBlock, MarkedBlock, LengthBlock, Padded, Fold;
    PaddedIsBlocks(m, d);
    BitsGrow(|m| - d, d);
    var whole, tail, bits := m[..|m| - d], m[|m| - d..], 8 * |m| % TWO64;
    WholeBlocks(|m|, d);
    if d < 56 {
      FoldBlock(INITIAL, whole, ShortBlock(tail, bits));
    } else {
      FoldTwo(INITIAL, whole, MarkedBlock(tail), LengthBlock(bits));
    }
  }

  lemma TwoHalves(was: seq<bv8>, half: seq<bv8>, now: seq<bv8>, n: nat)
    requires |was| == 64
    requires half == was[..60] + [ByteOf(n / 0x100_0000), ByteOf(n / 0x1_0000), ByteOf(n / 0x100), ByteOf(n)] + was[64..]
    requires now == half[..56] + [ByteOf(n / 0x100_0000_0000_0000), ByteOf(n / 0x1_0000_0000_0000),
                                  ByteOf(n / 0x100_0000_0000), ByteOf(n / 0x1_0000_0000)] + half[60..]
    ensures now == was[..56] + LengthBytes(n)
  {
    hide ByteOf;
    assert half[60..] == [ByteOf(n / 0x100_0000), ByteOf(n / 0x1_0000), ByteOf(n / 0x100), ByteOf(n)];
    assert half[..56] == was[..56];
  }

  class Context {
    const data: array<bv8>
    var datalen: nat
    var bitlen: nat
    var state: Words
    // Every byte given to the context since it was set up.
    ghost var message: seq<bv8>

    ghost predicate Valid()
      reads this, data
    {
      data.Length == 64 && Streams(message, datalen, bitlen, data[..], state)
    }

    constructor ()
      ensures Valid() && fresh(data) && message == []
    {
      data := new bv8[64];
      datalen := 0;
      bitlen := 0;
      state := INITIAL;
      message := [];
      new;
      StreamStarts(data[..]);
    }

    method PutByte(x: bv8)
      requires Valid()
      modifies this, data
      ensures Valid() && message == old(message) + [x]
    {
      hide Compress, Fold;
      assert datalen < 64;
      ghost var was := data[..];
      data[datalen] := x;
      assert data[..] == was[datalen := x];
      datalen := datalen + 1;
      if datalen == 64 {
        StreamBlock(message, bitlen, was, state, x);
        hide Streams;
        state := Transform(state, data[..]);
        bitlen := (bitlen + 512) % TWO64;
        datalen := 0;
      } else {
        StreamByte(message, datalen - 1, bitlen, was, state, x);
        hide Streams;
      }
      message := message + [x];
    }

    method Update(bytes: seq<bv8>)
      requires Valid() && |bytes| < 0x1_0000_0000
      modifies this, data
      ensures Valid() && message == old(message) + bytes
    {
      hide Streams;
      var i := 0;
      while i < |bytes|
        invariant 0 <= i <= |bytes|
        invariant Valid() && message == old(message) + bytes[..i]
      {
        PutByte(bytes[i]);
        i := i + 1;
      }
    }

    // Marks the end of the message and clears up to `to`.
    method Mark(to: nat)
      requires data.Length == 64 && datalen < to <= 64
      modifies data
      ensures data[..to] == old(data[..datalen]) + [0x80] + Zeros(to - datalen - 1)
      ensures data[to..] == old(data[to..])
    {
      data[datalen] := 0x80;
      var i := datalen + 1;
      while i < to
        invariant datalen < i <= to
        invariant data[..datalen] == old(data[..datalen]) && data[datalen] == 0x80
        invariant forall j | datalen < j < i :: data[j] == 0
        invariant data[to..] == old(data[to..])
      {
        data[i] := 0x00;
        i := i + 1;
      }
    }

    method Clear()
      requires data.Length == 64
      modifies data
      ensures data[..56] == Zeros(56) && data[56..] == old(data[56..])
    {
      var i := 0;
      while i < 56
        invariant 0 <= i <= 56
        invariant forall j | 0 <= j < i :: data[j] == 0
        invariant data[56..] == old(data[56..])
      {
        data[i] := 0;
        i := i + 1;
      }
    }

    method StoreLength()
      requires data.Length == 64
      modifies data
      ensures data[..] == old(data[..56]) + LengthBytes(bitlen)
    {
      hide ByteOf;
      ghost var was := data[..];
      PutFour(data, 60, ByteOf(bitlen / 0x100_0000), ByteOf(bitlen / 0x1_0000), ByteOf(bitlen / 0x100), ByteOf(bitlen));
      ghost var half := data[..];
      PutFour(data, 56, ByteOf(bitlen / 0x100_0000_0000_0000), ByteOf(bitlen / 0x1_0000_0000_0000),
              ByteOf(bitlen / 0x100_0000_0000), ByteOf(bitlen / 0x1_0000_0000));
      TwoHalves(was, half, data[..], bitlen);
    }

    method Pad()
      requires Valid()
      modifies this, data
      ensures data.Length == 64 && state == Fold(INITIAL, Padded(old(message)))
    {
      hide Streams, Fold, Compress, Padded, LengthBytes, Zeros, ShortBlock, MarkedBlock, LengthBlock;
      FinalState(message, datalen, bitlen, data[..], state);
      ghost var tail, bits := data[..datalen], 8 * |message| % TWO64;
      if datalen < 56 {
        Mark(56);
        BlockForms(tail, bits);
      } else {
        Mark(64);
        BlockForms(tail, bits);
        assert data[..] == data[..64];
        state := Transform(state, data[..]);
        Clear();
      }
      bitlen := (bitlen + datalen * 8) % TWO64;
      StoreLength();
      state := Transform(state, data[..]);
    }

    method Final(hash: array<bv8>)
      requires Valid() && hash.Length >= 32 && hash != data
      modifies this, data, hash
      ensures hash[..32] == Hash(old(message)) && hash[32..] == old(hash[32..])
    {
      hide Fold, Padded, Digest;
      Pad();
      StoreDigest(hash, state);
    }
  }

  function Joined(chunks: seq<seq<bv8>>): (m: seq<bv8>)
  {
    if chunks == [] then [] else Joined(chunks[..|chunks| - 1]) + chunks[|chunks| - 1]
  }

  // However the message is cut, the digest is that of the whole.
  method HashChunks(chunks: seq<seq<bv8>>) returns (hash: array<bv8>)
    requires forall c | c in chunks :: |c| < 0x1_0000_0000
    ensures hash.Length == 32 && hash[..] == Hash(Joined(chunks))
  {
    hide Hash, Streams;
    var ctx := new Context();
    var i := 0;
    while i < |chunks|
      invariant 0 <= i <= |chunks|
      invariant ctx.Valid() && fresh(ctx) && fresh(ctx.data)
      invariant ctx.message == Joined(chunks[..i])
    {
      assert chunks[..i + 1][..i] == chunks[..i];
      ctx.Update(chunks[i]);
      i := i + 1;
    }
    assert chunks[..|chunks|] == chunks;
    hash := new bv8[32];
    ctx.Final(hash);
  }
}
