/**
  * Cipher block chaining and its message authentication code, over buffers of
  * any length, and counting in byte strings. The output buffer may be the input.
  */
module BlockModes {
  import opened AesTables
  import opened Aes

  // ----- The block cipher, seen through its key -----

  datatype Key = Key(words: seq<bv32>, keysize: int)

  predicate Fits(k: Key)
  {
    4 * Rounds(k.keysize) + 4 <= |k.words|
  }

  predicate FitsBack(k: Key)
  {
    4 * UndoneRounds(k.keysize) + 4 <= |k.words|
  }

  // Sizes on which the two directions run the same number of rounds.
  predicate Agrees(k: Key)
  {
    Fits(k) && (k.keysize == 128 || k.keysize == 192 || k.keysize > 192)
  }

  // The modes are stated over any block function.
  type Cipher = Block -> Block

  function Encipher(k: Key): (enc: Cipher)
    requires Fits(k)
  {
    (b: Block) => Encrypt(b, k.words, Rounds(k.keysize))
  }

  function Decipher(k: Key): (dec: Cipher)
    requires FitsBack(k)
  {
    (b: Block) => Decrypt(b, k.words, UndoneRounds(k.keysize))
  }

  ghost predicate Inverts(dec: Cipher, enc: Cipher)
  {
    forall b: Block :: dec(enc(b)) == b
  }

  lemma DecipherInverts(k: Key)
    requires Agrees(k)
    ensures FitsBack(k) && Inverts(Decipher(k), Encipher(k))
  {
    hide Encrypt, Decrypt;
    SameRounds(k.keysize);
    forall b: Block
      ensures Decipher(k)(Encipher(k)(b)) == b
    {
      DecryptUndoesEncrypt(b, k.words, Rounds(k.keysize));
    }
  }

  function Xored(s: seq<bv8>, mask: seq<bv8>): (r: seq<bv8>)
    requires |s| <= |mask|
    ensures |r| == |s|
  {
    seq(|s|, i requires 0 <= i < |s| => Xor(s[i], mask[i]))
  }

  lemma XoredTwice(s: seq<bv8>, mask: seq<bv8>)
    requires |s| <= |mask|
    ensures Xored(Xored(s, mask), mask) == s
  {
    hide Xor;
    forall i | 0 <= i < |s|
      ensures Xored(Xored(s, mask), mask)[i] == s[i]
    {
      XorTwice(s[i], mask[i]);
    }
  }

  // ----- Buffers -----

  // `s` with `piece` written at `at`.
  function Patched(s: seq<bv8>, at: nat, piece: seq<bv8>): (r: seq<bv8>)
    requires at + |piece| <= |s|
    ensures |r| == |s|
  {
    s[..at] + piece + s[at + |piece|..]
  }

  method CopyIn(out: array<bv8>, at: nat, piece: seq<bv8>)
    requires at + |piece| <= out.Length
    modifies out
    ensures out[..] == Patched(old(out[..]), at, piece)
  {
    var i := 0;
    while i < |piece|
      invariant 0 <= i <= |piece|
      invariant forall j | 0 <= j < out.Length :: out[j] == if at <= j < at + i then piece[j - at] else old(out[j])
    {
      out[at + i] := piece[i];
      i := i + 1;
    }
  }

  method XorBuf(mask: seq<bv8>, out: array<bv8>, at: nat, len: nat)
    requires len <= |mask| && at + len <= out.Length
    modifies out
    ensures out[..] == Patched(old(out[..]), at, Xored(old(out[at..at + len]), mask))
  {
    hide Xor;
    var idx := 0;
    while idx < len
      invariant 0 <= idx <= len
      invariant forall j | 0 <= j < out.Length ::
          out[j] == if at <= j < at + idx then Xor(old(out[j]), mask[j - at]) else old(out[j])
    {
      out[at + idx] := Xor(out[at + idx], mask[idx]);
      idx := idx + 1;
    }
  }

  // ----- Cipher block chaining -----

  function CbcEnc(s: seq<bv8>, enc: Cipher, iv: Block): (r: seq<bv8>)
    ensures |s| % 16 == 0 ==> |r| == |s|
  {
    if |s| < 16 then []
    else
      var c := enc(Xored(s[..16], iv));
      c + CbcEnc(s[16..], enc, c)
  }

  function CbcDec(s: seq<bv8>, dec: Cipher, iv: Block): (r: seq<bv8>)
    ensures |s| % 16 == 0 ==> |r| == |s|
  {
    if |s| < 16 then [] else Xored(dec(s[..16]), iv) + CbcDec(s[16..], dec, s[..16])
  }

  // The chaining value once `s` has been consumed.
  function CbcMac(s: seq<bv8>, enc: Cipher, iv: Block): (r: Block)
  {
    if |s| < 16 then iv else CbcMac(s[16..], enc, enc(Xored(s[..16], iv)))
  }

  lemma {:induction false} CbcRoundTrip(s: seq<bv8>, enc: Cipher, dec: Cipher, iv: Block)
    requires Inverts(dec, enc) && |s| % 16 == 0
    ensures CbcDec(CbcEnc(s, enc, iv), dec, iv) == s
  {
    if |s| >= 16 {
      var x := Xored(s[..16], iv);
      var c := enc(x);
      var rest: seq<bv8> := CbcEnc(s[16..], enc, c);
      CbcRoundTrip(s[16..], enc, dec, c);
      XoredTwice(s[..16], iv);
      hide Xored;
      assert (c + rest)[..16] == c && (c + rest)[16..] == rest;
      assert s == s[..16] + s[16..];
    }
  }

  // Block j of the ciphertext, section 6.2 of NIST SP 800-38A.
  lemma {:induction false} CbcBlock(s: seq<bv8>, enc: Cipher, iv: Block, j: nat)
    requires |s| % 16 == 0 && 16 * j + 16 <= |s|
    ensures var c := CbcEnc(s, enc, iv);
            c[16 * j..16 * j + 16] == enc(Xored(s[16 * j..16 * j + 16], if j == 0 then iv else c[16 * j - 16..16 * j]))
  {
    var first := enc(Xored(s[..16], iv));
    var rest: seq<bv8> := CbcEnc(s[16..], enc, first);
    assert CbcEnc(s, enc, iv) == first + rest;
    if j > 0 {
      CbcBlock(s[16..], enc, first, j - 1);
      assert s[16..][16 * (j - 1)..16 * (j - 1) + 16] == s[16 * j..16 * j + 16];
      assert (first + rest)[16 * j..16 * j + 16] == rest[16 * (j - 1)..16 * (j - 1) + 16];
      if j > 1 {
        assert (first + rest)[16 * j - 16..16 * j] == rest[16 * (j - 1) - 16..16 * (j - 1)];
      }
    }
  }

  lemma {:induction false} MacIsLastBlock(s: seq<bv8>, enc: Cipher, iv: Block)
    requires |s| % 16 == 0 && |s| >= 16
    ensures CbcMac(s, enc, iv) == CbcEnc(s, enc, iv)[|s| - 16..]
  {
    var c := enc(Xored(s[..16], iv));
    if |s| > 16 {
      MacIsLastBlock(s[16..], enc, c);
    }
  }

  lemma CbcEncStep(s: seq<bv8>, enc: Cipher, iv: Block, at: nat, done: seq<bv8>, chain: Block, c: Block)
    requires at + 16 <= |s| && c == enc(Xored(s[at..at + 16], chain))
    requires EncReached(s, enc, iv, at, done, chain)
    ensures EncReached(s, enc, iv, at + 16, done + c, c)
  {
    assert s[at..][..16] == s[at..at + 16] && s[at..][16..] == s[at + 16..];
    assert done + c + CbcEnc(s[at + 16..], enc, c) == done + (c + CbcEnc(s[at + 16..], enc, c));
  }

  lemma CbcEmpty(s: seq<bv8>, enc: Cipher, iv: Block)
    requires |s| == 0
    ensures CbcEnc(s, enc, iv) == [] && CbcDec(s, enc, iv) == []
  {
  }

  // Buffers during a chaining loop that has reached `at`.
  predicate Reached(was: seq<bv8>, now: seq<bv8>, at: nat, done: seq<bv8>)
  {
    at == |done| <= |was| == |now| && now[..at] == done && now[at..] == was[at..]
  }

  lemma ReachedStep(was: seq<bv8>, now: seq<bv8>, at: nat, done: seq<bv8>, piece: seq<bv8>)
    requires Reached(was, now, at, done) && at + |piece| <= |was|
    ensures Reached(was, Patched(now, at, piece), at + |piece|, done + piece)
  {
    var next := Patched(now, at, piece);
    assert next[..at + |piece|] == done + piece;
    assert next[at + |piece|..] == now[at..][|piece|..] == was[at..][|piece|..];
  }

  lemma ReachedEnds(was: seq<bv8>, now: seq<bv8>, at: nat, done: seq<bv8>)
    ensures Reached(was, was, 0, [])
    ensures Reached(was, now, at, done) ==> |done| <= |was| && now == Patched(was, 0, done)
  {
    assert was[..0] == [] && was[0..] == was;
    if Reached(was, now, at, done) {
      assert now == now[..at] + now[at..];
    }
  }

  lemma Window(a: seq<bv8>, b: seq<bv8>, at: nat)
    requires at + 16 <= |b| <= |a| && a[at..|b|] == b[at..]
    ensures a[at..at + 16] == b[at..at + 16] && a[at + 16..|b|] == b[at + 16..]
  {
    assert a[at..at + 16] == a[at..|b|][..16];
    assert a[at + 16..|b|] == a[at..|b|][16..];
  }

  lemma TailKept(a: seq<bv8>, a': seq<bv8>, b: seq<bv8>, at: nat)
    requires at + 16 <= |b| <= |a| == |a'| && a'[at + 16..] == a[at + 16..] && a[at..|b|] == b[at..]
    ensures a'[at + 16..|b|] == b[at + 16..]
  {
    assert a'[at + 16..|b|] == a'[at + 16..][..|b| - at - 16];
    assert a[at + 16..|b|] == a[at + 16..][..|b| - at - 16];
    assert a[at..|b|][16..] == b[at..][16..];
  }

  // One pass of the encryption loop; the rest of the input is untouched
  // even when it is read from the output buffer.
  method EncryptBlock(input: array<bv8>, out: array<bv8>, at: nat, k: Key, chain: Block) returns (cipher: Block)
    requires Fits(k) && at + 16 <= input.Length && at + 16 <= out.Length
    modifies out
    ensures cipher == Encipher(k)(Xored(old(input[at..at + 16]), chain))
    ensures out[..] == Patched(old(out[..]), at, cipher)
    ensures input[..][at + 16..] == old(input[..])[at + 16..]
  {
    hide Encrypt, Xored;
    cipher := AesEncrypt(Xored(input[at..at + 16], chain), k.words, k.keysize);
    CopyIn(out, at, cipher);
  }

  ghost predicate EncReached(s: seq<bv8>, enc: Cipher, iv: Block, at: nat, done: seq<bv8>, chain: Block)
  {
    at <= |s| && done + CbcEnc(s[at..], enc, chain) == CbcEnc(s, enc, iv)
  }

  lemma EncReachedEnds(s: seq<bv8>, enc: Cipher, iv: Block, done: seq<bv8>, chain: Block)
    ensures EncReached(s, enc, iv, 0, [], iv)
    ensures EncReached(s, enc, iv, |s|, done, chain) ==> done == CbcEnc(s, enc, iv)
  {
    assert s[0..] == s && s[|s|..] == [];
    CbcEmpty([], enc, chain);
  }

  method EncryptBlocks(input: array<bv8>, len: nat, out: array<bv8>, k: Key, iv: Block)
    requires Fits(k) && len <= input.Length && len <= out.Length && len % 16 == 0
    modifies out
    ensures out[..] == Patched(old(out[..]), 0, CbcEnc(old(input[..len]), Encipher(k), iv))
  {
    hide Encrypt, Encipher, CbcEnc, Reached, EncReached, Patched, Xored, Fits;
    ghost var plain, enc, was, done := input[..len], Encipher(k), out[..], [];
    ReachedEnds(was, was, 0, done);
    EncReachedEnds(plain, enc, iv, done, iv);
    var blocks, chain, idx := len / 16, iv, 0;
    while idx < blocks
      invariant 0 <= idx <= blocks
      invariant input[..][16 * idx..len] == plain[16 * idx..]
      invariant EncReached(plain, enc, iv, 16 * idx, done, chain)
      invariant Reached(was, out[..], 16 * idx, done)
    {
      Window(input[..], plain, 16 * idx);
      ghost var now, before := out[..], input[..];
      var cipher := EncryptBlock(input, out, 16 * idx, k, chain);
      ReachedStep(was, now, 16 * idx, done, cipher);
      CbcEncStep(plain, enc, iv, 16 * idx, done, chain, cipher);
      TailKept(before, input[..], plain, 16 * idx);
      done, chain, idx := done + cipher, cipher, idx + 1;
    }
    ReachedEnds(was, out[..], len, done);
    EncReachedEnds(plain, enc, iv, done, chain);
  }

  method EncryptCbc(input: array<bv8>, len: nat, out: array<bv8>, k: Key, iv: Block) returns (ok: bool)
    requires Fits(k) && len <= input.Length && len <= out.Length
    modifies out
    ensures ok == (len % 16 == 0)
    ensures ok ==> out[..] == Patched(old(out[..]), 0, CbcEnc(old(input[..len]), Encipher(k), iv))
    ensures !ok ==> out[..] == old(out[..])
  {
    hide *;
    if len % 16 != 0 {
      return false;
    }
    EncryptBlocks(input, len, out, k, iv);
    return true;
  }

  // ----- Chained decryption -----

  ghost predicate DecReached(s: seq<bv8>, dec: Cipher, iv: Block, at: nat, done: seq<bv8>, chain: Block)
  {
    at <= |s| && done + CbcDec(s[at..], dec, chain) == CbcDec(s, dec, iv)
  }

  lemma DecReachedEnds(s: seq<bv8>, dec: Cipher, iv: Block, done: seq<bv8>, chain: Block)
    ensures DecReached(s, dec, iv, 0, [], iv)
    ensures DecReached(s, dec, iv, |s|, done, chain) ==> done == CbcDec(s, dec, iv)
  {
    assert s[0..] == s && s[|s|..] == [];
    CbcEmpty([], dec, chain);
  }

  lemma CbcDecStep(s: seq<bv8>, dec: Cipher, iv: Block, at: nat, done: seq<bv8>, chain: Block, c: Block, p: Block)
    requires at + 16 <= |s| && c == s[at..at + 16] && p == Xored(dec(c), chain)
    requires DecReached(s, dec, iv, at, done, chain)
    ensures DecReached(s, dec, iv, at + 16, done + p, c)
  {
    assert s[at..][..16] == c && s[at..][16..] == s[at + 16..];
    assert done + p + CbcDec(s[at + 16..], dec, c) == done + (p + CbcDec(s[at + 16..], dec, c));
  }

  method DecryptBlock(input: array<bv8>, out: array<bv8>, at: nat, k: Key, chain: Block) returns (cipher: Block, ghost plain: Block)
    requires FitsBack(k) && at + 16 <= input.Length && at + 16 <= out.Length
    modifies out
    ensures cipher == old(input[at..at + 16]) && plain == Xored(Decipher(k)(cipher), chain)
    ensures out[..] == Patched(old(out[..]), at, plain)
    ensures input[..][at + 16..] == old(input[..])[at + 16..]
  {
    hide Decrypt, Xored;
    cipher := input[at..at + 16];
    var block := AesDecrypt(cipher, k.words, k.keysize);
    CopyIn(out, at, Xored(block, chain));
    plain := Xored(block, chain);
  }

  method DecryptBlocks(input: array<bv8>, len: nat, out: array<bv8>, k: Key, iv: Block)
    requires FitsBack(k) && len <= input.Length && len <= out.Length && len % 16 == 0
    modifies out
    ensures out[..] == Patched(old(out[..]), 0, CbcDec(old(input[..len]), Decipher(k), iv))
  {
    hide Decrypt, Decipher, CbcDec, Reached, DecReached, Patched, Xored, FitsBack;
    ghost var cipher, dec, was, done := input[..len], Decipher(k), out[..], [];
    ReachedEnds(was, was, 0, done);
    DecReachedEnds(cipher, dec, iv, done, iv);
    var blocks, chain, idx := len / 16, iv, 0;
    while idx < blocks
      invariant 0 <= idx <= blocks
      invariant input[..][16 * idx..len] == cipher[16 * idx..]
      invariant DecReached(cipher, dec, iv, 16 * idx, done, chain)
      invariant Reached(was, out[..], 16 * idx, done)
    {
      Window(input[..], cipher, 16 * idx);
      ghost var now, before := out[..], input[..];
      var next, plain := DecryptBlock(input, out, 16 * idx, k, chain);
      ReachedStep(was, now, 16 * idx, done, plain);
      CbcDecStep(cipher, dec, iv, 16 * idx, done, chain, next, plain);
      TailKept(before, input[..], cipher, 16 * idx);
      done, chain, idx := done + plain, next, idx + 1;
    }
    ReachedEnds(was, out[..], len, done);
    DecReachedEnds(cipher, dec, iv, done, chain);
  }

  method DecryptCbc(input: array<bv8>, len: nat, out: array<bv8>, k: Key, iv: Block) returns (ok: bool)
    requires FitsBack(k) && len <= input.Length && len <= out.Length
    modifies out
    ensures ok == (len % 16 == 0)
    ensures ok ==> out[..] == Patched(old(out[..]), 0, CbcDec(old(input[..len]), Decipher(k), iv))
    ensures !ok ==> out[..] == old(out[..])
  {
    hide *;
    if len % 16 != 0 {
      return false;
    }
    DecryptBlocks(input, len, out, k, iv);
    return true;
  }

  // Encrypting a buffer in place and decrypting it again restores it.
  method CbcThereAndBack(buf: array<bv8>, len: nat, k: Key, iv: Block) returns (ok: bool)
    requires Agrees(k) && len <= buf.Length
    modifies buf
    ensures ok == (len % 16 == 0) && buf[..] == old(buf[..])
  {
    hide Encipher, Decipher, Inverts, CbcEnc, CbcDec, Agrees, Fits, FitsBack, Patched;
    ghost var was := buf[..];
    AgreesFits(k);
    ok := EncryptCbc(buf, len, buf, k, iv);
    if ok {
      PatchedFront(was, CbcEnc(was[..len], Encipher(k), iv), was[..len]);
      DecipherInverts(k);
      CbcRoundTrip(was[..len], Encipher(k), Decipher(k), iv);
      var back := DecryptCbc(buf, len, buf, k, iv);
    }
  }

  lemma AgreesFits(k: Key)
    requires Agrees(k)
    ensures Fits(k)
  {
  }

  lemma PatchedFront(s: seq<bv8>, p: seq<bv8>, q: seq<bv8>)
    requires |p| == |q| <= |s|
    ensures Patched(s, 0, p)[..|p|] == p && Patched(Patched(s, 0, p), 0, q) == Patched(s, 0, q)
    ensures s[..|p|] == q ==> Patched(s, 0, q) == s
  {
    var t := Patched(s, 0, p);
    assert t[|p|..] == s[|p|..];
    assert s == s[..|p|] + s[|p|..];
  }

  // ----- Message authentication -----

  method MacBlock(block: seq<bv8>, k: Key, chain: Block) returns (cipher: Block)
    requires Fits(k) && |block| == 16
    ensures cipher == Encipher(k)(Xored(block, chain))
  {
    hide Encrypt, Xored;
    cipher := AesEncrypt(Xored(block, chain), k.words, k.keysize);
  }

  ghost predicate MacReached(s: seq<bv8>, enc: Cipher, iv: Block, at: nat, chain: Block)
  {
    at <= |s| && CbcMac(s[at..], enc, chain) == CbcMac(s, enc, iv)
  }

  lemma MacStep(s: seq<bv8>, enc: Cipher, iv: Block, at: nat, chain: Block)
    requires at + 16 <= |s| && MacReached(s, enc, iv, at, chain)
    ensures MacReached(s, enc, iv, at + 16, enc(Xored(s[at..at + 16], chain)))
  {
    assert s[at..][..16] == s[at..at + 16] && s[at..][16..] == s[at + 16..];
  }

  lemma MacEnds(s: seq<bv8>, enc: Cipher, iv: Block, chain: Block)
    requires |s| % 16 == 0
    ensures MacReached(s, enc, iv, 0, iv)
    ensures MacReached(s, enc, iv, |s|, chain) ==> chain == CbcMac(s, enc, iv)
    ensures |s| >= 16 ==> CbcMac(s, enc, iv) == CbcEnc(s, enc, iv)[|s| - 16..]
  {
    assert s[0..] == s && s[|s|..] == [];
    if |s| >= 16 {
      MacIsLastBlock(s, enc, iv);
    }
  }

  // `last` stands for whatever the unset output block holds at the start: it is
  // what an empty input returns.
  method EncryptCbcMac(input: seq<bv8>, k: Key, iv: Block, last: Block) returns (ok: bool, mac: Block)
    requires Fits(k)
    ensures ok == (|input| % 16 == 0)
    ensures ok && |input| >= 16 ==> mac == CbcEnc(input, Encipher(k), iv)[|input| - 16..]
    ensures ok && |input| >= 16 ==> mac == CbcMac(input, Encipher(k), iv)
    ensures !ok || |input| == 0 ==> mac == last
  {
    hide Encipher, Encrypt, CbcEnc, CbcMac, Xored, Fits;
    mac := last;
    if |input| % 16 != 0 {
      return false, mac;
    }
    ghost var enc := Encipher(k);
    var blocks, chain, idx := |input| / 16, iv, 0;
    MacEnds(input, enc, iv, iv);
    while idx < blocks
      invariant 0 <= idx <= blocks
      invariant MacReached(input, enc, iv, 16 * idx, chain)
      invariant if idx > 0 then mac == chain else mac == last
    {
      MacStep(input, enc, iv, 16 * idx, chain);
      mac := MacBlock(input[16 * idx..16 * idx + 16], k, chain);
      chain := mac;
      idx := idx + 1;
    }
    MacEnds(input, enc, iv, chain);
    return true, mac;
  }

  // ----- Counters -----

  // Big-endian value of a byte string.
  function Value(s: seq<bv8>): (v: nat)
  {
    if s == [] then 0 else Value(s[..|s| - 1]) * 256 + s[|s| - 1] as int
  }

  function Pow256(n: nat): (p: nat)
    ensures p > 0
  {
    if n == 0 then 1 else Pow256(n - 1) * 256
  }

  // The next byte string in counting order, back to zero after the last.
  function Next(s: seq<bv8>): (r: seq<bv8>)
    ensures |r| == |s|
  {
    if s == [] then []
    else if s[|s| - 1] == 255 then Next(s[..|s| - 1]) + [0]
    else s[..|s| - 1] + [s[|s| - 1] + 1]
  }

  // Counts in the last `n` bytes only; nothing happens when there are none.
  function NextIn(b: Block, n: int): (r: Block)
    requires n <= 16
  {
    if n <= 0 then b else b[..16 - n] + Next(b[16 - n..])
  }

  lemma {:induction false} ValueBound(s: seq<bv8>)
    ensures Value(s) < Pow256(|s|)
  {
    if s != [] {
      ValueBound(s[..|s| - 1]);
    }
  }

  lemma ByteStep(x: bv8)
    ensures x == 255 ==> x as int == 255
    ensures x != 255 ==> x as int < 255 && (x + 1) as int == x as int + 1
  {
  }

  lemma SmallMod(a: nat, m: nat)
    requires a < m
    ensures a % m == a
  {
  }

  lemma SelfMod(m: nat)
    requires m > 0
    ensures m % m == 0
  {
  }

  // v + 1 modulo m, for v below m.
  function Bump(v: nat, m: nat): (r: nat)
    requires v < m
    ensures r == (v + 1) % m
  {
    if v + 1 == m then SelfMod(m); 0 else SmallMod(v + 1, m); v + 1
  }

  lemma ValueAppend(front: seq<bv8>, last: bv8)
    ensures Value(front + [last]) == Value(front) * 256 + last as int
    ensures Next(front + [last]) == if last == 255 then Next(front) + [0] else front + [last + 1]
    ensures Pow256(|front| + 1) == Pow256(|front|) * 256
  {
    assert (front + [last])[..|front|] == front;
  }

  // `Next` adds one modulo 256 to the number of bytes.
  lemma {:induction false} NextAddsOne(s: seq<bv8>)
    ensures Value(s) < Pow256(|s|) && Value(Next(s)) == Bump(Value(s), Pow256(|s|))
  {
    ValueBound(s);
    if s != [] {
      var front, last := s[..|s| - 1], s[|s| - 1];
      assert s == front + [last];
      NextAddsOne(front);
      NextAppend(front, last);
    }
  }

  lemma NextAppend(front: seq<bv8>, last: bv8)
    requires Value(front) < Pow256(|front|) && Value(Next(front)) == Bump(Value(front), Pow256(|front|))
    ensures Value(front + [last]) < Pow256(|front| + 1)
    ensures Value(Next(front + [last])) == Bump(Value(front + [last]), Pow256(|front| + 1))
  {
    hide Value, Next, Pow256;
    ValueAppend(front, last);
    ValueAppend(front, last + 1);
    ValueAppend(Next(front), 0);
    ByteStep(last);
  }

  lemma {:induction false} ValueDetermines(s: seq<bv8>, t: seq<bv8>)
    requires |s| == |t| && Value(s) == Value(t)
    ensures s == t
  {
    if s != [] {
      var x, y := s[|s| - 1], t[|t| - 1];
      BytesFromValues(Value(s[..|s| - 1]), x, Value(t[..|t| - 1]), y);
      ValueDetermines(s[..|s| - 1], t[..|t| - 1]);
      assert s == s[..|s| - 1] + [x] && t == t[..|t| - 1] + [y];
    }
  }

  lemma BytesFromValues(v: nat, x: bv8, w: nat, y: bv8)
    requires v * 256 + x as int == w * 256 + y as int
    ensures v == w && x == y
  {
    assert 0 <= x as int < 256 && 0 <= y as int < 256;
    assert v == w;
    assert x == (x as int) as bv8 && y == (y as int) as bv8;
  }
}
