/**
  * Counter mode: the carry loop that steps the counter block, and encryption
  * of buffers of any length, which is its own inverse.
  */
module CounterMode {
  import opened AesTables
  import opened Aes
  import opened BlockModes

  // ----- The counter -----

  // The iv after i steps over the whole block.
  function CounterBlock(iv: Block, i: nat): (b: Block)
  {
    if i == 0 then iv else NextIn(CounterBlock(iv, i - 1), 16)
  }

  lemma NextInAddsOne(b: Block)
    ensures Value(b) < Pow256(16) && Value(NextIn(b, 16)) == Bump(Value(b), Pow256(16))
  {
    assert b[..0] + Next(b[0..]) == Next(b);
    NextAddsOne(b);
  }

  lemma MulAtLeast(k: int, m: nat)
    requires k >= 1
    ensures k * m >= m
  {
  }

  lemma MulSpread(a: int, b: int, m: int)
    ensures (a - b) * m == a * m - b * m
  {
  }

  lemma ModIs(a: nat, q: nat, r: nat, m: nat)
    requires r < m && a == q * m + r
    ensures a % m == r
  {
    var d, e := a / m, a % m;
    assert a == d * m + e;
    MulSpread(d, q, m);
    MulSpread(q, d, m);
    if d > q {
      MulAtLeast(d - q, m);
    } else if q > d {
      MulAtLeast(q - d, m);
    }
  }

  lemma Wraps(a: nat, m: nat)
    requires m > 0
    ensures Bump(a % m, m) == (a + 1) % m
  {
    var q, r := a / m, a % m;
    assert a == q * m + r;
    if r + 1 == m {
      MulSpread(q, -1, m);
      ModIs(a + 1, q + 1, 0, m);
    } else {
      ModIs(a + 1, q, r + 1, m);
    }
  }

  // Block i of the key stream is made from the iv plus i, modulo 2^128.
  lemma {:induction false} CounterBlockValue(iv: Block, i: nat)
    ensures Value(CounterBlock(iv, i)) == (Value(iv) + i) % Pow256(16)
  {
    NextInAddsOne(iv);
    if i == 0 {
      hide Value, Pow256;
      SmallMod(Value(iv), Pow256(16));
    } else {
      hide Value, Pow256, NextIn;
      CounterBlockValue(iv, i - 1);
      NextInAddsOne(CounterBlock(iv, i - 1));
      Wraps(Value(iv) + i - 1, Pow256(16));
    }
  }

  lemma {:induction false} CounterBlockShift(iv: Block, i: nat)
    ensures CounterBlock(NextIn(iv, 16), i) == CounterBlock(iv, i + 1)
  {
    hide NextIn;
    if i > 0 {
      CounterBlockShift(iv, i - 1);
    }
  }

  // The carry has reached byte `idx` of an n-byte counter.
  ghost predicate CarryAt(was: Block, iv: Block, n: int, idx: int)
  {
    0 < n <= 16 && 16 - n <= idx <= 15 && iv[..idx + 1] == was[..idx + 1]
    && Next(was[16 - n..]) == Next(was[16 - n..idx + 1]) + iv[idx + 1..]
  }

  lemma CarryStarts(was: Block, n: int)
    requires 0 < n <= 16
    ensures CarryAt(was, was, n, 15)
  {
    assert was[16 - n..16] == was[16 - n..];
  }

  lemma WrapsAt255(x: bv8)
    ensures x + 1 == 0 <==> x == 255
  {
  }

  lemma NextLast(front: seq<bv8>, last: bv8)
    ensures Next(front + [last]) == (if last == 255 then Next(front) else front) + [last + 1]
  {
    assert (front + [last])[..|front|] == front;
  }

  // The bytes before and after the one the carry has reached.
  lemma CarrySplits(was: Block, iv: Block, n: int, idx: int)
    requires CarryAt(was, iv, n, idx)
    ensures var front, b := was[16 - n..idx], was[idx];
            Next(was[16 - n..]) == (if b == 255 then Next(front) else front) + ([b + 1] + iv[idx + 1..])
  {
    var front, b := was[16 - n..idx], was[idx];
    assert was[16 - n..idx + 1] == front + [b];
    NextLast(front, b);
  }

  lemma Stepped(was: Block, iv: Block, idx: int, b: bv8)
    requires 0 <= idx <= 15 && iv[..idx + 1] == was[..idx + 1]
    ensures var after := iv[idx := b];
            after[..idx] == was[..idx] && after[idx..] == [b] + iv[idx + 1..]
  {
    assert iv[..idx] == iv[..idx + 1][..idx] == was[..idx + 1][..idx] == was[..idx];
  }

  lemma CarryEnds(was: Block, iv: Block, n: int, idx: int)
    requires CarryAt(was, iv, n, idx) && (was[idx] != 255 || idx == 16 - n)
    ensures iv[idx := was[idx] + 1] == NextIn(was, n)
  {
    hide Next;
    var front, b := was[16 - n..idx], was[idx];
    CarrySplits(was, iv, n, idx);
    Stepped(was, iv, idx, b + 1);
    EmptyNext(front);
    var after := iv[idx := b + 1];
    Regrouped(was, after, 16 - n, idx);
  }

  lemma Regrouped(was: seq<bv8>, after: seq<bv8>, at: nat, idx: nat)
    requires at <= idx <= |was| == |after| && after[..idx] == was[..idx]
    ensures after == was[..at] + (was[at..idx] + after[idx..])
  {
    assert was[..idx] == was[..at] + was[at..idx];
    assert after == after[..idx] + after[idx..];
  }

  lemma CarryGoesOn(was: Block, iv: Block, n: int, idx: int)
    requires CarryAt(was, iv, n, idx) && was[idx] == 255 && idx != 16 - n
    ensures CarryAt(was, iv[idx := was[idx] + 1], n, idx - 1)
  {
    hide Next;
    CarrySplits(was, iv, n, idx);
    Stepped(was, iv, idx, was[idx] + 1);
  }

  lemma CarryStep(was: Block, iv: Block, n: int, idx: int)
    requires CarryAt(was, iv, n, idx)
    ensures var after := iv[idx := was[idx] + 1];
            if was[idx] != 255 || idx == 16 - n then after == NextIn(was, n) else CarryAt(was, after, n, idx - 1)
  {
    if was[idx] != 255 || idx == 16 - n {
      CarryEnds(was, iv, n, idx);
    } else {
      CarryGoesOn(was, iv, n, idx);
    }
  }

  lemma EmptyNext(s: seq<bv8>)
    ensures s == [] ==> Next(s) == s
  {
  }

  // Carries leftwards until a byte does not wrap or the counter ends.
  method IncrementIv(iv: array<bv8>, counterSize: int)
    requires iv.Length == 16 && counterSize <= 16
    modifies iv
    ensures iv[..] == NextIn(old(iv[..]), counterSize)
  {
    hide CarryAt, Next;
    ghost var was := iv[..];
    if counterSize > 0 {
      CarryStarts(was, counterSize);
    }
    var idx := 15;
    while idx >= 16 - counterSize
      invariant counterSize > 0 ==> 16 - counterSize <= idx <= 15 && CarryAt(was, iv[..], counterSize, idx)
      invariant counterSize > 0 ==> iv[idx] == was[idx]
      invariant counterSize <= 0 ==> idx == 15 && iv[..] == was
      decreases idx
    {
      CarryStep(was, iv[..], counterSize, idx);
      WrapsAt255(iv[idx]);
      iv[idx] := iv[idx] + 1;
      if iv[idx] != 0 || idx == 16 - counterSize {
        break;
      }
      idx := idx - 1;
      assert iv[idx] == was[idx] by { CarryKeeps(was, iv[..], counterSize, idx); }
    }
  }

  lemma CarryKeeps(was: Block, iv: Block, n: int, idx: int)
    requires CarryAt(was, iv, n, idx)
    ensures iv[idx] == was[idx]
  {
    assert iv[..idx + 1][idx] == was[..idx + 1][idx];
  }

  // ----- Encryption -----

  function Ctr(s: seq<bv8>, enc: Cipher, iv: Block): (r: seq<bv8>)
    ensures |r| == |s|
  {
    if |s| <= 16 then Xored(s, enc(iv)) else Xored(s[..16], enc(iv)) + Ctr(s[16..], enc, NextIn(iv, 16))
  }

  // Byte j of the result, section 6.5 of NIST SP 800-38A.
  lemma {:induction false} CtrAt(s: seq<bv8>, enc: Cipher, iv: Block, j: nat)
    requires j < |s|
    ensures Ctr(s, enc, iv)[j] == Xor(s[j], enc(CounterBlock(iv, j / 16))[j % 16])
  {
    hide Xor, NextIn;
    if j >= 16 {
      CtrAt(s[16..], enc, NextIn(iv, 16), j - 16);
      CounterBlockShift(iv, j / 16 - 1);
    }
  }

  lemma {:induction false} CtrTwice(s: seq<bv8>, enc: Cipher, iv: Block)
    ensures Ctr(Ctr(s, enc, iv), enc, iv) == s
  {
    hide Xored, NextIn;
    if |s| <= 16 {
      XoredTwice(s, enc(iv));
    } else {
      var first: seq<bv8> := Xored(s[..16], enc(iv));
      var rest: seq<bv8> := Ctr(s[16..], enc, NextIn(iv, 16));
      assert (first + rest)[..16] == first && (first + rest)[16..] == rest;
      XoredTwice(s[..16], enc(iv));
      CtrTwice(s[16..], enc, NextIn(iv, 16));
      assert s == s[..16] + s[16..];
    }
  }

  // `done` and what counter `c` makes of the rest is the whole result.
  ghost predicate CtrReached(s: seq<bv8>, enc: Cipher, iv: Block, idx: nat, done: seq<bv8>, c: Block)
  {
    idx == |done| <= |s| && done + Ctr(s[idx..], enc, c) == Ctr(s, enc, iv)
  }

  lemma CtrStarts(s: seq<bv8>, enc: Cipher, iv: Block)
    ensures CtrReached(s, enc, iv, 0, [], iv)
  {
    assert s[0..] == s;
  }

  lemma CtrStep(s: seq<bv8>, enc: Cipher, iv: Block, idx: nat, done: seq<bv8>, c: Block)
    requires CtrReached(s, enc, iv, idx, done, c) && idx + 16 < |s|
    ensures CtrReached(s, enc, iv, idx + 16, done + Xored(s[idx..idx + 16], enc(c)), NextIn(c, 16))
  {
    var x, rest: seq<bv8> := Xored(s[idx..idx + 16], enc(c)), Ctr(s[idx + 16..], enc, NextIn(c, 16));
    assert s[idx..][..16] == s[idx..idx + 16] && s[idx..][16..] == s[idx + 16..];
    assert done + (x + rest) == done + x + rest;
  }

  lemma CtrLast(s: seq<bv8>, enc: Cipher, iv: Block, idx: nat, done: seq<bv8>, c: Block)
    requires CtrReached(s, enc, iv, idx, done, c) && |s| <= idx + 16
    ensures Ctr(s, enc, iv) == done + Xored(s[idx..], enc(c))
  {
  }

  // The buffer with `done` in place of the first bytes of its window.
  predicate CtrBuffer(was: seq<bv8>, now: seq<bv8>, at: nat, s: seq<bv8>, done: seq<bv8>)
  {
    |done| <= |s| && at + |s| <= |was| == |now| && now == Patched(was, at, done + s[|done|..])
  }

  lemma BufferStarts(was: seq<bv8>, at: nat, s: seq<bv8>)
    requires at + |s| <= |was| && s == was[at..at + |s|]
    ensures CtrBuffer(was, was, at, s, [])
  {
    assert was == was[..at] + s + was[at + |s|..];
  }

  lemma BufferStep(was: seq<bv8>, now: seq<bv8>, at: nat, s: seq<bv8>, done: seq<bv8>, m: nat, mask: seq<bv8>)
    requires CtrBuffer(was, now, at, s, done) && |done| + m <= |s| && m <= |mask|
    ensures var lo := at + |done|;
            now[lo..lo + m] == s[|done|..|done| + m]
            && CtrBuffer(was, Patched(now, lo, Xored(now[lo..lo + m], mask)), at, s, done + Xored(s[|done|..|done| + m], mask))
  {
    hide Xored;
    var lo := at + |done|;
    assert now[lo..lo + m] == s[|done|..|done| + m];
    var x: seq<bv8> := Xored(now[lo..lo + m], mask);
    BufferPatch(was, now, at, s, done, x);
  }

  lemma BufferPatch(was: seq<bv8>, now: seq<bv8>, at: nat, s: seq<bv8>, done: seq<bv8>, x: seq<bv8>)
    requires CtrBuffer(was, now, at, s, done) && |done| + |x| <= |s|
    ensures CtrBuffer(was, Patched(now, at + |done|, x), at, s, done + x)
  {
    var next := Patched(now, at + |done|, x);
    var goal := Patched(was, at, done + x + s[|done| + |x|..]);
    forall i | 0 <= i < |was|
      ensures next[i] == goal[i]
    {
    }
  }

  lemma BufferEnds(was: seq<bv8>, now: seq<bv8>, at: nat, s: seq<bv8>, done: seq<bv8>)
    requires CtrBuffer(was, now, at, s, done) && |done| == |s|
    ensures now == Patched(was, at, done)
  {
    assert done + s[|done|..] == done;
  }

  method Mask(iv: array<bv8>, k: Key) returns (mask: Block)
    requires Fits(k) && iv.Length == 16
    ensures mask == Encipher(k)(iv[..])
  {
    hide Encrypt;
    mask := AesEncrypt(iv[..], k.words, k.keysize);
  }

  method CtrInPlace(out: array<bv8>, at: nat, len: nat, k: Key, iv: Block)
    requires Fits(k) && at + len <= out.Length
    modifies out
    ensures out[..] == Patched(old(out[..]), at, Ctr(old(out[at..at + len]), Encipher(k), iv))
  {
    hide Encipher, Fits, CtrReached, CtrBuffer, Patched, Xored, Ctr, NextIn;
    var ivBuf := new bv8[16](i requires 0 <= i < 16 => iv[i]);
    assert ivBuf[..] == iv;
    ghost var was, s, enc, done := out[..], out[at..at + len], Encipher(k), [];
    BufferStarts(was, at, s);
    CtrStarts(s, enc, iv);
    var idx := 0;
    if len > 16 {
      while idx < len - 16
        invariant 0 <= idx < len && idx == |done|
        invariant CtrBuffer(was, out[..], at, s, done)
        invariant CtrReached(s, enc, iv, idx, done, ivBuf[..])
        decreases len - idx
      {
        var mask := Mask(ivBuf, k);
        BufferStep(was, out[..], at, s, done, 16, mask);
        CtrStep(s, enc, iv, idx, done, ivBuf[..]);
        done := done + Xored(s[idx..idx + 16], mask);
        XorBuf(mask, out, at + idx, 16);
        IncrementIv(ivBuf, 16);
        idx := idx + 16;
      }
    }
    var mask := Mask(ivBuf, k);
    BufferStep(was, out[..], at, s, done, len - idx, mask);
    CtrLast(s, enc, iv, idx, done, ivBuf[..]);
    XorBuf(mask, out, at + idx, len - idx);
    assert s[idx..] == s[idx..len];
    BufferEnds(was, out[..], at, s, done + Xored(s[idx..], mask));
  }

  // `aes_encrypt_ctr`, and `aes_decrypt_ctr`, which calls it.
  method EncryptCtr(input: array<bv8>, len: nat, out: array<bv8>, k: Key, iv: Block)
    requires Fits(k) && len <= input.Length && len <= out.Length
    modifies out
    ensures out[..] == Patched(old(out[..]), 0, Ctr(old(input[..len]), Encipher(k), iv))
  {
    hide Encipher, Fits, Ctr, Patched;
    ghost var was, s := out[..], input[..len];
    if input != out {
      CopyIn(out, 0, input[..len]);
      PatchedFront(was, s, Ctr(s, Encipher(k), iv));
    }
    assert out[0..len] == s;
    CtrInPlace(out, 0, len, k, iv);
  }

  // Encrypting twice restores every buffer.
  method CtrThereAndBack(buf: array<bv8>, len: nat, k: Key, iv: Block)
    requires Fits(k) && len <= buf.Length
    modifies buf
    ensures buf[..] == old(buf[..])
  {
    hide Encipher, Fits, Ctr, Patched;
    ghost var was := buf[..];
    EncryptCtr(buf, len, buf, k, iv);
    PatchedFront(was, Ctr(was[..len], Encipher(k), iv), was[..len]);
    CtrTwice(was[..len], Encipher(k), iv);
    EncryptCtr(buf, len, buf, k, iv);
  }
}
