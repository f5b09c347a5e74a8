/**
  * Counter with CBC-MAC: formatting, sealing and opening of messages. Opening
  * what was sealed gives the payload back and accepts its code.
  */
module Ccm {
  import opened Bytes
  import opened AesTables
  import opened Aes
  import opened BlockModes
  import opened CounterMode

  // ----- Formatting -----

  // `(macLen - 2) / 2 & 7` with division that truncates toward zero.
  function MacField(macLen: nat): (f: nat)
    ensures f < 8
  {
    if macLen == 0 then 7 else if macLen == 1 then 0 else (macLen - 2) / 2 % 8
  }

  // `(payload_len_store_size - 1) & 7`, the store size being 15 less the nonce.
  function StoreField(nonce: seq<bv8>): (f: nat)
    ensures f < 8
  {
    (14 - |nonce|) % 8
  }

  function FirstCounter(nonce: seq<bv8>): (b: Block)
    requires |nonce| <= 15
  {
    [ByteOf(StoreField(nonce))] + nonce + Zeros(15 - |nonce|)
  }

  function Flags(hasAssoc: bool, macLen: nat, nonce: seq<bv8>): (f: nat)
    ensures f < 128
  {
    MacField(macLen) * 8 + StoreField(nonce) + if hasAssoc then 64 else 0
  }

  function FirstFormat(hasAssoc: bool, payloadLen: nat, macLen: nat, nonce: seq<bv8>): (b: Block)
    requires |nonce| <= 15
  {
    ([ByteOf(Flags(hasAssoc, macLen, nonce))] + nonce + Zeros(15 - |nonce|))
    [15 := ByteOf(payloadLen)][14 := ByteOf(payloadLen / 256)]
  }

  // The flags of the first block, appendix A.2.1 of NIST SP 800-38C: a bit for
  // associated data, three bits for half the code length less one, and three
  // for one less than the bytes a payload length may take.
  lemma FlagsAre(hasAssoc: bool, macLen: nat, nonce: seq<bv8>)
    requires macLen in {4, 6, 8, 10, 12, 14, 16} && 7 <= |nonce| <= 13
    ensures var f := Flags(hasAssoc, macLen, nonce);
            && (f / 64 == if hasAssoc then 1 else 0)
            && 2 * (f / 8 % 8 + 1) == macLen && f % 8 + 1 == 15 - |nonce|
  {
    var half, rest := MacField(macLen), StoreField(nonce);
    assert 2 * (half + 1) == macLen && rest + 1 == 15 - |nonce|;
    ThreeFields(if hasAssoc then 1 else 0, half, rest);
  }

  lemma ThreeFields(a: nat, b: nat, c: nat)
    requires a < 2 && b < 8 && c < 8
    ensures var f := b * 8 + c + 64 * a; f / 64 == a && f / 8 % 8 == b && f % 8 == c
  {
  }

  // The first counter block, appendix A.3: the same three bits, the nonce, and
  // a count of zero.
  lemma FirstCounterIs(nonce: seq<bv8>)
    requires 7 <= |nonce| <= 13
    ensures var b := FirstCounter(nonce);
            b[0] as nat + 1 == 15 - |nonce| && b[1..1 + |nonce|] == nonce && forall i | 1 + |nonce| <= i < 16 :: b[i] == 0
  {
    ByteOfIs(14 - |nonce|);
    hide ByteOf;
  }

  lemma ByteOfIs(n: nat)
    requires n < 256
    ensures ByteOf(n) as nat == n
  {
  }

  lemma WholeBlocks(n: nat)
    ensures (n + (16 - n % 16)) % 16 == 0
  {
  }

  // A whole block of padding when the data already ends on a block.
  function FormatAssoc(buf: seq<bv8>, assoc: seq<bv8>): (r: seq<bv8>)
    ensures |r| % 16 == 0 && |r| > |buf| + |assoc| + 2
    ensures r[..|buf|] == buf
  {
    var filled := buf + [ByteOf(|assoc| / 256), ByteOf(|assoc|)] + assoc;
    WholeBlocks(|filled|);
    filled + Zeros(16 - |filled| % 16)
  }

  function FormatPayload(buf: seq<bv8>, payload: seq<bv8>): (r: seq<bv8>)
    ensures |r| % 16 == 0 && |buf| + |payload| <= |r| < |buf| + |payload| + 16
    ensures r[..|buf|] == buf && r[|buf|..|buf| + |payload|] == payload
  {
    var filled := buf + payload;
    var over := |filled| % 16;
    WholeBlocks(|filled|);
    filled + Zeros(if over != 0 then 16 - over else 0)
  }

  function Formatted(payload: seq<bv8>, assoc: seq<bv8>, nonce: seq<bv8>, macLen: nat): (r: seq<bv8>)
    requires |nonce| <= 15
    ensures |r| % 16 == 0 && |r| >= 16
  {
    FormatPayload(FormatAssoc(FirstFormat(|assoc| > 0, |payload|, macLen, nonce), assoc), payload)
  }

  // ----- The formatted message determines its parts -----

  lemma ByteDetermines(a: nat, b: nat)
    requires a < 256 && b < 256 && ByteOf(a) == ByteOf(b)
    ensures a == b
  {
    hide ByteOf;
    var x := ByteFrom(a);
    var y := ByteFrom(b);
  }

  // Every value below 256 is some byte's.
  lemma {:induction false} ByteFrom(a: nat) returns (x: bv8)
    requires a < 256
    ensures x as int == a && ByteOf(a) == x
  {
    if a == 0 {
      x := 0;
    } else {
      var y := ByteFrom(a - 1);
      ByteStep(y);
      x := y + 1;
    }
    ByteBack(x);
  }

  lemma ByteBack(x: bv8)
    ensures ByteOf(x as int) == x
  {
    assert (x as int) % 256 == x as int;
  }

  lemma TwoBytesDetermine(a: nat, b: nat)
    requires ByteOf(a) == ByteOf(b) && ByteOf(a / 256) == ByteOf(b / 256)
    ensures a % 65536 == b % 65536
  {
    hide ByteOf;
    LowByte(a);
    LowByte(b);
    LowByte(a / 256);
    LowByte(b / 256);
    ByteDetermines(a % 256, b % 256);
    ByteDetermines(a / 256 % 256, b / 256 % 256);
    LowBytes(a);
    LowBytes(b);
  }

  lemma LowBytes(a: nat)
    ensures a % 65536 == a / 256 % 256 * 256 + a % 256
  {
    var high := a / 256 / 256;
    assert a == 65536 * high + (a / 256 % 256 * 256 + a % 256);
    assert 0 <= a / 256 % 256 * 256 + a % 256 < 65536;
  }

  lemma LowByte(a: nat)
    ensures ByteOf(a) == ByteOf(a % 256)
  {
  }

  lemma FlagsDetermine(h: bool, m: nat, n: seq<bv8>, h': bool, m': nat, n': seq<bv8>)
    requires Flags(h, m, n) == Flags(h', m', n')
    requires m in {4, 6, 8, 10, 12, 14, 16} && m' in {4, 6, 8, 10, 12, 14, 16}
    requires 7 <= |n| <= 13 && 7 <= |n'| <= 13
    ensures h == h' && m == m' && |n| == |n'|
  {
  }

  lemma FirstFormatParts(h: bool, len: nat, m: nat, n: seq<bv8>)
    requires |n| <= 13
    ensures var b := FirstFormat(h, len, m, n);
            b[0] == ByteOf(Flags(h, m, n)) && b[1..1 + |n|] == n && b[15] == ByteOf(len) && b[14] == ByteOf(len / 256)
  {
    hide ByteOf, Flags;
  }

  lemma FirstDetermines(h: bool, len: nat, m: nat, n: seq<bv8>, h': bool, len': nat, m': nat, n': seq<bv8>)
    requires m in {4, 6, 8, 10, 12, 14, 16} && m' in {4, 6, 8, 10, 12, 14, 16}
    requires 7 <= |n| <= 13 && 7 <= |n'| <= 13
    requires FirstFormat(h, len, m, n) == FirstFormat(h', len', m', n')
    ensures h == h' && m == m' && n == n' && len % 65536 == len' % 65536
  {
    hide ByteOf, Flags, FirstFormat;
    FirstFormatParts(h, len, m, n);
    FirstFormatParts(h', len', m', n');
    ByteDetermines(Flags(h, m, n), Flags(h', m', n'));
    FlagsDetermine(h, m, n, h', m', n');
    TwoBytesDetermine(len, len');
  }

  // The part of the formatted message in front of the payload.
  function Head(len: nat, assoc: seq<bv8>, nonce: seq<bv8>, macLen: nat): (r: seq<bv8>)
    requires |nonce| <= 15
    ensures |r| % 16 == 0 && |r| >= 16
  {
    FormatAssoc(FirstFormat(|assoc| > 0, len, macLen, nonce), assoc)
  }

  // The payload, filled up with zeros to whole blocks.
  function Filled(payload: seq<bv8>): (r: seq<bv8>)
    ensures |r| % 16 == 0 && |payload| <= |r| < |payload| + 16 && r[..|payload|] == payload
    ensures forall i | |payload| <= i < |r| :: r[i] == 0
  {
    var over := |payload| % 16;
    payload + Zeros(if over != 0 then 16 - over else 0)
  }

  lemma HeadThenPayload(p: seq<bv8>, a: seq<bv8>, n: seq<bv8>, m: nat)
    requires |n| <= 15
    ensures Formatted(p, a, n, m) == Head(|p|, a, n, m) + Filled(p)
  {
    hide FirstFormat, FormatAssoc;
    var head := Head(|p|, a, n, m);
    assert (|head| + |p|) % 16 == |p| % 16;
  }

  lemma HeadParts(len: nat, a: seq<bv8>, n: seq<bv8>, m: nat)
    requires |n| <= 15
    ensures var g := Head(len, a, n, m);
            |g| >= 18 + |a| && g[..16] == FirstFormat(|a| > 0, len, m, n)
            && g[16] == ByteOf(|a| / 256) && g[17] == ByteOf(|a|) && g[18..18 + |a|] == a
  {
    hide ByteOf, FirstFormat;
  }

  lemma HeadLength(len: nat, a: seq<bv8>, n: seq<bv8>, m: nat, len': nat, a': seq<bv8>, n': seq<bv8>, m': nat)
    requires |n| <= 15 && |n'| <= 15 && |a| == |a'|
    ensures |Head(len, a, n, m)| == |Head(len', a', n', m')|
  {
    hide ByteOf, FirstFormat;
  }

  // Heads that agree on their first 18 bytes.
  lemma HeadStarts(len: nat, a: seq<bv8>, n: seq<bv8>, m: nat, len': nat, a': seq<bv8>, n': seq<bv8>, m': nat)
    requires Accepted(a, n, m) && Accepted(a', n', m')
    requires var g, g' := Head(len, a, n, m), Head(len', a', n', m'); |g| >= 18 && |g'| >= 18 && g[..18] == g'[..18]
    ensures n == n' && m == m' && |a| == |a'| && len % 65536 == len' % 65536
  {
    hide ByteOf, FirstFormat, FormatAssoc, Head;
    var g, g' := Head(len, a, n, m), Head(len', a', n', m');
    HeadParts(len, a, n, m);
    HeadParts(len', a', n', m');
    assert g[..16] == g[..18][..16] && g'[..16] == g'[..18][..16];
    assert g[16] == g[..18][16] == g'[16] && g[17] == g[..18][17] == g'[17];
    FirstDetermines(|a| > 0, len, m, n, |a'| > 0, len', m', n');
    TwoBytesDetermine(|a|, |a'|);
  }

  // Two messages that agree as far as the shorter one goes have the same
  // head, but for whole multiples of 64 KiB of payload.
  lemma HeadsAgree(p: seq<bv8>, a: seq<bv8>, n: seq<bv8>, m: nat, p': seq<bv8>, a': seq<bv8>, n': seq<bv8>, m': nat)
    requires Accepted(a, n, m) && Accepted(a', n', m')
    requires Formatted(p, a, n, m) <= Formatted(p', a', n', m')
    ensures a == a' && n == n' && m == m' && |p| % 65536 == |p'| % 65536
    ensures Head(|p|, a, n, m) == Head(|p'|, a', n', m') && Filled(p) <= Filled(p')
  {
    hide ByteOf, FirstFormat, FormatAssoc, Head, Filled, Formatted;
    var g, g' := Head(|p|, a, n, m), Head(|p'|, a', n', m');
    HeadThenPayload(p, a, n, m);
    HeadThenPayload(p', a', n', m');
    HeadParts(|p|, a, n, m);
    HeadParts(|p'|, a', n', m');
    SamePrefix(g + Filled(p), g' + Filled(p'), g, g', 18);
    HeadStarts(|p|, a, n, m, |p'|, a', n', m');
    HeadLength(|p|, a, n, m, |p'|, a', n', m');
    SameFront(g, Filled(p), g', Filled(p'));
  }

  lemma SameFront(g: seq<bv8>, x: seq<bv8>, g': seq<bv8>, x': seq<bv8>)
    requires |g| == |g'| && g + x <= g' + x'
    ensures g == g' && x <= x'
  {
    assert g == (g + x)[..|g|] == (g' + x')[..|g|] == g';
    assert x == (g + x)[|g|..] == (g' + x')[|g|..|g| + |x|] == x'[..|x|];
  }

  lemma SamePrefix(f: seq<bv8>, f': seq<bv8>, g: seq<bv8>, g': seq<bv8>, k: nat)
    requires f <= f' && g <= f && g' <= f' && k <= |g| && k <= |g'|
    ensures g[..k] == g'[..k]
  {
    assert g[..k] == f[..k] == f'[..k] == g'[..k];
  }

  // No two accepted messages are formatted alike.
  lemma FormatDetermines(p: seq<bv8>, a: seq<bv8>, n: seq<bv8>, m: nat, p': seq<bv8>, a': seq<bv8>, n': seq<bv8>, m': nat)
    requires Accepted(a, n, m) && Accepted(a', n', m')
    requires Formatted(p, a, n, m) == Formatted(p', a', n', m')
    ensures p == p' && a == a' && n == n' && m == m'
  {
    hide Formatted, Head, Filled, Accepted;
    HeadsAgree(p, a, n, m, p', a', n', m');
    HeadsAgree(p', a', n', m', p, a, n, m);
    NearLengths(|p|, |p'|, |Filled(p)|);
    assert p == Filled(p)[..|p|] == Filled(p')[..|p'|] == p';
  }

  lemma NearLengths(x: nat, y: nat, t: nat)
    requires x % 65536 == y % 65536 && x <= t < x + 16 && y <= t < y + 16
    ensures x == y
  {
  }

  // One formatted message is a proper prefix of another exactly when they
  // differ in the payload only, the longer payload goes on where the shorter
  // one ends by zeros up to the block boundary, and the lengths differ by a
  // multiple of 64 KiB, which the two length bytes do not show.
  lemma PrefixIff(p: seq<bv8>, a: seq<bv8>, n: seq<bv8>, m: nat, p': seq<bv8>, a': seq<bv8>, n': seq<bv8>, m': nat)
    requires Accepted(a, n, m) && Accepted(a', n', m')
    ensures Formatted(p, a, n, m) < Formatted(p', a', n', m') <==>
            (a == a' && n == n' && m == m' && |p| < |p'| && |p| % 65536 == |p'| % 65536 && Filled(p) <= p')
  {
    hide Formatted, Head, Filled;
    HeadThenPayload(p, a, n, m);
    HeadThenPayload(p', a', n', m');
    if Formatted(p, a, n, m) < Formatted(p', a', n', m') {
      HeadsAgree(p, a, n, m, p', a', n', m');
      NextBlock(|Filled(p)|, |Filled(p')|);
      LongerPayload(|p|, |p'|, |Filled(p)|, |Filled(p')|);
      assert Filled(p) == Filled(p')[..|Filled(p)|] == p'[..|Filled(p)|];
    }
    if a == a' && n == n' && m == m' && |p| < |p'| && |p| % 65536 == |p'| % 65536 && Filled(p) <= p' {
      SameHead(|p|, |p'|, a, n, m);
      FarLengths(|p|, |p'|);
      assert Filled(p) <= Filled(p') by { assert Filled(p')[..|Filled(p)|] == p'[..|Filled(p)|] == Filled(p); }
    }
  }

  lemma LongerPayload(x: nat, y: nat, fx: nat, fy: nat)
    requires x % 65536 == y % 65536 && x <= fx < x + 16 && y <= fy < y + 16 && fx + 16 <= fy
    ensures x < y && fx <= y
  {
    FarLengths(x, y);
  }

  lemma NextBlock(fx: nat, fy: nat)
    requires fx % 16 == 0 && fy % 16 == 0 && fx < fy
    ensures fx + 16 <= fy
  {
  }

  lemma FarLengths(x: nat, y: nat)
    requires x % 65536 == y % 65536 && x < y
    ensures x + 65536 <= y
  {
  }

  // The head shows the payload length modulo 64 KiB only.
  lemma SameHead(len: nat, len': nat, a: seq<bv8>, n: seq<bv8>, m: nat)
    requires |n| <= 15 && len % 65536 == len' % 65536
    ensures Head(len, a, n, m) == Head(len', a, n, m)
  {
    hide ByteOf, Flags, FormatAssoc;
    LowByte(len);
    LowByte(len');
    LowByte(len / 256);
    LowByte(len' / 256);
    LowBytes(len);
    LowBytes(len');
  }

  // So below 64 KiB no formatted message is a proper prefix of another.
  lemma ShortMessagesPrefixFree(p: seq<bv8>, a: seq<bv8>, n: seq<bv8>, m: nat, p': seq<bv8>, a': seq<bv8>, n': seq<bv8>, m': nat)
    requires Accepted(a, n, m) && Accepted(a', n', m') && |p'| < 65536
    ensures !(Formatted(p, a, n, m) < Formatted(p', a', n', m'))
  {
    hide Formatted, Filled, Accepted;
    PrefixIff(p, a, n, m, p', a', n', m');
  }

  // And beyond it they are: every message is one of the same message with
  // 64 KiB of zeros behind its payload.
  lemma LongMessageHasPrefix(p: seq<bv8>, a: seq<bv8>, n: seq<bv8>, m: nat)
    requires Accepted(a, n, m)
    ensures Formatted(p, a, n, m) < Formatted(p + Zeros(65536), a, n, m)
  {
    hide Formatted, Accepted;
    var p' := p + Zeros(65536);
    assert (|p| + 65536) % 65536 == |p| % 65536;
    assert Filled(p) == p'[..|Filled(p)|];
    PrefixIff(p, a, n, m, p', a, n, m);
  }

  // ----- Sealed messages -----

  predicate Accepted(assoc: seq<bv8>, nonce: seq<bv8>, macLen: nat)
  {
    macLen in {4, 6, 8, 10, 12, 14, 16} && 7 <= |nonce| <= 13 && |assoc| <= 32768
  }

  function PayloadCounter(nonce: seq<bv8>, macLen: nat): (b: Block)
    requires |nonce| <= 15
  {
    NextIn(FirstCounter(nonce), 15 - macLen)
  }

  function MacOf(payload: seq<bv8>, assoc: seq<bv8>, nonce: seq<bv8>, macLen: nat, enc: Cipher): (m: Block)
    requires |nonce| <= 15
  {
    CbcMac(Formatted(payload, assoc, nonce, macLen), enc, Zeros(16))
  }

  function Seal(payload: seq<bv8>, assoc: seq<bv8>, nonce: seq<bv8>, macLen: nat, enc: Cipher): (r: seq<bv8>)
    requires |nonce| <= 15 && macLen <= 16
    ensures |r| == |payload| + macLen
  {
    Ctr(payload, enc, PayloadCounter(nonce, macLen))
    + Ctr(MacOf(payload, assoc, nonce, macLen, enc)[..macLen], enc, FirstCounter(nonce))
  }

  // The kernel's comparison: it reports a difference only where `a` is smaller.
  predicate Passes(a: seq<bv8>, b: seq<bv8>)
  {
    |a| <= |b| && forall i | 0 <= i < |a| :: a[i] >= b[i]
  }

  // The payload and whether its code was accepted.
  function Open(cipher: seq<bv8>, assoc: seq<bv8>, nonce: seq<bv8>, macLen: nat, enc: Cipher): (r: (seq<bv8>, bool))
    requires |nonce| <= 15 && macLen <= 16 && macLen <= |cipher|
    ensures |r.0| == |cipher| - macLen
  {
    var n := |cipher| - macLen;
    var payload := Ctr(cipher[..n], enc, PayloadCounter(nonce, macLen));
    var mac := Ctr(cipher[n..], enc, FirstCounter(nonce));
    (payload, Passes(mac, MacOf(payload, assoc, nonce, macLen, enc)))
  }

  // The payload starts one step after the counter block that hides the code,
  // unless the code takes all 16 bytes: then both start on the same block.
  lemma PayloadCounterStarts(nonce: seq<bv8>, macLen: nat)
    requires macLen in {4, 6, 8, 10, 12, 14, 16} && 7 <= |nonce| <= 13
    ensures Value(PayloadCounter(nonce, macLen)) == Value(FirstCounter(nonce)) + if macLen == 16 then 0 else 1
  {
    hide Value, Next, NextIn, FirstCounter;
    var c := FirstCounter(nonce);
    CounterEndsInZero(nonce);
    if macLen == 16 {
      NextInNone(c);
    } else {
      NextInLow(c, 15 - macLen);
      OneMore(c);
    }
  }

  lemma CounterEndsInZero(nonce: seq<bv8>)
    requires |nonce| <= 13
    ensures FirstCounter(nonce)[15] == 0
  {
  }

  lemma NextInNone(c: Block)
    ensures NextIn(c, -1) == c
  {
  }

  lemma OneMore(c: Block)
    requires c[15] == 0
    ensures Value(c[..15] + [1]) == Value(c) + 1
  {
    hide Value, Next;
    ByteStep(0);
    assert c == c[..15] + [0];
    ValueAppend(c[..15], 0);
    ValueAppend(c[..15], 1);
  }

  lemma NextInLow(c: Block, n: int)
    requires 0 < n <= 16 && c[15] == 0
    ensures NextIn(c, n) == c[..15] + [1]
  {
    var low := c[16 - n..];
    assert low[..n - 1] == c[16 - n..15];
    assert Next(low) == low[..n - 1] + [1];
  }

  lemma OpenUndoesSeal(payload: seq<bv8>, assoc: seq<bv8>, nonce: seq<bv8>, macLen: nat, enc: Cipher)
    requires |nonce| <= 15 && macLen <= 16
    ensures Open(Seal(payload, assoc, nonce, macLen, enc), assoc, nonce, macLen, enc) == (payload, true)
  {
    hide Ctr, PayloadCounter, MacOf, FirstCounter;
    var mac := MacOf(payload, assoc, nonce, macLen, enc);
    var body := Ctr(payload, enc, PayloadCounter(nonce, macLen));
    var code := Ctr(mac[..macLen], enc, FirstCounter(nonce));
    assert (body + code)[..|payload|] == body && (body + code)[|payload|..] == code;
    CtrTwice(payload, enc, PayloadCounter(nonce, macLen));
    CtrTwice(mac[..macLen], enc, FirstCounter(nonce));
  }

  // ----- The calls -----

  // The key string is long enough for its size, and `unset` stands for what
  // the 60 words of the key schedule hold before they are set.
  predicate KeyGiven(keyStr: seq<bv8>, keysize: int, unset: seq<bv32>)
  {
    |unset| == 60 && (keysize in {128, 192, 256} ==> 4 * KeyWords(keysize) <= |keyStr|)
  }

  // Other sizes than the three leave the key schedule unset.
  function KeyFrom(keyStr: seq<bv8>, keysize: int, unset: seq<bv32>): (k: Key)
    requires KeyGiven(keyStr, keysize, unset)
    ensures Fits(k)
  {
    Key(if keysize in {128, 192, 256} then Schedule(keyStr, keysize) else unset, keysize)
  }

  lemma SameKey(keyStr: seq<bv8>, keysize: int, unset: seq<bv32>, unset': seq<bv32>)
    requires keysize in {128, 192, 256} && KeyGiven(keyStr, keysize, unset) && KeyGiven(keyStr, keysize, unset')
    ensures KeyFrom(keyStr, keysize, unset) == KeyFrom(keyStr, keysize, unset')
  {
    hide Schedule;
  }

  method PrepareKey(keyStr: seq<bv8>, keysize: int, unset: seq<bv32>) returns (k: Key)
    requires KeyGiven(keyStr, keysize, unset)
    ensures k == KeyFrom(keyStr, keysize, unset)
  {
    hide ScheduleWord;
    var w := new bv32[60](i requires 0 <= i < |unset| => unset[i]);
    assert w[..] == unset;
    KeySetup(keyStr, w, keysize);
    k := Key(if keysize in {128, 192, 256} then w[..4 * Rounds(keysize) + 4] else w[..], keysize);
  }

  method PrepareCounters(nonce: seq<bv8>, macLen: nat) returns (counter: Block, payloadCounter: Block)
    requires |nonce| <= 15
    ensures counter == FirstCounter(nonce) && payloadCounter == PayloadCounter(nonce, macLen)
  {
    hide FirstCounter, NextIn;
    counter := FirstCounter(nonce);
    var temp := new bv8[16](i requires 0 <= i < 16 => counter[i]);
    assert temp[..] == counter;
    IncrementIv(temp, 15 - macLen);
    payloadCounter := temp[..];
  }

  method PrepareMac(payload: seq<bv8>, assoc: seq<bv8>, nonce: seq<bv8>, macLen: nat, k: Key) returns (mac: Block)
    requires |nonce| <= 15 && Fits(k)
    ensures mac == MacOf(payload, assoc, nonce, macLen, Encipher(k))
  {
    hide FirstFormat, FormatAssoc, FormatPayload, Encipher, Fits, CbcMac;
    var buf: seq<bv8> := FirstFormat(|assoc| > 0, |payload|, macLen, nonce);
    buf := FormatAssoc(buf, assoc);
    buf := FormatPayload(buf, payload);
    var ok;
    ok, mac := EncryptCbcMac(buf, k, Zeros(16), Zeros(16));
  }

  // Two pieces written side by side and then rewritten in place.
  lemma SideBySide(was: seq<bv8>, p: seq<bv8>, m: seq<bv8>, x: seq<bv8>, y: seq<bv8>)
    requires |x| == |p| && |y| == |m| && |p| + |m| <= |was|
    ensures var both := Patched(Patched(was, 0, p), |p|, m);
            both[0..|p|] == p && both[|p|..|p| + |m|] == m
            && Patched(both, 0, x)[|p|..|p| + |m|] == m
            && Patched(Patched(both, 0, x), |p|, y) == Patched(was, 0, x + y)
  {
    var both := Patched(Patched(was, 0, p), |p|, m);
    assert both == p + m + was[|p| + |m|..];
    assert Patched(both, 0, x) == x + m + was[|p| + |m|..];
    assert Patched(Patched(both, 0, x), |p|, y) == x + y + was[|p| + |m|..];
  }

  method EncryptCcm(payload: seq<bv8>, assoc: seq<bv8>, nonce: seq<bv8>, out: array<bv8>, macLen: nat,
                    keyStr: seq<bv8>, keysize: int, unset: seq<bv32>, bufferFound: bool)
    returns (ok: bool, outLen: nat)
    requires KeyGiven(keyStr, keysize, unset)
    requires |payload| + macLen <= out.Length
    modifies out
    ensures ok == (Accepted(assoc, nonce, macLen) && bufferFound)
    ensures ok ==> outLen == |payload| + macLen
    ensures ok ==> out[..] == Patched(old(out[..]), 0, Seal(payload, assoc, nonce, macLen, Encipher(KeyFrom(keyStr, keysize, unset))))
    ensures !ok ==> out[..] == old(out[..])
  {
    hide KeyFrom, Encipher, Fits, MacOf, FirstCounter, PayloadCounter, Ctr, Patched;
    outLen := 0;
    if macLen != 4 && macLen != 6 && macLen != 8 && macLen != 10 && macLen != 12 && macLen != 14 && macLen != 16 {
      return false, 0;
    }
    if |nonce| < 7 || |nonce| > 13 {
      return false, 0;
    }
    if |assoc| > 32768 {
      return false, 0;
    }
    if !bufferFound {
      return false, 0;
    }
    SealInto(payload, assoc, nonce, out, macLen, keyStr, keysize, unset);
    return true, |payload| + macLen;
  }

  method SealInto(payload: seq<bv8>, assoc: seq<bv8>, nonce: seq<bv8>, out: array<bv8>, macLen: nat,
                  keyStr: seq<bv8>, keysize: int, unset: seq<bv32>)
    requires KeyGiven(keyStr, keysize, unset)
    requires |payload| + macLen <= out.Length && |nonce| <= 15 && macLen <= 16
    modifies out
    ensures out[..] == Patched(old(out[..]), 0, Seal(payload, assoc, nonce, macLen, Encipher(KeyFrom(keyStr, keysize, unset))))
  {
    hide KeyFrom, Encipher, Fits, MacOf, FirstCounter, PayloadCounter, Ctr, Patched;
    ghost var was := out[..];
    var k := PrepareKey(keyStr, keysize, unset);
    var mac := PrepareMac(payload, assoc, nonce, macLen, k);
    var counter, payloadCounter := PrepareCounters(nonce, macLen);
    ghost var enc := Encipher(k);
    SideBySide(was, payload, mac[..macLen], Ctr(payload, enc, payloadCounter), Ctr(mac[..macLen], enc, counter));
    CopyIn(out, 0, payload);
    CopyIn(out, |payload|, mac[..macLen]);
    assert out[0..|payload|] == out[..][0..|payload|];
    CtrInPlace(out, 0, |payload|, k, payloadCounter);
    assert out[|payload|..|payload| + macLen] == out[..][|payload|..|payload| + macLen];
    CtrInPlace(out, |payload|, macLen, k, counter);
  }

  method Memcmp(a: seq<bv8>, b: seq<bv8>, size: nat) returns (r: int)
    requires size <= |a| && size <= |b|
    ensures r == if Passes(a[..size], b[..size]) then 0 else -1
  {
    var i := 0;
    while i < size
      invariant 0 <= i <= size
      invariant forall j | 0 <= j < i :: a[j] >= b[j]
    {
      if a[i] < b[i] {
        return -1;
      }
      i := i + 1;
    }
    return 0;
  }

  method DecryptCcm(cipher: seq<bv8>, assoc: seq<bv8>, nonce: seq<bv8>, plaintext: array<bv8>, macLen: nat, authenticate: bool,
                    keyStr: seq<bv8>, keysize: int, unset: seq<bv32>, bufferFound: bool)
    returns (ok: bool, plainLen: nat, auth: bool)
    requires KeyGiven(keyStr, keysize, unset)
    requires |nonce| <= 15 && macLen <= 16 && |cipher| <= plaintext.Length + macLen
    modifies plaintext
    ensures ok == (|cipher| > macLen && bufferFound)
    ensures ok ==> plainLen == |cipher| - macLen
    ensures ok ==>
      var got := Open(cipher, assoc, nonce, macLen, Encipher(KeyFrom(keyStr, keysize, unset)));
      (authenticate ==> auth == got.1)
      && plaintext[..] == Patched(old(plaintext[..]), 0, if authenticate && !got.1 then Zeros(plainLen) else got.0)
    ensures !ok ==> plaintext[..] == old(plaintext[..])
  {
    hide *;
    auth := false;
    if |cipher| <= macLen {
      return false, 0, auth;
    }
    if !bufferFound {
      return false, 0, auth;
    }
    plainLen, auth := OpenInto(cipher, assoc, nonce, plaintext, macLen, authenticate, keyStr, keysize, unset);
    return true, plainLen, auth;
  }

  method OpenInto(cipher: seq<bv8>, assoc: seq<bv8>, nonce: seq<bv8>, plaintext: array<bv8>, macLen: nat, authenticate: bool,
                  keyStr: seq<bv8>, keysize: int, unset: seq<bv32>)
    returns (plainLen: nat, auth: bool)
    requires KeyGiven(keyStr, keysize, unset)
    requires |nonce| <= 15 && macLen <= 16 && macLen < |cipher| <= plaintext.Length + macLen
    modifies plaintext
    ensures plainLen == |cipher| - macLen
    ensures var got := Open(cipher, assoc, nonce, macLen, Encipher(KeyFrom(keyStr, keysize, unset)));
            (authenticate ==> auth == got.1)
            && plaintext[..] == Patched(old(plaintext[..]), 0, if authenticate && !got.1 then Zeros(plainLen) else got.0)
  {
    hide KeyFrom, Encipher, Fits, MacOf, FirstCounter, PayloadCounter, Ctr, Patched, Passes;
    ghost var was := plaintext[..];
    var k := PrepareKey(keyStr, keysize, unset);
    plainLen := |cipher| - macLen;
    CopyIn(plaintext, 0, cipher[..plainLen]);
    var counter, payloadCounter := PrepareCounters(nonce, macLen);
    ghost var payload := Ctr(cipher[..plainLen], Encipher(k), payloadCounter);
    PatchedFront(was, cipher[..plainLen], payload);
    assert plaintext[0..plainLen] == plaintext[..][..plainLen];
    CtrInPlace(plaintext, 0, plainLen, k, payloadCounter);
    auth := false;
    if authenticate {
      PatchedFront(was, payload, Zeros(plainLen));
      var mac := DecryptMac(cipher[plainLen..], macLen, k, counter);
      assert plaintext[..plainLen] == plaintext[..][..plainLen];
      var expected := PrepareMac(plaintext[..plainLen], assoc, nonce, macLen, k);
      var differs := Memcmp(mac, expected, macLen);
      PassesPrefix(mac, expected);
      if differs == 0 {
        auth := true;
      } else {
        CopyIn(plaintext, 0, Zeros(plainLen));
      }
    }
  }

  lemma PassesPrefix(a: seq<bv8>, b: seq<bv8>)
    requires |a| <= |b|
    ensures Passes(a[..|a|], b[..|a|]) <==> Passes(a, b)
  {
  }

  method DecryptMac(cipher: seq<bv8>, macLen: nat, k: Key, counter: Block) returns (mac: seq<bv8>)
    requires |cipher| == macLen <= 16 && Fits(k)
    ensures mac == Ctr(cipher, Encipher(k), counter)
  {
    hide Encipher, Fits, Ctr;
    var buf := new bv8[16];
    CopyIn(buf, 0, cipher);
    assert buf[0..macLen] == cipher;
    CtrInPlace(buf, 0, macLen, k, counter);
    mac := buf[..macLen];
  }

  // Sealing and opening with the same parameters returns the payload and
  // accepts it, for every accepted nonce, code length and associated data.
  method SealThenOpen(payload: seq<bv8>, assoc: seq<bv8>, nonce: seq<bv8>, macLen: nat, keyStr: seq<bv8>, keysize: int,
                      unset: seq<bv32>, unset': seq<bv32>)
    returns (ok: bool, plain: seq<bv8>, auth: bool)
    requires keysize in {128, 192, 256} && KeyGiven(keyStr, keysize, unset) && KeyGiven(keyStr, keysize, unset')
    ensures ok == (Accepted(assoc, nonce, macLen) && payload != [])
    ensures ok ==> plain == payload && auth
  {
    hide KeyFrom, Encipher, Patched, Seal, Open, KeyGiven;
    SameKey(keyStr, keysize, unset, unset');
    var out := new bv8[|payload| + macLen];
    ghost var blank := out[..];
    var outLen;
    ok, outLen := EncryptCcm(payload, assoc, nonce, out, macLen, keyStr, keysize, unset, true);
    plain, auth := [], false;
    if ok {
      ghost var enc := Encipher(KeyFrom(keyStr, keysize, unset));
      OpenUndoesSeal(payload, assoc, nonce, macLen, enc);
      WholePatch(blank, Seal(payload, assoc, nonce, macLen, enc));
      assert out[..outLen] == out[..];
      var back := new bv8[|payload|];
      WholePatch(back[..], payload);
      var plainLen;
      ok, plainLen, auth := DecryptCcm(out[..outLen], assoc, nonce, back, macLen, true, keyStr, keysize, unset', true);
      plain := back[..];
    }
  }

  lemma WholePatch(s: seq<bv8>, p: seq<bv8>)
    requires |s| == |p|
    ensures Patched(s, 0, p) == p
  {
  }
}
