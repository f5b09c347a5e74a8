/**
  * Word-at-a-time string search. Memory is a sequence of bytes whose indices
  * are the addresses, made of whole 8-byte words; the test on a word may
  * misfire but never passes over a terminator or a match.
  */
module WordScan {

  // The first address from `s` on whose byte stops the scan.
  ghost predicate IsFirst(mem: seq<bv8>, s: nat, stop: bv8 -> bool, r: nat)
  {
    s <= r < |mem| && stop(mem[r]) && forall i | s <= i < r :: !stop(mem[i])
  }

  ghost predicate Clear(mem: seq<bv8>, s: nat, stop: bv8 -> bool, r: nat)
  {
    s <= r <= |mem| && forall i | s <= i < r :: !stop(mem[i])
  }

  // Address of the terminator of the string at `s`.
  ghost predicate EndsAt(mem: seq<bv8>, s: nat, e: nat)
  {
    IsFirst(mem, s, IsNul, e)
  }

  predicate IsNul(x: bv8)
  {
    x == 0
  }

  ghost predicate Terminated(mem: seq<bv8>, s: nat)
  {
    |mem| % 8 == 0 && exists e :: EndsAt(mem, s, e)
  }

  // The scan stops where a byte is `c` or the terminator.
  function StopsAt(c: bv8): (stop: bv8 -> bool)
  {
    (x: bv8) => x == c || x == 0
  }

  // ----- Words -----

  const MAGIC: bv64 := 0x7EFE_FEFE_FEFE_FEFF

  // `-1 / 0xff * 0xfe << 1 >> 1 | 1`
  lemma MagicIs()
    ensures MAGIC == ((((0xFFFF_FFFF_FFFF_FFFF as bv64) / 0xff * 0xfe) << 1) >> 1) | 1
  {
  }

  // Little-endian load of eight bytes.
  function Pack(b0: bv8, b1: bv8, b2: bv8, b3: bv8, b4: bv8, b5: bv8, b6: bv8, b7: bv8): (w: bv64)
  {
    (b0 as bv64) | ((b1 as bv64) << 8) | ((b2 as bv64) << 16) | ((b3 as bv64) << 24)
    | ((b4 as bv64) << 32) | ((b5 as bv64) << 40) | ((b6 as bv64) << 48) | ((b7 as bv64) << 56)
  }

  // A word each of whose bytes is `c`.
  function Spread(c: bv8): (w: bv64)
  {
    var two := (c as bv64) | ((c as bv64) << 8);
    var four := two | (two << 16);
    four | ((four << 16) << 16)
  }

  // Some hole bit is left unchanged by adding the magic bits.
  predicate Suspect(w: bv64)
  {
    ((w + MAGIC) ^ !w) & !MAGIC != 0
  }

  function Xor64(w: bv64, v: bv64): (r: bv64)
  {
    w ^ v
  }

  function Wide(x: bv8): (w: bv64)
  {
    x as bv64
  }

  // Byte k of a word, the least significant first.
  function Byte(w: bv64, k: nat): (b: bv64)
    requires k < 8
  {
    match k
    case 0 => w & 0xff
    case 1 => (w >> 8) & 0xff
    case 2 => (w >> 16) & 0xff
    case 3 => (w >> 24) & 0xff
    case 4 => (w >> 32) & 0xff
    case 5 => (w >> 40) & 0xff
    case 6 => (w >> 48) & 0xff
    case _ => (w >> 56) & 0xff
  }

  // Exactly which words are looked into: those with a zero byte, and those
  // whose top byte is 128.
  lemma SuspectIff(w: bv64)
    ensures Suspect(w) <==> (Byte(w, 0) == 0 || Byte(w, 1) == 0 || Byte(w, 2) == 0 || Byte(w, 3) == 0
                             || Byte(w, 4) == 0 || Byte(w, 5) == 0 || Byte(w, 6) == 0 || Byte(w, 7) == 0 || Byte(w, 7) == 128)
  {
  }

  lemma PackedBytes(b0: bv8, b1: bv8, b2: bv8, b3: bv8, b4: bv8, b5: bv8, b6: bv8, b7: bv8)
    ensures var w := Pack(b0, b1, b2, b3, b4, b5, b6, b7);
            Byte(w, 0) == Wide(b0) && Byte(w, 1) == Wide(b1) && Byte(w, 2) == Wide(b2) && Byte(w, 3) == Wide(b3)
            && Byte(w, 4) == Wide(b4) && Byte(w, 5) == Wide(b5) && Byte(w, 6) == Wide(b6) && Byte(w, 7) == Wide(b7)
  {
  }

  lemma SpreadBytes(c: bv8, k: nat)
    requires k < 8
    ensures Byte(Spread(c), k) == Wide(c)
  {
  }

  lemma Cancel0(w: bv64, v: bv64)
    ensures Byte(w, 0) == Byte(v, 0) ==> Byte(Xor64(w, v), 0) == 0
  {
  }

  lemma Cancel1(w: bv64, v: bv64)
    ensures Byte(w, 1) == Byte(v, 1) ==> Byte(Xor64(w, v), 1) == 0
  {
  }

  lemma Cancel2(w: bv64, v: bv64)
    ensures Byte(w, 2) == Byte(v, 2) ==> Byte(Xor64(w, v), 2) == 0
  {
  }

  lemma Cancel3(w: bv64, v: bv64)
    ensures Byte(w, 3) == Byte(v, 3) ==> Byte(Xor64(w, v), 3) == 0
  {
  }

  lemma Cancel4(w: bv64, v: bv64)
    ensures Byte(w, 4) == Byte(v, 4) ==> Byte(Xor64(w, v), 4) == 0
  {
  }

  lemma Cancel5(w: bv64, v: bv64)
    ensures Byte(w, 5) == Byte(v, 5) ==> Byte(Xor64(w, v), 5) == 0
  {
  }

  lemma Cancel6(w: bv64, v: bv64)
    ensures Byte(w, 6) == Byte(v, 6) ==> Byte(Xor64(w, v), 6) == 0
  {
  }

  lemma Cancel7(w: bv64, v: bv64)
    ensures Byte(w, 7) == Byte(v, 7) ==> Byte(Xor64(w, v), 7) == 0
  {
  }

  // Bytes that agree cancel.
  lemma EqualBytesCancel(w: bv64, v: bv64, k: nat)
    requires k < 8
    ensures Byte(w, k) == Byte(v, k) ==> Byte(Xor64(w, v), k) == 0
  {
    hide Byte, Xor64;
    match k
    case 0 => Cancel0(w, v);
    case 1 => Cancel1(w, v);
    case 2 => Cancel2(w, v);
    case 3 => Cancel3(w, v);
    case 4 => Cancel4(w, v);
    case 5 => Cancel5(w, v);
    case 6 => Cancel6(w, v);
    case _ => Cancel7(w, v);
  }

  lemma ZeroByteIsSuspect(w: bv64, k: nat)
    requires k < 8 && Byte(w, k) == 0
    ensures Suspect(w)
  {
    hide Suspect, Byte;
    SuspectIff(w);
  }

  // A word that passes both tests holds neither a terminator nor `c`.
  lemma QuietMeansNoStop(w: bv64, c: bv8, k: nat)
    requires k < 8 && !Suspect(w) && !Suspect(Xor64(w, Spread(c)))
    ensures Byte(w, k) != 0 && Byte(w, k) != Wide(c)
  {
    hide Suspect, Byte, Xor64, Spread, Wide;
    if Byte(w, k) == 0 {
      ZeroByteIsSuspect(w, k);
    }
    if Byte(w, k) == Wide(c) {
      SpreadBytes(c, k);
      EqualBytesCancel(w, Spread(c), k);
      ZeroByteIsSuspect(Xor64(w, Spread(c)), k);
    }
  }

  // ----- The scans -----

  lemma ClearStep(mem: seq<bv8>, s: nat, stop: bv8 -> bool, r: nat)
    requires Clear(mem, s, stop, r) && r < |mem|
    ensures if stop(mem[r]) then IsFirst(mem, s, stop, r) else Clear(mem, s, stop, r + 1)
  {
  }

  // A scan that has not stopped has not passed the terminator.
  lemma RoomLeft(mem: seq<bv8>, s: nat, stop: bv8 -> bool, r: nat)
    requires Terminated(mem, s) && stop(0) && Clear(mem, s, stop, r)
    ensures r < |mem| && Terminated(mem, r)
    ensures r % 8 == 0 ==> r + 8 <= |mem|
    ensures r % 4 == 0 ==> r + 4 <= |mem|
  {
    var e: nat :| EndsAt(mem, s, e);
    assert mem[e] == 0;
    assert e >= r;
    assert EndsAt(mem, r, e);
  }

  // The eight bytes of a word, tested in order.
  method Look(mem: seq<bv8>, ghost s: nat, at: nat, c: bv8) returns (hit: bool, r: nat)
    requires at + 8 <= |mem| && Clear(mem, s, StopsAt(c), at)
    ensures hit ==> IsFirst(mem, s, StopsAt(c), r)
    ensures !hit ==> Clear(mem, s, StopsAt(c), at + 8)
  {
    hide Clear, IsFirst;
    r := at;
    hit := Stops(mem, s, r, c);
    if hit { return; }
    r := r + 1;
    hit := Stops(mem, s, r, c);
    if hit { return; }
    r := r + 1;
    hit := Stops(mem, s, r, c);
    if hit { return; }
    r := r + 1;
    hit := Stops(mem, s, r, c);
    if hit { return; }
    r := r + 1;
    hit := Stops(mem, s, r, c);
    if hit { return; }
    r := r + 1;
    hit := Stops(mem, s, r, c);
    if hit { return; }
    r := r + 1;
    hit := Stops(mem, s, r, c);
    if hit { return; }
    r := r + 1;
    hit := Stops(mem, s, r, c);
  }

  // One byte of the scan.
  method Stops(mem: seq<bv8>, ghost s: nat, r: nat, c: bv8) returns (hit: bool)
    requires r < |mem| && Clear(mem, s, StopsAt(c), r)
    ensures if hit then IsFirst(mem, s, StopsAt(c), r) else Clear(mem, s, StopsAt(c), r + 1)
  {
    hide Clear, IsFirst;
    ClearStep(mem, s, StopsAt(c), r);
    hit := mem[r] == c || mem[r] == 0;
  }

  function WordAt(mem: seq<bv8>, at: nat): (w: bv64)
    requires at + 8 <= |mem|
  {
    Pack(mem[at], mem[at + 1], mem[at + 2], mem[at + 3], mem[at + 4], mem[at + 5], mem[at + 6], mem[at + 7])
  }

  predicate MayStop(w: bv64, c: bv8)
  {
    Suspect(w) || Suspect(Xor64(w, Spread(c)))
  }

  lemma WideIs(x: bv8, y: bv8)
    ensures Wide(x) == Wide(y) <==> x == y
  {
  }

  lemma WideZero()
    ensures Wide(0) == 0
  {
  }

  lemma WordBytes(mem: seq<bv8>, at: nat, k: nat)
    requires at + 8 <= |mem| && k < 8
    ensures Byte(WordAt(mem, at), k) == Wide(mem[at + k])
  {
    hide Byte, Pack, Wide;
    PackedBytes(mem[at], mem[at + 1], mem[at + 2], mem[at + 3], mem[at + 4], mem[at + 5], mem[at + 6], mem[at + 7]);
  }

  // A word that is skipped holds no stop.
  lemma SkipIsSafe(mem: seq<bv8>, s: nat, at: nat, c: bv8)
    requires at + 8 <= |mem| && Clear(mem, s, StopsAt(c), at) && !MayStop(WordAt(mem, at), c)
    ensures Clear(mem, s, StopsAt(c), at + 8)
  {
    hide Suspect, WordAt, Spread, Xor64, Byte, Wide;
    forall i | s <= i < at + 8
      ensures !StopsAt(c)(mem[i])
    {
      if i >= at {
        QuietMeansNoStop(WordAt(mem, at), c, i - at);
        WordBytes(mem, at, i - at);
        WideIs(mem[i], 0);
        WideIs(mem[i], c);
        WideZero();
      }
    }
  }

  // The first `c` or terminator, whatever the alignment of `s`.
  method Strchrnul(mem: seq<bv8>, s: nat, c: bv8) returns (r: nat)
    requires Terminated(mem, s)
    ensures IsFirst(mem, s, StopsAt(c), r)
  {
    hide Clear, IsFirst, Terminated, MayStop;
    ghost var stop := StopsAt(c);
    ClearStart(mem, s, stop);
    var p := s;
    while p % 8 != 0
      invariant Clear(mem, s, stop, p)
      decreases |mem| - p
    {
      RoomLeft(mem, s, stop, p);
      ClearStep(mem, s, stop, p);
      if mem[p] == c || mem[p] == 0 {
        return p;
      }
      p := p + 1;
    }
    while true
      invariant p % 8 == 0 && Clear(mem, s, stop, p)
      decreases |mem| - p
    {
      RoomLeft(mem, s, stop, p);
      if MayStop(WordAt(mem, p), c) {
        var hit, at := Look(mem, s, p, c);
        if hit {
          return at;
        }
      } else {
        SkipIsSafe(mem, s, p, c);
      }
      p := p + 8;
    }
  }

  lemma ClearStart(mem: seq<bv8>, s: nat, stop: bv8 -> bool)
    requires Terminated(mem, s)
    ensures Clear(mem, s, stop, s)
  {
  }

  datatype Found = At(address: nat) | Null

  // The first `c`, or nothing when the terminator comes first.
  ghost predicate ChrIs(mem: seq<bv8>, s: nat, c: bv8, f: Found)
  {
    if f.At? then IsFirst(mem, s, StopsAt(c), f.address) && mem[f.address] == c
    else c != 0 && exists e :: EndsAt(mem, s, e) && IsFirst(mem, s, StopsAt(c), e)
  }

  lemma ChrAt(mem: seq<bv8>, s: nat, c: bv8, r: nat)
    requires IsFirst(mem, s, StopsAt(c), r)
    ensures ChrIs(mem, s, c, if mem[r] == c then At(r) else Null)
  {
    if mem[r] != c {
      assert EndsAt(mem, s, r);
    }
  }

  // One byte of the search.
  method Probe(mem: seq<bv8>, ghost s: nat, r: nat, c: bv8) returns (done: bool, f: Found)
    requires r < |mem| && Clear(mem, s, StopsAt(c), r)
    ensures done ==> ChrIs(mem, s, c, f)
    ensures !done ==> Clear(mem, s, StopsAt(c), r + 1)
  {
    hide Clear, IsFirst, ChrIs;
    ClearStep(mem, s, StopsAt(c), r);
    if mem[r] == c {
      ChrAt(mem, s, c, r);
      return true, At(r);
    } else if mem[r] == 0 {
      ChrAt(mem, s, c, r);
      return true, Null;
    }
    return false, Null;
  }

  // The eight bytes of a word, tested in order.
  method LookChr(mem: seq<bv8>, ghost s: nat, at: nat, c: bv8) returns (done: bool, f: Found)
    requires at + 8 <= |mem| && Clear(mem, s, StopsAt(c), at)
    ensures done ==> ChrIs(mem, s, c, f)
    ensures !done ==> Clear(mem, s, StopsAt(c), at + 8)
  {
    hide Clear, ChrIs;
    done, f := Probe(mem, s, at, c);
    if done { return; }
    done, f := Probe(mem, s, at + 1, c);
    if done { return; }
    done, f := Probe(mem, s, at + 2, c);
    if done { return; }
    done, f := Probe(mem, s, at + 3, c);
    if done { return; }
    done, f := Probe(mem, s, at + 4, c);
    if done { return; }
    done, f := Probe(mem, s, at + 5, c);
    if done { return; }
    done, f := Probe(mem, s, at + 6, c);
    if done { return; }
    done, f := Probe(mem, s, at + 7, c);
  }

  method Strchr(mem: seq<bv8>, s: nat, c: bv8) returns (f: Found)
    requires Terminated(mem, s)
    ensures ChrIs(mem, s, c, f)
  {
    hide Clear, ChrIs, Terminated, MayStop;
    ghost var stop := StopsAt(c);
    ClearStart(mem, s, stop);
    var p := s;
    while p % 8 != 0
      invariant Clear(mem, s, stop, p)
      decreases |mem| - p
    {
      RoomLeft(mem, s, stop, p);
      var done;
      done, f := Probe(mem, s, p, c);
      if done {
        return;
      }
      p := p + 1;
    }
    while true
      invariant p % 8 == 0 && Clear(mem, s, stop, p)
      decreases |mem| - p
    {
      RoomLeft(mem, s, stop, p);
      if MayStop(WordAt(mem, p), c) {
        var done;
        done, f := LookChr(mem, s, p, c);
        if done {
          return;
        }
      } else {
        SkipIsSafe(mem, s, p, c);
      }
      p := p + 8;
    }
  }
}
