/**
  * Table-driven spans, four bytes at a time from the next aligned address,
  * give the exact length of the naive scan.
  */
module TableScan {
  import opened WordScan

  // A string with its terminator.
  ghost predicate CString(d: seq<bv8>)
  {
    |d| > 0 && d[|d| - 1] == 0 && forall i | 0 <= i < |d| - 1 :: d[i] != 0
  }

  ghost function Chars(d: seq<bv8>): (cs: set<bv8>)
    requires |d| > 0
  {
    set i | 0 <= i < |d| - 1 :: d[i]
  }

  ghost function NotIn(cs: set<bv8>): (stop: bv8 -> bool)
  {
    (x: bv8) => x !in cs
  }

  ghost function InOrNul(cs: set<bv8>): (stop: bv8 -> bool)
  {
    (x: bv8) => x in cs || x == 0
  }

  lemma IsFirstSame(mem: seq<bv8>, s: nat, p: bv8 -> bool, q: bv8 -> bool, r: nat)
    requires IsFirst(mem, s, p, r) && forall x: bv8 :: p(x) == q(x)
    ensures IsFirst(mem, s, q, r)
  {
    var last := mem[r];
    assert p(last) == q(last);
    forall i | s <= i < r
      ensures !q(mem[i])
    {
      var x := mem[i];
      assert p(x) == q(x);
    }
  }

  // ----- The table -----

  function Index(x: bv8): (i: nat)
    ensures i < 256
  {
    x as int
  }

  lemma IndexDetermines(x: bv8, y: bv8)
    ensures Index(x) == Index(y) ==> x == y
  {
    assert x == (x as int) as bv8 && y == (y as int) as bv8;
  }

  ghost predicate TableIs(t: seq<bv8>, marked: set<bv8>)
  {
    |t| == 256 && forall x: bv8 :: t[Index(x)] == if x in marked then 1 else 0
  }

  lemma TableMark(t: seq<bv8>, marked: set<bv8>, y: bv8)
    requires TableIs(t, marked)
    ensures TableIs(t[Index(y) := 1], marked + {y})
  {
    hide Index;
    forall x: bv8
      ensures t[Index(y) := 1][Index(x)] == if x in marked + {y} then 1 else 0
    {
      IndexDetermines(x, y);
    }
  }

  // Marks the characters of `accept`, and its terminator when asked.
  method FillTable(accept: seq<bv8>, withNul: bool) returns (p: array<bv8>)
    requires CString(accept) && |accept| > 1
    ensures fresh(p) && p.Length == 256
    ensures TableIs(p[..], Chars(accept) + if withNul then {0} else {})
  {
    hide TableIs, Index;
    p := new bv8[256](_ => 0);
    EmptyTable(p[..]);
    var i := 0;
    var more := true;
    ghost var marked := {};
    while more
      invariant 0 <= i < |accept| + (if withNul then 1 else 0)
      invariant marked == set j | 0 <= j < i :: accept[j]
      invariant TableIs(p[..], marked)
      invariant more <==> i < |accept| - (if withNul then 0 else 1)
      decreases |accept| - i
    {
      TableMark(p[..], marked, accept[i]);
      TableSize(p[..], marked);
      p[Index(accept[i])] := 1;
      marked := marked + {accept[i]};
      more := if withNul then accept[i] != 0 else accept[i + 1] != 0;
      i := i + 1;
    }
    CharsMarked(accept, i, marked);
    assert marked == Chars(accept) + if withNul then {0} else {};
  }

  lemma CharsMarked(accept: seq<bv8>, i: nat, marked: set<bv8>)
    requires CString(accept) && marked == set j | 0 <= j < i <= |accept| :: accept[j]
    ensures i == |accept| - 1 ==> marked == Chars(accept)
    ensures i == |accept| ==> marked == Chars(accept) + {0}
  {
    if i == |accept| {
      forall x
        ensures x in marked <==> x in Chars(accept) + {0}
      {
        assert accept[i - 1] == 0;
        if x in marked {
          var j :| 0 <= j < i && accept[j] == x;
          assert j < i - 1 || x == 0;
        }
      }
    }
  }

  lemma EmptyTable(t: seq<bv8>)
    requires |t| == 256 && forall i | 0 <= i < 256 :: t[i] == 0
    ensures TableIs(t, {})
  {
  }

  lemma TableSize(t: seq<bv8>, marked: set<bv8>)
    requires TableIs(t, marked)
    ensures |t| == 256
  {
  }

  // ----- Spans -----

  // The table tells whether the scan goes on at a byte.
  lemma TableTells(t: seq<bv8>, marked: set<bv8>, x: bv8)
    requires TableIs(t, marked)
    ensures |t| == 256 && t[Index(x)] == if x in marked then 1 else 0
  {
    hide Index;
  }

  // The scan goes on exactly where the table holds `goOn`.
  ghost predicate Follows(stop: bv8 -> bool, marked: set<bv8>, goOn: bv8)
  {
    stop(0) && goOn in {0, 1} && forall x: bv8 :: stop(x) <==> (if x in marked then 1 else 0) != goOn
  }

  method Entry(p: array<bv8>, mem: seq<bv8>, at: nat, ghost marked: set<bv8>, ghost stop: bv8 -> bool, ghost goOn: bv8)
    returns (c: bv8)
    requires TableIs(p[..], marked) && Follows(stop, marked, goOn) && at < |mem|
    ensures c in {0, 1} && goOn in {0, 1} && (c == goOn <==> !stop(mem[at]))
  {
    hide TableIs, Index;
    var x := mem[at];
    TableTells(p[..], marked, x);
    c := p[Index(x)];
    assert stop(x) <==> c != goOn;
  }

  // One of the first four bytes.
  method First(p: array<bv8>, mem: seq<bv8>, ghost s: nat, r: nat, ghost marked: set<bv8>, ghost stop: bv8 -> bool, goOn: bv8)
    returns (stopped: bool)
    requires TableIs(p[..], marked) && Follows(stop, marked, goOn) && Terminated(mem, s) && Clear(mem, s, stop, r)
    ensures if stopped then IsFirst(mem, s, stop, r) else Clear(mem, s, stop, r + 1)
  {
    hide TableIs, Clear, IsFirst, Terminated;
    RoomLeft(mem, s, stop, r);
    var c := Entry(p, mem, r, marked, stop, goOn);
    ClearStep(mem, s, stop, r);
    stopped := c != goOn;
  }

  // What four tested bytes say.
  lemma FourBytes(mem: seq<bv8>, s: nat, stop: bv8 -> bool, q: nat)
    requires Clear(mem, s, stop, q) && q + 4 <= |mem|
    ensures stop(mem[q]) ==> IsFirst(mem, s, stop, q)
    ensures !stop(mem[q]) && stop(mem[q + 1]) ==> IsFirst(mem, s, stop, q + 1)
    ensures !stop(mem[q]) && !stop(mem[q + 1]) && stop(mem[q + 2]) ==> IsFirst(mem, s, stop, q + 2)
    ensures !stop(mem[q]) && !stop(mem[q + 1]) && !stop(mem[q + 2]) && stop(mem[q + 3]) ==> IsFirst(mem, s, stop, q + 3)
    ensures !stop(mem[q]) && !stop(mem[q + 1]) && !stop(mem[q + 2]) && !stop(mem[q + 3]) ==> Clear(mem, s, stop, q + 4)
  {
  }

  lemma ClearEarlier(mem: seq<bv8>, s: nat, stop: bv8 -> bool, q: nat, r: nat)
    requires Clear(mem, s, stop, r) && s <= q <= r
    ensures Clear(mem, s, stop, q)
  {
  }

  // Four table entries read at `q`, and what they say about the scan.
  ghost predicate Tested(mem: seq<bv8>, s: nat, stop: bv8 -> bool, q: nat, c0: bv8, c1: bv8, c2: bv8, c3: bv8, goOn: bv8)
  {
    c0 in {0, 1} && c1 in {0, 1} && c2 in {0, 1} && c3 in {0, 1} && goOn in {0, 1}
    && (c0 != goOn ==> IsFirst(mem, s, stop, q))
    && (c0 == goOn && c1 != goOn ==> IsFirst(mem, s, stop, q + 1))
    && (c0 == goOn && c1 == goOn && c2 != goOn ==> IsFirst(mem, s, stop, q + 2))
    && (c0 == goOn && c1 == goOn && c2 == goOn && c3 != goOn ==> IsFirst(mem, s, stop, q + 3))
    && (c0 == goOn && c1 == goOn && c2 == goOn && c3 == goOn ==> Clear(mem, s, stop, q + 4))
  }

  method FourEntries(p: array<bv8>, mem: seq<bv8>, ghost s: nat, q: nat, ghost marked: set<bv8>, ghost stop: bv8 -> bool, ghost goOn: bv8)
    returns (c0: bv8, c1: bv8, c2: bv8, c3: bv8)
    requires TableIs(p[..], marked) && Follows(stop, marked, goOn) && Terminated(mem, s) && Clear(mem, s, stop, q) && q % 4 == 0
    ensures q + 4 <= |mem| && Tested(mem, s, stop, q, c0, c1, c2, c3, goOn)
  {
    RoomLeft(mem, s, stop, q);
    hide TableIs, Follows, Clear, IsFirst, Terminated;
    c0 := Entry(p, mem, q, marked, stop, goOn);
    c1 := Entry(p, mem, q + 1, marked, stop, goOn);
    c2 := Entry(p, mem, q + 2, marked, stop, goOn);
    c3 := Entry(p, mem, q + 3, marked, stop, goOn);
    FourBytes(mem, s, stop, q);
  }

  // The checks of the first four bytes; then the next aligned address.
  method FirstFour(p: array<bv8>, mem: seq<bv8>, s: nat, ghost marked: set<bv8>, ghost stop: bv8 -> bool, goOn: bv8)
    returns (stopped: bool, n: nat, q: nat)
    requires TableIs(p[..], marked) && Follows(stop, marked, goOn) && Terminated(mem, s)
    ensures if stopped then IsFirst(mem, s, stop, s + n) else q % 4 == 0 && s < q && Clear(mem, s, stop, q)
  {
    hide TableIs, Follows, Clear, IsFirst, Terminated;
    ClearStart(mem, s, stop);
    stopped := First(p, mem, s, s, marked, stop, goOn);
    if stopped { return true, 0, s; }
    stopped := First(p, mem, s, s + 1, marked, stop, goOn);
    if stopped { return true, 1, s; }
    stopped := First(p, mem, s, s + 2, marked, stop, goOn);
    if stopped { return true, 2, s; }
    stopped := First(p, mem, s, s + 3, marked, stop, goOn);
    if stopped { return true, 3, s; }
    q := s / 4 * 4 + 4;
    ClearEarlier(mem, s, stop, q, s + 4);
    return false, 4, q;
  }

  lemma SpanFollows(accept: seq<bv8>)
    requires CString(accept)
    ensures Chars(accept) + {} == Chars(accept) && Follows(NotIn(Chars(accept)), Chars(accept), 1)
  {
  }

  lemma CspanFollows(reject: seq<bv8>)
    requires CString(reject)
    ensures Follows(InOrNul(Chars(reject)), Chars(reject) + {0}, 0)
  {
  }

  // The length of the longest prefix made of characters of `accept`.
  method Strspn(mem: seq<bv8>, s: nat, accept: seq<bv8>) returns (n: nat)
    requires Terminated(mem, s) && CString(accept)
    ensures IsFirst(mem, s, NotIn(Chars(accept)), s + n)
  {
    if accept[0] == 0 {
      assert s < |mem|;
      return 0;
    }
    if accept[1] == 0 {
      n := SpanOne(mem, s, accept[0]);
      assert Chars(accept) == {accept[0]};
      IsFirstSame(mem, s, NotIn({accept[0]}), NotIn(Chars(accept)), s + n);
      return n;
    }
    n := SpanTable(mem, s, accept);
  }

  method SpanOne(mem: seq<bv8>, s: nat, c: bv8) returns (n: nat)
    requires Terminated(mem, s) && c != 0
    ensures IsFirst(mem, s, NotIn({c}), s + n)
  {
    hide Clear, IsFirst, Terminated;
    ghost var stop := NotIn({c});
    ClearStart(mem, s, stop);
    RoomLeft(mem, s, stop, s);
    ClearStep(mem, s, stop, s);
    var p := s;
    while mem[p] == c
      invariant s <= p < |mem| && Clear(mem, s, stop, p)
      decreases |mem| - p
    {
      ClearStep(mem, s, stop, p);
      p := p + 1;
      RoomLeft(mem, s, stop, p);
    }
    ClearStep(mem, s, stop, p);
    return p - s;
  }

  method SpanTable(mem: seq<bv8>, s: nat, accept: seq<bv8>) returns (n: nat)
    requires Terminated(mem, s) && CString(accept) && |accept| > 1
    ensures IsFirst(mem, s, NotIn(Chars(accept)), s + n)
  {
    hide NotIn, TableIs, Follows, Clear, IsFirst, Terminated, CString, Chars;
    ghost var marked, stop := Chars(accept), NotIn(Chars(accept));
    SpanFollows(accept);
    var p := FillTable(accept, false);
    var stopped, q;
    stopped, n, q := FirstFour(p, mem, s, marked, stop, 1);
    if !stopped {
      n := SpanGroups(p, mem, s, q, marked, stop);
    }
  }

  method SpanGroups(p: array<bv8>, mem: seq<bv8>, s: nat, from: nat, ghost marked: set<bv8>, ghost stop: bv8 -> bool) returns (n: nat)
    requires TableIs(p[..], marked) && Follows(stop, marked, 1) && Terminated(mem, s)
    requires from % 4 == 0 && s < from && Clear(mem, s, stop, from)
    ensures IsFirst(mem, s, stop, s + n)
  {
    hide TableIs, Follows, Clear, IsFirst, Terminated, Tested, AllSet, SpanTail;
    var q := from;
    var c0, c1, c2, c3 := FourEntries(p, mem, s, q, marked, stop, 1);
    while AllSet(c0, c1, c2, c3)
      invariant q % 4 == 0 && s < q <= |mem|
      invariant Tested(mem, s, stop, q, c0, c1, c2, c3, 1)
      decreases |mem| - q
    {
      OnesSpan(mem, s, stop, q, c0, c1, c2, c3);
      q := q + 4;
      c0, c1, c2, c3 := FourEntries(p, mem, s, q, marked, stop, 1);
    }
    OnesSpan(mem, s, stop, q, c0, c1, c2, c3);
    var count := q - s;
    return count + SpanTail(c0, c1, c2);
  }

  predicate AllSet(c0: bv8, c1: bv8, c2: bv8, c3: bv8)
  {
    c0 & c1 & c2 & c3 != 0
  }

  predicate AllClear(c0: bv8, c1: bv8, c2: bv8, c3: bv8)
  {
    c0 | c1 | c2 | c3 == 0
  }

  // What the source adds to the count of the four-byte group.
  function SpanTail(c0: bv8, c1: bv8, c2: bv8): (n: int)
  {
    if c0 & c1 == 0 then c0 as int else c2 as int + 2
  }

  function CspanTail(c0: bv8, c1: bv8, c2: bv8): (n: int)
  {
    if c0 | c1 != 0 then 1 - c0 as int else 3 - c2 as int
  }

  lemma BitsTogether(c0: bv8, c1: bv8, c2: bv8, c3: bv8)
    requires c0 in {0, 1} && c1 in {0, 1} && c2 in {0, 1} && c3 in {0, 1}
    ensures c0 & c1 & c2 & c3 != 0 <==> c0 == 1 && c1 == 1 && c2 == 1 && c3 == 1
    ensures c0 & c1 == 0 <==> c0 == 0 || c1 == 0
    ensures c0 | c1 | c2 | c3 == 0 <==> c0 == 0 && c1 == 0 && c2 == 0 && c3 == 0
    ensures c0 | c1 != 0 <==> c0 == 1 || c1 == 1
    ensures c0 as int == (if c0 == 1 then 1 else 0) && c2 as int == if c2 == 1 then 1 else 0
  {
  }

  lemma OnesSpan(mem: seq<bv8>, s: nat, stop: bv8 -> bool, q: nat, c0: bv8, c1: bv8, c2: bv8, c3: bv8)
    requires Tested(mem, s, stop, q, c0, c1, c2, c3, 1)
    ensures SpanTail(c0, c1, c2) >= 0
    ensures if AllSet(c0, c1, c2, c3) then Clear(mem, s, stop, q + 4) else IsFirst(mem, s, stop, q + SpanTail(c0, c1, c2))
  {
    hide Clear, IsFirst;
    BitsTogether(c0, c1, c2, c3);
  }

  lemma ZerosSpan(mem: seq<bv8>, s: nat, stop: bv8 -> bool, q: nat, c0: bv8, c1: bv8, c2: bv8, c3: bv8)
    requires Tested(mem, s, stop, q, c0, c1, c2, c3, 0)
    ensures CspanTail(c0, c1, c2) >= 0
    ensures if AllClear(c0, c1, c2, c3) then Clear(mem, s, stop, q + 4) else IsFirst(mem, s, stop, q + CspanTail(c0, c1, c2))
  {
    hide Clear, IsFirst;
    BitsTogether(c0, c1, c2, c3);
  }

  // The length of the longest prefix free of characters of `reject`.
  method Strcspn(mem: seq<bv8>, s: nat, reject: seq<bv8>) returns (n: nat)
    requires Terminated(mem, s) && CString(reject)
    ensures IsFirst(mem, s, InOrNul(Chars(reject)), s + n)
  {
    if reject[0] == 0 || reject[1] == 0 {
      var r := Strchrnul(mem, s, reject[0]);
      assert Chars(reject) == {reject[0]} - {0};
      IsFirstSame(mem, s, StopsAt(reject[0]), InOrNul(Chars(reject)), r);
      return r - s;
    }
    n := CspanTable(mem, s, reject);
  }

  method CspanTable(mem: seq<bv8>, s: nat, reject: seq<bv8>) returns (n: nat)
    requires Terminated(mem, s) && CString(reject) && |reject| > 1
    ensures IsFirst(mem, s, InOrNul(Chars(reject)), s + n)
  {
    hide InOrNul, TableIs, Follows, Clear, IsFirst, Terminated, CString, Chars;
    ghost var marked, stop := Chars(reject) + {0}, InOrNul(Chars(reject));
    CspanFollows(reject);
    var p := FillTable(reject, true);
    var stopped, q;
    stopped, n, q := FirstFour(p, mem, s, marked, stop, 0);
    if !stopped {
      n := CspanGroups(p, mem, s, q, marked, stop);
    }
  }

  method CspanGroups(p: array<bv8>, mem: seq<bv8>, s: nat, from: nat, ghost marked: set<bv8>, ghost stop: bv8 -> bool) returns (n: nat)
    requires TableIs(p[..], marked) && Follows(stop, marked, 0) && Terminated(mem, s)
    requires from % 4 == 0 && s < from && Clear(mem, s, stop, from)
    ensures IsFirst(mem, s, stop, s + n)
  {
    hide TableIs, Follows, Clear, IsFirst, Terminated, Tested, AllClear, CspanTail;
    var q := from;
    var c0, c1, c2, c3 := FourEntries(p, mem, s, q, marked, stop, 0);
    while AllClear(c0, c1, c2, c3)
      invariant q % 4 == 0 && s < q <= |mem|
      invariant Tested(mem, s, stop, q, c0, c1, c2, c3, 0)
      decreases |mem| - q
    {
      ZerosSpan(mem, s, stop, q, c0, c1, c2, c3);
      q := q + 4;
      c0, c1, c2, c3 := FourEntries(p, mem, s, q, marked, stop, 0);
    }
    ZerosSpan(mem, s, stop, q, c0, c1, c2, c3);
    var count := q - s;
    return count + CspanTail(c0, c1, c2);
  }

  // The first character of `accept` in the string, if there is one.
  method Strpbrk(mem: seq<bv8>, s: nat, accept: seq<bv8>) returns (f: Found)
    requires Terminated(mem, s) && CString(accept)
    ensures f.At? ==> IsFirst(mem, s, InOrNul(Chars(accept)), f.address) && mem[f.address] in Chars(accept)
    ensures f.Null? ==> exists e :: EndsAt(mem, s, e) && IsFirst(mem, s, InOrNul(Chars(accept)), e)
  {
    hide CString, Chars;
    var n := Strcspn(mem, s, accept);
    if mem[s + n] != 0 {
      return At(s + n);
    }
    assert EndsAt(mem, s, s + n);
    return Null;
  }
}
