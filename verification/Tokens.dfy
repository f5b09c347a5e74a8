/**
  * `strtok_r`, called until it returns nothing, yields the maximal
  * delimiter-free runs of the string, in order, and overwrites only
  * delimiters.
  */
module Tokens {
  import opened WordScan
  import opened TableScan

  // ----- The runs of a text -----

  // Length of the leading part free of `cs`.
  ghost function RunLength(t: seq<bv8>, cs: set<bv8>): (n: nat)
    ensures n <= |t| && (n < |t| ==> t[n] in cs) && forall i | 0 <= i < n :: t[i] !in cs
  {
    if t == [] || t[0] in cs then 0 else 1 + RunLength(t[1..], cs)
  }

  // The maximal runs free of `cs`, in order.
  ghost function Runs(t: seq<bv8>, cs: set<bv8>): (r: seq<seq<bv8>>)
    ensures forall k | 0 <= k < |r| :: |r[k]| > 0 && forall i | 0 <= i < |r[k]| :: r[k][i] !in cs
  {
    if t == [] then []
    else if t[0] in cs then Runs(t[1..], cs)
    else
      var n := RunLength(t, cs);
      assert n > 0;
      [t[..n]] + Runs(t[n..], cs)
  }

  lemma {:induction false} RunsSkip(t: seq<bv8>, cs: set<bv8>, n: nat)
    requires n <= |t| && forall i | 0 <= i < n :: t[i] in cs
    ensures Runs(t, cs) == Runs(t[n..], cs)
  {
    if n == 0 {
      assert t[0..] == t;
    } else {
      RunsSkip(t[1..], cs, n - 1);
      assert t[1..][n - 1..] == t[n..];
    }
  }

  lemma RunsTake(t: seq<bv8>, cs: set<bv8>, n: nat)
    requires 0 < n <= |t| && (n < |t| ==> t[n] in cs) && forall i | 0 <= i < n :: t[i] !in cs
    ensures Runs(t, cs) == [t[..n]] + Runs(t[n..], cs)
  {
    assert RunLength(t, cs) == n;
  }

  // ----- One call -----

  // The string at `p` reads `run`.
  ghost predicate Reads(mem: seq<bv8>, p: nat, run: seq<bv8>)
  {
    p + |run| < |mem| && mem[p..p + |run|] == run && mem[p + |run|] == 0
  }

  lemma MoveStart(mem: seq<bv8>, s: nat, e: nat, b: nat)
    requires |mem| % 8 == 0 && EndsAt(mem, s, e) && s <= b <= e
    ensures EndsAt(mem, b, e) && Terminated(mem, b)
  {
    assert EndsAt(mem, b, e);
  }

  lemma OneEnd(mem: seq<bv8>, s: nat, e: nat, f: nat)
    requires EndsAt(mem, s, e) && EndsAt(mem, s, f)
    ensures e == f
  {
  }

  lemma SpanStops(mem: seq<bv8>, s: nat, e: nat, cs: set<bv8>, b: nat)
    requires EndsAt(mem, s, e) && 0 !in cs && IsFirst(mem, s, NotIn(cs), b)
    ensures s <= b <= e && (mem[b] == 0 <==> b == e)
    ensures forall i | s <= i < b :: mem[i] in cs
  {
  }

  lemma CspanStops(mem: seq<bv8>, b: nat, e: nat, cs: set<bv8>, d: nat)
    requires EndsAt(mem, b, e) && 0 !in cs && IsFirst(mem, b, InOrNul(cs), d)
    ensures b <= d <= e && (mem[d] == 0 <==> d == e) && (d < e ==> mem[d] in cs)
    ensures forall i | b <= i < d :: mem[i] !in cs
  {
  }

  // In the string from `from` to `e`, delimiters up to `b`, then a maximal
  // run up to `d`; all is delimiters when `b` is `e`.
  ghost predicate TokenAt(mem: seq<bv8>, from: nat, e: nat, cs: set<bv8>, b: nat, d: nat)
  {
    from <= b <= d <= e < |mem| && (b < e ==> b < d) && (d < e ==> mem[d] in cs)
    && (forall i | from <= i < b :: mem[i] in cs)
    && (forall i | b <= i < d :: mem[i] !in cs && mem[i] != 0)
  }

  // `strtok_r`, on the string that ends at `e`.
  method StrtokR(mem: array<bv8>, s: Found, delim: seq<bv8>, save: nat, ghost e: nat)
    returns (token: Found, next: nat, ghost b: nat, ghost d: nat)
    requires CString(delim) && mem.Length % 8 == 0
    requires EndsAt(mem[..], if s.At? then s.address else save, e)
    modifies mem
    ensures TokenAt(old(mem[..]), if s.At? then s.address else save, e, Chars(delim), b, d)
    ensures token == if b == e then Null else At(b)
    ensures next == if d < e then d + 1 else e
    ensures mem[..] == if d < e then old(mem[..])[d := 0] else old(mem[..])
  {
    var from := if s.At? then s.address else save;
    ghost var was, cs := mem[..], Chars(delim);
    assert 0 !in cs;
    hide IsFirst, EndsAt, Terminated, CString, Chars;
    EndInside(was, from, e);
    MoveStart(was, from, e, from);
    var n := Strspn(mem[..], from, delim);
    var at := from + n;
    SpanStops(was, from, e, cs, at);
    b := at;
    if mem[at] == 0 {
      d := e;
      return Null, at, b, d;
    }
    MoveStart(was, from, e, at);
    var f := Strpbrk(mem[..], at, delim);
    if f.Null? {
      var end := Strchr(mem[..], at, 0);
      EndFound(was, at, e, end);
      d := e;
      NoDelimiter(was, at, e, cs);
      return At(at), end.address, b, d;
    }
    d := f.address;
    CspanStops(was, at, e, cs, d);
    mem[f.address] := 0;
    return At(at), f.address + 1, b, d;
  }

  lemma EndInside(mem: seq<bv8>, s: nat, e: nat)
    requires EndsAt(mem, s, e)
    ensures s <= e < |mem| && mem[e] == 0 && forall i | s <= i < e :: mem[i] != 0
  {
    assert IsNul(mem[e]);
    forall i | s <= i < e
      ensures mem[i] != 0
    {
      assert !IsNul(mem[i]);
    }
  }

  lemma EndFound(mem: seq<bv8>, s: nat, e: nat, f: Found)
    requires EndsAt(mem, s, e) && ChrIs(mem, s, 0, f)
    ensures f == At(e)
  {
  }

  lemma NoDelimiter(mem: seq<bv8>, s: nat, e: nat, cs: set<bv8>)
    requires EndsAt(mem, s, e) && 0 !in cs
    requires exists f :: EndsAt(mem, s, f) && IsFirst(mem, s, InOrNul(cs), f)
    ensures forall i | s <= i < e :: mem[i] !in cs
  {
    var f: nat :| EndsAt(mem, s, f) && IsFirst(mem, s, InOrNul(cs), f);
    OneEnd(mem, s, e, f);
  }

  // ----- All calls -----

  lemma RunThenRest(u: seq<bv8>, cs: set<bv8>, n: nat)
    requires 0 < n <= |u| && (n < |u| ==> u[n] in cs) && forall i | 0 <= i < n :: u[i] !in cs
    ensures Runs(u, cs) == [u[..n]] + Runs(if n < |u| then u[n + 1..] else [], cs)
  {
    RunsTake(u, cs, n);
    if n < |u| {
      RunsSkip(u[n..], cs, 1);
      assert u[n..][1..] == u[n + 1..];
    } else {
      assert u[n..] == [];
    }
  }

  lemma TextRuns(t: seq<bv8>, cs: set<bv8>, i: nat, j: nat)
    requires i <= j <= |t| && (i < |t| ==> i < j) && (j < |t| ==> t[j] in cs)
    requires (forall k | 0 <= k < i :: t[k] in cs) && (forall k | i <= k < j :: t[k] !in cs)
    ensures Runs(t, cs) == if i == |t| then [] else [t[i..j]] + Runs(if j < |t| then t[j + 1..] else [], cs)
  {
    hide Runs;
    RunsSkip(t, cs, i);
    if i == |t| {
      NoRuns(cs);
      assert t[i..] == [];
    } else {
      var u := t[i..];
      RunThenRest(u, cs, j - i);
      assert u[..j - i] == t[i..j];
      if j < |t| {
        assert u[j - i + 1..] == t[j + 1..];
      }
    }
  }

  lemma TokenRuns(mem: seq<bv8>, from: nat, e: nat, cs: set<bv8>, b: nat, d: nat)
    requires TokenAt(mem, from, e, cs, b, d)
    ensures Runs(mem[from..e], cs) ==
            if b == e then [] else [mem[b..d]] + Runs(if d < e then mem[d + 1..e] else [], cs)
  {
    hide Runs;
    var t := mem[from..e];
    TextRuns(t, cs, b - from, d - from);
    Subslice(mem, from, e, b, d);
    if d < e {
      Subslice(mem, from, e, d + 1, e);
      assert t[d - from + 1..] == t[d + 1 - from..e - from];
    }
  }

  lemma Subslice(mem: seq<bv8>, from: nat, e: nat, x: nat, y: nat)
    requires from <= x <= y <= e <= |mem|
    ensures mem[from..e][x - from..y - from] == mem[x..y]
  {
    var t := mem[from..e];
    var u := t[x - from..y - from];
    forall i | 0 <= i < y - x
      ensures u[i] == mem[x..y][i]
    {
      assert u[i] == t[x - from + i] == mem[x + i];
    }
  }

  // Tokens handed out so far: each still reads its run, and ends before what
  // is left, unless nothing is left.
  ghost predicate Handed(mem: seq<bv8>, toks: seq<nat>, runs: seq<seq<bv8>>, next: nat, e: nat)
  {
    |toks| == |runs|
    && forall k | 0 <= k < |toks| :: Reads(mem, toks[k], runs[k]) && (toks[k] + |runs[k]| < next || next == e)
  }

  // Only delimiters are overwritten, and nothing from `next` on.
  ghost predicate Spared(was: seq<bv8>, mem: seq<bv8>, cs: set<bv8>, next: nat)
  {
    |was| == |mem| && forall i | 0 <= i < |mem| :: mem[i] == was[i] || (i < next && was[i] in cs && mem[i] == 0)
  }

  // Everything known between two calls: what was handed out, followed by the
  // runs of what is left from `next`, is the runs of the whole text.
  ghost predicate Progress(was: seq<bv8>, mem: seq<bv8>, text: seq<bv8>, cs: set<bv8>, toks: seq<nat>, runs: seq<seq<bv8>>, next: nat, e: nat)
  {
    0 !in cs && EndsAt(mem, next, e) && Handed(mem, toks, runs, next, e) && Spared(was, mem, cs, next)
    && Runs(text, cs) == runs + Runs(mem[next..e], cs)
  }

  function Written(mem: seq<bv8>, d: nat, e: nat): (r: seq<bv8>)
    requires d <= e < |mem|
  {
    if d < e then mem[d := 0] else mem
  }

  lemma HandedStep(mem: seq<bv8>, cs: set<bv8>, toks: seq<nat>, runs: seq<seq<bv8>>, from: nat, e: nat, b: nat, d: nat)
    requires Handed(mem, toks, runs, from, e) && TokenAt(mem, from, e, cs, b, d) && b < e && mem[e] == 0
    ensures Handed(Written(mem, d, e), toks + [b], runs + [mem[b..d]], if d < e then d + 1 else e, e)
  {
    var now := Written(mem, d, e);
    forall k | 0 <= k < |toks|
      ensures Reads(now, toks[k], runs[k]) && toks[k] + |runs[k]| < from
    {
      assert now[toks[k]..toks[k] + |runs[k]|] == mem[toks[k]..toks[k] + |runs[k]|];
    }
    assert now[b..d] == mem[b..d];
    assert Reads(now, b, mem[b..d]);
  }

  lemma EndKept(mem: seq<bv8>, from: nat, e: nat, d: nat)
    requires EndsAt(mem, from, e) && from <= d <= e
    ensures EndsAt(Written(mem, d, e), if d < e then d + 1 else e, e)
  {
  }

  lemma ProgressStarts(mem: seq<bv8>, cs: set<bv8>, s: nat, e: nat)
    requires 0 !in cs && EndsAt(mem, s, e)
    ensures Progress(mem, mem, mem[s..e], cs, [], [], s, e)
  {
  }

  lemma ProgressStep(was: seq<bv8>, mem: seq<bv8>, text: seq<bv8>, cs: set<bv8>, toks: seq<nat>, runs: seq<seq<bv8>>,
                     from: nat, e: nat, b: nat, d: nat)
    requires Progress(was, mem, text, cs, toks, runs, from, e) && TokenAt(mem, from, e, cs, b, d)
    ensures var next := if d < e then d + 1 else e;
            if b == e then Progress(was, mem, text, cs, toks, runs, e, e) && Runs(text, cs) == runs
            else Progress(was, Written(mem, d, e), text, cs, toks + [b], runs + [mem[b..d]], next, e)
  {
    hide EndsAt, Handed, Runs, Reads;
    var next, now := if d < e then d + 1 else e, Written(mem, d, e);
    EndInside(mem, from, e);
    TokenRuns(mem, from, e, cs, b, d);
    EndKept(mem, from, e, d);
    if b == e {
      HandedEnds(mem, toks, runs, from, e);
      assert mem[e..e] == [];
      NoRuns(cs);
    } else {
      HandedStep(mem, cs, toks, runs, from, e, b, d);
      assert now[next..e] == mem[next..e];
      var left := Runs(now[next..e], cs);
      if d == e {
        assert mem[next..e] == [];
      }
      assert runs + ([mem[b..d]] + left) == runs + [mem[b..d]] + left;
    }
  }

  lemma NoRuns(cs: set<bv8>)
    ensures Runs([], cs) == []
  {
  }

  lemma HandedEnds(mem: seq<bv8>, toks: seq<nat>, runs: seq<seq<bv8>>, from: nat, e: nat)
    requires Handed(mem, toks, runs, from, e)
    ensures Handed(mem, toks, runs, e, e)
  {
  }

  lemma ProgressEnds(was: seq<bv8>, mem: seq<bv8>, text: seq<bv8>, cs: set<bv8>, toks: seq<nat>, runs: seq<seq<bv8>>, from: nat, e: nat)
    requires Progress(was, mem, text, cs, toks, runs, from, e)
    ensures EndsAt(mem, from, e) && from <= e && Handed(mem, toks, runs, e, e) && Spared(was, mem, cs, e)
  {
  }

  // Calling `strtok_r` with the string and then with nothing until it finds
  // no token: the tokens read as the runs of the text, in order.
  method Tokenize(mem: array<bv8>, s: nat, delim: seq<bv8>, ghost e: nat) returns (toks: seq<nat>)
    requires CString(delim) && mem.Length % 8 == 0 && EndsAt(mem[..], s, e)
    modifies mem
    ensures Handed(mem[..], toks, Runs(old(mem[..])[s..e], Chars(delim)), e, e)
    ensures Spared(old(mem[..]), mem[..], Chars(delim), e)
  {
    ghost var was, cs := mem[..], Chars(delim);
    assert 0 !in cs;
    hide EndsAt, CString, Chars, Runs, Handed, Spared, Progress, TokenAt;
    EndInside(was, s, e);
    ghost var text, runs := was[s..e], [];
    ProgressStarts(was, cs, s, e);
    toks := [];
    var from, more := At(s), true;
    var save := s;
    while more
      invariant s <= save <= e && (from.At? ==> from.address == save)
      invariant Progress(was, mem[..], text, cs, toks, runs, save, e)
      invariant !more ==> Runs(text, cs) == runs
      decreases if more then 1 + e - save else 0
    {
      ghost var before := mem[..];
      ProgressEnds(was, before, text, cs, toks, runs, save, e);
      var token, next, b, d := StrtokR(mem, from, delim, save, e);
      ProgressStep(was, before, text, cs, toks, runs, save, e, b, d);
      TokenBounds(before, save, e, cs, b, d);
      if token.At? {
        toks := toks + [token.address];
        runs := runs + [before[b..d]];
      } else {
        more := false;
      }
      from, save := Null, next;
    }
    ProgressEnds(was, mem[..], text, cs, toks, runs, save, e);
  }

  lemma TokenBounds(mem: seq<bv8>, from: nat, e: nat, cs: set<bv8>, b: nat, d: nat)
    requires TokenAt(mem, from, e, cs, b, d)
    ensures from <= b <= d <= e < |mem| && (b < e ==> b < d)
  {
  }
}
