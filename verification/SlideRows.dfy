/**
  * One line of the 2048 board, read from the edge the tiles slide to. Zero is
  * an empty square. What the slide routines build tile by tile is the row in
  * which the tiles are packed and equal neighbours are joined once.
  */
module SlideRows {

  // ----- The rule of the game -----

  // The tiles of a row, without the gaps.
  function Compact(row: seq<nat>): (r: seq<nat>)
    ensures |r| <= |row| && forall i | 0 <= i < |r| :: r[i] != 0
  {
    if row == [] then []
    else if row[0] == 0 then Compact(row[1..])
    else [row[0]] + Compact(row[1..])
  }

  // Joins equal neighbours, each tile at most once, from the leading edge.
  function Merge(s: seq<nat>): (r: seq<nat>)
    ensures |r| <= |s|
  {
    if |s| < 2 then s
    else if s[0] == s[1] then [2 * s[0]] + Merge(s[2..])
    else [s[0]] + Merge(s[1..])
  }

  // A row of empty squares.
  function Blank(n: nat): (z: seq<nat>)
    ensures |z| == n && forall i | 0 <= i < n :: z[i] == 0
  {
    seq(n, _ => 0)
  }

  function SlideRow(row: seq<nat>): (r: seq<nat>)
    ensures |r| == |row|
  {
    var m := Merge(Compact(row));
    m + Blank(|row| - |m|)
  }

  // ----- Tile by tile -----

  // A placed tile, and whether it was joined this turn.
  datatype Entry = Entry(value: nat, merged: bool)

  function Push(p: seq<Entry>, v: nat): (r: seq<Entry>)
  {
    if p != [] && p[|p| - 1] == Entry(v, false) then p[|p| - 1 := Entry(2 * v, true)] else p + [Entry(v, false)]
  }

  // The tiles placed once the squares of `row` have been visited in order.
  function Stack(row: seq<nat>): (r: seq<Entry>)
    ensures |r| <= |row| && forall i | 0 <= i < |r| :: r[i].value > 0
  {
    if row == [] then []
    else
      var p := Stack(row[..|row| - 1]);
      if row[|row| - 1] == 0 then p else Push(p, row[|row| - 1])
  }

  function Values(p: seq<Entry>): (r: seq<nat>)
    ensures |r| == |p|
  {
    seq(|p|, i requires 0 <= i < |p| => p[i].value)
  }

  function Padded(p: seq<Entry>, n: nat): (r: seq<nat>)
    requires |p| <= n
    ensures |r| == n
  {
    Values(p) + Blank(n - |p|)
  }

  // ----- Both agree -----

  function Merged(s: seq<nat>): (r: seq<Entry>)
  {
    if s == [] then []
    else if |s| >= 2 && s[0] == s[1] then [Entry(2 * s[0], true)] + Merged(s[2..])
    else [Entry(s[0], false)] + Merged(s[1..])
  }

  lemma {:induction false} MergedIsMerge(s: seq<nat>)
    ensures Values(Merged(s)) == Merge(s)
  {
    if |s| >= 2 && s[0] == s[1] {
      MergedIsMerge(s[2..]);
      assert Values(Merged(s)) == [2 * s[0]] + Values(Merged(s[2..]));
    } else if |s| >= 2 {
      MergedIsMerge(s[1..]);
      assert Values(Merged(s)) == [s[0]] + Values(Merged(s[1..]));
    } else if |s| == 1 {
      assert s[1..] == [];
    }
  }

  lemma PushBehind(e: Entry, q: seq<Entry>, v: nat)
    requires q != [] || e != Entry(v, false)
    ensures Push([e] + q, v) == [e] + Push(q, v)
  {
    if q != [] {
      assert ([e] + q)[|q|] == q[|q| - 1];
    }
  }

  lemma {:induction false} MergedPush(s: seq<nat>, v: nat)
    ensures Merged(s + [v]) == Push(Merged(s), v)
  {
    if s == [] {
      assert (s + [v])[1..] == [];
    } else if |s| >= 2 && s[0] == s[1] {
      MergedPush(s[2..], v);
      assert (s + [v])[2..] == s[2..] + [v];
      PushBehind(Entry(2 * s[0], true), Merged(s[2..]), v);
    } else if |s| >= 2 {
      MergedPush(s[1..], v);
      assert (s + [v])[1..] == s[1..] + [v];
      PushBehind(Entry(s[0], false), Merged(s[1..]), v);
    } else {
      assert s[1..] == [] && (s + [v])[1..] == [v] && (s + [v])[2..] == [] && [v][1..] == [];
    }
  }

  lemma {:induction false} CompactAppend(row: seq<nat>, v: nat)
    ensures Compact(row + [v]) == Compact(row) + if v == 0 then [] else [v]
  {
    if row != [] {
      assert (row + [v])[1..] == row[1..] + [v];
      CompactAppend(row[1..], v);
    } else {
      assert (row + [v])[1..] == [];
    }
  }

  lemma {:induction false} StackIsMerged(row: seq<nat>)
    ensures Stack(row) == Merged(Compact(row))
  {
    if row != [] {
      var front, v := row[..|row| - 1], row[|row| - 1];
      assert row == front + [v];
      StackIsMerged(front);
      CompactAppend(front, v);
      if v != 0 {
        MergedPush(Compact(front), v);
      } else {
        assert Compact(front) + [] == Compact(front);
      }
    }
  }

  // Visiting every square in order makes the row the rule asks for.
  lemma StackIsSlide(row: seq<nat>)
    ensures Padded(Stack(row), |row|) == SlideRow(row)
  {
    StackIsMerged(row);
    MergedIsMerge(Compact(row));
  }

  // ----- What a slide keeps -----

  function Sum(row: seq<nat>): (n: nat)
  {
    if row == [] then 0 else Sum(row[..|row| - 1]) + row[|row| - 1]
  }

  lemma {:induction false} SumAppend(a: seq<nat>, b: seq<nat>)
    ensures Sum(a + b) == Sum(a) + Sum(b)
  {
    if b == [] {
      assert a + b == a;
    } else {
      assert (a + b)[..|a + b| - 1] == a + b[..|b| - 1];
      SumAppend(a, b[..|b| - 1]);
    }
  }

  lemma {:induction false} SumBlank(n: nat)
    ensures Sum(Blank(n)) == 0
  {
    if n > 0 {
      assert Blank(n)[..n - 1] == Blank(n - 1);
      SumBlank(n - 1);
    }
  }

  lemma PushSum(p: seq<Entry>, v: nat)
    ensures Sum(Values(Push(p, v))) == Sum(Values(p)) + v
  {
    if p != [] && p[|p| - 1] == Entry(v, false) {
      var q := Push(p, v);
      assert Values(q)[..|q| - 1] == Values(p)[..|p| - 1];
    } else {
      assert Values(Push(p, v))[..|p|] == Values(p);
    }
  }

  lemma {:induction false} StackSum(row: seq<nat>)
    ensures Sum(Values(Stack(row))) == Sum(row)
  {
    if row == [] {
      assert Values(Stack(row)) == [];
    } else {
      StackSum(row[..|row| - 1]);
      PushSum(Stack(row[..|row| - 1]), row[|row| - 1]);
    }
  }

  lemma SlideKeepsSum(row: seq<nat>)
    ensures Sum(SlideRow(row)) == Sum(row)
  {
    StackIsSlide(row);
    StackSum(row);
    SumAppend(Values(Stack(row)), Blank(|row| - |Stack(row)|));
    SumBlank(|row| - |Stack(row)|);
  }

  // A power of two, at least two.
  predicate IsTile(n: nat)
  {
    n == 2 || (n > 2 && n % 2 == 0 && IsTile(n / 2))
  }

  predicate GoodRow(row: seq<nat>)
  {
    forall i | 0 <= i < |row| :: row[i] == 0 || IsTile(row[i])
  }

  lemma DoubleTile(v: nat)
    ensures IsTile(v) ==> IsTile(2 * v)
  {
    if IsTile(v) {
      assert 2 * v > 2 && 2 * v % 2 == 0 && 2 * v / 2 == v;
    }
  }

  lemma {:induction false} StackGood(row: seq<nat>)
    requires GoodRow(row)
    ensures forall i | 0 <= i < |Stack(row)| :: IsTile(Stack(row)[i].value)
  {
    hide IsTile;
    if row != [] {
      StackGood(row[..|row| - 1]);
      DoubleTile(row[|row| - 1]);
    }
  }

  lemma SlideKeepsGood(row: seq<nat>)
    requires GoodRow(row)
    ensures GoodRow(SlideRow(row))
  {
    StackGood(row);
    StackIsSlide(row);
  }

  // ----- When a slide changes the row -----

  // The tile at `k` moves or joins when it is visited.
  predicate MovesAt(row: seq<nat>, k: nat)
    requires k < |row|
  {
    row[k] != 0 &&
    var p := Stack(row[..k]);
    |p| < k || (p != [] && p[|p| - 1] == Entry(row[k], false))
  }

  predicate AnyMoves(row: seq<nat>, n: nat)
    requires n <= |row|
  {
    exists k | 0 <= k < n :: MovesAt(row, k)
  }

  // Square w no longer shows x, and never will again this turn.
  predicate Departed(p: seq<Entry>, w: nat, x: nat)
  {
    w < |p| && (x == 0 || (p[w].merged && p[w].value != x))
  }

  lemma StackStep(row: seq<nat>, k: nat)
    requires k < |row|
    ensures Stack(row[..k + 1]) == if row[k] == 0 then Stack(row[..k]) else Push(Stack(row[..k]), row[k])
  {
    assert row[..k + 1][..k] == row[..k];
  }

  lemma DepartedStays(p: seq<Entry>, w: nat, x: nat, v: nat)
    requires Departed(p, w, x)
    ensures Departed(Push(p, v), w, x)
  {
  }

  lemma FirstMove(p: seq<Entry>, row: seq<nat>, k: nat, v: nat) returns (w: nat)
    requires |p| <= k == |row| && Padded(p, k) == row && v != 0
    requires |p| < k || (p != [] && p[|p| - 1] == Entry(v, false))
    ensures w < k && Departed(Push(p, v), w, row[w])
  {
    if p != [] && p[|p| - 1] == Entry(v, false) {
      w := |p| - 1;
      assert Padded(p, k)[w] == v;
    } else {
      w := |p|;
      assert Padded(p, k)[w] == 0;
    }
  }

  lemma StillSame(p: seq<Entry>, row: seq<nat>, k: nat, v: nat)
    requires |p| <= k == |row| && Padded(p, k) == row
    requires v != 0 ==> |p| == k && !(p != [] && p[|p| - 1] == Entry(v, false))
    ensures var q := if v == 0 then p else Push(p, v);
            |q| <= k + 1 && Padded(q, k + 1) == row + [v]
  {
  }

  lemma {:induction false} MovesShow(row: seq<nat>, n: nat)
    requires n <= |row|
    ensures AnyMoves(row, n) ==> exists w | 0 <= w < n :: Departed(Stack(row[..n]), w, row[w])
    ensures !AnyMoves(row, n) ==> Padded(Stack(row[..n]), n) == row[..n]
  {
    if n > 0 {
      MovesShow(row, n - 1);
      var p, v := Stack(row[..n - 1]), row[n - 1];
      StackStep(row, n - 1);
      hide Stack, Push, Padded, Departed;
      if AnyMoves(row, n - 1) {
        var w :| 0 <= w < n - 1 && Departed(p, w, row[w]);
        DepartedStays(p, w, row[w], v);
        assert Departed(Stack(row[..n]), w, row[w]);
      } else if MovesAt(row, n - 1) {
        var w := FirstMove(p, row[..n - 1], n - 1, v);
        assert row[..n - 1][w] == row[w];
      } else {
        StillSame(p, row[..n - 1], n - 1, v);
        assert row[..n] == row[..n - 1] + [v];
      }
    }
  }

  // Some tile moves when visited exactly when the slide changes the row.
  lemma MovesIffChanged(row: seq<nat>)
    ensures AnyMoves(row, |row|) <==> SlideRow(row) != row
  {
    StackIsSlide(row);
    MovesShow(row, |row|);
    assert row[..|row|] == row;
    if AnyMoves(row, |row|) {
      var w :| 0 <= w < |row| && Departed(Stack(row[..|row|]), w, row[w]);
      assert SlideRow(row)[w] == Stack(row)[w].value;
    }
  }
}
