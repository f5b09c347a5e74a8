/**
  * The 2048 board: sixteen tiles in rows of four. The four slide routines
  * walk it with their own index arithmetic; each of them turns every line
  * into the row the rule asks for.
  */
module SlideBoard {
  import opened SlideRows

  datatype Tile = Tile(occupied: bool, value: nat, combined: bool)
  datatype Direction = Left | Right | Up | Down
  datatype Action = ToEmptySquare | Combine | NotAllowed

  // ----- Lines -----

  // Square j of line n, counted from the edge the tiles slide to.
  function Spot(dir: Direction, n: nat, j: nat): (i: nat)
    requires n < 4 && j < 4
    ensures i < 16
  {
    match dir
    case Left => 4 * n + j
    case Right => 4 * n + 3 - j
    case Up => n + 4 * j
    case Down => n + 12 - 4 * j
  }

  lemma SpotDetermines(dir: Direction, n: nat, j: nat, n': nat, j': nat)
    requires n < 4 && j < 4 && n' < 4 && j' < 4 && Spot(dir, n, j) == Spot(dir, n', j')
    ensures n == n' && j == j'
  {
  }

  lemma SpotReaches(dir: Direction, i: nat) returns (n: nat, j: nat)
    requires i < 16
    ensures n < 4 && j < 4 && Spot(dir, n, j) == i
  {
    match dir
    case Left => n, j := i / 4, i % 4;
    case Right => n, j := i / 4, 3 - i % 4;
    case Up => n, j := i % 4, i / 4;
    case Down => n, j := i % 4, 3 - i / 4;
  }

  function Line(t: seq<Tile>, dir: Direction, n: nat): (l: seq<Tile>)
    requires |t| == 16 && n < 4
    ensures |l| == 4 && forall j | 0 <= j < 4 :: l[j] == t[Spot(dir, n, j)]
  {
    [t[Spot(dir, n, 0)], t[Spot(dir, n, 1)], t[Spot(dir, n, 2)], t[Spot(dir, n, 3)]]
  }

  function LineCells(c: seq<nat>, dir: Direction, n: nat): (l: seq<nat>)
    requires |c| == 16 && n < 4
    ensures |l| == 4 && forall j | 0 <= j < 4 :: l[j] == c[Spot(dir, n, j)]
  {
    [c[Spot(dir, n, 0)], c[Spot(dir, n, 1)], c[Spot(dir, n, 2)], c[Spot(dir, n, 3)]]
  }

  // What a tile shows; the value of an empty square is left over.
  function Show(x: Tile): (v: nat)
  {
    if x.occupied then x.value else 0
  }

  function Cells(t: seq<Tile>): (c: seq<nat>)
    ensures |c| == |t|
  {
    seq(|t|, i requires 0 <= i < |t| => Show(t[i]))
  }

  // Every tile on the board shows a number.
  predicate Proper(t: seq<Tile>)
  {
    |t| == 16 && forall i | 0 <= i < 16 :: t[i].occupied ==> t[i].value > 0
  }

  // ----- A line on its way -----

  // Tile j once the first k squares of `row` have been visited, the tiles in
  // `p` having been placed.
  ghost predicate TileAt(x: Tile, p: seq<Entry>, row: seq<nat>, k: nat, j: nat)
    requires j < |row|
  {
    if j < |p| then x == Tile(true, p[j].value, p[j].merged)
    else !x.combined && (x.occupied ==> x.value > 0) && Show(x) == if j < k then 0 else row[j]
  }

  ghost predicate LineAt(l: seq<Tile>, row: seq<nat>, k: nat)
  {
    |l| == |row| && k <= |row| && forall j | 0 <= j < |row| :: TileAt(l[j], Stack(row[..k]), row, k, j)
  }

  // The action `_slide_possibility` finds for tile k and destination j.
  function Possible(l: seq<Tile>, k: nat, j: nat): (a: Action)
    requires j < k < |l|
  {
    if !l[j].occupied then ToEmptySquare
    else if l[k].value == l[j].value && !l[k].combined && !l[j].combined && (forall i | j < i < k :: !l[i].occupied)
    then Combine
    else NotAllowed
  }

  function Acted(l: seq<Tile>, k: nat, j: nat, a: Action): (r: seq<Tile>)
    requires j < k < |l|
    ensures |r| == |l|
  {
    match a
    case ToEmptySquare => l[k := l[k].(occupied := false)][j := l[j].(occupied := true, value := l[k].value)]
    case Combine => l[k := l[k].(occupied := false)][j := l[j].(value := l[j].value + l[k].value, combined := true)]
    case NotAllowed => l
  }

  // The tile at k joins with the last one placed.
  predicate Joins(row: seq<nat>, k: nat)
    requires k < |row|
  {
    var p := Stack(row[..k]);
    p != [] && p[|p| - 1] == Entry(row[k], false)
  }

  // Destination j takes the tile at k: it is the last placed tile and joins
  // with it, or else it is the first free square.
  predicate Takes(row: seq<nat>, k: nat, j: nat)
    requires k < |row|
  {
    var p := Stack(row[..k]);
    if Joins(row, k) then j + 1 == |p| else j == |p|
  }

  // No destination before j takes it.
  predicate Untaken(row: seq<nat>, k: nat, j: nat)
    requires k < |row|
  {
    var p := Stack(row[..k]);
    if Joins(row, k) then j < |p| else j <= |p|
  }

  lemma PossibleAt(l: seq<Tile>, row: seq<nat>, k: nat, j: nat)
    requires LineAt(l, row, k) && j < k < |row| && l[k].occupied && Untaken(row, k, j)
    ensures Possible(l, k, j) != NotAllowed <==> Takes(row, k, j)
    ensures Possible(l, k, j) == NotAllowed ==> Untaken(row, k, j + 1)
    ensures Possible(l, k, j) == ToEmptySquare ==> j == |Stack(row[..k])|
  {
    hide Stack;
    var p := Stack(row[..k]);
    StackFits(row, k);
    assert TileAt(l[k], p, row, k, k) && TileAt(l[j], p, row, k, j);
    if j + 1 < |p| {
      assert TileAt(l[|p| - 1], p, row, k, |p| - 1);
      assert l[|p| - 1].occupied;
    } else if j + 1 == |p| {
      forall i | j < i < k
        ensures !l[i].occupied
      {
        assert TileAt(l[i], p, row, k, i);
      }
    }
  }

  lemma StackFits(row: seq<nat>, k: nat)
    requires k <= |row|
    ensures |Stack(row[..k])| <= k
  {
  }

  lemma ActedKeeps(l: seq<Tile>, row: seq<nat>, k: nat, j: nat)
    requires LineAt(l, row, k) && j < k < |row| && l[k].occupied && Takes(row, k, j)
    ensures LineAt(Acted(l, k, j, Possible(l, k, j)), row, k + 1) && MovesAt(row, k)
  {
    hide Stack;
    var p := Stack(row[..k]);
    StackFits(row, k);
    StackStep(row, k);
    PossibleAt(l, row, k, j);
    var a := Possible(l, k, j);
    var r := Acted(l, k, j, a);
    assert TileAt(l[k], p, row, k, k) && TileAt(l[j], p, row, k, j);
    forall i | 0 <= i < |row|
      ensures TileAt(r[i], Stack(row[..k + 1]), row, k + 1, i)
    {
      assert TileAt(l[i], p, row, k, i);
    }
  }

  // A tile that no destination takes stays, and the line is as far along.
  lemma StayKeeps(l: seq<Tile>, row: seq<nat>, k: nat)
    requires LineAt(l, row, k) && k < |row|
    requires l[k].occupied ==> Untaken(row, k, k)
    ensures LineAt(l, row, k + 1) && !MovesAt(row, k)
  {
    hide Stack;
    var p := Stack(row[..k]);
    StackFits(row, k);
    StackStep(row, k);
    assert TileAt(l[k], p, row, k, k);
    forall i | 0 <= i < |row|
      ensures TileAt(l[i], Stack(row[..k + 1]), row, k + 1, i)
    {
      assert TileAt(l[i], p, row, k, i);
    }
  }

  lemma LineDone(l: seq<Tile>, row: seq<nat>)
    requires LineAt(l, row, |row|)
    ensures forall j | 0 <= j < |row| :: Show(l[j]) == SlideRow(row)[j]
  {
    StackIsSlide(row);
    assert row[..|row|] == row;
    var p := Stack(row);
    hide Stack, SlideRow;
    forall j | 0 <= j < |row|
      ensures Show(l[j]) == Padded(p, |row|)[j]
    {
      assert TileAt(l[j], p, row, |row|, j);
    }
  }

  // ----- The board on its way -----

  // Line n has been visited up to square ks[n].
  ghost predicate BoardAt(t: seq<Tile>, c: seq<nat>, dir: Direction, ks: seq<nat>)
  {
    |t| == 16 && |c| == 16 && |ks| == 4
    && forall n | 0 <= n < 4 :: LineAt(Line(t, dir, n), LineCells(c, dir, n), ks[n])
  }

  // Changing line n at squares k and j leaves the other lines alone.
  lemma OneLineChanges(t: seq<Tile>, u: seq<Tile>, dir: Direction, n: nat, m: nat)
    requires |t| == 16 && |u| == 16 && n < 4 && m < 4 && m != n
    requires forall i | 0 <= i < 16 && (forall j | 0 <= j < 4 :: Spot(dir, n, j) != i) :: u[i] == t[i]
    ensures Line(u, dir, m) == Line(t, dir, m)
  {
    forall j | 0 <= j < 4
      ensures Line(u, dir, m)[j] == Line(t, dir, m)[j]
    {
      forall j' | 0 <= j' < 4
        ensures Spot(dir, n, j') != Spot(dir, m, j)
      {
        if Spot(dir, n, j') == Spot(dir, m, j) {
          SpotDetermines(dir, n, j', m, j);
        }
      }
    }
  }

  lemma BoardStep(t: seq<Tile>, u: seq<Tile>, c: seq<nat>, dir: Direction, ks: seq<nat>, n: nat)
    requires BoardAt(t, c, dir, ks) && n < 4 && |u| == 16 && ks[n] < 4
    requires LineAt(Line(u, dir, n), LineCells(c, dir, n), ks[n] + 1)
    requires forall m | 0 <= m < 4 && m != n :: Line(u, dir, m) == Line(t, dir, m)
    ensures BoardAt(u, c, dir, ks[n := ks[n] + 1])
  {
    hide LineAt, Line, LineCells;
  }

  // The board after a slide.
  ghost predicate Slid(c: seq<nat>, d: seq<nat>, dir: Direction)
    requires |c| == 16 && |d| == 16
  {
    forall n | 0 <= n < 4 :: LineCells(d, dir, n) == SlideRow(LineCells(c, dir, n))
  }

  lemma BoardDone(t: seq<Tile>, c: seq<nat>, dir: Direction)
    requires BoardAt(t, c, dir, [4, 4, 4, 4])
    ensures Slid(c, Cells(t), dir)
  {
    forall n | 0 <= n < 4
      ensures LineCells(Cells(t), dir, n) == SlideRow(LineCells(c, dir, n))
    {
      LineDone(Line(t, dir, n), LineCells(c, dir, n));
    }
  }

  lemma LineStarts(l: seq<Tile>, row: seq<nat>)
    requires |l| == |row| && forall j | 0 <= j < |l| :: !l[j].combined && (l[j].occupied ==> l[j].value > 0) && Show(l[j]) == row[j]
    ensures LineAt(l, row, 0)
  {
  }

  lemma BoardStarts(t: seq<Tile>, dir: Direction)
    requires |t| == 16 && forall i | 0 <= i < 16 :: !t[i].combined && (t[i].occupied ==> t[i].value > 0)
    ensures BoardAt(t, Cells(t), dir, [0, 0, 0, 0])
  {
    hide LineAt, Line, LineCells, Cells;
    forall n | 0 <= n < 4
      ensures LineAt(Line(t, dir, n), LineCells(Cells(t), dir, n), 0)
    {
      FreshLine(t, dir, n);
    }
  }

  lemma FreshLine(t: seq<Tile>, dir: Direction, n: nat)
    requires |t| == 16 && n < 4 && forall i | 0 <= i < 16 :: !t[i].combined && (t[i].occupied ==> t[i].value > 0)
    ensures LineAt(Line(t, dir, n), LineCells(Cells(t), dir, n), 0)
  {
    hide Line, LineCells, Spot, LineAt;
    var l, row := Line(t, dir, n), LineCells(Cells(t), dir, n);
    forall j | 0 <= j < 4
      ensures !l[j].combined && (l[j].occupied ==> l[j].value > 0) && Show(l[j]) == row[j]
    {
      assert l[j] == t[Spot(dir, n, j)] && row[j] == Cells(t)[Spot(dir, n, j)];
    }
    LineStarts(l, row);
  }

  // Some tile visited so far has moved.
  ghost predicate AnyMoved(c: seq<nat>, dir: Direction, ks: seq<nat>)
    requires |c| == 16 && |ks| == 4 && forall n | 0 <= n < 4 :: ks[n] <= 4
  {
    exists n | 0 <= n < 4 :: AnyMoves(LineCells(c, dir, n), ks[n])
  }

  lemma AnyMovesStep(row: seq<nat>, k: nat)
    requires k < |row|
    ensures AnyMoves(row, k + 1) <==> AnyMoves(row, k) || MovesAt(row, k)
  {
    hide MovesAt;
    if AnyMoves(row, k + 1) {
      var i :| 0 <= i < k + 1 && MovesAt(row, i);
      assert i == k || AnyMoves(row, k);
    }
    if AnyMoves(row, k) {
      var i :| 0 <= i < k && MovesAt(row, i);
      assert MovesAt(row, i) && i < k + 1;
    }
  }

  lemma AnyMovedStep(c: seq<nat>, dir: Direction, ks: seq<nat>, n: nat)
    requires |c| == 16 && |ks| == 4 && (forall m | 0 <= m < 4 :: ks[m] <= 4) && n < 4 && ks[n] < 4
    ensures AnyMoved(c, dir, ks[n := ks[n] + 1]) <==> AnyMoved(c, dir, ks) || MovesAt(LineCells(c, dir, n), ks[n])
  {
    hide AnyMoves, MovesAt, LineCells;
    var ls := ks[n := ks[n] + 1];
    AnyMovesStep(LineCells(c, dir, n), ks[n]);
    if AnyMoved(c, dir, ks) {
      var m :| 0 <= m < 4 && AnyMoves(LineCells(c, dir, m), ks[m]);
      assert AnyMoves(LineCells(c, dir, m), ls[m]);
    }
    if AnyMoved(c, dir, ls) {
      var m :| 0 <= m < 4 && AnyMoves(LineCells(c, dir, m), ls[m]);
      assert m == n || AnyMoves(LineCells(c, dir, m), ks[m]);
    }
    if MovesAt(LineCells(c, dir, n), ks[n]) {
      assert AnyMoves(LineCells(c, dir, n), ls[n]);
    }
  }

  lemma NothingMoved(c: seq<nat>, dir: Direction)
    requires |c| == 16
    ensures !AnyMoved(c, dir, [0, 0, 0, 0])
  {
  }

  lemma LinesDetermine(c: seq<nat>, d: seq<nat>, dir: Direction)
    requires |c| == 16 && |d| == 16 && forall n | 0 <= n < 4 :: LineCells(c, dir, n) == LineCells(d, dir, n)
    ensures c == d
  {
    forall i | 0 <= i < 16
      ensures c[i] == d[i]
    {
      var n, j := SpotReaches(dir, i);
      assert LineCells(c, dir, n)[j] == LineCells(d, dir, n)[j];
    }
  }

  // Some tile moved exactly when the board shows something else.
  lemma MovedIffChanged(c: seq<nat>, d: seq<nat>, dir: Direction)
    requires |c| == 16 && |d| == 16 && Slid(c, d, dir)
    ensures AnyMoved(c, dir, [4, 4, 4, 4]) <==> c != d
  {
    hide AnyMoves, LineCells;
    forall n | 0 <= n < 4
      ensures AnyMoves(LineCells(c, dir, n), 4) <==> LineCells(d, dir, n) != LineCells(c, dir, n)
    {
      MovesIffChanged(LineCells(c, dir, n));
    }
    if !AnyMoved(c, dir, [4, 4, 4, 4]) {
      forall n | 0 <= n < 4
        ensures LineCells(c, dir, n) == LineCells(d, dir, n)
      {
        assert !AnyMoves(LineCells(c, dir, n), [4, 4, 4, 4][n]);
      }
      LinesDetermine(c, d, dir);
    } else {
      var n :| 0 <= n < 4 && AnyMoves(LineCells(c, dir, n), [4, 4, 4, 4][n]);
      assert LineCells(d, dir, n) != LineCells(c, dir, n);
    }
  }

  // ----- The slide routines -----

  class Board {
    const tiles: array<Tile>

    constructor ()
      ensures tiles.Length == 16 && fresh(tiles) && forall i | 0 <= i < 16 :: tiles[i] == Tile(false, 0, false)
    {
      tiles := new Tile[16](_ => Tile(false, 0, false));
    }

    // Is a square strictly between the two occupied?
    method BlockedLeft(tileIdx: nat, destIdx: nat, ghost n: nat, ghost k: nat, ghost j: nat) returns (b: bool)
      requires tiles.Length == 16 && n < 4 && j < k < 4 && tileIdx == Spot(Left, n, k) && destIdx == Spot(Left, n, j)
      ensures b <==> exists i | j < i < k :: Line(tiles[..], Left, n)[i].occupied
    {
      ghost var l := Line(tiles[..], Left, n);
      assert tileIdx > destIdx && tileIdx - destIdx <= 4;
      ghost var q := k - 1;
      var i := tileIdx - 1;
      while i > destIdx
        invariant j <= q < k && i == 4 * n + q
        invariant forall r | q < r < k :: !l[r].occupied
      {
        if tiles[i].occupied {
          assert l[q].occupied;
          return true;
        }
        i, q := i - 1, q - 1;
      }
      return false;
    }

    method BlockedRight(tileIdx: nat, destIdx: nat, ghost n: nat, ghost k: nat, ghost j: nat) returns (b: bool)
      requires tiles.Length == 16 && n < 4 && j < k < 4 && tileIdx == Spot(Right, n, k) && destIdx == Spot(Right, n, j)
      ensures b <==> exists i | j < i < k :: Line(tiles[..], Right, n)[i].occupied
    {
      ghost var l := Line(tiles[..], Right, n);
      assert tileIdx < destIdx && destIdx - tileIdx <= 4;
      ghost var q := j + 1;
      var i := destIdx - 1;
      while i > tileIdx
        invariant j < q <= k && i == 4 * n + 3 - q
        invariant forall r | j < r < q :: !l[r].occupied
      {
        if tiles[i].occupied {
          assert l[q].occupied;
          return true;
        }
        i, q := i - 1, q + 1;
      }
      return false;
    }

    method BlockedUp(tileIdx: nat, destIdx: nat, ghost n: nat, ghost k: nat, ghost j: nat) returns (b: bool)
      requires tiles.Length == 16 && n < 4 && j < k < 4 && tileIdx == Spot(Up, n, k) && destIdx == Spot(Up, n, j)
      ensures b <==> exists i | j < i < k :: Line(tiles[..], Up, n)[i].occupied
    {
      ghost var l := Line(tiles[..], Up, n);
      assert tileIdx > destIdx && tileIdx / 4 > destIdx / 4 && tileIdx / 4 / 4 == destIdx / 4 / 4;
      ghost var q := k - 1;
      var i := tileIdx - 4;
      while i > destIdx
        invariant j <= q < k && i == n + 4 * q
        invariant forall r | q < r < k :: !l[r].occupied
      {
        if tiles[i].occupied {
          assert l[q].occupied;
          return true;
        }
        i, q := i - 4, q - 1;
      }
      return false;
    }

    method BlockedDown(tileIdx: nat, destIdx: nat, ghost n: nat, ghost k: nat, ghost j: nat) returns (b: bool)
      requires tiles.Length == 16 && n < 4 && j < k < 4 && tileIdx == Spot(Down, n, k) && destIdx == Spot(Down, n, j)
      ensures b <==> exists i | j < i < k :: Line(tiles[..], Down, n)[i].occupied
    {
      ghost var l := Line(tiles[..], Down, n);
      assert tileIdx < destIdx && tileIdx / 4 < destIdx / 4 && tileIdx / 4 / 4 == destIdx / 4 / 4;
      ghost var q := j + 1;
      var i := destIdx - 4;
      while i > tileIdx
        invariant j < q <= k && i == n + 12 - 4 * q
        invariant forall r | j < r < q :: !l[r].occupied
      {
        if tiles[i].occupied {
          assert l[q].occupied;
          return true;
        }
        i, q := i - 4, q + 1;
      }
      return false;
    }

    method SlidePossibility(tileIdx: nat, destIdx: nat, dir: Direction, ghost n: nat, ghost k: nat, ghost j: nat) returns (a: Action)
      requires tiles.Length == 16 && n < 4 && j < k < 4 && tileIdx == Spot(dir, n, k) && destIdx == Spot(dir, n, j)
      ensures a == Possible(Line(tiles[..], dir, n), k, j)
    {
      if tiles[destIdx].occupied {
        if tiles[tileIdx].value == tiles[destIdx].value {
          if !tiles[tileIdx].combined && !tiles[destIdx].combined {
            var blocked;
            match dir {
              case Left => blocked := BlockedLeft(tileIdx, destIdx, n, k, j);
              case Right => blocked := BlockedRight(tileIdx, destIdx, n, k, j);
              case Up => blocked := BlockedUp(tileIdx, destIdx, n, k, j);
              case Down => blocked := BlockedDown(tileIdx, destIdx, n, k, j);
            }
            return if blocked then NotAllowed else Combine;
          }
        }
        return NotAllowed;
      }
      return ToEmptySquare;
    }

    // Makes the move, if there is one; the board is then one square further
    // along line n.
    method TrySlide(tileIdx: nat, destIdx: nat, dir: Direction, ghost n: nat, ghost k: nat, ghost j: nat,
                    ghost c: seq<nat>, ghost ks: seq<nat>) returns (moved: bool)
      requires n < 4 && j < k < 4 && tileIdx == Spot(dir, n, k) && destIdx == Spot(dir, n, j)
      requires BoardAt(tiles[..], c, dir, ks) && ks[n] == k && tiles[tileIdx].occupied && Untaken(LineCells(c, dir, n), k, j)
      modifies tiles
      ensures moved ==> BoardAt(tiles[..], c, dir, ks[n := k + 1]) && MovesAt(LineCells(c, dir, n), k)
      ensures !moved ==> tiles[..] == old(tiles[..]) && Untaken(LineCells(c, dir, n), k, j + 1)
    {
      hide LineAt, Untaken, Takes, MovesAt, LineCells;
      ghost var t, row, l := tiles[..], LineCells(c, dir, n), Line(tiles[..], dir, n);
      PossibleAt(l, row, k, j);
      var result := SlidePossibility(tileIdx, destIdx, dir, n, k, j);
      if result == ToEmptySquare {
        ActedKeeps(l, row, k, j);
        tiles[tileIdx] := tiles[tileIdx].(occupied := false);
        tiles[destIdx] := tiles[destIdx].(occupied := true, value := tiles[tileIdx].value);
        ActedLine(t, tiles[..], c, dir, ks, n, k, j);
        return true;
      } else if result == Combine {
        ActedKeeps(l, row, k, j);
        tiles[tileIdx] := tiles[tileIdx].(occupied := false);
        tiles[destIdx] := tiles[destIdx].(value := tiles[destIdx].value + tiles[tileIdx].value, combined := true);
        ActedLine(t, tiles[..], c, dir, ks, n, k, j);
        return true;
      }
      return false;
    }

    method SlideTileLeft(tileIdx: nat, ghost n: nat, ghost k: nat, ghost c: seq<nat>, ghost ks: seq<nat>) returns (moved: bool)
      requires n < 4 && k < 4 && tileIdx == Spot(Left, n, k) && BoardAt(tiles[..], c, Left, ks) && ks[n] == k
      modifies tiles
      ensures BoardAt(tiles[..], c, Left, ks[n := k + 1]) && moved == MovesAt(LineCells(c, Left, n), k)
    {
      ghost var row := LineCells(c, Left, n);
      hide LineAt, Untaken, MovesAt, LineCells, Line;
      UntakenAtFirst(row, k);
      if !tiles[tileIdx].occupied {
        StayBoard(tiles[..], c, Left, ks, n, k);
        return false;
      }
      var idxWithinRow := tileIdx % 4;
      if idxWithinRow == 0 {
        StayBoard(tiles[..], c, Left, ks, n, k);
        return false;
      }
      ghost var j := 0;
      var i := tileIdx - idxWithinRow;
      while i < tileIdx
        invariant 0 <= j <= k && (j < 4 ==> i == Spot(Left, n, j))
        invariant BoardAt(tiles[..], c, Left, ks) && tiles[tileIdx].occupied && Untaken(row, k, j)
        decreases k - j
      {
        moved := TrySlide(tileIdx, i, Left, n, k, j, c, ks);
        if moved {
          return true;
        }
        i, j := i + 1, j + 1;
      }
      StayBoard(tiles[..], c, Left, ks, n, k);
      return false;
    }

    method SlideTileRight(tileIdx: nat, rowEnd: nat, ghost n: nat, ghost k: nat, ghost c: seq<nat>, ghost ks: seq<nat>) returns (moved: bool)
      requires n < 4 && k < 4 && tileIdx == Spot(Right, n, k) && BoardAt(tiles[..], c, Right, ks) && ks[n] == k && rowEnd == Spot(Right, n, 0)
      modifies tiles
      ensures BoardAt(tiles[..], c, Right, ks[n := k + 1]) && moved == MovesAt(LineCells(c, Right, n), k)
    {
      ghost var row := LineCells(c, Right, n);
      hide LineAt, Untaken, MovesAt, LineCells, Line;
      UntakenAtFirst(row, k);
      if !tiles[tileIdx].occupied {
        StayBoard(tiles[..], c, Right, ks, n, k);
        return false;
      }
      var idxWithinRow := tileIdx % 4;
      if idxWithinRow == 3 {
        StayBoard(tiles[..], c, Right, ks, n, k);
        return false;
      }
      ghost var j := 0;
      var i := rowEnd;
      while i >= tileIdx + 1
        invariant 0 <= j <= k && (j < 4 ==> i == Spot(Right, n, j))
        invariant BoardAt(tiles[..], c, Right, ks) && tiles[tileIdx].occupied && Untaken(row, k, j)
        decreases k - j
      {
        moved := TrySlide(tileIdx, i, Right, n, k, j, c, ks);
        if moved {
          return true;
        }
        i, j := i - 1, j + 1;
      }
      StayBoard(tiles[..], c, Right, ks, n, k);
      return false;
    }

    method SlideTileUp(tileIdx: nat, colStart: nat, ghost n: nat, ghost k: nat, ghost c: seq<nat>, ghost ks: seq<nat>) returns (moved: bool)
      requires n < 4 && k < 4 && tileIdx == Spot(Up, n, k) && BoardAt(tiles[..], c, Up, ks) && ks[n] == k && colStart == Spot(Up, n, 0)
      modifies tiles
      ensures BoardAt(tiles[..], c, Up, ks[n := k + 1]) && moved == MovesAt(LineCells(c, Up, n), k)
    {
      ghost var row := LineCells(c, Up, n);
      hide LineAt, Untaken, MovesAt, LineCells, Line;
      UntakenAtFirst(row, k);
      if !tiles[tileIdx].occupied {
        StayBoard(tiles[..], c, Up, ks, n, k);
        return false;
      }
      var idxWithinCol := tileIdx / 4;
      if idxWithinCol == 0 {
        StayBoard(tiles[..], c, Up, ks, n, k);
        return false;
      }
      ghost var j := 0;
      var i := colStart;
      while i < tileIdx
        invariant 0 <= j <= k && (j < 4 ==> i == Spot(Up, n, j))
        invariant BoardAt(tiles[..], c, Up, ks) && tiles[tileIdx].occupied && Untaken(row, k, j)
        decreases k - j
      {
        moved := TrySlide(tileIdx, i, Up, n, k, j, c, ks);
        if moved {
          return true;
        }
        i, j := i + 4, j + 1;
      }
      StayBoard(tiles[..], c, Up, ks, n, k);
      return false;
    }

    method SlideTileDown(tileIdx: nat, colEnd: nat, ghost n: nat, ghost k: nat, ghost c: seq<nat>, ghost ks: seq<nat>) returns (moved: bool)
      requires n < 4 && k < 4 && tileIdx == Spot(Down, n, k) && BoardAt(tiles[..], c, Down, ks) && ks[n] == k && colEnd == Spot(Down, n, 0)
      modifies tiles
      ensures BoardAt(tiles[..], c, Down, ks[n := k + 1]) && moved == MovesAt(LineCells(c, Down, n), k)
    {
      ghost var row := LineCells(c, Down, n);
      hide LineAt, Untaken, MovesAt, LineCells, Line;
      UntakenAtFirst(row, k);
      if !tiles[tileIdx].occupied {
        StayBoard(tiles[..], c, Down, ks, n, k);
        return false;
      }
      var idxWithinCol := tileIdx / 4;
      if idxWithinCol == 3 {
        StayBoard(tiles[..], c, Down, ks, n, k);
        return false;
      }
      ghost var j := 0;
      var i := colEnd;
      while i > tileIdx
        invariant 0 <= j <= k && (j < 4 ==> i == Spot(Down, n, j))
        invariant BoardAt(tiles[..], c, Down, ks) && tiles[tileIdx].occupied && Untaken(row, k, j)
        decreases k - j
      {
        moved := TrySlide(tileIdx, i, Down, n, k, j, c, ks);
        if moved {
          return true;
        }
        i, j := i - 4, j + 1;
      }
      StayBoard(tiles[..], c, Down, ks, n, k);
      return false;
    }

    method LeftSlideAllTiles() returns (found: bool)
      requires tiles.Length == 16 && forall i | 0 <= i < 16 :: !tiles[i].combined && (tiles[i].occupied ==> tiles[i].value > 0)
      modifies tiles
      ensures Slid(Cells(old(tiles[..])), Cells(tiles[..]), Left)
      ensures found <==> Cells(tiles[..]) != Cells(old(tiles[..]))
      ensures Proper(tiles[..])
    {
      hide BoardAt, SlidTo, MovesAt, LineCells, Slid;
      ghost var c, ks := Cells(tiles[..]), [0, 0, 0, 0];
      SlidStarts(tiles[..], Left);
      found := false;
      var i := 0;
      while i < 16
        invariant 0 <= i <= 16 && |ks| == 4
        invariant forall m | 0 <= m < 4 :: ks[m] == if m < i / 4 then 4 else if m == i / 4 then i % 4 else 0
        invariant SlidTo(tiles[..], c, Left, ks, found)
      {
        ghost var before, n := tiles[..], i / 4;
        SlidIs(before, c, Left, ks, found);
        var moved := SlideTileLeft(i, n, i % 4, c, ks);
        SlidStep(before, tiles[..], c, Left, ks, found, n, moved);
        if moved {
          found := true;
        }
        ks := ks[n := i % 4 + 1];
        i := i + 1;
      }
      SlidEnds(tiles[..], c, Left, ks, found);
    }

    method RightSlideAllTiles() returns (found: bool)
      requires tiles.Length == 16 && forall i | 0 <= i < 16 :: !tiles[i].combined && (tiles[i].occupied ==> tiles[i].value > 0)
      modifies tiles
      ensures Slid(Cells(old(tiles[..])), Cells(tiles[..]), Right)
      ensures found <==> Cells(tiles[..]) != Cells(old(tiles[..]))
      ensures Proper(tiles[..])
    {
      hide BoardAt, SlidTo, MovesAt, LineCells, Slid;
      ghost var c, ks := Cells(tiles[..]), [0, 0, 0, 0];
      SlidStarts(tiles[..], Right);
      found := false;
      var n: int := 0;
      while n < 4
        invariant 0 <= n <= 4 && |ks| == 4 && forall m | 0 <= m < 4 :: ks[m] == if m < n then 4 else 0
        invariant SlidTo(tiles[..], c, Right, ks, found)
      {
        SkipEdge(tiles[..], c, Right, ks, found, n);
        ks := ks[n := 1];
        ghost var k := 1;
        var rowStart, rowEnd := n * 4, (n + 1) * 4 - 1;
        var j: int := rowEnd - 1;
        while j >= rowStart
          invariant 1 <= k <= 4 && (k < 4 ==> j == Spot(Right, n, k)) && j == rowEnd - k
          invariant |ks| == 4 && ks[n] == k && forall m | 0 <= m < 4 && m != n :: ks[m] == if m < n then 4 else 0
          invariant SlidTo(tiles[..], c, Right, ks, found)
          decreases 4 - k
        {
          ghost var before := tiles[..];
          SlidIs(before, c, Right, ks, found);
          var moved := SlideTileRight(j, rowEnd, n, k, c, ks);
          SlidStep(before, tiles[..], c, Right, ks, found, n, moved);
          if moved {
            found := true;
          }
          ks, k, j := ks[n := k + 1], k + 1, j - 1;
        }
        n := n + 1;
      }
      SlidEnds(tiles[..], c, Right, ks, found);
    }

    method UpSlideAllTiles() returns (found: bool)
      requires tiles.Length == 16 && forall i | 0 <= i < 16 :: !tiles[i].combined && (tiles[i].occupied ==> tiles[i].value > 0)
      modifies tiles
      ensures Slid(Cells(old(tiles[..])), Cells(tiles[..]), Up)
      ensures found <==> Cells(tiles[..]) != Cells(old(tiles[..]))
      ensures Proper(tiles[..])
    {
      hide BoardAt, SlidTo, MovesAt, LineCells, Slid;
      ghost var c, ks := Cells(tiles[..]), [0, 0, 0, 0];
      SlidStarts(tiles[..], Up);
      found := false;
      var n: int := 0;
      while n < 4
        invariant 0 <= n <= 4 && |ks| == 4 && forall m | 0 <= m < 4 :: ks[m] == if m < n then 4 else 0
        invariant SlidTo(tiles[..], c, Up, ks, found)
      {
        SkipEdge(tiles[..], c, Up, ks, found, n);
        ks := ks[n := 1];
        ghost var k := 1;
        var colEnd := n + 4 * 3;
        var j: int := n + 4;
        while j <= colEnd
          invariant 1 <= k <= 4 && (k < 4 ==> j == Spot(Up, n, k)) && j == n + 4 * k
          invariant |ks| == 4 && ks[n] == k && forall m | 0 <= m < 4 && m != n :: ks[m] == if m < n then 4 else 0
          invariant SlidTo(tiles[..], c, Up, ks, found)
          decreases 4 - k
        {
          ghost var before := tiles[..];
          SlidIs(before, c, Up, ks, found);
          var moved := SlideTileUp(j, n, n, k, c, ks);
          SlidStep(before, tiles[..], c, Up, ks, found, n, moved);
          if moved {
            found := true;
          }
          ks, k, j := ks[n := k + 1], k + 1, j + 4;
        }
        n := n + 1;
      }
      SlidEnds(tiles[..], c, Up, ks, found);
    }

    method DownSlideAllTiles() returns (found: bool)
      requires tiles.Length == 16 && forall i | 0 <= i < 16 :: !tiles[i].combined && (tiles[i].occupied ==> tiles[i].value > 0)
      modifies tiles
      ensures Slid(Cells(old(tiles[..])), Cells(tiles[..]), Down)
      ensures found <==> Cells(tiles[..]) != Cells(old(tiles[..]))
      ensures Proper(tiles[..])
    {
      hide BoardAt, SlidTo, MovesAt, LineCells, Slid;
      ghost var c, ks := Cells(tiles[..]), [0, 0, 0, 0];
      SlidStarts(tiles[..], Down);
      found := false;
      var n: int := 3;
      while n >= 0
        invariant -1 <= n <= 3 && |ks| == 4 && forall m | 0 <= m < 4 :: ks[m] == if m > n then 4 else 0
        invariant SlidTo(tiles[..], c, Down, ks, found)
      {
        SkipEdge(tiles[..], c, Down, ks, found, n);
        ks := ks[n := 1];
        ghost var k := 1;
        var colEnd := n + 4 * 3;
        var j: int := colEnd - 4;
        while j >= n
          invariant 1 <= k <= 4 && (k < 4 ==> j == Spot(Down, n, k)) && j == colEnd - 4 * k
          invariant |ks| == 4 && ks[n] == k && forall m | 0 <= m < 4 && m != n :: ks[m] == if m > n then 4 else 0
          invariant SlidTo(tiles[..], c, Down, ks, found)
          decreases 4 - k
        {
          ghost var before := tiles[..];
          SlidIs(before, c, Down, ks, found);
          var moved := SlideTileDown(j, colEnd, n, k, c, ks);
          SlidStep(before, tiles[..], c, Down, ks, found, n, moved);
          if moved {
            found := true;
          }
          ks, k, j := ks[n := k + 1], k + 1, j - 4;
        }
        n := n - 1;
      }
      SlidEnds(tiles[..], c, Down, ks, found);
    }
  }

  lemma StayBoard(t: seq<Tile>, c: seq<nat>, dir: Direction, ks: seq<nat>, n: nat, k: nat)
    requires BoardAt(t, c, dir, ks) && n < 4 && k < 4 && ks[n] == k
    requires t[Spot(dir, n, k)].occupied ==> Untaken(LineCells(c, dir, n), k, k)
    ensures BoardAt(t, c, dir, ks[n := k + 1]) && !MovesAt(LineCells(c, dir, n), k)
  {
    hide LineAt, Untaken, MovesAt, LineCells;
    StayKeeps(Line(t, dir, n), LineCells(c, dir, n), k);
    BoardStep(t, t, c, dir, ks, n);
  }

  lemma UntakenAtFirst(row: seq<nat>, k: nat)
    requires k < |row|
    ensures Untaken(row, k, 0)
  {
  }

  // How far a slide has come, and what it has reported.
  ghost predicate SlidTo(t: seq<Tile>, c: seq<nat>, dir: Direction, ks: seq<nat>, found: bool)
  {
    BoardAt(t, c, dir, ks) && (forall n | 0 <= n < 4 :: ks[n] <= 4) && (found <==> AnyMoved(c, dir, ks))
  }

  lemma SlidIs(t: seq<Tile>, c: seq<nat>, dir: Direction, ks: seq<nat>, found: bool)
    requires SlidTo(t, c, dir, ks, found)
    ensures BoardAt(t, c, dir, ks) && |t| == 16 && |c| == 16
  {
  }

  lemma SlidStarts(t: seq<Tile>, dir: Direction)
    requires |t| == 16 && forall i | 0 <= i < 16 :: !t[i].combined && (t[i].occupied ==> t[i].value > 0)
    ensures SlidTo(t, Cells(t), dir, [0, 0, 0, 0], false)
  {
    hide BoardAt, Cells, AnyMoved;
    BoardStarts(t, dir);
    NothingMoved(Cells(t), dir);
  }

  lemma SlidStep(t: seq<Tile>, u: seq<Tile>, c: seq<nat>, dir: Direction, ks: seq<nat>, found: bool, n: nat, moved: bool)
    requires SlidTo(t, c, dir, ks, found) && n < 4 && ks[n] < 4
    requires BoardAt(u, c, dir, ks[n := ks[n] + 1]) && moved == MovesAt(LineCells(c, dir, n), ks[n])
    ensures SlidTo(u, c, dir, ks[n := ks[n] + 1], found || moved)
  {
    assert |c| == 16;
    hide BoardAt, AnyMoved, MovesAt, LineCells;
    AnyMovedStep(c, dir, ks, n);
  }

  // The square at the edge has nowhere to go.
  lemma SkipEdge(t: seq<Tile>, c: seq<nat>, dir: Direction, ks: seq<nat>, found: bool, n: nat)
    requires SlidTo(t, c, dir, ks, found) && n < 4 && ks[n] == 0
    ensures SlidTo(t, c, dir, ks[n := 1], found)
  {
    assert |c| == 16;
    hide LineAt, Untaken, MovesAt, LineCells, AnyMoved;
    UntakenAtFirst(LineCells(c, dir, n), 0);
    StayBoard(t, c, dir, ks, n, 0);
    SlidStep(t, t, c, dir, ks, found, n, false);
  }

  lemma BoardProper(t: seq<Tile>, c: seq<nat>, dir: Direction, ks: seq<nat>)
    requires BoardAt(t, c, dir, ks)
    ensures Proper(t)
  {
    hide Stack;
    forall i | 0 <= i < 16
      ensures t[i].occupied ==> t[i].value > 0
    {
      var n, j := SpotReaches(dir, i);
      var row := LineCells(c, dir, n);
      assert TileAt(Line(t, dir, n)[j], Stack(row[..ks[n]]), row, ks[n], j);
    }
  }

  lemma SlidEnds(t: seq<Tile>, c: seq<nat>, dir: Direction, ks: seq<nat>, found: bool)
    requires SlidTo(t, c, dir, ks, found) && forall n | 0 <= n < 4 :: ks[n] == 4
    ensures |t| == 16 && |c| == 16 && Slid(c, Cells(t), dir) && (found <==> Cells(t) != c) && Proper(t)
  {
    BoardProper(t, c, dir, ks);
    assert ks == [4, 4, 4, 4];
    assert |t| == 16 && |c| == 16;
    hide BoardAt, AnyMoved, Slid, Cells;
    BoardDone(t, c, dir);
    MovedIffChanged(c, Cells(t), dir);
  }

  // Two squares of line n change.
  lemma TwoSquares(t: seq<Tile>, u: seq<Tile>, dir: Direction, n: nat, k: nat, j: nat, x: Tile, y: Tile)
    requires |t| == 16 && n < 4 && j < k < 4 && u == t[Spot(dir, n, k) := x][Spot(dir, n, j) := y]
    ensures Line(u, dir, n) == Line(t, dir, n)[k := x][j := y]
    ensures forall m | 0 <= m < 4 && m != n :: Line(u, dir, m) == Line(t, dir, m)
  {
    hide Spot;
    var v := Line(u, dir, n);
    forall i | 0 <= i < 4
      ensures v[i] == if i == j then y else if i == k then x else Line(t, dir, n)[i]
    {
      if Spot(dir, n, i) == Spot(dir, n, k) {
        SpotDetermines(dir, n, i, n, k);
      }
      if Spot(dir, n, i) == Spot(dir, n, j) {
        SpotDetermines(dir, n, i, n, j);
      }
    }
    forall m | 0 <= m < 4 && m != n
      ensures Line(u, dir, m) == Line(t, dir, m)
    {
      OneLineChanges(t, u, dir, n, m);
    }
  }

  // The board when line n has taken the action found for k and j.
  lemma ActedLine(t: seq<Tile>, u: seq<Tile>, c: seq<nat>, dir: Direction, ks: seq<nat>, n: nat, k: nat, j: nat)
    requires BoardAt(t, c, dir, ks) && n < 4 && j < k < 4 && ks[n] == k && |u| == 16
    requires var l := Line(t, dir, n);
             var r := Acted(l, k, j, Possible(l, k, j));
             LineAt(r, LineCells(c, dir, n), k + 1)
             && u == t[Spot(dir, n, k) := r[k]][Spot(dir, n, j) := r[j]]
    ensures BoardAt(u, c, dir, ks[n := k + 1])
  {
    assert |t| == 16;
    hide LineAt, BoardAt, LineCells, Possible, Line, Spot;
    var l := Line(t, dir, n);
    var r := Acted(l, k, j, Possible(l, k, j));
    TwoSquares(t, u, dir, n, k, j, r[k], r[j]);
    assert r == l[k := r[k]][j := r[j]];
    BoardStep(t, u, c, dir, ks, n);
  }
}
