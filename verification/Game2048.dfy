/**
  * The turns of 2048: a key slides the board, then a piece is spawned on a
  * free square, or a new game starts when there is none.
  */
module Game2048 {
  import opened Options
  import opened SlideRows
  import opened SlideBoard

  datatype Key = Letter(ch: char) | Arrow(dir: Direction)

  function DirectionOf(key: Key): (d: Option<Direction>)
  {
    match key
    case Arrow(dir) => Some(dir)
    case Letter(ch) =>
      if ch == 'a' then Some(Left)
      else if ch == 's' then Some(Right)
      else if ch == 'w' then Some(Up)
      else if ch == 'r' then Some(Down)
      else None
  }

  // The keys of each direction.
  lemma KeysOf(key: Key)
    ensures DirectionOf(key) == Some(Left) <==> key == Letter('a') || key == Arrow(Left)
    ensures DirectionOf(key) == Some(Right) <==> key == Letter('s') || key == Arrow(Right)
    ensures DirectionOf(key) == Some(Up) <==> key == Letter('w') || key == Arrow(Up)
    ensures DirectionOf(key) == Some(Down) <==> key == Letter('r') || key == Arrow(Down)
  {
  }

  // ----- What a slide keeps on the whole board -----

  lemma FourSum(l: seq<nat>)
    requires |l| == 4
    ensures Sum(l) == l[0] + l[1] + l[2] + l[3]
  {
    assert l == [l[0]] + [l[1]] + [l[2]] + [l[3]];
    SumAppend([l[0]] + [l[1]] + [l[2]], [l[3]]);
    SumAppend([l[0]] + [l[1]], [l[2]]);
    SumAppend([l[0]], [l[1]]);
  }

  // The sum of a board is the sum of its lines, in every direction.
  lemma SumOfLines(c: seq<nat>, dir: Direction)
    requires |c| == 16
    ensures Sum(c) == Sum(LineCells(c, dir, 0)) + Sum(LineCells(c, dir, 1)) + Sum(LineCells(c, dir, 2)) + Sum(LineCells(c, dir, 3))
  {
    var a, b, d, e := c[..4], c[4..8], c[8..12], c[12..];
    assert c == a + b + d + e;
    SumAppend(a + b + d, e);
    SumAppend(a + b, d);
    SumAppend(a, b);
    FourSum(a);
    FourSum(b);
    FourSum(d);
    FourSum(e);
    FourSum(LineCells(c, dir, 0));
    FourSum(LineCells(c, dir, 1));
    FourSum(LineCells(c, dir, 2));
    FourSum(LineCells(c, dir, 3));
  }

  lemma SlidKeepsSum(c: seq<nat>, d: seq<nat>, dir: Direction)
    requires |c| == 16 && |d| == 16 && Slid(c, d, dir)
    ensures Sum(d) == Sum(c)
  {
    hide Sum, LineCells, SlideRow;
    SumOfLines(c, dir);
    SumOfLines(d, dir);
    SlideKeepsSum(LineCells(c, dir, 0));
    SlideKeepsSum(LineCells(c, dir, 1));
    SlideKeepsSum(LineCells(c, dir, 2));
    SlideKeepsSum(LineCells(c, dir, 3));
  }

  lemma SlidKeepsGood(c: seq<nat>, d: seq<nat>, dir: Direction)
    requires |c| == 16 && |d| == 16 && Slid(c, d, dir) && GoodRow(c)
    ensures GoodRow(d)
  {
    forall i | 0 <= i < 16
      ensures d[i] == 0 || IsTile(d[i])
    {
      var n, j := SpotReaches(dir, i);
      SlideKeepsGood(LineCells(c, dir, n));
      assert LineCells(d, dir, n)[j] == d[i];
    }
  }

  // ----- Free squares -----

  // The free squares below n, in order.
  function FreeBelow(t: seq<Tile>, n: nat): (r: seq<nat>)
    requires n <= |t|
    ensures |r| <= n && forall i | 0 <= i < |r| :: r[i] < n && !t[r[i]].occupied
    ensures r == [] ==> forall i | 0 <= i < n :: t[i].occupied
  {
    if n == 0 then []
    else if t[n - 1].occupied then FreeBelow(t, n - 1)
    else FreeBelow(t, n - 1) + [n - 1]
  }

  // The free squares of a board below n, in order.
  function FreeSquares(c: seq<nat>, n: nat): (r: seq<nat>)
    requires n <= |c|
    ensures forall i :: i in r <==> 0 <= i < n && c[i] == 0
    ensures forall i | 0 <= i < |r| :: r[i] < n
    ensures forall i, j | 0 <= i < j < |r| :: r[i] < r[j]
  {
    if n == 0 then []
    else if c[n - 1] != 0 then FreeSquares(c, n - 1)
    else FreeSquares(c, n - 1) + [n - 1]
  }

  // The board with the piece that two random numbers give: the first picks the
  // free square, the second makes it a 4 one time in ten.
  function SpawnOn(c: seq<nat>, pick: nat, chance: nat): (d: seq<nat>)
    ensures |d| == |c|
  {
    var free := FreeSquares(c, |c|);
    if |free| == 0 then c else
      var i := free[pick % |free|];
      assert i in free;
      c[i := if chance % 10 == 1 then 4 else 2]
  }

  lemma {:induction false} FreeBelowIs(t: seq<Tile>, n: nat)
    requires Proper(t) && n <= 16
    ensures FreeBelow(t, n) == FreeSquares(Cells(t), n)
  {
    if n > 0 {
      FreeBelowIs(t, n - 1);
    }
  }

  // Two pieces on an empty board.
  function TwoPieces(r0: nat, r1: nat, r2: nat, r3: nat): (d: seq<nat>)
    ensures |d| == 16
  {
    SpawnOn(SpawnOn(Blank(16), r0, r1), r2, r3)
  }

  // Every tile shows a power of two, at least two.
  ghost predicate GoodTiles(t: seq<Tile>)
  {
    Proper(t) && GoodRow(Cells(t))
  }

  // The board with a piece of 2 or 4 on a free square.
  ghost predicate Spawned(c: seq<nat>, d: seq<nat>)
  {
    |c| == 16 && exists i | 0 <= i < 16 :: c[i] == 0 && (d == c[i := 2] || d == c[i := 4])
  }

  ghost predicate NewGame(d: seq<nat>)
  {
    exists e :: Spawned(Blank(16), e) && Spawned(e, d)
  }

  ghost predicate Full(c: seq<nat>)
  {
    forall i | 0 <= i < |c| :: c[i] != 0
  }

  lemma SpawnOnIs(c: seq<nat>, pick: nat, chance: nat)
    requires |c| == 16 && !Full(c)
    ensures Spawned(c, SpawnOn(c, pick, chance))
  {
    var free := FreeSquares(c, 16);
    var i :| 0 <= i < 16 && c[i] == 0;
    assert i in free;
    assert free[pick % |free|] in free;
  }

  lemma SpawnedGood(c: seq<nat>, d: seq<nat>)
    requires Spawned(c, d) && GoodRow(c)
    ensures |d| == 16 && GoodRow(d)
  {
    assert IsTile(2) && IsTile(4);
  }

  lemma FullMeansNoFree(t: seq<Tile>)
    requires Proper(t)
    ensures Full(Cells(t)) <==> forall i | 0 <= i < 16 :: t[i].occupied
    ensures FreeBelow(t, 16) == [] <==> forall i | 0 <= i < 16 :: t[i].occupied
  {
    if Full(Cells(t)) {
      forall i | 0 <= i < 16
        ensures t[i].occupied
      {
        assert Cells(t)[i] != 0;
      }
    }
    var r := FreeBelow(t, 16);
    if r != [] {
      assert !t[r[0]].occupied;
    }
  }

  lemma EmptyHasRoom(t: seq<Tile>)
    requires |t| == 16 && forall i | 0 <= i < 16 :: !t[i].occupied && t[i].value == 0
    ensures GoodTiles(t) && FreeBelow(t, 16) != [] && Cells(t) == Blank(16)
  {
    FullMeansNoFree(t);
    assert !t[0].occupied;
  }

  lemma GoodIsProper(t: seq<Tile>)
    requires GoodTiles(t)
    ensures Proper(t)
  {
  }

  lemma TwoSpawns(c: seq<nat>, e: seq<nat>, d: seq<nat>)
    requires c == Blank(16) && Spawned(c, e) && Spawned(e, d)
    ensures NewGame(d)
  {
  }

  lemma RoomAfterOne(t: seq<Tile>)
    requires Proper(t) && Spawned(Blank(16), Cells(t))
    ensures FreeBelow(t, 16) != []
  {
    FullMeansNoFree(t);
    assert Cells(t)[0] == 0 || Cells(t)[1] == 0;
  }

  // What a press does to the board: nothing while tiles are still moving;
  // otherwise the slide, then a spawn, or a new game on a full board.
  ghost predicate Turn(c: seq<nat>, slid: seq<nat>, d: seq<nat>, p: Press)
  {
    |c| == 16 && |slid| == 16 &&
    if p.animating then d == c
    else
      (match DirectionOf(p.key) case Some(dir) => Slid(c, slid, dir) case None => slid == c)
      && d == if Full(slid) then TwoPieces(p.r0, p.r1, p.r2, p.r3) else SpawnOn(slid, p.r0, p.r1)
  }

  // A key, whether tiles are still moving, and the random numbers there are.
  datatype Press = Press(key: Key, animating: bool, r0: nat, r1: nat, r2: nat, r3: nat)

  class Game {
    const board: Board

    ghost predicate Valid()
      reads this, board, board.tiles
    {
      GoodTiles(board.tiles[..])
    }

    constructor (r0: nat, r1: nat, r2: nat, r3: nat)
      ensures Valid() && fresh(board) && fresh(board.tiles) && NewGame(Cells(board.tiles[..]))
      ensures Cells(board.tiles[..]) == TwoPieces(r0, r1, r2, r3)
    {
      board := new Board();
      new;
      StartNewGame(r0, r1, r2, r3);
    }

    method ResetTurnFlags()
      requires board.tiles.Length == 16
      modifies board.tiles
      ensures forall i | 0 <= i < 16 :: board.tiles[i] == old(board.tiles[i]).(combined := false)
    {
      var i := 0;
      while i < 16
        invariant 0 <= i <= 16
        invariant forall j | 0 <= j < 16 :: board.tiles[j] == if j < i then old(board.tiles[j]).(combined := false) else old(board.tiles[j])
      {
        board.tiles[i] := board.tiles[i].(combined := false);
        i := i + 1;
      }
    }

    method FindFree() returns (idxs: seq<nat>)
      requires board.tiles.Length == 16
      ensures idxs == FreeBelow(board.tiles[..], 16)
    {
      idxs := [];
      var i := 0;
      while i < 16
        invariant 0 <= i <= 16 && idxs == FreeBelow(board.tiles[..], i)
      {
        if !board.tiles[i].occupied {
          idxs := idxs + [i];
        }
        i := i + 1;
      }
    }

    // A piece on the free square the random number picks; there must be one.
    method SpawnRandomPiece(pick: nat, chance: nat)
      requires Valid() && FreeBelow(board.tiles[..], 16) != []
      modifies board.tiles
      ensures Valid() && Spawned(Cells(old(board.tiles[..])), Cells(board.tiles[..]))
      ensures Cells(board.tiles[..]) == SpawnOn(Cells(old(board.tiles[..])), pick, chance)
    {
      hide IsTile;
      ghost var t := board.tiles[..];
      FreeBelowIs(t, 16);
      var free := FindFree();
      var chosen := free[pick % |free|];
      var piece := if chance % 10 == 1 then 4 else 2;
      board.tiles[chosen] := board.tiles[chosen].(occupied := true, value := piece);
      assert Cells(t)[chosen] == 0 && Cells(board.tiles[..]) == Cells(t)[chosen := piece];
      SpawnedGood(Cells(t), Cells(board.tiles[..]));
    }

    method IsGameOver() returns (over: bool)
      requires Valid()
      ensures over <==> Full(Cells(board.tiles[..]))
      ensures over <==> FreeBelow(board.tiles[..], 16) == []
    {
      var hasOpenTile, i := false, 0;
      while i < 16
        invariant 0 <= i <= 16 && forall j | 0 <= j < i :: board.tiles[j].occupied
      {
        if !board.tiles[i].occupied {
          hasOpenTile := true;
          break;
        }
        i := i + 1;
      }
      over := !hasOpenTile;
      FullMeansNoFree(board.tiles[..]);
      assert hasOpenTile ==> !board.tiles[..][i].occupied;
    }

    method StartNewGame(r0: nat, r1: nat, r2: nat, r3: nat)
      requires board.tiles.Length == 16
      modifies board.tiles
      ensures Valid() && NewGame(Cells(board.tiles[..])) && Cells(board.tiles[..]) == TwoPieces(r0, r1, r2, r3)
    {
      hide Spawned, SpawnOn, GoodTiles, Cells, Proper, FreeBelow, NewGame, Blank;
      ClearTiles();
      SpawnRandomPiece(r0, r1);
      GoodIsProper(board.tiles[..]);
      RoomAfterOne(board.tiles[..]);
      SpawnRandomPiece(r2, r3);
      TwoSpawns(Blank(16), SpawnOn(Blank(16), r0, r1), TwoPieces(r0, r1, r2, r3));
    }

    method ClearTiles()
      requires board.tiles.Length == 16
      modifies board.tiles
      ensures Valid() && Cells(board.tiles[..]) == Blank(16) && FreeBelow(board.tiles[..], 16) != []
    {
      var i := 0;
      while i < 16
        invariant 0 <= i <= 16
        invariant forall j | 0 <= j < i :: !board.tiles[j].occupied && board.tiles[j].value == 0
      {
        board.tiles[i] := board.tiles[i].(occupied := false, value := 0);
        i := i + 1;
      }
      EmptyHasRoom(board.tiles[..]);
    }

    // The slide a key asks for.
    method SlideFor(key: Key) returns (found: bool)
      requires Valid() && forall i | 0 <= i < 16 :: !board.tiles[i].combined
      modifies board.tiles
      ensures Valid()
      ensures DirectionOf(key).Some? ==> Slid(Cells(old(board.tiles[..])), Cells(board.tiles[..]), DirectionOf(key).value)
      ensures DirectionOf(key).None? ==> board.tiles[..] == old(board.tiles[..])
      ensures found <==> Cells(board.tiles[..]) != Cells(old(board.tiles[..]))
    {
      hide IsTile, Slid;
      ghost var c := Cells(board.tiles[..]);
      found := false;
      match DirectionOf(key) {
        case None =>
          return;
        case Some(dir) =>
          match dir {
            case Left => found := board.LeftSlideAllTiles();
            case Right => found := board.RightSlideAllTiles();
            case Up => found := board.UpSlideAllTiles();
            case Down => found := board.DownSlideAllTiles();
          }
          SlidKeepsGood(c, Cells(board.tiles[..]), dir);
      }
    }

    // `_key_entered`; the random numbers are drawn as they are needed.
    method KeyEntered(key: Key, animating: bool, r0: nat, r1: nat, r2: nat, r3: nat) returns (ghost slid: seq<nat>)
      requires Valid()
      modifies board.tiles
      ensures Valid() && Turn(Cells(old(board.tiles[..])), slid, Cells(board.tiles[..]), Press(key, animating, r0, r1, r2, r3))
    {
      hide IsTile, Slid, NewGame, Spawned, Full, FreeBelow, SpawnOn, TwoPieces;
      slid := Cells(board.tiles[..]);
      if animating {
        return;
      }
      ghost var t := board.tiles[..];
      ResetTurnFlags();
      assert Cells(board.tiles[..]) == Cells(t);
      var found := SlideFor(key);
      slid := Cells(board.tiles[..]);
      var over := IsGameOver();
      if over {
        StartNewGame(r0, r1, r2, r3);
      } else {
        SpawnRandomPiece(r0, r1);
      }
    }
  }

  // A turn adds one piece to the sum, unless it starts a new game.
  lemma TurnSum(c: seq<nat>, slid: seq<nat>, d: seq<nat>, p: Press)
    requires Turn(c, slid, d, p) && !p.animating && !Full(slid)
    ensures Sum(d) == Sum(c) + 2 || Sum(d) == Sum(c) + 4
  {
    hide Slid, Full;
    match DirectionOf(p.key) {
      case Some(dir) => SlidKeepsSum(c, slid, dir);
      case None =>
    }
    SpawnOnIs(slid, p.r0, p.r1);
    var i :| 0 <= i < 16 && slid[i] == 0 && (d == slid[i := 2] || d == slid[i := 4]);
    SumUpdate(slid, i, d[i]);
  }

  lemma {:induction false} SumUpdate(s: seq<nat>, i: nat, v: nat)
    requires i < |s| && s[i] == 0
    ensures Sum(s[i := v]) == Sum(s) + v
  {
    if i < |s| - 1 {
      SumUpdate(s[..|s| - 1], i, v);
      assert s[i := v][..|s| - 1] == s[..|s| - 1][i := v];
    } else {
      assert s[i := v][..|s| - 1] == s[..|s| - 1];
    }
  }

  // Every press is a turn from one board of powers of two to the next.
  ghost predicate IsGame(presses: seq<Press>, boards: seq<seq<nat>>, slids: seq<seq<nat>>)
  {
    |boards| == |presses| + 1 && |slids| == |presses|
    && (forall i | 0 <= i < |boards| :: |boards[i]| == 16 && GoodRow(boards[i]))
    && forall i | 0 <= i < |presses| :: Turn(boards[i], slids[i], boards[i + 1], presses[i])
  }

  lemma GameGoesOn(presses: seq<Press>, n: nat, boards: seq<seq<nat>>, slids: seq<seq<nat>>, slid: seq<nat>, d: seq<nat>)
    requires n < |presses| && IsGame(presses[..n], boards, slids) && |d| == 16 && GoodRow(d)
    requires Turn(boards[n], slid, d, presses[n])
    ensures IsGame(presses[..n + 1], boards + [d], slids + [slid])
  {
    hide Turn, GoodRow;
    var bs, ss := boards + [d], slids + [slid];
    forall i | 0 <= i < n + 1
      ensures Turn(bs[i], ss[i], bs[i + 1], presses[i])
    {
      assert i < n ==> presses[..n][i] == presses[i];
    }
  }

  // However the keys are pressed, every board is one of powers of two, and
  // every spawn finds a free square.
  method Play(game: Game, presses: seq<Press>) returns (ghost boards: seq<seq<nat>>, ghost slids: seq<seq<nat>>)
    requires game.Valid()
    modifies game.board.tiles
    ensures game.Valid() && IsGame(presses, boards, slids)
    ensures boards[0] == Cells(old(game.board.tiles[..])) && boards[|presses|] == Cells(game.board.tiles[..])
  {
    hide Turn, GoodRow;
    boards, slids := [Cells(game.board.tiles[..])], [];
    var i := 0;
    while i < |presses|
      invariant 0 <= i <= |presses| && game.Valid() && IsGame(presses[..i], boards, slids)
      invariant boards[0] == Cells(old(game.board.tiles[..])) && boards[i] == Cells(game.board.tiles[..])
    {
      var p := presses[i];
      ghost var slid := game.KeyEntered(p.key, p.animating, p.r0, p.r1, p.r2, p.r3);
      GameGoesOn(presses, i, boards, slids, slid, Cells(game.board.tiles[..]));
      boards, slids := boards + [Cells(game.board.tiles[..])], slids + [slid];
      i := i + 1;
    }
    assert presses[..|presses|] == presses;
  }
}
