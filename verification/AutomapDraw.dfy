/** Bresenham line drawing of `AM_drawFline` in programs/subprojects/doom/am_map.c, and clip-then-draw. */
module AutomapDraw {
  import opened Automap
  import opened AutomapReject

  function Sign(d: int): int { if d < 0 then -1 else 1 }

  // ----- the decision variable -----

  /** After `i` steps along the longer side `n` and `j` along the shorter side `m`, the decision variable is `d`. */
  ghost predicate Stepping(n: nat, m: nat, i: nat, j: nat, d: int) {
    && m <= n && d == 2 * m * (i + 1) - 2 * n * j - n
    && 2 * m - 2 * n <= d < 2 * m + (if n == 0 then 1 else 0)
  }

  /** One step: along the longer side always, along the shorter side when the variable is not negative. */
  lemma StepOn(n: nat, m: nat, i: nat, j: nat, d: int)
    requires Stepping(n, m, i, j, d) && n > 0
    ensures d >= 0 ==> Stepping(n, m, i + 1, j + 1, d - 2 * n + 2 * m)
    ensures d < 0 ==> Stepping(n, m, i + 1, j, d + 2 * m)
  {
    assert 2 * m * (i + 1 + 1) == 2 * m * (i + 1) + 2 * m;
    assert 2 * n * (j + 1) == 2 * n * j + 2 * n;
  }

  /** The dot is within half a pixel of the ideal line of slope `m / n`. */
  ghost predicate HalfPixel(n: nat, m: nat, i: nat, j: nat) { Abs(2 * m * i - 2 * n * j) <= n }

  lemma SteppingIsHalfPixel(n: nat, m: nat, i: nat, j: nat, d: int)
    requires Stepping(n, m, i, j, d)
    ensures HalfPixel(n, m, i, j)
  {
    assert 2 * m * (i + 1) == 2 * m * i + 2 * m;
  }

  /** The shorter side never overshoots, and is complete when the longer side is. */
  lemma ShortSide(n: nat, m: nat, i: nat, j: nat)
    requires HalfPixel(n, m, i, j) && i <= n && n > 0
    ensures j <= m && (i == n ==> j == m)
  {
    MulUp(m, i, n);
    assert n * (m + 1) == n * m + n && n * (j + 1) == n * j + n;
    if j >= m + 1 { MulUp(n, m + 1, j); }
    if i == n && j < m { MulUp(n, j + 1, m); }
  }

  lemma MulUp(k: nat, x: nat, y: nat)
    requires x <= y
    ensures k * x <= k * y && 2 * k * x == 2 * (k * x) && 2 * k * y == 2 * (k * y)
  {
  }

  // ----- the frame buffer -----

  function Cell(p: Point, w: int): int { p.y * w + p.x }

  lemma CellInRange(p: Point, w: int, h: int)
    requires InFrame(p, w, h)
    ensures 0 <= Cell(p, w) < w * h
  {
    assert p.y * w <= (h - 1) * w == h * w - w;
  }

  lemma CellsDiffer(p: Point, q: Point, w: int, h: int)
    requires InFrame(p, w, h) && InFrame(q, w, h) && Cell(p, w) == Cell(q, w)
    ensures p == q
  {
    if p.y < q.y {
      RowApart(p.y, q.y, w);
    } else if q.y < p.y {
      RowApart(q.y, p.y, w);
    }
  }

  lemma RowApart(y: int, y': int, w: int)
    requires y < y' && w > 0
    ensures y * w + w <= y' * w
  {
    assert (y + 1) * w <= y' * w;
  }

  /** The buffer shows `color` on the dots and is otherwise as it was. */
  ghost predicate Shows(was: seq<int>, now: seq<int>, w: int, h: int, dots: seq<Point>, color: int) {
    && |was| == |now| == w * h
    && forall p :: InFrame(p, w, h) ==> 0 <= Cell(p, w) < w * h && now[Cell(p, w)] == if p in dots then color else was[Cell(p, w)]
  }

  lemma ShowMore(was: seq<int>, now: seq<int>, w: int, h: int, dots: seq<Point>, color: int, p: Point)
    requires Shows(was, now, w, h, dots, color) && InFrame(p, w, h) && 0 <= Cell(p, w) < |now|
    ensures Shows(was, now[Cell(p, w) := color], w, h, dots + [p], color)
  {
    forall q | InFrame(q, w, h)
      ensures 0 <= Cell(q, w) < w * h
      ensures now[Cell(p, w) := color][Cell(q, w)] == if q in dots + [p] then color else was[Cell(q, w)]
    {
      if q != p && Cell(q, w) == Cell(p, w) { CellsDiffer(p, q, w, h); }
    }
  }

  lemma ShowNone(was: seq<int>, w: int, h: int, color: int)
    requires |was| == w * h
    ensures Shows(was, was, w, h, [], color)
  {
    forall p | InFrame(p, w, h)
      ensures 0 <= Cell(p, w) < w * h
    {
      CellInRange(p, w, h);
    }
  }

  // ----- lines -----

  /** Dot `k` of the line from `a` to `b` whose longer side is horizontal. */
  ghost predicate WideDot(a: Point, b: Point, k: nat, p: Point) {
    && p.x == a.x + Sign(b.x - a.x) * k
    && Between(a.y, p.y, b.y)
    && HalfPixel(Abs(b.x - a.x), Abs(b.y - a.y), k, Abs(p.y - a.y))
  }

  ghost predicate TallDot(a: Point, b: Point, k: nat, p: Point) {
    && p.y == a.y + Sign(b.y - a.y) * k
    && Between(a.x, p.x, b.x)
    && HalfPixel(Abs(b.y - a.y), Abs(b.x - a.x), k, Abs(p.x - a.x))
  }

  /** A line: one dot for every step of the longer side, each within half a pixel of the ideal line, from `a` to `b`. */
  ghost predicate IsLine(a: Point, b: Point, dots: seq<Point>) {
    var n, m := Abs(b.x - a.x), Abs(b.y - a.y);
    && |dots| == (if n > m then n else m) + 1
    && dots[0] == a && dots[|dots| - 1] == b
    && forall k :: 0 <= k < |dots| ==> if n > m then WideDot(a, b, k, dots[k]) else TallDot(a, b, k, dots[k])
  }

  method PutDot(fb: array<int>, w: int, h: int, p: Point, color: int, ghost was: seq<int>, ghost dots: seq<Point>)
    requires InFrame(p, w, h) && fb.Length == w * h && Shows(was, fb[..], w, h, dots, color)
    modifies fb
    ensures Shows(was, fb[..], w, h, dots + [p], color)
  {
    CellInRange(p, w, h);
    ShowMore(was, fb[..], w, h, dots, color, p);
    ghost var now := fb[..];
    fb[p.y * w + p.x] := color;
    assert fb[..] == now[Cell(p, w) := color];
  }

  /** The dots so far of a wide line that stands at step `i`, `j` with decision variable `d`. */
  ghost predicate WideSoFar(a: Point, b: Point, dots: seq<Point>, x: int, y: int, j: nat, d: int) {
    var n, m, i := Abs(b.x - a.x), Abs(b.y - a.y), |dots|;
    && Stepping(n, m, i, j, d) && i <= n
    && x == a.x + Sign(b.x - a.x) * i && y == a.y + Sign(b.y - a.y) * j
    && forall k :: 0 <= k < i ==> WideDot(a, b, k, dots[k])
  }

  lemma FirstDot(n: nat, m: nat, j: nat)
    requires HalfPixel(n, m, 0, j) && m <= n
    ensures n > 0 ==> j == 0
  {
    if n > 0 && j > 0 { MulUp(n, 1, j); }
  }

  lemma WideStart(a: Point, b: Point)
    requires Abs(b.x - a.x) > Abs(b.y - a.y)
    ensures WideSoFar(a, b, [], a.x, a.y, 0, 2 * Abs(b.y - a.y) - Abs(b.x - a.x))
  {
  }

  lemma WideHere(a: Point, b: Point, dots: seq<Point>, x: int, y: int, j: nat, d: int)
    requires WideSoFar(a, b, dots, x, y, j, d) && Abs(b.x - a.x) > Abs(b.y - a.y)
    ensures WideDot(a, b, |dots|, Point(x, y)) && Between(a.x, x, b.x)
    ensures x == b.x ==> |dots| == Abs(b.x - a.x) && y == b.y
    ensures x != b.x ==> |dots| < Abs(b.x - a.x)
  {
    hide Stepping, HalfPixel;
    SteppingIsHalfPixel(Abs(b.x - a.x), Abs(b.y - a.y), |dots|, j, d);
    ShortSide(Abs(b.x - a.x), Abs(b.y - a.y), |dots|, j);
  }

  lemma WideDone(a: Point, b: Point, dots: seq<Point>, x: int, y: int, j: nat, d: int)
    requires WideSoFar(a, b, dots, x, y, j, d) && Abs(b.x - a.x) > Abs(b.y - a.y)
    requires WideDot(a, b, |dots|, Point(x, y)) && |dots| == Abs(b.x - a.x) && Point(x, y) == b
    ensures IsLine(a, b, dots + [Point(x, y)])
  {
    var line := dots + [Point(x, y)];
    assert WideDot(a, b, 0, line[0]);
    FirstWide(a, b, line[0]);
    hide Stepping, WideDot;
  }

  lemma FirstWide(a: Point, b: Point, p: Point)
    requires WideDot(a, b, 0, p) && Abs(b.x - a.x) > Abs(b.y - a.y)
    ensures p == a
  {
    hide HalfPixel;
    FirstDot(Abs(b.x - a.x), Abs(b.y - a.y), Abs(p.y - a.y));
  }

  lemma WideNext(a: Point, b: Point, dots: seq<Point>, x: int, y: int, j: nat, d: int)
    requires WideSoFar(a, b, dots, x, y, j, d) && Abs(b.x - a.x) > Abs(b.y - a.y) && |dots| < Abs(b.x - a.x)
    requires WideDot(a, b, |dots|, Point(x, y))
    ensures var n, m, sx, sy := Abs(b.x - a.x), Abs(b.y - a.y), Sign(b.x - a.x), Sign(b.y - a.y);
            if d >= 0 then WideSoFar(a, b, dots + [Point(x, y)], x + sx, y + sy, j + 1, d - 2 * n + 2 * m)
            else WideSoFar(a, b, dots + [Point(x, y)], x + sx, y, j, d + 2 * m)
  {
    hide Stepping, HalfPixel;
    StepOn(Abs(b.x - a.x), Abs(b.y - a.y), |dots|, j, d);
  }

  /** The branch for `ax > ay`. */
  method DrawWide(fb: array<int>, w: int, h: int, a: Point, b: Point, color: int) returns (ghost dots: seq<Point>)
    requires InFrame(a, w, h) && InFrame(b, w, h) && fb.Length == w * h && Abs(b.x - a.x) > Abs(b.y - a.y)
    modifies fb
    ensures Shows(old(fb[..]), fb[..], w, h, dots, color)
    ensures IsLine(a, b, dots)
  {
    hide Shows, WideSoFar, WideDot, Stepping, IsLine, HalfPixel, Sign, InFrame, Abs, Cell, Between;
    var dx, dy := b.x - a.x, b.y - a.y;
    var ax, ay := 2 * Abs(dx), 2 * Abs(dy);
    var sx, sy := Sign(dx), Sign(dy);
    var x, y := a.x, a.y;
    var d := ay - ax / 2;
    assert ax / 2 == Abs(dx);
    dots := [];
    ghost var j: nat := 0;
    ShowNone(fb[..], w, h, color);
    WideStart(a, b);
    while true
      invariant Shows(old(fb[..]), fb[..], w, h, dots, color)
      invariant WideSoFar(a, b, dots, x, y, j, d)
      decreases Abs(dx) - |dots|
    {
      WideHere(a, b, dots, x, y, j, d);
      DotInFrame(a, b, Point(x, y), w, h, |dots|);
      PutDot(fb, w, h, Point(x, y), color, old(fb[..]), dots);
      if x == b.x {
        WideDone(a, b, dots, x, y, j, d);
        dots := dots + [Point(x, y)];
        return;
      }
      WideNext(a, b, dots, x, y, j, d);
      dots := dots + [Point(x, y)];
      if d >= 0 {
        y := y + sy;
        d := d - ax;
        j := j + 1;
      }
      x := x + sx;
      d := d + ay;
    }
  }

  lemma DotInFrame(a: Point, b: Point, p: Point, w: int, h: int, k: nat)
    requires InFrame(a, w, h) && InFrame(b, w, h)
    requires (WideDot(a, b, k, p) && Between(a.x, p.x, b.x)) || (TallDot(a, b, k, p) && Between(a.y, p.y, b.y))
    ensures InFrame(p, w, h)
  {
  }

  /** The dots so far of a tall line. */
  ghost predicate TallSoFar(a: Point, b: Point, dots: seq<Point>, x: int, y: int, j: nat, d: int) {
    var n, m, i := Abs(b.y - a.y), Abs(b.x - a.x), |dots|;
    && Stepping(n, m, i, j, d) && i <= n && (n == 0 ==> j == 0)
    && y == a.y + Sign(b.y - a.y) * i && x == a.x + Sign(b.x - a.x) * j
    && forall k :: 0 <= k < i ==> TallDot(a, b, k, dots[k])
  }

  lemma TallStart(a: Point, b: Point)
    requires Abs(b.y - a.y) >= Abs(b.x - a.x)
    ensures TallSoFar(a, b, [], a.x, a.y, 0, 2 * Abs(b.x - a.x) - Abs(b.y - a.y))
  {
  }

  lemma TallHere(a: Point, b: Point, dots: seq<Point>, x: int, y: int, j: nat, d: int)
    requires TallSoFar(a, b, dots, x, y, j, d) && Abs(b.y - a.y) >= Abs(b.x - a.x)
    ensures TallDot(a, b, |dots|, Point(x, y)) && Between(a.y, y, b.y)
    ensures y == b.y ==> |dots| == Abs(b.y - a.y) && x == b.x
    ensures y != b.y ==> |dots| < Abs(b.y - a.y)
  {
    hide Stepping, HalfPixel;
    SteppingIsHalfPixel(Abs(b.y - a.y), Abs(b.x - a.x), |dots|, j, d);
    if a.y != b.y {
      ShortSide(Abs(b.y - a.y), Abs(b.x - a.x), |dots|, j);
    }
  }

  lemma TallDone(a: Point, b: Point, dots: seq<Point>, x: int, y: int, j: nat, d: int)
    requires TallSoFar(a, b, dots, x, y, j, d) && Abs(b.y - a.y) >= Abs(b.x - a.x)
    requires TallDot(a, b, |dots|, Point(x, y)) && |dots| == Abs(b.y - a.y) && Point(x, y) == b
    ensures IsLine(a, b, dots + [Point(x, y)])
  {
    var line := dots + [Point(x, y)];
    assert TallDot(a, b, 0, line[0]);
    FirstTall(a, b, line[0]);
    hide Stepping, TallDot;
  }

  lemma FirstTall(a: Point, b: Point, p: Point)
    requires TallDot(a, b, 0, p) && Abs(b.y - a.y) >= Abs(b.x - a.x)
    ensures p == a
  {
    hide HalfPixel;
    FirstDot(Abs(b.y - a.y), Abs(b.x - a.x), Abs(p.x - a.x));
  }

  lemma TallNext(a: Point, b: Point, dots: seq<Point>, x: int, y: int, j: nat, d: int)
    requires TallSoFar(a, b, dots, x, y, j, d) && Abs(b.y - a.y) >= Abs(b.x - a.x) && |dots| < Abs(b.y - a.y)
    requires TallDot(a, b, |dots|, Point(x, y))
    ensures var n, m, sx, sy := Abs(b.y - a.y), Abs(b.x - a.x), Sign(b.x - a.x), Sign(b.y - a.y);
            if d >= 0 then TallSoFar(a, b, dots + [Point(x, y)], x + sx, y + sy, j + 1, d - 2 * n + 2 * m)
            else TallSoFar(a, b, dots + [Point(x, y)], x, y + sy, j, d + 2 * m)
  {
    hide Stepping, HalfPixel;
    StepOn(Abs(b.y - a.y), Abs(b.x - a.x), |dots|, j, d);
  }

  /** The branch for `ax <= ay`. */
  method DrawTall(fb: array<int>, w: int, h: int, a: Point, b: Point, color: int) returns (ghost dots: seq<Point>)
    requires InFrame(a, w, h) && InFrame(b, w, h) && fb.Length == w * h && Abs(b.y - a.y) >= Abs(b.x - a.x)
    modifies fb
    ensures Shows(old(fb[..]), fb[..], w, h, dots, color)
    ensures IsLine(a, b, dots)
  {
    hide Shows, TallSoFar, TallDot, Stepping, IsLine, HalfPixel, Sign, InFrame, Abs, Cell, Between;
    var dx, dy := b.x - a.x, b.y - a.y;
    var ax, ay := 2 * Abs(dx), 2 * Abs(dy);
    var sx, sy := Sign(dx), Sign(dy);
    var x, y := a.x, a.y;
    var d := ax - ay / 2;
    assert ay / 2 == Abs(dy);
    dots := [];
    ghost var j: nat := 0;
    ShowNone(fb[..], w, h, color);
    TallStart(a, b);
    while true
      invariant Shows(old(fb[..]), fb[..], w, h, dots, color)
      invariant TallSoFar(a, b, dots, x, y, j, d)
      decreases Abs(dy) - |dots|
    {
      TallHere(a, b, dots, x, y, j, d);
      DotInFrame(a, b, Point(x, y), w, h, |dots|);
      PutDot(fb, w, h, Point(x, y), color, old(fb[..]), dots);
      if y == b.y {
        TallDone(a, b, dots, x, y, j, d);
        dots := dots + [Point(x, y)];
        return;
      }
      TallNext(a, b, dots, x, y, j, d);
      dots := dots + [Point(x, y)];
      if d >= 0 {
        x := x + sx;
        d := d - ay;
        j := j + 1;
      }
      y := y + sy;
      d := d + ax;
    }
  }

  /** `AM_drawFline`: a line with an endpoint outside the frame is refused; otherwise exactly its dots are coloured. */
  method DrawFline(fb: array<int>, w: int, h: int, a: Point, b: Point, color: int) returns (refused: bool, ghost dots: seq<Point>)
    requires w > 0 && h > 0 && fb.Length == w * h
    modifies fb
    ensures refused <==> !(InFrame(a, w, h) && InFrame(b, w, h))
    ensures Shows(old(fb[..]), fb[..], w, h, dots, color)
    ensures if refused then dots == [] else IsLine(a, b, dots)
  {
    dots := [];
    if a.x < 0 || a.x >= w || a.y < 0 || a.y >= h || b.x < 0 || b.x >= w || b.y < 0 || b.y >= h {
      ShowNone(fb[..], w, h, color);
      return true, [];
    }
    refused := false;
    if Abs(b.x - a.x) > Abs(b.y - a.y) {
      dots := DrawWide(fb, w, h, a, b, color);
    } else {
      dots := DrawTall(fb, w, h, a, b, color);
    }
  }

  // ----- map lines -----

  /** The automap window: its corner and far corner on the map, and the map-to-frame scale (16.16 fixed point). */
  datatype Window = Window(x: int, y: int, x2: int, y2: int, scale: int)

  /** FixedMul followed by dropping the fraction; both shifts round down. */
  function Mtof(d: int, scale: int): int { d * scale / 65536 / 65536 }

  /** The map turned over: rows count down from the lower edge of the window, columns to the right from its left edge, by
      whole pixels of the scaled distance. */
  lemma ToFrameIs(win: Window, h: int, p: Point)
    ensures var f := ToFrame(win, h, p);
            && f.x * 0x1_0000_0000 <= (p.x - win.x) * win.scale < (f.x + 1) * 0x1_0000_0000
            && (h - f.y) * 0x1_0000_0000 <= (p.y - win.y) * win.scale < (h - f.y + 1) * 0x1_0000_0000
  {
    MtofIs(p.x - win.x, win.scale);
    MtofIs(p.y - win.y, win.scale);
  }

  lemma MtofIs(d: int, scale: int)
    ensures Mtof(d, scale) * 0x1_0000_0000 <= d * scale < (Mtof(d, scale) + 1) * 0x1_0000_0000
  {
    TwoShifts(d * scale);
  }

  lemma TwoShifts(x: int)
    ensures x / 65536 / 65536 * 0x1_0000_0000 <= x < (x / 65536 / 65536 + 1) * 0x1_0000_0000
  {
    var y := x / 65536;
    assert y * 65536 <= x < y * 65536 + 65536;
  }

  function ToFrame(win: Window, h: int, p: Point): Point {
    Point(Mtof(p.x - win.x, win.scale), h - Mtof(p.y - win.y, win.scale))
  }

  /** Both ends of a map line lie beyond the same side of the window. */
  predicate BeyondOneSide(win: Window, a: Point, b: Point) {
    || (a.y > win.y2 && b.y > win.y2) || (a.y < win.y && b.y < win.y)
    || (a.x < win.x && b.x < win.x) || (a.x > win.x2 && b.x > win.x2)
  }

  /** `AM_clipMline`: reject on the map if possible, else clip in the frame. */
  method ClipMline(win: Window, a0: Point, b0: Point, w: int, h: int) returns (ok: bool, a: Point, b: Point, passes: nat)
    requires w > 0 && h > 0 && win.y <= win.y2 && win.x <= win.x2
    ensures BeyondOneSide(win, a0, b0) ==> !ok
    ensures !BeyondOneSide(win, a0, b0) ==> Clipped(ok, a, b, passes) == ClipSpec(ToFrame(win, h, a0), ToFrame(win, h, b0), w, h)
    ensures !BeyondOneSide(win, a0, b0) && (InFrame(ToFrame(win, h, a0), w, h) || InFrame(ToFrame(win, h, b0), w, h)) ==> ok
    ensures !BeyondOneSide(win, a0, b0) && Passes(ToFrame(win, h, a0), ToFrame(win, h, b0), w, h, 1) ==> ok
    ensures ok ==> OnSegment(ToFrame(win, h, a0), ToFrame(win, h, b0), a, w, h) && OnSegment(ToFrame(win, h, a0), ToFrame(win, h, b0), b, w, h)
    ensures ok && InFrame(ToFrame(win, h, a0), w, h) ==> a == ToFrame(win, h, a0)
    ensures ok && InFrame(ToFrame(win, h, b0), w, h) ==> b == ToFrame(win, h, b0)
  {
    var top1, bottom1 := a0.y > win.y2, a0.y <= win.y2 && a0.y < win.y;
    var top2, bottom2 := b0.y > win.y2, b0.y <= win.y2 && b0.y < win.y;
    a, b, passes := a0, b0, 0;
    if (top1 && top2) || (bottom1 && bottom2) {
      return false, a, b, 0;
    }
    var left1, right1 := a0.x < win.x, a0.x >= win.x && a0.x > win.x2;
    var left2, right2 := b0.x < win.x, b0.x >= win.x && b0.x > win.x2;
    if (left1 && left2) || (right1 && right2) {
      return false, a, b, 0;
    }
    hide ToFrame, ClipSpec, CloseTo, InBox, PassesAt;
    var fa, fb := ToFrame(win, h, a0), ToFrame(win, h, b0);
    ok, a, b, passes := ClipLine(fa, fb, w, h);
    if Passes(fa, fb, w, h, 1) {
      var m, n :| PassesAt(fa, fb, w, h, 1, m, n);
      OneColumnInside(fa, fb, w, h, m, n);
    }
  }

  /** A point of the frame in the box of the segment and close to its line. */
  predicate OnSegment(a0: Point, b0: Point, p: Point, w: int, h: int) {
    InFrame(p, w, h) && InBox(p, a0, b0) && CloseTo(a0, b0, p)
  }

  /** `AM_drawMline`: what survives clipping is drawn, and the drawing never refuses it. */
  method DrawMline(fb: array<int>, win: Window, a0: Point, b0: Point, w: int, h: int, color: int)
    returns (ok: bool, ghost dots: seq<Point>)
    requires w > 0 && h > 0 && win.y <= win.y2 && win.x <= win.x2 && fb.Length == w * h
    modifies fb
    ensures Shows(old(fb[..]), fb[..], w, h, dots, color)
    ensures !BeyondOneSide(win, a0, b0) && Passes(ToFrame(win, h, a0), ToFrame(win, h, b0), w, h, 1) ==> ok
    ensures var fa, fb := ToFrame(win, h, a0), ToFrame(win, h, b0);
            var c := ClipSpec(fa, fb, w, h);
            && ok == (!BeyondOneSide(win, a0, b0) && c.ok)
            && (if ok then IsLine(c.a, c.b, dots) && OnSegment(fa, fb, c.a, w, h) && OnSegment(fa, fb, c.b, w, h) else dots == [])
            && (ok && InFrame(fa, w, h) ==> dots[0] == fa) && (ok && InFrame(fb, w, h) ==> dots[|dots| - 1] == fb)
  {
    hide Shows, ToFrame, Passes, ClipSpec;
    var a, b, passes, refused;
    ok, a, b, passes := ClipMline(win, a0, b0, w, h);
    dots := [];
    if ok {
      refused, dots := DrawFline(fb, w, h, a, b, color);
    } else {
      ShowNone(fb[..], w, h, color);
    }
  }
}
