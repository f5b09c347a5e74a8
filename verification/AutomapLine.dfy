/** What `AM_drawMline` of programs/subprojects/doom/am_map.c shows of a segment: its ends, and every point well inside. */
module AutomapLine {
  import opened Automap
  import opened AutomapReject
  import opened AutomapDraw

  // ----- the ends -----

  /** `q` is `p`, which is in the frame, or lies on a side of the frame that `p` is beyond. */
  predicate OnSide(p: Point, q: Point, w: int, h: int) {
    || (q == p && InFrame(p, w, h))
    || (p.y < 0 && q.y == 0) || (p.y >= h && q.y == h - 1)
    || (p.x < 0 && q.x == 0) || (p.x >= w && q.x == w - 1)
  }

  /** Clipping leaves an endpoint alone or puts it on a side of the frame that it was beyond. */
  lemma {:induction false} EndsOnSides(a: Point, b: Point, w: int, h: int)
    requires w > 0 && h > 0 && !CodeOf(a, w, h).Shares(CodeOf(b, w, h)) && ClipFrom(a, b, w, h).ok
    ensures var r := ClipFrom(a, b, w, h); OnSide(a, r.a, w, h) && OnSide(b, r.b, w, h)
    decreases Violations(a, b, w, h)
  {
    hide Meet;
    var outcode1, outcode2 := CodeOf(a, w, h), CodeOf(b, w, h);
    if outcode1.Any() {
      var p := Meet(a, b, outcode1, w, h);
      MeetIs(a, b, outcode1, w, h);
      ClipStep(a, b, p, outcode1, w, h);
      EndsOnSides(p, b, w, h);
      SideBefore(a, b, p, ClipFrom(p, b, w, h).a, w, h);
    } else if outcode2.Any() {
      var p := Meet(a, b, outcode2, w, h);
      MeetIs(a, b, outcode2, w, h);
      ClipStep(a, b, p, outcode2, w, h);
      EndsOnSides(a, p, w, h);
      SideBefore(b, a, p, ClipFrom(a, p, w, h).b, w, h);
    }
  }

  /** A side that the crossing `p` is beyond is one that `a` is beyond, unless `p` and `b` are beyond one side. */
  lemma SideBefore(a: Point, b: Point, p: Point, q: Point, w: int, h: int)
    requires w > 0 && h > 0 && Between(a.x, p.x, b.x) && Between(a.y, p.y, b.y) && !CodeOf(p, w, h).Shares(CodeOf(b, w, h))
    requires CodeOf(a, w, h).Any() && OnSide(p, q, w, h)
    requires var c := CodeOf(a, w, h);
             if c.top then p.y == 0 else if c.bottom then p.y == h - 1 else if c.right then p.x == w - 1 else p.x == 0
    ensures OnSide(a, q, w, h)
  {
  }

  // ----- the dots -----

  /** Every dot is about as close to the segment as the ends that were clipped. */
  lemma DotsNear(a0: Point, b0: Point, a: Point, b: Point, dots: seq<Point>, q: Point)
    requires CloseTo(a0, b0, a) && CloseTo(a0, b0, b) && IsLine(a, b, dots) && q in dots
    ensures Abs(Cross(a0, b0, q)) <= 4 * Abs(b0.x - a0.x) + 3 * Abs(b0.y - a0.y)
  {
    hide Cross, HalfPixel;
    var k :| 0 <= k < |dots| && dots[k] == q;
    if a != b {
      DotNear(a, b, k, q);
      NearLine(a0, b0, a, b, k, q);
    }
  }

  /** The longer side of a line. */
  function Longer(a: Point, b: Point): (n: nat) { if Abs(b.x - a.x) > Abs(b.y - a.y) then Abs(b.x - a.x) else Abs(b.y - a.y) }

  lemma DotNear(a: Point, b: Point, k: nat, q: Point)
    requires a != b && k <= Longer(a, b)
    requires if Abs(b.x - a.x) > Abs(b.y - a.y) then WideDot(a, b, k, q) else TallDot(a, b, k, q)
    ensures Near(a, b, q, Longer(a, b), k, 1, 1)
  {
    if Abs(b.x - a.x) > Abs(b.y - a.y) {
      HalfPixelNear(a.x, a.y, b.x, b.y, k, q.x, q.y);
    } else {
      HalfPixelNear(a.y, a.x, b.y, b.x, k, q.y, q.x);
    }
  }

  lemma NearLine(a0: Point, b0: Point, a: Point, b: Point, k: nat, q: Point)
    requires CloseTo(a0, b0, a) && CloseTo(a0, b0, b) && Near(a, b, q, Longer(a, b), k, 1, 1)
    ensures Abs(Cross(a0, b0, q)) <= 4 * Abs(b0.x - a0.x) + 3 * Abs(b0.y - a0.y)
  {
    var bound := 3 * Abs(b0.x - a0.x) + 2 * Abs(b0.y - a0.y);
    hide Near, Cross;
    NearCross(a0, b0, a, b, q, Longer(a, b), k, 1, 1, bound);
  }

  /** `k` steps along the longer side of a line: at most one off along the shorter side. */
  lemma HalfPixelNear(px: int, py: int, qx: int, qy: int, k: nat, x: int, y: int)
    requires x == px + Sign(qx - px) * k && Between(py, y, qy) && HalfPixel(Abs(qx - px), Abs(qy - py), k, Abs(y - py))
    ensures var n := Abs(qx - px);
            n * (x - px) - k * (qx - px) == 0 && Abs(n * (y - py) - k * (qy - py)) <= n
  {
    var n, m := Abs(qx - px), Abs(qy - py);
    Signed(qx - px, k);
    SameSign(n, m, k, y - py, qy - py);
  }

  lemma Signed(d: int, k: nat)
    ensures Abs(d) * (Sign(d) * k) == k * d
  {
  }

  lemma SameSign(n: nat, m: nat, k: nat, j: int, d: int)
    requires Abs(2 * m * k - 2 * n * Abs(j)) <= n && m == Abs(d) && Between(0, j, d)
    ensures Abs(n * j - k * d) <= n
  {
    assert 2 * m * k == 2 * (k * m) && 2 * n * Abs(j) == 2 * (n * Abs(j));
    if d < 0 {
      NegProduct(k, m);
      NegProduct(n, Abs(j));
    }
  }

  // ----- no gaps -----

  /** Counting from 0 in steps of at most one passes every number. */
  lemma {:induction false} PassesEvery(js: seq<nat>, target: nat)
    requires js != [] && js[0] == 0 && target <= js[|js| - 1]
    requires forall k :: 0 <= k < |js| - 1 ==> js[k + 1] <= js[k] + 1
    ensures exists k :: 0 <= k < |js| && js[k] == target
  {
    var last := |js| - 1;
    if js[last] != target {
      assert last > 0 && js[last - 1 + 1] <= js[last - 1] + 1;
      PassesEvery(js[..last], target);
    }
  }

  /** Between two dots in a row the shorter side moves by at most one. */
  lemma ShortStep(n: nat, m: nat, k: nat, j: nat, j': nat)
    requires m <= n && n > 0 && HalfPixel(n, m, k, j) && HalfPixel(n, m, k + 1, j')
    ensures j' <= j + 1
  {
    assert 2 * m * (k + 1) == 2 * m * k + 2 * m;
    if j' >= j + 2 {
      MulUp(n, j + 2, j');
      assert n * (j + 2) == n * j + 2 * n;
      assert 2 * n * j == 2 * (n * j) && 2 * n * j' == 2 * (n * j');
      assert m == n && 2 * m * k == 2 * n * j + n;
      HalfIsNotWhole(n, k, j);
    }
  }

  lemma HalfIsNotWhole(n: nat, k: nat, j: nat)
    requires n > 0
    ensures 2 * n * k != 2 * n * j + n
  {
    if k > j {
      MulUp(n, j + 1, k);
      assert n * (j + 1) == n * j + n && 2 * n * k == 2 * (n * k);
    } else {
      MulUp(n, k, j);
    }
  }

  ghost predicate IsDot(a: Point, b: Point, k: nat, p: Point) {
    if Abs(b.x - a.x) > Abs(b.y - a.y) then WideDot(a, b, k, p) else TallDot(a, b, k, p)
  }

  lemma LineDots(a: Point, b: Point, dots: seq<Point>)
    requires IsLine(a, b, dots)
    ensures dots != [] && dots[0] == a && dots[|dots| - 1] == b && forall k :: 0 <= k < |dots| ==> IsDot(a, b, k, dots[k])
  {
  }

  lemma DotStep(a: Point, b: Point, k: nat, p: Point, q: Point)
    requires IsDot(a, b, k, p) && IsDot(a, b, k + 1, q)
    ensures Abs(q.x - a.x) <= Abs(p.x - a.x) + 1 && Abs(q.y - a.y) <= Abs(p.y - a.y) + 1
  {
    hide HalfPixel;
    var n, m := Abs(b.x - a.x), Abs(b.y - a.y);
    if n > m {
      ShortStep(n, m, k, Abs(p.y - a.y), Abs(q.y - a.y));
    } else if m > 0 {
      ShortStep(m, n, k, Abs(p.x - a.x), Abs(q.x - a.x));
    }
  }

  lemma DotInBox(a: Point, b: Point, dots: seq<Point>, k: nat)
    requires IsLine(a, b, dots) && k < |dots|
    ensures InBox(dots[k], a, b)
  {
    hide HalfPixel;
    LineDots(a, b, dots);
    assert IsDot(a, b, k, dots[k]);
  }

  lemma FromZero(p: int, q: int, x: int)
    requires Between(p, x, q)
    ensures Abs(p - p) == 0 && Abs(x - p) <= Abs(q - p)
  {
  }

  lemma SameSide(p: int, q: int, x: int, y: int)
    requires Between(p, x, q) && Between(p, y, q) && Abs(x - p) == Abs(y - p)
    ensures x == y
  {
  }

  /** The line has a dot in every column between its ends. */
  lemma EveryColumn(a: Point, b: Point, dots: seq<Point>, x: int) returns (q: Point)
    requires IsLine(a, b, dots) && Between(a.x, x, b.x)
    ensures q in dots && q.x == x
  {
    LineDots(a, b, dots);
    hide IsDot, IsLine, Abs, Between;
    var js := seq(|dots|, k requires 0 <= k < |dots| => Abs(dots[k].x - a.x));
    forall k | 0 <= k < |js| - 1
      ensures js[k + 1] <= js[k] + 1
    {
      DotStep(a, b, k, dots[k], dots[k + 1]);
    }
    FromZero(a.x, b.x, x);
    PassesEvery(js, Abs(x - a.x));
    var k :| 0 <= k < |js| && js[k] == Abs(x - a.x);
    q := dots[k];
    DotInBox(a, b, dots, k);
    SameSide(a.x, b.x, q.x, x);
  }

  /** And in every row. */
  lemma EveryRow(a: Point, b: Point, dots: seq<Point>, y: int) returns (q: Point)
    requires IsLine(a, b, dots) && Between(a.y, y, b.y)
    ensures q in dots && q.y == y
  {
    LineDots(a, b, dots);
    hide IsDot, IsLine, Abs, Between;
    var js := seq(|dots|, k requires 0 <= k < |dots| => Abs(dots[k].y - a.y));
    forall k | 0 <= k < |js| - 1
      ensures js[k + 1] <= js[k] + 1
    {
      DotStep(a, b, k, dots[k], dots[k + 1]);
    }
    FromZero(a.y, b.y, y);
    PassesEvery(js, Abs(y - a.y));
    var k :| 0 <= k < |js| && js[k] == Abs(y - a.y);
    q := dots[k];
    DotInBox(a, b, dots, k);
    SameSide(a.y, b.y, q.y, y);
  }

  // ----- what is shown -----

  /** Both ends of the clipped segment are close to the line. */
  lemma {:induction false} EndsAreClose(a0: Point, b0: Point, a: Point, b: Point, w: int, h: int, passes: nat, off: nat)
    requires w > 0 && h > 0 && !CodeOf(a0, w, h).Shares(CodeOf(b0, w, h)) && !CodeOf(a, w, h).Shares(CodeOf(b, w, h))
    requires ClipState(a0, b0, a, b, w, h, passes, off) && Remaining(a0, b0, a, b, w, h, passes)
    ensures CloseTo(a0, b0, ClipFrom(a0, b0, w, h).a) && CloseTo(a0, b0, ClipFrom(a0, b0, w, h).b)
    decreases Violations(a, b, w, h)
  {
    hide ClipState, CodeOf, Remaining, Meet, ClipFrom, Violations, Share, CloseTo, InBox;
    if CodeOf(a, w, h).Any() || CodeOf(b, w, h).Any() {
      var outside := if CodeOf(a, w, h).Any() then CodeOf(a, w, h) else CodeOf(b, w, h);
      var p := Meet(a, b, outside, w, h);
      LoopMoves(a0, b0, a, b, w, h, passes, off, p, outside);
      var a', b' := if CodeOf(a, w, h).Any() then p else a, if CodeOf(a, w, h).Any() then b else p;
      var off' := off + Share(outside, Abs(b0.x - a0.x), Abs(b0.y - a0.y));
      if CodeOf(a', w, h).Shares(CodeOf(b', w, h)) {
        ClipEnds(a0, b0, a', b', w, h, passes + 1, off');
      } else {
        EndsAreClose(a0, b0, a', b', w, h, passes + 1, off');
      }
    } else {
      RemainingEnds(a0, b0, a, b, w, h, passes);
      ClipEnds(a0, b0, a, b, w, h, passes, off);
    }
  }

  /** What clipping leaves of an accepted segment: each end is the segment's own or on a side that one was beyond, and
      both are close to the line. */
  lemma ClippedEnds(a0: Point, b0: Point, w: int, h: int)
    requires w > 0 && h > 0 && ClipSpec(a0, b0, w, h).ok
    ensures var c := ClipSpec(a0, b0, w, h);
            && OnSide(a0, c.a, w, h) && OnSide(b0, c.b, w, h) && CloseTo(a0, b0, c.a) && CloseTo(a0, b0, c.b)
  {
    hide ClipFrom, ClipState, Remaining, OnSide, CloseTo;
    EndsOnSides(a0, b0, w, h);
    ClipStarts(a0, b0, w, h);
    RemainingStarts(a0, b0, w, h);
    EndsAreClose(a0, b0, a0, b0, w, h, 0, 0);
  }

  /** In one direction: an end on the side that its own point was beyond, and near the line from (px, py) to (qx, qy),
      does not lie past a point of that line well inside.  `n` is the frame's size this way and `m` the other. */
  lemma NotPast(px: int, py: int, qx: int, qy: int, ax: int, ay: int, x: int, y: int, n: int, m: int)
    requires Abs(qy - py) <= Abs(qx - px) && qx != px && Between(px, x, qx) && Between(py, y, qy)
    requires Abs((ax - px) * (qy - py) - (ay - py) * (qx - px)) <= 5 * Abs(qx - px) && (x - px) * (qy - py) == (y - py) * (qx - px)
    requires 6 <= x < n - 6 && 6 <= y < m - 6
    requires (ax == px && ay == py) || (py < 0 && ay == 0) || (py >= m && ay == m - 1) || (px < 0 && ax == 0) || (px >= n && ax == n - 1)
    ensures if px < qx then ax <= x else ax >= x
  {
    var dx, dy := qx - px, qy - py;
    Apart(ax - px, ay - py, x - px, y - py, dx, dy);
    if py < 0 && ay == 0 {
      PastRow(ax - x, -y, dx, dy);
    } else if py >= m && ay == m - 1 {
      PastRow(ax - x, m - 1 - y, dx, dy);
    }
  }

  lemma Apart(u: int, v: int, s: int, t: int, dx: int, dy: int)
    requires s * dy == t * dx
    ensures (u - s) * dy - (v - t) * dx == u * dy - v * dx
  {
  }

  /** `v` rows off the line, away from where `dy` leads, six rows at least. */
  lemma PastRow(u: int, v: int, dx: int, dy: int)
    requires dx != 0 && Abs(u * dy - v * dx) <= 5 * Abs(dx) && Abs(v) >= 6
    requires v < 0 ==> dy > 0
    requires v > 0 ==> dy < 0
    ensures if dx > 0 then u <= 0 else u >= 0
  {
  }

  /** A point well inside the frame. */
  predicate WellInside(p: Point, w: int, h: int) { 6 <= p.x < w - 6 && 6 <= p.y < h - 6 }

  /** The same on both ends: the clipped segment spans the point, along the longer side. */
  lemma SpansAcross(a0: Point, b0: Point, a: Point, b: Point, w: int, h: int, p: Point)
    requires InBox(p, a0, b0) && Cross(a0, b0, p) == 0 && WellInside(p, w, h) && a0.x != b0.x
    requires OnSide(a0, a, w, h) && OnSide(b0, b, w, h) && CloseTo(a0, b0, a) && CloseTo(a0, b0, b)
    requires Abs(b0.x - a0.x) >= Abs(b0.y - a0.y)
    ensures Between(a.x, p.x, b.x)
  {
    CrossIs(a0, b0, a);
    CrossIs(a0, b0, b);
    CrossIs(a0, b0, p);
    hide Cross;
    NotPast(a0.x, a0.y, b0.x, b0.y, a.x, a.y, p.x, p.y, w, h);
    NotPast(b0.x, b0.y, a0.x, a0.y, b.x, b.y, p.x, p.y, w, h);
  }

  lemma SpansDown(a0: Point, b0: Point, a: Point, b: Point, w: int, h: int, p: Point)
    requires InBox(p, a0, b0) && Cross(a0, b0, p) == 0 && WellInside(p, w, h) && a0.y != b0.y
    requires OnSide(a0, a, w, h) && OnSide(b0, b, w, h) && CloseTo(a0, b0, a) && CloseTo(a0, b0, b)
    requires Abs(b0.x - a0.x) <= Abs(b0.y - a0.y)
    ensures Between(a.y, p.y, b.y)
  {
    CrossIs(a0, b0, a);
    CrossIs(a0, b0, b);
    CrossIs(a0, b0, p);
    hide Cross;
    NotPast(a0.y, a0.x, b0.y, b0.x, a.y, a.x, p.y, p.x, h, w);
    NotPast(b0.y, b0.x, a0.y, a0.x, b.y, b.x, p.y, p.x, h, w);
  }

  // The four ways to write it.
  lemma CrossIs(a0: Point, b0: Point, p: Point)
    ensures (p.x - a0.x) * (b0.y - a0.y) - (p.y - a0.y) * (b0.x - a0.x) == Cross(a0, b0, p)
    ensures (p.x - b0.x) * (a0.y - b0.y) - (p.y - b0.y) * (a0.x - b0.x) == -Cross(a0, b0, p)
    ensures (p.y - a0.y) * (b0.x - a0.x) - (p.x - a0.x) * (b0.y - a0.y) == -Cross(a0, b0, p)
    ensures (p.y - b0.y) * (a0.x - b0.x) - (p.x - b0.x) * (a0.y - b0.y) == Cross(a0, b0, p)
  {
  }

  /** A dot in the column of a point of the line is at most seven rows from it. */
  lemma RowsOff7(dx: int, dy: int, v: int)
    requires Abs(v * dx) <= 4 * Abs(dx) + 3 * Abs(dy) && Abs(dy) <= Abs(dx) && dx != 0
    ensures Abs(v) <= 7
  {
    AbsOfProduct(v, dx);
    EightIsMore(Abs(v), Abs(dx), Abs(dy));
  }

  lemma EightIsMore(v: nat, m: nat, n: nat)
    requires v * m <= 4 * m + 3 * n && n <= m && m > 0
    ensures v <= 7
  {
    AtLeastEight(v, m);
  }

  lemma AtLeastEight(v: nat, m: nat)
    ensures v >= 8 ==> v * m >= 8 * m
  {
  }

  /** A lattice point of the segment is some fraction of the way. */
  lemma PointIsAt(a0: Point, b0: Point, p: Point) returns (m: int, n: int)
    requires InBox(p, a0, b0) && Cross(a0, b0, p) == 0
    ensures 0 <= n <= m && 0 < m && Along(a0.x, b0.x, m, n) == m * p.x && Along(a0.y, b0.y, m, n) == m * p.y
  {
    hide Along;
    var dx, dy := b0.x - a0.x, b0.y - a0.y;
    if dx != 0 {
      m, n := Abs(dx), Abs(p.x - a0.x);
      OnTheWayTo(p.x - a0.x, p.y - a0.y, dx, dy);
    } else if dy != 0 {
      m, n := Abs(dy), Abs(p.y - a0.y);
      OnTheWayTo(p.y - a0.y, p.x - a0.x, dy, dx);
    } else {
      m, n := 1, 0;
    }
    hide Cross, Abs, InBox;
    AlongIs(a0.x, b0.x, p.x, m, n);
    AlongIs(a0.y, b0.y, p.y, m, n);
  }

  /** A point of the segment well inside the frame is on the segment's way through it. */
  lemma PointPasses(a0: Point, b0: Point, w: int, h: int, p: Point) returns (m: int, n: int)
    requires InBox(p, a0, b0) && Cross(a0, b0, p) == 0 && WellInside(p, w, h)
    ensures PassesAt(a0, b0, w, h, 1, m, n)
  {
    hide Along, Abs, Cross, InBox;
    m, n := PointIsAt(a0, b0, p);
    InsideScaled(m, p.x, w - 2);
    InsideScaled(m, p.y, h - 1);
    assert h * m == (h - 1) * m + m;
  }

  lemma AlongIs(p: int, q: int, x: int, m: int, n: int)
    ensures n * (q - p) == m * (x - p) ==> Along(p, q, m, n) == m * x
  {
    assert Along(p, q, m, n) == m * p + n * (q - p) && m * (x - p) == m * x - m * p;
  }

  /** (u, v) of the way (dx, dy), as a fraction of dx. */
  lemma OnTheWayTo(u: int, v: int, dx: int, dy: int)
    requires Between(0, u, dx) && u * dy == v * dx
    ensures 0 <= Abs(u) <= Abs(dx) && Abs(u) * dx == Abs(dx) * u && Abs(u) * dy == Abs(dx) * v
  {
    if dx < 0 {
      NegProduct(u, dx);
      NegProduct(u, dy);
      NegProduct(v, dx);
    }
  }

  lemma InsideScaled(m: int, x: int, top: int)
    requires m > 0 && 1 <= x <= top
    ensures m <= m * x <= top * m
  {
  }

  /** Every lattice point of the segment well inside the frame is shown: the segment is not rejected, and some dot is in
      the same column, or in the same row if the segment is steep, and at most seven pixels away. */
  lemma SegmentIsShown(a0: Point, b0: Point, w: int, h: int, dots: seq<Point>, p: Point) returns (q: Point)
    requires w > 0 && h > 0 && InBox(p, a0, b0) && Cross(a0, b0, p) == 0 && WellInside(p, w, h)
    requires var c := ClipSpec(a0, b0, w, h); c.ok ==> IsLine(c.a, c.b, dots)
    ensures ClipSpec(a0, b0, w, h).ok && q in dots && Abs(q.x - p.x) <= 7 && Abs(q.y - p.y) <= 7
    ensures if Abs(b0.x - a0.x) >= Abs(b0.y - a0.y) then q.x == p.x else q.y == p.y
  {
    var m, n := PointPasses(a0, b0, w, h, p);
    OneColumnInside(a0, b0, w, h, m, n);
    ClippedEnds(a0, b0, w, h);
    var c := ClipSpec(a0, b0, w, h);
    var dx, dy := b0.x - a0.x, b0.y - a0.y;
    hide ClipSpec, IsLine, PassesAt;
    if a0 == b0 {
      q := EveryColumn(c.a, c.b, dots, p.x);
      OnlyPoint(c.a, c.b, dots, q);
    } else if Abs(dx) >= Abs(dy) {
      SpansAcross(a0, b0, c.a, c.b, w, h, p);
      q := EveryColumn(c.a, c.b, dots, p.x);
      DotsNear(a0, b0, c.a, c.b, dots, q);
      CrossApart(a0, b0, p, q);
      RowsOff7(dx, dy, p.y - q.y);
    } else {
      SpansDown(a0, b0, c.a, c.b, w, h, p);
      q := EveryRow(c.a, c.b, dots, p.y);
      DotsNear(a0, b0, c.a, c.b, dots, q);
      CrossApart(a0, b0, p, q);
      RowsOff7(dy, dx, q.x - p.x);
    }
  }

  lemma OnlyPoint(a: Point, b: Point, dots: seq<Point>, q: Point)
    requires a == b && IsLine(a, b, dots) && q in dots
    ensures q == a
  {
  }

  lemma CrossApart(a0: Point, b0: Point, p: Point, q: Point)
    requires Cross(a0, b0, p) == 0
    ensures q.x == p.x ==> Cross(a0, b0, q) == (p.y - q.y) * (b0.x - a0.x)
    ensures q.y == p.y ==> Cross(a0, b0, q) == (q.x - p.x) * (b0.y - a0.y)
  {
    CrossShift(a0, b0, p, q);
  }
}
