/** Which segments the clip loop of programs/subprojects/doom/am_map.c rejects although some of them is in the frame. */
module AutomapReject {
  import opened Automap

  /** `m` times the coordinate that is `n / m` of the way from `p` to `q`. */
  function Along(p: int, q: int, m: int, n: int): int { (m - n) * p + n * q }

  /** The point `n / m` of the way from `a` to `b` is in one of the frame's rows and at least `c` columns away from its
      left and right edges. */
  predicate PassesAt(a: Point, b: Point, w: int, h: int, c: nat, m: int, n: int) {
    && 0 < m && 0 <= n <= m
    && c * m <= Along(a.x, b.x, m, n) <= (w - 1 - c) * m
    && 0 <= Along(a.y, b.y, m, n) < h * m
  }

  /** Some point of the segment is that far inside. */
  ghost predicate Passes(a: Point, b: Point, w: int, h: int, c: nat) {
    exists m, n :: PassesAt(a, b, w, h, c, m, n)
  }

  // ----- the crossing is never beyond a point further on -----

  /** A truncated fraction of `d` is between nothing and any larger fraction of it. */
  lemma QuotBefore(d: int, num: int, den: int, m: int, n: int)
    requires 0 < m && 0 <= n <= m && den != 0
    requires if den > 0 then 0 <= num && num * m <= n * den else num <= 0 && num * m >= n * den
    ensures Between(0, m * Quot(d * num, den), n * d)
  {
    hide Quot, Between, Abs;
    AbsParts(num, den, m, n);
    AbsOfProduct(d, num);
    FloorBefore(Abs(d), Abs(num), Abs(den), m, n);
    SignOfProduct(d, num);
    QuotIs(d * num, den);
    ShareOf(Abs(d * num), Abs(den));
    SignedBefore(d, num, den, m, n, Abs(d * num) / Abs(den), Quot(d * num, den));
  }

  lemma AbsParts(num: int, den: int, m: int, n: int)
    requires 0 < m && 0 <= n && den != 0
    requires if den > 0 then 0 <= num && num * m <= n * den else num <= 0 && num * m >= n * den
    ensures 0 < Abs(den) && Abs(num) * m <= n * Abs(den)
  {
    NegProduct(num, m);
    NegProduct(n, den);
  }

  lemma QuotIs(x: int, den: int)
    requires den != 0
    ensures Abs(den) > 0 && (x == 0 ==> Abs(x) == 0)
    ensures Quot(x, den) == if (x >= 0) == (den > 0) then Abs(x) / Abs(den) else -(Abs(x) / Abs(den))
  {
  }

  lemma ShareOf(x: nat, m: nat)
    requires m > 0
    ensures 0 <= x / m && (x == 0 ==> x / m == 0)
  {
  }

  lemma FloorBefore(d: nat, num: nat, den: nat, m: int, n: int)
    requires 0 < m && 0 <= n && 0 < den && num * m <= n * den
    ensures m * (d * num / den) <= n * d
  {
    var q := d * num / den;
    DivRem(d * num, den);
    FloorScaled(d, num, den, m, n, q);
  }

  lemma FloorScaled(d: nat, num: nat, den: nat, m: int, n: int, q: nat)
    requires 0 < m && 0 <= n && 0 < den && num * m <= n * den && den * q <= d * num
    ensures m * q <= n * d
  {
    Grow(den * q, d * num, m);
    Grow(num * m, n * den, d);
    Shuffle(den, q, m, d, num, n);
    Strictly(den, m * q, n * d);
  }

  lemma Shuffle(den: int, q: int, m: int, d: int, num: int, n: int)
    ensures den * q * m == den * (m * q) && d * num * m == num * m * d && n * den * d == den * (n * d)
  {
  }

  lemma Strictly(k: int, x: int, y: int)
    requires k > 0 && k * x <= k * y
    ensures x <= y
  {
    if x > y { Strict(k, x, y); }
  }

  lemma SignedBefore(d: int, num: int, den: int, m: int, n: int, q: int, v: int)
    requires 0 < m && 0 <= n && den != 0 && q >= 0 && (if den > 0 then num >= 0 else num <= 0)
    requires m * q <= n * Abs(d)
    requires v == if (d * num >= 0) == (den > 0) then q else -q
    requires d * num == 0 ==> q == 0
    requires d * num > 0 <==> (d > 0 && num > 0) || (d < 0 && num < 0)
    ensures Between(0, m * v, n * d)
  {
    NegProduct(m, q);
    NegProduct(n, Abs(d));
    assert m * q >= 0;
  }

  /** On the way from `p` to `q`: the value clipping computes is between `p` and any point beyond the crossing. */
  lemma ValueBefore(p: int, q: int, num: int, den: int, m: int, n: int)
    requires 0 < m && 0 <= n <= m && den != 0
    requires if den > 0 then 0 <= num && num * m <= n * den else num <= 0 && num * m >= n * den
    ensures Between(m * p, m * (p + Quot((q - p) * num, den)), Along(p, q, m, n))
  {
    QuotBefore(q - p, num, den, m, n);
    hide Quot;
    Spread(p, q, Quot((q - p) * num, den), m, n);
  }

  lemma Spread(p: int, q: int, v: int, m: int, n: int)
    ensures m * (p + v) == m * p + m * v && Along(p, q, m, n) == m * p + n * (q - p)
  {
  }

  /** A point in the frame's rows lies beyond the crossing with the row side that `a` is outside of. */
  lemma BeyondRow(a: Point, b: Point, h: int, m: int, n: int)
    requires 0 < m && 0 <= n <= m && 0 <= Along(a.y, b.y, m, n) < h * m
    ensures a.y < 0 ==> a.y * m >= n * (a.y - b.y)
    ensures a.y >= h ==> (a.y - h) * m < n * (a.y - b.y)
  {
    Spread(a.y, b.y, 0, m, n);
    NegProduct(n, a.y - b.y);
    assert (a.y - h) * m == m * a.y - h * m;
  }

  /** And one in the frame's columns beyond the crossing with the column side. */
  lemma BeyondColumn(a: Point, b: Point, w: int, m: int, n: int)
    requires 0 < m && 0 <= n <= m && 0 <= Along(a.x, b.x, m, n) <= (w - 1) * m
    ensures a.x < 0 ==> -a.x * m <= n * (b.x - a.x)
    ensures a.x >= w ==> (w - 1 - a.x) * m >= n * (b.x - a.x)
  {
    Spread(a.x, b.x, 0, m, n);
    NegProduct(m, a.x);
    assert (w - 1 - a.x) * m == (w - 1) * m - m * a.x;
  }

  /** Clipping `a` against a row side moves its column towards, never past, a point in the frame's rows. */
  lemma ColumnBefore(a: Point, b: Point, w: int, h: int, m: int, n: int)
    requires w > 0 && h > 0 && !CodeOf(a, w, h).Shares(CodeOf(b, w, h)) && (a.y < 0 || a.y >= h)
    requires 0 < m && 0 <= n <= m && 0 <= Along(a.y, b.y, m, n) < h * m
    ensures var p := Meet(a, b, CodeOf(a, w, h), w, h); Between(m * a.x, m * p.x, Along(a.x, b.x, m, n))
  {
    hide Along, Quot;
    BeyondRow(a, b, h, m, n);
    ValueBefore(a.x, b.x, if a.y < 0 then a.y else a.y - h, a.y - b.y, m, n);
  }

  /** Clipping `a` against a column side moves its row towards, never past, a point in the frame's columns. */
  lemma RowBefore(a: Point, b: Point, w: int, h: int, m: int, n: int)
    requires w > 0 && h > 0 && !CodeOf(a, w, h).Shares(CodeOf(b, w, h)) && 0 <= a.y < h && (a.x < 0 || a.x >= w)
    requires 0 < m && 0 <= n <= m && 0 <= Along(a.x, b.x, m, n) <= (w - 1) * m
    ensures var p := Meet(a, b, CodeOf(a, w, h), w, h); Between(m * a.y, m * p.y, Along(a.y, b.y, m, n))
  {
    hide Along, Quot;
    BeyondColumn(a, b, w, m, n);
    ValueBefore(a.y, b.y, if a.x < 0 then -a.x else w - 1 - a.x, b.x - a.x, m, n);
  }

  // ----- runs that accept -----

  /** A segment that starts inside is accepted. */
  lemma {:induction false} StartsInside(a: Point, b: Point, w: int, h: int)
    requires w > 0 && h > 0 && InFrame(a, w, h) && !CodeOf(a, w, h).Shares(CodeOf(b, w, h))
    ensures ClipFrom(a, b, w, h).ok
    decreases Violations(a, b, w, h)
  {
    if CodeOf(b, w, h).Any() {
      var p := Meet(a, b, CodeOf(b, w, h), w, h);
      MeetIs(a, b, CodeOf(b, w, h), w, h);
      ClipStep(a, b, p, CodeOf(b, w, h), w, h);
      StartsInside(a, p, w, h);
    }
  }

  /** One clip that brings the first endpoint inside. */
  lemma OneClip(a: Point, b: Point, w: int, h: int)
    requires w > 0 && h > 0 && !CodeOf(a, w, h).Shares(CodeOf(b, w, h)) && CodeOf(a, w, h).Any()
    requires InFrame(Meet(a, b, CodeOf(a, w, h), w, h), w, h)
    ensures ClipFrom(a, b, w, h).ok
  {
    var p := Meet(a, b, CodeOf(a, w, h), w, h);
    hide Meet;
    CodeIff(p, w, h);
    StartsInside(p, b, w, h);
    assert ClipFrom(a, b, w, h) == OneMore(p, b, w, h);
  }

  /** The column clip brings `a` inside if the segment has a point in the frame's columns, less than one row above the
      frame or in its rows. */
  lemma ColumnClipEnters(a: Point, b: Point, w: int, h: int, m: int, n: int)
    requires w > 0 && h > 0 && !CodeOf(a, w, h).Shares(CodeOf(b, w, h)) && 0 <= a.y < h && (a.x < 0 || a.x >= w)
    requires 0 < m && 0 <= n <= m && 0 <= Along(a.x, b.x, m, n) <= (w - 1) * m && -m < Along(a.y, b.y, m, n) < h * m
    ensures ClipFrom(a, b, w, h).ok
  {
    hide Along, Meet;
    var p := Meet(a, b, CodeOf(a, w, h), w, h);
    MeetIs(a, b, CodeOf(a, w, h), w, h);
    RowBefore(a, b, w, h, m, n);
    RowsBetween(a.y, p.y, Along(a.y, b.y, m, n), m, h);
    OneClip(a, b, w, h);
  }

  lemma RowsBetween(y: int, py: int, z: int, m: int, h: int)
    requires 0 < m && 0 <= y < h && -m < z < h * m && Between(m * y, m * py, z)
    ensures 0 <= py < h
  {
    MulOrder(y, 0, m);
    if py < 0 { MulOrder(-1, py, m); }
    if py >= h {
      MulOrder(py, h, m);
      Strict(m, h, y);
    }
  }

  /** The same when both ends of what is left are in the frame's rows. */
  lemma ColumnClipStays(a: Point, b: Point, w: int, h: int)
    requires w > 0 && h > 0 && !CodeOf(a, w, h).Shares(CodeOf(b, w, h)) && 0 <= a.y < h && (a.x < 0 || a.x >= w) && 0 <= b.y < h
    ensures ClipFrom(a, b, w, h).ok
  {
    hide Meet;
    MeetIs(a, b, CodeOf(a, w, h), w, h);
    OneClip(a, b, w, h);
  }

  /** Clipping `a` against a row side: both ends do not end up beyond one column side. */
  lemma RowClipKeeps(a: Point, b: Point, w: int, h: int, m: int, n: int)
    requires w > 0 && h > 0 && !CodeOf(a, w, h).Shares(CodeOf(b, w, h)) && (a.y < 0 || a.y >= h)
    requires PassesAt(a, b, w, h, 0, m, n)
    ensures var p := Meet(a, b, CodeOf(a, w, h), w, h);
            0 <= p.y < h && !CodeOf(p, w, h).Shares(CodeOf(b, w, h)) && ClipFrom(a, b, w, h) == OneMore(p, b, w, h)
  {
    hide Along, Meet;
    var p := Meet(a, b, CodeOf(a, w, h), w, h);
    MeetIs(a, b, CodeOf(a, w, h), w, h);
    ColumnBefore(a, b, w, h, m, n);
    if b.x < 0 {
      ColumnsBetween(a.x, p.x, Along(a.x, b.x, m, n), m, w);
    }
    if b.x >= w {
      ColumnsBetween(a.x, p.x, Along(a.x, b.x, m, n), m, w);
    }
  }

  lemma ColumnsBetween(x: int, px: int, z: int, m: int, w: int)
    requires 0 < m && 0 <= z <= (w - 1) * m && Between(m * x, m * px, z)
    ensures x >= 0 ==> px >= 0
    ensures x < w ==> px < w
  {
    if x >= 0 && px < 0 {
      MulOrder(x, 0, m);
      MulOrder(-1, px, m);
    }
    if x < w && px >= w {
      assert w * m == (w - 1) * m + m;
      MulOrder(w - 1, x, m);
      MulOrder(px, w, m);
    }
  }

  // ----- how far a row clip moves the segment -----

  /** The distance of `a`, in rows, from the crossing and from `b`: the crossing is `Rise / Height` of the way. */
  function Height(a: Point, b: Point): int { if a.y < 0 then b.y - a.y else a.y - b.y }

  function Rise(a: Point, h: int): int { if a.y < 0 then -a.y else a.y - h }

  /** The column of the crossing is off by at most one. */
  lemma CrossingColumn(a: Point, b: Point, w: int, h: int)
    requires w > 0 && h > 0 && !CodeOf(a, w, h).Shares(CodeOf(b, w, h)) && (a.y < 0 || a.y >= h)
    ensures var p := Meet(a, b, CodeOf(a, w, h), w, h);
            Abs(Height(a, b) * (p.x - a.x) - Rise(a, h) * (b.x - a.x)) <= Height(a, b)
  {
    var p := Meet(a, b, CodeOf(a, w, h), w, h);
    hide Meet;
    MeetIs(a, b, CodeOf(a, w, h), w, h);
    var (m, n) := Parts(a, b, CodeOf(a, w, h), w, h);
    NegProduct(Height(a, b), p.x - a.x);
    NegProduct(Rise(a, h), b.x - a.x);
  }

  /** A point `n / m` of the way, beyond the crossing `k / d` of the way, seen from a moved crossing at `px`. */
  lemma DriftColumn(ax: int, bx: int, px: int, d: int, k: int, m: int, n: int)
    requires 0 <= k < d && 0 < m && 0 <= n <= m && k * m <= n * d && Abs(d * (px - ax) - k * (bx - ax)) <= d
    ensures Abs(Along(px, bx, m * (d - k), n * d - k * m) - (d - k) * Along(ax, bx, m, n)) <= m * (d - k)
  {
    hide Along;
    DriftIdentity(ax, bx, px, d, k, m, n);
    ScaledError(d * (px - ax) - k * (bx - ax), d, k, m, n);
  }

  lemma ScaledError(e: int, d: int, k: int, m: int, n: int)
    requires 0 <= k < d && 0 < m && 0 <= n <= m && k * m <= n * d && Abs(e) <= d
    ensures Abs((m - n) * e) <= m * (d - k)
  {
    AbsOfProduct(m - n, e);
    Grow(Abs(e), d, m - n);
    Spread2(d, k, m, n);
  }

  lemma Spread2(d: int, k: int, m: int, n: int)
    ensures (m - n) * d == m * d - n * d && d * (m - n) == (m - n) * d && m * (d - k) == m * d - k * m
  {
  }

  lemma DriftIdentity(ax: int, bx: int, px: int, d: int, k: int, m: int, n: int)
    ensures Along(px, bx, m * (d - k), n * d - k * m) - (d - k) * Along(ax, bx, m, n) == (m - n) * (d * (px - ax) - k * (bx - ax))
  {
    var whole, part := m * (d - k), n * d - k * m;
    assert whole - part == (m - n) * d;
    assert (whole - part) * px == (m - n) * (d * px);
    LeftOver(ax, bx, d, k, m, n);
    assert (m - n) * (d * (px - ax) - k * (bx - ax)) == (m - n) * (d * px) - (m - n) * (d * ax + k * (bx - ax));
  }

  lemma LeftOver(ax: int, bx: int, d: int, k: int, m: int, n: int)
    ensures (n * d - k * m) * bx + (m - n) * (d * ax + k * (bx - ax)) == (d - k) * Along(ax, bx, m, n)
  {
    calc {
      (d - k) * Along(ax, bx, m, n);
      (d - k) * ((m - n) * ax + n * bx);
      (d - k) * ((m - n) * ax) + (d - k) * (n * bx);
    }
    assert (d - k) * ((m - n) * ax) == (m - n) * (d * ax) - (m - n) * (k * ax);
    assert (d - k) * (n * bx) == n * d * bx - n * k * bx;
    assert (m - n) * (d * ax + k * (bx - ax)) == (m - n) * (d * ax) + (m - n) * (k * bx) - (m - n) * (k * ax);
    assert (m - n) * (k * bx) == k * m * bx - n * k * bx;
    assert (n * d - k * m) * bx == n * d * bx - k * m * bx;
  }

  /** Where the point ends up, in rows, when the crossing is put into row `py`. */
  lemma DriftRow(a: Point, b: Point, h: int, m: int, n: int)
    requires h > 0 && 0 < m && 0 <= n <= m && 0 <= Along(a.y, b.y, m, n) < h * m
    requires (a.y < 0 && b.y >= h) || (a.y >= h && b.y < 0)
    ensures var d, k := Height(a, b), Rise(a, h);
            var whole, part := m * (d - k), n * d - k * m;
            0 <= k < d && 0 < whole && 0 <= part <= whole
            && -whole < Along(if a.y < 0 then 0 else h - 1, b.y, whole, part) < h * whole
  {
    hide Along;
    BeyondRow(a, b, h, m, n);
    BeyondCrossing(a, b, h, m, n);
    Fractions(Height(a, b), Rise(a, h), m, n);
    if a.y < 0 {
      DriftFromTop(a.y, b.y, h, m, n);
    } else {
      DriftFromBottom(a.y, b.y, h, m, n);
    }
  }

  lemma Fractions(d: int, k: int, m: int, n: int)
    requires 0 <= k < d && 0 < m && 0 <= n <= m && k * m <= n * d
    ensures 0 < m * (d - k) && 0 <= n * d - k * m <= m * (d - k)
  {
    Spread2(d, k, m, n);
    MulOrder2(m, n, d);
    Strict(m, d - k, 0);
  }

  lemma MulOrder2(m: int, n: int, d: int)
    requires n <= m && 0 <= d
    ensures n * d <= m * d
  {
  }

  lemma DriftFromTop(py: int, qy: int, h: int, m: int, n: int)
    requires py < 0 && qy >= h && 0 < m && 0 <= Along(py, qy, m, n) < h * m
    ensures var d, k := qy - py, -py;
            var whole, part := m * (d - k), n * d - k * m;
            0 <= Along(0, qy, whole, part) < h * whole
  {
    var part := n * (qy - py) - (-py) * m;
    assert part == Along(py, qy, m, n);
    Along0(qy, m * qy, part);
    assert part * qy >= 0;
    MulStrict(part, h * m, qy);
    assert h * m * qy == h * (m * qy);
    assert m * (qy - py - -py) == m * qy;
  }

  lemma Along0(q: int, m: int, n: int)
    ensures Along(0, q, m, n) == n * q
  {
  }

  lemma MulStrict(x: int, y: int, k: int)
    requires x < y && k > 0
    ensures x * k < y * k
  {
  }

  lemma DriftFromBottom(py: int, qy: int, h: int, m: int, n: int)
    requires py >= h > 0 > qy && 0 < m && 0 <= n <= m && 0 <= Along(py, qy, m, n) < h * m && (py - h) * m < n * (py - qy)
    ensures var d, k := py - qy, py - h;
            var whole, part := m * (d - k), n * d - k * m;
            -whole < Along(h - 1, qy, whole, part) < h * whole
  {
    hide Along;
    var d, k := py - qy, py - h;
    var whole, part := m * (d - k), n * d - k * m;
    var y := Along(py, qy, m, n);
    // seen from row h the point is where it was; row h - 1 is one row higher
    DriftIdentity(py, qy, h, d, k, m, n);
    OnTheLine(py, qy, h, m - n);
    OneRowUp(h, qy, whole, part);
    ScaleRange(d - k, y, h * m);
    Regrouped(d - k, h, m);
  }

  lemma OnTheLine(py: int, qy: int, h: int, f: int)
    ensures f * ((py - qy) * (h - py) - (py - h) * (qy - py)) == 0
  {
    assert (py - qy) * (h - py) == (py - h) * (qy - py);
  }

  lemma Regrouped(x: int, h: int, m: int)
    ensures x * (h * m) == h * (m * x)
  {
  }

  lemma OneRowUp(h: int, q: int, m: int, n: int)
    ensures Along(h - 1, q, m, n) == Along(h, q, m, n) - (m - n)
  {
  }

  lemma ScaleRange(k: int, y: int, top: int)
    requires k > 0 && 0 <= y < top
    ensures 0 <= k * y < k * top
  {
  }

  // ----- what is rejected -----

  /** A segment with a point in the frame is not beyond one side as a whole. */
  lemma NotBeyond(a: Point, b: Point, w: int, h: int, m: int, n: int)
    requires w > 0 && h > 0 && PassesAt(a, b, w, h, 0, m, n)
    ensures !CodeOf(a, w, h).Shares(CodeOf(b, w, h))
  {
    hide Along;
    MeanBelow(a.x, b.x, m, n);
    MeanBelow(a.y, b.y, m, n);
    MeanAtLeast(a.x, b.x, m, n, w);
    MeanAtLeast(a.y, b.y, m, n, h);
  }

  lemma MeanBelow(p: int, q: int, m: int, n: int)
    requires 0 < m && 0 <= n <= m
    ensures p < 0 && q < 0 ==> Along(p, q, m, n) < 0
  {
    if p < 0 && q < 0 {
      if n == 0 { assert m * p < 0; } else { assert n * q < 0 && (m - n) * p <= 0; }
    }
  }

  lemma Scaled(k: int, x: int, y: int)
    requires 0 <= k && y <= x
    ensures k * y <= k * x
  {
  }

  lemma MeanAtLeast(p: int, q: int, m: int, n: int, least: int)
    requires 0 < m && 0 <= n <= m
    ensures p >= least && q >= least ==> Along(p, q, m, n) >= least * m
  {
    if p >= least && q >= least {
      Scaled(m - n, p, least);
      Scaled(n, q, least);
      assert (m - n) * least + n * least == least * m;
    }
  }

  /** `a` lies beyond a corner of the frame, and `b` beyond the opposite row side. */
  predicate FromCorner(a: Point, b: Point, w: int, h: int) {
    (a.x < 0 || a.x >= w) && ((a.y < 0 && b.y >= h) || (a.y >= h && b.y < 0))
  }

  /** Rejection at once is exact: nothing in the segment's box is in the frame. */
  lemma RejectedAtOnce(a: Point, b: Point, w: int, h: int)
    requires w > 0 && h > 0 && !ClipSpec(a, b, w, h).ok && ClipSpec(a, b, w, h).passes == 0
    ensures forall p :: InBox(p, a, b) ==> !InFrame(p, w, h)
  {
    assert CodeOf(a, w, h).Shares(CodeOf(b, w, h));
    SharedMeansOutside(a, b, w, h);
  }

  /** A rejected segment with a point in the frame comes from beyond a corner, and its crossing with the row side was
      still beyond the column side. */
  lemma RejectedFromCorner(a: Point, b: Point, w: int, h: int, m: int, n: int)
    requires w > 0 && h > 0 && PassesAt(a, b, w, h, 0, m, n)
    ensures !CodeOf(a, w, h).Shares(CodeOf(b, w, h))
    ensures !ClipSpec(a, b, w, h).ok ==>
              && FromCorner(a, b, w, h)
              && var p := Meet(a, b, CodeOf(a, w, h), w, h);
                 !CodeOf(p, w, h).Shares(CodeOf(b, w, h)) && 0 <= p.y < h && ClipFrom(a, b, w, h) == OneMore(p, b, w, h)
                 && (if a.x < 0 then p.x < 0 else p.x >= w)
  {
    hide Along, Meet;
    NotBeyond(a, b, w, h, m, n);
    CodeIff(a, w, h);
    if InFrame(a, w, h) {
      StartsInside(a, b, w, h);
    } else if 0 <= a.y < h {
      ColumnClipEnters(a, b, w, h, m, n);
    } else {
      var p := Meet(a, b, CodeOf(a, w, h), w, h);
      RowClipKeeps(a, b, w, h, m, n);
      ColumnBefore(a, b, w, h, m, n);
      ColumnsBetween(a.x, p.x, Along(a.x, b.x, m, n), m, w);
      if InFrame(p, w, h) {
        OneClip(a, b, w, h);
      } else if 0 <= b.y < h {
        ColumnClipStays(p, b, w, h);
      }
    }
  }

  /** Never rejected: a segment with a point in the frame's rows and at least one column inside its edges. */
  lemma OneColumnInside(a: Point, b: Point, w: int, h: int, m: int, n: int)
    requires w > 0 && h > 0 && PassesAt(a, b, w, h, 1, m, n)
    ensures ClipSpec(a, b, w, h).ok
  {
    hide Along, Meet;
    assert PassesAt(a, b, w, h, 0, m, n) by { assert (w - 1 - 1) * m == (w - 1) * m - m; }
    RejectedFromCorner(a, b, w, h, m, n);
    if !ClipSpec(a, b, w, h).ok {
      hide ClipFrom, OneMore, CodeOf;
      var p := Meet(a, b, CodeOf(a, w, h), w, h);
      MovedPoint(a, b, w, h, m, n);
      var d, k := Height(a, b), Rise(a, h);
      ColumnClipEnters(p, b, w, h, m * (d - k), n * d - k * m);
      OneMoreIs(p, b, w, h);
    }
  }

  lemma OneMoreIs(a: Point, b: Point, w: int, h: int)
    requires w > 0 && h > 0 && !CodeOf(a, w, h).Shares(CodeOf(b, w, h))
    ensures OneMore(a, b, w, h).ok == ClipFrom(a, b, w, h).ok
  {
  }

  /** After the row clip of a corner segment the point has moved by at most one column, and up by less than one row. */
  lemma MovedPoint(a: Point, b: Point, w: int, h: int, m: int, n: int)
    requires w > 0 && h > 0 && !CodeOf(a, w, h).Shares(CodeOf(b, w, h)) && FromCorner(a, b, w, h) && PassesAt(a, b, w, h, 1, m, n)
    ensures var p, d, k := Meet(a, b, CodeOf(a, w, h), w, h), Height(a, b), Rise(a, h);
            var whole, part := m * (d - k), n * d - k * m;
            && 0 < whole && 0 <= part <= whole
            && 0 <= Along(p.x, b.x, whole, part) <= (w - 1) * whole && -whole < Along(p.y, b.y, whole, part) < h * whole
  {
    var p := Meet(a, b, CodeOf(a, w, h), w, h);
    MeetIs(a, b, CodeOf(a, w, h), w, h);
    CrossingColumn(a, b, w, h);
    assert p.y == if a.y < 0 then 0 else h - 1;
    hide Along, Meet, Height, Rise, Near, InBox;
    DriftRow(a, b, h, m, n);
    BeyondCrossing(a, b, h, m, n);
    var d, k := Height(a, b), Rise(a, h);
    DriftColumn(a.x, b.x, p.x, d, k, m, n);
    MarginLeft(Along(a.x, b.x, m, n), d - k, m, w);
  }

  lemma BeyondCrossing(a: Point, b: Point, h: int, m: int, n: int)
    requires 0 < m && 0 <= n <= m && 0 <= Along(a.y, b.y, m, n) < h * m && (a.y < 0 || a.y >= h)
    ensures Rise(a, h) * m <= n * Height(a, b)
  {
    BeyondRow(a, b, h, m, n);
    NegProduct(n, a.y - b.y);
    NegProduct(a.y, m);
  }

  lemma MarginLeft(x: int, f: int, m: int, w: int)
    requires 1 * m <= x <= (w - 1 - 1) * m && 0 < f
    ensures m * f <= f * x <= (w - 1) * (m * f) - m * f
  {
    assert f * x >= f * (1 * m) && f * x <= f * ((w - 1 - 1) * m);
    assert f * ((w - 1 - 1) * m) == (w - 1) * (m * f) - m * f;
  }

  // ----- exactly which rejected segments show -----

  /** The segment meets the frame's first or last column, whichever `a` lies beyond, in one of the frame's rows. */
  predicate EntersBySide(a: Point, b: Point, w: int, h: int) {
    (a.x < 0 || a.x >= w) && PassesAt(a, b, w, h, 0, Abs(b.x - a.x), Abs((if a.x < 0 then 0 else w - 1) - a.x))
  }

  lemma AbsQuot(x: int, den: int)
    requires den != 0
    ensures Abs(Quot(x, den)) == Abs(x) / Abs(den)
  {
  }

  /** If the row crossing is computed beyond the column side, the true one is beyond it too. */
  lemma TrulyBeyond(a: Point, b: Point, w: int, h: int)
    requires w > 0 && h > 0 && !CodeOf(a, w, h).Shares(CodeOf(b, w, h)) && FromCorner(a, b, w, h)
    requires var p := Meet(a, b, CodeOf(a, w, h), w, h); if a.x < 0 then p.x < 0 else p.x >= w
    ensures Abs(b.x - a.x) * Rise(a, h) < Abs((if a.x < 0 then 0 else w - 1) - a.x) * Height(a, b)
  {
    var p := Meet(a, b, CodeOf(a, w, h), w, h);
    var num, den := if a.y < 0 then a.y else a.y - h, a.y - b.y;
    assert p.x == a.x + Quot((b.x - a.x) * num, den);
    MeetIs(a, b, CodeOf(a, w, h), w, h);
    hide Meet, Near, Quot;
    AbsQuot((b.x - a.x) * num, den);
    AbsOfProduct(b.x - a.x, num);
    assert Abs(num) == Rise(a, h) && Abs(den) == Height(a, b);
    FloorBelow(Abs(b.x - a.x) * Rise(a, h), Height(a, b), Abs((if a.x < 0 then 0 else w - 1) - a.x));
  }

  lemma FloorBelow(x: nat, d: nat, k: nat)
    requires d > 0 && x / d < k
    ensures x < k * d
  {
    DivRem(x, d);
    Scaled(d, k - 1, x / d);
    assert d * (k - 1) == k * d - d;
  }

  /** The row in which the segment crosses the column side, between the row side and the point. */
  lemma SideRow(a: Point, b: Point, h: int, m: int, n: int, whole: int, part: int)
    requires h > 0 && 0 < m && 0 <= n <= m && 0 < whole && 0 <= Along(a.y, b.y, m, n) < h * m
    requires (a.y < 0 && b.y >= h) || (a.y >= h && b.y < 0)
    requires whole * Rise(a, h) < part * Height(a, b) && part * m <= n * whole
    ensures 0 <= Along(a.y, b.y, whole, part) < h * whole
  {
    Spread(a.y, b.y, 0, m, n);
    Spread(a.y, b.y, 0, whole, part);
    RowOrder(a.y, b.y, m, n, whole, part);
    hide Along;
    var y, z := Along(a.y, b.y, m, n), Along(a.y, b.y, whole, part);
    if a.y < 0 {
      SideFromTop(a.y, b.y, h, m, whole, part, y, z);
    } else {
      SideFromBottom(a.y, b.y, h, m, whole, part, y, z);
    }
  }

  lemma SideFromTop(p: int, q: int, h: int, m: int, whole: int, part: int, y: int, z: int)
    requires 0 < m && 0 < whole && 0 <= y < h * m && m * z <= whole * y
    requires whole * -p < part * (q - p) && z == whole * p + part * (q - p)
    ensures 0 <= z < h * whole
  {
    NegProduct(whole, p);
    ScaleRange(whole, y, h * m);
    Regrouped(whole, h, m);
    Regrouped(m, h, whole);
    if z >= h * whole { Scaled(m, z, h * whole); }
    assert whole * (h * m) == m * (h * whole);
  }

  lemma SideFromBottom(p: int, q: int, h: int, m: int, whole: int, part: int, y: int, z: int)
    requires 0 < m && 0 < whole && 0 <= y && m * z >= whole * y
    requires whole * (p - h) < part * (p - q) && z == whole * p + part * (q - p)
    ensures 0 <= z < h * whole
  {
    NegProduct(part, p - q);
    assert whole * (p - h) == whole * p - h * whole;
    Scaled(whole, y, 0);
    if z < 0 { Strict(m, 0, z); }
  }

  /** A point further on is further in the direction of the segment. */
  lemma RowOrder(p: int, q: int, m: int, n: int, whole: int, part: int)
    requires 0 < m && 0 < whole && part * m <= n * whole
    ensures q >= p ==> m * Along(p, q, whole, part) <= whole * Along(p, q, m, n)
    ensures q <= p ==> m * Along(p, q, whole, part) >= whole * Along(p, q, m, n)
  {
    var d := q - p;
    assert Along(p, q, whole, part) == whole * p + part * d && Along(p, q, m, n) == m * p + n * d;
    assert m * (whole * p + part * d) == m * whole * p + part * m * d;
    assert whole * (m * p + n * d) == m * whole * p + n * whole * d;
    SignedScale(part * m, n * whole, d);
  }

  lemma SignedScale(x: int, y: int, d: int)
    requires x <= y
    ensures d >= 0 ==> x * d <= y * d
    ensures d <= 0 ==> x * d >= y * d
  {
  }

  /** The column side is crossed exactly at its column. */
  lemma SideColumn(a: Point, b: Point, w: int, h: int)
    requires w > 0 && h > 0 && !CodeOf(a, w, h).Shares(CodeOf(b, w, h)) && (a.x < 0 || a.x >= w)
    ensures var side := if a.x < 0 then 0 else w - 1;
            var whole, part := Abs(b.x - a.x), Abs(side - a.x);
            0 < whole && 0 <= part <= whole && 0 <= Along(a.x, b.x, whole, part) <= (w - 1) * whole
  {
    var side := if a.x < 0 then 0 else w - 1;
    var whole, part := Abs(b.x - a.x), Abs(side - a.x);
    Spread(a.x, b.x, 0, whole, part);
    CrossAt(a.x, b.x, side);
    assert whole * side >= 0;
  }

  lemma CrossAt(p: int, q: int, side: int)
    requires (p < side <= q) || (q <= side < p)
    ensures Abs(q - p) * p + Abs(side - p) * (q - p) == Abs(q - p) * side
  {
    if p < side {
      assert (q - p) * p + (side - p) * (q - p) == (q - p) * side;
    } else {
      assert (p - q) * p + (p - side) * (q - p) == (p - q) * side;
    }
  }

  /** A rejected segment has a point in the frame if and only if it enters the frame through the column side that its
      first endpoint lies beyond. */
  lemma RejectedShows(a: Point, b: Point, w: int, h: int)
    requires w > 0 && h > 0 && !ClipSpec(a, b, w, h).ok
    ensures Passes(a, b, w, h, 0) <==> EntersBySide(a, b, w, h)
    ensures Passes(a, b, w, h, 0) ==> FromCorner(a, b, w, h)
  {
    if Passes(a, b, w, h, 0) {
      var m, n :| PassesAt(a, b, w, h, 0, m, n);
      RejectedFromCorner(a, b, w, h, m, n);
      ShowsBySide(a, b, w, h, m, n);
    }
  }

  lemma ShowsBySide(a: Point, b: Point, w: int, h: int, m: int, n: int)
    requires w > 0 && h > 0 && PassesAt(a, b, w, h, 0, m, n) && !CodeOf(a, w, h).Shares(CodeOf(b, w, h)) && FromCorner(a, b, w, h)
    requires var p := Meet(a, b, CodeOf(a, w, h), w, h); if a.x < 0 then p.x < 0 else p.x >= w
    ensures EntersBySide(a, b, w, h)
  {
    var whole, part := Abs(b.x - a.x), Abs((if a.x < 0 then 0 else w - 1) - a.x);
    TrulyBeyond(a, b, w, h);
    SideColumn(a, b, w, h);
    BeyondColumn(a, b, w, m, n);
    NegProduct(n, b.x - a.x);
    NegProduct(w - 1 - a.x, m);
    hide Along, Meet;
    SideRow(a, b, h, m, n, whole, part);
  }

  /** The two clips that lose a segment: `a` crosses its row side still beyond its column side, and the crossing with
      that one is then computed beyond the row side that `b` lies beyond. */
  predicate ClipsPast(a: Point, b: Point, w: int, h: int)
    requires w > 0 && h > 0
  {
    && !CodeOf(a, w, h).Shares(CodeOf(b, w, h)) && FromCorner(a, b, w, h)
    && var p := Meet(a, b, CodeOf(a, w, h), w, h);
       && (if a.x < 0 then p.x < 0 else p.x >= w) && !CodeOf(p, w, h).Shares(CodeOf(b, w, h))
       && var q := Meet(p, b, CodeOf(p, w, h), w, h);
          if b.y < 0 then q.y < 0 else q.y >= h
  }

  /** Exactly the segments that are rejected although they show: those that enter the frame through a column side and
      are clipped past it. */
  lemma LostIff(a: Point, b: Point, w: int, h: int)
    requires w > 0 && h > 0
    ensures Passes(a, b, w, h, 0) && !ClipSpec(a, b, w, h).ok <==> EntersBySide(a, b, w, h) && ClipsPast(a, b, w, h)
  {
    hide PassesAt, Meet;
    if Passes(a, b, w, h, 0) && !ClipSpec(a, b, w, h).ok {
      var m, n :| PassesAt(a, b, w, h, 0, m, n);
      RejectedShows(a, b, w, h);
      RejectedFromCorner(a, b, w, h, m, n);
      var p := Meet(a, b, CodeOf(a, w, h), w, h);
      ColumnClipEnds(p, b, w, h);
    }
    if EntersBySide(a, b, w, h) && ClipsPast(a, b, w, h) {
      var p := Meet(a, b, CodeOf(a, w, h), w, h);
      MeetIs(a, b, CodeOf(a, w, h), w, h);
      ColumnClipEnds(p, b, w, h);
    }
  }

  /** With `a` beyond a column side only and `b` beyond a row side, the clip of `a` decides. */
  lemma ColumnClipEnds(a: Point, b: Point, w: int, h: int)
    requires w > 0 && h > 0 && !CodeOf(a, w, h).Shares(CodeOf(b, w, h)) && 0 <= a.y < h && (a.x < 0 || a.x >= w) && (b.y < 0 || b.y >= h)
    ensures var q := Meet(a, b, CodeOf(a, w, h), w, h);
            OneMore(a, b, w, h).ok <==> !(if b.y < 0 then q.y < 0 else q.y >= h)
  {
    hide Meet;
    var q := Meet(a, b, CodeOf(a, w, h), w, h);
    MeetIs(a, b, CodeOf(a, w, h), w, h);
    if InFrame(q, w, h) {
      OneClip(a, b, w, h);
    } else {
      assert !OneMore(q, b, w, h).ok;
      assert ClipFrom(a, b, w, h) == OneMore(q, b, w, h);
    }
  }

  // ----- the failing case -----

  /** From (-1, -7) to (1, 15) in a frame of 8 by 6: the segment goes through the pixel (0, 4) and is rejected. */
  lemma ThinSegmentIsLost()
    ensures !ClipSpec(Point(-1, -7), Point(1, 15), 8, 6).ok
    ensures InFrame(Point(0, 4), 8, 6) && Cross(Point(-1, -7), Point(1, 15), Point(0, 4)) == 0
    ensures PassesAt(Point(-1, -7), Point(1, 15), 8, 6, 0, 2, 1)
  {
    var a, b := Point(-1, -7), Point(1, 15);
    assert Meet(a, b, CodeOf(a, 8, 6), 8, 6) == Point(-1, 0);
    assert Meet(Point(-1, 0), b, CodeOf(Point(-1, 0), 8, 6), 8, 6) == Point(0, 7);
    assert OneMore(Point(0, 7), b, 8, 6) == Clipped(false, Point(0, 7), b, 1);
    assert ClipFrom(Point(-1, 0), b, 8, 6) == OneMore(Point(0, 7), b, 8, 6);
    assert OneMore(Point(-1, 0), b, 8, 6) == Clipped(false, Point(0, 7), b, 2);
  }
}
