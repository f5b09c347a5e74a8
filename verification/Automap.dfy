/** The automap's line clipping and line drawing in programs/subprojects/doom/am_map.c, over exact integers. */
module Automap {

  datatype Point = Point(x: int, y: int)

  function Abs(x: int): nat { if x < 0 then -x else x }

  /** C's integer division, which truncates toward zero. */
  function Quot(a: int, b: int): int
    requires b != 0
  {
    if (a >= 0) == (b > 0) then Abs(a) / Abs(b) else -(Abs(a) / Abs(b))
  }

  predicate Between(p: int, x: int, q: int) { p <= x <= q || q <= x <= p }

  /** A fraction of `d` that is between none and all of it. */
  lemma QuotBetween(d: int, num: int, den: int)
    requires den != 0 && (0 <= num <= den || den <= num <= 0)
    ensures Between(0, Quot(d * num, den), d)
  {
    AbsOfProduct(d, num);
    QuotBound(Abs(d), Abs(num), Abs(den));
    SignOfProduct(d, num);
    QuotSigned(d * num, den, d);
  }

  lemma SignOfProduct(x: int, y: int)
    ensures x * y == 0 <==> x == 0 || y == 0
    ensures x * y > 0 <==> (x > 0 && y > 0) || (x < 0 && y < 0)
  {
  }

  lemma QuotSigned(x: int, den: int, d: int)
    requires den != 0 && Abs(x) / Abs(den) <= Abs(d)
    requires x == 0 || (d != 0 && ((x > 0) == ((den > 0) == (d > 0))))
    ensures Between(0, Quot(x, den), d)
  {
    if x == 0 { ZeroQuot(Abs(den)); }
    SignedBetween(x, den, d, Abs(x) / Abs(den), Quot(x, den));
  }

  lemma ZeroQuot(m: nat)
    requires m > 0
    ensures 0 / m == 0
  {
  }

  lemma SignedBetween(x: int, den: int, d: int, q: nat, v: int)
    requires den != 0 && q <= Abs(d) && (x == 0 ==> q == 0)
    requires v == if (x >= 0) == (den > 0) then q as int else -(q as int)
    requires x == 0 || (d != 0 && ((x > 0) == ((den > 0) == (d > 0))))
    ensures Between(0, v, d)
  {
  }

  /** Truncation loses less than one divisor. */
  lemma QuotError(x: int, m: int)
    requires m != 0
    ensures Abs(m * Quot(x, m) - x) <= Abs(m)
  {
    var q := Abs(x) / Abs(m);
    DivRem(Abs(x), Abs(m));
    if m > 0 {
      NegProduct(m, q);
    } else {
      NegProduct(-m, q);
    }
  }

  lemma DivRem(x: nat, m: nat)
    requires m > 0
    ensures x - m < m * (x / m) <= x
  {
  }

  lemma NegProduct(x: int, y: int)
    ensures -x * y == -(x * y) && x * -y == -(x * y) && -x * -y == x * y
  {
  }

  /** The coordinate `num / den` of the way from `p` to `q`, as the clip code computes it. */
  lemma OnTheWay(p: int, q: int, num: int, den: int)
    requires den != 0 && (0 <= num <= den || den <= num <= 0)
    ensures var v := p + Quot((q - p) * num, den);
            Between(p, v, q) && Abs(den * (v - p) - num * (q - p)) <= Abs(den)
  {
    QuotBetween(q - p, num, den);
    QuotError((q - p) * num, den);
    assert (q - p) * num == num * (q - p);
  }

  lemma AbsOfProduct(x: int, y: int)
    ensures Abs(x * y) == Abs(x) * Abs(y)
  {
    if x >= 0 && y >= 0 {
      assert x * y >= 0;
    } else if x < 0 && y < 0 {
      assert x * y == -x * -y && -x * -y > 0;
    } else if x < 0 {
      assert x * y == -(-x * y) && -x * y >= 0;
    } else {
      assert x * y == -(x * -y) && x * -y >= 0;
    }
  }

  lemma QuotBound(d: nat, n: nat, m: nat)
    requires 0 < m && n <= m
    ensures d * n / m <= d
  {
    assert d * n <= d * m;
    DivBound(d * n, d, m);
  }

  lemma DivBound(x: nat, d: nat, m: nat)
    requires 0 < m && x <= d * m
    ensures x / m <= d
  {
    var q := x / m;
    assert q * m <= x;
    MulOrder(q, d + 1, m);
  }

  lemma MulOrder(x: int, y: int, m: nat)
    requires 0 < m
    ensures x >= y ==> x * m >= y * m
  {
  }

  // ----- outcodes -----

  /** DOOUTCODE: which sides of the frame a point lies outside of. */
  datatype Outcode = Outcode(left: bool, right: bool, bottom: bool, top: bool) {
    predicate Any() { left || right || bottom || top }
    predicate Shares(o: Outcode) { (left && o.left) || (right && o.right) || (bottom && o.bottom) || (top && o.top) }
  }

  function CodeOf(p: Point, w: int, h: int): Outcode {
    Outcode(p.x < 0, p.x >= 0 && p.x >= w, p.y >= 0 && p.y >= h, p.y < 0)
  }

  predicate InFrame(p: Point, w: int, h: int) { 0 <= p.x < w && 0 <= p.y < h }

  lemma CodeIff(p: Point, w: int, h: int)
    requires w > 0 && h > 0
    ensures !CodeOf(p, w, h).Any() <==> InFrame(p, w, h)
  {
  }

  predicate InBox(p: Point, a: Point, b: Point) { Between(a.x, p.x, b.x) && Between(a.y, p.y, b.y) }

  /** How many of the four sides one of the endpoints lies outside of. */
  function Violations(a: Point, b: Point, w: int, h: int): nat {
    (if a.y < 0 || b.y < 0 then 1 else 0) + (if a.y >= h || b.y >= h then 1 else 0)
    + (if a.x < 0 || b.x < 0 then 1 else 0) + (if a.x >= w || b.x >= w then 1 else 0)
  }

  function Length(a: Point, b: Point): nat { Abs(b.x - a.x) + Abs(b.y - a.y) }

  /** The point `p` is within `ex` columns and `ey` rows of the point `n / m` of the way from `a` to `b`. */
  ghost predicate Near(a: Point, b: Point, p: Point, m: int, n: int, ex: nat, ey: nat) {
    && m != 0 && (0 <= n <= m || m <= n <= 0)
    && Abs(m * (p.x - a.x) - n * (b.x - a.x)) <= ex * Abs(m)
    && Abs(m * (p.y - a.y) - n * (b.y - a.y)) <= ey * Abs(m)
  }

  // How far a clip point may be off the line: one column for the horizontal sides, one row for the vertical ones, and
  // one more row at the bottom, where the code puts the column of row `h` into row `h - 1`.
  function ColumnsOff(outside: Outcode): nat { if outside.top || outside.bottom then 1 else 0 }
  function RowsOff(outside: Outcode): nat { if outside.top then 0 else 1 }

  lemma NearAcross(a: Point, b: Point, p: Point, m: int, n: int, off: nat)
    requires m == a.y - b.y && m != 0 && (0 <= n <= m || m <= n <= 0) && p.y == a.y - n - off && off <= 1
    requires Abs(m * (p.x - a.x) - n * (b.x - a.x)) <= Abs(m)
    ensures Near(a, b, p, m, n, 1, off)
  {
    AcrossRows(m, n, off);
  }

  lemma AcrossRows(m: int, n: int, off: nat)
    requires off <= 1
    ensures m * (-n - off) - n * -m == -(m * off) && Abs(-(m * off)) <= off * Abs(m)
  {
  }

  lemma NearAlong(a: Point, b: Point, p: Point, m: int, n: int)
    requires m == b.x - a.x && m != 0 && (0 <= n <= m || m <= n <= 0) && p.x == a.x + n
    requires Abs(m * (p.y - a.y) - n * (b.y - a.y)) <= Abs(m)
    ensures Near(a, b, p, m, n, 0, 1)
  {
    assert m * (p.x - a.x) - n * (b.x - a.x) == 0;
  }

  /** Where the clip code puts the crossing of the line with the side named by the outcode `outside`. */
  function Meet(a: Point, b: Point, outside: Outcode, w: int, h: int): (p: Point)
    requires w > 0 && h > 0 && !CodeOf(a, w, h).Shares(CodeOf(b, w, h)) && outside.Any()
    requires outside == CodeOf(a, w, h) || outside == CodeOf(b, w, h)
  {
    if outside.top then Point(a.x + Quot((b.x - a.x) * a.y, a.y - b.y), 0)
    else if outside.bottom then Point(a.x + Quot((b.x - a.x) * (a.y - h), a.y - b.y), h - 1)
    else if outside.right then Point(w - 1, a.y + Quot((b.y - a.y) * (w - 1 - a.x), b.x - a.x))
    else Point(0, a.y + Quot((b.y - a.y) * -a.x, b.x - a.x))
  }

  /** The fraction of the way from `a` to `b` at which the crossing is looked for. */
  function Parts(a: Point, b: Point, outside: Outcode, w: int, h: int): (int, int) {
    if outside.top then (a.y - b.y, a.y)
    else if outside.bottom then (a.y - b.y, a.y - h)
    else if outside.right then (b.x - a.x, w - 1 - a.x)
    else (b.x - a.x, -a.x)
  }

  /** The crossing is on the violated side, inside the segment's box, and close to the line. */
  lemma MeetIs(a: Point, b: Point, outside: Outcode, w: int, h: int)
    requires w > 0 && h > 0 && !CodeOf(a, w, h).Shares(CodeOf(b, w, h)) && outside.Any()
    requires outside == CodeOf(a, w, h) || outside == CodeOf(b, w, h)
    ensures var p := Meet(a, b, outside, w, h);
            && InBox(p, a, b)
            && (if outside.top then p.y == 0 else if outside.bottom then p.y == h - 1 else if outside.right then p.x == w - 1 else p.x == 0)
            && var (m, n) := Parts(a, b, outside, w, h);
               Near(a, b, p, m, n, ColumnsOff(outside), RowsOff(outside))
  {
    hide Quot, Near;
    var p := Meet(a, b, outside, w, h);
    var (m, n) := Parts(a, b, outside, w, h);
    if outside.top {
      OnTheWay(a.x, b.x, a.y, a.y - b.y);
      NearAcross(a, b, p, m, n, 0);
    } else if outside.bottom {
      OnTheWay(a.x, b.x, a.y - h, a.y - b.y);
      NearAcross(a, b, p, m, n, 1);
    } else if outside.right {
      OnTheWay(a.y, b.y, w - 1 - a.x, b.x - a.x);
      NearAlong(a, b, p, m, n);
    } else {
      OnTheWay(a.y, b.y, -a.x, b.x - a.x);
      NearAlong(a, b, p, m, n);
    }
  }

  /** The point where the line meets the side named by the outcode `outside`. */
  method ClipPoint(a: Point, b: Point, outside: Outcode, w: int, h: int) returns (p: Point)
    requires w > 0 && h > 0 && !CodeOf(a, w, h).Shares(CodeOf(b, w, h)) && outside.Any()
    requires outside == CodeOf(a, w, h) || outside == CodeOf(b, w, h)
    ensures p == Meet(a, b, outside, w, h) && InBox(p, a, b)
    ensures if outside.top then p.y == 0 else if outside.bottom then p.y == h - 1 else if outside.right then p.x == w - 1 else p.x == 0
    ensures var (m, n) := Parts(a, b, outside, w, h); Near(a, b, p, m, n, ColumnsOff(outside), RowsOff(outside))
  {
    MeetIs(a, b, outside, w, h);
    hide Quot, Near, Parts, InBox;
    if outside.top {
      var dy := a.y - b.y;
      var dx := b.x - a.x;
      p := Point(a.x + Quot(dx * a.y, dy), 0);
    } else if outside.bottom {
      var dy := a.y - b.y;
      var dx := b.x - a.x;
      p := Point(a.x + Quot(dx * (a.y - h), dy), h - 1);
    } else if outside.right {
      var dy := b.y - a.y;
      var dx := b.x - a.x;
      p := Point(w - 1, a.y + Quot(dy * (w - 1 - a.x), dx));
    } else {
      var dy := b.y - a.y;
      var dx := b.x - a.x;
      p := Point(0, a.y + Quot(dy * -a.x, dx));
    }
  }

  /** Moving one endpoint to its clip point: one side less is violated, the segment is shorter and inside its old box. */
  lemma ClipStep(a: Point, b: Point, p: Point, outside: Outcode, w: int, h: int)
    requires w > 0 && h > 0 && !CodeOf(a, w, h).Shares(CodeOf(b, w, h)) && outside.Any() && InBox(p, a, b)
    requires if outside.top then p.y == 0 else if outside.bottom then p.y == h - 1 else if outside.right then p.x == w - 1 else p.x == 0
    ensures outside == CodeOf(a, w, h) ==> Violations(p, b, w, h) < Violations(a, b, w, h) && Length(p, b) < Length(a, b)
    ensures outside == CodeOf(b, w, h) ==> Violations(a, p, w, h) < Violations(a, b, w, h) && Length(a, p) < Length(a, b)
  {
  }

  /** Boxes nest. */
  lemma BoxInBox(a: Point, b: Point, a0: Point, b0: Point, p: Point)
    requires InBox(a, a0, b0) && InBox(b, a0, b0) && InBox(p, a, b)
    ensures InBox(p, a0, b0)
  {
  }

  /** A side shared by both endpoints keeps the whole box out of the frame. */
  lemma SharedMeansOutside(a: Point, b: Point, w: int, h: int)
    requires w > 0 && h > 0 && CodeOf(a, w, h).Shares(CodeOf(b, w, h))
    ensures forall p :: InBox(p, a, b) ==> !InFrame(p, w, h)
  {
  }

  // ----- how far clipping strays from the line -----

  /** Zero on the line through `a0` and `b0`; its size is the distance from that line times the length of `b0 - a0`. */
  function Cross(a0: Point, b0: Point, p: Point): int { (p.x - a0.x) * (b0.y - a0.y) - (p.y - a0.y) * (b0.x - a0.x) }

  /** The distance clipping may be off the line by, all sides together. */
  predicate CloseTo(a0: Point, b0: Point, p: Point) {
    Abs(Cross(a0, b0, p)) <= 3 * Abs(b0.x - a0.x) + 2 * Abs(b0.y - a0.y)
  }

  /** A weighted mean of two small numbers, off by a little, is small. */
  lemma MeanBound(m: int, n: int, ca: int, cb: int, cp: int, bound: nat, slack: nat)
    requires m != 0 && (0 <= n <= m || m <= n <= 0) && Abs(ca) <= bound && Abs(cb) <= bound
    requires Abs(m * cp - ((m - n) * ca + n * cb)) <= slack * Abs(m)
    ensures Abs(cp) <= bound + slack
  {
    if m < 0 {
      NegProduct(m, cp);
      NegProduct(m - n, ca);
      NegProduct(n, cb);
      MeanBoundPositive(-m, -n, ca, cb, cp, bound, slack);
    } else {
      MeanBoundPositive(m, n, ca, cb, cp, bound, slack);
    }
  }

  lemma MeanBoundPositive(m: int, n: int, ca: int, cb: int, cp: int, bound: nat, slack: nat)
    requires m > 0 && 0 <= n <= m && Abs(ca) <= bound && Abs(cb) <= bound
    requires Abs(m * cp - ((m - n) * ca + n * cb)) <= slack * m
    ensures Abs(cp) <= bound + slack
  {
    Scale(m - n, ca, bound);
    Scale(n, cb, bound);
    assert (m - n) * bound + n * bound == m * bound;
    assert m * bound + slack * m == m * (bound + slack);
    assert -(m * (bound + slack)) <= m * cp <= m * (bound + slack);
    Unscale(m, cp, bound + slack);
  }

  lemma Scale(k: nat, c: int, bound: nat)
    requires Abs(c) <= bound
    ensures -(k * bound) <= k * c <= k * bound
  {
  }

  lemma Unscale(m: int, c: int, bound: nat)
    requires m > 0 && -(m * bound) <= m * c <= m * bound
    ensures Abs(c) <= bound
  {
    if c > bound { Strict(m, c, bound); }
    if -c > bound { NegProduct(m, c); Strict(m, -c, bound); }
  }

  lemma Strict(m: int, x: int, y: int)
    requires m > 0 && x > y
    ensures m * x > m * y
  {
  }

  /** A clip point strays at most as far as the worse endpoint, plus its own rounding. */
  lemma NearCross(a0: Point, b0: Point, a: Point, b: Point, p: Point, m: int, n: int, ex: nat, ey: nat, bound: nat)
    requires Near(a, b, p, m, n, ex, ey) && Abs(Cross(a0, b0, a)) <= bound && Abs(Cross(a0, b0, b)) <= bound
    ensures Abs(Cross(a0, b0, p)) <= bound + ex * Abs(b0.y - a0.y) + ey * Abs(b0.x - a0.x)
  {
    CrossIdentity(a0, b0, a, b, p, m, n);
    hide Cross;
    Combine(m, n, Cross(a0, b0, a), Cross(a0, b0, b), Cross(a0, b0, p),
            m * (p.x - a.x) - n * (b.x - a.x), m * (p.y - a.y) - n * (b.y - a.y), b0.x - a0.x, b0.y - a0.y, ex, ey, bound);
  }

  lemma Combine(m: int, n: int, ca: int, cb: int, cp: int, e: int, f: int, dx: int, dy: int, ex: nat, ey: nat, bound: nat)
    requires m != 0 && (0 <= n <= m || m <= n <= 0) && Abs(ca) <= bound && Abs(cb) <= bound
    requires m * cp - ((m - n) * ca + n * cb) == e * dy - f * dx
    requires Abs(e) <= ex * Abs(m) && Abs(f) <= ey * Abs(m)
    ensures Abs(cp) <= bound + ex * Abs(dy) + ey * Abs(dx)
  {
    SlackBound(e, f, dx, dy, ex, ey, Abs(m));
    MeanBound(m, n, ca, cb, cp, bound, ex * Abs(dy) + ey * Abs(dx));
  }

  lemma SlackBound(e: int, f: int, dx: int, dy: int, ex: nat, ey: nat, m: nat)
    requires Abs(e) <= ex * m && Abs(f) <= ey * m
    ensures Abs(e * dy - f * dx) <= (ex * Abs(dy) + ey * Abs(dx)) * m
  {
    AbsOfProduct(e, dy);
    AbsOfProduct(f, dx);
    Grow(Abs(e), ex * m, Abs(dy));
    Grow(Abs(f), ey * m, Abs(dx));
    Regroup(ex, ey, m, Abs(dy), Abs(dx));
  }

  lemma Regroup(x: nat, y: nat, m: nat, u: nat, v: nat)
    ensures x * m * u + y * m * v == (x * u + y * v) * m
  {
  }

  lemma Grow(x: nat, y: nat, k: nat)
    requires x <= y
    ensures x * k <= y * k
  {
  }

  lemma CrossIdentity(a0: Point, b0: Point, a: Point, b: Point, p: Point, m: int, n: int)
    ensures m * Cross(a0, b0, p) - ((m - n) * Cross(a0, b0, a) + n * Cross(a0, b0, b)) ==
            (m * (p.x - a.x) - n * (b.x - a.x)) * (b0.y - a0.y) - (m * (p.y - a.y) - n * (b.y - a.y)) * (b0.x - a0.x)
  {
    hide Cross;
    CrossShift(a0, b0, a, p);
    CrossShift(a0, b0, a, b);
    Collect(Cross(a0, b0, a), m, n, p.x - a.x, p.y - a.y, b.x - a.x, b.y - a.y, b0.x - a0.x, b0.y - a0.y);
  }

  lemma CrossShift(a0: Point, b0: Point, a: Point, p: Point)
    ensures Cross(a0, b0, p) == Cross(a0, b0, a) + ((p.x - a.x) * (b0.y - a0.y) - (p.y - a.y) * (b0.x - a0.x))
  {
    SplitFactor(p.x - a0.x, a.x - a0.x, b0.y - a0.y);
    SplitFactor(p.y - a0.y, a.y - a0.y, b0.x - a0.x);
  }

  lemma SplitFactor(x: int, y: int, d: int)
    ensures x * d == y * d + (x - y) * d
  {
  }

  lemma Collect(c: int, m: int, n: int, u: int, v: int, s: int, t: int, dx: int, dy: int)
    ensures m * (c + (u * dy - v * dx)) - ((m - n) * c + n * (c + (s * dy - t * dx))) == (m * u - n * s) * dy - (m * v - n * t) * dx
  {
    assert m * (c + (u * dy - v * dx)) == m * c + m * (u * dy) - m * (v * dx);
    assert n * (c + (s * dy - t * dx)) == n * c + n * (s * dy) - n * (t * dx);
    assert (m * u - n * s) * dy == m * (u * dy) - n * (s * dy);
    assert (m * v - n * t) * dx == m * (v * dx) - n * (t * dx);
  }

  /** The rounding still to come: one share for each side that is still violated. */
  function Slack(a: Point, b: Point, w: int, h: int, dx: nat, dy: nat): nat {
    (if a.y < 0 || b.y < 0 then dy else 0) + (if a.y >= h || b.y >= h then dx + dy else 0)
    + (if a.x < 0 || b.x < 0 then dx else 0) + (if a.x >= w || b.x >= w then dx else 0)
  }

  /** The share of rounding that clipping at a side costs, on the scale of `Cross`. */
  function Share(outside: Outcode, dx: nat, dy: nat): nat {
    (if outside.top || outside.bottom then dy else 0) + (if outside.top then 0 else dx)
  }

  lemma NearShare(a0: Point, b0: Point, a: Point, b: Point, p: Point, m: int, n: int, outside: Outcode, bound: nat)
    requires Near(a, b, p, m, n, ColumnsOff(outside), RowsOff(outside))
    requires Abs(Cross(a0, b0, a)) <= bound && Abs(Cross(a0, b0, b)) <= bound
    ensures Abs(Cross(a0, b0, p)) <= bound + Share(outside, Abs(b0.x - a0.x), Abs(b0.y - a0.y))
  {
    hide Near, Cross;
    NearCross(a0, b0, a, b, p, m, n, ColumnsOff(outside), RowsOff(outside), bound);
  }

  lemma SlackStep(a: Point, b: Point, p: Point, outside: Outcode, w: int, h: int, dx: nat, dy: nat)
    requires w > 0 && h > 0 && !CodeOf(a, w, h).Shares(CodeOf(b, w, h)) && outside.Any() && InBox(p, a, b)
    requires if outside.top then p.y == 0 else if outside.bottom then p.y == h - 1 else if outside.right then p.x == w - 1 else p.x == 0
    ensures outside == CodeOf(a, w, h) ==>
              Slack(p, b, w, h, dx, dy) + Share(outside, dx, dy) <= Slack(a, b, w, h, dx, dy)
    ensures outside == CodeOf(b, w, h) ==>
              Slack(a, p, w, h, dx, dy) + Share(outside, dx, dy) <= Slack(a, b, w, h, dx, dy)
  {
  }

  /** What clipping ends with: accepted or not, the endpoints by then, and the passes taken. */
  datatype Clipped = Clipped(ok: bool, a: Point, b: Point, passes: nat)

  /** The clip loop as a function of the segment: clip the first endpoint that is outside, and look again. */
  function ClipFrom(a: Point, b: Point, w: int, h: int): (r: Clipped)
    requires w > 0 && h > 0 && !CodeOf(a, w, h).Shares(CodeOf(b, w, h))
    ensures !r.ok ==> r.passes > 0
    decreases Violations(a, b, w, h), 0
  {
    var outcode1, outcode2 := CodeOf(a, w, h), CodeOf(b, w, h);
    if outcode1.Any() then
      var p := Meet(a, b, outcode1, w, h);
      MeetIs(a, b, outcode1, w, h);
      ClipStep(a, b, p, outcode1, w, h);
      OneMore(p, b, w, h)
    else if outcode2.Any() then
      var p := Meet(a, b, outcode2, w, h);
      MeetIs(a, b, outcode2, w, h);
      ClipStep(a, b, p, outcode2, w, h);
      OneMore(a, p, w, h)
    else Clipped(true, a, b, 0)
  }

  function OneMore(a: Point, b: Point, w: int, h: int): (r: Clipped)
    requires w > 0 && h > 0
    ensures r.passes > 0
    decreases Violations(a, b, w, h), 1
  {
    if CodeOf(a, w, h).Shares(CodeOf(b, w, h)) then Clipped(false, a, b, 1)
    else var r := ClipFrom(a, b, w, h); r.(passes := r.passes + 1)
  }

  /** The frame-buffer part of AM_clipMline as a function of the segment. */
  function ClipSpec(a: Point, b: Point, w: int, h: int): (r: Clipped)
    requires w > 0 && h > 0
  {
    if CodeOf(a, w, h).Shares(CodeOf(b, w, h)) then Clipped(false, a, b, 0) else ClipFrom(a, b, w, h)
  }

  /** The frame-buffer part of AM_clipMline: every side is clipped at most once, so there are at most four passes. */
  method ClipLine(a0: Point, b0: Point, w: int, h: int) returns (ok: bool, a: Point, b: Point, passes: nat)
    requires w > 0 && h > 0
    ensures Clipped(ok, a, b, passes) == ClipSpec(a0, b0, w, h)
    ensures ok ==> InFrame(a, w, h) && InFrame(b, w, h)
    ensures !ok ==> forall p :: InBox(p, a, b) ==> !InFrame(p, w, h)
    ensures InBox(a, a0, b0) && InBox(b, a0, b0)
    ensures InFrame(a0, w, h) ==> ok && a == a0
    ensures InFrame(b0, w, h) ==> ok && b == b0
    ensures passes <= 4 && Length(a, b) + passes <= Length(a0, b0)
    ensures CloseTo(a0, b0, a) && CloseTo(a0, b0, b)
  {
    if CodeOf(a0, w, h).Shares(CodeOf(b0, w, h)) {
      SharedMeansOutside(a0, b0, w, h);
      StartsInBox(a0, b0);
      EndsOnLine(a0, b0);
      return false, a0, b0, 0;
    }
    hide Cross, ClipFrom;
    ghost var off;
    ok, a, b, passes, off := ClipLoop(a0, b0, w, h);
    ClipEnds(a0, b0, a, b, w, h, passes, off);
    if !ok {
      SharedMeansOutside(a, b, w, h);
      NotInsideAny(a, b, w, h);
    }
  }

  /** What is left to clip ends as the whole does, `passes` passes later. */
  ghost predicate Remaining(a0: Point, b0: Point, a: Point, b: Point, w: int, h: int, passes: nat)
    requires w > 0 && h > 0 && !CodeOf(a0, w, h).Shares(CodeOf(b0, w, h)) && !CodeOf(a, w, h).Shares(CodeOf(b, w, h))
  {
    ClipFrom(a0, b0, w, h) == var r := ClipFrom(a, b, w, h); r.(passes := r.passes + passes)
  }

  lemma RemainingStarts(a: Point, b: Point, w: int, h: int)
    requires w > 0 && h > 0 && !CodeOf(a, w, h).Shares(CodeOf(b, w, h))
    ensures Remaining(a, b, a, b, w, h, 0)
  {
  }

  lemma RemainingMoves(a0: Point, b0: Point, a: Point, b: Point, w: int, h: int, passes: nat, p: Point, outside: Outcode)
    requires w > 0 && h > 0 && !CodeOf(a0, w, h).Shares(CodeOf(b0, w, h)) && !CodeOf(a, w, h).Shares(CodeOf(b, w, h))
    requires Remaining(a0, b0, a, b, w, h, passes) && outside.Any()
    requires outside == if CodeOf(a, w, h).Any() then CodeOf(a, w, h) else CodeOf(b, w, h)
    requires p == Meet(a, b, outside, w, h)
    ensures var a', b' := if outside == CodeOf(a, w, h) then p else a, if outside == CodeOf(a, w, h) then b else p;
            if CodeOf(a', w, h).Shares(CodeOf(b', w, h)) then ClipFrom(a0, b0, w, h) == Clipped(false, a', b', passes + 1)
            else Remaining(a0, b0, a', b', w, h, passes + 1)
  {
    hide Meet, CodeOf;
    if CodeOf(a, w, h).Any() {
      assert ClipFrom(a, b, w, h) == OneMore(p, b, w, h);
    } else {
      assert ClipFrom(a, b, w, h) == OneMore(a, p, w, h);
      assert outside != CodeOf(a, w, h);
    }
  }

  lemma RemainingEnds(a0: Point, b0: Point, a: Point, b: Point, w: int, h: int, passes: nat)
    requires w > 0 && h > 0 && !CodeOf(a0, w, h).Shares(CodeOf(b0, w, h)) && !CodeOf(a, w, h).Shares(CodeOf(b, w, h))
    requires Remaining(a0, b0, a, b, w, h, passes) && !CodeOf(a, w, h).Any() && !CodeOf(b, w, h).Any()
    ensures ClipFrom(a0, b0, w, h) == Clipped(true, a, b, passes)
  {
    hide CodeOf;
  }

  /** One pass of the loop: `p` takes the place of the endpoint that is outside. */
  lemma LoopMoves(a0: Point, b0: Point, a: Point, b: Point, w: int, h: int, passes: nat, off: nat, p: Point, outside: Outcode)
    requires w > 0 && h > 0 && !CodeOf(a0, w, h).Shares(CodeOf(b0, w, h)) && !CodeOf(a, w, h).Shares(CodeOf(b, w, h))
    requires ClipState(a0, b0, a, b, w, h, passes, off) && Remaining(a0, b0, a, b, w, h, passes) && outside.Any()
    requires outside == if CodeOf(a, w, h).Any() then CodeOf(a, w, h) else CodeOf(b, w, h)
    requires p == Meet(a, b, outside, w, h)
    ensures var a', b' := if CodeOf(a, w, h).Any() then p else a, if CodeOf(a, w, h).Any() then b else p;
            && ClipState(a0, b0, a', b', w, h, passes + 1, off + Share(outside, Abs(b0.x - a0.x), Abs(b0.y - a0.y)))
            && Violations(a', b', w, h) < Violations(a, b, w, h)
            && if CodeOf(a', w, h).Shares(CodeOf(b', w, h)) then ClipFrom(a0, b0, w, h) == Clipped(false, a', b', passes + 1)
               else Remaining(a0, b0, a', b', w, h, passes + 1)
  {
    hide ClipState, CodeOf, Remaining, Meet, Parts, Near, InBox, Violations, Share, ColumnsOff, RowsOff, Abs;
    MeetIs(a, b, outside, w, h);
    var parts := Parts(a, b, outside, w, h);
    ClipMoves(a0, b0, a, b, w, h, passes, off, p, parts.0, parts.1, outside);
    RemainingMoves(a0, b0, a, b, w, h, passes, p, outside);
  }

  /** The clip loop proper, for a segment that is not trivially outside. */
  method ClipLoop(a0: Point, b0: Point, w: int, h: int) returns (ok: bool, a: Point, b: Point, passes: nat, ghost off: nat)
    requires w > 0 && h > 0 && !CodeOf(a0, w, h).Shares(CodeOf(b0, w, h))
    ensures Clipped(ok, a, b, passes) == ClipFrom(a0, b0, w, h)
    ensures ClipState(a0, b0, a, b, w, h, passes, off)
    ensures ok ==> InFrame(a, w, h) && InFrame(b, w, h)
    ensures !ok ==> CodeOf(a, w, h).Shares(CodeOf(b, w, h))
  {
    hide Remaining, ClipFrom, Meet, Parts;
    hide ClipState, CodeOf, InFrame, InBox, Near, Violations, Share, ColumnsOff, RowsOff, Cross, Length, Abs;
    ClipStarts(a0, b0, w, h);
    RemainingStarts(a0, b0, w, h);
    a, b, passes, off := a0, b0, 0, 0;
    var outcode1 := CodeOf(a, w, h);
    var outcode2 := CodeOf(b, w, h);
    while outcode1.Any() || outcode2.Any()
      invariant outcode1 == CodeOf(a, w, h) && outcode2 == CodeOf(b, w, h) && !outcode1.Shares(outcode2)
      invariant ClipState(a0, b0, a, b, w, h, passes, off) && Remaining(a0, b0, a, b, w, h, passes)
      decreases Violations(a, b, w, h)
    {
      var outside := if outcode1.Any() then outcode1 else outcode2;
      var tmp := ClipPoint(a, b, outside, w, h);
      LoopMoves(a0, b0, a, b, w, h, passes, off, tmp, outside);
      off := off + Share(outside, Abs(b0.x - a0.x), Abs(b0.y - a0.y));
      if outside == outcode1 {
        a := tmp;
        outcode1 := CodeOf(a, w, h);
      } else {
        b := tmp;
        outcode2 := CodeOf(b, w, h);
      }
      passes := passes + 1;
      if outcode1.Shares(outcode2) {
        return false, a, b, passes, off;
      }
    }
    CodeIff(a, w, h);
    CodeIff(b, w, h);
    RemainingEnds(a0, b0, a, b, w, h, passes);
    return true, a, b, passes, off;
  }

  /** What the clip loop keeps: the segment stays in the starting box, endpoints inside stay put, every pass uses up one
      violated side, and neither endpoint is further than `off` from the line. */
  ghost predicate ClipState(a0: Point, b0: Point, a: Point, b: Point, w: int, h: int, passes: nat, off: nat) {
    && InBox(a, a0, b0) && InBox(b, a0, b0)
    && (InFrame(a0, w, h) ==> a == a0) && (InFrame(b0, w, h) ==> b == b0)
    && passes + Violations(a, b, w, h) <= 4
    && Length(a, b) + passes <= Length(a0, b0)
    && Abs(Cross(a0, b0, a)) <= off && Abs(Cross(a0, b0, b)) <= off
    && off + Slack(a, b, w, h, Abs(b0.x - a0.x), Abs(b0.y - a0.y)) <= 3 * Abs(b0.x - a0.x) + 2 * Abs(b0.y - a0.y)
  }

  lemma ClipStarts(a0: Point, b0: Point, w: int, h: int)
    ensures ClipState(a0, b0, a0, b0, w, h, 0, 0)
  {
    StartsInBox(a0, b0);
    EndsOnLine(a0, b0);
  }

  lemma ClipMoves(a0: Point, b0: Point, a: Point, b: Point, w: int, h: int, passes: nat, off: nat,
                  p: Point, m: int, n: int, outside: Outcode)
    requires w > 0 && h > 0 && !CodeOf(a, w, h).Shares(CodeOf(b, w, h)) && outside.Any()
    requires ClipState(a0, b0, a, b, w, h, passes, off) && InBox(p, a, b)
    requires if outside.top then p.y == 0 else if outside.bottom then p.y == h - 1 else if outside.right then p.x == w - 1 else p.x == 0
    requires Near(a, b, p, m, n, ColumnsOff(outside), RowsOff(outside))
    ensures var off' := off + Share(outside, Abs(b0.x - a0.x), Abs(b0.y - a0.y));
            && (outside == CodeOf(a, w, h) ==>
                  ClipState(a0, b0, p, b, w, h, passes + 1, off') && Violations(p, b, w, h) < Violations(a, b, w, h))
            && (outside == CodeOf(b, w, h) ==>
                  ClipState(a0, b0, a, p, w, h, passes + 1, off') && Violations(a, p, w, h) < Violations(a, b, w, h))
  {
    hide InBox, InFrame, Violations, Length, Cross, Slack, Share, Near, CodeOf, Abs, ColumnsOff, RowsOff;
    CodeIff(a, w, h);
    CodeIff(b, w, h);
    ClipStep(a, b, p, outside, w, h);
    BoxInBox(a, b, a0, b0, p);
    NearShare(a0, b0, a, b, p, m, n, outside, off);
    SlackStep(a, b, p, outside, w, h, Abs(b0.x - a0.x), Abs(b0.y - a0.y));
  }

  lemma ClipEnds(a0: Point, b0: Point, a: Point, b: Point, w: int, h: int, passes: nat, off: nat)
    requires ClipState(a0, b0, a, b, w, h, passes, off)
    ensures InBox(a, a0, b0) && InBox(b, a0, b0) && (InFrame(a0, w, h) ==> a == a0) && (InFrame(b0, w, h) ==> b == b0)
    ensures passes <= 4 && Length(a, b) + passes <= Length(a0, b0)
    ensures CloseTo(a0, b0, a) && CloseTo(a0, b0, b)
  {
  }

  lemma EndsOnLine(a0: Point, b0: Point)
    ensures Cross(a0, b0, a0) == 0 && Cross(a0, b0, b0) == 0
  {
  }

  lemma StartsInBox(a: Point, b: Point)
    ensures InBox(a, a, b) && InBox(b, a, b)
  {
  }

  /** A rejected segment has no endpoint inside. */
  lemma NotInsideAny(a: Point, b: Point, w: int, h: int)
    requires w > 0 && h > 0 && CodeOf(a, w, h).Shares(CodeOf(b, w, h))
    ensures !InFrame(a, w, h) && !InFrame(b, w, h)
  {
  }
}
