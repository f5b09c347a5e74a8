/** Pixel rectangles and the two subtraction routines of programs/subprojects/awm/utils.c. */
module Rects {

  /** A half-open rectangle: columns x up to but not including x + w, rows y up to but not including y + h. */
  datatype Rect = Rect(x: int, y: int, w: int, h: int) {
    function MaxX(): int { x + w }
    function MaxY(): int { y + h }
    predicate Positive() { w > 0 && h > 0 }
  }

  predicate In(r: Rect, px: int, py: int) { r.x <= px < r.MaxX() && r.y <= py < r.MaxY() }

  function Max(a: int, b: int): int { if a > b then a else b }
  function Min(a: int, b: int): int { if a < b then a else b }

  /** The libagx predicate `rect_intersects`: the rectangles share a pixel. */
  predicate Intersects(a: Rect, b: Rect) {
    Max(a.x, b.x) < Min(a.MaxX(), b.MaxX()) && Max(a.y, b.y) < Min(a.MaxY(), b.MaxY())
  }

  /** The libagx function `rect_intersect`. */
  function Intersection(a: Rect, b: Rect): Rect {
    var x := Max(a.x, b.x);
    var y := Max(a.y, b.y);
    Rect(x, y, Min(a.MaxX(), b.MaxX()) - x, Min(a.MaxY(), b.MaxY()) - y)
  }

  /** The libagx function `rect_union`: the bounding box. */
  function Bounds(a: Rect, b: Rect): Rect {
    var x := Min(a.x, b.x);
    var y := Min(a.y, b.y);
    Rect(x, y, Max(a.MaxX(), b.MaxX()) - x, Max(a.MaxY(), b.MaxY()) - y)
  }

  predicate ContainsRect(a: Rect, b: Rect) {
    b.MaxX() <= a.MaxX() && b.x >= a.x && b.y >= a.y && b.MaxY() <= a.MaxY()
  }

  lemma IntersectsIff(a: Rect, b: Rect)
    ensures Intersects(a, b) <==> exists px, py :: In(a, px, py) && In(b, px, py)
  {
    if Intersects(a, b) {
      assert In(a, Max(a.x, b.x), Max(a.y, b.y)) && In(b, Max(a.x, b.x), Max(a.y, b.y));
    }
  }

  // ----- lists of rectangles -----

  ghost predicate InAny(rs: seq<Rect>, px: int, py: int) { exists i :: 0 <= i < |rs| && In(rs[i], px, py) }

  ghost predicate AllPositive(rs: seq<Rect>) { forall i :: 0 <= i < |rs| ==> rs[i].Positive() }

  ghost predicate PairwiseDisjoint(rs: seq<Rect>) { forall i, j :: 0 <= i < j < |rs| ==> !Intersects(rs[i], rs[j]) }

  /** The list covers exactly the pixels of `bg` outside `fg`. */
  ghost predicate IsDifference(rs: seq<Rect>, bg: Rect, fg: Rect) {
    forall px, py :: InAny(rs, px, py) <==> In(bg, px, py) && !In(fg, px, py)
  }

  lemma InAnyAppend(rs: seq<Rect>, r: Rect, px: int, py: int)
    ensures InAny(rs + [r], px, py) <==> InAny(rs, px, py) || In(r, px, py)
  {
    if InAny(rs, px, py) {
      var i :| 0 <= i < |rs| && In(rs[i], px, py);
      assert (rs + [r])[i] == rs[i];
    }
    assert (rs + [r])[|rs|] == r;
  }

  /** `rs` holds exactly the pixels of `bg` outside `rest`, in positive, pairwise disjoint pieces that miss `rest`. */
  ghost predicate CutFrom(rs: seq<Rect>, bg: Rect, rest: Rect) {
    && (forall px, py :: InAny(rs, px, py) <==> In(bg, px, py) && !In(rest, px, py))
    && PairwiseDisjoint(rs)
    && (forall i :: 0 <= i < |rs| ==> !Intersects(rs[i], rest))
  }

  /** Cutting a strip off what is left. */
  lemma CutStep(rs: seq<Rect>, bg: Rect, rest: Rect, strip: Rect, rest': Rect)
    requires CutFrom(rs, bg, rest) && ContainsRect(bg, rest) && ContainsRect(rest, strip) && ContainsRect(rest, rest')
    requires forall px, py :: In(rest, px, py) <==> In(strip, px, py) || In(rest', px, py)
    requires !Intersects(strip, rest')
    ensures CutFrom(rs + [strip], bg, rest')
  {
    forall px, py
      ensures InAny(rs + [strip], px, py) <==> In(bg, px, py) && !In(rest', px, py)
    {
      InAnyAppend(rs, strip, px, py);
      if In(strip, px, py) && In(rest', px, py) { IntersectsIff(strip, rest'); }
    }
  }

  // Where `rect_diff` has shrunk its background to, in each direction.
  function LeftCut(bg: Rect, fg: Rect): int { if bg.x < fg.x <= bg.MaxX() then fg.x else bg.x }
  function TopCut(bg: Rect, fg: Rect): int { if bg.y < fg.y <= bg.MaxY() then fg.y else bg.y }
  function RightCut(bg: Rect, fg: Rect): int { if LeftCut(bg, fg) < fg.MaxX() < bg.MaxX() then fg.MaxX() else bg.MaxX() }
  function BottomCut(bg: Rect, fg: Rect): int { if TopCut(bg, fg) < fg.MaxY() < bg.MaxY() then fg.MaxY() else bg.MaxY() }

  ghost predicate IsRest(bg: Rect, fg: Rect, rest: Rect) {
    rest.x == LeftCut(bg, fg) && rest.y == TopCut(bg, fg) && rest.MaxX() == RightCut(bg, fg) && rest.MaxY() == BottomCut(bg, fg)
  }

  /** The state of `rect_diff` after some splits: pieces so far, and the shrunken background. */
  ghost predicate Splitting(bg0: Rect, fg: Rect, out: seq<Rect>, bg: Rect) {
    && CutFrom(out, bg0, bg) && ContainsRect(bg0, bg)
    && (Intersects(bg0, fg) ==> Intersects(bg, fg) && AllPositive(out))
  }

  // What each split cuts off, and what it leaves.
  function LeftStrip(bg: Rect, fg: Rect): seq<Rect> {
    if bg.x < fg.x <= bg.MaxX() then [Rect(bg.x, bg.y, fg.x - bg.x, bg.h)] else []
  }
  function LeftRest(bg: Rect, fg: Rect): Rect {
    if bg.x < fg.x <= bg.MaxX() then Rect(fg.x, bg.y, bg.MaxX() - fg.x, bg.h) else bg
  }
  function TopStrip(bg: Rect, fg: Rect): seq<Rect> {
    if bg.y < fg.y <= bg.MaxY() then [Rect(bg.x, bg.y, bg.w, fg.y - bg.y)] else []
  }
  function TopRest(bg: Rect, fg: Rect): Rect {
    if bg.y < fg.y <= bg.MaxY() then Rect(bg.x, fg.y, bg.w, bg.MaxY() - fg.y) else bg
  }
  function RightStrip(bg: Rect, fg: Rect): seq<Rect> {
    if bg.x < fg.MaxX() < bg.MaxX() then [Rect(fg.MaxX(), bg.y, bg.MaxX() - fg.MaxX(), bg.h)] else []
  }
  function RightRest(bg: Rect, fg: Rect): Rect {
    if bg.x < fg.MaxX() < bg.MaxX() then Rect(bg.x, bg.y, fg.MaxX() - bg.x, bg.h) else bg
  }
  function BottomStrip(bg: Rect, fg: Rect): seq<Rect> {
    if bg.y < fg.MaxY() < bg.MaxY() then [Rect(bg.x, fg.MaxY(), bg.w, bg.MaxY() - fg.MaxY())] else []
  }

  /** The rectangles `rect_diff` returns, in order. */
  function DiffPieces(bg: Rect, fg: Rect): seq<Rect> {
    var b1 := LeftRest(bg, fg);
    var b2 := TopRest(b1, fg);
    var b3 := RightRest(b2, fg);
    LeftStrip(bg, fg) + TopStrip(b1, fg) + RightStrip(b2, fg) + BottomStrip(b3, fg)
  }

  method SplitLeft(ghost bg0: Rect, fg: Rect, out: seq<Rect>, bg: Rect) returns (out': seq<Rect>, bg': Rect)
    requires Splitting(bg0, fg, out, bg) && fg.Positive() && bg.w >= 0
    ensures Splitting(bg0, fg, out', bg') && |out'| <= |out| + 1
    ensures out' == out + LeftStrip(bg, fg) && bg' == LeftRest(bg, fg)
    ensures bg'.x == LeftCut(bg, fg) && bg'.MaxX() == bg.MaxX() && bg'.y == bg.y && bg'.h == bg.h
  {
    out', bg' := out, bg;
    if fg.x > bg.x && fg.x <= bg.MaxX() {
      var diff := fg.x - bg.x;
      var strip := Rect(bg.x, bg.y, diff, bg.h);
      out' := out + [strip];
      bg' := bg.(x := bg.x + diff, w := bg.w - diff);
      CutStep(out, bg0, bg, strip, bg');
    }
  }

  method SplitTop(ghost bg0: Rect, fg: Rect, out: seq<Rect>, bg: Rect) returns (out': seq<Rect>, bg': Rect)
    requires Splitting(bg0, fg, out, bg) && fg.Positive() && bg.h >= 0
    ensures Splitting(bg0, fg, out', bg') && |out'| <= |out| + 1
    ensures out' == out + TopStrip(bg, fg) && bg' == TopRest(bg, fg)
    ensures bg'.y == TopCut(bg, fg) && bg'.MaxY() == bg.MaxY() && bg'.x == bg.x && bg'.w == bg.w
  {
    out', bg' := out, bg;
    if fg.y > bg.y && fg.y <= bg.MaxY() {
      var diff := fg.y - bg.y;
      var strip := Rect(bg.x, bg.y, bg.w, diff);
      out' := out + [strip];
      bg' := bg.(y := bg.y + diff, h := bg.h - diff);
      CutStep(out, bg0, bg, strip, bg');
    }
  }

  method SplitRight(ghost bg0: Rect, fg: Rect, out: seq<Rect>, bg: Rect) returns (out': seq<Rect>, bg': Rect)
    requires Splitting(bg0, fg, out, bg) && fg.Positive() && bg.w >= 0
    ensures Splitting(bg0, fg, out', bg') && |out'| <= |out| + 1
    ensures out' == out + RightStrip(bg, fg) && bg' == RightRest(bg, fg)
    ensures bg'.MaxX() == if bg.x < fg.MaxX() < bg.MaxX() then fg.MaxX() else bg.MaxX()
    ensures bg'.x == bg.x && bg'.y == bg.y && bg'.h == bg.h
  {
    out', bg' := out, bg;
    if fg.MaxX() > bg.x && fg.MaxX() < bg.MaxX() {
      var diff := bg.MaxX() - fg.MaxX();
      var strip := Rect(fg.MaxX(), bg.y, diff, bg.h);
      out' := out + [strip];
      bg' := bg.(w := bg.w - diff);
      CutStep(out, bg0, bg, strip, bg');
    }
  }

  method SplitBottom(ghost bg0: Rect, fg: Rect, out: seq<Rect>, bg: Rect) returns (out': seq<Rect>, bg': Rect)
    requires Splitting(bg0, fg, out, bg) && fg.Positive() && bg.h >= 0
    ensures Splitting(bg0, fg, out', bg') && |out'| <= |out| + 1
    ensures out' == out + BottomStrip(bg, fg)
    ensures bg'.MaxY() == if bg.y < fg.MaxY() < bg.MaxY() then fg.MaxY() else bg.MaxY()
    ensures bg'.x == bg.x && bg'.y == bg.y && bg'.w == bg.w
  {
    out', bg' := out, bg;
    if fg.MaxY() > bg.y && fg.MaxY() < bg.MaxY() {
      var diff := bg.MaxY() - fg.MaxY();
      var strip := Rect(bg.x, fg.MaxY(), bg.w, diff);
      out' := out + [strip];
      bg' := bg.(h := bg.h - diff);
      CutStep(out, bg0, bg, strip, bg');
    }
  }

  /** `rect_diff`: the parts of `bg` left of, above, right of and below `fg`.  It computes the difference for
      overlapping rectangles; for others it does so only where `fg` starts exactly on the far edge of `bg`. */
  method RectDiff(bg: Rect, fg: Rect) returns (out: seq<Rect>)
    requires bg.Positive() && fg.Positive()
    ensures out == DiffPieces(bg, fg) && |out| <= 4
    ensures PairwiseDisjoint(out) && forall px, py :: InAny(out, px, py) ==> In(bg, px, py)
    ensures Intersects(bg, fg) ==> AllPositive(out)
    ensures IsDifference(out, bg, fg) <==> Intersects(bg, fg) || fg.x == bg.MaxX() || fg.y == bg.MaxY()
  {
    hide LeftStrip, TopStrip, RightStrip, BottomStrip, LeftRest, TopRest, RightRest, PairwiseDisjoint, AllPositive, IsDifference, Intersects;
    var rest := bg;
    out := [];
    out, rest := SplitLeft(bg, fg, out, rest);
    out, rest := SplitTop(bg, fg, out, rest);
    out, rest := SplitRight(bg, fg, out, rest);
    out, rest := SplitBottom(bg, fg, out, rest);
    RestDecides(out, bg, fg, rest);
    RestIsCommon(bg, fg, rest);
  }

  /** The pieces are the difference just when what is left over is the common part. */
  lemma RestDecides(out: seq<Rect>, bg: Rect, fg: Rect, rest: Rect)
    requires CutFrom(out, bg, rest) && ContainsRect(bg, rest)
    ensures IsDifference(out, bg, fg) <==> IsCommon(bg, fg, rest)
  {
  }

  ghost predicate IsCommon(bg: Rect, fg: Rect, rest: Rect) {
    forall px, py :: In(rest, px, py) <==> In(bg, px, py) && In(fg, px, py)
  }

  lemma RestIsCommon(bg: Rect, fg: Rect, rest: Rect)
    requires bg.Positive() && fg.Positive() && IsRest(bg, fg, rest)
    ensures IsCommon(bg, fg, rest) <==> Intersects(bg, fg) || fg.x == bg.MaxX() || fg.y == bg.MaxY()
  {
    if !(Intersects(bg, fg) || fg.x == bg.MaxX() || fg.y == bg.MaxY()) {
      assert In(rest, rest.x, rest.y);
      if In(bg, rest.x, rest.y) && In(fg, rest.x, rest.y) { IntersectsIff(bg, fg); }
    }
  }

  // ----- subtracting from a list -----

  lemma InAnyConcat(rs: seq<Rect>, ss: seq<Rect>, px: int, py: int)
    ensures InAny(rs + ss, px, py) <==> InAny(rs, px, py) || InAny(ss, px, py)
  {
    if InAny(rs, px, py) {
      var i :| 0 <= i < |rs| && In(rs[i], px, py);
      assert (rs + ss)[i] == rs[i];
    }
    if InAny(ss, px, py) {
      var i :| 0 <= i < |ss| && In(ss[i], px, py);
      assert (rs + ss)[|rs| + i] == ss[i];
    }
    if InAny(rs + ss, px, py) {
      var i :| 0 <= i < |rs + ss| && In((rs + ss)[i], px, py);
      if i >= |rs| { assert In(ss[i - |rs|], px, py); }
    }
  }

  /** A list covers exactly the pixels of another one outside `ex`. */
  ghost predicate IsRemainder(out: seq<Rect>, free: seq<Rect>, ex: Rect) {
    forall px, py :: InAny(out, px, py) <==> InAny(free, px, py) && !In(ex, px, py)
  }

  /** No rectangle of one list shares a pixel with a rectangle of the other. */
  ghost predicate Separate(rs: seq<Rect>, ss: seq<Rect>) {
    forall i, j :: 0 <= i < |rs| && 0 <= j < |ss| ==> !Intersects(rs[i], ss[j])
  }

  lemma SeparateIff(rs: seq<Rect>, ss: seq<Rect>)
    ensures Separate(rs, ss) <==> forall px, py :: !(InAny(rs, px, py) && InAny(ss, px, py))
  {
    if Separate(rs, ss) {
      forall px, py
        ensures !(InAny(rs, px, py) && InAny(ss, px, py))
      {
        if InAny(rs, px, py) && InAny(ss, px, py) {
          var i :| 0 <= i < |rs| && In(rs[i], px, py);
          var j :| 0 <= j < |ss| && In(ss[j], px, py);
          IntersectsIff(rs[i], ss[j]);
        }
      }
    } else {
      var i, j :| 0 <= i < |rs| && 0 <= j < |ss| && Intersects(rs[i], ss[j]);
      IntersectsIff(rs[i], ss[j]);
      var px, py :| In(rs[i], px, py) && In(ss[j], px, py);
      assert InAny(rs, px, py) && InAny(ss, px, py);
    }
  }

  lemma DisjointConcat(rs: seq<Rect>, ss: seq<Rect>)
    requires PairwiseDisjoint(rs) && PairwiseDisjoint(ss) && Separate(rs, ss)
    ensures PairwiseDisjoint(rs + ss)
  {
  }

  /** The pieces of rectangle `n` miss what has been kept of the rectangles before it. */
  lemma PiecesSeparate(out: seq<Rect>, pieces: seq<Rect>, free: seq<Rect>, n: nat, ex: Rect)
    requires n < |free| && PairwiseDisjoint(free)
    requires IsRemainder(out, free[..n], ex) && IsRemainder(pieces, [free[n]], ex)
    ensures Separate(out, pieces)
  {
    forall px, py
      ensures !(InAny(out, px, py) && InAny(pieces, px, py))
    {
      if InAny(out, px, py) && InAny(pieces, px, py) {
        var i :| 0 <= i < n && In(free[..n][i], px, py);
        assert In(free[i], px, py) && In(free[n], px, py);
        IntersectsIff(free[i], free[n]);
      }
    }
    SeparateIff(out, pieces);
  }

  lemma RemainderGrows(out: seq<Rect>, pieces: seq<Rect>, free: seq<Rect>, n: nat, ex: Rect)
    requires n < |free| && IsRemainder(out, free[..n], ex) && IsRemainder(pieces, [free[n]], ex)
    ensures IsRemainder(out + pieces, free[..n + 1], ex)
  {
    assert free[..n + 1] == free[..n] + [free[n]];
    forall px, py
      ensures InAny(out + pieces, px, py) <==> InAny(free[..n + 1], px, py) && !In(ex, px, py)
    {
      InAnyConcat(out, pieces, px, py);
      InAnyConcat(free[..n], [free[n]], px, py);
    }
  }

  /** What `update_occlusions` keeps of one free area. */
  method Keep(area: Rect, ex: Rect) returns (pieces: seq<Rect>)
    requires area.Positive()
    ensures AllPositive(pieces) && PairwiseDisjoint(pieces) && IsRemainder(pieces, [area], ex)
  {
    if !Intersects(area, ex) {
      pieces := [area];
      forall px, py
        ensures InAny([area], px, py) ==> !In(ex, px, py)
      {
        if In(area, px, py) && In(ex, px, py) { IntersectsIff(area, ex); }
      }
    } else {
      pieces := RectDiff(area, ex);
      forall px, py
        ensures InAny(pieces, px, py) <==> InAny([area], px, py) && !In(ex, px, py)
      {
        assert In([area][0], px, py) <==> InAny([area], px, py);
      }
    }
  }

  /** `update_occlusions`: exact subtraction on a list of any length that keeps its members disjoint. */
  method UpdateOcclusions(free: seq<Rect>, ex: Rect) returns (out: seq<Rect>)
    requires AllPositive(free)
    ensures AllPositive(out)
    ensures IsRemainder(out, free, ex)
    ensures PairwiseDisjoint(free) ==> PairwiseDisjoint(out)
  {
    out := [];
    for n := 0 to |free|
      invariant AllPositive(out)
      invariant IsRemainder(out, free[..n], ex)
      invariant PairwiseDisjoint(free) ==> PairwiseDisjoint(out)
    {
      var pieces := Keep(free[n], ex);
      RemainderGrows(out, pieces, free, n, ex);
      if PairwiseDisjoint(free) {
        PiecesSeparate(out, pieces, free, n, ex);
        DisjointConcat(out, pieces);
      }
      out := out + pieces;
    }
    assert free[..|free|] == free;
  }
}
