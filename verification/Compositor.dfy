/** The dirty-rectangle loop of `compositor_render_frame` in programs/subprojects/awm/composite.c. */
module Compositor {
  import opened Rects
  import opened Occlusion
  import opened Desktops

  /** What one dirty rectangle `r` has been split into so far: `free` is still to be drawn by the background, `drawn`
      is what has been queued for views. */
  ghost predicate Split(r: Rect, free: seq<Rect>, drawn: seq<Rect>) {
    && AllPositive(free) && PairwiseDisjoint(free)
    && (forall px, py :: In(r, px, py) <==> InAny(free, px, py) || InAny(drawn, px, py))
    && (forall px, py :: !(InAny(free, px, py) && InAny(drawn, px, py)))
  }

  lemma SplitMore(r: Rect, free: seq<Rect>, drawn: seq<Rect>, x: Rect, free': seq<Rect>)
    requires Split(r, free, drawn) && ContainsRect(r, x)
    requires AllPositive(free') && PairwiseDisjoint(free') && IsRemainder(free', free, x)
    ensures Split(r, free', drawn + [x])
  {
    forall px, py
      ensures InAny(drawn + [x], px, py) <==> InAny(drawn, px, py) || In(x, px, py)
    {
      InAnyAppend(drawn, x, px, py);
    }
  }

  /** The part of a visible rectangle that a dirty rectangle needs redrawn. */
  function Overlap(visible: Rect, r: Rect): Rect {
    if ContainsRect(visible, r) then r else Intersection(visible, r)
  }

  lemma OverlapIn(visible: Rect, r: Rect)
    requires Intersects(visible, r)
    ensures Overlap(visible, r).Positive() && ContainsRect(r, Overlap(visible, r))
    ensures forall px, py :: In(Overlap(visible, r), px, py) <==> In(visible, px, py) && In(r, px, py)
  {
  }

  /** How many of a view's visible rectangles touch a dirty rectangle. */
  function Touches(d: seq<Rect>, r: Rect): (n: nat)
    ensures n <= |d|
  {
    if d == [] then 0 else Touches(d[..|d| - 1], r) + if Intersects(d[|d| - 1], r) then 1 else 0
  }

  lemma {:induction false} TouchesPart(d: seq<Rect>, r: Rect, k: nat)
    requires k <= |d|
    ensures Touches(d[..k], r) <= Touches(d, r)
    ensures k < |d| ==> Touches(d[..k + 1], r) == Touches(d[..k], r) + if Intersects(d[k], r) then 1 else 0
  {
    if k < |d| {
      assert d[..k + 1][..k] == d[..k];
      TouchesPart(d[..|d| - 1], r, k);
      assert d[..|d| - 1][..k] == d[..k];
    } else {
      assert d[..k] == d;
    }
  }

  /** What a view gets of a dirty rectangle from its visible rectangles: the overlaps of those that touch, in order. */
  function Overlaps(d: seq<Rect>, r: Rect): (o: seq<Rect>)
    ensures |o| == Touches(d, r)
  {
    if d == [] then [] else Overlaps(d[..|d| - 1], r) + if Intersects(d[|d| - 1], r) then [Overlap(d[|d| - 1], r)] else []
  }

  lemma OverlapsNext(d: seq<Rect>, r: Rect, k: nat)
    requires k < |d|
    ensures Overlaps(d[..k + 1], r) == Overlaps(d[..k], r) + if Intersects(d[k], r) then [Overlap(d[k], r)] else []
  {
    assert d[..k + 1][..k] == d[..k];
  }

  /** After the first `j` visible rectangles, with `before` queued for the views above, the loop stops: the last one
      touched, and it held the whole dirty rectangle or nothing is left of it. */
  ghost predicate Complete(d: seq<Rect>, r: Rect, before: seq<Rect>, j: nat)
    requires 0 < j <= |d|
  {
    Intersects(d[j - 1], r) && (ContainsRect(d[j - 1], r) || AllIn(r, before + Overlaps(d[..j], r)))
  }

  ghost predicate AllIn(r: Rect, rs: seq<Rect>) { forall px, py :: In(r, px, py) ==> InAny(rs, px, py) }

  /** The loop went on past the first `k` visible rectangles. */
  ghost predicate WentOn(d: seq<Rect>, r: Rect, before: seq<Rect>, k: nat) {
    k <= |d| && forall j :: 0 < j <= k ==> !Complete(d, r, before, j)
  }

  /** Exactly what is queued for a view, with room for `room` more draws: the overlaps of its first `end` visible
      rectangles, where `end` is the first at which the loop stops, or the queue is full. */
  ghost predicate ShareTo(d: seq<Rect>, r: Rect, before: seq<Rect>, room: int, mine: seq<Rect>, full: bool, end: nat) {
    && end <= |d| && mine == Overlaps(d[..end], r) && (mine != [] ==> |mine| <= room)
    && (if full then WentOn(d, r, before, end) && end < |d| && Intersects(d[end], r) && |mine| >= room
        else if end < |d| then end > 0 && WentOn(d, r, before, end - 1) && Complete(d, r, before, end)
        else end == 0 || WentOn(d, r, before, end - 1))
  }

  ghost predicate ViewShare(view: Rect, d: seq<Rect>, solid: bool, r: Rect, before: seq<Rect>, room: int, mine: seq<Rect>) {
    if solid && Intersects(view, r) then exists full: bool, end: nat :: ShareTo(d, r, before, room, mine, full, end)
    else mine == []
  }

  /** How the loop over a view's visible rectangles goes on. */
  datatype Turn = GoOn | AllDrawn | QueueFull

  /** After `k` visible rectangles `d` of a view, `mine` has been queued for it. */
  ghost predicate QueueState(r: Rect, free: seq<Rect>, drawn: seq<Rect>, mine: seq<Rect>, d: seq<Rect>, k: nat, turn: Turn) {
    && k <= |d| && Split(r, free, drawn + mine) && Inside(mine, r, d) && |mine| <= Touches(d[..k], r)
    && (turn == GoOn ==> Reached(d[..k], r, drawn + mine))
    && (turn == AllDrawn ==> Reached(d, r, drawn + mine))
    && mine == Overlaps(d[..k], r)
    && (if turn == AllDrawn then k > 0 && WentOn(d, r, drawn, k - 1) && Complete(d, r, drawn, k) else WentOn(d, r, drawn, k))
  }

  /** One visible rectangle of a view. */
  method QueueVisible(view: View, r: Rect, free: seq<Rect>, k: nat, ghost drawn: seq<Rect>, ghost mine: seq<Rect>)
    returns (free': seq<Rect>, ghost mine': seq<Rect>, turn: Turn)
    requires r.Positive() && k < |view.drawable| && QueueState(r, free, drawn, mine, view.drawable, k, GoOn)
    modifies view`extraDraws
    ensures mine <= mine' && view.extraDraws == old(view.extraDraws) + mine'[|mine|..]
    ensures turn == QueueFull <==> Intersects(view.drawable[k], r) && |old(view.extraDraws)| >= view.capacity - 1
    ensures turn == QueueFull ==> mine' == mine && free' == free
    ensures mine' == mine || (|mine'| == |mine| + 1 && |old(view.extraDraws)| < view.capacity - 1)
    ensures turn != QueueFull ==> QueueState(r, free', drawn, mine', view.drawable, k + 1, turn)
  {
    hide Split, Inside, Reached, Intersects, ContainsRect, AllPositive, PairwiseDisjoint, Touches, Overlaps, AllIn, Overlap;
    OverlapsNext(view.drawable, r, k);
    var visible := view.drawable[k];
    ghost var d := view.drawable;
    free', mine', turn := free, mine, GoOn;
    TouchesPart(d, r, k);
    if Intersects(visible, r) {
      if |view.extraDraws| >= view.capacity - 1 {
        turn := QueueFull;
        return;
      }
      var x := Overlap(visible, r);
      view.extraDraws := view.extraDraws + [x];
      SplitParts(r, free, drawn + mine);
      free' := UpdateOcclusions(free, x);
      mine' := mine + [x];
      OverlapIn(visible, r);
      SplitMore(r, free, drawn + mine, x, free');
      assert drawn + mine' == drawn + mine + [x];
      InsideMore(mine, r, d, k);
      ReachedGrows(d[..k], r, drawn + mine, x);
      if ContainsRect(visible, r) || free' == [] {
        turn := AllDrawn;
        EverythingDrawn(r, free', drawn + mine', d, visible, drawn + mine);
      }
      NothingIsLeft(r, free', drawn + mine');
    }
    ReachedMore(d, k, r, drawn + mine');
    WentOnNext(d, r, drawn, k);
  }

  lemma WentOnNext(d: seq<Rect>, r: Rect, before: seq<Rect>, k: nat)
    requires k < |d| && WentOn(d, r, before, k)
    ensures WentOn(d, r, before, k + 1) <==> !Complete(d, r, before, k + 1)
  {
    hide Complete;
  }

  /** The background's share is empty exactly when all of the dirty rectangle has been drawn. */
  lemma NothingIsLeft(r: Rect, free: seq<Rect>, drawn: seq<Rect>)
    requires Split(r, free, drawn)
    ensures free == [] <==> AllIn(r, drawn)
  {
    if free != [] {
      assert In(free[0], free[0].x, free[0].y);
      assert InAny(free, free[0].x, free[0].y);
    }
  }

  lemma SplitParts(r: Rect, free: seq<Rect>, drawn: seq<Rect>)
    requires Split(r, free, drawn)
    ensures AllPositive(free) && PairwiseDisjoint(free)
  {
  }

  lemma EverythingDrawn(r: Rect, free: seq<Rect>, drawn: seq<Rect>, d: seq<Rect>, visible: Rect, before: seq<Rect>)
    requires Split(r, free, drawn) && drawn == before + [Overlap(visible, r)] && (ContainsRect(visible, r) || free == [])
    ensures Reached(d, r, drawn)
  {
    if ContainsRect(visible, r) {
      AllIsDrawn(before, r);
    } else {
      assert forall px, py :: !InAny(free, px, py);
    }
  }

  /** One view's share of a dirty rectangle: queue what of its visible rectangles overlaps, and take that off the
      background's share.  `full` reports that the queue was full. */
  method QueueView(view: View, r: Rect, free: seq<Rect>, ghost drawn: seq<Rect>)
    returns (free': seq<Rect>, ghost mine: seq<Rect>, full: bool, ghost end: nat)
    requires r.Positive() && Split(r, free, drawn)
    modifies view`extraDraws
    ensures Split(r, free', drawn + mine) && view.extraDraws == old(view.extraDraws) + mine
    ensures ShareTo(view.drawable, r, drawn, view.capacity - 1 - |old(view.extraDraws)|, mine, full, end)
    ensures |mine| <= Touches(view.drawable, r)
    ensures full ==> |old(view.extraDraws)| + Touches(view.drawable, r) >= view.capacity
    ensures Inside(mine, r, view.drawable)
    ensures !full ==> Reached(view.drawable, r, drawn + mine)
  {
    ghost var d, room := view.drawable, view.capacity - 1 - |view.extraDraws|;
    QueueStarts(r, free, drawn, d);
    hide QueueState, Split, Inside, Reached, Intersects, Touches, ShareTo;
    free', mine, full := free, [], false;
    var k := 0;
    var turn := GoOn;
    while k < |view.drawable| && turn == GoOn
      invariant 0 <= k <= |view.drawable| && view.drawable == d && view.extraDraws == old(view.extraDraws) + mine
      invariant mine != [] ==> |mine| <= room
      invariant turn != QueueFull ==> QueueState(r, free', drawn, mine, d, k, turn)
      invariant turn == QueueFull ==> k < |d| && QueueState(r, free', drawn, mine, d, k, GoOn)
      invariant turn == QueueFull ==> Intersects(d[k], r) && |mine| >= room
      decreases |view.drawable| - k, turn == GoOn
    {
      free', mine, turn := QueueVisible(view, r, free', k, drawn, mine);
      if turn != QueueFull {
        k := k + 1;
      }
    }
    full := turn == QueueFull;
    end := k;
    TouchesPart(d, r, k);
    if full {
      TouchesPart(d, r, k + 1);
    }
    QueueShare(r, free', drawn, mine, d, k, if full then GoOn else turn, room, full);
    QueueEnds(r, free', drawn, mine, d, k, if full then GoOn else turn);
  }

  lemma QueueShare(r: Rect, free: seq<Rect>, drawn: seq<Rect>, mine: seq<Rect>, d: seq<Rect>, k: nat, turn: Turn, room: int, full: bool)
    requires QueueState(r, free, drawn, mine, d, k, turn) && (mine != [] ==> |mine| <= room)
    requires full ==> turn == GoOn && k < |d| && Intersects(d[k], r) && |mine| >= room
    requires !full && k < |d| ==> turn == AllDrawn
    ensures ShareTo(d, r, drawn, room, mine, full, k)
  {
    hide Split, Inside, Reached, Touches, Complete, Overlaps;
  }

  lemma QueueStarts(r: Rect, free: seq<Rect>, drawn: seq<Rect>, d: seq<Rect>)
    requires Split(r, free, drawn)
    ensures QueueState(r, free, drawn, [], d, 0, GoOn)
  {
    assert drawn + [] == drawn;
  }

  lemma QueueEnds(r: Rect, free: seq<Rect>, drawn: seq<Rect>, mine: seq<Rect>, d: seq<Rect>, k: nat, turn: Turn)
    requires QueueState(r, free, drawn, mine, d, k, turn)
    ensures Split(r, free, drawn + mine) && Inside(mine, r, d) && |mine| <= Touches(d[..k], r)
    ensures turn == AllDrawn || (turn == GoOn && k == |d|) ==> Reached(d, r, drawn + mine)
  {
    assert k == |d| ==> d[..k] == d;
  }

  ghost predicate Inside(mine: seq<Rect>, r: Rect, d: seq<Rect>) {
    forall px, py :: InAny(mine, px, py) ==> In(r, px, py) && InAny(d, px, py)
  }

  ghost predicate Reached(d: seq<Rect>, r: Rect, drawn: seq<Rect>) {
    forall px, py :: In(r, px, py) && InAny(d, px, py) ==> InAny(drawn, px, py)
  }

  lemma InsideMore(mine: seq<Rect>, r: Rect, d: seq<Rect>, k: nat)
    requires Inside(mine, r, d) && k < |d| && Intersects(d[k], r)
    ensures Inside(mine + [Overlap(d[k], r)], r, d)
  {
    OverlapIn(d[k], r);
    forall px, py | InAny(mine + [Overlap(d[k], r)], px, py)
      ensures In(r, px, py) && InAny(d, px, py)
    {
      InAnyAppend(mine, Overlap(d[k], r), px, py);
    }
  }

  lemma AllIsDrawn(drawn: seq<Rect>, r: Rect)
    ensures forall px, py :: In(r, px, py) ==> InAny(drawn + [r], px, py)
  {
    forall px, py | In(r, px, py)
      ensures InAny(drawn + [r], px, py)
    {
      InAnyAppend(drawn, r, px, py);
    }
  }

  /** The visible rectangle `k` is either outside `r` or has just been queued. */
  lemma ReachedMore(d: seq<Rect>, k: nat, r: Rect, drawn: seq<Rect>)
    requires k < |d| && Reached(d[..k], r, drawn)
    requires Intersects(d[k], r) ==> drawn != [] && drawn[|drawn| - 1] == Overlap(d[k], r)
    ensures Reached(d[..k + 1], r, drawn)
  {
    forall px, py | In(r, px, py) && InAny(d[..k + 1], px, py)
      ensures InAny(drawn, px, py)
    {
      assert d[..k + 1] == d[..k] + [d[k]];
      InAnyAppend(d[..k], d[k], px, py);
      if In(d[k], px, py) {
        IntersectsIff(d[k], r);
        OverlapIn(d[k], r);
        assert In(drawn[|drawn| - 1], px, py);
      }
    }
  }

  lemma ReachedGrows(d: seq<Rect>, r: Rect, drawn: seq<Rect>, x: Rect)
    requires Reached(d, r, drawn)
    ensures Reached(d, r, drawn + [x])
  {
    forall px, py | In(r, px, py) && InAny(d, px, py)
      ensures InAny(drawn + [x], px, py)
    {
      InAnyAppend(drawn, x, px, py);
    }
  }

  // ----- one dirty rectangle, all views -----

  ghost predicate DrawnBy(nd: seq<seq<Rect>>, px: int, py: int) { exists i :: 0 <= i < |nd| && InAny(nd[i], px, py) }

  /** Background and queued draws share out the dirty rectangle: every pixel of it to one side, and no other pixel. */
  ghost predicate SharedOut(r: Rect, bg: seq<Rect>, nd: seq<seq<Rect>>) {
    && (forall px, py :: In(r, px, py) <==> InAny(bg, px, py) || DrawnBy(nd, px, py))
    && (forall px, py :: !(InAny(bg, px, py) && DrawnBy(nd, px, py)))
  }

  /** Each pixel goes to the topmost view there if that view is opaque, and to the background otherwise. */
  ghost predicate Painted(r: Rect, fs: seq<Rect>, solid: seq<bool>, bg: seq<Rect>, nd: seq<seq<Rect>>)
    requires |fs| == |solid| == |nd|
  {
    && (forall i, px, py :: 0 <= i < |nd| ==> (InAny(nd[i], px, py) <==> In(r, px, py) && solid[i] && Shown(fs, i, px, py)))
    && (forall px, py :: InAny(bg, px, py) <==> In(r, px, py) && !(exists i :: 0 <= i < |fs| && solid[i] && Shown(fs, i, px, py)))
  }

  /** What the loop over the views has established for view `i`. */
  ghost predicate Handled(r: Rect, f: Rect, d: seq<Rect>, solid: bool, full: bool, mine: seq<Rect>, drawn: seq<Rect>) {
    && Inside(mine, r, d)
    && (!solid ==> mine == [])
    && (solid && !full && Intersects(f, r) ==> Reached(d, r, drawn))
  }

  ghost predicate IsUnion(drawn: seq<Rect>, nd: seq<seq<Rect>>) {
    forall px, py :: InAny(drawn, px, py) <==> DrawnBy(nd, px, py)
  }

  lemma UnionGrows(drawn: seq<Rect>, nd: seq<seq<Rect>>, mine: seq<Rect>)
    requires IsUnion(drawn, nd)
    ensures IsUnion(drawn + mine, nd + [mine])
  {
    forall px, py
      ensures InAny(drawn + mine, px, py) <==> DrawnBy(nd + [mine], px, py)
    {
      InAnyConcat(drawn, mine, px, py);
      if DrawnBy(nd, px, py) {
        var i :| 0 <= i < |nd| && InAny(nd[i], px, py);
        assert (nd + [mine])[i] == nd[i];
      }
      assert (nd + [mine])[|nd|] == mine;
      if DrawnBy(nd + [mine], px, py) {
        var i :| 0 <= i < |nd + [mine]| && InAny((nd + [mine])[i], px, py);
        if i < |nd| { assert InAny(nd[i], px, py); }
      }
    }
  }

  lemma HandledGrows(r: Rect, f: Rect, d: seq<Rect>, solid: bool, full: bool, mine: seq<Rect>, drawn: seq<Rect>, more: seq<Rect>)
    requires Handled(r, f, d, solid, full, mine, drawn)
    ensures Handled(r, f, d, solid, full, mine, drawn + more)
  {
    forall px, py | In(r, px, py) && InAny(d, px, py) && InAny(drawn, px, py)
      ensures InAny(drawn + more, px, py)
    {
      InAnyConcat(drawn, more, px, py);
    }
  }

  /** With exact caches and no full queue the shares are the right ones. */
  lemma ExactIsPainted(r: Rect, fs: seq<Rect>, ds: seq<seq<Rect>>, solid: seq<bool>, bg: seq<Rect>, nd: seq<seq<Rect>>, drawn: seq<Rect>,
                       fulls: seq<bool>)
    requires AllExact(ds, fs) && |fs| == |solid| == |nd|
    requires Split(r, bg, drawn) && IsUnion(drawn, nd)
    requires HandledAll(r, fs, ds, solid, fulls, nd, drawn) && forall i :: 0 <= i < |fulls| ==> !fulls[i]
    ensures Painted(r, fs, solid, bg, nd)
  {
    forall i, px, py | 0 <= i < |nd|
      ensures InAny(nd[i], px, py) <==> In(r, px, py) && solid[i] && Shown(fs, i, px, py)
    {
      ViewIsPainted(r, fs, ds, solid, nd, drawn, i, px, py);
    }
    forall px, py
      ensures InAny(bg, px, py) <==> In(r, px, py) && !(exists i :: 0 <= i < |fs| && solid[i] && Shown(fs, i, px, py))
    {
      assert InAny(bg, px, py) <==> In(r, px, py) && !DrawnBy(nd, px, py);
    }
  }

  lemma ViewIsPainted(r: Rect, fs: seq<Rect>, ds: seq<seq<Rect>>, solid: seq<bool>, nd: seq<seq<Rect>>, drawn: seq<Rect>,
                      i: nat, px: int, py: int)
    requires AllExact(ds, fs) && |fs| == |solid| == |nd| && i < |nd| && IsUnion(drawn, nd)
    requires forall i :: 0 <= i < |nd| ==> Handled(r, fs[i], ds[i], solid[i], false, nd[i], drawn)
    ensures InAny(nd[i], px, py) <==> In(r, px, py) && solid[i] && Shown(fs, i, px, py)
  {
    assert Handled(r, fs[i], ds[i], solid[i], false, nd[i], drawn) && Exact(ds[i], fs, i);
    if In(r, px, py) && solid[i] && Shown(fs, i, px, py) {
      IntersectsIff(fs[i], r);
      assert InAny(ds[i], px, py);
      assert InAny(drawn, px, py);
      var j :| 0 <= j < |nd| && InAny(nd[j], px, py);
      assert Handled(r, fs[j], ds[j], solid[j], false, nd[j], drawn) && Exact(ds[j], fs, j);
      ShownOnce(fs, i, j, px, py);
    }
  }

  ghost function Solids(vs: seq<View>): (ss: seq<bool>)
    ensures |ss| == |vs| && forall i :: 0 <= i < |vs| ==> ss[i] == vs[i].opaque_
  {
    seq(|vs|, i requires 0 <= i < |vs| => vs[i].opaque_)
  }

  ghost function Queues(vs: seq<View>): (qs: seq<seq<Rect>>)
    reads vs
    ensures |qs| == |vs| && forall i :: 0 <= i < |vs| ==> qs[i] == vs[i].extraDraws
  {
    if vs == [] then [] else Queues(vs[..|vs| - 1]) + [vs[|vs| - 1].extraDraws]
  }

  ghost function Capacities(vs: seq<View>): (cs: seq<nat>)
    ensures |cs| == |vs| && forall i :: 0 <= i < |vs| ==> cs[i] == vs[i].capacity
  {
    seq(|vs|, i requires 0 <= i < |vs| => vs[i].capacity)
  }

  /** Every view's queue has room for as many draws as its visible rectangles touch the dirty rectangle. */
  ghost predicate HasRoom(was: seq<seq<Rect>>, ds: seq<seq<Rect>>, caps: seq<nat>, r: Rect) {
    |was| == |ds| == |caps| && forall i :: 0 <= i < |was| ==> |was[i]| + Touches(ds[i], r) < caps[i]
  }

  /** The queues and shares once the first `|nd|` views have been visited. */
  ghost predicate RectState(was: seq<seq<Rect>>, qs: seq<seq<Rect>>, fs: seq<Rect>, ds: seq<seq<Rect>>, solid: seq<bool>, caps: seq<nat>, r: Rect,
                            bg: seq<Rect>, nd: seq<seq<Rect>>, drawn: seq<Rect>, fulls: seq<bool>) {
    && |was| == |qs| == |fs| == |ds| == |solid| == |caps| && |nd| == |fulls| <= |was|
    && (forall i :: 0 <= i < |was| ==> qs[i] == if i < |nd| then was[i] + nd[i] else was[i])
    && (forall i :: 0 <= i < |nd| ==> |nd[i]| <= Touches(ds[i], r) && (fulls[i] ==> |was[i]| + Touches(ds[i], r) >= caps[i]))
    && Split(r, bg, drawn) && IsUnion(drawn, nd) && HandledAll(r, fs, ds, solid, fulls, nd, drawn)
    && drawn == Flat(nd) && Shares(was, fs, ds, solid, caps, r, nd)
  }

  lemma RectStarts(was: seq<seq<Rect>>, fs: seq<Rect>, ds: seq<seq<Rect>>, solid: seq<bool>, caps: seq<nat>, r: Rect)
    requires r.Positive() && |was| == |fs| == |ds| == |solid| == |caps|
    ensures RectState(was, was, fs, ds, solid, caps, r, [r], [], [], [])
  {
    StartSplit(r, fs, ds, solid);
  }

  lemma RectNext(was: seq<seq<Rect>>, qs: seq<seq<Rect>>, fs: seq<Rect>, ds: seq<seq<Rect>>, solid: seq<bool>, caps: seq<nat>, r: Rect,
                 bg: seq<Rect>, nd: seq<seq<Rect>>, drawn: seq<Rect>, fulls: seq<bool>, bg': seq<Rect>, mine: seq<Rect>, full: bool)
    requires RectState(was, qs, fs, ds, solid, caps, r, bg, nd, drawn, fulls) && |nd| < |was|
    requires var j := |nd|;
             && Split(r, bg', drawn + mine) && Handled(r, fs[j], ds[j], solid[j], full, mine, drawn + mine)
             && |mine| <= Touches(ds[j], r) && (full ==> |qs[j]| + Touches(ds[j], r) >= caps[j])
             && ViewShare(fs[j], ds[j], solid[j], r, drawn, caps[j] - 1 - |qs[j]|, mine)
    ensures RectState(was, qs[|nd| := qs[|nd|] + mine], fs, ds, solid, caps, r, bg', nd + [mine], drawn + mine, fulls + [full])
  {
    hide Split, IsUnion, Handled, HandledAll, Touches, Shares, ViewShare;
    SharesNext(was, fs, ds, solid, caps, r, nd, mine);
    UnionGrows(drawn, nd, mine);
    HandledNext(r, fs, ds, solid, fulls, nd, drawn, mine, full);
  }

  lemma RectEnds(was: seq<seq<Rect>>, qs: seq<seq<Rect>>, fs: seq<Rect>, ds: seq<seq<Rect>>, solid: seq<bool>, caps: seq<nat>, r: Rect,
                 bg: seq<Rect>, nd: seq<seq<Rect>>, drawn: seq<Rect>, fulls: seq<bool>)
    requires RectState(was, qs, fs, ds, solid, caps, r, bg, nd, drawn, fulls) && |nd| == |was|
    ensures forall i :: 0 <= i < |was| ==> qs[i] == was[i] + nd[i] && |nd[i]| <= Touches(ds[i], r)
    ensures SharedOut(r, bg, nd) && Shares(was, fs, ds, solid, caps, r, nd)
    ensures AllExact(ds, fs) && HasRoom(was, ds, caps, r) ==> Painted(r, fs, solid, bg, nd)
  {
    hide Shares, Split, IsUnion, HandledAll, Painted, SharedOut, AllExact, Touches;
    SplitIsShare(r, bg, drawn, nd);
    if AllExact(ds, fs) && HasRoom(was, ds, caps, r) {
      assert forall i :: 0 <= i < |fulls| ==> !fulls[i];
      ExactIsPainted(r, fs, ds, solid, bg, nd, drawn, fulls);
    }
  }

  /** One dirty rectangle: `bg` is what the background is blitted into, `nd` what each view has to draw. */
  method CompositeRect(vs: seq<View>, r: Rect) returns (bg: seq<Rect>, ghost nd: seq<seq<Rect>>)
    requires Distinct(vs) && r.Positive()
    modifies vs
    ensures Frames(vs) == old(Frames(vs)) && Drawables(vs) == old(Drawables(vs))
    ensures |nd| == |vs| && forall i :: 0 <= i < |vs| ==>
              Queues(vs)[i] == old(Queues(vs))[i] + nd[i] && |nd[i]| <= Touches(Drawables(vs)[i], r)
    ensures SharedOut(r, bg, nd)
    ensures Shares(old(Queues(vs)), Frames(vs), Drawables(vs), Solids(vs), Capacities(vs), r, nd)
    ensures AllExact(Drawables(vs), Frames(vs)) && HasRoom(old(Queues(vs)), Drawables(vs), Capacities(vs), r) ==>
              Painted(r, Frames(vs), Solids(vs), bg, nd)
  {
    hide Frames, Drawables, Queues, Solids, Capacities, RectState, AllExact, HasRoom, Painted, SharedOut, Touches, Distinct, Shares;
    ghost var was, fs, ds, solid, caps := Queues(vs), Frames(vs), Drawables(vs), Solids(vs), Capacities(vs);
    bg, nd := [r], [];
    ghost var drawn: seq<Rect> := [];
    ghost var fulls: seq<bool> := [];
    RectStarts(was, fs, ds, solid, caps, r);
    for j := 0 to |vs|
      invariant |nd| == |fulls| == j && Frames(vs) == fs && Drawables(vs) == ds
      invariant RectState(was, Queues(vs), fs, ds, solid, caps, r, bg, nd, drawn, fulls)
    {
      ghost var mine, full;
      bg, mine, full := VisitAt(vs, j, r, bg, was, nd, drawn, fulls);
      drawn := drawn + mine;
      nd := nd + [mine];
      fulls := fulls + [full];
    }
    RectEnds(was, Queues(vs), fs, ds, solid, caps, r, bg, nd, drawn, fulls);
  }

  lemma RectSplit(was: seq<seq<Rect>>, qs: seq<seq<Rect>>, fs: seq<Rect>, ds: seq<seq<Rect>>, solid: seq<bool>, caps: seq<nat>, r: Rect,
                  bg: seq<Rect>, nd: seq<seq<Rect>>, drawn: seq<Rect>, fulls: seq<bool>)
    requires RectState(was, qs, fs, ds, solid, caps, r, bg, nd, drawn, fulls)
    ensures Split(r, bg, drawn) && |was| == |qs|
  {
  }

  /** One pass of the view loop. */
  method VisitAt(vs: seq<View>, j: nat, r: Rect, free: seq<Rect>, ghost was: seq<seq<Rect>>, ghost nd: seq<seq<Rect>>,
                 ghost drawn: seq<Rect>, ghost fulls: seq<bool>)
    returns (free': seq<Rect>, ghost mine: seq<Rect>, ghost full: bool)
    requires Distinct(vs) && r.Positive() && j == |nd| < |vs|
    requires RectState(was, Queues(vs), Frames(vs), Drawables(vs), Solids(vs), Capacities(vs), r, free, nd, drawn, fulls)
    modifies vs
    ensures Frames(vs) == old(Frames(vs)) && Drawables(vs) == old(Drawables(vs))
    ensures RectState(was, Queues(vs), Frames(vs), Drawables(vs), Solids(vs), Capacities(vs), r, free', nd + [mine], drawn + mine, fulls + [full])
  {
    hide Frames, Drawables, Queues, Solids, Capacities, RectState, Split, Handled, Touches, Distinct, Intersects, ViewShare;
    DistinctIff(vs);
    ghost var qs, fs, ds, solid, caps := Queues(vs), Frames(vs), Drawables(vs), Solids(vs), Capacities(vs);
    RectSplit(was, qs, fs, ds, solid, caps, r, free, nd, drawn, fulls);
    free', mine, full := VisitView(vs[j], r, free, drawn);
    assert Frames(vs) == fs && Drawables(vs) == ds && Queues(vs) == qs[j := qs[j] + mine];
    RectNext(was, qs, fs, ds, solid, caps, r, free, nd, drawn, fulls, free', mine, full);
  }

  lemma DistinctIff(vs: seq<View>)
    requires Distinct(vs)
    ensures forall i, j :: 0 <= i < |vs| && 0 <= j < |vs| && i != j ==> vs[i] != vs[j]
  {
  }

  /** The part of the view loop behind `array_lookup`: transparent views and views elsewhere are skipped. */
  method VisitView(view: View, r: Rect, free: seq<Rect>, ghost drawn: seq<Rect>)
    returns (free': seq<Rect>, ghost mine: seq<Rect>, ghost full: bool)
    requires r.Positive() && Split(r, free, drawn)
    modifies view`extraDraws
    ensures Split(r, free', drawn + mine) && view.extraDraws == old(view.extraDraws) + mine
    ensures |mine| <= Touches(view.drawable, r)
    ensures full ==> |old(view.extraDraws)| + Touches(view.drawable, r) >= view.capacity
    ensures !view.opaque_ || !Intersects(view.frame, r) ==> mine == [] && free' == free && !full
    ensures Handled(r, view.frame, view.drawable, view.opaque_, full, mine, drawn + mine)
    ensures ViewShare(view.frame, view.drawable, view.opaque_, r, drawn, view.capacity - 1 - |old(view.extraDraws)|, mine)
  {
    free', mine, full := free, [], false;
    assert drawn + mine == drawn;
    if !view.opaque_ { return; }
    if !Intersects(view.frame, r) { return; }
    hide Split, Inside, Reached, ShareTo;
    ghost var end;
    free', mine, full, end := QueueView(view, r, free, drawn);
  }

  /** All draws, view by view. */
  ghost function Flat(nd: seq<seq<Rect>>): seq<Rect> { if nd == [] then [] else Flat(nd[..|nd| - 1]) + nd[|nd| - 1] }

  /** The shares of the first `|nd|` views, each given what those above it have taken. */
  ghost predicate Shares(was: seq<seq<Rect>>, fs: seq<Rect>, ds: seq<seq<Rect>>, solid: seq<bool>, caps: seq<nat>, r: Rect, nd: seq<seq<Rect>>) {
    && |nd| <= |was| == |fs| == |ds| == |solid| == |caps|
    && forall i :: 0 <= i < |nd| ==> ViewShare(fs[i], ds[i], solid[i], r, Flat(nd[..i]), caps[i] - 1 - |was[i]|, nd[i])
  }

  lemma SharesNext(was: seq<seq<Rect>>, fs: seq<Rect>, ds: seq<seq<Rect>>, solid: seq<bool>, caps: seq<nat>, r: Rect, nd: seq<seq<Rect>>,
                   mine: seq<Rect>)
    requires Shares(was, fs, ds, solid, caps, r, nd) && |nd| < |was|
    requires var j := |nd|; ViewShare(fs[j], ds[j], solid[j], r, Flat(nd), caps[j] - 1 - |was[j]|, mine)
    ensures Shares(was, fs, ds, solid, caps, r, nd + [mine]) && Flat(nd + [mine]) == Flat(nd) + mine
  {
    FlatNext(nd, mine);
    hide ViewShare, Flat;
    var nd' := nd + [mine];
    forall i | 0 <= i < |nd'|
      ensures ViewShare(fs[i], ds[i], solid[i], r, Flat(nd'[..i]), caps[i] - 1 - |was[i]|, nd'[i])
    {
      if i < |nd| {
        assert nd'[..i] == nd[..i] && nd'[i] == nd[i];
      } else {
        assert nd'[..i] == nd && nd'[i] == mine;
      }
    }
  }

  lemma FlatNext(nd: seq<seq<Rect>>, mine: seq<Rect>)
    ensures Flat(nd + [mine]) == Flat(nd) + mine
  {
    assert (nd + [mine])[..|nd|] == nd;
  }

  ghost predicate HandledAll(r: Rect, fs: seq<Rect>, ds: seq<seq<Rect>>, solid: seq<bool>, fulls: seq<bool>, nd: seq<seq<Rect>>, drawn: seq<Rect>) {
    && |fulls| == |nd| <= |fs| == |ds| == |solid|
    && forall i :: 0 <= i < |nd| ==> Handled(r, fs[i], ds[i], solid[i], fulls[i], nd[i], drawn)
  }

  lemma HandledNext(r: Rect, fs: seq<Rect>, ds: seq<seq<Rect>>, solid: seq<bool>, fulls: seq<bool>, nd: seq<seq<Rect>>, drawn: seq<Rect>,
                    mine: seq<Rect>, full: bool)
    requires HandledAll(r, fs, ds, solid, fulls, nd, drawn) && |nd| < |fs| == |ds| == |solid|
    requires var j := |nd|; Handled(r, fs[j], ds[j], solid[j], full, mine, drawn + mine)
    ensures HandledAll(r, fs, ds, solid, fulls + [full], nd + [mine], drawn + mine)
  {
    forall i | 0 <= i < |nd| + 1
      ensures Handled(r, fs[i], ds[i], solid[i], (fulls + [full])[i], (nd + [mine])[i], drawn + mine)
    {
      if i < |nd| { HandledGrows(r, fs[i], ds[i], solid[i], fulls[i], nd[i], drawn, mine); }
    }
  }

  lemma SplitIsShare(r: Rect, bg: seq<Rect>, drawn: seq<Rect>, nd: seq<seq<Rect>>)
    requires Split(r, bg, drawn) && IsUnion(drawn, nd)
    ensures SharedOut(r, bg, nd)
  {
  }

  lemma StartSplit(r: Rect, fs: seq<Rect>, ds: seq<seq<Rect>>, solid: seq<bool>)
    requires r.Positive() && |fs| == |ds| == |solid|
    ensures Split(r, [r], []) && IsUnion([], []) && HandledAll(r, fs, ds, solid, [], [], [])
  {
    forall px, py
      ensures InAny([r], px, py) <==> In(r, px, py)
    {
      assert In([r][0], px, py) <==> InAny([r], px, py);
    }
  }

  // ----- a whole frame -----

  /** View `i`'s queue after the first `n` dirty rectangles. */
  ghost function QueueAt(was: seq<Rect>, nds: seq<seq<seq<Rect>>>, i: nat, n: nat): (q: seq<Rect>)
    requires n <= |nds| && forall m :: 0 <= m < |nds| ==> i < |nds[m]|
  {
    if n == 0 then was else QueueAt(was, nds, i, n - 1) + nds[n - 1][i]
  }

  lemma {:induction false} QueueAtPrefix(was: seq<Rect>, nds: seq<seq<seq<Rect>>>, nd: seq<seq<Rect>>, i: nat, n: nat)
    requires n <= |nds| && i < |nd| && forall m :: 0 <= m < |nds| ==> i < |nds[m]|
    ensures forall m :: 0 <= m < |nds| + 1 ==> i < |(nds + [nd])[m]|
    ensures QueueAt(was, nds + [nd], i, n) == QueueAt(was, nds, i, n)
  {
    assert forall m :: 0 <= m < |nds| ==> (nds + [nd])[m] == nds[m];
    if n > 0 { QueueAtPrefix(was, nds, nd, i, n - 1); }
  }

  /** All views' queues after the first `n` dirty rectangles. */
  ghost function QueuesAt(was: seq<seq<Rect>>, nds: seq<seq<seq<Rect>>>, n: nat): (qs: seq<seq<Rect>>)
    requires n <= |nds| && forall m :: 0 <= m < |nds| ==> |nds[m]| == |was|
    ensures |qs| == |was|
  {
    seq(|was|, i requires 0 <= i < |was| => QueueAt(was[i], nds, i, n))
  }

  lemma QueuesAtNext(was: seq<seq<Rect>>, nds: seq<seq<seq<Rect>>>, nd: seq<seq<Rect>>)
    requires |nd| == |was| && forall m :: 0 <= m < |nds| ==> |nds[m]| == |was|
    ensures var nds' := nds + [nd];
            && (forall m :: 0 <= m < |nds'| ==> |nds'[m]| == |was|)
            && (forall n :: 0 <= n <= |nds| ==> QueuesAt(was, nds', n) == QueuesAt(was, nds, n))
            && forall i :: 0 <= i < |was| ==> QueuesAt(was, nds', |nds'|)[i] == QueuesAt(was, nds, |nds|)[i] + nd[i]
  {
    var nds' := nds + [nd];
    forall n, i | 0 <= n <= |nds| && 0 <= i < |was|
      ensures QueueAt(was[i], nds', i, n) == QueueAt(was[i], nds, i, n)
    {
      QueueAtPrefix(was[i], nds, nd, i, n);
    }
    assert forall n :: 0 <= n <= |nds| ==> QueuesAt(was, nds', n) == QueuesAt(was, nds, n);
  }

  /** The same count over all dirty rectangles of a frame. */
  function TouchesAll(d: seq<Rect>, dirty: seq<Rect>): (n: nat) {
    if dirty == [] then 0 else TouchesAll(d, dirty[..|dirty| - 1]) + Touches(d, dirty[|dirty| - 1])
  }

  lemma {:induction false} TouchesMore(d: seq<Rect>, dirty: seq<Rect>, n: nat)
    requires n < |dirty|
    ensures TouchesAll(d, dirty[..n + 1]) == TouchesAll(d, dirty[..n]) + Touches(d, dirty[n])
    ensures TouchesAll(d, dirty[..n + 1]) <= TouchesAll(d, dirty)
  {
    assert dirty[..n + 1][..n] == dirty[..n];
    if n + 1 < |dirty| {
      TouchesMore(d, dirty[..|dirty| - 1], n);
      assert dirty[..|dirty| - 1][..n + 1] == dirty[..n + 1];
    } else {
      assert dirty[..n + 1] == dirty;
    }
  }

  /** Queues `was` have room for what the visible rectangles `ds` touch of the dirty rectangles. */
  ghost predicate RoomFor(was: seq<seq<Rect>>, ds: seq<seq<Rect>>, caps: seq<nat>, dirty: seq<Rect>) {
    |was| == |ds| == |caps| && forall i :: 0 <= i < |was| ==> |was[i]| + TouchesAll(ds[i], dirty) < caps[i]
  }

  /** One dirty rectangle shared out, given the queues before it. */
  ghost predicate RectDone(was: seq<seq<Rect>>, fs: seq<Rect>, ds: seq<seq<Rect>>, solid: seq<bool>, caps: seq<nat>, r: Rect,
                           bg: seq<Rect>, nd: seq<seq<Rect>>, right: bool) {
    && |nd| == |fs| == |solid|
    && Shares(was, fs, ds, solid, caps, r, nd) && SharedOut(r, bg, nd) && (right ==> Painted(r, fs, solid, bg, nd))
  }

  lemma RectIsDone(was: seq<seq<Rect>>, fs: seq<Rect>, ds: seq<seq<Rect>>, solid: seq<bool>, caps: seq<nat>, r: Rect,
                   bg: seq<Rect>, nd: seq<seq<Rect>>, right: bool)
    requires |nd| == |fs| == |solid| && Shares(was, fs, ds, solid, caps, r, nd) && SharedOut(r, bg, nd)
    requires right ==> Painted(r, fs, solid, bg, nd)
    ensures RectDone(was, fs, ds, solid, caps, r, bg, nd, right)
  {
  }

  /** The queues and shares after the first `|bgs|` dirty rectangles of a frame. */
  ghost predicate FrameState(was: seq<seq<Rect>>, qs: seq<seq<Rect>>, fs: seq<Rect>, ds: seq<seq<Rect>>, solid: seq<bool>, caps: seq<nat>, dirty: seq<Rect>,
                             bgs: seq<seq<Rect>>, nds: seq<seq<seq<Rect>>>, right: bool) {
    && |was| == |qs| == |fs| == |ds| == |solid| == |caps| && |bgs| == |nds| <= |dirty| && (forall n :: 0 <= n < |nds| ==> |nds[n]| == |was|)
    && qs == QueuesAt(was, nds, |nds|) && (forall i :: 0 <= i < |was| ==> |qs[i]| <= |was[i]| + TouchesAll(ds[i], dirty[..|bgs|]))
    && (forall n :: 0 <= n < |bgs| ==> RectDone(QueuesAt(was, nds, n), fs, ds, solid, caps, dirty[n], bgs[n], nds[n], right))
  }

  lemma FrameStarts(was: seq<seq<Rect>>, fs: seq<Rect>, ds: seq<seq<Rect>>, solid: seq<bool>, caps: seq<nat>, dirty: seq<Rect>, right: bool)
    requires |was| == |fs| == |ds| == |solid| == |caps|
    ensures FrameState(was, was, fs, ds, solid, caps, dirty, [], [], right)
  {
    assert QueuesAt(was, [], 0) == was;
  }

  /** One dirty rectangle more. */
  lemma FrameNext(was: seq<seq<Rect>>, qs: seq<seq<Rect>>, qs': seq<seq<Rect>>, fs: seq<Rect>, ds: seq<seq<Rect>>, solid: seq<bool>,
                  caps: seq<nat>, dirty: seq<Rect>, bgs: seq<seq<Rect>>, nds: seq<seq<seq<Rect>>>, bg: seq<Rect>, nd: seq<seq<Rect>>, right: bool)
    requires FrameState(was, qs, fs, ds, solid, caps, dirty, bgs, nds, right) && |bgs| < |dirty| && |nd| == |qs| == |qs'|
    requires forall i :: 0 <= i < |qs| ==> qs'[i] == qs[i] + nd[i] && |nd[i]| <= Touches(ds[i], dirty[|bgs|])
    requires RectDone(qs, fs, ds, solid, caps, dirty[|bgs|], bg, nd, right)
    ensures FrameState(was, qs', fs, ds, solid, caps, dirty, bgs + [bg], nds + [nd], right)
  {
    hide RectDone, TouchesAll, Touches, QueuesAt;
    QueuesAtNext(was, nds, nd);
    forall i | 0 <= i < |was|
      ensures |qs'[i]| <= |was[i]| + TouchesAll(ds[i], dirty[..|bgs| + 1])
    {
      TouchesMore(ds[i], dirty, |bgs|);
    }
    assert qs' == QueuesAt(was, nds + [nd], |nds| + 1);
  }

  /** There is still room for the next dirty rectangle. */
  lemma RoomLeft(was: seq<seq<Rect>>, qs: seq<seq<Rect>>, fs: seq<Rect>, ds: seq<seq<Rect>>, solid: seq<bool>, caps: seq<nat>,
                 dirty: seq<Rect>, bgs: seq<seq<Rect>>, nds: seq<seq<seq<Rect>>>, right: bool)
    requires FrameState(was, qs, fs, ds, solid, caps, dirty, bgs, nds, right) && |bgs| < |dirty| && RoomFor(was, ds, caps, dirty)
    ensures HasRoom(qs, ds, caps, dirty[|bgs|])
  {
    forall i | 0 <= i < |was|
      ensures |qs[i]| + Touches(ds[i], dirty[|bgs|]) < caps[i]
    {
      TouchesMore(ds[i], dirty, |bgs|);
    }
  }

  lemma FrameEnds(was: seq<seq<Rect>>, qs: seq<seq<Rect>>, fs: seq<Rect>, ds: seq<seq<Rect>>, solid: seq<bool>, caps: seq<nat>, dirty: seq<Rect>,
                  bgs: seq<seq<Rect>>, nds: seq<seq<seq<Rect>>>, right: bool)
    requires FrameState(was, qs, fs, ds, solid, caps, dirty, bgs, nds, right) && |bgs| == |dirty|
    ensures (forall n :: 0 <= n < |nds| ==> |nds[n]| == |was|) && qs == QueuesAt(was, nds, |dirty|)
    ensures forall n :: 0 <= n < |dirty| ==> RectDone(QueuesAt(was, nds, n), fs, ds, solid, caps, dirty[n], bgs[n], nds[n], right)
  {
    hide RectDone, QueuesAt;
  }

  /** The dirty-rectangle loop of `compositor_render_frame`: `bgs[n]` and `nds[n]` are the shares of dirty rectangle `n`. */
  method RenderDirty(vs: seq<View>, dirty: seq<Rect>) returns (bgs: seq<seq<Rect>>, ghost nds: seq<seq<seq<Rect>>>)
    requires Distinct(vs) && AllPositive(dirty)
    modifies vs
    ensures Frames(vs) == old(Frames(vs)) && Drawables(vs) == old(Drawables(vs)) && |bgs| == |nds| == |dirty|
    ensures (forall n :: 0 <= n < |dirty| ==> |nds[n]| == |vs|) && Queues(vs) == QueuesAt(old(Queues(vs)), nds, |dirty|)
    ensures var right := AllExact(Drawables(vs), Frames(vs)) && RoomFor(old(Queues(vs)), Drawables(vs), Capacities(vs), dirty);
            forall n :: 0 <= n < |dirty| ==>
              RectDone(QueuesAt(old(Queues(vs)), nds, n), Frames(vs), Drawables(vs), Solids(vs), Capacities(vs), dirty[n], bgs[n], nds[n], right)
  {
    hide AllExact, Frames, Drawables, Painted, SharedOut, RectDone, QueuesAt, Shares, Solids, Queues, Capacities, RoomFor, FrameState, Distinct, AllPositive;
    ghost var was, fs, ds, solid, caps := Queues(vs), Frames(vs), Drawables(vs), Solids(vs), Capacities(vs);
    ghost var right := AllExact(ds, fs) && RoomFor(was, ds, caps, dirty);
    bgs, nds := [], [];
    FrameStarts(was, fs, ds, solid, caps, dirty, right);
    for n := 0 to |dirty|
      invariant |bgs| == |nds| == n && Frames(vs) == fs && Drawables(vs) == ds
      invariant FrameState(was, Queues(vs), fs, ds, solid, caps, dirty, bgs, nds, right)
    {
      var bg;
      ghost var nd;
      bg, nd := RenderOne(vs, dirty, n, was, bgs, nds, right);
      bgs := bgs + [bg];
      nds := nds + [nd];
    }
    FrameEnds(was, Queues(vs), fs, ds, solid, caps, dirty, bgs, nds, right);
  }

  lemma PositiveAt(rs: seq<Rect>, n: nat)
    requires AllPositive(rs) && n < |rs|
    ensures rs[n].Positive()
  {
  }

  /** One pass of that loop. */
  method RenderOne(vs: seq<View>, dirty: seq<Rect>, n: nat, ghost was: seq<seq<Rect>>, ghost bgs: seq<seq<Rect>>,
                   ghost nds: seq<seq<seq<Rect>>>, ghost right: bool) returns (bg: seq<Rect>, ghost nd: seq<seq<Rect>>)
    requires Distinct(vs) && AllPositive(dirty) && n == |bgs| < |dirty| && |was| == |vs|
    requires FrameState(was, Queues(vs), Frames(vs), Drawables(vs), Solids(vs), Capacities(vs), dirty, bgs, nds, right)
    requires right ==> AllExact(Drawables(vs), Frames(vs)) && RoomFor(was, Drawables(vs), Capacities(vs), dirty)
    modifies vs
    ensures Frames(vs) == old(Frames(vs)) && Drawables(vs) == old(Drawables(vs))
    ensures FrameState(was, Queues(vs), Frames(vs), Drawables(vs), Solids(vs), Capacities(vs), dirty, bgs + [bg], nds + [nd], right)
  {
    hide AllExact, Frames, Drawables, Painted, SharedOut, RectDone, QueuesAt, Shares, Solids, Queues, Capacities, RoomFor, FrameState, Distinct, AllPositive, Touches;
    ghost var qs, fs, ds, solid, caps := Queues(vs), Frames(vs), Drawables(vs), Solids(vs), Capacities(vs);
    PositiveAt(dirty, n);
    if right {
      RoomLeft(was, qs, fs, ds, solid, caps, dirty, bgs, nds, right);
    }
    bg, nd := CompositeRect(vs, dirty[n]);
    RectIsDone(qs, fs, ds, solid, caps, dirty[n], bg, nd, right);
    FrameNext(was, qs, Queues(vs), fs, ds, solid, caps, dirty, bgs, nds, bg, nd, right);
  }
}
