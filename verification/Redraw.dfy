/** The queue of dirty rectangles of programs/subprojects/awm/composite.c, and what moving a view puts into it. */
module Redraw {
  import opened Rects

  /** A rectangle further right than the background reaches, level with it or taller, cuts nothing off. */
  lemma FarRightCutsNothing(bg: Rect, fg: Rect)
    requires bg.Positive() && fg.Positive() && fg.x > bg.MaxX() && fg.y <= bg.y && fg.MaxY() >= bg.MaxY()
    ensures DiffPieces(bg, fg) == []
  {
  }

  /** A view of 10 by 10 moved 20 pixels to the right: all of its old frame needs redrawing, and nothing is queued. */
  lemma FarMoveQueuesNothing(was: Rect, now: Rect)
    requires was == Rect(0, 0, 10, 10) && now == Rect(20, 0, 10, 10)
    ensures DiffPieces(was, now) == [] && !IsDifference([], was, now)
  {
    hide DiffPieces, IsDifference;
    FarRightCutsNothing(was, now);
    Uncovered(was, now, 0, 0);
  }

  lemma Uncovered(bg: Rect, fg: Rect, px: int, py: int)
    requires In(bg, px, py) && !In(fg, px, py)
    ensures !IsDifference([], bg, fg)
  {
    hide In;
    assert !InAny([], px, py);
  }

  /** The list without its empty rectangles. */
  function Solid(rs: seq<Rect>): (r: seq<Rect>)
    ensures |r| <= |rs|
  {
    if rs == [] then []
    else if rs[0].w == 0 || rs[0].h == 0 then Solid(rs[1..])
    else [rs[0]] + Solid(rs[1..])
  }

  function Reversed(rs: seq<Rect>): (r: seq<Rect>)
    ensures |r| == |rs|
  {
    if rs == [] then [] else Reversed(rs[1..]) + [rs[0]]
  }

  lemma {:induction false} SolidCovers(rs: seq<Rect>, px: int, py: int)
    ensures InAny(Solid(rs), px, py) <==> InAny(rs, px, py)
  {
    if rs != [] {
      SolidCovers(rs[1..], px, py);
      assert rs == [rs[0]] + rs[1..];
      InAnyConcat([rs[0]], rs[1..], px, py);
      InAnyConcat([rs[0]], Solid(rs[1..]), px, py);
      InAnyOne(rs[0], px, py);
    }
  }

  lemma {:induction false} ReversedCovers(rs: seq<Rect>, px: int, py: int)
    ensures InAny(Reversed(rs), px, py) <==> InAny(rs, px, py)
  {
    if rs != [] {
      ReversedCovers(rs[1..], px, py);
      assert rs == [rs[0]] + rs[1..];
      InAnyConcat([rs[0]], rs[1..], px, py);
      InAnyConcat(Reversed(rs[1..]), [rs[0]], px, py);
    }
  }

  lemma InAnyOne(r: Rect, px: int, py: int)
    ensures InAny([r], px, py) <==> In(r, px, py)
  {
    assert In([r][0], px, py) <==> InAny([r], px, py);
  }

  class RedrawQueue {
    var dirty: seq<Rect>      // _g_screen_rects_to_update_this_cycle
    const capacity: nat

    constructor (capacity: nat)
      ensures dirty == [] && this.capacity == capacity
    {
      dirty := [];
      this.capacity := capacity;
    }

    /** `compositor_queue_rect_to_redraw`: empty rectangles are dropped, and so is anything once the queue is full. */
    method QueueRect(r: Rect)
      modifies this`dirty
      ensures dirty == if r.w == 0 || r.h == 0 || |old(dirty)| + 1 >= capacity then old(dirty) else old(dirty) + [r]
    {
      if r.w == 0 || r.h == 0 {
        return;
      }
      if |dirty| + 1 >= capacity {
        return;
      }
      dirty := dirty + [r];
    }

    /** `compositor_queue_rect_difference_to_redraw`.  With room for four more rectangles, what is queued covers the
        old frame outside the new one if and only if the two overlap or the new one starts on the right or bottom
        edge of the old one.  Nothing outside the old frame is ever queued. */
    method QueueDifference(bg: Rect, fg: Rect) returns (ghost queued: seq<Rect>)
      requires bg.Positive() && fg.Positive()
      modifies this`dirty
      ensures dirty == old(dirty) + queued
      ensures forall px, py :: InAny(queued, px, py) ==> In(bg, px, py)
      ensures |old(dirty)| + 4 < capacity ==> queued == Solid(Reversed(DiffPieces(bg, fg)))
      ensures |old(dirty)| + 4 < capacity ==>
                (IsDifference(queued, bg, fg) <==> Intersects(bg, fg) || fg.x == bg.MaxX() || fg.y == bg.MaxY())
    {
      hide IsDifference, DiffPieces, PairwiseDisjoint, AllPositive, Intersects, Solid, Reversed, Within;
      var delta := RectDiff(bg, fg);
      queued := [];
      DeltaWithin(delta, bg);
      var i := |delta|;
      assert delta[..i] == delta;
      while i > 0
        invariant 0 <= i <= |delta| && dirty == old(dirty) + queued && |queued| <= |delta| - i
        invariant Within(queued, bg)
        invariant |old(dirty)| + 4 < capacity ==> queued + Solid(Reversed(delta[..i])) == Solid(Reversed(delta))
      {
        i := i - 1;
        var r := delta[i];
        QueueRect(r);
        QueueOne(delta, i, queued);
        WithinMore(delta, queued, bg, i);
        ghost var more := dirty[|old(dirty)|..];
        assert more == queued || more == queued + [r];
        queued := more;
      }
      assert delta[..0] == [];
      NothingLeft();
      SameCover(delta, bg, fg);
      WithinIs(queued, bg);
    }
  }

  ghost predicate Within(rs: seq<Rect>, bg: Rect) {
    forall px, py :: InAny(rs, px, py) ==> In(bg, px, py)
  }

  lemma WithinIs(rs: seq<Rect>, bg: Rect)
    requires Within(rs, bg)
    ensures forall px, py :: InAny(rs, px, py) ==> In(bg, px, py)
  {
  }

  lemma DeltaWithin(rs: seq<Rect>, bg: Rect)
    requires forall px, py :: InAny(rs, px, py) ==> In(bg, px, py)
    ensures Within(rs, bg) && Within([], bg)
  {
  }

  lemma WithinMore(rs: seq<Rect>, qs: seq<Rect>, bg: Rect, i: nat)
    requires Within(rs, bg) && Within(qs, bg) && i < |rs|
    ensures Within(qs + [rs[i]], bg)
  {
    forall px, py | InAny(qs + [rs[i]], px, py)
      ensures In(bg, px, py)
    {
      InAnyAppend(qs, rs[i], px, py);
      assert In(rs[i], px, py) ==> InAny(rs, px, py);
    }
  }

  lemma NothingLeft()
    ensures Solid(Reversed([])) == []
  {
  }

  /** Taking the last of the remaining rectangles. */
  lemma QueueOne(rs: seq<Rect>, i: nat, qs: seq<Rect>)
    requires i < |rs|
    ensures var r, rest := rs[i], Solid(Reversed(rs[..i]));
            qs + Solid(Reversed(rs[..i + 1])) == (if r.w == 0 || r.h == 0 then qs else qs + [r]) + rest
  {
    ReversedLast(rs[..i], rs[i]);
    assert rs[..i + 1] == rs[..i] + [rs[i]];
    assert ([rs[i]] + Reversed(rs[..i]))[1..] == Reversed(rs[..i]);
    assert qs + ([rs[i]] + Solid(Reversed(rs[..i]))) == qs + [rs[i]] + Solid(Reversed(rs[..i]));
  }

  lemma {:induction false} ReversedLast(rs: seq<Rect>, r: Rect)
    ensures Reversed(rs + [r]) == [r] + Reversed(rs)
  {
    if rs == [] {
      assert ([] + [r])[1..] == [];
    } else {
      assert (rs + [r])[1..] == rs[1..] + [r];
      ReversedLast(rs[1..], r);
    }
  }

  lemma SameCover(delta: seq<Rect>, bg: Rect, fg: Rect)
    ensures IsDifference(Solid(Reversed(delta)), bg, fg) <==> IsDifference(delta, bg, fg)
  {
    forall px, py
      ensures InAny(Solid(Reversed(delta)), px, py) <==> InAny(delta, px, py)
    {
      SolidCovers(Reversed(delta), px, py);
      ReversedCovers(delta, px, py);
    }
  }
}
