/** Which pixels of a stack of views are visible, and when a cache of them survives a change of the stack.
    Index 0 is the topmost view, as in `all_desktop_views` of programs/subprojects/awm/window.c. */
module Occlusion {
  import opened Options
  import opened Rects

  /** One of the first `n` frames covers the pixel. */
  ghost predicate Covered(fs: seq<Rect>, n: nat, px: int, py: int) {
    exists j :: 0 <= j < n && j < |fs| && In(fs[j], px, py)
  }

  /** The pixel belongs to view `i`: it is in its frame and in no frame above. */
  ghost predicate Shown(fs: seq<Rect>, i: nat, px: int, py: int) {
    i < |fs| && In(fs[i], px, py) && !Covered(fs, i, px, py)
  }

  /** The drawable rectangles `d` of view `i` are its frame minus everything above, in disjoint non-empty pieces. */
  ghost predicate Exact(d: seq<Rect>, fs: seq<Rect>, i: nat) {
    && AllPositive(d) && PairwiseDisjoint(d)
    && forall px, py :: InAny(d, px, py) <==> Shown(fs, i, px, py)
  }

  ghost predicate AllExact(ds: seq<seq<Rect>>, fs: seq<Rect>) {
    |ds| == |fs| && forall i :: 0 <= i < |fs| ==> Exact(ds[i], fs, i)
  }

  /** A view with an empty frame and an exact cache has no drawable rectangles. */
  lemma EmptyFrameEmptyCache(d: seq<Rect>, fs: seq<Rect>, i: nat)
    requires Exact(d, fs, i) && i < |fs|
    ensures fs[i].Positive() || d == []
  {
    if d != [] {
      assert In(d[0], d[0].x, d[0].y);
      assert InAny(d, d[0].x, d[0].y);
      assert Shown(fs, i, d[0].x, d[0].y);
    }
  }

  lemma ExactAt(ds: seq<seq<Rect>>, fs: seq<Rect>, i: nat)
    requires AllExact(ds, fs) && i < |fs|
    ensures Exact(ds[i], fs, i)
    ensures AllPositive(ds[i]) && PairwiseDisjoint(ds[i])
    ensures fs[i].Positive() || ds[i] == []
  {
    EmptyFrameEmptyCache(ds[i], fs, i);
  }

  /** No pixel is drawn by two views. */
  lemma ShownOnce(fs: seq<Rect>, i: nat, j: nat, px: int, py: int)
    requires Shown(fs, i, px, py) && Shown(fs, j, px, py)
    ensures i == j
  {
  }

  /** Every pixel inside some frame belongs to exactly one view, the topmost one there. */
  lemma {:induction false} SomeViewShows(fs: seq<Rect>, n: nat, px: int, py: int) returns (i: nat)
    requires n <= |fs| && Covered(fs, n, px, py)
    ensures i < n && Shown(fs, i, px, py)
  {
    if Covered(fs, n - 1, px, py) {
      i := SomeViewShows(fs, n - 1, px, py);
    } else {
      i := n - 1;
    }
  }

  // ----- recomputing one view -----

  /** The drawable rectangles of a list after subtracting frames down to index `j`. */
  ghost predicate Subtracted(d: seq<Rect>, fs: seq<Rect>, i: nat, j: nat) {
    && AllPositive(d) && PairwiseDisjoint(d) && i < |fs|
    && forall px, py :: InAny(d, px, py) <==> In(fs[i], px, py) && !(exists k :: j <= k < i && In(fs[k], px, py))
  }

  lemma SubtractedStart(fs: seq<Rect>, i: nat)
    requires i < |fs| && fs[i].Positive()
    ensures Subtracted([fs[i]], fs, i, i)
  {
    forall px, py
      ensures InAny([fs[i]], px, py) <==> In(fs[i], px, py)
    {
      assert In([fs[i]][0], px, py) <==> InAny([fs[i]], px, py);
    }
  }

  lemma SubtractNext(d: seq<Rect>, d': seq<Rect>, fs: seq<Rect>, i: nat, j: nat)
    requires Subtracted(d, fs, i, j + 1) && j < i
    requires AllPositive(d') && PairwiseDisjoint(d')
    requires (d' == d && !Intersects(fs[j], fs[i])) || IsRemainder(d', d, fs[j])
    ensures Subtracted(d', fs, i, j)
  {
    forall px, py
      ensures InAny(d', px, py) <==> In(fs[i], px, py) && !(exists k :: j <= k < i && In(fs[k], px, py))
    {
      if In(fs[j], px, py) && In(fs[i], px, py) { IntersectsIff(fs[j], fs[i]); }
      assert (exists k :: j <= k < i && In(fs[k], px, py)) <==> In(fs[j], px, py) || (exists k :: j + 1 <= k < i && In(fs[k], px, py));
    }
  }

  /** Once nothing is left, subtracting more changes nothing. */
  lemma SubtractedEmpty(fs: seq<Rect>, i: nat, j: nat)
    requires Subtracted([], fs, i, j)
    ensures Subtracted([], fs, i, 0)
  {
    forall px, py
      ensures !In(fs[i], px, py) || exists k :: 0 <= k < i && In(fs[k], px, py)
    {
      if In(fs[i], px, py) {
        assert !InAny([], px, py);
        var k :| j <= k < i && In(fs[k], px, py);
      }
    }
  }

  lemma SubtractedIsExact(d: seq<Rect>, fs: seq<Rect>, i: nat)
    requires Subtracted(d, fs, i, 0)
    ensures Exact(d, fs, i)
  {
    forall px, py
      ensures InAny(d, px, py) <==> Shown(fs, i, px, py)
    {
      assert Covered(fs, i, px, py) <==> exists k :: 0 <= k < i && In(fs[k], px, py);
    }
  }

  // ----- a change of the stack -----

  function Without<T>(s: seq<T>, a: Option<nat>): seq<T>
    requires a.Some? ==> a.value < |s|
  {
    if a.Some? then s[..a.value] + s[a.value + 1..] else s
  }

  /** The position in the full stack of the `j`-th view other than the one at `a`. */
  function Up(a: Option<nat>, j: nat): nat { if a.Some? && j >= a.value then j + 1 else j }

  lemma WithoutSize<T>(s: seq<T>, a: Option<nat>)
    requires a.Some? ==> a.value < |s|
    ensures |Without(s, a)| == |s| - if a.Some? then 1 else 0
  {
  }

  lemma WithoutAt<T>(s: seq<T>, a: Option<nat>, j: nat)
    requires (a.Some? ==> a.value < |s|) && j < |Without(s, a)|
    ensures Up(a, j) < |s| && Without(s, a)[j] == s[Up(a, j)]
  {
  }

  /** Away from the frame at `a`, what covers a view from above does not depend on that frame. */
  lemma CoveredWithout(fs: seq<Rect>, a: Option<nat>, j: nat, px: int, py: int)
    requires (a.Some? ==> a.value < |fs| && !In(fs[a.value], px, py)) && j < |Without(fs, a)|
    ensures Covered(fs, Up(a, j), px, py) <==> Covered(Without(fs, a), j, px, py)
  {
    hide Without, In;
    var gs := Without(fs, a);
    if Covered(fs, Up(a, j), px, py) {
      var k :| 0 <= k < Up(a, j) && k < |fs| && In(fs[k], px, py);
      var k' := if a.Some? && k > a.value then k - 1 else k;
      WithoutAt(fs, a, k');
      assert In(gs[k'], px, py);
    }
    if Covered(gs, j, px, py) {
      var k :| 0 <= k < j && k < |gs| && In(gs[k], px, py);
      WithoutAt(fs, a, k);
      assert In(fs[Up(a, k)], px, py);
    }
  }

  /** One view was moved, resized, raised, added or removed: the others kept their frames and their order. */
  ghost predicate Changed(fs: seq<Rect>, a: Option<nat>, fs': seq<Rect>, b: Option<nat>) {
    && (a.Some? ==> a.value < |fs|) && (b.Some? ==> b.value < |fs'|)
    && Without(fs, a) == Without(fs', b)
  }

  /** The rectangle covers the changed view's frame before and after. */
  ghost predicate CoversChange(r: Rect, fs: seq<Rect>, a: Option<nat>, fs': seq<Rect>, b: Option<nat>)
    requires Changed(fs, a, fs', b)
  {
    && (a.Some? ==> forall px, py :: In(fs[a.value], px, py) ==> In(r, px, py))
    && (b.Some? ==> forall px, py :: In(fs'[b.value], px, py) ==> In(r, px, py))
  }

  /** Another view that does not touch the rectangle shows the same pixels as before. */
  lemma OthersKeep(fs: seq<Rect>, a: Option<nat>, fs': seq<Rect>, b: Option<nat>, r: Rect, j: nat, d: seq<Rect>)
    requires Changed(fs, a, fs', b) && CoversChange(r, fs, a, fs', b) && j < |Without(fs, a)|
    requires !Intersects(Without(fs, a)[j], r) && Exact(d, fs, Up(a, j))
    ensures Exact(d, fs', Up(b, j))
  {
    WithoutAt(fs, a, j);
    WithoutAt(fs', b, j);
    forall px, py
      ensures Shown(fs, Up(a, j), px, py) <==> Shown(fs', Up(b, j), px, py)
    {
      if In(fs[Up(a, j)], px, py) {
        assert !In(r, px, py) by { if In(r, px, py) { IntersectsIff(Without(fs, a)[j], r); } }
        CoveredWithout(fs, a, j, px, py);
        CoveredWithout(fs', b, j, px, py);
      }
    }
  }

  /** One invalidation: views touching `r` are recomputed, the rest keep their rectangles. */
  ghost predicate Invalidated(ds: seq<seq<Rect>>, ds': seq<seq<Rect>>, fs: seq<Rect>, r: Rect) {
    && |ds| == |fs| && |ds'| == |fs|
    && forall i :: 0 <= i < |fs| ==> if Intersects(fs[i], r) then Exact(ds'[i], fs, i) else ds'[i] == ds[i]
  }

  /** The stack `fs` with caches `ds` becomes `fs'` with caches `ds'`: one view changes, at `a` before and `b` after,
      and every view takes its cache along. */
  ghost predicate Restacked(fs: seq<Rect>, ds: seq<seq<Rect>>, a: Option<nat>, fs': seq<Rect>, ds': seq<seq<Rect>>, b: Option<nat>) {
    && Changed(fs, a, fs', b) && |ds| == |fs| && |ds'| == |fs'|
    && Without(ds, a) == Without(ds', b)
    && (b.Some? ==> AllPositive(ds'[b.value]) && PairwiseDisjoint(ds'[b.value]))
  }

  /** The changed view's new frame is not empty, or it has no drawable rectangles that could go stale. */
  ghost predicate NothingStale(fs: seq<Rect>, ds: seq<seq<Rect>>, b: Option<nat>) {
    b.Some? ==> b.value < |fs| && b.value < |ds| && (fs[b.value].Positive() || ds[b.value] == [])
  }

  /** Incremental invalidation equals recomputing everything, exactly when the changed view leaves nothing stale. */
  lemma IncrementalIsFull(fs: seq<Rect>, ds: seq<seq<Rect>>, a: Option<nat>, fs': seq<Rect>, ds': seq<seq<Rect>>, b: Option<nat>,
                          ds'': seq<seq<Rect>>, r: Rect)
    requires AllExact(ds, fs) && Restacked(fs, ds, a, fs', ds', b) && CoversChange(r, fs, a, fs', b)
    requires Invalidated(ds', ds'', fs', r)
    ensures AllExact(ds'', fs') <==> NothingStale(fs', ds', b)
  {
    forall i | 0 <= i < |fs'| && !(b.Some? && i == b.value)
      ensures Exact(ds''[i], fs', i)
    {
      if !Intersects(fs'[i], r) {
        var j := if b.Some? && i > b.value then i - 1 else i;
        WithoutAt(fs', b, j);
        WithoutAt(fs, a, j);
        WithoutAt(ds', b, j);
        WithoutAt(ds, a, j);
        OthersKeep(fs, a, fs', b, r, j, ds[Up(a, j)]);
      }
    }
    if b.Some? {
      ChangedViewKeeps(fs', b.value, ds''[b.value], ds'[b.value], r);
    }
  }

  lemma ChangedViewKeeps(fs: seq<Rect>, i: nat, d: seq<Rect>, dc: seq<Rect>, r: Rect)
    requires i < |fs| && (forall px, py :: In(fs[i], px, py) ==> In(r, px, py)) && AllPositive(dc) && PairwiseDisjoint(dc)
    requires Intersects(fs[i], r) ==> Exact(d, fs, i)
    requires !Intersects(fs[i], r) ==> d == dc
    ensures Exact(d, fs, i) <==> fs[i].Positive() || dc == []
  {
    if fs[i].Positive() {
      assert In(fs[i], fs[i].x, fs[i].y);
      IntersectsIff(fs[i], r);
    } else {
      forall px, py
        ensures !Shown(fs, i, px, py)
      {
      }
      if dc != [] {
        assert In(dc[0], dc[0].x, dc[0].y);
        assert InAny(dc, dc[0].x, dc[0].y);
      }
    }
  }

  lemma TopViewExact(f: Rect)
    requires f.Positive()
    ensures Exact([f], [f], 0)
  {
    SubtractedStart([f], 0);
    SubtractedIsExact([f], [f], 0);
  }

  /** The failing case is real: a one-pixel view that shrinks to nothing keeps its pixel in the cache. */
  lemma ShrinkingGoesStale(f: Rect, f': Rect)
    requires f == Rect(0, 0, 1, 1) && f' == Rect(0, 0, 0, 0)
    ensures AllExact([[f]], [f]) && Restacked([f], [[f]], Some(0), [f'], [[f]], Some(0))
    ensures Invalidated([[f]], [[f]], [f'], f) && !AllExact([[f]], [f'])
  {
    TopViewExact(f);
    assert Exact([[f]][0], [f], 0);
    hide Exact;
    assert Without([f], Some(0)) == Without([f'], Some(0));
    if AllExact([[f]], [f']) {
      ExactAt([[f]], [f'], 0);
    }
  }
}
