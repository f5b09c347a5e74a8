/** The view lists of programs/subprojects/awm/window.c, each view's cached drawable rectangles, and the operations
    that change the stack and invalidate part of the cache. */
module Desktops {
  import opened Options
  import opened Rects
  import opened Occlusion

  class View {
    var frame: Rect
    var drawable: seq<Rect>
    var extraDraws: seq<Rect>
    const capacity: nat        // of extraDraws: 512 for windows, 256 for other views
    const opaque_: bool        // layer alpha of at least 1

    constructor (f: Rect, cap: nat, solid: bool)
      ensures frame == f && drawable == [] && extraDraws == [] && capacity == cap && opaque_ == solid
    {
      frame, drawable, extraDraws, capacity, opaque_ := f, [], [], cap, solid;
    }
  }

  ghost predicate Distinct(vs: seq<View>) { forall i, j :: 0 <= i < j < |vs| ==> vs[i] != vs[j] }

  ghost function Frames(vs: seq<View>): (fs: seq<Rect>)
    reads vs
    ensures |fs| == |vs| && forall i :: 0 <= i < |vs| ==> fs[i] == vs[i].frame
  {
    if vs == [] then [] else Frames(vs[..|vs| - 1]) + [vs[|vs| - 1].frame]
  }

  ghost function Drawables(vs: seq<View>): (ds: seq<seq<Rect>>)
    reads vs
    ensures |ds| == |vs| && forall i :: 0 <= i < |vs| ==> ds[i] == vs[i].drawable
  {
    if vs == [] then [] else Drawables(vs[..|vs| - 1]) + [vs[|vs| - 1].drawable]
  }

  /** A changed frame, its cache carried along, and a box around both frames. */
  lemma MoveRestacks(fs: seq<Rect>, ds: seq<seq<Rect>>, c: nat, f: Rect)
    requires AllExact(ds, fs) && c < |fs|
    ensures Restacked(fs, ds, Some(c), fs[c := f], ds, Some(c))
    ensures CoversChange(Bounds(fs[c], f), fs, Some(c), fs[c := f], Some(c))
  {
    assert Without(fs, Some(c)) == Without(fs[c := f], Some(c));
    assert Exact(ds[c], fs, c);
  }

  /** `array_index`: the first position of a view in a list, or -1. */
  function IndexOf(vs: seq<View>, v: View): (i: int)
    ensures -1 <= i < |vs| && (i == -1 <==> v !in vs) && (i >= 0 ==> vs[i] == v)
  {
    if vs == [] then -1
    else if vs[0] == v then 0
    else var i := IndexOf(vs[1..], v); if i == -1 then -1 else i + 1
  }

  /** `array_remove` of a view if it is in the list. */
  function Removed(vs: seq<View>, v: View): seq<View> {
    var i := IndexOf(vs, v);
    if i == -1 then vs else vs[..i] + vs[i + 1..]
  }

  /** The stack changes by one view taken out at `a` and put in at `b`; no view's fields change. */
  ghost predicate Swapped(vs: seq<View>, a: Option<nat>, vs': seq<View>, b: Option<nat>) {
    && (a.Some? ==> a.value < |vs|) && (b.Some? ==> b.value < |vs'|)
    && Without(vs, a) == Without(vs', b)
  }

  lemma SwapRestacks(vs: seq<View>, a: Option<nat>, vs': seq<View>, b: Option<nat>)
    requires Swapped(vs, a, vs', b)
    requires b.Some? ==> AllPositive(vs'[b.value].drawable) && PairwiseDisjoint(vs'[b.value].drawable)
    ensures Restacked(Frames(vs), Drawables(vs), a, Frames(vs'), Drawables(vs'), b)
  {
    hide Frames, Drawables, Without, AllPositive, PairwiseDisjoint;
    WithoutSize(vs, a);
    WithoutSize(vs', b);
    WithoutSize(Frames(vs), a);
    WithoutSize(Frames(vs'), b);
    WithoutSize(Drawables(vs), a);
    WithoutSize(Drawables(vs'), b);
    forall j | 0 <= j < |Without(vs, a)|
      ensures Without(Frames(vs), a)[j] == Without(Frames(vs'), b)[j]
      ensures Without(Drawables(vs), a)[j] == Without(Drawables(vs'), b)[j]
    {
      WithoutAt(vs, a, j);
      WithoutAt(vs', b, j);
      WithoutAt(Frames(vs), a, j);
      WithoutAt(Frames(vs'), b, j);
      WithoutAt(Drawables(vs), a, j);
      WithoutAt(Drawables(vs'), b, j);
    }
    assert Without(Frames(vs), a) == Without(Frames(vs'), b);
    assert Without(Drawables(vs), a) == Without(Drawables(vs'), b);
  }

  lemma SwapDistinct(vs: seq<View>, a: Option<nat>, vs': seq<View>, b: Option<nat>)
    requires Swapped(vs, a, vs', b) && Distinct(vs)
    requires b.Some? ==> vs'[b.value] !in Without(vs, a)
    ensures Distinct(vs')
  {
    forall i, j | 0 <= i < j < |vs'|
      ensures vs'[i] != vs'[j]
    {
      var i' := if b.Some? && i > b.value then i - 1 else i;
      var j' := if b.Some? && j > b.value then j - 1 else j;
      if b != Some(i) { assert Without(vs', b)[i'] == vs'[i]; WithoutAt(vs, a, i'); }
      if b != Some(j) { assert Without(vs', b)[j'] == vs'[j]; WithoutAt(vs, a, j'); }
    }
  }

  lemma FrameCovers(fs: seq<Rect>, a: Option<nat>, fs': seq<Rect>, b: Option<nat>, r: Rect, ds: seq<seq<Rect>>, ds': seq<seq<Rect>>)
    requires Restacked(fs, ds, a, fs', ds', b)
    requires (a.Some? ==> fs[a.value] == r) && (b.Some? ==> fs'[b.value] == r)
    ensures CoversChange(r, fs, a, fs', b)
  {
  }

  /** Moving one view up a distinct stack. */
  lemma RaiseSwaps(vs: seq<View>, vs': seq<View>, a: nat, b: nat)
    requires b <= a < |vs| && vs' == vs[..b] + [vs[a]] + vs[b..a] + vs[a + 1..] && Distinct(vs)
    ensures Swapped(vs, Some(a), vs', Some(b)) && Distinct(vs')
  {
    WithoutMiddle(vs[..b], vs[a], vs[b..a] + vs[a + 1..]);
    assert vs' == vs[..b] + [vs[a]] + (vs[b..a] + vs[a + 1..]);
    WithoutMiddle(vs[..a], vs[a], vs[a + 1..]);
    assert vs == vs[..a] + [vs[a]] + vs[a + 1..];
    assert vs[..a] == vs[..b] + vs[b..a];
    NotElsewhere(vs, a);
    hide Distinct, Without;
    SwapDistinct(vs, Some(a), vs', Some(b));
  }

  lemma WithoutMiddle(xs: seq<View>, v: View, ys: seq<View>)
    ensures Without(xs + [v] + ys, Some(|xs|)) == xs + ys
  {
  }

  lemma NotElsewhere(vs: seq<View>, a: nat)
    requires Distinct(vs) && a < |vs|
    ensures vs[a] !in Without(vs, Some(a))
  {
  }

  lemma HidesBelow(vs: seq<View>, i: nat, px: int, py: int)
    requires i < |vs| && In(vs[i].frame, px, py)
    ensures forall j :: i < j < |vs| ==> !Shown(Frames(vs), j, px, py)
  {
    hide In;
    assert In(Frames(vs)[i], px, py);
  }

  class Desktop {
    var dock: seq<View>          // windows_without_z_order
    var windows: seq<View>       // windows_with_z_order, topmost first
    var views: seq<View>         // desktop_views
    var toComposite: seq<View>   // views_to_composite_this_cycle

    /** `all_desktop_views`: the whole stack from the top. */
    function All(): seq<View>
      reads this
    {
      dock + windows + views
    }

    /** What a window of the dock covers shows no other window and no view of the desktop, and what a window covers shows
        no view of the desktop. */
    lemma ListsInOrder(px: int, py: int)
      ensures (exists v :: v in dock && In(v.frame, px, py)) ==>
                forall j :: |dock| <= j < |All()| ==> !Shown(Frames(All()), j, px, py)
      ensures (exists v :: v in windows && In(v.frame, px, py)) ==>
                forall j :: |dock| + |windows| <= j < |All()| ==> !Shown(Frames(All()), j, px, py)
    {
      hide In;
      if v :| v in dock && In(v.frame, px, py) {
        var i: nat :| i < |dock| && dock[i] == v;
        HidesBelow(All(), i, px, py);
      }
      if v :| v in windows && In(v.frame, px, py) {
        var i: nat :| i < |windows| && windows[i] == v;
        assert All()[|dock| + i] == v;
        HidesBelow(All(), |dock| + i, px, py);
      }
    }

    /** Every view's cache is its frame minus everything above it. */
    ghost predicate Cached()
      reads this, All()
    {
      Distinct(All()) && AllExact(Drawables(All()), Frames(All()))
    }

    /** Recompute the visible rectangles of view `i` of the stack. */
    method Recompute(view: View, vs: seq<View>, i: nat)
      requires i < |vs| && view == vs[i] && view.frame.Positive()
      modifies view`drawable
      ensures Exact(view.drawable, Frames(vs), i)
    {
      ghost var fs := Frames(vs);
      view.drawable := [view.frame];
      SubtractedStart(fs, i);
      var j := i;
      while j > 0
        invariant 0 <= j <= i
        invariant Frames(vs) == fs
        invariant Subtracted(view.drawable, fs, i, j)
      {
        j := j - 1;
        ghost var d := view.drawable;
        if Intersects(vs[j].frame, view.frame) {
          view.drawable := UpdateOcclusions(view.drawable, vs[j].frame);
        }
        SubtractNext(d, view.drawable, fs, i, j);
        if view.drawable == [] {
          SubtractedEmpty(fs, i, j);
          j := 0;
        }
      }
      SubtractedIsExact(view.drawable, fs, i);
    }

    /** `desktop_view_queue_composite`. */
    method QueueComposite(view: View)
      modifies this`toComposite
      ensures toComposite == if view in old(toComposite) then old(toComposite) else old(toComposite) + [view]
    {
      if view !in toComposite {
        toComposite := toComposite + [view];
      }
    }

    /** Queued for compositing are those that were, and the views that touch `r` and show something. */
    ghost predicate TouchedQueued(was: seq<View>, r: Rect)
      reads this, All()
    {
      (set v | v in toComposite) == (set v | v in was) + (set v | v in All() && Intersects(v.frame, r) && v.drawable != [])
    }

    lemma SameQueued(was: seq<View>, was': seq<View>, r: Rect)
      requires TouchedQueued(was, r) && forall v :: v in was <==> v in was'
      ensures TouchedQueued(was', r)
    {
      assert (set v | v in was) == (set v | v in was');
    }

    lemma StillQueued(was: seq<View>, r: Rect, view: View)
      requires TouchedQueued(was, r) && view in was
      ensures view in toComposite
    {
      assert view in (set v | v in was) + (set v | v in All() && Intersects(v.frame, r) && v.drawable != []);
    }

    lemma CachedParts()
      requires Cached()
      ensures Distinct(All()) && AllExact(Drawables(All()), Frames(All()))
    {
    }

    /** What an invalidation does to view `i` of the stack, whose cache was `d`. */
    ghost predicate Refreshed(view: View, d: seq<Rect>, fs: seq<Rect>, i: nat, r: Rect)
      requires i < |fs|
      reads this, view
    {
      if Intersects(fs[i], r) then Exact(view.drawable, fs, i) else view.drawable == d
    }

    /** One pass of the invalidation loop. */
    method Refresh(view: View, vs: seq<View>, i: nat, r: Rect)
      requires i < |vs| && view == vs[i]
      modifies view`drawable, this`toComposite
      ensures Refreshed(view, old(view.drawable), old(Frames(vs)), i, r)
      ensures forall v :: v in toComposite <==> v in old(toComposite) || (v == view && Intersects(view.frame, r) && view.drawable != [])
    {
      ghost var fs := Frames(vs);
      if Intersects(view.frame, r) {
        Recompute(view, vs, i);
        assert Frames(vs) == fs;
        if view.drawable != [] {
          QueueComposite(view);
        }
      }
    }

    /** `windows_invalidate_drawable_regions_in_rect`: bottom view first. */
    method Invalidate(r: Rect)
      requires Distinct(All())
      modifies All(), this`toComposite
      ensures forall v :: v in All() ==> v.frame == old(v.frame) && v.extraDraws == old(v.extraDraws)
      ensures Frames(All()) == old(Frames(All()))
      ensures Invalidated(old(Drawables(All())), Drawables(All()), Frames(All()), r)
      ensures TouchedQueued(old(toComposite), r)
    {
      hide Exact, Intersects, Frames, Drawables;
      var vs := All();
      ghost var fs, ds := Frames(vs), Drawables(vs);
      var i := |vs|;
      while i > 0
        invariant 0 <= i <= |vs|
        invariant forall v :: v in vs ==> v.frame == old(v.frame) && v.extraDraws == old(v.extraDraws)
        invariant Frames(vs) == fs
        invariant forall k :: i <= k < |vs| ==> Refreshed(vs[k], ds[k], fs, k, r)
        invariant forall k :: 0 <= k < i ==> vs[k].drawable == ds[k]
        invariant forall v :: v in toComposite <==> v in old(toComposite) || exists k :: i <= k < |vs| && vs[k] == v && Intersects(v.frame, r) && v.drawable != []
      {
        i := i - 1;
        Refresh(vs[i], vs, i, r);
      }
    }

    /** A view moves or changes size and the box around both frames is invalidated.  The cache stays exact unless a
        view with drawable rectangles shrinks to nothing: then no rectangle touches it and its cache goes stale. */
    method SetFrame(view: View, f: Rect)
      requires Cached() && view in All()
      modifies All(), this`toComposite
      ensures view.frame == f && forall v :: v in All() && v != view ==> v.frame == old(v.frame)
      ensures Cached() <==> f.Positive() || old(view.drawable) == []
      ensures TouchedQueued(old(toComposite), Bounds(old(view.frame), f))
    {
      hide AllExact, Restacked, Changed, CoversChange, Invalidated, Bounds, Exact, Intersects, Frames, Drawables;
      ghost var vs := All();
      ghost var c: nat :| c < |vs| && vs[c] == view;
      ghost var fs, ds := Frames(vs), Drawables(vs);
      MoveRestacks(fs, ds, c, f);
      var was := view.frame;
      view.frame := f;
      forall i | 0 <= i < |vs|
        ensures Frames(vs)[i] == fs[c := f][i] && Drawables(vs)[i] == ds[i]
      {
      }
      assert Frames(vs) == fs[c := f] && Drawables(vs) == ds;
      Invalidate(Bounds(was, f));
      IncrementalIsFull(fs, ds, Some(c), fs[c := f], ds, Some(c), Drawables(vs), Bounds(was, f));
      assert vs == All() && Frames(vs) == fs[c := f];
    }

    /** The lists have just been edited: invalidating the edited view's frame makes every cache exact again. */
    method InvalidateSwap(view: View, ghost vs: seq<View>, ghost a: Option<nat>, ghost b: Option<nat>)
      requires Distinct(All()) && Swapped(vs, a, All(), b) && AllExact(Drawables(vs), Frames(vs))
      requires a.Some? ==> vs[a.value] == view
      requires b.Some? ==> All()[b.value] == view && AllPositive(view.drawable) && PairwiseDisjoint(view.drawable)
      requires b.Some? ==> view.frame.Positive() || view.drawable == []
      modifies All(), this`toComposite
      ensures Cached() && forall v :: v in All() ==> v.frame == old(v.frame)
      ensures TouchedQueued(old(toComposite), view.frame)
    {
      hide AllExact, Restacked, Changed, CoversChange, Invalidated, Exact, Intersects, Frames, Drawables, Distinct;
      ghost var vs' := All();
      ghost var fs, ds, fs', ds' := Frames(vs), Drawables(vs), Frames(vs'), Drawables(vs');
      SwapRestacks(vs, a, vs', b);
      FrameCovers(fs, a, fs', b, view.frame, ds, ds');
      Invalidate(view.frame);
      IncrementalIsFull(fs, ds, a, fs', ds', b, Drawables(vs'), view.frame);
    }

    /** `window_move_to_top`; windows outside the Z-order are left alone. */
    method RaiseWindow(window: View) returns (ok: bool)
      requires Cached()
      modifies this, All()
      ensures ok == (window in old(windows))
      ensures dock == old(dock) && views == old(views)
      ensures windows == if ok then [window] + Removed(old(windows), window) else old(windows)
      ensures Cached() && forall v :: v in old(All()) ==> v.frame == old(v.frame)
      ensures if ok then TouchedQueued(old(toComposite), window.frame) else toComposite == old(toComposite)
    {
      hide AllExact, Exact, Frames, Drawables, Distinct, Swapped, TouchedQueued;
      var idx := IndexOf(windows, window);
      if idx < 0 {
        return false;
      }
      ghost var vs := All();
      ghost var a, b := |dock| + idx, |dock|;
      ExactAt(Drawables(vs), Frames(vs), a);
      windows := [window] + (windows[..idx] + windows[idx + 1..]);
      RaiseInStack(old(dock), old(windows), views, idx);
      assert forall i :: 0 <= i < |All()| ==> All()[i] in vs;
      InvalidateSwap(window, vs, Some(a), Some(b));
      return true;
    }

    /** `desktop_views_add`: a new view goes to the bottom of the stack. */
    method AddView(view: View)
      requires Cached() && view !in All() && view.drawable == []
      modifies this, All(), view
      ensures dock == old(dock) && windows == old(windows) && views == old(views) + [view]
      ensures view in toComposite && TouchedQueued(old(toComposite) + [view], view.frame)
      ensures Cached() && view.frame == old(view.frame) && forall v :: v in old(All()) ==> v.frame == old(v.frame)
    {
      hide AllExact, Exact, Frames, Drawables, Distinct, Swapped, TouchedQueued, Cached;
      ghost var vs := All();
      CachedParts();
      views := views + [view];
      QueueComposite(view);
      ghost var queue := toComposite;
      assert All() == vs + [view];
      AddSwaps(vs, view);
      InvalidateSwap(view, vs, None, Some(|vs|));
      SameQueued(queue, old(toComposite) + [view], view.frame);
      StillQueued(queue, view.frame, view);
    }

    /** `desktop_view_remove_and_teardown`, for a view that is on the desktop. */
    method RemoveView(view: View)
      requires Cached() && view in views
      modifies this, All()
      ensures dock == old(dock) && windows == old(windows) && views == Removed(old(views), view)
      ensures Cached() && view !in All() && forall v :: v in old(All()) && v != view ==> v.frame == old(v.frame)
      ensures TouchedQueued(Removed(old(toComposite), view), view.frame)
    {
      hide AllExact, Exact, Frames, Drawables, Distinct, Swapped, Removed, TouchedQueued;
      ghost var vs := All();
      ghost var a := RemoveInStack(dock + windows, views, view);
      views := Removed(views, view);
      toComposite := Removed(toComposite, view);
      RemoveSwaps(vs, a, All());
      InvalidateSwap(view, vs, Some(a), None);
    }

    /** `window_destroy`, for a window that is on one of the two window lists. */
    method DestroyWindow(window: View)
      requires Cached() && (window in windows || window in dock)
      modifies this, All()
      ensures dock == Removed(old(dock), window) && windows == Removed(old(windows), window) && views == old(views)
      ensures Cached() && window !in All() && forall v :: v in old(All()) && v != window ==> v.frame == old(v.frame)
      ensures TouchedQueued(Removed(old(toComposite), window), window.frame)
    {
      hide AllExact, Exact, Frames, Drawables, Distinct, Swapped, Removed, TouchedQueued;
      ghost var vs := All();
      ghost var a := DestroyInStack(dock, windows, views, window);
      windows := Removed(windows, window);
      dock := Removed(dock, window);
      toComposite := Removed(toComposite, window);
      RemoveSwaps(vs, a, All());
      InvalidateSwap(window, vs, Some(a), None);
    }
  }

  lemma RaiseInStack(dock: seq<View>, windows: seq<View>, views: seq<View>, idx: nat)
    requires idx < |windows| && Distinct(dock + windows + views)
    ensures var vs := dock + windows + views;
            var vs' := dock + ([windows[idx]] + (windows[..idx] + windows[idx + 1..])) + views;
            && vs[|dock| + idx] == windows[idx] && vs'[|dock|] == windows[idx]
            && Swapped(vs, Some(|dock| + idx), vs', Some(|dock|)) && Distinct(vs')
            && forall v :: v in vs' <==> v in vs
  {
    hide Distinct, Swapped;
    var vs := dock + windows + views;
    var vs' := dock + ([windows[idx]] + (windows[..idx] + windows[idx + 1..])) + views;
    var a, b := |dock| + idx, |dock|;
    RaiseParts(dock, windows, views, idx);
    RaiseSwaps(vs, vs', a, b);
    RaiseSameViews(vs, vs', a, b);
  }

  lemma RaiseParts(dock: seq<View>, windows: seq<View>, views: seq<View>, idx: nat)
    requires idx < |windows|
    ensures var vs, b := dock + windows + views, |dock|;
            && vs[b + idx] == windows[idx]
            && dock + ([windows[idx]] + (windows[..idx] + windows[idx + 1..])) + views
               == vs[..b] + [vs[b + idx]] + vs[b..b + idx] + vs[b + idx + 1..]
  {
    var vs, b := dock + windows + views, |dock|;
    assert vs[..b] == dock && vs[b..b + idx] == windows[..idx];
    assert vs[b + idx + 1..] == windows[idx + 1..] + views;
  }

  lemma RaiseSameViews(vs: seq<View>, vs': seq<View>, a: nat, b: nat)
    requires b <= a < |vs| && vs' == vs[..b] + [vs[a]] + vs[b..a] + vs[a + 1..]
    ensures forall v :: v in vs' <==> v in vs
  {
    assert vs == vs[..b] + vs[b..a] + [vs[a]] + vs[a + 1..];
  }

  lemma AddSwaps(vs: seq<View>, view: View)
    requires Distinct(vs) && view !in vs
    ensures Swapped(vs, None, vs + [view], Some(|vs|)) && Distinct(vs + [view])
  {
    assert Without(vs + [view], Some(|vs|)) == vs;
  }

  lemma RemoveSwaps(vs: seq<View>, a: nat, vs': seq<View>)
    requires Distinct(vs) && a < |vs| && vs' == vs[..a] + vs[a + 1..]
    ensures Swapped(vs, Some(a), vs', None) && Distinct(vs') && vs[a] !in vs'
    ensures forall i :: 0 <= i < |vs'| ==> vs'[i] in vs
  {
    SwapDistinct(vs, Some(a), vs', None);
  }

  lemma RemoveInStack(above: seq<View>, views: seq<View>, v: View) returns (a: nat)
    requires v in views
    ensures var vs := above + views; a < |vs| && vs[a] == v && above + Removed(views, v) == vs[..a] + vs[a + 1..]
  {
    hide Removed;
    var i := RemovedIs(views, v);
    a := |above| + i;
    assert (above + views)[..a] == above + views[..i];
  }

  /** A window is on one list only, so taking it off both lists takes one view out of the stack. */
  lemma DestroyInStack(dock: seq<View>, windows: seq<View>, views: seq<View>, v: View) returns (a: nat)
    requires Distinct(dock + windows + views) && (v in dock || v in windows)
    ensures var vs := dock + windows + views;
            a < |vs| && vs[a] == v && Removed(dock, v) + Removed(windows, v) + views == vs[..a] + vs[a + 1..]
  {
    hide Distinct, Removed, IndexOf;
    ListsAreApart(dock, windows, views);
    if v in dock {
      a := RemovedIs(dock, v);
      var none := RemovedIs(windows, v);
      CutFirst(dock, windows, views, a);
    } else {
      var none := RemovedIs(dock, v);
      var i := RemovedIs(windows, v);
      a := |dock| + i;
      CutMiddle(dock, windows, views, i);
    }
  }

  lemma RemovedIs(vs: seq<View>, v: View) returns (i: nat)
    ensures v !in vs ==> Removed(vs, v) == vs
    ensures v in vs ==> i < |vs| && vs[i] == v && Removed(vs, v) == vs[..i] + vs[i + 1..]
  {
    i := 0;
    if v in vs {
      i := IndexOf(vs, v);
    }
    hide IndexOf;
  }

  lemma CutFirst<T>(ys: seq<T>, zs: seq<T>, us: seq<T>, i: nat)
    requires i < |ys|
    ensures var s := ys + zs + us;
            s[i] == ys[i] && (ys[..i] + ys[i + 1..]) + zs + us == s[..i] + s[i + 1..]
  {
  }

  lemma ListsAreApart(dock: seq<View>, windows: seq<View>, views: seq<View>)
    requires Distinct(dock + windows + views)
    ensures forall v :: v in dock ==> v !in windows
  {
    var vs := dock + windows + views;
    forall i, j | 0 <= i < |dock| && 0 <= j < |windows|
      ensures dock[i] != windows[j]
    {
      assert vs[i] == dock[i] && vs[|dock| + j] == windows[j];
    }
  }

  lemma CutMiddle<T>(xs: seq<T>, ys: seq<T>, zs: seq<T>, i: nat)
    requires i < |ys|
    ensures var s := xs + ys + zs;
            s[|xs| + i] == ys[i] && xs + (ys[..i] + ys[i + 1..]) + zs == s[..|xs| + i] + s[|xs| + i + 1..]
  {
  }
}
