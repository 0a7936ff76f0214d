/** The damage region of core/src/region.c: a list of rectangles, its simplification and
    the scanline coverage test the pointer guard relies on. */
module Region {
  import opened Geometry
  import opened Numbers
  import opened Stacking

  /** How many intervals the coverage test can hold for one scanline. */
  const MAX_INTERVALS := 64

  ghost predicate NonEmpty(g: seq<Rect>) {
    forall i :: 0 <= i < |g| ==> !g[i].Empty()
  }

  ghost predicate Disjoint(g: seq<Rect>) {
    forall i, j :: 0 <= i < j < |g| ==> !g[i].Meets(g[j])
  }

  /** Some rectangle of g alone contains r. */
  ghost predicate Held(g: seq<Rect>, r: Rect) {
    exists i :: 0 <= i < |g| && g[i].Contains(r)
  }

  /** Every rectangle of a lies inside a single rectangle of b. */
  ghost predicate Within(a: seq<Rect>, b: seq<Rect>) {
    forall i {:trigger Held(b, a[i])} :: 0 <= i < |a| ==> Held(b, a[i])
  }

  lemma WithinTransitive(a: seq<Rect>, b: seq<Rect>, c: seq<Rect>)
    requires Within(a, b) && Within(b, c)
    ensures Within(a, c)
  {
    forall i | 0 <= i < |a| ensures Held(c, a[i]) {
      assert Held(b, a[i]);
      var j :| 0 <= j < |b| && b[j].Contains(a[i]);
      assert Held(c, b[j]);
      var k :| 0 <= k < |c| && c[k].Contains(b[j]);
      assert c[k].Contains(a[i]);
    }
  }

  lemma WithinKeepsCover(a: seq<Rect>, b: seq<Rect>, p: Point)
    requires Within(a, b) && Covers(a, p)
    ensures Covers(b, p)
  {
    var i :| 0 <= i < |a| && a[i].Has(p);
    assert Held(b, a[i]);
    var j :| 0 <= j < |b| && b[j].Contains(a[i]);
    assert b[j].Has(p);
  }

  method Add(g: seq<Rect>, r: Rect) returns (g': seq<Rect>)
    ensures g' == if r.Empty() then g else g + [r]
  {
    if r.Empty() { return g; }
    return g + [r];
  }

  /** Two rectangles that share a full edge, and the rectangle they form. */
  function Merged(a: Rect, b: Rect): (r: Rect)
    requires Mergeable(a, b) && !a.Empty() && !b.Empty()
    ensures r.Contains(a) && r.Contains(b) && !r.Empty()
    ensures forall p :: r.Has(p) <==> a.Has(p) || b.Has(p)
  {
    if a.x == b.x && a.w == b.w && a.y == b.Bottom() then Rect(a.x, b.y, a.w, a.h + b.h)
    else if a.x == b.x && a.w == b.w && b.y == a.Bottom() then Rect(a.x, a.y, a.w, a.h + b.h)
    else if a.x == b.Right() then Rect(b.x, a.y, a.w + b.w, a.h)
    else Rect(a.x, a.y, a.w + b.w, a.h)
  }

  predicate Mergeable(a: Rect, b: Rect) {
    || (a.x == b.x && a.w == b.w && (a.y == b.Bottom() || b.y == a.Bottom()))
    || (a.y == b.y && a.h == b.h && (a.x == b.Right() || b.x == a.Right()))
  }

  /** What one pair of the sweep becomes, when it becomes a single rectangle. */
  predicate Fuses(a: Rect, b: Rect) {
    Mergeable(a, b) || a.Contains(b) || b.Contains(a) || a.Meets(b)
  }

  function Fused(a: Rect, b: Rect): (r: Rect)
    requires Fuses(a, b) && !a.Empty() && !b.Empty()
    ensures r.Contains(a) && r.Contains(b) && !r.Empty()
  {
    if Mergeable(a, b) then Merged(a, b)
    else if a.Contains(b) then a
    else if b.Contains(a) then b
    else UnionBounds(a, b)
  }

  /** Replacing the pair (i, j) by its fusion keeps every rectangle inside one. */
  lemma FusionWithin(g: seq<Rect>, i: nat, j: nat)
    requires i < j < |g| && NonEmpty(g) && Fuses(g[i], g[j])
    ensures var h := RemoveAt(g[i := Fused(g[i], g[j])], j); Within(g, h) && NonEmpty(h)
  {
    var f := Fused(g[i], g[j]);
    var h := RemoveAt(g[i := f], j);
    assert h[i] == f;
    forall k | 0 <= k < |g| ensures Held(h, g[k]) {
      if k == i || k == j {
        assert h[i].Contains(g[k]);
      } else if k < j {
        assert h[k].Contains(g[k]);
      } else {
        assert h[k - 1].Contains(g[k]);
      }
    }
  }

  /** Replaces rectangle i by its fusion with rectangle j and removes rectangle j. */
  method Fuse(g: seq<Rect>, i: nat, j: nat, ghost g0: seq<Rect>, ghost bound: Rect) returns (h: seq<Rect>)
    requires i < j < |g| && NonEmpty(g) && Fuses(g[i], g[j]) && Within(g0, g) && AllIn(g, bound)
    ensures NonEmpty(h) && Within(g0, h) && |h| == |g| - 1 && AllIn(h, bound)
  {
    FusionWithin(g, i, j);
    h := RemoveAt(g[i := Fused(g[i], g[j])], j);
    WithinTransitive(g0, g, h);
    assert bound.Contains(Fused(g[i], g[j]));
  }

  /** The inner loop: fuse rectangle i with every later one it can be fused with. */
  method SimplifyRow(g0: seq<Rect>, i: nat, ghost bound: Rect) returns (g: seq<Rect>, removed: nat)
    requires NonEmpty(g0) && AllIn(g0, bound) && i < |g0|
    ensures NonEmpty(g) && Within(g0, g) && AllIn(g, bound)
    ensures i < |g| && |g| + removed == |g0|
    ensures removed == 0 ==> g == g0 && forall b :: i < b < |g| ==> !g[i].Meets(g[b])
  {
    g, removed := g0, 0;
    var j := i + 1;
    assert forall k :: 0 <= k < |g| ==> g[k].Contains(g[k]);
    while j < |g|
      invariant i < j <= |g| && |g| + removed == |g0|
      invariant NonEmpty(g) && Within(g0, g) && AllIn(g, bound)
      invariant removed == 0 ==> g == g0 && forall b :: i < b < j ==> !g[i].Meets(g[b])
      decreases |g| - j
    {
      if Fuses(g[i], g[j]) {
        g := Fuse(g, i, j, g0, bound);
        removed := removed + 1;
      } else {
        j := j + 1;
      }
    }
  }

  /** One sweep over the list. A sweep that removes nothing has looked at every pair, so its
      list is pairwise disjoint. */
  method SimplifyPass(g0: seq<Rect>, ghost bound: Rect) returns (g: seq<Rect>, removed: nat)
    requires NonEmpty(g0) && AllIn(g0, bound)
    ensures NonEmpty(g) && Within(g0, g) && AllIn(g, bound)
    ensures |g| + removed == |g0| && (g0 != [] ==> g != [])
    ensures removed == 0 ==> g == g0 && Disjoint(g)
  {
    g, removed := g0, 0;
    var i := 0;
    assert forall k :: 0 <= k < |g| ==> g[k].Contains(g[k]);
    while i < |g|
      invariant NonEmpty(g) && Within(g0, g) && AllIn(g, bound)
      invariant |g| + removed == |g0| && (g0 != [] ==> g != [])
      invariant removed == 0 ==> g == g0 && forall a, b :: 0 <= a < b < |g| && a < i ==> !g[a].Meets(g[b])
      decreases |g| - i
    {
      var h, n := SimplifyRow(g, i, bound);
      WithinTransitive(g0, g, h);
      g, removed, i := h, removed + n, i + 1;
    }
  }

  /** Sweeps until a sweep removes nothing. The sweep budget |g| + 2 always suffices: the
      result is pairwise disjoint, every input rectangle sits inside one result rectangle, and
      no result rectangle leaves a rectangle that bounded the input. */
  method Simplify(g0: seq<Rect>, ghost bound: Rect) returns (g: seq<Rect>)
    requires NonEmpty(g0) && AllIn(g0, bound)
    ensures NonEmpty(g) && Within(g0, g) && Disjoint(g) && AllIn(g, bound) && |g| <= |g0|
    ensures g0 != [] ==> g != []
  {
    g := g0;
    assert forall k :: 0 <= k < |g| ==> g[k].Contains(g[k]);
    if |g| < 2 { return; }
    var guard := |g| + 2;
    while guard > 0
      invariant NonEmpty(g) && Within(g0, g) && AllIn(g, bound)
      invariant 1 <= |g| <= |g0|
      invariant |g| + 2 <= guard
      decreases guard
    {
      guard := guard - 1;
      var removed;
      ghost var before := g;
      g, removed := SimplifyPass(g, bound);
      WithinTransitive(g0, before, g);
      if removed == 0 { break; }
      if |g| < 2 { break; }
    }
  }

  // ----------------------------------------------------------------- coverage

  function Line(r: Rect, y: int): Rect { Rect(r.x, y, r.w, 1) }

  /** How many rectangles of g touch scanline y of r. */
  function Hits(g: seq<Rect>, r: Rect, y: int): (n: nat)
    ensures n <= |g|
  {
    if g == [] then 0
    else Hits(g[..|g| - 1], r, y) + (if g[|g| - 1].Meets(Line(r, y)) then 1 else 0)
  }

  /** The columns lo <= x < hi of one scanline. */
  datatype Span = Span(lo: int, hi: int)

  ghost predicate OnSpan(iv: seq<Span>, x: int) {
    exists s :: s in iv && s.lo <= x < s.hi
  }

  ghost predicate Sorted(iv: seq<Span>) {
    forall i, j :: 0 <= i < j < |iv| ==> iv[i].lo <= iv[j].lo
  }

  /** Element i taken out and put back in front of place j. */
  function Inserted(iv: seq<Span>, i: nat, j: nat): (r: seq<Span>)
    requires j <= i < |iv|
    ensures |r| == |iv|
  {
    iv[..j] + [iv[i]] + iv[j..i] + iv[i + 1..]
  }

  lemma InsertedSame(iv: seq<Span>, i: nat, j: nat, s: Span)
    requires j <= i < |iv|
    ensures s in Inserted(iv, i, j) <==> s in iv
  {
    assert iv == iv[..j] + iv[j..i] + [iv[i]] + iv[i + 1..];
  }

  lemma InsertedSorted(iv: seq<Span>, i: nat, j: nat)
    requires j <= i < |iv| && Sorted(iv[..i])
    requires forall k :: j <= k < i ==> iv[i].lo < iv[k].lo
    requires j > 0 ==> iv[j - 1].lo <= iv[i].lo
    ensures Sorted(Inserted(iv, i, j)[..i + 1])
  {
    var r := Inserted(iv, i, j);
    assert forall k :: 0 <= k <= i ==>
      r[k] == if k < j then iv[k] else if k == j then iv[i] else iv[k - 1];
    assert forall a, b :: 0 <= a < b < i ==> iv[..i][a].lo <= iv[..i][b].lo;
  }

  /** The insertion sort of the coverage test: the same spans, by left end. */
  method SortSpans(iv0: seq<Span>) returns (iv: seq<Span>)
    ensures Sorted(iv) && |iv| == |iv0|
    ensures forall s :: s in iv <==> s in iv0
  {
    iv := iv0;
    for i := 0 to |iv|
      invariant |iv| == |iv0| && Sorted(iv[..i])
      invariant forall s :: s in iv <==> s in iv0
    {
      var s, j := iv[i], i;
      while j > 0 && iv[j - 1].lo > s.lo
        invariant 0 <= j <= i
        invariant forall k :: j <= k < i ==> s.lo < iv[k].lo
      {
        j := j - 1;
      }
      InsertedSorted(iv, i, j);
      forall s ensures s in Inserted(iv, i, j) <==> s in iv { InsertedSame(iv, i, j, s); }
      iv := Inserted(iv, i, j);
    }
    assert iv[..|iv|] == iv;
  }

  lemma HitsMonotone(g: seq<Rect>, i: nat, r: Rect, y: int)
    requires i <= |g|
    ensures Hits(g[..i], r, y) <= Hits(g, r, y)
    decreases |g|
  {
    if i < |g| {
      HitsMonotone(g[..|g| - 1], i, r, y);
      assert g[..|g| - 1][..i] == g[..i];
    } else {
      assert g[..i] == g;
    }
  }

  ghost predicate SpansInside(iv: seq<Span>, r: Rect) {
    forall s :: s in iv ==> r.x <= s.lo < s.hi <= r.Right()
  }

  lemma OnSpanAppend(iv: seq<Span>, s: Span, x: int)
    ensures OnSpan(iv + [s], x) <==> OnSpan(iv, x) || s.lo <= x < s.hi
  {
    if OnSpan(iv, x) {
      var t :| t in iv && t.lo <= x < t.hi;
      assert t in iv + [s];
    }
    if s.lo <= x < s.hi {
      assert s in iv + [s];
    }
  }

  /** The spans of scanline y of r, at most MAX_INTERVALS of them. */
  method CollectSpans(g: seq<Rect>, r: Rect, y: int) returns (iv: seq<Span>)
    requires 0 < r.w
    ensures SpansInside(iv, r) && |iv| == Min(Hits(g, r, y), MAX_INTERVALS)
    ensures |iv| < MAX_INTERVALS ==>
      forall x :: r.x <= x < r.Right() ==> (OnSpan(iv, x) <==> Covers(g, Point(x, y)))
  {
    iv := [];
    var i := 0;
    while i < |g| && |iv| < MAX_INTERVALS
      invariant 0 <= i <= |g| && |iv| == Hits(g[..i], r, y) <= MAX_INTERVALS
      invariant SpansInside(iv, r)
      invariant forall x :: r.x <= x < r.Right() ==> (OnSpan(iv, x) <==> Covers(g[..i], Point(x, y)))
    {
      var h := Intersect(g[i], Line(r, y));
      assert g[..i + 1] == g[..i] + [g[i]];
      forall x | r.x <= x < r.Right()
        ensures Covers(g[..i + 1], Point(x, y)) <==>
          Covers(g[..i], Point(x, y)) || (!h.Empty() && h.x <= x < h.Right())
      {
        assert h.Has(Point(x, y)) <==> g[i].Has(Point(x, y)) && Line(r, y).Has(Point(x, y));
        CoversAppend(g[..i], g[i], Point(x, y));
      }
      if !h.Empty() {
        forall x ensures OnSpan(iv + [Span(h.x, h.Right())], x) <==> OnSpan(iv, x) || h.x <= x < h.Right() {
          OnSpanAppend(iv, Span(h.x, h.Right()), x);
        }
        iv := iv + [Span(h.x, h.Right())];
      }
      i := i + 1;
    }
    HitsMonotone(g, i, r, y);
    assert |iv| < MAX_INTERVALS ==> g[..i] == g;
  }

  /** Left to right over sorted spans: is every column of [lo, hi) on one of them? */
  method Sweep(iv: seq<Span>, lo: int, hi: int) returns (yes: bool)
    requires lo <= hi && Sorted(iv) && forall s :: s in iv ==> lo <= s.lo < s.hi <= hi
    ensures yes <==> forall x :: lo <= x < hi ==> OnSpan(iv, x)
  {
    var reach, k := lo, 0;
    while k < |iv|
      invariant 0 <= k <= |iv| && lo <= reach <= hi
      invariant forall x :: lo <= x < reach ==> OnSpan(iv, x)
      invariant forall m :: 0 <= m < k ==> iv[m].hi <= reach
    {
      if iv[k].lo > reach {
        assert iv[k] in iv;
        assert !OnSpan(iv, reach);
        return false;
      }
      if iv[k].hi > reach {
        forall x | reach <= x < iv[k].hi ensures OnSpan(iv, x) { assert iv[k] in iv; }
        reach := iv[k].hi;
        assert iv[k] in iv;
      }
      k := k + 1;
      if reach >= hi { break; }
    }
    if reach < hi {
      assert !OnSpan(iv, reach);
      return false;
    }
    return true;
  }

  /** Every pixel of scanline y of r is covered. */
  ghost predicate LineCovered(g: seq<Rect>, r: Rect, y: int) {
    forall x :: r.x <= x < r.Right() ==> Covers(g, Point(x, y))
  }

  /** One scanline of the coverage test. It answers yes to a covered line, and to any line
      that at least MAX_INTERVALS rectangles touch. */
  method CoversLine(g: seq<Rect>, r: Rect, y: int) returns (yes: bool)
    requires 0 < r.w
    ensures yes <==> Hits(g, r, y) >= MAX_INTERVALS || LineCovered(g, r, y)
  {
    var found := CollectSpans(g, r, y);
    if found == [] {
      assert !OnSpan(found, r.x);
      assert !Covers(g, Point(r.x, y));
      return false;
    }
    if |found| >= MAX_INTERVALS { return true; }
    var iv := SortSpans(found);
    assert forall x :: OnSpan(iv, x) <==> OnSpan(found, x);
    yes := Sweep(iv, r.x, r.Right());
  }

  /** What ml_region_covers_rect answers, exactly. */
  ghost predicate SaysCovered(g: seq<Rect>, r: Rect) {
    r.Empty() || forall y :: r.y <= y < r.Bottom() ==>
      Hits(g, r, y) >= MAX_INTERVALS || LineCovered(g, r, y)
  }

  method CoversRect(g: seq<Rect>, r: Rect) returns (yes: bool)
    ensures yes <==> SaysCovered(g, r)
  {
    if r.Empty() { return true; }
    for y := r.y to r.Bottom()
      invariant forall v :: r.y <= v < y ==> Hits(g, r, v) >= MAX_INTERVALS || LineCovered(g, r, v)
    {
      yes := CoversLine(g, r, y);
      if !yes { return; }
    }
    return true;
  }

  /** The leftmost columns, on scanline y of r, of the rectangles of g that touch it. */
  ghost function Lefts(g: seq<Rect>, r: Rect, y: int): (s: set<int>)
  {
    if g == [] then {}
    else
      var h := Intersect(g[|g| - 1], Line(r, y));
      Lefts(g[..|g| - 1], r, y) + (if h.Empty() then {} else {h.x})
  }

  lemma LeftsHit(g: seq<Rect>, r: Rect, y: int, x: int)
    requires x in Lefts(g, r, y)
    ensures Covers(g, Point(x, y)) && r.x <= x < r.Right()
  {
    var n := |g| - 1;
    var h := Intersect(g[n], Line(r, y));
    assert g == g[..n] + [g[n]];
    CoversAppend(g[..n], g[n], Point(x, y));
    if x in Lefts(g[..n], r, y) {
      LeftsHit(g[..n], r, y, x);
    } else {
      assert h.Has(Point(x, y));
    }
  }

  /** Disjoint rectangles leave a different column each on the scanlines they touch. */
  lemma {:induction false} DisjointLefts(g: seq<Rect>, r: Rect, y: int)
    requires Disjoint(g)
    ensures |Lefts(g, r, y)| == Hits(g, r, y)
  {
    if g != [] {
      var n := |g| - 1;
      DisjointLefts(g[..n], r, y);
      NewColumn(g[..n], g[n], r, y);
    }
  }

  lemma NewColumn(g: seq<Rect>, e: Rect, r: Rect, y: int)
    requires forall i :: 0 <= i < |g| ==> !g[i].Meets(e)
    ensures var h := Intersect(e, Line(r, y)); h.Empty() || h.x !in Lefts(g, r, y)
  {
    var h := Intersect(e, Line(r, y));
    if !h.Empty() && h.x in Lefts(g, r, y) {
      LeftsHit(g, r, y, h.x);
      var i :| 0 <= i < |g| && g[i].Has(Point(h.x, y));
      assert h.Has(Point(h.x, y));
      MeetsIffSharedPixel(g[i], e);
    }
  }

  function Columns(lo: int, n: nat): (s: set<int>)
    ensures |s| == n && forall x :: x in s <==> lo <= x < lo + n
  {
    if n == 0 then {} else Columns(lo, n - 1) + {lo + n - 1}
  }

  lemma Subset(a: set<int>, b: set<int>)
    requires a <= b
    ensures |a| <= |b|
  {
    assert b == a + (b - a);
  }

  /** On a scanline of r, pairwise disjoint rectangles are touched at most r.w times. */
  lemma DisjointHits(g: seq<Rect>, r: Rect, y: int)
    requires Disjoint(g) && 0 <= r.w
    ensures Hits(g, r, y) <= r.w
  {
    DisjointLefts(g, r, y);
    forall x | x in Lefts(g, r, y) ensures x in Columns(r.x, r.w) { LeftsHit(g, r, y, x); }
    Subset(Lefts(g, r, y), Columns(r.x, r.w));
  }

  /** Disjoint rectangles that touch a scanline as often as the box is wide cover it. */
  lemma FullLineCovered(g: seq<Rect>, r: Rect, y: int)
    requires Disjoint(g) && 0 <= r.w && Hits(g, r, y) >= r.w
    ensures LineCovered(g, r, y)
  {
    DisjointLefts(g, r, y);
    var lefts, columns := Lefts(g, r, y), Columns(r.x, r.w);
    forall x | x in lefts ensures x in columns { LeftsHit(g, r, y, x); }
    SameSize(lefts, columns);
    forall x | r.x <= x < r.Right() ensures Covers(g, Point(x, y)) {
      assert x in columns;
      LeftsHit(g, r, y, x);
    }
  }

  lemma SameSize(a: set<int>, b: set<int>)
    requires a <= b && |a| >= |b|
    ensures a == b
  {
    assert b == a + (b - a);
  }

  /** The test answers what is the case. */
  ghost predicate Judged(g: seq<Rect>, extra: seq<Rect>, r: Rect) {
    SaysCovered(g + extra, r) <==> CoversAll(g + extra, r)
  }

  /** A crowded scanline of a narrow box is covered all the same. */
  lemma CrowdedIsCovered(g: seq<Rect>, extra: seq<Rect>, r: Rect, y: int)
    requires Disjoint(g) && |extra| <= 1 && 0 <= r.w < MAX_INTERVALS && Hits(g + extra, r, y) >= MAX_INTERVALS
    ensures LineCovered(g + extra, r, y)
  {
    var all := g + extra;
    DisjointHits(g, r, y);
    assert extra == [] ==> all == g;
    assert extra != [] ==> all[..|g|] == g;
    FullLineCovered(g, r, y);
    forall x | r.x <= x < r.Right() ensures Covers(all, Point(x, y)) {
      var i :| 0 <= i < |g| && g[i].Has(Point(x, y));
      assert all[i] == g[i];
    }
  }

  /** For a box narrower than 64 pixels the coverage test is exact on a disjoint region, and
      still exact after one more rectangle has been appended to it. */
  lemma NarrowBoxExact(g: seq<Rect>, extra: seq<Rect>, r: Rect)
    requires Disjoint(g) && |extra| <= 1 && r.w < MAX_INTERVALS
    ensures Judged(g, extra, r)
  {
    var all := g + extra;
    if !r.Empty() {
      if SaysCovered(all, r) {
        forall p | r.Has(p) ensures Covers(all, p) {
          if Hits(all, r, p.y) >= MAX_INTERVALS { CrowdedIsCovered(g, extra, r, p.y); }
          assert LineCovered(all, r, p.y);
          assert Covers(all, Point(p.x, p.y));
        }
      }
      if CoversAll(all, r) {
        forall y | r.y <= y < r.Bottom() ensures LineCovered(all, r, y) {
          forall x | r.x <= x < r.Right() ensures Covers(all, Point(x, y)) {
            assert r.Has(Point(x, y));
          }
        }
      }
    }
  }

  /** A fence of n one-pixel pickets side by side, of two heights so that they do not merge. */
  function Fence(n: nat): (g: seq<Rect>)
    ensures |g| == n && forall i :: 0 <= i < n ==> g[i] == Rect(i, 0, 1, 1 + i % 2)
  {
    if n == 0 then [] else Fence(n - 1) + [Rect(n - 1, 0, 1, 1 + (n - 1) % 2)]
  }

  lemma {:induction false} FenceHits(n: nat, r: Rect)
    requires r.x == 0 && r.y == 0 && n <= r.w
    ensures Hits(Fence(n), r, 0) == n
  {
    if n > 0 {
      FenceHits(n - 1, r);
      assert Fence(n)[..n - 1] == Fence(n - 1);
      assert Intersect(Fence(n)[n - 1], Line(r, 0)).Has(Point(n - 1, 0));
    }
  }

  /** 63 pickets and one rectangle more are 64 intervals, and leave the rest of the box bare. */
  lemma FenceMisjudged(w: nat)
    requires w >= MAX_INTERVALS
    ensures Disjoint(Fence(MAX_INTERVALS - 1)) && !Judged(Fence(MAX_INTERVALS - 1), [Rect(0, 0, 1, 1)], Rect(0, 0, w, 1))
  {
    var g, extra, r := Fence(MAX_INTERVALS - 1), [Rect(0, 0, 1, 1)], Rect(0, 0, w, 1);
    FenceHits(MAX_INTERVALS - 1, r);
    assert (g + extra)[..|g|] == g;
    assert Intersect(extra[0], Line(r, 0)).Has(Point(0, 0));
    TallEnough(g + extra, r);
    assert !Covers(g + extra, Point(w - 1, 0)) && r.Has(Point(w - 1, 0));
  }

  /** The widths up to which the test is exact on every simplified region with one rectangle
      appended: exactly those below 64. */
  lemma ExactWidths(w: nat)
    ensures
      (forall g, extra, r: Rect :: Disjoint(g) && |extra| <= 1 && r.w == w ==> Judged(g, extra, r)) <==> w < MAX_INTERVALS
  {
    if w < MAX_INTERVALS {
      forall g, extra, r: Rect | Disjoint(g) && |extra| <= 1 && r.w == w ensures Judged(g, extra, r) {
        NarrowBoxExact(g, extra, r);
      }
    } else {
      FenceMisjudged(w);
    }
  }

  /** A comb of n one-pixel teeth, two columns apart. */
  function Comb(n: nat): (g: seq<Rect>)
    ensures |g| == n && forall i :: 0 <= i < n ==> g[i] == Rect(2 * i, 0, 1, 1)
  {
    if n == 0 then [] else Comb(n - 1) + [Rect(2 * (n - 1), 0, 1, 1)]
  }

  lemma {:induction false} CombHits(n: nat, r: Rect)
    requires r.x == 0 && r.y == 0 && 2 * n <= r.w
    ensures Hits(Comb(n), r, 0) == n
  {
    if n > 0 {
      CombHits(n - 1, r);
      assert Comb(n)[..n - 1] == Comb(n - 1);
      assert Intersect(Rect(2 * (n - 1), 0, 1, 1), Line(r, 0)).Has(Point(2 * (n - 1), 0));
    }
  }

  lemma CombDisjoint(n: nat)
    ensures Disjoint(Comb(n))
  {
  }

  lemma CombGap(n: nat)
    requires n > 0
    ensures !CoversAll(Comb(n), Rect(0, 0, 2 * n, 1))
  {
    assert !Covers(Comb(n), Point(1, 0));
    assert Rect(0, 0, 2 * n, 1).Has(Point(1, 0));
  }

  /** Without the width limit the test can be wrong: 64 or more disjoint teeth with gaps
      between them pass for a covered line. */
  lemma WideBoxMisjudged(n: nat)
    requires n >= MAX_INTERVALS
    ensures Disjoint(Comb(n))
    ensures SaysCovered(Comb(n), Rect(0, 0, 2 * n, 1))
    ensures !CoversAll(Comb(n), Rect(0, 0, 2 * n, 1))
  {
    CombDisjoint(n);
    CombGap(n);
    var g, r := Comb(n), Rect(0, 0, 2 * n, 1);
    CombHits(n, r);
    TallEnough(g, r);
  }

  lemma TallEnough(g: seq<Rect>, r: Rect)
    requires r.y == 0 && r.h == 1 && Hits(g, r, 0) >= MAX_INTERVALS
    ensures SaysCovered(g, r)
  {
    forall y | r.y <= y < r.Bottom() ensures Hits(g, r, y) >= MAX_INTERVALS { assert y == 0; }
  }
}
