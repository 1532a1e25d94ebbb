/** Packing the terrain of one grid into a map file: heights as small integers where that is accurate enough,
    liquids as the rectangle they cover, and sections that are left out when they say nothing. */
module MapFile {

  import opened Wrappers

  const CELLS := 16
  const GRID := 128

  const USE_MIN_HEIGHT: real := -500.0
  const FLOAT_TO_INT8_LIMIT: real := 2.0
  const FLOAT_TO_INT16_LIMIT: real := 2048.0
  const FLAT_HEIGHT_DELTA_LIMIT: real := 0.005
  const FLAT_LIQUID_DELTA_LIMIT: real := 0.001

  // ----- The range of the heights -----

  /** The two grids of heights: the corners of the squares and their centres. */
  ghost predicate Shaped(v9: array2<real>, v8: array2<real>) {
    v9.Length0 == v9.Length1 == GRID + 1 && v8.Length0 == v8.Length1 == GRID
  }

  ghost predicate Bounds(a: array2<real>, lo: real, hi: real)
    reads a
  {
    forall y, x :: 0 <= y < a.Length0 && 0 <= x < a.Length1 ==> lo <= a[y, x] <= hi
  }

  ghost predicate Occurs(a: array2<real>, h: real)
    reads a
  {
    exists y, x :: 0 <= y < a.Length0 && 0 <= x < a.Length1 && a[y, x] == h
  }

  /** Widens a range to take in a grid. */
  method Widen(a: array2<real>, lo: real, hi: real) returns (lo': real, hi': real)
    ensures lo' <= lo && hi <= hi' && Bounds(a, lo', hi')
    ensures (lo' == lo || Occurs(a, lo')) && (hi' == hi || Occurs(a, hi'))
  {
    lo', hi' := lo, hi;
    for y := 0 to a.Length0
      invariant lo' <= lo && hi <= hi'
      invariant (lo' == lo || Occurs(a, lo')) && (hi' == hi || Occurs(a, hi'))
      invariant forall j, i :: 0 <= j < y && 0 <= i < a.Length1 ==> lo' <= a[j, i] <= hi'
    {
      for x := 0 to a.Length1
        invariant lo' <= lo && hi <= hi'
        invariant (lo' == lo || Occurs(a, lo')) && (hi' == hi || Occurs(a, hi'))
        invariant forall j, i :: 0 <= j < y && 0 <= i < a.Length1 ==> lo' <= a[j, i] <= hi'
        invariant forall i :: 0 <= i < x ==> lo' <= a[y, i] <= hi'
      {
        var h := a[y, x];
        if hi' < h { hi' := h; }
        if lo' > h { lo' := h; }
      }
    }
  }

  /** The range starts inside out, from 20000 down to -20000: with heights between the two it is exactly
      theirs, and it takes in all heights in any case. */
  method HeightRange(v9: array2<real>, v8: array2<real>) returns (minHeight: real, maxHeight: real)
    requires Shaped(v9, v8)
    ensures Bounds(v9, minHeight, maxHeight) && Bounds(v8, minHeight, maxHeight)
    ensures minHeight == 20000.0 || Occurs(v9, minHeight) || Occurs(v8, minHeight)
    ensures maxHeight == -20000.0 || Occurs(v9, maxHeight) || Occurs(v8, maxHeight)
    ensures minHeight <= maxHeight
  {
    minHeight, maxHeight := Widen(v8, 20000.0, -20000.0);
    minHeight, maxHeight := Widen(v9, minHeight, maxHeight);
    assert minHeight <= v8[0, 0] <= maxHeight;
  }

  /** The greater of a height and the limit of 500 below zero. */
  function AtLeast(h: real): (r: real)
    ensures r >= h && r >= -500.0 && (r == h || r == -500.0)
  {
    if h < USE_MIN_HEIGHT then USE_MIN_HEIGHT else h
  }

  method Raise(a: array2<real>)
    modifies a
    ensures forall y, x :: 0 <= y < a.Length0 && 0 <= x < a.Length1 ==> a[y, x] == AtLeast(old(a[y, x]))
  {
    for y := 0 to a.Length0
      invariant forall j, i :: 0 <= j < a.Length0 && 0 <= i < a.Length1 ==>
                  a[j, i] == if j < y then AtLeast(old(a[j, i])) else old(a[j, i])
    {
      for x := 0 to a.Length1
        invariant forall j, i :: 0 <= j < a.Length0 && 0 <= i < a.Length1 ==>
                    a[j, i] == if j < y || (j == y && i < x) then AtLeast(old(a[j, i])) else old(a[j, i])
      {
        if a[y, x] < USE_MIN_HEIGHT { a[y, x] := USE_MIN_HEIGHT; }
      }
    }
  }

  /** The deep ocean is filled up: no height is left below the limit, the others stay, and the range is still
      that of the heights. */
  method LimitHeights(v9: array2<real>, v8: array2<real>, minHeight: real, maxHeight: real, allow: bool)
    returns (minHeight': real, maxHeight': real)
    requires Shaped(v9, v8) && v9 != v8 && minHeight <= maxHeight
    requires Bounds(v9, minHeight, maxHeight) && Bounds(v8, minHeight, maxHeight)
    modifies v9, v8
    ensures Bounds(v9, minHeight', maxHeight') && Bounds(v8, minHeight', maxHeight') && minHeight' <= maxHeight'
    ensures if allow then minHeight' == AtLeast(minHeight) && maxHeight' == AtLeast(maxHeight)
            else minHeight' == minHeight && maxHeight' == maxHeight
    ensures forall y, x :: 0 <= y <= GRID && 0 <= x <= GRID ==>
              v9[y, x] == if allow then AtLeast(old(v9[y, x])) else old(v9[y, x])
    ensures forall y, x :: 0 <= y < GRID && 0 <= x < GRID ==>
              v8[y, x] == if allow then AtLeast(old(v8[y, x])) else old(v8[y, x])
  {
    minHeight', maxHeight' := minHeight, maxHeight;
    if allow && minHeight < USE_MIN_HEIGHT {
      Raise(v8);
      Raise(v9);
      if minHeight' < USE_MIN_HEIGHT { minHeight' := USE_MIN_HEIGHT; }
      if maxHeight' < USE_MIN_HEIGHT { maxHeight' := USE_MIN_HEIGHT; }
    }
  }

  // ----- Heights as integers -----

  datatype HeightKind = NoHeight | AsInt8 | AsInt16 | AsFloat

  function KindOf(minHeight: real, maxHeight: real, allowInt: bool): HeightKind {
    var diff := maxHeight - minHeight;
    if maxHeight == minHeight || (allowInt && diff < FLAT_HEIGHT_DELTA_LIMIT) then NoHeight
    else if allowInt && diff < FLOAT_TO_INT8_LIMIT then AsInt8
    else if allowInt && diff < FLOAT_TO_INT16_LIMIT then AsInt16
    else AsFloat
  }

  /** The number of steps a kind divides the range into. */
  function Levels(kind: HeightKind): int { if kind.AsInt8? then 255 else 65535 }

  /** Heights are left out where there is one only, or, with integers allowed, where the range is below 0.005; they take
      one byte below a range of 2, two below 2048, and else four, as they do without integers. The integers of a kind
      use all values their bytes have. */
  lemma KindExactly(minHeight: real, maxHeight: real, allowInt: bool)
    requires minHeight <= maxHeight
    ensures var kind, diff := KindOf(minHeight, maxHeight, allowInt), maxHeight - minHeight;
            && (!allowInt ==> HeightSize(kind) == if diff == 0.0 then 0 else 4)
            && (allowInt ==> HeightSize(kind) ==
                             if diff < 0.005 then 0 else if diff < 2.0 then 1 else if diff < 2048.0 then 2 else 4)
            && (HeightSize(kind) == 1 ==> kind.AsInt8? && Levels(kind) == 0xFF)
            && (HeightSize(kind) == 2 ==> kind.AsInt16? && Levels(kind) == 0xFFFF)
  {
  }

  function Quantise(h: real, minHeight: real, step: real): int { ((h - minHeight) * step + 0.5).Floor }

  /** What the server makes of a stored integer. */
  function Restore(q: int, minHeight: real, maxHeight: real, levels: int): real
    requires levels > 0
  {
    q as real * ((maxHeight - minHeight) / levels as real) + minHeight
  }

  lemma Cancel(a: real, d: real)
    requires d > 0.0 && a * d == d
    ensures a == 1.0
  {
  }

  lemma DivideThenMultiply(x: real, y: real)
    requires y > 0.0
    ensures (x / y) * y == x && (x > 0.0 ==> x / y > 0.0)
  {
  }

  lemma Rearrange(a: real, b: real, c: real)
    ensures (a * b) * c == b * (a * c)
  {
  }

  lemma UnitUndoesStep(step: real, unit: real, diff: real, levels: real)
    requires diff > 0.0 && step * diff == levels && unit * levels == diff
    ensures step * unit == 1.0
  {
    assert unit * (step * diff) == diff;
    assert (step * unit) * diff == diff;
    Cancel(step * unit, diff);
  }

  lemma StepAndUnit(diff: real, levels: real)
    requires diff > 0.0 && levels > 0.0
    ensures (levels / diff) * (diff / levels) == 1.0 && levels / diff > 0.0 && diff / levels > 0.0
    ensures (levels / diff) * diff == levels && (diff / levels) * levels == diff
  {
    DivideThenMultiply(levels, diff);
    DivideThenMultiply(diff, levels);
    UnitUndoesStep(levels / diff, diff / levels, diff, levels);
  }

  lemma ProductOrder(a: real, b: real, c: real)
    requires a <= b && c >= 0.0
    ensures a * c <= b * c
  {
  }

  lemma Undo(d: real, step: real, unit: real)
    requires step * unit == 1.0
    ensures (d * step) * unit == d
  {
    Rearrange(step, d, unit);
  }

  function StepOf(levels: int, minHeight: real, maxHeight: real): real
    requires maxHeight > minHeight
  {
    levels as real / (maxHeight - minHeight)
  }

  /** Rounding t, which is d in units, to the nearest integer. */
  lemma RoundingIsNear(d: real, t: real, unit: real, levels: int)
    requires 0.0 <= t <= levels as real && unit > 0.0 && t * unit == d
    ensures var q := (t + 0.5).Floor;
            0 <= q <= levels && -(unit * 0.5) <= q as real * unit - d <= unit * 0.5
  {
    var q := (t + 0.5).Floor;
    Nearest(q as real, t, q as real - t, unit, d);
  }

  lemma Nearest(x: real, t: real, off: real, unit: real, d: real)
    requires x == t + off && -0.5 <= off <= 0.5 && unit > 0.0 && t * unit == d
    ensures -(unit * 0.5) <= x * unit - d <= unit * 0.5
  {
    HalfAtMost(off, unit);
    Sum(x, t, off, unit);
  }

  lemma HalfAtMost(off: real, unit: real)
    requires -0.5 <= off <= 0.5 && unit > 0.0
    ensures -(unit * 0.5) <= off * unit <= unit * 0.5
  {
    ProductOrder(off, 0.5, unit);
    ProductOrder(-0.5, off, unit);
  }

  lemma Sum(x: real, t: real, off: real, unit: real)
    requires x == t + off
    ensures x * unit == t * unit + off * unit
  {
  }

  lemma ScaledFits(d: real, diff: real, step: real, unit: real, levels: real)
    requires 0.0 <= d <= diff && step > 0.0 && step * unit == 1.0 && step * diff == levels
    ensures 0.0 <= d * step <= levels && (d * step) * unit == d
  {
    ProductOrder(0.0, d, step);
    ProductOrder(d, diff, step);
    Undo(d, step, unit);
  }

  /** A stored integer fits the number of levels, and reading it back misses the height by half a step at
      most. */
  lemma QuantiseIsAccurate(h: real, minHeight: real, maxHeight: real, levels: int)
    requires minHeight <= h <= maxHeight && minHeight < maxHeight && levels > 0
    ensures var q := Quantise(h, minHeight, StepOf(levels, minHeight, maxHeight));
            var unit := (maxHeight - minHeight) / levels as real;
            0 <= q <= levels && -(unit * 0.5) <= Restore(q, minHeight, maxHeight, levels) - h <= unit * 0.5
  {
    var d, diff := h - minHeight, maxHeight - minHeight;
    var step, unit := levels as real / diff, diff / levels as real;
    StepAndUnit(diff, levels as real);
    ScaledFits(d, diff, step, unit, levels as real);
    RoundingIsNear(d, d * step, unit, levels);
    var q := Quantise(h, minHeight, StepOf(levels, minHeight, maxHeight));
    assert q == (d * step + 0.5).Floor;
    assert Restore(q, minHeight, maxHeight, levels) == q as real * unit + minHeight;
  }

  /** The ends of the range are kept exactly. */
  lemma QuantiseEnds(minHeight: real, maxHeight: real, levels: int)
    requires minHeight < maxHeight && levels > 0
    ensures Quantise(minHeight, minHeight, StepOf(levels, minHeight, maxHeight)) == 0
    ensures Quantise(maxHeight, minHeight, StepOf(levels, minHeight, maxHeight)) == levels
    ensures Restore(0, minHeight, maxHeight, levels) == minHeight
    ensures Restore(levels, minHeight, maxHeight, levels) == maxHeight
  {
    StepAndUnit(maxHeight - minHeight, levels as real);
  }

  /** Higher places are not stored lower. */
  lemma QuantiseKeepsOrder(g: real, h: real, minHeight: real, step: real)
    requires g <= h && step > 0.0
    ensures Quantise(g, minHeight, step) <= Quantise(h, minHeight, step)
  {
    ProductOrder(g - minHeight, h - minHeight, step);
  }

  /** Rounding is never further off than a 510th of two, or a 131070th of 2048. */
  lemma PackingIsFine(minHeight: real, maxHeight: real)
    ensures KindOf(minHeight, maxHeight, true).AsInt8? ==> (maxHeight - minHeight) / 255.0 * 0.5 <= 2.0 / 510.0
    ensures KindOf(minHeight, maxHeight, true).AsInt16? ==> (maxHeight - minHeight) / 65535.0 * 0.5 <= 2048.0 / 131070.0
  {
  }

  /** Packs a grid of heights that lie in the range. */
  method PackHeights(a: array2<real>, minHeight: real, maxHeight: real, kind: HeightKind) returns (p: array2<int>)
    requires Bounds(a, minHeight, maxHeight) && minHeight < maxHeight
    ensures fresh(p) && p.Length0 == a.Length0 && p.Length1 == a.Length1
    ensures forall y, x :: 0 <= y < a.Length0 && 0 <= x < a.Length1 ==>
              && p[y, x] == Quantise(a[y, x], minHeight, StepOf(Levels(kind), minHeight, maxHeight))
              && 0 <= p[y, x] <= Levels(kind)
  {
    var step := StepOf(Levels(kind), minHeight, maxHeight);
    p := new int[a.Length0, a.Length1];
    for y := 0 to a.Length0
      invariant forall j, i :: 0 <= j < y && 0 <= i < a.Length1 ==>
                  p[j, i] == Quantise(a[j, i], minHeight, step) && 0 <= p[j, i] <= Levels(kind)
    {
      for x := 0 to a.Length1
        invariant forall j, i :: 0 <= j < y && 0 <= i < a.Length1 ==>
                    p[j, i] == Quantise(a[j, i], minHeight, step) && 0 <= p[j, i] <= Levels(kind)
        invariant forall i :: 0 <= i < x ==>
                    p[y, i] == Quantise(a[y, i], minHeight, step) && 0 <= p[y, i] <= Levels(kind)
      {
        QuantiseIsAccurate(a[y, x], minHeight, maxHeight, Levels(kind));
        p[y, x] := Quantise(a[y, x], minHeight, step);
      }
    }
  }

  // ----- The rectangle of the liquids -----

  /** A rectangle of shown squares, and the range of the liquid in them. */
  datatype Box = Box(minX: int, maxX: int, minY: int, maxY: int, low: real, high: real)

  ghost predicate Shows(show: array2<bool>, x: int, y: int)
    reads show
  {
    0 <= y < show.Length0 && 0 <= x < show.Length1 && show[y, x]
  }

  ghost predicate ShowsAny(show: array2<bool>)
    reads show
  {
    exists x, y :: Shows(show, x, y)
  }

  /** Everything shown before a place in reading order lies in the box. */
  ghost predicate Covers(b: Box, show: array2<bool>, height: array2<real>, y: int, x: int)
    requires height.Length0 > show.Length0 && height.Length1 > show.Length1
    reads show, height
  {
    forall i, j :: Shows(show, i, j) && (j < y || (j == y && i < x)) ==>
      b.minX <= i <= b.maxX && b.minY <= j <= b.maxY && b.low <= height[j, i] <= b.high
  }

  /** Every side of the box has been reached by something shown, unless nothing has been shown. */
  ghost predicate Tight(b: Box, show: array2<bool>)
    reads show
  {
    if b.minX == 255 then b.maxX == 0 && b.minY == 255 && b.maxY == 0 && b.low == 20000.0 && b.high == -20000.0
    else
      && 0 <= b.minX <= b.maxX < show.Length1 && 0 <= b.minY <= b.maxY < show.Length0
      && (exists j :: Shows(show, b.minX, j)) && (exists j :: Shows(show, b.maxX, j))
      && (exists i :: Shows(show, i, b.minY)) && (exists i :: Shows(show, i, b.maxY))
  }

  /** So have the ends of its range, but where they are still what they start from. */
  ghost predicate Reached(b: Box, show: array2<bool>, height: array2<real>)
    requires height.Length0 > show.Length0 && height.Length1 > show.Length1
    reads show, height
  {
    (b.low == 20000.0 || ShownAt(show, height, b.low)) && (b.high == -20000.0 || ShownAt(show, height, b.high))
  }

  /** Something is shown at this height. */
  ghost predicate ShownAt(show: array2<bool>, height: array2<real>, h: real)
    requires height.Length0 > show.Length0 && height.Length1 > show.Length1
    reads show, height
  {
    exists i, j :: Shows(show, i, j) && height[j, i] == h
  }

  /** The box with one more square in it. */
  function Include(b: Box, x: int, y: int, h: real): Box {
    Box(if b.minX > x then x else b.minX, if b.maxX < x then x else b.maxX,
        if b.minY > y then y else b.minY, if b.maxY < y then y else b.maxY,
        if b.low > h then h else b.low, if b.high < h then h else b.high)
  }

  lemma IncludeCovers(b: Box, show: array2<bool>, height: array2<real>, y: int, x: int)
    requires show.Length0 == show.Length1 == GRID && height.Length0 == height.Length1 == GRID + 1
    requires Shows(show, x, y) && Tight(b, show) && Covers(b, show, height, y, x)
    ensures Covers(Include(b, x, y, height[y, x]), show, height, y, x + 1)
  {
  }

  lemma IncludeIsTight(b: Box, show: array2<bool>, y: int, x: int, h: real)
    requires show.Length0 == show.Length1 == GRID
    requires Shows(show, x, y) && Tight(b, show)
    ensures Tight(Include(b, x, y, h), show)
  {
  }

  lemma IncludeReaches(b: Box, show: array2<bool>, height: array2<real>, y: int, x: int)
    requires show.Length0 == show.Length1 == GRID && height.Length0 == height.Length1 == GRID + 1
    requires Shows(show, x, y) && Reached(b, show, height)
    ensures Reached(Include(b, x, y, height[y, x]), show, height)
  {
  }

  /** The liquid in a square that is not shown is lowered; what is shown stays. */
  method LowerSquare(show: array2<bool>, height: array2<real>, ghost b: Box, y: nat, x: nat)
    requires show.Length0 == show.Length1 == GRID && height.Length0 == height.Length1 == GRID + 1
    requires y < GRID && x < GRID && !show[y, x] && Covers(b, show, height, y, x) && Reached(b, show, height)
    modifies height
    ensures Covers(b, show, height, y, x + 1) && Reached(b, show, height)
    ensures forall j, i :: 0 <= j <= GRID && 0 <= i <= GRID ==>
              height[j, i] == if j == y && i == x then USE_MIN_HEIGHT else old(height[j, i])
  {
    ghost var i, j, k, l: int;
    if b.low != 20000.0 { i, j :| Shows(show, i, j) && height[j, i] == b.low; }
    if b.high != -20000.0 { k, l :| Shows(show, k, l) && height[l, k] == b.high; }
    height[y, x] := USE_MIN_HEIGHT;
    assert b.low != 20000.0 ==> Shows(show, i, j) && height[j, i] == b.low;
    assert b.high != -20000.0 ==> Shows(show, k, l) && height[l, k] == b.high;
  }

  /** One square: it is included, or the liquid in it is lowered. */
  method VisitSquare(show: array2<bool>, height: array2<real>, b: Box, y: nat, x: nat) returns (b': Box)
    requires show.Length0 == show.Length1 == GRID && height.Length0 == height.Length1 == GRID + 1
    requires y < GRID && x < GRID && Tight(b, show) && Covers(b, show, height, y, x) && Reached(b, show, height)
    modifies height
    ensures Tight(b', show) && Covers(b', show, height, y, x + 1) && Reached(b', show, height)
    ensures forall j, i :: 0 <= j <= GRID && 0 <= i <= GRID ==>
              height[j, i] == if j == y && i == x && !show[y, x] then USE_MIN_HEIGHT else old(height[j, i])
  {
    b' := b;
    if show[y, x] {
      assert Shows(show, x, y);
      IncludeCovers(b, show, height, y, x);
      IncludeIsTight(b, show, y, x, height[y, x]);
      IncludeReaches(b, show, height, y, x);
      if b'.minX > x { b' := b'.(minX := x); }
      if b'.maxX < x { b' := b'.(maxX := x); }
      if b'.minY > y { b' := b'.(minY := y); }
      if b'.maxY < y { b' := b'.(maxY := y); }
      var h := height[y, x];
      if b'.high < h { b' := b'.(high := h); }
      if b'.low > h { b' := b'.(low := h); }
      assert b' == Include(b, x, y, height[y, x]);
    } else {
      LowerSquare(show, height, b, y, x);
    }
  }

  /** The box of what is shown; where nothing is shown the liquid is lowered to the limit. */
  method LiquidBox(show: array2<bool>, height: array2<real>) returns (b: Box)
    requires show.Length0 == show.Length1 == GRID && height.Length0 == height.Length1 == GRID + 1
    modifies height
    ensures Tight(b, show) && Covers(b, show, height, GRID, 0) && Reached(b, show, height)
    ensures b.minX == 255 <==> forall i, j :: !Shows(show, i, j)
    ensures forall j, i :: 0 <= j <= GRID && 0 <= i <= GRID ==>
              height[j, i] == if j < GRID && i < GRID && !show[j, i] then USE_MIN_HEIGHT else old(height[j, i])
  {
    b := Box(255, 0, 255, 0, 20000.0, -20000.0);
    for y := 0 to GRID
      invariant Tight(b, show) && Covers(b, show, height, y, 0) && Reached(b, show, height)
      invariant forall j, i :: 0 <= j <= GRID && 0 <= i <= GRID ==>
                  height[j, i] == if j < y && i < GRID && !show[j, i] then USE_MIN_HEIGHT else old(height[j, i])
    {
      for x := 0 to GRID
        invariant Tight(b, show) && Covers(b, show, height, y, x) && Reached(b, show, height)
        invariant forall j, i :: 0 <= j <= GRID && 0 <= i <= GRID ==>
                    height[j, i] == if ((j < y && i < GRID) || (j == y && i < x)) && !show[j, i] then USE_MIN_HEIGHT
                                    else old(height[j, i])
      {
        b := VisitSquare(show, height, b, y, x);
      }
    }
    if b.minX != 255 { assert exists j :: Shows(show, b.minX, j); }
  }

  /** The heights of the liquid are stored unless it is flat. */
  predicate StoresHeights(b: Box, allowInt: bool) {
    !(b.high == b.low || (allowInt && b.high - b.low < FLAT_LIQUID_DELTA_LIMIT))
  }

  /** Flat is what has one height, or, with integers allowed, a range below 0.001. */
  lemma FlatExactly(b: Box, allowInt: bool)
    ensures StoresHeights(b, allowInt) <==> b.high != b.low && (allowInt ==> b.high >= b.low + 0.001)
  {
  }

  /** Offset and extent as they fit the bytes of the header: one more corner than squares. */
  function OffsetX(b: Box): int { b.minX % 256 }
  function OffsetY(b: Box): int { b.minY % 256 }
  function Width(b: Box): int { (b.maxX - b.minX + 2) % 256 }
  function Height(b: Box): int { (b.maxY - b.minY + 2) % 256 }

  /** The corners of the rectangle are inside the grid exactly when some square is shown; when integers are
      allowed and none is, no heights are stored. */
  lemma RectangleIsInside(b: Box, show: array2<bool>, allowInt: bool)
    requires show.Length0 == show.Length1 == GRID && Tight(b, show)
    ensures Width(b) > 0 && Height(b) > 0
    ensures OffsetX(b) + Width(b) <= GRID + 1 && OffsetY(b) + Height(b) <= GRID + 1 <==> b.minX != 255
    ensures b.minX == 255 ==> (StoresHeights(b, allowInt) <==> !allowInt)
    ensures b.minX != 255 ==> OffsetX(b) == b.minX && OffsetX(b) + Width(b) == b.maxX + 2
                              && OffsetY(b) == b.minY && OffsetY(b) + Height(b) == b.maxY + 2
  {
    if b.minX == 255 {
      assert Width(b) == 3 && Height(b) == 3 && OffsetX(b) == 255 && OffsetY(b) == 255;
    } else {
      FitsAByte(b.minX);
      FitsAByte(b.minY);
      FitsAByte(b.maxX - b.minX + 2);
      FitsAByte(b.maxY - b.minY + 2);
    }
  }

  lemma FitsAByte(n: int)
    requires 0 <= n < 256
    ensures n % 256 == n
  {
  }

  // ----- The file -----

  /** What is written at once; Magic is four letters. */
  datatype Value = Magic(letters: string) | U8(n: nat) | U16(n: nat) | U32(n: nat) | F32(r: real) {
    function Size(): nat { if U8? then 1 else if U16? then 2 else 4 }
    function Num(): nat { if U8? || U16? || U32? then n else 0 }
  }

  /** The k-th byte of a value. */
  datatype Byte = Byte(v: Value, k: nat)

  function Encode(v: Value): (r: seq<Byte>)
    ensures |r| == v.Size()
  {
    seq(v.Size(), (k: nat) => Byte(v, k))
  }

  function EncodeAll(vs: seq<Value>): seq<Byte> {
    if vs == [] then [] else Encode(vs[0]) + EncodeAll(vs[1..])
  }

  function Sizes(vs: seq<Value>): seq<nat> {
    if vs == [] then [] else [vs[0].Size()] + Sizes(vs[1..])
  }

  function Repeat(s: nat, n: nat): seq<nat> { seq(n, (i: nat) => s) }

  /** Reads values of given sizes, one after the other; None past the end of the file, or where the bytes are not
      just those of one value. */
  function Read(file: seq<Byte>, at: nat, sizes: seq<nat>): (r: Option<seq<Value>>)
    ensures r.Some? ==> |r.value| == |sizes|
    decreases |sizes|
  {
    if sizes == [] then Some([])
    else if sizes[0] == 0 || at + sizes[0] > |file| || file[at..at + sizes[0]] != Encode(file[at].v) then None
    else
      var rest := Read(file, at + sizes[0], sizes[1..]);
      if rest.None? then None else Some([file[at].v] + rest.value)
  }

  predicate AllOf(vs: seq<Value>, s: nat) { forall v :: v in vs ==> v.Size() == s }

  lemma {:induction false} EncodeConcat(a: seq<Value>, b: seq<Value>)
    ensures EncodeAll(a + b) == EncodeAll(a) + EncodeAll(b)
  {
    if a == [] {
      assert a + b == b;
    } else {
      EncodeConcat(a[1..], b);
      assert (a + b)[1..] == a[1..] + b && (a + b)[0] == a[0];
      assert EncodeAll(a + b) == Encode(a[0]) + (EncodeAll(a[1..]) + EncodeAll(b));
    }
  }

  lemma {:induction false} EncodeSame(vs: seq<Value>, s: nat)
    requires AllOf(vs, s)
    ensures |EncodeAll(vs)| == s * |vs| && Sizes(vs) == Repeat(s, |vs|)
  {
    if vs != [] {
      assert vs[0] in vs;
      EncodeSame(vs[1..], s);
      assert s * |vs| == s + s * (|vs| - 1);
      assert Repeat(s, |vs|) == [s] + Repeat(s, |vs| - 1);
    }
  }

  /** Read off their beginning, values are not taken for values. */
  lemma ShiftedReadFails(file: seq<Byte>, at: nat, sizes: seq<nat>)
    requires sizes != [] && at < |file| && file[at].k > 0
    ensures Read(file, at, sizes) == None
  {
    if sizes[0] > 0 && at + sizes[0] <= |file| {
      assert file[at..at + sizes[0]][0] == file[at] && Encode(file[at].v)[0].k == 0;
    }
  }

  /** Whatever stands before and behind, values are read back where they were written. */
  lemma {:induction false} ReadAt(file: seq<Byte>, at: nat, sizes: seq<nat>, pre: seq<Byte>, vs: seq<Value>,
                                  post: seq<Byte>)
    requires file == pre + EncodeAll(vs) + post && at == |pre| && sizes == Sizes(vs)
    ensures Read(file, at, sizes) == Some(vs)
    decreases |vs|
  {
    if vs != [] {
      var first, rest := vs[0], vs[1..];
      FirstValue(file, at, pre, first, EncodeAll(rest), post);
      assert sizes[0] == first.Size() && sizes[1..] == Sizes(rest);
      ReadAt(file, at + first.Size(), sizes[1..], pre + Encode(first), rest, post);
      assert vs == [first] + rest;
    }
  }

  lemma FirstValue(file: seq<Byte>, at: nat, pre: seq<Byte>, v: Value, rest: seq<Byte>, post: seq<Byte>)
    requires file == pre + (Encode(v) + rest) + post && at == |pre|
    ensures at + v.Size() <= |file| && file[at].v == v && file[at..at + v.Size()] == Encode(v)
    ensures file == (pre + Encode(v)) + rest + post
  {
    assert file[at] == Encode(v)[0];
  }

  // ----- What is in a map file -----

  const MAP_MAGIC := "MAPS"
  const MAP_VERSION_MAGIC := "z1.4"
  const MAP_AREA_MAGIC := "AREA"
  const MAP_HEIGHT_MAGIC := "MHGT"
  const MAP_LIQUID_MAGIC := "MLIQ"

  const CELL_COUNT: nat := 256
  const V9_COUNT: nat := 129 * 129
  const V8_COUNT: nat := 128 * 128

  /** The liquids of a grid: one type for all cells or one for each, and heights for the rectangle. */
  datatype Liquid = Liquid(flags: Value, entry: Value, offsetX: Value, offsetY: Value, width: Value, height: Value,
                           level: Value, types: Option<(seq<Value>, seq<Value>)>, heights: Option<seq<Value>>)

  /** A grid that is ready to be stored: one area for all cells or one for each, heights of some kind. */
  datatype Grid = Grid(area: Value, areas: Option<seq<Value>>, minHeight: Value, maxHeight: Value,
                       kind: HeightKind, v9: seq<Value>, v8: seq<Value>, liquid: Option<Liquid>, holes: seq<Value>)

  predicate Bytes8(v: Value) { v.U8? && v.n < 256 }
  predicate Words(vs: seq<Value>, n: nat) { |vs| == n && forall v :: v in vs ==> v.U16? }

  /** The bytes of one height of a kind. */
  function HeightSize(kind: HeightKind): nat {
    match kind case NoHeight => 0 case AsInt8 => 1 case AsInt16 => 2 case AsFloat => 4
  }

  predicate WellFormed(g: Grid) {
    && g.area.U16? && (g.areas.Some? ==> Words(g.areas.value, CELL_COUNT)) && g.minHeight.F32? && g.maxHeight.F32?
    && (if g.kind.NoHeight? then g.v9 == [] && g.v8 == []
        else |g.v9| == V9_COUNT && |g.v8| == V8_COUNT
             && AllOf(g.v9, HeightSize(g.kind)) && AllOf(g.v8, HeightSize(g.kind)))
    && (g.liquid.Some? ==> WellFormedLiquid(g.liquid.value))
    && Words(g.holes, CELL_COUNT)
  }

  predicate WellFormedLiquid(l: Liquid) {
    && Bytes8(l.flags) && l.entry.U16? && Bytes8(l.offsetX) && Bytes8(l.offsetY) && Bytes8(l.width) && Bytes8(l.height)
    && l.level.F32?
    && (l.types.Some? ==> Words(l.types.value.0, CELL_COUNT)
                          && |l.types.value.1| == CELL_COUNT && AllOf(l.types.value.1, 1))
    && (l.heights.Some? ==> |l.heights.value| == l.width.n * l.height.n && AllOf(l.heights.value, 4))
  }

  function AreaHeader(g: Grid): seq<Value> {
    [Magic(MAP_AREA_MAGIC), U16(if g.areas.Some? then 0 else 1), if g.areas.Some? then U16(0) else g.area]
  }

  function HeightFlags(kind: HeightKind): nat {
    match kind case NoHeight => 1 case AsInt16 => 2 case AsInt8 => 4 case AsFloat => 0
  }

  function HeightHeader(g: Grid): seq<Value> {
    [Magic(MAP_HEIGHT_MAGIC), U32(HeightFlags(g.kind)), g.minHeight, g.maxHeight]
  }

  function LiquidHeader(l: Liquid): seq<Value> {
    [Magic(MAP_LIQUID_MAGIC), U8((if l.types.Some? then 0 else 1) + (if l.heights.Some? then 0 else 2)),
     if l.types.Some? then U8(0) else l.flags, if l.types.Some? then U16(0) else l.entry,
     l.offsetX, l.offsetY, l.width, l.height, l.level]
  }

  /** Where the sections begin and how long they are, as the header says. */
  datatype Layout = Layout(areaAt: nat, areaSize: nat, heightAt: nat, heightSize: nat,
                           liquidAt: nat, liquidSize: nat, holesAt: nat, holesSize: nat)

  function LayoutOf(g: Grid): Layout {
    var areaAt: nat := 40;
    var areaSize: nat := 8 + if g.areas.Some? then 2 * CELL_COUNT else 0;
    var heightAt: nat := areaAt + areaSize;
    var heightSize: nat := 16 + HeightSize(g.kind) * (V9_COUNT + V8_COUNT);
    var liquidAt: nat := if g.liquid.None? then 0 else heightAt + heightSize;
    var liquidSize: nat :=
      if g.liquid.None? then 0
      else 16 + (if g.liquid.value.types.Some? then 3 * CELL_COUNT else 0)
           + (if g.liquid.value.heights.Some? then 4 * (g.liquid.value.width.Num() * g.liquid.value.height.Num())
              else 0);
    var holesAt: nat := if liquidAt != 0 then liquidAt + liquidSize else heightAt + heightSize;
    Layout(areaAt, areaSize, heightAt, heightSize, liquidAt, liquidSize, holesAt, 2 * CELL_COUNT)
  }

  function FileHeader(l: Layout): seq<Value> {
    [Magic(MAP_MAGIC), Magic(MAP_VERSION_MAGIC), U32(l.areaAt), U32(l.areaSize), U32(l.heightAt), U32(l.heightSize),
     U32(l.liquidAt), U32(l.liquidSize), U32(l.holesAt), U32(l.holesSize)]
  }

  function AreaPart(g: Grid): seq<Value> { AreaHeader(g) + if g.areas.Some? then g.areas.value else [] }

  function HeightPart(g: Grid): seq<Value> { HeightHeader(g) + g.v9 + g.v8 }

  function LiquidValues(l: Liquid): seq<Value> {
    LiquidHeader(l) + (if l.types.Some? then l.types.value.0 + l.types.value.1 else [])
    + (if l.heights.Some? then l.heights.value else [])
  }

  function LiquidPart(g: Grid): seq<Value> { if g.liquid.None? then [] else LiquidValues(g.liquid.value) }

  method StoreArea(file: seq<Byte>, g: Grid) returns (file': seq<Byte>)
    ensures file' == file + EncodeAll(AreaPart(g))
  {
    EncodeConcat(AreaHeader(g), if g.areas.Some? then g.areas.value else []);
    file' := file + EncodeAll(AreaHeader(g));
    if g.areas.Some? { file' := file' + EncodeAll(g.areas.value); }
  }

  method StoreHeights(file: seq<Byte>, g: Grid) returns (file': seq<Byte>)
    requires WellFormed(g)
    ensures file' == file + EncodeAll(HeightPart(g))
  {
    EncodeConcat(HeightHeader(g), g.v9);
    EncodeConcat(HeightHeader(g) + g.v9, g.v8);
    file' := file + EncodeAll(HeightHeader(g));
    if !g.kind.NoHeight? {
      file' := file' + EncodeAll(g.v9);
      file' := file' + EncodeAll(g.v8);
    }
  }

  method StoreLiquid(file: seq<Byte>, l: Liquid) returns (file': seq<Byte>)
    ensures file' == file + EncodeAll(LiquidValues(l))
  {
    var types := if l.types.Some? then l.types.value.0 + l.types.value.1 else [];
    EncodeConcat(LiquidHeader(l), types);
    EncodeConcat(LiquidHeader(l) + types, if l.heights.Some? then l.heights.value else []);
    file' := file + EncodeAll(LiquidHeader(l));
    if l.types.Some? {
      EncodeConcat(l.types.value.0, l.types.value.1);
      file' := file' + EncodeAll(l.types.value.0);
      file' := file' + EncodeAll(l.types.value.1);
    }
    if l.heights.Some? { file' := file' + EncodeAll(l.heights.value); }
  }

  /** The bytes of a map file. */
  function FileOf(g: Grid): seq<Byte> {
    EncodeAll(FileHeader(LayoutOf(g))) + EncodeAll(AreaPart(g)) + EncodeAll(HeightPart(g))
    + EncodeAll(LiquidPart(g)) + EncodeAll(g.holes)
  }

  /** Stores a grid, section by section. */
  method Store(g: Grid) returns (file: seq<Byte>)
    requires WellFormed(g)
    ensures file == FileOf(g)
  {
    file := EncodeAll(FileHeader(LayoutOf(g)));
    file := StoreArea(file, g);
    file := StoreHeights(file, g);
    if g.liquid.Some? { file := StoreLiquid(file, g.liquid.value); }
    file := file + EncodeAll(g.holes);
  }

  lemma WordsSize(vs: seq<Value>, n: nat)
    requires Words(vs, n)
    ensures AllOf(vs, 2) && |EncodeAll(vs)| == 2 * n && Sizes(vs) == Repeat(2, n)
  {
    EncodeSame(vs, 2);
  }

  lemma {:induction false} SizesConcat(a: seq<Value>, b: seq<Value>)
    ensures Sizes(a + b) == Sizes(a) + Sizes(b)
  {
    if a == [] {
      assert a + b == b;
    } else {
      SizesConcat(a[1..], b);
      assert (a + b)[1..] == a[1..] + b && (a + b)[0] == a[0];
      assert Sizes(a + b) == [a[0].Size()] + (Sizes(a[1..]) + Sizes(b));
    }
  }

  lemma AreaHeaderSize(g: Grid)
    requires WellFormed(g)
    ensures |EncodeAll(AreaHeader(g))| == 8 && Sizes(AreaHeader(g)) == [4] + Repeat(2, 2)
  {
    var h := AreaHeader(g);
    assert h == h[..1] + h[1..];
    EncodeConcat(h[..1], h[1..]);
    SizesConcat(h[..1], h[1..]);
    EncodeSame(h[..1], 4);
    EncodeSame(h[1..], 2);
  }

  lemma FiveParts(a: seq<Value>, b: seq<Value>, c: seq<Value>, d: seq<Value>, e: seq<Value>)
    ensures var all := a + (b + (c + (d + e)));
            && |EncodeAll(all)| == |EncodeAll(a)| + |EncodeAll(b)| + |EncodeAll(c)| + |EncodeAll(d)| + |EncodeAll(e)|
            && Sizes(all) == Sizes(a) + (Sizes(b) + (Sizes(c) + (Sizes(d) + Sizes(e))))
  {
    EncodeConcat(a, b + (c + (d + e)));
    EncodeConcat(b, c + (d + e));
    EncodeConcat(c, d + e);
    EncodeConcat(d, e);
    SizesConcat(a, b + (c + (d + e)));
    SizesConcat(b, c + (d + e));
    SizesConcat(c, d + e);
    SizesConcat(d, e);
  }

  function LiquidHeaderSizes(): seq<nat> {
    Repeat(4, 1) + (Repeat(1, 2) + (Repeat(2, 1) + (Repeat(1, 4) + Repeat(4, 1))))
  }

  lemma LiquidHeaderSize(l: Liquid)
    requires WellFormedLiquid(l)
    ensures |EncodeAll(LiquidHeader(l))| == 16 && Sizes(LiquidHeader(l)) == LiquidHeaderSizes()
  {
    var h := LiquidHeader(l);
    var a, b, c, d, e := h[..1], h[1..3], h[3..4], h[4..8], h[8..];
    assert h == a + (b + (c + (d + e)));
    FiveParts(a, b, c, d, e);
    EncodeSame(a, 4);
    EncodeSame(b, 1);
    EncodeSame(c, 2);
    EncodeSame(d, 1);
    EncodeSame(e, 4);
  }

  lemma AreaPartSize(g: Grid)
    requires WellFormed(g)
    ensures |EncodeAll(AreaPart(g))| == LayoutOf(g).areaSize
  {
    EncodeConcat(AreaHeader(g), if g.areas.Some? then g.areas.value else []);
    AreaHeaderSize(g);
    if g.areas.Some? { WordsSize(g.areas.value, CELL_COUNT); }
  }

  lemma GridsSize(v9: seq<Value>, v8: seq<Value>, s: nat)
    requires |v9| == V9_COUNT && |v8| == V8_COUNT && AllOf(v9, s) && AllOf(v8, s)
    ensures |EncodeAll(v9)| + |EncodeAll(v8)| == s * (V9_COUNT + V8_COUNT)
  {
    EncodeSame(v9, s);
    EncodeSame(v8, s);
    Distribute(s, |v9|, |v8|);
  }

  lemma Distribute(s: nat, a: nat, b: nat)
    ensures s * a + s * b == s * (a + b)
  {
  }

  lemma HeightPartSize(g: Grid)
    requires WellFormed(g)
    ensures |EncodeAll(HeightPart(g))| == LayoutOf(g).heightSize
  {
    EncodeConcat(HeightHeader(g), g.v9);
    EncodeConcat(HeightHeader(g) + g.v9, g.v8);
    EncodeSame(HeightHeader(g), 4);
    if !g.kind.NoHeight? { GridsSize(g.v9, g.v8, HeightSize(g.kind)); }
  }

  lemma LiquidPartSize(l: Liquid)
    requires WellFormedLiquid(l)
    ensures |EncodeAll(LiquidValues(l))| ==
            16 + (if l.types.Some? then 3 * CELL_COUNT else 0)
            + (if l.heights.Some? then 4 * (l.width.n * l.height.n) else 0)
  {
    var types := if l.types.Some? then l.types.value.0 + l.types.value.1 else [];
    LiquidHeaderSize(l);
    EncodeConcat(LiquidHeader(l), types);
    EncodeConcat(LiquidHeader(l) + types, if l.heights.Some? then l.heights.value else []);
    if l.types.Some? {
      EncodeConcat(l.types.value.0, l.types.value.1);
      WordsSize(l.types.value.0, CELL_COUNT);
      EncodeSame(l.types.value.1, 1);
    }
    if l.heights.Some? { EncodeSame(l.heights.value, 4); }
  }

  lemma Slices<T>(a: seq<T>, b: seq<T>, c: seq<T>, d: seq<T>, e: seq<T>)
    ensures var file := a + b + c + d + e;
            && file[..|a|] == a && file[|a|..|a| + |b|] == b
            && file[|a| + |b|..|a| + |b| + |c|] == c
            && file[|a| + |b| + |c|..|a| + |b| + |c| + |d|] == d
            && file[|a| + |b| + |c| + |d|..] == e
  {
  }

  lemma SectionSizes(g: Grid)
    requires WellFormed(g)
    ensures var l := LayoutOf(g);
            && |EncodeAll(FileHeader(l))| == l.areaAt
            && |EncodeAll(AreaPart(g))| == l.areaSize && |EncodeAll(HeightPart(g))| == l.heightSize
            && |EncodeAll(LiquidPart(g))| == l.liquidSize && |EncodeAll(g.holes)| == l.holesSize
  {
    EncodeSame(FileHeader(LayoutOf(g)), 4);
    AreaPartSize(g);
    HeightPartSize(g);
    if g.liquid.Some? { LiquidPartSize(g.liquid.value); }
    WordsSize(g.holes, CELL_COUNT);
  }

  /** Every section stands where the header says, is as long as it says, and they follow one another to the
      end of the file, for every mix of sections that are reduced or left out. */
  lemma SectionsAreWhereDeclared(g: Grid)
    requires WellFormed(g)
    ensures var l, file := LayoutOf(g), FileOf(g);
            && l.areaAt + l.areaSize == l.heightAt
            && l.heightAt + l.heightSize == (if g.liquid.Some? then l.liquidAt else l.holesAt)
            && (g.liquid.Some? ==> l.liquidAt + l.liquidSize == l.holesAt)
            && l.holesAt + l.holesSize == |file|
            && file[..l.areaAt] == EncodeAll(FileHeader(l))
            && file[l.areaAt..l.heightAt] == EncodeAll(AreaPart(g))
            && file[l.heightAt..l.heightAt + l.heightSize] == EncodeAll(HeightPart(g))
            && (g.liquid.Some? ==> file[l.liquidAt..l.holesAt] == EncodeAll(LiquidPart(g)))
            && file[l.holesAt..] == EncodeAll(g.holes)
  {
    SectionSizes(g);
    Slices(EncodeAll(FileHeader(LayoutOf(g))), EncodeAll(AreaPart(g)), EncodeAll(HeightPart(g)),
           EncodeAll(LiquidPart(g)), EncodeAll(g.holes));
  }

  // ----- The server reads the file -----

  datatype LoadedHeights = LoadedHeights(minHeight: Value, maxHeight: Value, kind: HeightKind, v9: seq<Value>,
                                         v8: seq<Value>)

  datatype Loaded = Loaded(area: Value, areas: Option<seq<Value>>, heights: LoadedHeights, liquid: Option<Liquid>)

  function LoadArea(file: seq<Byte>, at: nat): Option<(Value, Option<seq<Value>>)> {
    var h := Read(file, at, [4] + Repeat(2, 2));
    if h.None? || |h.value| != 3 || h.value[0] != Magic(MAP_AREA_MAGIC) then None
    else if h.value[1].Num() % 2 == 1 then Some((h.value[2], None))
    else
      var areas := Read(file, at + 8, Repeat(2, CELL_COUNT));
      if areas.None? then None else Some((h.value[2], areas))
  }

  /** The kind of heights by the flags of the header. */
  function KindIn(flags: nat): HeightKind {
    if flags % 2 == 1 then NoHeight
    else if flags / 2 % 2 == 1 then AsInt16 else if flags / 4 % 2 == 1 then AsInt8 else AsFloat
  }

  function LoadGrids(file: seq<Byte>, at: nat, s: nat): Option<(seq<Value>, seq<Value>)> {
    var v9 := Read(file, at, Repeat(s, V9_COUNT));
    var v8 := Read(file, at + s * V9_COUNT, Repeat(s, V8_COUNT));
    if v9.None? || v8.None? then None else Some((v9.value, v8.value))
  }

  function LoadHeights(file: seq<Byte>, at: nat): Option<LoadedHeights> {
    var h := Read(file, at, Repeat(4, 4));
    if h.None? || |h.value| != 4 || h.value[0] != Magic(MAP_HEIGHT_MAGIC) then None
    else
      var kind := KindIn(h.value[1].Num());
      var grids := if kind.NoHeight? then Some(([], [])) else LoadGrids(file, at + 16, HeightSize(kind));
      if grids.None? then None
      else Some(LoadedHeights(h.value[2], h.value[3], kind, grids.value.0, grids.value.1))
  }

  function LoadLiquid(file: seq<Byte>, at: nat): Option<Liquid> {
    var h := Read(file, at, LiquidHeaderSizes());
    if h.None? || |h.value| != 9 || h.value[0] != Magic(MAP_LIQUID_MAGIC) then None
    else
      var flags := h.value[1].Num();
      var types := LoadTypes(file, at + 16, flags % 2 == 0);
      var heightsAt := at + 16 + if flags % 2 == 0 then 3 * CELL_COUNT else 0;
      var heights := LoadLevels(file, heightsAt, h.value[6].Num(), h.value[7].Num(), flags / 2 % 2 == 0);
      if types.None? || heights.None? then None
      else
        Some(Liquid(h.value[2], h.value[3], h.value[4], h.value[5], h.value[6], h.value[7], h.value[8],
                    types.value, heights.value))
  }

  function LoadTypes(file: seq<Byte>, at: nat, typed: bool): Option<Option<(seq<Value>, seq<Value>)>> {
    if !typed then Some(None)
    else
      var entries := Read(file, at, Repeat(2, CELL_COUNT));
      var flags := Read(file, at + 2 * CELL_COUNT, Repeat(1, CELL_COUNT));
      if entries.None? || flags.None? then None else Some(Some((entries.value, flags.value)))
  }

  function LoadLevels(file: seq<Byte>, at: nat, width: nat, height: nat, stored: bool): Option<Option<seq<Value>>> {
    if !stored then Some(None)
    else
      var levels := Read(file, at, Repeat(4, width * height));
      if levels.None? then None else Some(levels)
  }

  /** Where the header says the areas, heights and liquids are. */
  function LoadHeader(file: seq<Byte>): Option<(nat, nat, nat)> {
    var h := Read(file, 0, Repeat(4, 10));
    if h.None? || |h.value| != 10 || h.value[0] != Magic(MAP_MAGIC) || h.value[1] != Magic(MAP_VERSION_MAGIC) then None
    else Some((h.value[2].Num(), h.value[4].Num(), h.value[6].Num()))
  }

  /** Reads a map file; None when it is not one, or ends too early. */
  function Load(file: seq<Byte>): Option<Loaded> {
    var h := LoadHeader(file);
    if h.None? then None else LoadSections(file, h.value.0, h.value.1, h.value.2)
  }

  function LoadSections(file: seq<Byte>, areaAt: nat, heightAt: nat, liquidAt: nat): Option<Loaded> {
    var area := LoadArea(file, areaAt);
    var heights := LoadHeights(file, heightAt);
    var liquid := if liquidAt == 0 then None else LoadLiquid(file, liquidAt);
    if area.None? || heights.None? || (liquidAt != 0 && liquid.None?) then None
    else Some(Loaded(area.value.0, area.value.1, heights.value, liquid))
  }

  /** What a grid looks like to the server: one area or type for all cells is forgotten when each has its own. */
  function ViewOf(g: Grid): Loaded {
    Loaded(if g.areas.Some? then U16(0) else g.area, g.areas,
           LoadedHeights(g.minHeight, g.maxHeight, g.kind, g.v9, g.v8),
           if g.liquid.None? then None
           else
             var l := g.liquid.value;
             Some(if l.types.Some? then l.(flags := U8(0), entry := U16(0)) else l))
  }

  lemma Regroup<T>(pre: seq<T>, a: seq<T>, b: seq<T>, post: seq<T>)
    ensures pre + (a + b) + post == pre + a + (b + post)
    ensures pre + (a + b) + post == (pre + a) + b + post
  {
  }

  lemma ReadParts(file: seq<Byte>, at: nat, next: nat, pre: seq<Byte>, a: seq<Value>, b: seq<Value>, post: seq<Byte>)
    requires file == pre + EncodeAll(a + b) + post && at == |pre| && next == at + |EncodeAll(a)|
    ensures Read(file, at, Sizes(a)) == Some(a) && Read(file, next, Sizes(b)) == Some(b)
    ensures file == (pre + EncodeAll(a)) + EncodeAll(b) + post
  {
    EncodeConcat(a, b);
    Regroup(pre, EncodeAll(a), EncodeAll(b), post);
    ReadAt(file, at, Sizes(a), pre, a, EncodeAll(b) + post);
    ReadAt(file, next, Sizes(b), pre + EncodeAll(a), b, post);
  }

  lemma AreaLoads(file: seq<Byte>, at: nat, pre: seq<Byte>, g: Grid, post: seq<Byte>)
    requires WellFormed(g) && file == pre + EncodeAll(AreaPart(g)) + post && at == |pre|
    ensures LoadArea(file, at) == Some((ViewOf(g).area, g.areas))
  {
    AreaHeaderSize(g);
    ReadParts(file, at, at + 8, pre, AreaHeader(g), if g.areas.Some? then g.areas.value else [], post);
    if g.areas.Some? { WordsSize(g.areas.value, CELL_COUNT); }
  }

  /** The two grids behind the header of the heights. */
  lemma GridsLoad(file: seq<Byte>, at: nat, pre: seq<Byte>, v9: seq<Value>, v8: seq<Value>, s: nat, post: seq<Byte>)
    requires |v9| == V9_COUNT && |v8| == V8_COUNT && AllOf(v9, s) && AllOf(v8, s)
    requires file == pre + EncodeAll(v9 + v8) + post && at == |pre|
    ensures LoadGrids(file, at, s) == Some((v9, v8))
  {
    EncodeSame(v9, s);
    EncodeSame(v8, s);
    ReadParts(file, at, at + s * V9_COUNT, pre, v9, v8, post);
  }

  lemma KindIsRead(kind: HeightKind)
    ensures KindIn(HeightFlags(kind)) == kind
  {
  }

  lemma Spread(file: seq<Byte>, pre: seq<Byte>, a: seq<Value>, b: seq<Value>, post: seq<Byte>)
    requires file == pre + EncodeAll(a + b) + post
    ensures file == pre + EncodeAll(a) + (EncodeAll(b) + post) && file == (pre + EncodeAll(a)) + EncodeAll(b) + post
  {
    EncodeConcat(a, b);
    Regroup(pre, EncodeAll(a), EncodeAll(b), post);
  }

  /** A header and what stands behind it; the header is kept as a whole. */
  lemma HeadIsRead(file: seq<Byte>, at: nat, pre: seq<Byte>, h: seq<Value>, body: seq<Value>, post: seq<Byte>)
    requires file == pre + EncodeAll(h + body) + post && at == |pre|
    ensures Read(file, at, Sizes(h)) == Some(h) && file == (pre + EncodeAll(h)) + EncodeAll(body) + post
  {
    Spread(file, pre, h, body, post);
    ReadAt(file, at, Sizes(h), pre, h, EncodeAll(body) + post);
  }

  lemma HeightsBehind(file: seq<Byte>, at: nat, pre: seq<Byte>, h: seq<Value>, g: Grid, post: seq<Byte>)
    requires WellFormed(g) && !g.kind.NoHeight? && |EncodeAll(h)| == 16
    requires file == pre + EncodeAll(h + (g.v9 + g.v8)) + post && at == |pre|
    ensures Read(file, at, Sizes(h)) == Some(h) && LoadGrids(file, at + 16, HeightSize(g.kind)) == Some((g.v9, g.v8))
  {
    HeadIsRead(file, at, pre, h, g.v9 + g.v8, post);
    GridsLoad(file, at + 16, pre + EncodeAll(h), g.v9, g.v8, HeightSize(g.kind), post);
  }

  lemma HeightHeaderLeads(file: seq<Byte>, at: nat, g: Grid)
    requires Read(file, at, Repeat(4, 4)) == Some(HeightHeader(g))
    requires !g.kind.NoHeight? ==> LoadGrids(file, at + 16, HeightSize(g.kind)) == Some((g.v9, g.v8))
    requires g.kind.NoHeight? ==> g.v9 == [] && g.v8 == []
    ensures LoadHeights(file, at) == Some(ViewOf(g).heights)
  {
    KindIsRead(g.kind);
  }

  lemma HeightsLoad(file: seq<Byte>, at: nat, pre: seq<Byte>, g: Grid, post: seq<Byte>)
    requires WellFormed(g) && file == pre + EncodeAll(HeightPart(g)) + post && at == |pre|
    ensures LoadHeights(file, at) == Some(ViewOf(g).heights)
  {
    var h := HeightHeader(g);
    EncodeSame(h, 4);
    if g.kind.NoHeight? {
      assert HeightPart(g) == h;
      ReadAt(file, at, Repeat(4, 4), pre, h, post);
    } else {
      assert HeightPart(g) == h + (g.v9 + g.v8);
      HeightsBehind(file, at, pre, h, g, post);
    }
    HeightHeaderLeads(file, at, g);
  }

  lemma TypesLoad(file: seq<Byte>, at: nat, pre: seq<Byte>, l: Liquid, post: seq<Byte>)
    requires WellFormedLiquid(l) && at == |pre|
    requires l.types.Some? ==> file == pre + EncodeAll(l.types.value.0 + l.types.value.1) + post
    ensures LoadTypes(file, at, l.types.Some?) == Some(l.types)
  {
    if l.types.Some? {
      WordsSize(l.types.value.0, CELL_COUNT);
      EncodeSame(l.types.value.1, 1);
      ReadParts(file, at, at + 2 * CELL_COUNT, pre, l.types.value.0, l.types.value.1, post);
    }
  }

  lemma LevelsLoad(file: seq<Byte>, at: nat, pre: seq<Byte>, l: Liquid, post: seq<Byte>)
    requires WellFormedLiquid(l) && at == |pre|
    requires l.heights.Some? ==> file == pre + EncodeAll(l.heights.value) + post
    ensures LoadLevels(file, at, l.width.n, l.height.n, l.heights.Some?) == Some(l.heights)
  {
    if l.heights.Some? {
      EncodeSame(l.heights.value, 4);
      ReadAt(file, at, Sizes(l.heights.value), pre, l.heights.value, post);
    }
  }

  lemma TypesSize(l: Liquid)
    requires WellFormedLiquid(l) && l.types.Some?
    ensures |EncodeAll(l.types.value.0 + l.types.value.1)| == 3 * CELL_COUNT
  {
    EncodeConcat(l.types.value.0, l.types.value.1);
    WordsSize(l.types.value.0, CELL_COUNT);
    EncodeSame(l.types.value.1, 1);
  }

  ghost predicate LiquidStands(file: seq<Byte>, at: nat, l: Liquid)
    requires WellFormedLiquid(l)
  {
    && Read(file, at, LiquidHeaderSizes()) == Some(LiquidHeader(l))
    && LoadTypes(file, at + 16, l.types.Some?) == Some(l.types)
    && LoadLevels(file, at + 16 + if l.types.Some? then 3 * CELL_COUNT else 0, l.width.n, l.height.n, l.heights.Some?)
       == Some(l.heights)
  }

  function TypeValues(l: Liquid): seq<Value> { if l.types.Some? then l.types.value.0 + l.types.value.1 else [] }

  function LevelValues(l: Liquid): seq<Value> { if l.heights.Some? then l.heights.value else [] }

  lemma LiquidIsThree(l: Liquid)
    ensures LiquidValues(l) == LiquidHeader(l) + (TypeValues(l) + LevelValues(l))
  {
  }

  lemma LiquidBodies(file: seq<Byte>, at: nat, pre: seq<Byte>, l: Liquid, post: seq<Byte>)
    requires WellFormedLiquid(l) && file == pre + EncodeAll(TypeValues(l) + LevelValues(l)) + post && at == |pre|
    ensures LoadTypes(file, at, l.types.Some?) == Some(l.types)
    ensures LoadLevels(file, at + |EncodeAll(TypeValues(l))|, l.width.n, l.height.n, l.heights.Some?) == Some(l.heights)
  {
    var types, levels := TypeValues(l), LevelValues(l);
    Spread(file, pre, types, levels, post);
    TypesLoad(file, at, pre, l, EncodeAll(levels) + post);
    LevelsLoad(file, at + |EncodeAll(types)|, pre + EncodeAll(types), l, post);
  }

  lemma LiquidIsThere(file: seq<Byte>, at: nat, pre: seq<Byte>, l: Liquid, post: seq<Byte>)
    requires WellFormedLiquid(l) && file == pre + EncodeAll(LiquidValues(l)) + post && at == |pre|
    ensures LiquidStands(file, at, l)
  {
    LiquidIsThree(l);
    LiquidHeaderSize(l);
    HeadIsRead(file, at, pre, LiquidHeader(l), TypeValues(l) + LevelValues(l), post);
    LiquidBodies(file, at + 16, pre + EncodeAll(LiquidHeader(l)), l, post);
    assert |EncodeAll(TypeValues(l))| == if l.types.Some? then 3 * CELL_COUNT else 0 by {
      if l.types.Some? { TypesSize(l); }
    }
  }

  lemma LiquidFlagsAreRead(l: Liquid)
    ensures LiquidHeader(l)[1].Num() % 2 == 0 <==> l.types.Some?
    ensures LiquidHeader(l)[1].Num() / 2 % 2 == 0 <==> l.heights.Some?
  {
  }

  lemma LiquidLoads(file: seq<Byte>, at: nat, l: Liquid)
    requires WellFormedLiquid(l) && LiquidStands(file, at, l)
    ensures LoadLiquid(file, at) == Some(if l.types.Some? then l.(flags := U8(0), entry := U16(0)) else l)
  {
    LiquidFlagsAreRead(l);
  }

  lemma SectionsLoad(g: Grid)
    requires WellFormed(g)
    ensures LoadSections(FileOf(g), LayoutOf(g).areaAt, LayoutOf(g).heightAt, LayoutOf(g).liquidAt) == Some(ViewOf(g))
  {
    var l, file := LayoutOf(g), FileOf(g);
    var head, area, heights, liquid, holes :=
      EncodeAll(FileHeader(l)), EncodeAll(AreaPart(g)), EncodeAll(HeightPart(g)), EncodeAll(LiquidPart(g)),
      EncodeAll(g.holes);
    SectionSizes(g);
    Tails(head, area, heights, liquid, holes);
    AreaLoads(file, l.areaAt, head, g, heights + liquid + holes);
    HeightsLoad(file, l.heightAt, head + area, g, liquid + holes);
    if g.liquid.Some? {
      LiquidIsThere(file, l.liquidAt, head + area + heights, g.liquid.value, holes);
      LiquidLoads(file, l.liquidAt, g.liquid.value);
    }
  }

  lemma FirstIsRead(file: seq<Byte>, h: seq<Value>, rest: seq<Byte>)
    requires file == EncodeAll(h) + rest
    ensures Read(file, 0, Sizes(h)) == Some(h)
  {
    assert file == [] + EncodeAll(h) + rest;
    ReadAt(file, 0, Sizes(h), [], h, rest);
  }

  lemma HeaderReads(g: Grid)
    requires WellFormed(g)
    ensures Read(FileOf(g), 0, Repeat(4, 10)) == Some(FileHeader(LayoutOf(g)))
  {
    var h := FileHeader(LayoutOf(g));
    var area, heights, liquid, holes :=
      EncodeAll(AreaPart(g)), EncodeAll(HeightPart(g)), EncodeAll(LiquidPart(g)), EncodeAll(g.holes);
    EncodeSame(h, 4);
    Tails(EncodeAll(h), area, heights, liquid, holes);
    FirstIsRead(FileOf(g), h, area + heights + liquid + holes);
  }

  lemma HeaderSays(l: Layout)
    ensures var h := FileHeader(l);
            |h| == 10 && h[0] == Magic(MAP_MAGIC) && h[1] == Magic(MAP_VERSION_MAGIC)
            && h[2].Num() == l.areaAt && h[4].Num() == l.heightAt && h[6].Num() == l.liquidAt
  {
  }

  lemma HeaderIsRead(g: Grid)
    requires WellFormed(g)
    ensures LoadHeader(FileOf(g)) == Some((LayoutOf(g).areaAt, LayoutOf(g).heightAt, LayoutOf(g).liquidAt))
  {
    HeaderReads(g);
    HeaderSays(LayoutOf(g));
    HeaderLeads(FileOf(g), LayoutOf(g), FileHeader(LayoutOf(g)));
  }

  lemma LoadsThrough(file: seq<Byte>, l: Layout, view: Loaded)
    requires LoadHeader(file) == Some((l.areaAt, l.heightAt, l.liquidAt))
    requires LoadSections(file, l.areaAt, l.heightAt, l.liquidAt) == Some(view)
    ensures Load(file) == Some(view)
  {
  }

  /** What the server reads from a stored file is what was stored, for every mix of sections. */
  lemma LoadReadsWhatWasStored(g: Grid)
    requires WellFormed(g)
    ensures Load(FileOf(g)) == Some(ViewOf(g))
  {
    HeaderIsRead(g);
    SectionsLoad(g);
    LoadsThrough(FileOf(g), LayoutOf(g), ViewOf(g));
  }

  lemma HeaderLeads(file: seq<Byte>, l: Layout, h: seq<Value>)
    requires Read(file, 0, Repeat(4, 10)) == Some(h) && |h| == 10
    requires h[0] == Magic(MAP_MAGIC) && h[1] == Magic(MAP_VERSION_MAGIC)
    requires h[2].Num() == l.areaAt && h[4].Num() == l.heightAt && h[6].Num() == l.liquidAt
    ensures LoadHeader(file) == Some((l.areaAt, l.heightAt, l.liquidAt))
  {
  }

  lemma Tails<T>(a: seq<T>, b: seq<T>, c: seq<T>, d: seq<T>, e: seq<T>)
    ensures a + b + c + d + e == a + (b + c + d + e)
    ensures a + b + c + d + e == a + b + (c + d + e)
    ensures a + b + c + d + e == (a + b) + c + (d + e)
    ensures a + b + c + d + e == (a + b + c) + d + e
  {
  }

  // ----- From the grids to the values -----

  /** Whether the cells are not all like the first. */
  method NeedsFull<T(==)>(a: array2<T>) returns (full: bool)
    requires a.Length0 == a.Length1 == CELLS
    ensures full <==> exists y, x :: 0 <= y < CELLS && 0 <= x < CELLS && a[y, x] != a[0, 0]
  {
    full := false;
    for y := 0 to CELLS
      invariant full <==> exists j, i :: 0 <= j < y && 0 <= i < CELLS && a[j, i] != a[0, 0]
    {
      var x := 0;
      while x < CELLS && a[y, x] == a[0, 0]
        invariant 0 <= x <= CELLS && forall i :: 0 <= i < x ==> a[y, i] == a[0, 0]
      {
        x := x + 1;
      }
      if x < CELLS { full := true; }
    }
  }

  /** The same for two arrays at once; the search ends at the first difference. */
  method NeedsTypes(entry: array2<nat>, flags: array2<nat>) returns (full: bool)
    requires entry.Length0 == entry.Length1 == flags.Length0 == flags.Length1 == CELLS
    ensures full <==> !Uniform(entry, flags)
  {
    full := false;
    var y := 0;
    while y < CELLS && !full
      invariant 0 <= y <= CELLS
      invariant !full ==> forall j, i :: 0 <= j < y && 0 <= i < CELLS ==> SameType(entry, flags, j, i)
      invariant full ==> !Uniform(entry, flags)
    {
      var x := 0;
      while x < CELLS && !full
        invariant 0 <= x <= CELLS
        invariant !full ==> forall i :: 0 <= i < x ==> SameType(entry, flags, y, i)
        invariant full ==> !Uniform(entry, flags)
      {
        if entry[y, x] != entry[0, 0] || flags[y, x] != flags[0, 0] {
          assert !SameType(entry, flags, y, x);
          full := true;
        }
        x := x + 1;
      }
      y := y + 1;
    }
  }

  ghost predicate SameType(entry: array2<nat>, flags: array2<nat>, y: int, x: int)
    requires entry.Length0 == entry.Length1 == flags.Length0 == flags.Length1 == CELLS
    requires 0 <= y < CELLS && 0 <= x < CELLS
    reads entry, flags
  {
    entry[y, x] == entry[0, 0] && flags[y, x] == flags[0, 0]
  }

  /** All cells have the liquid of the first. */
  ghost predicate Uniform(entry: array2<nat>, flags: array2<nat>)
    requires entry.Length0 == entry.Length1 == flags.Length0 == flags.Length1 == CELLS
    reads entry, flags
  {
    forall y, x :: 0 <= y < CELLS && 0 <= x < CELLS ==> SameType(entry, flags, y, x)
  }

  /** The place of a value in rows of a width. */
  function At(y: nat, x: nat, width: nat): nat { y * width + x }

  lemma AtIsInRow(y: nat, x: nat, width: nat, rows: nat)
    requires y < rows && x < width
    ensures At(y, x, width) < rows * width
  {
    assert (y + 1) * width <= rows * width;
  }

  /** A rectangle of an array, row by row. */
  method RowsOf<T>(a: array2<T>, offY: nat, offX: nat, rows: nat, width: nat) returns (r: seq<T>)
    requires offY + rows <= a.Length0 && offX + width <= a.Length1
    ensures |r| == rows * width
    ensures forall y, x :: 0 <= y < rows && 0 <= x < width ==>
              At(y, x, width) < |r| && r[At(y, x, width)] == a[y + offY, x + offX]
  {
    r := [];
    for y := 0 to rows
      invariant |r| == y * width
      invariant forall j, i :: 0 <= j < y && 0 <= i < width ==>
                  At(j, i, width) < |r| && r[At(j, i, width)] == a[j + offY, i + offX]
    {
      var row: seq<T> := [];
      for x := 0 to width
        invariant |row| == x && forall i :: 0 <= i < x ==> row[i] == a[y + offY, i + offX]
      {
        row := row + [a[y + offY, x + offX]];
      }
      ghost var before := r;
      r := r + row;
      forall j, i | 0 <= j < y + 1 && 0 <= i < width
        ensures At(j, i, width) < |r| && r[At(j, i, width)] == a[j + offY, i + offX]
      {
        AtIsInRow(j, i, width, y + 1);
        assert j < y ==> r[At(j, i, width)] == before[At(j, i, width)];
        assert j == y ==> r[At(j, i, width)] == row[i];
      }
    }
  }

  /** What the server takes for a height, and how far off it may be. */
  function ServerHeight(v: Value, kind: HeightKind, minHeight: real, maxHeight: real): real {
    match kind
    case NoHeight => minHeight
    case AsFloat => if v.F32? then v.r else minHeight
    case _ => Restore(v.Num(), minHeight, maxHeight, Levels(kind))
  }

  function Tolerance(kind: HeightKind, minHeight: real, maxHeight: real): real {
    match kind
    case NoHeight => maxHeight - minHeight
    case AsFloat => 0.0
    case _ => (maxHeight - minHeight) / Levels(kind) as real * 0.5
  }

  function ValueAt(vs: seq<Value>, k: nat): Value { if k < |vs| then vs[k] else U8(0) }

  /** Every point of a grid is known to the server up to the tolerance. */
  ghost predicate Known(a: array2<real>, vs: seq<Value>, kind: HeightKind, minHeight: real, maxHeight: real)
    reads a
  {
    forall y, x :: 0 <= y < a.Length0 && 0 <= x < a.Length1 ==>
      var h := ServerHeight(ValueAt(vs, At(y, x, a.Length1)), kind, minHeight, maxHeight);
      -Tolerance(kind, minHeight, maxHeight) <= h - a[y, x] <= Tolerance(kind, minHeight, maxHeight)
  }

  /** The values stored for a grid of heights. */
  method HeightValues(a: array2<real>, minHeight: real, maxHeight: real, kind: HeightKind) returns (vs: seq<Value>)
    requires Bounds(a, minHeight, maxHeight) && (!kind.NoHeight? ==> minHeight < maxHeight)
    ensures kind.NoHeight? ==> vs == []
    ensures !kind.NoHeight? ==> |vs| == a.Length0 * a.Length1 && AllOf(vs, HeightSize(kind))
    ensures Known(a, vs, kind, minHeight, maxHeight)
  {
    if kind.NoHeight? {
      vs := [];
    } else if kind.AsFloat? {
      vs := FloatValues(a, minHeight, maxHeight);
    } else {
      vs := PackedValues(a, minHeight, maxHeight, kind);
    }
  }

  method FloatValues(a: array2<real>, minHeight: real, maxHeight: real) returns (vs: seq<Value>)
    ensures |vs| == a.Length0 * a.Length1 && AllOf(vs, 4) && Known(a, vs, AsFloat, minHeight, maxHeight)
  {
    var r := RowsOf(a, 0, 0, a.Length0, a.Length1);
    vs := seq(|r|, i requires 0 <= i < |r| => F32(r[i]));
    forall y, x | 0 <= y < a.Length0 && 0 <= x < a.Length1
      ensures ServerHeight(ValueAt(vs, At(y, x, a.Length1)), AsFloat, minHeight, maxHeight) == a[y, x]
    {
      assert vs[At(y, x, a.Length1)] == F32(a[y, x]);
    }
  }

  method PackedValues(a: array2<real>, minHeight: real, maxHeight: real, kind: HeightKind) returns (vs: seq<Value>)
    requires Bounds(a, minHeight, maxHeight) && minHeight < maxHeight && (kind.AsInt8? || kind.AsInt16?)
    ensures |vs| == a.Length0 * a.Length1 && AllOf(vs, HeightSize(kind)) && Known(a, vs, kind, minHeight, maxHeight)
  {
    var p := PackHeights(a, minHeight, maxHeight, kind);
    var r := RowsOf(p, 0, 0, a.Length0, a.Length1);
    vs := seq(|r|, i requires 0 <= i < |r| => Packed(kind, r[i]));
    forall y, x | 0 <= y < a.Length0 && 0 <= x < a.Length1
      ensures vs[At(y, x, a.Length1)].Num() == Quantise(a[y, x], minHeight, StepOf(Levels(kind), minHeight, maxHeight))
    {
      assert vs[At(y, x, a.Length1)] == Packed(kind, p[y, x]);
    }
    PackedIsKnown(a, vs, kind, minHeight, maxHeight);
  }

  function Packed(kind: HeightKind, q: int): Value {
    var n: nat := if q < 0 then 0 else q;
    if kind.AsInt8? then U8(n) else U16(n)
  }

  lemma PackedIsKnown(a: array2<real>, vs: seq<Value>, kind: HeightKind, minHeight: real, maxHeight: real)
    requires (kind.AsInt8? || kind.AsInt16?) && minHeight < maxHeight && Bounds(a, minHeight, maxHeight)
    requires forall y, x :: 0 <= y < a.Length0 && 0 <= x < a.Length1 ==>
               At(y, x, a.Length1) < |vs|
               && vs[At(y, x, a.Length1)].Num()
                  == Quantise(a[y, x], minHeight, StepOf(Levels(kind), minHeight, maxHeight))
    ensures Known(a, vs, kind, minHeight, maxHeight)
  {
    forall y, x | 0 <= y < a.Length0 && 0 <= x < a.Length1
      ensures var h := ServerHeight(ValueAt(vs, At(y, x, a.Length1)), kind, minHeight, maxHeight);
              -Tolerance(kind, minHeight, maxHeight) <= h - a[y, x] <= Tolerance(kind, minHeight, maxHeight)
    {
      QuantiseIsAccurate(a[y, x], minHeight, maxHeight, Levels(kind));
    }
  }

  twostate predicate Raised(a: array2<real>, allowLimit: bool)
    reads a
  {
    forall y, x :: 0 <= y < a.Length0 && 0 <= x < a.Length1 ==>
      a[y, x] == if allowLimit then AtLeast(old(a[y, x])) else old(a[y, x])
  }

  /** From the heights of a grid to what is stored of them: the server knows every height, as raised to the
      limit, up to the tolerance of the kind. */
  method ConvertHeights(v9: array2<real>, v8: array2<real>, allowLimit: bool, allowInt: bool)
    returns (minHeight: real, maxHeight: real, kind: HeightKind, s9: seq<Value>, s8: seq<Value>)
    requires Shaped(v9, v8) && v9 != v8
    modifies v9, v8
    ensures Raised(v9, allowLimit) && Raised(v8, allowLimit)
    ensures minHeight <= maxHeight && kind == KindOf(minHeight, maxHeight, allowInt)
    ensures Known(v9, s9, kind, minHeight, maxHeight) && Known(v8, s8, kind, minHeight, maxHeight)
    ensures if kind.NoHeight? then s9 == [] && s8 == []
            else |s9| == V9_COUNT && |s8| == V8_COUNT && AllOf(s9, HeightSize(kind)) && AllOf(s8, HeightSize(kind))
  {
    minHeight, maxHeight := HeightRange(v9, v8);
    minHeight, maxHeight := LimitHeights(v9, v8, minHeight, maxHeight, allowLimit);
    kind := KindOf(minHeight, maxHeight, allowInt);
    s9 := HeightValues(v9, minHeight, maxHeight, kind);
    s8 := HeightValues(v8, minHeight, maxHeight, kind);
  }

  /** The values are those of a rectangle of the corners, row by row. */
  ghost predicate Corners(vs: seq<Value>, height: array2<real>, offY: int, offX: int, rows: int, width: int)
    requires 0 <= offY && 0 <= offX && 0 <= width && offY + rows <= height.Length0 && offX + width <= height.Length1
    reads height
  {
    forall y, x :: 0 <= y < rows && 0 <= x < width ==>
      At(y, x, width) < |vs| && vs[At(y, x, width)] == F32(height[y + offY, x + offX])
  }

  /** The levels of the liquid that are stored: the corners of the rectangle, where something is shown. */
  method LiquidLevels(height: array2<real>, show: array2<bool>, b: Box) returns (vs: seq<Value>)
    requires show.Length0 == show.Length1 == GRID && height.Length0 == height.Length1 == GRID + 1
    requires Tight(b, show) && b.minX != 255
    ensures |vs| == Height(b) * Width(b) && AllOf(vs, 4)
    ensures Corners(vs, height, b.minY, b.minX, b.maxY - b.minY + 2, b.maxX - b.minX + 2)
  {
    RectangleIsInside(b, show, true);
    var r := RowsOf(height, OffsetY(b), OffsetX(b), Height(b), Width(b));
    vs := seq(|r|, i requires 0 <= i < |r| => F32(r[i]));
  }

  /** Rounding makes no height more than 0.016 higher or lower, and none at all unless integers are allowed. */
  lemma ToleranceIsSmall(minHeight: real, maxHeight: real, allowInt: bool)
    requires minHeight <= maxHeight
    ensures var t := Tolerance(KindOf(minHeight, maxHeight, allowInt), minHeight, maxHeight);
            0.0 <= t <= 2048.0 / 131070.0 && (!allowInt ==> t == 0.0)
  {
    if allowInt { PackingIsFine(minHeight, maxHeight); }
  }

  // ----- From the grid to what the server answers -----

  ghost predicate Cells(a: array2<nat>, limit: nat)
    reads a
  {
    a.Length0 == a.Length1 == CELLS && forall y, x :: 0 <= y < CELLS && 0 <= x < CELLS ==> a[y, x] < limit
  }

  /** The value of a cell when each has its own, else the one for all. */
  function CellValue(all: Value, each: Option<seq<Value>>, y: nat, x: nat): Value {
    if each.None? then all else ValueAt(each.value, At(y, x, CELLS))
  }

  /** The values of the cells, row by row. */
  method CellValues(a: array2<nat>, limit: nat) returns (vs: seq<Value>)
    requires Cells(a, limit)
    ensures Words(vs, CELL_COUNT)
    ensures forall y, x :: 0 <= y < CELLS && 0 <= x < CELLS ==> ValueAt(vs, At(y, x, CELLS)) == U16(a[y, x])
  {
    var r := RowsOf(a, 0, 0, CELLS, CELLS);
    vs := seq(|r|, i requires 0 <= i < |r| => U16(r[i]));
  }

  method CellBytes(a: array2<nat>) returns (vs: seq<Value>)
    requires Cells(a, 256)
    ensures |vs| == CELL_COUNT && AllOf(vs, 1)
    ensures forall y, x :: 0 <= y < CELLS && 0 <= x < CELLS ==> ValueAt(vs, At(y, x, CELLS)) == U8(a[y, x])
  {
    var r := RowsOf(a, 0, 0, CELLS, CELLS);
    vs := seq(|r|, i requires 0 <= i < |r| => U8(r[i]));
  }

  /** One area for all cells where that is enough. */
  method ConvertAreas(areas: array2<nat>) returns (area: Value, each: Option<seq<Value>>)
    requires Cells(areas, 65536)
    ensures area.U16? && (each.Some? ==> Words(each.value, CELL_COUNT))
    ensures forall y, x :: 0 <= y < CELLS && 0 <= x < CELLS ==> CellValue(area, each, y, x) == U16(areas[y, x])
  {
    area, each := U16(areas[0, 0]), None;
    var full := NeedsFull(areas);
    if full {
      var vs := CellValues(areas, 65536);
      each := Some(vs);
    }
  }

  /** The level the server finds at a square; none is found outside the rectangle. */
  function LevelAt(l: Liquid, y: int, x: int): Option<real> {
    if l.heights.None? then Some(Real(l.level))
    else
      var cy, cx := y - l.offsetY.Num(), x - l.offsetX.Num();
      if 0 <= cy < l.height.Num() && 0 <= cx < l.width.Num()
      then Some(Real(ValueAt(l.heights.value, At(cy, cx, l.width.Num())))) else None
  }

  function Real(v: Value): real { if v.F32? then v.r else 0.0 }

  /** What the server knows of a liquid: the type of every cell, and the level wherever it is shown. */
  ghost predicate TypesKnown(l: Liquid, entry: array2<nat>, flags: array2<nat>)
    requires Cells(entry, 65536) && Cells(flags, 256)
    reads entry, flags
  {
    forall y, x :: 0 <= y < CELLS && 0 <= x < CELLS ==>
      && CellValue(l.entry, if l.types.None? then None else Some(l.types.value.0), y, x) == U16(entry[y, x])
      && CellValue(l.flags, if l.types.None? then None else Some(l.types.value.1), y, x) == U8(flags[y, x])
  }

  ghost predicate LevelsKnown(l: Liquid, show: array2<bool>, height: array2<real>, tolerance: real)
    requires height.Length0 == height.Length1 == GRID + 1
    reads show, height
  {
    forall y, x :: 0 <= y < GRID && 0 <= x < GRID && Shows(show, x, y) ==>
      LevelAt(l, y, x).Some? && 0.0 <= height[y, x] - LevelAt(l, y, x).value <= tolerance
  }

  /** Whether there is any liquid to store. */
  ghost predicate HasLiquid(entry: array2<nat>, flags: array2<nat>)
    requires Cells(entry, 65536) && Cells(flags, 256)
    reads entry, flags
  {
    flags[0, 0] != 0 || !Uniform(entry, flags)
  }

  /** There is none exactly when no cell has any flags, and all cells have the same entry - which then need not be 0. */
  lemma NoLiquidExactly(entry: array2<nat>, flags: array2<nat>)
    requires Cells(entry, 65536) && Cells(flags, 256)
    ensures !HasLiquid(entry, flags) <==>
            forall y, x :: 0 <= y < CELLS && 0 <= x < CELLS ==> flags[y, x] == 0 && entry[y, x] == entry[0, 0]
  {
    if flags[0, 0] == 0 && forall y, x :: 0 <= y < CELLS && 0 <= x < CELLS ==> SameType(entry, flags, y, x) {
      forall y, x | 0 <= y < CELLS && 0 <= x < CELLS ensures flags[y, x] == 0 && entry[y, x] == entry[0, 0] {
        assert SameType(entry, flags, y, x);
      }
    }
  }

  /** The header of the liquids, without what follows it. */
  function LiquidOf(b: Box, flags: nat, entry: nat): (l: Liquid)
    ensures flags < 256 && entry < 65536 ==> WellFormedLiquid(l)
  {
    Liquid(U8(flags), U16(entry), U8(OffsetX(b)), U8(OffsetY(b)), U8(Width(b)), U8(Height(b)), F32(b.low), None, None)
  }

  lemma OneTypeIsEnough(l: Liquid, entry: array2<nat>, flags: array2<nat>)
    requires Cells(entry, 65536) && Cells(flags, 256) && Uniform(entry, flags)
    requires l.types.None? && l.entry == U16(entry[0, 0]) && l.flags == U8(flags[0, 0])
    ensures TypesKnown(l, entry, flags)
  {
    forall y, x | 0 <= y < CELLS && 0 <= x < CELLS ensures entry[y, x] == entry[0, 0] && flags[y, x] == flags[0, 0] {
      assert SameType(entry, flags, y, x);
    }
  }

  lemma LevelsFromRectangle(l: Liquid, b: Box, show: array2<bool>, height: array2<real>)
    requires show.Length0 == show.Length1 == GRID && height.Length0 == height.Length1 == GRID + 1
    requires Tight(b, show) && Covers(b, show, height, GRID, 0) && b.minX != 255
    requires l.offsetX == U8(OffsetX(b)) && l.offsetY == U8(OffsetY(b))
    requires l.width == U8(Width(b)) && l.height == U8(Height(b))
    requires l.heights.Some?
    requires Corners(l.heights.value, height, b.minY, b.minX, b.maxY - b.minY + 2, b.maxX - b.minX + 2)
    ensures LevelsKnown(l, show, height, 0.0)
  {
    RectangleIsInside(b, show, true);
    forall y, x | 0 <= y < GRID && 0 <= x < GRID && Shows(show, x, y) ensures LevelAt(l, y, x) == Some(height[y, x]) {
      assert b.minX <= x <= b.maxX && b.minY <= y <= b.maxY;
    }
  }

  /** One type for all cells where that is enough. */
  method TypedLiquid(b: Box, entry: array2<nat>, flags: array2<nat>, full: bool) returns (l: Liquid)
    requires Cells(entry, 65536) && Cells(flags, 256) && (full <==> !Uniform(entry, flags))
    ensures WellFormedLiquid(l) && TypesKnown(l, entry, flags)
    ensures l == LiquidOf(b, flags[0, 0], entry[0, 0]).(types := l.types)
  {
    l := LiquidOf(b, flags[0, 0], entry[0, 0]);
    if full {
      var entries := CellValues(entry, 65536);
      var bytes := CellBytes(flags);
      l := l.(types := Some((entries, bytes)));
    } else {
      OneTypeIsEnough(l, entry, flags);
    }
  }

  /** One level for the whole rectangle where that is enough. */
  method LevelledLiquid(l: Liquid, b: Box, show: array2<bool>, height: array2<real>, allowInt: bool)
    returns (l': Liquid)
    requires show.Length0 == show.Length1 == GRID && height.Length0 == height.Length1 == GRID + 1
    requires Tight(b, show) && Covers(b, show, height, GRID, 0) && (b.minX != 255 || allowInt)
    requires WellFormedLiquid(l) && l.heights.None? && l.level == F32(b.low)
    requires l.offsetX == U8(OffsetX(b)) && l.offsetY == U8(OffsetY(b))
    requires l.width == U8(Width(b)) && l.height == U8(Height(b))
    ensures WellFormedLiquid(l') && l' == l.(heights := l'.heights)
    ensures LevelsKnown(l', show, height, if allowInt then FLAT_LIQUID_DELTA_LIMIT else 0.0)
  {
    l' := l;
    if StoresHeights(b, allowInt) {
      RectangleIsInside(b, show, allowInt);
      var levels := LiquidLevels(height, show, b);
      l' := l.(heights := Some(levels));
      LevelsFromRectangle(l', b, show, height);
    }
  }

  twostate predicate ShownIsKept(show: array2<bool>, height: array2<real>)
    requires show.Length0 == show.Length1 == GRID && height.Length0 == height.Length1 == GRID + 1
    reads show, height
  {
    forall y, x :: 0 <= y < GRID && 0 <= x < GRID && show[y, x] ==> height[y, x] == old(height[y, x])
  }

  /** The liquids of a grid that has some. Where nothing is shown, levels could only be read from outside the grid. */
  method SomeLiquid(entry: array2<nat>, flags: array2<nat>, full: bool, show: array2<bool>, height: array2<real>,
                    allowInt: bool)
    returns (l: Liquid)
    requires Cells(entry, 65536) && Cells(flags, 256) && (full <==> !Uniform(entry, flags))
    requires show.Length0 == show.Length1 == GRID && height.Length0 == height.Length1 == GRID + 1
    requires allowInt || ShowsAny(show)
    modifies height
    ensures WellFormedLiquid(l) && TypesKnown(l, entry, flags)
    ensures LevelsKnown(l, show, height, if allowInt then FLAT_LIQUID_DELTA_LIMIT else 0.0)
    ensures ShownIsKept(show, height)
  {
    var b := LiquidBox(show, height);
    l := TypedLiquid(b, entry, flags, full);
    l := LevelledLiquid(l, b, show, height, allowInt);
  }

  /** From the liquids of a grid to what is stored of them, if anything is. */
  method ConvertLiquid(entry: array2<nat>, flags: array2<nat>, show: array2<bool>, height: array2<real>, allowInt: bool)
    returns (liquid: Option<Liquid>)
    requires Cells(entry, 65536) && Cells(flags, 256)
    requires show.Length0 == show.Length1 == GRID && height.Length0 == height.Length1 == GRID + 1
    requires HasLiquid(entry, flags) && !allowInt ==> ShowsAny(show)
    modifies height
    ensures liquid.Some? <==> old(HasLiquid(entry, flags))
    ensures liquid.Some? ==> WellFormedLiquid(liquid.value) && TypesKnown(liquid.value, entry, flags)
    ensures liquid.Some? ==> LevelsKnown(liquid.value, show, height, if allowInt then FLAT_LIQUID_DELTA_LIMIT else 0.0)
    ensures ShownIsKept(show, height)
  {
    var full := NeedsTypes(entry, flags);
    liquid := None;
    if flags[0, 0] != 0 || full {
      assert HasLiquid(entry, flags);
      var l := SomeLiquid(entry, flags, full, show, height, allowInt);
      liquid := Some(l);
    }
  }

  /** The sources of a grid: areas, liquids and holes by cell, heights by corner and centre, and where liquid shows. */
  datatype Terrain = Terrain(areas: array2<nat>, v9: array2<real>, v8: array2<real>, entry: array2<nat>,
                             flags: array2<nat>, show: array2<bool>, liquid: array2<real>, holes: array2<nat>)

  ghost predicate ShapedTerrain(t: Terrain)
    reads t.areas, t.entry, t.flags, t.holes
  {
    && Cells(t.areas, 65536) && Cells(t.entry, 65536) && Cells(t.flags, 256) && Cells(t.holes, 65536)
    && Shaped(t.v9, t.v8) && t.v9 != t.v8 && t.liquid != t.v9 && t.liquid != t.v8
    && t.show.Length0 == t.show.Length1 == GRID && t.liquid.Length0 == t.liquid.Length1 == GRID + 1
  }

  /** What the server answers from a loaded grid, against the grid. */
  ghost predicate AreasKnown(m: Loaded, t: Terrain)
    requires ShapedTerrain(t)
    reads t.areas, t.entry, t.flags, t.holes
  {
    forall y, x :: 0 <= y < CELLS && 0 <= x < CELLS ==> CellValue(m.area, m.areas, y, x) == U16(t.areas[y, x])
  }

  ghost predicate HeightsKnown(h: LoadedHeights, t: Terrain, allowInt: bool)
    reads t.v9, t.v8
  {
    var lo, hi := Real(h.minHeight), Real(h.maxHeight);
    && Known(t.v9, h.v9, h.kind, lo, hi) && Known(t.v8, h.v8, h.kind, lo, hi)
    && Tolerance(h.kind, lo, hi) <= if allowInt then 2048.0 / 131070.0 else 0.0
  }

  ghost predicate LiquidKnown(liquid: Option<Liquid>, t: Terrain, allowInt: bool)
    requires ShapedTerrain(t)
    reads t.areas, t.entry, t.flags, t.holes, t.show, t.liquid
  {
    && (liquid.Some? <==> HasLiquid(t.entry, t.flags))
    && (liquid.Some? ==>
          && TypesKnown(liquid.value, t.entry, t.flags)
          && LevelsKnown(liquid.value, t.show, t.liquid, if allowInt then FLAT_LIQUID_DELTA_LIMIT else 0.0))
  }

  ghost predicate Knows(m: Loaded, t: Terrain, allowInt: bool)
    requires ShapedTerrain(t)
    reads t.areas, t.entry, t.flags, t.holes, t.show, t.liquid, t.v9, t.v8
  {
    AreasKnown(m, t) && HeightsKnown(m.heights, t, allowInt) && LiquidKnown(m.liquid, t, allowInt)
  }

  /** What is stored, before the one area or type that is not needed is forgotten. */
  function StoredOf(g: Grid): Loaded { Loaded(g.area, g.areas, ViewOf(g).heights, g.liquid) }

  lemma ViewAnswersAlike(g: Grid, t: Terrain, allowInt: bool)
    requires ShapedTerrain(t) && Knows(StoredOf(g), t, allowInt)
    ensures Knows(ViewOf(g), t, allowInt)
  {
  }

  lemma FileTells(g: Grid, t: Terrain, allowInt: bool)
    requires WellFormed(g) && ShapedTerrain(t) && Knows(StoredOf(g), t, allowInt)
    ensures Load(FileOf(g)).Some? && Knows(Load(FileOf(g)).value, t, allowInt)
  {
    LoadReadsWhatWasStored(g);
    ViewAnswersAlike(g, t, allowInt);
  }

  /** What is stored of a grid: areas, heights, liquids and holes, one after the other. */
  method Gather(t: Terrain, allowLimit: bool, allowInt: bool) returns (g: Grid)
    requires ShapedTerrain(t)
    requires HasLiquid(t.entry, t.flags) && !allowInt ==> ShowsAny(t.show)
    modifies t.v9, t.v8, t.liquid
    ensures ShapedTerrain(t) && WellFormed(g) && Knows(StoredOf(g), t, allowInt)
    ensures Raised(t.v9, allowLimit) && Raised(t.v8, allowLimit) && ShownIsKept(t.show, t.liquid)
  {
    var area, each := ConvertAreas(t.areas);
    var minHeight, maxHeight, kind, s9, s8 := ConvertHeights(t.v9, t.v8, allowLimit, allowInt);
    ToleranceIsSmall(minHeight, maxHeight, allowInt);
    var liquid := ConvertLiquid(t.entry, t.flags, t.show, t.liquid, allowInt);
    var holes := CellValues(t.holes, 65536);
    g := Grid(area, each, F32(minHeight), F32(maxHeight), kind, s9, s8, liquid, holes);
  }

  /** From the grid through the file to the server: it knows the area and the liquid of every cell, every height,
      as raised to the limit, to within the tolerance of its kind, and the level of all liquid that shows. */
  method ConvertADT(t: Terrain, allowLimit: bool, allowInt: bool) returns (file: seq<Byte>)
    requires ShapedTerrain(t)
    requires HasLiquid(t.entry, t.flags) && !allowInt ==> ShowsAny(t.show)
    modifies t.v9, t.v8, t.liquid
    ensures ShapedTerrain(t) && Load(file).Some? && Knows(Load(file).value, t, allowInt)
    ensures Raised(t.v9, allowLimit) && Raised(t.v8, allowLimit) && ShownIsKept(t.show, t.liquid)
  {
    var g := Gather(t, allowLimit, allowInt);
    file := Store(g);
    FileTells(g, t, allowInt);
  }
}
