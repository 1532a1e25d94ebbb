/** The weekly honor maintenance: breakpoints from the standing list, rank points earned for
    contribution points, decay, the level cap, and the rank a number of points stands for. */
module Honor {

  datatype Standing = Standing(guid: nat, cp: real)

  /** Curve from contribution points (FX) to rank points (FY), and the standings at the breakpoints. */
  datatype Scores = Scores(FX: seq<real>, FY: seq<real>, BRK: seq<real>)

  const MAX_EARNING := 13000.0
  const MAX_RANK_POINTS := 65000.0

  // ----- Breakpoints -----

  /** Share of the standing list at or above each breakpoint, before and from patch 1.12 on. */
  function Shares(patch112: bool): (f: seq<real>)
    ensures |f| == 14
  {
    if patch112 then
      [1.000, 0.845, 0.697, 0.566, 0.436, 0.327, 0.228, 0.159, 0.100, 0.060, 0.035, 0.020, 0.008, 0.003]
    else
      [1.000, 0.835, 0.687, 0.553, 0.433, 0.324, 0.225, 0.156, 0.097, 0.057, 0.032, 0.017, 0.007, 0.002]
  }

  /** Last standing position of each breakpoint's group. */
  function GroupEnds(size: nat, patch112: bool): (ends: seq<int>)
    ensures |ends| == 14
  {
    EndsOf(Shares(patch112), size)
  }

  function EndAt(share: real, size: nat): int { (share * size as real + 0.5).Floor }

  function EndsOf(shares: seq<real>, size: nat): (ends: seq<int>)
    requires |shares| == 14
    ensures |ends| == 14
  {
    seq(14, i requires 0 <= i < 14 => EndAt(shares[i], size))
  }

  predicate NonNegative(list: seq<Standing>) {
    forall i :: 0 <= i < |list| ==> list[i].cp >= 0.0
  }

  predicate SortedByCp(list: seq<Standing>) {
    forall i, j :: 0 <= i < j < |list| ==> list[i].cp >= list[j].cp
  }

  /** Contribution points at a position counted from 1, and 0 where there is none. */
  function CpAt(list: seq<Standing>, position: int): real {
    if 1 <= position <= |list| then list[position - 1].cp else 0.0
  }

  method GetStandingCPByPosition(list: seq<Standing>, position: int) returns (cp: real)
    ensures cp == CpAt(list, position)
    ensures 1 <= position <= |list| ==> cp == list[position - 1].cp
    ensures position < 1 || position > |list| ==> cp == 0.0
  {
    var pos := 1;
    for n := 0 to |list|
      invariant pos == n + 1
      invariant 1 <= position ==> pos <= position
    {
      if pos == position { return list[n].cp; }
      pos := pos + 1;
    }
    return 0.0;
  }

  /** Sum of the points on both sides of a breakpoint; 0 if nobody with points stands at its end. */
  function HonorAround(list: seq<Standing>, position: int): real {
    if CpAt(list, position) == 0.0 then 0.0 else CpAt(list, position) + CpAt(list, position + 1)
  }

  /** First of the breakpoints i..13 around which there is no honor, 14 if there is none. */
  function FirstEmpty(list: seq<Standing>, ends: seq<int>, i: nat): (k: nat)
    requires 1 <= i <= |ends|
    ensures i <= k <= |ends|
    ensures k < |ends| ==> HonorAround(list, ends[k]) == 0.0
    ensures forall j :: i <= j < k ==> HonorAround(list, ends[j]) != 0.0
    decreases |ends| - i
  {
    if i == |ends| || HonorAround(list, ends[i]) == 0.0 then i else FirstEmpty(list, ends, i + 1)
  }

  /** The points at the breakpoints: half the honor around each, except that the best score takes
      the place of the first empty one - unless that is the lowest - or, if none is empty, comes last. */
  ghost predicate AreFX(list: seq<Standing>, ends: seq<int>, FX: seq<real>)
    requires list != [] && |ends| == 14
  {
    var k := FirstEmpty(list, ends, 1);
    && |FX| == 15 && FX[0] == 0.0
    && (forall i :: 1 <= i < 14 && i != k ==> FX[i] == HonorAround(list, ends[i]) / 2.0)
    && FX[k] == (if k == 1 then 0.0 else list[0].cp)
    && (k < 14 ==> FX[14] == 0.0)
  }

  ghost predicate AreFY(FY: seq<real>) {
    && |FY| == 15 && FY[0] == 0.0 && FY[1] == 400.0 && FY[14] == MAX_EARNING
    && (forall i :: 2 <= i < 14 ==> FY[i] == (1000 * (i - 1)) as real)
  }

  ghost predicate AreScores(list: seq<Standing>, patch112: bool, sc: Scores)
    requires list != []
  {
    && |sc.BRK| == 14
    && (forall i :: 0 <= i < 14 ==> sc.BRK[i] == GroupEnds(|list|, patch112)[i] as real)
    && AreFX(list, GroupEnds(|list|, patch112), sc.FX)
    && AreFY(sc.FY)
  }

  method GenerateBRK(shares: seq<real>, size: nat) returns (BRK: seq<real>)
    requires |shares| == 14
    ensures |BRK| == 14 && forall i :: 0 <= i < 14 ==> BRK[i] == EndsOf(shares, size)[i] as real
  {
    BRK := shares;
    for n := 0 to 14
      invariant |BRK| == 14
      invariant forall i :: 0 <= i < n ==> BRK[i] == EndsOf(shares, size)[i] as real
      invariant forall i :: n <= i < 14 ==> BRK[i] == shares[i]
    {
      var last := EndAt(BRK[n], size);
      assert last == EndsOf(shares, size)[n];
      BRK := BRK[n := last as real];
    }
  }

  method GenerateScores(list: seq<Standing>, patch112: bool) returns (sc: Scores)
    requires list != [] && NonNegative(list)
    ensures AreScores(list, patch112, sc)
  {
    var BRK := GenerateBRK(Shares(patch112), |list|);
    var FY := GenerateFY();
    var FX := GenerateFX(list, GroupEnds(|list|, patch112), BRK);
    sc := Scores(FX, FY, BRK);
  }

  method GenerateFY() returns (FY: seq<real>)
    ensures AreFY(FY)
  {
    FY := seq(15, _ => 0.0);
    FY := FY[1 := 400.0];
    for n := 2 to 14
      invariant |FY| == 15 && FY[0] == 0.0 && FY[1] == 400.0
      invariant forall i :: 2 <= i < n ==> FY[i] == (1000 * (i - 1)) as real
    {
      FY := FY[n := ((n - 1) * 1000) as real];
    }
    FY := FY[14 := MAX_EARNING];
  }

  method GenerateFX(list: seq<Standing>, ghost ends: seq<int>, BRK: seq<real>) returns (FX: seq<real>)
    requires list != [] && NonNegative(list)
    requires |ends| == |BRK| == 14 && forall i :: 0 <= i < 14 ==> BRK[i] == ends[i] as real
    ensures AreFX(list, ends, FX)
  {
    FX := seq(15, _ => 0.0);
    var top := false;
    ghost var k := FirstEmpty(list, ends, 1);
    for i := 1 to 14
      invariant |FX| == 15 && FX[0] == 0.0 && (top <==> k < i)
      invariant forall j :: 1 <= j < i && j != k ==> FX[j] == HonorAround(list, ends[j]) / 2.0
      invariant k < i ==> FX[k] == if k == 1 then 0.0 else list[0].cp
    {
      var honor := 0.0;
      var tempHonor := GetStandingCPByPosition(list, BRK[i].Floor);
      if tempHonor != 0.0 {
        honor := honor + tempHonor;
        tempHonor := GetStandingCPByPosition(list, BRK[i].Floor + 1);
        if tempHonor != 0.0 { honor := honor + tempHonor; }
      }
      assert honor == HonorAround(list, ends[i]);
      FX := FX[i := if honor != 0.0 then honor / 2.0 else 0.0];
      if !top && honor == 0.0 {
        FX := FX[i := if FX[i - 1] != 0.0 then list[0].cp else 0.0];
        top := true;
      }
    }
    FX := FX[14 := if !top then list[0].cp else 0.0];
  }

  /** Around a higher place there is no less honor, and nowhere more than twice the best. */
  lemma HonorFalls(list: seq<Standing>, p: int, q: int)
    requires list != [] && NonNegative(list) && SortedByCp(list) && q <= p && HonorAround(list, q) != 0.0
    ensures 0.0 <= HonorAround(list, p) <= HonorAround(list, q)
  {
    CpFalls(list, p, q);
    CpFalls(list, p + 1, q + 1);
  }

  lemma CpFalls(list: seq<Standing>, p: int, q: int)
    requires NonNegative(list) && SortedByCp(list) && 1 <= q <= p
    ensures 0.0 <= CpAt(list, p) <= CpAt(list, q)
  {
  }

  lemma HonorIsBounded(list: seq<Standing>, p: int)
    requires list != [] && NonNegative(list) && SortedByCp(list)
    ensures 0.0 <= HonorAround(list, p) / 2.0 <= list[0].cp
  {
    if p >= 1 {
      CpFalls(list, p, 1);
      CpFalls(list, p + 1, 1);
    }
  }

  /** The breakpoints go up to the first empty one. */
  lemma BreakpointsRise(list: seq<Standing>, patch112: bool, sc: Scores, i: nat, j: nat)
    requires list != [] && NonNegative(list) && SortedByCp(list) && AreScores(list, patch112, sc)
    requires i < j <= FirstEmpty(list, GroupEnds(|list|, patch112), 1)
    ensures sc.FX[i] <= sc.FX[j]
  {
    var ends := GroupEnds(|list|, patch112);
    forall a, b | 0 <= a < b < 14 ensures ends[a] >= ends[b] {
      GroupEndsFall(|list|, patch112, a, b);
    }
    PointsRise(list, ends, sc.FX, i, j);
  }

  lemma PointsRise(list: seq<Standing>, ends: seq<int>, FX: seq<real>, i: nat, j: nat)
    requires list != [] && NonNegative(list) && SortedByCp(list) && |ends| == 14 && AreFX(list, ends, FX)
    requires forall a, b :: 0 <= a < b < 14 ==> ends[a] >= ends[b]
    requires i < j <= FirstEmpty(list, ends, 1)
    ensures FX[i] <= FX[j]
  {
    var k := FirstEmpty(list, ends, 1);
    if j < k {
      HonorIsBounded(list, ends[j]);
      if i > 0 { HonorFalls(list, ends[i], ends[j]); }
    } else if i > 0 {
      HonorIsBounded(list, ends[i]);
    }
  }

  /** A group ends at the position nearest to its share of the list; of a thousand players these are the shares. */
  lemma GroupEndsExactly(size: nat, patch112: bool, i: nat)
    requires i < 14
    ensures GroupEnds(size, patch112)[i] as real - 0.5 <= Shares(patch112)[i] * size as real
    ensures Shares(patch112)[i] * size as real < GroupEnds(size, patch112)[i] as real + 0.5
    ensures GroupEnds(1000, true) == [1000, 845, 697, 566, 436, 327, 228, 159, 100, 60, 35, 20, 8, 3]
    ensures GroupEnds(1000, false) == [1000, 835, 687, 553, 433, 324, 225, 156, 97, 57, 32, 17, 7, 2]
  {
    assert EndsOf(Shares(patch112), size)[i] == EndAt(Shares(patch112)[i], size);
    EndsOfThousand(true);
    EndsOfThousand(false);
  }

  lemma EndsOfThousand(patch112: bool)
    ensures GroupEnds(1000, patch112) ==
            if patch112 then [1000, 845, 697, 566, 436, 327, 228, 159, 100, 60, 35, 20, 8, 3]
            else [1000, 835, 687, 553, 433, 324, 225, 156, 97, 57, 32, 17, 7, 2]
  {
    var ends := if patch112 then [1000, 845, 697, 566, 436, 327, 228, 159, 100, 60, 35, 20, 8, 3]
                else [1000, 835, 687, 553, 433, 324, 225, 156, 97, 57, 32, 17, 7, 2];
    forall i | 0 <= i < 14 ensures EndAt(Shares(patch112)[i], 1000) == ends[i] {
      assert Shares(patch112)[i] * 1000.0 == ends[i] as real;
    }
  }

  /** A breakpoint is half way between the last of its group and the next one, as long as there are such with points. */
  lemma BreakpointIsBetween(list: seq<Standing>, patch112: bool, sc: Scores, i: nat)
    requires list != [] && NonNegative(list) && SortedByCp(list) && AreScores(list, patch112, sc) && 1 <= i < 14
    requires 1 <= GroupEnds(|list|, patch112)[13] && GroupEnds(|list|, patch112)[1] < |list|
    requires list[GroupEnds(|list|, patch112)[1] - 1].cp > 0.0
    ensures var p := GroupEnds(|list|, patch112)[i];
            1 <= p < |list| && sc.FX[i] == (list[p - 1].cp + list[p].cp) / 2.0
    ensures sc.FX[0] == 0.0 && sc.FX[14] == list[0].cp
  {
    var ends := GroupEnds(|list|, patch112);
    forall j | 1 <= j < 14 ensures 1 <= ends[j] < |list| && HonorAround(list, ends[j]) > 0.0 {
      if j > 1 { GroupEndsFall(|list|, patch112, 1, j); }
      if j < 13 { GroupEndsFall(|list|, patch112, j, 13); }
    }
  }

  /** The points a breakpoint is worth, and what becomes of the lowest one when nobody with points stands there. */
  lemma ScoresExactly(list: seq<Standing>, patch112: bool, sc: Scores)
    requires list != [] && AreScores(list, patch112, sc)
    ensures sc.FY == [0.0, 400.0, 1000.0, 2000.0, 3000.0, 4000.0, 5000.0, 6000.0, 7000.0, 8000.0, 9000.0, 10000.0,
                      11000.0, 12000.0, 13000.0]
    ensures var p := GroupEnds(|list|, patch112)[1]; p < 1 || p > |list| || list[p - 1].cp == 0.0 ==> sc.FX[1] == 0.0
  {
    assert HonorAround(list, GroupEnds(|list|, patch112)[1]) == 0.0 ==>
        FirstEmpty(list, GroupEnds(|list|, patch112), 1) == 1;
  }

  lemma GroupEndsFall(size: nat, patch112: bool, i: nat, j: nat)
    requires i < j < 14
    ensures GroupEnds(size, patch112)[i] >= GroupEnds(size, patch112)[j]
  {
    SharesFall(patch112, i, j);
    EndsFall(Shares(patch112), size, i, j);
  }

  lemma EndsFall(shares: seq<real>, size: nat, i: nat, j: nat)
    requires |shares| == 14 && i < 14 && j < 14 && shares[j] <= shares[i]
    ensures EndsOf(shares, size)[j] <= EndsOf(shares, size)[i]
  {
    RoundingOrder(shares[j], shares[i], size);
  }

  lemma RoundingOrder(a: real, b: real, size: nat)
    requires a <= b
    ensures EndAt(a, size) <= EndAt(b, size)
  {
    ScaledOrder(a, b, size as real);
  }

  lemma ScaledOrder(a: real, b: real, c: real)
    requires a <= b && c >= 0.0
    ensures a * c <= b * c
  {
  }

  lemma SharesFall(patch112: bool, i: nat, j: nat)
    requires i < j < 14
    ensures Shares(patch112)[i] > Shares(patch112)[j]
  {
  }

  // ----- Earning -----

  ghost predicate Usable(sc: Scores) {
    |sc.FX| == 15 && |sc.BRK| == 14 && sc.BRK[0] > 0.0 && sc.FX[0] == 0.0 && AreFY(sc.FY)
  }

  /** First point of the curve, from i on, that the given points do not pass. */
  function StopIndex(cp: real, sc: Scores, i: nat): (k: nat)
    requires |sc.FX| == 15 && |sc.BRK| == 14 && i <= 14
    ensures i <= k <= 14
    ensures k < 14 ==> sc.BRK[k] <= 0.0 || sc.FX[k] > cp
    ensures forall j :: i <= j < k ==> sc.BRK[j] > 0.0 && sc.FX[j] <= cp
    decreases 14 - i
  {
    if i < 14 && sc.BRK[i] > 0.0 && sc.FX[i] <= cp then StopIndex(cp, sc, i + 1) else i
  }

  /** Straight line from (x0, y0) to (x1, y1). */
  function Interpolate(x0: real, y0: real, x1: real, y1: real, x: real): real
    requires x0 < x1
  {
    (y1 - y0) * (x - x0) / (x1 - x0) + y0
  }

  function Earning(cp: real, sc: Scores): real
    requires Usable(sc) && cp >= 0.0
  {
    var i := StopIndex(cp, sc, 0);
    if sc.FX[i] > cp then Interpolate(sc.FX[i - 1], sc.FY[i - 1], sc.FX[i], sc.FY[i], cp) else sc.FY[i]
  }

  method CalculateRpEarning(cp: real, sc: Scores) returns (rp: real)
    requires Usable(sc) && cp >= 0.0
    ensures rp == Earning(cp, sc)
  {
    var i := 0;
    while i < 14 && sc.BRK[i] > 0.0 && sc.FX[i] <= cp
      invariant i <= 14 && StopIndex(cp, sc, 0) == StopIndex(cp, sc, i)
    {
      i := i + 1;
    }
    if sc.FX[i] > cp && cp >= sc.FX[i - 1] {
      return Interpolate(sc.FX[i - 1], sc.FY[i - 1], sc.FX[i], sc.FY[i], cp);
    }
    return sc.FY[i];
  }

  lemma ScoresAreUsable(list: seq<Standing>, patch112: bool, sc: Scores)
    requires list != [] && AreScores(list, patch112, sc)
    ensures Usable(sc)
  {
    assert Shares(patch112)[0] == 1.0;
    assert GroupEnds(|list|, patch112)[0] >= |list|;
  }

  /** The search starts below the curve exactly for negative points; only then would the code read
      the point before the first. */
  lemma StopIndexPositive(cp: real, sc: Scores)
    requires Usable(sc)
    ensures StopIndex(cp, sc, 0) >= 1 <==> cp >= 0.0
  {
    assert cp >= 0.0 ==> StopIndex(cp, sc, 0) == StopIndex(cp, sc, 1);
  }

  lemma FYRises(FY: seq<real>, i: nat, j: nat)
    requires AreFY(FY) && i <= j < 15
    ensures 0.0 <= FY[i] <= FY[j] <= MAX_EARNING
  {
  }

  lemma InterpolateBetween(x0: real, y0: real, x1: real, y1: real, x: real)
    requires x0 <= x < x1 && y0 <= y1
    ensures y0 <= Interpolate(x0, y0, x1, y1, x) <= y1
  {
    var d, h := x1 - x0, y1 - y0;
    assert 0.0 <= h * (x - x0) <= h * d;
    DivideMonotone(0.0, h * (x - x0), d);
    DivideMonotone(h * (x - x0), h * d, d);
    assert h * d / d == h;
  }

  lemma InterpolateMonotone(x0: real, y0: real, x1: real, y1: real, x: real, x': real)
    requires x0 <= x <= x' < x1 && y0 <= y1
    ensures Interpolate(x0, y0, x1, y1, x) <= Interpolate(x0, y0, x1, y1, x')
  {
    assert (y1 - y0) * (x - x0) <= (y1 - y0) * (x' - x0);
    DivideMonotone((y1 - y0) * (x - x0), (y1 - y0) * (x' - x0), x1 - x0);
  }

  lemma DivideMonotone(a: real, b: real, d: real)
    requires a <= b && d > 0.0
    ensures a / d <= b / d
  {
    assert (b - a) / d >= 0.0;
  }

  /** What is earned lies between the rank points of the neighbouring points of the curve. */
  lemma EarningBracket(cp: real, sc: Scores)
    requires Usable(sc) && cp >= 0.0
    ensures var i := StopIndex(cp, sc, 0);
            i >= 1 && 0.0 <= sc.FY[i - 1] <= Earning(cp, sc) <= sc.FY[i] <= MAX_EARNING
  {
    StopIndexPositive(cp, sc);
    var i := StopIndex(cp, sc, 0);
    FYRises(sc.FY, i - 1, i);
    if sc.FX[i] > cp { InterpolateBetween(sc.FX[i - 1], sc.FY[i - 1], sc.FX[i], sc.FY[i], cp); }
  }

  lemma {:induction false} StopIndexMonotone(cp: real, cp': real, sc: Scores, i: nat)
    requires |sc.FX| == 15 && |sc.BRK| == 14 && i <= 14 && cp <= cp'
    ensures StopIndex(cp, sc, i) <= StopIndex(cp', sc, i)
    decreases 14 - i
  {
    if i < 14 && sc.BRK[i] > 0.0 && sc.FX[i] <= cp { StopIndexMonotone(cp, cp', sc, i + 1); }
  }

  /** Within a segment the earning is on its line. */
  lemma EarningOnLine(cp: real, sc: Scores, i: nat)
    requires Usable(sc) && cp >= 0.0 && i == StopIndex(cp, sc, 0) && sc.FX[i] > cp
    ensures i >= 1 && sc.FX[i - 1] <= cp && sc.FY[i - 1] <= sc.FY[i]
    ensures Earning(cp, sc) == Interpolate(sc.FX[i - 1], sc.FY[i - 1], sc.FX[i], sc.FY[i], cp)
  {
    StopIndexPositive(cp, sc);
    FYRises(sc.FY, i - 1, i);
  }

  /** Where the points given pass all breakpoints before the i-th and not that one, what is earned divides the rank
      points of the two as the points given divide the breakpoints. */
  lemma EarningIsLinear(cp: real, sc: Scores, i: nat)
    requires Usable(sc) && cp >= 0.0 && i <= 14 && sc.FX[i] > cp
    requires forall j :: 0 <= j < i ==> sc.BRK[j] > 0.0 && sc.FX[j] <= cp
    ensures i >= 1 && OnLine(sc.FX[i - 1], sc.FY[i - 1], sc.FX[i], sc.FY[i], cp, Earning(cp, sc))
  {
    StopsAt(cp, sc, 0, i);
    EarningOnLine(cp, sc, i);
    InterpolateOnLine(sc.FX[i - 1], sc.FY[i - 1], sc.FX[i], sc.FY[i], cp, Earning(cp, sc));
  }

  /** The point (x, y) is on the line through two others. */
  ghost predicate OnLine(x0: real, y0: real, x1: real, y1: real, x: real, y: real) {
    (y - y0) * (x1 - x0) == (y1 - y0) * (x - x0)
  }

  lemma InterpolateOnLine(x0: real, y0: real, x1: real, y1: real, x: real, y: real)
    requires x0 < x1 && y == Interpolate(x0, y0, x1, y1, x)
    ensures OnLine(x0, y0, x1, y1, x, y) && (x == x0 ==> y == y0)
  {
    DivideBack((y1 - y0) * (x - x0), x1 - x0);
  }

  lemma DivideBack(a: real, d: real)
    requires d != 0.0
    ensures a / d * d == a && 0.0 / d == 0.0
  {
  }

  /** At a breakpoint that the next one is above, exactly its rank points are earned; and at the last one. */
  lemma EarningAtBreakpoint(sc: Scores, i: nat)
    requires Usable(sc) && i <= 14 && forall j :: 0 <= j < i || j == i < 14 ==> sc.BRK[j] > 0.0 && sc.FX[j] <= sc.FX[i]
    requires i < 14 ==> sc.FX[i] < sc.FX[i + 1]
    ensures Earning(sc.FX[i], sc) == sc.FY[i]
  {
    StopsAt(sc.FX[i], sc, 0, if i < 14 then i + 1 else 14);
    if i < 14 {
      EarningOnLine(sc.FX[i], sc, i + 1);
      InterpolateOnLine(sc.FX[i], sc.FY[i], sc.FX[i + 1], sc.FY[i + 1], sc.FX[i], Earning(sc.FX[i], sc));
    }
  }

  /** Where the search stops at an empty breakpoint that is passed, its rank points are earned. */
  lemma EarningPastTheEnd(cp: real, sc: Scores, i: nat)
    requires Usable(sc) && cp >= 0.0 && i <= 14 && sc.FX[i] <= cp && (i < 14 ==> sc.BRK[i] <= 0.0)
    requires forall j :: 0 <= j < i ==> sc.BRK[j] > 0.0 && sc.FX[j] <= cp
    ensures Earning(cp, sc) == sc.FY[i]
  {
    StopsAt(cp, sc, 0, i);
  }

  lemma {:induction false} StopsAt(cp: real, sc: Scores, i: nat, k: nat)
    requires |sc.FX| == 15 && |sc.BRK| == 14 && i <= k <= 14
    requires forall j :: i <= j < k ==> sc.BRK[j] > 0.0 && sc.FX[j] <= cp
    requires k == 14 || sc.BRK[k] <= 0.0 || sc.FX[k] > cp
    ensures StopIndex(cp, sc, i) == k
    decreases k - i
  {
    if i < k { StopsAt(cp, sc, i + 1, k); }
  }

  lemma EarningMonotoneInSegment(cp: real, cp': real, sc: Scores)
    requires Usable(sc) && 0.0 <= cp <= cp'
    requires StopIndex(cp, sc, 0) == StopIndex(cp', sc, 0) && sc.FX[StopIndex(cp, sc, 0)] > cp'
    ensures Earning(cp, sc) <= Earning(cp', sc)
  {
    var i := StopIndex(cp, sc, 0);
    EarningOnLine(cp, sc, i);
    EarningOnLine(cp', sc, i);
    InterpolateMonotone(sc.FX[i - 1], sc.FY[i - 1], sc.FX[i], sc.FY[i], cp, cp');
  }

  /** More contribution points never earn fewer rank points - on any curve, rising or not. */
  lemma EarningMonotone(cp: real, cp': real, sc: Scores)
    requires Usable(sc) && 0.0 <= cp <= cp'
    ensures Earning(cp, sc) <= Earning(cp', sc)
  {
    var i, i' := StopIndex(cp, sc, 0), StopIndex(cp', sc, 0);
    StopIndexMonotone(cp, cp', sc, 0);
    if i == i' && sc.FX[i] > cp' {
      EarningMonotoneInSegment(cp, cp', sc);
    } else {
      EarningAtMost(cp, sc);
      EarningAtLeast(cp', sc);
      if i < i' { FYRises(sc.FY, i, i' - 1); }
    }
  }

  lemma EarningAtMost(cp: real, sc: Scores)
    requires Usable(sc) && cp >= 0.0
    ensures Earning(cp, sc) <= sc.FY[StopIndex(cp, sc, 0)]
  {
    EarningBracket(cp, sc);
  }

  lemma EarningAtLeast(cp: real, sc: Scores)
    requires Usable(sc) && cp >= 0.0
    ensures var i := StopIndex(cp, sc, 0); i >= 1 && sc.FY[i - 1] <= Earning(cp, sc)
    ensures var i := StopIndex(cp, sc, 0); sc.FX[i] <= cp ==> Earning(cp, sc) == sc.FY[i]
  {
    EarningBracket(cp, sc);
  }

  /** When no breakpoint is empty, the best score earns the full amount. */
  lemma BestEarnsMost(list: seq<Standing>, patch112: bool, sc: Scores)
    requires list != [] && NonNegative(list) && SortedByCp(list) && AreScores(list, patch112, sc)
    requires FirstEmpty(list, GroupEnds(|list|, patch112), 1) == 14
    ensures Usable(sc) && Earning(list[0].cp, sc) == MAX_EARNING
  {
    ScoresAreUsable(list, patch112, sc);
    var i := StopIndex(list[0].cp, sc, 0);
    if i < 14 {
      StopIndexPositive(list[0].cp, sc);
      BreakpointsRise(list, patch112, sc, i, 14);
    }
  }

  // ----- Decay and cap -----

  function Decay(rp: real): int { (0.2 * rp + 0.5).Floor }

  function RpAfterDecay(earning: real, rp: real): real {
    var delta := earning - Decay(rp) as real;
    var halved := if delta < 0.0 then delta / 2.0 else delta;
    rp + if halved < -2500.0 then -2500.0 else halved
  }

  function MaximumRpAtLevel(level: nat): real {
    (if level <= 29 then 6500
     else if level <= 35 then 7150 + 975 * (level - 30)
     else if level <= 39 then 12025 + 1300 * (level - 35)
     else if level <= 43 then 17225 + 1625 * (level - 39)
     else if level <= 52 then 23725 + 2275 * (level - 43)
     else if level <= 60 then 44200 + 2600 * (level - 52)
     else 65000) as real
  }

  lemma CapGrows(level: nat, level': nat)
    requires level <= level'
    ensures 6500.0 <= MaximumRpAtLevel(level) <= MaximumRpAtLevel(level') <= MAX_RANK_POINTS
  {
  }

  lemma DecayBounds(rp: real)
    requires rp >= 0.0
    ensures 0 <= Decay(rp) && 0.2 * rp - 0.5 < Decay(rp) as real <= 0.2 * rp + 0.5
    ensures Decay(rp) >= 1 <==> rp >= 2.5
  {
  }

  /** Each level up to 60 raises the cap by as much as its band says. */
  lemma CapsExactly(level: nat)
    ensures level <= 29 ==> MaximumRpAtLevel(level) == 6500.0
    ensures MaximumRpAtLevel(30) == 7150.0 && MaximumRpAtLevel(60) == 65000.0
    ensures level >= 60 ==> MaximumRpAtLevel(level) == 65000.0
    ensures 30 <= level < 60 ==>
              MaximumRpAtLevel(level + 1) - MaximumRpAtLevel(level)
              == if level < 35 then 975.0 else if level < 39 then 1300.0 else if level < 43 then 1625.0
                 else if level < 52 then 2275.0 else 2600.0
  {
  }

  /** A week's change in full, where n is the whole number nearest to a fifth of the points: what is earned beyond n is
      gained, of what is missing half is lost, but never more than 2500. */
  lemma WeekExactly(earning: real, rp: real, n: int)
    requires n as real - 0.5 <= rp / 5.0 < n as real + 0.5
    ensures RpAfterDecay(earning, rp) - rp ==
            if earning >= n as real then earning - n as real
            else if n as real - earning <= 5000.0 then (earning - n as real) / 2.0 else -2500.0
  {
    assert Decay(rp) == n;
  }

  /** One week keeps the points in range, takes at most 2500, and gives at most what was earned. */
  lemma WeekInRange(earning: real, rp: real)
    requires 0.0 <= rp <= MAX_RANK_POINTS && 0.0 <= earning <= MAX_EARNING
    ensures 0.0 <= RpAfterDecay(earning, rp) <= MAX_RANK_POINTS
    ensures rp - 2500.0 <= RpAfterDecay(earning, rp) <= rp + earning
  {
    DecayBounds(rp);
  }

  datatype Week = Played(earning: real, level: nat) | Idle

  function AfterWeek(rp: real, w: Week): real {
    match w
    case Played(earning, level) =>
      var decayed := RpAfterDecay(earning, rp);
      if decayed < MaximumRpAtLevel(level) then decayed else MaximumRpAtLevel(level)
    case Idle => RpAfterDecay(0.0, rp)
  }

  /** After a week played the points are at the cap or, when that is higher, where the week's change leaves them. */
  lemma CappedExactly(rp: real, earning: real, level: nat)
    ensures var after, free := AfterWeek(rp, Played(earning, level)), RpAfterDecay(earning, rp);
            after <= free && after <= MaximumRpAtLevel(level) && (after == free || after == MaximumRpAtLevel(level))
  {
  }

  function AfterWeeks(rp: real, weeks: seq<Week>): real
    decreases |weeks|
  {
    if weeks == [] then rp else AfterWeek(AfterWeeks(rp, weeks[..|weeks| - 1]), weeks[|weeks| - 1])
  }

  /** Over any number of weeks the points stay in range, and under the cap after a week played. */
  lemma {:induction false} WeeksInRange(rp: real, weeks: seq<Week>)
    requires 0.0 <= rp <= MAX_RANK_POINTS
    requires forall w :: w in weeks && w.Played? ==> 0.0 <= w.earning <= MAX_EARNING
    ensures 0.0 <= AfterWeeks(rp, weeks) <= MAX_RANK_POINTS
    ensures weeks != [] && weeks[|weeks| - 1].Played? ==>
              AfterWeeks(rp, weeks) <= MaximumRpAtLevel(weeks[|weeks| - 1].level)
    decreases |weeks|
  {
    if weeks != [] {
      var before, w := AfterWeeks(rp, weeks[..|weeks| - 1]), weeks[|weeks| - 1];
      WeeksInRange(rp, weeks[..|weeks| - 1]);
      assert w in weeks;
      match w
      case Played(earning, level) =>
        WeekInRange(earning, before);
        CapGrows(level, level);
      case Idle => WeekInRange(0.0, before);
    }
  }

  function AfterIdle(rp: real, n: nat): real
    decreases n
  {
    if n == 0 then rp else AfterIdle(AfterWeek(rp, Idle), n - 1)
  }

  /** An idle week takes at least half a point from 2.5 points or more, and nothing from fewer. */
  lemma IdleWeek(rp: real)
    requires 0.0 <= rp <= MAX_RANK_POINTS
    ensures rp >= 2.5 ==> 0.0 <= AfterWeek(rp, Idle) <= rp - 0.5
    ensures rp < 2.5 ==> AfterWeek(rp, Idle) == rp
  {
    DecayBounds(rp);
  }

  /** Idling for twice as many weeks as there are points leaves fewer than 2.5. */
  lemma {:induction false} IdleFades(rp: real, n: nat)
    requires 0.0 <= rp <= MAX_RANK_POINTS
    ensures 0.0 <= AfterIdle(rp, n) <= rp
    ensures n as real >= 2.0 * rp ==> AfterIdle(rp, n) < 2.5
    ensures rp < 2.5 ==> AfterIdle(rp, n) == rp
    decreases n
  {
    if n > 0 {
      IdleWeek(rp);
      IdleFades(AfterWeek(rp, Idle), n - 1);
    }
  }

  // ----- Ranks -----

  const NEGATIVE_RANKS := 4
  const POSITIVE_RANKS := 15
  const RANKS := 19

  datatype RankInfo = RankInfo(rank: int, visualRank: int, maxRP: real, minRP: real, positive: bool)

  const NO_RANK := RankInfo(0, 0, 2000.0, 0.0, true)

  function CalculateRankInfo(rank: int, positive: bool): RankInfo {
    if rank == 0 then NO_RANK
    else
      var step := ((if positive then rank - NEGATIVE_RANKS - 1 else rank - NEGATIVE_RANKS) * 5000) as real;
      var top := if step < 0.0 then -step else step;
      var visual := if rank > NEGATIVE_RANKS then rank - NEGATIVE_RANKS else -rank;
      if rank == 5 then RankInfo(rank, visual, 2000.0, 0.0, positive)
      else RankInfo(rank, visual, top, if top > 5000.0 then top - 5000.0 else 2000.0, positive)
  }

  function CalculateRank(points: real): RankInfo {
    if points == 0.0 then NO_RANK
    else
      var positive := points > 0.0;
      var size := if positive then points else -points;
      var rankCount := if positive then POSITIVE_RANKS - 2 else NEGATIVE_RANKS;
      var firstRank := if positive then NEGATIVE_RANKS + 1 else 1;
      var rank :=
        if size < 2000.0 then (if positive then firstRank else NEGATIVE_RANKS)
        else if size > ((rankCount - 1) * 5000) as real then (if positive then RANKS - 1 else firstRank)
        else
          var r := (size / 5000.0).Floor + firstRank;
          if positive then r + 1 else NEGATIVE_RANKS - r;
      CalculateRankInfo(rank, positive)
  }

  /** Which points carry a rank: none below 2000 but the first, then one more for every 5000. */
  lemma RankExactly(points: real)
    requires points > 0.0
    ensures var r := CalculateRank(points).rank;
            && 5 <= r <= 18 && CalculateRank(points).visualRank == r - 4
            && (r == 5 <==> points < 2000.0)
            && (r == 6 <==> 2000.0 <= points < 5000.0)
            && (6 < r < 18 ==> ((r - 6) * 5000) as real <= points < ((r - 5) * 5000) as real)
            && (r == 18 <==> 60000.0 <= points)
  {
    if 2000.0 <= points <= 60000.0 {
      var q := (points / 5000.0).Floor;
      assert (q * 5000) as real <= points < ((q + 1) * 5000) as real;
    }
  }

  lemma RankMonotone(points: real, points': real)
    requires 0.0 <= points <= points'
    ensures CalculateRank(points).rank <= CalculateRank(points').rank
    ensures CalculateRank(points).visualRank <= CalculateRank(points').visualRank
  {
    if points > 0.0 { RankExactly(points); }
    if points' > 0.0 { RankExactly(points'); }
  }

  lemma NegativeRankExactly(points: real)
    requires points < 0.0
    ensures var r := CalculateRank(points).rank;
            && 0 <= r <= 4
            && (r == 4 <==> -2000.0 < points)
            && (r == 3 <==> -5000.0 < points <= -2000.0)
            && (r == 2 <==> -10000.0 < points <= -5000.0)
            && (r == 1 <==> (-15000.0 < points <= -10000.0) || points < -15000.0)
            && (r == 0 <==> points == -15000.0)
            && CalculateRank(points).visualRank == -r
  {
    var size := -points;
    if 2000.0 <= size <= 15000.0 {
      var q := (size / 5000.0).Floor;
      assert (q * 5000) as real <= size < ((q + 1) * 5000) as real;
    }
  }

  /** The bracket shown with each rank; with rank 0 it is that of no rank. */
  lemma BracketExactly(points: real)
    ensures var info := CalculateRank(points);
            (info.minRP, info.maxRP)
            == if info.rank == 0 || info.rank == 5 then (0.0, 2000.0)
               else if info.rank == 6 || info.rank == 3 then (2000.0, 5000.0)
               else if info.rank == 4 then (2000.0, 0.0)
               else if info.rank > 6 then (((info.rank - 6) * 5000) as real, ((info.rank - 5) * 5000) as real)
               else (((3 - info.rank) * 5000) as real, ((4 - info.rank) * 5000) as real)
    ensures points != 0.0 && points != -15000.0 ==> (CalculateRank(points).positive <==> points > 0.0)
  {
    if points > 0.0 { RankExactly(points); } else if points < 0.0 { NegativeRankExactly(points); }
  }

  /** The bracket shown with a rank holds the size of the points in exactly these cases: it does for
      every number the maintenance can produce, and fails for the slightest and the worst dishonor. */
  lemma RankBracket(points: real)
    ensures var info := CalculateRank(points);
            info.minRP <= (if points < 0.0 then -points else points) <= info.maxRP
            <==> 0.0 <= points <= MAX_RANK_POINTS || -15000.0 < points <= -2000.0
  {
    if points > 0.0 { RankExactly(points); } else if points < 0.0 { NegativeRankExactly(points); }
  }

  // ----- The weekly maintenance over all players -----

  datatype WeeklyScore = WeeklyScore(level: nat, account: nat, hk: nat, cp: real, oldRp: real,
                                     newRp: real, earning: real, standing: nat)

  ghost predicate GoodScores(scores: map<nat, WeeklyScore>) {
    forall g :: g in scores ==> scores[g].cp >= 0.0 && 0.0 <= scores[g].oldRp <= MAX_RANK_POINTS
  }

  function Insert(s: Standing, list: seq<Standing>): seq<Standing> {
    if list == [] || s.cp > list[0].cp then [s] + list else [list[0]] + Insert(s, list[1..])
  }

  /** Stands for the library's sort by falling contribution points. */
  function SortByCp(list: seq<Standing>): seq<Standing> {
    if list == [] then [] else Insert(list[|list| - 1], SortByCp(list[..|list| - 1]))
  }

  predicate AtMost(list: seq<Standing>, cp: real) {
    forall i :: 0 <= i < |list| ==> list[i].cp <= cp
  }

  lemma {:induction false} InsertKeeps(s: Standing, list: seq<Standing>, cp: real)
    ensures multiset(Insert(s, list)) == multiset(list) + multiset{s}
    ensures s.cp <= cp && AtMost(list, cp) ==> AtMost(Insert(s, list), cp)
  {
    if list != [] && s.cp <= list[0].cp {
      InsertKeeps(s, list[1..], cp);
      assert list == [list[0]] + list[1..];
    }
  }

  lemma {:induction false} InsertSorts(s: Standing, list: seq<Standing>)
    requires SortedByCp(list)
    ensures SortedByCp(Insert(s, list))
  {
    if list != [] && s.cp <= list[0].cp {
      InsertSorts(s, list[1..]);
      InsertKeeps(s, list[1..], list[0].cp);
    }
  }

  lemma {:induction false} SortSorts(list: seq<Standing>)
    ensures SortedByCp(SortByCp(list)) && multiset(SortByCp(list)) == multiset(list)
  {
    if list != [] {
      var rest, s := list[..|list| - 1], list[|list| - 1];
      SortSorts(rest);
      InsertSorts(s, SortByCp(rest));
      InsertKeeps(s, SortByCp(rest), 0.0);
      assert list == rest + [s];
    }
  }

  /** Standings of one side and of the inactive, in the order the players are gone through. */
  datatype Side = Alliance | Horde | Inactive

  function SideOf(ws: WeeklyScore, alliance: bool, minHK: nat): Side {
    if ws.hk < minHK || ws.account == 0 then Inactive else if alliance then Alliance else Horde
  }

  function Select(order: seq<nat>, scores: map<nat, WeeklyScore>, teams: map<nat, bool>, minHK: nat,
                  side: Side): seq<Standing>
    requires forall g :: g in order ==> g in scores && g in teams
  {
    if order == [] then []
    else
      var g := order[|order| - 1];
      var before := Select(order[..|order| - 1], scores, teams, minHK, side);
      if SideOf(scores[g], teams[g], minHK) == side then before + [Standing(g, scores[g].cp)] else before
  }

  predicate DistinctGuids(list: seq<Standing>) {
    forall i, j :: 0 <= i < j < |list| ==> list[i].guid != list[j].guid
  }

  ghost predicate HasGuid(list: seq<Standing>, g: nat) {
    exists i :: 0 <= i < |list| && list[i].guid == g
  }

  predicate DistinctNats(s: seq<nat>) {
    forall i, j :: 0 <= i < j < |s| ==> s[i] != s[j]
  }

  /** A list of standings that mirrors the scores: every guid once, with its points. */
  ghost predicate Mirrors(list: seq<Standing>, scores: map<nat, WeeklyScore>) {
    && DistinctGuids(list)
    && forall i :: 0 <= i < |list| ==> list[i].guid in scores && list[i].cp == scores[list[i].guid].cp
  }

  lemma {:induction false} SelectMirrors(order: seq<nat>, scores: map<nat, WeeklyScore>, teams: map<nat, bool>,
                                         minHK: nat, side: Side)
    requires forall g :: g in order ==> g in scores && g in teams
    requires DistinctNats(order)
    ensures Mirrors(Select(order, scores, teams, minHK, side), scores)
    ensures forall g :: HasGuid(Select(order, scores, teams, minHK, side), g) <==>
                          g in order && side == if scores[g].hk < minHK || scores[g].account == 0 then Inactive
                                                else if teams[g] then Alliance else Horde
  {
    if order != [] {
      var rest, last := order[..|order| - 1], order[|order| - 1];
      assert order == rest + [last];
      SelectMirrors(rest, scores, teams, minHK, side);
      var before, all := Select(rest, scores, teams, minHK, side), Select(order, scores, teams, minHK, side);
      forall i | 0 <= i < |before| ensures before[i].guid in rest {
        assert HasGuid(before, before[i].guid);
      }
      if SideOf(scores[last], teams[last], minHK) == side {
        assert all[|before|].guid == last;
        assert forall i :: 0 <= i < |before| ==> all[i] == before[i];
      }
    }
  }

  lemma {:induction false} InsertMirrors(s: Standing, list: seq<Standing>, scores: map<nat, WeeklyScore>)
    requires Mirrors(list, scores) && Mirrors([s], scores) && !HasGuid(list, s.guid)
    ensures Mirrors(Insert(s, list), scores)
    ensures forall g :: HasGuid(Insert(s, list), g) <==> HasGuid(list, g) || g == s.guid
  {
    if list == [] || s.cp > list[0].cp {
      assert forall i :: 0 <= i < |list| ==> HasGuid(list, list[i].guid);
      ConsGuids(s, list);
    } else {
      assert HasGuid(list, list[0].guid);
      InsertMirrors(s, list[1..], scores);
      var rest := Insert(s, list[1..]);
      ConsGuids(list[0], list[1..]);
      ConsGuids(list[0], rest);
      assert list == [list[0]] + list[1..];
      assert !HasGuid(rest, list[0].guid);
      assert forall i :: 0 <= i < |rest| ==> HasGuid(rest, rest[i].guid);
    }
  }

  lemma ConsGuids(s: Standing, list: seq<Standing>)
    ensures forall g :: HasGuid([s] + list, g) <==> HasGuid(list, g) || g == s.guid
  {
    forall g | HasGuid(list, g) || g == s.guid ensures HasGuid([s] + list, g) {
      if g == s.guid {
        assert ([s] + list)[0].guid == g;
      } else {
        var i :| 0 <= i < |list| && list[i].guid == g;
        assert ([s] + list)[i + 1].guid == g;
      }
    }
  }

  lemma {:induction false} SortMirrors(list: seq<Standing>, scores: map<nat, WeeklyScore>)
    requires Mirrors(list, scores)
    ensures Mirrors(SortByCp(list), scores)
    ensures forall g :: HasGuid(SortByCp(list), g) <==> HasGuid(list, g)
  {
    if list != [] {
      var rest, last := list[..|list| - 1], list[|list| - 1];
      SortMirrors(rest, scores);
      InsertMirrors(last, SortByCp(rest), scores);
      forall g | HasGuid(list, g) ensures HasGuid(rest, g) || g == last.guid {
        var i :| 0 <= i < |list| && list[i].guid == g;
        assert i < |rest| ==> rest[i].guid == g;
      }
    }
  }

  function Scored(ws: WeeklyScore, sc: Scores, position: nat): WeeklyScore
    requires Usable(sc) && ws.cp >= 0.0
  {
    var earned := Earning(ws.cp, sc);
    ws.(earning := earned, newRp := AfterWeek(ws.oldRp, Played(earned, ws.level)), standing := position)
  }

  ghost function Distribute(list: seq<Standing>, scores: map<nat, WeeklyScore>, sc: Scores, position: nat)
    : map<nat, WeeklyScore>
    requires Usable(sc) && forall g :: g in scores ==> scores[g].cp >= 0.0
    decreases |list|
  {
    if list == [] then scores
    else if list[0].guid !in scores then Distribute(list[1..], scores, sc, position)
    else
      var g := list[0].guid;
      Distribute(list[1..], scores[g := Scored(scores[g], sc, position)], sc, position + 1)
  }

  lemma {:induction false} DistributeFrame(list: seq<Standing>, scores: map<nat, WeeklyScore>, sc: Scores,
                                           position: nat, g: nat)
    requires Usable(sc) && g in scores && forall h :: h in scores ==> scores[h].cp >= 0.0
    requires forall i :: 0 <= i < |list| ==> list[i].guid != g
    ensures g in Distribute(list, scores, sc, position) && Distribute(list, scores, sc, position)[g] == scores[g]
    decreases |list|
  {
    if list != [] {
      var h := list[0].guid;
      if h in scores {
        DistributeFrame(list[1..], scores[h := Scored(scores[h], sc, position)], sc, position + 1, g);
      } else {
        DistributeFrame(list[1..], scores, sc, position, g);
      }
    }
  }

  /** Every listed player is scored once, with the position in the list as standing. */
  lemma DistributeAt(list: seq<Standing>, scores: map<nat, WeeklyScore>, sc: Scores, position: nat, p: nat)
    requires Usable(sc) && Mirrors(list, scores) && forall g :: g in scores ==> scores[g].cp >= 0.0
    requires p < |list|
    ensures list[p].guid in Distribute(list, scores, sc, position)
    ensures Distribute(list, scores, sc, position)[list[p].guid] == Scored(scores[list[p].guid], sc, position + p)
  {
    DistributesTo(list, scores, sc, position, p, scores[list[p].guid], position + p);
  }

  lemma {:induction false} DistributesTo(list: seq<Standing>, scores: map<nat, WeeklyScore>, sc: Scores,
                                         position: nat, p: nat, ws: WeeklyScore, standing: nat)
    requires Usable(sc) && Mirrors(list, scores) && forall g :: g in scores ==> scores[g].cp >= 0.0
    requires p < |list| && ws == scores[list[p].guid] && standing == position + p
    ensures list[p].guid in Distribute(list, scores, sc, position)
    ensures Distribute(list, scores, sc, position)[list[p].guid] == Scored(ws, sc, standing)
    decreases |list|
  {
    var g, rest := list[0].guid, list[1..];
    var first := Scored(scores[g], sc, position);
    var scores' := scores[g := first];
    DistributeStep(list, scores, sc, position, first);
    if p == 0 {
      DistributeFrame(rest, scores', sc, position + 1, g);
    } else {
      MirrorsRest(list, scores, first);
      assert list[p] == rest[p - 1] && list[p].guid != g && scores'[list[p].guid] == scores[list[p].guid];
      DistributesTo(rest, scores', sc, position + 1, p - 1, ws, standing);
    }
    assert list[p].guid in Distribute(rest, scores', sc, position + 1);
    assert Distribute(rest, scores', sc, position + 1)[list[p].guid] == Scored(ws, sc, standing);
  }

  lemma DistributeStep(list: seq<Standing>, scores: map<nat, WeeklyScore>, sc: Scores, position: nat,
                       first: WeeklyScore)
    requires Usable(sc) && forall g :: g in scores ==> scores[g].cp >= 0.0
    requires list != [] && list[0].guid in scores && first == Scored(scores[list[0].guid], sc, position)
    ensures Distribute(list, scores, sc, position) ==
            Distribute(list[1..], scores[list[0].guid := first], sc, position + 1)
  {
  }

  lemma MirrorsRest(list: seq<Standing>, scores: map<nat, WeeklyScore>, score: WeeklyScore)
    requires list != [] && Mirrors(list, scores)
    ensures Mirrors(list[1..], scores[list[0].guid := score])
  {
    var rest := list[1..];
    assert forall i :: 0 <= i < |rest| ==> rest[i] == list[i + 1];
  }

  /** Who stands higher has not earned less; everyone lands in range and under the cap of the level. */
  lemma FairWeek(list: seq<Standing>, scores: map<nat, WeeklyScore>, patch112: bool, sc: Scores, p: nat, q: nat)
    requires list != [] && Mirrors(list, scores) && GoodScores(scores) && SortedByCp(list)
    requires AreScores(list, patch112, sc) && p <= q < |list|
    ensures Usable(sc)
    ensures var after := Distribute(list, scores, sc, 1);
            && list[p].guid in after && list[q].guid in after
            && after[list[p].guid].standing == p + 1
            && 0.0 <= after[list[q].guid].earning <= after[list[p].guid].earning <= MAX_EARNING
            && 0.0 <= after[list[p].guid].newRp <= MaximumRpAtLevel(scores[list[p].guid].level) <= MAX_RANK_POINTS
  {
    ScoresAreUsable(list, patch112, sc);
    DistributeAt(list, scores, sc, 1, p);
    DistributeAt(list, scores, sc, 1, q);
    var a, b := scores[list[p].guid], scores[list[q].guid];
    EarningMonotone(b.cp, a.cp, sc);
    EarningBracket(a.cp, sc);
    EarningBracket(b.cp, sc);
    PlayedInRange(a.oldRp, Earning(a.cp, sc), a.level);
  }

  /** What a maintenance does to one player: on the list of his side he earns what the side's curve gives for his
      points and gets his place as standing; off the lists he only decays. */
  ghost predicate WeekDone(g: nat, before: WeeklyScore, after: WeeklyScore, side: Side, list: seq<Standing>,
                           sc: Scores)
  {
    if side == Inactive then after == before.(newRp := AfterWeek(before.oldRp, Idle))
    else PlaceScored(g, before, after, list, sc)
  }

  ghost predicate PlaceScored(g: nat, before: WeeklyScore, after: WeeklyScore, list: seq<Standing>, sc: Scores) {
    && Usable(sc) && before.cp >= 0.0
    && exists p :: 0 <= p < |list| && list[p].guid == g && after == Scored(before, sc, p + 1)
  }

  /** A whole week leaves a player in range, under the cap if active, and with no more if inactive. */
  lemma WeekDoneInRange(g: nat, before: WeeklyScore, after: WeeklyScore, side: Side, list: seq<Standing>, sc: Scores)
    requires WeekDone(g, before, after, side, list, sc) && 0.0 <= before.oldRp <= MAX_RANK_POINTS
    ensures 0.0 <= after.newRp <= MAX_RANK_POINTS
    ensures side != Inactive ==> after.newRp <= MaximumRpAtLevel(before.level) && 0.0 <= after.earning <= MAX_EARNING
    ensures side == Inactive ==> before.oldRp - 2500.0 <= after.newRp <= before.oldRp
  {
    if side == Inactive {
      WeekInRange(0.0, before.oldRp);
      IdleWeek(before.oldRp);
    } else {
      EarningBracket(before.cp, sc);
      PlayedInRange(before.oldRp, Earning(before.cp, sc), before.level);
    }
  }

  /** Of two players on one side, who has contributed no less has not earned less. */
  lemma WeekIsFair(g: nat, before: WeeklyScore, after: WeeklyScore, g': nat, before': WeeklyScore, after': WeeklyScore,
                   list: seq<Standing>, sc: Scores)
    requires PlaceScored(g, before, after, list, sc) && PlaceScored(g', before', after', list, sc)
    requires before.cp <= before'.cp
    ensures after.earning <= after'.earning
  {
    EarningMonotone(before.cp, before'.cp, sc);
  }

  /** What distributing over one side's list does to all players. */
  ghost predicate SideDone(list: seq<Standing>, sc: Scores, before: map<nat, WeeklyScore>,
                           after: map<nat, WeeklyScore>)
  {
    && after.Keys == before.Keys
    && forall g :: g in before ==>
         if HasGuid(list, g) then PlaceScored(g, before[g], after[g], list, sc) else after[g] == before[g]
  }

  lemma {:induction false} DistributeKeys(list: seq<Standing>, scores: map<nat, WeeklyScore>, sc: Scores, position: nat)
    requires Usable(sc) && forall g :: g in scores ==> scores[g].cp >= 0.0
    ensures Distribute(list, scores, sc, position).Keys == scores.Keys
    decreases |list|
  {
    if list != [] {
      var h := list[0].guid;
      if h in scores {
        DistributeKeys(list[1..], scores[h := Scored(scores[h], sc, position)], sc, position + 1);
      } else {
        DistributeKeys(list[1..], scores, sc, position);
      }
    }
  }

  lemma DistributeSide(list: seq<Standing>, scores: map<nat, WeeklyScore>, sc: Scores)
    requires Usable(sc) && Mirrors(list, scores) && forall g :: g in scores ==> scores[g].cp >= 0.0
    ensures SideDone(list, sc, scores, Distribute(list, scores, sc, 1))
  {
    DistributeKeys(list, scores, sc, 1);
    forall g | g in scores
      ensures var after := Distribute(list, scores, sc, 1);
              if HasGuid(list, g) then PlaceScored(g, scores[g], after[g], list, sc) else after[g] == scores[g]
    {
      if HasGuid(list, g) {
        var p :| 0 <= p < |list| && list[p].guid == g;
        DistributeAt(list, scores, sc, 1, p);
      } else {
        DistributeFrame(list, scores, sc, 1, g);
      }
    }
  }

  lemma PlayedInRange(rp: real, earning: real, level: nat)
    requires 0.0 <= rp <= MAX_RANK_POINTS && 0.0 <= earning <= MAX_EARNING
    ensures 0.0 <= AfterWeek(rp, Played(earning, level)) <= MaximumRpAtLevel(level) <= MAX_RANK_POINTS
  {
    WeekInRange(earning, rp);
    CapGrows(level, level);
  }

  /** The listed players have gone through an idle week, the others have not changed. */
  ghost predicate Decayed(list: seq<Standing>, before: map<nat, WeeklyScore>, after: map<nat, WeeklyScore>) {
    && (forall i :: 0 <= i < |list| && list[i].guid in before && list[i].guid in after ==>
          after[list[i].guid] == before[list[i].guid].(newRp := AfterWeek(before[list[i].guid].oldRp, Idle)))
    && (forall g :: g in before && g in after && (forall i :: 0 <= i < |list| ==> list[i].guid != g) ==>
          after[g] == before[g])
  }

  lemma SideDoneKeeps(list: seq<Standing>, sc: Scores, other: seq<Standing>, before: map<nat, WeeklyScore>,
                      after: map<nat, WeeklyScore>)
    requires SideDone(list, sc, before, after) && Mirrors(other, before)
    ensures Mirrors(other, after)
    ensures forall g :: g in before ==> g in after && after[g].cp == before[g].cp
  {
    assert forall i :: 0 <= i < |other| ==> other[i].guid in before;
  }

  /** The three passes one after the other, on lists that share no player. */
  lemma PassesCompose(a: seq<Standing>, scA: Scores, h: seq<Standing>, scH: Scores, idle: seq<Standing>,
                      s0: map<nat, WeeklyScore>, s1: map<nat, WeeklyScore>, s2: map<nat, WeeklyScore>,
                      s3: map<nat, WeeklyScore>, g: nat)
    requires SideDone(a, scA, s0, s1) && SideDone(h, scH, s1, s2) && s3.Keys == s2.Keys && Decayed(idle, s2, s3)
    requires g in s0
    ensures HasGuid(a, g) && !HasGuid(h, g) && !HasGuid(idle, g) ==> WeekDone(g, s0[g], s3[g], Alliance, a, scA)
    ensures !HasGuid(a, g) && HasGuid(h, g) && !HasGuid(idle, g) ==> WeekDone(g, s0[g], s3[g], Horde, h, scH)
    ensures !HasGuid(a, g) && !HasGuid(h, g) && HasGuid(idle, g) ==> WeekDone(g, s0[g], s3[g], Inactive, idle, scA)
  {
    if !HasGuid(idle, g) {
      assert s3[g] == s2[g];
    } else {
      var i :| 0 <= i < |idle| && idle[i].guid == g;
    }
  }

  class HonorMaintenancer {
    var weeklyScores: map<nat, WeeklyScore>
    var allianceStandingList: seq<Standing>
    var hordeStandingList: seq<Standing>
    var inactiveStandingList: seq<Standing>

    constructor (weeklyScores: map<nat, WeeklyScore>)
      ensures this.weeklyScores == weeklyScores
      ensures allianceStandingList == hordeStandingList == inactiveStandingList == []
    {
      this.weeklyScores := weeklyScores;
      allianceStandingList, hordeStandingList, inactiveStandingList := [], [], [];
    }

    /** `order` is the order in which the hash map yields its keys. */
    method LoadStandingLists(order: seq<nat>, teams: map<nat, bool>, minHK: nat)
      requires allianceStandingList == hordeStandingList == inactiveStandingList == []
      requires forall g :: g in order ==> g in weeklyScores && g in teams
      modifies `allianceStandingList, `hordeStandingList, `inactiveStandingList
      ensures allianceStandingList == SortByCp(Select(order, weeklyScores, teams, minHK, Alliance))
      ensures hordeStandingList == SortByCp(Select(order, weeklyScores, teams, minHK, Horde))
      ensures inactiveStandingList == Select(order, weeklyScores, teams, minHK, Inactive)
    {
      for n := 0 to |order|
        invariant allianceStandingList == Select(order[..n], weeklyScores, teams, minHK, Alliance)
        invariant hordeStandingList == Select(order[..n], weeklyScores, teams, minHK, Horde)
        invariant inactiveStandingList == Select(order[..n], weeklyScores, teams, minHK, Inactive)
      {
        var g := order[n];
        assert order[..n + 1][..n] == order[..n];
        var ws := weeklyScores[g];
        var standing := Standing(g, ws.cp);
        if ws.hk < minHK || ws.account == 0 {
          inactiveStandingList := inactiveStandingList + [standing];
          continue;
        }
        if teams[g] {
          allianceStandingList := allianceStandingList + [standing];
        } else {
          hordeStandingList := hordeStandingList + [standing];
        }
      }
      assert order[..|order|] == order;
      allianceStandingList := SortByCp(allianceStandingList);
      hordeStandingList := SortByCp(hordeStandingList);
    }

    method DistributeRankPoints(list: seq<Standing>, patch112: bool) returns (ghost sc: Scores)
      requires NonNegative(list) && forall g :: g in weeklyScores ==> weeklyScores[g].cp >= 0.0
      modifies `weeklyScores
      ensures list == [] ==> weeklyScores == old(weeklyScores)
      ensures list != [] ==> AreScores(list, patch112, sc) && Usable(sc)
      ensures list != [] ==> weeklyScores == Distribute(list, old(weeklyScores), sc, 1)
    {
      sc := Scores([], [], []);
      if list == [] { return; }
      var scores := GenerateScores(list, patch112);
      sc := scores;
      ScoresAreUsable(list, patch112, scores);
      var position := 1;
      for n := 0 to |list|
        invariant position >= 1 && forall g :: g in weeklyScores ==> weeklyScores[g].cp >= 0.0
        invariant Distribute(list, old(weeklyScores), sc, 1) == Distribute(list[n..], weeklyScores, sc, position)
      {
        assert list[n..][1..] == list[n + 1..];
        var g := list[n].guid;
        if g !in weeklyScores { continue; }
        var ws := weeklyScores[g];
        var earning := CalculateRpEarning(ws.cp, scores);
        var newRp := RpAfterDecay(earning, ws.oldRp);
        if !(newRp < MaximumRpAtLevel(ws.level)) { newRp := MaximumRpAtLevel(ws.level); }
        weeklyScores := weeklyScores[g := ws.(earning := earning, newRp := newRp, standing := position)];
        position := position + 1;
      }
    }

    method InactiveDecayRankPoints()
      requires Mirrors(inactiveStandingList, weeklyScores)
      modifies `weeklyScores
      ensures weeklyScores.Keys == old(weeklyScores).Keys
      ensures Decayed(inactiveStandingList, old(weeklyScores), weeklyScores)
    {
      for n := 0 to |inactiveStandingList|
        invariant weeklyScores.Keys == old(weeklyScores).Keys
        invariant Decayed(inactiveStandingList[..n], old(weeklyScores), weeklyScores)
      {
        var g := inactiveStandingList[n].guid;
        assert inactiveStandingList[..n + 1] == inactiveStandingList[..n] + [inactiveStandingList[n]];
        assert weeklyScores[g] == old(weeklyScores)[g];
        if g !in weeklyScores { continue; }
        var ws := weeklyScores[g];
        weeklyScores := weeklyScores[g := ws.(newRp := RpAfterDecay(0.0, ws.oldRp))];
      }
      assert inactiveStandingList[..|inactiveStandingList|] == inactiveStandingList;
    }

    /** One whole maintenance: every player is dealt with exactly once, on the side he is on, by the list and the
        curve of his side. */
    method DoMaintenance(order: seq<nat>, teams: map<nat, bool>, minHK: nat, patch112: bool)
      returns (ghost scA: Scores, ghost scH: Scores)
      requires allianceStandingList == hordeStandingList == inactiveStandingList == []
      requires DistinctNats(order) && GoodScores(weeklyScores)
      requires forall g :: g in order <==> g in weeklyScores
      requires forall g :: g in order ==> g in teams
      modifies this
      ensures weeklyScores.Keys == old(weeklyScores).Keys
      ensures allianceStandingList == SortByCp(Select(order, old(weeklyScores), teams, minHK, Alliance))
      ensures hordeStandingList == SortByCp(Select(order, old(weeklyScores), teams, minHK, Horde))
      ensures allianceStandingList != [] ==> AreScores(allianceStandingList, patch112, scA)
      ensures hordeStandingList != [] ==> AreScores(hordeStandingList, patch112, scH)
      ensures forall g :: g in order ==>
                var side := SideOf(old(weeklyScores)[g], teams[g], minHK);
                WeekDone(g, old(weeklyScores)[g], weeklyScores[g], side,
                         if side == Alliance then allianceStandingList else hordeStandingList,
                         if side == Alliance then scA else scH)
    {
      ghost var before := weeklyScores;
      LoadStandingLists(order, teams, minHK);
      SelectMirrors(order, before, teams, minHK, Alliance);
      SelectMirrors(order, before, teams, minHK, Horde);
      SelectMirrors(order, before, teams, minHK, Inactive);
      SortMirrors(Select(order, before, teams, minHK, Alliance), before);
      SortMirrors(Select(order, before, teams, minHK, Horde), before);

      scA := DistributeSideTo(allianceStandingList, patch112);
      ghost var s1 := weeklyScores;
      SideDoneKeeps(allianceStandingList, scA, hordeStandingList, before, s1);
      SideDoneKeeps(allianceStandingList, scA, inactiveStandingList, before, s1);
      scH := DistributeSideTo(hordeStandingList, patch112);
      ghost var s2 := weeklyScores;
      SideDoneKeeps(hordeStandingList, scH, inactiveStandingList, s1, s2);
      InactiveDecayRankPoints();
      forall g | g in order
        ensures var side := SideOf(before[g], teams[g], minHK);
                WeekDone(g, before[g], weeklyScores[g], side,
                         if side == Alliance then allianceStandingList else hordeStandingList,
                         if side == Alliance then scA else scH)
      {
        PassesCompose(allianceStandingList, scA, hordeStandingList, scH, inactiveStandingList, before, s1, s2,
                      weeklyScores, g);
      }
    }

    method DistributeSideTo(list: seq<Standing>, patch112: bool) returns (ghost sc: Scores)
      requires Mirrors(list, weeklyScores) && forall g :: g in weeklyScores ==> weeklyScores[g].cp >= 0.0
      modifies `weeklyScores
      ensures SideDone(list, sc, old(weeklyScores), weeklyScores)
      ensures list != [] ==> AreScores(list, patch112, sc)
    {
      sc := DistributeRankPoints(list, patch112);
      if list != [] { DistributeSide(list, old(weeklyScores), sc); }
    }
  }
}
