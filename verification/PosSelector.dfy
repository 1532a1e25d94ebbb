/** Free angles around an object: positions in use are listed by angle on the two sides of the original
    direction, and candidates are handed out one by one, always on the side that is less far round. */
module PosSelector {

  import opened Wrappers

  const PI := 3.14159265358979323846

  function Abs(x: real): real { if x < 0.0 then -x else x }

  datatype UsedPosType = Plus | Minus {
    /** The sign of the side times x. */
    function Signed(x: real): real { if Plus? then x else -x }
    function Other(): UsedPosType { if Plus? then Minus else Plus }
  }

  /** A used position: the absolute angle, the side it is on, its size and distance. */
  datatype UsedPos = UsedPos(angle: real, side: UsedPosType, size: real, dist: real)

  /** One side: its positions by angle, the next of them to be passed, and the small steps being taken:
      whether they go on, from where, and the position they must stay clear of. */
  datatype Side = Side(list: seq<UsedPos>, next: nat, ok: bool, angle: real, limit: Option<UsedPos>) {
    predicate AtEnd() { next >= |list| }
    function Left(): nat { if next >= |list| then 0 else |list| - next }
  }

  /** Between the candidates: the step to the next one and the angle at which a used position is cleared. */
  datatype Geometry = Geometry(step: real, getAngle: UsedPos -> real)

  /** The steps are arc cosines of ratios below one, the clearances arc cosines. */
  ghost predicate Proper(g: Geometry) {
    g.step > 0.0 && forall u :: g.getAngle(u) >= 0.0
  }

  datatype State = State(plus: Side, minus: Side) {
    function Get(up: UsedPosType): Side { if up.Plus? then plus else minus }
    function Set(up: UsedPosType, s: Side): State { if up.Plus? then State(s, minus) else State(plus, s) }
    function Left(): nat { plus.Left() + minus.Left() }
    predicate More() { !plus.AtEnd() || !minus.AtEnd() || plus.ok || minus.ok }
  }

  /** Whether an angle on a side stays clear of a used position. */
  predicate CheckAngle(g: Geometry, u: UsedPos, up: UsedPosType, angle: real) {
    Abs(angle) + g.getAngle(u) <= (if u.side != up then 2.0 * PI - u.angle else u.angle)
  }

  /** Going round on a side, a used position of that side is met at its angle, one of the other side after a whole turn
      less its own. An angle is clear of it if it, and what the position takes, is not farther than that. */
  lemma ClearMeans(g: Geometry, u: UsedPos, up: UsedPosType, angle: real, way: real)
    requires up.Signed(way) == u.side.Signed(u.angle) + if u.side == up then 0.0 else up.Signed(6.28318530717958647692)
    ensures CheckAngle(g, u, up, angle) <==> (if angle >= 0.0 then angle else -angle) + g.getAngle(u) <= way
  {
  }

  /** The used position after the current one of a side: at the end of the list it is the last one of the
      other side. */
  function NextUsedPos(st: State, up: UsedPosType): Option<UsedPos> {
    var s, o := st.Get(up), st.Get(up.Other()).list;
    if s.next + 1 < |s.list| then Some(s.list[s.next + 1])
    else if o != [] then Some(o[|o| - 1]) else None
  }

  /** The candidate just behind a used position. */
  function AngleFor(g: Geometry, st: State, up: UsedPosType, u: UsedPos): (bool, real, State) {
    var angle := u.side.Signed(u.angle) + up.Signed(g.getAngle(u));
    var node := NextUsedPos(st, up);
    if node.Some? && !CheckAngle(g, node.value, up, angle) then (false, angle, st.Set(up, st.Get(up).(ok := false)))
    else (true, angle, st.Set(up, st.Get(up).(ok := true, angle := angle, limit := node)))
  }

  /** The candidate a small step on. */
  function SmallStep(g: Geometry, st: State, up: UsedPosType): (bool, real, State) {
    var s := st.Get(up);
    var angle := s.angle + up.Signed(g.step);
    if Abs(angle) > PI
       || (s.limit.Some? && (Abs(angle) >= s.limit.value.angle || !CheckAngle(g, s.limit.value, up, angle)))
    then (false, angle, st.Set(up, s.(ok := false)))
    else (true, angle, st.Set(up, s.(angle := angle)))
  }

  /** On a side with used positions left: a small step or the place behind the position; when there is no
      room the position is passed. */
  function Advance(g: Geometry, st: State, up: UsedPosType): (bool, real, State)
    requires !st.Get(up).AtEnd()
  {
    var s := st.Get(up);
    var (ok, angle, st') := if s.ok then SmallStep(g, st, up) else AngleFor(g, st, up, s.list[s.next]);
    (ok, angle, if ok then st' else st'.Set(up, st'.Get(up).(next := s.next + 1)))
  }

  /** The next candidate, if this attempt finds one; the angle is set either way, except at the very end. */
  function PosibleAngle(g: Geometry, st: State, angle: real): (bool, real, State) {
    var p, m := st.plus, st.minus;
    if !p.AtEnd() && (m.AtEnd() || p.list[p.next].angle <= m.list[m.next].angle) then Advance(g, st, Plus)
    else if !m.AtEnd() then Advance(g, st, Minus)
    else if p.ok && (!m.ok || p.angle <= m.angle) then SmallStep(g, st, Plus)
    else if m.ok then SmallStep(g, st, Minus)
    else (false, angle, st)
  }

  // ----- Every attempt gets nearer the end -----

  /** Small steps go away from the original direction. */
  ghost predicate Outward(st: State) {
    && (st.plus.ok ==> st.plus.angle >= 0.0) && (st.minus.ok ==> st.minus.angle <= 0.0)
    && Filed(st)
  }

  /** The lists hold what belongs to their side. */
  ghost predicate Filed(st: State) {
    && (forall u :: u in st.plus.list ==> u.angle >= 0.0 && u.side == Plus)
    && (forall u :: u in st.minus.list ==> u.angle >= 0.0 && u.side == Minus)
  }

  lemma QuotientNonNegative(x: real, y: real)
    requires x >= 0.0 && y > 0.0
    ensures x / y >= 0.0
  {
  }

  /** The small steps that fit before half a turn. */
  function StepsLeft(g: Geometry, angle: real): nat
    requires g.step > 0.0
  {
    if Abs(angle) > PI then 0
    else
      QuotientNonNegative(PI - Abs(angle), g.step);
      ((PI - Abs(angle)) / g.step).Floor + 1
  }

  lemma OneLess(x: real, y: real)
    requires y > 0.0
    ensures (x - y) / y == x / y - 1.0
  {
    calc {
      (x - y) / y;
      x / y - y / y;
      x / y - 1.0;
    }
  }

  lemma StepTaken(g: Geometry, angle: real, further: real)
    requires g.step > 0.0 && Abs(further) == Abs(angle) + g.step && Abs(further) <= PI
    ensures StepsLeft(g, angle) == StepsLeft(g, further) + 1
  {
    var x := PI - Abs(angle);
    OneLess(x, g.step);
  }

  function Stuck(st: State): nat {
    (if st.plus.ok then 0 else 1) + (if st.minus.ok then 0 else 1)
  }

  /** First the positions still to be passed; then, as long as there are any, the sides that take no small
      steps, and afterwards those that do; then the small steps that fit. */
  ghost function Measure(g: Geometry, st: State): (nat, nat, nat)
    requires g.step > 0.0
  {
    (st.Left(), if st.Left() > 0 then Stuck(st) else 2 - Stuck(st),
     StepsLeft(g, st.plus.angle) + StepsLeft(g, st.minus.angle))
  }

  predicate Less(a: (nat, nat, nat), b: (nat, nat, nat)) {
    a.0 < b.0 || (a.0 == b.0 && (a.1 < b.1 || (a.1 == b.1 && a.2 < b.2)))
  }

  lemma SmallStepDescends(g: Geometry, st: State, up: UsedPosType)
    requires Proper(g) && Outward(st) && st.Get(up).ok
    ensures Outward(SmallStep(g, st, up).2)
    ensures var (ok, angle, st') := SmallStep(g, st, up);
            st'.Left() == st.Left() &&
            if ok then Stuck(st') == Stuck(st) && Measure(g, st').2 + 1 == Measure(g, st).2
            else Stuck(st') == Stuck(st) + 1
  {
    var (ok, angle, st') := SmallStep(g, st, up);
    if ok { StepTaken(g, st.Get(up).angle, angle); }
  }

  lemma AngleForDescends(g: Geometry, st: State, up: UsedPosType, u: UsedPos)
    requires Proper(g) && Outward(st) && !st.Get(up).ok && u.side == up && u.angle >= 0.0
    ensures Outward(AngleFor(g, st, up, u).2)
    ensures var (ok, angle, st') := AngleFor(g, st, up, u);
            st'.Left() == st.Left() && st'.Get(up).next == st.Get(up).next
            && if ok then Stuck(st') + 1 == Stuck(st) else st' == st
  {
  }

  lemma AdvanceDescends(g: Geometry, st: State, up: UsedPosType)
    requires Proper(g) && Outward(st) && !st.Get(up).AtEnd()
    ensures Outward(Advance(g, st, up).2)
    ensures Less(Measure(g, Advance(g, st, up).2), Measure(g, st))
  {
    var s := st.Get(up);
    assert s.list[s.next] in s.list;
    if s.ok {
      SmallStepDescends(g, st, up);
    } else {
      AngleForDescends(g, st, up, s.list[s.next]);
    }
  }

  lemma AttemptDescends(g: Geometry, st: State, was: real)
    requires Proper(g) && Outward(st) && st.More()
    ensures Outward(PosibleAngle(g, st, was).2)
    ensures Less(Measure(g, PosibleAngle(g, st, was).2), Measure(g, st))
  {
    var p, m := st.plus, st.minus;
    if !p.AtEnd() && (m.AtEnd() || p.list[p.next].angle <= m.list[m.next].angle) {
      AdvanceDescends(g, st, Plus);
    } else if !m.AtEnd() {
      AdvanceDescends(g, st, Minus);
    } else if p.ok && (!m.ok || p.angle <= m.angle) {
      SmallStepDescends(g, st, Plus);
    } else {
      SmallStepDescends(g, st, Minus);
    }
  }

  /** As long as there are used positions an attempt is on the side whose next one is nearer. Behind them it is not the
      nearer side that goes on: angles are compared with their signs, so the minus side does, for as long as it may,
      but when both are still at the original direction. */
  lemma NearerSideFirst(g: Geometry, st: State, was: real)
    requires Proper(g) && Outward(st)
    ensures var p, m, st' := st.plus, st.minus, PosibleAngle(g, st, was).2;
            var near := p.next < |p.list| && (m.next < |m.list| ==> p.list[p.next].angle <= m.list[m.next].angle);
            && (st.Left() > 0 && near ==> st'.minus == m && st'.plus != p)
            && (st.Left() > 0 && !near ==> st'.plus == p && st'.minus != m)
            && (st.Left() == 0 && p.ok && m.ok && p.angle == m.angle == 0.0 ==> st'.minus == m)
            && (st.Left() == 0 && m.ok && !(p.ok && p.angle == m.angle == 0.0) ==> st'.plus == p)
            && (st.Left() == 0 && !m.ok ==> st'.minus == m)
  {
  }

  // ----- Enumerations -----

  /** Attempts are made until a candidate is found or nothing is left to try. */
  ghost function NextAngleFrom(g: Geometry, st: State, was: real): (bool, real, State)
    requires Proper(g) && Outward(st)
    ensures Outward(NextAngleFrom(g, st, was).2)
    ensures !NextAngleFrom(g, st, was).0 ==> !NextAngleFrom(g, st, was).2.More()
    ensures NextAngleFrom(g, st, was).0 ==> Less(Measure(g, NextAngleFrom(g, st, was).2), Measure(g, st))
    decreases Measure(g, st).0, Measure(g, st).1, Measure(g, st).2
  {
    if !st.More() then (false, was, st)
    else
      AttemptDescends(g, st, was);
      var (ok, angle, st') := PosibleAngle(g, st, was);
      if ok then (true, angle, st') else NextAngleFrom(g, st', angle)
  }

  /** All the candidates there are: asking again and again comes to an end. */
  ghost function Candidates(g: Geometry, st: State, was: real): seq<real>
    requires Proper(g) && Outward(st)
    decreases Measure(g, st).0, Measure(g, st).1, Measure(g, st).2
  {
    var (ok, angle, st') := NextAngleFrom(g, st, was);
    if ok then [angle] + Candidates(g, st', angle) else []
  }

  /** The candidates with the state after each. */
  ghost function Trace(g: Geometry, st: State, was: real): seq<(real, State)>
    requires Proper(g) && Outward(st)
    decreases Measure(g, st).0, Measure(g, st).1, Measure(g, st).2
  {
    var (ok, angle, st') := NextAngleFrom(g, st, was);
    if ok then [(angle, st')] + Trace(g, st', angle) else []
  }

  lemma {:induction false} TraceIsCandidates(g: Geometry, st: State, was: real)
    requires Proper(g) && Outward(st)
    ensures |Trace(g, st, was)| == |Candidates(g, st, was)|
    ensures forall i :: 0 <= i < |Trace(g, st, was)| ==> Trace(g, st, was)[i].0 == Candidates(g, st, was)[i]
    decreases Measure(g, st).0, Measure(g, st).1, Measure(g, st).2
  {
    var (ok, angle, st') := NextAngleFrom(g, st, was);
    if ok { TraceIsCandidates(g, st', angle); }
  }

  /** An attempt either gives the first candidate of those there are, or leaves them all to come. */
  lemma AttemptUnfolds(g: Geometry, st: State, was: real)
    requires Proper(g) && Outward(st) && st.More() && Outward(PosibleAngle(g, st, was).2)
    ensures var (ok, angle, st') := PosibleAngle(g, st, was);
            Candidates(g, st, was) == if ok then [angle] + Candidates(g, st', angle) else Candidates(g, st', angle)
  {
  }

  /** With a step of zero, which the selector never takes, the enumeration would stand still for ever, whatever the
      used positions: the next candidate is found and leaves everything as it was. */
  lemma ZeroStepStandsStill(g: Geometry, st: State, was: real)
    requires g.step == 0.0 && st.plus.limit == st.minus.limit == None
    ensures PosibleAngle(g, Initialized(st), was) == (true, 0.0, Initialized(st))
  {
  }

  /** While there are used positions left an attempt either finds a candidate or passes one of them. */
  lemma OneIsPassed(g: Geometry, st: State, was: real)
    requires st.Left() > 0
    ensures PosibleAngle(g, st, was).2.Left() == if PosibleAngle(g, st, was).0 then st.Left() else st.Left() - 1
  {
    var p, m := st.plus, st.minus;
    if !p.AtEnd() && (m.AtEnd() || p.list[p.next].angle <= m.list[m.next].angle) {
      SidePasses(g, st, Plus);
    } else {
      SidePasses(g, st, Minus);
    }
  }

  lemma SidePasses(g: Geometry, st: State, up: UsedPosType)
    requires !st.Get(up).AtEnd()
    ensures var (ok, _, st') := Advance(g, st, up);
            && st'.Get(up.Other()) == st.Get(up.Other()) && st'.Get(up).list == st.Get(up).list
            && st'.Get(up).next == if ok then st.Get(up).next else st.Get(up).next + 1
  {
  }

  /** The used positions an attempt passes on the way, as candidates of last resort. */
  ghost function NextUsedFrom(g: Geometry, st: State, was: real): (bool, real, State)
    requires Proper(g) && Outward(st)
    ensures Outward(NextUsedFrom(g, st, was).2)
    ensures NextUsedFrom(g, st, was).0 <==> st.Left() > 0
    ensures NextUsedFrom(g, st, was).2.Left() == if st.Left() > 0 then st.Left() - 1 else 0
    decreases Measure(g, st).0, Measure(g, st).1, Measure(g, st).2
  {
    if st.Left() == 0 then (false, was, st)
    else
      AttemptDescends(g, st, was);
      OneIsPassed(g, st, was);
      var (ok, angle, st') := PosibleAngle(g, st, was);
      if !ok then (true, angle, st') else NextUsedFrom(g, st', angle)
  }

  // ----- Which candidates are free -----

  /** The k-th small step behind a used position of a side; the one before the first is the place just behind it. */
  function StepBehind(g: Geometry, u: UsedPos, up: UsedPosType, k: nat): real {
    StepFrom(g, up, u.angle + g.getAngle(u), k)
  }

  function StepFrom(g: Geometry, up: UsedPosType, base: real, k: nat): real { up.Signed(base + k as real * g.step) }

  /** It may be taken: it is clear of the limit, and, but for the place just behind, within half a turn and before the
      limit. */
  predicate Open(g: Geometry, limit: Option<UsedPos>, up: UsedPosType, angle: real, k: nat) {
    && (limit.Some? ==> CheckAngle(g, limit.value, up, angle))
    && (k > 0 ==> Abs(angle) <= PI && (limit.Some? ==> Abs(angle) < limit.value.angle))
  }

  /** A side takes its small steps behind its current used position and clear of the next one. */
  ghost predicate Between(g: Geometry, st: State, up: UsedPosType) {
    var s := st.Get(up);
    && s.next < |s.list| && s.limit == NextUsedPos(st, up)
    && exists k: nat :: AtStep(g, s, up, k)
  }

  predicate AtStep(g: Geometry, s: Side, up: UsedPosType, k: nat)
    requires s.next < |s.list|
  {
    s.angle == StepBehind(g, s.list[s.next], up, k) && Open(g, s.limit, up, s.angle, k)
  }

  lemma OneStepOn(g: Geometry, up: UsedPosType, base: real, k: nat)
    ensures StepFrom(g, up, base, k + 1) == StepFrom(g, up, base, k) + up.Signed(g.step)
    ensures StepFrom(g, up, base, 0) == up.Signed(base)
  {
  }

  lemma AdvanceStaysBetween(g: Geometry, st: State, up: UsedPosType)
    requires Proper(g) && Outward(st) && !st.Get(up).AtEnd()
    requires st.Get(up).ok ==> Between(g, st, up)
    ensures Advance(g, st, up).0 ==> Between(g, Advance(g, st, up).2, up)
    ensures Advance(g, st, up).0 ==> Advance(g, st, up).2.Get(up).angle == Advance(g, st, up).1
    ensures !Advance(g, st, up).0 ==> !Advance(g, st, up).2.Get(up).ok
    ensures Advance(g, st, up).2.Get(up.Other()) == st.Get(up.Other())
  {
    var s := st.Get(up);
    assert s.list[s.next] in s.list;
    var (ok, angle, st') := Advance(g, st, up);
    if ok {
      if s.ok {
        var k: nat :| AtStep(g, s, up, k);
        OneStepOn(g, up, s.list[s.next].angle + g.getAngle(s.list[s.next]), k);
        assert AtStep(g, st'.Get(up), up, k + 1);
      } else {
        OneStepOn(g, up, s.list[s.next].angle + g.getAngle(s.list[s.next]), 0);
        assert AtStep(g, st'.Get(up), up, 0);
      }
    }
  }

  /** How far a side has come from the start of an enumeration: it takes its first small steps, from the original
      direction, until they end and its first used position is passed; from then on its steps are between two used
      positions. A side without used positions takes only the first ones. */
  ghost predicate Begun(g: Geometry, start: State, st: State, up: UsedPosType) {
    var s := st.Get(up);
    && s.list == start.Get(up).list
    && (s.list != [] && s.next == 0 ==> s.ok)
    && (s.ok ==> if InFirstRun(s) then FromStart(g, start, st, up) else Between(g, st, up))
  }

  predicate InFirstRun(s: Side) { s.list == [] || s.next == 0 }

  ghost predicate FromStart(g: Geometry, start: State, st: State, up: UsedPosType) {
    st.Get(up).limit == start.Get(up).limit && exists k: nat :: st.Get(up).angle == StepAt(g, up, k)
  }

  /** The k-th small step from the original direction. */
  function StepAt(g: Geometry, up: UsedPosType, k: nat): real { StepFrom(g, up, 0.0, k) }

  /** Where small steps may go: up to half a turn, and clear of the limit of the side. */
  predicate Within(g: Geometry, limit: Option<UsedPos>, up: UsedPosType, angle: real) {
    Abs(angle) <= PI && (limit.Some? ==> Abs(angle) < limit.value.angle && CheckAngle(g, limit.value, up, angle))
  }

  /** Why an angle is a candidate: it is one of the first small steps of a side, or between two used positions. */
  ghost predicate Justified(g: Geometry, start: State, st: State, angle: real, up: UsedPosType) {
    && st.Get(up).ok && st.Get(up).angle == angle
    && st.plus.list == start.plus.list && st.minus.list == start.minus.list
    && if InFirstRun(st.Get(up))
       then Within(g, start.Get(up).limit, up, angle) && exists k: nat :: k > 0 && angle == StepAt(g, up, k)
       else Between(g, st, up)
  }

  lemma FirstStep(g: Geometry, start: State, st: State, up: UsedPosType)
    requires Proper(g) && Outward(st) && Begun(g, start, st, up) && Begun(g, start, st, up.Other())
    requires st.Get(up).ok && InFirstRun(st.Get(up))
    ensures var (ok, angle, st') := SmallStep(g, st, up);
            if ok then Begun(g, start, st', up) && Justified(g, start, st', angle, up) else !st'.Get(up).ok
  {
    var k: nat :| st.Get(up).angle == StepAt(g, up, k);
    OneStepOn(g, up, 0.0, k);
    assert StepAt(g, up, k + 1) == st.Get(up).angle + up.Signed(g.step);
  }

  lemma OtherSideKeeps(g: Geometry, start: State, st: State, st': State, up: UsedPosType)
    requires Begun(g, start, st, up) && st'.Get(up) == st.Get(up)
    requires st'.Get(up.Other()).list == st.Get(up.Other()).list
    ensures Begun(g, start, st', up)
  {
  }

  lemma LaterStep(g: Geometry, start: State, st: State, up: UsedPosType)
    requires Proper(g) && Outward(st) && Begun(g, start, st, up) && Begun(g, start, st, up.Other())
    requires 0 < st.Get(up).next < |st.Get(up).list|
    ensures var (ok, angle, st') := Advance(g, st, up);
            Begun(g, start, st', up) && (ok ==> Justified(g, start, st', angle, up))
  {
    AdvanceStaysBetween(g, st, up);
  }

  lemma AdvanceIsJustified(g: Geometry, start: State, st: State, up: UsedPosType)
    requires Proper(g) && Outward(st) && Begun(g, start, st, up) && Begun(g, start, st, up.Other())
    requires !st.Get(up).AtEnd()
    ensures var (ok, angle, st') := Advance(g, st, up);
            && Begun(g, start, st', up) && Begun(g, start, st', up.Other())
            && (ok ==> Justified(g, start, st', angle, up))
  {
    OtherSideKeeps(g, start, st, Advance(g, st, up).2, up.Other());
    if st.Get(up).next == 0 { FirstStep(g, start, st, up); } else { LaterStep(g, start, st, up); }
  }

  lemma AttemptIsJustified(g: Geometry, start: State, st: State, was: real)
    requires Proper(g) && Outward(st) && Begun(g, start, st, Plus) && Begun(g, start, st, Minus) && st.More()
    ensures var (ok, angle, st') := PosibleAngle(g, st, was);
            && Begun(g, start, st', Plus) && Begun(g, start, st', Minus)
            && (ok ==> Justified(g, start, st', angle, Plus) || Justified(g, start, st', angle, Minus))
  {
    var p, m := st.plus, st.minus;
    if !p.AtEnd() && (m.AtEnd() || p.list[p.next].angle <= m.list[m.next].angle) {
      AdvanceIsJustified(g, start, st, Plus);
    } else if !m.AtEnd() {
      AdvanceIsJustified(g, start, st, Minus);
    } else if p.ok && (!m.ok || p.angle <= m.angle) {
      FirstStep(g, start, st, Plus);
    } else {
      FirstStep(g, start, st, Minus);
    }
  }

  lemma {:induction false} NextIsJustified(g: Geometry, start: State, st: State, was: real)
    requires Proper(g) && Outward(st) && Begun(g, start, st, Plus) && Begun(g, start, st, Minus)
    ensures var (ok, angle, st') := NextAngleFrom(g, st, was);
            && Begun(g, start, st', Plus) && Begun(g, start, st', Minus)
            && (ok ==> Justified(g, start, st', angle, Plus) || Justified(g, start, st', angle, Minus))
    decreases Measure(g, st).0, Measure(g, st).1, Measure(g, st).2
  {
    if st.More() {
      AttemptDescends(g, st, was);
      AttemptIsJustified(g, start, st, was);
      var (ok, angle, st') := PosibleAngle(g, st, was);
      if !ok { NextIsJustified(g, start, st', angle); }
    }
  }

  lemma {:induction false} TraceIsJustified(g: Geometry, start: State, st: State, was: real, i: nat)
    requires Proper(g) && Outward(st) && Begun(g, start, st, Plus) && Begun(g, start, st, Minus)
    requires i < |Trace(g, st, was)|
    ensures var (angle, after) := Trace(g, st, was)[i];
            Justified(g, start, after, angle, Plus) || Justified(g, start, after, angle, Minus)
    decreases Measure(g, st).0, Measure(g, st).1, Measure(g, st).2
  {
    NextIsJustified(g, start, st, was);
    var (ok, angle, st') := NextAngleFrom(g, st, was);
    if i > 0 { TraceIsJustified(g, start, st', angle, i - 1); }
  }

  /** A small step from the original direction, checked against nothing but the limit the side may have kept. */
  ghost predicate StartingStep(g: Geometry, st: State, up: UsedPosType, angle: real) {
    Within(g, st.Get(up).limit, up, angle) && exists k: nat :: k > 0 && angle == StepAt(g, up, k)
  }

  /** A small step behind a used position of a side, which is not its first, or the place just behind, clear of the
      next one. */
  ghost predicate ClearBehind(g: Geometry, st: State, up: UsedPosType, angle: real, n: nat) {
    0 < n < |st.Get(up).list| && exists k: nat :: IsStepBehind(g, st, up, angle, n, k)
  }

  predicate IsStepBehind(g: Geometry, st: State, up: UsedPosType, angle: real, n: nat, k: nat)
    requires n < |st.Get(up).list|
  {
    && angle == StepBehind(g, st.Get(up).list[n], up, k)
    && Open(g, NextUsedPos(st.Set(up, st.Get(up).(next := n)), up), up, angle, k)
  }

  /** What a side may offer. */
  ghost predicate Offered(g: Geometry, st: State, up: UsedPosType, angle: real) {
    StartingStep(g, st, up, angle) || exists n: nat :: ClearBehind(g, st, up, angle, n)
  }

  /** Every candidate of an enumeration is one of the small steps with which a side starts, or lies behind a used
      position of its side and clear of the next. */
  lemma CandidatesAreJustified(g: Geometry, st: State, was: real, i: nat)
    requires Proper(g) && Filed(st) && i < |Candidates(g, Initialized(st), was)|
    ensures var angle := Candidates(g, Initialized(st), was)[i];
            Offered(g, st, Plus, angle) || Offered(g, st, Minus, angle)
  {
    var start := Initialized(st);
    assert StepAt(g, Plus, 0) == 0.0 && StepAt(g, Minus, 0) == 0.0;
    TraceIsCandidates(g, start, was);
    TraceIsJustified(g, start, start, was, i);
    var (angle, after) := Trace(g, start, was)[i];
    var up := if Justified(g, start, after, angle, Plus) then Plus else Minus;
    JustifiedMeans(g, st, after, angle, up);
  }

  lemma JustifiedMeans(g: Geometry, st: State, after: State, angle: real, up: UsedPosType)
    requires Justified(g, Initialized(st), after, angle, up)
    ensures StartingStep(g, st, up, angle) || ClearBehind(g, st, up, angle, after.Get(up).next)
  {
    if !InFirstRun(after.Get(up)) {
      var k: nat :| AtStep(g, after.Get(up), up, k);
      assert IsStepBehind(g, st, up, angle, after.Get(up).next, k);
    }
  }

  lemma WithinIsMonotone(g: Geometry, limit: Option<UsedPos>, up: UsedPosType, x: real, y: real)
    requires Abs(x) <= Abs(y) && Within(g, limit, up, y)
    ensures Within(g, limit, up, x)
  {
  }

  lemma StepsStayWithin(g: Geometry, limit: Option<UsedPos>, up: UsedPosType, base: real, j: nat, k: nat)
    requires g.step > 0.0 && base >= 0.0 && j <= k && Within(g, limit, up, StepFrom(g, up, base, k))
    ensures Within(g, limit, up, StepFrom(g, up, base, j))
  {
    StepsGrow(g, up, base, j, k);
    WithinIsMonotone(g, limit, up, StepFrom(g, up, base, j), StepFrom(g, up, base, k));
  }

  lemma StepsGrow(g: Geometry, up: UsedPosType, base: real, j: nat, k: nat)
    requires g.step > 0.0 && j <= k && base >= 0.0
    ensures Abs(StepFrom(g, up, base, j)) <= Abs(StepFrom(g, up, base, k))
  {
    ProductNonNegative(j as real, g.step);
    ProductNonNegative(k as real - j as real, g.step);
  }

  lemma ProductNonNegative(x: real, y: real)
    requires x >= 0.0 && y >= 0.0
    ensures x * y >= 0.0
  {
  }

  /** The small steps of a side that go on from an angle are all tried, up to half a turn or to the side's limit. */
  lemma {:induction false} StepsAreTried(g: Geometry, st: State, was: real, up: UsedPosType, base: real, j: nat, k: nat)
    requires Proper(g) && Outward(st) && j < k && base >= 0.0
    requires st.Get(up).ok && st.Get(up).angle == StepFrom(g, up, base, j)
    requires Within(g, st.Get(up).limit, up, StepFrom(g, up, base, k))
    ensures StepFrom(g, up, base, k) in Candidates(g, st, was)
    decreases Measure(g, st).0, Measure(g, st).1, Measure(g, st).2
  {
    AttemptDescends(g, st, was);
    AttemptUnfolds(g, st, was);
    var (ok, angle, st') := PosibleAngle(g, st, was);
    if st'.Get(up) == st.Get(up) {
      StepsAreTried(g, st', angle, up, base, j, k);
    } else {
      StepsStayWithin(g, st.Get(up).limit, up, base, j + 1, k);
      OneStepOn(g, up, base, j);
      RunGoesOn(g, st, was, up, StepFrom(g, up, base, j + 1));
      if j + 1 < k { StepsAreTried(g, st', angle, up, base, j + 1, k); }
    }
  }

  /** An attempt on a side that may take its next small step takes it. */
  lemma RunGoesOn(g: Geometry, st: State, was: real, up: UsedPosType, angle: real)
    requires st.Get(up).ok && angle == st.Get(up).angle + up.Signed(g.step) && Within(g, st.Get(up).limit, up, angle)
    requires PosibleAngle(g, st, was).2.Get(up) != st.Get(up)
    ensures PosibleAngle(g, st, was) == (true, angle, st.Set(up, st.Get(up).(angle := angle)))
  {
  }

  /** So every small step from the original direction that is within the limit its side has kept is a candidate,
      even in the middle of used positions. */
  lemma StepsFromTheStart(g: Geometry, st: State, was: real, up: UsedPosType, k: nat)
    requires Proper(g) && Filed(st) && k > 0 && Within(g, st.Get(up).limit, up, StepAt(g, up, k))
    ensures StepAt(g, up, k) in Candidates(g, Initialized(st), was)
  {
    OneStepOn(g, up, 0.0, 0);
    StepsAreTried(g, Initialized(st), was, up, 0.0, 0, k);
  }

  /** A used position a side still has before it - or has just come to - gets its turn: the place behind it and the
      small steps from there are candidates. */
  lemma {:induction false} PlaceIsTried(g: Geometry, st: State, was: real, up: UsedPosType, angle: real, n: nat, k: nat)
    requires Proper(g) && Outward(st) && st.Get(up).next <= n < |st.Get(up).list|
    requires (st.Get(up).ok ==> st.Get(up).next < n) && IsStepBehind(g, st, up, angle, n, k)
    ensures angle in Candidates(g, st, was)
    decreases Measure(g, st).0, Measure(g, st).1, Measure(g, st).2
  {
    AttemptDescends(g, st, was);
    AttemptUnfolds(g, st, was);
    var (ok, a, st') := PosibleAngle(g, st, was);
    if st'.Get(up) != st.Get(up) && st.Get(up).next == n {
      PlaceIsTaken(g, st, was, up, angle, n, k);
    } else {
      TurnIsToCome(g, st, was, up, angle, n, k);
      PlaceIsTried(g, st', a, up, angle, n, k);
    }
  }

  lemma TurnIsToCome(g: Geometry, st: State, was: real, up: UsedPosType, angle: real, n: nat, k: nat)
    requires Proper(g) && Outward(st) && st.Get(up).next <= n < |st.Get(up).list|
    requires (st.Get(up).ok ==> st.Get(up).next < n) && IsStepBehind(g, st, up, angle, n, k)
    requires PosibleAngle(g, st, was).2.Get(up) == st.Get(up) || st.Get(up).next < n
    ensures var st' := PosibleAngle(g, st, was).2;
            && st'.Get(up).next <= n < |st'.Get(up).list| && (st'.Get(up).ok ==> st'.Get(up).next < n)
            && IsStepBehind(g, st', up, angle, n, k)
  {
    var p, m := st.plus, st.minus;
    SameStepBehind(g, st, PosibleAngle(g, st, was).2, up, angle, n, k) by { SameLists(g, st, was); }
    if !p.AtEnd() && (m.AtEnd() || p.list[p.next].angle <= m.list[m.next].angle) {
      SidePasses(g, st, Plus);
    } else {
      SidePasses(g, st, Minus);
    }
  }

  lemma SameStepBehind(g: Geometry, st: State, st': State, up: UsedPosType, angle: real, n: nat, k: nat)
    requires st'.plus.list == st.plus.list && st'.minus.list == st.minus.list && n < |st.Get(up).list|
    ensures IsStepBehind(g, st, up, angle, n, k) <==> IsStepBehind(g, st', up, angle, n, k)
  {
  }

  lemma PlaceIsTaken(g: Geometry, st: State, was: real, up: UsedPosType, angle: real, n: nat, k: nat)
    requires Proper(g) && Outward(st) && st.Get(up).next == n < |st.Get(up).list| && !st.Get(up).ok
    requires IsStepBehind(g, st, up, angle, n, k) && PosibleAngle(g, st, was).2.Get(up) != st.Get(up)
    ensures angle in Candidates(g, st, was)
  {
    var u, limit := st.Get(up).list[n], NextUsedPos(st, up);
    assert u in st.Get(up).list && st.Set(up, st.Get(up).(next := n)) == st;
    var base := u.angle + g.getAngle(u);
    OneStepOn(g, up, base, 0);
    NearestIsClear(g, limit, up, base, k);
    TurnIsTaken(g, st, was, up, u, up.Signed(base));
    AttemptDescends(g, st, was);
    var st' := PosibleAngle(g, st, was).2;
    if k > 0 { StepsAreTried(g, st', up.Signed(base), up, base, 0, k); }
    FoundIsCandidate(g, st, was, up.Signed(base), st', angle);
  }

  lemma FoundIsCandidate(g: Geometry, st: State, was: real, first: real, st': State, angle: real)
    requires Proper(g) && Outward(st) && st.More() && Outward(st') && PosibleAngle(g, st, was) == (true, first, st')
    requires angle == first || angle in Candidates(g, st', first)
    ensures angle in Candidates(g, st, was)
  {
    AttemptUnfolds(g, st, was);
  }

  lemma NearestIsClear(g: Geometry, limit: Option<UsedPos>, up: UsedPosType, base: real, k: nat)
    requires Proper(g) && base >= 0.0 && Open(g, limit, up, StepFrom(g, up, base, k), k)
    ensures limit.Some? ==> CheckAngle(g, limit.value, up, up.Signed(base))
  {
    ProductNonNegative(k as real, g.step);
  }

  /** The attempt on a used position whose place behind it is clear of the next one. */
  lemma TurnIsTaken(g: Geometry, st: State, was: real, up: UsedPosType, u: UsedPos, place: real)
    requires Outward(st) && !st.Get(up).AtEnd() && !st.Get(up).ok && u == st.Get(up).list[st.Get(up).next]
    requires u in st.Get(up).list && place == up.Signed(u.angle + g.getAngle(u))
    requires PosibleAngle(g, st, was).2.Get(up) != st.Get(up)
    requires NextUsedPos(st, up).Some? ==> CheckAngle(g, NextUsedPos(st, up).value, up, place)
    ensures PosibleAngle(g, st, was) ==
            (true, place, st.Set(up, st.Get(up).(ok := true, angle := place, limit := NextUsedPos(st, up))))
  {
  }

  /** What the candidates of an enumeration are, whatever positions are in use: for each side, the small steps from the
      original direction that are within the limit the side has kept, and, for each used position but the first, the
      place behind it and the small steps from there, as far as the next one lets them. */
  lemma CandidatesExactly(g: Geometry, st: State, was: real, angle: real)
    requires Proper(g) && Filed(st)
    ensures angle in Candidates(g, Initialized(st), was) <==>
            Offered(g, st, Plus, angle) || Offered(g, st, Minus, angle)
  {
    var all := Candidates(g, Initialized(st), was);
    if i :| 0 <= i < |all| && all[i] == angle { CandidatesAreJustified(g, st, was, i); }
    if Offered(g, st, Plus, angle) { OfferedIsTried(g, st, was, Plus, angle); }
    if Offered(g, st, Minus, angle) { OfferedIsTried(g, st, was, Minus, angle); }
  }

  lemma OfferedIsTried(g: Geometry, st: State, was: real, up: UsedPosType, angle: real)
    requires Proper(g) && Filed(st) && Offered(g, st, up, angle)
    ensures angle in Candidates(g, Initialized(st), was)
  {
    if StartingStep(g, st, up, angle) {
      StartIsTried(g, st, was, up, angle);
    } else {
      var n: nat :| ClearBehind(g, st, up, angle, n);
      ClearIsTried(g, st, was, up, angle, n);
    }
  }

  lemma StartIsTried(g: Geometry, st: State, was: real, up: UsedPosType, angle: real)
    requires Proper(g) && Filed(st) && StartingStep(g, st, up, angle)
    ensures angle in Candidates(g, Initialized(st), was)
  {
    var k: nat :| k > 0 && angle == StepAt(g, up, k);
    StepsFromTheStart(g, st, was, up, k);
  }

  lemma ClearIsTried(g: Geometry, st: State, was: real, up: UsedPosType, angle: real, n: nat)
    requires Proper(g) && Filed(st) && ClearBehind(g, st, up, angle, n)
    ensures angle in Candidates(g, Initialized(st), was)
  {
    var k: nat :| IsStepBehind(g, st, up, angle, n, k);
    SameStepBehind(g, st, Initialized(st), up, angle, n, k);
    PlaceIsTried(g, Initialized(st), was, up, angle, n, k);
  }

  ghost predicate Sorted(list: seq<UsedPos>) { forall i, j :: 0 <= i < j < |list| ==> list[i].angle <= list[j].angle }

  /** No position of a side reaches beyond its neighbours: where they begin and where they end goes up along the
      list. So it is when all take the same room. */
  ghost predicate InStep(g: Geometry, list: seq<UsedPos>) {
    forall i, j :: 0 <= i < j < |list| ==>
      && list[i].angle + g.getAngle(list[i]) <= list[j].angle + g.getAngle(list[j])
      && list[i].angle - g.getAngle(list[i]) <= list[j].angle - g.getAngle(list[j])
  }

  lemma SameRoomIsInStep(g: Geometry, list: seq<UsedPos>, room: real)
    requires Sorted(list) && forall u :: u in list ==> g.getAngle(u) == room
    ensures InStep(g, list)
  {
    assert forall i :: 0 <= i < |list| ==> list[i] in list;
  }

  lemma BehindIsBehind(g: Geometry, u: UsedPos, up: UsedPosType, k: nat)
    requires Proper(g) && u.angle >= 0.0
    ensures Abs(StepBehind(g, u, up, k)) == u.angle + g.getAngle(u) + k as real * g.step
    ensures k as real * g.step >= 0.0
  {
    ProductNonNegative(k as real, g.step);
  }

  /** Then a candidate behind a used position of a side is clear of all of that side. */
  lemma BetweenIsFree(g: Geometry, st: State, up: UsedPosType, angle: real, n: nat)
    requires Proper(g) && Filed(st) && ClearBehind(g, st, up, angle, n) && InStep(g, st.Get(up).list)
    ensures forall u :: u in st.Get(up).list ==> Abs(Abs(angle) - u.angle) >= g.getAngle(u)
  {
    var list := st.Get(up).list;
    assert list[n] in list;
    var k: nat :| IsStepBehind(g, st, up, angle, n, k);
    BehindIsBehind(g, list[n], up, k);
    forall j | 0 <= j < |list| ensures Abs(Abs(angle) - list[j].angle) >= g.getAngle(list[j]) {
      assert list[j] in list;
      if j > n { assert list[n + 1] in list; }
    }
  }

  /** A new enumeration: the limits of small steps stay what they were. */
  function Initialized(st: State): State {
    State(st.plus.(next := 0, ok := true, angle := 0.0), st.minus.(next := 0, ok := true, angle := 0.0))
  }

  /** Positions are kept by angle, behind those with the same one. */
  function Insert(list: seq<UsedPos>, u: UsedPos): seq<UsedPos> {
    if list == [] || list[|list| - 1].angle <= u.angle then list + [u]
    else Insert(list[..|list| - 1], u) + [list[|list| - 1]]
  }

  lemma {:induction false} InsertAdds(list: seq<UsedPos>, u: UsedPos)
    ensures multiset(Insert(list, u)) == multiset(list) + multiset{u}
    ensures forall v :: v in Insert(list, u) <==> v in list || v == u
  {
    if list != [] && list[|list| - 1].angle > u.angle {
      InsertAdds(list[..|list| - 1], u);
      assert list == list[..|list| - 1] + [list[|list| - 1]];
    }
  }

  lemma {:induction false} InsertSorts(list: seq<UsedPos>, u: UsedPos)
    requires Sorted(list)
    ensures Sorted(Insert(list, u))
  {
    if list != [] && list[|list| - 1].angle > u.angle {
      var front, last := list[..|list| - 1], list[|list| - 1];
      InsertAdds(front, u);
      InsertSorts(front, u);
      var r := Insert(front, u);
      forall i | 0 <= i < |r| ensures r[i].angle <= last.angle {
        assert r[i] in r;
      }
    }
  }

  /** The search for a free angle around an object. */
  class ObjectPosSelector {
    const g: Geometry
    var plus: Side
    var minus: Side

    ghost predicate Valid()
      reads this
    {
      Proper(g) && Filed(Value()) && Sorted(plus.list) && Sorted(minus.list)
    }

    function Value(): State
      reads this
    {
      State(plus, minus)
    }

    constructor (geometry: Geometry)
      requires Proper(geometry)
      ensures Valid() && g == geometry
      ensures plus == minus == Side([], 0, false, 0.0, None)
    {
      g := geometry;
      plus, minus := Side([], 0, false, 0.0, None), Side([], 0, false, 0.0, None);
    }

    method Put(up: UsedPosType, s: Side)
      modifies this
      ensures Value() == old(Value()).Set(up, s)
    {
      if up.Plus? { plus := s; } else { minus := s; }
    }

    method AddUsedPos(size: real, angle: real, dist: real)
      requires Valid()
      modifies this
      ensures Valid()
      ensures angle >= 0.0 ==>
                && multiset(plus.list) == multiset(old(plus.list)) + multiset{UsedPos(angle, Plus, size, dist)}
                && minus == old(minus)
      ensures angle < 0.0 ==>
                && multiset(minus.list) == multiset(old(minus.list)) + multiset{UsedPos(-angle, Minus, size, dist)}
                && plus == old(plus)
    {
      if angle >= 0.0 {
        var u := UsedPos(angle, Plus, size, dist);
        InsertAdds(plus.list, u);
        InsertSorts(plus.list, u);
        plus := plus.(list := Insert(plus.list, u));
      } else {
        var u := UsedPos(-angle, Minus, size, dist);
        InsertAdds(minus.list, u);
        InsertSorts(minus.list, u);
        minus := minus.(list := Insert(minus.list, u));
      }
    }

    method InitializeAngle()
      requires Valid()
      modifies this
      ensures Valid() && Outward(Value()) && Value() == Initialized(old(Value()))
    {
      plus := plus.(next := 0, ok := true, angle := 0.0);
      minus := minus.(next := 0, ok := true, angle := 0.0);
    }

    method NextAngleFor(u: UsedPos, up: UsedPosType) returns (ok: bool, angle: real)
      modifies this
      ensures (ok, angle, Value()) == AngleFor(g, old(Value()), up, u)
    {
      angle := u.side.Signed(u.angle) + up.Signed(g.getAngle(u));
      var node := NextUsedPos(Value(), up);
      ok := !(node.Some? && !CheckAngle(g, node.value, up, angle));
      if ok {
        Put(up, Value().Get(up).(ok := true, angle := angle, limit := node));
      } else {
        Put(up, Value().Get(up).(ok := false));
      }
    }

    /** When only one side has used positions the other is preferred: just across from the first of them. */
    method FirstAngle(was: real) returns (ok: bool, angle: real)
      requires Valid()
      modifies this
      ensures Valid()
      ensures old(plus.list) == [] && old(minus.list) != [] ==>
                (ok, angle, Value()) == AngleFor(g, old(Value()), Plus, old(minus.list[0]))
      ensures old(minus.list) == [] && old(plus.list) != [] ==>
                (ok, angle, Value()) == AngleFor(g, old(Value()), Minus, old(plus.list[0]))
      ensures (old(plus.list) == []) == (old(minus.list) == []) ==> !ok && angle == was && Value() == old(Value())
    {
      if plus.list == [] && minus.list != [] {
        ok, angle := NextAngleFor(minus.list[0], Plus);
      } else if minus.list == [] && plus.list != [] {
        ok, angle := NextAngleFor(plus.list[0], Minus);
      } else {
        ok, angle := false, was;
      }
    }

    method NextSmallStepAngle(up: UsedPosType) returns (ok: bool, angle: real)
      modifies this
      ensures (ok, angle, Value()) == SmallStep(g, old(Value()), up)
    {
      var s := Value().Get(up);
      angle := s.angle + up.Signed(g.step);
      ok := false;
      if Abs(angle) > PI {
        Put(up, s.(ok := false));
      } else if s.limit.Some? && (Abs(angle) >= s.limit.value.angle || !CheckAngle(g, s.limit.value, up, angle)) {
        Put(up, s.(ok := false));
      } else {
        ok := true;
        Put(up, s.(angle := angle));
      }
    }

    method AdvanceOn(up: UsedPosType) returns (ok: bool, angle: real)
      requires !Value().Get(up).AtEnd()
      modifies this
      ensures (ok, angle, Value()) == Advance(g, old(Value()), up)
    {
      var s := Value().Get(up);
      if s.ok { ok, angle := NextSmallStepAngle(up); } else { ok, angle := NextAngleFor(s.list[s.next], up); }
      if !ok { Put(up, Value().Get(up).(next := s.next + 1)); }
    }

    method NextPosibleAngle(was: real) returns (ok: bool, angle: real)
      modifies this
      ensures (ok, angle, Value()) == PosibleAngle(g, old(Value()), was)
    {
      if !plus.AtEnd() && (minus.AtEnd() || plus.list[plus.next].angle <= minus.list[minus.next].angle) {
        ok, angle := AdvanceOn(Plus);
      } else if !minus.AtEnd() {
        ok, angle := AdvanceOn(Minus);
      } else if plus.ok && (!minus.ok || plus.angle <= minus.angle) {
        ok, angle := NextSmallStepAngle(Plus);
      } else if minus.ok {
        ok, angle := NextSmallStepAngle(Minus);
      } else {
        ok, angle := false, was;
      }
    }

    method NextAngle(was: real) returns (ok: bool, angle: real)
      requires Valid() && Outward(Value())
      modifies this
      ensures Valid() && Outward(Value()) && (ok, angle, Value()) == NextAngleFrom(g, old(Value()), was)
    {
      angle := was;
      while !plus.AtEnd() || !minus.AtEnd() || plus.ok || minus.ok
        invariant Valid() && Outward(Value())
        invariant NextAngleFrom(g, Value(), angle) == NextAngleFrom(g, old(Value()), was)
        decreases Measure(g, Value()).0, Measure(g, Value()).1, Measure(g, Value()).2
      {
        AttemptDescends(g, Value(), angle);
        SameLists(g, Value(), angle);
        ok, angle := NextPosibleAngle(angle);
        if ok { return; }
      }
      ok := false;
    }

    method NextUsedAngle(was: real) returns (ok: bool, angle: real)
      requires Valid() && Outward(Value())
      modifies this
      ensures Valid() && Outward(Value()) && (ok, angle, Value()) == NextUsedFrom(g, old(Value()), was)
    {
      angle := was;
      while !plus.AtEnd() || !minus.AtEnd()
        invariant Valid() && Outward(Value())
        invariant NextUsedFrom(g, Value(), angle) == NextUsedFrom(g, old(Value()), was)
        decreases Measure(g, Value()).0, Measure(g, Value()).1, Measure(g, Value()).2
      {
        AttemptDescends(g, Value(), angle);
        SameLists(g, Value(), angle);
        ok, angle := NextPosibleAngle(angle);
        if !ok { return true, angle; }
      }
      ok := false;
    }

    /** Candidates are tried until one is in sight; when none is, all have been tried. */
    method FindInSight(inSight: real -> bool, was: real) returns (found: Option<real>, ghost i: nat)
      requires Valid() && Outward(Value())
      modifies this
      ensures Valid() && Outward(Value())
      ensures i <= |Candidates(g, old(Value()), was)|
      ensures forall k :: 0 <= k < i ==> !inSight(Candidates(g, old(Value()), was)[k])
      ensures if i < |Candidates(g, old(Value()), was)|
              then found == Some(Candidates(g, old(Value()), was)[i]) && inSight(found.value) else found == None
    {
      ghost var all := Candidates(g, Value(), was);
      i := 0;
      var ok, angle := NextAngle(was);
      while ok
        invariant Valid() && Outward(Value())
        invariant i <= |all| && forall k :: 0 <= k < i ==> !inSight(all[k])
        invariant if ok then all[i..] == [angle] + Candidates(g, Value(), angle) else i == |all|
        decreases ok, Measure(g, Value()).0, Measure(g, Value()).1, Measure(g, Value()).2
      {
        assert all[i] == all[i..][0] == angle && all[i + 1..] == all[i..][1..];
        if inSight(angle) { return Some(angle), i; }
        i := i + 1;
        ok, angle := NextAngle(angle);
      }
      found := None;
    }
  }

  lemma SameLists(g: Geometry, st: State, was: real)
    ensures PosibleAngle(g, st, was).2.plus.list == st.plus.list
    ensures PosibleAngle(g, st, was).2.minus.list == st.minus.list
  {
  }
}
