/** The opening of the gates of Ahn'Qiraj: a stage machine driven by the clock, by the collected
    goods and by the gong, and the game events each stage switches on and off. */
module WarEffort {
  import opened GameEvents

  const COLLECT_OBJ := 22
  const REP := 52
  const OFFICERS := 53
  const DAY1 := 54
  const DAY2 := 55
  const DAY3 := 56
  const DAY4 := 57
  const DAY5 := 58
  const CH_ATTACK := 59
  const TROOPS2 := 60
  const FINALBATTLE := 61
  const BATTLE_ASHI := 62
  const BATTLE_REGAL := 63
  const BATTLE_ZORA := 64
  const CRYSTALS := 65
  const AQ_GATE := 83
  const WAR_EFFORT := 84
  const GONG := 85
  const POST_WAR := 86

  type Stage = s: int | 0 <= s <= 12

  const STAGE_COLLECTION: Stage := 0
  const STAGE_READY: Stage := 1
  const STAGE_MOVE_1: Stage := 2
  const STAGE_MOVE_5: Stage := 6
  const STAGE_GONG_WAIT: Stage := 7
  const STAGE_GONG_RUNG: Stage := 8
  const STAGE_BATTLE: Stage := 9
  const STAGE_CH_ATTACK: Stage := 10
  const STAGE_FINALBATTLE: Stage := 11
  const STAGE_COMPLETE: Stage := 12

  const COLLECTION_TRANSITION_TIME := 10 * MINUTE
  const MOVE_TRANSITION_TIME := DAY
  const CH_ATTACK_TIME := 4 * 60 * MINUTE
  const FINAL_BATTLE_TIME := 4 * 60 * MINUTE
  const GONG_DURATION := 10 * 60 * MINUTE

  /** The events that belong to a stage. */
  function Row(stage: Stage): seq<nat> {
    if stage == 0 then [COLLECT_OBJ, REP, AQ_GATE]
    else if stage == 1 then [COLLECT_OBJ, REP, OFFICERS, AQ_GATE]
    else if stage == 2 then [COLLECT_OBJ, REP, OFFICERS, DAY1, AQ_GATE]
    else if stage == 3 then [COLLECT_OBJ, REP, OFFICERS, DAY1, DAY2, AQ_GATE]
    else if stage == 4 then [COLLECT_OBJ, REP, OFFICERS, DAY1, DAY2, DAY3, AQ_GATE]
    else if stage == 5 then [COLLECT_OBJ, REP, OFFICERS, DAY1, DAY2, DAY3, DAY4, AQ_GATE]
    else if stage == 6 then [COLLECT_OBJ, REP, OFFICERS, DAY1, DAY2, DAY3, DAY4, DAY5, AQ_GATE]
    else if stage == 7 then [REP, OFFICERS, DAY1, DAY2, DAY3, DAY4, DAY5, GONG, AQ_GATE]
    else if stage == 8 then [REP, OFFICERS, DAY1, DAY2, DAY3, DAY4, DAY5, GONG]
    else if stage == 9 then [REP, OFFICERS, DAY1, DAY2, DAY3, DAY4, DAY5, GONG, CRYSTALS]
    else if stage == 10 then [REP, OFFICERS, DAY1, DAY2, DAY3, DAY4, DAY5, GONG, CRYSTALS, CH_ATTACK]
    else if stage == 11 then [REP, OFFICERS, DAY1, DAY2, DAY3, DAY4, DAY5, GONG, CRYSTALS, FINALBATTLE]
    else [REP, OFFICERS, POST_WAR]
  }

  /** Every event some stage may need, and one that none does. */
  const MANAGED: seq<nat> :=
    [COLLECT_OBJ, REP, OFFICERS, DAY1, DAY2, DAY3, DAY4, DAY5, CH_ATTACK, TROOPS2,
     FINALBATTLE, CRYSTALS, AQ_GATE, GONG, POST_WAR]

  /** What must be off once the war is over. */
  const STOP_EVENTS: seq<nat> := [AQ_GATE, BATTLE_ASHI, BATTLE_REGAL, BATTLE_ZORA]

  predicate Distinct(s: seq<nat>) {
    forall i, j :: 0 <= i < j < |s| ==> s[i] != s[j]
  }

  lemma OneMore(s: seq<nat>, n: nat)
    requires n < |s|
    ensures s[n] in s && s[..n + 1] == s[..n] + [s[n]]
    ensures Distinct(s) ==> s[n] !in s[..n]
  {
  }

  lemma RowsAreManaged(stage: Stage)
    ensures Distinct(Row(stage)) && Distinct(MANAGED)
    ensures forall e :: e in Row(stage) ==> e in MANAGED
  {
  }

  /** From which stage on, and up to which, each event of the rows is on; one of the managed ones is in none. */
  function Span(event: nat): (int, int) {
    match event
    case 22 => (0, 6)
    case 52 => (0, 12)
    case 53 => (1, 12)
    case 54 => (2, 11)
    case 55 => (3, 11)
    case 56 => (4, 11)
    case 57 => (5, 11)
    case 58 => (6, 11)
    case 59 => (10, 10)
    case 61 => (11, 11)
    case 65 => (9, 11)
    case 83 => (0, 7)
    case 85 => (7, 11)
    case 86 => (12, 12)
    case _ => (13, 12)
  }

  lemma RowsByEvent(stage: Stage, event: nat)
    ensures event in Row(stage) <==> Span(event).0 <= stage <= Span(event).1
  {
  }

  // ----- The stage machine -----

  /** The saved variables the event lives on. */
  datatype Vars = Vars(stage: Stage, transition: uint32, gong: uint32)

  /** Difference of two points in time in 32-bit unsigned arithmetic. */
  function Since(now: uint32, earlier: uint32): uint32 { (now - earlier) % TWO_32 }

  function MoveOn(v: Vars, now: uint32): Vars
    requires v.stage < STAGE_COMPLETE
  {
    v.(stage := v.stage + 1, transition := now)
  }

  function Step(v: Vars, now: uint32, objectivesMet: bool): Vars {
    if v.stage == STAGE_COLLECTION then
      if objectivesMet then MoveOn(v, now) else v
    else if v.stage == STAGE_READY then
      if Since(now, v.transition) > COLLECTION_TRANSITION_TIME then MoveOn(v, now) else v
    else if STAGE_MOVE_1 <= v.stage <= STAGE_MOVE_5 then
      if Since(now, v.transition) > MOVE_TRANSITION_TIME then MoveOn(v, now) else v
    else if v.stage == STAGE_GONG_WAIT then
      if v.gong != 0 then MoveOn(v, now) else v
    else if v.stage == STAGE_GONG_RUNG then
      MoveOn(v.(gong := if v.gong == 0 then now else v.gong), now)
    else if v.stage == STAGE_BATTLE then
      if Since(now, v.transition) > CH_ATTACK_TIME then MoveOn(v, now) else v
    else if v.stage == STAGE_CH_ATTACK then
      if Since(now, v.transition) > FINAL_BATTLE_TIME then MoveOn(v, now) else v
    else if v.stage == STAGE_FINALBATTLE then
      if Since(now, v.gong) > GONG_DURATION then MoveOn(v, now) else v
    else v
  }

  /** One call of the update: the time, whether all goods are in, and a player ringing the gong before it. */
  datatype Tick = Tick(now: uint32, objectivesMet: bool, rung: uint32)

  function StepTick(v: Vars, t: Tick): Vars {
    Step(if t.rung != 0 then v.(gong := t.rung) else v, t.now, t.objectivesMet)
  }

  function Run(v: Vars, ticks: seq<Tick>): Vars
    decreases |ticks|
  {
    if ticks == [] then v else Run(StepTick(v, ticks[0]), ticks[1..])
  }

  predicate ClockRuns(t: uint32, ticks: seq<Tick>) {
    && (ticks != [] ==> t <= ticks[0].now)
    && forall i, j :: 0 <= i < j < |ticks| ==> ticks[i].now <= ticks[j].now
  }

  /** Least number of seconds a stage lasts once entered. */
  function LeastStay(stage: Stage): nat {
    if stage == STAGE_READY then COLLECTION_TRANSITION_TIME + 1
    else if STAGE_MOVE_1 <= stage <= STAGE_MOVE_5 then MOVE_TRANSITION_TIME + 1
    else if stage == STAGE_BATTLE then CH_ATTACK_TIME + 1
    else if stage == STAGE_CH_ATTACK then FINAL_BATTLE_TIME + 1
    else 0
  }

  function LeastTime(from: Stage, to: Stage): nat
    requires from <= to
    decreases (to as int) - (from as int)
  {
    if from == to then 0 else LeastStay(from) + LeastTime(from + 1, to)
  }

  /** A call never goes back, moves at most one stage, and not before the stage has lasted long enough. */
  lemma StepMoves(v: Vars, t: Tick)
    requires v.transition <= t.now
    ensures var v' := StepTick(v, t);
            || (v'.stage == v.stage && v'.transition == v.transition)
            || (v'.stage == v.stage + 1 && v'.transition == t.now && t.now >= v.transition + LeastStay(v.stage))
  {
    assert Since(t.now, v.transition) == t.now - v.transition;
  }

  /** Over any run the stage only grows, by at most one per call, and its last change comes no earlier
      than the stages passed allow. */
  lemma {:induction false} RunMoves(v: Vars, ticks: seq<Tick>)
    requires ClockRuns(v.transition, ticks)
    ensures var v' := Run(v, ticks);
            && v.stage <= v'.stage <= v.stage + |ticks|
            && v'.transition >= v.transition + LeastTime(v.stage, v'.stage)
    decreases |ticks|
  {
    if ticks != [] {
      var w := StepTick(v, ticks[0]);
      StepMoves(v, ticks[0]);
      RunMoves(w, ticks[1..]);
    }
  }

  /** From the moment the goods are in, the gong can be rung after more than five days and ten minutes. */
  lemma ReadyToGong(v: Vars, ticks: seq<Tick>)
    requires v.stage == STAGE_READY && ClockRuns(v.transition, ticks)
    requires Run(v, ticks).stage == STAGE_GONG_WAIT
    ensures Run(v, ticks).transition > v.transition + 5 * DAY + 10 * MINUTE
  {
    RunMoves(v, ticks);
    LeastTimeReadyToGong();
  }

  lemma LeastTimeReadyToGong()
    ensures LeastTime(STAGE_READY, STAGE_GONG_WAIT) == 5 * DAY + 10 * MINUTE + 6
  {
    assert LeastTime(4, 7) == 3 * (DAY + 1) by { assert LeastTime(6, 7) == DAY + 1; }
    assert LeastTime(2, 7) == 5 * (DAY + 1);
  }

  /** The battle goes on for more than eight hours before its last phase. */
  lemma BattleToFinal(v: Vars, ticks: seq<Tick>)
    requires v.stage == STAGE_BATTLE && ClockRuns(v.transition, ticks)
    requires Run(v, ticks).stage == STAGE_FINALBATTLE
    ensures Run(v, ticks).transition > v.transition + CH_ATTACK_TIME + FINAL_BATTLE_TIME
  {
    RunMoves(v, ticks);
    assert LeastTime(10, 11) == FINAL_BATTLE_TIME + 1;
  }

  /** Since when a stage that only waits for the clock lasts, and what it waits for: the last transition, or for
      the last phase of the battle the gong. */
  predicate IsTimed(stage: Stage) {
    STAGE_READY <= stage <= STAGE_MOVE_5 || STAGE_BATTLE <= stage <= STAGE_FINALBATTLE
  }

  function Began(v: Vars): uint32 { if v.stage == STAGE_FINALBATTLE then v.gong else v.transition }

  function Lasts(stage: Stage): nat
    requires IsTimed(stage)
  {
    if stage == STAGE_READY then COLLECTION_TRANSITION_TIME
    else if stage <= STAGE_MOVE_5 then MOVE_TRANSITION_TIME
    else if stage == STAGE_BATTLE then CH_ATTACK_TIME
    else if stage == STAGE_CH_ATTACK then FINAL_BATTLE_TIME
    else GONG_DURATION
  }

  /** With a clock that runs, a stage ends when its time is over. With one that has been set back the unsigned
      difference wraps, and the stage ends at once unless the clock is off by almost the whole range. */
  lemma ClockSetBack(v: Vars, t: Tick)
    requires IsTimed(v.stage)
    ensures var began := Began(if t.rung != 0 then v.(gong := t.rung) else v);
            StepTick(v, t).stage ==
            if (if began <= t.now then t.now - began > Lasts(v.stage) else began - t.now < TWO_32 - Lasts(v.stage))
            then v.stage + 1 else v.stage
  {
    var began := Began(if t.rung != 0 then v.(gong := t.rung) else v);
    assert Since(t.now, began) == if began <= t.now then t.now - began else TWO_32 + t.now - began;
  }

  /** What each of these times is in seconds: ten minutes, a day, twice four hours, ten hours. */
  lemma TimesExactly(stage: Stage)
    ensures IsTimed(stage) <==> 1 <= stage <= 6 || 9 <= stage <= 11
    ensures IsTimed(stage) ==>
              Lasts(stage) ==
              if stage == 1 then 600 else if stage <= 6 then 86400 else if stage <= 10 then 14400 else 36000
  {
  }

  /** The stages that do not wait for the clock: the first ends when the goods are in, the one before the gong when a
      ring is saved or comes with this call, the one after it at once, with the time of the gong set; the last never
      does. */
  lemma WaitsForOthers(v: Vars, t: Tick)
    requires !IsTimed(v.stage)
    ensures var v' := StepTick(v, t);
            && (v.stage == STAGE_COLLECTION ==> v'.stage == if t.objectivesMet then STAGE_READY else STAGE_COLLECTION)
            && (v.stage == STAGE_GONG_WAIT ==>
                  v'.stage == if v.gong != 0 || t.rung != 0 then STAGE_GONG_RUNG else STAGE_GONG_WAIT)
            && (v.stage == STAGE_GONG_RUNG ==>
                  && v'.stage == STAGE_BATTLE
                  && v'.gong == if t.rung != 0 then t.rung else if v.gong != 0 then v.gong else t.now)
            && (v.stage == STAGE_COMPLETE ==> v'.stage == STAGE_COMPLETE)
    ensures v.stage != STAGE_GONG_RUNG ==> StepTick(v, t).gong == if t.rung != 0 then t.rung else v.gong
    ensures StepTick(v, t).transition == if StepTick(v, t).stage != v.stage then t.now else v.transition
  {
  }

  /** Over any run, with the goods not in yet the first stage is left exactly if they come in, and with no ring saved
      the stage before the gong is left exactly if somebody rings. */
  lemma {:induction false} RunWaits(v: Vars, ticks: seq<Tick>)
    ensures v.stage == STAGE_COLLECTION ==>
              (Run(v, ticks).stage == STAGE_COLLECTION <==> forall t :: t in ticks ==> !t.objectivesMet)
    ensures v.stage == STAGE_GONG_WAIT && v.gong == 0 ==>
              (Run(v, ticks).stage == STAGE_GONG_WAIT <==> forall t :: t in ticks ==> t.rung == 0)
    decreases |ticks|
  {
    if ticks != [] {
      var w := StepTick(v, ticks[0]);
      assert ticks == [ticks[0]] + ticks[1..];
      StageGrows(w, ticks[1..]);
      RunWaits(w, ticks[1..]);
    }
  }

  lemma {:induction false} StageGrows(v: Vars, ticks: seq<Tick>)
    ensures Run(v, ticks).stage >= v.stage
    decreases |ticks|
  {
    if ticks != [] { StageGrows(StepTick(v, ticks[0]), ticks[1..]); }
  }

  // ----- The events of a stage -----

  /** Position of an event in a list, or the length of the list. */
  function Find(s: seq<nat>, e: nat): (i: nat)
    ensures i <= |s| && (i < |s| ==> s[i] == e) && (i == |s| <==> e !in s)
  {
    if s == [] then 0 else if s[0] == e then 0 else 1 + Find(s[1..], e)
  }

  function Erase(s: seq<nat>, i: nat): seq<nat>
    requires i < |s|
  {
    s[..i] + s[i + 1..]
  }

  lemma EraseDistinct(s: seq<nat>, i: nat)
    requires i < |s| && Distinct(s)
    ensures Distinct(Erase(s, i))
    ensures forall e :: e in Erase(s, i) <==> e in s && e != s[i]
  {
    assert s == s[..i] + [s[i]] + s[i + 1..];
  }

  /** Takes what both lists have out of both. */
  method Reconcile(required0: seq<nat>, active0: seq<nat>) returns (required: seq<nat>, active: seq<nat>)
    requires Distinct(required0) && Distinct(active0)
    ensures Distinct(required) && Distinct(active)
    ensures forall e :: e in required <==> e in required0 && e !in active0
    ensures forall e :: e in active <==> e in active0 && e !in required0
  {
    required, active := required0, active0;
    var i := 0;
    ghost var k := 0;
    while i < |required|
      invariant i <= |required| && k <= |required0| && |required| - i == |required0| - k
      invariant required[i..] == required0[k..]
      invariant Distinct(required) && Distinct(active)
      invariant forall e :: e in required[..i] <==> e in required0[..k] && e !in active0
      invariant forall e :: e in active <==> e in active0 && e !in required0[..k]
      decreases |required| - i
    {
      var e := required[i];
      assert e == required[i..][0] == required0[k];
      assert required0[..k + 1] == required0[..k] + [e];
      var at := Find(active, e);
      if at != |active| {
        EraseDistinct(required, i);
        assert Erase(required, i)[..i] == required[..i];
        assert Erase(required, i)[i..] == required[i..][1..];
        required := Erase(required, i);
        EraseDistinct(active, at);
        active := Erase(active, at);
      } else {
        assert required[..i + 1] == required[..i] + [e];
        assert required[i + 1..] == required[i..][1..];
        i := i + 1;
      }
      k := k + 1;
    }
    assert required[..i] == required && required0[..k] == required0;
  }

  /** The events the war effort uses exist. */
  ghost predicate Ready(mgr: GameEventMgr)
    reads mgr
  {
    && mgr.Valid()
    && (forall e :: e in MANAGED ==> Known(mgr.cfg, mgr.Model(), e))
    && Known(mgr.cfg, mgr.Model(), WAR_EFFORT) && Known(mgr.cfg, mgr.Model(), BATTLE_ASHI)
    && Known(mgr.cfg, mgr.Model(), BATTLE_REGAL) && Known(mgr.cfg, mgr.Model(), BATTLE_ZORA)
  }

  predicate SameLengths(a: seq<Event>, b: seq<Event>) {
    |a| == |b| && forall i :: 0 <= i < |a| ==> a[i].length == b[i].length
  }

  method DisableAndStopEvent(mgr: GameEventMgr, id: nat, now: int)
    requires mgr.Valid() && Known(mgr.cfg, mgr.Model(), id)
    modifies mgr
    ensures mgr.Valid() && SameLengths(mgr.events, old(mgr.events))
    ensures mgr.active == old(mgr.active) - {id}
    ensures mgr.events == old(mgr.events)[id := old(mgr.events)[id].(disabled := true)]
  {
    if id in mgr.active { mgr.StopEvent(id, false, now); }
    if !mgr.events[id].disabled { mgr.EnableEvent(id, false, now); }
  }

  method EnableAndStartEvent(mgr: GameEventMgr, id: nat, now: int)
    requires mgr.Valid() && Known(mgr.cfg, mgr.Model(), id)
    modifies mgr
    ensures mgr.Valid() && SameLengths(mgr.events, old(mgr.events))
    ensures mgr.active == old(mgr.active) + {id}
    ensures mgr.events == if id in old(mgr.active) then old(mgr.events)
                          else old(mgr.events)[id := old(mgr.events)[id].(disabled := false)]
  {
    if id !in mgr.active {
      if mgr.events[id].disabled { mgr.EnableEvent(id, true, now); }
      mgr.StartEvent(id, false, now);
    }
  }

  /** Exactly the stage's row is active among the managed events; what already was right, and every
      other event, has not been touched; what was not is now enabled or disabled to match. */
  twostate predicate Reconciled(mgr: GameEventMgr, stage: Stage)
    reads mgr
  {
    && |mgr.events| == |old(mgr.events)|
    && (forall e :: e in MANAGED ==> (e in mgr.active <==> e in Row(stage)))
    && (forall e :: e !in MANAGED ==> (e in mgr.active <==> e in old(mgr.active)))
    && (forall e :: 0 <= e < |mgr.events| ==>
         mgr.events[e] == if e in MANAGED && (e in old(mgr.active)) != (e in Row(stage))
                          then old(mgr.events)[e].(disabled := e !in Row(stage))
                          else old(mgr.events)[e])
  }

  method UpdateStageEvents(mgr: GameEventMgr, stage: Stage, now: int)
    requires Ready(mgr)
    modifies mgr
    ensures Ready(mgr) && Reconciled(mgr, stage)
  {
    RowsAreManaged(stage);
    var required := Row(stage);
    var active := [];
    for n := 0 to |MANAGED|
      invariant Distinct(active)
      invariant forall e :: e in active <==> e in MANAGED[..n] && e in mgr.active
    {
      assert MANAGED[..n + 1] == MANAGED[..n] + [MANAGED[n]];
      if MANAGED[n] in mgr.active { active := active + [MANAGED[n]]; }
    }
    assert MANAGED[..|MANAGED|] == MANAGED;
    required, active := Reconcile(required, active);
    DisableAll(mgr, active, now);
    EnableAll(mgr, required, now);
  }

  method DisableAll(mgr: GameEventMgr, ids: seq<nat>, now: int)
    requires mgr.Valid() && Distinct(ids) && forall e :: e in ids ==> Known(mgr.cfg, mgr.Model(), e)
    modifies mgr
    ensures mgr.Valid() && SameLengths(mgr.events, old(mgr.events))
    ensures forall e :: e in mgr.active <==> e in old(mgr.active) && e !in ids
    ensures forall e :: 0 <= e < |mgr.events| ==>
              mgr.events[e] == if e in ids then old(mgr.events)[e].(disabled := true) else old(mgr.events)[e]
  {
    for n := 0 to |ids|
      invariant mgr.Valid() && SameLengths(mgr.events, old(mgr.events))
      invariant forall e :: e in mgr.active <==> e in old(mgr.active) && e !in ids[..n]
      invariant forall e :: 0 <= e < |mgr.events| ==>
                  mgr.events[e] == if e in ids[..n] then old(mgr.events)[e].(disabled := true) else old(mgr.events)[e]
    {
      assert ids[..n + 1] == ids[..n] + [ids[n]];
      assert Known(mgr.cfg, old(mgr.Model()), ids[n]);
      DisableAndStopEvent(mgr, ids[n], now);
    }
    assert ids[..|ids|] == ids;
  }

  method EnableAll(mgr: GameEventMgr, ids: seq<nat>, now: int)
    requires mgr.Valid() && Distinct(ids) && forall e :: e in ids ==> Known(mgr.cfg, mgr.Model(), e) && e !in mgr.active
    modifies mgr
    ensures mgr.Valid() && SameLengths(mgr.events, old(mgr.events))
    ensures forall e :: e in mgr.active <==> e in old(mgr.active) || e in ids
    ensures forall e :: 0 <= e < |mgr.events| ==>
              mgr.events[e] == if e in ids then old(mgr.events)[e].(disabled := false) else old(mgr.events)[e]
  {
    for n := 0 to |ids|
      invariant mgr.Valid() && SameLengths(mgr.events, old(mgr.events))
      invariant forall e :: e in mgr.active <==> e in old(mgr.active) || e in ids[..n]
      invariant forall e :: 0 <= e < |mgr.events| ==>
                  mgr.events[e] == if e in ids[..n] then old(mgr.events)[e].(disabled := false) else old(mgr.events)[e]
    {
      assert ids[..n + 1] == ids[..n] + [ids[n]];
      assert Known(mgr.cfg, old(mgr.Model()), ids[n]);
      if ids[n] !in mgr.active {
        EnableAndStartEvent(mgr, ids[n], now);
      }
    }
    assert ids[..|ids|] == ids;
  }

  /** The stage whose row is on when a call returns: the row is set before the stage moves, and
      again when the gates open and when the war is over. */
  function ShownStage(before: Stage, after: Stage): Stage {
    if before == STAGE_GONG_RUNG || after == STAGE_COMPLETE then after else before
  }

  /** The battle is shown at once when the gates open, and peace when it is over; all other rows only with the next
      call. */
  lemma ShownAtOnce(v: Vars, t: Tick)
    ensures ShownStage(v.stage, StepTick(v, t).stage) ==
            if v.stage == 8 then 9 else if v.stage == 11 && StepTick(v, t).stage == 12 then 12 else v.stage
  {
  }

  ghost predicate Shows(mgr: GameEventMgr, stage: Stage)
    reads mgr
  {
    ShowsRow(mgr.active, Row(stage))
  }

  ghost predicate ShowsRow(active: set<nat>, row: seq<nat>) {
    forall e :: e in MANAGED ==> (e in active <==> e in row)
  }

  /** Which events that are not managed are active: those before and some more, but for some others. */
  ghost predicate Others(active: set<nat>, before: set<nat>, more: seq<nat>, less: seq<nat>) {
    forall e :: e !in MANAGED ==> (e in active <==> (e in before || e in more) && e !in less)
  }

  /** The battles at the hives whose colossus is flagged. */
  function Flagged(ashi: bool, zora: bool, regal: bool): seq<nat> {
    (if ashi then [BATTLE_ASHI] else []) + (if zora then [BATTLE_ZORA] else []) + (if regal then [BATTLE_REGAL] else [])
  }

  lemma FlaggedExactly(ashi: bool, zora: bool, regal: bool, e: nat)
    ensures e in Flagged(ashi, zora, regal) <==> (ashi && e == 62) || (regal && e == 63) || (zora && e == 64)
  {
  }

  predicate IsBattle(id: nat) { id == BATTLE_ASHI || id == BATTLE_ZORA || id == BATTLE_REGAL }

  lemma BattlesAreOthers(mgr: GameEventMgr, id: nat)
    requires Ready(mgr) && IsBattle(id)
    ensures id !in MANAGED && Known(mgr.cfg, mgr.Model(), id) && id < |mgr.events|
  {
  }

  lemma StoppedAreOthers(mgr: GameEventMgr, id: nat)
    requires Ready(mgr) && id in STOP_EVENTS
    ensures id !in Row(STAGE_COMPLETE) && Known(mgr.cfg, mgr.Model(), id) && id < |mgr.events|
  {
    if id != AQ_GATE { BattlesAreOthers(mgr, id); }
  }

  /** Starts an event that is not one of the managed ones, unless it is on already. */
  method StartOther(mgr: GameEventMgr, id: nat, overwrite: bool, now: int, stage: Stage)
    requires Ready(mgr) && Shows(mgr, stage) && id !in MANAGED && Known(mgr.cfg, mgr.Model(), id)
    modifies mgr
    ensures Ready(mgr) && Shows(mgr, stage) && mgr.active == old(mgr.active) + {id}
    ensures mgr.events == if overwrite && id !in old(mgr.active)
                          then old(mgr.events)[id := Restarted(old(mgr.events)[id], now)] else old(mgr.events)
  {
    if id !in mgr.active { mgr.StartEvent(id, overwrite, now); }
  }

  /** Stops an event that the stage does not need. */
  method StopOther(mgr: GameEventMgr, id: nat, now: int, stage: Stage)
    requires Ready(mgr) && Shows(mgr, stage) && id !in Row(stage) && Known(mgr.cfg, mgr.Model(), id)
    modifies mgr
    ensures Ready(mgr) && Shows(mgr, stage) && mgr.active == old(mgr.active) - {id}
    ensures mgr.events == old(mgr.events)[id := old(mgr.events)[id].(disabled := true)]
  {
    DisableAndStopEvent(mgr, id, now);
  }

  /** Brings the managed events to a stage's row and leaves the others alone. */
  method ShowStage(mgr: GameEventMgr, stage: Stage, now: int)
    requires Ready(mgr)
    modifies mgr
    ensures Ready(mgr) && Shows(mgr, stage) && Others(mgr.active, old(mgr.active), [], [])
  {
    UpdateStageEvents(mgr, stage, now);
  }

  /** From `before` and `was` to `active` and `events`: the given events are active, too; those that were not have
      new times. */
  ghost predicate StartedToo(before: set<nat>, was: seq<Event>, active: set<nat>, events: seq<Event>, ids: seq<nat>,
                             now: int)
  {
    && (forall e :: e in active <==> e in before || e in ids)
    && |events| == |was|
    && (forall e :: 0 <= e < |was| ==> events[e] == if e in ids && e !in before then Restarted(was[e], now) else was[e])
  }

  lemma StartedOneMore(before: set<nat>, was: seq<Event>, active: set<nat>, events: seq<Event>, ids: seq<nat>,
                       now: int, id: nat)
    requires StartedToo(before, was, active, events, ids, now) && id < |was| && id !in ids
    ensures StartedToo(before, was, active + {id},
                       if id in active then events else events[id := Restarted(events[id], now)],
                       ids + [id], now)
  {
  }

  /** The given events are off and disabled, the others as they were. */
  ghost predicate DisabledToo(before: set<nat>, was: seq<Event>, active: set<nat>, events: seq<Event>, ids: seq<nat>) {
    && (forall e :: e in active <==> e in before && e !in ids)
    && |events| == |was|
    && (forall e :: 0 <= e < |was| ==> events[e] == if e in ids then was[e].(disabled := true) else was[e])
  }

  lemma DisabledOneMore(before: set<nat>, was: seq<Event>, active: set<nat>, events: seq<Event>, ids: seq<nat>, id: nat)
    requires DisabledToo(before, was, active, events, ids) && id < |was|
    ensures DisabledToo(before, was, active - {id}, events[id := events[id].(disabled := true)], ids + [id])
  {
  }

  class WarEffortEvent {
    var saved: Vars
    var stage: Stage
    var lastStageTransitionTime: uint32
    var gongRingTime: uint32

    constructor (saved: Vars)
      ensures this.saved == saved
    {
      this.saved := saved;
      stage, lastStageTransitionTime, gongRingTime := saved.stage, saved.transition, saved.gong;
    }

    method UpdateVariables()
      modifies this
      ensures saved == old(saved)
      ensures saved == Vars(stage, lastStageTransitionTime, gongRingTime)
    {
      stage, lastStageTransitionTime, gongRingTime := saved.stage, saved.transition, saved.gong;
    }

    method UpdateStageTransitionTime(now: uint32)
      modifies this
      ensures stage == old(stage) && gongRingTime == old(gongRingTime)
      ensures lastStageTransitionTime == now && saved == old(saved).(transition := now)
    {
      lastStageTransitionTime := now;
      saved := saved.(transition := now);
    }

    method StopMain(mgr: GameEventMgr, now: uint32)
      requires Ready(mgr) && Shows(mgr, STAGE_COMPLETE)
      modifies mgr
      ensures Ready(mgr) && Shows(mgr, STAGE_COMPLETE) && mgr.active == old(mgr.active) - {WAR_EFFORT}
    {
      mgr.StopEvent(WAR_EFFORT, false, now);
    }

    method CompleteWarEffort(mgr: GameEventMgr, now: uint32)
      requires Ready(mgr) && Shows(mgr, STAGE_COMPLETE)
      modifies mgr, this
      ensures Ready(mgr) && Shows(mgr, STAGE_COMPLETE)
      ensures DisabledToo(old(mgr.active), old(mgr.events), mgr.active, mgr.events, STOP_EVENTS)
      ensures saved == old(saved).(stage := STAGE_COMPLETE)
    {
      ghost var before, was := mgr.active, mgr.events;
      for n := 0 to |STOP_EVENTS|
        invariant Ready(mgr) && Shows(mgr, STAGE_COMPLETE) && saved == old(saved)
        invariant DisabledToo(before, was, mgr.active, mgr.events, STOP_EVENTS[..n])
      {
        OneMore(STOP_EVENTS, n);
        StoppedAreOthers(mgr, STOP_EVENTS[n]);
        DisabledOneMore(before, was, mgr.active, mgr.events, STOP_EVENTS[..n], STOP_EVENTS[n]);
        StopOther(mgr, STOP_EVENTS[n], now, STAGE_COMPLETE);
      }
      assert STOP_EVENTS[..|STOP_EVENTS|] == STOP_EVENTS;
      stage := STAGE_COMPLETE;
      saved := saved.(stage := stage);
    }

    method UpdateHiveColossusEvents(mgr: GameEventMgr, ashi: bool, zora: bool, regal: bool, now: uint32, shown: Stage)
      requires Ready(mgr) && Shows(mgr, shown)
      modifies mgr
      ensures Ready(mgr) && Shows(mgr, shown)
      ensures StartedToo(old(mgr.active), old(mgr.events), mgr.active, mgr.events, Flagged(ashi, zora, regal), now)
    {
      StartBattles(mgr, Flagged(ashi, zora, regal), now, shown);
    }

    method StartBattles(mgr: GameEventMgr, battles: seq<nat>, now: uint32, shown: Stage)
      requires Ready(mgr) && Shows(mgr, shown)
      requires Distinct(battles) && forall e :: e in battles ==> IsBattle(e)
      modifies mgr
      ensures Ready(mgr) && Shows(mgr, shown)
      ensures StartedToo(old(mgr.active), old(mgr.events), mgr.active, mgr.events, battles, now)
    {
      for n := 0 to |battles|
        invariant Ready(mgr) && Shows(mgr, shown)
        invariant StartedToo(old(mgr.active), old(mgr.events), mgr.active, mgr.events, battles[..n], now)
      {
        var id := battles[n];
        OneMore(battles, n);
        BattlesAreOthers(mgr, id);
        StartedOneMore(old(mgr.active), old(mgr.events), mgr.active, mgr.events, battles[..n], now, id);
        StartOther(mgr, id, true, now, shown);
      }
      assert battles[..|battles|] == battles;
    }

    /** The stages that only wait: for the goods, for the clock or for the gong. */
    method UpdateWaitingStage(now: uint32, objectivesMet: bool)
      requires saved == Vars(stage, lastStageTransitionTime, gongRingTime)
      requires stage !in {STAGE_GONG_RUNG, STAGE_FINALBATTLE, STAGE_COMPLETE}
      modifies this
      ensures Vars(stage, lastStageTransitionTime, gongRingTime) == Step(old(saved), now, objectivesMet)
      ensures saved.(stage := stage) == Step(old(saved), now, objectivesMet)
    {
      if stage == STAGE_COLLECTION {
        if objectivesMet {
          stage := STAGE_READY;
          UpdateStageTransitionTime(now);
        }
      } else if stage == STAGE_READY {
        if Since(now, lastStageTransitionTime) > COLLECTION_TRANSITION_TIME {
          stage := STAGE_MOVE_1;
          UpdateStageTransitionTime(now);
        }
      } else if STAGE_MOVE_1 <= stage <= STAGE_MOVE_5 {
        if Since(now, lastStageTransitionTime) > MOVE_TRANSITION_TIME {
          stage := stage + 1;
          UpdateStageTransitionTime(now);
        }
      } else if stage == STAGE_GONG_WAIT {
        if gongRingTime != 0 {
          stage := STAGE_GONG_RUNG;
          UpdateStageTransitionTime(now);
        }
      } else if stage == STAGE_BATTLE {
        if Since(now, lastStageTransitionTime) > CH_ATTACK_TIME {
          stage := STAGE_CH_ATTACK;
          UpdateStageTransitionTime(now);
        }
      } else {
        if Since(now, lastStageTransitionTime) > FINAL_BATTLE_TIME {
          stage := STAGE_FINALBATTLE;
          UpdateStageTransitionTime(now);
        }
      }
    }

    /** The gong has been rung: the gates open and the battle begins. */
    method OpenGates(mgr: GameEventMgr, now: uint32)
      requires Ready(mgr) && stage == STAGE_GONG_RUNG
      requires saved == Vars(stage, lastStageTransitionTime, gongRingTime)
      modifies mgr, this
      ensures Ready(mgr) && Shows(mgr, stage)
      ensures saved.(stage := stage) == Step(old(saved), now, false) && stage == STAGE_BATTLE
      ensures Others(mgr.active, old(mgr.active), [], [])
    {
      if gongRingTime == 0 {
        gongRingTime := now;
        saved := saved.(gong := gongRingTime);
      }
      DisableAndStopEvent(mgr, AQ_GATE, now);
      stage := STAGE_BATTLE;
      UpdateStageTransitionTime(now);
      ShowStage(mgr, stage, now);
    }

    /** Ten hours after the gong it is all over. */
    method UpdateFinalBattle(mgr: GameEventMgr, now: uint32)
      requires Ready(mgr) && stage == STAGE_FINALBATTLE && Shows(mgr, stage)
      requires saved == Vars(stage, lastStageTransitionTime, gongRingTime)
      modifies mgr, this
      ensures Ready(mgr) && Shows(mgr, stage)
      ensures saved.(stage := stage) == Step(old(saved), now, false)
      ensures Others(mgr.active, old(mgr.active), [], [])
    {
      if Since(now, gongRingTime) > GONG_DURATION {
        stage := STAGE_COMPLETE;
        UpdateStageTransitionTime(now);
        ShowStage(mgr, stage, now);
      }
    }

    /** What every stage but the last one does when its turn comes. */
    method UpdateStage(mgr: GameEventMgr, now: uint32, objectivesMet: bool)
      requires Ready(mgr) && stage != STAGE_COMPLETE && Shows(mgr, stage)
      requires saved == Vars(stage, lastStageTransitionTime, gongRingTime)
      modifies mgr, this
      ensures Ready(mgr) && Shows(mgr, ShownStage(old(stage), stage))
      ensures saved.(stage := stage) == Step(old(saved), now, objectivesMet)
      ensures Others(mgr.active, old(mgr.active), [], [])
    {
      if stage == STAGE_GONG_RUNG {
        OpenGates(mgr, now);
      } else if stage == STAGE_FINALBATTLE {
        UpdateFinalBattle(mgr, now);
      } else {
        if stage == STAGE_BATTLE { ShowStage(mgr, stage, now); }
        UpdateWaitingStage(now, objectivesMet);
      }
    }

    method Update(mgr: GameEventMgr, now: uint32, objectivesMet: bool, ashi: bool, zora: bool, regal: bool)
      requires Ready(mgr)
      modifies mgr, this
      ensures Ready(mgr)
      ensures saved == Step(old(saved), now, objectivesMet)
      ensures Shows(mgr, ShownStage(old(saved).stage, saved.stage))
      ensures old(saved).stage != STAGE_COMPLETE ==>
                Others(mgr.active, old(mgr.active), [WAR_EFFORT] + Flagged(ashi, zora, regal), [])
      ensures old(saved).stage == STAGE_COMPLETE ==>
                Others(mgr.active, old(mgr.active), [], [WAR_EFFORT] + STOP_EVENTS)
                && forall e :: e in STOP_EVENTS ==> mgr.events[e].disabled
    {
      UpdateVariables();
      ShowStage(mgr, stage, now);
      if stage == STAGE_COMPLETE {
        if WAR_EFFORT in mgr.active { StopMain(mgr, now); }
        CompleteWarEffort(mgr, now);
      } else {
        StartOther(mgr, WAR_EFFORT, false, now, stage);
        UpdateHiveColossusEvents(mgr, ashi, zora, regal, now, stage);
        UpdateStage(mgr, now, objectivesMet);
        saved := saved.(stage := stage);
      }
    }
  }
}
