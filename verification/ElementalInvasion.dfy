/** The elemental invasion: four places with rifts and a boss each. The invasion ends when all bosses are down
    and have been left lying for a while, and comes again after some days. */
module Invasion {

  const STAGE_BOSS := 5
  const STAGE_BOSS_DOWN := 6
  const LOOT_DELAY := 3
  const DAY: int := 24 * 3600

  /** A place: its stage, how long its dead boss still lies there, and which of its events are on. */
  datatype Place = Place(stage: nat, delay: nat, kills: nat, rift: bool, boss: bool) {
    /** The boss is there, or lies there and can be looted. */
    predicate BossDue() { (stage == STAGE_BOSS_DOWN && delay % 256 > 0) || stage == STAGE_BOSS }
    function RiftStarted(): Place { if stage < STAGE_BOSS_DOWN then this.(rift := true) else this }
    function BossStarted(): Place { if BossDue() then this.(boss := true) else this }
    function Stopped(): Place {
      if stage != STAGE_BOSS_DOWN then this
      else if delay % 256 > 0 then this.(rift := false, delay := delay % 256 - 1)
      else this.(rift := false, boss := false)
    }
    function Reset(): Place { this.(stage := 1, delay := LOOT_DELAY, kills := 0) }
    /** A stage that was never saved counts as the first. */
    function Grown(): Place { this.(stage := (if stage == 0 then 1 else stage) + 1, kills := 0) }
    function Begun(): Place { RiftStarted().BossStarted() }
    function Passed(): Place { BossStarted().Stopped() }

    /** A boss lies for a while only when it is down, and is on only when it may be. */
    predicate Sane() {
      && stage <= STAGE_BOSS_DOWN && delay <= LOOT_DELAY && (delay < LOOT_DELAY ==> stage == STAGE_BOSS_DOWN)
      && (boss ==> stage >= STAGE_BOSS)
    }
  }

  datatype State = State(active: bool, timer: int, places: seq<Place>)

  function AllBegun(places: seq<Place>): (r: seq<Place>)
    ensures |r| == |places| && forall i :: 0 <= i < |r| ==> r[i] == places[i].Begun()
  {
    seq(|places|, i requires 0 <= i < |places| => places[i].Begun())
  }

  function AllPassed(places: seq<Place>): (r: seq<Place>)
    ensures |r| == |places| && forall i :: 0 <= i < |r| ==> r[i] == places[i].Passed()
  {
    seq(|places|, i requires 0 <= i < |places| => places[i].Passed())
  }

  function AllReset(places: seq<Place>): (r: seq<Place>)
    ensures |r| == |places| && forall i :: 0 <= i < |r| ==> r[i] == places[i].Reset()
  {
    seq(|places|, i requires 0 <= i < |places| => places[i].Reset())
  }

  predicate NoDelay(places: seq<Place>) { forall i :: 0 <= i < |places| ==> places[i].delay == 0 }

  /** One update of the invasion; `wait` is the rolled time to the next one. */
  function After(s: State, now: int, wait: int): State {
    if !s.active then
      if s.timer < now then State(true, s.timer, AllBegun(s.places)) else s
    else
      var places := AllPassed(s.places);
      if NoDelay(s.places) then State(false, now + wait, AllReset(places)) else s.(places := places)
  }

  class ElementalInvasion {
    var active: bool
    var timer: int
    var places: seq<Place>

    function Value(): State
      reads this
    {
      State(active, timer, places)
    }

    constructor (s: State)
      ensures Value() == s
    {
      active, timer, places := s.active, s.timer, s.places;
    }

    method StartLocalInvasion(i: nat)
      requires i < |places|
      modifies this
      ensures Value() == old(Value()).(places := old(places)[i := old(places)[i].RiftStarted()])
    {
      if places[i].stage < STAGE_BOSS_DOWN { places := places[i := places[i].(rift := true)]; }
    }

    method StartLocalBoss(i: nat)
      requires i < |places|
      modifies this
      ensures Value() == old(Value()).(places := old(places)[i := old(places)[i].BossStarted()])
    {
      var p := places[i];
      if ((p.stage == STAGE_BOSS_DOWN && p.delay % 256 > 0) || p.stage == STAGE_BOSS) && !p.boss {
        places := places[i := p.(boss := true)];
      }
    }

    method StopLocalInvasion(i: nat)
      requires i < |places|
      modifies this
      ensures Value() == old(Value()).(places := old(places)[i := old(places)[i].Stopped()])
    {
      var p, delay := places[i], places[i].delay % 256;
      if p.stage == STAGE_BOSS_DOWN {
        p := p.(rift := false);
        if delay > 0 { p := p.(delay := delay - 1); } else if p.boss { p := p.(boss := false); }
        places := places[i := p];
      }
    }

    method ResetThings()
      modifies this
      ensures Value() == old(Value()).(places := AllReset(old(places)))
    {
      for i := 0 to |places|
        invariant active == old(active) && timer == old(timer) && |places| == |old(places)|
        invariant forall j :: 0 <= j < |places| ==>
                    places[j] == if j < i then old(places)[j].Reset() else old(places)[j]
      {
        places := places[i := places[i].(delay := LOOT_DELAY, kills := 0, stage := 1)];
      }
      assert places == AllReset(old(places));
    }

    method Update(now: int, wait: int)
      modifies this
      ensures Value() == After(old(Value()), now, wait)
    {
      ghost var was := places;
      if !active {
        if timer < now {
          active := true;
          for i := 0 to |places|
            invariant active && timer == old(timer) && |places| == |was|
            invariant forall j :: 0 <= j < |was| ==> places[j] == if j < i then was[j].RiftStarted() else was[j]
          {
            StartLocalInvasion(i);
          }
          for i := 0 to |places|
            invariant active && timer == old(timer) && |places| == |was|
            invariant forall j :: 0 <= j < |was| ==>
                        places[j] == if j < i then was[j].Begun() else was[j].RiftStarted()
          {
            StartLocalBoss(i);
          }
          assert places == AllBegun(was);
        }
      } else {
        var over := NoDelay(places);
        for i := 0 to |places|
          invariant active && timer == old(timer) && |places| == |was|
          invariant forall j :: 0 <= j < |was| ==> places[j] == if j < i then was[j].BossStarted() else was[j]
        {
          StartLocalBoss(i);
        }
        for i := 0 to |places|
          invariant active && timer == old(timer) && |places| == |was|
          invariant forall j :: 0 <= j < |was| ==>
                      places[j] == if j < i then was[j].Passed() else was[j].BossStarted()
        {
          StopLocalInvasion(i);
        }
        assert places == AllPassed(was);
        if over {
          active, timer := false, now + wait;
          ResetThings();
        }
      }
    }
  }

  // ----- What an update does -----

  /** An invasion begins with the first update after its time: with the rift on at every place whose boss is not down,
      and the boss on where he has come or can still be looted. */
  lemma BeginsExactly(s: State, now: int, wait: int, i: nat)
    requires !s.active && i < |s.places|
    ensures var r := After(s, now, wait);
            && r.timer == s.timer && |r.places| == |s.places| && (r.active <==> s.timer < now)
            && var p, q := s.places[i], r.places[i];
               && q.stage == p.stage && q.delay == p.delay && q.kills == p.kills
               && (q.rift <==> p.rift || (r.active && p.stage < 6))
               && (q.boss <==> p.boss || (r.active && (p.stage == 5 || (p.stage == 6 && p.delay % 256 > 0))))
  {
    if s.timer < now { assert AllBegun(s.places)[i] == s.places[i].Begun(); }
  }

  /** In one that goes on, a place whose boss is down has no rift any more, and he lies there for one update less, until
      he is gone; where he has come he is on. When no place had any delay left, the invasion is over, and all is set
      back but what is on. */
  lemma GoesOnExactly(s: State, now: int, wait: int, i: nat)
    requires s.active && i < |s.places|
    ensures var r := After(s, now, wait);
            && |r.places| == |s.places|
            && (!r.active <==> forall k :: 0 <= k < |s.places| ==> s.places[k].delay == 0)
            && r.timer == (if r.active then s.timer else now + wait)
            && var p, q := s.places[i], r.places[i];
               && (q.rift <==> p.rift && p.stage != 6)
               && (q.boss <==> if p.stage == 6 then p.delay % 256 > 0 else p.boss || p.stage == 5)
               && (!r.active ==> q.stage == 1 && q.delay == 3 && q.kills == 0)
               && (r.active ==> q.stage == p.stage && q.kills == p.kills)
               && (r.active ==>
                     q.delay == if p.stage == 6 && p.delay % 256 > 0 then p.delay % 256 - 1 else p.delay)
  {
    var passed := AllPassed(s.places);
    assert passed[i] == s.places[i].Passed();
    if NoDelay(s.places) { assert AllReset(passed)[i] == passed[i].Reset(); }
  }

  // ----- When the end leaves nothing -----

  ghost predicate Quiet(places: seq<Place>) {
    forall i :: 0 <= i < |places| ==> !places[i].rift && !places[i].boss
  }

  /** When an invasion ends, nothing of it is left on exactly if every place's boss is down, or the place has nothing
      on and its boss is not due. */
  lemma EndLeavesNothing(s: State, now: int, wait: int)
    requires s.active && NoDelay(s.places)
    ensures Quiet(After(s, now, wait).places) <==>
            forall i :: 0 <= i < |s.places| ==>
              s.places[i].stage == STAGE_BOSS_DOWN
              || (s.places[i].stage != STAGE_BOSS && !s.places[i].rift && !s.places[i].boss)
  {
    var r := After(s, now, wait).places;
    assert |r| == |s.places|;
    forall i | 0 <= i < |s.places|
      ensures !r[i].rift && !r[i].boss <==>
              s.places[i].stage == STAGE_BOSS_DOWN
              || (s.places[i].stage != STAGE_BOSS && !s.places[i].rift && !s.places[i].boss)
    {
      assert r[i] == s.places[i].Passed().Reset();
    }
  }

  /** On a server that has never saved anything all delays begin at zero: the first invasion is over at its
      second update and leaves the rifts behind. */
  lemma FirstInvasionIsCutShort(places: seq<Place>, now: int, wait: int)
    requires now > 0 && places != [] && forall i :: 0 <= i < |places| ==> places[i].stage == 0 && places[i].delay == 0
    ensures var begun := After(State(false, 0, places), now, wait);
            begun.active && !After(begun, now, wait).active && !Quiet(After(begun, now, wait).places)
  {
    var begun := After(State(false, 0, places), now, wait);
    assert forall i :: 0 <= i < |places| ==> begun.places[i] == places[i].Begun();
    EndLeavesNothing(begun, now, wait);
    assert begun.places[0].rift && begun.places[0].stage == 0;
  }

  // ----- Whole runs -----

  /** What happens: an update, a rift growing as its invaders are killed or with time, the death of a boss, and a
      restart of the server. */
  datatype Op = Tick(now: int, wait: int) | RiftGrows(i: nat) | BossDies(i: nat) | Restart

  function Forgotten(places: seq<Place>): (r: seq<Place>)
    ensures |r| == |places| && forall i :: 0 <= i < |r| ==> r[i] == places[i].(rift := false, boss := false)
  {
    seq(|places|, i requires 0 <= i < |places| => places[i].(rift := false, boss := false))
  }

  /** Stages rise one by one up to the boss's. A restart forgets which events were on; what is saved stays. */
  function Step(s: State, op: Op): State {
    match op
    case Tick(now, wait) => After(s, now, wait)
    case RiftGrows(i) =>
      if i < |s.places| && s.places[i].rift && s.places[i].stage < STAGE_BOSS
      then s.(places := s.places[i := s.places[i].Grown()])
      else s
    case BossDies(i) =>
      if i < |s.places| && s.places[i].boss && s.places[i].stage == STAGE_BOSS
      then s.(places := s.places[i := s.places[i].(stage := STAGE_BOSS_DOWN)]) else s
    case Restart => State(false, s.timer, Forgotten(s.places))
  }

  /** A rift that is on grows by a stage until the boss comes, and starts to count the invaders killed anew. */
  lemma GrowsExactly(s: State, i: nat)
    requires i < |s.places|
    ensures var p, q := s.places[i], Step(s, RiftGrows(i)).places[i];
            q == if !p.rift || p.stage >= 5 then p else p.(stage := if p.stage == 0 then 2 else p.stage + 1, kills := 0)
    ensures forall k :: 0 <= k < |s.places| && k != i ==> Step(s, RiftGrows(i)).places[k] == s.places[k]
  {
  }

  function Run(s: State, ops: seq<Op>): State {
    if ops == [] then s else Step(Run(s, ops[..|ops| - 1]), ops[|ops| - 1])
  }

  /** Every place is sane, and nothing is on between invasions. */
  ghost predicate Sane(s: State) {
    (forall i :: 0 <= i < |s.places| ==> s.places[i].Sane()) && (!s.active ==> Quiet(s.places))
  }

  ghost predicate AllDown(s: State) { forall i :: 0 <= i < |s.places| ==> s.places[i].stage == STAGE_BOSS_DOWN }

  /** In a sane state an invasion that may end has all its bosses down: then its end leaves nothing. */
  lemma NoDelayMeansDown(s: State)
    requires Sane(s) && NoDelay(s.places)
    ensures AllDown(s)
  {
    forall i | 0 <= i < |s.places| ensures s.places[i].stage == STAGE_BOSS_DOWN {
      assert s.places[i].Sane() && s.places[i].delay == 0;
    }
  }

  lemma StepKeepsSane(s: State, op: Op)
    requires Sane(s)
    ensures Sane(Step(s, op))
  {
    if op.Tick? && s.active && NoDelay(s.places) {
      NoDelayMeansDown(s);
      EndLeavesNothing(s, op.now, op.wait);
    }
  }

  /** Whatever happens, in whatever order, places stay sane and nothing is on between invasions. */
  lemma {:induction false} RunStaysSane(s: State, ops: seq<Op>)
    requires Sane(s)
    ensures Sane(Run(s, ops))
    decreases |ops|
  {
    if ops != [] {
      RunStaysSane(s, ops[..|ops| - 1]);
      StepKeepsSane(Run(s, ops[..|ops| - 1]), ops[|ops| - 1]);
    }
  }

  /** In any run an update ends the invasion only when all bosses are down and have been left lying for long enough;
      then nothing is on, everything is set back and the next invasion is two to four days off. */
  lemma EndsOnlyWhenDown(s: State, ops: seq<Op>, op: Op)
    requires Sane(s) && op.Tick? && 2 * DAY <= op.wait <= 4 * DAY
    requires Run(s, ops).active && !Run(s, ops + [op]).active
    ensures AllDown(Run(s, ops)) && NoDelay(Run(s, ops).places)
    ensures var r := Run(s, ops + [op]);
            && Quiet(r.places) && op.now + 2 * DAY <= r.timer <= op.now + 4 * DAY
            && forall i :: 0 <= i < |r.places| ==> r.places[i].stage == 1 && r.places[i].delay == LOOT_DELAY
  {
    assert (ops + [op])[..|ops|] == ops;
    RunStaysSane(s, ops);
    RunStaysSane(s, ops + [op]);
    NoDelayMeansDown(Run(s, ops));
  }

  /** Between invasions nothing happens, restarts or not, until an update comes after the time set. */
  lemma {:induction false} PauseLasts(s: State, ops: seq<Op>)
    requires Sane(s) && !s.active && forall k :: 0 <= k < |ops| && ops[k].Tick? ==> ops[k].now <= s.timer
    ensures var r := Run(s, ops); !r.active && r.timer == s.timer && Quiet(r.places)
    decreases |ops|
  {
    if ops != [] { PauseLasts(s, ops[..|ops| - 1]); }
  }

  /** So between the end of an invasion and the time the next one is on, an update comes more than two days later. */
  lemma InvasionsAreApart(s: State, ops: seq<Op>, op: Op, more: seq<Op>)
    requires Sane(s) && op.Tick? && 2 * DAY <= op.wait <= 4 * DAY
    requires Run(s, ops).active && !Run(s, ops + [op]).active
    requires Run(Run(s, ops + [op]), more).active
    ensures exists k :: 0 <= k < |more| && more[k].Tick? && more[k].now > op.now + 2 * DAY
  {
    EndsOnlyWhenDown(s, ops, op);
    RunStaysSane(s, ops + [op]);
    if forall k :: 0 <= k < |more| && more[k].Tick? ==> more[k].now <= op.now + 2 * DAY {
      PauseLasts(Run(s, ops + [op]), more);
    }
  }

  /** Updates that find the invasion going on. */
  function Working(s: State, ops: seq<Op>): nat {
    if ops == [] then 0
    else Working(s, ops[..|ops| - 1]) + if WorksLast(s, ops) then 1 else 0
  }

  predicate WorksLast(s: State, ops: seq<Op>)
    requires ops != []
  {
    ops[|ops| - 1].Tick? && Run(s, ops[..|ops| - 1]).active
  }

  /** An update has ended an invasion. */
  predicate Over(s: State, ops: seq<Op>) {
    ops != [] && (Over(s, ops[..|ops| - 1]) || (WorksLast(s, ops) && NoDelay(Run(s, ops[..|ops| - 1]).places)))
  }

  function Less(delay: nat, n: nat): nat { if delay >= n then delay - n else 0 }

  /** With all bosses down the delays run out one by one with the updates that find the invasion going on, restarts or
      not; after each of these a dead boss lies there as long as its delay had not run out before. */
  lemma {:induction false} DelaysRunOut(s: State, ops: seq<Op>, j: nat)
    requires Sane(s) && AllDown(s) && j < |s.places| && !Over(s, ops)
    ensures var r := Run(s, ops);
            && AllDown(r) && |r.places| == |s.places| && r.places[j].delay == Less(s.places[j].delay, Working(s, ops))
            && (ops != [] && WorksLast(s, ops) ==>
                  !r.places[j].rift && (r.places[j].boss <==> s.places[j].delay >= Working(s, ops)))
    decreases |ops|
  {
    if ops != [] {
      var before := ops[..|ops| - 1];
      DelaysRunOut(s, before, j);
      RunStaysSane(s, before);
      DownStaysDown(Run(s, before), ops[|ops| - 1], j);
    }
  }

  lemma DownStaysDown(s: State, op: Op, j: nat)
    requires Sane(s) && AllDown(s) && !(op.Tick? && s.active && NoDelay(s.places)) && j < |s.places|
    ensures AllDown(Step(s, op)) && |Step(s, op).places| == |s.places|
    ensures var p, q := s.places[j], Step(s, op).places[j];
            if op.Tick? && s.active then q.delay == Less(p.delay, 1) && !q.rift && (q.boss <==> p.delay > 0)
            else q.delay == p.delay
  {
    forall i | 0 <= i < |s.places| ensures Step(s, op).places[i].stage == STAGE_BOSS_DOWN {
      assert s.places[i].stage == STAGE_BOSS_DOWN;
    }
    assert s.places[j].Sane();
  }

  /** From the fall of the last boss on, the invasion lasts exactly one such update more than the longest delay -
      whatever the clock, the dice, the players and restarts do in between. */
  lemma {:induction false} EndsInTime(s: State, ops: seq<Op>, longest: nat)
    requires Sane(s) && AllDown(s) && forall j :: 0 <= j < |s.places| ==> s.places[j].delay <= longest
    requires exists j :: 0 <= j < |s.places| && s.places[j].delay == longest
    ensures Over(s, ops) <==> Working(s, ops) > longest
    decreases |ops|
  {
    if ops != [] {
      var before := ops[..|ops| - 1];
      EndsInTime(s, before, longest);
      if !Over(s, before) {
        forall j | 0 <= j < |s.places|
          ensures |Run(s, before).places| == |s.places|
          ensures Run(s, before).places[j].delay == Less(s.places[j].delay, Working(s, before))
        {
          DelaysRunOut(s, before, j);
        }
      }
    }
  }
}
