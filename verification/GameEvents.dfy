/** The game event scheduler: which events are on at a given time, when the next look is due,
    and how the spawn grid and the quest flags follow the set of active events. */
module GameEvents {

  const MINUTE := 60
  const DAY := 86400
  const MAX_CHECK_DELAY := 86400
  const TWO_32 := 0x1_0000_0000

  type uint32 = x: int | 0 <= x < 0x1_0000_0000

  datatype Event = Event(start: int, end: int, occurence: uint32, length: uint32,
                         hardcoded: bool, disabled: bool, leapDays: nat)

  // ----- The clock arithmetic of one event -----

  /** Remainder of a division that truncates towards zero. */
  function TruncMod(x: int, m: int): int
    requires m > 0
  {
    if x >= 0 then x % m else -((-x) % m)
  }

  /** Seconds between two occurences and seconds one lasts, in 32-bit unsigned arithmetic. */
  function Period(e: Event): uint32 { (e.occurence * MINUTE) % TWO_32 }

  function Window(e: Event): uint32 { (e.length * MINUTE) % TWO_32 }

  predicate IsValid(e: Event) { e.length > 0 }

  /** The data under which no division by zero can happen, now or after an overwrite, and the
      length of a valid event is not lost in the wrap-around of its seconds. Loading counts leap days
      only for valid events. */
  predicate WellFormed(e: Event) {
    && (IsValid(e) || e.start <= e.end ==> Period(e) > 0)
    && (IsValid(e) ==> Window(e) > 0)
    && (!IsValid(e) ==> e.leapDays == 0)
  }

  function Elapsed(e: Event, t: int): int { t - e.start - e.leapDays * DAY }

  function Phase(e: Event, t: int): int
    requires Period(e) > 0
  {
    TruncMod(Elapsed(e, t), Period(e))
  }

  predicate CheckOne(e: Event, t: int)
    requires WellFormed(e)
  {
    e.start <= t && t < e.end && Phase(e, t) < Window(e)
  }

  function NextCheck(e: Event, t: int): uint32
    requires WellFormed(e)
  {
    if t > e.end then MAX_CHECK_DELAY
    else if e.start > t then (e.start - t) % TWO_32
    else
      var delay := (if Phase(e, t) < Window(e) then Window(e) - Phase(e, t)
                    else Period(e) - Phase(e, t)) % TWO_32;
      if e.end < t + delay then (e.end - t) % TWO_32 else delay
  }

  /** When the k-th window after the leap days begins. */
  function Begins(e: Event, k: nat): int { e.start + e.leapDays * 86400 + k * Period(e) }

  /** A valid event is on exactly between its start and its end: until its leap days are over, and then in each of its
      windows, which follow each other one period apart. */
  lemma OnExactly(e: Event, t: int)
    requires WellFormed(e) && IsValid(e)
    ensures CheckOne(e, t) <==>
            e.start <= t < e.end && (t < Begins(e, 0) || exists k: nat :: Begins(e, k) <= t < Begins(e, k) + Window(e))
    ensures Period(e) == (e.occurence * 60) % 0x1_0000_0000 && Window(e) == (e.length * 60) % 0x1_0000_0000
  {
    var x, p, w := Elapsed(e, t), Period(e), Window(e);
    assert x == t - Begins(e, 0);
    if x >= 0 {
      FirstWindow(x, p);
      assert Begins(e, x / p) + x % p == t;
      if k: nat :| Begins(e, k) <= t < Begins(e, k) + w { WindowOf(x, p, w, k); }
    }
  }

  lemma FirstWindow(x: nat, p: int)
    requires p > 0
    ensures x / p >= 0 && (x / p) * p + x % p == x && 0 <= x % p
  {
  }

  lemma WindowOf(x: int, p: int, w: int, k: nat)
    requires p > 0 && k * p <= x < k * p + w
    ensures x % p < w
  {
    var d := x - k * p;
    if d < p { ModUnique(x, p, k, d); }
  }

  lemma ModUnique(y: int, p: int, q: int, r: int)
    requires p > 0 && 0 <= r < p && y == p * q + r
    ensures y % p == r
  {
    var k := y / p - q;
    assert p * k == p * (y / p) - p * q;
    if k >= 1 { MulAtLeast(p, k); } else if k <= -1 { MulAtLeast(p, -k); }
  }

  lemma MulAtLeast(p: int, k: int)
    requires p > 0 && k >= 1
    ensures p * k >= p && p * -k <= -p
  {
    assert p * (k - 1) >= 0;
  }

  lemma ModAdd(x: int, d: int, p: int)
    requires p > 0 && 0 <= x % p + d < p
    ensures (x + d) % p == x % p + d
  {
    ModUnique(x + d, p, x / p, x % p + d);
  }

  lemma ModAtMost(x: nat, p: int)
    requires p > 0
    ensures x % p <= x
  {
    if x < p { ModUnique(x, p, 0, x); }
  }

  /** Inside the window, the next w - (x mod p) seconds stay inside it. */
  lemma WindowHolds(x: int, d: nat, p: int, w: nat)
    requires p > 0 && TruncMod(x, p) + d < w
    ensures TruncMod(x + d, p) < w
  {
    if x >= 0 {
      if x % p + d < p { ModAdd(x, d, p); }
    } else if x + d >= 0 {
      ModAtMost(x + d, p);
      ModAtMost(-x, p);
    } else if w == 0 {
      ModAdd(-x, 0 - d, p);
    }
  }

  /** Outside the window nothing starts before the period is over. */
  lemma WindowStaysShut(x: int, d: nat, p: int, w: nat)
    requires p > 0 && w <= TruncMod(x, p) && TruncMod(x, p) + d < p
    requires w > 0 || x >= 0
    ensures w <= TruncMod(x + d, p)
  {
    ModAdd(x, d, p);
  }

  /** While an event may occur, its phase does not cross the window's edge before the sleep is over. */
  lemma PhaseSafe(e: Event, t: int, d: nat)
    requires WellFormed(e) && Period(e) > 0
    requires Window(e) > 0 || Elapsed(e, t) >= 0
    requires d < if Phase(e, t) < Window(e) then Window(e) - Phase(e, t) else Period(e) - Phase(e, t)
    ensures (Phase(e, t + d) < Window(e)) == (Phase(e, t) < Window(e))
  {
    assert Elapsed(e, t + d) == Elapsed(e, t) + d;
    if Phase(e, t) < Window(e) {
      WindowHolds(Elapsed(e, t), d, Period(e), Window(e));
    } else {
      WindowStaysShut(Elapsed(e, t), d, Period(e), Window(e));
    }
  }

  /** What is left of the current window, or of the current pause. */
  function Rest(e: Event, t: int): (rest: int)
    requires WellFormed(e) && Period(e) > 0
    ensures rest > 0
  {
    if Phase(e, t) < Window(e) then Window(e) - Phase(e, t) else Period(e) - Phase(e, t)
  }

  lemma NextCheckAtMost(e: Event, t: int)
    requires WellFormed(e) && e.start <= t <= e.end
    ensures NextCheck(e, t) <= Rest(e, t) && t + NextCheck(e, t) <= e.end
  {
    WrapAtMost(Rest(e, t));
    WrapAtMost(e.end - t);
  }

  /** Sleeping for NextCheck seconds never steps over a change of CheckOne. */
  lemma NextCheckSafe(e: Event, t: int, u: int)
    requires WellFormed(e) && t <= u < t + NextCheck(e, t)
    ensures CheckOne(e, u) == CheckOne(e, t)
  {
    if e.start <= t <= e.end {
      NextCheckAtMost(e, t);
      PhaseSafe(e, t, u - t);
    } else if t < e.start {
      WrapAtMost(e.start - t);
    }
  }

  lemma WrapAtMost(x: nat)
    ensures x % TWO_32 <= x
  {
    ModAtMost(x, TWO_32);
  }

  lemma WrapExact(x: nat)
    requires x < TWO_32
    ensures x % TWO_32 == x
  {
  }

  /** From anywhere in a period, the flip is one window-rest or one period-rest away. */
  lemma PhaseFlips(x: nat, p: int, w: nat)
    requires p > w
    ensures x % p < w ==> TruncMod(x + (w - x % p), p) == w
    ensures TruncMod(x + (p - x % p), p) == 0
  {
    if x % p < w { ModAdd(x, w - x % p, p); }
    assert x + (p - x % p) == p * (x / p + 1);
    ModUnique(x + (p - x % p), p, x / p + 1, 0);
  }

  /** Before the leap days are over the phase is not positive: the event is in its window. */
  lemma PhaseBeforeLeapDays(x: int, p: int)
    requires p > 0 && x < 0
    ensures -p < TruncMod(x, p) <= 0 && x <= TruncMod(x, p)
    ensures x > -p <==> TruncMod(x, p) == x
  {
    ModAtMost(-x, p);
    if x > -p { ModUnique(-x, p, 0, -x); }
  }

  /** What is left of a window that began before the leap days were over ends at a flip exactly when it began
      less than a period before them. */
  lemma FlipsAfterLeapDays(x: int, p: int, w: int)
    requires 0 < w < p && x < 0
    ensures TruncMod(x + (w - TruncMod(x, p)), p) < w <==> x <= -p
  {
    PhaseBeforeLeapDays(x, p);
    if x > -p {
      ModUnique(w, p, 0, w);
    } else {
      var k := (-x) / p;
      assert k >= 1 && -x == p * k + (-x) % p;
      MulAtLeast(p, k);
      assert x + (w - TruncMod(x, p)) == w - p * k < 0;
      PhaseBeforeLeapDays(w - p * k, p);
    }
  }

  /** When the rest of the window or the pause is over, the event flips - unless its windows leave no pause, or
      the leap days lie more than a period ahead. */
  lemma RestFlips(e: Event, t: int)
    requires WellFormed(e) && IsValid(e)
    ensures (Phase(e, t + Rest(e, t)) < Window(e)) != (Phase(e, t) < Window(e)) <==>
            Window(e) < Period(e) && Elapsed(e, t) + Period(e) > 0
  {
    var x, p, w := Elapsed(e, t), Period(e), Window(e);
    assert Elapsed(e, t + Rest(e, t)) == x + Rest(e, t);
    if w < p {
      if x >= 0 { PhaseFlips(x, p, w); } else { FlipsAfterLeapDays(x, p, w); }
    }
  }

  /** A rest too long for 32 bits is cut: the sleep ends within the same window. */
  lemma CutRestStays(e: Event, t: int)
    requires WellFormed(e) && IsValid(e) && Rest(e, t) >= TWO_32
    ensures Phase(e, t) < Window(e) && Phase(e, t + Rest(e, t) % TWO_32) < Window(e)
  {
    ModUnique(Rest(e, t), TWO_32, 1, Rest(e, t) - TWO_32);
    PhaseSafe(e, t, Rest(e, t) - TWO_32);
  }

  /** The sleep is not shorter than needed either: it lasts to the start, to the end, or to a flip. The last fails
      in exactly these cases: windows without a pause, leap days more than a period ahead, a rest over 32 bits. */
  lemma NextCheckTight(e: Event, t: int)
    requires WellFormed(e) && IsValid(e)
    ensures t <= e.end && t < e.start < t + TWO_32 ==> t + NextCheck(e, t) == e.start
    ensures e.start <= t <= e.end ==> t + NextCheck(e, t) <= e.end
    ensures e.start <= t && t + NextCheck(e, t) < e.end ==>
              (CheckOne(e, t + NextCheck(e, t)) != CheckOne(e, t) <==>
               Window(e) < Period(e) && Elapsed(e, t) + Period(e) > 0 && Rest(e, t) < TWO_32)
  {
    if t <= e.end && t < e.start < t + TWO_32 {
      WrapExact(e.start - t);
    } else if e.start <= t <= e.end {
      NextCheckAtMost(e, t);
      if t + NextCheck(e, t) < e.end { SleepFlips(e, t); }
    }
  }

  lemma SleepFlips(e: Event, t: int)
    requires WellFormed(e) && IsValid(e) && e.start <= t && t + NextCheck(e, t) < e.end
    ensures CheckOne(e, t + NextCheck(e, t)) != CheckOne(e, t) <==>
            Window(e) < Period(e) && Elapsed(e, t) + Period(e) > 0 && Rest(e, t) < TWO_32
  {
    NextCheckIsRest(e, t);
    if Rest(e, t) < TWO_32 {
      WrapExact(Rest(e, t));
      RestFlips(e, t);
    } else {
      CutRestStays(e, t);
    }
  }

  lemma NextCheckIsRest(e: Event, t: int)
    requires WellFormed(e) && e.start <= t && t + NextCheck(e, t) < e.end
    ensures NextCheck(e, t) == Rest(e, t) % TWO_32
  {
    var delay := Rest(e, t) % TWO_32;
    if e.end < t + delay { WrapExact(e.end - t); }
  }

  // ----- Spawn lists and quest lists -----

  /** One kind of spawn: a list per signed event id, the guids that have data, those in a pool. */
  datatype Spawns = Spawns(lists: seq<seq<nat>>, known: set<nat>, pooled: set<nat>)

  datatype Config = Config(size: nat, creatures: Spawns, gameobjects: Spawns,
                           quests: seq<seq<nat>>, worldEvents: set<nat>)

  datatype State = State(events: seq<Event>, active: set<nat>,
                         creatures: set<nat>, gameobjects: set<nat>, questsOn: set<nat>)

  predicate ValidConfig(cfg: Config) {
    && 1 <= cfg.size <= 32768
    && |cfg.creatures.lists| == |cfg.gameobjects.lists| == 2 * cfg.size - 1
    && |cfg.quests| == cfg.size
  }

  predicate ValidState(cfg: Config, s: State) {
    && ValidConfig(cfg)
    && |s.events| == cfg.size && !IsValid(s.events[0])
    && forall i :: 0 <= i < |s.events| ==> WellFormed(s.events[i])
  }

  /** Position of the list of a signed event id. */
  function ListIndex(size: nat, id: int): int { size + id - 1 }

  /** The guids of a list that a (de)spawn touches: they have data, and pool members of a
      negative id are left to the pool manager. */
  function Touched(sp: Spawns, list: seq<nat>, negative: bool): set<nat> {
    set g | g in list && g in sp.known && !(negative && g in sp.pooled)
  }

  function TouchedBy(cfg: Config, sp: Spawns, id: int): set<nat> {
    var i := ListIndex(cfg.size, id);
    if 0 <= i < |sp.lists| then Touched(sp, sp.lists[i], id < 0) else {}
  }

  function Spawn(cfg: Config, s: State, id: int): State {
    s.(creatures := s.creatures + TouchedBy(cfg, cfg.creatures, id),
       gameobjects := s.gameobjects + TouchedBy(cfg, cfg.gameobjects, id))
  }

  function Unspawn(cfg: Config, s: State, id: int): State {
    s.(creatures := s.creatures - TouchedBy(cfg, cfg.creatures, id),
       gameobjects := s.gameobjects - TouchedBy(cfg, cfg.gameobjects, id))
  }

  function Elements(list: seq<nat>): set<nat> { set q | q in list }

  // ----- Starting and stopping events -----

  predicate Known(cfg: Config, s: State, id: nat) {
    id < |s.events| && IsValid(s.events[id])
  }

  function Apply(cfg: Config, s: State, id: nat): State
    requires ValidState(cfg, s) && id < cfg.size
  {
    var on := Unspawn(cfg, Spawn(cfg, s.(active := s.active + {id}), id), 0 - id);
    on.(questsOn := on.questsOn + Elements(cfg.quests[id]))
  }

  function UnApply(cfg: Config, s: State, id: nat): State
    requires ValidState(cfg, s) && id < cfg.size
  {
    var off := Spawn(cfg, Unspawn(cfg, s.(active := s.active - {id}), id), 0 - id);
    off.(questsOn := off.questsOn - Elements(cfg.quests[id]))
  }

  /** New start of an overwritten event; an end not after it becomes start plus `length` seconds. */
  function Restarted(e: Event, start: int): Event {
    e.(start := start, end := if e.end <= start then start + e.length else e.end)
  }

  /** An event started with new times has its first window for as long as the end lets it: a past end is put
      only `length` seconds, not minutes, behind the start. */
  lemma RestartedIsOn(e: Event, now: int, u: int)
    requires WellFormed(e) && IsValid(e) && now <= u < now + Window(e)
    ensures CheckOne(Restarted(e, now), u) <==> u < if e.end <= now then now + e.length else e.end
  {
    var r := Restarted(e, now);
    var x := Elapsed(r, u);
    assert x == u - now - e.leapDays * DAY;
    if x < 0 { PhaseBeforeLeapDays(x, Period(r)); } else { ModAtMost(x, Period(r)); }
  }

  /** So it runs for its whole window exactly when its old end leaves room for it; after a past end it never
      does, unless its minutes wrap around. */
  lemma RestartedRunsOut(e: Event, now: int)
    requires WellFormed(e) && IsValid(e)
    ensures (forall u :: now <= u < now + Window(e) ==> CheckOne(Restarted(e, now), u)) <==>
            if e.end <= now then Window(e) <= e.length else now + Window(e) <= e.end
    ensures e.length * MINUTE < TWO_32 ==> e.length < Window(e)
  {
    var end := if e.end <= now then now + e.length else e.end;
    forall u | now <= u < now + Window(e) ensures CheckOne(Restarted(e, now), u) <==> u < end {
      RestartedIsOn(e, now, u);
    }
    if end < now + Window(e) { assert end >= now && !CheckOne(Restarted(e, now), end); }
  }

  /** An event stopped with new times is off by them, unless leap days or windows without a pause keep it on;
      then the next update starts it again. */
  lemma StoppedIsOff(e: Event, now: int)
    requires WellFormed(e) && IsValid(e)
    ensures var stopped := Restarted(e, now - Window(e));
            CheckOne(stopped, now) <==> now < stopped.end && (Window(e) >= Period(e) || e.leapDays > 0)
  {
    var r := Restarted(e, now - Window(e));
    var x := Elapsed(r, now);
    assert x == Window(e) - e.leapDays * DAY;
    if x < 0 { PhaseBeforeLeapDays(x, Period(r)); } else { ModAtMost(x, Period(r)); }
    if e.leapDays == 0 && Window(e) < Period(e) { ModUnique(x, Period(r), 0, x); }
  }

  function Start(cfg: Config, s: State, id: nat, overwrite: bool, now: int): State
    requires ValidState(cfg, s)
  {
    if !Known(cfg, s, id) then s
    else
      var on := Apply(cfg, s, id);
      if overwrite then on.(events := on.events[id := Restarted(on.events[id], now)]) else on
  }

  function Stop(cfg: Config, s: State, id: nat, overwrite: bool, now: int): State
    requires ValidState(cfg, s)
  {
    if !Known(cfg, s, id) then s
    else
      var off := UnApply(cfg, s, id);
      if overwrite
      then off.(events := off.events[id := Restarted(off.events[id], now - (off.events[id].length * MINUTE) % TWO_32)])
      else off
  }

  /** Exactly an event that exists and has a length is started and stopped. With new times it begins now, or when its
      one window would be over now; an end not behind that is put as many seconds behind it as it has minutes. */
  lemma StartStopExactly(cfg: Config, s: State, id: nat, overwrite: bool, now: int)
    requires ValidState(cfg, s)
    ensures var there := id < |s.events| && s.events[id].length > 0;
            var on, off := Start(cfg, s, id, overwrite, now), Stop(cfg, s, id, overwrite, now);
            && on.active == (if there then s.active + {id} else s.active)
            && off.active == (if there then s.active - {id} else s.active)
            && (!there || !overwrite ==> on.events == s.events && off.events == s.events)
            && (there && overwrite ==>
                  && NewTimes(s.events, id, on.events, now)
                  && NewTimes(s.events, id, off.events, now - (s.events[id].length * 60) % 0x1_0000_0000))
            && (!there ==> on == s == off)
  {
  }

  /** Only the event has changed: it has a new start, and an end that is behind it. */
  predicate NewTimes(events: seq<Event>, id: nat, after: seq<Event>, start: int) {
    && |after| == |events| && id < |events|
    && (forall k :: 0 <= k < |events| && k != id ==> after[k] == events[k])
    && var e := events[id];
       after[id] == Event(start, if e.end <= start then start + e.length else e.end, e.occurence, e.length,
                          e.hardcoded, e.disabled, e.leapDays)
  }

  function Enable(cfg: Config, s: State, id: nat, enable: bool, now: int): State
    requires ValidState(cfg, s)
  {
    if !Known(cfg, s, id) || s.events[id].disabled == !enable then s
    else
      var flagged := s.(events := s.events[id := s.events[id].(disabled := !enable)]);
      if id !in s.active || id in cfg.worldEvents then flagged
      else Stop(cfg, flagged, id, true, now)
  }

  /** Only the flag of an event that exists and has a length changes; when it is active, and no hardcoded one, it is
      stopped with new times. */
  lemma EnableExactly(cfg: Config, s: State, id: nat, enable: bool, now: int)
    requires ValidState(cfg, s)
    ensures var r := Enable(cfg, s, id, enable, now);
            if id >= |s.events| || s.events[id].length == 0 || s.events[id].disabled == !enable then r == s
            else
              && r.events[id].disabled == !enable
              && if id in s.active && id !in cfg.worldEvents then
                   r.active == s.active - {id}
                   && NewTimes(s.events[id := s.events[id].(disabled := !enable)], id, r.events,
                               now - (s.events[id].length * 60) % 0x1_0000_0000)
                 else
                   r == s.(events := r.events) && r.events == s.events[id := s.events[id].(disabled := !enable)]
  {
  }

  /** What a hardcoded event may ask of the scheduler while it updates itself. */
  datatype Command = StartIt(id: nat, overwrite: bool) | StopIt(id: nat, overwrite: bool) | EnableIt(id: nat, on: bool)

  function Execute(cfg: Config, s: State, c: Command, now: int): State
    requires ValidState(cfg, s)
  {
    match c
    case StartIt(id, overwrite) => Start(cfg, s, id, overwrite, now)
    case StopIt(id, overwrite) => Stop(cfg, s, id, overwrite, now)
    case EnableIt(id, on) => Enable(cfg, s, id, on, now)
  }

  function ExecuteAll(cfg: Config, s: State, cs: seq<Command>, now: int): (r: State)
    requires ValidState(cfg, s)
    ensures ValidState(cfg, r)
    decreases |cs|
  {
    if cs == [] then s else ExecuteAll(cfg, Execute(cfg, s, cs[0], now), cs[1..], now)
  }

  /** Commands are carried out in order, all of them. */
  lemma {:induction false} ExecutedInOrder(cfg: Config, s: State, cs: seq<Command>, c: Command, now: int)
    requires ValidState(cfg, s)
    ensures ExecuteAll(cfg, s, cs + [c], now) == Execute(cfg, ExecuteAll(cfg, s, cs, now), c, now)
    decreases |cs|
  {
    if cs == [] {
      assert [] + [c] == [c] && [c][1..] == [];
    } else {
      ExecutedInOrder(cfg, Execute(cfg, s, cs[0], now), cs[1..], c, now);
      assert (cs + [c])[1..] == cs[1..] + [c];
    }
  }

  // ----- The update -----

  predicate Scheduled(events: seq<Event>, i: nat) {
    i < |events| && !events[i].hardcoded && !events[i].disabled
  }

  /** One turn of the update loop. */
  function Visit(cfg: Config, s: State, i: nat, now: int, init: bool): State
    requires ValidState(cfg, s) && i < cfg.size
  {
    if !Scheduled(s.events, i) then s
    else if CheckOne(s.events[i], now) then
      if i in s.active then s else Start(cfg, s, i, false, now)
    else if i in s.active then Stop(cfg, s, i, false, now)
    else if init then s else Spawn(cfg, s, 0 - i)
  }

  function VisitAll(cfg: Config, s: State, i: nat, now: int, init: bool): (r: State)
    requires ValidState(cfg, s) && i <= cfg.size
    ensures ValidState(cfg, r) && r.events == s.events
    decreases cfg.size - i
  {
    if i == cfg.size then s else VisitAll(cfg, Visit(cfg, s, i, now, init), i + 1, now, init)
  }

  function Min(a: int, b: int): int { if b < a then b else a }

  /** Smallest sleep any scheduled event from i on asks for, and not more than `best`. */
  function NextDelay(events: seq<Event>, i: nat, now: int, best: nat): nat
    requires i <= |events| && forall k :: 0 <= k < |events| ==> WellFormed(events[k])
    decreases |events| - i
  {
    if i == |events| then best
    else NextDelay(events, i + 1, now, if Scheduled(events, i) then Min(best, NextCheck(events[i], now)) else best)
  }

  datatype HardcodedStep = HardcodedStep(commands: seq<Command>, delay: nat)

  function ExecuteSteps(cfg: Config, s: State, steps: seq<HardcodedStep>, now: int): (r: State)
    requires ValidState(cfg, s)
    ensures ValidState(cfg, r)
    decreases |steps|
  {
    if steps == [] then s else ExecuteSteps(cfg, ExecuteAll(cfg, s, steps[0].commands, now), steps[1..], now)
  }

  function StepsDelay(steps: seq<HardcodedStep>, best: nat): nat {
    if steps == [] then best else StepsDelay(steps[1..], Min(best, steps[0].delay))
  }

  function Update(cfg: Config, s: State, steps: seq<HardcodedStep>, now: int, init: bool): (r: State)
    requires ValidState(cfg, s)
    ensures ValidState(cfg, r)
  {
    VisitAll(cfg, ExecuteSteps(cfg, s, steps, now), 1, now, init)
  }

  function UpdateDelay(cfg: Config, s: State, steps: seq<HardcodedStep>, now: int): nat
    requires ValidState(cfg, s)
  {
    NextDelay(ExecuteSteps(cfg, s, steps, now).events, 1, now, StepsDelay(steps, MAX_CHECK_DELAY))
  }

  // ----- The update leaves exactly the due events active -----

  lemma VisitAllFrame(cfg: Config, s: State, i: nat, now: int, init: bool, k: nat)
    requires ValidState(cfg, s) && i <= cfg.size && k < i
    ensures k in VisitAll(cfg, s, i, now, init).active <==> k in s.active
    decreases cfg.size - i
  {
    if i < cfg.size { VisitAllFrame(cfg, Visit(cfg, s, i, now, init), i + 1, now, init, k); }
  }

  lemma {:induction false} VisitAllSettles(cfg: Config, s: State, i: nat, now: int, init: bool, k: nat)
    requires ValidState(cfg, s) && i <= k < cfg.size
    requires Scheduled(s.events, k) && IsValid(s.events[k])
    ensures k in VisitAll(cfg, s, i, now, init).active <==> CheckOne(s.events[k], now)
    decreases cfg.size - i
  {
    var v := Visit(cfg, s, i, now, init);
    if k == i {
      VisitAllFrame(cfg, v, i + 1, now, init, k);
    } else {
      VisitAllSettles(cfg, v, i + 1, now, init, k);
    }
  }

  lemma {:induction false} StepsInOrder(cfg: Config, s: State, steps: seq<HardcodedStep>, step: HardcodedStep, now: int)
    requires ValidState(cfg, s)
    ensures ExecuteSteps(cfg, s, steps + [step], now)
            == ExecuteAll(cfg, ExecuteSteps(cfg, s, steps, now), step.commands, now)
    decreases |steps|
  {
    if steps == [] {
      assert [] + [step] == [step] && [step][1..] == [];
    } else {
      StepsInOrder(cfg, ExecuteAll(cfg, s, steps[0].commands, now), steps[1..], step, now);
      assert (steps + [step])[1..] == steps[1..] + [step];
    }
  }

  /** Hardcoded events and disabled ones are not touched by the loop. */
  lemma {:induction false} VisitAllSpares(cfg: Config, s: State, i: nat, now: int, init: bool, k: nat)
    requires ValidState(cfg, s) && i <= cfg.size && k < cfg.size && (s.events[k].hardcoded || s.events[k].disabled)
    ensures k in VisitAll(cfg, s, i, now, init).active <==> k in s.active
    decreases cfg.size - i
  {
    if i < cfg.size { VisitAllSpares(cfg, Visit(cfg, s, i, now, init), i + 1, now, init, k); }
  }

  lemma {:induction false} NextDelayAtMost(events: seq<Event>, i: nat, now: int, best: nat, k: nat)
    requires i <= |events| && forall j :: 0 <= j < |events| ==> WellFormed(events[j])
    ensures NextDelay(events, i, now, best) <= best
    ensures i <= k < |events| && Scheduled(events, k) ==> NextDelay(events, i, now, best) <= NextCheck(events[k], now)
    decreases |events| - i
  {
    if i < |events| {
      NextDelayAtMost(events, i + 1, now,
                      if Scheduled(events, i) then Min(best, NextCheck(events[i], now)) else best, k);
    }
  }

  lemma {:induction false} NextDelayAttained(events: seq<Event>, i: nat, now: int, best: nat)
    requires i <= |events| && forall j :: 0 <= j < |events| ==> WellFormed(events[j])
    ensures var delay := NextDelay(events, i, now, best);
            delay == best || exists k :: i <= k < |events| && Scheduled(events, k) && delay == NextCheck(events[k], now)
    decreases |events| - i
  {
    if i < |events| {
      NextDelayAttained(events, i + 1, now,
                        if Scheduled(events, i) then Min(best, NextCheck(events[i], now)) else best);
    }
  }

  lemma {:induction false} StepsDelayIsLeast(steps: seq<HardcodedStep>, best: nat)
    ensures var delay := StepsDelay(steps, best);
            && delay <= best && (forall j :: 0 <= j < |steps| ==> delay <= steps[j].delay)
            && (delay == best || exists j :: 0 <= j < |steps| && delay == steps[j].delay)
    decreases |steps|
  {
    if steps != [] { StepsDelayIsLeast(steps[1..], Min(best, steps[0].delay)); }
  }

  /** An update sleeps for a day, or for the least that some hardcoded event or some scheduled one asks for. */
  lemma DelayIsLeast(cfg: Config, s: State, steps: seq<HardcodedStep>, now: int)
    requires ValidState(cfg, s)
    ensures var events, delay := ExecuteSteps(cfg, s, steps, now).events, UpdateDelay(cfg, s, steps, now);
            && delay <= 86400 && (forall j :: 0 <= j < |steps| ==> delay <= steps[j].delay)
            && (forall k :: 1 <= k < |events| && Scheduled(events, k) ==> delay <= NextCheck(events[k], now))
            && (delay == 86400 || (exists j :: 0 <= j < |steps| && delay == steps[j].delay)
                || exists k :: 1 <= k < |events| && Scheduled(events, k) && delay == NextCheck(events[k], now))
  {
    var events, best := ExecuteSteps(cfg, s, steps, now).events, StepsDelay(steps, MAX_CHECK_DELAY);
    StepsDelayIsLeast(steps, MAX_CHECK_DELAY);
    NextDelayAttained(events, 1, now, best);
    NextDelayAtMost(events, 1, now, best, 0);
    forall k | 1 <= k < |events| && Scheduled(events, k)
      ensures NextDelay(events, 1, now, best) <= NextCheck(events[k], now)
    {
      NextDelayAtMost(events, 1, now, best, k);
    }
  }

  /** Right after an update, and for as long as the update said it may sleep, every enabled event
      that is not hardcoded is active exactly when the simple check says so. */
  lemma UpdateTracks(cfg: Config, s: State, steps: seq<HardcodedStep>, now: int, init: bool, k: nat, u: int)
    requires ValidState(cfg, s) && 1 <= k < cfg.size
    requires Scheduled(Update(cfg, s, steps, now, init).events, k)
    requires IsValid(Update(cfg, s, steps, now, init).events[k])
    requires u == now || now <= u < now + UpdateDelay(cfg, s, steps, now)
    ensures k in Update(cfg, s, steps, now, init).active
       <==> CheckOne(Update(cfg, s, steps, now, init).events[k], u)
  {
    var s' := ExecuteSteps(cfg, s, steps, now);
    VisitAllSettles(cfg, s', 1, now, init, k);
    NextDelayAtMost(s'.events, 1, now, StepsDelay(steps, MAX_CHECK_DELAY), k);
    if u != now { NextCheckSafe(s'.events[k], now, u); }
  }

  // ----- Whole runs: each update is called when the previous one asked for it -----

  datatype Point = Point(state: State, last: int, due: int)

  /** The state after the n-th update of a run from `s` at time `t0`, when it ran, when the next is due. */
  function RunTo(cfg: Config, s: State, t0: int, inputs: seq<seq<HardcodedStep>>, n: nat): (p: Point)
    requires ValidState(cfg, s) && n < |inputs|
    ensures ValidState(cfg, p.state) && p.last < p.due
  {
    var before := if n == 0 then Point(s, t0 - 1, t0) else RunTo(cfg, s, t0, inputs, n - 1);
    Point(Update(cfg, before.state, inputs[n], before.due, n > 0), before.due,
          before.due + UpdateDelay(cfg, before.state, inputs[n], before.due) + 1)
  }

  /** At every second from one update to the next, except the last one that the + 1 adds. */
  lemma RunTracks(cfg: Config, s: State, t0: int, inputs: seq<seq<HardcodedStep>>, n: nat, k: nat, u: int)
    requires ValidState(cfg, s) && n < |inputs| && 1 <= k < cfg.size
    requires Scheduled(RunTo(cfg, s, t0, inputs, n).state.events, k)
    requires IsValid(RunTo(cfg, s, t0, inputs, n).state.events[k])
    requires RunTo(cfg, s, t0, inputs, n).last <= u
    requires u == RunTo(cfg, s, t0, inputs, n).last || u < RunTo(cfg, s, t0, inputs, n).due - 1
    ensures k in RunTo(cfg, s, t0, inputs, n).state.active
       <==> CheckOne(RunTo(cfg, s, t0, inputs, n).state.events[k], u)
  {
    var before := if n == 0 then Point(s, t0 - 1, t0) else RunTo(cfg, s, t0, inputs, n - 1);
    UpdateTracks(cfg, before.state, inputs[n], before.due, n > 0, k, u);
  }

  // ----- The spawn grid and the quests follow the active set -----

  predicate OnlyIn(lists: seq<seq<nat>>, k: int, g: nat) {
    && 0 <= k < |lists| && g in lists[k]
    && forall j :: 0 <= j < |lists| && j != k ==> g !in lists[j]
  }

  predicate OnlyListed(cfg: Config, sp: Spawns, id: int, g: nat) {
    g in sp.known && OnlyIn(sp.lists, ListIndex(cfg.size, id), g)
  }

  ghost predicate PositiveFollows(cfg: Config, sp: Spawns, grid: set<nat>, active: set<nat>, id: nat) {
    forall g: nat :: OnlyListed(cfg, sp, id, g) ==> (g in grid <==> id in active)
  }

  ghost predicate NegativeFollows(cfg: Config, sp: Spawns, grid: set<nat>, active: set<nat>, id: nat) {
    forall g: nat :: OnlyListed(cfg, sp, 0 - id, g) && g !in sp.pooled ==> (g in grid <==> id !in active)
  }

  ghost predicate QuestsFollow(cfg: Config, s: State, id: nat)
    requires ValidConfig(cfg)
  {
    forall q: nat :: OnlyIn(cfg.quests, id, q) ==> (q in s.questsOn <==> id in s.active)
  }

  /** Quests and spawns of the positive id are where the active set puts them. */
  ghost predicate PositiveInStep(cfg: Config, s: State, id: nat)
    requires ValidConfig(cfg)
  {
    && PositiveFollows(cfg, cfg.creatures, s.creatures, s.active, id)
    && PositiveFollows(cfg, cfg.gameobjects, s.gameobjects, s.active, id)
    && QuestsFollow(cfg, s, id)
  }

  ghost predicate NegativeInStep(cfg: Config, s: State, id: nat) {
    && NegativeFollows(cfg, cfg.creatures, s.creatures, s.active, id)
    && NegativeFollows(cfg, cfg.gameobjects, s.gameobjects, s.active, id)
  }

  ghost predicate InStep(cfg: Config, s: State, id: nat)
    requires ValidConfig(cfg)
  {
    PositiveInStep(cfg, s, id) && NegativeInStep(cfg, s, id)
  }

  /** What one (un)apply does to a grid. */
  lemma ApplyGrid(cfg: Config, sp: Spawns, id: nat, j: int, g: nat)
    requires ValidConfig(cfg) && |sp.lists| == 2 * cfg.size - 1
    requires 1 <= id < cfg.size && 0 - cfg.size < j < cfg.size && OnlyListed(cfg, sp, j, g)
    ensures j != id && j != 0 - id ==>
              g !in TouchedBy(cfg, sp, id) && g !in TouchedBy(cfg, sp, 0 - id)
    ensures j == id ==> g in TouchedBy(cfg, sp, id) && g !in TouchedBy(cfg, sp, 0 - id)
    ensures j == 0 - id ==> g !in TouchedBy(cfg, sp, id) && (g in TouchedBy(cfg, sp, 0 - id) <==> g !in sp.pooled)
  {
  }

  lemma ApplyInStep(cfg: Config, s: State, id: nat, j: nat)
    requires ValidState(cfg, s) && 1 <= id < cfg.size && 1 <= j < cfg.size
    ensures j == id || PositiveInStep(cfg, s, j) ==>
              PositiveInStep(cfg, Apply(cfg, s, id), j) && PositiveInStep(cfg, UnApply(cfg, s, id), j)
    ensures j == id || NegativeInStep(cfg, s, j) ==>
              NegativeInStep(cfg, Apply(cfg, s, id), j) && NegativeInStep(cfg, UnApply(cfg, s, id), j)
  {
    forall g: nat | OnlyListed(cfg, cfg.creatures, j, g) { ApplyGrid(cfg, cfg.creatures, id, j, g); }
    forall g: nat | OnlyListed(cfg, cfg.creatures, 0 - j, g) { ApplyGrid(cfg, cfg.creatures, id, 0 - j, g); }
    forall g: nat | OnlyListed(cfg, cfg.gameobjects, j, g) { ApplyGrid(cfg, cfg.gameobjects, id, j, g); }
    forall g: nat | OnlyListed(cfg, cfg.gameobjects, 0 - j, g) { ApplyGrid(cfg, cfg.gameobjects, id, 0 - j, g); }
  }

  /** The parts of `before` that are in step for id j are in step in `after` as well. */
  ghost predicate KeepsStep(cfg: Config, before: State, after: State, j: nat)
    requires ValidConfig(cfg)
  {
    && (PositiveInStep(cfg, before, j) ==> PositiveInStep(cfg, after, j))
    && (NegativeInStep(cfg, before, j) ==> NegativeInStep(cfg, after, j))
    && ((j in before.active ==> NegativeInStep(cfg, before, j)) ==>
        (j in after.active ==> NegativeInStep(cfg, after, j)))
  }

  lemma StartStopInStep(cfg: Config, s: State, id: nat, overwrite: bool, now: int, j: nat)
    requires ValidState(cfg, s) && 1 <= j < cfg.size
    ensures KeepsStep(cfg, s, Start(cfg, s, id, overwrite, now), j)
    ensures KeepsStep(cfg, s, Stop(cfg, s, id, overwrite, now), j)
    ensures Known(cfg, s, j) ==> InStep(cfg, Start(cfg, s, j, overwrite, now), j)
    ensures Known(cfg, s, j) ==> InStep(cfg, Stop(cfg, s, j, overwrite, now), j)
  {
    if Known(cfg, s, id) { ApplyInStep(cfg, s, id, j); }
    if Known(cfg, s, j) { ApplyInStep(cfg, s, j, j); }
  }

  lemma ExecuteInStep(cfg: Config, s: State, c: Command, now: int, j: nat)
    requires ValidState(cfg, s) && 1 <= j < cfg.size
    ensures KeepsStep(cfg, s, Execute(cfg, s, c, now), j)
  {
    match c
    case StartIt(id, overwrite) => StartStopInStep(cfg, s, id, overwrite, now, j);
    case StopIt(id, overwrite) => StartStopInStep(cfg, s, id, overwrite, now, j);
    case EnableIt(id, on) =>
      if Known(cfg, s, id) {
        StartStopInStep(cfg, s.(events := s.events[id := s.events[id].(disabled := !on)]), id, true, now, j);
      }
  }

  lemma {:induction false} ExecuteAllInStep(cfg: Config, s: State, cs: seq<Command>, now: int, j: nat)
    requires ValidState(cfg, s) && 1 <= j < cfg.size
    ensures KeepsStep(cfg, s, ExecuteAll(cfg, s, cs, now), j)
    decreases |cs|
  {
    if cs != [] {
      ExecuteInStep(cfg, s, cs[0], now, j);
      ExecuteAllInStep(cfg, Execute(cfg, s, cs[0], now), cs[1..], now, j);
    }
  }

  lemma {:induction false} ExecuteStepsInStep(cfg: Config, s: State, steps: seq<HardcodedStep>, now: int, j: nat)
    requires ValidState(cfg, s) && 1 <= j < cfg.size
    ensures KeepsStep(cfg, s, ExecuteSteps(cfg, s, steps, now), j)
    decreases |steps|
  {
    if steps != [] {
      ExecuteAllInStep(cfg, s, steps[0].commands, now, j);
      ExecuteStepsInStep(cfg, ExecuteAll(cfg, s, steps[0].commands, now), steps[1..], now, j);
    }
  }

  /** The first look at an event that is off spawns what belongs to its absence. */
  lemma InitialSpawnInStep(cfg: Config, s: State, id: nat, j: nat)
    requires ValidState(cfg, s) && 1 <= id < cfg.size && 1 <= j < cfg.size && id !in s.active
    ensures KeepsStep(cfg, s, Spawn(cfg, s, 0 - id), j)
    ensures NegativeInStep(cfg, Spawn(cfg, s, 0 - id), id)
  {
    forall g: nat | OnlyListed(cfg, cfg.creatures, j, g) { ApplyGrid(cfg, cfg.creatures, id, j, g); }
    forall g: nat | OnlyListed(cfg, cfg.gameobjects, j, g) { ApplyGrid(cfg, cfg.gameobjects, id, j, g); }
    forall g: nat | OnlyListed(cfg, cfg.creatures, 0 - j, g) { ApplyGrid(cfg, cfg.creatures, id, 0 - j, g); }
    forall g: nat | OnlyListed(cfg, cfg.gameobjects, 0 - j, g) { ApplyGrid(cfg, cfg.gameobjects, id, 0 - j, g); }
    forall g: nat | OnlyListed(cfg, cfg.creatures, 0 - id, g) { ApplyGrid(cfg, cfg.creatures, id, 0 - id, g); }
    forall g: nat | OnlyListed(cfg, cfg.gameobjects, 0 - id, g) { ApplyGrid(cfg, cfg.gameobjects, id, 0 - id, g); }
  }

  lemma VisitInStep(cfg: Config, s: State, i: nat, now: int, init: bool, j: nat)
    requires ValidState(cfg, s) && 1 <= i < cfg.size && 1 <= j < cfg.size
    ensures KeepsStep(cfg, s, Visit(cfg, s, i, now, init), j)
    ensures Scheduled(s.events, i) && IsValid(s.events[i]) && !init && i !in s.active ==>
              NegativeInStep(cfg, Visit(cfg, s, i, now, init), i)
  {
    StartStopInStep(cfg, s, i, false, now, j);
    StartStopInStep(cfg, s, i, false, now, i);
    if i !in s.active { InitialSpawnInStep(cfg, s, i, j); }
  }

  lemma {:induction false} VisitAllInStep(cfg: Config, s: State, i: nat, now: int, init: bool, j: nat)
    requires ValidState(cfg, s) && 1 <= i <= cfg.size && 1 <= j < cfg.size
    ensures KeepsStep(cfg, s, VisitAll(cfg, s, i, now, init), j)
    decreases cfg.size - i
  {
    if i < cfg.size {
      VisitInStep(cfg, s, i, now, init, j);
      VisitAllInStep(cfg, Visit(cfg, s, i, now, init), i + 1, now, init, j);
    }
  }

  lemma {:induction false} FirstVisitInStep(cfg: Config, s: State, i: nat, now: int, j: nat)
    requires ValidState(cfg, s) && 1 <= i <= j < cfg.size
    requires Scheduled(s.events, j) && IsValid(s.events[j])
    requires j in s.active ==> NegativeInStep(cfg, s, j)
    ensures NegativeInStep(cfg, VisitAll(cfg, s, i, now, false), j)
    decreases cfg.size - i
  {
    VisitInStep(cfg, s, i, now, false, j);
    var v := Visit(cfg, s, i, now, false);
    if i == j {
      VisitAllInStep(cfg, v, i + 1, now, false, j);
    } else {
      FirstVisitInStep(cfg, v, i + 1, now, j);
    }
  }

  /** After loading: nothing active, nothing listed spawned, no listed quest on. */
  ghost predicate Fresh(cfg: Config, s: State)
    requires ValidConfig(cfg)
  {
    && s.active == {}
    && (forall k, g :: 0 <= k < |cfg.creatures.lists| && g in cfg.creatures.lists[k] ==> g !in s.creatures)
    && (forall k, g :: 0 <= k < |cfg.gameobjects.lists| && g in cfg.gameobjects.lists[k] ==> g !in s.gameobjects)
    && (forall k, q :: 0 <= k < |cfg.quests| && q in cfg.quests[k] ==> q !in s.questsOn)
  }

  /** The spawns and quests of every id follow the active set through a whole run: the positive lists
      always, the negative ones from the first update on for the events it looked at. */
  lemma {:induction false} RunInStep(cfg: Config, s: State, t0: int, inputs: seq<seq<HardcodedStep>>, n: nat, j: nat)
    requires ValidState(cfg, s) && Fresh(cfg, s) && n < |inputs| && 1 <= j < cfg.size
    ensures PositiveInStep(cfg, RunTo(cfg, s, t0, inputs, n).state, j)
    ensures var first := RunTo(cfg, s, t0, inputs, 0).state;
            Scheduled(first.events, j) && IsValid(first.events[j]) ==>
              InStep(cfg, RunTo(cfg, s, t0, inputs, n).state, j)
  {
    var before := if n == 0 then Point(s, t0 - 1, t0) else RunTo(cfg, s, t0, inputs, n - 1);
    if n > 0 { RunInStep(cfg, s, t0, inputs, n - 1, j); }
    var mid := ExecuteSteps(cfg, before.state, inputs[n], before.due);
    ExecuteStepsInStep(cfg, before.state, inputs[n], before.due, j);
    VisitAllInStep(cfg, mid, 1, before.due, n > 0, j);
    if n == 0 && Scheduled(mid.events, j) && IsValid(mid.events[j]) {
      FirstVisitInStep(cfg, mid, 1, before.due, j);
    }
  }

  // ----- The id of a listed spawn -----

  /** First signed id, from list `i` on, whose list has the guid; 0 when none has. */
  function FirstId(lists: seq<seq<nat>>, size: nat, g: nat, i: nat): int
    requires i <= |lists|
    decreases |lists| - i
  {
    if i == |lists| then 0 else if g in lists[i] then i + 1 - size else FirstId(lists, size, g, i + 1)
  }

  lemma {:induction false} FirstIdInverts(lists: seq<seq<nat>>, size: nat, g: nat, i: nat, id: int)
    requires i <= ListIndex(size, id) < |lists| && OnlyIn(lists, ListIndex(size, id), g)
    ensures FirstId(lists, size, g, i) == id
    decreases |lists| - i
  {
    if g !in lists[i] { FirstIdInverts(lists, size, g, i + 1, id); }
  }

  lemma {:induction false} FirstIdSound(lists: seq<seq<nat>>, size: nat, g: nat, i: nat)
    requires i <= |lists| && size >= 1
    ensures var id := FirstId(lists, size, g, i);
            if exists k :: i <= k < |lists| && g in lists[k]
            then i <= ListIndex(size, id) < |lists| && g in lists[ListIndex(size, id)]
            else id == 0
    decreases |lists| - i
  {
    if i < |lists| && g !in lists[i] { FirstIdSound(lists, size, g, i + 1); }
  }

  // ----- The scheduler itself -----

  /** Puts one list's guids into the grid, or takes them out. */
  method WalkList(sp: Spawns, list: seq<nat>, negative: bool, grid: set<nat>, adding: bool) returns (after: set<nat>)
    ensures after == if adding then grid + Touched(sp, list, negative) else grid - Touched(sp, list, negative)
  {
    after := grid;
    for n := 0 to |list|
      invariant after == if adding then grid + Touched(sp, list[..n], negative)
                         else grid - Touched(sp, list[..n], negative)
    {
      assert list[..n + 1] == list[..n] + [list[n]];
      var g := list[n];
      if g in sp.known {
        if negative && g in sp.pooled { continue; }
        after := if adding then after + {g} else after - {g};
      }
    }
    assert list[..|list|] == list;
  }

  /** Signed event id of a listed guid. */
  method GetGameEventId(sp: Spawns, size: nat, g: nat) returns (id: int)
    ensures id == FirstId(sp.lists, size, g, 0)
  {
    for i := 0 to |sp.lists|
      invariant FirstId(sp.lists, size, g, 0) == FirstId(sp.lists, size, g, i)
    {
      for n := 0 to |sp.lists[i]|
        invariant g !in sp.lists[i][..n]
      {
        if sp.lists[i][n] == g { return i + 1 - size; }
      }
    }
    return 0;
  }

  class GameEventMgr {
    const cfg: Config
    var events: seq<Event>
    var active: set<nat>
    var creatures: set<nat>
    var gameobjects: set<nat>
    var questsOn: set<nat>
    var initialised: bool

    ghost function Model(): State reads this { State(events, active, creatures, gameobjects, questsOn) }

    ghost predicate Valid() reads this { ValidState(cfg, Model()) }

    constructor (cfg: Config, s: State)
      requires ValidState(cfg, s)
      ensures Valid() && this.cfg == cfg && Model() == s && !initialised
    {
      this.cfg := cfg;
      events, active, creatures, gameobjects, questsOn := s.events, s.active, s.creatures, s.gameobjects, s.questsOn;
      initialised := false;
    }

    method GameEventSpawn(id: int)
      requires Valid()
      modifies `creatures, `gameobjects
      ensures Valid() && Model() == Spawn(cfg, old(Model()), id)
    {
      var i := ListIndex(cfg.size, id);
      if i < 0 || i >= |cfg.creatures.lists| { return; }
      creatures := WalkList(cfg.creatures, cfg.creatures.lists[i], id < 0, creatures, true);
      gameobjects := WalkList(cfg.gameobjects, cfg.gameobjects.lists[i], id < 0, gameobjects, true);
    }

    method GameEventUnspawn(id: int)
      requires Valid()
      modifies `creatures, `gameobjects
      ensures Valid() && Model() == Unspawn(cfg, old(Model()), id)
    {
      var i := ListIndex(cfg.size, id);
      if i < 0 || i >= |cfg.creatures.lists| { return; }
      creatures := WalkList(cfg.creatures, cfg.creatures.lists[i], id < 0, creatures, false);
      gameobjects := WalkList(cfg.gameobjects, cfg.gameobjects.lists[i], id < 0, gameobjects, false);
    }

    method UpdateEventQuests(id: nat, activate: bool)
      requires Valid() && id < cfg.size
      modifies `questsOn
      ensures questsOn == if activate then old(questsOn) + Elements(cfg.quests[id])
                          else old(questsOn) - Elements(cfg.quests[id])
    {
      var quests := cfg.quests[id];
      for n := 0 to |quests|
        invariant questsOn == if activate then old(questsOn) + Elements(quests[..n])
                              else old(questsOn) - Elements(quests[..n])
      {
        assert quests[..n + 1] == quests[..n] + [quests[n]];
        questsOn := if activate then questsOn + {quests[n]} else questsOn - {quests[n]};
      }
      assert quests[..|quests|] == quests;
    }

    method ApplyNewEvent(id: nat)
      requires Valid() && id < cfg.size
      modifies `active, `creatures, `gameobjects, `questsOn
      ensures Valid() && Model() == Apply(cfg, old(Model()), id)
    {
      active := active + {id};
      GameEventSpawn(id);
      GameEventUnspawn(0 - id);
      UpdateEventQuests(id, true);
    }

    method UnApplyEvent(id: nat)
      requires Valid() && id < cfg.size
      modifies `active, `creatures, `gameobjects, `questsOn
      ensures Valid() && Model() == UnApply(cfg, old(Model()), id)
    {
      active := active - {id};
      GameEventUnspawn(id);
      GameEventSpawn(0 - id);
      UpdateEventQuests(id, false);
    }

    method StartEvent(id: nat, overwrite: bool, now: int)
      requires Valid()
      modifies `events, `active, `creatures, `gameobjects, `questsOn
      ensures Valid() && Model() == Start(cfg, old(Model()), id, overwrite, now)
    {
      if !(id < |events| && IsValid(events[id])) { return; }
      ApplyNewEvent(id);
      if overwrite {
        events := events[id := events[id].(start := now)];
        if events[id].end <= events[id].start {
          events := events[id := events[id].(end := events[id].start + events[id].length)];
        }
      }
    }

    method StopEvent(id: nat, overwrite: bool, now: int)
      requires Valid()
      modifies `events, `active, `creatures, `gameobjects, `questsOn
      ensures Valid() && Model() == Stop(cfg, old(Model()), id, overwrite, now)
    {
      if !(id < |events| && IsValid(events[id])) { return; }
      UnApplyEvent(id);
      if overwrite {
        events := events[id := events[id].(start := now - (events[id].length * MINUTE) % TWO_32)];
        if events[id].end <= events[id].start {
          events := events[id := events[id].(end := events[id].start + events[id].length)];
        }
      }
    }

    method EnableEvent(id: nat, enable: bool, now: int)
      requires Valid()
      modifies `events, `active, `creatures, `gameobjects, `questsOn
      ensures Valid() && Model() == Enable(cfg, old(Model()), id, enable, now)
    {
      if !(id < |events| && IsValid(events[id])) { return; }
      if events[id].disabled == !enable { return; }
      events := events[id := events[id].(disabled := !enable)];
      if id !in active { return; }
      if id !in cfg.worldEvents { StopEvent(id, true, now); }
    }

    method Run(commands: seq<Command>, now: int)
      requires Valid()
      modifies `events, `active, `creatures, `gameobjects, `questsOn
      ensures Valid() && Model() == ExecuteAll(cfg, old(Model()), commands, now)
    {
      for n := 0 to |commands|
        invariant Valid()
        invariant ExecuteAll(cfg, old(Model()), commands, now) == ExecuteAll(cfg, Model(), commands[n..], now)
      {
        assert commands[n..][1..] == commands[n + 1..];
        match commands[n]
        case StartIt(id, overwrite) => StartEvent(id, overwrite, now);
        case StopIt(id, overwrite) => StopEvent(id, overwrite, now);
        case EnableIt(id, on) => EnableEvent(id, on, now);
      }
    }

    /** Milliseconds until the next call; one second is added to be sure the change has happened. */
    method UpdateAll(steps: seq<HardcodedStep>, now: int) returns (delay: nat)
      requires Valid()
      modifies `events, `active, `creatures, `gameobjects, `questsOn
      ensures Valid()
      ensures Model() == Update(cfg, old(Model()), steps, now, initialised)
      ensures delay == (UpdateDelay(cfg, old(Model()), steps, now) + 1) * 1000
    {
      var next := MAX_CHECK_DELAY;
      for n := 0 to |steps|
        invariant Valid() && next >= 0
        invariant ExecuteSteps(cfg, old(Model()), steps, now) == ExecuteSteps(cfg, Model(), steps[n..], now)
        invariant StepsDelay(steps, MAX_CHECK_DELAY) == StepsDelay(steps[n..], next)
      {
        assert steps[n..][1..] == steps[n + 1..];
        Run(steps[n].commands, now);
        if steps[n].delay < next { next := steps[n].delay; }
      }
      ghost var mid := Model();
      ghost var best := next;
      for itr := 1 to cfg.size
        invariant Valid() && events == mid.events && next >= 0
        invariant VisitAll(cfg, mid, 1, now, initialised) == VisitAll(cfg, Model(), itr, now, initialised)
        invariant NextDelay(mid.events, 1, now, best) == NextDelay(mid.events, itr, now, next)
      {
        if events[itr].hardcoded || events[itr].disabled { continue; }
        if CheckOne(events[itr], now) {
          if itr !in active { StartEvent(itr, false, now); }
        } else if itr in active {
          StopEvent(itr, false, now);
        } else if !initialised {
          GameEventSpawn(0 - itr);
        }
        var calcDelay := NextCheck(events[itr], now);
        if calcDelay < next { next := calcDelay; }
      }
      delay := (next + 1) * 1000;
    }

    /** The first update, after loading: nothing is active yet. */
    method Initialize(steps: seq<HardcodedStep>, now: int) returns (delay: nat)
      requires Valid() && !initialised
      modifies this
      ensures Valid() && initialised
      ensures Model() == Update(cfg, old(Model()).(active := {}), steps, now, false)
      ensures delay == (UpdateDelay(cfg, old(Model()).(active := {}), steps, now) + 1) * 1000
    {
      active := {};
      delay := UpdateAll(steps, now);
      initialised := true;
    }
  }
}
