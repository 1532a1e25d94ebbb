/** The condition table: entries that combine, redirect or test facts about a target, a source and a map,
    evaluated by looking other entries up while the evaluation runs. */
module Conditions {

  import opened Wrappers

  datatype Kind = Player | Creature | GameObject | DynamicObject | Corpse

  datatype Object = Object(id: nat, kind: Kind) {
    predicate IsUnit() { kind.Player? || kind.Creature? }
  }

  type Ref = Option<Object>

  predicate IsUnit(r: Ref) { r.Some? && r.value.IsUnit() }
  predicate IsKind(r: Ref, k: Kind) { r.Some? && r.value.kind == k }

  /** What an entry is evaluated against. A missing map is None, too. */
  datatype Args = Args(target: Ref, mapId: Option<nat>, source: Ref) {
    function Swapped(): Args { Args(source, mapId, target) }
  }

  // ----- Kinds of conditions -----

  const NOT := -3
  const OR := -2
  const AND := -1
  const NONE := 0
  const HAS_FLAG := 31
  const MAP_EVENT_TARGETS := 47
  const OBJECT_FIT_CONDITION := 50
  const FIRST := -3
  const LAST := 54

  datatype Entry = Entry(cond: int, v1: nat, v2: nat, v3: nat, v4: nat, reverse: bool, swap: bool)

  type Table = map<nat, Entry>

  datatype Requirement =
    | Nothing
    | TargetObject | TargetGameObject | TargetUnit | TargetPlayer
    | SourceObject | SourceUnit | SourceCreature
    | AnyObject | MapOrObject | BothObjects

  /** Which arguments must be given to each kind. */
  function RequirementOf(cond: int): Requirement {
    match cond
    case 1 => TargetUnit case 2 => TargetPlayer case 3 => TargetPlayer case 4 => AnyObject
    case 5 => TargetPlayer case 6 => TargetPlayer case 7 => TargetPlayer case 8 => TargetPlayer
    case 9 => TargetPlayer case 10 => TargetPlayer case 11 => Nothing case 12 => Nothing case 13 => SourceUnit
    case 14 => TargetPlayer case 15 => TargetUnit case 16 => SourceObject case 17 => TargetPlayer
    case 18 => MapOrObject case 19 => TargetPlayer case 20 => TargetObject case 21 => TargetObject
    case 22 => TargetPlayer case 23 => TargetPlayer case 24 => Nothing case 25 => Nothing case 26 => Nothing
    case 27 => TargetObject case 28 => TargetObject case 29 => TargetPlayer case 30 => TargetPlayer
    case 31 => SourceObject case 32 => SourceCreature case 33 => MapOrObject case 34 => MapOrObject
    case 35 => MapOrObject case 36 => MapOrObject case 37 => BothObjects case 38 => BothObjects
    case 39 => TargetObject case 40 => TargetUnit case 41 => TargetUnit case 42 => TargetUnit
    case 43 => TargetUnit case 44 => BothObjects case 45 => TargetPlayer case 46 => TargetUnit
    case 47 => MapOrObject case 48 => TargetGameObject case 49 => TargetGameObject case 50 => MapOrObject
    case 51 => TargetPlayer case 52 => SourceObject case 53 => Nothing case 54 => TargetObject
    case _ => Nothing
  }

  predicate Listed(cond: int) { FIRST <= cond <= LAST }

  predicate CheckParamRequirements(cond: int, a: Args)
    requires Listed(cond)
  {
    match RequirementOf(cond)
    case Nothing => true
    case TargetObject => a.target.Some?
    case TargetGameObject => IsKind(a.target, GameObject)
    case TargetUnit => IsUnit(a.target)
    case TargetPlayer => IsKind(a.target, Player)
    case SourceObject => a.source.Some?
    case SourceUnit => IsUnit(a.source)
    case SourceCreature => IsKind(a.source, Creature)
    case AnyObject => a.source.Some? || a.target.Some?
    case MapOrObject => a.mapId.Some? || a.source.Some? || a.target.Some?
    case BothObjects => a.source.Some? && a.target.Some?
  }

  /** Whether evaluating a kind only follows pointers that are there and only uses objects as what they
      are, kind by kind as the evaluation reaches for them. */
  predicate Safe(cond: int, a: Args) {
    // target->ToPlayer()->...
    if cond in {2, 3, 5, 6, 7, 8, 9, 10, 14, 17, 19, 22, 23, 29, 30, 45, 51} then
      a.target.Some? && a.target.value.kind == Player
    // target->ToUnit()->...
    else if cond in {1, 15, 40, 41, 42, 43, 46} then
      a.target.Some? && (a.target.value.kind == Player || a.target.value.kind == Creature)
    // target->ToGameObject()->...
    else if cond in {48, 49} then a.target.Some? && a.target.value.kind == GameObject
    // target->...
    else if cond in {20, 21, 27, 28, 39, 54} then a.target.Some?
    // source->..., source->ToUnit()->..., ((Creature*)source)->...
    else if cond in {16, 31, 52} then a.source.Some?
    else if cond == 13 then
      a.source.Some? && (a.source.value.kind == Player || a.source.value.kind == Creature)
    else if cond == 32 then a.source.Some? && a.source.value.kind == Creature
    // (source ? source : target)->...
    else if cond == 4 then if a.source.Some? then true else a.target.Some?
    // (map ? map : target ? target->GetMap() : source->GetMap())->...
    else if cond == 18 then if a.mapId.Some? then true else if a.target.Some? then true else a.source.Some?
    // (map ? map : source ? source->GetMap() : target->GetMap())->...
    else if cond in {33, 34, 35, 36, 47, 50} then
      if a.mapId.Some? then true else if a.source.Some? then true else a.target.Some?
    // both are asked about each other
    else if cond in {37, 38, 44} then a.source.Some? && a.target.Some?
    // nothing is followed (25 looks before it leaps)
    else true
  }

  /** The table of requirements asks for exactly what the evaluation uses, for every mix of arguments. */
  lemma RequirementsAreExact(cond: int, a: Args)
    requires Listed(cond)
    ensures CheckParamRequirements(cond, a) <==> Safe(cond, a)
  {
  }

  // ----- Evaluation -----

  /** What the evaluation asks the world: the outcome of a condition that looks at no other entry nor at flags, the map
      of an object, the targets of a scripted event of a map (those that still exist) and the game object
      of a map with a given database guid. */
  datatype World = World(
    leaf: (Entry, Args) -> bool,
    mapOf: Object -> nat,
    eventTargets: (nat, nat) -> Option<seq<Ref>>,
    gameObject: (nat, nat) -> Option<nat>)

  /** No value is reached when the fuel runs out; a fault is a lookup of an entry that is not there, a
      pointer followed that is not there or an object used as what it is not. */
  datatype Outcome = Val(met: bool) | OutOfFuel | Fault

  function Not(r: Outcome): Outcome { if r.Val? then Val(!r.met) else r }

  /** The map an entry looks at, when it may look at all. */
  function MapFor(w: World, a: Args): nat
    requires Safe(MAP_EVENT_TARGETS, a)
  {
    if a.mapId.Some? then a.mapId.value else if a.source.Some? then w.mapOf(a.source.value) else w.mapOf(a.target.value)
  }

  /** An entry to be asked, and what it is given. */
  datatype Call = Call(entry: nat, args: Args)

  predicate Combines(cond: int) {
    cond == NOT || cond == OR || cond == AND || cond == MAP_EVENT_TARGETS || cond == OBJECT_FIT_CONDITION
  }

  /** The entries the combining kinds ask, in order: the optional third and fourth before the first two,
      the same entry about every target that still exists, and one about a game object that is there. */
  function Calls(w: World, c: Entry, a: Args): seq<Call>
    requires Safe(c.cond, a)
  {
    if c.cond == NOT then [Call(c.v1, a)]
    else if c.cond == OR || c.cond == AND then
      (if c.v3 != 0 then [Call(c.v3, a)] else []) + (if c.v4 != 0 then [Call(c.v4, a)] else [])
      + [Call(c.v1, a), Call(c.v2, a)]
    else if c.cond == MAP_EVENT_TARGETS then
      var targets := w.eventTargets(MapFor(w, a), c.v1);
      if targets.None? then [] else AboutEach(c.v2, targets.value, a)
    else if c.cond == OBJECT_FIT_CONDITION then
      var id := w.gameObject(MapFor(w, a), c.v1);
      if id.None? then [] else [Call(c.v2, Args(Some(Object(id.value, GameObject)), a.mapId, a.source))]
    else []
  }

  function AboutEach(entry: nat, targets: seq<Ref>, a: Args): seq<Call> {
    if targets == [] then []
    else (if targets[0].Some? then [Call(entry, Args(targets[0], a.mapId, a.source))] else [])
         + AboutEach(entry, targets[1..], a)
  }

  /** The answer that settles a combination: the others are then not asked any more. */
  predicate Settles(cond: int) { cond == OR || cond == OBJECT_FIT_CONDITION }

  function Meets(fuel: nat, t: Table, w: World, e: nat, args: Args): (r: Outcome)
    decreases fuel, 2, 0
  {
    if fuel == 0 then OutOfFuel
    else if e !in t || !Listed(t[e].cond) then Fault
    else
      var a := Given(t, e, args);
      if !CheckParamRequirements(t[e].cond, a) then Val(false)
      else
        var r := Evaluate(fuel, t, w, t[e], a);
        if t[e].reverse then Not(r) else r
  }

  /** What an entry hands on: its arguments, swapped when it says so. */
  function Given(t: Table, e: nat, args: Args): Args
    requires e in t
  {
    if t[e].swap then args.Swapped() else args
  }

  function Evaluate(fuel: nat, t: Table, w: World, c: Entry, a: Args): (r: Outcome)
    requires fuel > 0
    decreases fuel, 1, 0
  {
    if !Safe(c.cond, a) then Fault
    else if c.cond == NONE then Val(true)
    else if Combines(c.cond) then
      var r := Ask(fuel, t, w, Calls(w, c, a), Settles(c.cond));
      if c.cond == NOT then Not(r) else r
    else Val(w.leaf(Bare(c), a))
  }

  /** An entry without its flags, which only its own evaluation looks at. */
  function Bare(c: Entry): Entry { c.(reverse := false, swap := false) }

  /** Asks one entry after the other until one gives the settling answer, or none at all. */
  function Ask(fuel: nat, t: Table, w: World, calls: seq<Call>, settles: bool): (r: Outcome)
    requires fuel > 0
    decreases fuel, 0, |calls|
  {
    if calls == [] then Val(!settles)
    else
      var r := Meets(fuel - 1, t, w, calls[0].entry, calls[0].args);
      if r != Val(!settles) then r else Ask(fuel, t, w, calls[1..], settles)
  }

  /** Once an outcome is reached, more fuel does not change it. */
  lemma {:induction false} MoreFuel(fuel: nat, t: Table, w: World, e: nat, args: Args)
    ensures Meets(fuel, t, w, e, args) != OutOfFuel ==> Meets(fuel + 1, t, w, e, args) == Meets(fuel, t, w, e, args)
    decreases fuel, 2, 0
  {
    if fuel > 0 && e in t && Listed(t[e].cond) {
      var c, a := t[e], Given(t, e, args);
      if Safe(c.cond, a) && Combines(c.cond) { MoreFuelToAsk(fuel, t, w, Calls(w, c, a), Settles(c.cond)); }
    }
  }

  lemma {:induction false} MoreFuelToAsk(fuel: nat, t: Table, w: World, calls: seq<Call>, settles: bool)
    requires fuel > 0
    ensures Ask(fuel, t, w, calls, settles) != OutOfFuel ==>
              Ask(fuel + 1, t, w, calls, settles) == Ask(fuel, t, w, calls, settles)
    decreases fuel, 0, |calls|
  {
    if calls != [] {
      MoreFuel(fuel - 1, t, w, calls[0].entry, calls[0].args);
      MoreFuelToAsk(fuel, t, w, calls[1..], settles);
    }
  }

  lemma {:induction false} FuelIsEnough(few: nat, many: nat, t: Table, w: World, e: nat, args: Args)
    requires few <= many && Meets(few, t, w, e, args) != OutOfFuel
    ensures Meets(many, t, w, e, args) == Meets(few, t, w, e, args)
    decreases many
  {
    if few < many {
      FuelIsEnough(few, many - 1, t, w, e, args);
      MoreFuel(many - 1, t, w, e, args);
    }
  }

  // ----- Sound tables answer -----

  /** The entries an entry refers to. */
  function Refs(c: Entry): set<nat> {
    if c.cond == NOT then {c.v1}
    else if c.cond == OR || c.cond == AND then
      {c.v1, c.v2} + (if c.v3 != 0 then {c.v3} else {}) + (if c.v4 != 0 then {c.v4} else {})
    else if c.cond == MAP_EVENT_TARGETS || c.cond == OBJECT_FIT_CONDITION then {c.v2}
    else {}
  }

  /** Every kind is known, every entry referred to is there, and references lead down in rank. */
  ghost predicate Ranked(t: Table, rank: map<nat, nat>) {
    t.Keys <= rank.Keys && forall e {:trigger RankedAt(t, rank, e)} :: e in t ==> RankedAt(t, rank, e)
  }

  ghost predicate RankedAt(t: Table, rank: map<nat, nat>, e: nat)
    requires e in t && t.Keys <= rank.Keys
  {
    Listed(t[e].cond) && forall r :: r in Refs(t[e]) ==> r in t && rank[r] < rank[e]
  }

  /** A table is sound when its entries can be ranked, in whatever order they stand. */
  ghost predicate Sound(t: Table) {
    exists rank :: Ranked(t, rank)
  }

  ghost function RankOf(t: Table): (rank: map<nat, nat>)
    requires Sound(t)
    ensures Ranked(t, rank)
  {
    var rank :| Ranked(t, rank);
    rank
  }

  /** Only entries referred to are asked. */
  lemma CallsAreRefs(w: World, c: Entry, a: Args)
    requires Safe(c.cond, a)
    ensures forall call :: call in Calls(w, c, a) ==> call.entry in Refs(c)
  {
    if c.cond == MAP_EVENT_TARGETS {
      var targets := w.eventTargets(MapFor(w, a), c.v1);
      if targets.Some? { EachIsAbout(c.v2, targets.value, a); }
    }
  }

  lemma {:induction false} EachIsAbout(entry: nat, targets: seq<Ref>, a: Args)
    ensures forall call :: call in AboutEach(entry, targets, a) <==>
                             exists o :: o in targets && o.Some? && call == Call(entry, Args(o, a.mapId, a.source))
  {
    if targets != [] {
      EachIsAbout(entry, targets[1..], a);
      assert targets == [targets[0]] + targets[1..];
    }
  }

  /** In a sound table every entry has a value, whatever arguments are missing and however often targets
      are swapped on the way: no lookup, pointer or cast fails and the evaluation ends. */
  lemma {:induction false} EveryEntryAnswers(fuel: nat, t: Table, rank: map<nat, nat>, w: World, e: nat, args: Args)
    requires Ranked(t, rank) && e in t && fuel > rank[e]
    ensures Meets(fuel, t, w, e, args).Val?
    decreases fuel, 1, 0
  {
    var c, a := t[e], Given(t, e, args);
    assert RankedAt(t, rank, e);
    if CheckParamRequirements(c.cond, a) {
      RequirementsAreExact(c.cond, a);
      if Combines(c.cond) {
        RankedCalls(t, rank, w, e, a);
        EveryCallAnswers(fuel, t, rank, w, e, Calls(w, c, a));
        AskingAnswers(fuel, t, w, Calls(w, c, a), Settles(c.cond));
      }
    }
  }

  lemma {:induction false} EveryCallAnswers(fuel: nat, t: Table, rank: map<nat, nat>, w: World, e: nat,
                                            calls: seq<Call>)
    requires Ranked(t, rank) && e in t && fuel > rank[e] && CallsOf(t, rank, calls, e)
    ensures forall call :: call in calls ==> Meets(fuel - 1, t, w, call.entry, call.args).Val?
    decreases fuel, 0, 0
  {
    forall call | call in calls ensures Meets(fuel - 1, t, w, call.entry, call.args).Val? {
      EveryEntryAnswers(fuel - 1, t, rank, w, call.entry, call.args);
    }
  }

  ghost predicate CallsOf(t: Table, rank: map<nat, nat>, calls: seq<Call>, e: nat) {
    forall call :: call in calls ==> call.entry in t && e in rank && call.entry in rank && rank[call.entry] < rank[e]
  }

  lemma RankedCalls(t: Table, rank: map<nat, nat>, w: World, e: nat, a: Args)
    requires Ranked(t, rank) && e in t && Safe(t[e].cond, a)
    ensures CallsOf(t, rank, Calls(w, t[e], a), e)
  {
    CallsAreRefs(w, t[e], a);
    assert RankedAt(t, rank, e);
  }

  lemma {:induction false} AskingAnswers(fuel: nat, t: Table, w: World, calls: seq<Call>, settles: bool)
    requires fuel > 0 && forall call :: call in calls ==> Meets(fuel - 1, t, w, call.entry, call.args).Val?
    ensures Ask(fuel, t, w, calls, settles).Val?
    decreases |calls|
  {
    if calls != [] {
      assert calls[0] in calls;
      AskingAnswers(fuel, t, w, calls[1..], settles);
    }
  }

  // ----- Which tables are sound -----

  /** Entries each of which refers to one of them. */
  ghost predicate Circle(t: Table, circle: set<nat>) {
    && circle != {} && circle <= t.Keys
    && forall e {:trigger LeadsInto(t, e, circle)} :: e in circle ==> LeadsInto(t, e, circle)
  }

  ghost predicate LeadsInto(t: Table, e: nat, circle: set<nat>) {
    e in t && exists r :: r in Refs(t[e]) && r in circle
  }

  ghost predicate Complete(t: Table) {
    forall e :: e in t ==> Listed(t[e].cond) && forall r :: r in Refs(t[e]) ==> r in t
  }

  /** The entries that reach the ground in n steps whatever references are followed. */
  ghost function Grounded(t: Table, n: nat): (g: set<nat>)
    ensures g <= t.Keys
  {
    if n == 0 then {} else set e | e in t && Refs(t[e]) <= Grounded(t, n - 1)
  }

  lemma {:induction false} GroundedGrows(t: Table, n: nat, m: nat)
    requires n <= m
    ensures Grounded(t, n) <= Grounded(t, m)
    decreases m
  {
    if 0 < n { GroundedGrows(t, n - 1, m - 1); }
  }

  /** After as many steps as there are entries, no more can come. */
  lemma {:induction false} GroundedSettles(t: Table, n: nat) returns (m: nat)
    requires n <= |Grounded(t, n)| <= |t.Keys|
    ensures Grounded(t, m) == Grounded(t, m + 1)
    decreases |t.Keys| - n
  {
    if Grounded(t, n) == Grounded(t, n + 1) {
      m := n;
    } else {
      GroundedGrows(t, n, n + 1);
      SubsetSize(Grounded(t, n), Grounded(t, n + 1));
      SubsetSize(Grounded(t, n + 1), t.Keys);
      m := GroundedSettles(t, n + 1);
    }
  }

  lemma SubsetSize(a: set<nat>, b: set<nat>)
    requires a <= b
    ensures |a| <= |b| && (a != b ==> |a| < |b|)
  {
    assert b == a + (b - a);
    assert |b| == |a| + |b - a|;
  }

  /** The number of steps an entry needs. */
  ghost function Steps(t: Table, e: nat, n: nat): (k: nat)
    requires e in Grounded(t, n)
    ensures 0 < k <= n && e in Grounded(t, k)
  {
    if e in Grounded(t, n - 1) then Steps(t, e, n - 1) else n
  }

  lemma {:induction false} StepsAreLeast(t: Table, e: nat, n: nat, k: nat)
    requires e in Grounded(t, n) && e in Grounded(t, k)
    ensures Steps(t, e, n) <= k
    decreases n
  {
    if k < n {
      GroundedGrows(t, k, n - 1);
      StepsAreLeast(t, e, n - 1, k);
    }
  }

  /** A table is sound exactly when nothing it refers to is missing and its references run in no circle. */
  lemma SoundExactly(t: Table)
    ensures Sound(t) <==> Complete(t) && forall circle :: !Circle(t, circle)
  {
    if Sound(t) {
      forall e | e in t ensures RankedAt(t, RankOf(t), e) {
      }
      forall circle ensures !Circle(t, circle) {
        if Circle(t, circle) { NoCircle(t, RankOf(t), circle, Pick(circle)); }
      }
    }
    if Complete(t) && forall circle :: !Circle(t, circle) { CircleFreeIsSound(t); }
  }

  lemma CircleFreeIsSound(t: Table)
    requires Complete(t) && forall circle :: !Circle(t, circle)
    ensures Sound(t)
  {
    SubsetSize({}, t.Keys);
    var m := GroundedSettles(t, 0);
    var left := t.Keys - Grounded(t, m);
    forall e | e in left ensures LeadsInto(t, e, left) {
      assert e !in Grounded(t, m + 1);
      var r :| r in Refs(t[e]) && r !in Grounded(t, m);
    }
    assert left == {} by { assert !Circle(t, left); }
    RankedBySteps(t, m);
  }

  ghost function Pick(s: set<nat>): (e: nat)
    requires s != {}
    ensures e in s
  {
    var e :| e in s;
    e
  }

  lemma {:induction false} NoCircle(t: Table, rank: map<nat, nat>, circle: set<nat>, e: nat)
    requires Ranked(t, rank) && Circle(t, circle) && e in circle
    ensures false
    decreases rank[e]
  {
    assert LeadsInto(t, e, circle) && RankedAt(t, rank, e);
    var r :| r in Refs(t[e]) && r in circle;
    NoCircle(t, rank, circle, r);
  }

  lemma RankedBySteps(t: Table, m: nat)
    requires Complete(t) && t.Keys <= Grounded(t, m)
    ensures Sound(t)
  {
    var rank := map e | e in t :: Steps(t, e, m);
    forall e, r | e in t && r in Refs(t[e]) ensures r in t && rank[r] < rank[e] {
      StepsLead(t, e, r, m);
    }
    assert Ranked(t, rank);
  }

  lemma StepsLead(t: Table, e: nat, r: nat, m: nat)
    requires e in t && r in t && e in Grounded(t, m) && r in Grounded(t, m) && r in Refs(t[e])
    ensures Steps(t, r, m) < Steps(t, e, m)
  {
    var k := Steps(t, e, m);
    assert r in Grounded(t, k - 1);
    StepsAreLeast(t, r, m, k - 1);
  }

  /** Above all, a table in which all references lead backwards is. */
  lemma BackwardIsSound(t: Table)
    requires Complete(t) && forall e, r :: e in t && r in Refs(t[e]) ==> r < e
    ensures Sound(t)
  {
    var rank := map e | e in t :: e;
    assert Ranked(t, rank);
  }

  // ----- What the answers mean -----

  /** The value of an entry of a sound table. */
  ghost function Truth(t: Table, w: World, e: nat, args: Args): bool
    requires Sound(t) && e in t
  {
    EveryEntryAnswers(RankOf(t)[e] + 1, t, RankOf(t), w, e, args);
    Meets(RankOf(t)[e] + 1, t, w, e, args).met
  }

  /** With any ranking, and any bound on nesting above the entry's rank. */
  lemma TruthAt(fuel: nat, t: Table, rank: map<nat, nat>, w: World, e: nat, args: Args)
    requires Ranked(t, rank) && e in t && fuel > rank[e]
    ensures Sound(t) && Meets(fuel, t, w, e, args) == Val(Truth(t, w, e, args))
  {
    var own := RankOf(t)[e] + 1;
    EveryEntryAnswers(own, t, RankOf(t), w, e, args);
    EveryEntryAnswers(fuel, t, rank, w, e, args);
    if fuel <= own { FuelIsEnough(fuel, own, t, w, e, args); } else { FuelIsEnough(own, fuel, t, w, e, args); }
  }

  ghost predicate CallsAreThere(t: Table, calls: seq<Call>) { forall call :: call in calls ==> call.entry in t }

  /** Some call gives the settling answer. */
  ghost predicate Settled(t: Table, w: World, calls: seq<Call>, settles: bool)
    requires Sound(t) && CallsAreThere(t, calls)
  {
    exists call :: call in calls && Truth(t, w, call.entry, call.args) == settles
  }

  lemma {:induction false} AskingMeans(fuel: nat, t: Table, w: World, calls: seq<Call>, values: seq<bool>,
                                       settles: bool)
    requires fuel > 0 && |values| == |calls|
    requires forall k :: 0 <= k < |calls| ==> Meets(fuel - 1, t, w, calls[k].entry, calls[k].args) == Val(values[k])
    ensures Ask(fuel, t, w, calls, settles) == Val((settles in values) == settles)
  {
    if calls != [] {
      AskingMeans(fuel, t, w, calls[1..], values[1..], settles);
      assert values == [values[0]] + values[1..];
    }
  }

  lemma AskingSettles(t: Table, rank: map<nat, nat>, w: World, e: nat, calls: seq<Call>, settles: bool)
    requires Ranked(t, rank) && e in t && CallsOf(t, rank, calls, e)
    ensures Sound(t) && Ask(rank[e] + 1, t, w, calls, settles) == Val(Settled(t, w, calls, settles) == settles)
  {
    var values := seq(|calls|, k requires 0 <= k < |calls| && Sound(t) && CallsOf(t, rank, calls, e) =>
                                 Truth(t, w, calls[k].entry, calls[k].args));
    forall k | 0 <= k < |calls| ensures Meets(rank[e], t, w, calls[k].entry, calls[k].args) == Val(values[k]) {
      TruthAt(rank[e], t, rank, w, calls[k].entry, calls[k].args);
    }
    AskingMeans(rank[e] + 1, t, w, calls, values, settles);
    assert Settled(t, w, calls, settles) <==> settles in values;
  }

  /** What an entry with the flag to swap sees of what it is given: source and target change places. */
  predicate Sees(c: Entry, x: Ref, m: Option<nat>, y: Ref, a: Args) {
    a == if c.swap then Args(y, m, x) else Args(x, m, y)
  }

  /** Bad arguments make an entry false, whatever its flag says. */
  lemma BadArgumentsAreFalse(t: Table, w: World, e: nat, x: Ref, m: Option<nat>, y: Ref, a: Args)
    requires Sound(t) && e in t && Listed(t[e].cond)
    requires Sees(t[e], x, m, y, a) && !CheckParamRequirements(t[e].cond, a)
    ensures !Truth(t, w, e, Args(x, m, y))
  {
  }

  /** An entry of a kind that asks no other holds when the world says so of what it sees, turned round by its flag;
      one that asks nothing at all always does. */
  lemma OrdinaryMeans(fuel: nat, t: Table, w: World, e: nat, x: Ref, m: Option<nat>, y: Ref, a: Args)
    requires fuel > 0 && e in t && Listed(t[e].cond) && t[e].cond !in {-3, -2, -1, 47, 50}
    requires Sees(t[e], x, m, y, a) && CheckParamRequirements(t[e].cond, a)
    ensures Meets(fuel, t, w, e, Args(x, m, y)) ==
            Val((t[e].cond == 0 || w.leaf(t[e].(reverse := false, swap := false), a)) != t[e].reverse)
  {
    RequirementsAreExact(t[e].cond, a);
  }

  // ----- What the flag to swap means -----

  /** Two tables that agree on some entries, which only refer to each other. */
  ghost predicate AgreeOn(t: Table, t': Table, ids: set<nat>) {
    forall x :: x in ids ==> (x in t <==> x in t') && (x in t ==> t[x] == t'[x] && Refs(t[x]) <= ids)
  }

  lemma {:induction false} SameAnswers(fuel: nat, t: Table, t': Table, w: World, ids: set<nat>, e: nat, args: Args)
    requires AgreeOn(t, t', ids) && e in ids
    ensures Meets(fuel, t, w, e, args) == Meets(fuel, t', w, e, args)
    decreases fuel, 2, 0
  {
    if fuel > 0 && e in t && Listed(t[e].cond) {
      var c, a := t[e], Given(t, e, args);
      if Safe(c.cond, a) && Combines(c.cond) {
        CallsAreRefs(w, c, a);
        SameAsked(fuel, t, t', w, ids, Calls(w, c, a), Settles(c.cond));
      }
    }
  }

  lemma {:induction false} SameAsked(fuel: nat, t: Table, t': Table, w: World, ids: set<nat>, calls: seq<Call>,
                                     settles: bool)
    requires fuel > 0 && AgreeOn(t, t', ids) && forall call :: call in calls ==> call.entry in ids
    ensures Ask(fuel, t, w, calls, settles) == Ask(fuel, t', w, calls, settles)
    decreases fuel, 0, |calls|
  {
    if calls != [] {
      assert calls[0] in calls;
      SameAnswers(fuel - 1, t, t', w, ids, calls[0].entry, calls[0].args);
      SameAsked(fuel, t, t', w, ids, calls[1..], settles);
    }
  }

  /** An entry with the flag to swap, asked about a target and a source, answers as one without it does when these have
      changed places - provided that it is not asked again on the way. */
  lemma SwapMeans(fuel: nat, t: Table, w: World, e: nat, x: Ref, m: Option<nat>, y: Ref, below: set<nat>)
    requires e in t && t[e].swap && e !in below && Refs(t[e]) <= below
    requires forall r :: r in below && r in t ==> Refs(t[r]) <= below
    ensures Meets(fuel, t, w, e, Args(x, m, y))
            == Meets(fuel, t[e := t[e].(swap := false)], w, e, Args(y, m, x))
  {
    var c := t[e].(swap := false);
    var t' := t[e := c];
    if fuel > 0 && Listed(c.cond) {
      var a := Args(y, m, x);
      if Safe(c.cond, a) && Combines(c.cond) {
        CallsAreRefs(w, c, a);
        assert AgreeOn(t, t', below);
        SameAsked(fuel, t, t', w, below, Calls(w, c, a), Settles(c.cond));
      }
    }
  }


  /** The value of a combining entry with good arguments: whether some entry it asks gives the settling answer,
      turned round for a negation and for the flag. */
  lemma CombinationMeans(t: Table, w: World, e: nat, x: Ref, m: Option<nat>, y: Ref, a: Args)
    requires Sound(t) && e in t && Combines(t[e].cond) && Sees(t[e], x, m, y, a) && Safe(t[e].cond, a)
    requires CheckParamRequirements(t[e].cond, a)
    ensures CallsAreThere(t, Calls(w, t[e], a))
    ensures var some := Settled(t, w, Calls(w, t[e], a), Settles(t[e].cond));
            Truth(t, w, e, Args(x, m, y)) == ((some == Settles(t[e].cond)) != (t[e].reverse != (t[e].cond == NOT)))
  {
    var c, args, rank := t[e], Args(x, m, y), RankOf(t);
    RankedCalls(t, rank, w, e, a);
    AskingSettles(t, rank, w, e, Calls(w, c, a), Settles(c.cond));
    TruthAt(rank[e] + 1, t, rank, w, e, args);
    CombinationAsks(rank[e] + 1, t, w, e, args);
  }

  lemma CombinationAsks(fuel: nat, t: Table, w: World, e: nat, args: Args)
    requires fuel > 0 && e in t && Combines(t[e].cond) && Safe(t[e].cond, Given(t, e, args))
    requires CheckParamRequirements(t[e].cond, Given(t, e, args))
    ensures var asked := Ask(fuel, t, w, Calls(w, t[e], Given(t, e, args)), Settles(t[e].cond));
            Meets(fuel, t, w, e, args) == if t[e].reverse != (t[e].cond == NOT) then Not(asked) else asked
  {
  }

  ghost predicate IsMet(t: Table, w: World, e: nat, a: Args)
    requires Sound(t)
  {
    e in t && Truth(t, w, e, a)
  }

  /** NOT, OR and AND mean what they say about the entries they refer to, which are there; the third and fourth count
      only when they are given. */
  lemma ConnectivesMean(t: Table, w: World, e: nat, x: Ref, m: Option<nat>, y: Ref, a: Args)
    requires Sound(t) && e in t && t[e].cond in {NOT, OR, AND} && Sees(t[e], x, m, y, a)
    ensures forall r :: r in Refs(t[e]) ==> r in t
    ensures var c, met := t[e], Truth(t, w, e, Args(x, m, y));
            match c.cond
            case -3 => met == (IsMet(t, w, c.v1, a) == c.reverse)
            case -2 => met == ((IsMet(t, w, c.v1, a) || IsMet(t, w, c.v2, a)
                                || (c.v3 != 0 && IsMet(t, w, c.v3, a)) || (c.v4 != 0 && IsMet(t, w, c.v4, a)))
                               != c.reverse)
            case _ => met == ((IsMet(t, w, c.v1, a) && IsMet(t, w, c.v2, a)
                               && (c.v3 != 0 ==> IsMet(t, w, c.v3, a)) && (c.v4 != 0 ==> IsMet(t, w, c.v4, a)))
                              != c.reverse)
  {
    var c := t[e];
    assert RankedAt(t, RankOf(t), e);
    ConnectiveAsks(t, w, e, x, m, y, a);
    assert c.v1 in Refs(c) && (c.cond != NOT ==> c.v2 in Refs(c));
    if c.cond != NOT { assert (c.v3 != 0 ==> c.v3 in Refs(c)) && (c.v4 != 0 ==> c.v4 in Refs(c)); }
  }

  lemma ConnectiveAsks(t: Table, w: World, e: nat, x: Ref, m: Option<nat>, y: Ref, a: Args)
    requires Sound(t) && e in t && t[e].cond in {NOT, OR, AND} && Sees(t[e], x, m, y, a)
    ensures RefsAreThere(t, Refs(t[e]))
    ensures var some := SomeRef(t, w, Refs(t[e]), a, Settles(t[e].cond));
            Truth(t, w, e, Args(x, m, y)) == ((some == Settles(t[e].cond)) != (t[e].reverse != (t[e].cond == NOT)))
  {
    var c := t[e];
    assert RankedAt(t, RankOf(t), e);
    CombinationMeans(t, w, e, x, m, y, a);
    forall r | r in Refs(c) ensures Call(r, a) in Calls(w, c, a) { RefIsAsked(w, c, a, r); }
    forall call | call in Calls(w, c, a) ensures call.entry in Refs(c) && call.args == a { AskedIsRef(w, c, a, call); }
  }

  ghost predicate RefsAreThere(t: Table, refs: set<nat>) { forall r :: r in refs ==> r in t }

  ghost predicate SomeRef(t: Table, w: World, refs: set<nat>, a: Args, settles: bool)
    requires Sound(t) && RefsAreThere(t, refs)
  {
    exists r :: r in refs && Truth(t, w, r, a) == settles
  }

  lemma RefIsAsked(w: World, c: Entry, a: Args, r: nat)
    requires c.cond in {NOT, OR, AND} && r in Refs(c)
    ensures Call(r, a) in Calls(w, c, a)
  {
  }

  lemma AskedIsRef(w: World, c: Entry, a: Args, call: Call)
    requires c.cond in {NOT, OR, AND} && call in Calls(w, c, a)
    ensures call.entry in Refs(c) && call.args == a
  {
  }

  /** The map an entry looks at: the one given, or else that of the source, or else that of the target. */
  ghost predicate LooksAt(w: World, a: Args, map': nat) {
    if a.mapId.Some? then map' == a.mapId.value
    else if a.source.Some? then map' == w.mapOf(a.source.value)
    else a.target.Some? && map' == w.mapOf(a.target.value)
  }

  /** An entry about the targets of a scripted event is about every one that still exists (about none when
      the event is not there), and one about a game object holds only when the object is there. */
  lemma RedirectionsMean(t: Table, w: World, e: nat, x: Ref, m: Option<nat>, y: Ref, a: Args, map': nat)
    requires Sound(t) && e in t && t[e].cond in {MAP_EVENT_TARGETS, OBJECT_FIT_CONDITION}
    requires Sees(t[e], x, m, y, a) && LooksAt(w, a, map')
    ensures t[e].v2 in t
    ensures
      t[e].cond == MAP_EVENT_TARGETS ==>
        var targets := w.eventTargets(map', t[e].v1);
        Truth(t, w, e, Args(x, m, y)) == (t[e].reverse != (targets.Some? ==>
          forall o :: o in targets.value && o.Some? ==> Truth(t, w, t[e].v2, Args(o, a.mapId, a.source))))
    ensures
      t[e].cond == OBJECT_FIT_CONDITION ==>
        var id := w.gameObject(map', t[e].v1);
        Truth(t, w, e, Args(x, m, y)) ==
        (t[e].reverse
         != (id.Some? && Truth(t, w, t[e].v2, Args(Some(Object(id.value, GameObject)), a.mapId, a.source))))
  {
    var c := t[e];
    assert RankedAt(t, RankOf(t), e) && c.v2 in Refs(c);
    CombinationMeans(t, w, e, x, m, y, a);
    if c.cond == MAP_EVENT_TARGETS {
      var targets := w.eventTargets(map', c.v1);
      if targets.Some? {
        EachIsAbout(c.v2, targets.value, a);
        forall o | o in targets.value && o.Some?
          ensures Call(c.v2, Args(o, a.mapId, a.source)) in Calls(w, c, a)
        {
        }
      }
    }
  }

  // ----- Loading -----

  datatype Verdict = Fine | Wrong | NotYet

  /** What the rest of the world database says: about the values of an entry of a kind that refers to no
      other (NotYet for content of a later patch), about game object guids and about field numbers. */
  datatype Content = Content(verdict: Entry -> Verdict, guidExists: nat -> bool, field: nat -> nat)

  /** The kinds that are switched off, not dropped, when their content is not there yet. */
  predicate CanBeNotYet(cond: int) { cond in {1, 2, 3, 8, 9, 16, 17, 19, 20, 21, 22, 23} }

  /** The kinds whose values are not looked at. */
  predicate IsUnchecked(cond: int) { cond in {10, 13, 18, 25, 26, 28, 34, 35, 36, 37, 39, 40, 43, 44, 45, 46, 48} }

  /** A switched off entry is always met, and its flag turned round. */
  function Disable(c: Entry): Entry { c.(cond := NONE, reverse := !c.reverse) }

  /** Whether an entry is kept, and how it is rewritten. */
  function IsValid(t: Table, e: nat, k: Content): (r: (bool, Entry))
    requires e in t
  {
    var c := t[e];
    if c.cond == NOT then (c.v1 < e && c.v1 in t, c)
    else if c.cond == OR || c.cond == AND then
      (c.v1 < e && c.v2 < e && c.v1 in t && c.v2 in t
       && (c.v3 != 0 ==> c.v3 < e && c.v3 in t) && (c.v4 != 0 ==> c.v4 < e && c.v4 in t), c)
    else if c.cond == NONE then (true, c)
    else if c.cond == MAP_EVENT_TARGETS then (c.v2 in t, c)
    else if c.cond == OBJECT_FIT_CONDITION then (k.guidExists(c.v1) && c.v2 in t, c)
    else if c.cond == HAS_FLAG then (true, c.(v1 := k.field(c.v1)))
    else if IsUnchecked(c.cond) then (true, c)
    else if !Listed(c.cond) then (false, c)
    else match k.verdict(c)
      case Fine => (true, c)
      case Wrong => (false, c)
      case NotYet => if CanBeNotYet(c.cond) then (true, Disable(c)) else (true, c)
  }

  function LoadEntry(t: Table, e: nat, k: Content): Table {
    if e !in t then t
    else
      var (keep, c) := IsValid(t, e, k);
      if keep then t[e := c] else t - {e}
  }

  /** The table after the entries below n have been checked, in order. */
  function Loaded(raw: Table, n: nat, k: Content): Table {
    if n == 0 then raw else LoadEntry(Loaded(raw, n - 1, k), n - 1, k)
  }

  method LoadConditions(raw: Table, maxEntry: nat, k: Content) returns (t: Table)
    requires forall e :: e in raw ==> e < maxEntry
    ensures t == Loaded(raw, maxEntry, k)
    ensures t.Keys <= raw.Keys
    ensures Sound(t) <==>
              (forall e :: e in t && Redirects(t[e]) ==> t[e].v2 in t) && (forall circle :: !Circle(t, circle))
    ensures (forall e :: e in raw && Redirects(raw[e]) ==> raw[e].v2 < e) ==> Sound(t)
  {
    t := raw;
    for i := 0 to maxEntry
      invariant t == Loaded(raw, i, k)
    {
      if i in t {
        var (keep, c) := IsValid(t, i, k);
        t := t[i := c];
        if !keep { t := t - {i}; }
        assert t == LoadEntry(Loaded(raw, i, k), i, k);
      }
    }
    LoadedResolves(raw, maxEntry, k);
    CheckedIsComplete(raw, t, maxEntry);
    SoundExactly(t);
    if forall e :: e in raw && Redirects(raw[e]) ==> raw[e].v2 < e { BackwardIsSound(t); }
  }

  predicate Redirects(c: Entry) { c.cond == MAP_EVENT_TARGETS || c.cond == OBJECT_FIT_CONDITION }

  /** What checking has reached: entries from n on are as they were; below n every kind is known, and
      references are to entries before that are kept - only redirections may also refer to an entry behind
      themselves, which may have been dropped since. */
  ghost predicate Checked(raw: Table, t: Table, n: nat) {
    && (forall e :: e in t ==> e in raw)
    && (forall e :: e in raw && e >= n ==> e in t && t[e] == raw[e])
    && (forall e :: e in t && e < n ==> Resolved(t, e, t[e]) && (Redirects(t[e]) ==> t[e] == raw[e]))
  }

  ghost predicate Resolved(t: Table, e: nat, c: Entry) {
    Listed(c.cond) && forall r :: r in Refs(c) ==> if Redirects(c) then r in t || r > e else r in t && r < e
  }

  lemma ValidIsResolved(t: Table, e: nat, k: Content)
    requires e in t && IsValid(t, e, k).0
    ensures Resolved(t, e, IsValid(t, e, k).1)
    ensures Redirects(IsValid(t, e, k).1) ==> IsValid(t, e, k).1 == t[e]
  {
  }

  lemma CheckedOneMore(raw: Table, t: Table, e: nat, k: Content)
    requires Checked(raw, t, e)
    ensures Checked(raw, LoadEntry(t, e, k), e + 1)
  {
    if e in t {
      var t' := LoadEntry(t, e, k);
      var (keep, c) := IsValid(t, e, k);
      if keep { ValidIsResolved(t, e, k); }
      forall x | x in t' && x < e + 1 ensures Resolved(t', x, t'[x]) {
        assert if x == e then t'[x] == c && Resolved(t, e, c) else t'[x] == t[x] && Resolved(t, x, t[x]);
      }
    }
  }

  lemma {:induction false} LoadedResolves(raw: Table, n: nat, k: Content)
    ensures Checked(raw, Loaded(raw, n, k), n)
  {
    if n > 0 {
      LoadedResolves(raw, n - 1, k);
      CheckedOneMore(raw, Loaded(raw, n - 1, k), n - 1, k);
    }
  }

  /** Only redirections may miss what they refer to. */
  lemma CheckedIsComplete(raw: Table, t: Table, n: nat)
    requires Checked(raw, t, n) && forall e :: e in t ==> e < n
    ensures Complete(t) <==> forall e :: e in t && Redirects(t[e]) ==> t[e].v2 in t
    ensures forall e, r :: e in t && r in Refs(t[e]) && !Redirects(t[e]) ==> r < e
    ensures (forall e :: e in raw && Redirects(raw[e]) ==> raw[e].v2 < e) ==>
              Complete(t) && forall e, r :: e in t && r in Refs(t[e]) ==> r < e
  {
    forall e | e in t ensures Resolved(t, e, t[e]) && (Redirects(t[e]) ==> Refs(t[e]) == {t[e].v2} && t[e] == raw[e]) {
      assert e in raw;
    }
  }

  /** Whether the entry referred to is there when an entry is checked: those before have been, those behind have not. */
  predicate IsThere(raw: Table, t: Table, e: nat, r: nat) { if r < e then r in t else r in raw }

  /** What is kept, seen from the table as it ends up. */
  ghost predicate Keeps(raw: Table, t: Table, e: nat, c: Entry, k: Content) {
    match c.cond
    case -3 => c.v1 < e && c.v1 in t
    case -2 => KeepsBoth(t, e, c)
    case -1 => KeepsBoth(t, e, c)
    case 47 => IsThere(raw, t, e, c.v2)
    case 50 => k.guidExists(c.v1) && IsThere(raw, t, e, c.v2)
    case _ =>
      && -3 <= c.cond <= 54
      && (c.cond in {0, 10, 13, 18, 25, 26, 28, 31, 34, 35, 36, 37, 39, 40, 43, 44, 45, 46, 48} ||
          k.verdict(c) != Wrong)
  }

  ghost predicate KeepsBoth(t: Table, e: nat, c: Entry) {
    forall r :: r in [c.v1, c.v2] || (r != 0 && r in [c.v3, c.v4]) ==> r < e && r in t
  }

  /** And how: the number of a field is put into that of the build, and what is to come in a later patch is
      switched off; all else stays as it is. */
  predicate KeptAs(c: Entry, k: Content, kept: Entry) {
    if c.cond == 31 then kept == c.(v1 := k.field(c.v1))
    else if c.cond in {1, 2, 3, 8, 9, 16, 17, 19, 20, 21, 22, 23} && k.verdict(c) == NotYet then
      kept == c.(cond := 0, reverse := !c.reverse)
    else kept == c
  }

  lemma ValidExactly(raw: Table, before: Table, t: Table, e: nat, k: Content)
    requires e in raw && e in before && before[e] == raw[e] && SameThere(raw, before, t, e)
    ensures IsValid(before, e, k).0 <==> Keeps(raw, t, e, raw[e], k)
    ensures KeptAs(raw[e], k, IsValid(before, e, k).1)
  {
    var c := raw[e];
    assert c.v1 in [c.v1, c.v2] && c.v2 in [c.v1, c.v2] && c.v3 in [c.v3, c.v4] && c.v4 in [c.v3, c.v4];
  }

  /** When an entry is checked those before are as they end up, and those behind as they were. */
  ghost predicate SameThere(raw: Table, before: Table, t: Table, e: nat) {
    forall r: nat :: if r < e then r in before <==> r in t else r in before <==> r in raw
  }

  /** Which entries are in the loaded table, and what has become of them. */
  lemma LoadedExactly(raw: Table, n: nat, k: Content, e: nat)
    requires e < n
    ensures var t := Loaded(raw, n, k);
            && (e in t <==> e in raw && Keeps(raw, t, e, raw[e], k))
            && (e in t ==> KeptAs(raw[e], k, t[e]))
  {
    var t, before := Loaded(raw, n, k), Loaded(raw, e, k);
    LoadedResolves(raw, e, k);
    LaterChecksKeep(raw, e + 1, n, k, e);
    forall r: nat ensures if r < e then r in before <==> r in t else r in before <==> r in raw {
      if r < e { LaterChecksKeep(raw, e, n, k, r); }
    }
    if e in raw { ValidExactly(raw, before, t, e, k); }
  }

  /** Content of a later patch: the condition counts as not met. */
  lemma DisabledIsUnmet(fuel: nat, t: Table, w: World, e: nat, args: Args, c: Entry)
    requires fuel > 0 && e in t && t[e] == Disable(c)
    ensures Meets(fuel, t, w, e, args) == Val(c.reverse)
  {
  }

  // ----- Where loading lets a circle pass -----

  /** Entries that ask each other about game objects that are all there: none ever has a value. */
  lemma {:induction false} CircleNeverAnswers(fuel: nat, t: Table, w: World, circle: set<nat>, m: nat, e: nat,
                                              args: Args)
    requires e in circle && args.mapId == Some(m)
    requires forall x :: x in circle ==> x in t && t[x].cond == OBJECT_FIT_CONDITION && t[x].v2 in circle
    requires forall x :: x in circle ==> w.gameObject(m, t[x].v1).Some?
    ensures Meets(fuel, t, w, e, args) == OutOfFuel
  {
    if fuel > 0 {
      var c, a := t[e], Given(t, e, args);
      var next := Args(Some(Object(w.gameObject(m, c.v1).value, GameObject)), a.mapId, a.source);
      CircleNeverAnswers(fuel - 1, t, w, circle, m, c.v2, next);
      assert Calls(w, c, a) == [Call(c.v2, next)];
      assert Ask(fuel, t, w, Calls(w, c, a), true) == OutOfFuel;
    }
  }

  /** An entry about a game object that refers to itself is kept by loading. Asked on a map, it has a value
      exactly when the object is not there. */
  lemma SelfReference(t: Table, w: World, k: Content, e: nat, m: nat, args: Args)
    requires e in t && t[e].cond == OBJECT_FIT_CONDITION && t[e].v2 == e && args.mapId == Some(m)
    ensures k.guidExists(t[e].v1) ==> IsValid(t, e, k) == (true, t[e])
    ensures (exists fuel :: Meets(fuel, t, w, e, args) != OutOfFuel) <==> w.gameObject(m, t[e].v1).None?
  {
    if w.gameObject(m, t[e].v1).Some? {
      forall fuel ensures Meets(fuel, t, w, e, args) == OutOfFuel {
        CircleNeverAnswers(fuel, t, w, {e}, m, e, args);
      }
    } else {
      assert Calls(w, t[e], Given(t, e, args)) == [];
      assert Meets(1, t, w, e, args) == Val(t[e].reverse);
    }
  }

  /** A redirection whose target is not there looks it up in vain exactly when it asks at all: when its event, or its
      game object, is there - and some target of the event still exists. Otherwise it has a value. */
  lemma MissingTargetFaults(fuel: nat, t: Table, w: World, e: nat, args: Args)
    requires fuel >= 2 && e in t && Redirects(t[e]) && t[e].v2 !in t
    ensures var c, a := t[e], Given(t, e, args);
            if !CheckParamRequirements(c.cond, a) then Meets(fuel, t, w, e, args) == Val(false)
            else if Asks(w, c, a) then Meets(fuel, t, w, e, args) == Fault
            else Meets(fuel, t, w, e, args) == Val((c.cond == MAP_EVENT_TARGETS) != c.reverse)
  {
    var c, a := t[e], Given(t, e, args);
    if CheckParamRequirements(c.cond, a) {
      RequirementsAreExact(c.cond, a);
      CallsAreRefs(w, c, a);
      assert Asks(w, c, a) <==> Calls(w, c, a) != [] by {
        if c.cond == MAP_EVENT_TARGETS && w.eventTargets(MapFor(w, a), c.v1).Some? {
          AsksAboutEach(c.v2, w.eventTargets(MapFor(w, a), c.v1).value, a);
        }
      }
      var calls := Calls(w, c, a);
      if calls != [] {
        assert calls[0] in calls && calls[0].entry == c.v2;
        assert Meets(fuel - 1, t, w, c.v2, calls[0].args) == Fault;
      }
      assert Ask(fuel, t, w, calls, Settles(c.cond)) == if calls != [] then Fault else Val(!Settles(c.cond));
    }
  }

  /** Whether a redirection asks its target about anything. */
  predicate Asks(w: World, c: Entry, a: Args)
    requires Redirects(c) && Safe(MAP_EVENT_TARGETS, a)
  {
    if c.cond == OBJECT_FIT_CONDITION then w.gameObject(MapFor(w, a), c.v1).Some?
    else
      var targets := w.eventTargets(MapFor(w, a), c.v1);
      targets.Some? && exists o :: o in targets.value && o.Some?
  }

  lemma {:induction false} AsksAboutEach(entry: nat, targets: seq<Ref>, a: Args)
    ensures AboutEach(entry, targets, a) != [] <==> exists o :: o in targets && o.Some?
  {
    if targets != [] {
      AsksAboutEach(entry, targets[1..], a);
      assert targets == [targets[0]] + targets[1..];
    }
  }

  /** Loading keeps such a redirection exactly when its target stood behind it and was dropped afterwards. */
  lemma MissingTargetIsKept(raw: Table, n: nat, k: Content, e: nat)
    requires e in raw && e < n && Redirects(raw[e])
    ensures var t := Loaded(raw, n, k);
            e in t && t[e].v2 !in t <==>
            && raw[e].v2 > e && raw[e].v2 in raw && raw[e].v2 !in t
            && (raw[e].cond == OBJECT_FIT_CONDITION ==> k.guidExists(raw[e].v1))
  {
    LoadedResolves(raw, e, k);
    LoadedResolves(raw, n, k);
    LaterChecksKeep(raw, e + 1, n, k, e);
    var before := Loaded(raw, e, k);
    assert before[e] == raw[e];
    if raw[e].v2 < e { LaterChecksKeep(raw, e, n, k, raw[e].v2); }
    if raw[e].v2 == e { assert e in before; }
  }

  /** An entry that has been checked is not touched again. */
  lemma {:induction false} LaterChecksKeep(raw: Table, m: nat, n: nat, k: Content, e: nat)
    requires e < m <= n
    ensures e in Loaded(raw, n, k) <==> e in Loaded(raw, m, k)
    ensures e in Loaded(raw, n, k) ==> Loaded(raw, n, k)[e] == Loaded(raw, m, k)[e]
    decreases n
  {
    if m < n { LaterChecksKeep(raw, m, n - 1, k, e); }
  }
}
