/** Loot: rolling the items of a corpse from templates that may refer to each other, and the lists
    of what each looter may take, which share one counter of things not yet taken. */
module Loot {

  import opened Wrappers

  type uint8 = x: int | 0 <= x < 256

  /** An eight-bit counter raised n times. */
  function Bump(c: uint8, n: nat): uint8
    decreases n
  {
    if n == 0 then c else Inc(Bump(c, n - 1))
  }

  function Inc(c: uint8): uint8 { if c == 255 then 0 else c + 1 }

  lemma {:induction false} BumpWraps(n: nat)
    ensures Bump(0, n) == n % 256
    decreases n
  {
    if n > 0 { BumpWraps(n - 1); }
  }

  lemma {:induction false} BumpAdds(c: uint8, m: nat, n: nat)
    ensures Bump(Bump(c, m), n) == Bump(c, m + n)
    decreases n
  {
    if n > 0 { BumpAdds(c, m, n - 1); }
  }

  const MAX_NR_LOOT_ITEMS := 16
  const MAX_NR_QUEST_ITEMS := 32

  // ----- Items in a loot -----

  /** What an item is, as opposed to what has happened to it in this loot. */
  datatype Kind = Kind(itemid: nat, conditionId: nat, needsQuest: bool, freeforall: bool)

  datatype LootItem = LootItem(kind: Kind, looted: bool, blocked: bool, counted: bool)

  /** An entry in a player's own list: position of the item, and whether this player took it. */
  datatype QuestItem = QuestItem(index: nat, looted: bool)

  /** What the loot asks its surroundings: who may see an item, who is in the world, which items
      everybody gets a copy of, which store entries suit the team, the rate an entry's chance is multiplied by. */
  datatype Env = Env(allowed: (nat, Kind) -> bool, inWorld: set<nat>, partyLoot: set<nat>,
                     suitsTeam: StoreItem -> bool, crossFaction: bool, rate: StoreItem -> real)

  datatype State = State(items: seq<LootItem>, questItems: seq<LootItem>,
                         playerQuest: map<nat, seq<QuestItem>>, playerFFA: map<nat, seq<QuestItem>>,
                         playerConditional: map<nat, seq<QuestItem>>, unlootedCount: uint8)

  function Kinds(items: seq<LootItem>): (r: seq<Kind>)
    ensures |r| == |items| && forall i :: 0 <= i < |r| ==> r[i] == items[i].kind
  {
    seq(|items|, i requires 0 <= i < |items| => items[i].kind)
  }

  predicate Plain(k: Kind) { k.conditionId == 0 && !k.freeforall }

  predicate Conditional(k: Kind) { k.conditionId != 0 && !k.freeforall }

  /** Every item is of one of three sorts: everybody gets a copy of it, or it has a condition, or neither. */
  lemma SortsApart(k: Kind)
    ensures Plain(k) != (Conditional(k) || k.freeforall) && !(Conditional(k) && k.freeforall)
    ensures !k.freeforall ==> (Plain(k) <==> k.conditionId == 0)
  {
  }

  // ----- What one player is offered -----

  /** Items everybody gets a copy of, among the first n. */
  function FFAIndexes(env: Env, kinds: seq<Kind>, p: nat, n: nat): seq<nat>
    requires n <= |kinds|
  {
    if n == 0 then []
    else
      var before := FFAIndexes(env, kinds, p, n - 1);
      if kinds[n - 1].freeforall && env.allowed(p, kinds[n - 1]) then before + [n - 1] else before
  }

  function ConditionalIndexes(env: Env, kinds: seq<Kind>, p: nat, n: nat): seq<nat>
    requires n <= |kinds|
  {
    if n == 0 then []
    else
      var before := ConditionalIndexes(env, kinds, p, n - 1);
      if Conditional(kinds[n - 1]) && env.allowed(p, kinds[n - 1]) then before + [n - 1] else before
  }

  /** Quest items, as long as the client can show them beside `size` normal ones. */
  function QuestIndexes(env: Env, size: nat, kinds: seq<Kind>, p: nat, n: nat): seq<nat>
    requires n <= |kinds|
  {
    if n == 0 then []
    else
      var before := QuestIndexes(env, size, kinds, p, n - 1);
      if size + |before| < MAX_NR_LOOT_ITEMS && env.allowed(p, kinds[n - 1]) then before + [n - 1] else before
  }

  predicate Increasing(s: seq<nat>, bound: nat) {
    && (forall i :: 0 <= i < |s| ==> s[i] < bound)
    && (forall i, j :: 0 <= i < j < |s| ==> s[i] < s[j])
  }

  lemma {:induction false} IndexesIncrease(env: Env, size: nat, kinds: seq<Kind>, p: nat, n: nat)
    requires n <= |kinds|
    ensures Increasing(FFAIndexes(env, kinds, p, n), n)
    ensures Increasing(ConditionalIndexes(env, kinds, p, n), n)
    ensures Increasing(QuestIndexes(env, size, kinds, p, n), n)
    ensures size <= MAX_NR_LOOT_ITEMS ==> size + |QuestIndexes(env, size, kinds, p, n)| <= MAX_NR_LOOT_ITEMS
  {
    if n > 0 {
      IndexesIncrease(env, size, kinds, p, n - 1);
      AppendIncreases(FFAIndexes(env, kinds, p, n - 1), n - 1);
      AppendIncreases(ConditionalIndexes(env, kinds, p, n - 1), n - 1);
      AppendIncreases(QuestIndexes(env, size, kinds, p, n - 1), n - 1);
    }
  }

  lemma NotYetListed(env: Env, size: nat, kinds: seq<Kind>, p: nat, n: nat)
    requires n <= |kinds|
    ensures n !in FFAIndexes(env, kinds, p, n) && n !in ConditionalIndexes(env, kinds, p, n)
    ensures n !in QuestIndexes(env, size, kinds, p, n)
  {
    IndexesIncrease(env, size, kinds, p, n);
  }

  lemma AppendIncreases(s: seq<nat>, n: nat)
    requires Increasing(s, n)
    ensures Increasing(s, n + 1) && Increasing(s + [n], n + 1)
  {
  }

  lemma IndexesExactly(env: Env, kinds: seq<Kind>, p: nat, n: nat, i: nat)
    requires n <= |kinds|
    ensures i in FFAIndexes(env, kinds, p, n) <==> i < n && kinds[i].freeforall && env.allowed(p, kinds[i])
    ensures i in ConditionalIndexes(env, kinds, p, n) <==> i < n && Conditional(kinds[i]) && env.allowed(p, kinds[i])
  {
  }

  /** The quest items shown are the first allowed ones, and one is left out only when there is no room. */
  lemma QuestIndexesExactly(env: Env, size: nat, kinds: seq<Kind>, p: nat, n: nat, i: nat)
    requires n <= |kinds|
    ensures i in QuestIndexes(env, size, kinds, p, n) ==> i < n && env.allowed(p, kinds[i])
    ensures i < n && env.allowed(p, kinds[i]) && i !in QuestIndexes(env, size, kinds, p, n) ==>
              size + |QuestIndexes(env, size, kinds, p, n)| >= MAX_NR_LOOT_ITEMS
              && forall j :: j in QuestIndexes(env, size, kinds, p, n) ==> j < i
  {
    if n > 0 { IndexesIncrease(env, size, kinds, p, n - 1); }
  }

  function Marked(s: seq<nat>): (r: seq<QuestItem>)
    ensures |r| == |s| && forall i :: 0 <= i < |r| ==> r[i] == QuestItem(s[i], false)
  {
    seq(|s|, i requires 0 <= i < |s| => QuestItem(s[i], false))
  }

  function Indexes(list: seq<QuestItem>): set<nat> { set q | q in list :: q.index }

  // ----- The takes that are possible -----

  /** One thing that can be taken: once by anybody, or once by each player listed. */
  datatype Take = Shared(i: nat) | Ffa(p: nat, i: nat) | QuestEach(p: nat, i: nat) | QuestOnce(i: nat)
    | ConditionalOnce(i: nat)

  predicate Listed(m: map<nat, seq<QuestItem>>, i: nat) {
    exists p :: p in m && i in Indexes(m[p])
  }

  predicate IsTake(s: State, t: Take) {
    match t
    case Shared(i) => i < |s.items| && Plain(s.items[i].kind)
    case Ffa(p, i) => p in s.playerFFA && i in Indexes(s.playerFFA[p])
    case QuestEach(p, i) =>
      i < |s.questItems| && s.questItems[i].kind.freeforall && p in s.playerQuest && i in Indexes(s.playerQuest[p])
    case QuestOnce(i) => i < |s.questItems| && !s.questItems[i].kind.freeforall && Listed(s.playerQuest, i)
    case ConditionalOnce(i) => Listed(s.playerConditional, i)
  }

  /** The set of everything that can be taken. */
  ghost predicate AllTakes(s: State, takes: set<Take>) {
    forall t :: t in takes <==> IsTake(s, t)
  }

  /** An entry of a template: an item, or (reference below zero) another template. */
  datatype StoreItem = StoreItem(itemid: nat, chance: real, mincountOrRef: int, group: nat, needsQuest: bool,
                                 maxcount: nat, conditionId: nat)

  // ----- What one player's lists add -----

  function FfaGain(p: nat, idx: seq<nat>): set<Take> { set i | i in idx :: Ffa(p, i) }

  function QuestTake(k: Kind, p: nat, i: nat): Take { if k.freeforall then QuestEach(p, i) else QuestOnce(i) }

  function QuestGain(quest: seq<LootItem>, p: nat, idx: seq<nat>): set<Take> {
    set i | i in idx && i < |quest| && (quest[i].kind.freeforall || !quest[i].blocked) :: QuestTake(quest[i].kind, p, i)
  }

  function ConditionalGain(items: seq<LootItem>, idx: seq<nat>): set<Take> {
    set i | i in idx && i < |items| && !items[i].counted :: ConditionalOnce(i)
  }

  /** The loot with the given positions blocked, or counted. */
  function Block(items: seq<LootItem>, idx: seq<nat>): (r: seq<LootItem>)
    ensures |r| == |items| && Kinds(r) == Kinds(items)
    ensures forall i :: 0 <= i < |r| ==> r[i] == items[i].(blocked := items[i].blocked || i in idx)
  {
    seq(|items|, i requires 0 <= i < |items| => items[i].(blocked := items[i].blocked || i in idx))
  }

  function Count(items: seq<LootItem>, idx: seq<nat>): (r: seq<LootItem>)
    ensures |r| == |items| && Kinds(r) == Kinds(items)
    ensures forall i :: 0 <= i < |r| ==> r[i] == items[i].(counted := items[i].counted || i in idx)
  {
    seq(|items|, i requires 0 <= i < |items| => items[i].(counted := items[i].counted || i in idx))
  }

  /** The items after looking at the first n for one player, that player's list, and how often the
      counter went up. */
  datatype Walk = Walk(items: seq<LootItem>, list: seq<QuestItem>, added: nat)

  function FFAWalk(env: Env, items: seq<LootItem>, p: nat, n: nat): Walk
    requires n <= |items|
  {
    if n == 0 then Walk(items, [], 0)
    else
      var w := FFAWalk(env, items, p, n - 1);
      if items[n - 1].kind.freeforall && env.allowed(p, items[n - 1].kind)
      then w.(list := w.list + [QuestItem(n - 1, false)], added := w.added + 1)
      else w
  }

  function ConditionalWalk(env: Env, items: seq<LootItem>, p: nat, n: nat): (w: Walk)
    requires n <= |items|
    ensures |w.items| == |items|
  {
    if n == 0 then Walk(items, [], 0)
    else
      var w := ConditionalWalk(env, items, p, n - 1);
      var item := w.items[n - 1];
      if Conditional(item.kind) && env.allowed(p, item.kind)
      then Walk(w.items[n - 1 := item.(counted := true)], w.list + [QuestItem(n - 1, false)],
                w.added + if item.counted then 0 else 1)
      else w
  }

  function QuestWalk(env: Env, size: nat, items: seq<LootItem>, p: nat, n: nat): (w: Walk)
    requires n <= |items|
    ensures |w.items| == |items|
  {
    if n == 0 then Walk(items, [], 0)
    else
      var w := QuestWalk(env, size, items, p, n - 1);
      var item := w.items[n - 1];
      if size + |w.list| < MAX_NR_LOOT_ITEMS && env.allowed(p, item.kind)
      then Walk(w.items[n - 1 := item.(blocked := true)], w.list + [QuestItem(n - 1, false)],
                w.added + if item.kind.freeforall || !item.blocked then 1 else 0)
      else w
  }

  lemma {:induction false} FFAWalkExact(env: Env, items: seq<LootItem>, p: nat, n: nat)
    requires n <= |items|
    ensures FFAWalk(env, items, p, n) == FFAFound(items, p, FFAIndexes(env, Kinds(items), p, n))
  {
    if n > 0 {
      FFAWalkExact(env, items, p, n - 1);
      var idx, kind := FFAIndexes(env, Kinds(items), p, n - 1), items[n - 1].kind;
      assert n - 1 !in idx by { NotYetListed(env, 0, Kinds(items), p, n - 1); }
      FFAStep(items, p, idx, n - 1);
      var idx' := if kind.freeforall && env.allowed(p, kind) then idx + [n - 1] else idx;
      assert FFAIndexes(env, Kinds(items), p, n) == idx' by { assert Kinds(items)[n - 1] == kind; }
      assert FFAWalk(env, items, p, n) == FFAFound(items, p, idx');
    }
  }

  function FFAFound(items: seq<LootItem>, p: nat, idx: seq<nat>): Walk { Walk(items, Marked(idx), |FfaGain(p, idx)|) }

  lemma FFAStep(items: seq<LootItem>, p: nat, idx: seq<nat>, i: nat)
    requires i !in idx
    ensures var w := FFAFound(items, p, idx);
            FFAFound(items, p, idx + [i]) == w.(list := w.list + [QuestItem(i, false)], added := w.added + 1)
  {
    MarkedStep(idx, i);
    FfaGainStep(p, idx, i);
  }

  lemma FfaGainStep(p: nat, idx: seq<nat>, i: nat)
    requires i !in idx
    ensures |FfaGain(p, idx + [i])| == |FfaGain(p, idx)| + 1
  {
    assert Ffa(p, i) !in FfaGain(p, idx);
    assert FfaGain(p, idx + [i]) == FfaGain(p, idx) + {Ffa(p, i)};
  }

  lemma {:induction false} ConditionalWalkExact(env: Env, items: seq<LootItem>, p: nat, n: nat)
    requires n <= |items|
    ensures ConditionalWalk(env, items, p, n) == ConditionalFound(items, ConditionalIndexes(env, Kinds(items), p, n))
  {
    if n == 0 {
      assert Count(items, []) == items && ConditionalGain(items, []) == {};
    } else {
      ConditionalWalkExact(env, items, p, n - 1);
      var idx, kind := ConditionalIndexes(env, Kinds(items), p, n - 1), items[n - 1].kind;
      assert n - 1 !in idx by { NotYetListed(env, 0, Kinds(items), p, n - 1); }
      ConditionalStep(items, idx, n - 1);
      var idx' := if Conditional(kind) && env.allowed(p, kind) then idx + [n - 1] else idx;
      assert ConditionalIndexes(env, Kinds(items), p, n) == idx' by { assert Kinds(items)[n - 1] == kind; }
      assert ConditionalWalk(env, items, p, n) == ConditionalFound(items, idx');
    }
  }

  /** What a walk that listed the given positions leaves. */
  function ConditionalFound(items: seq<LootItem>, idx: seq<nat>): Walk {
    Walk(Count(items, idx), Marked(idx), |ConditionalGain(items, idx)|)
  }

  lemma ConditionalStep(items: seq<LootItem>, idx: seq<nat>, i: nat)
    requires i < |items| && i !in idx
    ensures var w := ConditionalFound(items, idx);
            w.items[i] == items[i]
            && ConditionalFound(items, idx + [i]) ==
               Walk(w.items[i := items[i].(counted := true)], w.list + [QuestItem(i, false)],
                    w.added + if items[i].counted then 0 else 1)
  {
    MarkedStep(idx, i);
    CountStep(items, idx, i);
    ConditionalGainStep(items, idx, i);
  }

  lemma {:induction false} QuestWalkItems(env: Env, size: nat, items: seq<LootItem>, p: nat, n: nat)
    requires n <= |items|
    ensures var idx := QuestIndexes(env, size, Kinds(items), p, n);
            && QuestWalk(env, size, items, p, n).list == Marked(idx)
            && QuestWalk(env, size, items, p, n).items == Block(items, idx)
            && (n < |items| ==> QuestWalk(env, size, items, p, n).items[n] == items[n] && n !in idx)
  {
    if n == 0 {
      assert Block(items, []) == items;
    } else {
      QuestWalkItems(env, size, items, p, n - 1);
      var idx := QuestIndexes(env, size, Kinds(items), p, n - 1);
      MarkedStep(idx, n - 1);
      BlockStep(items, idx, n - 1);
      IndexesIncrease(env, size, Kinds(items), p, n);
    }
  }

  lemma {:induction false} QuestWalkAdded(env: Env, size: nat, items: seq<LootItem>, p: nat, n: nat)
    requires n <= |items|
    ensures QuestWalk(env, size, items, p, n).added
            == |QuestGain(items, p, QuestIndexes(env, size, Kinds(items), p, n))|
  {
    if n == 0 {
      assert QuestGain(items, p, []) == {};
    } else {
      QuestWalkAdded(env, size, items, p, n - 1);
      QuestWalkItems(env, size, items, p, n - 1);
      QuestGainStep(items, p, QuestIndexes(env, size, Kinds(items), p, n - 1), n - 1);
    }
  }

  lemma MarkedStep(idx: seq<nat>, i: nat)
    ensures Marked(idx + [i]) == Marked(idx) + [QuestItem(i, false)]
  {
  }

  lemma CountStep(was: seq<LootItem>, idx: seq<nat>, i: nat)
    requires i < |was| && i !in idx
    ensures Count(was, idx)[i] == was[i]
    ensures Count(was, idx + [i]) == Count(was, idx)[i := was[i].(counted := true)]
  {
  }

  lemma ConditionalGainStep(was: seq<LootItem>, idx: seq<nat>, i: nat)
    requires i < |was| && i !in idx
    ensures |ConditionalGain(was, idx + [i])| == |ConditionalGain(was, idx)| + if was[i].counted then 0 else 1
  {
    var take := if was[i].counted then {} else {ConditionalOnce(i)};
    assert ConditionalGain(was, idx + [i]) == ConditionalGain(was, idx) + take;
  }

  lemma BlockStep(was: seq<LootItem>, idx: seq<nat>, i: nat)
    requires i < |was| && i !in idx
    ensures Block(was, idx)[i] == was[i]
    ensures Block(was, idx + [i]) == Block(was, idx)[i := was[i].(blocked := true)]
  {
  }

  lemma QuestGainStep(was: seq<LootItem>, p: nat, idx: seq<nat>, i: nat)
    requires i < |was| && i !in idx
    ensures |QuestGain(was, p, idx + [i])|
            == |QuestGain(was, p, idx)| + if was[i].kind.freeforall || !was[i].blocked then 1 else 0
  {
    var take := if was[i].kind.freeforall || !was[i].blocked then {QuestTake(was[i].kind, p, i)} else {};
    assert QuestGain(was, p, idx + [i]) == QuestGain(was, p, idx) + take;
  }

  lemma QuestWalkStep(env: Env, size: nat, was: seq<LootItem>, p: nat, i: nat, items: seq<LootItem>,
                      list: seq<QuestItem>, added: nat)
    requires i < |was| && QuestWalk(env, size, was, p, i) == Walk(items, list, added)
    requires size + |list| < MAX_NR_LOOT_ITEMS
    ensures QuestWalk(env, size, was, p, i + 1) ==
            if env.allowed(p, items[i].kind)
            then Walk(items[i := items[i].(blocked := true)], list + [QuestItem(i, false)],
                      added + if items[i].kind.freeforall || !items[i].blocked then 1 else 0)
            else Walk(items, list, added)
  {
  }

  lemma {:induction false} QuestWalkFull(env: Env, size: nat, items: seq<LootItem>, p: nat, n: nat, m: nat)
    requires n <= m <= |items| && size + |QuestWalk(env, size, items, p, n).list| >= MAX_NR_LOOT_ITEMS
    ensures QuestWalk(env, size, items, p, m) == QuestWalk(env, size, items, p, n)
  {
    if n < m { QuestWalkFull(env, size, items, p, n, m - 1); }
  }

  /** Who gets an empty list changes nothing. */
  lemma {:induction false} FFAWalkIdle(env: Env, items: seq<LootItem>, p: nat, n: nat)
    requires n <= |items| && FFAWalk(env, items, p, n).list == []
    ensures FFAWalk(env, items, p, n) == Walk(items, [], 0)
  {
    if n > 0 { FFAWalkIdle(env, items, p, n - 1); }
  }

  lemma {:induction false} QuestWalkIdle(env: Env, size: nat, items: seq<LootItem>, p: nat, n: nat)
    requires n <= |items| && QuestWalk(env, size, items, p, n).list == []
    ensures QuestWalk(env, size, items, p, n) == Walk(items, [], 0)
  {
    if n > 0 { QuestWalkIdle(env, size, items, p, n - 1); }
  }

  lemma {:induction false} ConditionalWalkIdle(env: Env, items: seq<LootItem>, p: nat, n: nat)
    requires n <= |items| && ConditionalWalk(env, items, p, n).list == []
    ensures ConditionalWalk(env, items, p, n) == Walk(items, [], 0)
  {
    if n > 0 { ConditionalWalkIdle(env, items, p, n - 1); }
  }

  function FillFFA(env: Env, s: State, p: nat): State {
    var w := FFAWalk(env, s.items, p, |s.items|);
    if p !in env.inWorld || w.list == [] then s
    else s.(playerFFA := s.playerFFA[p := w.list], unlootedCount := Bump(s.unlootedCount, w.added))
  }

  function FillQuest(env: Env, s: State, p: nat): State {
    var w := QuestWalk(env, |s.items|, s.questItems, p, |s.questItems|);
    if p !in env.inWorld || w.list == [] then s
    else s.(playerQuest := s.playerQuest[p := w.list], questItems := w.items,
            unlootedCount := Bump(s.unlootedCount, w.added))
  }

  function FillConditional(env: Env, s: State, p: nat): State {
    var w := ConditionalWalk(env, s.items, p, |s.items|);
    if p !in env.inWorld || w.list == [] then s
    else s.(playerConditional := s.playerConditional[p := w.list], items := w.items,
            unlootedCount := Bump(s.unlootedCount, w.added))
  }

  function FillFor(env: Env, s: State, p: nat): State {
    var s1 := if p in s.playerQuest then s else FillQuest(env, s, p);
    var s2 := if p in s1.playerFFA then s1 else FillFFA(env, s1, p);
    if p in s2.playerConditional then s2 else FillConditional(env, s2, p)
  }

  function FillForAll(env: Env, s: State, players: seq<nat>): State {
    if players == [] then s else FillFor(env, FillForAll(env, s, players[..|players| - 1]), players[|players| - 1])
  }

  // ----- Templates -----

  datatype Group = Group(explicit: seq<StoreItem>, equal: seq<StoreItem>)

  /** Entries and references that are not grouped, and groups of which one item is rolled. */
  datatype Template = Template(entries: seq<StoreItem>, groups: seq<Group>)

  /** What a template refers to in a store has a lower rank. */
  ghost predicate Descends(store: map<nat, Template>, rank: map<nat, nat>, tpl: Template, bound: nat) {
    forall n :: 0 <= n < |tpl.entries| && tpl.entries[n].mincountOrRef < 0 && -tpl.entries[n].mincountOrRef in store ==>
      -tpl.entries[n].mincountOrRef in rank && rank[-tpl.entries[n].mincountOrRef] < bound
  }

  /** References lead downwards only, so following them comes to an end. */
  ghost predicate Acyclic(store: map<nat, Template>, rank: map<nat, nat>) {
    forall id :: id in store ==> id in rank && Descends(store, rank, store[id], rank[id])
  }

  function GroupItems(g: Group): set<StoreItem> {
    (set it | it in g.explicit) + (set it | it in g.equal)
  }

  function GroupsItems(groups: seq<Group>, n: nat): set<StoreItem>
    requires n <= |groups|
  {
    if n == 0 then {} else GroupsItems(groups, n - 1) + GroupItems(groups[n - 1])
  }

  /** Every item entry that can be reached from a template, directly or through references into a store. */
  ghost function Offers(store: map<nat, Template>, rank: map<nat, nat>, tpl: Template, bound: nat, group: nat)
    : set<StoreItem>
    requires Acyclic(store, rank) && Descends(store, rank, tpl, bound)
    decreases bound, 1, 0
  {
    if group != 0 then (if group > |tpl.groups| then {} else GroupItems(tpl.groups[group - 1]))
    else EntryOffers(store, rank, tpl, bound, |tpl.entries|) + GroupsItems(tpl.groups, |tpl.groups|)
  }

  ghost function EntryOffers(store: map<nat, Template>, rank: map<nat, nat>, tpl: Template, bound: nat, n: nat)
    : set<StoreItem>
    requires Acyclic(store, rank) && Descends(store, rank, tpl, bound) && n <= |tpl.entries|
    decreases bound, 0, n
  {
    if n == 0 then {}
    else
      var e := tpl.entries[n - 1];
      EntryOffers(store, rank, tpl, bound, n - 1)
      + if e.mincountOrRef >= 0 then {e} else RefOffers(store, rank, tpl, bound, n - 1)
  }

  /** What can be reached through one reference. */
  ghost function RefOffers(store: map<nat, Template>, rank: map<nat, nat>, tpl: Template, bound: nat, n: nat)
    : set<StoreItem>
    requires Acyclic(store, rank) && Descends(store, rank, tpl, bound)
    requires n < |tpl.entries| && tpl.entries[n].mincountOrRef < 0
    decreases bound, 0, n
  {
    var e := tpl.entries[n];
    var ref := -e.mincountOrRef;
    if ref in store then Offers(store, rank, store[ref], rank[ref], e.group) else {}
  }

  function NewItem(env: Env, it: StoreItem): LootItem {
    LootItem(Kind(it.itemid, it.conditionId, it.needsQuest, it.itemid in env.partyLoot), false, false, false)
  }

  function Add(env: Env, s: State, it: StoreItem): State {
    if it.needsQuest then
      if |s.questItems| < MAX_NR_QUEST_ITEMS then s.(questItems := s.questItems + [NewItem(env, it)]) else s
    else if |s.items| < MAX_NR_LOOT_ITEMS then
      s.(items := s.items + [NewItem(env, it)],
         unlootedCount := if Plain(NewItem(env, it).kind) then Inc(s.unlootedCount) else s.unlootedCount)
    else s
  }

  function AddAll(env: Env, s: State, added: seq<StoreItem>): State
    decreases |added|
  {
    if added == [] then s else Add(env, AddAll(env, s, added[..|added| - 1]), added[|added| - 1])
  }

  lemma AddAllOne(env: Env, s: State, it: StoreItem)
    ensures AddAll(env, s, [it]) == Add(env, s, it)
  {
    assert [it][..0] == [];
  }

  lemma {:induction false} AddAllAppend(env: Env, s: State, a: seq<StoreItem>, b: seq<StoreItem>)
    ensures AddAll(env, s, a + b) == AddAll(env, AddAll(env, s, a), b)
    decreases |b|
  {
    if b == [] {
      assert a + b == a;
    } else {
      assert (a + b)[..|a + b| - 1] == a + b[..|b| - 1];
      AddAllAppend(env, s, a, b[..|b| - 1]);
    }
  }

  /** The chances of the first entries that suit the team, added up. */
  function SuitedChance(env: Env, entries: seq<StoreItem>, n: nat): real
    requires n <= |entries|
  {
    if n == 0 then 0.0
    else SuitedChance(env, entries, n - 1) + if env.suitsTeam(entries[n - 1]) then entries[n - 1].chance else 0.0
  }

  /** The dice reach an entry: it suits the team, and its chance is certain or ends behind what was rolled. */
  predicate Hits(env: Env, entries: seq<StoreItem>, roll: real, i: nat)
    requires i < |entries|
  {
    env.suitsTeam(entries[i]) && (entries[i].chance >= 100.0 || roll < SuitedChance(env, entries, i + 1))
  }

  function Suited(env: Env, entries: seq<StoreItem>): (r: seq<StoreItem>)
    ensures forall it :: it in r <==> it in entries && env.suitsTeam(it)
  {
    if entries == [] then []
    else Suited(env, entries[..|entries| - 1])
         + if env.suitsTeam(entries[|entries| - 1]) then [entries[|entries| - 1]] else []
  }

  /** The equal entries one of which drops when no chanced one does. */
  function Eligible(env: Env, g: Group): seq<StoreItem> {
    if env.crossFaction || forall i :: 0 <= i < |g.equal| ==> g.equal[i].conditionId == 0 then g.equal
    else Suited(env, g.equal)
  }

  /** What a throw gives: a number of percent, and a choice among any number of things. */
  datatype Throw = Throw(percent: real, pick: nat)

  /** Everything that is thrown, in order. */
  type Dice = nat -> Throw

  /** What drops, and the number of the next throw. */
  datatype Drop = Drop(items: seq<StoreItem>, next: nat)

  /** The first of the entries from the i-th on that the dice reach. */
  function FirstHit(env: Env, entries: seq<StoreItem>, roll: real, i: nat): (r: Option<nat>)
    requires i <= |entries|
    decreases |entries| - i
  {
    if i == |entries| then None
    else if Hits(env, entries, roll, i) then Some(i) else FirstHit(env, entries, roll, i + 1)
  }

  /** What a group drops: chanced entries take one throw together, the choice among the equal ones another. */
  function DropGroup(env: Env, g: Group, dice: Dice, at: nat): Drop {
    var next := if g.explicit == [] then at else at + 1;
    match FirstHit(env, g.explicit, dice(at).percent, 0)
    case Some(i) => FirstHitExactly(env, g.explicit, dice(at).percent, 0); Drop([g.explicit[i]], next)
    case None =>
      var ok := Eligible(env, g);
      if ok == [] then Drop([], next) else Drop([ok[dice(next).pick % |ok|]], next + 1)
  }

  function DropGroups(env: Env, groups: seq<Group>, n: nat, dice: Dice, at: nat): Drop
    requires n <= |groups|
  {
    if n == 0 then Drop([], at)
    else
      var d := DropGroups(env, groups, n - 1, dice, at);
      var g := DropGroup(env, groups[n - 1], dice, d.next);
      Drop(d.items + g.items, g.next)
  }

  /** An entry drops when its chance is certain, or more than what is thrown for it. */
  predicate Lucky(env: Env, e: StoreItem, throw: Throw) {
    e.chance >= 100.0 || e.chance * env.rate(e) > throw.percent
  }

  function ThrowsFor(e: StoreItem): nat { if e.chance >= 100.0 then 0 else 1 }

  /** What a template drops, with references into a store. */
  ghost function Drops(env: Env, store: map<nat, Template>, rank: map<nat, nat>, tpl: Template, bound: nat, group: nat,
                       dice: Dice, at: nat): Drop
    requires Acyclic(store, rank) && Descends(store, rank, tpl, bound)
    decreases bound, 1, 0
  {
    if group != 0 then (if group > |tpl.groups| then Drop([], at) else DropGroup(env, tpl.groups[group - 1], dice, at))
    else
      var d := DropEntries(env, store, rank, tpl, bound, |tpl.entries|, dice, at);
      var g := DropGroups(env, tpl.groups, |tpl.groups|, dice, d.next);
      Drop(d.items + g.items, g.next)
  }

  ghost function DropEntries(env: Env, store: map<nat, Template>, rank: map<nat, nat>, tpl: Template, bound: nat,
                             n: nat, dice: Dice, at: nat): Drop
    requires Acyclic(store, rank) && Descends(store, rank, tpl, bound) && n <= |tpl.entries|
    decreases bound, 0, n + 1
  {
    if n == 0 then Drop([], at)
    else
      var d := DropEntries(env, store, rank, tpl, bound, n - 1, dice, at);
      var e := DropEntry(env, store, rank, tpl, bound, n - 1, dice, d.next);
      Drop(d.items + e.items, e.next)
  }

  ghost function DropEntry(env: Env, store: map<nat, Template>, rank: map<nat, nat>, tpl: Template, bound: nat, n: nat,
                           dice: Dice, at: nat): Drop
    requires Acyclic(store, rank) && Descends(store, rank, tpl, bound) && n < |tpl.entries|
    decreases bound, 0, 0
  {
    var e := tpl.entries[n];
    var next := at + ThrowsFor(e);
    if !Lucky(env, e, dice(at)) then Drop([], next)
    else if e.mincountOrRef >= 0 then Drop([e], next)
    else if -e.mincountOrRef in store then
      DropTimes(env, store, rank, -e.mincountOrRef, e.group, e.maxcount, dice, next)
    else Drop([], next)
  }

  ghost function DropTimes(env: Env, store: map<nat, Template>, rank: map<nat, nat>, ref: nat, group: nat, times: nat,
                           dice: Dice, at: nat): Drop
    requires Acyclic(store, rank) && ref in store
    decreases rank[ref], 2, times
  {
    if times == 0 then Drop([], at)
    else
      var d := DropTimes(env, store, rank, ref, group, times - 1, dice, at);
      var r := Drops(env, store, rank, store[ref], rank[ref], group, dice, d.next);
      Drop(d.items + r.items, r.next)
  }

  lemma {:induction false} FirstHitExactly(env: Env, entries: seq<StoreItem>, roll: real, i: nat)
    requires i <= |entries|
    ensures match FirstHit(env, entries, roll, i)
            case Some(k) => i <= k < |entries| && Hits(env, entries, roll, k)
                            && forall j :: i <= j < k ==> !Hits(env, entries, roll, j)
            case None => forall j :: i <= j < |entries| ==> !Hits(env, entries, roll, j)
    decreases |entries| - i
  {
    if i < |entries| && !Hits(env, entries, roll, i) { FirstHitExactly(env, entries, roll, i + 1); }
  }

  lemma {:induction false} FirstHitIs(env: Env, entries: seq<StoreItem>, roll: real, i: nat, k: nat)
    requires i <= k <= |entries| && forall j :: i <= j < k ==> !Hits(env, entries, roll, j)
    requires k < |entries| ==> Hits(env, entries, roll, k)
    ensures FirstHit(env, entries, roll, i) == if k < |entries| then Some(k) else None
    decreases k - i
  {
    if i < k { FirstHitIs(env, entries, roll, i + 1, k); }
  }

  /** A group drops the first explicitly chanced entry the dice reach; when they reach none, one of the equal ones:
      any of them, or, when some have conditions and the loot belongs to a team, one that suits it. It drops nothing
      exactly when there is none of either. */
  method Roll(env: Env, g: Group, dice: Dice, at: nat) returns (r: Option<StoreItem>, next: nat)
    ensures DropGroup(env, g, dice, at) == Drop(if r.Some? then [r.value] else [], next)
    ensures r.Some? ==> r.value in GroupItems(g)
    ensures forall i ::
              0 <= i < |g.explicit| && Hits(env, g.explicit, dice(at).percent, i)
              && (forall j :: 0 <= j < i ==> !Hits(env, g.explicit, dice(at).percent, j))
              ==> r == Some(g.explicit[i])
    ensures (forall i :: 0 <= i < |g.explicit| ==> !Hits(env, g.explicit, dice(at).percent, i)) ==>
              if Eligible(env, g) == [] then r == None else r.Some? && r.value in Eligible(env, g)
  {
    next := if g.explicit == [] then at else at + 1;
    var left := dice(at).percent;
    for i := 0 to |g.explicit|
      invariant left == dice(at).percent - SuitedChance(env, g.explicit, i)
      invariant forall j :: 0 <= j < i ==> !Hits(env, g.explicit, dice(at).percent, j)
    {
      if !env.suitsTeam(g.explicit[i]) { continue; }
      if g.explicit[i].chance >= 100.0 {
        FirstHitIs(env, g.explicit, dice(at).percent, 0, i);
        return Some(g.explicit[i]), next;
      }
      left := left - g.explicit[i].chance;
      if left < 0.0 {
        FirstHitIs(env, g.explicit, dice(at).percent, 0, i);
        return Some(g.explicit[i]), next;
      }
    }
    FirstHitIs(env, g.explicit, dice(at).percent, 0, |g.explicit|);
    if g.equal == [] { return None, next; }
    var ok := g.equal;
    if (exists i :: 0 <= i < |g.equal| && g.equal[i].conditionId != 0) && !env.crossFaction {
      ok := SuitingEntries(env, g.equal);
    }
    if ok == [] { return None, next; }
    var n := dice(next).pick % |ok|;
    assert ok[n] in ok;
    return Some(ok[n]), next + 1;
  }

  method SuitingEntries(env: Env, entries: seq<StoreItem>) returns (ok: seq<StoreItem>)
    ensures ok == Suited(env, entries)
  {
    ok := [];
    for i := 0 to |entries|
      invariant ok == Suited(env, entries[..i])
    {
      assert entries[..i + 1][..i] == entries[..i];
      if !env.suitsTeam(entries[i]) { continue; }
      ok := ok + [entries[i]];
    }
    assert entries[..|entries|] == entries;
  }

  class Loot {
    const env: Env
    var items: seq<LootItem>
    var questItems: seq<LootItem>
    var playerQuest: map<nat, seq<QuestItem>>
    var playerFFA: map<nat, seq<QuestItem>>
    var playerConditional: map<nat, seq<QuestItem>>
    var unlootedCount: uint8

    ghost function Model(): State reads this {
      State(items, questItems, playerQuest, playerFFA, playerConditional, unlootedCount)
    }

    constructor (env: Env)
      ensures this.env == env && Model() == State([], [], map[], map[], map[], 0)
    {
      this.env := env;
      items, questItems, unlootedCount := [], [], 0;
      playerQuest, playerFFA, playerConditional := map[], map[], map[];
    }

    /** None looted yet, as in a fresh loot. */
    ghost predicate Untouched() reads this {
      && (forall i :: 0 <= i < |items| ==> !items[i].looted)
      && (forall i :: 0 <= i < |questItems| ==> !questItems[i].looted)
    }

    method FillFFALoot(p: nat)
      requires Untouched()
      modifies `playerFFA, `unlootedCount
      ensures Untouched() && Model() == FillFFA(env, old(Model()), p)
    {
      if p !in env.inWorld { return; }
      var ql: seq<QuestItem> := [];
      for i := 0 to |items|
        invariant Untouched() && ql == FFAWalk(env, items, p, i).list && playerFFA == old(playerFFA)
        invariant unlootedCount == Bump(old(unlootedCount), FFAWalk(env, items, p, i).added)
      {
        if !items[i].looted && items[i].kind.freeforall && env.allowed(p, items[i].kind) {
          ql := ql + [QuestItem(i, false)];
          unlootedCount := Inc(unlootedCount);
        }
      }
      if ql == [] { FFAWalkIdle(env, items, p, |items|); return; }
      playerFFA := playerFFA[p := ql];
    }

    method FillQuestLoot(p: nat)
      requires Untouched() && |items| <= MAX_NR_LOOT_ITEMS
      modifies `playerQuest, `questItems, `unlootedCount
      ensures Untouched() && Model() == FillQuest(env, old(Model()), p)
    {
      if p !in env.inWorld { return; }
      if |items| == MAX_NR_LOOT_ITEMS {
        QuestWalkFull(env, |items|, questItems, p, 0, |questItems|);
        return;
      }
      ghost var was := questItems;
      var ql := ListQuestItems(p);
      if ql == [] { QuestWalkIdle(env, |items|, was, p, |was|); return; }
      playerQuest := playerQuest[p := ql];
    }

    method ListQuestItems(p: nat) returns (ql: seq<QuestItem>)
      requires Untouched() && |items| < MAX_NR_LOOT_ITEMS
      modifies `questItems, `unlootedCount
      ensures Untouched()
      ensures var w := QuestWalk(env, |items|, old(questItems), p, |old(questItems)|);
              ql == w.list && questItems == w.items && unlootedCount == Bump(old(unlootedCount), w.added)
    {
      ql := [];
      ghost var was, size, added := questItems, |items|, 0;
      for i := 0 to |questItems|
        invariant |questItems| == |was| && Untouched() && |items| == size
        invariant size + |ql| < MAX_NR_LOOT_ITEMS
        invariant QuestWalk(env, size, was, p, i) == Walk(questItems, ql, added)
        invariant unlootedCount == Bump(old(unlootedCount), added)
      {
        QuestWalkStep(env, size, was, p, i, questItems, ql, added);
        if !questItems[i].looted && env.allowed(p, questItems[i].kind) {
          ql := ql + [QuestItem(i, false)];
          if questItems[i].kind.freeforall || !questItems[i].blocked {
            unlootedCount := Inc(unlootedCount);
            added := added + 1;
          }
          questItems := questItems[i := questItems[i].(blocked := true)];
          if |items| + |ql| == MAX_NR_LOOT_ITEMS {
            QuestWalkFull(env, size, was, p, i + 1, |was|);
            assert QuestWalk(env, size, was, p, |was|) == Walk(questItems, ql, added);
            break;
          }
        }
      }
      assert QuestWalk(env, size, was, p, |was|) == Walk(questItems, ql, added);
    }

    method FillNonQuestNonFFAConditionalLoot(p: nat)
      requires Untouched()
      modifies `playerConditional, `items, `unlootedCount
      ensures Untouched() && Model() == FillConditional(env, old(Model()), p)
    {
      if p !in env.inWorld { return; }
      var ql: seq<QuestItem> := [];
      ghost var was := items;
      ghost var added := 0;
      for i := 0 to |items|
        invariant |items| == |was| && Untouched() && playerConditional == old(playerConditional)
        invariant ConditionalWalk(env, was, p, i) == Walk(items, ql, added)
        invariant unlootedCount == Bump(old(unlootedCount), added)
      {
        var kind := items[i].kind;
        if !items[i].looted && !kind.freeforall && kind.conditionId != 0 && env.allowed(p, kind) {
          ql := ql + [QuestItem(i, false)];
          if !items[i].counted {
            unlootedCount := Inc(unlootedCount);
            added := added + 1;
            items := items[i := items[i].(counted := true)];
          }
        }
      }
      if ql == [] { ConditionalWalkIdle(env, was, p, |was|); return; }
      playerConditional := playerConditional[p := ql];
    }

    method FillNotNormalLootFor(p: nat)
      requires Untouched() && |items| <= MAX_NR_LOOT_ITEMS
      modifies `playerQuest, `playerFFA, `playerConditional, `questItems, `items, `unlootedCount
      ensures Untouched() && |items| == |old(items)|
      ensures Model() == FillFor(env, old(Model()), p)
    {
      if p !in playerQuest { FillQuestLoot(p); }
      if p !in playerFFA { FillFFALoot(p); }
      if p !in playerConditional { FillNonQuestNonFFAConditionalLoot(p); }
    }

    /** Puts one rolled entry into the loot. */
    method AddItem(item: StoreItem)
      requires Untouched()
      modifies `items, `questItems, `unlootedCount
      ensures Untouched() && Model() == Add(env, old(Model()), item)
    {
      if item.needsQuest {
        if |questItems| < MAX_NR_QUEST_ITEMS { questItems := questItems + [NewItem(env, item)]; }
      } else if |items| < MAX_NR_LOOT_ITEMS {
        items := items + [NewItem(env, item)];
        if item.conditionId == 0 && item.itemid !in env.partyLoot { unlootedCount := Inc(unlootedCount); }
      }
    }

    /** Adds what a group drops, if anything. */
    method ProcessGroup(g: Group, dice: Dice, at: nat) returns (ghost added: seq<StoreItem>, next: nat)
      requires Untouched()
      modifies `items, `questItems, `unlootedCount
      ensures Untouched() && Model() == AddAll(env, old(Model()), added)
      ensures Drop(added, next) == DropGroup(env, g, dice, at)
    {
      var rolled: Option<StoreItem>;
      rolled, next := Roll(env, g, dice, at);
      added := [];
      if rolled.Some? {
        AddItem(rolled.value);
        added := [rolled.value];
        assert added[..0] == [];
      }
    }

    method ProcessGroups(groups: seq<Group>, dice: Dice, at: nat) returns (ghost added: seq<StoreItem>, next: nat)
      requires Untouched()
      modifies `items, `questItems, `unlootedCount
      ensures Untouched() && Model() == AddAll(env, old(Model()), added)
      ensures Drop(added, next) == DropGroups(env, groups, |groups|, dice, at)
    {
      added, next := [], at;
      for n := 0 to |groups|
        invariant Untouched() && Model() == AddAll(env, old(Model()), added)
        invariant Drop(added, next) == DropGroups(env, groups, n, dice, at)
      {
        ghost var more: seq<StoreItem>;
        more, next := ProcessGroup(groups[n], dice, next);
        AddAllAppend(env, old(Model()), added, more);
        added := added + more;
      }
    }

    /** Rolls a template - or one of its groups - with every template it refers to in the store of references.
        Whatever the dice say, this ends, and adds what they say. */
    method Process(refs: map<nat, Template>, ghost rank: map<nat, nat>, tpl: Template, ghost bound: nat, group: nat,
                   dice: Dice, at: nat)
      returns (ghost added: seq<StoreItem>, next: nat)
      requires Untouched() && Acyclic(refs, rank) && Descends(refs, rank, tpl, bound)
      modifies `items, `questItems, `unlootedCount
      ensures Untouched() && Model() == AddAll(env, old(Model()), added)
      ensures Drop(added, next) == Drops(env, refs, rank, tpl, bound, group, dice, at)
      decreases bound, 1
    {
      added, next := [], at;
      if group != 0 {
        if group > |tpl.groups| { return; }
        added, next := ProcessGroup(tpl.groups[group - 1], dice, at);
        return;
      }
      for n := 0 to |tpl.entries|
        invariant Untouched() && Model() == AddAll(env, old(Model()), added)
        invariant Drop(added, next) == DropEntries(env, refs, rank, tpl, bound, n, dice, at)
      {
        ghost var more: seq<StoreItem>;
        more, next := ProcessEntry(refs, rank, tpl, bound, n, dice, next);
        AddAllAppend(env, old(Model()), added, more);
        added := added + more;
      }
      ghost var more: seq<StoreItem>;
      more, next := ProcessGroups(tpl.groups, dice, next);
      AddAllAppend(env, old(Model()), added, more);
      added := added + more;
    }

    /** Rolls one entry that is not in a group. */
    method ProcessEntry(refs: map<nat, Template>, ghost rank: map<nat, nat>, tpl: Template, ghost bound: nat, n: nat,
                        dice: Dice, at: nat)
      returns (ghost added: seq<StoreItem>, next: nat)
      requires Untouched() && Acyclic(refs, rank) && Descends(refs, rank, tpl, bound) && n < |tpl.entries|
      modifies `items, `questItems, `unlootedCount
      ensures Untouched() && Model() == AddAll(env, old(Model()), added)
      ensures Drop(added, next) == DropEntry(env, refs, rank, tpl, bound, n, dice, at)
      decreases bound, 0
    {
      var e := tpl.entries[n];
      added, next := [], at;
      if e.chance < 100.0 {
        next := at + 1;
        if e.chance * env.rate(e) <= dice(at).percent { return; }
      }
      if e.mincountOrRef < 0 {
        if -e.mincountOrRef !in refs { return; }
        added, next := ProcessReference(refs, rank, -e.mincountOrRef, e.group, e.maxcount, dice, next);
      } else {
        AddItem(e);
        AddAllOne(env, old(Model()), e);
        added := [e];
      }
    }

    method ProcessReference(refs: map<nat, Template>, ghost rank: map<nat, nat>, ref: nat, group: nat, times: nat,
                            dice: Dice, at: nat)
      returns (ghost added: seq<StoreItem>, next: nat)
      requires Untouched() && Acyclic(refs, rank) && ref in refs
      modifies `items, `questItems, `unlootedCount
      ensures Untouched() && Model() == AddAll(env, old(Model()), added)
      ensures Drop(added, next) == DropTimes(env, refs, rank, ref, group, times, dice, at)
      decreases rank[ref], 2
    {
      added, next := [], at;
      for turn := 0 to times
        invariant Untouched() && Model() == AddAll(env, old(Model()), added)
        invariant Drop(added, next) == DropTimes(env, refs, rank, ref, group, turn, dice, at)
      {
        ghost var more: seq<StoreItem>;
        more, next := Process(refs, rank, refs[ref], rank[ref], group, dice, next);
        AddAllAppend(env, old(Model()), added, more);
        added := added + more;
      }
    }
  }

  // ----- What drops -----

  ghost predicate AllOffered(items: seq<StoreItem>, offers: set<StoreItem>) {
    forall it :: it in items ==> it in offers
  }

  lemma GroupIsOffered(env: Env, g: Group, dice: Dice, at: nat)
    ensures AllOffered(DropGroup(env, g, dice, at).items, GroupItems(g))
  {
    FirstHitExactly(env, g.explicit, dice(at).percent, 0);
    var next := if g.explicit == [] then at else at + 1;
    var ok := Eligible(env, g);
    if ok != [] { assert ok[dice(next).pick % |ok|] in ok; }
  }

  lemma {:induction false} GroupsAreOffered(env: Env, groups: seq<Group>, n: nat, dice: Dice, at: nat)
    requires n <= |groups|
    ensures AllOffered(DropGroups(env, groups, n, dice, at).items, GroupsItems(groups, n))
  {
    if n > 0 {
      GroupsAreOffered(env, groups, n - 1, dice, at);
      GroupIsOffered(env, groups[n - 1], dice, DropGroups(env, groups, n - 1, dice, at).next);
    }
  }

  /** Nothing drops but what is on offer. */
  lemma {:induction false} DropsAreOffered(env: Env, store: map<nat, Template>, rank: map<nat, nat>, tpl: Template,
                                           bound: nat, group: nat, dice: Dice, at: nat)
    requires Acyclic(store, rank) && Descends(store, rank, tpl, bound)
    ensures AllOffered(Drops(env, store, rank, tpl, bound, group, dice, at).items,
                       Offers(store, rank, tpl, bound, group))
    decreases bound, 1, 0
  {
    if group != 0 {
      if group <= |tpl.groups| { GroupIsOffered(env, tpl.groups[group - 1], dice, at); }
    } else {
      EntriesAreOffered(env, store, rank, tpl, bound, |tpl.entries|, dice, at);
      var d := DropEntries(env, store, rank, tpl, bound, |tpl.entries|, dice, at);
      GroupsAreOffered(env, tpl.groups, |tpl.groups|, dice, d.next);
    }
  }

  lemma {:induction false} EntriesAreOffered(env: Env, store: map<nat, Template>, rank: map<nat, nat>, tpl: Template,
                                             bound: nat, n: nat, dice: Dice, at: nat)
    requires Acyclic(store, rank) && Descends(store, rank, tpl, bound) && n <= |tpl.entries|
    ensures AllOffered(DropEntries(env, store, rank, tpl, bound, n, dice, at).items,
                       EntryOffers(store, rank, tpl, bound, n))
    decreases bound, 0, n
  {
    if n > 0 {
      EntriesAreOffered(env, store, rank, tpl, bound, n - 1, dice, at);
      var e, d := tpl.entries[n - 1], DropEntries(env, store, rank, tpl, bound, n - 1, dice, at);
      if e.mincountOrRef < 0 && -e.mincountOrRef in store {
        TimesAreOffered(env, store, rank, -e.mincountOrRef, e.group, e.maxcount, dice, d.next + ThrowsFor(e));
      }
    }
  }

  lemma {:induction false} TimesAreOffered(env: Env, store: map<nat, Template>, rank: map<nat, nat>, ref: nat,
                                           group: nat, times: nat, dice: Dice, at: nat)
    requires Acyclic(store, rank) && ref in store
    ensures AllOffered(DropTimes(env, store, rank, ref, group, times, dice, at).items,
                       Offers(store, rank, store[ref], rank[ref], group))
    decreases rank[ref], 2, times
  {
    if times > 0 {
      TimesAreOffered(env, store, rank, ref, group, times - 1, dice, at);
      var d := DropTimes(env, store, rank, ref, group, times - 1, dice, at);
      DropsAreOffered(env, store, rank, store[ref], rank[ref], group, dice, d.next);
    }
  }

  // ----- How often an entry drops -----

  /** A group drops this whatever is thrown: the first entry that suits the team is certain, or none of those with
      chances suits it and there is nothing else to choose. */
  ghost predicate AlwaysDrops(env: Env, g: Group, it: StoreItem) {
    || (exists i :: 0 <= i < |g.explicit| && g.explicit[i] == it && env.suitsTeam(it) && it.chance >= 100.0
                    && forall j :: 0 <= j < i ==> !env.suitsTeam(g.explicit[j]))
    || ((forall j :: 0 <= j < |g.explicit| ==> !env.suitsTeam(g.explicit[j]))
        && Eligible(env, g) != [] && forall k :: 0 <= k < |Eligible(env, g)| ==> Eligible(env, g)[k] == it)
  }

  /** How often it drops from a group, at least or at most. */
  ghost function GroupTimes(env: Env, g: Group, it: StoreItem, least: bool): nat {
    if (if least then AlwaysDrops(env, g, it) else it in GroupItems(g)) then 1 else 0
  }

  ghost function GroupsTimes(env: Env, groups: seq<Group>, n: nat, it: StoreItem, least: bool): nat
    requires n <= |groups|
  {
    if n == 0 then 0 else GroupsTimes(env, groups, n - 1, it, least) + GroupTimes(env, groups[n - 1], it, least)
  }

  /** How often an entry drops from a template, at least or at most: once for each time it stands there, and as often
      as references to templates that drop it say; entries that are not certain do not count for the least. */
  ghost function Times(env: Env, store: map<nat, Template>, rank: map<nat, nat>, tpl: Template, bound: nat, group: nat,
                       it: StoreItem, least: bool): nat
    requires Acyclic(store, rank) && Descends(store, rank, tpl, bound)
    decreases bound, 1, 0
  {
    if group != 0 then (if group > |tpl.groups| then 0 else GroupTimes(env, tpl.groups[group - 1], it, least))
    else
      EntryTimes(env, store, rank, tpl, bound, |tpl.entries|, it, least)
      + GroupsTimes(env, tpl.groups, |tpl.groups|, it, least)
  }

  ghost function EntryTimes(env: Env, store: map<nat, Template>, rank: map<nat, nat>, tpl: Template, bound: nat, n: nat,
                            it: StoreItem, least: bool): nat
    requires Acyclic(store, rank) && Descends(store, rank, tpl, bound) && n <= |tpl.entries|
    decreases bound, 0, n
  {
    if n == 0 then 0
    else
      var e := tpl.entries[n - 1];
      EntryTimes(env, store, rank, tpl, bound, n - 1, it, least)
      + if least && e.chance < 100.0 then 0
        else if e.mincountOrRef >= 0 then (if e == it then 1 else 0)
        else if -e.mincountOrRef in store then
          Over(e.maxcount, Times(env, store, rank, store[-e.mincountOrRef], rank[-e.mincountOrRef], e.group, it, least))
        else 0
  }

  function Copies(items: seq<StoreItem>, it: StoreItem): nat {
    if items == [] then 0 else (if items[0] == it then 1 else 0) + Copies(items[1..], it)
  }

  lemma {:induction false} CopiesSum(x: seq<StoreItem>, y: seq<StoreItem>, it: StoreItem)
    ensures Copies(x + y, it) == Copies(x, it) + Copies(y, it)
    decreases |x|
  {
    if x == [] {
      assert x + y == y;
    } else {
      CopiesSum(x[1..], y, it);
      assert (x + y)[1..] == x[1..] + y;
    }
  }

  lemma {:induction false} CopiesAreThere(items: seq<StoreItem>, it: StoreItem)
    ensures Copies(items, it) > 0 <==> it in items
    decreases |items|
  {
    if items != [] {
      CopiesAreThere(items[1..], it);
      assert items == [items[0]] + items[1..];
    }
  }

  ghost predicate Between(low: nat, items: seq<StoreItem>, it: StoreItem, high: nat) {
    low <= Copies(items, it) <= high
  }

  lemma BetweenSum(a: nat, x: seq<StoreItem>, b: nat, c: nat, y: seq<StoreItem>, d: nat, it: StoreItem)
    requires Between(a, x, it, b) && Between(c, y, it, d)
    ensures Between(a + c, x + y, it, b + d)
  {
    CopiesSum(x, y, it);
  }

  lemma AtMostOne(items: seq<StoreItem>, it: StoreItem)
    requires |items| <= 1
    ensures Copies(items, it) == if items == [it] then 1 else 0
  {
    if items != [] { assert items == [items[0]] && items[1..] == []; }
  }

  /** So often something that happens x times. */
  function Over(times: nat, x: nat): nat { if times == 0 then 0 else Over(times - 1, x) + x }

  lemma {:induction false} OverIsProduct(times: nat, x: nat)
    ensures Over(times, x) == times * x
  {
    if times > 0 { OverIsProduct(times - 1, x); }
  }

  lemma GroupBetween(env: Env, g: Group, dice: Dice, at: nat, it: StoreItem)
    ensures Between(GroupTimes(env, g, it, true), DropGroup(env, g, dice, at).items, it,
                    GroupTimes(env, g, it, false))
  {
    var items := DropGroup(env, g, dice, at).items;
    GroupIsOffered(env, g, dice, at);
    AtMostOne(items, it);
    if items == [it] { assert it in items; }
    if AlwaysDrops(env, g, it) { AlwaysIsDropped(env, g, dice, at, it); }
  }

  /** The chances of those entries that suit the team. */
  function ChanceSum(env: Env, items: seq<StoreItem>): real {
    if items == [] then 0.0
    else (if env.suitsTeam(items[0]) then items[0].chance else 0.0) + ChanceSum(env, items[1..])
  }

  lemma {:induction false} ChanceSumSnoc(env: Env, items: seq<StoreItem>, it: StoreItem)
    ensures ChanceSum(env, items + [it]) == ChanceSum(env, items) + if env.suitsTeam(it) then it.chance else 0.0
    decreases |items|
  {
    if items == [] {
      assert [] + [it] == [it] && [it][1..] == [];
    } else {
      ChanceSumSnoc(env, items[1..], it);
      assert (items + [it])[1..] == items[1..] + [it];
    }
  }

  lemma {:induction false} SharesAddUp(env: Env, entries: seq<StoreItem>, n: nat)
    requires n <= |entries|
    ensures SuitedChance(env, entries, n) == ChanceSum(env, entries[..n])
  {
    if n > 0 {
      SharesAddUp(env, entries, n - 1);
      ChanceSumSnoc(env, entries[..n - 1], entries[n - 1]);
      assert entries[..n - 1] + [entries[n - 1]] == entries[..n];
    }
  }

  /** An entry is the one that wins the throw of a group: it suits the team, and is certain or has the throw in its
      share, which lies behind those of the suited entries before it. */
  predicate WinsThrow(env: Env, entries: seq<StoreItem>, roll: real, i: nat)
    requires i < |entries|
  {
    env.suitsTeam(entries[i])
    && (entries[i].chance >= 100.0 || ChanceSum(env, entries[..i + 1]) > roll)
  }

  /** A group drops the first chanced entry that wins the throw, if one does. If none does it drops one of the others:
      where these have no conditions, or for both sides, any of them, else one that suits the team. */
  lemma GroupDropsExactly(env: Env, g: Group, dice: Dice, at: nat, i: nat)
    requires i <= |g.explicit| && forall j :: 0 <= j < i ==> !WinsThrow(env, g.explicit, dice(at).percent, j)
    requires i < |g.explicit| ==> WinsThrow(env, g.explicit, dice(at).percent, i)
    ensures i < |g.explicit| ==> DropGroup(env, g, dice, at) == Drop([g.explicit[i]], at + 1)
    ensures i == |g.explicit| ==>
              var next := if g.explicit == [] then at else at + 1;
              var ok := if (exists it :: it in g.equal && it.conditionId != 0) && !env.crossFaction
                        then Suited(env, g.equal) else g.equal;
              DropGroup(env, g, dice, at) ==
              if ok == [] then Drop([], next) else Drop([ok[dice(next).pick % |ok|]], next + 1)
  {
    forall j | 0 <= j < |g.explicit|
      ensures Hits(env, g.explicit, dice(at).percent, j) <==> WinsThrow(env, g.explicit, dice(at).percent, j)
    {
      SharesAddUp(env, g.explicit, j + 1);
    }
    FirstHitIs(env, g.explicit, dice(at).percent, 0, i);
  }

  lemma AlwaysIsDropped(env: Env, g: Group, dice: Dice, at: nat, it: StoreItem)
    requires AlwaysDrops(env, g, it)
    ensures DropGroup(env, g, dice, at).items == [it]
  {
    var roll := dice(at).percent;
    if i :| 0 <= i < |g.explicit| && g.explicit[i] == it && env.suitsTeam(it) && it.chance >= 100.0
            && forall j :: 0 <= j < i ==> !env.suitsTeam(g.explicit[j])
    {
      FirstHitIs(env, g.explicit, roll, 0, i);
    } else {
      FirstHitIs(env, g.explicit, roll, 0, |g.explicit|);
    }
  }

  lemma OneMoreGroup(env: Env, g: Group, dice: Dice, at: nat, it: StoreItem, low: nat, items: seq<StoreItem>, high: nat)
    requires Between(low, items, it, high)
    ensures Between(low + GroupTimes(env, g, it, true), items + DropGroup(env, g, dice, at).items, it,
                    high + GroupTimes(env, g, it, false))
  {
    GroupBetween(env, g, dice, at, it);
    BetweenSum(low, items, high, GroupTimes(env, g, it, true), DropGroup(env, g, dice, at).items,
               GroupTimes(env, g, it, false), it);
  }

  lemma {:induction false} GroupsBetween(env: Env, groups: seq<Group>, n: nat, dice: Dice, at: nat, it: StoreItem)
    requires n <= |groups|
    ensures Between(GroupsTimes(env, groups, n, it, true), DropGroups(env, groups, n, dice, at).items, it,
                    GroupsTimes(env, groups, n, it, false))
  {
    if n > 0 {
      var d := DropGroups(env, groups, n - 1, dice, at);
      GroupsBetween(env, groups, n - 1, dice, at, it);
      OneMoreGroup(env, groups[n - 1], dice, d.next, it, GroupsTimes(env, groups, n - 1, it, true), d.items,
                   GroupsTimes(env, groups, n - 1, it, false));
    }
  }

  /** Whatever is thrown, every entry drops at least as often as it is certain to, and at most as often as it is on
      offer: both are counted over the templates, without any dice. */
  lemma {:induction false} DropsBetween(env: Env, store: map<nat, Template>, rank: map<nat, nat>, tpl: Template,
                                        bound: nat, group: nat, dice: Dice, at: nat, it: StoreItem)
    requires Acyclic(store, rank) && Descends(store, rank, tpl, bound)
    ensures Between(Times(env, store, rank, tpl, bound, group, it, true),
                    Drops(env, store, rank, tpl, bound, group, dice, at).items, it,
                    Times(env, store, rank, tpl, bound, group, it, false))
    decreases bound, 1, 0
  {
    if group != 0 {
      if group <= |tpl.groups| { GroupBetween(env, tpl.groups[group - 1], dice, at, it); }
    } else {
      var n, m := |tpl.entries|, |tpl.groups|;
      var d := DropEntries(env, store, rank, tpl, bound, n, dice, at);
      var g := DropGroups(env, tpl.groups, m, dice, d.next);
      EntriesBetween(env, store, rank, tpl, bound, n, dice, at, it);
      GroupsBetween(env, tpl.groups, m, dice, d.next, it);
      BetweenSum(EntryTimes(env, store, rank, tpl, bound, n, it, true), d.items,
                 EntryTimes(env, store, rank, tpl, bound, n, it, false),
                 GroupsTimes(env, tpl.groups, m, it, true), g.items, GroupsTimes(env, tpl.groups, m, it, false), it);
    }
  }

  /** What the n-th entry adds to how often an entry drops. */
  ghost function Share(env: Env, store: map<nat, Template>, rank: map<nat, nat>, tpl: Template, bound: nat, n: nat,
                       it: StoreItem, least: bool): nat
    requires Acyclic(store, rank) && Descends(store, rank, tpl, bound) && n < |tpl.entries|
  {
    EntryTimes(env, store, rank, tpl, bound, n + 1, it, least) - EntryTimes(env, store, rank, tpl, bound, n, it, least)
  }

  lemma {:induction false} EntriesBetween(env: Env, store: map<nat, Template>, rank: map<nat, nat>, tpl: Template,
                                          bound: nat, n: nat, dice: Dice, at: nat, it: StoreItem)
    requires Acyclic(store, rank) && Descends(store, rank, tpl, bound) && n <= |tpl.entries|
    ensures Between(EntryTimes(env, store, rank, tpl, bound, n, it, true),
                    DropEntries(env, store, rank, tpl, bound, n, dice, at).items, it,
                    EntryTimes(env, store, rank, tpl, bound, n, it, false))
    decreases bound, 0, n + 1
  {
    if n > 0 {
      var d := DropEntries(env, store, rank, tpl, bound, n - 1, dice, at);
      var e := DropEntry(env, store, rank, tpl, bound, n - 1, dice, d.next);
      EntriesBetween(env, store, rank, tpl, bound, n - 1, dice, at, it);
      EntryBetween(env, store, rank, tpl, bound, n - 1, dice, d.next, it);
      BetweenSum(EntryTimes(env, store, rank, tpl, bound, n - 1, it, true), d.items,
                 EntryTimes(env, store, rank, tpl, bound, n - 1, it, false),
                 Share(env, store, rank, tpl, bound, n - 1, it, true), e.items,
                 Share(env, store, rank, tpl, bound, n - 1, it, false), it);
    }
  }

  lemma {:induction false} EntryBetween(env: Env, store: map<nat, Template>, rank: map<nat, nat>, tpl: Template,
                                        bound: nat, n: nat, dice: Dice, at: nat, it: StoreItem)
    requires Acyclic(store, rank) && Descends(store, rank, tpl, bound) && n < |tpl.entries|
    ensures Between(Share(env, store, rank, tpl, bound, n, it, true),
                    DropEntry(env, store, rank, tpl, bound, n, dice, at).items, it,
                    Share(env, store, rank, tpl, bound, n, it, false))
    decreases bound, 0, 0
  {
    var e := tpl.entries[n];
    AtMostOne([], it);
    AtMostOne([e], it);
    if e.mincountOrRef < 0 && -e.mincountOrRef in store {
      TimesBetween(env, store, rank, -e.mincountOrRef, e.group, e.maxcount, dice, at + ThrowsFor(e), it);
    }
  }

  lemma {:induction false} TimesBetween(env: Env, store: map<nat, Template>, rank: map<nat, nat>, ref: nat, group: nat,
                                        times: nat, dice: Dice, at: nat, it: StoreItem)
    requires Acyclic(store, rank) && ref in store
    ensures Between(Over(times, Times(env, store, rank, store[ref], rank[ref], group, it, true)),
                    DropTimes(env, store, rank, ref, group, times, dice, at).items, it,
                    Over(times, Times(env, store, rank, store[ref], rank[ref], group, it, false)))
    decreases rank[ref], 2, times
  {
    if times > 0 {
      var low := Times(env, store, rank, store[ref], rank[ref], group, it, true);
      var high := Times(env, store, rank, store[ref], rank[ref], group, it, false);
      var d := DropTimes(env, store, rank, ref, group, times - 1, dice, at);
      var r := Drops(env, store, rank, store[ref], rank[ref], group, dice, d.next);
      TimesBetween(env, store, rank, ref, group, times - 1, dice, at, it);
      DropsBetween(env, store, rank, store[ref], rank[ref], group, dice, d.next, it);
      BetweenSum(Over(times - 1, low), d.items, Over(times - 1, high), low, r.items, high, it);
    }
  }

  /** The number of throws the first entries take. */
  function Uncertain(entries: seq<StoreItem>, n: nat): nat
    requires n <= |entries|
  {
    if n == 0 then 0 else Uncertain(entries, n - 1) + if entries[n - 1].chance < 100.0 then 1 else 0
  }

  /** The n-th throw for these entries is below the chance of the one it is made for, or none is needed. */
  predicate Wins(env: Env, entries: seq<StoreItem>, k: nat, dice: Dice, at: nat)
    requires k < |entries|
  {
    var e := entries[k];
    e.chance >= 100.0 || e.chance * env.rate(e) > dice(at + Uncertain(entries, k)).percent
  }

  /** What dropped are these of the entries, in order. */
  predicate Chosen(items: seq<StoreItem>, entries: seq<StoreItem>, lucky: seq<nat>, n: nat) {
    && |items| == |lucky| && (forall i :: 0 <= i < |lucky| ==> lucky[i] < n && lucky[i] < |entries|)
    && (forall i :: 0 <= i < |lucky| ==> items[i] == entries[lucky[i]])
    && (forall i, j :: 0 <= i < j < |lucky| ==> lucky[i] < lucky[j])
  }

  /** Of entries that are no references exactly the lucky ones drop, in order: those that are certain, and those whose
      chance is above the throw made for them. */
  lemma {:induction false} LuckyOnesDrop(env: Env, store: map<nat, Template>, rank: map<nat, nat>, tpl: Template,
                                         bound: nat, n: nat, dice: Dice, at: nat)
    returns (lucky: seq<nat>)
    requires Acyclic(store, rank) && Descends(store, rank, tpl, bound) && n <= |tpl.entries|
    requires forall k :: 0 <= k < n ==> tpl.entries[k].mincountOrRef >= 0
    ensures LuckyDrop(env, tpl.entries, dice, at, DropEntries(env, store, rank, tpl, bound, n, dice, at), lucky, n)
  {
    if n == 0 {
      lucky := [];
    } else {
      var before := LuckyOnesDrop(env, store, rank, tpl, bound, n - 1, dice, at);
      var d := DropEntries(env, store, rank, tpl, bound, n - 1, dice, at);
      var wins := Wins(env, tpl.entries, n - 1, dice, at);
      PlainEntryDrops(env, store, rank, tpl, bound, n - 1, dice, at);
      lucky := before + if wins then [n - 1] else [];
      OneMoreDrop(env, tpl.entries, dice, at, d, before, n - 1);
    }
  }

  /** The lucky ones are what dropped, in order, and exactly those that win. */
  ghost predicate LuckyDrop(env: Env, entries: seq<StoreItem>, dice: Dice, at: nat, d: Drop, lucky: seq<nat>, n: nat)
    requires n <= |entries|
  {
    && d.next == at + Uncertain(entries, n) && Chosen(d.items, entries, lucky, n)
    && AreWinners(env, entries, dice, at, lucky, n)
  }

  lemma OneMoreDrop(env: Env, entries: seq<StoreItem>, dice: Dice, at: nat, d: Drop, lucky: seq<nat>, n: nat)
    requires n < |entries| && LuckyDrop(env, entries, dice, at, d, lucky, n)
    ensures var wins := Wins(env, entries, n, dice, at);
            LuckyDrop(env, entries, dice, at, Drop(d.items + (if wins then [entries[n]] else []),
                                                   at + Uncertain(entries, n + 1)),
                      lucky + (if wins then [n] else []), n + 1)
  {
    OneMoreChosen(d.items, entries, lucky, n, Wins(env, entries, n, dice, at));
    OneMoreWinner(env, entries, dice, at, lucky, n);
  }

  /** A plain entry drops at once, or does not. */
  lemma PlainEntryDrops(env: Env, store: map<nat, Template>, rank: map<nat, nat>, tpl: Template, bound: nat, n: nat,
                        dice: Dice, at: nat)
    requires Acyclic(store, rank) && Descends(store, rank, tpl, bound) && n < |tpl.entries|
    requires tpl.entries[n].mincountOrRef >= 0
    ensures DropEntry(env, store, rank, tpl, bound, n, dice, at + Uncertain(tpl.entries, n)) ==
            Drop(if Wins(env, tpl.entries, n, dice, at) then [tpl.entries[n]] else [],
                 at + Uncertain(tpl.entries, n + 1))
  {
  }

  /** Among the first n entries exactly these win. */
  ghost predicate AreWinners(env: Env, entries: seq<StoreItem>, dice: Dice, at: nat, lucky: seq<nat>, n: nat)
    requires n <= |entries|
  {
    (forall i :: 0 <= i < |lucky| ==> lucky[i] < n)
    && forall k :: 0 <= k < n ==> (k in lucky <==> Wins(env, entries, k, dice, at))
  }

  lemma OneMoreWinner(env: Env, entries: seq<StoreItem>, dice: Dice, at: nat, lucky: seq<nat>, n: nat)
    requires n < |entries| && AreWinners(env, entries, dice, at, lucky, n)
    ensures AreWinners(env, entries, dice, at, lucky + (if Wins(env, entries, n, dice, at) then [n] else []), n + 1)
  {
  }

  lemma OneMoreChosen(items: seq<StoreItem>, entries: seq<StoreItem>, lucky: seq<nat>, n: nat, wins: bool)
    requires Chosen(items, entries, lucky, n) && n < |entries|
    ensures Chosen(items + (if wins then [entries[n]] else []), entries, lucky + (if wins then [n] else []), n + 1)
  {
  }

  // ----- What gets into a fresh loot -----

  /** The entries of one sort among those added. */
  function OfSort(added: seq<StoreItem>, quest: bool): seq<StoreItem> {
    if added == [] then []
    else if added[0].needsQuest == quest then [added[0]] + OfSort(added[1..], quest) else OfSort(added[1..], quest)
  }

  function UpTo<T>(s: seq<T>, n: nat): seq<T> { if |s| <= n then s else s[..n] }

  /** The items are what was added, in order, up to the room there is. */
  ghost predicate Holds(env: Env, items: seq<LootItem>, added: seq<StoreItem>, room: nat) {
    && |items| == |UpTo(added, room)|
    && forall i :: 0 <= i < |items| ==>
         items[i].kind == Kind(added[i].itemid, added[i].conditionId, added[i].needsQuest,
                               added[i].itemid in env.partyLoot)
  }

  predicate AreNew(items: seq<LootItem>) {
    forall i :: 0 <= i < |items| ==> !items[i].looted && !items[i].blocked && !items[i].counted
  }

  lemma {:induction false} OfSortSnoc(added: seq<StoreItem>, it: StoreItem, quest: bool)
    ensures OfSort(added + [it], quest) == OfSort(added, quest) + if it.needsQuest == quest then [it] else []
    decreases |added|
  {
    if added == [] {
      assert [] + [it] == [it] && [it][1..] == [];
    } else {
      OfSortSnoc(added[1..], it, quest);
      assert (added + [it])[1..] == added[1..] + [it];
    }
  }

  /** A fresh loot holds the first sixteen of the ordinary items added, and the first thirty-two of those for quests. */
  lemma {:induction false} FreshHolds(env: Env, added: seq<StoreItem>)
    ensures Holds(env, AddAll(env, FRESH, added).items, OfSort(added, false), 16)
    ensures Holds(env, AddAll(env, FRESH, added).questItems, OfSort(added, true), 32)
    ensures AreNew(AddAll(env, FRESH, added).items) && AreNew(AddAll(env, FRESH, added).questItems)
    decreases |added|
  {
    if added != [] {
      var rest, it := added[..|added| - 1], added[|added| - 1];
      assert added == rest + [it];
      FreshHolds(env, rest);
      OfSortSnoc(rest, it, false);
      OfSortSnoc(rest, it, true);
    }
  }

  lemma {:induction false} SortedCopies(added: seq<StoreItem>, it: StoreItem)
    ensures Copies(OfSort(added, it.needsQuest), it) == Copies(added, it)
    decreases |added|
  {
    if added != [] {
      SortedCopies(added[1..], it);
      var rest := OfSort(added[1..], it.needsQuest);
      assert ([added[0]] + rest)[1..] == rest;
    }
  }

  /** So what is certain to drop is there if there is room for all that drops of its sort. */
  lemma CertainIsThere(env: Env, store: map<nat, Template>, rank: map<nat, nat>, tpl: Template, bound: nat, dice: Dice,
                       it: StoreItem, items: seq<LootItem>, room: nat)
    returns (i: nat)
    requires Acyclic(store, rank) && Descends(store, rank, tpl, bound)
    requires Times(env, store, rank, tpl, bound, 0, it, true) > 0
    requires Holds(env, items, OfSort(Drops(env, store, rank, tpl, bound, 0, dice, 0).items, it.needsQuest), room)
    requires |OfSort(Drops(env, store, rank, tpl, bound, 0, dice, 0).items, it.needsQuest)| <= room
    ensures i < |items| && items[i].kind == NewItem(env, it).kind
  {
    var added := Drops(env, store, rank, tpl, bound, 0, dice, 0).items;
    var ofSort := OfSort(added, it.needsQuest);
    assert Copies(ofSort, it) > 0 by {
      DropsBetween(env, store, rank, tpl, bound, 0, dice, 0, it);
      SortedCopies(added, it);
    }
    CopiesAreThere(ofSort, it);
    i :| 0 <= i < |ofSort| && ofSort[i] == it;
  }

  // ----- Quest drops -----

  method GroupHasQuestDrop(g: Group) returns (b: bool)
    ensures b <==> exists it :: it in GroupItems(g) && it.needsQuest
  {
    for i := 0 to |g.explicit|
      invariant forall j :: 0 <= j < i ==> !g.explicit[j].needsQuest
    {
      if g.explicit[i].needsQuest { assert g.explicit[i] in GroupItems(g); return true; }
    }
    for i := 0 to |g.equal|
      invariant forall j :: 0 <= j < i ==> !g.equal[j].needsQuest
    {
      if g.equal[i].needsQuest { assert g.equal[i] in GroupItems(g); return true; }
    }
    return false;
  }

  ghost predicate HasQuest(items: set<StoreItem>) { exists it :: it in items && it.needsQuest }

  /** True exactly when a quest item can be reached from the template, through references into the given store. */
  method HasQuestDrop(store: map<nat, Template>, ghost rank: map<nat, nat>, tpl: Template, ghost bound: nat, group: nat)
    returns (b: bool)
    requires Acyclic(store, rank) && Descends(store, rank, tpl, bound)
    ensures b <==> HasQuest(Offers(store, rank, tpl, bound, group))
    decreases bound
  {
    if group != 0 {
      if group > |tpl.groups| { return false; }
      b := GroupHasQuestDrop(tpl.groups[group - 1]);
      return;
    }
    for n := 0 to |tpl.entries|
      invariant forall it :: it in EntryOffers(store, rank, tpl, bound, n) ==> !it.needsQuest
    {
      var e := tpl.entries[n];
      if e.mincountOrRef < 0 {
        var ref := -e.mincountOrRef;
        if ref !in store { continue; }
        var found := HasQuestDrop(store, rank, store[ref], rank[ref], e.group);
        if found {
          ghost var it :| it in Offers(store, rank, store[ref], rank[ref], e.group) && it.needsQuest;
          OffersOfEntry(store, rank, tpl, bound, n, it);
          return true;
        }
      } else if e.needsQuest {
        OffersOfEntry(store, rank, tpl, bound, n, e);
        return true;
      }
    }
    b := AnyGroupHasQuestDrop(tpl.groups);
  }

  method AnyGroupHasQuestDrop(groups: seq<Group>) returns (b: bool)
    ensures b <==> exists it :: it in GroupsItems(groups, |groups|) && it.needsQuest
  {
    for n := 0 to |groups|
      invariant forall it :: it in GroupsItems(groups, n) ==> !it.needsQuest
    {
      var found := GroupHasQuestDrop(groups[n]);
      if found {
        ghost var it :| it in GroupItems(groups[n]) && it.needsQuest;
        GroupsItemsGrow(groups, n + 1, |groups|, it);
        return true;
      }
    }
    return false;
  }

  lemma {:induction false} GroupsItemsGrow(groups: seq<Group>, n: nat, m: nat, it: StoreItem)
    requires n <= m <= |groups| && it in GroupsItems(groups, n)
    ensures it in GroupsItems(groups, m)
  {
    if n < m { GroupsItemsGrow(groups, n, m - 1, it); }
  }

  lemma {:induction false} EntryOffersGrow(store: map<nat, Template>, rank: map<nat, nat>, tpl: Template, bound: nat,
                                           n: nat, m: nat, it: StoreItem)
    requires Acyclic(store, rank) && Descends(store, rank, tpl, bound) && n <= m <= |tpl.entries|
    requires it in EntryOffers(store, rank, tpl, bound, n)
    ensures it in EntryOffers(store, rank, tpl, bound, m)
  {
    if n < m { EntryOffersGrow(store, rank, tpl, bound, n, m - 1, it); }
  }

  /** What an entry offers, the whole template offers. */
  lemma OffersOfEntry(store: map<nat, Template>, rank: map<nat, nat>, tpl: Template, bound: nat, n: nat, it: StoreItem)
    requires Acyclic(store, rank) && Descends(store, rank, tpl, bound) && n < |tpl.entries|
    requires it in EntryOffers(store, rank, tpl, bound, n + 1)
    ensures it in Offers(store, rank, tpl, bound, 0)
  {
    EntryOffersGrow(store, rank, tpl, bound, n + 1, |tpl.entries|, it);
  }

  // ----- Quest drops searched in one store and rolled from another -----

  /** A quest item among the entries or in the groups of the template itself. */
  predicate OwnQuest(tpl: Template) {
    || (exists n :: 0 <= n < |tpl.entries| && tpl.entries[n].mincountOrRef >= 0 && tpl.entries[n].needsQuest)
    || (exists it :: it in GroupsItems(tpl.groups, |tpl.groups|) && it.needsQuest)
  }

  /** A reference that leads to a quest item in a store. */
  ghost predicate ReferredQuest(store: map<nat, Template>, rank: map<nat, nat>, tpl: Template, bound: nat)
    requires Acyclic(store, rank) && Descends(store, rank, tpl, bound)
  {
    exists n :: 0 <= n < |tpl.entries| && tpl.entries[n].mincountOrRef < 0
                && HasQuest(RefOffers(store, rank, tpl, bound, n))
  }

  lemma {:induction false} QuestIsOwnOrReferred(store: map<nat, Template>, rank: map<nat, nat>, tpl: Template,
                                                bound: nat)
    requires Acyclic(store, rank) && Descends(store, rank, tpl, bound)
    ensures HasQuest(Offers(store, rank, tpl, bound, 0)) <==> OwnQuest(tpl) || ReferredQuest(store, rank, tpl, bound)
  {
    var all := Offers(store, rank, tpl, bound, 0);
    forall n | 0 <= n < |tpl.entries|
      ensures (tpl.entries[n].mincountOrRef >= 0 ==> tpl.entries[n] in all)
              && (tpl.entries[n].mincountOrRef < 0 ==> RefOffers(store, rank, tpl, bound, n) <= all)
    {
      EntryIsOffered(store, rank, tpl, bound, n);
    }
    if HasQuest(all) {
      var it :| it in all && it.needsQuest;
      if it !in GroupsItems(tpl.groups, |tpl.groups|) {
        var n := EntryOfOffer(store, rank, tpl, bound, |tpl.entries|, it);
      }
    }
  }

  lemma EntryIsOffered(store: map<nat, Template>, rank: map<nat, nat>, tpl: Template, bound: nat, n: nat)
    requires Acyclic(store, rank) && Descends(store, rank, tpl, bound) && n < |tpl.entries|
    ensures tpl.entries[n].mincountOrRef >= 0 ==> tpl.entries[n] in Offers(store, rank, tpl, bound, 0)
    ensures tpl.entries[n].mincountOrRef < 0 ==>
              RefOffers(store, rank, tpl, bound, n) <= Offers(store, rank, tpl, bound, 0)
  {
    if tpl.entries[n].mincountOrRef >= 0 {
      OffersOfEntry(store, rank, tpl, bound, n, tpl.entries[n]);
    } else {
      forall it | it in RefOffers(store, rank, tpl, bound, n) ensures it in Offers(store, rank, tpl, bound, 0) {
        OffersOfEntry(store, rank, tpl, bound, n, it);
      }
    }
  }

  /** An offered item has an entry that offers it. */
  lemma {:induction false} EntryOfOffer(store: map<nat, Template>, rank: map<nat, nat>, tpl: Template, bound: nat,
                                        m: nat, it: StoreItem)
    returns (n: nat)
    requires Acyclic(store, rank) && Descends(store, rank, tpl, bound) && m <= |tpl.entries|
    requires it in EntryOffers(store, rank, tpl, bound, m)
    ensures n < m
    ensures if tpl.entries[n].mincountOrRef >= 0 then it == tpl.entries[n]
            else it in RefOffers(store, rank, tpl, bound, n)
  {
    if it in EntryOffers(store, rank, tpl, bound, m - 1) {
      n := EntryOfOffer(store, rank, tpl, bound, m - 1, it);
    } else {
      n := m - 1;
    }
  }

  /** The search for quest drops follows references within the store of the template, rolling follows them into the
      store of references. They agree on a template exactly when it has a quest item itself, or its references lead to
      some in both stores or in neither. */
  lemma QuestSearchExactly(store: map<nat, Template>, rank: map<nat, nat>, bound: nat,
                           refs: map<nat, Template>, rank': map<nat, nat>, bound': nat, tpl: Template)
    requires Acyclic(store, rank) && Descends(store, rank, tpl, bound)
    requires Acyclic(refs, rank') && Descends(refs, rank', tpl, bound')
    ensures (HasQuest(Offers(store, rank, tpl, bound, 0)) <==> HasQuest(Offers(refs, rank', tpl, bound', 0)))
            <==> OwnQuest(tpl)
                 || (ReferredQuest(store, rank, tpl, bound) <==> ReferredQuest(refs, rank', tpl, bound'))
  {
    QuestIsOwnOrReferred(store, rank, tpl, bound);
    QuestIsOwnOrReferred(refs, rank', tpl, bound');
  }

  /** The stores hold the same templates under all ids that can be reached from a template. */
  ghost predicate SameBelow(store: map<nat, Template>, refs: map<nat, Template>, ids: set<nat>, tpl: Template) {
    && Within(tpl, ids)
    && forall id :: id in ids ==>
         (id in store <==> id in refs) && (id in store ==> store[id] == refs[id] && Within(store[id], ids))
  }

  predicate Within(tpl: Template, ids: set<nat>) {
    forall n :: 0 <= n < |tpl.entries| && tpl.entries[n].mincountOrRef < 0 ==> -tpl.entries[n].mincountOrRef in ids
  }

  /** Then both reach the same items, and the search finds a quest drop exactly when one can be rolled. */
  lemma {:induction false} SameBelowAgrees(store: map<nat, Template>, rank: map<nat, nat>, bound: nat,
                                           refs: map<nat, Template>, rank': map<nat, nat>, bound': nat, ids: set<nat>,
                                           tpl: Template, group: nat)
    requires Acyclic(store, rank) && Descends(store, rank, tpl, bound)
    requires Acyclic(refs, rank') && Descends(refs, rank', tpl, bound') && SameBelow(store, refs, ids, tpl)
    ensures Offers(store, rank, tpl, bound, group) == Offers(refs, rank', tpl, bound', group)
    decreases bound, 1, 0
  {
    if group == 0 { SameEntriesAgree(store, rank, bound, refs, rank', bound', ids, tpl, |tpl.entries|); }
  }

  lemma {:induction false} SameEntriesAgree(store: map<nat, Template>, rank: map<nat, nat>, bound: nat,
                                            refs: map<nat, Template>, rank': map<nat, nat>, bound': nat, ids: set<nat>,
                                            tpl: Template, n: nat)
    requires Acyclic(store, rank) && Descends(store, rank, tpl, bound) && n <= |tpl.entries|
    requires Acyclic(refs, rank') && Descends(refs, rank', tpl, bound') && SameBelow(store, refs, ids, tpl)
    ensures EntryOffers(store, rank, tpl, bound, n) == EntryOffers(refs, rank', tpl, bound', n)
    decreases bound, 0, n
  {
    if n > 0 {
      SameEntriesAgree(store, rank, bound, refs, rank', bound', ids, tpl, n - 1);
      var e := tpl.entries[n - 1];
      if e.mincountOrRef < 0 && -e.mincountOrRef in store {
        var ref := -e.mincountOrRef;
        SameBelowAgrees(store, rank, rank[ref], refs, rank', rank'[ref], ids, store[ref], e.group);
      }
    }
  }

  /** A template whose references are not in its own store: the search then finds just its own quest items, so it
      misses what rolling can add exactly when only its references lead to some. */
  lemma ReferencesAreMissed(store: map<nat, Template>, rank: map<nat, nat>, bound: nat,
                            refs: map<nat, Template>, rank': map<nat, nat>, bound': nat, tpl: Template)
    requires Acyclic(store, rank) && Acyclic(refs, rank') && Descends(refs, rank', tpl, bound')
    requires forall n :: 0 <= n < |tpl.entries| && tpl.entries[n].mincountOrRef < 0 ==>
               -tpl.entries[n].mincountOrRef !in store
    ensures Descends(store, rank, tpl, bound)
    ensures HasQuest(Offers(store, rank, tpl, bound, 0)) <==> OwnQuest(tpl)
    ensures (HasQuest(Offers(store, rank, tpl, bound, 0)) <==> HasQuest(Offers(refs, rank', tpl, bound', 0)))
            <==> OwnQuest(tpl) || !ReferredQuest(refs, rank', tpl, bound')
  {
    QuestIsOwnOrReferred(store, rank, tpl, bound);
    QuestIsOwnOrReferred(refs, rank', tpl, bound');
  }

  /** A creature whose loot is a reference to a template with a quest item is not found to drop one. */
  lemma QuestDropIsMissed(quest: StoreItem, ref: StoreItem)
    requires quest.needsQuest && quest.mincountOrRef > 0 && ref.mincountOrRef == -7 && ref.group == 0
    ensures var tpl := Template([ref], []);
            var store, refs := map[1 := tpl], map[7 := Template([quest], [])];
            && Acyclic(store, map[1 := 0]) && Acyclic(refs, map[7 := 0])
            && Descends(store, map[1 := 0], tpl, 0) && Descends(refs, map[7 := 0], tpl, 1)
            && !HasQuest(Offers(store, map[1 := 0], tpl, 0, 0)) && quest in Offers(refs, map[7 := 0], tpl, 1, 0)
  {
    var tpl, target := Template([ref], []), Template([quest], []);
    var store, refs := map[1 := tpl], map[7 := target];
    ReferencesAreMissed(store, map[1 := 0], 0, refs, map[7 := 0], 1, tpl);
    EntryIsOffered(refs, map[7 := 0], target, 0, 0);
    EntryIsOffered(refs, map[7 := 0], tpl, 1, 0);
    assert tpl.entries[0] == ref && target.entries[0] == quest;
    assert RefOffers(refs, map[7 := 0], tpl, 1, 0) == Offers(refs, map[7 := 0], target, 0, 0);
  }

  // ----- The counter is the number of possible takes -----

  /** Every list is what its player is offered, and the flags say who is listed. */
  ghost predicate Good(env: Env, s: State) {
    && |s.items| <= MAX_NR_LOOT_ITEMS && |s.questItems| <= MAX_NR_QUEST_ITEMS
    && (forall p :: p in s.playerFFA ==> s.playerFFA[p] == Marked(FFAIndexes(env, Kinds(s.items), p, |s.items|)))
    && (forall p :: p in s.playerConditional ==>
          s.playerConditional[p] == Marked(ConditionalIndexes(env, Kinds(s.items), p, |s.items|)))
    && (forall p :: p in s.playerQuest ==>
          s.playerQuest[p] == Marked(QuestIndexes(env, |s.items|, Kinds(s.questItems), p, |s.questItems|)))
    && (forall i :: 0 <= i < |s.questItems| ==> (s.questItems[i].blocked <==> Listed(s.playerQuest, i)))
    && (forall i :: 0 <= i < |s.items| ==> (s.items[i].counted <==> Listed(s.playerConditional, i)))
  }

  /** The counter is the number of possible takes, in eight bits. */
  ghost predicate Counted(s: State, takes: set<Take>) {
    AllTakes(s, takes) && s.unlootedCount == Bump(0, |takes|)
  }

  lemma MarkedIndexes(idx: seq<nat>)
    ensures forall i :: i in Indexes(Marked(idx)) <==> i in idx
  {
    forall i | i in idx ensures i in Indexes(Marked(idx)) {
      var k :| 0 <= k < |idx| && idx[k] == i;
      assert Marked(idx)[k] in Marked(idx);
    }
  }

  lemma RaisedBy<T>(c: uint8, before: set<T>, gain: set<T>)
    requires c == Bump(0, |before|) && before !! gain
    ensures Bump(c, |gain|) == Bump(0, |before + gain|)
  {
    assert |before + gain| == |before| + |gain|;
    BumpAdds(0, |before|, |gain|);
  }

  lemma ListedAfter(m: map<nat, seq<QuestItem>>, p: nat, idx: seq<nat>, i: nat)
    requires p !in m
    ensures Listed(m[p := Marked(idx)], i) <==> Listed(m, i) || i in idx
  {
    var m' := m[p := Marked(idx)];
    MarkedIndexes(idx);
    if i in idx { assert p in m' && i in Indexes(m'[p]); }
    if Listed(m, i) {
      var q :| q in m && i in Indexes(m[q]);
      assert q in m' && i in Indexes(m'[q]);
    }
  }

  lemma RaisedTo(s: State, s': State, takes: set<Take>, gain: set<Take>)
    requires Counted(s, takes) && s'.unlootedCount == Bump(s.unlootedCount, |gain|)
    requires forall t :: t in gain ==> !IsTake(s, t)
    requires forall t :: IsTake(s', t) <==> IsTake(s, t) || t in gain
    ensures Counted(s', takes + gain)
  {
    RaisedBy(s.unlootedCount, takes, gain);
  }

  /** Filling a list adds exactly the takes it was counted for. */
  lemma FfaTake(s: State, s': State, p: nat, idx: seq<nat>, t: Take)
    requires p !in s.playerFFA
    requires s' == s.(playerFFA := s.playerFFA[p := Marked(idx)], unlootedCount := s'.unlootedCount)
    ensures t in FfaGain(p, idx) ==> !IsTake(s, t)
    ensures IsTake(s', t) <==> IsTake(s, t) || t in FfaGain(p, idx)
  {
    if t.Ffa? { MarkedIndexes(idx); }
  }

  lemma ConditionalTake(s: State, s': State, p: nat, idx: seq<nat>, t: Take)
    requires p !in s.playerConditional && forall i :: i in idx ==> i < |s.items|
    requires forall i :: 0 <= i < |s.items| ==> (s.items[i].counted <==> Listed(s.playerConditional, i))
    requires s' == s.(playerConditional := s.playerConditional[p := Marked(idx)], items := Count(s.items, idx),
                      unlootedCount := s'.unlootedCount)
    ensures t in ConditionalGain(s.items, idx) ==> !IsTake(s, t)
    ensures IsTake(s', t) <==> IsTake(s, t) || t in ConditionalGain(s.items, idx)
  {
    if t.ConditionalOnce? { ListedAfter(s.playerConditional, p, idx, t.i); }
  }

  lemma QuestIsTake(s: State, s': State, p: nat, idx: seq<nat>, t: Take)
    requires p !in s.playerQuest && forall i :: i in idx ==> i < |s.questItems|
    requires forall i :: 0 <= i < |s.questItems| ==> (s.questItems[i].blocked <==> Listed(s.playerQuest, i))
    requires s' == s.(playerQuest := s.playerQuest[p := Marked(idx)], questItems := Block(s.questItems, idx),
                      unlootedCount := s'.unlootedCount)
    ensures t in QuestGain(s.questItems, p, idx) ==> !IsTake(s, t)
    ensures IsTake(s', t) <==> IsTake(s, t) || t in QuestGain(s.questItems, p, idx)
  {
    match t
    case QuestOnce(i) => ListedAfter(s.playerQuest, p, idx, i);
    case QuestEach(q, i) =>
      MarkedIndexes(idx);
      if q == p && i in idx {
        assert QuestTake(s.questItems[i].kind, p, i) in QuestGain(s.questItems, p, idx)
               || !s.questItems[i].kind.freeforall;
      }
    case _ =>
  }

  predicate GetsFFA(env: Env, s: State, p: nat) {
    p in env.inWorld && FFAIndexes(env, Kinds(s.items), p, |s.items|) != []
  }

  predicate GetsConditional(env: Env, s: State, p: nat) {
    p in env.inWorld && ConditionalIndexes(env, Kinds(s.items), p, |s.items|) != []
  }

  predicate GetsQuest(env: Env, s: State, p: nat) {
    p in env.inWorld && QuestIndexes(env, |s.items|, Kinds(s.questItems), p, |s.questItems|) != []
  }

  lemma FillFFAExact(env: Env, s: State, p: nat)
    ensures var idx := FFAIndexes(env, Kinds(s.items), p, |s.items|);
            FillFFA(env, s, p) == if !GetsFFA(env, s, p) then s
              else s.(playerFFA := s.playerFFA[p := Marked(idx)],
                      unlootedCount := Bump(s.unlootedCount, |FfaGain(p, idx)|))
  {
    FFAWalkExact(env, s.items, p, |s.items|);
  }

  lemma FillConditionalExact(env: Env, s: State, p: nat)
    ensures var idx := ConditionalIndexes(env, Kinds(s.items), p, |s.items|);
            FillConditional(env, s, p) == if !GetsConditional(env, s, p) then s
              else s.(playerConditional := s.playerConditional[p := Marked(idx)], items := Count(s.items, idx),
                      unlootedCount := Bump(s.unlootedCount, |ConditionalGain(s.items, idx)|))
    ensures forall i :: i in ConditionalIndexes(env, Kinds(s.items), p, |s.items|) ==> i < |s.items|
  {
    ConditionalWalkExact(env, s.items, p, |s.items|);
    IndexesIncrease(env, 0, Kinds(s.items), p, |s.items|);
  }

  lemma FillQuestExact(env: Env, s: State, p: nat)
    ensures var idx := QuestIndexes(env, |s.items|, Kinds(s.questItems), p, |s.questItems|);
            FillQuest(env, s, p) == if !GetsQuest(env, s, p) then s
              else s.(playerQuest := s.playerQuest[p := Marked(idx)], questItems := Block(s.questItems, idx),
                      unlootedCount := Bump(s.unlootedCount, |QuestGain(s.questItems, p, idx)|))
    ensures forall i :: i in QuestIndexes(env, |s.items|, Kinds(s.questItems), p, |s.questItems|) ==> i < |s.questItems|
  {
    QuestWalkItems(env, |s.items|, s.questItems, p, |s.questItems|);
    QuestWalkAdded(env, |s.items|, s.questItems, p, |s.questItems|);
    IndexesIncrease(env, |s.items|, Kinds(s.questItems), p, |s.questItems|);
  }

  lemma FillFFAKeeps(env: Env, s: State, s': State, p: nat, takes: set<Take>) returns (after: set<Take>)
    requires s' == FillFFA(env, s, p)
    requires Good(env, s) && Counted(s, takes) && p !in s.playerFFA
    ensures Good(env, s') && Counted(s', after)
  {
    after := takes;
    var idx := FFAIndexes(env, Kinds(s.items), p, |s.items|);
    FillFFAExact(env, s, p);
    if GetsFFA(env, s, p) {
      forall t { FfaTake(s, s', p, idx, t); }
      RaisedTo(s, s', takes, FfaGain(p, idx));
      after := takes + FfaGain(p, idx);
    }
  }

  lemma ConditionalGood(env: Env, s: State, s': State, p: nat)
    requires Good(env, s) && p !in s.playerConditional
    requires s'.unlootedCount == s.unlootedCount
    requires var idx := ConditionalIndexes(env, Kinds(s.items), p, |s.items|);
             s' == s.(playerConditional := s.playerConditional[p := Marked(idx)], items := Count(s.items, idx))
    ensures Good(env, s')
  {
    forall i: nat { ListedAfter(s.playerConditional, p, ConditionalIndexes(env, Kinds(s.items), p, |s.items|), i); }
  }

  lemma FillConditionalKeeps(env: Env, s: State, s': State, p: nat, takes: set<Take>) returns (after: set<Take>)
    requires s' == FillConditional(env, s, p)
    requires Good(env, s) && Counted(s, takes) && p !in s.playerConditional
    ensures Good(env, s') && Counted(s', after)
  {
    after := takes;
    var idx := ConditionalIndexes(env, Kinds(s.items), p, |s.items|);
    FillConditionalExact(env, s, p);
    if GetsConditional(env, s, p) {
      forall t { ConditionalTake(s, s', p, idx, t); }
      RaisedTo(s, s', takes, ConditionalGain(s.items, idx));
      after := takes + ConditionalGain(s.items, idx);
      assert Good(env, s') by { ConditionalGood(env, s, s'.(unlootedCount := s.unlootedCount), p); }
    }
  }

  lemma QuestGood(env: Env, s: State, s': State, p: nat)
    requires Good(env, s) && p !in s.playerQuest
    requires s'.unlootedCount == s.unlootedCount
    requires var idx := QuestIndexes(env, |s.items|, Kinds(s.questItems), p, |s.questItems|);
             s' == s.(playerQuest := s.playerQuest[p := Marked(idx)], questItems := Block(s.questItems, idx))
    ensures Good(env, s')
  {
    var idx := QuestIndexes(env, |s.items|, Kinds(s.questItems), p, |s.questItems|);
    forall i: nat { ListedAfter(s.playerQuest, p, idx, i); }
  }

  lemma FillQuestKeeps(env: Env, s: State, s': State, p: nat, takes: set<Take>) returns (after: set<Take>)
    requires s' == FillQuest(env, s, p)
    requires Good(env, s) && Counted(s, takes) && p !in s.playerQuest
    ensures Good(env, s') && Counted(s', after)
  {
    after := takes;
    var idx := QuestIndexes(env, |s.items|, Kinds(s.questItems), p, |s.questItems|);
    FillQuestExact(env, s, p);
    if GetsQuest(env, s, p) {
      forall t { QuestIsTake(s, s', p, idx, t); }
      RaisedTo(s, s', takes, QuestGain(s.questItems, p, idx));
      after := takes + QuestGain(s.questItems, p, idx);
      assert Good(env, s') by { QuestGood(env, s, s'.(unlootedCount := s.unlootedCount), p); }
    }
  }

  lemma FillForKeeps(env: Env, s: State, p: nat, takes: set<Take>) returns (after: set<Take>)
    requires Good(env, s) && Counted(s, takes)
    ensures Good(env, FillFor(env, s, p)) && Counted(FillFor(env, s, p), after)
  {
    after := takes;
    var s1 := if p in s.playerQuest then s else FillQuest(env, s, p);
    if p !in s.playerQuest { after := FillQuestKeeps(env, s, s1, p, after); }
    var s2 := if p in s1.playerFFA then s1 else FillFFA(env, s1, p);
    if p !in s1.playerFFA { after := FillFFAKeeps(env, s1, s2, p, after); }
    if p !in s2.playerConditional { after := FillConditionalKeeps(env, s2, FillFor(env, s, p), p, after); }
  }

  /** Whatever players are gone through, in whatever order and however often, each possible take is
      counted once. */
  lemma {:induction false} FillForAllKeeps(env: Env, s: State, players: seq<nat>, takes: set<Take>)
    returns (after: set<Take>)
    requires Good(env, s) && Counted(s, takes)
    ensures Good(env, FillForAll(env, s, players)) && Counted(FillForAll(env, s, players), after)
    decreases |players|
  {
    after := takes;
    if players != [] {
      after := FillForAllKeeps(env, s, players[..|players| - 1], takes);
      after := FillForKeeps(env, FillForAll(env, s, players[..|players| - 1]), players[|players| - 1], after);
    }
  }

  // ----- The order of the players does not matter -----

  predicate SameKinds(s: State, s': State) {
    && |s'.items| == |s.items| && Kinds(s'.items) == Kinds(s.items)
    && |s'.questItems| == |s.questItems| && Kinds(s'.questItems) == Kinds(s.questItems)
  }

  lemma SameKindsGets(env: Env, s: State, s': State, p: nat)
    requires SameKinds(s, s')
    ensures GetsFFA(env, s', p) == GetsFFA(env, s, p)
    ensures GetsConditional(env, s', p) == GetsConditional(env, s, p)
    ensures GetsQuest(env, s', p) == GetsQuest(env, s, p)
  {
  }

  function With(keys: set<nat>, gets: bool, p: nat): set<nat> { if gets then keys + {p} else keys }

  /** Which players have lists after one fill, and that the items stay what they are. */
  predicate KeysAfter(s: State, s': State, p: nat, ffa: bool, conditional: bool, quest: bool) {
    && SameKinds(s, s')
    && s'.playerFFA.Keys == With(s.playerFFA.Keys, ffa, p)
    && s'.playerConditional.Keys == With(s.playerConditional.Keys, conditional, p)
    && s'.playerQuest.Keys == With(s.playerQuest.Keys, quest, p)
  }

  lemma QuestKeys(env: Env, s: State, p: nat)
    ensures KeysAfter(s, if p in s.playerQuest then s else FillQuest(env, s, p), p, false, false,
                      GetsQuest(env, s, p) && p !in s.playerQuest)
  {
    FillQuestExact(env, s, p);
  }

  lemma FFAKeys(env: Env, s: State, p: nat)
    ensures KeysAfter(s, if p in s.playerFFA then s else FillFFA(env, s, p), p,
                      GetsFFA(env, s, p) && p !in s.playerFFA, false, false)
  {
    FillFFAExact(env, s, p);
  }

  lemma ConditionalKeys(env: Env, s: State, p: nat)
    ensures KeysAfter(s, if p in s.playerConditional then s else FillConditional(env, s, p), p, false,
                      GetsConditional(env, s, p) && p !in s.playerConditional, false)
  {
    FillConditionalExact(env, s, p);
  }

  lemma FillKinds(env: Env, s: State, p: nat)
    ensures KeysAfter(s, FillFor(env, s, p), p, GetsFFA(env, s, p) && p !in s.playerFFA,
                      GetsConditional(env, s, p) && p !in s.playerConditional,
                      GetsQuest(env, s, p) && p !in s.playerQuest)
  {
    var s1 := if p in s.playerQuest then s else FillQuest(env, s, p);
    QuestKeys(env, s, p);
    SameKindsGets(env, s, s1, p);
    var s2 := if p in s1.playerFFA then s1 else FillFFA(env, s1, p);
    FFAKeys(env, s1, p);
    SameKindsGets(env, s1, s2, p);
    ConditionalKeys(env, s2, p);
  }

  /** Starting without lists, exactly those players have one who were gone through and get something. */
  lemma {:induction false} FillForAllKeys(env: Env, s: State, players: seq<nat>)
    requires s.playerFFA == map[] && s.playerConditional == map[] && s.playerQuest == map[]
    ensures SameKinds(s, FillForAll(env, s, players))
    ensures forall p :: p in FillForAll(env, s, players).playerFFA <==> p in players && GetsFFA(env, s, p)
    ensures forall p ::
              p in FillForAll(env, s, players).playerConditional <==> p in players && GetsConditional(env, s, p)
    ensures forall p :: p in FillForAll(env, s, players).playerQuest <==> p in players && GetsQuest(env, s, p)
    decreases |players|
  {
    if players != [] {
      var rest, last := players[..|players| - 1], players[|players| - 1];
      assert players == rest + [last];
      FillForAllKeys(env, s, rest);
      var before := FillForAll(env, s, rest);
      FillKinds(env, before, last);
      SameKindsGets(env, s, before, last);
    }
  }

  lemma GoodDetermined(env: Env, a: State, b: State)
    requires Good(env, a) && Good(env, b) && SameKinds(a, b)
    requires a.playerFFA.Keys == b.playerFFA.Keys && a.playerConditional.Keys == b.playerConditional.Keys
    requires a.playerQuest.Keys == b.playerQuest.Keys
    ensures a.playerFFA == b.playerFFA && a.playerConditional == b.playerConditional && a.playerQuest == b.playerQuest
  {
    assert forall p :: p in a.playerFFA ==> a.playerFFA[p] == b.playerFFA[p];
    assert forall p :: p in a.playerConditional ==> a.playerConditional[p] == b.playerConditional[p];
    assert forall p :: p in a.playerQuest ==> a.playerQuest[p] == b.playerQuest[p];
  }

  lemma SameListsSameTakes(a: State, b: State)
    requires SameKinds(a, b)
    requires a.playerFFA == b.playerFFA && a.playerConditional == b.playerConditional && a.playerQuest == b.playerQuest
    ensures forall t :: IsTake(a, t) <==> IsTake(b, t)
  {
    assert forall i :: 0 <= i < |a.items| ==> Kinds(a.items)[i] == Kinds(b.items)[i];
    assert forall i :: 0 <= i < |a.questItems| ==> Kinds(a.questItems)[i] == Kinds(b.questItems)[i];
  }

  /** Two orders of the same players give the same lists and the same count. */
  lemma OrderIrrelevant(env: Env, s: State, one: seq<nat>, other: seq<nat>, takes: set<Take>)
    requires Good(env, s) && Counted(s, takes)
    requires s.playerFFA == map[] && s.playerConditional == map[] && s.playerQuest == map[]
    requires forall p :: p in one <==> p in other
    ensures var a, b := FillForAll(env, s, one), FillForAll(env, s, other);
            a.playerFFA == b.playerFFA && a.playerConditional == b.playerConditional && a.playerQuest == b.playerQuest
            && a.unlootedCount == b.unlootedCount
  {
    var a, b := FillForAll(env, s, one), FillForAll(env, s, other);
    var ta := FillForAllKeeps(env, s, one, takes);
    var tb := FillForAllKeeps(env, s, other, takes);
    FillForAllSameKeys(env, s, one, other);
    GoodDetermined(env, a, b);
    SameListsSameTakes(a, b);
    assert ta == tb;
  }

  lemma FillForAllSameKeys(env: Env, s: State, one: seq<nat>, other: seq<nat>)
    requires s.playerFFA == map[] && s.playerConditional == map[] && s.playerQuest == map[]
    requires forall p :: p in one <==> p in other
    ensures var a, b := FillForAll(env, s, one), FillForAll(env, s, other);
            SameKinds(a, b) && a.playerFFA.Keys == b.playerFFA.Keys
            && a.playerConditional.Keys == b.playerConditional.Keys && a.playerQuest.Keys == b.playerQuest.Keys
  {
    FillForAllKeys(env, s, one);
    FillForAllKeys(env, s, other);
  }

  // ----- A whole fill -----

  const FRESH := State([], [], map[], map[], map[], 0)

  ghost predicate NoLists(s: State) {
    s.playerFFA == map[] && s.playerConditional == map[] && s.playerQuest == map[]
    && (forall i :: 0 <= i < |s.items| ==> !s.items[i].counted)
    && (forall i :: 0 <= i < |s.questItems| ==> !s.questItems[i].blocked)
  }

  lemma AddTake(env: Env, s: State, it: StoreItem, t: Take)
    requires NoLists(s)
    ensures IsTake(Add(env, s, it), t)
       <==> IsTake(s, t) || (|Add(env, s, it).items| > |s.items| && Plain(NewItem(env, it).kind)
                             && t == Shared(|s.items|))
  {
  }

  lemma AddStaysGood(env: Env, s: State, it: StoreItem)
    requires Good(env, s) && NoLists(s)
    ensures Good(env, Add(env, s, it)) && NoLists(Add(env, s, it))
  {
  }

  lemma AddKeeps(env: Env, s: State, it: StoreItem, takes: set<Take>) returns (after: set<Take>)
    requires Good(env, s) && NoLists(s) && Counted(s, takes)
    ensures Good(env, Add(env, s, it)) && NoLists(Add(env, s, it)) && Counted(Add(env, s, it), after)
  {
    AddStaysGood(env, s, it);
    forall t { AddTake(env, s, it, t); }
    after := takes;
    if |Add(env, s, it).items| > |s.items| && Plain(NewItem(env, it).kind) {
      RaisedTo(s, Add(env, s, it), takes, {Shared(|s.items|)});
      after := takes + {Shared(|s.items|)};
    }
  }

  /** Adding items keeps the limits, counts the plain ones, and adds quest items only for entries that
      need a quest. */
  lemma {:induction false} AddAllKeeps(env: Env, added: seq<StoreItem>) returns (takes: set<Take>)
    ensures Good(env, AddAll(env, FRESH, added)) && NoLists(AddAll(env, FRESH, added))
    ensures Counted(AddAll(env, FRESH, added), takes)
    ensures (forall it :: it in added ==> !it.needsQuest) ==> AddAll(env, FRESH, added).questItems == []
    decreases |added|
  {
    if added == [] {
      takes := {};
    } else {
      takes := AddAllKeeps(env, added[..|added| - 1]);
      takes := AddKeeps(env, AddAll(env, FRESH, added[..|added| - 1]), added[|added| - 1], takes);
    }
  }

  /** A rolled quest item has been on offer: the template has a quest drop. */
  lemma QuestItemsAreOffered(env: Env, offers: set<StoreItem>, added: seq<StoreItem>)
    requires forall it :: it in added ==> it in offers
    ensures AddAll(env, FRESH, added).questItems != [] ==> HasQuest(offers)
  {
    var takes := AddAllKeeps(env, added);
  }

  lemma SameKindsHold(env: Env, a: State, b: State, plain: seq<StoreItem>, quest: seq<StoreItem>)
    requires SameKinds(a, b) && Holds(env, a.items, plain, 16) && Holds(env, a.questItems, quest, 32)
    ensures Holds(env, b.items, plain, 16) && Holds(env, b.questItems, quest, 32)
  {
    assert forall i :: 0 <= i < |a.items| ==> Kinds(a.items)[i] == Kinds(b.items)[i];
    assert forall i :: 0 <= i < |a.questItems| ==> Kinds(a.questItems)[i] == Kinds(b.questItems)[i];
  }

  /** Fills a fresh loot from a template for a group, or for its owner alone. */
  method FillLoot(loot: Loot, store: map<nat, Template>, refs: map<nat, Template>, ghost rank: map<nat, nat>,
                  ghost bound: nat, id: nat, looters: seq<nat>, dice: Dice)
    returns (ok: bool, ghost takes: set<Take>)
    requires loot.Model() == FRESH && Acyclic(refs, rank) && (id in store ==> Descends(refs, rank, store[id], bound))
    modifies loot
    ensures ok <==> id in store
    ensures !ok ==> loot.Model() == FRESH
    ensures ok ==> var added := Drops(loot.env, refs, rank, store[id], bound, 0, dice, 0).items;
                   loot.Model() == FillForAll(loot.env, AddAll(loot.env, FRESH, added), looters)
    ensures ok ==> var added := Drops(loot.env, refs, rank, store[id], bound, 0, dice, 0).items;
                   && Holds(loot.env, loot.items, OfSort(added, false), MAX_NR_LOOT_ITEMS)
                   && Holds(loot.env, loot.questItems, OfSort(added, true), MAX_NR_QUEST_ITEMS)
    ensures ok ==> Good(loot.env, loot.Model()) && Counted(loot.Model(), takes) && loot.Untouched()
    ensures ok && loot.questItems != [] ==> HasQuest(Offers(refs, rank, store[id], bound, 0))
  {
    takes := {};
    if id !in store { return false, {}; }
    ghost var added: seq<StoreItem>;
    var next;
    added, next := loot.Process(refs, rank, store[id], bound, 0, dice, 0);
    DropsAreOffered(loot.env, refs, rank, store[id], bound, 0, dice, 0);
    FreshHolds(loot.env, added);
    takes := AddAllKeeps(loot.env, added);
    ghost var rolled := loot.Model();
    for n := 0 to |looters|
      invariant loot.Untouched() && |loot.items| <= MAX_NR_LOOT_ITEMS
      invariant loot.Model() == FillForAll(loot.env, rolled, looters[..n])
    {
      assert looters[..n + 1][..n] == looters[..n];
      loot.FillNotNormalLootFor(looters[n]);
    }
    assert looters[..|looters|] == looters;
    takes := FillForAllKeeps(loot.env, rolled, looters, takes);
    FillForAllKeys(loot.env, rolled, looters);
    SameKindsHold(loot.env, rolled, loot.Model(), OfSort(added, false), OfSort(added, true));
    QuestItemsAreOffered(loot.env, Offers(refs, rank, store[id], bound, 0), added);
    ok := true;
  }

  /** The counter is exact as long as it can hold the number. */
  lemma CounterExact(s: State, takes: set<Take>)
    requires Counted(s, takes)
    ensures s.unlootedCount == |takes| % 256
    ensures s.unlootedCount == |takes| <==> |takes| < 256
  {
    BumpWraps(|takes|);
  }

  // ----- Slots -----

  datatype Slot = Normal(i: nat) | Quest(i: nat)

  function MaxSlot(s: State, p: nat): nat {
    |s.items| + if p in s.playerQuest then |s.playerQuest[p]| else 0
  }

  /** Whether m has, in p's list, an entry for a slot; and whether the first such has been taken. */
  predicate HasEntry(m: map<nat, seq<QuestItem>>, p: nat, slot: nat) {
    p in m && exists n :: 0 <= n < |m[p]| && m[p][n].index == slot
  }

  predicate IsFirst(list: seq<QuestItem>, slot: nat, n: nat) {
    n < |list| && list[n].index == slot && forall k :: 0 <= k < n ==> list[k].index != slot
  }

  /** Whether what is in a slot has been taken, as far as this player is concerned: a player's own entry
      decides, where there is one, for items everybody gets and for conditional ones that are still there. */
  ghost predicate Taken(s: State, p: nat, slot: nat)
    requires slot < MaxSlot(s, p) && QuestListsFit(s)
  {
    if slot >= |s.items| then
      var q := s.playerQuest[p][slot - |s.items|];
      s.questItems[q.index].looted || q.looted
    else if s.items[slot].kind.freeforall then
      if HasEntry(s.playerFFA, p, slot)
      then exists n: nat :: IsFirst(s.playerFFA[p], slot, n) && s.playerFFA[p][n].looted
      else s.items[slot].looted
    else
      s.items[slot].looted
      || (s.items[slot].kind.conditionId != 0 && HasEntry(s.playerConditional, p, slot)
          && exists n: nat :: IsFirst(s.playerConditional[p], slot, n) && s.playerConditional[p][n].looted)
  }

  predicate QuestListsFit(s: State) {
    forall q :: q in s.playerQuest ==>
      forall n :: 0 <= n < |s.playerQuest[q]| ==> s.playerQuest[q][n].index < |s.questItems|
  }

  /** The item in a slot, if there is one that has not been taken, and the player's own entry for it. */
  method LootItemInSlot(s: State, slot: nat, p: nat) returns (r: Option<Slot>, own: Option<nat>)
    requires QuestListsFit(s)
    ensures r.Some? <==> slot < MaxSlot(s, p) && !Taken(s, p, slot)
    ensures r.Some? ==> r.value == SlotTarget(s, p, slot)
    ensures own.Some? && slot >= |s.items| ==> own.value == slot - |s.items| && slot < MaxSlot(s, p)
    ensures own.Some? && slot < |s.items| ==>
              if s.items[slot].kind.freeforall then p in s.playerFFA && IsFirst(s.playerFFA[p], slot, own.value)
              else p in s.playerConditional && IsFirst(s.playerConditional[p], slot, own.value)
  {
    own := None;
    if slot >= |s.items| {
      if p in s.playerQuest && slot - |s.items| < |s.playerQuest[p]| {
        var q := s.playerQuest[p][slot - |s.items|];
        own := Some(slot - |s.items|);
        if !s.questItems[q.index].looted && !q.looted { return Some(Quest(q.index)), own; }
      }
      return None, own;
    }
    var item := s.items[slot];
    var looted := item.looted;
    if item.kind.freeforall {
      own := FindEntry(s.playerFFA, p, slot);
      if own.Some? { looted := s.playerFFA[p][own.value].looted; }
    } else if item.kind.conditionId != 0 && !looted {
      own := FindEntry(s.playerConditional, p, slot);
      if own.Some? { looted := s.playerConditional[p][own.value].looted; }
    }
    if looted { return None, own; }
    return Some(Normal(slot)), own;
  }

  method FindEntry(m: map<nat, seq<QuestItem>>, p: nat, slot: nat) returns (r: Option<nat>)
    ensures r.Some? <==> HasEntry(m, p, slot)
    ensures r.Some? ==> IsFirst(m[p], slot, r.value)
    ensures r.Some? ==> forall n: nat :: IsFirst(m[p], slot, n) ==> n == r.value
  {
    if p in m {
      for n := 0 to |m[p]|
        invariant forall k :: 0 <= k < n ==> m[p][k].index != slot
      {
        if m[p][n].index == slot { return Some(n); }
      }
    }
    return None;
  }

  /** The first of a player's entries for a slot, or none if there is none. */
  predicate FirstFor(list: seq<QuestItem>, slot: nat, own: Option<nat>) {
    match own
    case Some(n) => n < |list| && list[n].index == slot && slot !in SlotsOf(list[..n])
    case None => slot !in SlotsOf(list)
  }

  function SlotsOf(list: seq<QuestItem>): set<nat> { set n | 0 <= n < |list| :: list[n].index }

  /** Who decides whether a slot is taken: of what everybody gets the player's own entry, and the item for who has
      none; of what has a condition both; of anything else the item. */
  lemma TakenExactly(s: State, p: nat, slot: nat, own: Option<nat>)
    requires QuestListsFit(s) && slot < |s.items|
    requires var m := if s.items[slot].kind.freeforall then s.playerFFA else s.playerConditional;
             FirstFor(if p in m then m[p] else [], slot, own)
    ensures slot < MaxSlot(s, p)
    ensures var item := s.items[slot];
            Taken(s, p, slot) <==>
            if item.kind.freeforall then
              match own case Some(n) => s.playerFFA[p][n].looted case None => item.looted
            else if item.kind.conditionId != 0 && own.Some? then
              item.looted || s.playerConditional[p][own.value].looted
            else item.looted
  {
    var m := if s.items[slot].kind.freeforall then s.playerFFA else s.playerConditional;
    if p in m {
      if own.Some? {
        assert HasEntry(m, p, slot);
        forall k | 0 <= k < own.value ensures m[p][k].index != slot {
          assert m[p][..own.value][k].index in SlotsOf(m[p][..own.value]);
        }
        assert IsFirst(m[p], slot, own.value);
      } else {
        forall k | 0 <= k < |m[p]| ensures m[p][k].index != slot { assert m[p][k].index in SlotsOf(m[p]); }
      }
    }
  }

  /** Behind the items come those of the player's own quest list, as many as it has, which are taken with the item as
      with the entry. */
  lemma QuestSlotTakenExactly(s: State, p: nat, j: nat)
    requires QuestListsFit(s)
    ensures |s.items| + j < MaxSlot(s, p) <==> p in s.playerQuest && j < |s.playerQuest[p]|
    ensures |s.items| + j < MaxSlot(s, p) ==>
              var q := s.playerQuest[p][j];
              (Taken(s, p, |s.items| + j) <==> q.looted || s.questItems[q.index].looted)
              && SlotTarget(s, p, |s.items| + j) == Quest(q.index)
  {
  }

  /** In a loot as filled, nothing has been taken from any slot. */
  lemma NothingIsTaken(env: Env, s: State, p: nat, slot: nat)
    requires Good(env, s) && slot < MaxSlot(s, p)
    requires (forall i :: 0 <= i < |s.items| ==> !s.items[i].looted)
    requires (forall i :: 0 <= i < |s.questItems| ==> !s.questItems[i].looted)
    ensures QuestListsFit(s) && !Taken(s, p, slot)
  {
    forall q | q in s.playerQuest
      ensures forall n :: 0 <= n < |s.playerQuest[q]| ==> s.playerQuest[q][n].index < |s.questItems|
    {
      IndexesIncrease(env, |s.items|, Kinds(s.questItems), q, |s.questItems|);
    }
  }

  /** Where a slot below the maximum leads, while nothing has been taken. */
  function SlotTarget(s: State, p: nat, slot: nat): Slot
    requires slot < MaxSlot(s, p)
  {
    if slot < |s.items| then Normal(slot) else Quest(s.playerQuest[p][slot - |s.items|].index)
  }

  /** In a loot as filled, a player sees at most 16 slots, each leads to an item there is, and no two
      lead to the same one. */
  lemma SlotsInjective(env: Env, s: State, p: nat, a: nat, b: nat)
    requires Good(env, s) && a < b < MaxSlot(s, p)
    ensures MaxSlot(s, p) <= MAX_NR_LOOT_ITEMS
    ensures SlotTarget(s, p, a) != SlotTarget(s, p, b)
    ensures match SlotTarget(s, p, b) case Normal(i) => i < |s.items| case Quest(i) => i < |s.questItems|
  {
    IndexesIncrease(env, |s.items|, Kinds(s.questItems), p, |s.questItems|);
  }

  // ----- Loading a template -----

  function Resized(groups: seq<Group>, size: nat): seq<Group> {
    if size <= |groups| then groups else groups + seq(size - |groups|, _ => Group([], []))
  }

  function AddToGroup(g: Group, it: StoreItem): Group {
    if it.chance != 0.0 then g.(explicit := g.explicit + [it]) else g.(equal := g.equal + [it])
  }

  function AddEntry(tpl: Template, it: StoreItem): Template {
    if it.group > 0 && it.mincountOrRef > 0 then
      var groups := Resized(tpl.groups, it.group);
      tpl.(groups := groups[it.group - 1 := AddToGroup(groups[it.group - 1], it)])
    else tpl.(entries := tpl.entries + [it])
  }

  lemma {:induction false} GroupsItemsUpdate(groups: seq<Group>, size: nat, k: nat, it: StoreItem, n: nat)
    requires k < |Resized(groups, size)| && n <= |Resized(groups, size)|
    ensures var g := Resized(groups, size);
            GroupsItems(g[k := AddToGroup(g[k], it)], n)
            == GroupsItems(groups, if n <= |groups| then n else |groups|) + if k < n then {it} else {}
    decreases n
  {
    if n > 0 {
      GroupsItemsUpdate(groups, size, k, it, n - 1);
      var g := Resized(groups, size);
      AddToGroupItems(g[k], it);
      assert n <= |groups| ==> g[n - 1] == groups[n - 1];
      assert n > |groups| ==> GroupItems(g[n - 1]) == {};
      assert g[k := AddToGroup(g[k], it)][n - 1] == if n - 1 == k then AddToGroup(g[k], it) else g[n - 1];
    }
  }

  lemma AddToGroupItems(g: Group, it: StoreItem)
    ensures GroupItems(AddToGroup(g, it)) == GroupItems(g) + {it}
  {
  }

  /** Loading an entry puts it where rolling will find it, and takes nothing away. */
  lemma AddEntryAdds(tpl: Template, it: StoreItem)
    ensures var t := AddEntry(tpl, it);
            if it.group > 0 && it.mincountOrRef > 0
            then t.entries == tpl.entries
                 && GroupsItems(t.groups, |t.groups|) == GroupsItems(tpl.groups, |tpl.groups|) + {it}
                 && it.group <= |t.groups| && it in GroupItems(t.groups[it.group - 1])
            else t.groups == tpl.groups && t.entries == tpl.entries + [it]
    ensures it.group > 0 && it.mincountOrRef > 0 ==>
              var t, k := AddEntry(tpl, it), it.group - 1;
              && |t.groups| == (if it.group <= |tpl.groups| then |tpl.groups| else it.group)
              && forall j :: 0 <= j < |t.groups| ==>
                   var was := if j < |tpl.groups| then tpl.groups[j] else Group([], []);
                   && t.groups[j].explicit == was.explicit + (if j == k && it.chance != 0.0 then [it] else [])
                   && t.groups[j].equal == was.equal + (if j == k && it.chance == 0.0 then [it] else [])
  {
    if it.group > 0 && it.mincountOrRef > 0 {
      GroupsItemsUpdate(tpl.groups, it.group, it.group - 1, it, |Resized(tpl.groups, it.group)|);
    }
  }
}
