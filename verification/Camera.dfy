/** Cameras of players and the viewpoints they look from: every camera hangs in the list of exactly one
    viewpoint, also while events make cameras leave the list that is being gone through. */
module Cameras {

  import opened Wrappers

  /** A world object with its viewpoint: the cameras looking from it and the grid it is in (0 for none). */
  class WorldObject {
    const viewable: bool
    var inWorld: bool
    var mapId: nat
    var grid: nat
    var cameras: seq<Camera>

    constructor (viewable: bool, inWorld: bool, mapId: nat)
      ensures this.viewable == viewable && this.inWorld == inWorld && this.mapId == mapId
      ensures grid == 0 && cameras == []
    {
      this.viewable, this.inWorld, this.mapId := viewable, inWorld, mapId;
      grid, cameras := 0, [];
    }

    predicate IsInMap(obj: WorldObject)
      reads this, obj
    {
      inWorld && obj.inWorld && mapId == obj.mapId
    }

    method Attach(c: Camera)
      modifies `cameras
      ensures cameras == old(cameras) + [c]
    {
      cameras := cameras + [c];
    }

    method Detach(c: Camera)
      modifies `cameras
      ensures cameras == Remove(old(cameras), c)
    {
      cameras := Remove(cameras, c);
    }
  }

  /** The list without any occurrence of an element. */
  function Remove<T(==)>(s: seq<T>, x: T): seq<T> {
    if s == [] then [] else if s[0] == x then Remove(s[1..], x) else [s[0]] + Remove(s[1..], x)
  }

  lemma {:induction false} RemoveAbsent<T>(s: seq<T>, x: T)
    requires x !in s
    ensures Remove(s, x) == s
  {
    if s != [] { RemoveAbsent(s[1..], x); }
  }

  lemma {:induction false} RemoveCounts<T>(s: seq<T>, x: T)
    ensures multiset(Remove(s, x)) == multiset(s)[x := 0]
  {
    if s != [] {
      RemoveCounts(s[1..], x);
      assert s == [s[0]] + s[1..];
      assert multiset(s) == multiset{s[0]} + multiset(s[1..]);
    }
  }

  class Camera {
    const owner: WorldObject
    var source: WorldObject
    var grid: nat

    /** A camera starts at its owner. */
    constructor (pl: WorldObject)
      modifies pl`cameras
      ensures owner == pl && source == pl && grid == 0
      ensures pl.cameras == old(pl.cameras) + [this]
    {
      owner, source, grid := pl, pl, 0;
      new;
      pl.Attach(this);
    }
  }

  /** Every camera is in exactly one viewpoint's list, once: that of its source. It looks from elsewhere only
      while its owner is in the world, on the same map. */
  ghost predicate Consistent(objs: set<WorldObject>, cams: set<Camera>)
    reads objs, cams
  {
    && (forall c :: c in cams ==> c.owner in objs && c.owner.viewable && c.source in objs)
    && (forall c :: c in cams && c.source != c.owner ==> c.owner.IsInMap(c.source))
    && (forall o, c {:trigger multiset(o.cameras)[c]} :: o in objs && c in cams ==>
          multiset(o.cameras)[c] == if c.source == o then 1 else 0)
    && (forall o, c {:trigger c in o.cameras} :: o in objs && c in o.cameras ==> c in cams)
  }

  lemma ListsOnce(o: WorldObject, objs: set<WorldObject>, cams: set<Camera>)
    requires Consistent(objs, cams) && o in objs
    ensures forall c :: c in o.cameras ==> c in cams && c.source == o && multiset(o.cameras)[c] == 1
  {
    forall c | c in o.cameras ensures c in cams && c.source == o && multiset(o.cameras)[c] == 1 {
      assert c in multiset(o.cameras);
    }
  }

  /** Whose list a camera is in is what its source says. */
  lemma SourcesDecide(o: WorldObject, objs: set<WorldObject>, cams: set<Camera>)
    requires Consistent(objs, cams) && o in objs
    ensures forall c :: c in o.cameras <==> c in cams && c.source == o
  {
    ListsOnce(o, objs, cams);
    forall c | c in cams && c.source == o ensures c in o.cameras {
      assert multiset(o.cameras)[c] == 1;
    }
  }

  /** Creating a camera keeps the world consistent. */
  method NewCamera(pl: WorldObject, ghost objs: set<WorldObject>, ghost cams: set<Camera>) returns (c: Camera)
    requires Consistent(objs, cams) && pl in objs && pl.viewable
    modifies pl`cameras
    ensures fresh(c) && c.owner == c.source == pl && Consistent(objs, cams + {c})
  {
    c := new Camera(pl);
  }

  predicate CanSwitch(c: Camera, obj: WorldObject)
    reads c, c.owner, obj
  {
    c.source != obj && c.owner.IsInMap(obj) && obj.viewable
  }

  /** Moves a camera to another viewpoint, unless it is there already or may not look from it. */
  method SetView(c: Camera, obj: WorldObject, ghost objs: set<WorldObject>, ghost cams: set<Camera>)
    requires Consistent(objs, cams) && c in cams && obj in objs
    modifies c, c.source`cameras, obj`cameras
    ensures Consistent(objs, cams)
    ensures !old(CanSwitch(c, obj)) ==> c.source == old(c.source) && c.grid == old(c.grid)
    ensures !old(CanSwitch(c, obj)) ==> c.source.cameras == old(c.source.cameras) && obj.cameras == old(obj.cameras)
    ensures old(CanSwitch(c, obj)) ==> c.source == obj && c.grid == obj.grid
    ensures old(c.source) != obj ==>
              (c.source == obj <==> c.owner.inWorld && obj.inWorld && c.owner.mapId == obj.mapId && obj.viewable)
    ensures old(CanSwitch(c, obj)) ==> old(c.source).cameras == Remove(old(c.source.cameras), c)
    ensures old(CanSwitch(c, obj)) ==> obj.cameras == old(obj.cameras) + [c]
  {
    if c.source == obj { return; }
    if !c.owner.IsInMap(obj) { return; }
    if !obj.viewable { return; }
    MoveTo(c, obj, objs, cams);
  }

  method MoveTo(c: Camera, obj: WorldObject, ghost objs: set<WorldObject>, ghost cams: set<Camera>)
    requires Consistent(objs, cams) && c in cams && obj in objs && CanSwitch(c, obj)
    modifies c, c.source`cameras, obj`cameras
    ensures Consistent(objs, cams)
    ensures c.source == obj && c.grid == obj.grid
    ensures old(c.source).cameras == Remove(old(c.source.cameras), c) && obj.cameras == old(obj.cameras) + [c]
  {
    Leave(c, objs, cams);
    c.source := obj;
    Enter(c, objs, cams);
  }

  /** Between two lists: everything is consistent but for one camera, which is in none. */
  ghost predicate Between(objs: set<WorldObject>, cams: set<Camera>, but: Camera)
    reads objs, cams
  {
    && (forall c :: c in cams ==> c.owner in objs && c.owner.viewable && c.source in objs)
    && (forall c :: c in cams && c.source != c.owner ==> c.owner.IsInMap(c.source))
    && (forall o, c {:trigger multiset(o.cameras)[c]} :: o in objs && c in cams ==>
          multiset(o.cameras)[c] == if c.source == o && c != but then 1 else 0)
    && (forall o, c {:trigger c in o.cameras} :: o in objs && c in o.cameras ==> c in cams && c != but)
  }

  method Leave(c: Camera, ghost objs: set<WorldObject>, ghost cams: set<Camera>)
    requires Consistent(objs, cams) && c in cams
    modifies c.source`cameras
    ensures Between(objs, cams, c)
    ensures c.source.cameras == Remove(old(c.source.cameras), c)
  {
    RemoveCounts(c.source.cameras, c);
    c.source.Detach(c);
    forall o, d | o in objs && d in o.cameras ensures d in cams && d != c {
      assert d in multiset(o.cameras);
      assert d in old(multiset(o.cameras)) && d in old(o.cameras);
    }
  }

  method Enter(c: Camera, ghost objs: set<WorldObject>, ghost cams: set<Camera>)
    requires Between(objs, cams, c) && c in cams
    modifies c, c.source`cameras
    ensures Consistent(objs, cams)
    ensures c.source == old(c.source) && c.grid == c.source.grid && c.source.cameras == old(c.source.cameras) + [c]
  {
    c.source.Attach(c);
    c.grid := c.source.grid;
  }

  // ----- Events at a viewpoint -----

  /** `hidden` are the cameras whose owner does not see what they look from. */
  datatype Event = AddedToWorld | RemovedFromWorld | Moved | VisibilityChanged(hidden: set<Camera>) | UpdateVisibility

  /** Whether an event sends a camera back to its owner, where it is not yet. */
  predicate Leaves(c: Camera, o: WorldObject, ev: Event) {
    (ev.RemovedFromWorld? || (ev.VisibilityChanged? && c in ev.hidden)) && c.owner != o
  }

  /** The grid a camera that stays is linked to after an event. */
  function GridAfter(c: Camera, o: WorldObject, ev: Event, before: nat): nat
    reads o
  {
    match ev
    case AddedToWorld => o.grid
    case Moved => o.grid
    case RemovedFromWorld => if c.owner == o then 0 else before
    case _ => before
  }

  /** A camera of the list as an event leaves it: back at its owner, or still here. */
  ghost predicate Handled(c: Camera, o: WorldObject, ev: Event, gridBefore: nat)
    reads c, c.owner, o
  {
    if Leaves(c, o, ev) then c.source == c.owner && c.grid == c.owner.grid
    else c.source == o && c.grid == GridAfter(c, o, ev, gridBefore)
  }

  method Handle(c: Camera, ev: Event, ghost objs: set<WorldObject>, ghost cams: set<Camera>)
    requires Consistent(objs, cams) && c in cams
    modifies c, c.source`cameras, c.owner`cameras
    ensures Consistent(objs, cams)
    ensures Handled(c, old(c.source), ev, old(c.grid))
    ensures old(c.source).cameras ==
            if old(Leaves(c, c.source, ev)) then Remove(old(c.source.cameras), c) else old(c.source.cameras)
  {
    match ev
    case AddedToWorld => c.grid := c.source.grid;
    case Moved => c.grid := c.source.grid;
    case UpdateVisibility =>
    case VisibilityChanged(hidden) =>
      if c in hidden { SetView(c, c.owner, objs, cams); }
    case RemovedFromWorld =>
      if c.source == c.owner {
        c.grid := 0;
      } else {
        SetView(c, c.owner, objs, cams);
      }
  }

  function IndexOf<T(==)>(s: seq<T>, x: T): (i: nat)
    ensures i <= |s| && (x in s ==> i < |s| && s[i] == x)
  {
    if s == [] then 0 else if s[0] == x then 0 else 1 + IndexOf(s[1..], x)
  }

  /** The element behind x in a list, as the iterator that has been moved on sees it. */
  function Following<T(==)>(s: seq<T>, x: T): Option<T> {
    if IndexOf(s, x) + 1 < |s| then Some(s[IndexOf(s, x) + 1]) else None
  }

  lemma OnceApart<T>(a: seq<T>, x: T, b: seq<T>)
    requires multiset(a + [x] + b)[x] == 1
    ensures x !in a && x !in b
  {
    assert multiset(a + [x] + b) == multiset(a) + multiset{x} + multiset(b);
  }

  lemma {:induction false} FollowingAt<T>(kept: seq<T>, x: T, rest: seq<T>)
    requires x !in kept
    ensures IndexOf(kept + [x] + rest, x) == |kept|
    ensures Following(kept + [x] + rest, x) == if rest == [] then None else Some(rest[0])
  {
    if kept == [] {
    } else {
      FollowingAt(kept[1..], x, rest);
      assert (kept + [x] + rest)[1..] == kept[1..] + [x] + rest;
    }
  }

  lemma {:induction false} RemoveMiddle<T>(kept: seq<T>, x: T, rest: seq<T>)
    requires x !in kept && x !in rest
    ensures Remove(kept + [x] + rest, x) == kept + rest
  {
    if kept == [] {
      assert (kept + [x] + rest)[1..] == rest == kept + rest;
      RemoveAbsent(rest, x);
    } else {
      RemoveMiddle(kept[1..], x, rest);
      assert (kept + [x] + rest)[1..] == kept[1..] + [x] + rest;
      assert kept + rest == [kept[0]] + (kept[1..] + rest);
    }
  }

  /** Where an element stands that is in a list once, and what is left without it. */
  lemma Standing<T>(list: seq<T>, kept: seq<T>, rest: seq<T>)
    requires list == kept + rest && rest != [] && multiset(list)[rest[0]] == 1
    ensures rest[0] !in kept
    ensures Following(list, rest[0]) == if |rest| == 1 then None else Some(rest[1])
    ensures Remove(list, rest[0]) == kept + rest[1..] && list == kept + [rest[0]] + rest[1..]
  {
    assert list == kept + [rest[0]] + rest[1..];
    OnceApart(kept, rest[0], rest[1..]);
    FollowingAt(kept, rest[0], rest[1..]);
    RemoveMiddle(kept, rest[0], rest[1..]);
  }

  lemma NotEarlier<T>(list: seq<T>, i: nat)
    requires i < |list| && forall x :: x in list ==> multiset(list)[x] == 1
    ensures list[i] in list && list[i] !in list[..i]
    ensures list[i..][1..] == list[i + 1..] && list[..i] + [list[i]] == list[..i + 1]
  {
    assert list == list[..i] + list[i..];
    Standing(list, list[..i], list[i..]);
  }

  /** The cameras called so far, each as the event left it. */
  ghost predicate AllHandled(visited: seq<Camera>, o: WorldObject, ev: Event, grids: map<Camera, nat>,
                             objs: set<WorldObject>, cams: set<Camera>)
    requires Consistent(objs, cams) && o in objs && cams <= grids.Keys
    reads objs, cams
  {
    forall d :: d in visited ==> d in cams && Handled(d, o, ev, grids[d])
  }

  lemma OneMoreHandled(visited: seq<Camera>, c: Camera, o: WorldObject, ev: Event, grids: map<Camera, nat>,
                       objs: set<WorldObject>, cams: set<Camera>)
    requires Consistent(objs, cams) && o in objs && cams <= grids.Keys
    requires AllHandled(visited, o, ev, grids, objs, cams) && c in cams && Handled(c, o, ev, grids[c])
    ensures AllHandled(visited + [c], o, ev, grids, objs, cams)
  {
  }

  /** No object has moved: only lists of cameras may have changed. */
  twostate predicate Placed(objs: set<WorldObject>)
    reads objs
  {
    forall x :: x in objs ==> unchanged(x`inWorld, x`mapId, x`grid)
  }

  /** No object has come, gone or changed its map. */
  twostate predicate Settled(objs: set<WorldObject>)
    reads objs
  {
    forall x :: x in objs ==> unchanged(x`inWorld, x`mapId)
  }

  /** One turn of the loop: the iterator moves on, then its camera is called. What was true of the cameras
      called before stays true. */
  method CallOne(o: WorldObject, ev: Event, c: Camera, ghost kept: seq<Camera>, ghost rest: seq<Camera>,
                 ghost visited: seq<Camera>, ghost grids: map<Camera, nat>,
                 ghost objs: set<WorldObject>, ghost cams: set<Camera>)
    returns (itr: Option<Camera>, ghost kept': seq<Camera>)
    requires Consistent(objs, cams) && o in objs
    requires rest != [] && o.cameras == kept + rest && c == rest[0] && c !in visited
    requires c in cams && cams <= grids.Keys && c.grid == grids[c]
    requires AllHandled(visited, o, ev, grids, objs, cams)
    modifies cams, objs
    ensures Consistent(objs, cams) && Placed(objs)
    ensures itr == if |rest| > 1 then Some(rest[1]) else None
    ensures o.cameras == kept' + rest[1..]
    ensures c in cams && Handled(c, o, ev, grids[c])
    ensures AllHandled(visited, o, ev, grids, objs, cams)
    ensures forall d :: d in cams && d != c ==> d.source == old(d.source) && d.grid == old(d.grid)
  {
    assert c in cams && c.source == o && multiset(o.cameras)[c] == 1 by {
      assert c == o.cameras[|kept|];
      ListsOnce(o, objs, cams);
    }
    Standing(o.cameras, kept, rest);
    itr := Following(o.cameras, c);
    Handle(c, ev, objs, cams);
    kept' := kept;
    if c.source == o { kept' := kept + [c]; }
    assert Placed(objs);
    forall d | d in visited ensures Handled(d, o, ev, grids[d]) {
      assert d != c && d in cams && d.owner in objs;
    }
  }

  /** Hands an event to every camera of a viewpoint. The iterator is moved on before the camera is
      called, because the camera may leave the list; every camera that was in the list is called once. */
  method CallAll(o: WorldObject, ev: Event, ghost list: seq<Camera>, ghost grids: map<Camera, nat>,
                 ghost objs: set<WorldObject>, ghost cams: set<Camera>)
    returns (ghost called: seq<Camera>)
    requires Consistent(objs, cams) && o in objs && o.cameras == list
    requires forall c :: c in list ==> c in cams && multiset(list)[c] == 1
    requires grids.Keys == cams && forall c :: c in cams ==> c.grid == grids[c]
    modifies cams, objs
    ensures Consistent(objs, cams) && Placed(objs)
    ensures called == list && AllHandled(list, o, ev, grids, objs, cams)
    ensures forall c :: c in cams && c !in list ==> c.source == old(c.source) && c.grid == grids[c]
  {
    ghost var kept: seq<Camera>, i := [], 0;
    called := [];
    var itr := if o.cameras == [] then None else Some(o.cameras[0]);
    while itr.Some?
      invariant Consistent(objs, cams) && Placed(objs)
      invariant i <= |list| && called == list[..i] && o.cameras == kept + list[i..]
      invariant itr == if i == |list| then None else Some(list[i])
      invariant AllHandled(list[..i], o, ev, grids, objs, cams)
      invariant forall c :: c in cams && c !in list[..i] ==> c.source == old(c.source) && c.grid == grids[c]
      decreases |list| - i
    {
      var c := itr.value;
      NotEarlier(list, i);
      itr, kept := CallOne(o, ev, c, kept, list[i..], list[..i], grids, objs, cams);
      OneMoreHandled(list[..i], c, o, ev, grids, objs, cams);
      called, i := called + [c], i + 1;
    }
  }

  method CameraCall(o: WorldObject, ev: Event, ghost objs: set<WorldObject>, ghost cams: set<Camera>)
    returns (ghost called: seq<Camera>)
    requires Consistent(objs, cams) && o in objs
    modifies cams, objs
    ensures Consistent(objs, cams) && Placed(objs)
    ensures called == old(o.cameras)
    ensures forall c :: c in old(o.cameras) ==> Handled(c, o, ev, old(c.grid))
    ensures forall c :: c in cams && c !in old(o.cameras) ==> c.source == old(c.source) && c.grid == old(c.grid)
  {
    ghost var grids: map<Camera, nat> := map c: Camera | c in cams :: c.grid;
    ListsOnce(o, objs, cams);
    called := CallAll(o, ev, o.cameras, grids, objs, cams);
  }

  // ----- Events of viewpoints -----

  /** The cameras of an object that has come into the world are linked to its grid. */
  method EventAddedToWorld(o: WorldObject, grid: nat, ghost objs: set<WorldObject>, ghost cams: set<Camera>)
    requires Consistent(objs, cams) && o in objs && grid != 0
    modifies cams, objs
    ensures Consistent(objs, cams) && Settled(objs) && o.grid == grid
    ensures forall c :: c in cams ==> c.source == old(c.source) && (c in o.cameras <==> c in old(o.cameras))
    ensures forall c :: c in cams ==> c.grid == if c in old(o.cameras) then grid else old(c.grid)
  {
    o.grid := grid;
    ListsOnce(o, objs, cams);
    ghost var called := CameraCall(o, AddedToWorld, objs, cams);
    SourcesDecide(o, objs, cams);
  }

  /** The cameras of an object that has moved follow it to its new grid. */
  method EventGridChanged(o: WorldObject, grid: nat, ghost objs: set<WorldObject>, ghost cams: set<Camera>)
    requires Consistent(objs, cams) && o in objs && grid != 0
    modifies cams, objs
    ensures Consistent(objs, cams) && Settled(objs) && o.grid == grid
    ensures forall c :: c in cams ==> c.source == old(c.source) && (c in o.cameras <==> c in old(o.cameras))
    ensures forall c :: c in cams ==> c.grid == if c in old(o.cameras) then grid else old(c.grid)
  {
    o.grid := grid;
    ListsOnce(o, objs, cams);
    ghost var called := CameraCall(o, Moved, objs, cams);
    SourcesDecide(o, objs, cams);
  }

  /** When an object leaves the world every camera goes back to its owner; only the object's own stays, unlinked
      from the grid. */
  method EventRemovedFromWorld(o: WorldObject, ghost objs: set<WorldObject>, ghost cams: set<Camera>)
    requires Consistent(objs, cams) && o in objs
    modifies cams, objs
    ensures Consistent(objs, cams) && Settled(objs) && o.grid == 0
    ensures forall c :: c in o.cameras <==> c in old(o.cameras) && c.owner == o
    ensures forall c :: c in old(o.cameras) && c !in o.cameras ==> c.source == c.owner && c.grid == c.owner.grid
    ensures forall c :: c in o.cameras ==> c.grid == 0
    ensures forall c :: c in cams && c !in old(o.cameras) ==> c.source == old(c.source) && c.grid == old(c.grid)
  {
    o.grid := 0;
    ListsOnce(o, objs, cams);
    SourcesDecide(o, objs, cams);
    ghost var called := CameraCall(o, RemovedFromWorld, objs, cams);
    SourcesDecide(o, objs, cams);
  }

  /** A viewpoint loses exactly the cameras of those who no longer see it, but for its own. */
  method EventVisibilityChanged(o: WorldObject, hidden: set<Camera>, ghost objs: set<WorldObject>,
                                ghost cams: set<Camera>)
    requires Consistent(objs, cams) && o in objs
    modifies cams, objs
    ensures Consistent(objs, cams) && Placed(objs)
    ensures forall c :: c in o.cameras <==> c in old(o.cameras) && !(c in hidden && c.owner != o)
    ensures forall c :: c in old(o.cameras) && c !in o.cameras ==> c.source == c.owner && c.grid == c.owner.grid
    ensures forall c :: c in cams && (c in o.cameras || c !in old(o.cameras)) ==>
                          c.source == old(c.source) && c.grid == old(c.grid)
  {
    ListsOnce(o, objs, cams);
    SourcesDecide(o, objs, cams);
    ghost var called := CameraCall(o, VisibilityChanged(hidden), objs, cams);
    SourcesDecide(o, objs, cams);
  }

  // ----- Objects come and go -----

  /** An object comes into the world on a map, and its own camera, which waited there, into its grid. */
  method AddToWorld(o: WorldObject, mapId: nat, grid: nat, ghost objs: set<WorldObject>, ghost cams: set<Camera>)
    requires Consistent(objs, cams) && o in objs && !o.inWorld && grid != 0
    modifies cams, objs
    ensures Consistent(objs, cams) && o.inWorld && o.mapId == mapId && o.grid == grid
    ensures forall x :: x in objs && x != o ==> x.inWorld == old(x.inWorld) && x.mapId == old(x.mapId)
    ensures forall c :: c in cams ==> c.source == old(c.source)
    ensures forall c :: c in cams && c.source == o ==> c.owner == o && c.grid == grid
  {
    o.mapId := mapId;
    o.inWorld := true;
    SourcesDecide(o, objs, cams);
    EventAddedToWorld(o, grid, objs, cams);
  }

  /** An object leaves the world. The camera of a player is brought back first, while both ends are still in the
      world; afterwards nobody looks from the object but the player whose camera it owns. */
  method RemoveFromWorld(o: WorldObject, own: Option<Camera>, ghost objs: set<WorldObject>, ghost cams: set<Camera>)
    requires Consistent(objs, cams) && o in objs
    requires own.Some? ==> own.value in cams && own.value.owner == o
    requires forall c :: c in cams && c.owner == o ==> own == Some(c)
    modifies cams, objs
    ensures Consistent(objs, cams) && !o.inWorld
    ensures forall x :: x in objs && x != o ==> x.inWorld == old(x.inWorld) && x.mapId == old(x.mapId)
    ensures forall c :: c in cams && (c.source == o || c.owner == o) ==> own == Some(c) && c.source == c.owner
    ensures forall c :: c in cams && c.source != old(c.source) ==> c.source == c.owner && o in {c.owner, old(c.source)}
  {
    if o.inWorld {
      if own.Some? { SetView(own.value, o, objs, cams); }
      SourcesDecide(o, objs, cams);
      EventRemovedFromWorld(o, objs, cams);
      SourcesDecide(o, objs, cams);
    }
    o.inWorld := false;
  }

  /** A camera that is back at its owner is taken out of the world with nothing left behind. */
  method DeleteCamera(c: Camera, ghost objs: set<WorldObject>, ghost cams: set<Camera>)
    requires Consistent(objs, cams) && c in cams && c.source == c.owner
    modifies c.source`cameras
    ensures Consistent(objs, cams - {c})
    ensures forall o :: o in objs ==> c !in o.cameras
  {
    Leave(c, objs, cams);
  }
}
