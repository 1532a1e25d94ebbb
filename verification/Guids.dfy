/** Object guids: how kind, entry and counter share 64 bits, how a guid is packed into few bytes, and how
    counters are handed out and taken back. */
module Guids {

  import opened Wrappers

  // ----- The 64 bits -----

  const ITEM: bv64 := 0x4000
  const PLAYER: bv64 := 0x0000
  const DYNAMICOBJECT: bv64 := 0xF100
  const CORPSE: bv64 := 0xF101
  const MO_TRANSPORT: bv64 := 0x1FC0

  /** Kinds without an entry have room for counters of 32 bits, the others (also unknown ones) for 24. */
  predicate HasEntry(high: bv64) {
    !(high == ITEM || high == PLAYER || high == DYNAMICOBJECT || high == CORPSE || high == MO_TRANSPORT)
  }

  function MaxCounter(high: bv64): bv64 { if HasEntry(high) then 0x00FF_FFFF else 0xFFFF_FFFF }

  /** The counters of items, players, dynamic objects, corpses and transports have 32 bits, all others 24. */
  lemma RoomExactly(high: bv64)
    ensures MaxCounter(high) == 0xFFFF_FFFF <==> high in {0x4000, 0, 0xF100, 0xF101, 0x1FC0}
    ensures MaxCounter(high) != 0xFFFF_FFFF ==> MaxCounter(high) == 0xFF_FFFF
  {
  }

  predicate Bits16(x: bv64) { x <= 0xFFFF }
  predicate Bits32(x: bv64) { x <= 0xFFFF_FFFF }

  function Make(high: bv64, entry: bv64, counter: bv64): bv64 {
    if counter == 0 then 0 else counter | (entry << 24) | (high << 48)
  }

  function MakePlain(high: bv64, counter: bv64): bv64 {
    if counter == 0 then 0 else counter | (high << 48)
  }

  function High(guid: bv64): bv64 { (guid >> 48) & 0xFFFF }
  function Entry(guid: bv64): bv64 { if HasEntry(High(guid)) then (guid >> 24) & 0xFF_FFFF else 0 }
  function Counter(guid: bv64): bv64 { if HasEntry(High(guid)) then guid & 0xFF_FFFF else guid & 0xFFFF_FFFF }

  /** For a kind with entries the parts are read back exactly when there is a counter, and it and the entry fit their
      24 bits. Without a counter there is no guid. */
  lemma EntryGuidRoundTrip(high: bv64, entry: bv64, counter: bv64)
    requires Bits16(high) && Bits32(entry) && Bits32(counter) && HasEntry(high)
    ensures counter == 0 ==> Make(high, entry, counter) == 0
    ensures (High(Make(high, entry, counter)) == high && Entry(Make(high, entry, counter)) == entry
             && Counter(Make(high, entry, counter)) == counter)
            <==> counter != 0 && entry <= 0xFF_FFFF && counter <= MaxCounter(high)
  {
  }

  /** For the others they are whenever there is a counter. */
  lemma PlainGuidRoundTrip(high: bv64, counter: bv64)
    requires Bits16(high) && Bits32(counter) && !HasEntry(high)
    ensures MakePlain(high, counter) == Make(high, 0, counter)
    ensures counter == 0 ==> MakePlain(high, counter) == 0
    ensures counter != 0 ==> High(MakePlain(high, counter)) == high && Entry(MakePlain(high, counter)) == 0
    ensures counter != 0 ==> Counter(MakePlain(high, counter)) == counter
  {
    if counter != 0 { PlainParts(high, counter); }
  }

  lemma PlainParts(high: bv64, counter: bv64)
    requires Bits16(high) && Bits32(counter) && counter != 0 && !HasEntry(high)
    ensures High(MakePlain(high, counter)) == high && Entry(MakePlain(high, counter)) == 0
    ensures Counter(MakePlain(high, counter)) == counter && MakePlain(high, counter) == Make(high, 0, counter)
  {
  }

  predicate Fits(high: bv64, entry: bv64, counter: bv64) {
    && Bits16(high) && counter != 0 && counter <= MaxCounter(high)
    && if HasEntry(high) then entry <= 0xFF_FFFF else entry == 0
  }

  /** Different parts make different guids. */
  lemma GuidsAreDistinct(high: bv64, entry: bv64, counter: bv64, high': bv64, entry': bv64, counter': bv64)
    requires Fits(high, entry, counter) && Fits(high', entry', counter')
    requires Make(high, entry, counter) == Make(high', entry', counter')
    ensures high == high' && entry == entry' && counter == counter'
  {
    PartsOf(high, entry, counter);
    PartsOf(high', entry', counter');
  }

  lemma PartsOf(high: bv64, entry: bv64, counter: bv64)
    requires Fits(high, entry, counter)
    ensures var guid := Make(high, entry, counter);
            High(guid) == high && Entry(guid) == entry && Counter(guid) == counter
  {
    if HasEntry(high) { EntryGuidRoundTrip(high, entry, counter); } else { PlainGuidRoundTrip(high, counter); }
  }

  /** What a client sends as the guid of a player is cut down to its counter. */
  method ClampPlayerGuid(guid: bv64) returns (value: bv64)
    ensures High(value) == High(guid) && Counter(value) == Counter(guid)
    ensures High(guid) != PLAYER ==> value == guid
    ensures High(guid) == PLAYER ==> value == MakePlain(PLAYER, Counter(guid)) && Bits32(value)
  {
    value := guid;
    if High(guid) == PLAYER { value := Counter(guid); }
  }

  // ----- Packed guids -----

  const TWO_TO_THE_64: int := 0x1_0000_0000_0000_0000

  function Pow(b: nat, i: nat): nat { if i == 0 then 1 else b * Pow(b, i - 1) }

  /** The bytes of a guid that are not zero, lowest first, and one bit for each of the eight that says
      whether it is among them. */
  function Bytes(guid: nat): seq<nat> {
    if guid == 0 then [] else (if guid % 256 != 0 then [guid % 256] else []) + Bytes(guid / 256)
  }

  function Marks(guid: nat): nat {
    if guid == 0 then 0 else (if guid % 256 != 0 then 1 else 0) + 2 * Marks(guid / 256)
  }

  /** Reads n more bytes by their marks: the guid and what is left of the buffer, or nothing when the buffer
      ends too early. */
  function Unpack(marks: nat, buf: seq<nat>, n: nat): Option<(nat, seq<nat>)> {
    if n == 0 then Some((0, buf))
    else if marks % 2 == 1 then
      if buf == [] then None
      else
        var r := Unpack(marks / 2, buf[1..], n - 1);
        if r.None? then None else Some((buf[0] + 256 * r.value.0, r.value.1))
    else
      var r := Unpack(marks / 2, buf, n - 1);
      if r.None? then None else Some((256 * r.value.0, r.value.1))
  }

  lemma {:induction false} UnpackBytes(guid: nat, rest: seq<nat>, n: nat)
    requires guid < Pow(256, n)
    ensures Unpack(Marks(guid), Bytes(guid) + rest, n) == Some((guid, rest))
    ensures Marks(guid) < Pow(2, n)
  {
    assert Bytes(0) + rest == rest;
    if n > 0 {
      UnpackBytes(guid / 256, rest, n - 1);
      if guid != 0 {
        var head := if guid % 256 != 0 then [guid % 256] else [];
        assert Bytes(guid) + rest == head + (Bytes(guid / 256) + rest);
        assert Marks(guid) / 2 == Marks(guid / 256) && Marks(guid) % 2 == |head|;
        if guid % 256 != 0 {
          assert (Bytes(guid) + rest)[0] == guid % 256;
          assert (Bytes(guid) + rest)[1..] == Bytes(guid / 256) + rest;
        } else {
          assert Bytes(guid) + rest == Bytes(guid / 256) + rest;
        }
      }
    }
  }

  lemma {:induction false} BytesAreBytes(guid: nat)
    ensures forall b :: b in Bytes(guid) ==> 0 < b < 256
  {
    if guid != 0 { BytesAreBytes(guid / 256); }
  }

  lemma {:induction false} FewBytes(guid: nat, n: nat)
    requires guid < Pow(256, n)
    ensures |Bytes(guid)| <= n
  {
    if guid != 0 && n > 0 { FewBytes(guid / 256, n - 1); }
  }

  lemma PackedIsSmall(guid: nat)
    requires guid < TWO_TO_THE_64
    ensures |Bytes(guid)| <= 8 && Marks(guid) < 256
  {
    assert TWO_TO_THE_64 == Pow(256, 8) && Pow(2, 8) == 256;
    UnpackBytes(guid, [], 8);
    FewBytes(guid, 8);
  }

  /** Appends a guid to a buffer, packed: at most nine bytes. */
  method AppendPackGUID(buf: seq<nat>, guid: nat) returns (buf': seq<nat>)
    requires guid < TWO_TO_THE_64
    ensures buf' == buf + [Marks(guid)] + Bytes(guid)
    ensures |buf'| <= |buf| + 9 && Marks(guid) < 256
  {
    var mark: nat, packed: seq<nat> := 0, [];
    var left, i := guid, 0;
    while left != 0
      invariant Marks(guid) == mark + Pow(2, i) * Marks(left)
      invariant Bytes(guid) == packed + Bytes(left)
      decreases left
    {
      assert Pow(2, i + 1) == 2 * Pow(2, i);
      Distribute(Pow(2, i), if left % 256 != 0 then 1 else 0, 2, Marks(left / 256));
      if left % 256 != 0 {
        mark := mark + Pow(2, i);
        packed := packed + [left % 256];
      }
      left, i := left / 256, i + 1;
    }
    assert packed + Bytes(0) == packed;
    PackedIsSmall(guid);
    buf' := buf + [mark] + packed;
  }

  lemma Distribute(scale: nat, low: nat, base: nat, high: nat)
    ensures scale * (low + base * high) == scale * low + base * scale * high
  {
    calc {
      scale * (low + base * high);
      scale * low + scale * (base * high);
      scale * low + base * scale * high;
    }
  }

  /** The guid when bytes further up are still to be added to it. */
  function Added(guid: nat, scale: nat, more: Option<(nat, seq<nat>)>): Option<(nat, seq<nat>)> {
    if more.None? then None
    else
      var sum: nat := guid + scale * more.value.0;
      Some((sum, more.value.1))
  }

  lemma UnpackStep(guid: nat, scale: nat, marks: nat, rest: seq<nat>, n: nat)
    requires n > 0
    ensures marks % 2 == 1 && rest == [] ==> Added(guid, scale, Unpack(marks, rest, n)) == None
    ensures marks % 2 == 1 && rest != [] ==>
              Added(guid, scale, Unpack(marks, rest, n)) ==
              Added(guid + scale * rest[0], 256 * scale, Unpack(marks / 2, rest[1..], n - 1))
    ensures marks % 2 == 0 ==>
              Added(guid, scale, Unpack(marks, rest, n)) == Added(guid, 256 * scale, Unpack(marks / 2, rest, n - 1))
  {
    if marks % 2 == 0 || rest != [] {
      var more := Unpack(marks / 2, if marks % 2 == 1 then rest[1..] else rest, n - 1);
      if more.Some? { Distribute(scale, if marks % 2 == 1 then rest[0] else 0, 256, more.value.0); }
    }
  }

  /** Reads a packed guid from the front of a buffer; None is the exception of reading past the end. */
  method ReadPackGUID(buf: seq<nat>) returns (r: Option<(nat, seq<nat>)>)
    ensures r == if buf == [] then None else Unpack(buf[0], buf[1..], 8)
  {
    if buf == [] { return None; }
    var guid: nat, rest, marks := 0, buf[1..], buf[0];
    for i := 0 to 8
      invariant Unpack(buf[0], buf[1..], 8) == Added(guid, Pow(256, i), Unpack(marks, rest, 8 - i))
    {
      UnpackStep(guid, Pow(256, i), marks, rest, 8 - i);
      if marks % 2 == 1 {
        if rest == [] { return None; }
        guid := guid + Pow(256, i) * rest[0];
        rest := rest[1..];
      }
      marks := marks / 2;
    }
    return Some((guid, rest));
  }

  /** What was appended is read back, and what comes behind it is left. */
  lemma PackedGuidRoundTrip(guid: nat, rest: seq<nat>)
    requires guid < TWO_TO_THE_64
    ensures Unpack(Marks(guid), Bytes(guid) + rest, 8) == Some((guid, rest))
  {
    assert TWO_TO_THE_64 == Pow(256, 8);
    UnpackBytes(guid, rest, 8);
  }

  // ----- Handing out counters -----

  const GENERATE_RANGE_SIZE := 100
  const TWO_TO_THE_32: nat := 0x1_0000_0000

  ghost function Range(first: nat, last: nat): (r: set<nat>)
    ensures forall g :: g in r <==> first <= g < last
    decreases last - first
  {
    if first >= last then {} else {first} + Range(first + 1, last)
  }

  /** In a list without repetitions the first does not come again. */
  lemma OnlyOnce(s: seq<nat>)
    requires s != [] && forall i, j :: 0 <= i < j < |s| ==> s[i] != s[j]
    ensures forall g :: g in s[1..] ==> g in s && g != s[0]
  {
    forall g | g in s[1..] ensures g in s && g != s[0] {
      var i :| 0 <= i < |s| - 1 && s[1..][i] == g;
      assert s[i + 1] == g;
    }
  }

  /** Hands out the counters of one kind of objects. `live` are those in use; once the counters run out the
      server is told to stop, and nothing is promised about what is handed out until it has. */
  class ObjectGuidGenerator {
    const maxCounter: nat
    var nextGuid: nat
    var freedGuids: seq<nat>
    var stopped: bool
    ghost var live: set<nat>

    /** No counter is in use or waiting twice, and the next one is above them all. */
    ghost predicate Valid()
      reads this
    {
      && GENERATE_RANGE_SIZE < maxCounter < TWO_TO_THE_32 && nextGuid < TWO_TO_THE_32
      && (!stopped ==>
            && (forall g :: g in live ==> g < nextGuid)
            && (forall g :: g in freedGuids ==> g < nextGuid && g !in live)
            && (forall i, j :: 0 <= i < j < |freedGuids| ==> freedGuids[i] != freedGuids[j]))
    }

    constructor (maxCounter: nat, start: nat)
      requires GENERATE_RANGE_SIZE < maxCounter < TWO_TO_THE_32 && start < maxCounter
      ensures Valid() && live == {} && !stopped && this.maxCounter == maxCounter
      ensures nextGuid == start && freedGuids == []
    {
      this.maxCounter, nextGuid, freedGuids, stopped := maxCounter, start, [], false;
      live := {};
    }

    /** A new next counter, above all that are in use, waiting, or `used` already: those found in the database at
        start-up, or just written to it. */
    method Set(val: nat, ghost used: set<nat>)
      requires Valid() && val < TWO_TO_THE_32
      requires forall g :: g in live || g in freedGuids || g in used ==> g < val
      requires forall g :: g in used ==> g !in freedGuids
      modifies this
      ensures Valid() && nextGuid == val && live == old(live) + used
      ensures freedGuids == old(freedGuids) && stopped == old(stopped)
    {
      nextGuid := val;
      live := live + used;
    }

    /** After a dump has been loaded, which has given away the next n counters without asking for them. */
    method SetAfterDump(n: nat)
      requires Valid() && !stopped && nextGuid + n < TWO_TO_THE_32
      modifies this
      ensures Valid() && !stopped && nextGuid == old(nextGuid) + n
      ensures forall g :: g in live <==> g in old(live) || old(nextGuid) <= g < nextGuid
    {
      Set(nextGuid + n, Range(nextGuid, nextGuid + n));
    }

    /** A counter nobody uses - unless the counters have run out. */
    method Generate() returns (g: nat)
      requires Valid()
      modifies this
      ensures Valid() && (old(stopped) ==> stopped)
      ensures !stopped ==> g !in old(live) && live == old(live) + {g}
      ensures !stopped && old(nextGuid) <= maxCounter ==> g < maxCounter
      ensures old(freedGuids) != [] ==>
                g == old(freedGuids[0]) && freedGuids == old(freedGuids[1..]) && stopped == old(stopped)
      ensures old(freedGuids) == [] ==> g == old(nextGuid) && freedGuids == []
      ensures old(freedGuids) == [] && !old(stopped) ==> (stopped <==> old(nextGuid) >= maxCounter - 1)
    {
      if freedGuids != [] {
        g := freedGuids[0];
        if !stopped { OnlyOnce(freedGuids); }
        freedGuids := freedGuids[1..];
      } else {
        if nextGuid >= maxCounter - 1 { stopped := true; }
        g := nextGuid;
        nextGuid := (nextGuid + 1) % TWO_TO_THE_32;
      }
      live := live + {g};
    }

    /** Takes back a counter that is in use. */
    method FreeGuid(g: nat)
      requires Valid() && g in live
      modifies this
      ensures Valid() && live == old(live) - {g} && freedGuids == old(freedGuids) + [g]
      ensures stopped == old(stopped) && nextGuid == old(nextGuid)
    {
      freedGuids := freedGuids + [g];
      live := live - {g};
    }

    /** A run of a hundred counters nobody uses, from first up to and without last. */
    method GenerateRange() returns (first: nat, last: nat)
      requires Valid()
      modifies this
      ensures Valid() && (old(stopped) ==> stopped)
      ensures !stopped ==> last == first + GENERATE_RANGE_SIZE <= maxCounter
      ensures !stopped ==> forall g :: first <= g < last ==> g !in old(live) && g !in freedGuids
      ensures !stopped ==> forall g :: g in live <==> g in old(live) || first <= g < last
      ensures freedGuids == old(freedGuids)
      ensures !old(stopped) ==> (stopped <==> old(nextGuid) >= maxCounter - GENERATE_RANGE_SIZE)
    {
      if nextGuid >= maxCounter - GENERATE_RANGE_SIZE { stopped := true; }
      first := nextGuid;
      nextGuid := (nextGuid + GENERATE_RANGE_SIZE) % TWO_TO_THE_32;
      last := nextGuid;
      live := live + Range(first, last);
    }
  }
}
