/** At most so many different instances an hour for each account. */
module InstanceLimit {

  import opened Wrappers

  const HOUR := 3600

  datatype Visit = Visit(instance: nat, time: int)

  /** The different instances entered in the hour that begins at a time. */
  ghost function HourFrom(log: seq<Visit>, from: int): set<nat> {
    set k | 0 <= k < |log| && from <= log[k].time <= from + HOUR :: log[k].instance
  }

  /** What is remembered are entries that took place, and those of the last hour are all remembered. */
  ghost predicate Remembers(times: map<nat, int>, log: seq<Visit>, clock: int) {
    && (forall i :: i in times ==> Visit(i, times[i]) in log)
    && (forall k :: 0 <= k < |log| ==> log[k].time <= clock)
    && (forall k :: 0 <= k < |log| && log[k].time + HOUR >= clock ==>
          log[k].instance in times && times[log[k].instance] >= log[k].time)
  }

  /** No hour has seen more than the limit. */
  ghost predicate Limited(log: seq<Visit>, limit: nat) {
    forall from: int :: |HourFrom(log, from)| <= limit
  }

  ghost predicate Sound(times: map<nat, int>, log: seq<Visit>, clock: int, limit: nat) {
    Remembers(times, log, clock) && |times| <= limit && Limited(log, limit)
  }

  lemma SubsetSize<T>(a: set<T>, b: set<T>)
    requires a <= b
    ensures |a| <= |b| && (|a| == |b| ==> a == b)
  {
    assert b == a + (b - a);
    assert |b| == |a| + |b - a|;
  }

  /** Who is refused finds the memory full of entries of the last hour: those are all the instances entered within
      it. While the memory keeps to the limit, that refuses exactly those who have entered as many others as they
      may. */
  lemma RefusalIsExact(times: map<nat, int>, log: seq<Visit>, clock: int, limit: nat, i: nat, now: int)
    requires Remembers(times, log, clock) && clock <= now
    ensures (forall j :: j in times ==> times[j] + HOUR >= now) <==> HourFrom(log, now - HOUR) == times.Keys
    ensures |times| <= limit ==>
              (i !in times && |times| >= limit && (forall j :: j in times ==> times[j] + HOUR >= now) <==>
               |HourFrom(log, now - HOUR)| == limit && i !in HourFrom(log, now - HOUR))
  {
    var recent := HourFrom(log, now - HOUR);
    assert recent <= times.Keys;
    SubsetSize(recent, times.Keys);
    if forall j :: j in times ==> times[j] + HOUR >= now {
      forall j | j in times ensures j in recent {
        var k :| 0 <= k < |log| && log[k] == Visit(j, times[j]);
      }
      assert recent == times.Keys;
    }
    if recent == times.Keys {
      forall j | j in times ensures times[j] + HOUR >= now { assert j in recent; }
    }
  }

  /** An entry that is over an hour old can be forgotten. */
  lemma ForgetOld(times: map<nat, int>, log: seq<Visit>, clock: int, limit: nat, i: nat, now: int)
    requires Sound(times, log, clock, limit) && clock <= now && i in times && times[i] + HOUR < now
    ensures Sound(times - {i}, log, now, limit) && |times - {i}| < limit
  {
    assert (times - {i}).Keys == times.Keys - {i};
    assert |times| == |times.Keys| && |times - {i}| == |(times - {i}).Keys|;
  }

  lemma EntryIsRemembered(times: map<nat, int>, log: seq<Visit>, clock: int, i: nat, now: int)
    requires Remembers(times, log, clock) && clock <= now
    ensures Remembers(times[i := now], log + [Visit(i, now)], now)
  {
    var log' := log + [Visit(i, now)];
    assert log'[|log|] == Visit(i, now);
    var times' := times[i := now];
    forall j | j in times' ensures Visit(j, times'[j]) in log' {
      if j != i { assert Visit(j, times[j]) in log; }
    }
    assert forall k :: 0 <= k < |log| ==> log'[k] == log[k];
  }

  lemma HourWithEntry(times: map<nat, int>, log: seq<Visit>, i: nat, now: int, from: int)
    requires Remembers(times[i := now], log + [Visit(i, now)], now)
    ensures if from <= now <= from + HOUR then HourFrom(log + [Visit(i, now)], from) <= times[i := now].Keys
            else HourFrom(log + [Visit(i, now)], from) == HourFrom(log, from)
  {
    var log' := log + [Visit(i, now)];
    assert forall k :: 0 <= k < |log| ==> log'[k] == log[k];
  }

  /** Entering an instance that is remembered, or while there is room, keeps the limit in every hour; any other
      entry leaves more in the memory than there should be. */
  lemma EntryKeepsLimit(times: map<nat, int>, log: seq<Visit>, clock: int, limit: nat, i: nat, now: int)
    requires Sound(times, log, clock, limit) && clock <= now
    ensures Sound(times[i := now], log + [Visit(i, now)], now, limit) <==> i in times || |times| < limit
  {
    var keys := times[i := now].Keys;
    assert |times[i := now]| == |keys| && |times| == |times.Keys| && keys == times.Keys + {i};
    EntryIsRemembered(times, log, clock, i, now);
    var log' := log + [Visit(i, now)];
    if |keys| <= limit {
      forall from: int ensures |HourFrom(log', from)| <= limit {
        HourWithEntry(times, log, i, now, from);
        if from <= now <= from + HOUR { SubsetSize(HourFrom(log', from), keys); }
      }
    }
  }

  /** Entering without being checked: no hour sees more than the limit exactly when the last one has room for the
      instance. */
  lemma UncheckedEntry(log: seq<Visit>, limit: nat, i: nat, now: int)
    requires Limited(log, limit) && forall k :: 0 <= k < |log| ==> log[k].time <= now
    ensures Limited(log + [Visit(i, now)], limit) <==> |HourFrom(log, now - HOUR) + {i}| <= limit
  {
    var log', last := log + [Visit(i, now)], HourFrom(log, now - HOUR) + {i};
    assert forall k :: 0 <= k < |log| ==> log'[k] == log[k];
    assert log'[|log|] == Visit(i, now);
    assert HourFrom(log', now - HOUR) == last;
    if |last| <= limit {
      forall from: int ensures |HourFrom(log', from)| <= limit {
        if from <= now <= from + HOUR {
          assert HourFrom(log', from) <= last;
          SubsetSize(HourFrom(log', from), last);
        } else {
          assert HourFrom(log', from) == HourFrom(log, from);
        }
      }
    }
  }

  /** With one more for an entry that does not fit, the limit is kept. */
  lemma EntryWithExtra(times: map<nat, int>, log: seq<Visit>, clock: int, limit: nat, i: nat, now: int)
    requires Sound(times, log, clock, limit) && clock <= now
    ensures Sound(times[i := now], log + [Visit(i, now)], now, limit + if i in times || |times| < limit then 0 else 1)
  {
    if i in times || |times| < limit {
      EntryKeepsLimit(times, log, clock, limit, i, now);
    } else {
      EntryKeepsLimit(times, log, clock, limit + 1, i, now);
    }
  }

  function TimesOf(enterTimes: map<nat, map<nat, int>>, account: nat): map<nat, int> {
    if account in enterTimes then enterTimes[account] else map[]
  }

  ghost function LogOf(logs: map<nat, seq<Visit>>, account: nat): seq<Visit> {
    if account in logs then logs[account] else []
  }

  /** The instances an account may enter in an hour, with those it has been let into unchecked. */
  ghost function RoomOf(extra: map<nat, nat>, limit: nat, account: nat): nat {
    limit + if account in extra then extra[account] else 0
  }

  ghost predicate SoundFor(enterTimes: map<nat, map<nat, int>>, logs: map<nat, seq<Visit>>, extra: map<nat, nat>,
                           clock: int, limit: nat, account: nat)
  {
    && Sound(TimesOf(enterTimes, account), LogOf(logs, account), clock, RoomOf(extra, limit, account))
    && 0 !in TimesOf(enterTimes, account)
  }

  ghost predicate AllSound(enterTimes: map<nat, map<nat, int>>, logs: map<nat, seq<Visit>>, extra: map<nat, nat>,
                           clock: int, limit: nat)
  {
    forall a :: SoundFor(enterTimes, logs, extra, clock, limit, a)
  }

  /** Time passes, and one account changes. */
  lemma OthersStaySound(enterTimes: map<nat, map<nat, int>>, logs: map<nat, seq<Visit>>, extra: map<nat, nat>,
                        clock: int,
                        limit: nat, account: nat, times: map<nat, int>, log: seq<Visit>, more: nat, now: int)
    requires AllSound(enterTimes, logs, extra, clock, limit) && clock <= now
    requires Sound(times, log, now, limit + more) && 0 !in times
    ensures AllSound(enterTimes[account := times], logs[account := log], extra[account := more], now, limit)
  {
    var enterTimes', logs', extra' := enterTimes[account := times], logs[account := log], extra[account := more];
    forall a ensures SoundFor(enterTimes', logs', extra', now, limit, a) {
      assert SoundFor(enterTimes, logs, extra, clock, limit, a);
    }
  }

  class AccountMgr {
    const maxCount: nat
    var enterTimes: map<nat, map<nat, int>>
    /** All entries of each account, the last reading of the clock, and how many instances an account has entered
        unchecked when there was no room for them. */
    ghost var logs: map<nat, seq<Visit>>
    ghost var clock: int
    ghost var extra: map<nat, nat>

    ghost function Log(account: nat): seq<Visit>
      reads this
    {
      LogOf(logs, account)
    }

    ghost function Times(account: nat): map<nat, int>
      reads this
    {
      TimesOf(enterTimes, account)
    }

    ghost function Extra(account: nat): nat
      reads this
    {
      if account in extra then extra[account] else 0
    }

    /** No account has ever entered more instances in an hour than the limit and its extra ones. */
    ghost predicate Valid()
      reads this
    {
      maxCount >= 1 && AllSound(enterTimes, logs, extra, clock, maxCount)
    }

    /** An instance may be entered within the limits: it is remembered, or there is room. */
    ghost predicate Fits(account: nat, instance: nat)
      reads this
    {
      instance in Times(account) || |Times(account)| < maxCount + Extra(account)
    }

    constructor (maxCount: nat, now: int)
      requires maxCount >= 1
      ensures Valid() && this.maxCount == maxCount && clock == now && logs == map[] && extra == map[]
    {
      this.maxCount, enterTimes := maxCount, map[];
      logs, clock, extra := map[], now, map[];
      new;
      forall a ensures SoundFor(map[], map[], map[], now, maxCount, a) {
        forall from: int ensures |HourFrom([], from)| <= maxCount {
          assert HourFrom([], from) == {};
        }
      }
    }

    /** An account is refused an instance only when it has entered as many others as it may within the last hour,
        and then always, unless it has been let into extra ones. Who is let in has room. */
    method CheckInstanceCount(account: nat, instance: nat, now: int) returns (ok: bool)
      requires Valid() && clock <= now
      modifies this
      ensures Valid() && clock == now
      ensures logs == old(logs)[account := old(Log(account))] && extra == old(extra)[account := old(Extra(account))]
      ensures !ok ==>
                |HourFrom(Log(account), now - HOUR)| >= maxCount && instance !in HourFrom(Log(account), now - HOUR)
      ensures Extra(account) == 0 ==>
                (!ok <==>
                   |HourFrom(Log(account), now - HOUR)| == maxCount && instance !in HourFrom(Log(account), now - HOUR))
      ensures ok ==> Fits(account, instance)
    {
      ghost var log, more := Log(account), Extra(account);
      var times := TimesOf(enterTimes, account);
      assert SoundFor(enterTimes, logs, extra, clock, maxCount, account);
      var kept: map<nat, int>;
      ok, kept := Decide(account in enterTimes, times, instance, now, log, more, clock);
      OthersStaySound(enterTimes, logs, extra, clock, maxCount, account, kept, log, more, now);
      enterTimes := enterTimes[account := kept];
      logs, extra := logs[account := log], extra[account := more];
      clock := now;
    }

    /** The decision about one account; an old entry is forgotten when that makes room. */
    method Decide(known: bool, times: map<nat, int>, instance: nat, now: int, ghost log: seq<Visit>, ghost more: nat,
                  ghost clock: int)
      returns (ok: bool, kept: map<nat, int>)
      requires maxCount >= 1 && Sound(times, log, clock, maxCount + more) && clock <= now && (known || times == map[])
      ensures !ok <==> instance !in times && |times| >= maxCount && HourFrom(log, now - HOUR) == times.Keys
      ensures more == 0 ==> (!ok <==> |HourFrom(log, now - HOUR)| == maxCount && instance !in HourFrom(log, now - HOUR))
      ensures Sound(kept, log, now, maxCount + more) && kept.Keys <= times.Keys
      ensures ok ==> instance in kept || |kept| < maxCount + more
    {
      RefusalIsExact(times, log, clock, maxCount, instance, now);
      assert |times| == |times.Keys|;
      ok, kept := !known || instance in times || |times| < maxCount, times;
      if !ok {
        var old' := FindOld(times, now);
        if old'.Some? {
          ForgetOld(times, log, clock, maxCount + more, old'.value, now);
          ok, kept := true, times - {old'.value};
        }
      }
    }

    method FindOld(times: map<nat, int>, now: int) returns (found: Option<nat>)
      ensures found.Some? ==> found.value in times && times[found.value] + HOUR < now
      ensures found.None? ==> forall i :: i in times ==> times[i] + HOUR >= now
    {
      var left := times.Keys;
      while left != {}
        invariant left <= times.Keys && forall i :: i in times && i !in left ==> times[i] + HOUR >= now
      {
        var i :| i in left;
        left := left - {i};
        if times[i] + HOUR < now { return Some(i); }
      }
      return None;
    }

    /** An account enters an instance, checked or not: it has one extra instance more exactly when this one did not
        fit. */
    method AddInstanceEnterTime(account: nat, instance: nat, enterTime: int)
      requires Valid() && clock <= enterTime && instance != 0
      modifies this
      ensures Valid() && clock == enterTime
      ensures logs == old(logs)[account := old(Log(account)) + [Visit(instance, enterTime)]]
      ensures enterTimes == old(enterTimes)[account := old(Times(account))[instance := enterTime]]
      ensures extra == old(extra)[account := old(Extra(account)) + if old(Fits(account, instance)) then 0 else 1]
    {
      ghost var log := Log(account) + [Visit(instance, enterTime)];
      ghost var more := Extra(account) + if Fits(account, instance) then 0 else 1;
      var times: map<nat, int> := TimesOf(enterTimes, account)[instance := enterTime];
      assert SoundFor(enterTimes, logs, extra, clock, maxCount, account);
      EntryWithExtra(Times(account), Log(account), clock, maxCount + Extra(account), instance, enterTime);
      OthersStaySound(enterTimes, logs, extra, clock, maxCount, account, times, log, more, enterTime);
      enterTimes := enterTimes[account := times];
      logs, extra := logs[account := log], extra[account := more];
      clock := enterTime;
    }

    /** A player goes to a dungeon: with an instance saved for it he is checked for that one, else for none, and
        then enters the one made for him. Nobody gets an extra instance that way. */
    method EnterDungeon(account: nat, saved: nat, made: nat, now: int, later: int) returns (ok: bool)
      requires Valid() && clock <= now <= later && made != 0
      modifies this
      ensures Valid() && forall a :: Extra(a) == old(Extra(a))
      ensures !ok ==> |HourFrom(Log(account), now - HOUR)| >= maxCount && forall a :: Log(a) == old(Log(a))
      ensures ok ==> Log(account) == old(Log(account)) + [Visit(if saved != 0 then saved else made, later)]
      ensures ok ==> forall a :: a != account ==> Log(a) == old(Log(a))
    {
      ok := CheckInstanceCount(account, saved, now);
      if ok {
        assert SoundFor(enterTimes, logs, extra, clock, maxCount, account);
        AddInstanceEnterTime(account, if saved != 0 then saved else made, later);
      }
    }
  }
}

/** Guards called at a post: each post holds a number of charges, rests after each call and is recharged with
    all others from time to time. */
module GuardPosts {

  const USE_COOLDOWN: nat := 10000
  const RECHARGE_TIME: nat := 60000
  const MAX_CHARGES: nat := 10

  datatype Post = Post(cooldown: nat, charges: nat) {
    predicate Ready() { cooldown == 0 && charges > 0 }

    function Rested(diff: nat): Post {
      this.(cooldown := if cooldown >= diff then cooldown - diff else 0)
    }

    function Recharged(): Post { if charges < MAX_CHARGES then this.(charges := charges + 1) else this }

    function Used(): Post
      requires Ready()
    {
      Post(USE_COOLDOWN, charges - 1)
    }
  }

  /** The timer is not set when the server starts: it may begin anywhere. */
  datatype Posts = Posts(timer: nat, posts: map<nat, Post>)

  function AfterTick(m: Posts, diff: nat): Posts {
    if m.timer < diff then Posts(RECHARGE_TIME, map a | a in m.posts :: m.posts[a].Rested(diff).Recharged())
    else Posts(m.timer - diff, map a | a in m.posts :: m.posts[a].Rested(diff))
  }

  predicate CanSummon(m: Posts, area: nat) { area in m.posts && m.posts[area].Ready() }

  function AfterSummon(m: Posts, area: nat): Posts {
    if CanSummon(m, area) then m.(posts := m.posts[area := m.posts[area].Used()]) else m
  }

  class GuardMgr {
    var rechargeTimer: nat
    var areaGuardInfo: map<nat, Post>

    function Value(): Posts
      reads this
    {
      Posts(rechargeTimer, areaGuardInfo)
    }

    constructor (areas: set<nat>, timer: nat)
      ensures Value() == Posts(timer, map a | a in areas :: Post(0, MAX_CHARGES))
    {
      rechargeTimer := timer;
      areaGuardInfo := map a | a in areas :: Post(0, MAX_CHARGES);
    }

    method Update(diff: nat)
      modifies this
      ensures Value() == AfterTick(old(Value()), diff)
    {
      var increase := rechargeTimer < diff;
      rechargeTimer := if increase then RECHARGE_TIME else rechargeTimer - diff;
      var left := areaGuardInfo.Keys;
      while left != {}
        invariant rechargeTimer == AfterTick(old(Value()), diff).timer
        invariant left <= areaGuardInfo.Keys == old(areaGuardInfo).Keys
        invariant forall a :: a in left ==> areaGuardInfo[a] == old(areaGuardInfo)[a]
        invariant forall a :: a in areaGuardInfo && a !in left ==>
                    areaGuardInfo[a] == if increase then old(areaGuardInfo)[a].Rested(diff).Recharged()
                                        else old(areaGuardInfo)[a].Rested(diff)
      {
        var a :| a in left;
        left := left - {a};
        var post := areaGuardInfo[a];
        if post.cooldown != 0 {
          post := post.(cooldown := if post.cooldown >= diff then post.cooldown - diff else 0);
        }
        if increase && post.charges < MAX_CHARGES {
          post := post.(charges := post.charges + 1);
        }
        areaGuardInfo := areaGuardInfo[a := post];
      }
      assert areaGuardInfo == AfterTick(old(Value()), diff).posts;
    }

    /** Whether somebody comes: outside the areas with a post it is the nearest guard. */
    method SummonGuard(area: nat) returns (ok: bool)
      modifies this
      ensures ok <==> area !in old(areaGuardInfo) || CanSummon(old(Value()), area)
      ensures Value() == AfterSummon(old(Value()), area)
    {
      if area !in areaGuardInfo { return true; }
      var post := areaGuardInfo[area];
      if post.cooldown != 0 || post.charges == 0 { return false; }
      areaGuardInfo := areaGuardInfo[area := Post(USE_COOLDOWN, post.charges - 1)];
      return true;
    }
  }

  // ----- Whole runs -----

  datatype Op = Tick(diff: nat) | Summon(area: nat)

  function Step(m: Posts, op: Op): Posts {
    match op
    case Tick(diff) => AfterTick(m, diff)
    case Summon(area) => AfterSummon(m, area)
  }

  function Run(m: Posts, ops: seq<Op>): Posts
    decreases ops
  {
    if ops == [] then m else Run(Step(m, ops[0]), ops[1..])
  }

  function Elapsed(ops: seq<Op>): nat {
    if ops == [] then 0 else (if ops[0].Tick? then ops[0].diff else 0) + Elapsed(ops[1..])
  }

  /** The guards the post of an area sends in a run. */
  function Summons(m: Posts, ops: seq<Op>, area: nat): nat
    decreases ops
  {
    if ops == [] then 0
    else (if ops[0] == Summon(area) && CanSummon(m, area) then 1 else 0) + Summons(Step(m, ops[0]), ops[1..], area)
  }

  function Recharges(m: Posts, ops: seq<Op>): nat
    decreases ops
  {
    if ops == [] then 0
    else (if ops[0].Tick? && m.timer < ops[0].diff then 1 else 0) + Recharges(Step(m, ops[0]), ops[1..])
  }

  lemma {:induction false} SummonsUseCharges(m: Posts, ops: seq<Op>, area: nat)
    requires area in m.posts
    ensures area in Run(m, ops).posts
    ensures Summons(m, ops, area) + Run(m, ops).posts[area].charges <= m.posts[area].charges + Recharges(m, ops)
    decreases ops
  {
    if ops != [] { SummonsUseCharges(Step(m, ops[0]), ops[1..], area); }
  }

  /** After the first recharge each one takes a minute. */
  lemma {:induction false} RechargesTakeTime(m: Posts, ops: seq<Op>)
    ensures Recharges(m, ops) > 0 ==> RECHARGE_TIME * (Recharges(m, ops) - 1) <= Elapsed(ops)
    ensures m.timer <= RECHARGE_TIME && Recharges(m, ops) > 0 ==>
              RECHARGE_TIME * (Recharges(m, ops) - 1) + m.timer <= Elapsed(ops)
    decreases ops
  {
    if ops != [] { RechargesTakeTime(Step(m, ops[0]), ops[1..]); }
  }

  /** In any time T the post of an area sends at most 11 + T / 60000 guards, whatever the timer was. */
  lemma SummonsAreLimited(m: Posts, ops: seq<Op>, area: nat)
    requires area in m.posts && m.posts[area].charges <= MAX_CHARGES
    ensures Summons(m, ops, area) <= MAX_CHARGES + 1 + Elapsed(ops) / RECHARGE_TIME
  {
    SummonsUseCharges(m, ops, area);
    RechargesTakeTime(m, ops);
  }

  lemma {:induction false} ChargesStayInRange(m: Posts, ops: seq<Op>, area: nat)
    requires area in m.posts && m.posts[area].charges <= MAX_CHARGES
    ensures area in Run(m, ops).posts && Run(m, ops).posts[area].charges <= MAX_CHARGES
    decreases ops
  {
    if ops != [] { ChargesStayInRange(Step(m, ops[0]), ops[1..], area); }
  }

  lemma {:induction false} RestTakesTime(m: Posts, ops: seq<Op>, area: nat)
    requires area in m.posts && CanSummon(Run(m, ops), area)
    ensures m.posts[area].cooldown <= Elapsed(ops)
    decreases ops
  {
    if ops != [] && m.posts[area].cooldown > 0 { RestTakesTime(Step(m, ops[0]), ops[1..], area); }
  }

  /** Two guards of the same post are at least ten seconds apart. */
  lemma SummonsAreApart(m: Posts, ops: seq<Op>, area: nat)
    requires CanSummon(m, area) && CanSummon(Run(AfterSummon(m, area), ops), area)
    ensures Elapsed(ops) >= USE_COOLDOWN
  {
    RestTakesTime(AfterSummon(m, area), ops, area);
  }

  /** While nobody calls at a post it rests, and has a charge exactly if it had one or the timer has run out. */
  lemma {:induction false} QuietPostRests(m: Posts, ops: seq<Op>, area: nat)
    requires area in m.posts && m.posts[area].charges <= MAX_CHARGES && Summon(area) !in ops
    ensures area in Run(m, ops).posts
    ensures Run(m, ops).posts[area].cooldown ==
            if m.posts[area].cooldown >= Elapsed(ops) then m.posts[area].cooldown - Elapsed(ops) else 0
    ensures Run(m, ops).posts[area].charges > 0 <==> m.posts[area].charges > 0 || m.timer < Elapsed(ops)
    decreases ops
  {
    if ops != [] {
      assert ops == [ops[0]] + ops[1..];
      QuietPostRests(Step(m, ops[0]), ops[1..], area);
    }
  }

  /** So after any quiet time it sends a guard again exactly when it has rested and had or got a charge; however
      long the ticks are, that is the case at the latest after the rest of the timer and the cooldown. */
  lemma QuietPostRecovers(m: Posts, ops: seq<Op>, area: nat)
    requires area in m.posts && m.posts[area].charges <= MAX_CHARGES && Summon(area) !in ops
    ensures CanSummon(Run(m, ops), area) <==>
            m.posts[area].cooldown <= Elapsed(ops) && (m.posts[area].charges > 0 || m.timer < Elapsed(ops))
  {
    QuietPostRests(m, ops, area);
  }
}
