/** Bot-list status posting: the services a manager runs, kept in order of
  * their repeat interval, the choice of guild counting strategy, the
  * event-fed guild set, per-shard counting and the Top.gg and Bots.gg
  * payloads. Intervals are seconds as `real`. */
module ListStatus {
  import opened Wrappers

  type Snowflake = nat
  type ShardId = nat
  /** The identity of a service callback. */
  type ServiceId = nat

  const RUNNING_ADD := "Cannot add a service to an already running manager"
  const RUNNING_REMOVE := "Cannot remove a service while this manager is running"
  const REPEAT_TOO_SMALL := "Repeat cannot be under 1 second"
  const SERVICE_NOT_FOUND := "Couldn't find service"
  const NO_SERVICES := "Cannot run a client with no registered services."
  const NO_STRATEGY := "Cannot find a valid guild counting strategy for the provided Hikari client(s)"
  const EVENT_MANAGED_ALONE := "event_managed may only be passed when an event_manager is also passed"
  const SHARD_BOUND_ALONE := "Cannot use a shard bound strategy without shards present"
  const SHARD_COUNT_UNKNOWN := "Shard count unknown"

  // ---------------------------------------------------------------------
  // `_queue_insert`
  // ---------------------------------------------------------------------

  /** Where `_queue_insert` puts a value: before the first element the check
    * accepts, else at the end. */
  function InsertIndex<T>(s: seq<T>, check: T -> bool): (i: nat)
    ensures i <= |s|
    ensures forall k :: 0 <= k < i ==> !check(s[k])
    ensures i < |s| ==> check(s[i])
  {
    if s == [] then 0
    else if check(s[0]) then 0
    else 1 + InsertIndex(s[1..], check)
  }

  /** The insertion index is the only one with those two properties. */
  lemma InsertIndexUnique<T>(s: seq<T>, check: T -> bool, i: nat)
    requires i <= |s|
    requires forall k :: 0 <= k < i ==> !check(s[k])
    requires i < |s| ==> check(s[i])
    ensures i == InsertIndex(s, check)
  {
  }

  /** `_queue_insert`: the value is inserted at the insertion index. */
  method QueueInsert<T>(s: seq<T>, check: T -> bool, value: T) returns (r: seq<T>)
    ensures r == s[..InsertIndex(s, check)] + [value] + s[InsertIndex(s, check)..]
  {
    var index := -1;
    var found := false;
    var k := 0;
    while k < |s|
      invariant 0 <= k <= |s| && index == k - 1 && !found
      invariant forall j :: 0 <= j < k ==> !check(s[j])
    {
      index := k;
      if check(s[k]) {
        found := true;
        break;
      }
      k := k + 1;
    }
    if !found {
      index := index + 1;
    }
    InsertIndexUnique(s, check, index);
    r := s[..index] + [value] + s[index..];
  }

  /** The insertion adds the value and keeps every other element in its
    * order. */
  lemma InsertKeepsOthers<T>(s: seq<T>, i: nat, value: T)
    requires i <= |s|
    ensures var r := s[..i] + [value] + s[i..];
            |r| == |s| + 1 && r[i] == value && r[..i] + r[i + 1..] == s &&
            multiset(r) == multiset(s) + multiset{value}
  {
    var r := s[..i] + [value] + s[i..];
    assert r[..i] == s[..i];
    assert r[i + 1..] == s[i..];
    assert s == s[..i] + s[i..];
  }

  // ---------------------------------------------------------------------
  // Services
  // ---------------------------------------------------------------------

  /** `_ServiceDescriptor`. */
  datatype ServiceDescriptor = ServiceDescriptor(callback: ServiceId, repeat: real)

  /** The check `add_service` passes to `_queue_insert`. */
  function Later(repeat: real): ServiceDescriptor -> bool
  {
    (d: ServiceDescriptor) => d.repeat > repeat
  }

  ghost predicate SortedByRepeat(s: seq<ServiceDescriptor>)
  {
    forall i, j :: 0 <= i < j < |s| ==> s[i].repeat <= s[j].repeat
  }

  /** Where each element sits after an insertion. */
  lemma InsertAt<T>(s: seq<T>, i: nat, value: T)
    requires i <= |s|
    ensures var r := s[..i] + [value] + s[i..];
            |r| == |s| + 1 && r[i] == value
            && (forall k :: 0 <= k < i ==> r[k] == s[k])
            && (forall k :: i < k < |r| ==> r[k] == s[k - 1])
  {
  }

  /** Inserting by `Later` keeps the services sorted, puts the new one after
    * every service with an interval no longer than its own (so equal
    * intervals keep the order they were added in) and before every longer
    * one. */
  lemma InsertSorted(s: seq<ServiceDescriptor>, d: ServiceDescriptor)
    requires SortedByRepeat(s)
    ensures var i := InsertIndex(s, Later(d.repeat));
            var r := s[..i] + [d] + s[i..];
            SortedByRepeat(r) &&
            (forall k :: 0 <= k < i ==> r[k].repeat <= d.repeat) &&
            (forall k :: i < k < |r| ==> r[k].repeat > d.repeat)
  {
    var i := InsertIndex(s, Later(d.repeat));
    var r := s[..i] + [d] + s[i..];
    InsertAt(s, i, d);
    forall k | 0 <= k < i
      ensures r[k].repeat <= d.repeat
    {
      assert !Later(d.repeat)(s[k]);
    }
    forall k | i < k < |r|
      ensures r[k].repeat > d.repeat
    {
      assert Later(d.repeat)(s[i]);
      assert s[i].repeat <= s[k - 1].repeat;
    }
    forall a, b | 0 <= a < b < |r|
      ensures r[a].repeat <= r[b].repeat
    {
      if b < i {
        assert r[a] == s[a] && r[b] == s[b];
      } else if a > i {
        assert r[a] == s[a - 1] && r[b] == s[b - 1];
      }
    }
  }

  /** The first descriptor of a callback, if any. */
  function FindService(s: seq<ServiceDescriptor>, service: ServiceId): (r: Option<nat>)
    ensures r.None? <==> forall k :: 0 <= k < |s| ==> s[k].callback != service
    ensures r.Some? ==> r.value < |s| && s[r.value].callback == service &&
                        forall k :: 0 <= k < r.value ==> s[k].callback != service
  {
    if s == [] then None
    else if s[0].callback == service then Some(0)
    else match FindService(s[1..], service)
      case None => None
      case Some(i) => Some(i + 1)
  }

  /** Removing one element keeps a sorted list sorted. */
  lemma RemoveSorted(s: seq<ServiceDescriptor>, i: nat)
    requires SortedByRepeat(s) && i < |s|
    ensures SortedByRepeat(s[..i] + s[i + 1..])
  {
    var r := s[..i] + s[i + 1..];
    assert forall k :: 0 <= k < |r| ==> r[k] == if k < i then s[k] else s[k + 1];
  }

  /** Inserting a service of at least a second keeps the services sorted
    * and none under a second. */
  lemma InsertKeepsValid(s: seq<ServiceDescriptor>, d: ServiceDescriptor)
    requires SortedByRepeat(s) && forall k :: 0 <= k < |s| ==> s[k].repeat >= 1.0
    requires d.repeat >= 1.0
    ensures var i := InsertIndex(s, Later(d.repeat));
            var r := s[..i] + [d] + s[i..];
            SortedByRepeat(r) && forall k :: 0 <= k < |r| ==> r[k].repeat >= 1.0
  {
    var i := InsertIndex(s, Later(d.repeat));
    InsertSorted(s, d);
    InsertAt(s, i, d);
  }

  /** `ServiceManager`'s service list and running state; the counting
    * strategy is only seen through whether it has been opened. */
  class ServiceManager {
    var services: seq<ServiceDescriptor>
    /** Whether the posting task exists. */
    var running: bool
    var counterOpen: bool
    var sessionOpen: bool

    /** Services are sorted by interval and none repeats faster than once a
      * second. */
    ghost predicate Valid()
      reads this
    {
      SortedByRepeat(services) && forall k :: 0 <= k < |services| ==> services[k].repeat >= 1.0
    }

    constructor ()
      ensures Valid() && services == [] && !running && !counterOpen && !sessionOpen
    {
      services := [];
      running := false;
      counterOpen := false;
      sessionOpen := false;
    }

    /** `add_service`: refused while running or for an interval under a
      * second; otherwise the service goes after every service repeating no
      * less often. */
    method AddService(service: ServiceId, repeat: real) returns (r: Result<Unit>)
      requires Valid()
      modifies this
      ensures Valid()
      ensures old(running) ==> r == Failure(RuntimeError(RUNNING_ADD)) && services == old(services)
      ensures !old(running) && repeat < 1.0 ==> r == Failure(ValueError(REPEAT_TOO_SMALL)) && services == old(services)
      ensures !old(running) && repeat >= 1.0 ==>
                r.Success? &&
                var i := InsertIndex(old(services), Later(repeat));
                services == old(services)[..i] + [ServiceDescriptor(service, repeat)] + old(services)[i..]
      ensures running == old(running) && counterOpen == old(counterOpen) && sessionOpen == old(sessionOpen)
    {
      if running {
        return Failure(RuntimeError(RUNNING_ADD));
      }
      if repeat < 1.0 {
        return Failure(ValueError(REPEAT_TOO_SMALL));
      }
      var d := ServiceDescriptor(service, repeat);
      InsertKeepsValid(services, d);
      services := QueueInsert(services, Later(repeat), d);
      r := Success(Unit);
    }

    /** `remove_service`: refused while running; otherwise the first
      * descriptor of the callback is removed, or ValueError when there is
      * none. */
    method RemoveService(service: ServiceId) returns (r: Result<Unit>)
      requires Valid()
      modifies this
      ensures Valid()
      ensures old(running) ==> r == Failure(RuntimeError(RUNNING_REMOVE)) && services == old(services)
      ensures !old(running) && FindService(old(services), service).None? ==>
                r == Failure(ValueError(SERVICE_NOT_FOUND)) && services == old(services)
      ensures !old(running) && FindService(old(services), service).Some? ==>
                r.Success? &&
                var i := FindService(old(services), service).value;
                services == old(services)[..i] + old(services)[i + 1..]
      ensures running == old(running) && counterOpen == old(counterOpen) && sessionOpen == old(sessionOpen)
    {
      if running {
        return Failure(RuntimeError(RUNNING_REMOVE));
      }
      var k := 0;
      while k < |services|
        invariant 0 <= k <= |services|
        invariant forall j :: 0 <= j < k ==> services[j].callback != service
      {
        if services[k].callback == service {
          assert FindService(services, service) == Some(k);
          RemoveSorted(services, k);
          services := services[..k] + services[k + 1..];
          return Success(Unit);
        }
        k := k + 1;
      }
      r := Failure(ValueError(SERVICE_NOT_FOUND));
    }

    /** `open`: refused without services; otherwise a session is made
      * available and, when not yet running, the counter is opened and the
      * task started. */
    method Open() returns (r: Result<Unit>)
      requires Valid()
      modifies this
      ensures Valid() && services == old(services)
      ensures old(services) == [] ==>
                r == Failure(RuntimeError(NO_SERVICES)) &&
                running == old(running) && counterOpen == old(counterOpen) && sessionOpen == old(sessionOpen)
      ensures old(services) != [] ==>
                r.Success? && running && sessionOpen && counterOpen == (old(counterOpen) || !old(running))
    {
      if services == [] {
        return Failure(RuntimeError(NO_SERVICES));
      }
      sessionOpen := true;
      if !running {
        counterOpen := true;
        running := true;
      }
      r := Success(Unit);
    }

    /** `close`: only a running manager stops its task, closes its counter
      * and drops its session. */
    method Close()
      requires Valid()
      modifies this
      ensures Valid() && services == old(services) && !running
      ensures old(running) ==> !counterOpen && !sessionOpen
      ensures !old(running) ==> counterOpen == old(counterOpen) && sessionOpen == old(sessionOpen)
    {
      if !running {
        return;
      }
      running := false;
      counterOpen := false;
      sessionOpen := false;
    }
  }

  // ---------------------------------------------------------------------
  // Counting strategies
  // ---------------------------------------------------------------------

  /** The counting strategies: the two standard ones tried in turn, and a
    * strategy given by the caller. */
  datatype Strategy = CacheStrategy | EventStrategy | GivenStrategy(shardBound: bool)
  {
    predicate IsShardBound()
    {
      match this
      case CacheStrategy => true
      case EventStrategy => true
      case GivenStrategy(b) => b
    }
  }

  /** The Hikari clients a manager is built with. */
  datatype Clients = Clients(
    hasCache: bool,
    cacheGuilds: bool,       // the guild cache component is enabled
    hasShards: bool,
    guildsIntent: bool,      // the shards declare the GUILDS intent
    hasEventManager: bool)

  /** `CacheStrategy.spawn`. */
  predicate CacheSpawns(c: Clients)
  {
    c.hasCache && c.hasShards && c.cacheGuilds && c.guildsIntent
  }

  /** `EventStrategy.spawn`. */
  predicate EventSpawns(c: Clients)
  {
    c.hasEventManager && c.hasShards && c.guildsIntent
  }

  /** The strategy part of `ServiceManager.__init__`: a given strategy is
    * used as is; otherwise the cache strategy, then the event strategy, is
    * spawned, else ValueError. Then `event_managed` needs an event manager,
    * and a shard-bound strategy needs shards. The result says whether the
    * manager follows the event manager's lifetime. */
  function Configure(given: Option<Strategy>, eventManaged: Option<bool>, c: Clients): (r: Result<(Strategy, bool)>)
    ensures r.Success? ==> (r.value.0.IsShardBound() ==> c.hasShards)
    ensures r.Success? && given.None? ==> r.value.0 == (if CacheSpawns(c) then CacheStrategy else EventStrategy)
    ensures r.Success? && given.Some? ==> r.value.0 == given.value
    ensures given.None? && !CacheSpawns(c) && !EventSpawns(c) ==> r == Failure(ValueError(NO_STRATEGY))
    ensures r.Success? ==> r.value.1 == (eventManaged == Some(true) || (eventManaged.None? && c.hasEventManager))
  {
    var picked :=
      if given.Some? then Success(given.value)
      else if CacheSpawns(c) then Success(CacheStrategy)
      else if EventSpawns(c) then Success(EventStrategy)
      else Failure(ValueError(NO_STRATEGY));
    if picked.Failure? then Failure(picked.error)
    else
      var managed := eventManaged == Some(true) || (eventManaged.None? && c.hasEventManager);
      if managed && !c.hasEventManager then Failure(ValueError(EVENT_MANAGED_ALONE))
      else if picked.value.IsShardBound() && !c.hasShards then Failure(ValueError(SHARD_BOUND_ALONE))
      else Success((picked.value, managed))
  }

  /** The shard check only ever refuses a given strategy: the standard ones
    * spawn only with shards. */
  lemma StandardStrategiesHaveShards(eventManaged: Option<bool>, c: Clients)
    requires Configure(None, eventManaged, c).Failure?
    ensures Configure(None, eventManaged, c).error != ValueError(SHARD_BOUND_ALONE)
  {
  }

  // ---------------------------------------------------------------------
  // Per-shard counts
  // ---------------------------------------------------------------------

  /** The shard a guild's events go to: Discord's sharding formula,
    * `(guild_id >> 22) % shard_count`. */
  function ShardOf(shardCount: nat, guildId: Snowflake): (s: ShardId)
    requires shardCount > 0
    ensures s < shardCount
  {
    (guildId / 0x40_0000) % shardCount
  }

  /** How many of the guilds fall on a shard. */
  function CountOn(shardCount: nat, guilds: seq<Snowflake>, s: ShardId): (n: nat)
    requires shardCount > 0
    ensures n <= |guilds|
  {
    if guilds == [] then 0
    else CountOn(shardCount, guilds[..|guilds| - 1], s) + (if ShardOf(shardCount, guilds[|guilds| - 1]) == s then 1 else 0)
  }

  /** The shards the guilds fall on. */
  function ShardsOf(shardCount: nat, guilds: seq<Snowflake>): (r: set<ShardId>)
    requires shardCount > 0
    ensures forall s :: s in r ==> CountOn(shardCount, guilds, s) >= 1
    ensures forall s :: s !in r ==> CountOn(shardCount, guilds, s) == 0
  {
    if guilds == [] then {}
    else ShardsOf(shardCount, guilds[..|guilds| - 1]) + {ShardOf(shardCount, guilds[|guilds| - 1])}
  }

  /** Counting one guild more. */
  lemma CountStep(shardCount: nat, guilds: seq<Snowflake>, i: nat)
    requires shardCount > 0 && i < |guilds|
    ensures ShardsOf(shardCount, guilds[..i + 1]) == ShardsOf(shardCount, guilds[..i]) + {ShardOf(shardCount, guilds[i])}
    ensures forall s :: CountOn(shardCount, guilds[..i + 1], s) ==
                        CountOn(shardCount, guilds[..i], s) + (if ShardOf(shardCount, guilds[i]) == s then 1 else 0)
  {
    assert guilds[..i + 1][..i] == guilds[..i];
  }

  /** Counts that are right for the first `i` guilds. */
  ghost predicate CountsUpTo(knownShards: set<ShardId>, shardCount: nat, guilds: seq<Snowflake>, i: nat,
                             counts: map<ShardId, nat>)
    requires shardCount > 0 && i <= |guilds|
  {
    counts.Keys == knownShards + ShardsOf(shardCount, guilds[..i])
    && forall s :: s in counts ==> counts[s] == CountOn(shardCount, guilds[..i], s)
  }

  /** Before any guild, every known shard counts zero. */
  lemma CountsStart(knownShards: set<ShardId>, shardCount: nat, guilds: seq<Snowflake>, counts: map<ShardId, nat>)
    requires shardCount > 0 && counts == map s | s in knownShards :: 0
    ensures CountsUpTo(knownShards, shardCount, guilds, 0, counts)
  {
    assert guilds[..0] == [];
  }

  /** After every guild, the counts are the whole list's. */
  lemma CountsEnd(knownShards: set<ShardId>, shardCount: nat, guilds: seq<Snowflake>, counts: map<ShardId, nat>)
    requires shardCount > 0 && CountsUpTo(knownShards, shardCount, guilds, |guilds|, counts)
    ensures counts.Keys == knownShards + ShardsOf(shardCount, guilds)
    ensures forall s :: s in counts ==> counts[s] == CountOn(shardCount, guilds, s)
  {
    assert guilds[..|guilds|] == guilds;
  }

  /** One more guild counted on its shard keeps the counts right. */
  lemma CountsStep(knownShards: set<ShardId>, shardCount: nat, guilds: seq<Snowflake>, i: nat,
                   counts: map<ShardId, nat>, next: map<ShardId, nat>)
    requires shardCount > 0 && i < |guilds|
    requires CountsUpTo(knownShards, shardCount, guilds, i, counts)
    requires var s := ShardOf(shardCount, guilds[i]);
             next == counts[s := if s in counts then counts[s] + 1 else 1]
    ensures CountsUpTo(knownShards, shardCount, guilds, i + 1, next)
  {
    CountStep(shardCount, guilds, i);
    var s := ShardOf(shardCount, guilds[i]);
    assert next.Keys == counts.Keys + {s};
    forall t | t in next
      ensures next[t] == CountOn(shardCount, guilds[..i + 1], t)
    {
      if t != s {
        assert t in counts;
      }
    }
  }

  /** `_shard_guild_ids`: every known shard starts at zero and each guild
    * adds one to its shard, which is created when unknown. */
  method ShardGuildIds(knownShards: set<ShardId>, shardCount: nat, guilds: seq<Snowflake>)
    returns (counts: map<ShardId, nat>)
    requires shardCount > 0
    ensures counts.Keys == knownShards + ShardsOf(shardCount, guilds)
    ensures forall s :: s in counts ==> counts[s] == CountOn(shardCount, guilds, s)
  {
    counts := map s | s in knownShards :: 0;
    CountsStart(knownShards, shardCount, guilds, counts);
    var i := 0;
    while i < |guilds|
      invariant 0 <= i <= |guilds|
      invariant CountsUpTo(knownShards, shardCount, guilds, i, counts)
    {
      ghost var prev := counts;
      var s := ShardOf(shardCount, guilds[i]);
      if s in counts {
        counts := counts[s := counts[s] + 1];
      } else {
        counts := counts[s := 1];
      }
      CountsStep(knownShards, shardCount, guilds, i, prev, counts);
      i := i + 1;
    }
    CountsEnd(knownShards, shardCount, guilds, counts);
  }

  /** Every guild on a shard is counted there. */
  lemma {:induction false} CountOnPositive(shardCount: nat, guilds: seq<Snowflake>, k: nat)
    requires shardCount > 0 && k < |guilds|
    ensures CountOn(shardCount, guilds, ShardOf(shardCount, guilds[k])) >= 1
  {
    if k < |guilds| - 1 {
      assert guilds[..|guilds| - 1][k] == guilds[k];
      CountOnPositive(shardCount, guilds[..|guilds| - 1], k);
    }
  }

  /** `EventStrategy`: the guild ids learned from gateway events while
    * subscribed. */
  class GuildSet {
    var guildIds: set<Snowflake>
    /** Whether the strategy is subscribed to the gateway events. */
    var started: bool

    constructor ()
      ensures guildIds == {} && !started
    {
      guildIds := {};
      started := false;
    }

    /** A shard's ready event adds its unavailable guilds. */
    method OnShardReady(unavailable: seq<Snowflake>)
      modifies this
      ensures guildIds == old(guildIds) + (set k | 0 <= k < |unavailable| :: unavailable[k])
      ensures started == old(started)
    {
      var i := 0;
      while i < |unavailable|
        invariant 0 <= i <= |unavailable| && started == old(started)
        invariant guildIds == old(guildIds) + (set k | 0 <= k < i :: unavailable[k])
      {
        guildIds := guildIds + {unavailable[i]};
        i := i + 1;
      }
    }

    /** Startup forgets every guild. */
    method OnStarting()
      modifies this
      ensures guildIds == {} && started == old(started)
    {
      guildIds := {};
    }

    /** A guild becoming available or updated is added. */
    method OnGuildAvailable(guildId: Snowflake)
      modifies this
      ensures guildIds == old(guildIds) + {guildId} && started == old(started)
    {
      guildIds := guildIds + {guildId};
    }

    /** A guild left is dropped; an unknown one is ignored. */
    method OnGuildLeave(guildId: Snowflake)
      modifies this
      ensures guildIds == old(guildIds) - {guildId} && started == old(started)
    {
      if guildId in guildIds {
        guildIds := guildIds - {guildId};
      }
    }

    method OnGuildUpdate(guildId: Snowflake)
      modifies this
      ensures guildIds == old(guildIds) + {guildId} && started == old(started)
    {
      guildIds := guildIds + {guildId};
    }

    /** `close`: a started strategy unsubscribes and forgets its guilds; a
      * closed one is left alone. */
    method Close()
      modifies this
      ensures !started
      ensures old(started) ==> guildIds == {}
      ensures !old(started) ==> guildIds == old(guildIds)
    {
      if !started {
        return;
      }
      started := false;
      guildIds := {};
    }

    /** `open`: subscribes once; the guilds are kept. */
    method Open()
      modifies this
      ensures started && guildIds == old(guildIds)
    {
      if started {
        return;
      }
      started := true;
    }
  }

  // ---------------------------------------------------------------------
  // Payloads
  // ---------------------------------------------------------------------

  /** What a strategy's `count` gives: one global count or counts per shard,
    * the latter as the dict's items in the dict's own order. */
  datatype Counts = Global(total: int) | PerShard(items: seq<(ShardId, int)>)

  /** No later item has the same key as item `i`. */
  ghost predicate LastOccurrence(items: seq<(ShardId, int)>, i: nat)
    requires i < |items|
  {
    forall j :: i < j < |items| ==> items[j].0 != items[i].0
  }

  /** The dict a sequence of items builds: exactly the keys that occur. */
  function ItemsMap(items: seq<(ShardId, int)>): (r: map<ShardId, int>)
    ensures forall k :: k in r <==> exists i :: 0 <= i < |items| && items[i].0 == k
  {
    if items == [] then map[]
    else
      var rest := ItemsMap(items[1..]);
      assert forall i :: 1 <= i < |items| ==> items[1..][i - 1] == items[i];
      if items[0].0 in rest then rest else rest[items[0].0 := items[0].1]
  }

  /** Each key holds the value of its last occurrence. */
  lemma {:induction false} ItemsMapLastWins(items: seq<(ShardId, int)>, i: nat)
    requires i < |items| && LastOccurrence(items, i)
    ensures items[i].0 in ItemsMap(items) && ItemsMap(items)[items[i].0] == items[i].1
  {
    if i > 0 {
      var tail := items[1..];
      assert tail[i - 1] == items[i];
      assert LastOccurrence(tail, i - 1) by {
        forall j | i - 1 < j < |tail|
          ensures tail[j].0 != tail[i - 1].0
        {
          assert tail[j] == items[j + 1];
        }
      }
      ItemsMapLastWins(tail, i - 1);
    } else {
      assert items[0].0 !in ItemsMap(items[1..]) by {
        forall j | 0 <= j < |items[1..]|
          ensures items[1..][j].0 != items[0].0
        {
          assert items[1..][j] == items[j + 1];
        }
      }
    }
  }

  /** The JSON body posted to Top.gg. */
  datatype TopGGBody = TopGGBody(serverCount: Option<int>, shards: Option<seq<int>>, shardCount: Option<nat>)

  /** Top.gg's shard list: a shard's local count wins, then the count Top.gg
    * already holds for it, else 0. */
  function TopGGShards(counts: map<ShardId, int>, fetched: seq<int>, shardCount: nat): (r: seq<int>)
    ensures |r| == shardCount
    ensures forall i :: 0 <= i < shardCount ==>
              r[i] == if i in counts then counts[i] else if i < |fetched| then fetched[i] else 0
  {
    var held := map i | 0 <= i < |fetched| :: fetched[i];
    var merged := held + counts;
    seq(shardCount, i requires 0 <= i => if i in merged then merged[i] else 0)
  }

  /** `TopGGService.__call__`'s body: a global count as `server_count`,
    * per-shard counts as the shard list (which needs the shard count), and
    * the shard count whenever shards are known. `fetched` is the list
    * Top.gg returned. */
  function TopGGPayload(counts: Counts, shardCount: Option<nat>, fetched: seq<int>): (r: Result<TopGGBody>)
    ensures r.Failure? <==> counts.PerShard? && shardCount.None?
    ensures r.Failure? ==> r.error == RuntimeError(SHARD_COUNT_UNKNOWN)
    ensures r.Success? ==> r.value.shardCount == shardCount
    ensures r.Success? && counts.Global? ==> r.value.serverCount == Some(counts.total) && r.value.shards.None?
    ensures r.Success? && counts.PerShard? ==>
              r.value.serverCount.None? && r.value.shards.Some? && |r.value.shards.value| == shardCount.value
  {
    match counts
    case Global(n) => Success(TopGGBody(Some(n), None, shardCount))
    case PerShard(items) =>
      if shardCount.None? then Failure(RuntimeError(SHARD_COUNT_UNKNOWN))
      else Success(TopGGBody(None, Some(TopGGShards(ItemsMap(items), fetched, shardCount.value)), shardCount))
  }

  /** The JSON body posted to Bots.gg; each entry of the per-shard list is
    * a (`shardId`, `guildCount`) pair. */
  datatype BotsGGBody = BotsGGBody(guildCount: Option<int>, shards: Option<seq<(ShardId, int)>>, shardCount: Option<nat>)

  /** `BotsGGService.__call__`'s body: a global count as `guildCount`,
    * per-shard counts as one entry per item of the counts, in the counts'
    * own order. */
  function BotsGGPayload(counts: Counts, shardCount: Option<nat>): (r: BotsGGBody)
    ensures r.shardCount == shardCount
    ensures counts.Global? ==> r.guildCount == Some(counts.total) && r.shards.None?
    ensures counts.PerShard? ==>
              r.guildCount.None? && r.shards.Some? && |r.shards.value| == |counts.items|
              && (forall i :: 0 <= i < |counts.items| ==> r.shards.value[i] == counts.items[i])
  {
    match counts
    case Global(n) => BotsGGBody(Some(n), None, shardCount)
    case PerShard(items) => BotsGGBody(None, Some(seq(|items|, i requires 0 <= i < |items| => (items[i].0, items[i].1))), shardCount)
  }
}
