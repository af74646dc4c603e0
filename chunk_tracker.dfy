/** Tracking of member chunk requests: which guilds of an identifying shard
  * still wait for their member chunks, which chunks of a request are still
  * missing, and the finished events that follow. Shard and request records
  * are values held in the tracker's tables; times are whole seconds. */
module ChunkTracker {
  import opened Wrappers

  type Snowflake = nat
  type ShardId = nat

  /** Seconds after the last chunk at which a request or a shard is given up. */
  const TIMEOUT := 5

  /** The message CPython raises when a dict shrinks under a running
    * iteration over it. */
  const DICT_CHANGED := "dictionary changed size during iteration"

  // ---------------------------------------------------------------------
  // Shard records
  // ---------------------------------------------------------------------

  /** `_ShardInfo`: what one identify of a shard still waits for. */
  datatype ShardInfo = ShardInfo(
    anyReceived: bool,
    guildIds: set<Snowflake>,
    incomplete: seq<Snowflake>,
    knownNonces: map<Snowflake, string>,
    lastReceivedAt: int,
    shard: ShardId)

  function Elems(s: seq<Snowflake>): set<Snowflake>
  {
    set g | g in s
  }

  /** `_ShardInfo.__init__`: nothing received yet, every guild pending. */
  function NewShardInfo(shard: ShardId, guildIds: seq<Snowflake>, knownNonces: map<Snowflake, string>, now: int)
    : (r: ShardInfo)
    ensures !r.anyReceived && r.incomplete == [] && r.lastReceivedAt == now && r.shard == shard
    ensures forall g :: g in r.guildIds <==> g in guildIds
  {
    ShardInfo(false, Elems(guildIds), [], knownNonces, now, shard)
  }

  /** `mark_incomplete`: a pending guild moves to the end of the incomplete
    * list; an id that is not pending changes nothing. */
  function MarkIncomplete(info: ShardInfo, guildId: Snowflake): (r: ShardInfo)
    ensures r.guildIds == info.guildIds - {guildId}
    ensures Elems(r.incomplete) + r.guildIds == Elems(info.incomplete) + info.guildIds
    ensures |info.incomplete| <= |r.incomplete| <= |info.incomplete| + 1 && r.incomplete[..|info.incomplete|] == info.incomplete
    ensures r.incomplete == info.incomplete <==> guildId !in info.guildIds
    ensures r.anyReceived == info.anyReceived && r.knownNonces == info.knownNonces
    ensures r.lastReceivedAt == info.lastReceivedAt && r.shard == info.shard
  {
    if guildId in info.guildIds then
      assert (info.incomplete + [guildId])[..|info.incomplete|] == info.incomplete;
      info.(guildIds := info.guildIds - {guildId}, incomplete := info.incomplete + [guildId])
    else
      info
  }

  /** Marking twice is marking once. */
  lemma MarkIncompleteIdempotent(info: ShardInfo, guildId: Snowflake)
    ensures MarkIncomplete(MarkIncomplete(info, guildId), guildId) == MarkIncomplete(info, guildId)
  {
  }

  /** `check_nonce`: a guild without a known nonce accepts any nonce. */
  function CheckNonce(info: ShardInfo, guildId: Snowflake, nonce: string): (r: bool)
    ensures guildId !in info.knownNonces ==> r
    ensures guildId in info.knownNonces ==> (r <==> nonce == info.knownNonces[guildId])
  {
    guildId !in info.knownNonces || info.knownNonces[guildId] == nonce
  }

  /** The guilds a shard-finished event reports as never answered. */
  function Missed(info: ShardInfo): (r: set<Snowflake>)
    ensures r <= info.guildIds
    ensures forall g :: g in info.incomplete ==> g !in r
  {
    info.guildIds - Elems(info.incomplete)
  }

  // ---------------------------------------------------------------------
  // Request records
  // ---------------------------------------------------------------------

  /** `_RequestData`, for a request with at least one chunk received. */
  datatype RequestData = RequestData(
    shard: ShardId,
    guildId: Snowflake,
    chunkCount: int,
    firstReceivedAt: int,
    lastReceivedAt: int,
    missingChunks: set<int>,
    notFoundIds: set<Snowflake>)

  /** `set(range(n))`. */
  function Range(n: int): (r: set<int>)
    ensures forall i :: i in r <==> 0 <= i < n
  {
    if n <= 0 then {} else Range(n - 1) + {n - 1}
  }

  /** `range(n)` holds `n` chunk indexes. */
  lemma {:induction false} RangeSize(n: nat)
    ensures |Range(n)| == n
  {
    if n > 0 {
      RangeSize(n - 1);
    }
  }

  /** The first chunk of an unknown nonce: every index of the count but the
    * received one is missing; an index outside the count is a KeyError. */
  function FirstChunk(shard: ShardId, guildId: Snowflake, count: int, index: int, notFound: set<Snowflake>, now: int)
    : (r: Result<RequestData>)
    ensures r.Failure? <==> !(0 <= index < count)
    ensures r.Failure? ==> r.error == KeyError
    ensures r.Success? ==> |r.value.missingChunks| == count - 1 && index !in r.value.missingChunks
    ensures r.Success? ==> forall i :: i in r.value.missingChunks <==> 0 <= i < count && i != index
    ensures r.Success? ==> r.value.shard == shard && r.value.guildId == guildId && r.value.notFoundIds == notFound
    ensures r.Success? ==> r.value.firstReceivedAt == now && r.value.lastReceivedAt == now
  {
    if index !in Range(count) then
      Failure(KeyError)
    else
      RangeSize(count);
      Success(RequestData(shard, guildId, count, now, now, Range(count) - {index}, notFound))
  }

  /** A further chunk of a known nonce: its index leaves the missing set and
    * its not-found ids are added; a chunk not missing is a KeyError. */
  function Receive(d: RequestData, index: int, notFound: set<Snowflake>, now: int): (r: Result<RequestData>)
    ensures r.Failure? <==> index !in d.missingChunks
    ensures r.Failure? ==> r.error == KeyError
    ensures r.Success? ==> |r.value.missingChunks| == |d.missingChunks| - 1 && index !in r.value.missingChunks
    ensures r.Success? ==> r.value.missingChunks == d.missingChunks - {index} && d.notFoundIds + notFound == r.value.notFoundIds
    ensures r.Success? ==> r.value.lastReceivedAt == now && r.value.shard == d.shard && r.value.guildId == d.guildId
  {
    if index !in d.missingChunks then
      Failure(KeyError)
    else
      Success(d.(lastReceivedAt := now, missingChunks := d.missingChunks - {index},
                 notFoundIds := d.notFoundIds + notFound))
  }

  /** The request after a run of chunks, stopping at the first KeyError. */
  function ReceiveAll(d: RequestData, indexes: seq<int>, now: int): (r: Result<RequestData>)
    ensures r.Failure? ==> r.error == KeyError
    ensures r.Success? ==> r.value.missingChunks <= d.missingChunks && r.value.notFoundIds == d.notFoundIds
    ensures r.Success? ==> r.value.shard == d.shard && r.value.guildId == d.guildId
    ensures r.Success? ==> forall i :: 0 <= i < |indexes| ==> indexes[i] in d.missingChunks && indexes[i] !in r.value.missingChunks
    decreases |indexes|
  {
    if indexes == [] then Success(d)
    else
      match Receive(d, indexes[0], {}, now)
      case Failure(e) => Failure(e)
      case Success(d') => ReceiveAll(d', indexes[1..], now)
  }

  /** Distinct missing chunks are all accepted and leave exactly the rest
    * missing; in particular every chunk of the count, in any order, leaves
    * nothing missing. */
  lemma {:induction false} ReceiveAllDistinct(d: RequestData, indexes: seq<int>, now: int)
    requires forall i, j :: 0 <= i < j < |indexes| ==> indexes[i] != indexes[j]
    requires forall i :: 0 <= i < |indexes| ==> indexes[i] in d.missingChunks
    ensures ReceiveAll(d, indexes, now).Success?
    ensures ReceiveAll(d, indexes, now).value.missingChunks == d.missingChunks - (set i | i in indexes)
    decreases |indexes|
  {
    if indexes != [] {
      var d' := Receive(d, indexes[0], {}, now).value;
      forall i | 0 <= i < |indexes[1..]|
        ensures indexes[1..][i] in d'.missingChunks
      {
        assert indexes[1..][i] == indexes[i + 1] != indexes[0];
      }
      ReceiveAllDistinct(d', indexes[1..], now);
      assert ReceiveAll(d, indexes, now) == ReceiveAll(d', indexes[1..], now);
      var rest := set i | i in indexes[1..];
      assert (set i | i in indexes) == {indexes[0]} + rest;
      RemoveInTurn(d.missingChunks, indexes[0], rest, set i | i in indexes);
    }
  }

  lemma RemoveInTurn<T>(missing: set<T>, first: T, rest: set<T>, all: set<T>)
    requires all == {first} + rest
    ensures missing - {first} - rest == missing - all
  {
  }

  /** A chunk index received twice makes the run fail. */
  lemma {:induction false} ReceiveRepeatFails(d: RequestData, indexes: seq<int>, now: int, i: int, j: int)
    requires 0 <= i < j < |indexes| && indexes[i] == indexes[j]
    ensures ReceiveAll(d, indexes, now).Failure?
    decreases |indexes|
  {
    var first := Receive(d, indexes[0], {}, now);
    if first.Success? {
      if i == 0 {
        ReceiveGone(first.value, indexes[1..], now, j - 1);
      } else {
        ReceiveRepeatFails(first.value, indexes[1..], now, i - 1, j - 1);
      }
    }
  }

  /** A chunk index no longer missing makes the run fail when it arrives. */
  lemma {:induction false} ReceiveGone(d: RequestData, indexes: seq<int>, now: int, j: int)
    requires 0 <= j < |indexes| && indexes[j] !in d.missingChunks
    ensures ReceiveAll(d, indexes, now).Failure?
    decreases |indexes|
  {
    var first := Receive(d, indexes[0], {}, now);
    if first.Success? && j > 0 {
      ReceiveGone(first.value, indexes[1..], now, j - 1);
    }
  }

  // ---------------------------------------------------------------------
  // Events and gateway requests
  // ---------------------------------------------------------------------

  /** The events the tracker dispatches. */
  datatype Event =
    | RequestFinished(shard: ShardId, request: RequestData)
    | ShardFinished(shard: ShardId, incomplete: seq<Snowflake>, missed: set<Snowflake>)
    | FinishedChunking

  /** A member request sent over a shard. */
  datatype MemberRequest = MemberRequest(shard: ShardId, guildId: Snowflake, includePresences: bool, nonce: string)

  /** `_dispatch_shard_finished` over several shards in turn: each emits its
    * shard-finished event, and the first one emits the global finished
    * event when no shard is tracked and startup is under way. */
  function ShardFinishedEvents(infos: seq<ShardInfo>, trackedEmpty: bool, starting: bool): (r: seq<Event>)
    ensures |r| == |infos| + (if trackedEmpty && starting && infos != [] then 1 else 0)
    ensures infos != [] ==> r[0] == ShardFinished(infos[0].shard, infos[0].incomplete, Missed(infos[0]))
  {
    if infos == [] then []
    else
      [ShardFinished(infos[0].shard, infos[0].incomplete, Missed(infos[0]))]
      + (if trackedEmpty && starting then [FinishedChunking] else [])
      + ShardFinishedEvents(infos[1..], trackedEmpty, starting && !trackedEmpty)
  }

  /** No global finished event once startup is over. */
  lemma {:induction false} NoFinishedChunkingOutsideStartup(infos: seq<ShardInfo>, trackedEmpty: bool)
    ensures FinishedChunking !in ShardFinishedEvents(infos, trackedEmpty, false)
  {
    if infos != [] {
      NoFinishedChunkingOutsideStartup(infos[1..], trackedEmpty);
    }
  }

  /** The global finished event is emitted iff a shard finishes while none
    * is tracked during startup, and then exactly once, right after the
    * first shard's event. */
  lemma FinishedChunkingOnce(infos: seq<ShardInfo>, trackedEmpty: bool, starting: bool)
    ensures FinishedChunking in ShardFinishedEvents(infos, trackedEmpty, starting)
            <==> trackedEmpty && starting && infos != []
    ensures trackedEmpty && starting && infos != [] ==>
              ShardFinishedEvents(infos, trackedEmpty, starting)[1] == FinishedChunking &&
              FinishedChunking !in ShardFinishedEvents(infos, trackedEmpty, starting)[2..]
  {
    if infos != [] {
      NoFinishedChunkingOutsideStartup(infos[1..], trackedEmpty);
    }
  }

  // ---------------------------------------------------------------------
  // Table updates
  // ---------------------------------------------------------------------

  /** A chunk whose nonce the shard accepts counts as news from that shard. */
  function Touch(tracked: map<ShardId, ShardInfo>, shard: ShardId, guildId: Snowflake, nonce: string, now: int)
    : (r: map<ShardId, ShardInfo>)
    ensures r.Keys == tracked.Keys
  {
    if shard in tracked && CheckNonce(tracked[shard], guildId, nonce) then
      tracked[shard := tracked[shard].(anyReceived := true, lastReceivedAt := now)]
    else
      tracked
  }

  /** Every shard record is filed under its own shard id. */
  ghost predicate Filed(tracked: map<ShardId, ShardInfo>)
  {
    forall s :: s in tracked ==> tracked[s].shard == s
  }

  /** A touch updates only the chunk's shard, and only when that shard
    * accepts the nonce. */
  lemma TouchSpec(tracked: map<ShardId, ShardInfo>, shard: ShardId, guildId: Snowflake, nonce: string, now: int)
    ensures var r := Touch(tracked, shard, guildId, nonce, now);
            (forall s :: s in r && s != shard ==> r[s] == tracked[s]) &&
            (shard in tracked && CheckNonce(tracked[shard], guildId, nonce) ==>
               r[shard] == tracked[shard].(anyReceived := true, lastReceivedAt := now)) &&
            (shard in tracked && !CheckNonce(tracked[shard], guildId, nonce) ==> r[shard] == tracked[shard])
    ensures Filed(tracked) ==> Filed(Touch(tracked, shard, guildId, nonce, now))
  {
  }

  /** Whether a finished request's nonce is one its shard would accept. */
  predicate NonceAccepted(info: ShardInfo, d: RequestData, nonce: Option<string>)
  {
    !(nonce.Some? && nonce.value != "" && !CheckNonce(info, d.guildId, nonce.value))
  }

  /** The tracking part of `_dispatch_finished`: the request's guild stops
    * being pending for its shard when the nonce checks out; a shard left
    * with no pending guild is dropped and returned to be reported. */
  function FinishTracking(tracked: map<ShardId, ShardInfo>, d: RequestData, nonce: Option<string>)
    : (r: (map<ShardId, ShardInfo>, Option<ShardInfo>))
    ensures r.0.Keys <= tracked.Keys
    ensures r.1.Some? <==> d.shard in tracked && d.shard !in r.0
    ensures d.shard !in tracked || d.guildId !in tracked[d.shard].guildIds ==> r == (tracked, None)
  {
    if d.shard !in tracked then (tracked, None)
    else
      var info := tracked[d.shard];
      if !NonceAccepted(info, d, nonce) || d.guildId !in info.guildIds then (tracked, None)
      else
        var info' := info.(guildIds := info.guildIds - {d.guildId});
        if info'.guildIds == {} then (tracked - {d.shard}, Some(info'))
        else (tracked[d.shard := info'], None)
  }
  /** Finishing a request touches only its shard, whose record loses at
    * most the request's guild; an accepted nonce leaves the guild no longer
    * pending, and a shard left with nothing pending is the one reported. */
  lemma FinishTrackingSpec(tracked: map<ShardId, ShardInfo>, d: RequestData, nonce: Option<string>)
    ensures var r := FinishTracking(tracked, d, nonce);
            (forall s :: s in r.0 && s != d.shard ==> r.0[s] == tracked[s]) &&
            (r.1.Some? ==> r.1.value.guildIds == {} && r.1.value == tracked[d.shard].(guildIds := {})) &&
            (d.shard in r.0 ==> r.0[d.shard] == tracked[d.shard].(guildIds := r.0[d.shard].guildIds)) &&
            (d.shard in r.0 ==>
               tracked[d.shard].guildIds - {d.guildId} <= r.0[d.shard].guildIds <= tracked[d.shard].guildIds) &&
            (d.shard in tracked && NonceAccepted(tracked[d.shard], d, nonce) ==>
               d.shard !in r.0 || d.guildId !in r.0[d.shard].guildIds) &&
            (d.shard in tracked && !NonceAccepted(tracked[d.shard], d, nonce) ==> r == (tracked, None))
    ensures Filed(tracked) ==> Filed(FinishTracking(tracked, d, nonce).0)
  {
  }


  /** Whether a request has waited at least the timeout for its next chunk. */
  predicate TimedOut(d: RequestData, now: int)
  {
    now - d.lastReceivedAt >= TIMEOUT
  }

  /** Whether the sweep keeps tracking a shard. */
  predicate ShardLive(info: ShardInfo, now: int)
  {
    now - info.lastReceivedAt < TIMEOUT && info.guildIds != {}
  }

  /** Whether `order` lists the keys of a table, each once. */
  ghost predicate Enumerates<K>(order: seq<K>, keys: set<K>)
  {
    (forall i, j :: 0 <= i < j < |order| ==> order[i] != order[j]) &&
    keys == (set i | 0 <= i < |order| :: order[i])
  }

  /** The timed-out requests, in the order the sweep meets them. */
  function Expired(requests: map<string, RequestData>, order: seq<string>, now: int): (r: seq<RequestData>)
    ensures forall k :: 0 <= k < |r| ==> TimedOut(r[k], now)
    ensures |r| <= |order|
  {
    if order == [] then []
    else
      var n := order[|order| - 1];
      Expired(requests, order[..|order| - 1], now)
      + (if n in requests && TimedOut(requests[n], now) then [requests[n]] else [])
  }

  /** The position in `order` of the first request that has waited the
    * timeout, or `|order|` when none has. */
  function FirstTimedOut(requests: map<string, RequestData>, order: seq<string>, now: int): (r: nat)
    ensures r <= |order|
    ensures forall k :: 0 <= k < r && order[k] in requests ==> !TimedOut(requests[order[k]], now)
    ensures r < |order| ==> order[r] in requests && TimedOut(requests[order[r]], now)
  {
    if order == [] then 0
    else if order[0] in requests && TimedOut(requests[order[0]], now) then 0
    else 1 + FirstTimedOut(requests, order[1..], now)
  }

  /** The sweep's marks: each timed-out request's guild is marked incomplete
    * on its shard, in order. */
  function MarkAll(tracked: map<ShardId, ShardInfo>, ds: seq<RequestData>): (r: map<ShardId, ShardInfo>)
    ensures r.Keys == tracked.Keys
  {
    if ds == [] then tracked
    else
      var t := MarkAll(tracked, ds[..|ds| - 1]);
      var d := ds[|ds| - 1];
      if d.shard in t then t[d.shard := MarkIncomplete(t[d.shard], d.guildId)] else t
  }

  /** After the marks no timed-out request's guild is pending on its shard,
    * and no shard gained a pending guild. */
  lemma {:induction false} MarkAllRemoves(tracked: map<ShardId, ShardInfo>, ds: seq<RequestData>)
    ensures forall k :: 0 <= k < |ds| && ds[k].shard in MarkAll(tracked, ds) ==>
              ds[k].guildId !in MarkAll(tracked, ds)[ds[k].shard].guildIds
    ensures forall s :: s in tracked ==> MarkAll(tracked, ds)[s].guildIds <= tracked[s].guildIds
  {
    if ds != [] {
      var front := ds[..|ds| - 1];
      MarkAllRemoves(tracked, front);
      var t := MarkAll(tracked, front);
      forall k | 0 <= k < |ds| && ds[k].shard in MarkAll(tracked, ds)
        ensures ds[k].guildId !in MarkAll(tracked, ds)[ds[k].shard].guildIds
      {
        if k < |ds| - 1 {
          assert ds[k] == front[k];
        }
      }
    }
  }

  /** The shards the sweep drops that had received something, in order. */
  function Collected(tracked: map<ShardId, ShardInfo>, order: seq<ShardId>, now: int): (r: seq<ShardInfo>)
    ensures forall k :: 0 <= k < |r| ==> r[k].anyReceived && !ShardLive(r[k], now)
  {
    if order == [] then []
    else
      var s := order[|order| - 1];
      Collected(tracked, order[..|order| - 1], now)
      + (if s in tracked && !ShardLive(tracked[s], now) && tracked[s].anyReceived then [tracked[s]] else [])
  }

  /** The requests kept by a sweep that has gone through `seen`. */
  function Prune(requests: map<string, RequestData>, seen: set<string>, now: int): (r: map<string, RequestData>)
    ensures r.Keys <= requests.Keys && forall n :: n in r ==> r[n] == requests[n]
    ensures forall n :: n in requests ==> (n in r <==> n !in seen || !TimedOut(requests[n], now))
  {
    map n | n in requests && (n !in seen || !TimedOut(requests[n], now)) :: requests[n]
  }

  /** The shards kept by a sweep that has gone through `seen`. */
  function PruneShards(tracked: map<ShardId, ShardInfo>, seen: set<ShardId>, now: int): map<ShardId, ShardInfo>
  {
    map s | s in tracked && (s !in seen || ShardLive(tracked[s], now)) :: tracked[s]
  }

  /** The events `_dispatch_finished` emits for a request. */
  function FinishedEvents(tracked: map<ShardId, ShardInfo>, d: RequestData, nonce: Option<string>, starting: bool)
    : (r: seq<Event>)
    ensures |r| >= 1 && r[0] == RequestFinished(d.shard, d)
  {
    var (t, done) := FinishTracking(tracked, d, nonce);
    [RequestFinished(d.shard, d)] + (if done.Some? then ShardFinishedEvents([done.value], t == map[], starting) else [])
  }

  /** The request a chunk leaves behind: the known request updated, or a new
    * one for an unknown nonce; a KeyError when the chunk is not missing. */
  function ChunkStep(requests: map<string, RequestData>, shard: ShardId, nonce: string, count: int, index: int,
                     guildId: Snowflake, notFound: set<Snowflake>, now: int): (r: Result<RequestData>)
    ensures nonce in requests ==> (r.Failure? <==> index !in requests[nonce].missingChunks)
    ensures nonce !in requests ==> (r.Failure? <==> !(0 <= index < count))
    ensures r.Failure? ==> r.error == KeyError
    ensures r.Success? ==> index !in r.value.missingChunks
  {
    if nonce in requests then Receive(requests[nonce], index, notFound, now)
    else FirstChunk(shard, guildId, count, index, notFound, now)
  }

  /** One more request seen by the sweep: it is dropped iff timed out. */
  lemma PruneStep(requests: map<string, RequestData>, seen: set<string>, n: string, now: int)
    requires n in requests && n !in seen
    ensures Prune(requests, seen + {n}, now) ==
            if TimedOut(requests[n], now) then Prune(requests, seen, now) - {n} else Prune(requests, seen, now)
  {
  }

  /** Pruning keeps stored requests stored. */
  lemma PruneStored(requests: map<string, RequestData>, seen: set<string>, now: int)
    requires Stored(requests)
    ensures Stored(Prune(requests, seen, now)) && Prune(requests, seen, now).Keys <= requests.Keys
  {
  }

  /** One more shard seen by the sweep: it is dropped iff not live. */
  lemma PruneShardsStep(tracked: map<ShardId, ShardInfo>, seen: set<ShardId>, s: ShardId, now: int)
    requires s in tracked && s !in seen
    ensures PruneShards(tracked, seen + {s}, now) ==
            if !ShardLive(tracked[s], now) then PruneShards(tracked, seen, now) - {s} else PruneShards(tracked, seen, now)
  {
  }

  /** Pruning keeps records filed. */
  lemma PruneShardsFiled(tracked: map<ShardId, ShardInfo>, seen: set<ShardId>, now: int)
    requires Filed(tracked)
    ensures Filed(PruneShards(tracked, seen, now))
  {
  }

  /** Marking keeps records filed. */
  lemma {:induction false} MarkAllFiled(tracked: map<ShardId, ShardInfo>, ds: seq<RequestData>)
    requires Filed(tracked)
    ensures Filed(MarkAll(tracked, ds))
  {
    if ds != [] {
      MarkAllFiled(tracked, ds[..|ds| - 1]);
    }
  }

  /** The sweep meeting one more request. */
  lemma ExpiredStep(requests: map<string, RequestData>, order: seq<string>, i: nat, now: int)
    requires i < |order| && order[i] in requests
    ensures Expired(requests, order[..i + 1], now) ==
            Expired(requests, order[..i], now) + (if TimedOut(requests[order[i]], now) then [requests[order[i]]] else [])
  {
    assert order[..i + 1][..i] == order[..i];
  }

  /** Marking one more timed-out request. */
  lemma MarkAllStep(tracked: map<ShardId, ShardInfo>, ds: seq<RequestData>, d: RequestData)
    ensures MarkAll(tracked, ds + [d]) ==
            var t := MarkAll(tracked, ds);
            if d.shard in t then t[d.shard := MarkIncomplete(t[d.shard], d.guildId)] else t
  {
    assert (ds + [d])[..|ds|] == ds;
  }

  /** A sweep that meets no timed-out request changes no request. */
  lemma QuietSweep(requests: map<string, RequestData>, order: seq<string>, now: int)
    requires Enumerates(order, requests.Keys)
    requires forall k :: 0 <= k < |order| && order[k] in requests ==> !TimedOut(requests[order[k]], now)
    ensures Expired(requests, order, now) == []
    ensures forall n :: n in requests ==> !TimedOut(requests[n], now)
    ensures Prune(requests, requests.Keys, now) == requests
  {
    ExpiredNone(requests, order, now);
    forall n | n in requests
      ensures !TimedOut(requests[n], now)
    {
      var k :| 0 <= k < |order| && order[k] == n;
    }
  }

  /** One request-finished event per request, in order. */
  function RequestEvents(ds: seq<RequestData>): (r: seq<Event>)
    ensures |r| == |ds|
    ensures forall k :: 0 <= k < |ds| ==> r[k] == RequestFinished(ds[k].shard, ds[k])
  {
    if ds == [] then [] else [RequestFinished(ds[0].shard, ds[0])] + RequestEvents(ds[1..])
  }

  /** Events appended in two turns are the events appended in one. */
  lemma AppendInTurn<T>(out: seq<T>, start: seq<T>, first: seq<T>, rest: seq<T>, all: seq<T>)
    requires out == start + first + rest && all == first + rest
    ensures out == start + all
  {
  }

  /** A sweep that meets no timed-out request expires nothing. */
  lemma {:induction false} ExpiredNone(requests: map<string, RequestData>, order: seq<string>, now: int)
    requires forall k :: 0 <= k < |order| && order[k] in requests ==> !TimedOut(requests[order[k]], now)
    ensures Expired(requests, order, now) == []
  {
    if order != [] {
      ExpiredNone(requests, order[..|order| - 1], now);
    }
  }

  // ---------------------------------------------------------------------
  // The tracker
  // ---------------------------------------------------------------------

  /** Taking one key out of a table of two or more leaves it non-empty. */
  lemma RemoveOneLeavesSome(m: map<string, RequestData>, n: string)
    requires n in m && |m| >= 2
    ensures m - {n} != map[]
  {
    assert m.Keys == (m - {n}).Keys + {n};
    assert |m.Keys| <= |(m - {n}).Keys| + 1;
  }

  /** Only requests still missing chunks are stored, never under an empty
    * nonce. */
  ghost predicate Stored(requests: map<string, RequestData>)
  {
    forall n :: n in requests ==> n != "" && requests[n].missingChunks != {}
  }

  /** The shard events a payload handler looks at. */
  datatype Payload =
    | Ready(guilds: seq<Snowflake>)
    | GuildCreate(guildId: Snowflake, large: bool)
    | MembersChunk(nonce: string, chunkCount: int, chunkIndex: int, guildId: Snowflake, notFound: set<Snowflake>)
    | OtherPayload

  /** `ChunkTracker`. The sweep task is the flag `loopRunning`; dispatched
    * events and member requests sent over the gateway are logs. */
  /** The request loop's variables after the first `i` requests of the
    * order, `seen` being those requests. */
  ghost predicate ExpiredUpTo(requests: map<string, RequestData>, tracked: map<ShardId, ShardInfo>, order: seq<string>,
                              now: int, i: nat, seen: set<string>, timedOut: seq<RequestData>,
                              remaining: map<string, RequestData>, marked: map<ShardId, ShardInfo>)
    requires i <= |order|
  {
    seen == (set k | 0 <= k < i :: order[k])
    && timedOut == Expired(requests, order[..i], now)
    && marked == MarkAll(tracked, timedOut)
    && remaining == Prune(requests, seen, now)
  }

  /** One more request: a timed-out one is dropped, its guild marked
    * incomplete on its shard and itself reported. */
  lemma ExpiredUpToStep(requests: map<string, RequestData>, tracked: map<ShardId, ShardInfo>, order: seq<string>,
                        now: int, i: nat, seen: set<string>, timedOut: seq<RequestData>,
                        remaining: map<string, RequestData>, marked: map<ShardId, ShardInfo>,
                        timedOut': seq<RequestData>, remaining': map<string, RequestData>, marked': map<ShardId, ShardInfo>)
    requires Enumerates(order, requests.Keys) && i < |order|
    requires ExpiredUpTo(requests, tracked, order, now, i, seen, timedOut, remaining, marked)
    requires var d := requests[order[i]];
      if TimedOut(d, now) then
        timedOut' == timedOut + [d] && remaining' == remaining - {order[i]}
        && marked' == (if d.shard in marked then marked[d.shard := MarkIncomplete(marked[d.shard], d.guildId)] else marked)
      else timedOut' == timedOut && remaining' == remaining && marked' == marked
    ensures ExpiredUpTo(requests, tracked, order, now, i + 1, seen + {order[i]}, timedOut', remaining', marked')
  {
    var n := order[i];
    assert n in requests;
    assert n !in seen;
    ExpiredStep(requests, order, i, now);
    PruneStep(requests, seen, n, now);
    if TimedOut(requests[n], now) {
      MarkAllStep(tracked, timedOut, requests[n]);
    }
  }

  /** The request loop of a sweep, on copies of the tables: the timed-out
    * requests in order, the requests kept and the shards with those
    * requests' guilds marked incomplete. */
  method ExpireRequests(requests: map<string, RequestData>, tracked: map<ShardId, ShardInfo>, order: seq<string>, now: int)
    returns (timedOut: seq<RequestData>, remaining: map<string, RequestData>, marked: map<ShardId, ShardInfo>)
    requires Enumerates(order, requests.Keys)
    ensures timedOut == Expired(requests, order, now)
    ensures remaining == Prune(requests, requests.Keys, now)
    ensures marked == MarkAll(tracked, timedOut)
  {
    remaining := requests;
    marked := tracked;
    timedOut := [];
    ghost var seen: set<string> := {};
    var i := 0;
    assert order[..0] == [];
    while i < |order|
      invariant 0 <= i <= |order|
      invariant ExpiredUpTo(requests, tracked, order, now, i, seen, timedOut, remaining, marked)
    {
      ghost var (t0, r0, m0) := (timedOut, remaining, marked);
      var n := order[i];
      var d := requests[n];
      if TimedOut(d, now) {
        if d.shard in marked {
          marked := marked[d.shard := MarkIncomplete(marked[d.shard], d.guildId)];
        }
        remaining := remaining - {n};
        timedOut := timedOut + [d];
      }
      ExpiredUpToStep(requests, tracked, order, now, i, seen, t0, r0, m0, timedOut, remaining, marked);
      seen := seen + {n};
      i := i + 1;
    }
    assert order[..|order|] == order;
  }

  /** The shard loop's variables after the first `j` shards of the order,
    * `seen` being those shards. */
  ghost predicate CollectedUpTo(tracked: map<ShardId, ShardInfo>, order: seq<ShardId>, now: int, j: nat,
                                seen: set<ShardId>, collected: seq<ShardInfo>, remaining: map<ShardId, ShardInfo>)
    requires j <= |order|
  {
    seen == (set k | 0 <= k < j :: order[k])
    && collected == Collected(tracked, order[..j], now)
    && remaining == PruneShards(tracked, seen, now)
  }

  /** One more shard: one gone quiet is dropped, and reported when it had
    * received something. */
  lemma CollectedUpToStep(tracked: map<ShardId, ShardInfo>, order: seq<ShardId>, now: int, j: nat,
                          seen: set<ShardId>, collected: seq<ShardInfo>, remaining: map<ShardId, ShardInfo>,
                          collected': seq<ShardInfo>, remaining': map<ShardId, ShardInfo>)
    requires Filed(tracked) && Enumerates(order, tracked.Keys) && j < |order|
    requires CollectedUpTo(tracked, order, now, j, seen, collected, remaining)
    requires var info := tracked[order[j]];
      if !ShardLive(info, now) then
        remaining' == remaining - {info.shard}
        && collected' == (if info.anyReceived then collected + [info] else collected)
      else collected' == collected && remaining' == remaining
    ensures CollectedUpTo(tracked, order, now, j + 1, seen + {order[j]}, collected', remaining')
  {
    var s := order[j];
    assert s in tracked;
    assert s !in seen;
    assert order[..j + 1][..j] == order[..j];
    PruneShardsStep(tracked, seen, s, now);
  }

  /** The shard loop of a sweep, on a copy of the table: the shards that
    * have gone quiet after receiving something, in order, and the shards
    * kept. */
  method CollectQuiet(tracked: map<ShardId, ShardInfo>, order: seq<ShardId>, now: int)
    returns (collected: seq<ShardInfo>, remaining: map<ShardId, ShardInfo>)
    requires Filed(tracked) && Enumerates(order, tracked.Keys)
    ensures collected == Collected(tracked, order, now)
    ensures remaining == PruneShards(tracked, tracked.Keys, now)
  {
    collected := [];
    remaining := tracked;
    ghost var seen: set<ShardId> := {};
    var j := 0;
    assert order[..0] == [];
    while j < |order|
      invariant 0 <= j <= |order|
      invariant CollectedUpTo(tracked, order, now, j, seen, collected, remaining)
    {
      ghost var (c0, r0) := (collected, remaining);
      var info := tracked[order[j]];
      if !ShardLive(info, now) {
        remaining := remaining - {info.shard};
        if info.anyReceived {
          collected := collected + [info];
        }
      }
      CollectedUpToStep(tracked, order, now, j, seen, c0, r0, collected, remaining);
      seen := seen + {order[j]};
      j := j + 1;
    }
    assert order[..|order|] == order;
  }

  class Tracker {
    var autoChunkMembers: bool
    var chunkPresences: bool
    var isStarting: bool
    var requests: map<string, RequestData>
    var tracked: map<ShardId, ShardInfo>
    var loopRunning: bool
    var dispatched: seq<Event>
    var memberRequests: seq<MemberRequest>

    /** Shards are filed under their own id, only requests still missing
      * chunks are stored, and a stored request always has a sweep running
      * to time it out. */
    ghost predicate Valid()
      reads this
    {
      Filed(tracked) && Stored(requests) &&
      (requests != map[] ==> loopRunning)
    }

    constructor ()
      ensures Valid()
      ensures !autoChunkMembers && !chunkPresences && !isStarting && !loopRunning
      ensures requests == map[] && tracked == map[] && dispatched == [] && memberRequests == []
    {
      autoChunkMembers := false;
      chunkPresences := false;
      isStarting := false;
      requests := map[];
      tracked := map[];
      loopRunning := false;
      dispatched := [];
      memberRequests := [];
    }

    /** `set_auto_chunk_members`: turning it on sets both flags; turning it
      * off only stops asking for presences. */
    method SetAutoChunkMembers(state: bool, presences: bool)
      requires Valid()
      modifies this
      ensures Valid()
      ensures state ==> autoChunkMembers && chunkPresences == presences
      ensures !state ==> autoChunkMembers == old(autoChunkMembers) && !chunkPresences
      ensures isStarting == old(isStarting) && requests == old(requests) && tracked == old(tracked)
      ensures loopRunning == old(loopRunning) && dispatched == old(dispatched)
      ensures memberRequests == old(memberRequests)
    {
      if state {
        autoChunkMembers := state;
        chunkPresences := presences;
      } else {
        chunkPresences := false;
      }
    }

    /** `_dispatch_shard_finished`. */
    method DispatchShardFinished(info: ShardInfo)
      requires Valid()
      modifies this
      ensures Valid()
      ensures dispatched == old(dispatched) + ShardFinishedEvents([info], tracked == map[], old(isStarting))
      ensures isStarting == (old(isStarting) && tracked != map[])
      ensures autoChunkMembers == old(autoChunkMembers) && chunkPresences == old(chunkPresences)
      ensures requests == old(requests) && tracked == old(tracked) && loopRunning == old(loopRunning)
      ensures memberRequests == old(memberRequests)
    {
      dispatched := dispatched + [ShardFinished(info.shard, info.incomplete, Missed(info))];
      if tracked == map[] && isStarting {
        isStarting := false;
        dispatched := dispatched + [FinishedChunking];
      }
    }

    /** `_dispatch_finished`: the request-finished event, then the tracking
      * of its shard, which may finish the shard. */
    method DispatchFinished(d: RequestData, nonce: Option<string>)
      requires Valid()
      modifies this
      ensures Valid()
      ensures tracked == FinishTracking(old(tracked), d, nonce).0
      ensures dispatched == old(dispatched) + FinishedEvents(old(tracked), d, nonce, old(isStarting))
      ensures isStarting == (old(isStarting) && (FinishTracking(old(tracked), d, nonce).1.None? || tracked != map[]))
      ensures autoChunkMembers == old(autoChunkMembers) && chunkPresences == old(chunkPresences)
      ensures requests == old(requests) && loopRunning == old(loopRunning)
      ensures memberRequests == old(memberRequests)
    {
      dispatched := dispatched + [RequestFinished(d.shard, d)];
      FinishTrackingSpec(tracked, d, nonce);
      var (t, done) := FinishTracking(tracked, d, nonce);
      tracked := t;
      if done.Some? {
        DispatchShardFinished(done.value);
      }
    }

    /** The chunk branch of `_on_payload_event`. An empty nonce is ignored.
      * A shard accepting the nonce counts the chunk as news; the request
      * then loses the chunk's index from its missing set (a KeyError when
      * the index is not missing), is stored while chunks are missing and is
      * finished once none is. */
    method OnMembersChunk(shard: ShardId, nonce: string, count: int, index: int, guildId: Snowflake,
                          notFound: set<Snowflake>, now: int) returns (r: Result<Unit>)
      requires Valid()
      modifies this
      ensures Valid()
      ensures nonce == "" ==> r.Success? && requests == old(requests) && tracked == old(tracked) &&
                              dispatched == old(dispatched) && isStarting == old(isStarting)
      ensures nonce != "" ==>
                (r.Failure? <==> ChunkStep(old(requests), shard, nonce, count, index, guildId, notFound, now).Failure?)
      ensures r.Failure? ==> r.error == KeyError
      ensures r.Failure? ==> tracked == Touch(old(tracked), shard, guildId, nonce, now) && dispatched == old(dispatched)
      ensures r.Failure? ==> requests == (if nonce in old(requests)
                                          then old(requests)[nonce := old(requests)[nonce].(lastReceivedAt := now)]
                                          else old(requests))
      ensures nonce != "" && r.Success? ==>
                var d := ChunkStep(old(requests), shard, nonce, count, index, guildId, notFound, now).value;
                d.missingChunks != {} ==>
                  requests == old(requests)[nonce := d] && dispatched == old(dispatched) &&
                  tracked == Touch(old(tracked), shard, guildId, nonce, now)
      ensures nonce != "" && r.Success? ==>
                var d := ChunkStep(old(requests), shard, nonce, count, index, guildId, notFound, now).value;
                var t := Touch(old(tracked), shard, guildId, nonce, now);
                d.missingChunks == {} ==>
                  requests == old(requests) - {nonce} && tracked == FinishTracking(t, d, Some(nonce)).0 &&
                  dispatched == old(dispatched) + FinishedEvents(t, d, Some(nonce), old(isStarting))
      ensures autoChunkMembers == old(autoChunkMembers) && chunkPresences == old(chunkPresences)
      ensures memberRequests == old(memberRequests)
    {
      if nonce == "" {
        return Success(Unit);
      }
      TouchSpec(tracked, shard, guildId, nonce, now);
      tracked := Touch(tracked, shard, guildId, nonce, now);
      var step := ChunkStep(requests, shard, nonce, count, index, guildId, notFound, now);
      if step.Failure? {
        if nonce in requests {
          requests := requests[nonce := requests[nonce].(lastReceivedAt := now)];
        }
        return Failure(KeyError);
      }
      Settle(nonce, step.value);
      r := Success(Unit);
    }

    /** The end of the chunk branch: a request still missing chunks is
      * stored and the sweep ensured; a complete one is dropped and finished. */
    method Settle(nonce: string, d: RequestData)
      requires Valid() && nonce != ""
      modifies this
      ensures Valid()
      ensures d.missingChunks != {} ==>
                requests == old(requests)[nonce := d] && tracked == old(tracked) && dispatched == old(dispatched)
      ensures d.missingChunks == {} ==>
                requests == old(requests) - {nonce} && tracked == FinishTracking(old(tracked), d, Some(nonce)).0 &&
                dispatched == old(dispatched) + FinishedEvents(old(tracked), d, Some(nonce), old(isStarting))
      ensures autoChunkMembers == old(autoChunkMembers) && chunkPresences == old(chunkPresences)
      ensures memberRequests == old(memberRequests)
    {
      if d.missingChunks != {} {
        requests := requests[nonce := d];
        loopRunning := true;
      } else {
        requests := requests - {nonce};
        DispatchFinished(d, Some(nonce));
      }
    }

    /** `_on_shard_ready_event`: the shard is tracked afresh with every guild
      * of the identify pending; with auto-chunking on, each guild gets the
      * nonce its chunk request will carry. */
    method OnShardReady(shard: ShardId, guildIds: seq<Snowflake>, now: int, nonceFor: Snowflake -> string)
      requires Valid()
      modifies this
      ensures Valid()
      ensures tracked.Keys == old(tracked).Keys + {shard}
      ensures forall s :: s in tracked && s != shard ==> tracked[s] == old(tracked)[s]
      ensures tracked[shard] == NewShardInfo(shard, guildIds,
                if autoChunkMembers then map g | g in guildIds :: nonceFor(g) else map[], now)
      ensures autoChunkMembers == old(autoChunkMembers) && chunkPresences == old(chunkPresences)
      ensures isStarting == old(isStarting) && requests == old(requests) && loopRunning == old(loopRunning)
      ensures dispatched == old(dispatched) && memberRequests == old(memberRequests)
    {
      var nonces: map<Snowflake, string> := if autoChunkMembers then map g | g in guildIds :: nonceFor(g) else map[];
      tracked := tracked[shard := NewShardInfo(shard, guildIds, nonces, now)];
    }

    /** `_on_guild_event`. A guild that is not large stops being pending for
      * its shard without a member request (and, with auto-chunking, counts
      * as news); a large guild with auto-chunking gets a member request
      * carrying the shard's known non-empty nonce for it, or `newNonce`,
      * which the shard then knows. */
    method OnGuildCreate(shard: ShardId, membersIntent: bool, presencesIntent: bool, guildId: Snowflake,
                         large: bool, newNonce: string)
      requires Valid()
      modifies this
      ensures Valid()
      ensures tracked.Keys == old(tracked).Keys && requests == old(requests)
      ensures forall s :: s in tracked && s != shard ==> tracked[s] == old(tracked)[s]
      ensures !large && shard in old(tracked) ==>
                tracked[shard] == old(tracked)[shard].(
                  guildIds := old(tracked)[shard].guildIds - {guildId},
                  anyReceived := old(tracked)[shard].anyReceived ||
                    (guildId in old(tracked)[shard].guildIds && autoChunkMembers && membersIntent))
      ensures !large ==> memberRequests == old(memberRequests) && isStarting == old(isStarting)
      ensures !large && !(shard in old(tracked) && guildId in old(tracked)[shard].guildIds) ==>
                tracked == old(tracked) && dispatched == old(dispatched)
      ensures !large && shard in old(tracked) && guildId in old(tracked)[shard].guildIds ==>
                dispatched == old(dispatched) +
                  (if tracked[shard].guildIds == {} && tracked[shard].anyReceived
                   then ShardFinishedEvents([tracked[shard]], false, old(isStarting)) else [])
      ensures large && !(autoChunkMembers && membersIntent) ==>
                tracked == old(tracked) && memberRequests == old(memberRequests)
      ensures large && autoChunkMembers && membersIntent ==>
                |memberRequests| == |old(memberRequests)| + 1 &&
                memberRequests[..|old(memberRequests)|] == old(memberRequests) &&
                var q := memberRequests[|old(memberRequests)|];
                q.shard == shard && q.guildId == guildId && q.includePresences == (chunkPresences && presencesIntent) &&
                (shard in tracked ==> CheckNonce(tracked[shard], guildId, q.nonce))
      ensures large && autoChunkMembers && membersIntent && shard !in old(tracked) ==>
                tracked == old(tracked) && memberRequests[|old(memberRequests)|].nonce == newNonce
      ensures large && autoChunkMembers && membersIntent && shard in old(tracked) ==>
                var k := old(tracked)[shard].knownNonces;
                var nonce := if guildId in k && k[guildId] != "" then k[guildId] else newNonce;
                memberRequests[|old(memberRequests)|].nonce == nonce &&
                tracked[shard] == old(tracked)[shard].(knownNonces := k[guildId := nonce])
      ensures large ==> dispatched == old(dispatched) && isStarting == old(isStarting)
      ensures autoChunkMembers == old(autoChunkMembers) && chunkPresences == old(chunkPresences)
      ensures loopRunning == old(loopRunning)
    {
      var autoChunk := autoChunkMembers && membersIntent;
      if !large {
        ForgetGuild(shard, guildId, autoChunk);
      } else if autoChunk {
        RequestMembers(shard, guildId, chunkPresences && presencesIntent, newNonce);
      }
    }

    /** The path of `_on_guild_event` for a guild that is not large. */
    method ForgetGuild(shard: ShardId, guildId: Snowflake, autoChunk: bool)
      requires Valid()
      modifies this
      ensures Valid()
      ensures tracked.Keys == old(tracked).Keys && requests == old(requests)
      ensures forall s :: s in tracked && s != shard ==> tracked[s] == old(tracked)[s]
      ensures shard in old(tracked) ==>
                tracked[shard] == old(tracked)[shard].(
                  guildIds := old(tracked)[shard].guildIds - {guildId},
                  anyReceived := old(tracked)[shard].anyReceived || (guildId in old(tracked)[shard].guildIds && autoChunk))
      ensures memberRequests == old(memberRequests) && isStarting == old(isStarting)
      ensures !(shard in old(tracked) && guildId in old(tracked)[shard].guildIds) ==>
                tracked == old(tracked) && dispatched == old(dispatched)
      ensures shard in old(tracked) && guildId in old(tracked)[shard].guildIds ==>
                dispatched == old(dispatched) +
                  (if tracked[shard].guildIds == {} && tracked[shard].anyReceived
                   then ShardFinishedEvents([tracked[shard]], false, old(isStarting)) else [])
      ensures autoChunkMembers == old(autoChunkMembers) && chunkPresences == old(chunkPresences)
      ensures loopRunning == old(loopRunning)
    {
      if shard in tracked && guildId in tracked[shard].guildIds {
        var info := tracked[shard];
        info := info.(guildIds := info.guildIds - {guildId});
        if autoChunk {
          info := info.(anyReceived := true);
        }
        tracked := tracked[shard := info];
        if info.guildIds == {} && info.anyReceived {
          DispatchShardFinished(info);
        }
      }
    }

    /** The path of `_on_guild_event` for a large guild with auto-chunking:
      * `known_nonces.get(guild_id) or _random_nonce()`, so an empty known
      * nonce is replaced as well. */
    method RequestMembers(shard: ShardId, guildId: Snowflake, includePresences: bool, newNonce: string)
      requires Valid()
      modifies this
      ensures Valid()
      ensures tracked.Keys == old(tracked).Keys && requests == old(requests)
      ensures forall s :: s in tracked && s != shard ==> tracked[s] == old(tracked)[s]
      ensures |memberRequests| == |old(memberRequests)| + 1 &&
              memberRequests[..|old(memberRequests)|] == old(memberRequests)
      ensures var q := memberRequests[|old(memberRequests)|];
              q.shard == shard && q.guildId == guildId && q.includePresences == includePresences &&
              (shard in tracked ==> CheckNonce(tracked[shard], guildId, q.nonce))
      ensures shard !in old(tracked) ==>
                tracked == old(tracked) && memberRequests[|old(memberRequests)|].nonce == newNonce
      ensures shard in old(tracked) ==>
                var k := old(tracked)[shard].knownNonces;
                var nonce := if guildId in k && k[guildId] != "" then k[guildId] else newNonce;
                memberRequests[|old(memberRequests)|].nonce == nonce &&
                tracked[shard] == old(tracked)[shard].(knownNonces := k[guildId := nonce])
      ensures dispatched == old(dispatched) && isStarting == old(isStarting)
      ensures autoChunkMembers == old(autoChunkMembers) && chunkPresences == old(chunkPresences)
      ensures loopRunning == old(loopRunning)
    {
      var nonce: string;
      if shard in tracked {
        var info := tracked[shard];
        nonce := if guildId in info.knownNonces && info.knownNonces[guildId] != "" then info.knownNonces[guildId]
                 else newNonce;
        tracked := tracked[shard := info.(knownNonces := info.knownNonces[guildId := nonce])];
      } else {
        nonce := newNonce;
      }
      memberRequests := memberRequests + [MemberRequest(shard, guildId, includePresences, nonce)];
    }

    /** `_on_starting_event`. */
    method OnStarting()
      requires Valid()
      modifies this
      ensures Valid() && isStarting
      ensures autoChunkMembers == old(autoChunkMembers) && chunkPresences == old(chunkPresences)
      ensures requests == old(requests) && tracked == old(tracked) && loopRunning == old(loopRunning)
      ensures dispatched == old(dispatched) && memberRequests == old(memberRequests)
    {
      isStarting := true;
    }

    /** `_on_stopping_event`: all tracking is dropped and the sweep stopped. */
    method OnStopping()
      requires Valid()
      modifies this
      ensures Valid() && !isStarting && requests == map[] && tracked == map[] && !loopRunning
      ensures autoChunkMembers == old(autoChunkMembers) && chunkPresences == old(chunkPresences)
      ensures dispatched == old(dispatched) && memberRequests == old(memberRequests)
    {
      isStarting := false;
      requests := map[];
      tracked := map[];
      loopRunning := false;
    }

    /** One request met by the sweep: dropped, and its guild marked
      * incomplete on its shard, when it has waited the timeout. */
    method ExpireRequest(n: string, now: int) returns (expired: Option<RequestData>)
      requires n in requests
      modifies this
      ensures expired == if TimedOut(old(requests)[n], now) then Some(old(requests)[n]) else None
      ensures requests == if expired.Some? then old(requests) - {n} else old(requests)
      ensures tracked == if expired.Some? && expired.value.shard in old(tracked)
                         then old(tracked)[expired.value.shard :=
                                MarkIncomplete(old(tracked)[expired.value.shard], expired.value.guildId)]
                         else old(tracked)
      ensures autoChunkMembers == old(autoChunkMembers) && chunkPresences == old(chunkPresences)
      ensures isStarting == old(isStarting) && loopRunning == old(loopRunning)
      ensures dispatched == old(dispatched) && memberRequests == old(memberRequests)
    {
      var d := requests[n];
      if TimedOut(d, now) {
        if d.shard in tracked {
          tracked := tracked[d.shard := MarkIncomplete(tracked[d.shard], d.guildId)];
        }
        requests := requests - {n};
        return Some(d);
      }
      return None;
    }

    /** The request half of a sweep: every request that has waited the
      * timeout is dropped, its guild marked incomplete on its shard. */
    method SweepRequests(now: int, order: seq<string>) returns (timedOut: seq<RequestData>)
      requires Valid() && Enumerates(order, requests.Keys)
      modifies this
      ensures Valid()
      ensures timedOut == Expired(old(requests), order, now)
      ensures requests == Prune(old(requests), old(requests).Keys, now)
      ensures tracked == MarkAll(old(tracked), timedOut)
      ensures autoChunkMembers == old(autoChunkMembers) && chunkPresences == old(chunkPresences)
      ensures isStarting == old(isStarting) && loopRunning == old(loopRunning)
      ensures dispatched == old(dispatched) && memberRequests == old(memberRequests)
    {
      var remaining, marked;
      timedOut, remaining, marked := ExpireRequests(requests, tracked, order, now);
      PruneStored(requests, requests.Keys, now);
      MarkAllFiled(tracked, timedOut);
      requests := remaining;
      tracked := marked;
    }

    /** The shard half of a sweep: every shard that has gone quiet for the
      * timeout or has no pending guild is dropped; those that had received
      * something are returned, to be reported. */
    method SweepShards(now: int, order: seq<ShardId>) returns (collected: seq<ShardInfo>)
      requires Valid() && Enumerates(order, tracked.Keys)
      modifies this
      ensures Valid()
      ensures collected == Collected(old(tracked), order, now)
      ensures tracked == PruneShards(old(tracked), old(tracked).Keys, now)
      ensures autoChunkMembers == old(autoChunkMembers) && chunkPresences == old(chunkPresences)
      ensures isStarting == old(isStarting) && loopRunning == old(loopRunning) && requests == old(requests)
      ensures dispatched == old(dispatched) && memberRequests == old(memberRequests)
    {
      var remaining;
      collected, remaining := CollectQuiet(tracked, order, now);
      PruneShardsFiled(tracked, tracked.Keys, now);
      tracked := remaining;
    }

    /** `_dispatch_finished` for requests whose guild is no longer pending:
      * each only emits its request-finished event. */
    method DispatchRequestsFinished(ds: seq<RequestData>)
      requires Valid()
      requires forall k :: 0 <= k < |ds| && ds[k].shard in tracked ==> ds[k].guildId !in tracked[ds[k].shard].guildIds
      modifies this
      decreases |ds|
      ensures Valid()
      ensures dispatched == old(dispatched) + RequestEvents(ds)
      ensures tracked == old(tracked) && isStarting == old(isStarting)
      ensures autoChunkMembers == old(autoChunkMembers) && chunkPresences == old(chunkPresences)
      ensures requests == old(requests) && loopRunning == old(loopRunning)
      ensures memberRequests == old(memberRequests)
    {
      if ds != [] {
        ghost var before := dispatched;
        assert FinishTracking(tracked, ds[0], None) == (tracked, None);
        assert FinishedEvents(tracked, ds[0], None, isStarting) == [RequestFinished(ds[0].shard, ds[0])];
        DispatchFinished(ds[0], None);
        DispatchRequestsFinished(ds[1..]);
        assert RequestEvents(ds) == [RequestFinished(ds[0].shard, ds[0])] + RequestEvents(ds[1..]);
        AppendInTurn(dispatched, before, [RequestFinished(ds[0].shard, ds[0])], RequestEvents(ds[1..]), RequestEvents(ds));
      }
    }

    /** `_dispatch_shard_finished` for several shards in turn. */
    method DispatchShardsFinished(infos: seq<ShardInfo>)
      requires Valid()
      modifies this
      decreases |infos|
      ensures Valid()
      ensures dispatched == old(dispatched) + ShardFinishedEvents(infos, tracked == map[], old(isStarting))
      ensures isStarting == (old(isStarting) && (infos == [] || tracked != map[]))
      ensures tracked == old(tracked)
      ensures autoChunkMembers == old(autoChunkMembers) && chunkPresences == old(chunkPresences)
      ensures requests == old(requests) && loopRunning == old(loopRunning)
      ensures memberRequests == old(memberRequests)
    {
      if infos != [] {
        DispatchShardFinished(infos[0]);
        DispatchShardsFinished(infos[1..]);
      }
    }

    /** One round of the sweep task, over a snapshot of the request table:
      * timed-out requests are dropped and reported, quiet or settled shards
      * dropped and those that had received something reported; the task
      * goes on while anything is tracked. `requestOrder` and `shardOrder`
      * are the tables' iteration orders. */
    method LoopStep(now: int, requestOrder: seq<string>, shardOrder: seq<ShardId>)
      requires Valid()
      requires Enumerates(requestOrder, requests.Keys) && Enumerates(shardOrder, tracked.Keys)
      modifies this
      ensures Valid()
      ensures forall n :: n in requests ==> !TimedOut(requests[n], now)
      ensures forall s :: s in tracked ==> ShardLive(tracked[s], now)
      ensures requests == Prune(old(requests), old(requests).Keys, now)
      ensures var marked := MarkAll(old(tracked), Expired(old(requests), requestOrder, now));
              tracked == PruneShards(marked, marked.Keys, now) &&
              dispatched == old(dispatched) + RequestEvents(Expired(old(requests), requestOrder, now))
                              + ShardFinishedEvents(Collected(marked, shardOrder, now), tracked == map[], old(isStarting))
      ensures loopRunning == (requests != map[] || tracked != map[])
      ensures autoChunkMembers == old(autoChunkMembers) && chunkPresences == old(chunkPresences)
      ensures memberRequests == old(memberRequests)
    {
      var timedOut := SweepRequests(now, requestOrder);
      ghost var marked := tracked;
      var collected := SweepShards(now, shardOrder);
      MarkAllRemoves(old(tracked), timedOut);
      DispatchRequestsFinished(timedOut);
      DispatchShardsFinished(collected);
      loopRunning := requests != map[] || tracked != map[];
    }

    /** The request loop of `_loop` as written: the request table is
      * deleted from while it is being iterated, so the first timed-out
      * request is dropped and marked, and resuming the iteration raises
      * RuntimeError, which ends the task. */
    method SweepRequestsAsWritten(now: int, order: seq<string>) returns (r: Result<Unit>)
      requires Valid() && Enumerates(order, requests.Keys)
      modifies this
      ensures r.Failure? <==> exists n :: n in old(requests) && TimedOut(old(requests)[n], now)
      ensures r.Failure? ==> r.error == RuntimeError(DICT_CHANGED) && !loopRunning && dispatched == old(dispatched)
      ensures r.Failure? ==> exists n :: n in old(requests) && TimedOut(old(requests)[n], now) &&
                                         requests == old(requests) - {n}
      ensures r.Failure? ==>
        var i := FirstTimedOut(old(requests), order, now);
        i < |order| && requests == old(requests) - {order[i]} &&
        tracked == MarkAll(old(tracked), [old(requests)[order[i]]])
      ensures r.Failure? && |old(requests)| >= 2 ==> !Valid()
      ensures r.Success? ==> requests == old(requests) && tracked == old(tracked) && loopRunning == old(loopRunning)
      ensures r.Success? ==> isStarting == old(isStarting) && dispatched == old(dispatched)
      ensures autoChunkMembers == old(autoChunkMembers) && chunkPresences == old(chunkPresences)
      ensures memberRequests == old(memberRequests)
    {
      var i := 0;
      while i < |order|
        invariant 0 <= i <= |order|
        invariant forall k :: 0 <= k < i && order[k] in requests ==> !TimedOut(requests[order[k]], now)
        modifies {}
      {
        assert order[i] in requests;
        if TimedOut(requests[order[i]], now) {
          break;
        }
        i := i + 1;
      }
      if i < |order| {
        // The first timed-out request is marked and deleted; the iteration
        // then fails on its next step.
        assert i == FirstTimedOut(old(requests), order, now);
        var n := order[i];
        var expired := ExpireRequest(n, now);
        assert [old(requests)[n]][..0] == [];
        if |old(requests)| >= 2 {
          RemoveOneLeavesSome(old(requests), n);
        }
        loopRunning := false;
        return Failure(RuntimeError(DICT_CHANGED));
      }
      QuietSweep(requests, order, now);
      r := Success(Unit);
    }

    /** One round of `_loop` as written: the first timed-out request ends
      * the round, and the task, before anything is reported; with nothing
      * timed out the round is `LoopStep`'s. */
    method LoopStepAsWritten(now: int, requestOrder: seq<string>, shardOrder: seq<ShardId>) returns (r: Result<Unit>)
      requires Valid()
      requires Enumerates(requestOrder, requests.Keys) && Enumerates(shardOrder, tracked.Keys)
      modifies this
      ensures r.Failure? <==> exists n :: n in old(requests) && TimedOut(old(requests)[n], now)
      ensures r.Failure? ==> r.error == RuntimeError(DICT_CHANGED) && !loopRunning && dispatched == old(dispatched)
      ensures r.Failure? && |old(requests)| >= 2 ==> !Valid()
      ensures r.Success? ==> Valid() && requests == old(requests) &&
                             tracked == PruneShards(old(tracked), old(tracked).Keys, now) &&
                             dispatched == old(dispatched) + ShardFinishedEvents(Collected(old(tracked), shardOrder, now),
                                                                                 tracked == map[], old(isStarting))
    {
      r := SweepRequestsAsWritten(now, requestOrder);
      if r.Failure? {
        return;
      }
      QuietSweep(requests, requestOrder, now);
      LoopStep(now, requestOrder, shardOrder);
    }

    /** `_on_payload_event`: each payload goes to its handler; only a
      * members chunk can fail. */
    method OnPayloadEvent(shard: ShardId, membersIntent: bool, presencesIntent: bool, p: Payload, now: int,
                          nonceFor: Snowflake -> string, newNonce: string) returns (r: Result<Unit>)
      requires Valid()
      modifies this
      ensures Valid()
      ensures r.Failure? ==> p.MembersChunk? && r.error == KeyError
      ensures p.OtherPayload? ==> requests == old(requests) && tracked == old(tracked) &&
                                  dispatched == old(dispatched) && memberRequests == old(memberRequests)
      ensures !p.MembersChunk? ==> requests == old(requests)
    {
      match p
      case Ready(guilds) =>
        OnShardReady(shard, guilds, now, nonceFor);
        r := Success(Unit);
      case GuildCreate(guildId, large) =>
        OnGuildCreate(shard, membersIntent, presencesIntent, guildId, large, newNonce);
        r := Success(Unit);
      case MembersChunk(nonce, count, index, guildId, notFound) =>
        r := OnMembersChunk(shard, nonce, count, index, guildId, notFound, now);
      case OtherPayload =>
        r := Success(Unit);
    }
  }
}
