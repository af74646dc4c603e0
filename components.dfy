/** Message components (yuyo/components.py): the component context's
  * response rules, `_to_list`, the client's routing tables, the executors
  * and the paginator cursor. Callbacks and executors are opaque ids; an
  * executor's expiry and whether its run raises `ExecutorClosed` are given
  * as functions. */
module Components {
  import opened Wrappers
  import Internal
  import opened Interactions

  // ---------------------------------------------------------------------
  // ComponentContext

  /** `ComponentContext`'s flag rule: explicit flags win; undefined flags
    * follow the ephemeral default for every response type (not just
    * creations); `ephemeral=True` ORs EPHEMERAL into `flags or NONE`. */
  function ResolveFlags(ephemeral: bool, flags: Option<nat>, ephemeralDefault: bool): (r: nat)
    ensures IsEphemeral(r) <==> ephemeral || (if flags.Some? then IsEphemeral(flags.value) else ephemeralDefault)
    ensures OtherBits(r) == OtherBits(flags.UnwrapOr(0))
  {
    if ephemeral then SetEphemeral(flags.UnwrapOr(0))
    else if flags.Some? then flags.value
    else if ephemeralDefault then EPHEMERAL
    else 0
  }

  /** Unlike `BaseContext`, a component context cannot clear EPHEMERAL from
    * given flags: `ephemeral=False` keeps them as they are. */
  lemma ResolveFlagsCannotClear(flags: nat, ephemeralDefault: bool)
    ensures ResolveFlags(false, Some(flags), ephemeralDefault) == flags
    ensures IsEphemeral(flags) ==> IsEphemeral(ResolveFlags(false, Some(flags), ephemeralDefault))
  {
  }

  class ComponentContext {
    var ephemeralDefault: bool
    var hasResponded: bool
    var hasBeenDeferred: bool
    var lastResponseId: Option<Snowflake>
    const createdAt: int
    const viaFuture: bool
    ghost var calls: seq<Call>

    function State(): ResponseState
      reads this
    {
      ResponseState(hasResponded, hasBeenDeferred, lastResponseId)
    }

    constructor (createdAt: int, ephemeralDefault: bool, viaFuture: bool)
      ensures State() == ResponseState(false, false, None) && calls == []
      ensures this.createdAt == createdAt && this.ephemeralDefault == ephemeralDefault && this.viaFuture == viaFuture
    {
      this.createdAt := createdAt;
      this.ephemeralDefault := ephemeralDefault;
      this.viaFuture := viaFuture;
      hasResponded := false;
      hasBeenDeferred := false;
      lastResponseId := None;
      calls := [];
    }

    method SetEphemeralDefault(state: bool)
      modifies this
      ensures ephemeralDefault == state && State() == old(State()) && calls == old(calls)
    {
      ephemeralDefault := state;
    }

    /** `defer`: RuntimeError if already deferred; otherwise marks the
      * context deferred and sends the deferral. */
    method Defer(deferType: ResponseType, ephemeral: bool, flags: Option<nat>) returns (r: Result<Unit>)
      requires deferType.IsDeferred()
      modifies this
      ensures ephemeralDefault == old(ephemeralDefault)
      ensures r.Failure? <==> old(hasBeenDeferred)
      ensures r.Failure? ==>
        r.error == RuntimeError("Context has already been responded to") && State() == old(State()) && calls == old(calls)
      ensures r.Success? ==>
        State() == old(State()).(hasBeenDeferred := true) &&
        calls == old(calls) + [Deliver(viaFuture, deferType, ResolveFlags(ephemeral, flags, ephemeralDefault))]
    {
      var f := ResolveFlags(ephemeral, flags, ephemeralDefault);
      if hasBeenDeferred {
        return Failure(RuntimeError("Context has already been responded to"));
      }
      hasBeenDeferred := true;
      calls := calls + [Deliver(viaFuture, deferType, f)];
      r := Success(Unit);
    }

    /** `create_followup`. */
    method CreateFollowup(deleteAfter: Option<int>, ephemeral: bool, flags: Option<nat>, now: int,
                          newMessageId: Snowflake) returns (r: Result<Unit>)
      modifies this
      ensures ephemeralDefault == old(ephemeralDefault)
      ensures r.Success? <==> DeleteAfterOk(deleteAfter, now, createdAt)
      ensures r.Failure? ==>
        r.error == ValueError(DELETE_AFTER_TOO_LATE) && State() == old(State()) && calls == old(calls)
      ensures r.Success? ==>
        State() == old(State()).(hasResponded := true, lastResponseId := Some(newMessageId)) &&
        calls == old(calls) + [Followup(ResolveFlags(ephemeral, flags, ephemeralDefault))] +
                 ScheduleMessageDelete(newMessageId, deleteAfter)
    {
      if deleteAfter.Some? {
        var v := ValidateDeleteAfter(deleteAfter.value, now, createdAt);
        if v.Failure? {
          return Failure(v.error);
        }
      }
      calls := calls + [Followup(ResolveFlags(ephemeral, flags, ephemeralDefault))];
      lastResponseId := Some(newMessageId);
      hasResponded := true;
      calls := calls + ScheduleMessageDelete(newMessageId, deleteAfter);
      r := Success(Unit);
    }

    /** `create_initial_response`: the same checks in the same order as
      * `BaseContext`'s, `_to_list`'s ValueError included. */
    method CreateInitialResponse(responseType: ResponseType, deleteAfter: Option<int>, ephemeral: bool,
                                 flags: Option<nat>, both: BothGiven, now: int) returns (r: Result<Unit>)
      requires !responseType.IsDeferred()
      modifies this
      ensures ephemeralDefault == old(ephemeralDefault)
      ensures r.Failure? <==>
        InitialResponseError(deleteAfter, now, createdAt, old(State())).Some? || (viaFuture && ToListConflict(both).Some?)
      ensures r.Failure? ==> State() == old(State()) && calls == old(calls)
      ensures InitialResponseError(deleteAfter, now, createdAt, old(State())).Some? ==>
        r == Failure(InitialResponseError(deleteAfter, now, createdAt, old(State())).value)
      ensures InitialResponseError(deleteAfter, now, createdAt, old(State())).None? && r.Failure? ==>
        r.error == ToListConflict(both).value
      ensures r.Success? ==>
        State() == old(State()).(hasResponded := true) &&
        calls == old(calls) + [Deliver(viaFuture, responseType, ResolveFlags(ephemeral, flags, ephemeralDefault))] +
                 ScheduleInitialDelete(deleteAfter)
    {
      var f := ResolveFlags(ephemeral, flags, ephemeralDefault);
      var err := InitialResponseError(deleteAfter, now, createdAt, State());
      if err.Some? {
        return Failure(err.value);
      }
      if viaFuture && ToListConflict(both).Some? {
        return Failure(ToListConflict(both).value);
      }
      calls := calls + [Deliver(viaFuture, responseType, f)];
      hasResponded := true;
      calls := calls + ScheduleInitialDelete(deleteAfter);
      r := Success(Unit);
    }

    method DeleteInitialResponse()
      modifies this
      ensures ephemeralDefault == old(ephemeralDefault)
      ensures State() == old(State()).(hasResponded := true) && calls == old(calls) + [DeleteInitial]
    {
      calls := calls + [DeleteInitial];
      hasResponded := true;
    }

    /** `delete_last_response`. */
    method DeleteLastResponse() returns (r: Result<Unit>)
      modifies this
      ensures ephemeralDefault == old(ephemeralDefault)
      ensures r.Failure? <==> old(lastResponseId).None? && !old(hasResponded) && !old(hasBeenDeferred)
      ensures r.Failure? ==>
        r.error == LookupError("Context has no last response") && State() == old(State()) && calls == old(calls)
      ensures old(lastResponseId).Some? ==>
        State() == old(State()) && calls == old(calls) + [DeleteMessage(old(lastResponseId).value)]
      ensures old(lastResponseId).None? && r.Success? ==>
        State() == old(State()).(hasResponded := true) && calls == old(calls) + [DeleteInitial]
    {
      if lastResponseId.None? {
        if hasResponded || hasBeenDeferred {
          calls := calls + [DeleteInitial];
          hasResponded := true;
          return Success(Unit);
        }
        return Failure(LookupError("Context has no last response"));
      }
      calls := calls + [DeleteMessage(lastResponseId.value)];
      r := Success(Unit);
    }

    /** `edit_initial_response`. */
    method EditInitialResponse(deleteAfter: Option<int>, now: int) returns (r: Result<Unit>)
      modifies this
      ensures ephemeralDefault == old(ephemeralDefault)
      ensures r.Success? <==> DeleteAfterOk(deleteAfter, now, createdAt)
      ensures r.Failure? ==>
        r.error == ValueError(DELETE_AFTER_TOO_LATE) && State() == old(State()) && calls == old(calls)
      ensures r.Success? ==>
        State() == old(State()).(hasResponded := true) &&
        calls == old(calls) + [EditInitial] + ScheduleInitialDelete(deleteAfter)
    {
      if deleteAfter.Some? {
        var v := ValidateDeleteAfter(deleteAfter.value, now, createdAt);
        if v.Failure? {
          return Failure(v.error);
        }
      }
      calls := calls + [EditInitial];
      hasResponded := true;
      calls := calls + ScheduleInitialDelete(deleteAfter);
      r := Success(Unit);
    }

    /** `edit_last_response`: a truthy last id is edited, else the initial
      * response once responded or deferred, else LookupError. */
    method EditLastResponse(deleteAfter: Option<int>, now: int) returns (r: Result<Unit>)
      modifies this
      ensures ephemeralDefault == old(ephemeralDefault)
      ensures r.Failure? ==> State() == old(State()) && calls == old(calls)
      ensures r.Failure? <==>
        !DeleteAfterOk(deleteAfter, now, createdAt) ||
        ((old(lastResponseId).None? || old(lastResponseId) == Some(0)) && !old(hasResponded) && !old(hasBeenDeferred))
      ensures r.Failure? && DeleteAfterOk(deleteAfter, now, createdAt) ==>
        r.error == LookupError("Context has no previous responses")
      ensures r.Success? && old(lastResponseId).Some? && old(lastResponseId) != Some(0) ==>
        State() == old(State()) &&
        calls == old(calls) + [EditMessage(lastResponseId.value)] + ScheduleMessageDelete(lastResponseId.value, deleteAfter)
      ensures r.Success? && (old(lastResponseId).None? || old(lastResponseId) == Some(0)) ==>
        State() == old(State()).(hasResponded := true) &&
        calls == old(calls) + [EditInitial] + ScheduleInitialDelete(deleteAfter)
    {
      if lastResponseId.Some? && lastResponseId.value != 0 {
        if deleteAfter.Some? {
          var v := ValidateDeleteAfter(deleteAfter.value, now, createdAt);
          if v.Failure? {
            return Failure(v.error);
          }
        }
        calls := calls + [EditMessage(lastResponseId.value)] + ScheduleMessageDelete(lastResponseId.value, deleteAfter);
        return Success(Unit);
      }
      if hasResponded || hasBeenDeferred {
        r := EditInitialResponse(deleteAfter, now);
        return;
      }
      r := Failure(LookupError("Context has no previous responses"));
    }

    method FetchInitialResponse()
      modifies this
      ensures State() == old(State()) && ephemeralDefault == old(ephemeralDefault)
      ensures calls == old(calls) + [FetchInitial]
    {
      calls := calls + [FetchInitial];
    }

    /** `fetch_last_response`: a deferral alone is not enough. */
    method FetchLastResponse() returns (r: Result<Unit>)
      modifies this
      ensures State() == old(State()) && ephemeralDefault == old(ephemeralDefault)
      ensures r.Failure? <==> lastResponseId.None? && !hasResponded
      ensures r.Failure? ==> r.error == LookupError("Context has no previous known responses") && calls == old(calls)
      ensures lastResponseId.Some? ==> calls == old(calls) + [FetchMessage(lastResponseId.value)]
      ensures lastResponseId.None? && hasResponded ==> calls == old(calls) + [FetchInitial]
    {
      if lastResponseId.Some? {
        calls := calls + [FetchMessage(lastResponseId.value)];
        return Success(Unit);
      }
      if hasResponded {
        FetchInitialResponse();
        return Success(Unit);
      }
      r := Failure(LookupError("Context has no previous known responses"));
    }

    /** `respond`: routed by `RespondRoute`, never raising on account of the
      * state; the singular and plural arguments go on unchanged (`both`),
      * so the initial response through the response future can raise
      * `_to_list`'s ValueError. */
    method Respond(deleteAfter: Option<int>, both: BothGiven, ensureResult: bool, now: int,
                   newMessageId: Snowflake)
      returns (r: Result<Unit>)
      modifies this
      ensures ephemeralDefault == old(ephemeralDefault)
      ensures r.Success? <==>
        DeleteAfterOk(deleteAfter, now, createdAt) &&
        (RespondRoute(old(State())) != RouteCreateInitial || !viaFuture || ToListConflict(both).None?)
      ensures r.Failure? ==> State() == old(State()) && calls == old(calls)
      ensures !DeleteAfterOk(deleteAfter, now, createdAt) ==> r == Failure(ValueError(DELETE_AFTER_TOO_LATE))
      ensures DeleteAfterOk(deleteAfter, now, createdAt) && r.Failure? ==>
        RespondRoute(old(State())) == RouteCreateInitial && viaFuture && r.error == ToListConflict(both).value
      ensures r.Success? ==> hasResponded && hasBeenDeferred == old(hasBeenDeferred)
      ensures r.Success? && RespondRoute(old(State())) == RouteFollowup ==>
        lastResponseId == Some(newMessageId) &&
        calls == old(calls) + [Followup(ResolveFlags(false, None, ephemeralDefault))] +
                 ScheduleMessageDelete(newMessageId, deleteAfter)
      ensures r.Success? && RespondRoute(old(State())) == RouteEditInitial ==>
        lastResponseId == old(lastResponseId) &&
        calls == old(calls) + [EditInitial] + ScheduleInitialDelete(deleteAfter)
      ensures r.Success? && RespondRoute(old(State())) == RouteCreateInitial ==>
        lastResponseId == old(lastResponseId) &&
        calls == old(calls) + [Deliver(viaFuture, MessageCreate, ResolveFlags(false, None, ephemeralDefault))] +
                 ScheduleInitialDelete(deleteAfter) + (if ensureResult then [FetchInitial] else [])
    {
      if hasResponded {
        r := CreateFollowup(deleteAfter, false, None, now, newMessageId);
        return;
      }
      if hasBeenDeferred {
        r := EditInitialResponse(deleteAfter, now);
        return;
      }
      r := CreateInitialResponse(MessageCreate, deleteAfter, false, None, both, now);
      if r.Success? && ensureResult {
        FetchInitialResponse();
      }
    }
  }

  // ---------------------------------------------------------------------
  // _to_list

  /** The `other` (content) argument: undefined, an item of the listed
    * kind, or some other (string-like) value. */
  datatype Content<T> = Undefined | Item(item: T) | Text(text: string)

  /** The items a response call was given, in argument order. */
  function GivenItems<T>(singular: Option<T>, plural: Option<seq<T>>, other: Content<T>): seq<T>
  {
    (if singular.Some? then [singular.value] else []) + plural.UnwrapOr([]) +
    (if other.Item? then [other.item] else [])
  }

  /** `_to_list`: ValueError when both the singular and the plural are
    * given; otherwise the singular as a one-item list, or the plural, or a
    * content value that is itself such an item (moved out of the content). */
  function ToList<T>(singular: Option<T>, plural: Option<seq<T>>, other: Content<T>, name: string)
    : (r: Result<(Option<seq<T>>, Content<T>)>)
    ensures r.Failure? <==> singular.Some? && plural.Some?
    ensures r.Failure? ==> r.error == ValueError(OnlyOneMessage(name))
    ensures r.Success? && singular.Some? ==> r.value == (Some([singular.value]), other)
    ensures r.Success? && plural.Some? ==> r.value == (plural, other)
    ensures r.Success? && singular.None? && plural.None? ==>
      (other.Item? ==> r.value == (Some([other.item]), Undefined)) &&
      (!other.Item? ==> r.value == (None, other))
  {
    if singular.Some? && plural.Some? then Failure(ValueError(OnlyOneMessage(name)))
    else if singular.Some? then Success((Some([singular.value]), other))
    else if plural.Some? then Success((plural, other))
    else if other.Item? then Success((Some([other.item]), Undefined))
    else Success((None, other))
  }

  /** `_to_list` neither loses nor reorders an item: the list it returns
    * followed by the item left in the content is what the caller gave. */
  lemma ToListKeepsItems<T>(singular: Option<T>, plural: Option<seq<T>>, other: Content<T>, name: string)
    requires ToList(singular, plural, other, name).Success?
    ensures var (items, rest) := ToList(singular, plural, other, name).value;
      items.UnwrapOr([]) + (if rest.Item? then [rest.item] else []) == GivenItems(singular, plural, other)
  {
  }

  // ---------------------------------------------------------------------
  // ComponentClient

  type Callback = nat
  type ExecutorId = nat

  const TIMED_OUT := "This message has timed-out."

  /** What dispatching an interaction leads to. `TimedOut` is the ephemeral
    * "This message has timed-out." reply. */
  datatype Dispatch = RunConstant(callback: Callback) | RunExecutor(executor: ExecutorId) | TimedOut

  /** The keys of an insertion-ordered table. */
  function Keys<V>(table: seq<(string, V)>): set<string>
  {
    if |table| == 0 then {} else {table[0].0} + Keys(table[1..])
  }

  lemma {:induction false} KeysHasEntries<V>(table: seq<(string, V)>)
    ensures forall i :: 0 <= i < |table| ==> table[i].0 in Keys(table)
  {
    if |table| != 0 {
      KeysHasEntries(table[1..]);
      assert forall i :: 1 <= i < |table| ==> table[i] == table[1..][i - 1];
    }
  }

  lemma {:induction false} KeysAppend<V>(table: seq<(string, V)>, key: string, value: V)
    ensures Keys(table + [(key, value)]) == Keys(table) + {key}
  {
    if |table| != 0 {
      assert (table + [(key, value)])[1..] == table[1..] + [(key, value)];
      KeysAppend(table[1..], key, value);
    }
  }

  predicate DistinctKeys<V>(table: seq<(string, V)>)
  {
    forall i, j :: 0 <= i < j < |table| ==> table[i].0 != table[j].0
  }

  /** `dict.get` on an insertion-ordered table. */
  function Lookup<V>(table: seq<(string, V)>, key: string): (r: Option<V>)
    ensures r.None? <==> key !in Keys(table)
    ensures r.Some? ==> exists i :: 0 <= i < |table| && table[i] == (key, r.value)
  {
    if |table| == 0 then None
    else if table[0].0 == key then Some(table[0].1)
    else Lookup(table[1..], key)
  }

  /** `del table[key]` on an insertion-ordered table: the other entries
    * stay, in order. */
  function RemoveKey<V(!new)>(table: seq<(string, V)>, key: string): (r: seq<(string, V)>)
    ensures Keys(r) == Keys(table) - {key}
    ensures forall e :: e in r <==> e in table && e.0 != key
    ensures DistinctKeys(table) ==> DistinctKeys(r)
  {
    if |table| == 0 then []
    else if table[0].0 == key then RemoveKey(table[1..], key)
    else [table[0]] + RemoveKey(table[1..], key)
  }

  /** Removing a key just appended to a table without it gives the table
    * back. */
  lemma {:induction false} RemoveKeyAppended<V(!new)>(table: seq<(string, V)>, key: string, value: V)
    requires key !in Keys(table)
    ensures RemoveKey(table + [(key, value)], key) == table
  {
    if |table| == 0 {
    } else {
      assert table[0].0 != key;
      assert (table + [(key, value)])[1..] == table[1..] + [(key, value)];
      RemoveKeyAppended(table[1..], key, value);
    }
  }

  /** The index of the first-inserted prefix that `customId` starts with. */
  function FirstPrefix<V>(table: seq<(string, V)>, customId: string): (r: Option<nat>)
    ensures r.Some? ==> r.value < |table| && table[r.value].0 <= customId
    ensures r.Some? ==> forall j :: 0 <= j < r.value ==> !(table[j].0 <= customId)
    ensures r.None? ==> forall j :: 0 <= j < |table| ==> !(table[j].0 <= customId)
  {
    if |table| == 0 then None
    else if table[0].0 <= customId then Some(0)
    else match FirstPrefix(table[1..], customId)
      case None => None
      case Some(i) => Some(i + 1)
  }

  class ComponentClient {
    var constantIds: map<string, Callback>
    /** `_prefix_ids`, in insertion order. */
    var prefixIds: seq<(string, Callback)>
    var executors: map<Snowflake, ExecutorId>
    /** Whether the garbage-collection task is running (`_gc_task`). */
    var isOpen: bool

    /** Prefix ids are distinct and no id is in both tables. */
    ghost predicate Valid()
      reads this
    {
      DistinctKeys(prefixIds) && constantIds.Keys !! Keys(prefixIds)
    }

    constructor ()
      ensures Valid() && constantIds == map[] && prefixIds == [] && executors == map[] && !isOpen
    {
      constantIds := map[];
      prefixIds := [];
      executors := map[];
      isOpen := false;
    }

    /** `_match_constant_id`: an exact id first, else the callback of the
      * first-inserted prefix the custom id starts with. */
    function MatchConstantId(customId: string): (r: Option<Callback>)
      reads this
      ensures customId in constantIds ==> r == Some(constantIds[customId])
      ensures customId !in constantIds ==>
        (r.None? <==> forall j :: 0 <= j < |prefixIds| ==> !(prefixIds[j].0 <= customId))
      ensures customId !in constantIds && r.Some? ==>
        exists i :: 0 <= i < |prefixIds| && prefixIds[i].0 <= customId && r.value == prefixIds[i].1 &&
          forall j :: 0 <= j < i ==> !(prefixIds[j].0 <= customId)
    {
      if customId in constantIds then Some(constantIds[customId])
      else match FirstPrefix(prefixIds, customId)
        case None => None
        case Some(i) => Some(prefixIds[i].1)
    }

    /** `get_constant_id`: exact lookup in either table. */
    function GetConstantId(customId: string): (r: Option<Callback>)
      reads this
      ensures r.None? <==> customId !in constantIds && customId !in Keys(prefixIds)
      ensures customId in constantIds ==> r == Some(constantIds[customId])
    {
      if customId in constantIds then Some(constantIds[customId]) else Lookup(prefixIds, customId)
    }

    /** `set_constant_id`: ValueError for an id in either table (the prefix
      * table is checked first); otherwise the id goes into exactly one
      * table. `repr` stands for Python's `repr` of the id. */
    method SetConstantId(customId: string, callback: Callback, prefixMatch: bool, repr: string -> string)
      returns (r: Result<Unit>)
      requires Valid()
      modifies this
      ensures Valid() && executors == old(executors) && isOpen == old(isOpen)
      ensures r.Failure? <==> customId in old(constantIds) || customId in Keys(old(prefixIds))
      ensures r.Failure? ==> constantIds == old(constantIds) && prefixIds == old(prefixIds)
      ensures r.Failure? && customId in Keys(old(prefixIds)) ==>
        r.error == ValueError(repr(customId) + " is already registered as a prefix match")
      ensures r.Failure? && customId !in Keys(old(prefixIds)) ==>
        r.error == ValueError(repr(customId) + " is already registered as a constant id")
      ensures r.Success? && prefixMatch ==>
        prefixIds == old(prefixIds) + [(customId, callback)] && constantIds == old(constantIds)
      ensures r.Success? && !prefixMatch ==>
        constantIds == old(constantIds)[customId := callback] && prefixIds == old(prefixIds)
      ensures r.Success? ==> GetConstantId(customId) == Some(callback)
      ensures r.Success? && !prefixMatch ==> MatchConstantId(customId) == Some(callback)
    {
      if customId in Keys(prefixIds) {
        return Failure(ValueError(repr(customId) + " is already registered as a prefix match"));
      }
      if customId in constantIds {
        return Failure(ValueError(repr(customId) + " is already registered as a constant id"));
      }
      if prefixMatch {
        KeysHasEntries(prefixIds);
        KeysAppend(prefixIds, customId, callback);
        prefixIds := prefixIds + [(customId, callback)];
        assert Lookup(prefixIds, customId) == Some(callback) by {
          LookupAppended(old(prefixIds), customId, callback);
        }
        return Success(Unit);
      }
      constantIds := constantIds[customId := callback];
      r := Success(Unit);
    }

    /** `remove_constant_id`: from the exact table, else from the prefix
      * table, else KeyError with both tables unchanged. */
    method RemoveConstantId(customId: string) returns (r: Result<Unit>)
      requires Valid()
      modifies this
      ensures Valid() && executors == old(executors) && isOpen == old(isOpen)
      ensures r.Failure? <==> customId !in old(constantIds) && customId !in Keys(old(prefixIds))
      ensures r.Failure? ==> r.error == KeyError && constantIds == old(constantIds) && prefixIds == old(prefixIds)
      ensures customId in old(constantIds) ==>
        constantIds == old(constantIds) - {customId} && prefixIds == old(prefixIds)
      ensures customId !in old(constantIds) && r.Success? ==>
        constantIds == old(constantIds) && prefixIds == RemoveKey(old(prefixIds), customId)
      ensures GetConstantId(customId).None?
    {
      if customId in constantIds {
        assert customId !in Keys(prefixIds);
        constantIds := constantIds - {customId};
        return Success(Unit);
      }
      if customId !in Keys(prefixIds) {
        return Failure(KeyError);
      }
      var rest := RemoveKey(prefixIds, customId);
      assert Keys(rest) == Keys(prefixIds) - {customId};
      assert DistinctKeys(rest);
      prefixIds := rest;
      r := Success(Unit);
    }

    /** `set_executor` replaces any executor already set for the message. */
    method SetExecutor(message: Snowflake, executor: ExecutorId)
      modifies this
      ensures executors == old(executors)[message := executor]
      ensures constantIds == old(constantIds) && prefixIds == old(prefixIds) && isOpen == old(isOpen)
    {
      executors := executors[message := executor];
    }

    function GetExecutor(message: Snowflake): (r: Option<ExecutorId>)
      reads this
      ensures r.Some? <==> message in executors
      ensures r.Some? ==> r.value == executors[message]
    {
      if message in executors then Some(executors[message]) else None
    }

    /** `remove_executor`: KeyError when none is set. */
    method RemoveExecutor(message: Snowflake) returns (r: Result<Unit>)
      modifies this
      ensures r.Failure? <==> message !in old(executors)
      ensures r.Failure? ==> r.error == KeyError
      ensures executors == old(executors) - {message}
      ensures constantIds == old(constantIds) && prefixIds == old(prefixIds) && isOpen == old(isOpen)
    {
      if message !in executors {
        return Failure(KeyError);
      }
      executors := executors - {message};
      r := Success(Unit);
    }

    /** `open`: starts the collector unless it is already running. */
    method Open()
      modifies this
      ensures isOpen
      ensures constantIds == old(constantIds) && prefixIds == old(prefixIds) && executors == old(executors)
    {
      if isOpen {
        return;
      }
      isOpen := true;
    }

    /** `close`: a no-op when not open; otherwise stops and drops every
      * executor (constant callbacks stay). */
    method Close()
      modifies this
      ensures !isOpen
      ensures constantIds == old(constantIds) && prefixIds == old(prefixIds)
      ensures executors == if old(isOpen) then map[] else old(executors)
    {
      if !isOpen {
        return;
      }
      isOpen := false;
      executors := map[];
    }

    /** One sweep of `_gc`: every expired executor is deleted. */
    method Gc(hasExpired: ExecutorId -> bool)
      modifies this
      ensures executors == map m | m in old(executors) && !hasExpired(old(executors)[m]) :: old(executors)[m]
      ensures constantIds == old(constantIds) && prefixIds == old(prefixIds) && isOpen == old(isOpen)
    {
      var pending := executors.Keys;
      ghost var start := executors;
      while pending != {}
        invariant pending <= start.Keys
        invariant executors.Keys <= start.Keys
        invariant forall m :: m in executors ==> executors[m] == start[m]
        invariant forall m :: m in start && m !in pending ==> (m in executors <==> !hasExpired(start[m]))
        invariant forall m :: m in pending ==> m in executors
        invariant constantIds == old(constantIds) && prefixIds == old(prefixIds) && isOpen == old(isOpen)
        decreases pending
      {
        var m :| m in pending;
        if hasExpired(executors[m]) {
          executors := executors - {m};
        }
        pending := pending - {m};
      }
    }

    /** `on_gateway_event`: a constant or prefix callback first, then the
      * message's executor (an executor that raises `ExecutorClosed` is
      * removed), else the timed-out reply. */
    method OnGatewayEvent(customId: string, message: Snowflake, raisesClosed: ExecutorId -> bool) returns (r: Dispatch)
      modifies this
      ensures constantIds == old(constantIds) && prefixIds == old(prefixIds) && isOpen == old(isOpen)
      ensures old(MatchConstantId(customId)).Some? ==>
        r == RunConstant(old(MatchConstantId(customId)).value) && executors == old(executors)
      ensures old(MatchConstantId(customId)).None? && message in old(executors) ==>
        r == RunExecutor(old(executors)[message]) &&
        executors == if raisesClosed(old(executors)[message]) then old(executors) - {message} else old(executors)
      ensures old(MatchConstantId(customId)).None? && message !in old(executors) ==>
        r == TimedOut && executors == old(executors)
    {
      var constant := MatchConstantId(customId);
      if constant.Some? {
        return RunConstant(constant.value);
      }
      if message in executors {
        var e := executors[message];
        if raisesClosed(e) {
          executors := executors - {message};
        }
        return RunExecutor(e);
      }
      r := TimedOut;
    }

    /** `on_rest_request`: as the gateway path, except that an expired
      * executor is deleted and answered with the timed-out reply. */
    method OnRestRequest(customId: string, message: Snowflake, hasExpired: ExecutorId -> bool,
                         raisesClosed: ExecutorId -> bool) returns (r: Dispatch)
      modifies this
      ensures constantIds == old(constantIds) && prefixIds == old(prefixIds) && isOpen == old(isOpen)
      ensures old(MatchConstantId(customId)).Some? ==>
        r == RunConstant(old(MatchConstantId(customId)).value) && executors == old(executors)
      ensures old(MatchConstantId(customId)).None? && message in old(executors) && !hasExpired(old(executors)[message]) ==>
        r == RunExecutor(old(executors)[message]) &&
        executors == if raisesClosed(old(executors)[message]) then old(executors) - {message} else old(executors)
      ensures old(MatchConstantId(customId)).None? && message in old(executors) && hasExpired(old(executors)[message]) ==>
        r == TimedOut && executors == old(executors) - {message}
      ensures old(MatchConstantId(customId)).None? && message !in old(executors) ==>
        r == TimedOut && executors == old(executors)
    {
      var constant := MatchConstantId(customId);
      if constant.Some? {
        return RunConstant(constant.value);
      }
      if message in executors {
        var e := executors[message];
        if !hasExpired(e) {
          if raisesClosed(e) {
            executors := executors - {message};
          }
          return RunExecutor(e);
        }
        executors := executors - {message};
      }
      r := TimedOut;
    }
  }

  lemma {:induction false} LookupAppended<V>(table: seq<(string, V)>, key: string, value: V)
    requires key !in Keys(table)
    ensures Lookup(table + [(key, value)], key) == Some(value)
  {
    if |table| != 0 {
      assert table[0].0 != key;
      assert (table + [(key, value)])[1..] == table[1..] + [(key, value)];
      LookupAppended(table[1..], key, value);
    }
  }

  /** Registering a constant id and removing it again restores both tables. */
  lemma SetThenRemoveConstantId(constantIds: map<string, Callback>, prefixIds: seq<(string, Callback)>,
                                customId: string, callback: Callback)
    requires customId !in constantIds && customId !in Keys(prefixIds)
    ensures constantIds[customId := callback] - {customId} == constantIds
    ensures RemoveKey(prefixIds + [(customId, callback)], customId) == prefixIds
  {
    RemoveKeyAppended(prefixIds, customId, callback);
  }

  // ---------------------------------------------------------------------
  // Executors

  /** Whether more than `timeout` has passed between `start` and `now`. */
  function HasExpiredAt(start: int, timeout: int, now: int): (r: bool)
    ensures r <==> start + timeout < now
  {
    timeout < now - start
  }

  /** `ComponentExecutor`: callbacks by custom id and a timeout counted from
    * creation (executing does not refresh it). */
  class ComponentExecutor {
    var callbacks: map<string, Callback>
    const ephemeralDefault: bool
    const lastTriggered: int
    const timeout: int

    constructor (ephemeralDefault: bool, timeout: int, now: int)
      ensures callbacks == map[] && this.ephemeralDefault == ephemeralDefault
      ensures this.timeout == timeout && lastTriggered == now
    {
      callbacks := map[];
      this.ephemeralDefault := ephemeralDefault;
      this.timeout := timeout;
      lastTriggered := now;
    }

    /** Expired once more than `timeout` has passed since it was made; the
      * clock is never restarted, so an expired executor stays expired. */
    function HasExpired(now: int): (r: bool)
      reads this
      ensures r <==> HasExpiredAt(lastTriggered, timeout, now)
    {
      timeout < now - lastTriggered
    }

    /** The callback `execute` runs for a custom id; KeyError when none is
      * set. */
    function CallbackFor(customId: string): (r: Result<Callback>)
      reads this
      ensures r.Success? <==> customId in callbacks
      ensures r.Success? ==> r.value == callbacks[customId]
      ensures r.Failure? ==> r.error == KeyError
    {
      if customId in callbacks then Success(callbacks[customId]) else Failure(KeyError)
    }

    method SetCallback(customId: string, callback: Callback)
      modifies this
      ensures callbacks == old(callbacks)[customId := callback]
      ensures CallbackFor(customId) == Success(callback)
    {
      callbacks := callbacks[customId := callback];
    }
  }

  /** Once expired, an executor stays expired. */
  lemma ExecutorExpiryIsMonotonic(e: ComponentExecutor, now: int, later: int)
    requires e.HasExpired(now) && now <= later
    ensures e.HasExpired(later)
  {
  }

  /** What `WaitForExecutor.execute` does with an interaction. */
  datatype WaitOutcome =
    | NotReady      // ephemeral "The bot isn't ready for that yet"
    | NotAllowed    // ephemeral "You are not allowed to use this component"
    | Closed        // raises ExecutorClosed
    | Resolved      // the waiter receives the context

  /** An author filter: an empty or missing author list lets anyone in. */
  function AuthorFilter(authors: Option<set<Snowflake>>): (r: Option<set<Snowflake>>)
    ensures r.Some? <==> authors.Some? && authors.value != {}
    ensures r.Some? ==> r == authors
  {
    if authors.Some? && authors.value != {} then authors else None
  }

  predicate Allowed(authors: Option<set<Snowflake>>, user: Snowflake)
  {
    authors.None? || user in authors.value
  }

  /** `WaitForExecutor`: a one-shot executor. */
  class WaitForExecutor {
    const authors: Option<set<Snowflake>>
    const ephemeralDefault: bool
    const timeout: int
    var finished: bool
    /** Whether `wait_for` has been called (`_future` is set). */
    var waiting: bool
    var madeAt: Option<int>

    constructor (authors: Option<set<Snowflake>>, ephemeralDefault: bool, timeout: int)
      ensures this.authors == AuthorFilter(authors) && this.timeout == timeout
      ensures !finished && !waiting && madeAt.None?
    {
      this.authors := AuthorFilter(authors);
      this.ephemeralDefault := ephemeralDefault;
      this.timeout := timeout;
      finished := false;
      waiting := false;
      madeAt := None;
    }

    /** Expired once finished, or once `wait_for` has run for more than
      * `timeout`; never before `wait_for` starts the clock. */
    function HasExpired(now: int): (r: bool)
      reads this
      ensures finished ==> r
      ensures !finished && madeAt.None? ==> !r
      ensures !finished && madeAt.Some? ==> (r <==> HasExpiredAt(madeAt.value, timeout, now))
    {
      finished || (madeAt.Some? && timeout < now - madeAt.value)
    }

    /** `wait_for`: RuntimeError on a second call; otherwise starts the wait
      * and its timeout clock. */
    method WaitFor(now: int) returns (r: Result<Unit>)
      modifies this
      ensures r.Failure? <==> old(waiting)
      ensures r.Failure? ==>
        r.error == RuntimeError("This executor is already being waited for") &&
        waiting && finished == old(finished) && madeAt == old(madeAt)
      ensures r.Success? ==> waiting && madeAt == Some(now) && finished == old(finished)
    {
      if waiting {
        return Failure(RuntimeError("This executor is already being waited for"));
      }
      madeAt := Some(now);
      waiting := true;
      r := Success(Unit);
    }

    /** The `finally` of `wait_for`: the wait ended, by a result or by
      * timing out. */
    method EndWait()
      requires waiting
      modifies this
      ensures finished && waiting && madeAt == old(madeAt)
    {
      finished := true;
    }

    /** `execute`: refuses before `wait_for`, is closed once finished,
      * refuses a non-author, and otherwise hands the context to the waiter
      * exactly once. */
    method Execute(user: Snowflake) returns (r: WaitOutcome)
      modifies this
      ensures waiting == old(waiting) && madeAt == old(madeAt)
      ensures !old(waiting) ==> r == NotReady && finished == old(finished)
      ensures old(waiting) && old(finished) ==> r == Closed && finished
      ensures old(waiting) && !old(finished) && !Allowed(authors, user) ==> r == NotAllowed && !finished
      ensures old(waiting) && !old(finished) && Allowed(authors, user) ==> r == Resolved && finished
    {
      if !waiting {
        return NotReady;
      }
      if finished {
        return Closed;
      }
      if authors.Some? && user !in authors.value {
        return NotAllowed;
      }
      finished := true;
      r := Resolved;
    }
  }

  /** A resolved wait closes the executor for every later interaction. */
  method WaitForIsOneShot(e: WaitForExecutor, first: Snowflake, second: Snowflake)
    returns (a: WaitOutcome, b: WaitOutcome)
    requires e.waiting && !e.finished && Allowed(e.authors, first)
    modifies e
    ensures a == Resolved && b == Closed
  {
    a := e.Execute(first);
    b := e.Execute(second);
  }

  datatype ComponentType = Button | TextSelectMenu | UserSelectMenu | RoleSelectMenu | MentionableSelectMenu | ChannelSelectMenu
  {
    function Name(): string
    {
      match this
      case Button => "BUTTON"
      case TextSelectMenu => "TEXT_SELECT_MENU"
      case UserSelectMenu => "USER_SELECT_MENU"
      case RoleSelectMenu => "ROLE_SELECT_MENU"
      case MentionableSelectMenu => "MENTIONABLE_SELECT_MENU"
      case ChannelSelectMenu => "CHANNEL_SELECT_MENU"
    }
  }

  /** The builders an action row holds. */
  datatype Builder =
    | InteractiveButton(customId: string)
    | LinkButton(url: string)
    | SelectMenu(menuType: ComponentType, customId: string)
    | OtherBuilder(id: nat)

  /** What a button is given: a callback (interactive styles) or a URL. */
  datatype ButtonTarget = ButtonCallback(callback: Callback) | ButtonUrl(url: string)

  /** `ActionRowExecutor`: its callback table and its row of components,
    * which the typed adders keep to a single component type. */
  class ActionRowExecutor {
    var callbacks: map<string, Callback>
    var components: seq<Builder>
    var storedType: Option<ComponentType>

    constructor ()
      ensures callbacks == map[] && components == [] && storedType.None?
    {
      callbacks := map[];
      components := [];
      storedType := None;
    }

    /** `_assert_can_add_type`: ValueError for a type other than the stored
      * one; otherwise the type is stored. */
    method AssertCanAddType(t: ComponentType) returns (r: Result<Unit>)
      modifies this
      ensures callbacks == old(callbacks) && components == old(components)
      ensures r.Failure? <==> old(storedType).Some? && old(storedType) != Some(t)
      ensures r.Failure? ==>
        storedType == old(storedType) &&
        r.error == ValueError(t.Name() + " component type cannot be added to a container which already holds " + t.Name())
      ensures r.Success? ==> storedType == Some(t)
    {
      if storedType.Some? && storedType != Some(t) {
        return Failure(ValueError(t.Name() + " component type cannot be added to a container which already holds " + t.Name()));
      }
      storedType := Some(t);
      r := Success(Unit);
    }

    /** `add_component` appends without a type check. */
    method AddComponent(b: Builder)
      modifies this
      ensures components == old(components) + [b]
      ensures callbacks == old(callbacks) && storedType == old(storedType)
    {
      components := components + [b];
    }

    /** `add_button`: the row's type must be (or become) BUTTON; an
      * interactive button needs a callback and gets the given or a random
      * custom id; a link button needs a URL. The type is stored even when
      * the target is then refused. `typeName` is the text of the target's
      * `type(...)`, which both refusals end with. */
    method AddButton(interactive: bool, target: ButtonTarget, customId: Option<string>, randomId: string,
                     typeName: string)
      returns (r: Result<Unit>)
      modifies this
      ensures (old(storedType).None? || old(storedType) == Some(Button)) && interactive && target.ButtonUrl? ==>
        r == Failure(ValueError("Callback must be passed for an interactive button, not " + typeName))
      ensures (old(storedType).None? || old(storedType) == Some(Button)) && !interactive && !target.ButtonUrl? ==>
        r == Failure(TypeError("String url must be passed for Link style buttons, not " + typeName))
      ensures old(storedType).Some? && old(storedType) != Some(Button) ==>
        r.Failure? && r.error.ValueError? && storedType == old(storedType) &&
        callbacks == old(callbacks) && components == old(components)
      ensures old(storedType).None? || old(storedType) == Some(Button) ==> storedType == Some(Button)
      ensures r.Failure? ==> callbacks == old(callbacks) && components == old(components)
      ensures r.Success? <==>
        (old(storedType).None? || old(storedType) == Some(Button)) && (interactive <==> target.ButtonCallback?)
      ensures r.Success? && interactive ==>
        var id := customId.UnwrapOr(randomId);
        callbacks == old(callbacks)[id := target.callback] && components == old(components) + [InteractiveButton(id)]
      ensures r.Success? && !interactive ==>
        callbacks == old(callbacks) && components == old(components) + [LinkButton(target.url)]
    {
      r := AssertCanAddType(Button);
      if r.Failure? {
        return;
      }
      if interactive {
        var id := customId.UnwrapOr(randomId);
        if target.ButtonUrl? {
          return Failure(ValueError("Callback must be passed for an interactive button, not " + typeName));
        }
        callbacks := callbacks[id := target.callback];
        AddComponent(InteractiveButton(id));
        return Success(Unit);
      }
      if !target.ButtonUrl? {
        return Failure(TypeError("String url must be passed for Link style buttons, not " + typeName));
      }
      AddComponent(LinkButton(target.url));
      r := Success(Unit);
    }

    /** `add_select_menu`: the row's type must be (or become) the menu's
      * type. The type is not checked to be a select menu type: a BUTTON
      * passed here is built as a menu of that type. */
    method AddSelectMenu(menuType: ComponentType, callback: Callback, customId: Option<string>, randomId: string)
      returns (r: Result<Unit>)
      modifies this
      ensures r.Failure? <==> old(storedType).Some? && old(storedType) != Some(menuType)
      ensures r.Failure? ==>
        r.error == ValueError(menuType.Name() + " component type cannot be added to a container which already holds " + menuType.Name()) &&
        callbacks == old(callbacks) && components == old(components) && storedType == old(storedType)
      ensures r.Success? ==>
        var id := customId.UnwrapOr(randomId);
        storedType == Some(menuType) && callbacks == old(callbacks)[id := callback] &&
        components == old(components) + [SelectMenu(menuType, id)]
    {
      var id := customId.UnwrapOr(randomId);
      r := AssertCanAddType(menuType);
      if r.Failure? {
        return;
      }
      callbacks := callbacks[id := callback];
      AddComponent(SelectMenu(menuType, id));
    }
  }

  /** The type of a row's components once set never changes, so the typed
    * adders keep a row to one component type. */
  method ActionRowHoldsOneType(row: ActionRowExecutor, callback: Callback, randomId: string)
    returns (r1: Result<Unit>, r2: Result<Unit>)
    requires row.storedType.None?
    modifies row
    ensures r1.Success? && r2.Failure? && r2.error.ValueError?
    ensures row.components == old(row.components) + [InteractiveButton(randomId)]
  {
    r1 := row.AddButton(true, ButtonCallback(callback), None, randomId, "<class 'function'>");
    r2 := row.AddSelectMenu(TextSelectMenu, callback, None, randomId);
  }

  /** `MultiComponentExecutor`: child executors tried in order. */
  class MultiComponentExecutor {
    var executors: seq<ExecutorId>
    var builders: seq<nat>
    const lastTriggered: int
    const timeout: int

    constructor (timeout: int, now: int)
      ensures executors == [] && builders == [] && this.timeout == timeout && lastTriggered == now
    {
      executors := [];
      builders := [];
      this.timeout := timeout;
      lastTriggered := now;
    }

    /** Expired once more than `timeout` has passed since it was made; the
      * clock is never restarted, so an expired executor stays expired. */
    function HasExpired(now: int): (r: bool)
      reads this
      ensures r <==> HasExpiredAt(lastTriggered, timeout, now)
    {
      timeout < now - lastTriggered
    }

    method AddBuilder(b: nat)
      modifies this
      ensures builders == old(builders) + [b] && executors == old(executors)
    {
      builders := builders + [b];
    }

    method AddExecutor(e: ExecutorId)
      modifies this
      ensures executors == old(executors) + [e] && builders == old(builders)
    {
      executors := executors + [e];
    }

    /** `add_action_row`: the new child row is both an executor and a
      * builder. */
    method AddActionRow(child: ExecutorId)
      modifies this
      ensures executors == old(executors) + [child] && builders == old(builders) + [child]
    {
      AddExecutor(child);
      AddBuilder(child);
    }

    /** `execute`: the first child whose custom ids include the
      * interaction's; KeyError when none does. */
    method Execute(customId: string, customIds: ExecutorId -> set<string>) returns (r: Result<ExecutorId>)
      ensures r.Failure? <==> forall i :: 0 <= i < |executors| ==> customId !in customIds(executors[i])
      ensures r.Failure? ==> r.error == KeyError
      ensures r.Success? ==>
        exists i :: 0 <= i < |executors| && executors[i] == r.value && customId in customIds(executors[i]) &&
          forall j :: 0 <= j < i ==> customId !in customIds(executors[j])
    {
      var i := 0;
      while i < |executors|
        invariant 0 <= i <= |executors|
        invariant forall j :: 0 <= j < i ==> customId !in customIds(executors[j])
      {
        if customId in customIds(executors[i]) {
          return Success(executors[i]);
        }
        i := i + 1;
      }
      r := Failure(KeyError);
    }
  }

  /** Once expired, expired at every later time. */
  lemma MultiExecutorExpiryLasts(e: MultiComponentExecutor, now: int, later: int)
    requires now <= later && e.HasExpired(now)
    ensures e.HasExpired(later)
  {
  }

  // ---------------------------------------------------------------------
  // ComponentPaginator

  /** How a paginator button answers its interaction. */
  datatype PageAction<T> =
    | Noop                               // an empty MESSAGE_UPDATE
    | ShowPage(page: T)                  // MESSAGE_UPDATE to the page
    | DeferThenShow(page: T)             // defer, then edit to the page
    | LoadThenShow(last: Option<T>)      // a "loading" update, then the edit
    | DeleteAndClose                     // delete the message, raise ExecutorClosed
    | NotAuthor                          // ephemeral "You are not allowed to use this component"

  /** `get_next_entry`: step within the buffer when a later page is
    * buffered; else pull one page from the source; else nothing changes. */
  function NextEntry<T>(c: Internal.Cursor<T>): (r: (Option<T>, Internal.Cursor<T>))
    requires c.Placed()
    ensures r.0.None? ==> r.1 == c
    ensures r.0.Some? ==> r.1.index == c.index + 1
    ensures c.InRange() && r.0.Some? ==> r.1.index < |r.1.buffer| && r.0.value == r.1.buffer[r.1.index]
  {
    if |c.buffer| >= c.index + 2 then (Some(c.buffer[c.index + 1]), c.(index := c.index + 1))
    else if c.source.Some? && |c.source.value| > 0 then
      (Some(c.source.value[0]), Internal.Cursor(c.buffer + [c.source.value[0]], c.index + 1, Some(c.source.value[1..])))
    else (None, c)
  }

  /** `get_next_entry` serves the pages in order: the page after the
    * current one when there is one, else None with nothing changed. */
  lemma NextEntryServesPages<T>(c: Internal.Cursor<T>)
    requires c.InRange()
    ensures var (r, d) := NextEntry(c);
      d.InRange() && d.Pages() == c.Pages() &&
      (c.index + 1 < |c.Pages()| ==> r == Some(c.Pages()[c.index + 1]) && d.index == c.index + 1) &&
      (c.index + 1 >= |c.Pages()| ==> r.None? && d == c)
  {
    var (r, d) := NextEntry(c);
    if |c.buffer| < c.index + 2 && c.source.Some? && |c.source.value| > 0 {
      assert d.Pages() == c.buffer + [c.source.value[0]] + c.source.value[1..];
      assert c.source.value == [c.source.value[0]] + c.source.value[1..];
    }
  }

  /** `_on_first`: nothing at index 0; else the first page (pulled when
    * the buffer is empty), and the index moves to 0. */
  function FirstStep<T>(c: Internal.Cursor<T>): (r: (PageAction<T>, Internal.Cursor<T>))
    requires c.InRange()
    ensures r.0.Noop? || r.0.ShowPage?
    ensures c.index == 0 ==> r == (Noop, c)
    ensures r.0.ShowPage? ==> r.1.index == 0 && |r.1.buffer| > 0 && r.0.page == r.1.buffer[0]
  {
    if c.index == 0 then (Noop, c)
    else if |c.buffer| > 0 then (ShowPage(c.buffer[0]), c.(index := 0))
    else
      var (e, d) := NextEntry(c);
      if e.Some? then (ShowPage(e.value), d.(index := 0)) else (Noop, d)
  }

  /** `_on_previous`: moves back only when `_index > 0`. */
  function PreviousStep<T>(c: Internal.Cursor<T>): (r: (PageAction<T>, Internal.Cursor<T>))
    requires c.Placed()
    ensures r.0.ShowPage? <==> c.index > 0
    ensures r.0.ShowPage? ==> r.1 == c.(index := c.index - 1) && r.0.page == c.buffer[c.index - 1]
    ensures !r.0.ShowPage? ==> r == (Noop, c)
  {
    if c.index > 0 then (ShowPage(c.buffer[c.index - 1]), c.(index := c.index - 1)) else (Noop, c)
  }

  /** `_on_last`: with a source, drain it into the buffer, drop it and
    * point at the last page; without one, jump to the last buffered page. */
  function LastStep<T>(c: Internal.Cursor<T>): (r: (PageAction<T>, Internal.Cursor<T>))
    requires c.InRange()
    ensures r.1.source.None? && r.1.index == |r.1.buffer| - 1
    ensures r.0.LoadThenShow? <==> c.source.Some?
    ensures r.0.LoadThenShow? ==> (r.0.last.Some? <==> |r.1.buffer| > 0)
    ensures r.0.LoadThenShow? && r.0.last.Some? ==> r.0.last.value == r.1.buffer[r.1.index]
    ensures r.0.ShowPage? ==> 0 <= r.1.index < |r.1.buffer| && r.0.page == r.1.buffer[r.1.index]
  {
    if c.source.Some? then
      var b := c.buffer + c.source.value;
      (LoadThenShow(if |b| > 0 then Some(b[|b| - 1]) else None), Internal.Cursor(b, |b| - 1, None))
    else if |c.buffer| > 0 then (ShowPage(c.buffer[|c.buffer| - 1]), c.(index := |c.buffer| - 1))
    else (Noop, c)
  }

  /** `_on_next`. */
  function NextStep<T>(c: Internal.Cursor<T>): (r: (PageAction<T>, Internal.Cursor<T>))
    requires c.InRange()
    ensures r.0.Noop? || r.0.DeferThenShow?
    ensures r.0.Noop? ==> r.1 == c
    ensures r.0.DeferThenShow? ==>
      r.1.index == c.index + 1 && r.1.index < |r.1.buffer| && r.0.page == r.1.buffer[r.1.index]
  {
    var (e, d) := NextEntry(c);
    if e.Some? then (DeferThenShow(e.value), d) else (Noop, d)
  }

  /** `_on_disable`: the source is dropped and the executor closes. */
  function DisableStep<T>(c: Internal.Cursor<T>): (PageAction<T>, Internal.Cursor<T>)
  {
    (DeleteAndClose, c.(source := None))
  }

  /** Every button keeps the index in range, and every button but stop
    * keeps the reachable pages; a page shown is the page at the new
    * index. */
  lemma ButtonsKeepCursor<T>(c: Internal.Cursor<T>)
    requires c.InRange()
    ensures var (a, d) := FirstStep(c);
      d.InRange() && d.Pages() == c.Pages() && (a.ShowPage? ==> d.index == 0 && a.page == d.Pages()[0])
    ensures var (a, d) := PreviousStep(c);
      d.InRange() && d.Pages() == c.Pages() && (a.ShowPage? <==> c.index > 0) &&
      (a.ShowPage? ==> d.index == c.index - 1 && a.page == d.buffer[d.index])
    ensures var (a, d) := NextStep(c);
      d.InRange() && d.Pages() == c.Pages() && (a.DeferThenShow? <==> c.index + 1 < |c.Pages()|) &&
      (a.DeferThenShow? ==> d.index == c.index + 1 && a.page == d.Pages()[d.index])
    ensures var (a, d) := LastStep(c);
      d.InRange() && d.Pages() == c.Pages() &&
      (c.source.Some? || |c.buffer| > 0 ==> d.source.None? && d.buffer == c.Pages() && d.index == |c.Pages()| - 1)
  {
    NextEntryServesPages(c);
  }

  /** `ComponentPaginator`: the cursor over a forward-only source. */
  class ComponentPaginator<T> {
    var buffer: seq<T>
    var index: int
    /** The source; null once dropped. */
    var source: Internal.Iterator?<T>
    const authors: Option<set<Snowflake>>
    const ephemeralDefault: bool

    ghost predicate Valid()
      reads this, source
    {
      -1 <= index < |buffer| && (source != null ==> source.Valid())
    }

    function Snapshot(): (c: Internal.Cursor<T>)
      reads this, source
      requires Valid()
      ensures c.InRange()
    {
      Internal.Cursor(buffer, index, if source == null then None else Some(source.Remaining()))
    }

    constructor (source: Internal.Iterator<T>, authors: Option<set<Snowflake>>, ephemeralDefault: bool)
      requires source.Valid()
      ensures Valid() && Snapshot() == Internal.Cursor([], -1, Some(source.Remaining()))
      ensures this.source == source && this.authors == AuthorFilter(authors)
    {
      buffer := [];
      index := -1;
      this.source := source;
      this.authors := AuthorFilter(authors);
      this.ephemeralDefault := ephemeralDefault;
    }

    method GetNextEntry() returns (r: Option<T>)
      requires Valid()
      modifies this, source
      ensures Valid() && source == old(source)
      ensures (r, Snapshot()) == NextEntry(old(Snapshot()))
    {
      if |buffer| >= index + 2 {
        index := index + 1;
        return Some(buffer[index]);
      }
      if source != null {
        var entry := source.SeekIterator();
        if entry.Some? {
          index := index + 1;
          buffer := buffer + [entry.value];
          return entry;
        }
      }
      r := None;
    }

    method OnFirst() returns (r: PageAction<T>)
      requires Valid()
      modifies this, source
      ensures Valid() && source == old(source)
      ensures (r, Snapshot()) == FirstStep(old(Snapshot()))
    {
      if index == 0 {
        return Noop;
      }
      if |buffer| > 0 {
        index := 0;
        return ShowPage(buffer[0]);
      }
      var e := GetNextEntry();
      if e.Some? {
        index := 0;
        return ShowPage(e.value);
      }
      r := Noop;
    }

    method OnPrevious() returns (r: PageAction<T>)
      requires Valid()
      modifies this
      ensures Valid()
      ensures (r, Snapshot()) == PreviousStep(old(Snapshot()))
    {
      if index > 0 {
        index := index - 1;
        return ShowPage(buffer[index]);
      }
      r := Noop;
    }

    method OnDisable() returns (r: PageAction<T>)
      requires Valid()
      modifies this
      ensures Valid()
      ensures (r, Snapshot()) == DisableStep(old(Snapshot()))
    {
      source := null;
      r := DeleteAndClose;
    }

    method OnLast() returns (r: PageAction<T>)
      requires Valid()
      modifies this, source
      ensures Valid()
      ensures (r, Snapshot()) == LastStep(old(Snapshot()))
    {
      if source != null {
        var rest := source.CollectIterable();
        buffer := buffer + rest;
        index := |buffer| - 1;
        source := null;
        if |buffer| > 0 {
          return LoadThenShow(Some(buffer[index]));
        }
        return LoadThenShow(None);
      }
      if |buffer| > 0 {
        index := |buffer| - 1;
        return ShowPage(buffer[|buffer| - 1]);
      }
      r := Noop;
    }

    method OnNext() returns (r: PageAction<T>)
      requires Valid()
      modifies this, source
      ensures Valid() && source == old(source)
      ensures (r, Snapshot()) == NextStep(old(Snapshot()))
    {
      var e := GetNextEntry();
      if e.Some? {
        return DeferThenShow(e.value);
      }
      r := Noop;
    }

    /** `execute`'s author gate: a non-author is refused and the cursor
      * does not move. */
    method Execute(user: Snowflake, button: PaginatorButton) returns (r: PageAction<T>)
      requires Valid()
      modifies this, source
      ensures Valid()
      ensures !Allowed(authors, user) ==> r == NotAuthor && Snapshot() == old(Snapshot())
      ensures Allowed(authors, user) ==> (r, Snapshot()) == ButtonStep(button, old(Snapshot()))
    {
      if authors.Some? && user !in authors.value {
        return NotAuthor;
      }
      match button
      case First => r := OnFirst();
      case Previous => r := OnPrevious();
      case Stop => r := OnDisable();
      case Next => r := OnNext();
      case Last => r := OnLast();
    }
  }

  datatype PaginatorButton = First | Previous | Stop | Next | Last

  /** The step a paginator button takes: stop deletes and closes, every
    * other button keeps the index in range and the reachable pages. */
  function ButtonStep<T>(b: PaginatorButton, c: Internal.Cursor<T>): (r: (PageAction<T>, Internal.Cursor<T>))
    requires c.InRange()
    ensures r.0 == DeleteAndClose <==> b == Stop
    ensures b != Stop ==> r.1.InRange() && r.1.Pages() == c.Pages()
  {
    ButtonsKeepCursor(c);
    match b
    case First => FirstStep(c)
    case Previous => PreviousStep(c)
    case Stop => DisableStep(c)
    case Next => NextStep(c)
    case Last => LastStep(c)
  }
}
