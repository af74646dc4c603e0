/** Modals (yuyo/modals.py): the modal client's routing tables, a modal
  * context's deferral, a modal's expiry and its text-input fields. Modals
  * are opaque ids; whether one has expired and whether its run raises
  * `ModalClosed` are given as functions. */
module Modals {
  import opened Wrappers
  import opened Interactions
  import Components

  type ModalId = nat

  const MODAL_TIMED_OUT := "This modal has timed-out."

  /** What dispatching a modal interaction leads to. `TimedOut` is the
    * ephemeral "This modal has timed-out." reply. */
  datatype ModalDispatch = RunConstant(modal: ModalId) | RunModal(modal: ModalId) | TimedOut

  class ModalClient {
    var constantIds: map<string, ModalId>
    var prefixIds: seq<(string, ModalId)>
    /** `_modals`, keyed by custom id. */
    var modals: map<string, ModalId>
    var isOpen: bool

    ghost predicate Valid()
      reads this
    {
      Components.DistinctKeys(prefixIds) && constantIds.Keys !! Components.Keys(prefixIds)
    }

    constructor ()
      ensures Valid() && constantIds == map[] && prefixIds == [] && modals == map[] && !isOpen
    {
      constantIds := map[];
      prefixIds := [];
      modals := map[];
      isOpen := false;
    }

    /** `_match_constant_id`: an exact id first, else the first-inserted
      * matching prefix. */
    function MatchConstantId(customId: string): (r: Option<ModalId>)
      reads this
      ensures customId in constantIds ==> r == Some(constantIds[customId])
      ensures customId !in constantIds ==>
        (r.None? <==> forall j :: 0 <= j < |prefixIds| ==> !(prefixIds[j].0 <= customId))
      ensures customId !in constantIds && r.Some? ==>
        exists i :: 0 <= i < |prefixIds| && prefixIds[i].0 <= customId && r.value == prefixIds[i].1 &&
          forall j :: 0 <= j < i ==> !(prefixIds[j].0 <= customId)
    {
      if customId in constantIds then Some(constantIds[customId])
      else match Components.FirstPrefix(prefixIds, customId)
        case None => None
        case Some(i) => Some(prefixIds[i].1)
    }

    function GetConstantId(customId: string): (r: Option<ModalId>)
      reads this
      ensures r.None? <==> customId !in constantIds && customId !in Components.Keys(prefixIds)
      ensures customId in constantIds ==> r == Some(constantIds[customId])
    {
      if customId in constantIds then Some(constantIds[customId]) else Components.Lookup(prefixIds, customId)
    }

    /** `set_constant_id`: ValueError for an id already in either table;
      * `repr` stands for Python's `repr` of the id. */
    method SetConstantId(customId: string, modal: ModalId, prefixMatch: bool, repr: string -> string)
      returns (r: Result<Unit>)
      requires Valid()
      modifies this
      ensures Valid() && modals == old(modals) && isOpen == old(isOpen)
      ensures r.Failure? <==> customId in old(constantIds) || customId in Components.Keys(old(prefixIds))
      ensures r.Failure? ==> constantIds == old(constantIds) && prefixIds == old(prefixIds)
      ensures r.Failure? && customId in Components.Keys(old(prefixIds)) ==>
        r.error == ValueError(repr(customId) + " is already registered as a prefix match")
      ensures r.Failure? && customId !in Components.Keys(old(prefixIds)) ==>
        r.error == ValueError(repr(customId) + " is already registered as a constant id")
      ensures r.Success? && prefixMatch ==>
        prefixIds == old(prefixIds) + [(customId, modal)] && constantIds == old(constantIds)
      ensures r.Success? && !prefixMatch ==>
        constantIds == old(constantIds)[customId := modal] && prefixIds == old(prefixIds)
      ensures r.Success? ==> GetConstantId(customId) == Some(modal)
    {
      if customId in Components.Keys(prefixIds) {
        return Failure(ValueError(repr(customId) + " is already registered as a prefix match"));
      }
      if customId in constantIds {
        return Failure(ValueError(repr(customId) + " is already registered as a constant id"));
      }
      if prefixMatch {
        Components.KeysHasEntries(prefixIds);
        Components.KeysAppend(prefixIds, customId, modal);
        Components.LookupAppended(prefixIds, customId, modal);
        prefixIds := prefixIds + [(customId, modal)];
        return Success(Unit);
      }
      constantIds := constantIds[customId := modal];
      r := Success(Unit);
    }

    /** `remove_constant_id`: exact table, else prefix table, else
      * KeyError. */
    method RemoveConstantId(customId: string) returns (r: Result<Unit>)
      requires Valid()
      modifies this
      ensures Valid() && modals == old(modals) && isOpen == old(isOpen)
      ensures r.Failure? <==> customId !in old(constantIds) && customId !in Components.Keys(old(prefixIds))
      ensures r.Failure? ==> r.error == KeyError && constantIds == old(constantIds) && prefixIds == old(prefixIds)
      ensures customId in old(constantIds) ==>
        constantIds == old(constantIds) - {customId} && prefixIds == old(prefixIds)
      ensures customId !in old(constantIds) && r.Success? ==>
        constantIds == old(constantIds) && prefixIds == Components.RemoveKey(old(prefixIds), customId)
      ensures GetConstantId(customId).None?
    {
      if customId in constantIds {
        assert customId !in Components.Keys(prefixIds);
        constantIds := constantIds - {customId};
        return Success(Unit);
      }
      if customId !in Components.Keys(prefixIds) {
        return Failure(KeyError);
      }
      var rest := Components.RemoveKey(prefixIds, customId);
      assert Components.Keys(rest) == Components.Keys(prefixIds) - {customId};
      assert Components.DistinctKeys(rest);
      prefixIds := rest;
      r := Success(Unit);
    }

    /** `open` is idempotent. */
    method Open()
      modifies this
      ensures isOpen
      ensures constantIds == old(constantIds) && prefixIds == old(prefixIds) && modals == old(modals)
    {
      if isOpen {
        return;
      }
      isOpen := true;
    }

    /** `close` is idempotent and, when open, empties `_modals`. */
    method Close()
      modifies this
      ensures !isOpen
      ensures constantIds == old(constantIds) && prefixIds == old(prefixIds)
      ensures modals == if old(isOpen) then map[] else old(modals)
    {
      if !isOpen {
        return;
      }
      isOpen := false;
      modals := map[];
    }

    /** One sweep of `_gc`: every expired modal is deleted. */
    method Gc(hasExpired: ModalId -> bool)
      modifies this
      ensures modals == map k | k in old(modals) && !hasExpired(old(modals)[k]) :: old(modals)[k]
      ensures constantIds == old(constantIds) && prefixIds == old(prefixIds) && isOpen == old(isOpen)
    {
      var pending := modals.Keys;
      ghost var start := modals;
      while pending != {}
        invariant pending <= start.Keys
        invariant modals.Keys <= start.Keys
        invariant forall k :: k in modals ==> modals[k] == start[k]
        invariant forall k :: k in start && k !in pending ==> (k in modals <==> !hasExpired(start[k]))
        invariant forall k :: k in pending ==> k in modals
        invariant constantIds == old(constantIds) && prefixIds == old(prefixIds) && isOpen == old(isOpen)
        decreases pending
      {
        var k :| k in pending;
        if hasExpired(modals[k]) {
          modals := modals - {k};
        }
        pending := pending - {k};
      }
    }

    /** `on_gateway_event`: a constant or prefix modal first (its run
      * touches no table), then the modal registered under the custom id
      * (removed if it raises `ModalClosed`), else the timed-out reply. */
    method OnGatewayEvent(customId: string, raisesClosed: ModalId -> bool) returns (r: ModalDispatch)
      modifies this
      ensures constantIds == old(constantIds) && prefixIds == old(prefixIds) && isOpen == old(isOpen)
      ensures old(MatchConstantId(customId)).Some? ==>
        r == RunConstant(old(MatchConstantId(customId)).value) && modals == old(modals)
      ensures old(MatchConstantId(customId)).None? && customId in old(modals) ==>
        r == RunModal(old(modals)[customId]) &&
        modals == if raisesClosed(old(modals)[customId]) then old(modals) - {customId} else old(modals)
      ensures old(MatchConstantId(customId)).None? && customId !in old(modals) ==>
        r == TimedOut && modals == old(modals)
    {
      var constant := MatchConstantId(customId);
      if constant.Some? {
        return RunConstant(constant.value);
      }
      if customId in modals {
        var m := modals[customId];
        if raisesClosed(m) {
          modals := modals - {customId};
        }
        return RunModal(m);
      }
      r := TimedOut;
    }

    /** `on_rest_request`: as the gateway path, except that an expired
      * modal is deleted and answered with the timed-out reply (a constant
      * modal's `ModalClosed` is only logged). */
    method OnRestRequest(customId: string, hasExpired: ModalId -> bool, raisesClosed: ModalId -> bool)
      returns (r: ModalDispatch)
      modifies this
      ensures constantIds == old(constantIds) && prefixIds == old(prefixIds) && isOpen == old(isOpen)
      ensures old(MatchConstantId(customId)).Some? ==>
        r == RunConstant(old(MatchConstantId(customId)).value) && modals == old(modals)
      ensures old(MatchConstantId(customId)).None? && customId in old(modals) && !hasExpired(old(modals)[customId]) ==>
        r == RunModal(old(modals)[customId]) &&
        modals == if raisesClosed(old(modals)[customId]) then old(modals) - {customId} else old(modals)
      ensures old(MatchConstantId(customId)).None? && customId in old(modals) && hasExpired(old(modals)[customId]) ==>
        r == TimedOut && modals == old(modals) - {customId}
      ensures old(MatchConstantId(customId)).None? && customId !in old(modals) ==>
        r == TimedOut && modals == old(modals)
    {
      var constant := MatchConstantId(customId);
      if constant.Some? {
        return RunConstant(constant.value);
      }
      if customId in modals {
        var m := modals[customId];
        if !hasExpired(m) {
          if raisesClosed(m) {
            modals := modals - {customId};
          }
          return RunModal(m);
        }
        modals := modals - {customId};
      }
      r := TimedOut;
    }
  }

  /** A modal context's deferral. The context's flag resolution for
    * undefined or non-ephemeral flags (`_get_flags`) belongs to a base
    * class that is not part of this model, so it is a parameter. */
  class ModalContext {
    var hasBeenDeferred: bool
    const viaFuture: bool
    ghost var calls: seq<Call>

    constructor (viaFuture: bool)
      ensures !hasBeenDeferred && calls == [] && this.viaFuture == viaFuture
    {
      hasBeenDeferred := false;
      this.viaFuture := viaFuture;
      calls := [];
    }

    /** `defer`: always a deferred create; `ephemeral=True` ORs EPHEMERAL
      * into `flags or NONE`; RuntimeError on a second deferral. */
    method Defer(ephemeral: bool, flags: Option<nat>, getFlags: Option<nat> -> nat) returns (r: Result<Unit>)
      modifies this
      ensures r.Failure? <==> old(hasBeenDeferred)
      ensures r.Failure? ==> r.error == RuntimeError("Context has already been responded to") && calls == old(calls)
      ensures hasBeenDeferred
      ensures r.Success? ==>
        var f := if ephemeral then SetEphemeral(flags.UnwrapOr(0)) else getFlags(flags);
        calls == old(calls) + [Deliver(viaFuture, DeferredMessageCreate, f)]
      ensures r.Success? && ephemeral ==> IsEphemeral(calls[|calls| - 1].flags)
    {
      var f := if ephemeral then SetEphemeral(flags.UnwrapOr(0)) else getFlags(flags);
      if hasBeenDeferred {
        return Failure(RuntimeError("Context has already been responded to"));
      }
      hasBeenDeferred := true;
      calls := calls + [Deliver(viaFuture, DeferredMessageCreate, f)];
      r := Success(Unit);
    }
  }

  /** A text input row as `_make_text_input` builds it. */
  datatype TextInput = TextInput(customId: string, fieldLabel: string, required: bool, minLength: int, maxLength: int)

  /** A field whose text is passed to the callback under `key`; `default`
    * None stands for NO_DEFAULT. */
  datatype TrackedField = TrackedField(customId: string, default: Option<string>, key: string, prefixMatch: bool)

  /** `_make_text_input`: the given or a random custom id; the input is
    * required exactly when there is no default. */
  function MakeTextInput(fieldLabel: string, customId: Option<string>, randomId: string, default: Option<string>,
                         minLength: int, maxLength: int): (r: (string, TextInput))
    ensures r.0 == (if customId.Some? then customId.value else randomId) && r.1.customId == r.0
    ensures r.1.required <==> default.None?
    ensures r.1.fieldLabel == fieldLabel && r.1.minLength == minLength && r.1.maxLength == maxLength
  {
    var id := customId.UnwrapOr(randomId);
    (id, TextInput(id, fieldLabel, default.None?, minLength, maxLength))
  }

  /** A field is tracked only under a truthy keyword. */
  function TrackedFor(id: string, default: Option<string>, keyword: Option<string>, prefixMatch: bool): (r: seq<TrackedField>)
    ensures |r| == (if keyword.Some? && keyword.value != "" then 1 else 0)
    ensures |r| == 1 ==> r[0] == TrackedField(id, default, keyword.value, prefixMatch)
  {
    if keyword.Some? && keyword.value != "" then [TrackedField(id, default, keyword.value, prefixMatch)] else []
  }

  class Modal {
    var rows: seq<TextInput>
    var trackedFields: seq<TrackedField>
    const ephemeralDefault: bool
    /** None: the modal never times out. */
    const timeout: Option<int>
    const lastTriggered: int

    constructor (ephemeralDefault: bool, timeout: Option<int>, now: int)
      ensures rows == [] && trackedFields == [] && this.timeout == timeout && lastTriggered == now
    {
      rows := [];
      trackedFields := [];
      this.ephemeralDefault := ephemeralDefault;
      this.timeout := timeout;
      lastTriggered := now;
    }

    /** `has_expired`: never without a timeout; otherwise once more than the
      * timeout has passed since the last trigger. */
    function HasExpired(now: int): (r: bool)
      reads this
      ensures timeout.None? ==> !r
      ensures timeout.Some? ==> (r <==> now > lastTriggered + timeout.value)
    {
      timeout.Some? && timeout.value < now - lastTriggered
    }

    /** `add_text_input`: appends a row, and a tracked field when a keyword
      * is given. */
    method AddTextInput(fieldLabel: string, customId: Option<string>, randomId: string, default: Option<string>,
                        minLength: int, maxLength: int, prefixMatch: bool, keyword: Option<string>)
      modifies this
      ensures var (id, row) := MakeTextInput(fieldLabel, customId, randomId, default, minLength, maxLength);
        rows == old(rows) + [row] && trackedFields == old(trackedFields) + TrackedFor(id, default, keyword, prefixMatch)
    {
      var (id, row) := MakeTextInput(fieldLabel, customId, randomId, default, minLength, maxLength);
      rows := rows + [row];
      trackedFields := trackedFields + TrackedFor(id, default, keyword, prefixMatch);
    }
  }

  /** A modal class's static fields and rows (class-level state). */
  class ModalClass {
    /** Whether this is `Modal` itself rather than a subclass. */
    const isBase: bool
    var staticFields: seq<TrackedField>
    var staticRows: seq<TextInput>

    constructor (isBase: bool)
      ensures this.isBase == isBase && staticFields == [] && staticRows == []
    {
      this.isBase := isBase;
      staticFields := [];
      staticRows := [];
    }

    /** `add_static_text_input`: RuntimeError on `Modal` itself; otherwise
      * as `add_text_input`, on the class. */
    method AddStaticTextInput(fieldLabel: string, customId: Option<string>, randomId: string, default: Option<string>,
                              minLength: int, maxLength: int, prefixMatch: bool, keyword: Option<string>)
      returns (r: Result<Unit>)
      modifies this
      ensures r.Failure? <==> isBase
      ensures r.Failure? ==>
        r.error == RuntimeError("Can only add static fields to subclasses") &&
        staticFields == old(staticFields) && staticRows == old(staticRows)
      ensures r.Success? ==>
        var (id, row) := MakeTextInput(fieldLabel, customId, randomId, default, minLength, maxLength);
        staticRows == old(staticRows) + [row] &&
        staticFields == old(staticFields) + TrackedFor(id, default, keyword, prefixMatch)
    {
      if isBase {
        return Failure(RuntimeError("Can only add static fields to subclasses"));
      }
      var (id, row) := MakeTextInput(fieldLabel, customId, randomId, default, minLength, maxLength);
      staticFields := staticFields + TrackedFor(id, default, keyword, prefixMatch);
      staticRows := staticRows + [row];
      r := Success(Unit);
    }
  }
}
