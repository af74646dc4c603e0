/** The response state machine shared by component and modal interaction
  * contexts (yuyo/interactions.py).
  *
  * A context remembers whether it has responded, whether it has deferred
  * and the id of its last follow-up message; these three fields decide
  * whether a call creates, edits, follows up or raises. Calls made to
  * Discord (or to the REST server's response future) are appended to a
  * ghost log; message contents are not modelled. */
module Interactions {
  import opened Wrappers

  type Snowflake = nat

  /** `hikari.MessageFlag.EPHEMERAL` is bit 6 (value 64). */
  const EPHEMERAL: nat := 64
  /** `_INTERACTION_LIFETIME`: 15 minutes, in seconds. */
  const INTERACTION_LIFETIME: int := 15 * 60

  predicate IsEphemeral(f: nat)
  {
    (f / 64) % 2 == 1
  }

  /** The flag bits other than EPHEMERAL: those above it and those below. */
  function OtherBits(f: nat): (nat, nat)
  {
    (f / 128, f % 64)
  }

  /** A flag value is fully determined by its EPHEMERAL bit and the others. */
  lemma FlagsDetermined(a: nat, b: nat)
    requires IsEphemeral(a) == IsEphemeral(b) && OtherBits(a) == OtherBits(b)
    ensures a == b
  {
    assert a == 128 * (a / 128) + 64 * ((a / 64) % 2) + a % 64;
    assert b == 128 * (b / 128) + 64 * ((b / 64) % 2) + b % 64;
  }

  /** A flag value with EPHEMERAL bit `b` built from the other bits. */
  lemma FlagsCompose(q: nat, b: nat, m: nat)
    requires b < 2 && m < 64
    ensures var f := 128 * q + 64 * b + m; f / 128 == q && f % 64 == m && (f / 64) % 2 == b
  {
    var f := 128 * q + 64 * b + m;
    assert f == 64 * (2 * q + b) + m;
    assert f / 64 == 2 * q + b;
    assert f == 128 * q + (64 * b + m) && 64 * b + m < 128;
  }

  /** `flags | EPHEMERAL`. */
  function SetEphemeral(f: nat): (r: nat)
    ensures IsEphemeral(r) && OtherBits(r) == OtherBits(f)
  {
    FlagsCompose(f / 128, (f / 64) % 2, f % 64);
    FlagsCompose(f / 128, 1, f % 64);
    128 * (f / 128) + 64 + f % 64
  }

  /** `flags & ~EPHEMERAL`. */
  function ClearEphemeral(f: nat): (r: nat)
    ensures !IsEphemeral(r) && OtherBits(r) == OtherBits(f)
  {
    FlagsCompose(f / 128, 0, f % 64);
    128 * (f / 128) + f % 64
  }

  /** `BaseContext._get_flags`: undefined flags (None) give EPHEMERAL or
    * NONE; given flags have the EPHEMERAL bit forced on or off by
    * `ephemeral`, or are kept as they are. Only creations fall back to the
    * context's ephemeral default. */
  function GetFlags(flags: Option<nat>, ephemeral: Option<bool>, isCreate: bool, ephemeralDefault: bool): (r: nat)
    ensures IsEphemeral(r) <==>
      ephemeral == Some(true) ||
      (ephemeral.None? && (if flags.Some? then IsEphemeral(flags.value) else isCreate && ephemeralDefault))
    ensures OtherBits(r) == OtherBits(flags.UnwrapOr(0))
  {
    match flags
    case None =>
      if ephemeral == Some(true) || (ephemeral.None? && isCreate && ephemeralDefault) then EPHEMERAL else 0
    case Some(f) =>
      match ephemeral
      case Some(true) => SetEphemeral(f)
      case Some(false) => ClearEphemeral(f)
      case None => f
  }

  const DELETE_AFTER_TOO_LATE := "This interaction will have expired before delete_after is reached"

  /** `_validate_delete_after`: a delayed deletion must fire at least 10
    * seconds before the interaction's 15-minute lifetime ends. */
  function ValidateDeleteAfter(deleteAfter: int, now: int, createdAt: int): (r: Result<int>)
    ensures r.Success? <==> now + deleteAfter + 10 <= createdAt + INTERACTION_LIFETIME
    ensures r.Success? ==> r.value == deleteAfter
    ensures r.Failure? ==> r.error == ValueError(DELETE_AFTER_TOO_LATE)
  {
    var timeLeft := INTERACTION_LIFETIME - (now - createdAt);
    if deleteAfter + 10 > timeLeft then Failure(ValueError(DELETE_AFTER_TOO_LATE)) else Success(deleteAfter)
  }

  /** Whether an optional `delete_after` passes validation. */
  predicate DeleteAfterOk(deleteAfter: Option<int>, now: int, createdAt: int)
  {
    deleteAfter.None? || ValidateDeleteAfter(deleteAfter.value, now, createdAt).Success?
  }

  datatype ResponseType = MessageCreate | MessageUpdate | DeferredMessageCreate | DeferredMessageUpdate
  {
    predicate IsDeferred()
    {
      this == DeferredMessageCreate || this == DeferredMessageUpdate
    }
  }

  /** Calls made on the platform's behalf, in order. */
  datatype Call =
    | InitialResponse(responseType: ResponseType, flags: nat)
    | FutureResult(responseType: ResponseType, flags: nat)
    | Followup(flags: nat)
    | EditInitial
    | DeleteInitial
    | FetchInitial
    | EditMessage(id: Snowflake)
    | DeleteMessage(id: Snowflake)
    | FetchMessage(id: Snowflake)
    | DeleteInitialAfter(delay: int)
    | DeleteMessageAfter(id: Snowflake, delay: int)

  /** How an initial response is delivered: to Discord, or as the REST
    * server's response future result. */
  function Deliver(viaFuture: bool, responseType: ResponseType, flags: nat): Call
  {
    if viaFuture then FutureResult(responseType, flags) else InitialResponse(responseType, flags)
  }

  function ScheduleInitialDelete(deleteAfter: Option<int>): seq<Call>
  {
    if deleteAfter.Some? then [DeleteInitialAfter(deleteAfter.value)] else []
  }

  function ScheduleMessageDelete(id: Snowflake, deleteAfter: Option<int>): seq<Call>
  {
    if deleteAfter.Some? then [DeleteMessageAfter(id, deleteAfter.value)] else []
  }

  /** The three fields that decide what a response call does. */
  datatype ResponseState = ResponseState(hasResponded: bool, hasBeenDeferred: bool, lastResponseId: Option<Snowflake>)

  /** Which call `respond` makes. */
  datatype Route = RouteFollowup | RouteEditInitial | RouteCreateInitial

  /** `respond` routes on the state: a follow-up once responded, an edit of
    * the initial response once deferred, otherwise the initial response. */
  function RespondRoute(s: ResponseState): (r: Route)
    ensures r == RouteFollowup <==> s.hasResponded
    ensures r == RouteEditInitial <==> !s.hasResponded && s.hasBeenDeferred
  {
    if s.hasResponded then RouteFollowup
    else if s.hasBeenDeferred then RouteEditInitial
    else RouteCreateInitial
  }

  /** Which pairs of singular and plural arguments a response call got
    * both of, in the order `to_list` is called on them. */
  datatype BothGiven = BothGiven(attachments: bool, components: bool, embeds: bool)

  /** No pair given twice. */
  const NOTHING_TWICE: BothGiven := BothGiven(false, false, false)

  /** The message `to_list` raises when both the singular and the plural
    * are passed. */
  function OnlyOneMessage(name: string): string
  {
    "Only one of " + name + " or " + name + "s may be passed"
  }

  /** The ValueError the three `to_list` calls of the response-future path
    * raise: the first pair given twice, attachments before components
    * before embeds. */
  function ToListConflict(b: BothGiven): (r: Option<Error>)
    ensures r.None? <==> !b.attachments && !b.components && !b.embeds
    ensures b.attachments ==> r == Some(ValueError(OnlyOneMessage("attachment")))
    ensures !b.attachments && b.components ==> r == Some(ValueError(OnlyOneMessage("component")))
    ensures !b.attachments && !b.components && b.embeds ==> r == Some(ValueError(OnlyOneMessage("embed")))
  {
    if b.attachments then Some(ValueError(OnlyOneMessage("attachment")))
    else if b.components then Some(ValueError(OnlyOneMessage("component")))
    else if b.embeds then Some(ValueError(OnlyOneMessage("embed")))
    else None
  }

  /** The error `create_initial_response` raises, in the order it checks:
    * a `delete_after` that is too late, an initial response already made,
    * a deferral (which must be followed by an edit instead). */
  function InitialResponseError(deleteAfter: Option<int>, now: int, createdAt: int, s: ResponseState): (r: Option<Error>)
    ensures r.None? <==> DeleteAfterOk(deleteAfter, now, createdAt) && !s.hasResponded && !s.hasBeenDeferred
    ensures !DeleteAfterOk(deleteAfter, now, createdAt) ==> r == Some(ValueError(DELETE_AFTER_TOO_LATE))
    ensures r.Some? && DeleteAfterOk(deleteAfter, now, createdAt) ==> r.value.RuntimeError?
  {
    if !DeleteAfterOk(deleteAfter, now, createdAt) then Some(ValueError(DELETE_AFTER_TOO_LATE))
    else if s.hasResponded then Some(RuntimeError("Initial response has already been created"))
    else if s.hasBeenDeferred then
      Some(RuntimeError("edit_initial_response must be used to set the initial response after a context has been deferred"))
    else None
  }

  class BaseContext {
    var ephemeralDefault: bool
    var hasResponded: bool
    var hasBeenDeferred: bool
    var lastResponseId: Option<Snowflake>
    const createdAt: int
    /** Whether the context answers through the REST server's response
      * future rather than through Discord's API. */
    const viaFuture: bool
    ghost var calls: seq<Call>

    function State(): ResponseState
      reads this
    {
      ResponseState(hasResponded, hasBeenDeferred, lastResponseId)
    }

    constructor (createdAt: int, ephemeralDefault: bool, viaFuture: bool)
      ensures State() == ResponseState(false, false, None) && calls == []
      ensures this.createdAt == createdAt && this.ephemeralDefault == ephemeralDefault && this.viaFuture == viaFuture
    {
      this.createdAt := createdAt;
      this.ephemeralDefault := ephemeralDefault;
      this.viaFuture := viaFuture;
      hasResponded := false;
      hasBeenDeferred := false;
      lastResponseId := None;
      calls := [];
    }

    method SetEphemeralDefault(state: bool)
      modifies this
      ensures ephemeralDefault == state && State() == old(State()) && calls == old(calls)
    {
      ephemeralDefault := state;
    }

    /** `defer`: RuntimeError if already deferred; otherwise marks the
      * context deferred and sends the deferral. Only a deferred create falls
      * back to the ephemeral default. */
    method Defer(deferType: ResponseType, ephemeral: Option<bool>, flags: Option<nat>) returns (r: Result<Unit>)
      requires deferType.IsDeferred()
      modifies this
      ensures ephemeralDefault == old(ephemeralDefault)
      ensures r.Failure? <==> old(hasBeenDeferred)
      ensures r.Failure? ==>
        r.error == RuntimeError("Context has already been responded to") && State() == old(State()) && calls == old(calls)
      ensures r.Success? ==>
        State() == old(State()).(hasBeenDeferred := true) &&
        calls == old(calls) + [Deliver(viaFuture, deferType,
          GetFlags(flags, ephemeral, deferType == DeferredMessageCreate, ephemeralDefault))]
    {
      var f := GetFlags(flags, ephemeral, deferType == DeferredMessageCreate, ephemeralDefault);
      if hasBeenDeferred {
        return Failure(RuntimeError("Context has already been responded to"));
      }
      hasBeenDeferred := true;
      calls := calls + [Deliver(viaFuture, deferType, f)];
      r := Success(Unit);
    }

    /** `create_followup`: validates `delete_after`, sends the follow-up and
      * remembers its id as the last response. */
    method CreateFollowup(deleteAfter: Option<int>, ephemeral: Option<bool>, flags: Option<nat>, now: int,
                          newMessageId: Snowflake) returns (r: Result<Unit>)
      modifies this
      ensures ephemeralDefault == old(ephemeralDefault)
      ensures r.Success? <==> DeleteAfterOk(deleteAfter, now, createdAt)
      ensures r.Failure? ==>
        r.error == ValueError(DELETE_AFTER_TOO_LATE) && State() == old(State()) && calls == old(calls)
      ensures r.Success? ==>
        State() == old(State()).(hasResponded := true, lastResponseId := Some(newMessageId)) &&
        calls == old(calls) + [Followup(GetFlags(flags, ephemeral, true, ephemeralDefault))] +
                 ScheduleMessageDelete(newMessageId, deleteAfter)
    {
      if deleteAfter.Some? {
        var v := ValidateDeleteAfter(deleteAfter.value, now, createdAt);
        if v.Failure? {
          return Failure(v.error);
        }
      }
      calls := calls + [Followup(GetFlags(flags, ephemeral, true, ephemeralDefault))];
      lastResponseId := Some(newMessageId);
      hasResponded := true;
      calls := calls + ScheduleMessageDelete(newMessageId, deleteAfter);
      r := Success(Unit);
    }

    /** `create_initial_response`: `delete_after` is validated first, then
      * RuntimeError if already responded, then RuntimeError if deferred;
      * on the response-future path a pair of arguments given twice
      * (`both`) is a ValueError; otherwise the response is delivered and
      * the context has responded. */
    method CreateInitialResponse(responseType: ResponseType, deleteAfter: Option<int>, ephemeral: Option<bool>,
                                 flags: Option<nat>, both: BothGiven, now: int) returns (r: Result<Unit>)
      requires !responseType.IsDeferred()
      modifies this
      ensures ephemeralDefault == old(ephemeralDefault)
      ensures r.Failure? <==>
        InitialResponseError(deleteAfter, now, createdAt, old(State())).Some? || (viaFuture && ToListConflict(both).Some?)
      ensures r.Failure? ==> State() == old(State()) && calls == old(calls)
      ensures InitialResponseError(deleteAfter, now, createdAt, old(State())).Some? ==>
        r == Failure(InitialResponseError(deleteAfter, now, createdAt, old(State())).value)
      ensures InitialResponseError(deleteAfter, now, createdAt, old(State())).None? && r.Failure? ==>
        r.error == ToListConflict(both).value
      ensures r.Success? ==>
        State() == old(State()).(hasResponded := true) &&
        calls == old(calls) +
          [Deliver(viaFuture, responseType, GetFlags(flags, ephemeral, responseType == MessageCreate, ephemeralDefault))] +
          ScheduleInitialDelete(deleteAfter)
    {
      var f := GetFlags(flags, ephemeral, responseType == MessageCreate, ephemeralDefault);
      var err := InitialResponseError(deleteAfter, now, createdAt, State());
      if err.Some? {
        return Failure(err.value);
      }
      if viaFuture && ToListConflict(both).Some? {
        return Failure(ToListConflict(both).value);
      }
      calls := calls + [Deliver(viaFuture, responseType, f)];
      hasResponded := true;
      calls := calls + ScheduleInitialDelete(deleteAfter);
      r := Success(Unit);
    }

    method DeleteInitialResponse()
      modifies this
      ensures ephemeralDefault == old(ephemeralDefault)
      ensures State() == old(State()).(hasResponded := true) && calls == old(calls) + [DeleteInitial]
    {
      calls := calls + [DeleteInitial];
      hasResponded := true;
    }

    /** `delete_last_response`: the last follow-up if there is one, else the
      * initial response once responded or deferred, else LookupError. */
    method DeleteLastResponse() returns (r: Result<Unit>)
      modifies this
      ensures ephemeralDefault == old(ephemeralDefault)
      ensures r.Failure? <==> old(lastResponseId).None? && !old(hasResponded) && !old(hasBeenDeferred)
      ensures r.Failure? ==>
        r.error == LookupError("Context has no last response") && State() == old(State()) && calls == old(calls)
      ensures old(lastResponseId).Some? ==>
        State() == old(State()) && calls == old(calls) + [DeleteMessage(old(lastResponseId).value)]
      ensures old(lastResponseId).None? && r.Success? ==>
        State() == old(State()).(hasResponded := true) && calls == old(calls) + [DeleteInitial]
    {
      if lastResponseId.None? {
        if hasResponded || hasBeenDeferred {
          calls := calls + [DeleteInitial];
          hasResponded := true;
          return Success(Unit);
        }
        return Failure(LookupError("Context has no last response"));
      }
      calls := calls + [DeleteMessage(lastResponseId.value)];
      r := Success(Unit);
    }

    /** `edit_initial_response`: validates `delete_after`, edits, and marks
      * the context as responded. */
    method EditInitialResponse(deleteAfter: Option<int>, now: int) returns (r: Result<Unit>)
      modifies this
      ensures ephemeralDefault == old(ephemeralDefault)
      ensures r.Success? <==> DeleteAfterOk(deleteAfter, now, createdAt)
      ensures r.Failure? ==>
        r.error == ValueError(DELETE_AFTER_TOO_LATE) && State() == old(State()) && calls == old(calls)
      ensures r.Success? ==>
        State() == old(State()).(hasResponded := true) &&
        calls == old(calls) + [EditInitial] + ScheduleInitialDelete(deleteAfter)
    {
      if deleteAfter.Some? {
        var v := ValidateDeleteAfter(deleteAfter.value, now, createdAt);
        if v.Failure? {
          return Failure(v.error);
        }
      }
      calls := calls + [EditInitial];
      hasResponded := true;
      calls := calls + ScheduleInitialDelete(deleteAfter);
      r := Success(Unit);
    }

    /** `edit_last_response`: the last follow-up when its id is truthy (so an
      * id of 0 counts as none), else the initial response once responded or
      * deferred, else LookupError. */
    method EditLastResponse(deleteAfter: Option<int>, now: int) returns (r: Result<Unit>)
      modifies this
      ensures ephemeralDefault == old(ephemeralDefault)
      ensures r.Failure? ==> State() == old(State()) && calls == old(calls)
      ensures r.Failure? <==>
        !DeleteAfterOk(deleteAfter, now, createdAt) ||
        ((old(lastResponseId).None? || old(lastResponseId) == Some(0)) && !old(hasResponded) && !old(hasBeenDeferred))
      ensures r.Failure? && DeleteAfterOk(deleteAfter, now, createdAt) ==>
        r.error == LookupError("Context has no previous responses")
      ensures r.Success? && old(lastResponseId).Some? && old(lastResponseId) != Some(0) ==>
        State() == old(State()) &&
        calls == old(calls) + [EditMessage(lastResponseId.value)] + ScheduleMessageDelete(lastResponseId.value, deleteAfter)
      ensures r.Success? && (old(lastResponseId).None? || old(lastResponseId) == Some(0)) ==>
        State() == old(State()).(hasResponded := true) &&
        calls == old(calls) + [EditInitial] + ScheduleInitialDelete(deleteAfter)
    {
      if lastResponseId.Some? && lastResponseId.value != 0 {
        if deleteAfter.Some? {
          var v := ValidateDeleteAfter(deleteAfter.value, now, createdAt);
          if v.Failure? {
            return Failure(v.error);
          }
        }
        calls := calls + [EditMessage(lastResponseId.value)] + ScheduleMessageDelete(lastResponseId.value, deleteAfter);
        return Success(Unit);
      }
      if hasResponded || hasBeenDeferred {
        r := EditInitialResponse(deleteAfter, now);
        return;
      }
      r := Failure(LookupError("Context has no previous responses"));
    }

    method FetchInitialResponse()
      modifies this
      ensures State() == old(State()) && ephemeralDefault == old(ephemeralDefault)
      ensures calls == old(calls) + [FetchInitial]
    {
      calls := calls + [FetchInitial];
    }

    /** `fetch_last_response`: the last follow-up, else the initial response
      * once responded; a deferral alone is not enough. */
    method FetchLastResponse() returns (r: Result<Unit>)
      modifies this
      ensures State() == old(State()) && ephemeralDefault == old(ephemeralDefault)
      ensures r.Failure? <==> lastResponseId.None? && !hasResponded
      ensures r.Failure? ==> r.error == LookupError("Context has no previous known responses") && calls == old(calls)
      ensures lastResponseId.Some? ==> calls == old(calls) + [FetchMessage(lastResponseId.value)]
      ensures lastResponseId.None? && hasResponded ==> calls == old(calls) + [FetchInitial]
    {
      if lastResponseId.Some? {
        calls := calls + [FetchMessage(lastResponseId.value)];
        return Success(Unit);
      }
      if hasResponded {
        FetchInitialResponse();
        return Success(Unit);
      }
      r := Failure(LookupError("Context has no previous known responses"));
    }

    /** `respond`: follows `RespondRoute`, passing the singular and plural
      * arguments on unchanged (`both`). It never raises on account of the
      * state: it fails for a `delete_after` that is too late, and on the
      * initial-response path through the response future for a pair given
      * twice (`to_list`'s ValueError). A success leaves the context
      * responded; only a fresh initial response is re-fetched for
      * `ensure_result`. */
    method Respond(deleteAfter: Option<int>, both: BothGiven, ensureResult: bool, now: int,
                   newMessageId: Snowflake)
      returns (r: Result<Unit>)
      modifies this
      ensures ephemeralDefault == old(ephemeralDefault)
      ensures r.Success? <==>
        DeleteAfterOk(deleteAfter, now, createdAt) &&
        (RespondRoute(old(State())) != RouteCreateInitial || !viaFuture || ToListConflict(both).None?)
      ensures r.Failure? ==> State() == old(State()) && calls == old(calls)
      ensures !DeleteAfterOk(deleteAfter, now, createdAt) ==> r == Failure(ValueError(DELETE_AFTER_TOO_LATE))
      ensures DeleteAfterOk(deleteAfter, now, createdAt) && r.Failure? ==>
        RespondRoute(old(State())) == RouteCreateInitial && viaFuture && r.error == ToListConflict(both).value
      ensures r.Success? ==> hasResponded && hasBeenDeferred == old(hasBeenDeferred)
      ensures r.Success? && RespondRoute(old(State())) == RouteFollowup ==>
        lastResponseId == Some(newMessageId) &&
        calls == old(calls) + [Followup(GetFlags(None, None, true, ephemeralDefault))] +
                 ScheduleMessageDelete(newMessageId, deleteAfter)
      ensures r.Success? && RespondRoute(old(State())) == RouteEditInitial ==>
        lastResponseId == old(lastResponseId) &&
        calls == old(calls) + [EditInitial] + ScheduleInitialDelete(deleteAfter)
      ensures r.Success? && RespondRoute(old(State())) == RouteCreateInitial ==>
        lastResponseId == old(lastResponseId) &&
        calls == old(calls) + [Deliver(viaFuture, MessageCreate, GetFlags(None, None, true, ephemeralDefault))] +
                 ScheduleInitialDelete(deleteAfter) + (if ensureResult then [FetchInitial] else [])
    {
      if hasResponded {
        r := CreateFollowup(deleteAfter, None, None, now, newMessageId);
        return;
      }
      if hasBeenDeferred {
        r := EditInitialResponse(deleteAfter, now);
        return;
      }
      r := CreateInitialResponse(MessageCreate, deleteAfter, None, None, both, now);
      if r.Success? && ensureResult {
        FetchInitialResponse();
      }
    }
  }

  datatype Mentions = MentionsUndefined | MentionsFlag(all: bool) | MentionIds(ids: seq<Snowflake>)

  /** An error a callback raises to send a response: attachments, components
    * and embeds are opaque ids. */
  datatype InteractionError = InteractionError(
    content: Option<string>,
    attachments: Option<seq<nat>>,
    components: Option<seq<nat>>,
    embeds: Option<seq<nat>>,
    deleteAfter: Option<int>,
    mentionsEveryone: Option<bool>,
    userMentions: Mentions,
    roleMentions: Mentions)
  {
    /** `__str__`: the content, or "" without one. */
    function ToString(): (r: string)
      ensures content.Some? ==> r == content.value
      ensures content.None? ==> r == ""
    {
      if content.Some? then content.value else ""
    }
  }

  /** A sequence argument is truthy when given and non-empty. */
  predicate Truthy<T>(plural: Option<seq<T>>)
  {
    plural.Some? && |plural.value| > 0
  }

  predicate TooManyMentions(m: Mentions)
  {
    m.MentionIds? && |m.ids| > 100
  }

  /** The single item as a one-element list, else the plural argument. */
  function OneOrMany<T>(singular: Option<T>, plural: Option<seq<T>>): (r: Option<seq<T>>)
    ensures singular.Some? ==> r == Some([singular.value])
    ensures singular.None? ==> r == plural
  {
    if singular.Some? then Some([singular.value]) else plural
  }

  /** `InteractionError(...)`: ValueError for both the singular and plural
    * of attachments, components or embeds, or for more than 100 role, then
    * user, mentions; otherwise the singular is stored as a one-item list. */
  function NewInteractionError(content: Option<string>, attachment: Option<nat>, attachments: Option<seq<nat>>,
                               component: Option<nat>, components: Option<seq<nat>>,
                               embed: Option<nat>, embeds: Option<seq<nat>>, deleteAfter: Option<int>,
                               mentionsEveryone: Option<bool>, userMentions: Mentions, roleMentions: Mentions)
    : (r: Result<InteractionError>)
    ensures r.Success? <==>
      !(attachment.Some? && Truthy(attachments)) && !(component.Some? && Truthy(components)) &&
      !(embed.Some? && Truthy(embeds)) && !TooManyMentions(roleMentions) && !TooManyMentions(userMentions)
    ensures attachment.Some? && Truthy(attachments) ==>
      r == Failure(ValueError("Cannot specify both attachment and attachments"))
    ensures !(attachment.Some? && Truthy(attachments)) && component.Some? && Truthy(components)
      ==> r == Failure(ValueError("Cannot specify both component and components"))
    ensures !(attachment.Some? && Truthy(attachments)) && !(component.Some? && Truthy(components)) &&
      embed.Some? && Truthy(embeds)
      ==> r == Failure(ValueError("Cannot specify both embed and embeds"))
    ensures !(attachment.Some? && Truthy(attachments)) && !(component.Some? && Truthy(components)) &&
      !(embed.Some? && Truthy(embeds)) && TooManyMentions(roleMentions)
      ==> r == Failure(ValueError("Cannot specify more than 100 role mentions"))
    ensures r.Failure? && TooManyMentions(userMentions) && !TooManyMentions(roleMentions) &&
      !(attachment.Some? && Truthy(attachments)) && !(component.Some? && Truthy(components)) &&
      !(embed.Some? && Truthy(embeds))
      ==> r.error == ValueError("Cannot specify more than 100 user mentions")
    ensures r.Success? ==>
      r.value.attachments == OneOrMany(attachment, attachments) && r.value.components == OneOrMany(component, components) &&
      r.value.embeds == OneOrMany(embed, embeds) && r.value.content == content &&
      r.value.deleteAfter == deleteAfter && r.value.mentionsEveryone == mentionsEveryone &&
      r.value.userMentions == userMentions && r.value.roleMentions == roleMentions
  {
    if attachment.Some? && Truthy(attachments) then Failure(ValueError("Cannot specify both attachment and attachments"))
    else if component.Some? && Truthy(components) then Failure(ValueError("Cannot specify both component and components"))
    else if embed.Some? && Truthy(embeds) then Failure(ValueError("Cannot specify both embed and embeds"))
    else if TooManyMentions(roleMentions) then Failure(ValueError("Cannot specify more than 100 role mentions"))
    else if TooManyMentions(userMentions) then Failure(ValueError("Cannot specify more than 100 user mentions"))
    else Success(InteractionError(content, OneOrMany(attachment, attachments), OneOrMany(component, components),
                                  OneOrMany(embed, embeds), deleteAfter, mentionsEveryone, userMentions, roleMentions))
  }

  /** `InteractionError.send`: responds on the context with the stored
    * response. It passes only the plural arguments, so no pair is given
    * twice. */
  method SendError(err: InteractionError, ctx: BaseContext, ensureResult: bool, now: int, newMessageId: Snowflake)
    returns (r: Result<Unit>)
    modifies ctx
    ensures r.Success? <==> DeleteAfterOk(err.deleteAfter, now, ctx.createdAt)
    ensures r.Success? ==> ctx.hasResponded
    ensures r.Failure? ==> ctx.State() == old(ctx.State()) && ctx.calls == old(ctx.calls)
  {
    r := ctx.Respond(err.deleteAfter, NOTHING_TWICE, ensureResult, now, newMessageId);
  }
}
