/** Reaction handlers: a handler that routes the reactions on one message to
  * callbacks, a paginator built on it, and the client that hands reaction
  * events to the handler registered for their message. */
module Reactions {
  import opened Wrappers
  import Internal
  import Timeouts
  import Components

  type Snowflake = nat

  // The unicode emojis the paginators use.
  const LEFT_DOUBLE_TRIANGLE: string := "\U{23EE}\U{FE0F}"
  const LEFT_TRIANGLE: string := "\U{25C0}\U{FE0F}"
  const STOP_SQUARE: string := "\U{23F9}\U{FE0F}"
  const RIGHT_TRIANGLE: string := "\U{25B6}\U{FE0F}"
  const RIGHT_DOUBLE_TRIANGLE: string := "\U{23ED}\U{FE0F}"
  const BLACK_CROSS: string := "\U{2716}\U{FE0F}"

  /** The triggers a `ReactionPaginator` gets when none are passed. */
  const DEFAULT_TRIGGERS: seq<string> := [LEFT_TRIANGLE, STOP_SQUARE, RIGHT_TRIANGLE]

  /** How the caller names an emoji: a custom emoji object, a bare
    * snowflake, or a unicode emoji's text. */
  datatype EmojiRef = CustomEmoji(id: Snowflake, name: string) | EmojiId(id: Snowflake) | UnicodeName(name: string)

  /** The key a callback is stored under: an id or a unicode emoji's text. */
  datatype EmojiKey = ById(id: Snowflake) | ByName(name: string)

  /** A custom emoji is stored under its id. */
  function KeyOf(e: EmojiRef): EmojiKey
  {
    match e
    case CustomEmoji(id, _) => ById(id)
    case EmojiId(id) => ById(id)
    case UnicodeName(n) => ByName(n)
  }

  /** A reaction add or delete event. */
  datatype ReactionEvent = ReactionEvent(userId: Snowflake, messageId: Snowflake, emojiId: Option<Snowflake>, emojiName: Option<string>)

  /** `event.emoji_id or event.emoji_name`: the id when it is set (and not
    * 0), else the name; None when the event carries neither. */
  function EventKey(ev: ReactionEvent): Option<EmojiKey>
  {
    if ev.emojiId.Some? && ev.emojiId.value != 0 then Some(ById(ev.emojiId.value))
    else if ev.emojiName.Some? then Some(ByName(ev.emojiName.value))
    else None
  }

  /** What an unexpired handler's checks decide for an event: skip it, fail
    * the assertion that it names an emoji, or call a callback. */
  datatype Gated<C> = Skip | Unidentified | Call(callback: C)

  /** The checks of an unexpired handler: the event is skipped while no
    * message is bound or for a user outside a non-empty author set; an
    * event naming no emoji then fails the assertion; an emoji without a
    * callback is skipped. */
  function Gate<C>(authors: set<Snowflake>, callbacks: map<EmojiKey, C>, message: Option<Snowflake>, ev: ReactionEvent): (r: Gated<C>)
    ensures r.Call? <==>
      message.Some? && (authors == {} || ev.userId in authors) && EventKey(ev).Some? && EventKey(ev).value in callbacks
    ensures r.Call? ==> r.callback == callbacks[EventKey(ev).value]
    ensures r.Unidentified? <==> message.Some? && (authors == {} || ev.userId in authors) && EventKey(ev).None?
  {
    if message.None? || (authors != {} && ev.userId !in authors) then Skip
    else
      var key := EventKey(ev);
      if key.None? then Unidentified
      else if key.value in callbacks then Call(callbacks[key.value]) else Skip
  }

  /** What a handler's `on_reaction_event` does: nothing, run a callback,
    * raise `HandlerClosed`, or raise another error. */
  datatype Reaction<C> = Ignored | Ran(callback: C) | Closed | Raised(error: Error)

  const NO_ACTIVE_EXCEPTION: string := "No active exception to reraise"

  /** `on_reaction_event` as written: an expired handler schedules its close
    * and then runs a bare `raise` outside any `except` block, which raises
    * a RuntimeError instead of `HandlerClosed`. */
  function HandlerReactionAsWritten<C>(expired: bool, gate: Gated<C>): (r: Reaction<C>)
    ensures expired ==> r == Raised(RuntimeError(NO_ACTIVE_EXCEPTION))
    ensures !expired ==> r == HandlerReaction(false, gate)
  {
    if expired then Raised(RuntimeError(NO_ACTIVE_EXCEPTION))
    else HandlerReaction(false, gate)
  }

  /** `on_reaction_event` as intended: an expired handler raises
    * `HandlerClosed`; otherwise an event naming no emoji fails the
    * assertion, and the gated callback runs, if any. */
  function HandlerReaction<C>(expired: bool, gate: Gated<C>): (r: Reaction<C>)
    ensures r.Closed? <==> expired
    ensures r.Ran? <==> !expired && gate.Call?
    ensures r.Ran? ==> r.callback == gate.callback
    ensures r.Raised? <==> !expired && gate.Unidentified?
    ensures r.Raised? ==> r.error == AssertionError
  {
    if expired then Closed
    else match gate
      case Call(c) => Ran(c)
      case Unidentified => Raised(AssertionError)
      case Skip => Ignored
  }

  /** `ReactionHandler`: the callbacks for one message's reactions. */
  class ReactionHandler<C> {
    var authors: set<Snowflake>
    var callbacks: map<EmojiKey, C>
    var message: Option<Snowflake>
    /** A `SlidingTimeout` with unlimited uses, or null for `NeverTimeout`. */
    const timeout: Timeouts.SlidingTimeout?

    /** With a timeout, the handler expires that long after it is made: it
      * never advances its `SlidingTimeout` (see `OnReactionEvent`). */
    constructor (authors: set<Snowflake>, timeout: Option<int>, now: int)
      ensures this.authors == authors && callbacks == map[] && message.None?
      ensures this.timeout == null <==> timeout.None?
      ensures this.timeout != null ==> fresh(this.timeout)
      ensures forall t :: HasExpired(t) <==> timeout.Some? && t - now > timeout.value
    {
      this.authors := authors;
      callbacks := map[];
      message := None;
      if timeout.Some? {
        this.timeout := new Timeouts.SlidingTimeout(timeout.value, now, -1);
      } else {
        this.timeout := null;
      }
    }

    predicate HasExpired(now: int)
      reads this, timeout
    {
      timeout != null && timeout.HasExpired(now)
    }

    method Open(message: Snowflake)
      modifies this
      ensures this.message == Some(message)
      ensures authors == old(authors) && callbacks == old(callbacks)
    {
      this.message := Some(message);
    }

    method Close()
      modifies this
      ensures message.None?
      ensures authors == old(authors) && callbacks == old(callbacks)
    {
      message := None;
    }

    /** `set_callback`: replaces any callback stored under the emoji's key. */
    method SetCallback(emoji: EmojiRef, callback: C)
      modifies this
      ensures callbacks == old(callbacks)[KeyOf(emoji) := callback]
      ensures authors == old(authors) && message == old(message)
    {
      callbacks := callbacks[KeyOf(emoji) := callback];
    }

    /** `remove_callback`: KeyError when no callback is stored. */
    method RemoveCallback(emoji: EmojiRef) returns (r: Result<Unit>)
      modifies this
      ensures r.Failure? <==> KeyOf(emoji) !in old(callbacks)
      ensures r.Failure? ==> r.error == KeyError && callbacks == old(callbacks)
      ensures r.Success? ==> callbacks == old(callbacks) - {KeyOf(emoji)}
      ensures authors == old(authors) && message == old(message)
    {
      var key := KeyOf(emoji);
      if key !in callbacks {
        return Failure(KeyError);
      }
      callbacks := callbacks - {key};
      r := Success(Unit);
    }

    /** `on_reaction_event`. An expired handler closes (its message is
      * dropped) and raises `HandlerClosed`; otherwise an event naming no
      * emoji fails the assertion, and the gated callback is returned for
      * the caller to run. The timeout is left alone, so the
      * handler still expires when it would have without the event. */
    method OnReactionEvent(ev: ReactionEvent, now: int) returns (r: Reaction<C>)
      modifies this
      ensures r == HandlerReaction(old(HasExpired(now)), old(Gate(authors, callbacks, message, ev)))
      ensures message == if old(HasExpired(now)) then None else old(message)
      ensures authors == old(authors) && callbacks == old(callbacks)
      ensures forall t :: HasExpired(t) <==> old(HasExpired(t))
    {
      if HasExpired(now) {
        message := None;
        return Closed;
      }
      match Gate(authors, callbacks, message, ev)
      case Skip => r := Ignored;
      case Unidentified => r := Raised(AssertionError);
      case Call(callback) => r := Ran(callback);
    }

    /** `on_reaction_event` as written: an expired handler schedules its
      * close (modelled as done: the message is dropped) and then raises a
      * RuntimeError from its bare `raise`; otherwise as `OnReactionEvent`. */
    method OnReactionEventAsWritten(ev: ReactionEvent, now: int) returns (r: Reaction<C>)
      modifies this
      ensures r == HandlerReactionAsWritten(old(HasExpired(now)), old(Gate(authors, callbacks, message, ev)))
      ensures message == if old(HasExpired(now)) then None else old(message)
      ensures authors == old(authors) && callbacks == old(callbacks)
      ensures forall t :: HasExpired(t) <==> old(HasExpired(t))
    {
      if HasExpired(now) {
        message := None;
        return Raised(RuntimeError(NO_ACTIVE_EXCEPTION));
      }
      match Gate(authors, callbacks, message, ev)
      case Skip => r := Ignored;
      case Unidentified => r := Raised(AssertionError);
      case Call(callback) => r := Ran(callback);
    }
  }

  // ---------------------------------------------------------------------
  // ReactionPaginator

  /** The calls the paginator makes on its message. */
  datatype MessageCall<T> = Created(page: T) | Edited(page: T) | Deleted(message: Snowflake)
    | ReactionAdded(emoji: EmojiRef) | ReactionRemoved(emoji: EmojiRef)

  /** How a run of reaction calls ends: every call succeeds, or call number
    * `call` fails with NotFound (`notFound`) or Forbidden. */
  datatype RestFailure = NoFailure | FailsAt(call: nat, notFound: bool)

  /** How many of `n` calls are made before the failing one. */
  function CallsMade(n: nat, f: RestFailure): (k: nat)
    ensures k <= n
    ensures k < n <==> f.FailsAt? && f.call < n
  {
    if f.FailsAt? && f.call < n then f.call else n
  }

  /** `buttons`, with one more at the end when `add`. */
  function AddIf(buttons: seq<(Components.PaginatorButton, string)>, add: bool, b: Components.PaginatorButton,
                 emoji: string): seq<(Components.PaginatorButton, string)>
  {
    if add then buttons + [(b, emoji)] else buttons
  }

  /** The calls that add (or, with `add` false, remove) the given
    * reactions, in order. */
  function ReactionCalls<T>(emojis: seq<EmojiRef>, add: bool): (r: seq<MessageCall<T>>)
    ensures |r| == |emojis|
  {
    if emojis == [] then []
    else
      var e := emojis[|emojis| - 1];
      ReactionCalls(emojis[..|emojis| - 1], add) + [if add then ReactionAdded(e) else ReactionRemoved(e)]
  }

  /** The buttons `__init__` adds for its triggers, in the order it adds
    * them. Either stop trigger adds the stop button with the stop square. */
  function TriggerButtons(triggers: seq<string>): seq<(Components.PaginatorButton, string)>
  {
    var first := AddIf([], LEFT_DOUBLE_TRIANGLE in triggers, Components.First, LEFT_DOUBLE_TRIANGLE);
    var previous := AddIf(first, LEFT_TRIANGLE in triggers, Components.Previous, LEFT_TRIANGLE);
    var stop := AddIf(previous, STOP_SQUARE in triggers || BLACK_CROSS in triggers, Components.Stop, STOP_SQUARE);
    var next := AddIf(stop, RIGHT_TRIANGLE in triggers, Components.Next, RIGHT_TRIANGLE);
    AddIf(next, RIGHT_DOUBLE_TRIANGLE in triggers, Components.Last, RIGHT_DOUBLE_TRIANGLE)
  }

  /** The callbacks stored by registering `buttons` in order. */
  function Register(buttons: seq<(Components.PaginatorButton, string)>): map<EmojiKey, Components.PaginatorButton>
  {
    if buttons == [] then map[]
    else Register(buttons[..|buttons| - 1])[ByName(buttons[|buttons| - 1].1) := buttons[|buttons| - 1].0]
  }

  /** The reactions added for `buttons`, in order. */
  function Emojis(buttons: seq<(Components.PaginatorButton, string)>): (r: seq<EmojiRef>)
    ensures |r| == |buttons|
    ensures forall i :: 0 <= i < |r| ==> r[i] == UnicodeName(buttons[i].1)
  {
    if buttons == [] then [] else Emojis(buttons[..|buttons| - 1]) + [UnicodeName(buttons[|buttons| - 1].1)]
  }

  /** The default triggers give previous, stop and next, in that order,
    * each under its own emoji. */
  lemma DefaultTriggersButtons()
    ensures TriggerButtons(DEFAULT_TRIGGERS) ==
      [(Components.Previous, LEFT_TRIANGLE), (Components.Stop, STOP_SQUARE), (Components.Next, RIGHT_TRIANGLE)]
    ensures Register(TriggerButtons(DEFAULT_TRIGGERS)) ==
      map[ByName(LEFT_TRIANGLE) := Components.Previous, ByName(STOP_SQUARE) := Components.Stop,
          ByName(RIGHT_TRIANGLE) := Components.Next]
  {
    assert LEFT_DOUBLE_TRIANGLE !in DEFAULT_TRIGGERS by {
      assert LEFT_DOUBLE_TRIANGLE[0] != LEFT_TRIANGLE[0] && LEFT_DOUBLE_TRIANGLE[0] != STOP_SQUARE[0];
      assert LEFT_DOUBLE_TRIANGLE[0] != RIGHT_TRIANGLE[0];
    }
    assert RIGHT_DOUBLE_TRIANGLE !in DEFAULT_TRIGGERS by {
      assert RIGHT_DOUBLE_TRIANGLE[0] != LEFT_TRIANGLE[0] && RIGHT_DOUBLE_TRIANGLE[0] != STOP_SQUARE[0];
      assert RIGHT_DOUBLE_TRIANGLE[0] != RIGHT_TRIANGLE[0];
    }
    var bs := TriggerButtons(DEFAULT_TRIGGERS);
    assert bs == [(Components.Previous, LEFT_TRIANGLE), (Components.Stop, STOP_SQUARE), (Components.Next, RIGHT_TRIANGLE)];
    assert bs[..2] == [(Components.Previous, LEFT_TRIANGLE), (Components.Stop, STOP_SQUARE)];
    assert bs[..2][..1] == [(Components.Previous, LEFT_TRIANGLE)];
    assert bs[..2][..1][..0] == [];
    assert Register(bs[..2][..1]) == map[ByName(LEFT_TRIANGLE) := Components.Previous];
    assert Register(bs[..2]) == map[ByName(LEFT_TRIANGLE) := Components.Previous, ByName(STOP_SQUARE) := Components.Stop];
  }

  /** Only the black cross among the triggers still adds the stop button
    * under the stop square, not under the cross. */
  lemma BlackCrossAddsStopSquare()
    ensures TriggerButtons([BLACK_CROSS]) == [(Components.Stop, STOP_SQUARE)]
    ensures ByName(BLACK_CROSS) !in Register(TriggerButtons([BLACK_CROSS]))
  {
    assert LEFT_DOUBLE_TRIANGLE != BLACK_CROSS by { assert LEFT_DOUBLE_TRIANGLE[0] != BLACK_CROSS[0]; }
    assert LEFT_TRIANGLE != BLACK_CROSS by { assert LEFT_TRIANGLE[0] != BLACK_CROSS[0]; }
    assert RIGHT_TRIANGLE != BLACK_CROSS by { assert RIGHT_TRIANGLE[0] != BLACK_CROSS[0]; }
    assert RIGHT_DOUBLE_TRIANGLE != BLACK_CROSS by { assert RIGHT_DOUBLE_TRIANGLE[0] != BLACK_CROSS[0]; }
    assert STOP_SQUARE != BLACK_CROSS by { assert STOP_SQUARE[0] != BLACK_CROSS[0]; }
    var bs := TriggerButtons([BLACK_CROSS]);
    assert bs[..0] == [];
  }

  /** The page a button shows, if any. */
  function Shown<T>(a: Components.PageAction<T>): Option<T>
  {
    match a
    case ShowPage(p) => Some(p)
    case DeferThenShow(p) => Some(p)
    case LoadThenShow(last) => last
    case _ => None
  }

  /** `_on_first`: the first page is shown (pulled when nothing is
    * buffered), but the index is not moved to it, unlike the component
    * paginator's. */
  function FirstStep<T>(c: Internal.Cursor<T>): (r: (Option<T>, Internal.Cursor<T>))
    requires c.InRange()
    ensures c.index == 0 ==> r == (None, c)
    ensures c.index != 0 && |c.buffer| > 0 ==> r == (Some(c.buffer[0]), c)
    ensures r.0.Some? ==> |r.1.buffer| > 0 && r.0.value == r.1.buffer[0]
  {
    if c.index == 0 then (None, c)
    else if |c.buffer| > 0 then (Some(c.buffer[0]), c)
    else Components.NextEntry(c)
  }

  /** Away from the first page, "first" shows the first page and leaves the
    * cursor where it was, so a following "next" continues from the old
    * position. */
  lemma FirstKeepsPosition<T>(c: Internal.Cursor<T>)
    requires c.InRange() && c.index != 0 && |c.Pages()| > 0
    ensures var (p, d) := FirstStep(c);
      p == Some(c.Pages()[0]) && d.Pages() == c.Pages() && d.InRange() &&
      (|c.buffer| > 0 ==> d == c) && (|c.buffer| == 0 ==> d.index == 0)
  {
    Components.NextEntryServesPages(c);
  }

  /** For instance, from the second of three buffered pages, "first" then
    * "next" shows the first page and then the third. */
  lemma FirstThenNextSkips()
    ensures var c := Internal.Cursor([10, 20, 30], 1, Some([]));
      var (p, d) := FirstStep(c);
      p == Some(10) && Components.NextEntry(d).0 == Some(30)
  {
  }

  /** `_on_last`: the source is drained into the buffer (it stays set but
    * yields nothing more) and, when there is any page, the last is shown. */
  function LastStep<T>(c: Internal.Cursor<T>): (r: (Option<T>, Internal.Cursor<T>))
    requires c.Placed()
    ensures r.1.buffer == c.Pages() && r.1.source.Some? == c.source.Some?
    ensures r.1.source.Some? ==> r.1.source.value == []
    ensures r.0.Some? <==> |c.Pages()| > 0
    ensures r.0.Some? ==> r.1.index == |r.1.buffer| - 1 && r.0.value == r.1.buffer[r.1.index]
  {
    var b := c.Pages();
    var rest := if c.source.Some? then Some([]) else None;
    if |b| > 0 then (Some(b[|b| - 1]), Internal.Cursor(b, |b| - 1, rest)) else (None, Internal.Cursor(b, c.index, rest))
  }

  lemma LastStepShowsLastPage<T>(c: Internal.Cursor<T>)
    requires c.InRange()
    ensures var (p, d) := LastStep(c);
      d.InRange() && d.Pages() == c.Pages() && d.buffer == c.Pages() &&
      (p.Some? <==> |c.Pages()| > 0) &&
      (p.Some? ==> d.index == |c.Pages()| - 1 && p.value == c.Pages()[d.index])
  {
  }

  /** What a button does to the cursor and which page it shows; the stop
    * button shows nothing and leaves the cursor. */
  function PageStep<T>(b: Components.PaginatorButton, c: Internal.Cursor<T>): (r: (Option<T>, Internal.Cursor<T>))
    requires c.InRange()
    ensures b == Components.Stop ==> r == (None, c)
    ensures b == Components.Previous ==> (r.0.Some? <==> c.index > 0)
    ensures b == Components.Previous || b == Components.Next ==> (r.0.None? ==> r.1 == c)
  {
    match b
    case First => FirstStep(c)
    case Previous => var (a, d) := Components.PreviousStep(c); (Shown(a), d)
    case Stop => (None, c)
    case Next => var (a, d) := Components.NextStep(c); (Shown(a), d)
    case Last => LastStep(c)
  }

  /** Every button keeps the reachable pages and the index in range; the
    * first button shows the first page, and any other button shows the
    * page now at the index. */
  lemma PageStepKeepsCursor<T>(b: Components.PaginatorButton, c: Internal.Cursor<T>)
    requires c.InRange()
    ensures var (p, d) := PageStep(b, c);
      d.InRange() && d.Pages() == c.Pages() &&
      (b == Components.First && p.Some? ==> p.value == d.Pages()[0]) &&
      (b != Components.First && p.Some? ==> 0 <= d.index && p.value == d.Pages()[d.index])
  {
    Components.ButtonsKeepCursor(c);
    Components.NextEntryServesPages(c);
    LastStepShowsLastPage(c);
  }

  /** The edit `_edit_message` makes: none while no message is bound;
    * otherwise one edit, which closes the handler when it fails. */
  ghost predicate EditOutcome<T>(before: seq<MessageCall<T>>, after: seq<MessageCall<T>>, page: Option<T>,
                                  message: Option<Snowflake>, editFails: bool, closed: bool)
  {
    if page.Some? && message.Some? then after == before + [Edited(page.value)] && closed == editFails
    else after == before && !closed
  }

  /** `ReactionPaginator`: a reaction handler whose callbacks are the
    * paginator buttons, over a cursor on a forward-only source. */
  class ReactionPaginator<T> {
    const handler: ReactionHandler<Components.PaginatorButton>
    var buffer: seq<T>
    var index: int
    const source: Internal.Iterator<T>
    /** The reactions `open` adds, in the order the buttons were added. */
    var reactions: seq<EmojiRef>
    ghost var calls: seq<MessageCall<T>>

    ghost predicate Valid()
      reads this, source
    {
      -1 <= index < |buffer| && source.Valid()
    }

    function Snapshot(): (c: Internal.Cursor<T>)
      reads this, source
      requires Valid()
      ensures c.InRange()
    {
      Internal.Cursor(buffer, index, Some(source.Remaining()))
    }

    constructor (source: Internal.Iterator<T>, authors: set<Snowflake>, timeout: Option<int>, now: int, triggers: seq<string>)
      requires source.Valid()
      ensures Valid() && Snapshot() == Internal.Cursor([], -1, Some(source.Remaining())) && this.source == source
      ensures fresh(handler) && handler.authors == authors && handler.message.None?
      ensures handler.callbacks == Register(TriggerButtons(triggers))
      ensures reactions == Emojis(TriggerButtons(triggers)) && calls == []
    {
      handler := new ReactionHandler(authors, timeout, now);
      buffer := [];
      index := -1;
      this.source := source;
      reactions := [];
      calls := [];
      new;
      AddTriggerButtons(triggers);
    }

    /** `add_author`: the user joins the authors of the paginator's
      * handler. */
    method AddAuthor(user: Snowflake)
      modifies handler
      ensures handler.authors == old(handler.authors) + {user}
      ensures handler.callbacks == old(handler.callbacks) && handler.message == old(handler.message)
    {
      handler.authors := handler.authors + {user};
    }

    /** `remove_author`: silent when the user is not an author. */
    method RemoveAuthor(user: Snowflake)
      modifies handler
      ensures handler.authors == old(handler.authors) - {user}
      ensures handler.callbacks == old(handler.callbacks) && handler.message == old(handler.message)
    {
      handler.authors := handler.authors - {user};
    }

    /** The trigger checks of `__init__`, in order. */
    method AddTriggerButtons(triggers: seq<string>)
      requires handler.callbacks == map[] && reactions == []
      modifies handler, this
      ensures handler.callbacks == Register(TriggerButtons(triggers)) && reactions == Emojis(TriggerButtons(triggers))
      ensures handler.authors == old(handler.authors) && handler.message == old(handler.message)
      ensures buffer == old(buffer) && index == old(index) && calls == old(calls)
    {
      ghost var added: seq<(Components.PaginatorButton, string)> := [];
      added := AddButtonIf(LEFT_DOUBLE_TRIANGLE in triggers, Components.First, LEFT_DOUBLE_TRIANGLE, added);
      added := AddButtonIf(LEFT_TRIANGLE in triggers, Components.Previous, LEFT_TRIANGLE, added);
      added := AddButtonIf(STOP_SQUARE in triggers || BLACK_CROSS in triggers, Components.Stop, STOP_SQUARE, added);
      added := AddButtonIf(RIGHT_TRIANGLE in triggers, Components.Next, RIGHT_TRIANGLE, added);
      added := AddButtonIf(RIGHT_DOUBLE_TRIANGLE in triggers, Components.Last, RIGHT_DOUBLE_TRIANGLE, added);
    }

    /** One trigger check of `__init__`: the button is added, with its
      * reaction, when its trigger was passed. */
    method AddButtonIf(add: bool, button: Components.PaginatorButton, emoji: string,
                       ghost added: seq<(Components.PaginatorButton, string)>)
      returns (ghost now: seq<(Components.PaginatorButton, string)>)
      requires handler.callbacks == Register(added) && reactions == Emojis(added)
      modifies handler, this
      ensures now == AddIf(added, add, button, emoji)
      ensures handler.callbacks == Register(now) && reactions == Emojis(now)
      ensures handler.authors == old(handler.authors) && handler.message == old(handler.message)
      ensures buffer == old(buffer) && index == old(index) && calls == old(calls)
    {
      now := added;
      if add {
        AddButton(button, emoji, true);
        now := added + [(button, emoji)];
        assert now[..|now| - 1] == added;
      }
    }

    /** `_add_button` (behind `add_first_button` and the others): the
      * button's callback goes under the emoji, and the emoji joins the
      * reactions when `addReaction`. */
    method AddButton(button: Components.PaginatorButton, emoji: string, addReaction: bool)
      modifies handler, this
      ensures handler.callbacks == old(handler.callbacks)[ByName(emoji) := button]
      ensures reactions == old(reactions) + (if addReaction then [UnicodeName(emoji)] else [])
      ensures handler.authors == old(handler.authors) && handler.message == old(handler.message)
      ensures buffer == old(buffer) && index == old(index) && calls == old(calls)
    {
      handler.SetCallback(UnicodeName(emoji), button);
      if addReaction {
        reactions := reactions + [UnicodeName(emoji)];
      }
    }

    /** `_edit_message`: edits only while a message is bound; a NotFound
      * or Forbidden answer closes the handler. */
    method EditMessage(page: T, editFails: bool) returns (closed: bool)
      modifies this
      ensures EditOutcome(old(calls), calls, Some(page), handler.message, editFails, closed)
      ensures buffer == old(buffer) && index == old(index) && reactions == old(reactions)
    {
      if handler.message.None? {
        return false;
      }
      calls := calls + [Edited(page)];
      closed := editFails;
    }

    method GetNextEntry() returns (r: Option<T>)
      requires Valid()
      modifies this, source
      ensures Valid() && reactions == old(reactions) && calls == old(calls)
      ensures (r, Snapshot()) == Components.NextEntry(old(Snapshot()))
    {
      if |buffer| >= index + 2 {
        index := index + 1;
        return Some(buffer[index]);
      }
      var entry := source.SeekIterator();
      if entry.Some? {
        index := index + 1;
        buffer := buffer + [entry.value];
        return entry;
      }
      r := None;
    }

    /** `_on_first`. */
    method OnFirst(editFails: bool) returns (closed: bool)
      requires Valid()
      modifies this, source
      ensures Valid() && reactions == old(reactions)
      ensures var (p, d) := PageStep(Components.First, old(Snapshot()));
        Snapshot() == d && EditOutcome(old(calls), calls, p, handler.message, editFails, closed)
    {
      if index == 0 {
        return false;
      }
      if |buffer| > 0 {
        closed := EditMessage(buffer[0], editFails);
        return;
      }
      var e := GetNextEntry();
      if e.Some? {
        closed := EditMessage(e.value, editFails);
        return;
      }
      closed := false;
    }

    method OnPrevious(editFails: bool) returns (closed: bool)
      requires Valid()
      modifies this
      ensures Valid() && reactions == old(reactions)
      ensures var (p, d) := PageStep(Components.Previous, old(Snapshot()));
        Snapshot() == d && EditOutcome(old(calls), calls, p, handler.message, editFails, closed)
    {
      if index > 0 {
        index := index - 1;
        closed := EditMessage(buffer[index], editFails);
        return;
      }
      closed := false;
    }

    method OnNext(editFails: bool) returns (closed: bool)
      requires Valid()
      modifies this, source
      ensures Valid() && reactions == old(reactions)
      ensures var (p, d) := PageStep(Components.Next, old(Snapshot()));
        Snapshot() == d && EditOutcome(old(calls), calls, p, handler.message, editFails, closed)
    {
      var e := GetNextEntry();
      if e.Some? {
        closed := EditMessage(e.value, editFails);
        return;
      }
      closed := false;
    }

    method OnLast(editFails: bool) returns (closed: bool)
      requires Valid()
      modifies this, source
      ensures Valid() && reactions == old(reactions)
      ensures var (p, d) := PageStep(Components.Last, old(Snapshot()));
        Snapshot() == d && EditOutcome(old(calls), calls, p, handler.message, editFails, closed)
    {
      var rest := source.CollectIterable();
      assert source.Remaining() == [];
      buffer := buffer + rest;
      if |buffer| > 0 {
        index := |buffer| - 1;
        closed := EditMessage(buffer[|buffer| - 1], editFails);
        return;
      }
      closed := false;
    }

    /** `_on_disable`: unbinds the message, deletes it, and always closes. */
    method OnDisable()
      requires Valid()
      modifies handler, this
      ensures Valid() && Snapshot() == old(Snapshot()) && reactions == old(reactions)
      ensures handler.message.None?
      ensures calls == old(calls) + (if old(handler.message).Some? then [Deleted(old(handler.message).value)] else [])
      ensures handler.authors == old(handler.authors) && handler.callbacks == old(handler.callbacks)
    {
      if handler.message.Some? {
        var message := handler.message.value;
        handler.Close();
        calls := calls + [Deleted(message)];
      }
    }

    /** Runs one button; true when it raised `HandlerClosed`. */
    method Execute(button: Components.PaginatorButton, editFails: bool) returns (closed: bool)
      requires Valid()
      modifies handler, this, source
      ensures Valid() && reactions == old(reactions)
      ensures Snapshot() == PageStep(button, old(Snapshot())).1
      ensures button == Components.Stop ==> closed && handler.message.None?
      ensures button != Components.Stop ==>
        handler.message == old(handler.message) &&
        EditOutcome(old(calls), calls, PageStep(button, old(Snapshot())).0, handler.message, editFails, closed)
      ensures handler.authors == old(handler.authors) && handler.callbacks == old(handler.callbacks)
    {
      match button
      case First => closed := OnFirst(editFails);
      case Previous => closed := OnPrevious(editFails);
      case Stop => OnDisable(); closed := true;
      case Next => closed := OnNext(editFails);
      case Last => closed := OnLast(editFails);
    }

    /** `on_reaction_event` of the paginator: the handler's gate, then the
      * button bound to the emoji. */
    method OnReactionEvent(ev: ReactionEvent, now: int, editFails: bool) returns (r: Reaction<Components.PaginatorButton>)
      requires Valid()
      modifies handler, this, source
      ensures Valid() && reactions == old(reactions)
      ensures var g := old(Gate(handler.authors, handler.callbacks, handler.message, ev));
        var expired := old(handler.HasExpired(now));
        (expired ==> r.Closed? && Snapshot() == old(Snapshot()) && handler.message.None?) &&
        (!expired && g.Skip? ==> r.Ignored? && Snapshot() == old(Snapshot()) && calls == old(calls)) &&
        (!expired && g.Unidentified? ==>
           r == Raised(AssertionError) && Snapshot() == old(Snapshot()) && calls == old(calls)) &&
        (!expired && g.Call? ==> Snapshot() == PageStep(g.callback, old(Snapshot())).1 &&
                                 (r.Closed? || r == Ran(g.callback)))
    {
      r := handler.OnReactionEvent(ev, now);
      if r.Ran? {
        var closed := Execute(r.callback, editFails);
        if closed {
          r := Closed;
        }
      }
    }

    /** `on_reaction_event` of the paginator as written: the handler's
      * as-written gate, so an expired paginator drops its message and
      * raises a RuntimeError, which its client lets out. */
    method OnReactionEventAsWritten(ev: ReactionEvent, now: int, editFails: bool)
      returns (r: Reaction<Components.PaginatorButton>)
      requires Valid()
      modifies handler, this, source
      ensures Valid() && reactions == old(reactions)
      ensures var g := old(Gate(handler.authors, handler.callbacks, handler.message, ev));
        var expired := old(handler.HasExpired(now));
        (expired ==> r == Raised(RuntimeError(NO_ACTIVE_EXCEPTION)) && Snapshot() == old(Snapshot()) &&
                     calls == old(calls) && handler.message.None?) &&
        (!expired && g.Skip? ==> r.Ignored? && Snapshot() == old(Snapshot()) && calls == old(calls)) &&
        (!expired && g.Unidentified? ==>
           r == Raised(AssertionError) && Snapshot() == old(Snapshot()) && calls == old(calls)) &&
        (!expired && g.Call? ==> Snapshot() == PageStep(g.callback, old(Snapshot())).1 &&
                                 (r.Closed? || r == Ran(g.callback)))
    {
      r := handler.OnReactionEventAsWritten(ev, now);
      if r.Ran? {
        var closed := Execute(r.callback, editFails);
        if closed {
          r := Closed;
        }
      }
    }

    /** `open`: binds the message, then adds the reactions in order until
      * one fails; NotFound unbinds the message and is raised, Forbidden
      * stops quietly. */
    method Open(message: Snowflake, addReactions: bool, failure: RestFailure) returns (r: Result<Unit>)
      requires Valid()
      modifies handler, this
      ensures Valid() && Snapshot() == old(Snapshot()) && reactions == old(reactions)
      ensures handler.authors == old(handler.authors) && handler.callbacks == old(handler.callbacks)
      ensures !addReactions ==> r.Success? && calls == old(calls) && handler.message == Some(message)
      ensures addReactions ==>
        var k := CallsMade(|reactions|, failure);
        calls == old(calls) + ReactionCalls(reactions[..k], true) &&
        (r.Failure? <==> k < |reactions| && failure.notFound) &&
        (r.Failure? ==> r.error == NotFoundError && handler.message.None?) &&
        (r.Success? ==> handler.message == Some(message))
    {
      handler.Open(message);
      if !addReactions {
        return Success(Unit);
      }
      var i := 0;
      while i < |reactions|
        invariant 0 <= i <= CallsMade(|reactions|, failure)
        invariant calls == old(calls) + ReactionCalls(reactions[..i], true)
        invariant handler.message == Some(message)
        invariant handler.authors == old(handler.authors) && handler.callbacks == old(handler.callbacks)
        invariant buffer == old(buffer) && index == old(index) && reactions == old(reactions)
        decreases |reactions| - i
      {
        if failure.FailsAt? && failure.call == i {
          if failure.notFound {
            handler.Close();
            return Failure(NotFoundError);
          }
          return Success(Unit);
        }
        calls := calls + [ReactionAdded(reactions[i])];
        assert reactions[..i + 1][..i] == reactions[..i];
        i := i + 1;
      }
      r := Success(Unit);
    }

    /** `close`: unbinds the message and, when asked, removes the reactions
      * in order until one removal fails; a second close does nothing. */
    method Close(removeReactions: bool, failure: RestFailure)
      requires Valid()
      modifies handler, this
      ensures Valid() && Snapshot() == old(Snapshot()) && reactions == old(reactions)
      ensures handler.message.None?
      ensures handler.authors == old(handler.authors) && handler.callbacks == old(handler.callbacks)
      ensures old(handler.message).Some? && removeReactions ==>
        var k := CallsMade(|reactions|, failure);
        calls == old(calls) + ReactionCalls(reactions[..k], false)
      ensures old(handler.message).None? || !removeReactions ==> calls == old(calls)
    {
      if handler.message.None? {
        return;
      }
      handler.Close();
      if !removeReactions {
        return;
      }
      var i := 0;
      while i < |reactions|
        invariant 0 <= i <= CallsMade(|reactions|, failure)
        invariant calls == old(calls) + ReactionCalls(reactions[..i], false)
        invariant handler.message.None?
        invariant handler.authors == old(handler.authors) && handler.callbacks == old(handler.callbacks)
        invariant buffer == old(buffer) && index == old(index) && reactions == old(reactions)
        decreases |reactions| - i
      {
        if failure.FailsAt? && failure.call == i {
          return;
        }
        calls := calls + [ReactionRemoved(reactions[i])];
        assert reactions[..i + 1][..i] == reactions[..i];
        i := i + 1;
      }
    }

    /** `create_message`: refuses a running paginator, needs a first page,
      * sends it as a new message and opens on that message. */
    method Create(newMessage: Snowflake, addReactions: bool, failure: RestFailure) returns (r: Result<Snowflake>)
      requires Valid()
      modifies handler, this, source
      ensures Valid() && reactions == old(reactions)
      ensures old(handler.message).Some? ==>
        r == Failure(RuntimeError("ReactionPaginator is already running")) &&
        Snapshot() == old(Snapshot()) && calls == old(calls) && handler.message == old(handler.message)
      ensures old(handler.message).None? ==>
        var (e, d) := Components.NextEntry(old(Snapshot()));
        Snapshot() == d &&
        (e.None? ==> r == Failure(ValueError("ReactionPaginator iterator yielded no pages.")) && calls == old(calls)) &&
        (e.Some? ==> |calls| > |old(calls)| && calls[|old(calls)|] == Created(e.value) &&
                     (r.Success? ==> r.value == newMessage && handler.message == Some(newMessage)) &&
                     (r.Failure? ==> r.error == NotFoundError && handler.message.None?))
    {
      if handler.message.Some? {
        return Failure(RuntimeError("ReactionPaginator is already running"));
      }
      var entry := GetNextEntry();
      if entry.None? {
        return Failure(ValueError("ReactionPaginator iterator yielded no pages."));
      }
      calls := calls + [Created(entry.value)];
      ghost var sent := calls;
      var started := Open(newMessage, addReactions, failure);
      assert calls[..|sent|] == sent;
      if started.Failure? {
        return Failure(started.error);
      }
      r := Success(newMessage);
    }
  }

  // ---------------------------------------------------------------------
  // ReactionClient

  /** A registered handler, by identity. */
  type HandlerId = nat

  /** How a handler's `on_reaction_event` ended, as its client sees it. */
  datatype Signal = Returned | RaisedClosed | RaisedError(error: Error)

  function SignalOf<C>(r: Reaction<C>): Signal
  {
    match r
    case Closed => RaisedClosed
    case Raised(e) => RaisedError(e)
    case _ => Returned
  }

  /** `_on_reaction_event`: blacklisted users are ignored; the message's
    * handler is called and dropped when it raises `HandlerClosed`; any
    * other error propagates and the handler stays. */
  function ClientEvent(handlers: map<Snowflake, HandlerId>, blacklist: seq<Snowflake>, ev: ReactionEvent,
                       outcome: HandlerId -> Signal): (r: (Result<Unit>, map<Snowflake, HandlerId>))
    ensures ev.userId in blacklist || ev.messageId !in handlers ==> r == (Success(Unit), handlers)
    ensures r.1 == handlers || r.1 == handlers - {ev.messageId}
    ensures ev.userId !in blacklist && ev.messageId in handlers ==>
      (r.1 == handlers - {ev.messageId} <==> outcome(handlers[ev.messageId]) == RaisedClosed) &&
      (r.0.Failure? <==> outcome(handlers[ev.messageId]).RaisedError?) &&
      (r.0.Failure? ==> r.0.error == outcome(handlers[ev.messageId]).error)
  {
    if ev.userId in blacklist || ev.messageId !in handlers then (Success(Unit), handlers)
    else match outcome(handlers[ev.messageId])
      case Returned => (Success(Unit), handlers)
      case RaisedClosed => (Success(Unit), handlers - {ev.messageId})
      case RaisedError(e) => (Failure(e), handlers)
  }

  /** As written, an expired handler's event ends in a RuntimeError out of
    * the client, and the handler stays registered. */
  lemma ExpiredHandlerStaysAsWritten<C>(handlers: map<Snowflake, HandlerId>, blacklist: seq<Snowflake>,
                                        ev: ReactionEvent, gate: Gated<C>)
    requires ev.userId !in blacklist && ev.messageId in handlers
    ensures ClientEvent(handlers, blacklist, ev, h => SignalOf(HandlerReactionAsWritten(true, gate))) ==
      (Failure(RuntimeError(NO_ACTIVE_EXCEPTION)), handlers)
  {
  }

  /** As intended, an expired handler's event removes it from the client,
    * and no error leaves the client. */
  lemma ExpiredHandlerIsDropped<C>(handlers: map<Snowflake, HandlerId>, blacklist: seq<Snowflake>,
                                  ev: ReactionEvent, gate: Gated<C>)
    requires ev.userId !in blacklist && ev.messageId in handlers
    ensures ClientEvent(handlers, blacklist, ev, h => SignalOf(HandlerReaction(true, gate))) ==
      (Success(Unit), handlers - {ev.messageId})
  {
  }

  /** `ReactionClient`: the handlers by message id, the blacklisted users
    * and whether `_gc_task` is set (`is_closed` is its negation). */
  class ReactionClient {
    var handlers: map<Snowflake, HandlerId>
    var blacklist: seq<Snowflake>
    var isOpen: bool
    /** Handlers whose `close` the client has called. */
    ghost var closed: set<HandlerId>

    constructor ()
      ensures handlers == map[] && blacklist == [] && !isOpen && closed == {}
    {
      handlers := map[];
      blacklist := [];
      isOpen := false;
      closed := {};
    }

    method OnReactionEvent(ev: ReactionEvent, outcome: HandlerId -> Signal) returns (r: Result<Unit>)
      modifies this
      ensures (r, handlers) == ClientEvent(old(handlers), blacklist, ev, outcome)
      ensures blacklist == old(blacklist) && isOpen == old(isOpen) && closed == old(closed)
    {
      if ev.userId in blacklist {
        return Success(Unit);
      }
      if ev.messageId in handlers {
        var signal := outcome(handlers[ev.messageId]);
        match signal
        case Returned => r := Success(Unit);
        case RaisedClosed =>
          handlers := handlers - {ev.messageId};
          r := Success(Unit);
        case RaisedError(e) => r := Failure(e);
        return;
      }
      r := Success(Unit);
    }

    /** `set_handler`: replaces any handler of the message. */
    method SetHandler(message: Snowflake, handler: HandlerId)
      modifies this
      ensures handlers == old(handlers)[message := handler]
      ensures blacklist == old(blacklist) && isOpen == old(isOpen) && closed == old(closed)
    {
      handlers := handlers[message := handler];
    }

    function GetHandler(message: Snowflake): (r: Option<HandlerId>)
      reads this
      ensures r.Some? <==> message in handlers
      ensures r.Some? ==> r.value == handlers[message]
    {
      if message in handlers then Some(handlers[message]) else None
    }

    /** `remove_handler`: KeyError when the message has no handler. */
    method RemoveHandler(message: Snowflake) returns (r: Result<HandlerId>)
      modifies this
      ensures r.Failure? <==> message !in old(handlers)
      ensures r.Failure? ==> r.error == KeyError && handlers == old(handlers)
      ensures r.Success? ==> r.value == old(handlers)[message] && handlers == old(handlers) - {message}
      ensures blacklist == old(blacklist) && isOpen == old(isOpen) && closed == old(closed)
    {
      if message !in handlers {
        return Failure(KeyError);
      }
      r := Success(handlers[message]);
      handlers := handlers - {message};
    }

    /** One sweep of `_gc`: every expired handler is removed and closed. */
    method Gc(hasExpired: HandlerId -> bool)
      modifies this
      ensures handlers == map m | m in old(handlers) && !hasExpired(old(handlers)[m]) :: old(handlers)[m]
      ensures closed == old(closed) + set m | m in old(handlers) && hasExpired(old(handlers)[m]) :: old(handlers)[m]
      ensures blacklist == old(blacklist) && isOpen == old(isOpen)
    {
      var pending := handlers.Keys;
      ghost var start := handlers;
      while pending != {}
        invariant pending <= start.Keys
        invariant handlers.Keys <= start.Keys
        invariant forall m :: m in handlers ==> handlers[m] == start[m]
        invariant forall m :: m in start && m !in pending ==> (m in handlers <==> !hasExpired(start[m]))
        invariant forall m :: m in pending ==> m in handlers
        invariant closed == old(closed) + set m | m in start && m !in pending && hasExpired(start[m]) :: start[m]
        invariant blacklist == old(blacklist) && isOpen == old(isOpen)
        decreases pending
      {
        var m :| m in pending;
        if hasExpired(handlers[m]) {
          closed := closed + {handlers[m]};
          handlers := handlers - {m};
        }
        pending := pending - {m};
      }
    }

    /** `close` as written: when the gc task is set, drops every handler and
      * closes each, but leaves `_gc_task` set. */
    method CloseAsWritten()
      modifies this
      ensures isOpen == old(isOpen) && blacklist == old(blacklist)
      ensures old(isOpen) ==> handlers == map[] && closed == old(closed) + old(handlers).Values
      ensures !old(isOpen) ==> handlers == old(handlers) && closed == old(closed)
    {
      if isOpen {
        closed := closed + handlers.Values;
        handlers := map[];
      }
    }

    /** `close` as intended: as written, and the gc task is cleared, so the
      * client is closed and can be opened again. */
    method Close()
      modifies this
      ensures !isOpen && blacklist == old(blacklist)
      ensures old(isOpen) ==> handlers == map[] && closed == old(closed) + old(handlers).Values
      ensures !old(isOpen) ==> handlers == old(handlers) && closed == old(closed)
    {
      if isOpen {
        isOpen := false;
        closed := closed + handlers.Values;
        handlers := map[];
      }
    }

    /** `open`: when closed, starts and blacklists the bot's own user, so
      * the bot's own reactions never reach a handler. */
    method Open(myUser: Snowflake)
      modifies this
      ensures isOpen && handlers == old(handlers) && closed == old(closed)
      ensures blacklist == if old(isOpen) then old(blacklist) else old(blacklist) + [myUser]
    {
      if !isOpen {
        isOpen := true;
        blacklist := blacklist + [myUser];
      }
    }
  }

  /** As written, closing an open client leaves `is_closed` false, and a
    * later `open` does nothing (the bot's user is not fetched again). */
  method ReopenAsWritten(c: ReactionClient, myUser: Snowflake) returns (isClosed: bool)
    requires c.isOpen
    modifies c
    ensures !isClosed
    ensures c.isOpen && c.blacklist == old(c.blacklist) && c.handlers == map[]
  {
    c.CloseAsWritten();
    isClosed := !c.isOpen;
    c.Open(myUser);
  }

  /** With the gc task cleared, a closed client reports closed and `open`
    * starts it again. */
  method ReopenRestarts(c: ReactionClient, myUser: Snowflake) returns (isClosed: bool)
    requires c.isOpen
    modifies c
    ensures isClosed
    ensures c.isOpen && c.blacklist == old(c.blacklist) + [myUser] && c.handlers == map[]
  {
    c.Close();
    isClosed := !c.isOpen;
    c.Open(myUser);
  }

  /** Once open, an event from the bot's own user changes nothing. */
  lemma OwnReactionsIgnored(handlers: map<Snowflake, HandlerId>, blacklist: seq<Snowflake>, myUser: Snowflake,
                            ev: ReactionEvent, outcome: HandlerId -> Signal)
    requires ev.userId == myUser
    ensures ClientEvent(handlers, blacklist + [myUser], ev, outcome) == (Success(Unit), handlers)
  {
    assert (blacklist + [myUser])[|blacklist|] == myUser;
  }
}
