/** The reaction paginator with its own event pool (yuyo/paginaton.py).
  * The paginator walks a cursor over a forward-only source of pages, the
  * pool routes reaction events to the paginator registered for their
  * message. Calls to the chat service are recorded in a ghost log; how
  * they fail is given as parameters. */
module Paginaton {
  import opened Wrappers
  import Internal
  import Components
  import Reactions
  import Pagination

  type Snowflake = nat

  const NO_PAGES: string := "Paginator iterator yielded no pages."

  /** The button `_emoji_mapping` binds to an emoji, if any. */
  function ButtonOf(emoji: string): (r: Option<Components.PaginatorButton>)
    ensures r == Some(Components.First) <==> emoji == Reactions.LEFT_DOUBLE_TRIANGLE
    ensures r == Some(Components.Previous) <==> emoji == Reactions.LEFT_TRIANGLE
    ensures r == Some(Components.Stop) <==> emoji == Reactions.STOP_SQUARE
    ensures r == Some(Components.Next) <==> emoji == Reactions.RIGHT_TRIANGLE
    ensures r == Some(Components.Last) <==> emoji == Reactions.RIGHT_DOUBLE_TRIANGLE
  {
    if emoji == Reactions.LEFT_DOUBLE_TRIANGLE then Some(Components.First)
    else if emoji == Reactions.LEFT_TRIANGLE then Some(Components.Previous)
    else if emoji == Reactions.STOP_SQUARE then Some(Components.Stop)
    else if emoji == Reactions.RIGHT_TRIANGLE then Some(Components.Next)
    else if emoji == Reactions.RIGHT_DOUBLE_TRIANGLE then Some(Components.Last)
    else None
  }

  /** The checks `on_reaction_event` makes before running a button: a bound
    * message, an allowed user (anyone when there are no authors), no
    * running `_on_last`, and an emoji that is both a trigger and mapped. */
  function Gate(message: Option<Snowflake>, authors: set<Snowflake>, locked: bool, triggers: seq<string>,
                emoji: string, user: Snowflake): (r: Option<Components.PaginatorButton>)
    ensures r.Some? <==>
      message.Some? && (authors == {} || user in authors) && !locked && emoji in triggers && ButtonOf(emoji).Some?
    ensures r.Some? ==> r == ButtonOf(emoji)
  {
    if message.None? || (authors != {} && user !in authors) || locked then None
    else if emoji !in triggers then None
    else ButtonOf(emoji)
  }

  // ---------------------------------------------------------------------
  // The cursor

  /** As written, `__init__` starts the index at 0 over an empty buffer. */
  function StartAsWritten<T>(source: seq<T>): (c: Internal.Cursor<T>)
    ensures c.Placed() && !c.InRange()
  {
    Internal.Cursor([], 0, Some(source))
  }

  /** The start the step functions are written for: the index at -1, before
    * the first page, as the other paginators of the library have it. */
  function Start<T>(source: seq<T>): (c: Internal.Cursor<T>)
    ensures c.InRange() && c.Pages() == source
  {
    Internal.Cursor([], -1, Some(source))
  }

  /** As written, the index runs one past the page on screen: after two
    * pages, "previous" shows the second page again. */
  lemma PreviousRepeatsPageAsWritten()
    ensures var (p1, c1) := Components.NextEntry(StartAsWritten([1, 2]));
      c1.Placed() &&
      var (p2, c2) := Components.NextEntry(c1);
      p1 == Some(1) && p2 == Some(2) && c2.Placed() && Components.PreviousStep(c2).0 == Components.ShowPage(2)
  {
    var c1 := Internal.Cursor([1], 1, Some([2]));
    assert [] + [1] == [1] && [1, 2][1..] == [2];
    assert [1] + [2] == [1, 2] && [2][1..] == [];
    assert Components.NextEntry(StartAsWritten([1, 2])) == (Some(1), c1);
    assert Components.NextEntry(c1) == (Some(2), Internal.Cursor([1, 2], 2, Some([])));
  }

  /** From the corrected start, "previous" after two pages goes back to the
    * first page. */
  lemma PreviousGoesBack<T>(source: seq<T>)
    requires |source| >= 2
    ensures var (p1, c1) := Components.NextEntry(Start(source));
      c1.InRange() &&
      var (p2, c2) := Components.NextEntry(c1);
      p1 == Some(source[0]) && p2 == Some(source[1]) && c2.InRange() &&
      Components.PreviousStep(c2).0 == Components.ShowPage(source[0])
  {
    Components.NextEntryServesPages(Start(source));
    var (p1, c1) := Components.NextEntry(Start(source));
    Components.NextEntryServesPages(c1);
  }

  /** `_on_first`: nothing at index 0, else the first buffered page, with
    * the index left where it is; an empty buffer raises IndexError. */
  function FirstStep<T>(c: Internal.Cursor<T>): (r: Result<Option<T>>)
    requires c.Placed()
    ensures r.Failure? <==> c.index != 0 && c.buffer == []
    ensures r.Failure? ==> r.error == IndexError
    ensures r == Success(None) <==> c.index == 0
  {
    if c.index == 0 then Success(None)
    else if c.buffer == [] then Failure(IndexError)
    else Success(Some(c.buffer[0]))
  }

  /** What a page button returns and where it leaves the cursor. */
  function Step<T>(b: Components.PaginatorButton, c: Internal.Cursor<T>): (r: (Result<Option<T>>, Internal.Cursor<T>))
    requires c.Placed() && b != Components.Stop
    ensures r.0.Failure? <==> b == Components.First && c.index != 0 && c.buffer == []
    ensures b == Components.First ==> r.1 == c
    ensures b == Components.Previous ==> (r.0 == Success(None) <==> c.index <= 0)
    ensures b == Components.Next ==> (r.0 == Success(None) ==> r.1 == c)
    ensures b == Components.Last ==> r.1.buffer == c.Pages() && r.1.source.Some? == c.source.Some?
  {
    match b
    case First => (FirstStep(c), c)
    case Previous => var (a, d) := Components.PreviousStep(c); (Success(Reactions.Shown(a)), d)
    case Next => var (e, d) := Components.NextEntry(c); (Success(e), d)
    case Last => var (e, d) := Reactions.LastStep(c); (Success(e), d)
  }

  /** From the corrected start, every page button keeps the reachable pages
    * and the index in range, and a page it returns is the page at the
    * index, except "first", which returns the first page wherever the index
    * is. */
  lemma StepKeepsCursor<T>(b: Components.PaginatorButton, c: Internal.Cursor<T>)
    requires c.InRange() && b != Components.Stop
    ensures var (r, d) := Step(b, c);
      d.InRange() && d.Pages() == c.Pages() &&
      (r.Success? && r.value.Some? && b == Components.First ==> r.value.value == c.Pages()[0]) &&
      (r.Success? && r.value.Some? && b != Components.First ==> 0 <= d.index && r.value.value == d.Pages()[d.index])
  {
    Reactions.PageStepKeepsCursor(b, c);
  }

  /** The index as written stays within `0 <= index <= len(buffer)`: every
    * page button keeps the reachable pages and that bound, and none of them
    * raises, since "first" only indexes the buffer when it is not empty. */
  lemma {:induction false} StepKeepsCursorAsWritten<T>(b: Components.PaginatorButton, c: Internal.Cursor<T>)
    requires 0 <= c.index <= |c.buffer| && b != Components.Stop
    ensures var (r, d) := Step(b, c);
      0 <= d.index <= |d.buffer| && d.Pages() == c.Pages() && r.Success?
  {
    if b == Components.Next && |c.buffer| < c.index + 2 && c.source.Some? && |c.source.value| > 0 {
      var d := Components.NextEntry(c).1;
      assert c.source.value == [c.source.value[0]] + c.source.value[1..];
      assert d.Pages() == c.buffer + [c.source.value[0]] + c.source.value[1..];
    }
  }

  /** A button that returns no page ends the paginator: "first" on the
    * first page, "previous" before the second and "next" past the last. */
  lemma NoPageOnTheEdges<T>(c: Internal.Cursor<T>)
    requires c.InRange()
    ensures c.index == 0 ==> Step(Components.First, c).0 == Success(None)
    ensures c.index <= 0 ==> Step(Components.Previous, c).0 == Success(None)
    ensures c.index + 1 >= |c.Pages()| ==> Step(Components.Next, c).0 == Success(None)
  {
    Components.NextEntryServesPages(c);
  }

  /** As written, right after `open()` sent the first page, "previous" shows
    * that page again (and the paginator stays); after `open(message=...)`
    * "first" finds index 0 and returns nothing, which ends the paginator. */
  lemma OpenedEdgesAsWritten<T>(source: seq<T>)
    requires |source| > 0
    ensures var (p, c) := Components.NextEntry(StartAsWritten(source));
      p == Some(source[0]) && c.Placed() && Step(Components.Previous, c).0 == Success(Some(source[0]))
    ensures Step(Components.First, StartAsWritten(source)).0 == Success(None)
  {
    assert [] + [source[0]] == [source[0]];
  }

  // ---------------------------------------------------------------------
  // Retried calls

  /** How one try of a call to the chat service ends. */
  datatype Attempt = Answered | Raises(error: Error)

  /** Whether an `async for _ in retry` loop of `open` swallows the failure
    * and tries again: a server error, or a rate limit no longer than
    * `max_backoff`. */
  function Retried(a: Attempt, maxBackoff: real): (r: bool)
    ensures a.Answered? ==> !r
    ensures a.Raises? && a.error.InternalServerError? ==> r
    ensures a.Raises? && a.error.RateLimitedError? ==> (r <==> a.error.retryAfter <= maxBackoff)
    ensures a.Raises? && (a.error.NotFoundError? || a.error.ForbiddenError?) ==> !r
  {
    a.Raises? && (a.error.InternalServerError? || (a.error.RateLimitedError? && a.error.retryAfter <= maxBackoff))
  }

  /** Where the retry loop for call `call` stops, from try `j` on: tries
    * 0..n run in the loop (a `Backoff` with `max_retries` n yields n + 1
    * times), the first try that is not retried ends it (the flag is true),
    * and when every one was retried the `else` clause makes try n + 1, with
    * nothing caught. */
  function LoopEnd(rest: (nat, nat) -> Attempt, call: nat, j: nat, n: nat, maxBackoff: real): (r: (nat, bool))
    requires j <= n + 1
    ensures j <= r.0 <= n + 1
    ensures r.1 <==> r.0 <= n
    ensures r.1 ==> !Retried(rest(call, r.0), maxBackoff)
    ensures forall i :: j <= i < r.0 ==> Retried(rest(call, i), maxBackoff)
    decreases n + 1 - j
  {
    if j == n + 1 then (n + 1, false)
    else if Retried(rest(call, j), maxBackoff) then LoopEnd(rest, call, j + 1, n, maxBackoff)
    else (j, true)
  }

  /** The loop `open` runs around one call: the try it stopped at and
    * whether that try was inside the loop. */
  method RetryLoop(rest: (nat, nat) -> Attempt, call: nat, n: nat, maxBackoff: real) returns (k: nat, caught: bool)
    ensures (k, caught) == LoopEnd(rest, call, 0, n, maxBackoff)
  {
    var j := 0;
    while j <= n && Retried(rest(call, j), maxBackoff)
      invariant 0 <= j <= n + 1
      invariant LoopEnd(rest, call, j, n, maxBackoff) == LoopEnd(rest, call, 0, n, maxBackoff)
      decreases n + 1 - j
    {
      j := j + 1;
    }
    k, caught := j, j <= n;
  }

  /** The reactions of `open` from trigger `i` on (adding trigger i is call
    * i + 1, call 0 creating the message): how many triggers were added in
    * all, what `open` returns, and whether the message stays bound. A
    * reaction that fails inside its loop with NotFound unbinds the message
    * and is raised, with Forbidden returns quietly, with anything else
    * (a long rate limit) is raised; the `else` call's failure is raised
    * with the message still bound. */
  function ReactFrom(triggers: seq<string>, i: nat, n: nat, maxBackoff: real, rest: (nat, nat) -> Attempt,
                     created: Option<Snowflake>): (r: (nat, Result<Option<Snowflake>>, bool))
    requires i <= |triggers|
    ensures i <= r.0 <= |triggers|
    ensures r.1.Success? && r.0 < |triggers| ==> rest(r.0 + 1, LoopEnd(rest, r.0 + 1, 0, n, maxBackoff).0) == Raises(ForbiddenError)
    ensures r.1.Success? ==> r.1.value == created && r.2
    ensures !r.2 ==> r.1 == Failure(NotFoundError)
    decreases |triggers| - i
  {
    if i == |triggers| then (i, Success(created), true)
    else
      var (k, caught) := LoopEnd(rest, i + 1, 0, n, maxBackoff);
      match rest(i + 1, k)
      case Answered => ReactFrom(triggers, i + 1, n, maxBackoff, rest, created)
      case Raises(e) =>
        if caught && e == NotFoundError then (i, Failure(NotFoundError), false)
        else if caught && e == ForbiddenError then (i, Success(created), true)
        else (i, Failure(e), true)
  }

  // ---------------------------------------------------------------------
  // Paginator

  /** The calls the paginator makes to the chat service. */
  datatype Call<T> = Created(page: T) | Edited(message: Snowflake, page: T) | Deleted(message: Snowflake)
    | ReactionAdded(message: Snowflake, emoji: string) | ReactionRemoved(message: Snowflake, emoji: string)

  /** The calls that add (or, with `add` false, remove) the given reactions
    * on a message, in order. */
  function ReactionCalls<T>(message: Snowflake, emojis: seq<string>, add: bool): (r: seq<Call<T>>)
    ensures |r| == |emojis|
  {
    if emojis == [] then []
    else
      var e := emojis[|emojis| - 1];
      ReactionCalls(message, emojis[..|emojis| - 1], add) +
        [if add then ReactionAdded(message, e) else ReactionRemoved(message, e)]
  }

  /** The removals `close` makes on `m`: one per trigger, in order, up to
    * the first that fails. */
  function RemovalCalls<T>(m: Snowflake, triggers: seq<string>, failure: Reactions.RestFailure): seq<Call<T>>
  {
    ReactionCalls(m, triggers[..Reactions.CallsMade(|triggers|, failure)], false)
  }

  /** How an event ends: None (the paginator stays), END, or an error. */
  datatype EventResult = Continue | End | Raised(error: Error)

  class Paginator<T> {
    var authors: set<Snowflake>
    var buffer: seq<T>
    var index: int
    const source: Internal.Iterator<T>
    /** When a button last showed a page (seconds). */
    var lastTriggered: int
    var locked: bool
    var message: Option<Snowflake>
    const timeout: int
    const triggers: seq<string>
    ghost var calls: seq<Call<T>>

    ghost predicate Valid()
      reads this, source
    {
      -1 <= index <= |buffer| && source.Valid()
    }

    function Snapshot(): (c: Internal.Cursor<T>)
      reads this, source
      requires Valid()
      ensures c.Placed()
    {
      Internal.Cursor(buffer, index, Some(source.Remaining()))
    }

    /** `__init__` as written: the index starts at 0 over an empty buffer. */
    constructor (source: Internal.Iterator<T>, authors: set<Snowflake>, triggers: seq<string>, timeout: int, now: int)
      requires source.Valid()
      ensures Valid() && this.source == source && Snapshot() == StartAsWritten(source.Remaining())
      ensures this.authors == authors && this.triggers == triggers && this.timeout == timeout
      ensures lastTriggered == now && !locked && message.None? && calls == []
    {
      this.authors := authors;
      buffer := [];
      index := 0;
      this.source := source;
      lastTriggered := now;
      locked := false;
      message := None;
      this.timeout := timeout;
      this.triggers := triggers;
      calls := [];
    }

    /** The corrected `__init__`: the index starts at -1, before the first
      * page, so that the page on screen is the page at the index. */
    constructor Corrected(source: Internal.Iterator<T>, authors: set<Snowflake>, triggers: seq<string>, timeout: int,
                          now: int)
      requires source.Valid()
      ensures Valid() && this.source == source && Snapshot() == Start(source.Remaining())
      ensures this.authors == authors && this.triggers == triggers && this.timeout == timeout
      ensures lastTriggered == now && !locked && message.None? && calls == []
    {
      this.authors := authors;
      buffer := [];
      index := -1;
      this.source := source;
      lastTriggered := now;
      locked := false;
      message := None;
      this.timeout := timeout;
      this.triggers := triggers;
      calls := [];
    }

    /** `expired`: more than the timeout since a button last showed a page. */
    predicate HasExpired(now: int)
      reads this
    {
      timeout < now - lastTriggered
    }

    /** `_on_disable`: unbinds the message and deletes it (one delete, as the
      * retry loop makes at most one that succeeds). */
    method OnDisable()
      requires Valid()
      modifies this
      ensures Valid() && Snapshot() == old(Snapshot()) && message.None?
      ensures calls == old(calls) + (if old(message).Some? then [Deleted(old(message).value)] else [])
      ensures authors == old(authors) && lastTriggered == old(lastTriggered) && locked == old(locked)
    {
      if message.Some? {
        calls := calls + [Deleted(message.value)];
        message := None;
      }
    }

    method OnFirst() returns (r: Result<Option<T>>)
      requires Valid()
      ensures r == FirstStep(Snapshot())
    {
      if index == 0 {
        return Success(None);
      }
      if buffer == [] {
        return Failure(IndexError);
      }
      r := Success(Some(buffer[0]));
    }

    /** `_on_last`: locked while the source is drained into the buffer. */
    method OnLast() returns (r: Option<T>)
      requires Valid()
      modifies this, source
      ensures Valid() && (r, Snapshot()) == Reactions.LastStep(old(Snapshot()))
      ensures !locked && message == old(message) && calls == old(calls)
      ensures authors == old(authors) && lastTriggered == old(lastTriggered)
    {
      locked := true;
      var rest := source.CollectIterable();
      assert source.Remaining() == [];
      buffer := buffer + rest;
      locked := false;
      if |buffer| > 0 {
        index := |buffer| - 1;
        return Some(buffer[|buffer| - 1]);
      }
      r := None;
    }

    method OnNext() returns (r: Option<T>)
      requires Valid()
      modifies this, source
      ensures Valid() && (r, Snapshot()) == Components.NextEntry(old(Snapshot()))
      ensures locked == old(locked) && message == old(message) && calls == old(calls)
      ensures authors == old(authors) && lastTriggered == old(lastTriggered)
    {
      if |buffer| >= index + 2 {
        index := index + 1;
        return Some(buffer[index]);
      }
      var entry := source.SeekIterator();
      if entry.Some? {
        index := index + 1;
        buffer := buffer + [entry.value];
      }
      r := entry;
    }

    method OnPrevious() returns (r: Option<T>)
      requires Valid()
      modifies this
      ensures Valid() && Snapshot() == Components.PreviousStep(old(Snapshot())).1
      ensures r == Reactions.Shown(Components.PreviousStep(old(Snapshot())).0)
      ensures locked == old(locked) && message == old(message) && calls == old(calls)
      ensures authors == old(authors) && lastTriggered == old(lastTriggered)
    {
      if index <= 0 {
        return None;
      }
      index := index - 1;
      r := Some(buffer[index]);
    }

    method AddAuthor(user: Snowflake)
      modifies this
      ensures authors == old(authors) + {user}
      ensures buffer == old(buffer) && index == old(index) && message == old(message) && calls == old(calls)
    {
      authors := authors + {user};
    }

    /** `remove_author`: silent when the user is not an author. */
    method RemoveAuthor(user: Snowflake)
      modifies this
      ensures authors == old(authors) - {user}
      ensures buffer == old(buffer) && index == old(index) && message == old(message) && calls == old(calls)
    {
      authors := authors - {user};
    }

    /** `close`: unbinds the message and removes the trigger reactions in
      * order until one removal fails; `removeReactions` makes no difference. */
    method Close(removeReactions: bool, failure: Reactions.RestFailure)
      requires Valid()
      modifies this
      ensures Valid() && Snapshot() == old(Snapshot()) && message.None?
      ensures old(message).Some? ==> calls == old(calls) + RemovalCalls(old(message).value, triggers, failure)
      ensures old(message).None? ==> calls == old(calls)
      ensures authors == old(authors) && lastTriggered == old(lastTriggered) && locked == old(locked)
    {
      if message.None? {
        return;
      }
      var m := message.value;
      message := None;
      var i := 0;
      while i < |triggers|
        invariant 0 <= i <= Reactions.CallsMade(|triggers|, failure)
        invariant calls == old(calls) + ReactionCalls(m, triggers[..i], false)
        invariant message.None? && buffer == old(buffer) && index == old(index)
        invariant authors == old(authors) && lastTriggered == old(lastTriggered) && locked == old(locked)
        decreases |triggers| - i
      {
        if failure.FailsAt? && failure.call == i {
          return;
        }
        calls := calls + [ReactionRemoved(m, triggers[i])];
        assert triggers[..i + 1][..i] == triggers[..i];
        i := i + 1;
      }
    }

    /** `open`: nothing when already bound; a `max_retries` below 2 makes
      * the `Backoff` refuse; without a message, takes the next page (none
      * is a ValueError) and sends it as a new message (`newMessage`) under
      * the retry loop, call 0 of `rest`; then binds the message and adds
      * the trigger reactions. Only a message created inside the loop is
      * returned: one created by the loop's `else` clause is sent and bound,
      * but `open` then returns None. */
    method Open(given: Option<Snowflake>, newMessage: Snowflake, maxRetries: int, maxBackoff: real,
                rest: (nat, nat) -> Attempt) returns (r: Result<Option<Snowflake>>)
      requires Valid()
      modifies this, source
      ensures Valid() && authors == old(authors) && lastTriggered == old(lastTriggered) && locked == old(locked)
      ensures old(message).Some? ==>
        r == Success(None) && Snapshot() == old(Snapshot()) && calls == old(calls) && message == old(message)
      ensures old(message).None? && maxRetries < 2 ==>
        r == Failure(ValueError("max_retries must be greater than 1")) &&
        Snapshot() == old(Snapshot()) && calls == old(calls) && message.None?
      ensures old(message).None? && maxRetries >= 2 && given.Some? ==>
        Snapshot() == old(Snapshot()) &&
        AddedTriggers(old(calls), calls, given.value, maxRetries - 1, maxBackoff, rest, None, r, message)
      ensures old(message).None? && maxRetries >= 2 && given.None? ==>
        var (e, d) := Components.NextEntry(old(Snapshot()));
        var create := rest(0, LoopEnd(rest, 0, 0, maxRetries - 1, maxBackoff).0);
        Snapshot() == d &&
        (e.None? ==> r == Failure(ValueError(NO_PAGES)) && calls == old(calls) && message.None?) &&
        (e.Some? && create.Raises? ==> r == Failure(create.error) && calls == old(calls) && message.None?) &&
        (e.Some? && create.Answered? ==>
          AddedTriggers(old(calls) + [Created(e.value)], calls, newMessage, maxRetries - 1, maxBackoff, rest,
                        if LoopEnd(rest, 0, 0, maxRetries - 1, maxBackoff).1 then Some(newMessage) else None, r, message))
    {
      if message.Some? {
        return Success(None);
      }
      if maxRetries < 2 {
        return Failure(ValueError("max_retries must be greater than 1"));
      }
      var n := maxRetries - 1;
      var created: Option<Snowflake> := None;
      var m: Snowflake;
      if given.None? {
        var entry := OnNext();
        if entry.None? {
          return Failure(ValueError(NO_PAGES));
        }
        var k, caught := RetryLoop(rest, 0, n, maxBackoff);
        if rest(0, k).Raises? {
          return Failure(rest(0, k).error);
        }
        calls := calls + [Created(entry.value)];
        if caught {
          created := Some(newMessage);
        }
        m := newMessage;
      } else {
        m := given.value;
      }
      r := AddTriggers(m, created, n, maxBackoff, rest);
    }

    /** The calls and the outcome of the reactions `open` adds on `m`. */
    ghost predicate AddedTriggers(before: seq<Call<T>>, after: seq<Call<T>>, m: Snowflake, n: nat, maxBackoff: real,
                                  rest: (nat, nat) -> Attempt, created: Option<Snowflake>,
                                  r: Result<Option<Snowflake>>, bound: Option<Snowflake>)
      reads this
    {
      var (k, result, stays) := ReactFrom(triggers, 0, n, maxBackoff, rest, created);
      after == before + ReactionCalls(m, triggers[..k], true) && r == result &&
      bound == if stays then Some(m) else None
    }

    /** The second half of `open`: binds the message and adds the trigger
      * reactions in order, each under its own retry loop (`retry.reset()`),
      * until one fails. */
    method AddTriggers(m: Snowflake, created: Option<Snowflake>, n: nat, maxBackoff: real, rest: (nat, nat) -> Attempt)
      returns (r: Result<Option<Snowflake>>)
      requires Valid()
      modifies this
      ensures Valid() && Snapshot() == old(Snapshot())
      ensures authors == old(authors) && lastTriggered == old(lastTriggered) && locked == old(locked)
      ensures AddedTriggers(old(calls), calls, m, n, maxBackoff, rest, created, r, message)
    {
      message := Some(m);
      var i := 0;
      while i < |triggers|
        invariant 0 <= i <= |triggers|
        invariant ReactFrom(triggers, i, n, maxBackoff, rest, created) == ReactFrom(triggers, 0, n, maxBackoff, rest, created)
        invariant calls == old(calls) + ReactionCalls(m, triggers[..i], true)
        invariant message == Some(m) && buffer == old(buffer) && index == old(index)
        invariant authors == old(authors) && lastTriggered == old(lastTriggered) && locked == old(locked)
        decreases |triggers| - i
      {
        var k, caught := RetryLoop(rest, i + 1, n, maxBackoff);
        if rest(i + 1, k).Raises? {
          var e := rest(i + 1, k).error;
          if caught && e == NotFoundError {
            message := None;
            return Failure(NotFoundError);
          }
          if caught && e == ForbiddenError {
            return Success(created);
          }
          return Failure(e);
        }
        calls := calls + [ReactionAdded(m, triggers[i])];
        assert triggers[..i + 1][..i] == triggers[..i];
        i := i + 1;
      }
      assert triggers[..i] == triggers;
      r := Success(created);
    }

    /** `on_reaction_event`: an expired paginator is closed and ends; an
      * event that fails the gate is ignored; the stop button deletes the
      * message and ends; a page button that returns no page ends the
      * paginator, and one that returns a page marks the paginator as used
      * and edits the message to it, ending when the edit is refused. */
    method OnReactionEvent(emoji: string, user: Snowflake, now: int, editFails: bool,
                           closeFailure: Reactions.RestFailure) returns (r: EventResult)
      requires Valid()
      modifies this, source
      ensures Valid() && authors == old(authors) && locked == old(locked)
      ensures old(HasExpired(now)) ==>
        r == End && message.None? && Snapshot() == old(Snapshot()) && lastTriggered == old(lastTriggered) &&
        (old(message).Some? ==> calls == old(calls) + RemovalCalls(old(message).value, triggers, closeFailure)) &&
        (old(message).None? ==> calls == old(calls))
      ensures !old(HasExpired(now)) && old(Gate(message, authors, locked, triggers, emoji, user)).None? ==>
        r == Continue && Snapshot() == old(Snapshot()) && message == old(message) && calls == old(calls) &&
        lastTriggered == old(lastTriggered)
      ensures !old(HasExpired(now)) && old(Gate(message, authors, locked, triggers, emoji, user)) == Some(Components.Stop) ==>
        r == End && Snapshot() == old(Snapshot()) && message.None? &&
        calls == old(calls) + [Deleted(old(message).value)] && lastTriggered == old(lastTriggered)
      ensures !old(HasExpired(now)) && old(Gate(message, authors, locked, triggers, emoji, user)).Some? &&
              old(Gate(message, authors, locked, triggers, emoji, user)) != Some(Components.Stop) ==>
        var (res, d) := Step(old(Gate(message, authors, locked, triggers, emoji, user)).value, old(Snapshot()));
        Snapshot() == d && message == old(message) &&
        (res.Failure? ==> r == Raised(res.error) && calls == old(calls) && lastTriggered == old(lastTriggered)) &&
        (res == Success(None) ==> r == End && calls == old(calls) && lastTriggered == old(lastTriggered)) &&
        (res.Success? && res.value.Some? ==>
          lastTriggered == now && calls == old(calls) + [Edited(old(message).value, res.value.value)] &&
          r == (if editFails then End else Continue))
    {
      if HasExpired(now) {
        Close(true, closeFailure);
        return End;
      }
      var g := Gate(message, authors, locked, triggers, emoji, user);
      if g.None? {
        return Continue;
      }
      var res: Result<Option<T>>;
      match g.value {
        case Stop =>
          OnDisable();
          return End;
        case First => res := OnFirst();
        case Previous => var p := OnPrevious(); res := Success(p);
        case Next => var p := OnNext(); res := Success(p);
        case Last => var p := OnLast(); res := Success(p);
      }
      if res.Failure? {
        return Raised(res.error);
      }
      if res.value.None? {
        return End;
      }
      lastTriggered := now;
      calls := calls + [Edited(message.value, res.value.value)];
      r := if editFails then End else Continue;
    }
  }

  // ---------------------------------------------------------------------
  // PaginatorPool

  /** A registered paginator, by identity. */
  type PaginatorId = nat

  /** `PaginatorPool`: the paginators by message id, the users whose
    * reactions are ignored, and whether the gc task was ever started. */
  class PaginatorPool {
    var listeners: map<Snowflake, PaginatorId>
    var blacklist: seq<Snowflake>
    var gcStarted: bool
    /** Paginators whose `close` the pool has called. */
    ghost var closed: set<PaginatorId>

    constructor ()
      ensures listeners == map[] && blacklist == [] && !gcStarted && closed == {}
    {
      listeners := map[];
      blacklist := [];
      gcStarted := false;
      closed := {};
    }

    /** `_on_reaction_event`: blacklisted users are ignored; the message's
      * paginator is run and dropped when it returns END; an error it raises
      * propagates and it stays. */
    method OnReactionEvent(user: Snowflake, messageId: Snowflake, outcome: PaginatorId -> EventResult)
      returns (r: Result<Unit>)
      modifies this
      ensures blacklist == old(blacklist) && gcStarted == old(gcStarted) && closed == old(closed)
      ensures user in blacklist || messageId !in old(listeners) ==> r.Success? && listeners == old(listeners)
      ensures user !in blacklist && messageId in old(listeners) ==>
        match outcome(old(listeners)[messageId])
        case Continue => r.Success? && listeners == old(listeners)
        case End => r.Success? && listeners == old(listeners) - {messageId}
        case Raised(e) => r == Failure(e) && listeners == old(listeners)
    {
      if user in blacklist {
        return Success(Unit);
      }
      if messageId in listeners {
        var result := outcome(listeners[messageId]);
        match result {
          case Continue => r := Success(Unit);
          case End =>
            listeners := listeners - {messageId};
            r := Success(Unit);
          case Raised(e) => r := Failure(e);
        }
        return;
      }
      r := Success(Unit);
    }

    /** `add_paginator`: replaces any paginator of the message. */
    method AddPaginator(message: Snowflake, paginator: PaginatorId)
      modifies this
      ensures listeners == old(listeners)[message := paginator]
      ensures blacklist == old(blacklist) && gcStarted == old(gcStarted) && closed == old(closed)
    {
      listeners := listeners[message := paginator];
    }

    function GetPaginator(message: Snowflake): (r: Option<PaginatorId>)
      reads this
      ensures r.Some? <==> message in listeners
      ensures r.Some? ==> r.value == listeners[message]
    {
      if message in listeners then Some(listeners[message]) else None
    }

    /** `remove_paginator`: KeyError when the message has no paginator. */
    method RemovePaginator(message: Snowflake) returns (r: Result<PaginatorId>)
      modifies this
      ensures r.Failure? <==> message !in old(listeners)
      ensures r.Failure? ==> r.error == KeyError && listeners == old(listeners)
      ensures r.Success? ==> r.value == old(listeners)[message] && listeners == old(listeners) - {message}
      ensures blacklist == old(blacklist) && gcStarted == old(gcStarted) && closed == old(closed)
    {
      if message !in listeners {
        return Failure(KeyError);
      }
      r := Success(listeners[message]);
      listeners := listeners - {message};
    }

    /** One sweep of `_gc`: every expired paginator is removed and closed. */
    method Gc(expired: PaginatorId -> bool)
      modifies this
      ensures listeners == map m | m in old(listeners) && !expired(old(listeners)[m]) :: old(listeners)[m]
      ensures closed == old(closed) + set m | m in old(listeners) && expired(old(listeners)[m]) :: old(listeners)[m]
      ensures blacklist == old(blacklist) && gcStarted == old(gcStarted)
    {
      var pending := listeners.Keys;
      ghost var start := listeners;
      while pending != {}
        invariant pending <= start.Keys
        invariant listeners.Keys <= start.Keys
        invariant forall m :: m in listeners ==> listeners[m] == start[m]
        invariant forall m :: m in start && m !in pending ==> (m in listeners <==> !expired(start[m]))
        invariant forall m :: m in pending ==> m in listeners
        invariant closed == old(closed) + set m | m in start && m !in pending && expired(start[m]) :: start[m]
        invariant blacklist == old(blacklist) && gcStarted == old(gcStarted)
        decreases pending
      {
        var m :| m in pending;
        if expired(listeners[m]) {
          closed := closed + {listeners[m]};
          listeners := listeners - {m};
        }
        pending := pending - {m};
      }
    }

    /** `close`: once the gc task was started, drops every paginator and
      * closes each. The task is cancelled but never cleared, so `close`
      * stays armed and `open` never runs again. */
    method Close()
      modifies this
      ensures gcStarted == old(gcStarted) && blacklist == old(blacklist)
      ensures gcStarted ==> listeners == map[] && closed == old(closed) + old(listeners).Values
      ensures !gcStarted ==> listeners == old(listeners) && closed == old(closed)
    {
      if gcStarted {
        closed := closed + listeners.Values;
        listeners := map[];
      }
    }

    /** `open`: the first time, starts the gc task and blacklists the bot's
      * own user; afterwards it does nothing. */
    method Open(myUser: Snowflake)
      modifies this
      ensures gcStarted && listeners == old(listeners) && closed == old(closed)
      ensures blacklist == if old(gcStarted) then old(blacklist) else old(blacklist) + [myUser]
    {
      if !gcStarted {
        gcStarted := true;
        blacklist := blacklist + [myUser];
      }
    }
  }

  // ---------------------------------------------------------------------
  // string_paginator

  /** Each page paired with its position, and rendered from what was
    * emitted in that position. */
  ghost predicate NumberedAs(pages: seq<(string, int)>, emitted: seq<Pagination.Emitted>,
                             wrapper: Option<Pagination.Wrapper>)
  {
    |pages| == |emitted| && forall i :: 0 <= i < |pages| ==> pages[i] == (Pagination.Render(emitted[i], wrapper), i)
  }

  /** The inner loop of `string_paginator`: each piece of a long line is
    * yielded under the next number. */
  method NumberPieces(pages: seq<(string, int)>, ghost emitted: seq<Pagination.Emitted>, subPages: seq<string>,
                      wrapper: Option<Pagination.Wrapper>)
    returns (r: seq<(string, int)>, ghost after: seq<Pagination.Emitted>)
    requires NumberedAs(pages, emitted, wrapper)
    ensures after == emitted + Pagination.Pieces(subPages) && NumberedAs(r, after, wrapper)
  {
    var pageNumber := |pages| - 1;
    r := pages;
    after := emitted;
    var j := 0;
    while j < |subPages|
      invariant 0 <= j <= |subPages|
      invariant after == emitted + Pagination.Pieces(subPages[..j])
      invariant pageNumber == |r| - 1 && NumberedAs(r, after, wrapper)
      decreases |subPages| - j
    {
      pageNumber := pageNumber + 1;
      ghost var r0, a0 := r, after;
      r := r + [(Pagination.Render(Pagination.Piece(subPages[j]), wrapper), pageNumber)];
      Pagination.PiecesAppend(subPages[..j], [subPages[j]]);
      assert subPages[..j + 1] == subPages[..j] + [subPages[j]];
      after := after + [Pagination.Piece(subPages[j])];
      assert forall i :: 0 <= i < |r0| ==> r[i] == r0[i] && after[i] == a0[i];
      j := j + 1;
    }
    assert subPages[..j] == subPages;
  }

  /** The long-line branch of `string_paginator`: a short last piece joins
    * the page and the other pieces are yielded under the next numbers. */
  method PlaceLongLine(pages: seq<(string, int)>, ghost emitted: seq<Pagination.Emitted>, page: seq<string>,
                       pageSize: int, line: string, limit: int, wrapper: Option<Pagination.Wrapper>)
    returns (pages': seq<(string, int)>, ghost emitted': seq<Pagination.Emitted>, page': seq<string>, pageSize': int)
    requires |line| >= limit >= 1 && NumberedAs(pages, emitted, wrapper)
    ensures NumberedAs(pages', emitted', wrapper)
    ensures Pagination.Place(Pagination.PageState(emitted, page, pageSize), line, limit)
      == (Pagination.PageState(emitted', page', pageSize'), None)
  {
    var subPages := Pagination.Chunks(line, limit);
    page', pageSize' := page, pageSize;
    if |subPages[|subPages| - 1]| < limit {
      var subLine := subPages[|subPages| - 1];
      subPages := subPages[..|subPages| - 1];
      pageSize' := pageSize + |subLine|;
      page' := page + [subLine];
    }
    pages', emitted' := NumberPieces(pages, emitted, subPages, wrapper);
  }

  /** One line of `string_paginator`: the page is yielded first when it is
    * full, then the line joins it, is split into pieces, or is refused. */
  method PaginateLine(pages: seq<(string, int)>, ghost emitted: seq<Pagination.Emitted>, page: seq<string>,
                      pageSize: int, line: string, limit: int, lineLimit: int, wrapper: Option<Pagination.Wrapper>)
    returns (pages': seq<(string, int)>, ghost emitted': seq<Pagination.Emitted>, page': seq<string>, pageSize': int,
             err: Option<Error>)
    requires NumberedAs(pages, emitted, wrapper)
    ensures NumberedAs(pages', emitted', wrapper)
    ensures Pagination.AddLine(Pagination.PageState(emitted, page, pageSize), line, limit, lineLimit)
      == (Pagination.PageState(emitted', page', pageSize'), err)
  {
    ghost var before := Pagination.PageState(emitted, page, pageSize);
    pages', emitted', page', pageSize' := pages, emitted, page, pageSize;
    if |page| >= lineLimit || (|page| > 0 && pageSize + |line| > limit) {
      pages' := pages + [(Pagination.Render(Pagination.Page(page), wrapper), |pages|)];
      emitted' := emitted + [Pagination.Page(page)];
      page' := [];
      pageSize' := 0;
    }
    assert Pagination.Flush(before, line, limit, lineLimit) == Pagination.PageState(emitted', page', pageSize');
    err := None;
    if |line| >= limit {
      if limit <= 0 {
        err := Some(Pagination.InvalidWidth(limit));
        return;
      }
      pages', emitted', page', pageSize' := PlaceLongLine(pages', emitted', page', pageSize', line, limit, wrapper);
    } else {
      pageSize' := pageSize' + |line|;
      page' := page' + [line];
    }
  }

  /** Numbered pages are the rendered pages, each with its position. */
  lemma NumberedRendered(pages: seq<(string, int)>, emitted: seq<Pagination.Emitted>, wrapper: Option<Pagination.Wrapper>)
    requires NumberedAs(pages, emitted, wrapper)
    ensures var ps := Pagination.RenderAll(emitted, wrapper);
      |pages| == |ps| && forall i :: 0 <= i < |pages| ==> pages[i] == (ps[i], i)
  {
  }

  /** The run over the remaining lines is the line's step, then the run
    * over the lines after it, unless the step fails. */
  lemma RunStep(s: Pagination.PageState, rest: seq<string>, limit: int, lineLimit: int)
    requires |rest| != 0
    ensures var (t, err) := Pagination.AddLine(s, rest[0], limit, lineLimit);
      Pagination.Run(s, rest, limit, lineLimit)
      == if err.Some? then Pagination.PageRun(t.emitted, err) else Pagination.Run(t, rest[1..], limit, lineLimit)
  {
  }

  /** `string_paginator`: the string paginator's pages, each numbered from
    * 0 in the order yielded; the source is consumed up to the line that
    * fails, if any. */
  method StringPaginator(lines: Internal.Iterator<string>, charLimit: int, lineLimit: int,
                         wrapper: Option<Pagination.Wrapper>) returns (pages: seq<(string, int)>, error: Option<Error>)
    requires lines.Valid()
    modifies lines
    ensures lines.Valid() && lines.items == old(lines.items)
    ensures var (ps, err) := Pagination.Paginate(old(lines.Remaining()), charLimit, lineLimit, wrapper);
      error == err && |pages| == |ps| && forall i :: 0 <= i < |pages| ==> pages[i] == (ps[i], i)
  {
    var limit := Pagination.EffectiveLimit(charLimit, wrapper);
    var pageSize := 0;
    var page: seq<string> := [];
    pages := [];
    ghost var emitted: seq<Pagination.Emitted> := [];
    ghost var all := lines.Remaining();
    while true
      invariant lines.Valid() && lines.items == old(lines.items)
      invariant Pagination.Run(Pagination.PageState(emitted, page, pageSize), lines.Remaining(), limit, lineLimit)
        == Pagination.Run(Pagination.START, all, limit, lineLimit)
      invariant NumberedAs(pages, emitted, wrapper)
      decreases |lines.items| - lines.pos
    {
      ghost var rest := lines.Remaining();
      var next := lines.SeekIterator();
      if next.None? {
        break;
      }
      assert rest[1..] == lines.Remaining();
      ghost var before := Pagination.PageState(emitted, page, pageSize);
      var err;
      pages, emitted, page, pageSize, err := PaginateLine(pages, emitted, page, pageSize, next.value, limit, lineLimit,
                                                          wrapper);
      RunStep(before, rest, limit, lineLimit);
      if err.Some? {
        NumberedRendered(pages, emitted, wrapper);
        return pages, err;
      }
    }
    ghost var final := Pagination.Run(Pagination.PageState(emitted, page, pageSize), [], limit, lineLimit);
    if |page| > 0 {
      pages := pages + [(Pagination.Render(Pagination.Page(page), wrapper), |pages|)];
      emitted := emitted + [Pagination.Page(page)];
    }
    assert final.emitted == emitted;
    NumberedRendered(pages, emitted, wrapper);
    error := None;
  }
}
