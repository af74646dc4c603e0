/** The legacy reaction paginator and its pool (yuyo/paginator.py). The
  * paginator starts on a page it is given, walks a cursor over a
  * forward-only source of further pages and edits its message to the page
  * a reaction asks for; the pool routes reaction events to it. Calls to the
  * chat service are recorded in a ghost log; how they fail is given as
  * parameters. */
module LegacyPaginator {
  import opened Wrappers
  import Internal
  import Components
  import Reactions
  import Paginaton
  import Pagination

  type Snowflake = nat

  const SKULL_AND_CROSSBONES: string := "\U{2620}\U{FE0F}"

  /** The seconds a paginator lives without use when no timeout is given. */
  const DEFAULT_TIMEOUT: int := 30

  const INVALID_ITERATOR: string := "Invalid value passed for `iterator`, expected an iterator but got "

  /** The tail of the ValueError `seek_iterator` raises for a source that
    * is no iterator, after the `repr` of its type. */
  const NOT_VALID_ITERATOR: string := " is not a valid iterator"

  /** The legacy `string_paginator`: the same pages as the newer string
    * paginator, numbered from 0, except that its `seek_iterator` raises a
    * ValueError naming the type on the first pull from a source that is no
    * iterator, before any page and without touching the source. */
  method StringPaginator(lines: Internal.Iterator<string>, isIterator: bool, typeRepr: string, charLimit: int,
                         lineLimit: int, wrapper: Option<Pagination.Wrapper>)
    returns (pages: seq<(string, int)>, error: Option<Error>)
    requires lines.Valid()
    modifies lines
    ensures lines.Valid() && lines.items == old(lines.items)
    ensures !isIterator ==> pages == [] && error == Some(ValueError(typeRepr + NOT_VALID_ITERATOR)) &&
                            lines.pos == old(lines.pos)
    ensures isIterator ==>
      var (ps, err) := Pagination.Paginate(old(lines.Remaining()), charLimit, lineLimit, wrapper);
      error == err && |pages| == |ps| && forall i :: 0 <= i < |pages| ==> pages[i] == (ps[i], i)
  {
    if !isIterator {
      return [], Some(ValueError(typeRepr + NOT_VALID_ITERATOR));
    }
    pages, error := Paginaton.StringPaginator(lines, charLimit, lineLimit, wrapper);
  }

  /** What kind of object is passed as the source of pages. */
  datatype IteratorKind = AsyncIterator | SyncIterator | NotIterator

  /** The check `__init__` makes on its source: a synchronous iterator is
    * refused, anything else is kept. */
  function CheckIterator(kind: IteratorKind, typeName: string): (r: Result<Unit>)
    ensures r.Failure? <==> kind == SyncIterator
    ensures r.Failure? ==> r.error == ValueError(INVALID_ITERATOR + typeName)
  {
    if kind == SyncIterator then Failure(ValueError(INVALID_ITERATOR + typeName)) else Success(Unit)
  }

  /** `timeout or timedelta(seconds=30)`: a missing or zero timeout falls
    * back to the default. */
  function EffectiveTimeout(timeout: Option<int>): (r: int)
    ensures timeout.Some? && timeout.value != 0 ==> r == timeout.value
    ensures timeout.None? || timeout.value == 0 ==> r == DEFAULT_TIMEOUT
  {
    if timeout.Some? && timeout.value != 0 then timeout.value else DEFAULT_TIMEOUT
  }

  /** The button `_emoji_mapping` binds to an emoji: there is no "first"
    * button, and "last" is the skull and crossbones. */
  function ButtonOf(emoji: string): (r: Option<Components.PaginatorButton>)
    ensures r != Some(Components.First)
    ensures r == Some(Components.Previous) <==> emoji == Reactions.LEFT_TRIANGLE
    ensures r == Some(Components.Stop) <==> emoji == Reactions.STOP_SQUARE
    ensures r == Some(Components.Next) <==> emoji == Reactions.RIGHT_TRIANGLE
    ensures r == Some(Components.Last) <==> emoji == SKULL_AND_CROSSBONES
  {
    if emoji == Reactions.LEFT_TRIANGLE then Some(Components.Previous)
    else if emoji == Reactions.STOP_SQUARE then Some(Components.Stop)
    else if emoji == Reactions.RIGHT_TRIANGLE then Some(Components.Next)
    else if emoji == SKULL_AND_CROSSBONES then Some(Components.Last)
    else None
  }

  /** The checks `on_reaction_event` makes before running a button: a bound
    * message, an allowed user (anyone when there are no authors), no
    * running `on_last`, and an emoji that is both a trigger and mapped. */
  function Gate(message: Option<Snowflake>, authors: set<Snowflake>, locked: bool, triggers: seq<string>,
                emoji: string, user: Snowflake): (r: Option<Components.PaginatorButton>)
    ensures r.Some? <==>
      message.Some? && (authors == {} || user in authors) && !locked && emoji in triggers && ButtonOf(emoji).Some?
    ensures r.Some? ==> r == ButtonOf(emoji) && r != Some(Components.First)
  {
    if message.None? || (authors != {} && user !in authors) || locked then None
    else if emoji !in triggers then None
    else ButtonOf(emoji)
  }

  // ---------------------------------------------------------------------
  // The cursor

  /** `__init__`: the given first page is buffered and shown. */
  function Start<T>(first: T, source: seq<T>): (c: Internal.Cursor<T>)
    ensures c.InRange() && c.index == 0 && c.Pages() == [first] + source
  {
    Internal.Cursor([first], 0, Some(source))
  }

  /** `on_next` as written: its test for being behind the end of the buffer
    * never holds (the index is always inside the buffer), so it always
    * pulls from the source, even after "previous" moved back. */
  function NextAsWritten<T>(c: Internal.Cursor<T>): (r: (Option<T>, Internal.Cursor<T>))
    requires c.InRange()
    ensures r.0.Some? <==> c.source.Some? && |c.source.value| > 0
    ensures r.0.None? ==> r.1 == c
    ensures r.0.Some? ==>
      r.0.value == c.source.value[0] && r.1.index == c.index + 1 && r.1.buffer == c.buffer + [r.0.value]
  {
    if |c.buffer| < c.index + 1 then assert false; (None, c)
    else if c.source.Some? && |c.source.value| > 0 then
      (Some(c.source.value[0]), Internal.Cursor(c.buffer + [c.source.value[0]], c.index + 1, Some(c.source.value[1..])))
    else (None, c)
  }

  /** As written, "next" away from the end of the buffer shows the next
    * page of the source while the index moves to the next buffered page,
    * so the page on screen is no longer the one the index points at. */
  lemma NextShowsSourceAsWritten<T>(c: Internal.Cursor<T>)
    requires c.InRange() && c.index + 1 < |c.buffer| && c.source.Some? && |c.source.value| > 0
    ensures var (r, d) := NextAsWritten(c);
      r == Some(c.source.value[0]) && d.index == c.index + 1 && d.Pages()[d.index] == c.buffer[c.index + 1]
  {
    var (r, d) := NextAsWritten(c);
    assert d.buffer[c.index + 1] == c.buffer[c.index + 1];
  }

  /** An instance: with pages 1 and 2 buffered and 3 left in the source,
    * "previous" from page 2 shows page 1; "next" as written then shows
    * page 3 and skips page 2, where the buffered step shows page 2. */
  lemma PreviousThenNextSkipsAsWritten()
    ensures var (a, c) := Components.PreviousStep(Internal.Cursor([1, 2], 1, Some([3])));
      a == Components.ShowPage(1) && c.InRange() &&
      NextAsWritten(c) == (Some(3), Internal.Cursor([1, 2, 3], 1, Some([]))) &&
      Components.NextEntry(c) == (Some(2), Internal.Cursor([1, 2], 1, Some([3])))
  {
    assert [3][1..] == [];
    assert [1, 2] + [3] == [1, 2, 3];
  }

  /** What a page button returns and where it leaves the cursor; "next"
    * moves inside the buffer before it pulls from the source. */
  function Step<T>(b: Components.PaginatorButton, c: Internal.Cursor<T>): (r: (Option<T>, Internal.Cursor<T>))
    requires c.InRange() && b != Components.Stop
    ensures b == Components.Previous ==> (r.0.Some? <==> c.index > 0)
    ensures b == Components.Next && r.0.None? ==> r.1 == c
    ensures b == Components.Next && r.0.Some? ==>
      r.1.index == c.index + 1 && r.1.index < |r.1.buffer| && r.0.value == r.1.buffer[r.1.index]
    ensures b == Components.Last ==> r.1.buffer == c.Pages()
  {
    match b
    case First => Reactions.FirstStep(c)
    case Previous => var (a, d) := Components.PreviousStep(c); (Reactions.Shown(a), d)
    case Next => Components.NextEntry(c)
    case Last => Reactions.LastStep(c)
  }

  /** Every page button keeps the reachable pages and a non-empty buffer
    * with the index inside it, and a page it returns is the page at the
    * new index, except "first", which shows the first page in place. */
  lemma StepKeepsCursor<T>(b: Components.PaginatorButton, c: Internal.Cursor<T>)
    requires c.InRange() && 0 <= c.index && |c.buffer| > 0 && b != Components.Stop
    ensures var (p, d) := Step(b, c);
      d.InRange() && 0 <= d.index && |d.buffer| > 0 && d.Pages() == c.Pages() &&
      (p.Some? && b == Components.First ==> p.value == c.buffer[0] && d == c) &&
      (p.Some? && b != Components.First ==> p.value == d.Pages()[d.index])
  {
    Reactions.PageStepKeepsCursor(b, c);
    Components.NextEntryServesPages(c);
  }

  /** What a page button returns and where it leaves the cursor, as
    * written: "next" always pulls from the source. */
  function StepAsWritten<T>(b: Components.PaginatorButton, c: Internal.Cursor<T>): (Option<T>, Internal.Cursor<T>)
    requires c.InRange() && b != Components.Stop
  {
    if b == Components.Next then NextAsWritten(c) else Step(b, c)
  }

  /** As written, every page button still keeps the reachable pages and a
    * non-empty buffer with the index inside it. */
  lemma StepKeepsCursorAsWritten<T>(b: Components.PaginatorButton, c: Internal.Cursor<T>)
    requires c.InRange() && 0 <= c.index && |c.buffer| > 0 && b != Components.Stop
    ensures var (p, d) := StepAsWritten(b, c);
      d.InRange() && 0 <= d.index && |d.buffer| > 0 && d.Pages() == c.Pages()
  {
    if b == Components.Next {
      if c.source.Some? && |c.source.value| > 0 {
        var d := NextAsWritten(c).1;
        assert c.source.value == [c.source.value[0]] + c.source.value[1..];
        assert d.Pages() == c.buffer + [c.source.value[0]] + c.source.value[1..];
      }
    } else {
      StepKeepsCursor(b, c);
    }
  }

  /** Inside the buffer "previous" then "next" comes back to the page it
    * started from. */
  lemma PreviousThenNextReturns<T>(c: Internal.Cursor<T>)
    requires c.InRange() && c.index > 0
    ensures var (p, d) := Step(Components.Previous, c);
      d.InRange() && Step(Components.Next, d) == (Some(c.buffer[c.index]), c)
  {
  }

  // ---------------------------------------------------------------------
  // Editing the message

  /** How the chat service answers one edit of the paginator's message:
    * done, a server error or rate limit to retry after (the loop's
    * `Backoff` has no retry limit), refused (the message is gone or may
    * not be edited), or failed with any other error, which nothing
    * catches. */
  datatype EditAnswer = EditDone | EditRetry | EditRefused | EditFailed(error: Error)

  /** How `on_reaction_event` ends: None (the paginator stays), END,
    * END_AND_REMOVE, still editing after every answer given, or an error
    * that propagates out of it. */
  datatype Outcome = Keep | End | EndAndRemove | Editing | Propagated(error: Error)

  /** An answer that ends the as-written loop: a refusal or an uncaught
    * error. */
  predicate StopsAsWritten(a: EditAnswer)
  {
    a == EditRefused || a.EditFailed?
  }

  /** How the loop ends at an answer that is not retried. */
  function Ending(a: EditAnswer): Outcome
  {
    match a
    case EditDone => Keep
    case EditRefused => End
    case EditFailed(e) => Propagated(e)
    case EditRetry => Editing
  }

  /** The retry loop of `on_reaction_event` as written: a done edit is not
    * followed by a break, so the loop edits again and again and ends only
    * when an edit is refused. Gives the number of edits made and how the
    * loop ended. */
  function EditLoopAsWritten(answers: seq<EditAnswer>): (r: (nat, Outcome))
    ensures r.1 == End || r.1 == Editing || r.1.Propagated?
    ensures r.1 == Editing <==> forall i :: 0 <= i < |answers| ==> !StopsAsWritten(answers[i])
    ensures r.1 == Editing ==> r.0 == |answers|
    ensures r.1 != Editing ==>
      1 <= r.0 <= |answers| && StopsAsWritten(answers[r.0 - 1]) && r.1 == Ending(answers[r.0 - 1]) &&
      forall i :: 0 <= i < r.0 - 1 ==> !StopsAsWritten(answers[i])
  {
    if answers == [] then (0, Editing)
    else if StopsAsWritten(answers[0]) then (1, Ending(answers[0]))
    else
      var (n, o) := EditLoopAsWritten(answers[1..]);
      assert forall i :: 1 <= i < |answers| ==> answers[i] == answers[1..][i - 1];
      (n + 1, o)
  }

  /** The retry loop as meant: it stops at the first edit that is done
    * (the paginator stays) or refused (END); a server error or rate limit
    * is retried. Gives the number of edits made and how the loop ended. */
  function EditLoop(answers: seq<EditAnswer>): (r: (nat, Outcome))
    ensures r.1 == Keep || r.1 == End || r.1 == Editing || r.1.Propagated?
    ensures r.0 <= |answers|
    ensures r.1 == Editing <==> forall i :: 0 <= i < |answers| ==> answers[i] == EditRetry
    ensures r.1 == Editing ==> r.0 == |answers|
    ensures r.1 != Editing ==>
      1 <= r.0 && answers[r.0 - 1] != EditRetry && r.1 == Ending(answers[r.0 - 1]) &&
      forall i :: 0 <= i < r.0 - 1 ==> answers[i] == EditRetry
  {
    if answers == [] then (0, Editing)
    else if answers[0] != EditRetry then (1, Ending(answers[0]))
    else
      var (n, o) := EditLoop(answers[1..]);
      assert answers[0] == EditRetry;
      assert forall i :: 1 <= i < |answers| ==> answers[i] == answers[1..][i - 1];
      assert (forall i :: 0 <= i < |answers| ==> answers[i] == EditRetry) <==>
        (forall i :: 0 <= i < |answers[1..]| ==> answers[1..][i] == EditRetry);
      (n + 1, o)
  }

  /** As written, edits that are done never end the loop: every answer
    * given is spent on another edit of the same page. */
  lemma {:induction false} DoneEditsRepeatAsWritten(answers: seq<EditAnswer>)
    requires forall i :: 0 <= i < |answers| ==> answers[i] == EditDone
    ensures EditLoopAsWritten(answers) == (|answers|, Editing)
  {
    if answers != [] {
      DoneEditsRepeatAsWritten(answers[1..]);
    }
  }

  /** As meant, one done edit ends the loop with the paginator kept, and
    * the edits made are the retried ones and that one. */
  lemma {:induction false} DoneEditEndsLoop(answers: seq<EditAnswer>, k: nat)
    requires k < |answers| && answers[k] == EditDone
    requires forall i :: 0 <= i < k ==> answers[i] == EditRetry
    ensures EditLoop(answers) == (k + 1, Keep)
  {
    if k > 0 {
      assert answers[0] == EditRetry;
      DoneEditEndsLoop(answers[1..], k - 1);
    }
  }

  /** As written, the loop ends at the first refused edit, after as many
    * edits as answers up to and including it. */
  lemma {:induction false} RefusedEditEndsLoopAsWritten(answers: seq<EditAnswer>, k: nat)
    requires k < |answers| && answers[k] == EditRefused
    requires forall i :: 0 <= i < k ==> !StopsAsWritten(answers[i])
    ensures EditLoopAsWritten(answers) == (k + 1, End)
  {
    if k > 0 {
      RefusedEditEndsLoopAsWritten(answers[1..], k - 1);
    }
  }

  /** As meant, the loop ends at the first answer that is not a retry,
    * with that answer's ending, after the edits up to and including it. */
  lemma {:induction false} EditLoopStopsAt(answers: seq<EditAnswer>, k: nat)
    requires k < |answers| && answers[k] != EditRetry
    requires forall i :: 0 <= i < k ==> answers[i] == EditRetry
    ensures EditLoop(answers) == (k + 1, Ending(answers[k]))
  {
    if k > 0 {
      assert answers[0] == EditRetry;
      EditLoopStopsAt(answers[1..], k - 1);
    }
  }

  /** As written, the loop ends at the first refusal or uncaught error, with
    * its ending, after the edits up to and including it. */
  lemma {:induction false} EditLoopAsWrittenStopsAt(answers: seq<EditAnswer>, k: nat)
    requires k < |answers| && StopsAsWritten(answers[k])
    requires forall i :: 0 <= i < k ==> !StopsAsWritten(answers[i])
    ensures EditLoopAsWritten(answers) == (k + 1, Ending(answers[k]))
  {
    if k > 0 {
      assert !StopsAsWritten(answers[0]);
      EditLoopAsWrittenStopsAt(answers[1..], k - 1);
    }
  }

  /** An error other than the four the loop handles ends it and leaves
    * `on_reaction_event`, as written and as meant, once every earlier
    * answer was a retry. */
  lemma UncaughtEditErrorPropagates(answers: seq<EditAnswer>, k: nat, e: Error)
    requires k < |answers| && answers[k] == EditFailed(e)
    requires forall i :: 0 <= i < k ==> answers[i] == EditRetry
    ensures EditLoop(answers) == (k + 1, Propagated(e))
    ensures EditLoopAsWritten(answers) == (k + 1, Propagated(e))
  {
    EditLoopStopsAt(answers, k);
    EditLoopAsWrittenStopsAt(answers, k);
  }

  /** `n` edits of message `m` to `page`. */
  function EditCalls<T>(m: Snowflake, page: T, n: nat): (r: seq<Paginaton.Call<T>>)
    ensures |r| == n && forall i :: 0 <= i < n ==> r[i] == Paginaton.Edited(m, page)
  {
    if n == 0 then [] else EditCalls(m, page, n - 1) + [Paginaton.Edited(m, page)]
  }

  // ---------------------------------------------------------------------
  // Paginator

  class Paginator<T> {
    var authors: set<Snowflake>
    var buffer: seq<T>
    var index: int
    const source: Internal.Iterator<T>
    /** When a button last showed a page (seconds). */
    var lastTriggered: int
    var locked: bool
    var message: Option<Snowflake>
    const timeout: int
    const triggers: seq<string>
    ghost var calls: seq<Paginaton.Call<T>>

    /** The buffer is never empty, and the index is always inside it. */
    ghost predicate Valid()
      reads this, source
    {
      0 <= index < |buffer| && source.Valid()
    }

    function Snapshot(): (c: Internal.Cursor<T>)
      reads this, source
      requires Valid()
      ensures c.InRange() && 0 <= c.index && |c.buffer| > 0
    {
      Internal.Cursor(buffer, index, Some(source.Remaining()))
    }

    /** `__init__`, once `CheckIterator` has let the source through. */
    constructor (first: T, source: Internal.Iterator<T>, authors: set<Snowflake>, triggers: seq<string>,
                 timeout: Option<int>, now: int)
      requires source.Valid()
      ensures Valid() && this.source == source && Snapshot() == Start(first, source.Remaining())
      ensures this.authors == authors && this.triggers == triggers && this.timeout == EffectiveTimeout(timeout)
      ensures lastTriggered == now && !locked && message.None? && calls == []
    {
      this.authors := authors;
      buffer := [first];
      index := 0;
      this.source := source;
      lastTriggered := now;
      locked := false;
      message := None;
      this.timeout := EffectiveTimeout(timeout);
      this.triggers := triggers;
      calls := [];
    }

    /** `expired`: more than the timeout since a button last showed a page. */
    predicate HasExpired(now: int)
      reads this
    {
      timeout < now - lastTriggered
    }

    /** `on_disable`: unbinds the message and deletes it in a task of its
      * own (one delete, as its retry loop stops at the first that is
      * done); the result is END. */
    method OnDisable()
      requires Valid()
      modifies this
      ensures Valid() && Snapshot() == old(Snapshot()) && message.None?
      ensures calls == old(calls) + (if old(message).Some? then [Paginaton.Deleted(old(message).value)] else [])
      ensures authors == old(authors) && lastTriggered == old(lastTriggered) && locked == old(locked)
    {
      if message.Some? {
        calls := calls + [Paginaton.Deleted(message.value)];
        message := None;
      }
    }

    /** `on_first`: nothing at index 0, else the first page, with the index
      * left where it is. */
    method OnFirst() returns (r: Option<T>)
      requires Valid()
      ensures (r, Snapshot()) == Reactions.FirstStep(Snapshot())
      ensures r.None? <==> index == 0
    {
      if index == 0 {
        return None;
      }
      r := Some(buffer[0]);
    }

    /** `on_next`, moving inside the buffer before it pulls a page. */
    method OnNext() returns (r: Option<T>)
      requires Valid()
      modifies this, source
      ensures Valid() && (r, Snapshot()) == Components.NextEntry(old(Snapshot()))
      ensures locked == old(locked) && message == old(message) && calls == old(calls)
      ensures authors == old(authors) && lastTriggered == old(lastTriggered)
    {
      if |buffer| > index + 1 {
        index := index + 1;
        return Some(buffer[index]);
      }
      var entry := source.SeekIterator();
      if entry.Some? {
        index := index + 1;
        buffer := buffer + [entry.value];
      }
      r := entry;
    }

    /** `on_next` as written: the test for being behind the end of the
      * buffer never holds, so every call pulls from the source. */
    method OnNextAsWritten() returns (r: Option<T>)
      requires Valid()
      modifies this, source
      ensures Valid() && (r, Snapshot()) == NextAsWritten(old(Snapshot()))
      ensures locked == old(locked) && message == old(message) && calls == old(calls)
      ensures authors == old(authors) && lastTriggered == old(lastTriggered)
    {
      var entry := source.SeekIterator();
      if entry.Some? {
        index := index + 1;
        buffer := buffer + [entry.value];
      }
      r := entry;
    }

    /** `on_last`: locked while the source is drained into the buffer, then
      * the last page. */
    method OnLast() returns (r: Option<T>)
      requires Valid()
      modifies this, source
      ensures Valid() && (r, Snapshot()) == Reactions.LastStep(old(Snapshot())) && r.Some?
      ensures !locked && message == old(message) && calls == old(calls)
      ensures authors == old(authors) && lastTriggered == old(lastTriggered)
    {
      locked := true;
      var rest := source.CollectIterable();
      assert source.Remaining() == [];
      buffer := buffer + rest;
      locked := false;
      if |buffer| > 0 {
        index := |buffer| - 1;
        return Some(buffer[|buffer| - 1]);
      }
      r := None;
    }

    method OnPrevious() returns (r: Option<T>)
      requires Valid()
      modifies this
      ensures Valid() && Snapshot() == Components.PreviousStep(old(Snapshot())).1
      ensures r == Reactions.Shown(Components.PreviousStep(old(Snapshot())).0)
      ensures locked == old(locked) && message == old(message) && calls == old(calls)
      ensures authors == old(authors) && lastTriggered == old(lastTriggered)
    {
      if index <= 0 {
        return None;
      }
      index := index - 1;
      r := Some(buffer[index]);
    }

    method AddAuthor(user: Snowflake)
      modifies this
      ensures authors == old(authors) + {user}
      ensures buffer == old(buffer) && index == old(index) && message == old(message) && calls == old(calls)
    {
      authors := authors + {user};
    }

    /** `remove_author`: silent when the user is not an author. */
    method RemoveAuthor(user: Snowflake)
      modifies this
      ensures authors == old(authors) - {user}
      ensures buffer == old(buffer) && index == old(index) && message == old(message) && calls == old(calls)
    {
      authors := authors - {user};
    }

    /** `deregister_message`: unbinds the message and removes the trigger
      * reactions in order until one removal fails; `removeReactions`
      * makes no difference. */
    method DeregisterMessage(removeReactions: bool, failure: Reactions.RestFailure)
      requires Valid()
      modifies this
      ensures Valid() && Snapshot() == old(Snapshot()) && message.None?
      ensures old(message).Some? ==> calls == old(calls) + Paginaton.RemovalCalls(old(message).value, triggers, failure)
      ensures old(message).None? ==> calls == old(calls)
      ensures authors == old(authors) && lastTriggered == old(lastTriggered) && locked == old(locked)
    {
      if message.None? {
        return;
      }
      var m := message.value;
      message := None;
      var i := 0;
      while i < |triggers|
        invariant 0 <= i <= Reactions.CallsMade(|triggers|, failure)
        invariant calls == old(calls) + Paginaton.ReactionCalls(m, triggers[..i], false)
        invariant message.None? && buffer == old(buffer) && index == old(index)
        invariant authors == old(authors) && lastTriggered == old(lastTriggered) && locked == old(locked)
        decreases |triggers| - i
      {
        if failure.FailsAt? && failure.call == i {
          return;
        }
        calls := calls + [Paginaton.ReactionRemoved(m, triggers[i])];
        assert triggers[..i + 1][..i] == triggers[..i];
        i := i + 1;
      }
    }

    /** `register_message`: binds the message and adds the trigger
      * reactions in order until one fails; a failure ends the loop
      * quietly with the message still bound. */
    method RegisterMessage(m: Snowflake, failure: Reactions.RestFailure)
      requires Valid()
      modifies this
      ensures Valid() && Snapshot() == old(Snapshot()) && message == Some(m)
      ensures calls == old(calls) + Paginaton.ReactionCalls(m, triggers[..Reactions.CallsMade(|triggers|, failure)], true)
      ensures authors == old(authors) && lastTriggered == old(lastTriggered) && locked == old(locked)
    {
      message := Some(m);
      var i := 0;
      while i < |triggers|
        invariant 0 <= i <= Reactions.CallsMade(|triggers|, failure)
        invariant calls == old(calls) + Paginaton.ReactionCalls(m, triggers[..i], true)
        invariant message == Some(m) && buffer == old(buffer) && index == old(index)
        invariant authors == old(authors) && lastTriggered == old(lastTriggered) && locked == old(locked)
        decreases |triggers| - i
      {
        if failure.FailsAt? && failure.call == i {
          return;
        }
        calls := calls + [Paginaton.ReactionAdded(m, triggers[i])];
        assert triggers[..i + 1][..i] == triggers[..i];
        i := i + 1;
      }
      assert triggers[..i] == triggers;
    }

    /** The edit loop of `on_reaction_event` with the break after a done
      * edit: the message is edited to `page` until an edit is done or
      * refused; `answers` are the chat service's answers in order. */
    method EditPage(page: T, answers: seq<EditAnswer>) returns (r: Outcome)
      requires Valid() && message.Some?
      modifies this
      ensures Valid() && Snapshot() == old(Snapshot()) && message == old(message)
      ensures r == EditLoop(answers).1
      ensures calls == old(calls) + EditCalls(old(message).value, page, EditLoop(answers).0)
      ensures authors == old(authors) && lastTriggered == old(lastTriggered) && locked == old(locked)
    {
      var m := message.value;
      var i := 0;
      while i < |answers|
        invariant 0 <= i <= |answers|
        invariant forall j :: 0 <= j < i ==> answers[j] == EditRetry
        invariant calls == old(calls) + EditCalls(m, page, i)
        invariant message == Some(m) && buffer == old(buffer) && index == old(index)
        invariant authors == old(authors) && lastTriggered == old(lastTriggered) && locked == old(locked)
        decreases |answers| - i
      {
        calls := calls + [Paginaton.Edited(m, page)];
        if answers[i] != EditRetry {
          EditLoopStopsAt(answers, i);
          return Ending(answers[i]);
        }
        i := i + 1;
      }
      r := Editing;
    }

    /** The edit loop of `on_reaction_event` as written: a done edit is not
      * followed by a break, so the message is edited to `page` again until
      * an edit is refused (END) or the answers run out. */
    method EditPageAsWritten(page: T, answers: seq<EditAnswer>) returns (r: Outcome)
      requires Valid() && message.Some?
      modifies this
      ensures Valid() && Snapshot() == old(Snapshot()) && message == old(message)
      ensures r == EditLoopAsWritten(answers).1
      ensures calls == old(calls) + EditCalls(old(message).value, page, EditLoopAsWritten(answers).0)
      ensures authors == old(authors) && lastTriggered == old(lastTriggered) && locked == old(locked)
    {
      var m := message.value;
      var i := 0;
      while i < |answers|
        invariant 0 <= i <= |answers|
        invariant forall j :: 0 <= j < i ==> !StopsAsWritten(answers[j])
        invariant calls == old(calls) + EditCalls(m, page, i)
        invariant message == Some(m) && buffer == old(buffer) && index == old(index)
        invariant authors == old(authors) && lastTriggered == old(lastTriggered) && locked == old(locked)
        decreases |answers| - i
      {
        calls := calls + [Paginaton.Edited(m, page)];
        if StopsAsWritten(answers[i]) {
          EditLoopAsWrittenStopsAt(answers, i);
          return Ending(answers[i]);
        }
        i := i + 1;
      }
      r := Editing;
    }

    /** `on_reaction_event` as written: as `OnReactionEvent`, but "next"
      * always pulls from the source and the edit loop only ends on a
      * refused edit. */
    method OnReactionEventAsWritten(emoji: string, user: Snowflake, now: int, answers: seq<EditAnswer>)
      returns (r: Outcome)
      requires Valid()
      modifies this, source
      ensures Valid() && authors == old(authors) && locked == old(locked)
      ensures old(HasExpired(now)) ==>
        r == EndAndRemove && Snapshot() == old(Snapshot()) && message == old(message) && calls == old(calls) &&
        lastTriggered == old(lastTriggered)
      ensures !old(HasExpired(now)) && old(Gate(message, authors, locked, triggers, emoji, user)).None? ==>
        r == Keep && Snapshot() == old(Snapshot()) && message == old(message) && calls == old(calls) &&
        lastTriggered == old(lastTriggered)
      ensures !old(HasExpired(now)) && old(Gate(message, authors, locked, triggers, emoji, user)) == Some(Components.Stop) ==>
        r == End && Snapshot() == old(Snapshot()) && message.None? &&
        calls == old(calls) + [Paginaton.Deleted(old(message).value)] && lastTriggered == old(lastTriggered)
      ensures !old(HasExpired(now)) && old(Gate(message, authors, locked, triggers, emoji, user)).Some? &&
              old(Gate(message, authors, locked, triggers, emoji, user)) != Some(Components.Stop) ==>
        var (p, d) := StepAsWritten(old(Gate(message, authors, locked, triggers, emoji, user)).value, old(Snapshot()));
        Snapshot() == d && message == old(message) &&
        (p.None? ==> r == Keep && calls == old(calls) && lastTriggered == old(lastTriggered)) &&
        (p.Some? ==>
          lastTriggered == now && r == EditLoopAsWritten(answers).1 &&
          calls == old(calls) + EditCalls(old(message).value, p.value, EditLoopAsWritten(answers).0))
    {
      if HasExpired(now) {
        return EndAndRemove;
      }
      var g := Gate(message, authors, locked, triggers, emoji, user);
      if g.None? {
        return Keep;
      }
      var page: Option<T> := None;
      match g.value {
        case Stop =>
          OnDisable();
          return End;
        case First =>
          assert false;
        case Previous => page := OnPrevious();
        case Next => page := OnNextAsWritten();
        case Last => page := OnLast();
      }
      if page.None? {
        return Keep;
      }
      lastTriggered := now;
      r := EditPageAsWritten(page.value, answers);
    }

    /** `on_reaction_event`: an expired paginator answers END_AND_REMOVE
      * and changes nothing; an event that fails the gate is ignored; the
      * stop button deletes the message and ends; a page button that
      * returns no page is ignored, and one that returns a page marks the
      * paginator as used and edits the message to it, ending when the edit
      * is refused. */
    method OnReactionEvent(emoji: string, user: Snowflake, now: int, answers: seq<EditAnswer>)
      returns (r: Outcome)
      requires Valid()
      modifies this, source
      ensures Valid() && authors == old(authors) && locked == old(locked)
      ensures old(HasExpired(now)) ==>
        r == EndAndRemove && Snapshot() == old(Snapshot()) && message == old(message) && calls == old(calls) &&
        lastTriggered == old(lastTriggered)
      ensures !old(HasExpired(now)) && old(Gate(message, authors, locked, triggers, emoji, user)).None? ==>
        r == Keep && Snapshot() == old(Snapshot()) && message == old(message) && calls == old(calls) &&
        lastTriggered == old(lastTriggered)
      ensures !old(HasExpired(now)) && old(Gate(message, authors, locked, triggers, emoji, user)) == Some(Components.Stop) ==>
        r == End && Snapshot() == old(Snapshot()) && message.None? &&
        calls == old(calls) + [Paginaton.Deleted(old(message).value)] && lastTriggered == old(lastTriggered)
      ensures !old(HasExpired(now)) && old(Gate(message, authors, locked, triggers, emoji, user)).Some? &&
              old(Gate(message, authors, locked, triggers, emoji, user)) != Some(Components.Stop) ==>
        var (p, d) := Step(old(Gate(message, authors, locked, triggers, emoji, user)).value, old(Snapshot()));
        Snapshot() == d && message == old(message) &&
        (p.None? ==> r == Keep && calls == old(calls) && lastTriggered == old(lastTriggered)) &&
        (p.Some? ==>
          lastTriggered == now && r == EditLoop(answers).1 &&
          calls == old(calls) + EditCalls(old(message).value, p.value, EditLoop(answers).0))
    {
      if HasExpired(now) {
        return EndAndRemove;
      }
      var g := Gate(message, authors, locked, triggers, emoji, user);
      if g.None? {
        return Keep;
      }
      var page: Option<T> := None;
      match g.value {
        case Stop =>
          OnDisable();
          return End;
        case First =>
          assert false;
        case Previous => page := OnPrevious();
        case Next => page := OnNext();
        case Last => page := OnLast();
      }
      if page.None? {
        return Keep;
      }
      lastTriggered := now;
      r := EditPage(page.value, answers);
    }
  }

  // ---------------------------------------------------------------------
  // PaginatorPool

  /** A registered paginator, by identity. */
  type PaginatorId = nat

  /** `PaginatorPool`: the paginators by message id, the users whose
    * reactions are ignored, and whether the gc task was ever started. */
  class PaginatorPool {
    var listeners: map<Snowflake, PaginatorId>
    var blacklist: seq<Snowflake>
    var gcStarted: bool
    /** Paginators whose `deregister_message` the pool has called. */
    ghost var deregistered: set<PaginatorId>

    constructor ()
      ensures listeners == map[] && blacklist == [] && !gcStarted && deregistered == {}
    {
      listeners := map[];
      blacklist := [];
      gcStarted := false;
      deregistered := {};
    }

    /** `_on_reaction_event`: blacklisted users are ignored; the message's
      * paginator is run, and only END drops and deregisters it
      * (END_AND_REMOVE is not END, so an expired paginator stays); an
      * error out of the paginator leaves the listener, the paginator kept. */
    method OnReactionEvent(user: Snowflake, messageId: Snowflake, outcome: PaginatorId -> Outcome)
      returns (r: Result<Unit>)
      modifies this
      ensures r.Failure? <==>
        user !in blacklist && messageId in old(listeners) && outcome(old(listeners)[messageId]).Propagated?
      ensures r.Failure? ==> r.error == outcome(old(listeners)[messageId]).error
      ensures blacklist == old(blacklist) && gcStarted == old(gcStarted)
      ensures user !in blacklist && messageId in old(listeners) && outcome(old(listeners)[messageId]) == End ==>
        listeners == old(listeners) - {messageId} && deregistered == old(deregistered) + {old(listeners)[messageId]}
      ensures !(user !in blacklist && messageId in old(listeners) && outcome(old(listeners)[messageId]) == End) ==>
        listeners == old(listeners) && deregistered == old(deregistered)
    {
      r := Success(Unit);
      if user in blacklist {
        return;
      }
      if messageId in listeners {
        var p := listeners[messageId];
        if outcome(p).Propagated? {
          r := Failure(outcome(p).error);
        }
        if outcome(p) == End {
          listeners := listeners - {messageId};
          deregistered := deregistered + {p};
        }
      }
    }

    /** `add_paginator`: replaces any paginator of the message. */
    method AddPaginator(message: Snowflake, paginator: PaginatorId)
      modifies this
      ensures listeners == old(listeners)[message := paginator]
      ensures blacklist == old(blacklist) && gcStarted == old(gcStarted) && deregistered == old(deregistered)
    {
      listeners := listeners[message := paginator];
    }

    function GetPaginator(message: Snowflake): (r: Option<PaginatorId>)
      reads this
      ensures r.Some? <==> message in listeners
      ensures r.Some? ==> r.value == listeners[message]
    {
      if message in listeners then Some(listeners[message]) else None
    }

    /** `remove_paginator`: KeyError when the message has no paginator. */
    method RemovePaginator(message: Snowflake) returns (r: Result<PaginatorId>)
      modifies this
      ensures r.Failure? <==> message !in old(listeners)
      ensures r.Failure? ==> r.error == KeyError && listeners == old(listeners)
      ensures r.Success? ==> r.value == old(listeners)[message] && listeners == old(listeners) - {message}
      ensures blacklist == old(blacklist) && gcStarted == old(gcStarted) && deregistered == old(deregistered)
    {
      if message !in listeners {
        return Failure(KeyError);
      }
      r := Success(listeners[message]);
      listeners := listeners - {message};
    }

    /** One sweep of `_gc`: every expired paginator is removed and
      * deregistered. */
    method Gc(expired: PaginatorId -> bool)
      modifies this
      ensures listeners == map m | m in old(listeners) && !expired(old(listeners)[m]) :: old(listeners)[m]
      ensures deregistered ==
        old(deregistered) + set m | m in old(listeners) && expired(old(listeners)[m]) :: old(listeners)[m]
      ensures blacklist == old(blacklist) && gcStarted == old(gcStarted)
    {
      var pending := listeners.Keys;
      ghost var start := listeners;
      while pending != {}
        invariant pending <= start.Keys
        invariant listeners.Keys <= start.Keys
        invariant forall m :: m in listeners ==> listeners[m] == start[m]
        invariant forall m :: m in start && m !in pending ==> (m in listeners <==> !expired(start[m]))
        invariant forall m :: m in pending ==> m in listeners
        invariant deregistered == old(deregistered) + set m | m in start && m !in pending && expired(start[m]) :: start[m]
        invariant blacklist == old(blacklist) && gcStarted == old(gcStarted)
        decreases pending
      {
        var m :| m in pending;
        if expired(listeners[m]) {
          deregistered := deregistered + {listeners[m]};
          listeners := listeners - {m};
        }
        pending := pending - {m};
      }
    }

    /** `close`: once the gc task was started, drops every paginator and
      * deregisters each. The task is never cleared, so `close` stays armed
      * and `open` never runs again. */
    method Close()
      modifies this
      ensures gcStarted == old(gcStarted) && blacklist == old(blacklist)
      ensures gcStarted ==> listeners == map[] && deregistered == old(deregistered) + old(listeners).Values
      ensures !gcStarted ==> listeners == old(listeners) && deregistered == old(deregistered)
    {
      if gcStarted {
        deregistered := deregistered + listeners.Values;
        listeners := map[];
      }
    }

    /** `open`: the first time, starts the gc task and blacklists the bot's
      * own user; afterwards it does nothing. */
    method Open(myUser: Snowflake)
      modifies this
      ensures gcStarted && listeners == old(listeners) && deregistered == old(deregistered)
      ensures blacklist == if old(gcStarted) then old(blacklist) else old(blacklist) + [myUser]
    {
      if !gcStarted {
        gcStarted := true;
        blacklist := blacklist + [myUser];
      }
    }
  }
}
