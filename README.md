# Yuyo, modelled in Dafny

Yuyo is a helper library for Discord bots built on Hikari. This project models the bookkeeping the library does between calls to the chat service, and proves properties of that model. Each Python module of the library's core has its own Dafny module in its own file:

| Dafny module | file | models |
|---|---|---|
| `Internal` | `internal.dfy` | the `match:metadata` custom-id codec and the iterator helpers (`yuyo/_internal/__init__.py`) |
| `Timeouts` | `timeouts.dfy` | the sliding, static and never-expiring timeouts (`yuyo/timeouts.py`) |
| `Backoff` | `backoff.dfy` | the retry counters of `Backoff` and the rule table of `ErrorManager` (`yuyo/backoff.py`) |
| `Interactions` | `interactions.dfy` | the response state machine of an interaction context (`yuyo/interactions.py`) |
| `Components` | `components.dfy` | the component client's routing tables and dispatch, the component context, the executors and the component paginator's cursor (`yuyo/components.py`) |
| `Modals` | `modals.dfy` | the modal client, the modal context's deferral, modal expiry and text-input fields (`yuyo/modals.py`) |
| `Reactions` | `reactions.dfy` | reaction handlers, the reaction paginator and the reaction client (`yuyo/reactions.py`) |
| `Paginaton` | `paginaton.dfy` | the paginator with its own event pool, and its string paginator (`yuyo/paginaton.py`) |
| `LegacyPaginator` | `paginator.dfy` | the legacy paginator and its pool (`yuyo/paginator.py`) |
| `Pagination` | `pagination.dfy` | cutting lines into message-sized pages, and `aenumerate` (`yuyo/pagination.py`) |
| `CachedRest` | `cached_rest.dfy` | the expiring `TimeLimitedMapping` and the cached REST client's stores (`yuyo/cached_rest.py`) |
| `ChunkTracker` | `chunk_tracker.dfy` | guild-member chunk tracking and its finished events (`yuyo/chunk_tracker.py`) |
| `ListStatus` | `list_status.dfy` | the bot-list service manager, the guild-counting strategies and the Top.gg and Bots.gg payloads (`yuyo/list_status.py`) |
| `Links` | `links.dfy` | the Discord link builders and parsers (`yuyo/links.py`) |
| `Localise` | `localise.dfy` | maybe-localised fields (`yuyo/_internal/localise.py`) |
| `SlashNames` | `slash_names.dfy` | the name, description and snowflake validation of the command-declaration tool (`yuyo/__main__.py`) |
| `Asgi` | `asgi.dfy` | the ASGI adapter's request, multipart and lifespan handling, and `AsgiBot`'s lifecycle (`yuyo/asgi.py`) |
| `Strings`, `Wrappers` | `strings.dfy`, `wrappers.dfy` | the `str` helpers the code relies on; `Option`, `Result` and the exceptions raised |

How the model is built:

- Objects whose methods update their fields become classes. Examples are the clients, contexts, paginators, timeouts, `Backoff`, `TimeLimitedMapping`, the chunk tracker and `AsgiBot`. Their methods state the whole new state, and the properties the library promises are proved about the specification functions they are tied to.
- Python dicts whose order matters are sequences of key/value pairs in insertion order.
- Iterators are a buffer, an index and the rest of the source.
- Time is an integer clock passed in as an argument.
- Random ids, nonces and UUIDs are arguments.
- Code that cannot be seen here becomes a function parameter. This covers user callbacks, `unicodedata.category`, Hikari's shard-id calculation, `urllib.parse.quote` and whether an executor has expired.
- Calls made to Discord, the REST API or the ASGI server are entries appended to a ghost log.
- A wrapper string of the string paginators carries its own `str.format`, an uninterpreted function, so a wrapper without a field, with several fields or with escaped braces is covered.

## Model

| member | source | states |
|---|---|---|
| Internal.ColonIndex | yuyo/_internal/__init__.py:145 | the position `str.split(":", 1)` cuts at: the first ':' or the end, with no ':' before it |
| Internal.SplitCustomId | yuyo/_internal/__init__.py:137-153 | the match holds no ':'; an id with a ':' is match + ":" + metadata; an id without one is the match with "" as metadata |
| Internal.ColonCutUnique | yuyo/_internal/__init__.py:145-153 | a cut at ':' is unique when the first part has no ':' |
| Internal.SplitJoinRoundTrip | yuyo/_internal/__init__.py:137-153 | round trip: a colon-free match joined with any metadata splits back to both, and a colon-free id splits to itself and "" |
| Internal.GenCustomId | yuyo/_internal/__init__.py:163-175 | no id gives the random id as both match and custom id; a given id is kept whole, with its match the prefix before the first ':' |
| Internal.GenCustomIdSplits | yuyo/_internal/__init__.py:163-175 | the generated match is what splitting the generated custom id recovers |
| Internal.Iterator.constructor | yuyo/_internal/__init__.py:117-122 | a fresh iterator over the given values, none yielded |
| Internal.Iterator.ANext | yuyo/_internal/__init__.py:78-95 | without a default: yields the next value and advances by one, or fails with StopAsyncIteration and consumes nothing |
| Internal.Iterator.SeekIterator | yuyo/_internal/__init__.py:117-122 | yields the next value and advances by exactly one, or gives the None default and consumes nothing |
| Internal.Iterator.CollectIterable | yuyo/_internal/__init__.py:98-114 | returns the remaining values in order and leaves the iterator exhausted |
| Timeouts.TakeUse | yuyo/timeouts.py:100-109 | a positive counter counts down, a negative one is unchanged, and 0 fails with RuntimeError("Uses already depleted") |
| Timeouts.CounterAllowsMaxUses | yuyo/timeouts.py:100-109 | a counter started at max_uses allows exactly max_uses uses, then refuses the next |
| Timeouts.UnlimitedNeverDepletes | yuyo/timeouts.py:100-109 | with max_uses = -1, no number of uses is refused or depletes the counter |
| Timeouts.SlidingTimeout.constructor | yuyo/timeouts.py:73-90 | the timeout in seconds, the last use at now and max_uses uses left |
| Timeouts.SlidingTimeout.IncrementUses | yuyo/timeouts.py:92-109 | takes one use (error at 0, unchanged state), restarts the window at now, returns whether the counter reached 0, after which it expires at t iff that result or t - now > timeout |
| Timeouts.NeverTimeout.HasExpired | yuyo/timeouts.py:124-127 | never expired |
| Timeouts.SlidingTimeout.HasExpired | yuyo/timeouts.py:93-98 | expired exactly when the uses are spent or more than the timeout has passed since the last use |
| Timeouts.SlidingExpiryLasts | yuyo/timeouts.py:93-98 | without another use, a sliding timeout that has expired stays expired at every later time |
| Timeouts.NeverTimeout.IncrementUses | yuyo/timeouts.py:129-131 | never reports a timeout |
| Timeouts.StaticTimeout.constructor | yuyo/timeouts.py:143-156 | the deadline and max_uses uses left |
| Timeouts.StaticTimeout.IncrementUses | yuyo/timeouts.py:158-171 | takes one use (error at 0), the deadline never moves; afterwards it expires at t iff the uses ran out or t > deadline |
| Timeouts.StaticTimeout.HasExpired | yuyo/timeouts.py:159-161 | expired exactly when the uses are spent or the deadline has passed |
| Timeouts.StaticExpiryLasts | yuyo/timeouts.py:159-161 | a static timeout that has expired stays expired at every later time |
| Backoff.AnextStepValid | yuyo/backoff.py:168-214 | every `__anext__` step keeps the retry count within max_retries |
| Backoff.AnextStep | yuyo/backoff.py:168-214 | the first call yields 0 without checks; later calls stop exactly when finished or depleted, leaving the state unchanged, and otherwise yield the new retry count and clear the override |
| Backoff.Run | yuyo/backoff.py:168-214 | k calls yield k values, and once the iterator has stopped every later call stops too |
| Backoff.RunFrom | yuyo/backoff.py:189-214 | from any retry count below max_retries, the following calls yield each next count and then stop |
| Backoff.YieldsUpToMaxRetries | yuyo/backoff.py:168-214 | a fresh iterator with max_retries = n yields 0 (unchecked), then 1, 2, ..., n, then StopAsyncIteration |
| Backoff.AttemptsShape | yuyo/backoff.py:189-214 | the attempts from count j are j+1, ..., n followed by the stop |
| Backoff.CheckMaxRetries | yuyo/backoff.py:153-154 | ValueError("max_retries must be greater than 1") exactly when max_retries is given and below 1 |
| Backoff.Backoff.constructor | yuyo/backoff.py:116-163 | not finished, not started, no override and no retries, nothing slept |
| Backoff.Backoff.New | yuyo/backoff.py:116-163 | fails with that ValueError exactly when max_retries < 1, else a fresh iterator in the initial state |
| Backoff.Backoff.DoBackoff | yuyo/backoff.py:189-214 | finished or depleted: None, nothing changes and nothing is slept; otherwise one more retry, returned, after sleeping the override plus jitter (then cleared) or the generated delay |
| Backoff.Backoff.ANext | yuyo/backoff.py:168-178 | the state and result of `__anext__` are those of the reference step: 0 first without checks, then each new count, StopAsyncIteration once finished or depleted |
| Backoff.Backoff.Finish | yuyo/backoff.py:216-218 | only the finished flag is set |
| Backoff.Backoff.Reset | yuyo/backoff.py:220-226 | back to the initial state with the same max_retries |
| Backoff.Backoff.SetNextBackoff | yuyo/backoff.py:228-245 | only the override changes, None unsetting it |
| Backoff.ErrorManager.constructor | yuyo/backoff.py:287-310 | the rule set is the given rules |
| Backoff.ErrorManager.Exit | yuyo/backoff.py:315-332 | None without an exception; with one, True only when a matching rule's callback is falsy, False when no rule matches or the matching rule's callback is truthy |
| Backoff.ErrorManager.ClearRules | yuyo/backoff.py:334-336 | the rule set is empty |
| Backoff.ErrorManager.AddRule | yuyo/backoff.py:338-364 | the rule set gains exactly the new rule |
| Interactions.FlagsDetermined | yuyo/interactions.py:265-285 | a flag value is fixed by its EPHEMERAL bit and its other bits, so the bit-level facts below pin the flags down |
| Interactions.FlagsCompose | yuyo/interactions.py:265-285 | a value built from other bits and an EPHEMERAL bit reads those parts back |
| Interactions.SetEphemeral | yuyo/interactions.py:279-280 | `flags \| EPHEMERAL`: the EPHEMERAL bit set, every other bit kept |
| Interactions.ClearEphemeral | yuyo/interactions.py:282-283 | `flags & ~EPHEMERAL`: the EPHEMERAL bit cleared, every other bit kept |
| Interactions.GetFlags | yuyo/interactions.py:265-285 | ephemeral iff `ephemeral` is True, or it is None and either the given flags were ephemeral or (no flags) the call creates and the default is ephemeral; the other bits are those of the given flags, none without flags |
| Interactions.ValidateDeleteAfter | yuyo/interactions.py:255-263 | accepted, unchanged, iff delete_after + 10 fits in what is left of the 15-minute lifetime; else that ValueError |
| Interactions.RespondRoute | yuyo/interactions.py:1272-1316 | a follow-up iff responded; an edit of the initial response iff deferred and not responded; else the initial response |
| Interactions.InitialResponseError | yuyo/interactions.py:538-572 | no error iff delete_after is valid and the context neither responded nor deferred; a late delete_after is the ValueError, checked first; the rest are RuntimeErrors |
| Interactions.BaseContext.constructor | yuyo/interactions.py:87-112 | not responded, not deferred, no last response, nothing sent |
| Interactions.BaseContext.SetEphemeralDefault | yuyo/interactions.py:241-253 | only the ephemeral default changes |
| Interactions.BaseContext.Defer | yuyo/interactions.py:287-337 | RuntimeError and no change when already deferred; else deferred and one deferral sent, with flags computed as a creation only for a deferred create |
| Interactions.BaseContext.CreateFollowup | yuyo/interactions.py:346-393 | a late delete_after fails with no change; else one follow-up sent, its id becomes the last response, the context has responded and a deletion is scheduled when asked |
| Interactions.BaseContext.CreateInitialResponse | yuyo/interactions.py:538-616 | fails exactly with InitialResponseError, or on the response-future path with the ValueError of the first item given both singly and as a list; either way nothing changes and InitialResponseError comes first; else the response is delivered (to Discord or the response future), the context has responded and a deletion is scheduled when asked |
| Interactions.ToListConflict | yuyo/interactions.py:591-595 | no error exactly when no item is given both singly and as a list; otherwise the "Only one of ..." ValueError of the first such item, attachments before components before embeds |
| Interactions.BaseContext.DeleteInitialResponse | yuyo/interactions.py:762-773 | deletes the initial response and marks the context responded |
| Interactions.BaseContext.DeleteLastResponse | yuyo/interactions.py:775-793 | deletes the last follow-up; without one, the initial response once responded or deferred (then responded); else LookupError and no change |
| Interactions.BaseContext.EditInitialResponse | yuyo/interactions.py:795-924 | a late delete_after fails with no change; else edits, marks responded and schedules a deletion when asked |
| Interactions.BaseContext.EditLastResponse | yuyo/interactions.py:926-1071 | edits the last follow-up when its id is truthy; else edits the initial response once responded or deferred; else LookupError; a late delete_after fails with no change |
| Interactions.BaseContext.FetchInitialResponse | yuyo/interactions.py:1073-1086 | one fetch of the initial response, no state change |
| Interactions.BaseContext.FetchLastResponse | yuyo/interactions.py:1088-1107 | fetches the last follow-up, else the initial response once responded (deferral is not enough), else LookupError |
| Interactions.BaseContext.Respond | yuyo/interactions.py:1153-1321 | follows RespondRoute; fails iff delete_after is too late (that ValueError first) or, on the initial-response path through the response future, a singular and plural pair was given twice (the `to_list` ValueError); a failure changes nothing; a success leaves the context responded; only a fresh initial response is fetched for ensure_result |
| Interactions.InteractionError.ToString | yuyo/interactions.py:1433-1434 | the content, or "" without one |
| Interactions.OneOrMany | yuyo/interactions.py:1424-1428 | the singular as a one-item list when given, else the plural |
| Interactions.NewInteractionError | yuyo/interactions.py:1327-1431 | ValueError iff a singular and its non-empty plural are both given or a mention list has over 100 entries (attachments checked first, role mentions before user mentions); else the fields are stored |
| Interactions.SendError | yuyo/interactions.py:1454-1511 | responds on the context with the stored response, plural arguments only: succeeds iff its delete_after is valid, then the context has responded; a failure changes nothing |
| Components.ResolveFlags | yuyo/components.py:236-240 | ephemeral iff `ephemeral` is True, or the given flags are ephemeral, or (no flags) the default is ephemeral; the other bits are exactly those of the given flags |
| Components.ResolveFlagsCannotClear | yuyo/components.py:195-200 | with `ephemeral=False` the given flags pass through unchanged, so EPHEMERAL cannot be cleared |
| Components.ComponentContext.constructor | yuyo/components.py:110-127 | a fresh context has not responded, not deferred, no last response id and no outbound calls |
| Components.ComponentContext.SetEphemeralDefault | yuyo/components.py:171-183 | only the ephemeral default changes |
| Components.ComponentContext.Defer | yuyo/components.py:202-252 | RuntimeError iff already deferred, with nothing changed; otherwise marks deferred and sends one deferral with the resolved flags, through the future when there is one |
| Components.ComponentContext.CreateFollowup | yuyo/components.py:261-307 | ValueError iff delete_after lands too late, nothing changed; otherwise one follow-up with the resolved flags, the new message becomes the last response, and its deletion is scheduled when asked |
| Components.ComponentContext.CreateInitialResponse | yuyo/components.py:454-527 | fails iff the shared initial-response check fails or, on the response-future path, an item is given both singly and as a list (components.py:505-507); either way that exact error, the initial-response error first, nothing changed; otherwise one delivery of the response type with the resolved flags, marks responded and schedules the delete |
| Components.ComponentContext.DeleteInitialResponse | yuyo/components.py:689-700 | one delete of the initial response; marks responded |
| Components.ComponentContext.DeleteLastResponse | yuyo/components.py:702-720 | deletes the last response message when known, else the initial response once responded or deferred, else LookupError with nothing changed |
| Components.ComponentContext.EditInitialResponse | yuyo/components.py:722-852 | ValueError iff delete_after lands too late; otherwise one edit of the initial response, marks responded, schedules the delete |
| Components.ComponentContext.EditLastResponse | yuyo/components.py:854-1002 | a known non-zero last id is edited; else the initial response once responded or deferred; else LookupError; a late delete_after fails first; failures change nothing |
| Components.ComponentContext.FetchInitialResponse | yuyo/components.py:1004-1017 | one fetch of the initial response; no state change |
| Components.ComponentContext.FetchLastResponse | yuyo/components.py:1019-1039 | fetches the last message when known, else the initial response once responded; a deferral alone gives LookupError |
| Components.ComponentContext.Respond | yuyo/components.py:1086-1256 | fails iff delete_after is too late (that ValueError first) or, on the initial-response path through the response future, a singular and plural pair was given twice (`_to_list`'s ValueError), changing nothing; otherwise a follow-up once responded, an edit of the initial response once deferred, else an initial MESSAGE_CREATE (plus a fetch when a result is demanded) |
| Components.ToList | yuyo/components.py:1262-1282 | ValueError iff both singular and plural are given; else the singular as a one-item list, or the plural, or an item-typed content moved out of the content, or nothing |
| Components.ToListKeepsItems | yuyo/components.py:1262-1282 | the returned list followed by any item left in the content is exactly the items given, in order |
| Components.Lookup | yuyo/components.py:1582-1595 | `dict.get`: None iff the key is absent; otherwise the value stored under it |
| Components.RemoveKey | yuyo/components.py:1615-1618 | `del`: the key's entries go, every other entry stays, distinct keys stay distinct |
| Components.RemoveKeyAppended | yuyo/components.py:1615-1618 | deleting a key just added to a table without it gives the table back |
| Components.FirstPrefix | yuyo/components.py:1463-1466 | the first-inserted prefix the custom id starts with, or None iff no prefix matches |
| Components.ComponentClient.constructor | yuyo/components.py:1303-1355 | empty tables, closed |
| Components.ComponentClient.MatchConstantId | yuyo/components.py:1463-1466 | an exact id wins; else the callback of the first-inserted matching prefix; None iff no prefix matches |
| Components.ComponentClient.GetConstantId | yuyo/components.py:1582-1595 | None iff the id is in neither table; an exact id's callback first |
| Components.ComponentClient.SetConstantId | yuyo/components.py:1538-1580 | ValueError iff the id is in either table (the prefix message first), nothing changed; otherwise it lands in exactly one table and can be looked up |
| Components.ComponentClient.RemoveConstantId | yuyo/components.py:1597-1620 | removes from the exact table, else the prefix table, else KeyError with nothing changed; afterwards the id is gone |
| Components.ComponentClient.SetExecutor | yuyo/components.py:1657-1678 | replaces the message's executor; nothing else changes |
| Components.ComponentClient.GetExecutor | yuyo/components.py:1680-1695 | the message's executor, None iff none is set |
| Components.ComponentClient.RemoveExecutor | yuyo/components.py:1697-1711 | KeyError iff none is set; afterwards the message has no executor |
| Components.ComponentClient.Open | yuyo/components.py:1450-1461 | the client is open; the tables are unchanged |
| Components.ComponentClient.Close | yuyo/components.py:1434-1448 | the client is closed; executors are dropped only if it was open |
| Components.ComponentClient.Gc | yuyo/components.py:1422-1432 | one sweep keeps exactly the executors that have not expired |
| Components.ComponentClient.OnGatewayEvent | yuyo/components.py:1468-1503 | a matching constant callback runs first; else the message's executor, removed if it raises ExecutorClosed; else the timed-out reply |
| Components.ComponentClient.OnRestRequest | yuyo/components.py:1505-1536 | as the gateway path, except that an expired executor is deleted and answered with the timed-out reply |
| Components.SetThenRemoveConstantId | yuyo/components.py:1538-1620 | registering a new id and removing it restores both tables |
| Components.ComponentExecutor.constructor | yuyo/components.py:1751-1767 | no callbacks; the timeout clock starts at creation |
| Components.ComponentExecutor.CallbackFor | yuyo/components.py:1783-1787 | the callback `execute` runs; KeyError iff none is set for the custom id |
| Components.ComponentExecutor.SetCallback | yuyo/components.py:1789-1800 | the custom id now maps to the callback |
| Components.HasExpiredAt | yuyo/components.py:1779-1781 | more than the timeout has passed between the start and the clock reading |
| Components.ComponentExecutor.HasExpired | yuyo/components.py:1779-1781 | expired exactly when more than the timeout has passed since the executor was made |
| Components.ExecutorExpiryIsMonotonic | yuyo/components.py:1779-1781 | the clock is never restarted, so once expired an executor stays expired at every later time |
| Components.AuthorFilter | yuyo/components.py:1869 | an empty or missing author list means anyone; otherwise the list is kept |
| Components.WaitForExecutor.constructor | yuyo/components.py:1846-1874 | authors filtered, not finished, not waited for |
| Components.WaitForExecutor.HasExpired | yuyo/components.py:1882-1888 | expired once finished; never before `wait_for` starts the clock; otherwise once more than the timeout has passed since `wait_for` |
| Components.WaitForExecutor.WaitFor | yuyo/components.py:1890-1911 | RuntimeError iff already waited for; otherwise starts the wait and its clock |
| Components.WaitForExecutor.EndWait | yuyo/components.py:1913-1914 | the `finally`: the executor is finished |
| Components.WaitForExecutor.Execute | yuyo/components.py:1916-1935 | not-ready before `wait_for`, closed once finished, refuses a non-author, else resolves the waiter and finishes |
| Components.WaitForIsOneShot | yuyo/components.py:1916-1935 | after one resolved interaction every later one is closed |
| Components.ActionRowExecutor.constructor | yuyo/components.py:1947-1962 | no callbacks, no components, no stored type |
| Components.ActionRowExecutor.AssertCanAddType | yuyo/components.py:1968-1972 | ValueError iff a different type is already stored; otherwise the type is stored |
| Components.ActionRowExecutor.AddComponent | yuyo/components.py:1974-1993 | appends the component; nothing else changes |
| Components.ActionRowExecutor.AddButton | yuyo/components.py:2021-2091 | refused for a row of another type; an interactive style needs a callback and registers it under the given or random id; a link style needs a URL; the two refusals are the ValueError and TypeError messages ending with the target's type; only a success appends |
| Components.ActionRowExecutor.AddSelectMenu | yuyo/components.py:2093-2148 | ValueError iff the row holds another type; otherwise registers the callback and appends the menu |
| Components.ActionRowHoldsOneType | yuyo/components.py:1968-1972 | after a button, a select menu is refused and the row still holds just the button |
| Components.MultiComponentExecutor.constructor | yuyo/components.py:2330-2344 | no builders, no executors |
| Components.MultiComponentExecutor.HasExpired | yuyo/components.py:2361-2363 | expired exactly when more than the timeout has passed since the executor was made |
| Components.MultiExecutorExpiryLasts | yuyo/components.py:2361-2363 | once expired the executor stays expired |
| Components.MultiComponentExecutor.AddBuilder | yuyo/components.py:2365-2381 | appends the builder |
| Components.MultiComponentExecutor.AddExecutor | yuyo/components.py:2399-2415 | appends the executor |
| Components.MultiComponentExecutor.AddActionRow | yuyo/components.py:2383-2397 | the new row is appended as both an executor and a builder |
| Components.MultiComponentExecutor.Execute | yuyo/components.py:2417-2424 | the first child whose custom ids hold the interaction's; KeyError iff none does |
| Components.NextEntryServesPages | yuyo/components.py:2741-2777 | serves the page after the current one when there is one, else None with nothing changed; the reachable pages never change |
| Components.NextEntry | yuyo/components.py:2741-2777 | without a next page nothing changes; otherwise the index moves on by one and the entry returned is the page now pointed at |
| Components.FirstStep | yuyo/components.py:2779-2785 | nothing at index 0; otherwise either nothing or the first page, with the index moved to 0 |
| Components.PreviousStep | yuyo/components.py:2787-2794 | shows a page exactly when the index is above 0, the page before the current one with the index moved back; otherwise nothing changes |
| Components.LastStep | yuyo/components.py:2802-2830 | the source is always dropped and the index points at the last buffered page; with a source the loading path is taken, reporting the last page when there is one; a page shown is the last page |
| Components.NextStep | yuyo/components.py:2832-2839 | either nothing with nothing changed, or a deferred edit to the next page with the index moved on by one |
| Components.ButtonStep | yuyo/components.py:2730-2739 | only the stop button deletes and closes; every other button keeps the index in range and the reachable pages |
| Components.ButtonsKeepCursor | yuyo/components.py:2779-2839 | every button keeps the index in range and the pages reachable; first shows page 0, previous moves back iff possible, next moves on iff a later page exists, last drains the source and points at the last page |
| Components.ComponentPaginator.constructor | yuyo/components.py:2435-2504 | empty buffer at index -1 over the whole source; authors filtered |
| Components.ComponentPaginator.GetNextEntry | yuyo/components.py:2741-2777 | the new cursor and the result are those of `NextEntry` on the old cursor, so it returns the next reachable page or None (NextEntryServesPages) |
| Components.ComponentPaginator.OnFirst | yuyo/components.py:2779-2785 | behaves as `FirstStep` on the cursor: shows page 0 unless already there or there are no pages (ButtonsKeepCursor) |
| Components.ComponentPaginator.OnPrevious | yuyo/components.py:2787-2794 | behaves as `PreviousStep`: moves back one page iff the index is positive |
| Components.ComponentPaginator.OnDisable | yuyo/components.py:2796-2800 | drops the source and closes |
| Components.ComponentPaginator.OnLast | yuyo/components.py:2802-2830 | behaves as `LastStep`: with a source, drains it and points at the last page; else jumps to the last buffered page |
| Components.ComponentPaginator.OnNext | yuyo/components.py:2832-2839 | behaves as `NextStep`: defers then shows the next page iff a later page exists |
| Components.ComponentPaginator.Execute | yuyo/components.py:2730-2739 | a non-author is refused and the cursor does not move; otherwise the pressed button's step |
| Modals.ModalClient.constructor | yuyo/modals.py:317-369 | empty tables, closed |
| Modals.ModalClient.MatchConstantId | yuyo/modals.py:477-480 | an exact id wins; else the first-inserted matching prefix; None iff no prefix matches |
| Modals.ModalClient.GetConstantId | yuyo/modals.py:611-624 | None iff the id is in neither table; an exact id's modal first |
| Modals.ModalClient.SetConstantId | yuyo/modals.py:567-609 | ValueError iff the id is in either table (the prefix message first), nothing changed; otherwise it lands in exactly one table and can be looked up |
| Modals.ModalClient.RemoveConstantId | yuyo/modals.py:626-649 | removes from the exact table, else the prefix table, else KeyError with nothing changed; afterwards the id is gone |
| Modals.ModalClient.Open | yuyo/modals.py:464-475 | the client is open; idempotent; tables unchanged |
| Modals.ModalClient.Close | yuyo/modals.py:448-462 | the client is closed; `_modals` is emptied only if it was open |
| Modals.ModalClient.Gc | yuyo/modals.py:436-446 | one sweep keeps exactly the modals that have not expired |
| Modals.ModalClient.OnGatewayEvent | yuyo/modals.py:482-533 | a matching constant modal first; else the modal under the custom id, removed if it raises ModalClosed; else the timed-out reply |
| Modals.ModalClient.OnRestRequest | yuyo/modals.py:482-565 | as the gateway path, except that an expired modal is deleted and answered with the timed-out reply; a constant modal never changes a table |
| Modals.ModalContext.constructor | yuyo/modals.py:85-98 | not deferred, no outbound calls |
| Modals.ModalContext.Defer | yuyo/modals.py:261-301 | RuntimeError iff already deferred, with no call; otherwise one deferred MESSAGE_CREATE, ephemeral whenever `ephemeral` is True |
| Modals.MakeTextInput | yuyo/modals.py:994-1024 | the given or a random custom id, used for the row; the input is required iff there is no default |
| Modals.TrackedFor | yuyo/modals.py:974-977 | a field is tracked, under its keyword, iff the keyword is truthy |
| Modals.Modal.constructor | yuyo/modals.py:768-792 | no rows, no tracked fields, the timeout clock starts now |
| Modals.Modal.HasExpired | yuyo/modals.py:808-813 | never without a timeout; otherwise iff more than the timeout has passed since the last trigger |
| Modals.Modal.AddTextInput | yuyo/modals.py:904-979 | appends the row, and a tracked field iff the keyword is truthy |
| Modals.ModalClass.constructor | yuyo/modals.py:794-806 | a new class starts with no static fields or rows |
| Modals.ModalClass.AddStaticTextInput | yuyo/modals.py:824-902 | RuntimeError iff on `Modal` itself, nothing changed; otherwise appends the row and a tracked field iff the keyword is truthy |
| Reactions.Gate | yuyo/reactions.py:254-262 | a callback runs iff a message is bound, the user passes a non-empty author set (an empty one lets anyone in), and the emoji's id (else its name) has a callback; it is that callback; the event is unidentified (the `assert` at line 258 fails) iff a message is bound, the user passes and the emoji has neither id nor name |
| Reactions.HandlerReactionAsWritten | yuyo/reactions.py:250-262 | an expired handler ends in RuntimeError "No active exception to reraise" (a bare `raise` outside `except`); otherwise as intended, including the AssertionError of an unidentified event |
| Reactions.HandlerReaction | yuyo/reactions.py:246-275 | intended: closed iff expired; the gated callback runs iff not expired and there is one; AssertionError iff not expired and the event is unidentified |
| Reactions.ReactionHandler.constructor | yuyo/reactions.py:123-152 | the given authors, no callbacks, no message; with a timeout it expires exactly when more than the timeout has passed since creation, else never |
| Reactions.ReactionHandler.Open | yuyo/reactions.py:168-169 | binds the message; nothing else changes |
| Reactions.ReactionHandler.Close | yuyo/reactions.py:171-173 | unbinds the message; nothing else changes |
| Reactions.ReactionHandler.SetCallback | yuyo/reactions.py:175-197 | the callback replaces any other under the emoji's key (a custom emoji's id) |
| Reactions.ReactionHandler.RemoveCallback | yuyo/reactions.py:199-215 | KeyError iff no callback is stored under the key, nothing changed; otherwise the key is removed |
| Reactions.ReactionPaginator.AddAuthor | yuyo/reactions.py:563-572 | the user joins the authors |
| Reactions.ReactionPaginator.RemoveAuthor | yuyo/reactions.py:574-589 | the user leaves the authors; silent when absent |
| Reactions.ReactionHandler.OnReactionEvent | yuyo/reactions.py:246-275 | corrected: the intended outcome for the handler's expiry and gate, AssertionError included; an expired handler drops its message; the timeout is not advanced, so expiry is unchanged |
| Reactions.ReactionHandler.OnReactionEventAsWritten | yuyo/reactions.py:246-275 | as written: the as-written outcome, so an expired handler raises RuntimeError and an unidentified event AssertionError; an expired handler's message is still dropped and nothing else changes |
| Reactions.CallsMade | yuyo/reactions.py:613-637 | how many of the calls are made before the failing one: fewer than all iff one of them fails |
| Reactions.ReactionCalls | yuyo/reactions.py:591-637 | one add (or remove) call per reaction, in order |
| Reactions.Emojis | yuyo/reactions.py:345-353 | the reactions `_add_button` records for the buttons, one unicode emoji each, in order |
| Reactions.DefaultTriggersButtons | yuyo/reactions.py:329-343 | the default triggers register previous, stop and next, in that order, each under its own emoji |
| Reactions.BlackCrossAddsStopSquare | yuyo/reactions.py:335-336 | the black cross alone adds the stop button under the stop square, and nothing under the cross |
| Reactions.FirstKeepsPosition | yuyo/reactions.py:520-522 | away from page 0, "first" shows the first page but leaves the index where it was (unless the page had to be pulled) |
| Reactions.FirstStep | yuyo/reactions.py:520-522 | nothing at index 0; with pages buffered, the first page with the cursor untouched; a page shown is always the first buffered page |
| Reactions.FirstThenNextSkips | yuyo/reactions.py:520-561 | from the second of three buffered pages, "first" then "next" shows the first page and then the third |
| Reactions.LastStepShowsLastPage | yuyo/reactions.py:524-530 | "last" drains the source into the buffer and shows the last page iff there is one, pointing the index at it |
| Reactions.LastStep | yuyo/reactions.py:524-530 | the buffer becomes every reachable page and a source is left empty; a page is shown exactly when there is one, and it is the last, now pointed at |
| Reactions.PageStep | yuyo/reactions.py:511-561 | stop shows nothing and moves nothing; previous shows a page exactly when the index is above 0; previous and next change nothing when they show nothing |
| Reactions.PageStepKeepsCursor | yuyo/reactions.py:511-561 | every button keeps the reachable pages and the index in range; a page shown is the first page for "first", else the page at the new index |
| Reactions.ReactionPaginator.constructor | yuyo/reactions.py:286-343 | an empty buffer at index -1 over the whole source; callbacks and reactions are those of the trigger buttons, in trigger order |
| Reactions.ReactionPaginator.AddTriggerButtons | yuyo/reactions.py:329-343 | the buttons for the given triggers are registered and their reactions recorded, in order |
| Reactions.ReactionPaginator.AddButton | yuyo/reactions.py:345-353 | the button goes under its emoji; the emoji joins the reactions iff asked |
| Reactions.ReactionPaginator.EditMessage | yuyo/reactions.py:501-509 | no call while no message is bound; otherwise one edit, which closes the handler iff it fails |
| Reactions.ReactionPaginator.GetNextEntry | yuyo/reactions.py:532-552 | the new cursor and result are those of `NextEntry`: the next reachable page or None |
| Reactions.ReactionPaginator.OnFirst | yuyo/reactions.py:520-522 | the cursor moves as `PageStep(First)` says, and the page it shows is edited in |
| Reactions.ReactionPaginator.OnPrevious | yuyo/reactions.py:558-561 | the cursor moves as `PageStep(Previous)` says, and the page it shows is edited in |
| Reactions.ReactionPaginator.OnNext | yuyo/reactions.py:554-556 | the cursor moves as `PageStep(Next)` says, and the page it shows is edited in |
| Reactions.ReactionPaginator.OnLast | yuyo/reactions.py:524-530 | the cursor moves as `PageStep(Last)` says, and the last page, if any, is edited in |
| Reactions.ReactionPaginator.OnDisable | yuyo/reactions.py:511-518 | unbinds the message, deletes it if there was one, and always closes |
| Reactions.ReactionPaginator.Execute | yuyo/reactions.py:511-561 | one button: the cursor moves as `PageStep` says; stop always closes; the others close only on a failed edit |
| Reactions.ReactionPaginator.OnReactionEvent | yuyo/reactions.py:246-275 | corrected: the handler's gate, then the button bound to the emoji; an unidentified event raises AssertionError with nothing changed; an expired paginator closes without moving the cursor |
| Reactions.ReactionPaginator.OnReactionEventAsWritten | yuyo/reactions.py:246-275 | as written: an expired paginator raises RuntimeError("No active exception to reraise") with the cursor and calls unchanged and the message dropped; otherwise as the corrected event, AssertionError included |
| Reactions.ReactionPaginator.Open | yuyo/reactions.py:613-637 | binds the message, then adds the reactions in order until one fails; NotFound unbinds and is raised, Forbidden stops quietly |
| Reactions.ReactionPaginator.Close | yuyo/reactions.py:591-611 | unbinds the message; removes the reactions in order until one fails only when a message was bound and removal is asked |
| Reactions.ReactionPaginator.Create | yuyo/reactions.py:639-685 | RuntimeError when already running; ValueError when the source yields no first page; otherwise sends the first page and opens on the new message |
| Reactions.ExpiredHandlerStaysAsWritten | yuyo/reactions.py:250-252 | as written, an expired handler's event raises RuntimeError out of the client and the handler stays registered |
| Reactions.ExpiredHandlerIsDropped | yuyo/reactions.py:833-837 | as intended, an expired handler's event removes it from the client with no error |
| Reactions.ClientEvent | yuyo/reactions.py:827-837 | blacklisted users and messages without a handler change nothing; otherwise the handler is dropped exactly when it raised HandlerClosed, and the client raises exactly the error the handler raised |
| Reactions.ReactionClient.constructor | yuyo/reactions.py:692-738 | no handlers, empty blacklist, no gc task |
| Reactions.ReactionClient.OnReactionEvent | yuyo/reactions.py:827-837 | blacklisted users are ignored; the message's handler runs and is dropped iff it raises HandlerClosed; another error propagates and the handler stays |
| Reactions.ReactionClient.SetHandler | yuyo/reactions.py:850-864 | replaces any handler of the message |
| Reactions.ReactionClient.GetHandler | yuyo/reactions.py:866-884 | the message's handler, None iff none |
| Reactions.ReactionClient.RemoveHandler | yuyo/reactions.py:886-904 | KeyError iff the message has no handler; otherwise returns and removes it |
| Reactions.ReactionClient.Gc | yuyo/reactions.py:815-825 | one sweep keeps exactly the unexpired handlers and closes every expired one |
| Reactions.ReactionClient.CloseAsWritten | yuyo/reactions.py:913-921 | when the gc task is set, every handler is dropped and closed, and the gc task stays set |
| Reactions.ReactionClient.Close | yuyo/reactions.py:913-921 | as intended: every handler is dropped and closed, and the client is closed |
| Reactions.ReactionClient.Open | yuyo/reactions.py:923-930 | when not started, starts and blacklists the bot's own user; otherwise nothing changes |
| Reactions.ReopenAsWritten | yuyo/reactions.py:913-930 | as written, `is_closed` stays false after close and a later open adds nothing |
| Reactions.ReopenRestarts | yuyo/reactions.py:913-930 | with the gc task cleared, close reports closed and open starts the client again |
| Reactions.OwnReactionsIgnored | yuyo/reactions.py:923-930 | once open, an event from the bot's own user changes nothing |
| Paginaton.ButtonOf | yuyo/paginaton.py:402-411 | each of the five paginator emojis maps to its button, and only that emoji does |
| Paginaton.Gate | yuyo/paginaton.py:632-637 | a button runs iff a message is bound, the user passes a non-empty author set, no `_on_last` is running, and the emoji is both a trigger and mapped; it is the emoji's button |
| Paginaton.StartAsWritten | yuyo/paginaton.py:412 | as written the index starts at 0 over an empty buffer, which is not an in-range cursor |
| Paginaton.Start | yuyo/paginaton.py:412 | corrected: the index starts at -1 before the first page, an in-range cursor over the whole source |
| Paginaton.PreviousRepeatsPageAsWritten | yuyo/paginaton.py:496-514 | from the as-written start, after pages 1 and 2 "previous" shows page 2 again |
| Paginaton.PreviousGoesBack | yuyo/paginaton.py:496-514 | corrected: from the corrected start, after the first two pages "previous" shows the first |
| Paginaton.OpenedEdgesAsWritten | yuyo/paginaton.py:412 | as written, right after `open()` sends the first page "previous" shows that page again, and after `open(message=...)` "first" finds index 0 and returns nothing |
| Paginaton.FirstStep | yuyo/paginaton.py:474-478 | nothing at index 0; otherwise the first buffered page, the index unchanged; IndexError iff away from index 0 with nothing buffered |
| Paginaton.Step | yuyo/paginaton.py:474-514 | only "first" can fail, with an IndexError away from index 0 over an empty buffer, and it never moves the cursor; "previous" gives nothing exactly at or before index 0; "next" changes nothing when it gives nothing; "last" buffers every reachable page |
| Paginaton.StepKeepsCursor | yuyo/paginaton.py:474-514 | corrected: every page button keeps the reachable pages and the index in range; a page returned is the page at the index, or the first page for "first" |
| Paginaton.StepKeepsCursorAsWritten | yuyo/paginaton.py:412-514 | as written the index stays within 0 and the buffer's length: every page button keeps the reachable pages and that bound, and none raises |
| Paginaton.NoPageOnTheEdges | yuyo/paginaton.py:474-514 | "first" on the first page, "previous" before the second and "next" past the last return no page |
| Paginaton.ReactionCalls | yuyo/paginaton.py:527-624 | one reaction call per emoji, in order |
| Paginaton.Retried | yuyo/paginaton.py:578-592 | a try is retried exactly when it raised a server error or a rate limit no longer than `max_backoff` |
| Paginaton.LoopEnd | yuyo/paginaton.py:578-592 | the retry loop stops at the first try that is not retried, inside the loop when there is one among the n + 1 tries the `Backoff` allows; otherwise the `else` clause makes one more try; every try before the stop was retried |
| Paginaton.RetryLoop | yuyo/paginaton.py:578-592 | the loop stops at the try `LoopEnd` names, and says whether that try was inside the loop |
| Paginaton.ReactFrom | yuyo/paginaton.py:597-624 | the number of triggers added; success only when every trigger was added or one raised Forbidden inside its loop, returning the created message; unbinding only with NotFound |
| Paginaton.Paginator.constructor | yuyo/paginaton.py:382-419 | the given authors, triggers and timeout; as written the cursor at index 0 over an empty buffer before the whole source; unlocked, unbound, no calls |
| Paginaton.Paginator.Corrected | yuyo/paginaton.py:382-419 | corrected: the cursor at index -1 before the whole source, so that the page on screen is the page at the index; otherwise as the constructor |
| Paginaton.Paginator.OnDisable | yuyo/paginaton.py:465-472 | unbinds the message and deletes it if there was one; the cursor does not move |
| Paginaton.Paginator.OnFirst | yuyo/paginaton.py:474-478 | returns `FirstStep` of the cursor |
| Paginaton.Paginator.OnLast | yuyo/paginaton.py:480-494 | result and new cursor are `LastStep`'s: the source drained, the last page shown iff there is one; unlocked afterwards |
| Paginaton.Paginator.OnNext | yuyo/paginaton.py:496-507 | result and new cursor are `NextEntry`'s: the next reachable page or None |
| Paginaton.Paginator.OnPrevious | yuyo/paginaton.py:509-514 | result and new cursor are `PreviousStep`'s: one page back iff the index is positive |
| Paginaton.Paginator.AddAuthor | yuyo/paginaton.py:516-518 | the user joins the authors |
| Paginaton.Paginator.RemoveAuthor | yuyo/paginaton.py:520-525 | the user leaves the authors; silent when absent |
| Paginaton.Paginator.Close | yuyo/paginaton.py:527-549 | unbinds the message and removes the trigger reactions in order up to the first failure, whatever `remove_reactions` says; nothing when unbound |
| Paginaton.Paginator.Open | yuyo/paginaton.py:551-624 | nothing when bound; ValueError when max_retries is below 2; without a message, ValueError iff no page is left, else the page is sent under the retry loop, whose last failure is raised; then the message is bound and the triggers are added as `ReactFrom` says; the message is returned only when a try inside the loop created it |
| Paginaton.Paginator.AddTriggers | yuyo/paginaton.py:597-624 | binds the message and adds the triggers in order, each under its own retry loop; NotFound inside the loop unbinds and is raised, Forbidden inside the loop returns quietly, any other failure is raised with the message kept |
| Paginaton.Paginator.OnReactionEvent | yuyo/paginaton.py:626-668 | expired: closes and ends; failing the gate: ignored; stop: deletes and ends; a page button without a page ends, with a page marks the paginator used and edits the message, ending iff the edit is refused |
| Paginaton.PaginatorPool.constructor | yuyo/paginaton.py:694-705 | no paginators, empty blacklist, gc never started |
| Paginaton.PaginatorPool.OnReactionEvent | yuyo/paginaton.py:719-728 | blacklisted users ignored; the message's paginator runs and is dropped iff it returns END; an error propagates and it stays |
| Paginaton.PaginatorPool.AddPaginator | yuyo/paginaton.py:736-751 | replaces any paginator of the message |
| Paginaton.PaginatorPool.GetPaginator | yuyo/paginaton.py:753-771 | the message's paginator, None iff none |
| Paginaton.PaginatorPool.RemovePaginator | yuyo/paginaton.py:773-791 | KeyError iff the message has none; otherwise returns and removes it |
| Paginaton.PaginatorPool.Gc | yuyo/paginaton.py:707-717 | one sweep keeps exactly the unexpired paginators and closes each expired one |
| Paginaton.PaginatorPool.Close | yuyo/paginaton.py:793-803 | once gc was started, drops and closes every paginator; the gc task is never cleared |
| Paginaton.PaginatorPool.Open | yuyo/paginaton.py:805-814 | the first time, starts gc and blacklists the bot's own user; afterwards nothing |
| Paginaton.NumberPieces | yuyo/paginaton.py:875-876 | each piece of a long line is yielded, rendered, under the next page number |
| Paginaton.PlaceLongLine | yuyo/paginaton.py:862-876 | agrees with `Pagination.Place`: a short last piece joins the page, the rest are numbered pages |
| Paginaton.PaginateLine | yuyo/paginaton.py:852-881 | agrees with `Pagination.AddLine` for one line, keeping pages numbered from 0 |
| Paginaton.NumberedRendered | yuyo/paginaton.py:848-885 | numbered pages are the rendered pages, each with its position |
| Paginaton.RunStep | yuyo/paginaton.py:852-881 | a run over the lines is the first line's step followed by the run over the rest, unless the step fails |
| Paginaton.StringPaginator | yuyo/paginaton.py:816-885 | the pages are exactly `Pagination.Paginate`'s, numbered 0, 1, 2… in order, with its error when a line cannot be split |
| LegacyPaginator.StringPaginator | yuyo/paginator.py:548-616 | the legacy string paginator: for an iterator, exactly the newer string paginator's numbered pages and error; for anything else, the ValueError of `seek_iterator` (lines 239-252) naming the type, no page and the source untouched |
| LegacyPaginator.CheckIterator | yuyo/paginator.py:290-291 | construction fails with the ValueError naming the type exactly when the source is a synchronous iterator |
| LegacyPaginator.EffectiveTimeout | yuyo/paginator.py:308 | a given non-zero timeout is kept; a missing or zero one becomes 30 seconds |
| LegacyPaginator.ButtonOf | yuyo/paginator.py:298-303 | the left triangle, stop square, right triangle and skull map to previous, stop, next and last, and only they do; nothing maps to "first" |
| LegacyPaginator.Gate | yuyo/paginator.py:440-445 | a button runs iff a message is bound, the user passes a non-empty author set, `on_last` is not running, and the emoji is a trigger with a mapped button; it is that button |
| LegacyPaginator.Start | yuyo/paginator.py:292-304 | the first page is buffered and shown, at index 0, and the reachable pages are the first page then the source |
| LegacyPaginator.NextShowsSourceAsWritten | yuyo/paginator.py:347-358 | as written, "next" from inside the buffer shows the source's next item instead of the buffered next page |
| LegacyPaginator.NextAsWritten | yuyo/paginator.py:347-358 | as written "next" always pulls: a page exactly when the source has one, the source's next item, appended to the buffer with the index moved on by one; otherwise nothing changes |
| LegacyPaginator.PreviousThenNextSkipsAsWritten | yuyo/paginator.py:347-358 | an instance: with pages 1, 2 buffered and 3 left, "previous" then "next" as written shows 3, skipping 2 |
| LegacyPaginator.Step | yuyo/paginator.py:341-381 | corrected: "previous" gives a page exactly when the index is above 0; "next" changes nothing when it gives nothing, else gives the page now at the index, one further on; "last" buffers every reachable page |
| LegacyPaginator.StepKeepsCursor | yuyo/paginator.py:341-381 | corrected: every page button keeps the reachable pages and leaves an in-range cursor over a non-empty buffer |
| LegacyPaginator.StepKeepsCursorAsWritten | yuyo/paginator.py:341-381 | as written every page button still keeps the reachable pages and an in-range cursor over a non-empty buffer |
| LegacyPaginator.PreviousThenNextReturns | yuyo/paginator.py:347-358 | corrected: inside the buffer "previous" then "next" returns to the page it started from |
| LegacyPaginator.EditLoopAsWritten | yuyo/paginator.py:451-471 | as written the edit loop ends only at the first refused edit (END) or uncaught error (which propagates), after that edit; otherwise it edits once per answer |
| LegacyPaginator.EditLoop | yuyo/paginator.py:451-471 | corrected: the loop stops at the first answer that is not a retry: a done edit keeps the paginator, a refused one gives END, any other error propagates; it keeps editing only while every answer asks for a retry |
| LegacyPaginator.DoneEditsRepeatAsWritten | yuyo/paginator.py:451-471 | as written, a run of done edits never ends the loop: every answer costs another edit |
| LegacyPaginator.RefusedEditEndsLoopAsWritten | yuyo/paginator.py:451-471 | as written the first refused edit, after k answers that neither refuse nor fail, ends the loop with END after k + 1 edits |
| LegacyPaginator.EditLoopStopsAt | yuyo/paginator.py:451-471 | corrected: after k retries, the first other answer ends the loop with its ending after k+1 edits |
| LegacyPaginator.EditLoopAsWrittenStopsAt | yuyo/paginator.py:451-471 | as written: after k answers that neither refuse nor fail, the first refusal or uncaught error ends the loop with its ending after k+1 edits |
| LegacyPaginator.UncaughtEditErrorPropagates | yuyo/paginator.py:458-471 | an edit error other than the server error, rate limit, NotFound and Forbidden leaves `on_reaction_event`, as written and as meant |
| LegacyPaginator.DoneEditEndsLoop | yuyo/paginator.py:451-471 | corrected: after k retries, one done edit ends the loop with the paginator kept after k+1 edits |
| LegacyPaginator.EditCalls | yuyo/paginator.py:459 | n edits of the message, each to the same page |
| LegacyPaginator.Paginator.constructor | yuyo/paginator.py:277-309 | the buffer holds the first page at index 0 over the whole source; authors, triggers and timeout (defaulted) are kept; no message is bound and nothing is locked |
| LegacyPaginator.Paginator.OnDisable | yuyo/paginator.py:332-339 | unbinds the message and deletes it if one was bound; the cursor does not move |
| LegacyPaginator.Paginator.OnFirst | yuyo/paginator.py:341-345 | gives no page exactly when already at index 0, else the first buffered page |
| LegacyPaginator.Paginator.OnNext | yuyo/paginator.py:347-358 | corrected: moves the cursor as the corrected "next" does (buffered page first, then the source) and changes nothing else |
| LegacyPaginator.Paginator.OnNextAsWritten | yuyo/paginator.py:347-358 | as written: the cursor and result are `NextAsWritten`'s, and nothing else changes |
| LegacyPaginator.Paginator.OnLast | yuyo/paginator.py:360-374 | drains the source into the buffer, shows its last page and ends unlocked |
| LegacyPaginator.Paginator.OnPrevious | yuyo/paginator.py:376-381 | gives nothing at index 0, else steps back one buffered page |
| LegacyPaginator.Paginator.AddAuthor | yuyo/paginator.py:383-384 | the user joins the authors; the cursor and message are unchanged |
| LegacyPaginator.Paginator.RemoveAuthor | yuyo/paginator.py:386-390 | the user leaves the authors, absent or not; the cursor and message are unchanged |
| LegacyPaginator.Paginator.DeregisterMessage | yuyo/paginator.py:392-413 | unbinds the message and, if one was bound, removes its trigger reactions one by one until a removal is refused |
| LegacyPaginator.Paginator.RegisterMessage | yuyo/paginator.py:415-433 | binds the message and adds the trigger reactions in order until an addition is refused |
| LegacyPaginator.Paginator.EditPage | yuyo/paginator.py:451-471 | corrected: edits the bound message to the page as many times as the corrected loop does and returns its outcome, an uncaught error included |
| LegacyPaginator.Paginator.EditPageAsWritten | yuyo/paginator.py:451-471 | as written: the outcome (an uncaught error included) and the number of edits of the bound message are the as-written loop's |
| LegacyPaginator.Paginator.OnReactionEvent | yuyo/paginator.py:435-471 | corrected: expired: END_AND_REMOVE with nothing changed; gate fails: nothing happens; stop: message deleted, END; otherwise the button's step, and a page marks use and edits the message, ending as the corrected edit loop does (an uncaught edit error propagates) |
| LegacyPaginator.Paginator.OnReactionEventAsWritten | yuyo/paginator.py:435-471 | as written: as the corrected event, but "next" always pulls from the source and the edit loop ends only on a refused edit or an uncaught error |
| LegacyPaginator.PaginatorPool.constructor | yuyo/paginator.py:476-490 | no paginators, an empty blacklist, no gc task |
| LegacyPaginator.PaginatorPool.OnReactionEvent | yuyo/paginator.py:504-514 | a blacklisted user is ignored; the message's paginator is dropped and deregistered exactly when it answers END; its error propagates exactly when it raises one |
| LegacyPaginator.PaginatorPool.AddPaginator | yuyo/paginator.py:522-523 | the message maps to the paginator, replacing any other |
| LegacyPaginator.PaginatorPool.GetPaginator | yuyo/paginator.py:525-528 | finds a paginator exactly when the message has one, and it is that one |
| LegacyPaginator.PaginatorPool.RemovePaginator | yuyo/paginator.py:530-533 | KeyError exactly when the message has no paginator; otherwise removes and returns it |
| LegacyPaginator.PaginatorPool.Gc | yuyo/paginator.py:492-502 | one sweep keeps exactly the unexpired paginators and deregisters the expired ones |
| LegacyPaginator.PaginatorPool.Close | yuyo/paginator.py:535-540 | with the gc task set, empties the pool and deregisters every paginator; the task flag is never cleared |
| LegacyPaginator.PaginatorPool.Open | yuyo/paginator.py:542-546 | starts the gc task once, blacklisting the bot's own user only on that first open |
| Pagination.Chunks | yuyo/pagination.py:125-127 | `textwrap.wrap` of a line without whitespace: non-empty pieces of at most the width, all but the last exactly the width, that concatenate back to the line |
| Pagination.EffectiveLimit | yuyo/pagination.py:105-106 | a non-empty wrapper takes its length plus two off the char limit; no wrapper or an empty one leaves it |
| Pagination.Render | yuyo/pagination.py:117-147 | without a wrapper a piece is its own text and a page of n lines is their length plus n-1 newlines; a wrapper formats it through its uninterpreted `str.format` |
| Pagination.Flush | yuyo/pagination.py:116-119 | the page is yielded whole and a new one started, or nothing happens; a page at the line limit, or one this line would take over the char limit, is always yielded |
| Pagination.Place | yuyo/pagination.py:123-142 | fails exactly when a line at least the limit long meets a limit below 1, with textwrap's ValueError and nothing changed; never takes back what was yielded |
| Pagination.AddLine | yuyo/pagination.py:114-142 | one turn fails exactly as placing the line does, and keeps what was yielded before |
| Pagination.Run | yuyo/pagination.py:113-147 | keeps what was yielded before; fails only with textwrap's ValueError for a limit below 1, and never with a positive limit |
| Pagination.Paginate | yuyo/pagination.py:105-147 | the paginators fail only when the limit left by the wrapper is below 1, with the ValueError naming it, and never otherwise |
| Pagination.RenderAll | yuyo/pagination.py:117-147 | every yielded page or piece is rendered through `Render`, one string each, in order: formatted by the wrapper's own `str.format` exactly when the wrapper string is non-empty |
| Pagination.EmptyInputYieldsNothing | yuyo/pagination.py:114-147 | no lines give no pages and no error |
| Pagination.FlushWithinLimits | yuyo/pagination.py:117-120 | yielding a full page keeps every yielded page within the limits and leaves room for the next line |
| Pagination.PlaceWithinLimits | yuyo/pagination.py:122-143 | placing a line keeps every page within the limits and never fails with a limit of at least 1 |
| Pagination.LongPlaceWithinLimits | yuyo/pagination.py:124-138 | a line at least the limit long yields pieces exactly the limit long, and a short last piece joins the page |
| Pagination.PiecesWithinLimits | yuyo/pagination.py:137-138 | pieces of exactly the limit's length are within the limits, one per text |
| Pagination.RunWithinLimits | yuyo/pagination.py:114-147 | from any state within the limits the loop never fails and keeps every yielded page within them |
| Pagination.PagesWithinLimits | yuyo/pagination.py:106-147 | with limits of at least 1, no error, every page has 1 to `line_limit` lines whose lengths sum to at most the char limit, every piece is exactly the char limit long |
| Pagination.FlushKeepsContent | yuyo/pagination.py:117-120 | yielding the page moves its lines to the output unchanged and leaves room for the line |
| Pagination.PlaceKeepsContent | yuyo/pagination.py:122-143 | placing a line adds exactly its expansion (whole, or its pieces) after what is yielded and pending |
| Pagination.LongLineKeepsContent | yuyo/pagination.py:124-138 | a long line meeting an empty page adds exactly its pieces, in order |
| Pagination.AddLineKeepsContent | yuyo/pagination.py:114-143 | one turn of the loop adds exactly the line's expansion |
| Pagination.RunEndKeepsContent | yuyo/pagination.py:146-147 | at the end the pending page is yielded when it is not empty, and nothing else |
| Pagination.RunKeepsContent | yuyo/pagination.py:114-147 | from any state, the loop yields what was pending followed by the expansion of every remaining line |
| Pagination.LinesKeptInOrder | yuyo/pagination.py:106-147 | with no empty line, the lines of the yielded pages are exactly the input in order, long lines replaced by their pieces |
| Pagination.EmptyLineCanTrailLongLine | yuyo/pagination.py:117-147 | a pending page of empty lines is yielded after a following line of exactly the limit, out of input order |
| Pagination.StepLine | yuyo/pagination.py:114-143 | one turn of the loop computes exactly the specified step, including its error for a limit below 1 |
| Pagination.SyncPaginateString | yuyo/pagination.py:150-212 | yields exactly the specified pages (within the limits and in order, by the lemmas) and the error that stops it |
| Pagination.AsyncPaginateString | yuyo/pagination.py:80-147 | yields exactly the specified pages of the iterator's remaining lines, and consumes them all unless a line fails |
| Pagination.PaginateString | yuyo/pagination.py:233-262 | an asynchronous source goes to the async paginator, anything else to the sync one; both give the specified pages |
| Pagination.AEnumerate | yuyo/pagination.py:265-281 | pairs every remaining value with its position from 0, in order, and drains the iterator |
| CachedRest.IndexOf | yuyo/cached_rest.py:60 | the position of the key's entry, the first with that key, or the length when the key is not stored |
| CachedRest.Lookup | yuyo/cached_rest.py:67-68 | finds a value exactly when the key is stored, and with distinct keys it is the key's value |
| CachedRest.Without | yuyo/cached_rest.py:63-64 | `del` of a missing key changes nothing; of a stored key removes exactly one entry |
| CachedRest.DropExpired | yuyo/cached_rest.py:92-98 | the sweep drops a prefix of entries each at least `expiry` old and stops at the first younger one |
| CachedRest.ToMap | yuyo/cached_rest.py:89-90 | the plain map has exactly the stored keys |
| CachedRest.ToMapValues | yuyo/cached_rest.py:89-90 | with distinct keys the plain map gives every stored key its stored value |
| CachedRest.WithoutShifts | yuyo/cached_rest.py:63-64 | removing a key keeps the entries before it in place and shifts those after it down by one |
| CachedRest.WithoutKeepsOrder | yuyo/cached_rest.py:63-64 | removing a key keeps the stamps in order and no later than the clock |
| CachedRest.WithoutKeepsDistinct | yuyo/cached_rest.py:63-64 | removing a key leaves distinct keys, without that key |
| CachedRest.WithoutKeepsOthers | yuyo/cached_rest.py:63-68 | removing a key leaves every other key's value as it was |
| CachedRest.GcLeavesFresh | yuyo/cached_rest.py:92-98 | with stamps in insertion order, every entry a sweep leaves is younger than the expiry |
| CachedRest.AppendKeeps | yuyo/cached_rest.py:84 | appending a new key stamped with the clock keeps the order, distinctness and clock bound |
| CachedRest.DropKeeps | yuyo/cached_rest.py:92-98 | a sweep keeps the order, distinctness and clock bound of what it leaves, and adds no key |
| CachedRest.SetKeepsOrder | yuyo/cached_rest.py:76-84 | setting at a clock no earlier than any stamp keeps stamps in insertion order and keys distinct |
| CachedRest.SecondSweepKeeps | yuyo/cached_rest.py:81-82 | after a sweep, the sweep that follows a removal drops nothing |
| CachedRest.SetEntriesShape | yuyo/cached_rest.py:76-84 | with ordered stamps, setting is one sweep, the key's removal and the key appended at the end |
| CachedRest.SetPutsKeyLast | yuyo/cached_rest.py:76-84 | after setting, the key is last, stamped with the clock, and reads back the new value |
| CachedRest.SetEntries | yuyo/cached_rest.py:76-84 | the key ends up last with the new value and the clock's stamp; every other entry was already stored, and the store grows by at most one |
| CachedRest.TimeLimitedMapping.constructor | yuyo/cached_rest.py:59-61 | an empty store with the given expiry |
| CachedRest.TimeLimitedMapping.Len | yuyo/cached_rest.py:73-74 | the number of stored entries |
| CachedRest.TimeLimitedMapping.Get | yuyo/cached_rest.py:67-68 | KeyError exactly when the key is not stored; otherwise its value, stamp not refreshed |
| CachedRest.TimeLimitedMapping.Gc | yuyo/cached_rest.py:92-98 | the store becomes its sweep at the clock reading |
| CachedRest.TimeLimitedMapping.Delete | yuyo/cached_rest.py:63-65 | KeyError with nothing changed for a missing key; otherwise the entry is removed and a sweep follows |
| CachedRest.TimeLimitedMapping.Set | yuyo/cached_rest.py:76-84 | the store becomes the specified set (sweep, removal, append stamped with the clock), keeping its invariant |
| CachedRest.TimeLimitedMapping.Clear | yuyo/cached_rest.py:86-87 | the store is emptied |
| CachedRest.TimeLimitedMapping.Copy | yuyo/cached_rest.py:89-90 | a plain map of exactly the stored keys, each to its stored value |
| CachedRest.CachedRest.constructor | yuyo/cached_rest.py:128-160 | a fresh empty store per kind of object with its own expiry, and no own user |
| CachedRest.CachedRest.Clear | yuyo/cached_rest.py:162-171 | every store emptied and the own user forgotten |
| CachedRest.CachedRest.Gc | yuyo/cached_rest.py:173-185 | every store swept at the clock reading, and the own user forgotten once old |
| CachedRest.CachedRest.GcMe | yuyo/cached_rest.py:265-266 | the own user is forgotten exactly when it is at least `me_expire` old (used by the sweep at lines 179-180) |
| CachedRest.CachedRest.MeStoreIsOld | yuyo/cached_rest.py:265-266 | the own user is old exactly when `me_expire` has passed since it was stored |
| ChunkTracker.NewShardInfo | yuyo/chunk_tracker.py:273-286 | a new shard record has received nothing, nothing incomplete, every guild of the identify pending, and the clock as its last news |
| ChunkTracker.MarkIncomplete | yuyo/chunk_tracker.py:288-296 | a pending guild moves from the pending set to the end of the incomplete list; an id not pending changes nothing |
| ChunkTracker.MarkIncompleteIdempotent | yuyo/chunk_tracker.py:288-296 | marking a guild twice is marking it once |
| ChunkTracker.CheckNonce | yuyo/chunk_tracker.py:298-300 | a guild without a known nonce accepts any nonce; one with a known nonce accepts only that nonce |
| ChunkTracker.Missed | yuyo/chunk_tracker.py:513 | the missed guilds are pending guilds that are not in the incomplete list |
| ChunkTracker.Range | yuyo/chunk_tracker.py:605 | `set(range(n))` holds exactly the indexes 0 to n-1 |
| ChunkTracker.RangeSize | yuyo/chunk_tracker.py:605 | `range(n)` holds n indexes |
| ChunkTracker.FirstChunk | yuyo/chunk_tracker.py:605-616 | a first chunk leaves every other index of the count missing, with the chunk's not-found ids; an index outside the count is a KeyError |
| ChunkTracker.Receive | yuyo/chunk_tracker.py:590-594 | a further chunk removes its index from the missing set and adds its not-found ids; an index not missing is a KeyError |
| ChunkTracker.ReceiveAllDistinct | yuyo/chunk_tracker.py:583-603 | distinct missing chunks are all accepted, in any order, and leave exactly the rest missing |
| ChunkTracker.ReceiveAll | yuyo/chunk_tracker.py:583-603 | a run of chunks fails only with a KeyError; when it succeeds every received index was missing and no longer is, nothing new is missing, and the shard, guild and not-found ids are kept |
| ChunkTracker.ReceiveRepeatFails | yuyo/chunk_tracker.py:591 | a chunk index received twice makes the run fail with a KeyError |
| ChunkTracker.ReceiveGone | yuyo/chunk_tracker.py:591 | a chunk index that is no longer missing makes the run fail when it arrives |
| ChunkTracker.NoFinishedChunkingOutsideStartup | yuyo/chunk_tracker.py:516-518 | outside startup no shard finishing emits the global finished event |
| ChunkTracker.FinishedChunkingOnce | yuyo/chunk_tracker.py:508-518 | the global finished event is emitted iff a shard finishes while no shard is tracked during startup, and then once, right after that shard's event |
| ChunkTracker.ShardFinishedEvents | yuyo/chunk_tracker.py:508-518 | one shard-finished event per shard, the first shard's first, plus the global finished event exactly when no shard is tracked during startup |
| ChunkTracker.Touch | yuyo/chunk_tracker.py:578-581 | a chunk never adds or drops a tracked shard |
| ChunkTracker.TouchSpec | yuyo/chunk_tracker.py:578-581 | only the chunk's shard changes, and only when it accepts the nonce: it is marked as having received something at the clock |
| ChunkTracker.FinishTracking | yuyo/chunk_tracker.py:495-506 | finishing a request never adds a shard; a shard is reported exactly when it is dropped; an untracked shard or a guild not pending changes nothing |
| ChunkTracker.FinishTrackingSpec | yuyo/chunk_tracker.py:495-506 | only the request's shard changes, losing at most its guild; an accepted nonce leaves the guild no longer pending; a refused one changes nothing; the reported shard has nothing pending |
| ChunkTracker.FirstTimedOut | yuyo/chunk_tracker.py:465-467 | the position of the first request in iteration order that has waited the timeout: every earlier one is still young, and none exists when it is the end |
| ChunkTracker.Expired | yuyo/chunk_tracker.py:465-472 | the requests the sweep times out, in the order it meets them, each at least 5 seconds without a chunk |
| ChunkTracker.MarkAll | yuyo/chunk_tracker.py:469-470 | marking timed-out requests' guilds never adds or drops a shard |
| ChunkTracker.MarkAllRemoves | yuyo/chunk_tracker.py:469-470 | after the marks no timed-out request's guild is pending on its shard, and no shard gains a pending guild |
| ChunkTracker.Collected | yuyo/chunk_tracker.py:475-486 | the shards the sweep drops and reports: quiet for 5 seconds or with nothing pending, and having received something |
| ChunkTracker.Prune | yuyo/chunk_tracker.py:465-473 | the requests the sweep keeps: every request not yet seen or not timed out, unchanged, and nothing else |
| ChunkTracker.FinishedEvents | yuyo/chunk_tracker.py:493-518 | finishing a request emits its request-finished event first |
| ChunkTracker.ChunkStep | yuyo/chunk_tracker.py:583-616 | a chunk of a known nonce fails iff its index is not missing; of an unknown nonce iff its index is outside the count; a success no longer misses the index |
| ChunkTracker.QuietSweep | yuyo/chunk_tracker.py:461-473 | a sweep that meets no timed-out request changes no request |
| ChunkTracker.RequestEvents | yuyo/chunk_tracker.py:488 | one request-finished event per timed-out request, in order |
| ChunkTracker.ExpireRequests | yuyo/chunk_tracker.py:465-473 | the request loop over a snapshot yields the timed-out requests in order, keeps the others, and marks the timed-out guilds incomplete |
| ChunkTracker.CollectQuiet | yuyo/chunk_tracker.py:475-486 | the shard loop over a copy drops exactly the shards not live and reports those that had received something, in order |
| ChunkTracker.Tracker.constructor | yuyo/chunk_tracker.py:331-355 | auto-chunking, presences and startup off, no request or shard tracked, no sweep, nothing dispatched or sent |
| ChunkTracker.Tracker.SetAutoChunkMembers | yuyo/chunk_tracker.py:413-446 | turning it on sets both flags; turning it off clears only presence chunking |
| ChunkTracker.Tracker.DispatchShardFinished | yuyo/chunk_tracker.py:508-518 | emits the shard's event with its incomplete and missed guilds, then the global event and the end of startup when no shard is tracked |
| ChunkTracker.Tracker.DispatchFinished | yuyo/chunk_tracker.py:493-506 | emits the request-finished event; with an accepted nonce the guild stops being pending, and a shard left with nothing pending is dropped and finished |
| ChunkTracker.Tracker.OnMembersChunk | yuyo/chunk_tracker.py:564-622 | an empty nonce is ignored; a KeyError for an index not missing; otherwise the request is stored while chunks are missing (with a sweep running) and finished once none is |
| ChunkTracker.Tracker.Settle | yuyo/chunk_tracker.py:596-622 | a request still missing chunks is stored and the sweep ensured; a complete one is dropped and finished |
| ChunkTracker.Tracker.OnShardReady | yuyo/chunk_tracker.py:624-632 | the shard is tracked afresh with every guild of the identify pending, with a nonce per guild only when auto-chunking is on |
| ChunkTracker.Tracker.OnGuildCreate | yuyo/chunk_tracker.py:520-555 | a guild that is not large stops being pending without a request; a large one with auto-chunking and the members intent gets a member request carrying the shard's known non-empty nonce for the guild, else the new one, and that nonce is recorded as known (an untracked shard is left as it is); the shard's whole new record is stated on both paths |
| ChunkTracker.Tracker.OnStarting | yuyo/chunk_tracker.py:634-635 | startup is marked and nothing else changes |
| ChunkTracker.Tracker.OnStopping | yuyo/chunk_tracker.py:637-643 | every request and shard is forgotten, startup ended and the sweep stopped |
| ChunkTracker.Tracker.ExpireRequest | yuyo/chunk_tracker.py:466-473 | a timed-out request is dropped and its guild marked incomplete on its shard; a fresh one changes nothing |
| ChunkTracker.Tracker.SweepRequests | yuyo/chunk_tracker.py:465-473 | corrected: every timed-out request is dropped, in order, its guild marked incomplete, and the others kept |
| ChunkTracker.Tracker.SweepShards | yuyo/chunk_tracker.py:475-486 | every shard quiet for 5 seconds or with nothing pending is dropped; those that had received something are returned |
| ChunkTracker.Tracker.DispatchRequestsFinished | yuyo/chunk_tracker.py:488 | each timed-out request only emits its request-finished event, in order |
| ChunkTracker.Tracker.DispatchShardsFinished | yuyo/chunk_tracker.py:489 | each collected shard emits its event in turn, the first one ending startup when no shard is tracked |
| ChunkTracker.Tracker.LoopStep | yuyo/chunk_tracker.py:457-491 | corrected round: afterwards no stored request has timed out and every tracked shard is live; the events are the timed-out requests' then the collected shards'; the task runs on iff anything is tracked |
| ChunkTracker.Tracker.SweepRequestsAsWritten | yuyo/chunk_tracker.py:465-473 | as written the sweep fails with "dictionary changed size during iteration" iff any request has timed out; before failing it drops exactly the first timed-out request in iteration order and marks that request's guild incomplete on its shard (nothing else in `tracked` changes); it stops the task and dispatches nothing |
| ChunkTracker.Tracker.LoopStepAsWritten | yuyo/chunk_tracker.py:457-491 | as written a round ends the task with a RuntimeError iff a request has timed out, reporting nothing; otherwise it is the corrected round |
| ChunkTracker.Tracker.OnPayloadEvent | yuyo/chunk_tracker.py:557-622 | each payload goes to its handler; only a members chunk can fail, with a KeyError; other payloads change nothing |
| ListStatus.InsertIndex | yuyo/list_status.py:882-890 | the index is before the first element the check accepts, or the end; no element before it is accepted |
| ListStatus.InsertIndexUnique | yuyo/list_status.py:882-890 | the insertion index is the only index with those two properties |
| ListStatus.QueueInsert | yuyo/list_status.py:882-892 | the value is inserted at the insertion index, the other elements around it unchanged |
| ListStatus.InsertKeepsOthers | yuyo/list_status.py:892 | an insertion adds exactly the value and keeps every other element in its order |
| ListStatus.InsertSorted | yuyo/list_status.py:735 | inserting by "repeat greater than the new one" keeps the services sorted by interval, the new one after every service with an interval no longer and before every longer one |
| ListStatus.FindService | yuyo/list_status.py:757-760 | finds the first descriptor of the callback, or none when no descriptor has it |
| ListStatus.RemoveSorted | yuyo/list_status.py:759 | removing one descriptor keeps the services sorted |
| ListStatus.InsertKeepsValid | yuyo/list_status.py:733-735 | inserting a service of at least a second keeps the services sorted and none under a second |
| ListStatus.ServiceManager.constructor | yuyo/list_status.py:510-519 | no services, not running, counter and session not open |
| ListStatus.ServiceManager.AddService | yuyo/list_status.py:724-737 | RuntimeError while running; ValueError for an interval under a second; otherwise the service is inserted after every service repeating no faster, the list kept sorted |
| ListStatus.ServiceManager.RemoveService | yuyo/list_status.py:754-763 | RuntimeError while running; otherwise the first descriptor of the callback is removed, or ValueError when there is none |
| ListStatus.ServiceManager.Open | yuyo/list_status.py:807-823 | RuntimeError with nothing changed without services; otherwise the session is open, the task runs, and the counter is opened when the task was not running |
| ListStatus.ServiceManager.Close | yuyo/list_status.py:794-805 | only a running manager closes its counter and drops its session; afterwards it is not running |
| ListStatus.Configure | yuyo/list_status.py:519-544 | a given strategy is used as is; otherwise the cache strategy, then the event strategy, else ValueError; event management follows the flag or the presence of an event manager; a shard-bound strategy implies shards |
| ListStatus.StandardStrategiesHaveShards | yuyo/list_status.py:543-544 | the shard check never refuses a standard strategy, which spawns only with shards (the strategies' `is_shard_bound` at lines 200-210 and 346-353) |
| ListStatus.ShardOf | yuyo/list_status.py:360 | a guild's shard is below the shard count |
| ListStatus.CountOn | yuyo/list_status.py:356-367 | a shard counts at most as many guilds as there are |
| ListStatus.ShardsOf | yuyo/list_status.py:356-367 | exactly the shards with at least one guild |
| ListStatus.CountStep | yuyo/list_status.py:359-365 | counting one guild more adds its shard and raises only that shard's count by one |
| ListStatus.CountsStart | yuyo/list_status.py:357 | every known shard starting at zero is right for no guild |
| ListStatus.CountsEnd | yuyo/list_status.py:367 | counts right for every guild have the known shards and every guild's shard, each with its guild count |
| ListStatus.CountsStep | yuyo/list_status.py:359-365 | adding one to the guild's shard, creating it when unknown, keeps the counts right |
| ListStatus.ShardGuildIds | yuyo/list_status.py:356-367 | the counts cover the known shards and every guild's shard, each the number of guilds on it |
| ListStatus.CountOnPositive | yuyo/list_status.py:359-365 | every guild's shard counts at least one |
| ListStatus.GuildSet.constructor | yuyo/list_status.py:266-285 | no guild known and not subscribed |
| ListStatus.GuildSet.OnShardReady | yuyo/list_status.py:290-292 | a shard's ready event adds its unavailable guilds |
| ListStatus.GuildSet.OnStarting | yuyo/list_status.py:294-295 | startup forgets every guild |
| ListStatus.GuildSet.OnGuildAvailable | yuyo/list_status.py:297-298 | an available guild is added |
| ListStatus.GuildSet.OnGuildLeave | yuyo/list_status.py:300-304 | a guild left is dropped; an unknown one is ignored |
| ListStatus.GuildSet.OnGuildUpdate | yuyo/list_status.py:306-307 | an updated guild is added |
| ListStatus.GuildSet.Close | yuyo/list_status.py:320-330 | a started strategy unsubscribes and forgets its guilds; a closed one is left as it is |
| ListStatus.GuildSet.Open | yuyo/list_status.py:332-341 | subscribes once; the guilds are kept |
| ListStatus.TopGGShards | yuyo/list_status.py:964-966 | one entry per shard: the local count, else the count Top.gg holds, else 0 |
| ListStatus.TopGGPayload | yuyo/list_status.py:945-970 | a global count as `server_count`; per-shard counts as a shard list with one entry per shard (built by `TopGGShards` from the counts, last occurrence winning), RuntimeError exactly when the shard count is unknown; the shard count whenever known |
| ListStatus.ItemsMap | yuyo/list_status.py:966-967 | the dictionary built from the counts has exactly the shards that occur in them as keys |
| ListStatus.ItemsMapLastWins | yuyo/list_status.py:966-967 | each shard maps to the count of its last occurrence, as `dict.update` leaves it |
| ListStatus.BotsGGPayload | yuyo/list_status.py:992-1008 | a global count as `guildCount`; per-shard counts as one entry per counted shard, in the order of the counts given; the shard count whenever known |
| Links.StripPadded | yuyo/links.py:154 | `link.strip()` removes exactly the whitespace around a link that starts and ends with a visible character (likewise lines 287, 434 and 552) |
| Links.Strip | yuyo/links.py:154 | `str.strip()` never lengthens the text and leaves it empty or starting and ending with a visible character |
| Links.Run | yuyo/links.py:76 | a greedy run over `\w`, `\d` or the token class reads the longest prefix in the class, stopping at the first character outside it (likewise the patterns at lines 207, 356 and 455) |
| Links.RunExact | yuyo/links.py:76 | a run ended by a character outside its class is read whole (likewise lines 207, 356 and 455) |
| Links.Exec | yuyo/links.py:76 | matching a pattern at the start of a text consumes at most the text (likewise lines 207, 356 and 455) |
| Links.ExecFits | yuyo/links.py:76 | a match captures one group per capturing piece, each of the shape the piece demands (likewise lines 207, 356 and 455) |
| Links.CapturesOf | yuyo/links.py:76 | the capturing pieces of each pattern: the code; guild, channel and message; the code; webhook id and token (lines 76, 207, 356 and 455) |
| Links.MatchOf | yuyo/links.py:76 | `pattern.match`: a match is a prefix of the text starting with "https://" whose groups fit the pattern (likewise lines 207, 356 and 455) |
| Links.MatchStart | yuyo/links.py:76 | the match at the start of a text is a prefix of it with the pattern's groups (likewise lines 207, 356 and 455) |
| Links.FullMatch | yuyo/links.py:154 | `fullmatch` succeeds exactly when the match at the start takes the whole text; the match is then the whole text, of the pattern's shape, starting with "https://" (likewise lines 287, 434 and 552) |
| Links.FromMatchAsWritten | yuyo/links.py:160-161 | as written invite and template links keep the whole matched URL as their code (`match.group()`); message and webhook links read their groups (message and webhook links at lines 293-301 and 558-560 use their groups; templates at 440-441 keep the whole URL too) |
| Links.FromMatch | yuyo/links.py:293-301 | corrected: every link is built from its captured groups, and a guild of "@me" is a DM link (the same for the invite, template and webhook links at lines 160-161, 440-441 and 558-560) |
| Links.Build | yuyo/links.py:160-161 | the link `_from_match` builds, as written or corrected, is always of the pattern's kind (likewise lines 293, 440 and 558) |
| Links.MakeInviteLink | yuyo/links.py:59-73 | the invite base "https://discord.gg/" followed by exactly the code |
| Links.MakeMessageLink | yuyo/links.py:178-204 | a link under "https://discord.com/channels/" ending in "/" and the message id in decimal |
| Links.MakeTemplateLink | yuyo/links.py:339-353 | the template base "https://discord.new/" followed by exactly the code |
| Links.MakeWebhookLink | yuyo/links.py:458-473 | a link under "https://discord.com/api/webhooks/" ending in "/" and the token |
| Links.ToString | yuyo/links.py:303-304 | `str()` of a message, template or webhook link is a link starting with "https://" (likewise lines 443 and 562) |
| Links.FromLinkAsWritten | yuyo/links.py:134-158 | as written `from_link` is ValueError exactly when the stripped link does not match the whole pattern |
| Links.FromLink | yuyo/links.py:134-158 | ValueError exactly when the stripped link does not match the whole pattern; otherwise a link of that kind (likewise lines 267-291, 414-438 and 532-556) |
| Links.MatchesIn | yuyo/links.py:130 | the match the pattern finds at each position of the text (likewise lines 263, 410 and 528) |
| Links.FindFrom | yuyo/links.py:115-132 | the scan yields only links of the pattern's kind, at most one per position left, each built as written or corrected (likewise lines 248-265, 395-412 and 513-530) |
| Links.FindIter | yuyo/links.py:115-132 | `find_iter` yields only links of the pattern's kind, at most one per character of the text, as written or corrected (likewise lines 248-265, 395-412 and 513-530) |
| Links.Find | yuyo/links.py:94-113 | `find` gives nothing exactly when `find_iter` yields nothing, as written or corrected (likewise lines 227-246, 374-393 and 492-511) |
| Links.ExecInvite | yuyo/links.py:59-76 | an invite link built from a `\w` code is matched whole, the code its one group |
| Links.ExecTemplate | yuyo/links.py:339-356 | a template link built from a `\w` code is matched whole, the code its one group |
| Links.ExecMessage | yuyo/links.py:178-207 | a message link built from ids is matched whole, its groups the guild part ("@me" for a DM) and the two ids |
| Links.ExecWebhook | yuyo/links.py:455-475 | a webhook link built from an id and a token is matched whole, its groups the id and the token |
| Links.GuildPart | yuyo/links.py:204 | a message link's guild part is "@me" or a non-empty run of digits |
| Links.FromLinkPadded | yuyo/links.py:134-161 | a link the pattern matches whole, with whitespace around it, reads as the link built from its groups, as written and corrected alike |
| Links.InviteRoundTrip | yuyo/links.py:134-161 | corrected: an invite link built from a code parses back to that code, whatever whitespace surrounds it (the link built by `make_invite_link`, line 59) |
| Links.TemplateRoundTrip | yuyo/links.py:414-444 | corrected: a template link built from a code parses back to that code, and `str()` of it writes the link again (the link built by `make_template_link`, line 339) |
| Links.MessageRoundTrip | yuyo/links.py:267-304 | `str()` of a message link parses back to the same link: "@me" reads as a DM and every id as itself (the link built by `make_message_link`, line 178) |
| Links.WebhookRoundTrip | yuyo/links.py:532-563 | a webhook link built from an id and a token parses back to them, and `str()` writes it again (the link built by `make_webhook_link`, line 458) |
| Links.InviteCodeAsWritten | yuyo/links.py:160-161 | as written, an invite link read from a built link keeps the whole link as its code, not the code it was built from |
| Links.TemplateStrAsWritten | yuyo/links.py:440-444 | as written, a template link read from a built link keeps the whole link as its code, so its `str()` no longer gives the link back |
| Links.FromLinkNeedsHttps | yuyo/links.py:154-158 | a link that does not start with "https://" after stripping is a ValueError |
| Links.FindFromNone | yuyo/links.py:130-131 | as written and corrected, the scan finds nothing exactly when no position from there holds a match |
| Links.FindNone | yuyo/links.py:94-113 | as written and corrected, `find` gives nothing exactly when no position of the text starts a link |
| Links.FindFromLeftmost | yuyo/links.py:130-131 | as written and corrected, the first link the scan yields is built from the match at the leftmost position holding one |
| Links.FindLeftmost | yuyo/links.py:94-113 | as written and corrected, `find` gives the link built from the match at the leftmost position that starts one |
| Links.FindIterWhole | yuyo/links.py:115-132 | a text that is one whole match yields exactly the link built from it: as written, an invite or template link keeps the whole text as its code; corrected, the captured code |
| Links.FindMessage | yuyo/links.py:248-265 | `find_iter` over the `str()` of a message link yields exactly that link, both as written and corrected (message links have no code to confuse) |
| Links.FindInvite | yuyo/links.py:115-132 | over a built invite link, `find_iter` as written yields an invite whose code is the whole link; corrected, it yields the code |
| Localise.MaybeLocalised.Values | yuyo/_internal/localise.py:70-72 | the default value first, then every localised value in order |
| Localise.LookupRemoveKey | yuyo/_internal/localise.py:65 | leaving out one key keeps every other key's lookup |
| Localise.Parse | yuyo/_internal/localise.py:60-68 | a plain value has no localisations; a table's value is its truthy "default" entry, else its first value (StopIteration when empty), and its localisations are every other entry |
| Localise.FirstFailing | yuyo/_internal/localise.py:75-77 | the first value failing the check, with every earlier one passing; none when all pass |
| Localise.MismatchMessage | yuyo/_internal/localise.py:77-79 | the message names the field and the value's repr, and ends with the pattern in backquotes |
| Localise.AssertMatches | yuyo/_internal/localise.py:74-81 | succeeds, returning the field, exactly when every value passes; otherwise a ValueError naming the field, the first failing value and the pattern |
| Localise.Localise | yuyo/_internal/localise.py:83-90 | the locale's own value when it is truthy, else the default value; always one of the field's values |
| Localise.LocaliseParsed | yuyo/_internal/localise.py:60-90 | a parsed table answers a locale with its own truthy entry, and with the default value otherwise |
| SlashNames.ParseAsWritten | yuyo/__main__.py:113-121 | as written a plain string has no localisations; a table's value is its truthy "default" entry, else its first KEY (StopIteration when empty); its localisations are every other entry |
| SlashNames.ParseFirstKey | yuyo/__main__.py:119 | a table without "default": the as-written parse names the command after the locale ("en-US"), the corrected parse after its value ("ping") |
| SlashNames.Parse | yuyo/__main__.py:113-121 | corrected: a table's value is its truthy "default" entry, else its first value; StopIteration exactly when the table is empty |
| SlashNames.MaxLength | yuyo/__main__.py:142-144 | the last of the sorted lengths: no value is longer and one has that length |
| SlashNames.MinLength | yuyo/__main__.py:142-143 | the first of the sorted lengths: no value is shorter and one has that length |
| SlashNames.Capitalize | yuyo/__main__.py:145-153 | `str.capitalize` on ASCII text: same length, the first letter upper case and the rest lower case |
| SlashNames.AssertLength | yuyo/__main__.py:141-156 | succeeds, returning the field, exactly when every value's length lies in the bounds; an over-long value is reported before an over-short one |
| SlashNames.AssertMatches | yuyo/__main__.py:127-139 | succeeds, returning the field, exactly when every value matches (and is lower case under `lower_only`); the first failing value is reported as a mismatch or as not lower case |
| SlashNames.CastSnowflake | yuyo/__main__.py:159-163 | a snowflake exactly when the value lies in 0 to 2^63-1, unchanged; otherwise the ValueError naming it |
| SlashNames.CheckNameCharAsWritten | yuyo/__main__.py:369-382 | as written a character passes iff it is '-' or '_', a letter or number, or its code point is at most U+0E00 (the reversed chained comparisons) |
| SlashNames.CheckNameChar | yuyo/__main__.py:369-382 | corrected: '-', '_', a letter or number, or a character of the Devanagari (U+0900-U+097F) or Thai (U+0E00-U+0E7F) blocks |
| SlashNames.NameCharAcceptsSpace | yuyo/__main__.py:378-381 | a space passes the as-written check and is refused by the corrected one |
| SlashNames.ValidateSlashName | yuyo/__main__.py:385-386 | a name is valid exactly when every character passes |
| SlashNames.ValidateConcat | yuyo/__main__.py:385-386 | a name is valid exactly when both its halves are |
| SlashNames.SlashCommandName | yuyo/__main__.py:404-408 | a name that gets through the chain has every value 1 to 32 characters long, each character passing the as-written or the corrected character check as chosen |
| SlashNames.SlashCommandNameAccepts | yuyo/__main__.py:404-408 | every plain name of 1 to 32 characters, each passing the chosen character check, gets through the chain unchanged |
| SlashNames.SpacedNameAsWritten | yuyo/__main__.py:369-386 | as written the name "hello world" gets through the name chain; the corrected check refuses it |
| Asgi.HexValue | yuyo/asgi.py:449 | a hexadecimal digit of either case has a value below 16 |
| Asgi.FromHex | yuyo/asgi.py:449 | `bytes.fromhex` yields only byte values (below 256) or fails |
| Asgi.ToHex | yuyo/asgi.py:449 | hex encoding writes two digits per byte |
| Asgi.FromHexToHex | yuyo/asgi.py:449 | decoding the hexadecimal text of any byte string gives that byte string back |
| Asgi.FromHexOddDigit | yuyo/asgi.py:449 | a lone digit is not a byte, so `fromhex` fails on it |
| Asgi.DecodeSignature | yuyo/asgi.py:449 | a non-ASCII byte in the signature header fails the ASCII decode; an ASCII value is decoded exactly as `fromhex` decodes it |
| Asgi.Scan | yuyo/asgi.py:439-464 | an empty header list leaves what was found as it was, and a header once found is never lost by the rest of the scan |
| Asgi.FindHeaders | yuyo/asgi.py:439-464 | the header loop returns what the scan specification gives |
| Asgi.ScanIgnoresCase | yuyo/asgi.py:446-447 | header names match whatever their case |
| Asgi.ScanSound | yuyo/asgi.py:446-462 | every value found comes from a header of that name, and a signature is the decoding of its header's value |
| Asgi.ScanComplete | yuyo/asgi.py:446-462 | a header missing from the result is missing from the request, because the scan only stops early once all three are present |
| Asgi.ScanFails | yuyo/asgi.py:446-451 | the scan fails only on a signature header that does not decode, and succeeds whenever every signature header decodes |
| Asgi.MediaType | yuyo/asgi.py:340 | the media type is the prefix of the value before the first `;` |
| Asgi.JsonContentTypeAccepts | yuyo/asgi.py:340 | application/json in any casing is accepted, alone or followed by parameters |
| Asgi.MediaTypeOf | yuyo/asgi.py:340 | a media type followed by parameters splits back to itself |
| Asgi.JsonContentTypeRefusesLonger | yuyo/asgi.py:340 | a missing or empty content type and one that only starts with application/json are refused |
| Asgi.ReceiveAt | yuyo/asgi.py:351 | once the client's messages are used up, `receive` gives a disconnect with no body and no `more_body` |
| Asgi.ReadBody | yuyo/asgi.py:348-360 | at least one message and at most one past the client's messages are read; a body that is read is within `max_body_size` |
| Asgi.ReadBodyFrom | yuyo/asgi.py:348-360 | from the k-th message on, more than k messages are taken, and a body that is read extends what was read before and is within the limit |
| Asgi.ReadRequestBody | yuyo/asgi.py:348-360 | the body loop returns what the body-reading specification gives |
| Asgi.ReadBodyFromMeaning | yuyo/asgi.py:348-360 | the loop takes messages until one without `more_body`, joins their bodies in order, and stops as soon as the body exceeds the limit |
| Asgi.ReadBodyMeaning | yuyo/asgi.py:348-360 | at least one message is read; a read body is the joined bodies within the limit and ends on a message without `more_body`; a refused one went over the limit |
| Asgi.ReadBodyOneMessage | yuyo/asgi.py:348-360 | a body sent whole in one message is read as it is |
| Asgi.ErrorResponse | yuyo/asgi.py:66-77 | an error answer is a well-framed response with the given status |
| Asgi.ContentTypeOf | yuyo/asgi.py:429-436 | there is a content type exactly when the response has a non-empty one |
| Asgi.ContentTypeOfMediaType | yuyo/asgi.py:429-436 | the header written keeps the response's content type as its media type, so a JSON response passes the adapter's own check |
| Asgi.CharsetMediaType | yuyo/asgi.py:432-433 | a charset parameter leaves the media type unchanged |
| Asgi.PayloadContentLength | yuyo/asgi.py:397-403 | the `payload_json` part ends with a Content-Length that reads back as the payload's length, a blank line, then the payload |
| Asgi.PayloadPart | yuyo/asgi.py:397-404 | the `payload_json` part is sent only when the payload is non-empty |
| Asgi.ChunkMessages | yuyo/asgi.py:423-424 | each chunk is sent, in order, as one body message announcing more |
| Asgi.FilePartsSnoc | yuyo/asgi.py:406-424 | one more attachment adds its head message and then its later chunks |
| Asgi.Multipart | yuyo/asgi.py:394-426 | the multipart body ends with the close delimiter of its own boundary |
| Asgi.SendMultipart | yuyo/asgi.py:394-426 | the messages sent are the multipart body the specification gives |
| Asgi.SendFiles | yuyo/asgi.py:406-424 | the attachment loop sends every file's parts in order |
| Asgi.SendFile | yuyo/asgi.py:407-424 | one attachment sends its header with its first chunk, then its other chunks |
| Asgi.SendChunks | yuyo/asgi.py:423-424 | the `async for` sends every later chunk in order |
| Asgi.MultipartFraming | yuyo/asgi.py:394-426 | every multipart message but the last announces more, and the last is the close delimiter of the same boundary |
| Asgi.FilePartsMoreBody | yuyo/asgi.py:406-424 | every file-part message announces more |
| Asgi.FilePartsCount | yuyo/asgi.py:406-424 | the files take one message per chunk, and one for a file without chunks |
| Asgi.Reply | yuyo/asgi.py:372-392 | a reply starts with a start message carrying the response's status and ends with a body message announcing no more |
| Asgi.HandleRequest | yuyo/asgi.py:311-392 | anything but a POST to "/" is a 404 with nothing read; the server's exception is re-raised only after a 500 answer and a body read; every answer opens with a start message |
| Asgi.Answer | yuyo/asgi.py:348-392 | at least one message is read; an over-long body is answered 413 without reaching the server; a server exception is answered 500 and re-raised |
| Asgi.HandleRequestWellFramed | yuyo/asgi.py:311-392 | every request is answered with one start message and body messages of which only the last says there is no more |
| Asgi.AnswerWellFramed | yuyo/asgi.py:348-392 | once the headers pass, whatever happens the answer is well framed |
| Asgi.ReplyWellFramed | yuyo/asgi.py:372-392 | a response from the server is sent well framed, multipart or not |
| Asgi.ReplyBoundary | yuyo/asgi.py:377-426 | a reply with files names its boundary in the content-type header and closes its body with that same boundary |
| Asgi.HeadersCheckedBeforeBody | yuyo/asgi.py:328-346 | a request refused on its method, path or headers reads no message, and a request that passes those checks reads at least one |
| Asgi.TooLargeRefused | yuyo/asgi.py:356-358 | a body over `max_body_size` is refused with 413 and never reaches the server |
| Asgi.ServerAnswers | yuyo/asgi.py:362-392 | a request that passes every check reaches the server with the joined body, the signature and the timestamp; a server error gives 500 and is raised again, otherwise the server's response is sent |
| Asgi.RemoveFirst | yuyo/asgi.py:262 | `list.remove` leaves a list without the element alone and otherwise takes out one element (and `remove_shutdown_callback` at line 217) |
| Asgi.RemoveFirstMultiset | yuyo/asgi.py:262 | removing takes away exactly one occurrence and keeps every other element (and line 217) |
| Asgi.RemoveAppended | yuyo/asgi.py:175-218 | removing a callback that was only just added undoes the add |
| Asgi.LifespanOutcome | yuyo/asgi.py:288-306 | every callback of the phase runs, and the reply carries a traceback exactly when one of them failed |
| Asgi.AsgiAdapter.constructor | yuyo/asgi.py:89-124 | a new adapter keeps the body limit and has no callbacks |
| Asgi.AsgiAdapter.AddStartupCallback | yuyo/asgi.py:220-240 | the callback is appended, even when already there; the shutdown list is unchanged |
| Asgi.AsgiAdapter.RemoveStartupCallback | yuyo/asgi.py:242-263 | the first occurrence is removed, and a callback not registered raises `ValueError` |
| Asgi.AsgiAdapter.AddShutdownCallback | yuyo/asgi.py:175-195 | the callback is appended, even when already there; the startup list is unchanged |
| Asgi.AsgiAdapter.RemoveShutdownCallback | yuyo/asgi.py:197-218 | the first occurrence is removed, and a callback not registered raises `ValueError` |
| Asgi.AsgiAdapter.ProcessLifespanEvent | yuyo/asgi.py:265-309 | startup runs the startup callbacks, shutdown the shutdown callbacks, and any other event raises `RuntimeError` naming it |
| Asgi.AsgiAdapter.Call | yuyo/asgi.py:142-173 | an http scope is a request, a lifespan scope a lifespan event, and any other scope raises `NotImplementedError` |
| Asgi.AsgiAdapter.ProcessRequest | yuyo/asgi.py:311-392 | what a request sends is what the request specification gives |
| Asgi.Wrapped | yuyo/asgi.py:885-889 | the adapter holds one wrapper per registered bot callback, in order |
| Asgi.RemoveWrapped | yuyo/asgi.py:906-913 | removing a wrapper from the adapter matches removing the callback from the bot's keys |
| Asgi.RemoveDistinct | yuyo/asgi.py:906 | removing from a list of distinct keys keeps it distinct and leaves the key out |
| Asgi.AsgiBot.constructor | yuyo/asgi.py:526-657 | a new bot is not alive, has no callbacks, and when managed its adapter holds its own start and close hooks |
| Asgi.AsgiBot.StartHook | yuyo/asgi.py:757-760 | `_start` makes the bot alive with a join event |
| Asgi.AsgiBot.CloseHook | yuyo/asgi.py:785-790 | `_close` fails its assertion when there is no join event, and otherwise leaves the bot not alive |
| Asgi.AsgiBot.Start | yuyo/asgi.py:762-783 | refused when managed by lifespan events or already running; otherwise the bot becomes alive |
| Asgi.AsgiBot.Run | yuyo/asgi.py:726-755 | the same refusals as `start`, then the bot becomes alive |
| Asgi.AsgiBot.Close | yuyo/asgi.py:792-813 | refused when managed or not running; otherwise the bot is no longer alive |
| Asgi.AsgiBot.Join | yuyo/asgi.py:815-819 | refused with `RuntimeError` exactly when the bot has no join event |
| Asgi.AsgiBot.AddStartupCallback | yuyo/asgi.py:868-889 | a callback already registered is left alone; a new one is registered and its wrapper added to the adapter |
| Asgi.AsgiBot.RemoveStartupCallback | yuyo/asgi.py:891-913 | silent when not registered; otherwise the callback and its wrapper are removed |
| Asgi.AsgiBot.AddShutdownCallback | yuyo/asgi.py:821-842 | a callback already registered is left alone; a new one is registered and its wrapper added to the adapter |
| Asgi.AsgiBot.RemoveShutdownCallback | yuyo/asgi.py:844-866 | silent when not registered; otherwise the callback and its wrapper are removed |
| Strings.Decimal | yuyo/asgi.py:400-402 | the `%i` of a length writes decimal digits with no leading zero |
| Strings.DecimalRoundTrip | yuyo/asgi.py:400-402 | reading back the digits written for a number gives that number |
| Strings.LowerAll | yuyo/asgi.py:447 | `bytes.lower()` keeps the length and lowers each ASCII capital letter, nothing else (and the Content-Type check at line 340) |
| Strings.Join | yuyo/pagination.py:117 | `sep.join` of n parts is as long as the parts plus n-1 separators |

## Left out

- Network and REST I/O are recorded only as ghost-log entries. This covers Hikari REST calls, `CachedREST.fetch_*`, the bot-list HTTP posts, `DiscordBotListService._post` and `_log_response`. `yuyo/restful_cache.py` and `yuyo/sync_rest.py` are not part of this model.
- Concurrency is not modelled: asyncio tasks, locks, `asyncio.gather` and awaiting. Each background `_gc` loop or sweep is modelled as one sweep step, not as the sleeping loop. The `_delete_*_after` tasks and the `ServiceManager._loop` scheduler are left out. `yuyo/repeaters.py` is not part of this model.
- Floating-point time and randomness are not modelled. `datetime.now`, `perf_counter`, back-off jitter, Hikari's `ExponentialBackOff`, `uuid4` and `_random_nonce` become integer clocks and arguments. Back-off delays are `real`.
- `ChunkTracker.request_guild_members` is left out. It only draws a random nonce and sends the gateway request with it; nothing is recorded until `OnMembersChunk` sees the first chunk carrying that nonce.
- `ChunkTracker`: `_ShardInfo` and `_RequestData` records are values in the tracker's tables. Aliasing between a request and its shard's record is therefore not modelled.
- `Links`: the regular expressions are hand-written matchers for their patterns only. `\w` and `\d` are ASCII, and the bound app of a link is left out. `InviteLink` defines no `__str__`, so no string form of it is modelled.
- `Strings.LowerAll`, `SlashNames.Capitalize` and `str.lower` in the validators act on ASCII letters only. Unicode case mapping is not modelled.
- `Asgi`: byte strings are strings of characters below 256. Encoding a non-ASCII header is not modelled. The wait in `AsgiBot.join` and `AsgiBot.run` is not modelled.
- `Localise`: the truthiness of a localised value and Python's `repr()` of it are function parameters, because the field's value type is generic.
- `SlashNames.MaxLength` and `SlashNames.MinLength` state the largest and smallest length directly, instead of sorting the lengths.
- Modals: `ModalClient` keeps a `_modals` table, but no shown method adds to it, so the model's table only ever loses entries.
- `yuyo/to_builder.py`, `_CHANNEL_TYPES`/`_parse_channel_types` and `yuyo/_utility.py` are not part of this model. They are builder copying and runtime type reflection.
- The CLI machinery of `yuyo/__main__.py` is not part of this model: pydantic, click, dotenv and the rename/declare coroutines.
- Dependency injection through alluka is an opaque callback call.
- Modals: `__init_subclass__` merging the parents' `_all_static_*` lists and `_static_prefix_match` is not modelled; `ModalClass` keeps only a class's own static rows and fields.
- Modals: `Modal.execute` is unfinished in the source and is not modelled.
- Reactions.ReactionPaginator.Open: `ReactionPaginator.open` catches only NotFound and Forbidden from `add_reaction`; any other REST error leaves it uncaught, and the model's failure outcome names only those two.
- Interactions.BaseContext.Respond: on the follow-up and edit routes the singular and plural arguments go to Hikari's REST calls, whose own check for a pair given twice is not modelled, so the contract lets those routes succeed.
- Components.ComponentContext.Respond: likewise, Hikari's own argument checks on the follow-up and edit routes are not modelled.
- CreateInitialResponse: on the path without a response future the arguments go straight to Hikari's REST call, whose own argument checks are not modelled.
- Interactions.ToListConflict: `_internal.to_list` is not part of this model; it is taken to raise as `_to_list` of `yuyo/components.py` does.
- Reactions.ReactionPaginator.EditMessage: a REST error other than NotFound and Forbidden from the edit propagates out of `_edit_message` (yuyo/reactions.py:505-509); the model's `editFails` stands only for the two caught errors, so that propagation is not modelled.
- Reactions.ReactionPaginator.OnReactionEvent: inherits the gap of `EditMessage`; an uncaught REST error from the edit is not among its outcomes.
- Reactions.ReactionPaginator.OnReactionEventAsWritten: likewise, an uncaught REST error from the edit is not among its outcomes.
- Reactions.ReactionPaginator.Close: a REST error other than NotFound and Forbidden from `remove_reaction` propagates (yuyo/reactions.py:607-611); the model's `RestFailure` stands only for the two caught errors.
- Paginaton.Paginator.Close: the unlimited retry of each `delete_my_reaction` is collapsed; `RestFailure` stands for NotFound or Forbidden, and another error (neither a server error nor a rate limit), which propagates out of `close`, is not modelled.
- Paginaton.Paginator.OnReactionEvent: the retry loop of `edit_message` is collapsed into `editFails` (refused or not); an error other than a server error, rate limit, NotFound or Forbidden propagates out of it and is not among its outcomes.
- LegacyPaginator.Paginator.DeregisterMessage: the unlimited retry of each `remove_reaction` is collapsed; `RestFailure` stands for NotFound or Forbidden, and another propagating error is not modelled.
- LegacyPaginator.Paginator.RegisterMessage: likewise for `add_reaction`; another propagating error is not modelled.
- LegacyPaginator.StringPaginator: whether the source is an iterator is a flag, and the `isinstance` checks and the `repr` of the type are not modelled; synchronous and asynchronous sources are read alike.
- Pagination.Chunks: models `textwrap.wrap` as cutting every `width` characters, which is what it does for a line without whitespace; its preference for breaking at spaces inside a long line is not modelled.

## Findings

| source | as written | input that shows it | evidently intended | confidence | as-written member | corrected member |
|---|---|---|---|---|---|---|
| yuyo/reactions.py:250-252 | an expired handler runs a bare `raise` outside any `except` block | any reaction on a handler whose timeout has passed: `RuntimeError("No active exception to reraise")` leaves the client, and the handler stays registered | raise `HandlerClosed`, so that the client drops the handler | not executed | Reactions.HandlerReactionAsWritten, Reactions.ExpiredHandlerStaysAsWritten, Reactions.ReactionHandler.OnReactionEventAsWritten, Reactions.ReactionPaginator.OnReactionEventAsWritten | Reactions.HandlerReaction, Reactions.ExpiredHandlerIsDropped |
| yuyo/paginaton.py:412 | the cursor index starts at 0 over an empty buffer | source [1, 2]: after two "next" presses the index is 2, and "previous" shows page 2 again | start at -1 like the other paginators, so that "previous" goes back to page 1 | not executed | Paginaton.StartAsWritten, Paginaton.PreviousRepeatsPageAsWritten, Paginaton.Paginator.constructor, Paginaton.OpenedEdgesAsWritten | Paginaton.Start, Paginaton.PreviousGoesBack, Paginaton.Paginator.Corrected |
| yuyo/paginator.py:349 | "next" reads the buffer only when `len(buffer) < index + 1`, so inside the buffer it pulls from the source | pages [1, 2] buffered, [3] left, index 1: "previous" shows 1, then "next" shows 3 and skips 2 | step through the buffer while the index is behind its end (`len(buffer) >= index + 2`) | not executed | LegacyPaginator.NextAsWritten, LegacyPaginator.NextShowsSourceAsWritten, LegacyPaginator.PreviousThenNextSkipsAsWritten, LegacyPaginator.Paginator.OnNextAsWritten | LegacyPaginator.PreviousThenNextReturns, LegacyPaginator.Paginator.OnNext |
| yuyo/paginator.py:458-471 | the edit retry loop has no `break` after a successful edit | any reaction whose edit succeeds: the message is edited again on every retry until an edit is refused | stop the loop after the first successful edit | not executed | LegacyPaginator.EditLoopAsWritten, LegacyPaginator.DoneEditsRepeatAsWritten, LegacyPaginator.Paginator.EditPageAsWritten, LegacyPaginator.Paginator.OnReactionEventAsWritten | LegacyPaginator.EditLoop, LegacyPaginator.DoneEditEndsLoop, LegacyPaginator.Paginator.EditPage |
| yuyo/chunk_tracker.py:465-473 | timed-out requests are deleted from `_requests` while iterating `_requests.items()` | two requests, the first timed out: the next step of the iteration raises RuntimeError, the background loop dies, and no finished event is dispatched | collect the timed-out requests, then delete them after the iteration | not executed | ChunkTracker.Tracker.SweepRequestsAsWritten, ChunkTracker.Tracker.LoopStepAsWritten | ChunkTracker.Tracker.SweepRequests, ChunkTracker.Tracker.LoopStep |
| yuyo/links.py:160-161 | the invite link (and the template link at lines 440-441) is built from `match.group()`, the whole matched link | `from_link("https://discord.gg/abc")` gives code "https://discord.gg/abc", and the string of a template link read this way repeats the prefix | build them from the captured code group | not executed | Links.InviteCodeAsWritten, Links.TemplateStrAsWritten, Links.FindInvite | Links.FromMatch, Links.InviteRoundTrip, Links.TemplateRoundTrip |
| yuyo/__main__.py:378-381 | the range tests are chained comparisons with the left link reversed (`0x0900 >= cp <= 0x097F`) | ' ' (category Zs, code point 0x20) is accepted as a slash-name character | test `0x0900 <= cp <= 0x097F` and `0x0E00 <= cp <= 0x0E7F` | not executed | SlashNames.CheckNameCharAsWritten, SlashNames.NameCharAcceptsSpace, SlashNames.SpacedNameAsWritten | SlashNames.CheckNameChar |
| yuyo/__main__.py:119 | without a truthy "default" entry, a table's value is its first key | `{"en-US": "ping"}` names the command "en-US" | take the first value, as `yuyo/_internal/localise.py` does | not executed | SlashNames.ParseAsWritten, SlashNames.ParseFirstKey | SlashNames.Parse |
| yuyo/reactions.py:913-930 | `close` never sets `_gc_task` back to `None` | `open`, `close`, `open`: the second `open` does nothing, and the client still reports itself open after `close` | clear `_gc_task` on close, so that the client can be opened again | not executed | Reactions.ReactionClient.CloseAsWritten, Reactions.ReopenAsWritten | Reactions.ReactionClient.Close, Reactions.ReopenRestarts |
