/** Retry counting for `async for` back-off loops, and the rule table that
  * decides which exceptions such a loop swallows (yuyo/backoff.py).
  *
  * Delays are reals; the exponential generator and the jitter are random
  * in the library and arrive here as parameters. Sleeping is recorded in a
  * ghost log of the delays slept. */
module Backoff {
  import opened Wrappers

  /** The counters of a back-off iterator, as a value. */
  datatype State = State(finished: bool, maxRetries: Option<int>, nextBackoff: Option<real>,
                         retries: nat, started: bool)
  {
    ghost predicate Valid()
    {
      maxRetries.Some? ==> 1 <= maxRetries.value && retries <= maxRetries.value
    }

    predicate IsDepleted()
    {
      maxRetries.Some? && maxRetries.value == retries
    }
  }

  /** The state right after construction or `reset`. */
  function Initial(maxRetries: Option<int>): State
  {
    State(false, maxRetries, None, 0, false)
  }

  /** What one `__anext__` yields (None is StopAsyncIteration) and the state
    * after it; the reference the class below is proved against. */
  function AnextStep(s: State): (r: (Option<nat>, State))
    ensures r.1.maxRetries == s.maxRetries && r.1.finished == s.finished && r.1.started
    ensures !s.started ==> r.0 == Some(0) && r.1.retries == s.retries
    ensures s.started ==> (r.0.None? <==> s.finished || s.IsDepleted())
    ensures r.0.None? ==> r.1 == s
    ensures s.started && r.0.Some? ==> r.1.retries == s.retries + 1 && r.0 == Some(r.1.retries) && r.1.nextBackoff.None?
  {
    if !s.started then (Some(0), s.(started := true))
    else if s.finished || s.IsDepleted() then (None, s)
    else (Some(s.retries + 1), s.(started := true, nextBackoff := None, retries := s.retries + 1))
  }

  /** The values `k` successive `__anext__` calls yield; once the iterator
    * has stopped it stays stopped. */
  function Run(s: State, k: nat): (r: seq<Option<nat>>)
    ensures |r| == k
    ensures forall i :: 0 <= i < |r| - 1 && r[i].None? ==> r[i + 1].None?
    decreases k
  {
    if k == 0 then [] else [AnextStep(s).0] + Run(AnextStep(s).1, k - 1)
  }

  /** Every step keeps the retry count within `max_retries`. */
  lemma AnextStepValid(s: State)
    requires s.Valid()
    ensures AnextStep(s).1.Valid()
  {
  }

  /** The attempts yielded from retry count `j` on, while not finished. */
  function Attempts(j: nat, n: nat): seq<Option<nat>>
    decreases n - j
  {
    if j >= n then [None] else [Some(j + 1)] + Attempts(j + 1, n)
  }

  lemma {:induction false} RunFrom(s: State, n: nat)
    requires s.started && !s.finished && s.maxRetries == Some(n) && s.retries <= n
    ensures Run(s, n - s.retries + 1) == Attempts(s.retries, n)
    decreases n - s.retries
  {
    if s.retries < n {
      var s' := AnextStep(s).1;
      RunFrom(s', n);
    }
  }

  /** A fresh iterator with `max_retries = n` yields 0 first (without any
    * check), then 1, 2, ..., n, and then stops. */
  lemma YieldsUpToMaxRetries(n: nat)
    requires n >= 1
    ensures Run(Initial(Some(n)), n + 2) == [Some(0)] + Attempts(0, n)
    ensures |Attempts(0, n)| == n + 1 && Attempts(0, n)[n] == None
    ensures forall i :: 0 <= i < n ==> Attempts(0, n)[i] == Some(i + 1)
  {
    RunFrom(Initial(Some(n)).(started := true), n);
    AttemptsShape(0, n);
  }

  lemma {:induction false} AttemptsShape(j: nat, n: nat)
    requires j <= n
    ensures |Attempts(j, n)| == n - j + 1 && Attempts(j, n)[n - j] == None
    ensures forall i :: 0 <= i < n - j ==> Attempts(j, n)[i] == Some(j + i + 1)
    decreases n - j
  {
    if j < n {
      AttemptsShape(j + 1, n);
    }
  }

  /** `max_retries` validation at construction. */
  function CheckMaxRetries(maxRetries: Option<int>): (r: Result<Unit>)
    ensures r.Failure? <==> maxRetries.Some? && maxRetries.value < 1
    ensures r.Failure? ==> r.error == ValueError("max_retries must be greater than 1")
  {
    if maxRetries.Some? && maxRetries.value < 1 then Failure(ValueError("max_retries must be greater than 1"))
    else Success(Unit)
  }

  class Backoff {
    var finished: bool
    var maxRetries: Option<int>
    var nextBackoff: Option<real>
    var retries: nat
    var started: bool
    /** The delays slept so far, in order. */
    ghost var sleeps: seq<real>

    function Snapshot(): State
      reads this
    {
      State(finished, maxRetries, nextBackoff, retries, started)
    }

    ghost predicate Valid()
      reads this
    {
      Snapshot().Valid()
    }

    constructor (maxRetries: Option<int>)
      requires CheckMaxRetries(maxRetries).Success?
      ensures Valid() && Snapshot() == Initial(maxRetries) && sleeps == []
    {
      finished := false;
      this.maxRetries := maxRetries;
      nextBackoff := None;
      retries := 0;
      started := false;
      sleeps := [];
    }

    /** `Backoff(max_retries=...)`: ValueError for a `max_retries` below 1. */
    static method New(maxRetries: Option<int>) returns (r: Result<Backoff>)
      ensures r.Failure? <==> maxRetries.Some? && maxRetries.value < 1
      ensures r.Failure? ==> r.error == ValueError("max_retries must be greater than 1")
      ensures r.Success? ==> fresh(r.value) && r.value.Valid() && r.value.Snapshot() == Initial(maxRetries)
    {
      var check := CheckMaxRetries(maxRetries);
      if check.Failure? {
        return Failure(check.error);
      }
      var b := new Backoff(maxRetries);
      r := Success(b);
    }

    predicate IsDepleted()
      reads this
    {
      Snapshot().IsDepleted()
    }

    /** `backoff()`: None without sleeping once finished or depleted;
      * otherwise sleeps (an override set by `set_next_backoff` is used once,
      * plus `jitter`, in place of the generated delay) and returns the new
      * retry count. */
    method DoBackoff(generated: real, jitter: real) returns (r: Option<nat>)
      requires Valid()
      modifies this
      ensures Valid() && maxRetries == old(maxRetries) && finished == old(finished)
      ensures old(finished || IsDepleted()) ==>
        r == None && Snapshot() == old(Snapshot()) && sleeps == old(sleeps)
      ensures !old(finished || IsDepleted()) ==>
        retries == old(retries) + 1 && r == Some(retries) && started && nextBackoff == None &&
        sleeps == old(sleeps) + [if old(nextBackoff).Some? then old(nextBackoff).value + jitter else generated]
    {
      if finished || IsDepleted() {
        return None;
      }
      started := true;
      var delay := generated;
      if nextBackoff.Some? {
        delay := nextBackoff.value + jitter;
        nextBackoff := None;
      }
      retries := retries + 1;
      sleeps := sleeps + [delay];
      r := Some(retries);
    }

    /** `__anext__`: the first call yields 0 without checking anything; later
      * calls back off and end the loop with StopAsyncIteration. */
    method ANext(generated: real, jitter: real) returns (r: Result<nat>)
      requires Valid()
      modifies this
      ensures Valid()
      ensures var (out, s) := AnextStep(old(Snapshot()));
        Snapshot() == s && (if out.Some? then r == Success(out.value) else r == Failure(StopAsyncIteration))
    {
      if !started {
        started := true;
        return Success(0);
      }
      var result := DoBackoff(generated, jitter);
      if result.None? {
        return Failure(StopAsyncIteration);
      }
      r := Success(result.value);
    }

    method Finish()
      modifies this
      ensures Snapshot() == old(Snapshot()).(finished := true)
    {
      finished := true;
    }

    /** `reset`: back to the state right after construction. */
    method Reset()
      requires Valid()
      modifies this
      ensures Valid() && Snapshot() == Initial(old(maxRetries))
    {
      finished := false;
      nextBackoff := None;
      retries := 0;
      started := false;
    }

    /** `set_next_backoff`: None unsets the override. */
    method SetNextBackoff(delay: Option<real>)
      modifies this
      ensures Snapshot() == old(Snapshot()).(nextBackoff := delay)
    {
      nextBackoff := delay;
    }
  }

  /** Exception classes are opaque ids; `IsSubclass` is Python's
    * `issubclass` on them and callbacks are opaque ids too. */
  type ExcType = nat
  type CallbackId = nat

  datatype Rule = Rule(exceptions: seq<ExcType>, callback: CallbackId)

  /** `issubclass(exception_type, rule_tuple)`. */
  predicate RuleMatches(rule: Rule, excType: ExcType, isSubclass: (ExcType, ExcType) -> bool)
  {
    exists i :: 0 <= i < |rule.exceptions| && isSubclass(excType, rule.exceptions[i])
  }

  /** A set of (exception classes, callback) rules used as a context manager. */
  class ErrorManager {
    var rules: set<Rule>

    constructor (rules: set<Rule>)
      ensures this.rules == rules
    {
      this.rules := rules;
    }

    /** `__exit__`: None without an exception; otherwise the first matching
      * rule in the set's iteration order decides, returning the negation of
      * the truthiness of what its callback returned (`callbackTruthy`), so a
      * falsy return suppresses the exception and a truthy one lets it
      * propagate; False when no rule matches. */
    method Exit(excType: Option<ExcType>, isSubclass: (ExcType, ExcType) -> bool,
                callbackTruthy: CallbackId -> bool) returns (r: Option<bool>)
      ensures excType.None? ==> r == None
      ensures excType.Some? && r == Some(false) ==>
        (forall rule :: rule in rules ==> !RuleMatches(rule, excType.value, isSubclass)) ||
        (exists rule :: rule in rules && RuleMatches(rule, excType.value, isSubclass) && callbackTruthy(rule.callback))
      ensures excType.Some? && r == Some(true) ==>
        exists rule :: rule in rules && RuleMatches(rule, excType.value, isSubclass) && !callbackTruthy(rule.callback)
      ensures excType.Some? ==> r.Some?
      ensures excType.Some? && (forall rule :: rule in rules ==> !RuleMatches(rule, excType.value, isSubclass)) ==>
        r == Some(false)
    {
      if excType.None? {
        return None;
      }
      var exc := excType.value;
      var left := rules;
      while left != {}
        invariant left <= rules
        invariant forall rule :: rule in rules - left ==> !RuleMatches(rule, exc, isSubclass)
        decreases left
      {
        var rule :| rule in left;
        if RuleMatches(rule, exc, isSubclass) {
          return Some(!callbackTruthy(rule.callback));
        }
        left := left - {rule};
      }
      r := Some(false);
    }

    method ClearRules()
      modifies this
      ensures rules == {}
    {
      rules := {};
    }

    method AddRule(exceptions: seq<ExcType>, callback: CallbackId)
      modifies this
      ensures rules == old(rules) + {Rule(exceptions, callback)}
    {
      rules := rules + {Rule(exceptions, callback)};
    }
  }
}
