/** Expiry policies for executors and handlers (yuyo/timeouts.py).
  *
  * The clock is an integer number of seconds passed in as `now`; a
  * timeout given as a plain number is already a count of seconds. */
module Timeouts {
  import opened Wrappers

  /** One use taken from a use counter: a positive counter counts down, a
    * negative one means "unlimited" and is left alone, and a counter at 0
    * refuses the use. */
  function TakeUse(usesLeft: int): (r: Result<int>)
    ensures r.Failure? <==> usesLeft == 0
    ensures r.Failure? ==> r.error == RuntimeError("Uses already depleted")
    ensures r.Success? ==> r.value == (if usesLeft > 0 then usesLeft - 1 else usesLeft)
  {
    if usesLeft > 0 then Success(usesLeft - 1)
    else if usesLeft == 0 then Failure(RuntimeError("Uses already depleted"))
    else Success(usesLeft)
  }

  /** The counter after `k` successive uses, or the first refusal. */
  function TakeUses(usesLeft: int, k: nat): Result<int>
  {
    if k == 0 then Success(usesLeft)
    else
      match TakeUse(usesLeft)
      case Failure(e) => Failure(e)
      case Success(left) => TakeUses(left, k - 1)
  }

  /** A counter started at `maxUses >= 1` allows exactly `maxUses` uses:
    * the last of them brings it to 0 and the next one is refused. */
  lemma {:induction false} CounterAllowsMaxUses(maxUses: nat, k: nat)
    requires k <= maxUses
    ensures TakeUses(maxUses, k) == Success(maxUses - k)
    ensures TakeUses(maxUses, maxUses + 1) == Failure(RuntimeError("Uses already depleted"))
  {
    if k > 0 {
      CounterAllowsMaxUses(maxUses - 1, k - 1);
    }
    if maxUses > 0 {
      CounterAllowsMaxUses(maxUses - 1, 0);
    }
  }

  /** With `max_uses = -1` no number of uses is ever refused or depletes the
    * counter. */
  lemma {:induction false} UnlimitedNeverDepletes(k: nat)
    ensures TakeUses(-1, k) == Success(-1)
  {
    if k > 0 {
      UnlimitedNeverDepletes(k - 1);
    }
  }

  /** Times out when `timeout` seconds pass after the last use, or when the
    * uses run out. */
  class SlidingTimeout {
    var lastTriggered: int
    var timeout: int
    var usesLeft: int

    constructor (timeout: int, now: int, maxUses: int)
      ensures this.timeout == timeout && lastTriggered == now && usesLeft == maxUses
    {
      this.timeout := timeout;
      lastTriggered := now;
      usesLeft := maxUses;
    }

    /** Expired once the uses are spent, or once more than `timeout`
      * seconds have passed since the last use. */
    function HasExpired(now: int): (r: bool)
      reads this
      ensures usesLeft == 0 ==> r
      ensures !r <==> usesLeft != 0 && now <= lastTriggered + timeout
    {
      usesLeft == 0 || now - lastTriggered > timeout
    }

    /** Takes one use and restarts the expiry window at `now`. */
    method IncrementUses(now: int) returns (r: Result<bool>)
      modifies this
      ensures timeout == old(timeout)
      ensures r.Failure? <==> old(usesLeft) == 0
      ensures r.Failure? ==>
        r.error == RuntimeError("Uses already depleted") &&
        usesLeft == old(usesLeft) && lastTriggered == old(lastTriggered)
      ensures r.Success? ==>
        Success(usesLeft) == TakeUse(old(usesLeft)) && lastTriggered == now &&
        r.value == (usesLeft == 0)
      ensures r.Success? ==> forall t :: HasExpired(t) <==> r.value || t - now > timeout
    {
      if usesLeft > 0 {
        usesLeft := usesLeft - 1;
      } else if usesLeft == 0 {
        return Failure(RuntimeError("Uses already depleted"));
      }
      lastTriggered := now;
      r := Success(usesLeft == 0);
    }
  }

  /** Without another use, a sliding timeout that has expired stays
    * expired. */
  lemma SlidingExpiryLasts(t: SlidingTimeout, now: int, later: int)
    requires now <= later && t.HasExpired(now)
    ensures t.HasExpired(later)
  {
  }

  /** Never times out. */
  class NeverTimeout {
    constructor ()
    {
    }

    function HasExpired(now: int): (r: bool)
      ensures !r
    {
      false
    }

    method IncrementUses() returns (r: bool)
      ensures !r
    {
      r := false;
    }
  }

  /** Times out at a fixed instant, or when the uses run out. */
  class StaticTimeout {
    var timeoutAt: int
    var usesLeft: int

    constructor (timeoutAt: int, maxUses: int)
      ensures this.timeoutAt == timeoutAt && usesLeft == maxUses
    {
      this.timeoutAt := timeoutAt;
      usesLeft := maxUses;
    }

    /** Expired once the uses are spent, or once the deadline has passed. */
    function HasExpired(now: int): (r: bool)
      reads this
      ensures usesLeft == 0 ==> r
      ensures !r <==> usesLeft != 0 && now <= timeoutAt
    {
      usesLeft == 0 || now > timeoutAt
    }

    /** Takes one use; the deadline never moves. */
    method IncrementUses() returns (r: Result<bool>)
      modifies this
      ensures timeoutAt == old(timeoutAt)
      ensures r.Failure? <==> old(usesLeft) == 0
      ensures r.Failure? ==> r.error == RuntimeError("Uses already depleted") && usesLeft == old(usesLeft)
      ensures r.Success? ==> Success(usesLeft) == TakeUse(old(usesLeft)) && r.value == (usesLeft == 0)
      ensures r.Success? ==> forall t :: HasExpired(t) <==> r.value || t > timeoutAt
    {
      if usesLeft > 0 {
        usesLeft := usesLeft - 1;
      } else if usesLeft == 0 {
        return Failure(RuntimeError("Uses already depleted"));
      }
      r := Success(usesLeft == 0);
    }
  }

  /** A static timeout that has expired stays expired. */
  lemma StaticExpiryLasts(t: StaticTimeout, now: int, later: int)
    requires now <= later && t.HasExpired(now)
    ensures t.HasExpired(later)
  {
  }
}
