/**
 * AsyncCountDown: a builder that configures a countdown (tick count, period, time unit,
 * callback) and an executor that ticks down. Each tick decrements the count and then
 * hands the new value to the callback; the next tick is scheduled only while the count
 * is positive, after a cancellable wait. The scheduler that ends each wait is the
 * environment: it calls DelayElapsed.
 */
module Countdown {
  import opened Wrappers

  /** Time measurement units. */
  datatype TimeUnit = DAYS | HOURS | MINUTES | SECONDS | MILLISECONDS

  /** The unit's length in milliseconds (the enum's underlying values). */
  function Milliseconds(u: TimeUnit): (ms: nat)
    ensures ms >= 1 && 86400000 % ms == 0
    ensures u != MILLISECONDS ==> ms % 1000 == 0
  {
    match u
    case DAYS => 86400000
    case HOURS => 3600000
    case MINUTES => 60000
    case SECONDS => 1000
    case MILLISECONDS => 1
  }

  /** The wait between two ticks, in milliseconds: the period times the unit. */
  function WaitMilliseconds(period: real, u: TimeUnit): (ms: real)
    ensures period >= 0.0 ==> ms >= period
    ensures u == MILLISECONDS ==> ms == period
  {
    period * Milliseconds(u) as real
  }

  /**
   * The values an uncancelled countdown started at `n` passes to its callback: the first
   * tick always happens and passes n-1; another follows while the value is positive.
   */
  function TickValues(n: int): (vs: seq<int>)
    decreases if n > 0 then n else 0
  {
    [n - 1] + if n - 1 > 0 then TickValues(n - 1) else []
  }

  /** A tick from a positive count moves its value from the remaining countdown to the delivered ones. */
  lemma TickKeepsCountdown(before: seq<int>, c: int, n: int)
    requires c > 0 && before + TickValues(c) == TickValues(n)
    ensures (before + [c - 1]) + (if c - 1 > 0 then TickValues(c - 1) else []) == TickValues(n)
  {
    var tail: seq<int> := if c - 1 > 0 then TickValues(c - 1) else [];
    assert (before + [c - 1]) + tail == before + ([c - 1] + tail);
  }

  /** Stopping early leaves a prefix of the countdown delivered. */
  lemma CancelKeepsPrefix(before: seq<int>, c: int, n: int)
    requires before + TickValues(c) == TickValues(n)
    ensures before <= TickValues(n)
  {
    assert TickValues(n)[..|before|] == before;
  }

  /** A countdown of n >= 1 ticks delivers exactly n-1, n-2, ..., 0. */
  lemma {:induction false} TickValuesCountDown(n: int)
    requires n >= 1
    ensures |TickValues(n)| == n
    ensures forall i :: 0 <= i < n ==> TickValues(n)[i] == n - 1 - i
    decreases n
  {
    if n > 1 {
      TickValuesCountDown(n - 1);
    }
  }

  /** The last value delivered is 0 for n >= 1, so a final "0" tick is always reached. */
  lemma LastTickIsZero(n: int)
    requires n >= 1
    ensures TickValues(n)[|TickValues(n)| - 1] == 0
    ensures 0 in TickValues(n)
  {
    TickValuesCountDown(n);
  }

  /** A count of 0 or less still ticks once, delivering count-1 and no further value. */
  lemma NonPositiveCountTicksOnce(n: int)
    requires n <= 0
    ensures TickValues(n) == [n - 1]
  {
  }

  /** The cancellation token shared with the countdown's owner. */
  class CancelToken {
    var cancelled: bool

    constructor ()
      ensures !cancelled
    {
      cancelled := false;
    }

    method Cancel()
      modifies this
      ensures cancelled
    {
      cancelled := true;
    }
  }

  /** The builder (AsyncCountDown). A callback is identified by a number; None is no callback. */
  class AsyncCountDown {
    const token: CancelToken
    var unit: TimeUnit
    var callback: Option<nat>
    var period: real
    var count: int

    /** Setup: count 0, period 1, unit SECONDS, no callback. */
    constructor Setup(token: CancelToken)
      ensures this.token == token
      ensures callback == None && count == 0 && unit == SECONDS && period == 1.0
    {
      this.token := token;
      callback := None;
      count := 0;
      unit := SECONDS;
      period := 1.0;
    }

    method Callback(cb: Option<nat>) returns (self: AsyncCountDown)
      modifies this`callback
      ensures self == this && callback == cb
    {
      callback := cb;
      self := this;
    }

    method Count(n: int) returns (self: AsyncCountDown)
      modifies this`count
      ensures self == this && count == n
    {
      count := n;
      self := this;
    }

    /** The one-argument overload: the unit is left as it was. */
    method PeriodBetweenCallback(p: real) returns (self: AsyncCountDown)
      modifies this`period
      ensures self == this && period == p
    {
      period := p;
      self := this;
    }

    method PeriodBetweenCallbackIn(p: real, u: TimeUnit) returns (self: AsyncCountDown)
      modifies this`period, this`unit
      ensures self == this && period == p && unit == u
    {
      period := p;
      unit := u;
      self := this;
    }

    /** Start: creates the executor, which performs the first tick at once. */
    method Start() returns (executor: CountDownExecutor)
      ensures fresh(executor) && executor.Valid()
      ensures executor.token == token && executor.callback == callback
      ensures executor.unit == unit && executor.period == period
      ensures executor.initial == count && executor.count == count - 1
      ensures executor.delivered == if callback.Some? then [count - 1] else []
      ensures executor.pending <==> count - 1 > 0
      ensures !executor.aborted
    {
      executor := new CountDownExecutor(this);
    }
  }

  /** The executor (CountDownExecutor). */
  class CountDownExecutor {
    const token: CancelToken
    const callback: Option<nat>
    const unit: TimeUnit
    const period: real
    var count: int
    /** The values handed to the callback so far, oldest first. */
    var delivered: seq<int>
    /** A wait for the next tick is outstanding. */
    var pending: bool
    /** A wait ended by cancellation: the countdown stopped early. */
    var aborted: bool
    ghost const initial: int

    /**
     * Unless cancelled, what has been delivered, followed by what an uncancelled run
     * still delivers, is the whole countdown for the configured count; a cancelled run
     * delivered a prefix of it. A wait is outstanding only while the count is positive.
     */
    ghost predicate Valid()
      reads this
    {
      && (callback.Some? && !aborted ==>
            delivered + (if pending then TickValues(count) else []) == TickValues(initial))
      && (callback.Some? && aborted ==> delivered <= TickValues(initial))
      && (callback.None? ==> delivered == [])
      && (pending ==> count > 0 && !aborted)
    }

    constructor (builder: AsyncCountDown)
      ensures Valid()
      ensures token == builder.token && callback == builder.callback
      ensures unit == builder.unit && period == builder.period
      ensures initial == builder.count && count == builder.count - 1
      ensures delivered == if callback.Some? then [builder.count - 1] else []
      ensures pending <==> count > 0
      ensures !aborted
    {
      token := builder.token;
      callback := builder.callback;
      unit := builder.unit;
      period := builder.period;
      count := builder.count;
      initial := builder.count;
      delivered := [];
      aborted := false;
      new;
      Tick();
    }

    /** Tick: decrement, then call back with the new value; schedule the next tick while positive. */
    method Tick()
      modifies this`count, this`delivered, this`pending
      ensures count == old(count) - 1
      ensures delivered == old(delivered) + if callback.Some? then [count] else []
      ensures pending <==> count > 0
    {
      count := count - 1;
      if callback.Some? {
        delivered := delivered + [count];
      }
      pending := count > 0;
    }

    /** The outstanding wait ends: a cancelled token stops the countdown, otherwise it ticks. */
    method DelayElapsed()
      requires Valid() && pending
      modifies this`count, this`delivered, this`pending, this`aborted
      ensures Valid()
      ensures aborted == token.cancelled
      ensures token.cancelled ==> !pending && count == old(count) && delivered == old(delivered)
      ensures !token.cancelled ==> count == old(count) - 1 && (callback.Some? ==> delivered == old(delivered) + [count])
    {
      if token.cancelled {
        if callback.Some? {
          CancelKeepsPrefix(delivered, count, initial);
        }
        pending := false;
        aborted := true;
      } else {
        ghost var before, c := delivered, count;
        Tick();
        if callback.Some? {
          TickKeepsCountdown(before, c, initial);
        }
      }
    }
  }

  /** With no cancellation, letting every wait run out delivers the whole countdown. */
  method RunUncancelled(n: int) returns (values: seq<int>)
    ensures n >= 1 ==> |values| == n && forall i :: 0 <= i < n ==> values[i] == n - 1 - i
    ensures n <= 0 ==> values == [n - 1]
  {
    var token := new CancelToken();
    var builder := new AsyncCountDown.Setup(token);
    builder := builder.Count(n);
    builder := builder.Callback(Some(0));
    var executor := builder.Start();
    while executor.pending
      invariant executor.Valid() && executor.callback == Some(0) && executor.initial == n
      invariant !token.cancelled && !executor.aborted
      decreases executor.count
    {
      executor.DelayElapsed();
    }
    values := executor.delivered;
    assert values == TickValues(n);
    if n >= 1 {
      TickValuesCountDown(n);
    } else {
      NonPositiveCountTicksOnce(n);
    }
  }
}
