/** The execute phase of a retrying node (`Node._exec`) and of a batch node
    (`BatchNode._exec`). The user's `exec` is an oracle giving the outcome of
    attempt `k` on input `p`; `exec_fallback` is an oracle from the input and
    the last exception. `time.sleep` is recorded as an event, not performed. */
module Retry {
  import opened Outcomes

  /** What the retry loop does, in order. */
  datatype Event = Attempt(index: nat) | Sleep(seconds: real) | FallbackCall(error: Exception)

  /** The loop's result together with the events it produced. The result is
      `None` when the loop body never ran (`max_retries <= 0`). */
  datatype Attempted<V> = Attempted(result: Outcome<Option<V>>, log: seq<Event>)

  /** The default `exec_fallback`: re-raise the exception it is given. */
  function DefaultFallback<P, V>(p: P, e: Exception): (r: Outcome<V>)
    ensures r.Raised? && r.error == e
  {
    Raised(e)
  }

  function Lift<V>(o: Outcome<V>): Outcome<Option<V>>
  {
    match o
    case Returned(v) => Returned(Some(v))
    case Raised(e) => Raised(e)
  }

  /** The retry loop from attempt `k` on: attempt, return the first success,
      otherwise sleep (when `wait > 0`) and go on, and hand the last failure of
      attempt `maxRetries - 1` to the fallback. */
  function RetryFrom<P, V>(maxRetries: int, wait: real, exec: (P, nat) -> Outcome<V>,
                           fallback: (P, Exception) -> Outcome<V>, p: P, k: nat): (r: Attempted<V>)
    ensures r.result == Returned(None) <==> k >= maxRetries
    ensures k < maxRetries ==> r.log != [] && r.log[0] == Attempt(k)
    decreases maxRetries - k
  {
    if k >= maxRetries then Attempted(Returned(None), [])
    else match exec(p, k)
      case Returned(v) => Attempted(Returned(Some(v)), [Attempt(k)])
      case Raised(e) =>
        if k == maxRetries - 1 then Attempted(Lift(fallback(p, e)), [Attempt(k), FallbackCall(e)])
        else
          var rest := RetryFrom(maxRetries, wait, exec, fallback, p, k + 1);
          Attempted(rest.result, [Attempt(k)] + (if wait > 0.0 then [Sleep(wait)] else []) + rest.log)
  }

  /** `Node._exec(p)` for a node with `max_retries` and `wait`: the body
      runs (and the first event is attempt 0) exactly when `max_retries` is
      positive; otherwise the result is `None`. */
  function RetryRun<P, V>(maxRetries: int, wait: real, exec: (P, nat) -> Outcome<V>,
                          fallback: (P, Exception) -> Outcome<V>, p: P): (r: Attempted<V>)
    ensures r.result == Returned(None) <==> maxRetries <= 0
    ensures maxRetries > 0 ==> r.log != [] && r.log[0] == Attempt(0)
  {
    RetryFrom(maxRetries, wait, exec, fallback, p, 0)
  }

  function CountAttempts(log: seq<Event>): nat
  {
    if log == [] then 0 else (if log[0].Attempt? then 1 else 0) + CountAttempts(log[1..])
  }

  function CountSleeps(log: seq<Event>): nat
  {
    if log == [] then 0 else (if log[0].Sleep? then 1 else 0) + CountSleeps(log[1..])
  }

  function CountFallbacks(log: seq<Event>): nat
  {
    if log == [] then 0 else (if log[0].FallbackCall? then 1 else 0) + CountFallbacks(log[1..])
  }

  lemma {:induction false} CountsOfConcat(a: seq<Event>, b: seq<Event>)
    ensures CountAttempts(a + b) == CountAttempts(a) + CountAttempts(b)
    ensures CountSleeps(a + b) == CountSleeps(a) + CountSleeps(b)
    ensures CountFallbacks(a + b) == CountFallbacks(a) + CountFallbacks(b)
  {
    if a == [] {
      assert a + b == b;
    } else {
      assert (a + b)[1..] == a[1..] + b;
      CountsOfConcat(a[1..], b);
    }
  }

  lemma CountsOfPair(x: Event, y: Event)
    ensures CountAttempts([x, y]) == (if x.Attempt? then 1 else 0) + (if y.Attempt? then 1 else 0)
    ensures CountSleeps([x, y]) == (if x.Sleep? then 1 else 0) + (if y.Sleep? then 1 else 0)
    ensures CountFallbacks([x, y]) == (if x.FallbackCall? then 1 else 0) + (if y.FallbackCall? then 1 else 0)
  {
    assert [x, y] == [x] + [y];
    CountsOfConcat([x], [y]);
    assert [x][1..] == [] && [y][1..] == [];
  }

  /** The counts of one failed attempt followed by the sleep, if any. */
  lemma FailedStepCounts(k: nat, wait: real, rest: seq<Event>)
    ensures var log := [Attempt(k)] + (if wait > 0.0 then [Sleep(wait)] else []) + rest;
      && CountAttempts(log) == 1 + CountAttempts(rest)
      && CountSleeps(log) == (if wait > 0.0 then 1 else 0) + CountSleeps(rest)
      && CountFallbacks(log) == CountFallbacks(rest)
  {
    var pre := [Attempt(k)] + (if wait > 0.0 then [Sleep(wait)] else []);
    CountsOfConcat(pre, rest);
    if wait > 0.0 {
      assert pre[1..] == [Sleep(wait)];
    }
  }

  lemma {:induction false} SuccessFrom<P, V>(maxRetries: int, wait: real, exec: (P, nat) -> Outcome<V>,
                                             fallback: (P, Exception) -> Outcome<V>, p: P, k: nat, n: nat)
    requires k <= n < maxRetries
    requires forall j :: k <= j < n ==> exec(p, j).Raised?
    requires exec(p, n).Returned?
    ensures var t := RetryFrom(maxRetries, wait, exec, fallback, p, k);
      && t.result == Returned(Some(exec(p, n).value))
      && CountAttempts(t.log) == n - k + 1
      && CountSleeps(t.log) == (if wait > 0.0 then n - k else 0)
      && CountFallbacks(t.log) == 0
    decreases n - k
  {
    if k < n {
      SuccessFrom(maxRetries, wait, exec, fallback, p, k + 1, n);
      FailedStepCounts(k, wait, RetryFrom(maxRetries, wait, exec, fallback, p, k + 1).log);
    }
  }

  /** Success on attempt `n + 1` (index `n`) after `n` failures: that result is
      returned at once, `exec` ran `n + 1` times, `sleep` ran `n` times when
      `wait > 0` and never otherwise, and the fallback was not called. */
  lemma SuccessAfterFailures<P, V>(maxRetries: int, wait: real, exec: (P, nat) -> Outcome<V>,
                                   fallback: (P, Exception) -> Outcome<V>, p: P, n: nat)
    requires n < maxRetries
    requires forall j :: 0 <= j < n ==> exec(p, j).Raised?
    requires exec(p, n).Returned?
    ensures var t := RetryRun(maxRetries, wait, exec, fallback, p);
      && t.result == Returned(Some(exec(p, n).value))
      && CountAttempts(t.log) == n + 1
      && CountSleeps(t.log) == (if wait > 0.0 then n else 0)
      && CountFallbacks(t.log) == 0
  {
    SuccessFrom(maxRetries, wait, exec, fallback, p, 0, n);
  }

  lemma {:induction false} ExhaustedFrom<P, V>(maxRetries: int, wait: real, exec: (P, nat) -> Outcome<V>,
                                               fallback: (P, Exception) -> Outcome<V>, p: P, k: nat)
    requires k < maxRetries
    requires forall j :: k <= j < maxRetries ==> exec(p, j).Raised?
    ensures var t := RetryFrom(maxRetries, wait, exec, fallback, p, k);
      && t.result == Lift(fallback(p, exec(p, maxRetries - 1).error))
      && CountAttempts(t.log) == maxRetries - k
      && CountSleeps(t.log) == (if wait > 0.0 then maxRetries - 1 - k else 0)
      && CountFallbacks(t.log) == 1
      && t.log[|t.log| - 1] == FallbackCall(exec(p, maxRetries - 1).error)
    decreases maxRetries - k
  {
    var t := RetryFrom(maxRetries, wait, exec, fallback, p, k);
    if k < maxRetries - 1 {
      ExhaustedFrom(maxRetries, wait, exec, fallback, p, k + 1);
      var rest := RetryFrom(maxRetries, wait, exec, fallback, p, k + 1);
      FailedStepCounts(k, wait, rest.log);
      assert t.log[|t.log| - 1] == rest.log[|rest.log| - 1];
    } else {
      assert t.log == [Attempt(k), FallbackCall(exec(p, k).error)];
      CountsOfPair(Attempt(k), FallbackCall(exec(p, k).error));
    }
  }

  /** When all `maxRetries >= 1` attempts fail, `exec` ran `maxRetries` times,
      `sleep` ran `maxRetries - 1` times when `wait > 0` (never after the last
      attempt), and the fallback ran exactly once, last, with the last attempt's
      exception; its outcome is the result. */
  lemma AllAttemptsFail<P, V>(maxRetries: int, wait: real, exec: (P, nat) -> Outcome<V>,
                              fallback: (P, Exception) -> Outcome<V>, p: P)
    requires maxRetries >= 1
    requires forall j :: 0 <= j < maxRetries ==> exec(p, j).Raised?
    ensures var t := RetryRun(maxRetries, wait, exec, fallback, p);
      && t.result == Lift(fallback(p, exec(p, maxRetries - 1).error))
      && CountAttempts(t.log) == maxRetries
      && CountSleeps(t.log) == (if wait > 0.0 then maxRetries - 1 else 0)
      && CountFallbacks(t.log) == 1
      && t.log[|t.log| - 1] == FallbackCall(exec(p, maxRetries - 1).error)
  {
    ExhaustedFrom(maxRetries, wait, exec, fallback, p, 0);
  }

  /** With the default fallback, exhausting the attempts re-raises the last
      attempt's exception unchanged. */
  lemma DefaultFallbackReraises<P, V>(maxRetries: int, wait: real, exec: (P, nat) -> Outcome<V>, p: P)
    requires maxRetries >= 1
    requires forall j :: 0 <= j < maxRetries ==> exec(p, j).Raised?
    ensures RetryRun(maxRetries, wait, exec, DefaultFallback, p).result == Raised(exec(p, maxRetries - 1).error)
  {
    AllAttemptsFail(maxRetries, wait, exec, DefaultFallback, p);
  }

  lemma {:induction false} BoundsFrom<P, V>(maxRetries: int, wait: real, exec: (P, nat) -> Outcome<V>,
                                            fallback: (P, Exception) -> Outcome<V>, p: P, k: nat)
    requires k <= maxRetries
    ensures var t := RetryFrom(maxRetries, wait, exec, fallback, p, k);
      && CountAttempts(t.log) <= maxRetries - k
      && CountFallbacks(t.log) <= 1
      && (forall i :: 0 <= i < |t.log| && t.log[i].Sleep? ==> i + 1 < |t.log| && t.log[i + 1].Attempt?)
    decreases maxRetries - k
  {
    var t := RetryFrom(maxRetries, wait, exec, fallback, p, k);
    if k < maxRetries && exec(p, k).Raised? && k == maxRetries - 1 {
      CountsOfPair(Attempt(k), FallbackCall(exec(p, k).error));
    } else if k < maxRetries && exec(p, k).Raised? {
      BoundsFrom(maxRetries, wait, exec, fallback, p, k + 1);
      var rest := RetryFrom(maxRetries, wait, exec, fallback, p, k + 1);
      FailedStepCounts(k, wait, rest.log);
      var pre := [Attempt(k)] + (if wait > 0.0 then [Sleep(wait)] else []);
      assert rest.log != [] && rest.log[0] == Attempt(k + 1);
      forall i | 0 <= i < |t.log| && t.log[i].Sleep?
        ensures i + 1 < |t.log| && t.log[i + 1].Attempt?
      {
        if i >= |pre| {
          assert t.log[i] == rest.log[i - |pre|];
        }
      }
    }
  }

  /** In every run `exec` is called at most `max(0, maxRetries)` times, the
      fallback at most once, and every sleep is followed by another attempt:
      there is never a sleep after the final attempt. With `maxRetries <= 0`
      nothing runs and the result is `None`. */
  lemma RetryBounds<P, V>(maxRetries: int, wait: real, exec: (P, nat) -> Outcome<V>,
                          fallback: (P, Exception) -> Outcome<V>, p: P)
    ensures var t := RetryRun(maxRetries, wait, exec, fallback, p);
      && CountAttempts(t.log) <= (if maxRetries > 0 then maxRetries else 0)
      && CountFallbacks(t.log) <= 1
      && (forall i :: 0 <= i < |t.log| && t.log[i].Sleep? ==> i + 1 < |t.log| && t.log[i + 1].Attempt?)
      && (maxRetries <= 0 ==> t == Attempted(Returned(None), []))
  {
    if maxRetries > 0 {
      BoundsFrom(maxRetries, wait, exec, fallback, p, 0);
    }
  }

  /** The loop's state before attempt `k`: `log` holds the events of the `k`
      attempts made so far, and the whole run is that log followed by the
      run from attempt `k` on. */
  ghost predicate RunSoFar<P, V>(m: int, w: real, exec: (P, nat) -> Outcome<V>, fallback: (P, Exception) -> Outcome<V>,
                                 p: P, k: nat, log: seq<Event>)
  {
    && RetryRun(m, w, exec, fallback, p)
       == Attempted(RetryFrom(m, w, exec, fallback, p, k).result, log + RetryFrom(m, w, exec, fallback, p, k).log)
    && CountAttempts(log) == k
  }

  /** The attempt that ends the run: a success, or the failure of the last
      attempt, which hands the error to the fallback. */
  lemma RetryLastStep<P, V>(m: int, w: real, exec: (P, nat) -> Outcome<V>, fallback: (P, Exception) -> Outcome<V>,
                            p: P, k: nat, log: seq<Event>)
    requires k < m && (exec(p, k).Returned? || k == m - 1)
    requires RunSoFar(m, w, exec, fallback, p, k, log)
    ensures exec(p, k).Returned? ==>
      && RetryRun(m, w, exec, fallback, p) == Attempted(Returned(Some(exec(p, k).value)), log + [Attempt(k)])
      && CountAttempts(log + [Attempt(k)]) == k + 1
    ensures exec(p, k).Raised? ==>
      var log' := log + [Attempt(k), FallbackCall(exec(p, k).error)];
      && RetryRun(m, w, exec, fallback, p) == Attempted(Lift(fallback(p, exec(p, k).error)), log')
      && CountAttempts(log') == k + 1
  {
    if exec(p, k).Returned? {
      CountsOfConcat(log, [Attempt(k)]);
    } else {
      CountsOfConcat(log, [Attempt(k), FallbackCall(exec(p, k).error)]);
      CountsOfPair(Attempt(k), FallbackCall(exec(p, k).error));
    }
  }

  /** One failed attempt that is not the last: the attempt, and the sleep
      when `wait` is positive, join the log, and what remains of the run is
      the run from the next attempt. */
  lemma RetryStep<P, V>(m: int, w: real, exec: (P, nat) -> Outcome<V>, fallback: (P, Exception) -> Outcome<V>,
                        p: P, k: nat, log: seq<Event>)
    requires k < m - 1 && exec(p, k).Raised?
    requires RunSoFar(m, w, exec, fallback, p, k, log)
    ensures RunSoFar(m, w, exec, fallback, p, k + 1, log + ([Attempt(k)] + (if w > 0.0 then [Sleep(w)] else [])))
  {
    var step := [Attempt(k)] + (if w > 0.0 then [Sleep(w)] else []);
    var rest := RetryFrom(m, w, exec, fallback, p, k + 1);
    assert RetryFrom(m, w, exec, fallback, p, k) == Attempted(rest.result, step + rest.log);
    assert log + (step + rest.log) == (log + step) + rest.log;
    FailedStepCounts(k, w, []);
    assert step + [] == step;
    CountsOfConcat(log, step);
  }

  /** A retrying node (`Node`): its retry settings and the index of the
      attempt in progress, which the loop writes as it goes. */
  class Node {
    var maxRetries: int
    var wait: real
    var curRetry: int

    constructor (maxRetries: int := 1, wait: real := 0.0)
      ensures this.maxRetries == maxRetries && this.wait == wait
    {
      this.maxRetries := maxRetries;
      this.wait := wait;
      curRetry := 0;
    }

    /** `Node._exec(p)`: the bounded retry loop. `curRetry` ends as the index
        of the last attempt made, or is untouched when no attempt is made. */
    method Exec<P, V>(p: P, exec: (P, nat) -> Outcome<V>, fallback: (P, Exception) -> Outcome<V>)
      returns (r: Outcome<Option<V>>, log: seq<Event>)
      modifies this`curRetry
      ensures Attempted(r, log) == RetryRun(maxRetries, wait, exec, fallback, p)
      ensures maxRetries <= 0 ==> curRetry == old(curRetry)
      ensures maxRetries > 0 ==> curRetry == CountAttempts(log) - 1
    {
      var m, w := maxRetries, wait;
      log := [];
      var k: nat := 0;
      while k < m
        invariant k == 0 || k < m
        invariant RunSoFar(m, w, exec, fallback, p, k, log)
        invariant k == 0 ==> curRetry == old(curRetry)
      {
        curRetry := k;
        var o := exec(p, k);
        if o.Returned? {
          RetryLastStep(m, w, exec, fallback, p, k, log);
          return Returned(Some(o.value)), log + [Attempt(k)];
        }
        if k == m - 1 {
          RetryLastStep(m, w, exec, fallback, p, k, log);
          return Lift(fallback(p, o.error)), log + [Attempt(k), FallbackCall(o.error)];
        }
        // time.sleep(wait) when wait > 0, recorded as an event
        var step := [Attempt(k)] + (if w > 0.0 then [Sleep(w)] else []);
        RetryStep(m, w, exec, fallback, p, k, log);
        log := log + step;
        k := k + 1;
      }
      r := Returned(None);
    }
  }

  /** `BatchNode._exec(items)` on the item list: the retrying step applied to
      each item in order; the first item whose step raises aborts the rest. */
  function BatchItems<P, V>(maxRetries: int, wait: real, exec: (P, nat) -> Outcome<V>,
                            fallback: (P, Exception) -> Outcome<V>, items: seq<P>): (r: Outcome<seq<Option<V>>>)
    ensures r.Returned? <==> forall i :: 0 <= i < |items| ==> RetryRun(maxRetries, wait, exec, fallback, items[i]).result.Returned?
    ensures r.Returned? ==>
              && |r.value| == |items|
              && forall i :: 0 <= i < |items| ==> r.value[i] == RetryRun(maxRetries, wait, exec, fallback, items[i]).result.value
    ensures r.Raised? ==>
              exists j ::
                && 0 <= j < |items|
                && (forall i :: 0 <= i < j ==> RetryRun(maxRetries, wait, exec, fallback, items[i]).result.Returned?)
                && RetryRun(maxRetries, wait, exec, fallback, items[j]).result == Raised(r.error)
  {
    if items == [] then Returned([])
    else
      match RetryRun(maxRetries, wait, exec, fallback, items[0]).result
      case Raised(e) => Raised(e)
      case Returned(v) =>
        match BatchItems(maxRetries, wait, exec, fallback, items[1..])
        case Raised(e) => Raised(e)
        case Returned(vs) => Returned([v] + vs)
  }

  /** `BatchNode._exec(items)`: `None` or an empty list gives `[]`. */
  function BatchExec<P, V>(maxRetries: int, wait: real, exec: (P, nat) -> Outcome<V>,
                           fallback: (P, Exception) -> Outcome<V>, items: Option<seq<P>>): (r: Outcome<seq<Option<V>>>)
    ensures items.None? || items.value == [] ==> r == Returned([])
  {
    BatchItems(maxRetries, wait, exec, fallback, if items.Some? then items.value else [])
  }
}
