/** Bounded retry with backoff. The function that is retried is an arbitrary one: each call takes a
    state to a state and an outcome, which may depend on how often it has been called. */
module Retry {
  /** Durations are in nanoseconds. */
  type Duration = int

  const SECOND: Duration := 1_000_000_000

  /** How one call ends. A failure may leave its effect uncertain, and the configured policy may
      call it retryable. */
  datatype Attempt = Succeeds | Fails(uncertain: bool, retryable: bool)

  /** `retryAll` stands for a nil RetryableFunc. */
  datatype Config = Config(
    maxAttempts: int,
    initialBackoff: Duration,
    maxBackoff: Duration,
    multiplier: real,
    retryAll: bool)

  /** What is not positive gets its default. */
  function WithDefaults(c: Config): (r: Config)
    ensures r.maxAttempts > 0 && r.initialBackoff > 0 && r.maxBackoff > 0 && r.multiplier > 0.0
    ensures c.maxAttempts > 0 ==> r.maxAttempts == c.maxAttempts
    ensures c.initialBackoff > 0 ==> r.initialBackoff == c.initialBackoff
    ensures c.maxBackoff > 0 ==> r.maxBackoff == c.maxBackoff
    ensures c.multiplier > 0.0 ==> r.multiplier == c.multiplier
    ensures r.retryAll == c.retryAll
  {
    Config(if c.maxAttempts <= 0 then 3 else c.maxAttempts,
           if c.initialBackoff <= 0 then SECOND else c.initialBackoff,
           if c.maxBackoff <= 0 then 30 * SECOND else c.maxBackoff,
           if c.multiplier <= 0.0 then 2.0 else c.multiplier,
           c.retryAll)
  }

  const DELETION_CONFIG := Config(12, 5 * SECOND, 5 * SECOND, 1.0, false)

  datatype Outcome = Success | Cancelled | Gone(last: Attempt) | Exhausted(last: Attempt)

  /** The failure may be retried: it is certain, and the policy says so. */
  predicate MayRetry(c: Config, a: Attempt) { a.Fails? && !a.uncertain && (c.retryAll || a.retryable) }

  // ----- The waits -----

  /** The multiple of the last backoff, rounded down, but no more than the maximum. */
  function Grown(c: Config, backoff: Duration): Duration {
    var next := (backoff as real * c.multiplier).Floor;
    if next > c.maxBackoff then c.maxBackoff else next
  }

  /** The wait after the attempt with this index: the initial backoff, then each time the grown one. */
  function Backoff(c: Config, i: nat): Duration {
    if i == 0 then c.initialBackoff
    else Grown(c, Backoff(c, i - 1))
  }

  lemma BackoffUnfolds(c: Config, i: nat)
    ensures Backoff(c, 0) == c.initialBackoff
    ensures Backoff(c, i + 1) == Grown(c, Backoff(c, i))
  {
  }

  function Power(m: nat, i: nat): nat { if i == 0 then 1 else m * Power(m, i - 1) }

  function Capped(x: int, limit: int): int { if x > limit then limit else x }

  lemma GrownIsMultiple(c: Config, m: nat, backoff: Duration)
    requires c.multiplier == m as real
    ensures Grown(c, backoff) == Capped(backoff * m, c.maxBackoff)
  {
    assert backoff as real * m as real == (backoff * m) as real;
  }

  lemma CappedTwice(x: int, m: nat, limit: int)
    requires m >= 1 && limit > 0
    ensures Capped(Capped(x, limit) * m, limit) == Capped(x * m, limit)
  {
    if x > limit { assert x * m >= x && limit * m >= limit; }
  }

  /** Between the backoffs the wait grows exponentially: with a whole multiplier it is the initial one
      times its power, until that exceeds the maximum. */
  lemma {:induction false} BackoffIsExponential(c: Config, m: nat, i: nat)
    requires c.multiplier == m as real && m >= 1 && 0 < c.initialBackoff <= c.maxBackoff
    ensures Backoff(c, i) == Capped(c.initialBackoff * Power(m, i), c.maxBackoff)
  {
    if i > 0 {
      BackoffIsExponential(c, m, i - 1);
      var power := Power(m, i - 1);
      GrownIsMultiple(c, m, Backoff(c, i - 1));
      CappedTwice(c.initialBackoff * power, m, c.maxBackoff);
      Regroup(c.initialBackoff, m, power);
      assert Power(m, i) == m * power && Backoff(c, i) == Grown(c, Backoff(c, i - 1));
      hide Backoff, Grown, Power, Capped;
    }
  }

  lemma Regroup(x: int, y: int, z: int)
    ensures x * z * y == x * (y * z)
  {
  }

  /** The waits are the due ones, in order. */
  ghost predicate AreDue(c: Config, waits: seq<Duration>) {
    forall i :: 0 <= i < |waits| ==> waits[i] == Backoff(c, i)
  }

  /** No due wait is longer than the larger of the two backoffs. */
  lemma DueWaitsAreBounded(c: Config, waits: seq<Duration>)
    requires AreDue(c, waits)
    ensures forall i :: 0 <= i < |waits| ==>
              waits[i] <= if c.initialBackoff > c.maxBackoff then c.initialBackoff else c.maxBackoff
  {
  }

  /** Deletion waits the same five seconds every time. */
  lemma {:induction false} DeletionWaitsEvenly(i: nat)
    ensures Backoff(WithDefaults(DELETION_CONFIG), i) == 5 * SECOND
  {
    if i > 0 { DeletionWaitsEvenly(i - 1); }
  }

  // ----- The function that is retried -----

  /** The state after this many calls. */
  function StateAfter<S>(run: (S, nat) -> (S, Attempt), start: S, calls: nat): S {
    if calls == 0 then start else run(StateAfter(run, start, calls - 1), calls - 1).0
  }

  function AttemptAt<S>(run: (S, nat) -> (S, Attempt), start: S, i: nat): Attempt {
    run(StateAfter(run, start, i), i).1
  }

  class Function<S> {
    const run: (S, nat) -> (S, Attempt)
    const start: S
    var state: S
    var attempts: seq<Attempt>

    constructor (run: (S, nat) -> (S, Attempt), start: S)
      ensures this.run == run && this.start == start && state == start && attempts == [] && Valid()
    {
      this.run, this.start, state, attempts := run, start, start, [];
    }

    /** The state and the outcomes are those of the calls made so far. */
    ghost predicate Valid()
      reads this
    {
      && state == StateAfter(run, start, |attempts|)
      && forall i :: 0 <= i < |attempts| ==> attempts[i] == AttemptAt(run, start, i)
    }

    method Call() returns (a: Attempt)
      requires Valid()
      modifies this
      ensures Valid() && attempts == old(attempts) + [a]
    {
      var result := run(state, |attempts|);
      state := result.0;
      a := result.1;
      attempts := attempts + [a];
    }
  }

  // ----- The retry loop -----

  /** The context is not done at the first `looks` looks at it. */
  predicate GoodUntil(cancelled: nat -> bool, looks: nat) {
    forall i: nat :: i < looks ==> !cancelled(i)
  }

  lemma GoodAgain(cancelled: nat -> bool, looks: nat)
    ensures GoodUntil(cancelled, looks + 1) <==> GoodUntil(cancelled, looks) && !cancelled(looks)
  {
  }

  /** No more than the configured attempts are made, each but the last failed in a way that may be
      retried, there is one wait of the due length between any two of them, and the result is success
      exactly when the last call succeeded. `cancelled` says whether the context is done at each look
      at it: before an attempt, and while waiting. */
  method WithRetry<S>(config: Config, fn: Function<S>, cancelled: nat -> bool)
    returns (outcome: Outcome, waits: seq<Duration>)
    requires fn.Valid() && fn.attempts == []
    modifies fn
    ensures fn.Valid()
    ensures var c, made := WithDefaults(config), |fn.attempts|;
            && made <= c.maxAttempts
            && (forall i :: 0 <= i < made - 1 ==> MayRetry(c, fn.attempts[i]))
            && (outcome == Success <==> made > 0 && fn.attempts[made - 1].Succeeds?)
            && (outcome.Exhausted? ==> made == c.maxAttempts && MayRetry(c, outcome.last))
            && (outcome.Gone? ==> !MayRetry(c, outcome.last) && outcome.last.Fails?)
            && (outcome.Exhausted? || outcome.Gone? ==> made > 0 && outcome.last == fn.attempts[made - 1])
            && |waits| <= made && (outcome != Cancelled ==> |waits| == made - 1)
            && AreDue(c, waits)
            && (outcome != Cancelled ==> GoodUntil(cancelled, made + |waits|))
            && (outcome == Cancelled ==>
                  || (GoodUntil(cancelled, made + |waits|) && cancelled(made + |waits|))
                  || (made > 0 && GoodUntil(cancelled, made + |waits| - 1) && cancelled(made + |waits| - 1)))
    ensures (forall i :: !cancelled(i)) ==> outcome != Cancelled && fn.attempts != []
  {
    assert GoodUntil(cancelled, 0);
    hide Grown, Backoff, StateAfter, AttemptAt, GoodUntil;
    var c := WithDefaults(config);
    var backoff := c.initialBackoff;
    BackoffUnfolds(c, 0);
    var attempt, looks := 1, 0;
    waits := [];
    while attempt <= c.maxAttempts
      invariant 1 <= attempt <= c.maxAttempts + 1
      invariant looks == |fn.attempts| + |waits|
      invariant GoodUntil(cancelled, looks)
      invariant fn.Valid() && |fn.attempts| == attempt - 1
      invariant forall i :: 0 <= i < |fn.attempts| ==> MayRetry(c, fn.attempts[i])
      invariant |waits| == if attempt <= c.maxAttempts then attempt - 1 else c.maxAttempts - 1
      invariant attempt <= c.maxAttempts ==> backoff == Backoff(c, attempt - 1)
      invariant AreDue(c, waits)
    {
      if cancelled(looks) { return Cancelled, waits; }
      GoodAgain(cancelled, looks);
      looks := looks + 1;
      var a := fn.Call();
      if a.Succeeds? { return Success, waits; }
      if a.uncertain { return Gone(a), waits; }
      if !c.retryAll && !a.retryable { return Gone(a), waits; }
      if attempt < c.maxAttempts {
        BackoffUnfolds(c, attempt - 1);
        waits := waits + [backoff];
        if cancelled(looks) { return Cancelled, waits; }
        GoodAgain(cancelled, looks);
        looks := looks + 1;
        backoff := Grown(c, backoff);
      }
      attempt := attempt + 1;
    }
    return Exhausted(fn.attempts[|fn.attempts| - 1]), waits;
  }
}
