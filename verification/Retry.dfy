/** The bounded retry loops of the agent and of the Postgres repository. */
module Retry {
  import opened Wrappers

  const MAX_ATTEMPTS: nat := 4

  datatype Attempt<+E> = Succeeded | Failed(err: E, retriable: bool)

  /** What attempts k, k+1, ... do to a state; `pause(k)` is the error of the wait before attempt k, if any. */
  function RetryFrom<S, E>(op: (S, nat) -> (S, Attempt<E>), pause: nat -> Option<E>, s: S, k: nat): (S, Option<E>)
    requires k < MAX_ATTEMPTS
    decreases MAX_ATTEMPTS - k
  {
    if k > 0 && pause(k).Some? then (s, pause(k))
    else
      var (s', a) := op(s, k);
      if a.Succeeded? then (s', None)
      else if !a.retriable || k + 1 == MAX_ATTEMPTS then (s', Some(a.err))
      else RetryFrom(op, pause, s', k + 1)
  }

  method RunRetry<S, E>(op: (S, nat) -> (S, Attempt<E>), pause: nat -> Option<E>, start: S)
    returns (s: S, err: Option<E>)
    ensures (s, err) == RetryFrom(op, pause, start, 0)
  {
    s, err := start, None;
    var k := 0;
    while k < MAX_ATTEMPTS
      invariant k <= MAX_ATTEMPTS
      invariant k == 0 ==> err.None?
      invariant k < MAX_ATTEMPTS ==> RetryFrom(op, pause, start, 0) == RetryFrom(op, pause, s, k)
      invariant k == MAX_ATTEMPTS ==> RetryFrom(op, pause, start, 0) == (s, err)
    {
      if k > 0 && pause(k).Some? {
        return s, pause(k);
      }
      var (s', a) := op(s, k);
      s := s';
      if a.Succeeded? {
        return s, None;
      }
      err := Some(a.err);
      if !a.retriable {
        return;
      }
      k := k + 1;
    }
  }

  /** The state before attempt k, when attempts 0 to k - 1 have run. */
  function StateAt<S, E>(op: (S, nat) -> (S, Attempt<E>), s: S, k: nat): S {
    if k == 0 then s else op(StateAt(op, s, k - 1), k - 1).0
  }

  /**
   How attempt n - 1, the last one, ends the loop: success, an error returned at once or the fourth, or a failed
   pause.
   */
  ghost predicate EndsLoop<E>(last: Attempt<E>, n: nat, pause: nat -> Option<E>, err: Option<E>) {
    match last
    case Succeeded => err.None?
    case Failed(e, retriable) => if retriable && n < 4 then pause(n).Some? &&
        err == pause(n) else err == Some(e)
  }

  /**
   Some n attempts run, 1 <= n <= 4: all but the last fail with a retriable error and a pause that works, and
   the last ends the loop.
   */
  lemma {:induction false} RetryTrace<S, E>(op: (S, nat) -> (S, Attempt<E>), pause: nat -> Option<E>, s: S, k: nat)
    returns (n: nat)
    requires k < MAX_ATTEMPTS && (k > 0 ==> pause(k).None?)
    ensures k < n <= 4
    ensures forall j: nat :: k <= j < n - 1 ==>
      op(StateAt(op, s, j), j).1.Failed? && op(StateAt(op, s, j), j).1.retriable && pause(j + 1).None?
    ensures var (s', err) := RetryFrom(op, pause, StateAt(op, s, k), k);
            s' == StateAt(op, s, n) && EndsLoop(op(StateAt(op, s, n - 1), n - 1).1, n, pause, err)
    decreases MAX_ATTEMPTS - k
  {
    var a := op(StateAt(op, s, k), k).1;
    if a.Failed? && a.retriable && k + 1 < MAX_ATTEMPTS && pause(k + 1).None? {
      n := RetryTrace(op, pause, s, k + 1);
    } else {
      n := k + 1;
    }
  }

  function Times<S>(effect: S -> S, s: S, n: nat): S {
    if n == 0 then s else Times(effect, effect(s), n - 1)
  }

  /** Attempts either do nothing or the whole effect, and one that succeeds does the effect. */
  ghost predicate AllOrNothing<S(!new), E(!new)>(op: (S, nat) -> (S, Attempt<E>), effect: S -> S) {
    forall s, k :: (op(s, k).0 == s && op(s, k).1.Failed?) || op(s, k).0 == effect(s)
  }

  /** Attempts that fail have no effect at all. */
  ghost predicate FailuresAreClean<S(!new), E(!new)>(op: (S, nat) -> (S, Attempt<E>)) {
    forall s, k :: op(s, k).1.Failed? ==> op(s, k).0 == s
  }

  /** A retried operation ran its effect between 0 and 4 times, at least once when it reports success. */
  lemma {:induction false} RetryIterates<S(!new), E(!new)>(
      op: (S, nat) -> (S, Attempt<E>), effect: S -> S, pause: nat -> Option<E>, s: S, k: nat)
    returns (n: nat)
    requires k < MAX_ATTEMPTS && AllOrNothing(op, effect)
    ensures n <= MAX_ATTEMPTS - k
    ensures RetryFrom(op, pause, s, k).0 == Times(effect, s, n)
    ensures RetryFrom(op, pause, s, k).1.None? ==> n > 0
    decreases MAX_ATTEMPTS - k
  {
    if k > 0 && pause(k).Some? {
      return 0;
    }
    var (s', a) := op(s, k);
    var first := if s' == effect(s) && (a.Succeeded? || s' != s) then 1 else 0;
    assert s' == Times(effect, s, first) by {
      assert Times(effect, effect(s), 0) == effect(s);
    }
    if a.Succeeded? || !a.retriable || k + 1 == MAX_ATTEMPTS {
      n := first;
    } else {
      var rest := RetryIterates(op, effect, pause, s', k + 1);
      n := first + rest;
      assert first == 1 ==> Times(effect, s, 1 + rest) == Times(effect, effect(s), rest);
    }
  }

  /** With clean failures the effect runs exactly once on success and not at all on failure. */
  lemma {:induction false} RetryExactlyOnce<S(!new), E(!new)>(
      op: (S, nat) -> (S, Attempt<E>), effect: S -> S, pause: nat -> Option<E>, s: S, k: nat)
    requires k < MAX_ATTEMPTS && AllOrNothing(op, effect) && FailuresAreClean(op)
    ensures var (s', err) := RetryFrom(op, pause, s, k); s' == if err.None? then effect(s) else s
    decreases MAX_ATTEMPTS - k
  {
    if !(k > 0 && pause(k).Some?) {
      var (s', a) := op(s, k);
      if a.Failed? && a.retriable && k + 1 < MAX_ATTEMPTS {
        RetryExactlyOnce(op, effect, pause, s, k + 1);
      }
    }
  }

  // ---- Attempts that have their effect but report a failure ----

  /** How many of the attempts that run, from attempt k on, are `lost`. */
  function LostFrom<S, E>(op: (S, nat) -> (S, Attempt<E>), lost: (S, nat) -> bool, pause: nat -> Option<E>, s: S,
      k: nat): nat
    requires k < MAX_ATTEMPTS
    decreases MAX_ATTEMPTS - k
  {
    if k > 0 && pause(k).Some? then 0
    else
      var (s', a) := op(s, k);
      (if lost(s, k) then 1 else 0)
      + if a.Succeeded? || !a.retriable || k + 1 == MAX_ATTEMPTS then 0 else LostFrom(op, lost, pause, s', k + 1)
  }

  /** The lost attempts, and the success if there is one. */
  function EffectsFrom<S, E>(op: (S, nat) -> (S, Attempt<E>), lost: (S, nat) -> bool, pause: nat -> Option<E>, s: S,
      k: nat): nat
    requires k < MAX_ATTEMPTS
  {
    LostFrom(op, lost, pause, s, k) + if RetryFrom(op, pause, s, k).1.None? then 1 else 0
  }

  /** An attempt has the effect if it succeeds or is lost, which are different cases, and otherwise none. */
  ghost predicate LosesOnly<S(!new), E(!new)>(op: (S, nat) -> (S, Attempt<E>), lost: (S, nat) -> bool, effect: S -> S) {
    forall s, k ::
      && (op(s, k).1.Succeeded? ==> !lost(s, k))
      && op(s, k).0 == if op(s, k).1.Succeeded? || lost(s, k) then effect(s) else s
  }

  /** A retried operation has its effect once for the success it reports and once for every lost attempt. */
  lemma {:induction false} RetryEffects<S(!new), E(!new)>(
      op: (S, nat) -> (S, Attempt<E>), lost: (S, nat) -> bool, effect: S -> S, pause: nat -> Option<E>, s: S, k: nat)
    requires k < MAX_ATTEMPTS && LosesOnly(op, lost, effect)
    ensures EffectsFrom(op, lost, pause, s, k) <= MAX_ATTEMPTS - k
    ensures RetryFrom(op, pause, s, k).0 == Times(effect, s, EffectsFrom(op, lost, pause, s, k))
    decreases MAX_ATTEMPTS - k
  {
    if !(k > 0 && pause(k).Some?) {
      var (s', a) := op(s, k);
      assert Times(effect, effect(s), 0) == effect(s);
      if a.Failed? && a.retriable && k + 1 < MAX_ATTEMPTS {
        RetryEffects(op, lost, effect, pause, s', k + 1);
        var rest := EffectsFrom(op, lost, pause, s', k + 1);
        assert Times(effect, s, 1 + rest) == Times(effect, effect(s), rest);
      }
    }
  }

  /** x added up n times. */
  function Multiple(n: nat, x: int): int {
    if n == 0 then 0 else x + Multiple(n - 1, x)
  }

  lemma {:induction false} MultipleIs(n: nat, x: int)
    ensures Multiple(n, x) == n * x
  {
    if n > 0 {
      MultipleIs(n - 1, x);
      assert x + (n - 1) * x == n * x;
    }
  }

  lemma {:induction false} MultipleGrows(n: nat, x: int)
    requires n > 0
    ensures x > 0 ==> Multiple(n, x) >= x
    ensures x < 0 ==> Multiple(n, x) <= x
    ensures n > 1 && x > 0 ==> Multiple(n, x) > x
    ensures n > 1 && x < 0 ==> Multiple(n, x) < x
  {
    if n > 1 {
      MultipleGrows(n - 1, x);
    }
  }

  /** What each effect adds to a measure of the state adds up. */
  lemma {:induction false} RetryAdds<S(!new), E(!new)>(
      op: (S, nat) -> (S, Attempt<E>), lost: (S, nat) -> bool, measure: S -> int, d: int, pause: nat -> Option<E>,
          s: S, k: nat)
    requires k < MAX_ATTEMPTS
    requires forall s, k ::
      && (op(s, k).1.Succeeded? ==> !lost(s, k))
      && measure(op(s, k).0) == measure(s) + if op(s, k).1.Succeeded? || lost(s, k) then d else 0
    ensures measure(RetryFrom(op, pause, s, k).0) == measure(s) + Multiple(EffectsFrom(op, lost, pause, s, k), d)
    decreases MAX_ATTEMPTS - k
  {
    if !(k > 0 && pause(k).Some?) {
      var (s', a) := op(s, k);
      assert Multiple(1, d) == d + Multiple(0, d);
      if a.Failed? && a.retriable && k + 1 < MAX_ATTEMPTS {
        RetryAdds(op, lost, measure, d, pause, s', k + 1);
      }
    }
  }
}
