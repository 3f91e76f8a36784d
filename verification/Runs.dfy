/** Runs of a step function: the state after each prefix, and what a run of permitted steps can reach. */
module Runs {

  /** The state after the first `n` inputs. */
  function After<S, T>(step: (S, T) -> S, s: S, txs: seq<T>, n: nat): S
    requires n <= |txs|
  {
    if n == 0 then s else step(After(step, s, txs, n - 1), txs[n - 1])
  }

  lemma AfterNone<S, T>(step: (S, T) -> S, s: S, txs: seq<T>)
    ensures After(step, s, txs, 0) == s
  {
  }

  lemma AfterNext<S, T>(step: (S, T) -> S, s: S, txs: seq<T>, n: nat)
    requires n < |txs|
    ensures After(step, s, txs, n + 1) == step(After(step, s, txs, n), txs[n])
  {
  }

  lemma {:induction false} AfterAppend<S, T>(step: (S, T) -> S, s: S, xs: seq<T>, ys: seq<T>, n: nat)
    requires n <= |xs| + |ys|
    ensures After(step, s, xs + ys, n) ==
      if n <= |xs| then After(step, s, xs, n) else After(step, After(step, s, xs, |xs|), ys, n - |xs|)
  {
    if n > 0 {
      AfterAppend(step, s, xs, ys, n - 1);
    }
  }

  /** Every step of `txs` is permitted in the state that it finds. */
  ghost predicate Permitted<S, T>(step: (S, T) -> S, ok: (S, T) -> bool, s: S, txs: seq<T>) {
    forall i :: 0 <= i < |txs| ==> ok(After(step, s, txs, i), txs[i])
  }

  /** Some run of permitted steps goes from `s` to `t`. */
  ghost predicate Leads<S, T(!new)>(step: (S, T) -> S, ok: (S, T) -> bool, s: S, t: S) {
    exists txs :: Permitted(step, ok, s, txs) && After(step, s, txs, |txs|) == t
  }

  lemma LeadsReflexive<S, T(!new)>(step: (S, T) -> S, ok: (S, T) -> bool, s: S)
    ensures Leads(step, ok, s, s)
  {
    assert Permitted(step, ok, s, []) && After(step, s, [], 0) == s;
  }

  lemma LeadsInOne<S, T(!new)>(step: (S, T) -> S, ok: (S, T) -> bool, s: S, tx: T)
    requires ok(s, tx)
    ensures Leads(step, ok, s, step(s, tx))
  {
    assert After(step, s, [tx], 0) == s;
    assert Permitted(step, ok, s, [tx]) && After(step, s, [tx], 1) == step(s, tx);
  }

  lemma LeadsTransitive<S, T(!new)>(step: (S, T) -> S, ok: (S, T) -> bool, s: S, t: S, u: S)
    requires Leads(step, ok, s, t) && Leads(step, ok, t, u)
    ensures Leads(step, ok, s, u)
  {
    hide After;
    var xs :| Permitted(step, ok, s, xs) && After(step, s, xs, |xs|) == t;
    var ys :| Permitted(step, ok, t, ys) && After(step, t, ys, |ys|) == u;
    AfterNone(step, t, ys);
    forall i | 0 <= i < |xs + ys|
      ensures ok(After(step, s, xs + ys, i), (xs + ys)[i])
    {
      AfterAppend(step, s, xs, ys, i);
      if i < |xs| {
        assert (xs + ys)[i] == xs[i];
      } else {
        assert (xs + ys)[i] == ys[i - |xs|];
      }
    }
    AfterAppend(step, s, xs, ys, |xs + ys|);
    assert Permitted(step, ok, s, xs + ys);
  }

  /** Among the first `n` steps some step was `on`, and no step after it was `off`. */
  ghost predicate Since<S, T>(step: (S, T) -> S, s: S, txs: seq<T>, n: nat, on: (S, T) -> bool, off: (S, T) -> bool)
    requires n <= |txs|
  {
    exists i: nat ::
      && i < n && on(After(step, s, txs, i), txs[i])
      && forall j: nat :: i < j < n ==> !off(After(step, s, txs, j), txs[j])
  }

  lemma SinceNone<S, T>(step: (S, T) -> S, s: S, txs: seq<T>, on: (S, T) -> bool, off: (S, T) -> bool)
    ensures !Since(step, s, txs, 0, on, off)
  {
  }

  lemma SinceStep<S, T>(step: (S, T) -> S, s: S, txs: seq<T>, m: nat, on: (S, T) -> bool, off: (S, T) -> bool)
    requires m < |txs|
    ensures Since(step, s, txs, m + 1, on, off) <==>
      || on(After(step, s, txs, m), txs[m])
      || (Since(step, s, txs, m, on, off) && !off(After(step, s, txs, m), txs[m]))
  {
    hide After;
    if i: nat :|
      && i < m + 1 && on(After(step, s, txs, i), txs[i])
      && forall j: nat :: i < j < m + 1 ==> !off(After(step, s, txs, j), txs[j])
    {
      assert i < m ==> Since(step, s, txs, m, on, off);
    }
  }

  /** A property that only `on` steps bring about and only `off` steps end holds exactly since its last `on` step. */
  lemma {:induction false} HoldsSince<S, T>(step: (S, T) -> S, s: S, txs: seq<T>, n: nat,
                                           holds: S -> bool, on: (S, T) -> bool, off: (S, T) -> bool)
    requires n <= |txs| && !holds(s)
    requires forall m: nat :: m < n ==>
      (var t := After(step, s, txs, m);
       holds(step(t, txs[m])) <==> on(t, txs[m]) || (holds(t) && !off(t, txs[m])))
    ensures holds(After(step, s, txs, n)) <==> Since(step, s, txs, n, on, off)
  {
    hide Since, After;
    if n == 0 {
      AfterNone(step, s, txs);
      SinceNone(step, s, txs, on, off);
    } else {
      AfterNext(step, s, txs, n - 1);
      HoldsSince(step, s, txs, n - 1, holds, on, off);
      SinceStep(step, s, txs, n - 1, on, off);
    }
  }
}
