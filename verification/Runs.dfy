/** Runs of a deterministic state machine, and three facts about all of them: what every allowed
    step keeps holds throughout, a machine that starts over now and then is the one that never
    does since its last restart, and a cell of the state holds what last wrote it. */
module Runs {
  import opened Wrappers

  datatype Machine<!S, !O> = Machine(start: S, next: (S, O) -> S)

  /** The state after the operations from k up to n, from the start. */
  function After<S, O>(m: Machine<S, O>, ops: seq<O>, k: nat, n: nat): S
    requires k <= n <= |ops|
  {
    if n == k then m.start else m.next(After(m, ops, k, n - 1), ops[n - 1])
  }

  // -- Invariants ------------------------------------------------------------------------

  /** Each of the first n operations is allowed in the state it meets. */
  ghost predicate AllAllowed<S, O>(m: Machine<S, O>, allowed: (S, O) -> bool, ops: seq<O>, n: nat)
    requires n <= |ops|
  {
    forall i | 0 <= i < n :: allowed(After(m, ops, 0, i), ops[i])
  }

  lemma {:induction false} AllowedRunsKeep<S(!new), O(!new)>(m: Machine<S, O>, allowed: (S, O) -> bool,
      inv: S -> bool, ops: seq<O>, n: nat)
    requires n <= |ops| && AllAllowed(m, allowed, ops, n)
    requires inv(m.start)
    requires forall s, o | inv(s) && allowed(s, o) :: inv(m.next(s, o))
    ensures inv(After(m, ops, 0, n))
  {
    if n > 0 {
      AllowedRunsKeep(m, allowed, inv, ops, n - 1);
    }
  }

  ghost predicate Always<S, O>(m: Machine<S, O>, good: S -> bool, ops: seq<O>, n: nat)
    requires n <= |ops|
  {
    forall i | 0 <= i <= n :: good(After(m, ops, 0, i))
  }

  /** If allowed operations are exactly those that keep a state good, a run is good throughout if
      and only if all of it is allowed. */
  lemma {:induction false} AlwaysIffAllowed<S(!new), O(!new)>(m: Machine<S, O>, allowed: (S, O) -> bool,
      good: S -> bool, ops: seq<O>, n: nat)
    requires n <= |ops| && good(m.start)
    requires forall s, o | good(s) :: good(m.next(s, o)) <==> allowed(s, o)
    ensures Always(m, good, ops, n) <==> AllAllowed(m, allowed, ops, n)
  {
    if n > 0 {
      AlwaysIffAllowed(m, allowed, good, ops, n - 1);
      var before := After(m, ops, 0, n - 1);
      assert After(m, ops, 0, n) == m.next(before, ops[n - 1]);
      assert Always(m, good, ops, n) <==> Always(m, good, ops, n - 1) && good(m.next(before, ops[n - 1]));
      if Always(m, good, ops, n - 1) {
        assert good(before);
      }
    }
  }

  // -- Restarts --------------------------------------------------------------------------

  /** Operation i starts the machine over. */
  predicate RestartsAt<S, O>(m: Machine<S, O>, restarts: (S, O) -> bool, ops: seq<O>, i: nat)
    requires i < |ops|
  {
    restarts(After(m, ops, 0, i), ops[i])
  }

  /** The position of the last restart among the first n operations, or the beginning. */
  function LastRestart<S, O>(m: Machine<S, O>, restarts: (S, O) -> bool, ops: seq<O>, n: nat): (k: nat)
    requires n <= |ops|
    ensures k <= n
  {
    if n == 0 then 0
    else if RestartsAt(m, restarts, ops, n - 1) then n - 1
    else LastRestart(m, restarts, ops, n - 1)
  }

  /** It is a restart unless it is the beginning, and no restart comes after it. */
  lemma {:induction false} LastRestartIsLast<S, O>(m: Machine<S, O>, restarts: (S, O) -> bool,
      ops: seq<O>, n: nat)
    requires n <= |ops|
    ensures var k := LastRestart(m, restarts, ops, n);
            && (k > 0 ==> k < n && RestartsAt(m, restarts, ops, k))
            && forall i | k < i < n :: !RestartsAt(m, restarts, ops, i)
  {
    if n > 0 && !RestartsAt(m, restarts, ops, n - 1) {
      LastRestartIsLast(m, restarts, ops, n - 1);
    }
  }

  /** A machine that restarts is, at every moment, the machine that does not, over the operations
      from the last restart on. */
  lemma {:induction false} FreeSinceRestart<S(!new), O(!new)>(m: Machine<S, O>, restarts: (S, O) -> bool,
      free: (S, O) -> S, ops: seq<O>, n: nat)
    requires n <= |ops|
    requires forall s, o :: m.next(s, o) == free(if restarts(s, o) then m.start else s, o)
    ensures After(m, ops, 0, n) == After(Machine(m.start, free), ops, LastRestart(m, restarts, ops, n), n)
  {
    if n > 0 {
      if RestartsAt(m, restarts, ops, n - 1) {
        assert After(Machine(m.start, free), ops, n - 1, n - 1) == m.start;
      } else {
        FreeSinceRestart(m, restarts, free, ops, n - 1);
      }
    }
  }

  // -- Cells -----------------------------------------------------------------------------

  /** A part of the state that some operations write and the others leave alone. */
  datatype Cell<!S, !O, V> = Cell(of: S -> Option<V>, writes: (S, O) -> bool, written: O -> Option<V>)

  ghost predicate IsCellOf<S(!new), O(!new), V>(c: Cell<S, O, V>, m: Machine<S, O>) {
    && c.of(m.start) == None
    && forall s, o :: c.of(m.next(s, o)) == if c.writes(s, o) then c.written(o) else c.of(s)
  }

  predicate WritesAt<S, O, V>(c: Cell<S, O, V>, m: Machine<S, O>, ops: seq<O>, i: nat)
    requires i < |ops|
  {
    c.writes(After(m, ops, 0, i), ops[i])
  }

  /** Operation i wrote v, and nothing before n wrote the cell since. */
  ghost predicate WroteLast<S, O, V>(c: Cell<S, O, V>, m: Machine<S, O>, ops: seq<O>, n: nat, i: nat, v: V)
    requires i < n <= |ops|
  {
    && WritesAt(c, m, ops, i) && c.written(ops[i]) == Some(v)
    && forall j | i < j < n :: !WritesAt(c, m, ops, j)
  }

  ghost predicate SomeWroteLast<S, O, V>(c: Cell<S, O, V>, m: Machine<S, O>, ops: seq<O>, n: nat, v: V)
    requires n <= |ops|
  {
    exists i :: 0 <= i < n && WroteLast(c, m, ops, n, i, v)
  }

  /** The cell holds v if and only if an operation wrote v and no later one wrote the cell. */
  lemma {:induction false} HoldsIffWroteLast<S(!new), O(!new), V>(c: Cell<S, O, V>, m: Machine<S, O>,
      ops: seq<O>, n: nat, v: V)
    requires n <= |ops| && IsCellOf(c, m)
    ensures c.of(After(m, ops, 0, n)) == Some(v) <==> SomeWroteLast(c, m, ops, n, v)
  {
    if n > 0 {
      HoldsIffWroteLast(c, m, ops, n - 1, v);
      WroteLastStep(c, m, ops, n - 1, v);
    }
  }

  lemma WroteLastStep<S, O, V>(c: Cell<S, O, V>, m: Machine<S, O>, ops: seq<O>, n: nat, v: V)
    requires n < |ops|
    ensures SomeWroteLast(c, m, ops, n + 1, v) <==>
            if WritesAt(c, m, ops, n) then c.written(ops[n]) == Some(v) else SomeWroteLast(c, m, ops, n, v)
  {
    if SomeWroteLast(c, m, ops, n + 1, v) {
      var i :| 0 <= i < n + 1 && WroteLast(c, m, ops, n + 1, i, v);
      if i < n {
        assert WroteLast(c, m, ops, n, i, v);
      }
    }
    if WritesAt(c, m, ops, n) {
      if c.written(ops[n]) == Some(v) {
        assert WroteLast(c, m, ops, n + 1, n, v);
      }
    } else if SomeWroteLast(c, m, ops, n, v) {
      var i :| 0 <= i < n && WroteLast(c, m, ops, n, i, v);
      assert WroteLast(c, m, ops, n + 1, i, v);
    }
  }
}
