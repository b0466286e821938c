/** The global connection limit under check-then-act: each accept loop loads the counter, and
    only later increments it. */
module AcceptLimit {

  /** `active` is the atomic counter; `passed` are the accept loops between a successful check
      and their increment. */
  datatype State = State(active: nat, passed: set<nat>)

  /** A loop checks the limit for a new connection, or counts one it let pass; a handler ends. */
  datatype Step = Check(loop: nat) | Count(loop: nat) | Finish

  const Start := State(0, {})

  function Next(s: State, step: Step, loops: nat, maxConns: int): State {
    match step
    case Check(i) =>
      if i < loops && i !in s.passed && !(maxConns > 0 && s.active >= maxConns)
      then s.(passed := s.passed + {i}) else s
    case Count(i) => if i in s.passed then State(s.active + 1, s.passed - {i}) else s
    case Finish => if s.active > 0 then s.(active := s.active - 1) else s
  }

  function Run(s: State, steps: seq<Step>, loops: nat, maxConns: int): State
    decreases |steps|
  {
    if steps == [] then s else Run(Next(s, steps[0], loops, maxConns), steps[1..], loops, maxConns)
  }

  ghost predicate Bounded(s: State, loops: nat, maxConns: int) {
    && (forall i | i in s.passed :: i < loops)
    && |s.passed| <= loops
    && (maxConns > 0 ==> s.active + |s.passed| <= maxConns + Over(loops))
  }

  /** How far `loops` loops can overshoot. */
  function Over(loops: nat): nat {
    if loops == 0 then 0 else loops - 1
  }

  lemma BelowSize(s: set<nat>, n: nat)
    requires forall i | i in s :: i < n
    ensures |s| <= n
  {
    if n == 0 {
      assert s == {};
    } else {
      BelowSize(s - {n - 1}, n - 1);
    }
  }

  lemma BoundedNext(s: State, step: Step, loops: nat, maxConns: int)
    requires Bounded(s, loops, maxConns)
    ensures Bounded(Next(s, step, loops, maxConns), loops, maxConns)
  {
    BelowSize(Next(s, step, loops, maxConns).passed, loops);
  }

  lemma {:induction false} BoundedRun(s: State, steps: seq<Step>, loops: nat, maxConns: int)
    requires Bounded(s, loops, maxConns)
    ensures Bounded(Run(s, steps, loops, maxConns), loops, maxConns)
    decreases |steps|
  {
    if steps != [] {
      BoundedNext(s, steps[0], loops, maxConns);
      BoundedRun(Next(s, steps[0], loops, maxConns), steps[1..], loops, maxConns);
    }
  }

  /** With `loops` accept loops and a positive limit, connections counted and about to be counted
      never exceed the limit by more than `loops - 1`: by one for the two listeners. */
  lemma OvershootBound(steps: seq<Step>, loops: nat, maxConns: int)
    requires loops >= 1 && maxConns >= 1
    ensures var s := Run(Start, steps, loops, maxConns); s.active + |s.passed| <= maxConns + loops - 1
  {
    BoundedRun(Start, steps, loops, maxConns);
  }

  /** A step that lets a connection in, or takes a finished one off the counter, at state `s`. */
  predicate Counts(s: State, step: Step) {
    step.Count? && step.loop in s.passed
  }

  predicate Finishes(s: State, step: Step) {
    step.Finish? && s.active > 0
  }

  function Admitted(s: State, steps: seq<Step>, loops: nat, maxConns: int): nat
    decreases |steps|
  {
    if steps == [] then 0
    else (if Counts(s, steps[0]) then 1 else 0) + Admitted(Next(s, steps[0], loops, maxConns), steps[1..], loops, maxConns)
  }

  function Finished(s: State, steps: seq<Step>, loops: nat, maxConns: int): nat
    decreases |steps|
  {
    if steps == [] then 0
    else (if Finishes(s, steps[0]) then 1 else 0) + Finished(Next(s, steps[0], loops, maxConns), steps[1..], loops, maxConns)
  }

  lemma {:induction false} ActiveFrom(s: State, steps: seq<Step>, loops: nat, maxConns: int)
    ensures Run(s, steps, loops, maxConns).active ==
            s.active + Admitted(s, steps, loops, maxConns) - Finished(s, steps, loops, maxConns)
    decreases |steps|
  {
    if steps != [] {
      ActiveFrom(Next(s, steps[0], loops, maxConns), steps[1..], loops, maxConns);
    }
  }

  /** On every run the counter is the number of connections let in less the number finished. */
  lemma ActiveCounts(steps: seq<Step>, loops: nat, maxConns: int)
    ensures Run(Start, steps, loops, maxConns).active ==
            Admitted(Start, steps, loops, maxConns) - Finished(Start, steps, loops, maxConns)
  {
    ActiveFrom(Start, steps, loops, maxConns);
  }

  lemma {:induction false} RunAppend(s: State, a: seq<Step>, b: seq<Step>, loops: nat, maxConns: int)
    ensures Run(s, a + b, loops, maxConns) == Run(Run(s, a, loops, maxConns), b, loops, maxConns)
    decreases |a|
  {
    if a == [] {
      assert a + b == b;
    } else {
      assert (a + b)[0] == a[0] && (a + b)[1..] == a[1..] + b;
      RunAppend(Next(s, a[0], loops, maxConns), a[1..], b, loops, maxConns);
    }
  }

  lemma RunOne(s: State, steps: seq<Step>, step: Step, loops: nat, maxConns: int)
    ensures Run(s, steps + [step], loops, maxConns) == Next(Run(s, steps, loops, maxConns), step, loops, maxConns)
  {
    RunAppend(s, steps, [step], loops, maxConns);
  }

  function Below(k: nat): (r: set<nat>)
    ensures forall i | i in r :: i < k
  {
    if k == 0 then {} else Below(k - 1) + {k - 1}
  }

  /** One loop alone can fill the server up to the limit. */
  lemma {:induction false} Fill(n: nat, loops: nat, maxConns: int) returns (steps: seq<Step>)
    requires n <= maxConns && loops >= 1
    ensures Run(Start, steps, loops, maxConns) == State(n, {})
  {
    if n == 0 {
      steps := [];
    } else {
      var before := Fill(n - 1, loops, maxConns);
      RunOne(Start, before, Check(0), loops, maxConns);
      RunOne(Start, before + [Check(0)], Count(0), loops, maxConns);
      steps := before + [Check(0)] + [Count(0)];
    }
  }

  /** While one slot is free every loop can pass its check. */
  lemma {:induction false} CheckAll(before: seq<Step>, k: nat, loops: nat, maxConns: int) returns (steps: seq<Step>)
    requires k <= loops
    requires var s := Run(Start, before, loops, maxConns); s.passed == {} && s.active < maxConns
    ensures Run(Start, steps, loops, maxConns) == State(Run(Start, before, loops, maxConns).active, Below(k))
  {
    if k == 0 {
      steps := before;
    } else {
      var most := CheckAll(before, k - 1, loops, maxConns);
      RunOne(Start, most, Check(k - 1), loops, maxConns);
      steps := most + [Check(k - 1)];
    }
  }

  /** And all of them then count their connection. */
  lemma {:induction false} CountAll(before: seq<Step>, k: nat, loops: nat, maxConns: int) returns (steps: seq<Step>)
    requires Run(Start, before, loops, maxConns).passed == Below(k)
    ensures Run(Start, steps, loops, maxConns) == State(Run(Start, before, loops, maxConns).active + k, {})
    decreases k
  {
    if k == 0 {
      steps := before;
    } else {
      RunOne(Start, before, Count(k - 1), loops, maxConns);
      assert Below(k) - {k - 1} == Below(k - 1);
      steps := CountAll(before + [Count(k - 1)], k - 1, loops, maxConns);
    }
  }

  /** The bound is exact: for every limit and every number of loops some run reaches it. So the
      limit itself is kept on all runs exactly when there is a single accept loop. */
  lemma OvershootHappens(loops: nat, maxConns: int) returns (steps: seq<Step>)
    requires loops >= 1 && maxConns >= 1
    ensures Run(Start, steps, loops, maxConns).active == maxConns + loops - 1
  {
    var full := Fill(maxConns - 1, loops, maxConns);
    var passed := CheckAll(full, loops, loops, maxConns);
    steps := CountAll(passed, loops, loops, maxConns);
  }

  /** A limit of zero or less is no limit. */
  lemma Unlimited(n: nat, maxConns: int) returns (steps: seq<Step>)
    requires maxConns <= 0
    ensures Run(Start, steps, 1, maxConns).active == n
  {
    steps := [];
    for i := 0 to n
      invariant Run(Start, steps, 1, maxConns) == State(i, {})
    {
      RunOne(Start, steps, Check(0), 1, maxConns);
      RunOne(Start, steps + [Check(0)], Count(0), 1, maxConns);
      steps := steps + [Check(0)] + [Count(0)];
    }
  }
}
