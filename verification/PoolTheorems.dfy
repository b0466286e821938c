/** The pool's guarantees over every run, and the runs on which a guarantee one
    might expect does not hold. */
module PoolTheorems {
  import opened PoolCore
  import opened PoolMachine
  import opened PoolInvariants
  import C = PoolCore

  lemma {:induction false} RunAppend(cfg: Config, p: Pool, a: seq<Action>, b: seq<Action>)
    ensures Run(cfg, p, a + b) == Run(cfg, Run(cfg, p, a), b)
    decreases |a|
  {
    if a == [] {
      assert a + b == b;
    } else {
      assert (a + b)[0] == a[0] && (a + b)[1..] == a[1..] + b;
      RunAppend(cfg, Next(cfg, p, a[0]), a[1..], b);
    }
  }

  // ---- Exclusive ownership ----

  /** No connection is twice in the idle list, idle and active, idle and held, or held twice. */
  lemma ExclusiveOwnership(cfg: Config, actions: seq<Action>)
    ensures var p := Reach(cfg, actions);
            && NoDup(p.core.idle)
            && (forall h | h in p.core.idle :: h !in p.core.active)
            && (forall t | t in p.hands :: p.hands[t] !in p.core.idle)
            && (forall t, u | t in p.hands && u in p.hands && t != u :: p.hands[t] != p.hands[u])
  {
    InvReach(cfg, actions);
  }

  // ---- Conservation ----

  function Counted(p: Pool): int {
    |p.core.idle| + |p.core.active| + |p.dialing| + |p.unpublished| + p.abandoned
  }

  /** `total` counts what it should exactly when no connection was returned after a forced
      drain had removed it; each such return costs one. */
  lemma Conservation(cfg: Config, actions: seq<Action>)
    ensures var p := Reach(cfg, actions);
            && p.core.total == Counted(p) - p.staleReturns
            && (p.core.total == Counted(p) <==> p.staleReturns == 0)
            && p.abandoned <= 1 && (p.abandoned == 1 ==> p.core.closed)
            && p.core.waiting == |p.pausing| + |p.parked|
  {
    InvReach(cfg, actions);
  }

  predicate Forced(actions: seq<Action>) {
    exists i :: 0 <= i < |actions| && actions[i].DrainForce?
  }

  lemma ForcedAppend(a: seq<Action>, b: seq<Action>)
    ensures Forced(a + b) <==> Forced(a) || Forced(b)
  {
    if i :| 0 <= i < |a| && a[i].DrainForce? {
      assert (a + b)[i] == a[i];
    }
    if i :| 0 <= i < |b| && b[i].DrainForce? {
      assert (a + b)[|a| + i] == b[i];
    }
  }

  /** No connection is out that a forced drain has removed. */
  ghost predicate AllActive(p: Pool) {
    p.staleReturns == 0 && Registered(p.hands, p.unpublished, p.core.active)
  }

  ghost predicate Registered(hands: Hands, unpublished: set<Tid>, active: set<Handle>) {
    forall t | t in hands && t !in unpublished :: hands[t] in active
  }

  lemma AllActiveAcquire(cfg: Config, p: Pool, t: Tid, dead: set<Handle>)
    requires NoDup(p.core.idle) && SortedByUse(p.core.idle, p.core.conns) && AllActive(p)
    ensures AllActive(StepAcquire(cfg, p, t, dead))
  {
    if !p.core.closed {
      AcquireSplits(cfg, p, t, dead);
    }
  }

  lemma AllActiveReturn(cfg: Config, p: Pool, t: Tid)
    requires Own(p) && AllActive(p) && t in p.hands && t !in p.unpublished
    ensures AllActive(StepReturn(cfg, p, t))
  {
  }

  lemma AllActiveOther(cfg: Config, p: Pool, a: Action)
    requires AllActive(p) && !a.Acquire? && !a.Wake? && !a.Return? && !a.DrainForce?
    ensures AllActive(Next(cfg, p, a))
  {
  }

  lemma AllActiveNext(cfg: Config, p: Pool, a: Action)
    requires Own(p) && SortedByUse(p.core.idle, p.core.conns) && AllActive(p) && !a.DrainForce?
    ensures AllActive(Next(cfg, p, a))
  {
    match a
    case Acquire(t, dead) => AllActiveAcquire(cfg, p, t, dead);
    case Wake(t, dead) => AllActiveAcquire(cfg, StepWakeLate(p, t), t, dead);
    case Return(t) => if t in p.hands && t !in p.unpublished { AllActiveReturn(cfg, p, t); }
    case _ => AllActiveOther(cfg, p, a);
  }

  lemma {:induction false} AllActiveRun(cfg: Config, p: Pool, actions: seq<Action>)
    requires Inv(cfg, p) && AllActive(p) && !Forced(actions)
    ensures AllActive(Run(cfg, p, actions))
    decreases |actions|
  {
    if actions != [] {
      AllActiveNext(cfg, p, actions[0]);
      InvNext(cfg, p, actions[0]);
      assert forall i | 0 <= i < |actions[1..]| :: actions[1..][i] == actions[i + 1];
      AllActiveRun(cfg, Next(cfg, p, actions[0]), actions[1..]);
    }
  }

  /** Without a forced drain the count is exact on every run. */
  lemma ConservationUnforced(cfg: Config, actions: seq<Action>)
    requires !Forced(actions)
    ensures var p := Reach(cfg, actions); p.core.total == Counted(p)
  {
    AllActiveRun(cfg, Init(cfg), actions);
    Conservation(cfg, actions);
  }

  // ---- Capacity ----

  function OpenSockets(p: Pool): set<Handle> {
    set h | h in p.core.conns && p.core.conns[h].open
  }

  function Grip(hands: map<Tid, Handle>, ts: set<Tid>): set<Handle> {
    set t | t in ts && t in hands :: hands[t]
  }

  lemma SubsetSize<T>(a: set<T>, b: set<T>)
    requires a <= b
    ensures |a| <= |b|
  {
    assert b == a + (b - a);
  }

  lemma {:induction false} ElemsExact<H>(s: seq<H>)
    requires NoDup(s)
    ensures |Elems(s)| == |s|
    decreases |s|
  {
    if s != [] {
      ElemsExact(s[1..]);
      assert s[0] !in s[1..];
      assert Elems(s) == {s[0]} + Elems(s[1..]);
    }
  }

  lemma {:induction false} GripExact(hands: Hands, ts: set<Tid>)
    requires forall t | t in ts :: t in hands
    requires forall t, u | t in hands && u in hands && hands[t] == hands[u] :: t == u
    ensures |Grip(hands, ts)| == |ts|
    decreases |ts|
  {
    if ts != {} {
      var t :| t in ts;
      var rest := Grip(hands, ts - {t});
      GripExact(hands, ts - {t});
      assert hands[t] !in rest;
      assert Grip(hands, ts) == rest + {hands[t]};
    }
  }

  /** The connections `total` should count: idle, active or just dialled. */
  function Tracked(p: Pool): set<Handle> {
    Elems(p.core.idle) + p.core.active + Grip(p.hands, p.unpublished)
  }

  lemma TrackedSize(p: Pool)
    requires Own(p)
    ensures |Tracked(p)| == |p.core.idle| + |p.core.active| + |p.unpublished|
  {
    ElemsExact(p.core.idle);
    GripExact(p.hands, p.unpublished);
    var idle, dialled := Elems(p.core.idle), Grip(p.hands, p.unpublished);
    assert |idle + p.core.active| == |idle| + |p.core.active| by {
      assert idle !! p.core.active;
    }
    assert (idle + p.core.active) !! dialled;
  }

  /** Stale connections the pool still counts as usable: idle, or active and held. */
  function Dead(p: Pool): set<Handle> {
    set h | h in p.stale && (h in p.core.idle || (h in p.core.active && h !in p.leaked))
  }

  /** A tracked connection is open, or leaked, or stale. */
  lemma TrackedParts(p: Pool)
    requires Own(p) && Live(p)
    ensures Tracked(p) == OpenSockets(p) + p.leaked + Dead(p)
    ensures OpenSockets(p) !! p.leaked && (OpenSockets(p) + p.leaked) !! Dead(p)
  {
    forall h | h in OpenSockets(p)
      ensures h in Tracked(p)
    {
      if h !in p.core.idle && h !in p.core.active {
        var t :| t in p.unpublished && t in p.hands && p.hands[t] == h;
      }
    }
    forall h | h in Tracked(p) && h !in OpenSockets(p)
      ensures h in p.leaked || h in Dead(p)
    {
      if h in p.core.active && h !in p.leaked {
        var t :| t in p.hands && t !in p.unpublished && p.hands[t] == h;
      }
    }
  }

  /** The exact account of `total`, on every run: open sockets, dials in flight, connections
      closed by their holders, stale connections, abandoned reservations, less the stale returns. */
  lemma Account(cfg: Config, actions: seq<Action>)
    ensures var p := Reach(cfg, actions);
            p.core.total + p.staleReturns ==
            |OpenSockets(p)| + |p.dialing| + |p.leaked| + |Dead(p)| + p.abandoned
  {
    var p := Reach(cfg, actions);
    InvReach(cfg, actions);
    TrackedSize(p);
    TrackedParts(p);
    assert |OpenSockets(p) + p.leaked| == |OpenSockets(p)| + |p.leaked|;
  }

  /** So without stale returns `total` counts only live connections and dials if and only if no
      holder closed its connection and no reservation was abandoned. */
  lemma AccountIff(cfg: Config, actions: seq<Action>)
    requires Reach(cfg, actions).staleReturns == 0
    ensures var p := Reach(cfg, actions);
            && p.core.total == |OpenSockets(p)| + |p.dialing| + |p.leaked| + p.abandoned
            && (p.core.total == |OpenSockets(p)| + |p.dialing| <==> p.leaked == {} && p.abandoned == 0)
  {
    Account(cfg, actions);
    InvReach(cfg, actions);
    assert Dead(Reach(cfg, actions)) == {};
  }

  /** `total` never passes the larger of the two configured limits, and open sockets plus
      dials in flight pass it by at most the number of stale returns. */
  lemma CapacityBound(cfg: Config, actions: seq<Action>)
    ensures var p := Reach(cfg, actions);
            && 0 <= p.core.total + p.staleReturns && p.core.total <= Capacity(cfg)
            && |OpenSockets(p)| + |p.dialing| <= Capacity(cfg) + p.staleReturns
  {
    InvReach(cfg, actions);
    Account(cfg, actions);
  }

  // ---- Waiting ----

  /** `exhausted` goes up by one exactly if the step is that of a thread that begins to wait. */
  ghost predicate CountsExhaustion(p: Pool, q: Pool, a: Action) {
    q.core.exhausted == p.core.exhausted +
    if (a.Acquire? || a.Wake?) && a.t in q.pausing && a.t !in p.pausing then 1 else 0
  }

  lemma ExhaustedSettle(cfg: Config, p: Pool, t: Tid, dead: set<Handle>)
    requires NoDup(p.core.idle) && SortedByUse(p.core.idle, p.core.conns) && !p.core.closed && t !in p.pausing
    ensures var q := StepAcquire(cfg, p, t, dead);
            q.core.exhausted == p.core.exhausted + if t in q.pausing then 1 else 0
  {
    AcquireSplits(cfg, p, t, dead);
  }

  lemma ExhaustedAcquire(cfg: Config, p: Pool, t: Tid, dead: set<Handle>)
    requires NoDup(p.core.idle) && SortedByUse(p.core.idle, p.core.conns)
    ensures CountsExhaustion(p, Next(cfg, p, Acquire(t, dead)), Acquire(t, dead))
  {
    if Free(p, t) && !p.core.closed {
      ExhaustedSettle(cfg, p, t, dead);
    }
  }

  lemma ExhaustedWake(cfg: Config, p: Pool, t: Tid, dead: set<Handle>)
    requires NoDup(p.core.idle) && SortedByUse(p.core.idle, p.core.conns) && (t in p.parked ==> t !in p.pausing)
    ensures CountsExhaustion(p, Next(cfg, p, Wake(t, dead)), Wake(t, dead))
  {
    if t in p.parked && !p.core.closed {
      ExhaustedSettle(cfg, StepWakeLate(p, t), t, dead);
    }
  }

  lemma ExhaustedOther(cfg: Config, p: Pool, a: Action)
    requires !a.Acquire? && !a.Wake?
    ensures CountsExhaustion(p, Next(cfg, p, a), a)
  {
  }

  /** `exhausted` counts how often a thread found no connection and had to wait. */
  lemma ExhaustedCounts(cfg: Config, p: Pool, a: Action)
    requires Inv(cfg, p)
    ensures CountsExhaustion(p, Next(cfg, p, a), a)
  {
    match a
    case Acquire(t, dead) => ExhaustedAcquire(cfg, p, t, dead);
    case Wake(t, dead) => ExhaustedWake(cfg, p, t, dead);
    case _ => ExhaustedOther(cfg, p, a);
  }

  // ---- Reaping ----

  predicate TimedOut(cfg: Config, p: Pool, i: int)
    requires 0 <= i < |p.core.idle|
  {
    p.core.idle[i] in p.core.conns && p.core.conns[p.core.idle[i]].IsIdle(cfg.idleTimeout, p.now)
  }

  /** If exactly the first `m` are reaped, the rest is kept in order. */
  lemma {:induction false} KeptSuffix(cfg: Config, c: Core<Handle>, m: nat, n: nat, now: int)
    requires m <= n <= |c.idle|
    requires forall i | 0 <= i < |c.idle| :: Reaps(cfg, c, i, now) <==> i < m
    ensures Kept(cfg, c, n, now) == c.idle[m..n]
    decreases n
  {
    if n > m {
      KeptSuffix(cfg, c, m, n - 1, now);
      assert c.idle[m..n] == c.idle[m..n - 1] + [c.idle[n - 1]];
    } else if n > 0 {
      KeptNone(cfg, c, n, now);
    }
  }

  lemma {:induction false} KeptNone(cfg: Config, c: Core<Handle>, n: nat, now: int)
    requires n <= |c.idle| && forall i | 0 <= i < n :: Reaps(cfg, c, i, now)
    ensures Kept(cfg, c, n, now) == []
    decreases n
  {
    if n > 0 {
      KeptNone(cfg, c, n - 1, now);
    }
  }

  /** The first position the reaper keeps. */
  function FirstKept(cfg: Config, c: Core<Handle>, from: nat, now: int): (m: nat)
    requires from <= |c.idle|
    ensures from <= m <= |c.idle|
    ensures forall i | from <= i < m :: Reaps(cfg, c, i, now)
    ensures m < |c.idle| ==> !Reaps(cfg, c, m, now)
    decreases |c.idle| - from
  {
    if from == |c.idle| || !Reaps(cfg, c, from, now) then from else FirstKept(cfg, c, from + 1, now)
  }

  /** Among idle connections ordered by last use, the reaper's test holds of a prefix. */
  lemma ReapsIsPrefix(cfg: Config, c: Core<Handle>, m: nat, i: nat, now: int)
    requires cfg.maxLifetime <= 0 && IdleOk(c.idle, c.active, c.conns) && SortedByUse(c.idle, c.conns)
    requires m <= i < |c.idle| && !Reaps(cfg, c, m, now)
    ensures !Reaps(cfg, c, i, now)
  {
    assert m < i ==> c.conns[c.idle[m]].lastUsed <= c.conns[c.idle[i]].lastUsed;
  }

  lemma ReapPrefix(cfg: Config, c: Core<Handle>, m: nat, now: int)
    requires m <= |c.idle| && |c.idle| > cfg.minConns
    requires forall i | 0 <= i < |c.idle| :: Reaps(cfg, c, i, now) <==> i < m
    ensures C.Reap(cfg, c, now) ==
            c.(idle := c.idle[m..], total := c.total - m, conns := CloseAll(c.conns, Elems(c.idle[..m])))
  {
    KeptSuffix(cfg, c, m, |c.idle|, now);
    assert c.idle[m..|c.idle|] == c.idle[m..];
    assert Doomed(cfg, c, |c.idle|, now) == Elems(c.idle[..m]);
  }

  /** One sweep over idle connections ordered by last use. */
  lemma SweepRemovesPrefix(cfg: Config, c: Core<Handle>, now: int) returns (m: nat)
    requires cfg.maxLifetime <= 0 && IdleOk(c.idle, c.active, c.conns) && SortedByUse(c.idle, c.conns)
    ensures m <= |c.idle| && m <= Max(0, |c.idle| - cfg.minConns)
    ensures forall i | 0 <= i < m :: c.idle[i] in c.conns && c.conns[c.idle[i]].IsIdle(cfg.idleTimeout, now)
    ensures m < |c.idle| && m < |c.idle| - cfg.minConns ==>
              !(c.idle[m] in c.conns && c.conns[c.idle[m]].IsIdle(cfg.idleTimeout, now))
    ensures C.Reap(cfg, c, now) ==
            c.(idle := c.idle[m..], total := c.total - m, conns := CloseAll(c.conns, Elems(c.idle[..m])))
  {
    if |c.idle| <= cfg.minConns {
      assert Elems(c.idle[..0]) == {} && CloseAll(c.conns, {}) == c.conns && c.idle[0..] == c.idle;
      return 0;
    }
    m := FirstKept(cfg, c, 0, now);
    forall i: nat | m <= i < |c.idle|
      ensures !Reaps(cfg, c, i, now)
    {
      ReapsIsPrefix(cfg, c, m, i, now);
    }
    ReapPrefix(cfg, c, m, now);
    assert m > 0 ==> Reaps(cfg, c, m - 1, now);
  }

  /** A sweep of the reaper removes exactly the longest timed-out prefix of the idle list that
      leaves `minConns` connections, closes it, and uncounts as many. */
  ghost predicate SweepsPrefix(cfg: Config, p: Pool, m: nat) {
    var c := p.core;
    && m <= |c.idle| && m <= Max(0, |c.idle| - cfg.minConns)
    && (forall i | 0 <= i < m :: TimedOut(cfg, p, i))
    && (m < |c.idle| && m < |c.idle| - cfg.minConns ==> !TimedOut(cfg, p, m))
    && Next(cfg, p, Reap) ==
       p.(core := c.(idle := c.idle[m..], total := c.total - m, conns := CloseAll(c.conns, Elems(c.idle[..m]))))
  }

  lemma SweepOf(cfg: Config, p: Pool) returns (m: nat)
    requires cfg.maxLifetime <= 0 && IdleOk(p.core.idle, p.core.active, p.core.conns)
    requires SortedByUse(p.core.idle, p.core.conns)
    ensures SweepsPrefix(cfg, p, m)
  {
    m := SweepRemovesPrefix(cfg, p.core, p.now);
  }

  /** So does every sweep on every run, with lifetime expiry off. */
  lemma ReapRemovesTimedOutPrefix(cfg: Config, actions: seq<Action>) returns (m: nat)
    requires cfg.maxLifetime <= 0
    ensures SweepsPrefix(cfg, Reach(cfg, actions), m)
  {
    IdleReach(cfg, actions);
    m := SweepOf(cfg, Reach(cfg, actions));
  }

  // ---- Close is final ----

  /** On a closed pool the idle list only shrinks, and a thread that has a connection has had
      that one all along, or had its dial in flight at the close. */
  ghost predicate Winding(p: Pool, q: Pool) {
    && p.core.closed && q.core.closed
    && (forall h | h in q.core.idle :: h in p.core.idle)
    && (forall t | t in q.hands :: (t in p.hands && q.hands[t] == p.hands[t]) || t in p.dialing)
    && (forall t | t in q.dialing :: t in p.dialing)
  }

  lemma WindingReap(cfg: Config, p: Pool)
    requires p.core.closed
    ensures Winding(p, Next(cfg, p, Reap))
  {
    KeptMeans(cfg, p.core, |p.core.idle|, p.now);
  }

  lemma WindingDialled(cfg: Config, p: Pool, t: Tid, h: Handle, auth: bool)
    requires p.core.closed
    ensures Winding(p, Next(cfg, p, Dialled(t, h, auth)))
  {
  }

  lemma WindingOther(cfg: Config, p: Pool, a: Action)
    requires p.core.closed && !a.Reap? && !a.Dialled?
    ensures Winding(p, Next(cfg, p, a))
  {
  }

  lemma WindingNext(cfg: Config, p: Pool, a: Action)
    requires p.core.closed
    ensures Winding(p, Next(cfg, p, a))
  {
    match a
    case Reap => WindingReap(cfg, p);
    case Dialled(t, h, auth) => WindingDialled(cfg, p, t, h, auth);
    case _ => WindingOther(cfg, p, a);
  }

  lemma {:induction false} WindingRun(cfg: Config, p: Pool, actions: seq<Action>)
    requires p.core.closed
    ensures Winding(p, Run(cfg, p, actions))
    decreases |actions|
  {
    if actions != [] {
      WindingNext(cfg, p, actions[0]);
      WindingRun(cfg, Next(cfg, p, actions[0]), actions[1..]);
    }
  }

  /** A return on a closed pool. */
  lemma ReturnCloses(cfg: Config, q: Pool, t: Tid)
    requires q.core.closed && t in q.hands && t !in q.unpublished && q.hands[t] in q.core.conns
    ensures var r := Next(cfg, q, Return(t));
            r.core.idle == q.core.idle && q.hands[t] in r.core.conns && !r.core.conns[q.hands[t]].open
  {
  }

  /** Once the pool is closed: an empty idle list stays empty, a thread that has a connection has
      had that one all along or had its dial in flight at the close, and every return closes its
      connection. */
  lemma CloseIsFinal(cfg: Config, before: seq<Action>, after: seq<Action>)
    requires Reach(cfg, before).core.closed
    ensures var p, q := Reach(cfg, before), Reach(cfg, before + after);
            && (p.core.idle == [] ==> q.core.idle == [])
            && (forall t | t in q.hands :: (t in p.hands && q.hands[t] == p.hands[t]) || t in p.dialing)
            && (forall t | t in q.dialing :: t in p.dialing)
            && forall t | t in q.hands && t !in q.unpublished ::
                 var r := Next(cfg, q, Return(t));
                 && r.core.idle == q.core.idle
                 && q.hands[t] in r.core.conns && !r.core.conns[q.hands[t]].open
  {
    var p := Reach(cfg, before);
    RunAppend(cfg, Init(cfg), before, after);
    WindingRun(cfg, p, after);
    InvReach(cfg, before + after);
    var q := Reach(cfg, before + after);
    assert q.core.idle != [] ==> q.core.idle[0] in p.core.idle;
    forall t | t in q.hands && t !in q.unpublished
      ensures var r := Next(cfg, q, Return(t));
              r.core.idle == q.core.idle && q.hands[t] in r.core.conns && !r.core.conns[q.hands[t]].open
    {
      ReturnCloses(cfg, q, t);
    }
  }

  // ---- Closing a handle instead of returning it ----

  lemma LeakGrows(cfg: Config, p: Pool, a: Action)
    requires !a.DrainForce?
    ensures p.leaked <= Next(cfg, p, a).leaked
  {
  }

  lemma {:induction false} LeakStays(cfg: Config, p: Pool, actions: seq<Action>)
    requires !Forced(actions)
    ensures p.leaked <= Run(cfg, p, actions).leaked
    decreases |actions|
  {
    if actions != [] {
      LeakGrows(cfg, p, actions[0]);
      assert forall i | 0 <= i < |actions[1..]| :: actions[1..][i] == actions[i + 1];
      LeakStays(cfg, Next(cfg, p, actions[0]), actions[1..]);
    }
  }

  /** `PooledConn.Close` leaves the connection registered: once as many connections as the
      pool may count have been closed by their holders instead of returned, no thread ever
      gets a connection again, on any continuation without a forced drain. */
  lemma LeakIsFatal(cfg: Config, before: seq<Action>, after: seq<Action>)
    requires !Forced(before + after)
    requires |Reach(cfg, before).leaked| >= Capacity(cfg)
    ensures var q := Reach(cfg, before + after);
            q.hands == map[] && q.core.idle == [] && q.dialing == {} && q.core.total == Capacity(cfg)
  {
    var p, q := Reach(cfg, before), Reach(cfg, before + after);
    RunAppend(cfg, Init(cfg), before, after);
    assert forall i | 0 <= i < |after| :: after[i] == (before + after)[|before| + i];
    LeakStays(cfg, p, after);
    InvReach(cfg, before + after);
    AllActiveRun(cfg, Init(cfg), before + after);
    SubsetSize(p.leaked, q.leaked);
    SubsetSize(q.leaked, q.core.active);
    assert q.core.active == q.leaked by {
      SubsetSize(q.leaked, q.core.active);
      assert |q.core.active - q.leaked| == |q.core.active| - |q.leaked|;
    }
    assert forall t :: t !in q.hands;
  }

  // ---- Live connections ----

  /** On every run: a connection that is idle, or handed out and still registered, is open if and
      only if it was never returned after a forced drain had removed it. A connection just dialled
      is open. */
  lemma LiveConnections(cfg: Config, actions: seq<Action>)
    ensures var p := Reach(cfg, actions);
            && (forall h | h in p.core.idle :: h in p.core.conns && (p.core.conns[h].open <==> h !in p.stale))
            && (forall t | t in p.hands && p.hands[t] in p.core.active ::
                  p.hands[t] in p.core.conns && (p.core.conns[p.hands[t]].open <==> p.hands[t] !in p.stale))
            && (forall t | t in p.unpublished ::
                  t in p.hands && p.hands[t] in p.core.conns && p.core.conns[p.hands[t]].open)
            && (p.stale == {} <==> p.staleReturns == 0)
  {
    InvReach(cfg, actions);
  }
}
