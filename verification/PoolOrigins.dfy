/** Where connections come from in one pool step that is not a holder's return or close. */
module PoolOrigins {
  import opened PoolCore
  import opened PoolMachine
  import opened PoolInvariants
  import C = PoolCore

  predicate Inner(a: Action) {
    !a.Return? && !a.CloseHandle?
  }

  predicate NewConn(p: Pool, a: Action) {
    a.Dialled? && a.t in p.dialing && a.handle !in p.core.conns
  }

  /** Connections in use stay in the same hands, and idle threads stay idle unless they acquire. */
  ghost predicate Undisturbed(p: Pool, q: Pool, a: Action) {
    && (forall u | u in p.hands && u !in p.unpublished ::
          u in q.hands && q.hands[u] == p.hands[u] && u !in q.unpublished)
    && (forall u | Free(p, u) && !(a.Acquire? && a.t == u) :: Free(q, u))
    && (forall h :: h in q.core.conns <==> h in p.core.conns || (NewConn(p, a) && h == a.handle))
  }

  /** An idle connection was idle before, or is the warm-up's; one in a thread's hands was there
      before, was idle before, or has just been dialled. */
  ghost predicate Sourced(p: Pool, q: Pool, a: Action) {
    && (forall h | h in q.core.idle ::
          h in p.core.idle || (Warmer in p.hands && p.hands[Warmer] == h))
    && (forall u | u in q.hands ::
          || (u in p.hands && q.hands[u] == p.hands[u] && (u in q.unpublished ==> u in p.unpublished))
          || q.hands[u] in p.core.idle
          || (NewConn(p, a) && q.hands[u] == a.handle))
  }

  lemma AcquireOrigins(cfg: Config, p: Pool, t: Tid, dead: set<Handle>)
    requires NoDup(p.core.idle) && SortedByUse(p.core.idle, p.core.conns)
    requires t.Client? && t !in p.dialing && t !in p.hands && t !in p.pausing && t !in p.unpublished
    ensures var q := StepAcquire(cfg, p, t, dead);
            && (forall u | u in p.hands :: u in q.hands && q.hands[u] == p.hands[u])
            && q.unpublished == p.unpublished && q.parked == p.parked
            && (forall u | u != t :: (u in q.hands ==> u in p.hands) && (u in q.dialing ==> u in p.dialing)
                                     && (u in q.pausing ==> u in p.pausing))
            && (forall h :: h in q.core.conns <==> h in p.core.conns)
            && (forall h | h in q.core.idle :: h in p.core.idle)
            && (t in q.hands ==> q.hands[t] in p.core.idle)
  {
    if !p.core.closed {
      AcquireSplits(cfg, p, t, dead);
    }
  }

  lemma ReapOrigins(cfg: Config, c: Core<Handle>, now: int)
    ensures var d := C.Reap(cfg, c, now);
            (forall h :: h in d.conns <==> h in c.conns) && forall h | h in d.idle :: h in c.idle
  {
    KeptMeans(cfg, c, |c.idle|, now);
  }

  ghost predicate Busy(p: Pool, u: Tid) {
    u in p.dialing || u in p.pausing || u in p.parked
  }

  /** A step that concerns one thread that has no connection, and may give it an idle one. */
  lemma GainOrigins(p: Pool, q: Pool, a: Action, t: Tid)
    requires t !in p.hands && t !in p.unpublished && !a.Dialled? && (!Free(p, t) || (a.Acquire? && a.t == t))
    requires forall u | u in p.hands :: u in q.hands && q.hands[u] == p.hands[u]
    requires q.unpublished == p.unpublished
    requires forall u | u != t :: (u in q.hands ==> u in p.hands) && (Busy(q, u) ==> Busy(p, u))
    requires forall h :: h in q.core.conns <==> h in p.core.conns
    requires forall h | h in q.core.idle :: h in p.core.idle
    requires t in q.hands ==> q.hands[t] in p.core.idle
    ensures Undisturbed(p, q, a) && Sourced(p, q, a)
  {
    assert forall u | Free(p, u) :: !Busy(p, u);
  }

  lemma AcquiringOrigins(cfg: Config, p: Pool, t: Tid, dead: set<Handle>)
    requires Own(p) && Placed(p) && SortedByUse(p.core.idle, p.core.conns)
    ensures var a, q := Acquire(t, dead), Next(cfg, p, Acquire(t, dead)); Undisturbed(p, q, a) && Sourced(p, q, a)
  {
    if Free(p, t) {
      AcquireOrigins(cfg, p, t, dead);
      GainOrigins(p, StepAcquire(cfg, p, t, dead), Acquire(t, dead), t);
    }
  }

  /** Waking up is acquiring from the state in which the thread no longer waits. */
  lemma WokenOrigins(cfg: Config, p: Pool, t: Tid, dead: set<Handle>)
    requires Own(p) && Placed(p) && SortedByUse(p.core.idle, p.core.conns) && t in p.parked
    ensures var q := StepWake(cfg, p, t, dead);
            && (forall u | u in p.hands :: u in q.hands && q.hands[u] == p.hands[u])
            && q.unpublished == p.unpublished
            && (forall u | u != t :: (u in q.hands ==> u in p.hands) && (Busy(q, u) ==> Busy(p, u)))
            && (forall h :: h in q.core.conns <==> h in p.core.conns)
            && (forall h | h in q.core.idle :: h in p.core.idle)
            && (t in q.hands ==> q.hands[t] in p.core.idle)
  {
    AcquireOrigins(cfg, StepWakeLate(p, t), t, dead);
  }

  lemma WakingOrigins(cfg: Config, p: Pool, t: Tid, dead: set<Handle>)
    requires Own(p) && Placed(p) && SortedByUse(p.core.idle, p.core.conns) && t in p.parked
    ensures Undisturbed(p, StepWake(cfg, p, t, dead), Wake(t, dead))
    ensures Sourced(p, StepWake(cfg, p, t, dead), Wake(t, dead))
  {
    WokenOrigins(cfg, p, t, dead);
    GainOrigins(p, StepWake(cfg, p, t, dead), Wake(t, dead), t);
  }

  lemma SameOrigins(p: Pool, a: Action)
    requires !NewConn(p, a)
    ensures Undisturbed(p, p, a) && Sourced(p, p, a)
  {
  }

  lemma WakeOrigins(cfg: Config, p: Pool, t: Tid, dead: set<Handle>)
    requires Own(p) && Placed(p) && SortedByUse(p.core.idle, p.core.conns)
    ensures var a, q := Wake(t, dead), Next(cfg, p, Wake(t, dead)); Undisturbed(p, q, a) && Sourced(p, q, a)
  {
    if t in p.parked {
      WakingOrigins(cfg, p, t, dead);
    } else {
      SameOrigins(p, Wake(t, dead));
    }
  }

  /** A step that only lets go of idle connections and moves nothing into anyone's hands. */
  lemma ShrinkOrigins(p: Pool, q: Pool, a: Action)
    requires q.hands == p.hands && q.unpublished == p.unpublished && !a.Dialled?
    requires forall u | Busy(q, u) :: Busy(p, u)
    requires forall h :: h in q.core.conns <==> h in p.core.conns
    requires forall h | h in q.core.idle :: h in p.core.idle
    ensures Undisturbed(p, q, a) && Sourced(p, q, a)
  {
    assert forall u | Free(p, u) :: !Busy(p, u);
  }

  predicate Waiting(a: Action) {
    a.DialFailed? || a.GiveUp? || a.Park? || a.WakeLate?
  }

  lemma WaitingOrigins(cfg: Config, p: Pool, a: Action)
    requires Waiting(a)
    ensures var q := Next(cfg, p, a); Undisturbed(p, q, a) && Sourced(p, q, a)
  {
    ShrinkOrigins(p, Next(cfg, p, a), a);
  }

  lemma DialledOrigins(cfg: Config, p: Pool, t: Tid, h: Handle, auth: bool)
    requires Placed(p)
    ensures var a, q := Dialled(t, h, auth), Next(cfg, p, Dialled(t, h, auth));
            Undisturbed(p, q, a) && Sourced(p, q, a)
  {
    assert forall u | u in p.hands :: t in p.dialing ==> u != t;
  }

  lemma PublishOrigins(cfg: Config, p: Pool, t: Tid)
    ensures var a, q := Action.Publish(t), Next(cfg, p, Action.Publish(t)); Undisturbed(p, q, a) && Sourced(p, q, a)
  {
  }

  lemma WarmReserveOrigins(cfg: Config, p: Pool)
    ensures var q := Next(cfg, p, WarmReserve); Undisturbed(p, q, WarmReserve) && Sourced(p, q, WarmReserve)
  {
  }

  lemma WarmAuthFailedOrigins(cfg: Config, p: Pool)
    requires Placed(p)
    ensures var q := Next(cfg, p, WarmAuthFailed); Undisturbed(p, q, WarmAuthFailed) && Sourced(p, q, WarmAuthFailed)
  {
  }

  lemma WarmStoreOrigins(cfg: Config, p: Pool)
    requires Placed(p)
    ensures var a, q := Action.WarmStore, Next(cfg, p, Action.WarmStore); Undisturbed(p, q, a) && Sourced(p, q, a)
  {
  }

  lemma OtherOrigins(cfg: Config, p: Pool, a: Action)
    requires a.Tick? || a.Reap? || a.Close? || a.Drain? || a.DrainPoll? || a.DrainForce?
    ensures var q := Next(cfg, p, a); Undisturbed(p, q, a) && Sourced(p, q, a)
  {
    if a.Reap? {
      ReapOrigins(cfg, p.core, p.now);
    }
    ShrinkOrigins(p, Next(cfg, p, a), a);
  }

  lemma Origins(cfg: Config, p: Pool, a: Action)
    requires Own(p) && Placed(p) && SortedByUse(p.core.idle, p.core.conns) && Inner(a)
    ensures var q := Next(cfg, p, a); Undisturbed(p, q, a) && Sourced(p, q, a)
  {
    if a.Acquire? {
      AcquiringOrigins(cfg, p, a.t, a.dead);
    } else if a.Wake? {
      WakeOrigins(cfg, p, a.t, a.dead);
    } else if a.Dialled? {
      DialledOrigins(cfg, p, a.t, a.handle, a.auth);
    } else if a.Publish? {
      PublishOrigins(cfg, p, a.t);
    } else if a.WarmReserve? {
      WarmReserveOrigins(cfg, p);
    } else if a.WarmAuthFailed? {
      WarmAuthFailedOrigins(cfg, p);
    } else if a.WarmStore? {
      WarmStoreOrigins(cfg, p);
    } else if Waiting(a) {
      WaitingOrigins(cfg, p, a);
    } else {
      OtherOrigins(cfg, p, a);
    }
  }
}
