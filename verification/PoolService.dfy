/** When a thread that asks for a connection can still get one: the exact condition, and what
    connections closed by their holders do to it. */
module PoolService {
  import opened PoolCore
  import opened PoolMachine
  import opened PoolInvariants
  import opened PoolTheorems
  import C = PoolCore

  predicate Old(cfg: Config, conns: Conns, h: Handle, now: int) {
    h in conns && conns[h].IsExpired(cfg.maxLifetime, now)
  }

  /** Whether the warm-up can still add a connection once all others are gone. */
  predicate WarmLeft(cfg: Config, warm: Warm, leaked: nat) {
    leaked < cfg.minConns && (warm.WarmReady? || (warm.WarmBusy? && warm.i + 1 < cfg.minConns))
  }

  /** There is room for a dial, or a connection in circulation that has not expired, or a dial in
      flight, or the warm-up will add a connection. */
  ghost predicate Spare(cfg: Config, p: Pool) {
    || |p.leaked| < cfg.maxConns
    || (exists h :: h in p.core.idle && !Old(cfg, p.core.conns, h, p.now))
    || (exists t :: t in p.hands && !Old(cfg, p.core.conns, p.hands[t], p.now))
    || p.dialing != {}
    || WarmLeft(cfg, p.warm, |p.leaked|)
  }

  /** The other case, clause by clause. */
  ghost predicate Starved(cfg: Config, p: Pool) {
    && cfg.maxConns <= |p.leaked|
    && AllOld(cfg, p)
    && p.dialing == {}
    && !WarmLeft(cfg, p.warm, |p.leaked|)
  }

  ghost predicate AllOld(cfg: Config, p: Pool) {
    && (forall h | h in p.core.idle :: Old(cfg, p.core.conns, h, p.now))
    && (forall t | t in p.hands :: Old(cfg, p.core.conns, p.hands[t], p.now))
  }

  lemma StarvedIff(cfg: Config, p: Pool)
    ensures Starved(cfg, p) <==> !Spare(cfg, p)
  {
  }

  // ---- A starved pool serves nobody ----

  /** One step neither gives anybody a connection nor ends the famine. */
  ghost predicate Withers(cfg: Config, p: Pool, q: Pool) {
    Starved(cfg, q) && forall t | t in q.hands :: t in p.hands
  }

  lemma LeakedBound(cfg: Config, p: Pool)
    requires Own(p) && Tallied(cfg, p) && AllActive(p)
    ensures |p.leaked| <= |p.core.active| <= p.core.total - |p.core.idle|
  {
    SubsetSize(p.leaked, p.core.active);
    assert Balanced(p.core.total, 0, |p.core.idle|, |p.core.active|, |p.dialing|, |p.unpublished|, p.abandoned);
  }

  lemma NoneUsable(cfg: Config, p: Pool, dead: set<Handle>)
    requires forall h | h in p.core.idle :: Old(cfg, p.core.conns, h, p.now)
    ensures Pruned(cfg, p, dead) == Drop(p, [])
  {
    LastUsableMeans(cfg, p.core.idle, p.core.conns, p.now, dead);
    assert forall i | 0 <= i < |p.core.idle| :: p.core.idle[i] in p.core.idle;
    assert p.core.idle[..0] == [];
  }

  /** An open pool whose idle connections have all expired discards them; then it dials or waits. */
  lemma AcquireOld(cfg: Config, p: Pool, t: Tid, dead: set<Handle>)
    requires Own(p) && Ordered(p.core.idle, p.core.conns, p.now) && !p.core.closed
    requires forall h | h in p.core.idle :: Old(cfg, p.core.conns, h, p.now)
    ensures var q := Drop(p, []);
            StepAcquire(cfg, p, t, dead) == if q.core.total < cfg.maxConns then Reserving(q, t) else Lining(q, t)
  {
    AcquireSplits(cfg, p, t, dead);
    NoneUsable(cfg, p, dead);
  }

  lemma LiningWithers(cfg: Config, p: Pool, t: Tid)
    requires Starved(cfg, p)
    ensures Withers(cfg, p, Lining(Drop(p, []), t))
  {
  }

  lemma StarvedAcquire(cfg: Config, p: Pool, t: Tid, dead: set<Handle>)
    requires Inv(cfg, p) && AllActive(p) && Starved(cfg, p)
    ensures Withers(cfg, p, StepAcquire(cfg, p, t, dead))
  {
    if !p.core.closed {
      AcquireOld(cfg, p, t, dead);
      LeakedBound(cfg, p);
      LiningWithers(cfg, p, t);
    }
  }

  lemma StarvedReturn(cfg: Config, p: Pool, t: Tid)
    requires Starved(cfg, p)
    ensures Withers(cfg, p, Next(cfg, p, Return(t)))
  {
  }

  lemma StarvedCloseHandle(cfg: Config, p: Pool, t: Tid)
    requires Starved(cfg, p)
    ensures Withers(cfg, p, Next(cfg, p, CloseHandle(t)))
  {
    SubsetSize(p.leaked, Next(cfg, p, CloseHandle(t)).leaked);
  }

  lemma StarvedWarmReserve(cfg: Config, p: Pool)
    requires Inv(cfg, p) && AllActive(p) && Starved(cfg, p)
    ensures Withers(cfg, p, Next(cfg, p, WarmReserve))
  {
    LeakedBound(cfg, p);
  }

  lemma StarvedWarmStore(cfg: Config, p: Pool)
    requires Starved(cfg, p)
    ensures Withers(cfg, p, Next(cfg, p, WarmStore))
  {
    var q := Next(cfg, p, WarmStore);
    assert forall h | h in q.core.idle :: h in p.core.idle || (Warmer in p.hands && h == p.hands[Warmer]);
  }

  lemma StarvedReap(cfg: Config, p: Pool)
    requires Starved(cfg, p)
    ensures Withers(cfg, p, Next(cfg, p, Reap))
  {
    KeptMeans(cfg, p.core, |p.core.idle|, p.now);
    assert forall h | h in StepReap(cfg, p).core.idle :: h in p.core.idle;
  }

  lemma StarvedTick(cfg: Config, p: Pool, elapsed: nat)
    requires Starved(cfg, p)
    ensures Withers(cfg, p, Next(cfg, p, Tick(elapsed)))
  {
  }

  lemma StarvedPublish(cfg: Config, p: Pool, t: Tid)
    requires Starved(cfg, p)
    ensures Withers(cfg, p, Next(cfg, p, Publish(t)))
  {
  }

  lemma StarvedWarmAuthFailed(cfg: Config, p: Pool)
    requires Starved(cfg, p)
    ensures Withers(cfg, p, Next(cfg, p, WarmAuthFailed))
  {
  }

  lemma StarvedQuiet(cfg: Config, p: Pool, a: Action)
    requires Starved(cfg, p)
    requires a.DialFailed? || a.Dialled? || a.GiveUp? || a.Park? || a.WakeLate? || a.Close? || a.Drain? || a.DrainPoll?
    ensures Withers(cfg, p, Next(cfg, p, a))
  {
  }

  lemma StarvedAsk(cfg: Config, p: Pool, t: Tid, dead: set<Handle>)
    requires Inv(cfg, p) && AllActive(p) && Starved(cfg, p)
    ensures Withers(cfg, p, Next(cfg, p, Acquire(t, dead)))
  {
    StarvedAcquire(cfg, p, t, dead);
  }

  lemma StarvedWake(cfg: Config, p: Pool, t: Tid, dead: set<Handle>)
    requires Inv(cfg, p) && AllActive(p) && Starved(cfg, p)
    ensures Withers(cfg, p, Next(cfg, p, Wake(t, dead)))
  {
    if t in p.parked {
      WakeLateInv(cfg, p, t);
      StarvedAcquire(cfg, StepWakeLate(p, t), t, dead);
    }
  }

  lemma StarvedNext(cfg: Config, p: Pool, a: Action)
    requires Inv(cfg, p) && AllActive(p) && Starved(cfg, p) && !a.DrainForce?
    ensures Withers(cfg, p, Next(cfg, p, a))
  {
    match a
    case Tick(elapsed) => StarvedTick(cfg, p, elapsed);
    case Acquire(t, dead) => StarvedAsk(cfg, p, t, dead);
    case Wake(t, dead) => StarvedWake(cfg, p, t, dead);
    case Publish(t) => StarvedPublish(cfg, p, t);
    case Return(t) => StarvedReturn(cfg, p, t);
    case CloseHandle(t) => StarvedCloseHandle(cfg, p, t);
    case WarmReserve => StarvedWarmReserve(cfg, p);
    case WarmAuthFailed => StarvedWarmAuthFailed(cfg, p);
    case WarmStore => StarvedWarmStore(cfg, p);
    case Reap => StarvedReap(cfg, p);
    case _ => StarvedQuiet(cfg, p, a);
  }

  lemma {:induction false} StarvedRun(cfg: Config, p: Pool, actions: seq<Action>)
    requires Inv(cfg, p) && AllActive(p) && Starved(cfg, p) && !Forced(actions)
    ensures Withers(cfg, p, Run(cfg, p, actions))
    decreases |actions|
  {
    if actions != [] {
      var q := Next(cfg, p, actions[0]);
      StarvedNext(cfg, p, actions[0]);
      AllActiveNext(cfg, p, actions[0]);
      InvNext(cfg, p, actions[0]);
      assert forall i | 0 <= i < |actions[1..]| :: actions[1..][i] == actions[i + 1];
      StarvedRun(cfg, q, actions[1..]);
    }
  }

  // ---- A pool with something to spare serves whoever asks ----

  ghost predicate Served(cfg: Config, p: Pool, t: Tid, after: seq<Action>) {
    !Forced(after) && t in Run(cfg, p, after).hands && t !in Run(cfg, p, after).unpublished
  }

  /** The situation of a thread about to call Acquire on an open pool. */
  ghost predicate Asks(cfg: Config, p: Pool, t: Tid) {
    Inv(cfg, p) && AllActive(p) && !p.core.closed && Free(p, t)
  }

  lemma Prepend(cfg: Config, p: Pool, a: Action, t: Tid, rest: seq<Action>)
    requires !a.DrainForce? && Served(cfg, Next(cfg, p, a), t, rest)
    ensures Served(cfg, p, t, [a] + rest)
  {
    var all := [a] + rest;
    assert all[1..] == rest;
    assert forall i | 0 < i < |all| :: all[i] == rest[i - 1];
  }

  lemma ServedNow(cfg: Config, p: Pool, t: Tid)
    requires t in p.hands && t !in p.unpublished
    ensures Served(cfg, p, t, [])
  {
  }

  /** Steps of other threads leave the asking one as it is. */
  lemma StillAsks(cfg: Config, p: Pool, a: Action, t: Tid)
    requires Asks(cfg, p, t) && !a.DrainForce?
    requires Free(Next(cfg, p, a), t) && !Next(cfg, p, a).core.closed
    ensures Asks(cfg, Next(cfg, p, a), t)
  {
    InvNext(cfg, p, a);
    AllActiveNext(cfg, p, a);
  }

  lemma TakesIdle(cfg: Config, p: Pool, t: Tid, h: Handle)
    requires Own(p) && Ordered(p.core.idle, p.core.conns, p.now) && !p.core.closed && t !in p.hands
    requires h in p.core.idle && !Old(cfg, p.core.conns, h, p.now)
    ensures var q := StepAcquire(cfg, p, t, {}); t in q.hands && t !in q.unpublished
  {
    AcquireSplits(cfg, p, t, {});
    LastUsableMeans(cfg, p.core.idle, p.core.conns, p.now, {});
    var i :| 0 <= i < |p.core.idle| && p.core.idle[i] == h;
    assert Usable(cfg, p.core.conns, h, p.now, {});
  }

  lemma ServeIdle(cfg: Config, p: Pool, t: Tid, h: Handle) returns (after: seq<Action>)
    requires Asks(cfg, p, t) && h in p.core.idle && !Old(cfg, p.core.conns, h, p.now)
    ensures Served(cfg, p, t, after)
  {
    TakesIdle(cfg, p, t, h);
    ServedNow(cfg, Next(cfg, p, Acquire(t, {})), t);
    Prepend(cfg, p, Acquire(t, {}), t, []);
    after := [Acquire(t, {})] + [];
  }

  /** A connection that has not expired comes back to the idle list. */
  lemma ComesBack(cfg: Config, p: Pool, u: Tid)
    requires u in p.hands && u !in p.unpublished && !p.core.closed && !Old(cfg, p.core.conns, p.hands[u], p.now)
    ensures var q := Next(cfg, p, Return(u));
            p.hands[u] in q.core.idle && !Old(cfg, q.core.conns, p.hands[u], q.now) && !q.core.closed
  {
  }

  lemma WarmComesBack(cfg: Config, p: Pool)
    requires Warmer in p.hands && p.warm.WarmBusy? && !p.core.closed && !Old(cfg, p.core.conns, p.hands[Warmer], p.now)
    ensures var q := Next(cfg, p, WarmStore);
            p.hands[Warmer] in q.core.idle && !Old(cfg, q.core.conns, p.hands[Warmer], q.now) && !q.core.closed
  {
  }

  lemma ServeReturned(cfg: Config, p: Pool, t: Tid, u: Tid) returns (after: seq<Action>)
    requires Asks(cfg, p, t) && u in p.hands && u !in p.unpublished && !Old(cfg, p.core.conns, p.hands[u], p.now)
    ensures Served(cfg, p, t, after)
  {
    ComesBack(cfg, p, u);
    StillAsks(cfg, p, Return(u), t);
    var rest := ServeIdle(cfg, Next(cfg, p, Return(u)), t, p.hands[u]);
    Prepend(cfg, p, Return(u), t, rest);
    after := [Return(u)] + rest;
  }

  lemma ServeStored(cfg: Config, p: Pool, t: Tid) returns (after: seq<Action>)
    requires Asks(cfg, p, t) && Warmer in p.hands && !Old(cfg, p.core.conns, p.hands[Warmer], p.now)
    ensures Served(cfg, p, t, after)
  {
    WarmComesBack(cfg, p);
    StillAsks(cfg, p, WarmStore, t);
    var rest := ServeIdle(cfg, Next(cfg, p, WarmStore), t, p.hands[Warmer]);
    Prepend(cfg, p, WarmStore, t, rest);
    after := [Action.WarmStore] + rest;
  }

  lemma PublishKeeps(cfg: Config, p: Pool, u: Tid)
    requires u.Client? && u in p.unpublished && u in p.hands
    ensures var q := Next(cfg, p, Publish(u));
            && q.hands == p.hands && u !in q.unpublished && q.core.closed == p.core.closed
            && (forall h :: Old(cfg, q.core.conns, h, q.now) == Old(cfg, p.core.conns, h, p.now))
            && q.core.idle == p.core.idle && q.unpublished == p.unpublished - {u}
            && q.dialing == p.dialing && q.pausing == p.pausing && q.parked == p.parked
            && q.leaked == p.leaked && q.warm == p.warm
  {
  }

  lemma ServeHeld(cfg: Config, p: Pool, t: Tid, u: Tid) returns (after: seq<Action>)
    requires Asks(cfg, p, t) && u in p.hands && !Old(cfg, p.core.conns, p.hands[u], p.now)
    ensures Served(cfg, p, t, after)
  {
    if u.Warmer? {
      after := ServeStored(cfg, p, t);
    } else if u in p.unpublished {
      PublishKeeps(cfg, p, u);
      StillAsks(cfg, p, Publish(u), t);
      var rest := ServeReturned(cfg, Next(cfg, p, Publish(u)), t, u);
      Prepend(cfg, p, Publish(u), t, rest);
      after := [Action.Publish(u)] + rest;
    } else {
      after := ServeReturned(cfg, p, t, u);
    }
  }

  /** There is always a connection that has not been dialled yet. */
  lemma {:induction false} NewHandle(hs: set<Handle>) returns (h: Handle)
    ensures h !in hs && forall x | x in hs :: x < h
    decreases |hs|
  {
    if hs == {} {
      h := 0;
    } else {
      var x :| x in hs;
      var y := NewHandle(hs - {x});
      h := if y > x then y else x + 1;
      assert forall z | z in hs :: z == x || z in hs - {x};
    }
  }

  lemma ServeDialing(cfg: Config, p: Pool, t: Tid, u: Tid) returns (after: seq<Action>)
    requires Asks(cfg, p, t) && u in p.dialing
    ensures Served(cfg, p, t, after)
  {
    var h := NewHandle(p.core.conns.Keys);
    var a := Dialled(u, h, true);
    StillAsks(cfg, p, a, t);
    var rest := ServeHeld(cfg, Next(cfg, p, a), t, u);
    Prepend(cfg, p, a, t, rest);
    after := [a] + rest;
  }

  // All connections in circulation have expired, and no dial is in flight.

  ghost predicate Barren(cfg: Config, p: Pool, t: Tid) {
    Asks(cfg, p, t) && AllOld(cfg, p) && p.dialing == {}
  }

  predicate RoomLeft(cfg: Config, warm: Warm, leaked: nat) {
    leaked < cfg.maxConns || (warm.WarmReady? && leaked < cfg.minConns)
  }

  lemma EmptyTotal(cfg: Config, p: Pool)
    requires Inv(cfg, p) && AllActive(p) && !p.core.closed && p.hands == map[] && p.dialing == {}
    ensures p.core.total == |p.core.idle| + |p.leaked|
  {
    assert p.core.active == p.leaked;
    assert p.unpublished == {};
    assert Balanced(p.core.total, 0, |p.core.idle|, |p.leaked|, 0, 0, p.abandoned);
  }

  lemma ServePublish(cfg: Config, p: Pool, t: Tid) returns (after: seq<Action>)
    requires t.Client? && t in p.hands && t in p.unpublished
    ensures Served(cfg, p, t, after)
  {
    ServedNow(cfg, Next(cfg, p, Publish(t)), t);
    Prepend(cfg, p, Publish(t), t, []);
    after := [Action.Publish(t)] + [];
  }

  lemma ServeOwnDial(cfg: Config, p: Pool, t: Tid) returns (after: seq<Action>)
    requires t.Client? && t in p.dialing
    ensures Served(cfg, p, t, after)
  {
    var h := NewHandle(p.core.conns.Keys);
    var rest := ServePublish(cfg, Next(cfg, p, Dialled(t, h, true)), t);
    Prepend(cfg, p, Dialled(t, h, true), t, rest);
    after := [Dialled(t, h, true)] + rest;
  }

  /** Acquire finds room and dials. */
  lemma ServeDial(cfg: Config, p: Pool, t: Tid) returns (after: seq<Action>)
    requires Barren(cfg, p, t) && p.hands == map[] && |p.leaked| < cfg.maxConns
    ensures Served(cfg, p, t, after)
  {
    EmptyTotal(cfg, p);
    AcquireOld(cfg, p, t, {});
    var rest := ServeOwnDial(cfg, Next(cfg, p, Acquire(t, {})), t);
    Prepend(cfg, p, Acquire(t, {}), t, rest);
    after := [Acquire(t, {})] + rest;
  }

  // A thread waits for the warm-up's connection: the last steps first.

  lemma ServeWoken(cfg: Config, p: Pool, t: Tid, h: Handle) returns (after: seq<Action>)
    requires Inv(cfg, p) && !p.core.closed && t in p.parked && h in p.core.idle && !Old(cfg, p.core.conns, h, p.now)
    ensures Served(cfg, p, t, after)
  {
    WakeLateInv(cfg, p, t);
    TakesIdle(cfg, StepWakeLate(p, t), t, h);
    ServedNow(cfg, Next(cfg, p, Wake(t, {})), t);
    Prepend(cfg, p, Wake(t, {}), t, []);
    after := [Wake(t, {})] + [];
  }

  lemma ServeParked(cfg: Config, p: Pool, t: Tid) returns (after: seq<Action>)
    requires Inv(cfg, p) && !p.core.closed && t in p.parked
    requires Warmer in p.hands && !Old(cfg, p.core.conns, p.hands[Warmer], p.now)
    ensures Served(cfg, p, t, after)
  {
    WarmComesBack(cfg, p);
    InvNext(cfg, p, WarmStore);
    var rest := ServeWoken(cfg, Next(cfg, p, WarmStore), t, p.hands[Warmer]);
    Prepend(cfg, p, WarmStore, t, rest);
    after := [Action.WarmStore] + rest;
  }

  lemma ServeWarmDial(cfg: Config, p: Pool, t: Tid) returns (after: seq<Action>)
    requires Inv(cfg, p) && !p.core.closed && t in p.parked && Warmer in p.dialing
    ensures Served(cfg, p, t, after)
  {
    var h := NewHandle(p.core.conns.Keys);
    var a := Dialled(Warmer, h, true);
    InvNext(cfg, p, a);
    var rest := ServeParked(cfg, Next(cfg, p, a), t);
    Prepend(cfg, p, a, t, rest);
    after := [a] + rest;
  }

  lemma ServeWarmReserve(cfg: Config, p: Pool, t: Tid) returns (after: seq<Action>)
    requires Inv(cfg, p) && !p.core.closed && t in p.parked && p.warm.WarmReady? && p.core.total < cfg.minConns
    ensures Served(cfg, p, t, after)
  {
    InvNext(cfg, p, WarmReserve);
    var rest := ServeWarmDial(cfg, Next(cfg, p, WarmReserve), t);
    Prepend(cfg, p, WarmReserve, t, rest);
    after := [Action.WarmReserve] + rest;
  }

  lemma ServeWaiting(cfg: Config, p: Pool, t: Tid) returns (after: seq<Action>)
    requires Inv(cfg, p) && !p.core.closed && t in p.pausing && p.warm.WarmReady? && p.core.total < cfg.minConns
    ensures Served(cfg, p, t, after)
  {
    InvNext(cfg, p, Park(t));
    var rest := ServeWarmReserve(cfg, Next(cfg, p, Park(t)), t);
    Prepend(cfg, p, Park(t), t, rest);
    after := [Action.Park(t)] + rest;
  }

  /** Acquire finds no room and waits for the warm-up. */
  lemma ServeWarm(cfg: Config, p: Pool, t: Tid) returns (after: seq<Action>)
    requires Barren(cfg, p, t) && p.hands == map[] && cfg.maxConns <= |p.leaked| < cfg.minConns && p.warm.WarmReady?
    ensures Served(cfg, p, t, after)
  {
    EmptyTotal(cfg, p);
    AcquireOld(cfg, p, t, {});
    InvNext(cfg, p, Acquire(t, {}));
    var rest := ServeWaiting(cfg, Next(cfg, p, Acquire(t, {})), t);
    Prepend(cfg, p, Acquire(t, {}), t, rest);
    after := [Acquire(t, {})] + rest;
  }

  lemma ReturnOld(cfg: Config, p: Pool, u: Tid)
    requires u in p.hands && u !in p.unpublished && AllOld(cfg, p) && Own(p)
    ensures var q := Next(cfg, p, Return(u));
            && AllOld(cfg, q) && q.hands == p.hands - {u} && q.unpublished == p.unpublished && q.dialing == p.dialing
            && q.pausing == p.pausing && q.parked == p.parked && q.leaked == p.leaked && q.warm == p.warm
            && q.core.closed == p.core.closed
  {
  }

  /** The holders return their expired connections one by one. */
  lemma {:induction false} ServeRoom(cfg: Config, p: Pool, t: Tid) returns (after: seq<Action>)
    requires Barren(cfg, p, t) && Warmer !in p.hands && RoomLeft(cfg, p.warm, |p.leaked|)
    ensures Served(cfg, p, t, after)
    decreases |p.unpublished|, |p.hands|
  {
    if u :| u in p.hands {
      var a := if u in p.unpublished then Action.Publish(u) else Action.Return(u);
      if u in p.unpublished {
        PublishKeeps(cfg, p, u);
      } else {
        ReturnOld(cfg, p, u);
        assert |p.hands - {u}| < |p.hands|;
      }
      StillAsks(cfg, p, a, t);
      var rest := ServeRoom(cfg, Next(cfg, p, a), t);
      Prepend(cfg, p, a, t, rest);
      after := [a] + rest;
    } else {
      assert p.hands == map[];
      if |p.leaked| < cfg.maxConns {
        after := ServeDial(cfg, p, t);
      } else {
        after := ServeWarm(cfg, p, t);
      }
    }
  }

  lemma WarmStoreOld(cfg: Config, p: Pool)
    requires Warmer in p.hands && p.warm.WarmBusy? && AllOld(cfg, p) && !p.core.closed && Own(p)
    ensures var q := Next(cfg, p, WarmStore);
            && AllOld(cfg, q) && q.hands == p.hands - {Warmer} && q.dialing == p.dialing && q.pausing == p.pausing
            && q.parked == p.parked && q.leaked == p.leaked && !q.core.closed
            && q.warm == if p.warm.i + 1 < cfg.minConns then WarmReady(p.warm.i + 1) else WarmOff
  {
    var q := Next(cfg, p, WarmStore);
    assert forall h | h in q.core.idle :: h in p.core.idle || h == p.hands[Warmer];
  }

  lemma ServeBarren(cfg: Config, p: Pool, t: Tid) returns (after: seq<Action>)
    requires Barren(cfg, p, t) && (|p.leaked| < cfg.maxConns || WarmLeft(cfg, p.warm, |p.leaked|))
    ensures Served(cfg, p, t, after)
  {
    if Warmer in p.hands {
      WarmStoreOld(cfg, p);
      StillAsks(cfg, p, WarmStore, t);
      var rest := ServeRoom(cfg, Next(cfg, p, WarmStore), t);
      Prepend(cfg, p, WarmStore, t, rest);
      after := [Action.WarmStore] + rest;
    } else {
      after := ServeRoom(cfg, p, t);
    }
  }

  lemma ServeSpare(cfg: Config, p: Pool, t: Tid) returns (after: seq<Action>)
    requires Asks(cfg, p, t) && Spare(cfg, p)
    ensures Served(cfg, p, t, after)
  {
    if h :| h in p.core.idle && !Old(cfg, p.core.conns, h, p.now) {
      after := ServeIdle(cfg, p, t, h);
    } else if u :| u in p.hands && !Old(cfg, p.core.conns, p.hands[u], p.now) {
      after := ServeHeld(cfg, p, t, u);
    } else if u :| u in p.dialing {
      after := ServeDialing(cfg, p, t, u);
    } else {
      after := ServeBarren(cfg, p, t);
    }
  }

  // ---- The exact condition ----

  /** On an open pool with no stale connection returned or still out, a thread that asks can be
      served, on some continuation without a forced drain, if and only if there is something to
      spare; otherwise no continuation ever serves it. */
  lemma ServesIff(cfg: Config, before: seq<Action>, t: Tid)
    requires var p := Reach(cfg, before); !p.core.closed && AllActive(p) && Free(p, t)
    ensures (exists after :: Served(cfg, Reach(cfg, before), t, after)) <==> Spare(cfg, Reach(cfg, before))
  {
    var p := Reach(cfg, before);
    InvReach(cfg, before);
    if Spare(cfg, p) {
      var after := ServeSpare(cfg, p, t);
    } else {
      StarvedIff(cfg, p);
      forall after | !Forced(after)
        ensures !Served(cfg, p, t, after)
      {
        StarvedRun(cfg, p, after);
      }
    }
  }

  /** With `minConns` at most `maxConns` that is the case exactly as long as fewer connections
      have been closed by their holders than the pool may open. */
  lemma SpareIffUnleaked(cfg: Config, before: seq<Action>)
    requires var p := Reach(cfg, before); !p.core.closed && AllActive(p) && cfg.minConns <= cfg.maxConns
    ensures Spare(cfg, Reach(cfg, before)) <==> |Reach(cfg, before).leaked| < cfg.maxConns
  {
    var p := Reach(cfg, before);
    InvReach(cfg, before);
    if |p.leaked| >= cfg.maxConns {
      SubsetSize(p.leaked, p.core.active);
      assert Balanced(p.core.total, 0, |p.core.idle|, |p.core.active|, |p.dialing|, |p.unpublished|, p.abandoned);
      assert p.core.active - p.leaked == {} by {
        assert |p.core.active - p.leaked| == |p.core.active| - |p.leaked|;
      }
      assert forall t :: t !in p.hands;
    }
  }
}
