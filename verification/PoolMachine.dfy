/** The pool as a state machine: any number of threads, each lock hold one step.
    The lock is free while a thread dials, pauses, is parked in `cond.Wait`, or uses
    a connection, so every other step may come between. An action that is not
    enabled changes nothing; a run is any list of actions. */
module PoolMachine {
  import opened PoolCore
  import C = PoolCore

  type Handle = nat

  datatype Tid = Client(id: nat) | Warmer

  /** Where the warm-up goroutine is: finished (or never started), about to reserve
      connection `i`, or dialling it. */
  datatype Warm = WarmOff | WarmReady(i: nat) | WarmBusy(i: nat)

  /** `hands` is the connection each thread has a reference to; `unpublished` are the
      threads that have dialled it and not yet taken the lock again. `leaked`,
      `abandoned`, `staleReturns` and `stale` are history: connections whose holder closed
      them instead of returning them, reservations of a warm-up that found the pool closed,
      and the number and the connections of returns after a forced drain had already
      removed the connection. */
  datatype Pool = Pool(
    core: Core<Handle>, now: int,
    dialing: set<Tid>, hands: map<Tid, Handle>, unpublished: set<Tid>,
    pausing: set<Tid>, parked: set<Tid>,
    draining: set<nat>, warm: Warm,
    leaked: set<Handle>, abandoned: nat, staleReturns: nat, stale: set<Handle>)

  datatype Action =
    | Tick(elapsed: nat)
    | Acquire(t: Tid, dead: set<Handle>)
    | Dialled(t: Tid, handle: Handle, auth: bool)
    | DialFailed(t: Tid)
    | Publish(t: Tid)
    | GiveUp(t: Tid)
    | Park(t: Tid)
    | Wake(t: Tid, dead: set<Handle>)
    | WakeLate(t: Tid)
    | Return(t: Tid)
    | CloseHandle(t: Tid)
    | WarmReserve
    | WarmAuthFailed
    | WarmStore
    | Reap
    | Close
    | Drain(d: nat)
    | DrainPoll(d: nat)
    | DrainForce(d: nat)

  function Init(cfg: Config): Pool {
    Pool(Core([], {}, 0, 0, 0, false, map[]), 0, {}, map[], {}, {}, {}, {},
         if cfg.minConns > 0 then WarmReady(0) else WarmOff, {}, 0, 0, {})
  }

  predicate Free(p: Pool, t: Tid) {
    t.Client? && t !in p.dialing && t !in p.hands && t !in p.pausing && t !in p.parked
  }

  /** A thread goes on according to what Acquire decided for it. */
  function Follow(p: Pool, t: Tid, r: Outcome<Handle>): Pool {
    match r
    case Refused => p
    case Got(h) => p.(hands := p.hands[t := h])
    case Reserved => p.(dialing := p.dialing + {t})
    case MustWait => p.(pausing := p.pausing + {t})
  }

  function StepAcquire(cfg: Config, p: Pool, t: Tid, dead: set<Handle>): Pool {
    var (c, r) := C.TryAcquire(cfg, p.core, p.now, dead);
    Follow(p.(core := c), t, r)
  }

  function StepWake(cfg: Config, p: Pool, t: Tid, dead: set<Handle>): Pool {
    StepAcquire(cfg, p.(core := C.StopWaiting(p.core), parked := p.parked - {t}), t, dead)
  }

  function StepReturn(cfg: Config, p: Pool, t: Tid): Pool
    requires t in p.hands
  {
    var h, late := p.hands[t], p.hands[t] !in p.core.active;
    p.(core := C.Return(cfg, p.core, h, p.now), hands := p.hands - {t},
       staleReturns := p.staleReturns + if late then 1 else 0, stale := p.stale + if late then {h} else {})
  }

  function StepCloseHandle(p: Pool, t: Tid): Pool
    requires t in p.hands
  {
    var h := p.hands[t];
    p.(core := p.core.(conns := CloseAll(p.core.conns, {h})), hands := p.hands - {t},
       leaked := p.leaked + if h in p.core.active then {h} else {})
  }

  function StepDialled(p: Pool, t: Tid, h: Handle, auth: bool): Pool {
    p.(core := p.core.(conns := p.core.conns[h := Conn(ConnIdle, p.now, p.now, auth, true)]),
       dialing := p.dialing - {t}, hands := p.hands[t := h], unpublished := p.unpublished + {t})
  }

  function StepDialFailed(p: Pool, t: Tid): Pool {
    p.(core := C.Unreserve(p.core), dialing := p.dialing - {t}, warm := if t.Warmer? then WarmOff else p.warm)
  }

  function StepPublish(p: Pool, t: Tid): Pool
    requires t in p.hands
  {
    p.(core := C.Publish(p.core, p.hands[t], p.now), unpublished := p.unpublished - {t})
  }

  function StepGiveUp(p: Pool, t: Tid): Pool {
    p.(core := C.StopWaiting(p.core), pausing := p.pausing - {t})
  }

  function StepPark(p: Pool, t: Tid): Pool {
    p.(pausing := p.pausing - {t}, parked := p.parked + {t})
  }

  function StepWakeLate(p: Pool, t: Tid): Pool {
    p.(core := C.StopWaiting(p.core), parked := p.parked - {t})
  }

  function StepWarmReserve(p: Pool, i: nat): Pool {
    p.(core := Reserve(p.core), dialing := p.dialing + {Warmer}, warm := WarmBusy(i))
  }

  function StepWarmAuthFailed(p: Pool): Pool
    requires Warmer in p.hands
  {
    p.(core := C.Discard(p.core, p.hands[Warmer]), hands := p.hands - {Warmer},
       unpublished := p.unpublished - {Warmer}, warm := WarmOff)
  }

  function StepWarmStore(cfg: Config, p: Pool, i: nat): Pool
    requires Warmer in p.hands
  {
    var q := p.(core := C.WarmStore(p.core, p.hands[Warmer], p.now), hands := p.hands - {Warmer},
                unpublished := p.unpublished - {Warmer});
    if p.core.closed then q.(warm := WarmOff, abandoned := p.abandoned + 1)
    else q.(warm := if i + 1 < cfg.minConns then WarmReady(i + 1) else WarmOff)
  }

  function StepReap(cfg: Config, p: Pool): Pool {
    p.(core := C.Reap(cfg, p.core, p.now))
  }

  function StepDrain(p: Pool, d: nat): Pool {
    p.(core := C.DrainIdle(p.core), draining := if p.core.active == {} then p.draining else p.draining + {d})
  }

  function StepDrainForce(p: Pool, d: nat): Pool {
    p.(core := C.ForceDrain(p.core), draining := p.draining - {d}, leaked := {})
  }

  function Next(cfg: Config, p: Pool, a: Action): Pool {
    match a
    case Tick(elapsed) => p.(now := p.now + elapsed)
    case Acquire(t, dead) => if Free(p, t) then StepAcquire(cfg, p, t, dead) else p
    case Dialled(t, h, auth) =>
      if t in p.dialing && h !in p.core.conns then StepDialled(p, t, h, auth) else p
    case DialFailed(t) => if t in p.dialing then StepDialFailed(p, t) else p
    case Publish(t) => if t.Client? && t in p.unpublished && t in p.hands then StepPublish(p, t) else p
    case GiveUp(t) => if t in p.pausing then StepGiveUp(p, t) else p
    case Park(t) => if t in p.pausing then StepPark(p, t) else p
    case Wake(t, dead) => if t in p.parked then StepWake(cfg, p, t, dead) else p
    case WakeLate(t) => if t in p.parked then StepWakeLate(p, t) else p
    case Return(t) => if t in p.hands && t !in p.unpublished then StepReturn(cfg, p, t) else p
    case CloseHandle(t) => if t in p.hands && t !in p.unpublished then StepCloseHandle(p, t) else p
    case WarmReserve =>
      if !p.warm.WarmReady? then p
      else if !WarmMayReserve(cfg, p.core) then p.(warm := WarmOff)
      else StepWarmReserve(p, p.warm.i)
    case WarmAuthFailed => if p.warm.WarmBusy? && Warmer in p.hands then StepWarmAuthFailed(p) else p
    case WarmStore => if p.warm.WarmBusy? && Warmer in p.hands then StepWarmStore(cfg, p, p.warm.i) else p
    case Reap => StepReap(cfg, p)
    case Close => p.(core := C.CloseGate(p.core))
    case Drain(d) => StepDrain(p, d)
    case DrainPoll(d) => if p.core.active == {} then p.(draining := p.draining - {d}) else p
    case DrainForce(d) => if d in p.draining then StepDrainForce(p, d) else p
  }

  function Run(cfg: Config, p: Pool, actions: seq<Action>): Pool
    decreases |actions|
  {
    if actions == [] then p else Run(cfg, Next(cfg, p, actions[0]), actions[1..])
  }

  function Reach(cfg: Config, actions: seq<Action>): Pool {
    Run(cfg, Init(cfg), actions)
  }
}
