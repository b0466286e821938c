/** Concrete runs on which a guarantee fails once its hypothesis does. */
module PoolWitnesses {
  import opened PoolCore
  import opened PoolMachine
  import opened PoolInvariants
  import opened PoolTheorems
  import opened PoolService

  lemma Do(cfg: Config, acts: seq<Action>, a: Action) returns (more: seq<Action>)
    ensures more == acts + [a]
    ensures Reach(cfg, more) == Next(cfg, Reach(cfg, acts), a)
  {
    more := acts + [a];
    RunAppend(cfg, Init(cfg), acts, [a]);
  }

  /** One thread acquires by dialling connection `h`. */
  lemma DoDial(cfg: Config, acts: seq<Action>, t: Tid, h: Handle) returns (more: seq<Action>)
    requires var p := Reach(cfg, acts);
             && Free(p, t) && !p.core.closed && p.core.idle == [] && p.core.total < cfg.maxConns && h !in p.core.conns
    ensures more == acts + [Acquire(t, {}), Dialled(t, h, true), Publish(t)]
    ensures var p := Reach(cfg, acts);
            Reach(cfg, more) ==
            p.(core := p.core.(total := p.core.total + 1, active := p.core.active + {h},
                               conns := p.core.conns[h := Conn(ConnActive, p.now, p.now, true, true)]),
               dialing := p.dialing + {t} - {t}, hands := p.hands[t := h], unpublished := p.unpublished + {t} - {t})
  {
    more := Do(cfg, acts, Acquire(t, {}));
    more := Do(cfg, more, Dialled(t, h, true));
    more := Do(cfg, more, Publish(t));
  }

  /** A forced drain while a connection is out, then its return. */
  lemma DoStaleReturn(cfg: Config, acts: seq<Action>, t: Tid, h: Handle) returns (more: seq<Action>)
    requires var p := Reach(cfg, acts);
             && !p.core.closed && p.core.idle == [] && p.core.active == {h} && p.draining == {}
             && t in p.hands && p.hands[t] == h && t !in p.unpublished
             && h in p.core.conns && !p.core.conns[h].IsExpired(cfg.maxLifetime, p.now)
    ensures var p := Reach(cfg, acts);
            Reach(cfg, more) ==
            p.(core := p.core.(total := p.core.total - 1, idle := [h], active := {},
                               conns := MarkIdleIn(CloseAll(p.core.conns, {h}), h, p.now)),
               hands := p.hands - {t}, leaked := {}, staleReturns := p.staleReturns + 1, stale := p.stale + {h})
  {
    more := Do(cfg, acts, Drain(0));
    NothingToDrain(cfg, Reach(cfg, acts));
    more := Do(cfg, more, DrainForce(0));
    more := Do(cfg, more, Return(t));
  }

  /** A drain that finds no idle connection only starts waiting for the active ones. */
  lemma NothingToDrain(cfg: Config, p: Pool)
    requires p.core.idle == [] && p.core.active != {}
    ensures Next(cfg, p, Drain(0)) == p.(draining := p.draining + {0})
  {
    assert CloseAll(p.core.conns, {}) == p.core.conns && Elems<Handle>([]) == {};
  }

  const Small := Config(0, 1, 1, 0)

  /** After one stale return the next Acquire hands out a connection whose socket is closed,
      because pre-authenticated connections are not pinged. */
  lemma StaleReturnHandsOutDeadConnection() returns (acts: seq<Action>)
    ensures var p := Reach(Small, acts);
            Client(1) in p.hands && p.hands[Client(1)] in p.core.conns && !p.core.conns[p.hands[Client(1)]].open
  {
    acts := DoDial(Small, [], Client(0), 0);
    acts := DoStaleReturn(Small, acts, Client(0), 0);
    var p := Reach(Small, acts);
    acts := Do(Small, acts, Acquire(Client(1), {}));
    assert Usable(Small, p.core.conns, 0, p.now, {});
  }

  /** After one stale return and one sweep of the reaper, `total` is -1. */
  lemma StaleReturnMakesTotalNegative() returns (acts: seq<Action>)
    ensures var p := Reach(Small, acts);
            && p.core.total == -1 && p.core.idle == [] && p.core.active == {} && !p.core.closed
            && p.core.conns.Keys == {0} && !p.core.conns[0].open
            && p.hands == map[] && p.dialing == {} && p.pausing == {} && p.parked == {}
  {
    acts := DoDial(Small, [], Client(0), 0);
    acts := DoStaleReturn(Small, acts, Client(0), 0);
    acts := Do(Small, acts, Tick(2));
    var p := Reach(Small, acts);
    assert p.core.idle == [0] && p.core.conns[0].IsIdle(1, p.now);
    acts := Do(Small, acts, Reap);
    assert Kept(Small, p.core, 1, p.now) == [];
    assert 0 in Doomed(Small, p.core, 1, p.now);
  }

  /** One connection closed instead of returned uses up a pool of one for good. */
  lemma OneCloseExhausts(after: seq<Action>) returns (acts: seq<Action>)
    requires !Forced(after)
    ensures Reach(Small, acts + after).hands == map[]
  {
    acts := DoDial(Small, [], Client(0), 0);
    assert |acts| == 3 && !Forced(acts);
    var closed := Do(Small, acts, CloseHandle(Client(0)));
    assert Reach(Small, closed).leaked == {0};
    ForcedAppend(acts, [CloseHandle(Client(0))]);
    ForcedAppend(closed, after);
    LeakIsFatal(Small, closed, after);
    acts := closed;
  }

  /** A pool closed while its warm-up dials: the warm-up's reservation is never given back. */
  lemma ClosedWarmUpAbandons(cfg: Config) returns (acts: seq<Action>)
    requires cfg.minConns > 0
    ensures var p := Reach(cfg, acts);
            && p.abandoned == 1 && p.core.total == 1 && p.core.closed && p.warm == WarmOff
            && OpenSockets(p) == {} && p.dialing == {} && p.hands == map[]
  {
    acts := Do(cfg, [], WarmReserve);
    acts := Do(cfg, acts, Dialled(Warmer, 0, true));
    acts := Do(cfg, acts, Action.Close);
    acts := Do(cfg, acts, Action.WarmStore);
  }

  // ---- The capacity bound is reached ----

  /** Nothing is under way, and no stale connection is idle or active. */
  ghost predicate Steady(p: Pool, late: nat) {
    && !p.core.closed && p.dialing == {} && p.unpublished == {} && p.pausing == {} && p.parked == {}
    && p.leaked == {} && p.abandoned == 0 && p.staleReturns == late
    && (forall h | h in p.stale :: h in p.core.conns && h !in p.core.idle && h !in p.core.active)
  }

  lemma SteadySockets(cfg: Config, acts: seq<Action>, late: nat)
    requires Steady(Reach(cfg, acts), late)
    ensures |OpenSockets(Reach(cfg, acts))| == Reach(cfg, acts).core.total + late
  {
    Account(cfg, acts);
    assert Dead(Reach(cfg, acts)) == {};
  }

  /** The first `n` clients have connections, and nobody else. */
  ghost predicate Out(cfg: Config, p: Pool, n: nat, late: nat) {
    && Steady(p, late) && p.core.idle == [] && p.core.total == n - late && p.draining == {}
    && (forall i: nat :: Client(i) in p.hands <==> i < n) && Warmer !in p.hands
    && (n == 0 ==> p.core.active == {}) && p.warm == Init(cfg).warm
  }

  lemma OutMore(cfg: Config, acts: seq<Action>, n: nat, late: nat) returns (more: seq<Action>)
    requires Out(cfg, Reach(cfg, acts), n, late) && n - late < cfg.maxConns
    ensures Out(cfg, Reach(cfg, more), n + 1, late)
    ensures n == 0 ==> var p := Reach(cfg, more); p.core.active == {p.hands[Client(0)]}
    ensures var p := Reach(cfg, more); Client(n) in p.hands && p.hands[Client(n)] in p.core.conns
    ensures var p := Reach(cfg, more); Client(n) in p.hands && !Old(cfg, p.core.conns, p.hands[Client(n)], p.now)
  {
    var p := Reach(cfg, acts);
    var h := NewHandle(p.core.conns.Keys);
    more := DoDial(cfg, acts, Client(n), h);
  }

  /** A forced drain while one connection is out, its return, and a drain of what it left. */
  lemma StaleCycle(cfg: Config, acts: seq<Action>, late: nat) returns (more: seq<Action>)
    requires Out(cfg, Reach(cfg, acts), 0, late) && cfg.maxConns >= 1
    ensures Out(cfg, Reach(cfg, more), 0, late + 1)
  {
    more := OutMore(cfg, acts, 0, late);
    var p := Reach(cfg, more);
    more := DoStaleReturn(cfg, more, Client(0), p.hands[Client(0)]);
    more := Do(cfg, more, Drain(0));
  }

  lemma {:induction false} StaleCycles(cfg: Config, late: nat) returns (acts: seq<Action>)
    requires cfg.maxConns >= 1
    ensures Out(cfg, Reach(cfg, acts), 0, late)
  {
    if late == 0 {
      acts := [];
    } else {
      acts := StaleCycles(cfg, late - 1);
      acts := StaleCycle(cfg, acts, late - 1);
    }
  }

  lemma {:induction false} OutFull(cfg: Config, n: nat, late: nat) returns (acts: seq<Action>)
    requires cfg.maxConns >= 1 && n <= cfg.maxConns + late
    ensures Out(cfg, Reach(cfg, acts), n, late)
  {
    if n == 0 {
      acts := StaleCycles(cfg, late);
    } else {
      acts := OutFull(cfg, n - 1, late);
      acts := OutMore(cfg, acts, n - 1, late);
    }
  }

  /** The warm-up has added `i` connections beyond `maxConns`. */
  ghost predicate Warmed(cfg: Config, p: Pool, i: nat, late: nat) {
    && Steady(p, late) && Warmer !in p.hands && p.core.total == cfg.maxConns + i
    && (i < cfg.minConns ==> p.warm == WarmReady(i))
  }

  lemma WarmMore(cfg: Config, acts: seq<Action>, i: nat, late: nat) returns (more: seq<Action>)
    requires Warmed(cfg, Reach(cfg, acts), i, late) && cfg.maxConns + i < cfg.minConns && cfg.maxConns >= 1
    ensures Warmed(cfg, Reach(cfg, more), i + 1, late)
  {
    var h := NewHandle(Reach(cfg, acts).core.conns.Keys);
    more := Do(cfg, acts, WarmReserve);
    more := Do(cfg, more, Dialled(Warmer, h, true));
    more := Do(cfg, more, Action.WarmStore);
    assert forall x | x in Reach(cfg, more).core.idle :: x in Reach(cfg, acts).core.idle || x == h;
  }

  lemma {:induction false} WarmFull(cfg: Config, i: nat, late: nat) returns (acts: seq<Action>)
    requires cfg.maxConns >= 1 && (i == 0 || cfg.maxConns + i <= cfg.minConns)
    ensures Warmed(cfg, Reach(cfg, acts), i, late)
  {
    if i == 0 {
      acts := OutFull(cfg, cfg.maxConns + late, late);
    } else {
      acts := WarmFull(cfg, i - 1, late);
      acts := WarmMore(cfg, acts, i - 1, late);
    }
  }

  /** For every configuration that allows a dial and every number of stale returns, some run has
      that many more sockets open than the capacity; its `total` is the capacity, which is more
      than `maxConns` if `minConns` is. */
  lemma CapacityBoundReached(cfg: Config, late: nat) returns (acts: seq<Action>)
    requires cfg.maxConns >= 1
    ensures var p := Reach(cfg, acts);
            p.staleReturns == late && p.core.total == Capacity(cfg) && |OpenSockets(p)| == Capacity(cfg) + late
  {
    var i := if cfg.minConns > cfg.maxConns then cfg.minConns - cfg.maxConns else 0;
    acts := WarmFull(cfg, i, late);
    SteadySockets(cfg, acts, late);
  }
}
