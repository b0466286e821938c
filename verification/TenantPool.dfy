/** `PooledConn` and `TenantPool` as the source has them: objects updated in
    place. Each method is one lock hold, and its postcondition says that the
    pool's view after it is the matching `PoolCore` function of the view before. */
module TenantPools {
  import opened PoolCore
  import C = PoolCore

  class PooledConn {
    var state: ConnState
    const createdAt: int
    var lastUsed: int
    var authenticated: bool
    var open: bool

    constructor (now: int)
      ensures Meta() == Conn(ConnIdle, now, now, false, true)
    {
      state, createdAt, lastUsed, authenticated, open := ConnIdle, now, now, false, true;
    }

    function Meta(): Conn
      reads this
    {
      Conn(state, createdAt, lastUsed, authenticated, open)
    }

    method SetAuthenticated()
      modifies this
      ensures Meta() == old(Meta()).(authenticated := true)
    {
      authenticated := true;
    }

    method MarkActive(now: int)
      modifies this
      ensures Meta() == old(Meta()).MarkActive(now)
    {
      state := ConnActive;
      lastUsed := now;
    }

    method MarkIdle(now: int)
      modifies this
      ensures Meta() == old(Meta()).MarkIdle(now)
    {
      state := ConnIdle;
      lastUsed := now;
    }

    method Close()
      modifies this
      ensures Meta() == old(Meta()).Close()
    {
      state := ConnClosed;
      open := false;
    }
  }

  class TenantPool {
    const cfg: Config
    var idle: seq<PooledConn>
    var active: set<PooledConn>
    var total: int
    var waiting: int
    var exhausted: int
    var closed: bool
    // every connection dialled for this pool
    ghost var conns: set<PooledConn>

    ghost predicate Valid()
      reads this, conns
    {
      Wf(View())
    }

    ghost function View(): Core<PooledConn>
      reads this, conns
    {
      Core(idle, active, total, waiting, exhausted, closed, Metas(conns))
    }

    static ghost function Metas(pcs: set<PooledConn>): map<PooledConn, Conn>
      reads pcs
      ensures Metas(pcs).Keys == pcs
    {
      map pc | pc in pcs :: pc.Meta()
    }

    constructor (cfg: Config)
      ensures Valid() && this.cfg == cfg
      ensures View() == Core([], {}, 0, 0, 0, false, map[])
    {
      this.cfg := cfg;
      idle, active, total, waiting, exhausted, closed := [], {}, 0, 0, 0, false;
      conns := {};
    }

    // The connection is closed and no longer counted.
    method Discard(pc: PooledConn)
      requires pc in conns
      modifies this`total, pc
      ensures View() == C.Discard(old(View()), pc)
    {
      pc.Close();
      total := total - 1;
    }

    // The connection is registered as handed out.
    method Publish(pc: PooledConn, now: int)
      requires pc in conns
      modifies this`active, pc
      ensures View() == C.Publish(old(View()), pc, now)
      ensures old(Valid()) && pc !in idle ==> Valid()
    {
      pc.MarkActive(now);
      active := active + {pc};
    }

    method PopNewest() returns (pc: PooledConn)
      requires |idle| > 0
      modifies this`idle
      ensures pc == old(idle)[|old(idle)| - 1]
      ensures View() == C.PopNewest(old(View()))
    {
      pc := idle[|idle| - 1];
      idle := idle[..|idle| - 1];
    }

    // Acquire's inner loop over the idle connections, newest first.
    method TakeIdle(now: int, dead: set<PooledConn>) returns (found: Outcome<PooledConn>)
      requires Valid()
      modifies this, conns
      ensures Valid() && conns == old(conns)
      ensures (View(), found) == C.TakeIdle(cfg, old(View()), now, dead)
    {
      ghost var v := View();
      TakeIdleWf(cfg, v, now, dead);
      while |idle| > 0
        invariant conns == old(conns) && Elems(idle) <= conns
        invariant C.TakeIdle(cfg, View(), now, dead) == C.TakeIdle(cfg, v, now, dead)
        decreases |idle|
      {
        var pc := PopNewest();
        if pc.Meta().IsExpired(cfg.maxLifetime, now) || (!pc.authenticated && pc in dead) {
          Discard(pc);
        } else {
          Publish(pc, now);
          return Got(pc);
        }
      }
      found := MustWait;
    }

    // Acquire, from the top of its loop until the lock is released.
    method TryAcquire(now: int, dead: set<PooledConn>) returns (r: Outcome<PooledConn>)
      requires Valid()
      modifies this, conns
      ensures Valid() && conns == old(conns)
      ensures (View(), r) == C.TryAcquire(cfg, old(View()), now, dead)
    {
      if closed {
        return Refused;
      }
      r := TakeIdle(now, dead);
      if r.Got? {
        return;
      }
      ghost var p := View();
      if total < cfg.maxConns {
        total := total + 1;
        assert View() == C.Reserve(p);
        r := Reserved;
      } else {
        waiting := waiting + 1;
        exhausted := exhausted + 1;
        assert View() == C.QueueUp(p);
        r := MustWait;
      }
    }

    // Acquire, from the return of `cond.Wait`.
    method Wake(now: int, dead: set<PooledConn>) returns (r: Outcome<PooledConn>)
      requires Valid()
      modifies this, conns
      ensures Valid() && conns == old(conns)
      ensures (View(), r) == C.Wake(cfg, old(View()), now, dead)
    {
      waiting := waiting - 1;
      assert View() == C.StopWaiting(old(View()));
      r := TryAcquire(now, dead);
    }

    // dial: a fresh connection, not yet registered anywhere.
    method Dial(now: int, auth: bool) returns (pc: PooledConn)
      requires Valid()
      modifies this
      ensures Valid() && fresh(pc) && conns == old(conns) + {pc}
      ensures View() == old(View()).(conns := old(View()).conns[pc := Conn(ConnIdle, now, now, auth, true)])
    {
      pc := new PooledConn(now);
      if auth {
        pc.SetAuthenticated();
      }
      conns := conns + {pc};
    }

    method Unreserve()
      requires Valid()
      modifies this
      ensures Valid() && conns == old(conns) && View() == C.Unreserve(old(View()))
    {
      total := total - 1;
    }

    method StopWaiting()
      requires Valid()
      modifies this
      ensures Valid() && conns == old(conns) && View() == C.StopWaiting(old(View()))
    {
      waiting := waiting - 1;
    }

    // The connection goes to the end of the idle list.
    method StoreIdle(pc: PooledConn, now: int)
      requires pc in conns
      modifies this`idle, pc
      ensures View() == C.StoreIdle(old(View()), pc, now)
    {
      pc.MarkIdle(now);
      idle := idle + [pc];
    }

    method Return(pc: PooledConn, now: int)
      requires Valid() && pc in conns
      modifies this, pc
      ensures old(pc !in idle) ==> Valid()
      ensures conns == old(conns) && View() == C.Return(cfg, old(View()), pc, now)
    {
      ReturnWf(cfg, View(), pc, now);
      active := active - {pc};
      assert View() == C.Deregister(old(View()), pc);
      if closed || pc.Meta().IsExpired(cfg.maxLifetime, now) {
        Discard(pc);
      } else {
        StoreIdle(pc, now);
      }
    }

    method ReapIdle(now: int)
      requires Valid()
      modifies this, conns
      ensures Valid() && conns == old(conns)
      ensures View() == C.Reap(cfg, old(View()), now)
    {
      if |idle| <= cfg.minConns {
        return;
      }
      ghost var v := View();
      ReapWf(cfg, v, now);
      var kept := [];
      var excess := |idle| - cfg.minConns;
      for i := 0 to |idle|
        invariant conns == old(conns) && kept == Kept(cfg, v, i, now) && View() == Reaping(cfg, v, i, now)
      {
        ReapOne(cfg, v, i, now);
        var pc := idle[i];
        assert pc == v.idle[i] && pc.Meta() == v.conns[pc];
        if i < excess && (pc.Meta().IsIdle(cfg.idleTimeout, now) || pc.Meta().IsExpired(cfg.maxLifetime, now)) {
          Discard(pc);
        } else {
          kept := kept + [pc];
        }
      }
      idle := kept;
    }

    // Drain, first lock hold.
    method DrainIdle() returns (activeCount: nat)
      requires Valid()
      modifies this, conns
      ensures Valid() && conns == old(conns) && activeCount == |active|
      ensures View() == C.DrainIdle(old(View()))
    {
      ghost var v := View();
      for i := 0 to |idle|
        invariant conns == old(conns) && View() == Draining(v, i)
      {
        assert idle[i] in Elems(v.idle);
        DrainOne(v, i);
        Discard(idle[i]);
      }
      idle := [];
      activeCount := |active|;
    }

    // Drain, the lock hold after the timeout.
    method ForceDrain()
      requires Valid()
      modifies this, conns
      ensures Valid() && conns == old(conns)
      ensures View() == C.ForceDrain(old(View()))
    {
      ghost var v := View();
      var rest := active;
      while rest != {}
        invariant conns == old(conns) && rest <= v.active && View() == Forcing(v, rest)
        decreases rest
      {
        var pc :| pc in rest;
        ForceOne(v, rest, pc);
        Discard(pc);
        rest := rest - {pc};
      }
      active := {};
    }

    method Close() returns (first: bool)
      requires Valid()
      modifies this
      ensures Valid() && conns == old(conns) && first == !old(closed)
      ensures View() == C.CloseGate(old(View()))
    {
      if closed {
        return false;
      }
      closed := true;
      return true;
    }

    // warmUp, the lock hold that opens an iteration.
    method WarmReserve() returns (go: bool)
      requires Valid()
      modifies this
      ensures Valid() && conns == old(conns) && go == WarmMayReserve(cfg, old(View()))
      ensures View() == if go then C.Reserve(old(View())) else old(View())
    {
      if closed || total >= cfg.minConns {
        return false;
      }
      total := total + 1;
      return true;
    }

    // warmUp, the lock hold that ends an iteration.
    method WarmStore(pc: PooledConn, now: int) returns (stored: bool)
      requires Valid() && pc in conns && pc !in idle && pc !in active
      modifies this, pc
      ensures Valid() && conns == old(conns) && stored == !closed
      ensures View() == C.WarmStore(old(View()), pc, now)
    {
      if closed {
        pc.Close();
        return false;
      }
      StoreIdle(pc, now);
      return true;
    }
  }
}
