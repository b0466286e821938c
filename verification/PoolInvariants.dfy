/** What every interleaving of the pool's steps keeps. */
module PoolInvariants {
  import opened PoolCore
  import opened PoolMachine
  import C = PoolCore

  type Conns = map<Handle, Conn>
  type Hands = map<Tid, Handle>

  // ---- The invariant, clause by clause ----

  /** Idle connections are known, distinct, marked idle and not active. */
  ghost predicate IdleOk(idle: seq<Handle>, active: set<Handle>, conns: Conns) {
    && NoDup(idle)
    && (forall h | h in idle :: h in conns && h !in active && conns[h].state == ConnIdle)
    && (forall h | h in active :: h in conns)
  }

  /** A connection in some thread's hands is in neither the idle list nor the hands of
      another thread; it is registered as active unless it has just been dialled or a
      forced drain has closed it. */
  ghost predicate Owned(idle: seq<Handle>, active: set<Handle>, conns: Conns, hands: Hands, unpublished: set<Tid>) {
    && (forall t | t in hands ::
          && hands[t] in conns && hands[t] !in idle
          && (if t in unpublished then hands[t] !in active else hands[t] in active || !conns[hands[t]].open))
    && (forall t, u | t in hands && u in hands && hands[t] == hands[u] :: t == u)
    && (forall t | t in unpublished :: t in hands)
  }

  /** A connection closed by its holder stays registered as active and in nobody's hands;
      every other active connection is in somebody's hands. */
  ghost predicate Leaks(active: set<Handle>, conns: Conns, hands: Hands, unpublished: set<Tid>, leaked: set<Handle>) {
    && (forall h | h in leaked :: h in active && h in conns && !conns[h].open)
    && (forall t | t in hands :: hands[t] !in leaked)
    && (forall h | h in active && h !in leaked :: HeldBySome(hands, unpublished, h))
  }

  ghost predicate HeldBySome(hands: Hands, unpublished: set<Tid>, h: Handle) {
    exists t :: t in hands && t !in unpublished && hands[t] == h
  }

  ghost predicate JustDialled(hands: Hands, unpublished: set<Tid>, h: Handle) {
    exists t :: t in unpublished && t in hands && hands[t] == h
  }

  /** Every open socket is idle, active or just dialled. */
  ghost predicate Accounted(idle: seq<Handle>, active: set<Handle>, conns: Conns, hands: Hands, unpublished: set<Tid>) {
    forall h | h in conns && conns[h].open :: h in idle || h in active || JustDialled(hands, unpublished, h)
  }

  ghost predicate Own(p: Pool) {
    && IdleOk(p.core.idle, p.core.active, p.core.conns)
    && Owned(p.core.idle, p.core.active, p.core.conns, p.hands, p.unpublished)
    && Leaks(p.core.active, p.core.conns, p.hands, p.unpublished, p.leaked)
    && Accounted(p.core.idle, p.core.active, p.core.conns, p.hands, p.unpublished)
  }

  /** A stale connection is closed for good; a closed connection that is idle, or held and
      active, is a stale one. */
  ghost predicate Living(idle: seq<Handle>, active: set<Handle>, conns: Conns, hands: Hands, unpublished: set<Tid>,
                         stale: set<Handle>) {
    && (forall h | h in stale :: h in conns && !conns[h].open)
    && (forall h | h in idle && h in conns :: conns[h].open || h in stale)
    && (forall t | t in hands && hands[t] in conns && (t in unpublished || hands[t] in active) ::
          conns[hands[t]].open || (t !in unpublished && hands[t] in stale))
  }

  ghost predicate Live(p: Pool) {
    && Living(p.core.idle, p.core.active, p.core.conns, p.hands, p.unpublished, p.stale)
    && (p.stale == {} <==> p.staleReturns == 0)
  }

  /** Each thread is in at most one place. */
  ghost predicate Placed(p: Pool) {
    Apart(p.hands, p.unpublished, p.dialing, p.pausing, p.parked) && Warmth(p.hands, p.unpublished, p.dialing, p.warm)
  }

  ghost predicate Apart(hands: Hands, unpublished: set<Tid>, dialing: set<Tid>, pausing: set<Tid>, parked: set<Tid>) {
    && (forall t | t in unpublished :: t in hands)
    && (forall t | t in dialing :: t !in hands && t !in pausing && t !in parked)
    && (forall t | t in pausing :: t !in hands && t !in parked)
    && (forall t | t in parked :: t !in hands)
    && Warmer !in pausing && Warmer !in parked
  }

  ghost predicate Warmth(hands: Hands, unpublished: set<Tid>, dialing: set<Tid>, warm: Warm) {
    && (Warmer in hands ==> Warmer in unpublished)
    && (Warmer in dialing || Warmer in hands <==> warm.WarmBusy?)
  }

  /** Conservation, with the two paths that lose count made explicit, over plain numbers. */
  predicate Balanced(total: int, late: nat, idle: nat, active: nat, dialing: nat, unpublished: nat, abandoned: nat) {
    total + late == idle + active + dialing + unpublished + abandoned
  }

  function Max(a: int, b: int): int {
    if a < b then b else a
  }

  function Capacity(cfg: Config): int {
    Max(0, Max(cfg.minConns, cfg.maxConns))
  }

  ghost predicate Tallied(cfg: Config, p: Pool) {
    && Balanced(p.core.total, p.staleReturns, |p.core.idle|, |p.core.active|, |p.dialing|, |p.unpublished|, p.abandoned)
    && p.core.total <= Capacity(cfg)
    && p.core.waiting == |p.pausing| + |p.parked|
    && p.abandoned <= 1
    && (p.abandoned == 1 ==> p.core.closed && p.warm.WarmOff?)
  }

  ghost predicate SortedByUse(idle: seq<Handle>, conns: Conns) {
    forall i, j | 0 <= i < j < |idle| ::
      idle[i] in conns && idle[j] in conns ==> conns[idle[i]].lastUsed <= conns[idle[j]].lastUsed
  }

  /** The idle list is ordered by last use, and no time stamp is in the future. */
  ghost predicate Ordered(idle: seq<Handle>, conns: Conns, now: int) {
    && (forall h | h in conns :: conns[h].lastUsed <= now)
    && SortedByUse(idle, conns)
  }

  ghost predicate Inv(cfg: Config, p: Pool) {
    Own(p) && Live(p) && Placed(p) && Tallied(cfg, p) && Ordered(p.core.idle, p.core.conns, p.now)
  }

  // ---- Discarding idle connections ----

  /** `kept` is what is left of the idle list when the other idle connections are discarded. */
  function Drop(p: Pool, kept: seq<Handle>): Pool {
    p.(core := p.core.(idle := kept, total := p.core.total - (|p.core.idle| - |kept|),
                       conns := CloseAll(p.core.conns, Elems(p.core.idle) - Elems(kept))))
  }

  ghost predicate Thins(c: Core<Handle>, kept: seq<Handle>) {
    && NoDup(kept) && |kept| <= |c.idle|
    && (forall h | h in kept :: h in c.idle)
    && SortedByUse(kept, c.conns)
  }

  lemma DropOwn(p: Pool, kept: seq<Handle>)
    requires Own(p) && Thins(p.core, kept)
    ensures Own(Drop(p, kept))
  {
  }

  lemma DropLive(p: Pool, kept: seq<Handle>)
    requires Own(p) && Live(p) && Thins(p.core, kept)
    ensures Live(Drop(p, kept))
  {
  }

  lemma DropOrdered(p: Pool, kept: seq<Handle>)
    requires Ordered(p.core.idle, p.core.conns, p.now) && Thins(p.core, kept)
    ensures Ordered(kept, Drop(p, kept).core.conns, p.now)
  {
  }

  lemma DropTallied(cfg: Config, p: Pool, kept: seq<Handle>)
    requires Tallied(cfg, p) && |kept| <= |p.core.idle|
    ensures Tallied(cfg, Drop(p, kept))
  {
  }

  lemma DropInv(cfg: Config, p: Pool, kept: seq<Handle>)
    requires Inv(cfg, p) && Thins(p.core, kept)
    ensures Inv(cfg, Drop(p, kept))
  {
    DropOwn(p, kept);
    DropLive(p, kept);
    DropOrdered(p, kept);
    DropTallied(cfg, p, kept);
  }

  lemma DropFromIsDrop(p: Pool, n: nat)
    requires n <= |p.core.idle| && NoDup(p.core.idle) && SortedByUse(p.core.idle, p.core.conns)
    ensures Drop(p, p.core.idle[..n]) == p.(core := DropFrom(p.core, n))
    ensures Thins(p.core, p.core.idle[..n])
  {
    var idle := p.core.idle;
    assert Elems(idle) - Elems(idle[..n]) == Elems(idle[n..]) by {
      assert idle == idle[..n] + idle[n..];
      assert forall h | h in idle[n..] :: h !in idle[..n];
    }
  }

  lemma DrainIsDrop(c: Core<Handle>)
    ensures C.DrainIdle(c) ==
            c.(idle := [], total := c.total - |c.idle|, conns := CloseAll(c.conns, Elems(c.idle) - Elems<Handle>([])))
  {
    assert Elems(c.idle[..|c.idle|]) == Elems(c.idle) - Elems<Handle>([]);
  }

  lemma KeptThins(cfg: Config, c: Core<Handle>, n: nat, now: int)
    requires n <= |c.idle| && NoDup(c.idle) && SortedByUse(c.idle, c.conns)
    ensures Thins(c, Kept(cfg, c, n, now))
    ensures forall h | h in Kept(cfg, c, n, now) :: h in c.idle[..n]
  {
    KeptMeans(cfg, c, n, now);
    if n > 0 {
      KeptThins(cfg, c, n - 1, now);
      var rest := Kept(cfg, c, n - 1, now);
      forall j | 0 <= j < |rest|
        ensures exists i :: 0 <= i < n - 1 && c.idle[i] == rest[j]
      {
        assert rest[j] in c.idle[..n - 1];
      }
    }
  }

  lemma ReapIsDrop(cfg: Config, p: Pool)
    requires NoDup(p.core.idle) && SortedByUse(p.core.idle, p.core.conns) && |p.core.idle| > cfg.minConns
    ensures var kept := Kept(cfg, p.core, |p.core.idle|, p.now);
            StepReap(cfg, p) == Drop(p, kept) && Thins(p.core, kept)
  {
    var n := |p.core.idle|;
    var kept := Kept(cfg, p.core, n, p.now);
    KeptThins(cfg, p.core, n, p.now);
    KeptMeans(cfg, p.core, n, p.now);
    assert Doomed(cfg, p.core, n, p.now) == Elems(p.core.idle) - Elems(kept);
  }

  lemma ReapInv(cfg: Config, p: Pool)
    requires Inv(cfg, p)
    ensures Inv(cfg, Next(cfg, p, Reap))
  {
    if |p.core.idle| > cfg.minConns {
      ReapIsDrop(cfg, p);
      DropInv(cfg, p, Kept(cfg, p.core, |p.core.idle|, p.now));
    }
  }

  lemma DrainSplits(cfg: Config, p: Pool, d: nat)
    ensures Next(cfg, p, Drain(d)) == Drop(p, []).(draining := Next(cfg, p, Drain(d)).draining)
  {
    DrainIsDrop(p.core);
  }

  lemma DrainInv(cfg: Config, p: Pool, d: nat)
    requires Inv(cfg, p)
    ensures Inv(cfg, Next(cfg, p, Drain(d)))
  {
    DrainSplits(cfg, p, d);
    DropInv(cfg, p, []);
    DrainingInv(cfg, Drop(p, []), Next(cfg, p, Drain(d)));
  }

  /** Who is draining does not matter. */
  lemma DrainingInv(cfg: Config, p: Pool, q: Pool)
    requires Inv(cfg, p) && q == p.(draining := q.draining)
    ensures Inv(cfg, q)
  {
  }

  // ---- Acquiring ----

  function TakeNewest(p: Pool, t: Tid): Pool
    requires p.core.idle != []
  {
    var h := p.core.idle[|p.core.idle| - 1];
    p.(core := C.Publish(PopNewest(p.core), h, p.now), hands := p.hands[t := h])
  }

  lemma TakeNewestOwned(p: Pool, t: Tid)
    requires p.core.idle != [] && t !in p.hands && Own(p)
    ensures var q := TakeNewest(p, t);
            && IdleOk(q.core.idle, q.core.active, q.core.conns)
            && Owned(q.core.idle, q.core.active, q.core.conns, q.hands, q.unpublished)
            && Accounted(q.core.idle, q.core.active, q.core.conns, q.hands, q.unpublished)
  {
    assert forall h | JustDialled(p.hands, p.unpublished, h) :: JustDialled(TakeNewest(p, t).hands, p.unpublished, h);
  }

  /** A thread without a connection gets one: everybody keeps theirs. */
  lemma MoreHands(hands: Hands, unpublished: set<Tid>, t: Tid, h: Handle, x: Handle)
    requires t !in hands && HeldBySome(hands, unpublished, x)
    ensures HeldBySome(hands[t := h], unpublished, x)
  {
    var u :| u in hands && u !in unpublished && hands[u] == x;
    assert hands[t := h][u] == x;
  }

  /** A thread lets go of its connection: the others keep theirs. */
  lemma FewerHands(hands: Hands, unpublished: set<Tid>, t: Tid, x: Handle)
    requires HeldBySome(hands, unpublished, x) && (t in hands ==> hands[t] != x)
    ensures HeldBySome(hands - {t}, unpublished, x) && HeldBySome(hands - {t}, unpublished - {t}, x)
  {
    var u :| u in hands && u !in unpublished && hands[u] == x;
    assert (hands - {t})[u] == x;
  }

  lemma TakeNewestLeaks(p: Pool, t: Tid)
    requires p.core.idle != [] && t !in p.hands && Own(p)
    ensures var q := TakeNewest(p, t); Leaks(q.core.active, q.core.conns, q.hands, q.unpublished, q.leaked)
  {
    var h := p.core.idle[|p.core.idle| - 1];
    var q := TakeNewest(p, t);
    assert h in p.core.idle && t !in p.unpublished;
    forall x | x in q.core.active && x !in q.leaked
      ensures HeldBySome(q.hands, q.unpublished, x)
    {
      if x == h {
        assert q.hands[t] == h;
      } else {
        MoreHands(p.hands, p.unpublished, t, h, x);
      }
    }
  }

  lemma TakeNewestLive(p: Pool, t: Tid)
    requires p.core.idle != [] && t !in p.hands && Own(p) && Live(p)
    ensures Live(TakeNewest(p, t))
  {
  }

  lemma TakeNewestTallied(cfg: Config, p: Pool, t: Tid)
    requires p.core.idle != [] && Own(p) && Tallied(cfg, p)
    ensures Tallied(cfg, TakeNewest(p, t))
  {
    assert p.core.idle[|p.core.idle| - 1] !in p.core.active;
  }

  lemma TakeNewestOrdered(p: Pool, t: Tid)
    requires p.core.idle != [] && Own(p) && Ordered(p.core.idle, p.core.conns, p.now)
    ensures var q := TakeNewest(p, t); Ordered(q.core.idle, q.core.conns, q.now)
  {
  }

  lemma TakeNewestInv(cfg: Config, p: Pool, t: Tid)
    requires p.core.idle != [] && Free(p, t) && Inv(cfg, p)
    ensures Inv(cfg, TakeNewest(p, t))
  {
    TakeNewestOwned(p, t);
    TakeNewestLeaks(p, t);
    TakeNewestLive(p, t);
    TakeNewestTallied(cfg, p, t);
    TakeNewestOrdered(p, t);
  }

  function Reserving(p: Pool, t: Tid): Pool {
    p.(core := Reserve(p.core), dialing := p.dialing + {t})
  }

  lemma ReservingInv(cfg: Config, p: Pool, t: Tid)
    requires Inv(cfg, p) && Free(p, t) && p.core.total < cfg.maxConns
    ensures Inv(cfg, Reserving(p, t))
  {
  }

  function Lining(p: Pool, t: Tid): Pool {
    p.(core := QueueUp(p.core), pausing := p.pausing + {t})
  }

  lemma LiningInv(cfg: Config, p: Pool, t: Tid)
    requires Inv(cfg, p) && Free(p, t)
    ensures Inv(cfg, Lining(p, t))
  {
  }

  /** What Acquire does once the unusable connections are gone: take the newest idle
      connection, else reserve, else wait. */
  function Settle(cfg: Config, q: Pool, t: Tid): Pool {
    if q.core.idle != [] then TakeNewest(q, t)
    else if q.core.total < cfg.maxConns then Reserving(q, t)
    else Lining(q, t)
  }

  /** The pool once Acquire has discarded the idle connections newer than the one it takes. */
  function Pruned(cfg: Config, p: Pool, dead: set<Handle>): Pool {
    Drop(p, p.core.idle[..LastUsable(cfg, p.core.idle, p.core.conns, p.now, dead) + 1])
  }

  /** What one lock hold of Acquire on an open pool means to the pool, given what its loop found. */
  function Settled(cfg: Config, p: Pool, t: Tid, found: (Core<Handle>, Outcome<Handle>)): Pool {
    Follow(p.(core := Decide(cfg, found).0), t, Decide(cfg, found).1)
  }

  lemma SettleNone(cfg: Config, p: Pool, d: Core<Handle>, t: Tid)
    requires d.idle == []
    ensures Settled(cfg, p, t, (d, MustWait)) == Settle(cfg, p.(core := d), t)
  {
  }

  lemma SettleGot(cfg: Config, p: Pool, d: Core<Handle>, t: Tid, h: Handle)
    requires d.idle != [] && h == d.idle[|d.idle| - 1]
    ensures Settled(cfg, p, t, (C.Publish(PopNewest(d), h, p.now), Got(h))) == Settle(cfg, p.(core := d), t)
  {
  }

  lemma SettleTaken(cfg: Config, p: Pool, k: int, t: Tid)
    requires -1 <= k < |p.core.idle|
    ensures Settled(cfg, p, t, Taken(p.core, k, p.now)) == Settle(cfg, p.(core := DropFrom(p.core, k + 1)), t)
  {
    var d := DropFrom(p.core, k + 1);
    assert d.idle == p.core.idle[..k + 1];
    if k >= 0 {
      assert d.idle[k] == p.core.idle[k];
      SettleGot(cfg, p, d, t, d.idle[k]);
    } else {
      SettleNone(cfg, p, d, t);
    }
  }

  lemma AcquireSplits(cfg: Config, p: Pool, t: Tid, dead: set<Handle>)
    requires NoDup(p.core.idle) && SortedByUse(p.core.idle, p.core.conns) && !p.core.closed
    ensures StepAcquire(cfg, p, t, dead) == Settle(cfg, Pruned(cfg, p, dead), t)
    ensures Thins(p.core, Pruned(cfg, p, dead).core.idle)
    ensures forall h | h in Pruned(cfg, p, dead).core.idle :: h in p.core.idle
  {
    TakeIdleMeans(cfg, p.core, p.now, dead);
    var k := LastUsable(cfg, p.core.idle, p.core.conns, p.now, dead);
    SettleTaken(cfg, p, k, t);
    assert StepAcquire(cfg, p, t, dead) == Settled(cfg, p, t, Taken(p.core, k, p.now));
    DropFromIsDrop(p, k + 1);
  }

  lemma SettleInv(cfg: Config, q: Pool, t: Tid)
    requires Inv(cfg, q) && Free(q, t)
    ensures Inv(cfg, Settle(cfg, q, t))
  {
    if q.core.idle != [] {
      TakeNewestInv(cfg, q, t);
    } else if q.core.total < cfg.maxConns {
      ReservingInv(cfg, q, t);
    } else {
      LiningInv(cfg, q, t);
    }
  }

  lemma AcquireInv(cfg: Config, p: Pool, t: Tid, dead: set<Handle>)
    requires Inv(cfg, p) && Free(p, t)
    ensures Inv(cfg, StepAcquire(cfg, p, t, dead))
  {
    if !p.core.closed {
      AcquireSplits(cfg, p, t, dead);
      DropInv(cfg, p, Pruned(cfg, p, dead).core.idle);
      SettleInv(cfg, Pruned(cfg, p, dead), t);
    }
  }

  lemma WakeLateInv(cfg: Config, p: Pool, t: Tid)
    requires Inv(cfg, p) && t in p.parked
    ensures Inv(cfg, StepWakeLate(p, t)) && Free(StepWakeLate(p, t), t)
  {
  }

  lemma WakeInv(cfg: Config, p: Pool, t: Tid, dead: set<Handle>)
    requires Inv(cfg, p)
    ensures Inv(cfg, Next(cfg, p, Action.Wake(t, dead)))
  {
    if t in p.parked {
      WakeLateInv(cfg, p, t);
      AcquireInv(cfg, StepWakeLate(p, t), t, dead);
    }
  }

  lemma GiveUpInv(cfg: Config, p: Pool, t: Tid)
    requires Inv(cfg, p)
    ensures Inv(cfg, Next(cfg, p, Action.GiveUp(t)))
  {
  }

  lemma ParkInv(cfg: Config, p: Pool, t: Tid)
    requires Inv(cfg, p)
    ensures Inv(cfg, Next(cfg, p, Action.Park(t)))
  {
  }

  // ---- Dialling ----

  lemma DialledOwned(p: Pool, t: Tid, h: Handle, auth: bool)
    requires Own(p) && t !in p.hands && h !in p.core.conns
    ensures var q := StepDialled(p, t, h, auth);
            && IdleOk(q.core.idle, q.core.active, q.core.conns)
            && Owned(q.core.idle, q.core.active, q.core.conns, q.hands, q.unpublished)
  {
  }

  lemma DialledAccounted(p: Pool, t: Tid, h: Handle, auth: bool)
    requires Own(p) && t !in p.hands && h !in p.core.conns
    ensures var q := StepDialled(p, t, h, auth);
            Accounted(q.core.idle, q.core.active, q.core.conns, q.hands, q.unpublished)
  {
    var q := StepDialled(p, t, h, auth);
    assert t in q.unpublished && q.hands[t] == h;
    forall x | JustDialled(p.hands, p.unpublished, x)
      ensures JustDialled(q.hands, q.unpublished, x)
    {
      var u :| u in p.unpublished && u in p.hands && p.hands[u] == x;
      assert u in q.unpublished && q.hands[u] == x;
    }
  }

  lemma DialledLeaks(p: Pool, t: Tid, h: Handle, auth: bool)
    requires Own(p) && t !in p.hands && h !in p.core.conns
    ensures var q := StepDialled(p, t, h, auth); Leaks(q.core.active, q.core.conns, q.hands, q.unpublished, q.leaked)
  {
    var q := StepDialled(p, t, h, auth);
    forall x | x in q.core.active && x !in q.leaked
      ensures HeldBySome(q.hands, q.unpublished, x)
    {
      var u :| u in p.hands && u !in p.unpublished && p.hands[u] == x;
      assert u in q.hands && u !in q.unpublished && q.hands[u] == x;
    }
  }

  lemma DialledLive(p: Pool, t: Tid, h: Handle, auth: bool)
    requires Own(p) && Live(p) && t !in p.hands && h !in p.core.conns
    ensures Live(StepDialled(p, t, h, auth))
  {
  }

  lemma DialledPlaced(p: Pool, t: Tid, h: Handle, auth: bool)
    requires Placed(p) && t in p.dialing
    ensures Placed(StepDialled(p, t, h, auth))
  {
  }

  lemma DialledTallied(cfg: Config, p: Pool, t: Tid, h: Handle, auth: bool)
    requires Placed(p) && Tallied(cfg, p) && t in p.dialing
    ensures Tallied(cfg, StepDialled(p, t, h, auth))
  {
    assert t !in p.unpublished;
  }

  lemma DialledOrdered(p: Pool, t: Tid, h: Handle, auth: bool)
    requires Own(p) && Ordered(p.core.idle, p.core.conns, p.now) && h !in p.core.conns
    ensures var q := StepDialled(p, t, h, auth); Ordered(q.core.idle, q.core.conns, q.now)
  {
  }

  lemma DialledInv(cfg: Config, p: Pool, t: Tid, h: Handle, auth: bool)
    requires Inv(cfg, p)
    ensures Inv(cfg, Next(cfg, p, Action.Dialled(t, h, auth)))
  {
    if t in p.dialing && h !in p.core.conns {
      DialledOwned(p, t, h, auth);
      DialledAccounted(p, t, h, auth);
      DialledLeaks(p, t, h, auth);
      DialledLive(p, t, h, auth);
      DialledPlaced(p, t, h, auth);
      DialledTallied(cfg, p, t, h, auth);
      DialledOrdered(p, t, h, auth);
    }
  }

  lemma DialFailedInv(cfg: Config, p: Pool, t: Tid)
    requires Inv(cfg, p)
    ensures Inv(cfg, Next(cfg, p, Action.DialFailed(t)))
  {
  }

  /** The connection `t` has just dialled becomes somebody else's business. */
  lemma Undialled(hands: Hands, unpublished: set<Tid>, t: Tid, x: Handle)
    requires t in unpublished && t in hands && JustDialled(hands, unpublished, x) && x != hands[t]
    ensures JustDialled(hands, unpublished - {t}, x) && JustDialled(hands - {t}, unpublished - {t}, x)
  {
    var u :| u in unpublished && u in hands && hands[u] == x;
    assert (hands - {t})[u] == x;
  }

  lemma PublishOwn(p: Pool, t: Tid)
    requires Own(p) && t in p.unpublished
    ensures Own(StepPublish(p, t))
  {
    var q := StepPublish(p, t);
    forall x | JustDialled(p.hands, p.unpublished, x) && x != p.hands[t]
      ensures JustDialled(q.hands, q.unpublished, x)
    {
      Undialled(p.hands, p.unpublished, t, x);
    }
    forall x | HeldBySome(p.hands, p.unpublished, x)
      ensures HeldBySome(q.hands, q.unpublished, x)
    {
      var u :| u in p.hands && u !in p.unpublished && p.hands[u] == x;
      assert u !in q.unpublished && q.hands[u] == x;
    }
    assert t !in q.unpublished && q.hands[t] == p.hands[t];
  }

  lemma PublishLive(p: Pool, t: Tid)
    requires Own(p) && Live(p) && t in p.unpublished
    ensures Live(StepPublish(p, t))
  {
  }

  lemma PublishTallied(cfg: Config, p: Pool, t: Tid)
    requires Own(p) && Tallied(cfg, p) && t in p.unpublished
    ensures Tallied(cfg, StepPublish(p, t))
  {
    assert p.hands[t] !in p.core.active;
  }

  lemma PublishOrdered(p: Pool, t: Tid)
    requires Own(p) && Ordered(p.core.idle, p.core.conns, p.now) && t in p.unpublished
    ensures var q := StepPublish(p, t); Ordered(q.core.idle, q.core.conns, q.now)
  {
  }

  lemma PublishInv(cfg: Config, p: Pool, t: Tid)
    requires Inv(cfg, p) && t.Client? && t in p.unpublished
    ensures Inv(cfg, StepPublish(p, t))
  {
    PublishOwn(p, t);
    PublishLive(p, t);
    PublishTallied(cfg, p, t);
    PublishOrdered(p, t);
  }

  // ---- Returning and closing ----

  lemma ReturnOwned(cfg: Config, p: Pool, t: Tid)
    requires Own(p) && t in p.hands && t !in p.unpublished
    ensures var q := StepReturn(cfg, p, t);
            && IdleOk(q.core.idle, q.core.active, q.core.conns)
            && Owned(q.core.idle, q.core.active, q.core.conns, q.hands, q.unpublished)
  {
  }

  lemma ReturnAccounted(cfg: Config, p: Pool, t: Tid)
    requires Own(p) && t in p.hands && t !in p.unpublished
    ensures var q := StepReturn(cfg, p, t);
            Accounted(q.core.idle, q.core.active, q.core.conns, q.hands, q.unpublished)
  {
    var q := StepReturn(cfg, p, t);
    forall x | JustDialled(p.hands, p.unpublished, x)
      ensures JustDialled(q.hands, q.unpublished, x)
    {
      var u :| u in p.unpublished && u in p.hands && p.hands[u] == x;
      assert q.hands[u] == x;
    }
  }

  lemma ReturnLeaks(cfg: Config, p: Pool, t: Tid)
    requires Own(p) && t in p.hands && t !in p.unpublished
    ensures var q := StepReturn(cfg, p, t); Leaks(q.core.active, q.core.conns, q.hands, q.unpublished, q.leaked)
  {
    var q := StepReturn(cfg, p, t);
    forall x | x in q.core.active && x !in q.leaked
      ensures HeldBySome(q.hands, q.unpublished, x)
    {
      FewerHands(p.hands, p.unpublished, t, x);
    }
  }

  lemma ReturnLive(cfg: Config, p: Pool, t: Tid)
    requires Own(p) && Live(p) && t in p.hands && t !in p.unpublished
    ensures Live(StepReturn(cfg, p, t))
  {
  }

  lemma ReturnTallied(cfg: Config, p: Pool, t: Tid)
    requires Tallied(cfg, p) && t in p.hands
    ensures Tallied(cfg, StepReturn(cfg, p, t))
  {
  }

  /** A connection that becomes idle now goes to the end of the idle list. */
  lemma StoreOrdered(idle: seq<Handle>, conns: Conns, h: Handle, now: int)
    requires Ordered(idle, conns, now) && h !in idle
    ensures Ordered(idle + [h], MarkIdleIn(conns, h, now), now)
  {
  }

  lemma ReturnOrdered(cfg: Config, p: Pool, t: Tid)
    requires Own(p) && Ordered(p.core.idle, p.core.conns, p.now) && t in p.hands
    ensures var q := StepReturn(cfg, p, t); Ordered(q.core.idle, q.core.conns, q.now)
  {
    StoreOrdered(p.core.idle, p.core.conns, p.hands[t], p.now);
  }

  lemma LetGoPlaced(p: Pool, t: Tid, q: Pool)
    requires Placed(p) && t !in p.unpublished
    requires q.hands == p.hands - {t} && q.unpublished == p.unpublished && q.dialing == p.dialing
    requires q.pausing == p.pausing && q.parked == p.parked && q.warm == p.warm
    ensures Placed(q)
  {
  }

  lemma ReturnInv(cfg: Config, p: Pool, t: Tid)
    requires Inv(cfg, p)
    ensures Inv(cfg, Next(cfg, p, Action.Return(t)))
  {
    if t in p.hands && t !in p.unpublished {
      ReturnOwned(cfg, p, t);
      ReturnAccounted(cfg, p, t);
      ReturnLeaks(cfg, p, t);
      ReturnLive(cfg, p, t);
      ReturnTallied(cfg, p, t);
      ReturnOrdered(cfg, p, t);
      LetGoPlaced(p, t, StepReturn(cfg, p, t));
    }
  }

  lemma CloseHandleOwned(p: Pool, t: Tid)
    requires Own(p) && t in p.hands && t !in p.unpublished
    ensures var q := StepCloseHandle(p, t);
            && IdleOk(q.core.idle, q.core.active, q.core.conns)
            && Owned(q.core.idle, q.core.active, q.core.conns, q.hands, q.unpublished)
  {
  }

  lemma CloseHandleAccounted(p: Pool, t: Tid)
    requires Own(p) && t in p.hands && t !in p.unpublished
    ensures var q := StepCloseHandle(p, t);
            Accounted(q.core.idle, q.core.active, q.core.conns, q.hands, q.unpublished)
  {
    var q := StepCloseHandle(p, t);
    forall x | JustDialled(p.hands, p.unpublished, x)
      ensures JustDialled(q.hands, q.unpublished, x)
    {
      var u :| u in p.unpublished && u in p.hands && p.hands[u] == x;
      assert q.hands[u] == x;
    }
  }

  lemma CloseHandleLeaks(p: Pool, t: Tid)
    requires Own(p) && t in p.hands && t !in p.unpublished
    ensures var q := StepCloseHandle(p, t); Leaks(q.core.active, q.core.conns, q.hands, q.unpublished, q.leaked)
  {
    var q := StepCloseHandle(p, t);
    forall x | x in q.core.active && x !in q.leaked
      ensures HeldBySome(q.hands, q.unpublished, x)
    {
      FewerHands(p.hands, p.unpublished, t, x);
    }
  }

  lemma CloseHandleLive(p: Pool, t: Tid)
    requires Own(p) && Live(p) && t in p.hands
    ensures Live(StepCloseHandle(p, t))
  {
  }

  lemma CloseHandleInv(cfg: Config, p: Pool, t: Tid)
    requires Inv(cfg, p) && t in p.hands && t !in p.unpublished
    ensures Inv(cfg, StepCloseHandle(p, t))
  {
    CloseHandleOwned(p, t);
    CloseHandleAccounted(p, t);
    CloseHandleLeaks(p, t);
    CloseHandleLive(p, t);
    LetGoPlaced(p, t, StepCloseHandle(p, t));
  }

  lemma DrainForceOwn(p: Pool, d: nat)
    requires Own(p)
    ensures Own(StepDrainForce(p, d))
  {
  }

  lemma DrainForceInv(cfg: Config, p: Pool, d: nat)
    requires Inv(cfg, p)
    ensures Inv(cfg, Next(cfg, p, DrainForce(d)))
  {
    DrainForceOwn(p, d);
  }

  // ---- Warming up ----

  lemma WarmReserveInv(cfg: Config, p: Pool, i: nat)
    requires Inv(cfg, p) && p.warm.WarmReady? && WarmMayReserve(cfg, p.core)
    ensures Inv(cfg, StepWarmReserve(p, i))
  {
    assert Warmer !in p.dialing;
  }

  lemma WarmAuthFailedOwn(p: Pool)
    requires Own(p) && Warmer in p.hands && Warmer in p.unpublished
    ensures Own(StepWarmAuthFailed(p))
  {
    var q := StepWarmAuthFailed(p);
    forall x | JustDialled(p.hands, p.unpublished, x) && x != p.hands[Warmer]
      ensures JustDialled(q.hands, q.unpublished, x)
    {
      Undialled(p.hands, p.unpublished, Warmer, x);
    }
    forall x | x in q.core.active && x !in q.leaked
      ensures HeldBySome(q.hands, q.unpublished, x)
    {
      FewerHands(p.hands, p.unpublished, Warmer, x);
    }
  }

  lemma WarmAuthFailedLive(p: Pool)
    requires Own(p) && Live(p) && Warmer in p.hands
    ensures Live(StepWarmAuthFailed(p))
  {
  }

  lemma WarmAuthFailedTallied(cfg: Config, p: Pool)
    requires Tallied(cfg, p) && Warmer in p.hands && Warmer in p.unpublished && p.warm.WarmBusy?
    ensures Tallied(cfg, StepWarmAuthFailed(p))
  {
  }

  lemma WarmAuthFailedInv(cfg: Config, p: Pool)
    requires Inv(cfg, p) && p.warm.WarmBusy? && Warmer in p.hands
    ensures Inv(cfg, StepWarmAuthFailed(p))
  {
    WarmAuthFailedOwn(p);
    WarmAuthFailedLive(p);
    WarmAuthFailedTallied(cfg, p);
  }

  lemma WarmStoreOwn(cfg: Config, p: Pool, i: nat)
    requires Own(p) && Warmer in p.hands && Warmer in p.unpublished
    ensures Own(StepWarmStore(cfg, p, i))
  {
    var q := StepWarmStore(cfg, p, i);
    forall x | JustDialled(p.hands, p.unpublished, x) && x != p.hands[Warmer]
      ensures JustDialled(q.hands, q.unpublished, x)
    {
      Undialled(p.hands, p.unpublished, Warmer, x);
    }
    forall x | x in q.core.active && x !in q.leaked
      ensures HeldBySome(q.hands, q.unpublished, x)
    {
      FewerHands(p.hands, p.unpublished, Warmer, x);
    }
  }

  lemma WarmStoreLive(cfg: Config, p: Pool, i: nat)
    requires Own(p) && Live(p) && Warmer in p.hands && Warmer in p.unpublished
    ensures Live(StepWarmStore(cfg, p, i))
  {
  }

  lemma WarmStorePlaced(cfg: Config, p: Pool, i: nat)
    requires Placed(p) && Warmer in p.hands
    ensures Placed(StepWarmStore(cfg, p, i))
  {
  }

  lemma WarmStoreTallied(cfg: Config, p: Pool, i: nat)
    requires Tallied(cfg, p) && Warmer in p.hands && Warmer in p.unpublished && p.warm.WarmBusy?
    ensures Tallied(cfg, StepWarmStore(cfg, p, i))
  {
  }

  lemma WarmStoreOrdered(cfg: Config, p: Pool, i: nat)
    requires Own(p) && Ordered(p.core.idle, p.core.conns, p.now) && Warmer in p.hands
    ensures var q := StepWarmStore(cfg, p, i); Ordered(q.core.idle, q.core.conns, q.now)
  {
    StoreOrdered(p.core.idle, p.core.conns, p.hands[Warmer], p.now);
  }

  lemma WarmStoreInv(cfg: Config, p: Pool, i: nat)
    requires Inv(cfg, p) && p.warm.WarmBusy? && Warmer in p.hands
    ensures Inv(cfg, StepWarmStore(cfg, p, i))
  {
    WarmStoreOwn(cfg, p, i);
    WarmStoreLive(cfg, p, i);
    WarmStorePlaced(cfg, p, i);
    WarmStoreTallied(cfg, p, i);
    WarmStoreOrdered(cfg, p, i);
  }

  // ---- All runs ----

  lemma TickInv(cfg: Config, p: Pool, elapsed: nat)
    requires Inv(cfg, p)
    ensures Inv(cfg, Next(cfg, p, Tick(elapsed)))
  {
  }

  lemma CloseInv(cfg: Config, p: Pool)
    requires Inv(cfg, p)
    ensures Inv(cfg, Next(cfg, p, Close))
  {
  }

  lemma DrainPollInv(cfg: Config, p: Pool, d: nat)
    requires Inv(cfg, p)
    ensures Inv(cfg, Next(cfg, p, DrainPoll(d)))
  {
  }

  lemma WarmOffInv(cfg: Config, p: Pool)
    requires Inv(cfg, p) && p.warm.WarmReady?
    ensures Inv(cfg, p.(warm := WarmOff))
  {
  }

  // The other actions, enabled or not.

  lemma Either(cfg: Config, p: Pool, q: Pool, enabled: bool, next: Pool)
    requires Inv(cfg, p) && (enabled ==> Inv(cfg, q)) && next == if enabled then q else p
    ensures Inv(cfg, next)
  {
  }

  lemma AcquireNext(cfg: Config, p: Pool, t: Tid, dead: set<Handle>)
    requires Inv(cfg, p)
    ensures Inv(cfg, Next(cfg, p, Action.Acquire(t, dead)))
  {
    if Free(p, t) {
      AcquireInv(cfg, p, t, dead);
    }
  }

  lemma PublishNext(cfg: Config, p: Pool, t: Tid)
    requires Inv(cfg, p)
    ensures Inv(cfg, Next(cfg, p, Action.Publish(t)))
  {
    var enabled := t.Client? && t in p.unpublished && t in p.hands;
    if enabled {
      PublishInv(cfg, p, t);
    }
    Either(cfg, p, if enabled then StepPublish(p, t) else p, enabled, Next(cfg, p, Action.Publish(t)));
  }

  lemma WakeLateNext(cfg: Config, p: Pool, t: Tid)
    requires Inv(cfg, p)
    ensures Inv(cfg, Next(cfg, p, Action.WakeLate(t)))
  {
    if t in p.parked {
      WakeLateInv(cfg, p, t);
    }
  }

  lemma CloseHandleNext(cfg: Config, p: Pool, t: Tid)
    requires Inv(cfg, p)
    ensures Inv(cfg, Next(cfg, p, Action.CloseHandle(t)))
  {
    if t in p.hands && t !in p.unpublished {
      CloseHandleInv(cfg, p, t);
    }
  }

  lemma WarmReserveNext(cfg: Config, p: Pool)
    requires Inv(cfg, p)
    ensures Inv(cfg, Next(cfg, p, Action.WarmReserve))
  {
    if p.warm.WarmReady? {
      if WarmMayReserve(cfg, p.core) {
        WarmReserveInv(cfg, p, p.warm.i);
      } else {
        WarmOffInv(cfg, p);
      }
    }
  }

  lemma WarmAuthFailedNext(cfg: Config, p: Pool)
    requires Inv(cfg, p)
    ensures Inv(cfg, Next(cfg, p, Action.WarmAuthFailed))
  {
    if p.warm.WarmBusy? && Warmer in p.hands {
      WarmAuthFailedInv(cfg, p);
    }
  }

  lemma WarmStoreNext(cfg: Config, p: Pool)
    requires Inv(cfg, p)
    ensures Inv(cfg, Next(cfg, p, Action.WarmStore))
  {
    if p.warm.WarmBusy? && Warmer in p.hands {
      WarmStoreInv(cfg, p, p.warm.i);
    }
  }

  lemma InvNext(cfg: Config, p: Pool, a: Action)
    requires Inv(cfg, p)
    ensures Inv(cfg, Next(cfg, p, a))
  {
    match a
    case Tick(elapsed) => TickInv(cfg, p, elapsed);
    case Acquire(t, dead) => AcquireNext(cfg, p, t, dead);
    case Dialled(t, h, auth) => DialledInv(cfg, p, t, h, auth);
    case DialFailed(t) => DialFailedInv(cfg, p, t);
    case Publish(t) => PublishNext(cfg, p, t);
    case GiveUp(t) => GiveUpInv(cfg, p, t);
    case Park(t) => ParkInv(cfg, p, t);
    case Wake(t, dead) => WakeInv(cfg, p, t, dead);
    case WakeLate(t) => WakeLateNext(cfg, p, t);
    case Return(t) => ReturnInv(cfg, p, t);
    case CloseHandle(t) => CloseHandleNext(cfg, p, t);
    case WarmReserve => WarmReserveNext(cfg, p);
    case WarmAuthFailed => WarmAuthFailedNext(cfg, p);
    case WarmStore => WarmStoreNext(cfg, p);
    case Reap => ReapInv(cfg, p);
    case Close => CloseInv(cfg, p);
    case Drain(d) => DrainInv(cfg, p, d);
    case DrainPoll(d) => DrainPollInv(cfg, p, d);
    case DrainForce(d) => DrainForceInv(cfg, p, d);
  }

  lemma {:induction false} InvRun(cfg: Config, p: Pool, actions: seq<Action>)
    requires Inv(cfg, p)
    ensures Inv(cfg, Run(cfg, p, actions))
    decreases |actions|
  {
    if actions != [] {
      InvNext(cfg, p, actions[0]);
      InvRun(cfg, Next(cfg, p, actions[0]), actions[1..]);
    }
  }

  lemma InvInit(cfg: Config)
    ensures Inv(cfg, Init(cfg))
  {
  }

  lemma InvReach(cfg: Config, actions: seq<Action>)
    ensures Inv(cfg, Reach(cfg, actions))
  {
    InvInit(cfg);
    InvRun(cfg, Init(cfg), actions);
  }

  lemma IdleReach(cfg: Config, actions: seq<Action>)
    ensures var c := Reach(cfg, actions).core; IdleOk(c.idle, c.active, c.conns) && SortedByUse(c.idle, c.conns)
  {
    InvReach(cfg, actions);
  }
}
