/** Which connections the pool hands out, takes back and reaps, by their time stamps, their
    authentication and the answer to their ping. */
module PoolChoice {
  import opened PoolCore
  import opened PoolMachine
  import opened PoolInvariants
  import C = PoolCore

  // ---- Acquire ----

  /** The connection is past the configured lifetime; a limit of zero or less is none. */
  predicate TooOld(cfg: Config, conn: Conn, now: int) {
    cfg.maxLifetime > 0 && now - conn.createdAt > cfg.maxLifetime
  }

  /** The connection has not authenticated and its ping fails; others are not pinged. */
  predicate NoAnswer<H>(conn: Conn, h: H, dead: set<H>) {
    !conn.authenticated && h in dead
  }

  ghost predicate Unfit<H>(cfg: Config, c: Core<H>, h: H, now: int, dead: set<H>) {
    h !in c.conns || TooOld(cfg, c.conns[h], now) || NoAnswer(c.conns[h], h, dead)
  }

  /** One lock hold of Acquire: a connection handed out is idle, young enough and answers; those
      returned after it are all unfit, closed and gone; those before it are untouched. If none is
      handed out on an open pool, all were unfit and are gone. */
  lemma AcquireChoice<H>(cfg: Config, c: Core<H>, now: int, dead: set<H>)
    requires NoDup(c.idle)
    ensures var (d, r) := C.TryAcquire(cfg, c, now, dead);
            && (r.Got? ==> exists k :: 0 <= k < |c.idle| && Chose(cfg, c, d, r.handle, k, now, dead))
            && (!r.Got? && !c.closed ==> d.idle == [] && forall h | h in c.idle :: Unfit(cfg, c, h, now, dead))
            && (c.closed ==> r == Refused && d == c)
  {
    if !c.closed {
      TakeIdleMeans(cfg, c, now, dead);
      LastUsableMeans(cfg, c.idle, c.conns, now, dead);
      var k := LastUsable(cfg, c.idle, c.conns, now, dead);
      if k >= 0 {
        ChoseAt(cfg, c, k, now, dead);
      } else {
        assert forall i | 0 <= i < |c.idle| :: Unfit(cfg, c, c.idle[i], now, dead);
      }
    }
  }

  /** `h` is the idle connection at position `k`, taken from core `c` to core `d`. */
  ghost predicate Chose<H>(cfg: Config, c: Core<H>, d: Core<H>, h: H, k: nat, now: int, dead: set<H>) {
    && k < |c.idle| && c.idle[k] == h && h in c.conns
    && !(cfg.maxLifetime > 0 && now - c.conns[h].createdAt > cfg.maxLifetime)
    && (c.conns[h].authenticated || h !in dead)
    && d.idle == c.idle[..k] && h in d.active
    && (forall j | k < j < |c.idle| ::
          Unfit(cfg, c, c.idle[j], now, dead) && (c.idle[j] in d.conns ==> !d.conns[c.idle[j]].open))
    && (forall x | x in c.conns && x !in c.idle[k..] :: x in d.conns && d.conns[x] == c.conns[x])
  }

  lemma ChoseAt<H>(cfg: Config, c: Core<H>, k: nat, now: int, dead: set<H>)
    requires NoDup(c.idle) && k < |c.idle| && Usable(cfg, c.conns, c.idle[k], now, dead)
    requires forall j | k < j < |c.idle| :: !Usable(cfg, c.conns, c.idle[j], now, dead)
    ensures Chose(cfg, c, Taken(c, k, now).0, c.idle[k], k, now, dead)
  {
    var d := Taken(c, k, now).0;
    assert d.idle == c.idle[..k];
    assert forall x | x in c.idle[k + 1..] :: x in c.idle[k..];
    forall j | k < j < |c.idle|
      ensures c.idle[j] in d.conns ==> !d.conns[c.idle[j]].open
    {
      assert c.idle[j] == c.idle[k + 1..][j - k - 1];
    }
    assert c.idle[k] == c.idle[k..][0];
  }

  /** The same on every run: a thread that gets a connection from the idle list by acquiring ... */
  lemma AcquireChoiceReach(cfg: Config, actions: seq<Action>, t: Tid, dead: set<Handle>)
    ensures var p := Reach(cfg, actions);
            var q := Next(cfg, p, Acquire(t, dead));
            t in q.hands && t !in p.hands ==>
              exists k :: 0 <= k < |p.core.idle| && Chose(cfg, p.core, q.core, q.hands[t], k, p.now, dead)
  {
    IdleReach(cfg, actions);
    AcquireChoice(cfg, Reach(cfg, actions).core, Reach(cfg, actions).now, dead);
  }

  /** ... or when it wakes up from waiting gets the most recently returned fit one. */
  lemma WakeChoiceReach(cfg: Config, actions: seq<Action>, t: Tid, dead: set<Handle>)
    requires t in Reach(cfg, actions).parked
    ensures var p := Reach(cfg, actions);
            var q := Next(cfg, p, Wake(t, dead));
            t in q.hands && t !in p.hands ==>
              exists k :: 0 <= k < |p.core.idle| && Chose(cfg, C.StopWaiting(p.core), q.core, q.hands[t], k, p.now, dead)
  {
    IdleReach(cfg, actions);
    AcquireChoice(cfg, C.StopWaiting(Reach(cfg, actions).core), Reach(cfg, actions).now, dead);
  }

  // ---- Return ----

  /** A returned connection goes to the end of the idle list with a new time of last use, unless
      the pool is closed or the connection too old: then it is closed and uncounted. */
  lemma ReturnChoice<H>(cfg: Config, c: Core<H>, h: H, now: int)
    requires h in c.conns
    ensures var d := C.Return(cfg, c, h, now);
            && h !in d.active && h in d.conns
            && (forall x | x in c.conns && x != h :: x in d.conns && d.conns[x] == c.conns[x])
            && if c.closed || (cfg.maxLifetime > 0 && now - c.conns[h].createdAt > cfg.maxLifetime)
               then d.idle == c.idle && d.total == c.total - 1 && !d.conns[h].open
               else d.idle == c.idle + [h] && d.total == c.total
                    && d.conns[h] == c.conns[h].(state := ConnIdle, lastUsed := now)
  {
  }

  // ---- The reaper ----

  /** The connection at position `i` of the idle list has outstayed one of the two limits, and at
      least `minConns` connections come after it. */
  ghost predicate Outstays(cfg: Config, p: Pool, i: int)
    requires 0 <= i < |p.core.idle|
  {
    && i + cfg.minConns < |p.core.idle| && p.core.idle[i] in p.core.conns
    && var conn := p.core.conns[p.core.idle[i]];
       || (cfg.idleTimeout > 0 && p.now - conn.lastUsed > cfg.idleTimeout)
       || (cfg.maxLifetime > 0 && p.now - conn.createdAt > cfg.maxLifetime)
  }

  lemma ReapsOutstays(cfg: Config, p: Pool, i: int)
    requires 0 <= i < |p.core.idle| && IdleOk(p.core.idle, p.core.active, p.core.conns)
    ensures Reaps(cfg, p.core, i, p.now) <==> Outstays(cfg, p, i)
  {
    assert p.core.idle[i] in p.core.idle;
  }

  /** On every run a sweep of the reaper removes from the idle list, and closes, exactly the
      connections that have outstayed a limit; the others, and all that are not idle, it leaves. */
  lemma SweepChoice(cfg: Config, actions: seq<Action>, i: nat)
    requires i < |Reach(cfg, actions).core.idle|
    ensures var p, q := Reach(cfg, actions), Next(cfg, Reach(cfg, actions), Reap);
            var h := p.core.idle[i];
            && (h in q.core.idle <==> !Outstays(cfg, p, i))
            && h in p.core.conns && h in q.core.conns
            && (if Outstays(cfg, p, i) then !q.core.conns[h].open else q.core.conns[h] == p.core.conns[h])
  {
    var p := Reach(cfg, actions);
    IdleReach(cfg, actions);
    assert p.core.idle[i] in p.core.idle;
    ReapsOutstays(cfg, p, i);
    KeptMeans(cfg, p.core, |p.core.idle|, p.now);
    SweepCloses(cfg, p.core, i, p.now);
  }

  lemma SweepCloses(cfg: Config, c: Core<Handle>, i: nat, now: int)
    requires i < |c.idle| && NoDup(c.idle) && c.idle[i] in c.conns
    ensures var d := C.Reap(cfg, c, now);
            && c.idle[i] in d.conns
            && d.conns[c.idle[i]] == (if Reaps(cfg, c, i, now) then c.conns[c.idle[i]].Close() else c.conns[c.idle[i]])
            && (c.idle[i] in d.idle <==> !Reaps(cfg, c, i, now))
  {
    KeptMeans(cfg, c, |c.idle|, now);
    assert c.idle[i] in Doomed(cfg, c, |c.idle|, now) <==> Reaps(cfg, c, i, now);
    if |c.idle| > cfg.minConns && c.idle[i] in Kept(cfg, c, |c.idle|, now) {
      var j :| 0 <= j < |c.idle| && c.idle[j] == c.idle[i] && !Reaps(cfg, c, j, now);
      assert i == j;
    }
  }

  /** What is not idle is not touched, and `total` goes down by the number removed. */
  lemma SweepLeaves(cfg: Config, c: Core<Handle>, now: int)
    ensures var d := C.Reap(cfg, c, now);
            && d.total - c.total == |d.idle| - |c.idle| && d.active == c.active
            && forall h | h in c.conns && h !in c.idle :: h in d.conns && d.conns[h] == c.conns[h]
  {
  }
}
