/** The tenant pool's critical sections as functions on values: what one lock
    hold of `TenantPool` does to the pool's own fields and to the connections it
    touches. `TenantPool.dfy` proves the imperative methods equal to these, and
    `PoolMachine.dfy` interleaves them. Handles are generic: object references
    there, plain identifiers here. */
module PoolCore {

  datatype ConnState = ConnIdle | ConnActive | ConnClosed

  /** The pooling metadata of one connection. `open` is the socket itself, which
      `state` does not track: `MarkIdle` sets the state of a closed socket too. */
  datatype Conn = Conn(state: ConnState, createdAt: int, lastUsed: int, authenticated: bool, open: bool) {

    predicate IsExpired(maxLifetime: int, now: int) {
      maxLifetime > 0 && now - createdAt > maxLifetime
    }

    predicate IsIdle(idleTimeout: int, now: int) {
      idleTimeout > 0 && state == ConnIdle && now - lastUsed > idleTimeout
    }

    function MarkActive(now: int): Conn {
      this.(state := ConnActive, lastUsed := now)
    }

    function MarkIdle(now: int): Conn {
      this.(state := ConnIdle, lastUsed := now)
    }

    function Close(): Conn {
      this.(state := ConnClosed, open := false)
    }
  }

  datatype Config = Config(minConns: int, maxConns: int, idleTimeout: int, maxLifetime: int)

  /** The fields that the pool's mutex guards, with the metadata of every
      connection the pool ever dialled. */
  datatype Core<!H> = Core(
    idle: seq<H>, active: set<H>, total: int, waiting: int, exhausted: int, closed: bool,
    conns: map<H, Conn>)

  /** What one pass of Acquire's loop decided under the lock. */
  datatype Outcome<H> = Refused | Got(handle: H) | Reserved | MustWait

  function Elems<H>(s: seq<H>): set<H> {
    set h | h in s
  }

  ghost predicate NoDup<H>(s: seq<H>) {
    forall i, j | 0 <= i < j < |s| :: s[i] != s[j]
  }

  /** The part of the pool's invariant that its own lock holds rely on. */
  ghost predicate Wf<H>(c: Core<H>) {
    && NoDup(c.idle)
    && (forall h | h in c.idle :: h in c.conns && h !in c.active)
    && c.active <= c.conns.Keys
  }

  function CloseAll<H>(conns: map<H, Conn>, hs: set<H>): map<H, Conn> {
    map h | h in conns :: if h in hs then conns[h].Close() else conns[h]
  }

  /** One connection is closed and no longer counted. */
  function Discard<H>(c: Core<H>, h: H): Core<H> {
    c.(total := c.total - 1, conns := CloseAll(c.conns, {h}))
  }

  lemma CloseAllTwice<H>(conns: map<H, Conn>, a: set<H>, b: set<H>)
    ensures CloseAll(CloseAll(conns, a), b) == CloseAll(conns, a + b)
  {
  }

  function MarkActiveIn<H>(conns: map<H, Conn>, h: H, now: int): map<H, Conn> {
    if h in conns then conns[h := conns[h].MarkActive(now)] else conns
  }

  function MarkIdleIn<H>(conns: map<H, Conn>, h: H, now: int): map<H, Conn> {
    if h in conns then conns[h := conns[h].MarkIdle(now)] else conns
  }

  /** Whether Acquire may hand out the idle connection `h`: not past its lifetime,
      and answering its ping unless it is pre-authenticated (then it is not pinged). */
  predicate Usable<H>(cfg: Config, conns: map<H, Conn>, h: H, now: int, dead: set<H>) {
    && h in conns
    && !conns[h].IsExpired(cfg.maxLifetime, now)
    && (conns[h].authenticated || h !in dead)
  }

  /** A connection is registered as handed out. */
  function Publish<H>(c: Core<H>, h: H, now: int): Core<H> {
    c.(active := c.active + {h}, conns := MarkActiveIn(c.conns, h, now))
  }

  function PopNewest<H>(c: Core<H>): Core<H>
    requires c.idle != []
  {
    c.(idle := c.idle[..|c.idle| - 1])
  }

  /** Acquire's inner loop over the idle connections, newest first. */
  function TakeIdle<H>(cfg: Config, c: Core<H>, now: int, dead: set<H>): (Core<H>, Outcome<H>)
    decreases |c.idle|
  {
    if c.idle == [] then (c, MustWait)
    else
      var h := c.idle[|c.idle| - 1];
      if Usable(cfg, c.conns, h, now, dead) then (Publish(PopNewest(c), h, now), Got(h))
      else TakeIdle(cfg, Discard(PopNewest(c), h), now, dead)
  }

  lemma TakeIdleWf<H>(cfg: Config, c: Core<H>, now: int, dead: set<H>)
    requires Wf(c)
    ensures Wf(TakeIdle(cfg, c, now, dead).0)
    decreases |c.idle|
  {
    if c.idle != [] {
      var h := c.idle[|c.idle| - 1];
      assert h in Elems(c.idle) && h !in PopNewest(c).idle;
      assert Elems(PopNewest(c).idle) <= Elems(c.idle);
      if !Usable(cfg, c.conns, h, now, dead) {
        TakeIdleWf(cfg, Discard(PopNewest(c), h), now, dead);
      }
    }
  }

  /** The core once all idle connections from position `n` on have been discarded. */
  function DropFrom<H>(c: Core<H>, n: nat): Core<H>
    requires n <= |c.idle|
  {
    c.(idle := c.idle[..n], total := c.total - (|c.idle| - n), conns := CloseAll(c.conns, Elems(c.idle[n..])))
  }

  lemma DropNone<H>(c: Core<H>)
    ensures DropFrom(c, |c.idle|) == c
  {
    assert Elems(c.idle[|c.idle|..]) == {} && CloseAll(c.conns, {}) == c.conns;
    assert c.idle[..|c.idle|] == c.idle;
  }

  lemma DropMore<H>(c: Core<H>, n: nat)
    requires n < |c.idle|
    ensures DropFrom(Discard(PopNewest(c), c.idle[|c.idle| - 1]), n) == DropFrom(c, n)
  {
    var h := c.idle[|c.idle| - 1];
    var d := Discard(PopNewest(c), h);
    CloseAllTwice(c.conns, {h}, Elems(d.idle[n..]));
    assert c.idle[n..] == d.idle[n..] + [h];
    assert Elems(c.idle[n..]) == {h} + Elems(d.idle[n..]);
    assert d.idle[..n] == c.idle[..n];
  }

  /** The position of the most recently returned usable connection, or -1. */
  function LastUsable<H>(cfg: Config, idle: seq<H>, conns: map<H, Conn>, now: int, dead: set<H>): (k: int)
    ensures -1 <= k < |idle|
  {
    if idle == [] then -1
    else if Usable(cfg, conns, idle[|idle| - 1], now, dead) then |idle| - 1
    else LastUsable(cfg, idle[..|idle| - 1], conns, now, dead)
  }

  lemma {:induction false} LastUsableMeans<H>(cfg: Config, idle: seq<H>, conns: map<H, Conn>, now: int, dead: set<H>)
    ensures var k := LastUsable(cfg, idle, conns, now, dead);
            && (k >= 0 ==> Usable(cfg, conns, idle[k], now, dead))
            && forall j | k < j < |idle| :: !Usable(cfg, conns, idle[j], now, dead)
    decreases |idle|
  {
    if idle != [] && !Usable(cfg, conns, idle[|idle| - 1], now, dead) {
      var rest := idle[..|idle| - 1];
      LastUsableMeans(cfg, rest, conns, now, dead);
      assert forall j | 0 <= j < |rest| :: rest[j] == idle[j];
    }
  }

  /** Only the metadata of the idle connections matters. */
  lemma {:induction false} LastUsableSame<H>(cfg: Config, idle: seq<H>, a: map<H, Conn>, b: map<H, Conn>, now: int,
                                             dead: set<H>)
    requires forall h | h in idle :: Usable(cfg, a, h, now, dead) == Usable(cfg, b, h, now, dead)
    ensures LastUsable(cfg, idle, a, now, dead) == LastUsable(cfg, idle, b, now, dead)
    decreases |idle|
  {
    if idle != [] {
      assert idle[|idle| - 1] in idle;
      LastUsableSame(cfg, idle[..|idle| - 1], a, b, now, dead);
    }
  }

  lemma LastUsableAfterDiscard<H>(cfg: Config, c: Core<H>, now: int, dead: set<H>)
    requires NoDup(c.idle) && c.idle != []
    requires !Usable(cfg, c.conns, c.idle[|c.idle| - 1], now, dead)
    ensures var d := Discard(PopNewest(c), c.idle[|c.idle| - 1]);
            LastUsable(cfg, d.idle, d.conns, now, dead) == LastUsable(cfg, c.idle, c.conns, now, dead)
  {
    var d := Discard(PopNewest(c), c.idle[|c.idle| - 1]);
    LastUsableSame(cfg, d.idle, d.conns, c.conns, now, dead);
  }

  /** The core and the outcome once the idle connection at `k` has been taken and the newer ones
      discarded, or with -1 all of them discarded. */
  function Taken<H>(c: Core<H>, k: int, now: int): (Core<H>, Outcome<H>)
    requires -1 <= k < |c.idle|
  {
    if k == -1 then (DropFrom(c, 0), MustWait)
    else (Publish(PopNewest(DropFrom(c, k + 1)), c.idle[k], now), Got(c.idle[k]))
  }

  lemma TakenAfterDiscard<H>(c: Core<H>, k: int, now: int)
    requires -1 <= k < |c.idle| - 1
    ensures Taken(Discard(PopNewest(c), c.idle[|c.idle| - 1]), k, now) == Taken(c, k, now)
  {
    DropMore(c, k + 1);
  }

  lemma TakenNewest<H>(c: Core<H>, now: int)
    ensures c.idle == [] ==> Taken(c, -1, now) == (c, MustWait)
    ensures c.idle != [] ==>
              Taken(c, |c.idle| - 1, now) == (Publish(PopNewest(c), c.idle[|c.idle| - 1], now), Got(c.idle[|c.idle| - 1]))
  {
    DropNone(c);
  }

  /** What Acquire's inner loop means: of the idle connections it takes the newest usable
      one, discards exactly the newer ones, and touches no other connection. */
  lemma {:induction false} TakeIdleMeans<H>(cfg: Config, c: Core<H>, now: int, dead: set<H>)
    requires NoDup(c.idle)
    ensures TakeIdle(cfg, c, now, dead) == Taken(c, LastUsable(cfg, c.idle, c.conns, now, dead), now)
    decreases |c.idle|
  {
    if c.idle == [] || Usable(cfg, c.conns, c.idle[|c.idle| - 1], now, dead) {
      TakenNewest(c, now);
    } else {
      var d := Discard(PopNewest(c), c.idle[|c.idle| - 1]);
      TakeIdleMeans(cfg, d, now, dead);
      LastUsableAfterDiscard(cfg, c, now, dead);
      TakenAfterDiscard(c, LastUsable(cfg, d.idle, d.conns, now, dead), now);
    }
  }

  /** Acquire, one lock hold from the top of its loop. */
  function TryAcquire<H>(cfg: Config, c: Core<H>, now: int, dead: set<H>): (Core<H>, Outcome<H>) {
    if c.closed then (c, Refused) else Decide(cfg, TakeIdle(cfg, c, now, dead))
  }

  /** After the loop: the connection found, else a reservation, else a place in the queue. */
  function Decide<H>(cfg: Config, found: (Core<H>, Outcome<H>)): (Core<H>, Outcome<H>) {
    var (c, r) := found;
    if r.Got? then found
    else if c.total < cfg.maxConns then (Reserve(c), Reserved)
    else (QueueUp(c), MustWait)
  }

  function QueueUp<H>(c: Core<H>): Core<H> {
    c.(waiting := c.waiting + 1, exhausted := c.exhausted + 1)
  }

  /** Acquire, the lock hold that starts when `cond.Wait` returns. */
  function Wake<H>(cfg: Config, c: Core<H>, now: int, dead: set<H>): (Core<H>, Outcome<H>) {
    TryAcquire(cfg, c.(waiting := c.waiting - 1), now, dead)
  }

  function Unreserve<H>(c: Core<H>): Core<H> {
    c.(total := c.total - 1)
  }

  function StopWaiting<H>(c: Core<H>): Core<H> {
    c.(waiting := c.waiting - 1)
  }

  /** A connection goes to the end of the idle list. */
  function StoreIdle<H>(c: Core<H>, h: H, now: int): Core<H> {
    c.(idle := c.idle + [h], conns := MarkIdleIn(c.conns, h, now))
  }

  function Deregister<H>(c: Core<H>, h: H): Core<H> {
    c.(active := c.active - {h})
  }

  function Return<H>(cfg: Config, c: Core<H>, h: H, now: int): Core<H> {
    if c.closed || (h in c.conns && c.conns[h].IsExpired(cfg.maxLifetime, now)) then Discard(Deregister(c, h), h)
    else StoreIdle(Deregister(c, h), h, now)
  }

  /** Return does not look whether the connection is already idle: its callers must use handles
      linearly. Exactly then, or where the connection is closed, the pool stays well-formed. */
  lemma ReturnWf<H>(cfg: Config, c: Core<H>, h: H, now: int)
    requires Wf(c) && h in c.conns
    ensures Wf(Return(cfg, c, h, now)) <==>
            h !in c.idle || c.closed || c.conns[h].IsExpired(cfg.maxLifetime, now)
  {
    var d := Return(cfg, c, h, now);
    assert Elems(c.idle + [h]) == Elems(c.idle) + {h};
    if h in c.idle {
      var i :| 0 <= i < |c.idle| && c.idle[i] == h;
      assert (c.idle + [h])[i] == (c.idle + [h])[|c.idle|];
    }
  }

  /** The reaper's test for the connection at position `i`. */
  predicate Reaps<H>(cfg: Config, c: Core<H>, i: int, now: int)
    requires 0 <= i < |c.idle|
  {
    && i < |c.idle| - cfg.minConns
    && c.idle[i] in c.conns
    && (|| c.conns[c.idle[i]].IsIdle(cfg.idleTimeout, now)
        || c.conns[c.idle[i]].IsExpired(cfg.maxLifetime, now))
  }

  /** What is kept of the first `n` idle connections. */
  function Kept<H>(cfg: Config, c: Core<H>, n: nat, now: int): (kept: seq<H>)
    requires n <= |c.idle|
    ensures |kept| <= n
  {
    if n == 0 then []
    else if Reaps(cfg, c, n - 1, now) then Kept(cfg, c, n - 1, now)
    else Kept(cfg, c, n - 1, now) + [c.idle[n - 1]]
  }

  /** What is kept is exactly what is not reaped, once each. */
  lemma {:induction false} KeptMeans<H>(cfg: Config, c: Core<H>, n: nat, now: int)
    requires n <= |c.idle|
    ensures var kept := Kept(cfg, c, n, now);
            && (forall h | h in kept :: exists i :: 0 <= i < n && c.idle[i] == h && !Reaps(cfg, c, i, now))
            && (forall i | 0 <= i < n && !Reaps(cfg, c, i, now) :: c.idle[i] in kept)
            && (NoDup(c.idle) ==> NoDup(kept))
  {
    if n > 0 {
      KeptMeans(cfg, c, n - 1, now);
      assert NoDup(c.idle) && !Reaps(cfg, c, n - 1, now) ==> c.idle[n - 1] !in Kept(cfg, c, n - 1, now);
    }
  }

  /** The connections the reaper closes among the first `n`. */
  function Doomed<H>(cfg: Config, c: Core<H>, n: nat, now: int): set<H>
    requires n <= |c.idle|
  {
    set i | 0 <= i < n && Reaps(cfg, c, i, now) :: c.idle[i]
  }

  /** The core after the reaper has looked at the first `n` idle connections. */
  function Reaping<H>(cfg: Config, c: Core<H>, n: nat, now: int): Core<H>
    requires n <= |c.idle|
  {
    c.(total := c.total - (n - |Kept(cfg, c, n, now)|), conns := CloseAll(c.conns, Doomed(cfg, c, n, now)))
  }

  lemma ReapOne<H>(cfg: Config, c: Core<H>, n: nat, now: int)
    requires n < |c.idle| && NoDup(c.idle)
    ensures Reaps(cfg, c, n, now) ==> Discard(Reaping(cfg, c, n, now), c.idle[n]) == Reaping(cfg, c, n + 1, now)
    ensures !Reaps(cfg, c, n, now) ==> Reaping(cfg, c, n, now) == Reaping(cfg, c, n + 1, now)
    ensures Kept(cfg, c, n + 1, now) == Kept(cfg, c, n, now) + if Reaps(cfg, c, n, now) then [] else [c.idle[n]]
    ensures c.idle[n] in c.conns ==> Reaping(cfg, c, n, now).conns[c.idle[n]] == c.conns[c.idle[n]]
  {
    CloseAllTwice(c.conns, Doomed(cfg, c, n, now), {c.idle[n]});
    if Reaps(cfg, c, n, now) {
      assert Doomed(cfg, c, n + 1, now) == Doomed(cfg, c, n, now) + {c.idle[n]};
    } else {
      assert Doomed(cfg, c, n + 1, now) == Doomed(cfg, c, n, now);
    }
  }

  function Reap<H>(cfg: Config, c: Core<H>, now: int): Core<H> {
    if |c.idle| <= cfg.minConns then c
    else
      Reaping(cfg, c, |c.idle|, now).(idle := Kept(cfg, c, |c.idle|, now))
  }

  lemma ReapWf<H>(cfg: Config, c: Core<H>, now: int)
    requires Wf(c)
    ensures Wf(Reap(cfg, c, now))
  {
    KeptMeans(cfg, c, |c.idle|, now);
  }

  /** Drain, first lock hold, after its loop has closed the first `n` idle connections. */
  function Draining<H>(c: Core<H>, n: nat): Core<H>
    requires n <= |c.idle|
  {
    c.(total := c.total - n, conns := CloseAll(c.conns, Elems(c.idle[..n])))
  }

  function DrainIdle<H>(c: Core<H>): Core<H> {
    Draining(c, |c.idle|).(idle := [])
  }

  lemma DrainOne<H>(c: Core<H>, n: nat)
    requires n < |c.idle|
    ensures Discard(Draining(c, n), c.idle[n]) == Draining(c, n + 1)
  {
    CloseAllTwice(c.conns, Elems(c.idle[..n]), {c.idle[n]});
    assert Elems(c.idle[..n]) + {c.idle[n]} == Elems(c.idle[..n + 1]);
  }

  /** Drain, the lock hold after the 30 s timeout, with `rest` still to be closed. */
  function Forcing<H>(c: Core<H>, rest: set<H>): Core<H> {
    c.(total := c.total - (|c.active| - |rest|), conns := CloseAll(c.conns, c.active - rest))
  }

  function ForceDrain<H>(c: Core<H>): Core<H> {
    Forcing(c, {}).(active := {})
  }

  lemma ForceOne<H>(c: Core<H>, rest: set<H>, h: H)
    requires rest <= c.active && h in rest
    ensures Discard(Forcing(c, rest), h) == Forcing(c, rest - {h})
  {
    CloseAllTwice(c.conns, c.active - rest, {h});
    assert c.active - (rest - {h}) == (c.active - rest) + {h};
  }

  function CloseGate<H>(c: Core<H>): Core<H> {
    c.(closed := true)
  }

  predicate WarmMayReserve<H>(cfg: Config, c: Core<H>) {
    !c.closed && c.total < cfg.minConns
  }

  function Reserve<H>(c: Core<H>): Core<H> {
    c.(total := c.total + 1)
  }

  /** warmUp, last lock hold: on a closed pool the connection is dropped and its
      reservation is not given back. */
  function WarmStore<H>(c: Core<H>, h: H, now: int): Core<H> {
    if c.closed then c.(conns := CloseAll(c.conns, {h}))
    else StoreIdle(c, h, now)
  }
}
