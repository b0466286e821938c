/** A run of the composed system on which isolation and transparency fail: one pool of one
    connection, a client lost in the middle of a response, and the next client. */
module PgViolation {
  import opened Wire
  import opened PoolCore
  import opened PgRelay
  import opened PgRelayTheorems
  import opened Disposal
  import opened PgSystem
  import opened PgIsolation
  import opened PgCrossing
  import P = PoolMachine

  const One := Config(0, 1, 0, 0)
  const Ready := Msg(KindReady, [StatusIdle])
  const Bad := Io(false, Ready, 0)

  // ---- Where the only connection is ----

  ghost predicate Calm(p: P.Pool) {
    && !p.core.closed && p.dialing == {} && p.pausing == {} && p.parked == {} && p.unpublished == {}
    && 0 in p.core.conns && p.core.conns[0].open && p.core.conns[0].authenticated
  }

  /** Session `t` holds it. */
  ghost predicate Lent(s: Sys, t: Sid) {
    && Calm(s.pool) && s.pool.core.idle == [] && s.pool.hands == map[P.Client(t) := 0]
    && t in s.relays && t in s.replies && Custody(s.relays[t].pc) == Holds(0) && 0 in s.backends
  }

  /** It is in the pool. */
  ghost predicate Shelved(s: Sys) {
    && Calm(s.pool) && s.pool.core.idle == [0] && s.pool.hands == map[] && 0 in s.backends
  }

  // ---- Single steps ----

  lemma Do(moves: seq<Move>, m: Move) returns (more: seq<Move>)
    ensures Reach(One, more) == Next(One, Reach(One, moves), m)
  {
    more := moves + [m];
    RunAppend(One, Init(One), moves, [m]);
    assert [m][1..] == [];
  }

  /** What the call of a session that holds the connection gets. */
  function Gets(s: Sys, t: Sid, io: Io): Io
    requires t in s.relays && 0 in s.backends
  {
    if Reads(s.relays[t].pc) && io.ok && s.backends[0].queue != [] then io.(msg := s.backends[0].queue[0]) else io
  }

  /** It uses the connection and keeps it. */
  lemma Use(moves: seq<Move>, t: Sid, io: Io, reply: seq<Msg>) returns (more: seq<Move>)
    requires var s := Reach(One, moves);
             && Lent(s, t) && Answers(reply)
             && (Reads(s.relays[t].pc) && io.ok ==> s.backends[0].queue != [])
             && Custody(Step(s.relays[t], Gets(s, t, io)).pc) == Holds(0)
             && !Disposed(Emits(s.relays[t], Gets(s, t, io)))
    ensures var s, s' := Reach(One, moves), Reach(One, more);
            && Lent(s', t) && s'.relays == s.relays[t := Step(s.relays[t], Gets(s, t, io))]
            && s'.backends[0] == Touch(t, s.relays[t].pc, Gets(s, t, io), reply, s.backends[0])
            && s'.replies == (if s.relays[t].pc.Forward? && io.ok then s.replies[t := s.replies[t] + [reply]] else s.replies)
            && s'.desynced == (if Desyncs(s.relays[t].pc, io, s.backends[0]) then s.desynced + {0} else s.desynced)
            && s'.crossed == if s.relays[t].pc.Forward? && io.ok && 0 in s.desynced then s.crossed + {t} else s.crossed
  {
    more := Do(moves, Call(t, io, reply));
    var s := Reach(One, moves);
    assert Answer(s, t, io, reply) == Some(Gets(s, t, io));
  }

  predicate Disposed(e: Option<Event>) {
    e.Some? && (e.value.Returned? || e.value.Shut?)
  }

  /** It returns the connection. */
  lemma GivesBack(moves: seq<Move>, t: Sid) returns (more: seq<Move>)
    requires var s := Reach(One, moves); Lent(s, t) && s.relays[t].pc.GiveBack?
    ensures var s, s' := Reach(One, moves), Reach(One, more);
            && Shelved(s') && s'.backends == s.backends && s'.replies == s.replies && s'.desynced == s.desynced
            && s'.relays == s.relays[t := Step(s.relays[t], Good)]
  {
    more := Do(moves, Call(t, Good, []));
  }

  /** A session that waits for a connection gets the one in the pool. */
  lemma Takes(moves: seq<Move>, t: Sid) returns (more: seq<Move>)
    requires var s := Reach(One, moves); Shelved(s) && t in s.relays && t in s.replies && WantsBackend(s.relays[t].pc)
    ensures var s, s' := Reach(One, moves), Reach(One, more);
            && Lent(s', t) && s'.backends == s.backends && s'.replies == s.replies && s'.desynced == s.desynced
            && s'.relays == s.relays[t := Step(s.relays[t], Good)]
  {
    more := Do(moves, PoolMove(P.Acquire(P.Client(t), {})));
    PopsIt(Reach(One, moves).pool, t);
    more := Do(more, Call(t, Good, []));
  }

  lemma PopsIt(p: P.Pool, t: Sid)
    requires Calm(p) && p.core.idle == [0] && p.hands == map[]
    ensures var q := P.Next(One, p, P.Acquire(P.Client(t), {}));
            Calm(q) && q.core.idle == [] && q.hands == map[P.Client(t) := 0]
  {
    assert Usable(One, p.core.conns, 0, p.now, {});
  }

  /** A session without a connection goes on. */
  lemma Waits(moves: seq<Move>, t: Sid, io: Io) returns (more: seq<Move>)
    requires var s := Reach(One, moves);
             && Shelved(s) && t in s.relays
             && (s.relays[t].pc == CheckContext(None) || s.relays[t].pc == ReadClient(None))
    ensures var s, s' := Reach(One, moves), Reach(One, more);
            && Shelved(s') && s'.backends == s.backends && s'.replies == s.replies && s'.desynced == s.desynced
            && s'.relays == s.relays[t := Step(s.relays[t], io)]
  {
    more := Do(moves, Call(t, io, []));
  }

  lemma Begins(moves: seq<Move>, t: Sid) returns (more: seq<Move>)
    requires t !in Reach(One, moves).relays
    ensures var s, s' := Reach(One, moves), Reach(One, more);
            s' == s.(relays := s.relays[t := Start], replies := s.replies[t := []])
  {
    more := Do(moves, Begin(t));
  }

  // ---- The story ----

  ghost predicate Stands(s: Sys, t: Sid, pc: Pc, seen: seq<Msg>) {
    t in s.relays && s.relays[t].pc == pc && !s.relays[t].pinned && s.relays[t].log.toClient == seen
  }

  /** The first session dials the connection. */
  lemma Dials() returns (moves: seq<Move>)
    ensures var s := Reach(One, moves);
            && Lent(s, 0) && Stands(s, 0, SendAuth(0), []) && s.backends[0] == Fresh
            && s.relays.Keys == {0}
  {
    moves := Begins([], 0);
    moves := Do(moves, PoolMove(P.Acquire(P.Client(0), {})));
    assert Reach(One, moves).pool.dialing == {P.Client(0)};
    moves := Do(moves, PoolMove(P.Dialled(P.Client(0), 0, true)));
    moves := Do(moves, PoolMove(P.Publish(P.Client(0))));
    moves := Do(moves, Call(0, Good, []));
  }

  /** It greets its client and gives its first connection back. */
  lemma Greets(moves: seq<Move>, t: Sid) returns (more: seq<Move>)
    requires Lent(Reach(One, moves), t) && Stands(Reach(One, moves), t, SendAuth(0), [])
    ensures var s, s' := Reach(One, moves), Reach(One, more);
            && Shelved(s') && t in s'.replies && Stands(s', t, CheckContext(None), []) && s'.backends[0] == s.backends[0]
            && s'.replies == s.replies && s'.relays.Keys == s.relays.Keys && s'.desynced == s.desynced
  {
    more := Use(moves, t, Good, []);
    more := GivesBack(more, t);
  }

  /** Its client sends a query, and it is about to forward it. */
  lemma Opens(moves: seq<Move>, t: Sid, query: Msg) returns (more: seq<Move>)
    requires query.kind != KindTerminate && !DetectSessionPin(query)
    requires var s := Reach(One, moves); Shelved(s) && t in s.replies && Stands(s, t, CheckContext(None), [])
    ensures var s, s' := Reach(One, moves), Reach(One, more);
            && Lent(s', t) && Stands(s', t, Forward(0, query), []) && s'.backends[0] == s.backends[0]
            && s'.replies == s.replies && s'.relays.Keys == s.relays.Keys && s'.desynced == s.desynced
  {
    more := Waits(moves, t, Good);
    more := Waits(more, t, Io(true, query, 0));
    more := Takes(more, t);
  }

  /** It relays the first row of the answer. */
  lemma Relays(moves: seq<Move>, query: Msg, row: Msg) returns (more: seq<Move>)
    requires row.kind != KindReady
    requires Lent(Reach(One, moves), 0) && Stands(Reach(One, moves), 0, Forward(0, query), [])
    requires Reach(One, moves).backends[0] == Fresh
    ensures var s, s' := Reach(One, moves), Reach(One, more);
            && Lent(s', 0) && Stands(s', 0, WriteClient(0, row), []) && s'.backends[0] == Backend(StatusIdle, {0}, [Ready])
            && s'.relays.Keys == s.relays.Keys
  {
    more := Use(moves, 0, Good, [row, Ready]);
    assert Reach(One, more).backends[0].queue == [row, Ready];
    more := Use(more, 0, Good, []);
    assert Reach(One, more).backends[0].queue == [Ready];
  }

  /** Its client is lost while the row is being written. */
  lemma IsLost(moves: seq<Move>, row: Msg) returns (more: seq<Move>)
    requires Lent(Reach(One, moves), 0) && Stands(Reach(One, moves), 0, WriteClient(0, row), [])
    requires Reach(One, moves).backends[0] == Backend(StatusIdle, {0}, [Ready])
    ensures var s, s' := Reach(One, moves), Reach(One, more);
            && Lent(s', 0) && Stands(s', 0, SendRollback(0), []) && s'.backends[0] == s.backends[0]
            && s'.relays.Keys == s.relays.Keys && 0 in s'.desynced
  {
    assert Reach(One, moves).backends[0].queue[0] == Ready;
    more := Use(moves, 0, Bad, []);
  }

  /** The cleanup reads one response too few. */
  lemma CleansUp(moves: seq<Move>, done: Msg) returns (more: seq<Move>)
    requires done.kind != KindReady && done.kind != KindError
    requires Lent(Reach(One, moves), 0) && Stands(Reach(One, moves), 0, SendDiscard(0, true), [])
    requires Reach(One, moves).backends[0] == Backend(StatusIdle, {0}, [done, Ready])
    ensures var s, s' := Reach(One, moves), Reach(One, more);
            && Lent(s', 0) && Stands(s', 0, GiveBack(0, true), []) && s'.backends[0] == Backend(StatusIdle, {}, [done, Ready])
            && s'.relays.Keys == s.relays.Keys && s.desynced <= s'.desynced
  {
    more := Use(moves, 0, Good, [done, Ready]);
    assert Reach(One, more).backends[0].queue == [done, Ready, done, Ready];
    more := Use(more, 0, Good, []);
    assert Reach(One, more).backends[0].queue == [Ready, done, Ready];
    more := Use(more, 0, Good, []);
    assert Reach(One, more).backends[0].queue == [done, Ready];
  }

  /** The abandoned query's ReadyForQuery is taken for the answer to ROLLBACK. */
  lemma Misreads(moves: seq<Move>, done: Msg) returns (more: seq<Move>)
    requires done.kind != KindReady
    requires Lent(Reach(One, moves), 0) && Stands(Reach(One, moves), 0, SendRollback(0), [])
    requires Reach(One, moves).backends[0] == Backend(StatusIdle, {0}, [Ready])
    ensures var s, s' := Reach(One, moves), Reach(One, more);
            && Lent(s', 0) && Stands(s', 0, SendDiscard(0, true), []) && s'.backends[0] == Backend(StatusIdle, {0}, [done, Ready])
            && s'.relays.Keys == s.relays.Keys && s.desynced <= s'.desynced
  {
    more := Use(moves, 0, Good, [done, Ready]);
    assert Reach(One, more).backends[0].queue == [Ready, done, Ready];
    more := Use(more, 0, Good, []);
    assert Reach(One, more).backends[0].queue == [done, Ready];
  }

  /** The connection comes back to the pool with the answer to DISCARD ALL unread. */
  lemma PoolGetsDirty(query: Msg, row: Msg, done: Msg) returns (moves: seq<Move>)
    requires query.kind != KindTerminate && !DetectSessionPin(query)
    requires row.kind != KindReady && done.kind != KindReady && done.kind != KindError
    ensures var s := Reach(One, moves);
            && Shelved(s) && s.relays.Keys == {0} && s.backends[0] == Backend(StatusIdle, {}, [done, Ready])
            && 0 in s.desynced
  {
    moves := Dials();
    moves := Greets(moves, 0);
    moves := Opens(moves, 0, query);
    moves := Relays(moves, query, row);
    moves := IsLost(moves, row);
    moves := Misreads(moves, done);
    moves := CleansUp(moves, done);
    moves := GivesBack(moves, 0);
  }

  /** A session that forwards its query on that connection shows its client what is unread there. */
  lemma IsShown(moves: seq<Move>, query: Msg, done: Msg, own: seq<Msg>) returns (more: seq<Move>)
    requires done.kind != KindReady && Answers(own)
    requires Lent(Reach(One, moves), 1) && Stands(Reach(One, moves), 1, Forward(0, query), [])
    requires Reach(One, moves).backends[0].queue == [done, Ready] && Reach(One, moves).replies[1] == []
    requires 0 in Reach(One, moves).desynced
    ensures var s := Reach(One, more);
            && 1 in s.relays && 1 in s.replies && s.relays[1].log.toClient == [done] && s.replies[1] == [own]
            && 1 in s.crossed
  {
    more := Use(moves, 1, Good, own);
    assert Reach(One, more).backends[0].queue[0] == done;
    more := Use(more, 1, Good, []);
    more := Use(more, 1, Good, []);
  }

  /** The next session is about to forward its query on that connection. */
  lemma NextOpens(query: Msg, row: Msg, done: Msg) returns (moves: seq<Move>)
    requires query.kind != KindTerminate && !DetectSessionPin(query)
    requires row.kind != KindReady && done.kind != KindReady && done.kind != KindError
    ensures var s := Reach(One, moves);
            && Lent(s, 1) && Stands(s, 1, Forward(0, query), []) && s.replies[1] == []
            && s.backends[0].queue == [done, Ready] && 0 in s.desynced
  {
    moves := PoolGetsDirty(query, row, done);
    moves := Begins(moves, 1);
    moves := Takes(moves, 1);
    moves := Greets(moves, 1);
    moves := Opens(moves, 1, query);
  }

  lemma NotOwn(done: Msg, own: seq<Msg>)
    ensures [done] <= Flatten([own]) <==> own != [] && own[0] == done
  {
    FlattenOne([], own);
    assert [] + [own] == [own] && [] + own == own;
  }

  /** The next client is shown the other session's response. What it has been shown is no
      beginning of the answers to its own messages unless its own answer happens to begin with
      the same message. */
  lemma TransparencyFails(query: Msg, row: Msg, done: Msg, own: seq<Msg>) returns (moves: seq<Move>)
    requires query.kind != KindTerminate && !DetectSessionPin(query)
    requires row.kind != KindReady && done.kind != KindReady && done.kind != KindError && Answers(own)
    ensures var s := Reach(One, moves);
            && 1 in s.relays && 1 in s.replies && s.relays[1].log.toClient == [done] && s.replies[1] == [own]
            && 1 in s.crossed
            && (own == [] || own[0] != done ==> !(s.relays[1].log.toClient <= Flatten(s.replies[1])))
  {
    moves := NextOpens(query, row, done);
    moves := IsShown(moves, query, done, own);
    NotOwn(done, own);
  }
}
