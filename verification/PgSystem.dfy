/** Any number of PostgreSQL transaction-mode sessions on one pool, with their backends:
    the pool machine, one relay machine per session, and a model of the server end of
    each connection. Every interleaving of their steps is a run. */
module PgSystem {
  import opened Wire
  import opened PoolCore
  import opened PgRelay
  import opened PgRelayTheorems
  import opened Disposal
  import P = PoolMachine

  type Sid = nat

  /** The server end of a connection: transaction status, the sessions whose messages may have
      left state behind (settings, prepared statements, an open transaction), and the responses
      not yet read from it. */
  datatype Backend = Backend(txn: byte, residue: set<Sid>, queue: seq<Msg>)

  const Fresh := Backend(StatusIdle, {}, [])

  predicate Clean(b: Backend) {
    b == Fresh
  }

  // ---- What a server may answer ----

  /** ReadyForQuery only as the last message. */
  predicate OneReply(ms: seq<Msg>) {
    forall i | 0 <= i < |ms| - 1 :: ms[i].kind != KindReady
  }

  predicate HasReady(ms: seq<Msg>) {
    exists i :: 0 <= i < |ms| && ms[i].kind == KindReady
  }

  predicate HasError(ms: seq<Msg>) {
    exists i :: 0 <= i < |ms| && ms[i].kind == KindError
  }

  predicate EndsReady(ms: seq<Msg>) {
    ms != [] && ms[|ms| - 1].kind == KindReady
  }

  /** A server's answer to one message: anything, with at most one ReadyForQuery, which comes
      last and carries the status. A message answered without one leaves the relay blocked. */
  predicate Answers(reply: seq<Msg>) {
    OneReply(reply) && (EndsReady(reply) ==> |reply[|reply| - 1].payload| >= 1)
  }

  predicate ReportsIdle(reply: seq<Msg>) {
    EndsReady(reply) && SaysIdle(reply[|reply| - 1].payload)
  }

  function StatusAfter(txn: byte, reply: seq<Msg>): byte {
    if EndsReady(reply) && |reply[|reply| - 1].payload| >= 1 then reply[|reply| - 1].payload[0] else txn
  }

  /** How many ReadyForQuery messages are in a list. */
  function Readies(q: seq<Msg>): nat {
    if q == [] then 0 else (if q[0].kind == KindReady then 1 else 0) + Readies(q[1..])
  }

  lemma {:induction false} ReadiesAppend(a: seq<Msg>, b: seq<Msg>)
    ensures Readies(a + b) == Readies(a) + Readies(b)
    decreases |a|
  {
    if a == [] {
      assert a + b == b;
    } else {
      assert (a + b)[1..] == a[1..] + b;
      ReadiesAppend(a[1..], b);
    }
  }

  lemma {:induction false} ReadiesMeans(q: seq<Msg>)
    ensures Readies(q) == 0 <==> !HasReady(q)
    decreases |q|
  {
    if q != [] {
      ReadiesMeans(q[1..]);
      assert HasReady(q[1..]) ==> HasReady(q) by {
        if HasReady(q[1..]) {
          var i :| 0 <= i < |q[1..]| && q[1..][i].kind == KindReady;
          assert q[i + 1] == q[1..][i];
        }
      }
      if HasReady(q) && q[0].kind != KindReady {
        var i :| 0 <= i < |q| && q[i].kind == KindReady;
        assert q[1..][i - 1] == q[i];
      }
    }
  }

  lemma {:induction false} OneReplyReadies(q: seq<Msg>)
    requires OneReply(q) && EndsReady(q)
    ensures Readies(q) == 1
    decreases |q|
  {
    if |q| > 1 {
      assert q[0].kind != KindReady;
      OneReplyReadies(q[1..]);
    } else {
      assert q[1..] == [];
    }
  }

  /** The server handles a message sent on behalf of `who`. */
  function Serve(b: Backend, who: set<Sid>, reply: seq<Msg>): Backend {
    Backend(StatusAfter(b.txn, reply), b.residue + who, b.queue + reply)
  }

  /** DISCARD ALL: if it is answered without an error and the server ends up idle, the session
      state is gone; otherwise nothing is promised about it. */
  function ServeDiscard(b: Backend, reply: seq<Msg>): Backend {
    if ReportsIdle(reply) && !HasError(reply) then Backend(StatusIdle, {}, b.queue + reply)
    else Serve(b, {}, reply)
  }

  // ---- The system ----

  /** The rest is history. `replies` are the server's answers to each message a session forwarded;
      `desynced` the connections on which some client was lost, and so a cleanup begun, while a
      ReadyForQuery was still unread; `crossed` the sessions that have forwarded a message on such
      a connection; `full` tells whether every answer so far ended with ReadyForQuery. */
  datatype Sys = Sys(
    pool: P.Pool, relays: map<Sid, Relay>, backends: map<Handle, Backend>,
    replies: map<Sid, seq<seq<Msg>>>, desynced: set<Handle>, crossed: set<Sid>, full: bool)

  datatype Move =
    | PoolMove(a: P.Action)
    | Begin(t: Sid)
    | Call(t: Sid, io: Io, reply: seq<Msg>)

  function Init(cfg: Config): Sys {
    Sys(P.Init(cfg), map[], map[], map[], {}, {}, true)
  }

  predicate WantsBackend(pc: Pc) {
    pc.AcquireFirst? || pc.AcquireAgain?
  }

  /** Pool steps that are not a session's own return or close; a session acquires only when its
      relay asks for a backend. */
  predicate Allowed(s: Sys, a: P.Action) {
    match a
    case Return(_) => false
    case CloseHandle(_) => false
    case Acquire(t, _) => t.Client? && t.id in s.relays && WantsBackend(s.relays[t.id].pc)
    case _ => true
  }

  predicate NewConn(s: Sys, a: P.Action) {
    a.Dialled? && a.t in s.pool.dialing && a.handle !in s.pool.core.conns
  }

  function StepPool(cfg: Config, s: Sys, a: P.Action): Sys {
    s.(pool := P.Next(cfg, s.pool, a),
       backends := if NewConn(s, a) then s.backends[a.handle := Fresh] else s.backends)
  }

  predicate IsOpen(s: Sys, h: Handle) {
    h in s.backends && h in s.pool.core.conns && s.pool.core.conns[h].open
  }

  predicate Writes(pc: Pc) {
    pc.Forward? || pc.SendRollback? || pc.SendDiscard?
  }

  predicate Reads(pc: Pc) {
    pc.ReadBackend? || pc.ReadRollback? || pc.ReadDiscard?
  }

  /** The result session `t`'s next call gets: the pool decides which connection, the backend's
      queue which message; failures may happen at any time, successes only on an open socket. */
  function Answer(s: Sys, t: Sid, io: Io, reply: seq<Msg>): Option<Io>
    requires t in s.relays
  {
    var pc := s.relays[t].pc;
    if pc.Done? then None
    else if WantsBackend(pc) then
      var u := P.Client(t);
      if io.ok then
        if u in s.pool.hands && u !in s.pool.unpublished then Some(io.(handle := s.pool.hands[u])) else None
      else if P.Free(s.pool, u) then Some(io) else None
    else if Writes(pc) && io.ok then
      if IsOpen(s, pc.h) && Answers(reply) then Some(io) else None
    else if Reads(pc) && io.ok then
      if IsOpen(s, pc.h) && s.backends[pc.h].queue != [] then Some(io.(msg := s.backends[pc.h].queue[0])) else None
    else Some(io)
  }

  /** What a call does to the server end of the connection it is made on. */
  function Touch(t: Sid, pc: Pc, io: Io, reply: seq<Msg>, b: Backend): Backend {
    if !io.ok then b
    else if pc.Forward? then Serve(b, {t}, reply)
    else if pc.SendRollback? then Serve(b, {}, reply)
    else if pc.SendDiscard? then ServeDiscard(b, reply)
    else if Reads(pc) && b.queue != [] then b.(queue := b.queue[1..])
    else b
  }

  function PoolAfter(cfg: Config, p: P.Pool, t: Sid, e: Option<Event>): P.Pool {
    match e
    case Some(Returned(_)) => P.Next(cfg, p, P.Return(P.Client(t)))
    case Some(Shut(_)) => P.Next(cfg, p, P.CloseHandle(P.Client(t)))
    case _ => p
  }

  /** A client is lost in the middle of a response. */
  predicate Desyncs(pc: Pc, io: Io, b: Backend) {
    pc.WriteClient? && !io.ok && HasReady(b.queue)
  }

  function StepCall(cfg: Config, s: Sys, t: Sid, io: Io, reply: seq<Msg>): Sys
    requires t in s.relays
  {
    var r := s.relays[t];
    Sys(
      PoolAfter(cfg, s.pool, t, Emits(r, io)),
      s.relays[t := Step(r, io)],
      if (Writes(r.pc) || Reads(r.pc)) && r.pc.h in s.backends
        then s.backends[r.pc.h := Touch(t, r.pc, io, reply, s.backends[r.pc.h])] else s.backends,
      if r.pc.Forward? && io.ok && t in s.replies then s.replies[t := s.replies[t] + [reply]] else s.replies,
      if r.pc.WriteClient? && r.pc.h in s.backends && Desyncs(r.pc, io, s.backends[r.pc.h])
        then s.desynced + {r.pc.h} else s.desynced,
      if r.pc.Forward? && io.ok && r.pc.h in s.desynced then s.crossed + {t} else s.crossed,
      s.full && (Writes(r.pc) && io.ok ==> EndsReady(reply)))
  }

  function Next(cfg: Config, s: Sys, m: Move): Sys {
    match m
    case PoolMove(a) => if Allowed(s, a) then StepPool(cfg, s, a) else s
    case Begin(t) =>
      if t in s.relays then s else s.(relays := s.relays[t := Start], replies := s.replies[t := []])
    case Call(t, io, reply) =>
      if t !in s.relays then s
      else
        match Answer(s, t, io, reply)
        case None => s
        case Some(result) => StepCall(cfg, s, t, result, reply)
  }

  function Run(cfg: Config, s: Sys, moves: seq<Move>): Sys
    decreases |moves|
  {
    if moves == [] then s else Run(cfg, Next(cfg, s, moves[0]), moves[1..])
  }

  function Reach(cfg: Config, moves: seq<Move>): Sys {
    Run(cfg, Init(cfg), moves)
  }
}
