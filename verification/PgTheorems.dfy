/** The guarantees of the composed system, for every number of sessions and every interleaving. */
module PgTheorems {
  import opened Wire
  import opened PoolCore
  import opened PgRelay
  import opened PgRelayTheorems
  import opened Disposal
  import opened PgSystem
  import opened PgIsolation
  import opened PgAnswers
  import P = PoolMachine
  import I = PoolInvariants
  import O = PoolOrigins

  // ---- Pool steps and new sessions ----

  lemma PoolMoveLinked(cfg: Config, s: Sys, a: P.Action)
    requires Linked(s) && Allowed(s, a)
    requires O.Undisturbed(s.pool, P.Next(cfg, s.pool, a), a)
    ensures Linked(StepPool(cfg, s, a))
  {
    var s' := StepPool(cfg, s, a);
    assert O.NewConn(s.pool, a) == NewConn(s, a);
    forall t | t in s'.relays
      ensures LinkedAt(s'.pool, t, s'.relays[t].pc)
    {
      assert LinkedAt(s.pool, t, s.relays[t].pc);
    }
    forall t: Sid | t !in s'.relays
      ensures P.Free(s'.pool, P.Client(t))
    {
      assert P.Free(s.pool, P.Client(t));
    }
  }

  lemma PoolMoveTidy(cfg: Config, s: Sys, a: P.Action)
    requires Linked(s) && Tidy(s) && I.Placed(s.pool) && O.Sourced(s.pool, P.Next(cfg, s.pool, a), a)
    ensures Tidy(StepPool(cfg, s, a))
  {
    var s' := StepPool(cfg, s, a);
    forall h | h in s'.pool.core.idle
      ensures Resting(s', h)
    {
      assert h !in s.pool.core.idle ==> Unused(s, P.Warmer);
    }
    forall u | u in s'.pool.hands && Unused(s', u)
      ensures Resting(s', s'.pool.hands[u])
    {
      if u in s.pool.hands && s'.pool.hands[u] == s.pool.hands[u] && (u in s'.pool.unpublished ==> u in s.pool.unpublished) {
        assert Unused(s, u);
      }
    }
  }

  lemma PoolMoveIsolated(cfg: Config, s: Sys, a: P.Action)
    requires Linked(s) && Isolated(s) && I.Placed(s.pool) && O.Sourced(s.pool, P.Next(cfg, s.pool, a), a)
    ensures Isolated(StepPool(cfg, s, a))
  {
    var s' := StepPool(cfg, s, a);
    PoolMoveTidy(cfg, s, a);
    forall t | t in s'.relays && t in s'.replies
      ensures SessionOk(s', t)
    {
      assert SessionOk(s, t);
    }
  }

  lemma PoolMoveKeeps(cfg: Config, s: Sys, a: P.Action)
    requires SysInv(cfg, s) && Allowed(s, a)
    ensures SysInv(cfg, StepPool(cfg, s, a))
  {
    I.InvNext(cfg, s.pool, a);
    O.Origins(cfg, s.pool, a);
    PoolMoveLinked(cfg, s, a);
    PoolMoveIsolated(cfg, s, a);
  }

  lemma BeginLinked(cfg: Config, s: Sys, t: Sid)
    requires Linked(s) && t !in s.relays
    ensures Linked(Next(cfg, s, Begin(t)))
  {
    var s' := Next(cfg, s, Begin(t));
    assert P.Free(s.pool, P.Client(t));
    forall v | v in s'.relays
      ensures LinkedAt(s'.pool, v, s'.relays[v].pc)
    {
      assert v != t ==> LinkedAt(s.pool, v, s.relays[v].pc);
    }
  }

  lemma BeginIsolated(cfg: Config, s: Sys, t: Sid)
    requires Linked(s) && Isolated(s) && t !in s.relays
    ensures Isolated(Next(cfg, s, Begin(t)))
  {
    var s' := Next(cfg, s, Begin(t));
    assert P.Free(s.pool, P.Client(t));
    forall v | v in s'.relays && v in s'.replies
      ensures SessionOk(s', v)
    {
      assert v != t ==> SessionOk(s, v);
    }
    assert forall u | u in s'.pool.hands && Unused(s', u) :: Unused(s, u);
  }

  lemma CallKeeps(cfg: Config, s: Sys, t: Sid, io: Io, reply: seq<Msg>)
    requires SysInv(cfg, s) && t in s.relays && Result(s, t, io, reply)
    ensures SysInv(cfg, StepCall(cfg, s, t, io, reply))
  {
    PoolAfterInv(cfg, s.pool, t, Emits(s.relays[t], io));
    CallLinked(cfg, s, t, io, reply);
    CallIsolated(cfg, s, t, io, reply);
  }

  lemma PoolMoveNext(cfg: Config, s: Sys, a: P.Action)
    requires SysInv(cfg, s)
    ensures SysInv(cfg, Next(cfg, s, PoolMove(a)))
  {
    if Allowed(s, a) {
      PoolMoveKeeps(cfg, s, a);
    }
  }

  lemma BeginNext(cfg: Config, s: Sys, t: Sid)
    requires SysInv(cfg, s)
    ensures SysInv(cfg, Next(cfg, s, Begin(t)))
  {
    if t !in s.relays {
      BeginLinked(cfg, s, t);
      BeginIsolated(cfg, s, t);
    }
  }

  lemma CallNext(cfg: Config, s: Sys, t: Sid, io: Io, reply: seq<Msg>)
    requires SysInv(cfg, s)
    ensures SysInv(cfg, Next(cfg, s, Call(t, io, reply)))
  {
    if t in s.relays && Answer(s, t, io, reply).Some? {
      AnswerIsResult(s, t, io, reply);
      CallKeeps(cfg, s, t, Answer(s, t, io, reply).value, reply);
    }
  }

  lemma SysInvNext(cfg: Config, s: Sys, m: Move)
    requires SysInv(cfg, s)
    ensures SysInv(cfg, Next(cfg, s, m))
  {
    match m
    case PoolMove(a) => PoolMoveNext(cfg, s, a);
    case Begin(t) => BeginNext(cfg, s, t);
    case Call(t, io, reply) => CallNext(cfg, s, t, io, reply);
  }

  lemma {:induction false} SysInvRun(cfg: Config, s: Sys, moves: seq<Move>)
    requires SysInv(cfg, s)
    ensures SysInv(cfg, PgSystem.Run(cfg, s, moves))
    decreases |moves|
  {
    if moves != [] {
      SysInvNext(cfg, s, moves[0]);
      SysInvRun(cfg, Next(cfg, s, moves[0]), moves[1..]);
    }
  }

  lemma SysInvReach(cfg: Config, moves: seq<Move>)
    ensures SysInv(cfg, Reach(cfg, moves))
  {
    SysInvRun(cfg, Init(cfg), moves);
  }

  // ---- Each session of the system is a run of the relay ----

  lemma {:induction false} RelayAppend(r: Relay, ios: seq<Io>, io: Io)
    ensures RunFrom(r, ios + [io]) == Step(RunFrom(r, ios), io)
    decreases |ios|
  {
    if ios == [] {
      assert (ios + [io])[1..] == [];
    } else {
      assert (ios + [io])[1..] == ios[1..] + [io];
      RelayAppend(Step(r, ios[0]), ios[1..], io);
    }
  }

  lemma SessionStep(cfg: Config, s: Sys, m: Move, t: Sid, ios: seq<Io>) returns (more: seq<Io>)
    requires t in s.relays ==> s.relays[t] == PgRelay.Run(ios)
    ensures var s' := Next(cfg, s, m); t in s'.relays ==> s'.relays[t] == PgRelay.Run(more)
  {
    more := if t in s.relays then ios else [];
    if m.Call? && m.t == t && t in s.relays && Answer(s, t, m.io, m.reply).Some? {
      more := ios + [Answer(s, t, m.io, m.reply).value];
      RelayAppend(Start, ios, Answer(s, t, m.io, m.reply).value);
    }
  }

  lemma {:induction false} SessionFrom(cfg: Config, s: Sys, moves: seq<Move>, t: Sid, ios: seq<Io>)
    returns (more: seq<Io>)
    requires t in s.relays ==> s.relays[t] == PgRelay.Run(ios)
    ensures var s' := PgSystem.Run(cfg, s, moves); t in s'.relays ==> s'.relays[t] == PgRelay.Run(more)
    decreases |moves|
  {
    if moves == [] {
      more := ios;
    } else {
      var next := SessionStep(cfg, s, moves[0], t, ios);
      more := SessionFrom(cfg, Next(cfg, s, moves[0]), moves[1..], t, next);
    }
  }

  /** So disposal and affinity hold of every session in every run of the system. */
  lemma SessionsBehave(cfg: Config, moves: seq<Move>, t: Sid)
    requires t in Reach(cfg, moves).relays
    ensures var r := Reach(cfg, moves).relays[t];
            && Held(r.log.events) == Custody(r.pc) && Held(r.log.events) != Broken
            && Affine(r)
  {
    var ios := SessionFrom(cfg, Init(cfg), moves, t, []);
    DisposedExactlyOnce(ios);
    AffineRun(ios);
  }

  // ---- The guarantees ----

  lemma IsolatedReach(cfg: Config, moves: seq<Move>)
    ensures Isolated(Reach(cfg, moves)) && Reach(cfg, moves).replies.Keys == Reach(cfg, moves).relays.Keys
  {
    SysInvReach(cfg, moves);
  }

  lemma UsedOk(cfg: Config, moves: seq<Move>, t: Sid)
    requires t in Reach(cfg, moves).relays && Custody(Reach(cfg, moves).relays[t].pc).Holds?
    ensures var s := Reach(cfg, moves);
            var pc, h := s.relays[t].pc, Custody(s.relays[t].pc).h;
            h in s.backends && UseOk(t, pc, s.backends[h], h in s.desynced, s.full)
  {
    IsolatedReach(cfg, moves);
    assert SessionOk(Reach(cfg, moves), t);
  }

  /** Isolation, on every run and for every connection on which no client was lost in the middle
      of a response: in the pool it is transaction-idle, free of session state and of unread
      responses; so it is when a session is about to return it; and whenever a session forwards a
      message on it, it has no unread response and no state of another session. */
  lemma Isolation(cfg: Config, moves: seq<Move>, h: Handle)
    requires h !in Reach(cfg, moves).desynced
    ensures var s := Reach(cfg, moves);
            && (h in s.pool.core.idle ==> h in s.backends && s.backends[h] == Backend(StatusIdle, {}, []))
            && (forall t, exit | t in s.relays && s.relays[t].pc == GiveBack(h, exit) ::
                  h in s.backends && s.backends[h] == Backend(StatusIdle, {}, []))
            && (forall t, msg | t in s.relays && s.relays[t].pc == Forward(h, msg) ::
                  h in s.backends && s.backends[h].queue == [] && s.backends[h].residue <= {t})
  {
    IsolatedReach(cfg, moves);
    var s := Reach(cfg, moves);
    assert h in s.pool.core.idle ==> Resting(s, h);
    forall t | t in s.relays && Custody(s.relays[t].pc) == Holds(h)
      ensures h in s.backends && BackendOk(t, s.relays[t].pc, s.backends[h])
    {
      UsedOk(cfg, moves, t);
    }
  }

  /** That is the exact condition if the server ends every answer with ReadyForQuery: a connection
      in the pool is clean, and one that a message is forwarded on has nothing unread, if and only
      if no client was ever lost on it in the middle of a response. */
  lemma IsolationIff(cfg: Config, moves: seq<Move>, h: Handle)
    requires Reach(cfg, moves).full
    ensures var s := Reach(cfg, moves);
            && (h in s.pool.core.idle ==> h in s.backends && (Clean(s.backends[h]) <==> h !in s.desynced))
            && (forall t, exit | t in s.relays && s.relays[t].pc == GiveBack(h, exit) ::
                  h in s.backends && (Clean(s.backends[h]) <==> h !in s.desynced))
            && (forall t, msg | t in s.relays && s.relays[t].pc == Forward(h, msg) ::
                  h in s.backends && (s.backends[h].queue == [] <==> h !in s.desynced))
  {
    IsolatedReach(cfg, moves);
    var s := Reach(cfg, moves);
    assert h in s.pool.core.idle ==> Resting(s, h);
    forall t | t in s.relays && Custody(s.relays[t].pc) == Holds(h)
      ensures h in s.backends && UseOk(t, s.relays[t].pc, s.backends[h], h in s.desynced, s.full)
    {
      UsedOk(cfg, moves, t);
    }
  }

  lemma AnsweredReach(cfg: Config, moves: seq<Move>, t: Sid)
    requires t in Reach(cfg, moves).relays
    ensures var s := Reach(cfg, moves); t in s.replies && Paired(s.relays[t].log.sent, s.replies[t])
  {
    AnsweredRun(cfg, Init(cfg), moves);
  }

  predicate AwaitsClient(pc: Pc) {
    pc.CheckContext? || pc.ReadClient?
  }

  /** Transparency, on every run and for every session that forwarded nothing on a connection that
      lost its place: there is one answer per message it forwarded, and it has been shown exactly
      these answers, in order; whenever it waits for its client all of them, each ending at its
      ReadyForQuery; and never anything else, so nothing of the injected ROLLBACK and DISCARD ALL
      exchanges. */
  lemma Transparency(cfg: Config, moves: seq<Move>, t: Sid)
    requires t in Reach(cfg, moves).relays && t !in Reach(cfg, moves).crossed
    ensures var s := Reach(cfg, moves);
            && t in s.replies && |s.replies[t]| == |s.relays[t].log.sent|
            && s.relays[t].log.toClient <= Flatten(s.replies[t])
            && (AwaitsClient(s.relays[t].pc) ==>
                  && s.relays[t].log.toClient == Flatten(s.replies[t])
                  && forall r | r in s.replies[t] :: EndsReady(r))
  {
    IsolatedReach(cfg, moves);
    AnsweredReach(cfg, moves, t);
    var s := Reach(cfg, moves);
    assert SessionOk(s, t);
    if AwaitsClient(s.relays[t].pc) {
      SessionsBehave(cfg, moves, t);
      EachComplete(s.relays[t].log.toClient, s.replies[t], s.relays[t].log.ends);
    }
  }

  /** No two sessions ever hold the same connection, and none holds a connection of the idle list. */
  lemma OneSessionPerConnection(cfg: Config, moves: seq<Move>, t: Sid, v: Sid)
    requires var s := Reach(cfg, moves);
             && t in s.relays && v in s.relays && t != v && Custody(s.relays[t].pc).Holds?
    ensures var s := Reach(cfg, moves);
            && Custody(s.relays[t].pc).h !in s.pool.core.idle
            && Custody(s.relays[v].pc) != Custody(s.relays[t].pc)
  {
    SysInvReach(cfg, moves);
    var s := Reach(cfg, moves);
    assert LinkedAt(s.pool, t, s.relays[t].pc) && LinkedAt(s.pool, v, s.relays[v].pc);
    assert P.Client(t) != P.Client(v);
  }
}
