/** Isolation and transparency over every interleaving of sessions, pool and backends. */
module PgIsolation {
  import opened Wire
  import opened PoolCore
  import opened PgRelay
  import opened PgRelayTheorems
  import opened Disposal
  import opened PgSystem
  import P = PoolMachine
  import I = PoolInvariants

  // ---- The invariant ----

  function Flatten(rs: seq<seq<Msg>>): seq<Msg> {
    if rs == [] then [] else Flatten(rs[..|rs| - 1]) + rs[|rs| - 1]
  }

  lemma FlattenOne(rs: seq<seq<Msg>>, r: seq<Msg>)
    ensures Flatten(rs + [r]) == Flatten(rs) + r
  {
    assert (rs + [r])[..|rs|] == rs;
  }

  /** The relay and the pool agree on what the session holds. */
  ghost predicate LinkedAt(p: P.Pool, t: Sid, pc: Pc) {
    var u := P.Client(t);
    match Custody(pc)
    case Holds(h) => u in p.hands && p.hands[u] == h && u !in p.unpublished
    case _ => WantsBackend(pc) || P.Free(p, u)
  }

  ghost predicate Linked(s: Sys) {
    && s.backends.Keys == s.pool.core.conns.Keys
    && s.replies.Keys == s.relays.Keys
    && (forall h | h in s.desynced :: h in s.backends)
    && (forall t | t in s.relays :: LinkedAt(s.pool, t, s.relays[t].pc))
    && (forall t: Sid | t !in s.relays :: P.Free(s.pool, P.Client(t)))
  }

  /** Connections nobody has used since they were dialled or returned are clean. */
  ghost predicate Unused(s: Sys, u: P.Tid) {
    u.Warmer? || u in s.pool.unpublished || (u.id in s.relays && WantsBackend(s.relays[u.id].pc))
  }

  /** A connection nobody uses is clean, unless it lost its place: then, if the server answers
      everything, it still has a response to deliver. */
  ghost predicate RestOk(off: bool, full: bool, b: Backend) {
    if off then full ==> Readies(b.queue) >= 1 else Clean(b)
  }

  ghost predicate Resting(s: Sys, h: Handle) {
    h in s.backends && RestOk(h in s.desynced, s.full, s.backends[h])
  }

  ghost predicate Tidy(s: Sys) {
    && (forall h | h in s.pool.core.idle :: Resting(s, h))
    && (forall u | u in s.pool.hands && Unused(s, u) :: Resting(s, s.pool.hands[u]))
  }

  /** The state of the backend in use, by the relay's control point. */
  ghost predicate BackendOk(t: Sid, pc: Pc, b: Backend) {
    match pc
    case SendAuth(_) => Clean(b)
    case GiveBack(_, _) => Clean(b)
    case CheckContext(_) => b.queue == [] && b.residue <= {t}
    case ReadClient(_) => b.queue == [] && b.residue <= {t}
    case Forward(_, _) => b.queue == [] && b.residue <= {t}
    case ReadBackend(_) => OneReply(b.queue) && b.residue <= {t}
    case WriteClient(_, m) => OneReply([m] + b.queue) && b.residue <= {t}
    case SendRollback(_) => !HasReady(b.queue)
    case ReadRollback(_) => OneReply(b.queue)
    case SendDiscard(_, _) => b.queue == []
    case ReadDiscard(_, _) =>
      && OneReply(b.queue)
      && (ReportsIdle(b.queue) && !HasError(b.queue) ==> b.txn == StatusIdle && b.residue == {})
    case _ => true
  }

  /** The responses the relay is still going to read before it turns to something else. */
  function Owed(pc: Pc): nat {
    match pc
    case ReadBackend(_) => 1
    case WriteClient(_, m) => if m.kind == KindReady then 0 else 1
    case ReadRollback(_) => 1
    case ReadDiscard(_, _) => 1
    case _ => 0
  }

  ghost predicate UseOk(t: Sid, pc: Pc, b: Backend, off: bool, full: bool) {
    if off then full ==> Readies(b.queue) >= 1 + Owed(pc) else BackendOk(t, pc, b)
  }

  /** What the client has seen, by the relay's control point: `all` are the answers to the
      messages it forwarded, in order, and `queue` what is still unread of the last one. */
  ghost predicate StreamOk(pc: Pc, seen: seq<Msg>, all: seq<Msg>, queue: seq<Msg>) {
    match pc
    case ReadBackend(_) => seen + queue == all
    case WriteClient(_, m) => seen + [m] + queue == all
    case SendRollback(_) => seen <= all
    case ReadRollback(_) => seen <= all
    case SendDiscard(_, exit) => if exit then seen <= all else seen == all
    case ReadDiscard(_, exit) => if exit then seen <= all else seen == all
    case GiveBack(_, exit) => if exit then seen <= all else seen == all
    case Done => seen <= all
    case _ => seen == all
  }

  function QueueOf(s: Sys, pc: Pc): seq<Msg> {
    match Custody(pc)
    case Holds(h) => if h in s.backends then s.backends[h].queue else []
    case _ => []
  }

  ghost predicate SessionOk(s: Sys, t: Sid)
    requires t in s.relays && t in s.replies
  {
    var r := s.relays[t];
    && (Custody(r.pc).Holds? ==>
          var h := Custody(r.pc).h;
          h in s.backends && UseOk(t, r.pc, s.backends[h], h in s.desynced, s.full))
    && (t !in s.crossed ==>
          && StreamOk(r.pc, r.log.toClient, Flatten(s.replies[t]), QueueOf(s, r.pc))
          && (Receiving(r.pc) ==> r.pc.h !in s.desynced))
  }

  predicate Receiving(pc: Pc) {
    pc.ReadBackend? || pc.WriteClient?
  }

  ghost predicate Isolated(s: Sys) {
    Tidy(s) && forall t | t in s.relays && t in s.replies :: SessionOk(s, t)
  }

  ghost predicate SysInv(cfg: Config, s: Sys) {
    I.Inv(cfg, s.pool) && Linked(s) && Isolated(s)
  }

  // ---- One session's own step ----

  lemma PopReply(q: seq<Msg>)
    requires q != [] && OneReply(q)
    ensures [q[0]] + q[1..] == q && OneReply(q[1..])
    ensures q[0].kind == KindReady ==> q == [q[0]]
  {
  }

  lemma PopVerdict(q: seq<Msg>)
    requires q != [] && OneReply(q) && ReportsIdle(q[1..]) && !HasError(q[1..]) && q[0].kind != KindError
    ensures ReportsIdle(q) && !HasError(q)
  {
    forall i | 0 <= i < |q|
      ensures q[i].kind != KindError
    {
      assert i == 0 || q[i] == q[1..][i - 1];
    }
  }

  lemma BackendStep(t: Sid, r: Relay, io: Io, reply: seq<Msg>, b: Backend)
    requires Custody(r.pc).Holds? && BackendOk(t, r.pc, b)
    requires Writes(r.pc) && io.ok ==> Answers(reply)
    requires Reads(r.pc) && io.ok ==> b.queue != [] && io.msg == b.queue[0]
    requires !(r.pc.WriteClient? && !io.ok && HasReady(b.queue))
    ensures Custody(Step(r, io).pc).Holds? ==> BackendOk(t, Step(r, io).pc, Touch(t, r.pc, io, reply, b))
    ensures Emits(r, io).Some? && Emits(r, io).value.Returned? ==> Clean(b)
  {
    if Reads(r.pc) {
      if io.ok {
        ReadStep(t, r, io, b);
      }
    } else if Writes(r.pc) {
      if io.ok {
        WriteStep(t, r, io, reply, b);
      }
    } else if r.pc.WriteClient? {
      PopReply([r.pc.reply] + b.queue);
      assert ([r.pc.reply] + b.queue)[1..] == b.queue;
    }
  }

  lemma ReadStep(t: Sid, r: Relay, io: Io, b: Backend)
    requires Reads(r.pc) && BackendOk(t, r.pc, b) && io.ok && b.queue != [] && io.msg == b.queue[0]
    ensures Custody(Step(r, io).pc).Holds? ==> BackendOk(t, Step(r, io).pc, b.(queue := b.queue[1..]))
  {
    PopReply(b.queue);
    if r.pc.ReadDiscard? {
      if io.msg.kind == KindReady {
        assert b.queue == [io.msg] && !HasError([io.msg]);
      } else if io.msg.kind != KindError && ReportsIdle(b.queue[1..]) && !HasError(b.queue[1..]) {
        PopVerdict(b.queue);
      }
    }
  }

  lemma WriteStep(t: Sid, r: Relay, io: Io, reply: seq<Msg>, b: Backend)
    requires Writes(r.pc) && BackendOk(t, r.pc, b) && io.ok && Answers(reply)
    ensures BackendOk(t, Step(r, io).pc, Touch(t, r.pc, io, reply, b))
  {
    if !r.pc.SendRollback? {
      assert b.queue + reply == reply;
    }
  }

  /** A connection that lost its place stays behind. */
  lemma LagStep(r: Relay, io: Io, reply: seq<Msg>, b: Backend, t: Sid)
    requires Custody(r.pc).Holds? && Readies(b.queue) >= 1 + Owed(r.pc)
    requires Writes(r.pc) && io.ok ==> Answers(reply) && EndsReady(reply)
    requires Reads(r.pc) && io.ok ==> b.queue != [] && io.msg == b.queue[0]
    ensures Custody(Step(r, io).pc).Holds? ==>
              Readies(Touch(t, r.pc, io, reply, b).queue) >= 1 + Owed(Step(r, io).pc)
  {
    if Writes(r.pc) && io.ok {
      ReadiesAppend(b.queue, reply);
      OneReplyReadies(reply);
    }
  }

  lemma UseStep(t: Sid, r: Relay, io: Io, reply: seq<Msg>, b: Backend, off: bool, full: bool)
    requires Custody(r.pc).Holds? && UseOk(t, r.pc, b, off, full)
    requires Writes(r.pc) && io.ok ==> Answers(reply)
    requires Reads(r.pc) && io.ok ==> b.queue != [] && io.msg == b.queue[0]
    ensures var off', full' := off || Desyncs(r.pc, io, b), full && (Writes(r.pc) && io.ok ==> EndsReady(reply));
            && (Custody(Step(r, io).pc).Holds? ==> UseOk(t, Step(r, io).pc, Touch(t, r.pc, io, reply, b), off', full'))
            && (Emits(r, io).Some? && Emits(r, io).value.Returned? ==> RestOk(off', full', b))
  {
    if off {
      if full && (Writes(r.pc) && io.ok ==> EndsReady(reply)) {
        LagStep(r, io, reply, b, t);
      }
    } else if Desyncs(r.pc, io, b) {
      ReadiesMeans(b.queue);
    } else {
      BackendStep(t, r, io, reply, b);
    }
  }

  lemma StreamStep(t: Sid, r: Relay, io: Io, reply: seq<Msg>, b: Backend, rs: seq<seq<Msg>>)
    requires Custody(r.pc).Holds?
    requires Receiving(r.pc) || (r.pc.Forward? && io.ok) ==> BackendOk(t, r.pc, b)
    requires StreamOk(r.pc, r.log.toClient, Flatten(rs), b.queue)
    requires Reads(r.pc) && io.ok ==> b.queue != [] && io.msg == b.queue[0]
    ensures var all := Flatten(if r.pc.Forward? && io.ok then rs + [reply] else rs);
            StreamOk(Step(r, io).pc, Step(r, io).log.toClient, all,
                     if Custody(Step(r, io).pc).Holds? then Touch(t, r.pc, io, reply, b).queue else [])
  {
    var seen, all := r.log.toClient, Flatten(rs);
    if r.pc.Forward? {
      if io.ok {
        FlattenOne(rs, reply);
        assert b.queue + reply == reply;
      }
    } else if r.pc.ReadBackend? {
      if io.ok {
        PopReply(b.queue);
        assert seen + [io.msg] + b.queue[1..] == seen + b.queue;
      }
    } else if r.pc.WriteClient? {
      WriteClientStream(r, io, all, b.queue);
    }
  }

  lemma WriteClientStream(r: Relay, io: Io, all: seq<Msg>, queue: seq<Msg>)
    requires r.pc.WriteClient? && OneReply([r.pc.reply] + queue)
    requires r.log.toClient + [r.pc.reply] + queue == all
    ensures StreamOk(Step(r, io).pc, Step(r, io).log.toClient, all, queue)
  {
    PopReply([r.pc.reply] + queue);
    assert ([r.pc.reply] + queue)[1..] == queue;
  }

  // ---- What a call can be answered with ----

  ghost predicate Result(s: Sys, t: Sid, io: Io, reply: seq<Msg>)
    requires t in s.relays
  {
    var pc, u := s.relays[t].pc, P.Client(t);
    && pc != Done
    && (WantsBackend(pc) ==>
          if io.ok then u in s.pool.hands && u !in s.pool.unpublished && io.handle == s.pool.hands[u]
          else P.Free(s.pool, u))
    && (Writes(pc) && io.ok ==> pc.h in s.backends && Answers(reply))
    && (Reads(pc) && io.ok ==>
          pc.h in s.backends && s.backends[pc.h].queue != [] && io.msg == s.backends[pc.h].queue[0])
  }

  lemma AnswerIsResult(s: Sys, t: Sid, io: Io, reply: seq<Msg>)
    requires t in s.relays && Answer(s, t, io, reply).Some?
    ensures Result(s, t, Answer(s, t, io, reply).value, reply)
  {
  }

  // ---- Calls keep pool and relays in step ----

  predicate Disposes(e: Option<Event>) {
    e.Some? && (e.value.Returned? || e.value.Shut?)
  }

  lemma PoolAfterInv(cfg: Config, p: P.Pool, t: Sid, e: Option<Event>)
    requires I.Inv(cfg, p)
    ensures I.Inv(cfg, PoolAfter(cfg, p, t, e))
  {
    if e.Some? && e.value.Returned? {
      I.InvNext(cfg, p, P.Return(P.Client(t)));
    } else if e.Some? && e.value.Shut? {
      I.InvNext(cfg, p, P.CloseHandle(P.Client(t)));
    }
  }

  /** Returning or closing takes the connection out of the session's hands and touches no other. */
  lemma PoolAfterCall(cfg: Config, p: P.Pool, t: Sid, e: Option<Event>)
    requires Disposes(e) ==> P.Client(t) in p.hands && P.Client(t) !in p.unpublished
    ensures var q, u := PoolAfter(cfg, p, t, e), P.Client(t);
            && q.core.conns.Keys == p.core.conns.Keys && q.unpublished == p.unpublished
            && q.dialing == p.dialing && q.pausing == p.pausing && q.parked == p.parked
            && q.hands == (if Disposes(e) then p.hands - {u} else p.hands)
            && (forall h | h in q.core.idle ::
                  h in p.core.idle || (e.Some? && e.value.Returned? && u in p.hands && p.hands[u] == h))
  {
  }

  lemma DisposesHeld(r: Relay, io: Io)
    requires Disposes(Emits(r, io))
    ensures Custody(r.pc).Holds?
  {
  }

  lemma CallLinkedSelf(cfg: Config, s: Sys, t: Sid, io: Io, reply: seq<Msg>)
    requires I.Placed(s.pool) && t in s.relays && LinkedAt(s.pool, t, s.relays[t].pc) && Result(s, t, io, reply)
    ensures LinkedAt(PoolAfter(cfg, s.pool, t, Emits(s.relays[t], io)), t, Step(s.relays[t], io).pc)
  {
    var e := Emits(s.relays[t], io);
    if Disposes(e) {
      DisposesHeld(s.relays[t], io);
    }
    PoolAfterCall(cfg, s.pool, t, e);
    CustodyMoves(s.relays[t], io);
  }

  lemma CallLinkedOther(cfg: Config, p: P.Pool, t: Sid, e: Option<Event>, v: Sid, pc: Pc)
    requires Disposes(e) ==> P.Client(t) in p.hands && P.Client(t) !in p.unpublished
    requires v != t
    ensures LinkedAt(p, v, pc) ==> LinkedAt(PoolAfter(cfg, p, t, e), v, pc)
    ensures P.Free(p, P.Client(v)) ==> P.Free(PoolAfter(cfg, p, t, e), P.Client(v))
  {
    PoolAfterCall(cfg, p, t, e);
  }

  lemma CallLinkedRelays(cfg: Config, s: Sys, t: Sid, io: Io, reply: seq<Msg>)
    requires I.Placed(s.pool) && Linked(s) && t in s.relays && Result(s, t, io, reply)
    ensures var q := PoolAfter(cfg, s.pool, t, Emits(s.relays[t], io));
            && (forall v | v in s.relays && v != t :: LinkedAt(q, v, s.relays[v].pc))
            && LinkedAt(q, t, Step(s.relays[t], io).pc)
            && (forall v: Sid | v !in s.relays :: P.Free(q, P.Client(v)))
  {
    var e := Emits(s.relays[t], io);
    if Disposes(e) {
      DisposesHeld(s.relays[t], io);
    }
    CallLinkedSelf(cfg, s, t, io, reply);
    forall v: Sid | v != t
      ensures v in s.relays ==> LinkedAt(PoolAfter(cfg, s.pool, t, e), v, s.relays[v].pc)
      ensures v !in s.relays ==> P.Free(PoolAfter(cfg, s.pool, t, e), P.Client(v))
    {
      CallLinkedOther(cfg, s.pool, t, e, v, if v in s.relays then s.relays[v].pc else Done);
    }
  }

  lemma CallLinked(cfg: Config, s: Sys, t: Sid, io: Io, reply: seq<Msg>)
    requires I.Placed(s.pool) && Linked(s) && t in s.relays && Result(s, t, io, reply)
    ensures Linked(StepCall(cfg, s, t, io, reply))
  {
    var e := Emits(s.relays[t], io);
    if Disposes(e) {
      DisposesHeld(s.relays[t], io);
    }
    PoolAfterCall(cfg, s.pool, t, e);
    CallLinkedRelays(cfg, s, t, io, reply);
  }

  // ---- Calls keep sessions apart ----

  lemma OwnBackend(cfg: Config, s: Sys, t: Sid, io: Io, reply: seq<Msg>)
    requires t in s.relays && Custody(s.relays[t].pc).Holds? && Custody(s.relays[t].pc).h in s.backends
    ensures var s', h := StepCall(cfg, s, t, io, reply), Custody(s.relays[t].pc).h;
            h in s'.backends && s'.backends[h] == Touch(t, s.relays[t].pc, io, reply, s.backends[h])
  {
  }

  lemma OwnDesync(cfg: Config, s: Sys, t: Sid, io: Io, reply: seq<Msg>)
    requires t in s.relays && Custody(s.relays[t].pc).Holds? && Custody(s.relays[t].pc).h in s.backends
    ensures var s', h := StepCall(cfg, s, t, io, reply), Custody(s.relays[t].pc).h;
            h in s'.desynced <==> h in s.desynced || Desyncs(s.relays[t].pc, io, s.backends[h])
  {
  }

  /** The backend the caller goes on using, and the one it returns. */
  lemma CallUse(cfg: Config, s: Sys, t: Sid, io: Io, reply: seq<Msg>)
    requires t in s.relays && t in s.replies && Result(s, t, io, reply) && SessionOk(s, t)
    requires Custody(s.relays[t].pc).Holds?
    ensures var s', r, h := StepCall(cfg, s, t, io, reply), s.relays[t], Custody(s.relays[t].pc).h;
            && h in s'.backends
            && (Custody(Step(r, io).pc).Holds? ==>
                  Custody(Step(r, io).pc).h == h && UseOk(t, Step(r, io).pc, s'.backends[h], h in s'.desynced, s'.full))
            && (Emits(r, io).Some? && Emits(r, io).value.Returned? ==> Resting(s', h))
  {
    var r := s.relays[t];
    var h := Custody(r.pc).h;
    OwnBackend(cfg, s, t, io, reply);
    OwnDesync(cfg, s, t, io, reply);
    UseStep(t, r, io, reply, s.backends[h], h in s.desynced, s.full);
    CustodyMoves(r, io);
  }

  /** What the caller's client has been shown, while it uses a connection. */
  lemma CallStream(cfg: Config, s: Sys, t: Sid, io: Io, reply: seq<Msg>)
    requires t in s.relays && t in s.replies && Result(s, t, io, reply) && SessionOk(s, t)
    requires Custody(s.relays[t].pc).Holds?
    requires t !in StepCall(cfg, s, t, io, reply).crossed
    ensures var s', r' := StepCall(cfg, s, t, io, reply), Step(s.relays[t], io);
            && StreamOk(r'.pc, r'.log.toClient, Flatten(s'.replies[t]), QueueOf(s', r'.pc))
            && (Receiving(r'.pc) ==> r'.pc.h !in s'.desynced)
  {
    var r := s.relays[t];
    var h := Custody(r.pc).h;
    OwnBackend(cfg, s, t, io, reply);
    OwnDesync(cfg, s, t, io, reply);
    StreamStep(t, r, io, reply, s.backends[h], s.replies[t]);
    CustodyMoves(r, io);
  }

  /** The caller's own session stays in order when it gets a connection ... */
  lemma CallSessionTakes(cfg: Config, s: Sys, t: Sid, io: Io, reply: seq<Msg>)
    requires t in s.relays && t in s.replies && Result(s, t, io, reply) && SessionOk(s, t)
    requires WantsBackend(s.relays[t].pc) && (io.ok ==> Resting(s, io.handle))
    ensures SessionOk(StepCall(cfg, s, t, io, reply), t)
  {
  }

  /** ... and while it has none. */
  lemma CallSessionBetween(cfg: Config, s: Sys, t: Sid, io: Io, reply: seq<Msg>)
    requires t in s.relays && t in s.replies && Result(s, t, io, reply) && SessionOk(s, t)
    requires !Custody(s.relays[t].pc).Holds? && !WantsBackend(s.relays[t].pc)
    ensures SessionOk(StepCall(cfg, s, t, io, reply), t)
  {
    assert s.relays[t].pc == CheckContext(None) || s.relays[t].pc == ReadClient(None);
  }

  lemma CallSessionSelf(cfg: Config, s: Sys, t: Sid, io: Io, reply: seq<Msg>)
    requires Linked(s) && Isolated(s) && t in s.relays && Result(s, t, io, reply)
    ensures SessionOk(StepCall(cfg, s, t, io, reply), t)
  {
    assert SessionOk(s, t);
    if Custody(s.relays[t].pc).Holds? {
      CallUse(cfg, s, t, io, reply);
      if t !in StepCall(cfg, s, t, io, reply).crossed {
        CallStream(cfg, s, t, io, reply);
      }
    } else if WantsBackend(s.relays[t].pc) {
      assert io.ok ==> Unused(s, P.Client(t));
      CallSessionTakes(cfg, s, t, io, reply);
    } else {
      CallSessionBetween(cfg, s, t, io, reply);
    }
  }

  /** A connection the caller does not hold keeps its backend, its place, and the verdict on it. */
  lemma OtherRests(cfg: Config, s: Sys, t: Sid, io: Io, reply: seq<Msg>, h: Handle)
    requires t in s.relays && h in s.backends && Custody(s.relays[t].pc) != Holds(h)
    ensures var s' := StepCall(cfg, s, t, io, reply);
            && h in s'.backends && s'.backends[h] == s.backends[h]
            && (h in s'.desynced <==> h in s.desynced) && (s'.full ==> s.full)
  {
  }

  lemma CallSessionOther(cfg: Config, s: Sys, t: Sid, io: Io, reply: seq<Msg>, v: Sid)
    requires I.Own(s.pool) && Linked(s) && Isolated(s) && t in s.relays && v in s.relays && v != t
    ensures SessionOk(StepCall(cfg, s, t, io, reply), v)
  {
    assert SessionOk(s, v);
    if Custody(s.relays[v].pc).Holds? {
      var h := Custody(s.relays[v].pc).h;
      assert LinkedAt(s.pool, v, s.relays[v].pc) && LinkedAt(s.pool, t, s.relays[t].pc);
      assert P.Client(v) != P.Client(t);
      OtherRests(cfg, s, t, io, reply, h);
    }
  }

  lemma CallTidyIdle(cfg: Config, s: Sys, t: Sid, io: Io, reply: seq<Msg>, h: Handle)
    requires I.Own(s.pool) && Linked(s) && Isolated(s) && t in s.relays && Result(s, t, io, reply)
    requires h in StepCall(cfg, s, t, io, reply).pool.core.idle
    ensures Resting(StepCall(cfg, s, t, io, reply), h)
  {
    var r := s.relays[t];
    var e := Emits(r, io);
    assert LinkedAt(s.pool, t, r.pc) && SessionOk(s, t);
    if Disposes(e) {
      DisposesHeld(r, io);
    }
    PoolAfterCall(cfg, s.pool, t, e);
    if h in s.pool.core.idle {
      OtherRests(cfg, s, t, io, reply, h);
    } else {
      CallUse(cfg, s, t, io, reply);
    }
  }

  /** What the caller itself holds after the call counts as used. */
  lemma CallerUsesWhatItHolds(cfg: Config, s: Sys, t: Sid, io: Io, reply: seq<Msg>)
    requires I.Placed(s.pool) && t in s.relays && LinkedAt(s.pool, t, s.relays[t].pc) && Result(s, t, io, reply)
    ensures var s' := StepCall(cfg, s, t, io, reply);
            P.Client(t) in s'.pool.hands ==> !Unused(s', P.Client(t))
  {
    var r := s.relays[t];
    CallLinkedSelf(cfg, s, t, io, reply);
    if Disposes(Emits(r, io)) {
      DisposesHeld(r, io);
    }
    PoolAfterCall(cfg, s.pool, t, Emits(r, io));
    assert WantsBackend(Step(r, io).pc) ==> r.pc == ReadClient(None);
  }

  lemma CallTidyHands(cfg: Config, s: Sys, t: Sid, io: Io, reply: seq<Msg>, u: P.Tid)
    requires I.Own(s.pool) && Linked(s) && Tidy(s) && t in s.relays && u != P.Client(t)
    requires var s' := StepCall(cfg, s, t, io, reply); u in s'.pool.hands && Unused(s', u)
    ensures var s' := StepCall(cfg, s, t, io, reply); Resting(s', s'.pool.hands[u])
  {
    var e := Emits(s.relays[t], io);
    assert LinkedAt(s.pool, t, s.relays[t].pc);
    if Disposes(e) {
      DisposesHeld(s.relays[t], io);
    }
    PoolAfterCall(cfg, s.pool, t, e);
    assert Unused(s, u);
    OtherRests(cfg, s, t, io, reply, s.pool.hands[u]);
  }

  lemma CallIsolated(cfg: Config, s: Sys, t: Sid, io: Io, reply: seq<Msg>)
    requires I.Own(s.pool) && I.Placed(s.pool) && Linked(s) && Isolated(s) && t in s.relays && Result(s, t, io, reply)
    ensures Isolated(StepCall(cfg, s, t, io, reply))
  {
    var s' := StepCall(cfg, s, t, io, reply);
    forall v | v in s'.relays && v in s'.replies
      ensures SessionOk(s', v)
    {
      if v == t {
        CallSessionSelf(cfg, s, t, io, reply);
      } else {
        CallSessionOther(cfg, s, t, io, reply, v);
      }
    }
    forall h | h in s'.pool.core.idle
      ensures Resting(s', h)
    {
      CallTidyIdle(cfg, s, t, io, reply, h);
    }
    forall u | u in s'.pool.hands && Unused(s', u)
      ensures Resting(s', s'.pool.hands[u])
    {
      CallerUsesWhatItHolds(cfg, s, t, io, reply);
      CallTidyHands(cfg, s, t, io, reply, u);
    }
  }
}
