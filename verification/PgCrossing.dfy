/** What a session is shown that forwards a message on a connection that lost its place. */
module PgCrossing {
  import opened Wire
  import opened PoolCore
  import opened PgRelay
  import opened PgRelayTheorems
  import opened Disposal
  import opened PgSystem
  import opened PgIsolation
  import opened PgTheorems
  import P = PoolMachine
  import I = PoolInvariants

  lemma {:induction false} RunAppend(cfg: Config, s: Sys, a: seq<Move>, b: seq<Move>)
    ensures PgSystem.Run(cfg, s, a + b) == PgSystem.Run(cfg, PgSystem.Run(cfg, s, a), b)
    decreases |a|
  {
    if a == [] {
      assert a + b == b;
    } else {
      assert (a + b)[0] == a[0] && (a + b)[1..] == a[1..] + b;
      RunAppend(cfg, Next(cfg, s, a[0]), a[1..], b);
    }
  }

  // ---- Nothing else can be shown first ----

  /** The relay is on its way out and shows its client nothing any more. */
  predicate Leaving(pc: Pc) {
    match pc
    case SendRollback(_) => true
    case ReadRollback(_) => true
    case SendDiscard(_, exit) => exit
    case ReadDiscard(_, exit) => exit
    case GiveBack(_, exit) => exit
    case Done => true
    case _ => false
  }

  /** `first` is what the relay is going to read next from connection `h`, or has read. */
  ghost predicate Ahead(pc: Pc, h: Handle, first: Msg, backends: map<Handle, Backend>) {
    || ((pc.Forward? || pc.ReadBackend?) && pc.h == h
        && h in backends && backends[h].queue != [] && backends[h].queue[0] == first)
    || pc == WriteClient(h, first)
    || Leaving(pc)
  }

  /** The client has been shown nothing but `seen` so far, with `first` ahead, or then `first`. */
  ghost predicate Fated(s: Sys, t: Sid, h: Handle, first: Msg, seen: seq<Msg>) {
    && t in s.relays
    && var r := s.relays[t];
       || seen + [first] <= r.log.toClient
       || (r.log.toClient == seen && Ahead(r.pc, h, first, s.backends))
  }

  lemma SeenGrows(r: Relay, io: Io)
    ensures r.log.toClient <= Step(r, io).log.toClient
    ensures Leaving(r.pc) ==> Leaving(Step(r, io).pc) && Step(r, io).log.toClient == r.log.toClient
    ensures !r.pc.WriteClient? ==> Step(r, io).log.toClient == r.log.toClient
  {
  }

  lemma FatedOwn(cfg: Config, s: Sys, t: Sid, io: Io, reply: seq<Msg>, h: Handle, first: Msg, seen: seq<Msg>)
    requires Fated(s, t, h, first, seen) && t in s.relays && Result(s, t, io, reply)
    ensures Fated(StepCall(cfg, s, t, io, reply), t, h, first, seen)
  {
    var r := s.relays[t];
    SeenGrows(r, io);
    if Ahead(r.pc, h, first, s.backends) && (r.pc.Forward? || r.pc.ReadBackend?) {
      OwnBackend(cfg, s, t, io, reply);
    }
  }

  lemma FatedOther(cfg: Config, s: Sys, v: Sid, io: Io, reply: seq<Msg>, t: Sid, h: Handle, first: Msg, seen: seq<Msg>)
    requires I.Own(s.pool) && Linked(s) && Fated(s, t, h, first, seen) && v in s.relays && v != t
    ensures Fated(StepCall(cfg, s, v, io, reply), t, h, first, seen)
  {
    if Custody(s.relays[t].pc) == Holds(h) && h in s.backends {
      assert LinkedAt(s.pool, v, s.relays[v].pc) && LinkedAt(s.pool, t, s.relays[t].pc);
      assert P.Client(v) != P.Client(t);
      OtherRests(cfg, s, v, io, reply, h);
    }
  }

  lemma FatedPool(cfg: Config, s: Sys, a: P.Action, t: Sid, h: Handle, first: Msg, seen: seq<Msg>)
    requires Linked(s) && Fated(s, t, h, first, seen)
    ensures Fated(StepPool(cfg, s, a), t, h, first, seen)
  {
  }

  lemma FatedNext(cfg: Config, s: Sys, m: Move, t: Sid, h: Handle, first: Msg, seen: seq<Msg>)
    requires SysInv(cfg, s) && Fated(s, t, h, first, seen)
    ensures Fated(Next(cfg, s, m), t, h, first, seen)
  {
    match m
    case PoolMove(a) => FatedPool(cfg, s, a, t, h, first, seen);
    case Begin(v) =>
    case Call(v, io, reply) =>
      if v in s.relays && Answer(s, v, io, reply).Some? {
        AnswerIsResult(s, v, io, reply);
        var result := Answer(s, v, io, reply).value;
        if v == t {
          FatedOwn(cfg, s, t, result, reply, h, first, seen);
        } else {
          FatedOther(cfg, s, v, result, reply, t, h, first, seen);
        }
      }
  }

  lemma {:induction false} FatedRun(cfg: Config, s: Sys, moves: seq<Move>, t: Sid, h: Handle, first: Msg, seen: seq<Msg>)
    requires SysInv(cfg, s) && Fated(s, t, h, first, seen)
    ensures Fated(PgSystem.Run(cfg, s, moves), t, h, first, seen)
    decreases |moves|
  {
    if moves != [] {
      FatedNext(cfg, s, moves[0], t, h, first, seen);
      SysInvNext(cfg, s, moves[0]);
      FatedRun(cfg, Next(cfg, s, moves[0]), moves[1..], t, h, first, seen);
    }
  }

  /** A session is about to forward a message on a connection that lost its place, and the server
      has ended every answer so far with ReadyForQuery. */
  ghost predicate Crossing(s: Sys, t: Sid) {
    s.full && t in s.relays && s.relays[t].pc.Forward? && s.relays[t].pc.h in s.desynced
  }

  lemma CrossingUnread(cfg: Config, moves: seq<Move>, t: Sid)
    requires Crossing(Reach(cfg, moves), t)
    ensures var s := Reach(cfg, moves); s.relays[t].pc.h in s.backends && s.backends[s.relays[t].pc.h].queue != []
  {
    var pc := Reach(cfg, moves).relays[t].pc;
    IsolationIff(cfg, moves, pc.h);
    assert pc == Forward(pc.h, pc.msg);
  }

  /** On every continuation the next message its client is shown, if any, is the one that was
      unread on the connection before its own was sent. */
  lemma NothingElseFirst(cfg: Config, moves: seq<Move>, after: seq<Move>, t: Sid)
    requires Crossing(Reach(cfg, moves), t)
    ensures var s, q := Reach(cfg, moves), Reach(cfg, moves + after);
            var seen, h := s.relays[t].log.toClient, s.relays[t].pc.h;
            && h in s.backends && s.backends[h].queue != [] && t in q.relays
            && (q.relays[t].log.toClient == seen || seen + [s.backends[h].queue[0]] <= q.relays[t].log.toClient)
  {
    var s := Reach(cfg, moves);
    var seen, h := s.relays[t].log.toClient, s.relays[t].pc.h;
    CrossingUnread(cfg, moves, t);
    SysInvReach(cfg, moves);
    FatedRun(cfg, s, after, t, h, s.backends[h].queue[0], seen);
    RunAppend(cfg, Init(cfg), moves, after);
  }

  // ---- And it is shown ----

  const Good := Io(true, Msg(KindReady, []), 0)

  lemma ForwardStep(cfg: Config, s: Sys, t: Sid, reply: seq<Msg>)
    requires t in s.relays && s.relays[t].pc.Forward? && IsOpen(s, s.relays[t].pc.h) && Answers(reply) && t in s.replies
    ensures var s', h := Next(cfg, s, Call(t, Good, reply)), s.relays[t].pc.h;
            && t in s'.relays && s'.relays[t].pc == ReadBackend(h) && s'.relays[t].log.toClient == s.relays[t].log.toClient
            && IsOpen(s', h) && s'.backends[h].queue == s.backends[h].queue + reply
            && t in s'.replies && s'.replies[t] == s.replies[t] + [reply]
            && (h in s.desynced ==> t in s'.crossed)
  {
  }

  lemma ReadStepShows(cfg: Config, s: Sys, t: Sid)
    requires t in s.relays && s.relays[t].pc.ReadBackend? && IsOpen(s, s.relays[t].pc.h)
    requires s.backends[s.relays[t].pc.h].queue != [] && t in s.replies
    ensures var s', h := Next(cfg, s, Call(t, Good, [])), s.relays[t].pc.h;
            && t in s'.relays && s'.relays[t].pc == WriteClient(h, s.backends[h].queue[0])
            && s'.relays[t].log.toClient == s.relays[t].log.toClient
            && t in s'.replies && s'.replies[t] == s.replies[t] && s'.crossed == s.crossed
  {
  }

  lemma WriteStepShows(cfg: Config, s: Sys, t: Sid)
    requires t in s.relays && s.relays[t].pc.WriteClient? && t in s.replies
    ensures var s' := Next(cfg, s, Call(t, Good, []));
            && t in s'.relays && s'.relays[t].log.toClient == s.relays[t].log.toClient + [s.relays[t].pc.reply]
            && t in s'.replies && s'.replies[t] == s.replies[t] && s'.crossed == s.crossed
  {
  }

  function Exchange(t: Sid, reply: seq<Msg>): seq<Move> {
    [Call(t, Good, reply), Call(t, Good, []), Call(t, Good, [])]
  }

  lemma ExchangeRun(cfg: Config, s: Sys, t: Sid, reply: seq<Msg>)
    ensures PgSystem.Run(cfg, s, Exchange(t, reply)) ==
            Next(cfg, Next(cfg, Next(cfg, s, Call(t, Good, reply)), Call(t, Good, [])), Call(t, Good, []))
  {
    var b, c := Call(t, Good, []), [Call(t, Good, [])];
    assert Exchange(t, reply)[1..] == [b] + c && ([b] + c)[1..] == c && c[1..] == [];
    var s1 := Next(cfg, s, Call(t, Good, reply));
    assert PgSystem.Run(cfg, s1, [b] + c) == PgSystem.Run(cfg, Next(cfg, s1, b), c);
  }

  /** Whatever the server answers, as soon as the message is forwarded, a response read and
      written, the client has been shown the foreign one. */
  lemma ForeignShown(cfg: Config, moves: seq<Move>, t: Sid, reply: seq<Msg>)
    requires var s := Reach(cfg, moves); Crossing(s, t) && IsOpen(s, s.relays[t].pc.h) && Answers(reply)
    ensures var s, q := Reach(cfg, moves), Reach(cfg, moves + Exchange(t, reply));
            var h := s.relays[t].pc.h;
            && h in s.backends && s.backends[h].queue != []
            && t in q.relays && q.relays[t].log.toClient == s.relays[t].log.toClient + [s.backends[h].queue[0]]
            && t in s.replies && t in q.replies && q.replies[t] == s.replies[t] + [reply]
            && t in q.crossed
  {
    var s := Reach(cfg, moves);
    CrossingUnread(cfg, moves, t);
    IsolatedReach(cfg, moves);
    RunAppend(cfg, Init(cfg), moves, Exchange(t, reply));
    ExchangeRun(cfg, s, t, reply);
    ForwardStep(cfg, s, t, reply);
    var a := Next(cfg, s, Call(t, Good, reply));
    ReadStepShows(cfg, a, t);
    WriteStepShows(cfg, Next(cfg, a, Call(t, Good, [])), t);
  }

  /** So for a session that was shown only its own answers until then, what it has been shown
      afterwards is still a beginning of its own answers if and only if its answer happens to
      begin with the foreign message. */
  lemma TransparentAfterIff(cfg: Config, moves: seq<Move>, t: Sid, reply: seq<Msg>)
    requires var s := Reach(cfg, moves); Crossing(s, t) && IsOpen(s, s.relays[t].pc.h) && Answers(reply)
    requires t !in Reach(cfg, moves).crossed
    ensures var s, q := Reach(cfg, moves), Reach(cfg, moves + Exchange(t, reply));
            var h := s.relays[t].pc.h;
            && h in s.backends && s.backends[h].queue != [] && t in q.relays && t in q.replies
            && (q.relays[t].log.toClient <= Flatten(q.replies[t]) <==>
                reply != [] && reply[0] == s.backends[h].queue[0])
  {
    var s := Reach(cfg, moves);
    ForeignShown(cfg, moves, t, reply);
    IsolatedReach(cfg, moves);
    assert SessionOk(s, t);
    FlattenOne(s.replies[t], reply);
    PrefixOne(s.relays[t].log.toClient, s.backends[s.relays[t].pc.h].queue[0], reply);
  }

  lemma PrefixOne(a: seq<Msg>, m: Msg, b: seq<Msg>)
    ensures a + [m] <= a + b <==> b != [] && b[0] == m
  {
    assert (a + [m])[|a|] == m;
    assert b != [] ==> (a + b)[|a|] == b[0];
  }
}
