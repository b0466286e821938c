/** One answer per forwarded message, and each complete one ends at its ReadyForQuery. */
module PgAnswers {
  import opened Wire
  import opened PoolCore
  import opened PgRelay
  import opened PgRelayTheorems
  import opened Disposal
  import opened PgSystem
  import opened PgIsolation

  // ---- Over every run ----

  /** As many answers as messages, each a possible answer of a server. */
  ghost predicate Paired(sent: seq<Sent<Msg>>, replies: seq<seq<Msg>>) {
    |replies| == |sent| && forall r | r in replies :: Answers(r)
  }

  ghost predicate Answered(s: Sys) {
    forall t | t in s.relays :: t in s.replies && Paired(s.relays[t].log.sent, s.replies[t])
  }

  lemma SentStep(r: Relay, io: Io)
    ensures Step(r, io).log.sent ==
            if r.pc.Forward? && io.ok then r.log.sent + [Sent(r.pc.h, r.pc.msg, DetectSessionPin(r.pc.msg))]
            else r.log.sent
  {
  }

  lemma AnsweredCall(cfg: Config, s: Sys, t: Sid, io: Io, reply: seq<Msg>)
    requires Answered(s) && t in s.relays && (Writes(s.relays[t].pc) && io.ok ==> Answers(reply))
    ensures Answered(StepCall(cfg, s, t, io, reply))
  {
    var s' := StepCall(cfg, s, t, io, reply);
    SentStep(s.relays[t], io);
    forall v | v in s'.relays
      ensures v in s'.replies && Paired(s'.relays[v].log.sent, s'.replies[v])
    {
      assert v in s.relays && Paired(s.relays[v].log.sent, s.replies[v]);
    }
  }

  lemma AnsweredNext(cfg: Config, s: Sys, m: Move)
    requires Answered(s)
    ensures Answered(Next(cfg, s, m))
  {
    match m
    case PoolMove(a) =>
    case Begin(t) =>
    case Call(t, io, reply) =>
      if t in s.relays && Answer(s, t, io, reply).Some? {
        AnsweredCall(cfg, s, t, Answer(s, t, io, reply).value, reply);
      }
  }

  lemma {:induction false} AnsweredRun(cfg: Config, s: Sys, moves: seq<Move>)
    requires Answered(s)
    ensures Answered(PgSystem.Run(cfg, s, moves))
    decreases |moves|
  {
    if moves != [] {
      AnsweredNext(cfg, s, moves[0]);
      AnsweredRun(cfg, Next(cfg, s, moves[0]), moves[1..]);
    }
  }

  // ---- Counting ReadyForQuery ----

  lemma {:induction false} VerdictsCount(ms: seq<Msg>)
    ensures |Verdicts(ms)| == Readies(ms)
    decreases |ms|
  {
    if ms != [] {
      var front, last := ms[..|ms| - 1], ms[|ms| - 1];
      VerdictsCount(front);
      ReadiesAppend(front, [last]);
      assert ms == front + [last] && [last][1..] == [];
    }
  }

  lemma {:induction false} AtMostOne(r: seq<Msg>)
    requires OneReply(r)
    ensures Readies(r) == if EndsReady(r) then 1 else 0
    decreases |r|
  {
    if EndsReady(r) {
      OneReplyReadies(r);
    } else {
      ReadiesMeans(r);
    }
  }

  /** As many ReadyForQuery messages as answers means that each answer ends with one. */
  lemma {:induction false} FlattenReadies(rs: seq<seq<Msg>>)
    requires forall r | r in rs :: Answers(r)
    ensures Readies(Flatten(rs)) <= |rs|
    ensures Readies(Flatten(rs)) == |rs| ==> forall r | r in rs :: EndsReady(r)
    decreases |rs|
  {
    if rs != [] {
      var front, last := rs[..|rs| - 1], rs[|rs| - 1];
      assert rs == front + [last] && last in rs;
      assert forall r | r in front :: r in rs;
      FlattenReadies(front);
      ReadiesAppend(Flatten(front), last);
      AtMostOne(last);
    }
  }

  lemma EachComplete(toClient: seq<Msg>, replies: seq<seq<Msg>>, ends: seq<bool>)
    requires toClient == Flatten(replies) && ends == Verdicts(toClient) && |ends| == |replies|
    requires forall r | r in replies :: Answers(r)
    ensures forall r | r in replies :: EndsReady(r)
  {
    VerdictsCount(toClient);
    FlattenReadies(replies);
  }
}
