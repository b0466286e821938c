/** Why isolation needs every cleanup to begin with no ReadyForQuery unread: cleanup reads one
    ReadyForQuery for ROLLBACK and one for DISCARD ALL, whosever they are. */
module PgCleanup {
  import opened Wire
  import opened PgRelay
  import opened Disposal
  import opened PgSystem

  /** A relay and the backend it holds, apart from the rest of the system. */
  datatype Local = Local(r: Relay, b: Backend)

  /** One call of the relay on its backend; the server answers every query it is sent with
      exactly one ReadyForQuery. */
  function LocalStep(t: Sid, l: Local, io: Io, reply: seq<Msg>): Local {
    if Writes(l.r.pc) && io.ok && !(Answers(reply) && EndsReady(reply)) then l
    else if Reads(l.r.pc) && io.ok && l.b.queue == [] then l
    else
      var io' := if Reads(l.r.pc) && io.ok then io.(msg := l.b.queue[0]) else io;
      Local(Step(l.r, io'), Touch(t, l.r.pc, io', reply, l.b))
  }

  function LocalRun(t: Sid, l: Local, ins: seq<(Io, seq<Msg>)>): Local
    decreases |ins|
  {
    if ins == [] then l else LocalRun(t, LocalStep(t, l, ins[0].0, ins[0].1), ins[1..])
  }

  /** `k` unread ReadyForQuery messages at the start of a cleanup are still `k` at each turn. */
  ghost predicate Behind(k: nat, l: Local) {
    match l.r.pc
    case SendRollback(_) => Readies(l.b.queue) == k
    case ReadRollback(_) => Readies(l.b.queue) == k + 1 && (k == 0 ==> OneReply(l.b.queue))
    case SendDiscard(_, _) => Readies(l.b.queue) == k && (k == 0 ==> l.b.queue == [])
    case ReadDiscard(_, _) => Readies(l.b.queue) == k + 1 && (k == 0 ==> OneReply(l.b.queue))
    case GiveBack(_, exit) => exit ==> Readies(l.b.queue) == k && (k == 0 ==> l.b.queue == [])
    case Done => true
    case _ => false
  }

  predicate CleaningUp(pc: Pc) {
    match pc
    case SendRollback(_) => true
    case ReadRollback(_) => true
    case SendDiscard(_, exit) => exit
    case ReadDiscard(_, exit) => exit
    case GiveBack(_, exit) => exit
    case Done => true
    case _ => false
  }

  lemma BehindWrite(t: Sid, k: nat, l: Local, io: Io, reply: seq<Msg>)
    requires Behind(k, l) && CleaningUp(l.r.pc) && Writes(l.r.pc)
    ensures Behind(k, LocalStep(t, l, io, reply))
  {
    if io.ok && Answers(reply) && EndsReady(reply) {
      ReadiesAppend(l.b.queue, reply);
      OneReplyReadies(reply);
      ReadiesMeans(l.b.queue);
      assert k == 0 ==> OneReply(l.b.queue + reply);
    }
  }

  lemma BehindRead(t: Sid, k: nat, l: Local, io: Io, reply: seq<Msg>)
    requires Behind(k, l) && CleaningUp(l.r.pc) && Reads(l.r.pc)
    ensures Behind(k, LocalStep(t, l, io, reply))
  {
    var q := l.b.queue;
    if io.ok && q != [] {
      assert Readies(q) == (if q[0].kind == KindReady then 1 else 0) + Readies(q[1..]);
      assert OneReply(q) ==> OneReply(q[1..]);
      assert OneReply(q) && q[0].kind == KindReady ==> q == [q[0]];
    }
  }

  lemma BehindStep(t: Sid, k: nat, l: Local, io: Io, reply: seq<Msg>)
    requires Behind(k, l) && CleaningUp(l.r.pc)
    ensures Behind(k, LocalStep(t, l, io, reply)) && CleaningUp(LocalStep(t, l, io, reply).r.pc)
  {
    if Writes(l.r.pc) {
      BehindWrite(t, k, l, io, reply);
    } else if Reads(l.r.pc) {
      BehindRead(t, k, l, io, reply);
    }
  }

  lemma {:induction false} BehindRun(t: Sid, k: nat, l: Local, ins: seq<(Io, seq<Msg>)>)
    requires Behind(k, l) && CleaningUp(l.r.pc)
    ensures Behind(k, LocalRun(t, l, ins)) && CleaningUp(LocalRun(t, l, ins).r.pc)
    decreases |ins|
  {
    if ins != [] {
      BehindStep(t, k, l, ins[0].0, ins[0].1);
      BehindRun(t, k, LocalStep(t, l, ins[0].0, ins[0].1), ins[1..]);
    }
  }

  /** Whatever the server answers and whichever calls fail: a cleanup that comes to return the
      connection leaves no response unread if and only if no ReadyForQuery was unread when it began. */
  lemma CleanupCleanIff(t: Sid, l: Local, ins: seq<(Io, seq<Msg>)>)
    requires l.r.pc.SendRollback? && LocalRun(t, l, ins).r.pc.GiveBack?
    ensures LocalRun(t, l, ins).b.queue == [] <==> !HasReady(l.b.queue)
  {
    BehindRun(t, Readies(l.b.queue), l, ins);
    ReadiesMeans(l.b.queue);
  }
}
