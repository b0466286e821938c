/** What travels in a MySQL session, and what a packet of the backend makes the relay do, on the
    bytes of the packets. */
module MySqlTrace {
  import opened Wire
  import opened Disposal
  import opened MySqlStatus
  import opened MySqlRelay
  import opened MySqlTheorems

  type Trace = seq<Traffic<Bytes>>

  // The two commands the relay injects: COM_QUERY "ROLLBACK" and COM_RESET_CONNECTION.
  const Rollback: Bytes := [0x03, 82, 79, 76, 76, 66, 65, 67, 75]
  const Reset: Bytes := [0x1f]

  /** What the call made at this point transmits, if it succeeds. */
  function Emit(s: Relay, io: Io): Trace {
    if !io.ok then []
    else
      match s.pc
      case ReadClient(_) => [Received(io.pkt)]
      case Forward(h, cmd) => [Wrote(h, cmd)]
      case ReadBackend(h) => [Heard(h, io.pkt)]
      case SendRollback(h) => [Wrote(h, Rollback)]
      case ReadRollback(h) => [Heard(h, io.pkt)]
      case SendReset(h, _) => [Wrote(h, Reset)]
      case ReadReset(h, _) => [Heard(h, io.pkt)]
      case _ => []
  }

  function TraceFrom(s: Relay, ios: seq<Io>): Trace
    decreases |ios|
  {
    if ios == [] then [] else Emit(s, ios[0]) + TraceFrom(Step(s, ios[0]), ios[1..])
  }

  function TraceOf(ios: seq<Io>): Trace {
    TraceFrom(Start, ios)
  }

  // ---- A lost client's transaction is rolled back ----

  /** OK, ERR, or an EOF that is not a row. */
  predicate Ending(pkt: Bytes) {
    pkt != [] && (pkt[0] == 0x00 || pkt[0] == 0xff || (pkt[0] == 0xfe && |pkt| < 9))
  }

  ghost predicate OnlyResets(tr: Trace, h: Handle) {
    forall k | 0 <= k < |tr| :: !tr[k].Received? && (tr[k].Wrote? ==> tr[k] == Wrote(h, Reset))
  }

  predicate HeardEnding(x: Traffic<Bytes>, h: Handle) {
    x.Heard? && x.h == h && Ending(x.msg)
  }

  ghost predicate ResetsLate(tr: Trace, h: Handle) {
    && OnlyResets(tr, h)
    && forall k | 0 <= k < |tr| && tr[k].Wrote? :: exists j :: 0 <= j < k && HeardEnding(tr[j], h)
  }

  predicate Resetting(pc: Pc, h: Handle) {
    pc == SendReset(h, true) || pc == ReadReset(h, true) || pc == GiveBack(h, true) || pc == Done
  }

  lemma {:induction false} ResettingTrace(s: Relay, h: Handle, ios: seq<Io>)
    requires Resetting(s.pc, h)
    ensures OnlyResets(TraceFrom(s, ios), h)
    decreases |ios|
  {
    if ios != [] {
      ResettingTrace(Step(s, ios[0]), h, ios[1..]);
    }
  }

  lemma Later(x: Traffic<Bytes>, rest: Trace, h: Handle)
    requires x.Heard? && OnlyResets(rest, h) && (HeardEnding(x, h) || ResetsLate(rest, h))
    ensures ResetsLate([x] + rest, h)
  {
    var tr := [x] + rest;
    forall k | 0 <= k < |tr| && tr[k].Wrote?
      ensures exists j :: 0 <= j < k && HeardEnding(tr[j], h)
    {
      assert tr[k] == rest[k - 1];
      if HeardEnding(x, h) {
        assert tr[0] == x;
      } else {
        var j :| 0 <= j < k - 1 && HeardEnding(rest[j], h);
        assert tr[j + 1] == rest[j];
      }
    }
  }

  predicate AllOk(ios: seq<Io>) {
    forall i | 0 <= i < |ios| :: ios[i].ok
  }

  lemma {:induction false} RollingBackTrace(s: Relay, h: Handle, ios: seq<Io>)
    requires s.pc == ReadRollback(h)
    ensures OnlyResets(TraceFrom(s, ios), h) && (AllOk(ios) ==> ResetsLate(TraceFrom(s, ios), h))
    decreases |ios|
  {
    if ios != [] {
      var s' := Step(s, ios[0]);
      if s'.pc == ReadRollback(h) {
        RollingBackTrace(s', h, ios[1..]);
      } else {
        ResettingTrace(s', h, ios[1..]);
      }
      assert AllOk(ios) ==> AllOk(ios[1..]);
      if ios[0].ok && (AllOk(ios) || Ending(ios[0].pkt)) {
        Later(Heard(h, ios[0].pkt), TraceFrom(s', ios[1..]), h);
      }
    }
  }

  /** The client is lost while a transaction is noted: on every continuation, if the next call
      succeeds it writes ROLLBACK; all that is written after it is COM_RESET_CONNECTION, and if the
      calls succeed not before the answer to ROLLBACK has ended. */
  lemma LostClientRollsBack(s: Relay, io: Io, h: Handle, ios: seq<Io>)
    requires s.pc == ReadClient(Some(h)) && !io.ok && s.inTxn
    ensures var tr := TraceFrom(Step(s, io), ios);
            if ios != [] && ios[0].ok
            then tr != [] && tr[0] == Wrote(h, Rollback) && OnlyResets(tr[1..], h) && (AllOk(ios) ==> ResetsLate(tr[1..], h))
            else OnlyResets(tr, h)
  {
    var s1 := Step(s, io);
    if ios != [] {
      var s2 := Step(s1, ios[0]);
      RollingBackTrace(s2, h, ios[1..]);
      assert AllOk(ios) ==> AllOk(ios[1..]);
      if ios[0].ok {
        assert TraceFrom(s1, ios)[1..] == TraceFrom(s2, ios[1..]);
      } else {
        assert TraceFrom(s1, ios) == TraceFrom(s2, ios[1..]);
      }
    }
  }

  lemma {:induction false} RollbackDrains(s: Relay, h: Handle, answer: seq<Io>, rest: seq<Io>) returns (t: Relay)
    requires s.pc == ReadRollback(h) && forall i | 0 <= i < |answer| :: answer[i].ok && !Ending(answer[i].pkt)
    ensures t.pc == ReadRollback(h) && RunFrom(s, answer + rest) == RunFrom(t, rest)
    decreases |answer|
  {
    if answer == [] {
      assert answer + rest == rest;
      t := s;
    } else {
      assert (answer + rest)[1..] == answer[1..] + rest;
      t := RollbackDrains(Step(s, answer[0]), h, answer[1..], rest);
    }
  }

  lemma TwoSteps(s: Relay, a: Io, b: Io, rest: seq<Io>)
    ensures RunFrom(s, [a, b] + rest) == RunFrom(Step(Step(s, a), b), rest)
  {
    assert ([a, b] + rest)[1..] == [b] + rest && ([b] + rest)[1..] == rest;
  }

  lemma OneStep(s: Relay, a: Io)
    ensures RunFrom(s, [a]) == Step(s, a)
  {
    assert RunFrom(Step(s, a), []) == Step(s, a);
  }

  ghost predicate DisposedBy(t: Relay, h: Handle, send: Io, reply: Io) {
    && t.pc == Done && t.log.events != []
    && t.log.events[|t.log.events| - 1] ==
       if send.ok && reply.ok && !(reply.pkt != [] && reply.pkt[0] == 0xff) then Returned(h) else Shut(h)
  }

  lemma ResetDisposes(s: Relay, h: Handle, send: Io, reply: Io, give: Io)
    requires s.pc == SendReset(h, true)
    ensures DisposedBy(Step(Step(Step(s, send), reply), give), h, send, reply)
  {
  }

  lemma RollbackEnds(s: Relay, h: Handle, last: Io, rest: seq<Io>)
    requires s.pc == ReadRollback(h) && (!last.ok || Ending(last.pkt))
    ensures Step(s, last).pc == SendReset(h, true) && RunFrom(s, [last] + rest) == RunFrom(Step(s, last), rest)
  {
    assert ([last] + rest)[1..] == rest;
  }

  /** And what becomes of the connection: once the answer to ROLLBACK has ended at its first OK, ERR
      or short EOF packet, or broken off, it is returned if the reset is sent and answered by
      anything but ERR, and closed otherwise. Whether ROLLBACK could be sent or succeeded does not
      matter. */
  lemma LostClientDisposes(s: Relay, io: Io, h: Handle, undo: Io, answer: seq<Io>, last: Io, send: Io, reply: Io, give: Io)
    requires s.pc == ReadClient(Some(h)) && !io.ok && s.inTxn
    requires forall i | 0 <= i < |answer| :: answer[i].ok && !Ending(answer[i].pkt)
    requires !last.ok || Ending(last.pkt)
    ensures DisposedBy(RunFrom(s, [io, undo] + (answer + [last, send, reply, give])), h, send, reply)
  {
    var rest := [send, reply] + [give];
    assert [last, send, reply, give] == [last] + rest;
    TwoSteps(s, io, undo, answer + ([last] + rest));
    var t := RollbackDrains(Step(Step(s, io), undo), h, answer, [last] + rest);
    RollbackEnds(t, h, last, rest);
    TwoSteps(Step(t, last), send, reply, [give]);
    OneStep(Step(Step(Step(t, last), send), reply), give);
    ResetDisposes(Step(t, last), h, send, reply, give);
  }

  /** With no transaction noted, or a client that quits (command 1), there is only the reset. */
  lemma QuitOnlyResets(s: Relay, io: Io, h: Handle, ios: seq<Io>)
    requires s.pc == ReadClient(Some(h))
    requires if io.ok then io.pkt != [] && io.pkt[0] == 1 else !s.inTxn
    ensures OnlyResets(TraceFrom(Step(s, io), ios), h)
  {
    ResettingTrace(Step(s, io), h, ios);
  }

  /** A transaction is noted exactly if a command has been forwarded and the backend kept. */
  lemma NotedIffKept(ios: seq<Io>)
    requires Run(ios).pc.ReadClient?
    ensures Run(ios).inTxn <==> Run(ios).pc.held.Some? && Run(ios).log.sent != []
  {
    AffineRun(ios);
  }

  /** The answer to the reset decides: an ERR packet closes the connection, any other returns it. */
  lemma ResetAnswer(s: Relay, io: Io, h: Handle, exit: bool)
    requires s.pc == ReadReset(h, exit) && io.ok
    ensures var t := Step(s, io);
            if io.pkt != [] && io.pkt[0] == 0xff
            then t.log.events == s.log.events + [Shut(h)] && t.pc == After(exit)
            else t.pc == GiveBack(h, exit) && Step(t, io).log.events == s.log.events + [Used(h)] + [Returned(h)]
  {
  }

  // ---- What ends a transaction ----

  /** The relay has read `pkt` from its backend and writes it to the client. */
  function AfterRelaying(s: Relay, h: Handle, pkt: Bytes): Pc {
    Step(s.(pc := WriteClient(h, pkt)), Written).pc
  }

  /** By the status bits of the packet: bit 3 says that more follows, bit 0 that a transaction is
      open. */
  ghost predicate ObeysStatus(s: Relay, h: Handle, pkt: Bytes, status: nat) {
    AfterRelaying(s, h, pkt) ==
    if status / 8 % 2 == 1 then ReadBackend(h)
    else if status % 2 == 1 || s.pinned then ReadClient(Some(h))
    else SendReset(h, false)
  }

  lemma OkDecides(s: Relay, h: Handle, a: Bytes, affectedRows: nat, b: Bytes, lastInsertId: nat, status: nat)
    requires Encodes(a, affectedRows) && Encodes(b, lastInsertId) && status < 0x1_0000
    ensures ObeysStatus(s, h, OkPacket(a, b, status), status)
  {
    OkStatus(a, affectedRows, b, lastInsertId, status);
    assert OkPacket(a, b, status)[0] == 0;
  }

  lemma EofDecides(s: Relay, h: Handle, warnings: nat, status: nat)
    requires status < 0x1_0000
    ensures ObeysStatus(s, h, EofPacket(warnings, status), status)
  {
    EofStatus(warnings, status);
  }

  /** An ERR packet always ends the transaction. */
  lemma ErrEnds(s: Relay, h: Handle, pkt: Bytes)
    requires pkt != [] && pkt[0] == 0xff
    ensures AfterRelaying(s, h, pkt) == if s.pinned then ReadClient(Some(h)) else SendReset(h, false)
  {
  }

  /** Any other packet, and an empty one, is followed by more. */
  lemma OthersContinue(s: Relay, h: Handle, pkt: Bytes)
    requires !Ending(pkt)
    ensures AfterRelaying(s, h, pkt) == ReadBackend(h)
  {
  }

  // ---- What the client sends is what is forwarded ----

  /** The commands read from the client; empty packets are ignored. */
  function Commands(tr: Trace): seq<Bytes> {
    if tr == [] then []
    else (if tr[0].Received? && tr[0].msg != [] then [tr[0].msg] else []) + Commands(tr[1..])
  }

  function Forwarded(sent: seq<Sent<Bytes>>): seq<Bytes> {
    seq(|sent|, i requires 0 <= i < |sent| => sent[i].msg)
  }

  predicate Final(pc: Pc) {
    match pc
    case SendReset(_, exit) => exit
    case ReadReset(_, exit) => exit
    case GiveBack(_, exit) => exit
    case SendRollback(_) => true
    case ReadRollback(_) => true
    case Done => true
    case _ => false
  }

  ghost predicate Matches(pc: Pc, read: seq<Bytes>, forwarded: seq<Bytes>) {
    if pc.AcquireAgain? || pc.Forward? then read == forwarded + [pc.cmd]
    else if Final(pc) then forwarded <= read && |read| <= |forwarded| + 1
    else read == forwarded
  }

  lemma MatchesForward(s: Relay, io: Io, read: seq<Bytes>)
    requires s.pc.Forward? && Matches(s.pc, read, Forwarded(s.log.sent))
    ensures Matches(Step(s, io).pc, read, Forwarded(Step(s, io).log.sent))
  {
    if io.ok {
      var x := Sent(s.pc.h, s.pc.cmd, Pins(s.pc.cmd));
      assert Forwarded(s.log.sent + [x]) == Forwarded(s.log.sent) + [s.pc.cmd];
    }
  }

  lemma MatchesRead(s: Relay, io: Io, read: seq<Bytes>)
    requires s.pc.ReadClient? && io.ok && Matches(s.pc, read, Forwarded(s.log.sent))
    ensures Matches(Step(s, io).pc, read + (if io.pkt != [] then [io.pkt] else []), Forwarded(Step(s, io).log.sent))
  {
    assert read + [] == read;
  }

  lemma MatchesQuiet(s: Relay, io: Io, read: seq<Bytes>)
    requires !s.pc.Forward? && !(s.pc.ReadClient? && io.ok) && Matches(s.pc, read, Forwarded(s.log.sent))
    ensures Matches(Step(s, io).pc, read, Forwarded(Step(s, io).log.sent))
  {
    assert Step(s, io).log.sent == s.log.sent;
  }

  lemma MatchesStep(s: Relay, io: Io, read: seq<Bytes>)
    requires Matches(s.pc, read, Forwarded(s.log.sent))
    ensures Matches(Step(s, io).pc, read + Commands(Emit(s, io)), Forwarded(Step(s, io).log.sent))
  {
    if s.pc.ReadClient? && io.ok {
      assert Commands([Received(io.pkt)]) == (if io.pkt != [] then [io.pkt] else []) + Commands([]);
      MatchesRead(s, io, read);
    } else {
      assert Commands(Emit(s, io)) == [] && read + [] == read;
      if s.pc.Forward? {
        MatchesForward(s, io, read);
      } else {
        MatchesQuiet(s, io, read);
      }
    }
  }

  lemma Regroup(a: seq<Bytes>, b: seq<Bytes>, c: seq<Bytes>)
    ensures (a + b) + c == a + (b + c)
  {
  }

  lemma {:induction false} CommandsAppend(a: Trace, b: Trace)
    ensures Commands(a + b) == Commands(a) + Commands(b)
    decreases |a|
  {
    if a == [] {
      assert a + b == b;
    } else {
      assert (a + b)[0] == a[0] && (a + b)[1..] == a[1..] + b;
      CommandsAppend(a[1..], b);
      Regroup(if a[0].Received? && a[0].msg != [] then [a[0].msg] else [], Commands(a[1..]), Commands(b));
    }
  }

  lemma {:induction false} MatchesFrom(s: Relay, ios: seq<Io>, read: seq<Bytes>)
    requires Matches(s.pc, read, Forwarded(s.log.sent))
    ensures Matches(RunFrom(s, ios).pc, read + Commands(TraceFrom(s, ios)), Forwarded(RunFrom(s, ios).log.sent))
    decreases |ios|
  {
    if ios == [] {
      assert read + [] == read;
    } else {
      var now := Commands(Emit(s, ios[0]));
      var later := TraceFrom(Step(s, ios[0]), ios[1..]);
      MatchesStep(s, ios[0], read);
      MatchesFrom(Step(s, ios[0]), ios[1..], read + now);
      CommandsAppend(Emit(s, ios[0]), later);
      Regroup(read, now, Commands(later));
    }
  }

  /** On every run what has been forwarded is what the client sent, unchanged and in order, empty
      packets left out; only the last command read may be missing, and none is while the relay
      waits for the next. */
  lemma ForwardsInOrder(ios: seq<Io>)
    ensures var s, read := Run(ios), Commands(TraceOf(ios));
            && Forwarded(s.log.sent) <= read && |read| <= |s.log.sent| + 1
            && (s.pc.ReadClient? ==> read == Forwarded(s.log.sent))
  {
    MatchesFrom(Start, ios, []);
    assert [] + Commands(TraceOf(ios)) == Commands(TraceOf(ios));
  }
}
