/** What travels in a session: the messages each I/O call of the relay reads from its client, writes
    to a backend and reads from it. */
module PgTrace {
  import opened Wire
  import opened Disposal
  import opened PgRelay
  import opened PgRelayTheorems

  // The two queries the relay injects, as they go over the wire: "ROLLBACK" and "DISCARD ALL".
  const Rollback: Msg := Msg(81, [82, 79, 76, 76, 66, 65, 67, 75, 0])
  const DiscardAll: Msg := Msg(81, [68, 73, 83, 67, 65, 82, 68, 32, 65, 76, 76, 0])

  type Trace = seq<Traffic<Msg>>

  /** What the call made at this point transmits, if it succeeds. */
  function Emit(s: Relay, io: Io): Trace {
    if !io.ok then []
    else
      match s.pc
      case ReadClient(_) => [Received(io.msg)]
      case Forward(h, msg) => [Wrote(h, msg)]
      case ReadBackend(h) => [Heard(h, io.msg)]
      case SendRollback(h) => [Wrote(h, Rollback)]
      case ReadRollback(h) => [Heard(h, io.msg)]
      case SendDiscard(h, _) => [Wrote(h, DiscardAll)]
      case ReadDiscard(h, _) => [Heard(h, io.msg)]
      case _ => []
  }

  function TraceFrom(s: Relay, ios: seq<Io>): Trace
    decreases |ios|
  {
    if ios == [] then [] else Emit(s, ios[0]) + TraceFrom(Step(s, ios[0]), ios[1..])
  }

  function TraceOf(ios: seq<Io>): Trace {
    TraceFrom(Start, ios)
  }

  // ---- A lost client's transaction is rolled back ----

  predicate HeardReady(x: Traffic<Msg>, h: Handle) {
    x.Heard? && x.h == h && x.msg.kind == 90
  }

  /** On `h` nothing is written but DISCARD ALL, and that not before a ReadyForQuery was read. */
  ghost predicate DiscardsLate(tr: Trace, h: Handle) {
    forall k | 0 <= k < |tr| ::
      && !tr[k].Received?
      && (tr[k].Wrote? ==> tr[k] == Wrote(h, DiscardAll) && exists j :: 0 <= j < k && HeardReady(tr[j], h))
  }

  ghost predicate OnlyDiscards(tr: Trace, h: Handle) {
    forall k | 0 <= k < |tr| :: !tr[k].Received? && (tr[k].Wrote? ==> tr[k] == Wrote(h, DiscardAll))
  }

  predicate Resetting(pc: Pc, h: Handle) {
    pc == SendDiscard(h, true) || pc == ReadDiscard(h, true) || pc == GiveBack(h, true) || pc == Done
  }

  lemma {:induction false} ResettingTrace(s: Relay, h: Handle, ios: seq<Io>)
    requires Resetting(s.pc, h)
    ensures OnlyDiscards(TraceFrom(s, ios), h)
    decreases |ios|
  {
    if ios != [] {
      ResettingTrace(Step(s, ios[0]), h, ios[1..]);
    }
  }

  lemma {:induction false} DoneTrace(s: Relay, ios: seq<Io>)
    requires s.pc == Done
    ensures TraceFrom(s, ios) == []
    decreases |ios|
  {
    if ios != [] {
      DoneTrace(s, ios[1..]);
    }
  }

  lemma Later(x: Traffic<Msg>, rest: Trace, h: Handle)
    requires x.Heard? && (if HeardReady(x, h) then OnlyDiscards(rest, h) else DiscardsLate(rest, h))
    ensures DiscardsLate([x] + rest, h)
  {
    var tr := [x] + rest;
    forall k | 0 <= k < |tr| && tr[k].Wrote?
      ensures tr[k] == Wrote(h, DiscardAll) && exists j :: 0 <= j < k && HeardReady(tr[j], h)
    {
      assert tr[k] == rest[k - 1];
      if HeardReady(x, h) {
        assert tr[0] == x;
      } else {
        var j :| 0 <= j < k - 1 && HeardReady(rest[j], h);
        assert tr[j + 1] == rest[j];
      }
    }
  }

  lemma {:induction false} RollingBackTrace(s: Relay, h: Handle, ios: seq<Io>)
    requires s.pc == ReadRollback(h)
    ensures DiscardsLate(TraceFrom(s, ios), h)
    decreases |ios|
  {
    if ios != [] {
      var s' := Step(s, ios[0]);
      if !ios[0].ok {
        DoneTrace(s', ios[1..]);
      } else {
        if ios[0].msg.kind == 90 {
          ResettingTrace(s', h, ios[1..]);
        } else {
          RollingBackTrace(s', h, ios[1..]);
        }
        Later(Heard(h, ios[0].msg), TraceFrom(s', ios[1..]), h);
      }
    }
  }

  /** The relay notices that its client is gone (or the proxy is shutting down) while it holds `h`. */
  predicate ClientLost(s: Relay, io: Io, h: Handle) {
    && !io.ok
    && (s.pc == CheckContext(Some(h)) || s.pc == ReadClient(Some(h)) || (s.pc.WriteClient? && s.pc.h == h))
  }

  /** Then, on every continuation, the first thing it transmits is ROLLBACK on `h`, and all it
      writes after that is DISCARD ALL on `h`, after it has read a ReadyForQuery there. */
  lemma LostClientRollsBack(s: Relay, io: Io, h: Handle, ios: seq<Io>)
    requires ClientLost(s, io, h)
    ensures var tr := TraceFrom(s, [io] + ios);
            tr == [] || (tr[0] == Wrote(h, Rollback) && DiscardsLate(tr[1..], h))
  {
    var s1 := Step(s, io);
    assert ([io] + ios)[1..] == ios && TraceFrom(s, [io] + ios) == TraceFrom(s1, ios);
    assert s1.pc == SendRollback(h);
    if ios != [] {
      var s2 := Step(s1, ios[0]);
      if ios[0].ok {
        RollingBackTrace(s2, h, ios[1..]);
        assert TraceFrom(s1, ios)[1..] == TraceFrom(s2, ios[1..]);
      } else {
        DoneTrace(s2, ios[1..]);
      }
    }
  }

  // ---- What the client sends is what is forwarded ----

  function ClientMessages(tr: Trace): seq<Msg> {
    if tr == [] then []
    else (if tr[0].Received? then [tr[0].msg] else []) + ClientMessages(tr[1..])
  }

  function Forwarded(sent: seq<Sent<Msg>>): seq<Msg> {
    seq(|sent|, i requires 0 <= i < |sent| => sent[i].msg)
  }

  /** The messages read from the client: those forwarded, and possibly one more. */
  ghost predicate Matches(pc: Pc, read: seq<Msg>, forwarded: seq<Msg>) {
    match pc
    case AcquireAgain(msg) => read == forwarded + [msg] && msg.kind != 88
    case Forward(_, msg) => read == forwarded + [msg] && msg.kind != 88
    case CheckContext(_) => read == forwarded
    case ReadClient(_) => read == forwarded
    case ReadBackend(_) => read == forwarded
    case WriteClient(_, _) => read == forwarded
    case AcquireFirst => read == forwarded
    case SendAuth(_) => read == forwarded
    case _ => forwarded <= read && |read| <= |forwarded| + 1 && (!Final(pc) ==> read == forwarded)
  }

  /** The relay is not coming back for another client message. */
  predicate Final(pc: Pc) {
    match pc
    case SendDiscard(_, exit) => exit
    case ReadDiscard(_, exit) => exit
    case GiveBack(_, exit) => exit
    case _ => true
  }

  lemma MatchesForward(s: Relay, io: Io, read: seq<Msg>)
    requires s.pc.Forward? && Matches(s.pc, read, Forwarded(s.log.sent))
    ensures Matches(Step(s, io).pc, read, Forwarded(Step(s, io).log.sent))
  {
    if io.ok {
      var x := Sent(s.pc.h, s.pc.msg, DetectSessionPin(s.pc.msg));
      assert Forwarded(s.log.sent + [x]) == Forwarded(s.log.sent) + [s.pc.msg];
    }
  }

  lemma MatchesRead(s: Relay, io: Io, read: seq<Msg>)
    requires s.pc.ReadClient? && io.ok && Matches(s.pc, read, Forwarded(s.log.sent))
    ensures Matches(Step(s, io).pc, read + [io.msg], Forwarded(Step(s, io).log.sent))
  {
    assert read + [] == read;
  }

  lemma MatchesQuiet(s: Relay, io: Io, read: seq<Msg>)
    requires !s.pc.Forward? && !(s.pc.ReadClient? && io.ok) && Matches(s.pc, read, Forwarded(s.log.sent))
    ensures Matches(Step(s, io).pc, read, Forwarded(Step(s, io).log.sent))
  {
    assert Step(s, io).log.sent == s.log.sent;
  }

  lemma MatchesStep(s: Relay, io: Io, read: seq<Msg>)
    requires Matches(s.pc, read, Forwarded(s.log.sent))
    ensures Matches(Step(s, io).pc, read + ClientMessages(Emit(s, io)), Forwarded(Step(s, io).log.sent))
  {
    if s.pc.ReadClient? && io.ok {
      assert ClientMessages([Received(io.msg)]) == [io.msg] + ClientMessages([]);
      MatchesRead(s, io, read);
    } else {
      assert ClientMessages(Emit(s, io)) == [] && read + [] == read;
      if s.pc.Forward? {
        MatchesForward(s, io, read);
      } else {
        MatchesQuiet(s, io, read);
      }
    }
  }

  lemma Regroup(a: seq<Msg>, b: seq<Msg>, c: seq<Msg>)
    ensures (a + b) + c == a + (b + c)
  {
  }

  lemma {:induction false} ClientMessagesAppend(a: Trace, b: Trace)
    ensures ClientMessages(a + b) == ClientMessages(a) + ClientMessages(b)
    decreases |a|
  {
    if a == [] {
      assert a + b == b;
    } else {
      assert (a + b)[0] == a[0] && (a + b)[1..] == a[1..] + b;
      ClientMessagesAppend(a[1..], b);
      Regroup(if a[0].Received? then [a[0].msg] else [], ClientMessages(a[1..]), ClientMessages(b));
    }
  }

  lemma {:induction false} MatchesFrom(s: Relay, ios: seq<Io>, read: seq<Msg>)
    requires Matches(s.pc, read, Forwarded(s.log.sent))
    ensures Matches(RunFrom(s, ios).pc, read + ClientMessages(TraceFrom(s, ios)), Forwarded(RunFrom(s, ios).log.sent))
    decreases |ios|
  {
    if ios == [] {
      assert read + [] == read;
    } else {
      var now := ClientMessages(Emit(s, ios[0]));
      var later := TraceFrom(Step(s, ios[0]), ios[1..]);
      MatchesStep(s, ios[0], read);
      MatchesFrom(Step(s, ios[0]), ios[1..], read + now);
      ClientMessagesAppend(Emit(s, ios[0]), later);
      Regroup(read, now, ClientMessages(later));
    }
  }

  /** On every run what has been forwarded is what the client sent, unchanged and in order; only
      the last message read may be missing, and none is while the relay waits for the next. */
  lemma ForwardsInOrder(ios: seq<Io>)
    ensures var s, read := Run(ios), ClientMessages(TraceOf(ios));
            && Forwarded(s.log.sent) <= read && |read| <= |s.log.sent| + 1
            && (s.pc.CheckContext? || s.pc.ReadClient? ==> read == Forwarded(s.log.sent))
  {
    MatchesFrom(Start, ios, []);
    assert [] + ClientMessages(TraceOf(ios)) == ClientMessages(TraceOf(ios));
  }

  lemma {:induction false} NoTerminate(s: Relay, ios: seq<Io>)
    requires (s.pc.AcquireAgain? || s.pc.Forward?) ==> s.pc.msg.kind != 88
    requires forall x | x in s.log.sent :: x.msg.kind != 88
    ensures forall x | x in RunFrom(s, ios).log.sent :: x.msg.kind != 88
    decreases |ios|
  {
    if ios != [] {
      NoTerminate(Step(s, ios[0]), ios[1..]);
    }
  }

  /** A Terminate message (88) never reaches a backend. */
  lemma TerminateNotForwarded(ios: seq<Io>)
    ensures forall x | x in Run(ios).log.sent :: x.msg.kind != 88
  {
    NoTerminate(Start, ios);
  }
}
