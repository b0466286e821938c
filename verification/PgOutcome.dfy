/** What becomes of a connection whose session ends, with a PostgreSQL server at its other end and no
    I/O failure on it. The server refuses DISCARD ALL inside a transaction. */
module PgOutcome {
  import opened Wire
  import opened Disposal
  import opened PgRelay
  import opened PgSystem
  import opened PgCleanup
  import opened PgTrace

  /** What PostgreSQL answers the two injected queries in transaction status `txn`: ROLLBACK always
      ends in the idle status (73); DISCARD ALL succeeds there and is an error elsewhere. */
  ghost predicate Postgres(txn: byte, msg: Msg, reply: seq<Msg>) {
    && Answers(reply) && EndsReady(reply)
    && (msg == Rollback ==> SaysIdle(reply[|reply| - 1].payload))
    && (msg == DiscardAll ==>
          if txn == 73 then !HasError(reply) && SaysIdle(reply[|reply| - 1].payload) else HasError(reply))
  }

  /** One call, which succeeds: the relay reads what the server has sent, and the server answers
      what the relay writes, ROLLBACK with `undone` and DISCARD ALL with `reset`. A read with
      nothing to read blocks. */
  function Go(l: Local, undone: seq<Msg>, reset: seq<Msg>): Local {
    if Reads(l.r.pc) && l.b.queue == [] then l
    else
      var io := Io(true, if Reads(l.r.pc) then l.b.queue[0] else Rollback, 0);
      var tr := Emit(l.r, io);
      var b :=
        if tr == [] || tr[0].Received? then l.b
        else if tr[0].Heard? then (if l.b.queue == [] then l.b else l.b.(queue := l.b.queue[1..]))
        else if tr[0].msg == Rollback then Serve(l.b, {}, undone)
        else if tr[0].msg == DiscardAll then ServeDiscard(l.b, reset)
        else l.b;
      Local(Step(l.r, io), b)
  }

  function Iterate(l: Local, undone: seq<Msg>, reset: seq<Msg>, n: nat): Local
    decreases n
  {
    if n == 0 then l else Iterate(Go(l, undone, reset), undone, reset, n - 1)
  }

  lemma {:induction false} IterateMore(l: Local, undone: seq<Msg>, reset: seq<Msg>, m: nat, n: nat)
    ensures Iterate(l, undone, reset, m + n) == Iterate(Iterate(l, undone, reset, m), undone, reset, n)
    decreases m
  {
    if m > 0 {
      IterateMore(Go(l, undone, reset), undone, reset, m - 1, n);
    }
  }

  /** The events since `before` are uses of `h` and then `last`. */
  ghost predicate EndsWith(events: seq<Event>, before: seq<Event>, h: Handle, last: Event) {
    && |events| > |before| && before <= events && events[|events| - 1] == last
    && forall i | |before| <= i < |events| - 1 :: events[i] == Used(h)
  }

  ghost predicate OnlyUses(events: seq<Event>, before: seq<Event>, h: Handle) {
    before <= events && forall i | |before| <= i < |events| :: events[i] == Used(h)
  }

  // ---- Draining ROLLBACK ----

  lemma {:induction false} DrainsRollback(l: Local, undone: seq<Msg>, reset: seq<Msg>, h: Handle, before: seq<Event>)
    requires l.r.pc == ReadRollback(h) && OneReply(l.b.queue) && EndsReady(l.b.queue)
    requires OnlyUses(l.r.log.events, before, h)
    ensures var m := Iterate(l, undone, reset, |l.b.queue|);
            m.r.pc == SendDiscard(h, true) && m.b == l.b.(queue := []) && OnlyUses(m.r.log.events, before, h)
    decreases |l.b.queue|
  {
    var q := l.b.queue;
    var l' := Go(l, undone, reset);
    if q[0].kind == KindReady {
      assert q == [q[0]] && q[1..] == [];
      assert Iterate(l, undone, reset, 1) == Iterate(l', undone, reset, 0);
    } else {
      assert |q| > 1;
      assert OneReply(q[1..]) && EndsReady(q[1..]);
      DrainsRollback(l', undone, reset, h, before);
    }
  }

  // ---- Draining DISCARD ALL ----

  lemma {:induction false} DrainsDiscard(l: Local, undone: seq<Msg>, reset: seq<Msg>, h: Handle, before: seq<Event>)
    requires l.r.pc == ReadDiscard(h, true) && OneReply(l.b.queue) && EndsReady(l.b.queue) && !HasError(l.b.queue)
    requires SaysIdle(l.b.queue[|l.b.queue| - 1].payload) && OnlyUses(l.r.log.events, before, h)
    ensures var m := Iterate(l, undone, reset, |l.b.queue|);
            m.r.pc == GiveBack(h, true) && m.b == l.b.(queue := []) && OnlyUses(m.r.log.events, before, h)
    decreases |l.b.queue|
  {
    var q := l.b.queue;
    var l' := Go(l, undone, reset);
    assert q[0].kind != KindError;
    if q[0].kind == KindReady {
      assert q == [q[0]] && q[1..] == [];
      assert Iterate(l, undone, reset, 1) == Iterate(l', undone, reset, 0);
    } else {
      assert |q| > 1;
      assert OneReply(q[1..]) && EndsReady(q[1..]);
      assert !HasError(q[1..]) by {
        assert forall i | 0 <= i < |q[1..]| :: q[1..][i] == q[i + 1];
      }
      DrainsDiscard(l', undone, reset, h, before);
    }
  }

  lemma {:induction false} RefusedDiscard(l: Local, undone: seq<Msg>, reset: seq<Msg>, h: Handle, before: seq<Event>)
    returns (n: nat)
    requires l.r.pc == ReadDiscard(h, true) && OneReply(l.b.queue) && HasError(l.b.queue)
    requires OnlyUses(l.r.log.events, before, h)
    ensures var m := Iterate(l, undone, reset, n); m.r.pc == Done && EndsWith(m.r.log.events, before, h, Shut(h))
    decreases |l.b.queue|
  {
    var q := l.b.queue;
    var l' := Go(l, undone, reset);
    if q[0].kind == KindError {
      n := 1;
      assert Iterate(l, undone, reset, 1) == Iterate(l', undone, reset, 0);
    } else {
      var i :| 0 <= i < |q| && q[i].kind == KindError;
      assert q[1..][i - 1] == q[i];
      assert OneReply(q[1..]);
      var k := RefusedDiscard(l', undone, reset, h, before);
      n := k + 1;
    }
  }

  // ---- A session ends ----

  lemma SendsRollback(l: Local, undone: seq<Msg>, reset: seq<Msg>, h: Handle)
    requires l.r.pc == SendRollback(h)
    ensures var m := Go(l, undone, reset);
            m.r.pc == ReadRollback(h) && m.b == Serve(l.b, {}, undone) && m.r.log.events == l.r.log.events + [Used(h)]
  {
  }

  lemma SendsDiscard(l: Local, undone: seq<Msg>, reset: seq<Msg>, h: Handle)
    requires l.r.pc == SendDiscard(h, true)
    ensures var m := Go(l, undone, reset);
            m.r.pc == ReadDiscard(h, true) && m.b == ServeDiscard(l.b, reset) && m.r.log.events == l.r.log.events + [Used(h)]
  {
  }

  lemma GivesBackLast(l: Local, undone: seq<Msg>, reset: seq<Msg>, h: Handle)
    requires l.r.pc == GiveBack(h, true)
    ensures var m := Go(l, undone, reset);
            m.r.pc == Done && m.b == l.b && m.r.log.events == l.r.log.events + [Returned(h)]
    ensures Iterate(l, undone, reset, 1) == Go(l, undone, reset)
  {
    assert Iterate(l, undone, reset, 1) == Iterate(Go(l, undone, reset), undone, reset, 0);
  }

  lemma DiscardAnswered(b: Backend, reset: seq<Msg>)
    requires b.queue == [] && Postgres(b.txn, DiscardAll, reset)
    ensures ServeDiscard(b, reset).queue == reset && OneReply(reset) && EndsReady(reset)
    ensures b.txn == 73 ==> ServeDiscard(b, reset) == Backend(73, {}, reset) && !HasError(reset)
    ensures b.txn == 73 ==> SaysIdle(reset[|reset| - 1].payload)
    ensures b.txn != 73 ==> HasError(reset)
  {
    assert [] + reset == reset;
  }

  lemma DrainedReturns(l: Local, undone: seq<Msg>, reset: seq<Msg>, h: Handle, before: seq<Event>, k: nat)
    requires var m := Iterate(l, undone, reset, k);
             m.r.pc == GiveBack(h, true) && m.b == Fresh && OnlyUses(m.r.log.events, before, h)
    ensures var m := Iterate(l, undone, reset, k + 1);
            m.r.pc == Done && EndsWith(m.r.log.events, before, h, Returned(h)) && m.b == Fresh
  {
    GivesBackLast(Iterate(l, undone, reset, k), undone, reset, h);
    IterateMore(l, undone, reset, k, 1);
  }

  lemma ResetReturns(l: Local, undone: seq<Msg>, reset: seq<Msg>, h: Handle, before: seq<Event>) returns (n: nat)
    requires l.r.pc == SendDiscard(h, true) && l.b.queue == [] && l.b.txn == 73 && Postgres(73, DiscardAll, reset)
    requires OnlyUses(l.r.log.events, before, h)
    ensures var m := Iterate(l, undone, reset, n);
            m.r.pc == Done && EndsWith(m.r.log.events, before, h, Returned(h)) && m.b == Fresh
  {
    SendsDiscard(l, undone, reset, h);
    DiscardAnswered(l.b, reset);
    DrainsDiscard(Go(l, undone, reset), undone, reset, h, before);
    DrainedReturns(Go(l, undone, reset), undone, reset, h, before, |reset|);
    n := |reset| + 2;
  }

  lemma ResetCloses(l: Local, undone: seq<Msg>, reset: seq<Msg>, h: Handle, before: seq<Event>) returns (n: nat)
    requires l.r.pc == SendDiscard(h, true) && l.b.queue == [] && l.b.txn != 73 && Postgres(l.b.txn, DiscardAll, reset)
    requires OnlyUses(l.r.log.events, before, h)
    ensures var m := Iterate(l, undone, reset, n); m.r.pc == Done && EndsWith(m.r.log.events, before, h, Shut(h))
  {
    SendsDiscard(l, undone, reset, h);
    DiscardAnswered(l.b, reset);
    var k := RefusedDiscard(Go(l, undone, reset), undone, reset, h, before);
    n := k + 1;
  }

  lemma RollsBack(l: Local, undone: seq<Msg>, reset: seq<Msg>, h: Handle)
    requires l.r.pc == SendRollback(h) && l.b.queue == [] && Postgres(l.b.txn, Rollback, undone)
    ensures var m := Iterate(l, undone, reset, |undone| + 1);
            && m.r.pc == SendDiscard(h, true) && m.b == Backend(73, l.b.residue, [])
            && OnlyUses(m.r.log.events, l.r.log.events, h)
  {
    SendsRollback(l, undone, reset, h);
    assert [] + undone == undone && l.b.residue + {} == l.b.residue;
    DrainsRollback(Go(l, undone, reset), undone, reset, h, l.r.log.events);
  }

  lemma LostStep(r: Relay, io: Io, h: Handle)
    requires ClientLost(r, io, h)
    ensures Step(r, io).pc == SendRollback(h) && Step(r, io).log == r.log
  {
  }

  /** A client is lost on a connection with nothing unread, whatever its transaction status: the
      connection is rolled back, reset and returned to the pool, clean, and never closed. */
  lemma LostClientReturns(r: Relay, b: Backend, io: Io, h: Handle, undone: seq<Msg>, reset: seq<Msg>) returns (n: nat)
    requires ClientLost(r, io, h) && b.queue == []
    requires Postgres(b.txn, Rollback, undone) && Postgres(73, DiscardAll, reset)
    ensures var m := Iterate(Local(Step(r, io), b), undone, reset, n);
            m.r.pc == Done && EndsWith(m.r.log.events, r.log.events, h, Returned(h)) && m.b == Fresh
  {
    var l := Local(Step(r, io), b);
    LostStep(r, io, h);
    RollsBack(l, undone, reset, h);
    var k := |undone| + 1;
    var j := ResetReturns(Iterate(l, undone, reset, k), undone, reset, h, r.log.events);
    IterateMore(l, undone, reset, k, j);
    n := k + j;
  }

  /** A client that sends Terminate (88) is not rolled back: its connection is returned if and only
      if the server is idle, and closed, so lost to the pool, in the middle of a transaction. */
  lemma TerminateReturnsIff(r: Relay, b: Backend, io: Io, h: Handle, undone: seq<Msg>, reset: seq<Msg>) returns (n: nat)
    requires r.pc == ReadClient(Some(h)) && io.ok && io.msg.kind == 88 && b.queue == []
    requires Postgres(b.txn, DiscardAll, reset)
    ensures var m := Iterate(Local(Step(r, io), b), undone, reset, n);
            && m.r.pc == Done
            && (EndsWith(m.r.log.events, r.log.events, h, Returned(h)) <==> b.txn == 73)
            && (EndsWith(m.r.log.events, r.log.events, h, Shut(h)) <==> b.txn != 73)
  {
    var l := Local(Step(r, io), b);
    if b.txn == 73 {
      n := ResetReturns(l, undone, reset, h, r.log.events);
    } else {
      n := ResetCloses(l, undone, reset, h, r.log.events);
    }
  }
}
