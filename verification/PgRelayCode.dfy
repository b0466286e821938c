/** `relayPGTransactionMode`, `resetAndReturn` and `cleanupBackend` with the control
    structure of the source: nested loops over local variables. Each I/O call takes the
    next result of a script; where the script ends, the call blocks. */
module PgRelayCode {
  import opened Wire
  import opened PgRelay
  import opened Disposal

  /** One I/O call takes the next result of the script. */
  lemma Next(s: Relay, io: seq<Io>, k: nat)
    requires k < |io|
    ensures RunFrom(s, io[k..]) == RunFrom(Step(s, io[k]), io[k + 1..])
  {
    assert io[k..][1..] == io[k + 1..];
  }

  /** A session that has ended stays as it is. */
  lemma {:induction false} Ended(s: Relay, ios: seq<Io>)
    requires s.pc == Done
    ensures RunFrom(s, ios) == s
    decreases |ios|
  {
    if ios != [] {
      Ended(s, ios[1..]);
    }
  }

  // Resets the backend with DISCARD ALL, then returns it to the pool, or closes it if that fails.
  // `s` is where the relay stands when the procedure returns or blocks after `k` I/O calls.
  method ResetAndReturn(io: seq<Io>, from: nat, h: Handle, exit: bool, pinned: bool, before: Log<Msg>)
    returns (k: nat, s: Relay)
    requires from <= |io|
    ensures from <= k <= |io|
    ensures RunFrom(s, io[k..]) == RunFrom(Relay(SendDiscard(h, exit), pinned, before), io[from..])
    ensures s == Relay(After(exit), pinned, s.log) || k == |io|
  {
    if from == |io| {
      return from, Relay(SendDiscard(h, exit), pinned, before);
    }
    Next(Relay(SendDiscard(h, exit), pinned, before), io, from);
    if !io[from].ok {
      return from + 1, Relay(After(exit), pinned, Note(before, Shut(h)));
    }
    k, s := DrainDiscard(io, from + 1, h, exit, pinned, Note(before, Used(h)));
  }

  method HandBack(io: seq<Io>, from: nat, h: Handle, exit: bool, pinned: bool, log: Log<Msg>) returns (k: nat, s: Relay)
    requires from <= |io|
    ensures from <= k <= |io|
    ensures RunFrom(s, io[k..]) == RunFrom(Relay(GiveBack(h, exit), pinned, log), io[from..])
    ensures s == Relay(After(exit), pinned, s.log) || k == |io|
  {
    if from == |io| {
      return from, Relay(GiveBack(h, exit), pinned, log);
    }
    Next(Relay(GiveBack(h, exit), pinned, log), io, from);
    return from + 1, Relay(After(exit), pinned, Note(log, Returned(h)));
  }

  // The loop that reads the response to DISCARD ALL.
  method DrainDiscard(io: seq<Io>, from: nat, h: Handle, exit: bool, pinned: bool, before: Log<Msg>)
    returns (k: nat, s: Relay)
    requires from <= |io|
    ensures from <= k <= |io|
    ensures RunFrom(s, io[k..]) == RunFrom(Relay(ReadDiscard(h, exit), pinned, before), io[from..])
    ensures s == Relay(After(exit), pinned, s.log) || k == |io|
  {
    k := from;
    var log := before;
    while k < |io|
      invariant from <= k <= |io|
      invariant RunFrom(Relay(ReadDiscard(h, exit), pinned, log), io[k..]) ==
                RunFrom(Relay(ReadDiscard(h, exit), pinned, before), io[from..])
      decreases |io| - k
    {
      Next(Relay(ReadDiscard(h, exit), pinned, log), io, k);
      var r := io[k];
      k := k + 1;
      if !r.ok {
        return k, Relay(After(exit), pinned, Note(log, Shut(h)));
      }
      if r.msg.kind == KindReady {
        if |r.msg.payload| >= 1 && r.msg.payload[0] == StatusIdle {
          k, s := HandBack(io, k, h, exit, pinned, Note(log, Used(h)));
          return;
        }
        return k, Relay(After(exit), pinned, Note(log, Shut(h)));
      }
      if r.msg.kind == KindError {
        return k, Relay(After(exit), pinned, Note(log, Shut(h)));
      }
      log := Note(log, Used(h));
    }
    return k, Relay(ReadDiscard(h, exit), pinned, log);
  }

  // Rolls back after a dirty disconnect, then resets and returns.
  method CleanupBackend(io: seq<Io>, from: nat, h: Handle, pinned: bool, before: Log<Msg>) returns (s: Relay)
    requires from <= |io|
    ensures s == RunFrom(Relay(SendRollback(h), pinned, before), io[from..])
  {
    ghost var goal := RunFrom(Relay(SendRollback(h), pinned, before), io[from..]);
    var k, log := from, before;
    if k == |io| {
      return Relay(SendRollback(h), pinned, log);
    }
    Next(Relay(SendRollback(h), pinned, log), io, k);
    var sent := io[k].ok;
    k := k + 1;
    if !sent {
      s := Relay(Done, pinned, Note(log, Shut(h)));
      Ended(s, io[k..]);
      return;
    }
    log := Note(log, Used(h));
    var ready := false;
    while !ready
      invariant from <= k <= |io|
      invariant RunFrom(Relay(if ready then SendDiscard(h, true) else ReadRollback(h), pinned, log), io[k..]) == goal
      decreases |io| - k
    {
      if k == |io| {
        return Relay(ReadRollback(h), pinned, log);
      }
      Next(Relay(ReadRollback(h), pinned, log), io, k);
      var r := io[k];
      k := k + 1;
      if !r.ok {
        s := Relay(Done, pinned, Note(log, Shut(h)));
        Ended(s, io[k..]);
        return;
      }
      log := Note(log, Used(h));
      ready := r.msg.kind == KindReady;
    }
    k, s := ResetAndReturn(io, k, h, true, pinned, log);
    if k < |io| {
      Ended(s, io[k..]);
    }
  }

  // The client is gone or the server is stopping.
  method Exit(io: seq<Io>, from: nat, pc: Option<Handle>, pinned: bool, log: Log<Msg>) returns (s: Relay)
    requires from <= |io|
    ensures s == RunFrom(Relay(Leave(pc), pinned, log), io[from..])
  {
    if pc.Some? {
      s := CleanupBackend(io, from, pc.value, pinned, log);
    } else {
      s := Relay(Done, pinned, log);
      Ended(s, io[from..]);
    }
  }

  // Relays the backend's messages up to ReadyForQuery.
  method RelayResponses(io: seq<Io>, from: nat, h: Handle, pinned: bool, before: Log<Msg>) returns (j: nat, s: Relay)
    requires from <= |io|
    ensures from <= j <= |io|
    ensures RunFrom(s, io[j..]) == RunFrom(Relay(ReadBackend(h), pinned, before), io[from..])
    ensures j == |io| || s.pc.CheckContext?
  {
    ghost var goal := RunFrom(Relay(ReadBackend(h), pinned, before), io[from..]);
    j := from;
    var log := before;
    while j < |io|
      invariant from <= j <= |io| && RunFrom(Relay(ReadBackend(h), pinned, log), io[j..]) == goal
      decreases |io| - j
    {
      Next(Relay(ReadBackend(h), pinned, log), io, j);
      var r := io[j];
      j := j + 1;
      if !r.ok {
        s := Relay(Done, pinned, Note(log, Shut(h)));
        Ended(s, io[j..]);
        return |io|, s;
      }
      log := Note(log, Used(h));
      if j == |io| {
        return j, Relay(WriteClient(h, r.msg), pinned, log);
      }
      Next(Relay(WriteClient(h, r.msg), pinned, log), io, j);
      var written := io[j].ok;
      j := j + 1;
      if !written {
        s := Exit(io, j, Some(h), pinned, log);
        return |io|, s;
      }
      log := log.(toClient := log.toClient + [r.msg]);
      if r.msg.kind == KindReady {
        log := log.(ends := log.ends + [SaysIdle(r.msg.payload)]);
        if |r.msg.payload| >= 1 && r.msg.payload[0] == StatusIdle && !pinned {
          j, s := ResetAndReturn(io, j, h, false, pinned, log);
        } else {
          s := Relay(CheckContext(Some(h)), pinned, log);
        }
        return;
      }
    }
    return j, Relay(ReadBackend(h), pinned, log);
  }

  // One turn of the message loop after a client message: acquire if needed, forward, relay.
  method Exchange(io: seq<Io>, from: nat, held: Option<Handle>, msg: Msg, wasPinned: bool, before: Log<Msg>)
    returns (j: nat, s: Relay)
    requires from <= |io|
    ensures from <= j <= |io|
    ensures var at := if held.Some? then Relay(Forward(held.value, msg), wasPinned || DetectSessionPin(msg), before)
                      else Relay(AcquireAgain(msg), wasPinned, before);
            RunFrom(s, io[j..]) == RunFrom(at, io[from..])
    ensures j == |io| || s.pc.CheckContext?
  {
    j := from;
    var pc, log := held, before;
    if pc.None? {
      if j == |io| {
        return j, Relay(AcquireAgain(msg), wasPinned, log);
      }
      Next(Relay(AcquireAgain(msg), wasPinned, log), io, j);
      var acquired := io[j];
      j := j + 1;
      if !acquired.ok {
        s := Relay(Done, wasPinned, log.(fatal := true));
        Ended(s, io[j..]);
        return |io|, s;
      }
      pc := Some(acquired.handle);
      log := Note(log, Took(acquired.handle));
    }
    var pinned := wasPinned;
    if !pinned {
      pinned := DetectSessionPin(msg);
    }
    if j == |io| {
      return j, Relay(Forward(pc.value, msg), pinned, log);
    }
    Next(Relay(Forward(pc.value, msg), pinned, log), io, j);
    var sent := io[j].ok;
    j := j + 1;
    if !sent {
      s := Relay(Done, pinned, Note(log, Shut(pc.value)));
      Ended(s, io[j..]);
      return |io|, s;
    }
    log := Note(log, Used(pc.value)).(sent := log.sent + [Sent(pc.value, msg, DetectSessionPin(msg))]);
    j, s := RelayResponses(io, j, pc.value, pinned, log);
  }

  method MessageLoop(io: seq<Io>, from: nat, start: Relay) returns (s: Relay)
    requires from <= |io| && start.pc.CheckContext?
    ensures s == RunFrom(start, io[from..])
  {
    var j := from;
    s := start;
    while j < |io|
      invariant from <= j <= |io| && RunFrom(s, io[j..]) == RunFrom(start, io[from..])
      invariant j < |io| ==> s.pc.CheckContext?
      decreases |io| - j
    {
      var pc := s.pc.held;
      Next(s, io, j);
      var alive := io[j].ok;
      j := j + 1;
      if !alive {
        s := Exit(io, j, pc, s.pinned, s.log);
        return;
      }
      if j == |io| {
        return s.(pc := ReadClient(pc));
      }
      Next(s.(pc := ReadClient(pc)), io, j);
      var r := io[j];
      j := j + 1;
      if !r.ok {
        s := Exit(io, j, pc, s.pinned, s.log);
        return;
      }
      if r.msg.kind == KindTerminate {
        if pc.Some? {
          j, s := ResetAndReturn(io, j, pc.value, true, s.pinned, s.log);
        } else {
          s := s.(pc := Done);
        }
        if j < |io| {
          Ended(s, io[j..]);
        }
        return;
      }
      j, s := Exchange(io, j, pc, r.msg, s.pinned, s.log);
    }
  }

  /** The relay's code runs through exactly the states of the machine, for every script. */
  method RelayTransactionMode(io: seq<Io>) returns (s: Relay)
    ensures s == Run(io)
  {
    var j, log := 0, EmptyLog;
    assert io[0..] == io;
    if j == |io| {
      return Relay(AcquireFirst, false, log);
    }
    Next(Start, io, j);
    var first := io[j];
    j := j + 1;
    if !first.ok {
      s := Relay(Done, false, log);
      Ended(s, io[j..]);
      return;
    }
    log := Note(log, Took(first.handle));
    if j == |io| {
      return Relay(SendAuth(first.handle), false, log);
    }
    Next(Relay(SendAuth(first.handle), false, log), io, j);
    var greeted := io[j].ok;
    j := j + 1;
    if !greeted {
      s := Relay(Done, false, Note(log, Shut(first.handle)));
      Ended(s, io[j..]);
      return;
    }
    log := Note(log, Used(first.handle));
    if j == |io| {
      return Relay(GiveBack(first.handle, false), false, log);
    }
    Next(Relay(GiveBack(first.handle, false), false, log), io, j);
    s := MessageLoop(io, j + 1, Relay(CheckContext(None), false, Note(log, Returned(first.handle))));
  }
}
