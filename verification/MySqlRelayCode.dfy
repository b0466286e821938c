/** `relayMySQLTransactionMode`, its `resetAndReturn` closure, `drainMySQLResponse` and
    `drainMySQLUntilOK` with the control structure of the source. Each I/O call takes the next
    result of a script; where the script ends, the call blocks. */
module MySqlRelayCode {
  import opened Wire
  import opened Disposal
  import opened MySqlStatus
  import opened MySqlRelay

  /** One I/O call takes the next result of the script. */
  lemma Next(s: Relay, io: seq<Io>, k: nat)
    requires k < |io|
    ensures RunFrom(s, io[k..]) == RunFrom(Step(s, io[k]), io[k + 1..])
  {
    assert io[k..][1..] == io[k + 1..];
  }

  /** A session that has ended stays as it is. */
  lemma {:induction false} Ended(s: Relay, ios: seq<Io>)
    requires s.pc == Done
    ensures RunFrom(s, ios) == s
    decreases |ios|
  {
    if ios != [] {
      Ended(s, ios[1..]);
    }
  }

  // COM_RESET_CONNECTION, then return to the pool, or close.
  method ResetAndReturn(io: seq<Io>, from: nat, h: Handle, exit: bool, at: Relay) returns (k: nat, s: Relay)
    requires from <= |io| && at.pc == SendReset(h, exit)
    ensures from <= k <= |io| && RunFrom(s, io[k..]) == RunFrom(at, io[from..])
    ensures k == |io| || s.pc == After(exit)
  {
    if from == |io| {
      return from, at;
    }
    Next(at, io, from);
    if !io[from].ok {
      return from + 1, at.(pc := After(exit), log := Note(at.log, Shut(h)));
    }
    k, s := ReadResetResult(io, from + 1, h, exit, at.(pc := ReadReset(h, exit), log := Note(at.log, Used(h))));
  }

  method ReadResetResult(io: seq<Io>, from: nat, h: Handle, exit: bool, at: Relay) returns (k: nat, s: Relay)
    requires from <= |io| && at.pc == ReadReset(h, exit)
    ensures from <= k <= |io| && RunFrom(s, io[k..]) == RunFrom(at, io[from..])
    ensures k == |io| || s.pc == After(exit)
  {
    if from == |io| {
      return from, at;
    }
    Next(at, io, from);
    var resp := io[from];
    if !resp.ok || (|resp.pkt| > 0 && resp.pkt[0] == 0xff) {
      return from + 1, at.(pc := After(exit), log := Note(at.log, Shut(h)));
    }
    k, s := HandBack(io, from + 1, h, exit, at.(pc := GiveBack(h, exit), log := Note(at.log, Used(h))));
  }

  method HandBack(io: seq<Io>, from: nat, h: Handle, exit: bool, at: Relay) returns (k: nat, s: Relay)
    requires from <= |io| && at.pc == GiveBack(h, exit)
    ensures from <= k <= |io| && RunFrom(s, io[k..]) == RunFrom(at, io[from..])
    ensures k == |io| || s.pc == After(exit)
  {
    if from == |io| {
      return from, at;
    }
    Next(at, io, from);
    return from + 1, at.(pc := After(exit), log := Note(at.log, Returned(h)));
  }

  // Sends ROLLBACK, ignoring the result, and reads up to OK, ERR, EOF or an error.
  method Rollback(io: seq<Io>, from: nat, h: Handle, at: Relay) returns (k: nat, s: Relay)
    requires from <= |io| && at.pc == SendRollback(h)
    ensures from <= k <= |io| && RunFrom(s, io[k..]) == RunFrom(at, io[from..])
    ensures k == |io| || s.pc == SendReset(h, true)
  {
    k := from;
    if k == |io| {
      return k, at;
    }
    Next(at, io, k);
    k := k + 1;
    s := at.(pc := ReadRollback(h), log := Note(at.log, Used(h)));
    while k < |io|
      invariant from <= k <= |io| && s.pc == ReadRollback(h)
      invariant RunFrom(s, io[k..]) == RunFrom(at, io[from..])
      decreases |io| - k
    {
      Next(s, io, k);
      var r := io[k];
      k := k + 1;
      s := s.(log := Note(s.log, Used(h)));
      if !r.ok {
        return k, s.(pc := SendReset(h, true));
      }
      if |r.pkt| > 0 && (r.pkt[0] == 0 || r.pkt[0] == 0xff || (r.pkt[0] == 0xfe && |r.pkt| < 9)) {
        return k, s.(pc := SendReset(h, true));
      }
    }
  }

  // The client disconnected (`inTxn` as noted) or quit (`inTxn` false).
  method Disconnect(io: seq<Io>, from: nat, held: Option<Handle>, inTxn: bool, at: Relay) returns (s: Relay)
    requires from <= |io| && at.pc == Leave(held, inTxn)
    ensures s == RunFrom(at, io[from..])
  {
    s := at;
    var k := from;
    if held.Some? {
      if inTxn {
        k, s := Rollback(io, k, held.value, s);
      }
      if k < |io| {
        k, s := ResetAndReturn(io, k, held.value, true, s);
      }
    }
    if k < |io| {
      Ended(s, io[k..]);
    }
  }

  function Told(s: Relay, h: Handle, pkt: Bytes): Relay {
    s.(log := Note(s.log, Used(h)).(toClient := s.log.toClient + [pkt]))
  }

  /** One packet is read from the backend and written to the client. */
  lemma RelayedOne(s: Relay, io: seq<Io>, k: nat, h: Handle)
    requires k + 2 <= |io| && s.pc == ReadBackend(h) && io[k].ok && io[k + 1].ok
    ensures var told, pkt := Told(s, h, io[k].pkt), io[k].pkt;
            RunFrom(s, io[k..]) ==
            RunFrom(if Terminal(pkt) then Complete(told, h, Boundary(pkt)) else told, io[k + 2..])
  {
    Next(s, io, k);
    Next(s.(pc := WriteClient(h, io[k].pkt), log := Note(s.log, Used(h))), io, k + 1);
  }

  /** Reading the packet or writing it fails, or the script ends before it is written. */
  lemma RelayStops(s: Relay, io: seq<Io>, k: nat, h: Handle)
    requires k < |io| && s.pc == ReadBackend(h)
    ensures !io[k].ok ==> RunFrom(s, io[k..]) == s.(pc := Done, log := Note(s.log, Shut(h)))
    ensures io[k].ok && k + 1 == |io| ==>
              RunFrom(s, io[k..]) == s.(pc := WriteClient(h, io[k].pkt), log := Note(s.log, Used(h)))
    ensures io[k].ok && k + 1 < |io| && !io[k + 1].ok ==>
              RunFrom(s, io[k..]) == s.(pc := Done, log := Note(Note(s.log, Used(h)), Shut(h)))
  {
    Next(s, io, k);
    if !io[k].ok {
      Ended(s.(pc := Done, log := Note(s.log, Shut(h))), io[k + 1..]);
    } else if k + 1 < |io| && !io[k + 1].ok {
      Next(s.(pc := WriteClient(h, io[k].pkt), log := Note(s.log, Used(h))), io, k + 1);
      Ended(s.(pc := Done, log := Note(Note(s.log, Used(h)), Shut(h))), io[k + 2..]);
    }
  }

  // Relays response packets up to and including the first one that completes the response.
  method DrainResponse(io: seq<Io>, from: nat, h: Handle, at: Relay) returns (k: nat, s: Relay, atBoundary: bool)
    requires from <= |io| && at.pc == ReadBackend(h)
    ensures from <= k <= |io| && RunFrom(s, io[k..]) == RunFrom(at, io[from..])
    ensures k == |io| || s.pc == if atBoundary && !at.pinned then SendReset(h, false) else ReadClient(Some(h))
  {
    k, s, atBoundary := from, at, false;
    while k < |io|
      invariant from <= k <= |io| && s == at.(log := s.log)
      invariant RunFrom(s, io[k..]) == RunFrom(at, io[from..])
      decreases |io| - k
    {
      var r := io[k];
      if !r.ok {
        RelayStops(s, io, k, h);
        return |io|, s.(pc := Done, log := Note(s.log, Shut(h))), false;
      }
      if k + 1 == |io| {
        RelayStops(s, io, k, h);
        return |io|, s.(pc := WriteClient(h, r.pkt), log := Note(s.log, Used(h))), false;
      }
      if !io[k + 1].ok {
        RelayStops(s, io, k, h);
        return |io|, s.(pc := Done, log := Note(Note(s.log, Used(h)), Shut(h))), false;
      }
      RelayedOne(s, io, k, h);
      k, s := k + 2, Told(s, h, r.pkt);
      if |r.pkt| == 0 {
        continue;
      }
      if r.pkt[0] == 0xff {
        return k, Complete(s, h, true), true;
      }
      if r.pkt[0] == 0 || (r.pkt[0] == 0xfe && |r.pkt| < 9) {
        var status := StatusFlags(r.pkt, r.pkt[0]);
        if Flag(status, MoreResults) {
          continue;
        }
        atBoundary := !Flag(status, InTransaction);
        return k, Complete(s, h, atBoundary), atBoundary;
      }
    }
  }

  // One command: acquire if needed, forward, relay the response, release at a boundary.
  method Exchange(io: seq<Io>, from: nat, held: Option<Handle>, cmd: Bytes, at: Relay) returns (k: nat, s: Relay)
    requires from <= |io|
    requires at.pc == if held.Some? then Forward(held.value, cmd) else AcquireAgain(cmd)
    requires held.Some? ==> at.inTxn
    ensures from <= k <= |io| && RunFrom(s, io[k..]) == RunFrom(at, io[from..])
    ensures k == |io| || s.pc.ReadClient?
  {
    k, s := from, at;
    var backend := held;
    if backend.None? {
      if k == |io| {
        return;
      }
      Next(s, io, k);
      var acquired := io[k];
      k := k + 1;
      if !acquired.ok {
        s := s.(pc := Done, log := s.log.(fatal := true));
        Ended(s, io[k..]);
        return |io|, s;
      }
      backend := Some(acquired.handle);
      s := s.(pc := Forward(acquired.handle, cmd), inTxn := true, log := Note(s.log, Took(acquired.handle)));
    }
    k, s := ForwardCommand(io, k, backend.value, cmd, s);
  }

  method ForwardCommand(io: seq<Io>, from: nat, h: Handle, cmd: Bytes, at: Relay) returns (k: nat, s: Relay)
    requires from <= |io| && at.pc == Forward(h, cmd)
    ensures from <= k <= |io| && RunFrom(s, io[k..]) == RunFrom(at, io[from..])
    ensures k == |io| || s.pc.ReadClient?
  {
    k, s := from, at;
    if k == |io| {
      return;
    }
    Next(s, io, k);
    var sent := io[k].ok;
    k := k + 1;
    if !sent {
      s := s.(pc := Done, log := Note(s.log, Shut(h)));
      Ended(s, io[k..]);
      return |io|, s;
    }
    s := s.(pc := ReadBackend(h), log := Note(s.log, Used(h)).(sent := s.log.sent + [Sent(h, cmd, Pins(cmd))]));
    var atBoundary: bool;
    k, s, atBoundary := DrainResponse(io, k, h, s);
    if k < |io| && atBoundary && !at.pinned {
      k, s := ResetAndReturn(io, k, h, false, s);
    }
  }

  method MessageLoop(io: seq<Io>, from: nat, start: Relay) returns (s: Relay)
    requires from <= |io| && start.pc.ReadClient?
    ensures s == RunFrom(start, io[from..])
  {
    var k := from;
    s := start;
    while k < |io|
      invariant from <= k <= |io| && RunFrom(s, io[k..]) == RunFrom(start, io[from..])
      invariant k < |io| ==> s.pc.ReadClient?
      decreases |io| - k
    {
      var backend := s.pc.held;
      Next(s, io, k);
      var r := io[k];
      k := k + 1;
      if !r.ok {
        s := Disconnect(io, k, backend, s.inTxn, s.(pc := Leave(backend, s.inTxn)));
        return;
      }
      if |r.pkt| == 0 {
        continue;
      }
      if r.pkt[0] == ComQuit {
        s := Disconnect(io, k, backend, false, s.(pc := Leave(backend, false)));
        return;
      }
      if !s.pinned {
        s := s.(pinned := Pins(r.pkt));
      }
      if backend.Some? {
        s := s.(pc := Forward(backend.value, r.pkt), inTxn := true);
      } else {
        s := s.(pc := AcquireAgain(r.pkt));
      }
      k, s := Exchange(io, k, backend, r.pkt, s);
    }
  }

  /** The relay's code runs through exactly the states of the machine, for every script. */
  method RelayTransactionMode(io: seq<Io>) returns (s: Relay)
    ensures s == Run(io)
  {
    assert io[0..] == io;
    if |io| == 0 {
      return Start;
    }
    Next(Start, io, 0);
    if !io[0].ok {
      s := Start.(pc := Done);
      Ended(s, io[1..]);
      return;
    }
    var h := io[0].handle;
    s := Start.(pc := SendOk(h), log := Note(EmptyLog, Took(h)));
    if |io| == 1 {
      return;
    }
    Next(s, io, 1);
    if !io[1].ok {
      s := s.(pc := Done, log := Note(s.log, Shut(h)));
      Ended(s, io[2..]);
      return;
    }
    s := MessageLoop(io, 2, s.(pc := ReadClient(Some(h))));
  }
}
