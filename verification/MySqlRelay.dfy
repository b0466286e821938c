/** The MySQL transaction-mode relay of one client session, as a state machine over its I/O calls. */
module MySqlRelay {
  import opened Wire
  import opened Disposal
  import opened MySqlStatus
  import opened Text

  type Bytes = seq<byte>

  const ComQuit: byte := 0x01
  const ComQuery: byte := 0x03
  const ComStmtPrepare: byte := 0x16
  const ComSetOption: byte := 0x1b

  // ---- Pinning ----

  // "LOCK ", "GET_LOCK(", "START TRANSACTION"
  const LockWord: seq<Rune> := [76, 79, 67, 75, 32]
  const GetLockCall: seq<Rune> := [71, 69, 84, 95, 76, 79, 67, 75, 40]
  const StartTransaction: seq<Rune> :=
    [83, 84, 65, 82, 84, 32, 84, 82, 65, 78, 83, 65, 67, 84, 73, 79, 78]

  /** Whether a command ties the session to one backend from then on. */
  predicate Pins(pkt: Bytes) {
    && pkt != []
    && (|| pkt[0] == ComStmtPrepare || pkt[0] == ComSetOption
        || (&& pkt[0] == ComQuery && |pkt| > 1
            && var q := Normal(pkt[1..]);
               LockWord <= q || Contains(q, GetLockCall) || StartTransaction <= q))
  }

  // ---- Responses ----

  predicate IsErr(pkt: Bytes) {
    pkt != [] && pkt[0] == 0xff
  }

  predicate IsOkOrEof(pkt: Bytes) {
    pkt != [] && (pkt[0] == 0 || (pkt[0] == 0xfe && |pkt| < 9))
  }

  /** The packets at which the relay considers a response complete. */
  predicate Terminal(pkt: Bytes) {
    IsErr(pkt) || (IsOkOrEof(pkt) && !Flag(StatusFlags(pkt, pkt[0]), MoreResults))
  }

  /** Whether the response such a packet completes also ends a transaction. */
  predicate Boundary(pkt: Bytes)
    requires Terminal(pkt)
  {
    IsErr(pkt) || !Flag(StatusFlags(pkt, pkt[0]), InTransaction)
  }

  // ---- The state machine ----

  /** The result of one I/O call: success, the packet read, the connection acquired. */
  datatype Io = Io(ok: bool, pkt: Bytes, handle: Handle)

  datatype Pc =
    | AcquireFirst
    | SendOk(h: Handle)
    | ReadClient(held: Option<Handle>)
    | AcquireAgain(cmd: Bytes)
    | Forward(h: Handle, cmd: Bytes)
    | ReadBackend(h: Handle)
    | WriteClient(h: Handle, pkt: Bytes)
    | SendRollback(h: Handle)
    | ReadRollback(h: Handle)
    | SendReset(h: Handle, exit: bool)
    | ReadReset(h: Handle, exit: bool)
    | GiveBack(h: Handle, exit: bool)
    | Done

  /** `inTxn` is whether the relay has noted a transaction start. */
  datatype Relay = Relay(pc: Pc, pinned: bool, inTxn: bool, log: Log<Bytes>)

  const EmptyLog: Log<Bytes> := Log([], [], [], [], false)
  const Start := Relay(AcquireFirst, false, false, EmptyLog)

  function After(exit: bool): Pc {
    if exit then Done else ReadClient(None)
  }

  function Leave(held: Option<Handle>, inTxn: bool): Pc {
    match held
    case None => Done
    case Some(h) => if inTxn then SendRollback(h) else SendReset(h, true)
  }

  /** A response is complete: at a transaction boundary an unpinned session gives its backend up. */
  function Complete(s: Relay, h: Handle, atBoundary: bool): Relay {
    var log := s.log.(ends := s.log.ends + [atBoundary]);
    if atBoundary && !s.pinned then s.(pc := SendReset(h, false), inTxn := false, log := log)
    else s.(pc := ReadClient(Some(h)), log := log)
  }

  function Step(s: Relay, io: Io): Relay {
    match s.pc
    case AcquireFirst =>
      if io.ok then s.(pc := SendOk(io.handle), log := Note(s.log, Took(io.handle))) else s.(pc := Done)
    case SendOk(h) =>
      if io.ok then s.(pc := ReadClient(Some(h))) else s.(pc := Done, log := Note(s.log, Shut(h)))
    case ReadClient(held) =>
      if !io.ok then s.(pc := Leave(held, s.inTxn))
      else if io.pkt == [] then s
      else if io.pkt[0] == ComQuit then s.(pc := Leave(held, false))
      else if held.Some? then Relay(Forward(held.value, io.pkt), s.pinned || Pins(io.pkt), true, s.log)
      else s.(pc := AcquireAgain(io.pkt), pinned := s.pinned || Pins(io.pkt))
    case AcquireAgain(cmd) =>
      if io.ok then s.(pc := Forward(io.handle, cmd), inTxn := true, log := Note(s.log, Took(io.handle)))
      else s.(pc := Done, log := s.log.(fatal := true))
    case Forward(h, cmd) =>
      if io.ok then s.(pc := ReadBackend(h), log := Note(s.log, Used(h)).(sent := s.log.sent + [Sent(h, cmd, Pins(cmd))]))
      else s.(pc := Done, log := Note(s.log, Shut(h)))
    case ReadBackend(h) =>
      if io.ok then s.(pc := WriteClient(h, io.pkt), log := Note(s.log, Used(h)))
      else s.(pc := Done, log := Note(s.log, Shut(h)))
    case WriteClient(h, pkt) =>
      if !io.ok then s.(pc := Done, log := Note(s.log, Shut(h)))
      else
        var told := s.(log := s.log.(toClient := s.log.toClient + [pkt]));
        if Terminal(pkt) then Complete(told, h, Boundary(pkt)) else told.(pc := ReadBackend(h))
    case SendRollback(h) =>
      s.(pc := ReadRollback(h), log := Note(s.log, Used(h)))
    case ReadRollback(h) =>
      s.(pc := if !io.ok || IsErr(io.pkt) || IsOkOrEof(io.pkt) then SendReset(h, true) else ReadRollback(h),
         log := Note(s.log, Used(h)))
    case SendReset(h, exit) =>
      if io.ok then s.(pc := ReadReset(h, exit), log := Note(s.log, Used(h)))
      else s.(pc := After(exit), log := Note(s.log, Shut(h)))
    case ReadReset(h, exit) =>
      if io.ok && !IsErr(io.pkt) then s.(pc := GiveBack(h, exit), log := Note(s.log, Used(h)))
      else s.(pc := After(exit), log := Note(s.log, Shut(h)))
    case GiveBack(h, exit) =>
      s.(pc := After(exit), log := Note(s.log, Returned(h)))
    case Done => s
  }

  function RunFrom(s: Relay, ios: seq<Io>): Relay
    decreases |ios|
  {
    if ios == [] then s else RunFrom(Step(s, ios[0]), ios[1..])
  }

  /** A session over the results its I/O calls get, in order; it is blocked in the next call. */
  function Run(ios: seq<Io>): Relay {
    RunFrom(Start, ios)
  }
}
