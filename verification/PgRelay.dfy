/** The PostgreSQL transaction-mode relay of one client session, as a state machine over its
    I/O calls. */
module PgRelay {
  import opened Wire
  import opened Disposal
  import opened Text

  const KindQuery: byte := 81
  const KindParse: byte := 80
  const KindTerminate: byte := 88
  const KindReady: byte := 90
  const KindError: byte := 69
  const StatusIdle: byte := 73

  // ---- Session pinning ----

  const Listen: seq<Rune> := [76, 73, 83, 84, 69, 78]
  const Notify: seq<Rune> := [78, 79, 84, 73, 70, 89]

  /** Whether a client message ties the session to one backend from then on. */
  predicate DetectSessionPin(m: Msg) {
    || (m.kind == KindParse && m.payload != [] && m.payload[0] != 0)
    || (&& m.kind == KindQuery && m.payload != []
        && var q := Normal(m.payload[..|m.payload| - 1]);
           Listen <= q || Notify <= q)
  }

  // ---- The state machine ----

  /** The result of one I/O call: success, the message read, the connection acquired.
      Each call looks only at the parts it produces. */
  datatype Io = Io(ok: bool, msg: Msg, handle: Handle)

  /** What the relay is about to do. `exit` tells whether it ends once the backend is disposed of. */
  datatype Pc =
    | AcquireFirst
    | SendAuth(h: Handle)
    | CheckContext(held: Option<Handle>)
    | ReadClient(held: Option<Handle>)
    | AcquireAgain(msg: Msg)
    | Forward(h: Handle, msg: Msg)
    | ReadBackend(h: Handle)
    | WriteClient(h: Handle, reply: Msg)
    | SendRollback(h: Handle)
    | ReadRollback(h: Handle)
    | SendDiscard(h: Handle, exit: bool)
    | ReadDiscard(h: Handle, exit: bool)
    | GiveBack(h: Handle, exit: bool)
    | Done

  datatype Relay = Relay(pc: Pc, pinned: bool, log: Log<Msg>)

  const EmptyLog: Log<Msg> := Log([], [], [], [], false)
  const Start := Relay(AcquireFirst, false, EmptyLog)

  predicate SaysIdle(payload: seq<byte>) {
    |payload| >= 1 && payload[0] == StatusIdle
  }

  function After(exit: bool): Pc {
    if exit then Done else CheckContext(None)
  }

  /** The relay leaves: a backend it still holds is rolled back, reset and disposed of first. */
  function Leave(held: Option<Handle>): Pc {
    match held
    case None => Done
    case Some(h) => SendRollback(h)
  }

  function Step(s: Relay, io: Io): Relay {
    match s.pc
    case AcquireFirst =>
      if io.ok then s.(pc := SendAuth(io.handle), log := Note(s.log, Took(io.handle))) else s.(pc := Done)
    case SendAuth(h) =>
      if io.ok then s.(pc := GiveBack(h, false), log := Note(s.log, Used(h)))
      else s.(pc := Done, log := Note(s.log, Shut(h)))
    case CheckContext(held) =>
      s.(pc := if io.ok then ReadClient(held) else Leave(held))
    case ReadClient(held) =>
      if !io.ok then s.(pc := Leave(held))
      else if io.msg.kind == KindTerminate then
        s.(pc := if held.Some? then SendDiscard(held.value, true) else Done)
      else if held.Some? then
        s.(pc := Forward(held.value, io.msg), pinned := s.pinned || DetectSessionPin(io.msg))
      else s.(pc := AcquireAgain(io.msg))
    case AcquireAgain(msg) =>
      if io.ok then
        Relay(Forward(io.handle, msg), s.pinned || DetectSessionPin(msg), Note(s.log, Took(io.handle)))
      else s.(pc := Done, log := s.log.(fatal := true))
    case Forward(h, msg) =>
      if io.ok then s.(pc := ReadBackend(h), log := Note(s.log, Used(h)).(sent := s.log.sent + [Sent(h, msg, DetectSessionPin(msg))]))
      else s.(pc := Done, log := Note(s.log, Shut(h)))
    case ReadBackend(h) =>
      if io.ok then s.(pc := WriteClient(h, io.msg), log := Note(s.log, Used(h)))
      else s.(pc := Done, log := Note(s.log, Shut(h)))
    case WriteClient(h, reply) =>
      if !io.ok then s.(pc := SendRollback(h))
      else
        var log := s.log.(toClient := s.log.toClient + [reply]);
        if reply.kind != KindReady then s.(pc := ReadBackend(h), log := log)
        else
          s.(pc := if SaysIdle(reply.payload) && !s.pinned then SendDiscard(h, false) else CheckContext(Some(h)),
             log := log.(ends := log.ends + [SaysIdle(reply.payload)]))
    case SendRollback(h) =>
      if io.ok then s.(pc := ReadRollback(h), log := Note(s.log, Used(h)))
      else s.(pc := Done, log := Note(s.log, Shut(h)))
    case ReadRollback(h) =>
      if io.ok then
        s.(pc := if io.msg.kind == KindReady then SendDiscard(h, true) else ReadRollback(h), log := Note(s.log, Used(h)))
      else s.(pc := Done, log := Note(s.log, Shut(h)))
    case SendDiscard(h, exit) =>
      if io.ok then s.(pc := ReadDiscard(h, exit), log := Note(s.log, Used(h)))
      else s.(pc := After(exit), log := Note(s.log, Shut(h)))
    case ReadDiscard(h, exit) =>
      if !io.ok then s.(pc := After(exit), log := Note(s.log, Shut(h)))
      else if io.msg.kind == KindReady && SaysIdle(io.msg.payload) then
        s.(pc := GiveBack(h, exit), log := Note(s.log, Used(h)))
      else if io.msg.kind == KindReady || io.msg.kind == KindError then
        s.(pc := After(exit), log := Note(s.log, Shut(h)))
      else s.(log := Note(s.log, Used(h)))
    case GiveBack(h, exit) =>
      s.(pc := After(exit), log := Note(s.log, Returned(h)))
    case Done => s
  }

  function RunFrom(s: Relay, ios: seq<Io>): Relay
    decreases |ios|
  {
    if ios == [] then s else RunFrom(Step(s, ios[0]), ios[1..])
  }

  /** A session over the results its I/O calls get, in order; it is blocked in the next call. */
  function Run(ios: seq<Io>): Relay {
    RunFrom(Start, ios)
  }
}
