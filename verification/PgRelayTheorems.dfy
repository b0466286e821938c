/** What holds of one PostgreSQL relay whatever its client, its backends and its I/O do. */
module PgRelayTheorems {
  import opened Wire
  import opened PgRelay
  import opened Disposal
  import opened Text

  /** The connection the relay is responsible for. */
  function Custody(pc: Pc): Hold {
    match pc
    case AcquireFirst => Free
    case SendAuth(h) => Holds(h)
    case CheckContext(held) => if held.Some? then Holds(held.value) else Free
    case ReadClient(held) => if held.Some? then Holds(held.value) else Free
    case AcquireAgain(_) => Free
    case Forward(h, _) => Holds(h)
    case ReadBackend(h) => Holds(h)
    case WriteClient(h, _) => Holds(h)
    case SendRollback(h) => Holds(h)
    case ReadRollback(h) => Holds(h)
    case SendDiscard(h, _) => Holds(h)
    case ReadDiscard(h, _) => Holds(h)
    case GiveBack(h, _) => Holds(h)
    case Done => Free
  }

  /** What a step does to the connection in the relay's custody. */
  function Emits(s: Relay, io: Io): Option<Event> {
    match s.pc
    case AcquireFirst => if io.ok then Some(Took(io.handle)) else None
    case AcquireAgain(_) => if io.ok then Some(Took(io.handle)) else None
    case CheckContext(_) => None
    case ReadClient(_) => None
    case WriteClient(_, _) => None
    case Done => None
    case GiveBack(h, _) => Some(Returned(h))
    case ReadDiscard(h, _) =>
      if io.ok && (if io.msg.kind == KindReady then SaysIdle(io.msg.payload) else io.msg.kind != KindError)
      then Some(Used(h)) else Some(Shut(h))
    case _ => if io.ok then Some(Used(s.pc.h)) else Some(Shut(s.pc.h))
  }

  lemma StepEmits(s: Relay, io: Io)
    ensures Step(s, io).log.events ==
            match Emits(s, io)
            case None => s.log.events
            case Some(e) => Note(s.log, e).events
  {
  }

  lemma CustodyMoves(s: Relay, io: Io)
    ensures Custody(Step(s, io).pc) ==
            match Emits(s, io)
            case None => Custody(s.pc)
            case Some(e) => Obey(Custody(s.pc), e)
  {
  }

  lemma {:induction false} CustodyRun(s: Relay, ios: seq<Io>)
    requires Held(s.log.events) == Custody(s.pc)
    ensures Held(RunFrom(s, ios).log.events) == Custody(RunFrom(s, ios).pc)
    decreases |ios|
  {
    if ios != [] {
      StepEmits(s, ios[0]);
      CustodyMoves(s, ios[0]);
      if Emits(s, ios[0]).Some? {
        HeldNote(s.log, Emits(s, ios[0]).value);
      }
      CustodyRun(Step(s, ios[0]), ios[1..]);
    }
  }

  /** Exactly-once disposal, on every run of the relay: what it holds is what its control point
      says, the discipline is never broken, and nothing is held once it has ended. */
  lemma DisposedExactlyOnce(ios: seq<Io>)
    ensures var s := Run(ios);
            && Held(s.log.events) == Custody(s.pc) && Held(s.log.events) != Broken
            && (s.pc == Done ==> Held(s.log.events) == Free)
            && (s.pc == Done ==> forall h: Handle ::
                  Count(s.log.events, Took(h)) == Count(s.log.events, Returned(h)) + Count(s.log.events, Shut(h)))
  {
    CustodyRun(Start, ios);
    if Run(ios).pc == Done {
      AllDisposed(Run(ios).log.events);
    }
  }

  // ---- Affinity ----

  /** For each ReadyForQuery relayed, whether its status is idle. */
  function Verdicts(ms: seq<Msg>): seq<bool> {
    if ms == [] then []
    else
      var last := ms[|ms| - 1];
      Verdicts(ms[..|ms| - 1]) + if last.kind == KindReady then [SaysIdle(last.payload)] else []
  }

  ghost predicate Affine(s: Relay) {
    && (forall i | 0 <= i < |s.log.sent| :: s.log.sent[i].pins == DetectSessionPin(s.log.sent[i].msg))
    && s.log.ends == Verdicts(s.log.toClient)
    && Sticky(s.log.sent, s.log.ends)
    && Positioned(s.pc, s.pinned, s.log.sent, s.log.ends)
  }

  ghost predicate Positioned(pc: Pc, pinned: bool, sent: seq<Sent<Msg>>, ends: seq<bool>) {
    match pc
    case AcquireFirst => sent == [] && !pinned
    case SendAuth(_) => sent == [] && !pinned
    case CheckContext(held) => AtTop(pinned, sent, ends, held)
    case ReadClient(held) => AtTop(pinned, sent, ends, held)
    case AcquireAgain(_) => AtTop(pinned, sent, ends, None)
    case Forward(h, msg) =>
      && |ends| == |sent| && pinned == (PinnedBy(sent) || DetectSessionPin(msg))
      && (MustKeep(sent, ends) ==> h == sent[|sent| - 1].h)
    case ReadBackend(h) => Awaiting(pinned, sent, ends, h)
    case WriteClient(h, _) => Awaiting(pinned, sent, ends, h)
    case SendDiscard(_, exit) => exit || AtTop(pinned, sent, ends, None)
    case ReadDiscard(_, exit) => exit || AtTop(pinned, sent, ends, None)
    case GiveBack(_, exit) => exit || AtTop(pinned, sent, ends, None)
    case _ => true
  }

  /** At the top of the loop a backend is held exactly if it must be kept. */
  ghost predicate AtTop(pinned: bool, sent: seq<Sent<Msg>>, ends: seq<bool>, held: Option<Handle>) {
    && |ends| == |sent| && pinned == PinnedBy(sent)
    && held == if MustKeep(sent, ends) then Some(sent[|sent| - 1].h) else None
  }

  ghost predicate Awaiting(pinned: bool, sent: seq<Sent<Msg>>, ends: seq<bool>, h: Handle) {
    |sent| == |ends| + 1 && sent[|sent| - 1].h == h && pinned == PinnedBy(sent)
  }

  lemma AffineForward(s: Relay, io: Io)
    requires Affine(s) && s.pc.Forward?
    ensures Affine(Step(s, io))
  {
    var x := Sent(s.pc.h, s.pc.msg, DetectSessionPin(s.pc.msg));
    StickySend(s.log.sent, s.log.ends, x);
    PinnedByOne(s.log.sent, x);
  }

  lemma AffineWriteClient(s: Relay, io: Io)
    requires Affine(s) && s.pc.WriteClient?
    ensures Affine(Step(s, io))
  {
    assert (s.log.toClient + [s.pc.reply])[..|s.log.toClient|] == s.log.toClient;
    StickyEnd(s.log.sent, s.log.ends, SaysIdle(s.pc.reply.payload));
  }

  /** Other steps neither forward nor relay anything. */
  lemma QuietStep(s: Relay, io: Io)
    requires !s.pc.Forward? && !s.pc.WriteClient?
    ensures var r := Step(s, io);
            r.log.sent == s.log.sent && r.log.ends == s.log.ends && r.log.toClient == s.log.toClient
  {
  }

  lemma QuietPosition(s: Relay, io: Io)
    requires !s.pc.Forward? && !s.pc.WriteClient?
    requires |s.log.ends| <= |s.log.sent| && Positioned(s.pc, s.pinned, s.log.sent, s.log.ends)
    ensures Positioned(Step(s, io).pc, Step(s, io).pinned, s.log.sent, s.log.ends)
  {
  }

  lemma AffineStep(s: Relay, io: Io)
    requires Affine(s)
    ensures Affine(Step(s, io))
  {
    if s.pc.Forward? {
      AffineForward(s, io);
    } else if s.pc.WriteClient? {
      AffineWriteClient(s, io);
    } else {
      QuietStep(s, io);
      QuietPosition(s, io);
    }
  }

  lemma {:induction false} AffineFrom(s: Relay, ios: seq<Io>)
    requires Affine(s)
    ensures Affine(RunFrom(s, ios))
    decreases |ios|
  {
    if ios != [] {
      AffineStep(s, ios[0]);
      AffineFrom(Step(s, ios[0]), ios[1..]);
    }
  }

  /** Affinity, on every run: a backend is held at the top of the loop exactly if a message has
      been forwarded and the session is pinned or its last ReadyForQuery was not idle; so a
      transaction stays on one backend. */
  lemma AffineRun(ios: seq<Io>)
    ensures Affine(Run(ios))
  {
    AffineFrom(Start, ios);
  }

  /** From a pinning message on, every message goes to the same backend. */
  lemma PinnedForGood(ios: seq<Io>, i: nat, j: nat)
    requires i <= j < |Run(ios).log.sent| && DetectSessionPin(Run(ios).log.sent[i].msg)
    ensures Run(ios).log.sent[j].h == Run(ios).log.sent[i].h
  {
    AffineRun(ios);
    PinHolds(Run(ios).log.sent, Run(ios).log.ends, i, j);
  }

  // ---- What pins a session ----

  /** Exactly these messages pin a session: a Parse of a named statement, and a simple query that
      begins, after white space and in any mixture of cases, with LISTEN or NOTIFY. */
  lemma PinMeans(m: Msg)
    ensures DetectSessionPin(m) <==>
            || (m.kind == KindParse && m.payload != [] && m.payload[0] != 0)
            || (&& m.kind == KindQuery && m.payload != []
                && var text := Decode(m.payload[..|m.payload| - 1]);
                   Leads(text, Listen) || Leads(text, Notify))
  {
    if m.payload != [] {
      NormalMeans(m.payload[..|m.payload| - 1], Listen);
      NormalMeans(m.payload[..|m.payload| - 1], Notify);
    }
  }

  /** On ASCII text: after blanks, tabs and line ends, LISTEN or NOTIFY in capitals or small letters. */
  lemma AsciiPinMeans(text: seq<byte>)
    requires forall i | 0 <= i < |text| :: text[i] < 0x80
    ensures DetectSessionPin(Msg(81, text + [0])) <==>
            AsciiLeads(text, [76, 73, 83, 84, 69, 78]) || AsciiLeads(text, [78, 79, 84, 73, 70, 89])
  {
    var m := Msg(81, text + [0]);
    PinMeans(m);
    assert m.payload[..|m.payload| - 1] == text;
    AsciiMeans(text, Listen);
    AsciiMeans(text, Notify);
  }
}
