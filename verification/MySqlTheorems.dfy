/** What holds of one MySQL relay whatever its client, its backends and its I/O do. */
module MySqlTheorems {
  import opened Wire
  import opened Disposal
  import opened MySqlStatus
  import opened MySqlRelay
  import opened Text

  // ---- Disposal ----

  /** The connection the relay is responsible for. */
  function Custody(pc: Pc): Hold {
    match pc
    case AcquireFirst => Free
    case ReadClient(held) => if held.Some? then Holds(held.value) else Free
    case AcquireAgain(_) => Free
    case Done => Free
    case _ => Holds(pc.h)
  }

  /** What a step does to the connection in the relay's custody. */
  function Emits(s: Relay, io: Io): Option<Event> {
    match s.pc
    case AcquireFirst => if io.ok then Some(Took(io.handle)) else None
    case AcquireAgain(_) => if io.ok then Some(Took(io.handle)) else None
    case ReadClient(_) => None
    case Done => None
    case SendOk(h) => if io.ok then None else Some(Shut(h))
    case WriteClient(h, _) => if io.ok then None else Some(Shut(h))
    case SendRollback(h) => Some(Used(h))
    case ReadRollback(h) => Some(Used(h))
    case ReadReset(h, _) => if io.ok && !IsErr(io.pkt) then Some(Used(h)) else Some(Shut(h))
    case GiveBack(h, _) => Some(Returned(h))
    case _ => if io.ok then Some(Used(s.pc.h)) else Some(Shut(s.pc.h))
  }

  lemma StepEmits(s: Relay, io: Io)
    ensures Step(s, io).log.events ==
            match Emits(s, io)
            case None => s.log.events
            case Some(e) => Note(s.log, e).events
  {
  }

  lemma CustodyMoves(s: Relay, io: Io)
    ensures Custody(Step(s, io).pc) ==
            match Emits(s, io)
            case None => Custody(s.pc)
            case Some(e) => Obey(Custody(s.pc), e)
  {
  }

  lemma {:induction false} CustodyRun(s: Relay, ios: seq<Io>)
    requires Held(s.log.events) == Custody(s.pc)
    ensures Held(RunFrom(s, ios).log.events) == Custody(RunFrom(s, ios).pc)
    decreases |ios|
  {
    if ios != [] {
      StepEmits(s, ios[0]);
      CustodyMoves(s, ios[0]);
      if Emits(s, ios[0]).Some? {
        HeldNote(s.log, Emits(s, ios[0]).value);
      }
      CustodyRun(Step(s, ios[0]), ios[1..]);
    }
  }

  /** Exactly-once disposal, on every run of the relay: what it holds is what its control point
      says, the discipline is never broken, and nothing is held once it has ended. */
  lemma DisposedExactlyOnce(ios: seq<Io>)
    ensures var s := Run(ios);
            && Held(s.log.events) == Custody(s.pc) && Held(s.log.events) != Broken
            && (s.pc == Done ==> Held(s.log.events) == Free)
            && (s.pc == Done ==> forall h: Handle ::
                  Count(s.log.events, Took(h)) == Count(s.log.events, Returned(h)) + Count(s.log.events, Shut(h)))
  {
    CustodyRun(Start, ios);
    if Run(ios).pc == Done {
      AllDisposed(Run(ios).log.events);
    }
  }

  // ---- Affinity ----

  /** For each packet relayed that completes a response, whether it ends a transaction. */
  function Verdicts(pkts: seq<Bytes>): seq<bool> {
    if pkts == [] then []
    else
      var last := pkts[|pkts| - 1];
      Verdicts(pkts[..|pkts| - 1]) + if Terminal(last) then [Boundary(last)] else []
  }

  /** At the top of the loop a backend is held until the first command has been forwarded, and
      then exactly if it must be kept; a transaction is noted exactly if it is held then. */
  ghost predicate AtTop(pinned: bool, inTxn: bool, sent: seq<Sent<Bytes>>, ends: seq<bool>, held: Option<Handle>) {
    && |ends| == |sent| && pinned == PinnedBy(sent)
    && (sent != [] ==>
          && held == (if MustKeep(sent, ends) then Some(sent[|sent| - 1].h) else None)
          && inTxn == held.Some?)
    && (sent == [] ==> held.Some? && !inTxn)
  }

  ghost predicate Positioned(pc: Pc, pinned: bool, inTxn: bool, sent: seq<Sent<Bytes>>, ends: seq<bool>) {
    match pc
    case AcquireFirst => sent == [] && ends == [] && !pinned && !inTxn
    case SendOk(_) => sent == [] && ends == [] && !pinned && !inTxn
    case ReadClient(held) => AtTop(pinned, inTxn, sent, ends, held)
    case AcquireAgain(cmd) =>
      && |ends| == |sent| && pinned == (PinnedBy(sent) || Pins(cmd)) && !MustKeep(sent, ends)
    case Forward(h, cmd) =>
      && |ends| == |sent| && pinned == (PinnedBy(sent) || Pins(cmd)) && inTxn
      && (MustKeep(sent, ends) ==> h == sent[|sent| - 1].h)
    case ReadBackend(h) => Awaiting(pinned, inTxn, sent, ends, h)
    case WriteClient(h, _) => Awaiting(pinned, inTxn, sent, ends, h)
    case SendReset(_, exit) => exit || (sent != [] && AtTop(pinned, inTxn, sent, ends, None))
    case ReadReset(_, exit) => exit || (sent != [] && AtTop(pinned, inTxn, sent, ends, None))
    case GiveBack(_, exit) => exit || (sent != [] && AtTop(pinned, inTxn, sent, ends, None))
    case _ => true
  }

  ghost predicate Awaiting(pinned: bool, inTxn: bool, sent: seq<Sent<Bytes>>, ends: seq<bool>, h: Handle) {
    |sent| == |ends| + 1 && sent[|sent| - 1].h == h && pinned == PinnedBy(sent) && inTxn
  }

  ghost predicate Affine(s: Relay) {
    && (forall i | 0 <= i < |s.log.sent| :: s.log.sent[i].pins == Pins(s.log.sent[i].msg))
    && s.log.ends == Verdicts(s.log.toClient)
    && Sticky(s.log.sent, s.log.ends)
    && Positioned(s.pc, s.pinned, s.inTxn, s.log.sent, s.log.ends)
  }

  lemma AffineForward(s: Relay, io: Io)
    requires Affine(s) && s.pc.Forward?
    ensures Affine(Step(s, io))
  {
    var x := Sent(s.pc.h, s.pc.cmd, Pins(s.pc.cmd));
    StickySend(s.log.sent, s.log.ends, x);
    PinnedByOne(s.log.sent, x);
  }

  lemma AffineWriteClient(s: Relay, io: Io)
    requires Affine(s) && s.pc.WriteClient?
    ensures Affine(Step(s, io))
  {
    assert (s.log.toClient + [s.pc.pkt])[..|s.log.toClient|] == s.log.toClient;
    if Terminal(s.pc.pkt) {
      StickyEnd(s.log.sent, s.log.ends, Boundary(s.pc.pkt));
    }
  }

  /** Other steps neither forward nor relay anything. */
  lemma QuietStep(s: Relay, io: Io)
    requires !s.pc.Forward? && !s.pc.WriteClient?
    ensures var r := Step(s, io);
            r.log.sent == s.log.sent && r.log.ends == s.log.ends && r.log.toClient == s.log.toClient
  {
  }

  lemma QuietPosition(s: Relay, io: Io)
    requires !s.pc.Forward? && !s.pc.WriteClient?
    requires |s.log.ends| <= |s.log.sent| && Positioned(s.pc, s.pinned, s.inTxn, s.log.sent, s.log.ends)
    ensures Positioned(Step(s, io).pc, Step(s, io).pinned, Step(s, io).inTxn, s.log.sent, s.log.ends)
  {
  }

  lemma AffineStep(s: Relay, io: Io)
    requires Affine(s)
    ensures Affine(Step(s, io))
  {
    if s.pc.Forward? {
      AffineForward(s, io);
    } else if s.pc.WriteClient? {
      AffineWriteClient(s, io);
    } else {
      QuietStep(s, io);
      QuietPosition(s, io);
    }
  }

  lemma {:induction false} AffineFrom(s: Relay, ios: seq<Io>)
    requires Affine(s)
    ensures Affine(RunFrom(s, ios))
    decreases |ios|
  {
    if ios != [] {
      AffineStep(s, ios[0]);
      AffineFrom(Step(s, ios[0]), ios[1..]);
    }
  }

  /** Affinity, on every run: a command goes to the backend of the one before it unless the
      response in between ended a transaction and no command so far pins the session. */
  lemma AffineRun(ios: seq<Io>)
    ensures Affine(Run(ios))
  {
    AffineFrom(Start, ios);
  }

  /** From a pinning command on, every command goes to the same backend. */
  lemma PinnedForGood(ios: seq<Io>, i: nat, j: nat)
    requires i <= j < |Run(ios).log.sent| && Pins(Run(ios).log.sent[i].msg)
    ensures Run(ios).log.sent[j].h == Run(ios).log.sent[i].h
  {
    AffineRun(ios);
    PinHolds(Run(ios).log.sent, Run(ios).log.ends, i, j);
  }

  // ---- What pins a session ----

  // "LOCK ", "START TRANSACTION", "GET_LOCK("
  const Lock: seq<Rune> := [76, 79, 67, 75, 32]
  const Begin: seq<Rune> := [83, 84, 65, 82, 84, 32, 84, 82, 65, 78, 83, 65, 67, 84, 73, 79, 78]
  const GetLock: seq<Rune> := [71, 69, 84, 95, 76, 79, 67, 75, 40]

  /** Exactly these commands pin a session: preparing a statement (22), setting an option (27), and
      a query (3) whose decoded text, after white space and in any mixture of cases, begins with
      LOCK, a blank and something more, or with START TRANSACTION, or has GET_LOCK( in it. */
  lemma PinMeans(pkt: Bytes)
    ensures Pins(pkt) <==>
            && pkt != []
            && (|| pkt[0] == 22 || pkt[0] == 27
                || (&& pkt[0] == 3
                    && var text := Decode(pkt[1..]);
                       Begins(text, Lock) || Begins(text, Begin) || Mentions(text, GetLock)))
  {
    if pkt != [] && pkt[0] == 3 {
      NormalBegins(pkt[1..], Lock);
      NormalBegins(pkt[1..], Begin);
      NormalContains(pkt[1..], GetLock);
    }
  }

  // ---- Responses cut short ----

  const Written := Io(true, [], 0)

  /** The relay reads a response packet by packet, every call succeeding, until it stops reading;
      with what it leaves unread. */
  function Feed(s: Relay, pkts: seq<Bytes>): (Relay, seq<Bytes>)
    decreases |pkts|
  {
    if pkts == [] || !s.pc.ReadBackend? then (s, pkts)
    else Feed(Step(Step(s, Io(true, pkts[0], 0)), Written), pkts[1..])
  }

  lemma FeedStep(s: Relay, pkt: Bytes)
    requires s.pc.ReadBackend?
    ensures var t := Step(Step(s, Io(true, pkt, 0)), Written);
            t.log.toClient == s.log.toClient + [pkt] && (t.pc.ReadBackend? <==> !Terminal(pkt))
  {
  }

  /** Relaying stops right after the first packet that looks terminal ... */
  lemma {:induction false} DrainStops(s: Relay, pkts: seq<Bytes>)
    requires s.pc.ReadBackend?
    ensures var left := Feed(s, pkts).1;
            && |left| <= |pkts| && left == pkts[|pkts| - |left|..]
            && (left != [] ==> |left| < |pkts| && Terminal(pkts[|pkts| - |left| - 1]))
            && (forall i | 0 <= i < |pkts| - |left| - 1 :: !Terminal(pkts[i]))
    decreases |pkts|
  {
    if pkts != [] {
      FeedStep(s, pkts[0]);
      if !Terminal(pkts[0]) {
        DrainStops(Step(Step(s, Io(true, pkts[0], 0)), Written), pkts[1..]);
        assert forall i | 0 < i < |pkts| :: pkts[i] == pkts[1..][i - 1];
      }
    }
  }

  /** ... and everything up to there has been relayed, in order. */
  lemma {:induction false} DrainTells(s: Relay, pkts: seq<Bytes>)
    ensures |Feed(s, pkts).1| <= |pkts|
    ensures Feed(s, pkts).0.log.toClient == s.log.toClient + pkts[..|pkts| - |Feed(s, pkts).1|]
    decreases |pkts|
  {
    if pkts != [] && s.pc.ReadBackend? {
      FeedStep(s, pkts[0]);
      var t := Step(Step(s, Io(true, pkts[0], 0)), Written);
      DrainTells(t, pkts[1..]);
      Shift(s.log.toClient, pkts, |pkts| - |Feed(t, pkts[1..]).1|);
    }
  }

  lemma Shift(seen: seq<Bytes>, pkts: seq<Bytes>, n: nat)
    requires 0 < n <= |pkts|
    ensures (seen + [pkts[0]]) + pkts[1..][..n - 1] == seen + pkts[..n]
  {
  }

  /** So a response is relayed, whole and in order, if and only if no packet but its last one looks
      terminal. */
  lemma DrainsWholeIff(s: Relay, pkts: seq<Bytes>)
    requires s.pc.ReadBackend?
    ensures Feed(s, pkts).1 == [] <==> forall i | 0 <= i < |pkts| - 1 :: !Terminal(pkts[i])
    ensures Feed(s, pkts).0.log.toClient == s.log.toClient + pkts <==> Feed(s, pkts).1 == []
  {
    DrainStops(s, pkts);
    DrainTells(s, pkts);
    var n := |pkts| - |Feed(s, pkts).1|;
    assert pkts[..n] == pkts <==> n == |pkts|;
    assert |s.log.toClient + pkts[..n]| == |s.log.toClient| + n;
  }

  /** A text result set is column count and definitions, EOF, rows, EOF. Its first EOF looks
      terminal, so its rows and its last EOF are left unread on the connection. */
  lemma ResultSetCutShort(s: Relay, columns: seq<Bytes>, warnings: nat, status: nat, rest: seq<Bytes>)
    requires s.pc.ReadBackend?
    requires status < 0x1_0000 && !Flag(status, MoreResults)
    requires forall c | c in columns :: !IsErr(c) && !IsOkOrEof(c)
    ensures Feed(s, columns + [EofPacket(warnings, status)] + rest).1 == rest
  {
    var pkts, n := columns + [EofPacket(warnings, status)] + rest, |columns|;
    EofStatus(warnings, status);
    DrainStops(s, pkts);
    assert forall i | 0 <= i < n :: pkts[i] == columns[i] && columns[i] in columns;
    assert pkts[n] == EofPacket(warnings, status) && Terminal(pkts[n]);
    var left := Feed(s, pkts).1;
    var stop := |pkts| - |left| - 1;
    assert left != [] ==> stop >= n;
    assert pkts[n + 1..] == rest;
  }
}
