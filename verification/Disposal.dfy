/** What a relay does with pooled connections, whatever protocol it speaks: the discipline of
    taking and disposing of them, and the rule by which messages stay on one of them. */
module Disposal {

  type Handle = nat

  datatype Event = Took(h: Handle) | Used(h: Handle) | Returned(h: Handle) | Shut(h: Handle)

  /** A client message, the connection it was forwarded on, and whether it ties the session to it. */
  datatype Sent<M> = Sent(h: Handle, msg: M, pins: bool)

  /** History of a session: pool events, client messages forwarded, for each complete response
      whether it ended a transaction, and what was relayed to the client after the synthetic
      authentication. `fatal` records the one message that is not relayed: the final error sent
      when no backend could be acquired. */
  datatype Log<M> = Log(events: seq<Event>, sent: seq<Sent<M>>, ends: seq<bool>, toClient: seq<M>, fatal: bool)

  /** What an I/O call transmits: a message read from the client, written to a backend, or read from
      it. */
  datatype Traffic<M> = Received(msg: M) | Wrote(h: Handle, msg: M) | Heard(h: Handle, msg: M)

  function Note<M>(log: Log<M>, e: Event): Log<M> {
    log.(events := log.events + [e])
  }

  // ---- Taking one at a time, using only that, disposing of it once ----

  datatype Hold = Free | Holds(h: Handle) | Broken

  function Obey(s: Hold, e: Event): Hold {
    match e
    case Took(h) => if s == Free then Holds(h) else Broken
    case Used(h) => if s == Holds(h) then s else Broken
    case Returned(h) => if s == Holds(h) then Free else Broken
    case Shut(h) => if s == Holds(h) then Free else Broken
  }

  /** What is held after a list of events; `Broken` for good once the discipline is violated. */
  function Held(events: seq<Event>): Hold {
    if events == [] then Free else Obey(Held(events[..|events| - 1]), events[|events| - 1])
  }

  lemma HeldNote<M>(log: Log<M>, e: Event)
    ensures Held(Note(log, e).events) == Obey(Held(log.events), e)
  {
    assert Note(log, e).events[..|log.events|] == log.events;
  }

  function Count(events: seq<Event>, e: Event): nat {
    if events == [] then 0 else Count(events[..|events| - 1], e) + if events[|events| - 1] == e then 1 else 0
  }

  /** Under the discipline every connection is disposed of exactly as often as it was taken,
      once less if it is the one still held. */
  lemma {:induction false} TakenOnceDisposedOnce(events: seq<Event>, h: Handle)
    requires Held(events) != Broken
    ensures Count(events, Took(h)) ==
            Count(events, Returned(h)) + Count(events, Shut(h)) + if Held(events) == Holds(h) then 1 else 0
    decreases |events|
  {
    if events != [] {
      TakenOnceDisposedOnce(events[..|events| - 1], h);
    }
  }

  /** So once nothing is held, each connection has been returned or closed as often as taken. */
  lemma AllDisposed(events: seq<Event>)
    requires Held(events) == Free
    ensures forall h: Handle :: Count(events, Took(h)) == Count(events, Returned(h)) + Count(events, Shut(h))
  {
    forall h: Handle
      ensures Count(events, Took(h)) == Count(events, Returned(h)) + Count(events, Shut(h))
    {
      TakenOnceDisposedOnce(events, h);
    }
  }

  // ---- Staying on one connection ----

  predicate PinnedBy<M>(sent: seq<Sent<M>>) {
    exists i :: 0 <= i < |sent| && sent[i].pins
  }

  /** Whether the backend of the last message must be kept for the next one. */
  predicate MustKeep<M>(sent: seq<Sent<M>>, ends: seq<bool>) {
    sent != [] && ends != [] && (PinnedBy(sent) || !ends[|ends| - 1])
  }

  /** Consecutive messages go to the same backend unless a transaction ended in between and
      no message so far pins the session. */
  ghost predicate Sticky<M>(sent: seq<Sent<M>>, ends: seq<bool>) {
    && |ends| <= |sent| <= |ends| + 1
    && forall i | 0 <= i < |sent| - 1 :: MustKeep(sent[..i + 1], ends[..i + 1]) ==> sent[i + 1].h == sent[i].h
  }

  lemma PinnedByOne<M>(sent: seq<Sent<M>>, x: Sent<M>)
    ensures PinnedBy(sent + [x]) == (PinnedBy(sent) || x.pins)
  {
    if PinnedBy(sent) {
      var i :| 0 <= i < |sent| && sent[i].pins;
      assert (sent + [x])[i] == sent[i];
    }
    if x.pins {
      assert (sent + [x])[|sent|] == x;
    }
  }

  lemma StickySend<M>(sent: seq<Sent<M>>, ends: seq<bool>, x: Sent<M>)
    requires Sticky(sent, ends) && |sent| == |ends|
    requires MustKeep(sent, ends) ==> x.h == sent[|sent| - 1].h
    ensures Sticky(sent + [x], ends)
  {
    var more := sent + [x];
    forall i | 0 <= i < |more| - 1 && MustKeep(more[..i + 1], ends[..i + 1])
      ensures more[i + 1].h == more[i].h
    {
      assert more[..i + 1] == sent[..i + 1];
      if i == |sent| - 1 {
        assert sent[..i + 1] == sent && ends[..i + 1] == ends;
      }
    }
  }

  lemma StickyEnd<M>(sent: seq<Sent<M>>, ends: seq<bool>, end: bool)
    requires Sticky(sent, ends) && |sent| == |ends| + 1
    ensures Sticky(sent, ends + [end])
  {
    var more := ends + [end];
    forall i | 0 <= i < |sent| - 1 && MustKeep(sent[..i + 1], more[..i + 1])
      ensures sent[i + 1].h == sent[i].h
    {
      assert more[..i + 1] == ends[..i + 1];
    }
  }

  /** From a pinning message on, every message goes to the same backend. */
  lemma {:induction false} PinHolds<M>(sent: seq<Sent<M>>, ends: seq<bool>, i: nat, j: nat)
    requires Sticky(sent, ends) && i <= j < |sent| && sent[i].pins
    ensures sent[j].h == sent[i].h
    decreases j
  {
    if i < j {
      PinHolds(sent, ends, i, j - 1);
      assert sent[..j][i] == sent[i];
      assert MustKeep(sent[..j], ends[..j]);
    }
  }
}
