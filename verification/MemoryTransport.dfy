/** The in-memory transport: frames queued by many senders, delivered first in first out by one of them. */
module MemoryTransports {
  import opened Wrappers

  datatype Frame = Frame(to: nat, bytes: seq<nat>)

  datatype State = State(queue: seq<Frame>, draining: bool, closed: bool)

  class MemoryTransport {
    var queue: seq<Frame>
    var draining: bool
    var closed: bool

    constructor ()
      ensures Now() == State([], false, false)
    {
      queue, draining, closed := [], false, false;
    }

    function Now(): State
      reads this
    {
      State(queue, draining, closed)
    }

    /** The first locked section of a send: whether the frame was accepted, and whether the sender has to deliver. */
    method Begin(f: Frame) returns (accepted: bool, drains: bool)
      modifies this
      ensures accepted == !old(closed) && drains == (accepted && !old(draining))
      ensures Now() == if accepted then Accept(old(Now()), f) else old(Now())
    {
      if closed {
        return false, false;
      }
      queue := queue + [f];
      if draining {
        return true, false;
      }
      draining := true;
      return true, true;
    }

    /** The locked section of the delivery loop. */
    method Poll() returns (next: Option<Frame>)
      modifies this
      ensures (Now(), next) == Take(old(Now()))
    {
      if |queue| == 0 {
        draining := false;
        return None;
      }
      next := Some(queue[0]);
      queue := queue[1..];
    }

    method Close()
      modifies this
      ensures Now() == old(Now()).(closed := true, queue := [])
    {
      closed := true;
      queue := [];
    }
  }

  function Accept(s: State, f: Frame): State {
    State(s.queue + [f], true, s.closed)
  }

  function Take(s: State): (State, Option<Frame>) {
    if s.queue == [] then (s.(draining := false), None) else (s.(queue := s.queue[1..]), Some(s.queue[0]))
  }

  // ----- Interleaved senders -----

  /** The threads inside the delivery loop, true while delivering a frame. */
  datatype World = World(state: State, threads: map<nat, bool>, accepted: seq<Frame>, delivered: seq<Frame>)

  datatype Action =
    | Send(thread: nat, frame: Frame)
    | Poll(thread: nat)
    | Return(thread: nat)
    | Close

  const START := World(State([], false, false), map[], [], [])

  /** Delivering a frame may send more frames from inside. */
  predicate Enabled(w: World, a: Action) {
    match a
    case Send(t, _) => t !in w.threads || w.threads[t]
    case Poll(t) => t in w.threads && !w.threads[t]
    case Return(t) => t in w.threads && w.threads[t]
    case Close => true
  }

  function Next(w: World, a: Action): World
    requires Enabled(w, a)
  {
    match a
    case Send(t, f) =>
      if w.state.closed then w
      else w.(state := Accept(w.state, f), accepted := w.accepted + [f],
              threads := if w.state.draining then w.threads else w.threads[t := false])
    case Poll(t) =>
      var (state, next) := Take(w.state);
      (match next
       case None => w.(state := state, threads := w.threads - {t})
       case Some(f) => w.(state := state, delivered := w.delivered + [f], threads := w.threads[t := true]))
    case Return(t) => w.(threads := w.threads[t := false])
    case Close => w.(state := w.state.(closed := true, queue := []))
  }

  ghost predicate IsRun(w: World, acts: seq<Action>, w': World)
    decreases |acts|
  {
    if acts == [] then w' == w else Enabled(w, acts[0]) && IsRun(Next(w, acts[0]), acts[1..], w')
  }

  /** One thread delivers; frames leave in the order they were accepted; only closing drops frames. */
  ghost predicate Fifo(w: World) {
    && (if w.state.draining then exists t :: w.threads.Keys == {t} else w.threads == map[] && w.state.queue == [])
    && w.delivered + w.state.queue <= w.accepted
    && (!w.state.closed ==> w.delivered + w.state.queue == w.accepted)
    && (w.state.closed ==> w.state.queue == [])
  }

  lemma {:induction false} StepKeepsFifo(w: World, a: Action)
    requires Fifo(w) && Enabled(w, a)
    ensures Fifo(Next(w, a))
  {
    var w' := Next(w, a);
    match a
    case Send(t, f) =>
      if !w.state.closed {
        assert w'.delivered + w'.state.queue == (w.delivered + w.state.queue) + [f];
        if !w.state.draining {
          assert w'.threads.Keys == {t};
        }
      }
    case Poll(t) =>
      assert w.threads.Keys == {t};
      if w.state.queue == [] {
        assert w'.threads.Keys == {};
      } else {
        assert w'.threads.Keys == {t};
        assert w'.delivered + w'.state.queue == w.delivered + w.state.queue;
      }
    case Return(t) => assert w'.threads.Keys == {t};
    case Close => assert w.delivered <= w.delivered + w.state.queue;
  }

  /** Under any interleaving of senders, re-entrant deliveries and a close: what has been delivered is a prefix of what
      was accepted, so each frame is delivered at most once and in order; if the transport was not closed, all that is
      not delivered is still queued, and an idle transport has delivered everything. */
  lemma {:induction false} EveryRun(w: World, acts: seq<Action>, w': World)
    requires Fifo(w) && IsRun(w, acts, w')
    ensures Fifo(w') && w'.delivered <= w'.accepted
    ensures !w'.state.closed && !w'.state.draining ==> w'.delivered == w'.accepted
    decreases |acts|
  {
    if acts != [] {
      StepKeepsFifo(w, acts[0]);
      EveryRun(Next(w, acts[0]), acts[1..], w');
    }
  }

  /** The frames that a run's actions send before the transport is closed. */
  function Offered(acts: seq<Action>): seq<Frame> {
    if acts == [] then []
    else match acts[0]
         case Send(_, f) => [f] + Offered(acts[1..])
         case Close => []
         case _ => Offered(acts[1..])
  }

  lemma {:induction false} OfferedFollow(w: World, acts: seq<Action>, w': World)
    requires Fifo(w) && IsRun(w, acts, w')
    ensures w'.accepted == w.accepted + if w.state.closed then [] else Offered(acts)
    decreases |acts|
  {
    if acts == [] {
      assert w.accepted + [] == w.accepted;
    } else {
      StepKeepsFifo(w, acts[0]);
      OfferedFollow(Next(w, acts[0]), acts[1..], w');
    }
  }

  /** In every run from the start exactly the frames sent before closing are accepted; they are delivered in that order, each at
      most once, and all of them once nobody is delivering any more, unless the transport was closed. */
  lemma EveryRunAccepts(acts: seq<Action>, w: World)
    requires IsRun(START, acts, w)
    ensures w.accepted == Offered(acts) && w.delivered <= Offered(acts)
    ensures !w.state.closed && !w.state.draining ==> w.delivered == Offered(acts)
  {
    EveryRun(START, acts, w);
    OfferedFollow(START, acts, w);
    assert [] + Offered(acts) == Offered(acts);
  }

  /** After closing nothing more is accepted or delivered, whoever is still in the loop. */
  lemma {:induction false} ClosedIsFinal(w: World, acts: seq<Action>, w': World)
    requires Fifo(w) && w.state.closed && IsRun(w, acts, w')
    ensures w'.accepted == w.accepted && w'.delivered == w.delivered && w'.state.closed
    decreases |acts|
  {
    if acts != [] {
      StepKeepsFifo(w, acts[0]);
      ClosedIsFinal(Next(w, acts[0]), acts[1..], w');
    }
  }

  /** Left alone, the thread in the loop empties the queue in a bounded number of its own steps: all that was waiting has
      then been delivered, and everything accepted if the transport was never closed. */
  lemma {:induction false} DrainerFinishes(w: World, t: nat) returns (acts: seq<Action>, w': World)
    requires Fifo(w) && t in w.threads
    ensures IsRun(w, acts, w') && forall i :: 0 <= i < |acts| ==> acts[i] == Poll(t) || acts[i] == Return(t)
    ensures |acts| <= 2 * |w.state.queue| + (if w.threads[t] then 2 else 1)
    ensures !w'.state.draining && w'.threads == map[] && w'.delivered == w.delivered + w.state.queue
    ensures w'.accepted == w.accepted && (!w.state.closed ==> w'.delivered == w'.accepted)
    decreases |w.state.queue|, w.threads[t]
  {
    assert w.threads.Keys == {t};
    var a := if w.threads[t] then Return(t) else Poll(t);
    var w1 := Next(w, a);
    StepKeepsFifo(w, a);
    if a == Poll(t) && w.state.queue == [] {
      acts, w' := [a], w1;
      assert acts[1..] == [];
    } else {
      var rest;
      rest, w' := DrainerFinishes(w1, t);
      acts := [a] + rest;
      assert acts[1..] == rest;
      assert w1.delivered + w1.state.queue == w.delivered + w.state.queue;
    }
  }
}
