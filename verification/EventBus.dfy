/** The event bus: many callers, some from inside a sink, and one drainer that hands events on in order. */
module EventBuses {
  import opened Wrappers

  datatype Event = Event(content: nat, sequence: nat)

  /** An event with the sink that was set when it was emitted. */
  datatype Pending = Pending(event: Event, sink: Option<nat>)

  datatype Bus = Bus(sequence: nat, sink: Option<nat>, pending: seq<Pending>, dispatching: bool)

  // ----- The locked sections -----

  /** Numbers and queues an event; the caller becomes the drainer if there is none. */
  function Enqueue(b: Bus, content: nat): Bus {
    Bus(b.sequence + 1, b.sink, b.pending + [Pending(Event(content, b.sequence + 1), b.sink)], true)
  }

  /** Takes the next event, or stops dispatching. */
  function Take(b: Bus): (Bus, Option<Pending>) {
    if b.pending == [] then (b.(dispatching := false), None) else (b.(pending := b.pending[1..]), Some(b.pending[0]))
  }

  class EventBus {
    var sequence: nat
    var sink: Option<nat>
    var pending: seq<Pending>
    var dispatching: bool

    constructor ()
      ensures Now() == Bus(0, None, [], false)
    {
      sequence, sink, pending, dispatching := 0, None, [], false;
    }

    function Now(): Bus
      reads this
    {
      Bus(sequence, sink, pending, dispatching)
    }

    method SetSink(s: Option<nat>)
      modifies this
      ensures Now() == old(Now()).(sink := s)
    {
      sink := s;
    }

    /** The first locked section of an emission: true for the caller that has to drain. */
    method Begin(content: nat) returns (drains: bool)
      modifies this
      ensures Now() == Enqueue(old(Now()), content) && drains == !old(dispatching)
    {
      sequence := sequence + 1;
      var event := Event(content, sequence);
      pending := pending + [Pending(event, sink)];
      if dispatching {
        return false;
      }
      dispatching := true;
      return true;
    }

    /** The locked section of the drain loop. */
    method Poll() returns (next: Option<Pending>)
      modifies this
      ensures (Now(), next) == Take(old(Now()))
    {
      if |pending| == 0 {
        pending := [];
        dispatching := false;
        return None;
      }
      next := Some(pending[0]);
      pending := pending[1..];
    }

    /** A whole emission with nobody else about: drains until the queue is empty. */
    method Emit(content: nat) returns (calls: seq<Pending>)
      requires !dispatching && pending == []
      modifies this
      ensures !dispatching && pending == [] && sequence == old(sequence) + 1 && sink == old(sink)
      ensures calls == if sink == None then [] else [Pending(Event(content, sequence), sink)]
    {
      calls := [];
      var drains := Begin(content);
      assert drains;
      while dispatching
        invariant dispatching ==> pending == [] || (pending == [Pending(Event(content, sequence), sink)] && calls == [])
        invariant sequence == old(sequence) + 1 && sink == old(sink)
        invariant pending == [] ==> calls == if sink == None then [] else [Pending(Event(content, sequence), sink)]
        invariant !dispatching ==> pending == []
        decreases dispatching, |pending|
      {
        var next := Poll();
        if next.Some? && next.value.sink.Some? {
          calls := calls + [next.value];
        }
      }
    }
  }

  // ----- Interleaved callers -----

  /** A thread that drains is either about to take the lock or inside a sink. */
  datatype Phase = Draining | Calling(call: Pending)

  /** The bus, the threads inside the drain loop, and what has been emitted, taken, and given to a sink, in order. */
  datatype World = World(bus: Bus, threads: map<nat, Phase>, emitted: seq<Pending>, taken: seq<Pending>, calls: seq<Pending>)

  datatype Action =
    | Emit(thread: nat, content: nat)
    | SetSink(sink: Option<nat>)
    | Poll(thread: nat)
    | Return(thread: nat)

  const START := World(Bus(0, None, [], false), map[], [], [], [])

  /** A thread may emit from outside the loop, or from inside a sink that it is calling. */
  predicate Enabled(w: World, a: Action) {
    match a
    case Emit(t, _) => t !in w.threads || w.threads[t].Calling?
    case SetSink(_) => true
    case Poll(t) => t in w.threads && w.threads[t] == Draining
    case Return(t) => t in w.threads && w.threads[t].Calling?
  }

  function Next(w: World, a: Action): World
    requires Enabled(w, a)
  {
    match a
    case Emit(t, content) =>
      var bus := Enqueue(w.bus, content);
      w.(bus := bus, emitted := w.emitted + [bus.pending[|bus.pending| - 1]],
         threads := if w.bus.dispatching then w.threads else w.threads[t := Draining])
    case SetSink(s) => w.(bus := w.bus.(sink := s))
    case Poll(t) =>
      var (bus, next) := Take(w.bus);
      (match next
       case None => w.(bus := bus, threads := w.threads - {t})
       case Some(p) =>
         w.(bus := bus, taken := w.taken + [p], calls := if p.sink.Some? then w.calls + [p] else w.calls,
            threads := w.threads[t := if p.sink.Some? then Calling(p) else Draining]))
    case Return(t) => w.(threads := w.threads[t := Draining])
  }

  ghost predicate IsRun(w: World, acts: seq<Action>, w': World)
    decreases |acts|
  {
    if acts == [] then w' == w else Enabled(w, acts[0]) && IsRun(Next(w, acts[0]), acts[1..], w')
  }

  function WithSink(ps: seq<Pending>): seq<Pending> {
    if ps == [] then []
    else if ps[|ps| - 1].sink.Some? then WithSink(ps[..|ps| - 1]) + [ps[|ps| - 1]]
    else WithSink(ps[..|ps| - 1])
  }

  ghost predicate InOrder(w: World) {
    && w.taken + w.bus.pending == w.emitted && |w.emitted| == w.bus.sequence
    && (forall i :: 0 <= i < |w.emitted| ==> w.emitted[i].event.sequence == i + 1)
    && w.calls == WithSink(w.taken)
  }

  ghost predicate OneDrainer(w: World) {
    if w.bus.dispatching then exists t :: w.threads.Keys == {t} else w.threads == map[] && w.bus.pending == []
  }

  lemma {:induction false} StepKeepsOrder(w: World, a: Action)
    requires InOrder(w) && OneDrainer(w) && Enabled(w, a)
    ensures InOrder(Next(w, a)) && OneDrainer(Next(w, a))
  {
    var w' := Next(w, a);
    match a
    case Emit(t, content) =>
      if !w.bus.dispatching {
        assert w'.threads.Keys == {t};
      }
    case SetSink(_) =>
    case Poll(t) =>
      assert w.threads.Keys == {t};
      if w.bus.pending == [] {
        assert w'.threads.Keys == {};
      } else {
        assert w'.threads.Keys == {t};
        assert w'.taken[..|w.taken|] == w.taken;
        assert w.bus.pending == [w.bus.pending[0]] + w.bus.pending[1..];
      }
    case Return(t) =>
      assert w'.threads.Keys == {t};
  }

  /** Under any interleaving of concurrent and re-entrant callers: at most one thread drains, an idle bus has an empty
      queue, and events are taken in the order of their numbers, each once, and given to the sink set when emitted. */
  lemma {:induction false} EveryRun(w: World, acts: seq<Action>, w': World)
    requires InOrder(w) && OneDrainer(w) && IsRun(w, acts, w')
    ensures InOrder(w') && OneDrainer(w')
    decreases |acts|
  {
    if acts != [] {
      StepKeepsOrder(w, acts[0]);
      EveryRun(Next(w, acts[0]), acts[1..], w');
    }
  }

  /** A sink may emit: its event waits behind the others with the sink set by then, and the thread goes on calling the sink it is
      in, so no sink is called from inside another call. */
  lemma SinkMayEmit(w: World, t: nat, content: nat)
    requires OneDrainer(w) && t in w.threads && w.threads[t].Calling?
    ensures Enabled(w, Emit(t, content))
    ensures var w' := Next(w, Emit(t, content));
            && w'.threads == w.threads && w'.calls == w.calls && w'.taken == w.taken
            && w'.bus.pending == w.bus.pending + [Pending(Event(content, w.bus.sequence + 1), w.bus.sink)]
  {
  }

  /** What a run emits, told from its actions alone: each event with the next number and the sink that was set last, whether it
      was emitted from inside a sink or not. */
  function Emissions(acts: seq<Action>, sink: Option<nat>, number: nat): seq<Pending> {
    if acts == [] then []
    else match acts[0]
         case Emit(_, content) => [Pending(Event(content, number + 1), sink)] + Emissions(acts[1..], sink, number + 1)
         case SetSink(s) => Emissions(acts[1..], s, number)
         case _ => Emissions(acts[1..], sink, number)
  }

  lemma StepEmits(w: World, a: Action)
    requires InOrder(w) && Enabled(w, a)
    ensures Next(w, a).emitted == if a.Emit? then w.emitted + [Pending(Event(a.content, |w.emitted| + 1), w.bus.sink)] else w.emitted
    ensures Next(w, a).bus.sink == if a.SetSink? then a.sink else w.bus.sink
  {
  }

  lemma {:induction false} EmissionsFollow(w: World, acts: seq<Action>, w': World)
    requires InOrder(w) && OneDrainer(w) && IsRun(w, acts, w')
    ensures w'.emitted == w.emitted + Emissions(acts, w.bus.sink, |w.emitted|)
    decreases |acts|
  {
    if acts == [] {
      assert w.emitted + [] == w.emitted;
    } else {
      StepKeepsOrder(w, acts[0]);
      StepEmits(w, acts[0]);
      EmissionsFollow(Next(w, acts[0]), acts[1..], w');
    }
  }

  /** In every run from the start, what has been taken and what waits are together what the actions emitted, in that order, and
      a bus that nobody drains has given each event to the sink that was set when it was emitted. */
  lemma EveryRunDelivers(acts: seq<Action>, w: World)
    requires IsRun(START, acts, w)
    ensures w.taken + w.bus.pending == Emissions(acts, None, 0)
    ensures !w.bus.dispatching ==> w.calls == WithSink(Emissions(acts, None, 0))
  {
    EveryRun(START, acts, w);
    EmissionsFollow(START, acts, w);
    assert [] + Emissions(acts, None, 0) == Emissions(acts, None, 0);
    if !w.bus.dispatching {
      assert w.taken + [] == w.taken;
    }
  }

  /** Sink calls happen in strictly increasing sequence order. */
  lemma {:induction false} CallsIncrease(acts: seq<Action>, w: World, i: nat, j: nat)
    requires IsRun(START, acts, w) && i < j < |w.calls|
    ensures w.calls[i].event.sequence < w.calls[j].event.sequence
  {
    EveryRun(START, acts, w);
    assert forall k :: 0 <= k < |w.taken| ==> w.taken[k] == w.emitted[k];
    WithSinkIncreases(w.taken, i, j);
  }

  lemma {:induction false} WithSinkIncreases(ps: seq<Pending>, i: nat, j: nat)
    requires forall k, l :: 0 <= k < l < |ps| ==> ps[k].event.sequence < ps[l].event.sequence
    requires i < j < |WithSink(ps)|
    ensures WithSink(ps)[i].event.sequence < WithSink(ps)[j].event.sequence
  {
    var front := ps[..|ps| - 1];
    if j < |WithSink(front)| {
      WithSinkIncreases(front, i, j);
    } else {
      WithSinkIsFrom(front, i);
    }
  }

  lemma {:induction false} WithSinkIsFrom(ps: seq<Pending>, i: nat)
    requires i < |WithSink(ps)|
    ensures exists k :: 0 <= k < |ps| && ps[k] == WithSink(ps)[i]
  {
    var front := ps[..|ps| - 1];
    if i < |WithSink(front)| {
      WithSinkIsFrom(front, i);
      var k :| 0 <= k < |front| && front[k] == WithSink(front)[i];
      assert ps[k] == WithSink(ps)[i];
    }
  }

  /** The events with a sink, all of them. */
  lemma {:induction false} WithSinkIs(ps: seq<Pending>)
    ensures forall p :: p in WithSink(ps) <==> p in ps && p.sink.Some?
    ensures (forall i :: 0 <= i < |ps| ==> ps[i].sink.Some?) ==> WithSink(ps) == ps
  {
    if ps != [] {
      WithSinkIs(ps[..|ps| - 1]);
      assert ps == ps[..|ps| - 1] + [ps[|ps| - 1]];
    }
  }

  /** Left alone, the drainer empties the queue in a bounded number of its own steps: then every emitted event has been
      taken, and each one that had a sink has been given to it once. */
  lemma {:induction false} DrainerFinishes(w: World, t: nat) returns (acts: seq<Action>, w': World)
    requires InOrder(w) && OneDrainer(w) && t in w.threads
    ensures IsRun(w, acts, w') && forall i :: 0 <= i < |acts| ==> acts[i] == Poll(t) || acts[i] == Return(t)
    ensures |acts| <= 2 * |w.bus.pending| + (if w.threads[t].Calling? then 2 else 1)
    ensures !w'.bus.dispatching && w'.emitted == w.emitted && w'.taken == w'.emitted && w'.calls == WithSink(w.emitted)
    decreases |w.bus.pending|, w.threads[t].Calling?
  {
    assert w.threads.Keys == {t};
    var a := if w.threads[t].Calling? then Return(t) else Poll(t);
    var w1 := Next(w, a);
    StepKeepsOrder(w, a);
    if a == Poll(t) && w.bus.pending == [] {
      acts, w' := [a], w1;
      assert acts[1..] == [];
    } else {
      var rest;
      rest, w' := DrainerFinishes(w1, t);
      acts := [a] + rest;
      assert acts[1..] == rest;
    }
  }
}
