/** The asynchronous extraction stage: bounded parallelism, a bounded drop-oldest queue, and drain waiters. */
module ExtractionStage {
  import opened MemoryTypes

  datatype Fate = Started | Dropped

  /** The events of one fate, in arrival order. */
  ghost function Picked<T>(events: seq<T>, fates: seq<Fate>, fate: Fate): seq<T>
    requires |fates| <= |events|
  {
    if fates == [] then []
    else
      var n := |fates| - 1;
      Picked(events, fates[..n], fate) + if fates[n] == fate then [events[n]] else []
  }

  lemma {:induction false} PickedCounts<T>(events: seq<T>, fates: seq<Fate>)
    requires |fates| <= |events|
    ensures |Picked(events, fates, Started)| + |Picked(events, fates, Dropped)| == |fates|
  {
    if fates == [] {
    } else {
      PickedCounts(events, fates[..|fates| - 1]);
    }
  }

  lemma {:induction false} PickedMore<T>(events: seq<T>, more: seq<T>, fates: seq<Fate>, fate: Fate)
    requires |fates| <= |events| <= |more| && more[..|events|] == events
    ensures Picked(more, fates, fate) == Picked(events, fates, fate)
  {
    if fates == [] {
    } else {
      var n := |fates| - 1;
      PickedMore(events, more, fates[..n], fate);
      assert more[n] == more[..|events|][n];
    }
  }

  lemma PickedSnoc<T>(events: seq<T>, fates: seq<Fate>, last: Fate, fate: Fate)
    requires |fates| < |events|
    ensures Picked(events, fates + [last], fate) ==
              Picked(events, fates, fate) + if last == fate then [events[|fates|]] else []
  {
    assert (fates + [last])[..|fates + [last]| - 1] == fates;
  }

  /** Two events of one fate keep their arrival order: the later in the log, the later enqueued. */
  lemma {:induction false} PickedInOrder<T>(events: seq<T>, fates: seq<Fate>, fate: Fate, k: nat) returns (i: nat)
    requires |fates| <= |events| && k < |Picked(events, fates, fate)|
    ensures i < |fates| && fates[i] == fate && events[i] == Picked(events, fates, fate)[k]
    ensures k == |Picked(events, fates[..i], fate)|
  {
    var n := |fates| - 1;
    var before := Picked(events, fates[..n], fate);
    if k < |before| {
      i := PickedInOrder(events, fates[..n], fate, k);
      assert fates[..n][..i] == fates[..i];
    } else {
      i := n;
    }
  }

  datatype Action<T> = Arrive(event: T) | SettleOne | AskDrain | GiveUp(waiter: nat)

  /** What arrived, what became of it in order of arrival, and how many extractions are under way. */
  datatype Trace<T> = Trace(enqueued: seq<T>, fates: seq<Fate>, active: nat)

  /** One action with at most one decision on each side: the oldest waiting event is dropped, the oldest started. */
  ghost function Traced<T>(t: Trace<T>, concurrency: nat, queueDepth: nat, action: Action<T>): Trace<T> {
    match action
    case Arrive(event) =>
      var enqueued := t.enqueued + [event];
      if t.active < concurrency then Trace(enqueued, t.fates + [Started], t.active + 1)
      else if |t.enqueued| - |t.fates| >= queueDepth then Trace(enqueued, t.fates + [Dropped], t.active)
      else Trace(enqueued, t.fates, t.active)
    case SettleOne =>
      if t.active == 0 then t
      else if |t.enqueued| > |t.fates| then Trace(t.enqueued, t.fates + [Started], t.active)
      else Trace(t.enqueued, t.fates, t.active - 1)
    case _ => t
  }

  ghost function TracedAll<T>(t: Trace<T>, concurrency: nat, queueDepth: nat, actions: seq<Action<T>>): Trace<T> {
    if actions == [] then t
    else
      var n := |actions| - 1;
      Traced(TracedAll(t, concurrency, queueDepth, actions[..n]), concurrency, queueDepth, actions[n])
  }

  ghost function Arrivals<T>(actions: seq<Action<T>>): seq<T> {
    if actions == [] then []
    else
      var n := |actions| - 1;
      Arrivals(actions[..n]) + if actions[n].Arrive? then [actions[n].event] else []
  }

  lemma {:induction false} TraceArrivals<T>(t: Trace<T>, concurrency: nat, queueDepth: nat, actions: seq<Action<T>>)
    ensures TracedAll(t, concurrency, queueDepth, actions).enqueued == t.enqueued + Arrivals(actions)
  {
    if actions == [] {
    } else {
      TraceArrivals(t, concurrency, queueDepth, actions[..|actions| - 1]);
    }
  }

  datatype Waiting = Resolved | Pending(waiter: nat)

  class Stage<T(==)> {
    const concurrency: nat
    const queueDepth: nat
    var active: nat
    var queue: seq<T>
    var drainResolvers: seq<nat>
    var nextWaiter: nat
    ghost var enqueued: seq<T>
    ghost var fates: seq<Fate>
    ghost var started: seq<T>
    ghost var dropped: seq<T>
    ghost var finished: nat

    ghost predicate Idle()
      reads this`active, this`queue
    {
      active == 0 && queue == []
    }

    /** What the loops keep even while a slot is being refilled. */
    ghost predicate Booked()
      reads this
    {
      && concurrency >= 1 && queueDepth >= 1
      && active <= concurrency && |queue| <= queueDepth
      // First come, first decided: the queue is the undecided rest of what arrived.
      && |fates| + |queue| == |enqueued| && queue == enqueued[|fates|..]
      && started == Picked(enqueued, fates, Started) && dropped == Picked(enqueued, fates, Dropped)
      && active + finished == |started|
    }

    ghost predicate Valid()
      reads this
    {
      && Booked()
      && (queue != [] ==> active == concurrency)
      && (drainResolvers != [] ==> !Idle())
      && (forall w :: w in drainResolvers ==> w < nextWaiter)
      && (forall i, j :: 0 <= i < j < |drainResolvers| ==> drainResolvers[i] != drainResolvers[j])
    }

    constructor (concurrency: nat, queueDepth: nat)
      requires concurrency >= 1 && queueDepth >= 1
      ensures Valid() && Idle() && enqueued == [] && this.concurrency == concurrency && this.queueDepth == queueDepth
    {
      this.concurrency, this.queueDepth := concurrency, queueDepth;
      active, queue, drainResolvers, nextWaiter := 0, [], [], 0;
      enqueued, fates, started, dropped, finished := [], [], [], [], 0;
    }

    ghost function Now(): Trace<T>
      reads this`enqueued, this`fates, this`active
    {
      Trace(enqueued, fates, active)
    }

    /** Nothing is lost: every event that arrived was started, dropped or is still queued. */
    lemma Conservation()
      requires Valid()
      ensures |enqueued| == |started| + |queue| + |dropped|
    {
      PickedCounts(enqueued, fates);
    }

    method TryRunNext()
      requires Booked()
      modifies this`active, this`queue, this`fates, this`started
      ensures Booked() && (queue != [] ==> active == concurrency)
      ensures active >= old(active) && old(started) <= started && old(fates) <= fates
      ensures active + |queue| == old(active) + |old(queue)|
      ensures old(active) < concurrency && old(queue) != [] ==> active > old(active)
      ensures |fates| >= |old(fates)| && forall k :: |old(fates)| <= k < |fates| ==> fates[k] == Started
    {
      while active < concurrency && |queue| > 0
        invariant Booked()
        invariant active >= old(active) && old(started) <= started && old(fates) <= fates
        invariant active + |queue| == old(active) + |old(queue)|
        invariant |fates| >= |old(fates)| && forall k :: |old(fates)| <= k < |fates| ==> fates[k] == Started
        decreases |queue|
      {
        Decide(Started);
        active, started := active + 1, started + [queue[0]];
        queue, fates := queue[1..], fates + [Started];
      }
    }

    lemma Decide(fate: Fate)
      requires Booked() && queue != []
      ensures Picked(enqueued, fates + [fate], Started) == started + if fate == Started then [queue[0]] else []
      ensures Picked(enqueued, fates + [fate], Dropped) == dropped + if fate == Dropped then [queue[0]] else []
      ensures enqueued[|fates| + 1..] == queue[1..]
    {
      PickedSnoc(enqueued, fates, fate, Started);
      PickedSnoc(enqueued, fates, fate, Dropped);
      assert queue[0] == enqueued[|fates|];
    }

    /** A full queue drops its oldest event, never the new one. */
    method DropOldest()
      requires Booked() && |queue| >= queueDepth
      modifies this`queue, this`fates, this`dropped
      ensures Booked() && queue == old(queue)[1..] && dropped == old(dropped) + [old(queue)[0]]
      ensures fates == old(fates) + [Dropped]
    {
      Decide(Dropped);
      dropped := dropped + [queue[0]];
      queue, fates := queue[1..], fates + [Dropped];
    }

    method Push(event: T)
      requires Booked() && |queue| < queueDepth
      modifies this`queue, this`enqueued
      ensures Booked() && queue == old(queue) + [event] && enqueued == old(enqueued) + [event]
    {
      PickedMore(enqueued, enqueued + [event], fates, Started);
      PickedMore(enqueued, enqueued + [event], fates, Dropped);
      enqueued, queue := enqueued + [event], queue + [event];
    }

    method Enqueue(event: T)
      requires Valid()
      modifies this`active, this`queue, this`enqueued, this`fates, this`started, this`dropped
      ensures Valid() && !Idle() && Now() == Traced(old(Now()), concurrency, queueDepth, Arrive(event))
      ensures dropped == if |old(queue)| >= queueDepth then old(dropped) + [old(queue)[0]] else old(dropped)
      ensures old(active) < concurrency ==> started == old(started) + [event]
    {
      hide Picked;
      if |queue| >= queueDepth { DropOldest(); }
      Push(event);
      TryRunNext();
      if old(active) < concurrency {
        StartedIsNew(old(started), old(enqueued), event);
        assert fates == old(fates) + [Started];
      }
    }

    /** With a free slot the queue was empty, so the event just pushed is the one started. */
    lemma StartedIsNew(before: seq<T>, earlier: seq<T>, event: T)
      requires Booked() && before <= started && |started| == |before| + 1 && queue == []
      requires enqueued == earlier + [event] && |fates| == |enqueued|
      requires fates != [] && fates[|fates| - 1] == Started
      ensures started == before + [event]
    {
    }

    /** One extraction settles, either way: its slot is refilled and, if nothing is left, every waiter is woken. */
    method Settle() returns (woken: seq<nat>)
      requires Valid() && active > 0
      modifies this
      ensures Valid() && Now() == Traced(old(Now()), concurrency, queueDepth, SettleOne)
      ensures enqueued == old(enqueued) && dropped == old(dropped) && finished == old(finished) + 1
      ensures active + |queue| == old(active) + |old(queue)| - 1
      ensures woken == if Idle() then old(drainResolvers) else []
      ensures drainResolvers == if Idle() then [] else old(drainResolvers)
    {
      hide Picked;
      active, finished := active - 1, finished + 1;
      TryRunNext();
      woken := [];
      if active == 0 && |queue| == 0 {
        woken := drainResolvers;
        drainResolvers := [];
      }
    }

    method Drain() returns (waiting: Waiting)
      requires Valid()
      modifies this`drainResolvers, this`nextWaiter
      ensures Valid()
      ensures waiting.Resolved? <==> Idle()
      ensures waiting.Pending? ==> drainResolvers == old(drainResolvers) + [waiting.waiter]
      ensures waiting.Resolved? ==> drainResolvers == old(drainResolvers)
    {
      if active == 0 && |queue| == 0 { return Resolved; }
      forall i | 0 <= i < |drainResolvers| ensures drainResolvers[i] != nextWaiter {
        assert drainResolvers[i] in drainResolvers;
      }
      waiting := Pending(nextWaiter);
      drainResolvers := drainResolvers + [nextWaiter];
      nextWaiter := nextWaiter + 1;
    }

    /** A waiter's own timeout removes just that waiter. */
    method TimeOut(waiter: nat)
      requires Valid()
      modifies this`drainResolvers
      ensures Valid()
      ensures forall w :: w in drainResolvers <==> w in old(drainResolvers) && w != waiter
    {
      ghost var before := drainResolvers;
      var kept: seq<nat> := [];
      var i := 0;
      while i < |drainResolvers|
        invariant 0 <= i <= |drainResolvers| && drainResolvers == before
        invariant forall w :: w in kept <==> w in drainResolvers[..i] && w != waiter
        invariant forall a, b :: 0 <= a < b < |kept| ==> kept[a] != kept[b]
      {
        assert drainResolvers[..i + 1] == drainResolvers[..i] + [drainResolvers[i]];
        forall a | 0 <= a < |kept| ensures kept[a] != drainResolvers[i] {
          assert kept[a] in drainResolvers[..i];
        }
        if drainResolvers[i] != waiter { kept := kept + [drainResolvers[i]]; }
        i := i + 1;
      }
      assert drainResolvers[..i] == drainResolvers;
      assert kept != [] ==> kept[0] in drainResolvers;
      drainResolvers := kept;
    }
  }

  /** No wake-up is lost: after exactly the outstanding number of settlements every waiter has been woken. */
  method SettleAll<T(==)>(stage: Stage<T>) returns (settled: nat, woken: seq<nat>)
    requires stage.Valid()
    modifies stage
    ensures stage.Valid() && stage.Idle() && stage.drainResolvers == []
    ensures settled == old(stage.active) + |old(stage.queue)|
    ensures woken == old(stage.drainResolvers)
    ensures stage.enqueued == old(stage.enqueued) && |stage.started| == stage.finished
  {
    settled, woken := 0, [];
    while stage.active > 0
      invariant stage.Valid() && stage.enqueued == old(stage.enqueued)
      invariant settled + stage.active + |stage.queue| == old(stage.active) + |old(stage.queue)|
      invariant woken + stage.drainResolvers == old(stage.drainResolvers)
      decreases stage.active + |stage.queue|
    {
      var more := stage.Settle();
      woken := woken + more;
      settled := settled + 1;
    }
  }

  method Step<T(==)>(stage: Stage<T>, action: Action<T>)
    requires stage.Valid()
    modifies stage
    ensures stage.Valid() && stage.Now() == Traced(old(stage.Now()), stage.concurrency, stage.queueDepth, action)
  {
    hide Picked;
    match action {
      case Arrive(event) => stage.Enqueue(event);
      case SettleOne => if stage.active > 0 { var _ := stage.Settle(); }
      case AskDrain => var _ := stage.Drain();
      case GiveUp(waiter) => stage.TimeOut(waiter);
    }
  }

  /**
   * Any schedule ends in the state the trace of its actions gives: the queue is the undecided rest of what arrived,
   * and what was started and dropped are the events of those fates.
   */
  method RunSchedule<T(==)>(stage: Stage<T>, actions: seq<Action<T>>)
    requires stage.Valid()
    modifies stage
    ensures stage.Valid()
    ensures stage.Now() == TracedAll(old(stage.Now()), stage.concurrency, stage.queueDepth, actions)
    ensures stage.enqueued == old(stage.enqueued) + Arrivals(actions)
    ensures stage.queue == stage.enqueued[|stage.fates|..]
    ensures stage.started == Picked(stage.enqueued, stage.fates, Started)
    ensures stage.dropped == Picked(stage.enqueued, stage.fates, Dropped)
    ensures stage.active <= stage.concurrency && |stage.queue| <= stage.queueDepth
    ensures |stage.enqueued| == |stage.started| + |stage.queue| + |stage.dropped|
  {
    hide Traced, Arrivals, Picked;
    var i := 0;
    while i < |actions|
      invariant 0 <= i <= |actions| && stage.Valid()
      invariant stage.Now() == TracedAll(old(stage.Now()), stage.concurrency, stage.queueDepth, actions[..i])
    {
      assert actions[..i + 1][..i] == actions[..i];
      Step(stage, actions[i]);
      i := i + 1;
    }
    assert actions[..i] == actions;
    TraceArrivals(old(stage.Now()), stage.concurrency, stage.queueDepth, actions);
    stage.Conservation();
  }
}
