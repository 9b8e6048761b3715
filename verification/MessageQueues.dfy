/** The bounded queue between the stages, and what its capacity check is worth when several
    producers use it at once. */
module MessageQueues {
  import opened Common

  const MAX_QUEUE_BULK_SIZE: nat := 10_000

  datatype Strategy = Undefined | Throttle | Drop

  // ---- One caller ----

  datatype Status = Enqueued | Refused | Blocked

  /** How many of the oldest items a consumer that wants `drain` of them gets. */
  function Taken<T>(contents: seq<T>, drain: nat): nat {
    if drain < |contents| then drain else |contents|
  }

  /** What consumers leave behind while a producer waits: they take `drains[0]`, `drains[1]`,
      ... of the oldest items, until the queue is no longer full or the waiting goes on. */
  function AfterWaiting<T>(contents: seq<T>, max: nat, drains: seq<nat>): (seq<T>, bool)
    decreases |drains|
  {
    if |contents| < max then (contents, true)
    else if drains == [] then (contents, false)
    else AfterWaiting(contents[Taken(contents, drains[0])..], max, drains[1..])
  }

  /** The queue and the outcome of one bulk: refused when full, unless the producer waits. */
  function AfterEnqueue<T>(contents: seq<T>, max: nat, strategy: Strategy, items: seq<T>, drains: seq<nat>)
    : (seq<T>, Status)
  {
    if |contents| < max then (contents + items, Enqueued)
    else if strategy != Throttle then (contents, Refused)
    else
      var (waited, free) := AfterWaiting(contents, max, drains);
      if free then (waited + items, Enqueued) else (waited, Blocked)
  }

  /** Moodycamel's queue is one sequence here; every operation on it is atomic. */
  class MessageQueue<T(0)> {
    const maxSize: nat
    const strategy: Strategy
    var contents: seq<T>
    var dropped: nat
    var throttled: nat

    constructor (maxSize: nat, strategy: Strategy)
      ensures contents == [] && dropped == 0 && throttled == 0
      ensures this.maxSize == maxSize && this.strategy == strategy
    {
      this.maxSize, this.strategy := maxSize, strategy;
      contents, dropped, throttled := [], 0, 0;
    }

    method EnqueueBulk(items: seq<T>, drains: seq<nat>) returns (status: Status)
      modifies this
      ensures (contents, status) == AfterEnqueue(old(contents), maxSize, strategy, items, drains)
      ensures var full := |old(contents)| >= maxSize;
              && dropped == old(dropped) + (if full && strategy == Drop then |items| else 0)
              && throttled == old(throttled) + (if full && strategy == Throttle then |items| else 0)
    {
      if |contents| >= maxSize {
        if strategy == Drop {
          dropped := dropped + |items|;
          return Refused;
        } else if strategy == Throttle {
          throttled := throttled + |items|;
          var i := 0;
          assert drains[0..] == drains;
          while |contents| >= maxSize
            invariant i <= |drains|
            invariant AfterWaiting(contents, maxSize, drains[i..]) == AfterWaiting(old(contents), maxSize, drains)
            invariant dropped == old(dropped) && throttled == old(throttled) + |items|
            decreases |drains| - i
          {
            if i == |drains| {
              return Blocked;
            }
            assert drains[i..][1..] == drains[i + 1..];
            contents := contents[Taken(contents, drains[i])..];
            i := i + 1;
          }
        } else {
          return Refused;
        }
      }
      contents := contents + items;
      return Enqueued;
    }

    /** Fills the front of the buffer with up to `want` of the oldest items. */
    method TryDequeueBulk(buffer: array<T>, want: nat) returns (count: nat)
      modifies this`contents, buffer
      ensures count == Min(Min(want, buffer.Length), |old(contents)|)
      ensures buffer[..count] == old(contents)[..count] && contents == old(contents)[count..]
    {
      count := Min(Min(want, buffer.Length), |contents|);
      for i := 0 to count
        invariant contents == old(contents) && buffer[..i] == contents[..i]
      {
        buffer[i] := contents[i];
        assert buffer[..i + 1] == buffer[..i] + [contents[i]];
      }
      contents := contents[count..];
    }
  }

  // ---- Several producers and consumers ----

  /** A producer is between two calls, waits for room, or was admitted and has not enqueued yet:
      the check and the enqueueing are separate steps. */
  datatype Producer<T> =
    | Idle
    | Waiting(batch: seq<T>)
    | Admitted(batch: seq<T>)

  /** The last three components only keep the history. */
  datatype Shared<T> = Shared(
    contents: multiset<T>,
    producers: seq<Producer<T>>,
    dropped: nat,
    throttled: nat,
    offered: multiset<T>,
    taken: multiset<T>,
    lost: multiset<T>)

  datatype Action<T> =
    | Offer(p: nat, batch: seq<T>)   // a call starts: the first look at the size
    | Poll(p: nat)                   // a waiting producer looks again
    | Put(p: nat)                    // an admitted producer enqueues
    | Take(items: multiset<T>)       // a consumer dequeues

  predicate Enabled<T>(s: Shared<T>, a: Action<T>) {
    match a
    case Offer(p, batch) => p < |s.producers| && s.producers[p].Idle? && |batch| <= MAX_QUEUE_BULK_SIZE
    case Poll(p) => p < |s.producers| && s.producers[p].Waiting?
    case Put(p) => p < |s.producers| && s.producers[p].Admitted?
    case Take(items) => items <= s.contents && |items| <= MAX_QUEUE_BULK_SIZE
  }

  function Do<T>(max: nat, strategy: Strategy, s: Shared<T>, a: Action<T>): Shared<T>
    requires Enabled(s, a)
  {
    match a
    case Offer(p, batch) =>
      var s := s.(offered := s.offered + multiset(batch));
      if |s.contents| < max then s.(producers := s.producers[p := Admitted(batch)])
      else if strategy == Throttle then
        s.(throttled := s.throttled + |batch|, producers := s.producers[p := Waiting(batch)])
      else if strategy == Drop then
        s.(dropped := s.dropped + |batch|, lost := s.lost + multiset(batch))
      else s.(lost := s.lost + multiset(batch))
    case Poll(p) =>
      if |s.contents| < max then s.(producers := s.producers[p := Admitted(s.producers[p].batch)]) else s
    case Put(p) =>
      s.(contents := s.contents + multiset(s.producers[p].batch), producers := s.producers[p := Idle])
    case Take(items) => s.(contents := s.contents - items, taken := s.taken + items)
  }

  predicate Possible<T>(max: nat, strategy: Strategy, s: Shared<T>, acts: seq<Action<T>>)
    decreases |acts|
  {
    acts != [] ==> Enabled(s, acts[0]) && Possible(max, strategy, Do(max, strategy, s, acts[0]), acts[1..])
  }

  function Run<T>(max: nat, strategy: Strategy, s: Shared<T>, acts: seq<Action<T>>): Shared<T>
    requires Possible(max, strategy, s, acts)
    decreases |acts|
  {
    if acts == [] then s else Run(max, strategy, Do(max, strategy, s, acts[0]), acts[1..])
  }

  function Start<T>(producers: nat): Shared<T> {
    Shared(multiset{}, seq(producers, _ => Idle), 0, 0, multiset{}, multiset{}, multiset{})
  }

  /** What a producer has on its way: an admitted batch, or a waiting one if that counts too. */
  function Share<T>(p: Producer<T>, waitingToo: bool): multiset<T> {
    if p.Admitted? || (waitingToo && p.Waiting?) then multiset(p.batch) else multiset{}
  }

  function Shares<T>(waitingToo: bool): Producer<T> -> multiset<T> {
    (p: Producer<T>) => Share(p, waitingToo)
  }

  function InFlight<T>(producers: seq<Producer<T>>, waitingToo: bool): multiset<T> {
    SumOf(producers, Shares(waitingToo))
  }

  lemma InFlightUpdate<T>(producers: seq<Producer<T>>, i: nat, p: Producer<T>, waitingToo: bool)
    requires i < |producers|
    ensures InFlight(producers[i := p], waitingToo) + Share(producers[i], waitingToo) ==
            InFlight(producers, waitingToo) + Share(p, waitingToo)
  {
    SumOfUpdate(producers, Shares(waitingToo), i, p);
  }

  predicate Bulky<T>(producers: seq<Producer<T>>) {
    forall i :: 0 <= i < |producers| && !producers[i].Idle? ==> |producers[i].batch| <= MAX_QUEUE_BULK_SIZE
  }

  lemma {:induction false} InFlightBound<T>(producers: seq<Producer<T>>)
    requires Bulky(producers)
    ensures |InFlight(producers, false)| <= |producers| * MAX_QUEUE_BULK_SIZE
    decreases |producers|
  {
    if producers != [] {
      var n := |producers| - 1;
      assert forall i :: 0 <= i < n ==> producers[..n][i] == producers[i];
      InFlightBound(producers[..n]);
      assert (n + 1) * MAX_QUEUE_BULK_SIZE == n * MAX_QUEUE_BULK_SIZE + MAX_QUEUE_BULK_SIZE;
    }
  }

  /** Everything known about a reachable state. */
  predicate Reachable<T>(max: nat, strategy: Strategy, s: Shared<T>) {
    && |s.producers| > 0
    && Bulky(s.producers)
    && Bounded(max, s)
    && Accounted(s)
    && (strategy == Throttle ==> s.lost == multiset{})
    && s.dropped == (if strategy == Drop then |s.lost| else 0)
  }

  /** What is in the queue, taken, lost or on its way accounts for what was offered. */
  predicate Accounted<T>(s: Shared<T>) {
    s.offered == s.contents + s.taken + s.lost + InFlight(s.producers, true)
  }

  lemma OfferAccounted<T>(max: nat, strategy: Strategy, s: Shared<T>, p: nat, batch: seq<T>)
    requires Accounted(s) && Enabled(s, Offer(p, batch))
    ensures Accounted(Do(max, strategy, s, Offer(p, batch)))
  {
    hide InFlight;
    var s' := Do(max, strategy, s, Offer(p, batch));
    var all, flying, b := s.contents + s.taken + s.lost, InFlight(s.producers, true), multiset(batch);
    if s'.producers == s.producers {
      assert s'.contents + s'.taken + s'.lost == all + b;
      Swap(all, flying, b);
    } else {
      InFlightUpdate(s.producers, p, s'.producers[p], true);
      assert InFlight(s'.producers, true) == InFlight(s'.producers, true) + Share<T>(Idle, true) == flying + b;
      AssociateBags(all, flying, b);
    }
  }

  lemma PutAccounted<T>(max: nat, strategy: Strategy, s: Shared<T>, p: nat)
    requires Accounted(s) && Enabled(s, Put(p))
    ensures Accounted(Do(max, strategy, s, Put(p)))
  {
    hide InFlight;
    var s' := Do(max, strategy, s, Put(p));
    var b := multiset(s.producers[p].batch);
    InFlightUpdate(s.producers, p, Idle, true);
    assert InFlight(s.producers, true) == InFlight(s.producers, true) + Share<T>(Idle, true);
    assert s'.contents + s'.taken + s'.lost == (s.contents + s.taken + s.lost) + b;
    AssociateBags(s.contents + s.taken + s.lost, b, InFlight(s'.producers, true));
    assert b + InFlight(s'.producers, true) == InFlight(s'.producers, true) + b;
  }

  lemma StepAccounted<T>(max: nat, strategy: Strategy, s: Shared<T>, a: Action<T>)
    requires Accounted(s) && Enabled(s, a)
    ensures Accounted(Do(max, strategy, s, a))
  {
    hide InFlight;
    var s' := Do(max, strategy, s, a);
    match a
    case Offer(p, batch) => OfferAccounted(max, strategy, s, p, batch);
    case Poll(p) =>
      InFlightUpdate(s.producers, p, s'.producers[p], true);
      assert s'.producers == s.producers[p := s'.producers[p]];
      Cancel(InFlight(s'.producers, true), multiset(s.producers[p].batch), InFlight(s.producers, true));
    case Put(p) => PutAccounted(max, strategy, s, p);
    case Take(items) =>
      assert s.contents == s'.contents + items;
      assert s'.contents + s'.taken + s'.lost == s.contents + s.taken + s.lost;
  }

  lemma InFlightSize<T>(producers: seq<Producer<T>>, i: nat, p: Producer<T>, waitingToo: bool)
    requires i < |producers|
    ensures |InFlight(producers[i := p], waitingToo)| + |Share(producers[i], waitingToo)| ==
            |InFlight(producers, waitingToo)| + |Share(p, waitingToo)|
  {
    InFlightUpdate(producers, i, p, waitingToo);
    Sizes(InFlight(producers[i := p], waitingToo), Share(producers[i], waitingToo),
          InFlight(producers, waitingToo), Share(p, waitingToo));
  }

  predicate Bounded<T>(max: nat, s: Shared<T>) {
    |s.contents| + |InFlight(s.producers, false)| <= max - 1 + |s.producers| * MAX_QUEUE_BULK_SIZE
  }

  lemma StepBulky<T>(max: nat, strategy: Strategy, s: Shared<T>, a: Action<T>)
    requires Bulky(s.producers) && Enabled(s, a)
    ensures Bulky(Do(max, strategy, s, a).producers)
  {
  }

  lemma StepBounded<T>(max: nat, strategy: Strategy, s: Shared<T>, a: Action<T>)
    requires Bulky(s.producers) && Bounded(max, s) && Enabled(s, a)
    ensures Bounded(max, Do(max, strategy, s, a))
  {
    StepBulky(max, strategy, s, a);
    var s' := Do(max, strategy, s, a);
    hide InFlight, Bulky;
    InFlightBound(s'.producers);
    match a
    case Offer(p, batch) =>
      if s'.producers != s.producers {
        InFlightSize(s.producers, p, s'.producers[p], false);
      }
    case Poll(p) =>
      if s'.producers != s.producers {
        InFlightSize(s.producers, p, s'.producers[p], false);
      }
    case Put(p) =>
      InFlightSize(s.producers, p, Idle, false);
      assert |s'.contents| == |s.contents| + |s.producers[p].batch|;
    case Take(items) =>
      assert |s'.contents| == |s.contents| - |items|;
  }

  lemma StepReachable<T>(max: nat, strategy: Strategy, s: Shared<T>, a: Action<T>)
    requires Reachable(max, strategy, s) && Enabled(s, a)
    ensures Reachable(max, strategy, Do(max, strategy, s, a))
  {
    hide InFlight;
    StepAccounted(max, strategy, s, a);
    StepBounded(max, strategy, s, a);
    StepBulky(max, strategy, s, a);
    hide Accounted, Bulky, Bounded;
    if a.Offer? {
      assert |s.lost + multiset(a.batch)| == |s.lost| + |a.batch|;
    }
  }

  lemma Sizes<T>(a: multiset<T>, b: multiset<T>, c: multiset<T>, d: multiset<T>)
    requires a + b == c + d
    ensures |a| + |b| == |c| + |d|
  {
    assert |a + b| == |a| + |b| && |c + d| == |c| + |d|;
  }

  lemma {:induction false} RunReachable<T>(max: nat, strategy: Strategy, s: Shared<T>, acts: seq<Action<T>>)
    requires Reachable(max, strategy, s) && Possible(max, strategy, s, acts)
    ensures Reachable(max, strategy, Run(max, strategy, s, acts))
    decreases |acts|
  {
    if acts != [] {
      StepReachable(max, strategy, s, acts[0]);
      RunReachable(max, strategy, Do(max, strategy, s, acts[0]), acts[1..]);
    }
  }

  lemma IdleInFlight<T>(producers: seq<Producer<T>>, waitingToo: bool)
    requires forall i :: 0 <= i < |producers| ==> producers[i].Idle?
    ensures InFlight(producers, waitingToo) == multiset{}
  {
    SumOfNothing(producers, Shares(waitingToo));
  }

  lemma StartReachable<T>(max: nat, strategy: Strategy, producers: nat)
    requires producers > 0
    ensures Reachable<T>(max, strategy, Start(producers))
  {
    IdleInFlight<T>(Start<T>(producers).producers, false);
    IdleInFlight<T>(Start<T>(producers).producers, true);
  }

  /** The capacity is only a target. Under every interleaving of P producers and any consumers
      the items in the queue, together with those admitted but not yet enqueued, number at most
      the capacity, less one, plus P bulks; and every item ever offered is in the queue, was
      taken, is on its way, or was refused: never when producers wait, and counted exactly
      when the strategy is to drop. */
  lemma OvershootAndConservation<T>(max: nat, strategy: Strategy, producers: nat, acts: seq<Action<T>>)
    requires producers > 0 && Possible(max, strategy, Start(producers), acts)
    ensures var s := Run(max, strategy, Start(producers), acts);
            && |s.contents| + |InFlight(s.producers, false)| <= max - 1 + producers * MAX_QUEUE_BULK_SIZE
            && s.offered == s.contents + s.taken + s.lost + InFlight(s.producers, true)
            && (strategy == Throttle ==> s.lost == multiset{})
            && s.dropped == (if strategy == Drop then |s.lost| else 0)
  {
    StartReachable<T>(max, strategy, producers);
    RunReachable(max, strategy, Start(producers), acts);
    SameProducers(max, strategy, Start(producers), acts);
  }

  lemma {:induction false} SameProducers<T>(max: nat, strategy: Strategy, s: Shared<T>, acts: seq<Action<T>>)
    requires Possible(max, strategy, s, acts)
    ensures |Run(max, strategy, s, acts).producers| == |s.producers|
    decreases |acts|
  {
    if acts != [] {
      SameProducers(max, strategy, Do(max, strategy, s, acts[0]), acts[1..]);
    }
  }

  // ---- One call is made of these steps ----

  lemma {:induction false} RunAppend<T>(max: nat, strategy: Strategy, s: Shared<T>, a: seq<Action<T>>,
                                        b: seq<Action<T>>)
    requires Possible(max, strategy, s, a) && Possible(max, strategy, Run(max, strategy, s, a), b)
    ensures Possible(max, strategy, s, a + b)
    ensures Run(max, strategy, s, a + b) == Run(max, strategy, Run(max, strategy, s, a), b)
    decreases |a|
  {
    if a == [] {
      assert a + b == b;
    } else {
      assert (a + b)[1..] == a[1..] + b;
      RunAppend(max, strategy, Do(max, strategy, s, a[0]), a[1..], b);
    }
  }

  lemma OneAction<T>(max: nat, strategy: Strategy, s: Shared<T>, a: Action<T>)
    requires Enabled(s, a)
    ensures Possible(max, strategy, s, [a]) && Run(max, strategy, s, [a]) == Do(max, strategy, s, a)
  {
    assert [a][1..] == [];
  }

  lemma TwoActions<T>(max: nat, strategy: Strategy, s: Shared<T>, a: Action<T>, b: Action<T>)
    requires Enabled(s, a) && Enabled(Do(max, strategy, s, a), b)
    ensures Possible(max, strategy, s, [a, b])
    ensures Run(max, strategy, s, [a, b]) == Do(max, strategy, Do(max, strategy, s, a), b)
  {
    OneAction(max, strategy, s, a);
    OneAction(max, strategy, Do(max, strategy, s, a), b);
    RunAppend(max, strategy, s, [a], [b]);
    assert [a] + [b] == [a, b];
  }

  /** What happens while one producer waits: consumers take, until it finds room. */
  function WaitSteps<T>(contents: seq<T>, max: nat, drains: seq<nat>, p: nat): seq<Action<T>>
    decreases |drains|
  {
    if |contents| < max then [Poll(p)]
    else if drains == [] then []
    else
      var n := Taken(contents, drains[0]);
      [Take(multiset(contents[..n]))] + WaitSteps(contents[n..], max, drains[1..], p)
  }

  function CallSteps<T>(contents: seq<T>, max: nat, strategy: Strategy, items: seq<T>, drains: seq<nat>, p: nat)
    : seq<Action<T>>
  {
    if |contents| < max then [Offer(p, items), Put(p)]
    else if strategy != Throttle then [Offer(p, items)]
    else
      var put := if AfterWaiting(contents, max, drains).1 then [Put(p)] else [];
      [Offer(p, items)] + (WaitSteps(contents, max, drains, p) + put)
  }

  predicate SmallDrains(drains: seq<nat>) {
    forall i :: 0 <= i < |drains| ==> drains[i] <= MAX_QUEUE_BULK_SIZE
  }

  /** Only the queue, the producer and what was taken have changed. */
  predicate WaitedTo<T>(s: Shared<T>, p: nat, contents: seq<T>, producer: Producer<T>, s': Shared<T>) {
    && p < |s.producers|
    && s'.contents == multiset(contents) && s'.producers == s.producers[p := producer]
    && (s'.dropped, s'.throttled, s'.offered, s'.lost) == (s.dropped, s.throttled, s.offered, s.lost)
    && s.contents + s.taken == s'.contents + s'.taken
  }

  lemma TakeStep<T>(max: nat, strategy: Strategy, s: Shared<T>, contents: seq<T>, n: nat)
    requires s.contents == multiset(contents) && n <= |contents| && n <= MAX_QUEUE_BULK_SIZE
    ensures Enabled(s, Take(multiset(contents[..n])))
    ensures var s' := Do(max, strategy, s, Take(multiset(contents[..n])));
            s'.contents == multiset(contents[n..]) && s.contents + s.taken == s'.contents + s'.taken
  {
    assert contents == contents[..n] + contents[n..];
  }

  lemma {:induction false} WaitIsSteps<T>(max: nat, strategy: Strategy, s: Shared<T>, contents: seq<T>,
                                          drains: seq<nat>, p: nat)
    requires p < |s.producers| && s.producers[p].Waiting? && s.contents == multiset(contents) && SmallDrains(drains)
    ensures var steps, batch := WaitSteps(contents, max, drains, p), s.producers[p].batch;
            var (waited, free) := AfterWaiting(contents, max, drains);
            && Possible(max, strategy, s, steps)
            && WaitedTo(s, p, waited, if free then Admitted(batch) else Waiting(batch), Run(max, strategy, s, steps))
    decreases |drains|
  {
    if |contents| < max {
      OneAction(max, strategy, s, Poll(p));
    } else if drains != [] {
      var n := Taken(contents, drains[0]);
      var take := Take(multiset(contents[..n]));
      TakeStep(max, strategy, s, contents, n);
      var next := Do(max, strategy, s, take);
      WaitIsSteps(max, strategy, next, contents[n..], drains[1..], p);
      assert WaitSteps(contents, max, drains, p)[1..] == WaitSteps(contents[n..], max, drains[1..], p);
    }
  }

  /** What a call does to the shared queue. */
  predicate Called<T>(max: nat, strategy: Strategy, s: Shared<T>, p: nat, contents: seq<T>, items: seq<T>,
                      after: seq<T>, status: Status, s': Shared<T>) {
    && p < |s.producers|
    && s'.contents == multiset(after)
    && s'.producers == s.producers[p := if status == Blocked then Waiting(items) else Idle]
    && s'.dropped - s.dropped == (if |contents| >= max && strategy == Drop then |items| else 0)
    && s'.throttled - s.throttled == (if |contents| >= max && strategy == Throttle then |items| else 0)
    && s'.lost == s.lost + (if status == Refused then multiset(items) else multiset{})
  }

  /** A waiting producer that was offered its items, and then enqueues them or waits on. */
  lemma WaitingCallIsSteps<T>(max: nat, s: Shared<T>, contents: seq<T>, items: seq<T>, drains: seq<nat>, p: nat)
    requires p < |s.producers| && s.producers[p].Idle? && s.contents == multiset(contents)
    requires |items| <= MAX_QUEUE_BULK_SIZE && SmallDrains(drains) && |contents| >= max
    ensures var steps, (after, status) := CallSteps(contents, max, Throttle, items, drains, p)[1..],
                                          AfterEnqueue(contents, max, Throttle, items, drains);
            var s1 := Do(max, Throttle, s, Offer(p, items));
            Possible(max, Throttle, s1, steps) &&
            Called(max, Throttle, s, p, contents, items, after, status, Run(max, Throttle, s1, steps))
  {
    hide Possible, Run, WaitSteps, AfterWaiting, Enabled;
    assert Enabled(s, Offer(p, items)) by { OfferEnabled(s, p, items); }
    var s1 := Do(max, Throttle, s, Offer(p, items));
    WaitIsSteps(max, Throttle, s1, contents, drains, p);
    var wait := WaitSteps(contents, max, drains, p);
    var s2 := Run(max, Throttle, s1, wait);
    var (waited, free) := AfterWaiting(contents, max, drains);
    if free {
      PutEnabled(s2, p);
      OneAction(max, Throttle, s2, Put(p));
      RunAppend(max, Throttle, s1, wait, [Put(p)]);
      assert s2.producers[p].batch == items;
      assert multiset(waited) + multiset(items) == multiset(waited + items);
    } else {
      assert wait + [] == wait;
    }
  }

  lemma OfferEnabled<T>(s: Shared<T>, p: nat, items: seq<T>)
    requires p < |s.producers| && s.producers[p].Idle? && |items| <= MAX_QUEUE_BULK_SIZE
    ensures Enabled(s, Offer(p, items))
  {
  }

  lemma PutEnabled<T>(s: Shared<T>, p: nat)
    requires p < |s.producers| && s.producers[p].Admitted?
    ensures Enabled(s, Put(p))
  {
  }

  /** A producer that finds room, or is refused. */
  lemma PromptCallIsSteps<T>(max: nat, strategy: Strategy, s: Shared<T>, contents: seq<T>,
                             items: seq<T>, drains: seq<nat>, p: nat)
    requires p < |s.producers| && s.producers[p].Idle? && s.contents == multiset(contents)
    requires |items| <= MAX_QUEUE_BULK_SIZE && (|contents| < max || strategy != Throttle)
    ensures var steps, (after, status) := CallSteps(contents, max, strategy, items, drains, p),
                                          AfterEnqueue(contents, max, strategy, items, drains);
            Possible(max, strategy, s, steps) &&
            Called(max, strategy, s, p, contents, items, after, status, Run(max, strategy, s, steps))
  {
    assert |contents| < max ==>
        CallSteps(contents, max, strategy, items, drains, p) == [Offer(p, items), Put(p)] &&
        AfterEnqueue(contents, max, strategy, items, drains) == (contents + items, Enqueued);
    assert |contents| >= max ==>
        CallSteps(contents, max, strategy, items, drains, p) == [Offer(p, items)] &&
        AfterEnqueue(contents, max, strategy, items, drains) == (contents, Refused);
    hide *;
    OfferEnabled(s, p, items);
    if |contents| < max {
      RoomyCall(max, strategy, s, contents, items, p);
      TwoActions(max, strategy, s, Offer(p, items), Put(p));
    } else {
      RefusedCall(max, strategy, s, contents, items, p);
      OneAction(max, strategy, s, Offer(p, items));
    }
  }

  lemma RefusedCall<T>(max: nat, strategy: Strategy, s: Shared<T>, contents: seq<T>, items: seq<T>, p: nat)
    requires p < |s.producers| && s.producers[p].Idle? && s.contents == multiset(contents)
    requires |contents| >= max && strategy != Throttle && Enabled(s, Offer(p, items))
    ensures Called(max, strategy, s, p, contents, items, contents, Refused, Do(max, strategy, s, Offer(p, items)))
  {
  }

  lemma RoomyCall<T>(max: nat, strategy: Strategy, s: Shared<T>, contents: seq<T>, items: seq<T>, p: nat)
    requires p < |s.producers| && s.producers[p].Idle? && s.contents == multiset(contents) && |contents| < max
    requires Enabled(s, Offer(p, items))
    ensures var s1 := Do(max, strategy, s, Offer(p, items));
            Enabled(s1, Put(p)) &&
            Called(max, strategy, s, p, contents, items, contents + items, Enqueued, Do(max, strategy, s1, Put(p)))
  {
    var s1 := Do(max, strategy, s, Offer(p, items));
    assert s1.producers[p].batch == items;
    assert s1.producers[p := Idle] == s.producers[p := Idle];
    assert multiset(contents) + multiset(items) == multiset(contents + items);
  }

  lemma OneAhead<T>(max: nat, strategy: Strategy, s: Shared<T>, acts: seq<Action<T>>)
    requires acts != [] && Enabled(s, acts[0]) && Possible(max, strategy, Do(max, strategy, s, acts[0]), acts[1..])
    ensures Possible(max, strategy, s, acts)
    ensures Run(max, strategy, s, acts) == Run(max, strategy, Do(max, strategy, s, acts[0]), acts[1..])
  {
  }

  /** Refinement: one call to the queue, with the consumers it waits for, is a run of the
      shared queue: the same contents and the same counters, and a producer that is idle
      again unless it still waits. */
  lemma CallIsSteps<T>(max: nat, strategy: Strategy, s: Shared<T>, contents: seq<T>, items: seq<T>, drains: seq<nat>,
                       p: nat)
    requires p < |s.producers| && s.producers[p].Idle? && s.contents == multiset(contents)
    requires |items| <= MAX_QUEUE_BULK_SIZE && SmallDrains(drains)
    ensures var steps, (after, status) := CallSteps(contents, max, strategy, items, drains, p),
                                          AfterEnqueue(contents, max, strategy, items, drains);
            Possible(max, strategy, s, steps) &&
            Called(max, strategy, s, p, contents, items, after, status, Run(max, strategy, s, steps))
  {
    hide Called, AfterEnqueue, Do, WaitSteps, AfterWaiting;
    if |contents| < max || strategy != Throttle {
      PromptCallIsSteps(max, strategy, s, contents, items, drains, p);
    } else {
      var steps := CallSteps(contents, max, strategy, items, drains, p);
      OfferEnabled(s, p, items);
      WaitingCallIsSteps(max, s, contents, items, drains, p);
      OneAhead(max, strategy, s, steps);
    }
  }

  // ---- The bound is reached ----

  predicate AllIdle<T>(s: Shared<T>) {
    forall i :: 0 <= i < |s.producers| ==> s.producers[i].Idle?
  }

  /** One producer brings the queue up to any length not above the capacity. */
  lemma {:induction false} FillTo<T>(max: nat, strategy: Strategy, s: Shared<T>, x: T, n: nat)
      returns (acts: seq<Action<T>>)
    requires |s.producers| > 0 && AllIdle(s) && |s.contents| <= n <= max
    ensures Possible(max, strategy, s, acts)
    ensures var s' := Run(max, strategy, s, acts);
            AllIdle(s') && |s'.contents| == n && |s'.producers| == |s.producers|
    decreases n - |s.contents|
  {
    if |s.contents| == n {
      acts := [];
    } else {
      TwoActions(max, strategy, s, Offer(0, [x]), Put(0));
      var next := Do(max, strategy, Do(max, strategy, s, Offer(0, [x])), Put(0));
      assert |next.contents| == |s.contents| + 1;
      var rest := FillTo(max, strategy, next, x, n);
      RunAppend(max, strategy, s, [Offer(0, [x]), Put(0)], rest);
      acts := [Offer(0, [x]), Put(0)] + rest;
    }
  }

  function Bulk<T>(x: T): (r: seq<T>)
    ensures |r| == MAX_QUEUE_BULK_SIZE
  {
    seq(MAX_QUEUE_BULK_SIZE, _ => x)
  }

  /** The first producers are admitted with a bulk each, the others are idle. */
  predicate AdmittedTo<T>(s: Shared<T>, x: T, i: nat) {
    forall j :: 0 <= j < |s.producers| ==> s.producers[j] == if j < i then Admitted(Bulk(x)) else Idle
  }

  /** All producers look at the size before any of them enqueues. */
  lemma {:induction false} AdmitAll<T>(max: nat, strategy: Strategy, s: Shared<T>, x: T, i: nat)
      returns (acts: seq<Action<T>>)
    requires i <= |s.producers| && AdmittedTo(s, x, i) && |s.contents| < max
    ensures Possible(max, strategy, s, acts)
    ensures var s' := Run(max, strategy, s, acts);
            AdmittedTo(s', x, |s.producers|) && s'.contents == s.contents && |s'.producers| == |s.producers|
    decreases |s.producers| - i
  {
    if i == |s.producers| {
      acts := [];
    } else {
      var a := Offer(i, Bulk(x));
      OneAction(max, strategy, s, a);
      var rest := AdmitAll(max, strategy, Do(max, strategy, s, a), x, i + 1);
      RunAppend(max, strategy, s, [a], rest);
      acts := [a] + rest;
    }
  }

  /** Then all of them enqueue, the last one first. */
  lemma {:induction false} PutAll<T>(max: nat, strategy: Strategy, s: Shared<T>, x: T, i: nat)
      returns (acts: seq<Action<T>>)
    requires i <= |s.producers| && AdmittedTo(s, x, i)
    ensures Possible(max, strategy, s, acts)
    ensures |Run(max, strategy, s, acts).contents| == |s.contents| + i * MAX_QUEUE_BULK_SIZE
    decreases i
  {
    if i == 0 {
      acts := [];
    } else {
      var a: Action<T> := Put(i - 1);
      OneAction(max, strategy, s, a);
      var next := Do(max, strategy, s, a);
      assert |next.contents| == |s.contents| + MAX_QUEUE_BULK_SIZE;
      var rest := PutAll(max, strategy, next, x, i - 1);
      RunAppend(max, strategy, s, [a], rest);
      assert i * MAX_QUEUE_BULK_SIZE == (i - 1) * MAX_QUEUE_BULK_SIZE + MAX_QUEUE_BULK_SIZE;
      acts := [a] + rest;
    }
  }

  /** The bound is exact: for every capacity and every number of producers some interleaving
      fills the queue that far, whatever the strategy. */
  lemma OvershootReached<T>(max: nat, strategy: Strategy, producers: nat, x: T) returns (acts: seq<Action<T>>)
    requires max > 0 && producers > 0
    ensures Possible(max, strategy, Start(producers), acts)
    ensures |Run(max, strategy, Start(producers), acts).contents| == max - 1 + producers * MAX_QUEUE_BULK_SIZE
  {
    var s0 := Start<T>(producers);
    var fill := FillTo(max, strategy, s0, x, max - 1);
    var s1 := Run(max, strategy, s0, fill);
    var admit := AdmitAll(max, strategy, s1, x, 0);
    var s2 := Run(max, strategy, s1, admit);
    var put := PutAll(max, strategy, s2, x, producers);
    RunAppend(max, strategy, s1, admit, put);
    RunAppend(max, strategy, s0, fill, admit + put);
    acts := fill + (admit + put);
  }
}
