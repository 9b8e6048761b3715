/** What the reassembly of chunked GELF messages guarantees over whole runs. */
module GelfReassembly {
  import opened Common
  import opened GelfChunks

  datatype Event =
    | Arrive(chunk: Chunk, now: nat)
    | Sweep(now: nat)

  function Step(ttl: nat, s: State, e: Event): State {
    match e
    case Arrive(c, now) => Handle(s, c, now)
    case Sweep(now) => Swept(ttl, s, now)
  }

  function Run(ttl: nat, s: State, events: seq<Event>): State
    decreases |events|
  {
    if events == [] then s else Run(ttl, Step(ttl, s, events[0]), events[1..])
  }

  const EMPTY := State(map[], [], 0, 0, 0)

  // ---- The reassembly map ----

  /** An entry holds chunks of its own message only, numbered below its size, and is
      incomplete; a message of one chunk is the exception. */
  predicate Wellformed(id: Bytes, e: Entry) {
    && e.size <= MAX_COUNT
    && e.chunks != map[]
    && (forall k :: k in e.chunks ==>
          k < e.size && e.chunks[k].id == id && e.chunks[k].count == e.size && e.chunks[k].number == k)
    && (|e.chunks| < e.size || e.size == 1)
  }

  predicate Valid(s: State) {
    && (forall id :: id in s.live ==> Wellformed(id, s.live[id]))
    && s.created == s.completed + s.bad + |s.live|
    && |s.out| == s.completed
  }

  /** The numbers below n. */
  function Below(n: nat): (r: set<nat>)
    ensures |r| == n && forall k :: k in r <==> 0 <= k < n
  {
    if n == 0 then {} else Below(n - 1) + {n - 1}
  }

  lemma {:induction false} SubsetSize<T>(a: set<T>, b: set<T>)
    requires a <= b
    ensures |a| <= |b|
    ensures |a| == |b| ==> a == b
    decreases b
  {
    if a != {} {
      var x :| x in a;
      SubsetSize(a - {x}, b - {x});
      assert a == a - {x} + {x} && b == b - {x} + {x};
    }
  }

  /** As many chunks as the size, all numbered below it, are one chunk for every number. */
  lemma Pigeonhole(chunks: map<nat, Chunk>, size: nat)
    requires forall k :: k in chunks ==> k < size
    ensures |chunks| <= size
    ensures |chunks| == size <==> chunks.Keys == Below(size)
  {
    assert chunks.Keys <= Below(size);
    SubsetSize(chunks.Keys, Below(size));
    assert |chunks| == |chunks.Keys|;
  }

  lemma ArrivalWellformed(entry: Option<Entry>, c: Chunk, now: nat)
    requires entry.Some? ==> Wellformed(c.id, entry.value)
    ensures var after := Arrival(entry, c, now).0; after.Some? ==> Wellformed(c.id, after.value)
  {
    if entry.Some? {
      var e := entry.value;
      var chunks := e.chunks[c.number := c];
      if c.number < c.count == e.size {
        Pigeonhole(chunks, e.size);
        assert c.number in chunks;
      }
    } else {
      var one := map[c.number := c];
      assert c.number in one;
      assert one.Keys == {c.number};
      assert |one| == |one.Keys|;
    }
  }

  /** An arrival creates an entry, completes one, or does neither. */
  lemma ArrivalCounts(entry: Option<Entry>, c: Chunk, now: nat)
    ensures var (after, done) := Arrival(entry, c, now);
            if done.Some? then entry.Some? && after.None? else entry.Some? ==> after.Some?
  {
  }

  lemma HandleValid(s: State, c: Chunk, now: nat)
    requires Valid(s)
    ensures Valid(Handle(s, c, now))
  {
    var before := Lookup(s.live, c.id);
    var after := Arrival(before, c, now).0;
    ArrivalWellformed(before, c, now);
    ArrivalCounts(before, c, now);
    hide Arrival, Wellformed;
    PutSize(s.live, c.id, after);
  }

  lemma PutSize(live: map<Bytes, Entry>, id: Bytes, after: Option<Entry>)
    ensures |Put(live, id, after)| == |live| - (if id in live then 1 else 0) + (if after.Some? then 1 else 0)
  {
    var live' := Put(live, id, after);
    assert live'.Keys == if after.Some? then live.Keys + {id} else live.Keys - {id};
    assert |live| == |live.Keys| && |live'| == |live'.Keys|;
  }

  lemma SweptValid(ttl: nat, s: State, now: nat)
    requires Valid(s)
    ensures Valid(Swept(ttl, s, now))
  {
    var gone := ExpiredIds(ttl, s.live, now);
    assert (s.live - gone).Keys == s.live.Keys - gone;
    assert |s.live - gone| == |(s.live - gone).Keys| && |s.live| == |s.live.Keys|;
  }

  lemma StepValid(ttl: nat, s: State, e: Event)
    requires Valid(s)
    ensures Valid(Step(ttl, s, e))
  {
    hide Valid, Handle, Swept;
    match e
    case Arrive(c, now) => HandleValid(s, c, now);
    case Sweep(now) => SweptValid(ttl, s, now);
  }

  /** In every reachable state every entry is well formed, and every entry ever created was
      completed, counted as bad, or is still live. */
  lemma {:induction false} RunValid(ttl: nat, s: State, events: seq<Event>)
    requires Valid(s)
    ensures Valid(Run(ttl, s, events))
    decreases events
  {
    hide Valid, Step;
    if events != [] {
      StepValid(ttl, s, events[0]);
      RunValid(ttl, Step(ttl, s, events[0]), events[1..]);
    }
  }

  lemma {:induction false} RunAppend(ttl: nat, s: State, a: seq<Event>, b: seq<Event>)
    ensures Run(ttl, s, a + b) == Run(ttl, Run(ttl, s, a), b)
    decreases |a|
  {
    if a == [] {
      assert a + b == b;
    } else {
      assert (a + b)[1..] == a[1..] + b;
      RunAppend(ttl, Step(ttl, s, a[0]), a[1..], b);
    }
  }

  lemma SweepRemovesExactlyExpired(ttl: nat, s: State, now: nat)
    ensures var s' := Swept(ttl, s, now);
            && (forall id :: id in s'.live <==> id in s.live && Seconds(s.live[id], now) < ttl)
            && (forall id :: id in s'.live ==> s'.live[id] == s.live[id])
            && s'.bad - s.bad == |s.live| - |s'.live|
  {
    var gone := ExpiredIds(ttl, s.live, now);
    assert (s.live - gone).Keys == s.live.Keys - gone;
    assert |s.live - gone| == |(s.live - gone).Keys| && |s.live| == |s.live.Keys|;
  }

  /** Accounting over every run from the start: entries created were completed, counted as bad
      or are live; and right after a sweep the live ones are exactly those younger than the
      limit, in whole seconds, unchanged, while the count of bad ones grew by all others. */
  lemma Accounting(ttl: nat, events: seq<Event>, now: nat)
    ensures var s, s' := Run(ttl, EMPTY, events), Run(ttl, EMPTY, events + [Sweep(now)]);
            && s.created == |s.out| + s.bad + |s.live|
            && s'.created == |s'.out| + s'.bad + |s'.live|
            && (forall id :: id in s'.live <==> id in s.live && Seconds(s.live[id], now) < ttl)
            && (forall id :: id in s'.live ==> s'.live[id] == s.live[id])
            && s'.bad - s.bad == |s.live| - |s'.live|
  {
    assert Valid(EMPTY) by { assert |EMPTY.live| == 0; }
    RunValid(ttl, EMPTY, events);
    RunValid(ttl, EMPTY, events + [Sweep(now)]);
    RunAppend(ttl, EMPTY, events, [Sweep(now)]);
    assert [Sweep(now)][1..] == [];
    SweepRemovesExactlyExpired(ttl, Run(ttl, EMPTY, events), now);
    hide Swept, Wellformed;
  }

  // ---- Isolation ----

  /** What concerns one message id: its entry and what was emitted under it. */
  datatype Own = Own(entry: Option<Entry>, out: seq<Emitted>)

  function EmittedAs(out: seq<Emitted>, id: Bytes): seq<Emitted> {
    if out == [] then []
    else if out[|out| - 1].id == id then EmittedAs(out[..|out| - 1], id) + [out[|out| - 1]]
    else EmittedAs(out[..|out| - 1], id)
  }

  function OwnOf(s: State, id: Bytes): Own {
    Own(Lookup(s.live, id), EmittedAs(s.out, id))
  }

  function OwnStep(ttl: nat, o: Own, e: Event): Own {
    match e
    case Arrive(c, now) =>
      var (after, done) := Arrival(o.entry, c, now);
      Own(after, if done.Some? then o.out + [done.value] else o.out)
    case Sweep(now) =>
      if o.entry.Some? && Expired(ttl, o.entry.value, now) then o.(entry := None) else o
  }

  function OwnRun(ttl: nat, o: Own, events: seq<Event>): Own
    decreases |events|
  {
    if events == [] then o else OwnRun(ttl, OwnStep(ttl, o, events[0]), events[1..])
  }

  /** The chunks of one message id, and the sweeps. */
  function Relevant(events: seq<Event>, id: Bytes): seq<Event> {
    if events == [] then []
    else if events[0].Sweep? || events[0].chunk.id == id then [events[0]] + Relevant(events[1..], id)
    else Relevant(events[1..], id)
  }

  lemma EmittedAsAppend(out: seq<Emitted>, e: Emitted, id: Bytes)
    ensures EmittedAs(out + [e], id) == if e.id == id then EmittedAs(out, id) + [e] else EmittedAs(out, id)
  {
    assert (out + [e])[..|out|] == out;
  }

  lemma HandleOwn(ttl: nat, s: State, c: Chunk, now: nat, id: Bytes)
    ensures OwnOf(Handle(s, c, now), id) ==
            if c.id == id then OwnStep(ttl, OwnOf(s, id), Arrive(c, now)) else OwnOf(s, id)
  {
    var done := Arrival(Lookup(s.live, c.id), c, now).1;
    if done.Some? {
      EmittedAsAppend(s.out, done.value, id);
    }
  }

  /** Isolation: whatever else arrives, the fate of a message id depends only on its own
      chunks and on the sweeps. */
  lemma {:induction false} Isolation(ttl: nat, s: State, events: seq<Event>, id: Bytes)
    ensures OwnOf(Run(ttl, s, events), id) == OwnRun(ttl, OwnOf(s, id), Relevant(events, id))
    decreases events
  {
    if events != [] {
      var e, next := events[0], Step(ttl, s, events[0]);
      Isolation(ttl, next, events[1..], id);
      if e.Sweep? {
        assert OwnOf(next, id) == OwnStep(ttl, OwnOf(s, id), e);
      } else {
        HandleOwn(ttl, s, e.chunk, e.now, id);
      }
      if e.Sweep? || e.chunk.id == id {
        assert Relevant(events, id)[1..] == Relevant(events[1..], id);
      }
    }
  }

  // ---- Round trip ----

  /** The event is a sweep, or brings one of the pieces. */
  predicate Brings(id: Bytes, pieces: seq<Bytes>, e: Event) {
    e.Arrive? ==>
      && e.chunk.id == id && e.chunk.count == |pieces|
      && e.chunk.number < |pieces| && e.chunk.data == pieces[e.chunk.number]
  }

  predicate AllBring(id: Bytes, pieces: seq<Bytes>, events: seq<Event>) {
    forall i :: 0 <= i < |events| ==> Brings(id, pieces, events[i])
  }

  function Numbers(events: seq<Event>): set<nat> {
    if events == [] then {}
    else (if events[0].Arrive? then {events[0].chunk.number} else {}) + Numbers(events[1..])
  }

  /** Every sweep that follows the first chunk comes less than `ttl` whole seconds after it. */
  predicate Prompt(ttl: nat, events: seq<Event>, first: Option<nat>) {
    events != [] ==>
      match events[0]
      case Arrive(_, now) => Prompt(ttl, events[1..], if first.Some? then first else Some(now))
      case Sweep(now) =>
        && (first.Some? ==> (if now < first.value then 0 else (now - first.value) / NANOSECONDS) < ttl)
        && Prompt(ttl, events[1..], first)
  }

  /** The entry holds exactly the pieces with the given numbers. */
  predicate Holds(e: Entry, pieces: seq<Bytes>, numbers: set<nat>) {
    && e.size == |pieces|
    && e.chunks.Keys == numbers
    && forall k :: k in e.chunks ==> k < |pieces| && e.chunks[k].data == pieces[k]
  }

  predicate Collected(o: Own, pieces: seq<Bytes>, numbers: set<nat>, first: Option<nat>) {
    match o.entry
    case None => numbers == {} && first.None?
    case Some(e) => numbers != {} && Holds(e, pieces, numbers) && first == Some(e.time)
  }

  lemma {:induction false} JoinedPieces(chunks: map<nat, Chunk>, pieces: seq<Bytes>, to: nat)
    requires to <= |pieces|
    requires forall k :: 0 <= k < to ==> k in chunks && chunks[k].data == pieces[k]
    ensures Joined(chunks, to) == Concat(pieces[..to])
  {
    if to > 0 {
      JoinedPieces(chunks, pieces, to - 1);
      assert pieces[..to] == pieces[..to - 1] + [pieces[to - 1]];
      ConcatOne(pieces[..to - 1], pieces[to - 1]);
    }
  }

  /** One more piece that does not complete the message is kept; the one that does, emits it. */
  lemma PieceArrives(o: Own, id: Bytes, pieces: seq<Bytes>, c: Chunk, now: nat, numbers: set<nat>, first: Option<nat>)
    requires 2 <= |pieces| <= MAX_COUNT && Brings(id, pieces, Arrive(c, now)) && Collected(o, pieces, numbers, first)
    requires numbers < Below(|pieces|)
    ensures var (after, done) := Arrival(o.entry, c, now);
            if numbers + {c.number} == Below(|pieces|)
            then after == None && done.Some? && done.value.id == id && done.value.payload == Concat(pieces)
            else done == None &&
                 Collected(Own(after, o.out), pieces, numbers + {c.number}, if first.Some? then first else Some(now))
  {
    match o.entry
    case None =>
      var one := map[c.number := c];
      assert one.Keys == {c.number} == numbers + {c.number};
      assert |numbers + {c.number}| == 1;
    case Some(e) =>
      var chunks := e.chunks[c.number := c];
      assert chunks.Keys == numbers + {c.number};
      Pigeonhole(chunks, |pieces|);
      if chunks.Keys == Below(|pieces|) {
        JoinedPieces(chunks, pieces, |pieces|);
        assert pieces[..|pieces|] == pieces;
      }
  }

  lemma NotSwept(ttl: nat, o: Own, pieces: seq<Bytes>, now: nat, numbers: set<nat>, first: Option<nat>)
    requires Collected(o, pieces, numbers, first) && Prompt(ttl, [Sweep(now)], first)
    ensures OwnStep(ttl, o, Sweep(now)) == o
  {
  }

  /** Nothing is emitted, and the entry holds what came, as long as a piece is missing. */
  lemma {:induction false} CollectedSoFar(ttl: nat, o: Own, id: Bytes, pieces: seq<Bytes>, events: seq<Event>,
                                          numbers: set<nat>, first: Option<nat>) returns (first': Option<nat>)
    requires 2 <= |pieces| <= MAX_COUNT && AllBring(id, pieces, events) && Prompt(ttl, events, first)
    requires Collected(o, pieces, numbers, first) && numbers <= Below(|pieces|)
    requires numbers + Numbers(events) != Below(|pieces|)
    ensures numbers + Numbers(events) < Below(|pieces|)
    ensures var o' := OwnRun(ttl, o, events);
            o'.out == o.out && Collected(o', pieces, numbers + Numbers(events), first')
    decreases |events|
  {
    if events == [] {
      first' := first;
      assert numbers + Numbers(events) == numbers;
    } else {
      hide Arrival, Holds, NANOSECONDS, Collected, Below, AllBring, Brings;
      var e, rest := events[0], events[1..];
      AllBringRest(id, pieces, events);
      if e.Arrive? {
        var more := numbers + {e.chunk.number};
        assert more + Numbers(rest) == numbers + Numbers(events);
        NumbersBelow(id, pieces, rest);
        BeforeLast(numbers, e.chunk.number, Numbers(rest), Below(|pieces|));
        PieceArrives(o, id, pieces, e.chunk, e.now, numbers, first);
        var start := if first.Some? then first else Some(e.now);
        first' := CollectedSoFar(ttl, OwnStep(ttl, o, e), id, pieces, rest, more, start);
      } else {
        assert Numbers(events) == Numbers(rest);
        NotSwept(ttl, o, pieces, e.now, numbers, first);
        first' := CollectedSoFar(ttl, o, id, pieces, rest, numbers, first);
      }
    }
  }

  lemma BeforeLast(numbers: set<nat>, k: nat, rest: set<nat>, all: set<nat>)
    requires numbers <= all && rest <= all && numbers + {k} + rest != all && k in all
    ensures numbers < all && numbers + {k} < all
  {
  }

  lemma AllBringRest(id: Bytes, pieces: seq<Bytes>, events: seq<Event>)
    requires events != [] && AllBring(id, pieces, events)
    ensures AllBring(id, pieces, events[1..]) && Brings(id, pieces, events[0])
    ensures events[0].Arrive? ==> events[0].chunk.number in Below(|pieces|)
  {
    assert forall i :: 0 <= i < |events| - 1 ==> events[1..][i] == events[i + 1];
  }

  lemma {:induction false} NumbersBelow(id: Bytes, pieces: seq<Bytes>, events: seq<Event>)
    requires AllBring(id, pieces, events)
    ensures Numbers(events) <= Below(|pieces|)
    decreases events
  {
    if events != [] {
      assert Brings(id, pieces, events[0]);
      assert forall i :: 0 <= i < |events| - 1 ==> events[1..][i] == events[i + 1];
      NumbersBelow(id, pieces, events[1..]);
    }
  }

  lemma {:induction false} OwnRunAppend(ttl: nat, o: Own, a: seq<Event>, b: seq<Event>)
    ensures OwnRun(ttl, o, a + b) == OwnRun(ttl, OwnRun(ttl, o, a), b)
    decreases a
  {
    if a == [] {
      assert a + b == b;
    } else {
      assert (a + b)[1..] == a[1..] + b;
      OwnRunAppend(ttl, OwnStep(ttl, o, a[0]), a[1..], b);
    }
  }

  /** The chunk brings the last missing one of 2 to 128 pieces, and no sweep came too late. */
  predicate Completes(ttl: nat, id: Bytes, pieces: seq<Bytes>, own: seq<Event>, c: Chunk, now: nat) {
    && 2 <= |pieces| <= MAX_COUNT
    && AllBring(id, pieces, own) && Prompt(ttl, own, None) && Brings(id, pieces, Arrive(c, now))
    && Numbers(own) != Below(|pieces|) && Numbers(own) + {c.number} == Below(|pieces|)
  }

  /** Reassembly: pieces arriving in any order, with any duplicates, are emitted as the
      original, exactly once, by the chunk that brings the last missing piece. */
  lemma OwnReassembled(ttl: nat, out: seq<Emitted>, id: Bytes, pieces: seq<Bytes>, events: seq<Event>, c: Chunk,
                       now: nat)
    requires Completes(ttl, id, pieces, events, c, now)
    ensures exists m: Emitted :: m.id == id && m.payload == Concat(pieces)
                        && OwnRun(ttl, Own(None, out), events + [Arrive(c, now)]) == Own(None, out + [m])
  {
    assert {} + Numbers(events) == Numbers(events);
    var first := CollectedSoFar(ttl, Own(None, out), id, pieces, events, {}, None);
    var o := OwnRun(ttl, Own(None, out), events);
    PieceArrives(o, id, pieces, c, now, Numbers(events), first);
    OwnRunAppend(ttl, Own(None, out), events, [Arrive(c, now)]);
    var m := Arrival(o.entry, c, now).1.value;
    assert OwnRun(ttl, o, [Arrive(c, now)]) == Own(None, out + [m]) by {
      assert [Arrive(c, now)][1..] == [];
    }
  }

  /** The same among chunks of any other messages: only the chunks of this id and the sweeps
      are looked at, and nothing else is emitted under the id. */
  lemma Reassembled(ttl: nat, s: State, events: seq<Event>, id: Bytes, pieces: seq<Bytes>, own: seq<Event>, c: Chunk,
                    now: nat)
    requires id !in s.live && Relevant(events, id) == own + [Arrive(c, now)]
    requires Completes(ttl, id, pieces, own, c, now)
    ensures var s' := Run(ttl, s, events);
            id !in s'.live &&
            exists m: Emitted :: m.id == id && m.payload == Concat(pieces)
                        && EmittedAs(s'.out, id) == EmittedAs(s.out, id) + [m]
  {
    Isolation(ttl, s, events, id);
    OwnReassembled(ttl, EmittedAs(s.out, id), id, pieces, own, c, now);
    assert OwnOf(s, id) == Own(None, EmittedAs(s.out, id));
  }
}
