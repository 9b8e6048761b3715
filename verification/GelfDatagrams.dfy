/** Chunked GELF messages from the datagrams that are sent to the messages that come out. */
module GelfDatagrams {
  import opened Common
  import opened GelfChunks
  import opened GelfReassembly

  /** The datagrams of a message, sent in the given order of their numbers. */
  function Datagrams(id: Bytes, pieces: seq<Bytes>, order: seq<nat>): seq<Bytes>
    requires |pieces| < 256 && forall i :: 0 <= i < |order| ==> order[i] < |pieces|
  {
    if order == [] then []
    else [EncodeChunk(id, order[0], |pieces|, pieces[order[0]])] + Datagrams(id, pieces, order[1..])
  }

  /** The chunks that get through, all received at the same time. */
  function Arrivals(datagrams: seq<Bytes>, source: nat, now: nat): seq<Event> {
    if datagrams == [] then []
    else match Receive(Truncated(datagrams[0]), source)
      case Part(c) => [Arrive(c, now)] + Arrivals(datagrams[1..], source, now)
      case _ => Arrivals(datagrams[1..], source, now)
  }

  /** What fits into the buffer behind a chunk header. */
  const MAX_PIECE: nat := DATAGRAM_BUFFER - 12

  function Fitted(piece: Bytes): Bytes {
    piece[..Min(MAX_PIECE, |piece|)]
  }

  function FittedAll(pieces: seq<Bytes>): (r: seq<Bytes>)
    ensures |r| == |pieces|
  {
    seq(|pieces|, i requires 0 <= i < |pieces| => Fitted(pieces[i]))
  }

  predicate AllFit(pieces: seq<Bytes>) {
    forall k :: 0 <= k < |pieces| ==> 0 < |pieces[k]| <= MAX_PIECE
  }

  /** A chunk that is too long for the buffer is the chunk of a cut piece. */
  lemma TruncatedChunk(id: Bytes, number: byte, count: byte, piece: Bytes)
    requires |id| == 8
    ensures Truncated(EncodeChunk(id, number, count, piece)) == EncodeChunk(id, number, count, Fitted(piece))
  {
  }

  /** Cutting pieces is noticed exactly when one of them does not fit. */
  lemma {:induction false} ConcatFitted(pieces: seq<Bytes>)
    ensures |Concat(FittedAll(pieces))| <= |Concat(pieces)|
    ensures Concat(FittedAll(pieces)) == Concat(pieces) <==> forall k :: 0 <= k < |pieces| ==> |pieces[k]| <= MAX_PIECE
    decreases |pieces|
  {
    if pieces != [] {
      var rest := pieces[1..];
      ConcatFitted(rest);
      assert FittedAll(pieces)[1..] == FittedAll(rest);
      assert forall k :: 0 <= k < |rest| ==> rest[k] == pieces[k + 1];
      assert |Concat(FittedAll(pieces))| == |Fitted(pieces[0])| + |Concat(FittedAll(rest))|;
      if forall k :: 0 <= k < |pieces| ==> |pieces[k]| <= MAX_PIECE {
        assert Fitted(pieces[0]) == pieces[0];
      } else if |pieces[0]| <= MAX_PIECE {
        assert exists k :: 0 <= k < |rest| && |rest[k]| > MAX_PIECE;
        SameFirst(Concat(FittedAll(rest)), Concat(rest), pieces[0]);
      }
    }
  }

  lemma SameFirst(a: Bytes, b: Bytes, first: Bytes)
    requires a != b
    ensures first + a != first + b
  {
    assert a == (first + a)[|first|..] && b == (first + b)[|first|..];
  }

  lemma ReceivedChunk(id: Bytes, number: byte, count: byte, piece: Bytes, source: nat)
    requires |id| == 8
    ensures Receive(Truncated(EncodeChunk(id, number, count, piece)), source) ==
            if piece == [] then Refused
            else Part(Chunk(id, SignExtended(number), SignExtended(count), Fitted(piece), source))
  {
    TruncatedChunk(id, number, count, piece);
    var d := EncodeChunk(id, number, count, Fitted(piece));
    if piece != [] {
      assert d[2..10] == id;
      assert d[12..] == Fitted(piece);
      assert d[10] == number && d[11] == count;
    }
  }

  /** Up to 127 pieces, what arrives are the non-empty pieces. */
  lemma {:induction false} PiecesArrive(id: Bytes, pieces: seq<Bytes>, order: seq<nat>, source: nat, now: nat)
    requires |id| == 8 && |pieces| < 128 && forall i :: 0 <= i < |order| ==> order[i] < |pieces|
    ensures var events := Arrivals(Datagrams(id, pieces, order), source, now);
            && AllBring(id, FittedAll(pieces), events)
            && Numbers(events) == (set k | k in order && pieces[k] != [])
            && Relevant(events, id) == events
            && (forall i :: 0 <= i < |events| ==> events[i].Arrive?)
            && ((forall k :: k in order ==> pieces[k] != []) ==> |events| == |order|)
  {
    if order != [] {
      var k := order[0];
      ReceivedChunk(id, k, |pieces|, pieces[k], source);
      PiecesArrive(id, pieces, order[1..], source, now);
      assert Datagrams(id, pieces, order)[1..] == Datagrams(id, pieces, order[1..]);
      var events := Arrivals(Datagrams(id, pieces, order), source, now);
      var rest := Arrivals(Datagrams(id, pieces, order[1..]), source, now);
      assert order == [order[0]] + order[1..];
      if pieces[k] != [] {
        assert events == [Arrive(Chunk(id, k, |pieces|, Fitted(pieces[k]), source), now)] + rest;
      } else {
        assert events == rest;
      }
    }
  }

  /** From 128 pieces on, every chunk's count is out of range. */
  lemma {:induction false} TooManyPieces(ttl: nat, s: State, id: Bytes, pieces: seq<Bytes>, order: seq<nat>,
                                         source: nat, now: nat)
    requires |id| == 8 && 128 <= |pieces| < 256 && forall i :: 0 <= i < |order| ==> order[i] < |pieces|
    ensures Run(ttl, s, Arrivals(Datagrams(id, pieces, order), source, now)).out == s.out
    decreases order
  {
    if order != [] {
      var k := order[0];
      ReceivedChunk(id, k, |pieces|, pieces[k], source);
      assert Datagrams(id, pieces, order)[1..] == Datagrams(id, pieces, order[1..]);
      var rest := Arrivals(Datagrams(id, pieces, order[1..]), source, now);
      if pieces[k] == [] {
        TooManyPieces(ttl, s, id, pieces, order[1..], source, now);
      } else {
        var c := Chunk(id, SignExtended(k), SignExtended(|pieces|), Fitted(pieces[k]), source);
        assert ([Arrive(c, now)] + rest)[1..] == rest;
        assert Arrival(Lookup(s.live, id), c, now).1 == None;
        TooManyPieces(ttl, Handle(s, c, now), id, pieces, order[1..], source, now);
      }
    }
  }

  predicate Permutation(order: seq<nat>, n: nat) {
    && |order| == n
    && (forall i :: 0 <= i < n ==> order[i] < n)
    && (forall i, j :: 0 <= i < j < n ==> order[i] != order[j])
  }

  predicate EmitsExactly(s: State, id: Bytes, payload: Bytes) {
    |s.out| == 1 && s.out[0].id == id && s.out[0].payload == payload
  }

  function Elements(order: seq<nat>): set<nat> {
    set k | k in order
  }

  lemma {:induction false} DistinctElements(order: seq<nat>)
    requires forall i, j :: 0 <= i < j < |order| ==> order[i] != order[j]
    ensures |Elements(order)| == |order|
  {
    if order == [] {
      assert Elements(order) == {};
    } else {
      DistinctElements(order[1..]);
      assert order == [order[0]] + order[1..];
      assert Elements(order) == Elements(order[1..]) + {order[0]};
    }
  }

  lemma PermutationElements(order: seq<nat>, n: nat)
    requires Permutation(order, n)
    ensures Elements(order) == Below(n)
  {
    DistinctElements(order);
    assert Elements(order) <= Below(n);
    SubsetSize(Elements(order), Below(n));
  }

  lemma {:induction false} ArrivalsSplit(id: Bytes, pieces: seq<Bytes>, a: seq<nat>, b: seq<nat>, source: nat, now: nat)
    requires |pieces| < 256
    requires (forall i :: 0 <= i < |a| ==> a[i] < |pieces|) && (forall i :: 0 <= i < |b| ==> b[i] < |pieces|)
    ensures Arrivals(Datagrams(id, pieces, a + b), source, now) ==
            Arrivals(Datagrams(id, pieces, a), source, now) + Arrivals(Datagrams(id, pieces, b), source, now)
    decreases a
  {
    if a == [] {
      assert a + b == b;
    } else {
      hide Receive, EncodeChunk;
      assert (a + b)[1..] == a[1..] + b;
      ArrivalsSplit(id, pieces, a[1..], b, source, now);
      assert Datagrams(id, pieces, a)[1..] == Datagrams(id, pieces, a[1..]);
      assert Datagrams(id, pieces, a + b)[1..] == Datagrams(id, pieces, (a + b)[1..]);
    }
  }

  lemma {:induction false} PromptWithoutSweeps(ttl: nat, events: seq<Event>, first: Option<nat>)
    requires forall i :: 0 <= i < |events| ==> events[i].Arrive?
    ensures Prompt(ttl, events, first)
    decreases events
  {
    if events != [] {
      PromptWithoutSweeps(ttl, events[1..], if first.Some? then first else Some(events[0].now));
    }
  }

  /** All but the last chunk of a permutation, and the last. */
  lemma AllButLast(order: seq<nat>, n: nat)
    requires 0 < n && Permutation(order, n)
    ensures order == order[..n - 1] + [order[n - 1]]
    ensures Elements(order[..n - 1]) == Below(n) - {order[n - 1]}
  {
    PermutationElements(order, n);
    NotAmongFirst(order, n);
    hide Below, Permutation;
    var a, last := order[..n - 1], order[n - 1];
    assert order == a + [last];
    ElementsAppend(a, last);
    AddedOnce(Elements(a), last);
  }

  lemma NotAmongFirst(order: seq<nat>, n: nat)
    requires 0 < n && Permutation(order, n)
    ensures order[n - 1] !in Elements(order[..n - 1])
  {
  }

  lemma AddedOnce(a: set<nat>, x: nat)
    requires x !in a
    ensures a == (a + {x}) - {x}
  {
  }

  lemma ElementsAppend(a: seq<nat>, x: nat)
    ensures Elements(a + [x]) == Elements(a) + {x}
  {
  }

  lemma SentReceived(ttl: nat, id: Bytes, pieces: seq<Bytes>, order: seq<nat>, source: nat, now: nat)
    requires |id| == 8 && 2 <= |pieces| <= 127 && Permutation(order, |pieces|)
    requires forall k :: 0 <= k < |pieces| ==> pieces[k] != []
    ensures EmitsExactly(Run(ttl, EMPTY, Arrivals(Datagrams(id, pieces, order), source, now)), id,
                         Concat(FittedAll(pieces)))
  {
    hide Datagrams, Arrivals, Numbers, Relevant, Prompt, Run, Below, Joined, Fitted;
    var n, last := |pieces|, order[|pieces| - 1];
    var a := order[..n - 1];
    AllButLast(order, n);
    ArrivalsSplit(id, pieces, a, [last], source, now);
    PiecesArrive(id, pieces, a, source, now);
    PiecesArrive(id, pieces, order, source, now);
    var own := Arrivals(Datagrams(id, pieces, a), source, now);
    var events := Arrivals(Datagrams(id, pieces, order), source, now);
    LastArrival(id, pieces, last, source, now);
    PromptWithoutSweeps(ttl, own, None);
    assert Numbers(own) == Elements(a);
    var c := Chunk(id, last, n, Fitted(pieces[last]), source);
    Reassembled(ttl, EMPTY, events, id, FittedAll(pieces), own, c, now);
    OnlyItsOwn(ttl, EMPTY, events, id);
  }

  lemma LastArrival(id: Bytes, pieces: seq<Bytes>, last: nat, source: nat, now: nat)
    requires |id| == 8 && |pieces| <= 127 && last < |pieces| && pieces[last] != []
    ensures Arrivals(Datagrams(id, pieces, [last]), source, now) ==
            [Arrive(Chunk(id, last, |pieces|, Fitted(pieces[last]), source), now)]
  {
    ReceivedChunk(id, last, |pieces|, pieces[last], source);
    assert [last][1..] == [];
    var ds := Datagrams(id, pieces, [last]);
    assert ds == [EncodeChunk(id, last, |pieces|, pieces[last])] && ds[1..] == [];
    assert Arrivals([], source, now) == [];
  }

  /** When only one id arrives, everything emitted is under it. */
  lemma {:induction false} OnlyItsOwn(ttl: nat, s: State, events: seq<Event>, id: Bytes)
    requires Relevant(events, id) == events && EmittedAs(s.out, id) == s.out
    ensures EmittedAs(Run(ttl, s, events).out, id) == Run(ttl, s, events).out
    decreases events
  {
    if events != [] {
      var e, next := events[0], Step(ttl, s, events[0]);
      RelevantShorter(events[1..], id);
      assert e.Sweep? || e.chunk.id == id;
      assert Relevant(events, id)[1..] == Relevant(events[1..], id);
      if e.Arrive? {
        HandleOwn(ttl, s, e.chunk, e.now, id);
      }
      OnlyItsOwn(ttl, next, events[1..], id);
    }
  }

  lemma {:induction false} RelevantShorter(events: seq<Event>, id: Bytes)
    ensures |Relevant(events, id)| <= |events|
    decreases events
  {
    if events != [] {
      RelevantShorter(events[1..], id);
    }
  }

  /** A message with an empty piece never completes: that chunk is refused on arrival. */
  lemma MissingPiece(ttl: nat, id: Bytes, pieces: seq<Bytes>, order: seq<nat>, source: nat, now: nat, k: nat)
    requires |id| == 8 && 2 <= |pieces| <= 127 && Permutation(order, |pieces|) && k < |pieces| && pieces[k] == []
    ensures Run(ttl, EMPTY, Arrivals(Datagrams(id, pieces, order), source, now)).out == []
  {
    var events := Arrivals(Datagrams(id, pieces, order), source, now);
    PiecesArrive(id, pieces, order, source, now);
    PromptWithoutSweeps(ttl, events, None);
    assert k !in Numbers(events) && k in Below(|pieces|);
    assert {} + Numbers(events) == Numbers(events);
    var first := CollectedSoFar(ttl, Own(None, []), id, FittedAll(pieces), events, {}, None);
    Isolation(ttl, EMPTY, events, id);
    OnlyItsOwn(ttl, EMPTY, events, id);
  }

  /** The same chunk again and again. */
  function Copies(c: Chunk, times: seq<nat>): (r: seq<Event>)
    ensures |r| == |times|
  {
    seq(|times|, i requires 0 <= i < |times| => Arrive(c, times[i]))
  }

  /** A message of one chunk is completed by every second copy of it: the first one only
      creates the entry. */
  lemma {:induction false} SingleCopies(ttl: nat, out: seq<Emitted>, c: Chunk, times: seq<nat>)
    requires c.number == 0 && c.count == 1
    ensures var o := OwnRun(ttl, Own(None, out), Copies(c, times));
            && o.out == out + seq(|times| / 2, _ => Emitted(c.id, c.data, c.source))
            && o.entry == if |times| % 2 == 0 then None else Some(Entry(map[0 := c], 1, times[|times| - 1]))
    decreases |times|
  {
    var copies := Copies(c, times);
    if |times| == 0 {
      assert out + [] == out;
    } else if |times| == 1 {
      assert copies[1..] == [];
      assert out + [] == out;
    } else {
      var emitted := Emitted(c.id, c.data, c.source);
      var first := OwnStep(ttl, Own(None, out), copies[0]);
      SecondCopy(first.entry.value, c, times[1]);
      assert copies[1..][1..] == Copies(c, times[2..]);
      assert OwnStep(ttl, first, copies[1..][0]) == Own(None, out + [emitted]);
      SingleCopies(ttl, out + [emitted], c, times[2..]);
      assert [emitted] + seq(|times| / 2 - 1, _ => emitted) == seq(|times| / 2, _ => emitted);
      AppendAssociates(out, [emitted], seq(|times| / 2 - 1, _ => emitted));
    }
  }

  lemma SecondCopy(e: Entry, c: Chunk, now: nat)
    requires c.number == 0 && c.count == 1 && e.chunks == map[0 := c] && e.size == 1
    ensures Arrival(Some(e), c, now) == (None, Some(Emitted(c.id, c.data, c.source)))
  {
    assert e.chunks[0 := c] == e.chunks;
    assert Joined(e.chunks, 0) + c.data == c.data;
    assert Joined(e.chunks, 1) == c.data;
    assert LowestFrom(e.chunks, 0, 1) == Some(0);
  }

  lemma {:induction false} CopiesArrive(id: Bytes, piece: Bytes, order: seq<nat>, source: nat, now: nat)
    requires |id| == 8 && forall i :: 0 <= i < |order| ==> order[i] < 1
    ensures Arrivals(Datagrams(id, [piece], order), source, now) ==
            if piece == [] then [] else Copies(Chunk(id, 0, 1, Fitted(piece), source), seq(|order|, _ => now))
    decreases |order|
  {
    if order != [] {
      ReceivedChunk(id, 0, 1, piece, source);
      CopiesArrive(id, piece, order[1..], source, now);
      assert Datagrams(id, [piece], order)[1..] == Datagrams(id, [piece], order[1..]);
      var c := Chunk(id, 0, 1, Fitted(piece), source);
      assert piece != [] ==>
          [Arrive(c, now)] + Copies(c, seq(|order| - 1, _ => now)) == Copies(c, seq(|order|, _ => now));
    }
  }

  lemma {:induction false} CopiesAreRelevant(c: Chunk, times: seq<nat>)
    ensures Relevant(Copies(c, times), c.id) == Copies(c, times)
    decreases |times|
  {
    if times != [] {
      assert Copies(c, times)[1..] == Copies(c, times[1..]);
      CopiesAreRelevant(c, times[1..]);
      assert [Arrive(c, times[0])] + Copies(c, times[1..]) == Copies(c, times);
    }
  }

  /** A message of one chunk, sent any number of times, comes out half as often, rounded down,
      and cut to what fits: sent once, never. */
  lemma SinglePiece(ttl: nat, id: Bytes, piece: Bytes, order: seq<nat>, source: nat, now: nat)
    requires |id| == 8 && forall i :: 0 <= i < |order| ==> order[i] < 1
    ensures Run(ttl, EMPTY, Arrivals(Datagrams(id, [piece], order), source, now)).out ==
            seq(if piece == [] then 0 else |order| / 2, _ => Emitted(id, Fitted(piece), source))
  {
    CopiesArrive(id, piece, order, source, now);
    if piece != [] {
      var c, times := Chunk(id, 0, 1, Fitted(piece), source), seq(|order|, _ => now);
      CopiesAreRelevant(c, times);
      SingleCopies(ttl, [], c, times);
      Isolation(ttl, EMPTY, Copies(c, times), id);
      OnlyItsOwn(ttl, EMPTY, Copies(c, times), id);
      assert OwnOf(EMPTY, id) == Own(None, []);
      var all := seq(|order| / 2, _ => Emitted(id, Fitted(piece), source));
      assert [] + all == all;
    }
  }

  /** The domain of the round trip. Sent once each, in any order, the chunks of a message
      come out as the message, once, if and only if there are 2 to 127 of them, none is empty,
      and each of them fits into the receive buffer with its header. The format allows 1 to 128
      chunks of any size. */
  lemma SentReceivedIff(ttl: nat, id: Bytes, pieces: seq<Bytes>, order: seq<nat>, source: nat, now: nat)
    requires |id| == 8 && 1 <= |pieces| < 256 && Permutation(order, |pieces|)
    ensures EmitsExactly(Run(ttl, EMPTY, Arrivals(Datagrams(id, pieces, order), source, now)), id, Concat(pieces))
       <==> 2 <= |pieces| <= 127 && AllFit(pieces)
  {
    if |pieces| == 1 {
      assert pieces == [pieces[0]];
      SinglePiece(ttl, id, pieces[0], order, source, now);
    } else if |pieces| >= 128 {
      TooManyPieces(ttl, EMPTY, id, pieces, order, source, now);
    } else if k :| 0 <= k < |pieces| && pieces[k] == [] {
      MissingPiece(ttl, id, pieces, order, source, now, k);
    } else {
      SentReceived(ttl, id, pieces, order, source, now);
      ConcatFitted(pieces);
    }
  }

  /** A chunk of 4085 bytes or more is cut, and the message that comes out is not the one that
      was sent. */
  lemma LongPieceIsCut(ttl: nat, id: Bytes, a: Bytes, b: Bytes, source: nat, now: nat)
    requires |id| == 8 && MAX_PIECE < |a| && 0 < |b| <= MAX_PIECE
    ensures var s := Run(ttl, EMPTY, Arrivals(Datagrams(id, [a, b], [0, 1]), source, now));
            EmitsExactly(s, id, a[..MAX_PIECE] + b) && !EmitsExactly(s, id, a + b)
  {
    var pieces := [a, b];
    SentReceived(ttl, id, pieces, [0, 1], source, now);
    ConcatTwo(pieces);
    ConcatTwo(FittedAll(pieces));
    assert Fitted(b) == b;
  }

  // ---- Among everything else the network brings ----

  /** What happens at the socket while a message is sent: datagrams with one of its pieces,
      perhaps more than once, any other datagrams, and the sweeps. */
  datatype Traffic =
    | Piece(number: nat, source: nat, now: nat)
    | Other(datagram: Bytes, source: nat, now: nat)
    | SweepAt(now: nat)

  /** The datagram brings no chunk of this message id. */
  predicate Foreign(id: Bytes, datagram: Bytes, source: nat) {
    match Receive(Truncated(datagram), source)
    case Part(c) => c.id != id
    case _ => true
  }

  predicate OrdinaryOne(id: Bytes, pieces: seq<Bytes>, t: Traffic) {
    match t
    case Piece(k, _, _) => k < |pieces|
    case Other(d, source, _) => Foreign(id, d, source)
    case SweepAt(_) => true
  }

  predicate Ordinary(id: Bytes, pieces: seq<Bytes>, traffic: seq<Traffic>) {
    forall i :: 0 <= i < |traffic| ==> OrdinaryOne(id, pieces, traffic[i])
  }

  function ReceivedEvents(datagram: Bytes, source: nat, now: nat): seq<Event> {
    match Receive(Truncated(datagram), source)
    case Part(c) => [Arrive(c, now)]
    case _ => []
  }

  function HeardOne(id: Bytes, pieces: seq<Bytes>, t: Traffic): seq<Event>
    requires |pieces| < 256 && OrdinaryOne(id, pieces, t)
  {
    match t
    case Piece(k, source, now) => ReceivedEvents(EncodeChunk(id, k, |pieces|, pieces[k]), source, now)
    case Other(d, source, now) => ReceivedEvents(d, source, now)
    case SweepAt(now) => [Sweep(now)]
  }

  /** What the chunk thread gets to see of the traffic. */
  function Heard(id: Bytes, pieces: seq<Bytes>, traffic: seq<Traffic>): seq<Event>
    requires |pieces| < 256 && Ordinary(id, pieces, traffic)
  {
    if traffic == [] then [] else HeardOne(id, pieces, traffic[0]) + Heard(id, pieces, traffic[1..])
  }

  function OwnOne(id: Bytes, pieces: seq<Bytes>, t: Traffic): seq<Event>
    requires OrdinaryOne(id, pieces, t)
  {
    match t
    case Piece(k, source, now) => [Arrive(Chunk(id, k, |pieces|, pieces[k], source), now)]
    case Other(_, _, _) => []
    case SweepAt(now) => [Sweep(now)]
  }

  /** The part of it that concerns the message. */
  function OwnEvents(id: Bytes, pieces: seq<Bytes>, traffic: seq<Traffic>): seq<Event>
    requires Ordinary(id, pieces, traffic)
  {
    if traffic == [] then [] else OwnOne(id, pieces, traffic[0]) + OwnEvents(id, pieces, traffic[1..])
  }

  /** The numbers of the pieces that were sent. */
  function SentNumbers(traffic: seq<Traffic>): set<nat> {
    if traffic == [] then {}
    else (if traffic[0].Piece? then {traffic[0].number} else {}) + SentNumbers(traffic[1..])
  }

  lemma {:induction false} RelevantAppend(a: seq<Event>, b: seq<Event>, id: Bytes)
    ensures Relevant(a + b, id) == Relevant(a, id) + Relevant(b, id)
    decreases |a|
  {
    if a == [] {
      assert a + b == b;
    } else {
      assert (a + b)[1..] == a[1..] + b;
      RelevantAppend(a[1..], b, id);
    }
  }

  lemma HeardOneIsOwn(id: Bytes, pieces: seq<Bytes>, t: Traffic)
    requires |id| == 8 && |pieces| < 128 && AllFit(pieces) && OrdinaryOne(id, pieces, t)
    ensures Relevant(HeardOne(id, pieces, t), id) == OwnOne(id, pieces, t)
  {
    var events := HeardOne(id, pieces, t);
    if t.Piece? {
      ReceivedChunk(id, t.number, |pieces|, pieces[t.number], t.source);
      assert Fitted(pieces[t.number]) == pieces[t.number];
    }
    assert events == [] || (|events| == 1 && events[1..] == []);
  }

  lemma {:induction false} HeardIsOwn(id: Bytes, pieces: seq<Bytes>, traffic: seq<Traffic>)
    requires |id| == 8 && |pieces| < 128 && AllFit(pieces) && Ordinary(id, pieces, traffic)
    ensures Relevant(Heard(id, pieces, traffic), id) == OwnEvents(id, pieces, traffic)
    decreases |traffic|
  {
    if traffic != [] {
      hide HeardOne, OwnOne, Relevant;
      HeardOneIsOwn(id, pieces, traffic[0]);
      HeardIsOwn(id, pieces, traffic[1..]);
      RelevantAppend(HeardOne(id, pieces, traffic[0]), Heard(id, pieces, traffic[1..]), id);
    } else {
      assert Relevant([], id) == [];
    }
  }

  lemma {:induction false} OwnBrings(id: Bytes, pieces: seq<Bytes>, traffic: seq<Traffic>)
    requires Ordinary(id, pieces, traffic)
    ensures var own := OwnEvents(id, pieces, traffic);
            AllBring(id, pieces, own) && Numbers(own) == SentNumbers(traffic)
    decreases |traffic|
  {
    if traffic != [] {
      var rest := OwnEvents(id, pieces, traffic[1..]);
      OwnBrings(id, pieces, traffic[1..]);
      assert OrdinaryOne(id, pieces, traffic[0]);
      if traffic[0].Other? {
        assert OwnEvents(id, pieces, traffic) == rest;
      } else {
        assert OwnEvents(id, pieces, traffic)[1..] == rest;
      }
    }
  }

  lemma {:induction false} OwnEventsAppend(id: Bytes, pieces: seq<Bytes>, a: seq<Traffic>, b: seq<Traffic>)
    requires Ordinary(id, pieces, a) && Ordinary(id, pieces, b)
    ensures Ordinary(id, pieces, a + b)
    ensures OwnEvents(id, pieces, a + b) == OwnEvents(id, pieces, a) + OwnEvents(id, pieces, b)
    decreases |a|
  {
    if a == [] {
      assert a + b == b;
    } else {
      assert (a + b)[1..] == a[1..] + b;
      OwnEventsAppend(id, pieces, a[1..], b);
    }
  }

  /** Reassembly from the network. The chunks of a message of 2 to 127 pieces that fit, sent in any
      order, any of them more than once, among datagrams of any other kind, chunked messages
      included, come out as the message, once, with the datagram that brings the last missing
      piece, if no sweep came too late after the first one. */
  lemma DatagramsReassembled(ttl: nat, s: State, id: Bytes, pieces: seq<Bytes>, traffic: seq<Traffic>, k: nat,
                             source: nat, now: nat)
    requires |id| == 8 && id !in s.live && 2 <= |pieces| <= 127 && AllFit(pieces)
    requires Ordinary(id, pieces, traffic) && k < |pieces|
    requires Prompt(ttl, OwnEvents(id, pieces, traffic), None)
    requires SentNumbers(traffic) != Below(|pieces|) && SentNumbers(traffic) + {k} == Below(|pieces|)
    ensures var all := traffic + [Piece(k, source, now)];
            && Ordinary(id, pieces, all)
            && var s' := Run(ttl, s, Heard(id, pieces, all));
               && id !in s'.live
               && exists m: Emitted :: m.id == id && m.payload == Concat(pieces)
                           && EmittedAs(s'.out, id) == EmittedAs(s.out, id) + [m]
  {
    var last, all := [Piece(k, source, now)], traffic + [Piece(k, source, now)];
    var c := Chunk(id, k, |pieces|, pieces[k], source);
    OwnEventsAppend(id, pieces, traffic, last);
    assert OwnEvents(id, pieces, last) == [Arrive(c, now)] by {
      assert last[1..] == [];
    }
    OwnBrings(id, pieces, traffic);
    HeardIsOwn(id, pieces, all);
    hide Heard, OwnEvents, Relevant, Numbers, SentNumbers, Prompt, Below, Run, AllBring, Ordinary;
    Reassembled(ttl, s, Heard(id, pieces, all), id, pieces, OwnEvents(id, pieces, traffic), c, now);
  }
}
