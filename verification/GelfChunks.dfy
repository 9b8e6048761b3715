/** GELF over UDP: datagrams, their chunk headers, and putting chunked messages together. */
module GelfChunks {
  import opened Common

  // ---- Datagrams ----

  const MAGIC_0: byte := 0x1e
  const MAGIC_1: byte := 0x0f

  datatype Chunk = Chunk(id: Bytes, number: nat, count: nat, data: Bytes, source: nat)

  /** A byte that goes through a signed char into a 64-bit unsigned number. */
  function SignExtended(b: byte): nat {
    if b < 128 then b else b + TWO_TO_THE_64 - 256
  }

  /** The chunk header; datagrams of at most twelve bytes are refused. */
  function ParseChunk(d: Bytes, source: nat): Option<Chunk> {
    if |d| <= 12 then None else
      var at := if d[0] != MAGIC_0 then 0 else if d[1] == MAGIC_1 then 2 else 1;
      Some(Chunk(d[at..at + 8], SignExtended(d[at + 8]), SignExtended(d[at + 9]), d[at + 10..], source))
  }

  /** What a sender puts in front of a piece. */
  function EncodeChunk(id: Bytes, number: byte, count: byte, piece: Bytes): Bytes {
    [MAGIC_0, MAGIC_1] + id + [number, count] + piece
  }

  /** A header is read back exactly when both numbers are below 128 and the piece is not empty. */
  lemma HeaderReadBackIff(id: Bytes, number: byte, count: byte, piece: Bytes, source: nat)
    requires |id| == 8
    ensures ParseChunk(EncodeChunk(id, number, count, piece), source) == Some(Chunk(id, number, count, piece, source))
       <==> number < 128 && count < 128 && piece != []
  {
    var d := EncodeChunk(id, number, count, piece);
    if piece != [] {
      assert d[2..10] == id;
      assert d[12..] == piece;
      assert d[10] == number && d[11] == count;
    }
  }

  datatype Received =
    | Refused
    | Whole(message: Bytes)
    | Part(chunk: Chunk)

  function Receive(d: Bytes, source: nat): Received {
    if |d| <= 2 then Refused
    else if d[0] == MAGIC_0 && d[1] == MAGIC_1 then
      match ParseChunk(d, source)
      case Some(c) => Part(c)
      case None => Refused
    else Whole(d)
  }

  const DATAGRAM_BUFFER: nat := 4096

  /** What the socket leaves of a datagram that is longer than the buffer. */
  function Truncated(datagram: Bytes): Bytes {
    datagram[..Min(DATAGRAM_BUFFER, |datagram|)]
  }

  /** One receive operation with its two queues. */
  class UdpSession {
    const buffer: array<byte>
    var messages: seq<Bytes>
    var chunks: seq<Chunk>

    constructor ()
      ensures buffer.Length == DATAGRAM_BUFFER && fresh(buffer) && messages == [] && chunks == []
    {
      buffer := new byte[DATAGRAM_BUFFER](_ => 0);
      messages, chunks := [], [];
    }

    /** The socket fills the buffer from a datagram; what does not fit is lost. */
    method HandleReceive(datagram: Bytes, source: nat)
      requires buffer.Length == DATAGRAM_BUFFER
      modifies buffer, this`messages, this`chunks
      ensures match Receive(Truncated(datagram), source)
              case Refused => messages == old(messages) && chunks == old(chunks)
              case Whole(m) => messages == old(messages) + [m] && chunks == old(chunks)
              case Part(c) => messages == old(messages) && chunks == old(chunks) + [c]
    {
      var transferred := Min(buffer.Length, |datagram|);
      for i := 0 to transferred
        invariant buffer[..i] == datagram[..i]
        invariant messages == old(messages) && chunks == old(chunks)
      {
        buffer[i] := datagram[i];
        assert buffer[..i + 1] == buffer[..i] + [datagram[i]];
      }
      if transferred > 0 {
        Process(transferred, source);
      }
    }

    method Process(transferred: nat, source: nat)
      modifies this`messages, this`chunks
      ensures var d := buffer[..Min(buffer.Length, transferred)];
              match Receive(d, source)
              case Refused => messages == old(messages) && chunks == old(chunks)
              case Whole(m) => messages == old(messages) + [m] && m == d && chunks == old(chunks)
              case Part(c) => messages == old(messages) && chunks == old(chunks) + [c]
    {
      var d := buffer[..Min(buffer.Length, transferred)];
      if |d| <= 2 {
        return;
      }
      if d[0] == MAGIC_0 && d[1] == MAGIC_1 {
        var parsed := ParseChunk(d, source);
        if parsed.Some? {
          chunks := chunks + [parsed.value];
        }
      } else {
        messages := messages + [d];
      }
    }
  }

  // ---- Reassembly ----

  const MAX_COUNT: nat := 128
  const NANOSECONDS: nat := 1_000_000_000

  /** A message some of whose chunks are still missing. */
  datatype Entry = Entry(chunks: map<nat, Chunk>, size: nat, time: nat)

  datatype Emitted = Emitted(id: Bytes, payload: Bytes, source: nat)

  /** The data of the chunks with numbers below `to`, in ascending order. */
  function Joined(chunks: map<nat, Chunk>, to: nat): Bytes {
    if to == 0 then []
    else if to - 1 in chunks then Joined(chunks, to - 1) + chunks[to - 1].data
    else Joined(chunks, to - 1)
  }

  function LowestFrom(chunks: map<nat, Chunk>, from: nat, to: nat): Option<nat>
    decreases to - from
  {
    if from >= to then None else if from in chunks then Some(from) else LowestFrom(chunks, from + 1, to)
  }

  /** The sender of the chunk with the lowest number. */
  function Source(e: Entry): nat {
    var first := LowestFrom(e.chunks, 0, e.size);
    if first.Some? && first.value in e.chunks then e.chunks[first.value].source else 0
  }

  function Complete(id: Bytes, e: Entry): Emitted {
    Emitted(id, Joined(e.chunks, e.size), Source(e))
  }

  /** What a chunk does to the entry of its message: the entry afterwards, and the message
      if this chunk completes it. */
  function Arrival(entry: Option<Entry>, c: Chunk, now: nat): (Option<Entry>, Option<Emitted>) {
    if c.count > MAX_COUNT || c.number >= c.count then (entry, None)
    else match entry
      case Some(e) =>
        if e.size != c.count then (entry, None) else
          var e' := e.(chunks := e.chunks[c.number := c]);
          if |e'.chunks| == e'.size then (None, Some(Complete(c.id, e'))) else (Some(e'), None)
      case None => (Some(Entry(map[c.number := c], c.count, now)), None)
  }

  function Seconds(e: Entry, now: nat): nat {
    if now < e.time then 0 else (now - e.time) / NANOSECONDS
  }

  predicate Expired(ttl: nat, e: Entry, now: nat) {
    Seconds(e, now) >= ttl
  }

  /** `created` and `completed` only keep count, for the accounting. */
  datatype State = State(
    live: map<Bytes, Entry>,
    out: seq<Emitted>,
    bad: nat,
    created: nat,
    completed: nat)

  function Lookup(live: map<Bytes, Entry>, id: Bytes): Option<Entry> {
    if id in live then Some(live[id]) else None
  }

  function Put(live: map<Bytes, Entry>, id: Bytes, entry: Option<Entry>): map<Bytes, Entry> {
    if entry.Some? then live[id := entry.value] else live - {id}
  }

  function Handle(s: State, c: Chunk, now: nat): State {
    var before := Lookup(s.live, c.id);
    var (after, done) := Arrival(before, c, now);
    State(
      Put(s.live, c.id, after),
      if done.Some? then s.out + [done.value] else s.out,
      s.bad,
      if before.None? && after.Some? then s.created + 1 else s.created,
      if done.Some? then s.completed + 1 else s.completed)
  }

  function ExpiredIds(ttl: nat, live: map<Bytes, Entry>, now: nat): set<Bytes> {
    set id | id in live && Expired(ttl, live[id], now)
  }

  function Swept(ttl: nat, s: State, now: nat): State {
    var gone := ExpiredIds(ttl, s.live, now);
    s.(live := s.live - gone, bad := s.bad + |gone|)
  }

  /** A sweep that has yet to look at `left`. */
  function SweptExcept(ttl: nat, s: State, now: nat, left: set<Bytes>): State {
    var gone := ExpiredIds(ttl, s.live, now) - left;
    s.(live := s.live - gone, bad := s.bad + |gone|)
  }

  lemma SweptExceptAll(ttl: nat, s: State, now: nat)
    ensures SweptExcept(ttl, s, now, s.live.Keys) == s
  {
    assert ExpiredIds(ttl, s.live, now) - s.live.Keys == {};
  }

  lemma SweptExceptNone(ttl: nat, s: State, now: nat)
    ensures SweptExcept(ttl, s, now, {}) == Swept(ttl, s, now)
  {
    assert ExpiredIds(ttl, s.live, now) - {} == ExpiredIds(ttl, s.live, now);
  }

  lemma SweptExceptStep(ttl: nat, s: State, now: nat, left: set<Bytes>, id: Bytes)
    requires id in left && left <= s.live.Keys
    ensures var before, after := SweptExcept(ttl, s, now, left), SweptExcept(ttl, s, now, left - {id});
            && left <= before.live.Keys && left - {id} <= after.live.Keys
            && id in before.live && before.live[id] == s.live[id]
            && after == if Expired(ttl, s.live[id], now)
                        then before.(live := before.live - {id}, bad := before.bad + 1) else before
  {
    var gone, gone' := ExpiredIds(ttl, s.live, now) - left, ExpiredIds(ttl, s.live, now) - (left - {id});
    if Expired(ttl, s.live[id], now) {
      assert gone' == gone + {id};
      assert s.live - gone' == s.live - gone - {id};
    } else {
      assert gone' == gone;
    }
  }

  datatype Arrived = Arrived(chunk: Chunk, now: nat)

  function HandleAll(s: State, bulk: seq<Arrived>): State
    decreases |bulk|
  {
    if bulk == [] then s else HandleAll(Handle(s, bulk[0].chunk, bulk[0].now), bulk[1..])
  }

  const BULK_LIMIT: nat := 1000

  /** The chunk thread of the input. */
  class ChunkThread {
    const ttl: nat
    var live: map<Bytes, Entry>
    var out: seq<Emitted>          // messages handed to the input queue
    var badChunks: nat
    ghost var created: nat
    ghost var completed: nat

    constructor (ttl: nat)
      ensures this.ttl == ttl && Get() == State(map[], [], 0, 0, 0)
    {
      this.ttl := ttl;
      live, out, badChunks, created, completed := map[], [], 0, 0, 0;
    }

    ghost function Get(): State
      reads this
    {
      State(live, out, badChunks, created, completed)
    }

    /** One chunk of a bulk. */
    method HandleOne(c: Chunk, now: nat)
      modifies this
      ensures Get() == Handle(old(Get()), c, now)
    {
      hide Joined, Source;
      if c.count > MAX_COUNT {
        assert live == Put(live, c.id, Lookup(live, c.id));
        return;
      }
      if c.number >= c.count {
        assert live == Put(live, c.id, Lookup(live, c.id));
        return;
      }
      if c.id in live {
        var e := live[c.id];
        if e.size != c.count {
          assert live == Put(live, c.id, Lookup(live, c.id));
          return;
        }
        ghost var s := Get();
        e := e.(chunks := e.chunks[c.number := c]);
        live := live[c.id := e];
        if |e.chunks| == e.size {
          var total := Assemble(e);
          out := out + [Emitted(c.id, total, Source(e))];
          live := live - {c.id};
          completed := completed + 1;
          assert live == s.live - {c.id};
        }
      } else {
        live := live[c.id := Entry(map[c.number := c], c.count, now)];
        created := created + 1;
      }
    }

    /** The chunks' data, in the order of their numbers. */
    method Assemble(e: Entry) returns (total: Bytes)
      ensures total == Joined(e.chunks, e.size)
    {
      total := [];
      for k := 0 to e.size
        invariant total == Joined(e.chunks, k)
      {
        if k in e.chunks {
          total := total + e.chunks[k].data;
        }
      }
    }

    method HandleBulk(bulk: seq<Arrived>)
      modifies this
      ensures Get() == HandleAll(old(Get()), bulk)
    {
      var j := 0;
      while j < |bulk|
        invariant j <= |bulk|
        invariant HandleAll(Get(), bulk[j..]) == HandleAll(old(Get()), bulk)
      {
        assert bulk[j..][1..] == bulk[j + 1..];
        HandleOne(bulk[j].chunk, bulk[j].now);
        j := j + 1;
      }
    }

    /** Erasing while iterating, whatever the order of the iteration. */
    method Sweep(now: nat)
      modifies this
      ensures Get() == Swept(ttl, old(Get()), now)
    {
      hide Expired, SweptExcept;
      ghost var s := Get();
      var left := live.Keys;
      SweptExceptAll(ttl, s, now);
      while left != {}
        invariant left <= live.Keys && left <= s.live.Keys
        invariant Get() == SweptExcept(ttl, s, now, left)
        decreases left
      {
        var id :| id in left;
        SweptExceptStep(ttl, s, now, left, id);
        if Expired(ttl, live[id], now) {
          live := live - {id};
          badChunks := badChunks + 1;
        }
        left := left - {id};
      }
      SweptExceptNone(ttl, s, now);
    }

    /** One turn of the thread: at most a bulk of chunks, then the sweep. */
    method Turn(bulk: seq<Arrived>, now: nat)
      requires |bulk| <= BULK_LIMIT
      modifies this
      ensures Get() == Swept(ttl, HandleAll(old(Get()), bulk), now)
    {
      HandleBulk(bulk);
      Sweep(now);
    }
  }
}
