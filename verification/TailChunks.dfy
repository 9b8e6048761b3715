/** The read loop divides what it reads into buffer-fulls: what that does to the messages, over
    whole runs of reads. */
module TailChunks {
  import opened Common
  import opened TailSplitter
  import opened TailLines
  import opened TailRecord

  /** The chunks in which the loop reads a region. */
  function BufferFulls(region: Bytes): seq<Bytes>
    decreases |region|
  {
    if region == [] then [] else
      var n := ChunkSize(|region|);
      [region[..n]] + BufferFulls(region[n..])
  }

  lemma BufferFullsStep(region: Bytes)
    requires region != []
    ensures var fulls, n := BufferFulls(region), ChunkSize(|region|);
            fulls != [] && fulls[0] == region[..n] && fulls[1..] == BufferFulls(region[n..])
  {
  }

  lemma SliceOfSlice(file: Bytes, from: nat, mid: nat, end: nat)
    requires from <= mid <= end <= |file|
    ensures file[from..end][..mid - from] == file[from..mid] && file[from..end][mid - from..] == file[mid..end]
  {
  }

  lemma {:induction false} BufferFullsConcat(region: Bytes)
    ensures Concat(BufferFulls(region)) == region
    ensures forall i :: 0 <= i < |BufferFulls(region)| ==> BufferFulls(region)[i] != []
    decreases |region|
  {
    if region != [] {
      BufferFullsConcat(region[ChunkSize(|region|)..]);
    }
  }

  /** Splitting chunk after chunk in either mode. */
  ghost function SplitChunks(c: Config, buffer: Bytes, chunks: seq<Bytes>): (seq<Bytes>, Bytes)
    requires ValidConfig(c)
    decreases |chunks|
  {
    if chunks == [] then ([], buffer) else
      var (first, carried) := SplitChunk(c, buffer, chunks[0]);
      var (rest, left) := SplitChunks(c, carried, chunks[1..]);
      (first + rest, left)
  }

  lemma ReadRegionStep(c: Config, buffer: Bytes, file: Bytes, from: nat, end: nat)
    requires ValidConfig(c) && from < end <= |file|
    ensures var n := ChunkSize(end - from);
            && 0 < n && from + n <= end
            && var (first, carried) := SplitChunk(c, buffer, file[from..from + n]);
               var (rest, left) := ReadRegion(c, carried, file, from + n, end);
               ReadRegion(c, buffer, file, from, end) == (first + rest, left)
  {
    hide SplitChunk;
  }

  lemma SplitChunksStep(c: Config, buffer: Bytes, chunks: seq<Bytes>)
    requires ValidConfig(c) && chunks != []
    ensures var (first, carried) := SplitChunk(c, buffer, chunks[0]);
            var (rest, left) := SplitChunks(c, carried, chunks[1..]);
            SplitChunks(c, buffer, chunks) == (first + rest, left)
  {
    hide SplitChunk;
  }

  lemma NothingRead(c: Config, buffer: Bytes, file: Bytes, from: nat)
    requires ValidConfig(c) && from <= |file|
    ensures ReadRegion(c, buffer, file, from, from) == ([], buffer)
    ensures SplitChunks(c, buffer, BufferFulls(file[from..from])) == ([], buffer)
  {
    hide SplitChunk;
    assert file[from..from] == [];
  }

  /** The loop splits the buffer-fulls of the region. */
  lemma {:induction false} ReadRegionIsSplitChunks(c: Config, buffer: Bytes, file: Bytes, from: nat, end: nat)
    requires ValidConfig(c) && from <= end <= |file|
    ensures ReadRegion(c, buffer, file, from, end) == SplitChunks(c, buffer, BufferFulls(file[from..end]))
    decreases end - from
  {
    hide *;
    if from == end {
      NothingRead(c, buffer, file, from);
    } else {
      var n, region := ChunkSize(end - from), file[from..end];
      ReadRegionStep(c, buffer, file, from, end);
      BufferFullsStep(region);
      SliceOfSlice(file, from, from + n, end);
      SplitChunksStep(c, buffer, BufferFulls(region));
      ReadRegionIsSplitChunks(c, SplitChunk(c, buffer, region[..n]).1, file, from + n, end);
    }
  }

  lemma {:induction false} SplitChunksAppend(c: Config, buffer: Bytes, a: seq<Bytes>, b: seq<Bytes>)
    requires ValidConfig(c)
    ensures var (first, carried) := SplitChunks(c, buffer, a);
            var (rest, left) := SplitChunks(c, carried, b);
            SplitChunks(c, buffer, a + b) == (first + rest, left)
    decreases |a|
  {
    hide SplitChunk;
    if a == [] {
      assert a + b == b;
      assert [] + SplitChunks(c, buffer, b).0 == SplitChunks(c, buffer, b).0;
    } else {
      assert (a + b)[1..] == a[1..] + b;
      var (first, carried) := SplitChunk(c, buffer, a[0]);
      SplitChunksAppend(c, carried, a[1..], b);
      var (more, carried') := SplitChunks(c, carried, a[1..]);
      AppendAssociates(first, more, SplitChunks(c, carried', b).0);
    }
  }

  lemma {:induction false} SplitChunksIsRegexRun(c: Config, buffer: Bytes, chunks: seq<Bytes>)
    requires ValidConfig(c) && c.regex.Some?
    ensures var mss := Matches(c.regex.value, chunks);
            && (forall i :: 0 <= i < |chunks| ==> Ordered(0, mss[i], |chunks[i]|))
            && SplitChunks(c, buffer, chunks) == RegexRun(buffer, chunks, mss)
    decreases |chunks|
  {
    if chunks != [] {
      var mss := Matches(c.regex.value, chunks);
      assert mss[1..] == Matches(c.regex.value, chunks[1..]);
      SplitChunksIsRegexRun(c, SplitChunk(c, buffer, chunks[0]).1, chunks[1..]);
    }
  }

  lemma {:induction false} SplitChunksIsLines(c: Config, buffer: Bytes, chunks: seq<Bytes>)
    requires ValidConfig(c) && c.regex.None?
    ensures SplitChunks(c, buffer, chunks) == (LinesOfChunks(chunks), buffer)
    decreases |chunks|
  {
    if chunks != [] {
      SplitChunksIsLines(c, buffer, chunks[1..]);
    }
  }

  // ---- Runs of reads ----

  /** The file grows and is read, again and again. */
  ghost function Follow(c: Config, s: State, file: Bytes, appends: seq<Bytes>): (State, seq<Bytes>)
    requires ValidConfig(c)
    decreases |appends|
  {
    if appends == [] then (s, []) else
      var grown := file + appends[0];
      var o := Processed(c, s, grown, |grown|);
      var (last, messages) := Follow(c, o.state, grown, appends[1..]);
      (last, o.messages + messages)
  }

  /** All the chunks that are read; `unread` is what was not read before the file grew. */
  function ChunksRead(unread: Bytes, appends: seq<Bytes>): seq<Bytes>
    decreases |appends|
  {
    if appends == [] then [] else BufferFulls(unread + appends[0]) + ChunksRead([], appends[1..])
  }

  lemma {:induction false} ChunksReadConcat(unread: Bytes, appends: seq<Bytes>)
    ensures Concat(ChunksRead(unread, appends)) == if appends == [] then [] else unread + Concat(appends)
    ensures forall i :: 0 <= i < |ChunksRead(unread, appends)| ==> ChunksRead(unread, appends)[i] != []
    decreases |appends|
  {
    if appends != [] {
      BufferFullsConcat(unread + appends[0]);
      ChunksReadConcat([], appends[1..]);
      ConcatAppend(BufferFulls(unread + appends[0]), ChunksRead([], appends[1..]));
      assert [] + Concat(appends[1..]) == Concat(appends[1..]);
      AppendAssociates(unread, appends[0], Concat(appends[1..]));
    }
  }

  /** The record can be read on: it did not fail, did not run past the file, and does not skip. */
  predicate CanFollow(c: Config, s: State, file: Bytes) {
    !s.failed && 0 <= s.pos <= |file| && (c.followOnly ==> s.firstRead)
  }

  /** One read splits the buffer-fulls of what it has not read yet. */
  lemma OneProcess(c: Config, s: State, file: Bytes)
    requires ValidConfig(c) && CanFollow(c, s, file)
    ensures var (messages, left) := SplitChunks(c, s.buffer, BufferFulls(file[s.pos..]));
            Processed(c, s, file, |file|) == Outcome(s.(pos := |file|, buffer := left), messages, true)
  {
    hide ReadRegion, SplitChunk;
    if s.pos < |file| {
      assert s.pos + Min(|file| - s.pos, |file|) == |file|;
      ReadRegionIsSplitChunks(c, s.buffer, file, s.pos, |file|);
      assert file[s.pos..|file|] == file[s.pos..];
    }
  }

  lemma {:induction false} FollowIsSplitChunks(c: Config, s: State, file: Bytes, appends: seq<Bytes>)
    requires ValidConfig(c) && CanFollow(c, s, file)
    ensures var (messages, left) := SplitChunks(c, s.buffer, ChunksRead(file[s.pos..], appends));
            Follow(c, s, file, appends) ==
            (s.(pos := if appends == [] then s.pos else |file + Concat(appends)|, buffer := left), messages)
    decreases |appends|
  {
    if appends != [] {
      hide Processed, SplitChunk, BufferFulls;
      var grown, rest := file + appends[0], ChunksRead([], appends[1..]);
      OneProcess(c, s, grown);
      assert grown[s.pos..] == file[s.pos..] + appends[0];
      var chunks := BufferFulls(grown[s.pos..]);
      var s1 := Processed(c, s, grown, |grown|).state;
      FollowIsSplitChunks(c, s1, grown, appends[1..]);
      assert grown[s1.pos..] == [];
      SplitChunksAppend(c, s.buffer, chunks, rest);
      AppendAssociates(file, appends[0], Concat(appends[1..]));
      assert appends[1..] == [] ==> grown + Concat(appends[1..]) == grown;
    }
  }

  /** Chunk invariance over runs: however often and in whatever pieces the file grew before it was
      read, the messages and the pending bytes are those of one split of everything at the
      combined matches; and they are those of a single read of everything if and only if the
      expression cuts the whole where it cut the chunks. */
  lemma FollowInvariance(c: Config, s: State, file: Bytes, appends: seq<Bytes>)
    requires ValidConfig(c) && c.regex.Some? && StrictEngine(c.regex.value) && CanFollow(c, s, file) && appends != []
    ensures var chunks, all := ChunksRead(file[s.pos..], appends), file[s.pos..] + Concat(appends);
            var combined := Combined(chunks, Matches(c.regex.value, chunks));
            var (last, messages) := Follow(c, s, file, appends);
            && Ordered(0, combined, |all|)
            && (messages, last.buffer) == RegexSplit(s.buffer, all, combined)
            && ((messages, last.buffer) == RegexSplit(s.buffer, all, c.regex.value(all))
                <==> Cuts(s.buffer, c.regex.value(all)) == Cuts(s.buffer, combined))
  {
    var chunks := ChunksRead(file[s.pos..], appends);
    FollowIsSplitChunks(c, s, file, appends);
    ChunksReadConcat(file[s.pos..], appends);
    SplitChunksIsRegexRun(c, s.buffer, chunks);
    hide RegexRun, RegexSplit, Follow, SplitChunks, Cuts, Combined, ChunksRead;
    ChunkingHarmlessIff(c.regex.value, s.buffer, chunks);
    ChunkInvariance(s.buffer, chunks, Matches(c.regex.value, chunks));
  }

  /** The same in newline mode: the messages are the lines of everything if and only if no read
      ended inside a line, and otherwise there is one more for every line that was broken. */
  lemma FollowLinesIff(c: Config, s: State, file: Bytes, appends: seq<Bytes>)
    requires ValidConfig(c) && c.regex.None? && CanFollow(c, s, file) && appends != []
    ensures var chunks, all := ChunksRead(file[s.pos..], appends), file[s.pos..] + Concat(appends);
            var messages := Follow(c, s, file, appends).1;
            && Concat(messages) == WithoutNewlines(all)
            && |messages| == |Lines(all)| + Broken(chunks)
            && (messages == Lines(all) <==> Broken(chunks) == 0)
  {
    var chunks := ChunksRead(file[s.pos..], appends);
    FollowIsSplitChunks(c, s, file, appends);
    ChunksReadConcat(file[s.pos..], appends);
    SplitChunksIsLines(c, s.buffer, chunks);
    LinesOfChunksConserve(chunks);
    LineChunkingHarmlessIff(chunks);
  }
}
