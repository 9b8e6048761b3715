/**
 The same tailing, one small step at a time, so that the process can die between any two:
 in the middle of loading the offsets, of a read, of handing messages on, of a save.
 Both ways of splitting are covered.
 */
module TailCrashes {
  import opened Common
  import opened TailLines
  import opened SavePositions
  import opened TailRecord
  import TailDelivery

  /** A message handed to the queue, and where in the file it starts. */
  datatype Span = Span(off: nat, message: Bytes)

  datatype Run = Run(
    file: Bytes,
    disk: Option<Bytes>,   // the file that keeps the offset
    table: Option<int>,    // the offset loaded at start-up
    live: Option<State>,
    log: seq<Span>)        // everything ever handed on, over all incarnations

  datatype Step =
    | Append(bytes: Bytes)
    | Crash                                      // the process dies; its memory is gone
    | Load                                       // start-up reads the offset ...
    | Drop                                       // ... and then deletes it
    | Open
    | Read(n: nat)                               // one buffer-full is read and its messages handed on
    | ReadAndCrash(n: nat, handed: nat)          // the same, dying after `handed` messages
    | HandPending                                // the timer hands on the pending bytes
    | Write(k: nat)                              // a save of which `k` of 8 bytes reach the disk

  predicate CanRead(r: Run, n: nat) {
    r.live.Some? && 0 <= r.live.value.pos && r.live.value.pos + n <= |r.file|
  }

  ghost predicate Enabled(c: Config, r: Run, step: Step)
    requires ValidConfig(c)
  {
    match step
    case Append(bytes) => |r.file| + |bytes| < TWO_TO_THE_63
    case Crash => true
    case Load => r.disk.Some?
    case Drop => r.table.Some?
    case Open => r.live.None?
    case Read(n) => CanRead(r, n)
    case ReadAndCrash(n, handed) => CanRead(r, n) && handed <= |ReadSpans(c, r, n)|
    case HandPending => r.live.Some? && 0 <= r.live.value.pos - |r.live.value.buffer|
    case Write(k) => r.live.Some? && k <= 8
  }

  function Consecutive(off: nat, messages: seq<Bytes>): seq<Span>
    decreases |messages|
  {
    if messages == [] then []
    else [Span(off, messages[0])] + Consecutive(off + |messages[0]|, messages[1..])
  }

  function At(off: nat, runs: seq<Interval>, messages: seq<Bytes>): (r: seq<Span>)
    requires |runs| == |messages|
    ensures |r| == |runs|
  {
    seq(|runs|, k requires 0 <= k < |runs| => Span(off + runs[k].lo, messages[k]))
  }

  function PendingFrom(st: State): nat
    requires 0 <= st.pos
  {
    if |st.buffer| <= st.pos then st.pos - |st.buffer| else 0
  }

  /** The messages a chunk completes, with their places in the file. */
  ghost function ChunkSpans(c: Config, st: State, chunk: Bytes): seq<Span>
    requires ValidConfig(c) && 0 <= st.pos
  {
    if c.regex.Some? then
      Consecutive(PendingFrom(st), SplitChunk(c, st.buffer, chunk).0)
    else
      LineRunsLocateLines(chunk);
      At(st.pos, LineRuns(chunk), Lines(chunk))
  }

  ghost function ReadSpans(c: Config, r: Run, n: nat): seq<Span>
    requires ValidConfig(c) && CanRead(r, n)
  {
    ChunkSpans(c, r.live.value, r.file[r.live.value.pos..r.live.value.pos + n])
  }

  ghost function Do(c: Config, r: Run, step: Step): Run
    requires ValidConfig(c) && Enabled(c, r, step)
  {
    match step
    case Append(bytes) => r.(file := r.file + bytes)
    case Crash => r.(table := None, live := None)
    case Load => if r.table.Some? then r else r.(table := Some(DecodePosition(r.disk.value)))
    case Drop => r.(disk := None)
    case Open => r.(live := Some(State(r.table.GetOr(0), [], false, false)))
    case Read(n) =>
      var st := r.live.value;
      var left := SplitChunk(c, st.buffer, r.file[st.pos..st.pos + n]).1;
      r.(live := Some(st.(pos := st.pos + n, buffer := left)), log := r.log + ReadSpans(c, r, n))
    case ReadAndCrash(n, handed) =>
      r.(table := None, live := None, log := r.log + ReadSpans(c, r, n)[..handed])
    case HandPending =>
      var st := r.live.value;
      r.(live := Some(st.(buffer := [])), log := r.log + [Span(st.pos - |st.buffer|, st.buffer)])
    case Write(k) => r.(disk := Some(EncodePosition(SavedOffset(r.live.value))[..k]))
  }

  ghost predicate Possible(c: Config, r: Run, steps: seq<Step>)
    requires ValidConfig(c)
    decreases steps
  {
    steps != [] ==> Enabled(c, r, steps[0]) && Possible(c, Do(c, r, steps[0]), steps[1..])
  }

  ghost function DoAll(c: Config, r: Run, steps: seq<Step>): Run
    requires ValidConfig(c) && Possible(c, r, steps)
    decreases steps
  {
    if steps == [] then r else DoAll(c, Do(c, r, steps[0]), steps[1..])
  }

  function Fresh(file: Bytes): Run {
    Run(file, None, None, None, [])
  }

  // ---- At least once ----

  predicate Covers(span: Span, i: int) {
    span.off <= i < span.off + |span.message|
  }

  predicate HandedAt(log: seq<Span>, i: int) {
    exists k :: 0 <= k < |log| && Covers(log[k], i)
  }

  /** The byte was handed on, or it is a newline that only separates messages. */
  predicate Done(c: Config, file: Bytes, log: seq<Span>, i: int) {
    HandedAt(log, i) || (c.regex.None? && 0 <= i < |file| && file[i] == NEWLINE)
  }

  predicate DoneTo(c: Config, file: Bytes, log: seq<Span>, to: int) {
    0 <= to <= |file| && forall i :: 0 <= i < to ==> Done(c, file, log, i)
  }

  /** The message is what the file holds at its place. */
  predicate Genuine(file: Bytes, span: Span) {
    span.off + |span.message| <= |file| && file[span.off..span.off + |span.message|] == span.message
  }

  predicate AllGenuine(file: Bytes, log: seq<Span>) {
    forall k :: 0 <= k < |log| ==> Genuine(file, log[k])
  }

  predicate Safe(c: Config, r: Run) {
    && |r.file| < TWO_TO_THE_63
    && AllGenuine(r.file, r.log)
    && (r.live.Some? ==> TailDelivery.PendingGenuine(c, r.live.value, r.file) &&
                         DoneTo(c, r.file, r.log, r.live.value.pos - |r.live.value.buffer|))
    && (r.table.Some? ==> DoneTo(c, r.file, r.log, r.table.value))
    && (r.disk.Some? ==> DoneTo(c, r.file, r.log, DecodePosition(r.disk.value)))
  }

  lemma DoneMonotone(c: Config, file: Bytes, more: Bytes, log: seq<Span>, added: seq<Span>, to: int)
    requires DoneTo(c, file, log, to)
    ensures DoneTo(c, file + more, log + added, to)
  {
    forall i | 0 <= i < to ensures Done(c, file + more, log + added, i) {
      assert Done(c, file, log, i);
      if HandedAt(log, i) {
        var k :| 0 <= k < |log| && Covers(log[k], i);
        assert Covers((log + added)[k], i);
      }
    }
  }

  lemma GenuineMonotone(file: Bytes, more: Bytes, log: seq<Span>)
    requires AllGenuine(file, log)
    ensures AllGenuine(file + more, log)
  {
    forall k | 0 <= k < |log| ensures Genuine(file + more, log[k]) {
      assert Genuine(file, log[k]);
      var lo, hi := log[k].off, log[k].off + |log[k].message|;
      assert (file + more)[lo..hi] == file[lo..hi];
    }
  }

  lemma AppendSafe(c: Config, r: Run, bytes: Bytes)
    requires Safe(c, r) && |r.file| + |bytes| < TWO_TO_THE_63
    ensures Safe(c, r.(file := r.file + bytes))
  {
    GenuineMonotone(r.file, bytes, r.log);
    assert r.log + [] == r.log;
    if r.live.Some? {
      var st := r.live.value;
      DoneMonotone(c, r.file, bytes, r.log, [], st.pos - |st.buffer|);
      assert (r.file + bytes)[st.pos - |st.buffer|..st.pos] == r.file[st.pos - |st.buffer|..st.pos];
    }
    if r.table.Some? {
      DoneMonotone(c, r.file, bytes, r.log, [], r.table.value);
    }
    if r.disk.Some? {
      DoneMonotone(c, r.file, bytes, r.log, [], DecodePosition(r.disk.value));
    }
  }

  /** Handing on genuine messages keeps everything that was done, done. */
  lemma LogSafe(c: Config, r: Run, added: seq<Span>)
    requires Safe(c, r) && AllGenuine(r.file, added)
    ensures Safe(c, r.(log := r.log + added))
  {
    assert r.file + [] == r.file;
    if r.live.Some? {
      DoneMonotone(c, r.file, [], r.log, added, r.live.value.pos - |r.live.value.buffer|);
    }
    if r.table.Some? {
      DoneMonotone(c, r.file, [], r.log, added, r.table.value);
    }
    if r.disk.Some? {
      DoneMonotone(c, r.file, [], r.log, added, DecodePosition(r.disk.value));
    }
  }

  /** Pieces laid end to end cover the stretch they add up to. */
  lemma {:induction false} ConsecutiveCover(file: Bytes, off: nat, messages: seq<Bytes>)
    requires off + |Concat(messages)| <= |file|
    requires Concat(messages) == file[off..off + |Concat(messages)|]
    ensures AllGenuine(file, Consecutive(off, messages))
    ensures forall i :: off <= i < off + |Concat(messages)| ==> HandedAt(Consecutive(off, messages), i)
    decreases messages
  {
    if messages != [] {
      var m, rest := messages[0], Concat(messages[1..]);
      var tail := Consecutive(off + |m|, messages[1..]);
      TailDelivery.SplitSlice(file, off, off + |m|, off + |m| + |rest|, m, rest);
      ConsecutiveCover(file, off + |m|, messages[1..]);
      assert Genuine(file, Span(off, m));
      forall i | off <= i < off + |Concat(messages)| ensures HandedAt([Span(off, m)] + tail, i) {
        HandedInFirstOrRest(Span(off, m), tail, i);
      }
    }
  }

  lemma HandedInFirstOrRest(first: Span, rest: seq<Span>, i: int)
    requires Covers(first, i) || HandedAt(rest, i)
    ensures HandedAt([first] + rest, i)
  {
    var all := [first] + rest;
    if Covers(first, i) {
      assert Covers(all[0], i);
    } else {
      var k :| 0 <= k < |rest| && Covers(rest[k], i);
      assert Covers(all[k + 1], i);
    }
  }

  /** Every byte of a chunk that is no newline lies in one of its lines. */
  lemma RunAround(b: Bytes, i: nat) returns (lo: nat, hi: nat)
    requires i < |b| && b[i] != NEWLINE
    ensures lo <= i < hi && MaximalRun(b, lo, hi)
  {
    lo := i;
    while lo > 0 && b[lo - 1] != NEWLINE
      invariant lo <= i && forall k :: lo <= k <= i ==> b[k] != NEWLINE
    {
      lo := lo - 1;
    }
    hi := i + 1;
    while hi < |b| && b[hi] != NEWLINE
      invariant i < hi <= |b| && forall k :: lo <= k < hi ==> b[k] != NEWLINE
    {
      hi := hi + 1;
    }
  }

  lemma LinesGenuine(file: Bytes, pos: nat, n: nat, runs: seq<Interval>, messages: seq<Bytes>)
    requires pos + n <= |file| && LocateAll(file[pos..pos + n], runs, messages)
    ensures AllGenuine(file, At(pos, runs, messages))
  {
    var spans := At(pos, runs, messages);
    forall k | 0 <= k < |spans| ensures Genuine(file, spans[k]) {
      assert Locates(file[pos..pos + n], runs[k], messages[k]);
      SliceIn(file, pos, n, runs[k].lo, runs[k].hi);
    }
  }

  lemma LineCovered(file: Bytes, pos: nat, n: nat, i: nat)
    requires pos + n <= |file| && pos <= i < pos + n && file[i] != NEWLINE
    ensures var chunk := file[pos..pos + n];
            |LineRuns(chunk)| == |Lines(chunk)| && HandedAt(At(pos, LineRuns(chunk), Lines(chunk)), i)
  {
    var chunk := file[pos..pos + n];
    LineRunsLocateLines(chunk);
    var lo, hi := RunAround(chunk, i - pos);
    LineRunsComplete(chunk, lo, hi);
    InRunCovered(pos, LineRuns(chunk), Lines(chunk), chunk, Interval(lo, hi), i);
  }

  lemma InRunCovered(pos: nat, runs: seq<Interval>, messages: seq<Bytes>, chunk: Bytes, run: Interval, i: int)
    requires LocateAll(chunk, runs, messages) && run in runs && pos + run.lo <= i < pos + run.hi
    ensures HandedAt(At(pos, runs, messages), i)
  {
    var k :| 0 <= k < |runs| && runs[k] == run;
    assert Locates(chunk, runs[k], messages[k]);
    assert Covers(At(pos, runs, messages)[k], i);
  }

  lemma SliceIn(file: Bytes, pos: nat, n: nat, lo: nat, hi: nat)
    requires pos + n <= |file| && lo <= hi <= n
    ensures file[pos..pos + n][lo..hi] == file[pos + lo..pos + hi]
  {
    var a, b := file[pos..pos + n][lo..hi], file[pos + lo..pos + hi];
    forall i | 0 <= i < |a| ensures a[i] == b[i] {}
  }

  /** From the pending bytes and file[pos..end] come messages laid end to end from the start
      of the pending bytes, and new pending bytes at the end. */
  lemma RegexCovers(file: Bytes, h: nat, pos: nat, end: nat, buffer: Bytes, messages: seq<Bytes>, left: Bytes)
    requires h <= pos <= end <= |file| && buffer == file[h..pos]
    requires TailDelivery.Conserves(messages, left, buffer, file, pos, end)
    ensures h <= end - |left| <= end && left == file[end - |left|..end]
    ensures AllGenuine(file, Consecutive(h, messages))
    ensures forall i :: h <= i < end - |left| ==> HandedAt(Consecutive(h, messages), i)
  {
    TailDelivery.JoinSlices(file, h, pos, end);
    TailDelivery.SplitSlice(file, h, end - |left|, end, Concat(messages), left);
    ConsecutiveCover(file, h, messages);
  }

  /** What one read hands on: genuine messages, which leave nothing undone before what is
      pending after the read. */
  predicate Progress(c: Config, file: Bytes, st: State, spans: seq<Span>, st': State) {
    && AllGenuine(file, spans)
    && TailDelivery.PendingGenuine(c, st', file)
    && st.pos - |st.buffer| <= st'.pos - |st'.buffer|
    && forall i :: st.pos - |st.buffer| <= i < st'.pos - |st'.buffer| ==> Done(c, file, spans, i)
  }

  /** Messages that follow each other from the start of the pending bytes on. */
  lemma RegexProgress(c: Config, file: Bytes, st: State, n: nat, messages: seq<Bytes>, left: Bytes)
    requires c.regex.Some? && TailDelivery.PendingGenuine(c, st, file) && st.pos + n <= |file|
    requires TailDelivery.Conserves(messages, left, st.buffer, file, st.pos, st.pos + n)
    ensures Progress(c, file, st, Consecutive(PendingFrom(st), messages), st.(pos := st.pos + n, buffer := left))
  {
    hide Consecutive, TailDelivery.Conserves, AllGenuine;
    RegexCovers(file, st.pos - |st.buffer|, st.pos, st.pos + n, st.buffer, messages, left);
  }

  lemma LinesProgress(c: Config, file: Bytes, st: State, n: nat)
    requires ValidConfig(c) && c.regex.None? && TailDelivery.PendingGenuine(c, st, file) && st.pos + n <= |file|
    ensures var chunk := file[st.pos..st.pos + n];
            var left := SplitChunk(c, st.buffer, chunk).1;
            Progress(c, file, st, ChunkSpans(c, st, chunk), st.(pos := st.pos + n, buffer := left))
  {
    hide Lines, LineRuns, At;
    var chunk := file[st.pos..st.pos + n];
    var spans := ChunkSpans(c, st, chunk);
    LineRunsLocateLines(chunk);
    LinesGenuine(file, st.pos, n, LineRuns(chunk), Lines(chunk));
    forall i | st.pos <= i < st.pos + n ensures Done(c, file, spans, i) {
      if file[i] != NEWLINE {
        LineCovered(file, st.pos, n, i);
      }
    }
    assert file[st.pos + n..st.pos + n] == [];
  }

  lemma ReadProgress(c: Config, r: Run, n: nat)
    requires ValidConfig(c) && Safe(c, r) && CanRead(r, n)
    ensures Progress(c, r.file, r.live.value, ReadSpans(c, r, n), Do(c, r, Read(n)).live.value)
  {
    hide SplitChunk, Progress, Consecutive, Lines, LineRuns, At;
    var st := r.live.value;
    if c.regex.Some? {
      var (messages, left) := SplitChunk(c, st.buffer, r.file[st.pos..st.pos + n]);
      TailDelivery.ChunkConserves(c, st.buffer, r.file, st.pos, st.pos + n);
      RegexProgress(c, r.file, st, n, messages, left);
    } else {
      LinesProgress(c, r.file, st, n);
    }
  }

  lemma DoneFurther(c: Config, file: Bytes, log: seq<Span>, added: seq<Span>, from: int, to: int)
    requires DoneTo(c, file, log, from) && from <= to <= |file|
    requires forall i :: from <= i < to ==> Done(c, file, added, i)
    ensures DoneTo(c, file, log + added, to)
  {
    assert file + [] == file;
    DoneMonotone(c, file, [], log, added, from);
    forall i | from <= i < to ensures Done(c, file, log + added, i) {
      assert Done(c, file, added, i);
      if HandedAt(added, i) {
        var k :| 0 <= k < |added| && Covers(added[k], i);
        assert (log + added)[|log| + k] == added[k];
      }
    }
  }

  lemma ReadSafe(c: Config, r: Run, n: nat)
    requires ValidConfig(c) && Safe(c, r) && CanRead(r, n)
    ensures Safe(c, Do(c, r, Read(n)))
  {
    var spans, st, st' := ReadSpans(c, r, n), r.live.value, Do(c, r, Read(n)).live.value;
    ReadProgress(c, r, n);
    ProgressSafe(c, r, spans, st');
  }

  lemma ProgressSafe(c: Config, r: Run, spans: seq<Span>, st': State)
    requires Safe(c, r) && r.live.Some? && Progress(c, r.file, r.live.value, spans, st')
    ensures Safe(c, r.(live := Some(st'), log := r.log + spans))
  {
    var st := r.live.value;
    LogSafe(c, r, spans);
    DoneFurther(c, r.file, r.log, spans, st.pos - |st.buffer|, st'.pos - |st'.buffer|);
  }

  lemma PendingProgress(c: Config, file: Bytes, st: State)
    requires TailDelivery.PendingGenuine(c, st, file)
    ensures Progress(c, file, st, [Span(st.pos - |st.buffer|, st.buffer)], st.(buffer := []))
  {
    var spans := [Span(st.pos - |st.buffer|, st.buffer)];
    forall i | st.pos - |st.buffer| <= i < st.pos ensures Done(c, file, spans, i) {
      assert Covers(spans[0], i);
    }
    assert file[st.pos..st.pos] == [];
  }

  lemma HandPendingSafe(c: Config, r: Run)
    requires ValidConfig(c) && Safe(c, r) && Enabled(c, r, HandPending)
    ensures Safe(c, Do(c, r, HandPending))
  {
    var st := r.live.value;
    PendingProgress(c, r.file, st);
    hide Progress, AllGenuine, DoneTo, TailDelivery.PendingGenuine;
    ProgressSafe(c, r, [Span(st.pos - |st.buffer|, st.buffer)], st.(buffer := []));
  }

  lemma DoneLess(c: Config, file: Bytes, log: seq<Span>, to: int, less: int)
    requires DoneTo(c, file, log, to) && 0 <= less <= to
    ensures DoneTo(c, file, log, less)
  {
  }

  lemma StepSafe(c: Config, r: Run, step: Step)
    requires ValidConfig(c) && Safe(c, r) && Enabled(c, r, step)
    ensures Safe(c, Do(c, r, step))
  {
    match step
    case Append(bytes) => AppendSafe(c, r, bytes);
    case Crash =>
    case Load =>
    case Drop =>
    case Open =>
      assert [] == r.file[r.table.GetOr(0)..r.table.GetOr(0)];
    case Read(n) => ReadSafe(c, r, n);
    case ReadAndCrash(n, handed) =>
      ReadProgress(c, r, n);
      LogSafe(c, r, ReadSpans(c, r, n)[..handed]);
    case HandPending => HandPendingSafe(c, r);
    case Write(k) =>
      var h := r.live.value.pos - |r.live.value.buffer|;
      TornWriteIsEarlier(h, k);
      DoneLess(c, r.file, r.log, h, DecodePosition(EncodePosition(h)[..k]));
  }

  lemma {:induction false} RunSafe(c: Config, r: Run, steps: seq<Step>)
    requires ValidConfig(c) && Safe(c, r) && Possible(c, r, steps)
    ensures Safe(c, DoAll(c, r, steps))
    decreases steps
  {
    if steps != [] {
      StepSafe(c, r, steps[0]);
      RunSafe(c, Do(c, r, steps[0]), steps[1..]);
    }
  }

  /** Where an incarnation started now would begin to read. */
  function DurableStart(r: Run): int {
    if r.disk.Some? then DecodePosition(r.disk.value) else 0
  }

  /** At-least-once over crashes. Whatever the interleaving of appends, reads, saves, crashes
      and restarts, and wherever a crash falls, no byte is ever skipped: all bytes before the
      point a restart would resume from have been handed on, all bytes before the read
      position of a live reader have been handed on or are pending, and every message ever
      handed on is what the file holds at its place. */
  lemma CrashAtLeastOnce(c: Config, file: Bytes, steps: seq<Step>)
    requires ValidConfig(c) && |file| < TWO_TO_THE_63 && Possible(c, Fresh(file), steps)
    ensures var r := DoAll(c, Fresh(file), steps);
            && 0 <= DurableStart(r) <= |r.file|
            && (forall i :: 0 <= i < DurableStart(r) ==> Done(c, r.file, r.log, i))
            && (forall k :: 0 <= k < |r.log| ==> Genuine(r.file, r.log[k]))
            && (r.live.Some? ==>
                  var st := r.live.value;
                  && 0 <= st.pos - |st.buffer| <= st.pos <= |r.file|
                  && st.buffer == r.file[st.pos - |st.buffer|..st.pos]
                  && forall i :: 0 <= i < st.pos - |st.buffer| ==> Done(c, r.file, r.log, i))
  {
    RunSafe(c, Fresh(file), steps);
  }

  // ---- The calls are made of these steps ----

  function Messages(log: seq<Span>): (r: seq<Bytes>)
    ensures |r| == |log|
  {
    seq(|log|, k requires 0 <= k < |log| => log[k].message)
  }

  function Abstract(r: Run): TailDelivery.Tail {
    TailDelivery.Tail(r.file, r.disk, r.table, r.live, Messages(r.log))
  }

  lemma MessagesAppend(a: seq<Span>, b: seq<Span>)
    ensures Messages(a + b) == Messages(a) + Messages(b)
  {
  }

  lemma MessagesOfOne(span: Span)
    ensures Messages([span]) == [span.message]
  {
  }

  lemma {:induction false} MessagesConsecutive(off: nat, messages: seq<Bytes>)
    ensures Messages(Consecutive(off, messages)) == messages
    decreases messages
  {
    if messages != [] {
      var rest := Consecutive(off + |messages[0]|, messages[1..]);
      MessagesConsecutive(off + |messages[0]|, messages[1..]);
      MessagesAppend([Span(off, messages[0])], rest);
      assert Messages([Span(off, messages[0])]) == [messages[0]];
    }
  }

  lemma MessagesOfChunk(c: Config, st: State, chunk: Bytes)
    requires ValidConfig(c) && 0 <= st.pos
    ensures Messages(ChunkSpans(c, st, chunk)) == SplitChunk(c, st.buffer, chunk).0
  {
    if c.regex.Some? {
      MessagesConsecutive(PendingFrom(st), SplitChunk(c, st.buffer, chunk).0);
    } else {
      LineRunsLocateLines(chunk);
    }
  }

  function Reads(n: nat): seq<Step>
    decreases n
  {
    if n == 0 then [] else [Read(ChunkSize(n))] + Reads(n - ChunkSize(n))
  }

  /** The steps one action of the tailing consists of. */
  function Steps(r: Run, a: TailDelivery.Action): seq<Step>
    requires TailDelivery.Enabled(Abstract(r), a)
    requires r.live.Some? ==> 0 <= r.live.value.pos <= |r.file|
  {
    match a
    case Append(bytes) => [Append(bytes)]
    case Open => [Open]
    case Process => Reads(|r.file| - r.live.value.pos) + [Write(8)]
    case Flush => if r.live.value.buffer == [] then [] else [HandPending, Write(8)]
    case Restart => if r.disk.Some? then [Crash, Load, Drop] else [Crash]
  }

  lemma {:induction false} RunAppend(c: Config, r: Run, a: seq<Step>, b: seq<Step>)
    requires ValidConfig(c) && Possible(c, r, a) && Possible(c, DoAll(c, r, a), b)
    ensures Possible(c, r, a + b) && DoAll(c, r, a + b) == DoAll(c, DoAll(c, r, a), b)
    decreases a
  {
    if a == [] {
      assert a + b == b;
    } else {
      assert (a + b)[1..] == a[1..] + b;
      RunAppend(c, Do(c, r, a[0]), a[1..], b);
    }
  }

  /** The run after some reads: only the reader and the log have moved on. */
  predicate ReadTo(r: Run, messages: seq<Bytes>, left: Bytes, pos: nat, r': Run)
    requires r.live.Some?
  {
    && (r'.file, r'.disk, r'.table) == (r.file, r.disk, r.table)
    && r'.live == Some(r.live.value.(pos := pos, buffer := left))
    && Messages(r'.log) == Messages(r.log) + messages
  }

  lemma ReadToJoin(r: Run, r1: Run, r2: Run, first: seq<Bytes>, carried: Bytes, mid: nat, rest: seq<Bytes>,
                   left: Bytes, end: nat)
    requires r.live.Some? && ReadTo(r, first, carried, mid, r1) && ReadTo(r1, rest, left, end, r2)
    ensures ReadTo(r, first + rest, left, end, r2)
  {
    AppendAssociates(Messages(r.log), first, rest);
  }

  lemma ReadNothing(r: Run)
    requires r.live.Some? && 0 <= r.live.value.pos
    ensures ReadTo(r, [], r.live.value.buffer, r.live.value.pos, r)
  {
    assert Messages(r.log) + [] == Messages(r.log);
  }

  lemma OneRead(c: Config, r: Run, n: nat)
    requires ValidConfig(c) && CanRead(r, n)
    ensures var st := r.live.value;
            var (first, carried) := SplitChunk(c, st.buffer, r.file[st.pos..st.pos + n]);
            ReadTo(r, first, carried, st.pos + n, Do(c, r, Read(n)))
  {
    hide SplitChunk, ChunkSpans, Messages;
    var st := r.live.value;
    MessagesOfChunk(c, st, r.file[st.pos..st.pos + n]);
    MessagesAppend(r.log, ReadSpans(c, r, n));
  }

  lemma {:induction false} ReadsAreReadRegion(c: Config, r: Run, n: nat)
    requires ValidConfig(c) && CanRead(r, n)
    ensures var st := r.live.value;
            var (messages, left) := ReadRegion(c, st.buffer, r.file, st.pos, st.pos + n);
            && Possible(c, r, Reads(n))
            && ReadTo(r, messages, left, st.pos + n, DoAll(c, r, Reads(n)))
    decreases n
  {
    hide SplitChunk, Messages, Do;
    var st := r.live.value;
    if n == 0 {
      ReadNothing(r);
    } else {
      var m := ChunkSize(n);
      var mid := Do(c, r, Read(m));
      OneRead(c, r, m);
      ReadsAreReadRegion(c, mid, n - m);
      ReadsUnfold(c, r, n);
      var (first, carried) := SplitChunk(c, st.buffer, r.file[st.pos..st.pos + m]);
      var (rest, left) := ReadRegion(c, carried, r.file, st.pos + m, st.pos + n);
      ReadToJoin(r, mid, DoAll(c, mid, Reads(n - m)), first, carried, st.pos + m, rest, left, st.pos + n);
    }
  }

  lemma ReadsUnfold(c: Config, r: Run, n: nat)
    requires ValidConfig(c) && CanRead(r, n) && 0 < n
    requires Possible(c, Do(c, r, Read(ChunkSize(n))), Reads(n - ChunkSize(n)))
    ensures Possible(c, r, Reads(n))
    ensures DoAll(c, r, Reads(n)) == DoAll(c, Do(c, r, Read(ChunkSize(n))), Reads(n - ChunkSize(n)))
  {
    assert Reads(n)[1..] == Reads(n - ChunkSize(n));
  }

  /** Refinement: every action of the tailing, when offsets are saved, is its steps, so the
      crashes above fall at every point inside a read, a flush or a start-up. */
  lemma ActionsAreSteps(c: Config, r: Run, a: TailDelivery.Action)
    requires ValidConfig(c) && !c.followOnly && TailDelivery.Enabled(Abstract(r), a)
    requires r.live.Some? ==> TailDelivery.PendingGenuine(c, r.live.value, r.file) && !r.live.value.failed
    ensures Possible(c, r, Steps(r, a))
    ensures Abstract(DoAll(c, r, Steps(r, a))) == TailDelivery.Do(c, Abstract(r), a)
  {
    match a
    case Append(bytes) =>
    case Open =>
    case Process => ProcessIsSteps(c, r);
    case Flush =>
      assert Messages(r.log) + [] == Messages(r.log);
      if r.live.value.buffer != [] {
        FlushIsSteps(c, r);
      }
    case Restart =>
      if r.disk.Some? {
        var crashed := Do(c, r, Crash);
        assert [Crash, Load, Drop][1..] == [Load, Drop] && [Load, Drop][1..] == [Drop];
        assert Possible(c, Do(c, crashed, Load), [Drop]);
        assert Possible(c, crashed, [Load, Drop]);
      }
  }

  lemma ProcessIsSteps(c: Config, r: Run)
    requires ValidConfig(c) && !c.followOnly && r.live.Some?
    requires TailDelivery.PendingGenuine(c, r.live.value, r.file) && !r.live.value.failed
    ensures Possible(c, r, Steps(r, TailDelivery.Process))
    ensures Abstract(DoAll(c, r, Steps(r, TailDelivery.Process))) ==
            TailDelivery.Do(c, Abstract(r), TailDelivery.Process)
  {
    hide SplitChunk, Messages, ReadRegion, Processed, ReadTo, Reads;
    var st := r.live.value;
    var n := |r.file| - st.pos;
    ReadsAreReadRegion(c, r, n);
    var read := DoAll(c, r, Reads(n));
    var (messages, left) := ReadRegion(c, st.buffer, r.file, st.pos, |r.file|);
    ProcessedGrown(c, st, r.file, messages, left);
    WriteIsSave(c, r, read, Outcome(st.(pos := |r.file|, buffer := left), messages, true));
    OneStep(c, read, Write(8));
    RunAppend(c, r, Reads(n), [Write(8)]);
  }

  lemma OneStep(c: Config, r: Run, step: Step)
    requires ValidConfig(c) && Enabled(c, r, step)
    ensures Possible(c, r, [step]) && DoAll(c, r, [step]) == Do(c, r, step)
  {
  }

  lemma WriteIsSave(c: Config, r: Run, read: Run, o: Outcome)
    requires ValidConfig(c) && r.live.Some? && o.saves && 0 <= o.state.pos
    requires o.state == r.live.value.(pos := o.state.pos, buffer := o.state.buffer)
    requires ReadTo(r, o.messages, o.state.buffer, o.state.pos, read)
    ensures Enabled(c, read, Write(8))
    ensures Abstract(Do(c, read, Write(8))) == TailDelivery.Outcome1(Abstract(r), o)
  {
    var all := EncodePosition(SavedOffset(o.state));
    assert all[..8] == all;
  }

  /** Without failures, one call reads everything that was added and saves. */
  lemma ProcessedGrown(c: Config, st: State, file: Bytes, messages: seq<Bytes>, left: Bytes)
    requires ValidConfig(c) && !c.followOnly && !st.failed && 0 <= st.pos <= |file|
    requires (messages, left) == ReadRegion(c, st.buffer, file, st.pos, |file|)
    ensures Processed(c, st, file, |file|) == Outcome(st.(pos := |file|, buffer := left), messages, true)
  {
    if st.pos < |file| {
      ReadOnGrown(c, st, file, messages, left);
    }
  }

  lemma ReadOnGrown(c: Config, st: State, file: Bytes, messages: seq<Bytes>, left: Bytes)
    requires ValidConfig(c) && !st.failed && 0 <= st.pos < |file|
    requires (messages, left) == ReadRegion(c, st.buffer, file, st.pos, |file|)
    ensures ReadOn(c, st, file, |file|) == Outcome(st.(pos := |file|, buffer := left), messages, true)
  {
    hide ReadRegion;
    assert st.pos + Min(|file| - st.pos, |file|) == |file|;
  }

  lemma FlushIsSteps(c: Config, r: Run)
    requires ValidConfig(c) && r.live.Some? && r.live.value.buffer != []
    requires TailDelivery.PendingGenuine(c, r.live.value, r.file)
    ensures var steps := [HandPending, Write(8)];
            && Possible(c, r, steps)
            && Abstract(DoAll(c, r, steps)) == TailDelivery.Do(c, Abstract(r), TailDelivery.Flush)
  {
    hide Messages, EncodePosition;
    var st := r.live.value;
    var handed := Do(c, r, HandPending);
    MessagesAppend(r.log, [Span(st.pos - |st.buffer|, st.buffer)]);
    MessagesOfOne(Span(st.pos - |st.buffer|, st.buffer));
    WriteIsSave(c, r, handed, Flushed(st));
    OneStep(c, r, HandPending);
    OneStep(c, handed, Write(8));
    RunAppend(c, r, [HandPending], [Write(8)]);
  }
}
