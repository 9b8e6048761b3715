/**
 What tailing delivers over whole runs: which calls keep every byte in step, exactly-once
 over clean restarts and at-least-once over crashes.
 */
module TailDelivery {
  import opened Common
  import opened TailSplitter
  import opened TailLines
  import opened SavePositions
  import opened TailRecord

  // ---- One call ----

  /** The bytes delivered so far and the pending ones are the file up to the read position. */
  predicate InStep(s: State, delivered: Bytes, file: Bytes) {
    0 <= s.pos <= |file| && delivered + s.buffer == file[..s.pos]
  }

  /** `messages` and `left` are made of the pending bytes followed by file[from..end]. */
  predicate Conserves(messages: seq<Bytes>, left: Bytes, buffer: Bytes, file: Bytes, from: nat, end: nat)
    requires from <= end <= |file|
  {
    Concat(messages) + left == buffer + file[from..end]
  }

  lemma ChunkConserves(c: Config, buffer: Bytes, file: Bytes, from: nat, mid: nat)
    requires ValidConfig(c) && c.regex.Some? && from <= mid <= |file|
    ensures var (messages, left) := SplitChunk(c, buffer, file[from..mid]);
            Conserves(messages, left, buffer, file, from, mid)
  {
    var chunk := file[from..mid];
    RegexSplitConserves(buffer, chunk, c.regex.value(chunk));
  }

  lemma ConservesJoin(first: seq<Bytes>, carried: Bytes, rest: seq<Bytes>, left: Bytes, buffer: Bytes, file: Bytes,
                      from: nat, mid: nat, end: nat)
    requires from <= mid <= end <= |file|
    requires Conserves(first, carried, buffer, file, from, mid) && Conserves(rest, left, carried, file, mid, end)
    ensures Conserves(first + rest, left, buffer, file, from, end)
  {
    ConcatAppend(first, rest);
    Regroup(Concat(first), Concat(rest), left, carried, buffer, file[from..mid], file[mid..end]);
    JoinSlices(file, from, mid, end);
  }

  lemma ConservesNothing(buffer: Bytes, file: Bytes, from: nat)
    requires from <= |file|
    ensures Conserves([], buffer, buffer, file, from, from)
  {
    assert buffer + file[from..from] == buffer;
    assert [] + buffer == buffer;
  }

  lemma {:induction false} ReadRegionConserves(c: Config, buffer: Bytes, file: Bytes, from: nat, end: nat)
    requires ValidConfig(c) && c.regex.Some? && from <= end <= |file|
    ensures var (messages, left) := ReadRegion(c, buffer, file, from, end);
            Conserves(messages, left, buffer, file, from, end)
    decreases end - from
  {
    if from == end {
      ConservesNothing(buffer, file, from);
    } else {
      var mid := from + ChunkSize(end - from);
      ChunkConserves(c, buffer, file, from, mid);
      var (first, carried) := SplitChunk(c, buffer, file[from..mid]);
      var (rest, left) := ReadRegion(c, carried, file, mid, end);
      ReadRegionConserves(c, carried, file, mid, end);
      ConservesJoin(first, carried, rest, left, buffer, file, from, mid, end);
    }
  }

  lemma Regroup(a: Bytes, b: Bytes, left: Bytes, carried: Bytes, buffer: Bytes, chunk: Bytes, tail: Bytes)
    requires a + carried == buffer + chunk && b + left == carried + tail
    ensures (a + b) + left == buffer + (chunk + tail)
  {
    AppendAssociates(a, b, left);
    AppendAssociates(a, carried, tail);
    AppendAssociates(buffer, chunk, tail);
  }

  /** The call jumps to the end of the file because only new content is wanted. */
  predicate SkipsExisting(c: Config, s: State, file: Bytes) {
    c.followOnly && !s.firstRead && Resume(s, file) != |file|
  }

  /** What reading on conserves, and how far it gets. */
  lemma ReadOnConserves(c: Config, s: State, file: Bytes, readable: nat)
    requires ValidConfig(c) && c.regex.Some? && 0 <= s.pos < |file|
    ensures var o := ReadOn(c, s, file, readable);
            && o.state.pos == s.pos + Min(|file| - s.pos, readable)
            && o.state.failed == (o.state.pos < |file|) && o.saves
            && Conserves(o.messages, o.state.buffer, s.buffer, file, s.pos, o.state.pos)
  {
    hide ReadRegion, Conserves;
    ReadRegionConserves(c, s.buffer, file, s.pos, s.pos + Min(|file| - s.pos, readable));
  }

  lemma InStepMore(s: State, delivered: Bytes, file: Bytes, messages: seq<Bytes>, left: Bytes, end: nat)
    requires InStep(s, delivered, file) && s.pos <= end <= |file|
    requires Conserves(messages, left, s.buffer, file, s.pos, end)
    ensures InStep(s.(pos := end, buffer := left), delivered + Concat(messages), file)
  {
    AppendAssociates(delivered, Concat(messages), left);
    AppendAssociates(delivered, s.buffer, file[s.pos..end]);
    assert file[..s.pos] + file[s.pos..end] == file[..end];
  }

  /** On a file that only grew, a call keeps every byte in step exactly when it does not
      skip the existing content, however short the read comes up. */
  lemma ProcessKeepsStepIff(c: Config, s: State, file: Bytes, grown: Bytes, readable: nat, delivered: Bytes)
    requires ValidConfig(c) && c.regex.Some? && !s.failed
    requires InStep(s, delivered, file) && file <= grown
    ensures var o := Processed(c, s, grown, readable);
            InStep(o.state, delivered + Concat(o.messages), grown) <==> !SkipsExisting(c, s, grown)
  {
    assert grown[..s.pos] == file[..s.pos];
    var o := Processed(c, s, grown, readable);
    if s.pos < |grown| {
      if SkipsExisting(c, s, grown) {
        assert |delivered + s.buffer| == s.pos;
        assert delivered + Concat<byte>([]) == delivered;
      } else {
        ReadOnConserves(c, s, grown, readable);
        InStepMore(s, delivered, grown, o.messages, o.state.buffer, o.state.pos);
      }
    } else {
      assert delivered + Concat<byte>([]) == delivered;
    }
  }

  /** When reading starts over, because the file shrank or a read had failed, the new
      content is in step exactly when no unfinished message was pending: the pending bytes
      of the old content are not dropped. */
  lemma StartOverInStepIff(c: Config, s: State, file: Bytes, readable: nat)
    requires ValidConfig(c) && c.regex.Some? && (s.failed || Shrunk(s, file))
    requires !s.failed ==> !SkipsExisting(c, s, file)
    ensures var o := Processed(c, s, file, readable);
            InStep(o.state, Concat(o.messages), file) <==> s.buffer == []
  {
    var o := Processed(c, s, file, readable);
    if !s.failed && file != [] {
      var end := Min(|file|, readable);
      ReadRegionConserves(c, s.buffer, file, 0, end);
      assert file[0..end] == file[..end];
      assert |s.buffer + file[0..end]| == |s.buffer| + end;
      if s.buffer == [] {
        assert s.buffer + file[0..end] == file[..end];
      }
    }
  }

  /** A pending message that outlives a truncation to nothing makes the saved offset negative. */
  lemma NegativeOffsetAfterTruncation(c: Config)
    requires ValidConfig(c)
    ensures var s := State(3, [65, 66, 67], true, false);
            SavedOffset(Processed(c, s, [], 0).state) == -3
  {
  }

  // ---- Both ways of splitting ----

  /** What of the bytes is to be delivered: newlines only separate messages. */
  function Content(c: Config, b: Bytes): Bytes {
    if c.regex.Some? then b else WithoutNewlines(b)
  }

  lemma ContentAppend(c: Config, a: Bytes, b: Bytes)
    ensures Content(c, a + b) == Content(c, a) + Content(c, b)
  {
    WithoutNewlinesAppend(a, b);
  }

  /** The pending bytes are what the file holds before the read position. */
  predicate PendingGenuine(c: Config, st: State, file: Bytes) {
    && 0 <= st.pos - |st.buffer| <= st.pos <= |file|
    && st.buffer == file[st.pos - |st.buffer|..st.pos]
    && (c.regex.None? ==> st.buffer == [])
  }

  /** The messages are what is to be delivered of the file between what was pending before and
      what is pending afterwards. */
  predicate Delivers(c: Config, st: State, o: Outcome, file: Bytes) {
    && PendingGenuine(c, st, file) && PendingGenuine(c, o.state, file)
    && st.pos - |st.buffer| <= o.state.pos - |o.state.buffer|
    && Concat(o.messages) == Content(c, file[st.pos - |st.buffer|..o.state.pos - |o.state.buffer|])
  }

  lemma DeliveredBytes(c: Config, st: State, o: Outcome, file: Bytes)
    requires Delivers(c, st, o, file)
    ensures var h, h' := st.pos - |st.buffer|, o.state.pos - |o.state.buffer|;
            0 <= h <= h' <= |file| && Concat(o.messages) == Content(c, file[h..h'])
  {
  }

  lemma {:induction false} ReadRegionLines(c: Config, buffer: Bytes, file: Bytes, from: nat, end: nat)
    requires ValidConfig(c) && c.regex.None? && from <= end <= |file|
    ensures var (messages, left) := ReadRegion(c, buffer, file, from, end);
            left == buffer && Concat(messages) == WithoutNewlines(file[from..end])
    decreases end - from
  {
    if from < end {
      var mid := from + ChunkSize(end - from);
      var rest := ReadRegion(c, buffer, file, mid, end).0;
      ReadRegionLines(c, buffer, file, mid, end);
      LinesConserve(file[from..mid]);
      ConcatAppend(Lines(file[from..mid]), rest);
      WithoutNewlinesAppend(file[from..mid], file[mid..end]);
      JoinSlices(file, from, mid, end);
    }
  }

  /** What a read delivers, in either mode, however short it comes up. */
  lemma ReadDelivers(c: Config, st: State, file: Bytes, readable: nat)
    requires ValidConfig(c) && PendingGenuine(c, st, file) && st.pos < |file|
    ensures Delivers(c, st, ReadOn(c, st, file, readable), file)
  {
    hide ReadRegion;
    var o := ReadOn(c, st, file, readable);
    var h, end := st.pos - |st.buffer|, o.state.pos;
    if c.regex.Some? {
      ReadOnConserves(c, st, file, readable);
      JoinSlices(file, h, st.pos, end);
      SplitSlice(file, h, end - |o.state.buffer|, end, Concat(o.messages), o.state.buffer);
    } else {
      ReadRegionLines(c, st.buffer, file, st.pos, end);
    }
  }

  /** What a call delivers to a record that did not fail or run past the file. */
  lemma ProcessDelivers(c: Config, st: State, file: Bytes)
    requires ValidConfig(c) && !c.followOnly && !st.failed && PendingGenuine(c, st, file)
    ensures var o := Processed(c, st, file, |file|);
            Delivers(c, st, o, file) && !o.state.failed && o.state.pos == |file| && o.saves
  {
    hide ReadRegion;
    var o := Processed(c, st, file, |file|);
    if st.pos < |file| {
      ReadDelivers(c, st, file, |file|);
      assert o == ReadOn(c, st, file, |file|);
    } else {
      NothingDelivers(c, st, o, file);
    }
  }

  lemma FlushDelivers(c: Config, st: State, file: Bytes)
    requires PendingGenuine(c, st, file)
    ensures Delivers(c, st, Flushed(st), file)
  {
    assert file[st.pos..st.pos] == [];
    if st.buffer != [] {
      ConcatOne([], st.buffer);
      assert Concat([st.buffer]) == st.buffer;
    }
  }

  /** Nothing to read: nothing is delivered. */
  lemma NothingDelivers(c: Config, st: State, o: Outcome, file: Bytes)
    requires PendingGenuine(c, st, file) && o.state == st && o.messages == []
    ensures Delivers(c, st, o, file)
  {
    var h := st.pos - |st.buffer|;
    assert file[h..h] == [];
  }

  // ---- Clean restarts ----

  /** One tailed file, its saved offset, and the messages of all incarnations so far. */
  datatype Tail = Tail(
    file: Bytes,
    disk: Option<Bytes>,
    table: Option<int>,
    live: Option<State>,
    emitted: seq<Bytes>)

  datatype Action =
    | Append(bytes: Bytes)   // the application writes
    | Open                   // the first event of the file in this incarnation
    | Process                // a modification event
    | Flush                  // the timer
    | Restart                // the process ends between two actions and starts again

  predicate Enabled(s: Tail, a: Action) {
    match a
    case Append(bytes) => |s.file| + |bytes| < TWO_TO_THE_63
    case Open => s.live.None?
    case Process => s.live.Some?
    case Flush => s.live.Some?
    case Restart => true
  }

  function Outcome1(s: Tail, o: Outcome): Tail {
    s.(live := Some(o.state),
    emitted := s.emitted + o.messages,
    disk := if o.saves then Some(EncodePosition(SavedOffset(o.state))) else s.disk)
  }

  ghost function Do(c: Config, s: Tail, a: Action): Tail
    requires ValidConfig(c) && Enabled(s, a)
  {
    match a
    case Append(bytes) => s.(file := s.file + bytes)
    case Open => s.(live := Some(State(s.table.GetOr(0), [], false, false)))
    case Process => Outcome1(s, Processed(c, s.live.value, s.file, |s.file|))
    case Flush => Outcome1(s, Flushed(s.live.value))
    case Restart =>
      // Initialisation reads the saved offset and deletes it.
      s.(table := if s.disk.Some? then Some(DecodePosition(s.disk.value)) else None, disk := None, live := None)
  }

  ghost predicate Possible(c: Config, s: Tail, acts: seq<Action>)
    requires ValidConfig(c)
    decreases acts
  {
    acts != [] ==> Enabled(s, acts[0]) && Possible(c, Do(c, s, acts[0]), acts[1..])
  }

  ghost function Run(c: Config, s: Tail, acts: seq<Action>): Tail
    requires ValidConfig(c) && Possible(c, s, acts)
    decreases acts
  {
    if acts == [] then s else Run(c, Do(c, s, acts[0]), acts[1..])
  }

  /** How much of the file counts as delivered: what precedes the unfinished message, or
      what a restart resumes from. */
  function Handed(s: Tail): int {
    if s.live.Some? then s.live.value.pos - |s.live.value.buffer| else s.table.GetOr(0)
  }

  /** The messages of all incarnations are exactly the delivered part of the file; in newline
      mode, without its newlines. */
  predicate ExactlyOnce(c: Config, s: Tail) {
    0 <= Handed(s) <= |s.file| && Concat(s.emitted) == Content(c, s.file[..Handed(s)])
  }

  /** A restart finds a saved offset, or there was nothing to lose. */
  predicate OffsetSaved(s: Tail) {
    s.disk.Some? || Concat(s.emitted) == []
  }

  ghost predicate EveryRestartSaved(c: Config, s: Tail, acts: seq<Action>)
    requires ValidConfig(c) && Possible(c, s, acts)
    decreases acts
  {
    acts != [] ==>
      (acts[0].Restart? ==> OffsetSaved(s)) && EveryRestartSaved(c, Do(c, s, acts[0]), acts[1..])
  }

  /** The configurations that promise it: offsets are saved. The program refuses to save offsets
      when only new content is wanted. */
  ghost predicate SavesOffsets(c: Config) {
    ValidConfig(c) && c.saveState && !c.followOnly
  }

  /** How many bytes were delivered again, and everything known about a reachable state. */
  ghost predicate Reached(c: Config, s: Tail, again: int) {
    && |s.file| < TWO_TO_THE_63
    && 0 <= Handed(s) <= |s.file|
    && |Concat(s.emitted)| == |Content(c, s.file[..Handed(s)])| + again
    && 0 <= again
    && (again == 0 ==> Concat(s.emitted) == Content(c, s.file[..Handed(s)]))
    && (s.live.Some? ==> LiveReached(c, s.live.value, s.file))
    && (s.live.None? ==> s.disk.None?)
    && (s.disk.Some? ==> s.disk == Some(EncodePosition(Handed(s))))
  }

  predicate LiveReached(c: Config, st: State, file: Bytes) {
    !st.failed && PendingGenuine(c, st, file)
  }

  function Fresh(file: Bytes): Tail {
    Tail(file, None, None, None, [])
  }

  /** A state delivers exactly once when nothing was delivered again. */
  lemma ExactlyOnceMeansNoneAgain(c: Config, s: Tail, again: int)
    requires Reached(c, s, again)
    ensures ExactlyOnce(c, s) <==> again == 0
  {
  }

  /** Delivering what continues the file keeps everything known. */
  lemma DeliveredMore(c: Config, s: Tail, again: int, o: Outcome)
    requires Reached(c, s, again) && s.live.Some?
    requires !o.state.failed && Delivers(c, s.live.value, o, s.file)
    requires o.saves || (o.state == s.live.value && o.messages == [])
    ensures Reached(c, Outcome1(s, o), again)
  {
    hide Content, EncodePosition;
    var file, h, h' := s.file, Handed(s), o.state.pos - |o.state.buffer|;
    ConcatAppend(s.emitted, o.messages);
    assert file[..h'] == file[..h] + file[h..h'];
    ContentAppend(c, file[..h], file[h..h']);
  }

  lemma JoinSlices(file: Bytes, a: nat, b: nat, c: nat)
    requires a <= b <= c <= |file|
    ensures file[a..b] + file[b..c] == file[a..c]
  {
  }

  lemma SplitSlice(file: Bytes, a: nat, b: nat, c: nat, x: Bytes, y: Bytes)
    requires a <= c <= |file| && x + y == file[a..c] && b == c - |y|
    ensures a <= b <= c && x == file[a..b] && y == file[b..c]
  {
    assert |x + y| == c - a;
    assert x == (x + y)[..|x|] && y == (x + y)[|x|..];
    assert file[a..c][..b - a] == file[a..b];
    assert file[a..c][b - a..] == file[b..c];
  }

  lemma ProcessReached(c: Config, s: Tail, again: int)
    requires SavesOffsets(c) && Reached(c, s, again) && s.live.Some?
    ensures Reached(c, Do(c, s, Process), again)
  {
    hide Content, EncodePosition, Processed;
    ProcessDelivers(c, s.live.value, s.file);
    DeliveredMore(c, s, again, Processed(c, s.live.value, s.file, |s.file|));
  }

  lemma FlushReached(c: Config, s: Tail, again: int)
    requires ValidConfig(c) && Reached(c, s, again) && s.live.Some?
    ensures Reached(c, Do(c, s, Flush), again)
  {
    hide Content, EncodePosition;
    FlushDelivers(c, s.live.value, s.file);
    DeliveredMore(c, s, again, Flushed(s.live.value));
  }

  /** What one action does to the number of bytes delivered again. */
  function AgainAfter(s: Tail, a: Action, again: int): int {
    if a.Restart? && s.disk.None? then |Concat(s.emitted)| else again
  }

  lemma StepReached(c: Config, s: Tail, a: Action, again: int)
    requires SavesOffsets(c) && Reached(c, s, again) && Enabled(s, a)
    ensures Reached(c, Do(c, s, a), AgainAfter(s, a, again))
  {
    hide Concat, Content, EncodePosition, DecodePosition, Processed;
    match a
    case Append(bytes) => AppendReached(c, s, bytes, again);
    case Open =>
    case Process => ProcessReached(c, s, again);
    case Flush => FlushReached(c, s, again);
    case Restart => RestartReached(c, s, again);
  }

  lemma AppendReached(c: Config, s: Tail, bytes: Bytes, again: int)
    requires Reached(c, s, again) && |s.file| + |bytes| < TWO_TO_THE_63
    ensures Reached(c, s.(file := s.file + bytes), again)
  {
    hide Concat, Content, EncodePosition;
    assert (s.file + bytes)[..Handed(s)] == s.file[..Handed(s)];
    if s.live.Some? {
      var st := s.live.value;
      assert (s.file + bytes)[st.pos - |st.buffer|..st.pos] == s.file[st.pos - |st.buffer|..st.pos];
    }
  }

  lemma RestartReached(c: Config, s: Tail, again: int)
    requires ValidConfig(c) && Reached(c, s, again)
    ensures Reached(c, Do(c, s, Restart), AgainAfter(s, Restart, again))
  {
    hide Concat, EncodePosition, DecodePosition;
    if s.disk.Some? {
      PositionRoundTrip(Handed(s));
    } else {
      assert s.file[..0] == [];
    }
  }

  lemma {:induction false} RunReached(c: Config, s: Tail, acts: seq<Action>, again: int) returns (finally: int)
    requires SavesOffsets(c) && Reached(c, s, again) && Possible(c, s, acts)
    ensures Reached(c, Run(c, s, acts), finally) && again <= finally
    ensures again == 0 ==> (finally == 0 <==> EveryRestartSaved(c, s, acts))
    decreases acts
  {
    finally := again;
    if acts != [] {
      var next := AgainAfter(s, acts[0], again);
      StepReached(c, s, acts[0], again);
      finally := RunReached(c, Do(c, s, acts[0]), acts[1..], next);
    }
  }

  /** Exactly-once over clean restarts, in either mode. Over every run of appends, reads, flushes
      and clean restarts, the messages of all incarnations concatenate to exactly the delivered
      part of the file, in newline mode without its newlines, if and only if every restart found
      an offset that its incarnation had saved (initialisation deletes the one it loaded) or
      nothing had been delivered yet. */
  lemma ExactlyOnceIff(c: Config, file: Bytes, acts: seq<Action>)
    requires SavesOffsets(c) && |file| < TWO_TO_THE_63 && Possible(c, Fresh(file), acts)
    ensures ExactlyOnce(c, Run(c, Fresh(file), acts)) <==> EveryRestartSaved(c, Fresh(file), acts)
  {
    assert Reached(c, Fresh(file), 0) by { assert file[..0] == []; }
    var again := RunReached(c, Fresh(file), acts, 0);
    ExactlyOnceMeansNoneAgain(c, Run(c, Fresh(file), acts), again);
  }

  lemma {:induction false} RunAppend(c: Config, s: Tail, a: seq<Action>, b: seq<Action>)
    requires ValidConfig(c) && Possible(c, s, a) && Possible(c, Run(c, s, a), b)
    ensures Possible(c, s, a + b) && Run(c, s, a + b) == Run(c, Run(c, s, a), b)
    decreases a
  {
    if a == [] {
      assert a + b == b;
    } else {
      assert (a + b)[1..] == a[1..] + b;
      RunAppend(c, Do(c, s, a[0]), a[1..], b);
    }
  }

  /** Two restarts in a row: the second one finds no offset, and everything that was delivered
      before is to be delivered again. */
  lemma RestartedTwice(c: Config, file: Bytes, acts: seq<Action>)
    requires SavesOffsets(c) && |file| < TWO_TO_THE_63 && Possible(c, Fresh(file), acts)
    requires Concat(Run(c, Fresh(file), acts).emitted) != []
    ensures var twice := acts + [Restart, Restart];
            && Possible(c, Fresh(file), twice)
            && Handed(Run(c, Fresh(file), twice)) == 0
            && !ExactlyOnce(c, Run(c, Fresh(file), twice))
  {
    var s := Run(c, Fresh(file), acts);
    var s1 := Do(c, s, Restart);
    var s2 := Do(c, s1, Restart);
    assert [Restart, Restart][1..] == [Restart] && [Restart][1..] == [];
    assert Possible(c, s1, [Restart]) && Run(c, s1, [Restart]) == s2;
    assert Possible(c, s, [Restart, Restart]) && Run(c, s, [Restart, Restart]) == s2;
    RunAppend(c, Fresh(file), acts, [Restart, Restart]);
    assert s2.file[..0] == [];
  }
}
