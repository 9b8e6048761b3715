/** One tailed file: its read position, the bytes of an unfinished message, and reading on. */
module TailRecord {
  import opened Common
  import opened TailSplitter
  import opened TailLines
  import opened SavePositions

  const READ_BUFFER_SIZE: nat := 4096 * 1024

  /** The regular expression, if any, as the list of match positions it reports in a chunk. */
  datatype Config = Config(regex: Option<Bytes -> seq<nat>>, followOnly: bool, saveState: bool)

  ghost predicate ValidConfig(c: Config) {
    c.regex.Some? ==> forall b: Bytes :: Ordered(0, c.regex.value(b), |b|)
  }

  /** `failed` is the failure flag a short read or a bad seek leaves on the file stream. */
  datatype State = State(pos: int, buffer: Bytes, firstRead: bool, failed: bool)

  datatype Outcome = Outcome(state: State, messages: seq<Bytes>, saves: bool)

  ghost function SplitChunk(c: Config, buffer: Bytes, chunk: Bytes): (seq<Bytes>, Bytes)
    requires ValidConfig(c)
  {
    if c.regex.Some? then RegexSplit(buffer, chunk, c.regex.value(chunk)) else (Lines(chunk), buffer)
  }

  function ChunkSize(left: nat): nat {
    if left < READ_BUFFER_SIZE then left else READ_BUFFER_SIZE
  }

  /** Reading file[from..end] on, one buffer-full at a time. */
  ghost function ReadRegion(c: Config, buffer: Bytes, file: Bytes, from: nat, end: nat): (seq<Bytes>, Bytes)
    requires ValidConfig(c) && from <= end <= |file|
    decreases end - from
  {
    if from == end then ([], buffer) else
      var n := ChunkSize(end - from);
      var (first, carried) := SplitChunk(c, buffer, file[from..from + n]);
      var (rest, left) := ReadRegion(c, carried, file, from + n, end);
      (first + rest, left)
  }

  /** The file is shorter than the read position: reading starts over. */
  predicate Shrunk(s: State, file: Bytes) {
    |file| < s.pos
  }

  function Resume(s: State, file: Bytes): int {
    if Shrunk(s, file) then 0 else s.pos
  }

  /** Reading what lies after `pos`, when there is something: nothing after a seek before
      the start of the file, and otherwise everything unless the stream gives out after
      `readable` bytes. A read that comes up short leaves the stream failed. */
  ghost function ReadOn(c: Config, s: State, file: Bytes, readable: nat): Outcome
    requires ValidConfig(c) && s.pos < |file|
  {
    if s.pos < 0 then Outcome(s.(failed := true), [], true) else
      var end := s.pos + Min(|file| - s.pos, readable);
      var (messages, left) := ReadRegion(c, s.buffer, file, s.pos, end);
      Outcome(s.(pos := end, buffer := left, failed := end < |file|), messages, true)
  }

  ghost function Processed(c: Config, s: State, file: Bytes, readable: nat): Outcome
    requires ValidConfig(c)
  {
    if s.failed then
      Outcome(s.(pos := 0, failed := false), [], false)
    else
      var from := Resume(s, file);
      if |file| == from then
        Outcome(s.(pos := from), [], true)
      else if !s.firstRead && c.followOnly then
        Outcome(s.(pos := |file|, firstRead := true), [], false)
      else
        ReadOn(c, s.(pos := from), file, readable)
  }

  function Flushed(s: State): Outcome {
    if s.buffer == [] then Outcome(s, [], false) else Outcome(s.(buffer := []), [s.buffer], true)
  }

  /** The offset that is saved: what precedes the unfinished message. */
  function SavedOffset(s: State): int {
    Wrap(s.pos - |s.buffer|)
  }

  class Record {
    const config: Config
    const fd: nat                  // the open file, whatever it is called now
    const symlink: bool
    const store: SavePositionServer
    var filename: string
    var open: bool
    var pos: int
    var buffer: Bytes
    var firstRead: bool
    var failed: bool
    var queue: seq<Bytes>          // the messages handed to the input queue

    constructor (config: Config, filename: string, fd: nat, symlink: bool, store: SavePositionServer)
      requires filename != ""
      ensures this.config == config && this.filename == filename && this.fd == fd
      ensures this.symlink == symlink && this.store == store && open && queue == []
      ensures Get() == State(if config.saveState then store.GetSavedPosition(filename) else 0, [], false, false)
    {
      this.config, this.filename, this.fd, this.symlink, this.store := config, filename, fd, symlink, store;
      open := true;
      buffer, firstRead, failed, queue := [], false, false, [];
      pos := if config.saveState then store.GetSavedPosition(filename) else 0;
    }

    ghost predicate Valid()
      reads this`filename
    {
      filename != "" && ValidConfig(config)
    }

    function Get(): State
      reads this`pos, this`buffer, this`firstRead, this`failed
    {
      State(pos, buffer, firstRead, failed)
    }

    /** The data directory after an outcome. */
    ghost function DiskAfter(disk: map<string, Bytes>, o: Outcome): map<string, Bytes>
      requires filename != ""
      reads this`filename
    {
      if o.saves && config.saveState
      then disk[SavedName(filename) := EncodePosition(SavedOffset(o.state))]
      else disk
    }

    method ProcessMessage(message: Bytes)
      modifies this`queue
      ensures queue == old(queue) + [message]
    {
      queue := queue + [message];
    }

    method Save()
      requires Valid()
      modifies store`disk
      ensures store.disk == DiskAfter(old(store.disk), Outcome(Get(), [], true))
    {
      if config.saveState {
        store.SavePosition(filename, Wrap(pos - |buffer|));
      }
    }

    method ProcessBuffer(chunk: Bytes)
      requires Valid()
      modifies this`queue, this`buffer
      ensures (queue, buffer) ==
              var (messages, left) := SplitChunk(config, old(buffer), chunk);
              (old(queue) + messages, left)
    {
      if config.regex.Some? {
        ProcessMatches(chunk, config.regex.value(chunk));
      } else {
        ProcessLines(chunk);
        LinesFromIsLines(chunk, 0);
        assert chunk[0..] == chunk;
      }
    }

    method ProcessMatches(chunk: Bytes, ms: seq<nat>)
      requires Ordered(0, ms, |chunk|)
      modifies this`queue, this`buffer
      ensures queue == old(queue) + RegexSplit(old(buffer), chunk, ms).0
      ensures buffer == RegexSplit(old(buffer), chunk, ms).1
    {
      if |ms| > 0 {
        RegexSplitMessages(buffer, chunk, ms);
        RegexSplitPending(buffer, chunk, ms);
        ghost var head := if buffer == [] && ms[0] == 0 then [] else [buffer + chunk[..ms[0]]];
        var it, prev := 0, 0;
        if buffer != [] {
          if ms[0] == 0 {
            assert buffer + chunk[..0] == buffer;
            ProcessMessage(buffer);
          } else {
            ProcessMessage(buffer + chunk[..ms[0]]);
          }
          buffer := [];
          it := it + 1;
        } else {
          if ms[0] != 0 {
            assert buffer + chunk[..ms[0]] == chunk[..ms[0]];
            ProcessMessage(chunk[..ms[0]]);
          }
          it := it + 1;
        }
        ghost var first := queue;
        while it != |ms|
          invariant 1 <= it <= |ms| && prev == it - 1 && buffer == []
          invariant Ordered(ms[prev], ms[it..], |chunk|)
          invariant queue + Pieces(chunk, ms[prev], ms[it..]) == first + Pieces(chunk, ms[0], ms[1..])
        {
          ghost var before, rest := queue, ms[it..];
          assert rest[0] == ms[it] && rest[1..] == ms[it + 1..];
          AppendAssociates(before, [chunk[ms[prev]..ms[it]]], Pieces(chunk, ms[it], rest[1..]));
          ProcessMessage(chunk[ms[prev]..ms[it]]);
          prev := it;
          it := it + 1;
        }
        assert queue == first + Pieces(chunk, ms[0], ms[1..]);
        assert first == old(queue) + head;
        AppendAssociates(old(queue), head, Pieces(chunk, ms[0], ms[1..]));
        buffer := chunk[ms[prev]..];
      } else {
        assert Cuts(buffer, ms) == [];
        buffer := buffer + chunk;
      }
    }

    method ProcessLines(chunk: Bytes)
      modifies this`queue
      ensures queue == old(queue) + LinesFrom(chunk, 0)
    {
      var first := 0;
      while first < |chunk|
        invariant first <= |chunk|
        invariant queue + LinesFrom(chunk, first) == old(queue) + LinesFrom(chunk, 0)
      {
        var second := FindNewline(chunk, first);
        ghost var rest := if second == |chunk| then [] else LinesFrom(chunk, second + 1);
        if first != second {
          AppendAssociates(queue, [chunk[first..second]], rest);
          ProcessMessage(chunk[first..second]);
        }
        if second == |chunk| {
          assert queue + rest == queue;
          return;
        }
        first := second + 1;
      }
    }

    method FindNewline(chunk: Bytes, first: nat) returns (second: nat)
      requires first <= |chunk|
      ensures second == NextNewline(chunk, first)
    {
      second := first;
      while second < |chunk| && chunk[second] != NEWLINE
        invariant first <= second <= |chunk|
        invariant NextNewline(chunk, first) == NextNewline(chunk, second)
      {
        second := second + 1;
      }
    }

    /** One read of the loop, with what it leaves to do up to `end`. */
    method ReadChunk(file: Bytes, actual: nat, ghost end: nat)
      requires Valid() && 0 <= pos < end <= |file| && actual == ChunkSize(end - pos)
      modifies this`pos, this`buffer, this`queue
      ensures pos == old(pos) + actual
      ensures queue + ReadRegion(config, buffer, file, pos, end).0 ==
              old(queue) + ReadRegion(config, old(buffer), file, old(pos), end).0
      ensures ReadRegion(config, buffer, file, pos, end).1 == ReadRegion(config, old(buffer), file, old(pos), end).1
    {
      var chunk := file[pos..pos + actual];
      ghost var (first, carried) := SplitChunk(config, buffer, chunk);
      AppendAssociates(queue, first, ReadRegion(config, carried, file, pos + actual, end).0);
      ProcessBuffer(chunk);
      pos := pos + actual;
    }

    /** The read loop: buffer-full after buffer-full of what was added. */
    method ReadAdded(file: Bytes, readable: nat)
      requires Valid() && !failed && 0 <= pos < |file|
      modifies this`pos, this`buffer, this`failed, this`queue
      ensures pos == old(pos) + Min(|file| - old(pos), readable) && failed == (pos < |file|)
      ensures queue == old(queue) + ReadRegion(config, old(buffer), file, old(pos), pos).0
      ensures buffer == ReadRegion(config, old(buffer), file, old(pos), pos).1
    {
      var added := |file| - pos;
      ghost var from, end := pos, pos + Min(added, readable);
      ghost var all := ReadRegion(config, buffer, file, from, end);
      var total := 0;
      while total < added
        invariant 0 <= total && pos == from + total <= end
        invariant failed ==> pos == end < |file|
        invariant queue + ReadRegion(config, buffer, file, pos, end).0 == old(queue) + all.0
        invariant ReadRegion(config, buffer, file, pos, end).1 == all.1
        decreases added - total
      {
        var need := ChunkSize(added - total);
        var actual := if failed then 0 else Min(need, readable - total);
        if actual < need {
          failed := true;
        }
        if actual == 0 {
          break;
        }
        ReadChunk(file, actual, end);
        total := total + actual;
      }
      assert pos == end;
      assert ReadRegion(config, buffer, file, end, end) == ([], buffer);
      assert queue + [] == queue;
    }

    method SeekAndRead(file: Bytes, readable: nat)
      requires Valid() && !failed && pos < |file|
      modifies this`pos, this`buffer, this`failed, this`queue
      ensures Get() == ReadOn(config, old(Get()), file, readable).state
      ensures queue == old(queue) + ReadOn(config, old(Get()), file, readable).messages
    {
      hide ReadRegion;
      if pos < 0 {
        // The seek fails, and so does the first read.
        failed := true;
        assert queue + [] == queue;
      } else {
        ReadAdded(file, readable);
      }
    }

    /** Reads what was added to the file since the last call. `readable` is how many bytes
        the stream delivers before a read comes up short. */
    method Process(file: Bytes, readable: nat)
      requires Valid()
      modifies this`pos, this`buffer, this`firstRead, this`failed, this`queue, store`disk
      ensures if symlink || !open
              then Get() == old(Get()) && queue == old(queue) && store.disk == old(store.disk)
              else var o := Processed(config, old(Get()), file, readable);
                   && Get() == o.state
                   && queue == old(queue) + o.messages
                   && store.disk == DiskAfter(old(store.disk), o)
    {
      if symlink || !open {
        return;
      }
      if failed {
        pos := 0;
        failed := false;
        return;
      } else if |file| < pos {
        pos := 0;
      }
      var added := |file| - pos;
      if added > 0 && !firstRead && config.followOnly {
        pos := |file|;
        firstRead := true;
        return;
      } else if added > 0 {
        SeekAndRead(file, readable);
      }
      Save();
    }

    method Flush()
      requires Valid()
      modifies this`buffer, this`queue, store`disk
      ensures Get() == Flushed(old(Get())).state
      ensures queue == old(queue) + Flushed(old(Get())).messages
      ensures store.disk == DiskAfter(old(store.disk), Flushed(old(Get())))
    {
      if buffer != [] {
        ProcessMessage(buffer);
        buffer := [];
        Save();
      }
    }
  }
}
