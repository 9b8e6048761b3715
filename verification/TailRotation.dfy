/**
 Files are renamed while they are tailed, and the process restarts: what the table and the saved
 offsets guarantee over whole runs, and when a file is not read from its beginning.
 */
module TailRotation {
  import opened Common
  import opened SavePositions
  import opened TailRecord
  import opened TailMonitor
  import TailDelivery

  /** The contents of the open files, whatever their names, the table, the data directory and the
      offsets loaded at start-up. The last three components only keep the history: which bytes of
      a file were handed on, and for which file an offset was saved. */
  datatype System = System(
    files: map<nat, Bytes>,
    table: Table,
    disk: map<string, Bytes>,
    loaded: map<string, int>,
    handed: map<nat, set<int>>,
    savedFor: map<string, nat>,
    loadedFor: map<string, nat>)

  datatype Action =
    | Grow(fd: nat, bytes: Bytes)
    | Modify(name: string, fd: nat, symlink: bool)
    | Move(name: string, current: string)
    | Remove(name: string)
    | Flush(name: string)
    | Restart                // the process ends between two actions and starts again

  function FileOf(s: System, fd: nat): Bytes {
    if fd in s.files then s.files[fd] else []
  }

  function HandedOf(handed: map<nat, set<int>>, fd: nat): set<int> {
    if fd in handed then handed[fd] else {}
  }

  function LoadedOffset(s: System, name: string): int
    requires name != ""
  {
    if SavedName(name) in s.loaded then s.loaded[SavedName(name)] else 0
  }

  predicate Enabled(s: System, a: Action) {
    match a
    case Grow(fd, bytes) => |FileOf(s, fd)| + |bytes| < TWO_TO_THE_63
    case Modify(name, _, _) => name != ""
    case Move(_, current) => current != ""
    case Remove(name) => name != ""
    case Flush(name) => name != "" && name in s.table
    case Restart => true
  }

  function Range(from: int, to: int): (r: set<int>)
    ensures forall i :: i in r <==> (from <= i && i < to)
    decreases if to < from then 0 else to - from
  {
    if to <= from then {} else Range(from, to - 1) + {to - 1}
  }

  /** The bytes of the file in this range were handed on. */
  function Hand(handed: map<nat, set<int>>, fd: nat, from: int, to: int): map<nat, set<int>> {
    handed[fd := HandedOf(handed, fd) + Range(from, to)]
  }

  function Save(s: System, name: string, e: Entry): System
    requires name != ""
  {
    s.(disk := s.disk[SavedName(name) := EncodePosition(SavedOffset(e.state))],
    savedFor := s.savedFor[SavedName(name) := e.fd])
  }

  /** Up to where a record has handed on its file. */
  function HandedTo(st: State): int {
    st.pos - |st.buffer|
  }

  ghost function DoModify(c: Config, s: System, name: string, e: Entry): System
    requires ValidConfig(c) && name != ""
  {
    var file := FileOf(s, e.fd);
    var e' := EntryProcessed(c, e, file, |file|);
    var s' := s.(table := s.table[name := e']);
    if !e.active then s' else
      var from := Resume(e.state, file) - |e.state.buffer|;
      var s'' := s'.(handed := Hand(s.handed, e.fd, from, HandedTo(e'.state)));
      if Processed(c, e.state, file, |file|).saves && c.saveState then Save(s'', name, e') else s''
  }

  function DoFlush(c: Config, s: System, name: string): System
    requires name != "" && name in s.table
  {
    var e := s.table[name];
    var s' := s.(table := s.table[name := EntryFlushed(e)]);
    if e.state.buffer == [] then s' else
      var s'' := s'.(handed := Hand(s.handed, e.fd, HandedTo(e.state), e.state.pos));
      if c.saveState then Save(s'', name, EntryFlushed(e)) else s''
  }

  ghost function Do(c: Config, s: System, a: Action): System
    requires ValidConfig(c) && Enabled(s, a)
  {
    match a
    case Grow(fd, bytes) => s.(files := s.files[fd := FileOf(s, fd) + bytes])
    case Modify(name, fd, symlink) =>
      DoModify(c, s, name, Tracked(c, s.table, name, fd, !symlink, LoadedOffset(s, name)))
    case Move(name, current) => s.(table := Moved(s.table, name, current))
    case Remove(name) =>
      if name !in s.table then s else
        s.(table := s.table - {name}, disk := s.disk - {SavedName(name)}, savedFor := s.savedFor - {SavedName(name)})
    case Flush(name) => DoFlush(c, s, name)
    case Restart =>
      s.(table := map[], loaded := Loaded(map[], s.disk), loadedFor := s.savedFor, disk := map[], savedFor := map[])
  }

  ghost predicate Possible(c: Config, s: System, acts: seq<Action>)
    requires ValidConfig(c)
    decreases acts
  {
    acts != [] ==> Enabled(s, acts[0]) && Possible(c, Do(c, s, acts[0]), acts[1..])
  }

  ghost function Run(c: Config, s: System, acts: seq<Action>): System
    requires ValidConfig(c) && Possible(c, s, acts)
    decreases acts
  {
    if acts == [] then s else Run(c, Do(c, s, acts[0]), acts[1..])
  }

  const EMPTY := System(map[], map[], map[], map[], map[], map[], map[])

  /** The program's own operations change table and directory like this. */
  lemma ModifyIsModify(c: Config, s: System, name: string, e: Entry)
    requires ValidConfig(c) && name != "" && e.filename == name
    ensures var s', file := DoModify(c, s, name, e), FileOf(s, e.fd);
            && s'.table == s.table[name := EntryProcessed(c, e, file, |file|)]
            && s'.disk == DiskProcessed(c, e, file, |file|, s.disk)
  {
    hide Processed, EncodePosition, SavedOffset;
  }

  // ---- What every run keeps ----

  /** From `start` on, every byte of the open file up to what is pending was handed on exactly
      once, in order; in newline mode, without the newlines. */
  predicate Tracks(c: Config, start: nat, e: Entry, file: Bytes) {
    && !e.state.failed
    && TailDelivery.PendingGenuine(c, e.state, file)
    && start <= HandedTo(e.state)
    && Concat(e.queue) == TailDelivery.Content(c, file[start..HandedTo(e.state)])
  }

  ghost predicate SoundEntry(c: Config, e: Entry, file: Bytes) {
    if e.active then exists start: nat :: Tracks(c, start, e, file) else e.state.buffer == []
  }

  ghost predicate Sound(c: Config, s: System, k: string)
    requires k in s.table
  {
    k != "" && s.table[k].filename == k && SoundEntry(c, s.table[k], FileOf(s, s.table[k].fd))
  }

  ghost predicate AllSound(c: Config, s: System) {
    && (forall k :: k in s.table ==> Sound(c, s, k))
    && (forall n :: n in s.loaded ==> s.loaded[n] >= 0)
    && (forall n :: n in s.disk ==> DecodePosition(s.disk[n]) >= 0)
    && (forall fd :: fd in s.files ==> |s.files[fd]| < TWO_TO_THE_63)
    && s.savedFor.Keys == s.disk.Keys && s.loadedFor.Keys == s.loaded.Keys
  }

  ghost predicate TailsAll(c: Config) {
    ValidConfig(c) && !c.followOnly
  }

  lemma MoreTracked(c: Config, e: Entry, file: Bytes, start: nat, o: Outcome)
    requires Tracks(c, start, e, file) && TailDelivery.Delivers(c, e.state, o, file) && !o.state.failed
    ensures Tracks(c, start, e.(state := o.state, queue := e.queue + o.messages), file)
  {
    hide TailDelivery.Content;
    ConcatAppend(e.queue, o.messages);
    var h, h' := HandedTo(e.state), HandedTo(o.state);
    TailDelivery.ContentAppend(c, file[start..h], file[h..h']);
    TailDelivery.JoinSlices(file, start, h, h');
  }

  lemma ProcessedTracks(c: Config, e: Entry, file: Bytes, start: nat)
    requires TailsAll(c) && e.active && Tracks(c, start, e, file)
    ensures var e' := EntryProcessed(c, e, file, |file|);
            && Tracks(c, start, e', file) && HandedTo(e.state) <= HandedTo(e'.state)
            && e'.state.pos == |file| && Processed(c, e.state, file, |file|).saves
  {
    TailDelivery.ProcessDelivers(c, e.state, file);
    MoreTracked(c, e, file, start, Processed(c, e.state, file, |file|));
    hide Processed, TailDelivery.Content;
  }

  /** A new record starts at the loaded offset, or at zero if the file is shorter. */
  lemma BegunTracks(c: Config, e: Entry, file: Bytes)
    requires TailsAll(c) && e.active && e.queue == []
    requires 0 <= e.state.pos && e.state == State(e.state.pos, [], false, false)
    ensures var e', from := EntryProcessed(c, e, file, |file|), Resume(e.state, file);
            && Tracks(c, from, e', file) && from <= HandedTo(e'.state)
            && e'.state.pos == |file| && Processed(c, e.state, file, |file|).saves
  {
    var from := Resume(e.state, file);
    var e1 := e.(state := e.state.(pos := from));
    assert file[from..from] == [];
    assert Tracks(c, from, e1, file);
    ProcessedTracks(c, e1, file, from);
    assert Processed(c, e.state, file, |file|) == Processed(c, e1.state, file, |file|);
  }

  lemma GrownTracks(c: Config, e: Entry, file: Bytes, bytes: Bytes, start: nat)
    requires Tracks(c, start, e, file)
    ensures Tracks(c, start, e, file + bytes)
  {
    hide TailDelivery.Content;
    var h := HandedTo(e.state);
    assert (file + bytes)[start..h] == file[start..h];
    assert (file + bytes)[h..e.state.pos] == file[h..e.state.pos];
  }

  lemma FlushedTracks(c: Config, e: Entry, file: Bytes, start: nat)
    requires Tracks(c, start, e, file)
    ensures Tracks(c, start, EntryFlushed(e), file)
  {
    TailDelivery.FlushDelivers(c, e.state, file);
    MoreTracked(c, e, file, start, Flushed(e.state));
  }

  /** What counts as handed on during a call is what the messages hold. */
  lemma HandedIsHonest(c: Config, st: State, file: Bytes)
    requires TailsAll(c) && !st.failed && TailDelivery.PendingGenuine(c, st, file)
    ensures var o, from := Processed(c, st, file, |file|), Resume(st, file) - |st.buffer|;
            && 0 <= from <= HandedTo(o.state) <= |file|
            && Concat(o.messages) == TailDelivery.Content(c, file[from..HandedTo(o.state)])
  {
    hide Processed, TailDelivery.Content, TailDelivery.Delivers;
    TailDelivery.ProcessDelivers(c, st, file);
    TailDelivery.DeliveredBytes(c, st, Processed(c, st, file, |file|), file);
  }

  /** The entry an event is for, and what the call makes of it. */
  lemma ModifiedEntry(c: Config, s: System, name: string, fd: nat, active: bool)
    requires TailsAll(c) && AllSound(c, s) && name != ""
    ensures var e := Tracked(c, s.table, name, fd, active, LoadedOffset(s, name));
            var file := FileOf(s, e.fd);
            var e' := EntryProcessed(c, e, file, |file|);
            && e.filename == name && (e'.filename, e'.fd, e'.active) == (e.filename, e.fd, e.active)
            && SoundEntry(c, e', file)
            && (e.active ==>
                  && 0 <= Resume(e.state, file) - |e.state.buffer| <= HandedTo(e'.state) <= |file|
                  && Processed(c, e.state, file, |file|).saves)
  {
    hide Tracks;
    var e := Tracked(c, s.table, name, fd, active, LoadedOffset(s, name));
    var file := FileOf(s, e.fd);
    if name in s.table {
      assert Sound(c, s, name);
    }
    if e.active {
      if name in s.table {
        var start: nat :| Tracks(c, start, e, file);
        ProcessedTracks(c, e, file, start);
        TracksIn(c, e, file, start);
        TracksIn(c, EntryProcessed(c, e, file, |file|), file, start);
      } else {
        BegunTracks(c, e, file);
        TracksIn(c, EntryProcessed(c, e, file, |file|), file, Resume(e.state, file));
      }
    }
  }

  lemma TracksIn(c: Config, e: Entry, file: Bytes, start: nat)
    requires Tracks(c, start, e, file)
    ensures 0 <= HandedTo(e.state) <= e.state.pos <= |file| && Resume(e.state, file) == e.state.pos
  {
  }

  /** An offset that is saved is the one handed on to, and is read back. */
  lemma SavedIsHanded(st: State)
    requires 0 <= HandedTo(st) < TWO_TO_THE_63
    ensures SavedOffset(st) == HandedTo(st) && DecodePosition(EncodePosition(SavedOffset(st))) == HandedTo(st)
  {
    PositionRoundTrip(HandedTo(st));
  }

  lemma FileSize(c: Config, s: System, fd: nat)
    requires AllSound(c, s)
    ensures |FileOf(s, fd)| < TWO_TO_THE_63
  {
  }

  /** The entry is filed, with a new history of what was handed on. */
  function Filed(s: System, name: string, e: Entry, handed: map<nat, set<int>>): System {
    s.(table := s.table[name := e], handed := handed)
  }

  /** Filing, and perhaps saving, a sound entry. */
  lemma FiledSound(c: Config, s: System, name: string, e: Entry, handed: map<nat, set<int>>, s': System)
    requires AllSound(c, s) && name != "" && e.filename == name && SoundEntry(c, e, FileOf(s, e.fd))
    requires DecodePosition(EncodePosition(SavedOffset(e.state))) >= 0
    requires s' == Filed(s, name, e, handed) || s' == Save(Filed(s, name, e, handed), name, e)
    ensures AllSound(c, s')
  {
    hide SoundEntry, EncodePosition, DecodePosition, SavedOffset;
    forall k | k in s'.table ensures Sound(c, s', k) {
      assert k != name ==> Sound(c, s, k);
    }
  }

  /** What a call does to the system: it hands on a range of the file and files the entry. */
  lemma ModifyFiles(c: Config, s: System, name: string, e: Entry)
    requires ValidConfig(c) && name != ""
    ensures var s', file := DoModify(c, s, name, e), FileOf(s, e.fd);
            var e' := EntryProcessed(c, e, file, |file|);
            var from := Resume(e.state, file) - |e.state.buffer|;
            var s1 := Filed(s, name, e', if e.active then Hand(s.handed, e.fd, from, HandedTo(e'.state)) else s.handed);
            s' == s1 || (e.active && s' == Save(s1, name, e'))
  {
    hide Processed, EntryProcessed, EncodePosition, SavedOffset, HandedTo;
  }

  lemma ModifySound(c: Config, s: System, name: string, fd: nat, active: bool)
    requires TailsAll(c) && AllSound(c, s) && name != ""
    ensures AllSound(c, DoModify(c, s, name, Tracked(c, s.table, name, fd, active, LoadedOffset(s, name))))
  {
    assert ValidConfig(c);
    hide *;
    var e := Tracked(c, s.table, name, fd, active, LoadedOffset(s, name));
    var file := FileOf(s, e.fd);
    var e' := EntryProcessed(c, e, file, |file|);
    ModifiedEntry(c, s, name, fd, active);
    FileSize(c, s, e.fd);
    ModifyFiles(c, s, name, e);
    if e.active {
      SavedIsHanded(e'.state);
      var from := Resume(e.state, file) - |e.state.buffer|;
      FiledSound(c, s, name, e', Hand(s.handed, e.fd, from, HandedTo(e'.state)), DoModify(c, s, name, e));
    } else {
      FiledLinkSound(c, s, name, e');
    }
  }

  lemma FiledLinkSound(c: Config, s: System, name: string, e: Entry)
    requires AllSound(c, s) && name != "" && e.filename == name && SoundEntry(c, e, FileOf(s, e.fd))
    ensures AllSound(c, Filed(s, name, e, s.handed))
  {
    hide SoundEntry, DecodePosition;
    var s' := Filed(s, name, e, s.handed);
    forall k | k in s'.table ensures Sound(c, s', k) {
      assert k != name ==> Sound(c, s, k);
    }
  }

  lemma FlushFiles(c: Config, s: System, name: string)
    requires name != "" && name in s.table
    ensures var s', e, e' := DoFlush(c, s, name), s.table[name], EntryFlushed(s.table[name]);
            var s1 := Filed(s, name, e', Hand(s.handed, e.fd, HandedTo(e.state), HandedTo(e'.state)));
            if e.state.buffer != [] then s' == s1 || s' == Save(s1, name, e') else s' == s
  {
    hide EncodePosition, SavedOffset;
    var e := s.table[name];
    assert e.queue + [] == e.queue;
    assert e.state.buffer == [] ==> EntryFlushed(e) == e;
  }

  lemma FlushSound(c: Config, s: System, name: string)
    requires TailsAll(c) && AllSound(c, s) && name != "" && name in s.table
    ensures AllSound(c, DoFlush(c, s, name))
  {
    var e, e' := s.table[name], EntryFlushed(s.table[name]);
    assert e'.filename == name && e'.fd == e.fd && HandedTo(e'.state) == e.state.pos by {
      assert Sound(c, s, name);
    }
    hide *;
    FlushedEntry(c, s, name);
    FileSize(c, s, e.fd);
    FlushFiles(c, s, name);
    if e.state.buffer != [] {
      SavedIsHanded(e'.state);
      FiledSound(c, s, name, e', Hand(s.handed, e.fd, HandedTo(e.state), HandedTo(e'.state)), DoFlush(c, s, name));
    }
  }

  lemma FlushedEntry(c: Config, s: System, name: string)
    requires AllSound(c, s) && name in s.table
    ensures var e := s.table[name];
            && SoundEntry(c, EntryFlushed(e), FileOf(s, e.fd))
            && (e.state.buffer != [] ==> e.active && 0 <= HandedTo(e.state) <= e.state.pos <= |FileOf(s, e.fd)|)
  {
    var e := s.table[name];
    var file := FileOf(s, e.fd);
    assert Sound(c, s, name);
    if e.active {
      var start: nat :| Tracks(c, start, e, file);
      FlushedTracks(c, e, file, start);
    }
  }

  lemma GrownEntry(c: Config, e: Entry, file: Bytes, bytes: Bytes)
    requires SoundEntry(c, e, file)
    ensures SoundEntry(c, e, file + bytes)
  {
    hide Tracks;
    if e.active {
      var start: nat :| Tracks(c, start, e, file);
      GrownTracks(c, e, file, bytes, start);
    }
  }

  lemma RenamedEntry(c: Config, e: Entry, current: string, file: Bytes)
    requires SoundEntry(c, e, file)
    ensures SoundEntry(c, e.(filename := current), file)
  {
    if e.active {
      var start: nat :| Tracks(c, start, e, file);
      assert Tracks(c, start, e.(filename := current), file);
    }
  }

  lemma GrowSoundAt(c: Config, s: System, fd: nat, bytes: Bytes, k: string)
    requires TailsAll(c) && Enabled(s, Grow(fd, bytes)) && k in s.table && Sound(c, s, k)
    ensures Sound(c, Do(c, s, Grow(fd, bytes)), k)
  {
    hide SoundEntry, DoModify, DoFlush;
    GrownEntry(c, s.table[k], FileOf(s, s.table[k].fd), bytes);
  }

  lemma MoveSoundAt(c: Config, s: System, name: string, current: string, k: string)
    requires TailsAll(c) && current != "" && k in Moved(s.table, name, current)
    requires var known := if k in s.table then k else name; known in s.table && Sound(c, s, known)
    ensures Sound(c, Do(c, s, Move(name, current)), k)
  {
    hide SoundEntry, DoModify, DoFlush;
    var known := if k in s.table then k else name;
    RenamedEntry(c, s.table[known], current, FileOf(s, s.table[known].fd));
  }

  lemma StepSound(c: Config, s: System, a: Action)
    requires TailsAll(c) && AllSound(c, s) && Enabled(s, a)
    ensures AllSound(c, Do(c, s, a))
  {
    hide DoModify, DoFlush, Sound, DecodePosition, Tracked;
    var s' := Do(c, s, a);
    match a
    case Grow(fd, bytes) =>
      forall k | k in s'.table ensures Sound(c, s', k) {
        GrowSoundAt(c, s, fd, bytes, k);
      }
    case Modify(name, fd, symlink) => ModifySound(c, s, name, fd, !symlink);
    case Move(name, current) =>
      forall k | k in s'.table ensures Sound(c, s', k) {
        MoveSoundAt(c, s, name, current, k);
      }
    case Remove(name) =>
      forall k | k in s'.table ensures Sound(c, s', k) {
        RemoveSoundAt(c, s, name, k);
      }
    case Flush(name) => FlushSound(c, s, name);
    case Restart =>
  }

  lemma RemoveSoundAt(c: Config, s: System, name: string, k: string)
    requires TailsAll(c) && Enabled(s, Remove(name)) && k in Do(c, s, Remove(name)).table && Sound(c, s, k)
    ensures Sound(c, Do(c, s, Remove(name)), k)
  {
    hide SoundEntry, DoModify, DoFlush;
  }

  /** Tracking across rotation and restarts: in every run of writes, creations, modifications,
      renames, removals, flushes and restarts, each record is filed under its own name, and what it
      handed on plus what is pending is a contiguous part of its open file, up to the read position. */
  lemma {:induction false} RotationKeepsTrack(c: Config, s: System, acts: seq<Action>)
    requires TailsAll(c) && AllSound(c, s) && Possible(c, s, acts)
    ensures AllSound(c, Run(c, s, acts))
    decreases acts
  {
    hide AllSound, Do, Enabled;
    if acts != [] {
      StepSound(c, s, acts[0]);
      RotationKeepsTrack(c, Do(c, s, acts[0]), acts[1..]);
    }
  }

  // ---- When bytes are skipped ----

  /** Every byte of the file before `h` was handed on. */
  predicate HandedBefore(handed: map<nat, set<int>>, fd: nat, h: int) {
    forall i :: 0 <= i < h ==> i in HandedOf(handed, fd)
  }

  predicate EntryHanded(handed: map<nat, set<int>>, e: Entry) {
    e.active ==> HandedBefore(handed, e.fd, HandedTo(e.state))
  }

  /** No record has left out a byte of its file, and no offset points past one that was. */
  predicate NoGap(s: System) {
    && (forall k :: k in s.table ==> EntryHanded(s.handed, s.table[k]))
    && (forall n :: n in s.disk && n in s.savedFor ==> HandedBefore(s.handed, s.savedFor[n], DecodePosition(s.disk[n])))
    && (forall n :: n in s.loaded && n in s.loadedFor ==> HandedBefore(s.handed, s.loadedFor[n], s.loaded[n]))
  }

  /** A new record takes over, for a file that is long enough, an offset that was saved for
      another one, and bytes before it were not handed on. */
  predicate Skips(c: Config, s: System, a: Action) {
    && a.Modify? && a.name != "" && a.name !in s.table && !a.symlink && c.saveState
    && SavedName(a.name) in s.loaded && SavedName(a.name) in s.loadedFor
    && s.loadedFor[SavedName(a.name)] != a.fd
    && 0 < LoadedOffset(s, a.name) <= |FileOf(s, a.fd)|
    && !HandedBefore(s.handed, a.fd, LoadedOffset(s, a.name))
  }

  lemma HandKeeps(handed: map<nat, set<int>>, fd: nat, from: int, to: int, other: nat, h: int)
    requires HandedBefore(handed, other, h)
    ensures HandedBefore(Hand(handed, fd, from, to), other, h)
  {
    forall i | 0 <= i < h ensures i in HandedOf(Hand(handed, fd, from, to), other) {
      assert i in HandedOf(handed, other);
    }
  }

  lemma HandReaches(handed: map<nat, set<int>>, fd: nat, from: int, to: int)
    requires HandedBefore(handed, fd, from)
    ensures HandedBefore(Hand(handed, fd, from, to), fd, to)
  {
  }

  /** A call that hands on a range and files, and perhaps saves, an entry that has got to its end. */
  lemma HandedNoGap(s: System, name: string, e: Entry, from: int, s': System)
    requires NoGap(s) && name != "" && e.active && HandedBefore(s.handed, e.fd, from)
    requires DecodePosition(EncodePosition(SavedOffset(e.state))) == HandedTo(e.state)
    requires var s1 := Filed(s, name, e, Hand(s.handed, e.fd, from, HandedTo(e.state)));
             s' == s1 || s' == Save(s1, name, e)
    ensures NoGap(s')
  {
    hide DecodePosition, EncodePosition, SavedOffset, HandedTo, HandedBefore, Hand;
    var to := HandedTo(e.state);
    HandReaches(s.handed, e.fd, from, to);
    forall k | k in s'.table ensures EntryHanded(s'.handed, s'.table[k]) {
      if k != name && s.table[k].active {
        assert EntryHanded(s.handed, s.table[k]);
        HandKeeps(s.handed, e.fd, from, to, s.table[k].fd, HandedTo(s.table[k].state));
      }
    }
    forall n | n in s'.disk && n in s'.savedFor
      ensures HandedBefore(s'.handed, s'.savedFor[n], DecodePosition(s'.disk[n]))
    {
      if n in s.disk && n in s.savedFor && s'.savedFor[n] == s.savedFor[n] && s'.disk[n] == s.disk[n] {
        HandKeeps(s.handed, e.fd, from, to, s.savedFor[n], DecodePosition(s.disk[n]));
      }
    }
    forall n | n in s'.loaded && n in s'.loadedFor ensures HandedBefore(s'.handed, s'.loadedFor[n], s'.loaded[n]) {
      HandKeeps(s.handed, e.fd, from, to, s.loadedFor[n], s.loaded[n]);
    }
  }

  /** Where a call starts to hand on, and whether everything before was handed on. */
  lemma StartHanded(c: Config, s: System, name: string, fd: nat, symlink: bool)
    requires TailsAll(c) && AllSound(c, s) && NoGap(s) && name != ""
    ensures var e := Tracked(c, s.table, name, fd, !symlink, LoadedOffset(s, name));
            var from := Resume(e.state, FileOf(s, e.fd)) - |e.state.buffer|;
            e.active ==> (HandedBefore(s.handed, e.fd, from) <==> !Skips(c, s, Modify(name, fd, symlink)))
  {
    hide Tracks, TailDelivery.Content;
    var e := Tracked(c, s.table, name, fd, !symlink, LoadedOffset(s, name));
    if name in s.table && e.active {
      assert Sound(c, s, name) && EntryHanded(s.handed, e);
      var start: nat :| Tracks(c, start, e, FileOf(s, e.fd));
      TracksIn(c, e, FileOf(s, e.fd), start);
    }
  }

  lemma ModifyGapIff(c: Config, s: System, name: string, fd: nat, symlink: bool)
    requires TailsAll(c) && AllSound(c, s) && NoGap(s) && name != ""
    ensures var e := Tracked(c, s.table, name, fd, !symlink, LoadedOffset(s, name));
            e.active ==> (NoGap(DoModify(c, s, name, e)) <==> !Skips(c, s, Modify(name, fd, symlink)))
  {
    var e := Tracked(c, s.table, name, fd, !symlink, LoadedOffset(s, name));
    hide *;
    var file := FileOf(s, e.fd);
    var s', e' := DoModify(c, s, name, e), EntryProcessed(c, e, file, |file|);
    var from := Resume(e.state, file) - |e.state.buffer|;
    ModifiedEntry(c, s, name, fd, !symlink);
    StartHanded(c, s, name, fd, symlink);
    FileSize(c, s, e.fd);
    ModifyFiles(c, s, name, e);
    if e.active {
      SavedIsHanded(e'.state);
      if HandedBefore(s.handed, e.fd, from) {
        HandedNoGap(s, name, e', from, s');
      } else {
        GapStays(s.handed, e', from);
        EntryGap(s, name, e', Hand(s.handed, e.fd, from, HandedTo(e'.state)), s');
      }
    }
  }

  lemma EntryGap(s: System, name: string, e: Entry, handed: map<nat, set<int>>, s': System)
    requires name != "" && !EntryHanded(handed, e)
    requires var s1 := Filed(s, name, e, handed); s' == s1 || s' == Save(s1, name, e)
    ensures !NoGap(s')
  {
    hide EntryHanded, EncodePosition, DecodePosition;
    assert s'.table[name] == e;
  }

  /** A symbolic link is not read, and takes over no offset. */
  lemma LinkNoGap(c: Config, s: System, name: string, fd: nat, symlink: bool)
    requires TailsAll(c) && NoGap(s) && name != ""
    ensures var e := Tracked(c, s.table, name, fd, !symlink, LoadedOffset(s, name));
            !e.active ==> NoGap(DoModify(c, s, name, e)) && !Skips(c, s, Modify(name, fd, symlink))
  {
    var e := Tracked(c, s.table, name, fd, !symlink, LoadedOffset(s, name));
    hide NoGap;
    if !e.active {
      Unhanded(s, name, e, DoModify(c, s, name, e));
    }
  }

  /** An entry of a symbolic link is filed; nothing else changes. */
  lemma Unhanded(s: System, name: string, e: Entry, s': System)
    requires NoGap(s) && !e.active && s' == s.(table := s.table[name := e])
    ensures NoGap(s')
  {
    hide DecodePosition, HandedTo, HandedBefore;
    forall k | k in s'.table ensures EntryHanded(s'.handed, s'.table[k]) {
      assert k != name ==> EntryHanded(s.handed, s.table[k]);
    }
  }

  /** What was left out before the range that is handed on stays left out. */
  lemma GapStays(handed: map<nat, set<int>>, e: Entry, from: int)
    requires !HandedBefore(handed, e.fd, from) && from <= HandedTo(e.state) && e.active
    ensures !EntryHanded(Hand(handed, e.fd, from, HandedTo(e.state)), e)
  {
    var i :| 0 <= i < from && i !in HandedOf(handed, e.fd);
    assert i !in HandedOf(Hand(handed, e.fd, from, HandedTo(e.state)), e.fd);
  }

  lemma FlushNoGap(c: Config, s: System, name: string)
    requires TailsAll(c) && AllSound(c, s) && NoGap(s) && name != "" && name in s.table
    ensures NoGap(DoFlush(c, s, name))
  {
    var e, e' := s.table[name], EntryFlushed(s.table[name]);
    assert e'.fd == e.fd && e'.active == e.active && HandedTo(e'.state) == e.state.pos;
    assert e.active ==> HandedBefore(s.handed, e.fd, HandedTo(e.state)) by {
      assert EntryHanded(s.handed, e);
    }
    hide *;
    FlushedEntry(c, s, name);
    FileSize(c, s, e.fd);
    FlushFiles(c, s, name);
    if e.state.buffer != [] {
      SavedIsHanded(e'.state);
      HandedNoGap(s, name, e', HandedTo(e.state), DoFlush(c, s, name));
    }
  }

  lemma OtherNoGap(c: Config, s: System, a: Action)
    requires ValidConfig(c) && NoGap(s) && Enabled(s, a) && !a.Modify? && !a.Flush?
    ensures NoGap(Do(c, s, a))
  {
    hide DecodePosition, HandedTo, HandedBefore;
    var s' := Do(c, s, a);
    forall k | k in s'.table ensures EntryHanded(s'.handed, s'.table[k]) {
      assert EntryHanded(s.handed, s.table[if k in s.table then k else a.name]);
    }
  }

  /** One step leaves out bytes exactly if it takes over another file's offset. */
  lemma StepGapIff(c: Config, s: System, a: Action)
    requires TailsAll(c) && AllSound(c, s) && NoGap(s) && Enabled(s, a)
    ensures NoGap(Do(c, s, a)) <==> !Skips(c, s, a)
  {
    hide NoGap, AllSound, DoFlush, DoModify;
    if a.Modify? {
      ModifyGapIff(c, s, a.name, a.fd, a.symlink);
      LinkNoGap(c, s, a.name, a.fd, a.symlink);
    } else if a.Flush? {
      FlushNoGap(c, s, a.name);
    } else {
      OtherNoGap(c, s, a);
    }
  }

  ghost predicate NeverSkips(c: Config, s: System, acts: seq<Action>)
    requires ValidConfig(c) && Possible(c, s, acts)
    decreases acts
  {
    acts != [] ==> !Skips(c, s, acts[0]) && NeverSkips(c, Do(c, s, acts[0]), acts[1..])
  }

  ghost predicate NeverGap(c: Config, s: System, acts: seq<Action>)
    requires ValidConfig(c) && Possible(c, s, acts)
    decreases acts
  {
    NoGap(s) && (acts != [] ==> NeverGap(c, Do(c, s, acts[0]), acts[1..]))
  }

  /** No byte is left out exactly if no offset is taken over. Over every run of writes, creations,
      modifications, renames, removals, flushes and restarts, at every point every record has
      handed on all bytes of its file before those that are pending, over all incarnations, if and
      only if no new record ever found an offset that was saved for another file, under the same
      saved name, and that lies within its own file beyond what was handed on of it. */
  lemma {:induction false} NothingSkippedIff(c: Config, s: System, acts: seq<Action>)
    requires TailsAll(c) && AllSound(c, s) && NoGap(s) && Possible(c, s, acts)
    ensures NeverGap(c, s, acts) <==> NeverSkips(c, s, acts)
    decreases acts
  {
    hide AllSound, NoGap, Do, Enabled, Skips;
    if acts != [] {
      StepSound(c, s, acts[0]);
      StepGapIff(c, s, acts[0]);
      if !Skips(c, s, acts[0]) {
        NothingSkippedIff(c, Do(c, s, acts[0]), acts[1..]);
      }
    }
  }

  lemma EmptyIsSound(c: Config)
    ensures AllSound(c, EMPTY) && NoGap(EMPTY)
  {
  }

  /** Both results for every run from the first start on. */
  lemma FromTheFirstStart(c: Config, acts: seq<Action>)
    requires TailsAll(c) && Possible(c, EMPTY, acts)
    ensures AllSound(c, Run(c, EMPTY, acts))
    ensures NeverGap(c, EMPTY, acts) <==> NeverSkips(c, EMPTY, acts)
  {
    EmptyIsSound(c);
    RotationKeepsTrack(c, EMPTY, acts);
    NothingSkippedIff(c, EMPTY, acts);
  }

  // ---- Single renames and new files ----

  /** After a rename the open file is still followed exactly when the new name was not tracked or
      some other record is on the same open file; with its offset and its pending bytes it is
      followed exactly in the first case, as `TailMonitor.Move` says of the record itself. */
  lemma MoveFollowsFileIff(t: Table, name: string, current: string)
    requires name in t && current != name
    ensures var t' := Moved(t, name, current);
            && ((exists k :: k in t' && t'[k].fd == t[name].fd) <==>
                current !in t || exists k :: k in t && k != name && t[k].fd == t[name].fd)
            && t' == if current in t then t - {name} else (t - {name})[current := t[name].(filename := current)]
  {
    var t' := Moved(t, name, current);
    if current !in t {
      assert t'[current].fd == t[name].fd;
    } else {
      assert forall k :: k in t && k != name ==> k in t' && t'[k] == t[k];
    }
  }

  /** A record whose file was handed on from its beginning, and is read up to its end. */
  predicate Complete(c: Config, e: Entry, file: Bytes) {
    e.active && Tracks(c, 0, e, file) && e.state.pos == |file|
  }

  lemma CompleteHolds(c: Config, e: Entry, file: Bytes)
    requires c.regex.Some? && Complete(c, e, file)
    ensures Concat(e.queue) + e.state.buffer == file
  {
    var h := HandedTo(e.state);
    assert file[0..h] + file[h..|file|] == file;
  }

  /** What a call does for a name that is not tracked yet. */
  lemma BeginsAs(c: Config, s: System, name: string, fd: nat)
    requires ValidConfig(c) && name != "" && name !in s.table
    ensures var e, file := Begin(c, name, fd, true, LoadedOffset(s, name)), FileOf(s, fd);
            Do(c, s, Modify(name, fd, false)).table == s.table[name := EntryProcessed(c, e, file, |file|)]
  {
    var e := Begin(c, name, fd, true, LoadedOffset(s, name));
    assert Tracked(c, s.table, name, fd, true, LoadedOffset(s, name)) == e;
    ModifyFiles(c, s, name, e);
  }

  /** A new record without an offset hands on its file from the beginning. */
  lemma BegunComplete(c: Config, name: string, fd: nat, file: Bytes)
    requires TailsAll(c)
    ensures var e := EntryProcessed(c, Begin(c, name, fd, true, 0), file, |file|);
            e.fd == fd && Complete(c, e, file)
  {
    BegunTracks(c, Begin(c, name, fd, true, 0), file);
    hide Tracks;
  }

  /** A rename is reported as the end of the old name and the creation of the new one. If the
      creation is handled first, the new name is tracked already: the open file is followed under
      it, but by a new record, and all its bytes are handed on again. */
  lemma ReorderedRename(c: Config, s: System, name: string, current: string)
    requires TailsAll(c) && c.regex.Some? && name in s.table && current !in s.table && current != "" && name != current
    requires SavedName(current) !in s.loaded
    requires var e := s.table[name]; Complete(c, e, FileOf(s, e.fd))
    ensures var e := s.table[name];
            var acts := [Modify(current, e.fd, false), Move(name, current)];
            && Possible(c, s, acts)
            && var s' := Run(c, s, acts);
               && name !in s'.table && current in s'.table
               && s'.table[current].fd == e.fd
               && Complete(c, s'.table[current], FileOf(s, e.fd))
               && Concat(s'.table[current].queue) + s'.table[current].state.buffer == FileOf(s, e.fd)
  {
    var e := s.table[name];
    var file := FileOf(s, e.fd);
    assert LoadedOffset(s, current) == 0;
    BeginsAs(c, s, current, e.fd);
    BegunComplete(c, current, e.fd, file);
    var e' := EntryProcessed(c, Begin(c, current, e.fd, true, 0), file, |file|);
    CompleteHolds(c, e', file);
    var s1 := Do(c, s, Modify(current, e.fd, false));
    hide DoModify, EntryProcessed, Complete, Tracks, Possible, Run;
    TwoActions(c, s, Modify(current, e.fd, false), Move(name, current));
    MovedAway(s1.table, name, current);
  }

  lemma MovedAway(t: Table, name: string, current: string)
    requires name in t && current in t && current != name
    ensures var t' := Moved(t, name, current); name !in t' && current in t' && t'[current] == t[current]
  {
  }

  lemma OneAction(c: Config, s: System, a: Action)
    requires ValidConfig(c) && Enabled(s, a)
    ensures Possible(c, s, [a]) && Run(c, s, [a]) == Do(c, s, a)
  {
    hide Do;
    assert [a][1..] == [];
  }

  lemma OneAhead(c: Config, s: System, a: Action, acts: seq<Action>)
    requires ValidConfig(c) && Enabled(s, a) && Possible(c, Do(c, s, a), acts)
    ensures Possible(c, s, [a] + acts) && Run(c, s, [a] + acts) == Run(c, Do(c, s, a), acts)
  {
    hide Do;
    assert ([a] + acts)[1..] == acts;
  }

  lemma TwoActions(c: Config, s: System, a: Action, b: Action)
    requires ValidConfig(c) && Enabled(s, a) && Enabled(Do(c, s, a), b)
    ensures Possible(c, s, [a, b]) && Run(c, s, [a, b]) == Do(c, Do(c, s, a), b)
  {
    hide Do, Enabled, Run, Possible;
    OneAction(c, Do(c, s, a), b);
    OneAhead(c, s, a, [b]);
    assert [a] + [b] == [a, b];
  }

  /** A file that appears under a name known from start-up, as the next log file does after a
      rotation, is delivered from its first byte exactly when it is still shorter than the offset
      loaded for that name or there is nothing to deliver before the offset, because it is zero or,
      in newline mode, because there are only newlines: loaded offsets are never forgotten. */
  lemma NewFileReadFromStartIff(c: Config, name: string, fd: nat, loaded: nat, file: Bytes)
    requires TailsAll(c) && c.saveState
    ensures var e := EntryProcessed(c, Begin(c, name, fd, true, loaded), file, |file|);
            Concat(e.queue) + e.state.buffer == TailDelivery.Content(c, file) <==>
            |file| < loaded || TailDelivery.Content(c, file[..loaded]) == []
  {
    var e := Begin(c, name, fd, true, loaded);
    var from := Resume(e.state, file);
    assert from == if |file| < loaded then 0 else loaded;
    BegunTracks(c, e, file);
    hide *;
    TrackedContent(c, from, EntryProcessed(c, e, file, |file|), file);
    SuffixIsAllIff(c, file, from);
    NothingToDeliver(c, file);
  }

  lemma NothingToDeliver(c: Config, file: Bytes)
    ensures TailDelivery.Content(c, file[..0]) == []
  {
  }

  /** Nothing is missing from a suffix exactly when there is nothing to deliver before it. */
  lemma SuffixIsAllIff(c: Config, file: Bytes, from: nat)
    requires from <= |file|
    ensures TailDelivery.Content(c, file[from..]) == TailDelivery.Content(c, file) <==>
            TailDelivery.Content(c, file[..from]) == []
  {
    hide TailDelivery.Content;
    var head, tail := TailDelivery.Content(c, file[..from]), TailDelivery.Content(c, file[from..]);
    assert file[..from] + file[from..] == file;
    TailDelivery.ContentAppend(c, file[..from], file[from..]);
    assert |head + tail| == |head| + |tail|;
    assert head == [] ==> head + tail == tail;
  }

  /** A record that is read up to the end has what is to be delivered from its start on. */
  lemma TrackedContent(c: Config, from: nat, e: Entry, file: Bytes)
    requires Tracks(c, from, e, file) && e.state.pos == |file|
    ensures from <= |file| && Concat(e.queue) + e.state.buffer == TailDelivery.Content(c, file[from..])
  {
    var h := HandedTo(e.state);
    assert file[from..h] + file[h..|file|] == file[from..];
    assert Concat(e.queue) + [] == Concat(e.queue);
    if c.regex.None? {
      assert file[from..h] == file[from..];
    }
  }

  /** The record has handed on all of its file, and saved that. */
  predicate HandedOnAndSaved(c: Config, s: System, name: string, fd: nat) {
    && name != "" && name in s.table && s.table[name].fd == fd
    && Complete(c, s.table[name], FileOf(s, fd)) && s.table[name].state.buffer == []
    && SavedName(name) in s.disk && s.disk[SavedName(name)] == EncodePosition(SavedOffset(s.table[name].state))
    && SavedName(name) in s.savedFor && s.savedFor[SavedName(name)] == fd
  }

  /** The rotation that skips: a log file is handed on completely and renamed, the process starts
      again, and the next log file under the old name is no shorter than the first one was. Its
      first bytes, as many as the first file had, are never handed on. */
  lemma RotatedAcrossRestart(c: Config, s: System, first: nat, next: nat, name: string, current: string)
    requires TailsAll(c) && c.saveState && AllSound(c, s) && HandedOnAndSaved(c, s, name, first)
    requires first != next && current != "" && current !in s.table
    requires 0 < |FileOf(s, first)| <= |FileOf(s, next)| && HandedOf(s.handed, next) == {}
    ensures var acts := [Move(name, current), Restart];
            && Possible(c, s, acts)
            && var s' := Run(c, s, acts);
               && Enabled(s', Modify(name, next, false)) && Skips(c, s', Modify(name, next, false))
               && var e := Do(c, s', Modify(name, next, false)).table[name];
                  Tracks(c, |FileOf(s, first)|, e, FileOf(s, next))
  {
    var s1 := Do(c, s, Move(name, current));
    var s2 := Do(c, s1, Restart);
    TwoActions(c, s, Move(name, current), Restart);
    var n, file := |FileOf(s, first)|, FileOf(s, next);
    FileSize(c, s, first);
    PositionRoundTrip(n);
    assert s.disk[SavedName(name)] == EncodePosition(n);
    LoadedIsDurable(s1.disk, name);
    hide AllSound, Complete, EncodePosition, DecodePosition, Possible, Run, EntryProcessed, Loaded;
    assert LoadedOffset(s2, name) == DurableOffset(s1.disk, name) == n;
    assert !HandedBefore(s2.handed, next, n) by { assert 0 !in HandedOf(s2.handed, next); }
    BegunTracks(c, Begin(c, name, next, true, n), file);
    hide DoModify, Tracks, HandedBefore;
    BeginsAs(c, s2, name, next);
  }
}
