/** The table of tailed files: events create, move and remove its records. */
module TailMonitor {
  import opened Common
  import opened SavePositions
  import opened TailRecord

  /** What a table entry amounts to: its name, the open file behind it, how far it was read
      and what it handed on. */
  datatype Entry = Entry(filename: string, fd: nat, active: bool, state: State, queue: seq<Bytes>)

  type Table = map<string, Entry>

  function Begin(c: Config, name: string, fd: nat, active: bool, saved: int): Entry {
    Entry(name, fd, active, State(if c.saveState then saved else 0, [], false, false), [])
  }

  ghost function EntryProcessed(c: Config, e: Entry, file: Bytes, readable: nat): Entry
    requires ValidConfig(c)
  {
    if !e.active then e else
      var o := Processed(c, e.state, file, readable);
      e.(state := o.state, queue := e.queue + o.messages)
  }

  /** What processing an entry leaves in the data directory. */
  ghost function DiskProcessed(c: Config, e: Entry, file: Bytes, readable: nat, disk: map<string, Bytes>)
    : map<string, Bytes>
    requires ValidConfig(c) && e.filename != ""
  {
    if !e.active then disk else
      var o := Processed(c, e.state, file, readable);
      if o.saves && c.saveState then disk[SavedName(e.filename) := EncodePosition(SavedOffset(o.state))] else disk
  }

  function EntryFlushed(e: Entry): Entry {
    var o := Flushed(e.state);
    e.(state := o.state, queue := e.queue + o.messages)
  }

  /** The record an event on `name` is for: the tracked one, or a new one. */
  function Tracked(c: Config, t: Table, name: string, fd: nat, active: bool, saved: int): Entry {
    if name in t then t[name] else Begin(c, name, fd, active, saved)
  }

  function Moved(t: Table, name: string, current: string): Table {
    if name !in t || current == name then t
    else if current in t then t - {name}
    else (t - {name})[current := t[name].(filename := current)]
  }

  lemma MovedRenamed(t: Table, name: string, current: string)
    requires name in t && current != name
    ensures var e := t[name].(filename := current);
            var renamed := t[name := e];
            Moved(t, name, current) == if current in t then renamed - {name} else (renamed - {name})[current := e]
  {
  }

  /** Every record flushed, but those still left. */
  function FlushedExcept(t: Table, left: set<string>): Table {
    map k | k in t :: if k in left then t[k] else EntryFlushed(t[k])
  }

  lemma FlushedExceptStep(t: Table, left: set<string>, k: string)
    requires k in left && k in t
    ensures FlushedExcept(t, left)[k := EntryFlushed(t[k])] == FlushedExcept(t, left - {k})
    ensures FlushedExcept(t, left)[k] == t[k]
    ensures FlushedExcept(t, left).Keys == t.Keys
  {
  }

  lemma FlushedExceptAll(t: Table)
    ensures FlushedExcept(t, t.Keys) == t
  {
  }

  predicate SavesOnFlush(c: Config, t: Table, k: string) {
    k in t && c.saveState && t[k].state.buffer != []
  }

  /** No record of the table saves under this name. */
  ghost predicate NotSaved(c: Config, t: Table, n: string)
    requires "" !in t
  {
    forall k :: SavesOnFlush(c, t, k) ==> SavedName(k) != n
  }

  /** No other record of the table saves under the name this one does. */
  ghost predicate OwnName(c: Config, t: Table, k: string)
    requires "" !in t && k in t
  {
    forall j :: SavesOnFlush(c, t, j) && j != k ==> SavedName(j) != SavedName(k)
  }

  predicate Untouched(before: map<string, Bytes>, after: map<string, Bytes>, n: string) {
    (n in after <==> n in before) && (n in before ==> after[n] == before[n])
  }

  predicate HasOffset(after: map<string, Bytes>, k: string, e: Entry)
    requires k != ""
  {
    SavedName(k) in after && after[SavedName(k)] == EncodePosition(SavedOffset(EntryFlushed(e).state))
  }

  /** The data directory after every record was flushed, in any order: a record whose saved
      name is its own has its new offset there, and nothing else changed. */
  ghost predicate DiskFlushed(c: Config, t: Table, before: map<string, Bytes>, after: map<string, Bytes>)
    requires "" !in t
  {
    && (forall n :: NotSaved(c, t, n) ==> Untouched(before, after, n))
    && (forall k :: SavesOnFlush(c, t, k) && OwnName(c, t, k) ==> HasOffset(after, k, t[k]))
  }

  lemma DiskFlushedStart(c: Config, t: Table, disk: map<string, Bytes>)
    requires "" !in t
    ensures DiskFlushed(c, t - t.Keys, disk, disk)
  {
  }

  /** The data directory after record `k` was flushed. */
  function SavedOnFlush(c: Config, t: Table, k: string, disk: map<string, Bytes>): map<string, Bytes>
    requires k in t && k != ""
  {
    if SavesOnFlush(c, t, k) then disk[SavedName(k) := EncodePosition(SavedOffset(EntryFlushed(t[k]).state))] else disk
  }

  lemma SavedAlike(c: Config, t: Table, u: Table, k: string, disk: map<string, Bytes>)
    requires k in t && k in u && t[k] == u[k] && k != ""
    ensures SavedOnFlush(c, t, k, disk) == SavedOnFlush(c, u, k, disk)
  {
  }

  lemma UntouchedStep(c: Config, t: Table, left: set<string>, k: string, disk: map<string, Bytes>,
                      before: map<string, Bytes>, n: string)
    requires "" !in t && k in left && k in t && DiskFlushed(c, t - left, disk, before)
    requires NotSaved(c, t - (left - {k}), n)
    ensures Untouched(disk, SavedOnFlush(c, t, k, before), n)
  {
    FlushedMore(c, t, left, k);
    hide EncodePosition, SavedOffset, EntryFlushed, SavedName, SavesOnFlush, HasOffset;
    assert NotSaved(c, t - left, n);
  }

  lemma HasOffsetStep(c: Config, t: Table, left: set<string>, k: string, disk: map<string, Bytes>,
                      before: map<string, Bytes>, j: string)
    requires "" !in t && k in left && k in t && DiskFlushed(c, t - left, disk, before)
    requires j in t && SavesOnFlush(c, t - (left - {k}), j) && OwnName(c, t - (left - {k}), j)
    ensures HasOffset(SavedOnFlush(c, t, k, before), j, t[j])
  {
    FlushedMore(c, t, left, k);
    hide EncodePosition, SavedOffset, EntryFlushed, SavedName, SavesOnFlush, Untouched;
    if j != k {
      assert OwnName(c, t - left, j);
    }
  }

  lemma DiskFlushedStep(c: Config, t: Table, left: set<string>, k: string, disk: map<string, Bytes>,
                        before: map<string, Bytes>, after: map<string, Bytes>)
    requires "" !in t && k in left && k in t
    requires DiskFlushed(c, t - left, disk, before) && after == SavedOnFlush(c, t, k, before)
    ensures DiskFlushed(c, t - (left - {k}), disk, after)
  {
    var more := t - (left - {k});
    assert forall j :: j in more ==> j in t && more[j] == t[j];
    assert forall j :: SavesOnFlush(c, more, j) ==> j in more;
    hide SavesOnFlush, NotSaved, OwnName, Untouched, HasOffset, SavedOnFlush;
    forall n | NotSaved(c, more, n) ensures Untouched(disk, after, n) {
      UntouchedStep(c, t, left, k, disk, before, n);
    }
    forall j | SavesOnFlush(c, more, j) && OwnName(c, more, j) ensures HasOffset(after, j, more[j]) {
      HasOffsetStep(c, t, left, k, disk, before, j);
    }
  }

  lemma FlushedMore(c: Config, t: Table, left: set<string>, k: string)
    requires k in left && k in t
    ensures var done, more := t - left, t - (left - {k});
            && (forall j :: SavesOnFlush(c, more, j) <==> SavesOnFlush(c, done, j) || (j == k && SavesOnFlush(c, t, k)))
            && (forall j :: j in done ==> j in more && more[j] == done[j])
  {
  }

  class TailMonitor {
    const config: Config
    const store: SavePositionServer
    var table: map<string, Record>

    constructor (config: Config, store: SavePositionServer)
      requires ValidConfig(config)
      ensures Valid() && View() == map[] && this.config == config && this.store == store
    {
      this.config, this.store, table := config, store, map[];
    }

    /** Every record is filed under its own name. */
    ghost predicate Valid()
      reads this, table.Values
    {
      ValidConfig(config) && AllFiled(table)
    }

    ghost predicate AllFiled(t: map<string, Record>)
      reads t.Values
    {
      forall k :: k in t ==> k != "" && t[k].filename == k && t[k].config == config && t[k].store == store
    }

    ghost function EntryOf(r: Record): Entry
      reads r
    {
      Entry(r.filename, r.fd, !r.symlink && r.open, r.Get(), r.queue)
    }

    ghost function Entries(t: map<string, Record>): Table
      reads t.Values
    {
      map k | k in t :: EntryOf(t[k])
    }

    ghost function View(): Table
      reads this, table.Values
    {
      Entries(table)
    }

    /** No record is filed under two names. */
    lemma Distinct()
      requires Valid()
      ensures forall j, k :: j in table && k in table && j != k ==> table[j] != table[k]
    {
      forall j, k | j in table && k in table && j != k ensures table[j] != table[k] {
        assert table[j].filename == j && table[k].filename == k;
      }
    }

    method Track(name: string, fd: nat, symlink: bool)
      requires Valid() && name != ""
      modifies this`table
      ensures Valid() && name in table && store.disk == old(store.disk)
      ensures forall k :: k in table ==> if k in old(table) then table[k] == old(table)[k] else fresh(table[k])
      ensures var saved := old(store.GetSavedPosition(name));
              View() == old(View())[name := Tracked(config, old(View()), name, fd, !symlink, saved)]
    {
      if name !in table {
        var r := new Record(config, name, fd, symlink, store);
        EntriesAdded(table, name, r);
        hide Entries, EntryOf;
        table := table[name := r];
      }
    }

    lemma EntriesAdded(t: map<string, Record>, name: string, r: Record)
      ensures Entries(t[name := r]) == Entries(t)[name := EntryOf(r)]
    {
    }

    method ProcessRecord(name: string, content: nat -> Bytes, readable: nat)
      requires Valid() && name in table
      modifies table[name], store`disk
      ensures Valid()
      ensures var e := old(View())[name];
              View() == old(View())[name := EntryProcessed(config, e, content(e.fd), readable)]
      ensures store.disk ==
              DiskProcessed(config, old(View())[name], content(old(View())[name].fd), readable, old(store.disk))
    {
      hide EntryProcessed, DiskProcessed;
      Distinct();
      ProcessOne(table[name], content, readable);
    }

    method ProcessOne(r: Record, content: nat -> Bytes, readable: nat)
      requires r.Valid() && r.config == config && r.store == store
      modifies r, store`disk
      ensures r.filename == old(r.filename)
      ensures EntryOf(r) == EntryProcessed(config, old(EntryOf(r)), content(r.fd), readable)
      ensures store.disk == DiskProcessed(config, old(EntryOf(r)), content(r.fd), readable, old(store.disk))
    {
      hide Processed, EncodePosition, SavedOffset;
      r.Process(content(r.fd), readable);
    }

    /** A creation or modification event. The name opens the file `fd`, and `content` tells
        what an open file holds by now. */
    method Modify(name: string, fd: nat, symlink: bool, content: nat -> Bytes, readable: nat)
      requires Valid() && name != ""
      modifies this`table, table.Values, store`disk
      ensures Valid()
      ensures var e := Tracked(config, old(View()), name, fd, !symlink, old(store.GetSavedPosition(name)));
              && View() == old(View())[name := EntryProcessed(config, e, content(e.fd), readable)]
              && store.disk == DiskProcessed(config, e, content(e.fd), readable, old(store.disk))
    {
      hide EntryProcessed, DiskProcessed, Entries, EntryOf, AllFiled;
      Track(name, fd, symlink);
      ProcessRecord(name, content, readable);
    }

    /** A rename was reported for `name`; `current` is what the system now calls its open file. */
    method Move(name: string, current: string)
      requires Valid() && current != ""
      modifies this`table, if name in table then {table[name]} else {}
      ensures Valid()
      ensures View() == Moved(old(View()), name, current)
      ensures name in old(table) && current !in old(table) ==>
                table == (old(table) - {name})[current := old(table)[name]]
      ensures name in old(table) && current != name ==>
                (old(table)[name] in table.Values <==> current !in old(table))
    {
      hide Entries, EntryOf;
      if name in table {
        var r := table[name];
        EntriesKeys(table);
        if current != name {
          Distinct();
          MovedRenamed(View(), name, current);
          KeptIff(table, name, current);
          Rename(r, name, current);
          Refile(r, name, current);
        }
      } else {
        EntriesKeys(table);
      }
    }

    /** The record takes the new name; it is still filed under the old one. */
    method Rename(r: Record, name: string, current: string)
      requires Valid() && name in table && table[name] == r && current != ""
      requires forall k :: k in table && k != name ==> table[k] != r
      modifies r`filename
      ensures r.filename == current && AllFiled(table - {name})
      ensures View() == old(View())[name := old(View())[name].(filename := current)]
    {
      r.filename := current;
    }

    /** The record is filed under its new name, unless that is taken. */
    method Refile(r: Record, name: string, current: string)
      requires ValidConfig(config) && AllFiled(table - {name}) && name in table && table[name] == r
      requires r.filename == current != name && current != "" && r.config == config && r.store == store
      modifies this`table
      ensures Valid()
      ensures table == if current in old(table) then old(table) - {name} else (old(table) - {name})[current := r]
      ensures View() == if current in old(table) then old(View()) - {name}
                        else (old(View()) - {name})[current := old(View())[name]]
    {
      if current !in table {
        table := table[current := r];
      }
      table := table - {name};
      assert current !in old(table) ==> table == (old(table) - {name})[current := r];
    }

    /** The record is kept exactly when the new name is free. */
    lemma KeptIff(t: map<string, Record>, name: string, current: string)
      requires name in t && current != name && forall k :: k in t && k != name ==> t[k] != t[name]
      ensures var t' := if current in t then t - {name} else (t - {name})[current := t[name]];
              t[name] in t'.Values <==> current !in t
    {
      if current !in t {
        var t' := (t - {name})[current := t[name]];
        assert t'[current] == t[name];
      }
    }

    lemma EntriesKeys(t: map<string, Record>)
      ensures Entries(t).Keys == t.Keys && forall k :: k in t ==> Entries(t)[k] == EntryOf(t[k])
    {
    }

    /** The file was deleted: its record and its saved offset go, but not the offset that was
        loaded at start-up. */
    method Remove(name: string)
      requires Valid() && name != ""
      modifies this`table, store`disk
      ensures Valid()
      ensures View() == old(View()) - {name}
      ensures store.disk == if name in old(table) then old(store.disk) - {SavedName(name)} else old(store.disk)
    {
      if name in table {
        table := table - {name};
        store.ErasePosition(name);
      }
    }

    /** One record is flushed. */
    method FlushRecord(k: string)
      requires Valid() && k in table
      modifies table[k], store`disk
      ensures Valid()
      ensures View() == old(View())[k := EntryFlushed(old(View())[k])]
      ensures store.disk == SavedOnFlush(config, old(View()), k, old(store.disk))
    {
      hide EntryFlushed, EncodePosition, SavedOffset;
      Distinct();
      FlushOne(table[k]);
    }

    method FlushOne(r: Record)
      requires r.Valid() && r.config == config && r.store == store
      modifies r, store`disk
      ensures r.filename == old(r.filename)
      ensures EntryOf(r) == EntryFlushed(old(EntryOf(r)))
      ensures store.disk == if config.saveState && old(r.buffer) != []
                            then old(store.disk)[SavedName(r.filename) := EncodePosition(SavedOffset(EntryOf(r).state))]
                            else old(store.disk)
    {
      hide EncodePosition, SavedOffset;
      r.Flush();
    }

    /** The timer: every pending message is handed on. */
    method Flush()
      requires Valid()
      modifies table.Values, store`disk
      ensures Valid()
      ensures View() == FlushedExcept(old(View()), {})
      ensures DiskFlushed(config, old(View()), old(store.disk), store.disk)
    {
      hide EntryFlushed, DiskFlushed, SavedOnFlush, SavesOnFlush, FlushedExcept;
      FlushedExceptAll(View());
      DiskFlushedStart(config, View(), store.disk);
      ghost var t, disk := View(), store.disk;
      var left := table.Keys;
      assert left == t.Keys;
      while left != {}
        invariant left <= table.Keys && Valid()
        invariant View() == FlushedExcept(t, left)
        invariant DiskFlushed(config, t - left, disk, store.disk)
        decreases left
      {
        var k :| k in left;
        ghost var before := store.disk;
        FlushedExceptStep(t, left, k);
        SavedAlike(config, View(), t, k, store.disk);
        FlushRecord(k);
        DiskFlushedStep(config, t, left, k, disk, before, store.disk);
        left := left - {k};
      }
      assert t - left == t;
    }
  }
}
