/** The durable store of file offsets: one little file per tailed file, eight bytes each. */
module SavePositions {
  import opened Common

  // ---- The eight bytes of an offset ----

  /** A Position is a signed 64-bit number. */
  const TWO_TO_THE_63: int := 0x8000_0000_0000_0000

  predicate IsPosition(p: int) {
    -TWO_TO_THE_63 <= p < TWO_TO_THE_63
  }

  /** 64-bit arithmetic wraps around. */
  function Wrap(x: int): (p: int)
    ensures IsPosition(p) && (IsPosition(x) ==> p == x)
  {
    (x + TWO_TO_THE_63) % TWO_TO_THE_64 - TWO_TO_THE_63
  }

  function LittleEndian(v: nat, n: nat): (b: Bytes)
    ensures |b| == n
  {
    if n == 0 then [] else [v % 256] + LittleEndian(v / 256, n - 1)
  }

  function Value(b: Bytes): nat {
    if b == [] then 0 else b[0] + 256 * Value(b[1..])
  }

  function Pow256(n: nat): nat {
    if n == 0 then 1 else 256 * Pow256(n - 1)
  }

  function EncodePosition(p: int): (b: Bytes)
    requires IsPosition(p)
    ensures |b| == 8
  {
    LittleEndian(if p < 0 then p + TWO_TO_THE_64 else p, 8)
  }

  /** The first eight bytes are read over a zero position; missing bytes stay zero. */
  function DecodePosition(content: Bytes): int {
    var v := Value(if |content| < 8 then content else content[..8]);
    if v >= TWO_TO_THE_63 then v - TWO_TO_THE_64 else v
  }

  lemma {:induction false} ValueOfLittleEndian(v: nat, n: nat)
    ensures Value(LittleEndian(v, n)) <= v
    ensures v < Pow256(n) ==> Value(LittleEndian(v, n)) == v
  {
    if n > 0 {
      ValueOfLittleEndian(v / 256, n - 1);
      assert LittleEndian(v, n)[1..] == LittleEndian(v / 256, n - 1);
    }
  }

  lemma {:induction false} LittleEndianPrefix(v: nat, n: nat, k: nat)
    requires k <= n
    ensures LittleEndian(v, n)[..k] == LittleEndian(v, k)
  {
    if k > 0 {
      LittleEndianPrefix(v / 256, n - 1, k - 1);
      assert LittleEndian(v, n)[..k] == [v % 256] + LittleEndian(v / 256, n - 1)[..k - 1];
    }
  }

  lemma EightBytes()
    ensures Pow256(8) == TWO_TO_THE_64
  {
    assert Pow256(2) == 0x1_0000;
    assert Pow256(4) == 0x1_0000_0000;
    assert Pow256(6) == 0x1_0000_0000_0000;
  }

  /** An offset written completely is read back, negative ones included. */
  lemma PositionRoundTrip(p: int)
    requires IsPosition(p)
    ensures DecodePosition(EncodePosition(p)) == p
  {
    EightBytes();
    ValueOfLittleEndian(if p < 0 then p + TWO_TO_THE_64 else p, 8);
    assert EncodePosition(p)[..8] == EncodePosition(p);
  }

  /** A write torn after any number of bytes never yields a later offset. */
  lemma TornWriteIsEarlier(p: int, k: nat)
    requires 0 <= p < TWO_TO_THE_63 && k <= 8
    ensures 0 <= DecodePosition(EncodePosition(p)[..k]) <= p
  {
    LittleEndianPrefix(p, 8, k);
    ValueOfLittleEndian(p, k);
    if k == 8 {
      assert EncodePosition(p)[..8][..8] == EncodePosition(p)[..8];
    }
  }

  // ---- The name of the file that keeps an offset ----

  /** The leading '/' is dropped and the other ones become '-'. */
  function SavedName(filename: string): (r: string)
    requires filename != ""
    ensures |r| == |filename| - 1
  {
    seq(|filename| - 1, i requires 0 <= i < |filename| - 1 => if filename[i + 1] == '/' then '-' else filename[i + 1])
  }

  predicate SameUpToDashes(c: char, d: char) {
    c == d || {c, d} <= {'/', '-'}
  }

  /** Two tailed files share one saved offset exactly when their names differ, after the
      first character, only where one has '/' and the other '-'. */
  lemma SavedNamesCollideIff(f: string, g: string)
    requires f != "" && g != ""
    ensures SavedName(f) == SavedName(g) <==>
            |f| == |g| && forall i :: 1 <= i < |f| ==> SameUpToDashes(f[i], g[i])
  {
    var sf, sg := SavedName(f), SavedName(g);
    if sf == sg {
      forall i | 1 <= i < |f| ensures SameUpToDashes(f[i], g[i]) {
        assert sf[i - 1] == sg[i - 1];
      }
    }
    if |f| == |g| && forall i :: 1 <= i < |f| ==> SameUpToDashes(f[i], g[i]) {
      forall i | 0 <= i < |sf| ensures sf[i] == sg[i] {
        assert SameUpToDashes(f[i + 1], g[i + 1]);
        assert f[i + 1] in {f[i + 1], g[i + 1]} && g[i + 1] in {f[i + 1], g[i + 1]};
      }
    }
  }

  /** Two names that share one saved offset. */
  lemma CollidingNames()
    ensures "/var/log/a-b" != "/var/log/a/b" && SavedName("/var/log/a-b") == SavedName("/var/log/a/b")
  {
    var f, g := "/var/log/a-b", "/var/log/a/b";
    assert f[10] != g[10];
    SavedNamesCollideIff(f, g);
  }

  /** What initialisation makes of the directory: known offsets stay, new ones are read. */
  function Loaded(table: map<string, int>, disk: map<string, Bytes>): map<string, int> {
    map n | n in table.Keys + disk.Keys :: if n in table then table[n] else DecodePosition(disk[n])
  }

  class SavePositionServer {
    var table: map<string, int>    // the offsets loaded at initialisation
    var disk: map<string, Bytes>   // the data directory

    constructor (disk: map<string, Bytes>)
      ensures this.table == map[] && this.disk == disk
    {
      this.table, this.disk := map[], disk;
    }

    /** Every file of the directory is read into the table and then deleted. */
    method Init()
      modifies this
      ensures table == Loaded(old(table), old(disk)) && disk == map[]
    {
      var left := disk.Keys;
      while left != {}
        invariant left == disk.Keys <= old(disk.Keys)
        invariant forall n :: n in disk ==> disk[n] == old(disk)[n]
        invariant table.Keys == old(table.Keys) + (old(disk.Keys) - left)
        invariant forall n :: n in table ==>
                    table[n] == if n in old(table) then old(table)[n] else DecodePosition(old(disk)[n])
        decreases left
      {
        var n :| n in left;
        var pos := DecodePosition(disk[n]);
        if n !in table {
          table := table[n := pos];
        }
        disk := disk - {n};
        left := left - {n};
      }
    }

    /** The offset loaded for the file, zero if there was none. */
    function GetSavedPosition(filename: string): int
      requires filename != ""
      reads this
    {
      if SavedName(filename) in table then table[SavedName(filename)] else 0
    }

    method SavePosition(filename: string, position: int)
      requires filename != "" && IsPosition(position)
      modifies this`disk
      ensures disk == old(disk)[SavedName(filename) := EncodePosition(position)]
    {
      disk := disk[SavedName(filename) := []];
      disk := disk[SavedName(filename) := EncodePosition(position)];
    }

    method ErasePosition(filename: string)
      requires filename != ""
      modifies this`disk
      ensures disk == old(disk) - {SavedName(filename)}
    {
      disk := disk - {SavedName(filename)};
    }
  }

  /** What a restart reads for a file: its saved offset, zero if there is none. */
  function DurableOffset(disk: map<string, Bytes>, filename: string): int
    requires filename != ""
  {
    if SavedName(filename) in disk then DecodePosition(disk[SavedName(filename)]) else 0
  }

  /** Saving one file's offset can be relied on by another file exactly when their saved
      names differ: otherwise some save changes what the other one resumes from. */
  lemma SaveIsolatedIff(disk: map<string, Bytes>, f: string, g: string)
    requires f != "" && g != ""
    ensures (forall p :: IsPosition(p) ==>
               DurableOffset(disk[SavedName(f) := EncodePosition(p)], g) == DurableOffset(disk, g))
       <==> SavedName(f) != SavedName(g)
  {
    if SavedName(f) == SavedName(g) {
      var p := if DurableOffset(disk, g) == 0 then 1 else 0;
      PositionRoundTrip(p);
      assert IsPosition(p) && DurableOffset(disk[SavedName(f) := EncodePosition(p)], g) == p;
    }
  }

  /** After a restart the in-memory offset of a file is its durable one. */
  lemma LoadedIsDurable(disk: map<string, Bytes>, filename: string)
    requires filename != ""
    ensures (if SavedName(filename) in Loaded(map[], disk) then Loaded(map[], disk)[SavedName(filename)] else 0)
            == DurableOffset(disk, filename)
  {
  }
}
