/** GELF over TCP: records framed by a NUL byte, batched, resent after errors, and received. */
module GelfTcp {
  import opened Common

  const NUL: byte := 0
  const BUFFER_LENGTH: nat := 8 * 4096
  const QUEUE_BULK: nat := 1000

  // ---- Frames ----

  function Frame(records: seq<Bytes>): Bytes {
    if records == [] then [] else records[0] + ([NUL] + Frame(records[1..]))
  }

  lemma {:induction false} FrameAppend(a: seq<Bytes>, b: seq<Bytes>)
    ensures Frame(a + b) == Frame(a) + Frame(b)
  {
    if a == [] {
      assert a + b == b;
    } else {
      assert (a + b)[1..] == a[1..] + b;
      FrameAppend(a[1..], b);
      AppendAssociates([NUL], Frame(a[1..]), Frame(b));
      AppendAssociates(a[0], [NUL] + Frame(a[1..]), Frame(b));
    }
  }

  lemma FrameOne(record: Bytes)
    ensures Frame([record]) == record + [NUL]
  {
    assert [record][1..] == [];
    assert [NUL] + Frame([]) == [NUL];
  }

  function NulIndex(b: Bytes): (k: nat)
    ensures k <= |b|
  {
    if b == [] || b[0] == NUL then 0 else 1 + NulIndex(b[1..])
  }

  predicate NulFree(b: Bytes) {
    forall i :: 0 <= i < |b| ==> b[i] != NUL
  }

  /** The frames a stream completes ... */
  function Frames(b: Bytes): seq<Bytes>
    decreases |b|
  {
    if NulIndex(b) == |b| then [] else [b[..NulIndex(b)]] + Frames(b[NulIndex(b) + 1..])
  }

  /** ... and the unfinished frame at its end. */
  function Rest(b: Bytes): Bytes
    decreases |b|
  {
    if NulIndex(b) == |b| then b else Rest(b[NulIndex(b) + 1..])
  }

  function Nuls(b: Bytes): nat {
    if b == [] then 0 else (if b[0] == NUL then 1 else 0) + Nuls(b[1..])
  }

  lemma {:induction false} NulIndexFinds(b: Bytes)
    ensures NulFree(b[..NulIndex(b)]) && (NulIndex(b) < |b| ==> b[NulIndex(b)] == NUL)
  {
    if b != [] && b[0] != NUL {
      NulIndexFinds(b[1..]);
      assert b[..NulIndex(b)] == [b[0]] + b[1..][..NulIndex(b) - 1];
    }
  }

  lemma {:induction false} NulIndexOf(s: Bytes, rest: Bytes)
    requires NulFree(s) && (rest == [] || rest[0] == NUL)
    ensures NulIndex(s + rest) == |s|
    decreases |s|
  {
    if s == [] {
      assert s + rest == rest;
    } else {
      assert (s + rest)[1..] == s[1..] + rest;
      assert NulFree(s[1..]) by { assert forall i :: 0 <= i < |s| - 1 ==> s[1..][i] == s[i + 1]; }
      NulIndexOf(s[1..], rest);
    }
  }

  /** A frame, its NUL, and more. */
  lemma FramesFirst(s: Bytes, rest: Bytes)
    requires NulFree(s)
    ensures Frames(s + ([NUL] + rest)) == [s] + Frames(rest)
    ensures Rest(s + ([NUL] + rest)) == Rest(rest)
  {
    var b := s + ([NUL] + rest);
    NulIndexOf(s, [NUL] + rest);
    assert b[..|s|] == s && b[|s| + 1..] == rest;
  }

  lemma FramesNone(s: Bytes)
    requires NulFree(s)
    ensures Frames(s) == [] && Rest(s) == s
  {
    NulIndexOf(s, []);
    assert s + [] == s;
  }

  predicate AllNulFree(records: seq<Bytes>) {
    forall i :: 0 <= i < |records| ==> NulFree(records[i])
  }

  /** NUL-free records and an unfinished one are received as they were sent. */
  lemma {:induction false} FramesOfRecords(records: seq<Bytes>, tail: Bytes)
    requires AllNulFree(records) && NulFree(tail)
    ensures Frames(Frame(records) + tail) == records && Rest(Frame(records) + tail) == tail
    decreases |records|
  {
    if records == [] {
      assert Frame(records) + tail == tail;
      FramesNone(tail);
    } else {
      assert AllNulFree(records[1..]) by {
        assert forall i :: 0 <= i < |records| - 1 ==> records[1..][i] == records[i + 1];
      }
      FramesOfRecords(records[1..], tail);
      AppendAssociates([NUL], Frame(records[1..]), tail);
      AppendAssociates(records[0], [NUL] + Frame(records[1..]), tail);
      FramesFirst(records[0], Frame(records[1..]) + tail);
    }
  }

  lemma {:induction false} NulsAppend(a: Bytes, b: Bytes)
    ensures Nuls(a + b) == Nuls(a) + Nuls(b)
  {
    if a == [] {
      assert a + b == b;
    } else {
      assert (a + b)[1..] == a[1..] + b;
      NulsAppend(a[1..], b);
    }
  }

  lemma {:induction false} NulFreeIff(b: Bytes)
    ensures NulFree(b) <==> Nuls(b) == 0
  {
    if b != [] {
      NulFreeIff(b[1..]);
      assert b == [b[0]] + b[1..];
      assert forall i :: 0 < i < |b| ==> b[i] == b[1..][i - 1];
      if NulFree(b[1..]) && b[0] != NUL {
        assert NulFree(b);
      }
      if NulFree(b) {
        assert forall i :: 0 <= i < |b| - 1 ==> b[1..][i] == b[i + 1];
      }
    }
  }

  /** As many frames are received as NUL bytes. */
  lemma {:induction false} FramesAreNuls(b: Bytes)
    ensures |Frames(b)| == Nuls(b)
    decreases |b|
  {
    var k := NulIndex(b);
    NulIndexFinds(b);
    NulFreeIff(b[..k]);
    if k == |b| {
      assert b[..k] == b;
    } else {
      FramesAreNuls(b[k + 1..]);
      assert b == b[..k] + ([NUL] + b[k + 1..]);
      NulsAppend(b[..k], [NUL] + b[k + 1..]);
      NulsAppend([NUL], b[k + 1..]);
    }
  }

  lemma {:induction false} NulsOfFrame(records: seq<Bytes>)
    ensures Nuls(Frame(records)) >= |records|
    ensures Nuls(Frame(records)) == |records| <==> AllNulFree(records)
    decreases |records|
  {
    if records != [] {
      NulsOfFrame(records[1..]);
      NulsAppend(records[0], [NUL] + Frame(records[1..]));
      NulsAppend([NUL], Frame(records[1..]));
      NulFreeIff(records[0]);
      assert records == [records[0]] + records[1..];
      assert AllNulFree(records) <==> NulFree(records[0]) && AllNulFree(records[1..]);
    }
  }

  /** Framing is undone by the receiver exactly for records without a NUL byte. */
  lemma FramingIff(records: seq<Bytes>)
    ensures Frames(Frame(records)) == records <==> AllNulFree(records)
  {
    if AllNulFree(records) {
      FramesOfRecords(records, []);
      assert Frame(records) + [] == Frame(records);
    }
    FramesAreNuls(Frame(records));
    NulsOfFrame(records);
  }

  // ---- The receiver ----

  lemma AtNul(b: Bytes)
    requires NulIndex(b) < |b|
    ensures NulFree(b[..NulIndex(b)]) && b == b[..NulIndex(b)] + ([NUL] + b[NulIndex(b) + 1..])
  {
    hide NulIndex;
    NulIndexFinds(b);
    CutAtByte(b, NulIndex(b));
  }

  lemma CutAtByte(b: Bytes, k: nat)
    requires k < |b|
    ensures b == b[..k] + ([b[k]] + b[k + 1..])
  {
  }

  lemma FramesAppendStep(first: Bytes, tail: Bytes, a: Bytes, b: Bytes)
    requires NulFree(first) && a == first + ([NUL] + tail)
    requires Frames(tail + b) == Frames(tail) + Frames(Rest(tail) + b) && Rest(tail + b) == Rest(Rest(tail) + b)
    ensures Frames(a + b) == Frames(a) + Frames(Rest(a) + b) && Rest(a + b) == Rest(Rest(a) + b)
  {
    hide Frames, Rest, NulIndex;
    AppendAssociates([NUL], tail, b);
    AppendAssociates(first, [NUL] + tail, b);
    FramesFirst(first, tail);
    FramesFirst(first, tail + b);
    AppendAssociates([first], Frames(tail), Frames(Rest(tail) + b));
  }

  lemma {:induction false} FramesAppend(a: Bytes, b: Bytes)
    ensures Frames(a + b) == Frames(a) + Frames(Rest(a) + b)
    ensures Rest(a + b) == Rest(Rest(a) + b)
    decreases |a|
  {
    hide Frames, Rest, NulIndex;
    var k := NulIndex(a);
    if k < |a| {
      AtNul(a);
      var first, tail := a[..k], a[k + 1..];
      FramesAppend(tail, b);
      FramesAppendStep(first, tail, a, b);
    } else {
      FramesAppendNone(a, b);
    }
  }

  lemma FramesAppendNone(a: Bytes, b: Bytes)
    requires NulIndex(a) == |a|
    ensures Frames(a + b) == Frames(a) + Frames(Rest(a) + b) && Rest(a + b) == Rest(Rest(a) + b)
  {
    assert Frames(a) == [] && Rest(a) == a;
    hide Frames, Rest;
    assert [] + Frames(a + b) == Frames(a + b);
  }

  /** One connection of the server. */
  class TcpConnection {
    var buffer: Bytes
    var queue: seq<Bytes>

    constructor ()
      ensures buffer == [] && queue == []
    {
      buffer, queue := [], [];
    }

    /** The handler of one completed read: `transferred` bytes up to and including the NUL. */
    method HandleRead(transferred: nat)
      requires transferred <= |buffer|
      modifies this
      ensures transferred == 0 ==> queue == old(queue) && buffer == old(buffer)
      ensures transferred > 0 ==>
                queue == old(queue) + [old(buffer)[..transferred - 1]] && buffer == old(buffer)[transferred..]
    {
      if transferred > 0 {
        queue := queue + [buffer[..transferred - 1]];
        buffer := buffer[transferred..];
      }
    }

    method FindNul() returns (k: nat)
      ensures k == NulIndex(buffer)
    {
      k := 0;
      assert buffer[0..] == buffer;
      while k < |buffer| && buffer[k] != NUL
        invariant k <= |buffer| && NulIndex(buffer) == k + NulIndex(buffer[k..])
      {
        assert buffer[k..][1..] == buffer[k + 1..];
        k := k + 1;
      }
    }

    /** A segment arrives; reads complete as long as the buffer holds a NUL. */
    method Receive(segment: Bytes)
      modifies this
      ensures queue == old(queue) + Frames(old(buffer) + segment)
      ensures buffer == Rest(old(buffer) + segment)
    {
      buffer := buffer + segment;
      ghost var all := buffer;
      var k := FindNul();
      while k < |buffer|
        invariant k == NulIndex(buffer)
        invariant queue + Frames(buffer) == old(queue) + Frames(all) && Rest(buffer) == Rest(all)
        decreases |buffer|
      {
        AppendAssociates(queue, [buffer[..k]], Frames(buffer[k + 1..]));
        HandleRead(k + 1);
        k := FindNul();
      }
      assert queue + [] == queue;
    }
  }

  /** What the receiver has handed on and keeps, segment after segment. */
  function Received(buffer: Bytes, segments: seq<Bytes>): (seq<Bytes>, Bytes)
    decreases |segments|
  {
    if segments == [] then ([], buffer) else
      var (frames, left) := Received(Rest(buffer + segments[0]), segments[1..]);
      (Frames(buffer + segments[0]) + frames, left)
  }

  /** Segmentation does not matter: the frames are those of the whole stream. */
  lemma {:induction false} SegmentationInvariance(buffer: Bytes, segments: seq<Bytes>)
    requires NulFree(buffer)
    ensures Received(buffer, segments) == (Frames(buffer + Concat(segments)), Rest(buffer + Concat(segments)))
    decreases |segments|
  {
    if segments == [] {
      assert buffer + Concat(segments) == buffer;
      FramesNone(buffer);
    } else {
      var b := buffer + segments[0];
      RestNulFree(b);
      SegmentationInvariance(Rest(b), segments[1..]);
      FramesAppend(b, Concat(segments[1..]));
      AppendAssociates(buffer, segments[0], Concat(segments[1..]));
    }
  }

  lemma {:induction false} RestNulFree(b: Bytes)
    ensures NulFree(Rest(b))
    decreases |b|
  {
    NulIndexFinds(b);
    if NulIndex(b) < |b| {
      RestNulFree(b[NulIndex(b) + 1..]);
    } else {
      assert b[..|b|] == b;
    }
  }

  // ---- The sender: batching ----

  function Payload(group: seq<Bytes>): nat {
    if group == [] then 0 else |group[0]| + Payload(group[1..])
  }

  lemma {:induction false} PayloadAppend(a: seq<Bytes>, b: seq<Bytes>)
    ensures Payload(a + b) == Payload(a) + Payload(b)
  {
    if a == [] {
      assert a + b == b;
    } else {
      assert (a + b)[1..] == a[1..] + b;
      PayloadAppend(a[1..], b);
    }
  }

  lemma PayloadOne(group: seq<Bytes>, record: Bytes)
    ensures Payload(group + [record]) == Payload(group) + |record|
  {
    PayloadAppend(group, [record]);
    assert [record][1..] == [];
  }

  /** The records of each flush of a batch, `group` being collected already. */
  function Groups(group: seq<Bytes>, records: seq<Bytes>): seq<seq<Bytes>>
    decreases |records|
  {
    if records == [] then (if Payload(group) > 0 then [group] else [])
    else if Payload(group + [records[0]]) >= BUFFER_LENGTH then [group + [records[0]]] + Groups([], records[1..])
    else Groups(group + [records[0]], records[1..])
  }

  /** What is collected when the batch ends. */
  function LastGroup(group: seq<Bytes>, records: seq<Bytes>): seq<Bytes>
    decreases |records|
  {
    if records == [] then group
    else if Payload(group + [records[0]]) >= BUFFER_LENGTH then LastGroup([], records[1..])
    else LastGroup(group + [records[0]], records[1..])
  }

  function FrameAll(groups: seq<seq<Bytes>>): seq<Bytes> {
    if groups == [] then [] else [Frame(groups[0])] + FrameAll(groups[1..])
  }

  /** The final flush is skipped: what was collected consists of empty records only. */
  predicate SkipsLast(records: seq<Bytes>) {
    LastGroup([], records) != [] && Payload(LastGroup([], records)) == 0
  }

  lemma {:induction false} GroupsConcat(group: seq<Bytes>, records: seq<Bytes>)
    ensures var last := LastGroup(group, records);
            Concat(Groups(group, records)) + (if Payload(last) == 0 then last else []) == group + records
    decreases |records|
  {
    if records == [] {
      assert group + records == group;
      if Payload(group) > 0 {
        ConcatOne([], group);
        assert Concat([group]) + [] == group;
      } else {
        assert Concat<Bytes>([]) + group == group;
      }
    } else {
      var more := group + [records[0]];
      AppendAssociates(group, [records[0]], records[1..]);
      assert [records[0]] + records[1..] == records;
      if Payload(more) >= BUFFER_LENGTH {
        GroupsConcat([], records[1..]);
        var last := LastGroup([], records[1..]);
        assert [] + records[1..] == records[1..];
        AppendAssociates(more, Concat(Groups([], records[1..])), if Payload(last) == 0 then last else []);
      } else {
        GroupsConcat(more, records[1..]);
      }
    }
  }

  /** A batch is sent completely exactly when its last flush is not skipped. */
  lemma BatchCompleteIff(records: seq<Bytes>)
    ensures Concat(Groups([], records)) == records <==> !SkipsLast(records)
  {
    GroupsConcat([], records);
    assert [] + records == records;
    var last := LastGroup([], records);
    assert Concat(Groups([], records)) + [] == Concat(Groups([], records));
  }

  /** A batch of one empty record is never sent. */
  lemma EmptyRecordIsSkipped()
    ensures SkipsLast([[]]) && Groups([], [[]]) == []
  {
    var records: seq<Bytes> := [[]];
    assert records[1..] == [] && [] + [records[0]] == records;
    assert Payload(records) == 0;
  }

  lemma {:induction false} NonEmptyNeverSkipped(group: seq<Bytes>, records: seq<Bytes>)
    requires forall i :: 0 <= i < |records| ==> records[i] != []
    requires group != [] ==> Payload(group) > 0
    ensures LastGroup(group, records) != [] ==> Payload(LastGroup(group, records)) > 0
    decreases |records|
  {
    if records != [] {
      PayloadOne(group, records[0]);
      assert forall i :: 0 <= i < |records| - 1 ==> records[1..][i] == records[i + 1];
      NonEmptyNeverSkipped(if Payload(group + [records[0]]) >= BUFFER_LENGTH then [] else group + [records[0]],
                           records[1..]);
    }
  }

  /** Without its last record no flush reaches the buffer length, and every flush but the last
      of a batch does with it. */
  predicate Sized(groups: seq<seq<Bytes>>) {
    forall i :: 0 <= i < |groups| ==>
      && groups[i] != []
      && Payload(groups[i][..|groups[i]| - 1]) < BUFFER_LENGTH
      && (i < |groups| - 1 ==> Payload(groups[i]) >= BUFFER_LENGTH)
  }

  lemma {:induction false} GroupsSized(group: seq<Bytes>, records: seq<Bytes>)
    requires Payload(group) < BUFFER_LENGTH
    ensures Sized(Groups(group, records))
    decreases |records|
  {
    if records == [] {
      if Payload(group) > 0 {
        PayloadAppend(group[..|group| - 1], [group[|group| - 1]]);
        assert group == group[..|group| - 1] + [group[|group| - 1]];
      }
    } else {
      var more := group + [records[0]];
      if Payload(more) >= BUFFER_LENGTH {
        GroupsSized([], records[1..]);
        assert more[..|more| - 1] == group;
      } else {
        GroupsSized(more, records[1..]);
      }
    }
  }

  /** Every flushed payload is shorter than the buffer length plus the longest record. */
  lemma FlushBound(records: seq<Bytes>, i: nat, longest: nat)
    requires i < |Groups([], records)|
    requires forall k :: 0 <= k < |records| ==> |records[k]| <= longest
    ensures Payload(Groups([], records)[i]) < BUFFER_LENGTH + longest
  {
    var groups := Groups([], records);
    GroupsSized([], records);
    var g := groups[i];
    var last := g[|g| - 1];
    assert g == g[..|g| - 1] + [last];
    PayloadOne(g[..|g| - 1], last);
    GroupsConcat([], records);
    InConcat(groups, i, last);
    assert [] + records == records;
    assert last in records;
  }

  lemma {:induction false} InConcat(groups: seq<seq<Bytes>>, i: nat, record: Bytes)
    requires i < |groups| && record in groups[i]
    ensures record in Concat(groups)
  {
    if i > 0 {
      InConcat(groups[1..], i - 1, record);
    }
  }

  // ---- The sender: resending ----

  /** One write: it succeeds, and what it wrote is taken to reach the receiver, or it fails after
      delivering some bytes; `running` tells whether the output is still to run then. */
  datatype Attempt = Delivered | Failed(bytes: nat, running: bool)

  /** The byte streams of all connections so far, the current one last, and the attempts that
      are still to come. */
  datatype Wire = Wire(streams: seq<Bytes>, script: seq<Attempt>)

  function Write(streams: seq<Bytes>, bytes: Bytes): (r: seq<Bytes>)
    requires streams != []
    ensures |r| == |streams|
  {
    streams[|streams| - 1 := streams[|streams| - 1] + bytes]
  }

  function Prefix(b: Bytes, n: nat): Bytes {
    if n <= |b| then b[..n] else b
  }

  /** The retry loop: the whole buffer again, on a new connection, after every failure. The
      flag tells whether the last write succeeded. */
  function Flushed(w: Wire, buffer: Bytes): (r: (Wire, bool))
    requires w.streams != []
    ensures r.0.streams != []
    decreases |w.script|
  {
    if w.script == [] then (w, false) else
      match w.script[0]
      case Delivered => (Wire(Write(w.streams, buffer), w.script[1..]), true)
      case Failed(n, running) =>
        var streams := Write(w.streams, Prefix(buffer, n));
        if running then Flushed(Wire(streams + [[]], w.script[1..]), buffer)
        else (Wire(streams, w.script[1..]), false)
  }

  /** The flushes of a batch; the flag tells whether all of them succeeded. */
  function AllFlushed(w: Wire, groups: seq<seq<Bytes>>): (r: (Wire, bool))
    requires w.streams != []
    ensures r.0.streams != []
    decreases |groups|
  {
    if groups == [] then (w, true) else
      var (next, ok) := Flushed(w, Frame(groups[0]));
      var (last, all) := AllFlushed(next, groups[1..]);
      (last, ok && all)
  }

  /** The output thread of one upstream. */
  class GelfOutput {
    var streams: seq<Bytes>      // what each connection delivered, the current one last
    var script: seq<Attempt>     // the outcomes of the writes to come
    var sendCounter: nat

    constructor (script: seq<Attempt>)
      ensures Get() == Wire([[]], script) && sendCounter == 0
    {
      streams, this.script, sendCounter := [[]], script, 0;
    }

    function Get(): Wire
      reads this
    {
      Wire(streams, script)
    }

    /** Writes the buffer, and writes it again on a new connection as long as that fails and
        the output is to run. */
    method Flush(str: Bytes) returns (ok: bool)
      requires streams != []
      modifies this`streams, this`script
      ensures (Get(), ok) == Flushed(old(Get()), str) && streams != []
    {
      var error := false;
      while true
        invariant streams != []
        invariant Flushed(old(Get()), str) == Flushed(if error then Wire(streams + [[]], script) else Get(), str)
        decreases |script|
      {
        if error {
          streams := streams + [[]];
        }
        if script == [] {
          return false;
        }
        var attempt := script[0];
        script := script[1..];
        match attempt
        case Delivered =>
          streams := Write(streams, str);
          return true;
        case Failed(n, running) =>
          streams := Write(streams, Prefix(str, n));
          error := true;
          if !running {
            return false;
          }
      }
    }

    /** The records of one bulk, flushed whenever they fill the buffer. */
    method SendBatch(bulk: seq<Bytes>) returns (ok: bool)
      requires streams != [] && |bulk| <= QUEUE_BULK
      modifies this
      ensures streams != [] && sendCounter == old(sendCounter) + |bulk|
      ensures (Get(), ok) == AllFlushed(old(Get()), Groups([], bulk))
    {
      ghost var all := AllFlushed(Get(), Groups([], bulk));
      ghost var group: seq<Bytes> := [];
      var buff, current := [], 0;
      var j := 0;
      ok := true;
      while j < |bulk|
        invariant j <= |bulk| && streams != [] && sendCounter == old(sendCounter)
        invariant buff == Frame(group) && current == Payload(group)
        invariant all == Remaining(ok, Get(), Groups(group, bulk[j..]))
        decreases |bulk| - j
      {
        var str := bulk[j];
        Collect(group, str);
        assert bulk[j..][0] == str && bulk[j..][1..] == bulk[j + 1..];
        buff := buff + (str + [NUL]);
        current := current + |str|;
        group := group + [str];
        if current >= BUFFER_LENGTH {
          var sent := Flush(buff);
          ok := ok && sent;
          buff, current, group := [], 0, [];
        }
        j := j + 1;
      }
      OneFlush(Get(), group);
      assert bulk[j..] == [];
      if current > 0 {
        var sent := Flush(buff);
        ok := ok && sent;
      }
      sendCounter := sendCounter + |bulk|;
    }
  }

  lemma OneFlush(w: Wire, group: seq<Bytes>)
    requires w.streams != []
    ensures AllFlushed(w, [group]) == Flushed(w, Frame(group))
  {
    assert [group][1..] == [];
  }

  /** The flushes that remain, after some that all succeeded or not. */
  function Remaining(ok: bool, w: Wire, groups: seq<seq<Bytes>>): (Wire, bool)
    requires w.streams != []
  {
    var (last, all) := AllFlushed(w, groups);
    (last, ok && all)
  }

  lemma Collect(group: seq<Bytes>, record: Bytes)
    ensures Frame(group + [record]) == Frame(group) + (record + [NUL])
    ensures Payload(group + [record]) == Payload(group) + |record|
  {
    FrameAppend(group, [record]);
    FrameOne(record);
    PayloadOne(group, record);
  }

  // ---- At least once ----

  datatype Interval = Interval(lo: nat, hi: nat)

  /** The stream holds these records, and perhaps the beginning of another one. */
  ghost predicate Carries(stream: Bytes, records: seq<Bytes>, part: Interval) {
    part.lo <= part.hi <= |records| &&
    exists tail :: NulFree(tail) && stream == Frame(records[part.lo..part.hi]) + tail
  }

  /** Every connection carries a stretch of the records. The first stretch starts at the first
      record, the next ones leave no gap, and the last one ends before record `to`. */
  ghost predicate Consistent(streams: seq<Bytes>, parts: seq<Interval>, records: seq<Bytes>, to: nat) {
    && |parts| == |streams| > 0
    && (forall c :: 0 <= c < |parts| ==> Carries(streams[c], records, parts[c]))
    && parts[0].lo == 0
    && (forall c :: 0 <= c < |parts| - 1 ==> parts[c + 1].lo <= parts[c].hi)
    && parts[|parts| - 1].hi == to
    && streams[|streams| - 1] == Frame(records[parts[|parts| - 1].lo..to])
  }

  /** A prefix of framed records is some of them, framed, and the beginning of the next. */
  lemma {:induction false} PrefixOfFrames(records: seq<Bytes>, n: nat) returns (k: nat, tail: Bytes)
    requires AllNulFree(records)
    ensures k <= |records| && NulFree(tail) && Prefix(Frame(records), n) == Frame(records[..k]) + tail
    decreases |records|
  {
    if records == [] || n <= |records[0]| {
      k, tail := 0, if records == [] then [] else records[0][..n];
      assert records[..0] == [];
    } else {
      var r, rest := records[0], records[1..];
      assert AllNulFree(rest) by { assert forall i :: 0 <= i < |rest| ==> rest[i] == records[i + 1]; }
      var k', tail' := PrefixOfFrames(rest, n - |r| - 1);
      k, tail := k' + 1, tail';
      assert records[..k] == [r] + rest[..k'];
      FramePrepend(r, rest[..k']);
      AppendAssociates([NUL], Frame(rest[..k']), tail);
      AppendAssociates(r, [NUL] + Frame(rest[..k']), tail);
      PrefixPast(r, Frame(rest), n);
    }
  }

  lemma FramePrepend(record: Bytes, records: seq<Bytes>)
    ensures Frame([record] + records) == record + ([NUL] + Frame(records))
  {
    assert ([record] + records)[1..] == records;
  }

  lemma PrefixPast(record: Bytes, rest: Bytes, n: nat)
    requires n > |record|
    ensures Prefix(record + ([NUL] + rest), n) == record + ([NUL] + Prefix(rest, n - |record| - 1))
  {
  }

  lemma JoinRecords(records: seq<Bytes>, a: nat, b: nat, c: nat)
    requires a <= b <= c <= |records|
    ensures Frame(records[a..b]) + Frame(records[b..c]) == Frame(records[a..c])
  {
    assert records[a..b] + records[b..c] == records[a..c];
    FrameAppend(records[a..b], records[b..c]);
  }

  /** The current connection takes a stretch of the records and a tail. */
  lemma WriteCarries(streams: seq<Bytes>, parts: seq<Interval>, records: seq<Bytes>, a: nat, b: nat, tail: Bytes)
    requires Consistent(streams, parts, records, a) && a <= b <= |records| && NulFree(tail)
    ensures var streams' := Write(streams, Frame(records[a..b]) + tail);
            var last := |parts| - 1;
            && streams'[last] == Frame(records[parts[last].lo..b]) + tail
            && Carries(streams'[last], records, parts[last].(hi := b))
            && forall c :: 0 <= c < last ==> streams'[c] == streams[c]
  {
    var lo := parts[|parts| - 1].lo;
    JoinRecords(records, lo, a, b);
    AppendAssociates(Frame(records[lo..a]), Frame(records[a..b]), tail);
  }

  lemma DeliveredConsistent(streams: seq<Bytes>, parts: seq<Interval>, records: seq<Bytes>, a: nat, b: nat)
    requires Consistent(streams, parts, records, a) && a <= b <= |records|
    ensures Consistent(Write(streams, Frame(records[a..b])), parts[|parts| - 1 := parts[|parts| - 1].(hi := b)],
                       records, b)
  {
    WriteCarries(streams, parts, records, a, b, []);
    assert Frame(records[a..b]) + [] == Frame(records[a..b]);
    var lo := parts[|parts| - 1].lo;
    assert Frame(records[lo..b]) + [] == Frame(records[lo..b]);
  }

  lemma FailedConsistent(streams: seq<Bytes>, parts: seq<Interval>, records: seq<Bytes>, a: nat, b: nat, n: nat)
      returns (parts': seq<Interval>)
    requires Consistent(streams, parts, records, a) && a <= b <= |records| && AllNulFree(records)
    ensures Consistent(Write(streams, Prefix(Frame(records[a..b]), n)) + [[]], parts', records, a)
  {
    var sent := records[a..b];
    assert AllNulFree(sent) by { assert forall i :: 0 <= i < |sent| ==> sent[i] == records[a + i]; }
    var k, tail := PrefixOfFrames(sent, n);
    assert sent[..k] == records[a..a + k];
    WriteCarries(streams, parts, records, a, a + k, tail);
    var last := |parts| - 1;
    parts' := parts[last := parts[last].(hi := a + k)] + [Interval(a, a)];
    var streams' := Write(streams, Prefix(Frame(sent), n)) + [[]];
    assert records[a..a] == [];
    assert Frame([]) + [] == [];
    assert NulFree([]) && streams'[last + 1] == Frame(records[a..a]) + [];
    forall c | 0 <= c < |parts'| ensures Carries(streams'[c], records, parts'[c]) {
      if c < last {
        assert Carries(streams[c], records, parts[c]);
      }
    }
  }

  /** A flush that ends without error: every connection it used carries a stretch. */
  lemma {:induction false} FlushedConsistent(w: Wire, parts: seq<Interval>, records: seq<Bytes>, a: nat, b: nat)
      returns (parts': seq<Interval>)
    requires Consistent(w.streams, parts, records, a) && a <= b <= |records| && AllNulFree(records)
    requires Flushed(w, Frame(records[a..b])).1
    ensures Consistent(Flushed(w, Frame(records[a..b])).0.streams, parts', records, b)
    decreases |w.script|
  {
    assert |parts| == |w.streams| > 0;
    hide Consistent;
    match w.script[0]
    case Delivered =>
      DeliveredConsistent(w.streams, parts, records, a, b);
      parts' := parts[|parts| - 1 := parts[|parts| - 1].(hi := b)];
    case Failed(n, running) =>
      var streams := Write(w.streams, Prefix(Frame(records[a..b]), n)) + [[]];
      var more := FailedConsistent(w.streams, parts, records, a, b, n);
      parts' := FlushedConsistent(Wire(streams, w.script[1..]), more, records, a, b);
  }

  lemma {:induction false} AllFlushedConsistent(w: Wire, parts: seq<Interval>, records: seq<Bytes>, a: nat,
                                                groups: seq<seq<Bytes>>)
      returns (parts': seq<Interval>)
    requires w.streams != [] && Consistent(w.streams, parts, records, a) && AllNulFree(records)
    requires a + |Concat(groups)| <= |records| && records[a..a + |Concat(groups)|] == Concat(groups)
    requires AllFlushed(w, groups).1
    ensures Consistent(AllFlushed(w, groups).0.streams, parts', records, a + |Concat(groups)|)
    decreases |groups|
  {
    hide Consistent, Flushed;
    if groups == [] {
      parts' := parts;
    } else {
      var b := a + |groups[0]|;
      SliceOfConcat(records, a, groups);
      var next := FlushedConsistent(w, parts, records, a, b);
      parts' := AllFlushedConsistent(Flushed(w, Frame(groups[0])).0, next, records, b, groups[1..]);
    }
  }

  lemma SliceOfConcat(records: seq<Bytes>, a: nat, groups: seq<seq<Bytes>>)
    requires groups != [] && a + |Concat(groups)| <= |records| && records[a..a + |Concat(groups)|] == Concat(groups)
    ensures var b := a + |groups[0]|;
            && records[a..b] == groups[0]
            && b + |Concat(groups[1..])| == a + |Concat(groups)|
            && records[b..b + |Concat(groups[1..])|] == Concat(groups[1..])
  {
    var b, end, rest := a + |groups[0]|, a + |Concat(groups)|, Concat(groups[1..]);
    assert records[a..b] == records[a..end][..|groups[0]|] == (groups[0] + rest)[..|groups[0]|];
    assert records[b..end] == records[a..end][|groups[0]|..] == (groups[0] + rest)[|groups[0]|..];
  }

  /** One bulk after the other. */
  function AllSent(w: Wire, bulks: seq<seq<Bytes>>): (r: (Wire, bool))
    requires w.streams != []
    ensures r.0.streams != []
    decreases |bulks|
  {
    if bulks == [] then (w, true) else
      var (next, ok) := AllFlushed(w, Groups([], bulks[0]));
      var (last, all) := AllSent(next, bulks[1..]);
      (last, ok && all)
  }

  predicate Sendable(records: seq<Bytes>) {
    forall i :: 0 <= i < |records| ==> records[i] != [] && NulFree(records[i])
  }

  /** All of a bulk is sent. */
  lemma SendableSlice(records: seq<Bytes>, a: nat, bulk: seq<Bytes>)
    requires Sendable(records) && a + |bulk| <= |records| && records[a..a + |bulk|] == bulk
    ensures AllNulFree(records) && Concat(Groups([], bulk)) == bulk
  {
    forall i | 0 <= i < |bulk| ensures bulk[i] != [] {
      assert bulk[i] == records[a + i];
    }
    hide Groups, NulFree, Payload;
    BatchCompleteIff(bulk);
    NonEmptyNeverSkipped([], bulk);
  }

  lemma {:induction false} AllSentConsistent(w: Wire, parts: seq<Interval>, records: seq<Bytes>, a: nat,
                                             bulks: seq<seq<Bytes>>)
      returns (parts': seq<Interval>)
    requires w.streams != [] && Consistent(w.streams, parts, records, a) && Sendable(records)
    requires a + |Concat(bulks)| <= |records| && records[a..a + |Concat(bulks)|] == Concat(bulks)
    requires AllSent(w, bulks).1
    ensures Consistent(AllSent(w, bulks).0.streams, parts', records, a + |Concat(bulks)|)
    decreases |bulks|
  {
    hide Consistent, AllFlushed, Groups;
    if bulks == [] {
      parts' := parts;
    } else {
      var bulk := bulks[0];
      SliceOfConcat(records, a, bulks);
      SendableSlice(records, a, bulk);
      hide Sendable, AllNulFree, LastGroup, SkipsLast;
      var next := AllFlushedConsistent(w, parts, records, a, Groups([], bulk));
      parts' := AllSentConsistent(AllFlushed(w, Groups([], bulk)).0, next, records, a + |bulk|, bulks[1..]);
    }
  }

  predicate Within(part: Interval, i: nat) {
    part.lo <= i < part.hi
  }

  predicate InSomePart(parts: seq<Interval>, i: nat) {
    exists c :: 0 <= c < |parts| && Within(parts[c], i)
  }

  /** Stretches that start at zero and leave no gap cover everything up to where they end. */
  lemma {:induction false} NoGap(parts: seq<Interval>, i: nat)
    requires parts != [] && parts[0].lo == 0 && i < parts[|parts| - 1].hi
    requires forall c :: 0 <= c < |parts| - 1 ==> parts[c + 1].lo <= parts[c].hi
    ensures InSomePart(parts, i)
    decreases |parts|
  {
    var last := |parts| - 1;
    if parts[last].lo <= i {
      assert Within(parts[last], i);
    } else {
      NoGap(parts[..last], i);
      var c :| 0 <= c < last && Within(parts[..last][c], i);
      assert Within(parts[c], i);
    }
  }

  /** At-least-once under retries. Over every sequence of bulks of non-empty NUL-free records
      whose flushes all end without error, with any failures in between that deliver any part
      of the buffer: the receiver decodes on each connection a stretch of the record list, in
      order and uncorrupted, and every record lies in one of these stretches. */
  lemma SenderAtLeastOnce(script: seq<Attempt>, bulks: seq<seq<Bytes>>) returns (parts: seq<Interval>)
    requires Sendable(Concat(bulks)) && AllSent(Wire([[]], script), bulks).1
    ensures var records, streams := Concat(bulks), AllSent(Wire([[]], script), bulks).0.streams;
            && |parts| == |streams|
            && (forall c :: 0 <= c < |parts| ==>
                  parts[c].lo <= parts[c].hi <= |records| && Frames(streams[c]) == records[parts[c].lo..parts[c].hi])
            && (forall i :: 0 <= i < |records| ==> InSomePart(parts, i))
  {
    var records := Concat(bulks);
    var w := Wire([[]], script);
    assert records[0..0] == [] && Frame([]) + [] == [] && NulFree([]);
    assert Carries([], records, Interval(0, 0)) by { assert [] == Frame(records[0..0]) + []; }
    assert Consistent(w.streams, [Interval(0, 0)], records, 0);
    assert records[0..|records|] == records;
    parts := AllSentConsistent(w, [Interval(0, 0)], records, 0, bulks);
    var streams := AllSent(w, bulks).0.streams;
    forall c | 0 <= c < |parts| ensures Frames(streams[c]) == records[parts[c].lo..parts[c].hi] {
      DecodedPart(streams[c], records, parts[c]);
    }
    forall i | 0 <= i < |records| ensures InSomePart(parts, i) {
      NoGap(parts, i);
    }
  }

  lemma DecodedPart(stream: Bytes, records: seq<Bytes>, part: Interval)
    requires Carries(stream, records, part) && Sendable(records)
    ensures Frames(stream) == records[part.lo..part.hi]
  {
    var tail :| NulFree(tail) && stream == Frame(records[part.lo..part.hi]) + tail;
    var some := records[part.lo..part.hi];
    assert AllNulFree(some) by { assert forall i :: 0 <= i < |some| ==> some[i] == records[part.lo + i]; }
    FramesOfRecords(some, tail);
  }
}
