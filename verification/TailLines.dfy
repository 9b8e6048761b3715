/** How a tailed file is cut into messages at newlines, when there is no expression. */
module TailLines {
  import opened Common

  const NEWLINE: byte := 10

  function NextNewline(b: Bytes, from: nat): (k: nat)
    requires from <= |b|
    ensures from <= k <= |b|
    decreases |b| - from
  {
    if from == |b| || b[from] == NEWLINE then from else NextNewline(b, from + 1)
  }

  predicate IsNextNewline(b: Bytes, from: nat, k: nat) {
    && from <= k <= |b|
    && (forall i :: from <= i < k ==> b[i] != NEWLINE)
    && (k < |b| ==> b[k] == NEWLINE)
  }

  lemma {:induction false} NextNewlineFinds(b: Bytes, from: nat)
    requires from <= |b|
    ensures IsNextNewline(b, from, NextNewline(b, from))
    decreases |b| - from
  {
    if from < |b| && b[from] != NEWLINE {
      NextNewlineFinds(b, from + 1);
    }
  }

  lemma {:induction false} NextNewlineUnique(b: Bytes, from: nat, k: nat)
    requires IsNextNewline(b, from, k)
    ensures NextNewline(b, from) == k
    decreases |b| - from
  {
    if from < k {
      NextNewlineUnique(b, from + 1, k);
    }
  }

  lemma NewlineFound(b: Bytes)
    ensures NextNewline(b, 0) < |b| ==> b[NextNewline(b, 0)] == NEWLINE
    ensures b != [] ==> (NextNewline(b, 0) == 0 <==> b[0] == NEWLINE)
  {
    NextNewlineFinds(b, 0);
  }

  /** What precedes the first newline, if it is not empty, and what follows it. */
  function FirstLine(b: Bytes): seq<Bytes> {
    if NextNewline(b, 0) == 0 then [] else [b[..NextNewline(b, 0)]]
  }

  function AfterLine(b: Bytes): Bytes {
    if NextNewline(b, 0) == |b| then [] else b[NextNewline(b, 0) + 1..]
  }

  /** The messages of one chunk. */
  function Lines(b: Bytes): seq<Bytes>
    decreases |b|
  {
    if b == [] then [] else FirstLine(b) + Lines(AfterLine(b))
  }

  /** The messages found from `first` on, by positions in the chunk. */
  function LinesFrom(b: Bytes, first: nat): seq<Bytes>
    requires first <= |b|
    decreases |b| - first
  {
    if first == |b| then [] else
      var second := NextNewline(b, first);
      var rest := if second == |b| then [] else LinesFrom(b, second + 1);
      if first == second then rest else [b[first..second]] + rest
  }

  lemma NextNewlineFrom(b: Bytes, first: nat)
    requires first <= |b|
    ensures NextNewline(b[first..], 0) == NextNewline(b, first) - first
  {
    NextNewlineFinds(b, first);
    NextNewlineUnique(b[first..], 0, NextNewline(b, first) - first);
  }

  lemma LineFrom(b: Bytes, first: nat)
    requires first < |b|
    ensures var second := NextNewline(b, first);
            && FirstLine(b[first..]) == (if first == second then [] else [b[first..second]])
            && AfterLine(b[first..]) == (if second == |b| then [] else b[second + 1..])
  {
    NextNewlineFrom(b, first);
    var second := NextNewline(b, first);
    assert b[first..][..second - first] == b[first..second];
    if second < |b| {
      DropTwice(b, first, second - first + 1);
    }
  }

  lemma {:induction false} LinesFromIsLines(b: Bytes, first: nat)
    requires first <= |b|
    ensures LinesFrom(b, first) == Lines(b[first..])
    decreases |b| - first
  {
    hide NextNewline, FirstLine, AfterLine;
    if first < |b| {
      LineFrom(b, first);
      var second := NextNewline(b, first);
      if second < |b| {
        LinesFromIsLines(b, second + 1);
      }
    }
  }

  /** b[lo..hi] is a non-empty newline-free stretch that cannot be extended either way. */
  predicate MaximalRun(b: Bytes, lo: nat, hi: nat) {
    && lo < hi <= |b|
    && (forall k :: lo <= k < hi ==> b[k] != NEWLINE)
    && (lo == 0 || b[lo - 1] == NEWLINE)
    && (hi == |b| || b[hi] == NEWLINE)
  }

  datatype Interval = Interval(lo: nat, hi: nat)

  function Move(runs: seq<Interval>, d: nat): (r: seq<Interval>)
    ensures |r| == |runs|
  {
    seq(|runs|, k requires 0 <= k < |runs| => Interval(runs[k].lo + d, runs[k].hi + d))
  }

  /** Where the first message lies, if the chunk does not start with a newline. */
  function FirstRuns(b: Bytes): seq<Interval> {
    if NextNewline(b, 0) == 0 then [] else [Interval(0, NextNewline(b, 0))]
  }

  /** Where the messages of a chunk lie in it. */
  function LineRuns(b: Bytes): seq<Interval>
    decreases |b|
  {
    if b == [] then [] else
      FirstRuns(b) + Move(LineRuns(AfterLine(b)), NextNewline(b, 0) + 1)
  }

  /** The run cuts the given message out of the chunk. */
  predicate Locates(b: Bytes, run: Interval, message: Bytes) {
    run.lo < run.hi <= |b| && b[run.lo..run.hi] == message
  }

  predicate LocateAll(b: Bytes, runs: seq<Interval>, messages: seq<Bytes>) {
    |runs| == |messages| && forall i :: 0 <= i < |runs| ==> Locates(b, runs[i], messages[i])
  }

  lemma LocatesMoved(b: Bytes, d: nat, runs: seq<Interval>, messages: seq<Bytes>)
    requires d <= |b| && LocateAll(b[d..], runs, messages)
    ensures LocateAll(b, Move(runs, d), messages)
  {
    forall i | 0 <= i < |runs| ensures Locates(b, Move(runs, d)[i], messages[i]) {
      var r := runs[i];
      assert Locates(b[d..], r, messages[i]);
      assert b[d..][r.lo..r.hi] == b[r.lo + d..r.hi + d];
    }
  }

  lemma LocatesFirst(b: Bytes, run: Interval, runs: seq<Interval>, message: Bytes, messages: seq<Bytes>)
    requires Locates(b, run, message) && LocateAll(b, runs, messages)
    ensures LocateAll(b, [run] + runs, [message] + messages)
  {
  }

  lemma {:induction false} LineRunsLocateLines(b: Bytes)
    ensures LocateAll(b, LineRuns(b), Lines(b))
    decreases |b|
  {
    if b != [] {
      var k, rest := NextNewline(b, 0), AfterLine(b);
      LineRunsLocateLines(rest);
      var moved := Move(LineRuns(rest), k + 1);
      if k < |b| {
        LocatesMoved(b, k + 1, LineRuns(rest), Lines(rest));
      }
      assert LocateAll(b, moved, Lines(rest));
      if k > 0 {
        LocatesFirst(b, Interval(0, k), moved, b[..k], Lines(rest));
      }
    }
  }

  lemma RunAfterNewline(b: Bytes, k: nat, lo: nat, hi: nat)
    requires k < |b| && b[k] == NEWLINE && k < lo && k < hi
    ensures MaximalRun(b, lo, hi) <==> MaximalRun(b[k + 1..], lo - k - 1, hi - k - 1)
  {
    var s := b[k + 1..];
    forall i | k + 1 <= i < |b| ensures b[i] == s[i - k - 1] {}
    if MaximalRun(s, lo - k - 1, hi - k - 1) {
      forall i | lo <= i < hi ensures b[i] != NEWLINE { assert b[i] == s[i - k - 1]; }
    }
  }

  lemma FirstRun(b: Bytes, lo: nat, hi: nat)
    requires MaximalRun(b, lo, hi) && lo <= NextNewline(b, 0)
    ensures lo == 0 && hi == NextNewline(b, 0)
  {
    NextNewlineFinds(b, 0);
    NextNewlineUnique(b, lo, hi);
  }

  /** Maximal runs in order, all of them from `from` on. */
  predicate OrderedRuns(b: Bytes, from: nat, runs: seq<Interval>) {
    && (forall k :: 0 <= k < |runs| ==> from <= runs[k].lo && MaximalRun(b, runs[k].lo, runs[k].hi))
    && (forall k, l :: 0 <= k < l < |runs| ==> runs[k].hi < runs[l].lo)
  }

  lemma OrderedRunsMoved(b: Bytes, k: nat, runs: seq<Interval>)
    requires k < |b| && b[k] == NEWLINE && OrderedRuns(b[k + 1..], 0, runs)
    ensures OrderedRuns(b, k + 1, Move(runs, k + 1))
  {
    forall i | 0 <= i < |runs| ensures MaximalRun(b, runs[i].lo + k + 1, runs[i].hi + k + 1) {
      RunAfterNewline(b, k, runs[i].lo + k + 1, runs[i].hi + k + 1);
    }
  }

  lemma OrderedRunsFirst(b: Bytes, k: nat, runs: seq<Interval>)
    requires 0 < k && MaximalRun(b, 0, k) && OrderedRuns(b, k + 1, runs)
    ensures OrderedRuns(b, 0, [Interval(0, k)] + runs)
  {
  }

  lemma {:induction false} LineRunsSound(b: Bytes)
    ensures OrderedRuns(b, 0, LineRuns(b))
    decreases |b|
  {
    if b != [] {
      var k, runs := NextNewline(b, 0), LineRuns(AfterLine(b));
      LineRunsSound(AfterLine(b));
      NextNewlineFinds(b, 0);
      if k < |b| {
        OrderedRunsMoved(b, k, runs);
      }
      if k > 0 {
        OrderedRunsFirst(b, k, Move(runs, k + 1));
      }
    }
  }

  lemma InEither<T>(a: seq<T>, b: seq<T>, x: T)
    requires x in a || x in b
    ensures x in a + b
  {
  }

  lemma InMoved(runs: seq<Interval>, run: Interval, d: nat)
    requires run in runs
    ensures Interval(run.lo + d, run.hi + d) in Move(runs, d)
  {
    var i :| 0 <= i < |runs| && runs[i] == run;
    assert Move(runs, d)[i] == Interval(run.lo + d, run.hi + d);
  }

  /** A later run of the chunk is a run of what follows the first newline. */
  lemma LaterRun(b: Bytes, lo: nat, hi: nat)
    requires MaximalRun(b, lo, hi) && NextNewline(b, 0) < lo
    ensures var k := NextNewline(b, 0);
            |AfterLine(b)| < |b| && MaximalRun(AfterLine(b), lo - k - 1, hi - k - 1)
  {
    NewlineFound(b);
    RunAfterNewline(b, NextNewline(b, 0), lo, hi);
  }

  lemma FirstRunListed(b: Bytes, lo: nat, hi: nat)
    requires MaximalRun(b, lo, hi) && lo <= NextNewline(b, 0)
    ensures Interval(lo, hi) in LineRuns(b)
  {
    FirstRun(b, lo, hi);
    assert Interval(lo, hi) in FirstRuns(b);
    InEither(FirstRuns(b), Move(LineRuns(AfterLine(b)), NextNewline(b, 0) + 1), Interval(lo, hi));
  }

  lemma LaterRunListed(b: Bytes, run: Interval)
    requires b != [] && run in LineRuns(AfterLine(b))
    ensures var k := NextNewline(b, 0); Interval(run.lo + k + 1, run.hi + k + 1) in LineRuns(b)
  {
    hide Move, FirstRuns, NextNewline, AfterLine;
    var k := NextNewline(b, 0);
    InMoved(LineRuns(AfterLine(b)), run, k + 1);
    InEither(FirstRuns(b), Move(LineRuns(AfterLine(b)), k + 1), Interval(run.lo + (k + 1), run.hi + (k + 1)));
  }

  lemma {:induction false} LineRunsComplete(b: Bytes, lo: nat, hi: nat)
    requires MaximalRun(b, lo, hi)
    ensures Interval(lo, hi) in LineRuns(b)
    decreases |b|
  {
    hide *;
    var k := NextNewline(b, 0);
    if lo <= k {
      FirstRunListed(b, lo, hi);
    } else {
      LaterRun(b, lo, hi);
      LineRunsComplete(AfterLine(b), lo - k - 1, hi - k - 1);
      LaterRunListed(b, Interval(lo - k - 1, hi - k - 1));
    }
  }

  /** The splitter emits, in order, exactly the maximal newline-free stretches. */
  lemma LinesAreTheMaximalRuns(b: Bytes)
    ensures LocateAll(b, LineRuns(b), Lines(b)) && OrderedRuns(b, 0, LineRuns(b))
    ensures forall lo: nat, hi: nat :: MaximalRun(b, lo, hi) ==> Interval(lo, hi) in LineRuns(b)
  {
    LineRunsLocateLines(b);
    LineRunsSound(b);
    forall lo: nat, hi: nat | MaximalRun(b, lo, hi) ensures Interval(lo, hi) in LineRuns(b) {
      LineRunsComplete(b, lo, hi);
    }
  }

  function WithoutNewlines(b: Bytes): Bytes {
    if b == [] then []
    else if b[0] == NEWLINE then WithoutNewlines(b[1..])
    else [b[0]] + WithoutNewlines(b[1..])
  }

  lemma {:induction false} WithoutNewlinesAppend(a: Bytes, b: Bytes)
    ensures WithoutNewlines(a + b) == WithoutNewlines(a) + WithoutNewlines(b)
  {
    if a == [] {
      assert a + b == b;
    } else {
      assert (a + b)[1..] == a[1..] + b;
      WithoutNewlinesAppend(a[1..], b);
    }
  }

  lemma {:induction false} WithoutNewlinesNone(b: Bytes)
    requires forall i :: 0 <= i < |b| ==> b[i] != NEWLINE
    ensures WithoutNewlines(b) == b
  {
    if b != [] {
      WithoutNewlinesNone(b[1..]);
    }
  }

  lemma WithoutNewlinesFirst(b: Bytes)
    requires b != []
    ensures WithoutNewlines(b) == Concat(FirstLine(b)) + WithoutNewlines(AfterLine(b))
  {
    var k := NextNewline(b, 0);
    NextNewlineFinds(b, 0);
    WithoutNewlinesNone(b[..k]);
    assert Concat(FirstLine(b)) == b[..k];
    if k < |b| {
      assert b == b[..k] + b[k..];
      WithoutNewlinesAppend(b[..k], b[k..]);
      assert b[k..][1..] == b[k + 1..];
    } else {
      assert b == b[..k];
    }
  }

  /** The messages of a chunk are its bytes without the newlines. */
  lemma {:induction false} LinesConserve(b: Bytes)
    ensures Concat(Lines(b)) == WithoutNewlines(b)
    decreases |b|
  {
    if b != [] {
      ConcatAppend(FirstLine(b), Lines(AfterLine(b)));
      WithoutNewlinesFirst(b);
      LinesConserve(AfterLine(b));
    }
  }

  function LinesOfChunks(chunks: seq<Bytes>): seq<Bytes> {
    if chunks == [] then [] else Lines(chunks[0]) + LinesOfChunks(chunks[1..])
  }

  /** Whatever the chunking, what is emitted is the content without its newlines. */
  lemma {:induction false} LinesOfChunksConserve(chunks: seq<Bytes>)
    ensures Concat(LinesOfChunks(chunks)) == WithoutNewlines(Concat(chunks))
  {
    if chunks != [] {
      LinesConserve(chunks[0]);
      LinesOfChunksConserve(chunks[1..]);
      ConcatAppend(Lines(chunks[0]), LinesOfChunks(chunks[1..]));
      WithoutNewlinesAppend(chunks[0], Concat(chunks[1..]));
    }
  }

  /** The boundary between a and b falls inside a line. */
  predicate BreaksLine(a: Bytes, b: Bytes) {
    a != [] && b != [] && a[|a| - 1] != NEWLINE && b[0] != NEWLINE
  }

  lemma NextNewlineAppend(a: Bytes, b: Bytes)
    ensures NextNewline(a + b, 0) ==
            if NextNewline(a, 0) < |a| then NextNewline(a, 0) else |a| + NextNewline(b, 0)
  {
    NextNewlineFinds(a, 0);
    NextNewlineFinds(b, 0);
    NextNewlineUnique(a + b, 0, if NextNewline(a, 0) < |a| then NextNewline(a, 0) else |a| + NextNewline(b, 0));
  }

  lemma CutInFirst(a: Bytes, b: Bytes, k: nat)
    requires k < |a|
    ensures (a + b)[..k] == a[..k] && (a + b)[k + 1..] == a[k + 1..] + b
  {
  }

  /** Appending after a chunk with a newline does not disturb its first line. */
  lemma FirstLineAppend(a: Bytes, b: Bytes)
    requires NextNewline(a, 0) < |a|
    ensures FirstLine(a + b) == FirstLine(a)
  {
    NextNewlineAppend(a, b);
    CutInFirst(a, b, NextNewline(a, 0));
  }

  lemma AfterLineAppend(a: Bytes, b: Bytes)
    requires NextNewline(a, 0) < |a|
    ensures AfterLine(a + b) == AfterLine(a) + b
  {
    NextNewlineAppend(a, b);
    CutInFirst(a, b, NextNewline(a, 0));
  }

  lemma BreaksLineAfter(a: Bytes, b: Bytes)
    requires NextNewline(a, 0) < |a|
    ensures BreaksLine(AfterLine(a), b) == BreaksLine(a, b)
  {
    NewlineFound(a);
    hide NextNewline;
  }

  lemma WholeLine(a: Bytes)
    requires a != [] && NextNewline(a, 0) == |a|
    ensures Lines(a) == [a] && a[|a| - 1] != NEWLINE
  {
    NextNewlineFinds(a, 0);
    assert a[..|a|] == a;
  }

  lemma CutInSecond(a: Bytes, b: Bytes, l: nat)
    requires l <= |b|
    ensures (a + b)[..|a| + l] == a + b[..l]
    ensures l < |b| ==> (a + b)[|a| + l + 1..] == b[l + 1..]
  {
  }

  lemma LastLine(a: Bytes, b: Bytes)
    requires a != [] && b != [] && NextNewline(a, 0) == |a|
    ensures FirstLine(a + b) == if FirstLine(b) == [] then [a] else [a + FirstLine(b)[0]]
  {
    hide NextNewline;
    NextNewlineAppend(a, b);
    var l := NextNewline(b, 0);
    CutInSecond(a, b, l);
    AppendNothing(a, b);
    assert FirstLine(a + b) == [(a + b)[..|a| + l]];
    assert FirstLine(b) == if l == 0 then [] else [b[..l]];
    hide FirstLine;
  }

  lemma AfterLastLine(a: Bytes, b: Bytes)
    requires a != [] && b != [] && NextNewline(a, 0) == |a|
    ensures AfterLine(a + b) == AfterLine(b)
  {
    hide NextNewline;
    NextNewlineAppend(a, b);
    CutInSecond(a, b, NextNewline(b, 0));
  }

  lemma TwoChunksStep(a: Bytes, b: Bytes)
    requires a != [] && NextNewline(a, 0) < |a|
    ensures Lines(a) + Lines(b) == FirstLine(a) + (Lines(AfterLine(a)) + Lines(b))
    ensures Lines(a + b) == FirstLine(a) + Lines(AfterLine(a) + b)
    ensures BreaksLine(AfterLine(a), b) == BreaksLine(a, b)
  {
    hide NextNewline, FirstLine, AfterLine, BreaksLine;
    FirstLineAppend(a, b);
    AfterLineAppend(a, b);
    BreaksLineAfter(a, b);
    AppendAssociates(FirstLine(a), Lines(AfterLine(a)), Lines(b));
  }

  /** Reading a and b separately yields one message more if the boundary breaks a line,
      and the very same messages if it does not. */
  lemma {:induction false} TwoChunksOfLines(a: Bytes, b: Bytes)
    ensures |Lines(a) + Lines(b)| == |Lines(a + b)| + (if BreaksLine(a, b) then 1 else 0)
    ensures !BreaksLine(a, b) ==> Lines(a) + Lines(b) == Lines(a + b)
    decreases |a|
  {
    if a == [] {
      assert a + b == b;
    } else if b == [] {
      assert a + b == a;
    } else if NextNewline(a, 0) < |a| {
      TwoChunksOfLines(AfterLine(a), b);
      TwoChunksStep(a, b);
    } else {
      WholeLine(a);
      NewlineFound(b);
      LastLine(a, b);
      AfterLastLine(a, b);
    }
  }

  /** How many of the boundaries between consecutive chunks fall inside a line. */
  function Broken(chunks: seq<Bytes>): nat {
    if |chunks| < 2 then 0
    else (if BreaksLine(chunks[0], chunks[1]) then 1 else 0) + Broken(chunks[1..])
  }

  /** Exactly when chunking is invisible: the messages of the chunks are the lines of the
      whole content if and only if no boundary falls inside a line. */
  lemma {:induction false} LineChunkingHarmlessIff(chunks: seq<Bytes>)
    requires forall i :: 0 <= i < |chunks| ==> chunks[i] != []
    ensures |LinesOfChunks(chunks)| == |Lines(Concat(chunks))| + Broken(chunks)
    ensures LinesOfChunks(chunks) == Lines(Concat(chunks)) <==> Broken(chunks) == 0
  {
    if chunks != [] {
      var rest := chunks[1..];
      LineChunkingHarmlessIff(rest);
      TwoChunksOfLines(chunks[0], Concat(rest));
      if rest != [] {
        assert Concat(rest) == rest[0] + Concat(rest[1..]);
        assert Concat(rest)[0] == chunks[1][0];
      }
    }
  }

  lemma LinesOfTwo(chunks: seq<Bytes>)
    requires |chunks| == 2
    ensures LinesOfChunks(chunks) == Lines(chunks[0]) + Lines(chunks[1])
  {
    hide Lines;
    assert chunks[1..][1..] == [];
    assert LinesOfChunks(chunks[1..]) == Lines(chunks[1]) + [];
  }

  lemma NoNewline(b: Bytes)
    requires b != [] && forall i :: 0 <= i < |b| ==> b[i] != NEWLINE
    ensures Lines(b) == [b]
  {
    NextNewlineUnique(b, 0, |b|);
    WholeLine(b);
  }

  /** A read that ends inside a line makes two messages of it. */
  lemma BrokenLine()
    ensures LinesOfChunks([[65], [66]]) == [[65], [66]] && Lines(Concat([[65], [66]])) == [[65, 66]]
  {
    hide Lines, LinesOfChunks, Concat;
    var chunks: seq<Bytes> := [[65], [66]];
    NoNewline([65]);
    NoNewline([66]);
    NoNewline([65, 66]);
    ConcatTwo(chunks);
    assert Concat(chunks) == [65, 66];
    LinesOfTwo(chunks);
    assert LinesOfChunks(chunks) == [[65], [66]];
  }
}
