/**
 How a tailed file is cut into messages at the matches of a start-of-message regular
 expression. The regular expression engine is the list of match positions it reports for
 the chunk at hand.
 */
module TailSplitter {
  import opened Common

  /** What any regular expression reports: match starts in order, from `lo` up to the end. */
  predicate Ordered(lo: nat, ms: seq<nat>, n: nat)
    decreases ms
  {
    lo <= n && (ms != [] ==> lo <= ms[0] <= n && Ordered(ms[0], ms[1..], n))
  }

  /** The same for an expression that never matches the empty string. */
  predicate StrictlyOrdered(lo: nat, ms: seq<nat>, n: nat)
    decreases ms
  {
    lo <= n && (ms != [] ==> lo <= ms[0] < n && StrictlyOrdered(ms[0] + 1, ms[1..], n))
  }

  lemma {:induction false} StrictlyOrderedIsOrdered(lo: nat, ms: seq<nat>, n: nat)
    requires exists hi :: lo <= hi && StrictlyOrdered(hi, ms, n)
    ensures Ordered(lo, ms, n)
    decreases ms
  {
    if ms != [] {
      assert ms[0] <= ms[0] + 1 && StrictlyOrdered(ms[0] + 1, ms[1..], n);
      StrictlyOrderedIsOrdered(ms[0], ms[1..], n);
    }
  }

  function Shift(ms: seq<nat>, d: nat): (r: seq<nat>)
    ensures |r| == |ms|
  {
    seq(|ms|, i requires 0 <= i < |ms| => ms[i] + d)
  }

  lemma {:induction false} ShiftOrdered(lo: nat, ms: seq<nat>, n: nat, d: nat)
    requires Ordered(lo, ms, n)
    ensures Ordered(lo + d, Shift(ms, d), n + d)
    decreases ms
  {
    if ms != [] {
      ShiftOrdered(ms[0], ms[1..], n, d);
      assert Shift(ms, d)[1..] == Shift(ms[1..], d);
    }
  }

  /** Where the pending bytes followed by the chunk are cut: at every match, except that
      a match on the very first byte separates nothing. */
  function Cuts(pending: Bytes, ms: seq<nat>): seq<nat> {
    var cs := Shift(ms, |pending|);
    if cs != [] && cs[0] == 0 then cs[1..] else cs
  }

  lemma CutsOrdered(pending: Bytes, chunk: Bytes, ms: seq<nat>)
    requires Ordered(0, ms, |chunk|)
    ensures Ordered(0, Cuts(pending, ms), |pending + chunk|)
  {
    ShiftOrdered(0, ms, |chunk|, |pending|);
  }

  function LastCut(from: nat, cs: seq<nat>): nat {
    if cs == [] then from else cs[|cs| - 1]
  }

  /** The pieces of `s` that end at each cut, the first one starting at `from`. */
  function Pieces(s: Bytes, from: nat, cs: seq<nat>): (r: seq<Bytes>)
    requires Ordered(from, cs, |s|)
    ensures |r| == |cs|
    decreases cs
  {
    if cs == [] then [] else [s[from..cs[0]]] + Pieces(s, cs[0], cs[1..])
  }

  lemma LastCutTail(from: nat, cs: seq<nat>)
    requires cs != []
    ensures LastCut(from, cs) == LastCut(cs[0], cs[1..])
  {
  }

  lemma {:induction false} LastCutInRange(from: nat, cs: seq<nat>, n: nat)
    requires Ordered(from, cs, n)
    ensures from <= LastCut(from, cs) <= n
    decreases cs
  {
    if cs != [] {
      LastCutInRange(cs[0], cs[1..], n);
      assert LastCut(cs[0], cs[1..]) == LastCut(from, cs);
    }
  }

  /** The pieces up to the last cut, and what follows it. */
  function SplitAt(s: Bytes, cs: seq<nat>): (seq<Bytes>, Bytes)
    requires Ordered(0, cs, |s|)
  {
    LastCutInRange(0, cs, |s|);
    (Pieces(s, 0, cs), s[LastCut(0, cs)..])
  }

  /** The messages one chunk completes, and the bytes it leaves pending. */
  function RegexSplit(pending: Bytes, chunk: Bytes, ms: seq<nat>): (r: (seq<Bytes>, Bytes))
    requires Ordered(0, ms, |chunk|)
  {
    CutsOrdered(pending, chunk, ms);
    SplitAt(pending + chunk, Cuts(pending, ms))
  }

  lemma {:induction false} PiecesConcat(s: Bytes, from: nat, cs: seq<nat>)
    requires Ordered(from, cs, |s|)
    ensures from <= LastCut(from, cs) <= |s|
    ensures Concat(Pieces(s, from, cs)) == s[from..LastCut(from, cs)]
    decreases cs
  {
    if cs != [] {
      PiecesConcat(s, cs[0], cs[1..]);
      assert LastCut(cs[0], cs[1..]) == LastCut(from, cs);
      assert s[from..LastCut(from, cs)] == s[from..cs[0]] + s[cs[0]..LastCut(from, cs)];
      assert Pieces(s, from, cs)[1..] == Pieces(s, cs[0], cs[1..]);
    }
  }

  /** No byte is lost, duplicated or reordered by splitting a chunk. */
  lemma RegexSplitConserves(pending: Bytes, chunk: Bytes, ms: seq<nat>)
    requires Ordered(0, ms, |chunk|)
    ensures Concat(RegexSplit(pending, chunk, ms).0) + RegexSplit(pending, chunk, ms).1 == pending + chunk
  {
    CutsOrdered(pending, chunk, ms);
    PiecesConcat(pending + chunk, 0, Cuts(pending, ms));
  }

  /** Splitting a chunk that has matches: the bytes before the first one complete the
      pending message, and every other message lies between two matches. */
  lemma RegexSplitMessages(pending: Bytes, chunk: Bytes, ms: seq<nat>)
    requires Ordered(0, ms, |chunk|) && ms != []
    ensures RegexSplit(pending, chunk, ms).0 ==
            (if pending == [] && ms[0] == 0 then [] else [pending + chunk[..ms[0]]]) + Pieces(chunk, ms[0], ms[1..])
  {
    hide Shift;
    var s, d := pending + chunk, |pending|;
    PiecesShift(s, ms[0], ms[1..], d);
    assert s[d..] == chunk;
    ShiftTail(ms, d);
    CutsOrdered(pending, chunk, ms);
    if d + ms[0] > 0 {
      FirstPiece(pending, chunk, ms[0]);
      FirstOfPieces(s, Cuts(pending, ms));
    }
  }

  lemma FirstOfPieces(s: Bytes, cs: seq<nat>)
    requires Ordered(0, cs, |s|) && cs != []
    ensures Pieces(s, 0, cs) == [s[0..cs[0]]] + Pieces(s, cs[0], cs[1..])
  {
  }

  lemma RegexSplitPending(pending: Bytes, chunk: Bytes, ms: seq<nat>)
    requires Ordered(0, ms, |chunk|) && ms != []
    ensures LastCut(0, ms) <= |chunk|
    ensures RegexSplit(pending, chunk, ms).1 == chunk[LastCut(0, ms)..]
  {
    CutsOrdered(pending, chunk, ms);
    LastCutInRange(0, ms, |chunk|);
    LastOfCuts(pending, ms);
    DropTwice(pending + chunk, |pending|, LastCut(0, ms));
  }

  lemma ShiftTail(ms: seq<nat>, d: nat)
    requires ms != []
    ensures Shift(ms, d)[0] == ms[0] + d && Shift(ms, d)[1..] == Shift(ms[1..], d)
  {
  }

  lemma FirstPiece(pending: Bytes, chunk: Bytes, n: nat)
    requires n <= |chunk|
    ensures (pending + chunk)[0..n + |pending|] == pending + chunk[..n]
  {
  }

  lemma LastOfCuts(pending: Bytes, ms: seq<nat>)
    requires ms != []
    ensures LastCut(0, Cuts(pending, ms)) == |pending| + LastCut(0, ms)
  {
  }

  // Pieces of a longer string, of more cuts, and of a string with its head dropped.

  lemma {:induction false} PiecesPrefix(s: Bytes, t: Bytes, from: nat, cs: seq<nat>)
    requires Ordered(from, cs, |s|)
    ensures Ordered(from, cs, |s + t|) && Pieces(s + t, from, cs) == Pieces(s, from, cs)
    decreases cs
  {
    if cs != [] {
      PiecesPrefix(s, t, cs[0], cs[1..]);
      assert (s + t)[from..cs[0]] == s[from..cs[0]];
    }
  }

  lemma TailOfAppend<T>(a: seq<T>, b: seq<T>)
    requires a != []
    ensures (a + b)[0] == a[0] && (a + b)[1..] == a[1..] + b
  {
  }

  lemma {:induction false} PiecesAppend(s: Bytes, from: nat, cs: seq<nat>, ds: seq<nat>)
    requires Ordered(from, cs, |s|) && Ordered(LastCut(from, cs), ds, |s|)
    ensures Ordered(from, cs + ds, |s|)
    ensures Pieces(s, from, cs + ds) == Pieces(s, from, cs) + Pieces(s, LastCut(from, cs), ds)
    ensures LastCut(from, cs + ds) == LastCut(LastCut(from, cs), ds)
    decreases cs
  {
    if cs == [] {
      assert cs + ds == ds;
    } else {
      LastCutTail(from, cs);
      PiecesAppend(s, cs[0], cs[1..], ds);
      TailOfAppend(cs, ds);
      LastCutTail(from, cs + ds);
    }
  }

  lemma {:induction false} PiecesShift(s: Bytes, from: nat, cs: seq<nat>, d: nat)
    requires d <= |s| && Ordered(from, cs, |s| - d)
    ensures Ordered(from + d, Shift(cs, d), |s|)
    ensures Pieces(s, from + d, Shift(cs, d)) == Pieces(s[d..], from, cs)
    decreases cs
  {
    if cs != [] {
      PiecesShift(s, cs[0], cs[1..], d);
      assert Shift(cs, d)[1..] == Shift(cs[1..], d);
      assert s[from + d..cs[0] + d] == s[d..][from..cs[0]];
    }
  }

  /** Splitting chunk after chunk, carrying the pending bytes over. */
  function RegexRun(pending: Bytes, chunks: seq<Bytes>, mss: seq<seq<nat>>): (r: (seq<Bytes>, Bytes))
    requires |mss| == |chunks|
    requires forall i :: 0 <= i < |chunks| ==> Ordered(0, mss[i], |chunks[i]|)
    decreases |chunks|
  {
    if chunks == [] then ([], pending) else
      var (first, carried) := RegexSplit(pending, chunks[0], mss[0]);
      var (rest, left) := RegexRun(carried, chunks[1..], mss[1..]);
      (first + rest, left)
  }

  /** The per-chunk matches as positions in the concatenation of the chunks. */
  function Combined(chunks: seq<Bytes>, mss: seq<seq<nat>>): seq<nat>
    requires |mss| == |chunks|
    decreases |chunks|
  {
    if chunks == [] then [] else mss[0] + Shift(Combined(chunks[1..], mss[1..]), |chunks[0]|)
  }

  lemma {:induction false} StrictAppend(lo: nat, ma: seq<nat>, n: nat, mb: seq<nat>, m: nat)
    requires StrictlyOrdered(lo, ma, n) && StrictlyOrdered(0, mb, m)
    ensures StrictlyOrdered(lo, ma + Shift(mb, n), n + m)
    decreases |ma|
  {
    if ma == [] {
      assert ma + Shift(mb, n) == Shift(mb, n);
      StrictShift(lo, 0, mb, m, n);
    } else {
      StrictAppend(ma[0] + 1, ma[1..], n, mb, m);
      assert (ma + Shift(mb, n))[1..] == ma[1..] + Shift(mb, n);
    }
  }

  lemma {:induction false} StrictShift(lo: nat, hi: nat, ms: seq<nat>, n: nat, d: nat)
    requires StrictlyOrdered(hi, ms, n) && lo <= hi + d
    ensures StrictlyOrdered(lo, Shift(ms, d), n + d)
    decreases ms
  {
    if ms != [] {
      StrictShift(ms[0] + d + 1, ms[0] + 1, ms[1..], n, d);
      assert Shift(ms, d)[1..] == Shift(ms[1..], d);
    }
  }

  lemma {:induction false} LastStrict(lo: nat, ms: seq<nat>, n: nat)
    requires StrictlyOrdered(lo, ms, n) && ms != []
    ensures ms[|ms| - 1] < n
    decreases ms
  {
    if |ms| > 1 {
      LastStrict(ms[0] + 1, ms[1..], n);
    }
  }

  /** Cuts, when something is pending, are all the matches. */
  lemma CutsWhenPending(pending: Bytes, ms: seq<nat>)
    requires pending != []
    ensures Cuts(pending, ms) == Shift(ms, |pending|)
  {
  }

  lemma ShiftAppend(ms: seq<nat>, ns: seq<nat>, d: nat)
    ensures Shift(ms + ns, d) == Shift(ms, d) + Shift(ns, d)
  {
  }

  lemma ShiftTwice(ms: seq<nat>, d: nat, e: nat)
    ensures Shift(Shift(ms, d), e) == Shift(ms, d + e)
  {
  }

  lemma CutsOfTwoFirst(pending: Bytes, n: nat, mb: seq<nat>, carried: Bytes)
    requires |carried| == |pending| + n
    ensures Cuts(pending, Shift(mb, n)) == Shift(Cuts(carried, mb), 0)
  {
    ShiftTwice(mb, n, |pending|);
    assert Shift(Cuts(carried, mb), 0) == Cuts(carried, mb);
  }

  lemma CutsOfTwoNext(pending: Bytes, n: nat, ma: seq<nat>, mb: seq<nat>)
    requires ma != []
    ensures Cuts(pending, ma + Shift(mb, n)) == Cuts(pending, ma) + Shift(mb, n + |pending|)
  {
    hide Shift;
    ShiftAppend(ma, Shift(mb, n), |pending|);
    ShiftTwice(mb, n, |pending|);
    TailOfAppend(Shift(ma, |pending|), Shift(mb, n + |pending|));
  }

  /** Where the cuts of two chunks in a row fall in their concatenation. */
  lemma CutsOfTwo(pending: Bytes, n: nat, ma: seq<nat>, mb: seq<nat>, carried: Bytes)
    requires StrictlyOrdered(0, ma, n)
    requires |carried| == |pending| + n - LastCut(0, Cuts(pending, ma))
    ensures Cuts(pending, ma + Shift(mb, n)) ==
            Cuts(pending, ma) + Shift(Cuts(carried, mb), LastCut(0, Cuts(pending, ma)))
  {
    if ma == [] {
      CutsOfTwoFirst(pending, n, mb, carried);
      assert ma + Shift(mb, n) == Shift(mb, n);
    } else {
      LastStrict(0, ma, n);
      CutsOfTwoNext(pending, n, ma, mb);
      CutsWhenPending(carried, mb);
      ShiftTwice(mb, |carried|, LastCut(0, Cuts(pending, ma)));
    }
  }

  /** Splitting at `ca` and then splitting what follows, once extended, at `cb`. */
  lemma SplitTwice(s: Bytes, t: Bytes, ca: seq<nat>, cb: seq<nat>, carried: Bytes)
    requires Ordered(0, ca, |s|) && carried == SplitAt(s, ca).1
    requires Ordered(0, cb, |carried + t|)
    ensures var cs := ca + Shift(cb, LastCut(0, ca));
            && Ordered(0, cs, |s + t|)
            && SplitAt(s + t, cs).0 == SplitAt(s, ca).0 + SplitAt(carried + t, cb).0
            && SplitAt(s + t, cs).1 == SplitAt(carried + t, cb).1
  {
    var at, u := LastCut(0, ca), s + t;
    LastCutInRange(0, ca, |s|);
    LastCutInRange(0, cb, |carried + t|);
    assert u[at..] == carried + t;
    PiecesPrefix(s, t, 0, ca);
    PiecesShift(u, 0, cb, at);
    PiecesAppend(u, 0, ca, Shift(cb, at));
    assert LastCut(0, ca + Shift(cb, at)) == at + LastCut(0, cb);
    DropTwice(u, at, LastCut(0, cb));
  }

  lemma SplitOfConcatenation(pending: Bytes, a: Bytes, b: Bytes, ma: seq<nat>, mb: seq<nat>, ms: seq<nat>)
    requires Ordered(0, ma, |a|) && Ordered(0, mb, |b|) && Ordered(0, ms, |a + b|)
    requires StrictlyOrdered(0, ma, |a|) && ms == ma + Shift(mb, |a|)
    ensures var (first, carried) := RegexSplit(pending, a, ma);
            var (rest, left) := RegexSplit(carried, b, mb);
            RegexSplit(pending, a + b, ms) == (first + rest, left)
  {
    var ca := Cuts(pending, ma);
    CutsOrdered(pending, a, ma);
    LastCutInRange(0, ca, |pending + a|);
    var carried := RegexSplit(pending, a, ma).1;
    CutsOrdered(carried, b, mb);
    CutsOfTwo(pending, |a|, ma, mb, carried);
    SplitTwice(pending + a, b, ca, Cuts(carried, mb), carried);
    AppendAssociates(pending, a, b);
  }

  /** Two chunks in a row are split like their concatenation. */
  lemma TwoChunks(pending: Bytes, a: Bytes, b: Bytes, ma: seq<nat>, mb: seq<nat>)
    requires StrictlyOrdered(0, ma, |a|) && StrictlyOrdered(0, mb, |b|)
    ensures Ordered(0, ma, |a|) && Ordered(0, mb, |b|)
    ensures StrictlyOrdered(0, ma + Shift(mb, |a|), |a + b|) && Ordered(0, ma + Shift(mb, |a|), |a + b|)
    ensures var (first, carried) := RegexSplit(pending, a, ma);
            var (rest, left) := RegexSplit(carried, b, mb);
            RegexSplit(pending, a + b, ma + Shift(mb, |a|)) == (first + rest, left)
  {
    StrictAppend(0, ma, |a|, mb, |b|);
    StrictlyOrderedIsOrdered(0, ma, |a|);
    StrictlyOrderedIsOrdered(0, mb, |b|);
    StrictlyOrderedIsOrdered(0, ma + Shift(mb, |a|), |a + b|);
    SplitOfConcatenation(pending, a, b, ma, mb, ma + Shift(mb, |a|));
  }

  predicate AllStrict(chunks: seq<Bytes>, mss: seq<seq<nat>>)
    requires |mss| == |chunks|
  {
    forall i :: 0 <= i < |chunks| ==> Ordered(0, mss[i], |chunks[i]|) && StrictlyOrdered(0, mss[i], |chunks[i]|)
  }

  /** Chunk invariance: however the bytes are divided into reads, the messages and the
      pending bytes are those of one split of the whole at the combined matches. */
  lemma {:induction false} ChunkInvariance(pending: Bytes, chunks: seq<Bytes>, mss: seq<seq<nat>>)
    requires |mss| == |chunks| && AllStrict(chunks, mss)
    ensures StrictlyOrdered(0, Combined(chunks, mss), |Concat(chunks)|)
    ensures Ordered(0, Combined(chunks, mss), |Concat(chunks)|)
    ensures RegexRun(pending, chunks, mss) == RegexSplit(pending, Concat(chunks), Combined(chunks, mss))
    decreases |chunks|
  {
    if chunks == [] {
      assert pending + Concat(chunks) == pending;
    } else {
      var carried := RegexSplit(pending, chunks[0], mss[0]).1;
      ChunkInvariance(carried, chunks[1..], mss[1..]);
      TwoChunks(pending, chunks[0], Concat(chunks[1..]), mss[0], Combined(chunks[1..], mss[1..]));
    }
  }

  lemma {:induction false} PiecesInjective(s: Bytes, from: nat, cs: seq<nat>, ds: seq<nat>)
    requires Ordered(from, cs, |s|) && Ordered(from, ds, |s|)
    requires Pieces(s, from, cs) == Pieces(s, from, ds)
    ensures cs == ds
    decreases cs
  {
    assert |cs| == |Pieces(s, from, cs)| == |ds|;
    if cs != [] {
      assert Pieces(s, from, cs)[0] == s[from..cs[0]];
      assert Pieces(s, from, ds)[0] == s[from..ds[0]];
      assert |s[from..cs[0]]| == |s[from..ds[0]]|;
      assert Pieces(s, from, cs)[1..] == Pieces(s, cs[0], cs[1..]);
      assert Pieces(s, from, ds)[1..] == Pieces(s, ds[0], ds[1..]);
      PiecesInjective(s, cs[0], cs[1..], ds[1..]);
      assert cs == [cs[0]] + cs[1..] && ds == [ds[0]] + ds[1..];
    }
  }

  /** Chunk by chunk and all at once give the same exactly when they cut at the same places. */
  lemma CutsDecide(pending: Bytes, chunks: seq<Bytes>, mss: seq<seq<nat>>, whole: seq<nat>)
    requires |mss| == |chunks| && AllStrict(chunks, mss)
    requires Ordered(0, whole, |Concat(chunks)|)
    ensures RegexRun(pending, chunks, mss) == RegexSplit(pending, Concat(chunks), whole)
       <==> Cuts(pending, whole) == Cuts(pending, Combined(chunks, mss))
  {
    ChunkInvariance(pending, chunks, mss);
    var all, combined := Concat(chunks), Combined(chunks, mss);
    CutsOrdered(pending, all, whole);
    CutsOrdered(pending, all, combined);
    if RegexRun(pending, chunks, mss) == RegexSplit(pending, all, whole) {
      PiecesInjective(pending + all, 0, Cuts(pending, whole), Cuts(pending, combined));
    }
  }

  /** An engine whose expression never matches the empty string. */
  ghost predicate StrictEngine(engine: Bytes -> seq<nat>) {
    forall b: Bytes :: StrictlyOrdered(0, engine(b), |b|) && Ordered(0, engine(b), |b|)
  }

  /** What the engine reports for each chunk by itself. */
  function Matches(engine: Bytes -> seq<nat>, chunks: seq<Bytes>): (r: seq<seq<nat>>)
    ensures |r| == |chunks|
  {
    seq(|chunks|, i requires 0 <= i < |chunks| => engine(chunks[i]))
  }

  /** Exactly when a division into reads is harmless: for one and the same expression, reading
      chunk by chunk gives the result of one read of everything if and only if the whole is cut
      where the chunks were cut. A match straddling two reads is what breaks it. */
  lemma ChunkingHarmlessIff(engine: Bytes -> seq<nat>, pending: Bytes, chunks: seq<Bytes>)
    requires StrictEngine(engine)
    ensures AllStrict(chunks, Matches(engine, chunks))
    ensures RegexRun(pending, chunks, Matches(engine, chunks)) ==
            RegexSplit(pending, Concat(chunks), engine(Concat(chunks)))
       <==> Cuts(pending, engine(Concat(chunks))) == Cuts(pending, Combined(chunks, Matches(engine, chunks)))
  {
    assert AllStrict(chunks, Matches(engine, chunks));
    CutsDecide(pending, chunks, Matches(engine, chunks), engine(Concat(chunks)));
  }

  /** An expression that matches the first two bytes. */
  function FirstTwo(b: Bytes): seq<nat> {
    if |b| < 2 then [] else [0]
  }

  lemma NoMatch(pending: Bytes, chunk: Bytes)
    ensures RegexSplit(pending, chunk, []) == ([], pending + chunk)
  {
    assert Cuts(pending, []) == [];
  }

  lemma MatchAtStart(pending: Bytes, chunk: Bytes)
    requires pending != []
    ensures RegexSplit(pending, chunk, [0]) == ([pending], chunk)
  {
    var ms: seq<nat> := [0];
    assert ms[1..] == [] && LastCut(0, ms) == 0 && Ordered(0, ms, |chunk|);
    assert Pieces(chunk, 0, ms[1..]) == [];
    RegexSplitMessages(pending, chunk, ms);
    RegexSplitPending(pending, chunk, ms);
    hide RegexSplit, LastCut, Pieces;
    assert pending + chunk[..0] == pending;
    assert chunk[0..] == chunk;
    assert RegexSplit(pending, chunk, ms).0 == [pending] + [] == [pending];
  }

  lemma OneRead(pending: Bytes, chunks: seq<Bytes>, mss: seq<seq<nat>>)
    requires |chunks| == |mss| == 1 && mss[0] == []
    ensures RegexRun(pending, chunks, mss) == ([], pending + chunks[0])
  {
    hide RegexSplit;
    NoMatch(pending, chunks[0]);
    assert chunks[1..] == [] && mss[1..] == [];
    assert RegexRun(pending + chunks[0], chunks[1..], mss[1..]) == ([], pending + chunks[0]);
    assert RegexRun(pending, chunks, mss).0 == [];
  }

  lemma TwoReads(pending: Bytes, chunks: seq<Bytes>, mss: seq<seq<nat>>)
    requires |chunks| == |mss| == 2 && mss[0] == [] && mss[1] == []
    ensures RegexRun(pending, chunks, mss) == ([], (pending + chunks[0]) + chunks[1])
  {
    hide RegexSplit;
    NoMatch(pending, chunks[0]);
    OneRead(pending + chunks[0], chunks[1..], mss[1..]);
  }

  /** A read that ends between the two bytes hides the start of a message: the message that was
      pending is not completed. */
  lemma StraddlingMatchIsMissed(pending: Bytes, chunks: seq<Bytes>)
    requires pending != [] && |chunks| == 2 && |chunks[0]| == |chunks[1]| == 1
    ensures StrictEngine(FirstTwo) && AllStrict(chunks, Matches(FirstTwo, chunks))
    ensures RegexRun(pending, chunks, Matches(FirstTwo, chunks)) == ([], (pending + chunks[0]) + chunks[1])
    ensures RegexSplit(pending, Concat(chunks), FirstTwo(Concat(chunks))) == ([pending], chunks[0] + chunks[1])
  {
    hide RegexRun, RegexSplit;
    ConcatTwo(chunks);
    TwoReads(pending, chunks, Matches(FirstTwo, chunks));
    MatchAtStart(pending, chunks[0] + chunks[1]);
  }
}
