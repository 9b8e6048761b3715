/** Conservation through the pipeline: importer and exporter threads in any interleaving. */
module PipelineRuns {
  import opened Common
  import MessageQueues

  /** How far a bulk has got with one queue: it is still to be converted and offered, its
      converted records wait for room or were admitted and are still to be enqueued, or the
      queue is done with. */
  datatype Offer<R> =
    | Before
    | Waiting(good: seq<R>)
    | Admitted(good: seq<R>)
    | After

  /** One call of an importer thread, from the dequeued bulk on. */
  datatype Importer<R> = Importer(bulk: seq<R>, offer: Offer<R>)

  /** One turn of an exporter thread: its bulk goes to one output after the other. */
  datatype Exporter<R> = Exporter(bulk: seq<R>, next: nat, offer: Offer<R>)

  /** The queue of an output, and the history: what was put in it and sent from it, what the
      output failed to convert, and what the full queue refused. */
  datatype Output<R> = Output(
    queue: multiset<R>,
    put: multiset<R>,
    sent: multiset<R>,
    failed: multiset<R>,
    refused: multiset<R>)

  datatype Limits = Limits(max: nat, strategy: MessageQueues.Strategy)

  /** What a conversion makes of a record: it succeeds, it throws what the loops handle, or it
      throws what they do not, which ends the process. */
  datatype Fate = Converts | Fails | Escapes

  /** The limits of the queues, and the fates of the records at the inputs and at every output. */
  datatype Config<!R> = Config(
    main: Limits,
    outputs: seq<Limits>,
    imports: R -> Fate,
    exports: nat -> R -> Fate)

  /** Records stand for the messages made of them. The last components keep the history. Calls
      and turns that are over stay in their lists, so any number of threads is covered. */
  datatype Pipe<R> = Pipe(
    inputs: seq<multiset<R>>,
    importers: seq<Importer<R>>,
    main: multiset<R>,
    exporters: seq<Exporter<R>>,
    outputs: seq<Output<R>>,
    put: multiset<R>,       // everything ever put in an input queue
    failed: multiset<R>,    // conversion failures at the inputs
    refused: multiset<R>,   // converted, but refused by the full main queue
    mainPut: multiset<R>,   // everything ever put in the main queue
    taken: multiset<R>,     // everything ever taken from it
    over: bool)             // an exception has ended the process

  datatype Action<R> =
    | Put(input: nat, record: R)
    | Fetch(input: nat, bulk: seq<R>)          // a call of an importer starts
    | OfferMain(importer: nat)                 // conversion, and the first look at the size
    | PollMain(importer: nat)                  // a waiting importer looks again
    | EnqueueMain(importer: nat)
    | Take(bulk: seq<R>)                       // a turn of an exporter starts
    | OfferOutput(exporter: nat)               // the same three steps with the next output
    | PollOutput(exporter: nat)
    | EnqueueOutput(exporter: nat)
    | Send(output: nat, records: multiset<R>)  // the output's own threads dequeue

  function Kept<R>(fate: R -> Fate, bulk: seq<R>): seq<R> {
    if bulk == [] then []
    else if fate(bulk[|bulk| - 1]).Converts? then Kept(fate, bulk[..|bulk| - 1]) + [bulk[|bulk| - 1]]
    else Kept(fate, bulk[..|bulk| - 1])
  }

  function Dropped<R>(fate: R -> Fate, bulk: seq<R>): seq<R> {
    if bulk == [] then []
    else if fate(bulk[|bulk| - 1]).Converts? then Dropped(fate, bulk[..|bulk| - 1])
    else Dropped(fate, bulk[..|bulk| - 1]) + [bulk[|bulk| - 1]]
  }

  /** Some record of the bulk ends the process. */
  predicate Fatal<R>(fate: R -> Fate, bulk: seq<R>) {
    exists i :: 0 <= i < |bulk| && fate(bulk[i]).Escapes?
  }

  function Next<R>(e: Exporter<R>): Exporter<R> {
    Exporter(e.bulk, e.next + 1, Before)
  }

  predicate Enabled<R>(c: Config<R>, s: Pipe<R>, a: Action<R>) {
    !s.over && match a
    case Put(i, _) => i < |s.inputs|
    case Fetch(i, bulk) =>
      i < |s.inputs| && multiset(bulk) <= s.inputs[i] && |bulk| <= MessageQueues.MAX_QUEUE_BULK_SIZE
    case OfferMain(t) => t < |s.importers| && s.importers[t].offer.Before?
    case PollMain(t) => t < |s.importers| && s.importers[t].offer.Waiting?
    case EnqueueMain(t) => t < |s.importers| && s.importers[t].offer.Admitted?
    case Take(bulk) => multiset(bulk) <= s.main && |bulk| <= MessageQueues.MAX_QUEUE_BULK_SIZE
    case OfferOutput(e) => AtOutput(c, s, e) && s.exporters[e].offer.Before?
    case PollOutput(e) => AtOutput(c, s, e) && s.exporters[e].offer.Waiting?
    case EnqueueOutput(e) => AtOutput(c, s, e) && s.exporters[e].offer.Admitted?
    case Send(o, records) => o < |s.outputs| && records <= s.outputs[o].queue
  }

  predicate AtOutput<R>(c: Config<R>, s: Pipe<R>, e: nat) {
    e < |s.exporters| && s.exporters[e].next < |s.outputs| == |c.outputs|
  }

  /** What becomes of the converted records when they are offered to a queue. */
  function Offered<R>(limits: Limits, length: nat, good: seq<R>): Offer<R> {
    if good == [] then After
    else if length < limits.max then Admitted(good)
    else if limits.strategy == MessageQueues.Throttle then Waiting(good)
    else After
  }

  /** The queue is full and does not wait. */
  function RefusedOf<R>(limits: Limits, length: nat, good: seq<R>): multiset<R> {
    if length < limits.max || limits.strategy == MessageQueues.Throttle then multiset{} else multiset(good)
  }

  function DoOfferMain<R>(c: Config<R>, s: Pipe<R>, t: nat): Pipe<R>
    requires Enabled(c, s, OfferMain(t))
  {
    if Fatal(c.imports, s.importers[t].bulk) then s.(over := true) else OfferedMain(c, s, t)
  }

  function OfferedMain<R>(c: Config<R>, s: Pipe<R>, t: nat): Pipe<R>
    requires Enabled(c, s, OfferMain(t))
  {
    var bulk := s.importers[t].bulk;
    var good, bad := Kept(c.imports, bulk), Dropped(c.imports, bulk);
    s.(importers := s.importers[t := Importer(bulk, Offered(c.main, |s.main|, good))],
    failed := s.failed + multiset(bad),
    refused := s.refused + RefusedOf(c.main, |s.main|, good))
  }

  function DoEnqueueMain<R>(c: Config<R>, s: Pipe<R>, t: nat): Pipe<R>
    requires Enabled(c, s, EnqueueMain(t))
  {
    var Importer(bulk, offer) := s.importers[t];
    s.(importers := s.importers[t := Importer(bulk, After)],
    main := s.main + multiset(offer.good),
    mainPut := s.mainPut + multiset(offer.good))
  }

  function DoOfferOutput<R>(c: Config<R>, s: Pipe<R>, e: nat): Pipe<R>
    requires Enabled(c, s, OfferOutput(e))
  {
    var job := s.exporters[e];
    if Fatal(c.exports(job.next), job.bulk) then s.(over := true) else OfferedOutput(c, s, e)
  }

  function OfferedOutput<R>(c: Config<R>, s: Pipe<R>, e: nat): Pipe<R>
    requires Enabled(c, s, OfferOutput(e))
  {
    var job := s.exporters[e];
    var o, out := job.next, s.outputs[job.next];
    var good, bad := Kept(c.exports(o), job.bulk), Dropped(c.exports(o), job.bulk);
    var offer := Offered(c.outputs[o], |out.queue|, good);
    s.(exporters := s.exporters[e := if offer.After? then Next(job) else job.(offer := offer)],
    outputs := s.outputs[o := out.(failed := out.failed + multiset(bad),
                                   refused := out.refused + RefusedOf(c.outputs[o], |out.queue|, good))])
  }

  function DoEnqueueOutput<R>(c: Config<R>, s: Pipe<R>, e: nat): Pipe<R>
    requires Enabled(c, s, EnqueueOutput(e))
  {
    var job := s.exporters[e];
    var out, good := s.outputs[job.next], multiset(job.offer.good);
    s.(exporters := s.exporters[e := Next(job)],
    outputs := s.outputs[job.next := out.(queue := out.queue + good, put := out.put + good)])
  }

  /** A waiting offer is admitted once the queue has room. */
  function Polled<R>(limits: Limits, length: nat, offer: Offer<R>): Offer<R>
    requires offer.Waiting?
  {
    if length < limits.max then Admitted(offer.good) else offer
  }

  function Do<R>(c: Config<R>, s: Pipe<R>, a: Action<R>): Pipe<R>
    requires Enabled(c, s, a)
  {
    match a
    case Put(i, r) =>
      s.(inputs := s.inputs[i := s.inputs[i] + multiset{r}], put := s.put + multiset{r})
    case Fetch(i, bulk) =>
      s.(inputs := s.inputs[i := s.inputs[i] - multiset(bulk)], importers := s.importers + [Importer(bulk, Before)])
    case OfferMain(t) => DoOfferMain(c, s, t)
    case PollMain(t) =>
      var job := s.importers[t];
      s.(importers := s.importers[t := job.(offer := Polled(c.main, |s.main|, job.offer))])
    case EnqueueMain(t) => DoEnqueueMain(c, s, t)
    case Take(bulk) =>
      s.(main := s.main - multiset(bulk), taken := s.taken + multiset(bulk),
      exporters := s.exporters + [Exporter(bulk, 0, Before)])
    case OfferOutput(e) => DoOfferOutput(c, s, e)
    case PollOutput(e) =>
      var job := s.exporters[e];
      s.(exporters := s.exporters[e := job.(offer :=
        Polled(c.outputs[job.next], |s.outputs[job.next].queue|, job.offer))])
    case EnqueueOutput(e) => DoEnqueueOutput(c, s, e)
    case Send(o, records) =>
      var out := s.outputs[o];
      s.(outputs := s.outputs[o := out.(queue := out.queue - records, sent := out.sent + records)])
  }

  predicate Possible<R>(c: Config<R>, s: Pipe<R>, acts: seq<Action<R>>)
    decreases |acts|
  {
    acts != [] ==> Enabled(c, s, acts[0]) && Possible(c, Do(c, s, acts[0]), acts[1..])
  }

  function Run<R>(c: Config<R>, s: Pipe<R>, acts: seq<Action<R>>): Pipe<R>
    requires Possible(c, s, acts)
    decreases |acts|
  {
    if acts == [] then s else Run(c, Do(c, s, acts[0]), acts[1..])
  }

  function Start<R>(c: Config<R>, inputs: nat): Pipe<R> {
    Pipe(seq(inputs, _ => multiset{}), [], multiset{}, [],
         seq(|c.outputs|, _ => Output(multiset{}, multiset{}, multiset{}, multiset{}, multiset{})),
         multiset{}, multiset{}, multiset{}, multiset{}, multiset{}, false)
  }

  // ---- Accounts ----

  function Itself<R>(): multiset<R> -> multiset<R> {
    (b: multiset<R>) => b
  }

  /** What is still under way in an offer of the given bulk. */
  function UnderWay<R>(bulk: seq<R>, offer: Offer<R>): multiset<R> {
    match offer
    case Before => multiset(bulk)
    case Waiting(good) => multiset(good)
    case Admitted(good) => multiset(good)
    case After => multiset{}
  }

  function Held<R>(): Importer<R> -> multiset<R> {
    (t: Importer<R>) => UnderWay(t.bulk, t.offer)
  }

  function OwedTo<R>(e: Exporter<R>, o: nat): multiset<R> {
    if e.next < o then multiset(e.bulk) else if e.next == o then UnderWay(e.bulk, e.offer) else multiset{}
  }

  /** What an exporter has yet to hand to output `o`. */
  function Owed<R>(o: nat): Exporter<R> -> multiset<R> {
    (e: Exporter<R>) => OwedTo(e, o)
  }

  /** Where the records that left the input queues have ended up. */
  function Settled<R>(s: Pipe<R>): multiset<R> {
    s.failed + s.refused + s.mainPut
  }

  /** Every record put in an input queue is still there, with an importer, failed to convert,
      was refused, or was put in the main queue. */
  predicate InputsAccounted<R>(s: Pipe<R>) {
    s.put == SumOf(s.inputs, Itself()) + SumOf(s.importers, Held()) + Settled(s)
  }

  predicate MainAccounted<R>(s: Pipe<R>) {
    s.mainPut == s.main + s.taken
  }

  function Account<R>(out: Output<R>): multiset<R> {
    out.put + out.failed + out.refused
  }

  /** For every output: what was taken from the main queue is in the output's account, or is
      still owed to it by an exporter; and what was put in its queue is there or was sent. */
  predicate OutputAccounted<R>(s: Pipe<R>, o: nat)
    requires o < |s.outputs|
  {
    && s.taken == Account(s.outputs[o]) + SumOf(s.exporters, Owed(o))
    && s.outputs[o].put == s.outputs[o].queue + s.outputs[o].sent
  }

  /** All these records have this fate. */
  predicate All<R>(b: multiset<R>, fate: R -> Fate, f: Fate) {
    forall r :: r in b ==> fate(r) == f
  }

  predicate GoodOffer<R(==)>(offer: Offer<R>, fate: R -> Fate) {
    match offer
    case Waiting(good) => All(multiset(good), fate, Converts)
    case Admitted(good) => All(multiset(good), fate, Converts)
    case _ => true
  }

  /** Only records whose exception is handled have failed, and all others do convert: none whose
      exception escapes has got past its conversion. A queue that throttles refuses none. */
  predicate InputsSorted<R>(c: Config<R>, s: Pipe<R>) {
    && All(s.failed, c.imports, Fails) && All(s.refused, c.imports, Converts) && All(s.mainPut, c.imports, Converts)
    && (forall t :: 0 <= t < |s.importers| ==> GoodOffer(s.importers[t].offer, c.imports))
    && (c.main.strategy == MessageQueues.Throttle ==> s.refused == multiset{})
  }

  predicate OutputSorted<R>(c: Config<R>, s: Pipe<R>, o: nat)
    requires o < |s.outputs| == |c.outputs|
  {
    var out := s.outputs[o];
    && All(out.failed, c.exports(o), Fails)
    && All(out.refused, c.exports(o), Converts) && All(out.put, c.exports(o), Converts)
    && (c.outputs[o].strategy == MessageQueues.Throttle ==> out.refused == multiset{})
  }

  predicate ExporterSorted<R(==)>(c: Config<R>, e: Exporter<R>) {
    GoodOffer(e.offer, c.exports(e.next))
  }

  predicate OutputsSorted<R>(c: Config<R>, s: Pipe<R>) {
    && |s.outputs| == |c.outputs|
    && (forall o :: 0 <= o < |s.outputs| ==> OutputSorted(c, s, o))
    && (forall e :: 0 <= e < |s.exporters| ==> ExporterSorted(c, s.exporters[e]))
  }

  /** No batch overruns a buffer. */
  predicate SmallBulks<R>(s: Pipe<R>) {
    && (forall e :: 0 <= e < |s.exporters| ==> |s.exporters[e].bulk| <= MessageQueues.MAX_QUEUE_BULK_SIZE)
    && (forall t :: 0 <= t < |s.importers| ==> |s.importers[t].bulk| <= MessageQueues.MAX_QUEUE_BULK_SIZE)
  }

  /** The process has ended at a call that has a fatal bulk before it. */
  predicate EndedBy<R>(c: Config<R>, s: Pipe<R>) {
    || (exists t :: 0 <= t < |s.importers| && ImporterFatal(c, s.importers[t]))
    || (exists e :: 0 <= e < |s.exporters| && ExporterFatal(c, s.exporters[e]))
  }

  predicate ImporterFatal<R>(c: Config<R>, t: Importer<R>) {
    t.offer.Before? && Fatal(c.imports, t.bulk)
  }

  predicate ExporterFatal<R>(c: Config<R>, e: Exporter<R>) {
    e.offer.Before? && e.next < |c.outputs| && Fatal(c.exports(e.next), e.bulk)
  }

  predicate Accounted<R>(c: Config<R>, s: Pipe<R>) {
    && (s.over ==> EndedBy(c, s))
    && InputsAccounted(s) && InputsSorted(c, s)
    && MainAccounted(s)
    && OutputsSorted(c, s)
    && (forall o :: 0 <= o < |s.outputs| ==> OutputAccounted(s, o))
    && SmallBulks(s)
  }

  // ---- Bags ----

  lemma EmptyBag<R>(bulk: seq<R>)
    requires bulk == []
    ensures multiset(bulk) == multiset{}
  {
  }

  lemma {:induction false} KeptAndDropped<R>(fate: R -> Fate, bulk: seq<R>)
    ensures multiset(bulk) == multiset(Kept(fate, bulk)) + multiset(Dropped(fate, bulk))
    decreases |bulk|
  {
    if bulk != [] {
      var n := |bulk| - 1;
      KeptAndDropped(fate, bulk[..n]);
      assert bulk == bulk[..n] + [bulk[n]];
    }
  }

  lemma {:induction false} KeptConvert<R>(fate: R -> Fate, bulk: seq<R>)
    ensures All(multiset(Kept(fate, bulk)), fate, Converts)
    decreases |bulk|
  {
    if bulk != [] {
      KeptConvert(fate, bulk[..|bulk| - 1]);
    }
  }

  lemma {:induction false} DroppedFail<R>(fate: R -> Fate, bulk: seq<R>)
    requires !Fatal(fate, bulk)
    ensures All(multiset(Dropped(fate, bulk)), fate, Fails)
    decreases |bulk|
  {
    if bulk != [] {
      var n := |bulk| - 1;
      forall i | 0 <= i < n ensures !fate(bulk[..n][i]).Escapes? {
        assert !fate(bulk[i]).Escapes?;
      }
      assert !fate(bulk[n]).Escapes?;
      DroppedFail(fate, bulk[..n]);
    }
  }

  lemma SumOfMore<X, T>(xs: seq<X>, bag: X -> multiset<T>, x: X)
    ensures SumOf(xs + [x], bag) == SumOf(xs, bag) + bag(x)
  {
    assert (xs + [x])[..|xs|] == xs;
  }

  /** From x + b == y + (b + d) follows x == y + d. */
  lemma Moved<R>(x: multiset<R>, b: multiset<R>, y: multiset<R>, d: multiset<R>)
    requires x + b == y + (b + d)
    ensures x == y + d
  {
    assert y + (b + d) == (y + d) + b;
    assert x == (x + b) - b;
    assert y + d == ((y + d) + b) - b;
  }

  /** A total stays the same when one part of a sum goes to the rest. */
  lemma Balance<R>(sum: multiset<R>, sum': multiset<R>, part: multiset<R>, part': multiset<R>,
                   rest: multiset<R>, rest': multiset<R>)
    requires sum' + part == sum + part' && part + rest == part' + rest'
    ensures sum + rest == sum' + rest'
  {
    forall r ensures (sum + rest)[r] == (sum' + rest')[r] {
      assert (sum' + part)[r] == (sum + part')[r];
      assert (part + rest)[r] == (part' + rest')[r];
    }
  }

  lemma Commute<R>(a: multiset<R>, b: multiset<R>)
    ensures a + b == b + a
  {
  }

  // ---- What every step keeps: the inputs ----

  /** One importer moves on, and what it no longer holds is settled. */
  lemma ImporterMoves<R>(s: Pipe<R>, s': Pipe<R>, t: nat, job: Importer<R>)
    requires InputsAccounted(s) && t < |s.importers|
    requires s'.put == s.put && s'.inputs == s.inputs && s'.importers == s.importers[t := job]
    requires Held()(s.importers[t]) + Settled(s) == Held()(job) + Settled(s')
    ensures InputsAccounted(s')
  {
    hide SumOf, Settled;
    SumOfUpdate(s.importers, Held(), t, job);
    Balance(SumOf(s.importers, Held()), SumOf(s'.importers, Held()), Held()(s.importers[t]), Held()(job),
            Settled(s), Settled(s'));
    AssociateBags(SumOf(s.inputs, Itself()), SumOf(s.importers, Held()), Settled(s));
    AssociateBags(SumOf(s.inputs, Itself()), SumOf(s'.importers, Held()), Settled(s'));
  }

  lemma OfferSplits<R>(fate: R -> Fate, limits: Limits, length: nat, bulk: seq<R>)
    ensures var good := Kept(fate, bulk);
            multiset(bulk) ==
            UnderWay(bulk, Offered(limits, length, good)) + multiset(Dropped(fate, bulk)) +
                RefusedOf(limits, length, good)
  {
    KeptAndDropped(fate, bulk);
    hide Kept, Dropped;
  }

  lemma Settle<R>(held: multiset<R>, held': multiset<R>, bad: multiset<R>, lost: multiset<R>,
                  failed: multiset<R>, refused: multiset<R>, put: multiset<R>)
    requires held == held' + bad + lost
    ensures held + (failed + refused + put) == held' + ((failed + bad) + (refused + lost) + put)
  {
  }

  lemma InputStep<R>(c: Config<R>, s: Pipe<R>, a: Action<R>)
    requires Enabled(c, s, a) && InputsAccounted(s)
    ensures InputsAccounted(Do(c, s, a))
  {
    hide SumOf, Fatal, OfferedMain, DoEnqueueMain, OfferedOutput, DoEnqueueOutput;
    match a
    case Put(i, r) => PutStep(c, s, i, r);
    case Fetch(i, bulk) => FetchStep(c, s, i, bulk);
    case OfferMain(t) => OfferMainStep(c, s, t);
    case PollMain(t) => PollMainStep(c, s, t);
    case EnqueueMain(t) => EnqueueMainStep(c, s, t);
    case Take(bulk) =>
    case OfferOutput(e) => OutputsLeaveInputs(c, s, e);
    case PollOutput(e) =>
    case EnqueueOutput(e) => EnqueueLeavesInputs(c, s, e);
    case Send(o, records) =>
  }

  lemma PollMainStep<R>(c: Config<R>, s: Pipe<R>, t: nat)
    requires Enabled(c, s, PollMain(t)) && InputsAccounted(s)
    ensures InputsAccounted(Do(c, s, PollMain(t)))
  {
    hide SumOf;
    var s' := Do(c, s, PollMain(t));
    ImporterMoves(s, s', t, s'.importers[t]);
  }

  lemma EnqueueMainStep<R>(c: Config<R>, s: Pipe<R>, t: nat)
    requires Enabled(c, s, EnqueueMain(t)) && InputsAccounted(s)
    ensures InputsAccounted(DoEnqueueMain(c, s, t))
  {
    hide SumOf;
    var s' := DoEnqueueMain(c, s, t);
    ImporterMoves(s, s', t, s'.importers[t]);
  }

  lemma OfferMainStep<R>(c: Config<R>, s: Pipe<R>, t: nat)
    requires Enabled(c, s, OfferMain(t)) && InputsAccounted(s)
    ensures InputsAccounted(OfferedMain(c, s, t))
  {
    hide SumOf, Kept, Dropped, Offered, RefusedOf;
    var s', bulk := OfferedMain(c, s, t), s.importers[t].bulk;
    var good := Kept(c.imports, bulk);
    OfferSplits(c.imports, c.main, |s.main|, bulk);
    Settle(multiset(bulk), UnderWay(bulk, s'.importers[t].offer), multiset(Dropped(c.imports, bulk)),
           RefusedOf(c.main, |s.main|, good), s.failed, s.refused, s.mainPut);
    ImporterMoves(s, s', t, s'.importers[t]);
  }

  lemma PutStep<R>(c: Config<R>, s: Pipe<R>, i: nat, r: R)
    requires Enabled(c, s, Put(i, r)) && InputsAccounted(s)
    ensures InputsAccounted(Do(c, s, Put(i, r)))
  {
    hide SumOf;
    SumOfUpdate(s.inputs, Itself(), i, s.inputs[i] + multiset{r});
    Moved(SumOf(s.inputs[i := s.inputs[i] + multiset{r}], Itself()), s.inputs[i], SumOf(s.inputs, Itself()),
          multiset{r});
  }

  lemma FetchStep<R>(c: Config<R>, s: Pipe<R>, i: nat, bulk: seq<R>)
    requires Enabled(c, s, Fetch(i, bulk)) && InputsAccounted(s)
    ensures InputsAccounted(Do(c, s, Fetch(i, bulk)))
  {
    hide SumOf;
    var s' := Do(c, s, Fetch(i, bulk));
    var b := multiset(bulk);
    SumOfUpdate(s.inputs, Itself(), i, s.inputs[i] - b);
    SumOfMore(s.importers, Held(), Importer(bulk, Before));
    assert s.inputs[i] == (s.inputs[i] - b) + b;
    Moved(SumOf(s.inputs, Itself()), s.inputs[i] - b, SumOf(s'.inputs, Itself()), b);
  }

  lemma MainStep<R>(c: Config<R>, s: Pipe<R>, a: Action<R>)
    requires Enabled(c, s, a) && MainAccounted(s)
    ensures MainAccounted(Do(c, s, a))
  {
    hide Kept, Dropped, Fatal;
    if a.Take? {
      assert s.main == (s.main - multiset(a.bulk)) + multiset(a.bulk);
    }
  }

  /** Everything the main queue sees is sorted as before, with something added. */
  lemma SortedMore<R>(c: Config<R>, s: Pipe<R>, s': Pipe<R>, bad: multiset<R>, lost: multiset<R>, good: multiset<R>)
    requires InputsSorted(c, s) && All(bad, c.imports, Fails)
    requires All(lost, c.imports, Converts) && All(good, c.imports, Converts)
    requires (s'.failed, s'.refused, s'.mainPut) == (s.failed + bad, s.refused + lost, s.mainPut + good)
    requires forall t :: 0 <= t < |s'.importers| ==> GoodOffer(s'.importers[t].offer, c.imports)
    requires c.main.strategy == MessageQueues.Throttle ==> lost == multiset{}
    ensures InputsSorted(c, s')
  {
  }

  lemma OfferSorted<R>(fate: R -> Fate, limits: Limits, length: nat, bulk: seq<R>)
    requires !Fatal(fate, bulk)
    ensures var good := Kept(fate, bulk);
            && GoodOffer(Offered(limits, length, good), fate) && All(RefusedOf(limits, length, good), fate, Converts)
            && All(multiset(Dropped(fate, bulk)), fate, Fails)
            && (limits.strategy == MessageQueues.Throttle ==> RefusedOf(limits, length, good) == multiset{})
  {
    KeptConvert(fate, bulk);
    DroppedFail(fate, bulk);
    hide Kept, Dropped;
  }

  lemma OfferedMainSorted<R>(c: Config<R>, s: Pipe<R>, t: nat)
    requires Enabled(c, s, OfferMain(t)) && InputsSorted(c, s) && !Fatal(c.imports, s.importers[t].bulk)
    ensures InputsSorted(c, OfferedMain(c, s, t))
  {
    hide Kept, Dropped, All, Fatal, Offered, RefusedOf;
    var s', bulk := OfferedMain(c, s, t), s.importers[t].bulk;
    OfferSorted(c.imports, c.main, |s.main|, bulk);
    NothingAll(c.imports, Converts);
    assert s'.mainPut == s.mainPut + multiset{};
    SortedMore(c, s, s', multiset(Dropped(c.imports, bulk)), RefusedOf(c.main, |s.main|, Kept(c.imports, bulk)),
               multiset{});
  }

  lemma EnqueuedMainSorted<R>(c: Config<R>, s: Pipe<R>, t: nat)
    requires Enabled(c, s, EnqueueMain(t)) && InputsSorted(c, s)
    ensures InputsSorted(c, DoEnqueueMain(c, s, t))
  {
    hide All;
    var s', good := DoEnqueueMain(c, s, t), multiset(s.importers[t].offer.good);
    NothingAll(c.imports, Converts);
    NothingAll(c.imports, Fails);
    assert GoodOffer(s.importers[t].offer, c.imports);
    assert s'.failed == s.failed + multiset{} && s'.refused == s.refused + multiset{};
    SortedMore(c, s, s', multiset{}, multiset{}, good);
  }

  lemma InputSortedStep<R>(c: Config<R>, s: Pipe<R>, a: Action<R>)
    requires Enabled(c, s, a) && InputsSorted(c, s)
    ensures InputsSorted(c, Do(c, s, a))
  {
    hide All, OfferedMain, DoEnqueueMain, OfferedOutput, DoEnqueueOutput, Fatal;
    if a.OfferMain? {
      if !Fatal(c.imports, s.importers[a.importer].bulk) {
        OfferedMainSorted(c, s, a.importer);
      }
    } else if a.EnqueueMain? {
      EnqueuedMainSorted(c, s, a.importer);
    } else if a.OfferOutput? {
      OutputsLeaveInputs(c, s, a.exporter);
    } else if a.EnqueueOutput? {
      EnqueueLeavesInputs(c, s, a.exporter);
    }
  }

  /** What the import side and the main queue consist of. */
  predicate SameInputs<R(==)>(s: Pipe<R>, s': Pipe<R>) {
    (s'.inputs, s'.importers, s'.main, s'.put, s'.failed, s'.refused, s'.mainPut, s'.taken) ==
    (s.inputs, s.importers, s.main, s.put, s.failed, s.refused, s.mainPut, s.taken)
  }

  lemma OutputsLeaveInputs<R>(c: Config<R>, s: Pipe<R>, e: nat)
    requires Enabled(c, s, OfferOutput(e))
    ensures SameInputs(s, OfferedOutput(c, s, e)) && |OfferedOutput(c, s, e).outputs| == |s.outputs|
  {
    hide Kept, Dropped;
  }

  lemma EnqueueLeavesInputs<R>(c: Config<R>, s: Pipe<R>, e: nat)
    requires Enabled(c, s, EnqueueOutput(e))
    ensures SameInputs(s, DoEnqueueOutput(c, s, e)) && |DoEnqueueOutput(c, s, e).outputs| == |s.outputs|
  {
  }

  lemma NothingAll<R>(fate: R -> Fate, f: Fate)
    ensures All(multiset{}, fate, f)
  {
  }

  // ---- What every step keeps: the outputs ----

  /** One exporter moves on, and what it no longer owes to an output is in its account. */
  lemma ExporterMoves<R>(s: Pipe<R>, s': Pipe<R>, e: nat, job: Exporter<R>, o: nat)
    requires o < |s.outputs| == |s'.outputs| && OutputAccounted(s, o) && e < |s.exporters|
    requires s'.taken == s.taken && s'.exporters == s.exporters[e := job]
    requires OwedTo(s.exporters[e], o) + Account(s.outputs[o]) == OwedTo(job, o) + Account(s'.outputs[o])
    requires s'.outputs[o].put == s'.outputs[o].queue + s'.outputs[o].sent
    ensures OutputAccounted(s', o)
  {
    hide SumOf, Account, OwedTo;
    SumOfUpdate(s.exporters, Owed(o), e, job);
    Balance(SumOf(s.exporters, Owed(o)), SumOf(s'.exporters, Owed(o)), OwedTo(s.exporters[e], o), OwedTo(job, o),
            Account(s.outputs[o]), Account(s'.outputs[o]));
    Commute(Account(s.outputs[o]), SumOf(s.exporters, Owed(o)));
    Commute(Account(s'.outputs[o]), SumOf(s'.exporters, Owed(o)));
  }

  /** The bulk that was offered to one output is still owed to the later ones. */
  lemma NextOwes<R>(e: Exporter<R>, o: nat)
    ensures o != e.next ==> OwedTo(Next(e), o) == OwedTo(e, o)
    ensures o == e.next ==> OwedTo(Next(e), o) == multiset{}
  {
  }

  /** An offer at output `o` itself. */
  lemma OfferHereStep<R>(c: Config<R>, s: Pipe<R>, e: nat)
    requires Enabled(c, s, OfferOutput(e)) && OutputAccounted(s, s.exporters[e].next)
    ensures |OfferedOutput(c, s, e).outputs| == |s.outputs|
    ensures OutputAccounted(OfferedOutput(c, s, e), s.exporters[e].next)
  {
    hide SumOf, Kept, Dropped, RefusedOf;
    var s', job := OfferedOutput(c, s, e), s.exporters[e];
    var o, job' := job.next, s'.exporters[e];
    NextOwes(job, o);
    var out, bulk := s.outputs[o], job.bulk;
    var good := Kept(c.exports(o), bulk);
    OfferSplits(c.exports(o), c.outputs[o], |out.queue|, bulk);
    Settle(multiset(bulk), OwedTo(job', o), multiset(Dropped(c.exports(o), bulk)),
           RefusedOf(c.outputs[o], |out.queue|, good), out.failed, out.refused, out.put);
    AccountIs(out);
    AccountIs(s'.outputs[o]);
    ExporterMoves(s, s', e, job', o);
  }

  /** An offer at another output. */
  lemma OfferThereStep<R>(c: Config<R>, s: Pipe<R>, e: nat, o: nat)
    requires Enabled(c, s, OfferOutput(e)) && o < |s.outputs| && o != s.exporters[e].next && OutputAccounted(s, o)
    ensures |OfferedOutput(c, s, e).outputs| == |s.outputs| && OutputAccounted(OfferedOutput(c, s, e), o)
  {
    hide SumOf, Kept, Dropped, RefusedOf, Account;
    var s', job := OfferedOutput(c, s, e), s.exporters[e];
    NextOwes(job, o);
    ExporterMoves(s, s', e, s'.exporters[e], o);
  }

  lemma OfferOutputStep<R>(c: Config<R>, s: Pipe<R>, e: nat, o: nat)
    requires Enabled(c, s, OfferOutput(e)) && o < |s.outputs| && OutputAccounted(s, o)
    ensures |DoOfferOutput(c, s, e).outputs| == |s.outputs| && OutputAccounted(DoOfferOutput(c, s, e), o)
  {
    hide SumOf, OfferedOutput, Fatal;
    if o == s.exporters[e].next {
      OfferHereStep(c, s, e);
    } else {
      OfferThereStep(c, s, e, o);
    }
  }

  lemma AccountIs<R>(out: Output<R>)
    ensures Account(out) == out.failed + out.refused + out.put
  {
  }

  lemma EnqueueOutputStep<R>(c: Config<R>, s: Pipe<R>, e: nat, o: nat)
    requires Enabled(c, s, EnqueueOutput(e)) && o < |s.outputs| && OutputAccounted(s, o)
    ensures OutputAccounted(DoEnqueueOutput(c, s, e), o)
  {
    hide SumOf;
    var s', job := DoEnqueueOutput(c, s, e), s.exporters[e];
    NextOwes(job, o);
    ExporterMoves(s, s', e, Next(job), o);
  }

  lemma TakeStep<R>(c: Config<R>, s: Pipe<R>, bulk: seq<R>, o: nat)
    requires Enabled(c, s, Take(bulk)) && o < |s.outputs| && OutputAccounted(s, o)
    ensures OutputAccounted(Do(c, s, Take(bulk)), o)
  {
    hide SumOf, Account;
    SumOfMore(s.exporters, Owed(o), Exporter(bulk, 0, Before));
    AssociateBags(Account(s.outputs[o]), SumOf(s.exporters, Owed(o)), multiset(bulk));
  }

  lemma SendStep<R>(c: Config<R>, s: Pipe<R>, p: nat, records: multiset<R>, o: nat)
    requires Enabled(c, s, Send(p, records)) && o < |s.outputs| && OutputAccounted(s, o)
    ensures OutputAccounted(Do(c, s, Send(p, records)), o)
  {
    hide SumOf;
    assert s.outputs[p].queue == (s.outputs[p].queue - records) + records;
  }

  lemma PollOutputStep<R>(c: Config<R>, s: Pipe<R>, e: nat, o: nat)
    requires Enabled(c, s, PollOutput(e)) && o < |s.outputs| && OutputAccounted(s, o)
    ensures OutputAccounted(Do(c, s, PollOutput(e)), o)
  {
    hide SumOf, Account;
    var s' := Do(c, s, PollOutput(e));
    ExporterMoves(s, s', e, s'.exporters[e], o);
  }

  lemma OfferLeavesOutputs<R>(c: Config<R>, s: Pipe<R>, t: nat)
    requires Enabled(c, s, OfferMain(t))
    ensures var s' := OfferedMain(c, s, t);
            (s'.outputs, s'.exporters, s'.main, s'.taken) == (s.outputs, s.exporters, s.main, s.taken)
  {
    hide Kept, Dropped;
  }

  lemma OutputStep<R>(c: Config<R>, s: Pipe<R>, a: Action<R>, o: nat)
    requires Enabled(c, s, a) && o < |s.outputs| && OutputAccounted(s, o)
    ensures |Do(c, s, a).outputs| == |s.outputs| && OutputAccounted(Do(c, s, a), o)
  {
    hide SumOf, Fatal, OfferedMain, DoOfferOutput, DoEnqueueOutput, Account;
    match a
    case Put(i, r) =>
    case Fetch(i, bulk) =>
    case OfferMain(t) => OfferLeavesOutputs(c, s, t);
    case PollMain(t) =>
    case EnqueueMain(t) =>
    case Take(bulk) => TakeStep(c, s, bulk, o);
    case OfferOutput(e) => OfferOutputStep(c, s, e, o);
    case PollOutput(e) => PollOutputStep(c, s, e, o);
    case EnqueueOutput(e) =>
      EnqueueLeavesInputs(c, s, e);
      EnqueueOutputStep(c, s, e, o);
    case Send(p, records) => SendStep(c, s, p, records, o);
  }

  lemma OutputSortedMore<R>(c: Config<R>, s: Pipe<R>, s': Pipe<R>, o: nat, bad: multiset<R>, lost: multiset<R>,
                            good: multiset<R>)
    requires o < |s.outputs| == |s'.outputs| == |c.outputs| && OutputSorted(c, s, o)
    requires All(bad, c.exports(o), Fails) && All(lost, c.exports(o), Converts) && All(good, c.exports(o), Converts)
    requires var out, out' := s.outputs[o], s'.outputs[o];
             (out'.failed, out'.refused, out'.put) == (out.failed + bad, out.refused + lost, out.put + good)
    requires c.outputs[o].strategy == MessageQueues.Throttle ==> lost == multiset{}
    ensures OutputSorted(c, s', o)
  {
  }

  lemma OfferOutputSorted<R>(c: Config<R>, s: Pipe<R>, e: nat)
    requires Enabled(c, s, OfferOutput(e)) && OutputSorted(c, s, s.exporters[e].next)
    requires !Fatal(c.exports(s.exporters[e].next), s.exporters[e].bulk)
    ensures var s' := OfferedOutput(c, s, e);
            OutputSorted(c, s', s.exporters[e].next) && ExporterSorted(c, s'.exporters[e])
  {
    hide Kept, Dropped, All, Fatal, RefusedOf;
    var s', job := OfferedOutput(c, s, e), s.exporters[e];
    var o := job.next;
    OfferSorted(c.exports(o), c.outputs[o], |s.outputs[o].queue|, job.bulk);
    NothingAll(c.exports(o), Converts);
    assert s'.outputs[o].put == s.outputs[o].put + multiset{};
    OutputSortedMore(c, s, s', o, multiset(Dropped(c.exports(o), job.bulk)),
                     RefusedOf(c.outputs[o], |s.outputs[o].queue|, Kept(c.exports(o), job.bulk)), multiset{});
  }

  lemma EnqueueOutputSorted<R>(c: Config<R>, s: Pipe<R>, e: nat)
    requires Enabled(c, s, EnqueueOutput(e)) && OutputSorted(c, s, s.exporters[e].next) &&
             ExporterSorted(c, s.exporters[e])
    ensures OutputSorted(c, DoEnqueueOutput(c, s, e), s.exporters[e].next)
  {
    hide All;
    var s', job := DoEnqueueOutput(c, s, e), s.exporters[e];
    var o := job.next;
    NothingAll(c.exports(o), Converts);
    NothingAll(c.exports(o), Fails);
    assert s'.outputs[o].failed == s.outputs[o].failed + multiset{};
    assert s'.outputs[o].refused == s.outputs[o].refused + multiset{};
    OutputSortedMore(c, s, s', o, multiset{}, multiset{}, multiset(job.offer.good));
  }

  /** An output whose history an action leaves alone stays sorted. */
  lemma SortedOutput<R>(c: Config<R>, s: Pipe<R>, a: Action<R>, o: nat)
    requires Enabled(c, s, a) && OutputsSorted(c, s) && o < |s.outputs|
    ensures |Do(c, s, a).outputs| == |s.outputs| && OutputSorted(c, Do(c, s, a), o)
  {
    hide Kept, Dropped, All, GoodOffer, Fatal, OfferedMain, RefusedOf;
    assert OutputSorted(c, s, o);
    if a.OfferOutput? {
      if !Fatal(c.exports(s.exporters[a.exporter].next), s.exporters[a.exporter].bulk) {
        OfferOutputSorted(c, s, a.exporter);
      }
    } else if a.EnqueueOutput? {
      assert ExporterSorted(c, s.exporters[a.exporter]);
      EnqueueOutputSorted(c, s, a.exporter);
    } else if a.OfferMain? {
      OfferLeavesOutputs(c, s, a.importer);
    }
  }

  lemma SortedExporter<R>(c: Config<R>, s: Pipe<R>, a: Action<R>, e: nat)
    requires Enabled(c, s, a) && OutputsSorted(c, s) && e < |Do(c, s, a).exporters|
    ensures ExporterSorted(c, Do(c, s, a).exporters[e])
  {
    hide Kept, Dropped, All, OutputSorted, Fatal, OfferedMain, RefusedOf;
    assert e < |s.exporters| ==> ExporterSorted(c, s.exporters[e]);
    if a.OfferOutput? {
      assert OutputSorted(c, s, s.exporters[a.exporter].next);
      if !Fatal(c.exports(s.exporters[a.exporter].next), s.exporters[a.exporter].bulk) {
        OfferOutputSorted(c, s, a.exporter);
      }
    } else if a.OfferMain? {
      OfferLeavesOutputs(c, s, a.importer);
    }
  }

  lemma OutputsSortedStep<R>(c: Config<R>, s: Pipe<R>, a: Action<R>)
    requires Enabled(c, s, a) && OutputsSorted(c, s)
    ensures OutputsSorted(c, Do(c, s, a))
  {
    SameOutputs(c, s, a);
    hide Do, OutputSorted, ExporterSorted, Enabled;
    var s' := Do(c, s, a);
    forall o | 0 <= o < |s'.outputs| ensures OutputSorted(c, s', o) {
      SortedOutput(c, s, a, o);
    }
    forall e | 0 <= e < |s'.exporters| ensures ExporterSorted(c, s'.exporters[e]) {
      SortedExporter(c, s, a, e);
    }
  }

  lemma SameOutputs<R>(c: Config<R>, s: Pipe<R>, a: Action<R>)
    requires Enabled(c, s, a)
    ensures |Do(c, s, a).outputs| == |s.outputs|
  {
    hide Kept, Dropped, Fatal;
  }

  /** The bulks of the calls and turns that were already there stay the same. */
  lemma SameImporterBulks<R>(c: Config<R>, s: Pipe<R>, a: Action<R>)
    requires Enabled(c, s, a)
    ensures var s' := Do(c, s, a);
            && |s.importers| <= |s'.importers|
            && (forall t :: 0 <= t < |s.importers| ==> s'.importers[t].bulk == s.importers[t].bulk)
  {
    hide Kept, Dropped, Fatal, Offered, RefusedOf, OfferedOutput, DoEnqueueOutput;
    if a.OfferOutput? {
      OutputsLeaveInputs(c, s, a.exporter);
    } else if a.EnqueueOutput? {
      EnqueueLeavesInputs(c, s, a.exporter);
    }
  }

  lemma SameExporterBulks<R>(c: Config<R>, s: Pipe<R>, a: Action<R>)
    requires Enabled(c, s, a)
    ensures var s' := Do(c, s, a);
            && |s.exporters| <= |s'.exporters|
            && (forall e :: 0 <= e < |s.exporters| ==> s'.exporters[e].bulk == s.exporters[e].bulk)
  {
    hide Kept, Dropped, Fatal, Offered, RefusedOf, OfferedMain;
    if a.OfferMain? {
      OfferLeavesOutputs(c, s, a.importer);
    }
  }

  lemma NewBulks<R>(c: Config<R>, s: Pipe<R>, a: Action<R>)
    requires Enabled(c, s, a)
    ensures var s' := Do(c, s, a);
            && (forall t :: |s.importers| <= t < |s'.importers| ==>
                  |s'.importers[t].bulk| <= MessageQueues.MAX_QUEUE_BULK_SIZE)
            && (forall e :: |s.exporters| <= e < |s'.exporters| ==>
                  |s'.exporters[e].bulk| <= MessageQueues.MAX_QUEUE_BULK_SIZE)
  {
    hide Kept, Dropped, Fatal, Offered, RefusedOf, OfferedMain, OfferedOutput, DoEnqueueOutput;
    if a.OfferMain? {
      OfferLeavesOutputs(c, s, a.importer);
      OfferedInPlace(c, s, a.importer);
    } else if a.OfferOutput? {
      OutputsLeaveInputs(c, s, a.exporter);
      OfferedOutputInPlace(c, s, a.exporter);
    } else if a.EnqueueOutput? {
      EnqueueLeavesInputs(c, s, a.exporter);
      EnqueuedOutputInPlace(c, s, a.exporter);
    }
  }

  lemma OfferedInPlace<R>(c: Config<R>, s: Pipe<R>, t: nat)
    requires Enabled(c, s, OfferMain(t))
    ensures |OfferedMain(c, s, t).importers| == |s.importers|
  {
    hide Kept, Dropped, Offered, RefusedOf;
  }

  lemma OfferedOutputInPlace<R>(c: Config<R>, s: Pipe<R>, e: nat)
    requires Enabled(c, s, OfferOutput(e))
    ensures |OfferedOutput(c, s, e).exporters| == |s.exporters|
  {
    hide Kept, Dropped, Offered, RefusedOf;
  }

  lemma EnqueuedOutputInPlace<R>(c: Config<R>, s: Pipe<R>, e: nat)
    requires Enabled(c, s, EnqueueOutput(e))
    ensures |DoEnqueueOutput(c, s, e).exporters| == |s.exporters|
  {
  }

  lemma StepSmall<R>(c: Config<R>, s: Pipe<R>, a: Action<R>)
    requires SmallBulks(s) && Enabled(c, s, a)
    ensures SmallBulks(Do(c, s, a))
  {
    SameImporterBulks(c, s, a);
    SameExporterBulks(c, s, a);
    NewBulks(c, s, a);
    hide Do, Enabled;
  }

  /** The process only ends at a fatal bulk. */
  lemma StepEnded<R>(c: Config<R>, s: Pipe<R>, a: Action<R>)
    requires Enabled(c, s, a)
    ensures var s' := Do(c, s, a); s'.over ==> EndedBy(c, s')
  {
    hide Kept, Dropped, Fatal, Offered, RefusedOf;
    var s' := Do(c, s, a);
    if s'.over && a.OfferMain? {
      assert ImporterFatal(c, s'.importers[a.importer]);
    } else if s'.over && a.OfferOutput? {
      assert ExporterFatal(c, s'.exporters[a.exporter]);
    }
  }

  lemma StepAccounted<R>(c: Config<R>, s: Pipe<R>, a: Action<R>)
    requires Accounted(c, s) && Enabled(c, s, a)
    ensures Accounted(c, Do(c, s, a))
  {
    hide InputsAccounted, InputsSorted, MainAccounted, OutputAccounted, OutputsSorted, SmallBulks, EndedBy, Do, Enabled;
    var s' := Do(c, s, a);
    StepEnded(c, s, a);
    SameOutputs(c, s, a);
    StepSmall(c, s, a);
    InputStep(c, s, a);
    InputSortedStep(c, s, a);
    MainStep(c, s, a);
    OutputsSortedStep(c, s, a);
    forall o | 0 <= o < |s'.outputs| ensures OutputAccounted(s', o) {
      OutputStep(c, s, a, o);
    }
  }

  lemma {:induction false} RunAccounted<R>(c: Config<R>, s: Pipe<R>, acts: seq<Action<R>>)
    requires Accounted(c, s) && Possible(c, s, acts)
    ensures Accounted(c, Run(c, s, acts))
    decreases acts
  {
    hide Accounted;
    if acts != [] {
      StepAccounted(c, s, acts[0]);
      RunAccounted(c, Do(c, s, acts[0]), acts[1..]);
    }
  }

  lemma StartAccounted<R>(c: Config<R>, inputs: nat)
    ensures Accounted(c, Start(c, inputs))
  {
    var s := Start(c, inputs);
    SumOfNothing(s.inputs, Itself());
    SumOfNothing(s.importers, Held());
    forall o | 0 <= o < |s.outputs| ensures OutputAccounted(s, o) {
      SumOfNothing(s.exporters, Owed(o));
    }
  }

  /** Conservation and fan-out, in every reachable state of any number of inputs, importer
      threads, exporter threads and outputs, whatever the capacities and strategies: every
      record ever put in an input queue is still there, is with an importer, failed to convert,
      was refused by the full main queue, or was put in it; what was put in the main queue is
      still there or was taken; and for each output, what was taken was put in its queue, failed
      its conversion, was refused by its full queue, or is owed to it by an exporter. Those that
      failed are records whose exception is handled, all others do convert, and a queue that
      throttles has refused none. A record whose exception escapes gets nowhere: the process ends
      with it, and what importers and exporters hold then is lost. */
  lemma Conservation<R>(c: Config<R>, inputs: nat, acts: seq<Action<R>>)
    requires Possible(c, Start(c, inputs), acts)
    ensures Accounted(c, Run(c, Start(c, inputs), acts))
  {
    StartAccounted(c, inputs);
    RunAccounted(c, Start(c, inputs), acts);
  }

  /** Nothing is under way any more. */
  predicate Quiet<R>(s: Pipe<R>) {
    && (forall i :: 0 <= i < |s.inputs| ==> s.inputs[i] == multiset{})
    && (forall t :: 0 <= t < |s.importers| ==> s.importers[t].offer.After?)
    && (forall e :: 0 <= e < |s.exporters| ==> s.exporters[e].next >= |s.outputs|)
    && s.main == multiset{}
  }

  lemma QuietTotals<R>(c: Config<R>, s: Pipe<R>, o: nat)
    requires Accounted(c, s) && Quiet(s) && o < |s.outputs|
    ensures s.put == s.failed + s.refused + s.taken && s.mainPut == s.taken
    ensures s.taken == s.outputs[o].put + s.outputs[o].failed + s.outputs[o].refused
  {
    SumOfNothing(s.inputs, Itself());
    SumOfNothing(s.importers, Held());
    assert forall e :: 0 <= e < |s.exporters| ==> Owed(o)(s.exporters[e]) == multiset{};
    SumOfNothing(s.exporters, Owed(o));
    assert OutputAccounted(s, o);
  }

  /** Once nothing is under way, what an output's queue ever got, together with what full queues
      refused, is exactly those records put in the input queues that convert at the input and
      at the output, each as often as it was put; and no record whose exception escapes at the
      input was ever put, nor did one that escapes at the output get past the main queue. */
  lemma QuietPipe<R>(c: Config<R>, s: Pipe<R>, o: nat, r: R)
    requires Accounted(c, s) && Quiet(s) && o < |s.outputs|
    ensures if c.imports(r).Converts? && c.exports(o)(r).Converts?
            then s.put[r] == s.outputs[o].put[r] + s.refused[r] + s.outputs[o].refused[r]
            else s.outputs[o].put[r] == 0
    ensures c.imports(r).Escapes? ==> s.put[r] == 0
    ensures c.imports(r).Converts? && c.exports(o)(r).Escapes? ==> s.put[r] == s.refused[r]
  {
    QuietTotals(c, s, o);
    var out := s.outputs[o];
    assert OutputSorted(c, s, o);
    assert s.put[r] == s.failed[r] + s.refused[r] + s.taken[r];
    assert s.taken[r] == out.put[r] + out.failed[r] + out.refused[r];
  }

  /** Queues that throttle lose nothing: every output's queue got exactly the records that
      convert, in every run that has come to rest; and none does in which a record was put whose
      exception escapes. */
  lemma ThrottledPipe<R>(c: Config<R>, inputs: nat, acts: seq<Action<R>>, o: nat, r: R)
    requires Possible(c, Start(c, inputs), acts) && o < |c.outputs|
    requires c.main.strategy == MessageQueues.Throttle && c.outputs[o].strategy == MessageQueues.Throttle
    requires Quiet(Run(c, Start(c, inputs), acts))
    ensures var s := Run(c, Start(c, inputs), acts);
            && |s.outputs| == |c.outputs|
            && s.outputs[o].put[r] == (if c.imports(r).Converts? && c.exports(o)(r).Converts? then s.put[r] else 0)
            && (s.put[r] > 0 ==> !c.imports(r).Escapes? && (c.imports(r).Converts? ==> !c.exports(o)(r).Escapes?))
  {
    hide Quiet;
    var s := Run(c, Start(c, inputs), acts);
    Conservation(c, inputs, acts);
    QuietPipe(c, s, o, r);
    assert OutputSorted(c, s, o);
  }
}
