/** One call of the import or export loop is a run of the pipeline. */
module PipelineRefinement {
  import opened Common
  import opened PipelineRuns
  import MessageQueues
  import Pipeline

  // ---- Runs ----

  lemma Unfold<R>(c: Config<R>, s: Pipe<R>, a: Action<R>, acts: seq<Action<R>>)
    ensures Possible(c, s, [a] + acts) <==> Enabled(c, s, a) && Possible(c, Do(c, s, a), acts)
    ensures Possible(c, s, [a] + acts) ==> Run(c, s, [a] + acts) == Run(c, Do(c, s, a), acts)
  {
    hide Enabled, Do;
    assert ([a] + acts)[1..] == acts;
  }

  lemma {:induction false} RunAppend<R>(c: Config<R>, s: Pipe<R>, a: seq<Action<R>>, b: seq<Action<R>>)
    requires Possible(c, s, a) && Possible(c, Run(c, s, a), b)
    ensures Possible(c, s, a + b) && Run(c, s, a + b) == Run(c, Run(c, s, a), b)
    decreases |a|
  {
    if a == [] {
      assert a + b == b;
    } else {
      hide Enabled, Do, Possible, Run;
      Unfold(c, s, a[0], a[1..]);
      assert [a[0]] + a[1..] == a;
      RunAppend(c, Do(c, s, a[0]), a[1..], b);
      Unfold(c, s, a[0], a[1..] + b);
      AppendAssociates([a[0]], a[1..], b);
    }
  }

  lemma OneAction<R>(c: Config<R>, s: Pipe<R>, a: Action<R>)
    requires Enabled(c, s, a)
    ensures Possible(c, s, [a]) && Run(c, s, [a]) == Do(c, s, a)
  {
    hide Enabled, Do;
    assert [a][1..] == [];
  }

  lemma NoAction<R>(c: Config<R>, s: Pipe<R>)
    ensures Possible(c, s, []) && Run(c, s, []) == s
  {
  }

  lemma OneAhead<R>(c: Config<R>, s: Pipe<R>, a: Action<R>, acts: seq<Action<R>>)
    requires Enabled(c, s, a) && Possible(c, Do(c, s, a), acts)
    ensures Possible(c, s, [a] + acts) && Run(c, s, [a] + acts) == Run(c, Do(c, s, a), acts)
  {
    hide Enabled, Do, Possible, Run;
    Unfold(c, s, a, acts);
  }

  // ---- Records and the messages made of them ----

  predicate Represents<R, M(==)>(convert: R -> Pipeline.Conversion<M>, records: seq<R>, messages: seq<M>) {
    |records| == |messages| && forall i :: 0 <= i < |records| ==> convert(records[i]) == Pipeline.Message(messages[i])
  }

  function FateOf<M>(conversion: Pipeline.Conversion<M>): Fate {
    match conversion
    case Message(_) => Converts
    case Handled => Fails
    case Escaping => Escapes
  }

  predicate Agrees<R, M>(convert: R -> Pipeline.Conversion<M>, fate: R -> Fate, bulk: seq<R>) {
    forall i :: 0 <= i < |bulk| ==> fate(bulk[i]) == FateOf(convert(bulk[i]))
  }

  /** What an output makes of the record a message was made of. */
  function Through<R, M, U>(imports: R -> Pipeline.Conversion<M>, exports: M -> Pipeline.Conversion<U>)
    : R -> Pipeline.Conversion<U>
  {
    (r: R) => match imports(r)
              case Message(m) => exports(m)
              case _ => Pipeline.Handled
  }

  lemma {:induction false} KeptRepresents<R, M>(convert: R -> Pipeline.Conversion<M>, fate: R -> Fate, bulk: seq<R>)
    requires Agrees(convert, fate, bulk)
    ensures Represents(convert, Kept(fate, bulk), Pipeline.Converted(convert, bulk))
    decreases |bulk|
  {
    if bulk != [] {
      KeptRepresents(convert, fate, bulk[..|bulk| - 1]);
    }
  }

  lemma {:induction false} ConvertedThrough<R, M, U>(imports: R -> Pipeline.Conversion<M>,
                                                     exports: M -> Pipeline.Conversion<U>, records: seq<R>,
                                                     messages: seq<M>)
    requires Represents(imports, records, messages)
    ensures Pipeline.Converted(exports, messages) == Pipeline.Converted(Through(imports, exports), records)
    decreases |records|
  {
    if records != [] {
      var n := |records| - 1;
      ConvertedThrough(imports, exports, records[..n], messages[..n]);
    }
  }

  lemma {:induction false} EscapeThrough<R, M, U>(imports: R -> Pipeline.Conversion<M>,
                                                  exports: M -> Pipeline.Conversion<U>, records: seq<R>,
                                                  messages: seq<M>)
    requires Represents(imports, records, messages)
    ensures Pipeline.FirstEscape(exports, messages) == Pipeline.FirstEscape(Through(imports, exports), records)
    decreases |records|
  {
    if records != [] {
      EscapeThrough(imports, exports, records[1..], messages[1..]);
    }
  }

  /** An exception escapes exactly from a fatal bulk. */
  lemma FatalIffEscape<R, M>(convert: R -> Pipeline.Conversion<M>, fate: R -> Fate, bulk: seq<R>)
    requires Agrees(convert, fate, bulk)
    ensures Fatal(fate, bulk) <==> Pipeline.FirstEscape(convert, bulk) < |bulk|
  {
    Pipeline.FirstEscapeFinds(convert, bulk);
    if Pipeline.FirstEscape(convert, bulk) < |bulk| {
      assert fate(bulk[Pipeline.FirstEscape(convert, bulk)]).Escapes?;
    }
  }

  lemma {:induction false} WaitRepresents<R, M>(convert: R -> Pipeline.Conversion<M>, records: seq<R>, messages: seq<M>,
                                                max: nat, drains: seq<nat>)
    requires Represents(convert, records, messages)
    ensures var (r, free), (m, room) := MessageQueues.AfterWaiting(records, max, drains),
                                        MessageQueues.AfterWaiting(messages, max, drains);
            free == room && Represents(convert, r, m)
    decreases |drains|
  {
    if |records| >= max && drains != [] {
      var n := MessageQueues.Taken(records, drains[0]);
      WaitRepresents(convert, records[n..], messages[n..], max, drains[1..]);
    }
  }

  /** A queue of records and the queue of their messages change alike. */
  lemma EnqueueRepresents<R, M>(convert: R -> Pipeline.Conversion<M>, records: seq<R>, messages: seq<M>,
                                limits: Limits, good: seq<R>, goodMessages: seq<M>, drains: seq<nat>)
    requires Represents(convert, records, messages) && Represents(convert, good, goodMessages)
    ensures var (r, status), (m, status') := AfterOffer(limits, records, good, drains),
                                             AfterOffer(limits, messages, goodMessages, drains);
            status == status' && Represents(convert, r, m)
  {
    WaitRepresents(convert, records, messages, limits.max, drains);
  }

  /** What a queue holds after a bulk was offered to it; an empty bulk is not. */
  function AfterOffer<T>(limits: Limits, contents: seq<T>, good: seq<T>, drains: seq<nat>)
    : (seq<T>, MessageQueues.Status)
  {
    if good == [] then (contents, MessageQueues.Enqueued)
    else MessageQueues.AfterEnqueue(contents, limits.max, limits.strategy, good, drains)
  }

  /** What the queue refused of the bulk. */
  function Lost<R>(status: MessageQueues.Status, good: seq<R>): multiset<R> {
    if status.Refused? then multiset(good) else multiset{}
  }

  lemma SplitBag<R>(contents: seq<R>, n: nat)
    requires n <= |contents|
    ensures multiset(contents) == multiset(contents[..n]) + multiset(contents[n..])
    ensures multiset(contents) - multiset(contents[..n]) == multiset(contents[n..])
    ensures multiset(contents[..n]) <= multiset(contents)
  {
    assert contents == contents[..n] + contents[n..];
  }

  lemma JoinBag<R>(a: seq<R>, b: seq<R>)
    ensures multiset(a) + multiset(b) == multiset(a + b)
  {
  }

  // ---- The import loop ----

  /** While importer `t` waits, exporters take from the main queue. */
  function MainWait<R>(main: seq<R>, max: nat, drains: seq<nat>, t: nat): seq<Action<R>>
    decreases |drains|
  {
    if |main| < max then [PollMain(t)]
    else if drains == [] then []
    else
      var n := MessageQueues.Taken(main, drains[0]);
      [Take(main[..n])] + MainWait(main[n..], max, drains[1..], t)
  }

  /** Only the offer of importer `t` and the main queue have changed. */
  predicate MainChanged<R>(s: Pipe<R>, s': Pipe<R>, t: nat, offer: Offer<R>, main: seq<R>) {
    && t < |s.importers|
    && s'.importers == s.importers[t := s.importers[t].(offer := offer)]
    && s'.main == multiset(main)
    && (s'.inputs, s'.outputs, s'.put, s'.failed, s'.refused, s'.over) ==
       (s.inputs, s.outputs, s.put, s.failed, s.refused, s.over)
    && s.exporters <= s'.exporters
  }

  lemma TakeChanges<R>(c: Config<R>, s: Pipe<R>, main: seq<R>, n: nat, t: nat)
    requires !s.over && t < |s.importers| && s.main == multiset(main)
    requires n <= |main| && n <= MessageQueues.MAX_QUEUE_BULK_SIZE
    ensures Enabled(c, s, Take(main[..n]))
    ensures MainChanged(s, Do(c, s, Take(main[..n])), t, s.importers[t].offer, main[n..])
  {
    SplitBag(main, n);
  }

  lemma PollChanges<R>(c: Config<R>, s: Pipe<R>, main: seq<R>, t: nat)
    requires !s.over && t < |s.importers| && s.importers[t].offer.Waiting? && s.main == multiset(main) &&
             |main| < c.main.max
    ensures Enabled(c, s, PollMain(t))
    ensures MainChanged(s, Do(c, s, PollMain(t)), t, Admitted(s.importers[t].offer.good), main)
  {
  }

  lemma EnqueueChanges<R>(c: Config<R>, s: Pipe<R>, main: seq<R>, t: nat)
    requires !s.over && t < |s.importers| && s.importers[t].offer.Admitted? && s.main == multiset(main)
    ensures Enabled(c, s, EnqueueMain(t))
    ensures MainChanged(s, Do(c, s, EnqueueMain(t)), t, After, main + s.importers[t].offer.good)
  {
    JoinBag(main, s.importers[t].offer.good);
  }

  lemma MainChangedTwice<R>(s: Pipe<R>, s1: Pipe<R>, s2: Pipe<R>, t: nat, offer: Offer<R>, offer': Offer<R>,
                            main: seq<R>, main': seq<R>)
    requires MainChanged(s, s1, t, offer, main) && MainChanged(s1, s2, t, offer', main')
    ensures MainChanged(s, s2, t, offer', main')
  {
  }

  lemma {:induction false} MainWaitIsRun<R>(c: Config<R>, s: Pipe<R>, main: seq<R>, drains: seq<nat>, t: nat)
    requires !s.over && t < |s.importers| && s.importers[t].offer.Waiting? && s.main == multiset(main)
    requires MessageQueues.SmallDrains(drains)
    ensures var steps, good := MainWait(main, c.main.max, drains, t), s.importers[t].offer.good;
            var (waited, free) := MessageQueues.AfterWaiting(main, c.main.max, drains);
            Possible(c, s, steps) &&
            MainChanged(s, Run(c, s, steps), t, if free then Admitted(good) else Waiting(good), waited)
    decreases |drains|
  {
    hide Do, Enabled;
    if |main| < c.main.max {
      PollChanges(c, s, main, t);
      OneAction(c, s, PollMain(t));
    } else if drains != [] {
      var n := MessageQueues.Taken(main, drains[0]);
      TakeChanges(c, s, main, n, t);
      var next := Do(c, s, Take(main[..n]));
      MainWaitIsRun(c, next, main[n..], drains[1..], t);
      OneAhead(c, s, Take(main[..n]), MainWait(main[n..], c.main.max, drains[1..], t));
    } else {
      NoAction(c, s);
    }
  }

  /** From the first look at the main queue on. */
  function AfterOfferMain<R>(c: Config<R>, main: seq<R>, good: seq<R>, drains: seq<nat>, t: nat): seq<Action<R>> {
    if good == [] then []
    else if |main| < c.main.max then [EnqueueMain(t)]
    else if c.main.strategy != MessageQueues.Throttle then []
    else
      MainWait(main, c.main.max, drains, t) +
      (if MessageQueues.AfterWaiting(main, c.main.max, drains).1 then [EnqueueMain(t)] else [])
  }

  function OfferAfter<R>(status: MessageQueues.Status, good: seq<R>): Offer<R> {
    if status.Blocked? then Waiting(good) else After
  }

  /** An importer that waits. */
  lemma WaitingImport<R>(c: Config<R>, s: Pipe<R>, main: seq<R>, good: seq<R>, drains: seq<nat>,
                         t: nat)
    requires !s.over && t < |s.importers| && s.importers[t].offer == Waiting(good) && s.main == multiset(main)
    requires good != [] && |main| >= c.main.max && c.main.strategy == MessageQueues.Throttle
    requires MessageQueues.SmallDrains(drains)
    ensures var steps := AfterOfferMain(c, main, good, drains, t);
            var (main', status) := AfterOffer(c.main, main, good, drains);
            Possible(c, s, steps) && MainChanged(s, Run(c, s, steps), t, OfferAfter(status, good), main')
  {
    hide Do, Enabled, Possible, Run, MainWait;
    MainWaitIsRun(c, s, main, drains, t);
    var wait := MainWait(main, c.main.max, drains, t);
    var (waited, free) := MessageQueues.AfterWaiting(main, c.main.max, drains);
    var s1 := Run(c, s, wait);
    if free {
      EnqueueChanges(c, s1, waited, t);
      OneAction(c, s1, EnqueueMain(t));
      RunAppend(c, s, wait, [EnqueueMain(t)]);
      MainChangedTwice(s, s1, Do(c, s1, EnqueueMain(t)), t, Admitted(good), After, waited, waited + good);
    } else {
      assert wait + [] == wait;
    }
  }

  /** From the first look at the main queue on, whatever it shows. */
  lemma OfferedImport<R>(c: Config<R>, s: Pipe<R>, main: seq<R>, good: seq<R>, drains: seq<nat>, t: nat)
    requires !s.over && t < |s.importers| && s.importers[t].offer == Offered(c.main, |main|, good) && s.main ==
             multiset(main)
    requires MessageQueues.SmallDrains(drains)
    ensures var steps := AfterOfferMain(c, main, good, drains, t);
            var (main', status) := AfterOffer(c.main, main, good, drains);
            Possible(c, s, steps) && MainChanged(s, Run(c, s, steps), t, OfferAfter(status, good), main')
  {
    hide Do, Enabled, Possible, Run, MainWait;
    NoAction(c, s);
    if good != [] && |main| < c.main.max {
      EnqueueChanges(c, s, main, t);
      OneAction(c, s, EnqueueMain(t));
    } else if good != [] && c.main.strategy == MessageQueues.Throttle {
      WaitingImport(c, s, main, good, drains, t);
    }
  }

  /** What one call of the import loop does to the pipeline: the bulk leaves input queue `i`,
      the main queue holds `main`, and the call is over unless it still waits or has ended the
      process. */
  predicate Imported<R>(s: Pipe<R>, s': Pipe<R>, i: nat, left: seq<R>, job: Importer<R>, main: seq<R>,
                        lost: multiset<R>, over: bool) {
    && i < |s.inputs|
    && s'.inputs == s.inputs[i := multiset(left)]
    && s'.importers == s.importers + [job]
    && s'.main == multiset(main)
    && s'.refused == s.refused + lost
    && s'.outputs == s.outputs && s'.put == s.put
    && s.exporters <= s'.exporters
    && s'.over == over
  }

  lemma FetchAndOffer<R>(c: Config<R>, s: Pipe<R>, i: nat, queue: seq<R>, n: nat, main: seq<R>)
    requires !s.over && i < |s.inputs| && s.inputs[i] == multiset(queue) && s.main == multiset(main)
    requires n <= |queue| && n <= MessageQueues.MAX_QUEUE_BULK_SIZE
    ensures var t, bulk := |s.importers|, queue[..n];
            && Enabled(c, s, Fetch(i, bulk))
            && var s1 := Do(c, s, Fetch(i, bulk));
               && Enabled(c, s1, OfferMain(t))
               && var good := Kept(c.imports, bulk);
                  if Fatal(c.imports, bulk)
                  then Imported(s, Do(c, s1, OfferMain(t)), i, queue[n..], Importer(bulk, Before), main, multiset{},
                                true)
                  else Imported(s, Do(c, s1, OfferMain(t)), i, queue[n..],
                                Importer(bulk, Offered(c.main, |main|, good)), main,
                                RefusedOf(c.main, |main|, good), false)
  {
    hide Kept, Dropped, Fatal;
    SplitBag(queue, n);
  }

  lemma ImportedThenChanged<R>(s: Pipe<R>, s1: Pipe<R>, s2: Pipe<R>, i: nat, left: seq<R>, bulk: seq<R>,
                               offer: Offer<R>, offer': Offer<R>, main: seq<R>, main': seq<R>, lost: multiset<R>)
    requires Imported(s, s1, i, left, Importer(bulk, offer), main, lost, false)
    requires MainChanged(s1, s2, |s.importers|, offer', main')
    ensures Imported(s, s2, i, left, Importer(bulk, offer'), main', lost, false)
  {
  }

  lemma LostIsRefused<R>(limits: Limits, main: seq<R>, good: seq<R>, drains: seq<nat>)
    ensures Lost(AfterOffer(limits, main, good, drains).1, good) == RefusedOf(limits, |main|, good)
  {
    EmptyBag<R>([]);
  }

  /** One call of the import loop that no exception ends, on records. */
  lemma ImportIsRun<R>(c: Config<R>, s: Pipe<R>, i: nat, queue: seq<R>, main: seq<R>, drains: seq<nat>)
    returns (steps: seq<Action<R>>)
    requires !s.over && i < |s.inputs| && s.inputs[i] == multiset(queue) && s.main == multiset(main)
    requires MessageQueues.SmallDrains(drains)
    requires !Fatal(c.imports, queue[..Min(|queue|, MessageQueues.MAX_QUEUE_BULK_SIZE)])
    ensures var n := Min(|queue|, MessageQueues.MAX_QUEUE_BULK_SIZE);
            var good := Kept(c.imports, queue[..n]);
            var (main', status) := AfterOffer(c.main, main, good, drains);
            && Possible(c, s, steps)
            && Imported(s, Run(c, s, steps), i, queue[n..], Importer(queue[..n], OfferAfter(status, good)), main',
                        Lost(status, good), false)
  {
    hide Do, Enabled, Possible, Run, Kept, Fatal, AfterOffer, Offered, RefusedOf, AfterOfferMain, OfferAfter, Lost;
    var n := Min(|queue|, MessageQueues.MAX_QUEUE_BULK_SIZE);
    var t, bulk := |s.importers|, queue[..n];
    var good := Kept(c.imports, bulk);
    FetchAndOffer(c, s, i, queue, n, main);
    var s1 := Do(c, s, Fetch(i, bulk));
    var s2 := Do(c, s1, OfferMain(t));
    OfferedImport(c, s2, main, good, drains, t);
    var rest := AfterOfferMain(c, main, good, drains, t);
    OneAhead(c, s1, OfferMain(t), rest);
    OneAhead(c, s, Fetch(i, bulk), [OfferMain(t)] + rest);
    steps := [Fetch(i, bulk)] + ([OfferMain(t)] + rest);
    var (main', status) := AfterOffer(c.main, main, good, drains);
    LostIsRefused(c.main, main, good, drains);
    ImportedThenChanged(s, s2, Run(c, s2, rest), i, queue[n..], bulk, Offered(c.main, |main|, good),
                        OfferAfter(status, good), main, main', RefusedOf(c.main, |main|, good));
  }

  /** One call of the import loop that an exception ends: the process ends before anything of the
      bulk gets to the main queue. */
  lemma FatalImportIsRun<R>(c: Config<R>, s: Pipe<R>, i: nat, queue: seq<R>, main: seq<R>)
      returns (steps: seq<Action<R>>)
    requires !s.over && i < |s.inputs| && s.inputs[i] == multiset(queue) && s.main == multiset(main)
    requires Fatal(c.imports, queue[..Min(|queue|, MessageQueues.MAX_QUEUE_BULK_SIZE)])
    ensures var n := Min(|queue|, MessageQueues.MAX_QUEUE_BULK_SIZE);
            && Possible(c, s, steps)
            && Imported(s, Run(c, s, steps), i, queue[n..], Importer(queue[..n], Before), main, multiset{}, true)
  {
    hide Do, Enabled, Possible, Run, Kept, Fatal;
    var n := Min(|queue|, MessageQueues.MAX_QUEUE_BULK_SIZE);
    var t, bulk := |s.importers|, queue[..n];
    FetchAndOffer(c, s, i, queue, n, main);
    OneAction(c, Do(c, s, Fetch(i, bulk)), OfferMain(t));
    OneAhead(c, s, Fetch(i, bulk), [OfferMain(t)]);
    steps := [Fetch(i, bulk)] + [OfferMain(t)];
  }

  /** How far a bulk has got when the call with it ends. */
  function OfferWhen<R>(ending: Pipeline.Ending, good: seq<R>): Offer<R> {
    match ending
    case Returned(_) => After
    case StillWaiting => Waiting(good)
    case Escaped(_) => Before
  }

  function LostWhen<R>(ending: Pipeline.Ending, good: seq<R>): multiset<R> {
    if ending == Pipeline.Returned(false) then multiset(good) else multiset{}
  }

  /** A call with messages, and with the records they are made of. */
  lemma CallRepresents<R, M>(convert: R -> Pipeline.Conversion<M>, fate: R -> Fate, bulk: seq<R>, records: seq<R>,
                             messages: seq<M>, limits: Limits, drains: seq<nat>)
    requires Agrees(convert, fate, bulk) && Represents(convert, records, messages)
    ensures var good := Kept(fate, bulk);
            var (messages', ending) :=
              Pipeline.AfterCall(convert, bulk, messages, limits.max, limits.strategy, drains);
            var (records', status) := AfterOffer(limits, records, good, drains);
            if Fatal(fate, bulk) then ending.Escaped? && messages' == messages
            else
              && !ending.Escaped? && Represents(convert, records', messages')
              && OfferAfter(status, good) == OfferWhen(ending, good) && Lost(status, good) == LostWhen(ending, good)
  {
    FatalIffEscape(convert, fate, bulk);
    KeptRepresents(convert, fate, bulk);
    EnqueueRepresents(convert, records, messages, limits, Kept(fate, bulk), Pipeline.Converted(convert, bulk), drains);
    hide Kept, Pipeline.Converted, Fatal, Agrees, Represents;
    EmptyBag<R>([]);
  }

  /** Refinement of `Input.ImportMessages`: whatever the queues hold, whoever takes from the main
      queue meanwhile, and whether the call returns, waits or ends the process, what its contract
      says of the two queues is what a run of the pipeline makes of them. `records` are those the
      messages in the main queue were made of. */
  lemma ImportMessagesIsRun<R, M>(c: Config<R>, s: Pipe<R>, i: nat, convert: R -> Pipeline.Conversion<M>, queue: seq<R>,
                                  mainQueue: seq<M>, records: seq<R>, drains: seq<nat>)
    returns (steps: seq<Action<R>>, records': seq<R>)
    requires !s.over && i < |s.inputs| && s.inputs[i] == multiset(queue) && s.main == multiset(records)
    requires Represents(convert, records, mainQueue) && Agrees(convert, c.imports, queue)
    requires MessageQueues.SmallDrains(drains)
    ensures var n := Min(|queue|, MessageQueues.MAX_QUEUE_BULK_SIZE);
            var good := Kept(c.imports, queue[..n]);
            var (mainQueue', ending) :=
              Pipeline.AfterCall(convert, queue[..n], mainQueue, c.main.max, c.main.strategy, drains);
            && Possible(c, s, steps)
            && Represents(convert, records', mainQueue')
            && Imported(s, Run(c, s, steps), i, queue[n..], Importer(queue[..n], OfferWhen(ending, good)), records',
                        LostWhen(ending, good), ending.Escaped?)
  {
    var n := Min(|queue|, MessageQueues.MAX_QUEUE_BULK_SIZE);
    assert Agrees(convert, c.imports, queue[..n]);
    assert forall good: seq<R>, k: nat ::
        OfferWhen(Pipeline.Escaped(k), good) == Before && LostWhen(Pipeline.Escaped(k), good) == multiset{};
    hide *;
    CallRepresents(convert, c.imports, queue[..n], records, mainQueue, c.main, drains);
    if Fatal(c.imports, queue[..n]) {
      steps := FatalImportIsRun(c, s, i, queue, records);
      records' := records;
    } else {
      steps := ImportIsRun(c, s, i, queue, records, drains);
      records' := AfterOffer(c.main, records, Kept(c.imports, queue[..n]), drains).0;
    }
  }

  // ---- The export loop ----

  /** While exporter `e` waits, the threads of output `o` send. */
  function OutputWait<R>(queue: seq<R>, max: nat, drains: seq<nat>, e: nat, o: nat): seq<Action<R>>
    decreases |drains|
  {
    if |queue| < max then [PollOutput(e)]
    else if drains == [] then []
    else
      var n := MessageQueues.Taken(queue, drains[0]);
      [Send(o, multiset(queue[..n]))] + OutputWait(queue[n..], max, drains[1..], e, o)
  }

  /** Only exporter `e` and output `o` have changed. */
  predicate OutputChanged<R>(s: Pipe<R>, s': Pipe<R>, e: nat, job: Exporter<R>, o: nat, queue: seq<R>,
                             lost: multiset<R>) {
    && e < |s.exporters| && o < |s.outputs| == |s'.outputs|
    && s'.exporters == s.exporters[e := job]
    && s'.outputs == s.outputs[o := s'.outputs[o]]
    && s'.outputs[o].queue == multiset(queue)
    && s'.outputs[o].refused == s.outputs[o].refused + lost
    && SameInputs(s, s') && s'.over == s.over
  }

  lemma OutputChangedTwice<R>(s: Pipe<R>, s1: Pipe<R>, s2: Pipe<R>, e: nat, job: Exporter<R>, job': Exporter<R>, o: nat,
                              queue: seq<R>, queue': seq<R>, lost: multiset<R>)
    requires OutputChanged(s, s1, e, job, o, queue, lost) && OutputChanged(s1, s2, e, job', o, queue', multiset{})
    ensures OutputChanged(s, s2, e, job', o, queue', lost)
  {
    assert s2.outputs == s.outputs[o := s2.outputs[o]];
    assert s2.exporters == s.exporters[e := job'];
  }

  predicate AtNext<R>(c: Config<R>, s: Pipe<R>, e: nat, queue: seq<R>) {
    !s.over && AtOutput(c, s, e) && s.outputs[s.exporters[e].next].queue == multiset(queue)
  }

  lemma SendChanges<R>(c: Config<R>, s: Pipe<R>, e: nat, queue: seq<R>, n: nat)
    requires AtNext(c, s, e, queue) && n <= |queue|
    ensures var o := s.exporters[e].next;
            && Enabled(c, s, Send(o, multiset(queue[..n])))
            && OutputChanged(s, Do(c, s, Send(o, multiset(queue[..n]))), e, s.exporters[e], o, queue[n..], multiset{})
  {
    SplitBag(queue, n);
    assert s.exporters[e := s.exporters[e]] == s.exporters;
  }

  lemma PollOutputChanges<R>(c: Config<R>, s: Pipe<R>, e: nat, queue: seq<R>)
    requires AtNext(c, s, e, queue) && s.exporters[e].offer.Waiting? && |queue| < c.outputs[s.exporters[e].next].max
    ensures var job := s.exporters[e];
            && Enabled(c, s, PollOutput(e))
            && OutputChanged(s, Do(c, s, PollOutput(e)), e, job.(offer := Admitted(job.offer.good)), job.next, queue,
                             multiset{})
  {
    var o := s.exporters[e].next;
    assert s.outputs[o := s.outputs[o]] == s.outputs;
  }

  lemma EnqueueOutputChanges<R>(c: Config<R>, s: Pipe<R>, e: nat, queue: seq<R>)
    requires AtNext(c, s, e, queue) && s.exporters[e].offer.Admitted?
    ensures var job := s.exporters[e];
            && Enabled(c, s, EnqueueOutput(e))
            && OutputChanged(s, Do(c, s, EnqueueOutput(e)), e, Next(job), job.next, queue + job.offer.good, multiset{})
  {
    JoinBag(queue, s.exporters[e].offer.good);
  }

  lemma {:induction false} OutputWaitIsRun<R>(c: Config<R>, s: Pipe<R>, e: nat, queue: seq<R>, drains: seq<nat>)
    requires AtNext(c, s, e, queue) && s.exporters[e].offer.Waiting?
    ensures var job := s.exporters[e];
            var max := c.outputs[job.next].max;
            var steps := OutputWait(queue, max, drains, e, job.next);
            var (waited, free) := MessageQueues.AfterWaiting(queue, max, drains);
            Possible(c, s, steps) &&
            OutputChanged(s, Run(c, s, steps), e, if free then job.(offer := Admitted(job.offer.good)) else job,
                          job.next, waited, multiset{})
    decreases |drains|
  {
    hide Do, Enabled;
    var job := s.exporters[e];
    var o := job.next;
    if |queue| < c.outputs[o].max {
      PollOutputChanges(c, s, e, queue);
      OneAction(c, s, PollOutput(e));
    } else if drains != [] {
      var n := MessageQueues.Taken(queue, drains[0]);
      SendChanges(c, s, e, queue, n);
      var next := Do(c, s, Send(o, multiset(queue[..n])));
      OutputWaitIsRun(c, next, e, queue[n..], drains[1..]);
      OneAhead(c, s, Send(o, multiset(queue[..n])), OutputWait(queue[n..], c.outputs[o].max, drains[1..], e, o));
    } else {
      NoAction(c, s);
      assert s.outputs[o := s.outputs[o]] == s.outputs && s.exporters[e := job] == s.exporters;
    }
  }

  /** From the first look at the output's queue on. */
  function AfterOfferOutput<R>(limits: Limits, queue: seq<R>, good: seq<R>, drains: seq<nat>, e: nat, o: nat)
    : seq<Action<R>>
  {
    if good == [] then []
    else if |queue| < limits.max then [EnqueueOutput(e)]
    else if limits.strategy != MessageQueues.Throttle then []
    else
      OutputWait(queue, limits.max, drains, e, o) +
      (if MessageQueues.AfterWaiting(queue, limits.max, drains).1 then [EnqueueOutput(e)] else [])
  }

  lemma OfferChanges<R>(c: Config<R>, s: Pipe<R>, e: nat, queue: seq<R>)
    requires AtNext(c, s, e, queue) && s.exporters[e].offer.Before?
    requires !Fatal(c.exports(s.exporters[e].next), s.exporters[e].bulk)
    ensures var job := s.exporters[e];
            var good := Kept(c.exports(job.next), job.bulk);
            var offer := Offered(c.outputs[job.next], |queue|, good);
            && Enabled(c, s, OfferOutput(e))
            && OutputChanged(s, Do(c, s, OfferOutput(e)), e, if offer.After? then Next(job) else job.(offer := offer),
                             job.next, queue, RefusedOf(c.outputs[job.next], |queue|, good))
  {
    hide Kept, Dropped;
  }

  /** An exporter that was offered room, or waits. */
  lemma AdmittedExport<R>(c: Config<R>, s: Pipe<R>, e: nat, queue: seq<R>, good: seq<R>, drains: seq<nat>)
    requires AtNext(c, s, e, queue) && good != []
    requires s.exporters[e].offer == Offered(c.outputs[s.exporters[e].next], |queue|, good) &&
             !s.exporters[e].offer.After?
    ensures var job := s.exporters[e];
            var limits := c.outputs[job.next];
            var steps := AfterOfferOutput(limits, queue, good, drains, e, job.next);
            var (queue', status) := AfterOffer(limits, queue, good, drains);
            Possible(c, s, steps) &&
            OutputChanged(s, Run(c, s, steps), e, if status.Blocked? then job.(offer := Waiting(good)) else Next(job),
                          job.next, queue', multiset{})
  {
    hide Do, Enabled, Possible, Run, OutputWait;
    var job := s.exporters[e];
    var limits, o := c.outputs[job.next], job.next;
    if |queue| < limits.max {
      EnqueueOutputChanges(c, s, e, queue);
      OneAction(c, s, EnqueueOutput(e));
    } else {
      OutputWaitIsRun(c, s, e, queue, drains);
      var wait := OutputWait(queue, limits.max, drains, e, o);
      var (waited, free) := MessageQueues.AfterWaiting(queue, limits.max, drains);
      var s1 := Run(c, s, wait);
      if free {
        EnqueueOutputChanges(c, s1, e, waited);
        OneAction(c, s1, EnqueueOutput(e));
        RunAppend(c, s, wait, [EnqueueOutput(e)]);
        OutputChangedTwice(s, s1, Do(c, s1, EnqueueOutput(e)), e, job.(offer := Admitted(good)), Next(job), o,
                           waited, waited + good, multiset{});
      } else {
        assert wait + [] == wait;
      }
    }
  }

  function JobAfter<R>(job: Exporter<R>, status: MessageQueues.Status, good: seq<R>): Exporter<R> {
    if status.Blocked? then job.(offer := Waiting(good)) else Next(job)
  }

  /** One output gets the bulk. */
  lemma ExportOneIsRun<R>(c: Config<R>, s: Pipe<R>, e: nat, queue: seq<R>, drains: seq<nat>)
      returns (steps: seq<Action<R>>)
    requires AtNext(c, s, e, queue) && s.exporters[e].offer.Before?
    requires !Fatal(c.exports(s.exporters[e].next), s.exporters[e].bulk)
    ensures var job := s.exporters[e];
            var good := Kept(c.exports(job.next), job.bulk);
            var (queue', status) := AfterOffer(c.outputs[job.next], queue, good, drains);
            Possible(c, s, steps) &&
            OutputChanged(s, Run(c, s, steps), e, JobAfter(job, status, good), job.next, queue', Lost(status, good))
  {
    hide Do, Enabled, Possible, Run, Kept, Fatal, AfterOfferOutput;
    var job := s.exporters[e];
    var limits, good := c.outputs[job.next], Kept(c.exports(job.next), job.bulk);
    OfferChanges(c, s, e, queue);
    var s1 := Do(c, s, OfferOutput(e));
    LostIsRefused(limits, queue, good, drains);
    if Offered(limits, |queue|, good).After? {
      steps := [OfferOutput(e)];
      OneAction(c, s, OfferOutput(e));
    } else {
      var rest := AfterOfferOutput(limits, queue, good, drains, e, job.next);
      AdmittedExport(c, s1, e, queue, good, drains);
      OneAhead(c, s, OfferOutput(e), rest);
      steps := [OfferOutput(e)] + rest;
      var (queue', status) := AfterOffer(limits, queue, good, drains);
      OutputChangedTwice(s, s1, Run(c, s1, rest), e, s1.exporters[e], JobAfter(job, status, good), job.next, queue,
                         queue', Lost(status, good));
    }
  }

  /** What a turn makes of output `k`: its queue held `queue`, and was offered the bulk. */
  predicate OutputGot<R>(c: Config<R>, s: Pipe<R>, s': Pipe<R>, k: nat, bulk: seq<R>, queue: seq<R>, drains: seq<nat>) {
    && k < |c.outputs| == |s.outputs| == |s'.outputs|
    && var good := Kept(c.exports(k), bulk);
       var (queue', status) := AfterOffer(c.outputs[k], queue, good, drains);
       && s'.outputs[k].queue == multiset(queue')
       && s'.outputs[k].refused == s.outputs[k].refused + Lost(status, good)
  }

  /** The queue of output `k` holds `queue`. */
  predicate Ready<R>(c: Config<R>, s: Pipe<R>, k: nat, queue: seq<R>) {
    k < |c.outputs| == |s.outputs| && s.outputs[k].queue == multiset(queue)
  }

  /** Where a turn ends that has got to output `k`: how many outputs it has reached, how far its
      bulk has got, and whether it has ended the process. */
  datatype Stop<R> = Stop(reached: nat, job: Exporter<R>, over: bool)

  function StopFrom<R>(c: Config<R>, bulk: seq<R>, queues: seq<seq<R>>, drains: seq<seq<nat>>, k: nat): (stop: Stop<R>)
    requires k <= |c.outputs| == |queues| == |drains|
    ensures k <= stop.reached <= |c.outputs|
    decreases |c.outputs| - k
  {
    if k == |c.outputs| then Stop(k, Exporter(bulk, k, Before), false)
    else if Fatal(c.exports(k), bulk) then Stop(k, Exporter(bulk, k, Before), true)
    else
      var good := Kept(c.exports(k), bulk);
      var status := AfterOffer(c.outputs[k], queues[k], good, drains[k]).1;
      if status.Blocked? then Stop(k + 1, Exporter(bulk, k, Waiting(good)), false)
      else StopFrom(c, bulk, queues, drains, k + 1)
  }

  /** The bulk of exporter `e` went to the outputs from `o` on, as far as it got. */
  predicate Exported<R>(c: Config<R>, s: Pipe<R>, s': Pipe<R>, e: nat, bulk: seq<R>, o: nat, queues: seq<seq<R>>,
                        drains: seq<seq<nat>>) {
    && e < |s.exporters| && o <= |s'.outputs| == |s.outputs| == |queues| == |drains| == |c.outputs|
    && var stop := StopFrom(c, bulk, queues, drains, o);
       && s'.exporters == s.exporters[e := stop.job] && s'.over == stop.over
       && (forall k :: 0 <= k < |s.outputs| && !(o <= k < stop.reached) ==> s'.outputs[k] == s.outputs[k])
       && (forall k :: o <= k < stop.reached ==> OutputGot(c, s, s', k, bulk, queues[k], drains[k]))
       && SameInputs(s, s')
  }

  lemma ExportedMore<R>(c: Config<R>, s: Pipe<R>, s1: Pipe<R>, s2: Pipe<R>, e: nat, bulk: seq<R>, o: nat,
                        queues: seq<seq<R>>, drains: seq<seq<nat>>)
    requires o < |queues| == |drains| == |c.outputs| && !Fatal(c.exports(o), bulk)
    requires var good := Kept(c.exports(o), bulk);
             var (queue', status) := AfterOffer(c.outputs[o], queues[o], good, drains[o]);
             && !status.Blocked?
             && OutputChanged(s, s1, e, Exporter(bulk, o + 1, Before), o, queue', Lost(status, good))
    requires Exported(c, s1, s2, e, bulk, o + 1, queues, drains)
    ensures Exported(c, s, s2, e, bulk, o, queues, drains)
  {
    hide Kept, AfterOffer, Lost, Fatal;
    var stop := StopFrom(c, bulk, queues, drains, o);
    assert stop == StopFrom(c, bulk, queues, drains, o + 1);
    assert s2.exporters == s.exporters[e := stop.job];
    forall k | o <= k < stop.reached ensures OutputGot(c, s, s2, k, bulk, queues[k], drains[k]) {
      assert k > o ==> OutputGot(c, s1, s2, k, bulk, queues[k], drains[k]) && s1.outputs[k] == s.outputs[k];
    }
  }

  /** A turn that ends with an output it still waits for. */
  lemma ExportedWaiting<R>(c: Config<R>, s: Pipe<R>, s1: Pipe<R>, e: nat, bulk: seq<R>, o: nat, queues: seq<seq<R>>,
                           drains: seq<seq<nat>>)
    requires o < |queues| == |drains| == |c.outputs| == |s.outputs| && !s.over && !Fatal(c.exports(o), bulk)
    requires var good := Kept(c.exports(o), bulk);
             var (queue', status) := AfterOffer(c.outputs[o], queues[o], good, drains[o]);
             && status.Blocked?
             && OutputChanged(s, s1, e, Exporter(bulk, o, Waiting(good)), o, queue', Lost(status, good))
    ensures Exported(c, s, s1, e, bulk, o, queues, drains)
  {
    hide Kept, AfterOffer, Lost, Fatal;
    assert OutputGot(c, s, s1, o, bulk, queues[o], drains[o]);
  }

  /** A turn that ends the process. */
  lemma FatalExport<R>(c: Config<R>, s: Pipe<R>, e: nat, bulk: seq<R>, o: nat, queues: seq<seq<R>>,
                       drains: seq<seq<nat>>)
    requires !s.over && o < |queues| == |drains| == |c.outputs| == |s.outputs|
    requires e < |s.exporters| && s.exporters[e] == Exporter(bulk, o, Before) && Fatal(c.exports(o), bulk)
    ensures Enabled(c, s, OfferOutput(e))
    ensures Exported(c, s, Do(c, s, OfferOutput(e)), e, bulk, o, queues, drains)
  {
    hide Kept, Dropped, Fatal;
    assert s.exporters[e := s.exporters[e]] == s.exporters;
  }

  /** The outputs get the bulk one after the other. */
  lemma {:induction false} ExportAllIsRun<R>(c: Config<R>, s: Pipe<R>, e: nat, bulk: seq<R>, o: nat,
                                             queues: seq<seq<R>>, drains: seq<seq<nat>>)
      returns (steps: seq<Action<R>>)
    requires !s.over && |s.outputs| == |queues| == |drains| == |c.outputs| && o <= |s.outputs|
    requires e < |s.exporters| && s.exporters[e] == Exporter(bulk, o, Before)
    requires forall k :: o <= k < |s.outputs| ==> Ready(c, s, k, queues[k])
    ensures Possible(c, s, steps) && Exported(c, s, Run(c, s, steps), e, bulk, o, queues, drains)
    decreases |s.outputs| - o
  {
    hide Do, Enabled, Possible, Run, Kept, AfterOffer, Lost, Fatal, Exported, OutputGot;
    if o == |s.outputs| {
      steps := [];
      NoAction(c, s);
      NothingExported(c, s, e, bulk, queues, drains);
    } else if Fatal(c.exports(o), bulk) {
      FatalExport(c, s, e, bulk, o, queues, drains);
      steps := [OfferOutput(e)];
      OneAction(c, s, OfferOutput(e));
    } else {
      assert Ready(c, s, o, queues[o]);
      var first := ExportOneIsRun(c, s, e, queues[o], drains[o]);
      var s1 := Run(c, s, first);
      if AfterOffer(c.outputs[o], queues[o], Kept(c.exports(o), bulk), drains[o]).1.Blocked? {
        ExportedWaiting(c, s, s1, e, bulk, o, queues, drains);
        steps := first;
      } else {
        forall k | o + 1 <= k < |s1.outputs| ensures Ready(c, s1, k, queues[k]) {
          assert Ready(c, s, k, queues[k]);
        }
        var rest := ExportAllIsRun(c, s1, e, bulk, o + 1, queues, drains);
        RunAppend(c, s, first, rest);
        ExportedMore(c, s, s1, Run(c, s1, rest), e, bulk, o, queues, drains);
        steps := first + rest;
      }
    }
  }

  lemma NothingExported<R>(c: Config<R>, s: Pipe<R>, e: nat, bulk: seq<R>, queues: seq<seq<R>>, drains: seq<seq<nat>>)
    requires !s.over && |s.outputs| == |queues| == |drains| == |c.outputs|
    requires e < |s.exporters| && s.exporters[e] == Exporter(bulk, |s.outputs|, Before)
    ensures Exported(c, s, s, e, bulk, |s.outputs|, queues, drains)
  {
    assert s.exporters[e := s.exporters[e]] == s.exporters;
  }

  lemma TakeStarts<R>(c: Config<R>, s: Pipe<R>, main: seq<R>, n: nat)
    requires !s.over && s.main == multiset(main) && n <= |main| && n <= MessageQueues.MAX_QUEUE_BULK_SIZE
    ensures Enabled(c, s, Take(main[..n]))
    ensures var s1 := Do(c, s, Take(main[..n]));
            && s1.main == multiset(main[n..]) && s1.outputs == s.outputs && !s1.over
            && s1.exporters == s.exporters + [Exporter(main[..n], 0, Before)]
  {
    SplitBag(main, n);
  }

  /** One turn of the export loop, on records. */
  lemma ExportIsRun<R>(c: Config<R>, s: Pipe<R>, main: seq<R>, queues: seq<seq<R>>, drains: seq<seq<nat>>)
    returns (steps: seq<Action<R>>)
    requires !s.over && |s.outputs| == |queues| == |drains| == |c.outputs| && s.main == multiset(main)
    requires forall k :: 0 <= k < |s.outputs| ==> Ready(c, s, k, queues[k])
    ensures var n := Min(MessageQueues.MAX_QUEUE_BULK_SIZE, |main|);
            var stop := StopFrom(c, main[..n], queues, drains, 0);
            && Possible(c, s, steps)
            && var s' := Run(c, s, steps);
               && s'.main == multiset(main[n..])
               && s'.exporters == s.exporters + [stop.job] && s'.over == stop.over
               && |s'.outputs| == |s.outputs|
               && (forall k :: 0 <= k < stop.reached ==> OutputGot(c, s, s', k, main[..n], queues[k], drains[k]))
               && (forall k :: stop.reached <= k < |s.outputs| ==> s'.outputs[k] == s.outputs[k])
  {
    hide Do, Enabled, Possible, Run, Kept, AfterOffer, Lost, StopFrom;
    var n := Min(MessageQueues.MAX_QUEUE_BULK_SIZE, |main|);
    var bulk := main[..n];
    TakeStarts(c, s, main, n);
    var s1 := Do(c, s, Take(bulk));
    forall k | 0 <= k < |s1.outputs| ensures Ready(c, s1, k, queues[k]) {
      assert Ready(c, s, k, queues[k]);
    }
    var rest := ExportAllIsRun(c, s1, |s.exporters|, bulk, 0, queues, drains);
    OneAhead(c, s, Take(bulk), rest);
    steps := [Take(bulk)] + rest;
    var s', stop := Run(c, s1, rest), StopFrom(c, bulk, queues, drains, 0);
    assert s'.exporters == s.exporters + [stop.job];
    forall k | 0 <= k < stop.reached ensures OutputGot(c, s, s', k, bulk, queues[k], drains[k]) {
      assert OutputGot(c, s1, s', k, bulk, queues[k], drains[k]);
    }
  }

  /** Output `k` of the program and of the pipeline: the same limits and conversion, and a queue
      of messages that were made of `records`. */
  predicate Matches<R, M(0), U(0,==)>(
      c: Config<R>, s: Pipe<R>, k: nat, imports: R -> Pipeline.Conversion<M>, out: Pipeline.Output<M, U>,
      bulk: seq<R>, records: seq<R>, queue: seq<U>) {
    && k < |c.outputs| == |s.outputs|
    && c.outputs[k] == Limits(out.queue.maxSize, out.queue.strategy)
    && Agrees(Through(imports, out.convert), c.exports(k), bulk)
    && Represents(Through(imports, out.convert), records, queue)
    && Ready(c, s, k, records)
  }

  /** What a call of output `k` makes of its queue, and how it ends, as records and as messages. */
  lemma OutputRepresents<R, M(0), U(0)>(
      c: Config<R>, s: Pipe<R>, k: nat, imports: R -> Pipeline.Conversion<M>, out: Pipeline.Output<M, U>,
      bulk: seq<R>, messages: seq<M>, records: seq<R>, queue: seq<U>, drains: seq<nat>)
    requires Matches(c, s, k, imports, out, bulk, records, queue) && Represents(imports, bulk, messages)
    ensures var (queue', ending) := out.AfterBulk(queue, messages, drains);
            var (records', status) := AfterOffer(c.outputs[k], records, Kept(c.exports(k), bulk), drains);
            && (ending.Escaped? <==> Fatal(c.exports(k), bulk))
            && (!ending.Escaped? ==>
                  Represents(Through(imports, out.convert), records', queue') &&
                      (ending.StillWaiting? <==> status.Blocked?))
  {
    var through := Through(imports, out.convert);
    ConvertedThrough(imports, out.convert, bulk, messages);
    EscapeThrough(imports, out.convert, bulk, messages);
    assert out.AfterBulk(queue, messages, drains).0 ==
        Pipeline.AfterCall(through, bulk, queue, c.outputs[k].max, c.outputs[k].strategy, drains).0;
    assert out.AfterBulk(queue, messages, drains).1.Escaped? ==
        Pipeline.AfterCall(through, bulk, queue, c.outputs[k].max, c.outputs[k].strategy, drains).1.Escaped?;
    assert out.AfterBulk(queue, messages, drains).1.StillWaiting? ==
        Pipeline.AfterCall(through, bulk, queue, c.outputs[k].max, c.outputs[k].strategy, drains).1.StillWaiting?;
    assert forall status: MessageQueues.Status, ending: Pipeline.Ending, good: seq<R> ::
        OfferAfter(status, good) == OfferWhen(ending, good) ==> (ending.StillWaiting? <==> status.Blocked?);
    hide *;
    CallRepresents(through, c.exports(k), bulk, records, queue, c.outputs[k], drains);
  }

  /** All outputs match. */
  predicate AllMatch<R, M(0), U(0,==)>(
      c: Config<R>, s: Pipe<R>, imports: R -> Pipeline.Conversion<M>, outs: seq<Pipeline.Output<M, U>>,
      bulk: seq<R>, records: seq<seq<R>>, queues: seq<seq<U>>) {
    && |s.outputs| == |outs| == |records| == |queues| == |c.outputs|
    && forall k :: 0 <= k < |outs| ==> Matches(c, s, k, imports, outs[k], bulk, records[k], queues[k])
  }

  /** The turn reaches as many outputs with messages as with records. */
  lemma {:induction false} ReachedAgrees<R, M(0), U(0)>(
      c: Config<R>, s: Pipe<R>, imports: R -> Pipeline.Conversion<M>, server: Pipeline.OutputServer<M, U>,
      bulk: seq<R>, messages: seq<M>, records: seq<seq<R>>, queues: seq<seq<U>>, drains: seq<seq<nat>>, k: nat)
    requires AllMatch(c, s, imports, server.outputs, bulk, records, queues) && Represents(imports, bulk, messages)
    requires k <= |drains| == |server.outputs|
    ensures StopFrom(c, bulk, records, drains, k).reached == server.Reached(queues, messages, drains, k)
    decreases |drains| - k
  {
    hide Kept, AfterOffer, Fatal, Matches, Represents, Pipeline.AfterCall, Pipeline.Output.AfterBulk;
    if k < |drains| {
      OutputRepresents(c, s, k, imports, server.outputs[k], bulk, messages, records[k], queues[k], drains[k]);
      ReachedAgrees(c, s, imports, server, bulk, messages, records, queues, drains, k + 1);
    }
  }

  /** Before the output at which the turn stops, no call ends the process. */
  lemma {:induction false} ReachedNotFatal<R>(c: Config<R>, bulk: seq<R>, queues: seq<seq<R>>, drains: seq<seq<nat>>,
                                              k: nat, i: nat)
    requires k <= |c.outputs| == |queues| == |drains|
    requires k <= i < StopFrom(c, bulk, queues, drains, k).reached
    ensures !Fatal(c.exports(i), bulk)
    decreases |c.outputs| - k
  {
    hide Fatal, AfterOffer, Kept;
    if k < i {
      ReachedNotFatal(c, bulk, queues, drains, k + 1, i);
    }
  }

  /** Refinement of `OutputServer.ExportBulk`: however the calls of the outputs end, what its contract
      says of the main queue and of the outputs' queues is what a run of the pipeline makes of them. */
  lemma ExportBulkIsRun<R, M(0), U(0)>(
      c: Config<R>, s: Pipe<R>, imports: R -> Pipeline.Conversion<M>, server: Pipeline.OutputServer<M, U>,
      main: seq<R>, mainQueue: seq<M>, records: seq<seq<R>>, queues: seq<seq<U>>, drains: seq<seq<nat>>)
    returns (steps: seq<Action<R>>, records': seq<seq<R>>)
    requires !s.over && s.main == multiset(main) && Represents(imports, main, mainQueue)
    requires |drains| == |server.outputs|
    requires AllMatch(c, s, imports, server.outputs, main[..Min(MessageQueues.MAX_QUEUE_BULK_SIZE, |main|)], records,
                      queues)
    ensures var n := Min(MessageQueues.MAX_QUEUE_BULK_SIZE, |mainQueue|);
            var reached := server.Reached(queues, mainQueue[..n], drains, 0);
            && Possible(c, s, steps) && |records'| == |server.outputs|
            && var s' := Run(c, s, steps);
               && s'.main == multiset(main[n..]) && Represents(imports, main[n..], mainQueue[n..])
               && |s'.outputs| == |server.outputs|
               && forall k :: 0 <= k < |server.outputs| ==>
                    && s'.outputs[k].queue == multiset(records'[k])
                    && Represents(Through(imports, server.outputs[k].convert), records'[k],
                                  if k < reached
                                  then server.outputs[k].AfterBulk(queues[k], mainQueue[..n], drains[k]).0
                                  else queues[k])
  {
    hide Do, Enabled, Possible, Run, Kept, Fatal, AfterOffer, Lost, StopFrom, Pipeline.AfterCall, Agrees, Ready,
         Pipeline.Output.AfterBulk, Pipeline.OutputServer.Reached;
    var n := Min(MessageQueues.MAX_QUEUE_BULK_SIZE, |main|);
    var bulk, messages := main[..n], mainQueue[..n];
    assert forall k :: 0 <= k < |server.outputs| ==>
        Matches(c, s, k, imports, server.outputs[k], bulk, records[k], queues[k]) && Ready(c, s, k, records[k]);
    steps := ExportIsRun(c, s, main, records, drains);
    var stop := StopFrom(c, bulk, records, drains, 0);
    ReachedAgrees(c, s, imports, server, bulk, messages, records, queues, drains, 0);
    records' := seq(|records|, k requires 0 <= k < |records| =>
      if k < stop.reached then AfterOffer(c.outputs[k], records[k], Kept(c.exports(k), bulk), drains[k]).0
          else records[k]);
    var s' := Run(c, s, steps);
    forall k | 0 <= k < |server.outputs|
      ensures |s'.outputs| == |server.outputs| && s'.outputs[k].queue == multiset(records'[k])
      ensures Represents(Through(imports, server.outputs[k].convert), records'[k],
                         if k < stop.reached then server.outputs[k].AfterBulk(queues[k], messages, drains[k]).0
                         else queues[k])
    {
      if k < stop.reached {
        assert OutputGot(c, s, s', k, bulk, records[k], drains[k]);
        ReachedNotFatal(c, bulk, records, drains, 0, k);
        OutputRepresents(c, s, k, imports, server.outputs[k], bulk, messages, records[k], queues[k], drains[k]);
      } else {
        ReadyHolds(c, s, k, records[k]);
      }
    }
  }

  lemma ReadyHolds<R>(c: Config<R>, s: Pipe<R>, k: nat, queue: seq<R>)
    requires Ready(c, s, k, queue)
    ensures k < |s.outputs| && s.outputs[k].queue == multiset(queue)
  {
  }
}
