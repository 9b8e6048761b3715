/** From the input queues through the main queue to every output: conversion, compaction,
    broadcast, and where every record goes. */
module Pipeline {
  import opened Common
  import opened MessageQueues

  // ---- One bulk ----

  /** What converting a record comes to: a message, an exception the loops handle, or one of the
      standard library's that they do not. */
  datatype Conversion<+M> = Message(value: M) | Handled | Escaping

  /** How a call ends: it returns, and tells whether anything was enqueued; it still waits for room;
      or an exception has left it at a record, and the process is over. */
  datatype Ending = Returned(enqueued: bool) | StillWaiting | Escaped(at: nat)

  /** The converted records of a bulk; those whose exception is handled are left out. */
  function Converted<R, M>(convert: R -> Conversion<M>, bulk: seq<R>): (r: seq<M>)
    ensures |r| <= |bulk|
  {
    if bulk == [] then [] else
      var before := Converted(convert, bulk[..|bulk| - 1]);
      match convert(bulk[|bulk| - 1])
      case Message(m) => before + [m]
      case _ => before
  }

  /** The first record whose exception is not handled, or the end of the bulk. */
  function FirstEscape<R, M>(convert: R -> Conversion<M>, bulk: seq<R>): (k: nat)
    ensures k <= |bulk|
  {
    if bulk == [] || convert(bulk[0]).Escaping? then 0 else 1 + FirstEscape(convert, bulk[1..])
  }

  lemma {:induction false} FirstEscapeFinds<R, M>(convert: R -> Conversion<M>, bulk: seq<R>)
    ensures var k := FirstEscape(convert, bulk);
            && (forall i :: 0 <= i < k ==> !convert(bulk[i]).Escaping?)
            && (k < |bulk| ==> convert(bulk[k]).Escaping?)
  {
    if bulk != [] && !convert(bulk[0]).Escaping? {
      FirstEscapeFinds(convert, bulk[1..]);
    }
  }

  lemma FirstEscapeUnique<R, M>(convert: R -> Conversion<M>, bulk: seq<R>, k: nat)
    requires k <= |bulk| && forall i :: 0 <= i < k ==> !convert(bulk[i]).Escaping?
    requires k < |bulk| ==> convert(bulk[k]).Escaping?
    ensures FirstEscape(convert, bulk) == k
  {
    FirstEscapeFinds(convert, bulk);
  }

  /** What one call makes of the queue it hands the bulk to, and how it ends. */
  function AfterCall<R, M>(convert: R -> Conversion<M>, bulk: seq<R>, contents: seq<M>, max: nat, strategy: Strategy,
                           drains: seq<nat>): (seq<M>, Ending)
  {
    if FirstEscape(convert, bulk) < |bulk| then (contents, Escaped(FirstEscape(convert, bulk)))
    else if Converted(convert, bulk) == [] then (contents, Returned(false))
    else
      var (after, status) := AfterEnqueue(contents, max, strategy, Converted(convert, bulk), drains);
      (after, if status.Blocked? then StillWaiting else Returned(status.Enqueued?))
  }

  /** Which bulks get through: to a queue with room, a call hands on the converted records of the
      bulk, where there are any, if and only if no exception of the bulk's conversions escapes.
      One that does keeps all other records of the bulk from being handed on. */
  lemma HandedOnIff<R, M>(convert: R -> Conversion<M>, bulk: seq<R>, contents: seq<M>, max: nat, strategy: Strategy,
                          drains: seq<nat>)
    requires |contents| < max && Converted(convert, bulk) != []
    ensures var (after, ending) := AfterCall(convert, bulk, contents, max, strategy, drains);
            && (after == contents + Converted(convert, bulk) <==> forall i :: 0 <= i < |bulk| ==>
                !convert(bulk[i]).Escaping?)
            && (after == contents <==> ending.Escaped?)
  {
    FirstEscapeFinds(convert, bulk);
    assert |contents + Converted(convert, bulk)| > |contents|;
  }

  /** One input with its thread-local buffers. */
  class Input<R(0), M(0)> {
    const queue: MessageQueue<R>
    const convert: R -> Conversion<M>
    const recordBuffer: array<R>
    const messageBuffer: array<M>
    var receiveCounter: nat

    constructor (queue: MessageQueue<R>, convert: R -> Conversion<M>)
      ensures this.queue == queue && this.convert == convert && receiveCounter == 0
      ensures recordBuffer.Length == messageBuffer.Length == MAX_QUEUE_BULK_SIZE
      ensures fresh(recordBuffer) && fresh(messageBuffer)
    {
      this.queue, this.convert, receiveCounter := queue, convert, 0;
      recordBuffer, messageBuffer := new R[MAX_QUEUE_BULK_SIZE], new M[MAX_QUEUE_BULK_SIZE];
    }

    /** Dequeues a bulk, converts it in place of the last one and hands it to the main queue.
        Neither buffer is overrun, and the main queue gets exactly the converted records, or
        nothing if an exception escapes. */
    method ImportMessages(mainQueue: MessageQueue<M>, drains: seq<nat>) returns (imported: nat, ending: Ending)
      requires recordBuffer.Length == messageBuffer.Length == MAX_QUEUE_BULK_SIZE
      requires queue as object != mainQueue && recordBuffer as object != messageBuffer
      modifies this`receiveCounter, queue, recordBuffer, messageBuffer, mainQueue
      ensures var bulk := old(queue.contents)[..Min(|old(queue.contents)|, MAX_QUEUE_BULK_SIZE)];
              && queue.contents == old(queue.contents)[|bulk|..]
              && (mainQueue.contents, ending) ==
                 AfterCall(convert, bulk, old(mainQueue.contents), mainQueue.maxSize, mainQueue.strategy, drains)
              && imported == (if ending.Escaped? then 0 else |Converted(convert, bulk)|)
              && receiveCounter == old(receiveCounter) + imported
    {
      var count := queue.TryDequeueBulk(recordBuffer, MAX_QUEUE_BULK_SIZE);
      ghost var bulk := recordBuffer[..count];
      var j, k := 0, 0;
      while j < count
        invariant j <= count && k <= j
        invariant recordBuffer[..count] == bulk
        invariant messageBuffer[..k] == Converted(convert, bulk[..j])
        invariant forall i :: 0 <= i < j ==> !convert(bulk[i]).Escaping?
        invariant mainQueue.contents == old(mainQueue.contents) && queue.contents == old(queue.contents)[count..]
        invariant receiveCounter == old(receiveCounter)
        decreases count - j
      {
        assert bulk[..j + 1][..j] == bulk[..j];
        var message := convert(recordBuffer[j]);
        if message.Escaping? {
          FirstEscapeUnique(convert, bulk, j);
          return 0, Escaped(j);
        } else if message.Message? {
          messageBuffer[k] := message.value;
          assert messageBuffer[..k + 1] == messageBuffer[..k] + [message.value];
          k := k + 1;
        }
        j := j + 1;
      }
      assert bulk[..j] == bulk;
      FirstEscapeUnique(convert, bulk, count);
      imported, ending := k, Returned(false);
      if k > 0 {
        receiveCounter := receiveCounter + k;
        var status := mainQueue.EnqueueBulk(messageBuffer[..k], drains);
        ending := if status == Blocked then StillWaiting else Returned(status == Enqueued);
      }
    }
  }

  /** One output: its own conversion, buffer and queue. */
  class Output<M(0), U(0)> {
    const queue: MessageQueue<U>
    const convert: M -> Conversion<U>
    const buffer: array<U>

    constructor (queue: MessageQueue<U>, convert: M -> Conversion<U>)
      ensures this.queue == queue && this.convert == convert
      ensures buffer.Length == MAX_QUEUE_BULK_SIZE && fresh(buffer)
    {
      this.queue, this.convert := queue, convert;
      buffer := new U[MAX_QUEUE_BULK_SIZE];
    }

    /** What a call with the bulk makes of the queue, and how it ends. */
    ghost function AfterBulk(contents: seq<U>, bulk: seq<M>, drains: seq<nat>): (seq<U>, Ending) {
      AfterCall(convert, bulk, contents, queue.maxSize, queue.strategy, drains)
    }

    lemma NothingGiven(contents: seq<U>, drains: seq<nat>)
      ensures AfterBulk(contents, [], drains) == (contents, Returned(false))
    {
    }

    method ImportMessages(messages: array<M>, count: nat, drains: seq<nat>) returns (ending: Ending)
      requires buffer.Length == MAX_QUEUE_BULK_SIZE && count <= messages.Length && count <= MAX_QUEUE_BULK_SIZE
      requires messages as object != buffer
      modifies queue, buffer
      ensures messages[..] == old(messages[..])
      ensures (queue.contents, ending) == AfterBulk(old(queue.contents), messages[..count], drains)
    {
      ghost var bulk := messages[..count];
      var imported := 0;
      for i := 0 to count
        invariant imported <= i
        invariant buffer[..imported] == Converted(convert, bulk[..i])
        invariant forall k :: 0 <= k < i ==> !convert(bulk[k]).Escaping?
        invariant queue.contents == old(queue.contents) && messages[..] == old(messages[..]) && messages[..count] ==
                  bulk
      {
        assert bulk[..i + 1][..i] == bulk[..i];
        var record := convert(messages[i]);
        if record.Escaping? {
          FirstEscapeUnique(convert, bulk, i);
          return Escaped(i);
        } else if record.Message? {
          buffer[imported] := record.value;
          assert buffer[..imported + 1] == buffer[..imported] + [record.value];
          imported := imported + 1;
        }
      }
      assert bulk[..count] == bulk;
      FirstEscapeUnique(convert, bulk, count);
      if imported > 0 {
        var status := queue.EnqueueBulk(buffer[..imported], drains);
        ending := if status == Blocked then StillWaiting else Returned(status == Enqueued);
      } else {
        ending := Returned(false);
      }
    }
  }

  /** The export loop: every bulk of the main queue goes to all outputs. */
  class OutputServer<M(0), U(0)> {
    const outputs: seq<Output<M, U>>
    const messageBuffer: array<M>

    constructor (outputs: seq<Output<M, U>>)
      ensures this.outputs == outputs && messageBuffer.Length == MAX_QUEUE_BULK_SIZE && fresh(messageBuffer)
    {
      this.outputs := outputs;
      messageBuffer := new M[MAX_QUEUE_BULK_SIZE];
    }

    ghost predicate Valid()
      reads set i | 0 <= i < |outputs| :: outputs[i]
    {
      && messageBuffer.Length == MAX_QUEUE_BULK_SIZE
      && (forall i :: 0 <= i < |outputs| ==>
            outputs[i].buffer.Length == MAX_QUEUE_BULK_SIZE && outputs[i].buffer as object != messageBuffer)
      && (forall i, j :: 0 <= i < j < |outputs| ==> outputs[i].queue != outputs[j].queue)
    }

    ghost function Frame(): set<object> {
      (set i | 0 <= i < |outputs| :: outputs[i].queue as object) +
      (set i | 0 <= i < |outputs| :: outputs[i].buffer as object)
    }

    /** What output `i` has after the outputs before `done` got the bulk. */
    ghost predicate Given(i: nat, done: nat, before: seq<seq<U>>, bulk: seq<M>, drains: seq<seq<nat>>)
      requires i < |outputs| == |before| == |drains|
      reads outputs[i].queue
    {
      outputs[i].queue.contents == if i < done then outputs[i].AfterBulk(before[i], bulk, drains[i]).0 else before[i]
    }

    /** How many outputs, from `i` on, the bulk reaches: a call that still waits holds it up behind
        its output, an exception that escapes before it. */
    ghost function Reached(before: seq<seq<U>>, bulk: seq<M>, drains: seq<seq<nat>>, i: nat): (n: nat)
      requires i <= |outputs| == |before| == |drains|
      ensures i <= n <= |outputs|
      decreases |outputs| - i
    {
      if i == |outputs| then i
      else match outputs[i].AfterBulk(before[i], bulk, drains[i]).1
        case Returned(_) => Reached(before, bulk, drains, i + 1)
        case StillWaiting => i + 1
        case Escaped(_) => i
    }

    /** One output gets the bulk; the others keep what they have. */
    method ExportTo(i: nat, count: nat, ghost before: seq<seq<U>>, drains: seq<seq<nat>>) returns (ending: Ending)
      requires Valid() && i < |outputs| == |before| == |drains| && count <= MAX_QUEUE_BULK_SIZE
      requires forall k :: 0 <= k < |outputs| ==> Given(k, i, before, messageBuffer[..count], drains)
      modifies outputs[i].queue, outputs[i].buffer
      ensures messageBuffer[..] == old(messageBuffer[..])
      ensures ending == outputs[i].AfterBulk(before[i], messageBuffer[..count], drains[i]).1
      ensures var done := if ending.Escaped? then i else i + 1;
              forall k :: 0 <= k < |outputs| ==> Given(k, done, before, messageBuffer[..count], drains)
    {
      ghost var bulk := messageBuffer[..count];
      assert Given(i, i, before, bulk, drains);
      ending := outputs[i].ImportMessages(messageBuffer, count, drains[i]);
      assert messageBuffer[..count] == bulk;
      assert ending.Escaped? ==> outputs[i].queue.contents == before[i];
      hide AfterCall, Converted;
      ghost var done := if ending.Escaped? then i else i + 1;
      forall k | 0 <= k < |outputs| ensures Given(k, done, before, bulk, drains) {
        if k < i {
          assert outputs[k].queue != outputs[i].queue;
        } else if i < k {
          assert outputs[i].queue != outputs[k].queue;
        }
        assert old(Given(k, i, before, bulk, drains));
      }
    }

    /** One output after the other gets the bulk, as long as their calls return. */
    method ExportToAll(count: nat, ghost before: seq<seq<U>>, drains: seq<seq<nat>>) returns (reached: nat)
      requires Valid() && |outputs| == |before| == |drains| && count <= MAX_QUEUE_BULK_SIZE
      requires forall k :: 0 <= k < |outputs| ==> Given(k, 0, before, messageBuffer[..count], drains)
      modifies Frame()
      ensures messageBuffer[..] == old(messageBuffer[..])
      ensures reached == Reached(before, messageBuffer[..count], drains, 0)
      ensures forall k :: 0 <= k < |outputs| ==> Given(k, reached, before, messageBuffer[..count], drains)
    {
      hide Given, AfterCall;
      reached := 0;
      while reached < |outputs|
        invariant reached <= |outputs| && messageBuffer[..] == old(messageBuffer[..])
        invariant Reached(before, messageBuffer[..count], drains, reached) ==
                  Reached(before, messageBuffer[..count], drains, 0)
        invariant forall k :: 0 <= k < |outputs| ==> Given(k, reached, before, messageBuffer[..count], drains)
        decreases |outputs| - reached
      {
        assert outputs[reached].queue in Frame() && outputs[reached].buffer in Frame();
        var ending := ExportTo(reached, count, before, drains);
        match ending
        case Escaped(_) => return;
        case StillWaiting => return reached + 1;
        case Returned(_) => reached := reached + 1;
      }
    }

    /** One turn of the loop. `drains[i]` is what consumers of output `i` take while it waits. */
    method ExportBulk(mainQueue: MessageQueue<M>, drains: seq<seq<nat>>) returns (count: nat, reached: nat)
      requires Valid() && |drains| == |outputs|
      requires mainQueue !in Frame()
      modifies mainQueue`contents, messageBuffer, Frame()
      ensures count == Min(MAX_QUEUE_BULK_SIZE, |old(mainQueue.contents)|)
      ensures mainQueue.contents == old(mainQueue.contents)[count..]
      ensures reached == Reached(old(Contents()), old(mainQueue.contents)[..count], drains, 0)
      ensures forall i :: 0 <= i < |outputs| ==>
                outputs[i].queue.contents ==
                if i < reached
                then outputs[i].AfterBulk(old(outputs[i].queue.contents), old(mainQueue.contents)[..count], drains[i]).0
                else old(outputs[i].queue.contents)
    {
      hide Output.AfterBulk;
      ghost var before := Contents();
      count := mainQueue.TryDequeueBulk(messageBuffer, MAX_QUEUE_BULK_SIZE);
      ghost var bulk := messageBuffer[..count];
      if count > 0 {
        reached := ExportToAll(count, before, drains);
      } else {
        NothingToExport(before, drains, 0);
        reached := |outputs|;
      }
      forall k | 0 <= k < |outputs|
        ensures outputs[k].queue.contents ==
                if k < reached then outputs[k].AfterBulk(old(outputs[k].queue.contents), bulk, drains[k]).0
                else old(outputs[k].queue.contents)
      {
        assert before[k] == old(outputs[k].queue.contents);
        if count > 0 {
          assert Given(k, reached, before, bulk, drains);
        } else {
          outputs[k].NothingGiven(before[k], drains[k]);
        }
      }
    }

    /** What the outputs' queues hold. */
    ghost function Contents(): (all: seq<seq<U>>)
      reads set i | 0 <= i < |outputs| :: outputs[i].queue
      ensures |all| == |outputs|
    {
      seq(|outputs|, i requires 0 <= i < |outputs|
                       reads if 0 <= i < |outputs| then {outputs[i].queue} else {}
                       => outputs[i].queue.contents)
    }

    lemma {:induction false} NothingToExport(before: seq<seq<U>>, drains: seq<seq<nat>>, i: nat)
      requires i <= |outputs| == |before| == |drains|
      ensures Reached(before, [], drains, i) == |outputs|
      decreases |outputs| - i
    {
      if i < |outputs| {
        outputs[i].NothingGiven(before[i], drains[i]);
        NothingToExport(before, drains, i + 1);
      }
    }
  }
}
