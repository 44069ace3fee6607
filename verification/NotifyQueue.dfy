/**
 * The bounded queue between a subscription's callback and the notifications of a `CALL subscribe`: what is
 * dropped, what is counted, what is committed, and in which order.
 */
module NotifyQueue {
  import opened Basics
  import opened Schema
  import opened Encoding
  import opened Nesting

  const CAPACITY: nat := 256
  /** Sequence numbers are 64 bits wide and wrap around. */
  const WRAP: nat := 0x1_0000_0000_0000_0000

  /** The subscribed topic and its message type. */
  datatype Topic = Topic(name: Text, kind: Text, fields: seq<Field>)

  /** A warning that reports the drops since the one before. */
  datatype Warning = Warning(queueDrops: nat, encodingDrops: nat)

  type Fired = seq<seq<Slot>>

  /** What the `i`-th callback offers to the queue: the payload of its message, or none when it has none. */
  function Item(topic: Topic, fired: Fired, i: nat): Option<Text>
    requires i < |fired|
  {
    if Encodable(topic.name, topic.kind, i % WRAP, topic.fields, fired[i], NOTIFY_LIMIT)
    then Some(PayloadText(topic.name, topic.kind, i % WRAP, topic.fields, fired[i])) else None
  }

  predicate Below(indices: seq<nat>, n: nat) {
    forall k | 0 <= k < |indices| :: indices[k] < n
  }

  predicate StrictlyIncreasing(indices: seq<nat>) {
    forall j, k | 0 <= j < k < |indices| :: indices[j] < indices[k]
  }

  /** Those of these callbacks whose message had a payload. */
  function Delivered(topic: Topic, fired: Fired, indices: seq<nat>): seq<nat>
    requires Below(indices, |fired|)
  {
    if indices == [] then []
    else
      var last := indices[|indices| - 1];
      Delivered(topic, fired, indices[..|indices| - 1]) + if Item(topic, fired, last).Some? then [last] else []
  }

  /** Their payloads. */
  function Payloads(topic: Topic, fired: Fired, indices: seq<nat>): seq<Text>
    requires Below(indices, |fired|)
  {
    if indices == [] then []
    else
      var last := Item(topic, fired, indices[|indices| - 1]);
      Payloads(topic, fired, indices[..|indices| - 1]) + if last.Some? then [last.value] else []
  }

  function QueueDrops(ws: seq<Warning>): nat {
    if ws == [] then 0 else QueueDrops(ws[..|ws| - 1]) + ws[|ws| - 1].queueDrops
  }

  function EncodingDrops(ws: seq<Warning>): nat {
    if ws == [] then 0 else EncodingDrops(ws[..|ws| - 1]) + ws[|ws| - 1].encodingDrops
  }

  /** A transaction's notifications as PostgreSQL delivers them: a repeated one is folded into the first. */
  function Folded(sent: seq<Text>): seq<Text> {
    if sent == [] then []
    else
      var before, last := Folded(sent[..|sent| - 1]), sent[|sent| - 1];
      if last in before then before else before + [last]
  }

  lemma {:induction false} PayloadsOfMore(topic: Topic, fired: Fired, slots: seq<Slot>, indices: seq<nat>)
    requires Below(indices, |fired|)
    ensures Payloads(topic, fired + [slots], indices) == Payloads(topic, fired, indices)
  {
    hide Encodable, PayloadText;
    if indices != [] {
      var last := indices[|indices| - 1];
      PayloadsOfMore(topic, fired, slots, indices[..|indices| - 1]);
      assert Item(topic, fired + [slots], last) == Item(topic, fired, last);
    }
  }

  predicate Distinct(sent: seq<Text>) {
    forall j, k | 0 <= j < k < |sent| :: sent[j] != sent[k]
  }

  /** The payloads, one for one and in order, of the delivered callbacks. */
  lemma {:induction false} DeliveredInOrder(topic: Topic, fired: Fired, indices: seq<nat>)
    requires Below(indices, |fired|) && StrictlyIncreasing(indices)
    ensures var sent, indexes := Payloads(topic, fired, indices), Delivered(topic, fired, indices);
      && |sent| == |indexes| && Below(indexes, |fired|) && StrictlyIncreasing(indexes)
      && (forall k | 0 <= k < |sent| :: Item(topic, fired, indexes[k]) == Some(sent[k]))
      && (forall i :: i in indexes <==> i in indices && Item(topic, fired, i).Some?)
  {
    hide Item;
    if indices != [] {
      var front, last := indices[..|indices| - 1], indices[|indices| - 1];
      DeliveredInOrder(topic, fired, front);
      assert indices == front + [last];
      var indexes := Delivered(topic, fired, front);
      forall k | 0 <= k < |indexes| ensures indexes[k] < last {
        assert indexes[k] in front;
      }
    }
  }

  predicate AllTyped(topic: Topic, fired: Fired) {
    ValidFields(topic.fields) && forall i | 0 <= i < |fired| :: TypedSlots(topic.fields, fired[i])
  }

  /** Callbacks with different sequence numbers never offer the same payload. */
  lemma ItemsDiffer(topic: Topic, fired: Fired, i: nat, j: nat)
    requires i < |fired| && j < |fired| && i % WRAP != j % WRAP && AllTyped(topic, fired)
    requires Item(topic, fired, i).Some? && Item(topic, fired, j).Some?
    ensures Item(topic, fired, i) != Item(topic, fired, j)
  {
    hide PayloadText, TypedSlots, ValidFields;
    if Item(topic, fired, i) == Item(topic, fired, j) {
      PayloadInjective(topic.name, topic.kind, i % WRAP, topic.fields, fired[i],
                       topic.name, topic.kind, j % WRAP, topic.fields, fired[j]);
    }
  }

  /** Before the sequence numbers wrap around, all payloads that are ever sent differ. */
  lemma PayloadsDiffer(topic: Topic, fired: Fired, indices: seq<nat>)
    requires Below(indices, |fired|) && StrictlyIncreasing(indices) && AllTyped(topic, fired) && |fired| <= WRAP
    ensures var sent := Payloads(topic, fired, indices);
      Distinct(sent)
  {
    hide Item, AllTyped, Payloads, Delivered;
    DeliveredInOrder(topic, fired, indices);
    var sent, indexes := Payloads(topic, fired, indices), Delivered(topic, fired, indices);
    forall j, k | 0 <= j < k < |sent| ensures sent[j] != sent[k] {
      DifferentRemainders(indexes[j], indexes[k]);
      ItemsDiffer(topic, fired, indexes[j], indexes[k]);
    }
  }

  function Range(from: nat, count: nat): seq<nat> {
    seq(count, i => from + i)
  }

  /** Fewer than 2^64 consecutive callbacks have different sequence numbers, even across the wrap. */
  lemma ConsecutiveDiffer(topic: Topic, fired: Fired, from: nat, count: nat)
    requires from + count <= |fired| && count <= WRAP && AllTyped(topic, fired)
    ensures Below(Range(from, count), |fired|)
    ensures var sent := Payloads(topic, fired, Range(from, count));
      Distinct(sent)
  {
    hide Item, AllTyped, Payloads, Delivered;
    var indices := Range(from, count);
    DeliveredInOrder(topic, fired, indices);
    var sent, indexes := Payloads(topic, fired, indices), Delivered(topic, fired, indices);
    forall j, k | 0 <= j < k < |sent| ensures sent[j] != sent[k] {
      assert indexes[j] in indices && indexes[k] in indices;
      assert from <= indexes[j] < indexes[k] < from + count;
      DifferentRemainders(indexes[j], indexes[k]);
      ItemsDiffer(topic, fired, indexes[j], indexes[k]);
    }
  }

  lemma DifferentRemainders(a: nat, b: nat)
    requires a < b < a + WRAP
    ensures a % WRAP != b % WRAP
  {
    assert a == WRAP * (a / WRAP) + a % WRAP;
    assert b == WRAP * (b / WRAP) + b % WRAP;
  }

  lemma NextSequence(n: nat)
    ensures (n % WRAP + 1) % WRAP == (n + 1) % WRAP
  {
    assert n == WRAP * (n / WRAP) + n % WRAP;
  }

  lemma {:induction false} FoldsNothing(sent: seq<Text>)
    requires Distinct(sent)
    ensures Folded(sent) == sent
  {
    if sent != [] {
      var front := sent[..|sent| - 1];
      FoldsNothing(front);
      assert sent == front + [sent[|sent| - 1]];
    }
  }

  /** Folding keeps every notification once. */
  lemma {:induction false} FoldsRepeats(sent: seq<Text>)
    ensures Distinct(Folded(sent))
    ensures forall x :: x in Folded(sent) <==> x in sent
  {
    if sent != [] {
      var front, last := sent[..|sent| - 1], sent[|sent| - 1];
      FoldsRepeats(front);
      assert sent == front + [last];
    }
  }

  lemma {:induction false} PayloadsJoin(topic: Topic, fired: Fired, a: seq<nat>, b: seq<nat>)
    requires Below(a, |fired|) && Below(b, |fired|)
    ensures Below(a + b, |fired|)
    ensures Payloads(topic, fired, a + b) == Payloads(topic, fired, a) + Payloads(topic, fired, b)
    decreases b
  {
    hide Item;
    if b == [] {
      assert a + b == a;
    } else {
      var front := b[..|b| - 1];
      PayloadsJoin(topic, fired, a, front);
      assert (a + b)[..|a + b| - 1] == a + front;
    }
  }

  /** The first messages from `emptied` on, as many as there is room for. */
  predicate Queued(topic: Topic, fired: Fired, emptied: nat, queue: seq<Option<Text>>) {
    && emptied <= |fired| && |queue| == Lesser(CAPACITY, |fired| - emptied)
    && forall i | 0 <= i < |queue| :: queue[i] == Item(topic, fired, emptied + i)
  }

  lemma QueuedFits(topic: Topic, fired: Fired, emptied: nat, queue: seq<Option<Text>>)
    requires Queued(topic, fired, emptied, queue)
    ensures |queue| <= 256
  {
  }

  lemma QueuedMore(topic: Topic, fired: Fired, emptied: nat, queue: seq<Option<Text>>, slots: seq<Slot>)
    requires Queued(topic, fired, emptied, queue)
    ensures Queued(topic, fired + [slots], emptied,
                   if |queue| < CAPACITY then queue + [Item(topic, fired + [slots], |fired|)] else queue)
  {
    hide Item;
    forall i | 0 <= i < |queue| ensures Item(topic, fired + [slots], emptied + i) == queue[i] {
      ItemStays(topic, fired, slots, emptied + i);
    }
  }

  class Receiver {
    const topic: Topic
    var sequence: nat
    var queue: seq<Option<Text>>
    var dropped: nat
    var encodingErrors: nat
    var warnings: seq<Warning>
    /** What other sessions have been notified of. */
    var committed: seq<Text>
    /** The call has been canceled. */
    var canceled: bool

    /** Every message received so far, the ones that were taken from the queue, and when it was last emptied. */
    ghost var fired: Fired
    ghost var drained: seq<nat>
    ghost var emptied: nat

    /** The queue holds the first messages since it was last emptied, as many as it has room for. */
    ghost predicate QueueHolds()
      reads `sequence, `queue, `fired, `emptied
    {
      && sequence == |fired| % WRAP
      && Queued(topic, fired, emptied, queue)
    }

    /** What was notified are the payloads drained so far, in the order of their sequence numbers. */
    ghost predicate InOrder()
      reads `committed, `fired, `drained, `emptied
    {
      && AllTyped(topic, fired)
      && StrictlyIncreasing(drained) && Below(drained, emptied) && emptied <= |fired|
      && committed == Payloads(topic, fired, drained)
    }

    /**
     * Every message is accounted for: notified, counted as an encoding error, waiting in the queue, or
     * counted as dropped, where a count is what was reported and what has yet to be.
     */
    ghost predicate Conserved()
      reads `queue, `dropped, `encodingErrors, `warnings, `committed, `fired, `drained
    {
      && |fired| == |drained| + |queue| + (QueueDrops(warnings) + dropped)
      && |drained| == |committed| + (EncodingDrops(warnings) + encodingErrors)
    }

    ghost predicate Valid()
      reads this
    {
      QueueHolds() && InOrder() && Conserved()
    }

    constructor (topic: Topic)
      requires ValidFields(topic.fields)
      ensures Valid() && !canceled && fired == [] && committed == [] && warnings == []
    {
      this.topic := topic;
      sequence, queue, dropped, encodingErrors, warnings, committed, canceled := 0, [], 0, 0, [], [], false;
      fired, drained, emptied := [], [], 0;
    }

    /** One message arrives: it is queued with its sequence number, or dropped when the queue is full. */
    method Callback(slots: seq<Slot>)
      requires Valid() && TypedSlots(topic.fields, slots)
      modifies `sequence, `queue, `dropped, `fired
      ensures Valid() && fired == old(fired) + [slots]
      ensures queue == if |old(queue)| < CAPACITY then old(queue) + [Item(topic, fired, |old(fired)|)] else old(queue)
      ensures dropped == if |old(queue)| < CAPACITY then old(dropped) else old(dropped) + 1
      ensures |queue| <= 256 && (|queue| == |old(queue)| <==> |old(queue)| == 256)
      ensures |queue| > |old(queue)| ==>
                var n := |old(fired)| % 0x1_0000_0000_0000_0000;
                queue[|old(queue)|] == if Encodable(topic.name, topic.kind, n, topic.fields, slots, 7999)
                                       then Some(PayloadText(topic.name, topic.kind, n, topic.fields, slots)) else None
    {
      hide Item, TypedSlots, ValidFields, QueueDrops, EncodingDrops, Queued, Payloads, Encodable, PayloadText;
      var payload := Payload(topic.name, topic.kind, sequence, topic.fields, slots, NOTIFY_LIMIT);
      fired := fired + [slots];
      PayloadIsItem(topic, fired, payload);
      ItemIsPayload(topic, fired);
      QueuedFits(topic, old(fired), emptied, queue);
      QueuedMore(topic, old(fired), emptied, queue, slots);
      PayloadsOfMore(topic, old(fired), slots, drained);
      NextSequence(|old(fired)|);
      sequence := (sequence + 1) % WRAP;
      if |queue| < CAPACITY {
        queue := queue + [payload];
      } else {
        dropped := dropped + 1;
      }
    }

    /** Take up to a queue's worth of messages and notify those that have a payload, unless canceled in between. */
    method TakeBatch(cancellation: Option<nat>) returns (sent: seq<Text>, taken: nat)
      requires QueueHolds() && !canceled
      modifies `queue, `encodingErrors, `canceled
      ensures canceled ==> cancellation.Some?
      ensures Below(Range(emptied, taken), |fired|)
      ensures !canceled ==>
                && queue == [] && taken == |old(queue)|
                && sent == Payloads(topic, fired, Range(emptied, taken))
                && encodingErrors == old(encodingErrors) + taken - |sent|
    {
      hide Item, Payloads;
      sent, taken := [], 0;
      NoPayloads(topic, fired, emptied);
      while taken < CAPACITY && queue != []
        invariant !canceled
        invariant taken <= |old(queue)| && queue == old(queue)[taken..]
        invariant Below(Range(emptied, taken), |fired|) && sent == Payloads(topic, fired, Range(emptied, taken))
        invariant encodingErrors == old(encodingErrors) + taken - |sent|
        decreases |queue|
      {
        if cancellation == Some(taken) {
          canceled := true;
          return;
        }
        NextPayload(topic, fired, emptied, taken);
        if queue[0].Some? {
          sent := sent + [queue[0].value];
        } else {
          encodingErrors := encodingErrors + 1;
        }
        queue, taken := queue[1..], taken + 1;
      }
    }

    /**
     * Notify a batch and commit it. A cancellation after so many of its messages, or before the commit, rolls
     * the whole batch back.
     */
    method Drain(cancellation: Option<nat>)
      requires Valid() && !canceled
      modifies `queue, `encodingErrors, `committed, `canceled, `drained, `emptied
      ensures canceled == cancellation.Some?
      ensures canceled ==> committed == old(committed) && InOrder() && drained == old(drained)
      ensures !canceled ==>
                && Valid() && queue == [] && emptied == |fired|
                && drained == old(drained) + Range(old(emptied), |old(queue)|)
                && Below(Range(old(emptied), |old(queue)|), |fired|)
                && committed == old(committed) + Payloads(topic, fired, Range(old(emptied), |old(queue)|))
    {
      hide Item, AllTyped, Folded, Payloads;
      var sent, taken := TakeBatch(cancellation);
      if cancellation.Some? {
        canceled := true;
        return;
      }
      BatchFoldsNothing(topic, fired, emptied, taken);
      if sent != [] {
        committed := committed + Folded(sent);
      }
      PayloadsJoin(topic, fired, drained, Range(emptied, taken));
      drained, emptied := drained + Range(emptied, taken), |fired|;
    }

    /** Once a second: report what was dropped since the last report, if anything. */
    method Report(due: bool)
      requires Valid()
      modifies `dropped, `encodingErrors, `warnings
      ensures Valid()
      ensures due ==> dropped == 0 && encodingErrors == 0
      ensures due ==> warnings == if old(dropped) > 0 || old(encodingErrors) > 0
                                  then old(warnings) + [Warning(old(dropped), old(encodingErrors))] else old(warnings)
      ensures !due ==> dropped == old(dropped) && encodingErrors == old(encodingErrors) && warnings == old(warnings)
    {
      hide QueueHolds, InOrder;
      if due {
        var overflow := dropped;
        dropped := 0;
        if overflow > 0 || encodingErrors > 0 {
          warnings := warnings + [Warning(overflow, encodingErrors)];
          assert warnings[..|warnings| - 1] == old(warnings);
        }
        encodingErrors := 0;
      }
    }
  }

  lemma ItemStays(topic: Topic, fired: Fired, slots: seq<Slot>, i: nat)
    requires i < |fired|
    ensures Item(topic, fired + [slots], i) == Item(topic, fired, i)
  {
  }

  lemma PayloadIsItem(topic: Topic, fired: Fired, payload: Option<Text>)
    requires fired != []
    requires var n := |fired| - 1;
      payload == if Encodable(topic.name, topic.kind, n % WRAP, topic.fields, fired[n], NOTIFY_LIMIT)
                 then Some(PayloadText(topic.name, topic.kind, n % WRAP, topic.fields, fired[n])) else None
    ensures payload == Item(topic, fired, |fired| - 1)
  {
  }

  lemma ItemIsPayload(topic: Topic, fired: Fired)
    requires fired != []
    ensures var n := |fired| - 1;
      Item(topic, fired, n) == if Encodable(topic.name, topic.kind, n % 0x1_0000_0000_0000_0000, topic.fields, fired[n], 7999)
                               then Some(PayloadText(topic.name, topic.kind, n % 0x1_0000_0000_0000_0000, topic.fields, fired[n]))
                               else None
  {
  }

  lemma NoPayloads(topic: Topic, fired: Fired, from: nat)
    ensures Payloads(topic, fired, Range(from, 0)) == []
  {
  }

  lemma NextPayload(topic: Topic, fired: Fired, from: nat, count: nat)
    requires from + count < |fired|
    ensures Below(Range(from, count), |fired|) && Below(Range(from, count + 1), |fired|)
    ensures Payloads(topic, fired, Range(from, count + 1)) ==
            Payloads(topic, fired, Range(from, count)) +
            if Item(topic, fired, from + count).Some? then [Item(topic, fired, from + count).value] else []
  {
    hide Item;
    assert Range(from, count + 1)[..count] == Range(from, count);
  }

  lemma BatchFoldsNothing(topic: Topic, fired: Fired, from: nat, count: nat)
    requires from + count <= |fired| && count <= CAPACITY && AllTyped(topic, fired)
    ensures Below(Range(from, count), |fired|)
    ensures Folded(Payloads(topic, fired, Range(from, count))) == Payloads(topic, fired, Range(from, count))
  {
    ConsecutiveDiffer(topic, fired, from, count);
    FoldsNothing(Payloads(topic, fired, Range(from, count)));
  }

  /**
   * At every point, canceled or not, the committed notifications are the payloads of drained messages in the
   * order of their arrival, none of them twice and none folded into another.
   */
  lemma CommittedInOrder(r: Receiver)
    requires r.InOrder()
    ensures Below(r.drained, |r.fired|)
    ensures var indexes := Delivered(r.topic, r.fired, r.drained);
      && |r.committed| == |indexes| && Below(indexes, |r.fired|) && StrictlyIncreasing(indexes)
      && (forall k | 0 <= k < |indexes| :: Item(r.topic, r.fired, indexes[k]) == Some(r.committed[k]))
      && (forall i :: i in indexes <==> i in r.drained && Item(r.topic, r.fired, i).Some?)
    ensures |r.fired| <= 0x1_0000_0000_0000_0000 ==> Distinct(r.committed)
  {
    hide Item, AllTyped, Payloads, Delivered;
    DeliveredInOrder(r.topic, r.fired, r.drained);
    if |r.fired| <= WRAP {
      PayloadsDiffer(r.topic, r.fired, r.drained);
    }
  }
}
