/**
 * The last-value mailbox of a table-backed subscription: callbacks overwrite one pending slot, a flush
 * stores what is there. Compared with a subscription that stores every message at once.
 */
module Mailboxes {
  import opened Basics
  import opened Schema
  import opened Json
  import opened Encoding
  import opened Inversion
  import opened Nesting

  datatype Mailbox = Mailbox(sequence: nat, pending: Option<(nat, Text)>, error: Option<Text>)

  /** A live subscription: its topic, the type and limit it was made with, and its mailbox. */
  datatype Live = Live(topic: Text, kind: Text, fields: seq<Field>, limit: nat, mailbox: Mailbox)

  /** A cached message, without its timestamp. */
  datatype Row = Row(sequence: nat, message: Json)

  /** A received message, and the text of the error should it have no payload. */
  datatype Message = Message(slots: seq<Slot>, why: Text)

  function NewMailbox(): Mailbox {
    Mailbox(0, None, None)
  }

  /** The payload of a message under a sequence number. */
  function Encoded(live: Live, sequence: nat, slots: seq<Slot>): Option<Text> {
    if Encodable(live.topic, live.kind, sequence, live.fields, slots, live.limit)
    then Some(PayloadText(live.topic, live.kind, sequence, live.fields, slots)) else None
  }

  /** The mailbox after one more message. */
  function Received(live: Live, m: Message): Live {
    var sequence := live.mailbox.sequence + 1;
    var mailbox :=
      match Encoded(live, sequence, m.slots)
      case Some(payload) => live.mailbox.(sequence := sequence, pending := Some((sequence, payload)))
      case None => live.mailbox.(sequence := sequence, error := Some(m.why));
    live.(mailbox := mailbox)
  }

  /** The callback. */
  method Receive(live: Live, m: Message) returns (live': Live)
    requires TypedSlots(live.fields, m.slots)
    ensures live' == Received(live, m)
    ensures live'.mailbox.sequence == live.mailbox.sequence + 1
    ensures var n := live.mailbox.sequence + 1;
      if Encodable(live.topic, live.kind, n, live.fields, m.slots, live.limit)
      then live'.mailbox.pending == Some((n, PayloadText(live.topic, live.kind, n, live.fields, m.slots)))
           && live'.mailbox.error == live.mailbox.error
      else live'.mailbox.pending == live.mailbox.pending && live'.mailbox.error == Some(m.why)
  {
    var sequence := live.mailbox.sequence + 1;
    var payload := Payload(live.topic, live.kind, sequence, live.fields, m.slots, live.limit);
    live' := live.(mailbox := live.mailbox.(sequence := sequence));
    if payload.Some? {
      live' := live'.(mailbox := live'.mailbox.(pending := Some((sequence, payload.value))));
    } else {
      live' := live'.(mailbox := live'.mailbox.(error := Some(m.why)));
    }
  }

  /** What a flush takes out of a mailbox. */
  datatype Taken = Taken(row: Option<Row>, error: Option<Text>)

  /** A flush parses the pending payload; `broken` is the parser's complaint, which the callback's error overrides. */
  function Take(m: Mailbox, depth: nat, broken: Text): Taken {
    var parsed := if m.pending.Some? then Parse(m.pending.value.1, depth) else None;
    var row := if parsed.Some? then Some(Row(m.pending.value.0, parsed.value)) else None;
    Taken(row, if m.error.Some? then m.error
               else if m.pending.Some? && row.None? then Some(broken) else None)
  }

  function Emptied(live: Live): Live {
    live.(mailbox := live.mailbox.(pending := None, error := None))
  }

  /** A message upserts the row. */
  function StoredRow(t: Taken, row: Option<Row>): Option<Row> {
    if t.row.Some? then t.row else row
  }

  /** A message clears the subscription's error, and then an error sets it. */
  function StoredError(t: Taken, error: Option<Text>): Option<Text> {
    if t.error.Some? then t.error else if t.row.Some? then None else error
  }

  // ---------- one window of messages ----------

  function ReceivedAll(live: Live, ms: seq<Message>): Live {
    if ms == [] then live else Received(ReceivedAll(live, ms[..|ms| - 1]), ms[|ms| - 1])
  }

  /** The payload of the `i`-th message of a window. */
  function PayloadAt(live: Live, ms: seq<Message>, i: nat): Option<Text>
    requires i < |ms|
  {
    Encoded(live, live.mailbox.sequence + i + 1, ms[i].slots)
  }

  /** What storing the `i`-th message of the window alone would have put in the table. */
  function RowAt(live: Live, ms: seq<Message>, i: nat, depth: nat): Option<Row>
    requires i < |ms|
  {
    var payload := PayloadAt(live, ms, i);
    if payload.Some? && Parse(payload.value, depth).Some?
    then Some(Row(live.mailbox.sequence + i + 1, Parse(payload.value, depth).value)) else None
  }

  /** The row that storing every message at once would leave. */
  function RowThrough(live: Live, ms: seq<Message>, row: Option<Row>, depth: nat): Option<Row> {
    if ms == [] then row
    else
      var last := RowAt(live, ms, |ms| - 1, depth);
      if last.Some? then last else RowThrough(live, ms[..|ms| - 1], row, depth)
  }

  /** The error that storing every message at once would leave, each reporting what becomes of it. */
  function ErrorThrough(live: Live, ms: seq<Message>, error: Option<Text>, depth: nat, broken: Text): Option<Text> {
    if ms == [] then error
    else
      var last := |ms| - 1;
      if PayloadAt(live, ms, last).None? then Some(ms[last].why)
      else if RowAt(live, ms, last, depth).None? then Some(broken)
      else None
  }

  predicate Idle(live: Live) {
    live.mailbox.pending.None? && live.mailbox.error.None?
  }

  /** The index of the last message with a payload, or of the last one without. */
  function LastWhere(live: Live, ms: seq<Message>, encoded: bool): (r: Option<nat>)
    ensures r.Some? ==> r.value < |ms|
  {
    if ms == [] then None
    else if PayloadAt(live, ms, |ms| - 1).Some? == encoded then Some(|ms| - 1)
    else LastWhere(live, ms[..|ms| - 1], encoded)
  }

  lemma {:induction false} LastWhereFinds(live: Live, ms: seq<Message>, encoded: bool)
    ensures match LastWhere(live, ms, encoded)
      case Some(last) =>
        PayloadAt(live, ms, last).Some? == encoded && forall i | last < i < |ms| :: PayloadAt(live, ms, i).Some? != encoded
      case None => forall i | 0 <= i < |ms| :: PayloadAt(live, ms, i).Some? != encoded
  {
    hide Encoded;
    if ms != [] {
      var front := ms[..|ms| - 1];
      LastWhereFinds(live, front, encoded);
      forall i | 0 <= i < |front| ensures PayloadAt(live, front, i) == PayloadAt(live, ms, i) {
      }
    }
  }

  /** A mailbox keeps the newest payload and the newest error of its window, whatever came in between. */
  lemma {:induction false} MailboxKeepsNewest(live: Live, ms: seq<Message>)
    requires Idle(live)
    ensures LastWhere(live, ms, true).Some? ==> PayloadAt(live, ms, LastWhere(live, ms, true).value).Some?
    ensures var box := ReceivedAll(live, ms).mailbox;
      var good, bad := LastWhere(live, ms, true), LastWhere(live, ms, false);
      && box.sequence == live.mailbox.sequence + |ms|
      && ReceivedAll(live, ms) == live.(mailbox := box)
      && box.pending == (if good.None? then None
                         else Some((live.mailbox.sequence + good.value + 1, PayloadAt(live, ms, good.value).value)))
      && box.error == if bad.None? then None else Some(ms[bad.value].why)
  {
    hide Encodable, PayloadText;
    LastWhereFinds(live, ms, true);
    if ms != [] {
      MailboxKeepsNewest(live, ms[..|ms| - 1]);
    }
  }

  /** Storing every message leaves the newest one that parses. */
  lemma {:induction false} RowThroughIsNewest(live: Live, ms: seq<Message>, row: Option<Row>, depth: nat, i: nat)
    requires i < |ms| && RowAt(live, ms, i, depth).Some?
    requires forall j | i < j < |ms| :: RowAt(live, ms, j, depth).None?
    ensures RowThrough(live, ms, row, depth) == RowAt(live, ms, i, depth)
  {
    hide Encoded, Parse;
    var front := ms[..|ms| - 1];
    if i < |ms| - 1 {
      assert forall j | 0 <= j < |front| :: RowAt(live, front, j, depth) == RowAt(live, ms, j, depth);
      RowThroughIsNewest(live, front, row, depth, i);
    }
  }

  lemma {:induction false} RowThroughKeeps(live: Live, ms: seq<Message>, row: Option<Row>, depth: nat)
    requires forall j | 0 <= j < |ms| :: RowAt(live, ms, j, depth).None?
    ensures RowThrough(live, ms, row, depth) == row
  {
    hide Encoded, Parse;
    if ms != [] {
      var front := ms[..|ms| - 1];
      assert forall j | 0 <= j < |front| :: RowAt(live, front, j, depth) == RowAt(live, ms, j, depth);
      RowThroughKeeps(live, front, row, depth);
    }
  }

  /** The message's brackets nest within the parser's reach. */
  ghost predicate Readable(live: Live, slots: seq<Slot>, depth: nat) {
    depth > 0 && Within(MessageTree(live.fields, slots), depth - 1)
  }

  /** A payload parses exactly when its message is readable, and then to the message itself, in its envelope. */
  lemma PayloadReads(live: Live, sequence: nat, slots: seq<Slot>, depth: nat)
    requires ValidFields(live.fields) && TypedSlots(live.fields, slots) && Encoded(live, sequence, slots).Some?
    ensures Parse(Encoded(live, sequence, slots).value, depth)
         == if Readable(live, slots, depth)
            then Some(PayloadTree(live.topic, live.kind, sequence, live.fields, slots)) else None
  {
    hide Parse, PayloadText;
    EnvelopeWithin(live.topic, live.kind, sequence, MessageTree(live.fields, slots), depth);
    WholeParses(live.topic, live.kind, sequence, live.fields, slots, depth);
  }

  /** A parser that goes 131 levels deep reads every message that has a payload. */
  lemma EncodedIsReadable(live: Live, sequence: nat, slots: seq<Slot>, depth: nat)
    requires ValidFields(live.fields) && TypedSlots(live.fields, slots) && Encoded(live, sequence, slots).Some?
    requires depth >= 131
    ensures Readable(live, slots, depth)
  {
    hide PayloadText;
    MessageWithin(live.fields, slots);
    WithinGrows(MessageTree(live.fields, slots), 2 * SlotsLevels(slots) + 2, depth - 1);
  }

  ghost predicate AllTyped(live: Live, ms: seq<Message>) {
    ValidFields(live.fields) && forall i | 0 <= i < |ms| :: TypedSlots(live.fields, ms[i].slots)
  }

  /** The `i`-th message of a window has a payload that the parser reads. */
  ghost predicate Storable(live: Live, ms: seq<Message>, i: nat, depth: nat)
    requires i < |ms|
  {
    PayloadAt(live, ms, i).Some? && Readable(live, ms[i].slots, depth)
  }

  lemma StorableRows(live: Live, ms: seq<Message>, i: nat, depth: nat)
    requires AllTyped(live, ms) && i < |ms|
    ensures RowAt(live, ms, i, depth).Some? <==> Storable(live, ms, i, depth)
  {
    hide Parse, Encoded;
    if PayloadAt(live, ms, i).Some? {
      PayloadReads(live, live.mailbox.sequence + i + 1, ms[i].slots, depth);
    }
  }

  /** The newest message with a payload is readable, or none of those with a payload is. */
  ghost predicate NewestReadable(live: Live, ms: seq<Message>, depth: nat) {
    var good := LastWhere(live, ms, true);
    good.Some? ==> Readable(live, ms[good.value].slots, depth) || forall i | 0 <= i < |ms| :: !Storable(live, ms, i, depth)
  }

  lemma ReadableParses(live: Live, ms: seq<Message>, depth: nat)
    requires AllTyped(live, ms)
    ensures NewestReadable(live, ms, depth) <==> NewestParses(live, ms, depth)
  {
    hide Parse, Encoded, Readable;
    LastWhereFinds(live, ms, true);
    forall i: nat | i < |ms| ensures RowAt(live, ms, i, depth).Some? <==> Storable(live, ms, i, depth) {
      StorableRows(live, ms, i, depth);
    }
  }

  /** The newest payload of the window parses, or none does. */
  predicate NewestParses(live: Live, ms: seq<Message>, depth: nat) {
    var good := LastWhere(live, ms, true);
    good.Some? ==> RowAt(live, ms, good.value, depth).Some? || forall i | 0 <= i < |ms| :: RowAt(live, ms, i, depth).None?
  }

  /**
   * Coalescing leaves the same row as storing every message of the window at once when the newest message
   * that has a payload is readable or none is, and, unless a row from elsewhere is already ahead of the
   * mailbox, only then.
   */
  lemma CoalescingExactly(live: Live, ms: seq<Message>, row: Option<Row>, depth: nat, broken: Text)
    requires Idle(live) && AllTyped(live, ms)
    ensures NewestReadable(live, ms, depth) ==>
              StoredRow(Take(ReceivedAll(live, ms).mailbox, depth, broken), row) == RowThrough(live, ms, row, depth)
    ensures (row.Some? ==> row.value.sequence <= live.mailbox.sequence) && !NewestReadable(live, ms, depth) ==>
              StoredRow(Take(ReceivedAll(live, ms).mailbox, depth, broken), row) != RowThrough(live, ms, row, depth)
  {
    hide *;
    ReadableParses(live, ms, depth);
    CoalescingParsed(live, ms, row, depth, broken);
  }

  lemma CoalescingParsed(live: Live, ms: seq<Message>, row: Option<Row>, depth: nat, broken: Text)
    requires Idle(live)
    ensures NewestParses(live, ms, depth) ==>
              StoredRow(Take(ReceivedAll(live, ms).mailbox, depth, broken), row) == RowThrough(live, ms, row, depth)
    ensures (row.Some? ==> row.value.sequence <= live.mailbox.sequence) && !NewestParses(live, ms, depth) ==>
              StoredRow(Take(ReceivedAll(live, ms).mailbox, depth, broken), row) != RowThrough(live, ms, row, depth)
  {
    hide Encoded, Parse, RowThrough, ReceivedAll;
    MailboxKeepsNewest(live, ms);
    LastWhereFinds(live, ms, true);
    if i :| 0 <= i < |ms| && RowAt(live, ms, i, depth).Some? {
      var newest := NewestRow(live, ms, depth, i);
      RowThroughIsNewest(live, ms, row, depth, newest);
    } else {
      RowThroughKeeps(live, ms, row, depth);
      var good := LastWhere(live, ms, true);
      assert good.Some? ==> RowAt(live, ms, good.value, depth).None?;
    }
  }

  lemma NewestRow(live: Live, ms: seq<Message>, depth: nat, i: nat) returns (newest: nat)
    requires i < |ms| && RowAt(live, ms, i, depth).Some?
    ensures newest < |ms| && RowAt(live, ms, newest, depth).Some?
    ensures forall j | newest < j < |ms| :: RowAt(live, ms, j, depth).None?
    decreases |ms| - i
  {
    hide Encoded, Parse;
    if j :| i < j < |ms| && RowAt(live, ms, j, depth).Some? {
      newest := NewestRow(live, ms, depth, j);
    } else {
      newest := i;
    }
  }

  /** A life of a subscription: window after window, each ended by a flush. */
  function AfterWindows(live: Live, windows: seq<seq<Message>>, row: Option<Row>, depth: nat, broken: Text)
    : (Live, Option<Row>)
  {
    if windows == [] then (live, row)
    else
      var (before, stored) := AfterWindows(live, windows[..|windows| - 1], row, depth, broken);
      var got := ReceivedAll(before, windows[|windows| - 1]);
      (Emptied(got), StoredRow(Take(got.mailbox, depth, broken), stored))
  }

  function Joined(windows: seq<seq<Message>>): seq<Message> {
    if windows == [] then [] else Joined(windows[..|windows| - 1]) + windows[|windows| - 1]
  }

  /** The mailbox after some messages, once emptied. */
  function Advanced(live: Live, count: nat): Live {
    live.(mailbox := Mailbox(live.mailbox.sequence + count, None, None))
  }

  lemma {:induction false} RowThroughJoins(live: Live, a: seq<Message>, b: seq<Message>, row: Option<Row>, depth: nat)
    ensures RowThrough(live, a + b, row, depth) == RowThrough(Advanced(live, |a|), b, RowThrough(live, a, row, depth), depth)
    decreases b
  {
    hide Encodable, PayloadText, Parse;
    if b == [] {
      assert a + b == a;
    } else {
      RowThroughJoins(live, a, b[..|b| - 1], row, depth);
      assert (a + b)[..|a + b| - 1] == a + b[..|b| - 1];
      assert RowAt(live, a + b, |a + b| - 1, depth) == RowAt(Advanced(live, |a|), b, |b| - 1, depth);
    }
  }

  /** With something to store, what was in the table before does not matter. */
  lemma RowThroughForgets(live: Live, ms: seq<Message>, row: Option<Row>, row': Option<Row>, depth: nat, i: nat)
    requires i < |ms| && RowAt(live, ms, i, depth).Some?
    ensures RowThrough(live, ms, row, depth) == RowThrough(live, ms, row', depth)
  {
    hide RowAt, RowThrough;
    var newest := NewestRow(live, ms, depth, i);
    RowThroughIsNewest(live, ms, row, depth, newest);
    RowThroughIsNewest(live, ms, row', depth, newest);
  }

  ghost predicate AnyStorable(live: Live, ms: seq<Message>, depth: nat) {
    exists i: nat | i < |ms| :: Storable(live, ms, i, depth)
  }

  /**
   * In the last window that had a message to store, the newest message with a payload was readable; or there
   * was no such window.
   */
  ghost predicate LastStoredReadable(live: Live, windows: seq<seq<Message>>, depth: nat) {
    windows == [] ||
    var front, last := windows[..|windows| - 1], windows[|windows| - 1];
    var before := Advanced(live, |Joined(front)|);
    if AnyStorable(before, last, depth) then NewestReadable(before, last, depth) else LastStoredReadable(live, front, depth)
  }

  /** One window, from whatever the table held and from whatever storing every message would have left there. */
  lemma WindowExactly(live: Live, ms: seq<Message>, row: Option<Row>, through: Option<Row>, depth: nat, broken: Text)
    requires Idle(live) && AllTyped(live, ms)
    ensures var after := StoredRow(Take(ReceivedAll(live, ms).mailbox, depth, broken), row);
      var whole := RowThrough(live, ms, through, depth);
      && (AnyStorable(live, ms, depth) && NewestReadable(live, ms, depth) ==> after == whole)
      && (!AnyStorable(live, ms, depth) ==> after == row && whole == through)
      && ((row.Some? ==> row.value.sequence <= live.mailbox.sequence) ==>
            AnyStorable(live, ms, depth) && !NewestReadable(live, ms, depth) ==> after != whole)
  {
    hide ReceivedAll, RowThrough, RowAt, Take, StoredRow, Readable, Encoded, AllTyped, PayloadAt;
    CoalescingExactly(live, ms, row, depth, broken);
    forall i: nat | i < |ms| ensures RowAt(live, ms, i, depth).Some? <==> Storable(live, ms, i, depth) {
      StorableRows(live, ms, i, depth);
    }
    if i: nat :| i < |ms| && Storable(live, ms, i, depth) {
      RowThroughForgets(live, ms, row, through, depth, i);
    } else {
      RowThroughKeeps(live, ms, row, depth);
      RowThroughKeeps(live, ms, through, depth);
    }
  }

  /** A flush leaves the sequence numbers of the table within those that the mailbox has given out. */
  lemma {:induction false} LifeAdvances(
      live: Live, windows: seq<seq<Message>>, row: Option<Row>, depth: nat, broken: Text)
    requires Idle(live)
    ensures var (after, stored) := AfterWindows(live, windows, row, depth, broken);
      && after == Advanced(live, |Joined(windows)|)
      && ((row.Some? ==> row.value.sequence <= live.mailbox.sequence) && stored.Some? ==>
            stored.value.sequence <= after.mailbox.sequence)
  {
    hide ReceivedAll, Parse, Encoded, LastWhere;
    if windows != [] {
      var front, last := windows[..|windows| - 1], windows[|windows| - 1];
      LifeAdvances(live, front, row, depth, broken);
      MailboxKeepsNewest(Advanced(live, |Joined(front)|), last);
    }
  }

  ghost predicate LifeTyped(live: Live, windows: seq<seq<Message>>) {
    forall i | 0 <= i < |windows| :: AllTyped(live, windows[i])
  }

  /**
   * Over a whole life, to a parser of any depth: the row after a flush is the one that storing every message
   * at once would have left when the last window with something to store ended on a readable payload, and,
   * unless a row from elsewhere was ahead of the mailbox to begin with, only then.
   */
  lemma {:induction false} LifeExactly(
      live: Live, windows: seq<seq<Message>>, row: Option<Row>, depth: nat, broken: Text)
    requires Idle(live) && LifeTyped(live, windows)
    ensures var stored, whole := AfterWindows(live, windows, row, depth, broken).1, RowThrough(live, Joined(windows), row, depth);
      && (LastStoredReadable(live, windows, depth) ==> stored == whole)
      && ((row.Some? ==> row.value.sequence <= live.mailbox.sequence) && !LastStoredReadable(live, windows, depth) ==>
            stored != whole)
  {
    hide RowThrough, ReceivedAll, Take, StoredRow, Encoded, Readable, NewestReadable, AnyStorable;
    if windows == [] {
      RowThroughKeeps(live, [], row, depth);
    } else {
      var front, last := windows[..|windows| - 1], windows[|windows| - 1];
      var before := Advanced(live, |Joined(front)|);
      LifeExactly(live, front, row, depth, broken);
      LifeAdvances(live, front, row, depth, broken);
      RowThroughJoins(live, Joined(front), last, row, depth);
      WindowExactly(before, last, AfterWindows(live, front, row, depth, broken).1,
                    RowThrough(live, Joined(front), row, depth), depth, broken);
    }
  }

  /** To a parser that goes 131 levels deep the condition always holds: what has a payload is readable. */
  lemma {:induction false} LastStoredIsReadable(live: Live, windows: seq<seq<Message>>, depth: nat)
    requires LifeTyped(live, windows) && depth >= 131
    ensures LastStoredReadable(live, windows, depth)
  {
    hide Readable, Encoded, AnyStorable;
    if windows != [] {
      var front, last := windows[..|windows| - 1], windows[|windows| - 1];
      var before := Advanced(live, |Joined(front)|);
      LastStoredIsReadable(live, front, depth);
      LastWhereFinds(before, last, true);
      var good := LastWhere(before, last, true);
      if good.Some? {
        EncodedIsReadable(before, before.mailbox.sequence + good.value + 1, last[good.value].slots, depth);
      }
    }
  }

  /**
   * For every interleaving of callbacks and flushes, the row after a flush is the one that storing every
   * message at once would have left, whatever was in the table before and whichever messages have no payload.
   */
  lemma LifeRefinesWriteThrough(live: Live, windows: seq<seq<Message>>, row: Option<Row>, depth: nat, broken: Text)
    requires Idle(live) && LifeTyped(live, windows) && depth >= 131
    ensures AfterWindows(live, windows, row, depth, broken)
         == (Advanced(live, |Joined(windows)|), RowThrough(live, Joined(windows), row, depth))
  {
    hide *;
    LastStoredIsReadable(live, windows, depth);
    LifeExactly(live, windows, row, depth, broken);
    LifeAdvances(live, windows, row, depth, broken);
  }

  lemma ShallowStores(live: Live, sequence: nat, n: nat, depth: nat)
    requires live.fields == DeepFields(n) && live.limit >= NOTIFY_LIMIT && depth >= 3
    requires |HeadText(live.topic, live.kind, sequence)| + 521 <= NOTIFY_LIMIT
    ensures TypedSlots(live.fields, [Slot([])])
    ensures Encoded(live, sequence, [Slot([])]).Some?
    ensures Parse(Encoded(live, sequence, [Slot([])]).value, depth).Some?
  {
    hide Parse;
    var fields, slots := live.fields, [Slot([])];
    DeepIsEncodable(n);
    ShallowText(fields[0]);
    assert SlotsLevels(slots) == 0 by { assert slots[1..] == []; }
    PayloadWithin(live.topic, live.kind, sequence, fields, slots);
    WithinGrows(PayloadTree(live.topic, live.kind, sequence, fields, slots), 3, depth);
    WholeParses(live.topic, live.kind, sequence, fields, slots, depth);
  }

  lemma ShallowText(field: Field)
    requires field.name == "a" && field.form == Unbounded
    ensures |MessageText([field], [Slot([])])| == 8
  {
    assert Escape("a") == "a" by { assert "a"[1..] == ""; }
    assert ItemsText(field.kind, [], 0) == "]";
    assert MembersText([field], [Slot([])], 1) == "}";
    assert |MemberText(field, Slot([]))| == 6;
  }

  /**
   * A shallower parser does need the condition: a deep payload that it refuses takes the place of an older
   * one of the same window that it would have stored.
   */
  lemma DeepPayloadHidesOlder(live: Live, why: Text, depth: nat)
    requires live.fields == DeepFields(64) && live.limit >= NOTIFY_LIMIT && 3 <= depth < 131
    requires |HeadText(live.topic, live.kind, live.mailbox.sequence + 1)| + 521 <= NOTIFY_LIMIT
    requires |HeadText(live.topic, live.kind, live.mailbox.sequence + 2)| + 521 <= NOTIFY_LIMIT
    ensures var ms := [Message([Slot([])], why), Message(DeepSlots(64), why)];
      && AllTyped(live, ms) && RowAt(live, ms, 0, depth).Some? && PayloadAt(live, ms, 1).Some?
      && !NewestReadable(live, ms, depth)
  {
    hide Parse, DeepFields, DeepSlots, HeadText, PayloadText;
    var first := live.mailbox.sequence + 1;
    ShallowStores(live, first, 64, depth);
    DeepPayload(live.topic, live.kind, first + 1, depth);
    DeepIsEncodable(64);
    var ms := [Message([Slot([])], why), Message(DeepSlots(64), why)];
    assert ms[0].slots == [Slot([])] && ms[1].slots == DeepSlots(64);
    ReadableParses(live, ms, depth);
  }

  // ---------- errors ----------

  /** Every error of a window shows after the flush: the newest one stands in `last_error`. */
  lemma ErrorsAreVisible(live: Live, ms: seq<Message>, error: Option<Text>, depth: nat, broken: Text)
    requires Idle(live) && LastWhere(live, ms, false).Some?
    ensures StoredError(Take(ReceivedAll(live, ms).mailbox, depth, broken), error)
         == Some(ms[LastWhere(live, ms, false).value].why)
  {
    hide Encoded, Parse, ReceivedAll;
    MailboxKeepsNewest(live, ms);
  }

  /**
   * The error left by a flush is the one that storing the messages in their order would leave, exactly when
   * the window had no message without a payload, or ended with one, or ended with a payload whose complaint
   * reads the same as that message's error: an older error outlives a newer message.
   */
  lemma ErrorsInOrderExactly(live: Live, ms: seq<Message>, error: Option<Text>, depth: nat, broken: Text)
    requires Idle(live) && AllTyped(live, ms)
    ensures var bad := LastWhere(live, ms, false);
      StoredError(Take(ReceivedAll(live, ms).mailbox, depth, broken), error) == ErrorThrough(live, ms, error, depth, broken)
      <==> bad.None? || bad.value == |ms| - 1
           || (!Readable(live, ms[|ms| - 1].slots, depth) && broken == ms[bad.value].why)
  {
    hide Parse, Encoded, ReceivedAll, AllTyped, Readable;
    MailboxKeepsNewest(live, ms);
    LastWhereFinds(live, ms, true);
    LastWhereFinds(live, ms, false);
    if ms != [] {
      StorableRows(live, ms, |ms| - 1, depth);
    }
  }

  /**
   * A window that needs the condition: a message nested too deep for the printer, then one with a payload.
   * The flush stores the newer message and leaves the older error standing.
   */
  lemma OlderErrorStands(live: Live, why: Text, error: Option<Text>, depth: nat, broken: Text)
    requires Idle(live) && live.fields == DeepFields(65) && live.limit >= NOTIFY_LIMIT && depth >= 3
    requires |HeadText(live.topic, live.kind, live.mailbox.sequence + 2)| + 521 <= NOTIFY_LIMIT
    ensures var ms := [Message(DeepSlots(65), why), Message([Slot([])], why)];
      && AllTyped(live, ms)
      && PayloadAt(live, ms, 0).None? && RowAt(live, ms, 1, depth).Some?
      && StoredRow(Take(ReceivedAll(live, ms).mailbox, depth, broken), None) == RowAt(live, ms, 1, depth)
      && StoredError(Take(ReceivedAll(live, ms).mailbox, depth, broken), error) == Some(why)
      && ErrorThrough(live, ms, error, depth, broken) == None
  {
    hide Parse, DeepFields, DeepSlots, HeadText, PayloadText, ReceivedAll;
    var ms := [Message(DeepSlots(65), why), Message([Slot([])], why)];
    DeepIsEncodable(65);
    ShallowStores(live, live.mailbox.sequence + 2, 65, depth);
    assert ms[0].slots == DeepSlots(65) && ms[1].slots == [Slot([])];
    assert PayloadAt(live, ms, 0).None? && PayloadAt(live, ms, 1).Some?;
    MailboxKeepsNewest(live, ms);
    LastWhereFinds(live, ms, true);
    LastWhereFinds(live, ms, false);
  }
}
