/**
 * The bounded JSON writer for messages, proved against the text an unbounded writer would produce.
 */
module Encoding {
  import opened Basics
  import opened Schema
  import Json

  /** PostgreSQL refuses a notification payload of 8000 bytes or more. */
  const NOTIFY_LIMIT: nat := 7999
  /** The deepest level at which a message may start; the root is at level 0. */
  const MAX_LEVEL: nat := 64

  // ---------- the unbounded encoding ----------

  /** What separates the `i`-th element or member from the one before. */
  function Comma(i: nat): Text {
    if i > 0 then "," else ""
  }

  function FieldsOf(kind: Kind): seq<Field> {
    if kind.Nested? then kind.fields else []
  }

  function FloatText(f: Float): Text {
    if f.Finite? then f.token else "null"
  }

  function ElemText(kind: Kind, e: Elem): Text
    decreases e
  {
    match e
    case IntegerE(n) => Json.Decimal(n)
    case FloatE(f) => FloatText(f)
    case BooleanE(b) => if b then "true" else "false"
    case StringE(t) => Json.Quote(t)
    case MessageE(slots) => "{" + MembersText(FieldsOf(kind), slots, 0)
    case LongDoubleE => ""
  }

  function SlotText(field: Field, slot: Slot): Text
    decreases slot, 0
  {
    if field.form.Single? then
      if slot.elems == [] then "" else ElemText(field.kind, slot.elems[0])
    else "[" + ItemsText(field.kind, slot.elems, 0)
  }

  function MemberText(field: Field, slot: Slot): Text
    decreases slot, 1
  {
    Json.Quote(field.name) + (":" + SlotText(field, slot))
  }

  /** The elements from the `i`-th on, and the closing bracket. */
  function ItemsText(kind: Kind, elems: seq<Elem>, i: nat): Text
    decreases elems, |elems| - i
  {
    if i >= |elems| then "]"
    else Comma(i) + (ElemText(kind, elems[i]) + ItemsText(kind, elems, i + 1))
  }

  /** The members from the `i`-th on, and the closing brace. */
  function MembersText(fields: seq<Field>, slots: seq<Slot>, i: nat): Text
    decreases slots, |slots| - i
  {
    if i >= |slots| || i >= |fields| then "}"
    else
      Comma(i) + (MemberText(fields[i], slots[i]) + MembersText(fields, slots, i + 1))
  }

  function MessageText(fields: seq<Field>, slots: seq<Slot>): Text {
    "{" + MembersText(fields, slots, 0)
  }

  /** A fixed piece of the envelope: a key of its own with the punctuation around it. */
  function Piece(lead: Text, key: Text): Text {
    lead + ("\"" + (key + "\":"))
  }

  /** The envelope up to the message. */
  function HeadText(topic: Text, kind: Text, sequence: nat): Text {
    Piece("{", "topic") + (Json.Quote(topic) + (Piece(",", "message_type") + (Json.Quote(kind) +
    (Piece(",", "sequence") + (Json.Decimal(sequence) + Piece(",", "message"))))))
  }

  /** The whole payload: the message in its envelope. */
  function PayloadText(topic: Text, kind: Text, sequence: nat, fields: seq<Field>, slots: seq<Slot>): Text {
    HeadText(topic, kind, sequence) + (MessageText(fields, slots) + "}")
  }

  // ---------- which messages have an encoding ----------

  /** No long double is reached: neither a plain one nor a container of them, even an empty one. */
  predicate Plain(kind: Kind, e: Elem)
    decreases e
  {
    match e
    case MessageE(slots) => PlainSlots(FieldsOf(kind), slots)
    case LongDoubleE => false
    case _ => true
  }

  predicate PlainSlot(field: Field, slot: Slot)
    decreases slot
  {
    !field.kind.LongDouble? && forall j | 0 <= j < |slot.elems| :: Plain(field.kind, slot.elems[j])
  }

  predicate PlainSlots(fields: seq<Field>, slots: seq<Slot>)
    decreases slots
  {
    forall i | 0 <= i < |slots| && i < |fields| :: PlainSlot(fields[i], slots[i])
  }

  /** Some field is a long double, plain or in a container, in the message or in one nested in it. */
  predicate HoldsLongDouble(fields: seq<Field>, slots: seq<Slot>)
    decreases slots
  {
    exists i | 0 <= i < |slots| && i < |fields| :: LongDoubleIn(fields[i], slots[i])
  }

  predicate LongDoubleIn(field: Field, slot: Slot)
    decreases slot
  {
    || field.kind.LongDouble?
    || (field.kind.Nested? && exists j | 0 <= j < |slot.elems| ::
          slot.elems[j].MessageE? && HoldsLongDouble(field.kind.fields, slot.elems[j].slots))
  }

  /** A message is plain exactly when it holds no long double, so an empty container of them is refused too. */
  lemma {:induction false} PlainExactly(fields: seq<Field>, slots: seq<Slot>)
    requires TypedSlots(fields, slots)
    ensures PlainSlots(fields, slots) <==> !HoldsLongDouble(fields, slots)
    decreases slots
  {
    forall i | 0 <= i < |slots| ensures PlainSlot(fields[i], slots[i]) <==> !LongDoubleIn(fields[i], slots[i]) {
      assert TypedSlot(fields[i], slots[i]);
      PlainSlotExactly(fields[i], slots[i]);
    }
  }

  lemma {:induction false} PlainSlotExactly(field: Field, slot: Slot)
    requires TypedSlot(field, slot)
    ensures PlainSlot(field, slot) <==> !LongDoubleIn(field, slot)
    decreases slot
  {
    forall j | 0 <= j < |slot.elems|
      ensures field.kind.Nested? ==> slot.elems[j].MessageE?
      ensures field.kind.Nested? ==>
                (Plain(field.kind, slot.elems[j]) <==> !HoldsLongDouble(field.kind.fields, slot.elems[j].slots))
      ensures !field.kind.Nested? && !field.kind.LongDouble? ==> Plain(field.kind, slot.elems[j])
    {
      assert Typed(field.kind, slot.elems[j]);
      if field.kind.Nested? {
        PlainExactly(field.kind.fields, slot.elems[j].slots);
      }
    }
  }

  /** How many messages are nested in each other at this element, counting itself. */
  function Levels(e: Elem): nat {
    if e.MessageE? then 1 + SlotsLevels(e.slots) else 0
  }

  function ElemsLevels(elems: seq<Elem>): nat {
    if elems == [] then 0
    else var rest := ElemsLevels(elems[1..]); if Levels(elems[0]) > rest then Levels(elems[0]) else rest
  }

  /** The nesting of a message below itself: 0 when no field holds a message. */
  function SlotsLevels(slots: seq<Slot>): nat {
    if slots == [] then 0
    else
      var first := ElemsLevels(slots[0].elems);
      var rest := SlotsLevels(slots[1..]);
      if first > rest then first else rest
  }

  /** The message has a payload of at most `limit` bytes. */
  predicate Encodable(topic: Text, kind: Text, sequence: nat, fields: seq<Field>, slots: seq<Slot>, limit: nat) {
    && PlainSlots(fields, slots)
    && SlotsLevels(slots) <= MAX_LEVEL
    && |PayloadText(topic, kind, sequence, fields, slots)| <= limit
  }

  lemma {:induction false} ElemsLevelsBound(elems: seq<Elem>, n: nat)
    ensures ElemsLevels(elems) <= n <==> forall j | 0 <= j < |elems| :: Levels(elems[j]) <= n
  {
    if elems != [] {
      ElemsLevelsBound(elems[1..], n);
      assert forall j | 0 < j < |elems| :: elems[j] == elems[1..][j - 1];
      assert forall j | 0 <= j < |elems| - 1 :: elems[1..][j] == elems[j + 1];
    }
  }

  lemma {:induction false} SlotsLevelsBound(slots: seq<Slot>, n: nat)
    ensures SlotsLevels(slots) <= n <==> forall i | 0 <= i < |slots| :: ElemsLevels(slots[i].elems) <= n
  {
    if slots != [] {
      SlotsLevelsBound(slots[1..], n);
      assert forall j | 0 < j < |slots| :: slots[j] == slots[1..][j - 1];
      assert forall j | 0 <= j < |slots| - 1 :: slots[1..][j] == slots[j + 1];
    }
  }

  /** The writer's own checks, level by level: no long double, and no message below the deepest level. */
  predicate Allowed(kind: Kind, e: Elem, depth: nat)
    decreases e
  {
    match e
    case MessageE(slots) => depth <= MAX_LEVEL && AllowedMembers(FieldsOf(kind), slots, 0, depth + 1)
    case LongDoubleE => false
    case _ => true
  }

  predicate AllowedSlot(field: Field, slot: Slot, depth: nat)
    decreases slot
  {
    !field.kind.LongDouble? && AllowedItems(field.kind, slot.elems, 0, depth)
  }

  /** The elements from the `i`-th on may be written at this level. */
  predicate AllowedItems(kind: Kind, elems: seq<Elem>, i: nat, depth: nat)
    decreases elems, |elems| - i
  {
    i >= |elems| || (Allowed(kind, elems[i], depth) && AllowedItems(kind, elems, i + 1, depth))
  }

  predicate AllowedMembers(fields: seq<Field>, slots: seq<Slot>, i: nat, depth: nat)
    decreases slots, |slots| - i
  {
    i >= |slots| || i >= |fields| ||
    (AllowedSlot(fields[i], slots[i], depth) && AllowedMembers(fields, slots, i + 1, depth))
  }

  lemma {:induction false} AllowedItemsAll(kind: Kind, elems: seq<Elem>, i: nat, depth: nat)
    requires i <= |elems|
    ensures AllowedItems(kind, elems, i, depth) <==> forall j | i <= j < |elems| :: Allowed(kind, elems[j], depth)
    decreases |elems| - i
  {
    if i < |elems| {
      AllowedItemsAll(kind, elems, i + 1, depth);
    }
  }

  lemma {:induction false} AllowedMembersAll(fields: seq<Field>, slots: seq<Slot>, i: nat, depth: nat)
    requires i <= |slots| == |fields|
    ensures AllowedMembers(fields, slots, i, depth)
       <==> forall k | i <= k < |slots| :: AllowedSlot(fields[k], slots[k], depth)
    decreases |slots| - i
  {
    if i < |slots| {
      AllowedMembersAll(fields, slots, i + 1, depth);
    }
  }

  /** Checking level by level amounts to refusing long doubles and bounding the nesting. */
  lemma {:induction false} AllowedIsNesting(fields: seq<Field>, slots: seq<Slot>, depth: nat)
    requires TypedSlots(fields, slots)
    ensures depth <= 64 && AllowedMembers(fields, slots, 0, depth + 1)
       <==> PlainSlots(fields, slots) && depth + SlotsLevels(slots) <= 64
    decreases slots
  {
    if depth <= MAX_LEVEL {
      SlotsLevelsBound(slots, MAX_LEVEL - depth);
      AllowedMembersAll(fields, slots, 0, depth + 1);
      forall i | 0 <= i < |slots|
        ensures AllowedSlot(fields[i], slots[i], depth + 1)
           <==> PlainSlot(fields[i], slots[i]) && ElemsLevels(slots[i].elems) <= MAX_LEVEL - depth
      {
        AllowedSlotIsNesting(fields[i], slots[i], depth + 1);
      }
    }
  }

  lemma {:induction false} AllowedSlotIsNesting(field: Field, slot: Slot, depth: nat)
    requires TypedSlot(field, slot) && depth <= MAX_LEVEL + 1
    ensures AllowedSlot(field, slot, depth)
       <==> PlainSlot(field, slot) && depth + ElemsLevels(slot.elems) <= MAX_LEVEL + 1
    decreases slot
  {
    ElemsLevelsBound(slot.elems, MAX_LEVEL + 1 - depth);
    AllowedItemsAll(field.kind, slot.elems, 0, depth);
    forall j | 0 <= j < |slot.elems|
      ensures Allowed(field.kind, slot.elems[j], depth)
         <==> Plain(field.kind, slot.elems[j]) && depth + Levels(slot.elems[j]) <= MAX_LEVEL + 1
    {
      var e := slot.elems[j];
      assert Typed(field.kind, e);
      if e.MessageE? {
        AllowedIsNesting(field.kind.fields, e.slots, depth);
      }
    }
  }

  // ---------- the bounded writer ----------

  /** A JSON writer that refuses to grow past a byte limit. */
  class Output {
    var text: Text
    const limit: nat

    predicate Valid()
      reads this
    {
      |text| <= limit
    }

    /**
     * What every write promises: it succeeds exactly when `value` may be written and fits, and then
     * appends exactly `value`. The limit is respected either way.
     */
    predicate Wrote(before: Text, value: Text, allowed: bool, ok: bool)
      reads this
    {
      && Valid()
      && (ok <==> allowed && |before| + |value| <= limit)
      && (ok ==> text == before + value)
    }

    constructor (limit: nat)
      ensures text == "" && this.limit == limit
    {
      this.text := "";
      this.limit := limit;
    }

    method Push(value: Text) returns (ok: bool)
      requires Valid()
      modifies this
      ensures Wrote(old(text), value, true, ok)
      ensures !ok ==> text == old(text)
    {
      if |text| + |value| > limit {
        return false;
      }
      text := text + value;
      return true;
    }

    /**
     * Displaying a value hands its text over in pieces of any size; on failure some of them may
     * already have been written.
     */
    method Display(value: Text) returns (ok: bool)
      requires Valid()
      modifies this
      ensures Wrote(old(text), value, true, ok)
      ensures old(text) <= text <= old(text) + value
    {
      var done := 0;
      while done < |value|
        invariant 0 <= done <= |value|
        invariant Valid()
        invariant text == old(text) + value[..done]
      {
        var piece :| 0 < piece <= |value| - done;
        ok := Push(value[done..done + piece]);
        if !ok {
          return;
        }
        assert value[..done + piece] == value[..done] + value[done..done + piece];
        done := done + piece;
      }
      assert value[..done] == value;
      return true;
    }

    /** The value is first displayed into a scratch writer with the same limit, then quoted. */
    method String(value: Text) returns (ok: bool)
      requires Valid()
      modifies this
      ensures Wrote(old(text), Json.Quote(value), true, ok)
    {
      EscapeGrows(value);
      var raw := new Output(limit);
      ok := raw.Display(value);
      if !ok {
        return;
      }
      assert raw.text == value;
      ok := Push(Json.Quote(value));
    }

    /** The comma before every element or member but the first. */
    method Separate(index: nat) returns (ok: bool)
      requires Valid()
      modifies this
      ensures Wrote(old(text), Comma(index), true, ok)
    {
      ok := true;
      if index > 0 {
        ok := Push(",");
      }
    }

    method Message(fields: seq<Field>, slots: seq<Slot>, depth: nat) returns (ok: bool)
      requires Valid() && TypedSlots(fields, slots)
      modifies this
      ensures Wrote(old(text), MessageText(fields, slots),
                    depth <= MAX_LEVEL && AllowedMembers(fields, slots, 0, depth + 1), ok)
      decreases slots, 2
    {
      if depth > MAX_LEVEL {
        return false;
      }
      Assoc(text, "{", MembersText(fields, slots, 0));
      ghost var whole := text + MessageText(fields, slots);
      ok := Push("{");
      if !ok {
        return;
      }
      for index := 0 to |fields|
        invariant Valid()
        invariant text + MembersText(fields, slots, index) == whole
        invariant AllowedMembers(fields, slots, index, depth + 1) == AllowedMembers(fields, slots, 0, depth + 1)
      {
        ghost var member := MemberText(fields[index], slots[index]);
        ghost var rest := MembersText(fields, slots, index + 1);
        Assoc(text, Comma(index), member + rest);
        ok := Separate(index);
        if !ok {
          return;
        }
        Assoc(text, member, rest);
        ok := Member(fields[index], slots[index], depth + 1);
        if !ok {
          return;
        }
      }
      ok := Push("}");
    }

    /** One member: the body of the loop over the fields. */
    method Member(field: Field, slot: Slot, depth: nat) returns (ok: bool)
      requires Valid() && TypedSlot(field, slot)
      modifies this
      ensures Wrote(old(text), MemberText(field, slot), AllowedSlot(field, slot, depth), ok)
      decreases slot, 3
    {
      Assoc(text, Json.Quote(field.name), ":" + SlotText(field, slot));
      ok := String(field.name);
      if !ok {
        return;
      }
      Assoc(text, ":", SlotText(field, slot));
      ok := Push(":");
      if !ok {
        return;
      }
      ok := Value(field, slot, depth);
    }

    method Array(kind: Kind, elems: seq<Elem>, depth: nat) returns (ok: bool)
      requires Valid() && !kind.LongDouble?
      requires forall j | 0 <= j < |elems| :: Typed(kind, elems[j])
      modifies this
      ensures Wrote(old(text), "[" + ItemsText(kind, elems, 0),
                    AllowedItems(kind, elems, 0, depth), ok)
      decreases elems, 1
    {
      Assoc(text, "[", ItemsText(kind, elems, 0));
      ghost var whole := text + ("[" + ItemsText(kind, elems, 0));
      ok := Push("[");
      if !ok {
        return;
      }
      for index := 0 to |elems|
        invariant Valid()
        invariant text + ItemsText(kind, elems, index) == whole
        invariant AllowedItems(kind, elems, index, depth) == AllowedItems(kind, elems, 0, depth)
      {
        ghost var item, rest := ElemText(kind, elems[index]), ItemsText(kind, elems, index + 1);
        Assoc(text, Comma(index), item + rest);
        ok := Separate(index);
        if !ok {
          return;
        }
        Assoc(text, item, rest);
        ok := Element(kind, elems[index], depth);
        if !ok {
          return;
        }
      }
      ok := Push("]");
    }

    method Value(field: Field, slot: Slot, depth: nat) returns (ok: bool)
      requires Valid() && TypedSlot(field, slot)
      modifies this
      ensures Wrote(old(text), SlotText(field, slot), AllowedSlot(field, slot, depth), ok)
      decreases slot, 2
    {
      if field.kind.LongDouble? {
        return false;
      }
      if field.form.Single? {
        assert AllowedItems(field.kind, slot.elems, 1, depth);
        ok := Element(field.kind, slot.elems[0], depth);
      } else {
        ok := Array(field.kind, slot.elems, depth);
      }
    }

    method Element(kind: Kind, e: Elem, depth: nat) returns (ok: bool)
      requires Valid() && Typed(kind, e)
      modifies this
      ensures Wrote(old(text), ElemText(kind, e), Allowed(kind, e, depth), ok)
      decreases e, 0
    {
      match e
      case IntegerE(n) => ok := Display(Json.Decimal(n));
      case FloatE(f) =>
        if f.Finite? {
          ok := Display(f.token);
        } else {
          ok := Push("null");
        }
      case BooleanE(b) => ok := Display(if b then "true" else "false");
      case StringE(t) => ok := String(t);
      case MessageE(slots) => ok := Message(kind.fields, slots, depth);
      case LongDoubleE => ok := false;
    }

    /** The envelope up to the message, written piece by piece. */
    method Head(topic: Text, kind: Text, sequence: nat) returns (ok: bool)
      requires Valid()
      modifies this
      ensures Wrote(old(text), HeadText(topic, kind, sequence), true, ok)
    {
      ghost var r5 := Json.Decimal(sequence) + Piece(",", "message");
      ghost var r4 := Piece(",", "sequence") + r5;
      ghost var r3 := Json.Quote(kind) + r4;
      ghost var r2 := Piece(",", "message_type") + r3;
      ghost var r1 := Json.Quote(topic) + r2;
      Assoc(text, Piece("{", "topic"), r1);
      ok := Push(Piece("{", "topic"));
      if !ok { return; }
      Assoc(text, Json.Quote(topic), r2);
      ok := String(topic);
      if !ok { return; }
      Assoc(text, Piece(",", "message_type"), r3);
      ok := Push(Piece(",", "message_type"));
      if !ok { return; }
      Assoc(text, Json.Quote(kind), r4);
      ok := String(kind);
      if !ok { return; }
      Assoc(text, Piece(",", "sequence"), r5);
      ok := Push(Piece(",", "sequence"));
      if !ok { return; }
      Assoc(text, Json.Decimal(sequence), Piece(",", "message"));
      ok := Display(Json.Decimal(sequence));
      if !ok { return; }
      ok := Push(Piece(",", "message"));
      if !ok { return; }
    }
  }

  /** Escaping never shortens, so the scratch writer refuses nothing that would fit once quoted. */
  lemma {:induction false} EscapeGrows(t: Text)
    ensures |Json.Escape(t)| >= |t|
    ensures |Json.Quote(t)| == |Json.Escape(t)| + 2
  {
    if t != "" {
      EscapeGrows(t[1..]);
      assert |Json.EscapeChar(t[0])| >= 1;
    }
  }

  lemma Assoc(a: Text, b: Text, c: Text)
    ensures a + (b + c) == (a + b) + c
    ensures |a + (b + c)| == |a| + |b| + |c|
  {
  }

  /** The payload, or nothing when the message has none within the limit. */
  method Payload(topic: Text, kind: Text, sequence: nat, fields: seq<Field>, slots: seq<Slot>, limit: nat)
    returns (r: Option<Text>)
    requires TypedSlots(fields, slots)
    ensures r == if Encodable(topic, kind, sequence, fields, slots, limit)
                 then Some(PayloadText(topic, kind, sequence, fields, slots)) else None
    ensures r.Some? <==> !HoldsLongDouble(fields, slots) && SlotsLevels(slots) <= 64
                         && |PayloadText(topic, kind, sequence, fields, slots)| <= limit
  {
    PlainExactly(fields, slots);
    var output := new Output(limit);
    var ok := output.Head(topic, kind, sequence);
    if !ok {
      return None;
    }
    AllowedIsNesting(fields, slots, 0);
    ghost var head := HeadText(topic, kind, sequence);
    assert output.text == head;
    Assoc(head, MessageText(fields, slots), "}");
    ok := output.Message(fields, slots, 0);
    if !ok {
      return None;
    }
    ok := output.Push("}");
    if !ok {
      return None;
    }
    return Some(output.text);
  }

  // ---------- the grammar of the unbounded encoding ----------

  /** The parts with a comma between any two. */
  function Join(parts: seq<Text>): Text {
    if parts == [] then "" else if |parts| == 1 then parts[0] else parts[0] + ("," + Join(parts[1..]))
  }

  /** The parts from the `i`-th on, each but the first after a comma, and what closes them. */
  function Closed(parts: seq<Text>, i: nat, close: Text): Text
    decreases |parts| - i
  {
    if i >= |parts| then close else Comma(i) + (parts[i] + Closed(parts, i + 1, close))
  }

  lemma {:induction false} ClosedJoins(parts: seq<Text>, i: nat, close: Text)
    requires i < |parts|
    ensures Closed(parts, i, close) == Comma(i) + (Join(parts[i..]) + close)
    decreases |parts| - i
  {
    var rest := parts[i + 1..];
    assert parts[i..][1..] == rest;
    if i + 1 < |parts| {
      ClosedJoins(parts, i + 1, close);
      assert parts[i] + ("," + (Join(rest) + close)) == (parts[i] + ("," + Join(rest))) + close;
    }
  }

  function Members(fields: seq<Field>, slots: seq<Slot>): seq<Text>
    requires |slots| == |fields|
  {
    seq(|slots|, i requires 0 <= i < |slots| => Json.Quote(fields[i].name) + (":" + SlotText(fields[i], slots[i])))
  }

  function Items(kind: Kind, elems: seq<Elem>): seq<Text> {
    seq(|elems|, i requires 0 <= i < |elems| => ElemText(kind, elems[i]))
  }

  /** A message is an object: its fields in order, each a quoted name, a colon and the value. */
  lemma MessageJoins(fields: seq<Field>, slots: seq<Slot>)
    requires |slots| == |fields|
    ensures MessageText(fields, slots) == "{" + (Join(Members(fields, slots)) + "}")
  {
    hide SlotText, Json.Quote;
    MembersClosed(fields, slots, 0);
    if slots != [] {
      ClosedJoins(Members(fields, slots), 0, "}");
      assert Members(fields, slots)[0..] == Members(fields, slots);
    }
  }

  lemma {:induction false} MembersClosed(fields: seq<Field>, slots: seq<Slot>, i: nat)
    requires i <= |slots| == |fields|
    ensures MembersText(fields, slots, i) == Closed(Members(fields, slots), i, "}")
    decreases |slots| - i
  {
    hide SlotText, Json.Quote;
    if i < |slots| {
      MembersClosed(fields, slots, i + 1);
      assert Members(fields, slots)[i] == MemberText(fields[i], slots[i]);
    }
  }

  /** A container is an array of its elements in order. */
  lemma ArrayJoins(field: Field, slot: Slot)
    requires !field.form.Single?
    ensures SlotText(field, slot) == "[" + (Join(Items(field.kind, slot.elems)) + "]")
  {
    ItemsClosed(field.kind, slot.elems, 0);
    hide ElemText;
    if slot.elems != [] {
      ClosedJoins(Items(field.kind, slot.elems), 0, "]");
      assert Items(field.kind, slot.elems)[0..] == Items(field.kind, slot.elems);
    }
  }

  lemma {:induction false} ItemsClosed(kind: Kind, elems: seq<Elem>, i: nat)
    requires i <= |elems|
    ensures ItemsText(kind, elems, i) == Closed(Items(kind, elems), i, "]")
    decreases |elems| - i
  {
    hide ElemText;
    if i < |elems| {
      ItemsClosed(kind, elems, i + 1);
    }
  }

  lemma FirstPiece()
    ensures Piece("{", "topic") == "{\"topic\":"
  {
  }

  lemma KindPiece()
    ensures Piece(",", "message_type") == ",\"message_type\":"
  {
  }

  lemma SequencePiece()
    ensures Piece(",", "sequence") == ",\"sequence\":"
  {
  }

  lemma MessagePiece()
    ensures Piece(",", "message") == ",\"message\":"
  {
  }

  /** The envelope, byte for byte. */
  lemma PayloadJoins(topic: Text, kind: Text, sequence: nat, fields: seq<Field>, slots: seq<Slot>)
    ensures PayloadText(topic, kind, sequence, fields, slots) ==
            ("{\"topic\":" + (Json.Quote(topic) + (",\"message_type\":" + (Json.Quote(kind) +
            (",\"sequence\":" + (Json.Decimal(sequence) + ",\"message\":")))))) + (MessageText(fields, slots) + "}")
  {
    hide Piece, Json.Quote, Json.Decimal, MessageText;
    FirstPiece();
    KindPiece();
    SequencePiece();
    MessagePiece();
  }

  /** Scalars: integers and finite floats as they display, other floats as `null`, and the two words. */
  lemma ScalarsExactly(kind: Kind, e: Elem)
    requires !e.MessageE?
    ensures e.IntegerE? ==> ElemText(kind, e) == Json.Decimal(e.n)
    ensures e.FloatE? ==> ElemText(kind, e) == if e.f.Finite? then e.f.token else "null"
    ensures e.BooleanE? ==> ElemText(kind, e) == if e.b then "true" else "false"
    ensures e.StringE? ==> ElemText(kind, e) == Json.Quote(e.text)
  {
  }

  /** What a string looks like with characters that RFC 8259 escapes. */
  lemma QuoteExample()
    ensures Json.Quote("x\n\"\\") == "\"x\\n\\\"\\\\\""
    ensures Json.Quote([1 as char]) == "\"\\u0001\""
  {
    var t := "x\n\"\\";
    assert t[1..] == "\n\"\\" && t[1..][1..] == "\"\\" && t[1..][1..][1..] == "\\" && t[1..][1..][1..][1..] == "";
    assert Json.Escape(t[1..][1..][1..]) == "\\\\";
    assert Json.Escape(t[1..][1..]) == "\\\"\\\\";
    assert Json.Escape(t[1..]) == "\\n\\\"\\\\";
    assert [1 as char][1..] == "";
    assert Json.EscapeChar(1 as char) == "\\u0001";
  }
}
