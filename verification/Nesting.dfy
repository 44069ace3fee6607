/** How deep the brackets of a payload nest, and what follows for a parser with a limit of its own. */
module Nesting {
  import opened Basics
  import opened Schema
  import opened Json
  import opened Encoding
  import opened Inversion
  import Lexemes

  /** The envelope, 65 levels of messages, one array around each nested message and one innermost array. */
  const MAX_BRACKETS: nat := 2 * MAX_LEVEL + 3

  lemma {:induction false} WithinGrows(j: Json, d: nat, d': nat)
    requires Within(j, d) && d <= d'
    ensures Within(j, d')
    decreases j
  {
    match j
    case Array(items) =>
      forall i | 0 <= i < |items| ensures Within(items[i], d' - 1) {
        WithinGrows(items[i], d - 1, d' - 1);
      }
    case Object(members) =>
      forall k | k in members ensures Within(members[k], d' - 1) {
        WithinGrows(members[k], d - 1, d' - 1);
      }
    case _ =>
  }

  lemma {:induction false} ElemWithin(kind: Kind, e: Elem)
    requires ValidKind(kind) && Typed(kind, e)
    ensures Within(ElemTree(kind, e), 2 * Levels(e))
    decreases e
  {
    if e.MessageE? {
      MessageWithin(kind.fields, e.slots);
    }
  }

  lemma {:induction false} SlotWithin(field: Field, slot: Slot, n: nat)
    requires ValidKind(field.kind) && TypedSlot(field, slot) && ElemsLevels(slot.elems) <= n
    ensures Within(SlotTree(field, slot), 2 * n + 1)
    decreases slot
  {
    ElemsLevelsBound(slot.elems, n);
    forall j | 0 <= j < |slot.elems|
      ensures Within(ElemTree(field.kind, slot.elems[j]), 2 * n)
    {
      ElemWithin(field.kind, slot.elems[j]);
      WithinGrows(ElemTree(field.kind, slot.elems[j]), 2 * Levels(slot.elems[j]), 2 * n);
    }
    if field.form.Single? {
      WithinGrows(ElemTree(field.kind, slot.elems[0]), 2 * n, 2 * n + 1);
    }
  }

  /** A message nests two brackets per level below it, and two of its own. */
  lemma {:induction false} MessageWithin(fields: seq<Field>, slots: seq<Slot>)
    requires ValidFields(fields) && TypedSlots(fields, slots)
    ensures Within(MessageTree(fields, slots), 2 * SlotsLevels(slots) + 2)
    decreases slots
  {
    hide SlotTree, MembersTree, ElemsLevels, SlotsLevels, TypedSlot, ValidKind, Within, DistinctNames;
    var n := SlotsLevels(slots);
    SlotsLevelsBound(slots, n);
    forall i | 0 <= i < |slots|
      ensures Within(SlotTree(fields[i], slots[i]), 2 * n + 1)
    {
      SlotWithin(fields[i], slots[i], n);
    }
    WithinFromAll(fields, slots, 0, 2 * n + 1);
    WithinMembers(fields, slots, 2 * n + 1);
  }

  lemma PayloadWithin(topic: Text, kind: Text, sequence: nat, fields: seq<Field>, slots: seq<Slot>)
    requires ValidFields(fields) && TypedSlots(fields, slots)
    ensures Within(PayloadTree(topic, kind, sequence, fields, slots), 2 * SlotsLevels(slots) + 3)
  {
    MessageWithin(fields, slots);
    EnvelopeWithin(topic, kind, sequence, MessageTree(fields, slots), 2 * SlotsLevels(slots) + 3);
  }

  /** A parser that goes at least 131 levels deep reads every payload the writer accepts. */
  lemma AcceptedPayloadsParse(
      topic: Text, kind: Text, sequence: nat, fields: seq<Field>, slots: seq<Slot>, limit: nat, depth: nat)
    requires ValidFields(fields) && TypedSlots(fields, slots)
    requires Encodable(topic, kind, sequence, fields, slots, limit) && depth >= 131
    ensures Parse(PayloadText(topic, kind, sequence, fields, slots), depth)
         == Some(PayloadTree(topic, kind, sequence, fields, slots))
  {
    var text, tree := PayloadText(topic, kind, sequence, fields, slots), PayloadTree(topic, kind, sequence, fields, slots);
    PayloadWithin(topic, kind, sequence, fields, slots);
    WithinGrows(tree, 2 * SlotsLevels(slots) + 3, depth);
    WholeParses(topic, kind, sequence, fields, slots, depth);
  }

  /** The whole payload, to a parser that goes `depth` levels deep. */
  lemma WholeParses(topic: Text, kind: Text, sequence: nat, fields: seq<Field>, slots: seq<Slot>, depth: nat)
    requires ValidFields(fields) && TypedSlots(fields, slots) && PlainSlots(fields, slots)
    ensures Parse(PayloadText(topic, kind, sequence, fields, slots), depth)
         == if Within(PayloadTree(topic, kind, sequence, fields, slots), depth)
            then Some(PayloadTree(topic, kind, sequence, fields, slots)) else None
  {
    hide ParseValue;
    var text := PayloadText(topic, kind, sequence, fields, slots);
    assert text + "" == text;
    PayloadParses(topic, kind, sequence, fields, slots, "", depth);
  }

  /** Equal payloads have equal topic, type, sequence number and message tree, so a payload names its sequence number. */
  lemma PayloadInjective(
      topic: Text, kind: Text, sequence: nat, fields: seq<Field>, slots: seq<Slot>,
      topic': Text, kind': Text, sequence': nat, fields': seq<Field>, slots': seq<Slot>)
    requires ValidFields(fields) && TypedSlots(fields, slots) && PlainSlots(fields, slots)
    requires ValidFields(fields') && TypedSlots(fields', slots') && PlainSlots(fields', slots')
    requires PayloadText(topic, kind, sequence, fields, slots) == PayloadText(topic', kind', sequence', fields', slots')
    ensures topic == topic' && kind == kind' && sequence == sequence'
    ensures MessageTree(fields, slots) == MessageTree(fields', slots')
  {
    hide Parse, PayloadText;
    var depth := 2 * SlotsLevels(slots) + 3;
    PayloadWithin(topic, kind, sequence, fields, slots);
    WholeParses(topic, kind, sequence, fields, slots, depth);
    WholeParses(topic', kind', sequence', fields', slots', depth);
    var m := PayloadTree(topic, kind, sequence, fields, slots).members;
    var m' := PayloadTree(topic', kind', sequence', fields', slots').members;
    assert m == m';
    assert m["topic"] == m'["topic"] && m["message_type"] == m'["message_type"];
    assert m["sequence"] == m'["sequence"] && m["message"] == m'["message"];
    Lexemes.DigitsInvert(sequence);
    Lexemes.DigitsInvert(sequence');
  }

  // ---------- the bound is reached ----------

  /** A message type nested `n` levels deep, each level a sequence of the next and the last one of bytes. */
  function DeepFields(n: nat): seq<Field> {
    [Field("a", Unbounded, if n == 0 then Integer(false, Bits8) else Nested(DeepFields(n - 1)), Slot([]))]
  }

  function DeepSlots(n: nat): seq<Slot> {
    [Slot(if n == 0 then [] else [MessageE(DeepSlots(n - 1))])]
  }

  lemma {:induction false} DeepIsEncodable(n: nat)
    ensures ValidFields(DeepFields(n)) && TypedSlots(DeepFields(n), DeepSlots(n))
    ensures PlainSlots(DeepFields(n), DeepSlots(n))
    ensures SlotsLevels(DeepSlots(n)) == n
    ensures |MessageText(DeepFields(n), DeepSlots(n))| == 8 * (n + 1)
  {
    if n > 0 {
      DeepIsEncodable(n - 1);
    }
    DeepLevels(n);
    DeepLength(n);
  }

  lemma DeepLevels(n: nat)
    requires n > 0 ==> SlotsLevels(DeepSlots(n - 1)) == n - 1
    ensures SlotsLevels(DeepSlots(n)) == n
  {
    var elems := DeepSlots(n)[0].elems;
    assert ElemsLevels(elems) == n by {
      if n > 0 {
        assert elems[1..] == [];
        assert Levels(elems[0]) == n;
      }
    }
    assert DeepSlots(n)[1..] == [];
  }

  lemma DeepLength(n: nat)
    requires n > 0 ==> |MessageText(DeepFields(n - 1), DeepSlots(n - 1))| == 8 * n
    ensures |MessageText(DeepFields(n), DeepSlots(n))| == 8 * (n + 1)
  {
    var fields, slots := DeepFields(n), DeepSlots(n);
    var field, slot := fields[0], slots[0];
    assert Escape("a") == "a" by { assert "a"[1..] == ""; }
    assert |Quote("a")| == 3;
    if n == 0 {
      assert ItemsText(field.kind, slot.elems, 0) == "]";
    } else {
      assert ItemsText(field.kind, slot.elems, 1) == "]";
      assert |ItemsText(field.kind, slot.elems, 0)| == 8 * n + 1;
    }
    assert MembersText(fields, slots, 1) == "}";
    assert |MemberText(field, slot)| == 8 * n + 6;
  }

  lemma {:induction false} DeepIsNotShallower(n: nat)
    ensures !Within(MessageTree(DeepFields(n), DeepSlots(n)), 2 * n + 1)
  {
    var fields, slots := DeepFields(n), DeepSlots(n);
    var items := ItemsTree(fields[0].kind, slots[0].elems, |slots[0].elems|);
    WithinMembers(fields, slots, 2 * n);
    assert SlotTree(fields[0], slots[0]) == Array(items);
    if n == 0 {
      assert !Within(Array(items), 0);
    } else {
      DeepIsNotShallower(n - 1);
      assert items[0] == MessageTree(DeepFields(n - 1), DeepSlots(n - 1));
      assert !Within(Array(items), 2 * n);
    }
  }

  /**
   * The bound of 131 is reached by a short payload: the writer accepts it, even for a notification,
   * and any parser with a lower nesting limit refuses it.
   */
  lemma DeepPayload(topic: Text, kind: Text, sequence: nat, depth: nat)
    requires |HeadText(topic, kind, sequence)| + 521 <= 7999 && depth < 131
    ensures Encodable(topic, kind, sequence, DeepFields(64), DeepSlots(64), NOTIFY_LIMIT)
    ensures Parse(PayloadText(topic, kind, sequence, DeepFields(64), DeepSlots(64)), depth) == None
  {
    hide Parse, DeepFields, DeepSlots;
    var fields, slots := DeepFields(MAX_LEVEL), DeepSlots(MAX_LEVEL);
    var tree := PayloadTree(topic, kind, sequence, fields, slots);
    DeepIsEncodable(MAX_LEVEL);
    DeepIsNotShallower(MAX_LEVEL);
    EnvelopeWithin(topic, kind, sequence, MessageTree(fields, slots), MAX_BRACKETS - 1);
    if Within(tree, depth) {
      WithinGrows(tree, depth, MAX_BRACKETS - 1);
    }
    WholeParses(topic, kind, sequence, fields, slots, depth);
  }
}
