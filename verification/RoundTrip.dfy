/** The decoder is the inverse of the subscription encoder, whatever the decoded message held before. */
module RoundTrip {
  import opened Basics
  import opened Schema
  import opened Json
  import opened Encoding
  import opened Decoding
  import Inversion
  import Lexemes
  import Nesting

  /** The JSON values that an integer accepts are exactly the decimal texts of the integers in its range. */
  lemma IntegersAccepted(j: Json, signed: bool, width: Width, n: int)
    ensures IntegerOf(j, signed, width) == Some(n) <==> j == Number(Decimal(n)) && InRange(n, signed, width)
  {
    Lexemes.DecimalIsNumber(n);
    if j.Number? && ValidNumber(j.lexeme) {
      Lexemes.IntegersExactly(j.lexeme, n);
    }
  }

  lemma {:induction false} ElemRoundTrip(kind: Kind, target: Elem, e: Elem)
    requires ValidKind(kind) && Typed(kind, target) && Typed(kind, e) && Plain(kind, e)
    ensures FitsElem(kind, Inversion.ElemTree(kind, e))
    ensures OverlayElem(kind, target, Inversion.ElemTree(kind, e)) == Canonical(e)
    decreases e
  {
    hide IntegerOf, Decimal, AsInteger, ValidNumber, Inversion.MembersTree, OverlaySlots, FitsMembers;
    match e
    case IntegerE(n) =>
      IntegersAccepted(Number(Decimal(n)), kind.signed, kind.width, n);
    case MessageE(slots) => MessageRoundTrip(kind.fields, target.slots, slots);
    case _ =>
  }

  lemma {:induction false} SlotRoundTrip(field: Field, target: Slot, slot: Slot)
    requires ValidKind(field.kind)
    requires TypedSlot(field, target) && TypedSlot(field, slot) && PlainSlot(field, slot)
    ensures FitsSlot(field, Inversion.SlotTree(field, slot))
    ensures OverlaySlot(field, target, Inversion.SlotTree(field, slot)) == Slot(CanonicalElems(slot.elems))
    decreases slot
  {
    var base := Base(field, target, |slot.elems|);
    forall j | 0 <= j < |slot.elems|
      ensures FitsElem(field.kind, Inversion.ElemTree(field.kind, slot.elems[j]))
      ensures OverlayElem(field.kind, base[j], Inversion.ElemTree(field.kind, slot.elems[j])) == Canonical(slot.elems[j])
    {
      ElemRoundTrip(field.kind, base[j], slot.elems[j]);
    }
  }

  lemma {:induction false} MessageRoundTrip(fields: seq<Field>, target: seq<Slot>, slots: seq<Slot>)
    requires ValidFields(fields)
    requires TypedSlots(fields, target) && TypedSlots(fields, slots) && PlainSlots(fields, slots)
    ensures FitsMembers(fields, Inversion.MembersTree(fields, slots, |slots|))
    ensures OverlaySlots(fields, target, Inversion.MembersTree(fields, slots, |slots|)) == CanonicalSlots(slots)
    decreases slots
  {
    hide Inversion.SlotTree, OverlaySlot, FitsSlot;
    var members := Inversion.MembersTree(fields, slots, |slots|);
    Inversion.MembersTreeAt(fields, slots, |slots|);
    forall i | 0 <= i < |slots|
      ensures FitsSlot(fields[i], members[fields[i].name])
      ensures OverlaySlot(fields[i], target[i], members[fields[i].name]) == CanonicalSlots(slots)[i]
    {
      SlotRoundTrip(fields[i], target[i], slots[i]);
    }
    assert FitsMembers(fields, members);
  }

  /**
   * Parsing an accepted payload and decoding its `message` member into any message of that type
   * succeeds and yields the original, with each non-finite float replaced by NaN.
   */
  lemma PayloadRoundTrip(
      topic: Text, kind: Text, sequence: nat, fields: seq<Field>, slots: seq<Slot>, target: seq<Slot>,
      limit: nat, depth: nat)
    requires ValidFields(fields) && TypedSlots(fields, slots) && TypedSlots(fields, target)
    requires Encodable(topic, kind, sequence, fields, slots, limit) && depth >= 2 * SlotsLevels(slots) + 3
    ensures var parsed := Parse(PayloadText(topic, kind, sequence, fields, slots), depth);
      && parsed.Some? && parsed.value.Object? && "message" in parsed.value.members
      && var message := parsed.value.members["message"];
         && message.Object? && FitsMembers(fields, message.members)
         && OverlaySlots(fields, target, message.members) == CanonicalSlots(slots)
  {
    hide Parse, PayloadText;
    var tree := Inversion.PayloadTree(topic, kind, sequence, fields, slots);
    Nesting.PayloadWithin(topic, kind, sequence, fields, slots);
    Nesting.WithinGrows(tree, 2 * SlotsLevels(slots) + 3, depth);
    Nesting.WholeParses(topic, kind, sequence, fields, slots, depth);
    assert tree.members["message"] == Inversion.MessageTree(fields, slots);
    MessageRoundTrip(fields, target, slots);
  }

  /** Encoding what was decoded reproduces the message's JSON text. */
  lemma Reencodes(fields: seq<Field>, slots: seq<Slot>)
    ensures MessageText(fields, CanonicalSlots(slots)) == MessageText(fields, slots)
  {
    MembersReencode(fields, slots, 0);
  }

  lemma {:induction false} ElemReencodes(kind: Kind, e: Elem)
    ensures ElemText(kind, Canonical(e)) == ElemText(kind, e)
    decreases e
  {
    if e.MessageE? {
      MembersReencode(FieldsOf(kind), e.slots, 0);
    }
  }

  lemma {:induction false} ItemsReencode(kind: Kind, elems: seq<Elem>, i: nat)
    ensures ItemsText(kind, CanonicalElems(elems), i) == ItemsText(kind, elems, i)
    decreases elems, |elems| - i
  {
    if i < |elems| {
      ElemReencodes(kind, elems[i]);
      ItemsReencode(kind, elems, i + 1);
    }
  }

  lemma {:induction false} MembersReencode(fields: seq<Field>, slots: seq<Slot>, i: nat)
    ensures MembersText(fields, CanonicalSlots(slots), i) == MembersText(fields, slots, i)
    decreases slots, |slots| - i
  {
    if i < |slots| && i < |fields| {
      var elems := slots[i].elems;
      if elems != [] {
        ElemReencodes(fields[i].kind, elems[0]);
      }
      ItemsReencode(fields[i].kind, elems, 0);
      assert SlotText(fields[i], CanonicalSlots(slots)[i]) == SlotText(fields[i], slots[i]);
      MembersReencode(fields, slots, i + 1);
    }
  }

  // ---------- decoding the same object again changes nothing ----------

  lemma {:induction false} ElemTwice(kind: Kind, target: Elem, j: Json)
    requires ValidKind(kind) && Typed(kind, target) && FitsElem(kind, j)
    ensures OverlayElem(kind, OverlayElem(kind, target, j), j) == OverlayElem(kind, target, j)
    decreases kind
  {
    if kind.Nested? {
      MessageTwice(kind.fields, target.slots, j.members);
    }
  }

  lemma {:induction false} MessageTwice(fields: seq<Field>, target: seq<Slot>, members: map<Text, Json>)
    requires ValidFields(fields) && TypedSlots(fields, target) && FitsMembers(fields, members)
    ensures var once := OverlaySlots(fields, target, members); OverlaySlots(fields, once, members) == once
    decreases fields
  {
    var once := OverlaySlots(fields, target, members);
    forall i | 0 <= i < |fields| && fields[i].name in members
      ensures OverlaySlot(fields[i], once[i], members[fields[i].name]) == once[i]
    {
      SlotTwice(fields[i], target[i], members[fields[i].name]);
    }
  }

  lemma {:induction false} SlotTwice(field: Field, target: Slot, j: Json)
    requires ValidKind(field.kind) && TypedSlot(field, target) && FitsSlot(field, j)
    ensures var once := OverlaySlot(field, target, j); OverlaySlot(field, once, j) == once
    decreases field
  {
    var once := OverlaySlot(field, target, j);
    if field.form.Single? {
      ElemTwice(field.kind, target.elems[0], j);
    } else if field.form.Fixed? {
      forall i | 0 <= i < |j.items|
        ensures OverlayElem(field.kind, once.elems[i], j.items[i]) == once.elems[i]
      {
        ElemTwice(field.kind, target.elems[i], j.items[i]);
      }
    }
    assert OverlaySlot(field, once, j).elems == once.elems;
  }
}
