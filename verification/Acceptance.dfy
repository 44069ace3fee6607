/**
 * Which JSON a message type accepts and what decoding makes of it, said about JSON trees of values: without
 * the predicates and functions that the decoder is proved against.
 */
module Acceptance {
  import opened Basics
  import opened Schema
  import opened Json
  import opened Decoding
  import Inversion
  import Lexemes
  import RoundTrip

  /**
   * The JSON value says nothing that the other does not: the same scalars, arrays of the same length item by
   * item, and objects with some of the members.
   */
  ghost predicate PartOf(j: Json, whole: Json)
    decreases j
  {
    match j
    case Array(items) =>
      whole.Array? && |items| == |whole.items| && forall i | 0 <= i < |items| :: PartOf(items[i], whole.items[i])
    case Object(members) =>
      whole.Object? && forall k | k in members :: k in whole.members && PartOf(members[k], whole.members[k])
    case _ => j == whole
  }

  /** A long double, or a container of them, would have to be decoded. */
  predicate Touches(kind: Kind, j: Json)
    decreases kind
  {
    match kind
    case LongDouble => true
    case Nested(fields) => j.Object? && TouchesMembers(fields, j.members)
    case _ => false
  }

  predicate TouchesMembers(fields: seq<Field>, members: map<Text, Json>)
    decreases fields
  {
    exists i | 0 <= i < |fields| :: fields[i].name in members && TouchesSlot(fields[i], members[fields[i].name])
  }

  predicate TouchesSlot(field: Field, j: Json)
    decreases field
  {
    || field.kind.LongDouble?
    || (if field.form.Single? then Touches(field.kind, j)
        else j.Array? && exists i | 0 <= i < |j.items| :: Touches(field.kind, j.items[i]))
  }

  // ---------- what is part of a value's tree fits ----------

  lemma {:induction false} PartFits(kind: Kind, e: Elem, j: Json)
    requires ValidKind(kind) && Typed(kind, e) && PartOf(j, Inversion.ElemTree(kind, e)) && !Touches(kind, j)
    ensures FitsElem(kind, j)
    decreases kind
  {
    match kind
    case Integer(signed, width) => RoundTrip.IntegersAccepted(j, signed, width, e.n);
    case Nested(fields) => MembersFit(fields, e.slots, j.members);
    case _ =>
  }

  lemma {:induction false} MembersFit(fields: seq<Field>, slots: seq<Slot>, members: map<Text, Json>)
    requires ValidFields(fields) && TypedSlots(fields, slots)
    requires PartOf(Object(members), Inversion.MessageTree(fields, slots)) && !TouchesMembers(fields, members)
    ensures FitsMembers(fields, members)
    decreases fields
  {
    hide PartOf, FitsSlot, TouchesSlot, Inversion.SlotTree;
    PartsOf(members, Inversion.MessageTree(fields, slots).members);
    Inversion.MembersTreeAt(fields, slots, |slots|);
    forall i | 0 <= i < |fields| && fields[i].name in members
      ensures FitsSlot(fields[i], members[fields[i].name])
    {
      assert ValidKind(fields[i].kind) && TypedSlot(fields[i], slots[i]);
      SlotFits(fields[i], slots[i], members[fields[i].name]);
    }
  }

  lemma PartsOf(members: map<Text, Json>, whole: map<Text, Json>)
    ensures PartOf(Object(members), Object(whole)) <==>
            forall k | k in members :: k in whole && PartOf(members[k], whole[k])
  {
  }

  lemma {:induction false} SlotFits(field: Field, slot: Slot, j: Json)
    requires ValidKind(field.kind) && TypedSlot(field, slot)
    requires PartOf(j, Inversion.SlotTree(field, slot)) && !TouchesSlot(field, j)
    ensures FitsSlot(field, j)
    decreases field
  {
    if field.form.Single? {
      PartFits(field.kind, slot.elems[0], j);
    } else {
      forall i | 0 <= i < |j.items| ensures FitsElem(field.kind, j.items[i]) {
        PartFits(field.kind, slot.elems[i], j.items[i]);
      }
    }
  }

  // ---------- what fits is part of what it decodes to ----------

  /** Decoding over any target yields a value that says everything the JSON does. */
  lemma {:induction false} ElemHolds(kind: Kind, target: Elem, j: Json)
    requires ValidKind(kind) && Typed(kind, target) && FitsElem(kind, j)
    ensures PartOf(j, Inversion.ElemTree(kind, OverlayElem(kind, target, j))) && !Touches(kind, j)
    decreases kind
  {
    match kind
    case Integer(signed, width) => RoundTrip.IntegersAccepted(j, signed, width, IntegerOf(j, signed, width).value);
    case Nested(fields) => MembersHold(fields, target.slots, j.members);
    case _ =>
  }

  lemma {:induction false} MembersHold(fields: seq<Field>, target: seq<Slot>, members: map<Text, Json>)
    requires ValidFields(fields) && TypedSlots(fields, target) && FitsMembers(fields, members)
    ensures PartOf(Object(members), Inversion.MessageTree(fields, OverlaySlots(fields, target, members)))
    ensures !TouchesMembers(fields, members)
    decreases fields
  {
    hide PartOf, FitsSlot, TouchesSlot, Inversion.SlotTree, OverlaySlot;
    var slots := OverlaySlots(fields, target, members);
    var whole := Inversion.MessageTree(fields, slots).members;
    Inversion.MembersTreeAt(fields, slots, |slots|);
    forall i | 0 <= i < |fields| && fields[i].name in members
      ensures PartOf(members[fields[i].name], Inversion.SlotTree(fields[i], slots[i]))
      ensures !TouchesSlot(fields[i], members[fields[i].name])
    {
      assert ValidKind(fields[i].kind) && TypedSlot(fields[i], target[i]);
      SlotHolds(fields[i], target[i], members[fields[i].name]);
    }
    forall k | k in members ensures k in whole && PartOf(members[k], whole[k]) {
      var i :| 0 <= i < |fields| && fields[i].name == k;
    }
    PartsOf(members, whole);
  }

  lemma {:induction false} SlotHolds(field: Field, target: Slot, j: Json)
    requires ValidKind(field.kind) && TypedSlot(field, target) && FitsSlot(field, j)
    ensures PartOf(j, Inversion.SlotTree(field, OverlaySlot(field, target, j))) && !TouchesSlot(field, j)
    decreases field
  {
    if field.form.Single? {
      ElemHolds(field.kind, target.elems[0], j);
    } else {
      var base := Base(field, target, |j.items|);
      forall i | 0 <= i < |j.items|
        ensures PartOf(j.items[i], Inversion.ElemTree(field.kind, OverlayElem(field.kind, base[i], j.items[i])))
        ensures !Touches(field.kind, j.items[i])
      {
        ElemHolds(field.kind, base[i], j.items[i]);
      }
    }
  }

  /**
   * A message type accepts exactly the JSON objects that are part of the tree of some message of that type,
   * and that leave its long doubles alone.
   */
  lemma AcceptedExactly(fields: seq<Field>, j: Json)
    requires ValidFields(fields)
    ensures j.Object? && FitsMembers(fields, j.members) <==>
            j.Object? && !TouchesMembers(fields, j.members) &&
            exists slots :: TypedSlots(fields, slots) && PartOf(j, Inversion.MessageTree(fields, slots))
  {
    hide PartOf, FitsMembers, TouchesMembers, TypedSlots, ValidFields;
    if j.Object? && FitsMembers(fields, j.members) {
      MembersHold(fields, Initial(fields), j.members);
      assert TypedSlots(fields, OverlaySlots(fields, Initial(fields), j.members));
    }
    if slots :| j.Object? && !TouchesMembers(fields, j.members) && TypedSlots(fields, slots)
                && PartOf(j, Inversion.MessageTree(fields, slots)) {
      MembersFit(fields, slots, j.members);
    }
  }

  // ---------- what a field holds afterwards ----------

  /**
   * A fixed array keeps its elements and lays each item over its own; a sequence starts over, so what it held
   * does not matter and each message in it is laid over a new one.
   */
  lemma ContainersExactly(field: Field, target: Slot, other: Slot, j: Json, i: nat)
    requires ValidKind(field.kind) && TypedSlot(field, target) && TypedSlot(field, other) && FitsSlot(field, j)
    requires !field.form.Single? && i < |j.items|
    ensures |OverlaySlot(field, target, j).elems| == |j.items|
    ensures !field.form.Fixed? ==> OverlaySlot(field, target, j) == OverlaySlot(field, other, j)
    ensures field.kind.Nested? ==> FitsElem(field.kind, j.items[i])
    ensures field.kind.Nested? && !field.form.Fixed? ==>
              var fields := field.kind.fields;
              OverlaySlot(field, target, j).elems[i] == MessageE(OverlaySlots(fields, Initial(fields), j.items[i].members))
    ensures field.kind.Nested? && field.form.Fixed? ==>
              var fields, kept := field.kind.fields, target.elems[i];
              && Typed(field.kind, kept)
              && OverlaySlot(field, target, j).elems[i] == MessageE(OverlaySlots(fields, kept.slots, j.items[i].members))
  {
    if !field.form.Fixed? {
      assert OverlaySlot(field, target, j).elems == OverlaySlot(field, other, j).elems;
    }
  }

  /** A nested message keeps what the JSON does not mention of it. */
  lemma NestedExactly(field: Field, target: Slot, j: Json)
    requires ValidKind(field.kind) && TypedSlot(field, target) && FitsSlot(field, j)
    requires field.form.Single? && field.kind.Nested?
    ensures Typed(field.kind, target.elems[0]) && FitsElem(field.kind, j)
    ensures OverlaySlot(field, target, j).elems ==
            [MessageE(OverlaySlots(field.kind.fields, target.elems[0].slots, j.members))]
  {
  }

  /** A new message holds the initial value of each of its fields. */
  lemma InitialExactly(fields: seq<Field>, i: nat)
    requires i < |fields|
    ensures |Initial(fields)| == |fields| && Initial(fields)[i] == fields[i].initial
  {
  }

  /** A container of items that each fit fits exactly with the length its form asks for. */
  lemma LengthsExactly(field: Field, items: seq<Json>)
    requires !field.form.Single? && !field.kind.LongDouble?
    requires forall i | 0 <= i < |items| :: FitsElem(field.kind, items[i])
    ensures field.form.Fixed? ==> (FitsSlot(field, Array(items)) <==> |items| == field.form.length)
    ensures field.form.Bounded? ==> (FitsSlot(field, Array(items)) <==> |items| <= field.form.max)
    ensures field.form.Unbounded? ==> FitsSlot(field, Array(items))
  {
  }

  // ---------- ranges and bounds ----------

  function Power(base: nat, k: nat): nat {
    if k == 0 then 1 else base * Power(base, k - 1)
  }

  function Bits(width: Width): nat {
    match width
    case Bits8 => 8
    case Bits16 => 16
    case Bits32 => 32
    case Bits64 => 64
  }

  lemma {:induction false} PowerAdds(base: nat, a: nat, b: nat)
    ensures Power(base, a + b) == Power(base, a) * Power(base, b)
  {
    if a > 0 {
      PowerAdds(base, a - 1, b);
      assert base * (Power(base, a - 1) * Power(base, b)) == (base * Power(base, a - 1)) * Power(base, b);
    }
  }

  lemma PowersOfTwo()
    ensures Power(2, 8) == 0x100 && Power(2, 16) == 0x1_0000
    ensures Power(2, 32) == 0x1_0000_0000 && Power(2, 64) == 0x1_0000_0000_0000_0000
  {
    assert Power(2, 4) == 16;
    PowerAdds(2, 4, 4);
    PowerAdds(2, 8, 8);
    PowerAdds(2, 16, 16);
    PowerAdds(2, 32, 32);
  }

  /** The integers of a type are all those that its bits represent, in two's complement when it is signed. */
  lemma RangesExactly(n: int, signed: bool, width: Width)
    ensures var all: int := Power(2, Bits(width));
      InRange(n, signed, width) <==> if signed then -all <= 2 * n < all else 0 <= n < all
  {
    PowersOfTwo();
  }

  /** A string fits a bounded field exactly when its bytes, or the code units of a wide one, are no more than the bound. */
  lemma StringsExactly(wide: bool, bound: nat, t: Text)
    ensures FitsElem(Str(wide, Some(bound)), String(t)) <==> (if wide then Utf16Units(t) else |t|) <= bound
    ensures FitsElem(Str(wide, None), String(t))
  {
  }

  /** Code points below 0x10000 are one UTF-16 code unit and the others two, and a text has those of its parts. */
  lemma {:induction false} UnitsAdd(a: Text, b: Text)
    ensures Utf16Units(a + b) == Utf16Units(a) + Utf16Units(b)
  {
    if a == "" {
      assert a + b == b;
    } else {
      assert (a + b)[1..] == a[1..] + b;
      UnitsAdd(a[1..], b);
    }
  }

  lemma UnitsOfCodePoint(code: nat)
    requires code < 0x110000
    ensures Utf16Units(Utf8(code)) == if code < 0x10000 then 1 else 2
  {
    var t := Utf8(code);
    if code >= 0x80 {
      Continuations(t[1..]);
    } else {
      assert t[1..] == "";
    }
  }

  lemma {:induction false} Continuations(t: Text)
    requires forall i | 0 <= i < |t| :: 0x80 as char <= t[i] < 0xC0 as char
    ensures Utf16Units(t) == 0
  {
    if t != "" {
      Continuations(t[1..]);
    }
  }
}
