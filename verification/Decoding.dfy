/** The schema-directed decoder: what JSON fits a message type, what it turns the message into, and the loops that do it. */
module Decoding {
  import opened Basics
  import opened Schema
  import opened Json

  // ---------- readers of one JSON value ----------

  /** An integer that i64 or u64 holds and the element's own type does too. */
  function IntegerOf(j: Json, signed: bool, width: Width): (r: Option<int>)
    ensures r.Some? ==> InRange(r.value, signed, width)
  {
    if !j.Number? || !ValidNumber(j.lexeme) then None
    else match AsInteger(j.lexeme)
      case None => None
      case Some(n) => if InRange(n, signed, width) then Some(n) else None
  }

  /** `null` is NaN; a number is itself. */
  function FloatOf(j: Json): (r: Option<Float>)
    ensures r.Some? && r.value.Finite? ==> ValidNumber(r.value.token)
  {
    match j
    case Null => Some(NaN)
    case Number(lexeme) => if ValidNumber(lexeme) then Some(Finite(lexeme)) else None
    case _ => None
  }

  // ---------- what fits ----------

  /** The JSON value is one the element type accepts. */
  predicate FitsElem(kind: Kind, j: Json)
    decreases kind
  {
    match kind
    case Integer(signed, width) => IntegerOf(j, signed, width).Some?
    case Floating => FloatOf(j).Some?
    case Boolean => j.Bool?
    case Str(wide, bound) => j.String? && WithinBound(j.text, wide, bound)
    case Nested(fields) => j.Object? && FitsMembers(fields, j.members)
    case LongDouble => false
  }

  predicate FitsSlot(field: Field, j: Json)
    decreases field
  {
    if field.form.Single? then FitsElem(field.kind, j)
    else
      && !field.kind.LongDouble?
      && j.Array? && FitsLength(field.form, |j.items|)
      && forall i | 0 <= i < |j.items| :: FitsElem(field.kind, j.items[i])
  }

  /** Every member names a field and fits it; fields may be absent. */
  predicate FitsMembers(fields: seq<Field>, members: map<Text, Json>)
    decreases fields
  {
    && (forall k | k in members :: Named(fields, k))
    && (forall i | 0 <= i < |fields| && fields[i].name in members :: FitsSlot(fields[i], members[fields[i].name]))
  }

  predicate Named(fields: seq<Field>, name: Text) {
    exists i | 0 <= i < |fields| :: fields[i].name == name
  }

  /** Somewhere in the object, at whatever level, a key names no field. */
  predicate Stray(fields: seq<Field>, members: map<Text, Json>)
    decreases fields
  {
    || (exists k | k in members :: forall i | 0 <= i < |fields| :: fields[i].name != k)
    || (exists i | 0 <= i < |fields| :: fields[i].name in members && StrayIn(fields[i], members[fields[i].name]))
  }

  predicate StrayIn(field: Field, j: Json)
    decreases field
  {
    if field.form.Single? then StrayElem(field.kind, j)
    else j.Array? && exists i | 0 <= i < |j.items| :: StrayElem(field.kind, j.items[i])
  }

  predicate StrayElem(kind: Kind, j: Json)
    decreases kind
  {
    kind.Nested? && j.Object? && Stray(kind.fields, j.members)
  }

  lemma {:induction false} StrayDoesNotFit(fields: seq<Field>, members: map<Text, Json>)
    requires Stray(fields, members)
    ensures !FitsMembers(fields, members)
    decreases fields
  {
    if FitsMembers(fields, members) {
      forall k | k in members ensures exists i | 0 <= i < |fields| :: fields[i].name == k {
        assert Named(fields, k);
      }
      var i :| 0 <= i < |fields| && fields[i].name in members && StrayIn(fields[i], members[fields[i].name]);
      StrayInDoesNotFit(fields[i], members[fields[i].name]);
    }
  }

  lemma {:induction false} StrayInDoesNotFit(field: Field, j: Json)
    requires StrayIn(field, j)
    ensures !FitsSlot(field, j)
    decreases field
  {
    if field.form.Single? {
      StrayElemDoesNotFit(field.kind, j);
    } else {
      var n :| 0 <= n < |j.items| && StrayElem(field.kind, j.items[n]);
      StrayElemDoesNotFit(field.kind, j.items[n]);
    }
  }

  lemma {:induction false} StrayElemDoesNotFit(kind: Kind, j: Json)
    requires StrayElem(kind, j)
    ensures !FitsElem(kind, j)
    decreases kind
  {
    StrayDoesNotFit(kind.fields, j.members);
  }

  // ---------- what it means ----------

  /** The element after the JSON value is laid over it. Only a message keeps anything of what it held. */
  function OverlayElem(kind: Kind, before: Elem, j: Json): (r: Elem)
    requires ValidKind(kind) && Typed(kind, before) && FitsElem(kind, j)
    ensures Typed(kind, r)
    decreases kind
  {
    match kind
    case Integer(signed, width) => IntegerE(IntegerOf(j, signed, width).value)
    case Floating => FloatE(FloatOf(j).value)
    case Boolean => BooleanE(j.b)
    case Str(_, _) => StringE(j.text)
    case Nested(fields) => MessageE(OverlaySlots(fields, before.slots, j.members))
    case LongDouble => before
  }

  /** The elements a container's items are laid over: a fixed array's own, or fresh ones in a sequence. */
  function Base(field: Field, slot: Slot, n: nat): (elems: seq<Elem>)
    requires ValidKind(field.kind) && TypedSlot(field, slot) && FitsLength(field.form, n)
    ensures |elems| == n && forall i | 0 <= i < n :: Typed(field.kind, elems[i])
  {
    if field.form.Single? || field.form.Fixed? then slot.elems else seq(n, i => Default(field.kind))
  }

  function OverlaySlot(field: Field, slot: Slot, j: Json): (r: Slot)
    requires ValidKind(field.kind) && TypedSlot(field, slot) && FitsSlot(field, j)
    ensures TypedSlot(field, r)
    decreases field
  {
    if field.form.Single? then Slot([OverlayElem(field.kind, slot.elems[0], j)])
    else
      var base := Base(field, slot, |j.items|);
      Slot(seq(|j.items|, i requires 0 <= i < |j.items| => OverlayElem(field.kind, base[i], j.items[i])))
  }

  /** Fields that the object does not mention keep what they held. */
  function OverlaySlots(fields: seq<Field>, slots: seq<Slot>, members: map<Text, Json>): (r: seq<Slot>)
    requires ValidFields(fields) && TypedSlots(fields, slots) && FitsMembers(fields, members)
    ensures TypedSlots(fields, r)
    decreases fields
  {
    seq(|fields|, i requires 0 <= i < |fields| =>
      if fields[i].name in members then OverlaySlot(fields[i], slots[i], members[fields[i].name]) else slots[i])
  }

  // ---------- the decoder ----------

  method IndexOf(fields: seq<Field>, name: Text) returns (index: Option<nat>)
    ensures index.Some? <==> Named(fields, name)
    ensures index.Some? ==> index.value < |fields| && fields[index.value].name == name
  {
    for i := 0 to |fields|
      invariant forall k | 0 <= k < i :: fields[k].name != name
    {
      if fields[i].name == name {
        return Some(i);
      }
    }
    return None;
  }

  /**
   * Fill a message from a JSON value, in the order the object yields its members. On failure the
   * members decoded before the bad one have been written; the message is well-typed either way.
   */
  method MessageView(fields: seq<Field>, slots: seq<Slot>, value: Json) returns (ok: bool, filled: seq<Slot>)
    requires ValidFields(fields) && TypedSlots(fields, slots)
    ensures TypedSlots(fields, filled)
    ensures ok <==> value.Object? && FitsMembers(fields, value.members)
    ensures ok ==> filled == OverlaySlots(fields, slots, value.members)
    ensures ok ==> forall i | 0 <= i < |fields| && fields[i].name !in value.members :: filled[i] == slots[i]
    decreases fields
  {
    hide FitsSlot, OverlaySlot, TypedSlot;
    filled := slots;
    if !value.Object? {
      return false, filled;
    }
    var members := value.members;
    var unchecked := members.Keys;
    while unchecked != {}
      invariant unchecked <= members.Keys
      invariant forall k | k in members && k !in unchecked :: Named(fields, k)
      decreases unchecked
    {
      var key :| key in unchecked;
      var index := IndexOf(fields, key);
      if index.None? {
        return false, filled;
      }
      unchecked := unchecked - {key};
    }
    var todo := members.Keys;
    while todo != {}
      invariant todo <= members.Keys
      invariant TypedSlots(fields, filled)
      invariant forall i | 0 <= i < |fields| && fields[i].name in members && fields[i].name !in todo ::
                  FitsSlot(fields[i], members[fields[i].name]) &&
                  filled[i] == OverlaySlot(fields[i], slots[i], members[fields[i].name])
      invariant forall i | 0 <= i < |fields| && (fields[i].name !in members || fields[i].name in todo) ::
                  filled[i] == slots[i]
      decreases todo
    {
      var key :| key in todo;
      var index := IndexOf(fields, key);
      var i := index.value;
      var slot;
      ok, slot := ValueMut(fields[i], filled[i], members[key]);
      filled := filled[i := slot];
      if !ok {
        return;
      }
      todo := todo - {key};
    }
    ok := true;
    assert filled == OverlaySlots(fields, slots, members);
  }

  method ValueMut(field: Field, slot: Slot, value: Json) returns (ok: bool, filled: Slot)
    requires ValidKind(field.kind) && TypedSlot(field, slot)
    ensures TypedSlot(field, filled)
    ensures ok <==> FitsSlot(field, value)
    ensures ok ==> filled == OverlaySlot(field, slot, value)
    decreases field
  {
    if field.form.Single? {
      var e;
      ok, e := Simple(field.kind, slot.elems[0], value);
      return ok, Slot([e]);
    }
    if !value.Array? || field.kind.LongDouble? {
      return false, slot;
    }
    match field.form
    case Fixed(length) => ok, filled := ArrayMut(field, slot, value.items);
    case Unbounded => ok, filled := SequenceMut(field, slot, value.items);
    case Bounded(max) => ok, filled := BoundedSequenceMut(field, slot, value.items);
    if ok {
      assert filled == OverlaySlot(field, slot, value);
    }
  }

  /** A fixed array takes exactly as many items as it has elements. */
  method ArrayMut(field: Field, slot: Slot, items: seq<Json>) returns (ok: bool, filled: Slot)
    requires ValidKind(field.kind) && TypedSlot(field, slot) && field.form.Fixed?
    ensures TypedSlot(field, filled)
    ensures Laid(field, slot, items, ok, filled)
    decreases field, 1
  {
    if |slot.elems| != |items| {
      return false, slot;
    }
    var elems;
    ok, elems := Fill(field, slot.elems, items);
    filled := Slot(elems);
  }

  /**
   * An unbounded sequence of plain values is collected before it is assigned, so a bad item leaves
   * the old sequence; bounded strings and messages reset the sequence and fill it in place.
   */
  method SequenceMut(field: Field, slot: Slot, items: seq<Json>) returns (ok: bool, filled: Slot)
    requires ValidKind(field.kind) && TypedSlot(field, slot) && field.form.Unbounded?
    ensures TypedSlot(field, filled)
    ensures Laid(field, slot, items, ok, filled)
    ensures !ok && !InPlace(field.kind) ==> filled == slot
    decreases field, 1
  {
    var elems;
    ok, elems := Fill(field, Base(field, slot, |items|), items);
    filled := if ok || InPlace(field.kind) then Slot(elems) else slot;
  }

  predicate InPlace(kind: Kind) {
    kind.Nested? || (kind.Str? && kind.bound.Some?)
  }

  /** A bounded sequence is checked against its bound before it is reset. */
  method BoundedSequenceMut(field: Field, slot: Slot, items: seq<Json>) returns (ok: bool, filled: Slot)
    requires ValidKind(field.kind) && TypedSlot(field, slot) && field.form.Bounded?
    ensures TypedSlot(field, filled)
    ensures Laid(field, slot, items, ok, filled)
    ensures |items| > field.form.max ==> filled == slot
    decreases field, 1
  {
    if |items| > field.form.max {
      return false, slot;
    }
    var elems;
    ok, elems := Fill(field, Base(field, slot, |items|), items);
    filled := Slot(elems);
  }

  /** What filling a container from `items` promises. */
  predicate Laid(field: Field, slot: Slot, items: seq<Json>, ok: bool, filled: Slot)
    requires ValidKind(field.kind) && TypedSlot(field, slot)
  {
    && (ok <==> FitsLength(field.form, |items|) && forall i | 0 <= i < |items| :: FitsElem(field.kind, items[i]))
    && (ok ==> |filled.elems| == |items| && forall i | 0 <= i < |items| ::
          filled.elems[i] == OverlayElem(field.kind, Base(field, slot, |items|)[i], items[i]))
  }

  /** Lay the items over the elements, one by one; the first bad item stops the loop. */
  method Fill(field: Field, elems: seq<Elem>, items: seq<Json>) returns (ok: bool, filled: seq<Elem>)
    requires ValidKind(field.kind) && |elems| == |items|
    requires forall i | 0 <= i < |elems| :: Typed(field.kind, elems[i])
    ensures |filled| == |elems| && forall i | 0 <= i < |elems| :: Typed(field.kind, filled[i])
    ensures ok <==> forall i | 0 <= i < |items| :: FitsElem(field.kind, items[i])
    ensures ok ==> forall i | 0 <= i < |items| :: filled[i] == OverlayElem(field.kind, elems[i], items[i])
    decreases field, 0
  {
    filled := elems;
    for i := 0 to |items|
      invariant |filled| == |elems| && forall k | 0 <= k < |elems| :: Typed(field.kind, filled[k])
      invariant forall k | 0 <= k < i :: FitsElem(field.kind, items[k])
      invariant forall k | 0 <= k < i :: filled[k] == OverlayElem(field.kind, elems[k], items[k])
      invariant forall k | i <= k < |elems| :: filled[k] == elems[k]
    {
      var e;
      ok, e := Simple(field.kind, filled[i], items[i]);
      filled := filled[i := e];
      if !ok {
        return;
      }
    }
    ok := true;
  }

  method Simple(kind: Kind, e: Elem, value: Json) returns (ok: bool, filled: Elem)
    requires ValidKind(kind) && Typed(kind, e)
    ensures Typed(kind, filled)
    ensures ok <==> FitsElem(kind, value)
    ensures ok ==> filled == OverlayElem(kind, e, value)
    decreases kind
  {
    filled := e;
    match kind
    case Integer(signed, width) =>
      var n := IntegerOf(value, signed, width);
      ok := n.Some?;
      if ok {
        filled := IntegerE(n.value);
      }
    case Floating =>
      var f := FloatOf(value);
      ok := f.Some?;
      if ok {
        filled := FloatE(f.value);
      }
    case Boolean =>
      ok := value.Bool?;
      if ok {
        filled := BooleanE(value.b);
      }
    case Str(wide, bound) =>
      ok := value.String? && WithinBound(value.text, wide, bound);
      if ok {
        filled := StringE(value.text);
      }
    case Nested(fields) =>
      var slots;
      ok, slots := MessageView(fields, e.slots, value);
      filled := MessageE(slots);
    case LongDouble => ok := false;
  }

  /** A message of a runtime type, filled in place. */
  class DynamicMessage {
    const fields: seq<Field>
    var slots: seq<Slot>

    ghost predicate Valid()
      reads this
    {
      ValidFields(fields) && TypedSlots(fields, slots)
    }

    constructor (fields: seq<Field>)
      requires ValidFields(fields)
      ensures Valid() && this.fields == fields && slots == Initial(fields)
      ensures forall i | 0 <= i < |fields| :: slots[i] == fields[i].initial
    {
      this.fields := fields;
      this.slots := Initial(fields);
    }

    method Decode(value: Json) returns (ok: bool)
      requires Valid()
      modifies this
      ensures Valid()
      ensures ok <==> value.Object? && FitsMembers(fields, value.members)
      ensures ok ==> slots == OverlaySlots(fields, old(slots), value.members)
      ensures ok ==> forall i | 0 <= i < |fields| && fields[i].name !in value.members :: slots[i] == old(slots)[i]
      ensures value.Object? && Stray(fields, value.members) ==> !ok
    {
      if value.Object? && Stray(fields, value.members) {
        StrayDoesNotFit(fields, value.members);
      }
      ok, slots := MessageView(fields, slots, value);
    }
  }

  /** A new message with the JSON value laid over its defaults; a partly decoded one is discarded. */
  method BuildMessage(fields: seq<Field>, value: Json) returns (r: Option<seq<Slot>>)
    requires ValidFields(fields)
    ensures r == if value.Object? && FitsMembers(fields, value.members)
                 then Some(OverlaySlots(fields, Initial(fields), value.members)) else None
    ensures r.Some? ==> |r.value| == |fields| &&
                        forall i | 0 <= i < |fields| && fields[i].name !in value.members :: r.value[i] == fields[i].initial
    ensures value.Object? && Stray(fields, value.members) ==> r.None?
  {
    var message := new DynamicMessage(fields);
    var ok := message.Decode(value);
    if !ok {
      return None;
    }
    return Some(message.slots);
  }
}
