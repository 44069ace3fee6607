/** Runtime message types and the values they hold. */
module Schema {
  import opened Basics
  import Json

  datatype Width = Bits8 | Bits16 | Bits32 | Bits64

  /**
   * What one element is. `Char`, `Octet` and `Uint8` are unsigned 8-bit integers and `WChar` an
   * unsigned 16-bit one; `wide` tells the UTF-16 strings from the byte strings.
   */
  datatype Kind =
    | Integer(signed: bool, width: Width)
    | Floating
    | Boolean
    | Str(wide: bool, bound: Option<nat>)
    | Nested(fields: seq<Field>)
    | LongDouble

  /** The container of a field: a plain value, a fixed array, a sequence or a bounded sequence. */
  datatype Form = Single | Fixed(length: nat) | Unbounded | Bounded(max: nat)

  /** `initial` is what a new message holds in this field. */
  datatype Field = Field(name: Text, form: Form, kind: Kind, initial: Slot)

  /** A finite float is the decimal token it displays as. */
  datatype Float = NaN | Infinity(negative: bool) | Finite(token: Text)

  datatype Elem =
    | IntegerE(n: int)
    | FloatE(f: Float)
    | BooleanE(b: bool)
    | StringE(text: Text)
    | MessageE(slots: seq<Slot>)
    | LongDoubleE

  /** The contents of one field: exactly one element when the field is not a container. */
  datatype Slot = Slot(elems: seq<Elem>)

  function Min(signed: bool, width: Width): int {
    if !signed then 0
    else match width
      case Bits8 => -0x80
      case Bits16 => -0x8000
      case Bits32 => -0x8000_0000
      case Bits64 => -0x8000_0000_0000_0000
  }

  function Max(signed: bool, width: Width): int {
    match (signed, width)
    case (true, Bits8) => 0x7F
    case (true, Bits16) => 0x7FFF
    case (true, Bits32) => 0x7FFF_FFFF
    case (true, Bits64) => 0x7FFF_FFFF_FFFF_FFFF
    case (false, Bits8) => 0xFF
    case (false, Bits16) => 0xFFFF
    case (false, Bits32) => 0xFFFF_FFFF
    case (false, Bits64) => 0xFFFF_FFFF_FFFF_FFFF
  }

  predicate InRange(n: int, signed: bool, width: Width) {
    Min(signed, width) <= n <= Max(signed, width)
  }

  /** UTF-16 code units of a text: two for a four-byte UTF-8 sequence, one for any other. */
  function Utf16Units(t: Text): nat {
    if t == "" then 0
    else (if t[0] < 0x80 as char then 1
          else if t[0] < 0xC0 as char then 0
          else if t[0] < 0xF0 as char then 1
          else 2) + Utf16Units(t[1..])
  }

  predicate WithinBound(t: Text, wide: bool, bound: Option<nat>) {
    bound.Some? ==> (if wide then Utf16Units(t) else |t|) <= bound.value
  }

  predicate FitsLength(form: Form, n: nat) {
    match form
    case Single => n == 1
    case Fixed(length) => n == length
    case Unbounded => true
    case Bounded(max) => n <= max
  }

  /** `e` is a value of type `kind`. */
  predicate Typed(kind: Kind, e: Elem)
    decreases kind
  {
    match (kind, e)
    case (Integer(signed, width), IntegerE(n)) => InRange(n, signed, width)
    case (Floating, FloatE(f)) => f.Finite? ==> Json.ValidNumber(f.token)
    case (Boolean, BooleanE(_)) => true
    case (Str(wide, bound), StringE(t)) => WithinBound(t, wide, bound)
    case (Nested(fields), MessageE(slots)) => TypedSlots(fields, slots)
    case (LongDouble, LongDoubleE) => true
    case _ => false
  }

  predicate TypedSlot(field: Field, slot: Slot)
    decreases field
  {
    FitsLength(field.form, |slot.elems|) &&
    forall j | 0 <= j < |slot.elems| :: Typed(field.kind, slot.elems[j])
  }

  predicate TypedSlots(fields: seq<Field>, slots: seq<Slot>)
    decreases fields
  {
    |slots| == |fields| &&
    forall i | 0 <= i < |fields| :: TypedSlot(fields[i], slots[i])
  }

  predicate DistinctNames(fields: seq<Field>) {
    forall i, j | 0 <= i < j < |fields| :: fields[i].name != fields[j].name
  }

  /** Field names are distinct and initial values have their field's type, at every level. */
  predicate ValidKind(kind: Kind)
    decreases kind
  {
    kind.Nested? ==> ValidFields(kind.fields)
  }

  predicate ValidFields(fields: seq<Field>)
    decreases fields
  {
    && DistinctNames(fields)
    && (forall i | 0 <= i < |fields| :: TypedSlot(fields[i], fields[i].initial) && ValidKind(fields[i].kind))
  }

  /** What a new message holds. */
  function Initial(fields: seq<Field>): (slots: seq<Slot>)
    ensures ValidFields(fields) ==> TypedSlots(fields, slots)
  {
    seq(|fields|, i requires 0 <= i < |fields| => fields[i].initial)
  }

  /** What resetting a sequence puts in each of its elements. */
  function Default(kind: Kind): (e: Elem)
    ensures ValidKind(kind) ==> Typed(kind, e)
  {
    match kind
    case Integer(_, _) => IntegerE(0)
    case Floating => FloatE(Finite("0"))
    case Boolean => BooleanE(false)
    case Str(_, _) => StringE("")
    case Nested(fields) => MessageE(Initial(fields))
    case LongDouble => LongDoubleE
  }

  /** The value as the JSON form can carry it: non-finite floats are all NaN. */
  function Canonical(e: Elem): Elem {
    match e
    case FloatE(f) => FloatE(if f.Finite? then f else NaN)
    case MessageE(slots) => MessageE(CanonicalSlots(slots))
    case _ => e
  }

  function CanonicalElems(elems: seq<Elem>): (r: seq<Elem>)
    ensures |r| == |elems|
    ensures forall i | 0 <= i < |elems| :: r[i] == Canonical(elems[i])
  {
    if elems == [] then [] else [Canonical(elems[0])] + CanonicalElems(elems[1..])
  }

  function CanonicalSlots(slots: seq<Slot>): (r: seq<Slot>)
    ensures |r| == |slots|
    ensures forall i | 0 <= i < |slots| :: r[i].elems == CanonicalElems(slots[i].elems)
  {
    if slots == [] then [] else [Slot(CanonicalElems(slots[0].elems))] + CanonicalSlots(slots[1..])
  }
}
