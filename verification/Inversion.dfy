/** The parser inverts the printer: a payload is one JSON text, and it parses to the tree of its message. */
module Inversion {
  import opened Basics
  import opened Schema
  import opened Json
  import opened Encoding
  import opened Lexemes

  // ---------- the JSON tree of a value ----------

  function ElemTree(kind: Kind, e: Elem): Json
    decreases e
  {
    match e
    case IntegerE(n) => Number(Decimal(n))
    case FloatE(f) => if f.Finite? then Number(f.token) else Null
    case BooleanE(b) => Bool(b)
    case StringE(t) => String(t)
    case MessageE(slots) => Object(MembersTree(FieldsOf(kind), slots, |slots|))
    case LongDoubleE => Null
  }

  function SlotTree(field: Field, slot: Slot): Json
    decreases slot
  {
    if field.form.Single? then
      if slot.elems == [] then Null else ElemTree(field.kind, slot.elems[0])
    else Array(ItemsTree(field.kind, slot.elems, |slot.elems|))
  }

  /** The trees of the first `n` elements. */
  function ItemsTree(kind: Kind, elems: seq<Elem>, n: nat): (items: seq<Json>)
    requires n <= |elems|
    ensures |items| == n
    ensures forall j | 0 <= j < n :: items[j] == ElemTree(kind, elems[j])
    decreases elems, n
  {
    if n == 0 then [] else ItemsTree(kind, elems, n - 1) + [ElemTree(kind, elems[n - 1])]
  }

  /** The first `n` fields, each under its name. */
  function MembersTree(fields: seq<Field>, slots: seq<Slot>, n: nat): map<Text, Json>
    requires n <= |slots|
    decreases slots, n
  {
    if n == 0 then map[]
    else if n > |fields| then MembersTree(fields, slots, n - 1)
    else MembersTree(fields, slots, n - 1)[fields[n - 1].name := SlotTree(fields[n - 1], slots[n - 1])]
  }

  function MessageTree(fields: seq<Field>, slots: seq<Slot>): Json {
    Object(MembersTree(fields, slots, |slots|))
  }

  function PayloadTree(topic: Text, kind: Text, sequence: nat, fields: seq<Field>, slots: seq<Slot>): Json {
    Object(map["topic" := String(topic), "message_type" := String(kind),
               "sequence" := Number(Decimal(sequence)), "message" := MessageTree(fields, slots)])
  }

  lemma {:induction false} MembersTreeAt(fields: seq<Field>, slots: seq<Slot>, n: nat)
    requires n <= |slots| == |fields| && DistinctNames(fields)
    ensures forall k :: k in MembersTree(fields, slots, n) <==> exists i | 0 <= i < n :: fields[i].name == k
    ensures forall i | 0 <= i < n ::
              fields[i].name in MembersTree(fields, slots, n) &&
              MembersTree(fields, slots, n)[fields[i].name] == SlotTree(fields[i], slots[i])
  {
    hide SlotTree;
    if n > 0 {
      MembersTreeAt(fields, slots, n - 1);
    }
  }

  // ---------- scalars ----------

  /** A value's text starts with a character that no JSON punctuation or space is. */
  lemma ValueStarts(kind: Kind, e: Elem)
    requires Typed(kind, e) && Plain(kind, e)
    ensures ElemText(kind, e) != ""
    ensures var c := ElemText(kind, e)[0]; !IsSpace(c) && c != ']'
  {
    match e
    case IntegerE(n) =>
      DecimalIsNumber(n);
      NumberInverts(Decimal(n), "");
    case FloatE(f) =>
      if f.Finite? {
        NumberInverts(f.token, "");
      }
    case _ =>
  }

  lemma NumberParses(token: Text, rest: Text, depth: nat)
    requires ValidNumber(token) && Ends(rest)
    ensures ParseValue(token + rest, depth) == Parsed(Number(token), rest)
  {
    NumberInverts(token, rest);
    var s := token + rest;
    assert SkipSpace(s) == s;
    assert s[..|token|] == token && s[|token|..] == rest;
  }

  lemma StringParses(t: Text, rest: Text, depth: nat)
    ensures ParseValue(Quote(t) + rest, depth) == Parsed(String(t), rest)
  {
    QuoteInverts(t, rest);
    assert SkipSpace(Quote(t) + rest) == Quote(t) + rest;
  }

  lemma WordParses(word: Text, value: Json, rest: Text, depth: nat)
    requires (word, value) in {("true", Bool(true)), ("false", Bool(false)), ("null", Null)}
    ensures ParseValue(word + rest, depth) == Parsed(value, rest)
  {
    var s := word + rest;
    assert word <= s && s[|word|..] == rest;
    assert s[0] == word[0];
    assert SkipSpace(s) == s;
  }

  // ---------- one step of the parser inside an array or object ----------

  /** Neither an array nor an object fits when no level is left. */
  lemma NoLevelLeft(open: char, inner: Text)
    requires open == '[' || open == '{'
    ensures ParseValue([open] + inner, 0) == Malformed
  {
    assert SkipSpace([open] + inner) == [open] + inner;
  }

  lemma ArrayOpens(inner: Text, depth: nat)
    requires depth > 0 && inner != "" && !IsSpace(inner[0])
    ensures ParseValue("[" + inner, depth)
         == if inner[0] == ']' then Parsed(Array([]), inner[1..]) else ParseItems(inner, depth - 1, [])
  {
    assert ("[" + inner)[1..] == inner;
    assert SkipSpace("[" + inner) == "[" + inner;
    assert SkipSpace(inner) == inner;
  }

  lemma ObjectOpens(inner: Text, depth: nat)
    requires depth > 0 && inner != "" && !IsSpace(inner[0])
    ensures ParseValue("{" + inner, depth)
         == if inner[0] == '}' then Parsed(Object(map[]), inner[1..]) else ParseMembers(inner, depth - 1, map[])
  {
    assert ("{" + inner)[1..] == inner;
    assert SkipSpace("{" + inner) == "{" + inner;
    assert SkipSpace(inner) == inner;
  }

  /** The parser's continuation after one array element. */
  function AfterItem(next: Text, depth: nat, done: seq<Json>): Parsed<Json>
    requires next != ""
  {
    if next[0] == ',' then ParseItems(next[1..], depth, done)
    else if next[0] == ']' then Parsed(Array(done), next[1..])
    else Malformed
  }

  function AfterMember(next: Text, depth: nat, done: map<Text, Json>): Parsed<Json>
    requires next != ""
  {
    if next[0] == ',' then ParseMembers(next[1..], depth, done)
    else if next[0] == '}' then Parsed(Object(done), next[1..])
    else Malformed
  }

  lemma ItemStep(s: Text, depth: nat, done: seq<Json>, item: Json, next: Text)
    requires next != "" && !IsSpace(next[0])
    ensures ParseValue(s, depth) == Malformed ==> ParseItems(s, depth, done) == Malformed
    ensures ParseValue(s, depth) == Parsed(item, next)
        ==> ParseItems(s, depth, done) == AfterItem(next, depth, done + [item])
  {
    assert SkipSpace(next) == next;
  }

  lemma MemberStep(key: Text, value: Text, depth: nat, done: map<Text, Json>, j: Json, next: Text)
    requires next != "" && !IsSpace(next[0])
    ensures ParseValue(value, depth) == Malformed
        ==> ParseMembers(Quote(key) + (":" + value), depth, done) == Malformed
    ensures ParseValue(value, depth) == Parsed(j, next)
        ==> ParseMembers(Quote(key) + (":" + value), depth, done) == AfterMember(next, depth, done[key := j])
  {
    var s := Quote(key) + (":" + value);
    QuoteInverts(key, ":" + value);
    assert SkipSpace(s) == s;
    assert SkipSpace(":" + value) == ":" + value;
    assert (":" + value)[1..] == value;
    assert SkipSpace(next) == next;
  }

  // ---------- every value's text is read back ----------

  /**
   * Reading back the text of an element gives its tree and leaves exactly what followed, unless
   * the tree is nested deeper than the parser goes.
   */
  lemma {:induction false} ElemParses(kind: Kind, e: Elem, rest: Text, depth: nat)
    requires ValidKind(kind) && Typed(kind, e) && Plain(kind, e) && Ends(rest)
    ensures ParseValue(ElemText(kind, e) + rest, depth)
         == if Within(ElemTree(kind, e), depth) then Parsed(ElemTree(kind, e), rest) else Malformed
    decreases e, 0
  {
    match e
    case IntegerE(n) =>
      DecimalIsNumber(n);
      NumberParses(Decimal(n), rest, depth);
    case FloatE(f) =>
      if f.Finite? {
        NumberParses(f.token, rest, depth);
      } else {
        WordParses("null", Null, rest, depth);
      }
    case BooleanE(b) => WordParses(if b then "true" else "false", Bool(b), rest, depth);
    case StringE(t) => StringParses(t, rest, depth);
    case MessageE(slots) => MessageParses(kind.fields, slots, rest, depth);
  }

  lemma {:induction false} MessageParses(fields: seq<Field>, slots: seq<Slot>, rest: Text, depth: nat)
    requires ValidFields(fields) && TypedSlots(fields, slots) && PlainSlots(fields, slots)
    ensures ParseValue(MessageText(fields, slots) + rest, depth)
         == if Within(MessageTree(fields, slots), depth) then Parsed(MessageTree(fields, slots), rest) else Malformed
    decreases slots, |slots| + 2
  {
    hide ParseValue, ParseItems, ParseMembers, ParseArray, ParseObject;
    var inner := MembersText(fields, slots, 0) + rest;
    assert MessageText(fields, slots) + rest == "{" + inner;
    if depth == 0 {
      NoLevelLeft('{', inner);
    } else if slots == [] {
      assert inner[1..] == rest;
      ObjectOpens(inner, depth);
    } else {
      assert inner == BodyText(fields, slots, 0) + rest;
      assert BodyText(fields, slots, 0)[0] == '\"';
      ObjectOpens(inner, depth);
      MembersParse(fields, slots, 0, rest, depth - 1);
      WithinMembers(fields, slots, depth - 1);
    }
  }

  /** The trees of the members from the `i`-th on are not too deep. */
  ghost predicate WithinFrom(fields: seq<Field>, slots: seq<Slot>, i: nat, depth: nat)
    requires |fields| == |slots|
    decreases |slots| - i
  {
    i >= |slots| || (Within(SlotTree(fields[i], slots[i]), depth) && WithinFrom(fields, slots, i + 1, depth))
  }

  lemma {:induction false} WithinFromAll(fields: seq<Field>, slots: seq<Slot>, i: nat, depth: nat)
    requires i <= |slots| == |fields|
    ensures WithinFrom(fields, slots, i, depth)
       <==> forall k | i <= k < |slots| :: Within(SlotTree(fields[k], slots[k]), depth)
    decreases |slots| - i
  {
    if i < |slots| {
      WithinFromAll(fields, slots, i + 1, depth);
    }
  }

  lemma WithinMembers(fields: seq<Field>, slots: seq<Slot>, depth: nat)
    requires DistinctNames(fields) && |slots| == |fields|
    ensures Within(MessageTree(fields, slots), depth + 1) <==> WithinFrom(fields, slots, 0, depth)
  {
    MembersTreeAt(fields, slots, |slots|);
    WithinFromAll(fields, slots, 0, depth);
    var members := MembersTree(fields, slots, |slots|);
    if WithinFrom(fields, slots, 0, depth) {
      forall k | k in members
        ensures Within(members[k], depth)
      {
        var i :| 0 <= i < |fields| && fields[i].name == k;
      }
    }
  }

  ghost predicate WithinItems(kind: Kind, elems: seq<Elem>, i: nat, depth: nat)
    decreases |elems| - i
  {
    i >= |elems| || (Within(ElemTree(kind, elems[i]), depth) && WithinItems(kind, elems, i + 1, depth))
  }

  lemma {:induction false} WithinItemsAll(kind: Kind, elems: seq<Elem>, i: nat, depth: nat)
    requires i <= |elems|
    ensures WithinItems(kind, elems, i, depth)
       <==> forall j | i <= j < |elems| :: Within(ElemTree(kind, elems[j]), depth)
    decreases |elems| - i
  {
    if i < |elems| {
      WithinItemsAll(kind, elems, i + 1, depth);
    }
  }

  /** The members from the `i`-th on, without the comma before it. */
  function BodyText(fields: seq<Field>, slots: seq<Slot>, i: nat): Text
    requires i < |slots| == |fields|
  {
    MemberText(fields[i], slots[i]) + MembersText(fields, slots, i + 1)
  }

  lemma {:induction false} MembersParse(fields: seq<Field>, slots: seq<Slot>, i: nat, rest: Text, depth: nat)
    requires ValidFields(fields) && TypedSlots(fields, slots) && PlainSlots(fields, slots)
    requires i < |slots|
    ensures ParseMembers(BodyText(fields, slots, i) + rest, depth, MembersTree(fields, slots, i))
         == if WithinFrom(fields, slots, i, depth) then Parsed(MessageTree(fields, slots), rest) else Malformed
    decreases slots, |slots| - i + 1
  {
    hide ParseValue, ParseItems, ParseMembers, ParseArray, ParseObject;
    var field, slot := fields[i], slots[i];
    var next := MembersText(fields, slots, i + 1) + rest;
    BodySplits(fields, slots, i, rest);
    SlotParses(field, slot, next, depth);
    MemberStep(field.name, SlotText(field, slot) + next, depth, MembersTree(fields, slots, i), SlotTree(field, slot), next);
    if Within(SlotTree(field, slot), depth) && i + 1 < |slots| {
      MembersParse(fields, slots, i + 1, rest, depth);
    }
  }

  /** Where the text of the members from the `i`-th on divides: key, value, and what comes next. */
  lemma BodySplits(fields: seq<Field>, slots: seq<Slot>, i: nat, rest: Text)
    requires i < |slots| == |fields|
    ensures var next := MembersText(fields, slots, i + 1) + rest;
      && BodyText(fields, slots, i) + rest
         == Quote(fields[i].name) + (":" + (SlotText(fields[i], slots[i]) + next))
      && next != "" && !IsSpace(next[0]) && Ends(next)
      && (if i + 1 < |slots| then next[0] == ',' && next[1..] == BodyText(fields, slots, i + 1) + rest
          else next[0] == '}' && next[1..] == rest)
  {
    var more := MembersText(fields, slots, i + 1);
    MemberAssoc(Quote(fields[i].name), SlotText(fields[i], slots[i]), more, rest);
    if i + 1 < |slots| {
      CommaSplits(BodyText(fields, slots, i + 1), rest);
    } else {
      assert more + rest == "}" + rest && ("}" + rest)[1..] == rest;
    }
  }

  lemma CommaSplits(body: Text, rest: Text)
    ensures ("," + body) + rest != "" && (("," + body) + rest)[0] == ',' && (("," + body) + rest)[1..] == body + rest
  {
  }

  lemma MemberAssoc(key: Text, value: Text, more: Text, rest: Text)
    ensures ((key + (":" + value)) + more) + rest == key + (":" + (value + (more + rest)))
  {
  }

  lemma {:induction false} SlotParses(field: Field, slot: Slot, rest: Text, depth: nat)
    requires ValidKind(field.kind) && TypedSlot(field, slot) && PlainSlot(field, slot) && Ends(rest)
    ensures ParseValue(SlotText(field, slot) + rest, depth)
         == if Within(SlotTree(field, slot), depth) then Parsed(SlotTree(field, slot), rest) else Malformed
    decreases slot
  {
    hide ParseValue, ParseItems, ParseMembers, ParseArray, ParseObject;
    if field.form.Single? {
      ElemParses(field.kind, slot.elems[0], rest, depth);
    } else {
      Assoc("[", ItemsText(field.kind, slot.elems, 0), rest);
      if depth == 0 {
        NoLevelLeft('[', ItemsText(field.kind, slot.elems, 0) + rest);
      } else if slot.elems == [] {
        assert ("]" + rest)[1..] == rest;
        ArrayOpens("]" + rest, depth);
      } else {
        ArrayParses(field.kind, slot.elems, rest, depth);
        WithinArray(field.kind, slot.elems, depth - 1);
      }
    }
  }

  lemma {:induction false} ArrayParses(kind: Kind, elems: seq<Elem>, rest: Text, depth: nat)
    requires ValidKind(kind) && elems != [] && depth > 0
    requires forall j | 0 <= j < |elems| :: Typed(kind, elems[j]) && Plain(kind, elems[j])
    ensures ParseValue("[" + (ItemsText(kind, elems, 0) + rest), depth)
         == if WithinItems(kind, elems, 0, depth - 1)
            then Parsed(Array(ItemsTree(kind, elems, |elems|)), rest) else Malformed
    decreases elems, |elems| + 1
  {
    hide ParseValue, ParseItems, ParseMembers, ParseArray, ParseObject;
    ItemsStart(kind, elems, rest);
    ArrayOpens(ItemsText(kind, elems, 0) + rest, depth);
    ItemsParse(kind, elems, 0, rest, depth - 1);
    assert ItemsTree(kind, elems, 0) == [];
  }

  lemma WithinArray(kind: Kind, elems: seq<Elem>, depth: nat)
    ensures Within(Array(ItemsTree(kind, elems, |elems|)), depth + 1) <==> WithinItems(kind, elems, 0, depth)
  {
    WithinItemsAll(kind, elems, 0, depth);
  }

  lemma ItemsStart(kind: Kind, elems: seq<Elem>, rest: Text)
    requires elems != [] && Typed(kind, elems[0]) && Plain(kind, elems[0])
    ensures var inner := ItemsText(kind, elems, 0) + rest;
      && inner != "" && !IsSpace(inner[0]) && inner[0] != ']'
      && inner == ElemText(kind, elems[0]) + ItemsText(kind, elems, 1) + rest
  {
    ValueStarts(kind, elems[0]);
    var first, more := ElemText(kind, elems[0]), ItemsText(kind, elems, 1);
    assert ItemsText(kind, elems, 0) == first + more;
    assert (first + more + rest)[0] == first[0];
  }

  lemma {:induction false} ItemsParse(kind: Kind, elems: seq<Elem>, i: nat, rest: Text, depth: nat)
    requires ValidKind(kind) && i < |elems|
    requires forall j | 0 <= j < |elems| :: Typed(kind, elems[j]) && Plain(kind, elems[j])
    ensures ParseItems(ElemText(kind, elems[i]) + ItemsText(kind, elems, i + 1) + rest, depth, ItemsTree(kind, elems, i))
         == if WithinItems(kind, elems, i, depth)
            then Parsed(Array(ItemsTree(kind, elems, |elems|)), rest) else Malformed
    decreases elems, |elems| - i
  {
    hide ParseValue, ParseItems, ParseMembers, ParseArray, ParseObject;
    var next := ItemsText(kind, elems, i + 1) + rest;
    var item := ElemTree(kind, elems[i]);
    ItemsSplit(kind, elems, i, rest);
    ElemParses(kind, elems[i], next, depth);
    ItemStep(ElemText(kind, elems[i]) + next, depth, ItemsTree(kind, elems, i), item, next);
    if Within(item, depth) && i + 1 < |elems| {
      ItemsParse(kind, elems, i + 1, rest, depth);
    }
  }

  lemma ItemsSplit(kind: Kind, elems: seq<Elem>, i: nat, rest: Text)
    requires i < |elems|
    ensures var next := ItemsText(kind, elems, i + 1) + rest;
      && ElemText(kind, elems[i]) + ItemsText(kind, elems, i + 1) + rest == ElemText(kind, elems[i]) + next
      && next != "" && !IsSpace(next[0]) && Ends(next)
      && (if i + 1 < |elems|
          then next[0] == ',' && next[1..] == ElemText(kind, elems[i + 1]) + ItemsText(kind, elems, i + 2) + rest
          else next[0] == ']' && next[1..] == rest)
  {
    var more := ItemsText(kind, elems, i + 1);
    Assoc(ElemText(kind, elems[i]), more, rest);
    if i + 1 < |elems| {
      CommaSplits(ElemText(kind, elems[i + 1]) + ItemsText(kind, elems, i + 2), rest);
    } else {
      assert more + rest == "]" + rest && ("]" + rest)[1..] == rest;
    }
  }

  // ---------- the payload ----------

  lemma {:induction false} UnescapedStays(t: Text)
    requires forall i | 0 <= i < |t| :: !Escaped(t[i])
    ensures Escape(t) == t
  {
    if t != "" {
      UnescapedStays(t[1..]);
    }
  }

  /** The text of one envelope member and all that follows it. */
  function Entry(key: Text, value: Text): Text {
    Quote(key) + (":" + value)
  }

  /** Three members and what follows them. */
  function Envelope(k1: Text, v1: Text, k2: Text, v2: Text, k3: Text, v3: Text, tail: Text): Text {
    Entry(k1, v1 + ("," + Entry(k2, v2 + ("," + Entry(k3, v3 + ("," + tail))))))
  }

  predicate Opens(piece: Text, lead: Text, key: Text) {
    piece == lead + (Quote(key) + ":")
  }

  lemma PieceOpens(lead: Text, key: Text, tail: Text)
    ensures (lead + (Quote(key) + ":")) + tail == lead + Entry(key, tail)
  {
  }

  lemma PieceFixed(lead: Text, key: Text)
    requires forall i | 0 <= i < |key| :: !Escaped(key[i])
    ensures Opens(Piece(lead, key), lead, key)
  {
    UnescapedStays(key);
  }

  lemma TopicKey()
    ensures Opens(Piece("{", "topic"), "{", "topic")
  {
    PieceFixed("{", "topic");
  }

  lemma KindKey()
    ensures Opens(Piece(",", "message_type"), ",", "message_type")
  {
    PieceFixed(",", "message_type");
  }

  lemma SequenceKey()
    ensures Opens(Piece(",", "sequence"), ",", "sequence")
  {
    PieceFixed(",", "sequence");
  }

  lemma MessageKey()
    ensures Opens(Piece(",", "message"), ",", "message")
  {
    PieceFixed(",", "message");
  }

  lemma PiecesSplit(k1: Text, v1: Text, k2: Text, v2: Text, k3: Text, v3: Text, k4: Text, message: Text, rest: Text)
    requires Opens(Piece("{", k1), "{", k1) && Opens(Piece(",", k2), ",", k2)
    requires Opens(Piece(",", k3), ",", k3) && Opens(Piece(",", k4), ",", k4)
    ensures ((Piece("{", k1) + (v1 + (Piece(",", k2) + (v2 + (Piece(",", k3) + (v3 + Piece(",", k4)))))))
             + (message + "}")) + rest
         == "{" + Envelope(k1, v1, k2, v2, k3, v3, Entry(k4, message + ("}" + rest)))
  {
    HeadAssoc(Piece("{", k1), v1, Piece(",", k2), v2, Piece(",", k3), v3, Piece(",", k4), message, rest);
    var t4 := message + ("}" + rest);
    PieceOpens(",", k4, t4);
    var t3 := v3 + ("," + Entry(k4, t4));
    PieceOpens(",", k3, t3);
    var t2 := v2 + ("," + Entry(k3, t3));
    PieceOpens(",", k2, t2);
    var t1 := v1 + ("," + Entry(k2, t2));
    PieceOpens("{", k1, t1);
  }

  lemma HeadAssoc(a: Text, b: Text, c: Text, d: Text, e: Text, f: Text, g: Text, message: Text, rest: Text)
    ensures ((a + (b + (c + (d + (e + (f + g)))))) + (message + "}")) + rest
         == a + (b + (c + (d + (e + (f + (g + (message + ("}" + rest))))))))
  {
  }

  /**
   * Every payload is one JSON text: it parses, whatever follows it, to the topic, type, sequence
   * number and message it was made from, or is too deep for the parser.
   */
  lemma PayloadParses(
      topic: Text, kind: Text, sequence: nat, fields: seq<Field>, slots: seq<Slot>, rest: Text, depth: nat)
    requires ValidFields(fields) && TypedSlots(fields, slots) && PlainSlots(fields, slots)
    ensures ParseValue(PayloadText(topic, kind, sequence, fields, slots) + rest, depth)
         == if Within(PayloadTree(topic, kind, sequence, fields, slots), depth)
            then Parsed(PayloadTree(topic, kind, sequence, fields, slots), rest) else Malformed
  {
    hide ParseValue, ParseItems, ParseMembers, ParseArray, ParseObject;
    hide HeadText, MessageText, MembersText, TypedSlots, PlainSlots, ValidFields, Entry;
    var tree := MessageTree(fields, slots);
    var message := MessageText(fields, slots);
    EnvelopeWithin(topic, kind, sequence, tree, depth);
    if depth == 0 {
      PiecesStart(topic, kind, sequence, message, rest);
    } else {
      HeadParses(topic, kind, sequence, message, rest, depth);
      MessageParses(fields, slots, "}" + rest, depth - 1);
      LastMember("message", message, rest, depth - 1, HeadTree(topic, kind, sequence), tree);
    }
  }

  lemma PiecesStart(topic: Text, kind: Text, sequence: nat, message: Text, rest: Text)
    ensures ParseValue((HeadText(topic, kind, sequence) + (message + "}")) + rest, 0) == Malformed
  {
    var s := (HeadText(topic, kind, sequence) + (message + "}")) + rest;
    assert s[0] == '{' && s == ['{'] + s[1..];
    NoLevelLeft('{', s[1..]);
  }

  /** The members before the message. */
  function HeadTree(topic: Text, kind: Text, sequence: nat): map<Text, Json> {
    EnvelopeStart("topic", topic, "message_type", kind, "sequence", sequence)
  }

  lemma HeadParses(topic: Text, kind: Text, sequence: nat, message: Text, rest: Text, depth: nat)
    requires depth > 0
    ensures ParseValue((HeadText(topic, kind, sequence) + (message + "}")) + rest, depth)
         == ParseMembers(Entry("message", message + ("}" + rest)), depth - 1, HeadTree(topic, kind, sequence))
  {
    hide ParseValue, ParseItems, ParseMembers, ParseArray, ParseObject;
    TopicKey();
    KindKey();
    SequenceKey();
    MessageKey();
    PiecesSplit("topic", Quote(topic), "message_type", Quote(kind), "sequence", Decimal(sequence), "message",
                message, rest);
    OpenedParses("topic", topic, "message_type", kind, "sequence", sequence,
                 Entry("message", message + ("}" + rest)), depth);
  }

  function EnvelopeStart(k1: Text, topic: Text, k2: Text, kind: Text, k3: Text, sequence: nat): map<Text, Json> {
    map[k1 := String(topic), k2 := String(kind), k3 := Number(Decimal(sequence))]
  }

  lemma OpenedParses(k1: Text, topic: Text, k2: Text, kind: Text, k3: Text, sequence: nat, tail: Text, depth: nat)
    requires depth > 0
    ensures ParseValue("{" + Envelope(k1, Quote(topic), k2, Quote(kind), k3, Decimal(sequence), tail), depth)
         == ParseMembers(tail, depth - 1, EnvelopeStart(k1, topic, k2, kind, k3, sequence))
  {
    hide ParseValue, ParseItems, ParseMembers, ParseArray, ParseObject;
    var members := Envelope(k1, Quote(topic), k2, Quote(kind), k3, Decimal(sequence), tail);
    EnvelopeMembers(k1, topic, k2, kind, k3, sequence, tail, depth - 1);
    assert ParseValue("{" + members, depth) == ParseMembers(members, depth - 1, map[]) by {
      EntryStarts(k1, Quote(topic) + ("," + Entry(k2, Quote(kind) + ("," + Entry(k3, Decimal(sequence) + ("," + tail))))));
      ObjectOpens(members, depth);
    }
  }

  lemma EntryStarts(key: Text, value: Text)
    ensures Entry(key, value) != "" && Entry(key, value)[0] == '\"'
  {
  }

  lemma EnvelopeMembers(k1: Text, topic: Text, k2: Text, kind: Text, k3: Text, sequence: nat, tail: Text, depth: nat)
    ensures ParseMembers(Envelope(k1, Quote(topic), k2, Quote(kind), k3, Decimal(sequence), tail), depth, map[])
         == ParseMembers(tail, depth, EnvelopeStart(k1, topic, k2, kind, k3, sequence))
  {
    var t2 := Quote(kind) + ("," + Entry(k3, Decimal(sequence) + ("," + tail)));
    StringMember(k1, topic, depth, map[], Entry(k2, t2));
    KindMembers(map[k1 := String(topic)], k2, kind, k3, sequence, tail, depth);
  }

  lemma KindMembers(
      done: map<Text, Json>, k2: Text, kind: Text, k3: Text, sequence: nat, tail: Text, depth: nat)
    ensures ParseMembers(Entry(k2, Quote(kind) + ("," + Entry(k3, Decimal(sequence) + ("," + tail)))), depth, done)
         == ParseMembers(tail, depth, done[k2 := String(kind)][k3 := Number(Decimal(sequence))])
  {
    StringMember(k2, kind, depth, done, Entry(k3, Decimal(sequence) + ("," + tail)));
    NumberMember(k3, sequence, depth, done[k2 := String(kind)], tail);
  }

  lemma StringMember(key: Text, t: Text, depth: nat, done: map<Text, Json>, next: Text)
    ensures ParseMembers(Entry(key, Quote(t) + ("," + next)), depth, done)
         == ParseMembers(next, depth, done[key := String(t)])
  {
    StringParses(t, "," + next, depth);
    MemberStep(key, Quote(t) + ("," + next), depth, done, String(t), "," + next);
    assert ("," + next)[1..] == next;
  }

  lemma NumberMember(key: Text, n: nat, depth: nat, done: map<Text, Json>, next: Text)
    ensures ParseMembers(Entry(key, Decimal(n) + ("," + next)), depth, done)
         == ParseMembers(next, depth, done[key := Number(Decimal(n))])
  {
    DecimalIsNumber(n);
    NumberParses(Decimal(n), "," + next, depth);
    MemberStep(key, Decimal(n) + ("," + next), depth, done, Number(Decimal(n)), "," + next);
    assert ("," + next)[1..] == next;
  }

  lemma LastMember(key: Text, value: Text, rest: Text, depth: nat, done: map<Text, Json>, tree: Json)
    requires ParseValue(value + ("}" + rest), depth) in {Malformed, Parsed(tree, "}" + rest)}
    ensures ParseMembers(Entry(key, value + ("}" + rest)), depth, done)
         == if ParseValue(value + ("}" + rest), depth).Malformed? then Malformed
            else Parsed(Object(done[key := tree]), rest)
  {
    assert ("}" + rest)[1..] == rest;
    MemberStep(key, value + ("}" + rest), depth, done, tree, "}" + rest);
  }

  lemma EnvelopeWithin(topic: Text, kind: Text, sequence: nat, message: Json, depth: nat)
    ensures Within(Object(map["topic" := String(topic), "message_type" := String(kind),
                              "sequence" := Number(Decimal(sequence)), "message" := message]), depth)
       <==> depth > 0 && Within(message, depth - 1)
  {
    if depth > 0 {
      var members := map["topic" := String(topic), "message_type" := String(kind),
                         "sequence" := Number(Decimal(sequence)), "message" := message];
      assert "message" in members && members["message"] == message;
      assert forall k | k in members :: k != "message" ==> Within(members[k], depth - 1);
    }
  }
}
