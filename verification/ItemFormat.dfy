/** The byte form of items in map blobs (font/iomapserialize.cpp, font/item.cpp, font/container.cpp), and
    what a save followed by a load makes of an item. */
module ItemFormat {
  import opened Arithmetic
  import opened Bytes
  import opened PropStreams

  /** Decay states, and the attribute types that occur. */
  const DECAYING_FALSE: nat := 0
  const DECAYING_PENDING: nat := 2

  const ATTR_ACTION_ID: byte := 4
  const ATTR_UNIQUE_ID: byte := 5
  const ATTR_TEXT: byte := 6
  const ATTR_DESC: byte := 7
  const ATTR_TELE_DEST: byte := 8
  const ATTR_DEPOT_ID: byte := 10
  const ATTR_RUNE_CHARGES: byte := 12
  const ATTR_HOUSEDOORID: byte := 14
  const ATTR_COUNT: byte := 15
  const ATTR_DURATION: byte := 16
  const ATTR_DECAYING_STATE: byte := 17
  const ATTR_WRITTENBY: byte := 19
  const ATTR_SLEEPERGUID: byte := 20
  const ATTR_SLEEPSTART: byte := 21
  const ATTR_CONTAINER_ITEMS: byte := 22

  /** What the item table says of a type; `fluid` covers fluid containers and splashes. */
  datatype ItemType = ItemType(moveable: bool, stackable: bool, fluid: bool, charges: nat, decayTime: nat, container: bool)

  type Types = map<nat, ItemType>

  /** The attributes of an item as their getters answer: 0 or the empty string for one not set. */
  datatype Attributes = Attributes(
    count: nat, charges: nat, fluidType: nat, actionId: nat, uniqueId: nat, owner: nat,
    text: seq<byte>, writer: seq<byte>, description: seq<byte>, duration: int, decaying: nat)

  /** An item with what it contains, first to last. */
  datatype Thing = Thing(id: nat, attributes: Attributes, contents: seq<Thing>)

  /** Values within their C++ types, known ids, and contents only in containers. */
  predicate Storable(types: Types, t: Thing) {
    && 0 < t.id < TWO_16 && t.id in types && -0x8000_0000 <= t.attributes.duration < 0x8000_0000
    && t.attributes.actionId < TWO_16 && t.attributes.decaying <= DECAYING_PENDING
    && |t.contents| < TWO_32 && (t.contents != [] ==> types[t.id].container)
    && forall i :: 0 <= i < |t.contents| ==> Storable(types, t.contents[i])
  }

  predicate AllStorable(types: Types, ts: seq<Thing>) { forall i :: 0 <= i < |ts| ==> Storable(types, ts[i]) }

  function ToInt32(n: int): int {
    var m := n % TWO_32;
    if m < 0x8000_0000 then m else m - TWO_32
  }

  /** A new item (`Item::Item`): default charges, duration, and the given count in its place. */
  function Created(ty: ItemType, n: nat): Attributes {
    var a := Attributes(1, ty.charges, 0, 0, 0, 0, [], [], [], ToInt32(ty.decayTime * 1000), DECAYING_FALSE);
    if ty.fluid then a.(fluidType := n)
    else if ty.stackable && n != 0 then a.(count := n)
    else if ty.charges != 0 && n != 0 then a.(charges := n)
    else a
  }

  /** `CreateItem` passes its count on to plain items only. */
  function Blank(ty: ItemType): Attributes { Created(ty, if ty.container then 0 else 1) }

  /** What a new item has: a plain one of a fluid or charged type gets one unit of that, a container the default. */
  lemma {:induction false} BlankIs(ty: ItemType)
    ensures var a := Blank(ty);
      && a.count == 1 && a.fluidType == (if ty.fluid && !ty.container then 1 else 0)
      && a.charges == (if ty.charges != 0 && !ty.fluid && !ty.stackable && !ty.container then 1 else ty.charges)
      && a.actionId == a.uniqueId == a.owner == 0 && a.text == a.writer == a.description == [] && a.decaying == 0
      && (ty.decayTime <= 2147483 ==> a.duration == 1000 * ty.decayTime)
  {
  }

  function SubType(ty: ItemType, a: Attributes): nat {
    if ty.fluid then a.fluidType else if ty.charges != 0 then a.charges else a.count
  }

  function WithSubType(ty: ItemType, a: Attributes, n: nat): Attributes {
    if ty.fluid then a.(fluidType := n) else if ty.charges != 0 then a.(charges := n) else a.(count := n)
  }

  // ----- attributes as fields of the stream

  datatype Field =
    | Count(n: byte)
    | RuneCharges(n: byte)
    | ActionId(id: nat)
    | Text(s: seq<byte>)
    | WrittenBy(s: seq<byte>)
    | Desc(s: seq<byte>)
    | Duration(d: nat)
    | Decaying(state: nat)

  /** No field is mistaken for the end of the list or for the items of a container. */
  function Tag(f: Field): (tag: byte)
    ensures tag != 0 && tag != ATTR_CONTAINER_ITEMS
  {
    match f
    case Count(_) => ATTR_COUNT
    case RuneCharges(_) => ATTR_RUNE_CHARGES
    case ActionId(_) => ATTR_ACTION_ID
    case Text(_) => ATTR_TEXT
    case WrittenBy(_) => ATTR_WRITTENBY
    case Desc(_) => ATTR_DESC
    case Duration(_) => ATTR_DURATION
    case Decaying(_) => ATTR_DECAYING_STATE
  }

  /** The numbers of the attribute types in a blob. */
  lemma {:induction false} TagNumbers(n: byte, d: nat, s: seq<byte>)
    ensures Tag(ActionId(d)) == 4 && Tag(Text(s)) == 6 && Tag(Desc(s)) == 7 && Tag(RuneCharges(n)) == 12 && Tag(Count(n)) == 15
    ensures Tag(Duration(d)) == 16 && Tag(Decaying(d)) == 17 && Tag(WrittenBy(s)) == 19
    ensures ATTR_UNIQUE_ID == 5 && ATTR_TELE_DEST == 8 && ATTR_DEPOT_ID == 10 && ATTR_HOUSEDOORID == 14
    ensures ATTR_SLEEPERGUID == 20 && ATTR_SLEEPSTART == 21 && ATTR_CONTAINER_ITEMS == 22
  {
  }

  function Payload(f: Field): seq<byte> {
    match f
    case Count(n) => Little(n, 1)
    case RuneCharges(n) => Little(n, 1)
    case ActionId(id) => Little(id, 2)
    case Text(s) => StringBytes(s)
    case WrittenBy(s) => StringBytes(s)
    case Desc(s) => StringBytes(s)
    case Duration(d) => Little(d, 4)
    case Decaying(state) => Little(state, 1)
  }

  /** What reading a field does to the item. */
  function Apply(ty: ItemType, a: Attributes, f: Field): Attributes {
    match f
    case Count(n) => WithSubType(ty, a, n)
    case RuneCharges(n) => WithSubType(ty, a, n)
    case ActionId(id) => a.(actionId := if id % TWO_16 < 100 then 100 else id % TWO_16)
    case Text(s) => if Cut(s) == [] then a else a.(text := Cut(s))
    case WrittenBy(s) => if Cut(s) == [] then a else a.(writer := Cut(s))
    case Desc(s) => if Cut(s) == [] then a else a.(description := Cut(s))
    case Duration(d) => a.(duration := if ToInt32(d) < 0 then 0 else ToInt32(d))
    case Decaying(state) => if state % 256 != DECAYING_FALSE then a.(decaying := DECAYING_PENDING) else a
  }

  function ApplyAll(ty: ItemType, a: Attributes, fs: seq<Field>): Attributes
    decreases |fs|
  {
    if fs == [] then a else ApplyAll(ty, Apply(ty, a, fs[0]), fs[1..])
  }

  /** An optional field at the end of a list. */
  function AppendIf(fs: seq<Field>, b: bool, f: Field): seq<Field> { if b then fs + [f] else fs }

  /** The fields `serializeAttr` writes, in its order. */
  function Fields(ty: ItemType, a: Attributes): seq<Field> {
    var f1 := AppendIf([], ty.stackable || ty.fluid, Count(SubType(ty, a) % 256));
    var f2 := AppendIf(f1, ty.charges != 0, RuneCharges(a.charges % 256));
    var f3 := AppendIf(f2, ty.moveable && a.actionId != 0, ActionId(a.actionId));
    var f4 := AppendIf(f3, |a.text| > 0, Text(a.text));
    var f5 := AppendIf(f4, |a.writer| > 0, WrittenBy(a.writer));
    var f6 := AppendIf(f5, |a.description| > 0, Desc(a.description));
    var f7 := AppendIf(f6, a.duration != 0, Duration(a.duration % TWO_32));
    AppendIf(f7, a.decaying != DECAYING_FALSE, Decaying(a.decaying))
  }

  function FieldBytes(f: Field): seq<byte> { [Tag(f)] + Payload(f) }

  function FieldsBytes(fs: seq<Field>): seq<byte> {
    if fs == [] then [] else FieldBytes(fs[0]) + FieldsBytes(fs[1..])
  }

  // ----- items

  /** The bytes of an item: id, fields, the contents of a container in reverse, and a zero. */
  function Encode(types: Types, t: Thing): seq<byte>
    requires Storable(types, t)
    decreases t, 1
  {
    Little(t.id, 2) + FieldsBytes(Fields(types[t.id], t.attributes)) + Contents(types, t) + [0]
  }

  function Contents(types: Types, t: Thing): seq<byte>
    requires Storable(types, t)
    decreases t, 0
  {
    if !types[t.id].container then []
    else [ATTR_CONTAINER_ITEMS] + Little(|t.contents|, 4) + EncodeReversed(types, t.contents)
  }

  function EncodeReversed(types: Types, ts: seq<Thing>): seq<byte>
    requires AllStorable(types, ts)
    decreases ts
  {
    if ts == [] then [] else Encode(types, ts[|ts| - 1]) + EncodeReversed(types, ts[..|ts| - 1])
  }

  // ----- what a save and a load make of an item

  /** Counts and charges are cut to a byte and texts to their 16-bit length; action ids survive on moveable
      items only and are at least 100; unique id and owner are dropped; a duration of zero reverts to the
      default of the type and a negative one to zero; any decay becomes a pending one. */
  function NormAttributes(ty: ItemType, a: Attributes): Attributes {
    Attributes(
      count := if ty.stackable && !ty.fluid && ty.charges == 0 then a.count % 256 else 1,
      charges := if ty.charges != 0 && !ty.fluid then a.charges % 256 else ty.charges,
      fluidType := if !ty.fluid then 0 else if ty.charges != 0 then a.charges % 256 else a.fluidType % 256,
      actionId := if !ty.moveable || a.actionId == 0 then 0 else if a.actionId < 100 then 100 else a.actionId,
      uniqueId := 0,
      owner := 0,
      text := Cut(a.text),
      writer := Cut(a.writer),
      description := Cut(a.description),
      duration := if a.duration == 0 then ToInt32(ty.decayTime * 1000) else if a.duration < 0 then 0 else a.duration,
      decaying := if a.decaying == DECAYING_FALSE then DECAYING_FALSE else DECAYING_PENDING)
  }

  function Norm(types: Types, t: Thing): Thing
    requires Storable(types, t)
  {
    Thing(t.id, NormAttributes(types[t.id], t.attributes), NormAll(types, t.contents))
  }

  function NormAll(types: Types, ts: seq<Thing>): (r: seq<Thing>)
    requires AllStorable(types, ts)
    ensures |r| == |ts|
  {
    if ts == [] then [] else [Norm(types, ts[0])] + NormAll(types, ts[1..])
  }

  lemma {:induction false} NormAllAt(types: Types, ts: seq<Thing>, i: nat)
    requires i < |ts| && AllStorable(types, ts)
    ensures NormAll(types, ts)[i] == Norm(types, ts[i])
  {
    if i > 0 { NormAllAt(types, ts[1..], i - 1); }
  }

  function ApplyIf(ty: ItemType, a: Attributes, b: bool, f: Field): Attributes { if b then Apply(ty, a, f) else a }

  lemma {:induction false} ApplyLast(ty: ItemType, a: Attributes, fs: seq<Field>, b: bool, f: Field)
    ensures ApplyAll(ty, a, AppendIf(fs, b, f)) == ApplyIf(ty, ApplyAll(ty, a, fs), b, f)
    decreases |fs|
  {
    if fs == [] {
      assert [] + [f] == [f] && [f][1..] == [];
      assert b ==> ApplyAll(ty, a, [f]) == ApplyAll(ty, Apply(ty, a, f), []);
    } else {
      assert (fs + [f])[1..] == fs[1..] + [f];
      ApplyLast(ty, Apply(ty, a, fs[0]), fs[1..], b, f);
    }
  }

  lemma {:induction false} Int32RoundTrip(d: int)
    requires -0x8000_0000 <= d < 0x8000_0000
    ensures ToInt32(d % TWO_32) == d
  {
  }

  /** The fields one after the other. */
  function ApplyFields(ty: ItemType, a: Attributes): Attributes {
    var a1 := ApplyIf(ty, Blank(ty), ty.stackable || ty.fluid, Count(SubType(ty, a) % 256));
    var a2 := ApplyIf(ty, a1, ty.charges != 0, RuneCharges(a.charges % 256));
    var a3 := ApplyIf(ty, a2, ty.moveable && a.actionId != 0, ActionId(a.actionId));
    var a4 := ApplyIf(ty, a3, |a.text| > 0, Text(a.text));
    var a5 := ApplyIf(ty, a4, |a.writer| > 0, WrittenBy(a.writer));
    var a6 := ApplyIf(ty, a5, |a.description| > 0, Desc(a.description));
    var a7 := ApplyIf(ty, a6, a.duration != 0, Duration(a.duration % TWO_32));
    ApplyIf(ty, a7, a.decaying != DECAYING_FALSE, Decaying(a.decaying))
  }

  lemma {:induction false} FieldsInTurn(ty: ItemType, a: Attributes)
    ensures ApplyAll(ty, Blank(ty), Fields(ty, a)) == ApplyFields(ty, a)
  {
    hide AppendIf, ApplyIf, Blank, SubType;
    var a0 := Blank(ty);
    var f1 := AppendIf([], ty.stackable || ty.fluid, Count(SubType(ty, a) % 256));
    var f2 := AppendIf(f1, ty.charges != 0, RuneCharges(a.charges % 256));
    var f3 := AppendIf(f2, ty.moveable && a.actionId != 0, ActionId(a.actionId));
    var f4 := AppendIf(f3, |a.text| > 0, Text(a.text));
    var f5 := AppendIf(f4, |a.writer| > 0, WrittenBy(a.writer));
    var f6 := AppendIf(f5, |a.description| > 0, Desc(a.description));
    var f7 := AppendIf(f6, a.duration != 0, Duration(a.duration % TWO_32));
    ApplyLast(ty, a0, [], ty.stackable || ty.fluid, Count(SubType(ty, a) % 256));
    ApplyLast(ty, a0, f1, ty.charges != 0, RuneCharges(a.charges % 256));
    ApplyLast(ty, a0, f2, ty.moveable && a.actionId != 0, ActionId(a.actionId));
    ApplyLast(ty, a0, f3, |a.text| > 0, Text(a.text));
    ApplyLast(ty, a0, f4, |a.writer| > 0, WrittenBy(a.writer));
    ApplyLast(ty, a0, f5, |a.description| > 0, Desc(a.description));
    ApplyLast(ty, a0, f6, a.duration != 0, Duration(a.duration % TWO_32));
    ApplyLast(ty, a0, f7, a.decaying != DECAYING_FALSE, Decaying(a.decaying));
  }

  /** The first two fields set count, charges and fluid. */
  lemma {:induction false} KindFields(ty: ItemType, a: Attributes)
    ensures
      var a1 := ApplyIf(ty, Blank(ty), ty.stackable || ty.fluid, Count(SubType(ty, a) % 256));
      var a2 := ApplyIf(ty, a1, ty.charges != 0, RuneCharges(a.charges % 256));
      var n := NormAttributes(ty, a);
      a2 == Attributes(n.count, n.charges, n.fluidType, 0, 0, 0, [], [], [], ToInt32(ty.decayTime * 1000), DECAYING_FALSE)
  {
    hide ToInt32;
  }

  /** The others set one attribute each. */
  lemma {:induction false} OtherFields(ty: ItemType, a: Attributes, a2: Attributes)
    requires -0x8000_0000 <= a.duration < 0x8000_0000 && a.actionId < TWO_16 && a.decaying <= DECAYING_PENDING
    requires a2 == Attributes(a2.count, a2.charges, a2.fluidType, 0, 0, 0, [], [], [], ToInt32(ty.decayTime * 1000), DECAYING_FALSE)
    ensures
      var a3 := ApplyIf(ty, a2, ty.moveable && a.actionId != 0, ActionId(a.actionId));
      var a4 := ApplyIf(ty, a3, |a.text| > 0, Text(a.text));
      var a5 := ApplyIf(ty, a4, |a.writer| > 0, WrittenBy(a.writer));
      var a6 := ApplyIf(ty, a5, |a.description| > 0, Desc(a.description));
      var a7 := ApplyIf(ty, a6, a.duration != 0, Duration(a.duration % TWO_32));
      var a8 := ApplyIf(ty, a7, a.decaying != DECAYING_FALSE, Decaying(a.decaying));
      a8 == NormAttributes(ty, a).(count := a2.count, charges := a2.charges, fluidType := a2.fluidType)
  {
    Int32RoundTrip(a.duration);
    hide ToInt32, SubType, WithSubType;
    var n := NormAttributes(ty, a);
    assert ApplyIf(ty, a2, ty.moveable && a.actionId != 0, ActionId(a.actionId)) == a2.(actionId := n.actionId);
    var a3 := a2.(actionId := n.actionId);
    assert ApplyIf(ty, a3, |a.text| > 0, Text(a.text)) == a3.(text := n.text);
    var a4 := a3.(text := n.text);
    assert ApplyIf(ty, a4, |a.writer| > 0, WrittenBy(a.writer)) == a4.(writer := n.writer);
    var a5 := a4.(writer := n.writer);
    assert ApplyIf(ty, a5, |a.description| > 0, Desc(a.description)) == a5.(description := n.description);
    var a6 := a5.(description := n.description);
    assert ApplyIf(ty, a6, a.duration != 0, Duration(a.duration % TWO_32)) == a6.(duration := n.duration);
  }

  /** Applying the written fields to a new item gives the normalised attributes. */
  lemma {:induction false} FieldsNormalise(ty: ItemType, a: Attributes)
    requires -0x8000_0000 <= a.duration < 0x8000_0000 && a.actionId < TWO_16 && a.decaying <= DECAYING_PENDING
    ensures ApplyAll(ty, Blank(ty), Fields(ty, a)) == NormAttributes(ty, a)
  {
    FieldsInTurn(ty, a);
    KindFields(ty, a);
    hide ApplyAll, Fields, ToInt32, ApplyIf, NormAttributes, SubType;
    var a1 := ApplyIf(ty, Blank(ty), ty.stackable || ty.fluid, Count(SubType(ty, a) % 256));
    OtherFields(ty, a, ApplyIf(ty, a1, ty.charges != 0, RuneCharges(a.charges % 256)));
  }

  /** Loading an item again changes nothing more, except where one load has a value left to change: a negative
      duration first becomes zero and only then the default, and a fluid item with charges takes its charges
      for its fluid. */
  predicate Settles(ty: ItemType, a: Attributes) {
    var default := ToInt32(ty.decayTime * 1000);
    && (a.duration > 0 || (if a.duration == 0 then default >= 0 else default == 0))
    && (ty.fluid && ty.charges != 0 ==> ty.charges % 256 == a.charges % 256)
  }

  lemma {:induction false} SettlesAtOnce(ty: ItemType, a: Attributes)
    ensures NormAttributes(ty, NormAttributes(ty, a)) == NormAttributes(ty, a) <==> Settles(ty, a)
  {
    assert forall s: seq<byte> :: Cut(Cut(s)) == Cut(s);
  }

  /** A duration of -1 is loaded as 0, and that one as the default of the type. */
  lemma {:induction false} NotFinalAtOnce()
    ensures var ty := ItemType(true, false, false, 0, 10, false);
      var a := Blank(ty).(duration := -1);
      && NormAttributes(ty, a).duration == 0
      && NormAttributes(ty, NormAttributes(ty, a)).duration == 10000
  {
  }

  /** What has been loaded once settles unless the default duration of its type overflows to a negative one. */
  lemma {:induction false} SettlesSecond(ty: ItemType, a: Attributes)
    ensures Settles(ty, NormAttributes(ty, a)) <==> a.duration > 0 || ToInt32(ty.decayTime * 1000) >= 0
  {
  }

  /** A decay that has begun, or is due to, becomes one that is due to. */
  lemma {:induction false} DecayStates(ty: ItemType, a: Attributes)
    ensures NormAttributes(ty, a).decaying == if a.decaying == 0 then 0 else 2
  {
  }

  predicate SettlesAll(types: Types, t: Thing)
    requires Storable(types, t)
  {
    && Settles(types[t.id], t.attributes)
    && forall i :: 0 <= i < |t.contents| ==> SettlesAll(types, t.contents[i])
  }

  lemma {:induction false} NormStorable(types: Types, t: Thing)
    requires Storable(types, t)
    ensures Storable(types, Norm(types, t))
  {
    forall i | 0 <= i < |t.contents|
      ensures Storable(types, NormAll(types, t.contents)[i])
    {
      NormAllAt(types, t.contents, i);
      NormStorable(types, t.contents[i]);
    }
  }

  /** A second save and load changes nothing exactly when every item in the tree settles at once. */
  lemma {:induction false} NormIdempotent(types: Types, t: Thing)
    requires Storable(types, t)
    ensures Storable(types, Norm(types, t))
    ensures Norm(types, Norm(types, t)) == Norm(types, t) <==> SettlesAll(types, t)
  {
    NormStorable(types, t);
    SettlesAtOnce(types[t.id], t.attributes);
    var ts := t.contents;
    var ns := NormAll(types, ts);
    forall i | 0 <= i < |ts|
      ensures ns[i] == Norm(types, ts[i])
      ensures NormAll(types, ns)[i] == ns[i] <==> SettlesAll(types, ts[i])
    {
      NormAllAt(types, ts, i);
      NormAllAt(types, ns, i);
      NormIdempotent(types, ts[i]);
    }
    assert NormAll(types, ns) == ns <==> forall i :: 0 <= i < |ts| ==> NormAll(types, ns)[i] == ns[i];
  }

  predicate DefaultsKept(types: Types, t: Thing)
    requires Storable(types, t)
  {
    && (t.attributes.duration > 0 || ToInt32(types[t.id].decayTime * 1000) >= 0)
    && forall i :: 0 <= i < |t.contents| ==> DefaultsKept(types, t.contents[i])
  }

  /** A tree loaded once settles exactly when no default duration overflows. */
  lemma {:induction false} SettledAfterOne(types: Types, t: Thing)
    requires Storable(types, t)
    ensures Storable(types, Norm(types, t)) && (SettlesAll(types, Norm(types, t)) <==> DefaultsKept(types, t))
  {
    NormStorable(types, t);
    SettlesSecond(types[t.id], t.attributes);
    var ns := NormAll(types, t.contents);
    forall i | 0 <= i < |ns|
      ensures ns[i] == Norm(types, t.contents[i])
      ensures SettlesAll(types, ns[i]) <==> DefaultsKept(types, t.contents[i])
    {
      NormAllAt(types, t.contents, i);
      SettledAfterOne(types, t.contents[i]);
    }
  }

  /** Saving what was loaded gives the same bytes as saving what is loaded from those, at once where every item
      settles, and from the second time on where no default duration overflows. */
  lemma {:induction false} SameBytesAgain(types: Types, t: Thing)
    requires Storable(types, t)
    ensures var n := Norm(types, t);
      && Storable(types, n) && Storable(types, Norm(types, n)) && Storable(types, Norm(types, Norm(types, n)))
      && (SettlesAll(types, t) ==> Encode(types, Norm(types, n)) == Encode(types, n))
      && (DefaultsKept(types, t) ==> Encode(types, Norm(types, Norm(types, n))) == Encode(types, Norm(types, n)))
  {
    NormIdempotent(types, t);
    SettledAfterOne(types, t);
    NormIdempotent(types, Norm(types, t));
    NormStorable(types, Norm(types, Norm(types, t)));
  }

  /** The sub type of an item survives exactly when it fits in a byte and its kinds do not clash: a fluid item
      with charges reads them back as its fluid. */
  lemma {:induction false} SubTypeSurvives(ty: ItemType, a: Attributes)
    requires ty.stackable || ty.fluid || ty.charges != 0
    ensures SubType(ty, NormAttributes(ty, a)) == SubType(ty, a)
      <==> SubType(ty, a) == (if ty.charges != 0 then a.charges else SubType(ty, a)) % 256
  {
  }

  /** An item both stackable and charged loses its count. */
  lemma {:induction false} CountSurvives(ty: ItemType, a: Attributes)
    requires ty.stackable && !ty.fluid && 1 < a.count < 256
    ensures NormAttributes(ty, a).count == a.count <==> ty.charges == 0
  {
  }

  /** Five of a stackable item with charges come back as one. */
  lemma {:induction false} CountIsLost()
    ensures var ty := ItemType(true, true, false, 3, 0, false);
      NormAttributes(ty, Blank(ty).(count := 5)).count == 1
  {
  }

  // ----- the bytes of a bag

  /** Type 0x0102 is stackable, type 3 a container. */
  const BAG_TYPES: Types := map[
    0x0102 := ItemType(true, true, false, 0, 0, false),
    3 := ItemType(true, false, false, 0, 0, true)]

  function Coins(n: nat): Thing { Thing(0x0102, Blank(BAG_TYPES[0x0102]).(count := n), []) }

  function Bag(): Thing { Thing(3, Blank(BAG_TYPES[3]).(text := [0x68, 0x69]), [Coins(5), Coins(7)]) }

  lemma {:induction false} BytesOfCoins(n: nat)
    requires n < 256
    ensures Storable(BAG_TYPES, Coins(n)) && Encode(BAG_TYPES, Coins(n)) == [0x02, 0x01, 15, n, 0]
  {
    assert Little(0x0102, 2) == [2] + Little(1, 1) == [2, 1];
    assert Little(n, 1) == [n];
    var fs := Fields(BAG_TYPES[0x0102], Coins(n).attributes);
    assert fs == [Count(n)];
    assert FieldsBytes(fs) == FieldBytes(Count(n)) + FieldsBytes(fs[1..]) == [15, n];
  }

  lemma {:induction false} SmallNumbers(n: nat)
    requires n < 256
    ensures Little(n, 2) == [n, 0] && Little(n, 4) == [n, 0, 0, 0]
  {
    assert Little(0, 1) == [0] && Little(0, 2) == [0] + Little(0, 1) && Little(0, 3) == [0] + Little(0, 2);
    assert Little(n, 2) == [n] + Little(0, 1) && Little(n, 4) == [n] + Little(0, 3);
  }

  lemma {:induction false} BytesOfTheText()
    ensures FieldsBytes(Fields(BAG_TYPES[3], Bag().attributes)) == [6, 2, 0, 0x68, 0x69]
  {
    var fs := Fields(BAG_TYPES[3], Bag().attributes);
    SmallNumbers(2);
    assert fs == [Text([0x68, 0x69])];
    hide Little;
    assert Cut([0x68, 0x69]) == [0x68, 0x69];
    assert FieldsBytes(fs) == FieldBytes(fs[0]) + FieldsBytes(fs[1..]);
  }

  lemma {:induction false} BytesOfTheCoins()
    ensures AllStorable(BAG_TYPES, Bag().contents)
    ensures EncodeReversed(BAG_TYPES, Bag().contents) == [0x02, 0x01, 15, 7, 0, 0x02, 0x01, 15, 5, 0]
  {
    BytesOfCoins(5);
    BytesOfCoins(7);
    hide Encode, Storable, Coins;
    var ts := [Coins(5), Coins(7)];
    assert Bag().contents == ts && ts[..1] == [Coins(5)] && ts[..1][..0] == [];
    assert AllStorable(BAG_TYPES, ts) && AllStorable(BAG_TYPES, ts[..1]) && AllStorable(BAG_TYPES, []);
    assert EncodeReversed(BAG_TYPES, ts[..1]) == Encode(BAG_TYPES, Coins(5)) + EncodeReversed(BAG_TYPES, ts[..1][..0]);
    assert EncodeReversed(BAG_TYPES, ts) == Encode(BAG_TYPES, Coins(7)) + EncodeReversed(BAG_TYPES, ts[..1]);
  }

  /** A bag with the text "hi", five coins and seven: ids and sizes lowest byte first, the last coins first. */
  lemma {:induction false} BytesOfABag()
    ensures Storable(BAG_TYPES, Bag())
    ensures Encode(BAG_TYPES, Bag()) ==
      [3, 0, 6, 2, 0, 0x68, 0x69, 22, 2, 0, 0, 0, 0x02, 0x01, 15, 7, 0, 0x02, 0x01, 15, 5, 0, 0]
  {
    hide Little, FieldsBytes, Fields, EncodeReversed, Coins, Bag, Storable, AllStorable;
    BagIs();
    BytesOfTheText();
    BytesOfTheCoins();
    SmallNumbers(2);
    SmallNumbers(3);
    var t := Bag();
    var inner := EncodeReversed(BAG_TYPES, t.contents);
    assert Contents(BAG_TYPES, t) == [22] + [2, 0, 0, 0] + inner;
    assert Encode(BAG_TYPES, t) == [3, 0] + [6, 2, 0, 0x68, 0x69] + ([22] + [2, 0, 0, 0] + inner) + [0];
  }

  lemma {:induction false} BagIs()
    ensures Bag().id == 3 && |Bag().contents| == 2 && 3 in BAG_TYPES && BAG_TYPES[3].container && Storable(BAG_TYPES, Bag())
  {
    BytesOfCoins(5);
    BytesOfCoins(7);
    hide Coins, Encode;
  }
}
