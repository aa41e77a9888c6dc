/** Saving an item tree to a map blob and loading it back (font/iomapserialize.cpp `saveItem`, `loadItem`,
    `loadContainer`; font/item.cpp `serializeAttr`, `unserializeAttr`, `readAttr`; font/container.cpp `readAttr`). */
module ItemBinary {
  import opened Arithmetic
  import opened Bytes
  import opened PropStreams
  import opened ItemFormat
  import opened ItemGrammar

  /** A plain item or a container. */
  class Item {
    const id: nat
    const ty: ItemType
    var attributes: Attributes
    var contents: seq<Item>
    var serializationCount: nat

    constructor (id: nat, ty: ItemType)
      ensures this.id == id && this.ty == ty && attributes == Blank(ty) && contents == [] && serializationCount == 0
    {
      this.id, this.ty := id, ty;
      attributes, contents, serializationCount := Blank(ty), [], 0;
    }
  }

  /** Object `o` with what it contains, all within `S`, is thing `t`, in the same order. */
  ghost predicate Matches(types: Types, S: set<Item>, o: Item, t: Thing)
    reads S
    decreases t
  {
    && o in S && o.id == t.id && t.id in types && o.ty == types[t.id] && o.attributes == t.attributes
    && |o.contents| == |t.contents|
    && forall i :: 0 <= i < |t.contents| ==> Matches(types, S, o.contents[i], t.contents[i])
  }

  lemma {:induction false} MatchesMore(types: Types, S: set<Item>, S': set<Item>, o: Item, t: Thing)
    requires S <= S' && Matches(types, S, o, t)
    ensures Matches(types, S', o, t)
    decreases t
  {
    forall i | 0 <= i < |t.contents|
      ensures Matches(types, S', o.contents[i], t.contents[i])
    {
      MatchesMore(types, S, S', o.contents[i], t.contents[i]);
    }
  }

  // ----- saving

  method AddField(out: PropWriteStream, f: Field)
    modifies out
    ensures out.buffer == old(out.buffer) + FieldBytes(f)
  {
    hide Tag;
    out.AddValue(Tag(f), 1);
    assert Little(Tag(f), 1) == [Tag(f)];
    Assoc(old(out.buffer), [Tag(f)], Payload(f));
    hide Little, StringBytes;
    match f {
      case Count(n) => out.AddValue(n, 1);
      case RuneCharges(n) => out.AddValue(n, 1);
      case ActionId(id) => out.AddValue(id, 2);
      case Text(s) => out.AddString(s);
      case WrittenBy(s) => out.AddString(s);
      case Desc(s) => out.AddString(s);
      case Duration(d) => out.AddValue(d, 4);
      case Decaying(state) => out.AddValue(state, 1);
    }
  }

  lemma {:induction false} FieldsBytesSnoc(fs: seq<Field>, b: bool, f: Field)
    ensures FieldsBytes(AppendIf(fs, b, f)) == FieldsBytes(fs) + if b then FieldBytes(f) else []
    decreases |fs|
  {
    hide FieldBytes;
    if !b {
      assert FieldsBytes(fs) + [] == FieldsBytes(fs);
    } else if fs == [] {
      assert [] + [f] == [f] && [f][1..] == [];
      assert FieldsBytes([f]) == FieldBytes(f) + FieldsBytes([]);
    } else {
      FieldsBytesSnoc(fs[1..], b, f);
      assert (fs + [f])[1..] == fs[1..] + [f];
      Assoc(FieldBytes(fs[0]), FieldsBytes(fs[1..]), FieldBytes(f));
    }
  }

  /** The stream has grown by these fields. */
  predicate Written(buffer: seq<byte>, before: seq<byte>, fs: seq<Field>) { buffer == before + FieldsBytes(fs) }

  lemma {:induction false} NothingWritten(b: seq<byte>)
    ensures Written(b, b, [])
  {
  }

  lemma {:induction false} WrittenIs(buffer: seq<byte>, before: seq<byte>, fs: seq<Field>)
    requires Written(buffer, before, fs)
    ensures buffer == before + FieldsBytes(fs)
  {
  }

  method AddFieldIf(out: PropWriteStream, b: bool, f: Field, ghost before: seq<byte>, ghost fs: seq<Field>) returns (ghost fs': seq<Field>)
    requires Written(out.buffer, before, fs)
    modifies out
    ensures fs' == AppendIf(fs, b, f) && Written(out.buffer, before, fs')
  {
    FieldsBytesSnoc(fs, b, f);
    fs' := AppendIf(fs, b, f);
    Assoc(before, FieldsBytes(fs), FieldBytes(f));
    hide FieldsBytes, FieldBytes, AppendIf;
    if b { AddField(out, f); }
  }

  /** `serializeAttr`: what differs from a blank item, one optional field after the other. */
  method SerializeAttr(out: PropWriteStream, ty: ItemType, a: Attributes)
    modifies out
    ensures out.buffer == old(out.buffer) + FieldsBytes(Fields(ty, a))
  {
    hide FieldsBytes, AppendIf, SubType, Written;
    ghost var b, fs := out.buffer, [];
    NothingWritten(b);
    fs := AddFieldIf(out, ty.stackable || ty.fluid, Count(SubType(ty, a) % 256), b, fs);
    fs := AddFieldIf(out, ty.charges != 0, RuneCharges(a.charges % 256), b, fs);
    fs := AddFieldIf(out, ty.moveable && a.actionId != 0, ActionId(a.actionId), b, fs);
    fs := AddFieldIf(out, |a.text| > 0, Text(a.text), b, fs);
    fs := AddFieldIf(out, |a.writer| > 0, WrittenBy(a.writer), b, fs);
    fs := AddFieldIf(out, |a.description| > 0, Desc(a.description), b, fs);
    fs := AddFieldIf(out, a.duration != 0, Duration(a.duration % TWO_32), b, fs);
    fs := AddFieldIf(out, a.decaying != DECAYING_FALSE, Decaying(a.decaying), b, fs);
    WrittenIs(out.buffer, b, fs);
  }

  lemma {:induction false} ItemParts(types: Types, S: set<Item>, o: Item, t: Thing)
    requires Storable(types, t) && Matches(types, S, o, t)
    ensures t.id in types && o.id == t.id && o.ty == types[t.id] && o.attributes == t.attributes
    ensures Encode(types, t) == Little(t.id, 2) + FieldsBytes(Fields(types[t.id], t.attributes)) + Contents(types, t) + [0]
    ensures !o.ty.container ==> Contents(types, t) == []
    ensures Little(0, 1) == [0]
  {
  }

  /** `saveItem`: id, attributes, the contents of a container last to first, and the end mark. */
  method SaveItem(types: Types, out: PropWriteStream, o: Item, ghost S: set<Item>, ghost t: Thing)
    requires Storable(types, t) && Matches(types, S, o, t)
    modifies out
    ensures out.buffer == old(out.buffer) + Encode(types, t)
    decreases t, 1
  {
    hide Little, Fields, FieldsBytes, Contents, Encode, Matches, Storable;
    ItemParts(types, S, o, t);
    ghost var b := out.buffer;
    ghost var id, fields, inner := Little(t.id, 2), FieldsBytes(Fields(types[t.id], t.attributes)), Contents(types, t);
    out.AddValue(o.id, 2);
    SerializeAttr(out, o.ty, o.attributes);
    Assoc(b, id, fields);
    if o.ty.container {
      SaveContents(types, out, o, S, t);
    }
    Assoc(b, id + fields, inner);
    out.AddValue(0, 1);
    Assoc(b, id + fields + inner, [0]);
  }

  lemma {:induction false} ContentsParts(types: Types, S: set<Item>, o: Item, t: Thing)
    requires Storable(types, t) && Matches(types, S, o, t) && o.ty.container
    ensures forall i :: 0 <= i < |t.contents| ==> Matches(types, S, o.contents[i], t.contents[i])
    ensures AllStorable(types, t.contents) && |o.contents| == |t.contents|
    ensures Little(ATTR_CONTAINER_ITEMS, 1) == [ATTR_CONTAINER_ITEMS]
    ensures Contents(types, t) == [ATTR_CONTAINER_ITEMS] + Little(|t.contents|, 4) + EncodeReversed(types, t.contents)
  {
  }

  lemma {:induction false} ReversedStep(types: Types, ts: seq<Thing>, i: nat)
    requires AllStorable(types, ts) && i < |ts|
    ensures EncodeReversed(types, ts[..i + 1]) == Encode(types, ts[i]) + EncodeReversed(types, ts[..i])
  {
    assert ts[..i + 1][..i] == ts[..i];
  }

  method SaveContents(types: Types, out: PropWriteStream, o: Item, ghost S: set<Item>, ghost t: Thing)
    requires Storable(types, t) && Matches(types, S, o, t) && o.ty.container
    modifies out
    ensures out.buffer == old(out.buffer) + Contents(types, t)
    decreases t, 0
  {
    hide Little, Contents, Encode, EncodeReversed, Matches, Storable;
    ContentsParts(types, S, o, t);
    ghost var b, opening := out.buffer, [ATTR_CONTAINER_ITEMS] + Little(|t.contents|, 4);
    out.AddValue(ATTR_CONTAINER_ITEMS, 1);
    out.AddValue(|o.contents|, 4);
    Assoc(b, [ATTR_CONTAINER_ITEMS], Little(|t.contents|, 4));
    ghost var start := out.buffer;
    var i := |o.contents|;
    ghost var done: seq<byte>, ts := [], t.contents;
    assert ts[..i] == ts;
    while i > 0
      invariant 0 <= i <= |o.contents| == |ts| && AllStorable(types, ts)
      invariant out.buffer == start + done
      invariant done + EncodeReversed(types, ts[..i]) == EncodeReversed(types, ts)
    {
      i := i - 1;
      ReversedStep(types, ts, i);
      ghost var item := Encode(types, ts[i]);
      Assoc(done, item, EncodeReversed(types, ts[..i]));
      Assoc(start, done, item);
      SaveItem(types, out, o.contents[i], S, ts[i]);
      done := done + item;
    }
    assert done + EncodeReversed(types, ts[..i]) == done by { NoneReversed(types, ts); }
    Assoc(b, opening, done);
  }

  lemma {:induction false} NoneReversed(types: Types, ts: seq<Thing>)
    ensures EncodeReversed(types, ts[..0]) == []
  {
  }

  // ----- loading

  datatype ReadValue = ReadError | ReadContinue | ReadEnd

  /** Whether the payload of field `f` is what comes next, after its tag. */
  ghost predicate FieldAhead(stream: PropStream, tag: byte, f: Field)
    reads stream
  {
    tag == Tag(f) && stream.Ahead(Payload(f))
  }

  /** The number a field carries, as it is read back. */
  function Number(f: Field): nat {
    match f
    case Count(n) => n
    case RuneCharges(n) => n
    case ActionId(id) => id % TWO_16
    case Duration(d) => d % TWO_32
    case Decaying(state) => state % 256
    case _ => 0
  }

  /** The string a field carries, as it is read back. */
  function String(f: Field): seq<byte> {
    match f
    case Text(s) => Cut(s)
    case WrittenBy(s) => Cut(s)
    case Desc(s) => Cut(s)
    case _ => []
  }

  predicate IsText(f: Field) { f.Text? || f.WrittenBy? || f.Desc? }

  lemma {:induction false} PayloadReads(data: seq<byte>, p: nat, f: Field)
    requires At(data, p, Payload(f))
    ensures IsText(f) ==> |Payload(f)| == 2 + |String(f)| && FromLittle(data[p..p + 2]) == |String(f)| && data[p + 2..p + |Payload(f)|] == String(f)
    ensures !IsText(f) ==> FromLittle(data[p..p + |Payload(f)|]) == Number(f)
  {
    hide Little, FromLittle;
    if IsText(f) {
      ReadBack(|String(f)|);
      assert Payload(f) == Little(|String(f)|, 2) + String(f);
      AtSplit(data, p, Little(|String(f)|, 2), String(f));
    } else {
      match f
      case Count(n) => ReadBack(n);
      case RuneCharges(n) => ReadBack(n);
      case ActionId(id) => ReadBack(id);
      case Duration(d) => ReadBack(d);
      case Decaying(state) => ReadBack(state);
      case _ =>
    }
  }

  lemma {:induction false} PayloadWidth(f: Field)
    ensures !IsText(f) ==> |Payload(f)| == (if f.Duration? then 4 else if f.ActionId? then 2 else 1)
    ensures f.Duration? ==> ToInt32(Number(f)) == ToInt32(f.d)
  {
  }

  ghost predicate FieldRead(stream: PropStream, p: nat, f: Field, o: Item, a: Attributes)
    reads stream, o
  {
    stream.p == p + |Payload(f)| && o.attributes == Apply(o.ty, a, f)
  }

  lemma {:induction false} TextApplies(ty: ItemType, a: Attributes, f: Field)
    requires IsText(f)
    ensures Apply(ty, a, f) ==
      if String(f) == [] then a
      else if Tag(f) == ATTR_TEXT then a.(text := String(f))
      else if Tag(f) == ATTR_WRITTENBY then a.(writer := String(f))
      else a.(description := String(f))
  {
  }

  /** The attributes that are strings. */
  method ReadText(stream: PropStream, tag: byte, o: Item, ghost f: Field) returns (ok: bool)
    requires stream.Valid() && (tag == ATTR_TEXT || tag == ATTR_WRITTENBY || tag == ATTR_DESC)
    modifies stream, o`attributes
    ensures stream.Valid() && stream.p >= old(stream.p)
    ensures old(FieldAhead(stream, tag, f)) ==> ok && FieldRead(stream, old(stream.p), f, o, old(o.attributes))
    ensures if ok then stream.p == PayloadEnd(stream.data, old(stream.p), tag) else PayloadEnd(stream.data, old(stream.p), tag) == -1
  {
    ghost var p := stream.p;
    if FieldAhead(stream, tag, f) {
      PayloadReads(stream.data, p, f);
      TextApplies(o.ty, o.attributes, f);
    }
    TextEnd(stream.data, p, tag);
    hide Payload, FromLittle, StringBytes, Cut, Apply, String, At, PayloadEnd;
    var s;
    ok, s := stream.GetString();
    if ok && s != [] {
      o.attributes :=
        if tag == ATTR_TEXT then o.attributes.(text := s)
        else if tag == ATTR_WRITTENBY then o.attributes.(writer := s)
        else o.attributes.(description := s);
    }
  }

  /** How many bytes the attributes of doors, beds, teleports and depots take, which other items read over. */
  function Skipped(tag: byte): nat {
    if tag == 8 then 5 else if tag == 10 then 2 else if tag == 14 then 1 else if tag == 20 || tag == 21 then 4 else 0
  }

  lemma {:induction false} SkippedWidths(tag: byte)
    ensures Skipped(8) == 5 && Skipped(10) == 2 && Skipped(14) == 1 && Skipped(20) == 4 && Skipped(21) == 4
    ensures tag !in {8, 10, 14, 20, 21} <==> Skipped(tag) == 0
  {
  }

  /** The attributes that are numbers. */
  method ReadNumber(stream: PropStream, tag: byte, o: Item, ghost f: Field) returns (ok: bool)
    requires stream.Valid() && !(tag == ATTR_TEXT || tag == ATTR_WRITTENBY || tag == ATTR_DESC)
    modifies stream, o`attributes
    ensures stream.Valid() && stream.p >= old(stream.p)
    ensures old(FieldAhead(stream, tag, f)) ==> ok && FieldRead(stream, old(stream.p), f, o, old(o.attributes))
    ensures tag == 5 ==> (ok <==> old(stream.Left()) >= 2)
    ensures tag == 5 && ok ==>
      && stream.p == old(stream.p) + 2
      && o.attributes == old(o.attributes).(uniqueId := Max(1000, FromLittle(stream.data[old(stream.p)..old(stream.p) + 2])))
    ensures Skipped(tag) > 0 ==> (ok <==> old(stream.Left()) >= Skipped(tag)) && o.attributes == old(o.attributes)
    ensures Skipped(tag) > 0 && ok ==> stream.p == old(stream.p) + Skipped(tag)
    ensures Skipped(tag) == 0 && tag !in {4, 5, 12, 15, 16, 17} ==> !ok && o.attributes == old(o.attributes)
    ensures if ok then stream.p == PayloadEnd(stream.data, old(stream.p), tag) else PayloadEnd(stream.data, old(stream.p), tag) == -1
  {
    if FieldAhead(stream, tag, f) { FieldsHaveTags(stream, tag, f); }
    hide FieldAhead, FieldRead, FromLittle;
    if tag in {ATTR_COUNT, ATTR_RUNE_CHARGES, ATTR_ACTION_ID, ATTR_DURATION, ATTR_DECAYING_STATE} {
      ok := ReadOwnNumber(stream, tag, o, f);
    } else if tag == ATTR_UNIQUE_ID {
      var n;
      ok, n := stream.GetValue(2);
      if ok { o.attributes := o.attributes.(uniqueId := if n < 1000 then 1000 else n); }
    } else {
      ok := ReadOver(stream, tag);
    }
  }

  lemma {:induction false} FieldsHaveTags(stream: PropStream, tag: byte, f: Field)
    requires stream.Valid() && FieldAhead(stream, tag, f)
    ensures tag in {4, 6, 7, 12, 15, 16, 17, 19}
  {
  }

  /** The numbers a plain item writes itself. */
  method ReadOwnNumber(stream: PropStream, tag: byte, o: Item, ghost f: Field) returns (ok: bool)
    requires stream.Valid() && tag in {ATTR_COUNT, ATTR_RUNE_CHARGES, ATTR_ACTION_ID, ATTR_DURATION, ATTR_DECAYING_STATE}
    modifies stream, o`attributes
    ensures stream.Valid() && stream.p >= old(stream.p)
    ensures old(FieldAhead(stream, tag, f)) ==> ok && FieldRead(stream, old(stream.p), f, o, old(o.attributes))
    ensures if ok then stream.p == PayloadEnd(stream.data, old(stream.p), tag) else PayloadEnd(stream.data, old(stream.p), tag) == -1
  {
    ghost var p := stream.p;
    if FieldAhead(stream, tag, f) {
      PayloadReads(stream.data, p, f);
      PayloadWidth(f);
    }
    NumberEnd(stream.data, p, tag);
    hide Payload, FromLittle, ToInt32, WithSubType, PayloadEnd;
    var n;
    if tag == ATTR_COUNT || tag == ATTR_RUNE_CHARGES {
      ok, n := stream.GetValue(1);
      if ok { o.attributes := WithSubType(o.ty, o.attributes, n); }
    } else if tag == ATTR_ACTION_ID {
      ok, n := stream.GetValue(2);
      if ok { o.attributes := o.attributes.(actionId := if n < 100 then 100 else n); }
    } else if tag == ATTR_DURATION {
      ok, n := stream.GetValue(4);
      if ok { o.attributes := o.attributes.(duration := if ToInt32(n) < 0 then 0 else ToInt32(n)); }
    } else {
      ok, n := stream.GetValue(1);
      if ok && n != DECAYING_FALSE { o.attributes := o.attributes.(decaying := DECAYING_PENDING); }
    }
  }

  /** The attributes only doors, beds, teleports and depots have a use for. */
  method ReadOver(stream: PropStream, tag: byte) returns (ok: bool)
    requires stream.Valid()
    modifies stream
    ensures stream.Valid() && stream.p >= old(stream.p)
    ensures ok <==> 0 < Skipped(tag) <= old(stream.Left())
    ensures ok ==> stream.p == old(stream.p) + Skipped(tag)
    ensures tag !in {4, 5, 6, 7, 12, 15, 16, 17, 19} ==>
      if ok then stream.p == PayloadEnd(stream.data, old(stream.p), tag) else PayloadEnd(stream.data, old(stream.p), tag) == -1
  {
    var n;
    if tag == ATTR_DEPOT_ID {
      ok, n := stream.GetValue(2);
    } else if tag == ATTR_HOUSEDOORID {
      ok, n := stream.GetValue(1);
    } else if tag == ATTR_SLEEPERGUID || tag == ATTR_SLEEPSTART {
      ok, n := stream.GetValue(4);
    } else if tag == ATTR_TELE_DEST {
      ok, n := stream.GetValue(2);
      if ok { ok, n := stream.GetValue(2); }
      if ok { ok, n := stream.GetValue(1); }
    } else {
      ok := false;
    }
  }

  /** `Item::readAttr` and `Container::readAttr`: one attribute after its type byte. Only a container may go
      on with items. */
  method ReadAttr(stream: PropStream, tag: byte, o: Item, ghost f: Field) returns (r: ReadValue)
    requires stream.Valid()
    modifies stream, o`attributes, o`serializationCount
    ensures stream.Valid() && stream.p >= old(stream.p)
    ensures r.ReadEnd? ==> o.ty.container
    ensures !r.ReadEnd? ==> o.serializationCount == old(o.serializationCount)
    ensures old(FieldAhead(stream, tag, f)) ==> r == ReadContinue && FieldRead(stream, old(stream.p), f, o, old(o.attributes))
    ensures tag == 5 || Skipped(tag) > 0 ==>
      r == if old(stream.Left()) >= (if tag == 5 then 2 else Skipped(tag)) then ReadContinue else ReadError
    ensures Skipped(tag) > 0 ==> o.attributes == old(o.attributes) && (r == ReadContinue ==> stream.p == old(stream.p) + Skipped(tag))
    ensures tag !in {4, 5, 6, 7, 8, 10, 12, 14, 15, 16, 17, 19, 20, 21, 22} ==> r == ReadError && o.attributes == old(o.attributes)
    ensures tag == 22 && (!o.ty.container || old(stream.Left()) < 4) ==> r == ReadError
    ensures tag != 22 ==>
      if r.ReadContinue? then stream.p == PayloadEnd(stream.data, old(stream.p), tag)
      else r.ReadError? && PayloadEnd(stream.data, old(stream.p), tag) == -1
    ensures tag == ATTR_CONTAINER_ITEMS && o.ty.container && old(stream.Left()) >= 4 ==>
      && r == ReadEnd && stream.p == old(stream.p) + 4 && o.attributes == old(o.attributes)
      && o.serializationCount == FromLittle(stream.data[old(stream.p)..old(stream.p) + 4])
  {
    var ok;
    if tag == ATTR_TEXT || tag == ATTR_WRITTENBY || tag == ATTR_DESC {
      ok := ReadText(stream, tag, o, f);
    } else if tag == ATTR_CONTAINER_ITEMS {
      var n;
      ok, n := stream.GetValue(4);
      if ok && o.ty.container {
        o.serializationCount := n;
        return ReadEnd;
      }
      ok := false;
    } else {
      ok := ReadNumber(stream, tag, o, f);
    }
    return if ok then ReadContinue else ReadError;
  }

  /** How an attribute list ends: with a zero, or in a container with the number of items that follow. */
  ghost predicate IsEnd(ty: ItemType, end: seq<byte>, n: nat) {
    if ty.container then end == [ATTR_CONTAINER_ITEMS] + Little(n, 4) && n < TWO_32 else end == [0] && n == 0
  }

  /** The fields `rest` and then `end` follow, up to `goal`. */
  ghost predicate Following(data: seq<byte>, p: nat, rest: seq<Field>, end: seq<byte>, goal: nat) {
    At(data, p, FieldsBytes(rest) + end) && goal == p + |FieldsBytes(rest) + end|
  }

  lemma {:induction false} FieldsBytesFront(fs: seq<Field>)
    requires fs != []
    ensures FieldsBytes(fs) == [Tag(fs[0])] + Payload(fs[0]) + FieldsBytes(fs[1..])
  {
  }

  lemma {:induction false} NextField(data: seq<byte>, p: nat, fs: seq<Field>, end: seq<byte>, goal: nat)
    requires Following(data, p, fs, end, goal) && fs != []
    ensures p + 1 <= |data| && FromLittle(data[p..p + 1]) == Tag(fs[0])
    ensures At(data, p + 1, Payload(fs[0]))
    ensures Following(data, p + 1 + |Payload(fs[0])|, fs[1..], end, goal)
  {
    hide Payload, Tag, FieldsBytes, FromLittle, At;
    var tag, payload, rest := [Tag(fs[0])], Payload(fs[0]), FieldsBytes(fs[1..]);
    FieldsBytesFront(fs);
    Regroup(tag, payload, rest, end);
    AtSplit(data, p, tag, payload + (rest + end));
    AtSplit(data, p + 1, payload, rest + end);
    AtIs(data, p, tag);
    OneByte(Tag(fs[0]));
  }

  lemma {:induction false} Regroup(a: seq<byte>, b: seq<byte>, c: seq<byte>, d: seq<byte>)
    ensures a + b + c + d == a + (b + (c + d))
  {
  }

  lemma {:induction false} OneByte(b: byte)
    ensures FromLittle([b]) == b
  {
    assert [b][1..] == [];
    assert FromLittle([b]) == b + 256 * FromLittle([]);
  }

  lemma {:induction false} ByteIs(data: seq<byte>, p: nat)
    ensures p < |data| ==> FromLittle(data[p..p + 1]) == data[p]
  {
    if p < |data| {
      assert data[p..p + 1] == [data[p]];
      OneByte(data[p]);
    }
  }

  lemma {:induction false} TheEnd(data: seq<byte>, p: nat, ty: ItemType, end: seq<byte>, n: nat, goal: nat)
    requires IsEnd(ty, end, n) && Following(data, p, [], end, goal)
    ensures p + 1 <= goal <= |data| && FromLittle(data[p..p + 1]) == if ty.container then ATTR_CONTAINER_ITEMS else 0
    ensures if ty.container then goal == p + 5 && FromLittle(data[p + 1..p + 5]) == n else goal == p + 1
  {
    assert FieldsBytes([]) + end == end;
    assert data[p..p + 1] == [end[0]];
    OneByte(end[0]);
    if ty.container {
      ReadBack(n);
      assert data[p + 1..p + 5] == end[1..];
    }
  }

  lemma {:induction false} ApplyNext(ty: ItemType, a: Attributes, fs: seq<Field>)
    ensures ApplyAll(ty, a, fs) == if fs == [] then a else ApplyAll(ty, Apply(ty, a, fs[0]), fs[1..])
  {
  }

  /** `unserializeAttr`: attributes until a zero, the end of the data, or the items of a container. */
  method UnserializeAttr(stream: PropStream, o: Item, ghost fs: seq<Field>, ghost end: seq<byte>, ghost n: nat) returns (ok: bool)
    requires stream.Valid()
    modifies stream, o`attributes, o`serializationCount
    ensures stream.Valid() && stream.p >= old(stream.p)
    ensures IsEnd(o.ty, end, n) && old(stream.Ahead(FieldsBytes(fs) + end)) ==>
      && ok && stream.p == old(stream.p) + |FieldsBytes(fs) + end| && o.attributes == ApplyAll(o.ty, old(o.attributes), fs)
      && o.serializationCount == if o.ty.container then n else old(o.serializationCount)
    ensures var e := AttributesEnd(o.ty.container, stream.data, old(stream.p));
      if ok then stream.p == e.0 && (old(o.serializationCount) == 0 ==> o.serializationCount == e.1) else e.0 == -1
  {
    hide AttributesEnd, PayloadEnd, IsEnd, FieldsBytes, FromLittle, Payload, ApplyAll, Apply, Little, At, Tag;
    ghost var goal := stream.p + |FieldsBytes(fs) + end|;
    ghost var wf := IsEnd(o.ty, end, n) && Following(stream.data, stream.p, fs, end, goal);
    ghost var rest, want := fs, ApplyAll(o.ty, o.attributes, fs);
    while true
      invariant stream.Valid() && stream.p >= old(stream.p) && o.serializationCount == old(o.serializationCount)
      invariant AttributesEnd(o.ty.container, stream.data, old(stream.p)) == AttributesEnd(o.ty.container, stream.data, stream.p)
      invariant wf ==> Following(stream.data, stream.p, rest, end, goal) && ApplyAll(o.ty, o.attributes, rest) == want
      decreases stream.Left()
    {
      ApplyNext(o.ty, o.attributes, rest);
      AttributesNext(o.ty.container, stream.data, stream.p);
      ByteIs(stream.data, stream.p);
      if wf && rest != [] {
        NextField(stream.data, stream.p, rest, end, goal);
      } else if wf {
        TheEnd(stream.data, stream.p, o.ty, end, n, goal);
      }
      hide Following;
      ghost var f := if rest == [] then Count(0) else rest[0];
      var tag;
      ok, tag := stream.GetValue(1);
      if !ok || tag == 0 { return true; }
      var r := ReadAttr(stream, tag, o, f);
      if r.ReadError? { return false; }
      if r.ReadEnd? { return true; }
      rest := if rest == [] then [] else rest[1..];
    }
  }

  ghost predicate MatchesAll(types: Types, S: set<Item>, os: seq<Item>, ts: seq<Thing>)
    reads S
  {
    |os| == |ts| && forall i :: 0 <= i < |ts| ==> Matches(types, S, os[i], ts[i])
  }

  /** The contents still to be read, then the end mark. */
  ghost predicate ItemsAhead(types: Types, data: seq<byte>, p: nat, ts: seq<Thing>, goal: nat) {
    && AllStorable(types, ts)
    && At(data, p, EncodeReversed(types, ts) + [0]) && goal == p + |EncodeReversed(types, ts)| + 1
  }

  lemma {:induction false} NextItem(types: Types, data: seq<byte>, p: nat, ts: seq<Thing>, goal: nat)
    requires ItemsAhead(types, data, p, ts, goal) && ts != []
    ensures var last := |ts| - 1;
      && Storable(types, ts[last]) && At(data, p, Encode(types, ts[last]))
      && ItemsAhead(types, data, p + |Encode(types, ts[last])|, ts[..last], goal)
  {
    hide Encode, Storable, At, EncodeReversed;
    var last := |ts| - 1;
    var item, rest := Encode(types, ts[last]), EncodeReversed(types, ts[..last]);
    assert EncodeReversed(types, ts) == item + rest by {
      ReversedStep(types, ts, last);
      assert ts[..last + 1] == ts;
    }
    Assoc(item, rest, [0]);
    AtSplit(data, p, item, rest + [0]);
  }

  lemma {:induction false} NoItems(types: Types, data: seq<byte>, p: nat, goal: nat)
    requires ItemsAhead(types, data, p, [], goal)
    ensures p < |data| && goal == p + 1 && FromLittle(data[p..p + 1]) == 0
  {
    assert EncodeReversed(types, []) + [0] == [0];
    assert [data[p]] == data[p..p + 1] == [0];
    OneByte(0);
  }

  lemma {:induction false} NormFront(types: Types, ts: seq<Thing>, n: nat)
    requires AllStorable(types, ts) && 0 < n <= |ts|
    ensures NormAll(types, ts[n - 1..]) == [Norm(types, ts[n - 1])] + NormAll(types, ts[n..])
  {
    assert ts[n - 1..][1..] == ts[n..];
  }

  /** Adding one more child in front, made of objects of its own. */
  lemma {:induction false} OneMoreChild(types: Types, S: set<Item>, S': set<Item>, o: Item, os: seq<Item>, t: Thing, ts: seq<Thing>)
    requires MatchesAll(types, S, os, ts) && Matches(types, S', o, t)
    ensures MatchesAll(types, S + S', [o] + os, [t] + ts)
  {
    MatchesMore(types, S', S + S', o, t);
    forall i | 0 <= i < |ts|
      ensures Matches(types, S + S', os[i], ts[i])
    {
      MatchesMore(types, S, S + S', os[i], ts[i]);
    }
  }

  /** `loadContainer`: as many items as announced, each going to the front, then the end mark. */
  method LoadContainer(types: Types, stream: PropStream, c: Item, ghost ts: seq<Thing>, ghost goal: nat) returns (ok: bool, ghost S: set<Item>)
    requires stream.Valid()
    modifies stream, c`contents, c`serializationCount
    ensures stream.Valid() && stream.p >= old(stream.p) && fresh(S)
    ensures old(ItemsAhead(types, stream.data, stream.p, ts, goal) && c.serializationCount == |ts| && c.contents == []) ==>
      ok && stream.p == goal && MatchesAll(types, S, c.contents, NormAll(types, ts))
    ensures var e := ItemsEnd(types, stream.data, old(stream.p), old(c.serializationCount));
      if ok then stream.p == e else e == -1
    decreases stream.Left(), 1
  {
    hide ItemsEnd, ItemEnd, ItemsAhead, NormAll, Norm, Encode, Storable, Matches, MatchesAll, At, FromLittle;
    S := {};
    ghost var wf := ItemsAhead(types, stream.data, stream.p, ts, goal) && c.serializationCount == |ts| && c.contents == [];
    if wf { NothingRead(types, S, stream.data, stream.p, ts, goal); }
    assert ts[..|ts|] == ts;
    while c.serializationCount > 0
      invariant stream.Valid() && stream.p >= old(stream.p) && fresh(S) && c !in S
      invariant ItemsEnd(types, stream.data, old(stream.p), old(c.serializationCount)) ==
        ItemsEnd(types, stream.data, stream.p, c.serializationCount)
      invariant wf ==>
        && c.serializationCount <= |ts| && AllStorable(types, ts)
        && ItemsAhead(types, stream.data, stream.p, ts[..c.serializationCount], goal)
        && MatchesAll(types, S, c.contents, NormAll(types, ts[c.serializationCount..]))
      decreases c.serializationCount
    {
      ghost var n := c.serializationCount;
      ItemsNext(types, stream.data, stream.p, n);
      ghost var t := if wf then ts[n - 1] else Thing(0, Blank(ItemType(true, false, false, 0, 0, false)), []);
      if wf {
        NextItem(types, stream.data, stream.p, ts[..n], goal);
        assert ts[..n][..n - 1] == ts[..n - 1];
        NormFront(types, ts, n);
      }
      ghost var os := c.contents;
      ghost var S';
      ok, S' := LoadItem(types, stream, c, t);
      if !ok { return; }
      if wf { OneMoreChild(types, S, S', c.contents[0], os, Norm(types, t), NormAll(types, ts[n..])); }
      S := S + S';
      c.serializationCount := c.serializationCount - 1;
    }
    if wf {
      assert ts[..0] == [] && ts[0..] == ts;
      NoItems(types, stream.data, stream.p, goal);
    }
    ItemsNext(types, stream.data, stream.p, 0);
    ByteIs(stream.data, stream.p);
    var read, endAttr := stream.GetValue(1);
    ok := endAttr == 0;
  }

  lemma {:induction false} NothingRead(types: Types, S: set<Item>, data: seq<byte>, p: nat, ts: seq<Thing>, goal: nat)
    requires ItemsAhead(types, data, p, ts, goal)
    ensures AllStorable(types, ts) && ts[|ts|..] == [] && NormAll(types, []) == [] && MatchesAll(types, S, [], [])
  {
  }

  lemma {:induction false} ItemAhead(types: Types, data: seq<byte>, p: nat, t: Thing, end: seq<byte>)
    requires Storable(types, t) && At(data, p, Encode(types, t))
    requires end == if types[t.id].container then [ATTR_CONTAINER_ITEMS] + Little(|t.contents|, 4) else [0]
    ensures p + 2 <= |data| && FromLittle(data[p..p + 2]) == t.id && t.id > 0
    ensures IsEnd(types[t.id], end, |t.contents|)
    ensures var fields := FieldsBytes(Fields(types[t.id], t.attributes)) + end;
      && At(data, p + 2, fields)
      && if types[t.id].container then ItemsAhead(types, data, p + 2 + |fields|, t.contents, p + |Encode(types, t)|)
         else p + 2 + |fields| == p + |Encode(types, t)|
  {
    hide FieldsBytes, Fields, Little, FromLittle, EncodeReversed, At, Encode;
    var id, fields := Little(t.id, 2), FieldsBytes(Fields(types[t.id], t.attributes));
    ReadBack(t.id);
    EncodeInParts(types, t, end);
    if types[t.id].container {
      var inner := EncodeReversed(types, t.contents);
      AtSplit(data, p, id, (fields + end) + (inner + [0]));
      AtSplit(data, p + 2, fields + end, inner + [0]);
    } else {
      AtSplit(data, p, id, fields + end);
    }
    AtIs(data, p, id);
  }

  lemma {:induction false} AtIs(data: seq<byte>, p: nat, s: seq<byte>)
    requires At(data, p, s)
    ensures p + |s| <= |data| && data[p..p + |s|] == s
  {
  }

  lemma {:induction false} EncodeInParts(types: Types, t: Thing, end: seq<byte>)
    requires Storable(types, t)
    requires end == if types[t.id].container then [ATTR_CONTAINER_ITEMS] + Little(|t.contents|, 4) else [0]
    ensures var id, fields := Little(t.id, 2), FieldsBytes(Fields(types[t.id], t.attributes));
      Encode(types, t) == if types[t.id].container then id + ((fields + end) + (EncodeReversed(types, t.contents) + [0])) else id + (fields + end)
  {
    hide FieldsBytes, Fields, Little, EncodeReversed;
    var id, fields := Little(t.id, 2), FieldsBytes(Fields(types[t.id], t.attributes));
    if types[t.id].container {
      var inner := EncodeReversed(types, t.contents);
      assert Contents(types, t) == end + inner;
      assert id + fields + (end + inner) + [0] == id + ((fields + end) + (inner + [0]));
    } else {
      assert Contents(types, t) == [];
      assert id + fields + [] + [0] == id + (fields + [0]);
    }
  }

  /** Whether the two bytes at `p` are the id of an item type. */
  predicate NamesItem(types: Types, data: seq<byte>, p: nat) {
    p + 2 <= |data| && FromLittle(data[p..p + 2]) != 0 && FromLittle(data[p..p + 2]) in types
  }

  /** `loadItem` into a container: a new item with its attributes and contents goes to the front. An unknown
      id is skipped without reading on. */
  method LoadItem(types: Types, stream: PropStream, parent: Item, ghost t: Thing) returns (ok: bool, ghost S: set<Item>)
    requires stream.Valid()
    modifies stream, parent`contents
    ensures stream.Valid() && stream.p >= old(stream.p) && fresh(S)
    ensures if ok && NamesItem(types, stream.data, old(stream.p))
      then
        && |parent.contents| > 0 && parent.contents == [parent.contents[0]] + old(parent.contents)
        && fresh(parent.contents[0]) && parent.contents[0].id == FromLittle(stream.data[old(stream.p)..old(stream.p) + 2])
      else parent.contents == old(parent.contents)
    ensures Storable(types, t) && old(stream.Ahead(Encode(types, t))) ==>
      && ok && stream.p == old(stream.p) + |Encode(types, t)|
      && |parent.contents| > 0 && parent.contents == [parent.contents[0]] + old(parent.contents)
      && Matches(types, S, parent.contents[0], Norm(types, t))
    ensures var e := ItemEnd(types, stream.data, old(stream.p)); if ok then stream.p == e else e == -1
    decreases stream.Left(), 0
  {
    hide ItemEnd, ItemsEnd, AttributesEnd, IsEnd, ItemsAhead, NormAll, NormAttributes, Encode, Storable, Matches, MatchesAll, At, FromLittle, FieldsBytes, Fields, ApplyAll, Blank;
    S := {};
    ghost var wf := Storable(types, t) && stream.Ahead(Encode(types, t));
    ghost var goal, end: seq<byte>, fs := stream.p, [], [];
    if wf {
      KnownId(types, t);
      goal := stream.p + |Encode(types, t)|;
      end := if types[t.id].container then [ATTR_CONTAINER_ITEMS] + Little(|t.contents|, 4) else [0];
      fs := Fields(types[t.id], t.attributes);
      ItemAhead(types, stream.data, stream.p, t, end);
    }
    ItemMeans(types, stream.data, stream.p);
    var read, id := stream.GetValue(2);
    if id == 0 || id !in types {
      return true, {};
    }
    var item := new Item(id, types[id]);
    ok := UnserializeAttr(stream, item, fs, end, |t.contents|);
    if !ok { return false, {}; }
    if item.ty.container {
      ok, S := LoadContainer(types, stream, item, t.contents, goal);
      if !ok { return false, {}; }
    }
    if wf { ItemMatches(types, S, item, t); }
    S := S + {item};
    parent.contents := [item] + parent.contents;
  }

  lemma {:induction false} KnownId(types: Types, t: Thing)
    requires Storable(types, t)
    ensures t.id in types && AllStorable(types, t.contents) && (!types[t.id].container ==> t.contents == [])
    ensures ApplyAll(types[t.id], Blank(types[t.id]), Fields(types[t.id], t.attributes)) == NormAttributes(types[t.id], t.attributes)
  {
    FieldsNormalise(types[t.id], t.attributes);
  }

  lemma {:induction false} ItemMatches(types: Types, S: set<Item>, o: Item, t: Thing)
    requires Storable(types, t) && AllStorable(types, t.contents)
    requires o.id == t.id && o.ty == types[t.id] && o.attributes == NormAttributes(types[t.id], t.attributes)
    requires (t.contents == [] && o.contents == []) || MatchesAll(types, S, o.contents, NormAll(types, t.contents))
    ensures Matches(types, S + {o}, o, Norm(types, t))
  {
    var ns := NormAll(types, t.contents);
    forall i | 0 <= i < |ns|
      ensures Matches(types, S + {o}, o.contents[i], ns[i])
    {
      MatchesMore(types, S, S + {o}, o.contents[i], ns[i]);
    }
  }

  /** A saved item tree is loaded back from exactly the bytes written for it, as its normal form, with the
      contents of every container in their old order. */
  method SaveAndLoad(types: Types, o: Item, parent: Item, ghost S: set<Item>, ghost t: Thing) returns (rest: int, ghost S': set<Item>)
    requires Storable(types, t) && Matches(types, S, o, t)
    modifies parent`contents
    ensures rest == 0 && fresh(S')
    ensures |parent.contents| > 0 && parent.contents == [parent.contents[0]] + old(parent.contents)
    ensures Matches(types, S', parent.contents[0], Norm(types, t))
  {
    hide Matches, Storable, Encode, Norm;
    var out := new PropWriteStream();
    SaveItem(types, out, o, S, t);
    var stream := new PropStream(out.buffer);
    assert stream.Ahead(Encode(types, t)) by {
      assert [] + Encode(types, t) == Encode(types, t);
      assert stream.data[0..|stream.data|] == stream.data;
    }
    var ok;
    ok, S' := LoadItem(types, stream, parent, t);
    rest := |stream.data| - stream.p;
  }
}
