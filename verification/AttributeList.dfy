/** The attributes of an item (font/item.cpp, font/item.h, `ItemAttributes`): a linked list of typed values and
    a mask with one bit per type, together standing for a map from types to values. */
module AttributeList {
  import opened Arithmetic

  type Mask = bv32

  datatype Kind = ActionId | UniqueId | Desc | ItemText | WrittenBy | Owner | Duration | Decaying | Charges | FluidType | DoorId

  function Bit(t: Kind): Mask {
    match t
    case ActionId => 0x1
    case UniqueId => 0x2
    case Desc => 0x4
    case ItemText => 0x8
    case WrittenBy => 0x20
    case Owner => 0x40
    case Duration => 0x80
    case Decaying => 0x100
    case Charges => 0x200
    case FluidType => 0x400
    case DoorId => 0x800
  }

  /** `validateStrAttrType`; all other kinds are numbers (`validateIntAttrType`). */
  predicate IsStr(t: Kind) { t == Desc || t == ItemText || t == WrittenBy }

  function Both(a: Mask, b: Mask): Mask { a & b }

  function Either(a: Mask, b: Mask): Mask { a | b }

  function Cleared(a: Mask, b: Mask): Mask { a & !b }

  predicate Has(mask: Mask, t: Kind) { Both(mask, Bit(t)) != 0 }

  function With(mask: Mask, t: Kind): Mask { Either(mask, Bit(t)) }

  function WithoutBit(mask: Mask, t: Kind): Mask { Cleared(mask, Bit(t)) }

  lemma {:induction false} SeparateBits(t: Kind, u: Kind)
    ensures Bit(t) != 0 && (t != u ==> Both(Bit(t), Bit(u)) == 0)
  {
    match t
    case ActionId =>
    case UniqueId =>
    case Desc =>
    case ItemText =>
    case WrittenBy =>
    case Owner =>
    case Duration =>
    case Decaying =>
    case Charges =>
    case FluidType =>
    case DoorId =>
  }

  lemma {:induction false} OwnBit(m: Mask, a: Mask)
    ensures Both(Either(m, a), a) == a
  {
  }

  lemma {:induction false} OwnBitCleared(m: Mask, a: Mask)
    ensures Both(Cleared(m, a), a) == 0
  {
  }

  lemma {:induction false} OtherBit(m: Mask, a: Mask, b: Mask)
    requires Both(a, b) == 0
    ensures Both(Either(m, a), b) == Both(m, b)
  {
  }

  lemma {:induction false} OtherBitKept(m: Mask, a: Mask, b: Mask)
    requires Both(a, b) == 0
    ensures Both(Cleared(m, a), b) == Both(m, b)
  {
  }

  /** Setting the bit of one kind leaves the bits of the others alone. */
  lemma {:induction false} SetBit(mask: Mask, t: Kind, u: Kind)
    ensures Has(With(mask, t), u) <==> t == u || Has(mask, u)
  {
    SeparateBits(t, u);
    hide Bit, Both, Either;
    if t == u { OwnBit(mask, Bit(t)); } else { OtherBit(mask, Bit(t), Bit(u)); }
  }

  /** So does clearing it. */
  lemma {:induction false} ClearBit(mask: Mask, t: Kind, u: Kind)
    ensures Has(WithoutBit(mask, t), u) <==> t != u && Has(mask, u)
  {
    SeparateBits(t, u);
    hide Bit, Both, Cleared;
    if t == u { OwnBitCleared(mask, Bit(t)); } else { OtherBitKept(mask, Bit(t), Bit(u)); }
  }

  datatype Value = Number(n: int) | Text(s: string)

  type Contents = map<Kind, Value>

  // ----- the map, and what the operations do to it

  function IntOf(m: Contents, t: Kind): nat {
    if !IsStr(t) && t in m && m[t].Number? then m[t].n % TWO_32 else 0
  }

  function StrOf(m: Contents, t: Kind): string {
    if IsStr(t) && t in m && m[t].Text? then m[t].s else ""
  }

  datatype Op =
    | SetInt(kind: Kind, value: int)
    | Increase(kind: Kind, value: int)
    | SetStr(kind: Kind, text: string)
    | Remove(kind: Kind)

  function Apply(m: Contents, op: Op): Contents {
    match op
    case SetInt(t, v) => if !IsStr(t) then m[t := Number(v)] else m
    case Increase(t, v) => if !IsStr(t) then m[t := Number((IntOf(m, t) + v) % TWO_32)] else m
    case SetStr(t, s) => if IsStr(t) && s != "" then m[t := Text(s)] else m
    case Remove(t) => m - {t}
  }

  function Run(ops: seq<Op>): Contents {
    if ops == [] then map[] else Apply(Run(ops[..|ops| - 1]), ops[|ops| - 1])
  }

  /** The operations that settle what is stored for their kind, whatever was there before. */
  predicate Settles(op: Op) {
    match op
    case SetInt(t, _) => !IsStr(t)
    case SetStr(t, s) => IsStr(t) && s != ""
    case Remove(_) => true
    case Increase(_, _) => false
  }

  /** Position of the last operation that settles kind `t`, or -1. */
  function LastSettled(ops: seq<Op>, t: Kind): (i: int)
    ensures -1 <= i < |ops|
  {
    if ops == [] then -1
    else
      var op := ops[|ops| - 1];
      if op.kind == t && Settles(op) then |ops| - 1 else LastSettled(ops[..|ops| - 1], t)
  }

  lemma {:induction false} LastSettledIsLast(ops: seq<Op>, t: Kind)
    ensures var i := LastSettled(ops, t);
      && (i >= 0 ==> ops[i].kind == t && Settles(ops[i]))
      && forall j :: i < j < |ops| && ops[j].kind == t ==> !Settles(ops[j])
  {
    if ops != [] { LastSettledIsLast(ops[..|ops| - 1], t); }
  }

  /** What the increases of kind `t` among the operations add up to. */
  function Added(ops: seq<Op>, t: Kind): int {
    if ops == [] then 0
    else
      var op := ops[|ops| - 1];
      Added(ops[..|ops| - 1], t) + if op.Increase? && op.kind == t then op.value else 0
  }

  /** As a 32-bit number. */
  function Low(n: int): nat { n % TWO_32 }

  /** How much an operation adds to the number of kind `t`. */
  function Increment(op: Op, t: Kind): int { if op.Increase? && op.kind == t then op.value else 0 }

  lemma {:induction false} OneMoreNumber(m: Contents, op: Op, t: Kind)
    requires !IsStr(t)
    ensures IntOf(Apply(m, op), t) ==
      if op.kind == t && Settles(op) then Low(if op.SetInt? then op.value else 0)
      else Low(IntOf(m, t) + Increment(op, t))
  {
  }

  lemma {:induction false} AddedSnoc(ops: seq<Op>, from: nat, t: Kind)
    requires from < |ops|
    ensures Added(ops[from..], t) == Added(ops[..|ops| - 1][from..], t) + Increment(ops[|ops| - 1], t)
  {
    assert ops[from..][..|ops[from..]| - 1] == ops[..|ops| - 1][from..];
  }

  function ValueSet(ops: seq<Op>, i: int): int
    requires -1 <= i < |ops|
  {
    if i >= 0 && ops[i].SetInt? then ops[i].value else 0
  }

  /** A number is the one set last plus the increases since, modulo 2^32, or only those where it was removed
      since or never set. */
  lemma {:induction false} NumberIsLastSet(ops: seq<Op>, t: Kind)
    requires !IsStr(t)
    ensures var i := LastSettled(ops, t); IntOf(Run(ops), t) == Low(ValueSet(ops, i) + Added(ops[i + 1..], t))
  {
    hide *;
    var i := LastSettled(ops, t);
    if ops == [] {
      NothingThere(ops, t);
      AddedNone(ops[0..], t);
    } else {
      var last := |ops| - 1;
      var before := ops[..last];
      NumberIsLastSet(before, t);
      OneMoreTurn(ops, t);
      if i == last {
        AddedNone(ops[i + 1..], t);
      } else {
        AddedSnoc(ops, i + 1, t);
        AddModulo(ValueSet(ops, i) + Added(before[i + 1..], t), Increment(ops[last], t));
      }
    }
  }

  lemma {:induction false} OneMoreTurn(ops: seq<Op>, t: Kind)
    requires !IsStr(t) && ops != []
    ensures var before, op, i := ops[..|ops| - 1], ops[|ops| - 1], LastSettled(ops, t);
      && (i == |ops| - 1 ==> IntOf(Run(ops), t) == Low(ValueSet(ops, i)))
      && (i != |ops| - 1 ==> i == LastSettled(before, t) && ValueSet(ops, i) == ValueSet(before, i))
      && (i != |ops| - 1 ==> IntOf(Run(ops), t) == Low(IntOf(Run(before), t) + Increment(op, t)))
  {
    LastSettledIsLast(ops, t);
    OneMoreNumber(Run(ops[..|ops| - 1]), ops[|ops| - 1], t);
    hide Apply, IntOf, Increment, Settles;
  }

  lemma {:induction false} NothingThere(ops: seq<Op>, t: Kind)
    requires ops == []
    ensures LastSettled(ops, t) == -1 && ValueSet(ops, -1) == 0 && IntOf(Run(ops), t) == 0
    ensures Low(0) == 0
  {
  }

  lemma {:induction false} AddedNone(ops: seq<Op>, t: Kind)
    requires ops == []
    ensures Added(ops, t) == 0
  {
  }

  lemma {:induction false} AddModulo(a: int, b: int)
    ensures Low(Low(a) + b) == Low(a + b)
  {
  }

  /** A text is the last one set that was not empty, or empty where it was removed since or never set. */
  lemma {:induction false} TextIsLastSet(ops: seq<Op>, t: Kind)
    requires IsStr(t)
    ensures var i := LastSettled(ops, t);
      StrOf(Run(ops), t) == if i >= 0 && ops[i].SetStr? then ops[i].text else ""
  {
    if ops != [] { TextIsLastSet(ops[..|ops| - 1], t); }
  }

  /** Three kinds keep texts and the others numbers, and neither keeps what it is not for. */
  lemma {:induction false} KindsKeepTheirs(m: Contents, s: string, n: int)
    requires s != ""
    ensures forall t :: t in {Desc, ItemText, WrittenBy} ==>
      StrOf(Apply(m, SetStr(t, s)), t) == s && Apply(m, SetInt(t, n)) == m && Apply(m, Increase(t, n)) == m
    ensures forall t :: t in {ActionId, UniqueId, Owner, Duration, Decaying, Charges, FluidType, DoorId} ==>
      IntOf(Apply(m, SetInt(t, n)), t) == n % 0x1_0000_0000 && Apply(m, SetStr(t, s)) == m
  {
  }

  /** Setting the empty text leaves the one there was. */
  lemma {:induction false} EmptyTextIsIgnored()
    ensures StrOf(Run([SetStr(Desc, "old"), SetStr(Desc, "")]), Desc) == "old"
  {
    var ops := [SetStr(Desc, "old"), SetStr(Desc, "")];
    assert ops[..1] == [SetStr(Desc, "old")] && ops[..1][..0] == [];
  }

  // ----- the list as a value

  type Entry = (Kind, Value)

  /** The list, the map and the mask agree: one entry for each kind in the map, with its value, and one bit. */
  ghost predicate Agrees(es: seq<Entry>, m: Contents, mask: Mask) {
    && (forall i, j :: 0 <= i < j < |es| ==> es[i].0 != es[j].0)
    && (forall i :: 0 <= i < |es| ==> es[i].0 in m && m[es[i].0] == es[i].1)
    && (forall t :: t in m ==> exists i :: 0 <= i < |es| && es[i].0 == t)
    && (forall t :: Has(mask, t) <==> t in m)
  }

  lemma {:induction false} AgreesAdd(es: seq<Entry>, m: Contents, mask: Mask, t: Kind, v: Value)
    requires Agrees(es, m, mask) && t !in m
    ensures Agrees(es + [(t, v)], m[t := v], With(mask, t))
  {
    forall u
      ensures Has(With(mask, t), u) <==> u in m[t := v]
    {
      SetBit(mask, t, u);
    }
    hide Has, With;
    var es' := es + [(t, v)];
    assert es'[|es|].0 == t;
    forall u | u in m
      ensures exists i :: 0 <= i < |es'| && es'[i].0 == u
    {
      var i :| 0 <= i < |es| && es[i].0 == u;
      assert es'[i].0 == u;
    }
  }

  lemma {:induction false} AgreesSet(es: seq<Entry>, m: Contents, mask: Mask, p: nat, v: Value)
    requires Agrees(es, m, mask) && p < |es|
    ensures Agrees(es[p := (es[p].0, v)], m[es[p].0 := v], mask)
  {
    hide Has;
    var es' := es[p := (es[p].0, v)];
    forall u | u in m
      ensures exists i :: 0 <= i < |es'| && es'[i].0 == u
    {
      var i :| 0 <= i < |es| && es[i].0 == u;
      assert es'[i].0 == u;
    }
  }

  function Skip(i: nat, p: nat): nat { if i < p then i else i + 1 }

  /** Dropping one entry leaves the others, in order. */
  lemma {:induction false} Dropped(es: seq<Entry>, p: nat)
    requires p < |es|
    ensures var es' := es[..p] + es[p + 1..];
      |es'| == |es| - 1 && forall i: nat :: i < |es'| ==> es'[i] == es[Skip(i, p)]
  {
  }

  lemma {:induction false} MaskRemoved(m: Contents, mask: Mask, t: Kind)
    requires forall u :: Has(mask, u) <==> u in m
    ensures forall u :: Has(WithoutBit(mask, t), u) <==> u in m - {t}
  {
    hide Has, WithoutBit;
    forall u
      ensures Has(WithoutBit(mask, t), u) <==> u in m - {t}
    {
      ClearBit(mask, t, u);
    }
  }

  lemma {:induction false} AgreesRemove(es: seq<Entry>, m: Contents, mask: Mask, p: nat)
    requires Agrees(es, m, mask) && p < |es|
    ensures Agrees(es[..p] + es[p + 1..], m - {es[p].0}, WithoutBit(mask, es[p].0))
  {
    hide Has, WithoutBit;
    MaskRemoved(m, mask, es[p].0);
    StillListed(es, m, p);
    Dropped(es, p);
  }

  lemma {:induction false} StillListed(es: seq<Entry>, m: Contents, p: nat)
    requires p < |es| && forall t :: t in m ==> exists i :: 0 <= i < |es| && es[i].0 == t
    ensures var es' := es[..p] + es[p + 1..];
      forall u :: u in m && u != es[p].0 ==> exists i :: 0 <= i < |es'| && es'[i].0 == u
  {
    var es' := es[..p] + es[p + 1..];
    forall u | u in m && u != es[p].0
      ensures exists i :: 0 <= i < |es'| && es'[i].0 == u
    {
      var i: nat :| i < |es| && es[i].0 == u;
      var k: nat := if i < p then i else i - 1;
      assert es'[k].0 == u;
    }
  }

  // ----- the list in memory

  class Attribute {
    const kind: Kind
    var value: Value
    var next: Attribute?

    constructor (t: Kind)
      ensures kind == t && value == Number(0) && next == null
    {
      kind, value, next := t, Number(0), null;
    }
  }

  ghost function At(nodes: seq<Attribute>, i: nat): Attribute? { if i < |nodes| then nodes[i] else null }

  ghost predicate Linked(first: Attribute?, nodes: seq<Attribute>)
    reads nodes`next
  {
    && first == At(nodes, 0)
    && forall i: nat :: i < |nodes| ==> LinkOk(nodes, i)
  }

  ghost predicate LinkOk(nodes: seq<Attribute>, i: nat)
    requires i < |nodes|
    reads nodes`next
  {
    nodes[i].next == At(nodes, i + 1)
  }

  ghost function Entries(nodes: seq<Attribute>): (es: seq<Entry>)
    reads nodes`value
    ensures |es| == |nodes|
    ensures forall i :: 0 <= i < |nodes| ==> es[i] == (nodes[i].kind, nodes[i].value)
  {
    if nodes == [] then []
    else
      var n := |nodes| - 1;
      Entries(nodes[..n]) + [(nodes[n].kind, nodes[n].value)]
  }

  lemma {:induction false} EntriesAre(nodes: seq<Attribute>, es: seq<Entry>)
    requires |es| == |nodes| && forall i :: 0 <= i < |nodes| ==> nodes[i].kind == es[i].0 && nodes[i].value == es[i].1
    ensures Entries(nodes) == es
  {
  }

  lemma {:induction false} DistinctNodes(nodes: seq<Attribute>, m: Contents, mask: Mask)
    requires Agrees(Entries(nodes), m, mask)
    ensures forall i, j :: 0 <= i < j < |nodes| ==> nodes[i] != nodes[j]
  {
    var es := Entries(nodes);
    forall i, j | 0 <= i < j < |nodes|
      ensures nodes[i] != nodes[j]
    {
      assert es[i].0 != es[j].0;
    }
  }

  lemma {:induction false} TailLinked(a: Attribute, rest: seq<Attribute>)
    requires Linked(a, rest)
    ensures |rest| > 0 && rest[0] == a && Linked(a.next, rest[1..])
  {
    var tail := rest[1..];
    assert LinkOk(rest, 0);
    forall i: nat | i < |tail|
      ensures LinkOk(tail, i)
    {
      assert LinkOk(rest, i + 1);
    }
  }

  /** The copy constructor of `Attribute`: a chain of new nodes with the same entries. */
  method CopyChain(a: Attribute?, ghost rest: seq<Attribute>) returns (c: Attribute?, ghost copies: seq<Attribute>)
    requires Linked(a, rest)
    ensures Linked(c, copies) && Entries(copies) == Entries(rest) && forall x :: x in copies ==> fresh(x)
    decreases |rest|
  {
    hide Linked, Entries;
    if a == null {
      NoNodes(rest);
      return null, [];
    }
    TailLinked(a, rest);
    var next;
    ghost var more;
    next, more := CopyChain(a.next, rest[1..]);
    var node := new Attribute(a.kind);
    node.value := a.value;
    node.next := next;
    c, copies := node, [node] + more;
    ConsLinked(node, more);
    EntriesCons(node, more);
    EntriesCons(a, rest[1..]);
    assert rest == [a] + rest[1..];
  }

  lemma {:induction false} NoNodes(rest: seq<Attribute>)
    requires Linked(null, rest)
    ensures rest == [] && Linked(null, [])
  {
  }

  lemma {:induction false} ConsLinked(node: Attribute, more: seq<Attribute>)
    requires Linked(node.next, more)
    ensures Linked(node, [node] + more)
  {
    var all := [node] + more;
    forall i: nat | i < |all|
      ensures LinkOk(all, i)
    {
      if i > 0 { assert LinkOk(more, i - 1); }
    }
  }

  lemma {:induction false} EntriesCons(node: Attribute, more: seq<Attribute>)
    ensures Entries([node] + more) == [(node.kind, node.value)] + Entries(more)
  {
    hide Entries;
    EntriesAre([node] + more, [(node.kind, node.value)] + Entries(more));
  }

  class ItemAttributes {
    var mask: Mask
    var first: Attribute?
    ghost var nodes: seq<Attribute>
    ghost var contents: Contents

    ghost predicate Valid()
      reads this, nodes
    {
      Linked(first, nodes) && Agrees(Entries(nodes), contents, mask)
    }

    constructor ()
      ensures Valid() && contents == map[] && nodes == []
    {
      mask, first, nodes, contents := 0, null, [], map[];
      new;
      assert forall t :: !Has(mask, t);
    }

    /** The copy constructor: the same map, in nodes of its own. */
    constructor Copy(other: ItemAttributes)
      requires other.Valid()
      ensures Valid() && contents == other.contents && forall x :: x in nodes ==> fresh(x)
    {
      hide Agrees, Linked, Entries;
      mask, contents := other.mask, other.contents;
      var c;
      ghost var copies;
      c, copies := CopyChain(other.first, other.nodes);
      first, nodes := c, copies;
    }

    /** The walk along the list */
    method Find(t: Kind) returns (attr: Attribute?, ghost p: nat)
      requires Linked(first, nodes)
      ensures attr != null ==> p < |nodes| && nodes[p] == attr && attr.kind == t
      ensures attr == null ==> forall i :: 0 <= i < |nodes| ==> nodes[i].kind != t
    {
      attr, p := first, 0;
      while attr != null
        invariant 0 <= p <= |nodes| && attr == At(nodes, p)
        invariant forall j :: 0 <= j < p ==> nodes[j].kind != t
        decreases |nodes| - p
      {
        if attr.kind == t { return; }
        assert LinkOk(nodes, p);
        attr := attr.next;
        p := p + 1;
      }
    }

    /** `getAttrConst`: the bit answers where there is nothing to find. */
    method GetAttrConst(t: Kind) returns (attr: Attribute?)
      requires Valid()
      ensures attr != null <==> t in contents
      ensures attr != null ==> attr in nodes && attr.kind == t && attr.value == contents[t]
    {
      hide Has;
      if !Has(mask, t) { return null; }
      ghost var p;
      attr, p := Find(t);
    }

    /** Links a node behind the last one. */
    method LinkLast(attr: Attribute)
      requires Linked(first, nodes) && attr.next == null && attr !in nodes
      requires forall i, j :: 0 <= i < j < |nodes| ==> nodes[i] != nodes[j]
      modifies `first, nodes`next
      ensures Linked(first, nodes + [attr])
    {
      if first != null {
        var cur := first;
        ghost var i: nat := 0;
        assert LinkOk(nodes, 0);
        while cur.next != null
          invariant i < |nodes| && cur == nodes[i] && cur.next == At(nodes, i + 1)
          decreases |nodes| - i
        {
          cur := cur.next;
          i := i + 1;
          assert LinkOk(nodes, i);
        }
        cur.next := attr;
      } else {
        first := attr;
      }
      ghost var more := nodes + [attr];
      forall j: nat | j < |more|
        ensures LinkOk(more, j)
      {
        if j < |nodes| { assert old(LinkOk(nodes, j)); }
      }
    }

    /** `addAttr`: at the end of the list */
    method AddAttr(attr: Attribute)
      requires Valid() && attr.kind !in contents && attr.next == null && attr !in nodes
      modifies this, nodes`next
      ensures Valid() && nodes == old(nodes) + [attr] && contents == old(contents)[attr.kind := attr.value]
    {
      hide Agrees, Linked, Entries, With, WithoutBit, Has;
      DistinctNodes(nodes, contents, mask);
      ghost var es := Entries(nodes);
      AgreesAdd(es, contents, mask, attr.kind, attr.value);
      LinkLast(attr);
      mask := With(mask, attr.kind);
      nodes := nodes + [attr];
      contents := contents[attr.kind := attr.value];
      EntriesAre(nodes, es + [(attr.kind, attr.value)]);
    }

    /** `getAttr`: adds what is not there. */
    method GetAttr(t: Kind) returns (attr: Attribute, ghost p: nat)
      requires Valid()
      modifies this, nodes`next
      ensures Valid() && p < |nodes| && nodes[p] == attr && attr.kind == t && t in contents && attr.value == contents[t]
      ensures if t in old(contents) then nodes == old(nodes) && contents == old(contents)
              else fresh(attr) && nodes == old(nodes) + [attr] && contents == old(contents)[t := Number(0)]
    {
      hide Has;
      if !Has(mask, t) {
        attr := new Attribute(t);
        AddAttr(attr);
        p := |nodes| - 1;
      } else {
        var found;
        found, p := Find(t);
        HasMeans(t);
        attr := found;
      }
    }

    /** A value written into a node is the one the map gives for its kind. */
    method Write(attr: Attribute, v: Value, ghost p: nat)
      requires Valid() && p < |nodes| && nodes[p] == attr
      modifies this, attr`value
      ensures Valid() && nodes == old(nodes) && contents == old(contents)[attr.kind := v] && attr.value == v
    {
      hide Agrees, Linked, Entries, With, WithoutBit, Has;
      DistinctNodes(nodes, contents, mask);
      ghost var es := Entries(nodes);
      AgreesSet(es, contents, mask, p, v);
      attr.value := v;
      contents := contents[attr.kind := v];
      EntriesAre(nodes, es[p := (attr.kind, v)]);
    }

    /** `setIntAttr` */
    method SetIntAttr(t: Kind, v: int)
      requires Valid()
      modifies this, nodes
      ensures Valid() && contents == Apply(old(contents), SetInt(t, v))
      ensures forall x :: x in nodes ==> x in old(nodes) || fresh(x)
    {
      hide Valid;
      if IsStr(t) { return; }
      var attr, p := GetAttr(t);
      Write(attr, Number(v), p);
    }

    /** `increaseIntAttr` */
    method IncreaseIntAttr(t: Kind, v: int)
      requires Valid()
      modifies this, nodes
      ensures Valid() && contents == Apply(old(contents), Increase(t, v))
      ensures forall x :: x in nodes ==> x in old(nodes) || fresh(x)
    {
      hide Valid;
      if IsStr(t) { return; }
      var attr, p := GetAttr(t);
      var before := if attr.value.Number? then attr.value.n % TWO_32 else 0;
      Write(attr, Number((before + v) % TWO_32), p);
    }

    /** `setStrAttr`: an empty text changes nothing, not even a text already there. */
    method SetStrAttr(t: Kind, s: string)
      requires Valid()
      modifies this, nodes
      ensures Valid() && contents == Apply(old(contents), SetStr(t, s))
      ensures forall x :: x in nodes ==> x in old(nodes) || fresh(x)
    {
      hide Valid;
      if !IsStr(t) || s == "" { return; }
      var attr, p := GetAttr(t);
      Write(attr, Text(s), p);
    }

    /** `getIntAttr` and `getStrAttr` */
    method GetIntAttr(t: Kind) returns (n: nat)
      requires Valid()
      ensures n == IntOf(contents, t)
    {
      if IsStr(t) { return 0; }
      var attr := GetAttrConst(t);
      n := if attr != null && attr.value.Number? then attr.value.n % TWO_32 else 0;
    }

    method GetStrAttr(t: Kind) returns (s: string)
      requires Valid()
      ensures s == StrOf(contents, t)
    {
      if !IsStr(t) { return ""; }
      var attr := GetAttrConst(t);
      s := if attr != null && attr.value.Text? then attr.value.s else "";
    }

    /** `hasAttribute`: never true of a text. */
    method HasAttribute(t: Kind) returns (there: bool)
      requires Valid()
      ensures there <==> t in contents && !IsStr(t)
    {
      if IsStr(t) { return false; }
      var attr := GetAttrConst(t);
      there := attr != null;
    }

    /** Takes node `p` out of the chain. */
    method Unlink(prev: Attribute?, cur: Attribute, ghost p: nat)
      requires Linked(first, nodes) && p < |nodes| && nodes[p] == cur && prev == if p == 0 then null else nodes[p - 1]
      requires forall i, j :: 0 <= i < j < |nodes| ==> nodes[i] != nodes[j]
      modifies `first, nodes`next
      ensures Linked(first, nodes[..p] + nodes[p + 1..])
    {
      assert LinkOk(nodes, p);
      if prev != null {
        prev.next := cur.next;
      } else {
        first := cur.next;
      }
      ghost var less := nodes[..p] + nodes[p + 1..];
      assert forall j: nat :: j < |less| ==> less[j] == nodes[if j < p then j else j + 1];
      forall j: nat | j < |less|
        ensures LinkOk(less, j)
      {
        var k: nat := if j < p then j else j + 1;
        assert old(LinkOk(nodes, k));
      }
    }

    /** The walk of `removeAttribute`, with the node before */
    method FindBoth(t: Kind) returns (prev: Attribute?, cur: Attribute?, ghost p: nat)
      requires Linked(first, nodes)
      ensures cur != null ==> p < |nodes| && nodes[p] == cur && cur.kind == t && prev == if p == 0 then null else nodes[p - 1]
      ensures cur == null ==> forall i :: 0 <= i < |nodes| ==> nodes[i].kind != t
    {
      prev, cur, p := null, first, 0;
      while cur != null
        invariant p <= |nodes| && cur == At(nodes, p) && prev == if p == 0 then null else nodes[p - 1]
        invariant forall j :: 0 <= j < p ==> nodes[j].kind != t
        decreases |nodes| - p
      {
        if cur.kind == t { return; }
        assert LinkOk(nodes, p);
        prev, cur, p := cur, cur.next, p + 1;
      }
    }

    /** `removeAttribute` */
    method RemoveAttribute(t: Kind)
      requires Valid()
      modifies this, nodes`next
      ensures Valid() && contents == Apply(old(contents), Remove(t))
      ensures forall x :: x in nodes ==> x in old(nodes)
    {
      hide Valid, Has, Linked;
      HasMeans(t);
      assert t !in contents ==> contents - {t} == contents;
      if Has(mask, t) {
        var prev, cur, p := FindBoth(t);
        if cur != null {
          CutOut(prev, cur, p);
        }
      }
    }

    lemma {:induction false} HasMeans(t: Kind)
      requires Valid()
      ensures Linked(first, nodes) && (Has(mask, t) <==> t in contents)
      ensures t in contents ==> exists i :: 0 <= i < |nodes| && nodes[i].kind == t
    {
      hide Has;
      if t in contents {
        var i :| 0 <= i < |Entries(nodes)| && Entries(nodes)[i].0 == t;
        assert nodes[i].kind == t;
      }
    }

    method CutOut(prev: Attribute?, cur: Attribute, ghost p: nat)
      requires Valid() && p < |nodes| && nodes[p] == cur && prev == if p == 0 then null else nodes[p - 1]
      modifies this, nodes`next
      ensures Valid() && contents == old(contents) - {cur.kind}
      ensures nodes == old(nodes)[..p] + old(nodes)[p + 1..]
    {
      hide Agrees, Linked, Entries, With, WithoutBit, Has;
      DistinctNodes(nodes, contents, mask);
      ghost var es := Entries(nodes);
      AgreesRemove(es, contents, mask, p);
      Unlink(prev, cur, p);
      mask := WithoutBit(mask, cur.kind);
      nodes := nodes[..p] + nodes[p + 1..];
      contents := contents - {cur.kind};
      EntriesAre(nodes, es[..p] + es[p + 1..]);
    }
  }
}
