/** Which bytes the item loader accepts and where it stops, for any bytes whatever: the reference the reading
    methods are proved against (font/iomapserialize.cpp `loadItem`, `loadContainer`; font/item.cpp
    `unserializeAttr`, `readAttr`). -1 stands for failure. */
module ItemGrammar {
  import opened Bytes
  import opened ItemFormat

  /** How many bytes a number takes after its type byte; 0 for types that are no numbers. */
  function Width(tag: byte): nat {
    match tag
    case 4 => 2 case 5 => 2 case 12 => 1 case 15 => 1 case 16 => 4 case 17 => 1
    case 8 => 5 case 10 => 2 case 14 => 1 case 20 => 4 case 21 => 4
    case _ => 0
  }

  /** The end of an attribute other than the items of a container, whose type byte was read before `p`. */
  function PayloadEnd(data: seq<byte>, p: nat, tag: byte): (e: int)
    ensures e == -1 || p < e <= |data|
  {
    if tag == 6 || tag == 7 || tag == 19 then
      if p + 2 <= |data| && p + 2 + FromLittle(data[p..p + 2]) <= |data| then p + 2 + FromLittle(data[p..p + 2]) else -1
    else if Width(tag) > 0 && p + Width(tag) <= |data| then p + Width(tag)
    else -1
  }

  /** The end of an attribute list, and the number of items announced by it. The data may end before it. */
  function AttributesEnd(container: bool, data: seq<byte>, p: nat): (r: (int, nat))
    requires p <= |data|
    ensures r.0 == -1 || p <= r.0 <= |data|
    decreases |data| - p
  {
    if p == |data| then (p, 0)
    else if data[p] == 0 then (p + 1, 0)
    else if data[p] == 22 then
      if container && p + 5 <= |data| then (p + 5, FromLittle(data[p + 1..p + 5])) else (-1, 0)
    else
      var e := PayloadEnd(data, p + 1, data[p]);
      if e == -1 then (-1, 0) else AttributesEnd(container, data, e)
  }

  /** The end of `n` items and the mark after them, which may be missing at the end of the data. */
  function ItemsEnd(types: Types, data: seq<byte>, p: nat, n: nat): (e: int)
    requires p <= |data|
    ensures e == -1 || p <= e <= |data|
    decreases |data| - p, 1, n
  {
    if n == 0 then
      if p == |data| then p else if data[p] == 0 then p + 1 else -1
    else
      var e := ItemEnd(types, data, p);
      if e == -1 then -1 else ItemsEnd(types, data, e, n - 1)
  }

  /** The end of one item. An unknown id is taken without its attributes, a missing one for id 0. */
  function ItemEnd(types: Types, data: seq<byte>, p: nat): (e: int)
    requires p <= |data|
    ensures e == -1 || p <= e <= |data|
    decreases |data| - p, 0, 0
  {
    if p + 2 > |data| then p
    else
      var id := FromLittle(data[p..p + 2]);
      if id == 0 || id !in types then p + 2
      else
        var (e, n) := AttributesEnd(types[id].container, data, p + 2);
        if e == -1 || !types[id].container then e else ItemsEnd(types, data, e, n)
  }

  // ----- one step of each

  lemma {:induction false} TextEnd(data: seq<byte>, p: nat, tag: byte)
    requires tag == 6 || tag == 7 || tag == 19
    ensures PayloadEnd(data, p, tag) ==
      if p + 2 <= |data| && p + 2 + FromLittle(data[p..p + 2]) <= |data| then p + 2 + FromLittle(data[p..p + 2]) else -1
  {
  }

  lemma {:induction false} NumberEnd(data: seq<byte>, p: nat, tag: byte)
    requires tag != 6 && tag != 7 && tag != 19
    ensures PayloadEnd(data, p, tag) == if Width(tag) > 0 && p + Width(tag) <= |data| then p + Width(tag) else -1
  {
  }

  lemma {:induction false} AttributesNext(container: bool, data: seq<byte>, p: nat)
    requires p <= |data|
    ensures AttributesEnd(container, data, p) ==
      if p == |data| then (p, 0)
      else if data[p] == 0 then (p + 1, 0)
      else if data[p] == 22 then
        if container && p + 5 <= |data| then (p + 5, FromLittle(data[p + 1..p + 5])) else (-1, 0)
      else
        var e := PayloadEnd(data, p + 1, data[p]);
        if e == -1 then (-1, 0) else AttributesEnd(container, data, e)
  {
  }

  lemma {:induction false} ItemsNext(types: Types, data: seq<byte>, p: nat, n: nat)
    requires p <= |data|
    ensures ItemsEnd(types, data, p, n) ==
      if n == 0 then if p == |data| then p else if data[p] == 0 then p + 1 else -1
      else var e := ItemEnd(types, data, p); if e == -1 then -1 else ItemsEnd(types, data, e, n - 1)
  {
  }

  lemma {:induction false} ItemMeans(types: Types, data: seq<byte>, p: nat)
    requires p <= |data|
    ensures ItemEnd(types, data, p) ==
      if p + 2 > |data| then p
      else
        var id := FromLittle(data[p..p + 2]);
        if id == 0 || id !in types then p + 2
        else
          var (e, n) := AttributesEnd(types[id].container, data, p + 2);
          if e == -1 || !types[id].container then e else ItemsEnd(types, data, e, n)
  {
  }

  // ----- cutting the data off

  lemma {:induction false} CutRead(data: seq<byte>, k: nat, p: nat, n: nat)
    requires p + n <= k <= |data|
    ensures data[..k][p..p + n] == data[p..p + n]
  {
  }

  lemma {:induction false} CutPayload(data: seq<byte>, k: nat, p: nat, tag: byte)
    requires k <= |data| && PayloadEnd(data, p, tag) != -1
    ensures PayloadEnd(data[..k], p, tag) == if k < PayloadEnd(data, p, tag) then -1 else PayloadEnd(data, p, tag)
  {
    hide FromLittle, Width;
    if p + 2 <= k { CutRead(data, k, p, 2); }
  }

  /** An attribute list that is cut off between two attributes counts as ended, elsewhere it is refused. */
  lemma {:induction false} CutAttributes(container: bool, data: seq<byte>, k: nat, p: nat)
    requires p <= k <= |data| && AttributesEnd(container, data, p).0 != -1
    ensures var (r, cut) := (AttributesEnd(container, data, p), AttributesEnd(container, data[..k], p));
      if k < r.0 then cut.0 == -1 || cut == (k, 0) else cut == r
    decreases |data| - p
  {
    hide FromLittle, PayloadEnd;
    if p < k {
      assert data[..k][p] == data[p];
      if data[p] == 22 {
        if p + 5 <= k { CutRead(data, k, p + 1, 4); }
      } else if data[p] != 0 {
        CutPayload(data, k, p + 1, data[p]);
        var e := PayloadEnd(data, p + 1, data[p]);
        if e <= k { CutAttributes(container, data, k, e); }
      }
    }
  }

  /** With less than an id left every item is the missing one. */
  lemma {:induction false} NothingLeft(types: Types, data: seq<byte>, p: nat, n: nat)
    requires p <= |data| < p + 2
    ensures ItemEnd(types, data, p) == p
    ensures ItemsEnd(types, data, p, n) == if p == |data| then p else if data[p] == 0 then p + 1 else -1
  {
    if n > 0 { NothingLeft(types, data, p, n - 1); }
  }

  /** An item that is cut off is refused or read up to the cut, but for one byte that is no id; one that is
      not is read as before. */
  lemma {:induction false} CutItem(types: Types, data: seq<byte>, k: nat, p: nat)
    requires p <= k <= |data| && ItemEnd(types, data, p) != -1
    ensures var e, cut := ItemEnd(types, data, p), ItemEnd(types, data[..k], p);
      if k < e then cut == -1 || cut == k || cut == k - 1 else cut == e
    decreases |data| - p, 0, 0
  {
    if p + 2 <= k {
      CutRead(data, k, p, 2);
      hide FromLittle, AttributesEnd, ItemsEnd;
      var id := FromLittle(data[p..p + 2]);
      if id != 0 && id in types {
        CutAttributes(types[id].container, data, k, p + 2);
        var (e, n) := AttributesEnd(types[id].container, data, p + 2);
        if types[id].container {
          if e <= k { CutItems(types, data, k, e, n); }
          NothingLeft(types, data[..k], k, 0);
        }
      }
    }
  }

  lemma {:induction false} CutItems(types: Types, data: seq<byte>, k: nat, p: nat, n: nat)
    requires p <= k <= |data| && ItemsEnd(types, data, p, n) != -1
    ensures var e, cut := ItemsEnd(types, data, p, n), ItemsEnd(types, data[..k], p, n);
      if k < e then cut == -1 || cut == k else cut == e
    decreases |data| - p, 1, n
  {
    hide ItemEnd;
    if n == 0 {
      if p < k { assert data[..k][p] == data[p]; }
    } else {
      CutItem(types, data, k, p);
      var e, cut := ItemEnd(types, data, p), ItemEnd(types, data[..k], p);
      if cut == e {
        CutItems(types, data, k, e, n - 1);
      } else if cut != -1 {
        NothingLeft(types, data[..k], cut, n - 1);
      }
    }
  }
}
