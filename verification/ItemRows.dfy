/** Saving a forest of nested containers as database rows and rebuilding it (font/ioplayer.cpp,
    `saveItems`, `loadItems` and the rebuild loops of `loadPlayer`). */
module ItemRows {
  import opened Arithmetic

  const FIRST_SID: int := 101  // running ids start above 100

  /** What one row keeps of an item besides its place; the attributes are an opaque blob here. */
  datatype Data = Data(id: nat, count: nat, attributes: seq<nat>)

  /** An item with what it contains, first to last. */
  datatype Thing = Thing(data: Data, contents: seq<Thing>)

  datatype Row = Row(pid: int, sid: int, data: Data)

  /** The item types: known ids, and whether the type is a container. */
  type Types = map<nat, bool>

  predicate IsContainer(types: Types, t: Thing) { t.data.id in types && types[t.data.id] }

  /** Known types throughout, and only containers contain anything. */
  predicate WellTyped(types: Types, t: Thing) {
    && t.data.id in types
    && (t.contents != [] ==> IsContainer(types, t))
    && forall i :: 0 <= i < |t.contents| ==> WellTyped(types, t.contents[i])
  }

  function Size(t: Thing): nat { 1 + SizeAll(t.contents) }

  function SizeAll(ts: seq<Thing>): nat { if ts == [] then 0 else Size(ts[0]) + SizeAll(ts[1..]) }

  // ----- how the rows are laid out

  /** Index of the first child of each row: children follow in blocks, in the order of their parents. */
  function First(tops: nat, owner: seq<Thing>, i: nat): nat
    requires i <= |owner|
  {
    if i == 0 then tops else First(tops, owner, i - 1) + |owner[i - 1].contents|
  }

  /** Row `j` of the saved table stands for `owner[j]`. */
  ghost predicate RowOk(top: seq<(int, Thing)>, rows: seq<Row>, owner: seq<Thing>, j: nat)
    requires j < |rows| == |owner|
  {
    && rows[j].sid == FIRST_SID + j && rows[j].data == owner[j].data
    && (j < |top| ==> owner[j] == top[j].1 && rows[j].pid == top[j].0)
  }

  /** Row `j` is child `k` of row `i`. */
  ghost predicate ChildOf(top: seq<(int, Thing)>, rows: seq<Row>, owner: seq<Thing>, i: nat, k: nat)
    requires i < |owner| == |rows| && k < |owner[i].contents|
  {
    var j := First(|top|, owner, i) + k;
    i < j < |rows| && rows[j].pid == FIRST_SID + i && owner[j] == owner[i].contents[k]
  }

  /** The first `q` rows have all their children in the table, row `q` the first `k` of its, and nothing
      else is in it. */
  ghost predicate Layout(top: seq<(int, Thing)>, rows: seq<Row>, owner: seq<Thing>, q: nat, k: nat) {
    && q <= |rows| == |owner| && |top| <= |rows| && |rows| == First(|top|, owner, q) + k
    && (forall j: nat :: j < |rows| ==> RowOk(top, rows, owner, j))
    && (forall i: nat, l: nat :: i < q && l < |owner[i].contents| ==> ChildOf(top, rows, owner, i, l))
    && (k > 0 ==> q < |owner| && k <= |owner[q].contents| && forall l: nat :: l < k ==> ChildOf(top, rows, owner, q, l))
  }

  /** All of the forest is in the table. */
  ghost predicate Complete(types: Types, top: seq<(int, Thing)>, rows: seq<Row>, owner: seq<Thing>) {
    Layout(top, rows, owner, |rows|, 0) && AllWellTyped(types, owner)
  }

  ghost predicate Saved(types: Types, top: seq<(int, Thing)>, rows: seq<Row>) {
    exists owner :: Complete(types, top, rows, owner)
  }

  /** The containers among the rows from `q` on, with their sids: what is left on the queue. */
  function Queue(types: Types, owner: seq<Thing>, q: nat): seq<(Thing, int)>
    requires q <= |owner|
    decreases |owner| - q
  {
    if q == |owner| then []
    else (if IsContainer(types, owner[q]) then [(owner[q], FIRST_SID + q)] else []) + Queue(types, owner, q + 1)
  }

  function QueueSize(queue: seq<(Thing, int)>): nat {
    if queue == [] then 0 else Size(queue[0].0) + QueueSize(queue[1..])
  }

  lemma {:induction false} QueueSnoc(types: Types, owner: seq<Thing>, t: Thing, q: nat)
    requires q <= |owner|
    ensures Queue(types, owner + [t], q) ==
      Queue(types, owner, q) + if IsContainer(types, t) then [(t, FIRST_SID + |owner|)] else []
    decreases |owner| - q
  {
    if q < |owner| { QueueSnoc(types, owner, t, q + 1); }
  }

  lemma {:induction false} QueueSizeSnoc(queue: seq<(Thing, int)>, t: Thing, sid: int)
    ensures QueueSize(queue + [(t, sid)]) == QueueSize(queue) + Size(t)
  {
    if queue != [] {
      QueueSizeSnoc(queue[1..], t, sid);
      assert (queue + [(t, sid)])[1..] == queue[1..] + [(t, sid)];
    }
  }

  lemma {:induction false} FirstAppend(tops: nat, owner: seq<Thing>, more: seq<Thing>, i: nat)
    requires i <= |owner|
    ensures First(tops, owner + more, i) == First(tops, owner, i)
  {
    if i > 0 { FirstAppend(tops, owner, more, i - 1); }
  }

  lemma {:induction false} FirstMonotone(tops: nat, owner: seq<Thing>, i: nat, j: nat)
    requires i <= j <= |owner|
    ensures First(tops, owner, i) <= First(tops, owner, j)
    decreases j - i
  {
    if i < j { FirstMonotone(tops, owner, i, j - 1); }
  }

  // ----- steps of the breadth-first walk

  lemma {:induction false} AddChild(top: seq<(int, Thing)>, rows: seq<Row>, owner: seq<Thing>, q: nat, k: nat)
    requires Layout(top, rows, owner, q, k) && q < |owner| && k < |owner[q].contents|
    ensures var t := owner[q].contents[k];
      Layout(top, rows + [Row(FIRST_SID + q, FIRST_SID + |rows|, t.data)], owner + [t], q, k + 1)
  {
    var t := owner[q].contents[k];
    var rows', owner' := rows + [Row(FIRST_SID + q, FIRST_SID + |rows|, t.data)], owner + [t];
    FirstAppend(|top|, owner, [t], q);
    forall j: nat | j < |rows'|
      ensures RowOk(top, rows', owner', j)
    {
      if j < |rows| { assert RowOk(top, rows, owner, j); }
    }
    forall i: nat, l: nat | i <= q && l < |owner'[i].contents| && (i == q ==> l < k + 1)
      ensures ChildOf(top, rows', owner', i, l)
    {
      FirstAppend(|top|, owner, [t], i);
      if i < q || l < k { assert ChildOf(top, rows, owner, i, l); }
    }
  }

  lemma {:induction false} NextRow(top: seq<(int, Thing)>, rows: seq<Row>, owner: seq<Thing>, q: nat)
    requires q < |owner| && Layout(top, rows, owner, q, |owner[q].contents|)
    ensures Layout(top, rows, owner, q + 1, 0)
  {
  }

  /** The front of the queue is the next row with anything to expand. */
  lemma {:induction false} Front(types: Types, top: seq<(int, Thing)>, rows: seq<Row>, owner: seq<Thing>, q: nat) returns (i: nat)
    requires Layout(top, rows, owner, q, 0) && AllWellTyped(types, owner)
    ensures q <= i <= |owner| && Layout(top, rows, owner, i, 0)
    ensures if Queue(types, owner, q) == [] then i == |owner|
            else i < |owner| && Queue(types, owner, q) == [(owner[i], FIRST_SID + i)] + Queue(types, owner, i + 1)
    decreases |owner| - q
  {
    if q == |owner| || IsContainer(types, owner[q]) {
      i := q;
    } else {
      assert WellTyped(types, owner[q]);
      NextRow(top, rows, owner, q);
      i := Front(types, top, rows, owner, q + 1);
    }
  }

  ghost predicate AllWellTyped(types: Types, owner: seq<Thing>) { forall t :: t in owner ==> WellTyped(types, t) }

  lemma {:induction false} ContentsWellTyped(types: Types, owner: seq<Thing>, q: nat, i: nat)
    requires AllWellTyped(types, owner) && q < |owner| && i < |owner[q].contents|
    ensures AllWellTyped(types, owner + [owner[q].contents[i]])
  {
    assert WellTyped(types, owner[q]);
  }

  lemma {:induction false} LaidOut(types: Types, top: seq<(int, Thing)>, rows: seq<Row>, owner: seq<Thing>)
    requires Layout(top, rows, owner, |owner|, 0) && AllWellTyped(types, owner)
    ensures Complete(types, top, rows, owner)
  {
    hide RowOk, ChildOf;
  }

  lemma {:induction false} OwnerPerRow(types: Types, top: seq<(int, Thing)>, rows: seq<Row>, owner: seq<Thing>)
    requires Complete(types, top, rows, owner)
    ensures |rows| == |owner|
  {
  }

  lemma {:induction false} LayoutShape(top: seq<(int, Thing)>, rows: seq<Row>, owner: seq<Thing>, q: nat)
    requires Layout(top, rows, owner, q, 0)
    ensures |rows| == |owner|
  {
  }

  /** `saveItems`, inner loop: the contents of one container become rows, the containers among them are queued. */
  method SaveContents(types: Types, parentId: int, container: Thing, rows0: seq<Row>, stack0: seq<(Thing, int)>,
                      ghost top: seq<(int, Thing)>, ghost owner0: seq<Thing>, ghost q: nat)
    returns (rows: seq<Row>, stack: seq<(Thing, int)>, ghost owner: seq<Thing>)
    requires q < |owner0| && owner0[q] == container && parentId == FIRST_SID + q
    requires Layout(top, rows0, owner0, q, 0) && AllWellTyped(types, owner0) && stack0 == Queue(types, owner0, q + 1)
    ensures q < |owner| && Layout(top, rows, owner, q + 1, 0) && AllWellTyped(types, owner)
    ensures stack == Queue(types, owner, q + 1) && QueueSize(stack) <= QueueSize(stack0) + SizeAll(container.contents)
  {
    hide Layout, AllWellTyped, Queue, QueueSize, SizeAll, IsContainer;
    rows, stack, owner := rows0, stack0, owner0;
    LayoutShape(top, rows, owner, q);
    var runningId := FIRST_SID - 1 + |rows|;
    assert container.contents[..0] == [];
    for i := 0 to |container.contents|
      invariant q < |owner| == |rows| && owner[q] == container
      invariant Layout(top, rows, owner, q, i) && runningId == FIRST_SID - 1 + |rows|
      invariant AllWellTyped(types, owner)
      invariant stack == Queue(types, owner, q + 1)
      invariant QueueSize(stack) <= QueueSize(stack0) + SizeAll(container.contents[..i])
    {
      var item := container.contents[i];
      runningId := runningId + 1;
      AddChild(top, rows, owner, q, i);
      QueueSnoc(types, owner, item, q + 1);
      QueueSizeSnoc(stack, item, runningId);
      SizeAllSnoc(container.contents[..i], item);
      assert container.contents[..i + 1] == container.contents[..i] + [item];
      ContentsWellTyped(types, owner, q, i);
      if IsContainer(types, item) {
        stack := stack + [(item, runningId)];
      }
      rows, owner := rows + [Row(parentId, runningId, item.data)], owner + [item];
    }
    assert container.contents[..|container.contents|] == container.contents;
    NextRow(top, rows, owner, q);
  }

  /** The first `i` top items have their rows. */
  ghost predicate TopDone(types: Types, top: seq<(int, Thing)>, rows: seq<Row>, owner: seq<Thing>, i: nat) {
    && i <= |top| && |rows| == |owner| == i
    && (forall j: nat :: j < i ==> RowOk(top, rows, owner, j))
    && AllWellTyped(types, owner)
  }

  lemma {:induction false} TopNext(types: Types, top: seq<(int, Thing)>, rows: seq<Row>, owner: seq<Thing>, i: nat)
    requires TopDone(types, top, rows, owner, i) && i < |top| && WellTyped(types, top[i].1)
    ensures |rows| == |owner| == i
    ensures TopDone(types, top, rows + [Row(top[i].0, FIRST_SID + i, top[i].1.data)], owner + [top[i].1], i + 1)
  {
    hide WellTyped;
    var rows', owner' := rows + [Row(top[i].0, FIRST_SID + i, top[i].1.data)], owner + [top[i].1];
    forall j: nat | j < i + 1
      ensures RowOk(top, rows', owner', j)
    {
      if j < i { assert RowOk(top, rows, owner, j); }
    }
  }

  lemma {:induction false} TopStart(types: Types, top: seq<(int, Thing)>)
    ensures TopDone(types, top, [], [], 0) && Queue(types, [], 0) == []
  {
  }

  lemma {:induction false} TopEnd(types: Types, top: seq<(int, Thing)>, rows: seq<Row>, owner: seq<Thing>)
    requires TopDone(types, top, rows, owner, |top|)
    ensures Layout(top, rows, owner, 0, 0) && AllWellTyped(types, owner)
  {
    hide RowOk, AllWellTyped;
  }

  lemma {:induction false} QueueShrinks(queue: seq<(Thing, int)>)
    requires queue != []
    ensures QueueSize(queue[1..]) + SizeAll(queue[0].0.contents) < QueueSize(queue)
  {
  }

  /** `saveItems`: top items first, then containers from a queue, each child getting the next running id. */
  method SaveItems(types: Types, top: seq<(int, Thing)>) returns (rows: seq<Row>)
    requires forall i :: 0 <= i < |top| ==> WellTyped(types, top[i].1)
    ensures Saved(types, top, rows)
    ensures forall j :: 0 <= j < |rows| ==> rows[j].sid == 101 + j
  {
    hide Layout, RowOk, AllWellTyped, WellTyped, TopDone, Queue, QueueSize, SizeAll, Complete, IsContainer;
    rows := [];
    ghost var owner: seq<Thing> := [];
    var runningId := FIRST_SID - 1;
    var stack: seq<(Thing, int)> := [];
    TopStart(types, top);
    for i := 0 to |top|
      invariant runningId == FIRST_SID - 1 + i && |rows| == |owner| == i
      invariant TopDone(types, top, rows, owner, i)
      invariant stack == Queue(types, owner, 0)
    {
      var (pid, item) := top[i];
      runningId := runningId + 1;
      TopNext(types, top, rows, owner, i);
      QueueSnoc(types, owner, item, 0);
      rows, owner := rows + [Row(pid, runningId, item.data)], owner + [item];
      if IsContainer(types, item) {
        stack := stack + [(item, runningId)];
      }
    }
    TopEnd(types, top, rows, owner);
    ghost var q: nat := 0;
    while |stack| > 0
      invariant q <= |owner| && stack == Queue(types, owner, q)
      invariant Layout(top, rows, owner, q, 0) && AllWellTyped(types, owner)
      decreases QueueSize(stack)
    {
      q := Front(types, top, rows, owner, q);
      var (container, parentId) := stack[0];
      QueueShrinks(stack);
      rows, stack, owner := SaveContents(types, parentId, container, rows, stack[1..], top, owner, q);
      q := q + 1;
    }
    q := Front(types, top, rows, owner, q);
    LaidOut(types, top, rows, owner);
    SidsAscend(types, top, rows, owner);
  }

  lemma {:induction false} SidsAscend(types: Types, top: seq<(int, Thing)>, rows: seq<Row>, owner: seq<Thing>)
    requires Complete(types, top, rows, owner)
    ensures forall j :: 0 <= j < |rows| ==> rows[j].sid == 101 + j
  {
    forall j | 0 <= j < |rows|
      ensures rows[j].sid == 101 + j
    {
      assert RowOk(top, rows, owner, j);
    }
  }

  lemma {:induction false} SizeAllSnoc(ts: seq<Thing>, t: Thing)
    ensures SizeAll(ts + [t]) == SizeAll(ts) + Size(t)
  {
    if ts == [] {
      assert ts + [t] == [t] && [t][1..] == [];
    } else {
      SizeAllSnoc(ts[1..], t);
      assert (ts + [t])[1..] == ts[1..] + [t];
    }
  }

  // ----- loading

  class LoadedItem {
    const data: Data
    const isContainer: bool
    var contents: seq<LoadedItem>

    constructor (d: Data, container: bool)
      ensures data == d && isContainer == container && contents == []
    {
      data, isContainer, contents := d, container, [];
    }
  }

  type ItemMap = map<int, (LoadedItem, int)>

  /** The last row of a known type with this sid, or -1. */
  function LastRow(types: Types, rows: seq<Row>, sid: int): (i: int)
    ensures -1 <= i < |rows|
    ensures i >= 0 ==> rows[i].sid == sid && rows[i].data.id in types
    ensures forall j: nat :: i < j < |rows| && rows[j].sid == sid ==> rows[j].data.id !in types
  {
    if rows == [] then -1
    else
      var last := |rows| - 1;
      if rows[last].sid == sid && rows[last].data.id in types then last else LastRow(types, rows[..last], sid)
  }

  /** The map holds, under each sid, an item of its own made from the last row with that sid. */
  ghost predicate Loaded(types: Types, rows: seq<Row>, m: ItemMap) {
    && (forall s :: s in m <==> LastRow(types, rows, s) >= 0)
    && (forall s :: s in m ==>
          var r := rows[LastRow(types, rows, s)];
          m[s].0.data == r.data && m[s].1 == r.pid && m[s].0.isContainer == types[r.data.id])
    && OwnItems(m)
  }

  ghost predicate OwnItems(m: ItemMap) {
    forall s, s' :: s in m && s' in m && s != s' ==> m[s].0 != m[s'].0
  }

  ghost predicate AllEmpty(m: ItemMap)
    reads set s | s in m :: m[s].0
  {
    forall s :: s in m ==> m[s].0.contents == []
  }

  lemma {:induction false} LoadedOneMore(types: Types, rows: seq<Row>, row: Row, m: ItemMap, m': ItemMap)
    requires Loaded(types, rows, m)
    requires if row.data.id in types then
        && row.sid in m' && m' == m[row.sid := m'[row.sid]] && (forall s :: s in m ==> m[s].0 != m'[row.sid].0)
        && m'[row.sid].0.data == row.data && m'[row.sid].1 == row.pid
        && m'[row.sid].0.isContainer == types[row.data.id]
      else m' == m
    ensures Loaded(types, rows + [row], m')
  {
    assert (rows + [row])[..|rows|] == rows;
  }

  /** `loadItems`, for rows in any order; a row takes the place of an earlier one with the same sid. */
  method LoadItems(types: Types, rows: seq<Row>) returns (m: ItemMap)
    ensures Loaded(types, rows, m) && AllEmpty(m) && forall s :: s in m ==> fresh(m[s].0)
  {
    hide Loaded;
    m := map[];
    assert Loaded(types, [], m) by { LoadedNone(types); }
    for i := 0 to |rows|
      invariant Loaded(types, rows[..i], m) && AllEmpty(m) && forall s :: s in m ==> fresh(m[s].0)
    {
      var row := rows[i];
      ghost var m0 := m;
      if row.data.id in types {
        var item := new LoadedItem(row.data, types[row.data.id]);
        m := m[row.sid := (item, row.pid)];
      }
      assert rows[..i + 1] == rows[..i] + [row];
      LoadedOneMore(types, rows[..i], row, m0, m);
    }
    assert rows[..|rows|] == rows;
  }

  lemma {:induction false} LoadedNone(types: Types)
    ensures Loaded(types, [], map[])
  {
  }

  // ----- the rebuild

  /** Which parent ids mean a place on the player: inventory slots, or depots. */
  datatype Kind = Inventory | Depots

  predicate IsPlace(kind: Kind, pid: int) {
    match kind
    case Inventory => 1 <= pid <= 10
    case Depots => 0 <= pid < 100
  }

  /** A place takes the item: any slot does, a depot has to be a container. */
  predicate Takes(kind: Kind, pid: int, item: LoadedItem) {
    IsPlace(kind, pid) && (kind.Depots? ==> item.isContainer)
  }

  /** The items under the sids `keys` that name `parent` as their parent, in that order. */
  ghost function Kids(kind: Kind, m: ItemMap, keys: seq<int>, parent: int): seq<LoadedItem> {
    if keys == [] then []
    else
      (if keys[0] in m && m[keys[0]].1 == parent && !IsPlace(kind, parent) then [m[keys[0]].0] else [])
      + Kids(kind, m, keys[1..], parent)
  }

  predicate Ascending(keys: seq<int>) { forall i, j :: 0 <= i < j < |keys| ==> keys[i] < keys[j] }

  /** Every container holds exactly the items naming it, by ascending sid; nothing else holds anything. */
  ghost predicate Filled(kind: Kind, m: ItemMap, held: map<int, seq<LoadedItem>>, keys: seq<int>) {
    && held.Keys == m.Keys
    && forall s :: s in m ==> held[s] == if m[s].0.isContainer then Kids(kind, m, keys, s) else []
  }

  /** What the item under each sid contains. */
  ghost function Held(m: ItemMap): map<int, seq<LoadedItem>>
    reads set s | s in m :: m[s].0
  {
    map s | s in m :: m[s].0.contents
  }

  /** Each place holds the item with the greatest sid among those that name it and that it takes. */
  ghost predicate Placed(kind: Kind, m: ItemMap, keys: seq<int>, slots: map<int, LoadedItem>) {
    && (forall s :: s in keys && s in m && Takes(kind, m[s].1, m[s].0) ==> m[s].1 in slots)
    && forall p :: p in slots ==> exists s :: Rules(kind, m, keys, slots, p, s)
  }

  ghost predicate Rules(kind: Kind, m: ItemMap, keys: seq<int>, slots: map<int, LoadedItem>, p: int, s: int)
    requires p in slots
  {
    && s in keys && s in m && m[s].1 == p && Takes(kind, p, m[s].0) && slots[p] == m[s].0
    && forall t :: t in keys && t in m && m[t].1 == p && Takes(kind, p, m[t].0) ==> t <= s
  }

  predicate IsGreatest(todo: set<int>, s: int) { s in todo && forall t :: t in todo ==> t <= s }

  lemma {:induction false} Greatest(todo: set<int>)
    requires todo != {}
    ensures exists s :: IsGreatest(todo, s)
  {
    assert (forall x :: x !in todo) ==> todo == {};
    var x :| x in todo;
    var rest := todo - {x};
    if rest == {} {
      assert todo == {x} && IsGreatest(todo, x);
    } else {
      Greatest(rest);
      var s :| IsGreatest(rest, s);
      assert forall t :: t in todo && t != x ==> t in rest;
      assert IsGreatest(todo, if s < x then x else s);
    }
  }

  /** The keys still to come are the lower ones of the map, those done are listed in order. */
  ghost predicate HalfDone(m: ItemMap, todo: set<int>, keys: seq<int>) {
    && Ascending(keys)
    && (forall s :: s in m <==> s in todo || s in keys)
    && forall s, k :: s in todo && k in keys ==> s < k
  }

  lemma {:induction false} NothingDone(kind: Kind, m: ItemMap)
    requires AllEmpty(m)
    ensures HalfDone(m, m.Keys, []) && Placed(kind, m, [], map[]) && Filled(kind, m, Held(m), [])
  {
  }

  lemma {:induction false} AllDone(m: ItemMap, keys: seq<int>)
    requires HalfDone(m, {}, keys)
    ensures Ascending(keys) && forall s :: s in keys <==> s in m
  {
  }

  lemma {:induction false} OneDone(m: ItemMap, todo: set<int>, keys: seq<int>, s: int)
    requires HalfDone(m, todo, keys) && IsGreatest(todo, s)
    ensures HalfDone(m, todo - {s}, [s] + keys) && s in m && forall k :: k in keys ==> s < k
  {
    assert forall i :: 0 <= i < |keys| ==> keys[i] in keys;
  }

  lemma {:induction false} OnItsOwn(m: ItemMap, s: int)
    requires OwnItems(m) && s in m
    ensures forall t :: t in m && t != s ==> m[t].0 != m[s].0
  {
  }

  lemma {:induction false} PlacedStep(kind: Kind, m: ItemMap, s: int, keys: seq<int>, slots: map<int, LoadedItem>)
    requires s in m && Placed(kind, m, keys, slots) && forall k :: k in keys ==> s < k
    ensures Placed(kind, m, [s] + keys,
      if Takes(kind, m[s].1, m[s].0) && m[s].1 !in slots then slots[m[s].1 := m[s].0] else slots)
  {
    var (item, pid) := m[s];
    var slots' := if Takes(kind, pid, item) && pid !in slots then slots[pid := item] else slots;
    var keys' := [s] + keys;
    forall p | p in slots'
      ensures exists s :: Rules(kind, m, keys', slots', p, s)
    {
      if p in slots {
        var t :| Rules(kind, m, keys, slots, p, t);
        assert Rules(kind, m, keys', slots', p, t);
      } else {
        assert p == pid && s in keys';
        assert Rules(kind, m, keys', slots', p, s);
      }
    }
  }

  /** Processing one more row puts it in front of what its parent holds, and changes no other. */
  lemma {:induction false} FilledStep(kind: Kind, m: ItemMap, held: map<int, seq<LoadedItem>>, s: int, keys: seq<int>)
    requires s in m && Filled(kind, m, held, keys)
    ensures var (item, pid) := m[s];
      Filled(kind, m, if !IsPlace(kind, pid) && pid in m && m[pid].0.isContainer then held[pid := [item] + held[pid]] else held, [s] + keys)
  {
    assert ([s] + keys)[1..] == keys;
  }

  /** One turn of the rebuild: the item goes to its place, or to the front of its parent. */
  method PutAway(kind: Kind, m: ItemMap, s: int, slots: map<int, LoadedItem>, ghost keys: seq<int>)
    returns (slots': map<int, LoadedItem>)
    requires s in m && OwnItems(m) && (forall k :: k in keys ==> s < k)
    requires Filled(kind, m, Held(m), keys) && Placed(kind, m, keys, slots)
    modifies set s | s in m :: m[s].0
    ensures Filled(kind, m, Held(m), [s] + keys) && Placed(kind, m, [s] + keys, slots')
  {
    hide Placed, Filled, OwnItems;
    var (item, pid) := m[s];
    PlacedStep(kind, m, s, keys, slots);
    FilledStep(kind, m, Held(m), s, keys);
    slots' := slots;
    if IsPlace(kind, pid) {
      if Takes(kind, pid, item) && pid !in slots {
        slots' := slots[pid := item];
      }
    } else if pid in m && m[pid].0.isContainer {
      var container := m[pid].0;
      OnItsOwn(m, pid);
      ghost var held := Held(m);
      container.contents := [item] + container.contents;
      assert Held(m).Keys == m.Keys && held.Keys == m.Keys;
      assert forall t :: t in m ==> Held(m)[t] == if t == pid then [item] + held[t] else held[t];
      assert Held(m) == held[pid := [item] + held[pid]];
    }
  }

  /** The rebuild loops of `loadPlayer`: by descending sid, into its place or to the front of its parent. */
  method Rebuild(kind: Kind, m: ItemMap) returns (slots: map<int, LoadedItem>, ghost keys: seq<int>)
    requires OwnItems(m) && AllEmpty(m)
    modifies set s | s in m :: m[s].0
    ensures Ascending(keys) && forall s :: s in keys <==> s in m
    ensures Filled(kind, m, Held(m), keys) && Placed(kind, m, keys, slots)
  {
    hide Placed, Filled, HalfDone, OwnItems, Ascending;
    NothingDone(kind, m);
    slots, keys := map[], [];
    var todo := m.Keys;
    while todo != {}
      invariant HalfDone(m, todo, keys)
      invariant Filled(kind, m, Held(m), keys) && Placed(kind, m, keys, slots)
      decreases todo
    {
      Greatest(todo);
      var s :| IsGreatest(todo, s);
      OneDone(m, todo, keys, s);
      slots := PutAway(kind, m, s, slots, keys);
      todo, keys := todo - {s}, [s] + keys;
    }
    AllDone(m, keys);
  }

  // ----- the round trip

  /** Item `o` and what it contains, within `S`, is thing `t` in the same order. */
  ghost predicate Matches(S: set<LoadedItem>, o: LoadedItem, t: Thing)
    reads S
    decreases t
  {
    && o in S && o.data == t.data && |o.contents| == |t.contents|
    && forall i :: 0 <= i < |t.contents| ==> Matches(S, o.contents[i], t.contents[i])
  }

  /** The map stands for the whole table: row `j` under its sid. */
  ghost predicate StandsFor(types: Types, rows: seq<Row>, m: ItemMap) {
    && (forall s :: s in m <==> FIRST_SID <= s < FIRST_SID + |rows|)
    && forall j: nat :: j < |rows| ==> Mirrors(types, rows, m, j)
  }

  ghost predicate Mirrors(types: Types, rows: seq<Row>, m: ItemMap, j: nat)
    requires j < |rows| && forall s :: s in m <==> FIRST_SID <= s < FIRST_SID + |rows|
  {
    var (o, pid) := m[FIRST_SID + j];
    && o.data == rows[j].data && pid == rows[j].pid
    && rows[j].data.id in types && o.isContainer == types[rows[j].data.id]
  }

  ghost predicate Numbered(types: Types, rows: seq<Row>) {
    forall j: nat :: j < |rows| ==> rows[j].sid == FIRST_SID + j && rows[j].data.id in types
  }

  lemma {:induction false} SavedIsNumbered(types: Types, top: seq<(int, Thing)>, rows: seq<Row>, owner: seq<Thing>)
    requires Complete(types, top, rows, owner)
    ensures Numbered(types, rows)
  {
    forall j: nat | j < |rows|
      ensures rows[j].sid == FIRST_SID + j && rows[j].data.id in types
    {
      assert RowOk(top, rows, owner, j) && owner[j] in owner;
    }
  }

  /** Reading the saved rows back in any order gives the same map. */
  lemma {:induction false} AnyOrder(types: Types, rows: seq<Row>, rows': seq<Row>, m: ItemMap)
    requires Numbered(types, rows) && multiset(rows') == multiset(rows) && Loaded(types, rows', m)
    ensures StandsFor(types, rows, m)
  {
    forall s | s in m
      ensures FIRST_SID <= s < FIRST_SID + |rows| && rows'[LastRow(types, rows', s)] == rows[s - FIRST_SID]
    {
      var i := LastRow(types, rows', s);
      assert rows'[i] in multiset(rows);
      var j: nat :| j < |rows| && rows[j] == rows'[i];
    }
    forall s | FIRST_SID <= s < FIRST_SID + |rows|
      ensures s in m
    {
      var j := s - FIRST_SID;
      assert rows[j] in multiset(rows');
      var i: nat :| i < |rows'| && rows'[i] == rows[j];
      assert LastRow(types, rows', s) >= 0;
    }
  }

  ghost function Obj(rows: seq<Row>, m: ItemMap, j: nat): LoadedItem
    requires j < |rows| && forall s :: s in m <==> FIRST_SID <= s < FIRST_SID + |rows|
  {
    m[FIRST_SID + j].0
  }

  /** Every row below the top ones is some child of a row before it. */
  lemma {:induction false} ParentOf(tops: nat, owner: seq<Thing>, j: nat, n: nat) returns (i: nat, k: nat)
    requires n <= |owner| && tops <= j < First(tops, owner, n)
    ensures i < n && k < |owner[i].contents| && j == First(tops, owner, i) + k
  {
    if j >= First(tops, owner, n - 1) {
      i, k := n - 1, j - First(tops, owner, n - 1);
    } else {
      i, k := ParentOf(tops, owner, j, n - 1);
    }
  }

  /** Blocks of children do not overlap. */
  lemma {:induction false} OneBlock(tops: nat, owner: seq<Thing>, i: nat, i': nat, j: nat)
    requires i < |owner| && i' < |owner| && i != i'
    requires First(tops, owner, i) <= j < First(tops, owner, i + 1)
    ensures !(First(tops, owner, i') <= j < First(tops, owner, i' + 1))
  {
    if i < i' {
      FirstMonotone(tops, owner, i + 1, i');
    } else {
      FirstMonotone(tops, owner, i' + 1, i);
    }
  }

  ghost predicate ProperPlaces(types: Types, kind: Kind, top: seq<(int, Thing)>) {
    && (forall i :: 0 <= i < |top| ==> IsPlace(kind, top[i].0) && (kind.Depots? ==> IsContainer(types, top[i].1)))
    && forall i, j :: 0 <= i < j < |top| ==> top[i].0 != top[j].0
  }

  /** A row names row `i` as its parent exactly when it lies in the block of children of row `i`:
      sids start above every place, so no slot or depot number is mistaken for a sid. */
  lemma {:induction false} NamesParent(types: Types, kind: Kind, top: seq<(int, Thing)>, rows: seq<Row>, owner: seq<Thing>, i: nat, j: nat)
    requires Complete(types, top, rows, owner) && ProperPlaces(types, kind, top) && i < |rows| && j < |rows|
    ensures rows[j].pid == FIRST_SID + i <==> First(|top|, owner, i) <= j < First(|top|, owner, i + 1)
  {
    var tops := |top|;
    assert RowOk(top, rows, owner, j);
    if j < |top| {
      FirstMonotone(tops, owner, 0, i);
    } else {
      var i', k := ParentOf(tops, owner, j, |rows|);
      assert ChildOf(top, rows, owner, i', k);
      if i' != i { OneBlock(tops, owner, i', i, j); }
    }
  }

  /** The children of row `i` among the rows from `c` on. */
  ghost function Block(rows: seq<Row>, m: ItemMap, from: nat, end: nat): seq<LoadedItem>
    requires end <= |rows| && forall s :: s in m <==> FIRST_SID <= s < FIRST_SID + |rows|
    decreases end - from
  {
    if from >= end then [] else [Obj(rows, m, from)] + Block(rows, m, from + 1, end)
  }

  lemma {:induction false} KidsAreBlock(types: Types, kind: Kind, top: seq<(int, Thing)>, rows: seq<Row>, owner: seq<Thing>, m: ItemMap,
                                        keys: seq<int>, i: nat, c: nat)
    requires Complete(types, top, rows, owner) && ProperPlaces(types, kind, top) && StandsFor(types, rows, m)
    requires |keys| == |rows| && forall j :: 0 <= j < |keys| ==> keys[j] == FIRST_SID + j
    requires i < |rows| && c <= |rows| && First(|top|, owner, i + 1) <= |rows|
    ensures Kids(kind, m, keys[c..], FIRST_SID + i)
      == Block(rows, m, Max(c, First(|top|, owner, i)), First(|top|, owner, i + 1))
    decreases |rows| - c
  {
    if c < |rows| {
      KidsAreBlock(types, kind, top, rows, owner, m, keys, i, c + 1);
      NamesParent(types, kind, top, rows, owner, i, c);
      assert Mirrors(types, rows, m, c);
      assert keys[c..][1..] == keys[c + 1..];
    }
  }

  /** Strictly ascending keys that fill an interval are that interval. */
  lemma {:induction false} KeysFill(keys: seq<int>, n: nat)
    requires Ascending(keys) && forall s :: s in keys <==> FIRST_SID <= s < FIRST_SID + n
    ensures |keys| == n && forall j :: 0 <= j < |keys| ==> keys[j] == FIRST_SID + j
    decreases n
  {
    assert keys != [] ==> keys[0] in keys;
    if n > 0 {
      var top := FIRST_SID + n - 1;
      assert top in keys;
      var p: nat :| p < |keys| && keys[p] == top;
      assert keys[|keys| - 1] in keys;
      var rest := keys[..p];
      forall s: int
        ensures s in rest <==> FIRST_SID <= s < FIRST_SID + (n - 1)
      {
        if s in rest {
          var q: nat :| q < |rest| && rest[q] == s;
          assert keys[q] in keys;
        }
        if FIRST_SID <= s < FIRST_SID + (n - 1) {
          assert s in keys;
          var q: nat :| q < |keys| && keys[q] == s;
          assert rest[q] == s;
        }
      }
      KeysFill(rest, n - 1);
      assert p == n - 1;
    }
  }

  /** The children of row `i` are items of the map, in the order of the rows. */
  lemma {:induction false} BlockAt(rows: seq<Row>, m: ItemMap, from: nat, end: nat)
    requires from <= end <= |rows| && forall s :: s in m <==> FIRST_SID <= s < FIRST_SID + |rows|
    ensures |Block(rows, m, from, end)| == end - from
    ensures forall l :: 0 <= l < end - from ==> Block(rows, m, from, end)[l] == Obj(rows, m, from + l)
    decreases end - from
  {
    if from < end { BlockAt(rows, m, from + 1, end); }
  }

  /** After the rebuild the item of row `j` holds the items of its block of rows. */
  lemma {:induction false} RowHolds(types: Types, kind: Kind, top: seq<(int, Thing)>, rows: seq<Row>, owner: seq<Thing>, m: ItemMap,
                                    held: map<int, seq<LoadedItem>>, keys: seq<int>, j: nat)
    requires Complete(types, top, rows, owner) && ProperPlaces(types, kind, top) && StandsFor(types, rows, m)
    requires |keys| == |rows| && forall j :: 0 <= j < |keys| ==> keys[j] == FIRST_SID + j
    requires Filled(kind, m, held, keys) && j < |rows|
    ensures var f := First(|top|, owner, j);
      && held.Keys == m.Keys && Obj(rows, m, j).data == owner[j].data
      && |held[FIRST_SID + j]| == |owner[j].contents| && f + |owner[j].contents| <= |rows|
      && forall l :: 0 <= l < |owner[j].contents| ==>
           owner[f + l] == owner[j].contents[l] && held[FIRST_SID + j][l] == Obj(rows, m, f + l)
  {
    hide Complete, ProperPlaces, Mirrors, Kids, Block, WellTyped;
    OwnerPerRow(types, top, rows, owner);
    var t, f := owner[j], First(|top|, owner, j);
    RowFacts(types, top, rows, owner, m, j);
    BlockAt(rows, m, f, f + |t.contents|);
    assert Kids(kind, m, keys, FIRST_SID + j) == Block(rows, m, f, f + |t.contents|) by {
      assert keys[0..] == keys;
      KidsAreBlock(types, kind, top, rows, owner, m, keys, j, 0);
    }
    assert held[FIRST_SID + j] == Block(rows, m, f, f + |t.contents|);
  }

  lemma {:induction false} RowFacts(types: Types, top: seq<(int, Thing)>, rows: seq<Row>, owner: seq<Thing>, m: ItemMap, j: nat)
    requires Complete(types, top, rows, owner) && StandsFor(types, rows, m) && j < |rows|
    ensures var f, o := First(|top|, owner, j), Obj(rows, m, j);
      && o.data == owner[j].data && (o.isContainer || owner[j].contents == [])
      && f + |owner[j].contents| <= |rows|
      && forall l :: 0 <= l < |owner[j].contents| ==> owner[f + l] == owner[j].contents[l]
  {
    var t, f := owner[j], First(|top|, owner, j);
    assert RowOk(top, rows, owner, j) && Mirrors(types, rows, m, j);
    assert WellTyped(types, t) by { assert t in owner; }
    FirstMonotone(|top|, owner, j + 1, |rows|);
    forall l: nat | l < |t.contents|
      ensures owner[f + l] == t.contents[l]
    {
      assert ChildOf(top, rows, owner, j, l);
    }
  }

  /** Nothing is lost or reordered: each row has become the item it was saved from. */
  lemma {:induction false} RowMatches(types: Types, kind: Kind, top: seq<(int, Thing)>, rows: seq<Row>, owner: seq<Thing>, m: ItemMap,
                                      keys: seq<int>, S: set<LoadedItem>, j: nat)
    requires Complete(types, top, rows, owner) && ProperPlaces(types, kind, top) && StandsFor(types, rows, m)
    requires |keys| == |rows| && forall j :: 0 <= j < |keys| ==> keys[j] == FIRST_SID + j
    requires Filled(kind, m, Held(m), keys) && S == (set s | s in m :: m[s].0) && j < |rows|
    ensures Matches(S, Obj(rows, m, j), owner[j])
    decreases owner[j]
  {
    RowHolds(types, kind, top, rows, owner, m, Held(m), keys, j);
    hide Complete, ProperPlaces, Filled, Mirrors;
    var o, t, f := Obj(rows, m, j), owner[j], First(|top|, owner, j);
    assert Held(m)[FIRST_SID + j] == o.contents;
    forall l | 0 <= l < |t.contents|
      ensures Matches(S, o.contents[l], t.contents[l])
    {
      assert owner[f + l] == t.contents[l];
      RowMatches(types, kind, top, rows, owner, m, keys, S, f + l);
    }
  }

  /** Saving a forest and loading the rows back, in whatever order the database returns them, restores every
      place with the same items in the same order. */
  method LoadForest(types: Types, kind: Kind, stored: seq<Row>, ghost top: seq<(int, Thing)>, ghost rows: seq<Row>)
    returns (slots: map<int, LoadedItem>, ghost S: set<LoadedItem>)
    ensures fresh(S) && forall p :: p in slots ==> slots[p] in S && IsPlace(kind, p)
    ensures Saved(types, top, rows) && multiset(stored) == multiset(rows) && ProperPlaces(types, kind, top) ==>
      && (forall p :: p in slots <==> exists i :: 0 <= i < |top| && top[i].0 == p)
      && forall i :: 0 <= i < |top| ==> top[i].0 in slots && Matches(S, slots[top[i].0], top[i].1)
  {
    var m := LoadItems(types, stored);
    S := set s | s in m :: m[s].0;
    ghost var keys;
    slots, keys := Rebuild(kind, m);
    if Saved(types, top, rows) && multiset(stored) == multiset(rows) && ProperPlaces(types, kind, top) {
      ghost var owner :| Complete(types, top, rows, owner);
      SavedIsNumbered(types, top, rows, owner);
      AnyOrder(types, rows, stored, m);
      KeysFill(keys, |rows|);
      TopsPlaced(types, kind, top, rows, owner, m, keys, slots);
      forall i | 0 <= i < |top|
        ensures top[i].0 in slots && Matches(S, slots[top[i].0], top[i].1)
      {
        RowMatches(types, kind, top, rows, owner, m, keys, S, i);
        assert RowOk(top, rows, owner, i);
      }
    }
  }

  /** Only the top rows name places, each its own. */
  lemma {:induction false} TopsPlaced(types: Types, kind: Kind, top: seq<(int, Thing)>, rows: seq<Row>, owner: seq<Thing>, m: ItemMap,
                                      keys: seq<int>, slots: map<int, LoadedItem>)
    requires Complete(types, top, rows, owner) && ProperPlaces(types, kind, top) && StandsFor(types, rows, m)
    requires |keys| == |rows| && forall j :: 0 <= j < |keys| ==> keys[j] == FIRST_SID + j
    requires Placed(kind, m, keys, slots)
    ensures forall i :: 0 <= i < |top| ==> top[i].0 in slots && slots[top[i].0] == Obj(rows, m, i)
    ensures forall p :: p in slots ==> exists i :: 0 <= i < |top| && top[i].0 == p
  {
    forall j: nat | j < |rows|
      ensures IsPlace(kind, rows[j].pid) <==> j < |top|
      ensures j < |top| ==> rows[j].pid == top[j].0 && Takes(kind, rows[j].pid, Obj(rows, m, j))
    {
      assert RowOk(top, rows, owner, j) && Mirrors(types, rows, m, j);
      if j >= |top| {
        var i, k := ParentOf(|top|, owner, j, |rows|);
        assert ChildOf(top, rows, owner, i, k);
      }
    }
    forall p | p in slots
      ensures exists i :: 0 <= i < |top| && top[i].0 == p && slots[p] == Obj(rows, m, i)
    {
      var s :| Rules(kind, m, keys, slots, p, s);
      assert Mirrors(types, rows, m, s - FIRST_SID);
    }
    forall i | 0 <= i < |top|
      ensures top[i].0 in slots
    {
      assert Mirrors(types, rows, m, i) && keys[i] in keys;
    }
  }

  // ----- what a player carries

  datatype Option<T> = None | Some(value: T)

  /** The items in the slots from 1 up to `n`, each with its slot. */
  function Worn(inventory: seq<Option<Thing>>, n: nat): (top: seq<(int, Thing)>)
    requires n < |inventory|
    ensures forall i :: 0 <= i < |top| ==> 1 <= top[i].0 <= n && inventory[top[i].0] == Some(top[i].1)
    ensures forall i, j :: 0 <= i < j < |top| ==> top[i].0 < top[j].0
    ensures forall s {:trigger inventory[s]} :: 1 <= s <= n && inventory[s].Some? ==> exists i :: 0 <= i < |top| && top[i].0 == s
  {
    if n == 0 then []
    else if inventory[n].None? then Worn(inventory, n - 1)
    else
      var before := Worn(inventory, n - 1);
      var top := before + [(n, inventory[n].value)];
      assert top[|before|].0 == n;
      assert forall i :: 0 <= i < |before| ==> top[i] == before[i];
      top
  }

  ghost predicate SavedInventory(types: Types, inventory: seq<Option<Thing>>, rows: seq<Row>)
    requires |inventory| == 11
  {
    Saved(types, Worn(inventory, 10), rows)
  }

  lemma {:induction false} WornNext(inventory: seq<Option<Thing>>, n: nat)
    requires 1 <= n < |inventory|
    ensures Worn(inventory, n) == Worn(inventory, n - 1) + match inventory[n] case None => [] case Some(t) => [(n, t)]
  {
  }

  lemma {:induction false} NothingWorn(inventory: seq<Option<Thing>>)
    requires |inventory| > 0
    ensures Worn(inventory, 0) == []
  {
  }

  lemma {:induction false} WornWellTyped(types: Types, inventory: seq<Option<Thing>>, n: nat)
    requires n < |inventory| && forall s :: 1 <= s <= n && inventory[s].Some? ==> WellTyped(types, inventory[s].value)
    ensures forall i :: 0 <= i < |Worn(inventory, n)| ==> WellTyped(types, Worn(inventory, n)[i].1)
  {
    hide WellTyped;
    var top := Worn(inventory, n);
    forall i | 0 <= i < |top|
      ensures WellTyped(types, top[i].1)
    {
      var s := top[i].0;
      assert inventory[s] == Some(top[i].1);
    }
  }

  /** The inventory part of `savePlayer`; slot 0 does not exist. */
  method SaveInventory(types: Types, inventory: seq<Option<Thing>>) returns (rows: seq<Row>)
    requires |inventory| == 11 && forall s :: 1 <= s <= 10 && inventory[s].Some? ==> WellTyped(types, inventory[s].value)
    ensures SavedInventory(types, inventory, rows)
  {
    hide Saved, WellTyped, Worn;
    var itemList := [];
    NothingWorn(inventory);
    for slotId := 1 to 11
      invariant itemList == Worn(inventory, slotId - 1)
    {
      WornNext(inventory, slotId);
      if inventory[slotId].Some? {
        itemList := itemList + [(slotId, inventory[slotId].value)];
      }
    }
    WornWellTyped(types, inventory, 10);
    rows := SaveItems(types, itemList);
  }

  /** The inventory part of `loadPlayer`. Whatever order the rows come back in, every slot from 1 to 10 has the
      item it was saved with, or none. */
  method LoadInventory(types: Types, stored: seq<Row>, ghost inventory: seq<Option<Thing>>, ghost rows: seq<Row>)
    returns (slots: map<int, LoadedItem>, ghost S: set<LoadedItem>)
    requires |inventory| == 11
    ensures forall p :: p in slots ==> 1 <= p <= 10
    ensures SavedInventory(types, inventory, rows) && multiset(stored) == multiset(rows) ==>
      forall s {:trigger inventory[s]} :: 1 <= s <= 10 ==>
        && (s in slots <==> inventory[s].Some?)
        && (s in slots ==> Matches(S, slots[s], inventory[s].value))
  {
    ghost var top := Worn(inventory, 10);
    slots, S := LoadForest(types, Inventory, stored, top, rows);
  }

  predicate ProperDepots(types: Types, depots: seq<(int, Thing)>) {
    && (forall i :: 0 <= i < |depots| ==> 0 <= depots[i].0 <= 99 && IsContainer(types, depots[i].1))
    && forall i, j :: 0 <= i < j < |depots| ==> depots[i].0 < depots[j].0
  }

  /** The same for the depots, each a container, by ids from 0 to 99. Others are never put back. */
  method LoadDepots(types: Types, stored: seq<Row>, ghost depots: seq<(int, Thing)>, ghost rows: seq<Row>)
    returns (slots: map<int, LoadedItem>, ghost S: set<LoadedItem>)
    ensures forall p :: p in slots ==> 0 <= p <= 99
    ensures Saved(types, depots, rows) && multiset(stored) == multiset(rows) && ProperDepots(types, depots) ==>
      && (forall p :: p in slots ==> exists i :: 0 <= i < |depots| && depots[i].0 == p)
      && forall i :: 0 <= i < |depots| ==> depots[i].0 in slots && Matches(S, slots[depots[i].0], depots[i].1)
  {
    slots, S := LoadForest(types, Depots, stored, depots, rows);
  }
}
