/** The queue-driven iterator over everything nested in a container (font/container.cpp, `ContainerIterator`,
    `getItemHoldingCount`, `isHoldingItem`). */
module ContainerWalk {
  import opened ContainerForest

  /** Everything nested in `c`, at any depth. */
  ghost function Nested(f: Forest, c: Item): set<Item>
    requires Valid(f)
  {
    set x | x in f && x != c && c in Chain(f, x)
  }

  /** What the items of `w` hold, one list after the other. */
  ghost function Flat(f: Forest, w: seq<Item>): seq<Item>
    requires forall x :: x in w ==> x in f
  {
    if w == [] then [] else Flat(f, w[..|w| - 1]) + f[w[|w| - 1]].held
  }

  /** Breadth-first order: after the root, what it holds, and then what those hold, parent by parent. */
  ghost predicate BreadthFirst(f: Forest, root: Item, w: seq<Item>) {
    (forall x :: x in w ==> x in f) && w == [root] + Flat(f, w)
  }

  /** The containers with contents among the items, in order. */
  ghost function Waiting(f: Forest, w: seq<Item>): seq<Item>
    requires forall x :: x in w ==> x in f
  {
    if w == [] then []
    else Waiting(f, w[..|w| - 1]) + if f[w[|w| - 1]].held == [] then [] else [w[|w| - 1]]
  }

  /** Item `j` was given by item `p`, which is before the cursor. */
  ghost predicate From(f: Forest, w: seq<Item>, q: nat, cur: nat, j: nat, p: nat)
    requires j < |w| && q < |w| && forall x :: x in w ==> x in f
  {
    p <= q && f[w[j]].parent == w[p] && (p == q && cur <= |f[w[q]].held| ==> w[j] in f[w[q]].held[..cur])
  }

  ghost predicate HasSource(f: Forest, w: seq<Item>, q: nat, cur: nat, j: nat)
    requires j < |w| && q < |w| && forall x :: x in w ==> x in f
  {
    exists p: nat :: From(f, w, q, cur, j, p)
  }

  ghost predicate Given(f: Forest, root: Item, w: seq<Item>, q: nat, cur: nat) {
    && q < |w| && w[0] == root && (forall x :: x in w ==> x in f) && Distinct(w)
    && (forall j: nat :: 1 <= j < |w| ==> f[w[j]].rank < f[root].rank)
    && (forall j: nat {:trigger HasSource(f, w, q, cur, j)} :: 1 <= j < |w| ==> HasSource(f, w, q, cur, j))
  }

  ghost predicate Ordered(f: Forest, root: Item, w: seq<Item>, q: nat, cur: nat)
    requires q < |w| && forall x :: x in w ==> x in f
  {
    cur <= |f[w[q]].held| && w == [root] + Flat(f, w[..q]) + f[w[q]].held[..cur]
  }

  /** The walk has passed `w`; the items before `q` have nothing left to give, and item `q` has given `cur`. */
  ghost predicate Walked(f: Forest, root: Item, w: seq<Item>, q: nat, cur: nat) {
    Given(f, root, w, q, cur) && Ordered(f, root, w, q, cur)
  }

  lemma {:induction false} WaitingSnoc(f: Forest, w: seq<Item>, x: Item)
    requires x in f && forall y :: y in w ==> y in f
    ensures Waiting(f, w + [x]) == Waiting(f, w) + if f[x].held == [] then [] else [x]
  {
    assert (w + [x])[..|w|] == w;
  }

  lemma {:induction false} WaitingCons(f: Forest, w: seq<Item>)
    requires w != [] && forall y :: y in w ==> y in f
    ensures Waiting(f, w) == (if f[w[0]].held == [] then [] else [w[0]]) + Waiting(f, w[1..])
    decreases |w|
  {
    var n := |w| - 1;
    if n > 0 {
      var rest := w[1..];
      Middle(w);
      WaitingCons(f, w[..n]);
    } else {
      assert w[..0] == [] && w[1..] == [];
    }
  }

  lemma {:induction false} Middle(w: seq<Item>)
    requires |w| > 1
    ensures w[..|w| - 1][1..] == w[1..][..|w| - 2] && w[1..][|w| - 2] == w[|w| - 1] && w[..|w| - 1][0] == w[0]
    ensures |w[1..]| == |w| - 1
  {
  }

  lemma {:induction false} NewItem(f: Forest, root: Item, w: seq<Item>, q: nat, cur: nat)
    requires Valid(f) && Given(f, root, w, q, cur) && cur < |f[w[q]].held|
    ensures var x := f[w[q]].held[cur]; x in f && f[x].parent == w[q] && f[x].rank < f[root].rank && x !in w
  {
    var o := w[q];
    var x := f[o].held[cur];
    HeldFacts(f, o);
    assert f[o].rank <= f[root].rank;
    assert x !in f[o].held[..cur];
    forall j: nat | 1 <= j < |w|
      ensures w[j] != x
    {
      assert HasSource(f, w, q, cur, j);
    }
  }

  lemma {:induction false} KeepSource(f: Forest, w: seq<Item>, x: Item, q: nat, cur: nat, j: nat)
    requires j < |w| && q < |w| && x in f && (forall x :: x in w ==> x in f)
    requires HasSource(f, w, q, cur, j) && cur < |f[w[q]].held|
    ensures HasSource(f, w + [x], q, cur + 1, j)
  {
    var p: nat :| From(f, w, q, cur, j, p);
    assert f[w[q]].held[..cur + 1] == f[w[q]].held[..cur] + [f[w[q]].held[cur]];
    assert From(f, w + [x], q, cur + 1, j, p);
  }

  lemma {:induction false} NewSource(f: Forest, w: seq<Item>, x: Item, q: nat, cur: nat)
    requires q < |w| && x in f && (forall x :: x in w ==> x in f)
    requires cur < |f[w[q]].held| && f[x].parent == w[q] && x == f[w[q]].held[cur]
    ensures HasSource(f, w + [x], q, cur + 1, |w|)
  {
    assert f[w[q]].held[..cur + 1] == f[w[q]].held[..cur] + [x];
    assert From(f, w + [x], q, cur + 1, |w|, q);
  }

  /** The item under the cursor is a new one. */
  lemma {:induction false} Step(f: Forest, root: Item, w: seq<Item>, q: nat, cur: nat)
    requires Valid(f) && Walked(f, root, w, q, cur) && cur < |f[w[q]].held|
    ensures var x := f[w[q]].held[cur]; x in f && x !in w && Walked(f, root, w + [x], q, cur + 1)
  {
    NewItem(f, root, w, q, cur);
    var x := f[w[q]].held[cur];
    var w' := w + [x];
    StepOrdered(f, root, w, q, cur);
    hide Valid, HasSource, Ordered;
    forall j: nat {:trigger HasSource(f, w', q, cur + 1, j)} | 1 <= j < |w'|
      ensures HasSource(f, w', q, cur + 1, j)
    {
      if j < |w| { KeepSource(f, w, x, q, cur, j); } else { NewSource(f, w, x, q, cur); }
    }
  }

  lemma {:induction false} StepOrdered(f: Forest, root: Item, w: seq<Item>, q: nat, cur: nat)
    requires q < |w| && (forall x :: x in w ==> x in f)
    requires Ordered(f, root, w, q, cur) && cur < |f[w[q]].held| && f[w[q]].held[cur] in f
    ensures Ordered(f, root, w + [f[w[q]].held[cur]], q, cur + 1)
  {
    var x, held := f[w[q]].held[cur], f[w[q]].held;
    assert (w + [x])[..q] == w[..q];
    assert held[..cur + 1] == held[..cur] + [x];
    hide Flat;
  }

  lemma {:induction false} PassSource(f: Forest, w: seq<Item>, q: nat, cur: nat, j: nat)
    requires j < |w| && q + 1 < |w| && (forall x :: x in w ==> x in f)
    requires HasSource(f, w, q, cur, j)
    ensures HasSource(f, w, q + 1, 0, j)
  {
    var p: nat :| From(f, w, q, cur, j, p);
    assert From(f, w, q + 1, 0, j, p);
  }

  lemma {:induction false} TurnOrdered(f: Forest, root: Item, w: seq<Item>, q: nat, cur: nat)
    requires q + 1 < |w| && (forall x :: x in w ==> x in f)
    requires Ordered(f, root, w, q, cur) && cur == |f[w[q]].held|
    ensures Ordered(f, root, w, q + 1, 0)
  {
    assert w[..q + 1][..q] == w[..q];
    assert f[w[q]].held[..cur] == f[w[q]].held && f[w[q + 1]].held[..0] == [];
    assert Flat(f, w[..q + 1]) == Flat(f, w[..q]) + f[w[q]].held;
    assert w == [root] + (Flat(f, w[..q]) + f[w[q]].held) + [];
  }

  /** When an item has given all, the next one takes over. */
  lemma {:induction false} Turn(f: Forest, root: Item, w: seq<Item>, q: nat, cur: nat)
    requires Walked(f, root, w, q, cur) && cur == |f[w[q]].held| && q + 1 < |w|
    ensures Walked(f, root, w, q + 1, 0)
  {
    hide HasSource, Ordered, Flat, Distinct;
    TurnOrdered(f, root, w, q, cur);
    forall j: nat {:trigger HasSource(f, w, q + 1, 0, j)} | 1 <= j < |w|
      ensures HasSource(f, w, q + 1, 0, j)
    {
      PassSource(f, w, q, cur, j);
    }
  }

  /** Nothing is left to give. */
  ghost predicate Finished(f: Forest, root: Item, w: seq<Item>) {
    (forall x :: x in w ==> x in f) && w != [] && Walked(f, root, w, |w| - 1, |f[w[|w| - 1]].held|)
  }

  /** Popping the queue: the next item with anything to give takes over, if there is one. */
  lemma {:induction false} Skip(f: Forest, root: Item, w: seq<Item>, q: nat, cur: nat) returns (q': nat)
    requires Walked(f, root, w, q, cur) && cur == |f[w[q]].held|
    ensures q' < |w|
    ensures var rest := Waiting(f, w[q + 1..]);
      if rest == [] then Finished(f, root, w)
      else Walked(f, root, w, q', 0) && 0 < |f[w[q']].held| && rest == [w[q']] + Waiting(f, w[q' + 1..])
    decreases |w| - q
  {
    hide Ordered, HasSource, Distinct, Flat;
    q' := q;
    if q + 1 < |w| {
      Turn(f, root, w, q, cur);
      WaitingCons(f, w[q + 1..]);
      assert w[q + 1..][0] == w[q + 1] && w[q + 1..][1..] == w[q + 2..];
      hide Waiting;
      if f[w[q + 1]].held == [] {
        q' := Skip(f, root, w, q + 1, 0);
      } else {
        q' := q + 1;
      }
    }
  }

  /** Where the iterator stands: on a new item, or past the last one. */
  ghost predicate Stands(f: Forest, root: Item, over: seq<Item>, w: seq<Item>, q: nat, cur: nat) {
    if over == [] then Finished(f, root, w)
    else Walked(f, root, w, q, cur) && cur < |f[w[q]].held| && over == [w[q]] + Waiting(f, w[q + 1..])
  }

  function Joined(over: seq<Item>, x: Item, nonempty: bool): seq<Item> { if nonempty then over + [x] else over }

  lemma {:induction false} Join(f: Forest, w: seq<Item>, q: nat, over: seq<Item>, x: Item)
    requires x in f && (forall y :: y in w ==> y in f) && q < |w| && over == [w[q]] + Waiting(f, w[q + 1..])
    ensures q < |w + [x]| && Joined(over, x, f[x].held != []) == [w[q]] + Waiting(f, (w + [x])[q + 1..])
  {
    WaitingSnoc(f, w[q + 1..], x);
    assert (w + [x])[q + 1..] == w[q + 1..] + [x];
    hide Waiting;
  }

  lemma {:induction false} StandsIs(f: Forest, root: Item, over: seq<Item>, w: seq<Item>, q: nat, cur: nat)
    requires Stands(f, root, over, w, q, cur) && over != []
    ensures Walked(f, root, w, q, cur) && q < |w| && (forall y :: y in w ==> y in f)
    ensures cur < |f[w[q]].held| && over[0] == w[q] && over == [w[q]] + Waiting(f, w[q + 1..])
  {
  }

  lemma {:induction false} StandsAtEnd(f: Forest, root: Item, w: seq<Item>, q: nat, cur: nat)
    requires Stands(f, root, [], w, q, cur)
    ensures Finished(f, root, w)
  {
  }

  /** Passing the item under the cursor. */
  lemma {:induction false} Pass(f: Forest, root: Item, over: seq<Item>, w: seq<Item>, q: nat, cur: nat) returns (q': nat)
    requires Valid(f) && Stands(f, root, over, w, q, cur) && over != []
    ensures over[0] in f && cur < |f[over[0]].held| && f[over[0]].held[cur] in f
    ensures var held := f[over[0]].held;
      var x := held[cur];
      var joined := Joined(over, x, f[x].held != []);
      joined != [] &&
      if cur + 1 == |held| then Stands(f, root, joined[1..], w + [x], q', 0) else q' == q && Stands(f, root, joined, w + [x], q, cur + 1)
  {
    hide Valid, Walked, Waiting, Finished;
    StandsIs(f, root, over, w, q, cur);
    Step(f, root, w, q, cur);
    var x := f[w[q]].held[cur];
    var w', joined := w + [x], Joined(over, x, f[x].held != []);
    Join(f, w, q, over, x);
    q' := q;
    assert w'[q] == w[q];
    if cur + 1 == |f[w[q]].held| {
      q' := Skip(f, root, w', q, cur + 1);
      assert joined[1..] == Waiting(f, w'[q + 1..]);
    }
    assert Stands(f, root, if cur + 1 == |f[w[q]].held| then joined[1..] else joined, w', q', if cur + 1 == |f[w[q]].held| then 0 else cur + 1);
  }

  lemma {:induction false} HeldNow(types: Types, U: set<Item>, o: Item)
    requires Valid(Snap(types, U)) && o in Snap(types, U)
    ensures o in U && Snap(types, U)[o].held == o.held && (o.container || o.held == [])
  {
    assert NodeOk(Snap(types, U), o);
  }

  class ContainerIterator {
    const super: Item
    var over: seq<Item>
    var cur: nat
    ghost var w: seq<Item>  // the container and everything passed so far
    ghost var q: nat  // the item whose contents are being passed

    ghost predicate Ok(f: Forest)
      reads this
    {
      Stands(f, super, over, w, q, cur)
    }

    /** `Container::begin` */
    constructor (types: Types, c: Item, ghost U: set<Item>)
      requires Valid(Snap(types, U)) && c in U
      ensures super == c && w == [c] && Ok(Snap(types, U))
    {
      super, cur, w, q := c, 0, [c], 0;
      over := if c.held == [] then [] else [c];
      new;
      ghost var f := Snap(types, U);
      assert [c][..0] == [] && f[c].held[..0] == [] && [c][1..] == [];
      assert Walked(f, c, [c], 0, 0);
    }

    /** `operator*` */
    method Current(types: Types, ghost U: set<Item>) returns (item: Item)
      requires Valid(Snap(types, U)) && Ok(Snap(types, U)) && over != []
      ensures item in U && over[0] in U && cur < |over[0].held| && item == over[0].held[cur] && item !in w
    {
      Step(Snap(types, U), super, w, q, cur);
      item := over[0].held[cur];
    }

    /** `operator++`: containers with contents join the queue as they are passed. */
    method Next(types: Types, ghost U: set<Item>)
      requires Valid(Snap(types, U)) && Ok(Snap(types, U)) && over != []
      modifies this
      ensures Ok(Snap(types, U)) && old(over)[0] in U && old(cur) < |old(over)[0].held|
      ensures w == old(w) + [Snap(types, U)[old(over)[0]].held[old(cur)]]
    {
      hide Valid, Stands, Snap;
      ghost var f := Snap(types, U);
      ghost var q' := Pass(f, super, over, w, q, cur);
      HeldNow(types, U, over[0]);
      var i := over[0].held[cur];
      HeldNow(types, U, i);
      var joined := if i.container && i.held != [] then over + [i] else over;
      assert joined == Joined(over, i, f[i].held != []);
      hide Joined;
      over, w, cur := joined, w + [i], cur + 1;
      if cur == |over[0].held| {
        over, cur, q := over[1..], 0, q';
      }
    }
  }

  // ----- what a finished walk has passed

  lemma {:induction false} FlatHas(f: Forest, w: seq<Item>, o: Item, x: Item)
    requires (forall y :: y in w ==> y in f) && o in w && x in f[o].held
    ensures x in Flat(f, w)
  {
    var n := |w| - 1;
    if o != w[n] {
      assert o in w[..n];
      FlatHas(f, w[..n], o, x);
    }
  }

  lemma {:induction false} FinishedOrder(f: Forest, root: Item, w: seq<Item>)
    requires Finished(f, root, w)
    ensures BreadthFirst(f, root, w) && Distinct(w) && w[0] == root
    ensures forall j :: 1 <= j < |w| ==> f[w[j]].rank < f[root].rank && f[w[j]].parent in w
  {
    var n := |w| - 1;
    AllGiven(f, root, w);
    hide HasSource, Ordered, Flat, Distinct;
    forall j: nat | 1 <= j < |w|
      ensures f[w[j]].parent in w
    {
      assert HasSource(f, w, n, |f[w[n]].held|, j);
      SourceIn(f, w, n, |f[w[n]].held|, j);
    }
  }

  lemma {:induction false} AllGiven(f: Forest, root: Item, w: seq<Item>)
    requires |w| > 0 && (forall y :: y in w ==> y in f) && Ordered(f, root, w, |w| - 1, |f[w[|w| - 1]].held|)
    ensures w == [root] + Flat(f, w)
  {
    var n := |w| - 1;
    var held := f[w[n]].held;
    assert held[..|held|] == held;
    assert w == [root] + (Flat(f, w[..n]) + held);
  }

  lemma {:induction false} SourceIn(f: Forest, w: seq<Item>, q: nat, cur: nat, j: nat)
    requires j < |w| && q < |w| && (forall x :: x in w ==> x in f) && HasSource(f, w, q, cur, j)
    ensures f[w[j]].parent in w
  {
  }

  /** Everything passed is nested in the container. */
  lemma {:induction false} PassedIsNested(f: Forest, root: Item, w: seq<Item>, q: nat, cur: nat, x: Item)
    requires Valid(f) && Given(f, root, w, q, cur) && x in w
    ensures root in f && root in Chain(f, x)
    decreases f[root].rank - f[x].rank
  {
    var j: nat :| j < |w| && w[j] == x;
    if j > 0 {
      assert HasSource(f, w, q, cur, j);
      ParentHigher(f, x);
      PassedIsNested(f, root, w, q, cur, f[x].parent);
    }
  }

  /** The item under the cursor is nested in the container. */
  lemma {:induction false} CurrentIsNested(f: Forest, root: Item, over: seq<Item>, w: seq<Item>, q: nat, cur: nat)
    requires Valid(f) && Stands(f, root, over, w, q, cur) && over != []
    ensures over[0] in f && cur < |f[over[0]].held| && f[over[0]].held[cur] in Nested(f, root)
  {
    Step(f, root, w, q, cur);
    var x := f[w[q]].held[cur];
    PassedIsNested(f, root, w + [x], q, cur + 1, x);
  }

  /** Everything nested in the container has been passed. */
  lemma {:induction false} NestedIsPassed(f: Forest, root: Item, w: seq<Item>, x: Item)
    requires Valid(f) && Finished(f, root, w) && x in f && root in Chain(f, x)
    ensures x in w
    decreases Higher(f, f[x].rank)
  {
    FinishedOrder(f, root, w);
    if x != root {
      var p := f[x].parent;
      assert p != null;
      ParentHigher(f, x);
      NestedIsPassed(f, root, w, p);
      assert x in f[p].held by { assert NodeOk(f, x); }
      FlatHas(f, w, p, x);
    }
  }

  lemma {:induction false} CountDistinct(s: seq<Item>, S: set<Item>)
    requires Distinct(s) && forall x :: x in s <==> x in S
    ensures |s| == |S|
  {
    if s != [] {
      var n := |s| - 1;
      assert s[n] !in s[..n];
      forall x: Item
        ensures x in s[..n] <==> x in S - {s[n]}
      {
        if x in S - {s[n]} {
          var i :| 0 <= i < |s| && s[i] == x;
          assert s[..n][i] == x;
        }
      }
      CountDistinct(s[..n], S - {s[n]});
    } else {
      assert S == {};
    }
  }

  /** A finished walk has passed everything nested in the container, each exactly once, in breadth-first order. */
  lemma {:induction false} WalkIsComplete(f: Forest, root: Item, w: seq<Item>)
    requires Valid(f) && Finished(f, root, w)
    ensures BreadthFirst(f, root, w) && Distinct(w)
    ensures forall x :: x in w[1..] <==> x in Nested(f, root)
    ensures |w| - 1 == |Nested(f, root)|
  {
    FinishedOrder(f, root, w);
    forall x: Item
      ensures x in w[1..] <==> x in Nested(f, root)
    {
      PassedOnce(f, root, w, x);
    }
    hide Finished, Nested, Valid, BreadthFirst;
    CountDistinct(w[1..], Nested(f, root));
  }

  lemma {:induction false} PassedOnce(f: Forest, root: Item, w: seq<Item>, x: Item)
    requires Valid(f) && Finished(f, root, w)
    ensures x in w[1..] <==> x in Nested(f, root)
  {
    FinishedOrder(f, root, w);
    assert w == [root] + w[1..];
    if x in w {
      PassedIsNested(f, root, w, |w| - 1, |f[w[|w| - 1]].held|, x);
    }
    if x in f && root in Chain(f, x) {
      NestedIsPassed(f, root, w, x);
    }
    hide Finished, Walked, Valid, Chain, BreadthFirst;
  }

  /** A walk never gets longer than the forest. */
  lemma {:induction false} WalkIsShort(f: Forest, over: seq<Item>, root: Item, w: seq<Item>, q: nat, cur: nat)
    requires Stands(f, root, over, w, q, cur)
    ensures |w| <= |f| && |w| >= 1 && w[0] == root
  {
    var S := set x | x in w;
    CountDistinct(w, S);
    SubsetSize(S, f.Keys);
  }

  lemma {:induction false} SubsetSize(S: set<Item>, T: set<Item>)
    requires S <= T
    ensures |S| <= |T|
  {
    assert T == S + (T - S);
  }

  /** `getItemHoldingCount`: the number of items nested in the container. */
  method GetItemHoldingCount(types: Types, c: Item, ghost U: set<Item>) returns (counter: nat)
    requires Valid(Snap(types, U)) && c in U
    ensures counter == |Nested(Snap(types, U), c)|
  {
    hide Valid, Snap, Stands, Nested, Finished, Chain;
    ghost var f := Snap(types, U);
    counter := 0;
    var iter := new ContainerIterator(types, c, U);
    while iter.over != []
      invariant fresh(iter) && iter.super == c && iter.Ok(f) && counter == |iter.w| - 1
      decreases |f| - |iter.w|
    {
      counter := counter + 1;
      iter.Next(types, U);
      WalkIsShort(f, iter.over, c, iter.w, iter.q, iter.cur);
    }
    StandsAtEnd(f, c, iter.w, iter.q, iter.cur);
    WalkIsComplete(f, c, iter.w);
  }

  /** `isHoldingItem`: exactly the items nested in the container are found. */
  method IsHoldingItem(types: Types, c: Item, item: Item, ghost U: set<Item>) returns (found: bool)
    requires Valid(Snap(types, U)) && c in U
    ensures found <==> item in Nested(Snap(types, U), c)
  {
    hide Valid, Snap, Stands, Nested, Finished, Chain;
    ghost var f := Snap(types, U);
    var iter := new ContainerIterator(types, c, U);
    while iter.over != []
      invariant fresh(iter) && iter.super == c && iter.Ok(f) && iter.w != [] && item !in iter.w[1..]
      decreases |f| - |iter.w|
    {
      CurrentIsNested(f, c, iter.over, iter.w, iter.q, iter.cur);
      HeldNow(types, U, iter.over[0]);
      var current := iter.Current(types, U);
      if current == item {
        return true;
      }
      ghost var w := iter.w;
      iter.Next(types, U);
      assert iter.w[1..] == w[1..] + [current] by { hide *; }
      WalkIsShort(f, iter.over, c, iter.w, iter.q, iter.cur);
    }
    StandsAtEnd(f, c, iter.w, iter.q, iter.cur);
    WalkIsComplete(f, c, iter.w);
    found := false;
  }
}
