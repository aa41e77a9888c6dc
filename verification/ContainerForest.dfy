/** Containers within containers and their cached weights (font/container.cpp). Every container keeps the
    weight of all it holds; changes are pushed up the chain of parents. */
module ContainerForest {
  import opened Arithmetic

  const BACKPACK_ID: nat := 2222  // never put into a container

  /** What the item table says of a type; `counted` is off where the sub type is a fluid or charges. */
  datatype ItemType = ItemType(weight: int, stackable: bool, counted: bool, pickupable: bool)

  type Types = map<nat, ItemType>

  function OwnWeight(types: Types, id: nat, count: nat): int {
    if id !in types then 0
    else if types[id].stackable then types[id].weight * (if count < 1 then 1 else count)
    else types[id].weight
  }

  /** A stack weighs what the stacks it is put together from weigh, and one of a type what the type says. */
  lemma {:induction false} StacksAddUp(types: Types, id: nat, m: nat, n: nat)
    requires id in types && types[id].stackable && m >= 1 && n >= 1
    ensures OwnWeight(types, id, m + n) == OwnWeight(types, id, m) + OwnWeight(types, id, n)
    ensures OwnWeight(types, id, 1) == OwnWeight(types, id, 0) == types[id].weight
    ensures OwnWeight(types, id, m) == m * types[id].weight
  {
    var w := types[id].weight;
    assert w * (m + n) == w * m + w * n;
    assert w * m == m * w;
  }

  /** The count of anything else does not matter, and an unknown type weighs nothing. */
  lemma {:induction false} SingleWeight(types: Types, id: nat, n: nat)
    ensures id in types && !types[id].stackable ==> OwnWeight(types, id, n) == types[id].weight
    ensures id !in types ==> OwnWeight(types, id, n) == 0
  {
  }

  // ----- the forest as a value

  datatype Node = Node(own: int, container: bool, parent: Item?, held: seq<Item>, total: int, rank: nat)

  type Forest = map<Item, Node>

  ghost function Snap(types: Types, U: set<Item>): Forest
    reads U
  {
    map o | o in U :: Node(OwnWeight(types, o.id, o.count), o.container, o.parent, o.held, o.totalWeight, o.rank)
  }

  ghost predicate Distinct(s: seq<Item>) { forall i, j :: 0 <= i < j < |s| ==> s[i] != s[j] }

  /** `getWeight`: an item's own weight and, for a container, the cached weight of what it holds. */
  ghost function Weight(f: Forest, o: Item): int
    requires o in f
  {
    f[o].own + f[o].total
  }

  ghost function Sum(f: Forest, s: seq<Item>): int {
    if s == [] then 0 else (if s[0] in f then Weight(f, s[0]) else 0) + Sum(f, s[1..])
  }

  ghost predicate HoldsOk(f: Forest, o: Item)
    requires o in f
  {
    forall x :: x in f[o].held ==> x in f && f[x].parent == o && f[x].rank < f[o].rank
  }

  ghost predicate ParentOk(f: Forest, o: Item)
    requires o in f
  {
    f[o].parent != null ==> f[o].parent in f && o in f[f[o].parent].held
  }

  ghost predicate NodeOk(f: Forest, o: Item)
    requires o in f
  {
    && HoldsOk(f, o) && ParentOk(f, o) && Distinct(f[o].held)
    && (!f[o].container ==> f[o].held == [])
    && f[o].total == Sum(f, f[o].held)
  }

  /** Parents and contents agree, nothing contains itself, and every cached weight is the weight of what is
      held directly. */
  ghost predicate Valid(f: Forest) { forall o :: o in f ==> NodeOk(f, o) }

  // ----- cached weight and real weight

  /** The weight of an item with everything nested in it. */
  ghost function DeepWeight(f: Forest, o: Item): int
    requires o in f && Valid(f)
    decreases f[o].rank, 1
  {
    assert NodeOk(f, o);
    f[o].own + DeepSum(f, o, f[o].held)
  }

  ghost function DeepSum(f: Forest, o: Item, s: seq<Item>): int
    requires o in f && Valid(f) && forall x :: x in s ==> x in f && f[x].rank < f[o].rank
    decreases f[o].rank, 0, |s|
  {
    if s == [] then 0 else DeepWeight(f, s[0]) + DeepSum(f, o, s[1..])
  }

  /** In a valid forest the cached weight of every container is the recursive weight of its contents. */
  lemma {:induction false} CacheIsExact(f: Forest, o: Item)
    requires o in f && Valid(f)
    ensures Weight(f, o) == DeepWeight(f, o)
    decreases f[o].rank, 1
  {
    assert NodeOk(f, o);
    SumsAgree(f, o, f[o].held);
  }

  lemma {:induction false} SumsAgree(f: Forest, o: Item, s: seq<Item>)
    requires o in f && Valid(f) && forall x :: x in s ==> x in f && f[x].rank < f[o].rank
    ensures Sum(f, s) == DeepSum(f, o, s)
    decreases f[o].rank, 0, |s|
  {
    if s != [] {
      CacheIsExact(f, s[0]);
      SumsAgree(f, o, s[1..]);
    }
  }

  // ----- the chain of parents

  ghost function Higher(f: Forest, r: nat): set<Item> { set o | o in f && f[o].rank > r }

  lemma {:induction false} ParentHigher(f: Forest, c: Item)
    requires Valid(f) && c in f && f[c].parent != null
    ensures f[c].parent in f && f[f[c].parent].rank > f[c].rank
    ensures Higher(f, f[f[c].parent].rank) < Higher(f, f[c].rank)
  {
    var p := f[c].parent;
    assert NodeOk(f, c);
    assert NodeOk(f, p);
    assert p in Higher(f, f[c].rank) && p !in Higher(f, f[p].rank);
  }

  /** An item and the containers around it, innermost first. */
  ghost function Chain(f: Forest, c: Item): (chain: seq<Item>)
    requires Valid(f) && c in f
    ensures |chain| > 0 && chain[0] == c && forall a :: a in chain ==> a in f
    decreases Higher(f, f[c].rank)
  {
    var p := f[c].parent;
    if p == null then [c]
    else
      ParentHigher(f, c);
      [c] + Chain(f, p)
  }

  lemma {:induction false} ChainFacts(f: Forest, c: Item)
    requires Valid(f) && c in f
    ensures IsChain(f, Chain(f, c))
    ensures forall a :: a in Chain(f, c) ==> a in f && f[a].rank >= f[c].rank
    ensures forall a :: a in Chain(f, c) && a != c ==> f[a].rank > f[c].rank
    decreases Higher(f, f[c].rank)
  {
    hide Valid, Higher;
    if f[c].parent != null {
      ParentHigher(f, c);
      ChainFacts(f, f[c].parent);
    }
  }

  ghost predicate IsChain(f: Forest, chain: seq<Item>) {
    && chain != [] && Distinct(chain)
    && (forall a :: a in chain ==> a in f)
    && (forall i :: 0 <= i < |chain| - 1 ==> f[chain[i]].parent == chain[i + 1])
    && f[chain[|chain| - 1]].parent == null
  }

  lemma {:induction false} SumSame(f: Forest, g: Forest, s: seq<Item>)
    requires forall x :: x in s ==> x in f && x in g && Weight(f, x) == Weight(g, x)
    ensures Sum(f, s) == Sum(g, s)
  {
    if s != [] { SumSame(f, g, s[1..]); }
  }

  lemma {:induction false} SumOneMore(f: Forest, g: Forest, s: seq<Item>, b: Item, diff: int)
    requires Distinct(s) && b in s
    requires forall x :: x in s ==> x in f && x in g && Weight(g, x) == Weight(f, x) + if x == b then diff else 0
    ensures Sum(g, s) == Sum(f, s) + diff
  {
    if s[0] == b {
      assert b !in s[1..];
      SumSame(f, g, s[1..]);
    } else {
      SumOneMore(f, g, s[1..], b, diff);
    }
  }

  /** What an operation on container `c` may change: its list and weight, the weights up the chain, and own
      weight and parent of items in `touched`, which no other container holds. */
  ghost predicate Changed(f: Forest, g: Forest, c: Item, diff: int, bump: nat, touched: set<Item>)
    requires Valid(f) && c in f
  {
    var chain := Chain(f, c);
    && g.Keys == f.Keys
    && (forall a :: a in chain && a != c ==> g[a] == f[a].(total := f[a].total + diff, rank := f[a].rank + bump))
    && g[c] == f[c].(total := f[c].total + diff, rank := f[c].rank + bump, held := g[c].held)
    && (forall x :: x in f && x !in chain && x !in touched ==> g[x] == f[x])
    && (forall x :: x in touched ==>
          && x in f && x !in chain && (f[x].parent == null || f[x].parent == c)
          && g[x] == f[x].(own := g[x].own, parent := g[x].parent))
  }

  /** Such an operation keeps the forest valid when it leaves the container itself in order. */
  lemma {:induction false} ChangeKeepsValid(f: Forest, g: Forest, c: Item, diff: int, bump: nat, touched: set<Item>)
    requires Valid(f) && c in f && Changed(f, g, c, diff, bump, touched)
    requires HoldsOk(g, c) && Distinct(g[c].held) && f[c].container && g[c].total == Sum(g, g[c].held)
    requires forall x :: x in touched ==> ParentOk(g, x)
    requires forall x :: x in f[c].held && x !in touched ==> x in g[c].held
    ensures Valid(g)
  {
    forall o | o in g
      ensures NodeOk(g, o)
    {
      if o == c {
        AncestorsOk(f, g, c, diff, bump, touched, c);
      } else {
        AncestorsOk(f, g, c, diff, bump, touched, o);
        OtherNodeOk(f, g, c, diff, bump, touched, o);
      }
    }
  }

  lemma {:induction false} AncestorsOk(f: Forest, g: Forest, c: Item, diff: int, bump: nat, touched: set<Item>, o: Item)
    requires Valid(f) && c in f && Changed(f, g, c, diff, bump, touched) && o in f
    requires forall x :: x in touched ==> ParentOk(g, x)
    requires forall x :: x in f[c].held && x !in touched ==> x in g[c].held
    ensures ParentOk(g, o)
  {
    assert NodeOk(f, o);
    if o !in touched && f[o].parent != null {
      assert g[o].parent == f[o].parent;
    }
  }

  /** A container that holds a link of the chain is the next link. */
  lemma {:induction false} ChainClosed(f: Forest, c: Item, o: Item, x: Item)
    requires Valid(f) && c in f && o in f && x in f[o].held && x in Chain(f, c)
    ensures o in Chain(f, c) && o != c
    ensures forall y :: y in f[o].held && y in Chain(f, c) ==> y == x
  {
    ChainFacts(f, c);
    HeldFacts(f, o);
    hide Valid, Chain;
    var chain := Chain(f, c);
    var i := NextIndex(f, chain, x, o);
    assert o in chain;
    forall y | y in f[o].held && y in chain
      ensures y == x
    {
      var j := NextIndex(f, chain, y, o);
    }
  }

  lemma {:induction false} HeldFacts(f: Forest, o: Item)
    requires Valid(f) && o in f
    ensures forall x :: x in f[o].held ==> x in f && f[x].parent == o && f[x].rank < f[o].rank
    ensures Distinct(f[o].held) && f[o].total == Sum(f, f[o].held)
  {
    assert NodeOk(f, o);
  }

  lemma {:induction false} NextIndex(f: Forest, chain: seq<Item>, x: Item, o: Item) returns (i: nat)
    requires IsChain(f, chain) && x in chain && f[x].parent == o
    ensures i + 1 < |chain| && chain[i] == x && chain[i + 1] == o
    ensures forall j :: 0 <= j < |chain| && chain[j] == o ==> j == i + 1
  {
    i :| 0 <= i < |chain| && chain[i] == x;
  }

  lemma {:induction false} OtherNodeOk(f: Forest, g: Forest, c: Item, diff: int, bump: nat, touched: set<Item>, o: Item)
    requires Valid(f) && c in f && Changed(f, g, c, diff, bump, touched) && o in f && o != c
    requires ParentOk(g, o)
    ensures NodeOk(g, o)
  {
    var chain := Chain(f, c);
    assert g[o].held == f[o].held && g[o].container == f[o].container;
    assert g[o].total == f[o].total + if o in chain then diff else 0;
    assert f[o].container || f[o].held == [] by { assert NodeOk(f, o); }
    OthersHeld(f, g, c, diff, bump, touched, o);
    hide Valid, Chain, Changed;
    HeldFacts(f, o);
    if x :| x in f[o].held && x in chain {
      ChainClosed(f, c, o, x);
      SumOneMore(f, g, f[o].held, x, diff);
    } else {
      SumSame(f, g, f[o].held);
      if o in chain { NextLink(f, c, o); }
    }
  }

  lemma {:induction false} OthersHeld(f: Forest, g: Forest, c: Item, diff: int, bump: nat, touched: set<Item>, o: Item)
    requires Valid(f) && c in f && Changed(f, g, c, diff, bump, touched) && o in f && o != c
    ensures HoldsOk(g, o)
    ensures forall x :: x in f[o].held ==> x in f && x in g && Weight(g, x) == Weight(f, x) + if x in Chain(f, c) then diff else 0
  {
    HeldFacts(f, o);
    hide Valid, Chain;
    assert g[o].rank == f[o].rank + if o in Chain(f, c) then bump else 0;
    forall x | x in f[o].held
      ensures x in g && x !in touched && g[x].parent == o && g[x].rank < g[o].rank
      ensures Weight(g, x) == Weight(f, x) + if x in Chain(f, c) then diff else 0
    {
      if x in Chain(f, c) { ChainClosed(f, c, o, x); }
    }
  }

  /** Every link but the first holds the one before it. */
  lemma {:induction false} NextLink(f: Forest, c: Item, o: Item)
    requires Valid(f) && c in f && o in Chain(f, c) && o != c
    ensures exists x :: x in f[o].held && x in Chain(f, c)
  {
    ChainFacts(f, c);
    var chain := Chain(f, c);
    var i :| 0 <= i < |chain| && chain[i] == o;
    assert chain[i - 1] in chain;
    assert NodeOk(f, chain[i - 1]);
  }

  // ----- the operations, on the forest as a value

  function Without(s: seq<Item>, x: Item): seq<Item> {
    if s == [] then [] else if s[0] == x then s[1..] else [s[0]] + Without(s[1..], x)
  }

  /** The operations that move weight: putting `x` first into `c`, giving an item in `c` another own weight,
      putting `x` in the place of item `i` of `c`, and taking an item out of `c`. */
  datatype Op = Add(c: Item, x: Item) | Reweigh(c: Item, x: Item, own: int) | Replace(c: Item, i: nat, x: Item) | Remove(c: Item, x: Item)

  /** What callers see to: an item put in is in no container, and is neither the container nor around it. */
  ghost predicate Allowed(f: Forest, op: Op)
    requires Valid(f)
  {
    && op.c in f && f[op.c].container && op.x in f
    && match op
       case Add(c, x) => f[x].parent == null && x !in Chain(f, c)
       case Reweigh(c, x, own) => x in f[c].held
       case Replace(c, i, x) => i < |f[c].held| && f[x].parent == null && x !in Chain(f, c)
       case Remove(c, x) => x in f[c].held
  }

  ghost function Diff(f: Forest, op: Op): int
    requires Valid(f) && Allowed(f, op)
  {
    match op
    case Add(c, x) => Weight(f, x)
    case Reweigh(c, x, own) => own - f[x].own
    case Replace(c, i, x) =>
      assert NodeOk(f, c);
      Weight(f, x) - Weight(f, f[c].held[i])
    case Remove(c, x) => -Weight(f, x)
  }

  ghost function Bump(f: Forest, op: Op): nat
    requires Valid(f) && Allowed(f, op)
  {
    if op.Add? || op.Replace? then f[op.x].rank + 1 else 0
  }

  ghost function Touched(f: Forest, op: Op): set<Item>
    requires Valid(f) && Allowed(f, op)
  {
    if op.Replace? then {op.x, f[op.c].held[op.i]} else {op.x}
  }

  ghost function HeldAfter(f: Forest, op: Op): seq<Item>
    requires Valid(f) && Allowed(f, op)
  {
    var held := f[op.c].held;
    match op
    case Add(c, x) => [x] + held
    case Reweigh(c, x, own) => held
    case Replace(c, i, x) => held[i := x]
    case Remove(c, x) => Without(held, x)
  }

  /** The weights up the chain change by the difference; own weight and parents change for the items moved,
      and the list at the container only. */
  ghost function NewNode(f: Forest, op: Op, o: Item): Node
    requires Valid(f) && Allowed(f, op) && o in f
  {
    var n, held := f[o], f[op.c].held;
    if o in Chain(f, op.c) then
      var raised := n.(total := n.total + Diff(f, op), rank := n.rank + Bump(f, op));
      if o == op.c then raised.(held := HeldAfter(f, op)) else raised
    else if o == op.x then
      if op.Reweigh? then n.(own := op.own) else n.(parent := if op.Remove? then null else op.c)
    else if op.Replace? && o == held[op.i] then n.(parent := null)
    else n
  }

  ghost function Perform(f: Forest, op: Op): (g: Forest)
    requires Valid(f) && Allowed(f, op)
    ensures g.Keys == f.Keys
  {
    map o | o in f :: NewNode(f, op, o)
  }

  lemma {:induction false} WithoutFacts(f: Forest, s: seq<Item>, x: Item)
    requires x in s && Distinct(s)
    ensures Distinct(Without(s, x)) && x !in Without(s, x)
    ensures forall y :: y in Without(s, x) <==> y in s && y != x
    ensures Sum(f, Without(s, x)) == Sum(f, s) - if x in f then Weight(f, x) else 0
  {
    if s[0] == x {
      assert forall i :: 1 <= i < |s| ==> s[i] != s[0];
    } else {
      WithoutFacts(f, s[1..], x);
      var w := Without(s[1..], x);
      assert ([s[0]] + w)[1..] == w;
      assert s[0] !in s[1..];
    }
  }

  lemma {:induction false} SumUpdate(f: Forest, s: seq<Item>, i: nat, x: Item)
    requires i < |s| && x in f && s[i] in f
    ensures Sum(f, s[i := x]) == Sum(f, s) - Weight(f, s[i]) + Weight(f, x)
  {
    if i > 0 {
      SumUpdate(f, s[1..], i - 1, x);
      assert s[i := x][1..] == s[1..][i - 1 := x];
    } else {
      assert s[0 := x][1..] == s[1..];
    }
  }

  lemma {:induction false} LinkStep(chain: seq<Item>, i: nat)
    requires Linked(chain) && i < |chain|
    ensures if chain[i].parent == null then i + 1 == |chain| else i + 1 < |chain| && chain[i + 1] == chain[i].parent
  {
    assert i + 1 < |chain| ==> chain[i].parent == chain[i + 1];
  }

  /** What is held by a container is never on its chain. */
  lemma {:induction false} HeldOffChain(f: Forest, c: Item)
    requires Valid(f) && c in f
    ensures forall x :: x in f[c].held ==> x in f && f[x].parent == c && x !in Chain(f, c) && f[x].rank < f[c].rank
    ensures Distinct(f[c].held) && f[c].total == Sum(f, f[c].held) && c in Chain(f, c)
  {
    HeldFacts(f, c);
    ChainFacts(f, c);
  }

  lemma {:induction false} TouchedOffChain(f: Forest, op: Op)
    requires Valid(f) && Allowed(f, op)
    ensures op.c in f && op.c in Chain(f, op.c) && op.x in Touched(f, op)
    ensures forall x :: x in Touched(f, op) ==> x in f && x !in Chain(f, op.c) && (f[x].parent == null || f[x].parent == op.c)
    ensures forall x :: x in Touched(f, op) ==> x == op.x || (op.Replace? && x == f[op.c].held[op.i])
    ensures op.Replace? ==> f[op.c].held[op.i] in Touched(f, op) && f[op.c].held[op.i] != op.x
  {
    HeldOffChain(f, op.c);
  }

  lemma {:induction false} OnChain(f: Forest, op: Op)
    requires Valid(f) && Allowed(f, op)
    ensures op.c in f
    ensures var g := Perform(f, op);
      && (forall a :: a in Chain(f, op.c) && a != op.c ==>
            g[a] == f[a].(total := f[a].total + Diff(f, op), rank := f[a].rank + Bump(f, op)))
  {
    TouchedOffChain(f, op);
    hide Valid, Chain, Diff, Bump, HeldAfter, Touched, Allowed, Perform;
    var g := Perform(f, op);
    forall a | a in Chain(f, op.c) && a != op.c
      ensures g[a] == f[a].(total := f[a].total + Diff(f, op), rank := f[a].rank + Bump(f, op))
    {
      PerformAt(f, op, a);
    }
  }

  lemma {:induction false} AtContainer(f: Forest, op: Op)
    requires Valid(f) && Allowed(f, op)
    ensures op.c in f
    ensures var g := Perform(f, op);
      g[op.c] == f[op.c].(total := f[op.c].total + Diff(f, op), rank := f[op.c].rank + Bump(f, op), held := HeldAfter(f, op))
  {
    TouchedOffChain(f, op);
    hide Valid, Chain, Diff, Bump, HeldAfter, Touched, Allowed, Perform;
    PerformAt(f, op, op.c);
  }

  lemma {:induction false} OffChain(f: Forest, op: Op)
    requires Valid(f) && Allowed(f, op)
    ensures op.c in f
    ensures var g := Perform(f, op);
      && (forall x :: x in f && x !in Chain(f, op.c) && x !in Touched(f, op) ==> g[x] == f[x])
      && (forall x :: x in Touched(f, op) ==> x in f && g[x] == f[x].(own := g[x].own, parent := g[x].parent))
  {
    TouchedOffChain(f, op);
    hide Valid, Chain, Diff, Bump, HeldAfter, Touched, Allowed, Perform;
    var g := Perform(f, op);
    forall x | x in f && x !in Chain(f, op.c) && x !in Touched(f, op)
      ensures g[x] == f[x]
    {
      PerformAt(f, op, x);
    }
    forall x | x in Touched(f, op)
      ensures g[x] == f[x].(own := g[x].own, parent := g[x].parent)
    {
      PerformAt(f, op, x);
    }
  }

  /** What an operation changes besides its container. */
  lemma {:induction false} PerformChanges(f: Forest, op: Op)
    requires Valid(f) && Allowed(f, op)
    ensures op.c in f && Changed(f, Perform(f, op), op.c, Diff(f, op), Bump(f, op), Touched(f, op))
  {
    TouchedOffChain(f, op);
    OnChain(f, op);
    AtContainer(f, op);
    OffChain(f, op);
    hide Valid, Chain, Diff, Bump, HeldAfter, Touched, Allowed, Perform;
  }

  lemma {:induction false} PerformAt(f: Forest, op: Op, o: Item)
    requires Valid(f) && Allowed(f, op) && o in f
    ensures Perform(f, op)[o] == NewNode(f, op, o)
  {
  }

  lemma {:induction false} PerformMoves(f: Forest, op: Op)
    requires Valid(f) && Allowed(f, op)
    ensures var g := Perform(f, op);
      && g[op.c].held == HeldAfter(f, op)
      && (op.Reweigh? ==> g[op.x] == f[op.x].(own := op.own))
      && (!op.Reweigh? ==> g[op.x] == f[op.x].(parent := if op.Remove? then null else op.c))
      && (op.Replace? ==> g[f[op.c].held[op.i]] == f[f[op.c].held[op.i]].(parent := null))
  {
    TouchedOffChain(f, op);
    hide Valid, Chain, Diff, Bump, HeldAfter, Touched;
    assert Perform(f, op)[op.c] == NewNode(f, op, op.c);
    assert Perform(f, op)[op.x] == NewNode(f, op, op.x);
    if op.Replace? { assert Perform(f, op)[f[op.c].held[op.i]] == NewNode(f, op, f[op.c].held[op.i]); }
  }

  /** What the container held and still holds weighs what it did, except for a reweighed item. */
  lemma {:induction false} HeldWeights(f: Forest, op: Op)
    requires Valid(f) && Allowed(f, op)
    ensures var g := Perform(f, op);
      && op.c in g && op.x in g
      && Weight(g, op.x) == Weight(f, op.x) + (if op.Reweigh? then op.own - f[op.x].own else 0)
      && (forall z :: z in f[op.c].held ==> z in g && z in f && (z != op.x ==> Weight(g, z) == Weight(f, z)))
      && g[op.c].total == f[op.c].total + Diff(f, op) && g[op.c].rank == f[op.c].rank + Bump(f, op)
  {
    HeldOffChain(f, op.c);
    PerformChanges(f, op);
    PerformMoves(f, op);
    hide Valid, Chain, Diff, Bump, HeldAfter, Perform;
    var g := Perform(f, op);
    forall z | z in f[op.c].held && z != op.x
      ensures Weight(g, z) == Weight(f, z)
    {
      if z !in Touched(f, op) { assert g[z] == f[z]; }
    }
  }

  lemma {:induction false} AddWeight(f: Forest, g: Forest, held: seq<Item>, x: Item)
    requires x in g && forall z :: z in held ==> z in f && z in g && Weight(g, z) == Weight(f, z)
    ensures Sum(g, [x] + held) == Weight(g, x) + Sum(f, held)
  {
    SumSame(f, g, held);
    assert ([x] + held)[1..] == held;
  }

  lemma {:induction false} ReplaceWeight(f: Forest, g: Forest, held: seq<Item>, i: nat, x: Item)
    requires i < |held| && Distinct(held) && x in f && x in g && Weight(g, x) == Weight(f, x)
    requires forall z :: z in held ==> z in f && z in g && Weight(g, z) == Weight(f, z)
    ensures Sum(g, held[i := x]) == Sum(f, held) - Weight(f, held[i]) + Weight(f, x)
  {
    assert held[i] in held;
    SumUpdate(g, held, i, x);
    SumSame(f, g, held);
  }

  lemma {:induction false} RemoveWeight(f: Forest, g: Forest, held: seq<Item>, x: Item)
    requires x in held && Distinct(held)
    requires forall z :: z in held ==> z in f && z in g && Weight(g, z) == Weight(f, z)
    ensures Sum(g, Without(held, x)) == Sum(f, held) - Weight(f, x)
  {
    hide Without, Sum, Weight;
    WithoutFacts(g, held, x);
    SumSame(f, g, held);
  }

  /** The cached weight of the container has followed its contents. */
  lemma {:induction false} WeightKept(f: Forest, op: Op)
    requires Valid(f) && Allowed(f, op)
    ensures op.c in f && Sum(Perform(f, op), HeldAfter(f, op)) == f[op.c].total + Diff(f, op)
  {
    var g, held := Perform(f, op), f[op.c].held;
    HeldOffChain(f, op.c);
    HeldWeights(f, op);
    hide Valid, Chain, Perform, Without, Sum, Weight, Distinct;
    match op {
      case Add(c, x) => AddWeight(f, g, held, x);
      case Reweigh(c, x, own) => SumOneMore(f, g, held, x, own - f[x].own);
      case Replace(c, i, x) => ReplaceWeight(f, g, held, i, x);
      case Remove(c, x) => RemoveWeight(f, g, held, x);
    }
  }

  /** The container itself is in order. */
  lemma {:induction false} ContainerKept(f: Forest, op: Op)
    requires Valid(f) && Allowed(f, op)
    ensures var g := Perform(f, op);
      && op.c in g && g[op.c].held == HeldAfter(f, op) && HoldsOk(g, op.c) && Distinct(g[op.c].held)
      && g[op.c].total == Sum(g, g[op.c].held)
  {
    var g := Perform(f, op);
    HeldOffChain(f, op.c);
    HeldWeights(f, op);
    PerformMoves(f, op);
    WeightKept(f, op);
    hide Valid, Chain, Perform, Without, Sum, Diff, HeldAfter, Weight, Distinct, Touched;
    assert Distinct(g[op.c].held) by { StillHeld(f, op); }
    forall z | z in HeldAfter(f, op)
      ensures z in g && g[z].parent == op.c && g[z].rank < g[op.c].rank
    {
      HeldKept(f, op, z);
    }
  }

  lemma {:induction false} HeldKept(f: Forest, op: Op, z: Item)
    requires Valid(f) && Allowed(f, op) && z in HeldAfter(f, op)
    ensures var g := Perform(f, op);
      op.c in f && z in g && g[z].parent == op.c && g[z].rank < f[op.c].rank + Bump(f, op)
  {
    HeldOffChain(f, op.c);
    StillHeld(f, op);
    PerformMoves(f, op);
    if z != op.x {
      assert z in f[op.c].held && z !in Touched(f, op);
      OffChain(f, op);
    }
    hide Valid, Chain, Perform, Without, Sum, Diff, HeldAfter;
  }

  /** The items moved know where they are. */
  lemma {:induction false} ParentsKept(f: Forest, op: Op)
    requires Valid(f) && Allowed(f, op)
    ensures forall x :: x in Touched(f, op) ==> x in f && ParentOk(Perform(f, op), x)
  {
    HeldOffChain(f, op.c);
    PerformMoves(f, op);
    StillHeld(f, op);
    hide Valid, Chain, Perform, Without, Sum, Diff, HeldAfter, Weight, Distinct;
  }

  lemma {:induction false} PerformKeeps(f: Forest, op: Op)
    requires Valid(f) && Allowed(f, op)
    ensures Valid(Perform(f, op))
  {
    var g := Perform(f, op);
    ContainerKept(f, op);
    ParentsKept(f, op);
    PerformChanges(f, op);
    StillHeld(f, op);
    hide Valid, Chain, Perform, Without, Sum, Changed, HeldAfter;
    ChangeKeepsValid(f, g, op.c, Diff(f, op), Bump(f, op), Touched(f, op));
  }

  lemma {:induction false} UpdateFacts(held: seq<Item>, i: nat, x: Item)
    requires i < |held| && Distinct(held) && x !in held
    ensures Distinct(held[i := x])
    ensures forall z :: z in held[i := x] <==> z == x || (z in held && z != held[i])
  {
    var after := held[i := x];
    assert after[i] == x;
    forall z | z in held && z != held[i]
      ensures z in after
    {
      var j :| 0 <= j < |held| && held[j] == z;
      assert after[j] == z;
    }
  }

  lemma {:induction false} ConsFacts(held: seq<Item>, x: Item)
    requires Distinct(held) && x !in held
    ensures Distinct([x] + held) && forall z :: z in [x] + held <==> z == x || z in held
  {
  }

  lemma {:induction false} StillHeld(f: Forest, op: Op)
    requires Valid(f) && Allowed(f, op)
    ensures Distinct(HeldAfter(f, op))
    ensures forall z :: z in HeldAfter(f, op) <==>
      if op.Remove? then z in f[op.c].held && z != op.x
      else z == op.x || (z in f[op.c].held && !(op.Replace? && z == f[op.c].held[op.i]))
  {
    HeldFacts(f, op.c);
    hide Valid, Chain, Without, Sum, Distinct;
    var held := f[op.c].held;
    match op
    case Add(c, x) => ConsFacts(held, x);
    case Reweigh(c, x, own) =>
    case Replace(c, i, x) => UpdateFacts(held, i, x);
    case Remove(c, x) => WithoutFacts(f, held, x);
  }

  ghost predicate AllowedRun(f: Forest, ops: seq<Op>)
    requires Valid(f)
    decreases |ops|
  {
    ops != [] ==>
      Allowed(f, ops[0]) && (PerformKeeps(f, ops[0]); AllowedRun(Perform(f, ops[0]), ops[1..]))
  }

  ghost function Run(f: Forest, ops: seq<Op>): Forest
    requires Valid(f) && AllowedRun(f, ops)
    decreases |ops|
  {
    if ops == [] then f else (PerformKeeps(f, ops[0]); Run(Perform(f, ops[0]), ops[1..]))
  }

  /** After any run of operations every container's cached weight is the recursive weight of its contents. */
  lemma {:induction false} WeightsStayExact(f: Forest, ops: seq<Op>)
    requires Valid(f) && AllowedRun(f, ops)
    ensures Valid(Run(f, ops)) && Run(f, ops).Keys == f.Keys
    ensures forall o :: o in f ==> Weight(Run(f, ops), o) == DeepWeight(Run(f, ops), o)
    decreases |ops|
  {
    if ops == [] {
      forall o | o in f
        ensures Weight(f, o) == DeepWeight(f, o)
      {
        CacheIsExact(f, o);
      }
    } else {
      PerformKeeps(f, ops[0]);
      SameItems(f, ops[0]);
      WeightsStayExact(Perform(f, ops[0]), ops[1..]);
    }
  }

  lemma {:induction false} SameItems(f: Forest, op: Op)
    requires Valid(f) && Allowed(f, op)
    ensures Perform(f, op).Keys == f.Keys
  {
    HeldFacts(f, op.c);
  }

  /** What an operation adds to the cached weights: to those around, and to no others. */
  lemma {:induction false} TotalsAfter(f: Forest, op: Op, o: Item)
    requires Valid(f) && Allowed(f, op) && o in f
    ensures Perform(f, op)[o].total == f[o].total + if o in Chain(f, op.c) then Diff(f, op) else 0
  {
    PerformAt(f, op, o);
    TouchedOffChain(f, op);
    hide Valid, Chain, Diff, Touched, Perform, HeldAfter;
  }

  ghost predicate IsStack(types: Types, item: Item)
    reads item
  {
    item.id in types && types[item.id].stackable && item.count >= 1 && !item.container
  }

  /** A stack put into a container makes all containers around heavier by its count times what one weighs. */
  lemma {:induction false} AddRaises(types: Types, U: set<Item>, c: Item, x: Item)
    requires Valid(Snap(types, U)) && Allowed(Snap(types, U), Add(c, x)) && IsStack(types, x)
    ensures var f := Snap(types, U);
      forall a :: a in Chain(f, c) ==> a in f && Perform(f, Add(c, x))[a].total == a.totalWeight + x.count * types[x.id].weight
  {
    var f, op := Snap(types, U), Add(c, x);
    SnapFields(types, U);
    AddMeans(types, U, c, x);
    StacksAddUp(types, x.id, x.count, 1);
    hide Valid, Chain, Allowed, Perform, Diff, OwnWeight, Snap;
    forall a | a in Chain(f, c)
      ensures a in f && Perform(f, op)[a].total == a.totalWeight + x.count * types[x.id].weight
    {
      TotalsAfter(f, op, a);
    }
  }

  lemma {:induction false} PartWeight(types: Types, id: nat, count: nat, n: nat)
    requires id in types && types[id].stackable && n < count
    ensures OwnWeight(types, id, count - n) == OwnWeight(types, id, count) - n * types[id].weight
  {
    hide OwnWeight;
    var w := types[id].weight;
    StacksAddUp(types, id, count - n, 1);
    StacksAddUp(types, id, count, 1);
    assert (count - n) * w == count * w - n * w;
  }

  lemma {:induction false} CountTaken(count: nat, n: nat)
    requires n <= count < 256
    ensures CountLeft(count, n) == count - n
  {
  }

  /** Taking more than there is leaves none, unless so much more that the 32-bit difference is positive again. */
  lemma {:induction false} CountOverdrawn(count: nat, n: nat)
    requires count < 256 && count < n < 0x1_0000_0000
    ensures CountLeft(count, n) == if n - count <= 0x8000_0000 then 0 else (0x1_0000_0000 + count - n) % 256
  {
  }

  /** Taking `n` of a larger stack makes them lighter by `n` times what one weighs. */
  lemma {:induction false} PartLowers(types: Types, U: set<Item>, c: Item, x: Item, n: nat)
    requires Valid(Snap(types, U)) && IsStack(types, x) && n < x.count
    requires Allowed(Snap(types, U), Reweigh(c, x, OwnWeight(types, x.id, x.count - n)))
    ensures var f, op := Snap(types, U), Reweigh(c, x, OwnWeight(types, x.id, x.count - n));
      forall a :: a in Chain(f, c) ==> a in f && Perform(f, op)[a].total == a.totalWeight - n * types[x.id].weight
  {
    hide Valid, Chain, Allowed, Perform, Diff, OwnWeight, Snap;
    var f, op := Snap(types, U), Reweigh(c, x, OwnWeight(types, x.id, x.count - n));
    SnapFields(types, U);
    ReweighMeans(types, U, c, x, op.own);
    PartWeight(types, x.id, x.count, n);
    forall a | a in Chain(f, c)
      ensures a in f && Perform(f, op)[a].total == a.totalWeight - n * types[x.id].weight
    {
      TotalsAfter(f, op, a);
    }
  }

  // ----- the operations, in place

  lemma {:induction false} PlainWeight(f: Forest, o: Item)
    requires Valid(f) && o in f
    ensures !f[o].container ==> f[o].total == 0
  {
    assert NodeOk(f, o);
  }

  /** The chain of parents from an item on, as the items themselves say. */
  ghost predicate Linked(chain: seq<Item>)
    reads chain`parent
  {
    && chain != [] && Distinct(chain)
    && (forall i :: 0 <= i < |chain| - 1 ==> chain[i].parent == chain[i + 1])
    && chain[|chain| - 1].parent == null
  }

  /** The chain of parents is the one the items themselves link. */
  lemma {:induction false} ChainLinked(types: Types, U: set<Item>, c: Item)
    requires Valid(Snap(types, U)) && c in U
    ensures var chain := Chain(Snap(types, U), c); Linked(chain) && c in chain && forall a :: a in chain ==> a in U
  {
    var f := Snap(types, U);
    var chain := Chain(f, c);
    ChainFacts(f, c);
    hide Valid, Chain;
    forall i | 0 <= i < |chain| - 1
      ensures chain[i].parent == chain[i + 1]
    {
      assert f[chain[i]].parent == chain[i + 1];
    }
  }

  /** A node with another list in `c`, another parent for the items put in and taken out, and another weight
      along a chain. */
  ghost function Rearranged(f: Forest, o: Item, c: Item, held: seq<Item>, put: Item?, out: Item?, diff: int, chain: seq<Item>, bump: nat): Node
    requires o in f
  {
    f[o].(parent := if o == put then c else if o == out then null else f[o].parent,
          held := if o == c then held else f[o].held,
          total := f[o].total + if o in chain then diff else 0,
          rank := f[o].rank + if o in chain then bump else 0)
  }

  lemma {:induction false} SnapFields(types: Types, U: set<Item>)
    ensures var f := Snap(types, U);
      && f.Keys == U
      && forall o :: o in U ==>
        && f[o].parent == o.parent && f[o].held == o.held && f[o].total == o.totalWeight && f[o].rank == o.rank
        && f[o].container == o.container && f[o].own == OwnWeight(types, o.id, o.count)
  {
  }

  /** The items as they are now, against a forest as it was. */
  ghost predicate Moved(types: Types, U: set<Item>, f: Forest, c: Item, held: seq<Item>, put: Item?, out: Item?,
                        diff: int, chain: seq<Item>, bump: nat)
    reads U
  {
    f.Keys == U && forall o :: o in U ==>
      && o.parent == (if o == put then c else if o == out then null else f[o].parent)
      && o.held == (if o == c then held else f[o].held)
      && o.totalWeight == f[o].total + (if o in chain then diff else 0)
      && o.rank == f[o].rank + (if o in chain then bump else 0)
      && o.container == f[o].container && OwnWeight(types, o.id, o.count) == f[o].own
  }

  lemma {:induction false} MovedSnap(types: Types, U: set<Item>, f: Forest, c: Item, held: seq<Item>, put: Item?, out: Item?,
                                     diff: int, chain: seq<Item>, bump: nat)
    requires Moved(types, U, f, c, held, put, out, diff, chain, bump)
    ensures forall o :: o in U ==> Snap(types, U)[o] == Rearranged(f, o, c, held, put, out, diff, chain, bump)
  {
    hide OwnWeight;
  }

  lemma {:induction false} SameNode(f: Forest, op: Op, put: Item?, out: Item?, o: Item)
    requires Valid(f) && Allowed(f, op) && !op.Reweigh? && o in f
    requires put == (if op.Remove? then null else op.x)
    requires out == if op.Add? then null else if op.Remove? then op.x else f[op.c].held[op.i]
    ensures Rearranged(f, o, op.c, HeldAfter(f, op), put, out, Diff(f, op), Chain(f, op.c), Bump(f, op)) == Perform(f, op)[o]
  {
    PerformAt(f, op, o);
    TouchedOffChain(f, op);
    hide Valid, Chain, Diff, Bump, HeldAfter, Touched, Allowed, Perform;
  }

  lemma {:induction false} SameForest(f: Forest, g: Forest, op: Op, put: Item?, out: Item?)
    requires Valid(f) && Allowed(f, op) && !op.Reweigh? && g.Keys == f.Keys
    requires put == (if op.Remove? then null else op.x)
    requires out == if op.Add? then null else if op.Remove? then op.x else f[op.c].held[op.i]
    requires forall o :: o in f ==>
      g[o] == Rearranged(f, o, op.c, HeldAfter(f, op), put, out, Diff(f, op), Chain(f, op.c), Bump(f, op))
    ensures g == Perform(f, op)
  {
    hide *;
    forall o | o in f
      ensures g[o] == Perform(f, op)[o]
    {
      SameNode(f, op, put, out, o);
    }
  }

  lemma {:induction false} AddMeans(types: Types, U: set<Item>, c: Item, x: Item)
    requires Valid(Snap(types, U)) && Allowed(Snap(types, U), Add(c, x))
    ensures var f, op := Snap(types, U), Add(c, x);
      && c in U && x in U && x !in Chain(f, c) && Diff(f, op) == x.GetWeight(types) && HeldAfter(f, op) == [x] + c.held
  {
    PlainWeight(Snap(types, U), x);
  }

  lemma {:induction false} ReweighMeans(types: Types, U: set<Item>, c: Item, x: Item, own: int)
    requires Valid(Snap(types, U)) && Allowed(Snap(types, U), Reweigh(c, x, own))
    ensures var f, op := Snap(types, U), Reweigh(c, x, own);
      && c in U && x in U && x !in Chain(f, c) && Diff(f, op) == own - OwnWeight(types, x.id, x.count) && c.held == f[c].held
  {
    HeldOffChain(Snap(types, U), c);
  }

  lemma {:induction false} ReweighNode(f: Forest, f': Forest, op: Op, o: Item)
    requires Valid(f) && Allowed(f, op) && op.Reweigh? && o in f && f' == f[op.x := f[op.x].(own := op.own)]
    ensures op.c in f
    ensures Rearranged(f', o, op.c, f[op.c].held, null, null, Diff(f, op), Chain(f, op.c), 0) == Perform(f, op)[o]
  {
    PerformAt(f, op, o);
    TouchedOffChain(f, op);
    hide Valid, Chain, Diff, Touched, Allowed, Perform;
  }

  lemma {:induction false} ReweighForest(f: Forest, f': Forest, g: Forest, op: Op, held: seq<Item>, diff: int, chain: seq<Item>)
    requires Valid(f) && Allowed(f, op) && op.Reweigh? && op.c in f && op.x in f && f' == f[op.x := f[op.x].(own := op.own)]
    requires held == f[op.c].held && diff == Diff(f, op) && chain == Chain(f, op.c)
    requires g.Keys == f'.Keys
    requires forall o :: o in f' ==> g[o] == Rearranged(f', o, op.c, held, null, null, diff, chain, 0)
    ensures g == Perform(f, op)
  {
    hide *;
    forall o | o in f
      ensures g[o] == Perform(f, op)[o]
    {
      ReweighNode(f, f', op, o);
    }
  }

  lemma {:induction false} ReplaceMeans(types: Types, U: set<Item>, c: Item, i: nat, x: Item)
    requires Valid(Snap(types, U)) && Allowed(Snap(types, U), Replace(c, i, x))
    ensures var f, op := Snap(types, U), Replace(c, i, x);
      && c in U && x in U && i < |c.held| && c.held[i] in U && c.held[i] != x && x !in Chain(f, c) && c.held[i] !in Chain(f, c)
      && Diff(f, op) == x.GetWeight(types) - c.held[i].GetWeight(types) && HeldAfter(f, op) == c.held[i := x]
      && f[c].held == c.held && Bump(f, op) == x.rank + 1
  {
    var f := Snap(types, U);
    HeldOffChain(f, c);
    PlainWeight(f, x);
    PlainWeight(f, c.held[i]);
  }

  lemma {:induction false} RemoveMeans(types: Types, U: set<Item>, c: Item, x: Item)
    requires Valid(Snap(types, U)) && Allowed(Snap(types, U), Remove(c, x))
    ensures var f, op := Snap(types, U), Remove(c, x);
      && c in U && x in U && x !in Chain(f, c)
      && Diff(f, op) == -x.GetWeight(types) && HeldAfter(f, op) == Without(c.held, x) && Bump(f, op) == 0
  {
    var f := Snap(types, U);
    HeldOffChain(f, c);
    PlainWeight(f, x);
  }

  lemma {:induction false} WithoutAt(s: seq<Item>, i: nat)
    requires i < |s| && s[i] !in s[..i]
    ensures Without(s, s[i]) == s[..i] + s[i + 1..]
  {
    if i > 0 {
      assert s[0] == s[..i][0];
      assert s[1..][..i - 1] == s[..i][1..];
      WithoutAt(s[1..], i - 1);
    }
  }

  datatype ReturnValue = NoError | NotPossible | CannotPickup | ThisIsImpossible | NotEnoughRoom

  const INDEX_WHEREEVER: int := -1

  /** The new count of a partly removed stack: the difference as a 32-bit number, not negative, cut to a byte. */
  function CountLeft(count: nat, removed: nat): nat {
    var m := (count - removed) % TWO_32;
    if m >= 0x8000_0000 then 0 else m % 256
  }

  /** An item; containers hold others, and know the container they are in, if any. */
  class Item {
    const container: bool
    const capacity: nat
    var id: nat
    var count: nat
    var parent: Item?
    var held: seq<Item>
    var totalWeight: int
    ghost var rank: nat  // above the rank of everything held

    function GetWeight(types: Types): int
      reads this
    {
      OwnWeight(types, id, count) + if container then totalWeight else 0
    }

    /** `setID` and what `setSubType` does to the count. */
    method SetKind(types: Types, newId: nat, newCount: nat, ghost chain: seq<Item>, ghost U: set<Item>)
      requires this in U && Linked(chain)
      modifies this`id, this`count
      ensures Linked(chain)
      ensures id == newId && count == newCount
      ensures GetWeight(types) == old(GetWeight(types)) - OwnWeight(types, old(id), old(count)) + OwnWeight(types, newId, newCount)
      ensures Snap(types, U) == old(Snap(types, U))[this := old(Snap(types, U))[this].(own := OwnWeight(types, newId, newCount))]
    {
      id := newId;
      count := newCount;
      hide OwnWeight, Linked;
    }

    /** Passes a change of weight on to every container around. */
    method UpdateItemWeight(diff: int, ghost chain: seq<Item>, ghost bump: nat)
      requires Linked(chain) && chain[0] == this
      modifies chain`totalWeight, chain`rank
      ensures forall a :: a in chain ==> a.totalWeight == old(a.totalWeight) + diff && a.rank == old(a.rank) + bump
      decreases |chain|
    {
      totalWeight := totalWeight + diff;
      rank := rank + bump;
      ghost var rest := chain[1..];
      assert chain == [this] + rest;
      assert forall a :: a in chain <==> a == this || a in rest;
      assert |chain| > 1 ==> chain[0].parent == chain[1];
      if parent != null {
        assert rest != [] && rest[0] == parent && this !in rest;
        parent.UpdateItemWeight(diff, rest, bump);
      }
    }

    /** List, parents of the items put in and taken out, and the weights up the chain. */
    method Rearrange(newHeld: seq<Item>, put: Item?, out: Item?, diff: int, ghost chain: seq<Item>, ghost bump: nat, ghost U: set<Item>)
      requires Linked(chain) && chain[0] == this && this in U && (forall a :: a in chain ==> a in U)
      requires put != null ==> put !in chain && put in U
      requires out != null ==> out !in chain && out in U && out != put
      modifies U`parent, U`held, U`totalWeight, U`rank
      ensures forall o :: o in U ==>
        && o.parent == (if o == put then this else if o == out then null else old(o.parent))
        && o.held == (if o == this then newHeld else old(o.held))
        && o.totalWeight == old(o.totalWeight) + (if o in chain then diff else 0)
        && o.rank == old(o.rank) + (if o in chain then bump else 0)
    {
      hide Linked;
      if put != null { put.parent := this; }
      if out != null { out.parent := null; }
      held := newHeld;
      UpdateItemWeight(diff, chain, bump);
    }

    /** The same, seen as a step of the forest. */
    method RearrangeForest(types: Types, newHeld: seq<Item>, put: Item?, out: Item?, diff: int, ghost chain: seq<Item>, ghost bump: nat,
                           ghost U: set<Item>, ghost f: Forest)
      requires f == Snap(types, U) && Linked(chain) && chain[0] == this && this in U && (forall a :: a in chain ==> a in U)
      requires put != null ==> put !in chain && put in U
      requires out != null ==> out !in chain && out in U && out != put
      modifies U`parent, U`held, U`totalWeight, U`rank
      ensures Snap(types, U).Keys == f.Keys
      ensures forall o :: o in U ==> o.id == old(o.id) && o.count == old(o.count)
      ensures forall o :: o in f ==> Snap(types, U)[o] == Rearranged(f, o, this, newHeld, put, out, diff, chain, bump)
    {
      hide Linked, OwnWeight, Snap;
      SnapFields(types, U);
      Rearrange(newHeld, put, out, diff, chain, bump, U);
      MovedSnap(types, U, f, this, newHeld, put, out, diff, chain, bump);
      SnapFields(types, U);
    }

    /** `__internalAddThing`: to the front of the list. */
    method InternalAddThing(types: Types, item: Item, ghost U: set<Item>)
      requires Valid(Snap(types, U)) && Allowed(Snap(types, U), Add(this, item))
      modifies U`parent, U`held, U`totalWeight, U`rank
      ensures Snap(types, U) == Perform(old(Snap(types, U)), Add(this, item))
      ensures Valid(Snap(types, U)) && held == [item] + old(held) && item.parent == this
      ensures IsStack(types, item) ==>
        forall a :: a in old(Chain(Snap(types, U), this)) ==> a.totalWeight == old(a.totalWeight) + item.count * types[item.id].weight
    {
      ghost var f, op := Snap(types, U), Add(this, item);
      if IsStack(types, item) { AddRaises(types, U, this, item); }
      PerformKeeps(f, op);
      AddMeans(types, U, this, item);
      ChainLinked(types, U, this);
      hide *;
      ghost var chain, bump := Chain(f, this), Bump(f, op);
      var weight, newHeld := item.GetWeight(types), [item] + held;
      assert weight == Diff(f, op) && newHeld == HeldAfter(f, op);
      RearrangeForest(types, newHeld, item, null, weight, chain, bump, U, f);
      SameForest(f, Snap(types, U), op, item, null);
      SnapFields(types, U);
    }

    /** `__addThing`: nothing beyond the capacity, otherwise to the front of the list. */
    method AddThing(types: Types, index: int, item: Item, ghost U: set<Item>)
      requires Valid(Snap(types, U)) && Allowed(Snap(types, U), Add(this, item))
      modifies U`parent, U`held, U`totalWeight, U`rank
      ensures Snap(types, U) == if index >= capacity then old(Snap(types, U)) else Perform(old(Snap(types, U)), Add(this, item))
      ensures Valid(Snap(types, U))
      ensures index < capacity ==> held == [item] + old(held) && item.parent == this
      ensures index < capacity && IsStack(types, item) ==>
        forall a :: a in old(Chain(Snap(types, U), this)) ==> a.totalWeight == old(a.totalWeight) + item.count * types[item.id].weight
    {
      if index >= capacity { return; }
      InternalAddThing(types, item, U);
    }

    /** `__getIndexOfThing` */
    method GetIndexOfThing(item: Item) returns (index: int)
      ensures item in held ==> 0 <= index < |held| && held[index] == item && item !in held[..index]
      ensures item !in held ==> index == -1
    {
      for i := 0 to |held|
        invariant item !in held[..i]
      {
        if held[i] == item { return i; }
      }
      return -1;
    }

    /** New type and count for an item held here; the difference in weight goes up the chain. */
    method Reweight(types: Types, item: Item, newId: nat, newCount: nat, ghost U: set<Item>)
      requires Valid(Snap(types, U)) && Allowed(Snap(types, U), Reweigh(this, item, OwnWeight(types, newId, newCount)))
      modifies U`parent, U`held, U`totalWeight, U`rank, item`id, item`count
      ensures Snap(types, U) == Perform(old(Snap(types, U)), Reweigh(this, item, OwnWeight(types, newId, newCount)))
      ensures Valid(Snap(types, U)) && item.id == newId && item.count == newCount
    {
      ghost var f, op := Snap(types, U), Reweigh(this, item, OwnWeight(types, newId, newCount));
      PerformKeeps(f, op);
      ReweighMeans(types, U, this, item, op.own);
      ChainLinked(types, U, this);
      ghost var chain := Chain(f, this);
      hide *;
      var oldWeight := item.GetWeight(types);
      item.SetKind(types, newId, newCount, chain, U);
      var diff := item.GetWeight(types) - oldWeight;
      assert diff == Diff(f, op);
      ghost var f' := Snap(types, U);
      var sameHeld := held;
      assert f' == f[op.x := f[op.x].(own := op.own)];
      assert sameHeld == f[op.c].held;
      assert diff == Diff(f, op) && chain == Chain(f, op.c);
      RearrangeForest(types, sameHeld, null, null, diff, chain, 0, U, f');
      ghost var g := Snap(types, U);
      assert g.Keys == f'.Keys;
      assert forall o :: o in f' ==> g[o] == Rearranged(f', o, op.c, sameHeld, null, null, diff, chain, 0);
      ReweighForest(f, f', g, op, sameHeld, diff, chain);
    }

    /** `__updateThing`: an item held here gets another type and sub type; a count is kept in one byte. */
    method UpdateThing(types: Types, item: Item, itemId: nat, n: nat, ghost U: set<Item>)
      requires Valid(Snap(types, U)) && this in U && item in U && container
      modifies U`parent, U`held, U`totalWeight, U`rank, item`id, item`count
      ensures Valid(Snap(types, U))
      ensures item !in old(held) ==> Snap(types, U) == old(Snap(types, U)) && item.id == old(item.id) && item.count == old(item.count)
      ensures item in old(held) ==>
        && item.id == itemId && item.count == (if itemId in types && !types[itemId].counted then old(item.count) else n % 256)
        && Snap(types, U) == Perform(old(Snap(types, U)), Reweigh(this, item, OwnWeight(types, itemId, item.count)))
    {
      var index := GetIndexOfThing(item);
      if index == -1 { return; }
      hide Valid, Perform, OwnWeight;
      Reweight(types, item, itemId, if itemId in types && !types[itemId].counted then item.count else n % 256, U);
    }

    /** `__replaceThing`: item `index` makes room for another. */
    method ReplaceThing(types: Types, index: nat, item: Item, ghost U: set<Item>)
      requires Valid(Snap(types, U)) && this in U
      requires index < |held| ==> Allowed(Snap(types, U), Replace(this, index, item))
      modifies U`parent, U`held, U`totalWeight, U`rank
      ensures Valid(Snap(types, U))
      ensures Snap(types, U) ==
        if index < |old(held)| then Perform(old(Snap(types, U)), Replace(this, index, item)) else old(Snap(types, U))
      ensures index < |old(held)| ==>
        held == old(held)[index := item] && item.parent == this && old(held)[index].parent == null
    {
      var i := 0;
      while i < |held| && i != index
        invariant i <= |held| && i <= index
      {
        i := i + 1;
      }
      if i < |held| { Exchange(types, i, item, U); }
    }

    method Exchange(types: Types, i: nat, item: Item, ghost U: set<Item>)
      requires Valid(Snap(types, U)) && this in U && Allowed(Snap(types, U), Replace(this, i, item))
      modifies U`parent, U`held, U`totalWeight, U`rank
      ensures Valid(Snap(types, U))
      ensures Snap(types, U) == Perform(old(Snap(types, U)), Replace(this, i, item))
      ensures i < |old(held)| && held == old(held)[i := item] && item.parent == this && old(held)[i].parent == null
    {
      ghost var f, op := Snap(types, U), Replace(this, i, item);
      PerformKeeps(f, op);
      ReplaceMeans(types, U, this, i, item);
      ChainLinked(types, U, this);
      hide *;
      ghost var chain, bump := Chain(f, this), Bump(f, op);
      var out := held[i];
      var diff, newHeld := item.GetWeight(types) - out.GetWeight(types), held[i := item];
      assert diff == Diff(f, op) && newHeld == HeldAfter(f, op);
      RearrangeForest(types, newHeld, item, out, diff, chain, bump, U, f);
      SameForest(f, Snap(types, U), op, item, out);
      SnapFields(types, U);
    }

    /** `__removeThing`: part of a stack, or an item altogether. */
    method RemoveThing(types: Types, item: Item, n: nat, ghost U: set<Item>)
      requires Valid(Snap(types, U)) && this in U && item in U && container
      modifies U`parent, U`held, U`totalWeight, U`rank, item`id, item`count
      ensures Valid(Snap(types, U)) && item.id == old(item.id)
      ensures item !in old(held) ==> Snap(types, U) == old(Snap(types, U)) && item.count == old(item.count)
      ensures item in old(held) ==>
        var partly := item.id in types && types[item.id].stackable && n != old(item.count);
        && item.count == (if partly then CountLeft(old(item.count), n) else old(item.count))
        && Snap(types, U) == Perform(old(Snap(types, U)),
             if partly then Reweigh(this, item, OwnWeight(types, item.id, item.count)) else Remove(this, item))
      ensures item in old(held) && old(IsStack(types, item)) && n < old(item.count) < 256 ==>
        && item.count == old(item.count) - n
        && forall a :: a in old(Chain(Snap(types, U), this)) ==> a.totalWeight == old(a.totalWeight) - n * types[item.id].weight
      ensures item in old(held) && !(item.id in types && types[item.id].stackable && n != old(item.count)) ==>
        && item.parent == null
        && exists i: nat :: i < |old(held)| && old(held)[i] == item && held == old(held)[..i] + old(held)[i + 1..]
    {
      var index := GetIndexOfThing(item);
      if index == -1 { return; }
      hide Valid, Perform, OwnWeight, CountLeft, Snap, Chain, IsStack;
      if item.id in types && types[item.id].stackable && n != item.count {
        TakePart(types, item, n, U);
      } else {
        TakeOut(types, item, index, U);
      }
    }

    /** The branch for part of a stack. */
    method TakePart(types: Types, item: Item, n: nat, ghost U: set<Item>)
      requires Valid(Snap(types, U)) && Allowed(Snap(types, U), Reweigh(this, item, OwnWeight(types, item.id, CountLeft(item.count, n))))
      modifies U`parent, U`held, U`totalWeight, U`rank, item`id, item`count
      ensures Valid(Snap(types, U)) && item.id == old(item.id) && item.count == CountLeft(old(item.count), n)
      ensures Snap(types, U) == Perform(old(Snap(types, U)), Reweigh(this, item, OwnWeight(types, item.id, item.count)))
      ensures old(IsStack(types, item)) && n < old(item.count) < 256 ==>
        && item.count == old(item.count) - n
        && forall a :: a in old(Chain(Snap(types, U), this)) ==> a.totalWeight == old(a.totalWeight) - n * types[item.id].weight
    {
      hide *;
      var newCount := CountLeft(item.count, n);
      if IsStack(types, item) && n < item.count < 256 {
        CountTaken(item.count, n);
        PartLowers(types, U, this, item, n);
      }
      Reweight(types, item, item.id, newCount, U);
      SnapFields(types, U);
    }

    method TakeOut(types: Types, item: Item, index: nat, ghost U: set<Item>)
      requires Valid(Snap(types, U)) && this in U && Allowed(Snap(types, U), Remove(this, item))
      requires index < |held| && held[index] == item && item !in held[..index]
      modifies U`parent, U`held, U`totalWeight, U`rank
      ensures Valid(Snap(types, U))
      ensures Snap(types, U) == Perform(old(Snap(types, U)), Remove(this, item))
      ensures held == old(held)[..index] + old(held)[index + 1..] && item.parent == null
      ensures item.id == old(item.id) && item.count == old(item.count)
    {
      ghost var f, op := Snap(types, U), Remove(this, item);
      PerformKeeps(f, op);
      RemoveMeans(types, U, this, item);
      ChainLinked(types, U, this);
      WithoutAt(held, index);
      hide *;
      ghost var chain := Chain(f, this);
      var diff, newHeld := -item.GetWeight(types), held[..index] + held[index + 1..];
      assert diff == Diff(f, op) && newHeld == HeldAfter(f, op);
      RearrangeForest(types, newHeld, null, item, diff, chain, 0, U, f);
      SameForest(f, Snap(types, U), op, null, item);
      SnapFields(types, U);
    }

    /** The walk up the parents: whether the item is one of the containers around this one. */
    method IsAround(item: Item, ghost chain: seq<Item>) returns (found: bool)
      requires Linked(chain) && chain[0] == this
      ensures found <==> item in chain[1..]
    {
      ghost var i: nat := 0;
      LinkStep(chain, 0);
      hide Linked;
      var cylinder := parent;
      while cylinder != null
        invariant Linked(chain) && i < |chain| && item !in chain[1..i + 1] && cylinder == chain[i].parent
        invariant if cylinder == null then i + 1 == |chain| else i + 1 < |chain| && chain[i + 1] == cylinder
        decreases |chain| - i
      {
        assert chain[1..i + 2] == chain[1..i + 1] + [cylinder];
        if cylinder == item {
          assert item == chain[1..][i];
          return true;
        }
        i := i + 1;
        LinkStep(chain, i);
        cylinder := cylinder.parent;
      }
      assert chain[1..i + 1] == chain[1..];
      found := false;
    }

    /** `__queryAdd`, where nothing but containers is around: nothing may be put into itself or into what it
        contains, so that an item in no container may be added whenever the answer is no error. */
    method QueryAdd(types: Types, index: int, item: Item, noLimit: bool, childIsOwner: bool, ghost U: set<Item>) returns (r: ReturnValue)
      requires Valid(Snap(types, U)) && this in U && item in U && container
      ensures r ==
        if item.id == 2222 then NotPossible
        else if childIsOwner then NoError
        else if item.id !in types || !types[item.id].pickupable then CannotPickup
        else if item in Chain(Snap(types, U), this) then ThisIsImpossible
        else if index == -1 && !noLimit && |held| >= capacity then NotEnoughRoom
        else NoError
      ensures r == NoError && !childIsOwner && item.parent == null ==> Allowed(Snap(types, U), Add(this, item))
    {
      if item.id == BACKPACK_ID { return NotPossible; }
      if childIsOwner { return NoError; }
      if item.id !in types || !types[item.id].pickupable { return CannotPickup; }
      if item == this { return ThisIsImpossible; }
      ChainLinked(types, U, this);
      ghost var chain := Chain(Snap(types, U), this);
      hide Valid, Chain, Snap;
      var around := IsAround(item, chain);
      if around { return ThisIsImpossible; }
      assert item !in [this] + chain[1..] && chain == [this] + chain[1..];
      if index == INDEX_WHEREEVER && !noLimit && |held| >= capacity {
        return NotEnoughRoom;
      }
      return NoError;
    }
  }
}
