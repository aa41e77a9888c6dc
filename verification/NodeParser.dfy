/** The recursive parser of the node-tree format and its property reader (font/fileloader.cpp). */
module NodeParser {
  import opened BlockCache
  import opened Bytes
  import opened NodeFile
  import opened NodeGrammar

  /** A node in first-child, next-sibling form. `kids` lists the children behind `child`. */
  class NodeStruct {
    var start: nat
    var propsSize: nat
    var typ: nat
    var next: NodeStruct?
    var child: NodeStruct?
    ghost var kids: seq<NodeStruct>

    constructor (at: nat)
      ensures start == at && propsSize == 0 && typ == 0 && next == null && child == null && kids == []
    {
      start, propsSize, typ, next, child, kids := at, 0, 0, null, null, [];
    }
  }

  // ----- what parsing should give

  ghost predicate HasAt(file: seq<byte>, p: nat, bytes: seq<byte>) {
    p + |bytes| <= |file| && file[p..p + |bytes|] == bytes
  }

  ghost function PropsEnd(t: Tree, p: nat): nat { p + 2 + |Escape(t.props)| }

  ghost function ChildPos(ts: seq<Tree>, p: nat, i: nat): nat
    requires i <= |ts|
  {
    p + |EncodeAll(ts[..i])|
  }

  /** Siblings in a row, all within `S`. */
  ghost predicate Linked(S: set<NodeStruct>, nodes: seq<NodeStruct>)
    reads S`next
  {
    forall i {:trigger nodes[i]} :: 0 <= i < |nodes| ==>
      nodes[i] in S && nodes[i].next == if i + 1 < |nodes| then nodes[i + 1] else null
  }

  /** Node `n`, with what hangs below it, all within `S`, describes tree `t` encoded at `p`. The link from
      `n` to its own next sibling does not matter here. */
  ghost predicate Describes(S: set<NodeStruct>, n: NodeStruct, t: Tree, p: nat)
    reads S`start, S`propsSize, S`typ, S`child, S`kids, (S - {n})`next
    decreases t
  {
    && n in S && n.start == p && n.typ == t.typ && n.propsSize == |Escape(t.props)|
    && |n.kids| == |t.children|
    && n.child == (if n.kids == [] then null else n.kids[0])
    && Linked(S - {n}, n.kids)
    && (forall i :: 0 <= i < |t.children| ==>
          Describes(S - {n}, n.kids[i], t.children[i], ChildPos(t.children, PropsEnd(t, p), i)))
  }

  ghost predicate DescribesAll(S: set<NodeStruct>, nodes: seq<NodeStruct>, ts: seq<Tree>, p: nat)
    reads S
  {
    && |nodes| == |ts|
    && forall i :: 0 <= i < |ts| ==> Describes(S, nodes[i], ts[i], ChildPos(ts, p, i))
  }

  lemma {:induction false} Widen(S: set<NodeStruct>, S': set<NodeStruct>, n: NodeStruct, t: Tree, p: nat)
    requires S <= S' && Describes(S, n, t, p)
    ensures Describes(S', n, t, p)
    decreases t
  {
    forall i | 0 <= i < |t.children|
      ensures Describes(S' - {n}, n.kids[i], t.children[i], ChildPos(t.children, PropsEnd(t, p), i))
    {
      Widen(S - {n}, S' - {n}, n.kids[i], t.children[i], ChildPos(t.children, PropsEnd(t, p), i));
    }
  }

  /** The trees `ts` are encoded at `p`, followed by the end of the file or of the parent node. */
  ghost predicate Encoded(file: seq<byte>, ts: seq<Tree>, p: nat) {
    && ts != [] && HasAt(file, p, EncodeAll(ts)) && (forall t :: t in ts ==> PlainTypes(t))
    && (p + |EncodeAll(ts)| < |file| ==> file[p + |EncodeAll(ts)|] == NODE_END)
  }

  /** What one inner loop of the parser consumes: a node from its type byte to its end byte. */
  ghost predicate EncodedNode(file: seq<byte>, t: Tree, p: nat) {
    HasAt(file, p, Encode(t)) && PlainTypes(t)
  }

  // ----- reading the layout off the file

  lemma {:induction false} HasAtSplit(file: seq<byte>, p: nat, a: seq<byte>, b: seq<byte>)
    requires HasAt(file, p, a + b)
    ensures HasAt(file, p, a) && HasAt(file, p + |a|, b)
  {
    var all := file[p..p + |a + b|];
    assert a == all[..|a|] == file[p..p + |a|];
    assert b == all[|a|..] == file[p + |a|..p + |a| + |b|];
  }

  lemma {:induction false} HasAtByte(file: seq<byte>, p: nat, bytes: seq<byte>, i: nat)
    requires HasAt(file, p, bytes) && i < |bytes|
    ensures p + i < |file| && file[p + i] == bytes[i]
  {
    assert file[p..p + |bytes|][i] == file[p + i];
  }

  /** Where the parts of an encoded node lie. */
  lemma {:induction false} NodeLayout(file: seq<byte>, t: Tree, p: nat)
    requires EncodedNode(file, t, p)
    ensures p + 1 < |file| && file[p] == NODE_START && file[p + 1] == t.typ
    ensures HasAt(file, p + 2, Escape(t.props)) && HasAt(file, PropsEnd(t, p), EncodeAll(t.children))
    ensures var e := PropsEnd(t, p) + |EncodeAll(t.children)|;
      e < |file| && file[e] == NODE_END && e + 1 == p + |Encode(t)|
    ensures forall c :: c in t.children ==> PlainTypes(c)
  {
    hide Escape, EncodeAll;
    PlainTypeLayout(t);
    var rest := EncodeAll(t.children) + [NODE_END];
    Assoc(EncodeHead(t), EncodeAll(t.children), [NODE_END]);
    HasAtSplit(file, p, EncodeHead(t), rest);
    HasAtSplit(file, p, [NODE_START, t.typ], Escape(t.props));
    HasAtByte(file, p, [NODE_START, t.typ], 0);
    HasAtByte(file, p, [NODE_START, t.typ], 1);
    HasAtSplit(file, PropsEnd(t, p), EncodeAll(t.children), [NODE_END]);
    HasAtByte(file, PropsEnd(t, p) + |EncodeAll(t.children)|, [NODE_END], 0);
  }

  /** The `i`-th of several encoded trees, and what follows it. */
  lemma {:induction false} SiblingLayout(file: seq<byte>, ts: seq<Tree>, p: nat, i: nat)
    requires HasAt(file, p, EncodeAll(ts)) && i < |ts|
    ensures HasAt(file, ChildPos(ts, p, i), Encode(ts[i]))
    ensures ChildPos(ts, p, i) + |Encode(ts[i])| == ChildPos(ts, p, i + 1)
    ensures ChildPos(ts, p, |ts|) == p + |EncodeAll(ts)| && ChildPos(ts, p, 0) == p
  {
    hide Encode;
    assert ts[..i + 1] == ts[..i] + [ts[i]] && ts[..|ts|] == ts && ts[..0] == [];
    EncodeAllSnoc(ts[..i], ts[i]);
    EncodeAllSplit(ts, i);
    Assoc(EncodeAll(ts[..i]), Encode(ts[i]), EncodeAll(ts[i + 1..]));
    HasAtSplit(file, p, EncodeAll(ts[..i]), Encode(ts[i]) + EncodeAll(ts[i + 1..]));
    HasAtSplit(file, ChildPos(ts, p, i), Encode(ts[i]), EncodeAll(ts[i + 1..]));
  }

  lemma {:induction false} EncodeAllSplit(ts: seq<Tree>, i: nat)
    requires i < |ts|
    ensures EncodeAll(ts) == EncodeAll(ts[..i]) + (Encode(ts[i]) + EncodeAll(ts[i + 1..]))
  {
    hide Encode;
    if i == 0 {
      assert ts[..0] == [] && EncodeAll([]) == [];
    } else {
      EncodeAllSplit(ts[1..], i - 1);
      assert ts[1..][..i - 1] == ts[..i][1..] && ts[1..][i - 1 + 1..] == ts[i + 1..];
      Assoc(Encode(ts[0]), EncodeAll(ts[..i][1..]), Encode(ts[i]) + EncodeAll(ts[i + 1..]));
    }
  }

  /** The first unread byte of escaped properties: special exactly when an escape byte announces it. */
  lemma {:induction false} EscapedByte(file: seq<byte>, p: nat, props: seq<byte>)
    requires props != [] && HasAt(file, p, Escape(props))
    ensures HasAt(file, p + |EscapeByte(props[0])|, Escape(props[1..]))
    ensures p < |file| && if Special(props[0]) then file[p] == ESCAPE_CHAR && p + 1 < |file| else file[p] == props[0]
    ensures |Escape(props)| == |EscapeByte(props[0])| + |Escape(props[1..])|
  {
    HasAtSplit(file, p, EscapeByte(props[0]), Escape(props[1..]));
    HasAtByte(file, p, EscapeByte(props[0]), 0);
    if Special(props[0]) { HasAtByte(file, p, EscapeByte(props[0]), 1); }
  }

  // ----- the parser

  /** What a successful parse of `ts` at `p` leaves behind. */
  ghost predicate Parsed(S: set<NodeStruct>, nodes: seq<NodeStruct>, ts: seq<Tree>, p: nat)
    reads S
  {
    DescribesAll(S, nodes, ts, p) && Linked(S, nodes)
  }

  /** How far the inner loop has come in the node encoded at `p`: `pos` is the next byte, `m` properties
      are behind it, and `done` says that the children are too. */
  ghost predicate Cursor(file: seq<byte>, t: Tree, p: nat, pos: nat, m: nat, done: bool) {
    && EncodedNode(file, t, p)
    && if done then pos == PropsEnd(t, p) + |EncodeAll(t.children)|
       else
         && m <= |t.props| && HasAt(file, pos, Escape(t.props[m..]))
         && pos + |Escape(t.props[m..])| == PropsEnd(t, p)
  }

  lemma {:induction false} CursorStart(file: seq<byte>, t: Tree, p: nat)
    requires EncodedNode(file, t, p)
    ensures p + 1 < |file| && file[p + 1] == t.typ && Cursor(file, t, p, p + 2, 0, false)
  {
    NodeLayout(file, t, p);
    assert t.props[0..] == t.props;
  }

  /** Inside the properties: no bare special byte, and where the loop stands after the next byte. */
  lemma {:induction false} CursorProp(file: seq<byte>, t: Tree, p: nat, pos: nat, m: nat)
    requires Cursor(file, t, p, pos, m, false) && m < |t.props|
    ensures pos < |file| && file[pos] != NODE_START && file[pos] != NODE_END
    ensures file[pos] == ESCAPE_CHAR ==> pos + 1 < |file| && Cursor(file, t, p, pos + 2, m + 1, false)
    ensures file[pos] != ESCAPE_CHAR ==> Cursor(file, t, p, pos + 1, m + 1, false)
  {
    EscapedByte(file, pos, t.props[m..]);
    assert t.props[m..][1..] == t.props[m + 1..];
  }

  /** After the properties: the first child or the end byte. */
  lemma {:induction false} CursorEnd(file: seq<byte>, t: Tree, p: nat, pos: nat)
    requires Cursor(file, t, p, pos, |t.props|, false)
    ensures pos < |file| && pos == PropsEnd(t, p)
    ensures t.children == [] ==> file[pos] == NODE_END && pos + 1 == p + |Encode(t)|
    ensures t.children != [] ==> file[pos] == NODE_START && Encoded(file, t.children, pos)
    ensures Cursor(file, t, p, pos + |EncodeAll(t.children)|, |t.props|, true)
  {
    hide Encode;
    NodeLayout(file, t, p);
    assert t.props[|t.props|..] == [];
    if t.children != [] {
      SiblingLayout(file, t.children, pos, 0);
      assert PlainTypes(t.children[0]);
      NodeLayout(file, t.children[0], pos);
    }
  }

  /** After the children: the end byte. */
  lemma {:induction false} CursorDone(file: seq<byte>, t: Tree, p: nat, pos: nat, m: nat)
    requires Cursor(file, t, p, pos, m, true)
    ensures pos < |file| && file[pos] == NODE_END && pos + 1 == p + |Encode(t)|
  {
    NodeLayout(file, t, p);
  }

  lemma {:induction false} CursorByte(file: seq<byte>, t: Tree, p: nat, pos: nat, m: nat, done: bool)
    requires Cursor(file, t, p, pos, m, done)
    ensures pos < |file| && (!done ==> m <= |t.props|)
    ensures done ==> file[pos] == NODE_END && pos + 1 == p + |Encode(t)|
    ensures !done && m < |t.props| ==>
      && file[pos] != NODE_START && file[pos] != NODE_END
      && (file[pos] == ESCAPE_CHAR ==> pos + 1 < |file| && Cursor(file, t, p, pos + 2, m + 1, false))
      && (file[pos] != ESCAPE_CHAR ==> Cursor(file, t, p, pos + 1, m + 1, false))
    ensures !done && m == |t.props| ==>
      && pos == PropsEnd(t, p)
      && (t.children == [] ==> file[pos] == NODE_END && pos + 1 == p + |Encode(t)|)
      && (t.children != [] ==> file[pos] == NODE_START && Encoded(file, t.children, pos))
      && Cursor(file, t, p, pos + |EncodeAll(t.children)|, m, true)
  {
    assert !done ==> m <= |t.props|;
    hide *;
    if done {
      CursorDone(file, t, p, pos, m);
    } else if m < |t.props| {
      CursorProp(file, t, p, pos, m);
    } else {
      CursorEnd(file, t, p, pos);
    }
  }

  /** A node whose fields and children are in place describes its tree. */
  lemma {:induction false} Assemble(S: set<NodeStruct>, node: NodeStruct, t: Tree, p: nat)
    requires node in S && node.start == p && node.typ == t.typ && node.propsSize == |Escape(t.props)|
    requires Parsed(S - {node}, node.kids, t.children, PropsEnd(t, p))
    requires node.child == if node.kids == [] then null else node.kids[0]
    ensures Describes(S, node, t, p)
  {
  }

  lemma {:induction false} BodyStarts(b: seq<byte>, pos: nat)
    ensures BodyEnd(b, pos) == if pos < |b| then Inside(b, pos + 1) else -1
  {
  }

  lemma {:induction false} InsideNext(b: seq<byte>, pos: nat)
    ensures pos >= |b| ==> Inside(b, pos) == -1
    ensures pos < |b| && b[pos] == NODE_START ==>
      Inside(b, pos) == if SiblingsEnd(b, pos + 1) == -1 then -1 else Inside(b, SiblingsEnd(b, pos + 1))
    ensures pos < |b| && b[pos] == NODE_END ==> Inside(b, pos) == pos + 1
    ensures pos < |b| && b[pos] == ESCAPE_CHAR ==> Inside(b, pos) == if pos + 1 < |b| then Inside(b, pos + 2) else -1
    ensures pos < |b| && b[pos] != NODE_START && b[pos] != NODE_END && b[pos] != ESCAPE_CHAR ==> Inside(b, pos) == Inside(b, pos + 1)
  {
  }

  lemma {:induction false} SiblingsStep(b: seq<byte>, pos: nat)
    ensures var e := BodyEnd(b, pos);
      SiblingsEnd(b, pos) ==
        if e == -1 || e == |b| then e
        else if b[e] == NODE_START then SiblingsEnd(b, e + 1)
        else if b[e] == NODE_END then e
        else -1
  {
  }

  /** The inner loop of `parseNode` at `pos` in a node that encodes `t`: `m` properties are behind it, and
      when `done` the children are too and hang below the node. */
  ghost predicate BodyState(file: seq<byte>, S: set<NodeStruct>, node: NodeStruct, t: Tree, pos: nat, m: nat, done: bool)
    reads S, node
  {
    && node in S && node.typ == t.typ && Cursor(file, t, node.start, pos, m, done)
    && if done then
         && node.propsSize == |Escape(t.props)| && Parsed(S - {node}, node.kids, t.children, PropsEnd(t, node.start))
         && node.kids != [] && node.child == node.kids[0]
       else node.kids == [] && node.child == null
  }

  ghost predicate ChildrenAhead(file: seq<byte>, p: nat, t: Tree, pos: nat, m: nat) {
    && Encoded(file, t.children, pos) && pos == PropsEnd(t, p)
    && Cursor(file, t, p, pos + |EncodeAll(t.children)|, m, true)
  }

  lemma {:induction false} ChildrenDone(file: seq<byte>, S: set<NodeStruct>, node: NodeStruct, t: Tree, pos: nat, m: nat)
    requires ChildrenAhead(file, node.start, t, pos, m) && node in S && node.typ == t.typ
    requires node.propsSize == pos - node.start - 2 && Parsed(S - {node}, node.kids, t.children, pos)
    requires node.kids != [] && node.child == node.kids[0]
    ensures BodyState(file, S, node, t, pos + |EncodeAll(t.children)|, m, true)
  {
    hide Cursor, Encoded, EncodeAll, Parsed, Escape;
  }

  /** A node without children. */
  lemma {:induction false} Leaf(S: set<NodeStruct>, node: NodeStruct, t: Tree)
    requires node in S && node.typ == t.typ && node.propsSize == |Escape(t.props)|
    requires t.children == [] && node.kids == [] && node.child == null
    ensures Describes(S, node, t, node.start)
  {
    hide Escape;
    Assemble(S, node, t, node.start);
  }

  lemma {:induction false} BodyBegins(file: seq<byte>, S: set<NodeStruct>, node: NodeStruct, t: Tree)
    requires Cursor(file, t, node.start, node.start + 2, 0, false)
    requires node in S && node.typ == t.typ && node.kids == [] && node.child == null
    ensures BodyState(file, S, node, t, node.start + 2, 0, false)
  {
  }

  /** What the next byte is, and where it leads. */
  lemma {:induction false} BodyByte(file: seq<byte>, S: set<NodeStruct>, node: NodeStruct, t: Tree, pos: nat, m: nat, done: bool)
    requires BodyState(file, S, node, t, pos, m, done)
    ensures pos < |file| && node.typ == t.typ
    ensures file[pos] == NODE_START ==> ChildrenAhead(file, node.start, t, pos, m)
    ensures file[pos] == NODE_END ==>
      && pos + 1 == node.start + |Encode(t)|
      && if done then Describes(S, node, t, node.start)
         else t.children == [] && pos == node.start + 2 + |Escape(t.props)| && node.kids == [] && node.child == null
    ensures file[pos] == ESCAPE_CHAR ==> !done && pos + 1 < |file| && BodyState(file, S, node, t, pos + 2, m + 1, false)
    ensures file[pos] != NODE_START && file[pos] != NODE_END && file[pos] != ESCAPE_CHAR ==>
      !done && BodyState(file, S, node, t, pos + 1, m + 1, false)
  {
    CursorByte(file, t, node.start, pos, m, done);
    hide Cursor, Encoded, Encode, Describes, Parsed, Escape;
    if done && file[pos] == NODE_END { Assemble(S, node, t, node.start); }
  }

  /** The first child of a node is met: the size of the properties is known, and the children are parsed
      in turn. */
  method ParseChildren(r: FileReader, node: NodeStruct, ghost t: Tree, ghost m: nat) returns (ok: bool, ghost S: set<NodeStruct>)
    requires r.Valid() && r.Positioned() && node.start + 3 <= r.Pos() <= |r.file|
    modifies r, r.cached, node`propsSize, node`child, node`kids
    ensures r.Valid() && (ok ==> r.Positioned() && old(r.Pos()) <= r.Pos() <= |r.file|)
    ensures node in S && fresh(S - {node}) && node.propsSize == old(r.Pos()) - node.start - 3
    ensures if ok then r.Pos() == SiblingsEnd(r.file, old(r.Pos())) else SiblingsEnd(r.file, old(r.Pos())) == -1
    ensures node.typ == t.typ && ChildrenAhead(r.file, node.start, t, old(r.Pos()) - 1, m) ==>
      ok && BodyState(r.file, S, node, t, r.Pos(), m, true)
    decreases |r.file| - r.Pos(), 2
  {
    hide *;
    ghost var q := r.Pos() - 1;
    ghost var wf := node.typ == t.typ && ChildrenAhead(r.file, node.start, t, q, m);
    if wf { ChildrenStart(r.file, node.start, t, q, m); }
    var told, pos := r.SafeTell();
    var childNode := new NodeStruct(pos);
    node.propsSize := pos - node.start - 2;
    node.child := childNode;
    ghost var kids, inner;
    ok, kids, inner := ParseNode(r, childNode, t.children);
    node.kids, S := kids, {node} + inner;
    assert S - {node} == inner;
    if wf { ChildrenDone(r.file, S, node, t, q, m); }
  }

  lemma {:induction false} ChildrenStart(file: seq<byte>, p: nat, t: Tree, pos: nat, m: nat)
    requires ChildrenAhead(file, p, t, pos, m)
    ensures Encoded(file, t.children, pos)
  {
  }

  /** One node up to and including its end byte: the inner loop of `parseNode`. */
  method ParseBody(r: FileReader, node: NodeStruct, ghost t: Tree) returns (ok: bool, ghost S: set<NodeStruct>)
    requires r.Valid() && r.Positioned() && r.Pos() == node.start + 1 <= |r.file|
    requires node.child == null
    modifies r, r.cached, node`typ, node`propsSize, node`child, node`kids
    ensures r.Valid() && (ok ==> r.Positioned() && old(r.Pos()) < r.Pos() <= |r.file|)
    ensures node in S && fresh(S - {node})
    ensures if ok then r.Pos() == BodyEnd(r.file, node.start + 1) else BodyEnd(r.file, node.start + 1) == -1
    ensures EncodedNode(r.file, t, node.start) ==>
      ok && r.Pos() == node.start + |Encode(t)| && Describes(S, node, t, node.start)
    decreases |r.file| - r.Pos(), 0
  {
    hide *;
    S := {node};
    ghost var p := node.start;
    ghost var wf := EncodedNode(r.file, t, p);
    BodyStarts(r.file, p + 1);
    if wf { CursorStart(r.file, t, p); }
    var byte;
    ok, byte := r.ReadByte();
    if !ok {
      return false, S;
    }
    node.typ := byte;
    var setPropsSize := false;
    node.kids := [];
    ghost var m: nat := 0;
    if wf { BodyBegins(r.file, S, node, t); }
    while true
      invariant r.Valid() && r.Positioned() && node.start + 1 < r.Pos() <= |r.file|
      invariant fresh(S - {node}) && node in S
      invariant BodyEnd(r.file, p + 1) == Inside(r.file, r.Pos())
      invariant wf ==> BodyState(r.file, S, node, t, r.Pos(), m, setPropsSize)
      decreases |r.file| - r.Pos()
    {
      ghost var q := r.Pos();
      if wf { BodyByte(r.file, S, node, t, q, m, setPropsSize); }
      InsideNext(r.file, q);
      ok, byte := r.ReadByte();
      if !ok {
        return false, S;
      }
      if byte == NODE_START {
        setPropsSize := true;
        ok, S := ParseChildren(r, node, t, m);
        if !ok {
          return false, S;
        }
        continue;
      } else if byte == NODE_END {
        if !setPropsSize {
          var told, pos := r.SafeTell();
          node.propsSize := pos - node.start - 2;
          if wf { Leaf(S, node, t); }
        }
        return true, S;
      } else if byte == ESCAPE_CHAR {
        ok, byte := r.ReadByte();
        if !ok {
          return false, S;
        }
      }
      m := m + 1;
    }
  }

  /** The first `i` siblings are complete and linked up to the one after them. */
  ghost predicate DoneUpTo(S: set<NodeStruct>, nodes: seq<NodeStruct>, ts: seq<Tree>, p: nat, i: nat)
    reads S
  {
    && i <= |nodes| && i <= |ts|
    && forall j {:trigger nodes[j]} :: 0 <= j < i ==>
      && nodes[j] in S && Describes(S, nodes[j], ts[j], ChildPos(ts, p, j))
      && nodes[j].next == if j + 1 < |nodes| then nodes[j + 1] else null
  }

  lemma {:induction false} DoneNone(nodes: seq<NodeStruct>, file: seq<byte>, ts: seq<Tree>, p: nat)
    requires Encoded(file, ts, p)
    ensures 0 < |ts| && ChildPos(ts, p, 0) == p && DoneUpTo({}, nodes, ts, p, 0)
  {
  }

  /** The `i`-th sibling is complete; `nodes'` also lists the next one if there is one. */
  lemma {:induction false} DoneOneMore(S: set<NodeStruct>, more: set<NodeStruct>, nodes: seq<NodeStruct>, nodes': seq<NodeStruct>,
                                       ts: seq<Tree>, p: nat, i: nat)
    requires |nodes| == i + 1 && nodes <= nodes' && i < |ts| && DoneUpTo(S, nodes, ts, p, i)
    requires nodes[i] in more && Describes(more, nodes[i], ts[i], ChildPos(ts, p, i))
    requires nodes[i].next == if i + 1 < |nodes'| then nodes'[i + 1] else null
    ensures DoneUpTo(S + more, nodes', ts, p, i + 1)
    ensures i + 1 == |nodes'| == |ts| ==> Parsed(S + more, nodes', ts, p)
  {
    hide Describes, ChildPos;
    Widen(more, S + more, nodes[i], ts[i], ChildPos(ts, p, i));
    forall j | 0 <= j < i
      ensures Describes(S + more, nodes'[j], ts[j], ChildPos(ts, p, j))
    {
      assert nodes'[j] == nodes[j];
      Widen(S, S + more, nodes[j], ts[j], ChildPos(ts, p, j));
    }
  }

  /** The `i`-th sibling's place, and the byte after its end. */
  lemma {:induction false} SiblingNext(file: seq<byte>, ts: seq<Tree>, p: nat, i: nat)
    requires Encoded(file, ts, p) && i < |ts|
    ensures ChildPos(ts, p, 0) == p && EncodedNode(file, ts[i], ChildPos(ts, p, i))
    ensures ChildPos(ts, p, i) + |Encode(ts[i])| == ChildPos(ts, p, i + 1) <= |file|
    ensures i + 1 < |ts| ==> ChildPos(ts, p, i + 1) < |file| && file[ChildPos(ts, p, i + 1)] == NODE_START
    ensures i + 1 == |ts| ==> ChildPos(ts, p, i + 1) == p + |EncodeAll(ts)|
    ensures i + 1 == |ts| && ChildPos(ts, p, i + 1) < |file| ==>
      file[ChildPos(ts, p, i + 1)] == NODE_END && file[ChildPos(ts, p, i + 1)] != NODE_START
  {
    hide Encode, EncodeAll, HasAt, PlainTypes;
    SiblingLayout(file, ts, p, i);
    assert ts[i] in ts;
    if i + 1 < |ts| {
      SiblingLayout(file, ts, p, i + 1);
      assert ts[i + 1] in ts;
      NodeLayout(file, ts[i + 1], ChildPos(ts, p, i + 1));
    }
    NodeLayout(file, ts[i], ChildPos(ts, p, i));
  }

  /** One position back, so that the parent reads the end byte as its own. */
  method StepBack(r: FileReader) returns (ok: bool)
    requires r.Valid() && r.Positioned() && 0 < r.Pos() <= |r.file|
    modifies r, r.cached
    ensures r.Valid() && ok && r.Positioned() && r.Pos() == old(r.Pos()) - 1
  {
    var told, pos := r.SafeTell();
    ok := r.SafeSeek(pos);
  }

  /** Another node starts at the byte read last: the next sibling. */
  method AddSibling(r: FileReader, current: NodeStruct) returns (nextNode: NodeStruct)
    requires r.Valid() && r.Positioned() && r.Pos() > 0
    modifies current`next
    ensures fresh(nextNode) && current.next == nextNode && nextNode.start == r.Pos() - 1
    ensures nextNode.child == null && nextNode.next == null
  {
    var told, pos := r.SafeTell();
    nextNode := new NodeStruct(pos);
    current.next := nextNode;
  }

  /** `parseNode`: a node and all its next siblings, up to the parent's end byte or the end of the file. */
  method ParseNode(r: FileReader, node: NodeStruct, ghost ts: seq<Tree>)
    returns (ok: bool, ghost nodes: seq<NodeStruct>, ghost S: set<NodeStruct>)
    requires r.Valid() && r.Positioned() && r.Pos() == node.start + 1 <= |r.file|
    requires node.child == null && node.next == null
    modifies r, r.cached, node
    ensures r.Valid() && (ok ==> r.Positioned() && old(r.Pos()) < r.Pos() <= |r.file|)
    ensures node in S && fresh(S - {node})
    ensures node.start == old(node.start) && nodes != [] && nodes[0] == node
    ensures if ok then r.Pos() == SiblingsEnd(r.file, old(node.start) + 1) else SiblingsEnd(r.file, old(node.start) + 1) == -1
    ensures Encoded(r.file, ts, node.start) ==>
      ok && r.Pos() == node.start + |EncodeAll(ts)| && Parsed(S, nodes, ts, node.start)
    decreases |r.file| - r.Pos(), 1
  {
    hide *;
    ghost var p := node.start;
    ghost var wf := Encoded(r.file, ts, p);
    nodes, S := [node], {};
    var current := node;
    ghost var i: nat := 0;
    if wf { DoneNone(nodes, r.file, ts, p); }
    while true
      invariant r.Valid() && r.Positioned() && r.Pos() == current.start + 1 <= |r.file| && p + 1 <= r.Pos()
      invariant |nodes| == i + 1 && nodes[0] == node && nodes[i] == current && node.start == p
      invariant current !in S && (current == node || (fresh(current) && node in S)) && fresh(S - {node})
      invariant current.child == null && current.next == null
      invariant SiblingsEnd(r.file, p + 1) == SiblingsEnd(r.file, current.start + 1)
      invariant wf ==> i < |ts| && current.start == ChildPos(ts, p, i) && DoneUpTo(S, nodes, ts, p, i)
      decreases |r.file| - r.Pos()
    {
      ghost var more;
      ghost var t := if i < |ts| then ts[i] else Tree(0, [], []);
      if wf { SiblingNext(r.file, ts, p, i); }
      SiblingsStep(r.file, current.start + 1);
      ok, more := ParseBody(r, current, t);
      if !ok {
        S := S + more;
        return false, nodes, S;
      }
      var byte;
      ok, byte := r.ReadByte();
      if !ok {
        // end of the file
        if wf { DoneOneMore(S, more, nodes, nodes, ts, p, i); }
        S := S + more;
        return true, nodes, S;
      }
      if byte == NODE_START {
        var nextNode := AddSibling(r, current);
        if wf { DoneOneMore(S, more, nodes, nodes + [nextNode], ts, p, i); }
        nodes, S := nodes + [nextNode], S + more;
        current, i := nextNode, i + 1;
      } else if byte == NODE_END {
        // up one level, one position back
        ok := StepBack(r);
        if wf { DoneOneMore(S, more, nodes, nodes, ts, p, i); }
        S := S + more;
        return true, nodes, S;
      } else {
        S := S + more;
        return false, nodes, S;
      }
    }
  }

  // ----- properties

  /** The raw bytes the parser measured out for a node's properties. */
  ghost function RawProps(file: seq<byte>, n: NodeStruct): seq<byte>
    requires n.start + 2 + n.propsSize <= |file|
    reads n
  {
    file[n.start + 2..n.start + 2 + n.propsSize]
  }

  /** A described node's raw bytes are its escaped properties, and its children are described and encoded
      in turn. */
  lemma {:induction false} DescribedParts(file: seq<byte>, S: set<NodeStruct>, n: NodeStruct, t: Tree, p: nat)
    requires Describes(S, n, t, p) && EncodedNode(file, t, p)
    ensures n.start + 2 + n.propsSize <= |file| && RawProps(file, n) == Escape(t.props)
    ensures forall i :: 0 <= i < |t.children| ==>
      && Describes(S - {n}, n.kids[i], t.children[i], ChildPos(t.children, PropsEnd(t, p), i))
      && EncodedNode(file, t.children[i], ChildPos(t.children, PropsEnd(t, p), i))
  {
    NodeLayout(file, t, p);
    forall i | 0 <= i < |t.children|
      ensures EncodedNode(file, t.children[i], ChildPos(t.children, PropsEnd(t, p), i))
    {
      SiblingLayout(file, t.children, PropsEnd(t, p), i);
      assert t.children[i] in t.children;
    }
  }

  lemma {:induction false} UnescapeStep(done: seq<byte>, raw: seq<byte>, i: nat)
    requires i < |raw| && WholeEscapes(raw[i..])
    ensures raw[i] == ESCAPE_CHAR ==>
      i + 1 < |raw| && WholeEscapes(raw[i + 2..]) && done + Unescape(raw[i..]) == done + [raw[i + 1]] + Unescape(raw[i + 2..])
    ensures raw[i] != ESCAPE_CHAR ==>
      WholeEscapes(raw[i + 1..]) && done + Unescape(raw[i..]) == done + [raw[i]] + Unescape(raw[i + 1..])
  {
    var rest := raw[i..];
    if rest[0] == ESCAPE_CHAR {
      assert rest[2..] == raw[i + 2..];
    } else {
      assert rest[1..] == raw[i + 1..];
    }
  }

  lemma {:induction false} NothingEscaped(raw: seq<byte>)
    requires raw == []
    ensures Unescape(raw) == []
  {
  }

  /** The loader's property buffer. */
  class PropBuffer {
    var buffer: array<byte>

    constructor ()
      ensures buffer.Length == 1024 && fresh(buffer)
    {
      buffer := new byte[1024](_ => 0);
    }

    /** The unescaping loop of `getProps`, in place: the write position never overtakes the read position. */
    method UnescapeInPlace(n: nat) returns (size: nat)
      requires n <= buffer.Length && WholeEscapes(buffer[..n])
      modifies buffer
      ensures size <= n && buffer[..size] == Unescape(old(buffer[..n]))
    {
      hide Unescape, WholeEscapes;
      ghost var raw := buffer[..n];
      var i, j, escaped := 0, 0, false;
      assert raw[0..] == raw;
      while i < n
        invariant j <= i <= n && (escaped || i == j)
        invariant buffer[i..n] == raw[i..] && WholeEscapes(raw[i..])
        invariant buffer[..j] + Unescape(raw[i..]) == Unescape(raw)
      {
        ghost var done := buffer[..j];
        UnescapeStep(done, raw, i);
        assert buffer[i] == buffer[i..n][0] == raw[i];
        if buffer[i] == ESCAPE_CHAR {
          assert raw[i + 1] == buffer[i..n][1] && raw[i + 2..] == buffer[i..n][2..];
          i := i + 1;
          buffer[j] := buffer[i];
          escaped := true;
        } else {
          assert raw[i + 1..] == buffer[i..n][1..];
          if escaped {
            buffer[j] := buffer[i];
          }
        }
        assert buffer[..j + 1] == done + [raw[i]];
        i, j := i + 1, j + 1;
      }
      NothingEscaped(raw[n..]);
      size := j;
    }

    /** `getProps`. The buffer grows by 1024 bytes when the node asks for as much as it holds. */
    method GetProps(r: FileReader, node: NodeStruct) returns (ok: bool, size: nat)
      requires r.Valid() && node.start + 2 + node.propsSize <= |r.file|
      requires node.propsSize <= buffer.Length + 1024 && WholeEscapes(RawProps(r.file, node))
      modifies this, r, r.cached, buffer
      ensures r.Valid() && ok && size <= buffer.Length
      ensures buffer[..size] == Unescape(RawProps(r.file, node))
      ensures buffer == old(buffer) || fresh(buffer)
      ensures buffer.Length == old(buffer.Length) + if node.propsSize >= old(buffer.Length) then 1024 else 0
    {
      if node.propsSize >= buffer.Length {
        buffer := new byte[buffer.Length + 1024](_ => 0);
      }
      ok := r.ReadBytes(buffer, node.propsSize, node.start + 2);
      size := UnescapeInPlace(node.propsSize);
    }
  }

  // ----- writing a file and loading it again

  /** The reading part of `openFile`: the version must be zero, then the root node is parsed. */
  method OpenFile(r: FileReader, ghost t: Tree) returns (ok: bool, root: NodeStruct?, ghost S: set<NodeStruct>)
    requires r.Valid()
    modifies r, r.cached
    ensures r.Valid() && fresh(S)
    ensures ok <==> Accepts(r.file)
    ensures [0, 0, 0, 0] <= r.file && Encoded(r.file, [t], 4) ==> ok && root != null && Describes(S, root, t, 4)
  {
    hide *;
    S := {};
    AcceptsMeans(r.file);
    if Encoded(r.file, [t], 4) { RootStarts(r.file, t); }
    if |r.file| < 4 || r.file[..4] != [0, 0, 0, 0] {
      return false, null, S;
    }
    SeekInside(r, 4);
    var found := r.SafeSeek(4);
    var read, byte := r.ReadByte();
    if !read || byte != NODE_START {
      return false, null, S;
    }
    var node := new NodeStruct(4);
    ghost var nodes;
    ok, nodes, S := ParseNode(r, node, [t]);
    root := node;
    if Encoded(r.file, [t], 4) { RootParsed(S, nodes, t); }
  }

  lemma {:induction false} SeekInside(r: FileReader, pos: nat)
    requires r.Valid() && pos <= |r.file|
    ensures r.cacheSize > 0 && r.Loadable(pos)
  {
  }

  lemma {:induction false} AcceptsMeans(file: seq<byte>)
    ensures Accepts(file) <==>
      |file| > 4 && file[..4] == [0, 0, 0, 0] && file[4] == NODE_START && SiblingsEnd(file, 5) != -1
  {
    hide SiblingsEnd;
  }

  lemma {:induction false} RootStarts(file: seq<byte>, t: Tree)
    requires Encoded(file, [t], 4)
    ensures |file| > 4 && file[4] == NODE_START
  {
    hide EncodeAll, Encode;
    SiblingNext(file, [t], 4, 0);
    NodeLayout(file, t, 4);
  }

  lemma {:induction false} RootParsed(S: set<NodeStruct>, nodes: seq<NodeStruct>, t: Tree)
    requires Parsed(S, nodes, [t], 4)
    ensures nodes != [] && Describes(S, nodes[0], t, 4)
  {
    hide Describes;
    assert [t][..0] == [];
    assert ChildPos([t], 4, 0) == 4;
  }

  /** Node-file round trip: writing any tree whose type bytes need no escape and loading the file, cached
      or not, yields nodes that describe that tree. */
  method WriteAndLoad(t: Tree, caching: bool) returns (r: FileReader, root: NodeStruct?, ghost S: set<NodeStruct>)
    requires PlainTypes(t)
    ensures fresh(r) && fresh(r.cached) && r.Valid() && r.useCache == caching && r.file == [0, 0, 0, 0] + Encode(t)
    ensures root != null && Describes(S, root, t, 4) && EncodedNode(r.file, t, 4)
  {
    hide Describes, Escape, Encode, PropsEnd, ChildPos;
    var w := new FileWriter();
    w.WriteTree(t);
    r := new FileReader(w.content, caching);
    assert EncodeAll([t]) == Encode(t) + EncodeAll([t][1..]) == Encode(t);
    assert r.file[4..4 + |Encode(t)|] == Encode(t);
    var ok;
    ok, root, S := OpenFile(r, t);
  }

  /** Reading back the properties of any node of a loaded tree gives the bytes that were written. */
  method ReadProps(r: FileReader, b: PropBuffer, n: NodeStruct, ghost S: set<NodeStruct>, ghost t: Tree, ghost p: nat)
    returns (props: seq<byte>)
    requires r.Valid() && Describes(S, n, t, p) && EncodedNode(r.file, t, p)
    requires n.propsSize <= b.buffer.Length + 1024
    modifies b, r, r.cached, b.buffer
    ensures props == t.props && r.Valid()
    ensures b.buffer.Length >= old(b.buffer.Length) && (b.buffer == old(b.buffer) || fresh(b.buffer))
  {
    DescribedParts(r.file, S, n, t, p);
    EscapeRoundTrip(t.props);
    var ok, size := b.GetProps(r, n);
    props := b.buffer[..size];
  }

  /** Every property list fits a buffer of `size` bytes after it has grown once. */
  predicate Fits(t: Tree, size: nat) {
    |Escape(t.props)| <= size + 1024 && forall i :: 0 <= i < |t.children| ==> Fits(t.children[i], size)
  }

  lemma {:induction false} FitsMore(t: Tree, size: nat, more: nat)
    requires size <= more && Fits(t, size)
    ensures Fits(t, more)
  {
    forall i | 0 <= i < |t.children|
      ensures Fits(t.children[i], more)
    {
      FitsMore(t.children[i], size, more);
    }
  }

  /** What a caller sees of a node: its type, the number of its property bytes, and its children in a chain. */
  ghost predicate Face(n: NodeStruct, t: Tree)
    reads n, n.kids
  {
    && n.typ == t.typ && n.propsSize == |Escape(t.props)| && |n.kids| == |t.children|
    && n.child == (if n.kids == [] then null else n.kids[0])
    && forall i :: 0 <= i < |n.kids| ==> ChainedAt(n.kids, i)
  }

  ghost predicate ChainedAt(kids: seq<NodeStruct>, i: nat)
    requires i < |kids|
    reads kids
  {
    kids[i].next == if i + 1 < |kids| then kids[i + 1] else null
  }

  lemma {:induction false} FaceIs(S: set<NodeStruct>, n: NodeStruct, t: Tree, p: nat)
    requires Describes(S, n, t, p)
    ensures Face(n, t)
  {
    hide Escape, ChildPos, PropsEnd;
    forall i | 0 <= i < |n.kids|
      ensures ChainedAt(n.kids, i)
    {
    }
  }

  lemma {:induction false} FaceChain(n: NodeStruct, t: Tree, i: nat)
    requires Face(n, t) && i < |n.kids|
    ensures |n.kids| == |t.children| && n.kids[i].next == if i + 1 < |n.kids| then n.kids[i + 1] else null
  {
    assert ChainedAt(n.kids, i);
  }

  lemma {:induction false} FaceStart(n: NodeStruct, t: Tree, size: nat)
    requires Face(n, t) && Fits(t, size)
    ensures n.typ == t.typ && n.propsSize <= size + 1024 && |n.kids| == |t.children|
    ensures n.child == if n.kids == [] then null else n.kids[0]
  {
    hide Escape, ChainedAt;
  }

  lemma {:induction false} FitsChild(t: Tree, size: nat, more: nat, i: nat)
    requires size <= more && Fits(t, size) && i < |t.children|
    ensures Fits(t.children[i], more)
  {
    FitsMore(t.children[i], size, more);
    hide Escape;
  }

  /** What `getChildNode`, `getNextNode` and `getProps` let a caller read: the tree below a loaded node. */
  method ReadTree(r: FileReader, b: PropBuffer, n: NodeStruct, ghost S: set<NodeStruct>, ghost t: Tree, ghost p: nat)
    returns (tree: Tree)
    requires r.Valid() && Describes(S, n, t, p) && EncodedNode(r.file, t, p) && Fits(t, b.buffer.Length)
    modifies b, r, r.cached, b.buffer
    ensures tree == t && r.Valid()
    ensures b.buffer.Length >= old(b.buffer.Length) && (b.buffer == old(b.buffer) || fresh(b.buffer))
    decreases t
  {
    hide *;
    ghost var size := b.buffer.Length;
    FaceIs(S, n, t, p);
    FaceStart(n, t, size);
    var props := ReadProps(r, b, n, S, t, p);
    var children: seq<Tree> := [];
    var c := n.child;
    while c != null
      invariant r.Valid() && Describes(S, n, t, p) && Face(n, t)
      invariant |children| <= |n.kids| == |t.children| && children == t.children[..|children|]
      invariant c == if |children| < |n.kids| then n.kids[|children|] else null
      invariant b.buffer.Length >= size && (b.buffer == old(b.buffer) || fresh(b.buffer))
      decreases |n.kids| - |children|
    {
      ghost var i := |children|;
      DescribedParts(r.file, S, n, t, p);
      FitsChild(t, size, b.buffer.Length, i);
      FaceChain(n, t, i);
      var child := ReadTree(r, b, c, S - {n}, t.children[i], ChildPos(t.children, PropsEnd(t, p), i));
      children := children + [child];
      c := c.next;
    }
    tree := Tree(n.typ, props, children);
  }

  /** The whole way: a tree written to a file, loaded, and read back through the nodes is the same tree. */
  method WriteAndRead(t: Tree, caching: bool) returns (tree: Tree)
    requires PlainTypes(t) && Fits(t, 1024)
    ensures tree == t
  {
    hide *;
    var r, root, S := WriteAndLoad(t, caching);
    var b := new PropBuffer();
    tree := ReadTree(r, b, root, S, t, 4);
  }
}
