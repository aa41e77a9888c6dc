/** What the node-tree loader makes of files that are not just one encoded tree (font/fileloader.cpp):
    ones that are cut off, and ones that go on after the root. */
module NodeCuts {
  import opened BlockCache
  import opened Bytes
  import opened NodeFile
  import opened NodeGrammar
  import opened NodeParser

  // ----- encoded nodes in the grammar

  lemma {:induction false} BodyOf(file: seq<byte>, t: Tree, p: nat)
    requires EncodedNode(file, t, p)
    ensures BodyEnd(file, p + 1) == p + |Encode(t)|
    decreases t, |t.props| + 1
  {
    hide EncodedNode, Cursor, Inside, Encode;
    CursorStart(file, t, p);
    InsideOf(file, t, p, p + 2, 0);
  }

  /** With `m` properties of a node read, at `pos`. */
  lemma {:induction false} InsideOf(file: seq<byte>, t: Tree, p: nat, pos: nat, m: nat)
    requires Cursor(file, t, p, pos, m, false) && m <= |t.props|
    ensures Inside(file, pos) == p + |Encode(t)|
    decreases t, |t.props| - m
  {
    hide Cursor, Inside, SiblingsEnd, Encode, EncodeAll, Encoded, EncodedNode, PropsEnd, ChildPos;
    CursorByte(file, t, p, pos, m, false);
    InsideNext(file, pos);
    if m < |t.props| {
      InsideOf(file, t, p, if file[pos] == ESCAPE_CHAR then pos + 2 else pos + 1, m + 1);
    } else if t.children != [] {
      SiblingNext(file, t.children, pos, 0);
      SiblingsOf(file, t.children, pos, 0);
      var e := pos + |EncodeAll(t.children)|;
      CursorByte(file, t, p, e, m, true);
      InsideNext(file, e);
    }
  }

  lemma {:induction false} SiblingsOf(file: seq<byte>, ts: seq<Tree>, p: nat, i: nat)
    requires Encoded(file, ts, p) && i < |ts|
    ensures SiblingsEnd(file, ChildPos(ts, p, i) + 1) == p + |EncodeAll(ts)|
    decreases ts, |ts| - i
  {
    hide Encoded, EncodedNode, BodyEnd, Encode, EncodeAll, ChildPos;
    SiblingNext(file, ts, p, i);
    assert ts[i] in ts;
    BodyOf(file, ts[i], ChildPos(ts, p, i));
    if i + 1 < |ts| { SiblingsOf(file, ts, p, i + 1); }
  }

  // ----- cut off, or with more to follow

  lemma {:induction false} TreeEnds(t: Tree, rest: seq<byte>)
    requires PlainTypes(t)
    ensures var file := [0, 0, 0, 0] + Encode(t) + rest;
      && BodyEnd(file, 5) == 4 + |Encode(t)| && [0, 0, 0, 0] <= file && |file| > 4 && file[4] == NODE_START
  {
    var file := [0, 0, 0, 0] + Encode(t) + rest;
    assert HasAt(file, 4, Encode(t)) by { assert file[4..4 + |Encode(t)|] == Encode(t); }
    NodeLayout(file, t, 4);
    hide Encode, BodyEnd;
    BodyOf(file, t, 4);
  }

  /** A written file that is cut off anywhere cannot be opened. */
  lemma {:induction false} CutIsRefused(t: Tree, k: nat)
    requires PlainTypes(t) && k < 4 + |Encode(t)|
    ensures !Accepts(([0, 0, 0, 0] + Encode(t))[..k])
  {
    hide Encode, BodyEnd;
    var file := [0, 0, 0, 0] + Encode(t);
    TreeEnds(t, []);
    assert file + [] == file;
    CutBody(file, 5, k);
  }

  /** A file that goes on after its root can be opened exactly when an end byte or another tree follows;
      after an end byte nothing is looked at. */
  lemma {:induction false} AfterRoot(t: Tree, x: byte, rest: seq<byte>)
    requires PlainTypes(t)
    ensures var n := 4 + |Encode(t)|; var file := [0, 0, 0, 0] + Encode(t) + [x] + rest;
      Accepts(file) <==> x == NODE_END || (x == NODE_START && SiblingsEnd(file, n + 1) != -1)
  {
    hide Encode, BodyEnd;
    var file := [0, 0, 0, 0] + Encode(t) + [x] + rest;
    TreeEnds(t, [x] + rest);
    assert file == [0, 0, 0, 0] + Encode(t) + ([x] + rest);
    assert file[4 + |Encode(t)|] == x;
    SiblingsStep(file, 5);
  }

  /** The same of the loader itself: the file is opened only if all of it is there. */
  method LoadCut(t: Tree, k: nat, caching: bool) returns (ok: bool)
    requires PlainTypes(t) && k <= 4 + |Encode(t)|
    ensures ok <==> k == 4 + |Encode(t)|
  {
    hide Encode, Accepts, Describes;
    var w := new FileWriter();
    w.WriteTree(t);
    var r := new FileReader(w.content[..k], caching);
    var root;
    ghost var S;
    ok, root, S := OpenFile(r, t);
    if k < 4 + |Encode(t)| { CutIsRefused(t, k); } else { WholeIsAccepted(t); }
    assert k == 4 + |Encode(t)| ==> w.content[..k] == w.content;
  }

  lemma {:induction false} WholeIsAccepted(t: Tree)
    requires PlainTypes(t)
    ensures Accepts([0, 0, 0, 0] + Encode(t))
  {
    hide Encode, BodyEnd;
    TreeEnds(t, []);
    assert [0, 0, 0, 0] + Encode(t) + [] == [0, 0, 0, 0] + Encode(t);
    SiblingsStep([0, 0, 0, 0] + Encode(t), 5);
  }
}
