/** The escaped node-tree format of `FileLoader` (font/fileloader.cpp, font/fileloader.h): what a tree
    looks like as bytes, and the writer that produces it. */
module NodeFile {
  import opened Bytes

  const NODE_START: byte := 0xFE
  const NODE_END: byte := 0xFF
  const ESCAPE_CHAR: byte := 0xFD

  datatype Tree = Tree(typ: byte, props: seq<byte>, children: seq<Tree>)

  predicate Special(b: byte) { b == NODE_START || b == NODE_END || b == ESCAPE_CHAR }

  function EscapeByte(b: byte): seq<byte> { if Special(b) then [ESCAPE_CHAR, b] else [b] }

  function Escape(data: seq<byte>): seq<byte> {
    if data == [] then [] else EscapeByte(data[0]) + Escape(data[1..])
  }

  /** The bytes of a node: start, type, properties, children, end. The type is escaped like any data. */
  function Encode(t: Tree): seq<byte> { EncodeHead(t) + EncodeAll(t.children) + [NODE_END] }

  function EncodeHead(t: Tree): seq<byte> { [NODE_START] + Escape([t.typ]) + Escape(t.props) }

  function EncodeAll(ts: seq<Tree>): seq<byte> {
    if ts == [] then [] else Encode(ts[0]) + EncodeAll(ts[1..])
  }

  /** Trees whose type bytes need no escape. */
  predicate PlainTypes(t: Tree) {
    !Special(t.typ) && forall i :: 0 <= i < |t.children| ==> PlainTypes(t.children[i])
  }

  /** Undoes `Escape`; also says which byte sequences consist of whole escapes. */
  function Unescape(raw: seq<byte>): seq<byte> {
    if raw == [] then []
    else if raw[0] == ESCAPE_CHAR then
      if |raw| == 1 then [] else [raw[1]] + Unescape(raw[2..])
    else [raw[0]] + Unescape(raw[1..])
  }

  predicate WholeEscapes(raw: seq<byte>) {
    if raw == [] then true
    else if raw[0] == ESCAPE_CHAR then |raw| >= 2 && WholeEscapes(raw[2..])
    else WholeEscapes(raw[1..])
  }

  /** 0xFD, 0xFE and 0xFF are written after a 0xFD, all other bytes as they are. */
  lemma {:induction false} EscapedBytes(b: byte)
    ensures Escape([b]) == if b >= 0xFD then [0xFD, b] else [b]
  {
    assert [b][1..] == [];
  }

  /** A node stands between a 0xFE and a 0xFF. */
  lemma {:induction false} NodeMarks(t: Tree)
    ensures |Encode(t)| >= 3 && Encode(t)[0] == 0xFE && Encode(t)[|Encode(t)| - 1] == 0xFF
    ensures t.typ < 0xFD ==> Encode(t)[1] == t.typ
  {
    EscapedBytes(t.typ);
  }

  /** Whatever bytes the properties contain, unescaping restores them. */
  lemma {:induction false} EscapeRoundTrip(data: seq<byte>)
    ensures Unescape(Escape(data)) == data && WholeEscapes(Escape(data))
  {
    if data != [] {
      EscapeRoundTrip(data[1..]);
      var e := Escape(data);
      if Special(data[0]) {
        assert e[2..] == Escape(data[1..]);
      } else {
        assert e[1..] == Escape(data[1..]);
      }
    }
  }

  lemma {:induction false} EscapeAppend(a: seq<byte>, b: seq<byte>)
    ensures Escape(a + b) == Escape(a) + Escape(b)
  {
    hide EscapeByte;
    if a == [] {
      assert a + b == b;
    } else {
      var head := EscapeByte(a[0]);
      EscapeAppend(a[1..], b);
      assert (a + b)[1..] == a[1..] + b;
      assert Escape(a + b) == head + (Escape(a[1..]) + Escape(b));
      Assoc(head, Escape(a[1..]), Escape(b));
    }
  }

  /** A node starts with its start byte and the bare type, as the parser expects, if and only if the type
      byte needs no escape. */
  lemma {:induction false} PlainTypeLayout(t: Tree)
    ensures EncodeHead(t) == [0xFE, t.typ] + Escape(t.props) <==> t.typ < 0xFD
  {
    assert Escape([t.typ]) == EscapeByte(t.typ) + Escape([]);
    assert |EncodeHead(t)| == 1 + |EscapeByte(t.typ)| + |Escape(t.props)|;
  }

  /** The writing side of `FileLoader`. */
  class FileWriter {
    var content: seq<byte>

    /** `openFile` for writing: the version number, four zero bytes. */
    constructor ()
      ensures content == [0, 0, 0, 0]
    {
      content := [0, 0, 0, 0];
    }

    method WriteData(data: seq<byte>, unescape: bool)
      modifies this
      ensures content == old(content) + if unescape then Escape(data) else data
    {
      ghost var start := content;
      for i := 0 to |data|
        invariant content == start + if unescape then Escape(data[..i]) else data[..i]
      {
        var c := data[i];
        assert data[..i + 1] == data[..i] + [c];
        EscapeAppend(data[..i], [c]);
        assert Escape([c]) == EscapeByte(c);
        if unescape && Special(c) {
          content := content + [ESCAPE_CHAR];
        }
        content := content + [c];
      }
      assert data[..|data|] == data;
    }

    method SetProps(data: seq<byte>)
      modifies this
      ensures content == old(content) + Escape(data)
    {
      WriteData(data, true);
    }

    method StartNode(typ: byte)
      modifies this
      ensures content == old(content) + [NODE_START] + Escape([typ])
    {
      WriteData([NODE_START], false);
      WriteData([typ], true);
    }

    method EndNode()
      modifies this
      ensures content == old(content) + [NODE_END]
    {
      WriteData([NODE_END], false);
    }

    /** Writing a tree the way callers do: start, properties, children, end. */
    method WriteTree(t: Tree)
      modifies this
      ensures content == old(content) + Encode(t)
      decreases t
    {
      hide Escape;
      StartNode(t.typ);
      SetProps(t.props);
      ghost var start, head := old(content), EncodeHead(t);
      assert content == start + head;
      for i := 0 to |t.children|
        invariant content == start + head + EncodeAll(t.children[..i])
      {
        ghost var done := EncodeAll(t.children[..i]);
        WriteTree(t.children[i]);
        assert t.children[..i + 1] == t.children[..i] + [t.children[i]];
        EncodeAllSnoc(t.children[..i], t.children[i]);
        Assoc(start + head, done, Encode(t.children[i]));
      }
      assert t.children[..|t.children|] == t.children;
      EndNode();
      Assoc(start, head, EncodeAll(t.children));
      Assoc(start, head + EncodeAll(t.children), [NODE_END]);
    }
  }

  lemma {:induction false} EncodeAllSnoc(ts: seq<Tree>, t: Tree)
    ensures EncodeAll(ts + [t]) == EncodeAll(ts) + Encode(t)
  {
    hide Encode;
    if ts == [] {
      assert EncodeAll([t]) == Encode(t) + EncodeAll([t][1..]);
      assert EncodeAll([t][1..]) == EncodeAll([]) == [];
      assert ts + [t] == [t];
    } else {
      EncodeAllSnoc(ts[1..], t);
      assert (ts + [t])[1..] == ts[1..] + [t];
      Assoc(Encode(ts[0]), EncodeAll(ts[1..]), Encode(t));
    }
  }
}
