/** Which byte sequences the node-tree parser accepts (font/fileloader.cpp): the marks alone decide, and the
    parser itself is proved against these functions. */
module NodeGrammar {
  import opened Bytes
  import opened NodeFile

  /** Where a node ends whose type byte is at `pos`, or -1 when the file ends first or has it wrong. */
  function BodyEnd(b: seq<byte>, pos: nat): (e: int)
    ensures e == -1 || pos < e <= |b|
    decreases |b| - pos, 0
  {
    if pos >= |b| then -1 else Inside(b, pos + 1)
  }

  /** The same from a position behind the type byte. */
  function Inside(b: seq<byte>, pos: nat): (e: int)
    ensures e == -1 || pos < e <= |b|
    decreases |b| - pos, 2
  {
    if pos >= |b| then -1
    else if b[pos] == NODE_START then
      var e := SiblingsEnd(b, pos + 1);
      if e == -1 then -1 else Inside(b, e)
    else if b[pos] == NODE_END then pos + 1
    else if b[pos] == ESCAPE_CHAR then if pos + 1 >= |b| then -1 else Inside(b, pos + 2)
    else Inside(b, pos + 1)
  }

  /** Where a row of siblings ends, the first of which has its type byte at `pos`: before the end byte of
      their parent, or with the file. */
  function SiblingsEnd(b: seq<byte>, pos: nat): (e: int)
    ensures e == -1 || pos < e <= |b|
    decreases |b| - pos, 1
  {
    var e := BodyEnd(b, pos);
    if e == -1 || e == |b| then e
    else if b[e] == NODE_START then SiblingsEnd(b, e + 1)
    else if b[e] == NODE_END then e
    else -1
  }

  /** The files that can be opened for reading. */
  predicate Accepts(file: seq<byte>) {
    [0, 0, 0, 0] <= file && 4 < |file| && file[4] == NODE_START && SiblingsEnd(file, 5) != -1
  }

  // ----- cutting a file off

  /** A file that is cut off before a node's end has no end for it, after it the same one. */
  lemma {:induction false} CutBody(b: seq<byte>, pos: nat, k: nat)
    requires BodyEnd(b, pos) != -1 && k <= |b|
    ensures BodyEnd(b[..k], pos) == if k < BodyEnd(b, pos) then -1 else BodyEnd(b, pos)
    decreases |b| - pos, 0
  {
    if pos < k { CutInside(b, pos + 1, k); }
  }

  lemma {:induction false} CutInside(b: seq<byte>, pos: nat, k: nat)
    requires Inside(b, pos) != -1 && k <= |b|
    ensures Inside(b[..k], pos) == if k < Inside(b, pos) then -1 else Inside(b, pos)
    decreases |b| - pos, 2
  {
    if pos < k {
      assert b[..k][pos] == b[pos];
      if b[pos] == NODE_START {
        CutSiblings(b, pos + 1, k);
        CutInside(b, SiblingsEnd(b, pos + 1), k);
      } else if b[pos] == ESCAPE_CHAR {
        CutInside(b, pos + 2, k);
      } else if b[pos] != NODE_END {
        CutInside(b, pos + 1, k);
      }
    }
  }

  /** Siblings that are cut off may still end, but only with the file. */
  lemma {:induction false} CutSiblings(b: seq<byte>, pos: nat, k: nat)
    requires SiblingsEnd(b, pos) != -1 && k <= |b|
    ensures var e := SiblingsEnd(b[..k], pos);
      if k < SiblingsEnd(b, pos) then e == -1 || e == k else e == SiblingsEnd(b, pos)
    decreases |b| - pos, 1
  {
    CutBody(b, pos, k);
    var e := BodyEnd(b, pos);
    if e < k {
      assert b[..k][e] == b[e];
      if b[e] == NODE_START { CutSiblings(b, e + 1, k); }
    }
  }
}
