/** The attribute streams of font/fileloader.h: `PropStream` reads, `PropWriteStream` appends. */
module PropStreams {
  import opened Bytes

  /** `s` stands at position `p` of the data. */
  ghost predicate At(data: seq<byte>, p: nat, s: seq<byte>) { p + |s| <= |data| && data[p..p + |s|] == s }

  lemma {:induction false} AtSplit(data: seq<byte>, p: nat, s: seq<byte>, t: seq<byte>)
    ensures At(data, p, s + t) <==> At(data, p, s) && At(data, p + |s|, t)
  {
    if p + |s| + |t| <= |data| {
      var both := data[p..p + |s + t|];
      assert both == data[p..p + |s|] + data[p + |s|..p + |s| + |t|];
      assert both[..|s|] == data[p..p + |s|] && both[|s|..] == data[p + |s|..p + |s| + |t|];
      assert (s + t)[..|s|] == s && (s + t)[|s|..] == t;
    }
  }

  class PropStream {
    const data: seq<byte>
    var p: nat

    ghost predicate Valid() reads this { p <= |data| }

    ghost function Left(): (n: int) reads this { |data| - p }

    /** The bytes to be read next are these. */
    ghost predicate Ahead(s: seq<byte>)
      reads this
    {
      At(data, p, s)
    }

    constructor (content: seq<byte>)
      ensures Valid() && data == content && p == 0
    {
      data, p := content, 0;
    }

    /** `GET_VALUE`: a fixed-width value, or failure without moving. */
    method GetValue(width: nat) returns (ok: bool, value: nat)
      requires Valid()
      modifies this
      ensures Valid()
      ensures ok == (width <= old(Left()))
      ensures ok ==> p == old(p) + width && value == FromLittle(data[old(p)..p])
      ensures !ok ==> p == old(p) && value == 0
    {
      if |data| - p < width {
        return false, 0;
      }
      value := FromLittle(data[p..p + width]);
      p := p + width;
      ok := true;
    }

    /** `GET_STRING`: a 16-bit length and that many bytes. A length without its bytes is consumed. */
    method GetString() returns (ok: bool, value: seq<byte>)
      requires Valid()
      modifies this
      ensures Valid() && p >= old(p)
      ensures ok ==> p == old(p) + 2 + |value| && value == data[old(p) + 2..p]
      ensures ok <==> old(Left()) >= 2 && old(Left()) >= 2 + FromLittle(data[old(p)..old(p) + 2])
      ensures ok ==> |value| == FromLittle(data[old(p)..old(p) + 2])
    {
      var length;
      ok, length := GetValue(2);
      if !ok || |data| - p < length {
        return false, [];
      }
      value := data[p..p + length];
      p := p + length;
    }
  }

  /** What `ADD_STRING` keeps of a string: its length is cut to 16 bits. */
  function Cut(s: seq<byte>): seq<byte> { s[..|s| % TWO_16] }

  function StringBytes(s: seq<byte>): seq<byte> { Little(|Cut(s)|, 2) + Cut(s) }

  class PropWriteStream {
    var buffer: seq<byte>

    constructor ()
      ensures buffer == []
    {
      buffer := [];
    }

    method AddValue(n: nat, width: nat)
      modifies this
      ensures buffer == old(buffer) + Little(n, width)
    {
      buffer := buffer + Little(n, width);
    }

    method AddString(s: seq<byte>)
      modifies this
      ensures buffer == old(buffer) + StringBytes(s)
    {
      var length := |s| % TWO_16;
      AddValue(length, 2);
      buffer := buffer + s[..length];
    }
  }
}
