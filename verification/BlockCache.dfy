/** The reading side of `FileLoader` (font/fileloader.cpp): byte and block reads, seek and tell, either
    directly on the file or through a cache of three blocks. Both ways keep the same contract, stated
    over one logical position. */
module BlockCache {
  import opened Arithmetic
  import opened Bytes
  import opened Masks

  const CACHE_BLOCKS: nat := 3
  const NO_VALID_CACHE: int := -1

  /** One cached block; `data` is the block's own buffer. */
  datatype CacheBlock = CacheBlock(loaded: bool, base: nat, data: seq<byte>, size: nat)

  /** The size `openFile` chooses for the blocks of a file. */
  function CacheSize(fileSize: nat): nat {
    AndNot(Min(32768, Max(fileSize / 20, 8192)), 0x1FFF)
  }

  /** Four sizes are possible, one of which is not a power of two. */
  lemma {:induction false} CacheSizes(fileSize: nat)
    ensures CacheSize(fileSize) in {8192, 16384, 24576, 32768}
  {
    hide AndNot, And, IsPow2;
    var n: nat := Min(32768, Max(fileSize / 20, 8192));
    MaskSplits(n, 0x1FFF);
    Pow2Of8192();
    LowMask(n, 8192);
    DivUnique(n, 8192, n / 8192, n % 8192);
    assert CacheSize(fileSize) == 8192 * (n / 8192);
  }

  lemma {:induction false} Pow2Of8192()
    ensures IsPow2(8192)
  {
    assert IsPow2(16);
    assert IsPow2(256);
    assert IsPow2(4096);
  }

  class FileReader {
    const file: seq<byte>
    const useCache: bool
    const cacheSize: nat
    const cached: array<CacheBlock>
    var filePos: nat      // the position of the C stream
    var cacheIndex: int
    var cacheOffset: nat

    /** Loaded blocks hold what the file holds at their base. */
    ghost predicate BlockOk(b: CacheBlock) {
      b.loaded ==> b.size == Available(b.base) <= |b.data| && b.data[..b.size] == Slice(b.base, b.size)
    }

    function Available(base: nat): nat {
      if base >= |file| then 0 else Min(cacheSize, |file| - base)
    }

    ghost function Slice(p: nat, n: nat): seq<byte> {
      if p + n <= |file| then file[p..p + n] else []
    }

    ghost predicate Valid()
      reads this, cached
    {
      && cached.Length == 3 && cacheSize > 0
      && (forall i :: 0 <= i < CACHE_BLOCKS ==> BlockOk(cached[i]))
      && (cacheIndex == NO_VALID_CACHE || (0 <= cacheIndex < CACHE_BLOCKS && cached[cacheIndex].loaded))
    }

    /** Whether there is a position to read from. */
    ghost predicate Positioned()
      reads this
    {
      useCache ==> cacheIndex != NO_VALID_CACHE
    }

    /** The position the next byte is read from. */
    ghost function Pos(): nat
      requires Valid()
      reads this, cached
    {
      if useCache then if cacheIndex == NO_VALID_CACHE then 0 else cached[cacheIndex].base + cacheOffset
      else filePos
    }

    constructor (content: seq<byte>, caching: bool)
      ensures Valid() && file == content && useCache == caching && fresh(cached)
      ensures Pos() == 0 && (Positioned() <==> !caching)
      ensures cacheSize == CacheSize(|content|) && forall i :: 0 <= i < CACHE_BLOCKS ==> !cached[i].loaded
    {
      file, useCache := content, caching;
      cacheSize := CacheSize(|content|);
      cached := new CacheBlock[CACHE_BLOCKS](_ => CacheBlock(false, 0, [], 0));
      filePos, cacheIndex, cacheOffset := 0, NO_VALID_CACHE, 0;
      CacheSizes(|content|);
    }

    /** `pos & ~(m_cache_size - 1)`. */
    function BaseOf(pos: nat): (base: nat)
      requires cacheSize > 0
      ensures base <= pos < base + cacheSize
    {
      MaskSplits(pos, cacheSize - 1);
      AndNot(pos, cacheSize - 1)
    }

    /** Whether a block for `pos` is at hand. */
    ghost predicate HasBlock(pos: nat)
      requires Valid()
      reads this, cached
    {
      exists i :: 0 <= i < CACHE_BLOCKS && cached[i].loaded && cached[i].base == BaseOf(pos)
    }

    /** Positions whose block can be loaded: those inside the file and, beyond it, the starts of blocks. */
    predicate Loadable(pos: nat)
      requires cacheSize > 0
    {
      pos <= |file| || pos == BaseOf(pos)
    }

    /** `getCacheBlock`: the index of the block for `pos`, loading it if need be; NO_VALID_CACHE when
        `pos` lies beyond what can be loaded. */
    method GetCacheBlock(pos: nat) returns (i: int)
      requires Valid()
      modifies this`filePos, cached
      ensures i == NO_VALID_CACHE || (0 <= i < CACHE_BLOCKS && cached[i].loaded && cached[i].base == BaseOf(pos))
      ensures i != NO_VALID_CACHE <==> Loadable(pos) || old(HasBlock(pos))
      ensures forall j :: 0 <= j < CACHE_BLOCKS ==> BlockOk(cached[j]) && (old(cached[j].loaded) ==> cached[j].loaded)
    {
      for k := 0 to CACHE_BLOCKS
        invariant forall j :: 0 <= j < k ==> !(cached[j].loaded && cached[j].base == BaseOf(pos))
      {
        if cached[k].loaded && cached[k].base == BaseOf(pos) {
          return k;
        }
      }
      ghost var slot;
      i, slot := LoadCacheBlock(pos);
    }

    /** No more than two block sizes from `base`, to either side. */
    ghost predicate Near(b: CacheBlock, base: nat) {
      b.base <= base + 2 * cacheSize && base <= b.base + 2 * cacheSize
    }

    /** The first unused block gives way; when all are used the first that is not near, and when all are near
        the first of all. */
    ghost predicate GivesWay(blocks: seq<CacheBlock>, base: nat, i: nat)
      requires i < |blocks|
    {
      if !blocks[i].loaded then forall j :: 0 <= j < i ==> blocks[j].loaded
      else
        && (forall j :: 0 <= j < |blocks| ==> blocks[j].loaded)
        && if !Near(blocks[i], base) then forall j :: 0 <= j < i ==> Near(blocks[j], base)
           else i == 0 && forall j :: 0 <= j < |blocks| ==> Near(blocks[j], base)
    }

    /** Which block gives way to one at `base`. */
    method ChooseBlock(base: nat) returns (i: nat)
      requires Valid()
      ensures i < CACHE_BLOCKS && GivesWay(cached[..], base, i)
    {
      for k := 0 to CACHE_BLOCKS
        invariant forall j :: 0 <= j < k ==> cached[j].loaded
      {
        if !cached[k].loaded {
          return k;
        }
      }
      for k := 0 to CACHE_BLOCKS
        invariant forall j :: 0 <= j < k ==> Near(cached[j], base)
      {
        if Abs(cached[k].base - base) > 2 * cacheSize {
          return k;
        }
      }
      return 0;
    }

    /** `loadCacheBlock`: reads the block around `pos` into the chosen slot. A block that ends before
        `pos` is an error, after the slot has been overwritten. */
    method LoadCacheBlock(pos: nat) returns (i: int, ghost slot: nat)
      requires Valid()
      modifies this`filePos, cached
      ensures i == NO_VALID_CACHE || (0 <= i < CACHE_BLOCKS && cached[i].loaded && cached[i].base == BaseOf(pos))
      ensures i != NO_VALID_CACHE <==> Loadable(pos)
      ensures forall j :: 0 <= j < CACHE_BLOCKS ==> BlockOk(cached[j]) && (old(cached[j].loaded) ==> cached[j].loaded)
      ensures slot < CACHE_BLOCKS && GivesWay(old(cached[..]), BaseOf(pos), slot) && (i != NO_VALID_CACHE ==> i == slot)
      ensures forall j :: 0 <= j < CACHE_BLOCKS && j != slot ==> cached[j] == old(cached[j])
    {
      hide GivesWay, AndNot;
      var base := BaseOf(pos);
      var place := ChooseBlock(base);
      slot := place;
      var size := Available(base);
      var read := if base >= |file| then [] else file[base..base + size];
      filePos := base + size;
      cached[place] := cached[place].(base := base, data := read, size := size);
      if size < pos - base {
        return NO_VALID_CACHE, slot;
      }
      cached[place] := cached[place].(loaded := true);
      return place, slot;
    }

    /** `safeSeek`. Inside the file both ways succeed; beyond its end only the direct way always does. */
    method SafeSeek(pos: nat) returns (ok: bool)
      requires Valid()
      modifies this, cached
      ensures Valid()
      ensures ok ==> Positioned() && Pos() == pos
      ensures ok <==> !useCache || Loadable(pos) || old(HasBlock(pos))
    {
      if useCache {
        var i := GetCacheBlock(pos);
        if i == NO_VALID_CACHE {
          return false;
        }
        cacheIndex := i;
        cacheOffset := pos - cached[i].base;
      } else {
        filePos := pos;
      }
      return true;
    }

    /** `safeTell` answers the position of the byte read last. */
    method SafeTell() returns (ok: bool, pos: int)
      requires Valid()
      ensures ok == Positioned() && (ok ==> pos == Pos() - 1)
    {
      if useCache {
        if cacheIndex == NO_VALID_CACHE {
          return false, 0;
        }
        return true, cached[cacheIndex].base + cacheOffset - 1;
      }
      return true, filePos - 1;
    }

    /** `readByte`: the byte at the position, which moves on; at the end of the file it fails and stays. */
    method ReadByte() returns (ok: bool, value: byte)
      requires Valid()
      modifies this, cached
      ensures Valid()
      ensures old(Positioned()) && old(Pos()) < |file| ==>
        ok && value == file[old(Pos())] && Positioned() && Pos() == old(Pos()) + 1
      ensures old(Positioned()) && old(Pos()) == |file| ==> !ok && Positioned() && Pos() == old(Pos())
      ensures !old(Positioned()) || old(Pos()) > |file| ==> !ok
    {
      hide AndNot, HasBlock, BlockOk, BaseOf;
      value := 0;
      if useCache {
        if cacheIndex == NO_VALID_CACHE {
          return false, value;
        }
        if cacheOffset >= cached[cacheIndex].size {
          var pos := cacheOffset + cached[cacheIndex].base;
          var i := GetCacheBlock(pos);
          if i == NO_VALID_CACHE {
            return false, value;
          }
          BlockCovers(cached[i], pos);
          cacheIndex := i;
          cacheOffset := pos - cached[cacheIndex].base;
          if cacheOffset >= cached[cacheIndex].size {
            return false, value;
          }
        }
        ReadFromBlock(cached[cacheIndex], cacheOffset);
        value := cached[cacheIndex].data[cacheOffset];
        cacheOffset := cacheOffset + 1;
        return true, value;
      } else {
        if filePos >= |file| {
          return false, value;
        }
        value := file[filePos];
        filePos := filePos + 1;
        return true, value;
      }
    }

    /** A block has the bytes of the file up to its end or that of the file. */
    lemma {:induction false} BlockCovers(b: CacheBlock, pos: nat)
      requires cacheSize > 0 && BlockOk(b) && b.loaded && b.base == BaseOf(pos)
      ensures b.base <= pos && (pos - b.base < b.size <==> pos < |file|)
    {
    }

    lemma {:induction false} ReadFromBlock(b: CacheBlock, offset: nat)
      requires BlockOk(b) && b.loaded && offset < b.size
      ensures offset < |b.data| && b.base + offset < |file| && b.data[offset] == file[b.base + offset]
    {
      assert b.data[..b.size][offset] == Slice(b.base, b.size)[offset];
    }

    /** One turn of the cached loop: as much of `remain` bytes at `at` as one block holds. At the end of the
        file that is nothing, so a read that wants more than there is never leaves the loop. */
    method ReadPart(buffer: array<byte>, bufferPos: nat, remain: nat, at: nat) returns (reading: nat)
      requires Valid() && useCache && at <= |file| && bufferPos + remain <= buffer.Length
      modifies this, cached, buffer
      ensures Valid() && Positioned() && Pos() == at + reading
      ensures reading <= remain && at + reading <= |file| && (reading > 0 <==> remain > 0 && at < |file|)
      ensures forall j :: 0 <= j < buffer.Length ==>
        buffer[j] == if bufferPos <= j < bufferPos + reading then file[at + j - bufferPos] else old(buffer[j])
    {
      hide AndNot, HasBlock;
      var i := GetCacheBlock(at);
      cacheIndex := i;
      cacheOffset := at - cached[i].base;
      var block := cached[i];
      reading := Min(remain, block.size - cacheOffset);
      BlockSlice(block, cacheOffset, reading);
      var bytes := block.data[cacheOffset..cacheOffset + reading];
      assert forall k :: 0 <= k < reading ==> bytes[k] == file[at + k];
      Copy(buffer, bufferPos, bytes);
      cacheOffset := cacheOffset + reading;
    }

    /** `readBytes`: `n` bytes from `pos` into the buffer, block by block when caching. Reading past the
        end is left to callers to avoid: the cached loop would not end there. */
    method ReadBytes(buffer: array<byte>, n: nat, pos: nat) returns (ok: bool)
      requires Valid() && n <= buffer.Length && (useCache ==> pos + n <= |file|)
      modifies this, cached, buffer
      ensures Valid() && Positioned()
      ensures pos + n <= |file| ==> ok && Pos() == pos + n && buffer[..n] == file[pos..pos + n]
      ensures pos + n > |file| ==> (ok <==> n == 0) && Pos() == Max(pos, |file|)
      ensures pos + n > |file| && pos <= |file| ==> buffer[..|file| - pos] == file[pos..]
      ensures forall j :: n <= j < buffer.Length ==> buffer[j] == old(buffer[j])
    {
      hide AndNot, HasBlock, BlockOk;
      if useCache {
        var reading := ReadPart(buffer, 0, n, pos);
        var bufferPos := reading;
        while bufferPos < n
          invariant Valid() && Positioned() && bufferPos <= n && Pos() == pos + bufferPos
          invariant forall j :: 0 <= j < buffer.Length ==>
            buffer[j] == if j < bufferPos then file[pos + j] else old(buffer[j])
        {
          reading := ReadPart(buffer, bufferPos, n - bufferPos, pos + bufferPos);
          bufferPos := bufferPos + reading;
        }
      } else {
        var bytes := if pos >= |file| then [] else file[pos..Min(pos + n, |file|)];
        filePos := pos + |bytes|;
        Copy(buffer, 0, bytes);
        return |bytes| == n;
      }
      return true;
    }

    lemma {:induction false} BlockSlice(b: CacheBlock, offset: nat, n: nat)
      requires BlockOk(b) && b.loaded && offset + n <= b.size && b.base <= |file|
      ensures b.base + offset + n <= |file|
      ensures b.data[offset..offset + n] == file[b.base + offset..b.base + offset + n]
    {
      var data, part := b.data[..b.size], file[b.base..b.base + b.size];
      forall k | offset <= k < offset + n
        ensures b.data[k] == file[b.base + k]
      {
        assert data[k] == part[k];
      }
    }
  }

  /** `memcpy` of a block's bytes into the buffer. */
  method Copy(buffer: array<byte>, start: nat, bytes: seq<byte>)
    requires start + |bytes| <= buffer.Length
    modifies buffer
    ensures forall j :: 0 <= j < buffer.Length ==>
      buffer[j] == if start <= j < start + |bytes| then bytes[j - start] else old(buffer[j])
  {
    for k := 0 to |bytes|
      invariant forall j :: 0 <= j < buffer.Length ==>
        buffer[j] == if start <= j < start + k then bytes[j - start] else old(buffer[j])
    {
      buffer[start + k] := bytes[k];
    }
  }

  // ----- whole runs

  datatype Request = Seek(pos: nat) | Tell | ReadOne | ReadMany(n: nat, from: nat)
  datatype Answer = Sought | At(pos: int) | One(b: byte) | EndOfFile | Many(bytes: seq<byte>)

  /** Requests that stay inside the file. */
  predicate InFile(file: seq<byte>, q: Request) {
    match q
    case Seek(p) => p <= |file|
    case ReadMany(n, p) => p + n <= |file|
    case _ => true
  }

  /** What reading a plain byte sequence answers, and where it then stands. */
  function Serve(file: seq<byte>, pos: nat, q: Request): (r: (Answer, nat))
    requires InFile(file, q) && pos <= |file|
    ensures r.1 <= |file|
  {
    match q
    case Seek(p) => (Sought, p)
    case Tell => (At(pos - 1), pos)
    case ReadOne => if pos < |file| then (One(file[pos]), pos + 1) else (EndOfFile, pos)
    case ReadMany(n, p) => (Many(file[p..p + n]), p + n)
  }

  function ServeAll(file: seq<byte>, pos: nat, qs: seq<Request>): seq<Answer>
    requires pos <= |file| && forall q :: q in qs ==> InFile(file, q)
    decreases qs
  {
    if qs == [] then []
    else
      var (answer, pos') := Serve(file, pos, qs[0]);
      [answer] + ServeAll(file, pos', qs[1..])
  }

  /** One request, through whichever way the reader uses. */
  method ServeOne(r: FileReader, q: Request) returns (answer: Answer)
    requires r.Valid() && r.Positioned() && r.Pos() <= |r.file| && InFile(r.file, q)
    modifies r, r.cached
    ensures r.Valid() && r.Positioned() && (answer, r.Pos()) == Serve(r.file, old(r.Pos()), q)
  {
    match q
    case Seek(p) =>
      var ok := r.SafeSeek(p);
      return Sought;
    case Tell =>
      var ok, pos := r.SafeTell();
      return At(pos);
    case ReadOne =>
      var ok, value := r.ReadByte();
      return if ok then One(value) else EndOfFile;
    case ReadMany(n, p) =>
      var buffer := new byte[n](_ => 0);
      var ok := r.ReadBytes(buffer, n, p);
      assert buffer[..] == buffer[..n];
      return Many(buffer[..]);
  }

  /** Cache refinement: any sequence of requests inside the file gets the answers a plain byte sequence
      gives, cached or not, whatever blocks are evicted on the way. */
  method ServeRun(r: FileReader, qs: seq<Request>) returns (answers: seq<Answer>)
    requires r.Valid() && r.Positioned() && r.Pos() <= |r.file| && forall q :: q in qs ==> InFile(r.file, q)
    modifies r, r.cached
    ensures answers == ServeAll(r.file, old(r.Pos()), qs)
  {
    answers := [];
    for i := 0 to |qs|
      invariant r.Valid() && r.Positioned() && r.Pos() <= |r.file|
      invariant answers + ServeAll(r.file, r.Pos(), qs[i..]) == ServeAll(r.file, old(r.Pos()), qs)
    {
      var answer := ServeOne(r, qs[i]);
      answers := answers + [answer];
      assert qs[i..][1..] == qs[i + 1..];
    }
  }

  lemma {:induction false} OneIsInside(mask: nat)
    requires mask % 2 == 1
    ensures AndNot(1, mask) == 0
  {
  }

  /** Beyond the end the two ways differ: in an empty file the second position is found directly, and not
      through the cache. */
  method SeekBeyondEnd() returns (direct: bool, cached: bool)
    ensures direct && !cached
  {
    hide AndNot, CacheSize;
    var r := new FileReader([], false);
    direct := r.SafeSeek(1);
    var c := new FileReader([], true);
    CacheSizes(0);
    OneIsInside(c.cacheSize - 1);
    cached := c.SafeSeek(1);
  }
}
