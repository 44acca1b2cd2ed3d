/**
 Copying into video memory by DMA, in chunks cut where the memory map may change.

 The reference is a transfer that moves one byte at a time, translating both addresses each time
 and wrapping the destination inside 0x8000-0x9FFF. `DoDma` must leave the same memory, and mark
 exactly the tile pairs that were written.
 */
module DmaCopy {

  type Byte = b: int | 0 <= b < 256
  type U16 = x: int | 0 <= x < 0x1_0000
  type Word = bv32

  // ------------------------------------------------------------------ dirty bits

  /** A bit position, in the width that a shift amount has. */
  function Pos(i: nat): (p: bv6)
    requires i < 32
    ensures p < 32
  {
    PosFits(i);
    i as bv6
  }

  lemma PosFits(i: nat)
    requires i < 32
    ensures (i as bv6) < 32
  {
  }

  ghost predicate Test(w: Word, i: bv6)
    requires i < 32
  {
    (w >> i) & 1 == 1
  }

  ghost predicate Bit(words: seq<Word>, b: nat)
    requires b < 32 * |words|
  {
    Test(words[b / 32], Pos(b % 32))
  }

  /** Bit i counts from the low end. */
  lemma TestIs(w: Word, i: bv6)
    requires i < 32
    ensures Test(w, i) <==> w & (1 << i) != 0
  {
  }

  function MaskFrom(i: bv6): Word
    requires i < 32
  {
    0xFFFF_FFFF << i
  }

  function Invert(w: Word): Word { !w }

  function Or(a: Word, b: Word): Word { a | b }

  function And(a: Word, b: Word): Word { a & b }

  lemma TestMask(f: bv6, i: bv6)
    requires f < 32 && i < 32
    ensures Test(MaskFrom(f), i) <==> f <= i
  {
  }

  lemma TestOr(a: Word, b: Word, i: bv6)
    requires i < 32
    ensures Test(Or(a, b), i) <==> Test(a, i) || Test(b, i)
  {
  }

  lemma DeMorgan(a: Word, b: Word)
    ensures And(a, b) == Invert(Or(Invert(a), Invert(b)))
  {
  }

  lemma TestAnd(a: Word, b: Word, i: bv6)
    requires i < 32
    ensures Test(And(a, b), i) <==> Test(a, i) && Test(b, i)
  {
    hide *;
    DeMorgan(a, b);
    TestInvert(a, i);
    TestInvert(b, i);
    TestOr(Invert(a), Invert(b), i);
    TestInvert(Or(Invert(a), Invert(b)), i);
  }

  lemma TestInvert(a: Word, i: bv6)
    requires i < 32
    ensures Test(Invert(a), i) <==> !Test(a, i)
  {
  }

  lemma TestOnes(i: bv6)
    requires i < 32
    ensures Test(0xFFFF_FFFF, i)
  {
  }

  lemma Positions(i: nat, j: nat)
    requires i < 32 && j < 32
    ensures Pos(i) <= Pos(j) <==> i <= j
  {
  }

  /** A word after the bits [first, last) that fall into it were set. */
  ghost predicate Raised(now: Word, was: Word, word: nat, first: nat, last: nat) {
    forall i :: 0 <= i < 32 ==> (Test(now, Pos(i)) <==> Test(was, Pos(i)) || first <= 32 * word + i < last)
  }

  lemma RaiseBoth(was: Word, word: nat, first: nat, last: nat)
    requires first / 32 == word == last / 32
    ensures Raised(Or(was, And(MaskFrom(Pos(first % 32)), Invert(MaskFrom(Pos(last % 32))))), was, word, first, last)
  {
    hide Test, Pos, MaskFrom, Or, And, Invert;
    var f, l := first % 32, last % 32;
    var fm, lm := MaskFrom(Pos(f)), MaskFrom(Pos(l));
    forall i: nat | i < 32
      ensures Test(Or(was, And(fm, Invert(lm))), Pos(i)) <==> Test(was, Pos(i)) || first <= 32 * word + i < last
    {
      Positions(f, i);
      Positions(l, i);
      TestMask(Pos(f), Pos(i));
      TestMask(Pos(l), Pos(i));
      TestInvert(lm, Pos(i));
      TestAnd(fm, Invert(lm), Pos(i));
      TestOr(was, And(fm, Invert(lm)), Pos(i));
    }
  }

  lemma RaiseFirst(was: Word, word: nat, first: nat, last: nat)
    requires first / 32 == word < last / 32
    ensures Raised(Or(was, MaskFrom(Pos(first % 32))), was, word, first, last)
  {
    hide Test, Pos, MaskFrom, Or, And, Invert;
    var f := first % 32;
    forall i: nat | i < 32
      ensures Test(Or(was, MaskFrom(Pos(f))), Pos(i)) <==> Test(was, Pos(i)) || first <= 32 * word + i < last
    {
      Positions(f, i);
      TestMask(Pos(f), Pos(i));
      TestOr(was, MaskFrom(Pos(f)), Pos(i));
    }
  }

  lemma RaiseMiddle(was: Word, word: nat, first: nat, last: nat)
    requires first / 32 < word < last / 32
    ensures Raised(Or(was, 0xFFFF_FFFF), was, word, first, last)
  {
    hide Test, Pos, Or;
    forall i: nat | i < 32
      ensures Test(Or(was, 0xFFFF_FFFF), Pos(i)) <==> Test(was, Pos(i)) || first <= 32 * word + i < last
    {
      Positions(0, i);
      TestOnes(Pos(i));
      TestOr(was, 0xFFFF_FFFF, Pos(i));
    }
  }

  lemma RaiseLast(was: Word, word: nat, first: nat, last: nat)
    requires first / 32 < word == last / 32
    ensures Raised(Or(was, Invert(MaskFrom(Pos(last % 32)))), was, word, first, last)
  {
    hide Test, Pos, MaskFrom, Or, And, Invert;
    var l := last % 32;
    var lm := MaskFrom(Pos(l));
    forall i: nat | i < 32
      ensures Test(Or(was, Invert(lm)), Pos(i)) <==> Test(was, Pos(i)) || first <= 32 * word + i < last
    {
      Positions(l, i);
      TestMask(Pos(l), Pos(i));
      TestInvert(lm, Pos(i));
      TestOr(was, Invert(lm), Pos(i));
    }
  }

  lemma RaisedBits(now: seq<Word>, was: seq<Word>, first: nat, last: nat)
    requires |now| == |was| && first <= last && last / 32 < |was|
    requires forall w :: first / 32 <= w <= last / 32 ==> Raised(now[w], was[w], w, first, last)
    requires forall w :: 0 <= w < |was| && (w < first / 32 || w > last / 32) ==> now[w] == was[w]
    ensures forall b :: 0 <= b < 32 * |was| ==> (Bit(now, b) <==> Bit(was, b) || first <= b < last)
  {
    hide Test, Pos;
    forall b: nat | b < 32 * |was| ensures Bit(now, b) <==> Bit(was, b) || first <= b < last {
      var w, i := b / 32, b % 32;
      assert b == 32 * w + i;
      if first / 32 <= w <= last / 32 {
        assert Raised(now[w], was[w], w, first, last);
      }
    }
  }

  /** Sets the bits from firstBit up to but not including lastBit. */
  method SetBits(base: array<Word>, firstBit: nat, lastBit: nat)
    requires firstBit <= lastBit && lastBit / 32 < base.Length
    modifies base
    ensures forall b :: 0 <= b < 32 * base.Length ==>
      (Bit(base[..], b) <==> old(Bit(base[..], b)) || firstBit <= b < lastBit)
  {
    hide Test, Pos, MaskFrom, Or, And, Invert, Raised, Bit;
    var firstWord, lastWord := firstBit / 32, lastBit / 32;
    var firstMask := MaskFrom(Pos(firstBit % 32));
    var lastMask := Invert(MaskFrom(Pos(lastBit % 32)));
    ghost var was := base[..];
    if firstWord == lastWord {
      RaiseBoth(base[firstWord], firstWord, firstBit, lastBit);
      base[firstWord] := Or(base[firstWord], And(firstMask, lastMask));
    } else {
      RaiseFirst(base[firstWord], firstWord, firstBit, lastBit);
      base[firstWord] := Or(base[firstWord], firstMask);
      var i := firstWord + 1;
      while i < lastWord
        invariant firstWord < i <= lastWord
        invariant forall w :: firstWord <= w < i ==> Raised(base[w], was[w], w, firstBit, lastBit)
        invariant forall w :: 0 <= w < firstWord || i <= w < base.Length ==> base[w] == was[w]
      {
        RaiseMiddle(base[i], i, firstBit, lastBit);
        base[i] := Or(base[i], 0xFFFF_FFFF);
        i := i + 1;
      }
      RaiseLast(base[i], i, firstBit, lastBit);
      base[i] := Or(base[i], lastMask);
    }
    RaisedBits(base[..], was, firstBit, lastBit);
  }

  // ------------------------------------------------------------------ the reference transfer

  /** Where the map places an address of the emulated machine. */
  function Host(map_: seq<int>, address: nat): int
    requires |map_| == 16 && address < 0x1_0000
  {
    map_[address / 0x1000] + address
  }

  /** The destination of byte i: it wraps inside the 8 KB of video memory. */
  function DestAt(dest: nat, i: nat): (d: nat)
    requires 0x8000 <= dest < 0xA000
    ensures 0x8000 <= d < 0xA000
  {
    0x8000 + (dest - 0x8000 + i) % 0x2000
  }

  /** A map and a transfer that make sense together: the two ROM windows and video memory are each
      in one piece, everything is inside host memory, and video memory is not copied to itself. */
  ghost predicate Sound(map_: seq<int>, size: nat, src: nat, n: nat) {
    && |map_| == 16 && src + n <= 0x1_0000
    && map_[0] == map_[1] == map_[2] == map_[3] && map_[4] == map_[5] == map_[6] == map_[7]
    && map_[8] == map_[9] && 0 <= Host(map_, 0x8000) && Host(map_, 0x8000) + 0x2000 <= size
    && forall a :: src <= a < src + n ==> SourceApart(map_, size, a)
  }

  ghost predicate SourceApart(map_: seq<int>, size: nat, address: nat)
    requires |map_| == 16 && address < 0x1_0000
  {
    var h := Host(map_, address);
    0 <= h < size && (h < Host(map_, 0x8000) || Host(map_, 0x8000) + 0x2000 <= h)
  }

  /** m with count bytes from one place copied to another. */
  ghost function Spliced(m: seq<Byte>, to: nat, from: nat, count: nat): seq<Byte>
    requires to + count <= |m| && from + count <= |m|
  {
    m[..to] + m[from..from + count] + m[to + count..]
  }

  /** n bytes moved one at a time, each address translated when it is used. */
  ghost function ByteTransfer(m: seq<Byte>, map_: seq<int>, src: nat, dest: nat, n: nat): (r: seq<Byte>)
    requires 0x8000 <= dest < 0xA000 && Sound(map_, |m|, src, n)
    ensures |r| == |m|
  {
    if n == 0 then m
    else
      assert SourceApart(map_, |m|, src + n - 1);
      var before := ByteTransfer(m, map_, src, dest, n - 1);
      before[Host(map_, DestAt(dest, n - 1)) := before[Host(map_, src + n - 1)]]
  }

  /** Byte i of a transfer, and no other, goes to address x of host memory. */
  ghost predicate Lands(map_: seq<int>, dest: nat, i: nat, x: int)
    requires |map_| == 16 && 0x8000 <= dest < 0xA000 && i < 0x2000
  {
    var d := if dest + i < 0xA000 then dest + i else dest + i - 0x2000;
    x == map_[d / 0x1000] + d
  }

  /** Byte i arrived: what stood at the source address stands at the destination, wrapped to video memory. */
  ghost predicate Arrived(now: seq<Byte>, was: seq<Byte>, map_: seq<int>, src: nat, dest: nat, i: nat)
    requires |map_| == 16 && 0x8000 <= dest < 0xA000 && i < 0x2000 && src + i < 0x1_0000
  {
    var d := if dest + i < 0xA000 then dest + i else dest + i - 0x2000;
    var to, from := map_[d / 0x1000] + d, map_[(src + i) / 0x1000] + src + i;
    0 <= to < |now| && 0 <= from < |was| && now[to] == was[from]
  }

  /** A whole transfer, byte by byte, through the memory map alone. */
  ghost predicate Delivered(now: seq<Byte>, was: seq<Byte>, map_: seq<int>, src: nat, dest: nat, n: nat)
    requires |map_| == 16 && 0x8000 <= dest < 0xA000 && n <= 0x2000 && src + n <= 0x1_0000
  {
    && |now| == |was|
    && (forall i :: 0 <= i < n ==> Arrived(now, was, map_, src, dest, i))
    && (forall x :: 0 <= x < |was| && (forall i :: 0 <= i < n ==> !Lands(map_, dest, i, x)) ==> now[x] == was[x])
  }

  /** The tile pair a written byte belongs to; -1 for the background maps. */
  function Pair(address: nat): int
    requires 0x8000 <= address < 0xA000
  {
    if address < 0x9800 then (address - 0x8000) / 32 else -1
  }

  ghost predicate Touched(dest: nat, n: nat, pair: int)
    requires 0x8000 <= dest < 0xA000
  {
    exists i :: 0 <= i < n && Pair(DestAt(dest, i)) == pair
  }

  ghost predicate TouchedByBlock(d: nat, count: nat, pair: int) {
    d < 0x9800 && (d - 0x8000) / 32 <= pair <= (d - 0x8000 + count - 1) / 32
  }

  /** The dirty bits now are those of before and, if tiles were copied, the touched pairs. */
  ghost predicate Marked(now: seq<Word>, was: seq<Word>, copied: bool, dest: nat, n: nat)
    requires 0x8000 <= dest < 0xA000
  {
    && |now| == |was| == 12
    && forall b :: 0 <= b < 32 * 12 ==> (Bit(now, b) <==> Bit(was, b) || (copied && Touched(dest, n, b)))
  }

  // ------------------------------------------------------------------ the code

  class DmaEngine {
    const mem: array<Byte>
    const dirtyTileBits: array<Word>
    const memmap: seq<int>
    const dmaMode: nat
    var dmaSrc: U16
    var dmaDest: U16

    ghost predicate Valid()
      reads this
    {
      && |memmap| == 16 && dirtyTileBits.Length == 12 && mem as object != dirtyTileBits
      && 0x8000 <= dmaDest < 0xA000
    }

    constructor (mem: array<Byte>, bits: array<Word>, memmap: seq<int>, mode: nat, src: U16, dest: U16)
      requires |memmap| == 16 && bits.Length == 12 && mem as object != bits && 0x8000 <= dest < 0xA000
      ensures Valid() && this.mem == mem && this.dirtyTileBits == bits && this.memmap == memmap
      ensures dmaMode == mode && dmaSrc == src && dmaDest == dest
    {
      this.mem, this.dirtyTileBits, this.memmap := mem, bits, memmap;
      dmaMode, dmaSrc, dmaDest := mode, src, dest;
    }

    /** Copies a block of host memory to a disjoint one. */
    method MemCopy(to: nat, from: nat, count: nat)
      requires to + count <= mem.Length && from + count <= mem.Length
      requires to + count <= from || from + count <= to
      modifies mem
      ensures mem[..] == old(mem[..to]) + old(mem[from..from + count]) + old(mem[to + count..])
    {
      forall k | 0 <= k < count {
        mem[to + k] := mem[from + k];
      }
    }

    /** Marks the tile pairs of a written block; background maps are marked elsewhere. */
    method SetDirtyTiles(dest: nat, byteCount: nat)
      requires Valid() && 0x8000 <= dest && byteCount > 0 && (dest < 0x9800 ==> dest + byteCount <= 0x9800)
      modifies dirtyTileBits
      ensures BlockMarked(dirtyTileBits[..], old(dirtyTileBits[..]), dest, byteCount)
    {
      hide Bit;
      if dest < 0x9800 {
        var firstTileNumber := (dest - 0x8000) / 16;
        var lastTileNumber := (dest - 0x8000 + byteCount + 15) / 16;
        var firstBit := firstTileNumber / 2;
        var lastBit := (lastTileNumber + 1) / 2;
        SetBits(dirtyTileBits, firstBit, lastBit);
      }
    }

    /** Cuts a count where the source block ends; left grows by what was cut off. */
    method CutAtSourceBlock(count: nat, left: nat) returns (byteCount: nat, left': nat)
      requires 0 < count <= 0x800 && dmaSrc + count <= 0x1_0000
      ensures 0 < byteCount <= count && byteCount + left' == count + left
      ensures OneSourceBlock(dmaSrc, byteCount)
    {
      byteCount, left' := count, left;
      var src := dmaSrc;
      var srcEnd := src + byteCount;
      var srcEndBlock := (srcEnd - 1) / 0x1000 * 0x1000;
      var srcBlock := src / 0x1000 * 0x1000;
      if src < 0x8000 {
        // masking a block start with the coarser mask masks the address itself
        srcBlock := src / 0x4000 * 0x4000;
        srcEndBlock := (srcEnd - 1) / 0x4000 * 0x4000;
      }
      if srcEndBlock != srcBlock {
        left' := left' + (srcEnd - srcEndBlock);
        byteCount := srcEndBlock - src;
      }
    }

    /** Cuts a count where the destination block ends. */
    method CutAtDestBlock(count: nat, left: nat) returns (byteCount: nat, left': nat)
      requires Valid() && 0 < count <= 0x800
      ensures 0 < byteCount <= count && byteCount + left' == count + left
      ensures OneDestBlock(dmaDest, byteCount)
    {
      byteCount, left' := count, left;
      var dest := dmaDest;
      var destEnd := dest + byteCount;
      var destEndBlock := (destEnd - 1) / 0x800 * 0x800;
      var destBlock := dest / 0x800 * 0x800;
      if destEndBlock != destBlock {
        left' := left' + (destEnd - destEndBlock);
        byteCount := destEndBlock - dest;
      }
    }

    method CopyChunk(destAddress: nat, sourceAddress: nat, byteCount: nat)
      requires Valid() && byteCount > 0 && (dmaDest < 0x9800 ==> dmaDest + byteCount <= 0x9800)
      requires destAddress + byteCount <= mem.Length && sourceAddress + byteCount <= mem.Length
      requires destAddress + byteCount <= sourceAddress || sourceAddress + byteCount <= destAddress
      modifies mem, dirtyTileBits
      ensures mem[..] == Spliced(old(mem[..]), destAddress, sourceAddress, byteCount)
      ensures BlockMarked(dirtyTileBits[..], old(dirtyTileBits[..]), dmaDest, byteCount)
    {
      hide BlockMarked;
      MemCopy(destAddress, sourceAddress, byteCount);
      SetDirtyTiles(dmaDest, byteCount);
    }

    /** The state after the first k bytes of a transfer. */
    ghost predicate After(k: nat, m0: seq<Byte>, bits0: seq<Word>, src0: nat, dest0: nat)
      reads this, mem, dirtyTileBits
    {
      && Valid() && 0x8000 <= dest0 < 0xA000 && |m0| == mem.Length && Sound(memmap, mem.Length, src0, k)
      && dmaSrc == (src0 + k) % 0x1_0000 && dmaDest == DestAt(dest0, k)
      && mem[..] == (if dmaMode == 1 then m0 else ByteTransfer(m0, memmap, src0, dest0, k))
      && Marked(dirtyTileBits[..], bits0, dmaMode != 1, dest0, k)
    }

    /** Cuts the next chunk at both ends. */
    method CutChunk(remaining: nat) returns (byteCount: nat, left: nat)
      requires Valid() && 0 < remaining <= 0x800 && dmaSrc + remaining <= 0x1_0000
      ensures 0 < byteCount <= remaining && byteCount + left == remaining
      ensures OneSourceBlock(dmaSrc, byteCount) && OneDestBlock(dmaDest, byteCount)
    {
      hide OneSourceBlock, OneDestBlock;
      byteCount, left := CutAtSourceBlock(remaining, 0);
      ShorterSource(dmaSrc, byteCount);
      byteCount, left := CutAtDestBlock(byteCount, left);
    }

    /** Copies the next chunk, unless the mode is 1, and moves the pointers behind it. */
    method MoveChunk(byteCount: nat, ghost n: nat, ghost k: nat, ghost m0: seq<Byte>, ghost bits0: seq<Word>,
                     ghost src0: nat, ghost dest0: nat)
      requires dmaMode != 2 && 0 < byteCount && k + byteCount <= n && After(k, m0, bits0, src0, dest0)
      requires Sound(memmap, mem.Length, src0, n) && dmaSrc == src0 + k
      requires OneSourceBlock(dmaSrc, byteCount) && OneDestBlock(dmaDest, byteCount)
      modifies this`dmaSrc, this`dmaDest, mem, dirtyTileBits
      ensures After(k + byteCount, m0, bits0, src0, dest0)
    {
      hide Sound, ByteTransfer, Marked, DestAt, OneSourceBlock, OneDestBlock, Host, BlockMarked, Spliced;
      ChunkFacts(memmap, mem.Length, src0, dest0, n, k, byteCount);
      ghost var bits1 := dirtyTileBits[..];
      if dmaMode != 1 {
        ChunkIsBytes(m0, memmap, src0, dest0, k, byteCount);
        CopyChunk(Host(memmap, dmaDest), Host(memmap, dmaSrc), byteCount);
        MarkedMore(dirtyTileBits[..], bits1, bits0, dest0, k, byteCount);
      } else {
        NothingMarked(bits1, bits0, dest0, k, k + byteCount);
      }
      dmaSrc := (dmaSrc + byteCount) % 0x1_0000;
      dmaDest := 0x8000 + (dmaDest + byteCount) % 0x2000;
    }

    /** Transfers n bytes. In mode 1 nothing is copied, but the pointers still move. */
    method DoDma(n: nat)
      requires Valid() && n <= 0x800 && dmaMode != 2 && Sound(memmap, mem.Length, dmaSrc, n)
      modifies this`dmaSrc, this`dmaDest, mem, dirtyTileBits
      ensures Valid() && dmaSrc == (old(dmaSrc) + n) % 0x1_0000 && dmaDest == DestAt(old(dmaDest), n)
      ensures mem[..] == if dmaMode == 1 then old(mem[..])
        else ByteTransfer(old(mem[..]), memmap, old(dmaSrc), old(dmaDest), n)
      ensures old(dmaSrc) + n <= 0x1_0000
      ensures dmaMode != 1 ==> Delivered(mem[..], old(mem[..]), memmap, old(dmaSrc), old(dmaDest), n)
      ensures dmaDest == old(dmaDest) + n || dmaDest == old(dmaDest) + n - 0x2000
      ensures Marked(dirtyTileBits[..], old(dirtyTileBits[..]), dmaMode != 1, old(dmaDest), n)
    {
      hide Sound, ByteTransfer, Marked, DestAt, OneSourceBlock, OneDestBlock;
      var remaining: nat := n;
      ghost var k: nat, src0: nat, dest0: nat := 0, dmaSrc, dmaDest;
      ghost var m0, bits0 := mem[..], dirtyTileBits[..];
      Start(m0, memmap, src0, dest0, n, bits0, dmaMode != 1);
      while remaining > 0
        invariant k + remaining == n && After(k, m0, bits0, src0, dest0)
        decreases remaining
      {
        SourceInRange(memmap, mem.Length, src0, n, k);
        var byteCount, left := CutChunk(remaining);
        MoveChunk(byteCount, n, k, m0, bits0, src0, dest0);
        remaining := left;
        k := k + byteCount;
      }
      TransferDelivers(m0, memmap, src0, dest0, n);
      Wraps(dest0, n);
    }
  }

  ghost predicate BlockMarked(now: seq<Word>, was: seq<Word>, d: nat, count: nat) {
    && |now| == |was| == 12
    && forall b :: 0 <= b < 32 * 12 ==> (Bit(now, b) <==> Bit(was, b) || TouchedByBlock(d, count, b))
  }

  lemma MarkedMore(now: seq<Word>, mid: seq<Word>, was: seq<Word>, dest: nat, k: nat, c: nat)
    requires 0x8000 <= dest < 0xA000 && c > 0 && OneDestBlock(DestAt(dest, k), c)
    requires Marked(mid, was, true, dest, k) && BlockMarked(now, mid, DestAt(dest, k), c)
    ensures Marked(now, was, true, dest, k + c)
  {
    hide Bit, Touched, TouchedByBlock, DestAt, OneDestBlock;
    forall b | 0 <= b < 32 * 12 ensures Bit(now, b) <==> Bit(was, b) || Touched(dest, k + c, b) {
      ChunkTouches(dest, k, c, b);
    }
  }

  lemma NothingMarked(now: seq<Word>, was: seq<Word>, dest: nat, k: nat, k': nat)
    requires 0x8000 <= dest < 0xA000 && Marked(now, was, false, dest, k)
    ensures Marked(now, was, false, dest, k')
  {
    hide Bit;
  }

  /** count bytes from src on lie in one block that the map cannot split. */
  ghost predicate OneSourceBlock(src: nat, count: nat) {
    if src < 0x8000 then (src + count - 1) / 0x4000 == src / 0x4000 else (src + count - 1) / 0x1000 == src / 0x1000
  }

  ghost predicate OneDestBlock(dest: nat, count: nat) {
    (dest + count - 1) / 0x800 == dest / 0x800
  }

  // ------------------------------------------------------------------ proofs

  lemma Start(m: seq<Byte>, map_: seq<int>, src: nat, dest: nat, n: nat, bits: seq<Word>, copied: bool)
    requires 0x8000 <= dest < 0xA000 && Sound(map_, |m|, src, n) && |bits| == 12
    ensures Sound(map_, |m|, src, 0) && ByteTransfer(m, map_, src, dest, 0) == m
    ensures DestAt(dest, 0) == dest && Marked(bits, bits, copied, dest, 0)
  {
  }

  lemma Wraps(dest: nat, i: nat)
    requires 0x8000 <= dest < 0xA000 && i < 0x2000
    ensures DestAt(dest, i) == if dest + i < 0xA000 then dest + i else dest + i - 0x2000
  {
  }

  /** The reference transfer delivers every byte and changes nothing else. */
  lemma {:induction false} TransferDelivers(m: seq<Byte>, map_: seq<int>, src: nat, dest: nat, n: nat)
    requires 0x8000 <= dest < 0xA000 && n <= 0x2000 && Sound(map_, |m|, src, n)
    ensures src + n <= 0x1_0000 && Delivered(ByteTransfer(m, map_, src, dest, n), m, map_, src, dest, n)
  {
    if n > 0 {
      var before := ByteTransfer(m, map_, src, dest, n - 1);
      ShorterSound(map_, |m|, src, n, n - 1);
      TransferDelivers(m, map_, src, dest, n - 1);
      TransferStep(m, map_, src, dest, n);
      OneDelivered(before, ByteTransfer(m, map_, src, dest, n), m, map_, src, dest, n - 1);
    }
  }

  /** One more byte: its source was not overwritten, and it overwrites none of the others. */
  lemma OneDelivered(before: seq<Byte>, now: seq<Byte>, m: seq<Byte>, map_: seq<int>, src: nat, dest: nat, k: nat)
    requires 0x8000 <= dest < 0xA000 && k < 0x2000 && Sound(map_, |m|, src, k + 1)
    requires Delivered(before, m, map_, src, dest, k)
    requires var hs, hd := Host(map_, src + k), Host(map_, DestAt(dest, k));
      0 <= hs < |m| && 0 <= hd < |m| && now == before[hd := before[hs]]
    ensures Delivered(now, m, map_, src, dest, k + 1)
  {
    var hs, hd, v := Host(map_, src + k), Host(map_, DestAt(dest, k)), Host(map_, 0x8000);
    assert SourceApart(map_, |m|, src + k);
    forall i: nat | i <= k ensures forall x: int :: Lands(map_, dest, i, x) <==> x == v + (DestAt(dest, i) - 0x8000) {
      LandsInVideo(map_, |m|, src, k + 1, dest, i);
    }
    hide Sound;
    assert before[hs] == m[hs];
    hide Lands;
    forall i | 0 <= i < k + 1 ensures Arrived(now, m, map_, src, dest, i) {
      Wraps(dest, i);
      Wraps(dest, k);
      DestHost(map_, |m|, src, k + 1, DestAt(dest, i));
      DestHost(map_, |m|, src, k + 1, DestAt(dest, k));
      assert i < k ==> Arrived(before, m, map_, src, dest, i);
    }
    forall x | 0 <= x < |m| && (forall i :: 0 <= i < k + 1 ==> !Lands(map_, dest, i, x)) ensures now[x] == m[x] {
      assert !Lands(map_, dest, k, x) && forall i :: 0 <= i < k ==> !Lands(map_, dest, i, x);
    }
  }

  lemma LandsInVideo(map_: seq<int>, size: nat, src: nat, n: nat, dest: nat, i: nat)
    requires Sound(map_, size, src, n) && 0x8000 <= dest < 0xA000 && i < 0x2000
    ensures forall x: int :: Lands(map_, dest, i, x) <==> x == Host(map_, 0x8000) + (DestAt(dest, i) - 0x8000)
  {
    Wraps(dest, i);
    DestHost(map_, size, src, n, DestAt(dest, i));
  }

  lemma SourceInRange(map_: seq<int>, size: nat, src: nat, n: nat, k: nat)
    requires Sound(map_, size, src, n) && k < n
    ensures src + n <= 0x1_0000 && (src + k) % 0x1_0000 == src + k
  {
  }

  lemma ShorterSource(src: nat, count: nat)
    requires OneSourceBlock(src, count)
    ensures forall c :: 0 < c <= count ==> OneSourceBlock(src, c)
  {
  }

  lemma ShorterSound(map_: seq<int>, size: nat, src: nat, n: nat, k: nat)
    requires Sound(map_, size, src, n) && k <= n
    ensures Sound(map_, size, src, k)
  {
    assert forall a :: src <= a < src + k ==> SourceApart(map_, size, a);
  }

  /** Addresses of one source block are as far apart in host memory as in the machine. */
  lemma SourceIsContiguous(map_: seq<int>, size: nat, src: nat, n: nat, at: nat, c: nat, i: nat)
    requires Sound(map_, size, src, n) && src <= at && at + c <= src + n && i < c && OneSourceBlock(at, c)
    ensures Host(map_, at + i) == Host(map_, at) + i && SourceApart(map_, size, at + i)
  {
    if at < 0x4000 {
      assert (at + i) / 0x1000 <= 3;
    } else if at < 0x8000 {
      assert 4 <= (at + i) / 0x1000 <= 7;
    }
  }

  lemma DestIsContiguous(dest: nat, k: nat, c: nat, i: nat)
    requires 0x8000 <= dest < 0xA000 && i <= c && c > 0 && OneDestBlock(DestAt(dest, k), c)
    ensures DestAt(dest, k) + c <= 0xA000
    ensures DestAt(dest, k) < 0x9800 ==> DestAt(dest, k) + c <= 0x9800
    ensures i < c ==> DestAt(dest, k + i) == DestAt(dest, k) + i
    ensures DestAt(dest, k + i) == 0x8000 + (DestAt(dest, k) + i) % 0x2000
  {
  }

  /** A chunk is contiguous in host memory at both ends, and does not overlap itself. */
  lemma ChunkFacts(map_: seq<int>, size: nat, src: nat, dest: nat, n: nat, k: nat, c: nat)
    requires 0x8000 <= dest < 0xA000 && k + c <= n && c > 0 && Sound(map_, size, src, n)
    requires OneSourceBlock(src + k, c) && OneDestBlock(DestAt(dest, k), c)
    ensures src + k < 0x1_0000 && Sound(map_, size, src, k) && Sound(map_, size, src, k + c)
    ensures DestAt(dest, k) < 0x9800 ==> DestAt(dest, k) + c <= 0x9800
    ensures DestAt(dest, k + c) == 0x8000 + (DestAt(dest, k) + c) % 0x2000
    ensures var hs, hd := Host(map_, src + k), Host(map_, DestAt(dest, k));
      0 <= hs && hs + c <= size && 0 <= hd && hd + c <= size && (hd + c <= hs || hs + c <= hd)
  {
    ShorterSound(map_, size, src, n, k);
    ShorterSound(map_, size, src, n, k + c);
    DestIsContiguous(dest, k, c, c);
    SourceIsContiguous(map_, size, src, n, src + k, c, 0);
    SourceIsContiguous(map_, size, src, n, src + k, c, c - 1);
    DestHost(map_, size, src, n, DestAt(dest, k));
    var hs, v := Host(map_, src + k), Host(map_, 0x8000);
    forall h | hs <= h < hs + c ensures Outside(h, v) {
      SourceIsContiguous(map_, size, src, n, src + k, c, h - hs);
    }
    AllOutside(hs, c, v);
  }

  ghost predicate Outside(h: int, v: int) {
    h < v || v + 0x2000 <= h
  }

  lemma AllOutside(h: int, c: nat, v: int)
    requires c > 0 && forall x :: h <= x < h + c ==> Outside(x, v)
    ensures h + c <= v || v + 0x2000 <= h
  {
    assert Outside(h, v) && !Outside(v, v);
  }

  lemma DestHost(map_: seq<int>, size: nat, src: nat, n: nat, d: nat)
    requires Sound(map_, size, src, n) && 0x8000 <= d < 0xA000
    ensures Host(map_, d) == Host(map_, 0x8000) + (d - 0x8000)
    ensures 0 <= Host(map_, 0x8000) && Host(map_, 0x8000) + 0x2000 <= size
  {
    assert d / 0x1000 == 8 || d / 0x1000 == 9;
  }

  /** Copying a chunk as a block is moving its bytes one at a time. */
  lemma {:induction false} ChunkIsBytes(m: seq<Byte>, map_: seq<int>, src: nat, dest: nat, k: nat, c: nat)
    requires 0x8000 <= dest < 0xA000 && c > 0 && Sound(map_, |m|, src, k + c) && Sound(map_, |m|, src, k)
    requires OneSourceBlock(src + k, c) && OneDestBlock(DestAt(dest, k), c)
    ensures var t, hs, hd := ByteTransfer(m, map_, src, dest, k), Host(map_, src + k), Host(map_, DestAt(dest, k));
      && 0 <= hs && hs + c <= |m| && 0 <= hd && hd + c <= |m|
      && ByteTransfer(m, map_, src, dest, k + c) == Spliced(t, hd, hs, c)
    decreases c
  {
    hide SourceApart, DestAt, Host, OneSourceBlock, OneDestBlock, ByteTransfer, Spliced;
    var t, hs, hd := ByteTransfer(m, map_, src, dest, k), Host(map_, src + k), Host(map_, DestAt(dest, k));
    ChunkHosts(map_, |m|, src, dest, k, c);
    ShorterSound(map_, |m|, src, k + c, k + c - 1);
    hide Sound;
    if c > 1 {
      ShorterSource(src + k, c);
      ShorterDest(DestAt(dest, k), c);
      ChunkIsBytes(m, map_, src, dest, k, c - 1);
    }
    OneMoreByte(t, ByteTransfer(m, map_, src, dest, k + c - 1), hs, hd, c);
    TransferStep(m, map_, src, dest, k + c);
  }

  /** Where a chunk and its last byte are in host memory. */
  lemma ChunkHosts(map_: seq<int>, size: nat, src: nat, dest: nat, k: nat, c: nat)
    requires 0x8000 <= dest < 0xA000 && c > 0 && Sound(map_, size, src, k + c)
    requires OneSourceBlock(src + k, c) && OneDestBlock(DestAt(dest, k), c)
    ensures var hs, hd := Host(map_, src + k), Host(map_, DestAt(dest, k));
      && 0 <= hs && hs + c <= size && 0 <= hd && hd + c <= size && (hd + c <= hs || hs + c <= hd)
      && Host(map_, src + k + c - 1) == hs + c - 1 && Host(map_, DestAt(dest, k + c - 1)) == hd + c - 1
  {
    hide SourceApart, DestAt, Host, OneSourceBlock, OneDestBlock;
    ChunkFacts(map_, size, src, dest, k + c, k, c);
    SourceIsContiguous(map_, size, src, k + c, src + k, c, c - 1);
    LastDestHost(map_, size, src, k + c, dest, k, c);
  }

  lemma TransferStep(m: seq<Byte>, map_: seq<int>, src: nat, dest: nat, n: nat)
    requires 0x8000 <= dest < 0xA000 && n > 0 && Sound(map_, |m|, src, n) && Sound(map_, |m|, src, n - 1)
    ensures var u, hs, hd := ByteTransfer(m, map_, src, dest, n - 1), Host(map_, src + n - 1), Host(map_, DestAt(dest, n - 1));
      && 0 <= hs < |m| && 0 <= hd < |m| && ByteTransfer(m, map_, src, dest, n) == u[hd := u[hs]]
  {
    hide Host, DestAt;
    assert SourceApart(map_, |m|, src + n - 1);
    DestHost(map_, |m|, src, n, DestAt(dest, n - 1));
  }

  lemma LastDestHost(map_: seq<int>, size: nat, src: nat, n: nat, dest: nat, k: nat, c: nat)
    requires 0x8000 <= dest < 0xA000 && c > 0 && Sound(map_, size, src, n) && OneDestBlock(DestAt(dest, k), c)
    ensures Host(map_, DestAt(dest, k + c - 1)) == Host(map_, DestAt(dest, k)) + c - 1
  {
    DestIsContiguous(dest, k, c, c - 1);
    DestHost(map_, size, src, n, DestAt(dest, k));
    DestHost(map_, size, src, n, DestAt(dest, k + (c - 1)));
  }

  lemma ShorterDest(dest: nat, count: nat)
    requires OneDestBlock(dest, count) && count > 1
    ensures OneDestBlock(dest, count - 1)
  {
  }

  lemma OneMoreByte(t: seq<Byte>, u: seq<Byte>, hs: nat, hd: nat, c: nat)
    requires c > 0 && |u| == |t| && hs + c <= |t| && hd + c <= |t| && (hd + c <= hs || hs + c <= hd)
    requires if c == 1 then u == t else u == Spliced(t, hd, hs, c - 1)
    ensures u[hd + c - 1 := u[hs + c - 1]] == Spliced(t, hd, hs, c)
  {
    SplicedAt(t, hd, hs, c);
    if c > 1 {
      SplicedAt(t, hd, hs, c - 1);
    }
    hide Spliced;
    assert u[hs + c - 1] == t[hs + c - 1];
  }

  lemma SplicedAt(m: seq<Byte>, to: nat, from: nat, count: nat)
    requires to + count <= |m| && from + count <= |m|
    ensures |Spliced(m, to, from, count)| == |m|
    ensures forall i :: 0 <= i < |m| ==> Spliced(m, to, from, count)[i] == if to <= i < to + count then m[from + (i - to)] else m[i]
  {
  }

  /** The pairs a chunk touches are those from its first byte's to its last byte's. */
  lemma ChunkTouches(dest: nat, k: nat, c: nat, b: nat)
    requires 0x8000 <= dest < 0xA000 && c > 0 && OneDestBlock(DestAt(dest, k), c)
    ensures Touched(dest, k + c, b) <==> Touched(dest, k, b) || TouchedByBlock(DestAt(dest, k), c, b)
  {
    hide OneDestBlock, DestAt;
    var d := DestAt(dest, k);
    DestIsContiguous(dest, k, c, 0);
    if Touched(dest, k + c, b) {
      var i :| 0 <= i < k + c && Pair(DestAt(dest, i)) == b;
      if i >= k {
        DestIsContiguous(dest, k, c, i - k);
      }
    }
    if TouchedByBlock(d, c, b) {
      var i := if b == (d - 0x8000) / 32 then 0 else 32 * b - (d - 0x8000);
      DestIsContiguous(dest, k, c, i);
      assert Pair(DestAt(dest, k + i)) == b;
    }
  }
}
