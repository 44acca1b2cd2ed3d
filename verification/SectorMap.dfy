/**
 The sectors of a NOR flash chip, as its Common Flash Interface describes them: one to four
 regions of equally sized sectors, in address order or in reverse.
 */
module SectorMap {
  import opened Arith

  const MAX_REGIONS := 4

  datatype Region = Region(start: nat, end: nat, size: nat)

  /** What probing the chip found out. */
  datatype Probe = Probe(flashId: nat, flashSize: nat, writeBufferSize: nat, sectorSize: nat, regions: seq<Region>, isIntel: bool)

  // ------------------------------------------------------------------ meaning

  /** Consecutive regions from `from` to `to`, without gap or overlap. */
  ghost predicate Tiles(m: seq<Region>, from: nat, to: nat) {
    if |m| == 0 then from == to else m[0].start == from && m[0].start <= m[0].end && Tiles(m[1..], m[0].end, to)
  }

  function Sum(blocks: seq<nat>, sizes: seq<nat>): nat
    requires |blocks| == |sizes|
  {
    if |blocks| == 0 then 0 else blocks[0] * sizes[0] + Sum(blocks[1..], sizes[1..])
  }

  /** The map that the code goes by: the regions if there are several, else uniform sectors. */
  function Map(p: Probe): seq<Region> {
    if |p.regions| >= 2 then p.regions else [Region(0, p.flashSize, p.sectorSize)]
  }

  /** The smallest step that programming makes. */
  function Unit(p: Probe): (u: nat)
    ensures u > 0 && u % 2 == 0
  {
    if p.writeBufferSize == 0 || p.writeBufferSize % 2 == 1 then 2 else p.writeBufferSize
  }

  ghost predicate GoodRegion(r: Region, unit: nat)
    requires unit > 0
  {
    && r.start < r.end && r.size > 0 && (r.end - r.start) % r.size == 0
    && r.start % 2 == 0 && r.size % 2 == 0 && r.start % unit == 0 && r.size % unit == 0
  }

  /** The map covers the chip with whole sectors that start at multiples of the write buffer. */
  ghost predicate WellFormed(p: Probe) {
    && p.flashSize > 0 && Tiles(Map(p), 0, p.flashSize)
    && forall i :: 0 <= i < |Map(p)| ==> GoodRegion(Map(p)[i], Unit(p))
  }

  /** The first region from i on that holds an address; the number of regions if none does. */
  function FindRegion(m: seq<Region>, addr: nat, i: nat): (k: nat)
    requires i <= |m|
    ensures i <= k <= |m| && (k < |m| ==> m[k].start <= addr < m[k].end)
    ensures forall j :: i <= j < k ==> !(m[j].start <= addr < m[j].end)
    decreases |m| - i
  {
    if i == |m| || m[i].start <= addr < m[i].end then i else FindRegion(m, addr, i + 1)
  }

  /** x rounded down to a multiple of n. */
  function Floor(x: nat, n: nat): (f: nat)
    requires n > 0
    ensures f == x - x % n && f % n == 0 && f <= x < f + n
  {
    DivMod(x, n);
    QuotientIs(n * (x / n), n, x / n, 0);
    n * (x / n)
  }

  ghost function RegionAt(p: Probe, addr: nat): (r: Region)
    requires WellFormed(p) && addr < p.flashSize
    ensures r in Map(p) && r.start <= addr < r.end && GoodRegion(r, Unit(p))
  {
    TilesCover(Map(p), 0, p.flashSize, addr);
    FoundIfHeld(Map(p), addr);
    Map(p)[FindRegion(Map(p), addr, 0)]
  }

  /** Where the sector of an address starts and ends. */
  ghost function SectorStart(p: Probe, addr: nat): nat
    requires WellFormed(p) && addr < p.flashSize
  {
    var r := RegionAt(p, addr);
    r.start + Floor(addr - r.start, r.size)
  }

  ghost function SectorEnd(p: Probe, addr: nat): nat
    requires WellFormed(p) && addr < p.flashSize
  {
    SectorStart(p, addr) + RegionAt(p, addr).size
  }

  /** The region the code finds for an address; the whole chip if it finds none or does not look. */
  function CodeRegion(p: Probe, addr: nat): (r: Region)
    ensures r.start <= addr
  {
    if |p.regions| >= 2 && FindRegion(p.regions, addr, 0) < |p.regions| then p.regions[FindRegion(p.regions, addr, 0)]
    else Region(0, p.flashSize, p.sectorSize)
  }

  function SizeAt(p: Probe, addr: nat): nat { CodeRegion(p, addr).size }

  predicate StartsSector(p: Probe, addr: nat) {
    SizeAt(p, addr) != 0 && (addr - CodeRegion(p, addr).start) % SizeAt(p, addr) == 0
  }

  // ------------------------------------------------------------------ the code

  /** The bytes of region i. */
  function Extent(blocks: seq<nat>, sizes: seq<nat>, i: nat): nat
    requires i < |blocks| == |sizes|
  {
    blocks[i] * sizes[i]
  }

  /** Region r is made from entry i. */
  ghost predicate Made(r: Region, blocks: seq<nat>, sizes: seq<nat>, i: nat)
    requires i < |blocks| == |sizes|
  {
    r.size == sizes[i] && r.end == r.start + Extent(blocks, sizes, i)
  }

  /** The block counts and sizes of the first regions, and their sum. */
  method ReadBlocks(count: nat, counts: seq<nat>, sizes: seq<nat>) returns (blocks: seq<nat>, bytes: seq<nat>, total: nat)
    requires count <= |counts| == |sizes| == MAX_REGIONS
    ensures |blocks| == |bytes| == count && total == Sum(blocks, bytes)
    ensures forall i :: 0 <= i < count ==> blocks[i] == counts[i] + 1 && bytes[i] == 256 * sizes[i]
  {
    blocks, bytes, total := [], [], 0;
    for i := 0 to count
      invariant |blocks| == |bytes| == i && total == Sum(blocks, bytes)
      invariant forall j :: 0 <= j < i ==> blocks[j] == counts[j] + 1 && bytes[j] == 256 * sizes[j]
    {
      var block, size := counts[i] + 1, sizes[i] * 256;
      SumAppend(blocks, bytes, block, size);
      blocks := blocks + [block];
      bytes := bytes + [size];
      total := total + block * size;
    }
  }

  /** Regions from the bottom of the chip up. */
  method LayForward(blocks: seq<nat>, bytes: seq<nat>) returns (regions: seq<Region>)
    requires |blocks| == |bytes|
    ensures |regions| == |blocks| && Tiles(regions, 0, Sum(blocks, bytes))
    ensures forall i :: 0 <= i < |regions| ==> Made(regions[i], blocks, bytes, i)
  {
    hide Tiles, Sum, Extent;
    var n := |blocks|;
    regions := seq(n, _ => Region(0, 0, 0));
    var current := 0;
    TilesNone(0);
    SumOfNone();
    for i := 0 to n
      invariant |regions| == n && current == Sum(blocks[..i], bytes[..i]) && Tiles(regions[..i], 0, current)
      invariant forall j :: 0 <= j < i ==> Made(regions[j], blocks, bytes, j)
    {
      SumNext(blocks, bytes, i);
      var size := Extent(blocks, bytes, i);
      ghost var earlier := regions[..i];
      regions := regions[i := Region(current, current + size, bytes[i])];
      assert regions[..i + 1] == earlier + [regions[i]];
      TilesAppend(earlier, regions[i], 0);
      current := current + size;
    }
    assert blocks[..n] == blocks && bytes[..n] == bytes && regions[..n] == regions;
  }

  /** Regions from the top of the chip down. */
  method LayReversed(blocks: seq<nat>, bytes: seq<nat>, total: nat) returns (regions: seq<Region>)
    requires |blocks| == |bytes| && total == Sum(blocks, bytes)
    ensures |regions| == |blocks| && Tiles(regions, 0, total)
    ensures forall i :: 0 <= i < |regions| ==> Made(regions[i], blocks, bytes, |regions| - 1 - i)
  {
    hide Tiles, Sum, Extent;
    var n := |blocks|;
    regions := seq(n, _ => Region(0, 0, 0));
    var current := total;
    TilesNone(total);
    SumOfNone();
    assert regions[n..] == [];
    for i := 0 to n
      invariant |regions| == n && current == total - Sum(blocks[..i], bytes[..i])
      invariant current >= 0 && Tiles(regions[n - i..], current, total)
      invariant forall j :: n - i <= j < n ==> Made(regions[j], blocks, bytes, n - 1 - j)
    {
      SumNext(blocks, bytes, i);
      var size := Extent(blocks, bytes, i);
      current := current - size;
      var dst := n - 1 - i;
      ghost var later := regions[n - i..];
      regions := regions[dst := Region(current, current + size, bytes[i])];
      assert regions[n - (i + 1)..] == [regions[dst]] + later;
      TilesPrepend(regions[dst], later, total);
    }
    assert blocks[..n] == blocks && bytes[..n] == bytes && regions[n - n..] == regions;
  }

  /** The region table of a chip from its block counts (less one) and block sizes (in 256 bytes). */
  method ReadRegions(count: nat, counts: seq<nat>, sizes: seq<nat>, reversed: bool)
    returns (regions: seq<Region>, blocks: seq<nat>, bytes: seq<nat>)
    requires |counts| == |sizes| == MAX_REGIONS
    ensures |regions| == |blocks| == |bytes| == if count < MAX_REGIONS then count else MAX_REGIONS
    ensures forall i :: 0 <= i < |blocks| ==> blocks[i] == counts[i] + 1 && bytes[i] == 256 * sizes[i]
    ensures Tiles(regions, 0, Sum(blocks, bytes))
    ensures forall i :: 0 <= i < |regions| ==> Made(regions[i], blocks, bytes, if reversed then |regions| - 1 - i else i)
  {
    hide Tiles, Sum, Made;
    var n := if count > MAX_REGIONS then MAX_REGIONS else count;
    var total;
    blocks, bytes, total := ReadBlocks(n, counts, sizes);
    if reversed {
      regions := LayReversed(blocks, bytes, total);
    } else {
      regions := LayForward(blocks, bytes);
    }
  }

  method SectorSizeAt(p: Probe, addr: nat) returns (size: nat)
    ensures size == SizeAt(p, addr)
  {
    if |p.regions| >= 2 {
      for i := 0 to |p.regions|
        invariant FindRegion(p.regions, addr, 0) == FindRegion(p.regions, addr, i)
      {
        if addr >= p.regions[i].start && addr < p.regions[i].end {
          return p.regions[i].size;
        }
      }
    }
    return p.sectorSize;
  }

  method IsSectorBoundary(p: Probe, addr: nat) returns (yes: bool)
    ensures yes <==> StartsSector(p, addr)
  {
    var size := SectorSizeAt(p, addr);
    if size == 0 {
      return false;
    }
    if |p.regions| >= 2 {
      for i := 0 to |p.regions|
        invariant FindRegion(p.regions, addr, 0) == FindRegion(p.regions, addr, i)
      {
        if addr >= p.regions[i].start && addr < p.regions[i].end {
          return (addr - p.regions[i].start) % size == 0;
        }
      }
    }
    return addr % size == 0;
  }

  // ------------------------------------------------------------------ proofs

  lemma TilesNone(at: nat)
    ensures Tiles([], at, at)
  {
  }

  lemma TilesPrepend(r: Region, m: seq<Region>, to: nat)
    requires r.start <= r.end && Tiles(m, r.end, to)
    ensures Tiles([r] + m, r.start, to)
  {
    assert ([r] + m)[1..] == m;
  }

  lemma {:induction false} TilesAppend(m: seq<Region>, r: Region, from: nat)
    requires r.start <= r.end && Tiles(m, from, r.start)
    ensures Tiles(m + [r], from, r.end)
  {
    if |m| == 0 {
      TilesNone(r.end);
      assert (m + [r])[1..] == [];
    } else {
      TilesAppend(m[1..], r, m[0].end);
      assert (m + [r])[1..] == m[1..] + [r];
    }
  }

  lemma {:induction false} SumAppend(blocks: seq<nat>, sizes: seq<nat>, block: nat, size: nat)
    requires |blocks| == |sizes|
    ensures Sum(blocks + [block], sizes + [size]) == Sum(blocks, sizes) + block * size
  {
    if |blocks| > 0 {
      SumAppend(blocks[1..], sizes[1..], block, size);
      assert (blocks + [block])[1..] == blocks[1..] + [block] && (sizes + [size])[1..] == sizes[1..] + [size];
    }
  }

  lemma SumOfNone()
    ensures forall b: seq<nat>, s: seq<nat> :: |b| == |s| == 0 ==> Sum(b, s) == 0
  {
  }

  lemma SumNext(blocks: seq<nat>, sizes: seq<nat>, i: nat)
    requires |blocks| == |sizes| && i < |blocks|
    ensures Sum(blocks[..i + 1], sizes[..i + 1]) == Sum(blocks[..i], sizes[..i]) + Extent(blocks, sizes, i)
    ensures Sum(blocks[..i + 1], sizes[..i + 1]) <= Sum(blocks, sizes)
  {
    SumAppend(blocks[..i], sizes[..i], blocks[i], sizes[i]);
    assert blocks[..i + 1] == blocks[..i] + [blocks[i]] && sizes[..i + 1] == sizes[..i] + [sizes[i]];
    SumPrefix(blocks, sizes, i + 1);
  }

  lemma {:induction false} SumPrefix(blocks: seq<nat>, sizes: seq<nat>, k: nat)
    requires |blocks| == |sizes| && k <= |blocks|
    ensures Sum(blocks[..k], sizes[..k]) <= Sum(blocks, sizes)
    decreases k
  {
    if k > 0 {
      SumPrefix(blocks[1..], sizes[1..], k - 1);
      assert blocks[..k][1..] == blocks[1..][..k - 1] && sizes[..k][1..] == sizes[1..][..k - 1];
    }
  }

  lemma FoundAt(m: seq<Region>, addr: nat, i: nat)
    requires i < |m| && m[i].start <= addr < m[i].end
    requires forall j :: 0 <= j < i ==> !(m[j].start <= addr < m[j].end)
    ensures FindRegion(m, addr, 0) == i
  {
  }

  /** Every address of the tiled range is in some region. */
  lemma {:induction false} TilesCover(m: seq<Region>, from: nat, to: nat, addr: nat)
    requires Tiles(m, from, to) && from <= addr < to
    ensures exists i :: 0 <= i < |m| && m[i].start <= addr < m[i].end
  {
    if addr < m[0].end {
      assert m[0].start <= addr;
    } else {
      TilesCover(m[1..], m[0].end, to, addr);
      var i :| 0 <= i < |m[1..]| && m[1..][i].start <= addr < m[1..][i].end;
      assert m[i + 1] == m[1..][i];
    }
  }

  lemma FoundIfHeld(m: seq<Region>, addr: nat)
    requires exists i :: 0 <= i < |m| && m[i].start <= addr < m[i].end
    ensures FindRegion(m, addr, 0) < |m|
  {
  }

  /** A region ends inside the range, and the next one starts where it ends. */
  lemma {:induction false} TilesMeet(m: seq<Region>, from: nat, to: nat, i: nat)
    requires Tiles(m, from, to) && i < |m|
    ensures from <= m[i].start <= m[i].end <= to
    ensures if i + 1 < |m| then m[i + 1].start == m[i].end else m[i].end == to
    ensures forall j :: 0 <= j < i ==> m[j].end <= m[i].start
  {
    if i > 0 {
      TilesMeet(m[1..], m[0].end, to, i - 1);
      forall j | 0 <= j < i ensures m[j].end <= m[i].start {
        if j > 0 {
          assert m[j] == m[1..][j - 1];
        }
      }
    } else if |m| > 1 {
      assert m[1..][0] == m[1];
    }
    TilesForward(m, from, to);
    if i == 0 {
      TilesForward(m[1..], m[0].end, to);
    }
  }

  lemma {:induction false} TilesForward(m: seq<Region>, from: nat, to: nat)
    requires Tiles(m, from, to)
    ensures from <= to
  {
    if |m| > 0 {
      TilesForward(m[1..], m[0].end, to);
    }
  }

  /** The region that holds an address is the one that is found. */
  lemma RegionIs(p: Probe, addr: nat, i: nat)
    requires WellFormed(p) && i < |Map(p)| && Map(p)[i].start <= addr < Map(p)[i].end
    ensures addr < p.flashSize && RegionAt(p, addr) == Map(p)[i]
  {
    hide Tiles, GoodRegion;
    TilesMeet(Map(p), 0, p.flashSize, i);
    FoundAt(Map(p), addr, i);
  }

  lemma MultipleSum(x: nat, k: nat, size: nat, unit: nat)
    requires unit > 0 && x % unit == 0 && size % unit == 0
    ensures (x + size * k) % unit == 0
  {
    DivMod(size, unit);
    MulAssoc(unit, size / unit, k);
    ModAddMultiple(x, unit, (size / unit) * k);
  }

  /** A whole number of sectors leaves room for a whole sector below any end. */
  lemma SectorFits(x: nat, size: nat, length: nat)
    requires size > 0 && x < length && length % size == 0
    ensures Floor(x, size) + size <= length
  {
    DivMod(x, size);
    DivMod(length, size);
    if x / size >= length / size {
      MulMono(size, length / size, x / size);
    }
    MulStep(size, x / size, length / size);
  }

  lemma FloorMultiple(start: nat, x: nat, size: nat, unit: nat)
    requires unit > 0 && size > 0 && start % unit == 0 && size % unit == 0
    ensures (start + Floor(x, size)) % unit == 0 && (start + Floor(x, size) + size) % unit == 0
  {
    hide *;
    FloorIs(x, size);
    MultipleSum(start, x / size, size, unit);
    MultipleSum(start + size * (x / size), 1, size, unit);
    assert start + size * (x / size) + size * 1 == start + Floor(x, size) + size;
  }

  lemma FloorIs(x: nat, size: nat)
    requires size > 0
    ensures Floor(x, size) == size * (x / size)
  {
  }

  /** Sectors lie inside the chip and start and end at multiples of the programming unit. */
  lemma SectorFacts(p: Probe, addr: nat)
    requires WellFormed(p) && addr < p.flashSize
    ensures SectorStart(p, addr) <= addr < SectorEnd(p, addr) <= p.flashSize
    ensures SectorStart(p, addr) % Unit(p) == 0 && SectorEnd(p, addr) % Unit(p) == 0
    ensures SectorStart(p, addr) % 2 == 0 && SectorEnd(p, addr) % 2 == 0
  {
    hide Tiles, Unit, Floor;
    var r := RegionAt(p, addr);
    TilesMeet(Map(p), 0, p.flashSize, FindRegion(Map(p), addr, 0));
    SectorFits(addr - r.start, r.size, r.end - r.start);
    FloorMultiple(r.start, addr - r.start, r.size, Unit(p));
    FloorMultiple(r.start, addr - r.start, r.size, 2);
  }

  lemma SameFloor(x: nat, y: nat, size: nat)
    requires size > 0 && Floor(x, size) <= y < Floor(x, size) + size
    ensures Floor(y, size) == Floor(x, size)
  {
    QuotientIs(y, size, x / size, y - Floor(x, size));
  }

  /** All addresses of a sector agree on it. */
  lemma SameSector(p: Probe, a: nat, b: nat)
    requires WellFormed(p) && a < p.flashSize && SectorStart(p, a) <= b < SectorEnd(p, a)
    ensures b < p.flashSize && SectorStart(p, b) == SectorStart(p, a) && SectorEnd(p, b) == SectorEnd(p, a)
  {
    hide Tiles, Unit, Floor;
    var r := RegionAt(p, a);
    var i := FindRegion(Map(p), a, 0);
    SectorFits(a - r.start, r.size, r.end - r.start);
    RegionIs(p, b, i);
    SameFloor(a - r.start, b - r.start, r.size);
  }

  /** Where one sector ends another starts, unless the chip ends. */
  lemma NextSector(p: Probe, a: nat)
    requires WellFormed(p) && a < p.flashSize && SectorEnd(p, a) < p.flashSize
    ensures SectorStart(p, SectorEnd(p, a)) == SectorEnd(p, a)
  {
    hide Tiles, Unit, Floor;
    var r := RegionAt(p, a);
    var i := FindRegion(Map(p), a, 0);
    var e := SectorEnd(p, a);
    TilesMeet(Map(p), 0, p.flashSize, i);
    SectorFits(a - r.start, r.size, r.end - r.start);
    if e < r.end {
      RegionIs(p, e, i);
      NextFloor(a - r.start, r.size);
    } else {
      assert GoodRegion(Map(p)[i + 1], Unit(p));
      RegionIs(p, e, i + 1);
      FloorOfNothing(Map(p)[i + 1].size);
    }
  }

  lemma NextFloor(x: nat, size: nat)
    requires size > 0
    ensures Floor(Floor(x, size) + size, size) == Floor(x, size) + size
  {
    Distribute(size, x / size, 1);
    QuotientIs(Floor(x, size) + size, size, x / size + 1, 0);
  }

  lemma FloorOfNothing(size: nat)
    requires size > 0
    ensures Floor(0, size) == 0
  {
  }

  /** On a well-formed map the code finds exactly the sector starts. */
  lemma StartsSectorIff(p: Probe, addr: nat)
    requires WellFormed(p) && addr < p.flashSize
    ensures StartsSector(p, addr) <==> SectorStart(p, addr) == addr
    ensures CodeRegion(p, addr) == RegionAt(p, addr)
  {
    hide Tiles, Unit;
    var r := RegionAt(p, addr);
    if |p.regions| < 2 {
      assert r == Map(p)[0];
    }
  }

  /** Without a usable region table the code erases nothing exactly when the sector size is zero. */
  lemma NothingStartsIff(p: Probe)
    requires |p.regions| < 2
    ensures (forall addr: nat :: !StartsSector(p, addr)) <==> p.sectorSize == 0
  {
    if p.sectorSize != 0 {
      SmallMod(0, p.sectorSize);
      assert StartsSector(p, 0);
    }
  }

  lemma {:induction false} StartIsMultiple(m: seq<Region>, total: nat, unit: nat, i: nat)
    requires unit > 0 && Tiles(m, 0, total) && i < |m|
    requires forall j :: 0 <= j < |m| ==> m[j].start <= m[j].end && (m[j].end - m[j].start) % unit == 0
    ensures m[i].start % unit == 0
  {
    hide Tiles;
    TilesMeet(m, 0, total, 0);
    if i > 0 {
      StartIsMultiple(m, total, unit, i - 1);
      TilesMeet(m, 0, total, i - 1);
      MultipleSum(m[i - 1].start, 1, m[i - 1].end - m[i - 1].start, unit);
    } else {
      TilesStart(m, 0, total);
    }
  }

  lemma TilesStart(m: seq<Region>, from: nat, to: nat)
    requires Tiles(m, from, to) && |m| > 0
    ensures m[0].start == from
  {
  }

  /** A table that covers the chip, with sectors no smaller than the write buffer, is well formed:
      in either order, every sector start is then a multiple of the write buffer. */
  lemma TableIsWellFormed(p: Probe, blocks: seq<nat>, bytes: seq<nat>, reversed: bool)
    requires |p.regions| == |blocks| == |bytes| >= 2 && p.flashSize == Sum(blocks, bytes)
    requires Tiles(p.regions, 0, p.flashSize)
    requires forall i :: 0 <= i < |p.regions| ==>
      Made(p.regions[i], blocks, bytes, if reversed then |p.regions| - 1 - i else i)
    requires forall i :: 0 <= i < |blocks| ==> blocks[i] > 0 && bytes[i] > 0 && bytes[i] % 2 == 0 && bytes[i] % Unit(p) == 0
    ensures WellFormed(p)
  {
    hide Tiles, Unit, Sum, GoodRegion;
    var u := Unit(p);
    forall i | 0 <= i < |p.regions|
      ensures var r := p.regions[i];
        r.start < r.end && (r.end - r.start) % r.size == 0 && (r.end - r.start) % u == 0 && (r.end - r.start) % 2 == 0
    {
      var from := if reversed then |p.regions| - 1 - i else i;
      assert Made(p.regions[i], blocks, bytes, from);
      WholeBlocks(blocks[from], bytes[from], u);
    }
    forall i | 0 <= i < |p.regions| ensures GoodRegion(p.regions[i], u) {
      StartIsMultiple(p.regions, p.flashSize, u, i);
      StartIsMultiple(p.regions, p.flashSize, 2, i);
      var from := if reversed then |p.regions| - 1 - i else i;
      assert Made(p.regions[i], blocks, bytes, from);
      RegionIsGood(p.regions[i], u);
    }
    TilesMeet(p.regions, 0, p.flashSize, 0);
  }

  lemma RegionIsGood(r: Region, unit: nat)
    requires unit > 0 && r.start < r.end && r.size > 0 && (r.end - r.start) % r.size == 0
    requires r.start % 2 == 0 && r.size % 2 == 0 && r.start % unit == 0 && r.size % unit == 0
    ensures GoodRegion(r, unit)
  {
  }

  lemma WholeBlocks(blocks: nat, size: nat, unit: nat)
    requires blocks > 0 && size > 0 && unit > 0 && size % unit == 0 && size % 2 == 0
    ensures blocks * size > 0 && blocks * size % size == 0 && blocks * size % unit == 0 && blocks * size % 2 == 0
  {
    MulStep(size, 0, blocks);
    assert blocks * size == 0 + size * blocks;
    MultipleSum(0, blocks, size, size);
    MultipleSum(0, blocks, size, unit);
    MultipleSum(0, blocks, size, 2);
  }
}
