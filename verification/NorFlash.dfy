/**
 Streaming a ROM into a NOR flash chip: sectors are erased as the stream reaches them, words and
 aligned buffers are programmed behind that, and the next sector is erased in the background.

 Erasing sets a sector to 0xFF and programming can only clear bits. A background erase keeps the
 chip busy until it is awaited; a command that reaches a busy chip is a clash.
 */
module NorFlash {
  import opened Arith
  import opened Collections
  import opened SectorMap

  type Byte = bv8

  const BLANK: Byte := 0xFF
  const MAX_U32 := 0xFFFF_FFFF

  const BAD_SIZE := -1
  const NO_FLASH := -2
  const NO_SECTORS := -3
  const NOT_AT_START := -4
  const WRONG_OFFSET := -5

  // ------------------------------------------------------------------ meaning

  function Min(a: nat, b: nat): nat { if a <= b then a else b }

  function And(a: Byte, b: Byte): Byte { a & b }

  /** The chip with the bytes from lo to hi erased. */
  ghost predicate Erased(now: seq<Byte>, was: seq<Byte>, lo: nat, hi: nat) {
    && |now| == |was|
    && forall x :: 0 <= x < |was| ==> now[x] == if lo <= x < hi then BLANK else was[x]
  }

  /** Each byte of a range counted once more. */
  ghost predicate Counted(now: seq<nat>, was: seq<nat>, lo: nat, hi: nat) {
    && |now| == |was|
    && forall x :: 0 <= x < |was| ==> now[x] == if lo <= x < hi then was[x] + 1 else was[x]
  }

  /** The chip after programming bytes at addr. */
  ghost predicate Programmed(now: seq<Byte>, was: seq<Byte>, addr: nat, bytes: seq<Byte>) {
    && |now| == |was|
    && forall x :: 0 <= x < |was| ==> now[x] == if addr <= x < addr + |bytes| then And(was[x], bytes[x - addr]) else was[x]
  }

  /** Programming a byte notes how often its sector had been erased. */
  ghost predicate Stamped(now: seq<nat>, was: seq<nat>, erases: seq<nat>, addr: nat, length: nat) {
    && |now| == |was| == |erases|
    && forall x :: 0 <= x < |was| ==> now[x] == if addr <= x < addr + length then erases[x] else was[x]
  }

  /** The little-endian bytes of a unit of data, filled up with 0xFF. */
  function Padded(data: seq<Byte>, unit: nat): (r: seq<Byte>)
    ensures |r| == unit && forall i :: 0 <= i < unit ==> r[i] == if i < |data| then data[i] else BLANK
  {
    seq(unit, i requires 0 <= i < unit => if i < |data| then data[i] else BLANK)
  }

  /** Up to where the chip has been erased for a stream that has come to addr. */
  ghost function Frontier(p: Probe, addr: nat): nat
    requires WellFormed(p) && addr <= p.flashSize
  {
    if addr == p.flashSize || SectorStart(p, addr) == addr then addr else SectorEnd(p, addr)
  }

  /** The chip holds the stream so far. Up to `front` every byte was erased once since the start,
      before it was programmed; behind the stream that part is blank; the rest is as it was. */
  ghost predicate Content(mem: seq<Byte>, first: seq<Byte>, erases: seq<nat>, stamps: seq<nat>, image: seq<Byte>, front: nat) {
    && |mem| == |first| == |erases| == |stamps| && |image| <= front <= |mem|
    && (forall x :: 0 <= x < |image| ==> mem[x] == image[x] && stamps[x] == 1)
    && (forall x :: |image| <= x < front ==> mem[x] == BLANK)
    && (forall x :: 0 <= x < front ==> erases[x] == 1)
    && (forall x :: front <= x < |mem| ==> erases[x] == 0 && mem[x] == first[x])
  }

  /** Sectors that start at n or later are as they were. */
  ghost predicate Untouched(p: Probe, mem: seq<Byte>, first: seq<Byte>, erases: seq<nat>, n: nat)
    requires WellFormed(p)
  {
    && |mem| == |first| == |erases| == p.flashSize
    && forall x :: 0 <= x < p.flashSize && SectorStart(p, x) >= n ==> erases[x] == 0 && mem[x] == first[x]
  }

  // ------------------------------------------------------------------ the chip

  /** Programming, word by word: bits are only cleared. */
  method ProgramWords(mem: array<Byte>, addr: nat, bytes: seq<Byte>)
    requires |bytes| % 2 == 0 && addr + |bytes| <= mem.Length
    modifies mem
    ensures Programmed(mem[..], old(mem[..]), addr, bytes)
  {
    hide And;
    ghost var was := mem[..];
    var i := 0;
    while i < |bytes|
      invariant 0 <= i <= |bytes| && i % 2 == 0
      invariant forall x :: addr <= x < addr + i ==> mem[x] == And(was[x], bytes[x - addr])
      invariant forall x :: 0 <= x < mem.Length && !(addr <= x < addr + i) ==> mem[x] == was[x]
    {
      mem[addr + i] := And(mem[addr + i], bytes[i]);
      mem[addr + i + 1] := And(mem[addr + i + 1], bytes[i + 1]);
      i := i + 2;
    }
  }

  class Chip {
    const probe: Probe
    const broken: set<nat>
    const mem: array<Byte>
    var operations: nat
    var busy: bool
    var busyAt: nat
    var clashes: nat
    ghost var erases: seq<nat>
    ghost var stamps: seq<nat>

    ghost predicate Valid()
      reads this
    {
      && WellFormed(probe) && mem.Length == probe.flashSize == |erases| == |stamps|
      && (busy ==> busyAt < probe.flashSize)
    }

    constructor (probe: Probe, broken: set<nat>, mem: array<Byte>)
      requires WellFormed(probe) && mem.Length == probe.flashSize
      ensures Valid() && this.probe == probe && this.mem == mem && this.broken == broken && !busy && clashes == 0
      ensures Fresh()
    {
      this.probe, this.broken, this.mem := probe, broken, mem;
      operations, busy, busyAt, clashes := 0, false, 0, 0;
      erases := seq(probe.flashSize, _ => 0);
      stamps := seq(probe.flashSize, _ => 0);
    }

    /** No byte has been erased since counting began. */
    ghost predicate Fresh()
      reads this
    {
      forall x :: 0 <= x < |erases| ==> erases[x] == 0
    }

    /** Starts counting erases afresh. */
    ghost method Recount()
      requires Valid()
      modifies this`erases
      ensures Valid() && Fresh()
    {
      erases := seq(probe.flashSize, _ => 0);
    }

    /** Whether the next operation succeeds; what a failed one leaves in memory is not promised. */
    method Attempt() returns (ok: bool)
      modifies this`operations
      ensures ok <==> old(operations) !in broken
      ensures operations == old(operations) + 1
    {
      ok := operations !in broken;
      operations := operations + 1;
    }

    function Failure(): (ret: int)
      ensures ret == -1 || (probe.isIntel && ret == -2)
    {
      if probe.isIntel then -2 else -1
    }

    /** What an operation may return; a sound chip never fails. */
    predicate Outcome(ret: int) {
      (ret == 0 || ret == Failure()) && (broken == {} ==> ret == 0)
    }

    method EraseSector(addr: nat) returns (ret: int)
      requires Valid() && !busy && addr < probe.flashSize
      modifies this`operations, this`erases, mem
      ensures Valid() && Outcome(ret)
      ensures ret == 0 ==> Erased(mem[..], old(mem[..]), SectorStart(probe, addr), SectorEnd(probe, addr))
      ensures ret == 0 ==> Counted(erases, old(erases), SectorStart(probe, addr), SectorEnd(probe, addr))
    {
      var ok := Attempt();
      if !ok {
        return Failure();
      }
      ClearSector(addr);
      ret := 0;
    }

    ghost method CountErase(lo: nat, hi: nat)
      requires Valid()
      modifies this`erases
      ensures Valid() && Counted(erases, old(erases), lo, hi)
    {
      var was := erases;
      erases := seq(|was|, x requires 0 <= x < |was| => if lo <= x < hi then was[x] + 1 else was[x]);
    }

    /** What an erase does to the memory, once it is complete. */
    method ClearSector(addr: nat)
      requires Valid() && addr < probe.flashSize
      modifies this`erases, mem
      ensures Valid()
      ensures Erased(mem[..], old(mem[..]), SectorStart(probe, addr), SectorEnd(probe, addr))
      ensures Counted(erases, old(erases), SectorStart(probe, addr), SectorEnd(probe, addr))
    {
      hide Tiles, Unit, Floor, GoodRegion;
      ghost var lo, hi, was := SectorStart(probe, addr), SectorEnd(probe, addr), mem[..];
      SectorFacts(probe, addr);
      StartsSectorIff(probe, addr);
      CountErase(lo, hi);
      var r := CodeRegion(probe, addr);
      var from := r.start + Floor(addr - r.start, r.size);
      for x := from to from + r.size
        invariant lo == from && hi == from + r.size <= mem.Length && Valid() && Counted(erases, old(erases), lo, hi)
        invariant forall y :: 0 <= y < mem.Length ==> mem[y] == if lo <= y < x then BLANK else was[y]
      {
        mem[x] := BLANK;
      }
    }

    /** Starts an erase in the background. A chip that is still busy does not hear it. */
    method StartErase(addr: nat)
      requires Valid() && addr < probe.flashSize
      modifies this`busy, this`busyAt, this`clashes
      ensures Valid() && busy
      ensures old(busy) ==> busyAt == old(busyAt) && clashes == old(clashes) + 1
      ensures !old(busy) ==> busyAt == addr && clashes == old(clashes)
    {
      if busy {
        clashes := clashes + 1;
      } else {
        busy, busyAt := true, addr;
      }
    }

    /** Waits for the background erase. */
    method WaitErase(addr: nat) returns (ret: int)
      requires Valid() && busy && busyAt == addr
      modifies this`operations, this`erases, this`busy, mem
      ensures Valid() && !busy && Outcome(ret)
      ensures ret == 0 ==> Erased(mem[..], old(mem[..]), SectorStart(probe, addr), SectorEnd(probe, addr))
      ensures ret == 0 ==> Counted(erases, old(erases), SectorStart(probe, addr), SectorEnd(probe, addr))
    {
      busy := false;
      ret := EraseSector(addr);
    }

    /** Programs one word or one write buffer, word by word. */
    method Program(addr: nat, bytes: seq<Byte>) returns (ret: int)
      requires Valid() && !busy && addr % 2 == 0 && |bytes| % 2 == 0 && 0 < |bytes| && addr + |bytes| <= probe.flashSize
      modifies this`operations, this`stamps, mem
      ensures Valid() && Outcome(ret)
      ensures ret == 0 ==> Programmed(mem[..], old(mem[..]), addr, bytes)
      ensures ret == 0 ==> Stamped(stamps, old(stamps), erases, addr, |bytes|)
    {
      var ok := Attempt();
      if !ok {
        return Failure();
      }
      Stamp(addr, |bytes|);
      ProgramWords(mem, addr, bytes);
      ret := 0;
    }

    ghost method Stamp(addr: nat, length: nat)
      requires Valid()
      modifies this`stamps
      ensures Valid() && Stamped(stamps, old(stamps), erases, addr, length)
    {
      var was, counts := stamps, erases;
      stamps := seq(|was|, x requires 0 <= x < |was| == |counts| => if addr <= x < addr + length then counts[x] else was[x]);
    }
  }

  // ------------------------------------------------------------------ the stream

  /** Whether a chip can be written at an address at all. */
  function CheckOf(p: Probe, at: nat): int {
    if p.flashId == 0 || p.flashSize == 0 || at >= p.flashSize then NO_FLASH
    else if p.sectorSize == 0 && |p.regions| == 0 then NO_SECTORS
    else 0
  }

  /** Whether a write is turned away before it begins. */
  function Verdict(p: Probe, active: bool, offset: nat, at: nat): int {
    if CheckOf(p, at) != 0 then CheckOf(p, at)
    else if !active && at != 0 then NOT_AT_START
    else if at % 2 == 1 || at != offset then WRONG_OFFSET
    else 0
  }

  /** How much of a write is taken. */
  function Accepts(p: Probe, expected: nat, at: nat, length: nat): (n: nat)
    requires at <= p.flashSize
    ensures n <= length && at + n <= p.flashSize && (expected != 0 && n > 0 ==> at + n <= expected)
    ensures n < length ==> at + n == p.flashSize || (expected != 0 && at + n >= expected)
  {
    var n := Min(p.flashSize - at, length);
    if expected == 0 then n else if at >= expected then 0 else Min(n, expected - at)
  }

  method ChooseWriteUnit(p: Probe, addr: nat, remaining: nat) returns (unit: nat)
    ensures p.writeBufferSize == Unit(p) && addr % Unit(p) == 0 && Unit(p) <= remaining ==> unit == p.writeBufferSize
    ensures unit == 2 || (unit == Unit(p) == p.writeBufferSize && unit % 2 == 0 && unit > 0 && addr % unit == 0 && unit <= remaining)
  {
    unit := p.writeBufferSize;
    if unit == 0 || unit % 2 == 1 || addr % unit != 0 || remaining < unit {
      unit := 2;
    }
  }

  class NorWriter {
    const chip: Chip
    /** Whether the chip was identified since the writer was made or invalidated. */
    var probed: bool
    var active: bool
    var offset: nat
    var expected: nat
    var preEraseActive: bool
    var preErasedAddr: nat
    // The bytes accepted since the stream began, the memory it began with, and whether nothing failed.
    ghost var image: seq<Byte>
    ghost var first: seq<Byte>
    ghost var clean: bool

    /** A pending erase is the chip's, at exactly `next`, a sector start below the expected size. */
    ghost predicate PendingAt(next: nat)
      reads this, chip
    {
      && chip.Valid() && next <= chip.probe.flashSize && (preEraseActive <==> chip.busy)
      && (preEraseActive ==> preErasedAddr == chip.busyAt == next < chip.probe.flashSize && next < expected)
      && (preEraseActive ==> probed && SectorStart(chip.probe, next) == next)
    }

    ghost predicate Coherent()
      reads this, chip
    {
      PendingAt(offset) && (!active ==> offset == 0) && expected <= MAX_U32
    }

    /** What holds between calls. */
    ghost predicate Session()
      reads this, chip, chip.mem
    {
      && Coherent() && (active && expected != 0 ==> offset <= expected)
      && (active && clean ==> |image| == offset && Holds(image))
    }

    /** The chip holds a stream, without a failure so far. */
    ghost predicate Holds(stream: seq<Byte>)
      requires chip.Valid() && |stream| <= chip.probe.flashSize
      reads this, chip, chip.mem
    {
      Content(chip.mem[..], first, chip.erases, chip.stamps, stream, Frontier(chip.probe, |stream|))
    }

    constructor (chip: Chip)
      requires chip.Valid() && !chip.busy
      ensures this.chip == chip && Session() && !active && expected == 0
    {
      this.chip := chip;
      probed, active, offset, expected, preEraseActive, preErasedAddr := false, false, 0, 0, false, 0;
      image, first, clean := [], [], false;
    }

    /** Identifies the chip, once. That takes many commands, so a busy chip gets some of them. */
    method Identify()
      requires chip.Valid()
      modifies this`probed, chip`clashes
      ensures chip.Valid() && probed && chip.clashes >= old(chip.clashes)
      ensures chip.clashes > old(chip.clashes) <==> !old(probed) && chip.busy
    {
      if !probed {
        if chip.busy {
          chip.clashes := chip.clashes + 1;
        }
        probed := true;
      }
    }

    method WaitPreErased(addr: nat) returns (ret: int)
      requires chip.Valid() && chip.busy && chip.busyAt == addr
      modifies this`preEraseActive, this`preErasedAddr, chip`operations, chip`erases, chip`busy, chip.mem
      ensures chip.Valid() && !chip.busy && !preEraseActive && chip.Outcome(ret)
      ensures ret == 0 ==>
        Erased(chip.mem[..], old(chip.mem[..]), SectorStart(chip.probe, addr), SectorEnd(chip.probe, addr))
      ensures ret == 0 ==>
        Counted(chip.erases, old(chip.erases), SectorStart(chip.probe, addr), SectorEnd(chip.probe, addr))
    {
      ret := chip.WaitErase(addr);
      preEraseActive, preErasedAddr := false, 0;
    }

    method MaybePreEraseNextSector(next: nat)
      requires PendingAt(next) && probed
      modifies this`preEraseActive, this`preErasedAddr, chip`busy, chip`busyAt, chip`clashes
      ensures PendingAt(next) && chip.clashes == old(chip.clashes)
      ensures preEraseActive == (next < expected && next < chip.probe.flashSize && SectorStart(chip.probe, next) == next)
    {
      if expected != 0 && next < expected && next < chip.probe.flashSize {
        var boundary := IsSectorBoundary(chip.probe, next);
        StartsSectorIff(chip.probe, next);
        if boundary && !preEraseActive {
          preEraseActive, preErasedAddr := true, next;
          chip.StartErase(next);
        }
      }
    }

    /** Makes sure that the sector which starts at addr, if one does, has been erased. */
    method EraseAt(addr: nat, ghost stream: seq<Byte>) returns (ret: int)
      requires PendingAt(addr) && addr < chip.probe.flashSize
      modifies this`preEraseActive, this`preErasedAddr, chip`operations, chip`erases, chip`busy, chip.mem
      ensures chip.Valid() && !chip.busy && !preEraseActive && chip.Outcome(ret)
      ensures ret == 0 && |stream| == addr && old(Holds(stream)) ==>
        Content(chip.mem[..], first, chip.erases, chip.stamps, stream, SectorEnd(chip.probe, addr))
    {
      hide Content, Erased, Counted;
      var boundary := IsSectorBoundary(chip.probe, addr);
      StartsSectorIff(chip.probe, addr);
      SectorFacts(chip.probe, addr);
      ghost var mem, erases := chip.mem[..], chip.erases;
      ret := 0;
      if boundary {
        if preEraseActive && preErasedAddr == addr {
          ret := WaitPreErased(addr);
        } else {
          ret := chip.EraseSector(addr);
        }
        if ret == 0 && |stream| == addr {
          ContentErased(mem, chip.mem[..], first, erases, chip.erases, chip.stamps, stream, SectorEnd(chip.probe, addr));
        }
      }
    }

    /** One turn of the writing loop: erase if a sector starts here, then program one unit. */
    method WriteUnit(addr: nat, data: seq<Byte>, ghost stream: seq<Byte>) returns (ret: int, logicalUnit: nat)
      requires PendingAt(addr) && addr % 2 == 0 && 0 < |data| && addr + |data| <= chip.probe.flashSize
      modifies this`preEraseActive, this`preErasedAddr, chip`operations, chip`erases, chip`busy, chip`stamps, chip.mem
      ensures chip.Valid() && !chip.busy && !preEraseActive && chip.Outcome(ret)
      ensures ret == 0 ==> 0 < logicalUnit <= |data| && (logicalUnit < |data| ==> logicalUnit % 2 == 0)
      ensures ret == 0 && |stream| == addr && old(Holds(stream)) ==> Holds(stream + data[..logicalUnit])
    {
      hide Content, Programmed, Stamped, WellFormed, SectorStart, SectorEnd, Frontier, Unit;
      logicalUnit := 0;
      ret := EraseAt(addr, stream);
      if ret < 0 {
        return;
      }
      var unit := ChooseWriteUnit(chip.probe, addr, |data|);
      UnitFits(chip.probe, addr, unit);
      logicalUnit := Min(unit, |data|);
      ghost var mem, stamps := chip.mem[..], chip.stamps;
      ret := chip.Program(addr, Padded(data, unit));
      if ret == 0 && |stream| == addr {
        FrontierAfter(chip.probe, addr, addr + logicalUnit);
        if Content(mem, first, chip.erases, stamps, stream, SectorEnd(chip.probe, addr)) {
          ContentProgrammed(mem, chip.mem[..], first, chip.erases, stamps, chip.stamps, stream, data, unit, SectorEnd(chip.probe, addr));
        }
      }
    }

    /** The loop of a write. */
    method WriteUnits(at: nat, src: seq<Byte>, n: nat, ghost stream: seq<Byte>) returns (ret: int)
      requires PendingAt(at) && probed && at % 2 == 0 && n <= |src| && at + n <= chip.probe.flashSize
      modifies this`preEraseActive, this`preErasedAddr, chip, chip.mem
      ensures chip.clashes == old(chip.clashes) && chip.Outcome(ret)
      ensures ret == 0 ==> PendingAt(at + n)
      ensures ret == 0 && n > 0 ==> (preEraseActive <==> WillPreErase(at + n))
      ensures ret != 0 ==> chip.Valid() && !chip.busy && !preEraseActive
      ensures ret == 0 && |stream| == at && old(Holds(stream)) ==> Holds(stream + src[..n])
    {
      hide Content, SectorStart, Frontier, WellFormed;
      var done: nat := 0;
      ret := 0;
      ghost var held := |stream| == at && Holds(stream);
      assert stream + src[..0] == stream;
      while done < n
        invariant done <= n && PendingAt(at + done) && chip.clashes == old(chip.clashes) && ret == 0
        invariant done < n ==> done % 2 == 0
        invariant done == n && n > 0 ==> (preEraseActive <==> WillPreErase(at + n))
        invariant held ==> Holds(stream + src[..done])
      {
        var addr := at + done;
        var logicalUnit;
        ret, logicalUnit := WriteUnit(addr, src[done..n], stream + src[..done]);
        if ret < 0 {
          return;
        }
        assert stream + src[..done] + src[done..n][..logicalUnit] == stream + src[..done + logicalUnit];
        done := done + logicalUnit;
        if done >= n {
          MaybePreEraseNextSector(at + done);
        }
      }
    }

    /** Whether the next sector is worth erasing in the background. */
    ghost predicate WillPreErase(next: nat)
      requires chip.Valid()
      reads this, chip
    {
      next < expected && next < chip.probe.flashSize && SectorStart(chip.probe, next) == next
    }

    method WriteStream(at: nat, src: seq<Byte>) returns (ret: int, written: nat)
      requires Session()
      modifies this, chip, chip.mem
      ensures Session() && chip.clashes == old(chip.clashes) && expected == old(expected)
      ensures |src| == 0 ==> ret == 0 && written == 0
      ensures |src| > 0 && Verdict(chip.probe, old(active), old(offset), at) != 0 ==>
        ret == Verdict(chip.probe, old(active), old(offset), at) && written == 0
      ensures |src| == 0 ==> unchanged(this) && unchanged(chip) && unchanged(chip.mem)
      ensures Verdict(chip.probe, old(active), old(offset), at) != 0 ==>
        && unchanged(this`active, this`offset, this`expected, this`preEraseActive, this`preErasedAddr)
        && unchanged(this`image, this`first, this`clean, chip, chip.mem)
      ensures |src| > 0 && Verdict(chip.probe, old(active), old(offset), at) == 0 ==>
        active && chip.Outcome(ret) &&
        clean == ((old(clean) || !old(active)) && ret == 0)
      ensures |src| > 0 && Verdict(chip.probe, old(active), old(offset), at) == 0 && ret == 0 ==>
        && written == Accepts(chip.probe, expected, at, |src|) && offset == at + written
        && (clean ==> image == (if old(active) then old(image) else []) + src[..written])
        && (written > 0 ==> (preEraseActive <==> WillPreErase(offset)))
      ensures |src| > 0 && Verdict(chip.probe, old(active), old(offset), at) == 0 ==>
        first == if old(active) then old(first) else old(chip.mem[..])
      ensures ret != 0 ==> written == 0 && offset == old(offset)
      // The same outcome in terms of the chip, the place and the size alone.
      ensures |src| > 0 ==>
        if chip.probe.flashId == 0 || chip.probe.flashSize == 0 || at >= chip.probe.flashSize then ret == -2
        else if chip.probe.sectorSize == 0 && |chip.probe.regions| == 0 then ret == -3
        else if !old(active) && at != 0 then ret == -4
        else if at % 2 == 1 || at != old(offset) then ret == -5
        else chip.broken == {} ==> ret == 0
      ensures written > 0 && at + written < chip.probe.flashSize ==>
        (preEraseActive <==> at + written < expected && SectorStart(chip.probe, at + written) == at + written)
      ensures written <= |src| && (written > 0 ==> at + written <= chip.probe.flashSize)
      ensures written > 0 && expected != 0 ==> at + written <= expected
      ensures ret == 0 && written < |src| ==> at + written == chip.probe.flashSize || (expected != 0 && at + written >= expected)
    {
      hide Content, SectorStart, Frontier, WellFormed, Accepts;
      written := 0;
      if |src| == 0 {
        return 0, 0;
      }
      Identify();
      ret := CheckOf(chip.probe, at);
      if ret < 0 {
        return;
      }
      if !active && at != 0 {
        return NOT_AT_START, 0;
      }
      if at % 2 == 1 || at != offset {
        return WRONG_OFFSET, 0;
      }
      if !active {
        Begin();
      }
      ret, written := WriteFrom(at, src);
    }

    /** The first write of a stream. */
    method Begin()
      requires Session() && !active
      modifies this`active, this`offset, this`image, this`first, this`clean, chip`erases
      ensures Session() && active && offset == 0 && image == [] && clean && first == chip.mem[..]
    {
      hide Content, Frontier, WellFormed, SectorStart;
      active, offset := true, 0;
      image, first, clean := [], chip.mem[..], true;
      chip.Recount();
      StartsBlank(chip.probe, chip.mem[..], chip.erases, chip.stamps);
    }

    /** A write at the place where the stream has come to. */
    method WriteFrom(at: nat, src: seq<Byte>) returns (ret: int, written: nat)
      requires Session() && probed && active && at == offset < chip.probe.flashSize && at % 2 == 0 && |src| > 0
      modifies this`offset, this`preEraseActive, this`preErasedAddr, this`image, this`clean, chip, chip.mem
      ensures Session() && chip.clashes == old(chip.clashes)
      ensures chip.Outcome(ret)
      ensures clean == (old(clean) && ret == 0)
      ensures ret == 0 ==> written == Accepts(chip.probe, expected, at, |src|) && offset == at + written
      ensures ret == 0 && clean ==> image == old(image) + src[..written]
      ensures ret == 0 && written > 0 ==> (preEraseActive <==> WillPreErase(offset))
      ensures ret != 0 ==> written == 0 && offset == old(offset)
    {
      hide Content, SectorStart, Frontier, WellFormed;
      written := 0;
      var n := Min(chip.probe.flashSize - at, |src|);
      if expected != 0 {
        if at >= expected {
          return 0, 0;
        }
        if at + n > expected {
          n := expected - at;
        }
      }
      ret := WriteUnits(at, src, n, image);
      if ret < 0 {
        clean := false;
        return;
      }
      image := image + src[..n];
      offset := offset + n;
      if n != 0 && expected != 0 {
        MaybePreEraseNextSector(offset);
      }
      written := n;
    }

    /** Starts a stream of a known size. A pending erase is forgotten, not awaited. */
    method SetWriteSize(size: nat) returns (ret: int)
      requires chip.Valid()
      modifies this, chip`busy, chip`busyAt, chip`clashes
      ensures size > MAX_U32 ==> ret == BAD_SIZE == -1 && unchanged(this) && unchanged(chip)
      ensures size <= MAX_U32 ==> ret == if size != 0 && CheckOf(chip.probe, 0) != 0 then NO_FLASH else 0
      ensures size <= MAX_U32 ==> expected == size && !active && offset == 0
      ensures chip.Valid() && chip.clashes >= old(chip.clashes) && (0 < size <= MAX_U32 ==> probed)
      ensures chip.clashes > old(chip.clashes) <==> 0 < size <= MAX_U32 && old(chip.busy) && (!old(probed) || Restarts(size))
      ensures old(probed) ==> chip.clashes == old(chip.clashes) + if Restarts(size) && old(chip.busy) then 1 else 0
      ensures chip.busy == (Restarts(size) || old(chip.busy))
      ensures 0 < size <= 0xFFFF_FFFF && chip.probe.flashId != 0 && (chip.probe.sectorSize != 0 || |chip.probe.regions| > 0) ==>
        ret == 0 && preEraseActive && preErasedAddr == 0 && chip.busy && (!old(chip.busy) ==> chip.busyAt == 0)
      ensures size == 0 ==> ret == 0 && !preEraseActive && chip.busy == old(chip.busy)
      ensures size <= MAX_U32 ==> (Coherent() <==> !old(chip.busy) || (Restarts(size) && old(chip.busyAt) == 0))
      ensures size <= MAX_U32 && !old(chip.busy) ==> Session() && preEraseActive == Restarts(size)
    {
      hide Content;
      if size > MAX_U32 {
        return BAD_SIZE;
      }
      expected, active, offset := size, false, 0;
      preEraseActive, preErasedAddr := false, 0;
      if expected == 0 {
        return 0;
      }
      Identify();
      if CheckOf(chip.probe, 0) != 0 {
        return NO_FLASH;
      }
      var boundary := IsSectorBoundary(chip.probe, 0);
      StartsSectorIff(chip.probe, 0);
      SectorFacts(chip.probe, 0);
      if boundary {
        preEraseActive, preErasedAddr := true, 0;
        chip.StartErase(0);
      }
      ret := 0;
    }

    /** Whether setting a size starts erasing sector zero. */
    ghost predicate Restarts(size: nat) {
      0 < size <= MAX_U32 && CheckOf(chip.probe, 0) == 0
    }

    /** Forgets the stream, the identification and a pending erase: the chip may still be busy. */
    method Invalidate()
      requires chip.Valid()
      modifies this
      ensures !probed && !active && offset == 0 && expected == 0 && !preEraseActive
      ensures Coherent() <==> !old(chip.busy)
    {
      probed, active, offset, expected := false, false, 0, 0;
      preEraseActive, preErasedAddr := false, 0;
    }

    /** Ends the stream; a pending erase is awaited. */
    method Flush() returns (ret: int)
      requires Session()
      modifies this`active, this`offset, this`expected, this`preEraseActive, this`preErasedAddr, chip, chip.mem
      ensures Session() && !preEraseActive && !active && offset == 0 && expected == 0
      ensures chip.clashes == old(chip.clashes) && chip.Outcome(ret)
      ensures old(active) && clean && ret == 0 ==> chip.mem[..|image|] == image
      ensures old(active) && clean && ret == 0 ==> forall x :: 0 <= x < |image| ==> chip.erases[x] == 1 == chip.stamps[x]
      ensures old(active) && clean && ret == 0 ==>
        Untouched(chip.probe, chip.mem[..], first, chip.erases, if old(expected) != 0 then old(expected) else |image|)
    {
      hide Content, Frontier, SectorEnd, WellFormed, Untouched;
      ret := 0;
      ghost var held := active && clean;
      if preEraseActive {
        ghost var mem, erases := chip.mem[..], chip.erases;
        ret := WaitPreErased(preErasedAddr);
        if held && ret == 0 {
          SectorFacts(chip.probe, offset);
          FrontierAtStart(chip.probe, offset);
          ContentErased(mem, chip.mem[..], first, erases, chip.erases, chip.stamps, image, SectorEnd(chip.probe, offset));
          ContentMeans(chip.mem[..], first, chip.erases, chip.stamps, image, SectorEnd(chip.probe, offset));
          UntouchedBeyond(chip.probe, chip.mem[..], first, chip.erases, chip.stamps, image, SectorEnd(chip.probe, offset), expected);
        }
      } else if held {
        ContentMeans(chip.mem[..], first, chip.erases, chip.stamps, image, Frontier(chip.probe, offset));
        FrontierCases(chip.probe, offset);
        UntouchedBeyond(chip.probe, chip.mem[..], first, chip.erases, chip.stamps, image, Frontier(chip.probe, offset),
          if expected != 0 then expected else offset);
      }
      active, offset, expected := false, 0, 0;
      preEraseActive, preErasedAddr := false, 0;
    }
  }

  // ------------------------------------------------------------------ giving a stream up

  /** A size is set, the stream is invalidated and a size is set again: the commands that identify the
      chip and start a second erase of sector zero reach it while it is busy with the first. */
  method StartOver(w: NorWriter, size: nat, again: nat)
    requires w.Session() && !w.preEraseActive
    modifies w, w.chip
    ensures w.chip.clashes > old(w.chip.clashes) <==> w.Restarts(size) && w.Restarts(again)
    ensures w.chip.busy <==> w.Restarts(size) || w.Restarts(again)
  {
    hide Content, WellFormed, SectorStart, CheckOf;
    var ret := w.SetWriteSize(size);
    w.Invalidate();
    ret := w.SetWriteSize(again);
  }

  // ------------------------------------------------------------------ a whole session

  /** Every piece but the last is even. */
  predicate CutEvenly(pieces: seq<seq<Byte>>) {
    forall i :: 0 <= i < |pieces| - 1 ==> |pieces[i]| % 2 == 0
  }

  /** A stream as its callers write it: the size, the data in any even pieces, and a flush. Without
      a failure the chip then holds the data, each byte in a sector erased once and before it was
      programmed, and later sectors are as they were. */
  method ProgramInPieces(w: NorWriter, pieces: seq<seq<Byte>>) returns (ret: int)
    requires w.Session() && !w.preEraseActive && CheckOf(w.chip.probe, 0) == 0 && CutEvenly(pieces)
    requires 0 < |Flatten(pieces)| <= w.chip.probe.flashSize && |Flatten(pieces)| <= MAX_U32
    modifies w, w.chip, w.chip.mem
    ensures w.Session() && !w.preEraseActive && w.chip.clashes == old(w.chip.clashes)
    ensures w.chip.Outcome(ret)
    ensures ret == 0 ==> w.chip.mem[..|Flatten(pieces)|] == Flatten(pieces)
    ensures ret == 0 ==> forall x :: 0 <= x < |Flatten(pieces)| ==> w.chip.erases[x] == 1 == w.chip.stamps[x]
    ensures ret == 0 ==> Untouched(w.chip.probe, w.chip.mem[..], old(w.chip.mem[..]), w.chip.erases, |Flatten(pieces)|)
  {
    hide Content, WellFormed, SectorStart, Frontier, Flatten, Untouched, CheckOf;
    ret := w.SetWriteSize(|Flatten(pieces)|);
    ret := WritePieces(w, pieces);
    var flushed := w.Flush();
    if ret == 0 {
      ret := flushed;
    }
  }

  /** A stream without a size: all of its data is taken and stored, too. */
  method ProgramUnannounced(w: NorWriter, pieces: seq<seq<Byte>>) returns (ret: int)
    requires w.Session() && !w.active && w.expected == 0 && CheckOf(w.chip.probe, 0) == 0 && CutEvenly(pieces)
    requires |Flatten(pieces)| <= w.chip.probe.flashSize
    modifies w, w.chip, w.chip.mem
    ensures w.Session() && !w.preEraseActive && w.chip.clashes == old(w.chip.clashes)
    ensures w.chip.Outcome(ret)
    ensures ret == 0 ==> w.chip.mem[..|Flatten(pieces)|] == Flatten(pieces)
    ensures ret == 0 && |Flatten(pieces)| > 0 ==> forall x :: 0 <= x < |Flatten(pieces)| ==> w.chip.erases[x] == 1 == w.chip.stamps[x]
    ensures ret == 0 && |Flatten(pieces)| > 0 ==>
      Untouched(w.chip.probe, w.chip.mem[..], old(w.chip.mem[..]), w.chip.erases, |Flatten(pieces)|)
  {
    hide Content, WellFormed, SectorStart, Frontier, Flatten, Untouched, CheckOf;
    ret := WritePieces(w, pieces);
    var flushed := w.Flush();
    if ret == 0 {
      ret := flushed;
    }
  }

  /** The pieces one after another, up to the first failure. */
  method WritePieces(w: NorWriter, pieces: seq<seq<Byte>>) returns (ret: int)
    requires w.Session() && !w.active && CheckOf(w.chip.probe, 0) == 0 && CutEvenly(pieces)
    requires |Flatten(pieces)| <= w.chip.probe.flashSize && (w.expected == 0 || w.expected == |Flatten(pieces)|)
    modifies w, w.chip, w.chip.mem
    ensures w.Session() && w.expected == old(w.expected) && w.chip.clashes == old(w.chip.clashes) && w.chip.Outcome(ret)
    ensures ret == 0 && w.active ==> w.clean && w.image == Flatten(pieces) && w.first == old(w.chip.mem[..])
    ensures ret == 0 && !w.active ==> Flatten(pieces) == []
  {
    hide Content, WellFormed, SectorStart, Frontier, Flatten, Untouched, CheckOf;
    ghost var before := w.chip.mem[..];
    var at: nat := 0;
    ret := 0;
    FlattenNone(pieces);
    for i := 0 to |pieces|
      invariant w.Session() && w.chip.clashes == old(w.chip.clashes) && w.expected == old(w.expected) && at == w.offset && ret == 0
      invariant at == |Flatten(pieces[..i])|
      invariant w.active ==> w.clean && w.image == Flatten(pieces[..i]) && w.first == before
      invariant !w.active ==> Flatten(pieces[..i]) == [] && w.chip.mem[..] == before
    {
      NextPiece(pieces, i);
      PieceIsAccepted(w.chip.probe, w.active, w.expected, at, |pieces[i]|);
      var written;
      ret, written := w.WriteStream(at, pieces[i]);
      if ret < 0 {
        return;
      }
      at := at + written;
    }
    assert pieces[..|pieces|] == pieces;
  }

  // ------------------------------------------------------------------ proofs

  lemma ContentErased(mem: seq<Byte>, mem': seq<Byte>, first: seq<Byte>, erases: seq<nat>, erases': seq<nat>,
                      stamps: seq<nat>, image: seq<Byte>, hi: nat)
    requires |image| <= hi <= |mem|
    requires Erased(mem', mem, |image|, hi) && Counted(erases', erases, |image|, hi)
    ensures Content(mem, first, erases, stamps, image, |image|) ==> Content(mem', first, erases', stamps, image, hi)
  {
  }

  lemma ContentProgrammed(mem: seq<Byte>, mem': seq<Byte>, first: seq<Byte>, erases: seq<nat>, stamps: seq<nat>, stamps': seq<nat>,
                          image: seq<Byte>, data: seq<Byte>, unit: nat, front: nat)
    requires Content(mem, first, erases, stamps, image, front) && |image| + unit <= front
    requires Programmed(mem', mem, |image|, Padded(data, unit)) && Stamped(stamps', stamps, erases, |image|, unit)
    ensures Content(mem', first, erases, stamps', image + data[..Min(unit, |data|)], front)
  {
    hide And;
    AndBlank();
  }

  /** Programming can only clear bits: it leaves those that were set before and are set in the data. */
  lemma OnlyClears(was: Byte, b: Byte, bit: Byte)
    requires bit != 0 && bit & (bit - 1) == 0
    ensures And(was, b) & bit != 0 <==> was & bit != 0 && b & bit != 0
  {
  }

  lemma AndBlank()
    ensures forall b: Byte :: And(BLANK, b) == b
  {
  }

  /** A word or an aligned buffer stays inside its sector. */
  lemma UnitFits(p: Probe, addr: nat, unit: nat)
    requires WellFormed(p) && addr < p.flashSize && addr % 2 == 0
    requires unit == 2 || (unit == Unit(p) && addr % unit == 0)
    ensures addr + unit <= SectorEnd(p, addr) <= p.flashSize
  {
    hide Unit, WellFormed;
    SectorFacts(p, addr);
    MultiplesApart(addr, SectorEnd(p, addr), unit);
  }

  lemma MultiplesApart(x: nat, y: nat, unit: nat)
    requires unit > 0 && x < y && x % unit == 0 && y % unit == 0
    ensures x + unit <= y
  {
    DivMod(x, unit);
    DivMod(y, unit);
    if y / unit <= x / unit {
      MulMono(unit, y / unit, x / unit);
    }
    MulStep(unit, x / unit, y / unit);
  }

  /** Inside or at the end of a sector the frontier is the sector's end. */
  lemma FrontierAfter(p: Probe, addr: nat, next: nat)
    requires WellFormed(p) && addr < p.flashSize && addr < next <= SectorEnd(p, addr)
    ensures next <= p.flashSize && Frontier(p, next) == SectorEnd(p, addr)
  {
    hide Unit, WellFormed;
    SectorFacts(p, addr);
    if next < SectorEnd(p, addr) {
      SameSector(p, addr, next);
    } else if next < p.flashSize {
      NextSector(p, addr);
    }
  }

  /** Nothing erased and nothing written. */
  lemma StartsBlank(p: Probe, mem: seq<Byte>, erases: seq<nat>, stamps: seq<nat>)
    requires WellFormed(p) && |mem| == |erases| == |stamps| == p.flashSize && forall x :: 0 <= x < |erases| ==> erases[x] == 0
    ensures Content(mem, mem, erases, stamps, [], Frontier(p, 0))
  {
    SectorFacts(p, 0);
  }

  lemma FrontierAtStart(p: Probe, addr: nat)
    requires WellFormed(p) && addr < p.flashSize && SectorStart(p, addr) == addr
    ensures Frontier(p, addr) == addr
  {
  }

  lemma ContentMeans(mem: seq<Byte>, first: seq<Byte>, erases: seq<nat>, stamps: seq<nat>, image: seq<Byte>, front: nat)
    requires Content(mem, first, erases, stamps, image, front)
    ensures |image| <= |mem| == |erases| == |stamps| && mem[..|image|] == image
    ensures forall x :: 0 <= x < |image| ==> erases[x] == 1 == stamps[x]
  {
  }

  lemma FrontierCases(p: Probe, addr: nat)
    requires WellFormed(p) && addr <= p.flashSize
    ensures Frontier(p, addr) == addr ||
      (addr < p.flashSize && SectorStart(p, addr) < addr && Frontier(p, addr) == SectorEnd(p, addr))
  {
    if addr < p.flashSize {
      SectorFacts(p, addr);
    }
  }

  /** What was erased lies in sectors that start below the expected size. */
  lemma UntouchedBeyond(p: Probe, mem: seq<Byte>, first: seq<Byte>, erases: seq<nat>, stamps: seq<nat>, image: seq<Byte>,
                        front: nat, expected: nat)
    requires WellFormed(p) && |mem| == p.flashSize && Content(mem, first, erases, stamps, image, front) && |image| <= expected
    requires front == |image| ||
      (|image| < p.flashSize && SectorStart(p, |image|) < expected && front == SectorEnd(p, |image|))
    ensures Untouched(p, mem, first, erases, expected)
  {
    hide WellFormed, SectorStart, SectorEnd;
    forall x | 0 <= x < p.flashSize && SectorStart(p, x) >= expected ensures x >= front {
      SectorFacts(p, x);
      if front != |image| {
        BeyondSector(p, |image|, x);
      }
    }
  }

  lemma BeyondSector(p: Probe, a: nat, x: nat)
    requires WellFormed(p) && a < p.flashSize && x < p.flashSize && SectorStart(p, x) > SectorStart(p, a)
    ensures x >= SectorEnd(p, a)
  {
    hide WellFormed;
    SectorFacts(p, x);
    if x < SectorEnd(p, a) {
      SameSector(p, a, x);
    }
  }

  lemma NextPiece(pieces: seq<seq<Byte>>, i: nat)
    requires i < |pieces| && CutEvenly(pieces)
    ensures Flatten(pieces[..i + 1]) == Flatten(pieces[..i]) + pieces[i]
    ensures |Flatten(pieces[..i + 1])| <= |Flatten(pieces)| && |Flatten(pieces[..i])| % 2 == 0
  {
    FlattenNext(pieces, i);
    FlattenPrefix(pieces, i + 1);
    FlattenEven(pieces, i);
  }

  lemma {:induction false} FlattenEven(pieces: seq<seq<Byte>>, k: nat)
    requires k < |pieces| && CutEvenly(pieces)
    ensures |Flatten(pieces[..k])| % 2 == 0
  {
    if k > 0 {
      FlattenEven(pieces, k - 1);
      FlattenNext(pieces, k - 1);
    }
  }

  /** A piece that stays inside the chip and the size is not turned away and not cut. */
  lemma PieceIsAccepted(p: Probe, active: bool, size: nat, at: nat, length: nat)
    requires CheckOf(p, 0) == 0 && at + length <= p.flashSize && (size == 0 || at + length <= size)
    requires at % 2 == 0 && (!active ==> at == 0)
    ensures Accepts(p, size, at, length) == length
    ensures length > 0 ==> Verdict(p, active, at, at) == 0
  {
  }
}
