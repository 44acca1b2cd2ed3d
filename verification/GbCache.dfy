/**
 The Game Boy ROM bank cache: up to sixteen 16 KB slots behind the two ROM windows.

 A slot is named by its index; `slots[i]` is what the memory at its location holds. The pointer
 table and the memory map hold slot indices, or UNMAPPED for the address that marks a missing page.
 */
module GbCache {

  type Byte = b: int | 0 <= b < 256

  const MAX_CACHE_SIZE := 16
  const MAX_ROM_PAGES := 512
  const PAGE := 16384
  const INVALID_PAGE := 65535
  const UNMAPPED := -1
  const MAX_AGE := 0xFFFF_FFFF

  /** Bank `bank` of a ROM file, padded with 0xFF past the end of the file. */
  function RomPage(file: seq<Byte>, bank: nat): (p: seq<Byte>)
    ensures |p| == PAGE
  {
    seq<Byte>(PAGE, k requires 0 <= k < PAGE => if bank * PAGE + k < |file| then file[bank * PAGE + k] else 255)
  }

  /** What is evicted is shown in no window, and was used no later than anything else that is not shown. */
  lemma VictimIsOldest(tags: seq<int>, ages: seq<int>, b0: int, b1: int, i: nat)
    requires |tags| <= |ages| && IsVictim(tags, ages, b0, b1, i)
    ensures tags[i] != 65535 ==> tags[i] != b0 && tags[i] != b1
    ensures tags[i] != 65535 ==> forall j :: 0 <= j < |tags| ==> tags[j] != 65535 && (tags[j] == b0 || tags[j] == b1 || ages[i] <= ages[j])
    ensures tags[i] == 65535 ==> forall j :: 0 <= j < i ==> tags[j] != 65535
  {
  }

  lemma RomPageByte(file: seq<Byte>, bank: nat, k: nat)
    requires k < 16384
    ensures RomPage(file, bank)[k] == if 16384 * bank + k < |file| then file[16384 * bank + k] else 0xFF
  {
  }

  // ------------------------------------------------------------------ meaning

  /** No bank is in two slots. */
  ghost predicate DistinctTags(tags: seq<int>) {
    forall i, j :: 0 <= i < j < |tags| && tags[i] == tags[j] ==> tags[i] == INVALID_PAGE
  }

  /** Every occupied slot holds the bytes of its bank. */
  ghost predicate Coherent(tags: seq<int>, slots: seq<seq<Byte>>, file: seq<Byte>) {
    && |tags| <= |slots| && DistinctTags(tags)
    && forall i :: 0 <= i < |tags| ==>
      (tags[i] == INVALID_PAGE || (0 <= tags[i] < MAX_ROM_PAGES && slots[i] == RomPage(file, tags[i])))
  }

  /** Every pointer leads to the slot of its bank. */
  ghost predicate PointersCoherent(instant: seq<int>, tags: seq<int>) {
    && |instant| == MAX_ROM_PAGES
    && forall p :: 0 <= p < MAX_ROM_PAGES ==>
      (instant[p] == UNMAPPED || (0 <= instant[p] < |tags| && tags[instant[p]] == p))
  }

  /** A slot that holds a bank no window shows. */
  ghost predicate Evictable(tags: seq<int>, ages: seq<int>, b0: int, b1: int, j: nat)
    requires j < |tags| <= |ages|
  {
    tags[j] != b0 && tags[j] != b1 && ages[j] < MAX_AGE
  }

  /** The slot a missing bank goes to: the first empty one, or else the least recently used of
      those that no window shows (the first of them, should ages be equal). */
  ghost predicate IsVictim(tags: seq<int>, ages: seq<int>, b0: int, b1: int, i: nat)
    requires |tags| <= |ages|
  {
    && i < |tags|
    && if tags[i] == INVALID_PAGE then forall j :: 0 <= j < i ==> tags[j] != INVALID_PAGE
       else
         && INVALID_PAGE !in tags && Evictable(tags, ages, b0, b1, i)
         && (forall j :: 0 <= j < |tags| && Evictable(tags, ages, b0, b1, j) ==> ages[i] <= ages[j])
         && (forall j :: 0 <= j < i && Evictable(tags, ages, b0, b1, j) ==> ages[i] < ages[j])
  }

  ghost predicate NoVictim(tags: seq<int>, ages: seq<int>, b0: int, b1: int)
    requires |tags| <= |ages|
  {
    INVALID_PAGE !in tags && forall j :: 0 <= j < |tags| ==> !Evictable(tags, ages, b0, b1, j)
  }

  // ------------------------------------------------------------------ the code

  class RomCache {
    const file: seq<Byte>
    const prgcache: array<int>
    const cacheAge: array<int>
    const slots: array<seq<Byte>>
    const instantPages: array<int>
    const memmap: array<int>
    var cacheClock: nat
    var cachePages: nat
    var bank0: nat
    var bank1: nat

    ghost predicate Shaped()
      reads this
    {
      && prgcache.Length == cacheAge.Length == slots.Length == MAX_CACHE_SIZE
      && instantPages.Length == MAX_ROM_PAGES && memmap.Length == 8
      && prgcache != cacheAge && prgcache != instantPages && prgcache != memmap && cacheAge != instantPages
      && cacheAge != memmap && instantPages != memmap
      && slots as object !in {prgcache as object, cacheAge, instantPages, memmap}
      && cachePages <= MAX_CACHE_SIZE
    }

    ghost predicate Valid()
      reads this, prgcache, cacheAge, slots
    {
      && Shaped() && cacheClock < MAX_AGE
      && (forall i :: 0 <= i < cachePages ==> cacheAge[i] <= cacheClock)
      && Coherent(prgcache[..cachePages], slots[..], file)
    }

    ghost predicate PointersValid()
      reads this, prgcache, instantPages
    {
      Shaped() && PointersCoherent(instantPages[..], prgcache[..cachePages])
    }

    /** Window w shows the bank it should: its four pages lead to the slot of that bank. */
    ghost predicate Shows(w: nat, bank: nat)
      requires Shaped() && w < 2
      reads this, prgcache, memmap
    {
      && (forall j :: 4 * w <= j < 4 * w + 4 ==> memmap[j] == memmap[4 * w])
      && 0 <= memmap[4 * w] < cachePages && prgcache[memmap[4 * w]] == bank
    }

    ghost predicate Served()
      requires Shaped()
      reads this, prgcache, memmap
    {
      Shows(0, bank0) && Shows(1, bank1)
    }

    constructor (file: seq<Byte>)
      ensures this.file == file && Valid() && PointersValid() && cachePages == 0
      ensures fresh(prgcache) && fresh(cacheAge) && fresh(slots) && fresh(instantPages) && fresh(memmap)
    {
      this.file := file;
      prgcache := new int[MAX_CACHE_SIZE](_ => INVALID_PAGE);
      cacheAge := new int[MAX_CACHE_SIZE](_ => 0);
      slots := new seq<Byte>[MAX_CACHE_SIZE](_ => []);
      instantPages := new int[MAX_ROM_PAGES](_ => UNMAPPED);
      memmap := new int[8](_ => UNMAPPED);
      cacheClock, cachePages, bank0, bank1 := 0, 0, 0, 1;
    }

    method CacheSlotForPage(page: int) returns (slot: int)
      requires Shaped()
      ensures slot == -1 ==> page !in prgcache[..cachePages]
      ensures slot != -1 ==> 0 <= slot < cachePages && prgcache[slot] == page && page !in prgcache[..slot]
    {
      for i := 0 to cachePages
        invariant page !in prgcache[..i]
      {
        if prgcache[i] == page {
          return i;
        }
      }
      return -1;
    }

    /** The search for a slot; cachePages or more means that there is none. */
    method ChooseSlot() returns (i: nat)
      requires Shaped()
      ensures i < cachePages ==> IsVictim(prgcache[..cachePages], cacheAge[..cachePages], bank0, bank1, i)
      ensures i >= cachePages ==> NoVictim(prgcache[..cachePages], cacheAge[..cachePages], bank0, bank1)
    {
      ghost var tags, ages := prgcache[..cachePages], cacheAge[..cachePages];
      i := MAX_CACHE_SIZE;
      var oldest := MAX_AGE;
      for j := 0 to cachePages
        invariant INVALID_PAGE !in tags[..j]
        invariant (i == MAX_CACHE_SIZE && oldest == MAX_AGE) || (i < j && oldest == ages[i])
        invariant i < j ==> Evictable(tags, ages, bank0, bank1, i)
        invariant i == MAX_CACHE_SIZE ==> forall k :: 0 <= k < j ==> !Evictable(tags, ages, bank0, bank1, k)
        invariant i < j ==> forall k :: 0 <= k < j && Evictable(tags, ages, bank0, bank1, k) ==> ages[i] <= ages[k]
        invariant i < j ==> forall k :: 0 <= k < i && Evictable(tags, ages, bank0, bank1, k) ==> ages[i] < ages[k]
      {
        var slotContent := prgcache[j];
        assert tags[j] == slotContent && ages[j] == cacheAge[j] && tags[..j + 1] == tags[..j] + [tags[j]];
        if slotContent == INVALID_PAGE {
          return j;
        }
        if slotContent == bank0 || slotContent == bank1 {
          continue;
        }
        if cacheAge[j] < oldest {
          oldest := cacheAge[j];
          i := j;
        }
      }
      assert tags[..cachePages] == tags;
    }

    method LoadCachePage(i: nat, bank: nat)
      requires i < slots.Length
      modifies slots
      ensures slots[..] == old(slots[..])[i := RomPage(file, bank)]
    {
      slots[i] := RomPage(file, bank);
    }

    /** Makes sure a bank is in the cache, or does nothing when every slot is in use by a window. */
    method GetBank(kilobyte: nat)
      requires Valid() && kilobyte / 16 < MAX_ROM_PAGES && cacheClock + 1 < MAX_AGE
      modifies this`cacheClock, prgcache, cacheAge, slots, instantPages
      ensures Valid() && (old(PointersValid()) ==> PointersValid())
      ensures cacheClock <= old(cacheClock) + 1
      ensures Fetched(prgcache[..cachePages], cacheAge[..cachePages], old(prgcache[..cachePages]),
                      old(cacheAge[..cachePages]), bank0, bank1, kilobyte / 16, cacheClock)
      ensures forall i :: 0 <= i < cachePages && prgcache[i] != old(prgcache[i]) ==> instantPages[kilobyte / 16] == i
      ensures forall p :: 0 <= p < MAX_ROM_PAGES && p != kilobyte / 16 ==>
        instantPages[p] == old(instantPages[p]) || (instantPages[p] == UNMAPPED && p !in prgcache[..cachePages])
    {
      hide Coherent, RomPage, IsVictim, NoVictim;
      var bank := kilobyte / 16;
      ghost var tags, ages := prgcache[..cachePages], cacheAge[..cachePages];
      var slot := CacheSlotForPage(bank);
      if slot >= 0 {
        cacheClock := cacheClock + 1;
        cacheAge[slot] := cacheClock;
        assert prgcache[..cachePages] == tags && tags[slot] == bank;
        assert Touched(prgcache[..cachePages], cacheAge[..cachePages], tags, ages, bank, cacheClock, slot);
        return;
      }
      var i := ChooseSlot();
      if i >= cachePages {
        return;
      }
      var slotContent := prgcache[i];
      assert tags[i] == slotContent;
      VictimIsFree(tags, ages, slots[..], file, bank0, bank1, i, bank);
      if slotContent != INVALID_PAGE && instantPages[slotContent] == i {
        instantPages[slotContent] := UNMAPPED;
      }
      LoadCachePage(i, bank);
      prgcache[i] := bank;
      cacheClock := cacheClock + 1;
      cacheAge[i] := cacheClock;
      instantPages[bank] := i;
      assert prgcache[..cachePages] == tags[i := bank];
      assert Replaced(prgcache[..cachePages], cacheAge[..cachePages], tags, ages, bank0, bank1, bank, cacheClock, i);
    }

    /** Points every cached bank's table entry at its slot. */
    method RegenerateInstantPrg()
      requires Valid()
      modifies instantPages
      ensures Valid() && (old(PointersValid()) ==> PointersValid())
      ensures forall i :: 0 <= i < cachePages && prgcache[i] != INVALID_PAGE ==> instantPages[prgcache[i]] == i
      ensures forall p :: 0 <= p < MAX_ROM_PAGES && p !in prgcache[..cachePages] ==> instantPages[p] == old(instantPages[p])
    {
      hide RomPage;
      for i := 0 to cachePages
        invariant Valid()
        invariant old(PointersValid()) ==> PointersValid()
        invariant forall j :: 0 <= j < i && prgcache[j] != INVALID_PAGE ==> instantPages[prgcache[j]] == j
        invariant forall p :: 0 <= p < MAX_ROM_PAGES && p !in prgcache[..cachePages] ==> instantPages[p] == old(instantPages[p])
      {
        var p := prgcache[i];
        assert prgcache[..cachePages][i] == p;
        assert forall j :: 0 <= j < cachePages ==> prgcache[j] == prgcache[..cachePages][j];
        if p < INVALID_PAGE {
          instantPages[p] := i;
        }
      }
    }

    /** Points the pages of both windows at the slots of their banks. */
    method GetRomMap()
      requires Shaped() && bank0 < MAX_ROM_PAGES && bank1 < MAX_ROM_PAGES
      modifies memmap
      ensures forall j :: 0 <= j < 8 ==> memmap[j] == instantPages[if j < 4 then bank0 else bank1]
    {
      for i := 0 to 2
        invariant forall m :: 0 <= m < 4 * i ==> memmap[m] == instantPages[if m < 4 then bank0 else bank1]
      {
        var data := instantPages[if i == 0 then bank0 else bank1];
        for j := 0 to 4
          invariant forall m :: 0 <= m < 4 * i ==> memmap[m] == instantPages[if m < 4 then bank0 else bank1]
          invariant forall m :: 4 * i <= m < 4 * i + j ==> memmap[m] == data
        {
          memmap[i * 4 + j] := data;
        }
      }
    }

    /** Loads the banks of both windows and maps them. */
    method UpdateCache()
      requires Valid() && bank0 < MAX_ROM_PAGES && bank1 < MAX_ROM_PAGES && cacheClock + 2 < MAX_AGE
      modifies this`cacheClock, prgcache, cacheAge, slots, instantPages, memmap
      ensures Valid() && (old(PointersValid()) ==> PointersValid())
      ensures Served() <==> cachePages >= 2 || (cachePages == 1 && bank0 == bank1)
    {
      hide Coherent, RomPage, Fetched, DistinctTags;
      ghost var tags0, ages0 := prgcache[..cachePages], cacheAge[..cachePages];
      TagsDistinct(tags0, slots[..], file);
      GetBank(bank0 * 16);
      ghost var tags1, ages1, clock1 := prgcache[..cachePages], cacheAge[..cachePages], cacheClock;
      TagsDistinct(tags1, slots[..], file);
      GetBank(bank1 * 16);
      BothFetched(tags0, ages0, tags1, ages1, clock1, prgcache[..cachePages], cacheAge[..cachePages],
        cacheClock, bank0, bank1);
      RegenerateInstantPrg();
      GetRomMap();
      ghost var tags := prgcache[..cachePages];
      assert forall j :: 0 <= j < cachePages ==> prgcache[j] == tags[j];
      if cachePages >= 2 || (cachePages == 1 && bank0 == bank1) {
        ghost var i0 :| 0 <= i0 < cachePages && tags[i0] == bank0;
        ghost var i1 :| 0 <= i1 < cachePages && tags[i1] == bank1;
      }
    }

    /** What the emulated machine reads from a ROM address once its windows are served. */
    method ReadRom(address: nat) returns (b: Byte)
      requires Valid() && Served() && bank0 < MAX_ROM_PAGES && bank1 < MAX_ROM_PAGES && address < 0x8000
      ensures b == RomPage(file, if address < 0x4000 then bank0 else bank1)[address % 0x4000]
      // The byte of the file, or 0xFF past its end.
      ensures var at := 16384 * (if address < 0x4000 then bank0 else bank1) + address % 0x4000;
        b == if at < |file| then file[at] else 0xFF
    {
      RomPageByte(file, bank0, address % 0x4000);
      RomPageByte(file, bank1, address % 0x4000);
      hide RomPage;
      var slot := memmap[address / 0x1000];
      assert slot == memmap[if address < 0x4000 then 4 * 0 else 4 * 1];
      assert prgcache[..cachePages][slot] == prgcache[slot] && slots[..][slot] == slots[slot];
      b := slots[slot][address % 0x4000];
    }

    /** Forgets the cached banks. The pointer table keeps its entries. */
    method FlushCache()
      requires Shaped()
      modifies this`cacheClock, prgcache, cacheAge
      ensures Valid() && forall i :: 0 <= i < cachePages ==> prgcache[i] == INVALID_PAGE && cacheAge[i] == 0
      ensures cacheClock == 0
      ensures PointersValid() <==> forall p :: 0 <= p < MAX_ROM_PAGES ==> instantPages[p] == UNMAPPED
    {
      hide RomPage;
      for i := 0 to cachePages
        invariant forall j :: 0 <= j < i ==> prgcache[j] == INVALID_PAGE && cacheAge[j] == 0
      {
        prgcache[i] := INVALID_PAGE;
        cacheAge[i] := 0;
      }
      cacheClock := 0;
    }

    method ClearInstantPrg()
      requires Shaped()
      modifies instantPages
      ensures forall p :: 0 <= p < MAX_ROM_PAGES ==> instantPages[p] == UNMAPPED
    {
      for i := 0 to MAX_ROM_PAGES
        invariant forall p :: 0 <= p < i ==> instantPages[p] == UNMAPPED
      {
        instantPages[i] := UNMAPPED;
      }
    }

    /** Sets the cache up with `room` slots of work memory besides slot 0, which must hold bank 0
        already, and loads as many banks as fit from the start of a file of `size` bytes. */
    method InitCache(room: nat)
      requires Shaped() && slots[0] == RomPage(file, 0) && (|file| + PAGE - 1) / PAGE <= MAX_ROM_PAGES
      modifies this`cacheClock, this`cachePages, prgcache, cacheAge, slots, instantPages
      ensures Valid() && PointersValid()
      ensures cachePages == if room >= 16 then 16 else room + 1
      ensures forall i :: 0 <= i < cachePages ==>
        prgcache[i] == (if i < (|file| + PAGE - 1) / PAGE then i else INVALID_PAGE)
    {
      hide RomPage;
      cachePages := room;
      if cachePages >= MAX_CACHE_SIZE {
        cachePages := MAX_CACHE_SIZE - 1;
      }
      cachePages := cachePages + 1;
      ghost var n := cachePages;
      ClearInstantPrg();
      FlushCache();
      Preload((|file| + PAGE - 1) / PAGE);
      RegenerateInstantPrg();
    }

    /** Loads the first banks into the first slots, one each. */
    method Preload(banks: nat)
      requires Shaped() && slots[0] == RomPage(file, 0) && banks <= MAX_ROM_PAGES && cacheClock == 0
      requires forall i :: 0 <= i < cachePages ==> prgcache[i] == INVALID_PAGE && cacheAge[i] == 0
      requires forall p :: 0 <= p < MAX_ROM_PAGES ==> instantPages[p] == UNMAPPED
      modifies this`cacheClock, prgcache, cacheAge, slots
      ensures Valid() && PointersValid()
      ensures forall i :: 0 <= i < cachePages ==> prgcache[i] == (if i < banks then i else INVALID_PAGE)
    {
      hide RomPage, Coherent;
      var i := 0;
      while i < cachePages && i < banks
        invariant i <= cachePages && i <= banks && cacheClock == i
        invariant forall j :: 0 <= j < cachePages ==> prgcache[j] == (if j < i then j else INVALID_PAGE)
        invariant forall j :: 0 <= j < cachePages ==> cacheAge[j] == (if j < i then j + 1 else 0)
        invariant forall j :: 0 <= j < i ==> slots[j] == RomPage(file, j)
        invariant slots[0] == RomPage(file, 0)
        invariant forall p :: 0 <= p < MAX_ROM_PAGES ==> instantPages[p] == UNMAPPED
      {
        if i != 0 {
          LoadCachePage(i, i);
        }
        prgcache[i] := i;
        cacheClock := cacheClock + 1;
        cacheAge[i] := cacheClock;
        i := i + 1;
      }
      PreloadedIsCoherent(prgcache[..cachePages], slots[..], file, i);
    }
  }

  lemma PreloadedIsCoherent(tags: seq<int>, slots: seq<seq<Byte>>, file: seq<Byte>, n: nat)
    requires |tags| <= |slots| && |tags| <= MAX_CACHE_SIZE
    requires forall j :: 0 <= j < |tags| ==> tags[j] == (if j < n then j else INVALID_PAGE)
    requires forall j :: 0 <= j < |tags| && j < n ==> slots[j] == RomPage(file, j)
    ensures Coherent(tags, slots, file)
  {
    hide RomPage;
  }

  /** One lookup: a hit makes its slot the most recent; a miss replaces exactly the victim, if there
      is one. Nothing else changes. */
  ghost predicate Fetched(tags: seq<int>, ages: seq<int>, tags0: seq<int>, ages0: seq<int>, b0: int, b1: int,
                          bank: int, clock: int)
    requires |tags0| <= |ages0|
  {
    if bank in tags0 then exists i :: Touched(tags, ages, tags0, ages0, bank, clock, i)
    else if NoVictim(tags0, ages0, b0, b1) then tags == tags0 && ages == ages0
    else exists i :: Replaced(tags, ages, tags0, ages0, b0, b1, bank, clock, i)
  }

  ghost predicate Touched(tags: seq<int>, ages: seq<int>, tags0: seq<int>, ages0: seq<int>, bank: int, clock: int, i: int)
    requires |tags0| <= |ages0|
  {
    0 <= i < |tags0| && tags0[i] == bank && tags == tags0 && ages == ages0[i := clock]
  }

  ghost predicate Replaced(tags: seq<int>, ages: seq<int>, tags0: seq<int>, ages0: seq<int>, b0: int, b1: int,
                           bank: int, clock: int, i: int)
    requires |tags0| <= |ages0|
  {
    0 <= i < |tags0| && IsVictim(tags0, ages0, b0, b1, i) && tags == tags0[i := bank] && ages == ages0[i := clock]
  }

  // ------------------------------------------------------------------ proofs

  /** Loading a missing bank into the victim keeps the cache coherent. */
  lemma VictimIsFree(tags: seq<int>, ages: seq<int>, slots: seq<seq<Byte>>, file: seq<Byte>, b0: int, b1: int,
                     i: nat, bank: nat)
    requires |tags| <= |ages| && Coherent(tags, slots, file) && bank !in tags && bank < MAX_ROM_PAGES
    requires IsVictim(tags, ages, b0, b1, i)
    ensures i < |slots| && (tags[i] == INVALID_PAGE || 0 <= tags[i] < MAX_ROM_PAGES)
    ensures Coherent(tags[i := bank], slots[i := RomPage(file, bank)], file)
    ensures !NoVictim(tags, ages, b0, b1)
    ensures forall j :: 0 <= j < |tags| && j != i && tags[j] == tags[i] ==> tags[i] == INVALID_PAGE
  {
    hide RomPage;
  }

  lemma TagsDistinct(tags: seq<int>, slots: seq<seq<Byte>>, file: seq<Byte>)
    requires Coherent(tags, slots, file)
    ensures DistinctTags(tags)
  {
  }

  /** With two slots, or one for a single bank, a missing bank finds a victim. */
  lemma VictimExists(tags: seq<int>, ages: seq<int>, b0: int, b1: int, bank: int)
    requires |tags| == |ages| && DistinctTags(tags) && bank !in tags && (bank == b0 || bank == b1)
    requires forall i :: 0 <= i < |tags| ==> ages[i] < MAX_AGE
    requires |tags| >= 2 || (|tags| == 1 && b0 == b1)
    ensures !NoVictim(tags, ages, b0, b1)
  {
    if INVALID_PAGE !in tags {
      assert Evictable(tags, ages, b0, b1, 0) || (|tags| >= 2 && Evictable(tags, ages, b0, b1, 1));
    }
  }

  /** After both lookups both banks are cached, unless there is a single slot for two banks. */
  lemma BothFetched(tags0: seq<int>, ages0: seq<int>, tags1: seq<int>, ages1: seq<int>, clock1: int,
                    tags: seq<int>, ages: seq<int>, clock: int, b0: int, b1: int)
    requires |tags0| == |ages0| == |tags1| == |ages1| == |tags| == |ages|
    requires 0 <= b0 < MAX_ROM_PAGES && 0 <= b1 < MAX_ROM_PAGES
    requires DistinctTags(tags0) && DistinctTags(tags1)
    requires forall i :: 0 <= i < |tags0| ==> ages0[i] < MAX_AGE && ages1[i] < MAX_AGE
    requires Fetched(tags1, ages1, tags0, ages0, b0, b1, b0, clock1)
    requires Fetched(tags, ages, tags1, ages1, b0, b1, b1, clock)
    ensures b0 in tags && b1 in tags <==> |tags| >= 2 || (|tags| == 1 && b0 == b1)
  {
    hide NoVictim, DistinctTags;
    if |tags| >= 2 || (|tags| == 1 && b0 == b1) {
      if b0 !in tags0 {
        VictimExists(tags0, ages0, b0, b1, b0);
        var i :| Replaced(tags1, ages1, tags0, ages0, b0, b1, b0, clock1, i);
        assert tags1[i] == b0;
      }
      if b1 !in tags1 {
        VictimExists(tags1, ages1, b0, b1, b1);
        var i :| Replaced(tags, ages, tags1, ages1, b0, b1, b1, clock, i);
        assert tags[i] == b1;
        var k :| 0 <= k < |tags1| && tags1[k] == b0;
        assert b0 != b1 ==> k != i && tags[k] == b0;
      }
    }
  }
}
