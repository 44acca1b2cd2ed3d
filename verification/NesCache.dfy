/**
 The NES bank caches: four 32 KB program groups and nine or seventeen 1 KB tile pages, behind the
 pointer tables that the emulator switches banks through.

 A slot is named by its index and its memory is a sequence of bytes. A table entry is no pointer,
 a part of a slot, or (for tiles) a page of work memory. The program entries, one for each page of
 the ROM, lie right below the tile entries, so a program page past the end of the ROM stores its
 entry among the tile entries. Storage reads can fail; each lookup is told whether its read would
 succeed, and what a failed read leaves behind.
 */
module NesCache {
  import opened Arith
  import opened Collections
  import opened NesBanks
  import opened NesLru
  import opened NesTables

  // ------------------------------------------------------------------ the code

  class Cache {
    const cart: Cart
    const prgGroup: array<int>
    const prgAge: array<int>
    const prgCache: array<seq<Byte>>
    const chrPage: array<int>
    const chrAge: array<int>
    const chrCache: array<seq<Byte>>
    const instant: array<Pointer>
    const chrSlots: nat
    var clock: nat
    /** What the processor's windows show: register i of `bank6` is for window i. */
    var windows: seq<Pointer>
    var bank6: seq<int>
    var cbank0: seq<int>

    ghost predicate Shaped()
      reads this
    {
      && cart.Valid()
      && prgGroup.Length == prgAge.Length == prgCache.Length == PRG_CACHE_GROUPS
      && chrPage.Length == chrAge.Length == chrCache.Length == CHR_CACHE_PAGES_MAX
      && chrSlots == (if cart.mapper == 4 then CHR_CACHE_PAGES_MAX else CHR_CACHE_PAGES_MIN)
      && instant.Length == TABLE
      && prgGroup != prgAge && prgGroup != chrPage && prgGroup != chrAge
      && prgAge != chrPage && prgAge != chrAge && chrPage != chrAge && prgCache != chrCache
      && prgCache as object !in {prgGroup as object, prgAge, chrPage, chrAge, instant}
      && chrCache as object !in {prgGroup as object, prgAge, chrPage, chrAge, instant}
      && instant as object !in {prgGroup as object, prgAge, chrPage, chrAge}
      && |windows| == |bank6| == 5 && |cbank0| == 8
      && (forall i :: 0 <= i < 5 ==> 0 <= bank6[i] < 256) && (forall i :: 0 <= i < 8 ==> 0 <= cbank0[i] < 256)
    }

    /** The program entries. */
    ghost function Pages(): (s: seq<Pointer>)
      requires cart.PrgPages() <= instant.Length
      reads instant
      ensures |s| == cart.PrgPages()
    {
      instant[..cart.PrgPages()]
    }

    /** The tile entries, and what lies behind them. */
    ghost function Tiles(): (s: seq<Pointer>)
      requires cart.PrgPages() <= instant.Length
      reads instant
      ensures |s| == instant.Length - cart.PrgPages()
    {
      instant[cart.PrgPages()..]
    }

    ghost function PrgLru(): Lru
      reads this, prgGroup, prgAge
    {
      Lru(prgGroup[..], prgAge[..], clock)
    }

    ghost function ChrLru(): Lru
      requires chrSlots <= chrPage.Length && chrSlots <= chrAge.Length
      reads this, chrPage, chrAge
    {
      Lru(chrPage[..chrSlots], chrAge[..chrSlots], clock)
    }

    /** Program side: the tags and ages make sense, whatever the slots hold. */
    ghost predicate PrgSound()
      reads this, prgGroup, prgAge
    {
      Shaped() && Sound(PrgLru(), PRG_CACHE_GROUPS, cart.PrgGroups())
    }

    /** And slots and table agree with the ROM. */
    ghost predicate PrgCoherent()
      reads this, prgGroup, prgAge, prgCache, instant
    {
      && PrgSound()
      && PrgData(prgCache[..], prgGroup[..], cart) && PrgTable(Pages(), prgGroup[..], cart.PrgPages())
    }

    /** Tile side: the tags and ages make sense. */
    ghost predicate ChrSound()
      reads this, chrPage, chrAge
    {
      Shaped() && Sound(ChrLru(), chrSlots, cart.ChrPages())
    }

    /** And slots and tile pointers agree with the ROM. */
    ghost predicate ChrCoherent()
      reads this, chrPage, chrAge, chrCache, instant
    {
      && ChrSound()
      && ChrData(chrCache[..], chrPage[..chrSlots], cart) && ChrTable(Tiles(), chrPage[..chrSlots], cart)
    }

    constructor (cart: Cart)
      requires cart.Valid()
      ensures this.cart == cart && Shaped()
      ensures fresh(prgGroup) && fresh(prgAge) && fresh(prgCache) && fresh(chrPage) && fresh(chrAge) && fresh(chrCache)
      ensures fresh(instant)
      ensures prgGroup.Length == 4 && chrSlots == if cart.mapper == 4 then 17 else 9
    {
      this.cart := cart;
      chrSlots := if cart.mapper == 4 then CHR_CACHE_PAGES_MAX else CHR_CACHE_PAGES_MIN;
      prgGroup := new int[PRG_CACHE_GROUPS](_ => INVALID);
      prgAge := new int[PRG_CACHE_GROUPS](_ => 0);
      prgCache := new seq<Byte>[PRG_CACHE_GROUPS](_ => []);
      chrPage := new int[CHR_CACHE_PAGES_MAX](_ => INVALID);
      chrAge := new int[CHR_CACHE_PAGES_MAX](_ => 0);
      chrCache := new seq<Byte>[CHR_CACHE_PAGES_MAX](_ => []);
      instant := new Pointer[TABLE](_ => NoPage);
      clock := 0;
      windows := [NoPage, NoPage, NoPage, NoPage, NoPage];
      bank6 := [0, 0, 0, 0, 0];
      cbank0 := [0, 0, 0, 0, 0, 0, 0, 0];
    }

    method ActivePrgGroup(group: int) returns (active: bool)
      requires Shaped()
      ensures active <==> group in ActiveGroups(bank6)
      ensures active <==> exists i :: 1 <= i <= 4 && bank6[i] / 4 == group
    {
      for i := 1 to 5
        invariant forall j :: 1 <= j < i ==> bank6[j] / PRG_GROUP_PAGES != group
      {
        if bank6[i] / PRG_GROUP_PAGES == group {
          return true;
        }
      }
      return false;
    }

    method ActiveChrPage(page: int) returns (active: bool)
      requires Shaped()
      ensures active <==> page in ActivePages(cart, cbank0)
      ensures active <==> exists i :: 0 <= i < 8 && StandsFor(cart, cbank0[i], page)
    {
      var pages := cart.ChrPages();
      for i := 0 to 8
        invariant forall j :: 0 <= j < i && ActiveBank(cart, cbank0[j]) ==> Wrap(cbank0[j], pages) != page
      {
        var bank := cbank0[i];
        if pages != 0 && cart.RamPage(bank) == -1 && bank < cart.vromPages * 8 && Wrap(bank, pages) == page {
          assert ActiveBank(cart, cbank0[i]);
          return true;
        }
      }
      return false;
    }

    method ChoosePrgSlot() returns (victim: nat)
      requires Shaped()
      ensures victim == Choose(PrgLru(), ActiveGroups(bank6))
    {
      hide ActiveGroups, Scanned, Choose;
      ghost var l, protected := PrgLru(), ActiveGroups(bank6);
      victim := 0;
      var oldest := MAX_AGE;
      ScanNothing(l, protected);
      for i := 0 to PRG_CACHE_GROUPS
        invariant Scanned(l, protected, i, oldest, victim)
      {
        if prgGroup[i] == INVALID {
          ScanEmpty(l, protected, i, oldest, victim);
          return i;
        }
        var active := ActivePrgGroup(prgGroup[i]);
        ScanNext(l, protected, i, oldest, victim);
        if !active && prgAge[i] < oldest {
          oldest := prgAge[i];
          victim := i;
        }
      }
      ScanAll(l, protected, oldest, victim);
    }

    method ChooseChrSlot() returns (victim: nat)
      requires Shaped()
      ensures victim == Choose(ChrLru(), ActivePages(cart, cbank0))
    {
      hide ActivePages, Scanned, Choose;
      ghost var l, protected := ChrLru(), ActivePages(cart, cbank0);
      victim := 0;
      var oldest := MAX_AGE;
      ScanNothing(l, protected);
      for i := 0 to chrSlots
        invariant Scanned(l, protected, i, oldest, victim)
      {
        assert l.tags[i] == chrPage[i] && l.ages[i] == chrAge[i];
        if chrPage[i] == INVALID {
          ScanEmpty(l, protected, i, oldest, victim);
          return i;
        }
        var active := ActiveChrPage(chrPage[i]);
        ScanNext(l, protected, i, oldest, victim);
        if !active && chrAge[i] < oldest {
          oldest := chrAge[i];
          victim := i;
        }
      }
      ScanAll(l, protected, oldest, victim);
    }

    /** Clears the entries of the group a slot holds. */
    method UnmapPrgGroup(slot: nat)
      requires Shaped() && slot < PRG_CACHE_GROUPS && (prgGroup[slot] == INVALID || prgGroup[slot] >= 0)
      modifies instant
      ensures PrgChanged(Pages(), old(Pages()), prgGroup[slot], NoPage) && Tiles() == old(Tiles())
    {
      hide Pages, Tiles;
      if prgGroup[slot] == INVALID {
        return;
      }
      var first := prgGroup[slot] * PRG_GROUP_PAGES;
      for i := 0 to PRG_GROUP_PAGES
        invariant Tiles() == old(Tiles())
        invariant forall p :: 0 <= p < cart.PrgPages() ==>
          Pages()[p] == if first <= p < first + i then NoPage else old(Pages())[p]
      {
        if first + i < cart.PrgPages() {
          Store(first + i, NoPage);
        }
      }
    }

    /** Points the entries of a group at the parts of its slot. */
    method MapPrgGroup(slot: nat, group: nat)
      requires Shaped() && slot < PRG_CACHE_GROUPS && group != INVALID
      modifies instant
      ensures PrgChanged(Pages(), old(Pages()), group, Prg(slot, 0)) && Tiles() == old(Tiles())
    {
      hide Pages, Tiles;
      var first := group * PRG_GROUP_PAGES;
      for i := 0 to PRG_GROUP_PAGES
        invariant Tiles() == old(Tiles())
        invariant forall p :: 0 <= p < cart.PrgPages() ==>
          Pages()[p] == if first <= p < first + i then Prg(slot, p - first) else old(Pages())[p]
      {
        if first + i < cart.PrgPages() {
          Store(first + i, Prg(slot, i));
        }
      }
    }

    method TileAt(a: nat) returns (e: Pointer)
      requires Shaped() && cart.PrgPages() + a < TABLE
      ensures e == Tiles()[a]
    {
      e := instant[cart.PrgPages() + a];
    }

    /** Sets one entry, of either kind. */
    method Store(at: nat, e: Pointer)
      requires Shaped() && at < TABLE
      modifies instant
      ensures instant[..] == old(instant[..])[at := e]
      ensures at < cart.PrgPages() ==> Pages() == old(Pages())[at := e] && Tiles() == old(Tiles())
      ensures at >= cart.PrgPages() ==> Pages() == old(Pages()) && Tiles() == old(Tiles())[at - cart.PrgPages() := e]
    {
      instant[at] := e;
    }

    method FindPrgGroup(group: nat) returns (i: nat)
      requires Shaped()
      ensures i == Find(prgGroup[..], group, 0)
    {
      ghost var tags := prgGroup[..];
      for k := 0 to PRG_CACHE_GROUPS
        invariant group !in tags[..k]
      {
        if prgGroup[k] == group {
          FirstIs(tags, group, k);
          return k;
        }
        assert tags[..k + 1] == tags[..k] + [tags[k]];
      }
      i := PRG_CACHE_GROUPS;
      assert tags[..PRG_CACHE_GROUPS] == tags;
    }

    /** A hit: the slot becomes the most recent. */
    method TouchPrg(i: nat)
      requires PrgSound() && i < PRG_CACHE_GROUPS && prgGroup[i] != INVALID && clock < MAX_AGE
      requires i == Find(prgGroup[..], prgGroup[i], 0)
      modifies this`clock, prgAge
      ensures PrgSound() && (old(PrgCoherent()) ==> PrgCoherent())
      ensures prgAge[..] == old(prgAge[..])[i := clock] && clock == old(clock) + 1
      ensures PrgLru() == Fetch(old(PrgLru()), ActiveGroups(bank6), prgGroup[i])
    {
      hide PrgTable, PrgData, Sound;
      ghost var l, group := PrgLru(), prgGroup[i];
      SoundFacts(l, PRG_CACHE_GROUPS, cart.PrgGroups());
      FetchIsSound(l, ActiveGroups(bank6), group, PRG_CACHE_GROUPS, cart.PrgGroups());
      clock := clock + 1;
      prgAge[i] := clock;
      assert l.tags[i := group] == l.tags;
    }

    /** A miss: the chosen slot is unmapped, read, tagged and mapped. A failed read stops after
        unmapping and overwriting it; the slot keeps its tag. */
    method LoadPrg(slot: nat, group: nat, ok: bool, junk: seq<Byte>)
      requires PrgSound() && group < cart.PrgGroups() && group !in prgGroup[..] && clock < MAX_AGE
      requires slot == Choose(PrgLru(), ActiveGroups(bank6))
      modifies this`clock, prgGroup, prgAge, prgCache, instant
      ensures PrgSound() && clock == old(clock) + if ok then 1 else 0
      ensures Tiles() == old(Tiles())
      ensures ok ==> PrgLru() == Fetch(old(PrgLru()), ActiveGroups(bank6), group) && prgGroup[slot] == group
      ensures ok && old(PrgCoherent()) ==> PrgCoherent()
      ensures !ok ==> PrgLru() == old(PrgLru()) && prgCache[..] == old(prgCache[..])[slot := junk]
      ensures !ok ==> PrgChanged(Pages(), old(Pages()), prgGroup[slot], NoPage)
      ensures !ok && old(PrgCoherent()) ==> (PrgCoherent() <==> prgGroup[slot] == INVALID)
    {
      hide PrgTable, PrgData, Sound, Choose, PrgChanged, Cart.Group, Pages, Tiles;
      ghost var l, was, data := PrgLru(), Pages(), prgCache[..];
      SoundFacts(l, PRG_CACHE_GROUPS, cart.PrgGroups());
      FetchIsSound(l, ActiveGroups(bank6), group, PRG_CACHE_GROUPS, cart.PrgGroups());
      UnmapPrgGroup(slot);
      ghost var mid := Pages();
      prgCache[slot] := if ok then cart.Group(group) else junk;
      if ok {
        prgGroup[slot] := group;
        clock := clock + 1;
        prgAge[slot] := clock;
        MapPrgGroup(slot, group);
        PrgTableReplaced(was, mid, Pages(), l.tags, cart.PrgPages(), slot, group);
        PrgDataReplaced(data, l.tags, cart, slot, group);
        assert prgGroup[..] == l.tags[slot := group];
      } else {
        UnmappedIsCoherentIff(was, mid, data, junk, l.tags, cart, slot);
      }
    }

    /** Makes program page `page` resident and returns where it is, or NoPage if its read fails.
        A page past the end of the ROM wraps, and its own entry, which is no program entry, is set
        besides the group's. */
    method EnsurePrg(page: nat, ok: bool, junk: seq<Byte>) returns (result: Pointer)
      requires PrgSound() && page < 512 && clock < MAX_AGE
      modifies this`clock, prgGroup, prgAge, prgCache, instant
      ensures PrgSound() && old(clock) <= clock <= old(clock) + 1 && (old(ChrSound()) ==> ChrSound())
      ensures cart.PrgPages() == 0 ==> result == NoPage && unchanged(this) && unchanged(prgGroup) && unchanged(prgAge)
      ensures cart.PrgPages() == 0 ==> unchanged(prgCache) && unchanged(instant)
      ensures cart.PrgPages() > 0 ==>
        EnsuredPrg(page % cart.PrgPages(), ok, junk, result, PrgLru(), old(PrgLru()), prgCache[..], old(prgCache[..]))
      ensures cart.PrgPages() > 0 && ok ==> result != NoPage
      ensures cart.PrgPages() > 0 && result == NoPage ==> VictimCleared(Pages(), old(Pages()), old(PrgLru()))
      ensures cart.PrgPages() > 0 && result == NoPage && old(PrgCoherent()) ==>
        (PrgCoherent() <==> prgGroup[Choose(old(PrgLru()), ActiveGroups(bank6))] == INVALID)
      ensures cart.PrgPages() > 0 && result != NoPage && old(PrgCoherent()) ==> PrgCoherent() && instant[page] == result
      ensures cart.PrgPages() > 0 ==>
        Tiles() == if result != NoPage && page >= cart.PrgPages() then old(Tiles())[page - cart.PrgPages() := instant[page]]
          else old(Tiles())
      ensures cart.PrgPages() > 0 && result != NoPage && old(PrgCoherent()) && old(TilesRight()) ==>
        (TilesRight() <==> !InTiles(cart, page))
    {
      hide ActiveGroups, Sound, ChrTable, ChrData, PrgData, PrgTable, Choose, Fetch, PrgMatches, PrgChanged, Tiles;
      hide NonePrg, InTiles;
      ghost var tiles, right := Tiles(), PrgCoherent() && TilesRight();
      var pages := cart.PrgPages();
      if pages == 0 {
        return NoPage;
      }
      var requested := page;
      var q := Wrap(page, pages);
      InsideOrPast(page, pages);
      result := EnsureRomPage(q, ok, junk);
      if result != NoPage && requested != q {
        Store(requested, instant[q]);
      }
      if result != NoPage && right {
        StoredIff(tiles, Tiles(), chrPage[..chrSlots], cart, page, result);
        FirstEight(tiles, Tiles(), cart.TileEntries());
      }
    }

    /** The lookup for a page of the ROM itself. */
    method EnsureRomPage(q: nat, ok: bool, junk: seq<Byte>) returns (result: Pointer)
      requires PrgSound() && q < cart.PrgPages() && clock < MAX_AGE
      modifies this`clock, prgGroup, prgAge, prgCache, instant
      ensures PrgSound() && old(clock) <= clock <= old(clock) + 1 && (old(ChrSound()) ==> ChrSound())
      ensures EnsuredPrg(q, ok, junk, result, PrgLru(), old(PrgLru()), prgCache[..], old(prgCache[..]))
      ensures ok ==> result != NoPage
      ensures result == NoPage ==> VictimCleared(Pages(), old(Pages()), old(PrgLru()))
      ensures result == NoPage && old(PrgCoherent()) ==>
        (PrgCoherent() <==> prgGroup[Choose(old(PrgLru()), ActiveGroups(bank6))] == INVALID)
      ensures q / 4 in old(prgGroup[..]) ==> Pages() == old(Pages()) && prgCache[..] == old(prgCache[..])
      ensures result != NoPage && old(PrgCoherent()) ==> PrgCoherent() && instant[q] == result
      ensures Tiles() == old(Tiles())
    {
      hide ActiveGroups, Sound, ChrTable, ChrData, PrgData, PrgTable, Choose, Fetch, PrgChanged, Tiles;
      var group := q / PRG_GROUP_PAGES;
      ghost var l, tileLru, coherent := PrgLru(), ChrLru(), PrgCoherent();
      SoundFacts(l, PRG_CACHE_GROUPS, cart.PrgGroups());
      var slot := FindPrgGroup(group);
      if slot < PRG_CACHE_GROUPS {
        TouchPrg(slot);
      } else {
        slot := ChoosePrgSlot();
        LoadPrg(slot, group, ok, junk);
        LaterClock(tileLru, chrSlots, cart.ChrPages(), clock);
        if !ok {
          return NoPage;
        }
      }
      LaterClock(tileLru, chrSlots, cart.ChrPages(), clock);
      SoundFacts(PrgLru(), PRG_CACHE_GROUPS, cart.PrgGroups());
      if coherent {
        PrgEntry(Pages(), prgGroup[..], cart.PrgPages(), q, slot);
      }
      result := Prg(slot, q % PRG_GROUP_PAGES);
    }

    /** The entries of the group in the slot that a missing group would take were cleared. */
    ghost predicate VictimCleared(now: seq<Pointer>, was: seq<Pointer>, l: Lru)
      requires |bank6| == 5 && 0 < |l.tags| == |l.ages|
      reads this
    {
      PrgChanged(now, was, l.tags[Choose(l, ActiveGroups(bank6))], NoPage)
    }

    /** Clears every entry that leads to a slot. */
    method UnmapChrPage(slot: nat)
      requires Shaped() && slot < chrSlots && cart.TablePages() <= 2048
      modifies instant
      ensures ChrCleared(Tiles(), old(Tiles()), if chrPage[slot] == INVALID then 0 else cart.TablePages(), slot)
      ensures Pages() == old(Pages())
    {
      if chrPage[slot] == INVALID {
        return;
      }
      for i := 0 to cart.TablePages()
        invariant ChrCleared(Tiles(), old(Tiles()), i, slot) && Pages() == old(Pages())
      {
        var at := cart.PrgPages() + i;
        if instant[at] == Chr(slot) {
          Store(at, NoPage);
        }
      }
    }

    /** Points every alias of a page at a slot, leaving work memory pages alone. */
    method MapChrAliases(page: nat, slot: nat)
      requires Shaped() && page < cart.ChrPages() && cart.TablePages() <= 2048
      modifies instant
      ensures ChrMapped(Tiles(), old(Tiles()), cart, cart.TablePages(), page, slot) && Pages() == old(Pages())
    {
      hide Cart.RamPage, Wrap, Cart.ChrPages, Pages, Tiles;
      var pages, table := cart.ChrPages(), cart.TablePages();
      var alias := page;
      FirstAlias(page, pages);
      while alias < table
        invariant page <= alias < table + pages && Wrap(alias, pages) == page
        invariant ChrMapped(Tiles(), old(Tiles()), cart, if alias < table then alias else table, page, slot)
        invariant Pages() == old(Pages())
      {
        if cart.RamPage(alias) == -1 {
          Store(cart.PrgPages() + alias, Chr(slot));
        }
        NextAlias(alias, pages, page);
        alias := alias + pages;
      }
    }

    method FindChrPage(page: nat) returns (i: nat)
      requires Shaped()
      ensures i == Find(chrPage[..chrSlots], page, 0)
    {
      ghost var tags := chrPage[..chrSlots];
      for k := 0 to chrSlots
        invariant page !in tags[..k]
      {
        if chrPage[k] == page {
          FirstIs(tags, page, k);
          return k;
        }
        assert tags[..k + 1] == tags[..k] + [tags[k]];
      }
      i := chrSlots;
      assert tags[..chrSlots] == tags;
    }

    /** A hit: the slot becomes the most recent and its aliases are mapped again. */
    method TouchChr(i: nat)
      requires ChrSound() && i < chrSlots && chrPage[i] != INVALID && clock < MAX_AGE
      requires i == Find(chrPage[..chrSlots], chrPage[i], 0)
      modifies this`clock, chrAge, instant
      ensures ChrSound() && clock == old(clock) + 1 && Pages() == old(Pages())
      ensures old(ChrCoherent()) ==> ChrCoherent()
      ensures ChrLru() == Fetch(old(ChrLru()), ActivePages(cart, cbank0), chrPage[i])
      ensures ChrSet(Tiles(), old(Tiles()), cart, chrPage[i], i)
    {
      hide ChrTable, ChrData, Sound, ChrMapped, ChrSet, Cart.ChrPages, Pages, Tiles;
      var page := chrPage[i];
      ghost var l, was := ChrLru(), Tiles();
      SoundFacts(l, chrSlots, cart.ChrPages());
      TableFits(cart);
      assert l.tags[i] == page;
      FetchIsSound(l, ActivePages(cart, cbank0), page, chrSlots, cart.ChrPages());
      clock := clock + 1;
      chrAge[i] := clock;
      MapChrAliases(page, i);
      MappedIsSet(was, Tiles(), cart, page, i);
      ChrTableRemapped(was, Tiles(), l.tags, cart, i);
      assert l.tags[i := page] == l.tags;
      assert chrAge[..chrSlots] == l.ages[i := clock];
    }

    /** A miss: the chosen slot is unmapped, read, tagged and mapped, unless its read fails. */
    method LoadChr(slot: nat, page: nat, ok: bool, junk: seq<Byte>)
      requires ChrSound() && page < cart.ChrPages() && page !in chrPage[..chrSlots] && clock < MAX_AGE
      requires slot == Choose(ChrLru(), ActivePages(cart, cbank0))
      modifies this`clock, chrPage, chrAge, chrCache, instant
      ensures ChrSound() && clock == old(clock) + (if ok then 1 else 0) && Pages() == old(Pages())
      ensures ok ==> ChrLru() == Fetch(old(ChrLru()), ActivePages(cart, cbank0), page)
      ensures ok ==> slot < chrSlots && chrPage[slot] == page && ChrSet(Tiles(), old(Tiles()), cart, page, slot)
      ensures ok && old(ChrCoherent()) ==> ChrCoherent()
      ensures !ok ==> ChrLru() == old(ChrLru()) && chrCache[..] == old(chrCache[..])[slot := junk]
      ensures !ok ==> ChrCleared(Tiles(), old(Tiles()), if chrPage[slot] == INVALID then 0 else cart.TablePages(), slot)
    {
      hide ChrTable, ChrData, Sound, Choose, ChrMapped, ChrCleared, ChrSet, Cart.Page, Cart.ChrPages, ActivePages, Pages, Tiles;
      ghost var l, was, coherent := ChrLru(), Tiles(), ChrCoherent();
      SoundFacts(l, chrSlots, cart.ChrPages());
      TableFits(cart);
      UnmapChrPage(slot);
      if ok {
        FillChr(slot, page, l, was, coherent);
      } else {
        chrCache[slot] := junk;
      }
    }

    /** The rest of a successful load: the bytes, the tag and the aliases. */
    method FillChr(slot: nat, page: nat, ghost l: Lru, ghost was: seq<Pointer>, ghost coherent: bool)
      requires Shaped() && page < cart.ChrPages() && l == ChrLru() && Sound(l, chrSlots, cart.ChrPages()) && page !in l.tags
      requires slot < chrSlots && slot == Choose(l, ActivePages(cart, cbank0)) && clock < MAX_AGE
      requires coherent ==> ChrData(chrCache[..], l.tags, cart) && ChrTable(was, l.tags, cart)
      requires ChrCleared(Tiles(), was, if chrPage[slot] == INVALID then 0 else cart.TablePages(), slot) && |was| >= 2048
      modifies this`clock, chrPage, chrAge, chrCache, instant
      ensures ChrSound() && (coherent ==> ChrCoherent()) && chrPage[slot] == page && Pages() == old(Pages())
      ensures ChrLru() == Fetch(l, ActivePages(cart, cbank0), page)
      ensures clock == old(clock) + 1 && ChrSet(Tiles(), was, cart, page, slot)
    {
      hide ChrTable, ChrData, Sound, Choose, ChrMapped, ChrCleared, ChrSet, Cart.Page, Cart.ChrPages, ActivePages, Pages, Tiles;
      ghost var mid, data := Tiles(), chrCache[..];
      SoundFacts(l, chrSlots, cart.ChrPages());
      TableFits(cart);
      FetchIsSound(l, ActivePages(cart, cbank0), page, chrSlots, cart.ChrPages());
      assert l.tags[slot] == chrPage[slot];
      chrCache[slot] := cart.Page(page);
      chrPage[slot] := page;
      clock := clock + 1;
      chrAge[slot] := clock;
      MapChrAliases(page, slot);
      ClearedIsSet(was, mid, Tiles(), cart, if l.tags[slot] == INVALID then 0 else cart.TablePages(), page, slot);
      if coherent {
        ChrTableReplaced(was, mid, Tiles(), l.tags, cart, slot, page);
        ChrDataReplaced(data, l.tags, cart, slot, page);
      }
      assert chrPage[..chrSlots] == l.tags[slot := page];
      assert chrAge[..chrSlots] == l.ages[slot := clock];
    }

    /** Makes tile page `page` resident and sets its entry. A read that fails leaves the entry clear,
        unless a program lookup had overwritten it: then that pointer stays. */
    method EnsureChr(page: nat, ok: bool, junk: seq<Byte>)
      requires ChrSound() && clock < MAX_AGE && (cart.ChrPages() > 0 ==> page < cart.TablePages())
      modifies this`clock, chrPage, chrAge, chrCache, instant
      ensures ChrSound() && Pages() == old(Pages()) && (old(PrgCoherent()) ==> PrgCoherent())
      ensures old(clock) <= clock <= old(clock) + 1
      ensures cart.ChrPages() == 0 ==> unchanged(this) && unchanged(chrPage) && unchanged(chrAge)
      ensures cart.ChrPages() == 0 ==> unchanged(chrCache) && unchanged(instant)
      ensures cart.ChrPages() > 0 && cart.RamPage(page) != -1 ==>
        ChrLru() == old(ChrLru()) && Tiles() == old(Tiles())[page := Ram(cart.RamPage(page))]
      ensures cart.ChrPages() > 0 && cart.RamPage(page) == -1 ==>
        EnsuredChr(page, Wrap(page, cart.ChrPages()), ok, junk, ChrLru(), old(ChrLru()), chrCache[..], old(chrCache[..]), Tiles())
      ensures cart.ChrPages() > 0 ==> TileFrame(Tiles(), old(Tiles()), cart.TablePages())
      ensures cart.ChrPages() > 0 && ok ==> PrgLeft(Tiles(), old(Tiles()), cart, page)
      ensures cart.ChrPages() > 0 && ok ==> Tiles()[page] != NoPage
      ensures cart.ChrPages() > 0 && old(ChrCoherent()) && Tiles()[page] != NoPage && (ok || !old(Tiles())[page].Prg?) ==>
        ChrCoherent() && !Tiles()[page].Prg? && RamStays(Tiles(), old(Tiles()), cart.TablePages())
        && (cart.RamPage(page) == -1 ==> ChrLru() == Fetch(old(ChrLru()), ActivePages(cart, cbank0), Wrap(page, cart.ChrPages())))
    {
      hide Sound, PrgTable, PrgData, ChrData, ChrTable, Choose, Fetch, ActivePages, Cart.ChrPages, Cart.RamPage, Cart.TablePages;
      hide Pages, Tiles, TileFrame, PrgLeft, RamStays;
      var pages := cart.ChrPages();
      if pages == 0 {
        return;
      }
      TableFits(cart);
      var ram := cart.RamPage(page);
      if ram != -1 {
        ghost var was := Tiles();
        Store(cart.PrgPages() + page, Ram(ram));
        RamEntry(was, Tiles(), chrPage[..chrSlots], cart, page);
        return;
      }
      EnsureRomTile(page, Wrap(page, pages), ok, junk);
    }

    /** The lookup for a page of tile ROM. */
    method EnsureRomTile(page: nat, q: nat, ok: bool, junk: seq<Byte>)
      requires ChrSound() && clock < MAX_AGE && cart.ChrPages() > 0 && page < cart.TablePages() <= 2048
      requires cart.RamPage(page) == -1 && q == Wrap(page, cart.ChrPages())
      modifies this`clock, chrPage, chrAge, chrCache, instant
      ensures ChrSound() && Pages() == old(Pages()) && (old(PrgCoherent()) ==> PrgCoherent())
      ensures old(clock) <= clock <= old(clock) + 1
      ensures EnsuredChr(page, q, ok, junk, ChrLru(), old(ChrLru()), chrCache[..], old(chrCache[..]), Tiles())
      ensures TileFrame(Tiles(), old(Tiles()), cart.TablePages())
      ensures ok ==> PrgLeft(Tiles(), old(Tiles()), cart, page) && Tiles()[page].Chr?
      ensures old(ChrCoherent()) && Tiles()[page] != NoPage && (ok || !old(Tiles())[page].Prg?) ==>
        ChrCoherent() && !Tiles()[page].Prg? && RamStays(Tiles(), old(Tiles()), cart.TablePages())
        && ChrLru() == Fetch(old(ChrLru()), ActivePages(cart, cbank0), q)
    {
      hide Sound, PrgTable, PrgData, ChrData, ChrTable, Choose, Fetch, ActivePages, Cart.ChrPages, Cart.RamPage, Cart.TablePages;
      hide Pages, Tiles, TileFrame, PrgLeft, RamStays, ChrSet, ChrCleared;
      ghost var l, progLru, was, coherent := ChrLru(), PrgLru(), Tiles(), ChrCoherent();
      SoundFacts(l, chrSlots, cart.ChrPages());
      var slot := FindChrPage(q);
      if slot < chrSlots {
        TouchChr(slot);
      } else {
        slot := ChooseChrSlot();
        LoadChr(slot, q, ok, junk);
        LaterClock(progLru, PRG_CACHE_GROUPS, cart.PrgGroups(), clock);
        if !ok {
          FailedTile(was, Tiles(), l.tags, cart, if l.tags[slot] == INVALID then 0 else cart.TablePages(), page, q, slot);
          return;
        }
      }
      LaterClock(progLru, PRG_CACHE_GROUPS, cart.PrgGroups(), clock);
      SoundFacts(ChrLru(), chrSlots, cart.ChrPages());
      assert chrPage[..chrSlots][slot] == chrPage[slot];
      SetTile(was, Tiles(), l.tags, cart, page, q, slot);
      Store(cart.PrgPages() + page, Chr(slot));
    }

    /** Whether a mapped program bank can be switched to: its entry leads to its own bytes. */
    ghost predicate PrgShown(bank: nat)
      requires Shaped() && cart.PrgPages() > 0 && bank < 512
      reads this, prgCache, instant
    {
      Shows(instant[bank], prgCache[..], cart, bank)
    }

    /** All four program windows can be mapped again. */
    ghost predicate PrgAllShown()
      requires Shaped() && cart.PrgPages() > 0
      reads this, prgCache, instant
    {
      forall i :: 1 <= i < 5 && bank6[i] < 255 ==> PrgShown(bank6[i])
    }

    ghost predicate ChrShown(bank: nat)
      requires Shaped() && bank < 2048
      reads this, chrCache, instant
    {
      TileShows(Tiles()[bank], chrCache[..], cart, bank, chrSlots)
    }

    /** The tile table is right: no program lookup has overwritten an entry. */
    ghost predicate TilesRight()
      reads this, chrPage, chrAge, chrCache, instant
    {
      && ChrCoherent() && NonePrg(Tiles(), cart.TileEntries())
      && (cart.ChrPages() == 0 ==> forall a :: 0 <= a < 8 ==> Tiles()[a] == Ram(a))
    }

    /** The first half of restoring: all four program banks, in order. */
    method RestorePrg(oks: seq<bool>, junk: seq<Byte>) returns (ret: int)
      requires PrgCoherent() && cart.PrgPages() > 0 && clock + 4 <= MAX_AGE && |oks| == 5
      modifies this`clock, prgGroup, prgAge, prgCache, instant
      ensures Shaped() && (old(ChrSound()) ==> ChrSound()) && old(clock) <= clock <= old(clock) + 4
      ensures ret == 0 || ret == -1
      ensures (forall i :: 0 <= i < 5 ==> oks[i]) ==> ret == 0
      ensures ret == 0 ==> PrgCoherent() && Overwritten(Tiles(), old(Tiles()), cart, bank6, 5)
      ensures ret == 0 ==> PrgLru() == FetchAll(old(PrgLru()), ActiveGroups(bank6), WantedGroups(cart, bank6, 5))
      ensures ret == 0 && Fits(cart, bank6) ==>
        forall i :: 1 <= i < 5 && bank6[i] < 255 ==> LeadsTo(instant[bank6[i]], prgGroup[..], Wrap(bank6[i], cart.PrgPages()))
      ensures ret == 0 && Fits(cart, bank6) ==> forall i :: 1 <= i < 5 && bank6[i] < 255 ==> PrgShown(bank6[i])
    {
      hide ActiveGroups, Sound, PrgTable, PrgData, ChrTable, ChrData, Fetch, FetchAll, Enough, PrgMatches, WantedGroups;
      hide Fits, Restored, Shows, LeadsTo, Overwritten, Tiles;
      ghost var l0, tiles := PrgLru(), Tiles();
      NothingRestored(instant[..], l0, cart, bank6);
      NothingOverwritten(tiles, cart, bank6);
      for i := 1 to 5
        invariant PrgCoherent() && (old(ChrSound()) ==> ChrSound()) && l0.clock <= clock <= l0.clock + (i - 1)
        invariant Restored(instant[..], PrgLru(), l0, cart, bank6, i) && Overwritten(Tiles(), tiles, cart, bank6, i)
      {
        var done := RestoreBank(i, oks[i], junk, l0, tiles);
        if !done {
          return -1;
        }
      }
      ret := 0;
      PagesAreTable(instant[..], Pages(), prgGroup[..], cart.PrgPages());
      AllRestored(instant[..], PrgLru(), l0, prgCache[..], cart, bank6);
    }

    /** One bank of the program half; whether it was found or read. */
    method RestoreBank(i: nat, ok: bool, junk: seq<Byte>, ghost l0: Lru, ghost tiles: seq<Pointer>) returns (done: bool)
      requires PrgCoherent() && cart.PrgPages() > 0 && 1 <= i < 5 && clock < MAX_AGE
      requires Sound(l0, PRG_CACHE_GROUPS, cart.PrgGroups()) && l0.clock + 4 <= MAX_AGE
      requires Restored(instant[..], PrgLru(), l0, cart, bank6, i) && Overwritten(Tiles(), tiles, cart, bank6, i)
      modifies this`clock, prgGroup, prgAge, prgCache, instant
      ensures Shaped() && (old(ChrSound()) ==> ChrSound()) && old(clock) <= clock <= old(clock) + 1
      ensures ok ==> done
      ensures done ==> PrgCoherent() && Restored(instant[..], PrgLru(), l0, cart, bank6, i + 1)
      ensures done ==> Overwritten(Tiles(), tiles, cart, bank6, i + 1)
    {
      hide ActiveGroups, Sound, PrgTable, PrgData, ChrTable, ChrData, Fetch, FetchAll, Enough, Choose, PrgMatches, WantedGroups;
      hide Restored, Overwritten, PrgChanged;
      ghost var l, was, before := PrgLru(), instant[..], Tiles();
      SoundShape(l0, PRG_CACHE_GROUPS, cart.PrgGroups());
      done := true;
      if bank6[i] < 255 {
        var r := EnsurePrg(bank6[i], ok, junk);
        if r == NoPage {
          return false;
        }
        OneOverwritten(before, Tiles(), tiles, cart, bank6, i, r);
        OthersStay(was, instant[..], cart.PrgPages(), bank6[i]);
        BankRestored(was, instant[..], l, PrgLru(), l0, cart, bank6, i);
      } else {
        BankSkipped(instant[..], l, l0, cart, bank6, i);
        NoneOverwritten(before, tiles, cart, bank6, i);
      }
    }

    /** The second half of restoring: all eight tile banks, in order. A tile entry that a program lookup
        overwrote is no null pointer, so a failed read of its page goes unnoticed. */
    method RestoreChr(oks: seq<bool>, junk: seq<Byte>) returns (ret: int)
      requires ChrSound() && clock + 8 <= MAX_AGE && |oks| == 8
      requires cart.ChrPages() > 0 ==> forall i :: 0 <= i < 8 ==> cbank0[i] < cart.TablePages()
      modifies this`clock, chrPage, chrAge, chrCache, instant
      ensures ChrSound() && Pages() == old(Pages()) && (old(PrgCoherent()) ==> PrgCoherent()) && clock <= old(clock) + 8
      ensures ret == 0 || ret == -2
      ensures cart.ChrPages() > 0 && (forall i :: 0 <= i < 8 ==> oks[i]) ==> ret == 0
      ensures cart.ChrPages() == 0 ==> unchanged(this) && unchanged(chrPage) && unchanged(chrAge)
      ensures cart.ChrPages() == 0 ==> unchanged(chrCache) && unchanged(instant)
      ensures cart.ChrPages() == 0 ==> (ret == 0 <==> forall i :: 0 <= i < 8 ==> Tiles()[cbank0[i]] != NoPage)
      ensures cart.ChrPages() == 0 && old(ChrCoherent()) ==> ChrCoherent()
      ensures cart.ChrPages() > 0 ==> TileFrame(Tiles(), old(Tiles()), cart.TablePages())
      ensures cart.ChrPages() > 0 && (forall i :: 0 <= i < 8 ==> oks[i]) ==> AllPrgLeft(Tiles(), old(Tiles()), cart, cbank0, 8)
      ensures ret == 0 && cart.ChrPages() > 0 && old(ChrCoherent()) && Noticed(oks, old(Tiles()), cbank0, 8) ==>
        ChrCoherent() && forall i :: 0 <= i < 8 ==> ChrShown(cbank0[i])
    {
      hide ActivePages, Sound, ChrTable, ChrData, PrgTable, PrgData, Fetch, FetchAll, Enough, Choose, ChrMatches, Pages, Tiles;
      hide WantedPages, RamStays, Cart.ChrPages, Cart.TablePages, Cart.RamPage, TilesDone, TileFrame, AllPrgLeft, Noticed;
      hide EnsuredChr, PrgLeft;
      ghost var l0, tiles, coherent := ChrLru(), Tiles(), ChrCoherent();
      TableFits(cart);
      NoTilesDone(tiles, l0, cart, cbank0);
      for i := 0 to 8
        invariant ChrSound() && Pages() == old(Pages()) && (old(PrgCoherent()) ==> PrgCoherent())
        invariant l0.clock <= clock <= l0.clock + i
        invariant cart.ChrPages() == 0 ==> unchanged(this) && unchanged(chrPage) && unchanged(chrAge)
        invariant cart.ChrPages() == 0 ==> unchanged(chrCache) && unchanged(instant)
        invariant cart.ChrPages() == 0 ==> forall j :: 0 <= j < i ==> Tiles()[cbank0[j]] != NoPage
        invariant cart.ChrPages() > 0 ==> TileFrame(Tiles(), tiles, cart.TablePages())
        invariant cart.ChrPages() > 0 && (forall i :: 0 <= i < 8 ==> oks[i]) ==> AllPrgLeft(Tiles(), tiles, cart, cbank0, i)
        invariant cart.ChrPages() > 0 && coherent && Noticed(oks, tiles, cbank0, i) ==>
          ChrCoherent() && TilesDone(Tiles(), ChrLru(), l0, cart, cbank0, i)
      {
        ghost var was, l := Tiles(), ChrLru();
        EnsureChr(cbank0[i], oks[i], junk);
        if cart.ChrPages() > 0 {
          FramesCompose(tiles, was, Tiles(), cart, cbank0, i);
        }
        var e := TileAt(cbank0[i]);
        if e == NoPage {
          return -2;
        }
        if cart.ChrPages() > 0 && coherent && Noticed(oks, tiles, cbank0, i + 1) {
          NoticedOne(oks, tiles, was, cart, cbank0, i);
          OneTileDone(was, Tiles(), l, ChrLru(), l0, cart, cbank0, i);
        }
      }
      ret := 0;
      if cart.ChrPages() > 0 && coherent && Noticed(oks, tiles, cbank0, 8) {
        AllTilesDone(Tiles(), ChrLru(), l0, chrCache[..], cart, cbank0, chrSlots);
      }
    }

    /** Restores the cache after a state was loaded, and maps the windows to what it found. */
    method RestoreCacheMap(prgOks: seq<bool>, chrOks: seq<bool>, junk: seq<Byte>) returns (ret: int)
      requires PrgCoherent() && ChrCoherent() && cart.PrgPages() > 0 && clock + 12 <= MAX_AGE && |prgOks| == 5 && |chrOks| == 8
      requires cart.ChrPages() > 0 ==> forall i :: 0 <= i < 8 ==> cbank0[i] < cart.TablePages()
      modifies this`clock, this`windows, prgGroup, prgAge, prgCache, instant, chrPage, chrAge, chrCache
      ensures ret == 0 || ret == -1 || ret == -2
      ensures cart.ChrPages() > 0 && (forall i :: 0 <= i < 5 ==> prgOks[i]) && (forall i :: 0 <= i < 8 ==> chrOks[i]) ==> ret == 0
      ensures cart.ChrPages() == 0 && old(TilesRight()) && (forall i :: 0 <= i < 5 ==> prgOks[i]) ==>
        ((forall i :: 0 <= i < 8 ==> cbank0[i] < 8) ==> ret == 0)
      ensures ret == 0 ==> Shaped() && PrgCoherent() && windows == Rebanked(old(windows), instant[..], bank6)
      ensures ret == 0 ==> PrgLru().tags == FetchAll(old(PrgLru()), ActiveGroups(bank6), WantedGroups(cart, bank6, 5)).tags
      ensures ret == 0 && Fits(cart, bank6) ==>
        forall i :: 1 <= i < 5 && bank6[i] < 255 && !InTiles(cart, bank6[i]) ==> PrgShown(bank6[i])
      ensures ret == 0 && Fits(cart, bank6) && (cart.ChrPages() == 0 || forall i :: 0 <= i < 8 ==> chrOks[i]) ==>
        forall i :: 1 <= i < 5 && bank6[i] < 255 && InTiles(cart, bank6[i]) ==>
          (PrgShown(bank6[i]) <==> Spared(cart, cbank0, bank6[i] - cart.PrgPages(), 8))
      ensures ret == 0 && Fits(cart, bank6) ==> forall i :: 1 <= i < 5 && bank6[i] < 255 ==>
        StillLeads(instant[bank6[i]], prgGroup[..], cart, bank6[i])
      ensures ret == 0 && NoticedAll(cart, chrOks, old(Tiles()), bank6, cbank0) ==>
        ChrCoherent() && (cart.ChrPages() > 0 ==> forall i :: 0 <= i < 8 ==> ChrShown(cbank0[i]))
      ensures ret == 0 && cart.ChrPages() == 0 && old(TilesRight()) ==>
        forall a :: 0 <= a < 8 ==> (ChrShown(a) <==> !PastRegister(cart, bank6, a, 5))
      ensures ret == 0 && TilesRight() && PrgAllShown() ==> NoneInTiles(cart, bank6)
      ensures ret == 0 && Fits(cart, bank6) && old(TilesRight()) && NoticedAll(cart, chrOks, old(Tiles()), bank6, cbank0) ==>
        (NoneInTiles(cart, bank6) ==> TilesRight() && PrgAllShown())
    {
      hide ActiveGroups, Sound, PrgTable, PrgData, ChrTable, ChrData, FetchAll, WantedGroups, LeadsTo, Shows, TileShows, Tiles, Pages;
      hide Overwritten, AllPrgLeft, TileFrame, PastRegister, NoticedAll, Fits, Enough, Spared, Rebanked, NonePrg, InTiles;
      hide StillLeads, NoneInTiles;
      ghost var tiles, right := Tiles(), TilesRight();
      ghost var mid, midTiles;
      ret, mid, midTiles := RestoreBoth(prgOks, chrOks, junk);
      if ret < 0 {
        return;
      }
      windows := Rebanked(windows, instant[..], bank6);
      BothShow(instant[..], mid, Tiles(), midTiles, prgCache[..], prgGroup[..], cart, bank6, cbank0, chrOks);
      if TilesRight() && PrgAllShown() {
        OnlyWithNoneInTiles(instant[..], Tiles(), prgCache[..], cart, bank6);
      }
      if right {
        TilesAre(Tiles(), midTiles, tiles, cart, bank6);
        WorkMemoryShows(Tiles(), tiles, chrCache[..], cart, bank6, chrSlots);
      }
    }

    /** The two halves; mid is the table between them. */
    method RestoreBoth(prgOks: seq<bool>, chrOks: seq<bool>, junk: seq<Byte>)
      returns (ret: int, ghost mid: seq<Pointer>, ghost midTiles: seq<Pointer>)
      requires PrgCoherent() && ChrCoherent() && cart.PrgPages() > 0 && clock + 12 <= MAX_AGE && |prgOks| == 5 && |chrOks| == 8
      requires cart.ChrPages() > 0 ==> forall i :: 0 <= i < 8 ==> cbank0[i] < cart.TablePages()
      modifies this`clock, prgGroup, prgAge, prgCache, instant, chrPage, chrAge, chrCache
      ensures ret == 0 || ret == -1 || ret == -2
      ensures cart.ChrPages() > 0 && (forall i :: 0 <= i < 5 ==> prgOks[i]) && (forall i :: 0 <= i < 8 ==> chrOks[i]) ==> ret == 0
      ensures cart.ChrPages() == 0 && old(TilesRight()) && (forall i :: 0 <= i < 5 ==> prgOks[i]) ==>
        ((forall i :: 0 <= i < 8 ==> cbank0[i] < 8) ==> ret == 0)
      ensures ret == 0 ==> Shaped() && PrgCoherent() && |mid| == TABLE
      ensures ret == 0 ==> instant[..][..cart.PrgPages()] == mid[..cart.PrgPages()]
      ensures ret == 0 ==> Tiles() == instant[..][cart.PrgPages()..] && midTiles == mid[cart.PrgPages()..]
      ensures ret == 0 ==> Overwritten(midTiles, old(Tiles()), cart, bank6, 5)
      ensures ret == 0 ==> if cart.ChrPages() == 0 then instant[..] == mid else TileFrame(Tiles(), midTiles, cart.TablePages())
      ensures ret == 0 && cart.ChrPages() > 0 && (forall i :: 0 <= i < 8 ==> chrOks[i]) ==>
        AllPrgLeft(Tiles(), midTiles, cart, cbank0, 8)
      ensures ret == 0 ==> PrgLru().tags == FetchAll(old(PrgLru()), ActiveGroups(bank6), WantedGroups(cart, bank6, 5)).tags
      ensures ret == 0 && Fits(cart, bank6) ==> forall i :: 1 <= i < 5 && bank6[i] < 255 ==>
        LeadsTo(mid[bank6[i]], prgGroup[..], Wrap(bank6[i], cart.PrgPages())) && Shows(mid[bank6[i]], prgCache[..], cart, bank6[i])
      ensures ret == 0 && NoticedAll(cart, chrOks, old(Tiles()), bank6, cbank0) ==>
        ChrCoherent() && (cart.ChrPages() > 0 ==> forall i :: 0 <= i < 8 ==> ChrShown(cbank0[i]))
    {
      hide ActiveGroups, Sound, PrgTable, PrgData, ChrTable, ChrData, FetchAll, WantedGroups, LeadsTo, Shows, TileShows;
      hide Overwritten, AllPrgLeft, TileFrame, PastRegister, Noticed, NoticedAll, Fits;
      ghost var tiles, right := Tiles(), TilesRight();
      mid, midTiles := [], [];
      ret := RestorePrg(prgOks, junk);
      if ret < 0 {
        return;
      }
      OverwrittenIsLoose(Tiles(), tiles, chrPage[..chrSlots], cart, bank6, 5);
      mid, midTiles := instant[..], Tiles();
      if right && cart.ChrPages() == 0 {
        NoneIsNull(midTiles, tiles, cart, bank6);
      }
      if NoticedAll(cart, chrOks, tiles, bank6, cbank0) {
        NoticedLater(cart, chrOks, tiles, midTiles, bank6, cbank0);
      }
      ret := RestoreChr(chrOks, junk);
    }

    /** Empties the program slots and their table. */
    method ClearPrg()
      requires Shaped()
      modifies this`clock, prgGroup, prgAge, instant
      ensures PrgCoherent() && clock == 0 && Preloaded(prgGroup[..], 0) && PreloadedAt(prgAge[..], 0)
    {
      for i := 0 to cart.PrgPages()
        invariant forall p :: 0 <= p < i ==> instant[p] == NoPage
      {
        instant[i] := NoPage;
      }
      for i := 0 to PRG_CACHE_GROUPS
        invariant forall p :: 0 <= p < cart.PrgPages() ==> instant[p] == NoPage
        invariant forall k :: 0 <= k < i ==> prgGroup[k] == INVALID && prgAge[k] == 0
      {
        prgGroup[i] := INVALID;
        prgAge[i] := 0;
      }
      clock := 0;
    }

    /** Empties the tile slots and their table. */
    method ClearChr()
      requires Shaped() && clock == 0
      modifies chrPage, chrAge, instant
      ensures ChrCoherent() && Pages() == old(Pages()) && NonePrg(Tiles(), cart.TablePages())
    {
      hide Pages, Tiles;
      TableFits(cart);
      for i := 0 to cart.TablePages()
        invariant Pages() == old(Pages()) && forall a :: 0 <= a < i ==> Tiles()[a] == NoPage
      {
        Store(cart.PrgPages() + i, NoPage);
      }
      for i := 0 to chrSlots
        invariant Pages() == old(Pages()) && forall a :: 0 <= a < cart.TablePages() ==> Tiles()[a] == NoPage
        invariant forall k :: 0 <= k < i ==> chrPage[k] == INVALID && chrAge[k] == 0
      {
        chrPage[i] := INVALID;
        chrAge[i] := 0;
      }
    }

    /** Loads the first groups of the ROM into the empty slots. */
    method PreloadPrg()
      requires PrgCoherent() && ChrCoherent() && clock == 0 && Preloaded(prgGroup[..], 0) && PreloadedAt(prgAge[..], 0)
      modifies this`clock, prgGroup, prgAge, prgCache, instant
      ensures PrgCoherent() && ChrCoherent() && clock <= PRG_CACHE_GROUPS && Tiles() == old(Tiles())
      ensures forall i :: 0 <= i < PRG_CACHE_GROUPS ==> prgGroup[i] == if i < cart.PrgGroups() then i else INVALID
      ensures forall i :: 0 <= i < PRG_CACHE_GROUPS ==> prgAge[i] == if i < cart.PrgGroups() then i + 1 else 0
    {
      hide Sound, ChrTable, ChrData, PrgTable, PrgData, Fetch, Choose, ActiveGroups, Pages, Tiles;
      var i: nat := 0;
      while i < PRG_CACHE_GROUPS && i < cart.PrgGroups()
        invariant i <= PRG_CACHE_GROUPS && i <= cart.PrgGroups()
        invariant PrgCoherent() && ChrCoherent() && Tiles() == old(Tiles())
        invariant clock == i && Preloaded(prgGroup[..], i) && PreloadedAt(prgAge[..], i)
      {
        ghost var l := PrgLru();
        SmallMod(i * PRG_GROUP_PAGES, cart.PrgPages());
        var at := EnsurePrg(i * PRG_GROUP_PAGES, true, []);
        FetchPreloads(l, ActiveGroups(bank6), i);
        FetchClock(l, ActiveGroups(bank6), i);
        i := i + 1;
      }
    }

    /** Loads the first tile pages into the empty slots. */
    method PreloadChr()
      requires PrgCoherent() && ChrCoherent() && clock <= PRG_CACHE_GROUPS && NonePrg(Tiles(), cart.TablePages())
      modifies this`clock, chrPage, chrAge, chrCache, instant
      ensures PrgCoherent() && ChrCoherent() && clock <= PRG_CACHE_GROUPS + CHR_CACHE_PAGES_MAX
      ensures NonePrg(Tiles(), cart.TablePages())
    {
      hide Sound, ChrTable, ChrData, PrgTable, PrgData, Fetch, Choose, ActivePages, Cart.ChrPages, Cart.TablePages, Cart.RamPage;
      hide Pages, Tiles;
      TableFits(cart);
      var i: nat := 0;
      while i < chrSlots && i < cart.ChrPages()
        invariant i <= chrSlots && PrgCoherent() && ChrCoherent() && clock <= PRG_CACHE_GROUPS + i
        invariant NonePrg(Tiles(), cart.TablePages())
      {
        EnsureChr(i, true, []);
        i := i + 1;
      }
    }

    /** Sets every entry that stands for work memory; without tile ROM, the first eight do. */
    method MapWorkMemory()
      requires PrgCoherent() && ChrCoherent() && NonePrg(Tiles(), cart.TablePages())
      modifies instant
      ensures PrgCoherent() && TilesRight()
      ensures cart.ChrPages() > 0 ==> RamsMapped(Tiles(), cart, cart.TablePages())
    {
      hide Sound, PrgTable, PrgData, ChrData, ChrTable, Cart.ChrPages, Cart.TablePages, Cart.RamPage, Pages, Tiles;
      TableFits(cart);
      for i := 0 to cart.TablePages()
        invariant PrgCoherent() && ChrCoherent() && RamsMapped(Tiles(), cart, i) && NonePrg(Tiles(), cart.TablePages())
      {
        var ram := cart.RamPage(i);
        if ram != -1 {
          RamEntryFree(Tiles(), chrPage[..chrSlots], cart, i);
          Store(cart.PrgPages() + i, Ram(ram));
        }
      }
      if cart.ChrPages() == 0 {
        for i := 0 to 8
          invariant PrgCoherent() && ChrCoherent() && forall j :: 0 <= j < i ==> Tiles()[j] == Ram(j)
        {
          NoTileTable(Tiles(), chrPage[..chrSlots], cart, i);
          Store(cart.PrgPages() + i, Ram(i));
        }
      }
    }

    /** Starting up with a cartridge that reads well, whatever the arrays held before. */
    method CacheInit()
      requires Shaped()
      modifies this`clock, prgGroup, prgAge, prgCache, chrPage, chrAge, chrCache, instant
      ensures PrgCoherent() && TilesRight() && clock <= PRG_CACHE_GROUPS + CHR_CACHE_PAGES_MAX
      ensures forall i :: 0 <= i < PRG_CACHE_GROUPS ==> prgGroup[i] == if i < cart.PrgGroups() then i else INVALID
      ensures forall i :: 0 <= i < PRG_CACHE_GROUPS ==> prgAge[i] == if i < cart.PrgGroups() then i + 1 else 0
      ensures cart.ChrPages() > 0 ==> RamsMapped(Tiles(), cart, cart.TablePages())
    {
      hide Sound, PrgTable, PrgData, ChrData, ChrTable, RamsMapped, Pages, Tiles, NonePrg;
      ClearPrg();
      ClearChr();
      PreloadPrg();
      PreloadChr();
      MapWorkMemory();
    }

    /** A bank switch: the registers, the lookup for the page that was asked for, and the windows. */
    method MapPrg(s: Switch, ok: bool, junk: seq<Byte>) returns (result: Pointer)
      requires PrgSound() && cart.romPages > 0 && clock < MAX_AGE && (s.Bank? ==> 1 <= s.i <= 4)
      modifies this`bank6, this`windows, this`clock, prgGroup, prgAge, prgCache, instant
      ensures PrgSound() && old(clock) <= clock <= old(clock) + 1 && Tiles() == old(Tiles())
      ensures (old(ChrCoherent()) ==> ChrCoherent()) && (old(TilesRight()) ==> TilesRight())
      ensures bank6 == Switched(cart.romPages, old(bank6), s) && windows == WindowsSet(old(windows), s, result)
      ensures Reached(cart.romPages, old(bank6)) ==> Reached(cart.romPages, bank6)
      ensures EnsuredPrg(SwitchPage(cart.romPages, s), ok, junk, result, PrgLru(), old(PrgLru()), prgCache[..], old(prgCache[..]))
      ensures ok ==> result != NoPage
      ensures result != NoPage && old(PrgCoherent()) ==>
        PrgCoherent() && instant[SwitchPage(cart.romPages, s)] == result
      ensures result != NoPage ==> forall i :: 1 <= i < 5 && Sets(s, i) ==>
        LeadsTo(windows[i], prgGroup[..], SetPage(cart.romPages, s, i))
      ensures cart.romPages <= 128 ==> forall i :: 1 <= i < 5 && !Sets(s, i) && LeadsTo(old(windows)[i], old(prgGroup[..]), bank6[i]) ==>
        LeadsTo(windows[i], prgGroup[..], bank6[i])
    {
      hide Sound, ChrTable, ChrData, PrgData, PrgTable, Choose, Fetch, PrgMatches, PrgChanged, Reached, Masked, ActiveGroups;
      hide Tiles, Pages, WindowsSet, LeadsTo, SetPage, NonePrg;
      ghost var l, w := PrgLru(), windows;
      if Reached(cart.romPages, bank6) {
        SwitchKeepsReached(cart.romPages, bank6, s);
      }
      SwitchedAreBytes(cart.romPages, bank6, s);
      ghost var was := bank6;
      hide Switched;
      bank6 := Switched(cart.romPages, bank6, s);
      var page := SwitchPage(cart.romPages, s);
      SmallMod(page, cart.PrgPages());
      result := EnsurePrg(page, ok, junk);
      windows := WindowsSet(windows, s, result);
      if result != NoPage {
        SetWindowsLead(w, result, prgGroup[..], cart.romPages, s);
      }
      if cart.romPages <= 128 {
        OtherWindowsLead(w, result, l, PrgLru(), cart, was, s);
      }
    }

    /** The outcome of a lookup for tile ROM page q, asked for as `page`. */
    ghost predicate EnsuredChr(page: nat, q: nat, ok: bool, junk: seq<Byte>, l: Lru, l0: Lru,
                               data: seq<seq<Byte>>, data0: seq<seq<Byte>>, instant: seq<Pointer>)
      requires |cbank0| == 8 && 0 < |l0.tags| == |l0.ages| <= |data0| && page < |instant|
      reads this
    {
      if !ok && q !in l0.tags then
        l == l0 && data == data0[Choose(l0, ActivePages(cart, cbank0)) := junk]
      else
        && l == Fetch(l0, ActivePages(cart, cbank0), q)
        && instant[page].Chr? && 0 <= instant[page].slot < |l.tags| && l.tags[instant[page].slot] == q
    }

    /** The outcome of a lookup for page q of the ROM. */
    ghost predicate EnsuredPrg(q: nat, ok: bool, junk: seq<Byte>, result: Pointer, l: Lru, l0: Lru,
                               data: seq<seq<Byte>>, data0: seq<seq<Byte>>)
      requires |bank6| == 5 && |l0.tags| == |l0.ages| == |data0| == PRG_CACHE_GROUPS
      reads this
    {
      if !ok && q / 4 !in l0.tags then
        result == NoPage && l == l0 && data == data0[Choose(l0, ActiveGroups(bank6)) := junk]
      else
        LeadsTo(result, l.tags, q) && l == Fetch(l0, ActiveGroups(bank6), q / 4)
    }
  }
}
