/**
 Whole sessions of the NES program cache: start-up, runs of bank switches, and restoring the registers
 that another session saved. Each window should show the page that it was switched to last.
 */
module NesSession {
  import opened Arith
  import opened NesBanks
  import opened NesCache
  import opened NesLru
  import opened NesTables

  // ------------------------------------------------------------------ switching

  /** The windows lead to these pages. */
  ghost predicate WindowsLead(windows: seq<Pointer>, tags: seq<int>, pages: seq<nat>)
    requires |windows| == |pages| == 5
  {
    forall i :: 1 <= i < 5 ==> LeadsTo(windows[i], tags, pages[i])
  }

  predicate TileBanksFit(c: Cache)
    reads c
  {
    |c.cbank0| == 8 && forall i :: 0 <= i < 8 ==> 0 <= c.cbank0[i] < c.cart.TileEntries()
  }

  /** Every 8 KB switch is for one of the four windows. */
  predicate ForWindows(ss: seq<Switch>) {
    forall k :: 0 <= k < |ss| && ss[k].Bank? ==> 1 <= ss[k].i <= 4
  }

  /** The pages that start-up maps: the first and the last 16 KB of the ROM. */
  function FirstPages(romPages: nat): (pages: seq<nat>)
    requires romPages > 0
    ensures |pages| == 5
  {
    Paged(romPages, Paged(romPages, [0, 0, 0, 0, 0], Low(0)), High(0xFFFF_FFFF))
  }

  /** Start-up, and the default mapping. */
  method StartUp(c: Cache)
    requires c.Shaped() && 0 < c.cart.romPages <= 128
    modifies c`clock, c`bank6, c`windows, c.prgGroup, c.prgAge, c.prgCache, c.chrPage, c.chrAge, c.chrCache, c.instant
    ensures c.PrgCoherent() && c.TilesRight() && c.clock <= 23
    ensures Tracks(c.cart.romPages, c.bank6, FirstPages(c.cart.romPages))
    ensures WindowsLead(c.windows, c.prgGroup[..], FirstPages(c.cart.romPages))
  {
    hide Sound, PrgTable, PrgData, ChrTable, ChrData, RamsMapped, LeadsTo, PrgMatches, Masked, Fetch, Choose, WindowsSet, NonePrg;
    c.CacheInit();
    MapLower(c);
    MapUpper(c);
  }

  method MapLower(c: Cache)
    requires c.PrgCoherent() && c.TilesRight() && 0 < c.cart.romPages <= 128 && c.clock <= 21
    modifies c`clock, c`bank6, c`windows, c.prgGroup, c.prgAge, c.prgCache, c.instant
    ensures c.PrgCoherent() && c.TilesRight() && c.clock <= 22
    ensures forall i :: 1 <= i <= 2 ==> TracksPage(c.cart.romPages, c.bank6[i], FirstPages(c.cart.romPages)[i], i)
    ensures forall i :: 1 <= i <= 2 ==>
      c.bank6[i] == FirstPages(c.cart.romPages)[i] && LeadsTo(c.windows[i], c.prgGroup[..], c.bank6[i])
  {
    hide Sound, PrgTable, PrgData, ChrTable, ChrData, LeadsTo, PrgMatches, Masked, Fetch, Choose, WindowsSet, NonePrg, TracksPage;
    hide Switched, SetPage, Cache.EnsuredPrg;
    ghost var was := c.bank6;
    var e := c.MapPrg(Low(0), true, []);
    FirstTrack(c.cart.romPages, was, c.bank6);
  }

  method MapUpper(c: Cache)
    requires c.PrgCoherent() && c.TilesRight() && 0 < c.cart.romPages <= 128 && c.clock <= 22
    requires forall i :: 1 <= i <= 2 ==> TracksPage(c.cart.romPages, c.bank6[i], FirstPages(c.cart.romPages)[i], i)
    requires forall i :: 1 <= i <= 2 ==>
      c.bank6[i] == FirstPages(c.cart.romPages)[i] && LeadsTo(c.windows[i], c.prgGroup[..], c.bank6[i])
    modifies c`clock, c`bank6, c`windows, c.prgGroup, c.prgAge, c.prgCache, c.instant
    ensures c.PrgCoherent() && c.TilesRight() && c.clock <= 23
    ensures Tracks(c.cart.romPages, c.bank6, FirstPages(c.cart.romPages))
    ensures WindowsLead(c.windows, c.prgGroup[..], FirstPages(c.cart.romPages))
  {
    hide Sound, PrgTable, PrgData, ChrTable, ChrData, LeadsTo, PrgMatches, Masked, Fetch, Choose, WindowsSet, NonePrg, TracksPage;
    hide Switched, SetPage, Cache.EnsuredPrg;
    ghost var was := c.bank6;
    var e := c.MapPrg(High(0xFFFF_FFFF), true, []);
    LastTrack(c.cart.romPages, was, c.bank6);
  }

  lemma FirstTrack(romPages: nat, b0: seq<int>, b1: seq<int>)
    requires 0 < romPages <= 128 && |b0| == 5 && b1 == Switched(romPages, b0, Low(0))
    ensures var p := FirstPages(romPages); forall i :: 1 <= i <= 2 ==>
      0 <= b1[i] < 256 && b1[i] == p[i] == SetPage(romPages, Low(0), i) && TracksPage(romPages, b1[i], p[i], i)
  {
    hide Masked;
    SetTracks(romPages, b0, Low(0), 1);
    SetTracks(romPages, b0, Low(0), 2);
  }

  lemma LastTrack(romPages: nat, b1: seq<int>, b2: seq<int>)
    requires 0 < romPages <= 128 && |b1| == 5 && b2 == Switched(romPages, b1, High(0xFFFF_FFFF))
    ensures b2[1] == b1[1] && b2[2] == b1[2]
    ensures var p := FirstPages(romPages); forall i :: 3 <= i <= 4 ==>
      0 <= b2[i] < 256 && p[i] == SetPage(romPages, High(0xFFFF_FFFF), i) && TracksPage(romPages, b2[i], p[i], i)
  {
    hide Masked;
    SetTracks(romPages, b1, High(0xFFFF_FFFF), 3);
    SetTracks(romPages, b1, High(0xFFFF_FFFF), 4);
  }

  /** On a ROM of at most 128 pages a switch evicts the group of no other window. */
  method SwitchOne(c: Cache, s: Switch, ghost pages: seq<nat>)
    requires c.PrgCoherent() && 0 < c.cart.romPages <= 128 && Tracks(c.cart.romPages, c.bank6, pages)
    requires (s.Bank? ==> 1 <= s.i <= 4) && WindowsLead(c.windows, c.prgGroup[..], pages) && c.clock < MAX_AGE
    modifies c`clock, c`bank6, c`windows, c.prgGroup, c.prgAge, c.prgCache, c.instant
    ensures c.PrgCoherent() && (old(c.TilesRight()) ==> c.TilesRight()) && c.clock <= old(c.clock) + 1
    ensures c.bank6 == Switched(c.cart.romPages, old(c.bank6), s)
    ensures Tracks(c.cart.romPages, c.bank6, Paged(c.cart.romPages, pages, s))
    ensures WindowsLead(c.windows, c.prgGroup[..], Paged(c.cart.romPages, pages, s))
  {
    assert |pages| == 5;
    hide Sound, PrgTable, PrgData, ChrTable, ChrData, LeadsTo, PrgMatches, Masked, Fetch, Choose, WindowsSet, NonePrg, Tracks;
    hide Switched, Cache.EnsuredPrg, SetPage, Paged, WindowsLead, Reached, Sets;
    ghost var r, was, windows, tags := c.cart.romPages, c.bank6, c.windows, c.prgGroup[..];
    var e := c.MapPrg(s, true, []);
    SwitchKeepsTrack(r, was, pages, s);
    RegistersArePages(r, c.bank6, Paged(r, pages, s));
    StillLead(windows, c.windows, tags, c.prgGroup[..], r, c.bank6, pages, s);
  }

  lemma StillLead(was: seq<Pointer>, now: seq<Pointer>, tags: seq<int>, tags': seq<int>, romPages: nat, banks: seq<int>,
                  pages: seq<nat>, s: Switch)
    requires |was| == |now| == |banks| == |pages| == 5 && romPages > 0 && WindowsLead(was, tags, pages)
    requires forall i :: 1 <= i < 5 ==> 0 <= banks[i] == Paged(romPages, pages, s)[i]
    requires forall i :: 1 <= i < 5 && Sets(s, i) ==> LeadsTo(now[i], tags', SetPage(romPages, s, i))
    requires forall i :: 1 <= i < 5 && !Sets(s, i) && LeadsTo(was[i], tags, banks[i]) ==> LeadsTo(now[i], tags', banks[i])
    ensures WindowsLead(now, tags', Paged(romPages, pages, s))
  {
    hide LeadsTo, SetPage, Sets;
  }

  /** So each window shows the page that it was switched to last, after every run of switches. */
  method SwitchThrough(c: Cache, ss: seq<Switch>, ghost pages: seq<nat>)
    requires c.PrgCoherent() && 0 < c.cart.romPages <= 128 && Tracks(c.cart.romPages, c.bank6, pages) && ForWindows(ss)
    requires WindowsLead(c.windows, c.prgGroup[..], pages) && c.clock + |ss| <= MAX_AGE
    modifies c`clock, c`bank6, c`windows, c.prgGroup, c.prgAge, c.prgCache, c.instant
    ensures c.PrgCoherent() && (old(c.TilesRight()) ==> c.TilesRight()) && c.clock <= old(c.clock) + |ss|
    ensures c.bank6 == SwitchedAll(c.cart.romPages, old(c.bank6), ss)
    ensures Tracks(c.cart.romPages, c.bank6, PagedAll(c.cart.romPages, pages, ss))
    ensures WindowsLead(c.windows, c.prgGroup[..], PagedAll(c.cart.romPages, pages, ss))
    decreases |ss|
  {
    assert |pages| == 5;
    hide Sound, PrgTable, PrgData, ChrTable, ChrData, WindowsLead, NonePrg, Tracks, Switched, Paged;
    if |ss| > 0 {
      SwitchOne(c, ss[0], pages);
      SwitchThrough(c, ss[1..], Paged(c.cart.romPages, pages, ss[0]));
    }
  }

  lemma RegistersArePages(romPages: nat, banks: seq<int>, pages: seq<nat>)
    requires 0 < romPages <= 128 && Tracks(romPages, banks, pages)
    ensures forall i :: 1 <= i < 5 ==> banks[i] == pages[i]
  {
  }

  // ------------------------------------------------------------------ restoring

  /** Each window leads to its page exactly if that is a page of the ROM below 255; a window whose
      register is 255 is left alone, and may have led there before. */
  ghost predicate ShowExactly(now: seq<Pointer>, was: seq<Pointer>, tags: seq<int>, cart: Cart, banks: seq<int>, pages: seq<nat>)
  {
    && |now| == |was| == |banks| == |pages| == 5 && cart.PrgPages() > 0
    && forall i :: 1 <= i < 5 ==>
      && 0 <= banks[i] < 256 && (if banks[i] < 255 then StillLeads(now[i], tags, cart, banks[i]) else now[i] == was[i])
      && (LeadsTo(now[i], tags, pages[i]) <==>
        (pages[i] < 255 && pages[i] < cart.PrgPages()) || (banks[i] == 255 && LeadsTo(was[i], tags, pages[i])))
  }

  /** A state file holds the registers that a run of switches left. After restoring, whatever was cached
      before, each window leads to the page it was switched to exactly as said above. And all is right,
      tile table included, exactly if none of those pages below 255 lies past the end of the ROM. */
  method RestoreSaved(c: Cache, from: seq<int>, ss: seq<Switch>, ghost pages: seq<nat>, prgOks: seq<bool>, chrOks: seq<bool>,
                      junk: seq<Byte>) returns (ret: int)
    requires c.PrgCoherent() && c.ChrCoherent() && 0 < c.cart.romPages && c.clock + 12 <= MAX_AGE && TileBanksFit(c)
    requires Tracks(c.cart.romPages, from, pages) && 0 <= from[0] < 256 && ForWindows(ss) && |prgOks| == 5 && |chrOks| == 8
    modifies c`clock, c`bank6, c`windows, c.prgGroup, c.prgAge, c.prgCache, c.instant, c.chrPage, c.chrAge, c.chrCache
    ensures c.bank6 == SwitchedAll(c.cart.romPages, from, ss)
    ensures (forall i :: 0 <= i < 5 ==> prgOks[i]) && (forall i :: 0 <= i < 8 ==> chrOks[i]) && old(c.TilesRight()) ==> ret == 0
    ensures ret == 0 && !Crowded(c.cart.romPages, c.bank6) ==>
      ShowExactly(c.windows, old(c.windows), c.prgGroup[..], c.cart, c.bank6, PagedAll(c.cart.romPages, pages, ss))
    ensures ret == 0 && old(c.TilesRight()) && NoticedAll(c.cart, chrOks, old(c.Tiles()), c.bank6, c.cbank0) ==>
      var p := PagedAll(c.cart.romPages, pages, ss);
      (c.TilesRight() && c.PrgAllShown() <==> forall i :: 1 <= i < 5 && p[i] < 255 ==> p[i] < c.cart.PrgPages())
  {
    assert |pages| == |from| == 5;
    ghost var r, p, windows := c.cart.romPages, PagedAll(c.cart.romPages, pages, ss), c.windows;
    var banks := SwitchedAll(c.cart.romPages, from, ss);
    SwitchingTracks(r, from, pages, ss);
    TrackedIsReached(r, banks, p);
    SwitchedBanksFitIff(c.cart, banks);
    assert forall i :: 0 <= i < 5 ==> 0 <= banks[i] < 256;
    hide Sound, PrgTable, PrgData, ChrTable, ChrData, LeadsTo, PrgMatches, Crowded, Reached, Tracks, SwitchedAll, PagedAll;
    hide Fits, NoneInTiles, NoticedAll, StillLeads, Rebanked, InTiles, NonePrg, Shows, ShowExactly;
    ret := RestoreRegisters(c, banks, prgOks, chrOks, junk);
    if ret == 0 && !Crowded(r, c.bank6) {
      WindowsLeadIff(c.windows, windows, c.instant[..], c.prgGroup[..], c.cart, c.bank6, p);
    }
    NoneInTilesIff(c.cart, c.bank6, p);
  }

  /** The registers of a state file, and restoring. */
  method RestoreRegisters(c: Cache, banks: seq<int>, prgOks: seq<bool>, chrOks: seq<bool>, junk: seq<Byte>) returns (ret: int)
    requires c.PrgCoherent() && c.ChrCoherent() && 0 < c.cart.romPages && c.clock + 12 <= MAX_AGE && TileBanksFit(c)
    requires |banks| == 5 && (forall i :: 0 <= i < 5 ==> 0 <= banks[i] < 256) && |prgOks| == 5 && |chrOks| == 8
    modifies c`clock, c`bank6, c`windows, c.prgGroup, c.prgAge, c.prgCache, c.instant, c.chrPage, c.chrAge, c.chrCache
    ensures c.bank6 == banks && c.cbank0 == old(c.cbank0)
    ensures (forall i :: 0 <= i < 5 ==> prgOks[i]) && (forall i :: 0 <= i < 8 ==> chrOks[i]) && old(c.TilesRight()) ==> ret == 0
    ensures ret == 0 ==> c.Shaped() && c.PrgCoherent() && c.windows == Rebanked(old(c.windows), c.instant[..], banks)
    ensures ret == 0 && Fits(c.cart, banks) ==>
      forall i :: 1 <= i < 5 && banks[i] < 255 ==> StillLeads(c.instant[banks[i]], c.prgGroup[..], c.cart, banks[i])
    ensures ret == 0 && c.TilesRight() && c.PrgAllShown() ==> NoneInTiles(c.cart, banks)
    ensures ret == 0 && Fits(c.cart, banks) && old(c.TilesRight()) && NoticedAll(c.cart, chrOks, old(c.Tiles()), banks, c.cbank0) ==>
      (NoneInTiles(c.cart, banks) ==> c.TilesRight() && c.PrgAllShown())
    ensures ret == 0 && c.cart.ChrPages() == 0 && old(c.TilesRight()) ==>
      forall a :: 0 <= a < 8 ==> (c.ChrShown(a) <==> !PastRegister(c.cart, banks, a, 5))
    ensures ret == 0 ==> c.PrgLru().tags == FetchAll(old(c.PrgLru()), ActiveGroups(banks), WantedGroups(c.cart, banks, 5)).tags
  {
    hide Sound, PrgTable, PrgData, ChrTable, ChrData, LeadsTo, PrgMatches, FetchAll, ActiveGroups, WantedGroups, Shows, TileShows;
    hide Fits, NoneInTiles, NoticedAll, StillLeads, Rebanked, InTiles, NonePrg, PastRegister, Spared;
    c.bank6 := banks;
    ret := c.RestoreCacheMap(prgOks, chrOks, junk);
  }

  lemma WindowsLeadIff(now: seq<Pointer>, was: seq<Pointer>, instant: seq<Pointer>, tags: seq<int>, cart: Cart,
                       banks: seq<int>, pages: seq<nat>)
    requires 0 < cart.romPages <= 255 && Tracks(cart.romPages, banks, pages) && |was| == 5 && |instant| == TABLE
    requires 0 <= banks[0] < 256 && now == Rebanked(was, instant, banks)
    requires forall i :: 1 <= i < 5 && banks[i] < 255 ==> StillLeads(instant[banks[i]], tags, cart, banks[i])
    ensures ShowExactly(now, was, tags, cart, banks, pages)
  {
    hide TracksPage, StillLeads, LeadsTo;
    forall i | 1 <= i < 5
      ensures LeadsTo(now[i], tags, pages[i]) <==>
        (pages[i] < 255 && pages[i] < cart.PrgPages()) || (banks[i] == 255 && LeadsTo(was[i], tags, pages[i]))
    {
      WindowLeadsIff(now[i], was[i], tags, cart, banks, pages, i);
    }
  }

  /** A window that was mapped again through its register. */
  lemma WindowLeadsIff(now: Pointer, was: Pointer, tags: seq<int>, cart: Cart, banks: seq<int>, pages: seq<nat>, i: nat)
    requires 0 < cart.romPages <= 255 && Tracks(cart.romPages, banks, pages) && 1 <= i < 5
    requires if banks[i] < 255 then StillLeads(now, tags, cart, banks[i]) else now == was
    ensures LeadsTo(now, tags, pages[i]) <==>
      (pages[i] < 255 && pages[i] < cart.PrgPages()) || (banks[i] == 255 && LeadsTo(was, tags, pages[i]))
  {
    if banks[i] < 255 && banks[i] >= cart.PrgPages() {
      var j := banks[i] - cart.PrgPages();
      PastWraps(banks[i], cart.PrgPages(), j);
    }
  }

  lemma PastWraps(bank: nat, pages: nat, j: nat)
    requires pages >= 2 && bank == pages + j && j < 2
    ensures Wrap(bank, pages) == j
  {
    QuotientIs(bank, pages, 1, j);
  }

  lemma NoneInTilesIff(cart: Cart, banks: seq<int>, pages: seq<nat>)
    requires 0 < cart.romPages <= 255 && Tracks(cart.romPages, banks, pages) && cart.Valid()
    ensures NoneInTiles(cart, banks) <==> forall i :: 1 <= i < 5 && pages[i] < 255 ==> pages[i] < cart.PrgPages()
    ensures NoneInTiles(cart, banks) ==> !Crowded(cart.romPages, banks)
  {
    forall i | 1 <= i < 5 ensures banks[i] < 255 && InTiles(cart, banks[i]) <==> pages[i] < 255 && pages[i] >= cart.PrgPages() {
    }
  }
}
