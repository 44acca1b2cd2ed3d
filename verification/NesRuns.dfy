/**
 Runs of the NES program cache in which the code does not do what it is for: registers from a state
 file that bank switching cannot produce, pages that the registers or the table cannot hold, an entry
 that goes stale, and a read that failed.
 */
module NesRuns {
  import opened NesBanks
  import opened NesCache
  import opened NesLru
  import opened NesSession
  import opened NesTables

  // ------------------------------------------------------------------ single lookups

  lemma FetchHit(l: Lru, active: set<int>, i: nat)
    requires i < |l.tags| == |l.ages| && forall j :: 0 <= j < i ==> l.tags[j] != l.tags[i]
    ensures Fetch(l, active, l.tags[i]) == Lru(l.tags, l.ages[i := l.clock + 1], l.clock + 1)
  {
    assert l.tags[i := l.tags[i]] == l.tags;
  }

  lemma FetchMiss(l: Lru, active: set<int>, tag: int, v: nat)
    requires v < |l.tags| == |l.ages| && tag !in l.tags && INVALID !in l.tags
    requires l.tags[v] !in active && l.ages[v] < MAX_AGE
    requires forall j :: 0 <= j < |l.tags| && j != v && l.tags[j] !in active ==> l.ages[v] < l.ages[j]
    ensures Fetch(l, active, tag) == Lru(l.tags[v := tag], l.ages[v := l.clock + 1], l.clock + 1)
  {
    assert Oldest(l, active, |l.tags|) == v;
  }

  lemma FetchTwo(l: Lru, active: set<int>, a: int, rest: seq<int>)
    requires 0 < |l.tags| == |l.ages|
    ensures FetchAll(l, active, [a] + rest) == FetchAll(Fetch(l, active, a), active, rest)
    decreases |rest|
  {
    hide Fetch;
    if |rest| == 0 {
      assert [a] + rest == [a] && [a][..0] == [];
      assert FetchAll(l, active, []) == l;
    } else {
      var k := |rest| - 1;
      FetchTwo(l, active, a, rest[..k]);
      assert ([a] + rest)[..|[a] + rest| - 1] == [a] + rest[..k];
    }
  }

  // ------------------------------------------------------------------ a foreign state file

  /** The first 16 KB page in the lower windows, right after start-up. */
  method MapFirst(c: Cache)
    requires c.PrgCoherent() && c.TilesRight() && c.cart.romPages == 11 && c.clock <= 21
    requires c.prgGroup[..] == [0, 1, 2, 3] && c.prgAge[..] == [1, 2, 3, 4]
    modifies c`clock, c`bank6, c`windows, c.prgGroup, c.prgAge, c.prgCache, c.instant
    ensures c.PrgCoherent() && c.TilesRight() && c.clock == old(c.clock) + 1 && c.bank6 == old(c.bank6)[1 := 0][2 := 1]
    ensures c.prgGroup[..] == [0, 1, 2, 3] && c.prgAge[..] == [old(c.clock) + 1, 2, 3, 4]
  {
    hide Sound, PrgTable, PrgData, ChrTable, ChrData, Fetch, Choose, Reached, PrgMatches, Masked, ActiveGroups;
    DefaultPages();
    ghost var l := c.PrgLru();
    var r := c.MapPrg(Low(0), true, []);
    FetchHit(l, ActiveGroups(c.bank6), 0);
  }

  /** The last 16 KB page in the upper windows: its group takes the oldest slot that is not mapped. */
  method MapLast(c: Cache)
    requires c.PrgCoherent() && c.TilesRight() && c.cart.romPages == 11 && 4 <= c.clock <= 22
    requires c.bank6[1] == 0 && c.bank6[2] == 1 && c.prgGroup[..] == [0, 1, 2, 3] && c.prgAge[..] == [c.clock, 2, 3, 4]
    modifies c`clock, c`bank6, c`windows, c.prgGroup, c.prgAge, c.prgCache, c.instant
    ensures c.PrgCoherent() && c.TilesRight() && c.clock <= 23 && c.bank6 == old(c.bank6)[3 := 20][4 := 21]
    ensures c.prgGroup[..] == [0, 5, 2, 3]
  {
    hide Sound, PrgTable, PrgData, ChrTable, ChrData, Fetch, Choose, Reached, PrgMatches, Masked;
    DefaultPages();
    ghost var l := c.PrgLru();
    var r := c.MapPrg(High(0xFFFF_FFFF), true, []);
    FetchMiss(l, ActiveGroups(c.bank6), 5, 1);
  }

  /** The registers at power-on: the first and the last 16 KB page. */
  method PowerOn(c: Cache)
    requires c.Shaped() && c.cart.romPages == 11
    modifies c`clock, c`bank6, c`windows, c.prgGroup, c.prgAge, c.prgCache, c.chrPage, c.chrAge, c.chrCache, c.instant
    ensures c.PrgCoherent() && c.TilesRight() && c.clock <= 23
    ensures c.prgGroup[..] == [0, 5, 2, 3] && c.bank6[1..] == [0, 1, 20, 21]
  {
    hide Sound, PrgTable, PrgData, ChrTable, ChrData, RamsMapped;
    c.CacheInit();
    ClockIsAhead(c.PrgLru(), PRG_CACHE_GROUPS, c.cart.PrgGroups(), 3);
    MapFirst(c);
    MapLast(c);
  }

  lemma ClockIsAhead(l: Lru, n: nat, limit: nat, i: nat)
    requires Sound(l, n, limit) && i < n
    ensures |l.ages| == n && l.ages[i] <= l.clock
  {
  }

  lemma DefaultPages()
    ensures Masked(0, 10) == 0 && Masked(0xFFFF_FFFF, 10) == 10
  {
    assert Masked(0x1FFF_FFFF, 1) == 1;
    assert Masked(0x3FFF_FFFF, 2) == 2;
    assert Masked(0x7FFF_FFFF, 5) == 5;
  }

  /** The lookups that restoring banks 22, 4, 8 and 12 makes: group 0 is found, and then its slot is
      the only one that the registers do not protect. */
  lemma ForeignLookups(l: Lru)
    requires l.tags == [0, 5, 2, 3] && |l.ages| == 4 && l.clock + 4 < MAX_AGE
    ensures FetchAll(l, {5, 1, 2, 3}, [0, 1, 2, 3]).tags == [1, 5, 2, 3]
  {
    hide Fetch, FetchAll;
    var active := {5, 1, 2, 3};
    FetchHit(l, active, 0);
    var l1 := Fetch(l, active, 0);
    FetchMiss(l1, active, 1, 0);
    var l2 := Fetch(l1, active, 1);
    FetchHit(l2, active, 2);
    var l3 := Fetch(l2, active, 2);
    FetchHit(l3, active, 3);
    FetchTwo(l, active, 0, [1, 2, 3]);
    FetchTwo(l1, active, 1, [2, 3]);
    FetchTwo(l2, active, 2, [3]);
    FetchTwo(l3, active, 3, []);
    FetchNone(Fetch(l3, active, 3), active);
    assert [0] + [1, 2, 3] == [0, 1, 2, 3] && [1] + [2, 3] == [1, 2, 3] && [2] + [3] == [2, 3] && [3] + [] == [3];
  }

  lemma ForeignBanks(cart: Cart, banks: seq<int>)
    requires cart.romPages == 11 && |banks| == 5 && banks[1..] == [22, 4, 8, 12] && 0 <= banks[0] < 256
    ensures ActiveGroups(banks) == {5, 1, 2, 3}
    ensures forall i :: 0 <= i < 5 ==> 0 <= banks[i] < 256
    ensures cart.PrgPages() > 0 && WantedGroups(cart, banks, 5) == [0, 1, 2, 3]
  {
    assert banks[1] == banks[1..][0] && banks[2] == banks[1..][1] && banks[3] == banks[1..][2] && banks[4] == banks[1..][3];
    assert WantedGroups(cart, banks, 2) == [0];
    assert WantedGroups(cart, banks, 3) == [0, 1];
    assert WantedGroups(cart, banks, 4) == [0, 1, 2];
  }

  /** Bank 22 wraps to group 0 but protects group 5, so there are five groups for four slots. */
  lemma WrappedBankProtectsWrongGroup(cart: Cart, banks: seq<int>)
    requires cart.romPages == 11 && |banks| == 5 && banks[1..] == [22, 4, 8, 12] && 0 <= banks[0] < 256
    ensures cart.PrgPages() > 0 && (forall i :: 0 <= i < 5 ==> 0 <= banks[i] < 256)
    ensures !Enough(ActiveGroups(banks), WantedGroups(cart, banks, 5), PRG_CACHE_GROUPS, cart.PrgGroups())
  {
    ForeignBanks(cart, banks);
    var active, wanted, limit: nat := ActiveGroups(banks), WantedGroups(cart, banks, 5), cart.PrgGroups();
    assert limit == 6;
    hide *;
    FiveForFour(active, wanted, PRG_CACHE_GROUPS, limit);
  }

  lemma FiveForFour(active: set<int>, wanted: seq<int>, n: nat, limit: nat)
    requires active == {5, 1, 2, 3} && wanted == [0, 1, 2, 3] && n == PRG_CACHE_GROUPS && limit == 6
    ensures !Enough(active, wanted, n, limit)
  {
    hide Enough;
    TooManyInPlay(active, wanted, n, limit, [0, 1, 2, 3, 5]);
  }

  /** A state file for a ROM of 11 pages names the banks 22, 4, 8 and 12, and is loaded after power-on.
      Restoring, tiles and all, reports success, but bank 22, which wraps to page 0, does not show its
      bytes: its entry, which is tile entry 0, leads to other ones or to a tile. */
  method RestoreForeignState(c: Cache) returns (ret: int)
    requires c.Shaped() && c.cart.romPages == 11 && TileBanksFit(c)
    requires forall g :: g in {1, 2, 3, 5} ==> c.cart.Group(g) != c.cart.Group(0)
    modifies c`clock, c`bank6, c`windows, c.prgGroup, c.prgAge, c.prgCache, c.chrPage, c.chrAge, c.chrCache, c.instant
    ensures ret == 0 && c.Shaped() && c.PrgCoherent() && c.bank6[1..] == [22, 4, 8, 12]
    ensures c.prgGroup[..] == [1, 5, 2, 3] && !c.PrgShown(22)
  {
    hide Sound, PrgTable, ChrTable, ChrData, FetchAll, WantedGroups, ActiveGroups, PrgMatches, Reached, Crowded, Cart.Group;
    hide Shows, PrgData, StillLeads, Rebanked, Fits, NoneInTiles, NoticedAll, PastRegister, NonePrg, RamsMapped;
    PowerOn(c);
    ghost var l := c.PrgLru();
    var banks := [c.bank6[0], 22, 4, 8, 12];
    ret := RestoreRegisters(c, banks, AllFive(), AllEight(), []);
    ForeignBanks(c.cart, banks);
    ForeignLookups(l);
    OtherGroups(c.instant[22], c.prgCache[..], c.prgGroup[..], c.cart);
  }

  /** Every read succeeds. */
  function AllFive(): (oks: seq<bool>)
    ensures |oks| == 5 && forall i :: 0 <= i < 5 ==> oks[i]
  {
    [true, true, true, true, true]
  }

  function AllEight(): (oks: seq<bool>)
    ensures |oks| == 8 && forall i :: 0 <= i < 8 ==> oks[i]
  {
    [true, true, true, true, true, true, true, true]
  }

  lemma OtherGroups(e: Pointer, data: seq<seq<Byte>>, tags: seq<int>, cart: Cart)
    requires cart.romPages == 11 && PrgData(data, tags, cart) && tags == [1, 5, 2, 3]
    requires forall g :: g in {1, 2, 3, 5} ==> cart.Group(g) != cart.Group(0)
    ensures !Shows(e, data, cart, 22)
  {
    hide Cart.Group;
  }

  // ------------------------------------------------------------------ pages that do not fit

  /** On a ROM of 15 pages the last 32 KB page is mapped, and that state is restored. Restoring reports
      success, but its entries 30 and 31 are the tile entries 0 and 1: either the program
      windows or the tile table are wrong. Without tile ROM tile window 0 shows program bytes. */
  method RestoreLastPage(c: Cache) returns (ret: int)
    requires c.Shaped() && c.cart.romPages == 15 && TileBanksFit(c)
    modifies c`clock, c`bank6, c`windows, c.prgGroup, c.prgAge, c.prgCache, c.chrPage, c.chrAge, c.chrCache, c.instant
    ensures ret == 0 && c.Shaped() && c.bank6[1..] == [28, 29, 30, 31] && !(c.TilesRight() && c.PrgAllShown())
    ensures c.cart.ChrPages() == 0 ==> !c.ChrShown(0) && !c.ChrShown(1)
  {
    hide Sound, PrgTable, PrgData, ChrTable, ChrData, LeadsTo, PrgMatches, FetchAll, ActiveGroups, WantedGroups, Shows, TileShows;
    hide Fits, StillLeads, Rebanked, NonePrg, RamsMapped, Masked, Crowded, Switched, WindowsSet, Cache.EnsuredPrg, Reached, SetPage;
    hide Tracks, Cart.ChrPages, TracksPage;
    StartUp(c);
    ghost var was := c.bank6;
    LastBanks(was);
    TrackedIsReached(15, was, FirstPages(15));
    var e := c.MapPrg(All(7), true, []);
    AllIsNotCrowded(15, was, 7);
    SwitchedBanksFitIff(c.cart, c.bank6);
    LastIsInTiles(c.cart, c.bank6);
    ret := RestoreRegisters(c, c.bank6, AllFive(), AllEight(), []);
  }

  lemma LastBanks(banks: seq<int>)
    requires |banks| == 5
    ensures Switched(15, banks, All(7)) == [banks[0], 28, 29, 30, 31]
  {
    SmallPages();
    hide Masked;
  }

  lemma LastIsInTiles(cart: Cart, banks: seq<int>)
    requires cart.Valid() && cart.romPages == 15 && |banks| == 5 && banks[1..] == [28, 29, 30, 31]
    ensures !NoneInTiles(cart, banks) && PastRegister(cart, banks, 0, 5) && PastRegister(cart, banks, 1, 5)
    ensures forall tiles, cbank | |cbank| == 8 && forall i :: 0 <= i < 8 ==> 0 <= cbank[i] < |tiles| ::
      NoticedAll(cart, AllEight(), tiles, banks, cbank)
  {
    assert banks[3] == banks[1..][2] && banks[4] == banks[1..][3];
  }

  /** On a ROM of 128 pages the windows show pages 4, 8, 12 and 100, and a state file is loaded that was
      saved with page 255 in the last window. Restoring reports success and leaves that window alone. */
  method RestorePage255(c: Cache) returns (ret: int)
    requires c.Shaped() && c.cart.romPages == 128 && TileBanksFit(c)
    modifies c`clock, c`bank6, c`windows, c.prgGroup, c.prgAge, c.prgCache, c.chrPage, c.chrAge, c.chrCache, c.instant
    ensures ret == 0 && c.Shaped() && c.bank6[1..] == [4, 8, 12, 255] && !Crowded(128, c.bank6)
    ensures c.windows[4].Prg? && c.windows[4].part == 0 && !LeadsTo(c.windows[4], c.prgGroup[..], 255)
  {
    hide Sound, PrgTable, PrgData, ChrTable, ChrData, NonePrg, Masked, Crowded, Reached;
    hide Tracks, SwitchedAll, PagedAll, NoticedAll;
    StartUp(c);
    ghost var pages := FirstPages(128);
    var from := c.bank6;
    var here, saved := EachWindow(100), EachWindow(255);
    EachWindowSet(from, pages, 100);
    EachWindowSet(from, pages, 255);
    NeverPast(128, [from[0], 4, 8, 12, 255]);
    SwitchThrough(c, here, pages);
    assert LeadsTo(c.windows[4], c.prgGroup[..], 100);
    ghost var window := c.windows[4];
    ret := RestoreSaved(c, from, saved, pages, AllFive(), AllEight(), []);
  }

  function EachWindow(page: nat): (ss: seq<Switch>) {
    [Bank(1, 4), Bank(2, 8), Bank(3, 12), Bank(4, page)]
  }

  lemma EachWindowSet(banks: seq<int>, pages: seq<nat>, page: nat)
    requires |banks| == |pages| == 5 && page < 256
    ensures ForWindows(EachWindow(page))
    ensures SwitchedAll(128, banks, EachWindow(page)) == [banks[0], 4, 8, 12, page]
    ensures PagedAll(128, pages, EachWindow(page)) == [pages[0], 4, 8, 12, page]
  {
    hide SwitchedAll, PagedAll;
    RegistersSet(banks, page);
    PagesSet(pages, page);
  }

  lemma RegistersSet(banks: seq<int>, page: nat)
    requires |banks| == 5 && page < 256
    ensures SwitchedAll(128, banks, EachWindow(page)) == [banks[0], 4, 8, 12, page]
  {
    hide SwitchedAll, Switched, Paged;
    FourSwitches(128, banks, EachWindow(page));
    var b1 := banks[1 := 4];
    var b2 := b1[2 := 8];
    var b3 := b2[3 := 12];
    OneSet(banks, [0, 0, 0, 0, 0], 1, 4);
    OneSet(b1, [0, 0, 0, 0, 0], 2, 8);
    OneSet(b2, [0, 0, 0, 0, 0], 3, 12);
    OneSet(b3, [0, 0, 0, 0, 0], 4, page);
    assert b3[4 := page] == [banks[0], 4, 8, 12, page];
  }

  lemma PagesSet(pages: seq<nat>, page: nat)
    requires |pages| == 5 && page < 256
    ensures PagedAll(128, pages, EachWindow(page)) == [pages[0], 4, 8, 12, page]
  {
    hide PagedAll, Switched, Paged;
    FourPaged(128, pages, EachWindow(page));
    var p1 := pages[1 := 4];
    var p2 := p1[2 := 8];
    var p3 := p2[3 := 12];
    OneSet([0, 0, 0, 0, 0], pages, 1, 4);
    OneSet([0, 0, 0, 0, 0], p1, 2, 8);
    OneSet([0, 0, 0, 0, 0], p2, 3, 12);
    OneSet([0, 0, 0, 0, 0], p3, 4, page);
    assert p3[4 := page] == [pages[0], 4, 8, 12, page];
  }

  lemma OneSet(banks: seq<int>, pages: seq<nat>, i: nat, page: nat)
    requires |banks| == |pages| == 5 && 1 <= i <= 4 && page < 256
    ensures Switched(128, banks, Bank(i, page)) == banks[i := page] && Paged(128, pages, Bank(i, page)) == pages[i := page]
  {
    hide Masked;
    EightBits(page);
  }

  lemma FourPaged(romPages: nat, pages: seq<nat>, ss: seq<Switch>)
    requires romPages > 0 && |pages| == 5 && |ss| == 4
    ensures PagedAll(romPages, pages, ss) ==
      Paged(romPages, Paged(romPages, Paged(romPages, Paged(romPages, pages, ss[0]), ss[1]), ss[2]), ss[3])
  {
    hide Paged;
    var p1 := Paged(romPages, pages, ss[0]);
    var p2 := Paged(romPages, p1, ss[1]);
    var p3 := Paged(romPages, p2, ss[2]);
    assert ss[1..][1..] == ss[2..] && ss[2..][1..] == ss[3..] && ss[3..][1..] == [];
    assert PagedAll(romPages, p3, ss[3..]) == Paged(romPages, p3, ss[3]);
    assert PagedAll(romPages, p2, ss[2..]) == PagedAll(romPages, p3, ss[3..]);
    assert PagedAll(romPages, p1, ss[1..]) == PagedAll(romPages, p2, ss[2..]);
  }

  predicate AllOnes(mask: nat) {
    mask == 0 || (mask % 2 == 1 && AllOnes(mask / 2))
  }

  lemma {:induction false} FullMask(x: nat, mask: nat)
    requires AllOnes(mask) && x <= mask
    ensures Masked(x, mask) == x
  {
    if x > 0 {
      FullMask(x / 2, mask / 2);
    }
  }

  lemma EightBits(x: nat)
    requires x < 256
    ensures Masked(x, 255) == x
  {
    assert AllOnes(15) && AllOnes(255);
    FullMask(x, 255);
  }

  lemma NeverPast(romPages: nat, banks: seq<int>)
    requires romPages % 2 == 0 && |banks| == 5
    ensures !Crowded(romPages, banks)
  {
  }

  /** On a ROM of 160 pages page 256 is in the last window, and that state is restored. Its register holds
      0, so the window shows page 0 afterwards. */
  method RestorePage256(c: Cache, from: seq<int>, ghost pages: seq<nat>) returns (ret: int)
    requires c.PrgCoherent() && c.TilesRight() && c.cart.romPages == 160 && c.clock + 12 <= MAX_AGE && TileBanksFit(c)
    requires Tracks(160, from, pages) && 0 <= from[0] < 256
    modifies c`clock, c`bank6, c`windows, c.prgGroup, c.prgAge, c.prgCache, c.instant, c.chrPage, c.chrAge, c.chrCache
    ensures ret == 0 && c.Shaped() && c.bank6[4] == 0 && PagedAll(160, pages, [Bank(4, 256)])[4] == 256
    ensures LeadsTo(c.windows[4], c.prgGroup[..], 0) && !LeadsTo(c.windows[4], c.prgGroup[..], 256)
  {
    hide Sound, PrgTable, PrgData, ChrTable, ChrData, PrgMatches, NonePrg, Masked, Crowded, Reached;
    hide Tracks, SwitchedAll, PagedAll, NoticedAll, LeadsTo;
    LastWindowSet(from, pages);
    NeverPast(160, SwitchedAll(160, from, [Bank(4, 256)]));
    ret := RestoreSaved(c, from, [Bank(4, 256)], pages, AllFive(), AllEight(), []);
  }

  lemma LastWindowSet(banks: seq<int>, pages: seq<nat>)
    requires Tracks(160, banks, pages)
    ensures |banks| == |pages| == 5 && ForWindows([Bank(4, 256)])
    ensures SwitchedAll(160, banks, [Bank(4, 256)])[4] == 0 && PagedAll(160, pages, [Bank(4, 256)])[4] == 256
  {
    BitEight();
    hide Masked;
    var ss := [Bank(4, 256)];
    assert ss[1..] == [];
    assert SwitchedAll(160, banks, ss) == Switched(160, banks, ss[0]);
    assert PagedAll(160, pages, ss) == Paged(160, pages, ss[0]);
  }

  lemma BitEight()
    ensures Masked(256, 319) == 256
  {
    assert Masked(2, 2) == 2;
    assert Masked(8, 9) == 8;
    assert Masked(32, 39) == 32;
    assert Masked(128, 159) == 128;
  }


  /** The same registers, one lookup after the other: the entry for bank 22 is set to the first part of
      slot 0, and is still so when slot 0 has become another group's. */
  method EntryGoesStale(c: Cache)
    requires c.Shaped() && c.cart.romPages == 11
    modifies c`clock, c`bank6, c`windows, c.prgGroup, c.prgAge, c.prgCache, c.chrPage, c.chrAge, c.chrCache, c.instant
    ensures c.PrgCoherent() && c.bank6[1..] == [22, 4, 8, 12]
    ensures c.instant[22] == Prg(0, 0) && c.prgGroup[0] == 1 && c.prgCache[0] == c.cart.Group(1)
  {
    hide Sound, PrgTable, ChrTable, ChrData, PrgData, Cart.Group, ActiveGroups;
    PowerOn(c);
    c.bank6 := [c.bank6[0], 22, 4, 8, 12];
    ForeignBanks(c.cart, c.bank6);
    SetEntry(c);
    TakeSlot(c);
    SlotHolds(c.prgCache[..], c.prgGroup[..], c.cart, 0);
  }

  method SetEntry(c: Cache)
    requires c.PrgCoherent() && c.cart.romPages == 11 && c.clock <= 23 && ActiveGroups(c.bank6) == {5, 1, 2, 3}
    requires c.prgGroup[..] == [0, 5, 2, 3]
    modifies c`clock, c.prgGroup, c.prgAge, c.prgCache, c.instant
    ensures c.PrgCoherent() && c.clock <= 24 && c.prgGroup[..] == [0, 5, 2, 3] && c.instant[22] == Prg(0, 0)
  {
    hide Sound, PrgTable, ChrTable, ChrData, PrgData, Fetch, Choose, ActiveGroups;
    ghost var l := c.PrgLru();
    var r := c.EnsurePrg(22, true, []);
    FetchHit(l, ActiveGroups(c.bank6), 0);
  }

  method TakeSlot(c: Cache)
    requires c.PrgCoherent() && c.cart.romPages == 11 && c.clock <= 24 && ActiveGroups(c.bank6) == {5, 1, 2, 3}
    requires c.prgGroup[..] == [0, 5, 2, 3] && c.instant[22] == Prg(0, 0)
    modifies c`clock, c.prgGroup, c.prgAge, c.prgCache, c.instant
    ensures c.PrgCoherent() && c.prgGroup[..] == [1, 5, 2, 3] && c.instant[22] == Prg(0, 0)
  {
    hide Sound, PrgTable, ChrTable, ChrData, PrgData, Fetch, Choose, ActiveGroups, PrgMatches;
    ghost var l := c.PrgLru();
    AgesAreSmall(l, PRG_CACHE_GROUPS, c.cart.PrgGroups());
    var r := c.EnsurePrg(4, true, []);
    FetchMiss(l, ActiveGroups(c.bank6), 1, 0);
  }

  lemma AgesAreSmall(l: Lru, n: nat, limit: nat)
    requires Sound(l, n, limit)
    ensures |l.ages| == n && forall i :: 0 <= i < n ==> l.ages[i] <= l.clock
  {
  }

  lemma SlotHolds(data: seq<seq<Byte>>, tags: seq<int>, cart: Cart, slot: nat)
    requires PrgData(data, tags, cart) && slot < |tags| && tags[slot] != INVALID
    ensures |data| == |tags| && tags[slot] >= 0 && data[slot] == cart.Group(tags[slot])
  {
  }

  // ------------------------------------------------------------------ after a failed read

  /** A read fails and the slot keeps its tag. The next lookup for the group it used to hold is then a
      hit, and returns what the failed read left there; the group's entries stay clear. */
  method LookAfterFailedRead(c: Cache, page: nat, junk: seq<Byte>, victim: nat) returns (first: Pointer, second: Pointer)
    requires c.PrgCoherent() && page < c.cart.PrgPages() && page / 4 !in c.prgGroup[..] && c.clock + 1 < MAX_AGE
    requires victim == Choose(c.PrgLru(), ActiveGroups(c.bank6)) && c.prgGroup[victim] != INVALID
    modifies c`clock, c.prgGroup, c.prgAge, c.prgCache, c.instant
    ensures c.prgGroup[..] == old(c.prgGroup[..]) && first == NoPage && second == Prg(victim, 0)
    ensures c.prgCache[victim] == junk && c.instant[4 * c.prgGroup[victim]] == NoPage && !c.PrgCoherent()
  {
    hide Sound, PrgTable, PrgData, ChrTable, ChrData, Choose, ActiveGroups, Fetch;
    ghost var l := c.PrgLru();
    SoundFacts(l, PRG_CACHE_GROUPS, c.cart.PrgGroups());
    first := c.EnsureRomPage(page, false, junk);
    var q: nat := 4 * c.prgGroup[victim];
    SoundFacts(c.PrgLru(), PRG_CACHE_GROUPS, c.cart.PrgGroups());
    assert c.instant[q] == NoPage;
    ghost var l1 := c.PrgLru();
    second := c.EnsureRomPage(q, true, []);
    FetchHit(l1, ActiveGroups(c.bank6), victim);
  }
}
