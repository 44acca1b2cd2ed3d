/**
 The tables behind the NES bank caches: what a cartridge and an entry are, when slots and tables agree
 with the ROM, and what looking up, restoring and bank switching do to them. The caches themselves
 are in NesCache.
 */
module NesTables {
  import opened Arith
  import opened Collections
  import opened NesBanks
  import opened NesLru

  type Byte = b: int | 0 <= b < 256

  const PRG_GROUP_BYTES := 32768
  const PRG_PAGE_BYTES := 8192
  const PRG_GROUP_PAGES := 4
  const PRG_CACHE_GROUPS := 4
  const CHR_PAGE_BYTES := 1024
  const CHR_CACHE_PAGES_MIN := 9
  const CHR_CACHE_PAGES_MAX := 17
  const TQROM := 119
  /** Room for the largest tables, and for what is stored past their end. */
  const TABLE := 2560

  /** An entry: nothing, a part of a program slot, a tile slot, or a page of work memory. */
  datatype Pointer = NoPage | Prg(slot: int, part: int) | Chr(slot: int) | Ram(page: int)

  /** A cartridge: its ROMs, and the page counts of its header (tile pages rounded up). */
  datatype Cart = Cart(prg: seq<Byte>, chr: seq<Byte>, romPages: nat, vromPages: nat, mapper: nat) {

    ghost predicate Valid() {
      && |prg| == romPages * 16384 && romPages <= 255
      && |chr| % CHR_PAGE_BYTES == 0 && ChrPages() <= 8 * vromPages <= 1024 && (ChrPages() == 0 ==> vromPages == 0)
    }

    function PrgPages(): nat { romPages * 2 }

    function PrgGroups(): nat { (PrgPages() + 3) / 4 }

    function ChrPages(): nat { |chr| / CHR_PAGE_BYTES }

    function TablePages(): nat { if mapper == TQROM then vromPages * 16 else vromPages * 8 }

    /** The tile entries that were allocated: without tile ROM there are eight, for work memory. */
    function TileEntries(): nat { if vromPages == 0 then 8 else TablePages() }

    /** The work memory page that a tile page number stands for, or -1. */
    function RamPage(page: nat): int {
      var base := if romPages == 32 then 8 else 0;
      if mapper == 74 && base <= page < base + 2 then page - base
      else if mapper == TQROM && 64 <= page < 128 then page % 8
      else -1
    }

    /** Group g of the program ROM, padded with 0xFF. */
    function Group(g: nat): (b: seq<Byte>)
      ensures |b| == PRG_GROUP_BYTES
    {
      seq<Byte>(PRG_GROUP_BYTES, k requires 0 <= k < PRG_GROUP_BYTES =>
        if g * PRG_GROUP_BYTES + k < |prg| then prg[g * PRG_GROUP_BYTES + k] else 255)
    }

    function Page(p: nat): (b: seq<Byte>)
      ensures |b| == CHR_PAGE_BYTES
    {
      seq<Byte>(CHR_PAGE_BYTES, k requires 0 <= k < CHR_PAGE_BYTES =>
        if p * CHR_PAGE_BYTES + k < |chr| then chr[p * CHR_PAGE_BYTES + k] else 255)
    }
  }

  /** x % n, by a name that proofs can hide. */
  function Wrap(x: nat, n: nat): (r: nat)
    requires n > 0
    ensures r < n
  {
    x % n
  }

  // ------------------------------------------------------------------ meaning

  /** The program groups of the mapped banks, as the replacement sees them. */
  ghost function ActiveGroups(bank6: seq<int>): set<int>
    requires |bank6| == 5
  {
    {bank6[1] / 4, bank6[2] / 4, bank6[3] / 4, bank6[4] / 4}
  }

  ghost predicate ActiveBank(cart: Cart, bank: int)
  {
    bank >= 0 && cart.ChrPages() > 0 && cart.RamPage(bank) == -1 && bank < cart.vromPages * 8
  }

  /** A tile bank inside the table that is no work memory and wraps to a page of the tile ROM. */
  predicate StandsFor(cart: Cart, bank: int, page: int) {
    0 <= bank < 8 * cart.vromPages && cart.RamPage(bank) == -1 && |cart.chr| >= 1024 && bank % (|cart.chr| / 1024) == page
  }

  ghost function ActivePages(cart: Cart, cbank: seq<int>): set<int> {
    set i | 0 <= i < |cbank| && ActiveBank(cart, cbank[i]) :: Wrap(cbank[i], cart.ChrPages())
  }

  /** The entry for program page p leads to its part of the slot of its group, or the group is out. */
  ghost predicate PrgMatches(e: Pointer, tags: seq<int>, p: nat) {
    match e
    case NoPage => p / 4 !in tags
    case Prg(s, part) => 0 <= s < |tags| && tags[s] == p / 4 && part == p % 4
    case _ => false
  }

  ghost predicate PrgTable(instant: seq<Pointer>, tags: seq<int>, pages: nat) {
    pages <= |instant| && forall p :: 0 <= p < pages ==> PrgMatches(instant[p], tags, p)
  }

  /** A tile entry that is a tile pointer is the right one. A program lookup may have overwritten it. */
  ghost predicate ChrMatches(e: Pointer, tags: seq<int>, cart: Cart, a: nat)
    requires cart.ChrPages() > 0
  {
    match e
    case Prg(_, _) => true
    case NoPage => cart.RamPage(a) != -1 || Wrap(a, cart.ChrPages()) !in tags
    case Chr(s) => cart.RamPage(a) == -1 && 0 <= s < |tags| && tags[s] == Wrap(a, cart.ChrPages())
    case Ram(r) => cart.RamPage(a) == r && r != -1
  }

  ghost predicate ChrTable(instant: seq<Pointer>, tags: seq<int>, cart: Cart) {
    && cart.TablePages() <= |instant|
    && (cart.ChrPages() > 0 ==> forall a :: 0 <= a < cart.TablePages() ==> ChrMatches(instant[a], tags, cart, a))
  }

  /** An entry, or a window, leads to a page. */
  ghost predicate LeadsTo(e: Pointer, tags: seq<int>, page: nat) {
    e.Prg? && PrgMatches(e, tags, page)
  }

  /** No entry below n is a program pointer. */
  ghost predicate NonePrg(tiles: seq<Pointer>, n: nat) {
    n <= |tiles| && forall a :: 0 <= a < n ==> !tiles[a].Prg?
  }

  /** A bank whose entry lies among the tile entries. */
  predicate InTiles(cart: Cart, bank: int) {
    cart.PrgPages() <= bank < cart.PrgPages() + cart.TileEntries()
  }

  /** The windows after their registers were mapped again; register 255 stands for no page. */
  function Rebanked(windows: seq<Pointer>, instant: seq<Pointer>, bank6: seq<int>): (r: seq<Pointer>)
    requires |windows| == |bank6| == 5 && forall i :: 0 <= i < 5 ==> 0 <= bank6[i] < |instant|
    ensures |r| == 5
  {
    seq(5, i requires 0 <= i < 5 => if i > 0 && bank6[i] < 255 then instant[bank6[i]] else windows[i])
  }

  /** The page k parts further on. */
  function Onward(e: Pointer, k: nat): Pointer {
    if e.Prg? then Prg(e.slot, e.part + k) else e
  }

  /** The windows after a switch whose lookup returned e. */
  function WindowsSet(windows: seq<Pointer>, s: Switch, e: Pointer): (r: seq<Pointer>)
    requires |windows| == 5
    ensures |r| == 5
  {
    match s
    case Bank(i, _) => if i < 5 then windows[i := e] else windows
    case Low(_) => windows[1 := e][2 := Onward(e, 1)]
    case High(_) => windows[3 := e][4 := Onward(e, 1)]
    case All(_) => [windows[0], e, Onward(e, 1), Onward(e, 2), Onward(e, 3)]
  }

  /** The entry leads to the bytes of the page that a bank stands for. */
  ghost predicate Shows(e: Pointer, data: seq<seq<Byte>>, cart: Cart, bank: nat)
    requires cart.PrgPages() > 0
  {
    var q := Wrap(bank, cart.PrgPages());
    e.Prg? && 0 <= e.slot < |data| && data[e.slot] == cart.Group(q / 4) && e.part == q % 4
  }

  ghost predicate PrgData(data: seq<seq<Byte>>, tags: seq<int>, cart: Cart) {
    |data| == |tags| && forall i :: 0 <= i < |tags| && tags[i] != INVALID ==> tags[i] >= 0 && data[i] == cart.Group(tags[i])
  }

  ghost predicate ChrData(data: seq<seq<Byte>>, tags: seq<int>, cart: Cart) {
    |data| >= |tags| && forall i :: 0 <= i < |tags| && tags[i] != INVALID ==> tags[i] >= 0 && data[i] == cart.Page(tags[i])
  }

  /** The search for a slot after i slots, none of them empty. */
  ghost predicate Scanned(l: Lru, protected: set<int>, i: nat, oldest: int, victim: nat)
    requires |l.tags| == |l.ages|
  {
    && i <= |l.tags| && INVALID !in l.tags[..i]
    && oldest == (if Oldest(l, protected, i) < 0 then MAX_AGE else l.ages[Oldest(l, protected, i)])
    && victim == if Oldest(l, protected, i) < 0 then 0 else Oldest(l, protected, i)
  }

  lemma ScanNothing(l: Lru, protected: set<int>)
    requires |l.tags| == |l.ages|
    ensures Scanned(l, protected, 0, MAX_AGE, 0)
  {
  }

  lemma ScanEmpty(l: Lru, protected: set<int>, i: nat, oldest: int, victim: nat)
    requires i < |l.tags| == |l.ages| && Scanned(l, protected, i, oldest, victim) && l.tags[i] == INVALID
    ensures Choose(l, protected) == i
  {
    FirstIs(l.tags, INVALID, i);
  }

  lemma ScanNext(l: Lru, protected: set<int>, i: nat, oldest: int, victim: nat)
    requires i < |l.tags| == |l.ages| && Scanned(l, protected, i, oldest, victim) && l.tags[i] != INVALID
    ensures if l.tags[i] !in protected && l.ages[i] < oldest then Scanned(l, protected, i + 1, l.ages[i], i)
      else Scanned(l, protected, i + 1, oldest, victim)
  {
    assert l.tags[..i + 1] == l.tags[..i] + [l.tags[i]];
  }

  lemma ScanAll(l: Lru, protected: set<int>, oldest: int, victim: nat)
    requires 0 < |l.tags| == |l.ages| && Scanned(l, protected, |l.tags|, oldest, victim)
    ensures Choose(l, protected) == victim
  {
    assert l.tags[..|l.tags|] == l.tags;
  }

  /** The entries of one group changed to e (to its parts, if e is a slot), and no others. */
  ghost predicate PrgChanged(now: seq<Pointer>, was: seq<Pointer>, group: int, e: Pointer) {
    && |now| == |was|
    && forall p :: 0 <= p < |was| ==>
      now[p] == if p / 4 == group then if e.Prg? then Prg(e.slot, p % 4) else NoPage else was[p]
  }

  lemma InsideOrPast(page: nat, pages: nat)
    requires pages > 0
    ensures Wrap(page, pages) == page <==> page < pages
  {
    if page < pages {
      SmallMod(page, pages);
    }
  }

  /** An entry is set exactly when its group is resident, and then to its slot. */
  lemma PrgEntry(instant: seq<Pointer>, tags: seq<int>, pages: nat, q: nat, slot: nat)
    requires PrgTable(instant, tags, pages) && q < pages && slot < |tags| && tags[slot] == q / 4 && tags[slot] != INVALID
    requires forall i, j :: 0 <= i < j < |tags| && tags[i] == tags[j] ==> tags[i] == INVALID
    ensures instant[q] == Prg(slot, q % 4)
  {
    assert PrgMatches(instant[q], tags, q);
  }

  /** The group of a program bank, after wrapping. */
  ghost function GroupOf(cart: Cart, bank: nat): (g: int)
    requires cart.PrgPages() > 0
    ensures 0 <= g < cart.PrgGroups()
  {
    Wrap(bank, cart.PrgPages()) / 4
  }

  /** The groups that restoring banks 1..k-1 looks up, in order; bank 255 is skipped. */
  ghost function WantedGroups(cart: Cart, bank6: seq<int>, k: nat): (w: seq<int>)
    requires cart.PrgPages() > 0 && k <= |bank6| == 5 && forall i :: 0 <= i < 5 ==> 0 <= bank6[i] < 256
    ensures |w| <= if k == 0 then 0 else k - 1
  {
    if k <= 1 then []
    else if bank6[k - 1] < 255 then WantedGroups(cart, bank6, k - 1) + [GroupOf(cart, bank6[k - 1])]
    else WantedGroups(cart, bank6, k - 1)
  }

  lemma FetchNone(l: Lru, active: set<int>)
    requires 0 < |l.tags| == |l.ages|
    ensures FetchAll(l, active, []) == l
  {
  }

  lemma WantedNone(cart: Cart, bank6: seq<int>)
    requires cart.PrgPages() > 0 && |bank6| == 5 && forall i :: 0 <= i < 5 ==> 0 <= bank6[i] < 256
    ensures WantedGroups(cart, bank6, 1) == []
  {
  }

  lemma {:induction false} WantedIsBelow(cart: Cart, bank6: seq<int>, k: nat)
    requires cart.PrgPages() > 0 && k <= |bank6| == 5 && forall i :: 0 <= i < 5 ==> 0 <= bank6[i] < 256
    ensures AllBelow(WantedGroups(cart, bank6, k), cart.PrgGroups())
  {
    if k > 1 {
      WantedIsBelow(cart, bank6, k - 1);
    }
  }

  /** One more bank adds its group, and what is wanted so far is a prefix of what is wanted in all. */
  lemma WantedNext(cart: Cart, bank6: seq<int>, i: nat)
    requires cart.PrgPages() > 0 && 1 <= i < |bank6| == 5 && forall i :: 0 <= i < 5 ==> 0 <= bank6[i] < 256
    ensures bank6[i] < 255 ==> WantedGroups(cart, bank6, i + 1) == WantedGroups(cart, bank6, i) + [GroupOf(cart, bank6[i])]
    ensures bank6[i] >= 255 ==> WantedGroups(cart, bank6, i + 1) == WantedGroups(cart, bank6, i)
    ensures WantedGroups(cart, bank6, i) <= WantedGroups(cart, bank6, 5)
    ensures WantedGroups(cart, bank6, i + 1) <= WantedGroups(cart, bank6, 5)
    ensures forall j :: 1 <= j < i && bank6[j] < 255 ==> GroupOf(cart, bank6[j]) in WantedGroups(cart, bank6, i)
  {
    hide GroupOf;
    var w1 := WantedGroups(cart, bank6, 1);
    var w2 := WantedGroups(cart, bank6, 2);
    var w3 := WantedGroups(cart, bank6, 3);
    var w4 := WantedGroups(cart, bank6, 4);
    var w5 := WantedGroups(cart, bank6, 5);
    assert w1 <= w2 && w2 <= w3 && w3 <= w4 && w4 <= w5;
  }

  /** The entries of the banks restored so far lead to slots of their groups. */
  ghost predicate AliasesMatch(instant: seq<Pointer>, tags: seq<int>, cart: Cart, bank6: seq<int>, i: nat)
    requires cart.PrgPages() > 0 && i <= |bank6| == 5
  {
    && |instant| == TABLE
    && forall j :: 1 <= j < i && cart.PrgPages() <= bank6[j] < 255 ==>
      LeadsTo(instant[bank6[j]], tags, Wrap(bank6[j], cart.PrgPages()))
  }

  lemma AliasesKept(l0: Lru, protected: set<int>, cart: Cart, bank6: seq<int>, i: nat,
                    was: seq<Pointer>, now: seq<Pointer>)
    requires cart.PrgPages() > 0 && 1 <= i < |bank6| == 5 && (forall i :: 0 <= i < 5 ==> 0 <= bank6[i] < 256) && bank6[i] < 255
    requires Sound(l0, PRG_CACHE_GROUPS, cart.PrgGroups()) && l0.clock + 4 <= MAX_AGE && |was| == |now| == TABLE
    requires forall a :: cart.PrgPages() <= a < TABLE && a != bank6[i] ==> now[a] == was[a]
    requires var l := FetchAll(l0, protected, WantedGroups(cart, bank6, i));
      var r := Fetch(l, protected, GroupOf(cart, bank6[i]));
      LeadsTo(now[bank6[i]], r.tags, Wrap(bank6[i], cart.PrgPages()))
    requires Enough(protected, WantedGroups(cart, bank6, 5), PRG_CACHE_GROUPS, cart.PrgGroups())
    requires AliasesMatch(was, FetchAll(l0, protected, WantedGroups(cart, bank6, i)).tags, cart, bank6, i)
    ensures var l := FetchAll(l0, protected, WantedGroups(cart, bank6, i));
      AliasesMatch(now, Fetch(l, protected, GroupOf(cart, bank6[i])).tags, cart, bank6, i + 1)
  {
    hide Sound, Fetch, Enough, WantedGroups;
    var all, front := WantedGroups(cart, bank6, 5), WantedGroups(cart, bank6, i);
    WantedIsBelow(cart, bank6, 5);
    WantedNext(cart, bank6, i);
    assert front == all[..|front|] && all[|front|] == GroupOf(cart, bank6[i]);
    KeptSlotsStay(l0, protected, all, |front|, PRG_CACHE_GROUPS, cart.PrgGroups());
  }

  lemma EntryIsShown(instant: seq<Pointer>, l: Lru, data: seq<seq<Byte>>, cart: Cart, bank6: seq<int>, i: nat)
    requires cart.PrgPages() > 0 && 1 <= i < |bank6| == 5 && (forall i :: 0 <= i < 5 ==> 0 <= bank6[i] < 256) && bank6[i] < 255
    requires Sound(l, PRG_CACHE_GROUPS, cart.PrgGroups()) && |instant| == TABLE
    requires PrgTable(instant, l.tags, cart.PrgPages()) && PrgData(data, l.tags, cart)
    requires AliasesMatch(instant, l.tags, cart, bank6, 5)
    requires Resident(l, Elements(WantedGroups(cart, bank6, 5)))
    ensures LeadsTo(instant[bank6[i]], l.tags, Wrap(bank6[i], cart.PrgPages()))
    ensures Shows(instant[bank6[i]], data, cart, bank6[i])
  {
    hide WantedGroups, Cart.Group;
    WantedNext(cart, bank6, 4);
    assert GroupOf(cart, bank6[i]) in WantedGroups(cart, bank6, 5);
    var bank := bank6[i];
    if bank < cart.PrgPages() {
      SmallMod(bank, cart.PrgPages());
      assert PrgMatches(instant[bank], l.tags, bank);
    }
  }

  /** The program half of restoring, done up to bank i. */
  ghost predicate Restored(instant: seq<Pointer>, l: Lru, l0: Lru, cart: Cart, bank6: seq<int>, i: nat)
    requires cart.PrgPages() > 0 && i <= |bank6| == 5 && (forall i :: 0 <= i < 5 ==> 0 <= bank6[i] < 256)
    requires 0 < |l0.tags| == |l0.ages|
  {
    && l == FetchAll(l0, ActiveGroups(bank6), WantedGroups(cart, bank6, i))
    && (Enough(ActiveGroups(bank6), WantedGroups(cart, bank6, 5), PRG_CACHE_GROUPS, cart.PrgGroups()) ==>
      AliasesMatch(instant, l.tags, cart, bank6, i))
  }

  lemma NothingRestored(instant: seq<Pointer>, l0: Lru, cart: Cart, bank6: seq<int>)
    requires cart.PrgPages() > 0 && |bank6| == 5 && (forall i :: 0 <= i < 5 ==> 0 <= bank6[i] < 256)
    requires 0 < |l0.tags| == |l0.ages| && |instant| == TABLE
    ensures Restored(instant, l0, l0, cart, bank6, 1)
  {
    hide Enough, ActiveGroups, WantedGroups;
    WantedNone(cart, bank6);
    FetchNone(l0, ActiveGroups(bank6));
  }

  lemma BankSkipped(instant: seq<Pointer>, l: Lru, l0: Lru, cart: Cart, bank6: seq<int>, i: nat)
    requires cart.PrgPages() > 0 && 1 <= i < |bank6| == 5 && (forall i :: 0 <= i < 5 ==> 0 <= bank6[i] < 256)
    requires 0 < |l0.tags| == |l0.ages| && bank6[i] == 255 && Restored(instant, l, l0, cart, bank6, i)
    ensures Restored(instant, l, l0, cart, bank6, i + 1)
  {
    hide Enough, ActiveGroups, WantedGroups, PrgMatches, FetchAll;
    WantedNext(cart, bank6, i);
  }

  lemma BankRestored(was: seq<Pointer>, now: seq<Pointer>, l: Lru, r: Lru, l0: Lru, cart: Cart, bank6: seq<int>, i: nat)
    requires cart.PrgPages() > 0 && 1 <= i < |bank6| == 5 && (forall i :: 0 <= i < 5 ==> 0 <= bank6[i] < 256) && bank6[i] < 255
    requires Sound(l0, PRG_CACHE_GROUPS, cart.PrgGroups()) && l0.clock + 4 <= MAX_AGE && |was| == |now| == TABLE
    requires Restored(was, l, l0, cart, bank6, i) && r == Fetch(l, ActiveGroups(bank6), GroupOf(cart, bank6[i]))
    requires forall a :: cart.PrgPages() <= a < TABLE && a != bank6[i] ==> now[a] == was[a]
    requires LeadsTo(now[bank6[i]], r.tags, Wrap(bank6[i], cart.PrgPages()))
    ensures Restored(now, r, l0, cart, bank6, i + 1)
  {
    hide Enough, ActiveGroups, WantedGroups, PrgMatches, FetchAll, Fetch, Sound, AliasesMatch, GroupOf;
    var protected, front := ActiveGroups(bank6), WantedGroups(cart, bank6, i);
    SoundShape(l0, PRG_CACHE_GROUPS, cart.PrgGroups());
    WantedNext(cart, bank6, i);
    FetchMore(l0, protected, front, GroupOf(cart, bank6[i]));
    if Enough(protected, WantedGroups(cart, bank6, 5), PRG_CACHE_GROUPS, cart.PrgGroups()) {
      AliasesKept(l0, protected, cart, bank6, i, was, now);
    }
  }

  lemma AllRestored(instant: seq<Pointer>, l: Lru, l0: Lru, data: seq<seq<Byte>>, cart: Cart, bank6: seq<int>)
    requires cart.PrgPages() > 0 && |bank6| == 5 && (forall i :: 0 <= i < 5 ==> 0 <= bank6[i] < 256) && |instant| == TABLE
    requires Sound(l0, PRG_CACHE_GROUPS, cart.PrgGroups()) && l0.clock + 4 <= MAX_AGE
    requires Restored(instant, l, l0, cart, bank6, 5) && Sound(l, PRG_CACHE_GROUPS, cart.PrgGroups())
    requires PrgTable(instant, l.tags, cart.PrgPages()) && PrgData(data, l.tags, cart)
    ensures l == FetchAll(l0, ActiveGroups(bank6), WantedGroups(cart, bank6, 5))
    ensures Fits(cart, bank6) ==> forall i :: 1 <= i < 5 && bank6[i] < 255 ==>
      LeadsTo(instant[bank6[i]], l.tags, Wrap(bank6[i], cart.PrgPages())) && Shows(instant[bank6[i]], data, cart, bank6[i])
  {
    var protected, all := ActiveGroups(bank6), WantedGroups(cart, bank6, 5);
    hide ActiveGroups, WantedGroups, FetchAll, Sound, AliasesMatch, PrgTable, PrgData, Shows, LeadsTo;
    hide Enough;
    WantedIsBelow(cart, bank6, 5);
    if Fits(cart, bank6) {
      RunIsResident(l0, protected, all, PRG_CACHE_GROUPS, cart.PrgGroups());
      forall i | 1 <= i < 5 && bank6[i] < 255
        ensures LeadsTo(instant[bank6[i]], l.tags, Wrap(bank6[i], cart.PrgPages())) && Shows(instant[bank6[i]], data, cart, bank6[i])
      {
        EntryIsShown(instant, l, data, cart, bank6, i);
      }
    }
  }

  /** The wanted and the protected groups fit the slots. */
  ghost predicate Fits(cart: Cart, bank6: seq<int>)
    requires cart.PrgPages() > 0 && |bank6| == 5 && forall i :: 0 <= i < 5 ==> 0 <= bank6[i] < 256
  {
    Enough(ActiveGroups(bank6), WantedGroups(cart, bank6, 5), PRG_CACHE_GROUPS, cart.PrgGroups())
  }

  lemma PagesAreTable(instant: seq<Pointer>, pages: seq<Pointer>, tags: seq<int>, n: nat)
    requires n <= |instant| && pages == instant[..n]
    ensures PrgTable(pages, tags, n) <==> PrgTable(instant, tags, n)
  {
    hide PrgMatches;
    if PrgTable(pages, tags, n) {
      forall p: nat | p < n ensures PrgMatches(instant[p], tags, p) {
        assert PrgMatches(pages[p], tags, p);
      }
    }
  }

  // ------------------------------------------------------------------ entries past the end of the ROM

  /** One of the first k registers stores its entry at tile entry a. */
  predicate PastRegister(cart: Cart, bank6: seq<int>, a: nat, k: nat)
    requires k <= |bank6|
  {
    exists i :: 1 <= i < k && bank6[i] < 255 && bank6[i] == cart.PrgPages() + a
  }

  /** The tile entries after looking up the registers below k. */
  ghost predicate Overwritten(now: seq<Pointer>, was: seq<Pointer>, cart: Cart, bank6: seq<int>, k: nat)
    requires k <= |bank6|
  {
    && |now| == |was|
    && forall a :: 0 <= a < |was| ==> if PastRegister(cart, bank6, a, k) then now[a].Prg? else now[a] == was[a]
  }

  lemma NothingOverwritten(tiles: seq<Pointer>, cart: Cart, bank6: seq<int>)
    requires |bank6| == 5
    ensures Overwritten(tiles, tiles, cart, bank6, 1)
  {
  }

  lemma NoneOverwritten(now: seq<Pointer>, was: seq<Pointer>, cart: Cart, bank6: seq<int>, i: nat)
    requires 1 <= i < |bank6| == 5 && bank6[i] >= 255 && Overwritten(now, was, cart, bank6, i)
    ensures Overwritten(now, was, cart, bank6, i + 1)
  {
    forall a | 0 <= a < |was| ensures PastRegister(cart, bank6, a, i + 1) == PastRegister(cart, bank6, a, i) {
    }
  }

  lemma OneOverwritten(mid: seq<Pointer>, now: seq<Pointer>, was: seq<Pointer>, cart: Cart, bank6: seq<int>, i: nat, r: Pointer)
    requires 1 <= i < |bank6| == 5 && 0 <= bank6[i] < 255 && Overwritten(mid, was, cart, bank6, i) && r.Prg?
    requires bank6[i] - cart.PrgPages() < |mid|
    requires now == if bank6[i] >= cart.PrgPages() then mid[bank6[i] - cart.PrgPages() := r] else mid
    ensures Overwritten(now, was, cart, bank6, i + 1)
  {
    hide Cart.PrgPages;
    forall a | 0 <= a < |was|
      ensures PastRegister(cart, bank6, a, i + 1) <==> PastRegister(cart, bank6, a, i) || bank6[i] == cart.PrgPages() + a
    {
    }
  }

  /** The other entries past the end of the ROM are as they were. */
  lemma OthersStay(was: seq<Pointer>, now: seq<Pointer>, pages: nat, page: nat)
    requires |was| == |now| && pages <= |was| && page < |was|
    requires now[pages..] == if page >= pages then was[pages..][page - pages := now[page]] else was[pages..]
    ensures forall a :: pages <= a < |was| && a != page ==> now[a] == was[a]
  {
    forall a | pages <= a < |was| && a != page ensures now[a] == was[a] {
      assert now[a] == now[pages..][a - pages] && was[a] == was[pages..][a - pages];
    }
  }

  /** The tile table is right after the entry of a program page was stored exactly if that entry is a
      program entry, or lies past the tile table. */
  lemma StoredIff(was: seq<Pointer>, now: seq<Pointer>, tags: seq<int>, cart: Cart, page: nat, e: Pointer)
    requires cart.Valid() && e.Prg? && page < 512 && |was| == TABLE - cart.PrgPages()
    requires ChrTable(was, tags, cart) && NonePrg(was, cart.TileEntries())
    requires now == if page >= cart.PrgPages() then was[page - cart.PrgPages() := e] else was
    ensures ChrTable(now, tags, cart) && (NonePrg(now, cart.TileEntries()) <==> !InTiles(cart, page))
    ensures !InTiles(cart, page) ==> now[..cart.TileEntries()] == was[..cart.TileEntries()]
  {
    hide Cart.ChrPages, Cart.RamPage, Wrap;
    if cart.ChrPages() > 0 {
      forall a: nat | a < cart.TablePages() ensures ChrMatches(now[a], tags, cart, a) {
        assert ChrMatches(was[a], tags, cart, a);
      }
    }
    hide ChrTable;
    if InTiles(cart, page) {
      assert now[page - cart.PrgPages()].Prg?;
    }
  }

  lemma FirstEight(was: seq<Pointer>, now: seq<Pointer>, n: nat)
    requires 8 <= n <= |was| == |now|
    ensures now[..n] == was[..n] ==> forall a :: 0 <= a < 8 ==> now[a] == was[a]
  {
    assert forall a :: 0 <= a < 8 ==> now[..n][a] == now[a] && was[..n][a] == was[a];
  }

  /** Overwriting leaves every tile pointer right that is still there. */
  lemma OverwrittenIsLoose(now: seq<Pointer>, was: seq<Pointer>, tags: seq<int>, cart: Cart, bank6: seq<int>, k: nat)
    requires k <= |bank6| && Overwritten(now, was, cart, bank6, k) && ChrTable(was, tags, cart)
    ensures ChrTable(now, tags, cart)
  {
    hide PastRegister, Cart.ChrPages, Cart.TablePages, Cart.RamPage, Wrap;
    if cart.ChrPages() > 0 {
      forall a: nat | a < cart.TablePages() ensures ChrMatches(now[a], tags, cart, a) {
        assert ChrMatches(was[a], tags, cart, a);
      }
    }
  }

  /** What tile lookups do to program pointers: none is new, and nothing behind the table changes. */
  ghost predicate TileFrame(now: seq<Pointer>, was: seq<Pointer>, n: nat) {
    && |now| == |was| && n <= |was|
    && (forall a :: 0 <= a < n && now[a].Prg? ==> now[a] == was[a])
    && (forall a :: n <= a < |was| ==> now[a] == was[a])
  }

  /** Looking up a tile page sets entry a: it is the page's own, or one of its aliases. */
  predicate Rewrites(cart: Cart, page: nat, a: nat)
    requires cart.ChrPages() > 0
  {
    if cart.RamPage(page) != -1 then a == page
    else cart.RamPage(a) == -1 && Wrap(a, cart.ChrPages()) == Wrap(page, cart.ChrPages())
  }

  /** The lookup of a tile page overwrites exactly those program pointers that stand in its entries. */
  ghost predicate PrgLeft(now: seq<Pointer>, was: seq<Pointer>, cart: Cart, page: nat)
    requires cart.ChrPages() > 0
  {
    && |now| == |was| && cart.TablePages() <= |was|
    && forall a :: 0 <= a < cart.TablePages() ==> (now[a].Prg? <==> was[a].Prg? && !Rewrites(cart, page, a))
  }

  /** No tile window below k is on a page whose lookup sets entry a. */
  predicate Spared(cart: Cart, cbank: seq<int>, a: nat, k: nat)
    requires k <= |cbank| && forall i :: 0 <= i < |cbank| ==> 0 <= cbank[i]
  {
    cart.ChrPages() == 0 || forall i :: 0 <= i < k ==> !Rewrites(cart, cbank[i], a)
  }

  ghost predicate AllPrgLeft(now: seq<Pointer>, was: seq<Pointer>, cart: Cart, cbank: seq<int>, k: nat)
    requires k <= |cbank| && forall i :: 0 <= i < |cbank| ==> 0 <= cbank[i]
  {
    && |now| == |was| && cart.TablePages() <= |was|
    && forall a :: 0 <= a < cart.TablePages() ==> (now[a].Prg? <==> was[a].Prg? && Spared(cart, cbank, a, k))
  }

  /** A failed read among the first k tile lookups is noticed. */
  predicate Noticed(oks: seq<bool>, tiles: seq<Pointer>, cbank: seq<int>, k: nat)
    requires k <= |oks| == |cbank| && forall i :: 0 <= i < |cbank| ==> 0 <= cbank[i] < |tiles|
  {
    forall i :: 0 <= i < k ==> oks[i] || !tiles[cbank[i]].Prg?
  }

  /** The same, judged before the registers are looked up. */
  predicate NoticedAll(cart: Cart, oks: seq<bool>, tiles: seq<Pointer>, bank6: seq<int>, cbank: seq<int>)
    requires |oks| == |cbank| == 8 && |bank6| == 5 && forall i :: 0 <= i < |cbank| ==> 0 <= cbank[i] < |tiles|
  {
    forall i :: 0 <= i < 8 ==> oks[i] || (!tiles[cbank[i]].Prg? && !PastRegister(cart, bank6, cbank[i], 5))
  }

  lemma NoticedLater(cart: Cart, oks: seq<bool>, tiles: seq<Pointer>, now: seq<Pointer>, bank6: seq<int>, cbank: seq<int>)
    requires |oks| == |cbank| == 8 && |bank6| == 5 && forall i :: 0 <= i < |cbank| ==> 0 <= cbank[i] < |tiles|
    requires Overwritten(now, tiles, cart, bank6, 5) && NoticedAll(cart, oks, tiles, bank6, cbank)
    ensures Noticed(oks, now, cbank, 8)
  {
    hide PastRegister;
  }

  /** Every tile entry in use is a work memory page or a program pointer, so none is null. */
  lemma NoneIsNull(now: seq<Pointer>, was: seq<Pointer>, cart: Cart, bank6: seq<int>)
    requires |bank6| == 5 && |was| >= 8 && Overwritten(now, was, cart, bank6, 5) && forall a :: 0 <= a < 8 ==> was[a] == Ram(a)
    ensures forall a :: 0 <= a < 8 ==> now[a] != NoPage
  {
    hide PastRegister;
  }

  lemma NoticedOne(oks: seq<bool>, tiles: seq<Pointer>, was: seq<Pointer>, cart: Cart, cbank: seq<int>, i: nat)
    requires i < |oks| == |cbank| && forall i :: 0 <= i < |cbank| ==> 0 <= cbank[i] < |tiles|
    requires Noticed(oks, tiles, cbank, i + 1) && TileFrame(was, tiles, cart.TablePages())
    ensures Noticed(oks, tiles, cbank, i) && (oks[i] || !was[cbank[i]].Prg?)
  {
    hide Cart.TablePages;
  }

  /** The tile half of restoring, done up to window i. */
  ghost predicate TilesDone(tiles: seq<Pointer>, l: Lru, l0: Lru, cart: Cart, cbank: seq<int>, i: nat)
    requires cart.ChrPages() > 0 && i <= |cbank| == 8 && (forall i :: 0 <= i < 8 ==> 0 <= cbank[i] < 256)
    requires 0 < |l0.tags| == |l0.ages|
  {
    && l == FetchAll(l0, ActivePages(cart, cbank), WantedPages(cart, cbank, i)) && RamsSet(tiles, cart, cbank, i)
    && forall j :: 0 <= j < i ==> !tiles[cbank[j]].Prg?
  }

  lemma NoTilesDone(tiles: seq<Pointer>, l0: Lru, cart: Cart, cbank: seq<int>)
    requires |cbank| == 8 && (forall i :: 0 <= i < 8 ==> 0 <= cbank[i] < 256) && |tiles| >= 2048 >= cart.TablePages()
    requires 0 < |l0.tags| == |l0.ages|
    ensures cart.ChrPages() > 0 ==> TilesDone(tiles, l0, l0, cart, cbank, 0)
    ensures TileFrame(tiles, tiles, cart.TablePages()) && AllPrgLeft(tiles, tiles, cart, cbank, 0)
  {
    hide ActivePages, Rewrites;
    FetchNone(l0, ActivePages(cart, cbank));
    WantedPagesNone(cart, cbank, tiles);
  }

  /** One more tile lookup, whatever became of it. */
  lemma FramesCompose(tiles: seq<Pointer>, was: seq<Pointer>, now: seq<Pointer>, cart: Cart, cbank: seq<int>, i: nat)
    requires cart.ChrPages() > 0 && i < |cbank| == 8 && (forall i :: 0 <= i < 8 ==> 0 <= cbank[i] < 256)
    requires TileFrame(was, tiles, cart.TablePages()) && TileFrame(now, was, cart.TablePages())
    ensures TileFrame(now, tiles, cart.TablePages())
    ensures AllPrgLeft(was, tiles, cart, cbank, i) && PrgLeft(now, was, cart, cbank[i]) ==> AllPrgLeft(now, tiles, cart, cbank, i + 1)
  {
    hide Cart.ChrPages, Cart.TablePages, Rewrites;
    forall a | 0 <= a < cart.TablePages()
      ensures Spared(cart, cbank, a, i + 1) <==> Spared(cart, cbank, a, i) && !Rewrites(cart, cbank[i], a)
    {
    }
  }

  /** One more tile window is done. */
  lemma OneTileDone(was: seq<Pointer>, now: seq<Pointer>, l: Lru, r: Lru, l0: Lru, cart: Cart, cbank: seq<int>, i: nat)
    requires cart.ChrPages() > 0 && i < |cbank| == 8 && (forall i :: 0 <= i < 8 ==> 0 <= cbank[i] < 256)
    requires (forall i :: 0 <= i < 8 ==> cbank[i] < cart.TablePages()) && 0 < |l0.tags| == |l0.ages|
    requires TilesDone(was, l, l0, cart, cbank, i) && RamStays(now, was, cart.TablePages())
    requires TileFrame(now, was, cart.TablePages()) && !now[cbank[i]].Prg?
    requires if cart.RamPage(cbank[i]) != -1 then r == l && now[cbank[i]] == Ram(cart.RamPage(cbank[i]))
      else r == Fetch(l, ActivePages(cart, cbank), Wrap(cbank[i], cart.ChrPages()))
    ensures TilesDone(now, r, l0, cart, cbank, i + 1)
  {
    hide Cart.ChrPages, Cart.TablePages, Cart.RamPage, ActivePages, Fetch, FetchAll, Wrap;
    WantedPagesNext(cart, cbank, i);
    RamsSetNext(was, now, cart, cbank, i);
    hide WantedPages, RamsSet;
    if cart.RamPage(cbank[i]) == -1 {
      FetchMore(l0, ActivePages(cart, cbank), WantedPages(cart, cbank, i), Wrap(cbank[i], cart.ChrPages()));
    }
  }

  lemma AllTilesDone(tiles: seq<Pointer>, l: Lru, l0: Lru, data: seq<seq<Byte>>, cart: Cart, cbank: seq<int>, slots: nat)
    requires cart.ChrPages() > 0 && |cbank| == 8 && (forall i :: 0 <= i < 8 ==> 0 <= cbank[i] < 256) && slots >= 8
    requires (forall i :: 0 <= i < 8 ==> cbank[i] < cart.TablePages()) && Sound(l0, slots, cart.ChrPages())
    requires l0.clock + 8 <= MAX_AGE && 0 < |l0.tags| == |l0.ages| && TilesDone(tiles, l, l0, cart, cbank, 8)
    requires Sound(l, slots, cart.ChrPages()) && ChrTable(tiles, l.tags, cart) && ChrData(data, l.tags, cart)
    ensures |tiles| >= 2048 && forall i :: 0 <= i < 8 ==> TileShows(tiles[cbank[i]], data, cart, cbank[i], slots)
  {
    assert |tiles| >= 2048;
    hide WantedPages, ActivePages, Sound, ChrTable, ChrData, FetchAll, Enough, RamsSet, TileShows, Cart.ChrPages, Cart.TablePages;
    EnoughForTiles(cart, cbank, slots);
    RunIsResident(l0, ActivePages(cart, cbank), WantedPages(cart, cbank, 8), slots, cart.ChrPages());
    forall i | 0 <= i < 8 ensures TileShows(tiles[cbank[i]], data, cart, cbank[i], slots) {
      TileIsShown(tiles, l, data, cart, cbank, slots, i);
    }
  }

  /** A tile entry leads to the bytes of the page that a tile bank stands for. */
  ghost predicate TileShows(e: Pointer, data: seq<seq<Byte>>, cart: Cart, bank: nat, slots: nat) {
    if cart.ChrPages() == 0 then e == Ram(bank)
    else if cart.RamPage(bank) != -1 then e == Ram(cart.RamPage(bank))
    else e.Chr? && 0 <= e.slot < slots && e.slot < |data| && data[e.slot] == cart.Page(Wrap(bank, cart.ChrPages()))
  }

  /** After the tile half an entry is as the program half left it, or is no program pointer any more. */
  lemma EntryStays(now: seq<Pointer>, mid: seq<Pointer>, cart: Cart, at: nat)
    requires |now| == |mid| == TABLE && cart.PrgPages() <= TABLE && at < TABLE
    requires now[..cart.PrgPages()] == mid[..cart.PrgPages()]
    requires TileFrame(now[cart.PrgPages()..], mid[cart.PrgPages()..], cart.TablePages())
    ensures at < cart.PrgPages() || at >= cart.PrgPages() + cart.TablePages() ==> now[at] == mid[at]
    ensures now[at].Prg? ==> now[at] == mid[at]
  {
    var p := cart.PrgPages();
    if at < p {
      assert now[at] == now[..p][at] && mid[at] == mid[..p][at];
    } else {
      assert now[at] == now[p..][at - p] && mid[at] == mid[p..][at - p];
    }
  }

  /** The tile ROM pages that restoring banks 0..k-1 looks up, in order. */
  ghost function WantedPages(cart: Cart, cbank: seq<int>, k: nat): (w: seq<int>)
    requires cart.ChrPages() > 0 && k <= |cbank| == 8 && forall i :: 0 <= i < 8 ==> 0 <= cbank[i] < 256
    ensures |w| <= k && AllBelow(w, cart.ChrPages())
  {
    if k == 0 then []
    else if cart.RamPage(cbank[k - 1]) == -1 then WantedPages(cart, cbank, k - 1) + [Wrap(cbank[k - 1], cart.ChrPages())]
    else WantedPages(cart, cbank, k - 1)
  }

  ghost predicate RamsSet(instant: seq<Pointer>, cart: Cart, cbank: seq<int>, k: nat)
    requires k <= |cbank| == 8 && forall i :: 0 <= i < 8 ==> 0 <= cbank[i] < 256
  {
    && |instant| >= 2048
    && forall j :: 0 <= j < k && cart.RamPage(cbank[j]) != -1 ==> instant[cbank[j]] == Ram(cart.RamPage(cbank[j]))
  }

  lemma WantedPagesNone(cart: Cart, cbank: seq<int>, instant: seq<Pointer>)
    requires |cbank| == 8 && (forall i :: 0 <= i < 8 ==> 0 <= cbank[i] < 256) && |instant| >= 2048
    ensures cart.ChrPages() > 0 ==> WantedPages(cart, cbank, 0) == []
    ensures RamsSet(instant, cart, cbank, 0)
  {
  }

  lemma {:induction false} WantedPagesHold(cart: Cart, cbank: seq<int>, k: nat, j: nat)
    requires cart.ChrPages() > 0 && j < k <= |cbank| == 8 && forall i :: 0 <= i < 8 ==> 0 <= cbank[i] < 256
    requires cart.RamPage(cbank[j]) == -1
    ensures Wrap(cbank[j], cart.ChrPages()) in WantedPages(cart, cbank, k)
  {
    hide Cart.ChrPages, Cart.RamPage, Wrap;
    if j < k - 1 {
      WantedPagesHold(cart, cbank, k - 1, j);
    }
  }

  lemma WantedPagesNext(cart: Cart, cbank: seq<int>, i: nat)
    requires cart.ChrPages() > 0 && i < |cbank| == 8 && forall i :: 0 <= i < 8 ==> 0 <= cbank[i] < 256
    ensures WantedPages(cart, cbank, i + 1) ==
      if cart.RamPage(cbank[i]) == -1 then WantedPages(cart, cbank, i) + [Wrap(cbank[i], cart.ChrPages())]
      else WantedPages(cart, cbank, i)
  {
  }

  lemma RamsSetNext(was: seq<Pointer>, now: seq<Pointer>, cart: Cart, cbank: seq<int>, i: nat)
    requires cart.ChrPages() > 0 && i < |cbank| == 8 && forall i :: 0 <= i < 8 ==> 0 <= cbank[i] < 256
    requires forall i :: 0 <= i < 8 ==> cbank[i] < cart.TablePages()
    requires RamsSet(was, cart, cbank, i) && RamStays(now, was, cart.TablePages())
    requires cart.RamPage(cbank[i]) != -1 ==> now[cbank[i]] == Ram(cart.RamPage(cbank[i]))
    ensures RamsSet(now, cart, cbank, i + 1)
  {
    hide Cart.ChrPages, Cart.RamPage, Cart.TablePages;
  }

  lemma {:induction false} WantedPagesAmong(cart: Cart, cbank: seq<int>, k: nat, all: seq<int>)
    requires cart.ChrPages() > 0 && k <= |cbank| == 8 == |all| && forall i :: 0 <= i < 8 ==> 0 <= cbank[i] < 256
    requires forall i :: 0 <= i < 8 ==> all[i] == Wrap(cbank[i], cart.ChrPages())
    ensures forall x :: x in WantedPages(cart, cbank, k) ==> x in all
  {
    hide Cart.ChrPages, Cart.RamPage, Wrap;
    if k > 0 {
      WantedPagesAmong(cart, cbank, k - 1, all);
      assert all[k - 1] in all;
    }
  }

  /** Eight banks name at most eight pages, and there are at least nine slots. */
  lemma EnoughForTiles(cart: Cart, cbank: seq<int>, slots: nat)
    requires cart.ChrPages() > 0 && |cbank| == 8 && (forall i :: 0 <= i < 8 ==> 0 <= cbank[i] < 256) && slots >= 8
    ensures Enough(ActivePages(cart, cbank), WantedPages(cart, cbank, 8), slots, cart.ChrPages())
  {
    hide WantedPages, Wrap, Cart.ChrPages;
    var all: seq<int> := seq(8, i requires 0 <= i < 8 => Wrap(cbank[i], cart.ChrPages()));
    var wanted := Elements(WantedPages(cart, cbank, 8));
    var both := wanted + InRange(ActivePages(cart, cbank), cart.ChrPages());
    WantedPagesAmong(cart, cbank, 8, all);
    forall x | x in both ensures x in Elements(all) {
      if x in ActivePages(cart, cbank) {
        var i :| 0 <= i < 8 && ActiveBank(cart, cbank[i]) && Wrap(cbank[i], cart.ChrPages()) == x;
        assert all[i] == x;
      }
    }
    SubsetSize(both, Elements(all));
    ElementsSize(all);
  }

  lemma TileIsShown(instant: seq<Pointer>, l: Lru, data: seq<seq<Byte>>, cart: Cart, cbank: seq<int>, slots: nat, i: nat)
    requires cart.ChrPages() > 0 && i < |cbank| == 8 && forall i :: 0 <= i < 8 ==> 0 <= cbank[i] < 256
    requires Sound(l, slots, cart.ChrPages()) && |instant| >= 2048 && cbank[i] < cart.TablePages()
    requires ChrTable(instant, l.tags, cart) && ChrData(data, l.tags, cart) && RamsSet(instant, cart, cbank, 8)
    requires Resident(l, Elements(WantedPages(cart, cbank, 8))) && !instant[cbank[i]].Prg?
    ensures TileShows(instant[cbank[i]], data, cart, cbank[i], slots)
  {
    hide WantedPages, Wrap, Cart.ChrPages, Cart.RamPage, Cart.Page, Cart.TablePages;
    if cart.RamPage(cbank[i]) == -1 {
      WantedPagesHold(cart, cbank, 8, i);
      assert ChrMatches(instant[cbank[i]], l.tags, cart, cbank[i]);
    }
  }

  lemma TableFits(cart: Cart)
    requires cart.Valid()
    ensures cart.ChrPages() <= cart.TablePages() <= 2048
  {
  }

  lemma FirstAlias(page: nat, pages: nat)
    requires page < pages
    ensures Wrap(page, pages) == page && forall a :: 0 <= a < page ==> Wrap(a, pages) != page
  {
    SmallMod(page, pages);
    forall a | 0 <= a < page ensures Wrap(a, pages) != page {
      SmallMod(a, pages);
    }
  }

  lemma NextAlias(alias: nat, pages: nat, page: nat)
    requires pages > 0 && Wrap(alias, pages) == page
    ensures Wrap(alias + pages, pages) == page
    ensures forall a :: alias < a < alias + pages ==> Wrap(a, pages) != page
  {
    ModAddMultiple(alias, pages, 1);
    forall a | alias < a < alias + pages ensures Wrap(a, pages) != page {
      DivMod(alias, pages);
      DivMod(a, pages);
      if a % pages == page {
        SameRemainder(pages, alias / pages, a / pages, page, alias, a);
      }
    }
  }

  lemma SameRemainder(b: int, q: int, q': int, r: int, x: int, y: int)
    requires b > 0 && x == b * q + r && y == b * q' + r
    ensures y <= x || y >= x + b
  {
    if q < q' {
      MulStep(b, q, q');
    } else {
      MulMono(b, q', q);
    }
  }

  /** Entries for work memory are left alone. */
  ghost predicate RamStays(now: seq<Pointer>, was: seq<Pointer>, n: nat) {
    n <= |was| == |now| && forall a :: 0 <= a < n && was[a].Ram? ==> now[a] == was[a]
  }

  /** Below n the entries that led to a slot were cleared. */
  ghost predicate ChrCleared(now: seq<Pointer>, was: seq<Pointer>, n: nat, slot: nat) {
    && |now| == |was| && forall a :: 0 <= a < |was| ==>
      now[a] == if a < n && was[a] == Chr(slot) then NoPage else was[a]
  }

  /** Below n the aliases of a page were pointed at a slot. */
  ghost predicate ChrMapped(now: seq<Pointer>, was: seq<Pointer>, cart: Cart, n: nat, page: nat, slot: nat)
    requires cart.ChrPages() > 0
  {
    && |now| == |was| && forall a :: 0 <= a < |was| ==>
      now[a] == if a < n && Wrap(a, cart.ChrPages()) == page && cart.RamPage(a) == -1 then Chr(slot) else was[a]
  }

  /** The aliases of a page point to a slot, and other entries that led there may have been cleared. */
  ghost predicate ChrSet(now: seq<Pointer>, was: seq<Pointer>, cart: Cart, page: nat, slot: nat)
    requires cart.ChrPages() > 0
  {
    && |now| == |was| && cart.TablePages() <= |was|
    && (forall a :: 0 <= a < cart.TablePages() && Wrap(a, cart.ChrPages()) == page && cart.RamPage(a) == -1 ==> now[a] == Chr(slot))
    && (forall a :: 0 <= a < cart.TablePages() && !(Wrap(a, cart.ChrPages()) == page && cart.RamPage(a) == -1) ==>
      now[a] == was[a] || (was[a] == Chr(slot) && now[a] == NoPage))
    && (forall a :: cart.TablePages() <= a < |was| ==> now[a] == was[a])
  }

  lemma MappedIsSet(was: seq<Pointer>, now: seq<Pointer>, cart: Cart, page: nat, slot: nat)
    requires cart.ChrPages() > 0 && cart.TablePages() <= |was| && ChrMapped(now, was, cart, cart.TablePages(), page, slot)
    ensures ChrSet(now, was, cart, page, slot)
  {
    hide Cart.ChrPages, Cart.RamPage, Cart.TablePages, Wrap;
  }

  lemma ClearedIsSet(was: seq<Pointer>, mid: seq<Pointer>, now: seq<Pointer>, cart: Cart, n: nat, page: nat, slot: nat)
    requires cart.ChrPages() > 0 && n <= cart.TablePages() <= |was| && ChrCleared(mid, was, n, slot)
    requires ChrMapped(now, mid, cart, cart.TablePages(), page, slot)
    ensures ChrSet(now, was, cart, page, slot)
  {
    hide Cart.ChrPages, Cart.RamPage, Cart.TablePages, Wrap;
  }

  /** A successful lookup: the entry is right, and the rest of the table was treated as it should. */
  lemma SetTile(was: seq<Pointer>, now: seq<Pointer>, tags: seq<int>, cart: Cart, page: nat, q: nat, slot: nat)
    requires cart.ChrPages() > 0 && page < cart.TablePages() && cart.RamPage(page) == -1 && q == Wrap(page, cart.ChrPages())
    requires ChrSet(now, was, cart, q, slot)
    ensures now[page] == Chr(slot) && now[page := Chr(slot)] == now
    ensures TileFrame(now, was, cart.TablePages()) && PrgLeft(now, was, cart, page)
    ensures ChrTable(was, tags, cart) ==> RamStays(now, was, cart.TablePages())
  {
    hide Cart.ChrPages, Cart.RamPage, Cart.TablePages, Wrap;
    if ChrTable(was, tags, cart) {
      forall a: nat | a < cart.TablePages() && was[a].Ram? ensures now[a] == was[a] {
        assert ChrMatches(was[a], tags, cart, a);
      }
    }
  }

  /** A failed lookup: the entry is clear, or is the program pointer that was there before. */
  lemma FailedTile(was: seq<Pointer>, now: seq<Pointer>, tags: seq<int>, cart: Cart, n: nat, page: nat, q: nat, slot: nat)
    requires cart.ChrPages() > 0 && page < cart.TablePages() && cart.RamPage(page) == -1 && q == Wrap(page, cart.ChrPages())
    requires n <= cart.TablePages() <= |was| && ChrCleared(now, was, n, slot) && q !in tags
    ensures TileFrame(now, was, cart.TablePages())
    ensures ChrTable(was, tags, cart) ==> now[page] == NoPage || (now[page].Prg? && now[page] == was[page])
  {
    hide Cart.ChrPages, Cart.RamPage, Cart.TablePages, Wrap;
    if ChrTable(was, tags, cart) {
      assert ChrMatches(was[page], tags, cart, page);
    }
  }

  lemma ChrTableRemapped(was: seq<Pointer>, now: seq<Pointer>, tags: seq<int>, cart: Cart, slot: nat)
    requires cart.ChrPages() > 0 && slot < |tags| && 0 <= tags[slot] < cart.ChrPages()
    requires ChrMapped(now, was, cart, cart.TablePages(), tags[slot], slot)
    ensures ChrTable(was, tags, cart) ==> ChrTable(now, tags, cart)
  {
    hide Cart.ChrPages, Cart.RamPage, Cart.TablePages, Wrap;
    if ChrTable(was, tags, cart) {
      forall a: nat | a < cart.TablePages() ensures ChrMatches(now[a], tags, cart, a) {
        assert ChrMatches(was[a], tags, cart, a);
      }
    }
  }

  lemma ChrTableReplaced(was: seq<Pointer>, mid: seq<Pointer>, now: seq<Pointer>, tags: seq<int>, cart: Cart,
                         slot: nat, page: nat)
    requires cart.ChrPages() > 0 && ChrTable(was, tags, cart) && slot < |tags| && page !in tags && page < cart.ChrPages()
    requires cart.ChrPages() <= INVALID
    requires forall i, j :: 0 <= i < j < |tags| && tags[i] == tags[j] ==> tags[i] == INVALID
    requires ChrCleared(mid, was, if tags[slot] == INVALID then 0 else cart.TablePages(), slot)
    requires ChrMapped(now, mid, cart, cart.TablePages(), page, slot)
    ensures ChrTable(now, tags[slot := page], cart)
  {
    hide Cart.ChrPages, Cart.RamPage, Cart.TablePages, Wrap;
    var tags' := tags[slot := page];
    assert tags'[slot] == page;
    forall a: nat | a < cart.TablePages() ensures ChrMatches(now[a], tags', cart, a) {
      assert ChrMatches(was[a], tags, cart, a);
    }
  }

  lemma ChrDataReplaced(data: seq<seq<Byte>>, tags: seq<int>, cart: Cart, slot: nat, page: nat)
    requires ChrData(data, tags, cart) && slot < |tags|
    ensures ChrData(data[slot := cart.Page(page)], tags[slot := page], cart)
  {
    hide Cart.Page;
  }

  lemma RamEntry(was: seq<Pointer>, now: seq<Pointer>, tags: seq<int>, cart: Cart, page: nat)
    requires cart.ChrPages() > 0 && page < cart.TablePages() <= |was| && cart.RamPage(page) != -1
    requires now == was[page := Ram(cart.RamPage(page))]
    ensures TileFrame(now, was, cart.TablePages()) && PrgLeft(now, was, cart, page)
    ensures ChrTable(was, tags, cart) ==> ChrTable(now, tags, cart) && RamStays(now, was, cart.TablePages())
  {
    hide Cart.ChrPages, Cart.RamPage, Cart.TablePages, Wrap;
    if ChrTable(was, tags, cart) {
      assert ChrMatches(was[page], tags, cart, page);
    }
  }

  lemma SoundFacts(l: Lru, n: nat, limit: nat)
    requires Sound(l, n, limit)
    ensures |l.tags| == |l.ages| == n && limit <= INVALID
    ensures forall i :: 0 <= i < n ==> l.tags[i] == INVALID || 0 <= l.tags[i] < limit
    ensures forall i, j :: 0 <= i < j < n && l.tags[i] == l.tags[j] ==> l.tags[i] == INVALID
  {
  }

  lemma LaterClock(l: Lru, n: nat, limit: nat, clock: nat)
    requires clock >= l.clock
    ensures Sound(l, n, limit) ==> Sound(l.(clock := clock), n, limit)
  {
  }

  /** Clearing the old group's entries and setting the new group's keeps the table right. */
  lemma PrgTableReplaced(was: seq<Pointer>, mid: seq<Pointer>, now: seq<Pointer>, tags: seq<int>, pages: nat,
                         slot: nat, group: nat)
    requires slot < |tags| && group !in tags && group != INVALID
    requires forall i, j :: 0 <= i < j < |tags| && tags[i] == tags[j] ==> tags[i] == INVALID
    requires |was| == pages <= 510 && PrgChanged(mid, was, tags[slot], NoPage) && PrgChanged(now, mid, group, Prg(slot, 0))
    ensures PrgTable(was, tags, pages) ==> PrgTable(now, tags[slot := group], pages)
  {
    var tags' := tags[slot := group];
    assert tags'[slot] == group;
    if PrgTable(was, tags, pages) {
      forall p | 0 <= p < pages ensures PrgMatches(now[p], tags', p) {
        assert PrgMatches(was[p], tags, p);
      }
    }
  }

  lemma PrgDataReplaced(data: seq<seq<Byte>>, tags: seq<int>, cart: Cart, slot: nat, group: nat)
    requires slot < |tags| == |data|
    ensures PrgData(data, tags, cart) ==> PrgData(data[slot := cart.Group(group)], tags[slot := group], cart)
  {
    hide Cart.Group;
  }

  lemma FirstIs(tags: seq<int>, tag: int, i: nat)
    requires i < |tags| && tags[i] == tag && tag !in tags[..i]
    ensures Find(tags, tag, 0) == i
  {
    assert forall j :: 0 <= j < i ==> tags[j] == tags[..i][j];
  }

  // ------------------------------------------------------------------ both halves of restoring

  /** No register stores its entry among the tile entries. */
  predicate NoneInTiles(cart: Cart, bank6: seq<int>)
    requires |bank6| == 5
  {
    forall i :: 1 <= i < 5 && bank6[i] < 255 ==> !InTiles(cart, bank6[i])
  }

  /** A page of the ROM is found through its entry; past its end, through an entry that is still there. */
  ghost predicate StillLeads(e: Pointer, tags: seq<int>, cart: Cart, bank: nat)
    requires cart.PrgPages() > 0
  {
    if bank < cart.PrgPages() then LeadsTo(e, tags, bank)
    else e.Prg? ==> LeadsTo(e, tags, Wrap(bank, cart.PrgPages()))
  }

  /** What the tile half leaves of the program half's entries. */
  lemma BothShow(now: seq<Pointer>, mid: seq<Pointer>, nowTiles: seq<Pointer>, midTiles: seq<Pointer>, data: seq<seq<Byte>>,
                 tags: seq<int>, cart: Cart, bank6: seq<int>, cbank: seq<int>, oks: seq<bool>)
    requires cart.Valid() && cart.PrgPages() > 0 && |bank6| == 5 && (forall i :: 0 <= i < 5 ==> 0 <= bank6[i] < 256)
    requires |cbank| == |oks| == 8 && (forall i :: 0 <= i < 8 ==> 0 <= cbank[i] < 256) && |now| == |mid| == TABLE
    requires now[..cart.PrgPages()] == mid[..cart.PrgPages()]
    requires nowTiles == now[cart.PrgPages()..] && midTiles == mid[cart.PrgPages()..]
    requires if cart.ChrPages() == 0 then now == mid else TileFrame(nowTiles, midTiles, cart.TablePages())
    requires cart.ChrPages() > 0 && (forall i :: 0 <= i < 8 ==> oks[i]) ==> AllPrgLeft(nowTiles, midTiles, cart, cbank, 8)
    requires Fits(cart, bank6) ==> forall i :: 1 <= i < 5 && bank6[i] < 255 ==>
      LeadsTo(mid[bank6[i]], tags, Wrap(bank6[i], cart.PrgPages())) && Shows(mid[bank6[i]], data, cart, bank6[i])
    ensures Fits(cart, bank6) ==> forall i :: 1 <= i < 5 && bank6[i] < 255 ==>
      StillLeads(now[bank6[i]], tags, cart, bank6[i]) && (!InTiles(cart, bank6[i]) ==> Shows(now[bank6[i]], data, cart, bank6[i]))
    ensures Fits(cart, bank6) && (cart.ChrPages() == 0 || forall i :: 0 <= i < 8 ==> oks[i]) ==>
      forall i :: 1 <= i < 5 && bank6[i] < 255 && InTiles(cart, bank6[i]) ==>
        (Shows(now[bank6[i]], data, cart, bank6[i]) <==> Spared(cart, cbank, bank6[i] - cart.PrgPages(), 8))
    ensures Fits(cart, bank6) && NoneInTiles(cart, bank6) ==>
      forall i :: 1 <= i < 5 && bank6[i] < 255 ==> Shows(now[bank6[i]], data, cart, bank6[i])
  {
    hide Fits, Wrap, PrgMatches, Cart.Group, Rewrites;
    if Fits(cart, bank6) {
      forall i | 1 <= i < 5 && bank6[i] < 255
        ensures StillLeads(now[bank6[i]], tags, cart, bank6[i])
        ensures !InTiles(cart, bank6[i]) ==> Shows(now[bank6[i]], data, cart, bank6[i])
        ensures InTiles(cart, bank6[i]) && (cart.ChrPages() == 0 || forall i :: 0 <= i < 8 ==> oks[i]) ==>
          (Shows(now[bank6[i]], data, cart, bank6[i]) <==> Spared(cart, cbank, bank6[i] - cart.PrgPages(), 8))
      {
        OneShows(now, mid, nowTiles, midTiles, data, tags, cart, bank6[i], cbank, oks);
      }
    }
  }

  lemma OneShows(now: seq<Pointer>, mid: seq<Pointer>, nowTiles: seq<Pointer>, midTiles: seq<Pointer>, data: seq<seq<Byte>>,
                 tags: seq<int>, cart: Cart, bank: nat, cbank: seq<int>, oks: seq<bool>)
    requires cart.Valid() && cart.PrgPages() > 0 && bank < 255 && |now| == |mid| == TABLE
    requires |cbank| == |oks| == 8 && (forall i :: 0 <= i < 8 ==> 0 <= cbank[i] < 256)
    requires now[..cart.PrgPages()] == mid[..cart.PrgPages()]
    requires nowTiles == now[cart.PrgPages()..] && midTiles == mid[cart.PrgPages()..]
    requires if cart.ChrPages() == 0 then now == mid else TileFrame(nowTiles, midTiles, cart.TablePages())
    requires cart.ChrPages() > 0 && (forall i :: 0 <= i < 8 ==> oks[i]) ==> AllPrgLeft(nowTiles, midTiles, cart, cbank, 8)
    requires LeadsTo(mid[bank], tags, Wrap(bank, cart.PrgPages())) && Shows(mid[bank], data, cart, bank)
    ensures StillLeads(now[bank], tags, cart, bank) && (!InTiles(cart, bank) ==> Shows(now[bank], data, cart, bank))
    ensures InTiles(cart, bank) && (cart.ChrPages() == 0 || forall i :: 0 <= i < 8 ==> oks[i]) ==>
      (Shows(now[bank], data, cart, bank) <==> Spared(cart, cbank, bank - cart.PrgPages(), 8))
  {
    InsideOrPast(bank, cart.PrgPages());
    hide Wrap, PrgMatches, Cart.Group, Rewrites;
    if cart.ChrPages() > 0 {
      EntryStays(now, mid, cart, bank);
      if bank >= cart.PrgPages() {
        assert now[bank] == nowTiles[bank - cart.PrgPages()] && mid[bank] == midTiles[bank - cart.PrgPages()];
      }
    }
  }

  /** The tile table after both halves holds program pointers only if a register stored one. */
  lemma TilesAre(now: seq<Pointer>, mid: seq<Pointer>, was: seq<Pointer>, cart: Cart, bank6: seq<int>)
    requires cart.Valid() && |bank6| == 5 && |was| >= 2048 && Overwritten(mid, was, cart, bank6, 5)
    requires if cart.ChrPages() == 0 then now == mid else TileFrame(now, mid, cart.TablePages())
    requires NonePrg(was, cart.TileEntries())
    ensures NoneInTiles(cart, bank6) ==> NonePrg(now, cart.TileEntries())
    ensures cart.ChrPages() == 0 ==>
      forall a :: 0 <= a < 8 ==> if PastRegister(cart, bank6, a, 5) then now[a].Prg? else now[a] == was[a]
    ensures NoneInTiles(cart, bank6) ==> forall a :: 0 <= a < cart.TileEntries() ==> !PastRegister(cart, bank6, a, 5)
  {
  }

  /** All windows can be mapped again and no tile entry is overwritten only without such a register. */
  lemma OnlyWithNoneInTiles(instant: seq<Pointer>, tiles: seq<Pointer>, data: seq<seq<Byte>>, cart: Cart, bank6: seq<int>)
    requires cart.Valid() && cart.PrgPages() > 0 && |bank6| == 5 && (forall i :: 0 <= i < 5 ==> 0 <= bank6[i] < 256)
    requires |instant| == TABLE && tiles == instant[cart.PrgPages()..]
    requires NonePrg(tiles, cart.TileEntries())
    requires forall i :: 1 <= i < 5 && bank6[i] < 255 ==> Shows(instant[bank6[i]], data, cart, bank6[i])
    ensures NoneInTiles(cart, bank6)
  {
    hide Wrap, Cart.Group;
    forall i | 1 <= i < 5 && bank6[i] < 255 ensures !InTiles(cart, bank6[i]) {
      if bank6[i] >= cart.PrgPages() {
        assert instant[bank6[i]] == tiles[bank6[i] - cart.PrgPages()];
      }
    }
  }

  /** Without tile ROM an entry shows its work memory exactly if no register stored another there. */
  lemma WorkMemoryShows(now: seq<Pointer>, was: seq<Pointer>, data: seq<seq<Byte>>, cart: Cart, bank6: seq<int>, slots: nat)
    requires cart.ChrPages() == 0 && |bank6| == 5 && |now| >= 8 && |was| >= 8 ==> forall a :: 0 <= a < 8 ==>
      was[a] == Ram(a) && if PastRegister(cart, bank6, a, 5) then now[a].Prg? else now[a] == was[a]
    requires |bank6| == 5 && |now| >= 8 && |was| >= 8
    ensures cart.ChrPages() == 0 ==>
      forall a :: 0 <= a < 8 ==> (TileShows(now[a], data, cart, a, slots) <==> !PastRegister(cart, bank6, a, 5))
  {
    hide PastRegister;
  }

  // ------------------------------------------------------------------ starting up

  /** Slot k holds group k, for the first i slots; the others are empty. */
  ghost predicate Preloaded(tags: seq<int>, i: nat) {
    forall k :: 0 <= k < |tags| ==> tags[k] == if k < i then k else INVALID
  }

  /** And it was loaded at time k + 1. */
  ghost predicate PreloadedAt(ages: seq<int>, i: nat) {
    forall k :: 0 <= k < |ages| ==> ages[k] == if k < i then k + 1 else 0
  }

  lemma FetchPreloads(l: Lru, active: set<int>, i: nat)
    requires i < |l.tags| == |l.ages| && |l.tags| <= INVALID && Preloaded(l.tags, i)
    ensures Preloaded(Fetch(l, active, i).tags, i + 1)
    ensures PreloadedAt(l.ages, i) && l.clock == i ==> PreloadedAt(Fetch(l, active, i).ages, i + 1)
  {
    assert l.tags[i] == INVALID;
    FirstIs(l.tags, INVALID, i);
    assert i !in l.tags;
  }

  lemma FetchClock(l: Lru, active: set<int>, tag: int)
    requires 0 < |l.tags| == |l.ages|
    ensures Fetch(l, active, tag).clock == l.clock + 1
  {
  }

  /** The entries below n that stand for work memory are set. */
  ghost predicate RamsMapped(instant: seq<Pointer>, cart: Cart, n: nat) {
    n <= |instant| && forall a :: 0 <= a < n && cart.RamPage(a) != -1 ==> instant[a] == Ram(cart.RamPage(a))
  }

  lemma RamEntryFree(instant: seq<Pointer>, tags: seq<int>, cart: Cart, page: nat)
    requires ChrTable(instant, tags, cart) && page < cart.TablePages() && cart.RamPage(page) != -1
    ensures ChrTable(instant[page := Ram(cart.RamPage(page))], tags, cart)
  {
    if cart.ChrPages() > 0 {
      RamEntry(instant, instant[page := Ram(cart.RamPage(page))], tags, cart, page);
    }
  }

  lemma NoTileTable(instant: seq<Pointer>, tags: seq<int>, cart: Cart, page: nat)
    requires ChrTable(instant, tags, cart) && cart.ChrPages() == 0 && page < |instant|
    ensures ChrTable(instant[page := Ram(page)], tags, cart)
  {
  }

  /** The first page a switch asks for; the others are of the same group. */
  function SwitchPage(romPages: nat, s: Switch): (page: nat)
    requires romPages > 0
    ensures page < 2 * romPages
  {
    match s
    case Bank(_, page) => Masked(page, 2 * romPages - 1)
    case Low(page) => 2 * Masked(page, romPages - 1)
    case High(page) => 2 * Masked(page, romPages - 1)
    case All(page) => 4 * Masked(page, (romPages - 1) / 2)
  }

  lemma SwitchedAreBytes(romPages: nat, banks: seq<int>, s: Switch)
    requires 0 < romPages <= 255 && |banks| == 5 && (s.Bank? ==> 1 <= s.i <= 4)
    requires forall i :: 0 <= i < 5 ==> 0 <= banks[i] < 256
    ensures forall i :: 0 <= i < 5 ==> 0 <= Switched(romPages, banks, s)[i] < 256
  {
    hide Masked, Part;
  }

  /** The windows that a switch sets lead to the pages it maps there. */
  lemma SetWindowsLead(windows: seq<Pointer>, e: Pointer, tags: seq<int>, romPages: nat, s: Switch)
    requires |windows| == 5 && romPages > 0 && LeadsTo(e, tags, SwitchPage(romPages, s)) && (s.Bank? ==> 1 <= s.i <= 4)
    ensures forall i :: 1 <= i < 5 && Sets(s, i) ==> LeadsTo(WindowsSet(windows, s, e)[i], tags, SetPage(romPages, s, i))
  {
    hide Masked;
    forall i | 1 <= i < 5 && Sets(s, i) ensures LeadsTo(WindowsSet(windows, s, e)[i], tags, SetPage(romPages, s, i)) {
      var page := SwitchPage(romPages, s);
      match s
      case Bank(_, _) =>
      case Low(_) => NextPage(e, tags, page, i - 1);
      case High(_) => NextPage(e, tags, page, i - 3);
      case All(_) => NextPage(e, tags, page, i - 1);
    }
  }

  lemma NextPage(e: Pointer, tags: seq<int>, page: nat, k: nat)
    requires LeadsTo(e, tags, page) && page % 4 + k < 4
    ensures LeadsTo(Onward(e, k), tags, page + k)
  {
  }

  /** The other windows still lead where they led: the registers protect their groups, as long as
      every page fits its register. */
  lemma OtherWindowsLead(windows: seq<Pointer>, e: Pointer, l: Lru, r: Lru, cart: Cart, banks: seq<int>, s: Switch)
    requires |windows| == |banks| == 5 && 0 < cart.romPages <= 128 && (s.Bank? ==> 1 <= s.i <= 4)
    requires Sound(l, PRG_CACHE_GROUPS, cart.PrgGroups()) && l.clock < MAX_AGE
    requires forall i :: 0 <= i < 5 ==> 0 <= banks[i] < 256
    requires r.tags == l.tags || r == Fetch(l, ActiveGroups(Switched(cart.romPages, banks, s)), SwitchPage(cart.romPages, s) / 4)
    ensures var now := Switched(cart.romPages, banks, s);
      forall i :: 1 <= i < 5 && !Sets(s, i) && now[i] >= 0 && LeadsTo(windows[i], l.tags, now[i]) ==>
        LeadsTo(WindowsSet(windows, s, e)[i], r.tags, now[i])
  {
    var now := Switched(cart.romPages, banks, s);
    var active, group, limit: nat := ActiveGroups(now), SwitchPage(cart.romPages, s) / 4, cart.PrgGroups();
    SwitchedGroup(cart, banks, s);
    SwitchedAreBytes(cart.romPages, banks, s);
    FourGroups(now);
    hide Sound, Fetch, ActiveGroups, Switched, SwitchPage, Choose;
    if r.tags != l.tags {
      ProtectedStay(l, active, group, PRG_CACHE_GROUPS, limit);
    }
    forall i | 1 <= i < 5 && !Sets(s, i) && now[i] >= 0 && LeadsTo(windows[i], l.tags, now[i])
      ensures LeadsTo(WindowsSet(windows, s, e)[i], r.tags, now[i])
    {
      assert WindowsSet(windows, s, e)[i] == windows[i];
    }
  }

  /** The first window that a switch sets. */
  ghost function FirstSet(s: Switch): (i: nat)
    requires s.Bank? ==> 1 <= s.i <= 4
    ensures 1 <= i <= 4 && Sets(s, i)
  {
    match s
    case Bank(i, _) => i
    case Low(_) => 1
    case High(_) => 3
    case All(_) => 1
  }

  lemma SwitchedGroup(cart: Cart, banks: seq<int>, s: Switch)
    requires |banks| == 5 && 0 < cart.romPages <= 128 && (s.Bank? ==> 1 <= s.i <= 4)
    ensures SwitchPage(cart.romPages, s) / 4 in ActiveGroups(Switched(cart.romPages, banks, s))
    ensures SwitchPage(cart.romPages, s) / 4 < cart.PrgGroups()
  {
    var r, i := cart.romPages, FirstSet(s);
    SetTracks(r, banks, s, i);
    FirstPage(r, s);
    hide Switched, SetPage, SwitchPage, FirstSet;
  }

  lemma FirstPage(romPages: nat, s: Switch)
    requires romPages > 0 && (s.Bank? ==> 1 <= s.i <= 4)
    ensures SetPage(romPages, s, FirstSet(s)) == SwitchPage(romPages, s)
  {
    hide Masked;
  }

  lemma FourGroups(banks: seq<int>)
    requires |banks| == 5 && forall i :: 0 <= i < 5 ==> 0 <= banks[i] < 256
    ensures |ActiveGroups(banks)| <= 4 && INVALID !in ActiveGroups(banks)
    ensures forall i :: 1 <= i < 5 ==> banks[i] / 4 in ActiveGroups(banks)
  {
    var four := [banks[1] / 4, banks[2] / 4, banks[3] / 4, banks[4] / 4];
    assert ActiveGroups(banks) == Elements(four);
    ElementsSize(four);
  }

  // ------------------------------------------------------------------ limits

  /** After a failed read the slot keeps its tag. Its bytes are safe to use, whatever the read left
      there, exactly if the slot was empty. */
  lemma FailedReadIsCoherentIff(data: seq<seq<Byte>>, tags: seq<int>, cart: Cart, slot: nat)
    requires PrgData(data, tags, cart) && slot < |tags|
    ensures (forall junk: seq<Byte> | |junk| == PRG_GROUP_BYTES :: PrgData(data[slot := junk], tags, cart)) <==>
      tags[slot] == INVALID
  {
    hide Cart.Group;
    if tags[slot] != INVALID {
      var group := cart.Group(tags[slot]);
      var junk := group[0 := if group[0] == 0 then 1 else 0];
      var after := data[slot := junk];
      assert junk[0] != group[0];
      assert after[slot] != group && !PrgData(after, tags, cart);
    }
  }

  lemma FailedTileReadIsCoherentIff(data: seq<seq<Byte>>, tags: seq<int>, cart: Cart, slot: nat)
    requires ChrData(data, tags, cart) && slot < |tags|
    ensures (forall junk: seq<Byte> | |junk| == CHR_PAGE_BYTES :: ChrData(data[slot := junk], tags, cart)) <==>
      tags[slot] == INVALID
  {
    hide Cart.Page;
    if tags[slot] != INVALID {
      var page := cart.Page(tags[slot]);
      var junk := page[0 := if page[0] == 0 then 1 else 0];
      var after := data[slot := junk];
      assert junk[0] != page[0];
      assert after[slot] != page && !ChrData(after, tags, cart);
    }
  }

  /** With its entries cleared and its tag kept, a slot that held a group breaks the table. */
  lemma UnmappedIsCoherentIff(was: seq<Pointer>, now: seq<Pointer>, data: seq<seq<Byte>>, junk: seq<Byte>,
                              tags: seq<int>, cart: Cart, slot: nat)
    requires slot < |tags| == |data| && |was| == cart.PrgPages() <= 510 && PrgChanged(now, was, tags[slot], NoPage)
    requires tags[slot] == INVALID || 0 <= tags[slot] < cart.PrgGroups()
    ensures PrgTable(was, tags, cart.PrgPages()) && PrgData(data, tags, cart) ==>
      (PrgTable(now, tags, cart.PrgPages()) && PrgData(data[slot := junk], tags, cart) <==> tags[slot] == INVALID)
  {
    hide Cart.Group;
    if tags[slot] == INVALID {
      assert now == was;
    } else {
      var p := 4 * tags[slot];
      assert now[p] == NoPage && !PrgMatches(now[p], tags, p);
    }
  }

  /** An entry past the end of the ROM that leads to its group still does after the program lookup of
      another page exactly if the looked-up group was resident or took a slot of another group. */
  lemma AliasStaysIff(e: Pointer, l: Lru, active: set<int>, group: int, limit: nat, q: nat)
    requires Sound(l, PRG_CACHE_GROUPS, limit) && 0 <= group < limit && q / 4 < limit
    requires e.Prg? && PrgMatches(e, l.tags, q)
    ensures PrgMatches(e, Fetch(l, active, group).tags, q) <==>
      group in l.tags || l.tags[Choose(l, active)] != q / 4
  {
    hide Sound, Fetch, Choose;
    SoundFacts(l, PRG_CACHE_GROUPS, limit);
    TagStaysIff(l, active, group, PRG_CACHE_GROUPS, limit, e.slot, q / 4);
  }

  /** Banks inside the ROM, unmapped, or clearly past its last group never crowd each other out. */
  lemma PlainBanksAreEnough(cart: Cart, bank6: seq<int>)
    requires cart.PrgPages() > 0 && |bank6| == 5 && forall i :: 0 <= i < 5 ==> 0 <= bank6[i] < 256
    requires forall i :: 1 <= i < 5 ==> bank6[i] < cart.PrgPages() || bank6[i] >= 255 || bank6[i] / 4 >= cart.PrgGroups()
    ensures Enough(ActiveGroups(bank6), WantedGroups(cart, bank6, 5), PRG_CACHE_GROUPS, cart.PrgGroups())
  {
    hide WantedGroups, Cart.PrgPages, Cart.PrgGroups;
    var all: seq<int> := seq(4, i requires 0 <= i < 4 => OnlyGroup(cart, bank6[i + 1]));
    var both := Elements(WantedGroups(cart, bank6, 5)) + InRange(ActiveGroups(bank6), cart.PrgGroups());
    forall x | x in both ensures x in Elements(all) {
      if x in InRange(ActiveGroups(bank6), cart.PrgGroups()) {
        var i :| 1 <= i < 5 && bank6[i] / 4 == x;
        InsideRom(cart, bank6[i]);
        assert all[i - 1] == x;
      } else {
        WantedAmong(cart, bank6, 5, x);
        var i :| 1 <= i < 5 && bank6[i] < 255 && GroupOf(cart, bank6[i]) == x;
        InsideRom(cart, bank6[i]);
        assert all[i - 1] == x;
      }
    }
    SubsetSize(both, Elements(all));
    ElementsSize(all);
  }

  /** The one group a bank stands for: the group it names, or the one it wraps to. */
  ghost function OnlyGroup(cart: Cart, bank: nat): int
    requires cart.PrgPages() > 0
  {
    if bank >= 255 || bank < cart.PrgPages() then bank / 4 else GroupOf(cart, bank)
  }

  lemma InsideRom(cart: Cart, bank: nat)
    requires cart.PrgPages() > 0
    ensures bank < cart.PrgPages() ==> GroupOf(cart, bank) == bank / 4
  {
    if bank < cart.PrgPages() {
      SmallMod(bank, cart.PrgPages());
    }
  }

  lemma {:induction false} WantedAmong(cart: Cart, bank6: seq<int>, k: nat, x: int)
    requires cart.PrgPages() > 0 && k <= |bank6| == 5 && forall i :: 0 <= i < 5 ==> 0 <= bank6[i] < 256
    requires x in WantedGroups(cart, bank6, k)
    ensures exists i :: 1 <= i < k && bank6[i] < 255 && GroupOf(cart, bank6[i]) == x
  {
    hide GroupOf;
    if bank6[k - 1] >= 255 || GroupOf(cart, bank6[k - 1]) != x {
      WantedAmong(cart, bank6, k - 1, x);
    }
  }

  /** The group of a register that holds a page past the end: it wraps to group 0 but names the last. */
  lemma PastEndGroups(cart: Cart, bank6: seq<int>, i: nat)
    requires cart.PrgPages() > 0 && cart.romPages <= 255 && Reached(cart.romPages, bank6) && 1 <= i <= 4
    ensures PastEnd(cart.romPages, bank6, i) ==>
      GroupOf(cart, bank6[i]) == 0 && bank6[i] / 4 == cart.romPages / 2 && cart.PrgGroups() == cart.romPages / 2 + 1
    ensures !PastEnd(cart.romPages, bank6, i) ==> GroupOf(cart, bank6[i]) == bank6[i] / 4 < cart.PrgGroups()
  {
    var pages := cart.PrgPages();
    if PastEnd(cart.romPages, bank6, i) {
      QuotientIs(bank6[i], pages, 1, bank6[i] - pages);
    } else {
      SmallMod(bank6[i], pages);
    }
  }

  /** The groups that restoring wants or protects. */
  ghost function InPlay(cart: Cart, bank6: seq<int>): set<int>
    requires cart.PrgPages() > 0 && |bank6| == 5 && forall i :: 0 <= i < 5 ==> 0 <= bank6[i] < 256
  {
    Elements(WantedGroups(cart, bank6, 5)) + InRange(ActiveGroups(bank6), cart.PrgGroups())
  }

  lemma InPlayIs(cart: Cart, bank6: seq<int>, x: int)
    requires cart.PrgPages() > 0 && |bank6| == 5 && forall i :: 0 <= i < 5 ==> 0 <= bank6[i] < 256
    requires x in InPlay(cart, bank6)
    ensures exists i :: 1 <= i <= 4 && ((bank6[i] < 255 && GroupOf(cart, bank6[i]) == x) || bank6[i] / 4 == x)
  {
    hide WantedGroups, Cart.PrgPages, Cart.PrgGroups;
    if x in Elements(WantedGroups(cart, bank6, 5)) {
      WantedAmong(cart, bank6, 5, x);
      var i :| 1 <= i < 5 && bank6[i] < 255 && GroupOf(cart, bank6[i]) == x;
      assert 1 <= i <= 4;
    }
  }

  lemma RegisterIsInPlay(cart: Cart, bank6: seq<int>, i: nat)
    requires cart.PrgPages() > 0 && |bank6| == 5 && (forall i :: 0 <= i < 5 ==> 0 <= bank6[i] < 256) && 1 <= i <= 4
    ensures bank6[i] < 255 ==> GroupOf(cart, bank6[i]) in Elements(WantedGroups(cart, bank6, 5))
    ensures bank6[i] < 255 ==> GroupOf(cart, bank6[i]) in InPlay(cart, bank6)
    ensures bank6[i] / 4 < cart.PrgGroups() ==> bank6[i] / 4 in InPlay(cart, bank6)
  {
    hide WantedGroups, Cart.PrgPages, Cart.PrgGroups, GroupOf;
    WantedNext(cart, bank6, 4);
    if i == 4 && bank6[4] < 255 {
      var front, w := WantedGroups(cart, bank6, 4), WantedGroups(cart, bank6, 5);
      assert w[|front|] == GroupOf(cart, bank6[4]);
    }
  }

  /** Registers that bank switching can leave make the cache too small exactly when they are crowded. */
  lemma SwitchedBanksFitIff(cart: Cart, bank6: seq<int>)
    requires cart.PrgPages() > 0 && cart.romPages <= 255 && Reached(cart.romPages, bank6) && 0 <= bank6[0] < 256
    ensures Fits(cart, bank6) <==> !Crowded(cart.romPages, bank6)
  {
    hide WantedGroups, Apart, InPlay;
    var r := cart.romPages;
    if PastEnd(r, bank6, 3) && !PastEnd(r, bank6, 4) {
      OnePastEnd(cart, bank6, 3, 4);
    } else if PastEnd(r, bank6, 4) && !PastEnd(r, bank6, 3) && bank6[4] != 255 {
      OnePastEnd(cart, bank6, 4, 3);
    } else {
      OthersFit(cart, bank6);
    }
  }

  /** One half past the end in register `out`, a page of the ROM in register `inside`. */
  lemma OnePastEnd(cart: Cart, bank6: seq<int>, out: nat, inside: nat)
    requires cart.PrgPages() > 0 && cart.romPages <= 255 && Reached(cart.romPages, bank6) && 0 <= bank6[0] < 256
    requires (out == 3 && inside == 4) || (out == 4 && inside == 3)
    requires PastEnd(cart.romPages, bank6, out) && !PastEnd(cart.romPages, bank6, inside) && bank6[out] != 255
    ensures Enough(ActiveGroups(bank6), WantedGroups(cart, bank6, 5), PRG_CACHE_GROUPS, cart.PrgGroups()) <==>
      !Apart(cart.romPages, bank6[1] / 4, bank6[2] / 4, bank6[inside] / 4)
  {
    hide WantedGroups, Cart.PrgPages, Cart.PrgGroups, GroupOf;
    var last := cart.romPages / 2;
    var five := [0, last, bank6[1] / 4, bank6[2] / 4, bank6[inside] / 4];
    FiveInPlay(cart, bank6, out, inside, five);
    RegisterIsInPlay(cart, bank6, 1);
    RegisterIsInPlay(cart, bank6, out);
    PastEndGroups(cart, bank6, 1);
    PastEndGroups(cart, bank6, out);
    if Apart(cart.romPages, five[2], five[3], five[4]) {
      assert forall i, j :: 0 <= i < j < 5 ==> five[i] != five[j];
      DistinctSize(five);
      SubsetSize({0, five[2]}, Elements(WantedGroups(cart, bank6, 5)));
    } else {
      assert exists i, j :: 0 <= i < j < 5 && five[i] == five[j] by {
        RepeatedAmongFive(five);
      }
      RepeatIsSmaller(five);
    }
  }

  lemma RepeatedAmongFive(five: seq<int>)
    requires |five| == 5 && five[0] == 0
    requires five[2] == 0 || five[3] == 0 || five[4] == 0 || five[1] == 0 || five[2] == five[1] || five[3] == five[1] || five[4] == five[1]
      || five[2] == five[3] || five[2] == five[4] || five[3] == five[4]
    ensures exists i, j :: 0 <= i < j < 5 && five[i] == five[j]
  {
  }

  lemma RepeatIsSmaller(tags: seq<int>)
    requires exists i, j :: 0 <= i < j < |tags| && tags[i] == tags[j]
    ensures |Elements(tags)| < |tags|
  {
    var i, j :| 0 <= i < j < |tags| && tags[i] == tags[j];
    var rest := tags[..j] + tags[j + 1..];
    forall x | x in tags ensures x in rest {
      var k :| 0 <= k < |tags| && tags[k] == x;
      if k < j {
        assert rest[k] == x;
      } else if k > j {
        assert rest[k - 1] == x;
      } else {
        assert rest[i] == x;
      }
    }
    SubsetSize(Elements(tags), Elements(rest));
    ElementsSize(rest);
  }

  /** Then exactly these five groups are in play. */
  lemma FiveInPlay(cart: Cart, bank6: seq<int>, out: nat, inside: nat, five: seq<int>)
    requires cart.PrgPages() > 0 && cart.romPages <= 255 && Reached(cart.romPages, bank6) && 0 <= bank6[0] < 256
    requires (out == 3 && inside == 4) || (out == 4 && inside == 3)
    requires PastEnd(cart.romPages, bank6, out) && !PastEnd(cart.romPages, bank6, inside) && bank6[out] != 255
    requires five == [0, cart.romPages / 2, bank6[1] / 4, bank6[2] / 4, bank6[inside] / 4]
    ensures InPlay(cart, bank6) == Elements(five)
  {
    hide InPlay, Cart.PrgGroups, GroupOf, PastEnd;
    PastEndGroups(cart, bank6, 1);
    PastEndGroups(cart, bank6, 2);
    PastEndGroups(cart, bank6, 3);
    PastEndGroups(cart, bank6, 4);
    OnlyHighPastEnd(cart.romPages, bank6);
    forall x | x in InPlay(cart, bank6) ensures x in five {
      InPlayIs(cart, bank6, x);
      var i :| 1 <= i <= 4 && ((bank6[i] < 255 && GroupOf(cart, bank6[i]) == x) || bank6[i] / 4 == x);
      assert five[0] == 0 && five[1] == cart.romPages / 2;
      assert i == 1 || i == 2 || i == inside || i == out;
      assert i == 1 ==> x == five[2];
      assert i == 2 ==> x == five[3];
      assert i == inside ==> x == five[4];
    }
    RegisterIsInPlay(cart, bank6, 1);
    RegisterIsInPlay(cart, bank6, 2);
    RegisterIsInPlay(cart, bank6, 3);
    RegisterIsInPlay(cart, bank6, 4);
    forall x | x in five ensures x in InPlay(cart, bank6) {
      var k :| 0 <= k < 5 && five[k] == x;
    }
  }

  lemma OnlyHighPastEnd(romPages: nat, bank6: seq<int>)
    requires |bank6| == 5
    ensures !PastEnd(romPages, bank6, 1) && !PastEnd(romPages, bank6, 2)
  {
  }

  /** With both halves or neither past the end, or the upper one standing for no page, all fits. */
  lemma OthersFit(cart: Cart, bank6: seq<int>)
    requires cart.PrgPages() > 0 && cart.romPages <= 255 && Reached(cart.romPages, bank6) && 0 <= bank6[0] < 256
    requires PastEnd(cart.romPages, bank6, 3) ==> PastEnd(cart.romPages, bank6, 4)
    requires PastEnd(cart.romPages, bank6, 4) ==> PastEnd(cart.romPages, bank6, 3) || bank6[4] == 255
    ensures Enough(ActiveGroups(bank6), WantedGroups(cart, bank6, 5), PRG_CACHE_GROUPS, cart.PrgGroups())
  {
    hide InPlay, Cart.PrgGroups, GroupOf, PastEnd, WantedGroups;
    PastEndGroups(cart, bank6, 1);
    PastEndGroups(cart, bank6, 2);
    PastEndGroups(cart, bank6, 3);
    PastEndGroups(cart, bank6, 4);
    OnlyHighPastEnd(cart.romPages, bank6);
    var four := [bank6[1] / 4, bank6[2] / 4, if PastEnd(cart.romPages, bank6, 3) then 0 else bank6[3] / 4, bank6[4] / 4];
    forall x | x in InPlay(cart, bank6) ensures x in four {
      InPlayIs(cart, bank6, x);
      var i :| 1 <= i <= 4 && ((bank6[i] < 255 && GroupOf(cart, bank6[i]) == x) || bank6[i] / 4 == x);
      assert i == 1 || i == 2 || i == 3 || i == 4;
      assert i == 1 ==> x == four[0];
      assert i == 2 ==> x == four[1];
      assert i == 3 ==> x == four[2] || x == four[3];
      assert i == 4 ==> x == four[2] || x == four[3];
    }
    InPlaySize(cart, bank6, four);
  }

  lemma InPlaySize(cart: Cart, bank6: seq<int>, four: seq<int>)
    requires cart.PrgPages() > 0 && |bank6| == 5 && (forall i :: 0 <= i < 5 ==> 0 <= bank6[i] < 256) && |four| <= PRG_CACHE_GROUPS
    requires forall x :: x in InPlay(cart, bank6) ==> x in four
    ensures Enough(ActiveGroups(bank6), WantedGroups(cart, bank6, 5), PRG_CACHE_GROUPS, cart.PrgGroups())
  {
    hide WantedGroups, ActiveGroups, Cart.PrgGroups;
    var both := InPlay(cart, bank6);
    forall x | x in both ensures x in Elements(four) {
    }
    SubsetSize(both, Elements(four));
    ElementsSize(four);
  }

  // ------------------------------------------------------------------ what a window reads

  /** Byte `at` of the program ROM is in its group, and behind the ROM the last group is padded. */
  lemma GroupByte(cart: Cart, at: nat)
    ensures cart.Group(at / 32768)[at % 32768] == if at < |cart.prg| then cart.prg[at] else 0xFF
  {
    DivMod(at, 32768);
  }

  lemma PageByte(cart: Cart, at: nat)
    ensures cart.Page(at / 1024)[at % 1024] == if at < |cart.chr| then cart.chr[at] else 0xFF
  {
    DivMod(at, 1024);
  }

  /** Through an entry that shows a bank, the bytes of the ROM are read, modulo its size. */
  lemma ShownBytes(e: Pointer, data: seq<seq<Byte>>, cart: Cart, bank: nat, k: nat)
    requires cart.Valid() && cart.PrgPages() > 0 && Shows(e, data, cart, bank) && k < 8192
    ensures var at := bank % (2 * cart.romPages) * 8192 + k;
      e.Prg? && 0 <= e.slot < |data| && 0 <= e.part < 4 && at < |cart.prg|
      && e.part * 8192 + k < |data[e.slot]| && data[e.slot][e.part * 8192 + k] == cart.prg[at]
  {
    var q := Wrap(bank, cart.PrgPages());
    var at := q * 8192 + k;
    QuotientIs(at, 32768, q / 4, q % 4 * 8192 + k);
    GroupByte(cart, at);
    hide Cart.Group;
  }

  lemma TileBytes(e: Pointer, data: seq<seq<Byte>>, cart: Cart, bank: nat, slots: nat, k: nat)
    requires cart.ChrPages() > 0 && cart.RamPage(bank) == -1 && |cart.chr| % 1024 == 0
    requires TileShows(e, data, cart, bank, slots) && k < 1024
    ensures var at := bank % (|cart.chr| / 1024) * 1024 + k;
      e.Chr? && 0 <= e.slot < |data| && at < |cart.chr| && |data[e.slot]| == 1024 && data[e.slot][k] == cart.chr[at]
  {
    var q := Wrap(bank, cart.ChrPages());
    var at := q * 1024 + k;
    QuotientIs(at, 1024, q, k);
    PageByte(cart, at);
    hide Cart.Page, Cart.RamPage;
  }

  /** Which tile banks stand for work memory: two of mapper 74, from 8 on if it has 32 program pages, and
      64 to 127 of mapper 119, eight over and over. */
  lemma RamPageIs(cart: Cart, page: nat)
    ensures cart.mapper == 74 && cart.romPages != 32 ==> cart.RamPage(page) == if page < 2 then page else -1
    ensures cart.mapper == 74 && cart.romPages == 32 ==> cart.RamPage(page) == if 8 <= page <= 9 then page - 8 else -1
    ensures cart.mapper == 119 && 64 <= page < 128 ==> cart.RamPage(page) == (page - 64) % 8
    ensures cart.mapper == 119 && !(64 <= page < 128) ==> cart.RamPage(page) == -1
    ensures cart.mapper != 74 && cart.mapper != 119 ==> cart.RamPage(page) == -1
  {
  }
}
