/**
 The sprite bank cache: eight slots of tile banks, replaced in clock order, with a map from
 banks back to slots.

 Once a frame `RecacheSprites` lists the banks that visible sprites use, keeps those that are
 cached and loads those that are not. The clock hand must skip the kept ones, and must come to
 rest: the contract says that eight positions are always enough.
 */
module SpriteCache {
  import opened Collections

  type Byte = b: int | 0 <= b < 256
  /** A signed byte: -1 for a bank that is not cached, the slot number plus FIRST otherwise. */
  type SByte = s: int | -128 <= s < 128

  const FIRST := 8
  const MAX := 8

  /** What the picture unit left behind: sprite table, bank numbers per row, scroll flags. */
  datatype Frame = Frame(tall: bool, oam: seq<Byte>, banks: seq<Byte>, scroll: seq<Byte>) {

    predicate Complete() {
      |oam| == 256 && |banks| >= 240 && |scroll| >= 960
    }

    predicate Visible(i: nat)
      requires Complete() && i < 64
    {
      oam[4 * i] < 240
    }

    /** The tile bank sprite i draws from. */
    function Bank(i: nat): Byte
      requires Complete() && i < 64 && Visible(i)
    {
      var y, t := oam[4 * i], oam[4 * i + 1];
      var table := if tall then t % 2 * 4 else if scroll[4 * y] >= 128 then 4 else 0;
      banks[y / 8 * 8 + table + t / 64]
    }
  }

  // ------------------------------------------------------------------ meaning

  /** Where in the bank numbers a sprite's bank is: in its row of eight, the lower or the upper half, and
      there by the top two bits of the tile. The half is the tile's low bit for tall sprites, and the
      top bit of the row's scroll byte for others. */
  function EntryOf(f: Frame, i: nat): (e: nat)
    requires f.Complete() && i < 64 && f.oam[4 * i] < 240
    ensures e < 240
  {
    var row, tile := f.oam[4 * i] / 8, f.oam[4 * i + 1];
    var upper := if f.tall then tile % 2 == 1 else f.scroll[4 * f.oam[4 * i]] >= 128;
    8 * row + (if upper then 4 else 0) + tile / 64
  }

  /** The banks that the visible sprites of a frame are drawn from. */
  ghost function BanksInUse(f: Frame): set<Byte>
    requires f.Complete()
  {
    set i | 0 <= i < 64 && f.oam[4 * i] < 240 :: f.banks[EntryOf(f, i)]
  }

  /** Every visible sprite can be drawn: its bank is in a slot. */
  ghost predicate AllServed(f: Frame, map_: seq<SByte>)
    requires f.Complete() && |map_| == 256
  {
    forall i :: 0 <= i < 64 && f.oam[4 * i] < 240 ==> map_[f.banks[EntryOf(f, i)]] >= FIRST
  }

  /** A list of at most MAX banks without repeats, with b added if it is new and there is room. */
  function Add(list: seq<Byte>, b: Byte): seq<Byte> {
    if b in list || |list| >= MAX then list else list + [b]
  }

  /** The banks the first k sprites use that are cached (or are not): the first eight of them. */
  ghost function Used(f: Frame, map_: seq<SByte>, cached: bool, k: nat): seq<Byte>
    requires f.Complete() && k <= 64 && |map_| == 256
  {
    if k == 0 then []
    else
      var before := Used(f, map_, cached, k - 1);
      if f.Visible(k - 1) && (map_[f.Bank(k - 1)] >= 0) == cached then Add(before, f.Bank(k - 1)) else before
  }

  /** Every occupied slot is where the map says its bank is. */
  ghost predicate SlotsMapped(cache: seq<Byte>, map_: seq<SByte>, size: nat, cursor: nat) {
    && |cache| == 16 && |map_| == 256
    && size <= MAX && cursor < MAX && (size < MAX ==> cursor == size)
    && forall k :: 0 <= k < size ==> map_[cache[k]] == k + FIRST
  }

  /** Every bank the map calls cached is in the slot the map names. */
  ghost predicate BanksCached(cache: seq<Byte>, map_: seq<SByte>, slots: nat) {
    && slots <= 8 && |cache| == 16 && |map_| == 256
    && forall p :: 0 <= p < 256 ==>
      map_[p] == -1 || (FIRST <= map_[p] < FIRST + slots && cache[map_[p] - FIRST] == p)
  }

  /** Whether the clock may overwrite slot k: it was empty, or its bank is not kept. */
  ghost predicate Discardable(cache: seq<Byte>, size: nat, keep: seq<Byte>, k: nat)
    requires |cache| == 16 && k < MAX
  {
    k >= size || cache[k] !in keep
  }

  /** The slot t positions after the hand. */
  ghost function Slot(cursor: nat, t: nat): (k: nat)
    requires cursor < MAX && t <= MAX
    ensures k < MAX
  {
    if cursor + t < MAX then cursor + t else cursor + t - MAX
  }

  /** How many discardable slots the hand meets in its first t positions. */
  ghost function Met(cache: seq<Byte>, size: nat, keep: seq<Byte>, cursor: nat, t: nat): (n: nat)
    requires |cache| == 16 && cursor < MAX && t <= MAX
    ensures n <= t
  {
    if t == 0 then 0
    else
      Met(cache, size, keep, cursor, t - 1) +
      (if Discardable(cache, size, keep, Slot(cursor, t - 1)) then 1 else 0)
  }

  /** The slots after the hand has moved over t positions: the requests fill the discardable
      slots it met, in order, and every other slot is as it was. */
  ghost predicate Swept(now: seq<Byte>, was: seq<Byte>, size: nat, keep: seq<Byte>, request: seq<Byte>,
                        cursor: nat, t: nat)
  {
    && |now| == |was| == 16 && cursor < MAX && now[8..] == was[8..]
    && (forall u :: 0 <= u < t && u < MAX && Discardable(was, size, keep, Slot(cursor, u)) ==>
      Met(was, size, keep, cursor, u) < |request|
      && now[Slot(cursor, u)] == request[Met(was, size, keep, cursor, u)])
    && (forall u :: 0 <= u < MAX && (u >= t || !Discardable(was, size, keep, Slot(cursor, u))) ==>
      now[Slot(cursor, u)] == was[Slot(cursor, u)])
  }

  ghost predicate Distinct(s: seq<Byte>) {
    forall i, j :: 0 <= i < j < |s| ==> s[i] != s[j]
  }

  // ------------------------------------------------------------------ the code

  /** Adds x to base[..count] unless it is there or base is full; returns the new count. */
  method AddIfNeeded(count: nat, base: array<Byte>, x: Byte) returns (count': nat)
    requires count <= MAX == base.Length
    modifies base
    ensures count' <= MAX && base[..count'] == Add(old(base[..count]), x)
  {
    var i := 0;
    while i < count
      invariant i <= count && x !in base[..i]
      invariant base[..] == old(base[..])
    {
      if base[i] == x {
        assert x in base[..count];
        return count;
      }
      i := i + 1;
    }
    if i < MAX {
      base[i] := x;
      return i + 1;
    }
    return count;
  }

  method Search(count: nat, base: array<Byte>, x: Byte) returns (found: bool)
    requires count <= base.Length
    ensures found <==> x in base[..count]
  {
    for i := 0 to count
      invariant x !in base[..i]
    {
      if base[i] == x {
        return true;
      }
    }
    return false;
  }

  class Cache {
    const cache: array<Byte>
    const map_: array<SByte>
    var cursor: nat
    var size: nat

    ghost predicate Valid()
      reads this, cache, map_
    {
      && cache.Length == 16 && map_.Length == 256
      && SlotsMapped(cache[..], map_[..], size, cursor)
    }

    /** Cache and map are each other's inverse, on the occupied slots. */
    ghost predicate Inverse()
      reads this, cache, map_
    {
      Valid() && BanksCached(cache[..], map_[..], size)
    }

    /** The state for cartridges without tile ROM: eight fixed banks, and no slot occupied. */
    ghost predicate FixedBanks()
      reads this, cache, map_
    {
      && Valid() && size == 0 && cursor == 0
      && FixedMap(map_[..])
      && (forall k :: 0 <= k < 8 ==> cache[k] == k)
    }

    constructor (vromPages: nat)
      ensures fresh(cache) && fresh(map_)
      ensures if vromPages == 0 then FixedBanks() else Inverse() && size == 0
      ensures map_.Length == 256 && forall p :: 0 <= p < 256 ==> map_[p] == if vromPages == 0 && p < 8 then p + 8 else -1
    {
      cache := new Byte[16](_ => 255);
      map_ := new SByte[256](_ => -1);
      cursor, size := 0, 0;
      new;
      if vromPages == 0 {
        for i := 0 to 8
          invariant cursor == 0 && size == 0
          invariant fresh(cache) && fresh(map_) && cache.Length == 16 && map_.Length == 256
          invariant forall p :: 0 <= p < 256 ==> map_[p] == if p < i then p + FIRST else -1
          invariant forall k :: 0 <= k < i ==> cache[k] == k
        {
          map_[i] := i + FIRST;
          cache[i] := i;
        }
      }
    }

    /** Part one: the banks in use, split by whether they are cached. */
    method BuildTables(f: Frame, keep: array<Byte>, request: array<Byte>) returns (keepCount: nat, requestCount: nat)
      requires f.Complete() && map_.Length == 256
      requires keep.Length == request.Length == MAX && keep != request && keep != cache && request != cache
      modifies keep, request
      ensures keepCount <= MAX && keep[..keepCount] == Used(f, map_[..], true, 64)
      ensures requestCount <= MAX && request[..requestCount] == Used(f, map_[..], false, 64)
    {
      hide Used, Frame.Bank, Frame.Visible, Add;
      keepCount, requestCount := 0, 0;
      UsedNone(f, map_[..]);
      for i := 0 to 64
        invariant keepCount <= MAX && requestCount <= MAX
        invariant keep[..keepCount] == Used(f, map_[..], true, i)
        invariant request[..requestCount] == Used(f, map_[..], false, i)
      {
        UsedNext(f, map_[..], true, i);
        UsedNext(f, map_[..], false, i);
        if f.oam[i * 4] < 240 {
          var bank := SpriteBank(f, i);
          if map_[bank] < 0 {
            requestCount := AddIfNeeded(requestCount, request, bank);
          } else {
            keepCount := AddIfNeeded(keepCount, keep, bank);
          }
        }
      }
    }

    /** The bank of a visible sprite, as the code finds it. */
    method SpriteBank(f: Frame, i: nat) returns (bank: Byte)
      requires f.Complete() && i < 64 && f.oam[i * 4] < 240
      ensures f.Visible(i) && bank == f.Bank(i)
    {
      var y, t := f.oam[i * 4], f.oam[i * 4 + 1];
      var table := if f.tall then t % 2 * 4 else f.scroll[y * 4] / 128 * 4;
      bank := f.banks[y - y % 8 + table + t / 64];
    }

    /** Puts a bank in the slot at the hand, evicting what is there once the cache is full. */
    method LoadAtCursor(newPage: Byte)
      requires Valid() && map_[newPage] < 0
      modifies this, cache, map_
      ensures Valid() && (old(Inverse()) ==> Inverse())
      ensures cache[..] == old(cache[..])[old(cursor) := newPage]
      ensures size == if old(size) < MAX then old(size) + 1 else MAX
      ensures cursor == (old(cursor) + 1) % MAX
      ensures map_[..] == (if old(size) < MAX then old(map_[..])
        else old(map_[..])[old(cache[cursor]) := -1])[newPage := old(cursor) + FIRST]
    {
      ReplaceKeepsInverse(cache[..], map_[..], size, cursor, newPage);
      assert cursor < MAX && size <= MAX;
      hide SlotsMapped, BanksCached;
      StoreAtCursor(newPage);
      NextPosition();
    }

    /** The slot, and what the map says of its old and its new bank. */
    method StoreAtCursor(newPage: Byte)
      requires cache.Length == 16 && map_.Length == 256 && cursor < MAX && size <= MAX
      modifies this`size, cache, map_
      ensures cache[..] == old(cache[..])[cursor := newPage]
      ensures size == if old(size) < MAX then old(size) + 1 else MAX
      ensures map_[..] == (if old(size) < MAX then old(map_[..])
        else old(map_[..])[old(cache[cursor]) := -1])[newPage := cursor + FIRST]
    {
      ghost var was := map_[..];
      if size < MAX {
        size := size + 1;
      } else {
        map_[cache[cursor]] := -1;
        assert map_[..] == was[old(cache[cursor]) := -1];
      }
      ghost var map1 := map_[..];
      cache[cursor] := newPage;
      var slot: SByte := cursor + FIRST;
      map_[newPage] := slot;
      assert map_[..] == map1[newPage := slot];
    }

    method NextPosition()
      requires cursor < MAX
      modifies this`cursor
      ensures cursor == (old(cursor) + 1) % MAX
    {
      cursor := cursor + 1;
      if cursor >= MAX {
        cursor := cursor - MAX;
      }
    }

    /** One position of the hand: skips a kept bank, or loads newPage there. */
    method Advance(keep: array<Byte>, keepCount: nat, newPage: Byte) returns (loaded: bool)
      requires Valid() && map_[newPage] < 0 && keepCount <= keep.Length && keep != cache
      modifies this, cache, map_
      ensures Valid() && (old(Inverse()) ==> Inverse())
      ensures loaded <==> old(size) < MAX || old(cache[cursor]) !in old(keep[..keepCount])
      ensures cursor == (old(cursor) + 1) % MAX
      ensures cache[..] == if loaded then old(cache[..])[old(cursor) := newPage] else old(cache[..])
      ensures size == if old(size) < MAX then old(size) + 1 else MAX
      ensures map_[..] == if !loaded then old(map_[..])
        else (if old(size) < MAX then old(map_[..])
          else old(map_[..])[old(cache[cursor]) := -1])[newPage := old(cursor) + FIRST]
    {
      hide BanksCached;
      var notDiscardable := false;
      if size >= MAX {
        notDiscardable := Search(keepCount, keep, cache[cursor]);
      }
      if notDiscardable {
        SkipKeepsValid(cache[..], map_[..], size, cursor);
        NextPosition();
      } else {
        LoadAtCursor(newPage);
      }
      loaded := !notDiscardable;
    }

    /** Part two: moves the hand until every request is loaded, skipping the kept banks. */
    method LoadRequests(keep: array<Byte>, keepCount: nat, request: array<Byte>, requested: nat)
      returns (ghost steps: nat)
      requires Valid() && keepCount <= keep.Length && requested <= request.Length && keepCount + requested <= MAX
      requires keep != cache && request != cache
      requires Distinct(request[..requested])
      requires forall j :: 0 <= j < requested ==> map_[request[j]] < 0
      modifies this, cache, map_
      ensures Valid() && (old(Inverse()) ==> Inverse())
      ensures steps <= MAX && cursor == Slot(old(cursor), steps)
      ensures size == Filled(old(size), steps)
      ensures Rests(old(cache[..]), old(size), keep[..keepCount], old(cursor), steps, requested)
      ensures Swept(cache[..], old(cache[..]), old(size), keep[..keepCount], request[..requested], old(cursor), steps)
      ensures old(size) + requested <= MAX ==> OthersMapped(map_[..], old(map_[..]), request[..requested])
    {
      hide BanksCached, Met, Swept, SlotsMapped, Distinct, Discardable, Slot, Filled;
      var requestCount, requestBase := requested, 0;
      steps := 0;
      ghost var c0, s0, cur0, m0 := cache[..], size, cursor, map_[..];
      ghost var k, r := keep[..keepCount], request[..requested];
      SweepStarts(c0, m0, s0, k, r, cur0);
      EnoughRoom(c0, m0, s0, k, cur0);
      while requestCount > 0
        invariant Valid() && (old(Inverse()) ==> Inverse())
        invariant steps <= MAX && cursor == Slot(cur0, steps) && size == Filled(s0, steps)
        invariant requestBase + requestCount == requested
        invariant requestBase == Met(c0, s0, k, cur0, steps)
        invariant Rests(c0, s0, k, cur0, steps, requestBase) || (steps > 0 && requestCount > 0)
        invariant Swept(cache[..], c0, s0, k, r, cur0, steps)
        invariant Pending(map_[..], r, requestBase)
        invariant keep[..keepCount] == k && request[..requested] == r
        invariant s0 + requested <= MAX ==> s0 + requestBase == size && OthersMapped(map_[..], m0, r)
        decreases MAX - steps
      {
        MetMonotone(c0, s0, k, cur0, steps, MAX);
        NextSlot(cache[..], c0, m0, s0, k, r, cur0, steps);
        ghost var now, was, hand := cache[..], map_[..], cursor;
        ghost var map1 := if size < MAX then was else was[cache[hand] := -1];
        PendingNow(was, r, requestBase);
        var newPage := request[requestBase];
        assert newPage == r[requestBase];
        var loaded := Advance(keep, keepCount, newPage);
        if loaded {
          SweepLoad(now, c0, s0, k, r, cur0, steps);
          PendingAfterLoad(was, r, requestBase, now[hand], map1, hand + FIRST);
          requestBase := requestBase + 1;
          requestCount := requestCount - 1;
        } else {
          SweepSkip(now, c0, s0, k, r, cur0, steps);
        }
        steps := steps + 1;
      }
    }

    /** Keeps the cached banks the frame uses, and loads as many of the others as fit. */
    method RecacheSprites(f: Frame) returns (ghost steps: nat)
      requires Valid() && f.Complete()
      modifies this, cache, map_
      ensures Valid() && (old(Inverse()) ==> Inverse())
      ensures steps <= MAX && cursor == Slot(old(cursor), steps) && size == Filled(old(size), steps)
      ensures Recached(f, old(cache[..]), old(map_[..]), old(size), old(cursor), cache[..], steps)
      ensures old(Inverse()) ==> (AllServed(f, map_[..]) <==> |BanksInUse(f)| <= 8)
      ensures old(Inverse()) ==> forall i :: 0 <= i < 64 && f.oam[4 * i] < 240 && old(map_[..])[f.banks[EntryOf(f, i)]] >= 0 ==>
        map_[f.banks[EntryOf(f, i)]] == old(map_[..])[f.banks[EntryOf(f, i)]]
      ensures old(FixedBanks()) ==>
        (BanksCached(cache[..], map_[..], 8) <==> FixedSuffice(f)) && (FixedSuffice(f) ==> FixedBanks())
    {
      hide FixedSuffice, FixedMap, BanksCached, SlotsMapped, Used, Rests, Swept, Discardable;
      var keep, request := new Byte[MAX], new Byte[MAX];
      var keepCount, requestCount := BuildTables(f, keep, request);
      UsedLists(f, map_[..], true, 64);
      UsedLists(f, map_[..], false, 64);
      ghost var all := request[..requestCount];
      if keepCount + requestCount > MAX {
        requestCount := MAX - keepCount;
      }
      assert request[..requestCount] == all[..requestCount] == Loads(f, map_[..]);
      assert forall j :: 0 <= j < requestCount ==> request[j] == all[j];
      ghost var c0, m0, s0, cur0 := cache[..], map_[..], size, cursor;
      ghost var fixed, inverse := FixedBanks(), Inverse();
      steps := LoadRequests(keep, keepCount, request, requestCount);
      if inverse {
        AllServedIff(f, c0, m0, s0, cur0, cache[..], map_[..], steps, cursor);
      }
      if fixed {
        FixedBanksBreak(f, c0, m0, keep[..keepCount], Loads(f, m0), cache[..], map_[..], steps);
      }
    }
  }

  /** The banks a frame causes to be loaded: the first that fit beside the kept ones. */
  ghost function Loads(f: Frame, map_: seq<SByte>): seq<Byte>
    requires f.Complete() && |map_| == 256
  {
    var keep, request := Used(f, map_, true, 64), Used(f, map_, false, 64);
    if |keep| >= MAX then [] else if |keep| + |request| > MAX then request[..MAX - |keep|] else request
  }

  /** The banks below 8 that visible sprites use. */
  ghost function LowBanks(f: Frame): set<Byte>
    requires f.Complete()
  {
    set i | 0 <= i < 64 && f.Visible(i) && f.Bank(i) < 8 :: f.Bank(i)
  }

  /** No visible sprite uses a bank from 8 on, or all of the first eight are in use. */
  ghost predicate FixedSuffice(f: Frame)
    requires f.Complete()
  {
    (forall i :: 0 <= i < 64 && f.Visible(i) ==> f.Bank(i) < 8) || |LowBanks(f)| >= MAX
  }

  /** The map of the eight fixed banks. */
  ghost predicate FixedMap(map_: seq<SByte>) {
    |map_| == 256 && forall p :: 0 <= p < 256 ==> map_[p] == if p < 8 then p + FIRST else -1
  }

  /** One frame's replacement, told without the order in which the code does it. */
  ghost predicate Recached(f: Frame, was: seq<Byte>, map_: seq<SByte>, size: nat, cursor: nat,
                           now: seq<Byte>, steps: nat)
    requires f.Complete() && |map_| == 256 && |was| == 16 && cursor < MAX && steps <= MAX
  {
    var keep, loads := Used(f, map_, true, 64), Loads(f, map_);
    && Rests(was, size, keep, cursor, steps, |loads|)
    && Swept(now, was, size, keep, loads, cursor, steps)
  }

  /** How many slots are occupied after the hand has moved over t positions. */
  ghost function Filled(size: nat, t: nat): (n: nat)
    ensures n <= MAX || n == size
  {
    if size + t < MAX then size + t else MAX
  }

  /** The hand stops as soon as it has met as many discardable slots as there are requests. */
  ghost predicate Rests(was: seq<Byte>, size: nat, keep: seq<Byte>, cursor: nat, t: nat, requested: nat)
    requires |was| == 16 && cursor < MAX && t <= MAX
  {
    && Met(was, size, keep, cursor, t) == requested
    && (t > 0 ==> Met(was, size, keep, cursor, t - 1) < requested)
  }

  ghost predicate Pending(map_: seq<SByte>, request: seq<Byte>, from: nat) {
    |map_| == 256 && Distinct(request) && forall j :: from <= j < |request| ==> map_[request[j]] < 0
  }

  ghost predicate OthersMapped(now: seq<SByte>, was: seq<SByte>, request: seq<Byte>) {
    |now| == |was| == 256 && forall p :: 0 <= p < 256 && p !in request ==> now[p] == was[p]
  }

  // ------------------------------------------------------------------ proofs

  lemma ReplaceKeepsInverse(cache: seq<Byte>, map_: seq<SByte>, size: nat, cursor: nat, newPage: Byte)
    requires SlotsMapped(cache, map_, size, cursor) && map_[newPage] < 0
    ensures var cache' := cache[cursor := newPage];
      var map1 := if size < MAX then map_ else map_[cache[cursor] := -1];
      var map' := map1[newPage := cursor + FIRST];
      var size' := if size < MAX then size + 1 else MAX;
      && SlotsMapped(cache', map', size', (cursor + 1) % MAX)
      && (BanksCached(cache, map_, size) ==> BanksCached(cache', map', size'))
  {
  }

  lemma SkipKeepsValid(cache: seq<Byte>, map_: seq<SByte>, size: nat, cursor: nat)
    requires SlotsMapped(cache, map_, size, cursor) && size == MAX
    ensures SlotsMapped(cache, map_, size, (cursor + 1) % MAX)
  {
  }

  lemma SweepStarts(was: seq<Byte>, map_: seq<SByte>, size: nat, keep: seq<Byte>, request: seq<Byte>, cursor: nat)
    requires SlotsMapped(was, map_, size, cursor)
    ensures cursor == Slot(cursor, 0) && size == Filled(size, 0)
    ensures Swept(was, was, size, keep, request, cursor, 0)
    ensures Met(was, size, keep, cursor, 0) == 0
  {
  }

  lemma NextSlot(now: seq<Byte>, was: seq<Byte>, map_: seq<SByte>, size: nat, keep: seq<Byte>, request: seq<Byte>,
                 cursor: nat, t: nat)
    requires t < MAX && Swept(now, was, size, keep, request, cursor, t)
    requires SlotsMapped(was, map_, size, cursor)
    ensures now[Slot(cursor, t)] == was[Slot(cursor, t)]
    ensures Slot(cursor, t + 1) == (Slot(cursor, t) + 1) % MAX
    ensures Filled(size, t + 1) == if Filled(size, t) < MAX then Filled(size, t) + 1 else MAX
    ensures Discardable(was, size, keep, Slot(cursor, t)) <==>
      Filled(size, t) < MAX || now[Slot(cursor, t)] !in keep
  {
    hide Met;
  }

  /** Moving the hand over one more position keeps the account of the slots. */
  lemma SweepSkip(now: seq<Byte>, was: seq<Byte>, size: nat, keep: seq<Byte>, request: seq<Byte>, cursor: nat, t: nat)
    requires t < MAX && Swept(now, was, size, keep, request, cursor, t)
    requires !Discardable(was, size, keep, Slot(cursor, t))
    ensures Swept(now, was, size, keep, request, cursor, t + 1)
    ensures Met(was, size, keep, cursor, t + 1) == Met(was, size, keep, cursor, t)
  {
  }

  lemma SweepLoad(now: seq<Byte>, was: seq<Byte>, size: nat, keep: seq<Byte>, request: seq<Byte>, cursor: nat, t: nat)
    requires t < MAX && Swept(now, was, size, keep, request, cursor, t)
    requires Discardable(was, size, keep, Slot(cursor, t))
    requires Met(was, size, keep, cursor, t) < |request|
    ensures var m := Met(was, size, keep, cursor, t);
      && Swept(now[Slot(cursor, t) := request[m]], was, size, keep, request, cursor, t + 1)
      && Met(was, size, keep, cursor, t + 1) == m + 1
  {
    hide Discardable;
    var next := now[Slot(cursor, t) := request[Met(was, size, keep, cursor, t)]];
    forall u | 0 <= u < MAX && u != t ensures next[Slot(cursor, u)] == now[Slot(cursor, u)] {
    }
  }

  lemma PendingNow(map_: seq<SByte>, request: seq<Byte>, from: nat)
    requires Pending(map_, request, from) && from < |request|
    ensures map_[request[from]] < 0
  {
  }

  lemma PendingAfterLoad(map_: seq<SByte>, request: seq<Byte>, from: nat, evicted: Byte, map1: seq<SByte>, slot: SByte)
    requires Pending(map_, request, from) && from < |request|
    requires map1 == map_ || map1 == map_[evicted := -1]
    ensures Pending(map1[request[from] := slot], request, from + 1)
  {
  }

  lemma {:induction false} MetMonotone(was: seq<Byte>, size: nat, keep: seq<Byte>, cursor: nat, t: nat, u: nat)
    requires |was| == 16 && cursor < MAX && t <= u <= MAX
    ensures Met(was, size, keep, cursor, t) <= Met(was, size, keep, cursor, u)
    decreases u
  {
    if t < u {
      MetMonotone(was, size, keep, cursor, t, u - 1);
    }
  }

  /** The kept banks the hand meets in its first t positions. */
  ghost function KeptMet(was: seq<Byte>, size: nat, keep: seq<Byte>, cursor: nat, t: nat): set<Byte>
    requires |was| == 16 && cursor < MAX && t <= MAX
  {
    if t == 0 then {}
    else
      var before := KeptMet(was, size, keep, cursor, t - 1);
      var k := Slot(cursor, t - 1);
      if Discardable(was, size, keep, k) then before else before + {was[k]}
  }

  lemma {:induction false} NotMet(was: seq<Byte>, size: nat, keep: seq<Byte>, cursor: nat, t: nat, b: Byte)
    requires |was| == 16 && cursor < MAX && t <= MAX
    requires forall u :: 0 <= u < t && !Discardable(was, size, keep, Slot(cursor, u)) ==> was[Slot(cursor, u)] != b
    ensures b !in KeptMet(was, size, keep, cursor, t)
    decreases t
  {
    if t > 0 {
      NotMet(was, size, keep, cursor, t - 1, b);
    }
  }

  lemma NotMetBefore(was: seq<Byte>, map_: seq<SByte>, size: nat, keep: seq<Byte>, cursor: nat, t: nat)
    requires SlotsMapped(was, map_, size, cursor) && t < MAX
    requires !Discardable(was, size, keep, Slot(cursor, t))
    ensures was[Slot(cursor, t)] !in KeptMet(was, size, keep, cursor, t)
  {
    hide KeptMet;
    forall u | 0 <= u < t && !Discardable(was, size, keep, Slot(cursor, u))
      ensures was[Slot(cursor, u)] != was[Slot(cursor, t)]
    {
      assert map_[was[Slot(cursor, u)]] == Slot(cursor, u) + FIRST;
    }
    NotMet(was, size, keep, cursor, t, was[Slot(cursor, t)]);
  }

  lemma {:induction false} KeptAreSkipped(was: seq<Byte>, map_: seq<SByte>, size: nat, keep: seq<Byte>, cursor: nat, t: nat)
    requires SlotsMapped(was, map_, size, cursor) && t <= MAX
    ensures |KeptMet(was, size, keep, cursor, t)| == t - Met(was, size, keep, cursor, t)
    ensures KeptMet(was, size, keep, cursor, t) <= Elements(keep)
    decreases t
  {
    hide Elements, Slot;
    if t > 0 {
      KeptAreSkipped(was, map_, size, keep, cursor, t - 1);
      if !Discardable(was, size, keep, Slot(cursor, t - 1)) {
        NotMetBefore(was, map_, size, keep, cursor, t - 1);
      }
    }
  }

  /** In one round the hand meets all slots but those of kept banks. */
  lemma EnoughRoom(was: seq<Byte>, map_: seq<SByte>, size: nat, keep: seq<Byte>, cursor: nat)
    requires SlotsMapped(was, map_, size, cursor)
    ensures Met(was, size, keep, cursor, MAX) + |keep| >= MAX
  {
    KeptAreSkipped(was, map_, size, keep, cursor, MAX);
    ElementsSize(keep);
    SubsetSize(KeptMet(was, size, keep, cursor, MAX), Elements(keep));
  }

  // ------------------------------------------------------------------ what a frame gets

  lemma UsedNone(f: Frame, map_: seq<SByte>)
    requires f.Complete() && |map_| == 256
    ensures Used(f, map_, true, 0) == [] && Used(f, map_, false, 0) == []
  {
  }

  lemma UsedNext(f: Frame, map_: seq<SByte>, cached: bool, k: nat)
    requires f.Complete() && k < 64 && |map_| == 256
    ensures f.Visible(k) <==> f.oam[k * 4] < 240
    ensures Used(f, map_, cached, k + 1) ==
      if f.Visible(k) && (map_[f.Bank(k)] >= 0) == cached then Add(Used(f, map_, cached, k), f.Bank(k))
      else Used(f, map_, cached, k)
  {
    hide Frame.Bank, Add;
  }

  /** The lists hold no bank twice, at most eight, all on the side they were chosen for. */
  lemma {:induction false} UsedLists(f: Frame, map_: seq<SByte>, cached: bool, k: nat)
    requires f.Complete() && k <= 64 && |map_| == 256
    ensures Distinct(Used(f, map_, cached, k)) && |Used(f, map_, cached, k)| <= MAX
    ensures forall b :: b in Used(f, map_, cached, k) ==> (map_[b] >= 0) == cached
  {
    if k > 0 {
      UsedLists(f, map_, cached, k - 1);
    }
  }

  /** A list that is not full holds every bank of its side that a visible sprite uses. */
  lemma {:induction false} UsedIsComplete(f: Frame, map_: seq<SByte>, cached: bool, k: nat, i: nat)
    requires f.Complete() && i < k <= 64 && |map_| == 256
    requires f.Visible(i) && (map_[f.Bank(i)] >= 0) == cached
    ensures |Used(f, map_, cached, k)| < MAX ==> f.Bank(i) in Used(f, map_, cached, k)
    decreases k
  {
    hide Frame.Bank;
    if i < k - 1 {
      UsedIsComplete(f, map_, cached, k - 1, i);
    }
  }

  ghost function SlotsOf(list: seq<Byte>, map_: seq<SByte>): set<int>
    requires |map_| == 256
  {
    if |list| == 0 then {} else SlotsOf(list[..|list| - 1], map_) + {map_[list[|list| - 1]] as int}
  }

  lemma {:induction false} NotInSlotsOf(list: seq<Byte>, cache: seq<Byte>, map_: seq<SByte>, size: nat, b: Byte)
    requires size <= 8 && BanksCached(cache, map_, size) && b !in list && map_[b] >= 0
    requires forall x :: x in list ==> map_[x] >= 0
    ensures map_[b] as int !in SlotsOf(list, map_)
    ensures forall k :: k in SlotsOf(list, map_) ==> FIRST <= k < FIRST + MAX
  {
    if |list| > 0 {
      NotInSlotsOf(list[..|list| - 1], cache, map_, size, b);
      assert list[|list| - 1] in list;
    }
  }

  lemma {:induction false} SlotsOfSize(list: seq<Byte>, cache: seq<Byte>, map_: seq<SByte>, size: nat)
    requires size <= 8 && BanksCached(cache, map_, size) && Distinct(list)
    requires forall x :: x in list ==> map_[x] >= 0
    ensures |SlotsOf(list, map_)| == |list|
  {
    if |list| > 0 {
      var front, b := list[..|list| - 1], list[|list| - 1];
      assert b in list && b !in front;
      SlotsOfSize(front, cache, map_, size);
      NotInSlotsOf(front, cache, map_, size, b);
    }
  }

  /** The list of kept banks never runs out of room: every cached bank in use is on it. */
  lemma CachedBanksAreKept(f: Frame, cache: seq<Byte>, map_: seq<SByte>, size: nat, i: nat)
    requires f.Complete() && i < 64 && |map_| == 256 && size <= 8 && BanksCached(cache, map_, size)
    requires f.Visible(i) && map_[f.Bank(i)] >= 0
    ensures f.Bank(i) in Used(f, map_, true, 64)
  {
    hide Used, Frame.Bank;
    var keep, b := Used(f, map_, true, 64), f.Bank(i);
    UsedLists(f, map_, true, 64);
    UsedIsComplete(f, map_, true, 64, i);
    if b !in keep {
      NotInSlotsOf(keep, cache, map_, size, b);
      SlotsOfSize(keep, cache, map_, size);
      var slots := SlotsOf(keep, map_) + {map_[b] as int};
      assert |slots| == 9;
      assert forall k :: k in slots ==> 8 <= k < 16;
      forall k | k in slots ensures k in {8, 9, 10, 11, 12, 13, 14, 15} {
      }
      SubsetSize(slots, {8, 9, 10, 11, 12, 13, 14, 15});
    }
  }

  /** The bank of a kept slot stays, and so does its entry in the map. */
  lemma KeptBankStays(was: seq<Byte>, map0: seq<SByte>, size: nat, cursor: nat, now: seq<Byte>, map1: seq<SByte>,
                      keep: seq<Byte>, loads: seq<Byte>, steps: nat, cursor1: nat, b: Byte)
    requires SlotsMapped(was, map0, size, cursor) && BanksCached(was, map0, size)
    requires steps <= MAX && SlotsMapped(now, map1, Filled(size, steps), cursor1)
    requires Swept(now, was, size, keep, loads, cursor, steps)
    requires b in keep && map0[b] >= 0
    ensures map1[b] == map0[b]
  {
    hide Met;
    var k := map0[b] - FIRST;
    var u := if k >= cursor then k - cursor else k + MAX - cursor;
    assert Slot(cursor, u) == k;
    assert now[Slot(cursor, u)] == was[Slot(cursor, u)];
  }

  /** The j-th request went into the j-th discardable slot the hand met. */
  lemma {:induction false} MeetingPoint(was: seq<Byte>, size: nat, keep: seq<Byte>, cursor: nat, t: nat, j: nat) returns (u: nat)
    requires |was| == 16 && cursor < MAX && t <= MAX && j < Met(was, size, keep, cursor, t)
    ensures u < t && Discardable(was, size, keep, Slot(cursor, u)) && Met(was, size, keep, cursor, u) == j
    decreases t
  {
    if j < Met(was, size, keep, cursor, t - 1) {
      u := MeetingPoint(was, size, keep, cursor, t - 1, j);
    } else {
      u := t - 1;
    }
  }

  lemma RequestIsLoaded(was: seq<Byte>, map0: seq<SByte>, size: nat, cursor: nat, now: seq<Byte>, map1: seq<SByte>,
                        keep: seq<Byte>, loads: seq<Byte>, steps: nat, cursor1: nat, j: nat)
    requires SlotsMapped(was, map0, size, cursor)
    requires steps <= MAX && SlotsMapped(now, map1, Filled(size, steps), cursor1)
    requires Swept(now, was, size, keep, loads, cursor, steps)
    requires Rests(was, size, keep, cursor, steps, |loads|) && j < |loads|
    ensures map1[loads[j]] >= FIRST
  {
    hide Met;
    var u := MeetingPoint(was, size, keep, cursor, steps, j);
    assert now[Slot(cursor, u)] == loads[j];
    assert map1[now[Slot(cursor, u)]] == Slot(cursor, u) + FIRST;
  }

  /** After a frame every sprite that was drawn from a cached bank still is, from the same slot,
      and every sprite is drawn from a cached bank if the missing ones are fewer than eight and all
      banks in use are at most eight. */
  lemma FrameIsServed(f: Frame, was: seq<Byte>, map0: seq<SByte>, size: nat, cursor: nat,
                      now: seq<Byte>, map1: seq<SByte>, steps: nat, cursor1: nat, i: nat)
    requires f.Complete() && i < 64 && f.Visible(i)
    requires SlotsMapped(was, map0, size, cursor) && BanksCached(was, map0, size)
    requires steps <= MAX && SlotsMapped(now, map1, Filled(size, steps), cursor1)
    requires Recached(f, was, map0, size, cursor, now, steps)
    ensures map0[f.Bank(i)] >= 0 ==> map1[f.Bank(i)] == map0[f.Bank(i)]
    ensures |Used(f, map0, false, 64)| < MAX && |Used(f, map0, true, 64)| + |Used(f, map0, false, 64)| <= MAX ==>
      map1[f.Bank(i)] >= FIRST
  {
    hide Used, Frame.Bank, Swept, Rests, SlotsMapped;
    var keep, loads, b := Used(f, map0, true, 64), Loads(f, map0), f.Bank(i);
    if map0[b] >= 0 {
      CachedBanksAreKept(f, was, map0, size, i);
      KeptBankStays(was, map0, size, cursor, now, map1, keep, loads, steps, cursor1, b);
    } else if |Used(f, map0, false, 64)| < MAX && |keep| + |Used(f, map0, false, 64)| <= MAX {
      UsedIsComplete(f, map0, false, 64, i);
      var j :| 0 <= j < |loads| && loads[j] == b;
      RequestIsLoaded(was, map0, size, cursor, now, map1, keep, loads, steps, cursor1, j);
    }
  }

  lemma BankIsEntry(f: Frame, i: nat)
    requires f.Complete() && i < 64
    ensures f.Visible(i) <==> f.oam[4 * i] < 240
    ensures f.Visible(i) ==> f.Bank(i) == f.banks[EntryOf(f, i)]
  {
  }

  /** Which four banks a sprite of row r can be drawn from, and which of them it is. */
  lemma SpriteBanks(f: Frame, i: nat, r: nat)
    requires f.Complete() && i < 64 && 8 * r <= f.oam[4 * i] < 8 * r + 8 && r < 30
    ensures var tile, scroll := f.oam[4 * i + 1], f.scroll[4 * f.oam[4 * i]];
      && tile / 64 < 4 && f.Visible(i)
      && (!f.tall && scroll < 128 ==> f.Bank(i) == f.banks[8 * r..8 * r + 4][tile / 64])
      && (!f.tall && scroll >= 128 ==> f.Bank(i) == f.banks[8 * r + 4..8 * r + 8][tile / 64])
      && (f.tall && tile % 2 == 0 ==> f.Bank(i) == f.banks[8 * r..8 * r + 4][tile / 64])
      && (f.tall && tile % 2 == 1 ==> f.Bank(i) == f.banks[8 * r + 4..8 * r + 8][tile / 64])
  {
    assert f.oam[4 * i] / 8 == r;
  }

  lemma UsedAreInUse(f: Frame, map_: seq<SByte>, cached: bool)
    requires f.Complete() && |map_| == 256
    ensures forall b :: b in Used(f, map_, cached, 64) ==> b in BanksInUse(f)
  {
    hide Used, EntryOf, Frame.Bank, Frame.Visible;
    forall b | b in Used(f, map_, cached, 64) ensures b in BanksInUse(f) {
      var i := UsedAreUsed(f, map_, cached, 64, b);
      BankIsEntry(f, i);
    }
  }

  /** What a list holds of the banks in use: all of its side, if those are at most eight. */
  lemma FewAreListed(f: Frame, map_: seq<SByte>, cached: bool, i: nat)
    requires f.Complete() && |map_| == 256 && i < 64 && f.Visible(i) && |BanksInUse(f)| <= 8
    requires (map_[f.Bank(i)] >= 0) == cached
    ensures f.Bank(i) in Used(f, map_, cached, 64)
  {
    hide Used, EntryOf, Frame.Bank, Frame.Visible, BanksInUse;
    var list, b := Used(f, map_, cached, 64), f.Bank(i);
    UsedLists(f, map_, cached, 64);
    UsedIsComplete(f, map_, cached, 64, i);
    UsedAreInUse(f, map_, cached);
    InUse(f, i);
    if b !in list {
      DistinctSize(list);
      SubsetSize(Elements(list) + {b}, BanksInUse(f));
    }
  }

  lemma InUse(f: Frame, i: nat)
    requires f.Complete() && i < 64 && f.Visible(i)
    ensures f.Bank(i) in BanksInUse(f)
  {
    BankIsEntry(f, i);
    hide EntryOf, Frame.Bank;
  }

  /** Kept and missing banks together are not more than those in use. */
  lemma ListsAreFew(f: Frame, map_: seq<SByte>)
    requires f.Complete() && |map_| == 256
    ensures |Used(f, map_, true, 64)| + |Used(f, map_, false, 64)| <= |BanksInUse(f)|
  {
    hide Used, BanksInUse;
    var keep, request := Used(f, map_, true, 64), Used(f, map_, false, 64);
    UsedLists(f, map_, true, 64);
    UsedLists(f, map_, false, 64);
    UsedAreInUse(f, map_, true);
    UsedAreInUse(f, map_, false);
    var both := keep + request;
    forall i, j | 0 <= i < j < |both| ensures both[i] != both[j] {
      if i < |keep| <= j {
        assert both[i] in keep && both[j] in request;
      }
    }
    DistinctSize(both);
    SubsetSize(Elements(both), BanksInUse(f));
  }

  /** A frame's visible sprites can all be drawn exactly if they use at most eight banks; and a bank that
      was cached is still in its slot. */
  lemma AllServedIff(f: Frame, was: seq<Byte>, map0: seq<SByte>, size: nat, cursor: nat,
                     now: seq<Byte>, map1: seq<SByte>, steps: nat, cursor1: nat)
    requires f.Complete() && SlotsMapped(was, map0, size, cursor) && BanksCached(was, map0, size)
    requires steps <= MAX && SlotsMapped(now, map1, Filled(size, steps), cursor1) && BanksCached(now, map1, Filled(size, steps))
    requires Recached(f, was, map0, size, cursor, now, steps)
    ensures AllServed(f, map1) <==> |BanksInUse(f)| <= 8
    ensures forall i :: 0 <= i < 64 && f.oam[4 * i] < 240 && map0[f.banks[EntryOf(f, i)]] >= 0 ==>
      map1[f.banks[EntryOf(f, i)]] == map0[f.banks[EntryOf(f, i)]]
  {
    hide Used, Frame.Bank, Frame.Visible, Swept, Rests, EntryOf, SlotsMapped, BanksInUse;
    assert |map0| == |map1| == 256;
    forall i | 0 <= i < 64 && f.oam[4 * i] < 240
      ensures map0[f.banks[EntryOf(f, i)]] >= 0 ==> map1[f.banks[EntryOf(f, i)]] == map0[f.banks[EntryOf(f, i)]]
      ensures |BanksInUse(f)| <= 8 ==> map1[f.banks[EntryOf(f, i)]] >= FIRST
    {
      BankIsEntry(f, i);
      OneServed(f, was, map0, size, cursor, now, map1, steps, cursor1, i);
    }
    if AllServed(f, map1) {
      ServedAreFew(f, now, map1, Filled(size, steps));
    }
  }

  lemma OneServed(f: Frame, was: seq<Byte>, map0: seq<SByte>, size: nat, cursor: nat,
                  now: seq<Byte>, map1: seq<SByte>, steps: nat, cursor1: nat, i: nat)
    requires f.Complete() && i < 64 && f.Visible(i)
    requires SlotsMapped(was, map0, size, cursor) && BanksCached(was, map0, size)
    requires steps <= MAX && SlotsMapped(now, map1, Filled(size, steps), cursor1)
    requires Recached(f, was, map0, size, cursor, now, steps)
    ensures map0[f.Bank(i)] >= 0 ==> map1[f.Bank(i)] == map0[f.Bank(i)]
    ensures |BanksInUse(f)| <= 8 ==> map1[f.Bank(i)] >= FIRST
  {
    FrameIsServed(f, was, map0, size, cursor, now, map1, steps, cursor1, i);
    if |BanksInUse(f)| <= 8 && map0[f.Bank(i)] < 0 {
      hide Used, Frame.Bank, Swept, Rests, SlotsMapped, BanksInUse;
      var loads, b := Loads(f, map0), f.Bank(i);
      FewAreListed(f, map0, false, i);
      ListsAreFew(f, map0);
      var j :| 0 <= j < |loads| && loads[j] == b;
      RequestIsLoaded(was, map0, size, cursor, now, map1, Used(f, map0, true, 64), loads, steps, cursor1, j);
    }
  }

  lemma ServedAreFew(f: Frame, now: seq<Byte>, map1: seq<SByte>, slots: nat)
    requires f.Complete() && BanksCached(now, map1, slots) && AllServed(f, map1)
    ensures |BanksInUse(f)| <= 8
  {
    hide EntryOf;
    var eight := now[..8];
    forall b | b in BanksInUse(f) ensures b in eight {
      assert eight[map1[b] - FIRST] == b;
    }
    SubsetSize(BanksInUse(f), Elements(eight));
    ElementsSize(eight);
  }

  // ------------------------------------------------------------------ without tile ROM

  lemma {:induction false} UsedAreUsed(f: Frame, map_: seq<SByte>, cached: bool, k: nat, b: Byte) returns (i: nat)
    requires f.Complete() && k <= 64 && |map_| == 256 && b in Used(f, map_, cached, k)
    ensures i < k && f.Visible(i) && f.Bank(i) == b
  {
    hide Frame.Bank;
    if b in Used(f, map_, cached, k - 1) {
      i := UsedAreUsed(f, map_, cached, k - 1, b);
    } else {
      i := k - 1;
    }
  }

  /** The kept list holds the banks below 8 in use. */
  lemma KeptAreLow(f: Frame, map_: seq<SByte>)
    requires f.Complete() && FixedMap(map_)
    ensures |Used(f, map_, true, 64)| == |LowBanks(f)|
  {
    hide Used, Frame.Bank, Frame.Visible;
    var keep, cache := Used(f, map_, true, 64), seq<Byte>(16, i requires 0 <= i < 16 => i);
    UsedLists(f, map_, true, 64);
    forall b: Byte ensures b in keep <==> b in LowBanks(f) {
      if b in keep {
        var i := UsedAreUsed(f, map_, true, 64, b);
      }
      if b in LowBanks(f) {
        var i :| 0 <= i < 64 && f.Visible(i) && f.Bank(i) == b;
        CachedBanksAreKept(f, cache, map_, 8, i);
      }
    }
    assert Elements(keep) == LowBanks(f);
    DistinctSize(keep);
  }

  /** A frame loads nothing exactly if the fixed banks are enough for it. */
  lemma NothingLoadedIff(f: Frame, map_: seq<SByte>)
    requires f.Complete() && FixedMap(map_)
    ensures Loads(f, map_) == [] <==> FixedSuffice(f)
  {
    hide Used, Frame.Bank, Frame.Visible, LowBanks;
    var request := Used(f, map_, false, 64);
    KeptAreLow(f, map_);
    UsedLists(f, map_, false, 64);
    if request == [] {
      forall i | 0 <= i < 64 && f.Visible(i) ensures f.Bank(i) < 8 {
        if map_[f.Bank(i)] < 0 {
          UsedIsComplete(f, map_, false, 64, i);
        }
      }
    } else {
      var i := UsedAreUsed(f, map_, false, 64, request[0]);
      assert map_[request[0]] < 0;
    }
  }

  /** Without tile ROM switching masks the bank numbers to 0..7, and then no frame ever loads anything. */
  lemma MaskedBanksSuffice(f: Frame)
    requires f.Complete() && forall k :: 0 <= k < |f.banks| ==> f.banks[k] < 8
    ensures FixedSuffice(f)
  {
  }

  /** Without tile ROM the map stays an inverse exactly when nothing is loaded: a load goes to
      slot 0 as if it were empty, and bank 0 is still mapped there. */
  lemma FixedBanksBreak(f: Frame, was: seq<Byte>, map0: seq<SByte>, keep: seq<Byte>, loads: seq<Byte>,
                        now: seq<Byte>, map1: seq<SByte>, steps: nat)
    requires f.Complete() && |was| == 16 && FixedMap(map0) && loads == Loads(f, map0)
    requires forall k :: 0 <= k < 8 ==> was[k] == k
    requires steps <= MAX && Swept(now, was, 0, keep, loads, 0, steps) && Rests(was, 0, keep, 0, steps, |loads|)
    requires OthersMapped(map1, map0, loads)
    ensures BanksCached(now, map1, 8) <==> FixedSuffice(f)
    ensures FixedSuffice(f) ==> steps == 0 && map1 == map0 && forall k :: 0 <= k < 8 ==> now[k] == k
  {
    hide Used, FixedSuffice;
    NothingLoadedIff(f, map0);
    UsedLists(f, map0, false, 64);
    if loads == [] {
      assert steps == 0;
      forall k | 0 <= k < 8 ensures now[k] == k {
        assert Slot(0, k) == k && now[Slot(0, k)] == was[Slot(0, k)];
      }
      assert map1 == map0;
    } else {
      assert steps > 0;
      assert Slot(0, 0) == 0 && now[Slot(0, 0)] == loads[0];
      assert loads[0] in Used(f, map0, false, 64);
      assert forall x :: x in loads ==> x in Used(f, map0, false, 64);
      assert map0[0] == FIRST;
    }
  }

  /** The frame after a state file set the first bank register to 8: one sprite, in the first row. */
  ghost function ForeignFrame(): (f: Frame)
    ensures f.Complete()
  {
    Frame(true, [0, 0] + seq(254, i => 255), seq(240, i => if i % 8 == 0 then 8 else i % 8), seq(960, i => 0))
  }

  lemma ForeignFrameBreaks()
    ensures !FixedSuffice(ForeignFrame())
  {
    var f := ForeignFrame();
    assert f.Visible(0) && f.Bank(0) == 8;
    forall i: nat | 0 < i < 64 ensures !f.Visible(i) {
      assert f.oam[4 * i] == 255;
    }
    assert LowBanks(f) == {};
  }
}
