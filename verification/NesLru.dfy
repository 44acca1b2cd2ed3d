/**
 Replacement in the NES bank caches: least recently used, but never a slot that the mapped banks
 protect, unless nothing else is left.

 A cache is seen here as the tags and ages of its slots and the clock. `Fetch` is one lookup. The
 question is whether a run of lookups for the mapped banks leaves all of them resident at
 once, whatever was cached before.
 */
module NesLru {
  import opened Collections

  const INVALID := 0xFFFF
  const MAX_AGE := 0xFFFF_FFFF

  datatype Lru = Lru(tags: seq<int>, ages: seq<int>, clock: nat)

  // ------------------------------------------------------------------ meaning

  /** Tags are below `limit` and all different, and no age is ahead of the clock. */
  ghost predicate Sound(l: Lru, n: nat, limit: nat) {
    && |l.tags| == |l.ages| == n && limit <= INVALID
    && (forall i :: 0 <= i < n ==> l.tags[i] == INVALID || 0 <= l.tags[i] < limit)
    && (forall i, j :: 0 <= i < j < n && l.tags[i] == l.tags[j] ==> l.tags[i] == INVALID)
    && (forall i :: 0 <= i < n ==> 0 <= l.ages[i] <= l.clock)
  }

  /** The first slot from i on that holds a tag; the number of slots if none does. */
  ghost function Find(tags: seq<int>, tag: int, i: nat): (k: nat)
    requires i <= |tags|
    ensures i <= k <= |tags| && (k < |tags| ==> tags[k] == tag)
    ensures forall j :: i <= j < k ==> tags[j] != tag
    decreases |tags| - i
  {
    if i == |tags| || tags[i] == tag then i else Find(tags, tag, i + 1)
  }

  /** The oldest unprotected slot among the first k, or -1. */
  ghost function Oldest(l: Lru, active: set<int>, k: nat): (v: int)
    requires k <= |l.tags| == |l.ages|
    ensures -1 <= v < k
    ensures v >= 0 ==> l.tags[v] !in active && l.ages[v] < MAX_AGE
    ensures forall j :: 0 <= j < k && l.tags[j] !in active && l.ages[j] < MAX_AGE ==>
      v >= 0 && l.ages[v] <= l.ages[j]
  {
    if k == 0 then -1
    else
      var v := Oldest(l, active, k - 1);
      if l.tags[k - 1] !in active && l.ages[k - 1] < (if v < 0 then MAX_AGE else l.ages[v]) then k - 1 else v
  }

  /** The slot a missing tag goes to: an empty one, else the oldest unprotected one, else the first. */
  ghost function Choose(l: Lru, active: set<int>): (v: nat)
    requires 0 < |l.tags| == |l.ages|
    ensures v < |l.tags|
  {
    var empty, oldest := Find(l.tags, INVALID, 0), Oldest(l, active, |l.tags|);
    if empty < |l.tags| then empty else if oldest >= 0 then oldest else 0
  }

  /** One lookup: its slot becomes the most recent, after replacement if the tag was missing. */
  ghost function Fetch(l: Lru, active: set<int>, tag: int): (r: Lru)
    requires 0 < |l.tags| == |l.ages|
    ensures |r.tags| == |r.ages| == |l.tags|
  {
    var hit := Find(l.tags, tag, 0);
    var slot := if hit < |l.tags| then hit else Choose(l, active);
    Lru(l.tags[slot := tag], l.ages[slot := l.clock + 1], l.clock + 1)
  }

  ghost function FetchAll(l: Lru, active: set<int>, wanted: seq<int>): (r: Lru)
    requires 0 < |l.tags| == |l.ages|
    ensures |r.tags| == |r.ages| == |l.tags|
  {
    if |wanted| == 0 then l
    else Fetch(FetchAll(l, active, wanted[..|wanted| - 1]), active, wanted[|wanted| - 1])
  }

  ghost predicate Resident(l: Lru, wanted: set<int>) {
    forall g :: g in wanted ==> g in l.tags
  }

  // ------------------------------------------------------------------ one lookup

  lemma FetchIsSound(l: Lru, active: set<int>, tag: int, n: nat, limit: nat)
    requires Sound(l, n, limit) && n > 0 && 0 <= tag < limit
    ensures Sound(Fetch(l, active, tag), n, limit) && tag in Fetch(l, active, tag).tags
  {
    hide Choose;
    var hit := Find(l.tags, tag, 0);
    var slot := if hit < n then hit else Choose(l, active);
    assert Fetch(l, active, tag).tags[slot] == tag;
  }

  /** The slots used since the clock stood at `start` hold exactly the tags in `kept`. */
  ghost predicate Since(l: Lru, start: nat, kept: set<int>)
    requires |l.tags| == |l.ages|
  {
    && INVALID !in kept
    && forall i :: 0 <= i < |l.tags| ==> (l.ages[i] > start <==> l.tags[i] in kept)
  }

  /** If some slot is neither protected nor recently used, the victim is not recently used. */
  lemma VictimIsStale(l: Lru, active: set<int>, n: nat, limit: nat, start: nat, kept: set<int>)
    requires Sound(l, n, limit) && n > 0 && l.clock < MAX_AGE && Since(l, start, kept)
    requires INVALID in l.tags || exists i :: 0 <= i < n && l.tags[i] !in active + kept
    ensures l.ages[Choose(l, active)] <= start
  {
    if INVALID !in l.tags {
      var i :| 0 <= i < n && l.tags[i] !in active + kept;
      assert l.ages[Oldest(l, active, n)] <= l.ages[i];
    }
  }

  lemma FetchKeepsRecent(l: Lru, active: set<int>, tag: int, n: nat, limit: nat, start: nat, kept: set<int>)
    requires Sound(l, n, limit) && n > 0 && l.clock < MAX_AGE && Since(l, start, kept) && start <= l.clock
    requires 0 <= tag < limit && Resident(l, kept)
    requires tag in l.tags || INVALID in l.tags || exists i :: 0 <= i < n && l.tags[i] !in active + kept
    ensures Since(Fetch(l, active, tag), start, kept + {tag})
    ensures Resident(Fetch(l, active, tag), kept + {tag})
    ensures forall i :: 0 <= i < n && l.tags[i] in kept ==> Fetch(l, active, tag).tags[i] == l.tags[i]
  {
    hide Choose;
    var hit := Find(l.tags, tag, 0);
    var slot := if hit < n then hit else Choose(l, active);
    var r := Fetch(l, active, tag);
    if hit == n {
      assert tag !in l.tags;
      VictimIsStale(l, active, n, limit, start, kept);
    }
    assert r.tags[slot] == tag;
    forall g | g in kept ensures g in r.tags {
      var i :| 0 <= i < n && l.tags[i] == g;
      assert l.ages[i] > start;
      assert r.tags[i] == g || i == slot;
    }
  }

  // ------------------------------------------------------------------ pigeonhole

  /** More full slots than tags to hold: some slot holds another tag. */
  lemma SpareSlot(l: Lru, n: nat, limit: nat, held: set<int>)
    requires Sound(l, n, limit) && INVALID !in l.tags && |held| < n
    ensures exists i :: 0 <= i < n && l.tags[i] !in held
  {
    if forall i :: 0 <= i < n ==> l.tags[i] in held {
      DistinctSize(l.tags);
      SubsetSize(Elements(l.tags), held);
    }
  }

  // ------------------------------------------------------------------ runs of lookups

  /** The protected tags that a slot could hold. */
  ghost function InRange(active: set<int>, limit: nat): set<int> {
    set x | x in active && 0 <= x < limit
  }

  ghost predicate AllBelow(wanted: seq<int>, limit: nat) {
    forall i :: 0 <= i < |wanted| ==> 0 <= wanted[i] < limit
  }

  /** Whether a run of lookups can always end with everything it asked for. */
  ghost predicate Enough(active: set<int>, wanted: seq<int>, n: nat, limit: nat) {
    |Elements(wanted)| <= 1 || |Elements(wanted) + InRange(active, limit)| <= n
  }

  lemma {:induction false} FetchAllIsSound(l: Lru, active: set<int>, wanted: seq<int>, n: nat, limit: nat)
    requires Sound(l, n, limit) && n > 0 && AllBelow(wanted, limit)
    ensures Sound(FetchAll(l, active, wanted), n, limit)
    ensures FetchAll(l, active, wanted).clock == l.clock + |wanted|
  {
    hide Sound, Choose;
    SoundShape(l, n, limit);
    if |wanted| > 0 {
      var k := |wanted| - 1;
      FetchAllIsSound(l, active, wanted[..k], n, limit);
      FetchIsSound(FetchAll(l, active, wanted[..k]), active, wanted[k], n, limit);
    }
  }

  lemma NothingRecent(l: Lru, n: nat, limit: nat)
    requires Sound(l, n, limit)
    ensures Since(l, l.clock, {})
  {
  }

  lemma RoomForMissing(l: Lru, active: set<int>, n: nat, limit: nat, all: set<int>, tag: int, kept: set<int>)
    requires Sound(l, n, limit) && tag in all && tag !in l.tags && kept <= all && |all + InRange(active, limit)| <= n
    ensures INVALID in l.tags || exists i :: 0 <= i < n && l.tags[i] !in active + kept
  {
    if INVALID !in l.tags {
      var held := all + InRange(active, limit) - {tag};
      SpareSlot(l, n, limit, held);
      var i :| 0 <= i < n && l.tags[i] !in held;
      assert l.tags[i] !in active + kept;
    }
  }

  lemma {:induction false} RunKeepsRecent(l: Lru, active: set<int>, wanted: seq<int>, n: nat, limit: nat, all: set<int>)
    requires Sound(l, n, limit) && n > 0 && AllBelow(wanted, limit) && l.clock + |wanted| <= MAX_AGE
    requires Elements(wanted) <= all && |all + InRange(active, limit)| <= n
    ensures Since(FetchAll(l, active, wanted), l.clock, Elements(wanted))
    ensures Resident(FetchAll(l, active, wanted), Elements(wanted))
  {
    hide Since, Choose, Fetch, Sound, InRange;
    SoundShape(l, n, limit);
    if |wanted| == 0 {
      NothingRecent(l, n, limit);
      assert Elements(wanted) == {};
    } else {
      var k := |wanted| - 1;
      var front, tag := wanted[..k], wanted[k];
      var mid := FetchAll(l, active, front);
      RunKeepsRecent(l, active, front, n, limit, all);
      FetchAllIsSound(l, active, front, n, limit);
      assert Elements(wanted) == Elements(front) + {tag};
      if tag !in mid.tags {
        RoomForMissing(mid, active, n, limit, all, tag, Elements(front));
      }
      assert Sound(mid, n, limit);
      SoundShape(mid, n, limit);
      FetchKeepsRecent(mid, active, tag, n, limit, l.clock, Elements(front));
    }
  }

  lemma SoundShape(l: Lru, n: nat, limit: nat)
    requires Sound(l, n, limit)
    ensures |l.tags| == |l.ages| == n
  {
  }

  /** A single tag is always resident after its last lookup. */
  lemma SingleIsResident(l: Lru, active: set<int>, wanted: seq<int>, n: nat, limit: nat)
    requires Sound(l, n, limit) && n > 0 && AllBelow(wanted, limit) && |Elements(wanted)| <= 1
    ensures Resident(FetchAll(l, active, wanted), Elements(wanted))
  {
    if |wanted| > 0 {
      var k := |wanted| - 1;
      FetchAllIsSound(l, active, wanted[..k], n, limit);
      FetchIsSound(FetchAll(l, active, wanted[..k]), active, wanted[k], n, limit);
      forall g | g in Elements(wanted) ensures g == wanted[k] {
        SubsetSize({g, wanted[k]}, Elements(wanted));
      }
    }
  }

  /** Everything a run asked for is resident at its end, from any sound state, if there is enough. */
  lemma RunIsResident(l: Lru, active: set<int>, wanted: seq<int>, n: nat, limit: nat)
    requires Sound(l, n, limit) && n > 0 && AllBelow(wanted, limit) && l.clock + |wanted| <= MAX_AGE
    requires Enough(active, wanted, n, limit)
    ensures Resident(FetchAll(l, active, wanted), Elements(wanted))
  {
    if |Elements(wanted)| <= 1 {
      SingleIsResident(l, active, wanted, n, limit);
    } else {
      RunKeepsRecent(l, active, wanted, n, limit, Elements(wanted));
    }
  }

  lemma FetchMore(l: Lru, active: set<int>, wanted: seq<int>, tag: int)
    requires 0 < |l.tags| == |l.ages|
    ensures FetchAll(l, active, wanted + [tag]) == Fetch(FetchAll(l, active, wanted), active, tag)
  {
    hide Fetch;
    assert (wanted + [tag])[..|wanted|] == wanted;
  }

  /** While there is enough, a slot that a run has filled stays as it is. */
  lemma KeptSlotsStay(l: Lru, active: set<int>, wanted: seq<int>, k: nat, n: nat, limit: nat)
    requires Sound(l, n, limit) && n > 0 && AllBelow(wanted, limit) && l.clock + |wanted| <= MAX_AGE
    requires Enough(active, wanted, n, limit) && k < |wanted|
    ensures var mid := FetchAll(l, active, wanted[..k]);
      |mid.tags| == |mid.ages| == n &&
      forall i :: 0 <= i < n && mid.tags[i] in wanted[..k] ==>
        Fetch(mid, active, wanted[k]).tags[i] == mid.tags[i]
  {
    hide Choose, InRange, Since;
    var front, tag := wanted[..k], wanted[k];
    var mid := FetchAll(l, active, front);
    FetchAllIsSound(l, active, front, n, limit);
    SoundShape(mid, n, limit);
    if |Elements(wanted)| <= 1 {
      forall i | 0 <= i < n && mid.tags[i] in front
        ensures Fetch(mid, active, tag).tags[i] == mid.tags[i]
      {
        SubsetSize({mid.tags[i], tag}, Elements(wanted));
        assert mid.tags[i] == tag;
      }
    } else {
      SubsetSize(Elements(front), Elements(wanted));
      assert Elements(front) <= Elements(wanted);
      RunKeepsRecent(l, active, front, n, limit, Elements(wanted));
      if tag !in mid.tags {
        RoomForMissing(mid, active, n, limit, Elements(wanted), tag, Elements(front));
      }
      FetchKeepsRecent(mid, active, tag, n, limit, l.clock, Elements(front));
    }
  }

  /** With as many slots as protected tags, a lookup of one of those evicts none of the others. */
  lemma ProtectedStay(l: Lru, active: set<int>, tag: int, n: nat, limit: nat)
    requires Sound(l, n, limit) && n > 0 && l.clock < MAX_AGE && |active| <= n && tag in active && 0 <= tag < limit && INVALID !in active
    ensures forall i :: 0 <= i < n && l.tags[i] in active ==> Fetch(l, active, tag).tags[i] == l.tags[i]
  {
    if tag !in l.tags {
      SubsetSize({tag} + InRange(active, limit), active);
      RoomForMissing(l, active, n, limit, {tag}, tag, {});
      if INVALID !in l.tags {
        var i :| 0 <= i < n && l.tags[i] !in active;
        assert Oldest(l, active, n) >= 0 && l.tags[Choose(l, active)] !in active;
      }
    }
  }

  // ------------------------------------------------------------------ when there is not enough

  /** More different tags in play than slots, and two of them wanted: not enough. */
  lemma TooManyInPlay(active: set<int>, wanted: seq<int>, n: nat, limit: nat, some: seq<int>)
    requires |some| > n && forall i, j :: 0 <= i < j < |some| ==> some[i] != some[j]
    requires forall x :: x in some ==> x in wanted || (x in active && 0 <= x < limit)
    requires |wanted| >= 2 && wanted[0] != wanted[1]
    ensures !Enough(active, wanted, n, limit)
  {
    DistinctSize(some);
    SubsetSize(Elements(some), Elements(wanted) + InRange(active, limit));
    SubsetSize({wanted[0], wanted[1]}, Elements(wanted));
  }

  /** From slot `from` on the slots hold `locked`: protected tags that nobody asks for. */
  ghost predicate LockedUp(l: Lru, from: nat, locked: seq<int>) {
    && |l.tags| == |l.ages| == from + |locked|
    && forall j :: from <= j < |l.tags| ==> l.tags[j] == locked[j - from]
  }

  ghost predicate Protected(locked: seq<int>, active: set<int>, wanted: seq<int>) {
    forall i :: 0 <= i < |locked| ==> locked[i] in active && locked[i] != INVALID && locked[i] !in wanted
  }

  lemma FetchKeepsLocked(l: Lru, active: set<int>, tag: int, from: nat, locked: seq<int>)
    requires from > 0 && LockedUp(l, from, locked)
    requires forall i :: 0 <= i < |locked| ==> locked[i] in active && locked[i] != INVALID && locked[i] != tag
    ensures LockedUp(Fetch(l, active, tag), from, locked)
  {
    var r, n := Fetch(l, active, tag), |l.tags|;
    var hit := Find(l.tags, tag, 0);
    var slot := if hit < n then hit else Choose(l, active);
    assert slot < from;
  }

  lemma {:induction false} RunKeepsLocked(l: Lru, active: set<int>, wanted: seq<int>, from: nat, locked: seq<int>)
    requires from > 0 && LockedUp(l, from, locked) && Protected(locked, active, wanted)
    ensures LockedUp(FetchAll(l, active, wanted), from, locked)
  {
    hide Fetch, LockedUp;
    if |wanted| > 0 {
      var k := |wanted| - 1;
      forall i | 0 <= i < |locked| ensures locked[i] !in wanted[..k] && locked[i] != wanted[k] {
        assert wanted[k] in wanted;
      }
      LockedShape(l, from, locked);
      RunKeepsLocked(l, active, wanted[..k], from, locked);
      FetchKeepsLocked(FetchAll(l, active, wanted[..k]), active, wanted[k], from, locked);
    }
  }

  lemma LockedShape(l: Lru, from: nat, locked: seq<int>)
    requires LockedUp(l, from, locked)
    ensures |l.tags| == |l.ages| == from + |locked|
  {
  }

  lemma {:induction false} SomeOf(s: set<int>, p: nat) returns (q: seq<int>)
    requires p <= |s|
    ensures |q| == p && forall i :: 0 <= i < p ==> q[i] in s
    ensures forall i, j :: 0 <= i < j < p ==> q[i] != q[j]
    decreases p
  {
    if p == 0 {
      q := [];
    } else {
      var x := AnElement(s);
      q := SomeOf(s - {x}, p - 1);
      q := q + [x];
    }
  }

  lemma AnElement<T>(s: set<T>) returns (x: T)
    requires |s| > 0
    ensures x in s
  {
    x :| x in s;
  }

  /** What start-up leaves and every lookup keeps once all slots are in use: no slot is empty, and
      each was used at a time of its own. */
  ghost predicate Full(l: Lru) {
    && |l.tags| == |l.ages| && INVALID !in l.tags
    && (forall i :: 0 <= i < |l.ages| ==> l.ages[i] > 0)
    && (forall i, j :: 0 <= i < j < |l.ages| ==> l.ages[i] != l.ages[j])
  }

  lemma FetchKeepsFull(l: Lru, active: set<int>, tag: int, n: nat, limit: nat)
    requires Sound(l, n, limit) && n > 0 && Full(l) && 0 <= tag < limit
    ensures Full(Fetch(l, active, tag))
  {
  }

  /** The state a run cannot recover from: some slots hold anything, the rest are locked up. */
  ghost function LockedState(free: seq<int>, locked: seq<int>): Lru {
    var n := |free| + |locked|;
    Lru(free + locked, seq(n, i => i + 1), n)
  }

  lemma LockedStateIsSound(free: seq<int>, locked: seq<int>, limit: nat)
    requires limit <= INVALID && AllBelow(locked, limit) && AllBelow(free, limit)
    requires forall i, j :: 0 <= i < j < |locked| ==> locked[i] != locked[j]
    requires forall i, j :: 0 <= i < j < |free| ==> free[i] != free[j]
    requires forall i, j :: 0 <= i < |free| && 0 <= j < |locked| ==> free[i] != locked[j]
    ensures Sound(LockedState(free, locked), |free| + |locked|, limit) && Full(LockedState(free, locked))
    ensures LockedUp(LockedState(free, locked), |free|, locked)
  {
  }

  /** Tags outside the locked slots are at most as many as those slots. */
  lemma FreeTagsAreFew(l: Lru, from: nat, locked: seq<int>, wanted: set<int>)
    requires LockedUp(l, from, locked) && Resident(l, wanted)
    requires forall i :: 0 <= i < |locked| ==> locked[i] !in wanted
    ensures |wanted| <= from
  {
    var free := l.tags[..from];
    forall g | g in wanted ensures g in free {
      var i :| 0 <= i < |l.tags| && l.tags[i] == g;
      assert i < from;
      assert free[i] == g;
    }
    SubsetSize(wanted, Elements(free));
    ElementsSize(free);
  }

  /** Without enough slots there is a full cache, every slot used at a time of its own, from which
      the run loses something it asked for. */
  lemma RunFails(active: set<int>, wanted: seq<int>, n: nat, limit: nat) returns (l: Lru)
    requires n > 0 && limit <= INVALID && AllBelow(wanted, limit) && !Enough(active, wanted, n, limit)
    ensures Sound(l, n, limit) && Full(l) && l.clock == n
    ensures !Resident(FetchAll(l, active, wanted), Elements(wanted))
  {
    hide Sound, Full, LockedUp;
    var needed := Elements(wanted);
    var extra := InRange(active, limit) - needed;
    assert needed + InRange(active, limit) == needed + extra && needed !! extra;
    assert |needed + extra| == |needed| + |extra|;
    var p: nat := if |extra| < n then |extra| else n - 1;
    var locked := SomeOf(extra, p);
    var free := SomeOf(needed, n - p);
    l := LockedState(free, locked);
    assert AllBelow(locked, limit);
    assert AllBelow(free, limit) by {
      NeededAreBelow(wanted, limit);
    }
    LockedStateIsSound(free, locked, limit);
    assert Protected(locked, active, wanted) by {
      forall i | 0 <= i < |locked| ensures locked[i] in active && locked[i] != INVALID && locked[i] !in wanted {
        assert locked[i] in extra;
      }
    }
    RunKeepsLocked(l, active, wanted, n - p, locked);
    if Resident(FetchAll(l, active, wanted), needed) {
      FreeTagsAreFew(FetchAll(l, active, wanted), n - p, locked, needed);
    }
  }

  lemma NeededAreBelow(wanted: seq<int>, limit: nat)
    requires AllBelow(wanted, limit)
    ensures forall x :: x in Elements(wanted) ==> 0 <= x < limit
  {
  }

  /** With enough slots every sound state lets the run end with all it asked for; and that every full
      state does so already means that there are enough. */
  lemma ResidencyIff(active: set<int>, wanted: seq<int>, n: nat, limit: nat)
    requires n > 0 && limit <= INVALID && AllBelow(wanted, limit) && n + |wanted| <= MAX_AGE
    ensures Enough(active, wanted, n, limit) ==>
      forall l: Lru | Sound(l, n, limit) && l.clock + |wanted| <= MAX_AGE ::
        Resident(FetchAll(l, active, wanted), Elements(wanted))
    ensures Enough(active, wanted, n, limit) <==>
      forall l: Lru | Sound(l, n, limit) && Full(l) && l.clock + |wanted| <= MAX_AGE ::
        Resident(FetchAll(l, active, wanted), Elements(wanted))
  {
    hide Sound, Enough, Resident, Full;
    if Enough(active, wanted, n, limit) {
      forall l: Lru | Sound(l, n, limit) && l.clock + |wanted| <= MAX_AGE
        ensures |l.tags| == |l.ages| == n && Resident(FetchAll(l, active, wanted), Elements(wanted))
      {
        SoundShape(l, n, limit);
        RunIsResident(l, active, wanted, n, limit);
      }
    } else {
      var l := RunFails(active, wanted, n, limit);
    }
  }

  /** Whether an entry that leads to a slot of page q's group still does after a lookup: exactly if the
      lookup found its group, or put it into a slot that held another. */
  lemma TagStaysIff(l: Lru, active: set<int>, tag: int, n: nat, limit: nat, slot: nat, held: int)
    requires Sound(l, n, limit) && n > 0 && 0 <= tag < limit && slot < n && l.tags[slot] == held && held != INVALID
    ensures Fetch(l, active, tag).tags[slot] == held <==> tag in l.tags || l.tags[Choose(l, active)] != held
  {
  }
}
