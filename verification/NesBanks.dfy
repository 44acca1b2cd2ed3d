/**
 The program bank registers of the NES: the page in each 8 KB window, as the bank switching
 routines of the mappers set them.

 Register 0 is the window at $6000, registers 1 to 4 are those at $8000, $A000, $C000 and $E000.
 A page number is masked with the ROM size less one, in units of 8, 16 or 32 KB. On a ROM of an odd
 number of 16 KB pages the last 32 KB page reaches past the end of the ROM.
 */
module NesBanks {
  import opened Arith

  datatype Switch = Bank(i: nat, page: nat) | Low(page: nat) | High(page: nat) | All(page: nat)

  /** The bits of page that mask has too. */
  function Masked(page: nat, mask: nat): (r: nat)
    ensures r <= mask && r <= page
  {
    if page == 0 || mask == 0 then 0
    else 2 * Masked(page / 2, mask / 2) + (if page % 2 == 1 && mask % 2 == 1 then 1 else 0)
  }

  /** Bit k of a number. */
  predicate Bit(n: nat, k: nat) {
    if k == 0 then n % 2 == 1 else Bit(n / 2, k - 1)
  }

  /** Byte k of the four registers that a 32 KB switch writes as one word: (m << 2) + k in each byte,
      but from page 64 on a bit of the byte below spills into bit 0. */
  function Part(m: nat, k: nat): (b: nat)
    requires m < 128 && k < 4
    ensures b < 256
  {
    4 * m % 256 + if m >= 64 && k == 2 then 3 else k
  }

  function Switched(romPages: nat, banks: seq<int>, s: Switch): (r: seq<int>)
    requires 0 < romPages <= 255 && |banks| == 5 && (s.Bank? ==> 1 <= s.i <= 4)
    ensures |r| == 5 && r[0] == banks[0]
  {
    match s
    case Bank(i, page) => banks[i := Masked(page, 2 * romPages - 1) % 256]
    case Low(page) =>
      var p := 2 * Masked(page, romPages - 1);
      banks[1 := p % 256][2 := (p + 1) % 256]
    case High(page) =>
      var p := 2 * Masked(page, romPages - 1);
      banks[3 := p % 256][4 := (p + 1) % 256]
    case All(page) =>
      var m := Masked(page, (romPages - 1) / 2);
      [banks[0], Part(m, 0), Part(m, 1), Part(m, 2), Part(m, 3)]
  }

  /** Whether a switch sets window i. */
  predicate Sets(s: Switch, i: nat) {
    match s
    case Bank(j, _) => i == j
    case Low(_) => i == 1 || i == 2
    case High(_) => i == 3 || i == 4
    case All(_) => 1 <= i <= 4
  }

  /** The page that it maps there, which may not fit the register. */
  function SetPage(romPages: nat, s: Switch, i: nat): nat
    requires romPages > 0 && 1 <= i <= 4
  {
    match s
    case Bank(_, page) => Masked(page, 2 * romPages - 1)
    case Low(page) => 2 * Masked(page, romPages - 1) + (i - 1) % 2
    case High(page) => 2 * Masked(page, romPages - 1) + (i - 1) % 2
    case All(page) => 4 * Masked(page, (romPages - 1) / 2) + i - 1
  }

  /** The pages in the windows after a switch. */
  function Paged(romPages: nat, pages: seq<nat>, s: Switch): (r: seq<nat>)
    requires romPages > 0 && |pages| == 5
    ensures |r| == 5 && r[0] == pages[0]
    ensures forall i :: 1 <= i < 5 ==> r[i] == if Sets(s, i) then SetPage(romPages, s, i) else pages[i]
  {
    seq(5, i requires 0 <= i < 5 => if i > 0 && Sets(s, i) then SetPage(romPages, s, i) else pages[i])
  }

  function PagedAll(romPages: nat, pages: seq<nat>, ss: seq<Switch>): (r: seq<nat>)
    requires romPages > 0 && |pages| == 5
    ensures |r| == 5
    decreases |ss|
  {
    if |ss| == 0 then pages else PagedAll(romPages, Paged(romPages, pages, ss[0]), ss[1..])
  }

  function SwitchedAll(romPages: nat, banks: seq<int>, ss: seq<Switch>): (r: seq<int>)
    requires 0 < romPages <= 255 && |banks| == 5 && forall k :: 0 <= k < |ss| && ss[k].Bank? ==> 1 <= ss[k].i <= 4
    ensures |r| == 5 && r[0] == banks[0]
    decreases |ss|
  {
    if |ss| == 0 then banks else SwitchedAll(romPages, Switched(romPages, banks, ss[0]), ss[1..])
  }

  /** Register i holds the half of the last 32 KB page that lies past the end of the ROM. */
  predicate PastEnd(romPages: nat, banks: seq<int>, i: nat)
    requires i < |banks|
  {
    romPages % 2 == 1 && ((i == 3 && banks[i] == 2 * romPages) || (i == 4 && banks[i] == 2 * romPages + 1))
  }

  /** What bank switching can leave in the registers: pages of the ROM, or that half page. */
  predicate Reached(romPages: nat, banks: seq<int>) {
    && |banks| == 5
    && forall i :: 1 <= i <= 4 ==> 0 <= banks[i] < 256 && (banks[i] < 2 * romPages || PastEnd(romPages, banks, i))
  }

  /** Five different groups: group 0, the last group, and those of three registers. */
  predicate Apart(romPages: nat, a: int, b: int, c: int) {
    var last := romPages / 2;
    a != 0 && b != 0 && c != 0 && last != 0 && a != last && b != last && c != last && a != b && a != c && b != c
  }

  /** One half of the past-the-end page is mapped and the other is not, and the other three registers
      are in groups of their own. Page 255 stands for no page and is not counted. */
  predicate Crowded(romPages: nat, banks: seq<int>)
    requires |banks| == 5
  {
    || (PastEnd(romPages, banks, 3) && !PastEnd(romPages, banks, 4)
      && Apart(romPages, banks[1] / 4, banks[2] / 4, banks[4] / 4))
    || (PastEnd(romPages, banks, 4) && !PastEnd(romPages, banks, 3) && banks[4] != 255
      && Apart(romPages, banks[1] / 4, banks[2] / 4, banks[3] / 4))
  }

  lemma SwitchKeepsReached(romPages: nat, banks: seq<int>, s: Switch)
    requires 0 < romPages <= 255 && Reached(romPages, banks) && (s.Bank? ==> 1 <= s.i <= 4)
    ensures Reached(romPages, Switched(romPages, banks, s))
  {
    hide Masked, Part;
    match s
    case Bank(i, page) =>
      LowByte(Masked(page, 2 * romPages - 1), 2 * romPages);
    case Low(page) =>
      LowByte(2 * Masked(page, romPages - 1), 2 * romPages);
      LowByte(2 * Masked(page, romPages - 1) + 1, 2 * romPages);
    case High(page) =>
      LowByte(2 * Masked(page, romPages - 1), 2 * romPages);
      LowByte(2 * Masked(page, romPages - 1) + 1, 2 * romPages);
    case All(page) =>
      AllIsReached(romPages, banks, page);
  }

  lemma LowByte(p: nat, limit: nat)
    requires p < limit
    ensures 0 <= p % 256 < limit && p % 256 < 256
  {
  }

  lemma AllIsReached(romPages: nat, banks: seq<int>, page: nat)
    requires 0 < romPages <= 255 && |banks| == 5
    ensures Reached(romPages, Switched(romPages, banks, All(page)))
  {
    hide Masked, Part;
    PartIs(romPages, Masked(page, (romPages - 1) / 2));
  }

  /** With at most 127 pages the four registers hold consecutive pages; with more, any byte is in the ROM. */
  lemma PartIs(romPages: nat, m: nat)
    requires 0 < romPages <= 255 && m <= (romPages - 1) / 2
    ensures forall k :: 0 <= k < 4 ==> Part(m, k) < 2 * romPages || (romPages % 2 == 1 && k >= 2 && Part(m, k) == 2 * romPages + k - 2)
  {
  }

  /** The bytes that a 32 KB switch writes: consecutive pages, until a bit spills over from page 256 on. */
  lemma PartBytes(m: nat)
    requires m < 128
    ensures m < 64 ==> Part(m, 0) == 4 * m && Part(m, 1) == 4 * m + 1 && Part(m, 2) == 4 * m + 2 && Part(m, 3) == 4 * m + 3
    ensures m >= 64 ==> var low := 4 * m - 256;
      Part(m, 0) == low && Part(m, 1) == low + 1 && Part(m, 2) == low + 3 && Part(m, 3) == low + 3
  {
  }

  /** After any run of bank switches. */
  lemma {:induction false} SwitchingReaches(romPages: nat, banks: seq<int>, ss: seq<Switch>)
    requires 0 < romPages <= 255 && Reached(romPages, banks)
    requires forall k :: 0 <= k < |ss| && ss[k].Bank? ==> 1 <= ss[k].i <= 4
    ensures Reached(romPages, SwitchedAll(romPages, banks, ss))
    decreases |ss|
  {
    assert |banks| == 5;
    hide Switched, Reached;
    if |ss| > 0 {
      SwitchKeepsReached(romPages, banks, ss[0]);
      SwitchingReaches(romPages, Switched(romPages, banks, ss[0]), ss[1..]);
    }
  }

  /** A 32 KB switch sets both halves, so switching all windows at once never crowds them. */
  lemma AllIsNotCrowded(romPages: nat, banks: seq<int>, page: nat)
    requires 0 < romPages <= 255 && |banks| == 5
    ensures !Crowded(romPages, Switched(romPages, banks, All(page)))
  {
    hide Masked, Apart;
  }

  /** Neither do 16 KB switches, which set both upper windows to pages of the ROM or leave both. */
  lemma HalvesAreNotCrowded(romPages: nat, banks: seq<int>, page: nat)
    requires 0 < romPages <= 255 && Reached(romPages, banks)
    ensures !Crowded(romPages, Switched(romPages, banks, High(page)))
    ensures PastEnd(romPages, banks, 3) == PastEnd(romPages, banks, 4) ==>
      !Crowded(romPages, Switched(romPages, banks, Low(page)))
  {
    hide Masked, Apart;
  }

  /** So no run of 16 and 32 KB switches ever crowds them. */
  lemma {:induction false} WideSwitchesNeverCrowd(romPages: nat, banks: seq<int>, ss: seq<Switch>)
    requires 0 < romPages <= 255 && Reached(romPages, banks) && forall k :: 0 <= k < |ss| ==> !ss[k].Bank?
    requires |banks| == 5 && PastEnd(romPages, banks, 3) == PastEnd(romPages, banks, 4)
    ensures !Crowded(romPages, SwitchedAll(romPages, banks, ss))
    decreases |ss|
  {
    hide Switched, Reached, Apart, PastEnd;
    if |ss| > 0 {
      SwitchKeepsReached(romPages, banks, ss[0]);
      WideKeepsPair(romPages, banks, ss[0]);
      WideSwitchesNeverCrowd(romPages, Switched(romPages, banks, ss[0]), ss[1..]);
    }
  }

  lemma WideKeepsPair(romPages: nat, banks: seq<int>, s: Switch)
    requires 0 < romPages <= 255 && Reached(romPages, banks) && !s.Bank?
    requires PastEnd(romPages, banks, 3) == PastEnd(romPages, banks, 4)
    ensures var r := Switched(romPages, banks, s); PastEnd(romPages, r, 3) == PastEnd(romPages, r, 4)
  {
    hide Masked;
  }

  /** The two lower windows in one group, as after a 16 or 32 KB switch, are never crowded either; nor
      are registers of which both upper ones, or neither, are past the end. */
  lemma PairIsNotCrowded(romPages: nat, banks: seq<int>)
    requires |banks| == 5 && (banks[1] / 4 == banks[2] / 4 || PastEnd(romPages, banks, 3) == PastEnd(romPages, banks, 4))
    ensures !Crowded(romPages, banks)
  {
    hide PastEnd;
  }

  lemma FourSwitches(romPages: nat, banks: seq<int>, ss: seq<Switch>)
    requires 0 < romPages <= 255 && |banks| == 5 && |ss| == 4
    requires forall k :: 0 <= k < |ss| && ss[k].Bank? ==> 1 <= ss[k].i <= 4
    ensures SwitchedAll(romPages, banks, ss) ==
      Switched(romPages, Switched(romPages, Switched(romPages, Switched(romPages, banks, ss[0]), ss[1]), ss[2]), ss[3])
  {
    hide Switched;
    var b1 := Switched(romPages, banks, ss[0]);
    var b2 := Switched(romPages, b1, ss[1]);
    var b3 := Switched(romPages, b2, ss[2]);
    assert ss[1..][1..] == ss[2..] && ss[2..][1..] == ss[3..] && ss[3..][1..] == [];
    assert SwitchedAll(romPages, b3, ss[3..]) == Switched(romPages, b3, ss[3]);
    assert SwitchedAll(romPages, b2, ss[2..]) == SwitchedAll(romPages, b3, ss[3..]);
    assert SwitchedAll(romPages, b1, ss[1..]) == SwitchedAll(romPages, b2, ss[2..]);
  }

  // ------------------------------------------------------------------ masking

  /** Masking is a bitwise conjunction. */
  lemma {:induction false} MaskedBits(page: nat, mask: nat, k: nat)
    ensures Bit(Masked(page, mask), k) <==> Bit(page, k) && Bit(mask, k)
    decreases k
  {
    if page == 0 || mask == 0 {
      NoBits(k);
    } else if k > 0 {
      MaskedBits(page / 2, mask / 2, k - 1);
    }
  }

  lemma {:induction false} NoBits(k: nat)
    ensures !Bit(0, k)
    decreases k
  {
    if k > 0 {
      NoBits(k - 1);
    }
  }

  /** And a number is determined by its bits. */
  lemma {:induction false} SameBits(a: nat, b: nat)
    requires forall k: nat :: Bit(a, k) <==> Bit(b, k)
    ensures a == b
    decreases a + b
  {
    assert Bit(a, 0) <==> Bit(b, 0);
    if a > 0 || b > 0 {
      forall k: nat ensures Bit(a / 2, k) <==> Bit(b / 2, k) {
        assert Bit(a, k + 1) <==> Bit(b, k + 1);
      }
      SameBits(a / 2, b / 2);
    }
  }

  /** On a ROM of 2^n units a page number is taken modulo the ROM size. */
  lemma {:induction false} MaskedIsRemainder(page: nat, n: nat, size: nat)
    requires size == Pow2(n)
    ensures Masked(page, size - 1) == page % size
  {
    if n > 0 {
      var half := Pow2(n - 1);
      assert size == 2 * half;
      hide Pow2;
      MaskedIsRemainder(page / 2, n - 1, half);
      MaskedDouble(page, half);
      hide Masked;
    }
  }

  lemma MaskedDouble(page: nat, p: nat)
    requires p > 0 && Masked(page / 2, p - 1) == page / 2 % p
    ensures Masked(page, 2 * p - 1) == page % (2 * p)
  {
    hide Masked;
    LowBitKept(page, p);
    RemainderOfDouble(page, p);
  }

  lemma LowBitKept(page: nat, p: nat)
    requires p > 0
    ensures Masked(page, 2 * p - 1) == 2 * Masked(page / 2, p - 1) + page % 2
  {
    assert (2 * p - 1) / 2 == p - 1;
  }

  lemma RemainderOfDouble(x: nat, p: nat)
    requires p > 0
    ensures x % (2 * p) == 2 * (x / 2 % p) + x % 2
  {
    var h := x / 2;
    DivMod(h, p);
    var q, r := h / p, h % p;
    Distribute(2, p * q, r);
    MulAssoc(2, p, q);
    QuotientIs(x, 2 * p, q, 2 * r + x % 2);
  }

  /** A number of which all but perhaps the lowest bits are set selects the last page, or the one before. */
  lemma {:induction false} OnesSelectLast(mask: nat, n: nat)
    requires mask < Pow2(n)
    ensures Masked(Pow2(n) - 1, mask) == mask
  {
    if mask > 0 {
      OnesSelectLast(mask / 2, n - 1);
      assert (2 * Pow2(n - 1) - 1) / 2 == Pow2(n - 1) - 1;
    }
  }

  lemma SecondToLast(mask: nat, n: nat)
    requires mask % 2 == 1 && mask < Pow2(n) && n > 0
    ensures Masked(Pow2(n) - 2, mask) == mask - 1
  {
    OnesSelectLast(mask / 2, n - 1);
    assert (2 * Pow2(n - 1) - 2) / 2 == Pow2(n - 1) - 1;
  }

  /** The default switches: the last page, the last but one (as at $C000 of MMC3), and the last 16 KB. */
  lemma DefaultSwitches(romPages: nat, banks: seq<int>)
    requires 0 < romPages <= 255 && |banks| == 5
    ensures Switched(romPages, banks, Bank(4, 0xFFFF_FFFF)) == banks[4 := (2 * romPages - 1) % 256]
    ensures Switched(romPages, banks, Bank(3, 0xFFFF_FFFE)) == banks[3 := (2 * romPages - 2) % 256]
    ensures Switched(romPages, banks, High(0xFFFF_FFFF)) == banks[3 := (2 * romPages - 2) % 256][4 := (2 * romPages - 1) % 256]
  {
    DefaultMasks(romPages);
    hide Masked, Switched;
    BankSwitched(romPages, banks, 4, 0xFFFF_FFFF);
    BankSwitched(romPages, banks, 3, 0xFFFF_FFFE);
    HighSwitched(romPages, banks, 0xFFFF_FFFF);
  }

  lemma BankSwitched(romPages: nat, banks: seq<int>, i: nat, page: nat)
    requires 0 < romPages <= 255 && |banks| == 5 && 1 <= i <= 4
    ensures Switched(romPages, banks, Bank(i, page)) == banks[i := Masked(page, 2 * romPages - 1) % 256]
  {
    hide Masked;
  }

  lemma HighSwitched(romPages: nat, banks: seq<int>, page: nat)
    requires 0 < romPages <= 255 && |banks| == 5
    ensures Switched(romPages, banks, High(page)) ==
      banks[3 := 2 * Masked(page, romPages - 1) % 256][4 := (2 * Masked(page, romPages - 1) + 1) % 256]
  {
    hide Masked;
  }

  lemma DefaultMasks(romPages: nat)
    requires 0 < romPages <= 255
    ensures Masked(0xFFFF_FFFF, 2 * romPages - 1) == 2 * romPages - 1
    ensures Masked(0xFFFF_FFFE, 2 * romPages - 1) == 2 * romPages - 2
    ensures Masked(0xFFFF_FFFF, romPages - 1) == romPages - 1
  {
    hide Masked, Pow2;
    Pow2Of32();
    OnesSelectLast(2 * romPages - 1, 32);
    OnesSelectLast(romPages - 1, 32);
    SecondToLast(2 * romPages - 1, 32);
  }

  /** On a ROM of 2^n 16 KB pages a switch maps the page asked for, modulo the size of the ROM. */
  lemma SwitchesModulo(n: nat, romPages: nat, pages: seq<nat>, s: Switch)
    requires romPages == Pow2(n) && |pages| == 5 && (s.Bank? ==> 1 <= s.i <= 4)
    ensures match s
      case Bank(i, page) => Paged(romPages, pages, s) == pages[i := page % (2 * romPages)]
      case Low(page) => var p := 2 * (page % romPages); Paged(romPages, pages, s) == [pages[0], p, p + 1, pages[3], pages[4]]
      case High(page) => var p := 2 * (page % romPages); Paged(romPages, pages, s) == [pages[0], pages[1], pages[2], p, p + 1]
      case All(page) => n > 0 ==>
        var p := 4 * (page % (romPages / 2)); Paged(romPages, pages, s) == [pages[0], p, p + 1, p + 2, p + 3]
  {
    hide Paged, Pow2;
    match s
    case Bank(i, page) => ModuloOne(n, romPages, pages, i, page);
    case Low(page) => ModuloHalf(n, romPages, pages, page);
    case High(page) => ModuloHalf(n, romPages, pages, page);
    case All(page) =>
      if n > 0 {
        ModuloAll(n, romPages, pages, page);
      }
  }

  lemma ModuloOne(n: nat, romPages: nat, pages: seq<nat>, i: nat, page: nat)
    requires romPages == Pow2(n) && |pages| == 5 && 1 <= i <= 4
    ensures Paged(romPages, pages, Bank(i, page)) == pages[i := page % (2 * romPages)]
  {
    MaskedIsRemainder(page, n + 1, 2 * romPages);
    hide Masked;
  }

  lemma ModuloHalf(n: nat, romPages: nat, pages: seq<nat>, page: nat)
    requires romPages == Pow2(n) && |pages| == 5
    ensures var p := 2 * (page % romPages);
      && Paged(romPages, pages, Low(page)) == [pages[0], p, p + 1, pages[3], pages[4]]
      && Paged(romPages, pages, High(page)) == [pages[0], pages[1], pages[2], p, p + 1]
  {
    MaskedIsRemainder(page, n, romPages);
    hide Masked, Pow2;
  }

  lemma ModuloAll(n: nat, romPages: nat, pages: seq<nat>, page: nat)
    requires romPages == Pow2(n) && |pages| == 5 && n > 0
    ensures var p := 4 * (page % (romPages / 2)); Paged(romPages, pages, All(page)) == [pages[0], p, p + 1, p + 2, p + 3]
  {
    MaskedIsRemainder(page, n - 1, romPages / 2);
    var half, m := romPages / 2, Masked(page, (romPages - 1) / 2);
    assert half == Pow2(n - 1) && (romPages - 1) / 2 == half - 1;
    hide Masked, Pow2;
    assert m == page % half;
    AllPaged(romPages, pages, page, m);
  }

  lemma AllPaged(romPages: nat, pages: seq<nat>, page: nat, m: nat)
    requires romPages > 0 && |pages| == 5 && m == Masked(page, (romPages - 1) / 2)
    ensures Paged(romPages, pages, All(page)) == [pages[0], 4 * m, 4 * m + 1, 4 * m + 2, 4 * m + 3]
  {
    hide Masked;
  }

  // ------------------------------------------------------------------ registers and pages

  /** Each register holds the page in its window, unless the page does not fit a byte. */
  predicate Tracks(romPages: nat, banks: seq<int>, pages: seq<nat>) {
    && |banks| == |pages| == 5
    && forall i :: 1 <= i <= 4 ==> 0 <= banks[i] < 256 && TracksPage(romPages, banks[i], pages[i], i)
  }

  predicate TracksPage(romPages: nat, bank: int, page: nat, i: nat) {
    if page >= 256 then 2 * romPages > 256
    else bank == page && (page < 2 * romPages || (romPages % 2 == 1 && 3 <= i <= 4 && page == 2 * romPages + i - 3))
  }

  lemma SwitchKeepsTrack(romPages: nat, banks: seq<int>, pages: seq<nat>, s: Switch)
    requires 0 < romPages <= 255 && Tracks(romPages, banks, pages) && (s.Bank? ==> 1 <= s.i <= 4)
    ensures Tracks(romPages, Switched(romPages, banks, s), Paged(romPages, pages, s))
  {
    hide Masked, TracksPage, Part;
    var r, p := Switched(romPages, banks, s), Paged(romPages, pages, s);
    forall i | 1 <= i <= 4 ensures 0 <= r[i] < 256 && TracksPage(romPages, r[i], p[i], i) {
      if Sets(s, i) {
        SetTracks(romPages, banks, s, i);
      } else {
        assert r[i] == banks[i] && p[i] == pages[i];
      }
    }
  }

  lemma SetTracks(romPages: nat, banks: seq<int>, s: Switch, i: nat)
    requires 0 < romPages <= 255 && |banks| == 5 && (s.Bank? ==> 1 <= s.i <= 4) && 1 <= i <= 4 && Sets(s, i)
    ensures var b := Switched(romPages, banks, s)[i];
      0 <= b < 256 && TracksPage(romPages, b, SetPage(romPages, s, i), i)
  {
    hide Masked, TracksPage, Part;
    match s
    case Bank(_, page) => ByteTracks(romPages, Masked(page, 2 * romPages - 1), i);
    case Low(page) =>
      ByteTracks(romPages, 2 * Masked(page, romPages - 1), i);
      ByteTracks(romPages, 2 * Masked(page, romPages - 1) + 1, i);
    case High(page) =>
      ByteTracks(romPages, 2 * Masked(page, romPages - 1), i);
      ByteTracks(romPages, 2 * Masked(page, romPages - 1) + 1, i);
    case All(page) => PartTracks(romPages, Masked(page, (romPages - 1) / 2), i);
  }

  lemma ByteTracks(romPages: nat, page: nat, i: nat)
    requires page < 2 * romPages && 1 <= i <= 4
    ensures 0 <= page % 256 < 256 && TracksPage(romPages, page % 256, page, i)
  {
  }

  lemma PartTracks(romPages: nat, m: nat, i: nat)
    requires 0 < romPages <= 255 && m <= (romPages - 1) / 2 && 1 <= i <= 4
    ensures TracksPage(romPages, Part(m, i - 1), 4 * m + i - 1, i)
  {
    assert 2 * m <= romPages - 1;
    if m < 64 {
      assert Part(m, i - 1) == 4 * m + i - 1;
    }
  }

  /** After any run of switches. */
  lemma {:induction false} SwitchingTracks(romPages: nat, banks: seq<int>, pages: seq<nat>, ss: seq<Switch>)
    requires 0 < romPages <= 255 && Tracks(romPages, banks, pages)
    requires forall k :: 0 <= k < |ss| && ss[k].Bank? ==> 1 <= ss[k].i <= 4
    ensures Tracks(romPages, SwitchedAll(romPages, banks, ss), PagedAll(romPages, pages, ss))
    decreases |ss|
  {
    assert |banks| == |pages| == 5;
    hide Switched, Paged, Tracks;
    if |ss| > 0 {
      SwitchKeepsTrack(romPages, banks, pages, ss[0]);
      SwitchingTracks(romPages, Switched(romPages, banks, ss[0]), Paged(romPages, pages, ss[0]), ss[1..]);
    }
  }

  /** Up to 128 pages every page fits its register, and the registers are ones that switching reaches. */
  lemma TrackedIsReached(romPages: nat, banks: seq<int>, pages: seq<nat>)
    requires 0 < romPages <= 255 && Tracks(romPages, banks, pages)
    ensures Reached(romPages, banks)
  {
  }

  /** On a ROM of 15 pages: the last 32 KB page, then three 8 KB pages, the one at $C000 left alone. */
  lemma MixedSwitchesCrowd(banks: seq<int>)
    requires |banks| == 5
    ensures var ss := [All(7), Bank(1, 4), Bank(2, 8), Bank(4, 12)];
      SwitchedAll(15, banks, ss) == [banks[0], 4, 8, 30, 12] && Crowded(15, SwitchedAll(15, banks, ss))
  {
    hide Masked, SwitchedAll;
    var ss := [All(7), Bank(1, 4), Bank(2, 8), Bank(4, 12)];
    SmallPages();
    FourSwitches(15, banks, ss);
    assert Switched(15, banks, All(7)) == [banks[0], 28, 29, 30, 31];
    assert SwitchedAll(15, banks, ss) == [banks[0], 4, 8, 30, 12];
  }

  lemma SmallPages()
    ensures Masked(4, 29) == 4 && Masked(8, 29) == 8 && Masked(12, 29) == 12 && Masked(7, 7) == 7
  {
    assert Masked(1, 7) == 1 && Masked(2, 14) == 2 && Masked(1, 3) == 1 && Masked(3, 7) == 3;
    assert Masked(4, 14) == 4 && Masked(6, 14) == 6;
  }
}
