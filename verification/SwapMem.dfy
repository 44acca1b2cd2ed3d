/**
 The in-place exchange of two adjacent memory blocks, used to rearrange ROM banks.

 Memory is an array of 32-bit words and a pointer is a word index; sizes are bytes, as in
 the source. `SimpleSwap32` is the four-words-at-a-time loop that is linked in, not the
 word-at-a-time loop that the comment in `swapmem` says it stands for. The two differ
 when the blocks are less than four words apart, and the theorems below say exactly when
 that matters.
 */
module SwapMem {
  import opened Arith

  type Word = w: int | 0 <= w < 0x1_0000_0000

  // ------------------------------------------------------------------ meaning

  /** Exchanging the blocks [b, b+gap) and [b+gap, b+gap+n): what a caller asks for. */
  ghost function Exchanged(s: seq<Word>, b: nat, gap: nat, n: nat): seq<Word>
    requires b + gap + n <= |s|
  {
    s[..b] + s[b + gap..b + gap + n] + s[b..b + gap] + s[b + gap + n..]
  }

  /** One turn of the word loop in the comment: exchange a word of each block. */
  ghost function SwapOne(s: seq<Word>, p: nat, q: nat): seq<Word>
    requires p < |s| && q < |s|
  {
    s[p := s[q]][q := s[p]]
  }

  /** The word loop: n words, block at b against the block gap words further on. */
  ghost function WordSwap(s: seq<Word>, b: nat, gap: nat, n: nat): (r: seq<Word>)
    requires b + gap + n <= |s|
    ensures |r| == |s|
    decreases n
  {
    if n == 0 then s else WordSwap(SwapOne(s, b + gap, b), b + 1, gap, n - 1)
  }

  /** s with the words q written from index `at` on. */
  ghost function Put(s: seq<Word>, at: nat, q: seq<Word>): (r: seq<Word>)
    requires at + |q| <= |s|
    ensures |r| == |s|
  {
    s[..at] + q + s[at + |q|..]
  }

  /** One turn of the fast loop: both quads are loaded before either is stored. */
  ghost function SwapQuad(s: seq<Word>, b: nat, gap: nat): (r: seq<Word>)
    requires b + gap + 4 <= |s|
    ensures |r| == |s|
  {
    Put(Put(s, b + gap, s[b..b + 4]), b, s[b + gap..b + gap + 4])
  }

  /** The fast loop followed by its word-sized tail. */
  ghost function QuadSwap(s: seq<Word>, b: nat, gap: nat, n: nat): (r: seq<Word>)
    requires b + gap + n <= |s|
    ensures |r| == |s|
    decreases n
  {
    if n >= 4 then QuadSwap(SwapQuad(s, b, gap), b + 4, gap, n - 4) else WordSwap(s, b, gap, n)
  }

  /** The remainder `mod` computes, on word counts: 1..gap for a positive gap, 0 otherwise. */
  ghost function Rest(n: nat, gap: nat): (r: nat)
    ensures r <= gap && r <= n
    ensures gap > 0 && n > 0 ==> r > 0
  {
    if gap == 0 then 0 else if n <= gap then n else Rest(n - gap, gap)
  }

  ghost predicate Congruent(x: int, y: int, b: int)
    requires b > 0
  {
    x % b == y % b
  }

  lemma CongruentStep(less: int, x: int, y: int, b: int)
    requires b > 0 && x == less + b && Congruent(x, y, b)
    ensures Congruent(less, y, b)
  {
    ModAddMultiple(less, b, 1);
  }

  /** What the do-while loop of `swapmem` leaves in memory. */
  ghost function Rotated(s: seq<Word>, b: nat, gap: nat, n: nat): (r: seq<Word>)
    requires b + gap + n <= |s|
    ensures |r| == |s|
    decreases gap + n
  {
    var rest := Rest(n, gap);
    if rest == 0 then QuadSwap(s, b, gap, n)
    else Rotated(QuadSwap(s, b, gap, n), b + n, gap - rest, rest)
  }

  /** The same loop over the word-at-a-time swap that the source's comment describes. */
  ghost function RotatedByWords(s: seq<Word>, b: nat, gap: nat, n: nat): (r: seq<Word>)
    requires b + gap + n <= |s|
    ensures |r| == |s|
    decreases gap + n
  {
    var rest := Rest(n, gap);
    if rest == 0 then WordSwap(s, b, gap, n)
    else RotatedByWords(WordSwap(s, b, gap, n), b + n, gap - rest, rest)
  }

  /** No turn of the loop moves four words or more across a gap of one to three words. */
  ghost predicate GapSafe(gap: nat, n: nat)
    decreases gap + n
  {
    && (gap == 0 || gap >= 4 || n < 4)
    && var rest := Rest(n, gap);
       rest == 0 || GapSafe(gap - rest, rest)
  }

  // ------------------------------------------------------------------ the code

  /** Reduces a by b while it exceeds b, so an exact multiple gives b and not 0. */
  method Mod(a: nat, b: nat) returns (r: nat)
    requires a % 4 == 0 && b % 4 == 0
    ensures r == 4 * Rest(a / 4, b / 4)
    ensures b > 0 ==> r <= b && (a > 0 ==> r > 0) && Congruent(r, a, b)
    ensures b == 0 ==> r == 0
  {
    if b < 2 {
      return 0;
    }
    r := a;
    assert Congruent(r, a, b);
    hide Congruent;
    while r > b
      invariant r % 4 == 0 && Rest(r / 4, b / 4) == Rest(a / 4, b / 4)
      invariant r <= a && (a > 0 ==> r > 0) && Congruent(r, a, b)
      decreases r
    {
      var less := r - b;
      assert less / 4 == r / 4 - b / 4;
      CongruentStep(less, r, a, b);
      r := less;
    }
  }

  method StoreQuad(mem: array<Word>, at: nat, w0: Word, w1: Word, w2: Word, w3: Word)
    requires at + 4 <= mem.Length
    modifies mem
    ensures mem[..] == Put(old(mem[..]), at, [w0, w1, w2, w3])
  {
    mem[at] := w0;
    mem[at + 1] := w1;
    mem[at + 2] := w2;
    mem[at + 3] := w3;
  }

  /** Loads four words of each block, then stores both quads, the far one first. */
  method SwapQuads(mem: array<Word>, a: nat, b: nat)
    requires b <= a && a + 4 <= mem.Length
    modifies mem
    ensures mem[..] == SwapQuad(old(mem[..]), b, a - b)
  {
    var b0, b1, b2, b3 := mem[b], mem[b + 1], mem[b + 2], mem[b + 3];
    var a0, a1, a2, a3 := mem[a], mem[a + 1], mem[a + 2], mem[a + 3];
    assert mem[b..b + 4] == [b0, b1, b2, b3] && mem[a..a + 4] == [a0, a1, a2, a3];
    StoreQuad(mem, a, b0, b1, b2, b3);
    StoreQuad(mem, b, a0, a1, a2, a3);
  }

  /** The word-sized tail of the swap. */
  method SwapWords(mem: array<Word>, a: nat, b: nat, size: nat) returns (a': nat, b': nat)
    requires size % 4 == 0 && b <= a && a + size / 4 <= mem.Length
    modifies mem
    ensures a' == a + size / 4 && b' == b + size / 4
    ensures mem[..] == WordSwap(old(mem[..]), b, a - b, size / 4)
  {
    var left := size;
    ghost var gap, n := a - b, size / 4;
    a', b' := a, b;
    while left > 0
      invariant n >= 0 && left == 4 * n && a' == b' + gap && a' + n == a + size / 4
      invariant WordSwap(mem[..], b', gap, n) == WordSwap(old(mem[..]), b, gap, size / 4)
      decreases left
    {
      ghost var was := mem[..];
      var t := mem[b'];
      mem[b'] := mem[a'];
      mem[a'] := t;
      assert mem[..] == SwapOne(was, a', b');
      a', b', left := a' + 1, b' + 1, left - 4;
      n := n - 1;
    }
  }

  /** Swaps `size` bytes, sixteen at a time and then word by word; returns both ends. */
  method SimpleSwap32(mem: array<Word>, a: nat, b: nat, size: nat) returns (a': nat, b': nat)
    requires size % 4 == 0 && b <= a && a + size / 4 <= mem.Length
    modifies mem
    ensures a' == a + size / 4 && b' == b + size / 4
    ensures mem[..] == QuadSwap(old(mem[..]), b, a - b, size / 4)
  {
    hide SwapQuad, WordSwap;
    var left: int := size - 16;
    ghost var gap, n := a - b, size / 4;
    a', b' := a, b;
    while left >= 0
      invariant n >= 0 && left + 16 == 4 * n && a' == b' + gap && a' + n == a + size / 4
      invariant QuadSwap(mem[..], b', gap, n) == QuadSwap(old(mem[..]), b, gap, size / 4)
      decreases left
    {
      SwapQuads(mem, a', b');
      a', b', left := a' + 4, b' + 4, left - 16;
      n := n - 4;
    }
    a', b' := SwapWords(mem, a', b', left + 16);
  }

  /** Rotates the region that starts at bStart until the two blocks have changed places. */
  method SwapMem(mem: array<Word>, aStart: nat, bStart: nat, size: nat)
    requires size % 4 == 0 && bStart <= aStart && aStart + size / 4 <= mem.Length
    modifies mem
    ensures mem[..] == Rotated(old(mem[..]), bStart, aStart - bStart, size / 4)
    ensures GapSafe(aStart - bStart, size / 4) ==>
      mem[..] == Exchanged(old(mem[..]), bStart, aStart - bStart, size / 4)
  {
    hide Exchanged, QuadSwap, GapSafe;
    var a: nat, b: nat, aSize: nat := aStart, bStart, size;
    ghost var gap: nat, n: nat := a - b, size / 4;
    ghost var goal := Rotated(mem[..], b, gap, n);
    RotatedExchanges(mem[..], b, gap, n);
    while true
      invariant a == b + gap && aSize == 4 * n && a + n <= mem.Length
      invariant Rotated(mem[..], b, gap, n) == goal
      decreases gap + n
    {
      a, b := SimpleSwap32(mem, a, b, aSize);
      var bSize := 4 * (a - b);
      aSize := Mod(aSize, bSize);
      gap, n := gap - Rest(n, gap), Rest(n, gap);
      a := b + (bSize - aSize) / 4;
      if aSize == 0 {
        break;
      }
    }
  }

  /** The same rotation over the word loop that the source's comment describes: it exchanges the
      blocks whatever their sizes, and changes nothing else. */
  method SwapMemByWords(mem: array<Word>, aStart: nat, bStart: nat, size: nat)
    requires size % 4 == 0 && bStart <= aStart && aStart + size / 4 <= mem.Length
    modifies mem
    ensures mem[..] == Exchanged(old(mem[..]), bStart, aStart - bStart, size / 4)
  {
    hide Exchanged, WordSwap;
    var a: nat, b: nat, aSize: nat := aStart, bStart, size;
    ghost var gap: nat, n: nat := a - b, size / 4;
    ghost var goal := RotatedByWords(mem[..], b, gap, n);
    DocumentedLoopExchanges(mem[..], b, gap, n);
    while true
      invariant a == b + gap && aSize == 4 * n && a + n <= mem.Length
      invariant RotatedByWords(mem[..], b, gap, n) == goal
      decreases gap + n
    {
      a, b := SwapWords(mem, a, b, aSize);
      var bSize := 4 * (a - b);
      aSize := Mod(aSize, bSize);
      gap, n := gap - Rest(n, gap), Rest(n, gap);
      a := b + (bSize - aSize) / 4;
      if aSize == 0 {
        break;
      }
    }
  }

  // ------------------------------------------------------------------ theorems

  /** The remainder of x by gap, by repeated subtraction. */
  ghost function Wrap(x: nat, gap: nat): (r: nat)
    requires gap > 0
    ensures r < gap
  {
    if x < gap then x else Wrap(x - gap, gap)
  }

  /** Where the word now at i came from when the words at p and q changed places. */
  ghost function Other(p: nat, q: nat, i: nat): nat {
    if i == p then q else if i == q then p else i
  }

  /** Where the word now at i came from once n words have been swapped across the gap: the
      far block has moved down, the near block was carried along and arrives rotated. */
  ghost function Carried(b: nat, gap: nat, n: nat, i: nat): nat {
    if b <= i < b + n then i + gap
    else if b + n <= i < b + n + gap then b + Wrap(i - b, gap)
    else i
  }

  lemma {:induction false} WordSwapCarries(s: seq<Word>, b: nat, gap: nat, n: nat)
    requires b + gap + n <= |s|
    ensures forall i :: 0 <= i < |s| ==> WordSwap(s, b, gap, n)[i] == s[Carried(b, gap, n, i)]
    decreases n
  {
    if n > 0 {
      var t := SwapOne(s, b + gap, b);
      WordSwapCarries(t, b + 1, gap, n - 1);
      forall i | 0 <= i < |s| ensures t[Carried(b + 1, gap, n - 1, i)] == s[Carried(b, gap, n, i)] {
        CarriedStep(b, gap, n, i);
      }
    } else {
      forall i | 0 <= i < |s| ensures Carried(b, gap, n, i) == i {
      }
    }
  }

  lemma CarriedStep(b: nat, gap: nat, n: nat, i: nat)
    requires n > 0
    ensures Other(b + gap, b, Carried(b + 1, gap, n - 1, i)) == Carried(b, gap, n, i)
  {
    if b + n <= i < b + n + gap {
      WrapIndex(i - b, gap);
    }
  }

  /** Stepping the base by one turns residue 0 into residue gap-1 and lowers the others. */
  lemma {:induction false} WrapIndex(x: nat, gap: nat)
    requires x > 0 && gap > 0
    ensures Wrap(x, gap) == 0 ==> Wrap(x - 1, gap) == gap - 1
    ensures Wrap(x, gap) > 0 ==> Wrap(x - 1, gap) == Wrap(x, gap) - 1
  {
    if x > gap {
      WrapIndex(x - gap, gap);
    }
  }

  lemma {:induction false} WordSwapInTwo(s: seq<Word>, b: nat, gap: nat, n: nat, k: nat)
    requires b + gap + n <= |s| && k <= n
    ensures WordSwap(s, b, gap, n) == WordSwap(WordSwap(s, b, gap, k), b + k, gap, n - k)
    decreases k
  {
    if k > 0 {
      WordSwapInTwo(SwapOne(s, b + gap, b), b + 1, gap, n - 1, k - 1);
    }
  }

  lemma SwapQuadAt(s: seq<Word>, b: nat, gap: nat)
    requires b + gap + 4 <= |s|
    ensures forall i :: b <= i < b + 4 ==> SwapQuad(s, b, gap)[i] == s[i + gap]
    ensures forall i :: b + gap <= i < b + gap + 4 && b + 4 <= i ==> SwapQuad(s, b, gap)[i] == s[i - gap]
    ensures forall i :: 0 <= i < |s| && !(b <= i < b + 4) && !(b + gap <= i < b + gap + 4) ==>
      SwapQuad(s, b, gap)[i] == s[i]
  {
  }

  lemma QuadIsFourWords(s: seq<Word>, b: nat, gap: nat)
    requires b + gap + 4 <= |s| && (gap == 0 || gap >= 4)
    ensures SwapQuad(s, b, gap) == WordSwap(s, b, gap, 4)
  {
    SwapQuadAt(s, b, gap);
    WordSwapCarries(s, b, gap, 4);
    var q := SwapQuad(s, b, gap);
    forall i | 0 <= i < |s| ensures q[i] == s[Carried(b, gap, 4, i)] {
      if b + 4 <= i < b + 4 + gap && i - b >= gap {
        assert Wrap(i - b, gap) == i - b - gap;
      }
    }
  }

  /** With at least four words between the blocks, or none, the fast loop is the word loop. */
  lemma {:induction false} QuadIsWord(s: seq<Word>, b: nat, gap: nat, n: nat)
    requires b + gap + n <= |s|
    requires gap == 0 || gap >= 4 || n < 4
    ensures QuadSwap(s, b, gap, n) == WordSwap(s, b, gap, n)
    decreases n
  {
    hide SwapQuad;
    if n >= 4 {
      QuadIsFourWords(s, b, gap);
      QuadIsWord(SwapQuad(s, b, gap), b + 4, gap, n - 4);
      WordSwapInTwo(s, b, gap, n, 4);
    }
  }

  /** Which word of s an exchange brings to index i. */
  ghost function Origin(b: nat, gap: nat, n: nat, i: nat): nat {
    if b <= i < b + n then i + gap else if b + n <= i < b + n + gap then i - n else i
  }

  lemma ExchangedAt(s: seq<Word>, b: nat, gap: nat, n: nat)
    requires b + gap + n <= |s|
    ensures |Exchanged(s, b, gap, n)| == |s|
    ensures forall i :: 0 <= i < |s| ==> Exchanged(s, b, gap, n)[i] == s[Origin(b, gap, n, i)]
  {
  }

  /** One turn of the loop leaves an exchange over the near block still to be done. */
  lemma TurnKeepsGoal(s: seq<Word>, b: nat, gap: nat, n: nat)
    requires b + gap + n <= |s|
    ensures var rest := Rest(n, gap);
      Exchanged(WordSwap(s, b, gap, n), b + n, gap - rest, rest) == Exchanged(s, b, gap, n)
  {
    hide Exchanged, WordSwap;
    var rest := Rest(n, gap);
    var t := WordSwap(s, b, gap, n);
    WordSwapCarries(s, b, gap, n);
    ExchangedAt(t, b + n, gap - rest, rest);
    ExchangedAt(s, b, gap, n);
    forall i | 0 <= i < |s|
      ensures t[Origin(b + n, gap - rest, rest, i)] == s[Origin(b, gap, n, i)]
    {
      TurnMovesWord(b, gap, n, i);
    }
  }

  lemma TurnMovesWord(b: nat, gap: nat, n: nat, i: nat)
    ensures var rest := Rest(n, gap);
      Carried(b, gap, n, Origin(b + n, gap - rest, rest, i)) == Origin(b, gap, n, i)
  {
    if n > 0 && b + n <= i < b + n + gap {
      TurnIndex(n, gap, i - b - n);
    }
  }

  lemma {:induction false} TurnIndex(n: nat, gap: nat, k: nat)
    requires gap > 0 && n > 0 && k < gap
    ensures k < Rest(n, gap) ==> Wrap(n + gap - Rest(n, gap) + k, gap) == k
    ensures k >= Rest(n, gap) ==> Wrap(n + k - Rest(n, gap), gap) == k
  {
    if n > gap {
      TurnIndex(n - gap, gap, k);
    }
  }

  lemma ExchangeNothing(s: seq<Word>, b: nat, gap: nat)
    requires b + gap <= |s|
    ensures Exchanged(s, b, gap, 0) == s
  {
    assert s[b + gap..b + gap] == [];
    assert s == s[..b] + s[b..b + gap] + s[b + gap..];
  }

  /** The documented loop exchanges the blocks for every pair of sizes. */
  lemma {:induction false} DocumentedLoopExchanges(s: seq<Word>, b: nat, gap: nat, n: nat)
    requires b + gap + n <= |s|
    ensures RotatedByWords(s, b, gap, n) == Exchanged(s, b, gap, n)
    decreases gap + n
  {
    hide Exchanged, WordSwap;
    TurnKeepsGoal(s, b, gap, n);
    var rest, t := Rest(n, gap), WordSwap(s, b, gap, n);
    if rest == 0 {
      ExchangeNothing(t, b + n, gap);
    } else {
      DocumentedLoopExchanges(t, b + n, gap - rest, rest);
    }
  }

  /** The whole loop exchanges the blocks, for every content, when no turn is unsafe. */
  lemma {:induction false} RotatedExchanges(s: seq<Word>, b: nat, gap: nat, n: nat)
    requires b + gap + n <= |s|
    ensures GapSafe(gap, n) ==> Rotated(s, b, gap, n) == Exchanged(s, b, gap, n)
    decreases gap + n
  {
    hide Exchanged, WordSwap, QuadSwap;
    if GapSafe(gap, n) {
      QuadIsWord(s, b, gap, n);
      TurnKeepsGoal(s, b, gap, n);
      var rest := Rest(n, gap);
      var t := WordSwap(s, b, gap, n);
      if rest == 0 {
        ExchangeNothing(t, b + n, gap);
      } else {
        RotatedExchanges(t, b + n, gap - rest, rest);
      }
    }
  }

  ghost predicate Distinct(s: seq<Word>) {
    forall i, j :: 0 <= i < j < |s| ==> s[i] != s[j]
  }

  ghost predicate NothingNew(t: seq<Word>, s: seq<Word>) {
    forall i :: 0 <= i < |t| ==> t[i] in s
  }

  lemma {:induction false} WordSwapKeepsWords(s: seq<Word>, b: nat, gap: nat, n: nat)
    requires b + gap + n <= |s|
    ensures NothingNew(WordSwap(s, b, gap, n), s)
    ensures Distinct(s) ==> Distinct(WordSwap(s, b, gap, n))
    decreases n
  {
    if n == 0 {
      assert NothingNew(s, s);
    } else {
      var t := SwapOne(s, b + gap, b);
      SwapOneKeepsWords(s, b + gap, b);
      hide NothingNew, Distinct, SwapOne;
      WordSwapKeepsWords(t, b + 1, gap, n - 1);
      StillNothingNew(WordSwap(t, b + 1, gap, n - 1), t, s);
    }
  }

  lemma SwapOneKeepsWords(s: seq<Word>, p: nat, q: nat)
    requires p < |s| && q < |s|
    ensures |SwapOne(s, p, q)| == |s| && NothingNew(SwapOne(s, p, q), s)
    ensures Distinct(s) ==> Distinct(SwapOne(s, p, q))
  {
  }

  lemma {:induction false} QuadSwapAddsNothing(s: seq<Word>, b: nat, gap: nat, n: nat)
    requires b + gap + n <= |s|
    ensures NothingNew(QuadSwap(s, b, gap, n), s)
    decreases n
  {
    hide SwapQuad, WordSwap, NothingNew;
    if n >= 4 {
      var t := SwapQuad(s, b, gap);
      SwapQuadAddsNothing(s, b, gap);
      QuadSwapAddsNothing(t, b + 4, gap, n - 4);
      StillNothingNew(QuadSwap(t, b + 4, gap, n - 4), t, s);
    } else {
      WordSwapKeepsWords(s, b, gap, n);
    }
  }

  lemma SwapQuadAddsNothing(s: seq<Word>, b: nat, gap: nat)
    requires b + gap + 4 <= |s|
    ensures NothingNew(SwapQuad(s, b, gap), s)
  {
    SwapQuadAt(s, b, gap);
    hide SwapQuad;
  }

  lemma StillNothingNew(u: seq<Word>, t: seq<Word>, s: seq<Word>)
    requires NothingNew(u, t) && NothingNew(t, s)
    ensures NothingNew(u, s)
  {
  }

  lemma {:induction false} RotatedAddsNothing(s: seq<Word>, b: nat, gap: nat, n: nat)
    requires b + gap + n <= |s|
    ensures NothingNew(Rotated(s, b, gap, n), s)
    decreases gap + n
  {
    hide QuadSwap, NothingNew;
    QuadSwapAddsNothing(s, b, gap, n);
    var rest, t := Rest(n, gap), QuadSwap(s, b, gap, n);
    if rest != 0 {
      RotatedAddsNothing(t, b + n, gap - rest, rest);
      StillNothingNew(Rotated(t, b + n, gap - rest, rest), t, s);
    }
  }

  /** Four words across a gap of one to three: the first word of the near block is gone. */
  lemma UnsafeTurnLosesWord(s: seq<Word>, b: nat, gap: nat, n: nat)
    requires b + gap + n <= |s| && Distinct(s) && 1 <= gap < 4 <= n
    ensures s[b] !in QuadSwap(s, b, gap, n)
  {
    var t := SwapQuad(s, b, gap);
    var u := QuadSwap(t, b + 4, gap, n - 4);
    assert QuadSwap(s, b, gap, n) == u;
    hide SwapQuad, QuadSwap, Distinct;
    QuadLosesWord(s, b, gap);
    QuadSwapAddsNothing(t, b + 4, gap, n - 4);
    NotAmong(u, t, s[b]);
  }

  lemma NotAmong(u: seq<Word>, t: seq<Word>, w: Word)
    requires NothingNew(u, t) && w !in t
    ensures w !in u
  {
  }

  lemma QuadLosesWord(s: seq<Word>, b: nat, gap: nat)
    requires b + gap + 4 <= |s| && Distinct(s) && 1 <= gap < 4
    ensures s[b] !in SwapQuad(s, b, gap)
  {
    var t := SwapQuad(s, b, gap);
    SwapQuadAt(s, b, gap);
    hide SwapQuad, Distinct;
    forall i | 0 <= i < |t| ensures t[i] != s[b] {
      if b <= i < b + 4 {
        WordsDiffer(s, b, i + gap);
      } else if b + gap <= i < b + gap + 4 {
        WordsDiffer(s, b, i - gap);
      } else {
        WordsDiffer(s, b, i);
      }
    }
  }

  lemma WordsDiffer(s: seq<Word>, i: nat, j: nat)
    requires Distinct(s) && i < |s| && j < |s| && i != j
    ensures s[i] != s[j]
  {
  }

  lemma UnsafeTurnFails(s: seq<Word>, b: nat, gap: nat, n: nat)
    requires b + gap + n <= |s| && Distinct(s) && 1 <= gap < 4 <= n
    ensures Rotated(s, b, gap, n)[b + n] != s[b]
  {
    var rest, t := Rest(n, gap), QuadSwap(s, b, gap, n);
    UnsafeTurnLosesWord(s, b, gap, n);
    RotatedAddsNothing(t, b + n, gap - rest, rest);
    assert Rotated(s, b, gap, n)[b + n] in t;
  }

  lemma SafeTurn(s: seq<Word>, b: nat, gap: nat, n: nat)
    requires b + gap + n <= |s| && (gap == 0 || gap >= 4 || n < 4)
    ensures var rest, t := Rest(n, gap), QuadSwap(s, b, gap, n);
      && Exchanged(t, b + n, gap - rest, rest) == Exchanged(s, b, gap, n)
      && (Distinct(s) ==> Distinct(t))
  {
    QuadIsWord(s, b, gap, n);
    WordSwapKeepsWords(s, b, gap, n);
    TurnKeepsGoal(s, b, gap, n);
  }

  /** From distinct words an unsafe run always ends with a word missing. */
  lemma {:induction false} UnsafeRunFails(s: seq<Word>, b: nat, gap: nat, n: nat)
    requires b + gap + n <= |s| && Distinct(s) && !GapSafe(gap, n)
    ensures Rotated(s, b, gap, n) != Exchanged(s, b, gap, n)
    decreases gap + n
  {
    hide Exchanged, QuadSwap, Distinct;
    if gap == 0 || gap >= 4 || n < 4 {
      SafeTurn(s, b, gap, n);
      var rest := Rest(n, gap);
      UnsafeRunFails(QuadSwap(s, b, gap, n), b + n, gap - rest, rest);
    } else {
      UnsafeTurnFails(s, b, gap, n);
      ExchangedAt(s, b, gap, n);
      assert Origin(b, gap, n, b + n) == b;
    }
  }

  /** An image of k distinct words. */
  ghost function Numbered(k: nat): (s: seq<Word>)
    requires k <= 0x1_0000_0000
    ensures |s| == k && Distinct(s)
  {
    var s := seq(k, i requires 0 <= i < k => i);
    s
  }

  /** Two block sizes work for all contents exactly when the run of gaps is safe. */
  lemma SwapMemCorrectIff(gap: nat, n: nat)
    requires gap + n <= 0x1_0000_0000
    ensures GapSafe(gap, n) <==>
      forall s: seq<Word>, b: nat | b + gap + n <= |s| :: Rotated(s, b, gap, n) == Exchanged(s, b, gap, n)
  {
    if GapSafe(gap, n) {
      forall s: seq<Word>, b: nat | b + gap + n <= |s|
        ensures Rotated(s, b, gap, n) == Exchanged(s, b, gap, n)
      {
        RotatedExchanges(s, b, gap, n);
      }
    } else {
      UnsafeRunFails(Numbered(gap + n), 0, gap, n);
    }
  }

  /** Blocks that are whole multiples of sixteen bytes are always safe. */
  lemma {:induction false} QuadMultiplesAreSafe(gap: nat, n: nat)
    requires gap % 4 == 0 && n % 4 == 0
    ensures GapSafe(gap, n)
    decreases gap + n
  {
    var rest := Rest(n, gap);
    RestOfQuads(gap, n);
    if rest != 0 {
      QuadMultiplesAreSafe(gap - rest, rest);
    }
  }

  lemma {:induction false} RestOfQuads(gap: nat, n: nat)
    requires gap % 4 == 0 && n % 4 == 0
    ensures Rest(n, gap) % 4 == 0
  {
    if 0 < gap < n {
      RestOfQuads(gap, n - gap);
    }
  }

  /** Fewer than four words in the far block is always safe: that count never grows. */
  lemma {:induction false} ShortBlocksAreSafe(gap: nat, n: nat)
    requires n < 4
    ensures GapSafe(gap, n)
    decreases gap + n
  {
    var rest := Rest(n, gap);
    if rest != 0 {
      ShortBlocksAreSafe(gap - rest, rest);
    }
  }

  /** The smallest sizes that fail: one word against four. */
  lemma OneAgainstFourLosesData()
    ensures Rotated([10, 11, 12, 13, 14], 0, 1, 4) == [11, 12, 13, 14, 13]
    ensures Exchanged([10, 11, 12, 13, 14], 0, 1, 4) == [11, 12, 13, 14, 10]
  {
    var s: seq<Word> := [10, 11, 12, 13, 14];
    var t := SwapQuad(s, 0, 1);
    SwapQuadAt(s, 0, 1);
    assert t[0] == s[1] && t[1] == s[2] && t[2] == s[3] && t[3] == s[4] && t[4] == s[3];
    assert t == [11, 12, 13, 14, 13];
    assert QuadSwap(s, 0, 1, 4) == QuadSwap(t, 4, 1, 0) == t;
    assert Rest(4, 1) == 1;
    assert Rotated(t, 4, 0, 1) == QuadSwap(t, 4, 0, 1) == WordSwap(SwapOne(t, 4, 4), 5, 0, 0) == t;
  }
}
