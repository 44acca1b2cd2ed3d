/**
 The table-driven CRC-32 of the SDK.

 The reference is the shift register fed one message bit at a time, low bit first, with
 the polynomial of section 8 of RFC 1952. The table step must be eight of its shifts.
 */
module Crc32 {

  type Byte = bv8
  type Word = bv32

  const POLYNOMIAL: Word := 0xEDB8_8320
  const START: Word := 0xFFFF_FFFF

  // The word operations have names so that a proof can hide them: the solver is quick on
  // bit operations, and quick on the laws of shifting, but not on both at once.

  function Xor(a: Word, b: Word): Word { a ^ b }

  function Half(a: Word): Word { a >> 1 }

  function Quarter(a: Word): Word { a >> 2 }

  function HighBytes(a: Word): Word { a >> 8 }

  function LowBit(a: Word): Word { a & 1 }

  function Widen(b: Byte): Word { b as Word }

  function LowByte(a: Word): Byte {
    LowByteIsByte(a);
    (a & 0xFF) as Byte
  }

  lemma LowByteIsByte(a: Word)
    ensures a & 0xFF < 256
  {
  }

  function Invert(a: Word): Word { !a }

  // ------------------------------------------------------------------ reference

  /** One shift of the register; the bit that falls out decides whether to subtract. */
  function Shift(v: Word): Word {
    Xor(Half(v), if LowBit(v) == 1 then POLYNOMIAL else 0)
  }

  function Shifts(v: Word, k: nat): Word
    decreases k
  {
    if k == 0 then v else Shifts(Shift(v), k - 1)
  }

  /** Feeds the low k bits of d, one bit a shift, low bit first. */
  ghost function FeedBits(v: Word, d: Word, k: nat): Word
    decreases k
  {
    if k == 0 then v else FeedBits(Shift(Xor(v, LowBit(d))), Half(d), k - 1)
  }

  ghost function FeedByte(v: Word, b: Byte): Word {
    FeedBits(v, Widen(b), 8)
  }

  ghost function Feed(v: Word, data: seq<Byte>): Word {
    if |data| == 0 then v else FeedByte(Feed(v, data[..|data| - 1]), data[|data| - 1])
  }

  /** The checksum of a message, bit by bit. */
  ghost function Checksum(data: seq<Byte>): Word {
    Invert(Feed(START, data))
  }

  // ------------------------------------------------------------------ the code

  /** The table a byte selects from: the byte shifted eight times. */
  ghost predicate TableReady(table: seq<Word>) {
    |table| == 256 && forall b: Byte :: table[b as int] == Shifts(Widen(b), 8)
  }

  /** Fills the table, entry by entry, bit by bit. */
  method PrepareTable(table: array<Word>)
    requires table.Length == 256
    modifies table
    ensures TableReady(table[..])
  {
    hide Shifts, Widen;
    for i := 0 to 256
      invariant forall j :: 0 <= j < i ==> table[j] == Shifts(Widen(j as Byte), 8)
    {
      var value := ShiftedEight(Widen(i as Byte));
      table[i] := value;
    }
    assert TableReady(table[..]) by {
      forall b: Byte ensures table[..][b as int] == Shifts(Widen(b), 8) {
        assert (b as int) as Byte == b;
      }
    }
  }

  method ShiftedEight(start: Word) returns (value: Word)
    ensures value == Shifts(start, 8)
  {
    hide Half, LowBit, Xor;
    value := start;
    for bit := 0 to 8
      invariant Shifts(value, 8 - bit) == Shifts(start, 8)
    {
      value := Xor(Half(value), if LowBit(value) == 1 then POLYNOMIAL else 0);
    }
  }

  /** One turn of the byte loop. */
  method TableUpdate(table: array<Word>, state: Word, b: Byte) returns (state': Word)
    requires TableReady(table[..])
    ensures state' == FeedByte(state, b)
  {
    hide Shifts, FeedByte, LowByte, Xor, HighBytes, Widen;
    var index := LowByte(Xor(state, Widen(b)));
    assert table[index as int] == table[..][index as int];
    state' := Xor(table[index as int], HighBytes(state));
    TableStep(state, b);
  }

  /** Runs the register over `length` bytes of data from index `from`. */
  method Update(table: array<Word>, state: Word, data: seq<Byte>, from: nat, length: nat) returns (state': Word)
    requires TableReady(table[..]) && from + length <= |data|
    ensures state' == Feed(state, data[from..from + length])
  {
    hide TableReady, FeedByte;
    state' := state;
    for i := 0 to length
      invariant state' == Feed(state, data[from..from + i])
    {
      state' := TableUpdate(table, state', data[from + i]);
      FeedMore(state, data[from..from + i], data[from + i]);
      assert data[from..from + i] + [data[from + i]] == data[from..from + i + 1];
    }
  }

  method Calculate(table: array<Word>, data: seq<Byte>) returns (crc: Word)
    requires table.Length == 256
    modifies table
    ensures crc == Checksum(data)
  {
    hide TableReady, Feed, Invert;
    PrepareTable(table);
    var state := Update(table, START, data, 0, |data|);
    assert data[0..0 + |data|] == data;
    crc := Invert(state);
  }

  // ------------------------------------------------------------------ laws of one shift

  lemma XorHalf(a: Word, b: Word)
    ensures Half(Xor(a, b)) == Xor(Half(a), Half(b))
    ensures LowBit(Xor(a, b)) == 1 <==> (LowBit(a) == 1) != (LowBit(b) == 1)
  {
  }

  lemma XorLaws(a: Word, b: Word, p: Word)
    ensures Xor(Xor(a, p), Xor(b, p)) == Xor(a, b)
    ensures Xor(Xor(a, p), b) == Xor(Xor(a, b), p)
    ensures Xor(a, Xor(b, p)) == Xor(Xor(a, b), p)
    ensures Xor(a, 0) == a
  {
    hide Xor;
    XorAssoc(a, b, p);
    XorAssoc(a, p, b);
    XorSwap(b, p);
    XorAssoc(Xor(a, p), b, p);
    XorAssoc(Xor(a, b), p, p);
    XorSelf(p);
    XorSelf(a);
    XorSelf(Xor(a, b));
  }

  lemma XorAssoc(a: Word, b: Word, c: Word)
    ensures Xor(a, Xor(b, c)) == Xor(Xor(a, b), c)
  {
  }

  lemma XorSwap(a: Word, b: Word)
    ensures Xor(a, b) == Xor(b, a)
  {
  }

  lemma XorSelf(a: Word)
    ensures Xor(a, a) == 0 && Xor(a, 0) == a
  {
  }

  lemma ShiftXor(a: Word, b: Word)
    ensures Shift(Xor(a, b)) == Xor(Shift(a), Shift(b))
  {
    hide Xor, Half, LowBit;
    XorHalf(a, b);
    XorLaws(Half(a), Half(b), POLYNOMIAL);
    XorLaws(Half(a), 0, 0);
    XorLaws(Half(b), 0, 0);
    XorLaws(Xor(Half(a), Half(b)), 0, 0);
  }

  lemma ShiftOfEven(v: Word)
    requires LowBit(v) == 0
    ensures Shift(v) == Half(v)
  {
    hide Xor, Half, LowBit;
    XorLaws(Half(v), 0, 0);
  }

  lemma {:induction false} ShiftsXor(a: Word, b: Word, k: nat)
    ensures Shifts(Xor(a, b), k) == Xor(Shifts(a, k), Shifts(b, k))
    decreases k
  {
    hide Shift, Xor;
    if k > 0 {
      ShiftXor(a, b);
      ShiftsXor(Shift(a), Shift(b), k - 1);
    }
  }

  // ------------------------------------------------------------------ bit by bit, byte by byte

  function ClearLowBit(d: Word): Word { d & 0xFFFF_FFFE }

  lemma SplitLowBit(v: Word, d: Word)
    ensures Xor(v, d) == Xor(Xor(v, LowBit(d)), ClearLowBit(d))
    ensures LowBit(ClearLowBit(d)) == 0 && Half(ClearLowBit(d)) == Half(d)
  {
    LowBitBits(v, d);
  }

  lemma LowBitBits(v: Word, d: Word)
    ensures v ^ d == (v ^ (d & 1)) ^ (d & 0xFFFF_FFFE)
    ensures (d & 0xFFFF_FFFE) & 1 == 0 && (d & 0xFFFF_FFFE) >> 1 == d >> 1
  {
  }

  /** Adding a word and shifting is adding its low bit, shifting, and adding the rest. */
  lemma FeedOne(v: Word, d: Word)
    ensures Shift(Xor(v, d)) == Xor(Shift(Xor(v, LowBit(d))), Half(d))
  {
    hide *;
    SplitLowBit(v, d);
    ShiftXor(Xor(v, LowBit(d)), ClearLowBit(d));
    ShiftOfEven(ClearLowBit(d));
  }

  /** d has no bit at position k or above, for k up to 8. */
  ghost predicate Below(d: Word, k: nat) {
    && (k == 0 ==> d == 0) && (k == 1 ==> d < 2) && (k == 2 ==> d < 4)
    && (k == 3 ==> d < 8) && (k == 4 ==> d < 16) && (k == 5 ==> d < 32)
    && (k == 6 ==> d < 64) && (k == 7 ==> d < 128) && (k == 8 ==> d < 256)
  }

  lemma BelowHalf(d: Word, k: nat)
    requires 0 < k <= 8 && Below(d, k)
    ensures Below(Half(d), k - 1)
  {
  }

  lemma BelowZero(v: Word, d: Word)
    requires Below(d, 0)
    ensures Xor(v, d) == v
  {
  }

  lemma ByteBelow(b: Byte)
    ensures Below(Widen(b), 8)
  {
  }

  /** Feeding the bits one at a time is shifting a register they were all added to first. */
  lemma {:induction false} FeedIsShifts(v: Word, d: Word, k: nat)
    requires k <= 8 && Below(d, k)
    ensures FeedBits(v, d, k) == Shifts(Xor(v, d), k)
    decreases k
  {
    hide Shift, Xor, Half, LowBit, Below;
    if k == 0 {
      BelowZero(v, d);
    } else {
      BelowHalf(d, k);
      FeedIsShifts(Shift(Xor(v, LowBit(d))), Half(d), k - 1);
      FeedOne(v, d);
    }
  }

  lemma {:induction false} ShiftsInTwo(v: Word, j: nat, k: nat)
    ensures Shifts(v, j + k) == Shifts(Shifts(v, j), k)
    decreases j
  {
    hide Shift;
    if j > 0 {
      ShiftsInTwo(Shift(v), j - 1, k);
    }
  }

  ghost predicate TwoZeros(v: Word) { v & 3 == 0 }

  lemma TwoZeroBits(v: Word)
    requires TwoZeros(v)
    ensures LowBit(v) == 0 && LowBit(Half(v)) == 0 && Half(Half(v)) == Quarter(v)
  {
  }

  lemma TwoShiftsOfHigh(v: Word)
    requires TwoZeros(v)
    ensures Shifts(v, 2) == Quarter(v)
  {
    hide Shift, TwoZeros, LowBit, Half, Quarter;
    TwoZeroBits(v);
    ShiftOfEven(v);
    ShiftOfEven(Half(v));
    assert Shifts(v, 2) == Shifts(Shift(v), 1) == Shifts(Shift(Shift(v)), 0);
  }

  ghost predicate ByteZero(v: Word) { v & 0xFF == 0 }

  lemma EightZeroBits(v: Word)
    requires ByteZero(v)
    ensures TwoZeros(v) && TwoZeros(Quarter(v))
    ensures TwoZeros(Quarter(Quarter(v))) && TwoZeros(Quarter(Quarter(Quarter(v))))
    ensures Quarter(Quarter(Quarter(Quarter(v)))) == HighBytes(v)
  {
  }

  /** Eight shifts of a register whose low byte is zero only move it. */
  lemma EightShiftsOfHigh(v: Word)
    requires ByteZero(v)
    ensures Shifts(v, 8) == HighBytes(v)
  {
    hide *;
    EightZeroBits(v);
    TwoShiftsOfHigh(v);
    TwoShiftsOfHigh(Quarter(v));
    TwoShiftsOfHigh(Quarter(Quarter(v)));
    TwoShiftsOfHigh(Quarter(Quarter(Quarter(v))));
    ShiftsInTwo(v, 2, 2);
    ShiftsInTwo(v, 4, 2);
    ShiftsInTwo(v, 6, 2);
  }

  function ClearByte(x: Word): Word { x & 0xFFFF_FF00 }

  lemma SplitBytes(state: Word, b: Byte)
    ensures var x := Xor(state, Widen(b));
      && x == Xor(Widen(LowByte(x)), ClearByte(x))
      && ByteZero(ClearByte(x)) && HighBytes(ClearByte(x)) == HighBytes(state)
  {
  }

  /** The table step is eight polynomial shifts, for every register value and every byte. */
  lemma TableStep(state: Word, b: Byte)
    ensures FeedByte(state, b) ==
      Xor(Shifts(Widen(LowByte(Xor(state, Widen(b)))), 8), HighBytes(state))
  {
    hide Shifts, FeedBits, LowByte, Xor, Widen, HighBytes, ClearByte, ByteZero, Below;
    var x := Xor(state, Widen(b));
    SplitBytes(state, b);
    ByteBelow(b);
    FeedIsShifts(state, Widen(b), 8);
    ShiftsXor(Widen(LowByte(x)), ClearByte(x), 8);
    EightShiftsOfHigh(ClearByte(x));
  }

  // ------------------------------------------------------------------ whole messages

  lemma FeedMore(v: Word, data: seq<Byte>, b: Byte)
    ensures Feed(v, data + [b]) == FeedByte(Feed(v, data), b)
  {
    hide FeedByte;
    assert (data + [b])[..|data|] == data;
  }

  /** Feeding is a fold: a message may be cut anywhere. */
  lemma {:induction false} FeedInTwo(v: Word, x: seq<Byte>, y: seq<Byte>)
    ensures Feed(v, x + y) == Feed(Feed(v, x), y)
    decreases |y|
  {
    hide FeedByte;
    if |y| == 0 {
      assert x + y == x;
    } else {
      var front, last := y[..|y| - 1], y[|y| - 1];
      FeedInTwo(v, x, front);
      assert x + y == (x + front) + [last];
      FeedMore(v, x + front, last);
    }
  }

  // ------------------------------------------------------------------ what the checksum detects

  lemma ShiftInjective(a: Word, b: Word)
    requires Shift(a) == Shift(b)
    ensures a == b
  {
  }

  lemma {:induction false} ShiftsInjective(a: Word, b: Word, k: nat)
    requires Shifts(a, k) == Shifts(b, k)
    ensures a == b
    decreases k
  {
    hide Shift;
    if k > 0 {
      ShiftsInjective(Shift(a), Shift(b), k - 1);
      ShiftInjective(a, b);
    }
  }

  lemma XorCancels(v: Word, w: Word, d: Word, e: Word)
    ensures Xor(v, d) == Xor(w, d) ==> v == w
    ensures Xor(v, d) == Xor(v, e) ==> d == e
  {
  }

  lemma WidenInjective(b: Byte, c: Byte)
    requires Widen(b) == Widen(c)
    ensures b == c
  {
  }

  lemma FeedByteInjective(v: Word, w: Word, b: Byte, c: Byte)
    ensures FeedByte(v, b) == FeedByte(w, b) ==> v == w
    ensures FeedByte(v, b) == FeedByte(v, c) ==> b == c
  {
    hide Shifts, FeedBits, Xor, Widen, Below;
    ByteBelow(b);
    ByteBelow(c);
    FeedIsShifts(v, Widen(b), 8);
    FeedIsShifts(w, Widen(b), 8);
    FeedIsShifts(v, Widen(c), 8);
    XorCancels(v, w, Widen(b), Widen(c));
    if FeedByte(v, b) == FeedByte(w, b) {
      ShiftsInjective(Xor(v, Widen(b)), Xor(w, Widen(b)), 8);
    }
    if FeedByte(v, b) == FeedByte(v, c) {
      ShiftsInjective(Xor(v, Widen(b)), Xor(v, Widen(c)), 8);
      WidenInjective(b, c);
    }
  }

  lemma {:induction false} FeedInjective(v: Word, w: Word, data: seq<Byte>)
    requires Feed(v, data) == Feed(w, data)
    ensures v == w
  {
    hide FeedByte;
    if |data| > 0 {
      var front, last := data[..|data| - 1], data[|data| - 1];
      FeedByteInjective(Feed(v, front), Feed(w, front), last, last);
      FeedInjective(v, w, front);
    }
  }

  /** Changing any one byte of a message changes its checksum. */
  lemma OneByteChangeIsDetected(data: seq<Byte>, i: nat, c: Byte)
    requires i < |data| && data[i] != c
    ensures Checksum(data[i := c]) != Checksum(data)
  {
    hide Feed, FeedByte, Invert;
    var front, back := data[..i], data[i + 1..];
    assert data == front + [data[i]] + back;
    assert data[i := c] == front + [c] + back;
    FeedInTwo(START, front + [data[i]], back);
    FeedInTwo(START, front + [c], back);
    FeedMore(START, front, data[i]);
    FeedMore(START, front, c);
    var v := Feed(START, front);
    FeedByteInjective(v, v, data[i], c);
    if Checksum(data[i := c]) == Checksum(data) {
      InvertInjective(Feed(START, data[i := c]), Feed(START, data));
      FeedInjective(FeedByte(v, c), FeedByte(v, data[i]), back);
    }
  }

  lemma InvertInjective(a: Word, b: Word)
    requires Invert(a) == Invert(b)
    ensures a == b
  {
  }

  // ------------------------------------------------------------------ known values

  /** Eight shifts, one after another. */
  lemma EntryIs(v: Word, v1: Word, v2: Word, v3: Word, v4: Word, v5: Word, v6: Word, v7: Word, v8: Word)
    requires v1 == Shift(v) && v2 == Shift(v1) && v3 == Shift(v2) && v4 == Shift(v3)
    requires v5 == Shift(v4) && v6 == Shift(v5) && v7 == Shift(v6) && v8 == Shift(v7)
    ensures Shifts(v, 8) == v8
  {
    hide Shift;
    assert Shifts(v7, 1) == v8 && Shifts(v6, 2) == Shifts(v7, 1) && Shifts(v5, 3) == Shifts(v6, 2);
    assert Shifts(v4, 4) == Shifts(v5, 3) && Shifts(v3, 5) == Shifts(v4, 4) && Shifts(v2, 6) == Shifts(v3, 5);
    assert Shifts(v1, 7) == Shifts(v2, 6);
  }

  lemma SomeEntries()
    ensures Shifts(0x00, 8) == 0x0000_0000
    ensures Shifts(0x01, 8) == 0x7707_3096
    ensures Shifts(0x19, 8) == 0x646B_A8C0
    ensures Shifts(0x58, 8) == 0x65B0_D9C6
    ensures Shifts(0x69, 8) == 0x346E_D9FC
    ensures Shifts(0x72, 8) == 0xBE0B_1010
    ensures Shifts(0x7A, 8) == 0xB0D0_9822
    ensures Shifts(0xA9, 8) == 0xAF0A_1B4C
    ensures Shifts(0xCE, 8) == 0x7CDC_EFB7
    ensures Shifts(0xD5, 8) == 0xF6B9_265B
    ensures Shifts(0xED, 8) == 0xDEBB_9EC5
    ensures Shifts(0xFF, 8) == 0x2D02_EF8D
  {
    hide Shifts;
    EntryIs(0x00, 0x0000_0000, 0x0000_0000, 0x0000_0000, 0x0000_0000, 0x0000_0000, 0x0000_0000, 0x0000_0000, 0x0000_0000);
    EntryIs(0x01, 0xEDB8_8320, 0x76DC_4190, 0x3B6E_20C8, 0x1DB7_1064, 0x0EDB_8832, 0x076D_C419, 0xEE0E_612C, 0x7707_3096);
    EntryIs(0x19, 0xEDB8_832C, 0x76DC_4196, 0x3B6E_20CB, 0xF00F_9345, 0x95BF_4A82, 0x4ADF_A541, 0xC8D7_5180, 0x646B_A8C0);
    EntryIs(0x58, 0x0000_002C, 0x0000_0016, 0x0000_000B, 0xEDB8_8325, 0x9B64_C2B2, 0x4DB2_6159, 0xCB61_B38C, 0x65B0_D9C6);
    EntryIs(0x69, 0xEDB8_8314, 0x76DC_418A, 0x3B6E_20C5, 0xF00F_9342, 0x7807_C9A1, 0xD1BB_67F0, 0x68DD_B3F8, 0x346E_D9FC);
    EntryIs(0x72, 0x0000_0039, 0xEDB8_833C, 0x76DC_419E, 0x3B6E_20CF, 0xF00F_9347, 0x95BF_4A83, 0xA767_2661, 0xBE0B_1010);
    EntryIs(0x7A, 0x0000_003D, 0xEDB8_833E, 0x76DC_419F, 0xD6D6_A3EF, 0x86D3_D2D7, 0xAED1_6A4B, 0xBAD0_3605, 0xB0D0_9822);
    EntryIs(0xA9, 0xEDB8_8374, 0x76DC_41BA, 0x3B6E_20DD, 0xF00F_934E, 0x7807_C9A7, 0xD1BB_67F3, 0x8565_30D9, 0xAF0A_1B4C);
    EntryIs(0xCE, 0x0000_0067, 0xEDB8_8313, 0x9B64_C2A9, 0xA00A_E274, 0x5005_713A, 0x2802_B89D, 0xF9B9_DF6E, 0x7CDC_EFB7);
    EntryIs(0xD5, 0xEDB8_834A, 0x76DC_41A5, 0xD6D6_A3F2, 0x6B6B_51F9, 0xD80D_2BDC, 0x6C06_95EE, 0x3603_4AF7, 0xF6B9_265B);
    EntryIs(0xED, 0xEDB8_8356, 0x76DC_41AB, 0xD6D6_A3F5, 0x86D3_D2DA, 0x4369_E96D, 0xCC0C_7796, 0x6606_3BCB, 0xDEBB_9EC5);
    EntryIs(0xFF, 0xEDB8_835F, 0x9B64_C28F, 0xA00A_E267, 0xBDBD_F213, 0xB366_7A29, 0xB40B_BE34, 0x5A05_DF1A, 0x2D02_EF8D);
  }

  /** The check value of this CRC: its checksum of the digits 1 to 9. */
  lemma CheckValue()
    ensures Checksum(DIGITS) == 0xCBF4_3926
  {
    hide Feed, FeedByte, Shifts;
    SomeEntries();
    DigitStep(0xFFFF_FFFF, 0x31, 0xCE, 0x7CDC_EFB7, 0x7C23_1048);
    DigitStep(0x7C23_1048, 0x32, 0x7A, 0xB0D0_9822, 0xB0AC_BB32);
    DigitStep(0xB0AC_BB32, 0x33, 0x01, 0x7707_3096, 0x77B7_9C2D);
    DigitStep(0x77B7_9C2D, 0x34, 0x19, 0x646B_A8C0, 0x641C_1F5C);
    DigitStep(0x641C_1F5C, 0x35, 0x69, 0x346E_D9FC, 0x340A_C5E3);
    DigitStep(0x340A_C5E3, 0x36, 0xD5, 0xF6B9_265B, 0xF68D_2C9E);
    DigitStep(0xF68D_2C9E, 0x37, 0xA9, 0xAF0A_1B4C, 0xAFFC_9660);
    DigitStep(0xAFFC_9660, 0x38, 0x58, 0x65B0_D9C6, 0x651F_2550);
    DigitStep(0x651F_2550, 0x39, 0x69, 0x346E_D9FC, 0x340B_C6D9);
    DigitsInOrder();
  }

  const DIGITS: seq<Byte> := [0x31, 0x32, 0x33, 0x34, 0x35, 0x36, 0x37, 0x38, 0x39]

  lemma DigitStep(v: Word, b: Byte, index: Byte, entry: Word, next: Word)
    requires LowByte(Xor(v, Widen(b))) == index && Shifts(Widen(index), 8) == entry && next == Xor(entry, HighBytes(v))
    ensures FeedByte(v, b) == next
  {
    hide FeedByte, Shifts, LowByte, Xor, HighBytes, Widen;
    TableStep(v, b);
  }

  lemma DigitsInOrder()
    ensures Feed(START, DIGITS) == FeedByte(FeedByte(FeedByte(FeedByte(FeedByte(FeedByte(FeedByte(FeedByte(FeedByte(
      START, 0x31), 0x32), 0x33), 0x34), 0x35), 0x36), 0x37), 0x38), 0x39)
  {
    hide Feed, FeedByte;
    var low, high: seq<Byte> := [0x31, 0x32, 0x33, 0x34], [0x35, 0x36, 0x37, 0x38];
    FeedFour(START, 0x31, 0x32, 0x33, 0x34);
    FeedInTwo(START, low, high);
    FeedFour(Feed(START, low), 0x35, 0x36, 0x37, 0x38);
    FeedMore(START, low + high, 0x39);
    assert low + high + [0x39] == DIGITS;
  }

  /** The four bytes of a word, low byte first. */
  function LittleEndian(w: Word): seq<Byte> {
    [LowByte(w), LowByte(HighBytes(w)), LowByte(HighBytes(HighBytes(w))), LowByte(HighBytes(HighBytes(HighBytes(w))))]
  }

  /** A message followed by its own checksum, low byte first, always has the same checksum. */
  lemma AppendedChecksum(data: seq<Byte>)
    ensures Checksum(data + LittleEndian(Checksum(data))) == 0x2144_DF1C
  {
    hide Feed, FeedByte, Shifts, LowByte, HighBytes, Xor;
    var w0 := Feed(START, data);
    var w1 := HighBytes(w0);
    var w2 := HighBytes(w1);
    var w3 := HighBytes(w2);
    SomeEntries();
    KnownBytes();
    ChecksumBytes(w0);
    ResidueStep(w0, 0, 0x2D02_EF8D, 0x2D02_EF8D);
    ResidueStep(w1, 0x2D02_EF8D, 0xBE0B_1010, 0xBE26_12FF);
    ResidueStep(w2, 0xBE26_12FF, 0, 0x00BE_2612);
    ResidueStep(w3, 0x00BE_2612, 0xDEBB_9EC5, 0xDEBB_20E3);
    FeedFour(w0, LowByte(Invert(w0)), LowByte(Invert(w1)), LowByte(Invert(w2)), LowByte(Invert(w3)));
    FeedInTwo(START, data, LittleEndian(Checksum(data)));
    NothingLeft(w0);
  }

  lemma FeedFour(v: Word, a: Byte, b: Byte, c: Byte, d: Byte)
    ensures Feed(v, [a, b, c, d]) == FeedByte(FeedByte(FeedByte(FeedByte(v, a), b), c), d)
  {
    hide FeedByte;
    var ab, abc: seq<Byte> := [a] + [b], [a] + [b] + [c];
    assert Feed(v, []) == v && [] + [a] == [a];
    FeedMore(v, [], a);
    FeedMore(v, [a], b);
    FeedMore(v, ab, c);
    FeedMore(v, abc, d);
    assert abc + [d] == [a, b, c, d];
  }

  /** Feeding the inverse of a register's low byte leaves the rest of it, and something known. */
  lemma ResidueStep(w: Word, known: Word, entry: Word, next: Word)
    requires Shifts(Widen(LowByte(Invert(known))), 8) == entry && next == Xor(entry, HighBytes(known))
    ensures FeedByte(Xor(w, known), LowByte(Invert(w))) == Xor(HighBytes(w), next)
  {
    var b, x := LowByte(Invert(w)), Xor(w, known);
    CancelledByte(w, known);
    HighOfXor(w, known, entry);
    hide FeedByte, Shifts, LowByte, Xor, HighBytes, Widen, Invert;
    TableStep(x, b);
  }

  lemma KnownBytes()
    ensures LowByte(Invert(0)) == 0xFF && LowByte(Invert(0x2D02_EF8D)) == 0x72
    ensures LowByte(Invert(0xBE26_12FF)) == 0 && LowByte(Invert(0x00BE_2612)) == 0xED
    ensures Xor(0x2D02_EF8D, HighBytes(0)) == 0x2D02_EF8D && Xor(0xBE0B_1010, HighBytes(0x2D02_EF8D)) == 0xBE26_12FF
    ensures Xor(0, HighBytes(0xBE26_12FF)) == 0x00BE_2612 && Xor(0xDEBB_9EC5, HighBytes(0x00BE_2612)) == 0xDEBB_20E3
  {
  }

  lemma CancelledByte(w: Word, known: Word)
    ensures LowByte(Xor(Xor(w, known), Widen(LowByte(Invert(w))))) == LowByte(Invert(known))
  {
  }

  lemma HighOfXor(w: Word, known: Word, entry: Word)
    ensures Xor(entry, HighBytes(Xor(w, known))) == Xor(HighBytes(w), Xor(entry, HighBytes(known)))
  {
  }

  lemma ChecksumBytes(w: Word)
    ensures LittleEndian(Invert(w)) ==
      [LowByte(Invert(w)), LowByte(Invert(HighBytes(w))), LowByte(Invert(HighBytes(HighBytes(w)))),
       LowByte(Invert(HighBytes(HighBytes(HighBytes(w)))))]
  {
  }

  lemma NothingLeft(w: Word)
    ensures Xor(w, 0) == w && HighBytes(HighBytes(HighBytes(HighBytes(w)))) == 0
    ensures Invert(Xor(0, 0xDEBB_20E3)) == 0x2144_DF1C
  {
  }
}
