/**
 The packed cheat buffer: all three-byte entries, then all fifteen-byte descriptions.

 The buffer lives in memory that only takes halfword stores, so `WriteByte` rewrites half of
 a halfword. A buffer of n cheats is read as a list by `Unpacked`; the theorems say that adding
 and deleting, which shift the bytes in place, append to and remove from that list.
 */
module CheatList {

  type Byte = b: int | 0 <= b < 256
  type Halfword = h: int | 0 <= h < 0x1_0000

  const MAX_CHEATS := 50
  const BUFFER_BYTES := 900
  const SPACE: Byte := 32

  datatype Cheat = Cheat(entry: seq<Byte>, description: seq<Byte>) {
    ghost predicate Sized() {
      |entry| == 3 && |description| == 15
    }
  }

  // ------------------------------------------------------------------ meaning

  /** The byte at an address of halfword memory: even addresses hold the low half. */
  function ByteAt(mem: seq<Halfword>, at: nat): Byte
    requires at / 2 < |mem|
  {
    if at % 2 == 0 then mem[at / 2] % 256 else mem[at / 2] / 256
  }

  /** The first `count` bytes from address `base`. */
  ghost function Bytes(mem: seq<Halfword>, base: nat, count: nat): (s: seq<Byte>)
    requires base + count <= 2 * |mem|
    ensures |s| == count
    ensures forall i :: 0 <= i < count ==> s[i] == ByteAt(mem, base + i)
  {
    seq<Byte>(count, i requires 0 <= i < count => ByteAt(mem, base + i))
  }

  /** Cheat k of a packed buffer that holds n. */
  ghost function CheatAt(s: seq<Byte>, n: nat, k: nat): (c: Cheat)
    requires k < n && 18 * n <= |s|
    ensures c.Sized()
  {
    Cheat(s[3 * k..3 * k + 3], s[3 * n + 15 * k..3 * n + 15 * k + 15])
  }

  /** The list a packed buffer of n cheats stands for. */
  ghost function Unpacked(s: seq<Byte>, n: nat): (list: seq<Cheat>)
    requires 18 * n <= |s|
    ensures |list| == n
    ensures forall k :: 0 <= k < n ==> list[k] == CheatAt(s, n, k)
  {
    seq(n, k requires 0 <= k < n => CheatAt(s, n, k))
  }

  ghost function Entries(list: seq<Cheat>): seq<Byte> {
    if |list| == 0 then [] else Entries(list[..|list| - 1]) + list[|list| - 1].entry
  }

  ghost function Descriptions(list: seq<Cheat>): seq<Byte> {
    if |list| == 0 then [] else Descriptions(list[..|list| - 1]) + list[|list| - 1].description
  }

  /** The bytes that stand for a list. */
  ghost function Packed(list: seq<Cheat>): seq<Byte> {
    Entries(list) + Descriptions(list)
  }

  ghost predicate AllSized(list: seq<Cheat>) {
    forall k :: 0 <= k < |list| ==> list[k].Sized()
  }

  ghost function NewCheat(address: Halfword, value: Byte): Cheat {
    Cheat([address % 256, address / 256, value], Spaces(15))
  }

  // ------------------------------------------------------------------ the code

  class CheatFinder {
    const mem: array<Halfword>
    const base: nat
    var numCheats: nat

    ghost predicate Valid()
      reads this
    {
      numCheats <= MAX_CHEATS && base + BUFFER_BYTES <= 2 * mem.Length
    }

    ghost function Buffer(): (s: seq<Byte>)
      requires base + BUFFER_BYTES <= 2 * mem.Length
      reads mem
      ensures |s| == BUFFER_BYTES
    {
      Bytes(mem[..], base, BUFFER_BYTES)
    }

    ghost function Cheats(): (list: seq<Cheat>)
      requires Valid()
      reads this, mem
      ensures |list| == numCheats
    {
      Unpacked(Buffer(), numCheats)
    }

    constructor (mem: array<Halfword>, base: nat)
      requires base + BUFFER_BYTES <= 2 * mem.Length
      ensures this.mem == mem && this.base == base && Valid() && Cheats() == []
    {
      this.mem, this.base, numCheats := mem, base, 0;
    }

    method Read(i: nat) returns (b: Byte)
      requires i < BUFFER_BYTES && base + BUFFER_BYTES <= 2 * mem.Length
      ensures b == Buffer()[i]
    {
      b := ByteAt(mem[..], base + i);
    }

    /** Stores one byte by rewriting its halfword; every other byte keeps its value. */
    method WriteByte(i: nat, data: Byte)
      requires i < BUFFER_BYTES && base + BUFFER_BYTES <= 2 * mem.Length
      modifies mem
      ensures Buffer() == old(Buffer())[i := data]
      ensures forall at :: 0 <= at < 2 * mem.Length && at != base + i ==> ByteAt(mem[..], at) == old(ByteAt(mem[..], at))
    {
      hide Bytes;
      var address := base + i;
      ghost var was := mem[..];
      if address % 2 == 1 {
        var low := mem[address / 2] % 256;
        mem[address / 2] := low + data * 256;
      } else {
        var high := mem[address / 2] / 256;
        mem[address / 2] := high * 256 + data;
      }
      HalfStored(was, mem[..], address, data);
      BytesStored(was, mem[..], base, BUFFER_BYTES, i, data);
    }

    /** Makes room for one entry: everything after the last one moves up three bytes, last byte first. */
    method OpenGap()
      requires Valid() && numCheats < MAX_CHEATS
      modifies mem
      ensures Moved(Buffer(), old(Buffer()), 3 * numCheats + 3, 18 * numCheats + 3, -3)
    {
      hide Bytes, Buffer;
      var element := numCheats * 3;
      ghost var was := Buffer();
      var i: int := numCheats * 18 + 3 - 1;
      while i >= element + 3
        invariant element + 2 <= i <= numCheats * 18 + 2
        invariant Moved(Buffer(), was, i + 1, numCheats * 18 + 3, -3)
        decreases i
      {
        var b := Read(i - 3);
        WriteByte(i, b);
        i := i - 1;
      }
    }

    /** Fills [from, to) with spaces. */
    method Blank(from: nat, to: nat)
      requires from <= to <= BUFFER_BYTES && base + BUFFER_BYTES <= 2 * mem.Length
      modifies mem
      ensures Buffer() == old(Buffer())[..from] + Spaces(to - from) + old(Buffer())[to..]
    {
      hide Bytes, Buffer;
      ghost var was := Buffer();
      var i := from;
      while i < to
        invariant from <= i <= to
        invariant Buffer() == was[..from] + Spaces(i - from) + was[i..]
      {
        WriteByte(i, SPACE);
        i := i + 1;
      }
    }

    /** Moves the bytes d above [from, to) down into it, first byte first. */
    method CloseGap(from: nat, to: nat, d: nat)
      requires from <= to <= BUFFER_BYTES - d && base + BUFFER_BYTES <= 2 * mem.Length
      modifies mem
      ensures Moved(Buffer(), old(Buffer()), from, to, d)
    {
      hide Bytes, Buffer;
      ghost var was := Buffer();
      var j := from;
      while j < to
        invariant from <= j <= to
        invariant Moved(Buffer(), was, from, j, d)
      {
        var b := Read(j + d);
        WriteByte(j, b);
        j := j + 1;
      }
    }

    /** Moves the entries above i down by one, three bytes a turn. */
    method CloseEntries(i: nat)
      requires Valid() && i <= numCheats < MAX_CHEATS
      modifies mem
      ensures Moved(Buffer(), old(Buffer()), 3 * i, 3 * numCheats, 3)
    {
      hide Bytes, Buffer;
      ghost var was := Buffer();
      var j := i;
      while j < numCheats
        invariant i <= j <= numCheats
        invariant Moved(Buffer(), was, 3 * i, 3 * j, 3)
      {
        var b0 := Read(j * 3 + 3);
        WriteByte(j * 3 + 0, b0);
        var b1 := Read(j * 3 + 4);
        WriteByte(j * 3 + 1, b1);
        var b2 := Read(j * 3 + 5);
        WriteByte(j * 3 + 2, b2);
        j := j + 1;
      }
    }

    /** Appends a cheat with a blank description, if there is room. */
    method AddCheat(address: Halfword, value: Byte) returns (ok: int)
      requires Valid()
      modifies this`numCheats, mem
      ensures Valid()
      ensures ok == if old(numCheats) < MAX_CHEATS then 1 else 0
      ensures ok == 1 ==> Cheats() == old(Cheats()) + [NewCheat(address, value)]
      ensures ok == 0 ==> Buffer() == old(Buffer()) && numCheats == old(numCheats)
      ensures Buffer()[18 * numCheats..] == old(Buffer())[18 * numCheats..]
    {
      hide Bytes, Buffer, Unpacked, NewCheat, Added;
      if numCheats >= MAX_CHEATS {
        return 0;
      }
      ghost var was := Buffer();
      WriteNew(address, value);
      numCheats := numCheats + 1;
      AddedUnpacks(was, Buffer(), numCheats - 1, address, value);
      AddedTail(was, Buffer(), numCheats - 1, address, value);
      ok := 1;
    }

    /** The bytes of one more cheat: the entry in the gap, and a blank description at the end. */
    method WriteNew(address: Halfword, value: Byte)
      requires Valid() && numCheats < MAX_CHEATS
      modifies mem
      ensures Added(old(Buffer()), Buffer(), numCheats, address, value)
    {
      hide Bytes, Buffer, Moved, Spaces, Added;
      var element := numCheats * 3;
      ghost var was := Buffer();
      OpenGap();
      ghost var moved := Buffer();
      Blank(numCheats * 18 + 3, (numCheats + 1) * 18);
      ghost var blanked := Buffer();
      WriteByte(element, address % 256);
      WriteByte(element + 1, address / 256);
      WriteByte(element + 2, value);
      AddedBytes(was, moved, blanked, Buffer(), numCheats, address, value);
    }

    /** Removes cheat i; an index at or past the end changes nothing. */
    method DeleteCheat(i: nat)
      requires Valid()
      modifies this`numCheats, mem
      ensures Valid()
      ensures i < old(numCheats) ==> Cheats() == old(Cheats())[..i] + old(Cheats())[i + 1..]
      ensures i >= old(numCheats) ==> Buffer() == old(Buffer()) && numCheats == old(numCheats)
      ensures Buffer()[18 * old(numCheats)..] == old(Buffer())[18 * old(numCheats)..]
    {
      hide Bytes, Buffer, Unpacked, Moved, Deleted;
      if i >= numCheats {
        return;
      }
      ghost var was := Buffer();
      numCheats := numCheats - 1;
      CloseEntries(i);
      ghost var closed := Buffer();
      var desc := numCheats * 3;
      CloseGap(desc, desc + i * 15, 3);
      ghost var shifted := Buffer();
      CloseGap(desc + i * 15, desc + numCheats * 15, 15 + 3);
      DeletedBytes(was, closed, shifted, Buffer(), numCheats, i);
      DeletedUnpacks(was, Buffer(), numCheats, i);
    }
  }

  /** Inside [lo, hi) now holds what was d bytes further on; outside nothing changed. */
  ghost predicate Moved(now: seq<Byte>, was: seq<Byte>, lo: nat, hi: nat, d: int) {
    && |now| == |was| && lo + d >= 0 && lo <= hi <= |was| && hi + d <= |was|
    && (forall j :: 0 <= j < lo ==> now[j] == was[j])
    && (forall j :: lo <= j < hi ==> now[j] == was[j + d])
    && (forall j :: hi <= j < |was| ==> now[j] == was[j])
  }

  ghost function Spaces(n: nat): seq<Byte> {
    seq<Byte>(n, _ => SPACE)
  }

  // ------------------------------------------------------------------ proofs about the layout

  /** Half of a halfword was rewritten: one byte changed. */
  lemma HalfStored(was: seq<Halfword>, now: seq<Halfword>, address: nat, data: Byte)
    requires address / 2 < |was| == |now| && forall k :: 0 <= k < |was| && k != address / 2 ==> now[k] == was[k]
    requires var h := was[address / 2];
      now[address / 2] == if address % 2 == 1 then h % 256 + data * 256 else h / 256 * 256 + data
    ensures forall at :: 0 <= at < 2 * |was| ==> ByteAt(now, at) == if at == address then data else ByteAt(was, at)
  {
    forall at | 0 <= at < 2 * |was| ensures ByteAt(now, at) == if at == address then data else ByteAt(was, at) {
      if at / 2 != address / 2 {
        assert now[at / 2] == was[at / 2];
      }
    }
  }

  lemma BytesStored(was: seq<Halfword>, now: seq<Halfword>, base: nat, count: nat, i: nat, data: Byte)
    requires |was| == |now| && i < count && base + count <= 2 * |was|
    requires forall at :: 0 <= at < 2 * |was| ==> ByteAt(now, at) == if at == base + i then data else ByteAt(was, at)
    ensures Bytes(now, base, count) == Bytes(was, base, count)[i := data]
  {
    hide ByteAt;
  }

  /** The buffer after an addition, byte by byte. */
  ghost predicate Added(was: seq<Byte>, now: seq<Byte>, n: nat, address: Halfword, value: Byte) {
    && |was| == |now| && 18 * n + 18 <= |was|
    && (forall j :: 0 <= j < 3 * n ==> now[j] == was[j])
    && now[3 * n] == address % 256 && now[3 * n + 1] == address / 256 && now[3 * n + 2] == value
    && (forall j :: 3 * n + 3 <= j < 18 * n + 3 ==> now[j] == was[j - 3])
    && (forall j :: 18 * n + 3 <= j < 18 * n + 18 ==> now[j] == SPACE)
    && now[18 * n + 18..] == was[18 * n + 18..]
  }

  lemma AddedBytes(was: seq<Byte>, moved: seq<Byte>, blanked: seq<Byte>, now: seq<Byte>, n: nat,
                   address: Halfword, value: Byte)
    requires 18 * n + 18 <= |was| && Moved(moved, was, 3 * n + 3, 18 * n + 3, -3)
    requires blanked == moved[..18 * n + 3] + Spaces(15) + moved[18 * n + 18..]
    requires now == blanked[3 * n := address % 256][3 * n + 1 := address / 256][3 * n + 2 := value]
    ensures Added(was, now, n, address, value)
  {
  }

  lemma AddedTail(was: seq<Byte>, now: seq<Byte>, n: nat, address: Halfword, value: Byte)
    requires Added(was, now, n, address, value)
    ensures now[18 * (n + 1)..] == was[18 * (n + 1)..]
  {
  }

  lemma SameSlice(a: seq<Byte>, i: nat, b: seq<Byte>, j: nat, k: nat)
    requires i + k <= |a| && j + k <= |b| && forall x :: i <= x < i + k ==> a[x] == b[x - i + j]
    ensures a[i..i + k] == b[j..j + k]
  {
    var p, q := a[i..i + k], b[j..j + k];
    forall x | 0 <= x < k ensures p[x] == q[x] {
      assert a[i + x] == b[j + x];
    }
  }

  /** The bytes after an addition unpack to the old list with one cheat more. */
  lemma AddedUnpacks(was: seq<Byte>, now: seq<Byte>, n: nat, address: Halfword, value: Byte)
    requires Added(was, now, n, address, value)
    ensures Unpacked(now, n + 1) == Unpacked(was, n) + [NewCheat(address, value)]
  {
    hide Added, CheatAt, NewCheat, Unpacked;
    AddedSize(was, now, n, address, value);
    forall k | 0 <= k < n ensures CheatAt(now, n + 1, k) == CheatAt(was, n, k) {
      OldCheatStays(was, now, n, address, value, k);
    }
    NewCheatIsLast(was, now, n, address, value);
  }

  lemma AddedSize(was: seq<Byte>, now: seq<Byte>, n: nat, address: Halfword, value: Byte)
    requires Added(was, now, n, address, value)
    ensures |now| == |was| && |was| >= 18 * (n + 1)
  {
  }

  lemma OldCheatStays(was: seq<Byte>, now: seq<Byte>, n: nat, address: Halfword, value: Byte, k: nat)
    requires Added(was, now, n, address, value) && k < n
    ensures |now| == |was| >= 18 * (n + 1) && CheatAt(now, n + 1, k) == CheatAt(was, n, k)
  {
    SameSlice(now, 3 * k, was, 3 * k, 3);
    SameSlice(now, 3 * (n + 1) + 15 * k, was, 3 * n + 15 * k, 15);
  }

  lemma NewCheatIsLast(was: seq<Byte>, now: seq<Byte>, n: nat, address: Halfword, value: Byte)
    requires Added(was, now, n, address, value)
    ensures |now| >= 18 * (n + 1) && CheatAt(now, n + 1, n) == NewCheat(address, value)
  {
    var added := NewCheat(address, value);
    SameSlice(now, 3 * n, added.entry, 0, 3);
    SameSlice(now, 18 * n + 3, added.description, 0, 15);
    assert added.entry[0..3] == added.entry && added.description[0..15] == added.description;
  }

  /** The buffer after a removal, byte by byte. */
  ghost predicate Deleted(was: seq<Byte>, now: seq<Byte>, n: nat, i: nat) {
    && |was| == |now| && 18 * n + 18 <= |was| && i <= n
    && (forall x :: 0 <= x < 3 * i ==> now[x] == was[x])
    && (forall x :: 3 * i <= x < 3 * n + 15 * i ==> now[x] == was[x + 3])
    && (forall x :: 3 * n + 15 * i <= x < 18 * n ==> now[x] == was[x + 18])
    && now[18 * n + 18..] == was[18 * n + 18..]
  }

  lemma DeletedBytes(was: seq<Byte>, closed: seq<Byte>, shifted: seq<Byte>, now: seq<Byte>, n: nat, i: nat)
    requires 18 * n + 18 <= |was| && i <= n && Moved(closed, was, 3 * i, 3 * n, 3)
    requires Moved(shifted, closed, 3 * n, 3 * n + 15 * i, 3) && Moved(now, shifted, 3 * n + 15 * i, 18 * n, 18)
    ensures Deleted(was, now, n, i) && now[18 * (n + 1)..] == was[18 * (n + 1)..]
  {
  }

  lemma DeletedUnpacks(was: seq<Byte>, now: seq<Byte>, n: nat, i: nat)
    requires Deleted(was, now, n, i)
    ensures Unpacked(now, n) == Unpacked(was, n + 1)[..i] + Unpacked(was, n + 1)[i + 1..]
  {
    assert |now| == |was| >= 18 * (n + 1) && i <= n;
    hide Deleted, CheatAt, Unpacked;
    var rest := Unpacked(was, n + 1)[..i] + Unpacked(was, n + 1)[i + 1..];
    forall k | 0 <= k < n ensures Unpacked(now, n)[k] == rest[k] {
      CheatMoves(was, now, n, i, k);
    }
  }

  lemma CheatMoves(was: seq<Byte>, now: seq<Byte>, n: nat, i: nat, k: nat)
    requires Deleted(was, now, n, i) && k < n
    ensures |now| == |was| >= 18 * (n + 1) && CheatAt(now, n, k) == CheatAt(was, n + 1, if k < i then k else k + 1)
  {
    if k < i {
      SameSlice(now, 3 * k, was, 3 * k, 3);
      DescriptionMoves(was, now, n, i, k, k, 3);
    } else {
      SameSlice(now, 3 * k, was, 3 * (k + 1), 3);
      DescriptionMoves(was, now, n, i, k, k + 1, 18);
    }
  }

  lemma DescriptionMoves(was: seq<Byte>, now: seq<Byte>, n: nat, i: nat, k: nat, from: nat, d: nat)
    requires Deleted(was, now, n, i) && k < n && (if k < i then from == k && d == 3 else from == k + 1 && d == 18)
    ensures now[3 * n + 15 * k..3 * n + 15 * k + 15] == was[3 * (n + 1) + 15 * from..3 * (n + 1) + 15 * from + 15]
  {
    var at := 3 * n + 15 * k;
    assert 3 * (n + 1) + 15 * from == at + d;
    forall x | at <= x < at + 15 ensures now[x] == was[x + d] {
    }
    hide Deleted;
    SameSlice(now, at, was, at + d, 15);
  }

  /** The first 18 * n bytes are determined by the list: nothing else is stored. */
  lemma {:induction false} PackedUnpacked(s: seq<Byte>, n: nat)
    requires 18 * n <= |s|
    ensures Packed(Unpacked(s, n)) == s[..18 * n]
  {
    EntriesUnpacked(s, n, n);
    DescriptionsUnpacked(s, n, n);
    assert s[..3 * n] + s[3 * n..18 * n] == s[..18 * n];
    assert Unpacked(s, n)[..n] == Unpacked(s, n);
  }

  lemma {:induction false} EntriesUnpacked(s: seq<Byte>, n: nat, k: nat)
    requires 18 * n <= |s| && k <= n
    ensures Entries(Unpacked(s, n)[..k]) == s[..3 * k]
  {
    hide Unpacked;
    var list := Unpacked(s, n);
    if k > 0 {
      EntriesUnpacked(s, n, k - 1);
      assert list[k - 1] == CheatAt(s, n, k - 1);
      assert list[..k][..k - 1] == list[..k - 1];
      assert s[..3 * k] == s[..3 * (k - 1)] + s[3 * (k - 1)..3 * k];
    }
  }

  lemma {:induction false} DescriptionsUnpacked(s: seq<Byte>, n: nat, k: nat)
    requires 18 * n <= |s| && k <= n
    ensures Descriptions(Unpacked(s, n)[..k]) == s[3 * n..3 * n + 15 * k]
  {
    hide Unpacked;
    var list, d := Unpacked(s, n), 3 * n;
    if k > 0 {
      DescriptionsUnpacked(s, n, k - 1);
      assert list[k - 1] == CheatAt(s, n, k - 1);
      assert list[..k][..k - 1] == list[..k - 1];
      assert s[d..d + 15 * k] == s[d..d + 15 * (k - 1)] + s[d + 15 * (k - 1)..d + 15 * k];
    }
  }

  lemma {:induction false} EntriesAt(list: seq<Cheat>, k: nat)
    requires AllSized(list) && k < |list|
    ensures |Entries(list)| == 3 * |list| && Entries(list)[3 * k..3 * k + 3] == list[k].entry
  {
    var n := |list| - 1;
    var front := Entries(list[..n]);
    if n > 0 {
      EntriesAt(list[..n], if k < n then k else 0);
    }
    if k < n {
      assert Entries(list)[3 * k..3 * k + 3] == front[3 * k..3 * k + 3];
    }
  }

  lemma {:induction false} DescriptionsAt(list: seq<Cheat>, k: nat)
    requires AllSized(list) && k < |list|
    ensures |Descriptions(list)| == 15 * |list|
    ensures Descriptions(list)[15 * k..15 * k + 15] == list[k].description
  {
    var n := |list| - 1;
    var front := Descriptions(list[..n]);
    if n > 0 {
      DescriptionsAt(list[..n], if k < n then k else 0);
    }
    if k < n {
      assert Descriptions(list)[15 * k..15 * k + 15] == front[15 * k..15 * k + 15];
    }
  }

  /** Every list of well-sized cheats is what its packed bytes unpack to. */
  lemma UnpackedPacked(list: seq<Cheat>, rest: seq<Byte>)
    requires AllSized(list)
    ensures |Packed(list)| == 18 * |list|
    ensures Unpacked(Packed(list) + rest, |list|) == list
  {
    var n, e, d := |list|, Entries(list), Descriptions(list);
    var s := Packed(list) + rest;
    if n > 0 {
      EntriesAt(list, 0);
      DescriptionsAt(list, 0);
    }
    forall k | 0 <= k < n ensures CheatAt(s, n, k) == list[k] {
      EntriesAt(list, k);
      DescriptionsAt(list, k);
      assert s[3 * k..3 * k + 3] == e[3 * k..3 * k + 3];
      assert s[3 * n + 15 * k..3 * n + 15 * k + 15] == d[15 * k..15 * k + 15];
    }
  }

  /** Deleting the last cheat undoes an addition, byte for byte. */
  lemma DeleteUndoesAdd(was: seq<Byte>, mid: seq<Byte>, now: seq<Byte>, n: nat, c: Cheat)
    requires |was| == |mid| == |now| && 18 * (n + 1) <= |was|
    requires Unpacked(mid, n + 1) == Unpacked(was, n) + [c]
    requires Unpacked(now, n) == Unpacked(mid, n + 1)[..n] + Unpacked(mid, n + 1)[n + 1..]
    ensures now[..18 * n] == was[..18 * n]
  {
    assert Unpacked(now, n) == Unpacked(was, n);
    PackedUnpacked(now, n);
    PackedUnpacked(was, n);
  }

  /** An entry is read back as its address, low byte first, and its value; the description is blank. */
  lemma NewCheatReads(address: Halfword, value: Byte)
    ensures var c := NewCheat(address, value);
      && c.Sized() && (c.entry[0] as int) + 256 * (c.entry[1] as int) == address && c.entry[2] == value
      && forall i :: 0 <= i < 15 ==> c.description[i] == ' ' as int
  {
  }

  /** Fifty cheats fill the buffer exactly. */
  lemma FiftyFill(list: seq<Cheat>)
    requires AllSized(list) && |list| == MAX_CHEATS
    ensures |list| == 50 && |Packed(list)| == 900 == BUFFER_BYTES
  {
    UnpackedPacked(list, []);
  }
}
