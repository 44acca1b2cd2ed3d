/**
 The registry of video DMA packets: which source each stretch of video memory was copied from.

 Each frame brings a list of incoming packets. `RegisterDmaPackets` merges it into the registered
 list in place and lists the packets that have to be drawn again. Both lists are arrays of
 24 entries that end at the first entry whose destination is 0.
 */
module DmaPackets {
  import opened Collections

  type U16 = x: int | 0 <= x < 0x1_0000

  const MAX_PACKETS := 24

  datatype Packet = Packet(dest: U16, length: U16, source: int) {
    function End(): int {
      dest + length
    }

    predicate Overlaps(other: Packet) {
      End() > other.dest && dest < other.End()
    }
  }

  datatype DirtyPacket = DirtyPacket(byteCount: U16, tileNumber: U16, source: int)

  // ------------------------------------------------------------------ meaning

  /** The list an array of packets stands for. */
  function Listed(a: seq<Packet>): (list: seq<Packet>)
    ensures |list| <= |a| && list == a[..|list|]
    ensures forall p :: p in list ==> p.dest != 0
    ensures |list| < |a| ==> a[|list|].dest == 0
  {
    if |a| == 0 || a[0].dest == 0 then [] else [a[0]] + Listed(a[1..])
  }

  /** Non-empty packets, each ending before the next begins. */
  ghost predicate Ordered(list: seq<Packet>) {
    && (forall i :: 0 <= i < |list| ==> list[i].length > 0)
    && (forall i, j :: 0 <= i < j < |list| ==> list[i].End() <= list[j].dest)
  }

  /** What the check at the start of a registration accepts. */
  ghost predicate Sane(list: seq<Packet>, base: nat) {
    && (|list| > 0 ==> base <= list[0].dest)
    && forall i :: 0 < i < |list| ==> list[i - 1].End() <= list[i].dest
  }

  /** The registered packets a registration starts from: none if they are out of order. */
  ghost function SaneOrNone(list: seq<Packet>, base: nat): seq<Packet> {
    if Sane(list, base) then list else []
  }

  /** The first packet that ends after x. */
  ghost function FirstEndingAfter(list: seq<Packet>, x: int): (k: nat)
    ensures k <= |list|
    ensures forall j :: 0 <= j < k ==> list[j].End() <= x
    ensures k < |list| ==> list[k].End() > x
  {
    if |list| == 0 || list[0].End() > x then 0 else 1 + FirstEndingAfter(list[1..], x)
  }

  /** The first packet that starts at or after y. */
  ghost function FirstStartingFrom(list: seq<Packet>, y: int): (k: nat)
    ensures k <= |list|
    ensures forall j :: 0 <= j < k ==> list[j].dest < y
    ensures k < |list| ==> list[k].dest >= y
  {
    if |list| == 0 || list[0].dest >= y then 0 else 1 + FirstStartingFrom(list[1..], y)
  }

  /** One packet registered: it takes the place of the packets it overlaps. */
  ghost function WithPacket(list: seq<Packet>, p: Packet): (r: seq<Packet>)
  {
    var k, m := FirstEndingAfter(list, p.dest), FirstStartingFrom(list, p.End());
    list[..k] + [p] + if k <= m then list[m..] else []
  }

  ghost function Registered(list: seq<Packet>, incoming: seq<Packet>): seq<Packet> {
    if |incoming| == 0 then list
    else WithPacket(Registered(list, incoming[..|incoming| - 1]), incoming[|incoming| - 1])
  }

  /** The incoming packets that were not registered already, in order. */
  ghost function Dirty(list: seq<Packet>, incoming: seq<Packet>): (d: seq<Packet>)
    ensures |d| <= |incoming|
  {
    if |incoming| == 0 then []
    else
      var before, p := Dirty(list, incoming[..|incoming| - 1]), incoming[|incoming| - 1];
      if p in list then before else before + [p]
  }

  predicate Untouched(q: Packet, incoming: seq<Packet>) {
    forall p :: p in incoming ==> !p.Overlaps(q)
  }

  /** The registered packets that no incoming one overlaps. */
  function Kept(list: seq<Packet>, incoming: seq<Packet>): (r: seq<Packet>)
    ensures |r| <= |list|
  {
    if |list| == 0 then []
    else
      var n := |list| - 1;
      var before := Kept(list[..n], incoming);
      if Untouched(list[n], incoming) then before + [list[n]] else before
  }

  /** After each incoming packet, those so far and the untouched registered ones fill at most the array. */
  predicate HasRoom(list: seq<Packet>, incoming: seq<Packet>) {
    forall i :: 0 <= i <= |incoming| ==> i + |Kept(list, incoming[..i])| <= MAX_PACKETS
  }

  /** The list never outgrows the array on the way. */
  ghost predicate Fits(list: seq<Packet>, incoming: seq<Packet>) {
    forall i :: 0 <= i <= |incoming| ==> |Registered(list, incoming[..i])| <= MAX_PACKETS
  }

  /** Division of a possibly negative difference, which truncates toward zero. */
  function Quotient(a: int, b: int): int
    requires b > 0
  {
    if a >= 0 then a / b else -(-a / b)
  }

  function ToDraw(p: Packet, base: nat, bank: nat): DirtyPacket {
    DirtyPacket(p.length, (Quotient(p.dest - base, 0x10) + bank * 0x180) % 0x1_0000, p.source)
  }

  /** A registered array after a frame, and the packets to draw: those that are new, at their tile
      numbers, which start at firstTile for the tile at the DMA base. */
  ghost predicate MergedInto(now: seq<Packet>, was: seq<Packet>, incoming: seq<Packet>, base: nat,
                             drawn: seq<DirtyPacket>, firstTile: nat)
  {
    var list, added := SaneOrNone(Listed(was), base), Dirty(SaneOrNone(Listed(was), base), Listed(incoming));
    Listed(now) == Registered(list, Listed(incoming)) && DrawnAt(drawn, added, base, firstTile)
  }

  ghost predicate DrawnAt(drawn: seq<DirtyPacket>, added: seq<Packet>, base: nat, firstTile: nat) {
    && |drawn| == |added|
    && forall i :: 0 <= i < |drawn| ==>
      && drawn[i].byteCount == added[i].length && drawn[i].source == added[i].source
      && (added[i].dest >= base ==> drawn[i].tileNumber == firstTile + (added[i].dest - base) / 16)
      && (added[i].dest < base ==> drawn[i].tileNumber == (firstTile - (base - added[i].dest) / 16) % 0x1_0000)
  }

  ghost function AllToDraw(list: seq<Packet>, base: nat, bank: nat): (r: seq<DirtyPacket>)
    ensures |r| == |list|
    ensures forall i :: 0 <= i < |list| ==> r[i] == ToDraw(list[i], base, bank)
  {
    seq(|list|, i requires 0 <= i < |list| => ToDraw(list[i], base, bank))
  }

  // ------------------------------------------------------------------ the code

  /** Moves the packets from index on one place up. */
  method InsertIntoPacketList(list: array<Packet>, listCount: nat, index: nat)
    requires index < listCount < list.Length
    modifies list
    ensures list[..] == old(list[..index + 1]) + old(list[index..listCount]) + old(list[listCount + 1..])
  {
    forall k | index <= k < listCount {
      list[k + 1] := list[k];
    }
  }

  /** Moves the packets after the removed ones down over them. */
  method RemoveFromPacketList(list: array<Packet>, listCount: nat, index: nat, removeCount: nat)
    requires index + removeCount <= listCount <= list.Length
    modifies list
    ensures list[..listCount - removeCount] == old(list[..index]) + old(list[index + removeCount..listCount])
  {
    if listCount - index - removeCount <= 0 {
      return;
    }
    forall k | index <= k < listCount - removeCount {
      list[k] := list[k + removeCount];
    }
  }

  class PacketTable {
    const incoming: array<Packet>
    const registered0: array<Packet>
    const registered1: array<Packet>
    const dirty: array<DirtyPacket>
    const dmaBaseAddress: nat
    var vramBank: nat
    var dirtyPacketIndex: nat

    ghost predicate Valid()
      reads this
    {
      && incoming.Length == registered0.Length == registered1.Length == dirty.Length == MAX_PACKETS
      && incoming != registered0 && incoming != registered1 && registered0 != registered1
      && vramBank <= 1 && dirtyPacketIndex <= MAX_PACKETS
    }

    function OutList(): array<Packet>
      reads this
    {
      if vramBank == 0 then registered0 else registered1
    }

    ghost function Base(): seq<Packet>
      reads this, OutList()
    {
      SaneOrNone(Listed(OutList()[..]), dmaBaseAddress)
    }

    constructor (incoming: array<Packet>, registered0: array<Packet>, registered1: array<Packet>,
                 dirty: array<DirtyPacket>, base: nat)
      requires incoming.Length == registered0.Length == registered1.Length == dirty.Length == MAX_PACKETS
      requires incoming != registered0 && incoming != registered1 && registered0 != registered1
      ensures Valid() && this.incoming == incoming && this.dirty == dirty && dmaBaseAddress == base
      ensures this.registered0 == registered0 && this.registered1 == registered1 && vramBank == 0
    {
      this.incoming, this.registered0, this.registered1, this.dirty := incoming, registered0, registered1, dirty;
      dmaBaseAddress, vramBank, dirtyPacketIndex := base, 0, 0;
    }

    method GetPacketListCount(list: array<Packet>) returns (count: nat)
      ensures count == |Listed(list[..])|
    {
      count := list.Length;
      for i := 0 to list.Length
        invariant count == list.Length
        invariant |Listed(list[..])| == i + |Listed(list[i..])|
      {
        assert list[i..][1..] == list[i + 1..];
        if list[i].dest == 0 {
          return i;
        }
      }
    }

    method StoreDirtyPacket(p: Packet)
      requires Valid()
      modifies this`dirtyPacketIndex, dirty
      ensures Valid()
      ensures old(dirtyPacketIndex) < MAX_PACKETS ==>
        dirtyPacketIndex == old(dirtyPacketIndex) + 1
        && dirty[..dirtyPacketIndex] == old(dirty[..dirtyPacketIndex]) + [ToDraw(p, dmaBaseAddress, vramBank)]
      ensures old(dirtyPacketIndex) == MAX_PACKETS ==>
        dirtyPacketIndex == MAX_PACKETS && dirty[..] == old(dirty[..])
    {
      if dirtyPacketIndex < MAX_PACKETS {
        dirty[dirtyPacketIndex] := DirtyPacket(p.length,
          (Quotient(p.dest - dmaBaseAddress, 0x10) + vramBank * 0x180) % 0x1_0000, p.source);
        dirtyPacketIndex := dirtyPacketIndex + 1;
      }
    }

    /** Empties a registered list that is out of order or begins below the DMA base. */
    method SanityCheckOutList(outList: array<Packet>)
      requires Valid() && outList == OutList()
      modifies outList
      ensures Listed(outList[..]) == old(Base())
    {
      ghost var list := Listed(outList[..]);
      var lastEnd: int := dmaBaseAddress;
      for i := 0 to MAX_PACKETS
        invariant outList[..] == old(outList[..]) && i <= |list|
        invariant Sane(list[..i], dmaBaseAddress)
        invariant lastEnd == if i == 0 then dmaBaseAddress else list[i - 1].End()
      {
        var item := outList[i];
        if item.dest == 0 {
          assert i == |list| && list[..i] == list;
          return;
        }
        assert i < |list| && list[i] == item;
        if item.dest < lastEnd {
          assert !Sane(list, dmaBaseAddress);
          outList[0] := outList[0].(dest := 0);
          return;
        }
        lastEnd := item.End();
      }
      assert list[..MAX_PACKETS] == list;
    }

    /** Merges one incoming packet into the registered list, from position outMin on. */
    method RegisterPacket(p: Packet, outList: array<Packet>, count: nat, min: nat)
      returns (outCount: nat, outMin: nat)
      requires Valid() && outList == OutList() && min <= count <= MAX_PACKETS && dirtyPacketIndex < MAX_PACKETS
      requires Passed(outList[..count], p, min) && |WithPacket(outList[..count], p)| <= MAX_PACKETS
      modifies outList, this`dirtyPacketIndex, dirty
      ensures Valid() && outCount <= MAX_PACKETS
      ensures outList[..outCount] == WithPacket(old(outList[..count]), p)
      ensures outMin <= outCount && forall j :: 0 <= j < outMin ==> outList[j].End() <= p.End()
      ensures dirtyPacketIndex == old(dirtyPacketIndex) + if p in old(outList[..count]) then 0 else 1
      ensures dirty[..dirtyPacketIndex] == old(dirty[..dirtyPacketIndex]) +
        if p in old(outList[..count]) then [] else [ToDraw(p, dmaBaseAddress, vramBank)]
    {
      hide WithPacket, ToDraw, Passed, Ordered, Packet.Overlaps;
      ghost var list := outList[..count];
      outCount, outMin := count, min;
      var outIndex := outMin;
      while outIndex < outCount
        invariant outIndex == outMin <= outCount == count
        invariant outList[..count] == list && Passed(list, p, outIndex)
        invariant dirtyPacketIndex == old(dirtyPacketIndex) && dirty[..] == old(dirty[..])
      {
        var out := outList[outIndex];
        assert list[outIndex] == out;
        PassOne(list, p, outIndex);
        BesideOrOverlapping(p, out);
        if out.dest == p.dest && out.length == p.length {
          outCount := Retarget(p, outList, outCount, outIndex);
          outMin := outIndex + 1;
          if out.source == p.source {
            // accept packet, do nothing
          } else {
            StoreDirtyPacket(outList[outIndex]);
          }
          return;
        } else if p.Overlaps(out) {
          outCount := ReplaceOverlapped(p, outList, outCount, outIndex);
          StoreDirtyPacket(outList[outIndex]);
          outMin := outIndex + 1;
          return;
        } else if p.dest >= out.End() {
          outMin := outIndex + 1;
        } else if p.End() <= out.dest {
          outCount := InsertBefore(p, outList, outCount, outIndex);
          StoreDirtyPacket(outList[outIndex]);
          outMin := outIndex + 1;
          return;
        }
        outIndex := outIndex + 1;
      }
      CutAt(list, p, outIndex, outIndex);
      outList[outIndex] := p;
      outCount := outCount + 1;
      StoreDirtyPacket(p);
      assert outList[..outCount] == list + [p];
      PassedEnds(list, p, outIndex, outList[..outCount]);
    }

    /** The packet at outIndex covers what p covers: only its source may change. */
    method Retarget(p: Packet, outList: array<Packet>, count: nat, outIndex: nat) returns (outCount: nat)
      requires outIndex < count <= outList.Length == MAX_PACKETS
      requires Passed(outList[..count], p, outIndex)
      requires outList[outIndex].dest == p.dest && outList[outIndex].length == p.length
      modifies outList
      ensures outCount == count && outList[outIndex] == p
      ensures outList[..outCount] == WithPacket(old(outList[..count]), p)
      ensures p in old(outList[..count]) <==> old(outList[outIndex]).source == p.source
      ensures forall j :: 0 <= j <= outIndex ==> outList[j].End() <= p.End()
    {
      hide WithPacket, Passed, Ordered;
      ghost var list := outList[..count];
      assert list[outIndex] == outList[outIndex];
      CutSame(list, p, outIndex);
      if outList[outIndex].source != p.source {
        outList[outIndex] := outList[outIndex].(source := p.source);
      }
      outCount := count;
      PassedEnds(list, p, outIndex, outList[..outCount]);
    }

    /** The packet at outIndex overlaps p: p takes its place, and that of the overlapped ones after it. */
    method ReplaceOverlapped(p: Packet, outList: array<Packet>, count: nat, outIndex: nat) returns (outCount: nat)
      requires outIndex < count <= outList.Length == MAX_PACKETS
      requires Passed(outList[..count], p, outIndex)
      requires p.Overlaps(outList[outIndex])
      requires outList[outIndex].dest != p.dest || outList[outIndex].length != p.length
      modifies outList
      ensures outIndex < outCount <= MAX_PACKETS && outList[outIndex] == p
      ensures outList[..outCount] == WithPacket(old(outList[..count]), p)
      ensures p !in old(outList[..count])
      ensures forall j :: 0 <= j <= outIndex ==> outList[j].End() <= p.End()
    {
      hide WithPacket, Passed, Ordered;
      ghost var list := outList[..count];
      assert list[outIndex] == outList[outIndex];
      ghost var m;
      outCount, m := RemoveOverlapped(p, outList, count, outIndex);
      CutOverlap(list, p, outIndex, m);
      outList[outIndex] := p;
      assert outList[..outCount] == list[..outIndex] + [p] + list[m..];
      PassedEnds(list, p, outIndex, outList[..outCount]);
    }

    /** Removes the packets after outIndex that p overlaps; m is the first that stays. */
    method RemoveOverlapped(p: Packet, outList: array<Packet>, count: nat, outIndex: nat)
      returns (outCount: nat, ghost m: nat)
      requires outIndex < count <= outList.Length
      modifies outList
      ensures outIndex < m <= count && outCount == count - (m - outIndex - 1)
      ensures outList[..outCount] == old(outList[..outIndex + 1]) + old(outList[m..count])
      ensures forall j :: outIndex < j < m ==> p.Overlaps(old(outList[..count])[j])
      ensures m < count ==> !p.Overlaps(old(outList[..count])[m])
    {
      var deleteIndex := outIndex + 1;
      var deleteCount := CountOverlapped(p, outList, count, deleteIndex);
      m := deleteIndex + deleteCount;
      outCount := count;
      if deleteCount >= 1 {
        RemoveFromPacketList(outList, outCount, deleteIndex, deleteCount);
        outCount := outCount - deleteCount;
      } else {
        assert outList[..count] == outList[..deleteIndex] + outList[deleteIndex..count];
      }
    }

    /** The packet at outIndex begins after p ends: p goes in before it. */
    method InsertBefore(p: Packet, outList: array<Packet>, count: nat, outIndex: nat) returns (outCount: nat)
      requires outIndex < count <= outList.Length == MAX_PACKETS
      requires Passed(outList[..count], p, outIndex)
      requires p.End() <= outList[outIndex].dest && |WithPacket(outList[..count], p)| <= MAX_PACKETS
      modifies outList
      ensures outIndex < outCount <= MAX_PACKETS && outList[outIndex] == p
      ensures outList[..outCount] == WithPacket(old(outList[..count]), p)
      ensures p !in old(outList[..count])
      ensures forall j :: 0 <= j <= outIndex ==> outList[j].End() <= p.End()
    {
      hide WithPacket;
      ghost var list := outList[..count];
      assert list[outIndex] == outList[outIndex];
      CutAt(list, p, outIndex, outIndex);
      InsertIntoPacketList(outList, count, outIndex);
      outCount := count + 1;
      assert outList[..outCount] == list[..outIndex + 1] + list[outIndex..];
      outList[outIndex] := p;
      PassedEnds(list, p, outIndex, outList[..outCount]);
    }

    /** How many packets from index on p overlaps, counting up to the first it does not. */
    method CountOverlapped(p: Packet, outList: array<Packet>, outCount: nat, index: nat) returns (n: nat)
      requires index <= outCount <= outList.Length
      ensures index + n <= outCount
      ensures forall j :: index <= j < index + n ==> p.Overlaps(outList[j])
      ensures index + n < outCount ==> !p.Overlaps(outList[index + n])
    {
      n := 0;
      while index + n < outCount
        invariant index + n <= outCount
        invariant forall j :: index <= j < index + n ==> p.Overlaps(outList[j])
      {
        if !p.Overlaps(outList[index + n]) {
          return;
        }
        n := n + 1;
      }
    }

    /** Merges the incoming list into the registered list of the current bank. */
    method RegisterDmaPackets()
      requires Valid()
      requires Ordered(Listed(incoming[..])) && Ordered(Base()) && HasRoom(Base(), Listed(incoming[..]))
      modifies OutList(), this`dirtyPacketIndex, dirty
      ensures Valid() && incoming[..] == old(incoming[..])
      ensures Listed(OutList()[..]) == Registered(old(Base()), Listed(incoming[..]))
      ensures dirty[..dirtyPacketIndex] ==
        AllToDraw(Dirty(old(Base()), Listed(incoming[..])), dmaBaseAddress, vramBank)
      ensures dirtyPacketIndex < MAX_PACKETS ==> dirty[dirtyPacketIndex].byteCount == 0
      // Each video bank has its own list.
      ensures vramBank == 0 ==> registered1[..] == old(registered1[..])
      ensures vramBank == 0 ==>
        MergedInto(registered0[..], old(registered0[..]), incoming[..], dmaBaseAddress, dirty[..dirtyPacketIndex], 0)
      ensures vramBank == 1 ==> registered0[..] == old(registered0[..])
      ensures vramBank == 1 ==>
        MergedInto(registered1[..], old(registered1[..]), incoming[..], dmaBaseAddress, dirty[..dirtyPacketIndex], 0x180)
    {
      hide Ordered, WithPacket, SaneOrNone, AllToDraw, Fits, HasRoom, Registered, Dirty;
      ghost var was0, was1 := registered0[..], registered1[..];
      var outList := OutList();
      ghost var base, ins := Base(), Listed(incoming[..]);
      RoomIff(base, ins);
      SanityCheckOutList(outList);
      var inCount := GetPacketListCount(incoming);
      var outCount := GetPacketListCount(outList);
      dirtyPacketIndex := 0;
      outCount := MergeIncoming(outList, inCount, outCount);
      RegisteredIsMerge(base, ins);
      EndList(outList, outCount);
      if dirtyPacketIndex < MAX_PACKETS {
        dirty[dirtyPacketIndex] := dirty[dirtyPacketIndex].(byteCount := 0);
      }
      DrawnIn(Dirty(base, ins), dmaBaseAddress, vramBank, dirty[..dirtyPacketIndex]);
    }

    /** The loop over the incoming packets. */
    method MergeIncoming(outList: array<Packet>, inCount: nat, count: nat) returns (outCount: nat)
      requires Valid() && outList == OutList() && count <= MAX_PACKETS && dirtyPacketIndex == 0
      requires inCount <= MAX_PACKETS && Ordered(incoming[..inCount]) && Ordered(outList[..count])
      requires Fits(outList[..count], incoming[..inCount])
      modifies outList, this`dirtyPacketIndex, dirty
      ensures Valid() && incoming[..] == old(incoming[..]) && outCount <= MAX_PACKETS
      ensures outList[..outCount] == Registered(old(outList[..count]), incoming[..inCount])
      ensures dirty[..dirtyPacketIndex] ==
        AllToDraw(Dirty(old(outList[..count]), incoming[..inCount]), dmaBaseAddress, vramBank)
    {
      hide Ordered, WithPacket, Fits, Registered, Dirty, Settled, Passed, ToDraw;
      ghost var base, ins := outList[..count], incoming[..inCount];
      var outMin: nat := 0;
      outCount := count;
      NothingIncoming(base, ins);
      for inIndex := 0 to inCount
        invariant Valid() && incoming[..] == old(incoming[..]) && outCount <= MAX_PACKETS && outMin <= outCount
        invariant outList[..outCount] == Registered(base, ins[..inIndex])
        invariant Settled(outList[..outMin], ins, inIndex)
        invariant dirtyPacketIndex == |Dirty(base, ins[..inIndex])| <= inIndex
        invariant dirty[..dirtyPacketIndex] == AllToDraw(Dirty(base, ins[..inIndex]), dmaBaseAddress, vramBank)
      {
        var p := incoming[inIndex];
        ghost var list := outList[..outCount];
        assert ins[inIndex] == p && list[..outMin] == outList[..outMin];
        NextIncoming(base, ins, inIndex);
        SettledPassed(list, ins, inIndex, outMin);
        outCount, outMin := RegisterPacket(p, outList, outCount, outMin);
        SettledNext(outList[..outMin], ins, inIndex);
      }
      assert ins[..inCount] == ins;
    }

    /** Marks the end of a list that does not fill its array. */
    method EndList(list: array<Packet>, count: nat)
      requires count <= list.Length && forall p :: p in list[..count] ==> p.dest != 0
      modifies list
      ensures Listed(list[..]) == old(list[..count])
    {
      if count < list.Length {
        list[count] := list[count].(dest := 0);
      }
      ListedIs(list[..], list[..count]);
    }
  }

  // ------------------------------------------------------------------ proofs

  lemma DrawnIn(added: seq<Packet>, base: nat, bank: nat, drawn: seq<DirtyPacket>)
    requires bank <= 1 && drawn == AllToDraw(added, base, bank)
    ensures DrawnAt(drawn, added, base, if bank == 0 then 0 else 0x180)
  {
  }

  /** Two packets overlap exactly if they share a byte. */
  lemma OverlapsIff(p: Packet, q: Packet)
    requires p.length > 0 && q.length > 0
    ensures p.Overlaps(q) <==> exists x: int :: Covers(p, x) && Covers(q, x)
  {
    if p.Overlaps(q) {
      var x: int := if p.dest <= q.dest then q.dest else p.dest;
      assert Covers(p, x) && Covers(q, x);
    }
  }

  predicate Covers(p: Packet, x: int) {
    p.dest <= x < p.dest + p.length
  }

  lemma BesideOrOverlapping(p: Packet, q: Packet)
    ensures p.Overlaps(q) || p.dest >= q.End() || p.End() <= q.dest
  {
  }

  /** The check keeps exactly the ordered lists that lie at or above the DMA base. */
  lemma SaneIff(list: seq<Packet>, base: nat)
    requires forall p :: p in list ==> p.length > 0
    ensures Sane(list, base) <==> Ordered(list) && forall p :: p in list ==> p.dest >= base
  {
    if Sane(list, base) {
      forall j | 0 <= j < |list| ensures list[j].dest >= base && forall i :: 0 <= i < j ==> list[i].End() <= list[j].dest {
        SaneUpTo(list, base, j);
      }
    }
  }

  lemma {:induction false} SaneUpTo(list: seq<Packet>, base: nat, j: nat)
    requires Sane(list, base) && j < |list|
    ensures list[j].dest >= base && forall i :: 0 <= i < j ==> list[i].End() <= list[j].dest
  {
    if j > 0 {
      SaneUpTo(list, base, j - 1);
      assert list[j - 1].End() <= list[j].dest;
    }
  }

  /** The search for p's place in an ordered list has passed the first k packets. */
  ghost predicate Passed(list: seq<Packet>, p: Packet, k: nat) {
    && Ordered(list) && p.length > 0 && k <= |list|
    && forall j :: 0 <= j < k ==> list[j].End() <= p.dest
  }

  /** Where an ordered list is cut for a packet; the packet is in the list only at the cut. */
  lemma CutAt(list: seq<Packet>, p: Packet, k: nat, m: nat)
    requires Passed(list, p, k) && k <= m <= |list|
    requires k < |list| ==> list[k].End() > p.dest
    requires forall j :: k <= j < m ==> list[j].dest < p.End()
    requires m < |list| ==> list[m].dest >= p.End()
    ensures WithPacket(list, p) == list[..k] + [p] + list[m..]
    ensures p in list <==> k < |list| && list[k] == p
  {
    assert FirstEndingAfter(list, p.dest) == k;
    assert FirstStartingFrom(list, p.End()) == m;
  }

  lemma CutOverlap(list: seq<Packet>, p: Packet, k: nat, m: nat)
    requires Passed(list, p, k) && k < m <= |list|
    requires forall j :: k <= j < m ==> p.Overlaps(list[j])
    requires m < |list| ==> !p.Overlaps(list[m])
    requires list[k].dest != p.dest || list[k].length != p.length
    ensures WithPacket(list, p) == list[..k] + [p] + list[m..]
    ensures p !in list
  {
    CutAt(list, p, k, m);
  }

  lemma CutSame(list: seq<Packet>, p: Packet, k: nat)
    requires Passed(list, p, k) && k < |list| && list[k].dest == p.dest && list[k].length == p.length
    ensures WithPacket(list, p) == list[..k] + [p] + list[k + 1..]
    ensures p in list <==> list[k].source == p.source
  {
    CutAt(list, p, k, k + 1);
  }

  lemma PassOne(list: seq<Packet>, p: Packet, k: nat)
    requires Passed(list, p, k) && k < |list|
    ensures p.length > 0
    ensures list[k].End() <= p.dest ==> Passed(list, p, k + 1)
  {
  }

  lemma PassedEnds(list: seq<Packet>, p: Packet, k: nat, now: seq<Packet>)
    requires Passed(list, p, k) && k < |now| && now[..k] == list[..k] && now[k] == p
    ensures forall j :: 0 <= j <= k ==> now[j].End() <= p.End()
  {
    assert forall j :: 0 <= j < k ==> now[j] == now[..k][j] == list[..k][j] == list[j];
  }

  /** No packet of a prefix reaches past the start of incoming packet i. */
  ghost predicate Settled(front: seq<Packet>, incoming: seq<Packet>, i: nat) {
    i < |incoming| ==> forall j :: 0 <= j < |front| ==> front[j].End() <= incoming[i].dest
  }

  lemma SettledPassed(list: seq<Packet>, incoming: seq<Packet>, i: nat, min: nat)
    requires Ordered(list) && Ordered(incoming) && i < |incoming| && min <= |list|
    requires Settled(list[..min], incoming, i)
    ensures Passed(list, incoming[i], min)
  {
    assert forall j :: 0 <= j < min ==> list[..min][j] == list[j];
  }

  lemma SettledNext(front: seq<Packet>, incoming: seq<Packet>, i: nat)
    requires Ordered(incoming) && i < |incoming|
    requires forall j :: 0 <= j < |front| ==> front[j].End() <= incoming[i].End()
    ensures Settled(front, incoming, i + 1)
  {
  }

  lemma {:induction false} ListedIs(a: seq<Packet>, list: seq<Packet>)
    requires |list| <= |a| && a[..|list|] == list
    requires forall p :: p in list ==> p.dest != 0
    requires |list| < |a| ==> a[|list|].dest == 0
    ensures Listed(a) == list
  {
    if |list| > 0 {
      assert a[0] == list[0] && list[0] in list;
      assert a[1..][..|list| - 1] == list[1..];
      ListedIs(a[1..], list[1..]);
    }
  }

  lemma NothingIncoming(list: seq<Packet>, incoming: seq<Packet>)
    ensures Registered(list, incoming[..0]) == list && Dirty(list, incoming[..0]) == []
    ensures Settled([], incoming, 0)
  {
  }

  /** What one more incoming packet finds: room, an ordered list, and itself in it exactly when
      it was registered before the frame. */
  lemma NextIncoming(list: seq<Packet>, incoming: seq<Packet>, i: nat)
    requires Ordered(list) && Ordered(incoming) && i < |incoming| && Fits(list, incoming)
    ensures Ordered(Registered(list, incoming[..i])) && incoming[i].length > 0
    ensures |WithPacket(Registered(list, incoming[..i]), incoming[i])| <= MAX_PACKETS
    ensures Registered(list, incoming[..i + 1]) == WithPacket(Registered(list, incoming[..i]), incoming[i])
    ensures incoming[i] in Registered(list, incoming[..i]) <==> incoming[i] in list
    ensures Dirty(list, incoming[..i + 1]) ==
      Dirty(list, incoming[..i]) + if incoming[i] in list then [] else [incoming[i]]
  {
    hide WithPacket;
    assert incoming[..i + 1][..i] == incoming[..i] && incoming[..i + 1][i] == incoming[i];
    RegisteredIsMerge(list, incoming[..i]);
    assert |Registered(list, incoming[..i + 1])| <= MAX_PACKETS;
    forall q | q in incoming[..i] ensures q != incoming[i] && !q.Overlaps(incoming[i]) {
    }
  }

  // ------------------------------------------------------------------ what registering means

  lemma CutsInOrder(list: seq<Packet>, p: Packet)
    requires Ordered(list) && p.length > 0
    ensures FirstEndingAfter(list, p.dest) <= FirstStartingFrom(list, p.End())
  {
    hide FirstEndingAfter, FirstStartingFrom;
  }

  lemma WithPacketIsMerge(list: seq<Packet>, p: Packet)
    requires Ordered(list) && p.length > 0
    ensures Ordered(WithPacket(list, p))
    ensures forall q :: q in WithPacket(list, p) <==> q == p || (q in list && !p.Overlaps(q))
  {
    var k, m := FirstEndingAfter(list, p.dest), FirstStartingFrom(list, p.End());
    CutsInOrder(list, p);
    CutKeepsOrder(list, p, k, m);
    forall q ensures q in WithPacket(list, p) <==> q == p || (q in list && !p.Overlaps(q)) {
      if q in list && !p.Overlaps(q) {
        OutsideStays(list, p, k, m, q);
      }
      if q in list[..k] || q in list[m..] {
        SidesDoNotOverlap(list, p, k, m, q);
      }
    }
  }

  lemma CutKeepsOrder(list: seq<Packet>, p: Packet, k: nat, m: nat)
    requires Ordered(list) && p.length > 0 && k <= m
    requires k == FirstEndingAfter(list, p.dest) && m == FirstStartingFrom(list, p.End())
    ensures Ordered(list[..k] + [p] + list[m..])
  {
    hide FirstEndingAfter, FirstStartingFrom;
  }

  lemma OutsideStays(list: seq<Packet>, p: Packet, k: nat, m: nat, q: Packet)
    requires Ordered(list) && p.length > 0 && k <= m
    requires k == FirstEndingAfter(list, p.dest) && m == FirstStartingFrom(list, p.End())
    requires q in list && !p.Overlaps(q)
    ensures q in list[..k] || q in list[m..]
  {
    hide FirstEndingAfter, FirstStartingFrom, Ordered, Packet.Overlaps;
    var j :| 0 <= j < |list| && list[j] == q;
    MiddleOverlaps(list, p, k, m, j);
    if j < k {
      assert list[..k][j] == q;
    } else {
      assert list[m..][j - m] == q;
    }
  }

  lemma MiddleOverlaps(list: seq<Packet>, p: Packet, k: nat, m: nat, j: nat)
    requires Ordered(list) && p.length > 0 && j < |list|
    requires k == FirstEndingAfter(list, p.dest) && m == FirstStartingFrom(list, p.End())
    ensures k <= j < m ==> p.Overlaps(list[j])
  {
    hide FirstEndingAfter, FirstStartingFrom;
    if k <= j < m {
      assert list[k].End() > p.dest && (j == k || list[k].End() <= list[j].dest);
    }
  }

  lemma SidesDoNotOverlap(list: seq<Packet>, p: Packet, k: nat, m: nat, q: Packet)
    requires Ordered(list) && p.length > 0
    requires k == FirstEndingAfter(list, p.dest) && m == FirstStartingFrom(list, p.End())
    requires q in list[..k] || q in list[m..]
    ensures q in list && !p.Overlaps(q)
  {
    hide FirstEndingAfter, FirstStartingFrom, Ordered;
    if q in list[..k] {
      var j :| 0 <= j < k && list[..k][j] == q;
      assert list[j] == q;
    } else {
      var j :| 0 <= j < |list| - m && list[m..][j] == q;
      assert list[m + j] == q;
      StartsFrom(list, m, m + j);
    }
  }

  lemma StartsFrom(list: seq<Packet>, m: nat, j: nat)
    requires Ordered(list) && m <= j < |list|
    ensures list[m].dest <= list[j].dest
  {
  }

  /** The registered list afterwards: ordered, and made of the incoming packets and exactly
      those earlier ones that no incoming packet overlaps. */
  lemma {:induction false} RegisteredIsMerge(list: seq<Packet>, incoming: seq<Packet>)
    requires Ordered(list) && Ordered(incoming)
    ensures Ordered(Registered(list, incoming))
    ensures forall q :: q in Registered(list, incoming) <==>
      q in incoming || (q in list && forall p :: p in incoming ==> !p.Overlaps(q))
  {
    if |incoming| > 0 {
      var n := |incoming| - 1;
      var front, p := incoming[..n], incoming[n];
      RegisteredIsMerge(list, front);
      WithPacketIsMerge(Registered(list, front), p);
      assert incoming == front + [p];
      forall q | q in front ensures !p.Overlaps(q) {
        var j :| 0 <= j < n && front[j] == q;
        assert incoming[j] == q;
      }
    }
  }

  /** An ordered list is determined by its packets. */
  lemma {:induction false} OrderedIsUnique(a: seq<Packet>, b: seq<Packet>)
    requires Ordered(a) && Ordered(b) && forall q :: q in a <==> q in b
    ensures a == b
  {
    assert (|a| > 0 ==> a[0] in b) && (|b| > 0 ==> b[0] in a);
    if |a| > 0 {
      SameFirst(a, b);
      forall q ensures q in a[1..] <==> q in b[1..] {
        InTail(a, q);
        InTail(b, q);
      }
      OrderedIsUnique(a[1..], b[1..]);
    }
  }

  lemma SameFirst(a: seq<Packet>, b: seq<Packet>)
    requires Ordered(a) && Ordered(b) && |a| > 0 && |b| > 0 && a[0] in b && b[0] in a
    ensures a[0] == b[0]
  {
    var i :| 0 <= i < |b| && b[i] == a[0];
    var j :| 0 <= j < |a| && a[j] == b[0];
    assert i == 0 || b[0].End() <= b[i].dest;
    assert j == 0 || a[0].End() <= a[j].dest;
    assert b[0].length > 0 && a[0].length > 0;
  }

  lemma InTail(a: seq<Packet>, q: Packet)
    requires Ordered(a) && |a| > 0
    ensures q in a[1..] <==> q in a && q != a[0]
  {
    if q in a[1..] {
      var j :| 0 <= j < |a| - 1 && a[1..][j] == q;
      assert a[j + 1] == q && a[0].length > 0;
    }
  }

  /** The packets to draw again are the incoming ones that were not registered already. */
  lemma {:induction false} DirtyIsNew(list: seq<Packet>, incoming: seq<Packet>)
    ensures forall q :: q in Dirty(list, incoming) <==> q in incoming && q !in list
  {
    if |incoming| > 0 {
      var n := |incoming| - 1;
      DirtyIsNew(list, incoming[..n]);
      assert incoming == incoming[..n] + [incoming[n]];
    }
  }

  /** And they are in order, so that determines them. */
  lemma {:induction false} DirtyIsOrdered(list: seq<Packet>, incoming: seq<Packet>)
    requires Ordered(incoming)
    ensures Ordered(Dirty(list, incoming))
  {
    if |incoming| > 0 {
      var n := |incoming| - 1;
      var front, p := incoming[..n], incoming[n];
      LastIsNew(incoming, p);
      DirtyIsOrdered(list, front);
      DirtyIsNew(list, front);
      hide Ordered;
      if p !in list {
        AppendOrdered(Dirty(list, front), p);
      }
    }
  }

  /** A frame that repeats its packets changes nothing and has nothing to draw again. */
  lemma RepeatedFrameIsClean(list: seq<Packet>, incoming: seq<Packet>)
    requires Ordered(list) && Ordered(incoming)
    ensures var once := Registered(list, incoming);
      Registered(once, incoming) == once && Dirty(once, incoming) == []
  {
    var once := Registered(list, incoming);
    RegisteredIsMerge(list, incoming);
    RegisteredIsMerge(once, incoming);
    forall q ensures q in Registered(once, incoming) <==> q in once {
      if q in once && q !in incoming {
        assert forall p :: p in incoming ==> !p.Overlaps(q);
      }
    }
    OrderedIsUnique(Registered(once, incoming), once);
    KnownIsClean(once, incoming);
  }

  lemma {:induction false} KnownIsClean(list: seq<Packet>, incoming: seq<Packet>)
    requires forall q :: q in incoming ==> q in list
    ensures Dirty(list, incoming) == []
  {
    if |incoming| > 0 {
      assert incoming[|incoming| - 1] in incoming;
      KnownIsClean(list, incoming[..|incoming| - 1]);
    }
  }

  // ------------------------------------------------------------------ how much room it needs

  lemma PacketsDiffer(list: seq<Packet>)
    requires Ordered(list)
    ensures |Elements(list)| == |list|
  {
    DistinctSize(list);
  }

  lemma LastIsNew(list: seq<Packet>, last: Packet)
    requires Ordered(list) && |list| > 0 && last == list[|list| - 1]
    ensures Ordered(list[..|list| - 1]) && last.length > 0
    ensures forall q :: q in list[..|list| - 1] ==> q.End() <= last.dest && q != last
  {
  }

  lemma {:induction false} KeptIs(list: seq<Packet>, incoming: seq<Packet>)
    requires Ordered(list)
    ensures Ordered(Kept(list, incoming))
    ensures forall q :: q in Kept(list, incoming) <==> q in list && Untouched(q, incoming)
  {
    hide Untouched, Ordered;
    if |list| == 0 {
      OrderedNone(Kept(list, incoming));
    } else {
      var n := |list| - 1;
      var front, last := list[..n], list[n];
      LastIsNew(list, last);
      KeptIs(front, incoming);
      assert list == front + [last];
      AppendOrdered(Kept(front, incoming), last);
    }
  }

  lemma OrderedNone(list: seq<Packet>)
    requires |list| == 0
    ensures Ordered(list)
  {
  }

  lemma AppendOrdered(list: seq<Packet>, last: Packet)
    requires Ordered(list) && last.length > 0 && forall q :: q in list ==> q.End() <= last.dest
    ensures Ordered(list + [last])
  {
    hide Packet.End;
  }

  /** The size of a merge of two lists that share nothing. */
  lemma MergeSize(all: seq<Packet>, a: seq<Packet>, b: seq<Packet>)
    requires Ordered(all) && Ordered(a) && Ordered(b)
    requires forall q :: q in all <==> q in a || q in b
    requires forall q :: q in a ==> q !in b
    ensures |all| == |a| + |b|
  {
    PacketsDiffer(all);
    PacketsDiffer(a);
    PacketsDiffer(b);
    assert Elements(all) == Elements(a) + Elements(b);
  }

  /** The size of the registered list afterwards. */
  lemma RegisteredSize(list: seq<Packet>, incoming: seq<Packet>)
    requires Ordered(list) && Ordered(incoming)
    ensures |Registered(list, incoming)| == |incoming| + |Kept(list, incoming)|
  {
    hide Registered, Kept;
    RegisteredIsMerge(list, incoming);
    KeptIs(list, incoming);
    forall q | q in incoming ensures q !in Kept(list, incoming) {
      assert q.Overlaps(q);
    }
    MergeSize(Registered(list, incoming), incoming, Kept(list, incoming));
  }

  /** The list stays inside its array exactly if there is room after each incoming packet. */
  lemma RoomIff(list: seq<Packet>, incoming: seq<Packet>)
    requires Ordered(list) && Ordered(incoming)
    ensures HasRoom(list, incoming) <==> Fits(list, incoming)
  {
    hide Registered, Kept;
    forall i | 0 <= i <= |incoming| ensures |Registered(list, incoming[..i])| == i + |Kept(list, incoming[..i])| {
      RegisteredSize(list, incoming[..i]);
    }
  }

  /** A packet needs entry number 24 exactly if the list is full and the packet overlaps nothing in it. */
  lemma OverflowIff(list: seq<Packet>, p: Packet)
    requires Ordered(list) && p.length > 0 && |list| <= MAX_PACKETS
    ensures |WithPacket(list, p)| > MAX_PACKETS <==> |list| == MAX_PACKETS && forall q :: q in list ==> !p.Overlaps(q)
  {
    hide WithPacket, Kept;
    RegisteredOne(list, p);
    RegisteredSize(list, [p]);
    KeptIs(list, [p]);
    if forall q :: q in list ==> !p.Overlaps(q) {
      OrderedIsUnique(Kept(list, [p]), list);
    } else {
      var q :| q in list && p.Overlaps(q);
      assert q !in Kept(list, [p]);
      FewerKept(list, Kept(list, [p]), q);
    }
  }

  lemma FewerKept(list: seq<Packet>, kept: seq<Packet>, q: Packet)
    requires Ordered(list) && Ordered(kept) && q in list && q !in kept && forall r :: r in kept ==> r in list
    ensures |kept| < |list|
  {
    PacketsDiffer(list);
    PacketsDiffer(kept);
    SubsetSize(Elements(kept), Elements(list) - {q});
  }

  /** Twenty-four packets in all are always safe. */
  lemma FewPacketsFit(list: seq<Packet>, incoming: seq<Packet>)
    requires |list| + |incoming| <= MAX_PACKETS
    ensures HasRoom(list, incoming)
  {
    hide Kept;
    forall i | 0 <= i <= |incoming| ensures i + |Kept(list, incoming[..i])| <= MAX_PACKETS {
    }
  }

  /** Packets of 32 bytes, k of them from `dest` on. */
  ghost function Row(dest: nat, k: nat): (r: seq<Packet>)
    requires dest + 32 * k < 0x1_0000 - 32
    ensures |r| == k && Ordered(r)
    ensures forall i :: 0 <= i < k ==> r[i] == Packet(dest + 32 * i, 32, 0)
  {
    seq(k, i requires 0 <= i < k => Packet(dest + 32 * i, 32, 0))
  }

  /** It is not enough that the merged list has room. One frame registers twenty-four packets above
      the DMA base, whichever of the three it is; the next brings two that make twenty-three, but the
      list has twenty-five entries on the way. */
  lemma FinalCountIsNotEnough()
    ensures var row := Row(0xC500, 24);
      Ordered(row) && HasRoom([], row) && Registered([], row) == row
      && Sane(row, 0xC3C0) && Sane(row, 0xC460) && Sane(row, 0xC4C0)
    ensures var row, incoming := Row(0xC500, 24), [Packet(0xC4C0, 32, 0), Packet(0xC500, 96, 1)];
      Ordered(incoming) && |Registered(row, incoming)| == 23 && !HasRoom(row, incoming)
  {
    var row := Row(0xC500, 24);
    hide Row, WithPacket, Registered, Sane, HasRoom, Ordered;
    FewPacketsFit([], row);
    RowIsSane(row);
    FirstFrame(row);
    SecondFrame(row, Packet(0xC4C0, 32, 0), Packet(0xC500, 96, 1));
  }

  lemma SecondFrame(row: seq<Packet>, first: Packet, second: Packet)
    requires row == Row(0xC500, 24) && first == Packet(0xC4C0, 32, 0) && second == Packet(0xC500, 96, 1)
    ensures Ordered([first, second]) && |Registered(row, [first, second])| == 23 && !HasRoom(row, [first, second])
  {
    TwoInOrder(first, second);
    OnTheWay(row, first, second);
    TwoOnTheWay(row, first, second);
  }

  lemma TwoInOrder(first: Packet, second: Packet)
    requires first.length > 0 && second.length > 0 && first.End() <= second.dest
    ensures Ordered([first, second])
  {
  }

  /** The second of two packets cannot make up for the entry that the first one needs. */
  lemma TwoOnTheWay(list: seq<Packet>, first: Packet, second: Packet)
    requires Ordered(list) && Ordered([first, second]) && |WithPacket(list, first)| > MAX_PACKETS
    ensures !HasRoom(list, [first, second])
    ensures Registered(list, [first, second]) == WithPacket(WithPacket(list, first), second)
  {
    hide WithPacket, Registered, HasRoom, Ordered, Fits;
    var incoming := [first, second];
    RegisteredOne(list, first);
    RegisteredTwo(list, first, second);
    RoomIff(list, incoming);
    assert incoming[..1] == [first];
    OnceTooLong(list, incoming, 1);
  }

  lemma OnceTooLong(list: seq<Packet>, incoming: seq<Packet>, i: nat)
    requires i <= |incoming| && |Registered(list, incoming[..i])| > MAX_PACKETS
    ensures !Fits(list, incoming)
  {
  }

  lemma RowIsSane(row: seq<Packet>)
    requires row == Row(0xC500, 24)
    ensures Sane(row, 0xC3C0) && Sane(row, 0xC460) && Sane(row, 0xC4C0)
  {
  }

  lemma FirstFrame(row: seq<Packet>)
    requires Ordered(row)
    ensures Registered([], row) == row
  {
    hide Registered;
    RegisteredIsMerge([], row);
    OrderedIsUnique(Registered([], row), row);
  }

  lemma RegisteredOne(list: seq<Packet>, p: Packet)
    ensures Registered(list, [p]) == WithPacket(list, p)
  {
    assert [p][..0] == [];
  }

  lemma RegisteredTwo(list: seq<Packet>, p: Packet, q: Packet)
    ensures Registered(list, [p, q]) == WithPacket(WithPacket(list, p), q)
  {
    assert [p, q][..1] == [p];
    RegisteredOne(list, p);
  }

  lemma FirstOf(list: seq<Packet>, first: Packet)
    requires list == Row(0xC500, 24) && first == Packet(0xC4C0, 32, 0)
    ensures Ordered(list) && first.length > 0
    ensures WithPacket(list, first) == [first] + list
  {
    CutAt(list, first, 0, 0);
  }

  lemma OnTheWay(list: seq<Packet>, first: Packet, second: Packet)
    requires list == Row(0xC500, 24) && first == Packet(0xC4C0, 32, 0) && second == Packet(0xC500, 96, 1)
    ensures |WithPacket(list, first)| == 25
    ensures |WithPacket(WithPacket(list, first), second)| == 23
  {
    hide WithPacket, Row, Ordered;
    FirstOf(list, first);
    var mid := [first] + list;
    WithPacketIsMerge(list, first);
    assert mid[1] == list[0] && mid[2] == list[1] && mid[3] == list[2] && mid[4] == list[3];
    CutAt(mid, second, 1, 4);
  }
}
