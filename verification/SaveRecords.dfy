/**
 The list of saves in battery memory: a four-byte id, then records that begin with their own size
 and their type, then a size of zero. It is edited in place in a copy, which is written back.
 */
module SaveRecords {
  import opened Collections

  type Byte = b: int | 0 <= b < 256

  const ID_BYTES := 4
  const MIN_RECORD := 16
  const END_BYTES := 8

  // ------------------------------------------------------------------ meaning

  function Half(s: seq<Byte>, at: nat): (h: nat)
    requires at + 2 <= |s|
  {
    (s[at] as int) + 256 * (s[at + 1] as int)
  }

  function Word(s: seq<Byte>, at: nat): nat
    requires at + 4 <= |s|
  {
    Half(s, at) + 65536 * Half(s, at + 2)
  }

  /** What follows the last record. */
  function Terminator(): (t: seq<Byte>)
    ensures |t| == END_BYTES && Half(t, 0) == 0
  {
    [0, 0, 0, 0, 255, 255, 255, 255]
  }

  /** A record: its first field is its length, in whole words, with room for a checksum. */
  predicate IsRecord(r: seq<Byte>) {
    |r| >= MIN_RECORD && |r| % 4 == 0 && Half(r, 0) == |r|
  }

  function TypeOf(r: seq<Byte>): nat
    requires |r| >= 4
  {
    Half(r, 2)
  }

  function ChecksumOf(r: seq<Byte>): nat
    requires |r| >= MIN_RECORD
  {
    Word(r, 12)
  }

  predicate AllRecords(rs: seq<seq<Byte>>) {
    forall i :: 0 <= i < |rs| ==> IsRecord(rs[i])
  }

  /** Records follow one another from `at` on, up to a size of zero. */
  predicate Terminated(image: seq<Byte>, at: nat)
    decreases |image| - at
  {
    at + 2 <= |image| && (Half(image, at) == 0 ||
      (at + Half(image, at) <= |image| && Half(image, at) >= MIN_RECORD && Half(image, at) % 4 == 0
        && Terminated(image, at + Half(image, at))))
  }

  function Parse(image: seq<Byte>, at: nat): (rs: seq<seq<Byte>>)
    requires Terminated(image, at)
    decreases |image| - at
  {
    var size := Half(image, at);
    if size == 0 then [] else [image[at..at + size]] + Parse(image, at + size)
  }

  /** The place of the n-th record of a type; the number of records if there is none. */
  function Nth(rs: seq<seq<Byte>>, kind: int, n: int): (k: nat)
    requires AllRecords(rs)
    ensures k <= |rs|
  {
    if |rs| == 0 then 0
    else if TypeOf(rs[0]) != kind then 1 + Nth(rs[1..], kind, n)
    else if n == 0 then 0
    else 1 + Nth(rs[1..], kind, n - 1)
  }

  /** How many records have a type. */
  function Count(rs: seq<seq<Byte>>, kind: int): nat
    requires AllRecords(rs)
  {
    if |rs| == 0 then 0 else (if TypeOf(rs[0]) == kind then 1 else 0) + Count(rs[1..], kind)
  }

  /** A list with the record at k replaced, or one added at the end; nothing new removes it. */
  function Updated(rs: seq<seq<Byte>>, k: nat, new_: seq<Byte>): seq<seq<Byte>>
    requires k <= |rs|
  {
    rs[..k] + (if new_ == [] then [] else [new_]) + if k < |rs| then rs[k + 1..] else []
  }

  /** What an update stores: nothing when erasing, without data, or if the data says size zero. */
  function Stored(erase: bool, data: seq<Byte>): seq<Byte> {
    if erase || |data| < 2 || Half(data, 0) == 0 then [] else data
  }

  predicate Matches(r: seq<Byte>, checksum: nat, kind: int) {
    |r| >= MIN_RECORD && TypeOf(r) == kind && ChecksumOf(r) == checksum
  }

  /** Among the first k records, `state` is the number, within its type, of the last that matches,
      and `place` is where it is; or it is -1 and none does. */
  ghost predicate LastMatch(rs: seq<seq<Byte>>, checksum: nat, kind: int, k: nat, state: int, place: nat)
    requires AllRecords(rs) && k <= |rs|
  {
    if state == -1 then forall j :: 0 <= j < k ==> !Matches(rs[j], checksum, kind)
    else
      && state >= 0 && Nth(rs, kind, state) < k && Matches(rs[Nth(rs, kind, state)], checksum, kind)
      && (forall j :: Nth(rs, kind, state) < j < k ==> !Matches(rs[j], checksum, kind))
      && place == ID_BYTES + |Flatten(rs[..Nth(rs, kind, state)])|
  }

  // ------------------------------------------------------------------ the code

  class SaveMemory {
    const copy: array<Byte>
    const sram: array<Byte>
    const saveStart: nat
    var totalStateSize: nat

    ghost predicate Valid()
      reads this, copy
    {
      && copy != sram && copy.Length == sram.Length == saveStart
      && Terminated(copy[..], ID_BYTES)
    }

    ghost function Records(): (rs: seq<seq<Byte>>)
      requires Valid()
      reads this, copy
      ensures AllRecords(rs)
    {
      ParseFlatten(copy[..], ID_BYTES);
      Parse(copy[..], ID_BYTES)
    }

    constructor (copy: array<Byte>, sram: array<Byte>)
      requires copy != sram && copy.Length == sram.Length && Terminated(copy[..], ID_BYTES)
      ensures Valid() && this.copy == copy && this.sram == sram
    {
      this.copy, this.sram, saveStart, totalStateSize := copy, sram, copy.Length, 0;
    }

    /** Finds a record by its number among those of its type, and adds up all sizes. */
    method FindStateByIndex(index: int, kind: int) returns (found: bool, place: nat)
      requires Valid()
      modifies this`totalStateSize
      ensures found <==> Nth(Records(), kind, index) < |Records()|
      ensures found ==> place == ID_BYTES + |Flatten(Records()[..Nth(Records(), kind, index)])|
      ensures totalStateSize == |Flatten(Records())|
    {
      hide Terminated, Parse, Flatten, Nth, Half, AllRecords;
      ghost var rs, image := Records(), copy[..];
      FlattenNone(rs);
      found, place := false, 0;
      var sh := ID_BYTES;
      HeadIs(image, sh);
      var size := Half(copy[..], sh);
      var i := 0;
      var total := 0;
      ghost var k := 0;
      while size != 0
        invariant k <= |rs| && sh == ID_BYTES + total && total == |Flatten(rs[..k])| && sh <= saveStart
        invariant Terminated(image, sh) && Parse(image, sh) == rs[k..]
        invariant sh + 2 <= |image| && size == Half(image, sh) && (size == 0 <==> k == |rs|)
        invariant AllRecords(rs[k..])
        invariant found ==> Nth(rs, kind, index) < k && place == ID_BYTES + |Flatten(rs[..Nth(rs, kind, index)])|
        invariant !found ==> Nth(rs, kind, index) == k + Nth(rs[k..], kind, index - i)
        invariant found ==> i > index >= 0
        decreases saveStart - sh
      {
        HeadIs(image, sh);
        NthNext(rs, kind, index - i, k);
        FlattenNext(rs, k);
        if Half(copy[..], sh + 2) == kind {
          if index == i {
            found, place := true, sh;
          }
          i := i + 1;
        }
        total := total + size;
        sh := sh + size;
        k := k + 1;
        HeadIs(image, sh);
        size := Half(copy[..], sh);
      }
      totalStateSize := total;
      NthOfNone(kind, index - i);
      assert rs[k..] == [] && rs[..k] == rs;
    }

    /** Finds the last record of a type with a checksum; -1 if there is none. */
    method FindState(checksum: nat, kind: int) returns (state: int, place: nat)
      requires Valid()
      modifies this`totalStateSize
      ensures totalStateSize == 8 + |Flatten(Records())|
      ensures LastMatch(Records(), checksum, kind, |Records()|, state, place)
    {
      hide Terminated, Parse, Flatten, Nth, Half, AllRecords, Count, Matches, Word;
      ghost var rs, image := Records(), copy[..];
      FlattenNone(rs);
      var sh := ID_BYTES;
      HeadIs(image, sh);
      CountOfNone(rs, kind);
      var counter := -1;
      state, place := -1, 0;
      var total := 8;
      var size := Half(copy[..], sh);
      ghost var k := 0;
      while size != 0
        invariant k <= |rs| && sh + 8 == ID_BYTES + total && total == 8 + |Flatten(rs[..k])| && sh <= saveStart
        invariant Terminated(image, sh) && Parse(image, sh) == rs[k..]
        invariant sh + 2 <= |image| && size == Half(image, sh) && (size == 0 <==> k == |rs|)
        invariant AllRecords(rs[..k]) && counter == Count(rs[..k], kind) - 1
        invariant LastMatch(rs, checksum, kind, k, state, place)
        decreases saveStart - sh
      {
        HeadIs(image, sh);
        FlattenNext(rs, k);
        CountNext(rs, kind, k);
        ChecksumAt(image, sh, rs[k]);
        if Half(copy[..], sh + 2) == kind {
          counter := counter + 1;
          if Word(copy[..], sh + 12) == checksum {
            NthOfCount(rs, kind, k);
            state, place := counter, sh;
          }
        }
        MatchesIf(rs[k], checksum, kind);
        total := total + size;
        sh := sh + size;
        k := k + 1;
        HeadIs(image, sh);
        size := Half(copy[..], sh);
      }
      totalStateSize := total;
      assert rs[k..] == [] && rs[..k] == rs;
    }

    /** Replaces, adds or removes a record, unless the result would not fit. */
    method UpdateStates(index: int, erase: bool, data: seq<Byte>, kind: int) returns (ok: bool)
      requires Valid() && (Stored(erase, data) == [] || IsRecord(data))
      modifies this`totalStateSize, copy, sram
      ensures Valid() && copy[..ID_BYTES] == old(copy[..ID_BYTES])
      ensures var updated := Updated(old(Records()), Nth(old(Records()), kind, index), Stored(erase, data));
        && ok == (ID_BYTES + |Flatten(updated)| + END_BYTES <= saveStart)
        && Records() == if ok then updated else old(Records())
      ensures ok && erase ==> Records() == Updated(old(Records()), Nth(old(Records()), kind, index), [])
      ensures ok && !erase && IsRecord(data) ==> Records() == Updated(old(Records()), Nth(old(Records()), kind, index), data)
      ensures ok ==> totalStateSize == ID_BYTES + |Flatten(Records())| && WrittenBack(totalStateSize)
      ensures !ok ==> copy[..] == old(copy[..]) && sram[..] == old(sram[..]) && totalStateSize == |Flatten(Records())|
    {
      hide Terminated, Parse, Flatten, Nth, Half, AllRecords, IsRecord, Updated, EditedAt, Stored;
      ghost var rs, was, stored := Records(), copy[..], Stored(erase, data);
      ParseFlatten(was, ID_BYTES);
      var found, place := FindStateByIndex(index, kind);
      ghost var k := Nth(rs, kind, index);
      var newSize := if erase || |data| < 2 then 0 else Half(data, 0);
      var saveEnd := ID_BYTES + totalStateSize;
      var dest, oldSize := saveEnd, 0;
      RecordAt(was, ID_BYTES, k);
      if found {
        dest := place;
        oldSize := Half(copy[..], dest);
      }
      StoredSize(erase, data);
      StoredIs(erase, data);
      assert rs[..|rs|] == rs;
      UpdatedSize(rs, k, stored);
      var newSaveEnd := saveEnd + newSize - oldSize;
      if newSaveEnd + END_BYTES > saveStart {
        return false;
      }
      var new_ := if newSize > 0 then data else [];
      assert new_ == stored;
      Edit(dest, oldSize, new_, saveEnd);
      UpdatedImage(was, copy[..], ID_BYTES, rs, k, stored, dest, oldSize, saveEnd);
      EditedEnd(was, copy[..], dest, oldSize, saveEnd, stored);
      totalStateSize := newSaveEnd;
      WriteBack(newSaveEnd + END_BYTES);
      ok := true;
    }

    /** Makes room, copies the new record in, and ends the list. */
    method Edit(dest: nat, oldSize: nat, new_: seq<Byte>, saveEnd: nat)
      requires dest + oldSize <= saveEnd <= copy.Length && saveEnd - oldSize + |new_| + END_BYTES <= copy.Length
      modifies copy
      ensures EditedAt(old(copy[..]), copy[..], dest, oldSize, saveEnd, new_)
    {
      hide EditedAt, MovedTo, PutAt, Terminator, Half;
      var copySrc, copyDest, newSaveEnd := dest + oldSize, dest + |new_|, saveEnd + |new_| - oldSize;
      var copyCount := saveEnd - copySrc;
      ghost var was := copy[..];
      Move(copyDest, copySrc, copyCount);
      ghost var moved := copy[..];
      Put(dest, new_);
      ghost var put := copy[..];
      Put(newSaveEnd, Terminator());
      Edited(was, moved, put, copy[..], dest, oldSize, saveEnd, new_, copyDest, copySrc, copyCount, newSaveEnd);
    }

    /** The battery memory holds the list with its terminator, and zeros after it. */
    ghost predicate WrittenBack(total: nat)
      reads copy, sram
    {
      && total + END_BYTES <= copy.Length == sram.Length
      && copy[total..total + END_BYTES] == Terminator()
      && sram[..total + END_BYTES] == copy[..total + END_BYTES]
      && forall i :: total + END_BYTES <= i < sram.Length ==> sram[i] == 0
    }

    /** Moves count bytes; the two ranges may overlap. */
    method Move(dest: nat, src: nat, count: nat)
      requires dest + count <= copy.Length && src + count <= copy.Length
      modifies copy
      ensures MovedTo(old(copy[..]), copy[..], dest, src, count)
    {
      if count > 0 && dest != src {
        forall i | 0 <= i < count {
          copy[dest + i] := copy[src + i];
        }
      }
    }

    method Put(at: nat, bytes: seq<Byte>)
      requires at + |bytes| <= copy.Length
      modifies copy
      ensures PutAt(old(copy[..]), copy[..], at, bytes)
    {
      forall i | 0 <= i < |bytes| {
        copy[at + i] := bytes[i];
      }
    }

    method WriteBack(count: nat)
      requires count <= copy.Length == sram.Length && copy != sram
      modifies sram
      ensures sram[..count] == copy[..count] && forall i :: count <= i < sram.Length ==> sram[i] == 0
    {
      for i := 0 to count
        invariant forall j :: 0 <= j < i ==> sram[j] == copy[j]
      {
        sram[i] := copy[i];
      }
      for i := count to sram.Length
        invariant forall j :: 0 <= j < count ==> sram[j] == copy[j]
        invariant forall j :: count <= j < i ==> sram[j] == 0
      {
        sram[i] := 0;
      }
    }
  }

  // ------------------------------------------------------------------ proofs

  /** What the first size field of a list says about its records. */
  lemma HeadIs(image: seq<Byte>, at: nat)
    requires Terminated(image, at)
    ensures at + 2 <= |image|
    ensures var rs, size := Parse(image, at), Half(image, at);
      if size == 0 then rs == []
      else
        && at + size <= |image| && size >= MIN_RECORD && size % 4 == 0 && Terminated(image, at + size)
        && |rs| > 0 && rs[0] == image[at..at + size] && rs[1..] == Parse(image, at + size)
        && |rs[0]| == size && TypeOf(rs[0]) == Half(image, at + 2)
  {
  }

  /** A parsed list is made of records, and they fill the image up to the final size of zero. */
  lemma {:induction false} ParseFlatten(image: seq<Byte>, at: nat)
    requires Terminated(image, at)
    ensures var rs := Parse(image, at); var end := at + |Flatten(rs)|;
      AllRecords(rs) && end + 2 <= |image| && image[at..end] == Flatten(rs) && Half(image, end) == 0
    decreases |image| - at
  {
    hide Half;
    HeadIs(image, at);
    var rs, size := Parse(image, at), Half(image, at);
    if size != 0 {
      ParseFlatten(image, at + size);
      var end := at + |Flatten(rs)|;
      assert image[at..end] == image[at..at + size] + image[at + size..end];
      SliceHalf(image, at, at + size, 0);
      forall i | 0 <= i < |rs| ensures IsRecord(rs[i]) {
        if i > 0 {
          assert rs[i] == rs[1..][i - 1];
        }
      }
    }
  }

  lemma SliceHalf(image: seq<Byte>, from: nat, to: nat, at: nat)
    requires from <= to <= |image| && at + 2 <= to - from
    ensures Half(image[from..to], at) == Half(image, from + at)
  {
  }

  /** And records followed by a size of zero parse to themselves. */
  lemma {:induction false} FlattenParse(rs: seq<seq<Byte>>, image: seq<Byte>, at: nat)
    requires AllRecords(rs) && at + |Flatten(rs)| + 2 <= |image|
    requires image[at..at + |Flatten(rs)|] == Flatten(rs) && Half(image, at + |Flatten(rs)|) == 0
    ensures Terminated(image, at) && Parse(image, at) == rs
  {
    hide Half;
    if |rs| > 0 {
      var next := at + |rs[0]|;
      var all, first := image[at..at + |Flatten(rs)|], |rs[0]|;
      assert all == rs[0] + Flatten(rs[1..]);
      assert all[..first] == image[at..next] && all[first..] == image[next..at + |Flatten(rs)|];
      FlattenParse(rs[1..], image, next);
      SliceHalf(image, at, next, 0);
    }
  }

  lemma NthNext(rs: seq<seq<Byte>>, kind: int, n: int, k: nat)
    requires k < |rs| && AllRecords(rs[k..])
    ensures IsRecord(rs[k]) && AllRecords(rs[k + 1..])
    ensures Nth(rs[k..], kind, n) == if TypeOf(rs[k]) != kind then 1 + Nth(rs[k + 1..], kind, n)
      else if n == 0 then 0 else 1 + Nth(rs[k + 1..], kind, n - 1)
  {
    assert rs[k..][0] == rs[k] && rs[k..][1..] == rs[k + 1..];
    var tail := rs[k + 1..];
    forall i | 0 <= i < |tail| ensures IsRecord(tail[i]) {
      assert tail[i] == rs[k..][i + 1];
    }
  }

  lemma NthOfNone(kind: int, n: int)
    ensures Nth([], kind, n) == 0
  {
  }

  lemma StoredSize(erase: bool, data: seq<Byte>)
    requires Stored(erase, data) == [] || IsRecord(data)
    ensures |Stored(erase, data)| == (if erase || |data| < 2 then 0 else Half(data, 0))
    ensures Stored(erase, data) != [] ==> Stored(erase, data) == data
    ensures Stored(erase, data) == [] || IsRecord(Stored(erase, data))
  {
  }

  lemma FlattenTail(rs: seq<seq<Byte>>, k: nat)
    requires k < |rs|
    ensures Flatten(rs) == Flatten(rs[..k]) + rs[k] + Flatten(rs[k + 1..])
  {
    hide Flatten;
    FlattenNext(rs, k);
    FlattenAppend(rs[..k + 1], rs[k + 1..]);
    assert rs == rs[..k + 1] + rs[k + 1..];
  }

  /** Where record k is in the image, and that its size field is its length. */
  lemma RecordAt(image: seq<Byte>, at: nat, k: nat)
    requires Terminated(image, at) && k <= |Parse(image, at)|
    ensures var rs := Parse(image, at); var from := at + |Flatten(rs[..k])|;
      k < |rs| ==> from + |rs[k]| <= at + |Flatten(rs)| && from + 2 <= |image| && Half(image, from) == |rs[k]| && |rs[k]| > 0
  {
    hide Terminated, Parse, Flatten, Half;
    ParseFlatten(image, at);
    var rs := Parse(image, at);
    if k < |rs| {
      FlattenTail(rs, k);
      var from, end := at + |Flatten(rs[..k])|, at + |Flatten(rs)|;
      assert image[from..from + |rs[k]|] == image[at..end][from - at..from - at + |rs[k]|] == rs[k];
      SliceHalf(image, from, from + |rs[k]|, 0);
      assert IsRecord(rs[k]);
    }
  }

  lemma FlattenUpdated(rs: seq<seq<Byte>>, k: nat, new_: seq<Byte>)
    requires k <= |rs|
    ensures Flatten(Updated(rs, k, new_)) == Flatten(rs[..k]) + new_ + if k < |rs| then Flatten(rs[k + 1..]) else []
  {
    var middle: seq<seq<Byte>> := if new_ == [] then [] else [new_];
    var tail: seq<seq<Byte>> := if k < |rs| then rs[k + 1..] else [];
    if new_ != [] {
      FlattenOne(new_);
    }
    FlattenAppend(rs[..k], middle);
    FlattenAppend(rs[..k] + middle, tail);
  }

  lemma UpdatedSize(rs: seq<seq<Byte>>, k: nat, new_: seq<Byte>)
    requires k <= |rs|
    ensures |Flatten(Updated(rs, k, new_))| == |Flatten(rs)| + |new_| - if k < |rs| then |rs[k]| else 0
  {
    FlattenUpdated(rs, k, new_);
    if k < |rs| {
      FlattenTail(rs, k);
    } else {
      assert rs[..k] == rs;
    }
  }

  /** From dest on, oldSize bytes gave way to new ones; the rest up to `end` moved along, and the
      terminator follows. */
  ghost predicate EditedAt(was: seq<Byte>, now: seq<Byte>, dest: nat, oldSize: nat, end: nat, new_: seq<Byte>) {
    && dest + oldSize <= end <= |was| == |now|
    && var newEnd := end - oldSize + |new_|;
      && newEnd + END_BYTES <= |was|
      && now[..newEnd] == was[..dest] + new_ + was[dest + oldSize..end]
      && now[newEnd..newEnd + END_BYTES] == Terminator()
  }

  ghost predicate MovedTo(was: seq<Byte>, now: seq<Byte>, dest: nat, src: nat, count: nat) {
    dest + count <= |was| && src + count <= |was| && now == was[..dest] + was[src..src + count] + was[dest + count..]
  }

  ghost predicate PutAt(was: seq<Byte>, now: seq<Byte>, at: nat, bytes: seq<Byte>) {
    at + |bytes| <= |was| && now == was[..at] + bytes + was[at + |bytes|..]
  }

  /** What moving the tail, copying the record in and writing the terminator make of the image. */
  lemma Edited(was: seq<Byte>, moved: seq<Byte>, put: seq<Byte>, now: seq<Byte>, dest: nat, oldSize: nat, end: nat, new_: seq<Byte>,
               copyDest: nat, copySrc: nat, copyCount: nat, newEnd: nat)
    requires copySrc == dest + oldSize && copyDest == dest + |new_| && copySrc + copyCount == end && newEnd == end - oldSize + |new_|
    requires MovedTo(was, moved, copyDest, copySrc, copyCount)
    requires PutAt(moved, put, dest, new_) && PutAt(put, now, newEnd, Terminator())
    ensures EditedAt(was, now, dest, oldSize, end, new_)
  {
    assert moved[..dest] == was[..dest];
    assert moved[copyDest..newEnd] == was[copySrc..end];
    assert put[..newEnd] == moved[..dest] + new_ + moved[copyDest..newEnd];
    assert now[..newEnd] == put[..newEnd];
  }

  /** The edited image parses to the updated list. */
  lemma UpdatedImage(was: seq<Byte>, now: seq<Byte>, at: nat, rs: seq<seq<Byte>>, k: nat, new_: seq<Byte>,
                     dest: nat, oldSize: nat, end: nat)
    requires Terminated(was, at) && rs == Parse(was, at) && k <= |rs| && (new_ == [] || IsRecord(new_))
    requires dest == at + |Flatten(rs[..k])| && end == at + |Flatten(rs)| && oldSize == if k < |rs| then |rs[k]| else 0
    requires EditedAt(was, now, dest, oldSize, end, new_)
    ensures Terminated(now, at) && Parse(now, at) == Updated(rs, k, new_) && now[..at] == was[..at]
  {
    hide Terminated, Parse, Flatten, Updated, EditedAt, AllRecords, IsRecord, Half;
    ParseFlatten(was, at);
    UpdatedSize(rs, k, new_);
    FlattenUpdated(rs, k, new_);
    UpdatedAreRecords(rs, k, new_);
    if k < |rs| {
      FlattenTail(rs, k);
    } else {
      assert rs[..k] == rs;
    }
    EditedSlices(was, now, dest, oldSize, end, new_, at, Flatten(rs[..k]), if k < |rs| then Flatten(rs[k + 1..]) else []);
    FlattenParse(Updated(rs, k, new_), now, at);
  }

  /** The same in terms of what the parts of the image hold. */
  lemma EditedSlices(was: seq<Byte>, now: seq<Byte>, dest: nat, oldSize: nat, end: nat, new_: seq<Byte>, at: nat,
                     front: seq<Byte>, back: seq<Byte>)
    requires EditedAt(was, now, dest, oldSize, end, new_) && at <= dest && |front| == dest - at && |back| == end - dest - oldSize
    requires was[at..end][..|front|] == front && was[at..end][dest + oldSize - at..] == back
    ensures var newEnd := end - oldSize + |new_|;
      newEnd + 2 <= |now| && now[at..newEnd] == front + new_ + back && Half(now, newEnd) == 0 && now[..at] == was[..at]
  {
    var newEnd := end - oldSize + |new_|;
    var shown := now[..newEnd];
    assert was[at..dest] == front && was[dest + oldSize..end] == back;
    assert now[at..newEnd] == shown[at..];
    assert shown[at..] == was[..dest][at..] + new_ + was[dest + oldSize..end];
    assert now[..at] == shown[..at] == was[..dest][..at];
    hide Half, Terminator;
    SliceHalf(now, newEnd, newEnd + END_BYTES, 0);
  }

  lemma EditedEnd(was: seq<Byte>, now: seq<Byte>, dest: nat, oldSize: nat, end: nat, new_: seq<Byte>)
    requires EditedAt(was, now, dest, oldSize, end, new_)
    ensures var newEnd := end - oldSize + |new_|;
      newEnd + END_BYTES <= |now| && now[newEnd..newEnd + END_BYTES] == Terminator()
  {
  }

  lemma UpdatedAreRecords(rs: seq<seq<Byte>>, k: nat, new_: seq<Byte>)
    requires AllRecords(rs) && k <= |rs| && (new_ == [] || IsRecord(new_))
    ensures AllRecords(Updated(rs, k, new_))
  {
  }

  /** The n-th record of a type exists exactly for the numbers below their count, and has n before it. */
  lemma {:induction false} NthMeans(rs: seq<seq<Byte>>, kind: int, n: int)
    requires AllRecords(rs)
    ensures Nth(rs, kind, n) < |rs| <==> 0 <= n < Count(rs, kind)
    ensures var k := Nth(rs, kind, n); k < |rs| ==> TypeOf(rs[k]) == kind && Count(rs[..k], kind) == n
  {
    if |rs| > 0 {
      var m := if TypeOf(rs[0]) == kind then n - 1 else n;
      NthMeans(rs[1..], kind, m);
      var k := Nth(rs, kind, n);
      if 0 < k < |rs| {
        assert rs[..k][1..] == rs[1..][..k - 1];
      }
    }
  }

  /** Any record of a type is found under the number of those before it. */
  lemma {:induction false} NthOfCount(rs: seq<seq<Byte>>, kind: int, k: nat)
    requires AllRecords(rs) && k < |rs| && TypeOf(rs[k]) == kind
    ensures AllRecords(rs[..k]) && Nth(rs, kind, Count(rs[..k], kind)) == k
  {
    hide IsRecord;
    if k > 0 {
      NthOfCount(rs[1..], kind, k - 1);
      assert rs[..k][1..] == rs[1..][..k - 1] && rs[..k][0] == rs[0];
    }
  }

  lemma {:induction false} CountAppend(a: seq<seq<Byte>>, r: seq<Byte>, kind: int)
    requires AllRecords(a) && IsRecord(r)
    ensures AllRecords(a + [r]) && Count(a + [r], kind) == Count(a, kind) + if TypeOf(r) == kind then 1 else 0
  {
    hide IsRecord;
    if |a| == 0 {
      assert (a + [r])[1..] == [];
    } else {
      CountAppend(a[1..], r, kind);
      assert (a + [r])[1..] == a[1..] + [r] && (a + [r])[0] == a[0];
    }
  }

  lemma CountNext(rs: seq<seq<Byte>>, kind: int, k: nat)
    requires AllRecords(rs) && k < |rs|
    ensures AllRecords(rs[..k]) && AllRecords(rs[..k + 1]) && IsRecord(rs[k])
    ensures Count(rs[..k + 1], kind) == Count(rs[..k], kind) + if TypeOf(rs[k]) == kind then 1 else 0
  {
    hide IsRecord;
    CountAppend(rs[..k], rs[k], kind);
    assert rs[..k + 1] == rs[..k] + [rs[k]];
  }

  lemma CountOfNone(rs: seq<seq<Byte>>, kind: int)
    ensures AllRecords(rs[..0]) && Count(rs[..0], kind) == 0
  {
  }

  lemma ChecksumAt(image: seq<Byte>, at: nat, r: seq<Byte>)
    requires |r| >= MIN_RECORD && at + |r| <= |image| && r == image[at..at + |r|]
    ensures ChecksumOf(r) == Word(image, at + 12)
  {
    SliceHalf(image, at, at + |r|, 12);
    SliceHalf(image, at, at + |r|, 14);
  }

  lemma MatchesIf(r: seq<Byte>, checksum: nat, kind: int)
    requires |r| >= MIN_RECORD
    ensures Matches(r, checksum, kind) <==> TypeOf(r) == kind && ChecksumOf(r) == checksum
  {
  }

  /** A negative type matches nothing, so erasing "any" save through it changes nothing. */
  lemma {:induction false} NegativeTypeFindsNothing(rs: seq<seq<Byte>>, kind: int, n: int)
    requires AllRecords(rs) && kind < 0
    ensures Nth(rs, kind, n) == |rs| && Updated(rs, Nth(rs, kind, n), []) == rs
  {
    if |rs| > 0 {
      NegativeTypeFindsNothing(rs[1..], kind, n);
    }
  }

  /** A replaced record is found again under its number, and removing what was appended undoes it. */
  lemma UpdatedIsFound(rs: seq<seq<Byte>>, kind: int, n: int, new_: seq<Byte>)
    requires AllRecords(rs) && IsRecord(new_) && TypeOf(new_) == kind
    ensures var k := Nth(rs, kind, n); var after := Updated(rs, k, new_);
      && AllRecords(after) && k < |after| && after[k] == new_
      && (k < |rs| ==> Nth(after, kind, n) == k)
      && (k == |rs| ==> Nth(after, kind, Count(rs, kind)) == k && Updated(after, k, []) == rs)
  {
    hide Nth, Count;
    var k := Nth(rs, kind, n);
    var after := Updated(rs, k, new_);
    UpdatedAreRecords(rs, k, new_);
    NthMeans(rs, kind, n);
    assert after[k] == new_ && after[..k] == rs[..k];
    NthOfCount(after, kind, k);
    if k == |rs| {
      assert rs[..k] == rs;
    }
  }

  lemma StoredIs(erase: bool, data: seq<Byte>)
    ensures erase ==> Stored(erase, data) == []
    ensures !erase && IsRecord(data) ==> Stored(erase, data) == data
  {
  }

  /** An update replaces the record at k, removes it, or adds one at the end. */
  lemma UpdatedIs(rs: seq<seq<Byte>>, k: nat, new_: seq<Byte>)
    requires k <= |rs|
    ensures k < |rs| && new_ != [] ==> Updated(rs, k, new_) == rs[k := new_]
    ensures k < |rs| && new_ == [] ==> Updated(rs, k, new_) == rs[..k] + rs[k + 1..]
    ensures k == |rs| ==> Updated(rs, k, new_) == if new_ == [] then rs else rs + [new_]
  {
  }

  /** Where a record keeps its fields: size, type and checksum, low byte first. */
  lemma FieldBytes(r: seq<Byte>)
    requires IsRecord(r)
    ensures |r| == (r[0] as int) + 256 * (r[1] as int) >= 16 && TypeOf(r) == (r[2] as int) + 256 * (r[3] as int)
    ensures ChecksumOf(r) ==
      (r[12] as int) + 256 * (r[13] as int) + 65536 * (r[14] as int) + 16777216 * (r[15] as int)
  {
  }
}
