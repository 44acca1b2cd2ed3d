/**
 The save state of the NES emulator: blocks of memory, each behind a tag and a size, in a stream
 that is written and read through a bridge whose operations can fail.

 Memory is one array, in which every block has its place; a block is loaded into its place and
 nowhere else.
 */
module SaveState {

  type Byte = b: int | 0 <= b < 256

  const NUM_TAGS := 15
  const VERSION_TAG := 0

  datatype Kind = Normal | Deref | WriteOnly | PpuState | Vram1 | Vram4 | Nothing | Invalid

  /** The cart, and where its blocks are: base[i] is the address of block i. */
  datatype Config = Config(base: seq<nat>, versionSize: nat, soundSize: nat, hasVram: bool, fourscreen: bool, memory: nat) {

    ghost predicate Valid() {
      && |base| == NUM_TAGS && versionSize < 0x8000_0000 && soundSize < 0x8000_0000
      && (forall i :: 0 <= i < NUM_TAGS ==> base[i] + Extent(i) <= memory)
      && (forall i, j :: 0 <= i < j < NUM_TAGS ==> base[i] + Extent(i) <= base[j] || base[j] + Extent(j) <= base[i])
    }

    /** The declared size of a block; negative for a block that does not exist. */
    function Size(i: nat): int {
      match i
      case 0 => versionSize
      case 1 => 32
      case 2 => 40
      case 3 => 2048
      case 4 => 8192
      case 5 => 8192
      case 6 => 2048
      case 7 => 2048
      case 8 => 48
      case 9 => 32
      case 10 => 4
      case 11 => 256
      case 12 => -1
      case 13 => soundSize
      case 14 => 208
      case _ => -1
    }

    function Extent(i: nat): nat { if Size(i) < 0 then 0 else Size(i) }

    /** Whether a block is written when saving, and whether it is stored when loading. */
    function Saves(i: nat): bool {
      match KindOf(i)
      case Vram1 => hasVram
      case Vram4 => fourscreen
      case Nothing => false
      case Invalid => false
      case _ => true
    }

    function Stores(i: nat): bool {
      match KindOf(i)
      case WriteOnly => false
      case _ => Saves(i)
    }
  }

  function KindOf(i: nat): Kind {
    match i
    case 0 => WriteOnly
    case 2 => PpuState
    case 5 => Vram1
    case 7 => Vram4
    case 11 => Deref
    case 12 => Nothing
    case _ => if i < NUM_TAGS then Normal else Invalid
  }

  /** The tags: four letters each. */
  function Tag(i: nat): (w: nat)
    ensures w < 0x1_0000_0000
  {
    match i
    case 0 => 0x53524556 // VERS
    case 1 => 0x53555043 // CPUS
    case 2 => 0x53584647 // GFXS
    case 3 => 0x204D4152 // RAM
    case 4 => 0x4D415253 // SRAM
    case 5 => 0x314D5256 // VRM1
    case 6 => 0x324D5256 // VRM2
    case 7 => 0x344D5256 // VRM4
    case 8 => 0x5250414D // MAPR
    case 9 => 0x324C4150 // PAL2
    case 10 => 0x3252494D // MIR2
    case 11 => 0x204D414F // OAM
    case 12 => 0x30444E53 // SND0
    case 13 => 0x31444E53 // SND1
    case 14 => 0x454D4954 // TIME
    case _ => 0x45504F4E // NOPE
  }

  /** The first tag from i on that is the one looked for; NUM_TAGS if none is. */
  function TagId(tag: nat, i: nat): (k: nat)
    requires i <= NUM_TAGS
    ensures i <= k <= NUM_TAGS && (k < NUM_TAGS ==> Tag(k) == tag)
    ensures forall j :: i <= j < k ==> Tag(j) != tag
    decreases NUM_TAGS - i
  {
    if i == NUM_TAGS || Tag(i) == tag then i else TagId(tag, i + 1)
  }

  // ------------------------------------------------------------------ meaning

  function Word(s: seq<Byte>, at: nat): (w: nat)
    requires at + 4 <= |s|
    ensures w < 0x1_0000_0000
  {
    (s[at] as int) + 0x100 * (s[at + 1] as int) + 0x1_0000 * (s[at + 2] as int) + 0x100_0000 * (s[at + 3] as int)
  }

  function WordBytes(w: nat): (b: seq<Byte>)
    requires w < 0x1_0000_0000
    ensures |b| == 4
  {
    var w1 := w / 0x100;
    var w2 := w1 / 0x100;
    [w % 0x100, w1 % 0x100, w2 % 0x100, w2 / 0x100]
  }

  /** A word as a signed number. */
  function Signed(w: nat): int { if w >= 0x8000_0000 then w - 0x1_0000_0000 else w }

  function Min(a: nat, b: nat): nat { if a <= b then a else b }

  /** The bank of window i in the old program map: a difference of pointers, divided toward zero, as a byte. */
  function OldBank(word: nat, i: nat): (b: Byte)
    requires i < 4
  {
    var d := Signed(word) + 0x8000 + 8192 * i;
    (if d >= 0 then d / 8192 else -(-d / 8192)) % 256
  }

  /** Memory with bytes stored at an address. */
  function Stored(mem: seq<Byte>, at: nat, bytes: seq<Byte>): (m: seq<Byte>)
    requires at + |bytes| <= |mem|
    ensures |m| == |mem|
    ensures forall x :: 0 <= x < |mem| ==> m[x] == if at <= x < at + |bytes| then bytes[x - at] else mem[x]
  {
    mem[..at] + bytes + mem[at + |bytes|..]
  }

  /** What loading a block does: at most its declared size is stored, and only in its place. */
  ghost function LoadedBlock(cfg: Config, mem: seq<Byte>, i: nat, bytes: seq<Byte>): (m: seq<Byte>)
    requires cfg.Valid() && |mem| == cfg.memory && i <= NUM_TAGS
    ensures |m| == |mem|
  {
    if i < NUM_TAGS && cfg.Stores(i) then Stored(mem, cfg.base[i], bytes[..Min(|bytes|, cfg.Extent(i))]) else mem
  }

  datatype Result = Fails | Loads(mem: seq<Byte>)

  /** Loading a stream of blocks: every one whole, and unknown tags skipped. */
  ghost function LoadAll(cfg: Config, mem: seq<Byte>, data: seq<Byte>): (r: Result)
    requires cfg.Valid() && |mem| == cfg.memory
    ensures r.Loads? ==> |r.mem| == |mem|
    decreases |data|
  {
    if |data| == 0 then Loads(mem)
    else if |data| < 8 then Fails
    else
      var size := Signed(Word(data, 4));
      if size < 0 || 8 + size > |data| then Fails
      else LoadAll(cfg, LoadedBlock(cfg, mem, TagId(Word(data, 0), 0), data[8..8 + size]), data[8 + size..])
  }

  /** A state must begin with its version. */
  ghost predicate StartsWithVersion(data: seq<Byte>) {
    |data| >= 4 && TagId(Word(data, 0), 0) == VERSION_TAG
  }

  function Block(cfg: Config, mem: seq<Byte>, i: nat): seq<Byte>
    requires cfg.Valid() && |mem| == cfg.memory && i < NUM_TAGS
  {
    mem[cfg.base[i]..cfg.base[i] + cfg.Extent(i)]
  }

  function Entry(cfg: Config, mem: seq<Byte>, i: nat): seq<Byte>
    requires cfg.Valid() && |mem| == cfg.memory && i < NUM_TAGS
  {
    if cfg.Saves(i) then WordBytes(Tag(i)) + WordBytes(cfg.Extent(i)) + Block(cfg, mem, i) else []
  }

  /** The blocks from tag i on, as they are saved. */
  function Saved(cfg: Config, mem: seq<Byte>, i: nat): seq<Byte>
    requires cfg.Valid() && |mem| == cfg.memory && i <= NUM_TAGS
    decreases NUM_TAGS - i
  {
    if i == NUM_TAGS then [] else Entry(cfg, mem, i) + Saved(cfg, mem, i + 1)
  }

  /** Only places of blocks that are stored may differ. */
  ghost predicate OnlyBlocks(cfg: Config, now: seq<Byte>, was: seq<Byte>)
    requires cfg.Valid()
  {
    && |now| == |was| == cfg.memory
    && forall x :: 0 <= x < |was| && now[x] != was[x] ==> InBlock(cfg, x)
  }

  ghost predicate InBlock(cfg: Config, x: nat)
    requires cfg.Valid()
  {
    exists i :: 0 <= i < NUM_TAGS && cfg.Stores(i) && cfg.base[i] <= x < cfg.base[i] + cfg.Extent(i)
  }

  // ------------------------------------------------------------------ the code

  class Emulator {
    const cfg: Config
    const mem: array<Byte>
    // The bridge operations that fail, by number, and what a failed read still delivers.
    const faults: map<nat, seq<Byte>>
    var operations: nat
    var file: seq<Byte>
    var pos: nat
    var ioError: bool
    var remaining: nat
    var rommap: seq<Byte>

    ghost predicate Valid()
      reads this
    {
      cfg.Valid() && mem.Length == cfg.memory && pos <= |file| && |rommap| == 16
    }

    /** Until something fails, what remains is there to be read. */
    ghost predicate InStep()
      reads this
    {
      Valid() && (!ioError ==> pos + remaining <= |file|)
    }

    constructor (cfg: Config, mem: array<Byte>, faults: map<nat, seq<Byte>>, file: seq<Byte>)
      requires cfg.Valid() && mem.Length == cfg.memory
      ensures Valid() && this.cfg == cfg && this.mem == mem && this.faults == faults && this.file == file && pos == 0
    {
      this.cfg, this.mem, this.faults, this.file := cfg, mem, faults, file;
      operations, pos, ioError, remaining := 0, 0, false, 0;
      rommap := seq(16, _ => 0);
    }

    /** One read of the bridge: what arrived, and whether that was all. */
    method BridgeRead(size: nat) returns (ok: bool, bytes: seq<Byte>)
      requires pos <= |file|
      modifies this`operations, this`pos
      ensures old(pos) <= pos <= |file| && |bytes| <= size
      ensures ok ==> pos == old(pos) + size && bytes == file[old(pos)..pos]
      ensures faults == map[] && old(pos) + size <= |file| ==> ok
    {
      var operation := operations;
      operations := operations + 1;
      if operation in faults {
        bytes := faults[operation];
        ok, bytes := false, bytes[..Min(|bytes|, size)];
      } else {
        bytes := file[pos..pos + Min(size, |file| - pos)];
        pos := pos + |bytes|;
        ok := |bytes| == size;
      }
    }

    method ReadData(dst: nat, size: int) returns (got: int)
      requires InStep() && (size >= 0 ==> dst + size <= mem.Length)
      modifies this`operations, this`pos, this`ioError, this`remaining, mem
      ensures InStep() && (old(ioError) ==> ioError) && remaining <= old(remaining)
      ensures forall x :: 0 <= x < mem.Length && !(dst <= x < dst + size) ==> mem[x] == old(mem[x])
      ensures !ioError ==> Took(old(pos), old(remaining), size) && mem[..] == Stored(old(mem[..]), dst, file[old(pos)..pos])
      ensures faults == map[] && !old(ioError) && 0 <= size <= old(remaining) ==> !ioError
      ensures !ioError ==> got == size
    {
      if size < 0 || size > remaining {
        ioError := true;
        return 0;
      }
      var ok, bytes := BridgeRead(size);
      forall i | 0 <= i < |bytes| {
        mem[dst + i] := bytes[i];
      }
      if !ok {
        ioError := true;
        return 0;
      }
      remaining := remaining - size;
      got := size;
    }

    /** So many bytes were taken from the stream. */
    ghost predicate Took(pos0: nat, remaining0: nat, size: int)
      reads this
    {
      0 <= size <= remaining0 && remaining == remaining0 - size && pos == pos0 + size <= |file|
    }

    /** Reads a word of the stream; got is zero if that failed. */
    method ReadU32() returns (got: int, word: nat)
      requires InStep()
      modifies this`operations, this`pos, this`ioError, this`remaining
      ensures InStep() && (old(ioError) ==> ioError) && word < 0x1_0000_0000 && (got == 4 || got == 0)
      ensures got == 0 ==> ioError && remaining == old(remaining)
      ensures got == 4 ==> remaining == old(remaining) - 4 && ioError == old(ioError) && old(pos) + 4 == pos && word == Word(file, old(pos))
      ensures faults == map[] && !old(ioError) && old(remaining) >= 4 ==> got == 4
    {
      hide Word;
      word, got := 0, 0;
      if 4 > remaining {
        ioError := true;
        return;
      }
      var ok, bytes := BridgeRead(4);
      if !ok {
        ioError := true;
        return;
      }
      remaining := remaining - 4;
      got, word := 4, Word(bytes, 0);
      WordOfSlice(file, pos - 4);
    }

    method SeekData(size: int)
      requires InStep()
      modifies this`operations, this`pos, this`ioError, this`remaining
      ensures InStep() && (old(ioError) ==> ioError) && remaining <= old(remaining)
      ensures !ioError ==> Took(old(pos), old(remaining), size)
      ensures faults == map[] && !old(ioError) && 0 <= size <= old(remaining) ==> !ioError
      ensures size < 0 ==> ioError && remaining == old(remaining)
    {
      if size < 0 {
        ioError := true;
        return;
      }
      if size > remaining {
        ioError := true;
        return;
      }
      var operation := operations;
      operations := operations + 1;
      if operation in faults || size > |file| - pos {
        ioError := true;
        return;
      }
      pos := pos + size;
      remaining := remaining - size;
    }

    method TagSearch(tag: nat) returns (i: nat)
      ensures i == TagId(tag, 0)
    {
      hide Tag;
      for k := 0 to NUM_TAGS
        invariant TagId(tag, 0) == TagId(tag, k)
      {
        if Tag(k) == tag {
          return k;
        }
      }
      i := NUM_TAGS;
    }

    method LoadNormal(dst: nat, actualSize: int, expectedSize: nat)
      requires InStep() && dst + expectedSize <= mem.Length
      modifies this`operations, this`pos, this`ioError, this`remaining, mem
      ensures InStep() && (old(ioError) ==> ioError) && remaining <= old(remaining)
      ensures forall x :: 0 <= x < mem.Length && !(dst <= x < dst + expectedSize) ==> mem[x] == old(mem[x])
      ensures !ioError ==> Took(old(pos), old(remaining), actualSize)
      ensures !ioError ==> mem[..] == Stored(old(mem[..]), dst, file[old(pos)..pos][..Min(actualSize, expectedSize)])
      ensures faults == map[] && !old(ioError) && 0 <= actualSize <= old(remaining) ==> !ioError
    {
      if actualSize <= expectedSize {
        var got := ReadData(dst, actualSize);
        assert !ioError ==> file[old(pos)..pos][..actualSize] == file[old(pos)..pos];
      } else {
        var got := ReadData(dst, expectedSize);
        ghost var middle := pos;
        SeekData(actualSize - expectedSize);
        assert !ioError ==> file[old(pos)..pos][..expectedSize] == file[old(pos)..middle];
      }
    }

    /** One block of a state. */
    method LoadBlock(tag: nat, size: int)
      requires InStep()
      modifies this`operations, this`pos, this`ioError, this`remaining, mem
      ensures InStep() && (old(ioError) ==> ioError) && remaining <= old(remaining)
      ensures OnlyBlocks(cfg, mem[..], old(mem[..]))
      ensures !ioError ==> Took(old(pos), old(remaining), size)
      ensures !ioError ==> mem[..] == LoadedBlock(cfg, old(mem[..]), TagId(tag, 0), file[old(pos)..pos])
      ensures faults == map[] && !old(ioError) && 0 <= size <= old(remaining) ==> !ioError
    {
      hide Config.Size, Config.Extent, Tag, KindOf;
      var tagId := TagSearch(tag);
      var expectedSize := cfg.Extent(tagId);
      var stores := false;
      match KindOf(tagId) {
        case Normal => stores := true;
        case Deref => stores := true;
        case PpuState => stores := true;
        case Vram1 => stores := cfg.hasVram;
        case Vram4 => stores := cfg.fourscreen;
        case _ =>
      }
      StoresIs(cfg, tagId);
      if stores && tagId < NUM_TAGS {
        LoadNormal(cfg.base[tagId], size, expectedSize);
      } else {
        SeekData(size);
      }
    }

    /** The bytes that are still to be read, while nothing failed. */
    ghost function Rest(): seq<Byte>
      requires InStep() && !ioError
      reads this
    {
      file[pos..pos + remaining]
    }

    /** All blocks up to the end of the stream. An error is remembered, and reading goes on. */
    method LoadBlocks()
      requires InStep()
      modifies this`operations, this`pos, this`ioError, this`remaining, mem
      ensures InStep() && (old(ioError) ==> ioError) && OnlyBlocks(cfg, mem[..], old(mem[..]))
      ensures !ioError ==> remaining == 0 && pos == old(pos) + old(remaining)
      ensures !ioError ==> LoadAll(cfg, old(mem[..]), old(Rest())) == Loads(mem[..])
      ensures faults == map[] && !old(ioError) && LoadAll(cfg, old(mem[..]), old(Rest())).Loads? ==> !ioError
    {
      hide LoadedBlock, TagId, OnlyBlocks, LoadAll, Word, Signed, Config.Valid;
      ghost var mem0 := mem[..];
      ghost var data: seq<Byte> := if ioError then [] else Rest();
      NothingChanged(cfg, mem0);
      while true
        invariant InStep() && (old(ioError) ==> ioError) && OnlyBlocks(cfg, mem[..], mem0)
        invariant !ioError ==> pos + remaining == old(pos) + old(remaining)
        invariant !ioError ==> LoadAll(cfg, mem0, data) == LoadAll(cfg, mem[..], Rest())
        invariant ioError && faults == map[] && !old(ioError) ==> LoadAll(cfg, mem0, data) == Fails
        decreases remaining
      {
        if remaining == 0 {
          if !ioError {
            LoadNothing(cfg, mem[..], Rest());
          }
          break;
        }
        ghost var before := mem[..];
        var more := LoadOne();
        OnlyMore(cfg, mem0, before, mem[..]);
        if !more {
          break;
        }
      }
    }

    /** One tag, size and block. Reading goes on unless the tag or the size cannot be read. */
    method LoadOne() returns (more: bool)
      requires InStep() && remaining > 0
      modifies this`operations, this`pos, this`ioError, this`remaining, mem
      ensures InStep() && (old(ioError) || !more ==> ioError) && OnlyBlocks(cfg, mem[..], old(mem[..]))
      ensures !ioError ==> pos + remaining == old(pos) + old(remaining)
      ensures more ==> remaining < old(remaining)
      ensures !ioError ==> LoadAll(cfg, old(mem[..]), old(Rest())) == LoadAll(cfg, mem[..], Rest())
      ensures ioError && faults == map[] && !old(ioError) ==> LoadAll(cfg, old(mem[..]), old(Rest())) == Fails
    {
      hide LoadedBlock, TagId, OnlyBlocks, LoadAll, Word, Signed, Config.Valid;
      ghost var before, held, good := mem[..], if ioError then [] else Rest(), !ioError;
      NothingChanged(cfg, before);
      if good {
        LoadStep(cfg, before, held);
      }
      var got, tag := ReadU32();
      if got == 0 {
        return false;
      }
      var word;
      got, word := ReadU32();
      if got == 0 {
        return false;
      }
      ghost var from := pos;
      LoadBlock(tag, Signed(word));
      if good {
        HeaderOf(file, from - 8, |held|, held, Signed(word));
      }
      more := true;
    }

    /** Loads a state of a given size. Afterwards the bank caches are restored, which may fail. */
    method LoadState(fileSize: nat, cacheRestored: bool) returns (ok: bool)
      requires Valid() && pos + fileSize <= |file|
      modifies this`operations, this`pos, this`ioError, this`remaining, this`rommap, mem
      ensures OnlyBlocks(cfg, mem[..], old(mem[..]))
      ensures ok ==> cacheRestored && !ioError && remaining == 0 && pos == old(pos) + fileSize
      ensures var data := file[old(pos)..old(pos) + fileSize];
        && (ok ==> StartsWithVersion(data) && LoadAll(cfg, old(mem[..]), data) == Loads(mem[..]))
        && (faults == map[] && cacheRestored && StartsWithVersion(data) && LoadAll(cfg, old(mem[..]), data).Loads? ==> ok)
    {
      hide OnlyBlocks, LoadAll;
      ok := LoadTags(fileSize);
      if !cacheRestored {
        ioError := true;
      }
      ok := ok && !ioError;
    }

    /** The tags and blocks of a state; whether all of them were loaded without an error. */
    method LoadTags(fileSize: nat) returns (ok: bool)
      requires Valid() && pos + fileSize <= |file|
      modifies this`operations, this`pos, this`ioError, this`remaining, this`rommap, mem
      ensures OnlyBlocks(cfg, mem[..], old(mem[..]))
      ensures ok ==> !ioError && remaining == 0 && pos == old(pos) + fileSize
      ensures var data := file[old(pos)..old(pos) + fileSize];
        && (ok ==> StartsWithVersion(data) && LoadAll(cfg, old(mem[..]), data) == Loads(mem[..]))
        && (faults == map[] && StartsWithVersion(data) && LoadAll(cfg, old(mem[..]), data).Loads? ==> ok)
    {
      hide LoadedBlock, OnlyBlocks, LoadAll, Word, Signed, Config.Valid, Tag;
      ghost var mem0, data := mem[..], file[pos..pos + fileSize];
      ioError, remaining := false, fileSize;
      NothingChanged(cfg, mem0);
      if remaining == 0 {
        return false;
      }
      var got, tag := ReadU32();
      if got == 0 {
        return false;
      }
      HeadTag(file, pos - 4, fileSize, data);
      var tagId := TagSearch(tag);
      if tagId != VERSION_TAG {
        SeekData(-4);
        LoadOldState();
        return false;
      }
      var size;
      LoadStep(cfg, mem0, data);
      got, size := ReadU32();
      if got == 0 {
        return false;
      }
      ghost var from := pos;
      LoadBlock(tag, Signed(size));
      HeaderOf(file, from - 8, |data|, data, Signed(size));
      ghost var middle, left := mem[..], if ioError then [] else Rest();
      LoadBlocks();
      OnlyMore(cfg, mem0, middle, mem[..]);
      ok := !ioError && remaining == 0;
    }

    /** What loading does without a version at the start: the seek back has failed already, so the
        old layout is read four bytes late and the load cannot succeed. */
    method LoadOldState()
      requires InStep() && ioError
      modifies this`operations, this`pos, this`ioError, this`remaining, this`rommap, mem
      ensures InStep() && ioError && OnlyBlocks(cfg, mem[..], old(mem[..]))
    {
      hide OnlyBlocks, Config.Valid, Config.Extent, Config.Size;
      ghost var mem0 := mem[..];
      NothingChanged(cfg, mem0);
      OldSizes(cfg);
      SeekData(8); // emulator flags, outside the blocks
      ReadInto(3, 0x800, mem0);
      ReadInto(4, 0x2000, mem0);
      if cfg.hasVram {
        ReadInto(5, 0x2000, mem0);
      } else {
        SeekData(0x2000);
      }
      ReadInto(6, 0x800, mem0);
      if cfg.fourscreen {
        ReadInto(7, 0x800, mem0);
      } else {
        SeekData(0x800);
      }
      SeekData(64);
      ReadInto(9, 32, mem0);
      SeekData(64);
      SeekData(16);
      ReadInto(8, 32, mem0);
      ReadInto(8, 8, mem0, 40); // tile banks, at the end of the mapper block
      SeekData(8);
      ReadProgramMap(mem0);
      ReadCpuState(mem0);
      SeekData(4);
      SeekData(8);
      ReadInto(2, 32, mem0);
    }

    /** The processor's state, of which one word is kept. */
    method ReadCpuState(ghost mem0: seq<Byte>)
      requires InStep() && ioError && OnlyBlocks(cfg, mem[..], mem0)
      modifies this`operations, this`pos, this`ioError, this`remaining, mem
      ensures InStep() && ioError && OnlyBlocks(cfg, mem[..], mem0)
    {
      hide OnlyBlocks;
      OldSizes(cfg);
      var at := cfg.base[1];
      var oldReadMem := mem[at + 4..at + 8];
      ReadInto(1, 32, mem0);
      ghost var before := mem[..];
      forall i | 0 <= i < 4 {
        mem[at + 4 + i] := oldReadMem[i];
      }
      InsideBlock(cfg, 1, 32, mem0, before, mem[..]);
    }

    /** The four program banks, found from the pointers of the old program map. */
    method ReadProgramMap(ghost mem0: seq<Byte>)
      requires InStep() && ioError && OnlyBlocks(cfg, mem[..], mem0)
      modifies this`operations, this`pos, this`ioError, this`remaining, this`rommap, mem
      ensures InStep() && ioError && OnlyBlocks(cfg, mem[..], mem0)
    {
      OldSizes(cfg);
      var at: nat := cfg.base[8];
      assert at + 48 <= mem.Length;
      hide OnlyBlocks, Config.Valid, Config.Extent, Config.Size, Word, OldBank;
      ghost var before := mem[..];
      if 16 <= remaining {
        var ok, bytes := BridgeRead(16);
        rommap := bytes + rommap[|bytes|..];
        if ok {
          remaining := remaining - 16;
        }
      }
      for i := 0 to 4
        invariant InStep() && ioError
        invariant forall x :: 0 <= x < mem.Length && !(at <= x < at + 48) ==> mem[x] == before[x]
      {
        mem[at + 36 + i] := OldBank(Word(rommap, 4 * i), i);
      }
      InsideBlock(cfg, 8, 48, mem0, before, mem[..]);
    }

    /** Reads so many bytes into a block, from an offset on. */
    method ReadInto(i: nat, size: nat, ghost mem0: seq<Byte>, from: nat := 0)
      requires InStep() && ioError && i < NUM_TAGS && cfg.Stores(i) && from + size <= cfg.Extent(i)
      requires OnlyBlocks(cfg, mem[..], mem0)
      modifies this`operations, this`pos, this`ioError, this`remaining, mem
      ensures InStep() && ioError && OnlyBlocks(cfg, mem[..], mem0)
    {
      hide Config.Extent, Config.Size;
      ghost var before := mem[..];
      var got := ReadData(cfg.base[i] + from, size);
      InsideBlock(cfg, i, from + size, mem0, before, mem[..]);
    }

    method WriteData(bytes: seq<Byte>)
      modifies this`operations, this`ioError, this`file
      ensures (old(ioError) ==> ioError) && (faults == map[] ==> ioError == old(ioError))
      ensures !ioError ==> file == old(file) + bytes
      ensures old(file) <= file
    {
      var operation := operations;
      operations := operations + 1;
      if operation in faults {
        ioError := true;
      } else {
        file := file + bytes;
      }
    }

    /** One block of a state, unless it does not exist on this cart. */
    method DumpData(tagId: nat)
      requires Valid() && tagId < NUM_TAGS
      modifies this`operations, this`ioError, this`file
      ensures Valid() && (old(ioError) ==> ioError) && (faults == map[] ==> ioError == old(ioError))
      ensures !ioError ==> file == old(file) + Entry(cfg, mem[..], tagId)
    {
      hide Tag, WordBytes, Config.Extent, Config.Size;
      if cfg.Saves(tagId) {
        var at := cfg.base[tagId];
        WriteData(WordBytes(Tag(tagId)));
        ExtentFits(cfg, tagId);
        WriteData(WordBytes(cfg.Extent(tagId)));
        WriteData(mem[at..at + cfg.Extent(tagId)]);
      }
    }

    method SaveState() returns (ok: bool)
      requires Valid()
      modifies this`operations, this`ioError, this`file
      ensures Valid() && (faults == map[] ==> ok) && (ok ==> !ioError && file == old(file) + Saved(cfg, mem[..], 0))
    {
      hide Entry, Saved, Config.Valid;
      ioError := false;
      ghost var file0, whole := file, Saved(cfg, mem[..], 0);
      for i := 0 to NUM_TAGS
        invariant Valid() && (faults == map[] ==> !ioError)
        invariant !ioError ==> file + Saved(cfg, mem[..], i) == file0 + whole
      {
        SavedNext(cfg, mem[..], i, file);
        DumpData(i);
      }
      SavedEnd(cfg, mem[..]);
      assert file + [] == file;
      ok := !ioError;
    }
  }

  lemma StoresIs(cfg: Config, i: nat)
    ensures cfg.Stores(i) == match KindOf(i)
      case Normal => true case Deref => true case PpuState => true
      case Vram1 => cfg.hasVram case Vram4 => cfg.fourscreen case _ => false
    ensures cfg.Stores(i) ==> i < NUM_TAGS
  {
  }

  lemma NothingChanged(cfg: Config, mem: seq<Byte>)
    requires cfg.Valid() && |mem| == cfg.memory
    ensures OnlyBlocks(cfg, mem, mem)
  {
  }

  lemma OnlyMore(cfg: Config, a: seq<Byte>, b: seq<Byte>, c: seq<Byte>)
    requires cfg.Valid() && OnlyBlocks(cfg, b, a) && OnlyBlocks(cfg, c, b)
    ensures OnlyBlocks(cfg, c, a)
  {
  }

  lemma LoadNothing(cfg: Config, mem: seq<Byte>, data: seq<Byte>)
    requires cfg.Valid() && |mem| == cfg.memory && |data| == 0
    ensures LoadAll(cfg, mem, data) == Loads(mem)
  {
  }

  /** One turn of loading, as `LoadAll` sees it. */
  lemma LoadStep(cfg: Config, mem: seq<Byte>, data: seq<Byte>)
    requires cfg.Valid() && |mem| == cfg.memory && |data| > 0
    ensures |data| < 8 ==> LoadAll(cfg, mem, data) == Fails
    ensures |data| >= 8 ==> var size := Signed(Word(data, 4));
      LoadAll(cfg, mem, data) ==
        if size < 0 || 8 + size > |data| then Fails
        else LoadAll(cfg, LoadedBlock(cfg, mem, TagId(Word(data, 0), 0), data[8..8 + size]), data[8 + size..])
  {
  }

  /** The header and the parts of a piece of the file. */
  lemma HeaderOf(file: seq<Byte>, from: nat, length: nat, piece: seq<Byte>, size: int)
    requires length >= 8 && from + length <= |file| && piece == file[from..from + length]
    ensures Word(piece, 0) == Word(file, from) && Word(piece, 4) == Word(file, from + 4)
    ensures 0 <= size <= length - 8 ==>
      piece[8..8 + size] == file[from + 8..from + 8 + size] && piece[8 + size..] == file[from + 8 + size..from + length]
  {
    assert forall k :: 0 <= k < length ==> piece[k] == file[from + k];
    if 0 <= size <= length - 8 {
      SliceOfSlice(file, from, length, 8, 8 + size);
      SliceOfSlice(file, from, length, 8 + size, length);
    }
  }

  lemma SliceOfSlice(file: seq<Byte>, from: nat, length: nat, a: nat, b: nat)
    requires a <= b <= length && from + length <= |file|
    ensures file[from..from + length][a..b] == file[from + a..from + b]
  {
    var x, y := file[from..from + length][a..b], file[from + a..from + b];
    forall k | 0 <= k < |x| ensures x[k] == y[k] {
      assert x[k] == file[from..from + length][a + k];
    }
  }

  lemma HeadTag(file: seq<Byte>, from: nat, length: nat, piece: seq<Byte>)
    requires length >= 4 && from + length <= |file| && piece == file[from..from + length]
    ensures Word(piece, 0) == Word(file, from)
    ensures StartsWithVersion(piece) <==> TagId(Word(file, from), 0) == VERSION_TAG
  {
    hide Tag;
    assert Word(piece, 0) == Word(file, from);
  }

  lemma InsideBlock(cfg: Config, i: nat, size: nat, mem0: seq<Byte>, before: seq<Byte>, now: seq<Byte>)
    requires cfg.Valid() && i < NUM_TAGS && cfg.Stores(i) && size <= cfg.Extent(i) && OnlyBlocks(cfg, before, mem0)
    requires |now| == |before|
    requires forall x :: 0 <= x < |now| && !(cfg.base[i] <= x < cfg.base[i] + size) ==> now[x] == before[x]
    ensures OnlyBlocks(cfg, now, mem0)
  {
    hide Config.Extent, Config.Stores;
    forall x | 0 <= x < |now| && now[x] != mem0[x] ensures InBlock(cfg, x) {
      if now[x] == before[x] {
        assert before[x] != mem0[x];
      } else {
        assert cfg.base[i] <= x < cfg.base[i] + cfg.Extent(i);
      }
    }
  }

  lemma OldSizes(cfg: Config)
    ensures cfg.Extent(1) == 32 && cfg.Extent(2) == 40 && cfg.Extent(3) == cfg.Extent(6) == cfg.Extent(7) == 0x800
    ensures cfg.Extent(4) == cfg.Extent(5) == 0x2000 && cfg.Extent(8) == 48 && cfg.Extent(9) == 32
    ensures cfg.Stores(1) && cfg.Stores(2) && cfg.Stores(3) && cfg.Stores(4) && cfg.Stores(6) && cfg.Stores(8) && cfg.Stores(9)
    ensures cfg.Stores(5) == cfg.hasVram && cfg.Stores(7) == cfg.fourscreen
  {
  }

  lemma SavedNext(cfg: Config, mem: seq<Byte>, i: nat, file: seq<Byte>)
    requires cfg.Valid() && |mem| == cfg.memory && i < NUM_TAGS
    ensures file + Saved(cfg, mem, i) == file + Entry(cfg, mem, i) + Saved(cfg, mem, i + 1)
  {
    hide Entry, Config.Valid;
  }

  lemma SavedEnd(cfg: Config, mem: seq<Byte>)
    requires cfg.Valid() && |mem| == cfg.memory
    ensures Saved(cfg, mem, NUM_TAGS) == []
  {
  }

  lemma ExtentFits(cfg: Config, i: nat)
    requires cfg.Valid() && i < NUM_TAGS
    ensures cfg.Extent(i) < 0x8000_0000
  {
  }

  lemma WordOfSlice(file: seq<Byte>, at: nat)
    requires at + 4 <= |file|
    ensures Word(file[at..at + 4], 0) == Word(file, at)
  {
  }

  // ------------------------------------------------------------------ round trip

  lemma WordRoundTrip(w: nat, rest: seq<Byte>)
    requires w < 0x1_0000_0000
    ensures Word(WordBytes(w) + rest, 0) == w
  {
    var w1 := w / 0x100;
    var w2 := w1 / 0x100;
    assert w == 0x100 * w1 + w % 0x100 && w1 == 0x100 * w2 + w1 % 0x100 && w2 == 0x100 * (w2 / 0x100) + w2 % 0x100;
  }

  lemma TagIsItself(i: nat)
    requires i < NUM_TAGS
    ensures TagId(Tag(i), 0) == i
  {
    var k := TagId(Tag(i), 0);
    TagsDiffer(k, i);
  }

  lemma TagsDiffer(i: nat, j: nat)
    requires i < NUM_TAGS && j < NUM_TAGS && Tag(i) == Tag(j)
    ensures i == j
  {
  }

  lemma EntryParses(cfg: Config, saved: seq<Byte>, i: nat, rest: seq<Byte>)
    requires cfg.Valid() && |saved| == cfg.memory && i < NUM_TAGS && cfg.Saves(i)
    ensures var data := Entry(cfg, saved, i) + rest;
      && |data| >= 8 && Word(data, 0) == Tag(i) && Signed(Word(data, 4)) == cfg.Extent(i) == |Block(cfg, saved, i)|
      && 8 + cfg.Extent(i) <= |data| && data[8..8 + cfg.Extent(i)] == Block(cfg, saved, i) && data[8 + cfg.Extent(i)..] == rest
  {
    hide Word, WordBytes, Tag, Config.Saves;
    var data := Entry(cfg, saved, i) + rest;
    var tag, size, block := WordBytes(Tag(i)), WordBytes(cfg.Extent(i)), Block(cfg, saved, i);
    assert data == tag + (size + (block + rest));
    WordRoundTrip(Tag(i), size + (block + rest));
    WordRoundTrip(cfg.Extent(i), block + rest);
    WordLater(tag, size + (block + rest));
  }

  lemma WordLater(a: seq<Byte>, b: seq<Byte>)
    requires |a| == 4 && |b| >= 4
    ensures Word(a + b, 4) == Word(b, 0)
  {
  }

  /** Memory after loading what was saved from tag i on. */
  ghost function Restored(cfg: Config, mem: seq<Byte>, saved: seq<Byte>, i: nat): (m: seq<Byte>)
    requires cfg.Valid() && |mem| == |saved| == cfg.memory && i <= NUM_TAGS
    ensures |m| == |mem|
    decreases NUM_TAGS - i
  {
    if i == NUM_TAGS then mem
    else Restored(cfg, if cfg.Saves(i) then LoadedBlock(cfg, mem, i, Block(cfg, saved, i)) else mem, saved, i + 1)
  }

  /** Everything that was saved is accepted, whatever memory it is loaded into. */
  lemma {:induction false} SavedIsAccepted(cfg: Config, mem: seq<Byte>, saved: seq<Byte>, i: nat)
    requires cfg.Valid() && |mem| == |saved| == cfg.memory && i <= NUM_TAGS
    ensures LoadAll(cfg, mem, Saved(cfg, saved, i)) == Loads(Restored(cfg, mem, saved, i))
    decreases NUM_TAGS - i
  {
    hide Config.Saves, Tag, Word, LoadedBlock, Block, Entry, Config.Valid;
    if i < NUM_TAGS {
      var rest := Saved(cfg, saved, i + 1);
      if cfg.Saves(i) {
        EntryParses(cfg, saved, i, rest);
        TagIsItself(i);
        SavedIsAccepted(cfg, LoadedBlock(cfg, mem, i, Block(cfg, saved, i)), saved, i + 1);
      } else {
        NoEntry(cfg, saved, i);
        assert Saved(cfg, saved, i) == rest;
        SavedIsAccepted(cfg, mem, saved, i + 1);
      }
    }
  }

  lemma NoEntry(cfg: Config, saved: seq<Byte>, i: nat)
    requires cfg.Valid() && |saved| == cfg.memory && i < NUM_TAGS && !cfg.Saves(i)
    ensures Entry(cfg, saved, i) == []
  {
  }

  /** Loading one block restores it and leaves every other place alone. */
  lemma OneRestored(cfg: Config, mem: seq<Byte>, saved: seq<Byte>, i: nat)
    requires cfg.Valid() && |mem| == |saved| == cfg.memory && i < NUM_TAGS
    ensures var m := LoadedBlock(cfg, mem, i, Block(cfg, saved, i));
      forall x :: 0 <= x < |mem| ==>
        m[x] == if cfg.Stores(i) && cfg.base[i] <= x < cfg.base[i] + cfg.Extent(i) then saved[x] else mem[x]
  {
    hide Config.Stores, Config.Size;
  }

  /** So every byte of a block that is saved and stored comes back, and no other byte changes. */
  lemma {:induction false} RestoredBytes(cfg: Config, mem: seq<Byte>, saved: seq<Byte>, i: nat, x: nat)
    requires cfg.Valid() && |mem| == |saved| == cfg.memory && i <= NUM_TAGS && x < |mem|
    ensures var m := Restored(cfg, mem, saved, i);
      && (m[x] == saved[x] || m[x] == mem[x])
      && ((exists j :: i <= j < NUM_TAGS && cfg.Stores(j) && cfg.base[j] <= x < cfg.base[j] + cfg.Extent(j)) ==> m[x] == saved[x])
      && ((forall j :: i <= j < NUM_TAGS && cfg.Stores(j) ==> !(cfg.base[j] <= x < cfg.base[j] + cfg.Extent(j))) ==> m[x] == mem[x])
    decreases NUM_TAGS - i
  {
    hide Config.Stores, Config.Saves, Config.Size, Config.Extent, LoadedBlock, Block;
    if i < NUM_TAGS {
      var next := if cfg.Saves(i) then LoadedBlock(cfg, mem, i, Block(cfg, saved, i)) else mem;
      OneRestored(cfg, mem, saved, i);
      StoredIsSaved(cfg, i);
      RestoredBytes(cfg, next, saved, i + 1, x);
    }
  }

  lemma StoredIsSaved(cfg: Config, i: nat)
    ensures cfg.Stores(i) ==> cfg.Saves(i)
  {
  }

  /** Loading what was saved on the same cart restores every saved block but the version text,
      into any memory, and touches nothing else. */
  lemma RoundTrip(cfg: Config, mem: seq<Byte>, saved: seq<Byte>)
    requires cfg.Valid() && |mem| == |saved| == cfg.memory
    ensures var data := Saved(cfg, saved, 0); var r := LoadAll(cfg, mem, data);
      && StartsWithVersion(data) && r.Loads? && OnlyBlocks(cfg, r.mem, mem)
      && forall i :: 0 <= i < NUM_TAGS && cfg.Saves(i) && i != VERSION_TAG ==> Block(cfg, r.mem, i) == Block(cfg, saved, i)
  {
    hide Config.Size, Config.Extent, Tag, Word, Config.Valid, Config.Saves, Config.Stores, LoadAll;
    SavedIsAccepted(cfg, mem, saved, 0);
    VersionFirst(cfg, saved);
    var m := Restored(cfg, mem, saved, 0);
    forall x | 0 <= x < |mem| && m[x] != mem[x] ensures InBlock(cfg, x) {
      RestoredBytes(cfg, mem, saved, 0, x);
    }
    forall i | 0 <= i < NUM_TAGS && cfg.Saves(i) && i != VERSION_TAG ensures Block(cfg, m, i) == Block(cfg, saved, i) {
      SavedIsStored(cfg, i);
      BlockRestored(cfg, mem, saved, i);
    }
  }

  lemma SavedIsStored(cfg: Config, i: nat)
    requires cfg.Saves(i) && i != VERSION_TAG
    ensures cfg.Stores(i)
  {
  }

  lemma BlockRestored(cfg: Config, mem: seq<Byte>, saved: seq<Byte>, i: nat)
    requires cfg.Valid() && |mem| == |saved| == cfg.memory && i < NUM_TAGS && cfg.Stores(i)
    ensures Block(cfg, Restored(cfg, mem, saved, 0), i) == Block(cfg, saved, i)
  {
    hide Config.Size, Config.Extent, Config.Stores, Restored;
    var m, at := Restored(cfg, mem, saved, 0), cfg.base[i];
    forall k | 0 <= k < cfg.Extent(i) ensures Block(cfg, m, i)[k] == Block(cfg, saved, i)[k] {
      RestoredBytes(cfg, mem, saved, 0, at + k);
    }
  }

  lemma VersionFirst(cfg: Config, saved: seq<Byte>)
    requires cfg.Valid() && |saved| == cfg.memory
    ensures StartsWithVersion(Saved(cfg, saved, 0))
  {
    hide Word, Tag, Block, Config.Valid;
    EntryParses(cfg, saved, 0, Saved(cfg, saved, 1));
    TagIsItself(0);
  }

  // ------------------------------------------------------------------ the format

  /** Four letters as they stand in a stream, low byte first. */
  function Spelled(a: char, b: char, c: char, d: char): nat {
    (a as int) + 0x100 * (b as int) + 0x1_0000 * (c as int) + 0x100_0000 * (d as int)
  }

  lemma TagLetters()
    ensures Tag(0) == Spelled('V', 'E', 'R', 'S') && Tag(1) == Spelled('C', 'P', 'U', 'S')
    ensures Tag(2) == Spelled('G', 'F', 'X', 'S') && Tag(3) == Spelled('R', 'A', 'M', ' ')
    ensures Tag(4) == Spelled('S', 'R', 'A', 'M') && Tag(5) == Spelled('V', 'R', 'M', '1')
    ensures Tag(6) == Spelled('V', 'R', 'M', '2') && Tag(7) == Spelled('V', 'R', 'M', '4')
    ensures Tag(8) == Spelled('M', 'A', 'P', 'R') && Tag(9) == Spelled('P', 'A', 'L', '2')
    ensures Tag(10) == Spelled('M', 'I', 'R', '2') && Tag(11) == Spelled('O', 'A', 'M', ' ')
    ensures Tag(12) == Spelled('S', 'N', 'D', '0') && Tag(13) == Spelled('S', 'N', 'D', '1')
    ensures Tag(14) == Spelled('T', 'I', 'M', 'E') && Tag(15) == Spelled('N', 'O', 'P', 'E')
  {
  }

  /** Words are written low byte first. */
  lemma WordBytesOrder(w: nat)
    requires w < 0x1_0000_0000
    ensures var b := WordBytes(w);
      w == (b[0] as int) + 0x100 * (b[1] as int) + 0x1_0000 * (b[2] as int) + 0x100_0000 * (b[3] as int)
  {
  }

  /** What a cart stores: every block at its size but the version text, and the video memories it has. */
  lemma BlockTable(cfg: Config, i: nat)
    ensures cfg.Saves(i) <==> i <= 14 && i != 12 && (i == 5 ==> cfg.hasVram) && (i == 7 ==> cfg.fourscreen)
    ensures cfg.Stores(i) <==> cfg.Saves(i) && i != 0
    ensures cfg.Saves(i) ==> cfg.Extent(i) == if i == 0 then cfg.versionSize else if i == 13 then cfg.soundSize
      else [0, 32, 40, 0x800, 0x2000, 0x2000, 0x800, 0x800, 48, 32, 4, 256, 0, 0, 208][i]
  {
  }
}
