/**
 The chunked checksum manifest: one CRC-32 per chunk of a stream that arrives in pieces.

 The class keeps the stream it has consumed as a ghost field. `Blocks` and `Tail` cut that
 stream without reference to how it arrived, so a contract that speaks of them says that
 the pieces do not matter.
 */
module CrcChunks {
  import opened Collections
  import opened Crc32

  /** The complete chunks of a stream, in order. */
  ghost function Blocks(s: seq<Byte>, size: nat): seq<seq<Byte>>
    requires size > 0
  {
    if |s| < size then [] else [s[..size]] + Blocks(s[size..], size)
  }

  /** What follows the last complete chunk. */
  ghost function Tail(s: seq<Byte>, size: nat): (t: seq<Byte>)
    requires size > 0
    ensures |t| < size
  {
    if |s| < size then s else Tail(s[size..], size)
  }

  /** The chunks of a whole stream: the last one may be short, and none is empty. */
  ghost function Chunks(s: seq<Byte>, size: nat): seq<seq<Byte>>
    requires size > 0
  {
    Blocks(s, size) + if Tail(s, size) == [] then [] else [Tail(s, size)]
  }

  class Manifest {
    var values: array?<Word>
    var capacity: nat
    var count: nat
    var chunkSize: nat
    var chunkBytes: nat
    var totalBytes: nat
    var current: Word
    const table: array<Word>
    ghost var stream: seq<Byte>

    ghost predicate Ready()
      reads this, values, table
    {
      && values != null && values != table && chunkSize > 0
      && count <= capacity <= values.Length
      && TableReady(table[..])
      && totalBytes == |stream| % 0x1_0000_0000_0000_0000
    }

    /** Between calls, while every complete chunk has found room. */
    ghost predicate Valid()
      reads this, values, table
    {
      && Ready()
      && count == |Blocks(stream, chunkSize)|
      && (forall i :: 0 <= i < count ==> values[i] == Checksum(Blocks(stream, chunkSize)[i]))
      && chunkBytes == |Tail(stream, chunkSize)|
      && current == Feed(START, Tail(stream, chunkSize))
    }

    /** The last chunk is complete but there is no room left for its checksum. */
    ghost predicate Stuck()
      reads this, values, table
    {
      && Ready()
      && count == capacity && |Blocks(stream, chunkSize)| == count + 1
      && (forall i :: 0 <= i < count ==> values[i] == Checksum(Blocks(stream, chunkSize)[i]))
      && Tail(stream, chunkSize) == [] && chunkBytes == chunkSize
      && current == Feed(START, Blocks(stream, chunkSize)[count])
    }

    constructor (table: array<Word>)
      ensures this.table == table && values == null && chunkSize == 0
    {
      this.table := table;
      values := null;
      capacity, count, chunkSize, chunkBytes, totalBytes := 0, 0, 0, 0, 0;
      current := START;
      stream := [];
    }

    method Init(chunkSize: nat, values: array?<Word>, capacity: nat) returns (ret: int)
      requires table.Length == 256
      requires values != null ==> capacity <= values.Length && values != table
      modifies this, table
      ensures ret == if chunkSize == 0 || values == null || capacity == 0 then -1 else 0
      ensures ret == 0 ==> Valid() && stream == [] && this.values == values
      ensures ret == 0 ==> this.capacity == capacity && this.chunkSize == chunkSize
      ensures ret == -1 ==> unchanged(this) && unchanged(table)
    {
      if chunkSize == 0 || values == null || capacity == 0 {
        return -1;
      }
      this.values, this.capacity, this.chunkSize := values, capacity, chunkSize;
      count, chunkBytes, totalBytes := 0, 0, 0;
      stream := [];
      PrepareTable(table);
      current := START;
      ret := 0;
    }

    /** Stores the checksum of the chunk in progress and starts the next one. */
    method FinishCurrent() returns (ret: int)
      requires Ready()
      modifies this`count, this`chunkBytes, this`current, values
      ensures Ready()
      ensures ret == if old(count) == capacity then -2 else 0
      ensures ret == -2 ==> count == old(count) && chunkBytes == old(chunkBytes) && current == old(current)
      ensures ret == -2 ==> values[..] == old(values[..])
      ensures ret == 0 ==> count == old(count) + 1 && chunkBytes == 0 && current == START
      ensures ret == 0 ==> values[..] == old(values[..])[old(count) := Invert(old(current))]
    {
      hide TableReady;
      if count >= capacity {
        return -2;
      }
      values[count] := Invert(current);
      count := count + 1;
      chunkBytes := 0;
      current := START;
      ret := 0;
    }

    /** Consumes one piece that ends at or before the end of the chunk in progress. */
    method TakePiece(bytes: seq<Byte>, consumed: nat, n: nat) returns (ret: int)
      requires Valid() && consumed + n <= |bytes| && 0 < n <= chunkSize - chunkBytes
      modifies this`count, this`chunkBytes, this`current, this`totalBytes, this`stream, values
      ensures stream == old(stream) + bytes[consumed..consumed + n]
      ensures if ret == 0 then Valid() else ret == -2 && Stuck()
    {
      hide TableReady, Feed, Checksum, Blocks, Tail;
      ghost var piece := bytes[consumed..consumed + n];
      ghost var was, done := stream, Blocks(stream, chunkSize);
      AppendPiece(was, piece, chunkSize);
      FeedTail(was, piece, chunkSize);
      current := Crc32.Update(table, current, bytes, consumed, n);
      chunkBytes := chunkBytes + n;
      totalBytes := (totalBytes + n) % 0x1_0000_0000_0000_0000;
      stream := stream + piece;
      ret := 0;
      if chunkBytes == chunkSize {
        ghost var before := values[..];
        ret := FinishCurrent();
        assert forall i :: 0 <= i < |done| ==> values[i] == values[..][i] == before[i];
      }
    }

    /** Consumes data, in pieces that never cross the end of a chunk. */
    method Update(bytes: seq<Byte>) returns (ret: int)
      requires values != null && chunkSize > 0 ==> Valid() || Stuck()
      modifies this`count, this`chunkBytes, this`current, this`totalBytes, this`stream, values
      ensures ret == -1 <==> values == null || chunkSize == 0
      ensures ret == -1 ==> stream == old(stream) && count == old(count)
      ensures ret != -1 && old(Valid()) && |Blocks(old(stream) + bytes, chunkSize)| <= capacity ==>
        ret == 0 && Valid() && stream == old(stream) + bytes
      ensures ret != -1 && old(Valid()) && |Blocks(old(stream) + bytes, chunkSize)| > capacity ==>
        ret == -2 && Stuck() && stream <= old(stream) + bytes
      ensures ret != -1 && old(Stuck()) ==>
        ret == (if bytes == [] then 0 else -2) && Stuck() && stream == old(stream)
    {
      hide TableReady, Feed, Checksum, Tail, Blocks;
      if values == null || chunkSize == 0 {
        return -1;
      }
      assert Stuck() ==> !Valid();
      var consumed := 0;
      ghost var start := stream;
      assert bytes[..0] == [] && start + [] == start;
      while consumed < |bytes|
        invariant 0 <= consumed <= |bytes|
        invariant if old(Stuck()) then Stuck() && stream == start && consumed == 0
          else Valid() && stream == start + bytes[..consumed]
        decreases |bytes| - consumed
      {
        var room := chunkSize - chunkBytes;
        var n := if |bytes| - consumed < room then |bytes| - consumed else room;
        if n == 0 {
          // only a stuck manifest has no room: nothing is taken and the same failure repeats
          TailIsShort(stream, chunkSize);
          ret := FinishCurrent();
          return;
        }
        ret := TakePiece(bytes, consumed, n);
        assert bytes[..consumed] + bytes[consumed..consumed + n] == bytes[..consumed + n];
        consumed := consumed + n;
        assert stream == start + bytes[..consumed];
        if ret < 0 {
          assert stream + bytes[consumed..] == start + bytes;
          BlocksGrow(stream, bytes[consumed..], chunkSize);
          return;
        }
      }
      assert bytes[..consumed] == bytes;
      ret := 0;
    }

    /** Stores the short last chunk, if there is one: the manifest then covers the stream. */
    method Finish() returns (ret: int)
      requires values != null && chunkSize > 0 ==> Valid() || Stuck()
      modifies this`count, this`chunkBytes, this`current, values
      ensures ret == -1 <==> values == null || chunkSize == 0
      ensures ret == 0 || ret == -1 || ret == -2
      ensures ret != -1 ==> (ret == 0 <==> |Chunks(stream, chunkSize)| <= capacity)
      ensures ret == 0 ==> count == |Chunks(stream, chunkSize)|
      ensures ret == 0 ==> forall i :: 0 <= i < count ==> values[i] == Checksum(Chunks(stream, chunkSize)[i])
    {
      hide TableReady, Feed, Checksum, Blocks, Tail;
      if values == null || chunkSize == 0 {
        return -1;
      }
      ret := 0;
      if chunkBytes != 0 {
        ChecksumOf(Tail(stream, chunkSize));
        ret := FinishCurrent();
        assert ret == 0 ==> forall i :: 0 <= i < count ==> values[..][i] == values[i];
      }
    }
  }

  // ------------------------------------------------------------------ how a stream is cut

  lemma FeedTail(s: seq<Byte>, piece: seq<Byte>, size: nat)
    requires size > 0
    ensures Feed(Feed(START, Tail(s, size)), piece) == Feed(START, Tail(s, size) + piece)
    ensures Checksum(Tail(s, size) + piece) == Invert(Feed(START, Tail(s, size) + piece))
    ensures Feed(START, []) == START
  {
    FeedInTwo(START, Tail(s, size), piece);
  }

  lemma TailIsShort(s: seq<Byte>, size: nat)
    requires size > 0
    ensures |Tail(s, size)| < size
  {
  }

  lemma ChecksumOf(data: seq<Byte>)
    ensures Checksum(data) == Invert(Feed(START, data))
  {
  }

  /** A piece that fits extends the tail, and completes a chunk when it fills it. */
  lemma {:induction false} AppendPiece(s: seq<Byte>, piece: seq<Byte>, size: nat)
    requires size > 0 && |Tail(s, size)| + |piece| <= size
    ensures |Tail(s, size)| + |piece| < size ==>
      Blocks(s + piece, size) == Blocks(s, size) && Tail(s + piece, size) == Tail(s, size) + piece
    ensures |Tail(s, size)| + |piece| == size ==>
      Blocks(s + piece, size) == Blocks(s, size) + [Tail(s, size) + piece] && Tail(s + piece, size) == []
  {
    if |s| < size {
      if |s| + |piece| == size {
        assert (s + piece)[..size] == s + piece && (s + piece)[size..] == [];
      }
    } else {
      AppendPiece(s[size..], piece, size);
      assert (s + piece)[..size] == s[..size] && (s + piece)[size..] == s[size..] + piece;
    }
  }

  lemma {:induction false} BlocksGrow(s: seq<Byte>, more: seq<Byte>, size: nat)
    requires size > 0
    ensures |Blocks(s + more, size)| >= |Blocks(s, size)|
  {
    if |s| >= size {
      BlocksGrow(s[size..], more, size);
      assert (s + more)[size..] == s[size..] + more;
    }
  }

  /** Cutting loses nothing: the chunks joined together are the stream. */
  lemma {:induction false} ChunksJoinBack(s: seq<Byte>, size: nat)
    requires size > 0
    ensures Flatten(Blocks(s, size)) + Tail(s, size) == s
    ensures Flatten(Chunks(s, size)) == s
  {
    hide Chunks;
    if |s| >= size {
      ChunksJoinBack(s[size..], size);
      var rest := Blocks(s[size..], size);
      assert Blocks(s, size)[1..] == rest;
      assert Flatten(Blocks(s, size)) == s[..size] + Flatten(rest);
      assert s[..size] + (Flatten(rest) + Tail(s[size..], size)) == s;
    }
    JoinedChunks(s, size);
  }

  lemma JoinedChunks(s: seq<Byte>, size: nat)
    requires size > 0
    ensures Flatten(Chunks(s, size)) == Flatten(Blocks(s, size)) + Tail(s, size)
  {
    hide Blocks, Tail;
    if Tail(s, size) == [] {
      assert Chunks(s, size) == Blocks(s, size);
    }
    FlattenAppend(Blocks(s, size), [Tail(s, size)]);
    FlattenOne(Tail(s, size));
  }

  /** Every chunk but the last has exactly the chunk size. */
  lemma {:induction false} ChunkSizes(s: seq<Byte>, size: nat)
    requires size > 0
    ensures forall i :: 0 <= i < |Blocks(s, size)| ==> |Blocks(s, size)[i]| == size
    ensures |s| == |Blocks(s, size)| * size + |Tail(s, size)|
  {
    if |s| >= size {
      ChunkSizes(s[size..], size);
      var k := |Blocks(s[size..], size)|;
      assert |Blocks(s, size)| == k + 1;
      assert (k + 1) * size == k * size + size;
    }
  }
}
