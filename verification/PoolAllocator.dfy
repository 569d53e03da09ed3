/** The memory pool (utils/rapidjson/allocators.h): blocks are cut from the newest chunk one
    after the other, and only the last one can grow in place. */
module PoolAllocator {
  import opened Bytes
  import opened Wrappers

  const WORD: nat := 0x1_0000_0000_0000_0000
  /** What the header of a chunk takes. */
  const HEADER := 24

  /** Rounds up to a multiple of eight. */
  function Align(n: nat): (r: nat)
    ensures n <= r < n + 8 && r % 8 == 0
    ensures n % 8 == 0 ==> r == n
  {
    (n + 7) / 8 * 8
  }

  /** The rounding of the source, in a 64-bit word. */
  function WordAlign(n: nat): nat
  {
    (n + 7) % WORD / 8 * 8
  }

  function WordSum(m: nat, n: nat): (r: nat)
    ensures r < WORD
  {
    (m + n) % WORD
  }

  /** A piece of memory from the base allocator: the bytes behind its header, how many there
      are meant to be, and how many of them are given out. */
  datatype Chunk = Chunk(data: array<Byte>, capacity: nat, size: nat)

  /** A pointer given out, with the size asked for. Chunks are numbered from the oldest. */
  datatype Block = Block(chunk: nat, offset: nat, size: nat)

  function End(b: Block): nat
  {
    b.offset + Align(b.size)
  }

  predicate Apart(a: Block, b: Block)
  {
    a.chunk != b.chunk || End(a) <= b.offset || End(b) <= a.offset
  }

  ghost predicate Inside(b: Block, chunks: seq<Chunk>)
  {
    b.size > 0 && b.chunk < |chunks| && b.offset % 8 == 0 && End(b) <= chunks[b.chunk].size
  }

  /** What is given out of a chunk lies in its memory. */
  predicate Covered(c: Chunk)
  {
    c.size <= c.capacity == c.data.Length && HEADER + c.capacity < WORD && c.size % 8 == 0
  }

  ghost predicate Sound(chunks: seq<Chunk>, live: set<Block>)
  {
    && (forall i :: 0 <= i < |chunks| ==> Covered(chunks[i]))
    && (forall i, j :: 0 <= i < j < |chunks| ==> chunks[i].data != chunks[j].data)
    && (forall b <- live :: Inside(b, chunks))
    && (forall a <- live, b <- live :: a != b ==> Apart(a, b))
  }

  function Sizes(chunks: seq<Chunk>): nat
  {
    if chunks == [] then 0 else chunks[0].size + Sizes(chunks[1..])
  }

  function Capacities(chunks: seq<Chunk>): nat
  {
    if chunks == [] then 0 else chunks[0].capacity + Capacities(chunks[1..])
  }

  /** No more is given out than there is. */
  lemma {:induction false} SizeWithinCapacity(chunks: seq<Chunk>)
    requires forall i :: 0 <= i < |chunks| ==> Covered(chunks[i])
    ensures Sizes(chunks) <= Capacities(chunks)
    decreases |chunks|
  {
    if chunks != [] {
      assert forall i :: 0 <= i < |chunks[1..]| ==> chunks[1..][i] == chunks[i + 1];
      SizeWithinCapacity(chunks[1..]);
    }
  }

  // ----- what a request does to the chunks --------------------------------

  /** Whether the newest chunk takes a request, as the source decides it. */
  predicate Takes(c: Chunk, size: nat)
  {
    WordSum(c.size, WordAlign(size)) <= c.capacity
  }

  function Cut(c: Chunk, size: nat): Chunk
  {
    c.(size := WordSum(c.size, WordAlign(size)))
  }

  function LargerOf(m: nat, n: nat): (r: nat)
    ensures r == m || r == n
    ensures m <= r && n <= r
  {
    if m > n then m else n
  }

  /** How many bytes lie behind the header in the memory asked for; none when the sum wraps,
      for then it is smaller than a header. */
  function BehindHeader(capacity: nat): (r: nat)
  {
    if HEADER + capacity < WORD then capacity else 0
  }

  /** Some memory comes back; asked for nothing, the base allocator gives none. */
  predicate Provides(capacity: nat, granted: bool)
  {
    granted && WordSum(HEADER, capacity) != 0
  }

  /** The block a request gives, if any. */
  function Handed(chunks: seq<Chunk>, chunkCapacity: nat, size: nat, granted: bool): (r: Option<Block>)
    ensures r.Some? ==> r.value.size == size > 0
  {
    if size == 0 then None
    else if chunks != [] && Takes(chunks[|chunks| - 1], size) then Some(Block(|chunks| - 1, chunks[|chunks| - 1].size, size))
    else if Provides(LargerOf(chunkCapacity, WordAlign(size)), granted) then Some(Block(|chunks|, 0, size))
    else None
  }

  /** No sum of a request wraps: its rounding, the end of the block in the newest chunk, and
      the memory for a new chunk where one is needed. */
  predicate Fits(chunks: seq<Chunk>, chunkCapacity: nat, size: nat)
  {
    && Align(size) < WORD
    && (chunks != [] ==> chunks[|chunks| - 1].size + Align(size) < WORD)
    && (chunks == [] || chunks[|chunks| - 1].size + Align(size) > chunks[|chunks| - 1].capacity ==>
          HEADER + LargerOf(chunkCapacity, Align(size)) < WORD)
  }

  lemma WordAlignExact(n: nat)
    requires n < WORD
    ensures WordAlign(n) == (if Align(n) < WORD then Align(n) else 0)
    ensures Align(n) < WORD <==> n <= WORD - 8
    ensures n > 0 ==> Align(n) > 0
  {
  }

  lemma WordSumExact(m: nat, n: nat)
    requires m < WORD && n < WORD
    ensures WordSum(m, n) == if m + n < WORD then m + n else m + n - WORD
  {
  }

  lemma AlignedSum(m: nat, n: nat)
    requires m % 8 == 0
    ensures (m + Align(n)) % 8 == 0
  {
  }

  /** A block whose end wraps, or whose chunk is not the memory it is meant to be, is not
      where the pool says. */
  predicate InMemory(chunks: seq<Chunk>, b: Block)
  {
    b.chunk < |chunks| && Covered(chunks[b.chunk]) && End(b) <= chunks[b.chunk].size
  }

  lemma SoundIsInMemory(chunks: seq<Chunk>, live: set<Block>, b: Block)
    requires Sound(chunks, live) && b in live
    ensures InMemory(chunks, b)
  {
    assert Inside(b, chunks);
  }

  lemma ChunksCovered(chunks: seq<Chunk>, live: set<Block>, i: nat)
    requires Sound(chunks, live) && i < |chunks|
    ensures Covered(chunks[i])
  {
  }

  /** Cutting a block from the end of the newest chunk keeps the pool sound. */
  lemma CutIsSound(chunks: seq<Chunk>, live: set<Block>, size: nat)
    requires Sound(chunks, live) && chunks != [] && size > 0
    requires chunks[|chunks| - 1].size + Align(size) <= chunks[|chunks| - 1].capacity
    ensures var n := |chunks| - 1;
            var b := Block(n, chunks[n].size, size);
            && Sound(chunks[n := chunks[n].(size := chunks[n].size + Align(size))], live + {b})
            && b !in live && forall a <- live :: Apart(a, b)
  {
    hide Align;
    var n := |chunks| - 1;
    var b := Block(n, chunks[n].size, size);
    var next := chunks[n := chunks[n].(size := chunks[n].size + Align(size))];
    AlignedSum(chunks[n].size, size);
    assert Covered(chunks[n]);
    forall a <- live
      ensures Inside(a, next) && Apart(a, b) && Apart(b, a) && a != b
    {
      assert Inside(a, chunks);
    }
  }

  /** The newest chunk takes a request soundly if and only if neither the rounding nor the
      end of the block wraps. */
  lemma CutIsSoundExactly(chunks: seq<Chunk>, live: set<Block>, size: nat)
    requires Sound(chunks, live) && chunks != [] && 0 < size < WORD && Takes(chunks[|chunks| - 1], size)
    ensures var n := |chunks| - 1;
            var b := Block(n, chunks[n].size, size);
            && (Sound(chunks[n := Cut(chunks[n], size)], live + {b}) <==> Align(size) < WORD && chunks[n].size + Align(size) < WORD)
            && (InMemory(chunks[n := Cut(chunks[n], size)], b) <==> Align(size) < WORD && chunks[n].size + Align(size) < WORD)
  {
    hide Sound, Align, WordAlign, WordSum;
    var n := |chunks| - 1;
    var b := Block(n, chunks[n].size, size);
    var next := chunks[n := Cut(chunks[n], size)];
    ChunksCovered(chunks, live, n);
    WordAlignExact(size);
    WordSumExact(chunks[n].size, WordAlign(size));
    if Align(size) < WORD && chunks[n].size + Align(size) < WORD {
      CutIsSound(chunks, live, size);
    } else if Sound(next, live + {b}) {
      SoundIsInMemory(next, live + {b}, b);
    }
  }

  /** Sixteen bytes are given out. A request for 2^64 - 16 more sets the count of the bytes
      given out to zero, and the next request is given the first sixteen bytes again. */
  lemma LiveBytesGivenAgain(c: Chunk)
    requires c.size == 16 <= c.capacity
    ensures Takes(c, WORD - 16) && Cut(c, WORD - 16).size == 0
    ensures var second := Cut(c, WORD - 16);
            Takes(second, 16) && !Apart(Block(0, 0, 16), Block(0, second.size, 16))
  {
  }

  lemma ReplacedApart(live: set<Block>, b: Block, r: Block)
    requires forall a <- live, c <- live :: a != c ==> Apart(a, c)
    requires forall a <- live - {b} :: Apart(a, r) && Apart(r, a)
    ensures forall a <- live - {b} + {r}, c <- live - {b} + {r} :: a != c ==> Apart(a, c)
  {
    hide Apart;
  }

  /** Growing the last block of the newest chunk keeps the pool sound. */
  lemma GrowthIsSound(chunks: seq<Chunk>, live: set<Block>, b: Block, size: nat)
    requires Sound(chunks, live) && b in live && b.chunk == |chunks| - 1 && End(b) == chunks[b.chunk].size
    requires Align(b.size) < Align(size) && b.offset + Align(size) <= chunks[b.chunk].capacity
    ensures Sound(chunks[b.chunk := chunks[b.chunk].(size := b.offset + Align(size))], live - {b} + {b.(size := size)})
  {
    hide Align;
    var grown := b.(size := size);
    var next := chunks[b.chunk := chunks[b.chunk].(size := b.offset + Align(size))];
    assert Inside(b, chunks) && Covered(chunks[b.chunk]);
    OnlyZeroAligns(size);
    AlignedSum(b.offset, size);
    forall a <- live - {b}
      ensures Inside(a, next) && Apart(a, grown) && Apart(grown, a)
    {
      assert Inside(a, chunks) && Apart(a, b);
    }
    assert Inside(grown, next);
    hide Inside, Apart;
    ReplacedApart(live, b, grown);
  }

  /** Growth that the source takes for fitting is sound if and only if the new end of the
      block does not wrap. */
  lemma GrowthIsSoundExactly(chunks: seq<Chunk>, live: set<Block>, b: Block, size: nat)
    requires Sound(chunks, live) && b in live && b.chunk == |chunks| - 1 && End(b) == chunks[b.chunk].size
    requires Align(b.size) < Align(size) < WORD
    requires WordSum(chunks[b.chunk].size, Align(size) - Align(b.size)) <= chunks[b.chunk].capacity
    ensures Sound(chunks[b.chunk := chunks[b.chunk].(size := WordSum(chunks[b.chunk].size, Align(size) - Align(b.size)))],
                  live - {b} + {b.(size := size)})
       <==> b.offset + Align(size) < WORD
  {
    hide Sound, Align, WordSum;
    var c := chunks[b.chunk];
    ChunksCovered(chunks, live, b.chunk);
    WordSumExact(c.size, Align(size) - Align(b.size));
    var next := chunks[b.chunk := c.(size := WordSum(c.size, Align(size) - Align(b.size)))];
    if b.offset + Align(size) < WORD {
      GrowthIsSound(chunks, live, b, size);
    } else if Sound(next, live - {b} + {b.(size := size)}) {
      SoundIsInMemory(next, live - {b} + {b.(size := size)}, b.(size := size));
    }
  }

  lemma OnlyZeroAligns(n: nat)
    ensures Align(n) > 0 ==> n > 0
  {
  }

  /** A block that is asked to shrink stays where it is. */
  lemma ShrinkIsSound(chunks: seq<Chunk>, live: set<Block>, b: Block, size: nat)
    requires Sound(chunks, live) && b in live && 0 < size && Align(size) <= Align(b.size)
    ensures Sound(chunks, live - {b} + {b.(size := size)})
  {
    hide Align;
    assert Inside(b, chunks);
    forall a <- live - {b}
      ensures Apart(a, b.(size := size)) && Apart(b.(size := size), a)
    {
      assert Inside(a, chunks) && Apart(a, b);
    }
  }

  /** What the source takes for shrinking is sound if and only if the rounding does not wrap. */
  lemma ShrinkIsSoundExactly(chunks: seq<Chunk>, live: set<Block>, b: Block, size: nat)
    requires Sound(chunks, live) && b in live && 0 < size < WORD && WordAlign(size) <= Align(b.size)
    ensures Sound(chunks, live - {b} + {b.(size := size)}) <==> Align(size) < WORD
  {
    hide Sound, Align, WordAlign;
    WordAlignExact(size);
    if Align(size) < WORD {
      ShrinkIsSound(chunks, live, b, size);
    } else if Sound(chunks, live - {b} + {b.(size := size)}) {
      SoundIsInMemory(chunks, live - {b} + {b.(size := size)}, b.(size := size));
    }
  }

  lemma FewerIsSound(chunks: seq<Chunk>, live: set<Block>, b: Block)
    requires Sound(chunks, live)
    ensures Sound(chunks, live - {b})
  {
  }

  lemma NewChunkIsSound(chunks: seq<Chunk>, live: set<Block>, chunk: Chunk)
    requires Sound(chunks, live) && Covered(chunk)
    requires forall i :: 0 <= i < |chunks| ==> chunks[i].data != chunk.data
    ensures Sound(chunks + [chunk], live)
  {
    forall b <- live
      ensures Inside(b, chunks + [chunk])
    {
      assert Inside(b, chunks);
    }
  }

  /** The bytes of a block have not changed. */
  twostate predicate Kept(chunks: seq<Chunk>, b: Block)
    reads if b.chunk < |chunks| then {chunks[b.chunk].data} else {}
  {
    && b.chunk < |chunks| && End(b) <= chunks[b.chunk].data.Length
    && chunks[b.chunk].data[b.offset..End(b)] == old(chunks[b.chunk].data[b.offset..End(b)])
  }

  /** A block now starts with what another one held before, up to the smaller size. */
  twostate predicate SameStart(before: seq<Chunk>, b: Block, new after: seq<Chunk>, r: Block)
    reads if r.chunk < |after| then {after[r.chunk].data} else {}
  {
    var kept := if b.size < r.size then b.size else r.size;
    && b.chunk < |before| && b.offset + kept <= before[b.chunk].data.Length
    && r.chunk < |after| && r.offset + kept <= after[r.chunk].data.Length
    && after[r.chunk].data[r.offset..r.offset + kept] == old(before[b.chunk].data[b.offset..b.offset + kept])
  }

  /** The block is the last one given out of the newest chunk, and the chunk has room for its
      new size. */
  predicate GrowsInPlace(chunks: seq<Chunk>, b: Block, newSize: nat)
  {
    && chunks != [] && b.chunk == |chunks| - 1 && End(b) == chunks[|chunks| - 1].size
    && b.offset + Align(newSize) <= chunks[|chunks| - 1].capacity
  }

  /** No sum of a change of size wraps. */
  predicate Resizes(chunks: seq<Chunk>, chunkCapacity: nat, b: Block, newSize: nat)
  {
    && Align(newSize) < WORD
    && (Align(newSize) <= Align(b.size) || GrowsInPlace(chunks, b, newSize) || Fits(chunks, chunkCapacity, Align(newSize)))
  }

  class Pool {
    const chunkCapacity: nat
    const userBuffer: Option<array<Byte>>
    /** Oldest first; the last one is the head of the list. */
    var chunks: seq<Chunk>
    /** The blocks given out and not given up since. */
    ghost var live: set<Block>

    /** What every run keeps: the numbers are 64-bit words, and the user's buffer is the
        oldest chunk. */
    ghost predicate WellTyped()
      reads this
    {
      && chunkCapacity < WORD
      && (forall i :: 0 <= i < |chunks| ==> chunks[i].size < WORD && chunks[i].capacity < WORD)
      && (forall i, j :: 0 <= i < j < |chunks| ==> chunks[i].data != chunks[j].data)
      && (userBuffer.Some? ==> chunks != [] && chunks[0].data == userBuffer.value
                               && chunks[0].capacity == userBuffer.value.Length < WORD - HEADER)
    }

    ghost predicate Valid()
      reads this
    {
      WellTyped() && Sound(chunks, live)
    }

    ghost function Datas(): set<object>
      reads this
    {
      set i | 0 <= i < |chunks| :: chunks[i].data
    }

    constructor (chunkSize: nat)
      requires chunkSize < WORD
      ensures Valid() && live == {} && chunks == [] && chunkCapacity == chunkSize
    {
      chunkCapacity, userBuffer := chunkSize, None;
      chunks, live := [], {};
    }

    /** With a buffer supplied by the user as the first chunk. */
    constructor FromBuffer(buffer: array<Byte>, chunkSize: nat)
      requires chunkSize < WORD && HEADER + buffer.Length < WORD
      ensures Valid() && live == {} && chunks == [Chunk(buffer, buffer.Length, 0)] && chunkCapacity == chunkSize
    {
      chunkCapacity, userBuffer := chunkSize, Some(buffer);
      chunks, live := [Chunk(buffer, buffer.Length, 0)], {};
    }

    /** Gives all chunks back but the user's, which starts again empty. */
    method Clear()
      requires WellTyped()
      modifies this`chunks, this`live
      ensures Valid() && live == {}
      ensures chunks == if userBuffer.Some? then [Chunk(userBuffer.value, userBuffer.value.Length, 0)] else []
    {
      live := {};
      while chunks != [] && !(userBuffer.Some? && chunks[|chunks| - 1].data == userBuffer.value)
        invariant WellTyped() && live == {}
        decreases |chunks|
      {
        chunks := chunks[..|chunks| - 1];
      }
      if chunks != [] {
        chunks := chunks[|chunks| - 1 := chunks[|chunks| - 1].(size := 0)];
      }
    }

    /** The bytes given out, summed in a 64-bit word. */
    method Size() returns (size: nat)
      ensures size == Sizes(chunks) % WORD
    {
      size := 0;
      var i := |chunks|;
      assert chunks[i..] == [];
      while i > 0
        invariant 0 <= i <= |chunks| && size == Sizes(chunks[i..]) % WORD
      {
        i := i - 1;
        assert chunks[i..][1..] == chunks[i + 1..];
        WordSumOfSum(chunks[i].size, Sizes(chunks[i + 1..]));
        size := WordSum(size, chunks[i].size);
      }
      assert chunks[0..] == chunks;
    }

    method Capacity() returns (capacity: nat)
      ensures capacity == Capacities(chunks) % WORD
    {
      capacity := 0;
      var i := |chunks|;
      assert chunks[i..] == [];
      while i > 0
        invariant 0 <= i <= |chunks| && capacity == Capacities(chunks[i..]) % WORD
      {
        i := i - 1;
        assert chunks[i..][1..] == chunks[i + 1..];
        WordSumOfSum(chunks[i].capacity, Capacities(chunks[i + 1..]));
        capacity := WordSum(capacity, chunks[i].capacity);
      }
      assert chunks[0..] == chunks;
    }

    /** A new chunk; sound when the sum with the header does not wrap. */
    method AddChunk(capacity: nat, granted: bool) returns (ok: bool)
      requires WellTyped() && capacity < WORD
      modifies this`chunks
      ensures WellTyped() && ok == Provides(capacity, granted)
      ensures !ok ==> chunks == old(chunks)
      ensures ok ==> |chunks| == |old(chunks)| + 1 && chunks[..|chunks| - 1] == old(chunks)
      ensures ok ==> var c := chunks[|chunks| - 1]; c.size == 0 && c.capacity == capacity && c.data.Length == BehindHeader(capacity)
      ensures ok ==> fresh(chunks[|chunks| - 1].data)
      ensures old(Valid()) && ok ==> (Valid() <==> HEADER + capacity < WORD)
    {
      if Provides(capacity, granted) {
        var data := new Byte[BehindHeader(capacity)];
        if Sound(chunks, live) && HEADER + capacity < WORD {
          NewChunkIsSound(chunks, live, Chunk(data, capacity, 0));
        }
        chunks := chunks + [Chunk(data, capacity, 0)];
        assert chunks[|chunks| - 1] == Chunk(data, capacity, 0);
        return true;
      }
      return false;
    }

    /** The block the sums of the source lead to. It is apart from all live ones, and the pool
        stays sound, if and only if none of them wraps. */
    method Malloc(size: nat, granted: bool) returns (r: Option<Block>)
      requires WellTyped() && size < WORD
      modifies this`chunks, this`live
      ensures WellTyped() && r == Handed(old(chunks), chunkCapacity, size, granted)
      ensures r.None? ==> chunks == old(chunks) && live == old(live)
      ensures r.Some? ==> live == old(live) + {r.value} && |chunks| == r.value.chunk + 1
      ensures r.Some? ==> chunks[..r.value.chunk] == old(chunks)[..r.value.chunk]
      ensures r.Some? && r.value.chunk < |old(chunks)| ==> chunks[r.value.chunk] == Cut(old(chunks)[r.value.chunk], size)
      ensures r.Some? && r.value.chunk == |old(chunks)| ==>
                var c := chunks[r.value.chunk]; c.capacity == LargerOf(chunkCapacity, WordAlign(size)) && c.size == WordAlign(size)
      ensures |old(chunks)| <= |chunks| && forall i :: 0 <= i < |old(chunks)| ==> chunks[i].data == old(chunks)[i].data
      ensures forall i :: |old(chunks)| <= i < |chunks| ==> fresh(chunks[i].data)
      ensures old(Valid()) && r.None? ==> Valid() && (size == 0 || !granted || !Fits(old(chunks), chunkCapacity, size))
      ensures old(Valid()) && r.Some? ==> (Valid() <==> Fits(old(chunks), chunkCapacity, size))
      ensures old(Valid()) && r.Some? ==> (InMemory(chunks, r.value) <==> Fits(old(chunks), chunkCapacity, size))
      ensures old(Valid()) && r.Some? ==> r.value !in old(live)
      ensures old(Valid()) && r.Some? && Valid() ==> forall b <- old(live) :: Apart(b, r.value)
    {
      hide Sound, Align, WordAlign, WordSum, Apart, InMemory, Fits;
      if size == 0 {
        return None;
      }
      var aligned := WordAlign(size);
      WordAlignExact(size);
      if chunks == [] || WordSum(chunks[|chunks| - 1].size, aligned) > chunks[|chunks| - 1].capacity {
        var ok := AddChunk(LargerOf(chunkCapacity, aligned), granted);
        if !ok {
          NothingProvided(old(chunks), old(live), chunkCapacity, size, granted);
          return None;
        }
      }
      if Sound(old(chunks), live) {
        HandedIsSoundExactly(old(chunks), live, chunkCapacity, chunks, size);
        HandedIsNew(old(chunks), live, chunkCapacity, size, granted);
      }
      WordSumExact(0, aligned);
      var block := GiveOut(size);
      return Some(block);
    }

    /** Cuts a block from the end of the newest chunk. */
    method GiveOut(size: nat) returns (b: Block)
      requires WellTyped() && chunks != []
      modifies this`chunks, this`live
      ensures WellTyped() && |chunks| == |old(chunks)| && b == Block(|chunks| - 1, old(chunks)[|chunks| - 1].size, size)
      ensures chunks == old(chunks)[|chunks| - 1 := Cut(old(chunks)[|chunks| - 1], size)] && live == old(live) + {b}
    {
      var n := |chunks| - 1;
      b := Block(n, chunks[n].size, size);
      chunks := chunks[n := chunks[n].(size := WordSum(chunks[n].size, WordAlign(size)))];
      live := live + {b};
    }

    /** Changes the size of a block: the same block when it shrinks or when it is the last and
        there is room, a copy in a new block otherwise. The pool stays sound if and only if
        no sum wraps. */
    method Realloc(original: Option<Block>, newSize: nat, granted: bool) returns (r: Option<Block>)
      requires Valid() && newSize < WORD && (original.Some? ==> original.value in live)
      modifies this`chunks, this`live, Datas()
      ensures r.Some? ==> r.value.size == newSize > 0 && r.value in live
      ensures r.Some? ==> live == (if original.Some? then old(live) - {original.value} else old(live)) + {r.value}
      ensures |old(chunks)| <= |chunks| && forall i :: 0 <= i < |old(chunks)| ==> chunks[i].data == old(chunks)[i].data
      ensures forall b <- old(live) :: Kept(old(chunks), b)
      ensures var sums := if original.Some? then Resizes(old(chunks), chunkCapacity, original.value, newSize)
                          else Fits(old(chunks), chunkCapacity, newSize);
              && (r.None? ==> Valid() && live == old(live) && (newSize == 0 || !granted || !sums))
              && (r.Some? ==> (Valid() <==> sums))
      ensures r.Some? && Valid() ==> Inside(r.value, chunks)
      ensures r.Some? && Valid() && original.Some? ==> SameStart(old(chunks), original.value, chunks, r.value)
    {
      hide Sound, Align, WordAlign, WordSum, Fits, GrowsInPlace;
      AllInside(chunks, live);
      if original.None? {
        r := Malloc(newSize, granted);
        if r.Some? && Sound(chunks, live) {
          AllInside(chunks, live);
        }
        return;
      }
      var b := original.value;
      if newSize == 0 {
        return None;
      }
      WordAlignExact(b.size);
      WordAlignExact(newSize);
      var originalAligned, newAligned := WordAlign(b.size), WordAlign(newSize);
      if originalAligned >= newAligned {
        ShrinkIsSoundExactly(chunks, live, b, newSize);
        live := live - {b} + {b.(size := newSize)};
        if Sound(chunks, live) {
          AllInside(chunks, live);
        }
        return Some(b.(size := newSize));
      }
      var expanded := Expand(b, newSize);
      if expanded {
        if Sound(chunks, live) {
          AllInside(chunks, live);
        }
        return Some(b.(size := newSize));
      }
      r := Move(b, newSize, granted);
    }

    /** Expands the last block where it is, if the newest chunk takes the increment. */
    method Expand(b: Block, newSize: nat) returns (ok: bool)
      requires Valid() && b in live && Align(b.size) < Align(newSize) < WORD
      modifies this`chunks, this`live
      ensures |chunks| == |old(chunks)| && forall i :: 0 <= i < |chunks| ==> chunks[i].data == old(chunks)[i].data
      ensures !ok ==> chunks == old(chunks) && live == old(live) && !GrowsInPlace(chunks, b, newSize)
      ensures ok ==> live == old(live) - {b} + {b.(size := newSize)}
      ensures ok ==> (Valid() <==> Resizes(old(chunks), chunkCapacity, b, newSize))
    {
      hide Sound, Align, WordSum, Fits;
      SoundIsInMemory(chunks, live, b);
      var n, originalAligned := |chunks| - 1, Align(b.size);
      if b.chunk == n && b.offset == chunks[n].size - originalAligned {
        var increment := Align(newSize) - originalAligned;
        GrowthTaken(chunks, live, chunkCapacity, b, newSize);
        if WordSum(chunks[n].size, increment) <= chunks[n].capacity {
          GrowthIsSoundExactly(chunks, live, b, newSize);
          chunks := chunks[n := chunks[n].(size := WordSum(chunks[n].size, increment))];
          live := live - {b} + {b.(size := newSize)};
          return true;
        }
      }
      return false;
    }

    /** Allocates a block of the rounded size and copies the rounded old size; the old block
        is left where it is and given up. Nothing is copied when a sum wrapped: the source
        then writes outside the chunk. */
    method Move(b: Block, newSize: nat, granted: bool) returns (r: Option<Block>)
      requires Valid() && b in live && newSize > 0 && Align(b.size) < Align(newSize) < WORD
      modifies this`chunks, this`live, Datas()
      ensures r.None? ==> Valid() && live == old(live) && (!granted || !Fits(old(chunks), chunkCapacity, Align(newSize)))
      ensures r.Some? ==> r.value.size == newSize && live == old(live) - {b} + {r.value}
      ensures r.Some? ==> (Valid() <==> Fits(old(chunks), chunkCapacity, Align(newSize)))
      ensures |old(chunks)| <= |chunks| && forall i :: 0 <= i < |old(chunks)| ==> chunks[i].data == old(chunks)[i].data
      ensures forall a <- old(live) :: Kept(old(chunks), a)
      ensures r.Some? && Valid() ==> Inside(r.value, chunks) && SameStart(old(chunks), b, chunks, r.value)
    {
      hide Sound, Align, WordAlign, WordSum, Fits, Handed, InMemory, Covered, Cut, Apart, LargerOf;
      AllInside(chunks, live);
      AlignTwice(newSize);
      var fits := Fits(chunks, chunkCapacity, Align(newSize));
      r := Malloc(Align(newSize), granted);
      if r.Some? {
        var m := r.value;
        if fits {
          AllInside(chunks, live);
          AlignOrder(b.size, newSize);
          CopyInto(chunks, old(live), b, m, newSize);
        }
        MovedIsSoundExactly(chunks, old(live), b, m, newSize);
        live := live - {m} + {m.(size := newSize)} - {b};
        r := Some(m.(size := newSize));
      }
    }
  }

  lemma WordSumOfSum(m: nat, n: nat)
    ensures WordSum(n % WORD, m) == (m + n) % WORD
  {
  }

  /** A new block leaves the pool sound, and lies in its memory, just when no sum wrapped; then
      it is apart from all live ones. */
  ghost predicate SoundJustWhen(fits: bool, chunks: seq<Chunk>, live: set<Block>, b: Block)
  {
    && (Sound(chunks, live + {b}) <==> fits)
    && (InMemory(chunks, b) <==> fits)
    && (fits ==> b !in live && forall a <- live :: Apart(a, b))
  }

  /** The newest chunk takes the request. */
  lemma TakenIsSoundExactly(chunks: seq<Chunk>, live: set<Block>, chunkCapacity: nat, size: nat)
    requires Sound(chunks, live) && chunks != [] && 0 < size < WORD && Takes(chunks[|chunks| - 1], size)
    ensures var n := |chunks| - 1;
            SoundJustWhen(Fits(chunks, chunkCapacity, size), chunks[n := Cut(chunks[n], size)], live, Block(n, chunks[n].size, size))
  {
    hide Sound, Align, WordAlign, WordSum, Apart, InMemory;
    var c := chunks[|chunks| - 1];
    CutIsSoundExactly(chunks, live, size);
    WordAlignExact(size);
    ChunksCovered(chunks, live, |chunks| - 1);
    WordSumExact(c.size, WordAlign(size));
    if Align(size) < WORD && c.size + Align(size) < WORD {
      CutIsSound(chunks, live, size);
    }
  }

  /** A new chunk is added for the request. */
  lemma AddedIsSoundExactly(chunks: seq<Chunk>, live: set<Block>, chunkCapacity: nat, c: Chunk, size: nat)
    requires Sound(chunks, live) && 0 < size < WORD && chunkCapacity < WORD
    requires chunks != [] ==> !Takes(chunks[|chunks| - 1], size)
    requires c.size == 0 && c.capacity == LargerOf(chunkCapacity, WordAlign(size)) && c.data.Length == BehindHeader(c.capacity)
    requires forall i :: 0 <= i < |chunks| ==> chunks[i].data != c.data
    ensures var n := |chunks|;
            SoundJustWhen(Fits(chunks, chunkCapacity, size), (chunks + [c])[n := Cut(c, size)], live, Block(n, 0, size))
  {
    hide Sound, Align, WordAlign, WordSum, Apart, InMemory;
    var n, b := |chunks|, Block(|chunks|, 0, size);
    var next := (chunks + [c])[n := Cut(c, size)];
    WordAlignExact(size);
    WordSumExact(0, WordAlign(size));
    if chunks != [] {
      NotTaken(chunks, live, size);
    }
    if HEADER + c.capacity < WORD {
      NewChunkIsSound(chunks, live, c);
      CutIsSoundExactly(chunks + [c], live, size);
      if Align(size) < WORD {
        CutIsSound(chunks + [c], live, size);
      }
    } else {
      ChunkTooSmall(next, live + {b}, b);
    }
  }

  lemma ChunkTooSmall(chunks: seq<Chunk>, live: set<Block>, b: Block)
    requires b.chunk < |chunks| && HEADER + chunks[b.chunk].capacity >= WORD
    ensures !Sound(chunks, live) && !InMemory(chunks, b)
  {
    assert !Covered(chunks[b.chunk]);
  }

  /** A request that the newest chunk of a sound pool does not take wraps no sum there. */
  lemma NotTaken(chunks: seq<Chunk>, live: set<Block>, size: nat)
    requires Sound(chunks, live) && chunks != [] && size < WORD && !Takes(chunks[|chunks| - 1], size)
    ensures Align(size) < WORD && chunks[|chunks| - 1].size + Align(size) < WORD
    ensures chunks[|chunks| - 1].size + Align(size) > chunks[|chunks| - 1].capacity
  {
    hide Align, WordAlign, WordSum;
    var c := chunks[|chunks| - 1];
    assert Covered(c);
    WordAlignExact(size);
    WordSumExact(c.size, WordAlign(size));
  }

  /** A request that gives a block leaves a sound pool sound if and only if no sum wraps: the
      newest chunk takes it, or a chunk of the size asked for was added. */
  lemma HandedIsSoundExactly(chunks: seq<Chunk>, live: set<Block>, chunkCapacity: nat, added: seq<Chunk>, size: nat)
    requires Sound(chunks, live) && 0 < size < WORD && chunkCapacity < WORD && added != []
    requires
      if chunks != [] && Takes(chunks[|chunks| - 1], size) then added == chunks
      else
        var c := added[|added| - 1];
        && added[..|added| - 1] == chunks && (forall i :: 0 <= i < |chunks| ==> chunks[i].data != c.data)
        && c.size == 0 && c.capacity == LargerOf(chunkCapacity, WordAlign(size)) && c.data.Length == BehindHeader(c.capacity)
    ensures var n := |added| - 1;
            SoundJustWhen(Fits(chunks, chunkCapacity, size), added[n := Cut(added[n], size)], live, Block(n, added[n].size, size))
  {
    hide *;
    if chunks != [] && Takes(chunks[|chunks| - 1], size) {
      TakenIsSoundExactly(chunks, live, chunkCapacity, size);
    } else {
      var c := added[|added| - 1];
      assert added == chunks + [c];
      AddedIsSoundExactly(chunks, live, chunkCapacity, c, size);
    }
  }

  lemma HandedIsNew(chunks: seq<Chunk>, live: set<Block>, chunkCapacity: nat, size: nat, granted: bool)
    requires Sound(chunks, live)
    ensures var r := Handed(chunks, chunkCapacity, size, granted); r.Some? ==> r.value !in live
  {
    hide Align, Takes, Provides;
    var r := Handed(chunks, chunkCapacity, size, granted);
    if r.Some? && r.value in live {
      assert Inside(r.value, chunks);
      OnlyZeroAligns(size);
    }
  }

  /** A block asked for with the rounded size takes the place of the one it was moved from. */
  lemma MovedIsSoundExactly(chunks: seq<Chunk>, live: set<Block>, b: Block, m: Block, newSize: nat)
    requires b in live && m !in live && newSize > 0 && m.size == Align(newSize) && Align(b.size) < Align(newSize)
    requires Sound(chunks, live + {m}) <==> InMemory(chunks, m)
    ensures var r := m.(size := newSize);
            var next := live + {m} - {m} + {r} - {b};
            && next == live - {b} + {r} && (Sound(chunks, next) <==> InMemory(chunks, m))
            && (Sound(chunks, next) ==> Inside(r, chunks))
  {
    hide Sound, Align, Covered;
    var r := m.(size := newSize);
    var given, next := live + {m}, live + {m} - {m} + {r} - {b};
    AlignTwice(newSize);
    if InMemory(chunks, m) {
      ShrinkIsSound(chunks, given, m, newSize);
      FewerIsSound(chunks, given - {m} + {r}, b);
      AllInside(chunks, next);
    } else if Sound(chunks, next) {
      SoundIsInMemory(chunks, next, r);
    }
  }

  /** No memory comes back only when it is refused or when the sum with the header wraps. */
  lemma NothingProvided(chunks: seq<Chunk>, live: set<Block>, chunkCapacity: nat, size: nat, granted: bool)
    requires 0 < size < WORD && chunkCapacity < WORD && (chunks != [] ==> !Takes(chunks[|chunks| - 1], size))
    requires !Provides(LargerOf(chunkCapacity, WordAlign(size)), granted)
    ensures Sound(chunks, live) ==> !granted || !Fits(chunks, chunkCapacity, size)
  {
    hide Sound, Align, WordAlign, Takes;
    WordAlignExact(size);
    if chunks != [] && Sound(chunks, live) {
      NotTaken(chunks, live, size);
    }
  }

  /** What is taken for growth in place wraps no sum just when the block ends below 2^64. */
  lemma GrowthTaken(chunks: seq<Chunk>, live: set<Block>, chunkCapacity: nat, b: Block, size: nat)
    requires Sound(chunks, live) && b in live && b.chunk == |chunks| - 1 && End(b) == chunks[b.chunk].size
    requires Align(b.size) < Align(size) < WORD
    ensures WordSum(chunks[b.chunk].size, Align(size) - Align(b.size)) <= chunks[b.chunk].capacity ==>
              (Resizes(chunks, chunkCapacity, b, size) <==> b.offset + Align(size) < WORD)
    ensures WordSum(chunks[b.chunk].size, Align(size) - Align(b.size)) > chunks[b.chunk].capacity ==>
              !GrowsInPlace(chunks, b, size)
  {
    hide Align, WordSum, LargerOf;
    var c := chunks[b.chunk];
    assert Covered(c);
    AlignTwice(size);
    WordSumExact(c.size, Align(size) - Align(b.size));
  }

  lemma FirstRequest()
    ensures Handed([], 65536, 16, true) == Some(Block(0, 0, 16)) && WordAlign(16) == 16
    ensures LargerOf(65536, WordAlign(16)) == 65536
  {
  }

  lemma FurtherRequests(c: Chunk)
    requires c.size == 16 <= c.capacity
    ensures Handed([c], 65536, WORD - 16, true) == Some(Block(0, 16, WORD - 16))
    ensures Cut(c, WORD - 16) == c.(size := 0)
    ensures Handed([Cut(c, WORD - 16)], 65536, 16, true) == Some(Block(0, 0, 16))
  {
    LiveBytesGivenAgain(c);
  }

  /** The three calls on a new pool: the third gives out the first block again. */
  method GivesLiveBlockAgain() returns (first: Option<Block>, second: Option<Block>, third: Option<Block>)
    ensures first.Some? && second.Some? && third == first
  {
    hide Handed, Cut, WordAlign, LargerOf, Fits, InMemory, Sound, Apart;
    var pool := new Pool(65536);
    FirstRequest();
    first := pool.Malloc(16, true);
    FurtherRequests(Chunk(pool.chunks[0].data, 65536, 16));
    assert pool.chunks == [Chunk(pool.chunks[0].data, 65536, 16)];
    second := pool.Malloc(WORD - 16, true);
    assert pool.chunks == [Chunk(pool.chunks[0].data, 65536, 0)];
    third := pool.Malloc(16, true);
  }

  lemma AlignTwice(n: nat)
    ensures Align(Align(n)) == Align(n) && (n > 0 ==> Align(n) > 0)
  {
  }

  lemma AlignOrder(m: nat, n: nat)
    ensures Align(m) < Align(n) ==> m < n
  {
  }

  lemma AlignGrows(n: nat)
    ensures n <= Align(n)
  {
  }

  lemma SliceStart(s: seq<Byte>, at: nat, count: nat, size: nat)
    requires at + count <= |s| && size <= count
    ensures s[at..at + count][..size] == s[at..at + size]
  {
  }

  /** Copies the rounded size of a block into a new one, away from all live blocks. */
  method CopyInto(chunks: seq<Chunk>, ghost live: set<Block>, b: Block, m: Block, ghost newSize: nat)
    requires forall i, j :: 0 <= i < j < |chunks| ==> chunks[i].data != chunks[j].data
    requires forall a <- live :: a.chunk < |chunks| && End(a) <= chunks[a.chunk].data.Length && Apart(a, m)
    requires b in live && m.chunk < |chunks| && End(m) <= chunks[m.chunk].data.Length && Align(b.size) < Align(m.size)
    requires b.size < newSize
    modifies chunks[m.chunk].data
    ensures forall a <- live :: Kept(chunks, a)
    ensures SameStart(chunks, b, chunks, m.(size := newSize))
  {
    hide Align;
    AlignGrows(b.size);
    var dst, src, count := chunks[m.chunk].data, chunks[b.chunk].data, Align(b.size);
    ghost var copied := src[b.offset..b.offset + count];
    SliceStart(src[..], b.offset, count, b.size);
    CopyBytes(dst, m.offset, src, b.offset, count);
    SliceStart(dst[..], m.offset, count, b.size);
    assert SameStart(chunks, b, chunks, m.(size := newSize));
    forall a <- live
      ensures Kept(chunks, a)
    {
      if a.chunk == m.chunk {
        SliceKept(old(dst[..]), dst[..], a.offset, End(a), m.offset, End(m));
      }
    }
  }

  /** A slice apart from the place written is kept. */
  lemma SliceKept(before: seq<Byte>, after: seq<Byte>, from: nat, to: nat, low: nat, high: nat)
    requires |before| == |after| && from <= to <= |before| && (to <= low || high <= from)
    requires forall k :: 0 <= k < |after| && !(low <= k < high) ==> after[k] == before[k]
    ensures after[from..to] == before[from..to]
  {
  }

  /** Copies between places that do not overlap. */
  method CopyBytes(dst: array<Byte>, to: nat, src: array<Byte>, from: nat, count: nat)
    requires to + count <= dst.Length && from + count <= src.Length
    requires dst == src ==> from + count <= to || to + count <= from
    modifies dst
    ensures dst[to..to + count] == old(src[from..from + count])
    ensures forall k :: 0 <= k < dst.Length && !(to <= k < to + count) ==> dst[k] == old(dst[k])
  {
    forall k | 0 <= k < count {
      dst[to + k] := src[from + k];
    }
  }

  lemma AllInside(chunks: seq<Chunk>, live: set<Block>)
    requires Sound(chunks, live)
    ensures forall b <- live :: Inside(b, chunks) && End(b) <= chunks[b.chunk].data.Length
    ensures forall a <- live, b <- live :: a != b ==> Apart(a, b)
    ensures forall i, j :: 0 <= i < j < |chunks| ==> chunks[i].data != chunks[j].data
  {
    hide Align;
  }
}
