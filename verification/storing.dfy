/** Writing a new file: the invariant a stream keeps while bytes are
    appended, what close leaves in the container, and the round trip
    through close and reopen. */
module Storing {
  import opened Wrappers
  import opened Bytes
  import opened Blocks
  import opened Stream
  import opened Reading
  import opened Writing

  // ---------------------------------------------------------------------------
  // Where a new block goes

  /** From a slot start in a container of whole slots, the free-slot scan
      never fails. */
  lemma {:induction false} FindOk(d: Disk, b: int, p: int)
    requires Aligned(b, p) && Aligned(b, |d|) && p <= |d|
    ensures FindFirstEmptyBlock(d, b, p).Ok?
    decreases |d| - p
  {
    if p < |d| {
      AlignedApart(b, p, |d|);
      AlignedNext(b, p);
      if ReadLong(d, p).value != FREE {
        FindOk(d, b, p + SlotSize(b));
      }
    }
  }

  /** The scan stops on a slot start, at most at the end of the container,
      on a slot not in use; writing a slot there keeps the container whole. */
  lemma {:induction false} NewSpot(d: Disk, b: int, p: int) returns (at: int)
    requires DiskOk(d, b) && Aligned(b, p) && p <= |d|
    ensures FindFirstEmptyBlock(d, b, p) == Ok(at)
    ensures Aligned(b, at) && p <= at <= |d| && !InUse(d, b, at)
    ensures Aligned(b, Max(|d|, at + SlotSize(b)))
  {
    FindOk(d, b, p);
    at := FindFirstEmptyBlock(d, b, p).value;
    FindAligned(d, b, p);
    if at < |d| {
      AlignedApart(b, at, |d|);
    } else {
      AlignedNext(b, at);
    }
  }

  /** Two different slot starts do not overlap. */
  lemma {:induction false} SlotsApart(b: int, p: int, q: int)
    requires Aligned(b, p) && Aligned(b, q) && p != q
    ensures p + SlotSize(b) <= q || q + SlotSize(b) <= p
  {
    if p < q { AlignedApart(b, p, q); } else { AlignedApart(b, q, p); }
  }

  // ---------------------------------------------------------------------------
  // Room for the longs

  /** Growing d0 by one slot per block for k blocks keeps every position a
      Java long. */
  predicate Room(d0: Disk, b: int, k: int) {
    |d0| + SlotSize(b) * k < TWO_63
  }

  lemma {:induction false} RoomMono(d0: Disk, b: int, j: int, k: int)
    requires b > 16 && 0 <= j <= k && Room(d0, b, k)
    ensures Room(d0, b, j) && k < TWO_63
  {
    MulMono(SlotSize(b), j, k);
    if k >= 1 {
      MulMono(SlotSize(b), 1, k);
    }
  }

  lemma {:induction false} GrowBy(d0: Disk, d: Disk, b: int, n: int)
    requires b > 16 && |d| <= |d0| + SlotSize(b) * n
    ensures |d| + SlotSize(b) <= |d0| + SlotSize(b) * (n + 1)
  {
  }

  /** Every block holds at least one byte. */
  lemma {:induction false} OffsetAtLeast(b: int, k: nat)
    requires b > 16
    ensures Offset(b, k) >= k
  {
    if k > 0 {
      OffsetAtLeast(b, k - 1);
    }
  }

  // ---------------------------------------------------------------------------
  // What the other files keep

  /** The slot at p reads the same, byte for byte, in d as in d0. */
  predicate SlotKept(d0: Disk, d: Disk, b: int, p: int) {
    && b > 0 && 0 <= p && p + SlotSize(b) <= |d0| && p + SlotSize(b) <= |d|
    && d[p..p + SlotSize(b)] == d0[p..p + SlotSize(b)]
  }

  /** Every slot in use in d0 is still there in d: writing one file leaves
      the blocks of every other file alone. */
  ghost predicate Kept(d0: Disk, d: Disk, b: int) {
    forall p {:trigger InUse(d0, b, p)} :: InUse(d0, b, p) ==> SlotKept(d0, d, b, p)
  }

  predicate NewAt(d0: Disk, b: int, blocks: seq<int>, i: int) {
    0 <= i < |blocks| && !InUse(d0, b, blocks[i])
  }

  /** No block of the chain was in use in d0. */
  predicate AllNew(d0: Disk, b: int, blocks: seq<int>) {
    forall i {:trigger NewAt(d0, b, blocks, i)} :: 0 <= i < |blocks| ==> NewAt(d0, b, blocks, i)
  }

  /** A slice inside an unchanged range is unchanged. */
  lemma {:induction false} SubSlice(d0: Disk, d: Disk, lo: int, hi: int, a: int, a': int)
    requires 0 <= lo <= a <= a' <= hi <= |d| && hi <= |d0| && d[lo..hi] == d0[lo..hi]
    ensures d[a..a'] == d0[a..a']
  {
    forall i | a <= i < a'
      ensures d[i] == d0[i]
    {
      assert d[i] == d[lo..hi][i - lo] && d0[i] == d0[lo..hi][i - lo];
    }
  }

  /** A kept slot reads the same longs, so a block in use stays in use. */
  lemma {:induction false} SlotReads(d0: Disk, d: Disk, b: int, p: int)
    requires b > 16 && SlotKept(d0, d, b, p)
    ensures ReadLong(d, p) == ReadLong(d0, p)
    ensures ReadLong(d, p + 8) == ReadLong(d0, p + 8)
    ensures ReadLong(d, p + 16) == ReadLong(d0, p + 16)
    ensures InUse(d0, b, p) ==> InUse(d, b, p)
  {
    var hi := p + SlotSize(b);
    SubSlice(d0, d, p, hi, p, p + 8);
    SubSlice(d0, d, p, hi, p + 8, p + 16);
    SubSlice(d0, d, p, hi, p + 16, p + 24);
  }

  lemma {:induction false} KeptSelf(d0: Disk, b: int)
    ensures Kept(d0, d0, b)
  {
    forall p | InUse(d0, b, p)
      ensures SlotKept(d0, d0, b, p)
    {
    }
  }

  /** Writing a new block where the scan stopped, linked from blocks that
      were not in use in d0, keeps every slot in use in d0; and the new
      block was not in use in d0 either. */
  lemma {:induction false} KeptGrows(d0: Disk, d: Disk, d': Disk, b: int, at: int, first: int, prev: int)
    requires b > 16 && Kept(d0, d, b) && Keeps(d, d', b, at, first, prev)
    requires Aligned(b, at) && !InUse(d, b, at)
    requires Aligned(b, first) && Aligned(b, prev) && !InUse(d0, b, first) && !InUse(d0, b, prev)
    ensures Kept(d0, d', b)
    ensures !InUse(d0, b, at)
  {
    forall p | InUse(d0, b, p)
      ensures SlotKept(d0, d', b, p)
    {
      SlotReads(d0, d, b, p);
      SlotsApart(b, p, at);
      SlotsApart(b, p, first);
      SlotsApart(b, p, prev);
      assert Untouched(p, p + SlotSize(b), b, at, first, prev);
    }
    if InUse(d0, b, at) {
      SlotReads(d0, d, b, at);
      assert false;
    }
  }

  /** The header lies before every slot, so writing a block keeps it. */
  lemma {:induction false} HeaderKept(d: Disk, d': Disk, b: int, at: int, first: int, prev: int)
    requires DiskOk(d, b) && Keeps(d, d', b, at, first, prev)
    requires FIRST_SLOT <= at && FIRST_SLOT <= first && FIRST_SLOT <= prev
    requires Aligned(b, |d'|)
    ensures DiskOk(d', b)
  {
    assert Untouched(0, 8, b, at, first, prev);
  }

  // ---------------------------------------------------------------------------
  // A chain under construction

  /** d is d0 with the new file's chain `blocks` written into slots that
      were free or past the end, every other file's slots kept, and at most
      one slot added per block. */
  ghost predicate Grown(d0: Disk, d: Disk, b: int, blocks: seq<int>) {
    && DiskOk(d, b) && ChainOk(d, b, blocks) && Below(blocks)
    && Kept(d0, d, b) && AllNew(d0, b, blocks)
    && |d| <= |d0| + SlotSize(b) * |blocks|
  }

  /** A new head block alone starts a chain. */
  lemma {:induction false} Start(d0: Disk, d': Disk, b: int, at: int, payload: seq<byte>)
    requires DiskOk(d0, b) && Aligned(b, at) && !InUse(d0, b, at)
    requires Keeps(d0, d', b, at, at, at)
    requires |d'| == Max(|d0|, at + SlotSize(b)) && Aligned(b, |d'|) && |d'| <= |d0| + SlotSize(b)
    requires ReadLong(d', at).Ok? && ReadLong(d', at).value != FREE
    requires ReadLong(d', at + 8) == Ok(NONE)
    requires d'[at + 32..at + 16 + b] == payload
    ensures Grown(d0, d', b, [at]) && ContentUpTo(d', b, [at], 1) == payload
  {
    HeadChain(d', b, at, payload);
    KeptSelf(d0, b);
    KeptGrows(d0, d0, d', b, at, at, at);
    HeaderKept(d0, d', b, at, at, at);
    assert NewAt(d0, b, [at], 0);
  }

  /** d' is d with a new block at `at` written after the chain's last
      block `last`: a slot where the scan stopped, past `last`, whose
      end-marker is in use, whose next pointer is NONE, which `last` links
      to and which carries `payload`; every untouched range is kept. */
  ghost predicate Appended(d: Disk, d': Disk, b: int, first: int, last: int, at: int, payload: seq<byte>) {
    && b > 16 && Aligned(b, at) && !InUse(d, b, at) && last + SlotSize(b) <= at
    && Keeps(d, d', b, at, first, last)
    && |d'| == Max(|d|, at + SlotSize(b)) && Aligned(b, |d'|)
    && ReadLong(d', at).Ok? && ReadLong(d', at).value != FREE
    && ReadLong(d', at + 8) == Ok(NONE)
    && ReadLong(d', last + 8) == Ok(at)
    && d'[at + 16..at + 16 + b] == payload
  }

  /** The frame part of adding a block after the chain's last block. */
  lemma {:induction false} NewGrows(d0: Disk, d: Disk, d': Disk, b: int, blocks: seq<int>, at: int)
    requires Grown(d0, d, b, blocks)
    requires Aligned(b, at) && !InUse(d, b, at)
    requires Keeps(d, d', b, at, blocks[0], blocks[|blocks| - 1]) && Aligned(b, |d'|)
    ensures Kept(d0, d', b) && AllNew(d0, b, blocks + [at]) && DiskOk(d', b)
  {
    var n := |blocks|;
    var first, last := blocks[0], blocks[n - 1];
    assert InUseAt(d, b, blocks, 0) && InUseAt(d, b, blocks, n - 1);
    assert NewAt(d0, b, blocks, 0) && NewAt(d0, b, blocks, n - 1);
    KeptGrows(d0, d, d', b, at, first, last);
    HeaderKept(d, d', b, at, first, last);
    var bl := blocks + [at];
    forall i | 0 <= i < |bl|
      ensures NewAt(d0, b, bl, i)
    {
      if i < n { assert NewAt(d0, b, blocks, i); }
    }
  }

  /** A new block after the chain's last block extends the chain and its
      content. */
  lemma {:induction false} Extend(d0: Disk, d: Disk, d': Disk, b: int, blocks: seq<int>, at: int, payload: seq<byte>)
    requires Grown(d0, d, b, blocks) && |blocks| >= 1
    requires Appended(d, d', b, blocks[0], blocks[|blocks| - 1], at, payload)
    requires |d'| <= |d0| + SlotSize(b) * (|blocks| + 1)
    ensures Grown(d0, d', b, blocks + [at])
    ensures ContentUpTo(d', b, blocks + [at], |blocks| + 1) == ContentUpTo(d, b, blocks, |blocks|) + payload
  {
    TailChainOk(d, d', b, blocks, at);
    TailContent(d, d', b, blocks, at, payload);
    NewGrows(d0, d, d', b, blocks, at);
  }

  // ---------------------------------------------------------------------------
  // Writing back a new block

  /** Writing a new head keeps every range outside its slot. */
  lemma {:induction false} HeadKeepsAll(d: Disk, c: Cursor, buf: seq<byte>, at: int)
    requires |buf| > 16 && FIRST_SLOT <= at && LongsFit(|buf|, at, c)
    ensures WriteNew(d, c, buf, at, at, true).Ok?
    ensures Keeps(d, Put(WriteNew(d, c, buf, at, at, true).value, at + 16, LongToBytes(c.size)).value,
                  |buf|, at, at, at)
  {
    var d' := Put(WriteNew(d, c, buf, at, at, true).value, at + 16, LongToBytes(c.size)).value;
    forall lo, hi | Untouched(lo, hi, |buf|, at, at, at) && hi <= |d|
      ensures hi <= |d'| && d'[lo..hi] == d[lo..hi]
    {
      HeadKeeps(d, c, buf, at, lo, hi);
    }
  }

  /** Writing a block after the head keeps every untouched range. */
  lemma {:induction false} TailKeepsAll(d: Disk, c: Cursor, buf: seq<byte>, at: int, first: int)
    requires |buf| > 16 && Placed(|buf|, at, first, c.currentBlockPosition, false)
    requires LongsFit(|buf|, at, c)
    ensures WriteNew(d, c, buf, at, first, false).Ok?
    ensures Keeps(d, Put(WriteNew(d, c, buf, at, first, false).value, first + 16, LongToBytes(c.size)).value,
                  |buf|, at, first, c.currentBlockPosition)
  {
    NewTailSlot(d, c, buf, at, first);
    var d' := Put(WriteNew(d, c, buf, at, first, false).value, first + 16, LongToBytes(c.size)).value;
    forall lo, hi | Untouched(lo, hi, |buf|, at, first, c.currentBlockPosition) && hi <= |d|
      ensures hi <= |d'| && d'[lo..hi] == d[lo..hi]
    {
      TailKeeps(d, c, buf, at, first, lo, hi);
    }
  }

  /** Where a new head goes: the first free slot from the start. */
  lemma {:induction false} HeadPlace(d0: Disk, b: int) returns (at: int)
    requires DiskOk(d0, b) && Room(d0, b, 1)
    ensures FindFirstEmptyBlock(d0, b, FIRST_SLOT) == Ok(at)
    ensures Aligned(b, at) && FIRST_SLOT <= at <= |d0| && !InUse(d0, b, at)
    ensures Aligned(b, Max(|d0|, at + SlotSize(b)))
    ensures Max(|d0|, at + SlotSize(b)) <= |d0| + SlotSize(b) && IsLong(at + SlotSize(b))
  {
    assert Aligned(b, FIRST_SLOT) by { assert Steps(0, SlotSize(b)); }
    at := NewSpot(d0, b, FIRST_SLOT);
    GrowBy(d0, d0, b, 0);
  }

  /** Where a block after the head goes: the scan starts at the chain's
      last block, which is in use, so it stops past it. */
  lemma {:induction false} TailPlace(d0: Disk, d: Disk, b: int, blocks: seq<int>) returns (at: int)
    requires Grown(d0, d, b, blocks) && Room(d0, b, |blocks| + 1)
    ensures FindFirstEmptyBlock(d, b, blocks[|blocks| - 1]) == Ok(at)
    ensures Aligned(b, at) && at <= |d| && !InUse(d, b, at)
    ensures Placed(b, at, blocks[0], blocks[|blocks| - 1], false) && blocks[|blocks| - 1] + SlotSize(b) <= at
    ensures Aligned(b, Max(|d|, at + SlotSize(b)))
    ensures Max(|d|, at + SlotSize(b)) <= |d0| + SlotSize(b) * (|blocks| + 1)
    ensures IsLong(at + SlotSize(b))
  {
    var n := |blocks|;
    var first, last := blocks[0], blocks[n - 1];
    assert InUseAt(d, b, blocks, 0) && InUseAt(d, b, blocks, n - 1) && BelowAt(blocks, 0);
    at := NewSpot(d, b, last);
    AlignedApart(b, last, at);
    if first != last {
      assert Apart(blocks, 0, n - 1);
      AlignedApart(b, first, last);
    }
    GrowBy(d0, d, b, n);
  }

  /** writeBack of a new head: what the container holds afterwards. */
  lemma {:induction false} BackHead(st: St, at: int)
    requires Valid(st) && st.cur.buffer.Some? && |st.cur.buffer.value| == st.cur.blockSize
    requires st.cur.bufferStartPosition == NONE && st.cur.firstBlockPosition == NONE
    requires FindFirstEmptyBlock(st.disk, st.cur.blockSize, st.cur.emptyBlockPosition) == Ok(at)
    requires FIRST_SLOT <= at && LongsFit(st.cur.blockSize, at, st.cur) && IsLong(st.cur.size)
    ensures WriteBack(st).Ok?
    ensures WriteBack(st).value.cur == st.cur.(emptyBlockPosition := at, firstBlockPosition := at,
                                               currentBlockPosition := at, isWriteData := false)
    ensures var d' := WriteBack(st).value.disk;
      && |d'| == Max(|st.disk|, at + SlotSize(st.cur.blockSize))
      && ReadLong(d', at) == Ok(at + 16 + st.cur.bufferPosition - 1)
      && ReadLong(d', at + 8) == Ok(NONE)
      && d'[at + 32..at + 16 + st.cur.blockSize] == st.cur.buffer.value[16..]
      && ReadLong(d', at + 16) == Ok(st.cur.size)
      && Keeps(st.disk, d', st.cur.blockSize, at, at, at)
  {
    var c := st.cur;
    HeadBackDisk(st.disk, c, c.buffer.value, at);
    HeadKeepsAll(st.disk, c, c.buffer.value, at);
  }

  /** writeBack of a new block after the head: the new slot. */
  lemma {:induction false} BackTailSlot(st: St, at: int)
    requires Valid(st) && st.cur.buffer.Some? && |st.cur.buffer.value| == st.cur.blockSize
    requires st.cur.bufferStartPosition == NONE
    requires FindFirstEmptyBlock(st.disk, st.cur.blockSize, st.cur.emptyBlockPosition) == Ok(at)
    requires Placed(st.cur.blockSize, at, st.cur.firstBlockPosition, st.cur.currentBlockPosition, false)
    requires LongsFit(st.cur.blockSize, at, st.cur) && IsLong(st.cur.size)
    ensures WriteBack(st).Ok?
    ensures WriteBack(st).value.cur == st.cur.(emptyBlockPosition := at, currentBlockPosition := at,
                                               isWriteData := false)
    ensures var d' := WriteBack(st).value.disk;
      && |d'| == Max(|st.disk|, at + SlotSize(st.cur.blockSize))
      && ReadLong(d', at) == Ok(at + 16 + st.cur.bufferPosition - 1)
      && ReadLong(d', at + 8) == Ok(NONE)
      && d'[at + 16..at + 16 + st.cur.blockSize] == st.cur.buffer.value
  {
    TailBackSlot(st.disk, st.cur, st.cur.buffer.value, at, st.cur.firstBlockPosition);
    BackTailSteps(st, at);
  }

  /** writeBack of a new block after the head: the links, the size, and
      every range the write does not touch. */
  lemma {:induction false} BackTailLinks(st: St, at: int)
    requires Valid(st) && st.cur.buffer.Some? && |st.cur.buffer.value| == st.cur.blockSize
    requires st.cur.bufferStartPosition == NONE
    requires FindFirstEmptyBlock(st.disk, st.cur.blockSize, st.cur.emptyBlockPosition) == Ok(at)
    requires Placed(st.cur.blockSize, at, st.cur.firstBlockPosition, st.cur.currentBlockPosition, false)
    requires LongsFit(st.cur.blockSize, at, st.cur) && IsLong(st.cur.size)
    ensures WriteBack(st).Ok?
    ensures var d' := WriteBack(st).value.disk;
      && ReadLong(d', st.cur.firstBlockPosition + 16) == Ok(st.cur.size)
      && ReadLong(d', st.cur.currentBlockPosition + 8) == Ok(at)
  {
    TailBackLinks(st.disk, st.cur, st.cur.buffer.value, at, st.cur.firstBlockPosition);
    BackTailSteps(st, at);
  }

  /** writeBack of a new block after the head keeps every untouched range. */
  lemma {:induction false} BackTailKeeps(st: St, at: int)
    requires Valid(st) && st.cur.buffer.Some? && |st.cur.buffer.value| == st.cur.blockSize
    requires st.cur.bufferStartPosition == NONE
    requires FindFirstEmptyBlock(st.disk, st.cur.blockSize, st.cur.emptyBlockPosition) == Ok(at)
    requires Placed(st.cur.blockSize, at, st.cur.firstBlockPosition, st.cur.currentBlockPosition, false)
    requires LongsFit(st.cur.blockSize, at, st.cur) && IsLong(st.cur.size)
    ensures WriteBack(st).Ok?
    ensures Keeps(st.disk, WriteBack(st).value.disk, st.cur.blockSize, at,
                  st.cur.firstBlockPosition, st.cur.currentBlockPosition)
  {
    TailKeepsAll(st.disk, st.cur, st.cur.buffer.value, at, st.cur.firstBlockPosition);
    BackTailSteps(st, at);
  }

  /** writeBack of a new block after the head appends it to the chain. */
  lemma {:induction false} BackTailAll(st: St, at: int)
    requires Valid(st) && st.cur.buffer.Some? && |st.cur.buffer.value| == st.cur.blockSize
    requires st.cur.bufferStartPosition == NONE && Aligned(st.cur.blockSize, at)
    requires FindFirstEmptyBlock(st.disk, st.cur.blockSize, st.cur.emptyBlockPosition) == Ok(at)
    requires !InUse(st.disk, st.cur.blockSize, at) && Aligned(st.cur.blockSize, Max(|st.disk|, at + SlotSize(st.cur.blockSize)))
    requires Placed(st.cur.blockSize, at, st.cur.firstBlockPosition, st.cur.currentBlockPosition, false)
    requires LongsFit(st.cur.blockSize, at, st.cur) && IsLong(st.cur.size)
    ensures WriteBack(st).Ok?
    ensures WriteBack(st).value.cur == st.cur.(emptyBlockPosition := at, currentBlockPosition := at,
                                               isWriteData := false)
    ensures Appended(st.disk, WriteBack(st).value.disk, st.cur.blockSize, st.cur.firstBlockPosition,
                     st.cur.currentBlockPosition, at, st.cur.buffer.value)
    ensures StoredSize(WriteBack(st).value.disk, st.cur.firstBlockPosition) == Ok(st.cur.size)
    ensures |WriteBack(st).value.disk| == Max(|st.disk|, at + SlotSize(st.cur.blockSize))
  {
    BackTailSlot(st, at);
    BackTailLinks(st, at);
    BackTailKeeps(st, at);
  }

  /** The steps of writeBack for a new block after the head. */
  lemma {:induction false} BackTailSteps(st: St, at: int)
    requires Valid(st) && st.cur.buffer.Some? && st.cur.bufferStartPosition == NONE
    requires FindFirstEmptyBlock(st.disk, st.cur.blockSize, st.cur.emptyBlockPosition) == Ok(at)
    requires at >= 0 && st.cur.firstBlockPosition >= 0
    requires WriteNew(st.disk, st.cur, st.cur.buffer.value, at, st.cur.firstBlockPosition, false).Ok?
    ensures WriteBack(st) == Ok(St(Put(WriteNew(st.disk, st.cur, st.cur.buffer.value, at, st.cur.firstBlockPosition, false).value,
                                       st.cur.firstBlockPosition + 16, LongToBytes(st.cur.size)).value,
                                   st.cur.(emptyBlockPosition := at, currentBlockPosition := at, isWriteData := false)))
  {
  }

  // ---------------------------------------------------------------------------
  // The byte after a full buffer

  /** The cursor a byte written into a blank buffer leaves. */
  function Blank(c: Cursor, x: byte): (r: Cursor)
    requires c.blockSize > 0
    ensures r.buffer == Some(Zeros(c.blockSize)[0 := x]) && r.bufferPosition == 1
  {
    c.(buffer := Some(Zeros(c.blockSize)[0 := x]), bufferStartPosition := NONE, bufferPosition := 1,
       position := c.position + 1, size := if c.position + 1 > c.size then c.position + 1 else c.size,
       isWriteData := true)
  }

  /** writeByte with the buffer used up: the write-back runs, then two
      loads past the end give a blank buffer, and the byte goes first in it. */
  lemma {:induction false} FullWrite(st: St, x: byte, st1: St)
    requires Valid(st) && st.cur.buffer.Some? && !HasRoom(st.cur) && st.cur.isWriteData
    requires WriteBack(st) == Ok(st1)
    requires st1.cur.firstBlockPosition != NONE && st1.cur.isEOF
    ensures WriteByte(st, x) == Ok(St(st1.disk, Blank(st1.cur, x)))
  {
  }

  /** close after a write-back that leaves the stream at its end: the
      container the write-back left and the head block. */
  lemma {:induction false} CloseAfterBack(st: St, st1: St)
    requires Valid(st) && st.cur.isWriteData && WriteBack(st) == Ok(st1)
    requires st1.cur.firstBlockPosition != NONE && st1.cur.isEOF
    ensures Close(st) == Ok((st1.disk, st1.cur.firstBlockPosition))
  {
  }

  // ---------------------------------------------------------------------------
  // Write-back of a new block, with the chain

  /** writeBack of a new head: the head alone is a chain carrying the
      buffer after its meta longs, and it records the size. */
  lemma {:induction false} HeadGrow(st: St, d0: Disk, b: int) returns (at: int)
    requires Valid(st) && st.disk == d0 && DiskOk(d0, b) && st.cur.blockSize == b
    requires st.cur.buffer.Some? && |st.cur.buffer.value| == b
    requires st.cur.bufferStartPosition == NONE && st.cur.firstBlockPosition == NONE
    requires st.cur.emptyBlockPosition == FIRST_SLOT && IsLong(st.cur.size) && Room(d0, b, 1)
    ensures WriteBack(st).Ok?
    ensures at >= FIRST_SLOT
    ensures WriteBack(st).value.cur == st.cur.(emptyBlockPosition := at, firstBlockPosition := at,
                                               currentBlockPosition := at, isWriteData := false)
    ensures var d' := WriteBack(st).value.disk;
      && Grown(d0, d', b, [at]) && ContentUpTo(d', b, [at], 1) == st.cur.buffer.value[16..]
      && StoredSize(d', at) == Ok(st.cur.size)
  {
    at := HeadPlace(d0, b);
    BackHead(st, at);
    Start(d0, WriteBack(st).value.disk, b, at, st.cur.buffer.value[16..]);
  }

  /** writeBack of a new block after the chain's last one: the chain grows
      by the block and its content by the buffer, and the head records the
      size. */
  lemma {:induction false} TailGrow(st: St, d0: Disk, b: int, blocks: seq<int>) returns (at: int)
    requires Valid(st) && Grown(d0, st.disk, b, blocks) && st.cur.blockSize == b
    requires st.cur.buffer.Some? && |st.cur.buffer.value| == b && st.cur.bufferStartPosition == NONE
    requires st.cur.firstBlockPosition == blocks[0]
    requires st.cur.currentBlockPosition == blocks[|blocks| - 1]
    requires st.cur.emptyBlockPosition == blocks[|blocks| - 1]
    requires IsLong(st.cur.size) && Room(d0, b, |blocks| + 1)
    ensures WriteBack(st).Ok?
    ensures at >= FIRST_SLOT
    ensures WriteBack(st).value.cur == st.cur.(emptyBlockPosition := at, currentBlockPosition := at,
                                               isWriteData := false)
    ensures var d' := WriteBack(st).value.disk;
      && Grown(d0, d', b, blocks + [at])
      && ContentUpTo(d', b, blocks + [at], |blocks| + 1)
         == ContentUpTo(st.disk, b, blocks, |blocks|) + st.cur.buffer.value
      && StoredSize(d', blocks[0]) == Ok(st.cur.size)
  {
    at := TailPlace(d0, st.disk, b, blocks);
    BackTailAll(st, at);
    Extend(d0, st.disk, WriteBack(st).value.disk, b, blocks, at, st.cur.buffer.value);
  }

  // ---------------------------------------------------------------------------
  // The writer invariant

  /** A new stream over d0 that has taken the bytes w, all still in the
      head buffer: nothing is written to the container yet. */
  predicate Heading(st: St, d0: Disk, b: int, w: seq<byte>) {
    var c := st.cur;
    && st.disk == d0 && DiskOk(d0, b) && Valid(st) && c.blockSize == b
    && c.firstBlockPosition == NONE && c.emptyBlockPosition == FIRST_SLOT && c.isEOF
    && c.size == |w| && c.position == |w| && |w| <= b - 16
    && (|w| == 0 ==> c.buffer.None? && !c.isWriteData)
    && (|w| > 0 ==>
          && c.buffer.Some? && |c.buffer.value| == b && c.bufferStartPosition == NONE
          && c.bufferPosition == 16 + |w| && c.buffer.value[16..16 + |w|] == w && c.isWriteData)
  }

  /** A new stream over d0 that has taken the bytes w: the full blocks are
      written as the chain `blocks`, the rest of w is in the buffer of the
      next, not yet allocated, block. */
  ghost predicate Appending(st: St, d0: Disk, b: int, blocks: seq<int>, w: seq<byte>) {
    var c := st.cur;
    && Grown(d0, st.disk, b, blocks) && Valid(st) && c.blockSize == b
    && c.firstBlockPosition == blocks[0]
    && c.currentBlockPosition == blocks[|blocks| - 1] && c.emptyBlockPosition == blocks[|blocks| - 1]
    && c.isEOF && c.isWriteData
    && c.buffer.Some? && |c.buffer.value| == b && c.bufferStartPosition == NONE
    && Offset(b, |blocks|) < |w| <= Offset(b, |blocks|) + b
    && c.size == |w| && c.position == |w|
    && c.bufferPosition == |w| - Offset(b, |blocks|)
    && c.buffer.value[..c.bufferPosition] == w[Offset(b, |blocks|)..]
    && ContentUpTo(st.disk, b, blocks, |blocks|) == w[..Offset(b, |blocks|)]
  }

  /** The writer invariant: before the head is written, or after. */
  ghost predicate Writes(st: St, d0: Disk, b: int, blocks: seq<int>, w: seq<byte>) {
    && Valid(st) && st.cur.blockSize == b
    && if |blocks| == 0 then Heading(st, d0, b, w) else Appending(st, d0, b, blocks, w)
  }

  /** A byte that fits in the head buffer. */
  lemma {:induction false} HeadingStep(st: St, d0: Disk, b: int, w: seq<byte>, x: byte)
    requires Heading(st, d0, b, w) && |w| < b - 16
    ensures WriteByte(st, x).Ok? && Heading(WriteByte(st, x).value, d0, b, w + [x])
  {
    var st' := WriteByte(st, x).value;
    var buf' := st'.cur.buffer.value;
    if |w| == 0 {
      assert buf'[16..17] == [x];
    } else {
      assert buf'[16..16 + |w|] == st.cur.buffer.value[16..16 + |w|];
      assert buf'[16..16 + |w| + 1] == w + [x];
    }
  }

  /** After a write-back that completes the chain `blocks` with the bytes w,
      a byte written into the blank buffer is the first of the next block. */
  lemma {:induction false} Restart(d: Disk, c: Cursor, d0: Disk, b: int, blocks: seq<int>, w: seq<byte>, x: byte)
    requires Grown(d0, d, b, blocks) && |blocks| >= 1 && c.blockSize == b
    requires c.firstBlockPosition == blocks[0]
    requires c.currentBlockPosition == blocks[|blocks| - 1] && c.emptyBlockPosition == blocks[|blocks| - 1]
    requires c.isEOF && c.size == |w| && c.position == |w|
    requires |w| == Offset(b, |blocks|) && ContentUpTo(d, b, blocks, |blocks|) == w
    ensures Appending(St(d, Blank(c, x)), d0, b, blocks, w + [x])
  {
    assert (w + [x])[..|w|] == w;
    assert Zeros(b)[0 := x][..1] == (w + [x])[|w|..];
  }

  /** The byte after a full head buffer: the head is written back to the
      first free slot and the byte starts the next block's buffer. */
  lemma {:induction false} HeadingFull(st: St, d0: Disk, b: int, w: seq<byte>, x: byte) returns (at: int)
    requires Heading(st, d0, b, w) && |w| == b - 16 && Room(d0, b, |w| + 1)
    ensures WriteByte(st, x).Ok? && Appending(WriteByte(st, x).value, d0, b, [at], w + [x])
  {
    RoomMono(d0, b, 1, |w| + 1);
    var buf := st.cur.buffer.value;
    at := HeadGrow(st, d0, b);
    var st1 := WriteBack(st).value;
    FullWrite(st, x, st1);
    assert buf[16..] == w;
    Restart(st1.disk, st1.cur, d0, b, [at], w, x);
  }

  /** A byte that fits in the buffer of a block after the head. */
  lemma {:induction false} AppendingStep(st: St, d0: Disk, b: int, blocks: seq<int>, w: seq<byte>, x: byte)
    requires Appending(st, d0, b, blocks, w) && |w| < Offset(b, |blocks|) + b
    ensures WriteByte(st, x).Ok? && Appending(WriteByte(st, x).value, d0, b, blocks, w + [x])
  {
    var m := Offset(b, |blocks|);
    var c := st.cur;
    var buf' := c.buffer.value[c.bufferPosition := x];
    assert buf'[..c.bufferPosition + 1] == c.buffer.value[..c.bufferPosition] + [x];
    assert (w + [x])[m..] == w[m..] + [x];
    assert (w + [x])[..m] == w[..m];
  }

  /** The first m bytes of w followed by a full buffer holding the rest are w. */
  lemma WholeJoin(w: seq<byte>, m: int, buf: seq<byte>)
    requires 0 <= m <= |w| && |buf| == |w| - m && buf[..|buf|] == w[m..]
    ensures w[..m] + buf == w
  {
    assert buf == buf[..|buf|];
  }

  /** The write-back of a full block after the head: the chain grows by it
      and then carries all the bytes written. */
  lemma {:induction false} TailFilled(st: St, d0: Disk, b: int, blocks: seq<int>, w: seq<byte>)
    returns (at: int)
    requires Appending(st, d0, b, blocks, w) && |w| == Offset(b, |blocks|) + b && Room(d0, b, |w| + 1)
    ensures WriteBack(st).Ok?
    ensures var st1 := WriteBack(st).value;
      && st1.cur == st.cur.(emptyBlockPosition := at, currentBlockPosition := at, isWriteData := false)
      && Grown(d0, st1.disk, b, blocks + [at]) && |w| == Offset(b, |blocks| + 1)
      && ContentUpTo(st1.disk, b, blocks + [at], |blocks| + 1) == w
  {
    var n := |blocks|;
    var m := Offset(b, n);
    var buf := st.cur.buffer.value;
    WholeJoin(w, m, buf);
    OffsetAtLeast(b, n);
    RoomMono(d0, b, n + 1, |w| + 1);
    at := TailGrow(st, d0, b, blocks);
  }

  /** The byte after a full buffer of a block after the head: the block is
      written back after the chain's last one and the byte starts the next
      block's buffer. */
  lemma {:induction false} AppendingFull(st: St, d0: Disk, b: int, blocks: seq<int>, w: seq<byte>, x: byte)
    returns (at: int)
    requires Appending(st, d0, b, blocks, w) && |w| == Offset(b, |blocks|) + b && Room(d0, b, |w| + 1)
    ensures WriteByte(st, x).Ok? && Appending(WriteByte(st, x).value, d0, b, blocks + [at], w + [x])
  {
    at := TailFilled(st, d0, b, blocks, w);
    var st1 := WriteBack(st).value;
    Restart(st1.disk, st1.cur, d0, b, blocks + [at], w, x);
    FullWrite(st, x, st1);
  }

  /** One writeByte keeps the writer invariant, with the bytes one longer. */
  lemma {:induction false} WriteStep(st: St, d0: Disk, b: int, blocks: seq<int>, w: seq<byte>, x: byte)
    returns (st': St, blocks': seq<int>)
    requires Writes(st, d0, b, blocks, w) && Room(d0, b, |w| + 1)
    ensures WriteByte(st, x) == Ok(st') && Writes(st', d0, b, blocks', w + [x])
  {
    if |blocks| == 0 {
      if |w| < b - 16 {
        HeadingStep(st, d0, b, w, x);
        blocks' := [];
      } else {
        var at := HeadingFull(st, d0, b, w, x);
        blocks' := [at];
      }
    } else if |w| < Offset(b, |blocks|) + b {
      AppendingStep(st, d0, b, blocks, w, x);
      blocks' := blocks;
    } else {
      var at := AppendingFull(st, d0, b, blocks, w, x);
      blocks' := blocks + [at];
    }
    st' := WriteByte(st, x).value;
  }

  lemma ConsJoin(w: seq<byte>, rest: seq<byte>)
    requires |rest| > 0
    ensures w + [rest[0]] + rest[1..] == w + rest
  {
    assert rest == [rest[0]] + rest[1..];
  }

  /** write(byte[]) keeps the writer invariant over all its bytes. */
  lemma {:induction false} WriteAllWrites(st: St, d0: Disk, b: int, blocks: seq<int>, w: seq<byte>, rest: seq<byte>)
    returns (st': St, blocks': seq<int>)
    requires Writes(st, d0, b, blocks, w) && Room(d0, b, |w| + |rest|)
    ensures WriteAll(st, rest) == Ok(st') && Writes(st', d0, b, blocks', w + rest)
    decreases |rest|
  {
    if |rest| == 0 {
      assert w + rest == w;
      st', blocks' := st, blocks;
    } else {
      ConsJoin(w, rest);
      RoomMono(d0, b, |w| + 1, |w| + |rest|);
      var st1, bl := WriteStep(st, d0, b, blocks, w, rest[0]);
      st', blocks' := WriteAllWrites(st1, d0, b, bl, w + [rest[0]], rest[1..]);
    }
  }

  /** A new stream over a usable container starts the writer invariant. */
  lemma {:induction false} OpenHeading(d: Disk, b: int)
    requires DiskOk(d, b)
    ensures Open(d, NONE).Ok? && Heading(Open(d, NONE).value, d, b, [])
  {
    OpenDisk(d, b, NONE);
  }

  /** A chain whose head records |w| and whose payloads start with w stores w. */
  lemma {:induction false} StoredPrefix(d: Disk, b: int, blocks: seq<int>, w: seq<byte>)
    requires b > 16 && ChainOk(d, b, blocks) && StoredSize(d, blocks[0]) == Ok(|w|)
    requires |w| <= Offset(b, |blocks|) && ContentUpTo(d, b, blocks, |blocks|)[..|w|] == w
    ensures Stored(d, b, blocks, w)
  {
    forall j | 0 <= j < |w|
      ensures StoredAt(d, b, blocks, w, j)
    {
      assert w[j] == ContentUpTo(d, b, blocks, |blocks|)[..|w|][j];
    }
  }

  /** close of a stream that never filled its head buffer: the head is
      allocated and holds all the bytes. */
  lemma {:induction false} CloseHead(st: St, d0: Disk, b: int, w: seq<byte>) returns (blocks: seq<int>)
    requires Heading(st, d0, b, w) && |w| > 0 && Room(d0, b, |w|)
    ensures Close(st).Ok? && |blocks| == 1 && Close(st).value.1 == blocks[0]
    ensures var d := Close(st).value.0;
      Grown(d0, d, b, blocks) && Stored(d, b, blocks, w)
  {
    RoomMono(d0, b, 1, |w|);
    var at := HeadGrow(st, d0, b);
    var st1 := WriteBack(st).value;
    CloseAfterBack(st, st1);
    blocks := [at];
    var buf := st.cur.buffer.value;
    assert buf[16..][..|w|] == buf[16..16 + |w|];
    StoredPrefix(st1.disk, b, blocks, w);
  }

  /** The first m bytes of w followed by a buffer that starts with the rest
      of w begin with w. */
  lemma PrefixJoin(w: seq<byte>, m: int, buf: seq<byte>)
    requires 0 <= m <= |w| <= m + |buf| && buf[..|w| - m] == w[m..]
    ensures (w[..m] + buf)[..|w|] == w
  {
    assert (w[..m] + buf)[..|w|] == w[..m] + buf[..|w| - m];
  }

  /** The write-back at close of a stream with a chain: the partial last
      block is appended and the chain stores exactly the bytes written. */
  lemma {:induction false} TailStored(st: St, d0: Disk, b: int, bl: seq<int>, w: seq<byte>) returns (at: int)
    requires Appending(st, d0, b, bl, w) && Room(d0, b, |w|)
    ensures WriteBack(st).Ok? && at >= FIRST_SLOT
    ensures var c := WriteBack(st).value.cur; c.firstBlockPosition == bl[0] && c.isEOF
    ensures var d := WriteBack(st).value.disk;
      Grown(d0, d, b, bl + [at]) && Stored(d, b, bl + [at], w)
  {
    var n := |bl|;
    var m := Offset(b, n);
    var buf := st.cur.buffer.value;
    OffsetAtLeast(b, n);
    RoomMono(d0, b, n + 1, |w|);
    at := TailGrow(st, d0, b, bl);
    GrownStored(st.disk, WriteBack(st).value.disk, b, bl, at, w, buf);
  }

  /** The chain grown by the partial last block stores the bytes written. */
  lemma {:induction false} GrownStored(d: Disk, d': Disk, b: int, bl: seq<int>, at: int,
                                       w: seq<byte>, buf: seq<byte>)
    requires b > 16 && ChainOk(d', b, bl + [at]) && AllInUse(d, b, bl) && |bl| >= 1
    requires Offset(b, |bl|) <= |w| <= Offset(b, |bl|) + b && |buf| == b
    requires ContentUpTo(d', b, bl + [at], |bl| + 1) == ContentUpTo(d, b, bl, |bl|) + buf
    requires ContentUpTo(d, b, bl, |bl|) == w[..Offset(b, |bl|)]
    requires buf[..|w| - Offset(b, |bl|)] == w[Offset(b, |bl|)..]
    requires StoredSize(d', bl[0]) == Ok(|w|)
    ensures Stored(d', b, bl + [at], w)
  {
    PrefixJoin(w, Offset(b, |bl|), buf);
    StoredPrefix(d', b, bl + [at], w);
  }

  /** close of a stream with a chain. */
  lemma {:induction false} CloseTail(st: St, d0: Disk, b: int, bl: seq<int>, w: seq<byte>) returns (blocks: seq<int>)
    requires Appending(st, d0, b, bl, w) && Room(d0, b, |w|)
    ensures Close(st).Ok? && |blocks| >= 1 && Close(st).value.1 == blocks[0]
    ensures var d := Close(st).value.0;
      Grown(d0, d, b, blocks) && Stored(d, b, blocks, w)
  {
    var at := TailStored(st, d0, b, bl, w);
    CloseAfterBack(st, WriteBack(st).value);
    blocks := bl + [at];
  }

  /** close under the writer invariant: nothing for an empty stream, else a
      new chain that stores exactly the bytes written. */
  lemma {:induction false} CloseWrites(st: St, d0: Disk, b: int, bl: seq<int>, w: seq<byte>) returns (blocks: seq<int>)
    requires Writes(st, d0, b, bl, w) && Room(d0, b, |w|)
    ensures Close(st).Ok?
    ensures |w| == 0 ==> Close(st).value == (d0, NONE)
    ensures |w| > 0 ==> var (d, head) := Close(st).value;
      && |blocks| >= 1 && head == blocks[0]
      && Grown(d0, d, b, blocks) && Stored(d, b, blocks, w)
  {
    if |bl| == 0 {
      if |w| == 0 {
        blocks := [];
      } else {
        blocks := CloseHead(st, d0, b, w);
      }
    } else {
      blocks := CloseTail(st, d0, b, bl, w);
    }
  }

  // ---------------------------------------------------------------------------
  // Storing a stream, and the streams it leaves alone

  /** A new stream (`head` = NONE) that takes the bytes w and is closed: the
      container afterwards and the head block the close listener receives. */
  function Store(d: Disk, w: seq<byte>): (r: Result<(Disk, int)>)
    ensures |w| == 0 && r.Ok? ==> r.value.1 == NONE
    ensures |w| > 0 && r.Ok? ==> r.value.1 != NONE
  {
    var st :- Open(d, NONE);
    var st1 :- WriteAll(st, w);
    Close(st1)
  }

  /** A stream without a head loads as the empty stream. */
  lemma {:induction false} LoadNone(d: Disk, b: int)
    requires DiskOk(d, b)
    ensures Load(d, NONE) == Ok([])
  {
    OpenDisk(d, b, NONE);
  }

  /** The payload of a block in use in d0 is the same in d when d keeps d0. */
  lemma {:induction false} PayloadKept(d0: Disk, d: Disk, b: int, blocks: seq<int>, i: int)
    requires b > 16 && Kept(d0, d, b) && InUseAt(d0, b, blocks, i) && InUseAt(d, b, blocks, i)
    ensures Payload(d, b, blocks, i) == Payload(d0, b, blocks, i)
  {
    var p := blocks[i];
    assert InUse(d0, b, p);
    SubSlice(d0, d, p, p + SlotSize(b), PayloadStart(blocks, i), PayloadStart(blocks, i) + PayloadLen(b, i));
  }

  /** The first k payloads of a chain in use in d0 are the same in d. */
  lemma {:induction false} ContentSame(d0: Disk, d: Disk, b: int, blocks: seq<int>, k: nat)
    requires b > 16 && Kept(d0, d, b) && AllInUse(d0, b, blocks) && AllInUse(d, b, blocks) && k <= |blocks|
    ensures ContentUpTo(d, b, blocks, k) == ContentUpTo(d0, b, blocks, k)
  {
    if k > 0 {
      ContentSame(d0, d, b, blocks, k - 1);
      assert InUseAt(d0, b, blocks, k - 1) && InUseAt(d, b, blocks, k - 1);
      PayloadKept(d0, d, b, blocks, k - 1);
    }
  }

  /** A stream stored in d0 is stored, with the same bytes, in any container
      that keeps d0's slots in use. */
  lemma {:induction false} StoredKept(d0: Disk, d: Disk, b: int, blocks: seq<int>, content: seq<byte>)
    requires Kept(d0, d, b) && Stored(d0, b, blocks, content)
    ensures Stored(d, b, blocks, content)
  {
    forall i | 0 <= i < |blocks|
      ensures InUseAt(d, b, blocks, i) && LinkAt(d, blocks, i)
    {
      assert InUseAt(d0, b, blocks, i) && LinkAt(d0, blocks, i);
      SlotReads(d0, d, b, blocks[i]);
    }
    assert ChainOk(d, b, blocks);
    assert InUseAt(d0, b, blocks, 0);
    SlotReads(d0, d, b, blocks[0]);
    ContentSame(d0, d, b, blocks, |blocks|);
    forall j | 0 <= j < |content|
      ensures StoredAt(d, b, blocks, content, j)
    {
      assert StoredAt(d0, b, blocks, content, j);
    }
  }

  /** Writing a new stream and closing it stores exactly its bytes: loading
      from the head the close reports gives them back. Only free slots and
      the space past the end are written, so every slot in use before is
      kept, and the container stays well formed. */
  lemma {:induction false} StoreLoad(d: Disk, b: int, w: seq<byte>) returns (blocks: seq<int>)
    requires DiskOk(d, b) && Room(d, b, |w|)
    ensures Store(d, w).Ok?
    ensures var (d', head) := Store(d, w).value;
      && DiskOk(d', b) && Kept(d, d', b) && Load(d', head) == Ok(w)
      && (|w| == 0 ==> d' == d && head == NONE)
      && (|w| > 0 ==> |blocks| >= 1 && head == blocks[0] && Stored(d', b, blocks, w) && AllNew(d, b, blocks))
  {
    OpenHeading(d, b);
    var st := Open(d, NONE).value;
    assert [] + w == w;
    var st1, bl := WriteAllWrites(st, d, b, [], [], w);
    blocks := CloseWrites(st1, d, b, bl, w);
    var (d', head) := Store(d, w).value;
    if |w| == 0 {
      KeptSelf(d, b);
      LoadNone(d, b);
    } else {
      LoadStored(d', b, blocks, w);
    }
  }

  /** Storing a new stream leaves every other stored stream loadable with
      its old bytes. */
  lemma {:induction false} StoreKeepsOthers(d: Disk, b: int, w: seq<byte>, other: seq<int>, content: seq<byte>)
    requires DiskOk(d, b) && Room(d, b, |w|) && Stored(d, b, other, content)
    ensures Store(d, w).Ok?
    ensures var (d', _) := Store(d, w).value;
      Stored(d', b, other, content) && Load(d', other[0]) == Ok(content)
  {
    var _ := StoreLoad(d, b, w);
    var (d', _) := Store(d, w).value;
    StoredKept(d, d', b, other, content);
    LoadStored(d', b, other, content);
  }
}
