/** The writing half of the stream: what writing back a new block leaves in
    the container, the invariant a stream keeps while bytes are appended to
    a new file, and the round trip through close and reopen. */
module Writing {
  import opened Wrappers
  import opened Bytes
  import opened Blocks
  import opened Stream
  import opened Reading

  // ---------------------------------------------------------------------------
  // The layout of a new block

  /** The range [lo, hi) misses every long and byte that writing a new block
      at `at` touches: the new slot, the head's size and last-block longs and
      the previous block's next pointer. */
  predicate Untouched(lo: int, hi: int, b: int, at: int, first: int, prev: int) {
    && 0 <= lo <= hi
    && (hi <= at || at + SlotSize(b) <= lo)
    && (hi <= first + 16 || first + 32 <= lo)
    && (hi <= prev + 8 || prev + 16 <= lo)
  }

  /** Where a new block may go: a new head is its own first and previous
      block; otherwise the new slot comes after the head and the previous
      block, which are whole slots apart. */
  predicate Placed(b: int, at: int, first: int, prev: int, isFirst: bool) {
    && FIRST_SLOT <= at
    && (isFirst ==> first == at && prev == at)
    && (!isFirst ==> FIRST_SLOT <= first <= prev && prev + SlotSize(b) <= at
                     && (first == prev || first + SlotSize(b) <= prev))
  }

  /** The longs a new block stores are longs. */
  predicate LongsFit(b: int, at: int, c: Cursor) {
    IsLong(at + SlotSize(b)) && 0 <= c.bufferPosition <= b
  }

  /** The three longs and the buffer every new block gets, on top of d2. */
  lemma {:induction false} NewSlot(d2: Disk, c: Cursor, buf: seq<byte>, at: int)
    requires |buf| > 16 && FIRST_SLOT <= at && LongsFit(|buf|, at, c)
    ensures var d5 := Put(Put(Put(d2, at, LongToBytes(at + 16 + c.bufferPosition - 1)).value,
                              at + 8, LongToBytes(NONE)).value, at + 16, buf).value;
      && |d5| == Max(|d2|, at + SlotSize(|buf|))
      && ReadLong(d5, at) == Ok(at + 16 + c.bufferPosition - 1)
      && ReadLong(d5, at + 8) == Ok(NONE)
      && d5[at + 16..at + 16 + |buf|] == buf
  {
    var m := at + 16 + c.bufferPosition - 1;
    var d3 := Put(d2, at, LongToBytes(m)).value;
    var d4 := Put(d3, at + 8, LongToBytes(NONE)).value;
    PutReadLong(d2, at, m);
    PutReadLong(d3, at + 8, NONE);
    PutReadLongFrame(d3, at + 8, LongToBytes(NONE), at);
    PutReadLongFrame(d4, at + 16, buf, at);
    PutReadLongFrame(d4, at + 16, buf, at + 8);
    PutSlice(d4, at + 16, buf);
  }

  /** A new head block: the slot, then the head's last-block long naming itself. */
  lemma {:induction false} NewHeadDisk(d: Disk, c: Cursor, buf: seq<byte>, at: int)
    requires |buf| > 16 && FIRST_SLOT <= at && LongsFit(|buf|, at, c)
    ensures WriteNew(d, c, buf, at, at, true).Ok?
    ensures var d' := WriteNew(d, c, buf, at, at, true).value;
      && |d'| == Max(|d|, at + SlotSize(|buf|))
      && ReadLong(d', at) == Ok(at + 16 + c.bufferPosition - 1)
      && ReadLong(d', at + 8) == Ok(NONE)
      && d'[at + 32..at + 16 + |buf|] == buf[16..]
      && ReadLong(d', at + 24) == Ok(at)
  {
    var b := |buf|;
    var d5 := Put(Put(Put(d, at, LongToBytes(at + 16 + c.bufferPosition - 1)).value,
                      at + 8, LongToBytes(NONE)).value, at + 16, buf).value;
    NewSlot(d, c, buf, at);
    PutReadLong(d5, at + 24, at);
    PutReadLongFrame(d5, at + 24, LongToBytes(at), at);
    PutReadLongFrame(d5, at + 24, LongToBytes(at), at + 8);
    PutFrame(d5, at + 24, LongToBytes(at), at + 32, at + 16 + b);
    assert d5[at + 32..at + 16 + b] == d5[at + 16..at + 16 + b][16..];
  }

  /** A long before the new slot is left as it was by writing the slot. */
  lemma {:induction false} BeforeSlot(d2: Disk, c: Cursor, buf: seq<byte>, at: int, a: int)
    requires |buf| > 16 && FIRST_SLOT <= at && LongsFit(|buf|, at, c)
    requires 0 <= a && a + 8 <= at && a + 8 <= |d2|
    ensures var d5 := Put(Put(Put(d2, at, LongToBytes(at + 16 + c.bufferPosition - 1)).value,
                              at + 8, LongToBytes(NONE)).value, at + 16, buf).value;
      ReadLong(d5, a) == ReadLong(d2, a)
  {
    var m := at + 16 + c.bufferPosition - 1;
    var d3 := Put(d2, at, LongToBytes(m)).value;
    var d4 := Put(d3, at + 8, LongToBytes(NONE)).value;
    PutReadLongFrame(d2, at, LongToBytes(m), a);
    PutReadLongFrame(d3, at + 8, LongToBytes(NONE), a);
    PutReadLongFrame(d4, at + 16, buf, a);
  }

  /** The two links a block after the head needs: the head's last-block long
      and the previous block's next pointer. */
  lemma {:induction false} TailLinks(d: Disk, at: int, first: int, prev: int)
    requires 0 <= first && 0 <= prev && IsLong(at)
    requires prev + 8 >= first + 32 || prev + 16 <= first + 24
    ensures var d1 := Put(d, first + 24, LongToBytes(at)).value;
            var d2 := Put(d1, prev + 8, LongToBytes(at)).value;
      && ReadLong(d2, first + 24) == Ok(at) && ReadLong(d2, prev + 8) == Ok(at)
      && |d2| == Max(Max(|d|, first + 32), prev + 16)
  {
    var d1 := Put(d, first + 24, LongToBytes(at)).value;
    PutReadLong(d, first + 24, at);
    PutReadLongFrame(d1, prev + 8, LongToBytes(at), first + 24);
    PutReadLong(d1, prev + 8, at);
  }

  /** A block after the head: its end-marker, a NONE next pointer and the
      buffer land in the new slot. */
  lemma {:induction false} NewTailSlot(d: Disk, c: Cursor, buf: seq<byte>, at: int, first: int)
    requires |buf| > 16 && Placed(|buf|, at, first, c.currentBlockPosition, false)
    requires LongsFit(|buf|, at, c)
    ensures WriteNew(d, c, buf, at, first, false).Ok?
    ensures var d' := WriteNew(d, c, buf, at, first, false).value;
      && |d'| == Max(|d|, at + SlotSize(|buf|))
      && ReadLong(d', at) == Ok(at + 16 + c.bufferPosition - 1)
      && ReadLong(d', at + 8) == Ok(NONE)
      && d'[at + 16..at + 16 + |buf|] == buf
  {
    var prev := c.currentBlockPosition;
    var d1 := Put(d, first + 24, LongToBytes(at)).value;
    var d2 := Put(d1, prev + 8, LongToBytes(at)).value;
    TailLinks(d, at, first, prev);
    NewSlot(d2, c, buf, at);
    TailSteps(d, c, buf, at, first);
  }

  /** A block after the head: the head's last-block long and the previous
      block's next pointer name the new slot. */
  lemma {:induction false} NewTailLinks(d: Disk, c: Cursor, buf: seq<byte>, at: int, first: int)
    requires |buf| > 16 && Placed(|buf|, at, first, c.currentBlockPosition, false)
    requires LongsFit(|buf|, at, c)
    ensures WriteNew(d, c, buf, at, first, false).Ok?
    ensures var d' := WriteNew(d, c, buf, at, first, false).value;
      && ReadLong(d', first + 24) == Ok(at)
      && ReadLong(d', c.currentBlockPosition + 8) == Ok(at)
  {
    var prev := c.currentBlockPosition;
    TailLinks(d, at, first, prev);
    TailBeforeSlot(d, c, buf, at, first, first + 24);
    TailBeforeSlot(d, c, buf, at, first, prev + 8);
  }

  /** A long before the new slot reads as the two links left it. */
  lemma {:induction false} TailBeforeSlot(d: Disk, c: Cursor, buf: seq<byte>, at: int, first: int, a: int)
    requires |buf| > 16 && Placed(|buf|, at, first, c.currentBlockPosition, false)
    requires LongsFit(|buf|, at, c)
    requires 0 <= a && a + 8 <= at
    requires a + 8 <= Max(Max(|d|, first + 32), c.currentBlockPosition + 16)
    ensures WriteNew(d, c, buf, at, first, false).Ok?
    ensures var d1 := Put(d, first + 24, LongToBytes(at)).value;
            var d2 := Put(d1, c.currentBlockPosition + 8, LongToBytes(at)).value;
            ReadLong(WriteNew(d, c, buf, at, first, false).value, a) == ReadLong(d2, a)
  {
    var d1 := Put(d, first + 24, LongToBytes(at)).value;
    var d2 := Put(d1, c.currentBlockPosition + 8, LongToBytes(at)).value;
    BeforeSlot(d2, c, buf, at, a);
    TailSteps(d, c, buf, at, first);
  }

  /** The writes writeBlock makes for a block after the head, in order. */
  lemma {:induction false} TailSteps(d: Disk, c: Cursor, buf: seq<byte>, at: int, first: int)
    requires 0 <= at && 0 <= first && 0 <= c.currentBlockPosition
    ensures var d1 := Put(d, first + 24, LongToBytes(at)).value;
            var d2 := Put(d1, c.currentBlockPosition + 8, LongToBytes(at)).value;
            var d5 := Put(Put(Put(d2, at, LongToBytes(at + 16 + c.bufferPosition - 1)).value,
                              at + 8, LongToBytes(NONE)).value, at + 16, buf).value;
            WriteNew(d, c, buf, at, first, false) == Ok(d5)
  {
  }

  /** The writes writeBlock makes for a new head, in order. */
  lemma {:induction false} HeadSteps(d: Disk, c: Cursor, buf: seq<byte>, at: int)
    requires 0 <= at
    ensures var d5 := Put(Put(Put(d, at, LongToBytes(at + 16 + c.bufferPosition - 1)).value,
                              at + 8, LongToBytes(NONE)).value, at + 16, buf).value;
            WriteNew(d, c, buf, at, at, true) == Ok(Put(d5, at + 24, LongToBytes(at)).value)
  {
  }

  /** writeBlock of a new head, with the size long written last. */
  lemma {:induction false} HeadBackDisk(d: Disk, c: Cursor, buf: seq<byte>, at: int)
    requires |buf| > 16 && FIRST_SLOT <= at && LongsFit(|buf|, at, c) && IsLong(c.size)
    ensures WriteNew(d, c, buf, at, at, true).Ok?
    ensures var d' := Put(WriteNew(d, c, buf, at, at, true).value, at + 16, LongToBytes(c.size)).value;
      && |d'| == Max(|d|, at + SlotSize(|buf|))
      && ReadLong(d', at) == Ok(at + 16 + c.bufferPosition - 1)
      && ReadLong(d', at + 8) == Ok(NONE)
      && d'[at + 32..at + 16 + |buf|] == buf[16..]
      && ReadLong(d', at + 16) == Ok(c.size)
      && ReadLong(d', at + 24) == Ok(at)
  {
    NewHeadDisk(d, c, buf, at);
    var d5 := WriteNew(d, c, buf, at, at, true).value;
    PutReadLong(d5, at + 16, c.size);
    PutReadLongFrame(d5, at + 16, LongToBytes(c.size), at);
    PutReadLongFrame(d5, at + 16, LongToBytes(c.size), at + 8);
    PutReadLongFrame(d5, at + 16, LongToBytes(c.size), at + 24);
    PutFrame(d5, at + 16, LongToBytes(c.size), at + 32, at + 16 + |buf|);
  }

  /** writeBlock of a block after the head, with the size long written
      last: the new slot. */
  lemma {:induction false} TailBackSlot(d: Disk, c: Cursor, buf: seq<byte>, at: int, first: int)
    requires |buf| > 16 && Placed(|buf|, at, first, c.currentBlockPosition, false)
    requires LongsFit(|buf|, at, c) && IsLong(c.size)
    ensures WriteNew(d, c, buf, at, first, false).Ok?
    ensures var d' := Put(WriteNew(d, c, buf, at, first, false).value, first + 16, LongToBytes(c.size)).value;
      && |d'| == Max(|d|, at + SlotSize(|buf|))
      && ReadLong(d', at) == Ok(at + 16 + c.bufferPosition - 1)
      && ReadLong(d', at + 8) == Ok(NONE)
      && d'[at + 16..at + 16 + |buf|] == buf
  {
    NewTailSlot(d, c, buf, at, first);
    var d5 := WriteNew(d, c, buf, at, first, false).value;
    var x := LongToBytes(c.size);
    PutReadLongFrame(d5, first + 16, x, at);
    PutReadLongFrame(d5, first + 16, x, at + 8);
    PutFrame(d5, first + 16, x, at + 16, at + 16 + |buf|);
  }

  /** writeBlock of a block after the head, with the size long written
      last: the head's size and last-block longs and the previous block's
      next pointer. */
  lemma {:induction false} TailBackLinks(d: Disk, c: Cursor, buf: seq<byte>, at: int, first: int)
    requires |buf| > 16 && Placed(|buf|, at, first, c.currentBlockPosition, false)
    requires LongsFit(|buf|, at, c) && IsLong(c.size)
    ensures WriteNew(d, c, buf, at, first, false).Ok?
    ensures var d' := Put(WriteNew(d, c, buf, at, first, false).value, first + 16, LongToBytes(c.size)).value;
      && ReadLong(d', first + 16) == Ok(c.size)
      && ReadLong(d', first + 24) == Ok(at)
      && ReadLong(d', c.currentBlockPosition + 8) == Ok(at)
  {
    NewTailSlot(d, c, buf, at, first);
    NewTailLinks(d, c, buf, at, first);
    var d5 := WriteNew(d, c, buf, at, first, false).value;
    var x := LongToBytes(c.size);
    PutReadLong(d5, first + 16, c.size);
    PutReadLongFrame(d5, first + 16, x, first + 24);
    PutReadLongFrame(d5, first + 16, x, c.currentBlockPosition + 8);
  }

  /** Writing the new slot leaves every byte outside it alone. */
  lemma {:induction false} SlotKeeps(d2: Disk, c: Cursor, buf: seq<byte>, at: int, lo: int, hi: int)
    requires |buf| > 16 && FIRST_SLOT <= at && LongsFit(|buf|, at, c)
    requires 0 <= lo <= hi <= |d2| && (hi <= at || at + SlotSize(|buf|) <= lo)
    ensures var d5 := Put(Put(Put(d2, at, LongToBytes(at + 16 + c.bufferPosition - 1)).value,
                              at + 8, LongToBytes(NONE)).value, at + 16, buf).value;
      d5[lo..hi] == d2[lo..hi]
  {
    var m := at + 16 + c.bufferPosition - 1;
    var d3 := Put(d2, at, LongToBytes(m)).value;
    var d4 := Put(d3, at + 8, LongToBytes(NONE)).value;
    PutFrame(d2, at, LongToBytes(m), lo, hi);
    PutFrame(d3, at + 8, LongToBytes(NONE), lo, hi);
    PutFrame(d4, at + 16, buf, lo, hi);
  }

  /** Writing a new head leaves every byte outside its slot alone. */
  lemma {:induction false} HeadKeeps(d: Disk, c: Cursor, buf: seq<byte>, at: int, lo: int, hi: int)
    requires |buf| > 16 && FIRST_SLOT <= at && LongsFit(|buf|, at, c)
    requires 0 <= lo <= hi <= |d| && (hi <= at || at + SlotSize(|buf|) <= lo)
    ensures WriteNew(d, c, buf, at, at, true).Ok?
    ensures Put(WriteNew(d, c, buf, at, at, true).value, at + 16, LongToBytes(c.size)).value[lo..hi] == d[lo..hi]
  {
    var d5 := Put(Put(Put(d, at, LongToBytes(at + 16 + c.bufferPosition - 1)).value,
                      at + 8, LongToBytes(NONE)).value, at + 16, buf).value;
    SlotKeeps(d, c, buf, at, lo, hi);
    HeadSteps(d, c, buf, at);
    var d6 := Put(d5, at + 24, LongToBytes(at)).value;
    PutFrame(d5, at + 24, LongToBytes(at), lo, hi);
    PutFrame(d6, at + 16, LongToBytes(c.size), lo, hi);
  }

  /** Writing the two links leaves every range that misses them alone. */
  lemma {:induction false} LinksKeep(d: Disk, at: int, first: int, prev: int, lo: int, hi: int)
    requires 0 <= first && 0 <= prev
    requires 0 <= lo <= hi <= |d|
    requires (hi <= first + 24 || first + 32 <= lo) && (hi <= prev + 8 || prev + 16 <= lo)
    ensures var d1 := Put(d, first + 24, LongToBytes(at)).value;
            Put(d1, prev + 8, LongToBytes(at)).value[lo..hi] == d[lo..hi]
  {
    var d1 := Put(d, first + 24, LongToBytes(at)).value;
    PutFrame(d, first + 24, LongToBytes(at), lo, hi);
    PutFrame(d1, prev + 8, LongToBytes(at), lo, hi);
  }

  /** After the links: the slot and the size long leave an untouched range alone. */
  lemma {:induction false} TailSlotKeeps(d: Disk, c: Cursor, buf: seq<byte>, at: int, first: int, lo: int, hi: int)
    requires |buf| > 16 && Placed(|buf|, at, first, c.currentBlockPosition, false)
    requires LongsFit(|buf|, at, c)
    requires Untouched(lo, hi, |buf|, at, first, c.currentBlockPosition) && hi <= |d|
    ensures WriteNew(d, c, buf, at, first, false).Ok?
    ensures var d1 := Put(d, first + 24, LongToBytes(at)).value;
            var d2 := Put(d1, c.currentBlockPosition + 8, LongToBytes(at)).value;
            Put(WriteNew(d, c, buf, at, first, false).value, first + 16, LongToBytes(c.size)).value[lo..hi]
            == d2[lo..hi]
  {
    var d1 := Put(d, first + 24, LongToBytes(at)).value;
    var d2 := Put(d1, c.currentBlockPosition + 8, LongToBytes(at)).value;
    SlotKeeps(d2, c, buf, at, lo, hi);
    TailSteps(d, c, buf, at, first);
    PutFrame(WriteNew(d, c, buf, at, first, false).value, first + 16, LongToBytes(c.size), lo, hi);
  }

  /** Writing a block after the head leaves every untouched range alone. */
  lemma {:induction false} TailKeeps(d: Disk, c: Cursor, buf: seq<byte>, at: int, first: int, lo: int, hi: int)
    requires |buf| > 16 && Placed(|buf|, at, first, c.currentBlockPosition, false)
    requires LongsFit(|buf|, at, c)
    requires Untouched(lo, hi, |buf|, at, first, c.currentBlockPosition) && hi <= |d|
    ensures WriteNew(d, c, buf, at, first, false).Ok?
    ensures Put(WriteNew(d, c, buf, at, first, false).value, first + 16, LongToBytes(c.size)).value[lo..hi]
            == d[lo..hi]
  {
    LinksKeep(d, at, first, c.currentBlockPosition, lo, hi);
    TailSlotKeeps(d, c, buf, at, first, lo, hi);
  }

  // ---------------------------------------------------------------------------
  // Growing a chain by one block

  /** d' agrees with d on every range that writing a new block at `at`
      leaves untouched. */
  ghost predicate Keeps(d: Disk, d': Disk, b: int, at: int, first: int, prev: int) {
    forall lo, hi {:trigger Untouched(lo, hi, b, at, first, prev)} ::
      Untouched(lo, hi, b, at, first, prev) && hi <= |d| ==> hi <= |d'| && d'[lo..hi] == d[lo..hi]
  }

  predicate BelowAt(blocks: seq<int>, i: int) {
    0 <= i < |blocks| && blocks[i] <= blocks[|blocks| - 1]
  }

  /** The chain's last block is its highest: blocks are allocated upwards. */
  predicate Below(blocks: seq<int>) {
    forall i {:trigger BelowAt(blocks, i)} :: 0 <= i < |blocks| ==> BelowAt(blocks, i)
  }

  /** The parts of a chain block p that writing a new block at `at` after
      the chain's last block `prev` leaves alone: its end-marker, its payload
      and, unless it is `prev`, its next pointer. */
  lemma {:induction false} PartsUntouched(b: int, p: int, first: int, prev: int, at: int)
    requires b > 16 && Aligned(b, p) && Aligned(b, first) && Aligned(b, prev)
    requires p <= prev && first <= prev && prev + SlotSize(b) <= at
    ensures Untouched(p, p + 8, b, at, first, prev)
    ensures p != prev ==> Untouched(p + 8, p + 16, b, at, first, prev)
    ensures p == first ==> Untouched(p + 32, p + 16 + b, b, at, first, prev)
    ensures p != first ==> Untouched(p + 16, p + 16 + b, b, at, first, prev)
  {
    if p < first { AlignedApart(b, p, first); }
    if first < p { AlignedApart(b, first, p); }
    if p < prev { AlignedApart(b, p, prev); }
  }

  /** An old block of the chain reads the same after the new block is added. */
  lemma {:induction false} BlockKept(d: Disk, d': Disk, b: int, blocks: seq<int>, at: int, i: int)
    requires b > 16 && ChainOk(d, b, blocks) && Below(blocks) && 0 <= i < |blocks|
    requires Aligned(b, at) && blocks[|blocks| - 1] + SlotSize(b) <= at
    requires Keeps(d, d', b, at, blocks[0], blocks[|blocks| - 1])
    ensures AllInUse(d, b, blocks)
    ensures InUseAt(d', b, blocks + [at], i)
    ensures i + 1 < |blocks| ==> LinkAt(d', blocks + [at], i)
    ensures Payload(d', b, blocks + [at], i) == Payload(d, b, blocks, i)
  {
    var bl := blocks + [at];
    var first, prev, p := blocks[0], blocks[|blocks| - 1], blocks[i];
    assert InUseAt(d, b, blocks, i) && InUseAt(d, b, blocks, 0) && InUseAt(d, b, blocks, |blocks| - 1);
    assert BelowAt(blocks, i) && BelowAt(blocks, 0);
    PartsUntouched(b, p, first, prev, at);
    assert Untouched(p, p + 8, b, at, first, prev);
    assert ReadLong(d', p) == ReadLong(d, p);
    if i > 0 {
      assert Apart(blocks, 0, i);
      assert Untouched(p + 16, p + 16 + b, b, at, first, prev);
    } else {
      assert Untouched(p + 32, p + 16 + b, b, at, first, prev);
    }
    assert InUseAt(d', b, bl, i);
    if i + 1 < |blocks| {
      assert Apart(blocks, i, |blocks| - 1);
      assert Untouched(p + 8, p + 16, b, at, first, prev);
      assert LinkAt(d, blocks, i);
      assert ReadLong(d', p + 8) == ReadLong(d, p + 8);
    }
  }

  /** The old blocks' content reads the same after the new block is added. */
  lemma {:induction false} ContentKept(d: Disk, d': Disk, b: int, blocks: seq<int>, at: int, k: nat)
    requires b > 16 && ChainOk(d, b, blocks) && Below(blocks) && k <= |blocks|
    requires Aligned(b, at) && blocks[|blocks| - 1] + SlotSize(b) <= at
    requires Keeps(d, d', b, at, blocks[0], blocks[|blocks| - 1])
    requires AllInUse(d', b, blocks + [at])
    ensures ContentUpTo(d', b, blocks + [at], k) == ContentUpTo(d, b, blocks, k)
  {
    if k > 0 {
      ContentKept(d, d', b, blocks, at, k - 1);
      BlockKept(d, d', b, blocks, at, k - 1);
    }
  }

  /** Adding a block after the chain's last block: the longer chain is well
      formed and its blocks still rise. */
  lemma {:induction false} TailChainOk(d: Disk, d': Disk, b: int, blocks: seq<int>, at: int)
    requires b > 16 && ChainOk(d, b, blocks) && Below(blocks)
    requires Aligned(b, at) && blocks[|blocks| - 1] + SlotSize(b) <= at && at + SlotSize(b) <= |d'|
    requires Keeps(d, d', b, at, blocks[0], blocks[|blocks| - 1])
    requires ReadLong(d', at).Ok? && ReadLong(d', at).value != FREE
    requires ReadLong(d', at + 8) == Ok(NONE)
    requires ReadLong(d', blocks[|blocks| - 1] + 8) == Ok(at)
    ensures ChainOk(d', b, blocks + [at]) && Below(blocks + [at])
  {
    var bl := blocks + [at];
    var n := |blocks|;
    forall i | 0 <= i < |bl|
      ensures InUseAt(d', b, bl, i) && LinkAt(d', bl, i)
    {
      if i < n { BlockKept(d, d', b, blocks, at, i); }
    }
    forall i, j | 0 <= i < j < |bl|
      ensures Apart(bl, i, j)
    {
      if j < n {
        assert Apart(blocks, i, j);
      } else {
        assert BelowAt(blocks, i);
      }
    }
    forall i | 0 <= i < |bl|
      ensures BelowAt(bl, i)
    {
      if i < n { assert BelowAt(blocks, i); }
    }
  }

  /** The content of a chain's first n + 1 blocks is that of its first n
      followed by the payload of block n, a non-head block. */
  lemma {:induction false} ContentSnoc(d: Disk, b: int, bl: seq<int>, n: nat, payload: seq<byte>)
    requires b > 16 && AllInUse(d, b, bl) && 0 < n < |bl|
    requires 0 <= bl[n] && bl[n] + SlotSize(b) <= |d| && d[bl[n] + 16..bl[n] + 16 + b] == payload
    ensures ContentUpTo(d, b, bl, n + 1) == ContentUpTo(d, b, bl, n) + payload
  {
    assert InUseAt(d, b, bl, n);
    assert Payload(d, b, bl, n) == payload;
  }

  /** Adding a block after the chain's last block: the content is the old
      content followed by the new block's payload. */
  lemma {:induction false} TailContent(d: Disk, d': Disk, b: int, blocks: seq<int>, at: int, payload: seq<byte>)
    requires b > 16 && ChainOk(d, b, blocks) && Below(blocks)
    requires Aligned(b, at) && blocks[|blocks| - 1] + SlotSize(b) <= at
    requires Keeps(d, d', b, at, blocks[0], blocks[|blocks| - 1])
    requires AllInUse(d', b, blocks + [at]) && at + SlotSize(b) <= |d'|
    requires d'[at + 16..at + 16 + b] == payload
    ensures ContentUpTo(d', b, blocks + [at], |blocks| + 1) == ContentUpTo(d, b, blocks, |blocks|) + payload
  {
    ContentKept(d, d', b, blocks, at, |blocks|);
    ContentSnoc(d', b, blocks + [at], |blocks|, payload);
  }

  /** A new head alone is a well-formed chain whose content is its payload. */
  lemma {:induction false} HeadChain(d': Disk, b: int, at: int, payload: seq<byte>)
    requires b > 16 && Aligned(b, at) && at + SlotSize(b) <= |d'|
    requires ReadLong(d', at).Ok? && ReadLong(d', at).value != FREE
    requires ReadLong(d', at + 8) == Ok(NONE)
    requires d'[at + 32..at + 16 + b] == payload
    ensures ChainOk(d', b, [at]) && Below([at])
    ensures ContentUpTo(d', b, [at], 1) == payload
  {
    assert InUseAt(d', b, [at], 0);
    assert LinkAt(d', [at], 0);
    assert BelowAt([at], 0);
  }
}
