/** seek on a stored stream: the walk from the head stops in the block that
    holds the target, and reading continues from there with the stored
    bytes. */
module Seeking {
  import opened Wrappers
  import opened Bytes
  import opened Blocks
  import opened Stream
  import opened Reading

  /** Block i is buffered and the seek walk has counted all of its payload:
      the file pointer is where block i + 1 starts. */
  predicate Skipped(st: St, d: Disk, b: int, blocks: seq<int>, content: seq<byte>, i: int)
    requires Holds(d, b, blocks, content)
  {
    var c := st.cur;
    && st.disk == d && Valid(st)
    && c.blockSize == b && !c.isWriteData
    && c.firstBlockPosition == blocks[0] && c.size == |content|
    && 0 <= i < |blocks|
    && c.buffer == Some(Payload(d, b, blocks, i))
    && !c.isReadFirstBlockData
    && c.currentBlockPosition == blocks[i] && c.nextBlockPosition == NextOf(blocks, i)
    && c.isEOF == (i + 1 == |blocks|)
    && c.position == Offset(b, i + 1)
  }

  /** A later block starts at a later content offset. */
  lemma {:induction false} OffsetBefore(b: int, i: nat, k: nat)
    requires b > 16 && Offset(b, i) < Offset(b, k)
    ensures i < k
  {
    if k <= i {
      OffsetGrows(b, k, i);
    }
  }

  /** The walk's load after a counted block buffers the next block: the
      load does not look at the buffer cursor, so it is the load that
      follows a block read to its end. */
  lemma {:induction false} SkipLoad(st: St, d: Disk, b: int, blocks: seq<int>, content: seq<byte>, i: int)
    requires Holds(d, b, blocks, content) && Skipped(st, d, b, blocks, content, i)
    requires i + 1 < |blocks|
    ensures LoadBlock(st).Ok? && Reads(LoadBlock(st).value, d, b, blocks, content, i + 1)
    ensures LoadBlock(st).value.cur.position == st.cur.position
  {
    var c := st.cur;
    var st' := St(d, c.(bufferPosition := |c.buffer.value|));
    assert Reads(st', d, b, blocks, content, i);
    LoadFollowing(st', d, b, blocks, content, i);
    assert LoadBlock(st) == LoadBlock(st');
  }

  /** One step of the walk: load the next block and either count it or stop in it. */
  lemma {:induction false} SeekLoad(st: St, d: Disk, b: int, blocks: seq<int>, content: seq<byte>, i: int, pos: int)
    requires Holds(d, b, blocks, content)
    requires (i == -1 && Reads(st, d, b, blocks, content, -1)) || (i >= 0 && Skipped(st, d, b, blocks, content, i))
    requires st.cur.position <= pos < Offset(b, |blocks|)
    ensures i + 1 < |blocks| && ReadBlock(st).Ok?
    ensures Reads(ReadBlock(st).value, d, b, blocks, content, i + 1)
    ensures ReadBlock(st).value.cur.position == Offset(b, i + 1)
  {
    if i == -1 {
      LoadHead(st, d, b, blocks, content);
    } else {
      OffsetBefore(b, i + 1, |blocks|);
      SkipLoad(st, d, b, blocks, content, i);
    }
  }

  /** The buffered block is the head only for block 0, and the head's
      buffer is short of the two meta longs. */
  lemma {:induction false} NoMeta(st: St, d: Disk, b: int, blocks: seq<int>, content: seq<byte>, i: int)
    requires Holds(d, b, blocks, content) && Reads(st, d, b, blocks, content, i) && i >= 0
    ensures !(st.cur.currentBlockPosition == st.cur.firstBlockPosition
              && |st.cur.buffer.value| == st.cur.blockSize)
    ensures |st.cur.buffer.value| == PayloadLen(b, i)
  {
    if i > 0 {
      assert Apart(blocks, 0, i);
    }
  }

  /** The walk stopped in block i at pos: the buffer cursor goes on pos. */
  function Stop(st: St, pos: int): (r: St)
    requires Valid(st) && st.cur.buffer.Some? && st.cur.position <= pos <= st.cur.position + |st.cur.buffer.value|
    ensures Valid(r) && r.cur.position == pos
  {
    St(st.disk, st.cur.(bufferPosition := pos - st.cur.position, position := pos))
  }

  /** The walk counts a whole buffer and moves on. */
  function Skip(st: St): (r: St)
    requires Valid(st) && st.cur.buffer.Some?
    ensures Valid(r) && r.cur.position == st.cur.position + |st.cur.buffer.value|
  {
    St(st.disk, st.cur.(position := st.cur.position + |st.cur.buffer.value|))
  }

  /** One turn of the seek loop on a buffer without the meta longs. */
  lemma {:induction false} SeekLoopUnroll(st: St, pos: int, st1: St)
    requires Valid(st) && !st.cur.isWriteData && st.cur.position <= pos
    requires ReadBlock(st) == Ok(st1) && st1.cur.buffer.Some?
    requires !(st1.cur.currentBlockPosition == st1.cur.firstBlockPosition
               && |st1.cur.buffer.value| == st1.cur.blockSize)
    ensures st1.cur.position == st.cur.position
    ensures |st1.cur.buffer.value| + st1.cur.position <= pos ==> SeekLoop(st, pos) == SeekLoop(Skip(st1), pos)
    ensures |st1.cur.buffer.value| + st1.cur.position > pos ==> SeekLoop(st, pos) == Ok(Stop(st1, pos))
  {
  }

  /** Stopping in the block that holds pos keeps the reader invariant. */
  lemma {:induction false} StopReads(st: St, d: Disk, b: int, blocks: seq<int>, content: seq<byte>, i: int, pos: int)
    requires Holds(d, b, blocks, content) && Reads(st, d, b, blocks, content, i) && i >= 0
    requires st.cur.bufferPosition == 0 && st.cur.position <= pos < st.cur.position + |st.cur.buffer.value|
    ensures Reads(Stop(st, pos), d, b, blocks, content, i)
  {
  }

  /** Counting a whole buffered block leaves the walk after it. */
  lemma {:induction false} SkipSkipped(st: St, d: Disk, b: int, blocks: seq<int>, content: seq<byte>, i: int)
    requires Holds(d, b, blocks, content) && Reads(st, d, b, blocks, content, i) && i >= 0
    requires st.cur.bufferPosition == 0 && |st.cur.buffer.value| == PayloadLen(b, i)
    ensures Skipped(Skip(st), d, b, blocks, content, i)
  {
  }

  /** The seek walk from the head (i == -1) or from a counted block stops in
      the block that holds pos, with the file pointer on pos. */
  lemma {:induction false} SeekRun(st: St, d: Disk, b: int, blocks: seq<int>, content: seq<byte>, i: int, pos: int)
      returns (j: int)
    requires Holds(d, b, blocks, content)
    requires (i == -1 && Reads(st, d, b, blocks, content, -1)) || (i >= 0 && Skipped(st, d, b, blocks, content, i))
    requires st.cur.position <= pos < Offset(b, |blocks|)
    ensures SeekLoop(st, pos).Ok? && SeekLoop(st, pos).value.cur.position == pos
    ensures Reads(SeekLoop(st, pos).value, d, b, blocks, content, j)
    ensures 0 <= j && SeekLoop(st, pos).value.cur.bufferPosition < PayloadLen(b, j)
    ensures SeekLoop(st, pos).value.cur.emptyBlockPosition == st.cur.emptyBlockPosition
    decreases pos - st.cur.position
  {
    SeekLoad(st, d, b, blocks, content, i, pos);
    var st1 := ReadBlock(st).value;
    NoMeta(st1, d, b, blocks, content, i + 1);
    SeekLoopUnroll(st, pos, st1);
    if |st1.cur.buffer.value| + st1.cur.position <= pos {
      SkipSkipped(st1, d, b, blocks, content, i + 1);
      j := SeekRun(Skip(st1), d, b, blocks, content, i + 1, pos);
    } else {
      StopReads(st1, d, b, blocks, content, i + 1, pos);
      j := i + 1;
    }
  }

  /** Going to the head of a stored stream, from any cursor on it, starts
      the reader invariant. */
  lemma {:induction false} HeadReads(st: St, d: Disk, b: int, blocks: seq<int>, content: seq<byte>)
    requires Stored(d, b, blocks, content) && st.disk == d && Valid(st)
    requires st.cur.blockSize == b && st.cur.firstBlockPosition == blocks[0]
    ensures ReadFirstBlock(st).Ok? && Reads(ReadFirstBlock(st).value, d, b, blocks, content, -1)
  {
    assert InUseAt(d, b, blocks, 0);
    assert LinkAt(d, blocks, 0);
  }

  /** seek on a stream reading a stored stream: the file pointer goes to
      the target clamped to the length, the length does not change, and
      the reader invariant holds there, so the reads that follow return the
      stored bytes from the target on. */
  lemma {:induction false} SeekReads(st: St, d: Disk, b: int, blocks: seq<int>, content: seq<byte>, i: int, pos: int)
      returns (j: int)
    requires Stored(d, b, blocks, content) && Reads(st, d, b, blocks, content, i)
    requires 0 <= pos && Min(pos, |content|) < Offset(b, |blocks|)
    ensures Seek(st, pos).Ok?
    ensures Seek(st, pos).value.cur.position == Min(pos, |content|)
    ensures Seek(st, pos).value.cur.size == |content|
    ensures Reads(Seek(st, pos).value, d, b, blocks, content, j)
    // the cursor is inside block j's payload
    ensures 0 <= j && Seek(st, pos).value.cur.bufferPosition < PayloadLen(b, j)
    // seeking does not move the free-slot cursor
    ensures Seek(st, pos).value.cur.emptyBlockPosition == st.cur.emptyBlockPosition
  {
    HeadReads(st, d, b, blocks, content);
    j := SeekRun(ReadFirstBlock(st).value, d, b, blocks, content, -1, Min(pos, |content|));
  }

  /** Reopen a stored stream, seek, and read n bytes: they are the stored
      bytes from the clamped target on. */
  lemma {:induction false} SeekThenRead(d: Disk, b: int, blocks: seq<int>, content: seq<byte>, pos: int, n: nat)
    requires DiskOk(d, b) && Stored(d, b, blocks, content)
    requires 0 <= pos && Min(pos, |content|) < Offset(b, |blocks|) && Min(pos, |content|) + n <= |content|
    ensures Open(d, blocks[0]).Ok? && Seek(Open(d, blocks[0]).value, pos).Ok?
    ensures var st := Seek(Open(d, blocks[0]).value, pos).value;
      && ReadBytes(st, n).Ok? && ReadBytes(st, n).value.1 == content[Min(pos, |content|)..Min(pos, |content|) + n]
  {
    OpenReads(d, b, blocks, content);
    var st0 := Open(d, blocks[0]).value;
    var j := SeekReads(st0, d, b, blocks, content, -1, pos);
    var _, _ := ReadRun(Seek(st0, pos).value, d, b, blocks, content, j, n);
  }
}
