/** setLength past the end of a new stream: the stream takes that many
    zero bytes, written and flushed like any others, and a length whose
    int cast comes out negative is refused. */
module Growing {
  import opened Wrappers
  import opened Bytes
  import opened Blocks
  import opened Stream
  import opened Reading
  import opened Seeking
  import opened Storing

  /** A new stream after seek(0): the fresh head buffer is loaded and its
      cursor sits past the two meta longs; nothing is written yet. */
  predicate Primed(st: St, d0: Disk, b: int) {
    var c := st.cur;
    && st.disk == d0 && DiskOk(d0, b) && Valid(st) && c.blockSize == b
    && c.firstBlockPosition == NONE && c.emptyBlockPosition == FIRST_SLOT && c.isEOF
    && c.size == 0 && c.position == 0 && !c.isWriteData
    && c.buffer.Some? && |c.buffer.value| == b && c.bufferStartPosition == NONE
    && c.bufferPosition == 16
  }

  /** seek(size) on a new stream loads the fresh head buffer. */
  lemma {:induction false} SeekNew(d: Disk, b: int)
    requires DiskOk(d, b)
    ensures Open(d, NONE).Ok? && Seek(Open(d, NONE).value, 0).Ok?
    ensures Primed(Seek(Open(d, NONE).value, 0).value, d, b)
  {
    OpenHeading(d, b);
    var st := Open(d, NONE).value;
    var st2 := ReadFirstBlock(st).value;
    assert Seek(st, 0) == SeekLoop(st2, 0);
    var st3 := LoadBlock(st2).value;
    assert ReadBlock(st2) == Ok(st3);
  }

  /** The first byte written after it starts the writer invariant. */
  lemma {:induction false} PrimedStep(st: St, d0: Disk, b: int, x: byte)
    requires Primed(st, d0, b)
    ensures WriteByte(st, x).Ok? && Heading(WriteByte(st, x).value, d0, b, [x])
  {
    var st' := WriteByte(st, x).value;
    assert st'.cur.buffer.value[16..17] == [x];
  }

  /** write(byte[]) after it keeps the writer invariant over all its bytes. */
  lemma {:induction false} PrimedWrites(st: St, d0: Disk, b: int, w: seq<byte>)
    returns (st': St, blocks: seq<int>)
    requires Primed(st, d0, b) && |w| > 0 && Room(d0, b, |w|)
    ensures WriteAll(st, w) == Ok(st') && Writes(st', d0, b, blocks, w)
  {
    PrimedStep(st, d0, b, w[0]);
    var st1 := WriteByte(st, w[0]).value;
    assert WriteAll(st, w) == WriteAll(st1, w[1..]);
    assert [w[0]] + w[1..] == w;
    st', blocks := WriteAllWrites(st1, d0, b, [], [w[0]], w[1..]);
  }

  /** The seek loop from the last block of a chain its content fills:
      past the end it loads a blank buffer and stops in it. */
  lemma {:induction false} SeekPastLast(st: St, d: Disk, b: int, blocks: seq<int>, content: seq<byte>)
    requires Holds(d, b, blocks, content) && Skipped(st, d, b, blocks, content, |blocks| - 1)
    ensures SeekLoop(st, st.cur.position).Ok?
    ensures var c := SeekLoop(st, st.cur.position).value.cur;
      SeekLoop(st, st.cur.position).value.disk == d && c.size == |content| && c.firstBlockPosition == blocks[0]
  {
    assert InUseAt(d, b, blocks, 0);
    assert ReadBlock(st) == LoadBlock(st);
    var st1 := LoadBlock(st).value;
    var c := st1.cur;
    assert st1.disk == d && c.size == |content| && c.firstBlockPosition == blocks[0];
    assert c.buffer.value == Zeros(b) && c.position == st.cur.position;
    var withMeta := c.currentBlockPosition == c.firstBlockPosition && |c.buffer.value| == c.blockSize;
    var len := if withMeta then b - 16 else b;
    var bp := if withMeta then 16 else 0;
    assert SeekLoop(st, st.cur.position) == Ok(St(d, c.(bufferPosition := bp, position := st.cur.position)));
  }

  /** The seek walk to the very end of a chain its content fills. */
  lemma {:induction false} SeekFull(st: St, d: Disk, b: int, blocks: seq<int>, content: seq<byte>, i: int)
    requires Holds(d, b, blocks, content)
    requires (i == -1 && Reads(st, d, b, blocks, content, -1)) || (i >= 0 && Skipped(st, d, b, blocks, content, i))
    requires st.cur.position <= Offset(b, |blocks|)
    ensures SeekLoop(st, Offset(b, |blocks|)).Ok?
    ensures var c := SeekLoop(st, Offset(b, |blocks|)).value.cur;
      SeekLoop(st, Offset(b, |blocks|)).value.disk == d && c.size == |content| && c.firstBlockPosition == blocks[0]
    decreases |blocks| - i, 1
  {
    if i >= 0 && i + 1 == |blocks| {
      SeekPastLast(st, d, b, blocks, content);
    } else {
      SeekFullOn(st, d, b, blocks, content, i);
    }
  }

  /** One step of that walk before the last block: count the next block
      and go on. */
  lemma {:induction false} SeekFullOn(st: St, d: Disk, b: int, blocks: seq<int>, content: seq<byte>, i: int)
    requires Holds(d, b, blocks, content)
    requires (i == -1 && Reads(st, d, b, blocks, content, -1)) || (i >= 0 && Skipped(st, d, b, blocks, content, i))
    requires i + 1 < |blocks| && st.cur.position <= Offset(b, |blocks|)
    ensures SeekLoop(st, Offset(b, |blocks|)).Ok?
    ensures var c := SeekLoop(st, Offset(b, |blocks|)).value.cur;
      SeekLoop(st, Offset(b, |blocks|)).value.disk == d && c.size == |content| && c.firstBlockPosition == blocks[0]
    decreases |blocks| - i, 0
  {
    var st' := SkipNext(st, d, b, blocks, content, i);
    SeekFull(st', d, b, blocks, content, i + 1);
  }

  /** The walk counts the block after i whole when the target is past it. */
  lemma {:induction false} SkipNext(st: St, d: Disk, b: int, blocks: seq<int>, content: seq<byte>, i: int)
    returns (st': St)
    requires Holds(d, b, blocks, content)
    requires (i == -1 && Reads(st, d, b, blocks, content, -1)) || (i >= 0 && Skipped(st, d, b, blocks, content, i))
    requires i + 1 < |blocks| && st.cur.position <= Offset(b, |blocks|)
    ensures Skipped(st', d, b, blocks, content, i + 1) && st'.cur.position <= Offset(b, |blocks|)
    ensures SeekLoop(st, Offset(b, |blocks|)) == SeekLoop(st', Offset(b, |blocks|))
  {
    var st1 := LoadNext(st, d, b, blocks, content, i);
    SeekLoopUnroll(st, Offset(b, |blocks|), st1);
    SkipSkipped(st1, d, b, blocks, content, i + 1);
    st' := Skip(st1);
  }

  /** The walk's load after block i buffers block i + 1, which ends at or
      before the end of the chain. */
  lemma {:induction false} LoadNext(st: St, d: Disk, b: int, blocks: seq<int>, content: seq<byte>, i: int)
    returns (st1: St)
    requires Holds(d, b, blocks, content)
    requires (i == -1 && Reads(st, d, b, blocks, content, -1)) || (i >= 0 && Skipped(st, d, b, blocks, content, i))
    requires i + 1 < |blocks|
    ensures ReadBlock(st) == Ok(st1) && Reads(st1, d, b, blocks, content, i + 1)
    ensures st1.cur.bufferPosition == 0 && st1.cur.position == st.cur.position == Offset(b, i + 1)
    ensures !(st1.cur.currentBlockPosition == st1.cur.firstBlockPosition && |st1.cur.buffer.value| == st1.cur.blockSize)
    ensures |st1.cur.buffer.value| == PayloadLen(b, i + 1)
    ensures st1.cur.position + |st1.cur.buffer.value| <= Offset(b, |blocks|)
  {
    OffsetGrows(b, i + 2, |blocks|);
    OffsetGrows(b, i + 1, i + 2);
    SeekLoad(st, d, b, blocks, content, i, st.cur.position);
    st1 := ReadBlock(st).value;
    NoMeta(st1, d, b, blocks, content, i + 1);
  }

  /** seek(size) on a cursor over a stored stream: it succeeds, writes
      nothing, and keeps the size and head. */
  lemma {:induction false} SeekEnd(st: St, d: Disk, b: int, blocks: seq<int>, content: seq<byte>)
    requires Stored(d, b, blocks, content) && st.disk == d && Valid(st) && !st.cur.isWriteData
    requires st.cur.blockSize == b && st.cur.firstBlockPosition == blocks[0] && st.cur.size == |content|
    ensures Seek(st, |content|).Ok?
    ensures var c := Seek(st, |content|).value.cur;
      Seek(st, |content|).value.disk == d && c.size == |content| && c.firstBlockPosition == blocks[0]
  {
    HeadReads(st, d, b, blocks, content);
    var st2 := ReadFirstBlock(st).value;
    assert Seek(st, |content|) == SeekLoop(st2, |content|);
    if |content| < Offset(b, |blocks|) {
      var _ := SeekRun(st2, d, b, blocks, content, -1, |content|);
    } else {
      SeekFull(st2, d, b, blocks, content, -1);
    }
  }

  /** The grow path of setLength, step by step. */
  lemma GrowSteps(st: St, n: int, st1: St, st2: St, st3: St)
    requires Valid(st) && st.cur.size < n
    requires Seek(st, st.cur.size) == Ok(st1) && st1.cur.size <= n && ToInt32(n - st1.cur.size) == n - st1.cur.size
    requires WriteAll(st1, Zeros(n - st1.cur.size)) == Ok(st2) && Flush(st2) == Ok(st3)
    ensures SetLength(st, n) == Seek(st3, st3.cur.size)
  {
    assert !(n == st.cur.size) && n > st.cur.size;
    assert ToInt32(n - st1.cur.size) >= 0;
  }

  /** The first part of setLength(n) on a new stream: seek(0), write n
      zero bytes, flush. The container then stores n zero bytes. */
  lemma {:induction false} GrowFlushed(d: Disk, b: int, n: int) returns (st1: St, st2: St, st3: St, blocks: seq<int>)
    requires DiskOk(d, b) && 0 < n < TWO_31 && Room(d, b, n)
    ensures Open(d, NONE).Ok? && Open(d, NONE).value.cur.size == 0
    ensures Seek(Open(d, NONE).value, 0) == Ok(st1) && st1.cur.size == 0
    ensures WriteAll(st1, Zeros(n)) == Ok(st2) && Flush(st2) == Ok(st3)
    ensures Valid(st3) && !st3.cur.isWriteData && st3.cur.blockSize == b && st3.cur.size == n
    ensures |blocks| >= 1 && st3.cur.firstBlockPosition == blocks[0]
    ensures Stored(st3.disk, b, blocks, Zeros(n)) && Kept(d, st3.disk, b) && DiskOk(st3.disk, b)
  {
    SeekNew(d, b);
    st1 := Seek(Open(d, NONE).value, 0).value;
    var bl;
    st2, bl := PrimedWrites(st1, d, b, Zeros(n));
    blocks := CloseWrites(st2, d, b, bl, Zeros(n));
    assert Flush(st2).Ok?;
    st3 := Flush(st2).value;
    assert st3.disk == Close(st2).value.0 && st3.cur.firstBlockPosition == blocks[0];
  }

  /** setLength(n) on a new stream, for 0 < n < 2^31 with room for the
      blocks: it succeeds, the length is n, and the container then holds,
      from the stream's head, exactly n zero bytes; only free slots and the
      space past the end are written. */
  lemma {:induction false} GrowNew(d: Disk, b: int, n: int) returns (blocks: seq<int>)
    requires DiskOk(d, b) && 0 < n < TWO_31 && Room(d, b, n)
    ensures Open(d, NONE).Ok? && SetLength(Open(d, NONE).value, n).Ok?
    ensures var r := SetLength(Open(d, NONE).value, n).value;
      && r.cur.size == n && |blocks| >= 1 && r.cur.firstBlockPosition == blocks[0]
      && Stored(r.disk, b, blocks, Zeros(n)) && Kept(d, r.disk, b)
      && Load(r.disk, r.cur.firstBlockPosition) == Ok(Zeros(n))
  {
    var st1, st2, st3;
    st1, st2, st3, blocks := GrowFlushed(d, b, n);
    var st := Open(d, NONE).value;
    ToInt32Small(n - st1.cur.size);
    assert Zeros(n - st1.cur.size) == Zeros(n);
    GrowSteps(st, n, st1, st2, st3);
    SeekEnd(st3, st3.disk, b, blocks, Zeros(n));
    LoadStored(st3.disk, b, blocks, Zeros(n));
  }

  /** Java's (int) cast of a long in [2^31, 2^32) is negative. */
  lemma {:induction false} CastNegative(v: int)
    requires TWO_31 <= v < 2 * TWO_31
    ensures ToInt32(v) < 0
  {
    ModOf(v + TWO_31, 2 * TWO_31, 1, v - TWO_31);
  }

  /** setLength(n) on a new stream for 2^31 <= n < 2^32: the int cast of
      n comes out negative and the zero array cannot be made. */
  lemma {:induction false} GrowTooFar(d: Disk, b: int, n: int)
    requires DiskOk(d, b) && TWO_31 <= n < 2 * TWO_31
    ensures Open(d, NONE).Ok? && SetLength(Open(d, NONE).value, n) == Err(NegativeSize)
  {
    SeekNew(d, b);
    var st := Open(d, NONE).value;
    var st1 := Seek(st, 0).value;
    assert st.cur.size == 0 && st1.cur.size == 0;
    CastNegative(n - st1.cur.size);
    assert Seek(st, st.cur.size) == Ok(st1);
  }
}
