/** VirtualRandomAccessFile: one virtual file's byte stream, stored as a
    chain of blocks inside the container file. The container is a value
    (`Disk`); the stream's navigation fields are the `Cursor`. Every
    operation takes the pair and returns the pair it leaves, or the error
    it raises. */
module Stream {
  import opened Wrappers
  import opened Bytes
  import opened Blocks

  datatype Cursor = Cursor(
    blockSize: int,
    size: int,
    emptyBlockPosition: int,     // where the next free-slot scan starts
    currentBlockPosition: int,
    nextBlockPosition: int,
    firstBlockPosition: int,     // NONE until the stream has a head block
    isReadFirstBlockData: bool,  // the head has been located but not yet buffered
    position: int,               // the virtual file pointer
    isEOF: bool,
    buffer: Option<seq<byte>>,
    bufferPosition: int,
    bufferStartPosition: int,    // container offset the buffer came from; NONE for a new block
    isWriteData: bool)           // the buffer holds bytes not yet written back

  datatype St = St(disk: Disk, cur: Cursor)

  /** What every operation keeps: a block size with room for payload, a
      buffer cursor inside the buffer, and the file pointer at 0 while no
      block is buffered. */
  predicate Valid(st: St) {
    && st.cur.blockSize > 16
    && 0 <= st.cur.bufferPosition
    && 0 <= st.cur.position
    && (st.cur.buffer.Some? ==> st.cur.bufferPosition <= |st.cur.buffer.value|)
    && (st.cur.buffer.None? ==> st.cur.position == 0)
  }

  /** The buffer holds at least one byte that has not been consumed. */
  predicate HasRoom(c: Cursor) {
    c.buffer.Some? && 0 <= c.bufferPosition < |c.buffer.value|
  }

  /** Java's `(byte)` cast of an int, read back as an unsigned byte. */
  function ToByte(v: int): byte {
    v % 256
  }

  /** A stored byte as Java's signed `byte` widens it to int. */
  function Signed(b: byte): (r: int)
    ensures -128 <= r < 128 && ToByte(r) == b
  {
    if b >= 128 then b - 256 else b
  }

  // ---------------------------------------------------------------------------
  // Opening

  /** readFirstBlock: forget the buffer and go back to the head block,
      reloading the size from the head's meta longs. */
  function ReadFirstBlock(st: St): (r: Result<St>)
    requires Valid(st)
    ensures r.Ok? ==> Valid(r.value) && r.value.disk == st.disk
    ensures r.Ok? ==> var c := r.value.cur;
      && c.position == 0 && c.buffer.None? && c.bufferPosition == 0 && !c.isWriteData
      && c.blockSize == st.cur.blockSize && c.firstBlockPosition == st.cur.firstBlockPosition
      && c.emptyBlockPosition == st.cur.emptyBlockPosition
    // a stream without a head block is empty
    ensures st.cur.firstBlockPosition == NONE ==>
              r.Ok? && r.value.cur.size == 0 && r.value.cur.currentBlockPosition == NONE
              && r.value.cur.isEOF == st.cur.isEOF
    // otherwise the head must be readable, and it supplies the size and the next block
    ensures st.cur.firstBlockPosition != NONE ==>
              (r.Ok? <==> 0 <= st.cur.firstBlockPosition && st.cur.firstBlockPosition + 32 <= |st.disk|)
    ensures st.cur.firstBlockPosition != NONE && r.Ok? ==>
              var c := r.value.cur;
              && StoredSize(st.disk, c.firstBlockPosition) == Ok(c.size)
              && ReadLong(st.disk, c.firstBlockPosition + 8) == Ok(c.nextBlockPosition)
              && c.currentBlockPosition == c.firstBlockPosition
              && c.isReadFirstBlockData && !c.isEOF
  {
    var c := st.cur.(buffer := None, bufferPosition := 0, position := 0, isWriteData := false);
    var first := c.firstBlockPosition;
    if first == NONE then
      Ok(St(st.disk, c.(currentBlockPosition := NONE, size := 0)))
    else
      var _ :- ReadLong(st.disk, first);
      var next :- ReadLong(st.disk, first + 8);
      var size :- ReadLong(st.disk, first + 16);
      var _ :- ReadLong(st.disk, first + 24);
      Ok(St(st.disk, c.(currentBlockPosition := first, nextBlockPosition := next, size := size,
                        isReadFirstBlockData := true, isEOF := false)))
  }

  /** The constructor: read (or create) the container header, then go to
      the head block at `head`, NONE for a file not yet stored. */
  function Open(d: Disk, head: int): (r: Result<St>)
    ensures r.Ok? ==> Valid(r.value) && r.value.cur.position == 0 && !r.value.cur.isWriteData
    ensures r.Ok? ==> r.value.cur.buffer.None? && r.value.cur.firstBlockPosition == head
                      && r.value.cur.emptyBlockPosition == FIRST_SLOT
    ensures r.Ok? && |d| >= 8 ==> r.value.disk == d
    // a new stream is empty, sits at the end of its (absent) chain, and its
    // only failure is an unusable container header
    ensures head == NONE ==> (r.Ok? <==> ReadFileInfo(d).Ok?)
    ensures head == NONE && r.Ok? ==> r.value.cur.size == 0 && r.value.cur.isEOF
  {
    var (d1, b) :- ReadFileInfo(d);
    var c := Cursor(b, 0, FIRST_SLOT, 0, 0, head, false, 0, true, None, 0, 0, false);
    ReadFirstBlock(St(d1, c))
  }

  // ---------------------------------------------------------------------------
  // Loading a block into the buffer

  /** readBlockInfo: the end-marker and next pointer of the block at p. */
  function ReadBlockInfo(d: Disk, p: int): (r: Result<int>)
    ensures r.Ok? <==> 0 <= p && p + 16 <= |d|
    ensures r.Ok? ==> ReadLong(d, p + 8) == Ok(r.value)
  {
    var _ :- ReadLong(d, p);
    ReadLong(d, p + 8)
  }

  /** readBlock after any pending write-back: put the next block of the
      chain in the buffer. A stream without a head gets a new head buffer
      that starts with the two meta longs; past the last block it gets a
      blank buffer for a block not yet allocated. */
  function LoadBlock(st: St): (r: Result<St>)
    requires Valid(st)
    ensures r.Ok? ==> Valid(r.value) && HasRoom(r.value.cur) && r.value.disk == st.disk
    ensures r.Ok? ==> var c := r.value.cur;
      && c.blockSize == st.cur.blockSize && c.position == st.cur.position
      && c.firstBlockPosition == st.cur.firstBlockPosition
      && c.emptyBlockPosition == st.cur.emptyBlockPosition
      && c.isWriteData == st.cur.isWriteData
      && (|c.buffer.value| == c.blockSize || |c.buffer.value| == c.blockSize - 16)
    ensures r.Ok? && st.cur.firstBlockPosition != NONE ==> r.value.cur.size == st.cur.size
    // without a head: a fresh head buffer, the cursor past its meta longs
    ensures st.cur.firstBlockPosition == NONE ==>
              r.Ok? && r.value.cur.bufferStartPosition == NONE && r.value.cur.bufferPosition == 16
              && r.value.cur.buffer.value[..16] == LongToBytes(0) + LongToBytes(NONE)
              && |r.value.cur.buffer.value| == st.cur.blockSize && r.value.cur.size == 0
    // past the last block: a blank buffer for a new block
    ensures st.cur.firstBlockPosition != NONE && st.cur.isEOF ==>
              r.Ok? && r.value.cur.bufferStartPosition == NONE && r.value.cur.bufferPosition == 0
              && r.value.cur.buffer.value == Zeros(st.cur.blockSize)
              && r.value.cur.currentBlockPosition == st.cur.currentBlockPosition && r.value.cur.isEOF
    // otherwise the buffer is the payload of the following block of the chain
    ensures st.cur.firstBlockPosition != NONE && !st.cur.isEOF && r.Ok? ==>
              var c := r.value.cur;
              var at := if st.cur.isReadFirstBlockData then st.cur.currentBlockPosition
                        else st.cur.nextBlockPosition;
              && c.currentBlockPosition == at && !c.isReadFirstBlockData && c.bufferPosition == 0
              && c.bufferStartPosition == (if at == c.firstBlockPosition then at + 32 else at + 16)
              && (0 <= at && at + 16 + c.blockSize <= |st.disk| ==>
                    c.buffer.value == st.disk[c.bufferStartPosition..at + 16 + c.blockSize])
              && (at != c.firstBlockPosition ==> ReadLong(st.disk, at + 8) == Ok(c.nextBlockPosition))
              && (at == c.firstBlockPosition ==> c.nextBlockPosition == st.cur.nextBlockPosition)
              && c.isEOF == (c.nextBlockPosition == NONE)
  {
    var c := st.cur;
    var b := c.blockSize;
    if c.firstBlockPosition == NONE then
      var meta := LongToBytes(0) + LongToBytes(NONE);
      var buf := meta + Zeros(b - 16);
      assert buf[..16] == meta;
      Ok(St(st.disk, c.(buffer := Some(buf), size := 0, bufferPosition := 16,
                        bufferStartPosition := NONE)))
    else if c.isEOF then
      Ok(St(st.disk, c.(buffer := Some(Zeros(b)), bufferStartPosition := NONE, bufferPosition := 0)))
    else
      var at := if c.isReadFirstBlockData then c.currentBlockPosition else c.nextBlockPosition;
      var isHead := at == c.firstBlockPosition;
      var next :- if isHead then Ok(c.nextBlockPosition) else ReadBlockInfo(st.disk, at);
      // readBlockInfo leaves the file pointer after the two longs; readFirstBlock
      // leaves it after the head's four
      var start := if isHead then at + 32 else at + 16;
      var buf :- ReadBuf(st.disk, start, if isHead then b - 16 else b);
      Ok(St(st.disk, c.(isReadFirstBlockData := false, currentBlockPosition := at,
                        nextBlockPosition := next, bufferStartPosition := start,
                        buffer := Some(buf), bufferPosition := 0, isEOF := next == NONE)))
  }

  // ---------------------------------------------------------------------------
  // Writing the buffer back

  /** writeBlock into the block the buffer was read from: write the buffer
      back and move the block's end-marker forward if the data now reaches
      further. */
  function WriteOld(d: Disk, c: Cursor, buf: seq<byte>): (r: Result<Disk>)
    ensures r.Ok? ==> |r.value| >= |d|
    ensures r.Ok? ==> 0 <= c.bufferStartPosition && 0 <= c.currentBlockPosition
  {
    var at := c.bufferStartPosition;
    var d1 :- Put(d, at, buf);
    var marker :- ReadLong(d1, c.currentBlockPosition);
    var end := at + c.bufferPosition - 1;
    if marker < end then Put(d1, c.currentBlockPosition, LongToBytes(end)) else Ok(d1)
  }

  /** writeBlock of a new block at `at`: link it after the current block
      (and record it as the chain's last block), then write its end-marker,
      NONE as its next pointer and the buffer. A new head also records
      itself as the last block. */
  function WriteNew(d: Disk, c: Cursor, buf: seq<byte>, at: int, first: int, isFirst: bool): (r: Result<Disk>)
    requires at >= 0
    ensures r.Ok? ==> |r.value| >= Max(|d|, at + 16 + |buf|)
    ensures isFirst && first == at ==> r.Ok?
  {
    var d1 :- if isFirst then Ok(d) else Put(d, first + 24, LongToBytes(at));
    var d2 :- if isFirst then Ok(d1) else Put(d1, c.currentBlockPosition + 8, LongToBytes(at));
    var d3 := Put(d2, at, LongToBytes(at + 16 + c.bufferPosition - 1)).value;
    var d4 := Put(d3, at + 8, LongToBytes(NONE)).value;
    var d5 := Put(d4, at + 16, buf).value;
    if isFirst then Put(d5, first + 24, LongToBytes(first)) else Ok(d5)
  }

  /** The writing half of writeBlock: a new block goes to the first free
      slot from the scan cursor; a stream without a head makes that block
      its head. The head's size long is rewritten last. */
  function WriteBack(st: St): (r: Result<St>)
    requires Valid(st)
    ensures r.Ok? ==> Valid(r.value) && !r.value.cur.isWriteData && |r.value.disk| >= |st.disk|
    ensures r.Ok? ==> var c := r.value.cur;
      && c.firstBlockPosition != NONE
      && c.blockSize == st.cur.blockSize && c.size == st.cur.size && c.position == st.cur.position
      && c.buffer == st.cur.buffer && c.bufferPosition == st.cur.bufferPosition
      && c.isEOF == st.cur.isEOF && c.isReadFirstBlockData == st.cur.isReadFirstBlockData
      && c.nextBlockPosition == st.cur.nextBlockPosition
    // the head records the stream's size
    ensures r.Ok? && IsLong(st.cur.size) ==>
              StoredSize(r.value.disk, r.value.cur.firstBlockPosition) == Ok(st.cur.size)
    // a stream that had a head keeps it
    ensures r.Ok? && st.cur.firstBlockPosition != NONE ==>
              r.Ok? && r.value.cur.firstBlockPosition == st.cur.firstBlockPosition
    // a new block goes where the free-slot scan stops, and the scan cursor stays there
    ensures r.Ok? && st.cur.bufferStartPosition == NONE ==>
              var at := FindFirstEmptyBlock(st.disk, st.cur.blockSize, st.cur.emptyBlockPosition);
              && at.Ok? && r.value.cur.currentBlockPosition == at.value
              && r.value.cur.emptyBlockPosition == at.value
              && (st.cur.firstBlockPosition == NONE ==> r.value.cur.firstBlockPosition == at.value)
    ensures st.cur.buffer.None? ==> r == Err(NullPointer)
  {
    var c := st.cur;
    if c.buffer.None? then Err(NullPointer)
    else
      var isNew := c.bufferStartPosition == NONE;
      var isFirst := c.firstBlockPosition == NONE;
      var at :- if isNew then FindFirstEmptyBlock(st.disk, c.blockSize, c.emptyBlockPosition)
                else Ok(c.bufferStartPosition);
      var first := if isFirst then at else c.firstBlockPosition;
      var d1 :- if isNew && at >= 0 then WriteNew(st.disk, c, c.buffer.value, at, first, isFirst)
                else if isNew then Err(IOError)
                else WriteOld(st.disk, c, c.buffer.value);
      var d2 :- Put(d1, first + 16, LongToBytes(c.size));
      if first + 16 < 0 then Err(IOError)  // unreachable: Put refused it
      else
        PutReadLongSelf(d1, first + 16, c.size);
        Ok(St(d2, c.(emptyBlockPosition := if isNew then at else c.emptyBlockPosition,
                     firstBlockPosition := first,
                     currentBlockPosition := if isNew then at else c.currentBlockPosition,
                     isWriteData := false)))
  }

  /** A long just written reads back (when it is a long). */
  lemma PutReadLongSelf(d: Disk, off: int, v: int)
    requires off >= 0
    ensures Put(d, off, LongToBytes(v)).Ok?
    ensures IsLong(v) ==> ReadLong(Put(d, off, LongToBytes(v)).value, off) == Ok(v)
  {
    if IsLong(v) {
      PutReadLong(d, off, v);
    }
  }

  /** writeBlock: write the buffer back, then load the next block. */
  function WriteBlock(st: St): (r: Result<St>)
    requires Valid(st)
    ensures r.Ok? ==> Valid(r.value) && HasRoom(r.value.cur) && !r.value.cur.isWriteData
    ensures r.Ok? ==> var c := r.value.cur;
      && c.firstBlockPosition != NONE && c.blockSize == st.cur.blockSize
      && c.size == st.cur.size && c.position == st.cur.position
    ensures r.Ok? ==> |r.value.disk| >= |st.disk|
  {
    var st1 :- WriteBack(st);
    LoadBlock(st1)
  }

  /** readBlock: write back pending data (which loads a block), then load
      a block. */
  function ReadBlock(st: St): (r: Result<St>)
    requires Valid(st)
    ensures r.Ok? ==> Valid(r.value) && HasRoom(r.value.cur) && !r.value.cur.isWriteData
    ensures r.Ok? ==> var c := r.value.cur;
      && c.blockSize == st.cur.blockSize && c.position == st.cur.position
      && (|c.buffer.value| == c.blockSize || |c.buffer.value| == c.blockSize - 16)
    ensures r.Ok? && (st.cur.firstBlockPosition != NONE || st.cur.isWriteData) ==>
              r.value.cur.size == st.cur.size && r.value.cur.firstBlockPosition != NONE
    ensures !st.cur.isWriteData ==> r == LoadBlock(st)
  {
    var st1 :- if st.cur.isWriteData then WriteBlock(st) else Ok(st);
    LoadBlock(st1)
  }

  // ---------------------------------------------------------------------------
  // Single-byte read and write

  /** Consume the next buffered byte. */
  function Take(st: St): (r: (St, int))
    requires Valid(st) && HasRoom(st.cur)
    ensures Valid(r.0) && r.0.disk == st.disk
  {
    var c := st.cur;
    (St(st.disk, c.(position := c.position + 1, bufferPosition := c.bufferPosition + 1)),
     Signed(c.buffer.value[c.bufferPosition]))
  }

  /** readNextByte: -1 at or past the end; otherwise the next byte, as a
      signed Java byte, loading the next block when the buffer is used up. */
  function ReadNextByte(st: St): (r: Result<(St, int)>)
    requires Valid(st)
    ensures r.Ok? ==> Valid(r.value.0) && -128 <= r.value.1 < 128
    ensures r.Ok? ==> r.value.0.cur.blockSize == st.cur.blockSize
    // at or past the end nothing is read and nothing changes
    ensures st.cur.position >= st.cur.size ==> r == Ok((st, -1))
    // a read either delivers the byte under the buffer cursor and advances
    // by one, or finds the stream empty and stays put
    ensures r.Ok? && st.cur.position < st.cur.size ==>
              var c := r.value.0.cur;
              || (c.position == st.cur.position + 1 && c.size == st.cur.size
                  && c.buffer.Some? && 1 <= c.bufferPosition <= |c.buffer.value|
                  && r.value.1 == Signed(c.buffer.value[c.bufferPosition - 1]))
              || (c.position == st.cur.position && r.value.1 == -1)
    // with a byte left in the buffer, that byte is read
    ensures st.cur.position < st.cur.size && HasRoom(st.cur) ==> r == Ok(Take(st))
  {
    var c := st.cur;
    if c.position >= c.size then Ok((st, -1))
    else if HasRoom(c) then Ok(Take(st))
    else
      var st1 :- ReadBlock(st);
      if st1.cur.position >= st1.cur.size then Ok((st1, -1))
      else Ok(Take(st1))
  }

  /** writeByte: make sure a block with room is buffered, then store the
      byte under the cursor and advance; the size grows to cover it. */
  function WriteByte(st: St, x: byte): (r: Result<St>)
    requires Valid(st)
    ensures r.Ok? ==> Valid(r.value) && r.value.cur.isWriteData
    ensures r.Ok? ==> var c := r.value.cur;
      && c.blockSize == st.cur.blockSize
      && c.position == st.cur.position + 1
      && c.size >= c.position
      && c.buffer.Some? && 1 <= c.bufferPosition
      && c.buffer.value[c.bufferPosition - 1] == x
    ensures r.Ok? && st.cur.firstBlockPosition != NONE ==>
              r.value.cur.size == Max(st.cur.size, st.cur.position + 1)
    // with room in the buffer the byte goes straight into it, nothing else moves
    ensures HasRoom(st.cur) ==>
              (r.Ok? && r.value.disk == st.disk
               && r.value.cur.buffer.value == st.cur.buffer.value[st.cur.bufferPosition := x])
  {
    var st1 :- if st.cur.buffer.None? then ReadBlock(st) else Ok(st);
    var st2 :- if !HasRoom(st1.cur) then ReadBlock(st1) else Ok(st1);
    var c := st2.cur;
    var pos := c.position + 1;
    Ok(St(st2.disk, c.(isWriteData := true,
                       buffer := Some(c.buffer.value[c.bufferPosition := x]),
                       bufferPosition := c.bufferPosition + 1,
                       position := pos,
                       size := if pos > c.size then pos else c.size)))
  }

  // ---------------------------------------------------------------------------
  // Bulk read and write

  /** read(byte[n]): n single-byte reads, each cast back to a byte. */
  function ReadBytes(st: St, n: nat): (r: Result<(St, seq<byte>)>)
    requires Valid(st)
    ensures r.Ok? ==> Valid(r.value.0) && |r.value.1| == n
    ensures r.Ok? ==> r.value.0.cur.blockSize == st.cur.blockSize
    decreases n, 1
  {
    if n == 0 then Ok((st, [])) else ReadMore(st, n)
  }

  /** One pass of the read loop: read() and then the remaining n - 1 reads. */
  function ReadMore(st: St, n: nat): (r: Result<(St, seq<byte>)>)
    requires Valid(st) && n > 0
    ensures r.Ok? ==> Valid(r.value.0) && |r.value.1| == n
    ensures r.Ok? ==> r.value.0.cur.blockSize == st.cur.blockSize
    decreases n, 0
  {
    var p :- ReadNextByte(st);
    var q :- ReadBytes(p.0, n - 1);
    Ok((q.0, [ToByte(p.1)] + q.1))
  }

  /** write(byte[]): one writeByte per byte, in order. */
  function WriteAll(st: St, bs: seq<byte>): (r: Result<St>)
    requires Valid(st)
    ensures r.Ok? ==> Valid(r.value) && r.value.cur.blockSize == st.cur.blockSize
    ensures r.Ok? ==> r.value.cur.position == st.cur.position + |bs|
    ensures r.Ok? && |bs| > 0 ==> r.value.cur.isWriteData
    ensures |bs| == 0 ==> r == Ok(st)
    decreases |bs|
  {
    if |bs| == 0 then Ok(st)
    else
      var st1 :- WriteByte(st, bs[0]);
      WriteAll(st1, bs[1..])
  }

  /** flush: write back pending data. */
  function Flush(st: St): (r: Result<St>)
    requires Valid(st)
    ensures r.Ok? ==> Valid(r.value) && !r.value.cur.isWriteData
    ensures r.Ok? ==> r.value.cur.blockSize == st.cur.blockSize
                      && r.value.cur.size == st.cur.size && r.value.cur.position == st.cur.position
    ensures !st.cur.isWriteData ==> r == Ok(st)
  {
    if st.cur.isWriteData then WriteBlock(st) else Ok(st)
  }

  /** close: flush, then report the head block's position (what the close
      listener receives; NONE for a stream that never stored a byte). */
  function Close(st: St): (r: Result<(Disk, int)>)
    requires Valid(st)
    ensures !st.cur.isWriteData ==> r == Ok((st.disk, st.cur.firstBlockPosition))
    ensures r.Ok? && st.cur.isWriteData ==> r.value.1 != NONE
  {
    var st1 :- Flush(st);
    Ok((st1.disk, st1.cur.firstBlockPosition))
  }

  // ---------------------------------------------------------------------------
  // Seek

  /** The seek loop: load blocks, counting their payload bytes, until the
      block holding `pos`; then put the buffer cursor on it. A buffered head
      of full block length still carries the two meta longs in front. */
  function SeekLoop(st: St, pos: int): (r: Result<St>)
    requires Valid(st) && !st.cur.isWriteData && st.cur.position <= pos
    ensures r.Ok? ==> Valid(r.value) && !r.value.cur.isWriteData && r.value.cur.position == pos
    ensures r.Ok? ==> r.value.cur.blockSize == st.cur.blockSize
    decreases pos - st.cur.position
  {
    var st1 :- ReadBlock(st);
    var c := st1.cur;
    var buf := c.buffer.value;
    var withMeta := c.currentBlockPosition == c.firstBlockPosition && |buf| == c.blockSize;
    var len := if withMeta then |buf| - 16 else |buf|;
    if len + c.position <= pos then
      SeekLoop(St(st1.disk, c.(position := c.position + len)), pos)
    else
      var bp := pos - c.position + (if withMeta then 16 else 0);
      Ok(St(st1.disk, c.(bufferPosition := bp, position := pos)))
  }

  /** seek: write back pending data; a negative target is an error; a
      target past the end goes to the end; then walk from the head. */
  function Seek(st: St, pos: int): (r: Result<St>)
    requires Valid(st)
    ensures pos < 0 ==> r.Err?
    ensures r.Ok? ==> Valid(r.value) && !r.value.cur.isWriteData
    ensures r.Ok? ==> r.value.cur.blockSize == st.cur.blockSize
    // the target is clamped to the length
    ensures r.Ok? ==> r.value.cur.position == Min(pos, st.cur.size)
  {
    var st1 :- Flush(st);
    if pos < 0 then Err(IOError)
    else
      var target := Min(pos, st1.cur.size);
      if target < 0 then Err(IOError)
      else
        var st2 :- ReadFirstBlock(st1);
        SeekLoop(st2, target)
  }

  // ---------------------------------------------------------------------------
  // Truncation and extension

  /** deleteBlock(p) with newBlockSize 0: tombstone the block; freeing the
      head leaves the stream without one; the scan cursor moves back to the
      freed slot if it was past it. */
  function FreeBlock(st: St, at: int): (r: Result<St>)
    requires Valid(st)
    ensures r.Ok? <==> at >= 0
    ensures r.Ok? ==> Valid(r.value) && r.value.cur.blockSize == st.cur.blockSize
    ensures r.Ok? ==> ReadLong(r.value.disk, at) == Ok(FREE)
    ensures r.Ok? ==> r.value.cur.emptyBlockPosition == Min(st.cur.emptyBlockPosition, at)
    ensures r.Ok? && at == st.cur.firstBlockPosition ==>
              r.value.cur.firstBlockPosition == NONE && r.value.cur.size == 0
    ensures r.Ok? && at != st.cur.firstBlockPosition ==>
              (r.value.cur.size == st.cur.size
               && r.value.cur.firstBlockPosition == st.cur.firstBlockPosition)
    ensures r.Ok? ==> |r.value.disk| == Max(|st.disk|, at + 8)
    // only the end-marker is written
    ensures r.Ok? ==> forall q :: 0 <= q < |st.disk| && !(at <= q < at + 8) ==> r.value.disk[q] == st.disk[q]
  {
    if at < 0 then Err(IOError)
    else
      var c := st.cur;
      var d1 := Put(st.disk, at, LongToBytes(FREE)).value;
      PutReadLong(st.disk, at, FREE);
      var st1 := if at == c.firstBlockPosition
                 then ReadFirstBlock(St(d1, c.(firstBlockPosition := NONE))).value
                 else St(d1, c);
      Ok(St(st1.disk, st1.cur.(emptyBlockPosition := Min(st1.cur.emptyBlockPosition, at))))
  }

  /** deleteBlock(p, n): keep n bytes of the block at p (n == blockSize keeps
      the whole chain), freeing it when n is 0, and free every following
      block of the chain. `fuel` bounds the walk along the next pointers. */
  function DeleteBlock(st: St, at: int, keep: int, fuel: nat): (r: Result<St>)
    requires Valid(st)
    ensures r.Ok? ==> Valid(r.value) && r.value.cur.blockSize == st.cur.blockSize
    ensures keep == st.cur.blockSize ==> r == Ok(st)
    ensures r.Ok? ==> |r.value.disk| >= |st.disk|
    decreases fuel
  {
    var c := st.cur;
    if keep == c.blockSize then Ok(st)
    else
      var st1 :- if keep == 0 then FreeBlock(st, at)
                 else
                   var d1 :- Put(st.disk, at, LongToBytes(at + 16 + keep - 1));
                   Ok(St(d1, c));
      var next :- ReadLong(st1.disk, at + 8);
      if next == NONE then Ok(st1)
      else if fuel == 0 then Err(IOError)
      else
        DeleteBlock(st1, next, 0, fuel - 1)
  }

  /** setLength: equal length does nothing; a longer length appends zero
      bytes at the end and flushes; a shorter one cuts the chain at the new
      end and frees the blocks after it. */
  function SetLength(st: St, n: int): (r: Result<St>)
    requires Valid(st)
    ensures n == st.cur.size ==> r == Ok(st)
    ensures n < 0 && n != st.cur.size ==> r.Err?
    ensures r.Ok? ==> Valid(r.value) && r.value.cur.blockSize == st.cur.blockSize
    // a shorter length is the new length
    ensures r.Ok? && n < st.cur.size ==> r.value.cur.size == n
    // a longer length whose int cast comes out negative is refused, after the seek
    ensures n > st.cur.size && Seek(st, st.cur.size).Ok? && ToInt32(n - Seek(st, st.cur.size).value.cur.size) < 0 ==>
              r == Err(NegativeSize)
  {
    var c := st.cur;
    if n == c.size then Ok(st)
    else if n > c.size then
      var st1 :- Seek(st, c.size);
      var len := ToInt32(n - st1.cur.size);
      if len < 0 then Err(NegativeSize)
      else
        var st2 :- WriteAll(st1, Zeros(len));
        var st3 :- Flush(st2);
        Seek(st3, st3.cur.size)
    else
      var st1 :- Seek(st, n);
      var fuel := SlotCount(st1.disk, st1.cur.blockSize) + 1;
      var st2 :- DeleteBlock(st1, st1.cur.currentBlockPosition, st1.cur.bufferPosition, fuel);
      Ok(St(st2.disk, st2.cur.(size := n)))
  }
}
