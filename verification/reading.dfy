/** Reading a stored stream back: from the head of a well-formed chain,
    the stream delivers the stored bytes in order. */
module Reading {
  import opened Wrappers
  import opened Bytes
  import opened Blocks
  import opened Stream

  // ---------------------------------------------------------------------------
  // Facts about the content of a chain

  /** Later blocks start further on. */
  lemma {:induction false} OffsetGrows(b: int, i: nat, k: nat)
    requires b > 16 && i <= k
    ensures Offset(b, i) + (k - i) <= Offset(b, k)
    decreases k
  {
    if i < k {
      OffsetGrows(b, i, k - 1);
    }
  }

  /** Adding blocks to the chain leaves the earlier content in place. */
  lemma {:induction false} ContentPrefix(d: Disk, b: int, blocks: seq<int>, i: nat, k: nat, j: int)
    requires i <= k <= |blocks| && b > 16
    requires AllInUse(d, b, blocks)
    requires 0 <= j < Offset(b, i) <= Offset(b, k)
    ensures ContentUpTo(d, b, blocks, k)[j] == ContentUpTo(d, b, blocks, i)[j]
    decreases k
  {
    if i < k {
      OffsetGrows(b, i, k - 1);
      ContentPrefix(d, b, blocks, i, k - 1, j);
      assert ContentUpTo(d, b, blocks, k)
             == ContentUpTo(d, b, blocks, k - 1) + Payload(d, b, blocks, k - 1);
    }
  }

  /** Block i's payload follows the content of the blocks before it. */
  lemma {:induction false} PayloadFollows(d: Disk, b: int, blocks: seq<int>, i: nat, bp: nat)
    requires i < |blocks| && b > 16
    requires AllInUse(d, b, blocks)
    requires bp < PayloadLen(b, i)
    ensures ContentUpTo(d, b, blocks, i + 1)[Offset(b, i) + bp] == Payload(d, b, blocks, i)[bp]
  {
    assert ContentUpTo(d, b, blocks, i + 1)
           == ContentUpTo(d, b, blocks, i) + Payload(d, b, blocks, i);
  }

  /** Byte bp of block i's payload is content byte Offset(b, i) + bp. */
  lemma {:induction false} ContentAt(d: Disk, b: int, blocks: seq<int>, i: nat, bp: nat)
    requires i < |blocks| && b > 16
    requires AllInUse(d, b, blocks)
    requires bp < PayloadLen(b, i)
    ensures && Offset(b, i) + bp < Offset(b, |blocks|)
            && ContentUpTo(d, b, blocks, |blocks|)[Offset(b, i) + bp] == Payload(d, b, blocks, i)[bp]
  {
    OffsetGrows(b, i + 1, |blocks|);
    PayloadFollows(d, b, blocks, i, bp);
    ContentPrefix(d, b, blocks, i + 1, |blocks|, Offset(b, i) + bp);
  }

  /** Blocks start at slot positions, so none of them is NONE. */
  lemma {:induction false} ChainNotNone(d: Disk, b: int, blocks: seq<int>, i: int)
    requires ChainOk(d, b, blocks) && 0 <= i < |blocks|
    ensures blocks[i] >= FIRST_SLOT && NextOf(blocks, i) != NONE <==> i + 1 < |blocks|
  {
    assert InUseAt(d, b, blocks, i);
    if i + 1 < |blocks| {
      assert InUseAt(d, b, blocks, i + 1);
    }
  }

  // ---------------------------------------------------------------------------
  // The reader invariant

  /** st reads, from the container d, the stream stored at `blocks` whose
      bytes are `content`. i == -1: the head is located but not yet buffered
      (after open); otherwise block i is buffered and the file pointer is the
      content offset of the buffer cursor. */
  predicate Reads(st: St, d: Disk, b: int, blocks: seq<int>, content: seq<byte>, i: int)
    requires Holds(d, b, blocks, content)
  {
    var c := st.cur;
    && st.disk == d && Valid(st)
    && c.blockSize == b && !c.isWriteData
    && c.firstBlockPosition == blocks[0] && c.size == |content|
    && -1 <= i < |blocks|
    && (i == -1 ==>
          && c.buffer.None? && c.isReadFirstBlockData && c.position == 0 && !c.isEOF
          && c.currentBlockPosition == blocks[0] && c.nextBlockPosition == NextOf(blocks, 0))
    && (i >= 0 ==>
          && c.buffer == Some(Payload(d, b, blocks, i))
          && !c.isReadFirstBlockData
          && c.currentBlockPosition == blocks[i] && c.nextBlockPosition == NextOf(blocks, i)
          && c.isEOF == (i + 1 == |blocks|)
          && c.position == Offset(b, i) + c.bufferPosition)
  }

  lemma {:induction false} ToInt32Small(v: int)
    requires -TWO_31 <= v < TWO_31
    ensures ToInt32(v) == v
  {
    ModOf(v + TWO_31, 2 * TWO_31, 0, v + TWO_31);
  }

  /** The cursor the constructor builds before going to the head. */
  function Fresh(b: int, head: int): Cursor {
    Cursor(b, 0, FIRST_SLOT, 0, 0, head, false, 0, true, None, 0, 0, false)
  }

  /** A container with a usable header opens without change. */
  lemma {:induction false} OpenDisk(d: Disk, b: int, head: int)
    requires DiskOk(d, b)
    ensures Open(d, head) == ReadFirstBlock(St(d, Fresh(b, head)))
  {
    ToInt32Small(b);
    assert ReadFileInfo(d) == Ok((d, b));
  }

  /** Going to the head of a stored stream starts the reader invariant. */
  lemma {:induction false} FirstBlockReads(d: Disk, b: int, blocks: seq<int>, content: seq<byte>)
    requires DiskOk(d, b) && Stored(d, b, blocks, content)
    ensures ReadFirstBlock(St(d, Fresh(b, blocks[0]))).Ok?
    ensures Reads(ReadFirstBlock(St(d, Fresh(b, blocks[0]))).value, d, b, blocks, content, -1)
  {
    assert InUseAt(d, b, blocks, 0);
    assert LinkAt(d, blocks, 0);
  }

  /** Opening the head of a stored stream starts the reader invariant. */
  lemma {:induction false} OpenReads(d: Disk, b: int, blocks: seq<int>, content: seq<byte>)
    requires DiskOk(d, b) && Stored(d, b, blocks, content)
    ensures Open(d, blocks[0]).Ok?
    ensures Reads(Open(d, blocks[0]).value, d, b, blocks, content, -1)
  {
    OpenDisk(d, b, blocks[0]);
    FirstBlockReads(d, b, blocks, content);
  }

  /** Loading from the located head buffers block 0. */
  lemma {:induction false} LoadHead(st: St, d: Disk, b: int, blocks: seq<int>, content: seq<byte>)
    requires Holds(d, b, blocks, content) && Reads(st, d, b, blocks, content, -1)
    ensures LoadBlock(st).Ok? && Reads(LoadBlock(st).value, d, b, blocks, content, 0)
    ensures LoadBlock(st).value.cur.position == st.cur.position
  {
    ChainNotNone(d, b, blocks, 0);
    assert InUseAt(d, b, blocks, 0);
  }

  /** A buffer used up before the end of the content is not the last block's. */
  lemma {:induction false} NotLast(st: St, d: Disk, b: int, blocks: seq<int>, content: seq<byte>, i: int)
    requires Holds(d, b, blocks, content) && Reads(st, d, b, blocks, content, i)
    requires i >= 0 && st.cur.position < |content| && !HasRoom(st.cur)
    ensures i + 1 < |blocks|
  {
    assert Offset(b, i + 1) == Offset(b, i) + PayloadLen(b, i);
  }

  /** Loading after block i buffers block i + 1 at the content offset where
      block i ended. */
  lemma {:induction false} LoadFollowing(st: St, d: Disk, b: int, blocks: seq<int>, content: seq<byte>, i: int)
    requires Holds(d, b, blocks, content) && Reads(st, d, b, blocks, content, i)
    requires 0 <= i && i + 1 < |blocks| && !HasRoom(st.cur)
    ensures LoadBlock(st).Ok? && Reads(LoadBlock(st).value, d, b, blocks, content, i + 1)
    ensures LoadBlock(st).value.cur.position == st.cur.position
  {
    ChainNotNone(d, b, blocks, i);
    ChainNotNone(d, b, blocks, i + 1);
    assert InUseAt(d, b, blocks, 0);
    assert InUseAt(d, b, blocks, i + 1);
    assert LinkAt(d, blocks, i + 1);
    assert Apart(blocks, 0, i + 1);
  }

  /** The next block is loaded when the buffer runs out before the end. */
  lemma {:induction false} LoadNext(st: St, d: Disk, b: int, blocks: seq<int>, content: seq<byte>, i: int)
    requires Holds(d, b, blocks, content) && Reads(st, d, b, blocks, content, i)
    requires st.cur.position < |content| && !HasRoom(st.cur)
    ensures i + 1 < |blocks|
    ensures LoadBlock(st).Ok? && Reads(LoadBlock(st).value, d, b, blocks, content, i + 1)
    ensures LoadBlock(st).value.cur.position == st.cur.position
  {
    if i == -1 {
      LoadHead(st, d, b, blocks, content);
    } else {
      NotLast(st, d, b, blocks, content, i);
      LoadFollowing(st, d, b, blocks, content, i);
    }
  }

  /** With a byte left in the buffer, the read takes the content byte at the
      file pointer. */
  lemma {:induction false} TakeStep(st: St, d: Disk, b: int, blocks: seq<int>, content: seq<byte>, i: int)
    requires Holds(d, b, blocks, content) && Reads(st, d, b, blocks, content, i)
    requires st.cur.position < |content| && HasRoom(st.cur)
    ensures i >= 0
    ensures Take(st).1 == Signed(content[st.cur.position])
    ensures Take(st).0.cur.position == st.cur.position + 1
    ensures Reads(Take(st).0, d, b, blocks, content, i)
  {
    var c := st.cur;
    ContentAt(d, b, blocks, i, c.bufferPosition);
    assert StoredAt(d, b, blocks, content, c.position);
  }

  /** A read that finds the buffer used up loads the next block and takes
      its first byte. */
  lemma {:induction false} ReadAfterLoad(st: St)
    requires Valid(st) && !st.cur.isWriteData && st.cur.position < st.cur.size
    requires !HasRoom(st.cur) && LoadBlock(st).Ok?
    requires st.cur.firstBlockPosition != NONE
    ensures ReadNextByte(st) == Ok(Take(LoadBlock(st).value))
  {
    assert ReadBlock(st) == LoadBlock(st);
  }

  /** One read under the invariant returns the content byte at the file
      pointer and keeps the invariant. */
  lemma {:induction false} ReadStep(st: St, d: Disk, b: int, blocks: seq<int>, content: seq<byte>, i: int)
      returns (i': int, st': St, v: int)
    requires Holds(d, b, blocks, content) && Reads(st, d, b, blocks, content, i)
    requires st.cur.position < |content|
    ensures ReadNextByte(st) == Ok((st', v))
    ensures ToByte(v) == content[st.cur.position]
    ensures st'.cur.position == st.cur.position + 1
    ensures Reads(st', d, b, blocks, content, i')
  {
    if HasRoom(st.cur) {
      TakeStep(st, d, b, blocks, content, i);
      i' := i;
      st', v := Take(st).0, Take(st).1;
    } else {
      LoadNext(st, d, b, blocks, content, i);
      var st1 := LoadBlock(st).value;
      TakeStep(st1, d, b, blocks, content, i + 1);
      ReadAfterLoad(st);
      i' := i + 1;
      st', v := Take(st1).0, Take(st1).1;
    }
  }

  /** Put a byte in front of the bytes a successful read returned. */
  function Prepend(x: byte, r: Result<(St, seq<byte>)>): (r': Result<(St, seq<byte>)>)
    ensures r'.Ok? == r.Ok?
  {
    if r.Ok? then Ok((r.value.0, [x] + r.value.1)) else r
  }

  /** Reading n > 0 bytes is one read followed by n - 1 more. */
  lemma {:induction false} ReadBytesUnroll(st: St, n: nat, st': St, v: int)
    requires Valid(st) && n > 0
    requires ReadNextByte(st) == Ok((st', v))
    ensures ReadBytes(st, n) == Prepend(ToByte(v), ReadBytes(st', n - 1))
  {
    assert ReadBytes(st, n) == ReadMore(st, n);
  }

  /** One read under the invariant, as the first of n reads. */
  lemma {:induction false} ReadStepBytes(st: St, d: Disk, b: int, blocks: seq<int>, content: seq<byte>, i: int, n: nat)
      returns (i': int, st': St, x: byte)
    requires Holds(d, b, blocks, content) && Reads(st, d, b, blocks, content, i)
    requires st.cur.position < |content| && n > 0
    ensures x == content[st.cur.position]
    ensures st'.cur.position == st.cur.position + 1
    ensures Reads(st', d, b, blocks, content, i')
    ensures ReadBytes(st, n) == Prepend(x, ReadBytes(st', n - 1))
  {
    var v;
    i', st', v := ReadStep(st, d, b, blocks, content, i);
    ReadBytesUnroll(st, n, st', v);
    x := ToByte(v);
  }

  /** A slice is its first element followed by the rest. */
  lemma {:induction false} SliceCons(s: seq<byte>, p: int, q: int, n: int, x: byte)
    requires 0 <= p && 0 < n && p + n <= |s| && q == p + 1 && x == s[p]
    ensures [x] + s[q..q + (n - 1)] == s[p..p + n]
  {
  }

  /** A first byte in front of the next n - 1 content bytes is the next n. */
  lemma {:induction false} PrependSlice(st: St, st': St, content: seq<byte>, n: nat, x: byte, last: St)
    requires Valid(st) && Valid(st') && n > 0
    requires 0 <= st.cur.position && st.cur.position + n <= |content|
    requires st'.cur.position == st.cur.position + 1 && x == content[st.cur.position]
    requires ReadBytes(st, n) == Prepend(x, ReadBytes(st', n - 1))
    requires ReadBytes(st', n - 1) == Ok((last, content[st'.cur.position..st'.cur.position + (n - 1)]))
    ensures ReadBytes(st, n) == Ok((last, content[st.cur.position..st.cur.position + n]))
  {
    SliceCons(content, st.cur.position, st'.cur.position, n, x);
  }

  /** Reading no bytes reads the empty slice. */
  lemma {:induction false} ReadNothing(st: St, content: seq<byte>)
    requires Valid(st) && 0 <= st.cur.position <= |content|
    ensures ReadBytes(st, 0) == Ok((st, content[st.cur.position..st.cur.position + 0]))
  {
    assert content[st.cur.position..st.cur.position + 0] == [];
  }

  /** Reading n bytes under the invariant returns the next n content bytes. */
  lemma {:induction false} ReadRun(st: St, d: Disk, b: int, blocks: seq<int>, content: seq<byte>, i: int, n: nat)
      returns (last: St, k: int)
    requires Holds(d, b, blocks, content) && Reads(st, d, b, blocks, content, i)
    requires st.cur.position + n <= |content|
    ensures ReadBytes(st, n) == Ok((last, content[st.cur.position..st.cur.position + n]))
    ensures Reads(last, d, b, blocks, content, k)
    decreases n
  {
    if n == 0 {
      last, k := st, i;
      ReadNothing(st, content);
    } else {
      var i', st', x := ReadStepBytes(st, d, b, blocks, content, i, n);
      last, k := ReadRun(st', d, b, blocks, content, i', n - 1);
      PrependSlice(st, st', content, n, x, last);
    }
  }

  /** Open the stream whose head is `head` and read its whole length. */
  function Load(d: Disk, head: int): (r: Result<seq<byte>>)
    ensures head == NONE && r.Ok? ==> r.value == []
  {
    var st :- Open(d, head);
    if st.cur.size < 0 then Err(IOError)
    else
      var p :- ReadBytes(st, st.cur.size);
      assert head == NONE ==> st.cur.size == 0;
      Ok(p.1)
  }

  /** A stored stream reads back as its content. */
  lemma {:induction false} LoadStored(d: Disk, b: int, blocks: seq<int>, content: seq<byte>)
    requires DiskOk(d, b) && Stored(d, b, blocks, content)
    ensures Load(d, blocks[0]) == Ok(content)
  {
    OpenReads(d, b, blocks, content);
    var st := Open(d, blocks[0]).value;
    var last, _ := ReadRun(st, d, b, blocks, content, -1, |content|);
    assert content[0..|content|] == content;
  }
}
