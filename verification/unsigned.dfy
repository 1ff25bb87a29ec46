/** readNextByte returns the buffered byte as Java's signed `byte` widened
    to int, and read() hands that on: a stored 0xFF comes back as -1, the
    value that means end of stream. The bulk read casts every value back to
    a byte and is not affected. The corrected single-byte read masks the
    byte to 0..255, as InputStream.read promises. */
module Unsigned {
  import opened Wrappers
  import opened Bytes
  import opened Blocks
  import opened Stream
  import opened Reading

  /** A stream of one stored byte, 0xFF, opened and with its head block buffered. */
  function OneFF(): (st: St)
  {
    St(LongToBytes(1024),
       Cursor(1024, 1, FIRST_SLOT, FIRST_SLOT, NONE, FIRST_SLOT, false, 0, true,
              Some([255]), 0, FIRST_SLOT + 32, false))
  }

  /** readNextByte as written: a byte is consumed (the file pointer moves
      from 0 to 1) and yet the read reports -1, which callers take for the
      end of the stream. */
  lemma SignedReadEnds()
    ensures Valid(OneFF()) && OneFF().cur.position < OneFF().cur.size
    ensures ReadNextByte(OneFF()).Ok?
    ensures ReadNextByte(OneFF()).value.1 == -1
    ensures ReadNextByte(OneFF()).value.0.cur.position == OneFF().cur.position + 1
  {
  }

  /** Consume the next buffered byte, read as unsigned. */
  function TakeUnsigned(st: St): (r: (St, int))
    requires Valid(st) && HasRoom(st.cur)
    ensures Valid(r.0) && 0 <= r.1 < 256
    ensures r.0.cur.position == st.cur.position + 1
  {
    var c := st.cur;
    (St(st.disk, c.(position := c.position + 1, bufferPosition := c.bufferPosition + 1)),
     c.buffer.value[c.bufferPosition])
  }

  /** readNextByte with the byte masked (`buffer[bufferPosition++] & 0xFF`):
      -1 now means exactly that no byte was left to consume. */
  function ReadByte(st: St): (r: Result<(St, int)>)
    requires Valid(st)
    ensures r.Ok? ==> Valid(r.value.0) && -1 <= r.value.1 < 256
    ensures r.Ok? ==> (r.value.1 == -1 <==> r.value.0.cur.position == st.cur.position)
    ensures st.cur.position >= st.cur.size ==> r == Ok((st, -1))
  {
    var c := st.cur;
    if c.position >= c.size then Ok((st, -1))
    else if HasRoom(c) then Ok(TakeUnsigned(st))
    else
      var st1 :- ReadBlock(st);
      assert ReadNextByte(st).Ok? && ReadNextByte(st).value.0.cur.position >= st.cur.position;
      if st1.cur.position >= st1.cur.size then Ok((st1, -1))
      else Ok(TakeUnsigned(st1))
  }

  /** The corrected read moves the stream exactly as the written one does
      and returns the same byte, unsigned: the two differ only in the
      value handed back for a stored byte of 0x80..0xFF. */
  lemma ReadByteMasks(st: St)
    requires Valid(st)
    ensures ReadByte(st).Ok? <==> ReadNextByte(st).Ok?
    ensures ReadByte(st).Ok? ==>
              var (s1, v1) := ReadByte(st).value;
              var (s2, v2) := ReadNextByte(st).value;
              && s1 == s2
              && (s1.cur.position == st.cur.position ==> v1 == v2 == -1)
              && (s1.cur.position != st.cur.position ==> v1 == ToByte(v2))
  {
  }

  /** On a stored stream the corrected read returns the content byte under
      the file pointer, and -1 only at the end of the content. */
  lemma {:induction false} ReadByteStored(st: St, d: Disk, b: int, blocks: seq<int>, content: seq<byte>, i: int)
    requires Holds(d, b, blocks, content) && Reads(st, d, b, blocks, content, i)
    requires st.cur.position <= |content|
    ensures ReadByte(st).Ok?
    ensures st.cur.position < |content| ==> ReadByte(st).value.1 == content[st.cur.position]
    ensures st.cur.position == |content| ==> ReadByte(st) == Ok((st, -1))
  {
    if st.cur.position < |content| {
      var i', st', v := ReadStep(st, d, b, blocks, content, i);
      ReadByteMasks(st);
    }
  }
}
