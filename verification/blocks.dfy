/** Layout of the container file: an 8-byte block-size header followed by
    fixed slots of BLOCK_SIZE + 16 bytes. A slot starts with two longs, the
    end-marker (FREE = -2 for a tombstoned slot) and the next pointer
    (NONE = -1 for the last block of a chain). A chain's head block keeps the
    stream size at +16 and the position of the chain's last block at +24, so
    its payload starts at +32; every other block's payload starts at +16. */
module Blocks {
  import opened Wrappers
  import opened Bytes

  const DEFAULT_BLOCK_SIZE: int := 1024
  const FREE: int := -2
  const NONE: int := -1
  /** Offset of the first slot: the header long comes before it. */
  const FIRST_SLOT: int := 8
  const TWO_31: int := 0x8000_0000

  /** Java's `(int)` cast of a long: keep the low 32 bits, signed. */
  function ToInt32(v: int): (r: int)
    ensures -TWO_31 <= r < TWO_31
    ensures (r - v) % (2 * TWO_31) == 0
  {
    (v + TWO_31) % (2 * TWO_31) - TWO_31
  }

  /** The header the stream leaves in a container shorter than 8 bytes. */
  function DefaultHeader(): (r: Disk)
    ensures ReadLong(r, 0) == Ok(DEFAULT_BLOCK_SIZE)
  {
    var r := LongToBytes(DEFAULT_BLOCK_SIZE);
    LongRoundTrip(DEFAULT_BLOCK_SIZE);
    assert r[0..8] == r;
    r
  }

  /** readFileInfo: a container shorter than 8 bytes is reset to the default
      header; otherwise the block size is the header long, cast to int. A
      block size of 16 or less leaves no payload, so it is refused here. */
  function ReadFileInfo(d: Disk): (r: Result<(Disk, int)>)
    ensures |d| < 8 ==> r == Ok((DefaultHeader(), DEFAULT_BLOCK_SIZE))
    ensures |d| >= 8 && r.Ok? ==> r.value.0 == d && ReadLong(d, 0).Ok?
                                  && r.value.1 == ToInt32(ReadLong(d, 0).value)
    ensures r.Ok? ==> r.value.1 > 16 && |r.value.0| >= 8
  {
    if |d| < 8 then
      Ok((DefaultHeader(), DEFAULT_BLOCK_SIZE))
    else
      var b := ToInt32(ReadLong(d, 0).value);
      if b <= 16 then Err(IOError) else Ok((d, b))
  }

  // ---------------------------------------------------------------------------
  // Slot geometry

  function SlotSize(b: int): int {
    b + 16
  }

  /** x is a whole number of steps of size s. */
  predicate Steps(x: int, s: int)
    requires s > 0
    decreases x
  {
    x == 0 || (x >= s && Steps(x - s, s))
  }

  /** p is the start of a slot for block size b. */
  predicate Aligned(b: int, p: int) {
    b > 16 && p >= FIRST_SLOT && Steps(p - FIRST_SLOT, SlotSize(b))
  }

  /** The container holds a header for block size b and whole slots only. */
  predicate DiskOk(d: Disk, b: int) {
    && 16 < b < TWO_31
    && ReadLong(d, 0) == Ok(b)
    && Aligned(b, |d|)
  }

  /** Two different whole numbers of steps are at least a step apart. */
  lemma {:induction false} StepsApart(x: int, y: int, s: int)
    requires s > 0 && Steps(x, s) && Steps(y, s) && x < y
    ensures x + s <= y
    decreases y
  {
    if x != 0 {
      StepsApart(x - s, y - s, s);
    }
  }

  /** Two different slot starts are at least a slot apart. */
  lemma AlignedApart(b: int, p: int, q: int)
    requires Aligned(b, p) && Aligned(b, q) && p < q
    ensures p + SlotSize(b) <= q
  {
    StepsApart(p - FIRST_SLOT, q - FIRST_SLOT, SlotSize(b));
  }

  /** The slot after an aligned slot is aligned. */
  lemma AlignedNext(b: int, p: int)
    requires Aligned(b, p)
    ensures Aligned(b, p + SlotSize(b))
  {
    assert Steps(p + SlotSize(b) - FIRST_SLOT, SlotSize(b));
  }

  // ---------------------------------------------------------------------------
  // findFirstEmptyBlock

  /** The first-fit scan: from p, step one slot at a time (the step is
      clamped at the end of the file, as skipBytes is) and stop at the end of
      the file or at a slot whose end-marker is FREE. The scan cursor ends on
      the returned position. */
  function FindFirstEmptyBlock(d: Disk, b: int, p: int): (r: Result<int>)
    requires b > 16
    ensures r.Ok? ==> r.value >= p
    ensures r.Ok? ==> r.value >= |d| || ReadLong(d, r.value) == Ok(FREE)
    ensures r.Ok? && p <= |d| ==> r.value <= |d|
    ensures r.Ok? && p < |d| && ReadLong(d, p) != Ok(FREE) ==> r.value > p
    // from a slot start the scan stops on a slot start or at the end of the file
    ensures r.Ok? && Aligned(b, p) ==> Aligned(b, r.value) || r.value == |d|
    // first fit: every slot start the scan passed is in use
    ensures r.Ok? && Aligned(b, p) ==>
              forall q :: p <= q < r.value && Aligned(b, q) ==>
                ReadLong(d, q).Ok? && ReadLong(d, q).value != FREE
    decreases |d| - p
  {
    if p < 0 then Err(IOError)
    else if p >= |d| then Ok(p)
    else
      var m :- ReadLong(d, p);
      if m == FREE then Ok(p)
      else
        var p' := Min(p + SlotSize(b), |d|);
        var r :- FindFirstEmptyBlock(d, b, p');
        if Aligned(b, p) then
          AlignedNext(b, p);
          assert forall q :: p < q < p' && Aligned(b, q) ==> false by {
            forall q | p < q < p' && Aligned(b, q)
              ensures false
            {
              AlignedApart(b, p, q);
            }
          }
          Ok(r)
        else
          Ok(r)
  }

  /** On a container of whole slots, an aligned scan returns a slot start. */
  lemma FindAligned(d: Disk, b: int, p: int)
    requires Aligned(b, p) && Aligned(b, |d|)
    requires FindFirstEmptyBlock(d, b, p).Ok?
    ensures Aligned(b, FindFirstEmptyBlock(d, b, p).value)
  {
  }

  // ---------------------------------------------------------------------------
  // Chains

  /** A block in use: a whole slot inside the file, not tombstoned. */
  predicate InUse(d: Disk, b: int, p: int) {
    && Aligned(b, p)
    && p + SlotSize(b) <= |d|
    && ReadLong(d, p).Ok? && ReadLong(d, p).value != FREE
  }

  /** The next pointer block i of a chain must hold. */
  function NextOf(blocks: seq<int>, i: int): int
    requires 0 <= i < |blocks|
  {
    if i + 1 < |blocks| then blocks[i + 1] else NONE
  }

  // The chain facts below are stated through one predicate per block (or
  // pair of blocks), and their quantifiers fire only on those predicates: a
  // proof asks for the fact about block i by naming InUseAt(d, b, blocks, i),
  // instead of every mention of blocks[i] unfolding the whole chain.

  predicate InUseAt(d: Disk, b: int, blocks: seq<int>, i: int) {
    0 <= i < |blocks| && InUse(d, b, blocks[i])
  }

  predicate LinkAt(d: Disk, blocks: seq<int>, i: int) {
    0 <= i < |blocks| && ReadLong(d, blocks[i] + 8) == Ok(NextOf(blocks, i))
  }

  predicate Apart(blocks: seq<int>, i: int, j: int) {
    0 <= i < |blocks| && 0 <= j < |blocks| && blocks[i] != blocks[j]
  }

  /** Every block of the chain is in use. */
  predicate AllInUse(d: Disk, b: int, blocks: seq<int>) {
    forall i {:trigger InUseAt(d, b, blocks, i)} :: 0 <= i < |blocks| ==> InUseAt(d, b, blocks, i)
  }

  predicate Distinct(blocks: seq<int>) {
    forall i, j {:trigger Apart(blocks, i, j)} :: 0 <= i < j < |blocks| ==> Apart(blocks, i, j)
  }

  /** blocks is a well-formed chain: blocks in use, pairwise different, each
      next pointer naming the following block and the last one NONE. */
  predicate ChainOk(d: Disk, b: int, blocks: seq<int>) {
    && |blocks| >= 1
    && AllInUse(d, b, blocks)
    && Distinct(blocks)
    && (forall i {:trigger LinkAt(d, blocks, i)} :: 0 <= i < |blocks| ==> LinkAt(d, blocks, i))
  }

  /** Where the payload of block i starts: after the size/last longs in the head. */
  function PayloadStart(blocks: seq<int>, i: int): int
    requires 0 <= i < |blocks|
  {
    if i == 0 then blocks[0] + 32 else blocks[i] + 16
  }

  function PayloadLen(b: int, i: int): int {
    if i == 0 then b - 16 else b
  }

  function Payload(d: Disk, b: int, blocks: seq<int>, i: int): (r: seq<byte>)
    requires b > 16 && InUseAt(d, b, blocks, i)
    ensures |r| == PayloadLen(b, i)
  {
    d[PayloadStart(blocks, i)..PayloadStart(blocks, i) + PayloadLen(b, i)]
  }

  /** The content offset at which block i's payload starts. */
  function Offset(b: int, i: nat): nat
    requires b > 16
  {
    if i == 0 then 0 else Offset(b, i - 1) + PayloadLen(b, i - 1)
  }

  /** The payloads of the first k blocks, concatenated. */
  function ContentUpTo(d: Disk, b: int, blocks: seq<int>, k: nat): (r: seq<byte>)
    requires k <= |blocks| && b > 16
    requires AllInUse(d, b, blocks)
    ensures |r| == Offset(b, k)
  {
    if k == 0 then [] else
      assert InUseAt(d, b, blocks, k - 1);
      ContentUpTo(d, b, blocks, k - 1) + Payload(d, b, blocks, k - 1)
  }

  /** The stream size a head block records. */
  function StoredSize(d: Disk, head: int): Result<int> {
    ReadLong(d, head + 16)
  }

  /** Content byte j is the byte at offset j of the chain's payloads. */
  predicate StoredAt(d: Disk, b: int, blocks: seq<int>, content: seq<byte>, j: int)
    requires b > 16 && AllInUse(d, b, blocks)
  {
    0 <= j < |content| && j < Offset(b, |blocks|)
    && content[j] == ContentUpTo(d, b, blocks, |blocks|)[j]
  }

  /** The chain `blocks` carries the bytes `content`: a well-formed chain
      whose payloads start with content. */
  predicate Holds(d: Disk, b: int, blocks: seq<int>, content: seq<byte>) {
    && b > 16
    && ChainOk(d, b, blocks)
    && |content| <= Offset(b, |blocks|)
    && (forall j {:trigger StoredAt(d, b, blocks, content, j)} ::
          0 <= j < |content| ==> StoredAt(d, b, blocks, content, j))
  }

  /** The container holds, at the chain `blocks`, a stream whose bytes are
      exactly `content`: the chain carries content and the head records
      |content| as the size. */
  predicate Stored(d: Disk, b: int, blocks: seq<int>, content: seq<byte>) {
    Holds(d, b, blocks, content) && StoredSize(d, blocks[0]) == Ok(|content|)
  }

  /** The number of slots the container has room for. */
  function SlotCount(d: Disk, b: int): nat
    requires b > 16
  {
    if |d| <= FIRST_SLOT then 0 else (|d| - FIRST_SLOT) / SlotSize(b)
  }
}
