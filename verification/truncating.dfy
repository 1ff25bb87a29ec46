/** setLength to a shorter length on a stored stream: the walk from the
    block that holds the new end tombstones every later block of the
    chain, rewinds the free-slot cursor to the lowest slot it freed, and
    writes nothing but end-markers. */
module Truncating {
  import opened Wrappers
  import opened Bytes
  import opened Blocks
  import opened Stream
  import opened Reading
  import opened Seeking
  import opened Storing

  // ---------------------------------------------------------------------------
  // The chain fits in the container: the walk's fuel suffices

  /** Distinct slot starts inside the first L bytes number at most
      (L - 8) / SlotSize(b). */
  lemma {:induction false} SlotsFit(b: int, slots: set<int>, L: int)
    requires Aligned(b, L)
    requires forall p :: p in slots ==> Aligned(b, p) && p + SlotSize(b) <= L
    ensures |slots| * SlotSize(b) <= L - FIRST_SLOT
    decreases L
  {
    var s := SlotSize(b);
    if L == FIRST_SLOT {
      assert forall p :: p !in slots;
      assert slots == {};
    } else {
      var top := L - s;
      assert Aligned(b, top);
      var rest := slots - {top};
      forall p | p in rest
        ensures Aligned(b, p) && p + s <= top
      {
        AlignedApart(b, p, top);
      }
      SlotsFit(b, rest, top);
      assert |slots| <= |rest| + 1;
    }
  }

  /** A chain without repeats has as many different blocks as it has blocks. */
  lemma {:induction false} DistinctCard(blocks: seq<int>)
    requires Distinct(blocks)
    ensures |set i | 0 <= i < |blocks| :: blocks[i]| == |blocks|
  {
    if |blocks| > 0 {
      var init := blocks[..|blocks| - 1];
      var last := blocks[|blocks| - 1];
      assert Distinct(init) by {
        forall i, j | 0 <= i < j < |init|
          ensures Apart(init, i, j)
        {
          assert Apart(blocks, i, j);
        }
      }
      DistinctCard(init);
      var a := set i | 0 <= i < |init| :: init[i];
      var all := set i | 0 <= i < |blocks| :: blocks[i];
      forall i | 0 <= i < |init|
        ensures init[i] != last
      {
        assert Apart(blocks, i, |blocks| - 1);
      }
      assert last !in a;
      assert all == a + {last};
    }
  }

  /** A well-formed chain has no more blocks than the container has slots. */
  lemma {:induction false} ChainFits(d: Disk, b: int, blocks: seq<int>)
    requires DiskOk(d, b) && ChainOk(d, b, blocks)
    ensures |blocks| <= SlotCount(d, b)
  {
    var slots := set i | 0 <= i < |blocks| :: blocks[i];
    forall p | p in slots
      ensures Aligned(b, p) && p + SlotSize(b) <= |d|
    {
      var i :| 0 <= i < |blocks| && blocks[i] == p;
      assert InUseAt(d, b, blocks, i);
    }
    SlotsFit(b, slots, |d|);
    DistinctCard(blocks);
    var s := SlotSize(b);
    assert |d| > FIRST_SLOT by {
      assert InUseAt(d, b, blocks, 0);
    }
    var q := (|d| - FIRST_SLOT) / s;
    if |blocks| > q {
      MulMono(s, q + 1, |blocks|);
      assert false;
    }
  }

  // ---------------------------------------------------------------------------
  // The freeing walk

  /** Block m of the chain can be walked: a slot inside the container whose
      next pointer names the following block. */
  predicate WalkAt(d: Disk, b: int, blocks: seq<int>, m: int) {
    && 0 <= m < |blocks| && Aligned(b, blocks[m])
    && blocks[m] + SlotSize(b) <= |d| && LinkAt(d, blocks, m)
  }

  /** Block m of the chain is tombstoned. */
  predicate FreedAt(d: Disk, blocks: seq<int>, m: int) {
    0 <= m < |blocks| && ReadLong(d, blocks[m]) == Ok(FREE)
  }

  /** Byte q is not in the end-marker of any block from k on. */
  predicate OffMarks(blocks: seq<int>, k: int, q: int) {
    forall m :: 0 <= k <= m < |blocks| ==> !(blocks[m] <= q < blocks[m] + 8)
  }

  /** The lowest block from k on. */
  function MinFrom(blocks: seq<int>, k: nat): (r: int)
    requires k < |blocks|
    ensures forall m :: k <= m < |blocks| ==> r <= blocks[m]
    ensures exists m :: k <= m < |blocks| && r == blocks[m]
    decreases |blocks| - k
  {
    if k == |blocks| - 1 then blocks[k] else Min(blocks[k], MinFrom(blocks, k + 1))
  }

  /** The walk from k on is possible. */
  ghost predicate Walkable(d: Disk, b: int, blocks: seq<int>, k: int) {
    && b > 16 && 0 <= k < |blocks| && Distinct(blocks)
    && forall m {:trigger WalkAt(d, b, blocks, m)} :: k <= m < |blocks| ==> WalkAt(d, b, blocks, m)
  }

  /** Two different blocks of the walk are a slot apart. */
  lemma {:induction false} BlocksApart(d: Disk, b: int, blocks: seq<int>, k: int, m: int, m2: int)
    requires Walkable(d, b, blocks, k) && k <= m < |blocks| && k <= m2 < |blocks| && m != m2
    ensures blocks[m] + SlotSize(b) <= blocks[m2] || blocks[m2] + SlotSize(b) <= blocks[m]
  {
    assert WalkAt(d, b, blocks, m) && WalkAt(d, b, blocks, m2);
    if m < m2 {
      assert Apart(blocks, m, m2);
    } else {
      assert Apart(blocks, m2, m);
    }
    if blocks[m] < blocks[m2] {
      AlignedApart(b, blocks[m], blocks[m2]);
    } else {
      AlignedApart(b, blocks[m2], blocks[m]);
    }
  }

  /** A long that lies outside a freed end-marker reads the same. */
  lemma {:induction false} LongKept(d: Disk, d': Disk, at: int, p: int)
    requires |d'| == |d| && 0 <= p && p + 8 <= |d|
    requires forall q :: 0 <= q < |d| && !(at <= q < at + 8) ==> d'[q] == d[q]
    requires p + 8 <= at || at + 8 <= p
    ensures ReadLong(d', p) == ReadLong(d, p)
  {
    assert d'[p..p + 8] == d[p..p + 8];
  }

  // The walk is named through a non-recursive ghost function and two
  // predicates over it, so that a proof goal about the walk does not unfold
  // DeleteBlock itself.

  /** The walk from the block at `at`, keeping `keep` bytes of it. */
  ghost function Walked(st: St, at: int, keep: int, fuel: nat): Result<St>
    requires Valid(st)
  {
    DeleteBlock(st, at, keep, fuel)
  }

  /** The walk from the block at `at` ends in r. */
  ghost predicate EndsIn(st: St, at: int, keep: int, fuel: nat, r: St)
    requires Valid(st)
  {
    Walked(st, at, keep, fuel) == Ok(r)
  }

  /** The walk from `at` goes on as the freeing walk from `next` after st1. */
  ghost predicate WalksOn(st: St, at: int, keep: int, fuel: nat, st1: St, next: int)
    requires Valid(st) && Valid(st1) && fuel > 0
  {
    Walked(st, at, keep, fuel) == Walked(st1, next, 0, fuel - 1)
  }

  /** Where the whole walk ends, the rest of the walk ends. */
  lemma FreesBack(st: St, at: int, keep: int, fuel: nat, st1: St, next: int, r: St)
    requires Valid(st) && Valid(st1) && fuel > 0
    ensures WalksOn(st, at, keep, fuel, st1, next) && EndsIn(st, at, keep, fuel, r) ==> EndsIn(st1, next, 0, fuel - 1, r)
  {
  }

  /** Where the rest of the walk ends, the whole walk ends. */
  lemma FreesOn(st: St, at: int, keep: int, fuel: nat, st1: St, next: int, r: St)
    requires Valid(st) && Valid(st1) && fuel > 0
    ensures WalksOn(st, at, keep, fuel, st1, next) && EndsIn(st1, next, 0, fuel - 1, r) ==> EndsIn(st, at, keep, fuel, r)
  {
  }

  /** One turn of the freeing walk: tombstone the block, read its next
      pointer, and go on from there. */
  lemma {:induction false} DeleteOn(st: St, at: int, fuel: nat, st1: St, next: int)
    requires Valid(st) && st.cur.blockSize != 0 && at >= 0
    requires FreeBlock(st, at) == Ok(st1) && ReadLong(st1.disk, at + 8) == Ok(next)
    requires next != NONE && fuel > 0
    ensures WalksOn(st, at, 0, fuel, st1, next)
  {
  }

  /** The last turn of the freeing walk: the next pointer is NONE. */
  lemma {:induction false} DeleteLast(st: St, at: int, fuel: nat, st1: St)
    requires Valid(st) && st.cur.blockSize != 0 && at >= 0
    requires FreeBlock(st, at) == Ok(st1) && ReadLong(st1.disk, at + 8) == Ok(NONE)
    ensures EndsIn(st, at, 0, fuel, st1)
  {
  }

  /** The first turn of a walk that keeps `keep` bytes of the block: its
      end-marker is moved to the last kept byte, and the freeing walk goes on
      from the next block. */
  lemma {:induction false} CutOn(st: St, at: int, keep: int, fuel: nat, st1: St, next: int)
    requires Valid(st) && keep != st.cur.blockSize && keep != 0 && at >= 0
    requires st1 == St(Put(st.disk, at, LongToBytes(at + 16 + keep - 1)).value, st.cur)
    requires ReadLong(st1.disk, at + 8) == Ok(next) && next != NONE && fuel > 0
    ensures WalksOn(st, at, keep, fuel, st1, next)
  {
  }

  /** A cut block that was the last one ends the walk. */
  lemma {:induction false} CutLast(st: St, at: int, keep: int, fuel: nat, st1: St)
    requires Valid(st) && keep != st.cur.blockSize && keep != 0 && at >= 0
    requires st1 == St(Put(st.disk, at, LongToBytes(at + 16 + keep - 1)).value, st.cur)
    requires ReadLong(st1.disk, at + 8) == Ok(NONE)
    ensures EndsIn(st, at, keep, fuel, st1)
  {
  }

  /** The walk goes on after a block whose end-marker alone was written. */
  lemma {:induction false} WalkStep(d: Disk, d1: Disk, b: int, blocks: seq<int>, k: int)
    requires Walkable(d, b, blocks, k) && k + 1 < |blocks| && |d1| == |d|
    requires forall q :: 0 <= q < |d| && !(blocks[k] <= q < blocks[k] + 8) ==> d1[q] == d[q]
    ensures Walkable(d1, b, blocks, k + 1)
  {
    forall m | k + 1 <= m < |blocks|
      ensures WalkAt(d1, b, blocks, m)
    {
      assert WalkAt(d, b, blocks, m);
      BlocksApart(d, b, blocks, k, k, m);
      LongKept(d, d1, blocks[k], blocks[m] + 8);
    }
  }

  /** Tombstoning block k and then the rest of the walk writes only the
      end-markers from k on, and leaves them all FREE. */
  lemma {:induction false} FrameStep(d: Disk, d1: Disk, d2: Disk, b: int, blocks: seq<int>, k: int)
    requires Walkable(d, b, blocks, k) && k + 1 < |blocks| && |d1| == |d| && |d2| == |d|
    requires forall q :: 0 <= q < |d| && !(blocks[k] <= q < blocks[k] + 8) ==> d1[q] == d[q]
    requires ReadLong(d1, blocks[k]) == Ok(FREE)
    requires forall q :: 0 <= q < |d1| && OffMarks(blocks, k + 1, q) ==> d2[q] == d1[q]
    requires forall m :: k + 1 <= m < |blocks| ==> FreedAt(d2, blocks, m)
    ensures forall q :: 0 <= q < |d| && OffMarks(blocks, k, q) ==> d2[q] == d[q]
    ensures forall m :: k <= m < |blocks| ==> FreedAt(d2, blocks, m)
  {
    var at := blocks[k];
    forall m2 | k + 1 <= m2 < |blocks|
      ensures blocks[m2] + 8 <= at || at + 8 <= blocks[m2]
    {
      BlocksApart(d, b, blocks, k, k, m2);
    }
    assert WalkAt(d, b, blocks, k);
    assert d2[at..at + 8] == d1[at..at + 8];
  }

  /** What tombstoning block k of the walk did to the stream: only the
      end-marker of block k is written, and it now reads FREE; the free-slot
      cursor drops to that block if it is lower; freeing the head leaves the
      stream without one, and empty; the walk can go on at block k + 1. */
  ghost predicate Turned(st: St, st1: St, b: int, blocks: seq<int>, k: int)
    requires 0 <= k < |blocks|
  {
    && Valid(st1) && st1.cur.blockSize == b && |st1.disk| == |st.disk|
    && ReadLong(st1.disk, blocks[k]) == Ok(FREE)
    && (forall q :: 0 <= q < |st.disk| && !(blocks[k] <= q < blocks[k] + 8) ==> st1.disk[q] == st.disk[q])
    && st1.cur.emptyBlockPosition == Min(st.cur.emptyBlockPosition, blocks[k])
    && (blocks[k] == st.cur.firstBlockPosition ==> st1.cur.firstBlockPosition == NONE && st1.cur.size == 0)
    && (blocks[k] != st.cur.firstBlockPosition ==>
          st1.cur.firstBlockPosition == st.cur.firstBlockPosition && st1.cur.size == st.cur.size)
    && (k + 1 < |blocks| ==> Walkable(st1.disk, b, blocks, k + 1))
  }

  /** What the walk from block k on did to the stream: every block from k on
      is tombstoned and nothing but their end-markers is written; the
      free-slot cursor drops to the lowest freed block if that is lower;
      freeing from the head (k == 0) leaves the stream without one, and
      empty. */
  ghost predicate Ran(st: St, r: St, b: int, blocks: seq<int>, k: int)
    requires 0 <= k < |blocks|
  {
    && r.cur.blockSize == b && |r.disk| == |st.disk|
    && (forall m :: k <= m < |blocks| ==> FreedAt(r.disk, blocks, m))
    && (forall q :: 0 <= q < |st.disk| && OffMarks(blocks, k, q) ==> r.disk[q] == st.disk[q])
    && r.cur.emptyBlockPosition == Min(st.cur.emptyBlockPosition, MinFrom(blocks, k))
    && r.cur.firstBlockPosition == (if k == 0 then NONE else st.cur.firstBlockPosition)
    && r.cur.size == (if k == 0 then 0 else st.cur.size)
  }

  /** What the walk from k on does, given what tombstoning block k did and
      what the walk from k + 1 on did after it. */
  lemma {:induction false} RunJoin(st: St, st1: St, r: St, b: int, blocks: seq<int>, k: int)
    requires Walkable(st.disk, b, blocks, k) && k + 1 < |blocks|
    requires k == 0 ==> st.cur.firstBlockPosition == blocks[0]
    requires k > 0 ==> st.cur.firstBlockPosition == blocks[0] || st.cur.firstBlockPosition == NONE
    requires Turned(st, st1, b, blocks, k) && Ran(st1, r, b, blocks, k + 1)
    ensures Ran(st, r, b, blocks, k)
  {
    FrameStep(st.disk, st1.disk, r.disk, b, blocks, k);
    if k > 0 && st.cur.firstBlockPosition == blocks[0] {
      assert Apart(blocks, 0, k);
    }
    assert WalkAt(st.disk, b, blocks, k);
  }

  /** One turn of the walk at block k: the walk goes on at block k + 1, or
      stops after the last block. */
  lemma {:induction false} FreeTurn(st: St, b: int, blocks: seq<int>, k: int, fuel: nat) returns (st1: St)
    requires Valid(st) && st.cur.blockSize == b && Walkable(st.disk, b, blocks, k)
    requires k + 1 < |blocks| ==> fuel > 0
    ensures FreeBlock(st, blocks[k]) == Ok(st1) && ReadLong(st1.disk, blocks[k] + 8) == Ok(NextOf(blocks, k))
    ensures Turned(st, st1, b, blocks, k)
    ensures k + 1 < |blocks| ==> WalksOn(st, blocks[k], 0, fuel, st1, blocks[k + 1])
    ensures k + 1 == |blocks| ==> EndsIn(st, blocks[k], 0, fuel, st1)
  {
    var d := st.disk;
    var at := blocks[k];
    assert WalkAt(d, b, blocks, k);
    st1 := FreeBlock(st, at).value;
    LongKept(d, st1.disk, at, at + 8);
    if k + 1 < |blocks| {
      WalkStep(d, st1.disk, b, blocks, k);
      assert WalkAt(st1.disk, b, blocks, k + 1);
      DeleteOn(st, at, fuel, st1, blocks[k + 1]);
    } else {
      DeleteLast(st, at, fuel, st1);
    }
  }

  /** What the walk does at the last block. */
  lemma {:induction false} LastJoin(st: St, st1: St, b: int, blocks: seq<int>, k: int)
    requires Walkable(st.disk, b, blocks, k) && k + 1 == |blocks|
    requires k == 0 ==> st.cur.firstBlockPosition == blocks[0]
    requires k > 0 ==> st.cur.firstBlockPosition == blocks[0] || st.cur.firstBlockPosition == NONE
    requires Turned(st, st1, b, blocks, k)
    ensures Ran(st, st1, b, blocks, k)
  {
    if k > 0 && st.cur.firstBlockPosition == blocks[0] {
      assert Apart(blocks, 0, k);
    }
    forall q | 0 <= q < |st.disk| && OffMarks(blocks, k, q)
      ensures st1.disk[q] == st.disk[q]
    {
    }
  }

  /** The walk that frees the chain from block k on ends within the fuel. */
  lemma {:induction false} FreeEnds(st: St, b: int, blocks: seq<int>, k: int, fuel: nat) returns (r: St)
    requires Valid(st) && st.cur.blockSize == b && Walkable(st.disk, b, blocks, k)
    requires fuel >= |blocks| - 1 - k
    ensures EndsIn(st, blocks[k], 0, fuel, r)
    decreases |blocks| - k
  {
    var st1 := FreeTurn(st, b, blocks, k, fuel);
    if k + 1 < |blocks| {
      r := FreeEnds(st1, b, blocks, k + 1, fuel - 1);
      FreesOn(st, blocks[k], 0, fuel, st1, blocks[k + 1], r);
    } else {
      r := st1;
    }
  }

  /** Where the walk from block k on ends, Ran describes. */
  lemma {:induction false} FreeState(st: St, b: int, blocks: seq<int>, k: int, fuel: nat, r: St)
    requires Valid(st) && st.cur.blockSize == b && Walkable(st.disk, b, blocks, k)
    requires fuel >= |blocks| - 1 - k
    requires k == 0 ==> st.cur.firstBlockPosition == blocks[0]
    requires k > 0 ==> st.cur.firstBlockPosition == blocks[0] || st.cur.firstBlockPosition == NONE
    requires EndsIn(st, blocks[k], 0, fuel, r)
    ensures Ran(st, r, b, blocks, k)
    decreases |blocks| - k
  {
    var st1 := FreeTurn(st, b, blocks, k, fuel);
    if k + 1 < |blocks| {
      if k > 0 && st.cur.firstBlockPosition == blocks[0] {
        assert Apart(blocks, 0, k);
      }
      FreesBack(st, blocks[k], 0, fuel, st1, blocks[k + 1], r);
      FreeState(st1, b, blocks, k + 1, fuel - 1, r);
      RunJoin(st, st1, r, b, blocks, k);
    } else {
      LastJoin(st, st1, b, blocks, k);
    }
  }

  /** The walk that frees the chain from block k on ends, within the fuel,
      in a stream r that Ran describes. */
  lemma FreeRun(st: St, b: int, blocks: seq<int>, k: int, fuel: nat) returns (r: St)
    requires Valid(st) && st.cur.blockSize == b && Walkable(st.disk, b, blocks, k)
    requires fuel >= |blocks| - 1 - k
    requires k == 0 ==> st.cur.firstBlockPosition == blocks[0]
    requires k > 0 ==> st.cur.firstBlockPosition == blocks[0] || st.cur.firstBlockPosition == NONE
    ensures EndsIn(st, blocks[k], 0, fuel, r) && Ran(st, r, b, blocks, k)
  {
    r := FreeEnds(st, b, blocks, k, fuel);
    FreeState(st, b, blocks, k, fuel, r);
  }

  // ---------------------------------------------------------------------------
  // setLength to a shorter length

  /** What cutting block k to its first `keep` bytes did: only its
      end-marker is written, and it now names the last kept byte. */
  ghost predicate Trimmed(st: St, st1: St, b: int, blocks: seq<int>, k: int, keep: int)
    requires 0 <= k < |blocks|
  {
    && Valid(st1) && st1.cur == st.cur && |st1.disk| == |st.disk|
    && 0 <= blocks[k] && blocks[k] + 8 <= |st1.disk|
    && st1.disk[blocks[k]..blocks[k] + 8] == LongToBytes(blocks[k] + 16 + keep - 1)
    && (forall q :: 0 <= q < |st.disk| && !(blocks[k] <= q < blocks[k] + 8) ==> st1.disk[q] == st.disk[q])
    && (k + 1 < |blocks| ==> Walkable(st1.disk, b, blocks, k + 1))
  }

  /** What the walk that keeps `keep` bytes of block j did: the blocks after
      the kept bytes are tombstoned (block j too when nothing of it is
      kept), a kept block's end-marker names its last kept byte, and no
      other byte is written; the free-slot cursor drops to the lowest freed
      block if that is lower; freeing the head leaves the stream without
      one. */
  ghost predicate Cut(st: St, r: St, b: int, blocks: seq<int>, j: int, keep: int)
    requires 0 <= j < |blocks|
  {
    var f := if keep == 0 then j else j + 1;
    && r.cur.blockSize == b && |r.disk| == |st.disk|
    && (forall m :: f <= m < |blocks| ==> FreedAt(r.disk, blocks, m))
    && (keep > 0 ==> 0 <= blocks[j] && blocks[j] + 8 <= |r.disk|
                     && r.disk[blocks[j]..blocks[j] + 8] == LongToBytes(blocks[j] + 16 + keep - 1))
    && (forall q :: 0 <= q < |st.disk| && OffMarks(blocks, j, q) ==> r.disk[q] == st.disk[q])
    && r.cur.emptyBlockPosition == (if f < |blocks| then Min(st.cur.emptyBlockPosition, MinFrom(blocks, f))
                                    else st.cur.emptyBlockPosition)
    && r.cur.firstBlockPosition == (if f == 0 then NONE else st.cur.firstBlockPosition)
  }

  /** The first turn of a walk that keeps part of block k. */
  lemma {:induction false} CutTurn(st: St, b: int, blocks: seq<int>, k: int, keep: int, fuel: nat) returns (st1: St)
    requires Valid(st) && st.cur.blockSize == b && Walkable(st.disk, b, blocks, k)
    requires 0 < keep < b && (k + 1 < |blocks| ==> fuel > 0)
    ensures Trimmed(st, st1, b, blocks, k, keep)
    ensures k + 1 < |blocks| ==> WalksOn(st, blocks[k], keep, fuel, st1, blocks[k + 1])
    ensures k + 1 == |blocks| ==> EndsIn(st, blocks[k], keep, fuel, st1)
  {
    var d := st.disk;
    var at := blocks[k];
    assert WalkAt(d, b, blocks, k);
    var mark := LongToBytes(at + 16 + keep - 1);
    PutSlice(d, at, mark);
    st1 := St(Put(d, at, mark).value, st.cur);
    LongKept(d, st1.disk, at, at + 8);
    if k + 1 < |blocks| {
      WalkStep(d, st1.disk, b, blocks, k);
      assert WalkAt(st1.disk, b, blocks, k + 1);
      CutOn(st, at, keep, fuel, st1, blocks[k + 1]);
    } else {
      CutLast(st, at, keep, fuel, st1);
    }
  }

  /** A walk from a cut block: the cut, then the freeing walk after it. */
  lemma {:induction false} CutJoin(st: St, st1: St, r: St, b: int, blocks: seq<int>, j: int, keep: int)
    requires Walkable(st.disk, b, blocks, j) && st.cur.blockSize == b && 0 < keep
    requires Trimmed(st, st1, b, blocks, j, keep)
    requires j + 1 < |blocks| ==> Ran(st1, r, b, blocks, j + 1)
    requires j + 1 == |blocks| ==> r == st1
    ensures Cut(st, r, b, blocks, j, keep)
  {
    var at := blocks[j];
    if j + 1 < |blocks| {
      forall m2 | j + 1 <= m2 < |blocks|
        ensures blocks[m2] + 8 <= at || at + 8 <= blocks[m2]
      {
        BlocksApart(st.disk, b, blocks, j, j, m2);
      }
      assert r.disk[at..at + 8] == st1.disk[at..at + 8];
    }
  }

  /** A walk that keeps nothing of block j is the freeing walk from j. */
  lemma RanCut(st: St, r: St, b: int, blocks: seq<int>, j: int)
    requires 0 <= j < |blocks| && Ran(st, r, b, blocks, j)
    ensures Cut(st, r, b, blocks, j, 0)
  {
  }

  /** The walk of setLength that keeps the first `keep` bytes of block j,
      at least one, when blocks follow it, ends. */
  lemma {:induction false} TrimEnds(st: St, b: int, blocks: seq<int>, j: int, keep: int, fuel: nat) returns (r: St)
    requires Valid(st) && st.cur.blockSize == b && Walkable(st.disk, b, blocks, j)
    requires fuel >= |blocks| - j && 0 < keep < PayloadLen(b, j) && j + 1 < |blocks|
    ensures EndsIn(st, blocks[j], keep, fuel, r)
  {
    var st1 := CutTurn(st, b, blocks, j, keep, fuel);
    r := FreeEnds(st1, b, blocks, j + 1, fuel - 1);
    FreesOn(st, blocks[j], keep, fuel, st1, blocks[j + 1], r);
  }

  /** Where that walk ends, block j is cut and the blocks after it are
      tombstoned. */
  lemma {:induction false} TrimState(st: St, b: int, blocks: seq<int>, j: int, keep: int, fuel: nat, r: St)
    requires Valid(st) && st.cur.blockSize == b && Walkable(st.disk, b, blocks, j)
    requires fuel >= |blocks| - j && st.cur.firstBlockPosition == blocks[0]
    requires 0 < keep < PayloadLen(b, j) && j + 1 < |blocks|
    requires EndsIn(st, blocks[j], keep, fuel, r)
    ensures Cut(st, r, b, blocks, j, keep)
  {
    var st1 := CutTurn(st, b, blocks, j, keep, fuel);
    FreesBack(st, blocks[j], keep, fuel, st1, blocks[j + 1], r);
    FreeState(st1, b, blocks, j + 1, fuel - 1, r);
    CutJoin(st, st1, r, b, blocks, j, keep);
  }

  /** The same walk when block j is the last: only its end-marker moves. */
  lemma {:induction false} TrimLast(st: St, b: int, blocks: seq<int>, j: int, keep: int, fuel: nat) returns (r: St)
    requires Valid(st) && st.cur.blockSize == b && Walkable(st.disk, b, blocks, j)
    requires st.cur.firstBlockPosition == blocks[0]
    requires 0 < keep < PayloadLen(b, j) && j + 1 == |blocks|
    ensures EndsIn(st, blocks[j], keep, fuel, r)
    ensures Cut(st, r, b, blocks, j, keep)
  {
    r := CutTurn(st, b, blocks, j, keep, fuel);
    CutJoin(st, r, r, b, blocks, j, keep);
  }

  /** The walk of setLength from the block that holds the new end, whose
      first `bufferPosition` bytes are kept. */
  lemma TruncateWalk(st: St, b: int, blocks: seq<int>, j: int, fuel: nat) returns (r: St)
    requires Valid(st) && st.cur.blockSize == b && Walkable(st.disk, b, blocks, j)
    requires fuel >= |blocks| - j && st.cur.firstBlockPosition == blocks[0]
    requires st.cur.bufferPosition < PayloadLen(b, j)
    ensures EndsIn(st, blocks[j], st.cur.bufferPosition, fuel, r)
    ensures Cut(st, r, b, blocks, j, st.cur.bufferPosition)
  {
    if st.cur.bufferPosition == 0 {
      r := FreeRun(st, b, blocks, j, fuel);
      RanCut(st, r, b, blocks, j);
    } else {
      if j + 1 < |blocks| {
        r := TrimEnds(st, b, blocks, j, st.cur.bufferPosition, fuel);
        TrimState(st, b, blocks, j, st.cur.bufferPosition, fuel, r);
      } else {
        r := TrimLast(st, b, blocks, j, st.cur.bufferPosition, fuel);
      }
    }
  }

  /** Cut only looks at the disk, the free-slot cursor and the head of the
      state before, and at the disk and cursor of the state after. */
  lemma CutFrom(st: St, st': St, r: St, r': St, b: int, blocks: seq<int>, j: int, keep: int)
    requires 0 <= j < |blocks| && Cut(st, r, b, blocks, j, keep)
    requires st'.disk == st.disk && st'.cur.emptyBlockPosition == st.cur.emptyBlockPosition
    requires st'.cur.firstBlockPosition == st.cur.firstBlockPosition
    requires r'.disk == r.disk && r'.cur.blockSize == r.cur.blockSize
    requires r'.cur.emptyBlockPosition == r.cur.emptyBlockPosition
    requires r'.cur.firstBlockPosition == r.cur.firstBlockPosition
    ensures Cut(st', r', b, blocks, j, keep)
  {
  }

  /** A well-formed chain can be walked from any of its blocks. */
  lemma {:induction false} ChainWalkable(d: Disk, b: int, blocks: seq<int>, j: int)
    requires b > 16 && ChainOk(d, b, blocks) && 0 <= j < |blocks|
    ensures Walkable(d, b, blocks, j)
  {
    forall m | j <= m < |blocks|
      ensures WalkAt(d, b, blocks, m)
    {
      assert InUseAt(d, b, blocks, m) && LinkAt(d, blocks, m);
    }
  }

  /** setLength to a shorter length is the seek, then the walk from the
      block the seek stopped in, then the new size. */
  lemma ShrinkTo(st: St, n: int, st1: St, r: St)
    requires Valid(st) && 0 <= n < st.cur.size && Seek(st, n) == Ok(st1)
    requires EndsIn(st1, st1.cur.currentBlockPosition, st1.cur.bufferPosition,
                    SlotCount(st1.disk, st1.cur.blockSize) + 1, r)
    ensures SetLength(st, n) == Ok(St(r.disk, r.cur.(size := n)))
  {
  }

  lemma ShrinkClean(st: St, n: int, st1: St, r: St)
    requires Valid(st) && 0 <= n < st.cur.size && Seek(st, n) == Ok(st1) && !st1.cur.isWriteData
    requires EndsIn(st1, st1.cur.currentBlockPosition, st1.cur.bufferPosition,
                    SlotCount(st1.disk, st1.cur.blockSize) + 1, r)
    ensures SetLength(st, n).Ok? && !SetLength(st, n).value.cur.isWriteData
  {
    ShrinkTo(st, n, st1, r);
    EndsClean(st1, st1.cur.currentBlockPosition, st1.cur.bufferPosition,
              SlotCount(st1.disk, st1.cur.blockSize) + 1, r);
  }

  /** Where a seek to n lands before the walk starts: st1, in block j of a
      walkable chain with no more blocks than the container has slots, at
      payload index n - Offset(b, j), with the disk and the cursor's
      free-slot and head fields unchanged. */
  ghost predicate Landed(st: St, st1: St, b: int, blocks: seq<int>, j: int, n: int) {
    && Walkable(st.disk, b, blocks, j) && |blocks| <= SlotCount(st.disk, b)
    && Offset(b, j) <= n < Offset(b, j) + PayloadLen(b, j)
    && Valid(st1) && st1.disk == st.disk && st1.cur.blockSize == b
    && st1.cur.emptyBlockPosition == st.cur.emptyBlockPosition
    && st1.cur.firstBlockPosition == st.cur.firstBlockPosition == blocks[0]
    && st1.cur.currentBlockPosition == blocks[j]
    && st1.cur.bufferPosition == n - Offset(b, j)
  }

  /** Neither tombstoning nor cutting leaves data to write back. */
  lemma {:induction false} DeleteClean(st: St, at: int, keep: int, fuel: nat)
    requires Valid(st) && !st.cur.isWriteData && DeleteBlock(st, at, keep, fuel).Ok?
    ensures !DeleteBlock(st, at, keep, fuel).value.cur.isWriteData
    decreases fuel
  {
    if keep != st.cur.blockSize {
      var st1 := if keep == 0 then FreeBlock(st, at).value
                 else St(Put(st.disk, at, LongToBytes(at + 16 + keep - 1)).value, st.cur);
      assert !st1.cur.isWriteData;
      var next := ReadLong(st1.disk, at + 8).value;
      if next != NONE {
        DeleteClean(st1, next, 0, fuel - 1);
      }
    }
  }

  lemma EndsClean(st: St, at: int, keep: int, fuel: nat, r: St)
    requires Valid(st) && !st.cur.isWriteData && EndsIn(st, at, keep, fuel, r)
    ensures !r.cur.isWriteData
  {
    DeleteClean(st, at, keep, fuel);
  }

  /** A seek inside a stored stream lands in its chain. */
  lemma {:induction false} SeekLands(st: St, d: Disk, b: int, blocks: seq<int>, content: seq<byte>, i: int, n: int)
      returns (j: int, st1: St)
    requires DiskOk(d, b) && Stored(d, b, blocks, content) && Reads(st, d, b, blocks, content, i)
    requires 0 <= n < |content|
    ensures Seek(st, n) == Ok(st1) && Landed(st, st1, b, blocks, j, n)
    ensures !st1.cur.isWriteData
  {
    j := SeekReads(st, d, b, blocks, content, i, n);
    st1 := Seek(st, n).value;
    ChainFits(d, b, blocks);
    ChainWalkable(d, b, blocks, j);
  }

  /** The walk of a shrink once the seek has landed in block j, and the
      state it leaves once the new size is set. */
  lemma WalkLanded(st: St, st1: St, b: int, blocks: seq<int>, j: int, n: int) returns (r1: St)
    requires Landed(st, st1, b, blocks, j, n)
    ensures EndsIn(st1, st1.cur.currentBlockPosition, st1.cur.bufferPosition,
                   SlotCount(st1.disk, st1.cur.blockSize) + 1, r1)
    ensures Cut(st, St(r1.disk, r1.cur.(size := n)), b, blocks, j, n - Offset(b, j))
  {
    r1 := TruncateWalk(st1, b, blocks, j, SlotCount(st1.disk, b) + 1);
    CutFrom(st1, st, r1, St(r1.disk, r1.cur.(size := n)), b, blocks, j, n - Offset(b, j));
  }

  /** Truncating a stored stream to n bytes, from any reading position:
      the stream's length becomes n; block j, the block that holds byte n,
      is cut there, and the walk tombstones the blocks after it (block j too
      when n is where it starts), rewinds the free-slot cursor to the lowest
      freed slot and writes nothing but end-markers; the stream loses its
      head exactly when n is 0. */
  lemma {:induction false} TruncateStored(st: St, d: Disk, b: int, blocks: seq<int>, content: seq<byte>, i: int, n: int)
      returns (j: int, r: St)
    requires DiskOk(d, b) && Stored(d, b, blocks, content) && Reads(st, d, b, blocks, content, i)
    requires 0 <= n < |content|
    ensures SetLength(st, n) == Ok(r) && r.cur.size == n
    ensures 0 <= j < |blocks| && Offset(b, j) <= n < Offset(b, j) + PayloadLen(b, j)
    ensures Cut(st, r, b, blocks, j, n - Offset(b, j))
    ensures r.cur.firstBlockPosition == NONE <==> n == 0
  {
    var st1;
    j, st1 := SeekLands(st, d, b, blocks, content, i, n);
    var r1 := WalkLanded(st, st1, b, blocks, j, n);
    ShrinkTo(st, n, st1, r1);
    r := St(r1.disk, r1.cur.(size := n));
    assert InUseAt(d, b, blocks, 0);
  }

  /** A truncation leaves no data to write back, so closing the stream
      afterwards writes nothing more. */
  lemma {:induction false} TruncateClean(st: St, d: Disk, b: int, blocks: seq<int>, content: seq<byte>, i: int, n: int)
    requires DiskOk(d, b) && Stored(d, b, blocks, content) && Reads(st, d, b, blocks, content, i)
    requires 0 <= n < |content|
    ensures SetLength(st, n).Ok? && !SetLength(st, n).value.cur.isWriteData
  {
    var j, st1 := SeekLands(st, d, b, blocks, content, i, n);
    var r1 := WalkLanded(st, st1, b, blocks, j, n);
    ShrinkClean(st, n, st1, r1);
  }

  /** After a truncation the next block a write allocates is a freed slot
      or one below it: the free-slot scan starts no higher than the lowest
      tombstoned block, and starts (and stops) right on it when the cursor
      was not already below it. */
  lemma {:induction false} TruncateReuses(st: St, d: Disk, b: int, blocks: seq<int>, content: seq<byte>, i: int, n: int)
      returns (j: int, r: St)
    requires DiskOk(d, b) && Stored(d, b, blocks, content) && Reads(st, d, b, blocks, content, i)
    requires 0 <= n < |content|
    requires Aligned(b, st.cur.emptyBlockPosition) && st.cur.emptyBlockPosition <= |d|
    ensures SetLength(st, n) == Ok(r)
    ensures 0 <= j < |blocks| && Offset(b, j) <= n < Offset(b, j) + PayloadLen(b, j)
    ensures var f := if n == Offset(b, j) then j else j + 1;
            f < |blocks| ==>
              && FindFirstEmptyBlock(r.disk, b, r.cur.emptyBlockPosition).Ok?
              && FindFirstEmptyBlock(r.disk, b, r.cur.emptyBlockPosition).value <= MinFrom(blocks, f)
              && (MinFrom(blocks, f) <= st.cur.emptyBlockPosition ==>
                    FindFirstEmptyBlock(r.disk, b, r.cur.emptyBlockPosition) == Ok(MinFrom(blocks, f)))
  {
    j, r := TruncateStored(st, d, b, blocks, content, i, n);
    var f := if n == Offset(b, j) then j else j + 1;
    if f < |blocks| {
      var low := MinFrom(blocks, f);
      var m0 :| f <= m0 < |blocks| && low == blocks[m0];
      assert FreedAt(r.disk, blocks, m0);
      assert InUseAt(d, b, blocks, m0);
      assert Aligned(b, r.cur.emptyBlockPosition);
      FindOk(r.disk, b, r.cur.emptyBlockPosition);
      var at := FindFirstEmptyBlock(r.disk, b, r.cur.emptyBlockPosition).value;
      if at > low {
        assert false;
      }
    }
  }
}
