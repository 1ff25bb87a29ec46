/** The try-lock family of VirtualDirectory and VirtualFile and the
    recursive lock-down of a subtree. Every step that takes a lock either
    adds one hold or, when the lock is refused, gives back every hold of the
    list collected so far and raises Locked. */
module LockDown {
  import opened Wrappers
  import opened Tree

  // ---------------------------------------------------------------------------
  // Taking a list of holds

  /** Each hold of hs can be granted in turn, the earlier ones already held. */
  predicate Grantable(fs: FS, hs: seq<Hold>)
    decreases |hs|
  {
    |hs| == 0 || (CanTake(fs, hs[0]) && Grantable(Take(fs, hs[0]), hs[1..]))
  }

  /** Take the holds hs one after the other onto `held`, the locks list the
      caller has collected. A refused lock gives back the whole list
      (`locks.forEach(Lock::unlock)` in each catch block) and raises Locked.
      The outcome is all or nothing: either every hold is added, or the
      caller's list is given back and none of hs stays taken. */
  function Acquire(fs: FS, hs: seq<Hold>, held: seq<Hold>): (r: Out<seq<Hold>>)
    ensures r.res.Ok? <==> Grantable(fs, hs)
    ensures r.res.Ok? ==> r == Out(fs.(holds := fs.holds + multiset(hs)), Ok(held + hs))
    ensures r.res.Err? ==> r == Out(fs.(holds := fs.holds - multiset(held)), Err(Locked))
    decreases |hs|
  {
    if |hs| == 0 then
      NothingTaken(fs, hs, held);
      Out(fs, Ok(held))
    else match TryLock(fs, hs[0].lock, hs[0].mode)
      case Err(e) => Out(Release(fs, held), Err(e))
      case Ok(fs1) =>
        TakeOne(fs, hs, held);
        Acquire(fs1, hs[1..], held + [hs[0]])
  }

  /** An empty list of holds changes no count. */
  lemma NothingTaken(fs: FS, hs: seq<Hold>, held: seq<Hold>)
    requires |hs| == 0
    ensures fs.(holds := fs.holds + multiset(hs)) == fs && held + hs == held
    ensures Release(fs, hs) == fs
  {
    assert multiset(hs) == multiset{};
  }

  /** The multiset bookkeeping of one step of Acquire. */
  lemma TakeOne(fs: FS, hs: seq<Hold>, held: seq<Hold>)
    requires |hs| > 0
    ensures var fs1 := Take(fs, hs[0]);
      && held + [hs[0]] + hs[1..] == held + hs
      && fs1.(holds := fs1.holds + multiset(hs[1..])) == fs.(holds := fs.holds + multiset(hs))
      && fs1.(holds := fs1.holds - multiset(held + [hs[0]])) == fs.(holds := fs.holds - multiset(held))
  {
    assert hs == [hs[0]] + hs[1..];
    assert multiset(held + [hs[0]]) == multiset(held) + multiset{hs[0]};
  }

  /** Taking a + b is taking a, then b onto what a left. */
  lemma {:induction false} AcquireAppend(fs: FS, a: seq<Hold>, b: seq<Hold>, held: seq<Hold>)
    ensures Acquire(fs, a + b, held) ==
              var o := Acquire(fs, a, held);
              if o.res.Err? then o else Acquire(o.fs, b, o.res.value)
    decreases |a|
  {
    if |a| > 0 {
      assert (a + b)[1..] == a[1..] + b;
      assert (a + b)[0] == a[0];
      var t := TryLock(fs, a[0].lock, a[0].mode);
      if t.Ok? {
        AcquireAppend(t.value, a[1..], b, held + [a[0]]);
      }
    } else {
      assert a + b == b;
    }
  }

  // ---------------------------------------------------------------------------
  // When a list of holds can be granted

  predicate AllMode(hs: seq<Hold>, m: Mode) {
    forall i :: 0 <= i < |hs| ==> hs[i].mode == m
  }

  /** No lock of hs has a hold of any kind. */
  predicate AllFree(fs: FS, hs: seq<Hold>) {
    forall i :: 0 <= i < |hs| ==> Free(fs, hs[i].lock)
  }

  /** No lock of hs has a write hold. */
  predicate NoWriter(fs: FS, hs: seq<Hold>) {
    forall i :: 0 <= i < |hs| ==> Count(fs, hs[i].lock, Exclusive) == 0
  }

  /** No lock occurs twice in hs. */
  predicate LocksDistinct(hs: seq<Hold>) {
    forall i, j :: 0 <= i < j < |hs| ==> hs[i].lock != hs[j].lock
  }

  /** A list of write holds is granted exactly when none of its locks is
      held at all and none occurs twice (a second write hold on a lock is
      refused by the isWriteLockedByCurrentThread pre-check). */
  lemma {:induction false} GrantWrite(fs: FS, hs: seq<Hold>)
    requires AllMode(hs, Exclusive)
    ensures Grantable(fs, hs) <==> AllFree(fs, hs) && LocksDistinct(hs)
    decreases |hs|
  {
    if |hs| > 0 {
      var fs1 := Take(fs, hs[0]);
      var t := hs[1..];
      assert AllMode(t, Exclusive) by {
        forall i | 0 <= i < |t| ensures t[i].mode == Exclusive { assert t[i] == hs[i + 1]; }
      }
      GrantWrite(fs1, t);
      assert forall i :: 0 <= i < |t| ==> t[i] == hs[i + 1];
      assert forall i :: 0 <= i < |t| ==> (Free(fs1, t[i].lock) <==> Free(fs, t[i].lock) && t[i].lock != hs[0].lock);
      if AllFree(fs, hs) && LocksDistinct(hs) {
        assert Free(fs, hs[0].lock);
        assert AllFree(fs1, t);
        assert LocksDistinct(t);
      }
      if Grantable(fs, hs) {
        assert Free(fs, hs[0].lock);
        forall i | 0 <= i < |hs| ensures Free(fs, hs[i].lock) {
          if i > 0 { assert Free(fs1, t[i - 1].lock); }
        }
        forall i, j | 0 <= i < j < |hs| ensures hs[i].lock != hs[j].lock {
          if i == 0 { assert Free(fs1, t[j - 1].lock); }
          else { assert t[i - 1].lock != t[j - 1].lock; }
        }
      }
    }
  }

  /** A list of read holds is granted exactly when none of its locks has a
      write hold: read holds never refuse one another. */
  lemma {:induction false} GrantRead(fs: FS, hs: seq<Hold>)
    requires AllMode(hs, Shared)
    ensures Grantable(fs, hs) <==> NoWriter(fs, hs)
    decreases |hs|
  {
    if |hs| > 0 {
      var fs1 := Take(fs, hs[0]);
      var t := hs[1..];
      assert forall i :: 0 <= i < |t| ==> t[i] == hs[i + 1];
      assert forall r :: Count(fs1, r, Exclusive) == Count(fs, r, Exclusive);
      GrantRead(fs1, t);
      if NoWriter(fs, hs) {
        assert NoWriter(fs1, t);
      }
      if Grantable(fs, hs) {
        forall i | 0 <= i < |hs| ensures Count(fs, hs[i].lock, Exclusive) == 0 {
          if i > 0 { assert Count(fs1, t[i - 1].lock, Exclusive) == 0; }
        }
      }
    }
  }

  // ---------------------------------------------------------------------------
  // The directory and file try-locks

  /** tryLockNameRead: a read tryLock, which this thread always gets (it
      holds no write lock, or holds the write lock and may read under it). */
  function TryNameRead(fs: FS, dir: NodeId): (res: Result<FS>)
    ensures res == Ok(Take(fs, Hold(NameLock(dir), Shared)))
  {
    Ok(Take(fs, Hold(NameLock(dir), Shared)))
  }

  /** The holds tryWriteLock (Exclusive) or tryReadLock (Shared) takes on a
      directory, in its order: name, file list, directory list. */
  function DirHolds(dir: NodeId, m: Mode): (r: seq<Hold>)
    ensures |r| == 3 && AllMode(r, m)
  {
    [Hold(NameLock(dir), m), Hold(FilesLock(dir), m), Hold(DirsLock(dir), m)]
  }

  /** tryWriteLock / tryReadLock of a directory: refuse a name lock this
      thread already writes, then take the name, file-list and
      directory-list locks, giving back the ones taken when one is refused. */
  function TryDirLock(fs: FS, dir: NodeId, m: Mode): (r: Out<seq<Hold>>)
  {
    if Count(fs, NameLock(dir), Exclusive) > 0 then Out(fs, Err(Locked))
    else
      var name := Hold(NameLock(dir), m);
      var n := if m == Exclusive then TryNameWrite(fs, dir) else TryNameRead(fs, dir);
      match n
      case Err(e) => Out(fs, Err(e))
      case Ok(fs1) =>
        match TryLock(fs1, FilesLock(dir), m)
        case Err(e) => Out(Release(fs1, [name]), Err(e))
        case Ok(fs2) =>
          match TryLock(fs2, DirsLock(dir), m)
          case Err(e) => Out(Release(fs2, [name, Hold(FilesLock(dir), m)]), Err(e))
          case Ok(fs3) => Out(fs3, Ok(DirHolds(dir, m)))
  }

  /** The directory try-lock behaves as taking its three holds in a row,
      all or nothing: the unchecked name lock of tryLockNameWrite is guarded
      by the pre-check in front of it. */
  lemma DirLockAcquire(fs: FS, dir: NodeId, m: Mode)
    ensures TryDirLock(fs, dir, m) == Acquire(fs, DirHolds(dir, m), [])
  {
    var hs := DirHolds(dir, m);
    AcquireStep(fs, hs, []);
    if !CanTake(fs, hs[0]) {
      assert TryDirLock(fs, dir, m) == Out(fs, Err(Locked));
      NothingTaken(fs, hs[..0], []);
    } else {
      assert [] + [hs[0]] == [hs[0]];
      DirLockNamed(fs, dir, m);
    }
  }

  /** The directory try-lock once its name lock could be taken. */
  lemma DirLockNamed(fs: FS, dir: NodeId, m: Mode)
    requires CanTake(fs, Hold(NameLock(dir), m))
    ensures TryDirLock(fs, dir, m) == Acquire(Take(fs, Hold(NameLock(dir), m)), DirHolds(dir, m)[1..], [Hold(NameLock(dir), m)])
  {
    var hs := DirHolds(dir, m);
    var h0, h1, h2 := hs[0], hs[1], hs[2];
    var t1, t2 := [h1, h2], [h2];
    assert hs[1..] == t1 && t1[1..] == t2;
    assert [h0] + [h1] == [h0, h1];
    var n := if m == Exclusive then TryNameWrite(fs, dir) else TryNameRead(fs, dir);
    var fs1 := Take(fs, h0);
    assert n == Ok(fs1);
    AcquireStep(fs1, t1, [h0]);
    if !CanTake(fs1, h1) {
      assert TryDirLock(fs, dir, m) == Out(Release(fs1, [h0]), Err(Locked));
    } else {
      var fs2 := Take(fs1, h1);
      AcquireStep(fs2, t2, [h0, h1]);
      if !CanTake(fs2, h2) {
        assert TryDirLock(fs, dir, m) == Out(Release(fs2, [h0, h1]), Err(Locked));
      } else {
        assert TryDirLock(fs, dir, m) == Out(Take(fs2, h2), Ok(hs));
        assert [h0, h1] + [h2] == hs;
        NothingTaken(Take(fs2, h2), t2[1..], hs);
      }
    }
  }

  /** One step of Acquire. */
  lemma AcquireStep(fs: FS, hs: seq<Hold>, held: seq<Hold>)
    requires |hs| > 0
    ensures CanTake(fs, hs[0]) ==> Acquire(fs, hs, held) == Acquire(Take(fs, hs[0]), hs[1..], held + [hs[0]])
    ensures !CanTake(fs, hs[0]) ==> Acquire(fs, hs, held) == Out(Release(fs, held), Err(Locked))
  {
  }

  /** The file content locks of a file list, in list order. */
  function FileHolds(files: seq<NodeId>, m: Mode): (r: seq<Hold>)
    ensures |r| == |files| && AllMode(r, m)
    ensures forall i :: 0 <= i < |files| ==> r[i].lock == ContentLock(files[i])
  {
    seq(|files|, i requires 0 <= i < |files| => Hold(ContentLock(files[i]), m))
  }

  // ---------------------------------------------------------------------------
  // Lock-down

  /** tryWriteLockDown(locks) (m = Exclusive) / tryReadLockDown(locks)
      (m = Shared): lock the directory itself onto the list `held`, giving
      the list back if that is refused, then lock the rest of its subtree.
      A list entry that is not a directory in the arena is the
      NullPointer the source would raise on a null element; `fuel` bounds
      the depth. */
  function LockDown(fs: FS, dir: NodeId, m: Mode, held: seq<Hold>, fuel: nat): (r: Out<seq<Hold>>)
    ensures r.fs == fs.(holds := r.fs.holds)
    decreases fuel, 0
  {
    if fuel == 0 then Out(fs, Err(IOError))
    else if !IsDir(fs, dir) then Out(fs, Err(NullPointer))
    else
      var o := TryDirLock(fs, dir, m);
      DirLockAcquire(fs, dir, m);
      if o.res.Err? then Out(Release(o.fs, held), o.res)
      else LockBelow(o.fs, dir, m, held + o.res.value, fuel - 1)
  }

  /** The two loops of the lock-down: each subdirectory's subtree in list
      order, then each file's content lock. */
  function LockBelow(fs: FS, dir: NodeId, m: Mode, held: seq<Hold>, fuel: nat): (r: Out<seq<Hold>>)
    requires IsDir(fs, dir)
    ensures r.fs == fs.(holds := r.fs.holds)
    decreases fuel, 2
  {
    var o := LockDownList(fs, Dirs(fs, dir), m, held, fuel);
    if o.res.Err? then o
    else Acquire(o.fs, FileHolds(Files(fs, dir), m), o.res.value)
  }

  /** The subdirectory loop of the lock-down. */
  function LockDownList(fs: FS, ds: seq<NodeId>, m: Mode, held: seq<Hold>, fuel: nat): (r: Out<seq<Hold>>)
    ensures r.fs == fs.(holds := r.fs.holds)
    decreases fuel, 1, |ds|
  {
    if |ds| == 0 then Out(fs, Ok(held))
    else
      var o := LockDown(fs, ds[0], m, held, fuel);
      if o.res.Err? then o
      else LockDownList(o.fs, ds[1..], m, o.res.value, fuel)
  }

  /** The holds a lock-down of dir takes, in order, when every list entry
      of the subtree is a directory within `fuel` levels: the directory's
      own three, then each subdirectory's, then its files' content locks. */
  function DownLocks(fs: FS, dir: NodeId, m: Mode, fuel: nat): Option<seq<Hold>>
    decreases fuel, 0
  {
    if fuel == 0 || !IsDir(fs, dir) then None
    else match DownLocksList(fs, Dirs(fs, dir), m, fuel - 1)
      case None => None
      case Some(sub) => Some(DirHolds(dir, m) + (sub + FileHolds(Files(fs, dir), m)))
  }

  function DownLocksList(fs: FS, ds: seq<NodeId>, m: Mode, fuel: nat): Option<seq<Hold>>
    decreases fuel, |ds|
  {
    if |ds| == 0 then Some([])
    else match DownLocks(fs, ds[0], m, fuel)
      case None => None
      case Some(a) =>
        match DownLocksList(fs, ds[1..], m, fuel)
        case None => None
        case Some(b) => Some(a + b)
  }

  /** The lock-down takes exactly the holds DownLocks lists, in that order,
      all or nothing: it succeeds iff they are grantable, adding them all;
      otherwise it raises Locked and gives back the caller's list, so no
      hold of the subtree stays taken. */
  lemma {:induction false} LockDownAcquire(fs: FS, dir: NodeId, m: Mode, held: seq<Hold>, fuel: nat)
    requires DownLocks(fs, dir, m, fuel).Some?
    ensures LockDown(fs, dir, m, held, fuel) == Acquire(fs, DownLocks(fs, dir, m, fuel).value, held)
    decreases fuel, 0, 1
  {
    var own := DirHolds(dir, m);
    var sub := DownLocksList(fs, Dirs(fs, dir), m, fuel - 1).value;
    var rest := sub + FileHolds(Files(fs, dir), m);
    assert DownLocks(fs, dir, m, fuel).value == own + rest;
    var o := TryDirLock(fs, dir, m);
    DirLockAcquire(fs, dir, m);
    AcquireAppend(fs, own, rest, held);
    if o.res.Ok? {
      assert o.res.value == own by { assert [] + own == own; }
      OwnTaken(fs, o.fs, dir, m, held, fuel, sub, own);
    } else {
      NothingTaken(fs, own[..0], held);
    }
  }

  /** The rest of the lock-down, once the directory's own holds `own` are taken. */
  lemma {:induction false} OwnTaken(fs: FS, fs1: FS, dir: NodeId, m: Mode, held: seq<Hold>, fuel: nat,
                                    sub: seq<Hold>, own: seq<Hold>)
    requires fuel > 0 && IsDir(fs, dir) && Grantable(fs, own)
    requires fs1 == fs.(holds := fs.holds + multiset(own))
    requires DownLocksList(fs, Dirs(fs, dir), m, fuel - 1) == Some(sub)
    ensures LockBelow(fs1, dir, m, held + own, fuel - 1) == Acquire(fs, own + (sub + FileHolds(Files(fs, dir), m)), held)
    decreases fuel, 0, 0
  {
    assert fs1.nodes == fs.nodes;
    DownLocksNodes(fs, fs1, Dirs(fs, dir), m, fuel - 1);
    LockBelowAcquire(fs1, dir, m, held + own, fuel - 1, sub);
    AcquireAppend(fs, own, sub + FileHolds(Files(fs, dir), m), held);
  }

  lemma {:induction false} LockBelowAcquire(fs: FS, dir: NodeId, m: Mode, held: seq<Hold>, fuel: nat, sub: seq<Hold>)
    requires IsDir(fs, dir) && DownLocksList(fs, Dirs(fs, dir), m, fuel) == Some(sub)
    ensures LockBelow(fs, dir, m, held, fuel) == Acquire(fs, sub + FileHolds(Files(fs, dir), m), held)
    decreases fuel, 2
  {
    AcquireAppend(fs, sub, FileHolds(Files(fs, dir), m), held);
    LockDownListAcquire(fs, Dirs(fs, dir), m, held, fuel);
  }

  lemma {:induction false} LockDownListAcquire(fs: FS, ds: seq<NodeId>, m: Mode, held: seq<Hold>, fuel: nat)
    requires DownLocksList(fs, ds, m, fuel).Some?
    ensures LockDownList(fs, ds, m, held, fuel) == Acquire(fs, DownLocksList(fs, ds, m, fuel).value, held)
    decreases fuel, 1, |ds|
  {
    if |ds| > 0 {
      var a := DownLocks(fs, ds[0], m, fuel).value;
      var b := DownLocksList(fs, ds[1..], m, fuel).value;
      LockDownAcquire(fs, ds[0], m, held, fuel);
      AcquireAppend(fs, a, b, held);
      var o := Acquire(fs, a, held);
      if o.res.Ok? {
        DownLocksNodes(o.fs, fs, ds[1..], m, fuel);
        LockDownListAcquire(o.fs, ds[1..], m, o.res.value, fuel);
      }
    } else {
      NothingTaken(fs, held[..0], held);
    }
  }

  /** The holds listed depend only on the nodes, not on the lock state. */
  lemma {:induction false} DownLocksNodes(fs: FS, fs': FS, ds: seq<NodeId>, m: Mode, fuel: nat)
    requires fs'.nodes == fs.nodes
    ensures DownLocksList(fs', ds, m, fuel) == DownLocksList(fs, ds, m, fuel)
    decreases fuel, |ds|
  {
    if |ds| > 0 {
      if fuel > 0 && IsDir(fs, ds[0]) {
        DownLocksNodes(fs, fs', fs.nodes[ds[0]].kind.dirs, m, fuel - 1);
      }
      DownLocksNodes(fs, fs', ds[1..], m, fuel);
    }
  }
  // ---------------------------------------------------------------------------
  // What the lock-down promises

  /** A lock-down that succeeds met only directories within `fuel`
      levels: its holds are the ones DownLocks lists. */
  lemma {:induction false} LockDownSome(fs: FS, dir: NodeId, m: Mode, held: seq<Hold>, fuel: nat)
    requires LockDown(fs, dir, m, held, fuel).res.Ok?
    ensures DownLocks(fs, dir, m, fuel).Some?
    decreases fuel, 0
  {
    var o := TryDirLock(fs, dir, m);
    LockBelowSome(o.fs, dir, m, held + o.res.value, fuel - 1);
    DownLocksNodes(fs, o.fs, Dirs(fs, dir), m, fuel - 1);
  }

  lemma {:induction false} LockBelowSome(fs: FS, dir: NodeId, m: Mode, held: seq<Hold>, fuel: nat)
    requires IsDir(fs, dir) && LockBelow(fs, dir, m, held, fuel).res.Ok?
    ensures DownLocksList(fs, Dirs(fs, dir), m, fuel).Some?
    decreases fuel, 2
  {
    LockDownListSome(fs, Dirs(fs, dir), m, held, fuel);
  }

  lemma {:induction false} LockDownListSome(fs: FS, ds: seq<NodeId>, m: Mode, held: seq<Hold>, fuel: nat)
    requires LockDownList(fs, ds, m, held, fuel).res.Ok?
    ensures DownLocksList(fs, ds, m, fuel).Some?
    decreases fuel, 1, |ds|
  {
    if |ds| > 0 {
      var o := LockDown(fs, ds[0], m, held, fuel);
      LockDownSome(fs, ds[0], m, held, fuel);
      LockDownListSome(o.fs, ds[1..], m, o.res.value, fuel);
      DownLocksNodes(fs, o.fs, ds[1..], m, fuel);
    }
  }

  /** Every hold a lock-down lists is of the lock-down's mode. */
  lemma {:induction false} DownLocksMode(fs: FS, dir: NodeId, m: Mode, fuel: nat)
    requires DownLocks(fs, dir, m, fuel).Some?
    ensures AllMode(DownLocks(fs, dir, m, fuel).value, m)
    decreases fuel, 0
  {
    var sub := DownLocksList(fs, Dirs(fs, dir), m, fuel - 1).value;
    DownLocksListMode(fs, Dirs(fs, dir), m, fuel - 1);
    ModeAppend(sub, FileHolds(Files(fs, dir), m), m);
    ModeAppend(DirHolds(dir, m), sub + FileHolds(Files(fs, dir), m), m);
  }

  lemma {:induction false} DownLocksListMode(fs: FS, ds: seq<NodeId>, m: Mode, fuel: nat)
    requires DownLocksList(fs, ds, m, fuel).Some?
    ensures AllMode(DownLocksList(fs, ds, m, fuel).value, m)
    decreases fuel, |ds|
  {
    if |ds| > 0 {
      DownLocksMode(fs, ds[0], m, fuel);
      DownLocksListMode(fs, ds[1..], m, fuel);
      ModeAppend(DownLocks(fs, ds[0], m, fuel).value, DownLocksList(fs, ds[1..], m, fuel).value, m);
    }
  }

  lemma ModeAppend(a: seq<Hold>, b: seq<Hold>, m: Mode)
    requires AllMode(a, m) && AllMode(b, m)
    ensures AllMode(a + b, m)
  {
    forall i | 0 <= i < |a + b| ensures (a + b)[i].mode == m {
      if i >= |a| { assert (a + b)[i] == b[i - |a|]; }
    }
  }

  /** The lock-down is all or nothing. It succeeds exactly when its holds
      can be granted: for a write lock-down when no lock of the subtree has
      a hold and none is listed twice, for a read lock-down when none has a
      write hold. Success adds every hold of the subtree to the caller's
      list; a refusal gives the caller's list back and keeps none. */
  lemma LockDownGrant(fs: FS, dir: NodeId, m: Mode, held: seq<Hold>, fuel: nat)
    requires DownLocks(fs, dir, m, fuel).Some?
    ensures var r := LockDown(fs, dir, m, held, fuel);
      var hs := DownLocks(fs, dir, m, fuel).value;
      && (m == Exclusive ==> (r.res.Ok? <==> AllFree(fs, hs) && LocksDistinct(hs)))
      && (m == Shared ==> (r.res.Ok? <==> NoWriter(fs, hs)))
      && (r.res.Ok? ==> r == Out(fs.(holds := fs.holds + multiset(hs)), Ok(held + hs)))
      && (r.res.Err? ==> r == Out(fs.(holds := fs.holds - multiset(held)), Err(Locked)))
  {
    var hs := DownLocks(fs, dir, m, fuel).value;
    LockDownAcquire(fs, dir, m, held, fuel);
    DownLocksMode(fs, dir, m, fuel);
    if m == Exclusive {
      GrantWrite(fs, hs);
    } else {
      GrantRead(fs, hs);
    }
  }

  /** One listed lock that has a write hold, or for a write lock-down any
      hold, makes the whole lock-down fail with nothing taken. */
  lemma LockDownBlocked(fs: FS, dir: NodeId, m: Mode, held: seq<Hold>, fuel: nat, i: int)
    requires DownLocks(fs, dir, m, fuel).Some? && 0 <= i < |DownLocks(fs, dir, m, fuel).value|
    requires var l := DownLocks(fs, dir, m, fuel).value[i].lock;
      Count(fs, l, Exclusive) > 0 || (m == Exclusive && Count(fs, l, Shared) > 0)
    ensures LockDown(fs, dir, m, held, fuel) == Out(fs.(holds := fs.holds - multiset(held)), Err(Locked))
  {
    var hs := DownLocks(fs, dir, m, fuel).value;
    LockDownGrant(fs, dir, m, held, fuel);
    DownLocksMode(fs, dir, m, fuel);
    assert !Free(fs, hs[i].lock);
  }

  /** A file a directory lists is locked by the directory's lock-down. */
  lemma FileLockListed(fs: FS, dir: NodeId, m: Mode, fuel: nat, f: NodeId) returns (i: int)
    requires IsDir(fs, dir) && DownLocks(fs, dir, m, fuel).Some? && f in Files(fs, dir)
    ensures 0 <= i < |DownLocks(fs, dir, m, fuel).value|
    ensures DownLocks(fs, dir, m, fuel).value[i] == Hold(ContentLock(f), m)
  {
    var sub := DownLocksList(fs, Dirs(fs, dir), m, fuel - 1).value;
    var fh := FileHolds(Files(fs, dir), m);
    var j :| 0 <= j < |Files(fs, dir)| && Files(fs, dir)[j] == f;
    i := 3 + |sub| + j;
    assert DownLocks(fs, dir, m, fuel).value == DirHolds(dir, m) + (sub + fh);
    assert (DirHolds(dir, m) + (sub + fh))[i] == fh[j];
  }

  /** An open handle on a file of the directory blocks its lock-down: an
      "rw" handle blocks both kinds, an "r" handle the write lock-down
      (remove and move take that one, copy the read one). */
  lemma OpenFileBlocks(fs: FS, dir: NodeId, f: NodeId, m: Mode, held: seq<Hold>, fuel: nat)
    requires IsDir(fs, dir) && DownLocks(fs, dir, m, fuel).Some? && f in Files(fs, dir)
    requires Count(fs, ContentLock(f), Exclusive) > 0 || (m == Exclusive && Count(fs, ContentLock(f), Shared) > 0)
    ensures LockDown(fs, dir, m, held, fuel) == Out(fs.(holds := fs.holds - multiset(held)), Err(Locked))
  {
    var i := FileLockListed(fs, dir, m, fuel, f);
    LockDownBlocked(fs, dir, m, held, fuel, i);
  }

  /** x lies in the subtree of d, at most `depth` directory levels down. */
  predicate Below(fs: FS, d: NodeId, x: NodeId, depth: nat)
    decreases depth
  {
    x == d || (depth > 0 && IsDir(fs, d) && exists c | c in Dirs(fs, d) :: Below(fs, c, x, depth - 1))
  }

  /** The holds of a listed subdirectory's lock-down are among the list's. */
  lemma {:induction false} ListedIn(fs: FS, ds: seq<NodeId>, c: NodeId, m: Mode, fuel: nat)
    requires DownLocksList(fs, ds, m, fuel).Some? && c in ds
    ensures DownLocks(fs, c, m, fuel).Some?
    ensures forall h | h in DownLocks(fs, c, m, fuel).value :: h in DownLocksList(fs, ds, m, fuel).value
    decreases |ds|
  {
    if ds[0] != c {
      assert c in ds[1..];
      ListedIn(fs, ds[1..], c, m, fuel);
    }
  }

  /** The lock-down of d takes the directory-list lock of every directory
      of its subtree, d's own included. */
  lemma {:induction false} DirsLockListed(fs: FS, d: NodeId, x: NodeId, m: Mode, depth: nat, fuel: nat)
    requires DownLocks(fs, d, m, fuel).Some? && Below(fs, d, x, depth)
    ensures Hold(DirsLock(x), m) in DownLocks(fs, d, m, fuel).value
    decreases depth
  {
    var sub := DownLocksList(fs, Dirs(fs, d), m, fuel - 1).value;
    var dl := DownLocks(fs, d, m, fuel).value;
    assert dl == DirHolds(d, m) + (sub + FileHolds(Files(fs, d), m));
    if x == d {
      assert dl[2] == Hold(DirsLock(d), m);
    } else {
      var c :| c in Dirs(fs, d) && Below(fs, c, x, depth - 1);
      ListedIn(fs, Dirs(fs, d), c, m, fuel - 1);
      DirsLockListed(fs, c, x, m, depth - 1, fuel - 1);
    }
  }

  /** A content lock held on a file of d refuses d's write lock-down
      followed by any further holds. */
  lemma OpenFileRefusesAll(fs: FS, d: NodeId, f: NodeId, extra: seq<Hold>, fuel: nat)
    requires IsDir(fs, d) && DownLocks(fs, d, Exclusive, fuel).Some? && f in Files(fs, d)
    requires Count(fs, ContentLock(f), Exclusive) > 0 || Count(fs, ContentLock(f), Shared) > 0
    ensures !Grantable(fs, DownLocks(fs, d, Exclusive, fuel).value + extra)
  {
    OpenFileBlocks(fs, d, f, Exclusive, [], fuel);
    LockDownAcquire(fs, d, Exclusive, [], fuel);
    AcquireAppend(fs, DownLocks(fs, d, Exclusive, fuel).value, extra, []);
  }
}
