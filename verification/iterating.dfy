/** VirtualFileIterator and VirtualDirectory.find: a lazy search for the
    files of a directory that pass a test and, when the search is
    recursive, for those of its subdirectories, one subdirectory iterator
    at a time. getFiles and getDirectories hand the iterator the
    directory's own lists, not copies, so the iterator is run against the
    tree as it is at each call. The test is a parameter of every call;
    find(String) passes "the name contains the string". */
module Iterating {
  import opened Wrappers
  import opened Tree

  /** The iterator's fields: the directory searched, isRecursive,
      fileIdx, directoryIdx and directoryIterator (None while null). */
  datatype Iter = Iter(dir: NodeId, recursive: bool, fileIdx: nat, dirIdx: nat, inner: Option<Iter>)

  /** What hasNext answers, with the iterator as it leaves it. */
  datatype Probe = Probe(more: bool, it: Iter)

  /** What next returns, with the iterator as it leaves it. */
  datatype Yield = Yield(file: NodeId, it: Iter)

  /** String.contains. */
  predicate Contains(name: string, sub: string) {
    exists i | 0 <= i <= |name| :: sub <= name[i..]
  }

  /** The test find(subName) passes to the iterator. */
  function NameTest(sub: string): string -> bool {
    name => Contains(name, sub)
  }

  // ---------------------------------------------------------------------------
  // What a search finds

  /** The entries of s from index k on whose names pass q, in list order. */
  function Matching(fs: FS, q: string -> bool, s: seq<NodeId>, k: nat): seq<NodeId>
    decreases |s| - k
  {
    if k >= |s| then []
    else (if q(NameOf(fs, s[k])) then [s[k]] else []) + Matching(fs, q, s, k + 1)
  }

  /** What a search of d finds: its files that pass q, in list order, and
      then, when the search is recursive, what the search of each of its
      subdirectories finds, left to right. fuel bounds the depth. */
  function Found(fs: FS, q: string -> bool, d: NodeId, recursive: bool, fuel: nat): seq<NodeId>
    decreases fuel, 0
  {
    if fuel == 0 || !IsDir(fs, d) then []
    else Matching(fs, q, Files(fs, d), 0) + (if recursive then Subs(fs, q, Dirs(fs, d), 0, fuel - 1) else [])
  }

  /** What the recursive searches of ds[k..] find, one after the other. */
  function Subs(fs: FS, q: string -> bool, ds: seq<NodeId>, k: nat, fuel: nat): seq<NodeId>
    decreases fuel, 1, |ds| - k
  {
    if k >= |ds| then [] else Found(fs, q, ds[k], true, fuel) + Subs(fs, q, ds, k + 1, fuel)
  }

  /** f is among the files of d or, fuel permitting, of a directory below d. */
  predicate Listed(fs: FS, d: NodeId, f: NodeId, fuel: nat)
    decreases fuel
  {
    fuel > 0 && IsDir(fs, d)
    && (f in Files(fs, d) || exists i | 0 <= i < |Dirs(fs, d)| :: Listed(fs, Dirs(fs, d)[i], f, fuel - 1))
  }

  /** The entries Matching keeps are exactly those of s[k..] passing q. */
  lemma {:induction false} MatchingIn(fs: FS, q: string -> bool, s: seq<NodeId>, k: nat, f: NodeId)
    ensures f in Matching(fs, q, s, k) <==> exists j | k <= j < |s| :: s[j] == f && q(NameOf(fs, f))
    decreases |s| - k
  {
    if k < |s| {
      MatchingIn(fs, q, s, k + 1, f);
      if f == s[k] && q(NameOf(fs, f)) {
        assert f in Matching(fs, q, s, k);
      }
    }
  }

  /** A search that does not recurse finds exactly d's files passing q. */
  lemma FoundFlat(fs: FS, q: string -> bool, d: NodeId, fuel: nat, f: NodeId)
    ensures f in Found(fs, q, d, false, fuel) <==> fuel > 0 && IsDir(fs, d) && f in Files(fs, d) && q(NameOf(fs, f))
  {
    if fuel > 0 && IsDir(fs, d) {
      MatchingIn(fs, q, Files(fs, d), 0, f);
    }
  }

  /** A recursive search finds exactly the files passing q that are listed
      in d or in a directory below it, fuel permitting. */
  lemma {:induction false} FoundListed(fs: FS, q: string -> bool, d: NodeId, fuel: nat, f: NodeId)
    ensures f in Found(fs, q, d, true, fuel) <==> Listed(fs, d, f, fuel) && q(NameOf(fs, f))
    decreases fuel, 0
  {
    if fuel > 0 && IsDir(fs, d) {
      MatchingIn(fs, q, Files(fs, d), 0, f);
      SubsListed(fs, q, Dirs(fs, d), 0, fuel - 1, f);
    }
  }

  /** The subdirectory searches find what some one of them finds. */
  lemma {:induction false} SubsListed(fs: FS, q: string -> bool, ds: seq<NodeId>, k: nat, fuel: nat, f: NodeId)
    ensures f in Subs(fs, q, ds, k, fuel) <==> exists i | k <= i < |ds| :: Listed(fs, ds[i], f, fuel) && q(NameOf(fs, f))
    decreases fuel, 1, |ds| - k
  {
    if k < |ds| {
      FoundListed(fs, q, ds[k], fuel, f);
      SubsListed(fs, q, ds, k + 1, fuel, f);
    }
  }

  // ---------------------------------------------------------------------------
  // The iterator

  /** getFiles, then getDirectories: each takes the list's read lock and
      gives it back, so both are readable unless written. */
  predicate ListsReadable(fs: FS, d: NodeId) {
    CanTake(fs, Hold(FilesLock(d), Shared)) && CanTake(fs, Hold(DirsLock(d), Shared))
  }

  /** find(match, isRecursive) on d: the constructor reads both lists, a
      refused read lock raising ConcurrentModificationException; no hold
      stays taken. An id that is not a directory stands for a null. */
  function Find(fs: FS, d: NodeId, recursive: bool): (r: Result<Iter>)
    ensures r.Ok? <==> IsDir(fs, d) && ListsReadable(fs, d)
    ensures r.Ok? ==> r.value == Iter(d, recursive, 0, 0, None)
    ensures IsDir(fs, d) && !ListsReadable(fs, d) ==> r == Err(ConcurrentModification)
  {
    if !IsDir(fs, d) then Err(NullPointer)
    else match TryLock(fs, FilesLock(d), Shared)
      case Err(_) => Err(ConcurrentModification)
      case Ok(_) =>
        match TryLock(fs, DirsLock(d), Shared)
        case Err(_) => Err(ConcurrentModification)
        case Ok(_) => Ok(Iter(d, recursive, 0, 0, None))
  }

  /** The file loop of hasNext from fileIdx k: the first index from k on
      whose file passes q, |s| when there is none, and k itself once k is
      past the list. Only failing files are skipped. */
  function FirstMatch(fs: FS, q: string -> bool, s: seq<NodeId>, k: nat): (r: nat)
    ensures k <= r && (k < |s| ==> r <= |s|) && (k >= |s| ==> r == k)
    ensures r < |s| ==> q(NameOf(fs, s[r]))
    ensures Matching(fs, q, s, r) == Matching(fs, q, s, k)
    decreases |s| - k
  {
    if k >= |s| || q(NameOf(fs, s[k])) then k else FirstMatch(fs, q, s, k + 1)
  }

  /** hasNext: ConcurrentModificationException while the directory's
      isModifying flag is set; a file passing q from fileIdx on; for a
      non-recursive search nothing more; then the current subdirectory
      iterator, and once that is done (directoryIdx moving past it) the
      subdirectories still ahead. Running out of fuel stands for the
      depth the recursion cannot go to. */
  function HasNext(fs: FS, q: string -> bool, it: Iter, fuel: nat): (r: Result<Probe>)
    ensures r.Ok? ==> fuel > 0 && IsDir(fs, it.dir) && r.value.it.dir == it.dir && r.value.it.recursive == it.recursive
    ensures fuel > 0 && IsDir(fs, it.dir) && Modifying(fs, it.dir) ==> r == Err(ConcurrentModification)
    decreases fuel, 1
  {
    if fuel == 0 then Err(IOError)
    else if !IsDir(fs, it.dir) then Err(NullPointer)
    else if Modifying(fs, it.dir) then Err(ConcurrentModification)
    else
      var fi := FirstMatch(fs, q, Files(fs, it.dir), it.fileIdx);
      var a := it.(fileIdx := fi);
      if fi < |Files(fs, it.dir)| then Ok(Probe(true, a))
      else if !it.recursive then Ok(Probe(false, a))
      else if it.inner.Some? then
        match HasNext(fs, q, it.inner.value, fuel - 1)
        case Err(e) => Err(e)
        case Ok(p) =>
          if p.more then Ok(Probe(true, a.(inner := Some(p.it))))
          else Scan(fs, q, a.(dirIdx := it.dirIdx + 1, inner := Some(p.it)), fuel)
      else Scan(fs, q, a, fuel)
  }

  /** The directory loop of hasNext: from directoryIdx on, each
      subdirectory's iterator is created by find and asked hasNext; the
      first that has more stays the current one, and each that has none
      moves directoryIdx on. */
  function Scan(fs: FS, q: string -> bool, b: Iter, fuel: nat): (r: Result<Probe>)
    requires IsDir(fs, b.dir) && fuel > 0
    ensures r.Ok? ==> r.value.it.dir == b.dir && r.value.it.recursive == b.recursive && r.value.it.fileIdx == b.fileIdx
    decreases fuel, 0, |Dirs(fs, b.dir)| - b.dirIdx
  {
    var ds := Dirs(fs, b.dir);
    if b.dirIdx >= |ds| then Ok(Probe(false, b))
    else match Find(fs, ds[b.dirIdx], b.recursive)
      case Err(e) => Err(e)
      case Ok(sub) =>
        match HasNext(fs, q, sub, fuel - 1)
        case Err(e) => Err(e)
        case Ok(p) =>
          if p.more then Ok(Probe(true, b.(inner := Some(p.it))))
          else Scan(fs, q, b.(dirIdx := b.dirIdx + 1, inner := Some(p.it)), fuel)
  }

  /** next: hasNext, NoSuchElementException when it answers no, then the
      file at fileIdx (moving fileIdx on) or the subdirectory iterator's
      next. */
  function Next(fs: FS, q: string -> bool, it: Iter, fuel: nat): (r: Result<Yield>)
    ensures r.Ok? ==> r.value.it.dir == it.dir && r.value.it.recursive == it.recursive
    ensures HasNext(fs, q, it, fuel).Err? ==> r == Err(HasNext(fs, q, it, fuel).error)
    decreases fuel
  {
    match HasNext(fs, q, it, fuel)
    case Err(e) => Err(e)
    case Ok(p) =>
      if !p.more then Err(NoSuchElement)
      else if p.it.fileIdx < |Files(fs, p.it.dir)| then
        Ok(Yield(Files(fs, p.it.dir)[p.it.fileIdx], p.it.(fileIdx := p.it.fileIdx + 1)))
      else if p.it.inner.None? then Err(NullPointer)
      else match Next(fs, q, p.it.inner.value, fuel - 1)
        case Err(e) => Err(e)
        case Ok(y) => Ok(Yield(y.file, p.it.(inner := Some(y.it))))
  }

  // ---------------------------------------------------------------------------
  // What an iterator has still to yield

  /** The files passing q from fileIdx on, then what Later says. */
  function Rest(fs: FS, q: string -> bool, it: Iter, fuel: nat): seq<NodeId>
    decreases fuel, 1
  {
    if fuel == 0 || !IsDir(fs, it.dir) then []
    else Matching(fs, q, Files(fs, it.dir), it.fileIdx) + Later(fs, q, it, fuel)
  }

  /** Past the files: nothing for a search that does not recurse; else
      what the current subdirectory iterator has still to yield and what
      the searches of the subdirectories after it find, or, with no
      current one, what the searches from directoryIdx on find. */
  function Later(fs: FS, q: string -> bool, it: Iter, fuel: nat): seq<NodeId>
    requires fuel > 0 && IsDir(fs, it.dir)
    decreases fuel, 0
  {
    if !it.recursive then []
    else if it.inner.Some? then Rest(fs, q, it.inner.value, fuel - 1) + Subs(fs, q, Dirs(fs, it.dir), it.dirIdx + 1, fuel - 1)
    else Subs(fs, q, Dirs(fs, it.dir), it.dirIdx, fuel - 1)
  }

  /** A new iterator has still to yield what the search finds. */
  lemma FindRest(fs: FS, q: string -> bool, d: NodeId, recursive: bool, fuel: nat)
    requires Find(fs, d, recursive).Ok?
    ensures Rest(fs, q, Find(fs, d, recursive).value, fuel) == Found(fs, q, d, recursive, fuel)
  {
  }

  /** p, what hasNext answered for it, says whether anything is left to
      yield and leaves the same left; when it says yes, either the file
      at fileIdx is next, or the current subdirectory iterator has
      something. */
  predicate Answers(fs: FS, q: string -> bool, it: Iter, p: Probe, fuel: nat)
    requires fuel > 0 && IsDir(fs, it.dir)
  {
    && p.more == (Rest(fs, q, it, fuel) != [])
    && Rest(fs, q, p.it, fuel) == Rest(fs, q, it, fuel)
    && (p.it.fileIdx < |Files(fs, it.dir)| ==> p.more && q(NameOf(fs, Files(fs, it.dir)[p.it.fileIdx])))
    && (p.more && p.it.fileIdx >= |Files(fs, it.dir)| ==>
          p.it.recursive && p.it.inner.Some? && Rest(fs, q, p.it.inner.value, fuel - 1) != [])
  }

  /** p, what the directory loop answered from b, says whether the
      searches from directoryIdx on find anything, and leaves an iterator
      with that still to yield. */
  predicate ScanAnswers(fs: FS, q: string -> bool, b: Iter, p: Probe, fuel: nat)
    requires fuel > 0 && IsDir(fs, b.dir)
  {
    && p.more == (Subs(fs, q, Dirs(fs, b.dir), b.dirIdx, fuel - 1) != [])
    && Rest(fs, q, p.it, fuel) == Subs(fs, q, Dirs(fs, b.dir), b.dirIdx, fuel - 1)
    && (p.more ==> p.it.inner.Some? && Rest(fs, q, p.it.inner.value, fuel - 1) != [])
  }

  /** hasNext answers whether anything is left to yield, and changes
      nothing of what is. */
  lemma {:induction false} HasNextRest(fs: FS, q: string -> bool, it: Iter, fuel: nat)
    requires HasNext(fs, q, it, fuel).Ok?
    ensures Answers(fs, q, it, HasNext(fs, q, it, fuel).value, fuel)
    decreases fuel, 2
  {
    var fi := FirstMatch(fs, q, Files(fs, it.dir), it.fileIdx);
    if fi < |Files(fs, it.dir)| {
      HasNextFile(fs, q, it, fuel);
    } else if !it.recursive {
      HasNextFlat(fs, q, it, fuel);
    } else {
      HasNextDeep(fs, q, it, fuel);
    }
  }

  /** hasNext stopping at a file. */
  lemma HasNextFile(fs: FS, q: string -> bool, it: Iter, fuel: nat)
    requires fuel > 0 && IsDir(fs, it.dir) && !Modifying(fs, it.dir)
    requires FirstMatch(fs, q, Files(fs, it.dir), it.fileIdx) < |Files(fs, it.dir)|
    ensures HasNext(fs, q, it, fuel).Ok? && Answers(fs, q, it, HasNext(fs, q, it, fuel).value, fuel)
  {
    var files := Files(fs, it.dir);
    var fi := FirstMatch(fs, q, files, it.fileIdx);
    var a := it.(fileIdx := fi);
    assert HasNext(fs, q, it, fuel) == Ok(Probe(true, a));
    assert Later(fs, q, a, fuel) == Later(fs, q, it, fuel);
    assert Matching(fs, q, files, fi) == [files[fi]] + Matching(fs, q, files, fi + 1);
    assert Rest(fs, q, it, fuel) == Matching(fs, q, files, it.fileIdx) + Later(fs, q, it, fuel);
    assert Rest(fs, q, a, fuel) == Matching(fs, q, files, fi) + Later(fs, q, a, fuel);
  }

  /** hasNext of a search that does not recurse, past the files. */
  lemma HasNextFlat(fs: FS, q: string -> bool, it: Iter, fuel: nat)
    requires fuel > 0 && IsDir(fs, it.dir) && !Modifying(fs, it.dir) && !it.recursive
    requires FirstMatch(fs, q, Files(fs, it.dir), it.fileIdx) >= |Files(fs, it.dir)|
    ensures HasNext(fs, q, it, fuel).Ok? && Answers(fs, q, it, HasNext(fs, q, it, fuel).value, fuel)
  {
    var files := Files(fs, it.dir);
    var fi := FirstMatch(fs, q, files, it.fileIdx);
    var a := it.(fileIdx := fi);
    assert HasNext(fs, q, it, fuel) == Ok(Probe(false, a));
    assert Matching(fs, q, files, fi) == [];
    assert Rest(fs, q, it, fuel) == Matching(fs, q, files, it.fileIdx) + Later(fs, q, it, fuel);
    assert Rest(fs, q, a, fuel) == Matching(fs, q, files, fi) + Later(fs, q, a, fuel);
  }

  /** hasNext of a recursive search, past the files. */
  lemma {:induction false} HasNextDeep(fs: FS, q: string -> bool, it: Iter, fuel: nat)
    requires HasNext(fs, q, it, fuel).Ok? && it.recursive
    requires FirstMatch(fs, q, Files(fs, it.dir), it.fileIdx) >= |Files(fs, it.dir)|
    ensures Answers(fs, q, it, HasNext(fs, q, it, fuel).value, fuel)
    decreases fuel, 1
  {
    var files := Files(fs, it.dir);
    var fi := FirstMatch(fs, q, files, it.fileIdx);
    var a := it.(fileIdx := fi);
    var ds := Dirs(fs, it.dir);
    assert Matching(fs, q, files, fi) == [];
    assert Rest(fs, q, it, fuel) == Matching(fs, q, files, it.fileIdx) + Later(fs, q, it, fuel);
    if it.inner.Some? {
      var x := it.inner.value;
      assert HasNext(fs, q, x, fuel - 1).Ok?;
      HasNextRest(fs, q, x, fuel - 1);
      var p' := HasNext(fs, q, x, fuel - 1).value;
      assert Later(fs, q, it, fuel) == Rest(fs, q, x, fuel - 1) + Subs(fs, q, ds, it.dirIdx + 1, fuel - 1);
      if p'.more {
        var c := a.(inner := Some(p'.it));
        assert HasNext(fs, q, it, fuel) == Ok(Probe(true, c));
        assert Later(fs, q, c, fuel) == Rest(fs, q, p'.it, fuel - 1) + Subs(fs, q, ds, it.dirIdx + 1, fuel - 1);
        assert Rest(fs, q, c, fuel) == Matching(fs, q, files, fi) + Later(fs, q, c, fuel);
      } else {
        var c := a.(dirIdx := it.dirIdx + 1, inner := Some(p'.it));
        assert HasNext(fs, q, it, fuel) == Scan(fs, q, c, fuel);
        ScanRest(fs, q, c, fuel);
      }
    } else {
      assert Later(fs, q, it, fuel) == Subs(fs, q, ds, it.dirIdx, fuel - 1);
      assert HasNext(fs, q, it, fuel) == Scan(fs, q, a, fuel);
      ScanRest(fs, q, a, fuel);
    }
  }

  /** The directory loop answers whether the searches from directoryIdx
      on find anything. */
  lemma {:induction false} ScanRest(fs: FS, q: string -> bool, b: Iter, fuel: nat)
    requires IsDir(fs, b.dir) && fuel > 0 && b.recursive && b.fileIdx >= |Files(fs, b.dir)|
    requires b.inner.Some? ==> Rest(fs, q, b.inner.value, fuel - 1) == []
    requires Scan(fs, q, b, fuel).Ok?
    ensures ScanAnswers(fs, q, b, Scan(fs, q, b, fuel).value, fuel)
    decreases fuel, 0, |Dirs(fs, b.dir)| - b.dirIdx, 1
  {
    if b.dirIdx < |Dirs(fs, b.dir)| {
      ScanStep(fs, q, b, fuel);
    } else {
      assert Scan(fs, q, b, fuel) == Ok(Probe(false, b));
      ScanEnd(fs, q, b, fuel);
    }
  }

  /** The directory loop at a subdirectory: it either stops there or
      moves on. */
  lemma {:induction false} ScanStep(fs: FS, q: string -> bool, b: Iter, fuel: nat)
    requires IsDir(fs, b.dir) && fuel > 0 && b.recursive && b.fileIdx >= |Files(fs, b.dir)|
    requires b.dirIdx < |Dirs(fs, b.dir)|
    requires Scan(fs, q, b, fuel).Ok?
    ensures ScanAnswers(fs, q, b, Scan(fs, q, b, fuel).value, fuel)
    decreases fuel, 0, |Dirs(fs, b.dir)| - b.dirIdx, 0
  {
    var ds := Dirs(fs, b.dir);
    var k := b.dirIdx;
    var sub := Iter(ds[k], true, 0, 0, None);
    assert Find(fs, ds[k], b.recursive) == Ok(sub);
    assert HasNext(fs, q, sub, fuel - 1).Ok?;
    FindRest(fs, q, ds[k], true, fuel - 1);
    HasNextRest(fs, q, sub, fuel - 1);
    var p' := HasNext(fs, q, sub, fuel - 1).value;
    if p'.more {
      assert Scan(fs, q, b, fuel) == Ok(Probe(true, b.(inner := Some(p'.it))));
      ScanHit(fs, q, b, p'.it, fuel);
    } else {
      var c := b.(dirIdx := k + 1, inner := Some(p'.it));
      assert Scan(fs, q, b, fuel) == Scan(fs, q, c, fuel);
      ScanRest(fs, q, c, fuel);
      ScanMiss(fs, q, b, p'.it, Scan(fs, q, c, fuel).value, fuel);
    }
  }

  /** The directory loop stopping at a subdirectory whose iterator x has
      something. */
  lemma ScanHit(fs: FS, q: string -> bool, b: Iter, x: Iter, fuel: nat)
    requires IsDir(fs, b.dir) && fuel > 0 && b.recursive && b.fileIdx >= |Files(fs, b.dir)| && b.dirIdx < |Dirs(fs, b.dir)|
    requires Rest(fs, q, x, fuel - 1) == Found(fs, q, Dirs(fs, b.dir)[b.dirIdx], true, fuel - 1) != []
    ensures ScanAnswers(fs, q, b, Probe(true, b.(inner := Some(x))), fuel)
  {
    var ds := Dirs(fs, b.dir);
    var c := b.(inner := Some(x));
    assert Matching(fs, q, Files(fs, b.dir), b.fileIdx) == [];
    assert Later(fs, q, c, fuel) == Rest(fs, q, x, fuel - 1) + Subs(fs, q, ds, b.dirIdx + 1, fuel - 1);
    assert Rest(fs, q, c, fuel) == Matching(fs, q, Files(fs, b.dir), b.fileIdx) + Later(fs, q, c, fuel);
    assert Subs(fs, q, ds, b.dirIdx, fuel - 1) == Found(fs, q, ds[b.dirIdx], true, fuel - 1) + Subs(fs, q, ds, b.dirIdx + 1, fuel - 1);
  }

  /** The directory loop moving past a subdirectory whose search finds
      nothing. */
  lemma ScanMiss(fs: FS, q: string -> bool, b: Iter, x: Iter, r: Probe, fuel: nat)
    requires IsDir(fs, b.dir) && fuel > 0 && b.dirIdx < |Dirs(fs, b.dir)|
    requires Found(fs, q, Dirs(fs, b.dir)[b.dirIdx], true, fuel - 1) == []
    requires ScanAnswers(fs, q, b.(dirIdx := b.dirIdx + 1, inner := Some(x)), r, fuel)
    ensures ScanAnswers(fs, q, b, r, fuel)
  {
    var ds := Dirs(fs, b.dir);
    var here := Subs(fs, q, ds, b.dirIdx, fuel - 1);
    var later := Subs(fs, q, ds, b.dirIdx + 1, fuel - 1);
    assert here == Found(fs, q, ds[b.dirIdx], true, fuel - 1) + later;
    assert here == later;
  }

  /** The directory loop past the list. */
  lemma ScanEnd(fs: FS, q: string -> bool, b: Iter, fuel: nat)
    requires IsDir(fs, b.dir) && fuel > 0 && b.recursive && b.fileIdx >= |Files(fs, b.dir)| && b.dirIdx >= |Dirs(fs, b.dir)|
    requires b.inner.Some? ==> Rest(fs, q, b.inner.value, fuel - 1) == []
    ensures ScanAnswers(fs, q, b, Probe(false, b), fuel)
  {
    assert Matching(fs, q, Files(fs, b.dir), b.fileIdx) == [];
    assert Later(fs, q, b, fuel) == [];
  }

  /** next yields the first of what is left, and only a file passing q. */
  lemma {:induction false} YieldRest(fs: FS, q: string -> bool, it: Iter, fuel: nat)
    requires Next(fs, q, it, fuel).Ok?
    ensures var y := Next(fs, q, it, fuel).value;
      Rest(fs, q, it, fuel) == [y.file] + Rest(fs, q, y.it, fuel) && q(NameOf(fs, y.file))
    decreases fuel, 1
  {
    HasNextRest(fs, q, it, fuel);
    var p := HasNext(fs, q, it, fuel).value;
    if p.it.fileIdx < |Files(fs, it.dir)| {
      YieldFile(fs, q, it, p, fuel);
    } else {
      YieldInner(fs, q, it, p, fuel);
    }
  }

  /** The yield of a file at fileIdx. */
  lemma YieldFile(fs: FS, q: string -> bool, it: Iter, p: Probe, fuel: nat)
    requires HasNext(fs, q, it, fuel) == Ok(p) && Rest(fs, q, p.it, fuel) == Rest(fs, q, it, fuel)
    requires p.it.fileIdx < |Files(fs, it.dir)| && q(NameOf(fs, Files(fs, it.dir)[p.it.fileIdx]))
    ensures Next(fs, q, it, fuel).Ok?
    ensures var y := Next(fs, q, it, fuel).value;
      Rest(fs, q, it, fuel) == [y.file] + Rest(fs, q, y.it, fuel) && q(NameOf(fs, y.file))
  {
    var files := Files(fs, it.dir);
    var fi := p.it.fileIdx;
    var z := p.it.(fileIdx := fi + 1);
    assert Next(fs, q, it, fuel) == Ok(Yield(files[fi], z));
    assert Matching(fs, q, files, fi) == [files[fi]] + Matching(fs, q, files, fi + 1);
    assert Later(fs, q, z, fuel) == Later(fs, q, p.it, fuel);
    assert Rest(fs, q, p.it, fuel) == Matching(fs, q, files, fi) + Later(fs, q, p.it, fuel);
    assert Rest(fs, q, z, fuel) == Matching(fs, q, files, fi + 1) + Later(fs, q, z, fuel);
  }

  /** The yield of the current subdirectory iterator. */
  lemma {:induction false} YieldInner(fs: FS, q: string -> bool, it: Iter, p: Probe, fuel: nat)
    requires HasNext(fs, q, it, fuel) == Ok(p) && Rest(fs, q, p.it, fuel) == Rest(fs, q, it, fuel)
    requires p.more && p.it.fileIdx >= |Files(fs, it.dir)| && p.it.recursive && p.it.inner.Some?
    requires Next(fs, q, it, fuel).Ok?
    ensures var y := Next(fs, q, it, fuel).value;
      Rest(fs, q, it, fuel) == [y.file] + Rest(fs, q, y.it, fuel) && q(NameOf(fs, y.file))
    decreases fuel, 0
  {
    var x := p.it.inner.value;
    assert Next(fs, q, x, fuel - 1).Ok?;
    YieldRest(fs, q, x, fuel - 1);
    var y := Next(fs, q, x, fuel - 1).value;
    var z := p.it.(inner := Some(y.it));
    assert Next(fs, q, it, fuel) == Ok(Yield(y.file, z));
    var files := Files(fs, it.dir);
    var later := Subs(fs, q, Dirs(fs, it.dir), p.it.dirIdx + 1, fuel - 1);
    assert Matching(fs, q, files, p.it.fileIdx) == [];
    assert Later(fs, q, p.it, fuel) == Rest(fs, q, x, fuel - 1) + later;
    assert Later(fs, q, z, fuel) == Rest(fs, q, y.it, fuel - 1) + later;
    assert Rest(fs, q, p.it, fuel) == Matching(fs, q, files, p.it.fileIdx) + Later(fs, q, p.it, fuel);
    assert Rest(fs, q, z, fuel) == Matching(fs, q, files, p.it.fileIdx) + Later(fs, q, z, fuel);
  }

  /** Asked again with nothing changed, hasNext gives the same answer,
      and, when the answer is yes, leaves the iterator as it was. (When
      the answer is no, an exhausted subdirectory iterator moves
      directoryIdx on by one each time.) */
  lemma {:induction false} HasNextAgain(fs: FS, q: string -> bool, it: Iter, fuel: nat)
    requires HasNext(fs, q, it, fuel).Ok?
    ensures var p := HasNext(fs, q, it, fuel).value;
      && HasNext(fs, q, p.it, fuel).Ok? && HasNext(fs, q, p.it, fuel).value.more == p.more
      && (p.more ==> HasNext(fs, q, p.it, fuel) == Ok(p))
      && (p.more && p.it.fileIdx >= |Files(fs, it.dir)| ==>
            p.it.inner.Some? && HasNext(fs, q, p.it.inner.value, fuel - 1) == Ok(Probe(true, p.it.inner.value)))
    decreases fuel, 1
  {
    var fi := FirstMatch(fs, q, Files(fs, it.dir), it.fileIdx);
    var a := it.(fileIdx := fi);
    if fi < |Files(fs, it.dir)| {
    } else if !it.recursive {
    } else if it.inner.Some? {
      HasNextAgain(fs, q, it.inner.value, fuel - 1);
      var p' := HasNext(fs, q, it.inner.value, fuel - 1).value;
      if !p'.more {
        ScanAgain(fs, q, a.(dirIdx := it.dirIdx + 1, inner := Some(p'.it)), fuel);
      }
    } else {
      ScanAgain(fs, q, a, fuel);
    }
  }

  /** The directory loop stops at an iterator that answers yes again
      unchanged, or past the list with a current iterator that answers no
      again. */
  lemma {:induction false} ScanAgain(fs: FS, q: string -> bool, b: Iter, fuel: nat)
    requires IsDir(fs, b.dir) && fuel > 0 && b.recursive && b.fileIdx >= |Files(fs, b.dir)|
    requires b.inner.Some? ==> HasNext(fs, q, b.inner.value, fuel - 1).Ok? && !HasNext(fs, q, b.inner.value, fuel - 1).value.more
    requires Scan(fs, q, b, fuel).Ok?
    ensures var p := Scan(fs, q, b, fuel).value;
      && (p.more ==> p.it.inner.Some? && HasNext(fs, q, p.it.inner.value, fuel - 1) == Ok(Probe(true, p.it.inner.value)))
      && (!p.more ==> p.it.dirIdx >= |Dirs(fs, b.dir)|)
      && (!p.more && p.it.inner.Some? ==>
            HasNext(fs, q, p.it.inner.value, fuel - 1).Ok? && !HasNext(fs, q, p.it.inner.value, fuel - 1).value.more)
    decreases fuel, 0, |Dirs(fs, b.dir)| - b.dirIdx
  {
    var ds := Dirs(fs, b.dir);
    if b.dirIdx < |ds| {
      var sub := Find(fs, ds[b.dirIdx], b.recursive).value;
      HasNextAgain(fs, q, sub, fuel - 1);
      var p' := HasNext(fs, q, sub, fuel - 1).value;
      if !p'.more {
        ScanAgain(fs, q, b.(dirIdx := b.dirIdx + 1, inner := Some(p'.it)), fuel);
      }
    }
  }

  /** next succeeds whenever hasNext answers yes. */
  lemma {:induction false} NextOk(fs: FS, q: string -> bool, it: Iter, fuel: nat)
    requires HasNext(fs, q, it, fuel).Ok? && HasNext(fs, q, it, fuel).value.more
    ensures Next(fs, q, it, fuel).Ok?
    decreases fuel
  {
    HasNextAgain(fs, q, it, fuel);
    var p := HasNext(fs, q, it, fuel).value;
    if p.it.fileIdx >= |Files(fs, it.dir)| {
      NextOk(fs, q, p.it.inner.value, fuel - 1);
    }
  }

  /** With hasNext answering, next raises NoSuchElementException exactly
      when nothing is left, and yields otherwise. */
  lemma NextExhausted(fs: FS, q: string -> bool, it: Iter, fuel: nat)
    requires HasNext(fs, q, it, fuel).Ok?
    ensures Rest(fs, q, it, fuel) == [] <==> Next(fs, q, it, fuel) == Err(NoSuchElement)
    ensures Rest(fs, q, it, fuel) != [] ==> Next(fs, q, it, fuel).Ok?
  {
    HasNextRest(fs, q, it, fuel);
    if HasNext(fs, q, it, fuel).value.more {
      NextOk(fs, q, it, fuel);
    }
  }

  // ---------------------------------------------------------------------------
  // When a search runs through

  /** Nothing in d's subtree (to the search's depth) stops a search: no
      isModifying flag, no written list, every listed subdirectory a
      directory, fuel for the depth. */
  predicate Clear(fs: FS, d: NodeId, recursive: bool, fuel: nat)
    decreases fuel
  {
    && fuel > 0 && IsDir(fs, d) && !Modifying(fs, d) && ListsReadable(fs, d)
    && (recursive ==> forall i | 0 <= i < |Dirs(fs, d)| :: Clear(fs, Dirs(fs, d)[i], recursive, fuel - 1))
  }

  /** The iterator's directory and those of its current subdirectory
      iterators are clear. */
  predicate Ready(fs: FS, it: Iter, fuel: nat)
    decreases it
  {
    Clear(fs, it.dir, it.recursive, fuel) && (it.inner.Some? ==> Ready(fs, it.inner.value, fuel - 1))
  }

  /** On a clear tree hasNext raises nothing and leaves a ready iterator. */
  lemma {:induction false} ReadyOk(fs: FS, q: string -> bool, it: Iter, fuel: nat)
    requires Ready(fs, it, fuel)
    ensures HasNext(fs, q, it, fuel).Ok? && Ready(fs, HasNext(fs, q, it, fuel).value.it, fuel)
    decreases fuel, 1
  {
    var fi := FirstMatch(fs, q, Files(fs, it.dir), it.fileIdx);
    var a := it.(fileIdx := fi);
    if fi < |Files(fs, it.dir)| {
    } else if !it.recursive {
    } else if it.inner.Some? {
      ReadyOk(fs, q, it.inner.value, fuel - 1);
      var p' := HasNext(fs, q, it.inner.value, fuel - 1).value;
      if !p'.more {
        ScanReady(fs, q, a.(dirIdx := it.dirIdx + 1, inner := Some(p'.it)), fuel);
      }
    } else {
      ScanReady(fs, q, a, fuel);
    }
  }

  /** On a clear tree the directory loop raises nothing. */
  lemma {:induction false} ScanReady(fs: FS, q: string -> bool, b: Iter, fuel: nat)
    requires Clear(fs, b.dir, b.recursive, fuel) && b.recursive
    requires b.inner.Some? ==> Ready(fs, b.inner.value, fuel - 1)
    ensures Scan(fs, q, b, fuel).Ok? && Ready(fs, Scan(fs, q, b, fuel).value.it, fuel)
    decreases fuel, 0, |Dirs(fs, b.dir)| - b.dirIdx
  {
    var ds := Dirs(fs, b.dir);
    if b.dirIdx < |ds| {
      var sub := Find(fs, ds[b.dirIdx], b.recursive).value;
      ReadyOk(fs, q, sub, fuel - 1);
      var p' := HasNext(fs, q, sub, fuel - 1).value;
      if !p'.more {
        ScanReady(fs, q, b.(dirIdx := b.dirIdx + 1, inner := Some(p'.it)), fuel);
      }
    }
  }

  /** On a clear tree next keeps the iterator ready. */
  lemma {:induction false} NextReady(fs: FS, q: string -> bool, it: Iter, fuel: nat)
    requires Ready(fs, it, fuel) && Next(fs, q, it, fuel).Ok?
    ensures Ready(fs, Next(fs, q, it, fuel).value.it, fuel)
    decreases fuel
  {
    ReadyOk(fs, q, it, fuel);
    HasNextRest(fs, q, it, fuel);
    var p := HasNext(fs, q, it, fuel).value;
    if p.it.fileIdx >= |Files(fs, it.dir)| {
      NextReady(fs, q, p.it.inner.value, fuel - 1);
    }
  }

  /** One round of a caller's loop after hasNext answered yes: next
      yields the first of what is left, and on a clear tree the iterator
      stays ready. */
  lemma FindStep(fs: FS, q: string -> bool, it: Iter, fuel: nat)
    requires HasNext(fs, q, it, fuel).Ok? && HasNext(fs, q, it, fuel).value.more
    requires Clear(fs, it.dir, it.recursive, fuel) ==> Ready(fs, it, fuel)
    ensures Next(fs, q, HasNext(fs, q, it, fuel).value.it, fuel).Ok?
    ensures var y := Next(fs, q, HasNext(fs, q, it, fuel).value.it, fuel).value;
      && Rest(fs, q, it, fuel) == [y.file] + Rest(fs, q, y.it, fuel)
      && y.it.dir == it.dir && y.it.recursive == it.recursive
      && (Clear(fs, it.dir, it.recursive, fuel) ==> Ready(fs, y.it, fuel))
  {
    var h := HasNext(fs, q, it, fuel).value;
    if Clear(fs, it.dir, it.recursive, fuel) {
      ReadyOk(fs, q, it, fuel);
    }
    HasNextRest(fs, q, it, fuel);
    HasNextAgain(fs, q, it, fuel);
    NextOk(fs, q, h.it, fuel);
    YieldRest(fs, q, h.it, fuel);
    if Clear(fs, it.dir, it.recursive, fuel) {
      NextReady(fs, q, h.it, fuel);
    }
  }

  /** One round of a caller's loop: `if (!it.hasNext()) stop; else
      take it.next()`. It fails only with what hasNext raises, stops
      exactly when nothing is left, and otherwise takes the first of
      what is left; on a clear tree it does not fail and leaves the
      iterator ready. */
  method Pull(fs: FS, q: string -> bool, it: Iter, fuel: nat) returns (r: Result<Option<Yield>>)
    requires Clear(fs, it.dir, it.recursive, fuel) ==> Ready(fs, it, fuel)
    ensures r.Err? ==> HasNext(fs, q, it, fuel) == Err(r.error)
    ensures fuel > 0 && IsDir(fs, it.dir) && Modifying(fs, it.dir) ==> r == Err(ConcurrentModification)
    ensures Clear(fs, it.dir, it.recursive, fuel) ==> r.Ok?
    ensures r == Ok(None) ==> Rest(fs, q, it, fuel) == []
    ensures r.Ok? && r.value.Some? ==>
      && Rest(fs, q, it, fuel) == [r.value.value.file] + Rest(fs, q, r.value.value.it, fuel)
      && r.value.value.it.dir == it.dir && r.value.value.it.recursive == it.recursive
      && (Clear(fs, it.dir, it.recursive, fuel) ==> Ready(fs, r.value.value.it, fuel))
  {
    if Clear(fs, it.dir, it.recursive, fuel) {
      ReadyOk(fs, q, it, fuel);
    }
    var h := HasNext(fs, q, it, fuel);
    if h.Err? {
      return Err(h.error);
    }
    if !h.value.more {
      HasNextRest(fs, q, it, fuel);
      return Ok(None);
    }
    FindStep(fs, q, it, fuel);
    var n := Next(fs, q, h.value.it, fuel);
    return Ok(Some(n.value));
  }

  /** A caller of find: `it = d.find(match, isRecursive)`, then
      `while (it.hasNext()) found.add(it.next())`. It collects exactly
      what the search finds, in order; it fails only with what the
      constructor, hasNext or next raise, and on a clear tree not at all. */
  method FindAll(fs: FS, q: string -> bool, d: NodeId, recursive: bool, fuel: nat) returns (r: Result<seq<NodeId>>)
    ensures r.Ok? ==> r.value == Found(fs, q, d, recursive, fuel)
    ensures Clear(fs, d, recursive, fuel) ==> r.Ok?
    ensures IsDir(fs, d) && !ListsReadable(fs, d) ==> r == Err(ConcurrentModification)
    ensures fuel > 0 && IsDir(fs, d) && Modifying(fs, d) ==> r == Err(ConcurrentModification)
  {
    var made := Find(fs, d, recursive);
    if made.Err? {
      return Err(made.error);
    }
    var it := made.value;
    FindRest(fs, q, d, recursive, fuel);
    var found := [];
    while true
      invariant found + Rest(fs, q, it, fuel) == Found(fs, q, d, recursive, fuel)
      invariant it.dir == d && it.recursive == recursive
      invariant Clear(fs, d, recursive, fuel) ==> Ready(fs, it, fuel)
      decreases |Rest(fs, q, it, fuel)|
    {
      var p := Pull(fs, q, it, fuel);
      if p.Err? {
        return Err(p.error);
      }
      if p.value.None? {
        return Ok(found);
      }
      var y := p.value.value;
      assert found + Rest(fs, q, it, fuel) == (found + [y.file]) + Rest(fs, q, y.it, fuel);
      found := found + [y.file];
      it := y.it;
    }
  }
}
