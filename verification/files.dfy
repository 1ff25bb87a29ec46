/** VirtualFile: its content handles (open, openLocked and the close
    listener), rename, remove, move, clone and copy. The content of a file
    is the stream whose head block is the file's contentPosition, in the
    container shared by the whole tree. */
module Files {
  import opened Wrappers
  import opened Bytes
  import opened Blocks
  import opened Stream
  import opened Reading
  import opened Storing
  import opened Truncating
  import opened Tree

  // ---------------------------------------------------------------------------
  // Content handles

  /** A VirtualRandomAccessFile handed out for a file: the file, the mode
      ("r" is Shared, "rw" Exclusive), whether closing gives back a content
      hold (open) or not (openLocked), and the stream's cursor. The bytes it
      reads and writes are those of the tree's one container. */
  datatype Handle = Handle(file: NodeId, mode: Mode, locked: bool, cur: Cursor)

  /** The two modes open and openLocked accept. */
  function ModeOf(mode: string): (r: Option<Mode>)
    ensures r.Some? <==> mode == "r" || mode == "rw"
    ensures r == Some(Exclusive) <==> mode == "rw"
  {
    if mode == "r" then Some(Shared) else if mode == "rw" then Some(Exclusive) else None
  }

  function Content(fs: FS, f: NodeId): int
    requires IsFile(fs, f)
  {
    fs.nodes[f].kind.content
  }

  /** What open and openLocked share once the lock question is settled:
      "rw" raises the parent's isModifying (a file without a parent is the
      source's NullPointerException), then the stream is attached. */
  function Attach(fs: FS, f: NodeId, m: Mode, locked: bool): (r: Out<Handle>)
    requires IsFile(fs, f)
    ensures SameShape(fs, r.fs) && r.fs.holds == fs.holds && r.fs.unused == fs.unused
    ensures r.res.Ok? ==> r.res.value.file == f && r.res.value.mode == m && r.res.value.locked == locked
    ensures r.res.Ok? ==> Valid(St(r.fs.disk, r.res.value.cur)) && !r.res.value.cur.isWriteData
    ensures r.res.Ok? ==> r.res.value.cur.firstBlockPosition == Content(fs, f) && r.res.value.cur.position == 0
    ensures r.res.Ok? && m == Exclusive ==> ParentOf(fs, f).Some? && Modifying(r.fs, ParentOf(fs, f).value)
    ensures r.res.Ok? ==> Open(fs.disk, Content(fs, f)) == Ok(St(r.fs.disk, r.res.value.cur))
  {
    var p := ParentOf(fs, f);
    if m == Shared then
      var o := Connect(fs, f, m, locked);
      CachedShape(fs, o.fs.(disk := fs.disk));
      o
    else if p.Some? && IsDir(fs, p.value) then
      var fs1 := SetModifying(fs, p.value, true);
      FlagShape(fs, p.value, true);
      assert fs1.nodes[f] == fs.nodes[f];
      var o := Connect(fs1, f, m, locked);
      CachedShape(fs1, o.fs.(disk := fs1.disk));
      ShapeTrans(fs, fs1, o.fs);
      o
    else Out(fs, Err(NullPointer))
  }

  /** The container is looked up through the parents, and the stream is
      opened at the file's head block. */
  function Connect(fs: FS, f: NodeId, m: Mode, locked: bool): (r: Out<Handle>)
    requires IsFile(fs, f)
    ensures Cached(fs, r.fs.(disk := fs.disk))
    ensures r.res.Ok? ==> r.res.value == Handle(f, m, locked, r.res.value.cur)
    ensures r.res.Ok? ==> Valid(St(r.fs.disk, r.res.value.cur)) && !r.res.value.cur.isWriteData
    ensures r.res.Ok? ==> r.res.value.cur.firstBlockPosition == Content(fs, f) && r.res.value.cur.position == 0
    ensures r.res.Ok? ==> Open(fs.disk, Content(fs, f)) == Ok(St(r.fs.disk, r.res.value.cur))
  {
    var o := FindVfs(fs, f, fs.unused);
    if o.res.Err? then Out(o.fs, Err(o.res.error))
    else
      match Open(o.fs.disk, Content(o.fs, f))
      case Err(e) => Out(o.fs, Err(e))
      case Ok(st) => Out(o.fs.(disk := st.disk), Ok(Handle(f, m, locked, st.cur)))
  }

  /** open(mode): refuse a mode other than "r" and "rw", then take the
      content lock (read for "r", write for "rw"), then attach the stream. */
  function OpenFile(fs: FS, f: NodeId, mode: string): (r: Out<Handle>)
    requires IsFile(fs, f)
    ensures ModeOf(mode).None? ==> r == Out(fs, Err(IllegalArgument))
    ensures ModeOf(mode).Some? && !CanTake(fs, Hold(ContentLock(f), ModeOf(mode).value)) ==> r == Out(fs, Err(Locked))
    ensures SameShape(fs, r.fs) && r.fs.unused == fs.unused
    ensures r.res.Ok? ==>
              && ModeOf(mode) == Some(r.res.value.mode) && r.res.value == Handle(f, r.res.value.mode, true, r.res.value.cur)
              && r.fs.holds == fs.holds + multiset{Hold(ContentLock(f), r.res.value.mode)}
              && Valid(St(r.fs.disk, r.res.value.cur)) && !r.res.value.cur.isWriteData
              && r.res.value.cur.firstBlockPosition == Content(fs, f) && r.res.value.cur.position == 0
              && (mode == "rw" ==> ParentOf(fs, f).Some? && Modifying(r.fs, ParentOf(fs, f).value))
              && Open(fs.disk, Content(fs, f)) == Ok(St(r.fs.disk, r.res.value.cur))
  {
    match ModeOf(mode)
    case None => Out(fs, Err(IllegalArgument))
    case Some(m) =>
      match TryLock(fs, ContentLock(f), m)
      case Err(e) => Out(fs, Err(e))
      case Ok(fs1) => Attach(fs1, f, m, true)
  }

  /** openLocked(mode): the same without a lock of its own (the caller
      holds the content lock already). */
  function OpenLocked(fs: FS, f: NodeId, mode: string): (r: Out<Handle>)
    requires IsFile(fs, f)
    ensures ModeOf(mode).None? ==> r == Out(fs, Err(IllegalArgument))
    ensures r.fs.holds == fs.holds
    ensures SameShape(fs, r.fs) && r.fs.unused == fs.unused
    ensures r.res.Ok? ==>
              && ModeOf(mode) == Some(r.res.value.mode) && r.res.value == Handle(f, r.res.value.mode, false, r.res.value.cur)
              && Valid(St(r.fs.disk, r.res.value.cur)) && !r.res.value.cur.isWriteData
              && r.res.value.cur.firstBlockPosition == Content(fs, f)
              && (mode == "rw" ==> ParentOf(fs, f).Some? && Modifying(r.fs, ParentOf(fs, f).value))
              && Open(fs.disk, Content(fs, f)) == Ok(St(r.fs.disk, r.res.value.cur))
  {
    match ModeOf(mode)
    case None => Out(fs, Err(IllegalArgument))
    case Some(m) => Attach(fs, f, m, false)
  }

  /** close(): write back what is pending, then run the close listener
      with the head block the stream reports. */
  function CloseFile(fs: FS, h: Handle): (r: Out<()>)
    requires Valid(St(fs.disk, h.cur))
  {
    match Close(St(fs.disk, h.cur))
    case Err(e) => Out(fs, Err(e))
    case Ok((d, head)) => Settle(fs.(disk := d), h, head)
  }

  /** The close listener: give back the content hold (open only), set
      contentPosition to the head block, and for "rw" lower the parent's
      isModifying. */
  function Settle(fs: FS, h: Handle, head: int): (r: Out<()>)
    ensures r.res.Ok? ==>
              && SameShape(SetContent(fs, h.file, head), r.fs) && r.fs.disk == fs.disk
              && (IsFile(fs, h.file) ==> IsFile(r.fs, h.file) && Content(r.fs, h.file) == head)
              && r.fs.holds == (if h.locked then fs.holds - multiset{Hold(ContentLock(h.file), h.mode)} else fs.holds)
              && (h.mode == Exclusive ==> ParentOf(fs, h.file).Some? && !Modifying(r.fs, ParentOf(fs, h.file).value))
  {
    var fs1 := if h.locked then Release(fs, [Hold(ContentLock(h.file), h.mode)]) else fs;
    assert multiset([Hold(ContentLock(h.file), h.mode)]) == multiset{Hold(ContentLock(h.file), h.mode)};
    var fs2 := SetContent(fs1, h.file, head);
    assert IsFile(fs, h.file) ==> IsFile(fs2, h.file) && Content(fs2, h.file) == head;
    var r := Lower(fs2, h.file, h.mode);
    if r.res.Ok? && IsFile(fs2, h.file) then
      ShapeAt(fs2, r.fs, h.file);
      r
    else r
  }

  /** For "rw", `rootDirectory.isModifying.set(false)`; a file without a
      parent is the source's NullPointerException. */
  function Lower(fs: FS, f: NodeId, m: Mode): (r: Out<()>)
    ensures r.res.Ok? <==> m == Shared || (ParentOf(fs, f).Some? && IsDir(fs, ParentOf(fs, f).value))
    ensures r.res.Ok? ==> SameShape(fs, r.fs) && r.fs.holds == fs.holds && r.fs.disk == fs.disk
    ensures r.res.Ok? && m == Exclusive ==> !Modifying(r.fs, ParentOf(fs, f).value)
  {
    var p := ParentOf(fs, f);
    if m == Shared then Out(fs, Ok(()))
    else if p.Some? && IsDir(fs, p.value) then
      FlagShape(fs, p.value, false);
      Out(SetModifying(fs, p.value, false), Ok(()))
    else Out(fs, Err(NullPointer))
  }

  /** Closing a handle with nothing to write back runs the listener with
      the head block the handle was opened at. */
  lemma CloseUnwritten(fs: FS, h: Handle)
    requires Valid(St(fs.disk, h.cur)) && !h.cur.isWriteData
    ensures CloseFile(fs, h) == Settle(fs, h, h.cur.firstBlockPosition)
  {
    assert Close(St(fs.disk, h.cur)) == Ok((fs.disk, h.cur.firstBlockPosition));
    assert fs.(disk := fs.disk) == fs;
  }

  /** A handle closed without a write gives back exactly the hold open
      took, and for "rw" leaves the parent's isModifying lowered (even when
      it was raised before the open), for "r" every flag as it was; the
      tree is as it was, the file's head block included. */
  lemma OpenClose(fs: FS, f: NodeId, mode: string)
    requires IsFile(fs, f) && OpenFile(fs, f, mode).res.Ok?
    ensures var o := OpenFile(fs, f, mode);
      var c := CloseFile(o.fs, o.res.value);
      && c.res.Ok? && c.fs.holds == fs.holds && SameShape(fs, c.fs)
      && (mode == "rw" ==> !Modifying(c.fs, ParentOf(fs, f).value))
      && c.fs.flags == (if mode == "rw" then fs.flags - {ParentOf(fs, f).value} else fs.flags)
  {
    var o := OpenFile(fs, f, mode);
    CloseUnwritten(o.fs, o.res.value);
    SettleOpened(fs, o.fs, f, o.res.value, o.res.value.cur.firstBlockPosition);
    HeadKept(fs, f);
  }

  /** The close listener of a handle that open or openLocked gave out, whatever head
      block the stream reports: the hold goes back, the file records the
      head, and for "rw" the parent's isModifying is lowered. */
  lemma SettleOpened(fs: FS, fs1: FS, f: NodeId, h: Handle, head: int)
    requires IsFile(fs, f) && SameShape(fs, fs1) && h.file == f
    requires fs1.holds == fs.holds + (if h.locked then multiset{Hold(ContentLock(f), h.mode)} else multiset{})
    requires h.mode == Exclusive ==> ParentOf(fs, f).Some? && Modifying(fs1, ParentOf(fs, f).value)
    ensures var c := Settle(fs1, h, head);
      && c.res.Ok? && c.fs.holds == fs.holds && SameShape(SetContent(fs, f, head), c.fs)
      && c.fs.disk == fs1.disk && IsFile(c.fs, f) && Content(c.fs, f) == head
      && (h.mode == Exclusive ==> !Modifying(c.fs, ParentOf(fs, f).value))
  {
    assert fs.holds + multiset{Hold(ContentLock(f), h.mode)} - multiset{Hold(ContentLock(f), h.mode)} == fs.holds;
    ContentShape(fs, fs1, f, head);
    var fs2 := if h.locked then Release(fs1, [Hold(ContentLock(f), h.mode)]) else fs1;
    var fs3 := SetContent(fs2, f, head);
    ShapeAt(fs, fs1, f);
    assert ParentOf(fs3, f) == ParentOf(fs, f);
    if h.mode == Exclusive {
      var p := ParentOf(fs, f).value;
      assert IsDir(fs1, p) && p != f;
      assert IsDir(fs3, p);
    }
    assert Lower(fs3, f, h.mode).res.Ok?;
  }

  // ---------------------------------------------------------------------------
  // Reading and writing a whole content, as clone does

  /** open("r"), read length() bytes into an array of that many bytes (the
      length cast to int; a negative one is the source's
      NegativeArraySizeException), close. */
  function ReadAllOf(fs: FS, f: NodeId): (r: Out<seq<byte>>)
    requires IsFile(fs, f)
    ensures r.res.Ok? ==> r.fs.holds == fs.holds && r.fs.unused == fs.unused
    ensures r.res.Ok? ==> IsFile(r.fs, f) && SameShape(SetContent(fs, f, Content(r.fs, f)), r.fs)
  {
    var o := OpenFile(fs, f, "r");
    if o.res.Err? then Out(o.fs, Err(o.res.error))
    else
      assert fs.holds + multiset{Hold(ContentLock(f), Shared)} - multiset{Hold(ContentLock(f), Shared)} == fs.holds;
      var t := ReadThrough(o.fs, o.res.value);
      if t.res.Ok? then
        ContentShape(fs, o.fs, f, Content(t.fs, f));
        ShapeTrans(SetContent(fs, f, Content(t.fs, f)), SetContent(o.fs, f, Content(t.fs, f)), t.fs);
        t
      else t
  }

  /** The read and the close, on a handle open("r") gave out. */
  function ReadThrough(fs: FS, h: Handle): (r: Out<seq<byte>>)
    requires Valid(St(fs.disk, h.cur)) && IsFile(fs, h.file)
    ensures r.res.Ok? && h.locked ==> r.fs.holds == fs.holds - multiset{Hold(ContentLock(h.file), h.mode)}
    ensures r.res.Ok? && !h.locked ==> r.fs.holds == fs.holds
    ensures r.res.Ok? ==> IsFile(r.fs, h.file) && r.fs.unused == fs.unused
                          && SameShape(SetContent(fs, h.file, Content(r.fs, h.file)), r.fs)
  {
    var n := ToInt32(h.cur.size);
    if n < 0 then Out(fs, Err(NegativeSize))
    else
      match ReadBytes(St(fs.disk, h.cur), n)
      case Err(e) => Out(fs, Err(e))
      case Ok((st, bytes)) =>
        var c := CloseFile(fs.(disk := st.disk), h.(cur := st.cur));
        if c.res.Err? then Out(c.fs, Err(c.res.error)) else Out(c.fs, Ok(bytes))
  }

  /** Reading a stored stream through a handle: the stored bytes, and a
      close that only gives back the hold. */
  lemma ReadThroughStored(fs: FS, fs1: FS, f: NodeId, h: Handle, b: int, blocks: seq<int>, content: seq<byte>)
    requires IsFile(fs, f) && SameShape(fs, fs1) && h == Handle(f, Shared, true, h.cur)
    requires fs1.holds == fs.holds + multiset{Hold(ContentLock(f), Shared)}
    requires DiskOk(fs.disk, b) && Stored(fs.disk, b, blocks, content) && |content| < TWO_31
    requires Content(fs, f) == blocks[0] && Open(fs.disk, blocks[0]) == Ok(St(fs1.disk, h.cur))
    ensures var r := ReadThrough(fs1, h);
      r.res == Ok(content) && r.fs.holds == fs.holds && SameShape(fs, r.fs) && r.fs.disk == fs.disk
  {
    var last := ReadStoredAll(fs.disk, b, blocks, content);
    var h' := h.(cur := last.cur);
    assert last == St(fs.disk, h'.cur);
    CloseUnwritten(fs1.(disk := last.disk), h');
    SettleOpened(fs, fs1.(disk := last.disk), f, h', blocks[0]);
    var c := Settle(fs1.(disk := last.disk), h', blocks[0]);
    assert ReadThrough(fs1, h) == Out(c.fs, Ok(content));
    HeadKept(fs, f);
  }

  /** A stored stream opened and read for its (int) length yields its
      bytes and is left with nothing to write back. */
  lemma ReadStoredAll(d: Disk, b: int, blocks: seq<int>, content: seq<byte>) returns (last: St)
    requires DiskOk(d, b) && Stored(d, b, blocks, content) && |content| < TWO_31
    ensures Open(d, blocks[0]).Ok? && ToInt32(Open(d, blocks[0]).value.cur.size) == |content|
    ensures ReadBytes(Open(d, blocks[0]).value, |content|) == Ok((last, content))
    ensures last.disk == d && Valid(last) && !last.cur.isWriteData && last.cur.firstBlockPosition == blocks[0]
  {
    OpenReads(d, b, blocks, content);
    var st0 := Open(d, blocks[0]).value;
    ToInt32Small(|content|);
    var k;
    last, k := ReadRun(st0, d, b, blocks, content, -1, |content|);
    assert content[0..|content|] == content;
  }

  /** On a stored content shorter than 2^31 bytes, the read returns exactly
      the stored bytes, gives back its hold and leaves tree and container
      as they were. */
  lemma ReadAllLoads(fs: FS, f: NodeId, b: int, blocks: seq<int>, content: seq<byte>)
    requires IsFile(fs, f) && DiskOk(fs.disk, b) && Stored(fs.disk, b, blocks, content)
    requires Content(fs, f) == blocks[0] && |content| < TWO_31
    requires OpenFile(fs, f, "r").res.Ok?
    ensures var r := ReadAllOf(fs, f);
      r.res == Ok(content) && r.fs.holds == fs.holds && SameShape(fs, r.fs) && r.fs.disk == fs.disk
  {
    var o := OpenFile(fs, f, "r");
    ReadThroughStored(fs, o.fs, f, o.res.value, b, blocks, content);
  }

  /** open("rw") on the new file, write the bytes, close. */
  function WriteNewOf(fs: FS, f: NodeId, bytes: seq<byte>): (r: Out<()>)
    requires IsFile(fs, f)
    ensures r.res.Ok? ==> r.fs.holds == fs.holds && r.fs.unused == fs.unused
    ensures r.res.Ok? ==> IsFile(r.fs, f) && SameShape(SetContent(fs, f, Content(r.fs, f)), r.fs)
  {
    var o := OpenFile(fs, f, "rw");
    if o.res.Err? then Out(o.fs, Err(o.res.error))
    else
      var h := o.res.value;
      match WriteAll(St(o.fs.disk, h.cur), bytes)
      case Err(e) => Out(o.fs, Err(e))
      case Ok(st) =>
        var c := CloseFile(o.fs.(disk := st.disk), h.(cur := st.cur));
        if c.res.Ok? then
          assert fs.holds + multiset{Hold(ContentLock(f), Exclusive)} - multiset{Hold(ContentLock(f), Exclusive)} == fs.holds;
          ContentShape(fs, o.fs, f, Content(c.fs, f));
          ShapeTrans(SetContent(fs, f, Content(c.fs, f)), SetContent(o.fs, f, Content(c.fs, f)), c.fs);
          c
        else c
  }

  /** Writing a file without content stores the bytes as a new stream: the
      container and head block are those of Store, the hold goes back, the
      parent's isModifying is lowered and nothing else in the tree moves. */
  lemma WriteNewStores(fs: FS, f: NodeId, w: seq<byte>)
    requires IsFile(fs, f) && Content(fs, f) == NONE
    requires OpenFile(fs, f, "rw").res.Ok? && Store(fs.disk, w).Ok?
    ensures var r := WriteNewOf(fs, f, w);
      var (d, head) := Store(fs.disk, w).value;
      && r.res.Ok? && r.fs.disk == d && IsFile(r.fs, f) && Content(r.fs, f) == head
      && r.fs.holds == fs.holds && SameShape(SetContent(fs, f, head), r.fs)
      && !Modifying(r.fs, ParentOf(fs, f).value)
  {
    var o := OpenFile(fs, f, "rw");
    var h := o.res.value;
    var st0 := St(o.fs.disk, h.cur);
    var st1 := WriteAll(st0, w).value;
    var (d, head) := Close(st1).value;
    assert St(st1.disk, st1.cur) == st1;
    SettleOpened(fs, o.fs.(disk := d), f, h.(cur := st1.cur), head);
  }

  // ---------------------------------------------------------------------------
  // remove

  /** remove(isLocked, deleteFromRoot): the checks of VirtualFSNode.remove;
      unless the caller holds them already, the content write lock and then
      the parent's file-list write lock (a refusal of the second gives the
      first back); then the content is erased and the file let go. */
  function RemoveFile(fs: FS, f: NodeId, isLocked: bool, deleteFromRoot: bool): (r: Out<()>)
    requires IsFile(fs, f)
    ensures fs.nodes[f].deleted ==> r == Out(fs, Err(AlreadyDeleted))
    ensures !fs.nodes[f].deleted && fs.nodes[f].parent.None? ==> r == Out(fs, Err(Unremovable))
    ensures RemoveCheck(fs.nodes[f]).Ok? && !isLocked && !CanTake(fs, Hold(ContentLock(f), Exclusive)) ==>
              r == Out(fs, Err(Locked))
    ensures RemoveCheck(fs.nodes[f]).Ok? && !isLocked && IsDir(fs, fs.nodes[f].parent.value)
            && CanTake(fs, Hold(ContentLock(f), Exclusive))
            && !CanTake(Tree.Take(fs, Hold(ContentLock(f), Exclusive)), Hold(FilesLock(fs.nodes[f].parent.value), Exclusive)) ==>
              r == Out(fs, Err(Locked))
    ensures r.res.Ok? ==> IsFile(r.fs, f) && r.fs.nodes[f].deleted && r.fs.holds == fs.holds
  {
    match RemoveCheck(fs.nodes[f])
    case Err(e) => Out(fs, Err(e))
    case Ok(_) =>
      var p := fs.nodes[f].parent.value;
      var own := Hold(ContentLock(f), Exclusive);
      var list := Hold(FilesLock(p), Exclusive);
      TakeRelease(fs, own);
      if isLocked then Erase(fs, f, p, [], deleteFromRoot)
      else if !CanTake(fs, own) then Out(fs, Err(Locked))
      else if !IsDir(fs, p) then Out(Tree.Take(fs, own), Err(NullPointer))
      else if !CanTake(Tree.Take(fs, own), list) then Out(Release(Tree.Take(fs, own), [own]), Err(Locked))
      else
        assert multiset([own, list]) == multiset{own, list};
        Erase(Tree.Take(Tree.Take(fs, own), list), f, p, [own, list], deleteFromRoot)
  }

  /** With the locks held: the parent's isModifying raised, the content
      erased; with deleteFromRoot the file leaves its parent's list; the
      file is marked deleted, the holds go back, and the parent's
      isModifying, if the file still has a parent, is lowered. */
  function Erase(fs: FS, f: NodeId, p: NodeId, held: seq<Hold>, deleteFromRoot: bool): (r: Out<()>)
    requires IsFile(fs, f)
    ensures r.res.Ok? ==> IsFile(r.fs, f) && r.fs.nodes[f].deleted && r.fs.holds == fs.holds - multiset(held)
  {
    var w := Wipe(SetModifying(fs, p, true), f);
    if w.res.Err? then w
    else if deleteFromRoot && !IsDir(w.fs, p) then Out(w.fs, Err(NullPointer))
    else Out(Unlink(w.fs, f, p, held, deleteFromRoot), Ok(()))
  }

  /** After the content is erased: with deleteFromRoot the file leaves its
      parent's list; the file is marked deleted, the holds go back, and the
      parent's isModifying, if the file still has a parent, is lowered. */
  function Unlink(fs: FS, f: NodeId, p: NodeId, held: seq<Hold>, deleteFromRoot: bool): (r: FS)
    requires IsFile(fs, f) && (deleteFromRoot ==> IsDir(fs, p))
    ensures IsFile(r, f) && r.nodes[f].deleted && r.holds == fs.holds - multiset(held)
    ensures r.nodes.Keys == fs.nodes.Keys && r.unused == fs.unused && r.disk == fs.disk
    ensures deleteFromRoot ==> r.nodes[f].parent.None? && IsDir(r, p)
                               && Files(r, p) == RemoveFirst(Files(fs, p), f) && Dirs(r, p) == Dirs(fs, p)
    ensures !deleteFromRoot ==> r.nodes[f].parent == fs.nodes[f].parent && r.nodes == SetDeleted(fs, f).nodes
    ensures r.nodes[f].kind == fs.nodes[f].kind
    ensures deleteFromRoot ==> (Modifying(r, p) <==> Modifying(fs, p))
  {
    var fs2 := if deleteFromRoot then Detach(fs, p, f) else fs;
    assert IsFile(fs2, f) && fs2.holds == fs.holds;
    var fs3 := Release(SetDeleted(fs2, f), held);
    assert IsFile(fs3, f) && fs3.nodes[f].deleted && fs3.nodes[f].parent == fs2.nodes[f].parent;
    assert deleteFromRoot ==> fs3.nodes[p] == fs2.nodes[p];
    var q := ParentOf(fs3, f);
    if q.Some? then
      FlagShape(fs3, q.value, false);
      ShapeAt(fs3, SetModifying(fs3, q.value, false), f);
      SetModifying(fs3, q.value, false)
    else fs3
  }

  /** openLocked("rw"), setLength(0), close. */
  function Wipe(fs: FS, f: NodeId): (r: Out<()>)
    requires IsFile(fs, f)
    ensures r.res.Ok? ==> IsFile(r.fs, f) && r.fs.holds == fs.holds && r.fs.unused == fs.unused
    ensures r.res.Ok? ==> SameShape(SetContent(fs, f, Content(r.fs, f)), r.fs)
  {
    var o := OpenLocked(fs, f, "rw");
    if o.res.Err? then Out(o.fs, Err(o.res.error))
    else
      var t := Truncated(o.fs, o.res.value);
      if t.res.Ok? then
        ContentShape(fs, o.fs, f, Content(t.fs, f));
        ShapeTrans(SetContent(fs, f, Content(t.fs, f)), SetContent(o.fs, f, Content(t.fs, f)), t.fs);
        t
      else t
  }

  /** setLength(0) and close on a handle. */
  function Truncated(fs: FS, h: Handle): (r: Out<()>)
    requires Valid(St(fs.disk, h.cur)) && IsFile(fs, h.file) && !h.locked
    ensures r.res.Ok? ==> IsFile(r.fs, h.file) && r.fs.holds == fs.holds && r.fs.unused == fs.unused
    ensures r.res.Ok? ==> SameShape(SetContent(fs, h.file, Content(r.fs, h.file)), r.fs)
  {
    match SetLength(St(fs.disk, h.cur), 0)
    case Err(e) => Out(fs, Err(e))
    case Ok(st) =>
      var c := CloseFile(fs.(disk := st.disk), h.(cur := st.cur));
      if c.res.Ok? then
        var head := Close(st).value.1;
        assert St(st.disk, st.cur) == st;
        assert c == Settle(fs.(disk := Close(st).value.0), h.(cur := st.cur), head);
        c
      else c
  }

  /** openLocked("rw") succeeds on a file that has a parent directory,
      reaches a container and whose stream opens. */
  lemma OpenLockedOk(fs: FS, f: NodeId)
    requires IsFile(fs, f) && ParentOf(fs, f).Some? && IsDir(fs, ParentOf(fs, f).value)
    requires Reaches(fs, f, fs.unused) && Open(fs.disk, Content(fs, f)).Ok?
    ensures OpenLocked(fs, f, "rw").res.Ok?
  {
    var fs1 := SetModifying(fs, ParentOf(fs, f).value, true);
    FlagShape(fs, ParentOf(fs, f).value, true);
    ShapeReaches(fs, fs1, f, fs.unused);
    assert FindVfs(fs1, f, fs1.unused).res.Ok?;
  }

  /** A stream without a head, or a stored non-empty one, opens, truncates
      to nothing and closes with no head block left. */
  lemma EraseStream(d: Disk, b: int, blocks: seq<int>, content: seq<byte>, head: int)
    requires DiskOk(d, b)
    requires head == NONE || (Stored(d, b, blocks, content) && |content| > 0 && head == blocks[0])
    ensures Open(d, head).Ok? && SetLength(Open(d, head).value, 0).Ok?
    ensures Close(SetLength(Open(d, head).value, 0).value).Ok?
    ensures Close(SetLength(Open(d, head).value, 0).value).value.1 == NONE
  {
    if head == NONE {
      LoadNone(d, b);
    } else {
      OpenReads(d, b, blocks, content);
      var j, r := TruncateStored(Open(d, head).value, d, b, blocks, content, -1, 0);
      TruncateClean(Open(d, head).value, d, b, blocks, content, -1, 0);
    }
  }

  /** Truncating and closing a stream that closes with no head: the file is
      left without content, and the close listener lowers the parent's
      isModifying. */
  lemma TruncatedNone(fs: FS, fs1: FS, f: NodeId, h: Handle)
    requires IsFile(fs, f) && SameShape(fs, fs1) && h == Handle(f, Exclusive, false, h.cur) && fs1.holds == fs.holds
    requires ParentOf(fs, f).Some? && Modifying(fs1, ParentOf(fs, f).value)
    requires Valid(St(fs1.disk, h.cur)) && SetLength(St(fs1.disk, h.cur), 0).Ok?
    requires Close(SetLength(St(fs1.disk, h.cur), 0).value).Ok?
    requires Close(SetLength(St(fs1.disk, h.cur), 0).value).value.1 == NONE
    ensures var r := Truncated(fs1, h);
      && r.res.Ok? && IsFile(r.fs, f) && Content(r.fs, f) == NONE && r.fs.holds == fs.holds
      && SameShape(SetContent(fs, f, NONE), r.fs) && !Modifying(r.fs, ParentOf(fs, f).value)
  {
    ShapeAt(fs, fs1, f);
    var st := SetLength(St(fs1.disk, h.cur), 0).value;
    var (d, head) := Close(st).value;
    assert St(st.disk, st.cur) == st;
    SettleOpened(fs, fs1.(disk := d), f, h.(cur := st.cur), NONE);
    assert Truncated(fs1, h) == Settle(fs1.(disk := d), h.(cur := st.cur), NONE);
  }

  /** The erasing step of remove on a file with a parent directory that
      reaches a container and whose content is none or a stored stream. */
  lemma WipeErases(fs: FS, f: NodeId, b: int, blocks: seq<int>, content: seq<byte>)
    requires IsFile(fs, f) && ParentOf(fs, f).Some? && IsDir(fs, ParentOf(fs, f).value)
    requires Reaches(fs, f, fs.unused) && DiskOk(fs.disk, b)
    requires Content(fs, f) == NONE || (Stored(fs.disk, b, blocks, content) && |content| > 0 && Content(fs, f) == blocks[0])
    ensures var w := Wipe(fs, f);
      && w.res.Ok? && IsFile(w.fs, f) && Content(w.fs, f) == NONE && w.fs.holds == fs.holds
      && SameShape(SetContent(fs, f, NONE), w.fs) && !Modifying(w.fs, ParentOf(fs, f).value)
  {
    EraseStream(fs.disk, b, blocks, content, Content(fs, f));
    OpenLockedOk(fs, f);
    var o := OpenLocked(fs, f, "rw");
    TruncatedNone(fs, o.fs, f, o.res.value);
    assert Wipe(fs, f) == Truncated(o.fs, o.res.value);
  }

  /** remove() of a file that is not deleted, has a parent directory,
      reaches a container, whose content lock and whose parent's file-list
      lock are free to take, and whose content is none or a stored stream:
      the file is deleted, its content erased (no head block left), it
      leaves its parent's file list, every hold goes back and the parent's
      isModifying is lowered. */
  lemma RemoveErases(fs: FS, f: NodeId, b: int, blocks: seq<int>, content: seq<byte>)
    requires IsFile(fs, f) && !fs.nodes[f].deleted && ParentOf(fs, f).Some? && IsDir(fs, ParentOf(fs, f).value)
    requires CanTake(fs, Hold(ContentLock(f), Exclusive))
    requires CanTake(Tree.Take(fs, Hold(ContentLock(f), Exclusive)), Hold(FilesLock(ParentOf(fs, f).value), Exclusive))
    requires Reaches(fs, f, fs.unused) && DiskOk(fs.disk, b)
    requires Content(fs, f) == NONE || (Stored(fs.disk, b, blocks, content) && |content| > 0 && Content(fs, f) == blocks[0])
    ensures var r := RemoveFile(fs, f, false, true);
      var p := ParentOf(fs, f).value;
      && r.res.Ok? && r.fs.holds == fs.holds
      && IsFile(r.fs, f) && r.fs.nodes[f].deleted && Content(r.fs, f) == NONE && r.fs.nodes[f].parent.None?
      && IsDir(r.fs, p) && Files(r.fs, p) == RemoveFirst(Files(fs, p), f) && Dirs(r.fs, p) == Dirs(fs, p)
      && !Modifying(r.fs, p)
  {
    var p := ParentOf(fs, f).value;
    var own := Hold(ContentLock(f), Exclusive);
    var list := Hold(FilesLock(p), Exclusive);
    var fs1 := Tree.Take(Tree.Take(fs, own), list);
    ShapeReaches(fs, fs1, f, fs.unused);
    RemoveTaken(fs, f, true);
    assert multiset([own, list]) == multiset{own, list};
    EraseErases(fs1, f, [own, list], b, blocks, content);
  }

  /** The erasing step with deleteFromRoot, on a file with a parent
      directory that reaches a container and whose content is none or a
      stored stream: the content is erased, the file deleted and out of its
      parent's list, the holds given back and the parent's isModifying
      lowered. */
  lemma EraseErases(fs: FS, f: NodeId, held: seq<Hold>, b: int, blocks: seq<int>, content: seq<byte>)
    requires IsFile(fs, f) && ParentOf(fs, f).Some? && IsDir(fs, ParentOf(fs, f).value)
    requires Reaches(fs, f, fs.unused) && DiskOk(fs.disk, b)
    requires Content(fs, f) == NONE || (Stored(fs.disk, b, blocks, content) && |content| > 0 && Content(fs, f) == blocks[0])
    ensures var p := ParentOf(fs, f).value;
      var r := Erase(fs, f, p, held, true);
      && r.res.Ok? && r.fs.holds == fs.holds - multiset(held)
      && IsFile(r.fs, f) && r.fs.nodes[f].deleted && Content(r.fs, f) == NONE && r.fs.nodes[f].parent.None?
      && IsDir(r.fs, p) && Files(r.fs, p) == RemoveFirst(Files(fs, p), f) && Dirs(r.fs, p) == Dirs(fs, p)
      && !Modifying(r.fs, p)
  {
    var p := ParentOf(fs, f).value;
    var fs2 := SetModifying(fs, p, true);
    ShapeReaches(fs, fs2, f, fs.unused);
    WipeErases(fs2, f, b, blocks, content);
    var w := Wipe(fs2, f);
    ShapeAt(SetContent(fs2, f, NONE), w.fs, p);
    EraseWiped(fs, f, p, held, true);
  }

  /** Once both locks are granted, remove() is the erasing step with them held. */
  lemma RemoveTaken(fs: FS, f: NodeId, deleteFromRoot: bool)
    requires IsFile(fs, f) && RemoveCheck(fs.nodes[f]).Ok? && IsDir(fs, fs.nodes[f].parent.value)
    requires CanTake(fs, Hold(ContentLock(f), Exclusive))
    requires CanTake(Tree.Take(fs, Hold(ContentLock(f), Exclusive)), Hold(FilesLock(fs.nodes[f].parent.value), Exclusive))
    ensures var p := fs.nodes[f].parent.value;
      var held := [Hold(ContentLock(f), Exclusive), Hold(FilesLock(p), Exclusive)];
      RemoveFile(fs, f, false, deleteFromRoot)
        == Erase(Tree.Take(Tree.Take(fs, held[0]), held[1]), f, p, held, deleteFromRoot)
  {
  }

  /** An erasing step whose wipe succeeds ends in Unlink. */
  lemma EraseWiped(fs: FS, f: NodeId, p: NodeId, held: seq<Hold>, deleteFromRoot: bool)
    requires IsFile(fs, f)
    requires var w := Wipe(SetModifying(fs, p, true), f); w.res.Ok? && (deleteFromRoot ==> IsDir(w.fs, p))
    ensures var w := Wipe(SetModifying(fs, p, true), f);
      Erase(fs, f, p, held, deleteFromRoot) == Out(Unlink(w.fs, f, p, held, deleteFromRoot), Ok(()))
  {
  }

  // ---------------------------------------------------------------------------
  // rename

  /** The file renamed and its modification date set. */
  function Renamed(fs: FS, f: NodeId, name: string, now: int): FS
    requires IsFile(fs, f)
  {
    var n := fs.nodes[f];
    Update(fs, f, n.(name := name, kind := n.kind.(modifiedAt := now)))
  }

  /** rename(name) up to the change itself: the deleted check; the content
      write lock; for a file with a parent, the parent's isModifying raised
      and its file-list write lock; a refusal lowers the parent's
      isModifying (raised yet or not) and gives back what was taken; then
      the name checked against the other files of the parent. The holds
      taken come back with the state. */
  function RenameLocks(fs: FS, f: NodeId, name: string): (r: Out<seq<Hold>>)
    requires IsFile(fs, f) && ParentDir(fs, f)
    ensures r.res.Ok? ==> r.fs == SetFlagOf(fs, ParentOf(fs, f), true).(holds := fs.holds + multiset(r.res.value))
    ensures r.res.Err? && !fs.nodes[f].deleted ==> r.fs == SetFlagOf(fs, ParentOf(fs, f), false)
    ensures r.res.Ok? <==> RenameGranted(fs, f, name)
  {
    var p := ParentOf(fs, f);
    var own := Hold(ContentLock(f), Exclusive);
    if fs.nodes[f].deleted then Out(fs, Err(AlreadyDeleted))
    else if !CanTake(fs, own) then Out(SetFlagOf(fs, p, false), Err(Locked))
    else if p.None? then
      assert multiset([own]) == multiset{own};
      Out(Tree.Take(fs, own), Ok([own]))
    else
      var list := Hold(FilesLock(p.value), Exclusive);
      var up := SetModifying(fs, p.value, true);
      var down := SetModifying(fs, p.value, false);
      FlagTwice(fs, p.value, true, false);
      if !CanTake(Tree.Take(fs, own), list) then
        TakeRelease(down, own);
        Out(Release(Tree.Take(down, own), [own]), Err(Locked))
      else if !NameFreeBut(fs, Files(fs, p.value), f, name) then
        assert multiset([own, list]) == multiset{own, list};
        ReleaseTaken(down, [own, list]);
        Out(Release(down.(holds := fs.holds + multiset{own, list}), [own, list]), Err(NotUnique))
      else
        assert multiset([own, list]) == multiset{own, list};
        Out(up.(holds := fs.holds + multiset{own, list}), Ok([own, list]))
  }

  /** When rename gets past its locks and the uniqueness check. */
  predicate RenameGranted(fs: FS, f: NodeId, name: string)
    requires IsFile(fs, f) && ParentDir(fs, f)
  {
    && !fs.nodes[f].deleted && CanTake(fs, Hold(ContentLock(f), Exclusive))
    && (ParentOf(fs, f).Some? ==>
          && CanTake(Tree.Take(fs, Hold(ContentLock(f), Exclusive)), Hold(FilesLock(ParentOf(fs, f).value), Exclusive))
          && NameFreeBut(fs, Files(fs, ParentOf(fs, f).value), f, name))
  }

  /** rename(name) as written: an empty name is refused by the node's own
      rename after the locks are taken, and that exit gives back neither
      hold and leaves the parent's isModifying raised. */
  function RenameFile(fs: FS, f: NodeId, name: string, now: int): (r: Out<()>)
    requires IsFile(fs, f) && ParentDir(fs, f)
    ensures name != "" ==> r == RenameFileFixed(fs, f, name, now)
    ensures name == "" ==> (r.res.Ok? == false && (RenameGranted(fs, f, name) <==> r.res == Err(EmptyName)))
  {
    var g := RenameLocks(fs, f, name);
    if g.res.Err? then Out(g.fs, Err(g.res.error))
    else if name == "" then Out(g.fs, Err(EmptyName))
    else Out(SetFlagOf(Release(Renamed(g.fs, f, name, now), g.res.value), ParentOf(fs, f), false), Ok(()))
  }

  /** rename(name) with the cleanup also on the empty-name exit. */
  function RenameFileFixed(fs: FS, f: NodeId, name: string, now: int): (r: Out<()>)
    requires IsFile(fs, f) && ParentDir(fs, f)
    ensures fs.nodes[f].deleted ==> r == Out(fs, Err(AlreadyDeleted))
    ensures r.res.Ok? <==> name != "" && RenameGranted(fs, f, name)
    ensures r.res.Ok? ==> r.fs == SetFlagOf(Renamed(fs, f, name, now), ParentOf(fs, f), false)
    ensures r.res.Err? && !fs.nodes[f].deleted ==> r.fs == SetFlagOf(fs, ParentOf(fs, f), false)
  {
    var g := RenameLocks(fs, f, name);
    var p := ParentOf(fs, f);
    if g.res.Err? then
      assert !RenameGranted(fs, f, name);
      Out(g.fs, Err(g.res.error))
    else
      assert RenameGranted(fs, f, name);
      var held := g.res.value;
      var up := SetFlagOf(fs, p, true);
      ReleaseTaken(up, held);
      if name == "" then
        if p.Some? then
          FlagTwice(fs, p.value, true, false);
          Out(SetFlagOf(Release(g.fs, held), p, false), Err(EmptyName))
        else Out(SetFlagOf(Release(g.fs, held), p, false), Err(EmptyName))
      else
        RenamedFlag(fs, f, name, now, held);
        Out(SetFlagOf(Release(Renamed(g.fs, f, name, now), held), p, false), Ok(()))
  }

  /** Away from the empty name, rename as written and the corrected rename
      are the same operation: the leak is the only difference. */
  lemma RenameAgrees(fs: FS, f: NodeId, name: string, now: int)
    requires IsFile(fs, f) && ParentDir(fs, f) && name != ""
    ensures RenameFile(fs, f, name, now) == RenameFileFixed(fs, f, name, now)
  {
  }

  /** Renaming under a raised flag and with holds taken, then giving the
      holds back and lowering the flag, is renaming with the flag lowered. */
  lemma RenamedFlag(fs: FS, f: NodeId, name: string, now: int, held: seq<Hold>)
    requires IsFile(fs, f) && ParentDir(fs, f)
    ensures var p := ParentOf(fs, f);
      var up := SetFlagOf(fs, p, true).(holds := fs.holds + multiset(held));
      SetFlagOf(Release(Renamed(up, f, name, now), held), p, false) == SetFlagOf(Renamed(fs, f, name, now), p, false)
  {
    var p := ParentOf(fs, f);
    ReleaseTaken(fs, held);
    if p.Some? {
      var q := p.value;
      var up := SetModifying(fs, q, true).(holds := fs.holds + multiset(held));
      var a := SetModifying(Release(Renamed(up, f, name, now), held), q, false);
      var b := SetModifying(Renamed(fs, f, name, now), q, false);
      assert a.nodes == b.nodes;
    }
  }

  /** rename("") as written, once the locks are granted, exits with
      EmptyName holding the content write lock and, for a file with a
      parent, the parent's file-list write lock, and with the parent's
      isModifying still raised: every later open of the file is refused. */
  lemma RenameEmptyLeaks(fs: FS, f: NodeId, now: int)
    requires IsFile(fs, f) && ParentDir(fs, f) && RenameGranted(fs, f, "")
    ensures var r := RenameFile(fs, f, "", now);
      && r.res == Err(EmptyName)
      && r.fs.holds[Hold(ContentLock(f), Exclusive)] > fs.holds[Hold(ContentLock(f), Exclusive)]
      && OpenFile(r.fs, f, "r") == Out(r.fs, Err(Locked))
      && (ParentOf(fs, f).Some? ==>
            && Modifying(r.fs, ParentOf(fs, f).value)
            && r.fs.holds[Hold(FilesLock(ParentOf(fs, f).value), Exclusive)] > fs.holds[Hold(FilesLock(ParentOf(fs, f).value), Exclusive)])
  {
    var p := ParentOf(fs, f);
    if p.Some? {
      FlagShape(fs, p.value, true);
    }
  }

  /** One input that shows it: a file "a" in a directory, no lock held. */
  lemma RenameEmptyExample()
    ensures var fs := FS(map[0 := Node("d", None, false, true, DirKind([], [1])),
                              1 := Node("a", Some(0), false, false, FileKind(NONE, 0, 0))],
                         {}, multiset{}, 2, []);
      var r := RenameFile(fs, 1, "", 5);
      && r.res == Err(EmptyName) && r.fs.holds == multiset{Hold(ContentLock(1), Exclusive), Hold(FilesLock(0), Exclusive)}
      && Modifying(r.fs, 0)
  {
    var fs := FS(map[0 := Node("d", None, false, true, DirKind([], [1])),
                     1 := Node("a", Some(0), false, false, FileKind(NONE, 0, 0))],
                 {}, multiset{}, 2, []);
    assert RenameGranted(fs, 1, "");
    assert multiset([Hold(ContentLock(1), Exclusive), Hold(FilesLock(0), Exclusive)])
        == multiset{Hold(ContentLock(1), Exclusive), Hold(FilesLock(0), Exclusive)};
  }

  /** A rename keeps the names of the parent's files pairwise distinct. */
  lemma RenameKeepsUnique(fs: FS, f: NodeId, name: string, now: int)
    requires IsFile(fs, f) && ParentDir(fs, f) && ParentOf(fs, f).Some?
    requires Unique(fs, Files(fs, ParentOf(fs, f).value))
    requires RenameFileFixed(fs, f, name, now).res.Ok?
    ensures var r := RenameFileFixed(fs, f, name, now);
      var p := ParentOf(fs, f).value;
      IsDir(r.fs, p) && Files(r.fs, p) == Files(fs, p) && Unique(r.fs, Files(r.fs, p))
  {
    var p := ParentOf(fs, f).value;
    var r := RenameFileFixed(fs, f, name, now);
    var s := Files(fs, p);
    assert r.fs == SetModifying(Renamed(fs, f, name, now), p, false);
    assert IsDir(r.fs, p) && Files(r.fs, p) == s;
    forall k ensures NameOf(r.fs, k) == if k == f then name else NameOf(fs, k) {
    }
    UniqueRenamed(fs, r.fs, s, f, name);
  }

  // ---------------------------------------------------------------------------
  // move

  /** When move gets past its locks and the uniqueness check; `checkRoot`
      asks for the check also for a file without a parent. */
  predicate MoveGranted(fs: FS, f: NodeId, dest: NodeId, checkRoot: bool)
    requires IsFile(fs, f) && IsDir(fs, dest)
  {
    && !fs.nodes[f].deleted && CanTake(fs, Hold(ContentLock(f), Exclusive))
    && CanTake(Tree.Take(fs, Hold(ContentLock(f), Exclusive)), Hold(FilesLock(dest), Exclusive))
    && (ParentOf(fs, f).Some? || checkRoot ==> NameFree(fs, Files(fs, dest), NameOf(fs, f)))
  }

  /** move(destination) up to the flags it lowers at the end: the deleted
      check; the content write lock, then the destination's file-list
      write lock (a refusal gives the first back); the destination's
      isModifying raised, and the parent's; the name checked against the
      destination's files (only for a file with a parent, as written; a
      clash lowers both flags and gives the holds back); the file leaves its
      parent's list and joins the destination's; the holds go back. */
  function MovePasted(fs: FS, f: NodeId, dest: NodeId, checkRoot: bool): (r: Out<()>)
    requires IsFile(fs, f) && IsDir(fs, dest) && ParentDir(fs, f)
    ensures fs.nodes[f].deleted ==> r == Out(fs, Err(AlreadyDeleted))
    ensures r.res.Ok? <==> MoveGranted(fs, f, dest, checkRoot)
    ensures r.res.Err? && !fs.nodes[f].deleted ==>
              r.fs == fs || r.fs == SetFlagOf(SetModifying(fs, dest, false), ParentOf(fs, f), false)
    ensures !fs.nodes[f].deleted ==> r.fs.holds == fs.holds
    ensures r.res.Ok? ==> r.fs == Relink(SetFlagOf(SetModifying(fs, dest, true), ParentOf(fs, f), true), f, ParentOf(fs, f), dest)
  {
    var own := Hold(ContentLock(f), Exclusive);
    var list := Hold(FilesLock(dest), Exclusive);
    var p := ParentOf(fs, f);
    if fs.nodes[f].deleted then Out(fs, Err(AlreadyDeleted))
    else if !CanTake(fs, own) then Out(fs, Err(Locked))
    else if !CanTake(Tree.Take(fs, own), list) then
      TakeRelease(fs, own);
      Out(Release(Tree.Take(fs, own), [own]), Err(Locked))
    else
      assert multiset([own, list]) == multiset{own, list};
      if (p.Some? || checkRoot) && !NameFree(fs, Files(fs, dest), NameOf(fs, f)) then
        // both flags raised and lowered again
        var down := SetFlagOf(SetModifying(fs, dest, false), p, false);
        ReleaseTaken(down, [own, list]);
        Out(Release(down.(holds := fs.holds + multiset{own, list}), [own, list]), Err(NotUnique))
      else
        var moved := Relink(SetFlagOf(SetModifying(fs, dest, true), p, true), f, p, dest);
        ReleaseTaken(moved, [own, list]);
        Out(Release(moved.(holds := fs.holds + multiset{own, list}), [own, list]), Ok(()))
  }

  /** `rootDirectory.remove(this)` for a file with a parent, then
      `destination.paste(this)`. */
  function Relink(fs: FS, f: NodeId, p: Option<NodeId>, dest: NodeId): (r: FS)
    requires IsFile(fs, f) && IsDir(fs, dest) && (p.Some? ==> IsDir(fs, p.value))
    ensures IsFile(r, f) && IsDir(r, dest) && r.nodes[f].parent == Some(dest)
    ensures r.holds == fs.holds && r.flags == fs.flags && r.unused == fs.unused && r.disk == fs.disk
    ensures r.nodes.Keys == fs.nodes.Keys && forall k :: NameOf(r, k) == NameOf(fs, k)
    ensures p != Some(dest) ==> Files(r, dest) == Files(fs, dest) + [f]
    ensures p.Some? && p != Some(dest) ==>
              IsDir(r, p.value) && Files(r, p.value) == RemoveFirst(Files(fs, p.value), f)
  {
    var fs1 := if p.Some? then Detach(fs, p.value, f) else fs;
    assert IsFile(fs1, f) && IsDir(fs1, dest);
    assert p != Some(dest) ==> Files(fs1, dest) == Files(fs, dest);
    Paste(fs1, dest, f)
  }

  /** move(destination) as written: the flags lowered at the end are
      `rootDirectory`'s, which paste has just made the destination, so the
      destination's is lowered twice and the old parent's stays raised. */
  function MoveFile(fs: FS, f: NodeId, dest: NodeId): (r: Out<()>)
    requires IsFile(fs, f) && IsDir(fs, dest) && ParentDir(fs, f)
    ensures r.res.Ok? <==> MoveGranted(fs, f, dest, false)
    ensures !fs.nodes[f].deleted ==> r.fs.holds == fs.holds
  {
    var m := MovePasted(fs, f, dest, false);
    if m.res.Err? then m
    else Out(SetModifying(SetModifying(m.fs, dest, false), dest, false), Ok(()))
  }

  /** move(destination) with the old parent's isModifying lowered and the
      name checked for every file. */
  function MoveFileFixed(fs: FS, f: NodeId, dest: NodeId): (r: Out<()>)
    requires IsFile(fs, f) && IsDir(fs, dest) && ParentDir(fs, f)
    ensures fs.nodes[f].deleted ==> r == Out(fs, Err(AlreadyDeleted))
    ensures r.res.Ok? <==> MoveGranted(fs, f, dest, true)
    ensures r.res.Err? && !fs.nodes[f].deleted ==>
              r.fs == fs || r.fs == SetFlagOf(SetModifying(fs, dest, false), ParentOf(fs, f), false)
    ensures !fs.nodes[f].deleted ==> r.fs.holds == fs.holds
    ensures r.res.Ok? ==> r.fs.nodes == MovePasted(fs, f, dest, true).fs.nodes
    ensures r.res.Ok? ==> r.fs.flags == fs.flags - {dest} - (if ParentOf(fs, f).Some? then {ParentOf(fs, f).value} else {})
  {
    var m := MovePasted(fs, f, dest, true);
    if m.res.Err? then m
    else
      var p := ParentOf(fs, f);
      var last := SetModifying(SetFlagOf(m.fs, p, false), dest, false);
      assert m.fs.flags == fs.flags + {dest} + (if p.Some? then {p.value} else {});
      Out(last, Ok(()))
  }

  /** The corrected move on success: the file's parent is the destination,
      it is last in the destination's files and gone from its old parent's,
      every name is as before, and neither directory is left marked as
      being modified. */
  lemma MoveFixedRelinks(fs: FS, f: NodeId, dest: NodeId)
    requires IsFile(fs, f) && IsDir(fs, dest) && ParentDir(fs, f)
    requires MoveFileFixed(fs, f, dest).res.Ok?
    ensures var r := MoveFileFixed(fs, f, dest);
      && IsFile(r.fs, f) && r.fs.nodes[f].parent == Some(dest) && IsDir(r.fs, dest) && !Modifying(r.fs, dest)
      && (forall k :: NameOf(r.fs, k) == NameOf(fs, k))
      && (ParentOf(fs, f) != Some(dest) ==> Files(r.fs, dest) == Files(fs, dest) + [f])
    ensures var r := MoveFileFixed(fs, f, dest);
      ParentOf(fs, f).Some? ==> IsDir(r.fs, ParentOf(fs, f).value) && !Modifying(r.fs, ParentOf(fs, f).value)
    ensures var r := MoveFileFixed(fs, f, dest);
      ParentOf(fs, f).Some? && ParentOf(fs, f) != Some(dest) ==>
        Files(r.fs, ParentOf(fs, f).value) == RemoveFirst(Files(fs, ParentOf(fs, f).value), f)
  {
    var p := ParentOf(fs, f);
    var up := SetFlagOf(SetModifying(fs, dest, true), p, true);
    var m := MovePasted(fs, f, dest, true);
    assert up.nodes == fs.nodes && m.fs == Relink(up, f, p, dest);
    var r := MoveFileFixed(fs, f, dest);
    forall k ensures NameOf(r.fs, k) == NameOf(fs, k) {
      assert NameOf(m.fs, k) == NameOf(up, k);
    }
  }

  /** The as-written move leaves the old parent's isModifying raised: a
      file moved out of one directory into another marks its old directory
      as being modified for good. */
  lemma MoveLeavesFlag(fs: FS, f: NodeId, dest: NodeId)
    requires IsFile(fs, f) && IsDir(fs, dest) && ParentDir(fs, f)
    requires MoveGranted(fs, f, dest, false) && ParentOf(fs, f).Some? && ParentOf(fs, f) != Some(dest)
    ensures var r := MoveFile(fs, f, dest);
      r.res.Ok? && IsDir(r.fs, ParentOf(fs, f).value) && Modifying(r.fs, ParentOf(fs, f).value)
  {
  }

  /** The as-written move checks the name only for a file with a parent: a
      file without one joins a destination that already has a file of its
      name, and the destination's files are no longer unique. */
  lemma MoveRootDuplicates(fs: FS, f: NodeId, dest: NodeId, g: NodeId)
    requires IsFile(fs, f) && IsDir(fs, dest) && ParentOf(fs, f).None?
    requires MoveGranted(fs, f, dest, false)
    requires g in Files(fs, dest) && g != f && NameOf(fs, g) == NameOf(fs, f)
    ensures var r := MoveFile(fs, f, dest);
      r.res.Ok? && IsDir(r.fs, dest) && !Unique(r.fs, Files(r.fs, dest))
  {
    var r := MoveFile(fs, f, dest);
    var s := Files(fs, dest);
    var m := MovePasted(fs, f, dest, false);
    assert r.fs.nodes == m.fs.nodes;
    var i :| 0 <= i < |s| && s[i] == g;
    var t := Files(r.fs, dest);
    assert t == s + [f] && t[i] == g && t[|s|] == f;
    assert NameOf(r.fs, t[i]) == NameOf(r.fs, t[|s|]);
  }

  /** A concrete case: directory 0 holds a file 1 named "a", and a file 2
      also named "a" has no parent; move puts 2 next to 1. */
  lemma MoveRootExample()
    ensures var fs := FS(map[0 := Node("d", None, false, true, DirKind([], [1])),
                              1 := Node("a", Some(0), false, false, FileKind(NONE, 0, 0)),
                              2 := Node("a", None, false, false, FileKind(NONE, 0, 0))],
                         {}, multiset{}, 3, []);
      var r := MoveFile(fs, 2, 0);
      r.res.Ok? && IsDir(r.fs, 0) && Files(r.fs, 0) == [1, 2] && !Unique(r.fs, Files(r.fs, 0))
  {
    var fs := FS(map[0 := Node("d", None, false, true, DirKind([], [1])),
                     1 := Node("a", Some(0), false, false, FileKind(NONE, 0, 0)),
                     2 := Node("a", None, false, false, FileKind(NONE, 0, 0))],
                 {}, multiset{}, 3, []);
    assert MoveGranted(fs, 2, 0, false);
    MoveRootDuplicates(fs, 2, 0, 1);
  }

  /** The corrected move keeps the destination's file names unique, and
      the old parent's. */
  lemma MoveKeepsUnique(fs: FS, f: NodeId, dest: NodeId)
    requires IsFile(fs, f) && IsDir(fs, dest) && ParentDir(fs, f) && ParentOf(fs, f) != Some(dest)
    requires Unique(fs, Files(fs, dest))
    requires ParentOf(fs, f).Some? ==> Unique(fs, Files(fs, ParentOf(fs, f).value))
    requires MoveFileFixed(fs, f, dest).res.Ok?
    ensures var r := MoveFileFixed(fs, f, dest);
      && IsDir(r.fs, dest) && Unique(r.fs, Files(r.fs, dest))
      && (ParentOf(fs, f).Some? ==> IsDir(r.fs, ParentOf(fs, f).value) && Unique(r.fs, Files(r.fs, ParentOf(fs, f).value)))
  {
    var r := MoveFileFixed(fs, f, dest);
    MoveFixedRelinks(fs, f, dest);
    UniqueAppend(fs, r.fs, Files(fs, dest), f);
    if ParentOf(fs, f).Some? {
      var p := ParentOf(fs, f).value;
      UniqueRemoveFirst(fs, r.fs, Files(fs, p), f);
    }
  }

  // ---------------------------------------------------------------------------
  // clone and copy

  /** clone(destination): a new file of the same name whose parent is the
      destination (it is not yet in the destination's list), and, when
      the file has content, its bytes read out through open("r") and
      written into the new file through open("rw"). The new file's id is
      the result. */
  function CloneFile(fs: FS, f: NodeId, dest: NodeId, now: int): (r: Out<NodeId>)
    requires IsFile(fs, f)
    ensures fs.nodes[f].deleted ==> r == Out(fs, Err(AlreadyDeleted))
    ensures !fs.nodes[f].deleted && NameOf(fs, f) == "" ==> r == Out(fs, Err(EmptyName))
    ensures !fs.nodes[f].deleted && NameOf(fs, f) != "" && Content(fs, f) == NONE ==>
              r == Out(Alloc(fs, CloneNode(fs, f, dest, now)).0, Ok(fs.unused))
    ensures r.res.Ok? ==> r.res.value == fs.unused && r.fs.holds == fs.holds && r.fs.unused == fs.unused + 1
    ensures r.res.Ok? ==> SameOutline(Alloc(fs, CloneNode(fs, f, dest, now)).0, r.fs)
  {
    if fs.nodes[f].deleted then Out(fs, Err(AlreadyDeleted))
    else
      match NewNode(NameOf(fs, f), Some(dest), false, FileKind(NONE, now, now))
      case Err(e) => Out(fs, Err(e))
      case Ok(n) =>
        var (fs1, c) := Alloc(fs, n);
        if Content(fs1, f) == NONE then Out(fs1, Ok(c))
        else
          var w := CopyContent(fs1, f, c);
          if w.res.Err? then Out(w.fs, Err(w.res.error)) else Out(w.fs, Ok(c))
  }

  /** The node clone creates: the file's name, the destination as parent,
      no content, and both dates the clock reading. */
  function CloneNode(fs: FS, f: NodeId, dest: NodeId, now: int): Node {
    Node(NameOf(fs, f), Some(dest), false, false, FileKind(NONE, now, now))
  }

  /** The content half of clone: the source's bytes read out through
      open("r") and written into the copy through open("rw"). The copy
      keeps its name and parent, and every hold goes back. */
  function CopyContent(fs: FS, f: NodeId, c: NodeId): (r: Out<()>)
    requires IsFile(fs, f) && IsFile(fs, c)
    ensures r.res.Ok? ==> r.fs.holds == fs.holds && r.fs.unused == fs.unused && SameOutline(fs, r.fs)
  {
    var rd := ReadAllOf(fs, f);
    if rd.res.Err? then Out(rd.fs, Err(rd.res.error))
    else
      ShapeAt(SetContent(fs, f, Content(rd.fs, f)), rd.fs, c);
      ShapeOutline(SetContent(fs, f, Content(rd.fs, f)), rd.fs);
      ContentOutline(fs, f, Content(rd.fs, f));
      var w := WriteNewOf(rd.fs, c, rd.res.value);
      if w.res.Ok? then
        ShapeOutline(SetContent(rd.fs, c, Content(w.fs, c)), w.fs);
        ContentOutline(rd.fs, c, Content(w.fs, c));
        OutlineTrans(rd.fs, SetContent(rd.fs, c, Content(w.fs, c)), w.fs);
        OutlineTrans(fs, SetContent(fs, f, Content(rd.fs, f)), rd.fs);
        OutlineTrans(fs, rd.fs, w.fs);
        Out(w.fs, Ok(()))
      else Out(w.fs, Err(w.res.error))
  }

  /** open(mode) succeeds on a file whose content lock grants the mode,
      that reaches a container, whose stream opens and, for "rw", whose
      parent is a directory. */
  lemma OpenFileOk(fs: FS, f: NodeId, mode: string)
    requires IsFile(fs, f) && ModeOf(mode).Some? && CanTake(fs, Hold(ContentLock(f), ModeOf(mode).value))
    requires ModeOf(mode) == Some(Exclusive) ==> ParentOf(fs, f).Some? && IsDir(fs, ParentOf(fs, f).value)
    requires Reaches(fs, f, fs.unused) && Open(fs.disk, Content(fs, f)).Ok?
    ensures OpenFile(fs, f, mode).res.Ok?
  {
    var fs1 := Tree.Take(fs, Hold(ContentLock(f), ModeOf(mode).value));
    var fs2 := SetFlagOf(fs1, if mode == "rw" then ParentOf(fs, f) else None, true);
    assert fs2.nodes == fs.nodes;
    ShapeReaches(fs, fs2, f, fs.unused);
    assert FindVfs(fs2, f, fs2.unused).res.Ok?;
  }

  /** Writing a stored content into a file without content, whose parent
      is a directory and which reaches a container: the bytes are stored
      in blocks none of which was in use, the other stream keeps its
      content, and the parent's isModifying is lowered. */
  lemma WriteCloneStores(fs: FS, f: NodeId, c: NodeId, b: int, blocks: seq<int>, content: seq<byte>)
    returns (cloneBlocks: seq<int>)
    requires IsFile(fs, f) && IsFile(fs, c) && f != c && Content(fs, c) == NONE
    requires ParentOf(fs, c).Some? && IsDir(fs, ParentOf(fs, c).value)
    requires DiskOk(fs.disk, b) && Stored(fs.disk, b, blocks, content) && 0 < |content| && Room(fs.disk, b, |content|)
    requires CanTake(fs, Hold(ContentLock(c), Exclusive)) && Reaches(fs, c, fs.unused)
    ensures |cloneBlocks| > 0
    ensures var w := WriteNewOf(fs, c, content);
      && w.res.Ok? && w.fs.holds == fs.holds && DiskOk(w.fs.disk, b)
      && IsFile(w.fs, c) && Content(w.fs, c) == cloneBlocks[0]
      && Stored(w.fs.disk, b, cloneBlocks, content) && AllNew(fs.disk, b, cloneBlocks)
      && Stored(w.fs.disk, b, blocks, content)
      && SameShape(SetContent(fs, c, cloneBlocks[0]), w.fs)
      && !Modifying(w.fs, ParentOf(fs, c).value)
  {
    LoadNone(fs.disk, b);
    OpenFileOk(fs, c, "rw");
    cloneBlocks := StoreLoad(fs.disk, b, content);
    StoreKeepsOthers(fs.disk, b, content, blocks, content);
    WriteNewStores(fs, c, content);
  }

  /** The content half of clone on a stored, non-empty content shorter than
      2^31 bytes: the copy ends up with the same bytes in blocks that were
      all free before, the source keeps its head block and its bytes, and
      the copy's parent is left with isModifying lowered. */
  lemma CopyContentStores(fs: FS, f: NodeId, c: NodeId, b: int, blocks: seq<int>, content: seq<byte>)
    returns (cloneBlocks: seq<int>)
    requires IsFile(fs, f) && IsFile(fs, c) && f != c && Content(fs, c) == NONE
    requires ParentOf(fs, c).Some? && IsDir(fs, ParentOf(fs, c).value)
    requires DiskOk(fs.disk, b) && Stored(fs.disk, b, blocks, content) && Content(fs, f) == blocks[0]
    requires 0 < |content| < TWO_31 && Room(fs.disk, b, |content|)
    requires CanTake(fs, Hold(ContentLock(f), Shared)) && CanTake(fs, Hold(ContentLock(c), Exclusive))
    requires Reaches(fs, f, fs.unused) && Reaches(fs, c, fs.unused)
    ensures |cloneBlocks| > 0
    ensures var r := CopyContent(fs, f, c);
      && r.res.Ok? && r.fs.holds == fs.holds && DiskOk(r.fs.disk, b)
      && IsFile(r.fs, c) && Content(r.fs, c) == cloneBlocks[0]
      && Stored(r.fs.disk, b, cloneBlocks, content) && AllNew(fs.disk, b, cloneBlocks)
      && IsFile(r.fs, f) && Content(r.fs, f) == blocks[0] && Stored(r.fs.disk, b, blocks, content)
      && SameShape(SetContent(fs, c, cloneBlocks[0]), r.fs)
      && !Modifying(r.fs, ParentOf(fs, c).value)
  {
    OpenReads(fs.disk, b, blocks, content);
    OpenFileOk(fs, f, "r");
    ReadAllLoads(fs, f, b, blocks, content);
    var rd := ReadAllOf(fs, f);
    ShapeAt(fs, rd.fs, c);
    ShapeAt(fs, rd.fs, f);
    ShapeAt(fs, rd.fs, ParentOf(fs, c).value);
    ShapeReaches(fs, rd.fs, c, fs.unused);
    cloneBlocks := WriteCloneStores(rd.fs, f, c, b, blocks, content);
    var w := WriteNewOf(rd.fs, c, content);
    ShapeAt(SetContent(rd.fs, c, cloneBlocks[0]), w.fs, f);
    assert Content(w.fs, f) == Content(rd.fs, f);
    ContentShape(fs, rd.fs, c, cloneBlocks[0]);
    ShapeTrans(SetContent(fs, c, cloneBlocks[0]), SetContent(rd.fs, c, cloneBlocks[0]), w.fs);
    CopyContentDone(fs, f, c);
  }

  /** A read and a write that both succeed make up the content half of clone. */
  lemma CopyContentDone(fs: FS, f: NodeId, c: NodeId)
    requires IsFile(fs, f) && IsFile(fs, c)
    requires var rd := ReadAllOf(fs, f);
      rd.res.Ok? && IsFile(rd.fs, c) && WriteNewOf(rd.fs, c, rd.res.value).res.Ok?
    ensures var rd := ReadAllOf(fs, f);
      CopyContent(fs, f, c) == Out(WriteNewOf(rd.fs, c, rd.res.value).fs, Ok(()))
  {
  }

  /** Blocks none of which was in use and the blocks of a chain in use are
      apart: writes through one stream never touch the other's blocks. */
  lemma NewApart(d: Disk, b: int, made: seq<int>, kept: seq<int>)
    requires AllNew(d, b, made) && AllInUse(d, b, kept)
    ensures forall i, j | 0 <= i < |made| && 0 <= j < |kept| :: made[i] != kept[j]
  {
    forall i, j | 0 <= i < |made| && 0 <= j < |kept| ensures made[i] != kept[j] {
      assert NewAt(d, b, made, i) && InUseAt(d, b, kept, j);
    }
  }

  /** clone() of a file with a stored, non-empty content shorter than 2^31
      bytes, into a directory that reaches a container: the new file (the
      next unused id) has the file's name, the destination as parent and
      the same bytes, in blocks apart from the source's; the source keeps
      its head block and bytes; the destination's lists are untouched (the
      copy is not pasted), every hold goes back and the destination's
      isModifying is lowered by the write's close. */
  lemma CloneCopies(fs: FS, f: NodeId, dest: NodeId, now: int, b: int, blocks: seq<int>, content: seq<byte>)
    returns (cloneBlocks: seq<int>)
    requires IsFile(fs, f) && !fs.nodes[f].deleted && NameOf(fs, f) != "" && IsDir(fs, dest) && fs.unused !in fs.nodes
    requires DiskOk(fs.disk, b) && Stored(fs.disk, b, blocks, content) && Content(fs, f) == blocks[0]
    requires 0 < |content| < TWO_31 && Room(fs.disk, b, |content|)
    requires CanTake(fs, Hold(ContentLock(f), Shared)) && CanTake(fs, Hold(ContentLock(fs.unused), Exclusive))
    requires Reaches(fs, f, fs.unused) && Reaches(fs, dest, fs.unused)
    ensures |cloneBlocks| > 0
    ensures var r := CloneFile(fs, f, dest, now);
      var c := fs.unused;
      && r.res == Ok(c) && r.fs.holds == fs.holds
      && IsFile(r.fs, c) && NameOf(r.fs, c) == NameOf(fs, f) && r.fs.nodes[c].parent == Some(dest)
      && Content(r.fs, c) == cloneBlocks[0] && Load(r.fs.disk, cloneBlocks[0]) == Ok(content)
      && IsFile(r.fs, f) && Content(r.fs, f) == blocks[0] && Load(r.fs.disk, blocks[0]) == Ok(content)
      && (forall i, j | 0 <= i < |cloneBlocks| && 0 <= j < |blocks| :: cloneBlocks[i] != blocks[j])
      && IsDir(r.fs, dest) && Files(r.fs, dest) == Files(fs, dest) && !Modifying(r.fs, dest)
  {
    var n := CloneNode(fs, f, dest, now);
    var (fs1, c) := Alloc(fs, n);
    ReachesGrown(fs, fs1, f, fs.unused, fs1.unused);
    ReachesGrown(fs, fs1, dest, fs.unused, fs.unused);
    assert Reaches(fs1, c, fs1.unused);
    cloneBlocks := CopyContentStores(fs1, f, c, b, blocks, content);
    var w := CopyContent(fs1, f, c);
    assert InUseAt(fs.disk, b, blocks, 0);
    CloneStored(fs, f, dest, now);
    ShapeAt(SetContent(fs1, c, cloneBlocks[0]), w.fs, dest);
    ShapeAt(SetContent(fs1, c, cloneBlocks[0]), w.fs, c);
    LoadStored(w.fs.disk, b, cloneBlocks, content);
    LoadStored(w.fs.disk, b, blocks, content);
    NewApart(fs.disk, b, cloneBlocks, blocks);
  }

  /** clone() of a file with content is the content half on the new node. */
  lemma CloneStored(fs: FS, f: NodeId, dest: NodeId, now: int)
    requires IsFile(fs, f) && !fs.nodes[f].deleted && NameOf(fs, f) != "" && Content(fs, f) != NONE
    requires fs.unused !in fs.nodes
    ensures var w := CopyContent(Alloc(fs, CloneNode(fs, f, dest, now)).0, f, fs.unused);
      w.res.Ok? ==> CloneFile(fs, f, dest, now) == Out(w.fs, Ok(fs.unused))
  {
  }

  /** copy(destination): the file's content read lock, then the
      destination's file-list write lock (a refusal gives the first back);
      the destination's isModifying raised; clone; the copy pasted into the
      destination; the holds given back and the flag lowered. No name is
      checked. A failing clone leaves both holds and the flag behind, as the
      source has no finally block there. */
  function CopyFile(fs: FS, f: NodeId, dest: NodeId, now: int): (r: Out<NodeId>)
    requires IsFile(fs, f) && IsDir(fs, dest) && Arena(fs)
    ensures !CanTake(fs, Hold(ContentLock(f), Shared)) ==> r == Out(fs, Err(Locked))
    ensures CanTake(fs, Hold(ContentLock(f), Shared))
            && !CanTake(Tree.Take(fs, Hold(ContentLock(f), Shared)), Hold(FilesLock(dest), Exclusive)) ==>
              r == Out(fs, Err(Locked))
    ensures r.res.Ok? ==>
              && r.res.value == fs.unused && r.fs.holds == fs.holds
              && IsFile(r.fs, fs.unused) && NameOf(r.fs, fs.unused) == NameOf(fs, f) && r.fs.nodes[fs.unused].parent == Some(dest)
              && IsDir(r.fs, dest) && Files(r.fs, dest) == Files(fs, dest) + [fs.unused] && !Modifying(r.fs, dest)
  {
    var own := Hold(ContentLock(f), Shared);
    var list := Hold(FilesLock(dest), Exclusive);
    if !CanTake(fs, own) then Out(fs, Err(Locked))
    else if !CanTake(Tree.Take(fs, own), list) then
      TakeRelease(fs, own);
      Out(Release(Tree.Take(fs, own), [own]), Err(Locked))
    else
      var fs1 := SetModifying(Tree.Take(Tree.Take(fs, own), list), dest, true);
      var c := CloneFile(fs1, f, dest, now);
      if c.res.Err? then Out(c.fs, Err(c.res.error))
      else
        var id := c.res.value;
        OutlineAt(Alloc(fs1, CloneNode(fs1, f, dest, now)).0, c.fs, dest);
        OutlineAt(Alloc(fs1, CloneNode(fs1, f, dest, now)).0, c.fs, id);
        assert multiset([own, list]) == multiset{own, list};
        Out(Pasted(c.fs, dest, id, [own, list]), Ok(id))
  }

  /** The end of copy: the new node pasted into the destination, the holds
      given back, the destination's isModifying lowered. */
  function Pasted(fs: FS, dest: NodeId, c: NodeId, held: seq<Hold>): (r: FS)
    requires IsDir(fs, dest) && c in fs.nodes
    ensures IsDir(r, dest) && c in r.nodes && r.nodes[c].parent == Some(dest) && r.nodes[c].name == fs.nodes[c].name
    ensures r.holds == fs.holds - multiset(held) && !Modifying(r, dest)
    ensures fs.nodes[c].kind.FileKind? ==> Files(r, dest) == Files(fs, dest) + [c] && Dirs(r, dest) == Dirs(fs, dest)
    ensures fs.nodes[c].kind.DirKind? ==> Dirs(r, dest) == Dirs(fs, dest) + [c] && Files(r, dest) == Files(fs, dest)
  {
    SetModifying(Release(Paste(fs, dest, c), held), dest, false)
  }

  /** copy(destination) of a file with a stored, non-empty content shorter
      than 2^31 bytes, when both locks are free to take: the copy (the next
      unused id) is pasted at the end of the destination's file list and
      holds the same bytes in blocks apart from the source's; the source
      keeps its head block and bytes; the file list of any other directory,
      the source's own parent included, is left as it was; every hold goes
      back and the destination's isModifying ends lowered. */
  lemma CopyCopies(fs: FS, f: NodeId, dest: NodeId, now: int, b: int, blocks: seq<int>, content: seq<byte>)
    returns (cloneBlocks: seq<int>)
    requires IsFile(fs, f) && !fs.nodes[f].deleted && NameOf(fs, f) != "" && IsDir(fs, dest) && Arena(fs)
    requires DiskOk(fs.disk, b) && Stored(fs.disk, b, blocks, content) && Content(fs, f) == blocks[0]
    requires 0 < |content| < TWO_31 && Room(fs.disk, b, |content|)
    requires CanTake(fs, Hold(ContentLock(f), Shared)) && CanTake(fs, Hold(FilesLock(dest), Exclusive))
    requires CanTake(fs, Hold(ContentLock(fs.unused), Exclusive))
    requires Reaches(fs, f, fs.unused) && Reaches(fs, dest, fs.unused)
    ensures |cloneBlocks| > 0
    ensures var r := CopyFile(fs, f, dest, now);
      var c := fs.unused;
      && r.res == Ok(c) && r.fs.holds == fs.holds
      && IsFile(r.fs, c) && NameOf(r.fs, c) == NameOf(fs, f) && r.fs.nodes[c].parent == Some(dest)
      && Content(r.fs, c) == cloneBlocks[0] && Load(r.fs.disk, cloneBlocks[0]) == Ok(content)
      && IsFile(r.fs, f) && Content(r.fs, f) == blocks[0] && Load(r.fs.disk, blocks[0]) == Ok(content)
      && (forall i, j | 0 <= i < |cloneBlocks| && 0 <= j < |blocks| :: cloneBlocks[i] != blocks[j])
      && IsDir(r.fs, dest) && Files(r.fs, dest) == Files(fs, dest) + [c] && !Modifying(r.fs, dest)
      && (forall p | IsDir(fs, p) && p != dest :: IsDir(r.fs, p) && Files(r.fs, p) == Files(fs, p))
  {
    var own := Hold(ContentLock(f), Shared);
    var list := Hold(FilesLock(dest), Exclusive);
    var fs1 := SetModifying(Tree.Take(Tree.Take(fs, own), list), dest, true);
    CopyReady(fs, f, dest);
    cloneBlocks := CloneCopies(fs1, f, dest, now, b, blocks, content);
    CopyPastes(fs, f, dest, now);
    var cl := CloneFile(fs1, f, dest, now);
    CloneKeepsLists(fs1, f, dest, now);
    forall p | IsDir(fs, p) ensures IsDir(cl.fs, p) && Files(cl.fs, p) == Files(fs, p) {
      assert IsDir(fs1, p) && Files(fs1, p) == Files(fs, p);
    }
    assert NameOf(cl.fs, fs.unused) == NameOf(fs, f);
    assert cl.fs.holds == fs.holds + multiset{own} + multiset{list};
    CopyAssembled(fs, cl.fs, f, dest, b, blocks, cloneBlocks, content);
  }

  /** The paste that ends copy(destination), from the clone's outcome. */
  lemma CopyAssembled(fs: FS, cfs: FS, f: NodeId, dest: NodeId, b: int, blocks: seq<int>, cloneBlocks: seq<int>, content: seq<byte>)
    requires IsDir(fs, dest) && Arena(fs) && f in fs.nodes && |cloneBlocks| > 0 && |blocks| > 0
    requires cfs.holds == fs.holds + multiset{Hold(ContentLock(f), Shared)} + multiset{Hold(FilesLock(dest), Exclusive)}
    requires var c := fs.unused;
      && IsFile(cfs, c) && NameOf(cfs, c) == NameOf(fs, f) && cfs.nodes[c].parent == Some(dest)
      && Content(cfs, c) == cloneBlocks[0] && Load(cfs.disk, cloneBlocks[0]) == Ok(content)
      && IsFile(cfs, f) && Content(cfs, f) == blocks[0] && Load(cfs.disk, blocks[0]) == Ok(content)
      && IsDir(cfs, dest) && Files(cfs, dest) == Files(fs, dest)
      && (forall p | IsDir(fs, p) :: IsDir(cfs, p) && Files(cfs, p) == Files(fs, p))
    ensures var r := Pasted(cfs, dest, fs.unused, [Hold(ContentLock(f), Shared), Hold(FilesLock(dest), Exclusive)]);
      var c := fs.unused;
      && r.holds == fs.holds
      && IsFile(r, c) && NameOf(r, c) == NameOf(fs, f) && r.nodes[c].parent == Some(dest)
      && Content(r, c) == cloneBlocks[0] && Load(r.disk, cloneBlocks[0]) == Ok(content)
      && IsFile(r, f) && Content(r, f) == blocks[0] && Load(r.disk, blocks[0]) == Ok(content)
      && IsDir(r, dest) && Files(r, dest) == Files(fs, dest) + [c] && !Modifying(r, dest)
      && (forall p | IsDir(fs, p) && p != dest :: IsDir(r, p) && Files(r, p) == Files(fs, p))
  {
    var own := Hold(ContentLock(f), Shared);
    var list := Hold(FilesLock(dest), Exclusive);
    var c := fs.unused;
    assert multiset([own, list]) == multiset{own, list};
    PastedKeeps(cfs, dest, c, [own, list]);
    var r := Pasted(cfs, dest, c, [own, list]);
    assert r.nodes[f] == cfs.nodes[f];
    forall p | IsDir(fs, p) && p != dest ensures IsDir(r, p) && Files(r, p) == Files(fs, p) {
      assert IsDir(cfs, p) && p != c;
      assert r.nodes[p] == cfs.nodes[p];
    }
  }

  /** A clone that succeeds leaves every directory's lists as they were. */
  lemma CloneKeepsLists(fs: FS, f: NodeId, dest: NodeId, now: int)
    requires IsFile(fs, f) && Arena(fs) && CloneFile(fs, f, dest, now).res.Ok?
    ensures var r := CloneFile(fs, f, dest, now);
      forall p | IsDir(fs, p) :: IsDir(r.fs, p) && Files(r.fs, p) == Files(fs, p)
  {
    var a := Alloc(fs, CloneNode(fs, f, dest, now)).0;
    forall p | IsDir(fs, p)
      ensures IsDir(CloneFile(fs, f, dest, now).fs, p) && Files(CloneFile(fs, f, dest, now).fs, p) == Files(fs, p)
    {
      assert a.nodes[p] == fs.nodes[p];
      OutlineAt(a, CloneFile(fs, f, dest, now).fs, p);
    }
  }

  /** The tree copy(destination) hands to clone once both its locks are
      taken: the same nodes and disk, and clone's own locks still free. */
  lemma CopyReady(fs: FS, f: NodeId, dest: NodeId)
    requires IsFile(fs, f) && IsDir(fs, dest) && Arena(fs)
    requires CanTake(fs, Hold(ContentLock(f), Shared)) && CanTake(fs, Hold(ContentLock(fs.unused), Exclusive))
    requires Reaches(fs, f, fs.unused) && Reaches(fs, dest, fs.unused)
    ensures var fs1 := SetModifying(Tree.Take(Tree.Take(fs, Hold(ContentLock(f), Shared)), Hold(FilesLock(dest), Exclusive)), dest, true);
      && fs1.nodes == fs.nodes && fs1.disk == fs.disk && fs1.unused == fs.unused
      && CanTake(fs1, Hold(ContentLock(f), Shared)) && CanTake(fs1, Hold(ContentLock(fs.unused), Exclusive))
      && Reaches(fs1, f, fs.unused) && Reaches(fs1, dest, fs.unused)
  {
    var own := Hold(ContentLock(f), Shared);
    var list := Hold(FilesLock(dest), Exclusive);
    var fs1 := SetModifying(Tree.Take(Tree.Take(fs, own), list), dest, true);
    assert fs1.holds == fs.holds + multiset{own} + multiset{list};
    assert fs1.holds[Hold(ContentLock(f), Exclusive)] == fs.holds[Hold(ContentLock(f), Exclusive)];
    assert f != fs.unused;
    assert fs1.holds[Hold(ContentLock(fs.unused), Exclusive)] == fs.holds[Hold(ContentLock(fs.unused), Exclusive)];
    assert fs1.holds[Hold(ContentLock(fs.unused), Shared)] == fs.holds[Hold(ContentLock(fs.unused), Shared)];
    ReachesGrown(fs, fs1, f, fs.unused, fs.unused);
    ReachesGrown(fs, fs1, dest, fs.unused, fs.unused);
  }

  /** copy(destination) whose locks are granted and whose clone succeeds is
      the clone pasted, with both holds given back. */
  lemma CopyPastes(fs: FS, f: NodeId, dest: NodeId, now: int)
    requires IsFile(fs, f) && IsDir(fs, dest) && Arena(fs)
    requires CanTake(fs, Hold(ContentLock(f), Shared)) && CanTake(fs, Hold(FilesLock(dest), Exclusive))
    requires var fs1 := SetModifying(Tree.Take(Tree.Take(fs, Hold(ContentLock(f), Shared)), Hold(FilesLock(dest), Exclusive)), dest, true);
      CloneFile(fs1, f, dest, now).res == Ok(fs.unused)
    ensures var fs1 := SetModifying(Tree.Take(Tree.Take(fs, Hold(ContentLock(f), Shared)), Hold(FilesLock(dest), Exclusive)), dest, true);
      var cl := CloneFile(fs1, f, dest, now);
      IsDir(cl.fs, dest) && fs.unused in cl.fs.nodes
      && CopyFile(fs, f, dest, now) == Out(Pasted(cl.fs, dest, fs.unused, [Hold(ContentLock(f), Shared), Hold(FilesLock(dest), Exclusive)]), Ok(fs.unused))
  {
    var fs1 := SetModifying(Tree.Take(Tree.Take(fs, Hold(ContentLock(f), Shared)), Hold(FilesLock(dest), Exclusive)), dest, true);
    assert fs1.nodes == fs.nodes && fs1.unused == fs.unused;
    var a := Alloc(fs1, CloneNode(fs1, f, dest, now)).0;
    OutlineAt(a, CloneFile(fs1, f, dest, now).fs, dest);
    OutlineAt(a, CloneFile(fs1, f, dest, now).fs, fs.unused);
  }

  /** Pasting a file leaves every other node as it was, and the disk. */
  lemma PastedKeeps(fs: FS, dest: NodeId, c: NodeId, held: seq<Hold>)
    requires IsDir(fs, dest) && c in fs.nodes && c != dest
    ensures var r := Pasted(fs, dest, c, held);
      && r.disk == fs.disk && r.nodes.Keys == fs.nodes.Keys
      && (forall k | k in fs.nodes && k != dest && k != c :: r.nodes[k] == fs.nodes[k])
      && r.nodes[c].kind == fs.nodes[c].kind
  {
  }
}
