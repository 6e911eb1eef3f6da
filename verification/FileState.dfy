/**
 Entries of the open file cache as values: who owns a descriptor, who holds a
 handle to it, and what an entry may look like (src/core/ngx_open_file_cache.c).
 */
module FileState {

  const INVALID: int := -1
  const USES_WRAP: nat := 0x1_0000_0000

  /** ngx_cached_open_file_t.  `info` stands for mtime, size and the file type
      flags, `links` for the symlink settings; vnode events are not in use. */
  datatype File = File(created: int, accessed: int, fd: int, uniq: int, info: int, links: int,
                       err: nat, uses: nat, count: nat, close: bool, isDir: bool)

  /** ngx_open_file_info_t */
  datatype OpenInfo = OpenInfo(fd: int, uniq: int, info: int, links: int, err: nat,
                               valid: int, minUses: nat, testDir: bool, errors: bool, isDir: bool)

  /** What the file system says of a name: an error number, or a file. */
  datatype Answer = Absent(err: nat) | Present(uniq: int, info: int, isDir: bool)

  /** A caller's cleanup: the entry and the descriptor it was given. */
  datatype Handle = Handle(file: int, fd: int)

  type Files = map<int, File>

  // ----------------------------------------------------------------- entries

  /** An entry is in the cache, or detached and kept for its handles.  Flags of an
      entry that caches an error mean nothing. */
  predicate Shape(f: File, cached: bool, leaving: bool) {
    && (f.err != 0 || f.isDir ==> f.fd == INVALID && f.count == 0)
    && (f.count > 0 ==> f.fd != INVALID)
    && (leaving || if cached then f.err == 0 ==> !f.close else f.close && f.err == 0 && !f.isDir && f.count > 0)
  }

  ghost predicate Shaped(files: Files, order: seq<int>, leaving: set<int>) {
    && (forall x :: x in files ==> Shape(files[x], x in order, x in leaving))
    && (forall x :: x in order ==> x in files)
  }

  /** Every descriptor has one owner among the entries. */
  ghost predicate Owned(files: Files, owner: map<int, int>) {
    && (forall x :: x in files && files[x].fd != INVALID ==> files[x].fd in owner && owner[files[x].fd] == x)
    && (forall fd :: fd in owner ==> fd != INVALID && owner[fd] in files && files[owner[fd]].fd == fd)
  }

  /** An entry counts its handles, and they all hold the descriptor it has. */
  ghost predicate Counted(files: Files, handles: multiset<Handle>) {
    && (forall x :: x in files ==> files[x].count == handles[Handle(x, files[x].fd)])
    && (forall h :: h in handles ==> h.file in files && files[h.file].fd == h.fd)
  }

  /** Entry x owns fd from now on, and nothing else. */
  ghost function Claim(owner: map<int, int>, x: int, fd: int): map<int, int> {
    var others := map d | d in owner && owner[d] != x :: owner[d];
    if fd == INVALID then others else others[fd := x]
  }

  lemma ClaimKeys(files: Files, owner: map<int, int>, x: int, fd: int)
    requires Owned(files, owner) && x in files
    ensures Claim(owner, x, fd).Keys == owner.Keys - {files[x].fd} + if fd == INVALID then {} else {fd}
  {
    var c := Claim(owner, x, fd);
    forall d ensures d in c.Keys <==> d in owner.Keys - {files[x].fd} || (fd != INVALID && d == fd) {
    }
  }

  lemma ClaimFresh(files: Files, owner: map<int, int>, x: int, fd: int)
    requires Owned(files, owner) && x !in files
    ensures Claim(owner, x, fd).Keys == owner.Keys + if fd == INVALID then {} else {fd}
  {
    var c := Claim(owner, x, fd);
    forall d ensures d in c.Keys <==> d in owner.Keys || (fd != INVALID && d == fd) {
    }
  }

  /** The handles of entry x became those of its new contents f. */
  ghost predicate Recounted(handles: multiset<Handle>, handles': multiset<Handle>, x: int, f: File) {
    && (forall h: Handle :: h.file != x ==> handles'[h] == handles[h])
    && (forall h: Handle :: h.file == x && h.fd != f.fd ==> handles'[h] == 0)
    && handles'[Handle(x, f.fd)] == f.count
  }

  /** An entry is written, or a new one made. */
  lemma SetEntry(files: Files, owner: map<int, int>, handles: multiset<Handle>, handles': multiset<Handle>, x: int,
                 f: File)
    requires Owned(files, owner) && Counted(files, handles)
    requires f.fd != INVALID && f.fd in owner ==> owner[f.fd] == x
    requires Recounted(handles, handles', x, f)
    ensures Owned(files[x := f], Claim(owner, x, f.fd)) && Counted(files[x := f], handles')
  {
    hide Owned, Counted, Recounted, Claim;
    SetOwner(files, owner, x, f);
    SetCount(files, handles, handles', x, f);
  }

  lemma SetOwner(files: Files, owner: map<int, int>, x: int, f: File)
    requires Owned(files, owner) && (f.fd != INVALID && f.fd in owner ==> owner[f.fd] == x)
    ensures Owned(files[x := f], Claim(owner, x, f.fd))
  {
  }

  lemma SetCount(files: Files, handles: multiset<Handle>, handles': multiset<Handle>, x: int, f: File)
    requires Counted(files, handles) && Recounted(handles, handles', x, f)
    ensures Counted(files[x := f], handles')
  {
  }

  lemma DropOwner(files: Files, owner: map<int, int>, x: int)
    requires Owned(files, owner) && x in files
    ensures Owned(files - {x}, Claim(owner, x, INVALID))
  {
  }

  /** An entry is freed. */
  lemma DropEntry(files: Files, owner: map<int, int>, handles: multiset<Handle>, x: int)
    requires Owned(files, owner) && Counted(files, handles) && x in files && files[x].count == 0
    ensures Owned(files - {x}, Claim(owner, x, INVALID)) && Counted(files - {x}, handles)
  {
    assert handles[Handle(x, files[x].fd)] == 0;
  }

  /** Nobody holds the descriptor of an entry without handles. */
  lemma NotHeld(files: Files, owner: map<int, int>, handles: multiset<Handle>, x: int)
    requires Owned(files, owner) && Counted(files, handles) && x in files && files[x].count == 0
    requires files[x].fd != INVALID
    ensures forall h :: h in handles ==> h.fd != files[x].fd
  {
    forall h | h in handles ensures h.fd != files[x].fd {
      assert h == Handle(h.file, files[h.file].fd);
    }
  }

  /** A held descriptor is owned by the entry of the handle, which is not free. */
  lemma HeldIsOwned(files: Files, owner: map<int, int>, handles: multiset<Handle>, order: seq<int>,
                    leaving: set<int>, h: Handle)
    requires Owned(files, owner) && Counted(files, handles) && Shaped(files, order, leaving) && h in handles
    ensures h.fd != INVALID && h.fd in owner && owner[h.fd] == h.file && h.file in files && files[h.file].count > 0
  {
    assert Handle(h.file, files[h.file].fd) == h;
  }

  lemma SameHandles(files: Files, handles: multiset<Handle>, x: int, f: File)
    requires Counted(files, handles) && x in files && f.count == files[x].count && (f.fd == files[x].fd || f.count == 0)
    ensures Recounted(handles, handles, x, f)
  {
    assert handles[Handle(x, files[x].fd)] == files[x].count;
  }

  /** A caller is given a handle. */
  lemma MoreHandles(files: Files, handles: multiset<Handle>, x: int, f: File)
    requires Counted(files, handles) && x in files && f.count == files[x].count + 1
               && (f.fd == files[x].fd || files[x].count == 0)
    ensures Recounted(handles, handles + multiset{Handle(x, f.fd)}, x, f)
  {
    assert handles[Handle(x, files[x].fd)] == files[x].count;
  }

  lemma LessHandles(files: Files, handles: multiset<Handle>, x: int, f: File)
    requires Counted(files, handles) && x in files && f.count + 1 == files[x].count && f.fd == files[x].fd
    ensures Recounted(handles, handles - multiset{Handle(x, f.fd)}, x, f)
  {
    assert handles[Handle(x, files[x].fd)] == files[x].count;
  }

  lemma SetShape(files: Files, order: seq<int>, leaving: set<int>, x: int, f: File)
    requires Shaped(files, order, leaving) && Shape(f, x in order, x in leaving)
    ensures Shaped(files[x := f], order, leaving)
  {
  }

  // ------------------------------------------------------------- the file system

  /** Nothing happens to the file between the two questions of one call. */
  predicate Steady(stat: Answer, open: Answer) { stat.Present? && open.Present? ==> stat == open }

  function Seen(of: OpenInfo, fd: int, a: Answer): OpenInfo
    requires a.Present?
  {
    of.(fd := fd, uniq := a.uniq, info := a.info, isDir := a.isDir)
  }

  /** ngx_open_and_stat_file: whether it succeeds, and what it reports; `newFd` is
      the descriptor that the system would open. */
  function Stat(of: OpenInfo, stat: Answer, open: Answer, newFd: int): (bool, OpenInfo) {
    if (of.fd != INVALID || of.testDir) && stat.Absent? then
      (false, of.(fd := INVALID, err := stat.err))
    else if of.fd != INVALID && of.uniq == stat.uniq then
      (true, Seen(of, of.fd, stat))
    else if of.fd == INVALID && of.testDir && stat.isDir then
      (true, Seen(of, of.fd, stat))
    else if open.Absent? then
      (false, of.(fd := INVALID, err := open.err))
    else if open.isDir then
      (true, Seen(of, INVALID, open))
    else
      (true, Seen(of, newFd, open))
  }

  /** The unique number tells the open file from any directory. */
  predicate Telling(of: OpenInfo, stat: Answer) {
    of.fd != INVALID && stat.Present? && stat.uniq == of.uniq ==> !stat.isDir
  }

  /** A descriptor stays only with a regular file; it is the old one exactly when
      the file is still the one it was opened for. */
  lemma StatFacts(of: OpenInfo, stat: Answer, open: Answer, newFd: int)
    requires Steady(stat, open) && newFd != INVALID && newFd != of.fd && of.err == 0 && !of.isDir
    ensures var (ok, of') := Stat(of, stat, open, newFd);
            && (of'.fd == INVALID || of'.fd == of.fd || of'.fd == newFd)
            && (ok ==> of'.err == 0) && (!ok ==> of'.fd == INVALID && !of'.isDir)
            && of'.errors == of.errors && of'.minUses == of.minUses
    ensures var (ok, of') := Stat(of, stat, open, newFd);
            && (ok && Telling(of, stat) ==> (of'.fd == INVALID <==> of'.isDir))
            && (ok && of.fd != INVALID && !of'.isDir ==> (of'.fd == of.fd <==> of'.uniq == of.uniq))
  {
  }

  /** Otherwise a directory could come with the descriptor of a file: the number is
      an inode number, and another device may have the same one. */
  lemma StatMistaken(of: OpenInfo, stat: Answer, open: Answer, newFd: int)
    requires Steady(stat, open) && newFd != INVALID && newFd != of.fd && of.err == 0 && !of.isDir
    ensures var (ok, of') := Stat(of, stat, open, newFd);
            !Telling(of, stat) <==> ok && of'.isDir && of'.fd != INVALID
  {
  }

  lemma FirstHandle(files: Files, handles: multiset<Handle>, x: int, f: File)
    requires Counted(files, handles) && x !in files && f.count <= 1
    ensures Recounted(handles, handles + if f.count == 1 then multiset{Handle(x, f.fd)} else multiset{}, x, f)
  {
  }

  lemma LooseNotHeld(files: Files, owner: map<int, int>, handles: multiset<Handle>, order: seq<int>,
                     leaving: set<int>, fd: int)
    requires Owned(files, owner) && Counted(files, handles) && Shaped(files, order, leaving) && fd !in owner
    ensures forall h :: h in handles ==> h.fd != fd
  {
    forall h | h in handles ensures h.fd != fd {
      HeldIsOwned(files, owner, handles, order, leaving, h);
    }
  }
}
