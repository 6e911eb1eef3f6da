/**
 The open file cache of src/core/ngx_open_file_cache.c: a tree of entries by name,
 a queue by last use, and reference-counted descriptors.

 The operating system's open descriptors, the owner of each and the handles that
 callers hold are kept as ghost state beside the fields of the source.  What the
 file system answers is given with each call; memory allocation may fail.
 */
module FileCache {
  import opened RbShape
  import opened RbMemory
  import opened RbTree
  import opened FileKeys
  import opened FileState
  import Circular
  import Queue

  const COUNT_WRAP: nat := 0x100_0000   // `count` is a field of 24 bits

  // ------------------------------------------------------------- the index

  /** Cached entries have different names, each under its hash. */
  ghost predicate Named(hash: Name -> int, ks: seq<Key>, l: seq<int>) {
    && (forall x :: x in l ==> 0 <= x < |ks| && ks[x].hash == hash(ks[x].name))
    && (forall x, y :: x in l && y in l && x != y ==> ks[x] != ks[y])
  }

  ghost predicate NotNamed(ks: seq<Key>, l: seq<int>, k: Key) {
    forall x :: x in l ==> 0 <= x < |ks| && ks[x] != k
  }

  lemma NamedLess(hash: Name -> int, ks: seq<Key>, ks': seq<Key>, l: seq<int>, l': seq<int>)
    requires Named(hash, ks, l) && |ks'| == |ks|
               && forall x :: x in l' ==> x in l && (0 <= x < |ks| ==> ks'[x] == ks[x])
    ensures Named(hash, ks', l')
  {
  }

  lemma NamedMore(hash: Name -> int, ks: seq<Key>, ks': seq<Key>, l: seq<int>, l': seq<int>, id: int)
    requires Named(hash, ks, l) && |ks'| == |ks| && 0 <= id < |ks| && forall x :: x in l' <==> x in l || x == id
    requires forall x :: 0 <= x < |ks| && x != id ==> ks'[x] == ks[x]
    requires id !in l && NotNamed(ks, l, ks'[id]) && ks'[id].hash == hash(ks'[id].name)
    ensures Named(hash, ks', l')
  {
  }

  lemma TakenOut(l: seq<int>, k: nat)
    requires k < |l|
    ensures multiset(l[..k] + l[k + 1..]) + multiset{l[k]} == multiset(l)
  {
    assert l == l[..k] + [l[k]] + l[k + 1..];
  }

  lemma PutIn(l: seq<int>, k: nat, x: int)
    requires k <= |l|
    ensures multiset(l[..k] + [x] + l[k..]) == multiset(l) + multiset{x}
  {
    assert l == l[..k] + l[k..];
  }

  lemma MultisetMembers(a: seq<int>, b: seq<int>, off: multiset<int>)
    requires multiset(a) + off == multiset(b)
    ensures forall x :: x in b <==> x in a || x in off
    ensures |a| + |off| == |b|
  {
    assert forall x :: x in b <==> x in multiset(b);
    assert forall x :: x in a <==> x in multiset(a);
    assert |multiset(a) + off| == |multiset(b)|;
  }

  lemma OffQueue(items: seq<int>, l: seq<int>, x: int)
    requires multiset(items) + multiset{x} == multiset(l) && forall i, j :: 0 <= i < j < |l| ==> l[i] != l[j]
    ensures x !in items && x in l
  {
    assert x in multiset(l);
    var i :| 0 <= i < |l| && l[i] == x;
    assert l == l[..i] + [x] + l[i + 1..];
    assert multiset(l) == multiset(l[..i]) + multiset{x} + multiset(l[i + 1..]);
    assert x !in l[..i] && x !in l[i + 1..];
    assert multiset(items)[x] == 0;
  }

  // ------------------------------------------------------------- the cache

  /** `update`: what an entry becomes when the file was looked at again. */
  function Updated(f: File, of: OpenInfo, now: int): File {
    var f1 := f.(fd := of.fd, err := of.err, links := of.links, created := now);
    if of.err != 0 then f1
    else
      f1.(uniq := of.uniq, info := of.info, close := false, isDir := of.isDir,
          count := if of.isDir then f.count else (f.count + 1) % COUNT_WRAP)
  }

  /** What becomes of an entry when a handle to it is given back, or it is expired. */
  function Rested(f: File, minUses: nat, now: int): File {
    if f.close then f
    else if f.uses >= minUses || f.count > 0 then f.(accessed := now)
    else f.(accessed := now, fd := INVALID)
  }

  /** The entry can be believed without asking the file system. */
  predicate Trusted(f: File, of: OpenInfo, now: int) {
    (of.uniq == 0 || of.uniq == f.uniq) && now - f.created < of.valid && of.links == f.links
  }

  /** What was looked at can go into the entry f. */
  predicate Fitting(f: File, of: OpenInfo) {
    && (of.err != 0 ==> !of.isDir)
    && if of.err != 0 || of.isDir then of.fd == INVALID && f.fd == INVALID && f.count == 0
       else of.fd != INVALID && (f.fd == of.fd || f.fd == INVALID)
  }

  ghost function Loose(of: OpenInfo): set<int> { if of.fd == INVALID then {} else {of.fd} }

  /** The descriptor of the entry was closed for little use. */
  predicate Shut(f: File) { f.fd == INVALID && f.err == 0 && !f.isDir }

  /** What an entry that is believed says. */
  function FromEntry(f: File, given: OpenInfo): OpenInfo {
    if f.err != 0 then given.(err := f.err) else Seen(given, f.fd, Present(f.uniq, f.info, f.isDir))
  }

  /** What the file system is asked about an entry that is not. */
  function Question(f: File, given: OpenInfo): OpenInfo {
    if Shut(f) then given else given.(testDir := given.testDir || f.isDir, fd := f.fd, uniq := f.uniq)
  }

  /** The use count has room for one more, and if the file system is asked at all, the
      unique number tells the open file from a directory. */
  predicate Safe(f: File, given: OpenInfo, now: int, stat: Answer) {
    f.count + 1 < COUNT_WRAP && (Shut(f) || Trusted(f, given, now) || Telling(Question(f, given), stat))
  }

  /** The answer is an error that is not to be cached. */
  predicate Refused(ok: bool, of: OpenInfo) { !ok && (of.err == 0 || !of.errors) }

  /** There is another file now, and the old one is still in use. */
  predicate Changed(f: File, of: OpenInfo) {
    !Shut(f) && f.err == 0 && !f.isDir && f.count > 0 && !(of.err == 0 && !of.isDir && of.uniq == f.uniq)
  }

  /** There is another file now, and the old one is closed at once. */
  predicate Superseded(f: File, of: OpenInfo) {
    !Shut(f) && f.err == 0 && !f.isDir && f.count == 0 && !(of.err == 0 && !of.isDir && of.uniq == f.uniq)
  }

  /** An entry that is out of the cache stays for its handles only. */
  function Dropped(files: Files, x: int, f: File): Files {
    if f.count == 0 then files - {x} else files[x := f.(close := true)]
  }

  function DroppedFds(fds: set<int>, f: File, of: OpenInfo): set<int> {
    (if f.count == 0 then fds - {f.fd} else fds) - {of.fd}
  }

  function Retested(files: Files, x: int, f: File, of: OpenInfo, now: int): Files {
    files[x := if Changed(f, of) then f.(close := true) else Updated(f, of, now).(accessed := now)]
  }

  function RetestedFds(fds: set<int>, f: File, of: OpenInfo): set<int> {
    if Superseded(f, of) then fds - {f.fd} else fds
  }

  /** The entries after the file system has answered for entry x, which was f, and
      before a new entry is made; then the descriptors that are open. */
  function Judged(files: Files, x: int, f: File, ok: bool, of: OpenInfo, now: int): Files {
    if Refused(ok, of) then Dropped(files, x, f) else Retested(files, x, f, of, now)
  }

  function JudgedFds(fds: set<int>, f: File, ok: bool, of: OpenInfo, newFd: int): set<int> {
    var all := fds + if of.fd == newFd then {newFd} else {};
    if Refused(ok, of) then DroppedFds(all, f, of) else RetestedFds(all, f, of)
  }

  /** The descriptor of an entry that is not in use is closed. */
  function LeftFds(fds: set<int>, f: File): set<int> {
    if f.count == 0 && f.fd != INVALID then fds - {f.fd} else fds
  }

  /** Entries leave the cache one after the other, for want of room or for their age. */
  function Evicted(files: Files, fds: set<int>, gone: seq<int>): (Files, set<int>) {
    if gone == [] then (files, fds)
    else
      var n := |gone| - 1;
      var (files', fds') := Evicted(files, fds, gone[..n]);
      if gone[n] !in files' then (files', fds')
      else
        var f := files'[gone[n]];
        (Dropped(files', gone[n], f), LeftFds(fds', f))
  }

  /** A new entry at id, after the others had to leave; without memory its descriptor is
      closed instead. */
  function Created(files: Files, fds: set<int>, gone: seq<int>, id: int, junk: File, of: OpenInfo, now: int):
      (Files, set<int>) {
    var (files', fds') := Evicted(files, fds, gone);
    if id == NULL then (files', fds' - {of.fd})
    else (files'[id := Updated(junk.(uses := 1, count := 0), of, now).(accessed := now)], fds')
  }

  function OneMore(f: File): File {
    if f.err == 0 && !f.isDir then f.(count := (f.count + 1) % COUNT_WRAP) else f
  }

  function OnceUsed(f: File): File { f.(uses := (f.uses + 1) % USES_WRAP) }

  /** The same for a name found in the cache, whatever is done about it. */
  function Answered(files: Files, x: int, given: OpenInfo, now: int, stat: Answer, open: Answer, newFd: int): Files
    requires x in files
  {
    var f := OnceUsed(files[x]);
    if !Shut(f) && Trusted(f, given, now) then files[x := OneMore(f).(accessed := now)]
    else
      var (ok, o) := Stat(Question(f, given), stat, open, newFd);
      Judged(files[x := f], x, f, ok, o, now)
  }

  function AnsweredFds(files: Files, fds: set<int>, x: int, given: OpenInfo, now: int, stat: Answer, open: Answer,
                       newFd: int): set<int>
    requires x in files
  {
    var f := OnceUsed(files[x]);
    if !Shut(f) && Trusted(f, given, now) then fds
    else
      var (ok, o) := Stat(Question(f, given), stat, open, newFd);
      JudgedFds(fds, f, ok, o, newFd)
  }

  /** The entries and the open descriptors once all is done about a name in the cache: a
      new entry is made at id where that is called for. */
  function Settled(files: Files, fds: set<int>, x: int, gone: seq<int>, id: int, junk: File, given: OpenInfo, now: int,
                   stat: Answer, open: Answer, newFd: int): (Files, set<int>)
    requires x in files
  {
    var f := files[x];
    var (ok, o) := Stat(Question(f, given), stat, open, newFd);
    var files' := Answered(files, x, given, now, stat, open, newFd);
    var fds' := AnsweredFds(files, fds, x, given, now, stat, open, newFd);
    if MadeAnew(f, given, now, stat, open, newFd) then Created(files', fds', gone, id, junk, o, now)
    else (files', fds')
  }

  lemma SettledDone(files: Files, fds: set<int>, x: int, gone: seq<int>, id: int, junk: File, given: OpenInfo,
                    now: int, stat: Answer, open: Answer, newFd: int)
    requires x in files && !MadeAnew(files[x], given, now, stat, open, newFd)
    ensures Settled(files, fds, x, gone, id, junk, given, now, stat, open, newFd)
            == (Answered(files, x, given, now, stat, open, newFd),
                AnsweredFds(files, fds, x, given, now, stat, open, newFd))
  {
    hide MadeAnew;
  }

  lemma SettledMore(files: Files, fds: set<int>, x: int, gone: seq<int>, id: int, junk: File, given: OpenInfo,
                    now: int, stat: Answer, open: Answer, newFd: int)
    requires x in files && MadeAnew(files[x], given, now, stat, open, newFd)
    ensures Settled(files, fds, x, gone, id, junk, given, now, stat, open, newFd)
            == Created(Answered(files, x, given, now, stat, open, newFd),
                       AnsweredFds(files, fds, x, given, now, stat, open, newFd), gone, id, junk,
                       Stat(Question(files[x], given), stat, open, newFd).1, now)
  {
    hide MadeAnew;
  }

  ghost predicate AsSettled(files: Files, fds: set<int>, x: int, gone: seq<int>, id: int, junk: File, given: OpenInfo,
                            now: int, stat: Answer, open: Answer, newFd: int, files': Files, fds': set<int>) {
    x in files && (files', fds') ==
      Settled(files, fds, x, gone, id, junk, given.(fd := INVALID, err := 0), now, stat, open, newFd)
  }

  /** A new entry is to be made. */
  predicate MadeAnew(f: File, given: OpenInfo, now: int, stat: Answer, open: Answer, newFd: int) {
    var (ok, o) := Stat(Question(f, given), stat, open, newFd);
    (Shut(f) || !Trusted(f, given, now)) && !Refused(ok, o) && Changed(f, o)
  }

  /** The same for a name that is not in the cache. */
  ghost function Opened(files: Files, fds: set<int>, gone: seq<int>, id: int, junk: File, given: OpenInfo, now: int,
                        stat: Answer, open: Answer, newFd: int): (Files, set<int>) {
    var (ok, o) := Stat(given, stat, open, newFd);
    if Refused(ok, o) then (files, fds) else Created(files, fds + Loose(o), gone, id, junk, o, now)
  }

  /** What the entry, or the file system, says: it stays, it goes, or another takes its
      place. */
  predicate Tells(f: File, file: int, given: OpenInfo, now: int, stat: Answer, open: Answer, newFd: int, done: bool,
                  entry: int, of: OpenInfo) {
    if !Shut(f) && Trusted(f, given, now) then done && entry == file && of == FromEntry(f, given)
    else
      var (ok, o) := Stat(Question(f, given), stat, open, newFd);
      of == o && (done && entry == NULL <==> Refused(ok, o)) && (!done <==> !Refused(ok, o) && Changed(f, o))
  }

  lemma TellsOutcome(f: File, x: int, given: OpenInfo, now: int, stat: Answer, open: Answer, newFd: int, done: bool,
                     entry: int, of: OpenInfo, memory: int, file: int)
    requires given.fd == INVALID && given.err == 0 && x != NULL
    requires Tells(f, x, given, now, stat, open, newFd, done, entry, of) && file == if done then entry else memory
    ensures OutcomeFound(f, given, now, stat, open, newFd, memory, of, file)
    ensures !done <==> MadeAnew(f, given, now, stat, open, newFd)
    ensures !done ==> of == Stat(Question(f, given), stat, open, newFd).1
  {
    assert given.(fd := INVALID, err := 0) == given;
    hide Refused, Changed, Stat, Question, Trusted, Shut;
  }

  /** What ngx_open_cached_file tells for an entry f, and when it leaves none behind;
      `memory` is what there is for a new entry. */
  predicate OutcomeFound(f: File, given: OpenInfo, now: int, stat: Answer, open: Answer, newFd: int, memory: int,
                         of: OpenInfo, file: int) {
    var asked := given.(fd := INVALID, err := 0);
    if !Shut(f) && Trusted(f, asked, now) then file != NULL && of == FromEntry(f, asked)
    else
      var (ok, o) := Stat(Question(f, asked), stat, open, newFd);
      of == o && (file == NULL <==> Refused(ok, o) || (memory == NULL && Changed(f, o)))
  }

  /** The same for a name that is not in the cache. */
  predicate OutcomeMissing(given: OpenInfo, stat: Answer, open: Answer, newFd: int, memory: int, of: OpenInfo,
                           file: int) {
    var (ok, o) := Stat(given.(fd := INVALID, err := 0), stat, open, newFd);
    of == o && (file == NULL <==> Refused(ok, o) || memory == NULL)
  }

  /** The answer that counts where a descriptor of the file with the number `uniq` is held,
      or none, and the file is first looked at only if one is, or a directory is to be
      expected. */
  function Counts(held: int, uniq: int, testDir: bool, stat: Answer, open: Answer): Answer {
    if held != INVALID then (if stat.Absent? || stat.uniq == uniq then stat else open)
    else if testDir && (stat.Absent? || stat.isDir) then stat
    else open
  }

  /** The caller is told what the file system says: the error, or the file with a descriptor,
      which is the one held exactly if it is of this file; a directory has none. */
  predicate Told(of: OpenInfo, a: Answer, held: int, uniq: int, newFd: int) {
    if a.Absent? then of.err == a.err && of.fd == INVALID && !of.isDir
    else
      && of.err == 0 && of.uniq == a.uniq && of.info == a.info && of.isDir == a.isDir
      && of.fd == if a.isDir then INVALID else if held != INVALID && uniq == a.uniq then held else newFd
  }

  lemma StatTells(of: OpenInfo, stat: Answer, open: Answer, newFd: int)
    requires Steady(stat, open) && Telling(of, stat) && of.err == 0 && !of.isDir
    ensures var (ok, of') := Stat(of, stat, open, newFd);
            var a := Counts(of.fd, of.uniq, of.testDir, stat, open);
            && (ok <==> a.Present?) && Told(of', a, of.fd, of.uniq, newFd)
            && of'.errors == of.errors && of'.links == of.links
  {
  }

  /** The age of the entry, its number or its links call for a look at the file, or its
      descriptor has been closed. */
  predicate MustLook(f: File, given: OpenInfo, now: int) {
    || now - f.created >= given.valid || (given.uniq != 0 && given.uniq != f.uniq) || given.links != f.links
    || (f.fd == INVALID && f.err == 0 && !f.isDir)
  }

  /** What becomes of a name in the cache, whose entry x is f, all said: what the caller is
      told, which entry there is then, and what it holds. */
  ghost predicate Served(f: File, x: int, given: OpenInfo, now: int, stat: Answer, open: Answer, newFd: int,
                         memory: int, of: OpenInfo, file: int, files': Files, fds: set<int>, fds': set<int>) {
    if !MustLook(f, given, now) then
      && file == x && fds' == fds && x in files'
      && (if f.err != 0 then of.err == f.err && of.fd == INVALID
          else of.err == 0 && of.fd == f.fd && of.uniq == f.uniq && of.info == f.info && of.isDir == f.isDir)
      && files'[x] == f.(uses := (f.uses + 1) % USES_WRAP, accessed := now,
                         count := if f.err == 0 && !f.isDir then f.count + 1 else f.count)
    else
      var a := Counts(f.fd, f.uniq, given.testDir || f.isDir, stat, open);
      && Told(of, a, f.fd, f.uniq, newFd)
      && if a.Absent? && (a.err == 0 || !given.errors) then file == NULL
         else if f.count > 0 && of.fd != f.fd then
           file == memory && x in files' && files'[x] == f.(uses := (f.uses + 1) % USES_WRAP, close := true)
           && (f.fd in fds ==> f.fd in fds') && (memory != NULL ==> memory in files' && New(files'[memory], of, now))
         else
           && file == x && x in files' && Renewed(files'[x], f, of, now)
           && (of.fd != f.fd && f.fd != INVALID ==> f.fd !in fds')
  }

  /** An entry made or refreshed now, with what was told. */
  predicate Current(f: File, of: OpenInfo, now: int) {
    && f.created == f.accessed == now && f.links == of.links && f.err == of.err && f.fd == of.fd
    && (of.err == 0 ==> f.uniq == of.uniq && f.info == of.info && f.isDir == of.isDir && !f.close)
  }

  predicate New(f: File, of: OpenInfo, now: int) {
    Current(f, of, now) && f.uses == 1 && f.count == if of.err == 0 && !of.isDir then 1 else 0
  }

  predicate Renewed(f': File, f: File, of: OpenInfo, now: int) {
    && Current(f', of, now) && f'.uses == (f.uses + 1) % USES_WRAP
    && f'.count == if of.err == 0 && !of.isDir then f.count + 1 else f.count
  }

  /** Each descriptor that an entry has is open and nobody else's. */
  ghost predicate Private(files: Files, fds: set<int>, x: int) {
    && x in files && (files[x].fd != INVALID ==> files[x].fd in fds)
    && forall y :: y in files && y != x && files[x].fd != INVALID ==> files[y].fd != files[x].fd
  }

  /** Entries that leave close no descriptor of another one. */
  lemma {:induction false} EvictedPrivate(files: Files, fds: set<int>, gone: seq<int>, x: int)
    requires Private(files, fds, x) && x !in gone
    ensures var (files', fds') := Evicted(files, fds, gone);
            Private(files', fds', x) && files'[x] == files[x]
  {
    if gone != [] {
      EvictedPrivate(files, fds, gone[..|gone| - 1], x);
    }
  }

  /** The caller is answered from the entry. */
  lemma ServedBelieved(files: Files, fds: set<int>, x: int, gone: seq<int>, memory: int, junk: File, given: OpenInfo,
                       now: int, stat: Answer, open: Answer, newFd: int)
    requires x in files && given.fd == INVALID && given.err == 0 && files[x].count + 1 < COUNT_WRAP
    requires !MustLook(files[x], given, now)
    ensures var (files', fds') := Settled(files, fds, x, gone, memory, junk, given, now, stat, open, newFd);
            && !Shut(files[x]) && Trusted(files[x], given, now)
            && Served(files[x], x, given, now, stat, open, newFd, memory, FromEntry(files[x], given), x, files', fds,
                      fds')
  {
    hide Stat, Judged, JudgedFds, Created;
    UsesDoNotMatter(files[x], OnceUsed(files[x]).uses, given, now);
  }

  /** The file system is asked, and the entry stays or goes. */
  lemma ServedAgain(files: Files, fds: set<int>, x: int, gone: seq<int>, memory: int, junk: File, given: OpenInfo,
                    now: int, stat: Answer, open: Answer, newFd: int, ok: bool, o: OpenInfo)
    requires Private(files, fds, x) && x != NULL && Shape(files[x], true, false) && newFd !in fds && newFd != INVALID
    requires given.fd == INVALID && given.err == 0 && !given.isDir && Steady(stat, open)
    requires Safe(files[x], given, now, stat) && MustLook(files[x], given, now)
    requires (ok, o) == Stat(Question(files[x], given), stat, open, newFd) && (Refused(ok, o) || !Changed(files[x], o))
    ensures var (files', fds') := Settled(files, fds, x, gone, memory, junk, given, now, stat, open, newFd);
            var file := if Refused(ok, o) then NULL else x;
            && (Shut(files[x]) || !Trusted(files[x], given, now))
            && Served(files[x], x, given, now, stat, open, newFd, memory, o, file, files', fds, fds')
  {
    hide Created, Evicted;
    var f := files[x];
    UsesDoNotMatter(f, OnceUsed(f).uses, given, now);
    StatTells(Question(f, given), stat, open, newFd);
    hide Stat;
  }

  /** The file system is asked, and another entry takes the place of this one. */
  lemma ServedAnew(files: Files, fds: set<int>, x: int, gone: seq<int>, memory: int, junk: File, given: OpenInfo,
                   now: int, stat: Answer, open: Answer, newFd: int, ok: bool, o: OpenInfo)
    requires Private(files, fds, x) && x != NULL && Shape(files[x], true, false) && newFd !in fds && newFd != INVALID
    requires given.fd == INVALID && given.err == 0 && !given.isDir && Steady(stat, open)
    requires Safe(files[x], given, now, stat) && MustLook(files[x], given, now) && x !in gone && memory !in files
    requires (forall y :: y in files ==> files[y].fd != newFd)
    requires (ok, o) == Stat(Question(files[x], given), stat, open, newFd) && !Refused(ok, o) && Changed(files[x], o)
    ensures var (files', fds') := Settled(files, fds, x, gone, memory, junk, given, now, stat, open, newFd);
            && !Shut(files[x]) && !Trusted(files[x], given, now)
            && Served(files[x], x, given, now, stat, open, newFd, memory, o, memory, files', fds, fds')
  {
    var f := files[x];
    UsesDoNotMatter(f, OnceUsed(f).uses, given, now);
    StatTells(Question(f, given), stat, open, newFd);
    hide Stat;
    var files1 := Answered(files, x, given, now, stat, open, newFd);
    var fds1 := AnsweredFds(files, fds, x, given, now, stat, open, newFd);
    EvictedPrivate(files1, fds1, gone, x);
    hide Evicted;
  }

  lemma ServedBy(files: Files, fds: set<int>, x: int, gone: seq<int>, memory: int, junk: File, given: OpenInfo,
                 now: int, stat: Answer, open: Answer, newFd: int, done: bool, entry: int, of: OpenInfo)
    requires x in files && Private(files, fds, x) && x != NULL && Shape(files[x], true, false)
    requires newFd !in fds && newFd != INVALID
    requires given.fd == INVALID && given.err == 0 && !given.isDir && Steady(stat, open)
    requires Safe(files[x], given, now, stat) && x !in gone && memory !in files
    requires forall y :: y in files ==> files[y].fd != newFd
    requires Tells(files[x], x, given, now, stat, open, newFd, done, entry, of)
    requires done ==> entry == x || entry == NULL
    ensures var (files', fds') := Settled(files, fds, x, gone, memory, junk, given, now, stat, open, newFd);
            Served(files[x], x, given, now, stat, open, newFd, memory, of, if done then entry else memory, files', fds,
                   fds')
  {
    hide Settled, Served, Private, Shape, Steady, Changed, Refused, Stat, Question, FromEntry;
    var (ok, o) := Stat(Question(files[x], given), stat, open, newFd);
    if !MustLook(files[x], given, now) {
      ServedBelieved(files, fds, x, gone, memory, junk, given, now, stat, open, newFd);
    } else if Refused(ok, o) || !Changed(files[x], o) {
      ServedAgain(files, fds, x, gone, memory, junk, given, now, stat, open, newFd, ok, o);
    } else {
      ServedAnew(files, fds, x, gone, memory, junk, given, now, stat, open, newFd, ok, o);
    }
  }

  /** The same for a name that is not in the cache. */
  ghost predicate ServedNew(given: OpenInfo, now: int, stat: Answer, open: Answer, newFd: int, memory: int,
                            of: OpenInfo, file: int, files': Files) {
    var a := Counts(INVALID, 0, given.testDir, stat, open);
    && Told(of, a, INVALID, 0, newFd)
    && if a.Absent? && (a.err == 0 || !given.errors) then file == NULL
       else file == memory && (memory != NULL ==> memory in files' && New(files'[memory], of, now))
  }

  lemma OpenedAs(files: Files, fds: set<int>, gone: seq<int>, memory: int, junk: File, given: OpenInfo, now: int,
                 stat: Answer, open: Answer, newFd: int, ok: bool, of: OpenInfo, file: int)
    requires given.fd == INVALID && given.err == 0 && (ok, of) == Stat(given, stat, open, newFd)
    requires file == if Refused(ok, of) then NULL else memory
    ensures OutcomeMissing(given, stat, open, newFd, memory, of, file)
    ensures Opened(files, fds, gone, memory, junk, given, now, stat, open, newFd) ==
            if Refused(ok, of) then (files, fds) else Created(files, fds + Loose(of), gone, memory, junk, of, now)
  {
    hide Stat;
    assert given.(fd := INVALID, err := 0) == given;
  }

  lemma ServedFresh(files: Files, fds: set<int>, gone: seq<int>, memory: int, junk: File, given: OpenInfo, now: int,
                    stat: Answer, open: Answer, newFd: int, of: OpenInfo, file: int)
    requires given.fd == INVALID && given.err == 0 && !given.isDir && Steady(stat, open)
    requires OutcomeMissing(given, stat, open, newFd, memory, of, file) && (file != NULL ==> file == memory)
    ensures ServedNew(given, now, stat, open, newFd, memory, of, file,
                      Opened(files, fds, gone, memory, junk, given, now, stat, open, newFd).0)
  {
    assert given.(fd := INVALID, err := 0) == given;
    StatTells(given, stat, open, newFd);
    hide Evicted, Stat;
  }

  /** The entry says what the caller is told. */
  predicate Reports(f: File, of: OpenInfo) {
    f.err == of.err && (of.err == 0 ==> f.fd == of.fd && f.uniq == of.uniq && f.info == of.info && f.isDir == of.isDir)
  }

  ghost function Granted(file: int, of: OpenInfo): multiset<Handle> {
    if of.err == 0 && !of.isDir then multiset{Handle(file, of.fd)} else multiset{}
  }

  /** An entry is no longer indexed, and nothing else has changed. */
  ghost predicate Gone(ks: seq<Key>, ks': seq<Key>, l: seq<int>, l': seq<int>, file: int) {
    && |ks'| == |ks| && (forall x :: x in l' <==> x in l && x != file)
    && forall x :: 0 <= x < |ks| && x != file ==> ks'[x] == ks[x]
  }

  /** Every entry of the cache l' but `file` was in the cache l and is as it was. */
  ghost predicate OthersKept(files: Files, files': Files, ks: seq<Key>, ks': seq<Key>, l: seq<int>, l': seq<int>,
                             file: int) {
    |ks'| == |ks| && forall x :: x in l' && x != file ==>
      x in l && x in files && x in files' && files'[x] == files[x] && (0 <= x < |ks| ==> ks'[x] == ks[x])
  }

  /** The entries from k on were dropped for being inactive, but for the last one when
      that is by force. */
  ghost predicate Stale(files: Files, items: seq<int>, k: nat, start: nat, now: int, inactive: int) {
    forall j :: k <= j < |items| ==>
      (start == 0 && j == |items| - 1) || (items[j] in files && now - files[items[j]].accessed > inactive)
  }

  ghost predicate Trimming(files: Files, items: seq<int>, items': seq<int>, start: nat, now: int, inactive: int) {
    items' <= items && Stale(files, items, |items'|, start, now, inactive)
  }

  /** The queue lost entries from its end, where the least recently used ones are: at
      most three in all, only stale ones, and none was left that should have gone. */
  ghost predicate Trimmed(files: Files, items: seq<int>, items': seq<int>, start: nat, now: int, inactive: int) {
    && Trimming(files, items, items', start, now, inactive) && |items| - |items'| <= 3 - start
    && (items' != [] && |items| - |items'| < 3 - start ==>
          var x := items[|items'| - 1];
          (start > 0 || |items'| < |items|) && x in files && now - files[x].accessed <= inactive)
  }

  /** A queue without one of its entries. */
  function Minus(items: seq<int>, x: int): seq<int> {
    if items == [] then [] else (if items[0] == x then [] else [items[0]]) + Minus(items[1..], x)
  }

  lemma {:induction false} MinusOne(items: seq<int>, k: nat)
    requires k < |items| && forall i, j :: 0 <= i < j < |items| ==> items[i] != items[j]
    ensures Minus(items, items[k]) == items[..k] + items[k + 1..]
  {
    var x := items[k];
    if k == 0 {
      MinusNone(items[1..], x);
      assert items[..0] == [];
    } else {
      assert items[1..][k - 1] == x;
      MinusOne(items[1..], k - 1);
      assert items[1..][..k - 1] == items[1..k] && items[1..][k..] == items[k + 1..];
      assert items[..k] == [items[0]] + items[1..k];
    }
  }

  lemma {:induction false} MinusNone(items: seq<int>, x: int)
    requires x !in items
    ensures Minus(items, x) == items
  {
    if items != [] {
      MinusNone(items[1..], x);
    }
  }

  /** The queue after a call: the entry asked for is in front, those that had to leave are
      gone from the end, and the others are in their order. */
  ghost predicate Shelved(items: seq<int>, items': seq<int>, x: int, file: int, gone: seq<int>) {
    var rest := Minus(items, x);
    |gone| <= |rest| && items' == (if file != NULL then [file] else []) + rest[..|rest| - |gone|]
  }

  lemma ShelvedNew(items: seq<int>, items': seq<int>, file: int, gone: seq<int>)
    requires Minus(items, NULL) == items && |gone| <= |items|
    requires items' == (if file != NULL then [file] else []) + items[..|items| - |gone|]
    ensures Shelved(items, items', NULL, file, gone)
  {
  }

  lemma ShelvedAgain(items: seq<int>, items': seq<int>, x: int, file: int)
    requires items' == (if file != NULL then [x] else []) + Minus(items, x) && (file != NULL ==> file == x)
    ensures Shelved(items, items', x, file, [])
  {
    var rest := Minus(items, x);
    assert rest[..|rest|] == rest;
  }

  lemma ShelvedAnew(items: seq<int>, rest: seq<int>, items': seq<int>, x: int, file: int, gone: seq<int>)
    requires rest == [] + Minus(items, x) && |gone| <= |rest|
    requires items' == (if file != NULL then [file] else []) + rest[..|rest| - |gone|]
    ensures Shelved(items, items', x, file, gone)
  {
    assert rest == Minus(items, x);
  }

  lemma ShelvedSame(items: seq<int>)
    requires Minus(items, NULL) == items
    ensures Shelved(items, items, NULL, NULL, [])
  {
    assert [] + items[..|items|] == items;
  }

  /** The entries are in the order of their last use, the latest first. */
  ghost predicate Recent(files: Files, items: seq<int>) {
    && (forall i :: 0 <= i < |items| ==> items[i] in files)
    && (forall i, j :: 0 <= i < j < |items| ==> files[items[i]].accessed >= files[items[j]].accessed)
  }

  lemma {:induction false} MinusOf(items: seq<int>, x: int)
    ensures forall y :: y in Minus(items, x) <==> y in items && y != x
    ensures forall files: Files :: Recent(files, items) ==> Recent(files, Minus(items, x))
  {
    if items != [] {
      var rest := items[1..];
      MinusOf(rest, x);
      forall files: Files | Recent(files, items) ensures Recent(files, Minus(items, x)) {
        assert Recent(files, rest);
        var l := Minus(items, x);
        if items[0] != x {
          assert l == [items[0]] + Minus(rest, x);
          forall i, j | 0 <= i < j < |l| ensures files[l[i]].accessed >= files[l[j]].accessed {
            assert l[j] == Minus(rest, x)[j - 1] && l[j] in Minus(rest, x) && l[j] in rest;
            var k :| 0 <= k < |rest| && rest[k] == l[j];
            assert items[k + 1] == l[j];
            assert i > 0 ==> l[i] == Minus(rest, x)[i - 1];
          }
        }
      }
    }
  }

  /** A call keeps that order, if the clock is not behind the last use of any. */
  lemma RecentAfter(files: Files, items: seq<int>, files': Files, items': seq<int>, x: int, file: int, gone: seq<int>,
                    now: int)
    requires Shelved(items, items', x, file, gone) && Recent(files, items)
    requires NULL !in items && Circular.Distinct(items')
    requires forall y :: y in items ==> y in files && files[y].accessed <= now
    requires forall y :: y in items' && y != file ==> y in files && y in files' && files'[y] == files[y]
    requires file != NULL ==> file in files' && files'[file].accessed == now
    ensures Recent(files', items')
  {
    var rest := Minus(items, x);
    MinusOf(items, x);
    var kept, n := rest[..|rest| - |gone|], if file != NULL then 1 else 0;
    assert Recent(files, kept);
    forall i | n <= i < |items'|
      ensures items'[i] == kept[i - n] && items'[i] in files' && files'[items'[i]].accessed <= now
      ensures items'[i] != file ==> files'[items'[i]] == files[items'[i]]
    {
      var y := items'[i];
      assert y in items' && y == kept[i - n] && y in rest && y in items;
    }
    forall i, j | 0 <= i < j < |items'| ensures files'[items'[i]].accessed >= files'[items'[j]].accessed {
      assert file != NULL ==> items'[0] == file;
      if n <= i {
        assert files[kept[i - n]].accessed >= files[kept[j - n]].accessed;
      }
    }
  }

  lemma KeepsRecent(files: Files, items: seq<int>, ks: seq<Key>, l: seq<int>, files': Files, items': seq<int>,
                    ks': seq<Key>, l': seq<int>, x: int, file: int, gone: seq<int>, now: int)
    requires Shelved(items, items', x, file, gone) && OthersKept(files, files', ks, ks', l, l', file)
    requires (forall y :: y in items ==> y in l) && (forall y :: y in items' ==> y in l')
    requires Circular.Distinct(items') && NULL !in l && forall y :: y in l ==> y in files
    requires file != NULL ==> file in files' && files'[file].accessed == now
    ensures Recent(files, items) && (forall y :: y in l ==> files[y].accessed <= now) ==> Recent(files', items')
  {
    if Recent(files, items) && (forall y :: y in l ==> files[y].accessed <= now) {
      hide Shelved, Recent;
      RecentAfter(files, items, files', items', x, file, gone, now);
    }
  }

  lemma ServedNow(f: File, x: int, given: OpenInfo, now: int, stat: Answer, open: Answer, newFd: int, memory: int,
                  of: OpenInfo, file: int, files': Files, fds: set<int>, fds': set<int>)
    requires Served(f, x, given, now, stat, open, newFd, memory, of, file, files', fds, fds')
    ensures file != NULL ==> file in files' && files'[file].accessed == now
  {
  }

  lemma ServedNewNow(given: OpenInfo, now: int, stat: Answer, open: Answer, newFd: int, memory: int, of: OpenInfo,
                     file: int, files': Files)
    requires ServedNew(given, now, stat, open, newFd, memory, of, file, files')
    ensures file != NULL ==> file in files' && files'[file].accessed == now
  {
  }

  /** What left a queue at its end, the last one first. */
  ghost predicate FromEnd(items: seq<int>, items': seq<int>, gone: seq<int>) {
    && items' <= items && |gone| == |items| - |items'|
    && forall i :: 0 <= i < |gone| ==> gone[i] == items[|items| - 1 - i]
  }

  lemma NamedIsGone(ks: seq<Key>, ks': seq<Key>, l: seq<int>, l': seq<int>, x: int)
    requires Gone(ks, ks', l, l', x)
    ensures x !in l'
  {
  }

  /** The queue after a handle to x was given back: x is in front unless it had left
      before, and at most two have left at the end, those not used for long. */
  ghost predicate Rearranged(files: Files, items: seq<int>, items': seq<int>, x: int, gone: seq<int>, now: int,
                             inactive: int) {
    var front := if x in files && !files[x].close then [x] + Minus(items, x) else items;
    && FromEnd(front, items', gone) && |gone| <= 2
    && (forall y :: y in gone && y != x ==> y in files && now - files[y].accessed > inactive)
    && (|gone| < 2 && items' != [] && items'[|items'| - 1] != x ==>
          items'[|items'| - 1] in files && now - files[items'[|items'| - 1]].accessed <= inactive)
  }

  lemma AtMostTwo(files: Files, items: seq<int>, files': Files, items': seq<int>, front: seq<int>, x: int,
                  gone: seq<int>, now: int, inactive: int)
    requires front == if x in files && !files[x].close then [x] + Minus(items, x) else items
    requires FromEnd(front, items', gone) && Trimmed(files', front, items', 1, now, inactive)
    requires forall y :: y in files' && y != x ==> y in files && files'[y] == files[y]
    ensures Rearranged(files, items, items', x, gone, now, inactive)
  {
    hide Minus;
  }

  lemma RecentStill(files: Files, items: seq<int>, files': Files, items': seq<int>, front: seq<int>, x: int,
                    gone: seq<int>, now: int, inactive: int)
    requires front == if x in files && !files[x].close then [x] + Minus(items, x) else items
    requires FromEnd(front, items', gone) && Circular.Distinct(front)
    requires x in files && x != NULL && (x in items <==> !files[x].close) && NULL !in items
    requires forall y :: y in items ==> y in files
    requires forall y :: y in items' && y != x ==> y in files && y in files' && files'[y] == files[y]
    requires x in items' ==> x in files' && files'[x].accessed == now
    ensures Recent(files, items) && (forall y :: y in items ==> files[y].accessed <= now) ==> Recent(files', items')
  {
    if Recent(files, items) && (forall y :: y in items ==> files[y].accessed <= now) {
      var f := if x in items then files[x := files[x].(accessed := now)] else files;
      assert Recent(f, front) by {
        if x in items {
          RecentFront(files, items, x, now);
        }
      }
      hide Minus;
      forall y | y in items' ensures y in f && y in files' && files'[y].accessed == f[y].accessed {
        assert y in front;
      }
      RecentPrefix(f, front, files', items');
    }
  }

  lemma RecentFront(files: Files, items: seq<int>, x: int, now: int)
    requires Recent(files, items) && x in items && NULL !in items && Circular.Distinct([x] + Minus(items, x))
    requires forall y :: y in items ==> y in files && files[y].accessed <= now
    ensures Recent(files[x := files[x].(accessed := now)], [x] + Minus(items, x))
  {
    MinusOf(items, x);
    assert Minus(items, x)[..|Minus(items, x)|] == Minus(items, x);
    hide Recent;
    RecentAfter(files, items, files[x := files[x].(accessed := now)], [x] + Minus(items, x), x, x, [], now);
  }

  lemma RecentPrefix(files: Files, items: seq<int>, files': Files, items': seq<int>)
    requires Recent(files, items) && items' <= items
    requires forall y :: y in items' ==> y in files && y in files' && files'[y].accessed == files[y].accessed
    ensures Recent(files', items')
  {
    assert forall i :: 0 <= i < |items'| ==> items'[i] == items[i] && items'[i] in items';
  }

  lemma GoneWereThere(items: seq<int>, items': seq<int>, gone: seq<int>)
    requires FromEnd(items, items', gone)
    ensures (forall x :: x in gone ==> x in items) && |gone| <= |items| && items' == items[..|items| - |gone|]
  {
  }

  lemma EvictedNone(files: Files, fds: set<int>)
    ensures Evicted(files, fds, []) == (files, fds)
  {
  }

  lemma StartTrim(files: Files, items: seq<int>, start: nat, now: int, inactive: int)
    ensures Trimming(files, items, items, start, now, inactive)
  {
  }

  lemma MoreTrim(files: Files, items: seq<int>, items': seq<int>, start: nat, now: int, inactive: int)
    requires Trimming(files, items, items', start, now, inactive) && items' != []
    requires var x := items'[|items'| - 1];
             (start == 0 && items' == items) || (x in files && now - files[x].accessed > inactive)
    ensures Trimming(files, items, items'[..|items'| - 1], start, now, inactive)
  {
  }

  lemma EndTrim(files: Files, items: seq<int>, items': seq<int>, start: nat, now: int, inactive: int)
    requires Trimming(files, items, items', start, now, inactive) && |items| - |items'| <= 3 - start
    requires items' != [] && |items| - |items'| < 3 - start ==>
      var x := items'[|items'| - 1];
      (start > 0 || |items'| < |items|) && x in files && now - files[x].accessed <= inactive
    ensures Trimmed(files, items, items', start, now, inactive)
  {
  }

  lemma NothingCached(hash: Name -> int, ks: seq<Key>)
    ensures Sorted(KeyLess, ks, []) && Named(hash, ks, [])
    ensures Shaped(map[], [], {}) && Owned(map[], map[]) && Counted(map[], multiset{})
  {
  }

  class FileCache {
    const tree: RbTree<Key>
    const queue: Queue.Queue
    const hash: Name -> int
    const max: nat
    const inactive: int
    var current: int
    var files: Files
    ghost var fds: set<int>             // descriptors open in the system
    ghost var owner: map<int, int>         // the entry that holds a descriptor
    ghost var handles: multiset<Handle>    // cleanups that have yet to run

    /** ngx_open_file_cache_init */
    constructor (size: nat, head: int, hash: Name -> int, max: nat, inactive: int)
      requires 0 <= head < size
      ensures Valid() && Cached() == [] && files == map[] && handles == multiset{} && this.max == max
                && this.hash == hash
    {
      hide Shaped, Owned, Counted, Sorted, Named, Zip, RedBlack, Inorder;
      var records := new Record[size](i => Record(NULL, NULL, NULL, false));
      var none := Key(0, []);
      tree := new RbTree<Key>(records, head, seq(size, i => none), KeyLess, none);
      queue := new Queue.Queue(size, head);
      this.hash := hash;
      this.max := max;
      this.inactive := inactive;
      current := 0;
      files := map[];
      fds := {};
      owner := map[];
      handles := multiset{};
      NothingCached(hash, seq(size, i => none));
    }

    ghost function Cached(): seq<int>
      reads tree
    {
      tree.Order()
    }

    /** Tree, queue and `current` agree, but for entries just taken off the queue. */
    ghost predicate Index(off: multiset<int>)
      reads this`current, tree, tree.mem, queue, queue.next, queue.prev
    {
      && tree.Valid() && queue.Valid() && tree.less == KeyLess && tree.mem.Length == queue.next.Length
      && Sorted(KeyLess, tree.key, Cached()) && Named(hash, tree.key, Cached())
      && multiset(queue.items) + off == multiset(Cached()) && current == |Cached()|
    }

    /** Entries, descriptors and handles agree, but for descriptors just opened and
        entries about to be freed. */
    ghost predicate Table(loose: set<int>, leaving: set<int>)
      reads this`files, this`owner, this`fds, this`handles, tree
    {
      && Shaped(files, Cached(), leaving) && Owned(files, owner) && Counted(files, handles)
      && fds == owner.Keys + loose && owner.Keys !! loose
      && forall x :: x in files ==> 0 <= x < tree.mem.Length && x < queue.next.Length && x != tree.s && x != queue.head
    }

    ghost predicate Valid()
      reads this, tree, tree.mem, queue, queue.next, queue.prev
    {
      Index(multiset{}) && Table({}, {}) && (max >= 1 ==> current <= max)
    }

    /** The descriptor is closed once, and nobody is using it. */
    method Close(fd: int)
      requires fd in fds && forall h :: h in handles ==> h.fd != fd
      modifies this`fds
      ensures fds == old(fds) - {fd}
    {
      fds := fds - {fd};
    }

    /** An entry is written; it keeps its descriptor or takes a loose one. */
    method Put(file: int, f: File, ghost loose: set<int>, ghost leaving: set<int>, ghost handles': multiset<Handle>)
      requires Table(loose, leaving) && file in files && Shape(f, file in Cached(), file in leaving)
      requires f.fd == files[file].fd || (files[file].fd == INVALID && f.fd in loose && f.fd != INVALID)
      requires Recounted(handles, handles', file, f)
      modifies this`files, this`owner, this`handles
      ensures Table(if f.fd == old(files)[file].fd then loose else loose - {f.fd}, leaving)
      ensures files == old(files)[file := f] && handles == handles'
    {
      hide Shaped, Owned, Counted, Recounted, Shape, Claim;
      PutTable(files, owner, handles, handles', Cached(), loose, leaving, file, f);
      files := files[file := f];
      owner := Claim(owner, file, f.fd);
      handles := handles';
    }

    /** The descriptor of an entry without handles is closed. */
    method CloseEntry(file: int, ghost loose: set<int>, ghost leaving: set<int>)
      requires Table(loose, leaving) && file in files && files[file].count == 0 && files[file].fd != INVALID
      modifies this`files, this`owner, this`fds
      ensures Table(loose, leaving) && files == old(files)[file := old(files)[file].(fd := INVALID)]
      ensures fds == old(fds) - {old(files)[file].fd}
    {
      hide Shaped, Owned, Counted, Recounted, Claim;
      var f := files[file].(fd := INVALID);
      NotHeld(files, owner, handles, file);
      CloseTable(files, owner, handles, Cached(), leaving, file);
      Close(files[file].fd);
      files := files[file := f];
      owner := Claim(owner, file, INVALID);
    }

    /** An entry without descriptor and handles is freed. */
    method Free(file: int, ghost loose: set<int>, ghost leaving: set<int>)
      requires Table(loose, leaving) && file in files && file !in Cached() && files[file].count == 0
                 && files[file].fd == INVALID
      modifies this`files, this`owner
      ensures Table(loose, leaving - {file}) && files == old(files) - {file}
    {
      hide Owned, Counted, Claim;
      DropEntry(files, owner, handles, file);
      ClaimKeys(files, owner, file, INVALID);
      files := files - {file};
      owner := Claim(owner, file, INVALID);
      assert owner.Keys == old(owner.Keys) by { NoInvalid(old(files), old(owner)); }
    }

    // ------------------------------------------------------ tree and queue

    /** A use is counted, and the entry is off the queue until it is done with. */
    method Touch(file: int)
      requires Index(multiset{}) && Table({}, {}) && file in Cached()
      modifies this`files, this`owner, this`handles, queue, queue.next, queue.prev
      ensures Index(multiset{file}) && Table({}, {}) && file in files && handles == old(handles)
      ensures files == old(files)[file := OnceUsed(old(files)[file])]
      ensures queue.items == Minus(old(queue.items), file)
    {
      hide Index, Shaped, Owned, Counted, Recounted, Inorder;
      CachedIsFile(files, Cached(), {}, file);
      var f := OnceUsed(files[file]);
      ShapeOf(files, Cached(), {}, file);
      SameHandles(files, handles, file, f);
      Put(file, f, {}, {}, handles);
      OffShelf(file);
    }

    /** ngx_queue_remove */
    method OffShelf(file: int)
      requires Index(multiset{}) && file in Cached()
      modifies queue, queue.next, queue.prev
      ensures Index(multiset{file}) && |old(queue.items)| > 0
      ensures file == old(queue.items)[|old(queue.items)| - 1] ==>
                queue.items == old(queue.items)[..|old(queue.items)| - 1]
      ensures queue.items == Minus(old(queue.items), file)
    {
      hide Sorted, Named, Zip, RedBlack, Inorder, KeyLess, Queue.Ring, Circular.Without;
      MultisetMembers(queue.items, Cached(), multiset{});
      ghost var items := queue.items;
      Queue.DistinctOf(queue.next[..], queue.prev[..], queue.head, items);
      var k := queue.Remove(file);
      LastTakenOut(items, k);
      LeftOver(items, k);
      assert multiset(queue.items) + multiset{file} == multiset(items) by { QueueTakenOut(items, k); }
    }

    method Reshelve(file: int)
      requires Index(multiset{file}) && 0 <= file < queue.next.Length && file != queue.head
      modifies queue, queue.next, queue.prev
      ensures Index(multiset{}) && queue.items == [file] + old(queue.items)
    {
      hide Sorted, Named, RedBlack, KeyLess, Queue.Ring;
      AllDistinct(tree.mem[..], tree.s, tree.root, tree.t);
      OffQueue(queue.items, Cached(), file);
      queue.InsertHead(file);
    }

    /** An entry off the queue leaves the tree. */
    method Unlink(file: int, ghost loose: set<int>)
      requires Index(multiset{file}) && Table(loose, {})
      modifies this`current, tree, tree.mem
      ensures Index(multiset{}) && Table(loose, {file}) && file in files && current == old(current) - 1
      ensures forall x :: x in Cached() <==> x in old(Cached()) && x != file
      ensures |tree.key| == |old(tree.key)|
                && forall x :: 0 <= x < |tree.key| && x != file ==> tree.key[x] == old(tree.key)[x]
    {
      hide Shaped, Owned, Counted, Sorted, Named, Zip, RedBlack, Inorder, KeyLess, Queue.Ring;
      ghost var l, ks := Cached(), tree.key;
      AllDistinct(tree.mem[..], tree.s, tree.root, tree.t);
      OffQueue(queue.items, l, file);
      CachedIsFile(files, l, {}, file);
      var k := tree.Delete(file);
      TakenOut(l, k);
      OffQueue(Cached(), l, file);
      CancelOne(queue.items, Cached(), l, file);
      NamedLess(hash, ks, tree.key, l, Cached());
      Unlinked(files, l, Cached(), file);
      current := current - 1;
    }

    /** ngx_close_cached_file: the last handle of a detached entry frees it; an entry
        in the cache moves to the front, and is closed if it is little used. */
    method CloseCached(file: int, minUses: nat, now: int, ghost loose: set<int>)
      requires Index(multiset{}) && Table(loose, if file in Cached() then {} else {file})
      requires file in files && files[file].err == 0 && !files[file].isDir && files[file].close == (file !in Cached())
      modifies this`files, this`owner, this`fds, this`handles, queue, queue.next, queue.prev
      ensures Index(multiset{}) && Table(loose, {}) && handles == old(handles)
      ensures forall x :: x in old(files) && x != file ==> x in files && files[x] == old(files)[x]
      ensures forall x :: x in files ==> x in old(files)
      ensures file in files <==> file in Cached() || old(files)[file].count > 0
      ensures file in files ==> files[file] == Rested(old(files)[file], minUses, now)
      ensures file !in files && old(files)[file].fd != INVALID ==> old(files)[file].fd !in fds
      ensures file in files && files[file].fd != old(files)[file].fd ==> old(files)[file].fd !in fds
      ensures fds <= old(fds) && (old(files)[file].close ==> queue.items == old(queue.items))
      ensures !old(files)[file].close ==> queue.items == [file] + Minus(old(queue.items), file)
      ensures old(files)[file].close ==>
                files == Dropped(old(files), file, old(files)[file]) && fds == LeftFds(old(fds), old(files)[file])
    {
      hide Index, Shaped, Owned, Counted, Recounted, Inorder;
      ghost var leaving := if file in Cached() then {} else {file};
      if !files[file].close {
        var f := files[file].(accessed := now);
        ShapeOf(files, Cached(), leaving, file);
        SameHandles(files, handles, file, f);
        Put(file, f, loose, leaving, handles);
        Requeue(file);
        if files[file].uses >= minUses || files[file].count > 0 {
          return;
        }
      }
      if files[file].count > 0 {
        KeptForHandles(files, Cached(), file);
        return;
      }
      if files[file].fd != INVALID {
        CloseEntry(file, loose, leaving);
      }
      if !files[file].close {
        return;
      }
      Free(file, loose, leaving);
      assert leaving - {file} == {};
    }

    method Requeue(file: int)
      requires Index(multiset{}) && file in Cached() && 0 <= file < queue.next.Length && file != queue.head
      modifies queue, queue.next, queue.prev
      ensures Index(multiset{}) && queue.items == [file] + Minus(old(queue.items), file)
    {
      hide Index;
      OffShelf(file);
      Reshelve(file);
    }

    /** One entry is taken off the cache. */
    method ExpireOne(file: int, now: int, ghost loose: set<int>)
      requires Index(multiset{}) && Table(loose, {}) && file in Cached() && |queue.items| > 0
                 && file == queue.items[|queue.items| - 1]
      modifies this`current, this`files, this`owner, this`fds, this`handles, tree, tree.mem, queue, queue.next,
               queue.prev
      ensures Index(multiset{}) && Table(loose, {}) && handles == old(handles) && current == old(current) - 1
      ensures forall x :: x in Cached() <==> x in old(Cached()) && x != file
      ensures |tree.key| == |old(tree.key)|
                && forall x :: 0 <= x < |tree.key| && x != file ==> tree.key[x] == old(tree.key)[x]
      ensures queue.items == old(queue.items)[..|old(queue.items)| - 1] && fds <= old(fds)
                && forall x :: x in files ==> x in old(files)
      ensures forall x :: x in Cached() ==> x in files && x in old(files) && files[x] == old(files)[x]
      ensures file in old(files) && files == Dropped(old(files), file, old(files)[file])
      ensures fds == LeftFds(old(fds), old(files)[file])
    {
      hide Index, Shaped, Owned, Counted, Recounted, Inorder;
      AllCached(files, Cached(), {});
      OffShelf(file);
      Unlink(file, loose);
      ShapeOf(files, Cached(), {file}, file);
      if files[file].err == 0 && !files[file].isDir {
        var f := files[file].(close := true);
        SameHandles(files, handles, file, f);
        Put(file, f, loose, {file}, handles);
        CloseCached(file, 0, now, loose);
      } else {
        Free(file, loose, {file});
        assert {file} - {file} == {};
      }
    }

    /** ngx_expire_old_cached_files: for n == 0 the least recently used entry goes in
        any case, and one or two inactive ones. */
    method Expire(start: nat, now: int, ghost loose: set<int>) returns (ghost gone: seq<int>)
      requires Index(multiset{}) && Table(loose, {}) && start < 3
      modifies this`current, this`files, this`owner, this`fds, this`handles, tree, tree.mem, queue, queue.next,
               queue.prev
      ensures Index(multiset{}) && Table(loose, {}) && handles == old(handles)
      ensures current <= old(current) && (start == 0 && old(current) > 0 ==> current < old(current))
      ensures |tree.key| == |old(tree.key)| && fds <= old(fds) && forall x :: x in files ==> x in old(files)
      ensures forall x :: x in Cached() ==>
                x in old(Cached()) && (0 <= x < |tree.key| ==> tree.key[x] == old(tree.key)[x])
      ensures forall x :: x in Cached() ==> x in files && x in old(files) && files[x] == old(files)[x]
      ensures Trimmed(old(files), old(queue.items), queue.items, start, now, inactive)
      ensures FromEnd(old(queue.items), queue.items, gone) && (files, fds) == Evicted(old(files), old(fds), gone)
    {
      hide Index, Table, Inorder, Trimmed, Trimming, Queue.Ring, Dropped;
      var n := start;
      gone := [];
      TableFiles(loose);
      StartTrim(files, queue.items, start, now, inactive);
      while n < 3
        invariant Index(multiset{}) && Table(loose, {}) && handles == old(handles)
        invariant start <= n && current <= old(current) && (n > start ==> current < old(current))
        invariant |tree.key| == |old(tree.key)| && fds <= old(fds) && forall x :: x in files ==> x in old(files)
        invariant forall x :: x in Cached() ==>
                    x in old(Cached()) && (0 <= x < |tree.key| ==> tree.key[x] == old(tree.key)[x])
        invariant forall x :: x in Cached() ==> x in files && x in old(files) && files[x] == old(files)[x]
        invariant Trimming(old(files), old(queue.items), queue.items, start, now, inactive)
        invariant n <= 3 && |old(queue.items)| - |queue.items| == n - start
                    && (n == start ==> queue.items == old(queue.items))
        invariant FromEnd(old(queue.items), queue.items, gone) && (files, fds) == Evicted(old(files), old(fds), gone)
      {
        QueueIsCached();
        var empty := queue.Empty();
        if empty {
          EndTrim(old(files), old(queue.items), queue.items, start, now, inactive);
          return;
        }
        var file := queue.Last();
        assert file in queue.items;
        n := n + 1;
        if n - 1 != 0 && now - files[file].accessed <= inactive {
          EndTrim(old(files), old(queue.items), queue.items, start, now, inactive);
          return;
        }
        MoreTrim(old(files), old(queue.items), queue.items, start, now, inactive);
        ExpireOne(file, now, loose);
        gone := gone + [file];
        assert gone[..|gone| - 1] + [file] == gone;
      }
      EndTrim(old(files), old(queue.items), queue.items, start, now, inactive);
    }

    lemma TableFiles(loose: set<int>)
      requires Table(loose, {})
      ensures forall x :: x in Cached() ==> x in files
    {
      AllCached(files, Cached(), {});
    }

    lemma QueueIsCached()
      requires Index(multiset{})
      ensures queue.Valid() && forall x :: x in queue.items <==> x in Cached()
      ensures |queue.items| == |Cached()| == current
    {
      MultisetMembers(queue.items, Cached(), multiset{});
    }

    lemma QueueMembers()
      requires Index(multiset{})
      ensures Circular.Distinct(queue.items) && forall x :: x in queue.items <==> x in Cached()
    {
      QueueIsCached();
    }

    /** ngx_open_file_cleanup: a caller is done with its descriptor. */
    method Cleanup(h: Handle, minUses: nat, now: int) returns (ghost gone: seq<int>)
      requires Valid() && h in handles
      modifies this`current, this`files, this`owner, this`fds, this`handles, tree, tree.mem, queue, queue.next,
               queue.prev
      ensures Valid() && handles == old(handles) - multiset{h} && h.file in old(files)
      ensures old(files)[h.file].close ==> (h.fd in fds <==> old(files)[h.file].count > 1)
      ensures h.file in Cached() ==>
                var f := old(files)[h.file];
                && (h.fd in fds <==> f.uses >= minUses || f.count > 1) && h.file in files
                && files[h.file] ==
                   f.(count := f.count - 1, accessed := now, fd := if h.fd in fds then h.fd else INVALID)
      ensures Rearranged(old(files), old(queue.items), queue.items, h.file, gone, now, inactive)
      ensures old(Recent(files, queue.items)) && (forall x :: x in old(Cached()) ==> old(files)[x].accessed <= now) ==>
                Recent(files, queue.items)
    {
      hide Index, Shaped, Owned, Counted, Recounted, Inorder, Trimmed, FromEnd, Recent, Rearranged, Minus, Evicted,
          Circular.Distinct;
      var file := h.file;
      HeldIsOwned(files, owner, handles, Cached(), {}, h);
      HeldBy(files, handles, h);
      HeldTimes(files, handles, h);
      QueueMembers();
      AllCached(files, Cached(), {});
      ShapeOf(files, Cached(), {}, file);
      ghost var leaving := if file in Cached() then {} else {file};
      MoreLeaving(files, Cached(), leaving);
      var f := files[file].(count := files[file].count - 1);
      LessHandles(files, handles, file, f);
      Put(file, f, {}, leaving, handles - multiset{h});
      CloseCached(file, minUses, now, {});
      ghost var front, closed := queue.items, files;
      QueueMembers();
      gone := Expire(1, now, {});
      QueueMembers();
      AtMostTwo(old(files), old(queue.items), closed, queue.items, front, file, gone, now, inactive);
      RecentStill(old(files), old(queue.items), files, queue.items, front, file, gone, now, inactive);
      HandedOutIsOpen();
      if file in Cached() && files[file].fd != INVALID {
        EntryIsOpen(file);
      }
    }

    // ------------------------------------------------------------ opening

    /** ngx_open_and_stat_file */
    method OpenAndStat(given: OpenInfo, stat: Answer, open: Answer, newFd: int) returns (ok: bool, of: OpenInfo)
      requires newFd !in fds && newFd != INVALID && newFd != given.fd
      modifies this`fds
      ensures (ok, of) == Stat(given, stat, open, newFd)
      ensures fds == old(fds) + if of.fd == newFd then {newFd} else {}
    {
      of := given;
      if of.fd != INVALID {
        if stat.Absent? {
          return false, of.(fd := INVALID, err := stat.err);
        }
        if of.uniq == stat.uniq {
          return true, Seen(of, of.fd, stat);
        }
      } else if of.testDir {
        if stat.Absent? {
          return false, of.(fd := INVALID, err := stat.err);
        }
        if stat.isDir {
          return true, Seen(of, of.fd, stat);
        }
      }
      if open.Absent? {
        return false, of.(fd := INVALID, err := open.err);
      }
      fds := fds + {newFd};
      if open.isDir {
        fds := fds - {newFd};
        return true, Seen(of, INVALID, open);
      }
      return true, Seen(of, newFd, open);
    }

    /** `update`: the entry takes what was found, and the caller gets a handle. */
    method Update(file: int, of: OpenInfo, now: int)
      requires file in files && file in Cached() && Fitting(files[file], of) && files[file].count + 1 < COUNT_WRAP
      requires Table(if of.fd == files[file].fd then {} else Loose(of), {})
      modifies this`files, this`owner, this`handles
      ensures Table({}, {}) && files == old(files)[file := Updated(old(files)[file], of, now)]
      ensures handles == old(handles) + if of.err == 0 && !of.isDir then multiset{Handle(file, of.fd)} else multiset{}
    {
      hide Index, Shaped, Owned, Counted, Recounted, Inorder;
      ghost var loose := if of.fd == files[file].fd then {} else Loose(of);
      var f := Updated(files[file], of, now);
      ShapeOf(files, Cached(), {}, file);
      ghost var more := if of.err == 0 && !of.isDir then multiset{Handle(file, of.fd)} else multiset{};
      if of.err == 0 && !of.isDir {
        MoreHandles(files, handles, file, f);
      } else {
        SameHandles(files, handles, file, f);
        assert handles + more == handles;
      }
      Put(file, f, loose, {}, handles + more);
      assert Loose(of) - {of.fd} == {};
    }

    /** `found`: the entry goes to the front of the queue. */
    method Found(file: int, now: int)
      requires Index(multiset{file}) && Table({}, {}) && file in files
      modifies this`files, this`owner, this`handles, queue, queue.next, queue.prev
      ensures Index(multiset{}) && Table({}, {}) && handles == old(handles)
      ensures files == old(files)[file := old(files)[file].(accessed := now)]
      ensures queue.items == [file] + old(queue.items)
    {
      hide Index, Shaped, Owned, Counted, Recounted, Inorder;
      var f := files[file].(accessed := now);
      ShapeOf(files, Cached(), {}, file);
      SameHandles(files, handles, file, f);
      Put(file, f, {}, {}, handles);
      Reshelve(file);
    }

    method Refresh(file: int, of: OpenInfo, now: int)
      requires Index(multiset{file}) && file in files && file in Cached() && Fitting(files[file], of)
                 && files[file].count + 1 < COUNT_WRAP
      requires Table(if of.fd == files[file].fd then {} else Loose(of), {})
      modifies this`files, this`owner, this`handles, queue, queue.next, queue.prev
      ensures Index(multiset{}) && Table({}, {}) && queue.items == [file] + old(queue.items)
      ensures files == old(files)[file := Updated(old(files)[file], of, now).(accessed := now)]
      ensures handles == old(handles) + if of.err == 0 && !of.isDir then multiset{Handle(file, of.fd)} else multiset{}
    {
      hide Index, Table, Fitting, Updated;
      Update(file, of, now);
      Found(file, now);
    }

    /** A fresh entry answers without the file system. */
    method Hit(file: int, given: OpenInfo, now: int) returns (of: OpenInfo)
      requires Index(multiset{file}) && Table({}, {}) && file in files && file in Cached()
                 && files[file].count + 1 < COUNT_WRAP
      requires given.err == 0 && !given.isDir && given.fd == INVALID
      requires files[file].err != 0 || files[file].isDir || files[file].fd != INVALID
      modifies this`files, this`owner, this`handles, queue, queue.next, queue.prev
      ensures Index(multiset{}) && Table({}, {}) && file in files && of == FromEntry(old(files)[file], given)
                && Reports(files[file], of)
      ensures queue.items == [file] + old(queue.items)
      ensures files == old(files)[file := OneMore(old(files)[file]).(accessed := now)]
      ensures handles == old(handles) + if of.err == 0 && !of.isDir then multiset{Handle(file, of.fd)} else multiset{}
    {
      hide Index, Shaped, Owned, Counted, Recounted, Inorder;
      var f := files[file];
      of := given;
      assert handles + multiset{} == handles;
      if f.err == 0 {
        of := of.(fd := f.fd, uniq := f.uniq, info := f.info, isDir := f.isDir);
        if !f.isDir {
          ShapeOf(files, Cached(), {}, file);
          var f1 := f.(count := (f.count + 1) % COUNT_WRAP);
          MoreHandles(files, handles, file, f1);
          Put(file, f1, {}, {}, handles + multiset{Handle(file, f.fd)});
        }
      } else {
        of := of.(err := f.err);
      }
      Found(file, now);
    }

    /** `failed` without an entry: a descriptor just opened is closed again. */
    method Abandon(of: OpenInfo)
      requires Table(Loose(of), {})
      modifies this`fds
      ensures Table({}, {}) && fds == old(fds) - {of.fd}
    {
      hide Shaped, Owned, Counted;
      NoInvalid(files, owner);
      if of.fd != INVALID {
        LooseNotHeld(files, owner, handles, Cached(), {}, of.fd);
        Close(of.fd);
      }
    }

    /** `failed`: the entry leaves the cache, and stays for its handles only. */
    method Fail(file: int, of: OpenInfo)
      requires Index(multiset{file}) && Table(Loose(of), {})
      modifies this`current, this`files, this`owner, this`fds, this`handles, tree, tree.mem
      ensures Index(multiset{}) && Table({}, {}) && handles == old(handles) && current == old(current) - 1
      ensures forall x :: x in Cached() <==> x in old(Cached()) && x != file
      ensures |tree.key| == |old(tree.key)|
                && forall x :: 0 <= x < |tree.key| && x != file ==> tree.key[x] == old(tree.key)[x]
      ensures file in old(files) && files == Dropped(old(files), file, old(files)[file])
      ensures fds == DroppedFds(old(fds), old(files)[file], of)
    {
      hide Index, Shaped, Owned, Counted, Recounted, Inorder;
      Unlink(file, Loose(of));
      NoInvalid(files, owner);
      NoLonger(old(Cached()), Cached(), file);
      if files[file].count == 0 {
        if files[file].fd != INVALID {
          CloseEntry(file, Loose(of), {file});
        }
        Free(file, Loose(of), {file});
        assert {file} - {file} == {};
      } else {
        SetClose(file, Loose(of));
      }
      Abandon(of);
    }

    /** A detached entry with handles. */
    method SetClose(file: int, ghost loose: set<int>)
      requires Table(loose, {file}) && file in files && file !in Cached() && files[file].count > 0
      modifies this`files, this`owner, this`handles
      ensures Table(loose, {}) && handles == old(handles)
                && files == old(files)[file := old(files)[file].(close := true)]
    {
      hide Shaped, Owned, Counted, Recounted, Inorder;
      var f := files[file].(close := true);
      ShapeOf(files, Cached(), {file}, file);
      SameHandles(files, handles, file, f);
      Put(file, f, loose, {file}, handles);
      KeptForHandles(files, Cached(), file);
    }

    /** A new entry, in the memory that was given for it. */
    method Add(id: int, name: Name, of: OpenInfo, now: int, junk: File)
      requires Index(multiset{}) && Table(Loose(of), {}) && NotNamed(tree.key, Cached(), Key(hash(name), name))
      requires 0 <= id < tree.mem.Length && id < queue.next.Length && id != tree.s && id != queue.head && id !in files
      requires (of.err != 0 ==> !of.isDir) && (of.fd == INVALID <==> of.err != 0 || of.isDir)
      modifies this`current, this`files, this`owner, this`handles, tree, tree.mem, queue, queue.next, queue.prev
      ensures Index(multiset{}) && Table({}, {}) && current == old(current) + 1 && id in Cached()
      ensures id < |tree.key| && tree.key[id] == Key(hash(name), name)
      ensures files == old(files)[id := Updated(junk.(uses := 1, count := 0), of, now).(accessed := now)]
      ensures queue.items == [id] + old(queue.items)
      ensures OthersKept(old(files), files, old(tree.key), tree.key, old(Cached()), Cached(), id)
      ensures handles == old(handles) + if of.err == 0 && !of.isDir then multiset{Handle(id, of.fd)} else multiset{}
    {
      hide Index, Shaped, Owned, Counted, Recounted, Inorder, NotNamed, Claim, Updated, Shape, OthersKept;
      ghost var l, ks := Cached(), tree.key;
      NotCached(files, l, {}, id);
      AllCached(files, l, {});
      AddKey(id, name);
      assert tree.key[id] == Key(hash(name), name);
      var f := Updated(junk.(uses := 1, count := 0), of, now);
      NewEntry(junk, of, now);
      FirstHandle(files, handles, id, f);
      ghost var more := if f.count == 1 then multiset{Handle(id, f.fd)} else multiset{};
      AddTable(files, owner, handles, handles + more, l, Cached(), id, f, of);
      files := files[id := f];
      owner := Claim(owner, id, f.fd);
      handles := handles + more;
      Found(id, now);
      AddedOthers(old(files), files, ks, tree.key, l, Cached(), id);
    }

    method AddKey(id: int, name: Name)
      requires Index(multiset{}) && NotNamed(tree.key, Cached(), Key(hash(name), name))
      requires 0 <= id < tree.mem.Length && id != tree.s && id !in Cached()
      modifies this`current, tree, tree.mem
      ensures Index(multiset{id}) && current == old(current) + 1
      ensures forall x :: x in Cached() <==> x in old(Cached()) || x == id
      ensures id < |old(tree.key)| && tree.key == old(tree.key)[id := Key(hash(name), name)]
    {
      hide Zip, RedBlack, Inorder, KeyLess, Queue.Ring, Sorted, Ordered, Between, Named, NotNamed;
      ghost var l, ks := Cached(), tree.key;
      tree.key := tree.key[id := Key(hash(name), name)];
      SortedSame(ks, tree.key, l, id);
      InBounds(tree.key, l, id);
      KeysOrdered(tree.key, l + [id]);
      var k := tree.Insert(id);
      PutIn(l, k, id);
      MultisetMembers(l, Cached(), multiset{id});
      NamedMore(hash, ks, tree.key, l, Cached(), id);
      current := current + 1;
    }

    /** An entry has to go if the cache is full. */
    method MakeRoom(name: Name, of: OpenInfo, now: int) returns (ghost gone: seq<int>)
      requires Index(multiset{}) && Table(Loose(of), {}) && NotNamed(tree.key, Cached(), Key(hash(name), name))
      requires max >= 1 ==> current <= max
      modifies this`current, this`files, this`owner, this`fds, this`handles, tree, tree.mem, queue, queue.next,
               queue.prev
      ensures Index(multiset{}) && Table(Loose(of), {}) && NotNamed(tree.key, Cached(), Key(hash(name), name))
      ensures handles == old(handles) && (max >= 1 ==> current < max) && forall x :: x in files ==> x in old(files)
      ensures (files, fds) == Evicted(old(files), old(fds), gone) && |gone| <= |old(queue.items)|
      ensures queue.items == old(queue.items)[..|old(queue.items)| - |gone|]
      ensures (gone != [] <==> old(current) >= max && old(current) > 0) && forall x :: x in gone ==> x in old(Cached())
      ensures OthersKept(old(files), files, old(tree.key), tree.key, old(Cached()), Cached(), NULL)
      ensures |tree.key| == |old(tree.key)|
      ensures forall x :: x in Cached() ==>
                x in old(Cached()) && x in files && x in old(files) && files[x] == old(files)[x] &&
                (0 <= x < |tree.key| ==> tree.key[x] == old(tree.key)[x])
    {
      hide Index, Table, Inorder, NotNamed, Evicted, FromEnd;
      gone := [];
      EvictedNone(files, fds);
      IndexSize();
      TableFiles(Loose(of));
      if current >= max {
        ghost var l, ks := Cached(), tree.key;
        QueueIsCached();
        ghost var items := queue.items;
        gone := Expire(0, now, Loose(of));
        QueueIsCached();
        GoneWereThere(items, queue.items, gone);
        StillNotNamed(ks, tree.key, l, Cached(), Key(hash(name), name));
        IndexSize();
      }
    }

    /** `create`: make room if the cache is full, then add the entry. */
    method Create(name: Name, of: OpenInfo, now: int, memory: int)
      returns (file: int, ghost gone: seq<int>, ghost junk: File)
      requires Index(multiset{}) && Table(Loose(of), {}) && NotNamed(tree.key, Cached(), Key(hash(name), name))
      requires (of.err != 0 ==> !of.isDir) && (of.fd == INVALID <==> of.err != 0 || of.isDir)
      requires (max >= 1 ==> current <= max) && Spare(memory)
      modifies this`current, this`files, this`owner, this`fds, this`handles, tree, tree.mem, queue, queue.next,
               queue.prev
      ensures Valid() && file == memory
      ensures file == NULL ==> NotNamed(tree.key, Cached(), Key(hash(name), name)) && handles == old(handles)
      ensures file != NULL ==>
                file in files && file in Cached() && 0 <= file < |tree.key| && tree.key[file] == Key(hash(name), name)
      ensures OthersKept(old(files), files, old(tree.key), tree.key, old(Cached()), Cached(), file)
      ensures file != NULL ==> files[file].fd == of.fd && files[file].err == of.err
      ensures file != NULL && of.err == 0 ==>
                files[file].uniq == of.uniq && files[file].info == of.info && files[file].isDir == of.isDir
      ensures file != NULL ==>
                handles == old(handles) + if of.err == 0 && !of.isDir then multiset{Handle(file, of.fd)} else multiset{}
      ensures file != NULL ==> Reports(files[file], of)
      ensures (files, fds) == Created(old(files), old(fds), gone, memory, junk, of, now)
      ensures gone != [] ==> old(current) >= max
      ensures |gone| <= |old(queue.items)|
      ensures queue.items == (if file != NULL then [file] else []) + old(queue.items)[..|old(queue.items)| - |gone|]
      ensures forall x :: x in gone ==> x in old(Cached())
    {
      hide Index, Table, Inorder, NotNamed, Evicted, FromEnd;
      var before: File := *;
      junk := before;
      gone := MakeRoom(name, of, now);
      if memory == NULL {
        assert [] + queue.items == queue.items;
        Abandon(of);
      } else {
        Add(memory, name, of, now, before);
      }
      file := memory;
    }

    /** NULL, or memory that no entry is in. */
    ghost predicate Spare(memory: int)
      reads this`files
    {
      memory == NULL || (0 <= memory < tree.mem.Length && memory < queue.next.Length && memory != tree.s
          && memory != queue.head && memory !in files)
    }

    lemma IndexSize()
      requires Index(multiset{})
      ensures current == |Cached()| >= 0
    {
    }

    /** The file was looked at again: refresh the entry, or detach it if the file is
        another one and the old one is still in use. */
    method Retest(file: int, of: OpenInfo, now: int) returns (done: bool)
      requires Index(multiset{file}) && file in files && file in Cached() && files[file].count + 1 < COUNT_WRAP
      requires Table(if of.fd == files[file].fd then {} else Loose(of), {})
      requires (of.err != 0 ==> !of.isDir) && (of.fd == INVALID <==> of.err != 0 || of.isDir)
      requires files[file].err != 0 || files[file].isDir || files[file].fd != INVALID
      requires of.fd != INVALID && files[file].fd != INVALID ==>
                 (of.fd == files[file].fd <==> of.uniq == files[file].uniq)
      modifies this`current, this`files, this`owner, this`fds, this`handles, tree, tree.mem, queue, queue.next,
               queue.prev
      ensures Index(multiset{}) && (max >= 1 && old(current) <= max ==> current <= max)
      ensures done ==> Table({}, {}) && file in files && Cached() == old(Cached()) && tree.key == old(tree.key)
      ensures done ==> files[file].fd == of.fd && files[file].err == of.err
      ensures done && of.err == 0 ==>
                files[file].uniq == of.uniq && files[file].info == of.info && files[file].isDir == of.isDir
      ensures done ==>
                handles == old(handles) + if of.err == 0 && !of.isDir then multiset{Handle(file, of.fd)} else multiset{}
      ensures queue.items == (if done then [file] else []) + old(queue.items)
      ensures done <==> !Changed(old(files)[file], of)
      ensures files == Retested(old(files), file, old(files)[file], of, now)
                && fds == RetestedFds(old(fds), old(files)[file], of)
      ensures !done ==> Table(Loose(of), {}) && handles == old(handles) && forall x :: x in files ==> x in old(files)
      ensures !done ==> forall x :: x in Cached() <==> x in old(Cached()) && x != file
      ensures !done ==>
                |tree.key| == |old(tree.key)|
                    && forall x :: 0 <= x < |tree.key| && x != file ==> tree.key[x] == old(tree.key)[x]
    {
      hide Index, Shaped, Owned, Counted, Inorder;
      var f := files[file];
      ShapeOf(files, Cached(), {}, file);
      done := true;
      if of.isDir {
        if f.isDir || f.err != 0 {
          Refresh(file, of, now);
          return;
        }
      } else if of.err == 0 {
        if f.isDir || f.err != 0 || of.uniq == f.uniq {
          Refresh(file, of, now);
          return;
        }
      } else {
        if f.err != 0 || f.isDir {
          Refresh(file, of, now);
          return;
        }
      }
      if f.count == 0 {
        CloseEntry(file, Loose(of), {});
        Refresh(file, of, now);
        return;
      }
      Unlink(file, Loose(of));
      NoLonger(old(Cached()), Cached(), file);
      SetClose(file, Loose(of));
      done := false;
    }

    /** The name is in the cache: use the entry, or look at the file again. */
    method OpenFound(file: int, given: OpenInfo, now: int, stat: Answer, open: Answer, newFd: int)
      returns (done: bool, entry: int, of: OpenInfo)
      requires Index(multiset{}) && Table({}, {}) && file in Cached() && file in files && file != NULL
      requires given.fd == INVALID && given.err == 0 && !given.isDir && newFd !in fds && newFd != INVALID
                 && newFd != files[file].fd
      requires Steady(stat, open) && Safe(files[file], given, now, stat)
      modifies this`current, this`files, this`owner, this`fds, this`handles, tree, tree.mem, queue, queue.next,
               queue.prev
      ensures Index(multiset{}) && (max >= 1 && old(current) <= max ==> current <= max)
      ensures of.err != 0 ==> !of.isDir
      ensures Tells(old(files)[file], file, given, now, stat, open, newFd, done, entry, of)
      ensures files == Answered(old(files), file, given, now, stat, open, newFd)
      ensures fds == AnsweredFds(old(files), old(fds), file, given, now, stat, open, newFd)
      ensures done ==> Table({}, {}) && (entry == file || entry == NULL)
      ensures queue.items == (if done && entry != NULL then [file] else []) + Minus(old(queue.items), file)
      ensures done && entry == NULL ==>
                Gone(old(tree.key), tree.key, old(Cached()), Cached(), file) && handles == old(handles)
      ensures done && entry != NULL ==>
                Cached() == old(Cached()) && tree.key == old(tree.key) && file in files && Reports(files[file], of)
      ensures done && entry != NULL ==> handles == old(handles) + Granted(file, of)
      ensures !done ==>
                Table(Loose(of), {}) && handles == old(handles) && (of.fd == INVALID <==> of.err != 0 || of.isDir)
      ensures !done ==>
                Gone(old(tree.key), tree.key, old(Cached()), Cached(), file)
                    && forall x :: x in files ==> x in old(files)
    {
      hide Index, Table, Judged, JudgedFds, OneMore, Inorder, Stat, Steady, Trusted, Question, Changed, FromEntry,
          Gone, Reports;
      Touch(file);
      UsesDoNotMatter(old(files)[file], files[file].uses, given, now);
      done := true;
      if files[file].fd == INVALID && files[file].err == 0 && !files[file].isDir {
        entry, of := Reopen(file, given, now, stat, open, newFd);
      } else if Trusted(files[file], given, now) {
        of := Hit(file, given, now);
        entry := file;
      } else {
        done, entry, of := Revalidate(file, given, now, stat, open, newFd);
      }
    }

    /** The entry is too old to be believed: the file is looked at again. */
    method Revalidate(file: int, given: OpenInfo, now: int, stat: Answer, open: Answer, newFd: int)
      returns (done: bool, entry: int, of: OpenInfo)
      requires Index(multiset{file}) && Table({}, {}) && file in Cached() && file in files && file != NULL
                 && files[file].count + 1 < COUNT_WRAP
      requires given.fd == INVALID && given.err == 0 && !given.isDir && newFd !in fds && newFd != INVALID
                 && newFd != files[file].fd
      requires Steady(stat, open) && !Shut(files[file]) && Telling(Question(files[file], given), stat)
      modifies this`current, this`files, this`owner, this`fds, this`handles, tree, tree.mem, queue, queue.next,
               queue.prev
      ensures Index(multiset{}) && (max >= 1 && old(current) <= max ==> current <= max) && (of.err != 0 ==> !of.isDir)
      ensures var f := old(files)[file];
              var (ok, o) := Stat(Question(f, given), stat, open, newFd);
              && of == o && (done && entry == NULL <==> Refused(ok, o)) && (!done <==> !Refused(ok, o) && Changed(f, o))
              && files == Judged(old(files), file, f, ok, o, now) && fds == JudgedFds(old(fds), f, ok, o, newFd)
      ensures done ==> Table({}, {}) && (entry == file || entry == NULL)
      ensures queue.items == (if done && entry != NULL then [file] else []) + old(queue.items)
      ensures done && entry == NULL ==>
                Gone(old(tree.key), tree.key, old(Cached()), Cached(), file) && handles == old(handles)
      ensures done && entry != NULL ==>
                Cached() == old(Cached()) && tree.key == old(tree.key) && file in files && Reports(files[file], of)
      ensures done && entry != NULL ==> handles == old(handles) + Granted(file, of)
      ensures !done ==>
                Table(Loose(of), {}) && handles == old(handles) && (of.fd == INVALID <==> of.err != 0 || of.isDir)
      ensures !done ==>
                Gone(old(tree.key), tree.key, old(Cached()), Cached(), file)
                    && forall x :: x in files ==> x in old(files)
    {
      hide Index, Shaped, Owned, Counted, Recounted, Inorder, Stat, Steady, Changed;
      var f := files[file];
      ShapeOf(files, Cached(), {}, file);
      of := given;
      done, entry := true, NULL;
      if f.isDir {
        of := of.(testDir := true);
      }
      of := of.(fd := f.fd, uniq := f.uniq);
      var ok;
      ok, of := Look(file, of, stat, open, newFd);
      if !ok && (of.err == 0 || !of.errors) {
        Fail(file, of);
        return;
      }
      done := Retest(file, of, now);
      if done {
        entry := file;
      }
    }

    /** The file system is asked about an entry; a new descriptor is loose. */
    method Look(file: int, given: OpenInfo, stat: Answer, open: Answer, newFd: int) returns (ok: bool, of: OpenInfo)
      requires Table({}, {}) && file in files && given.fd == files[file].fd && given.err == 0 && !given.isDir
      requires newFd !in fds && newFd != INVALID && newFd != given.fd && Steady(stat, open)
      requires given.fd != INVALID && stat.Present? && stat.uniq == given.uniq ==> !stat.isDir
      modifies this`fds
      ensures Table(if of.fd == files[file].fd then {} else Loose(of), {})
      ensures (ok, of) == Stat(given, stat, open, newFd) && (ok ==> of.err == 0)
                && (!ok ==> of.fd == INVALID && !of.isDir)
      ensures fds == old(fds) + if of.fd == newFd then {newFd} else {}
      ensures (of.err != 0 ==> !of.isDir) && (ok || of.err != 0 ==> (of.fd == INVALID <==> of.err != 0 || of.isDir))
      ensures of.fd != INVALID && given.fd != INVALID ==> (of.fd == given.fd <==> of.uniq == given.uniq)
    {
      hide Shaped, Owned, Counted;
      StatFacts(given, stat, open, newFd);
      ok, of := OpenAndStat(given, stat, open, newFd);
    }

    /** The descriptor had been closed for little use. */
    method Reopen(file: int, given: OpenInfo, now: int, stat: Answer, open: Answer, newFd: int)
      returns (entry: int, of: OpenInfo)
      requires Index(multiset{file}) && Table({}, {}) && file in Cached() && file in files && file != NULL
                 && files[file].count + 1 < COUNT_WRAP
      requires given.fd == INVALID && given.err == 0 && !given.isDir && newFd !in fds && newFd != INVALID
                 && Steady(stat, open)
      requires files[file].fd == INVALID && files[file].err == 0 && !files[file].isDir
      modifies this`current, this`files, this`owner, this`fds, this`handles, tree, tree.mem, queue, queue.next,
               queue.prev
      ensures Index(multiset{}) && Table({}, {}) && current <= old(current) && (entry == file || entry == NULL)
                && (of.err != 0 ==> !of.isDir)
      ensures queue.items == (if entry != NULL then [file] else []) + old(queue.items)
      ensures entry == NULL ==> Gone(old(tree.key), tree.key, old(Cached()), Cached(), file) && handles == old(handles)
      ensures entry != NULL ==>
                Cached() == old(Cached()) && tree.key == old(tree.key) && file in files && Reports(files[file], of)
      ensures entry != NULL ==> handles == old(handles) + Granted(file, of)
      ensures var f := old(files)[file];
              var (ok, o) := Stat(given, stat, open, newFd);
              && of == o && (entry == NULL <==> Refused(ok, o))
              && files == Judged(old(files), file, f, ok, o, now) && fds == JudgedFds(old(fds), f, ok, o, newFd)
    {
      hide Index, Shaped, Owned, Counted, Recounted, Inorder, Steady, Stat;
      ShapeOf(files, Cached(), {}, file);
      var ok;
      ok, of := Look(file, given, stat, open, newFd);
      if !ok && (of.err == 0 || !of.errors) {
        Fail(file, of);
        entry := NULL;
      } else {
        Refresh(file, of, now);
        entry := file;
      }
    }

    method OpenFresh(given: OpenInfo, stat: Answer, open: Answer, newFd: int) returns (ok: bool, of: OpenInfo)
      requires Table({}, {}) && newFd !in fds && newFd != INVALID && given.fd == INVALID
      modifies this`fds
      ensures (ok, of) == Stat(given, stat, open, newFd) && Table(Loose(of), {}) && fds == old(fds) + Loose(of)
    {
      ok, of := OpenAndStat(given, stat, open, newFd);
    }

    lemma NullNotQueued()
      requires Index(multiset{}) && Table({}, {})
      ensures Minus(queue.items, NULL) == queue.items
    {
      QueueIsCached();
      TableFiles({});
      MinusNone(queue.items, NULL);
    }

    lemma NoneInvalid()
      requires Table(fds - owner.Keys, {})
      ensures INVALID !in owner
    {
      NoInvalid(files, owner);
    }

    lemma IndexTree()
      requires Index(multiset{})
      ensures tree.Valid() && Sorted(KeyLess, tree.key, Cached()) && Named(hash, tree.key, Cached())
    {
    }

    lemma ReadyFor(file: int, newFd: int)
      requires Table({}, {}) && file in Cached() && newFd !in fds && newFd != INVALID
      ensures file in files && newFd != files[file].fd
    {
    }

    lemma EntryIsOpen(file: int)
      requires Table({}, {}) && file in files && files[file].fd != INVALID
      ensures files[file].fd in fds
    {
      hide Shaped, Counted;
    }

    /** A descriptor in the hands of a caller is open. */
    lemma HandedOutIsOpen()
      requires Table({}, {})
      ensures forall h :: h in handles ==> h.fd in fds && h.fd != INVALID && h.file in files && files[h.file].fd == h.fd
    {
      hide Shaped, Owned, Counted;
      forall h | h in handles ensures h.fd in fds && h.fd != INVALID && h.file in files && files[h.file].fd == h.fd {
        HeldIsOwned(files, owner, handles, Cached(), {}, h);
        HeldBy(files, handles, h);
      }
    }

    /** ngx_open_cached_file: a success brings a handle for a regular file, and the
        entry that is in the cache under that name says what the caller is told. */
    method Open(name: Name, given: OpenInfo, now: int, stat: Answer, open: Answer, newFd: int, memory: int)
      returns (ok: bool, of: OpenInfo, file: int, ghost gone: seq<int>, ghost junk: File)
      requires Valid() && Spare(memory) && !given.isDir && newFd !in fds && newFd != INVALID && Steady(stat, open)
      requires forall x :: x in Cached() && x in files && 0 <= x < |tree.key| &&
                           tree.key[x] == Key(hash(name), name) ==>
                 Safe(files[x], given.(fd := INVALID, err := 0), now, stat)
      modifies this`current, this`files, this`owner, this`fds, this`handles, tree, tree.mem, queue, queue.next,
               queue.prev
      ensures Valid()
      ensures ok <==> of.err == 0 && file != NULL
      ensures file == NULL <==> NotNamed(tree.key, Cached(), Key(hash(name), name))
      ensures file != NULL ==> file in Cached() && 0 <= file < |tree.key| && tree.key[file] == Key(hash(name), name)
      ensures file != NULL ==> file in files && Reports(files[file], of)
      ensures forall x :: x in old(Cached()) && 0 <= x < |old(tree.key)| &&
                          old(tree.key)[x] == Key(hash(name), name) ==>
                x in old(files) && OutcomeFound(old(files)[x], given, now, stat, open, newFd, memory, of, file)
      ensures old(NotNamed(tree.key, Cached(), Key(hash(name), name))) ==>
                OutcomeMissing(given, stat, open, newFd, memory, of, file)
      ensures forall x :: x in old(Cached()) && 0 <= x < |old(tree.key)| &&
                          old(tree.key)[x] == Key(hash(name), name) ==>
                x !in gone && AsSettled(old(files), old(fds), x, gone, memory, junk, given, now, stat, open, newFd,
                                        files, fds)
      ensures old(NotNamed(tree.key, Cached(), Key(hash(name), name))) ==>
                (files, fds) == Opened(old(files), old(fds), gone, memory, junk, given.(fd := INVALID, err := 0), now,
                                       stat, open, newFd)
      ensures forall x :: x in old(Cached()) && 0 <= x < |old(tree.key)| &&
                          old(tree.key)[x] == Key(hash(name), name) ==>
                x in old(files) && Served(old(files)[x], x, given.(fd := INVALID, err := 0), now, stat, open, newFd,
                                          memory, of, file, files, old(fds), fds)
      ensures old(NotNamed(tree.key, Cached(), Key(hash(name), name))) ==>
                ServedNew(given.(fd := INVALID, err := 0), now, stat, open, newFd, memory, of, file, files)
      ensures forall x :: x in old(Cached()) && 0 <= x < |old(tree.key)| &&
                          old(tree.key)[x] == Key(hash(name), name) ==>
                Shelved(old(queue.items), queue.items, x, file, gone)
      ensures old(NotNamed(tree.key, Cached(), Key(hash(name), name))) ==>
                Shelved(old(queue.items), queue.items, NULL, file, gone)
      ensures old(Recent(files, queue.items)) && (forall x :: x in old(Cached()) ==> old(files)[x].accessed <= now) ==>
                Recent(files, queue.items)
      ensures handles == old(handles) + if ok then Granted(file, of) else multiset{}
      ensures ok && !of.isDir ==> of.fd in fds
      ensures OthersKept(old(files), files, old(tree.key), tree.key, old(Cached()), Cached(), file)
    {
      hide Index, Table, Inorder, Stat, Sorted, NotNamed, Named, Steady, Gone, Answered, AnsweredFds, Question,
          OthersKept, Settled, Opened, Served, ServedNew, Safe, Shelved, Recent, Circular.Distinct;
      of := given.(fd := INVALID, err := 0);
      ghost var k, l, ks, named := Key(hash(name), name), Cached(), tree.key, NULL;
      IndexTree();
      QueueMembers();
      TableFiles({});
      file := Lookup(tree, hash(name), name);
      IsNotNamed(tree.key, l, k);
      IsNamed(tree.key, l, k, file);
      if file != NULL {
        ReadyFor(file, newFd);
        OnlyOne(hash, ks, l, file, k);
        named := file;
        ok, of, file, gone, junk := OpenNamed(name, file, of, now, stat, open, newFd, memory);
      } else {
        ok, of, file, gone, junk := OpenMissing(name, of, now, stat, open, newFd, memory);
      }
      QueueMembers();
      KeepsRecent(old(files), old(queue.items), ks, l, files, queue.items, tree.key, Cached(), named, file, gone, now);
    }

    /** The name is in the cache. */
    method OpenNamed(name: Name, named: int, given: OpenInfo, now: int, stat: Answer, open: Answer, newFd: int,
                     memory: int)
      returns (ok: bool, of: OpenInfo, file: int, ghost gone: seq<int>, ghost junk: File)
      requires Valid() && Spare(memory) && newFd !in fds && newFd != INVALID && Steady(stat, open)
      requires given.fd == INVALID && given.err == 0 && !given.isDir
      requires named in Cached() && named in files && named != NULL && newFd != files[named].fd
      requires 0 <= named < |tree.key| && tree.key[named] == Key(hash(name), name)
      requires Named(hash, tree.key, Cached()) && Safe(files[named], given, now, stat)
      modifies this`current, this`files, this`owner, this`fds, this`handles, tree, tree.mem, queue, queue.next,
               queue.prev
      ensures Valid()
      ensures ok <==> of.err == 0 && file != NULL
      ensures file == NULL <==> NotNamed(tree.key, Cached(), Key(hash(name), name))
      ensures file != NULL ==> file in Cached() && 0 <= file < |tree.key| && tree.key[file] == Key(hash(name), name)
      ensures file != NULL ==> file in files && Reports(files[file], of)
      ensures OutcomeFound(old(files)[named], given, now, stat, open, newFd, memory, of, file)
      ensures named !in gone
      ensures (files, fds) ==
                Settled(old(files), old(fds), named, gone, memory, junk, given, now, stat, open, newFd)
      ensures Served(old(files)[named], named, given, now, stat, open, newFd, memory, of, file, files, old(fds), fds)
      ensures Shelved(old(queue.items), queue.items, named, file, gone)
      ensures file != NULL ==> file in files && files[file].accessed == now
      ensures handles == old(handles) + if ok then Granted(file, of) else multiset{}
      ensures ok && !of.isDir ==> of.fd in fds
      ensures OthersKept(old(files), files, old(tree.key), tree.key, old(Cached()), Cached(), file)
    {
      hide Index, Table, Inorder, Stat, Sorted, NotNamed, Named, Steady, Answered, AnsweredFds, Question,
          OthersKept, Created, Gone, Settled, MadeAnew, Reports, Safe, Tells, OutcomeFound,
          Served, Private, Minus, Shelved;
      var before: File := *;
      gone, junk := [], before;
      ghost var k, l, ks := Key(hash(name), name), Cached(), tree.key;
      TableFiles({});
      TablePrivate(named);
      SpareIsNew(memory);
      IsNamed(ks, l, k, named);
      var done, entry;
      done, entry, of := OpenFound(named, given, now, stat, open, newFd);
      TellsOutcome(old(files)[named], named, given, now, stat, open, newFd, done, entry, of, memory,
          if done then entry else memory);
      OthersDiffer(hash, ks, tree.key, l, Cached(), named, k);
      AnsweredElsewhere(old(files), ks, tree.key, l, Cached(), named, given, now, stat, open, newFd);
      if done {
        ok, file := entry != NULL && of.err == 0, entry;
        ShelvedAgain(old(queue.items), queue.items, named, file);
        SettledDone(old(files), old(fds), named, gone, memory, junk, given, now, stat, open, newFd);
        ServedBy(old(files), old(fds), named, gone, memory, junk, given, now, stat, open, newFd, done, entry, of);
        ServedNow(old(files)[named], named, given, now, stat, open, newFd, memory, of, file, files, old(fds), fds);
        HandedOutIsOpen();
        IsNamed(tree.key, Cached(), k, file);
        return;
      }
      ghost var files1, ks1, l1, items1 := files, tree.key, Cached(), queue.items;
      NamedIsGone(ks, ks1, l, l1, named);
      file, gone, junk := Create(name, of, now, memory);
      ShelvedAnew(old(queue.items), items1, queue.items, named, file, gone);
      SettledMore(old(files), old(fds), named, gone, memory, junk, given, now, stat, open, newFd);
      ServedBy(old(files), old(fds), named, gone, memory, junk, given, now, stat, open, newFd, done, entry, of);
      ServedNow(old(files)[named], named, given, now, stat, open, newFd, memory, of, file, files, old(fds), fds);
      OthersTwice(old(files), files1, files, ks, ks1, tree.key, l, l1, Cached(), file);
      ok := file != NULL && of.err == 0;
      HandedOutIsOpen();
      IsNamed(tree.key, Cached(), k, file);
    }

    lemma TablePrivate(x: int)
      requires Table({}, {}) && x in Cached() && x in files
      ensures Private(files, fds, x) && Shape(files[x], true, false)
      ensures forall y, fd :: y in files && fd !in fds && fd != INVALID ==> files[y].fd != fd
    {
    }

    lemma SpareIsNew(memory: int)
      requires Spare(memory) && Table({}, {}) && Index(multiset{})
      ensures memory !in files
    {
    }

    /** The name is not in the cache. */
    method OpenMissing(name: Name, given: OpenInfo, now: int, stat: Answer, open: Answer, newFd: int, memory: int)
      returns (ok: bool, of: OpenInfo, file: int, ghost gone: seq<int>, ghost junk: File)
      requires Valid() && Spare(memory) && newFd !in fds && newFd != INVALID && Steady(stat, open)
      requires given.fd == INVALID && given.err == 0 && !given.isDir
                 && NotNamed(tree.key, Cached(), Key(hash(name), name))
      modifies this`current, this`files, this`owner, this`fds, this`handles, tree, tree.mem, queue, queue.next,
               queue.prev
      ensures Valid()
      ensures ok <==> of.err == 0 && file != NULL
      ensures file == NULL <==> NotNamed(tree.key, Cached(), Key(hash(name), name))
      ensures file != NULL ==> file in Cached() && 0 <= file < |tree.key| && tree.key[file] == Key(hash(name), name)
      ensures file != NULL ==> file in files && Reports(files[file], of)
      ensures OutcomeMissing(given, stat, open, newFd, memory, of, file)
      ensures (files, fds) == Opened(old(files), old(fds), gone, memory, junk, given, now, stat, open, newFd)
      ensures ServedNew(given, now, stat, open, newFd, memory, of, file, files)
      ensures Shelved(old(queue.items), queue.items, NULL, file, gone)
      ensures file != NULL ==> file in files && files[file].accessed == now
      ensures handles == old(handles) + if ok then Granted(file, of) else multiset{}
      ensures ok && !of.isDir ==> of.fd in fds
      ensures OthersKept(old(files), files, old(tree.key), tree.key, old(Cached()), Cached(), file)
    {
      hide Index, Table, Inorder, Stat, NotNamed, Steady, OthersKept, Created, ServedNew, Shelved, Minus, Opened,
          OutcomeMissing, Reports;
      var before: File := *;
      gone, junk := [], before;
      TableFiles({});
      NothingTouched(files, tree.key, Cached());
      StatFacts(given, stat, open, newFd);
      NullNotQueued();
      ok, of := OpenFresh(given, stat, open, newFd);
      if !ok && (of.err == 0 || !of.errors) {
        file := NULL;
        NoneInvalid();
        Abandon(of);
        assert fds == old(fds);
        OpenedAs(old(files), old(fds), gone, memory, junk, given, now, stat, open, newFd, ok, of, file);
        ServedFresh(old(files), old(fds), gone, memory, junk, given, now, stat, open, newFd, of, file);
        ShelvedSame(queue.items);
        return;
      }
      file, gone, junk := Create(name, of, now, memory);
      OpenedAs(old(files), old(fds), gone, memory, junk, given, now, stat, open, newFd, ok, of, file);
      ServedFresh(old(files), old(fds), gone, memory, junk, given, now, stat, open, newFd, of, file);
      ShelvedNew(old(queue.items), queue.items, file, gone);
      ServedNewNow(given, now, stat, open, newFd, memory, of, file, files);
      ok := file != NULL && of.err == 0;
      HandedOutIsOpen();
      IsNamed(tree.key, Cached(), Key(hash(name), name), file);
    }

    /** ngx_open_file_cache_cleanup: every entry of the cache is freed and its descriptor
        closed, even one that is held; handles to detached entries are still good. */
    method Shutdown(now: int)
      requires Valid()
      modifies this`current, this`files, this`owner, this`fds, this`handles, tree, tree.mem, queue, queue.next,
               queue.prev
      ensures Valid() && Cached() == [] && current == 0
      ensures files == Remaining(old(files), old(Cached()), [])
      ensures forall h :: handles[h] == if h.file in old(Cached()) then 0 else old(handles)[h]
      ensures (forall h :: h in old(handles) ==> h.fd in fds) <==>
                (forall h :: h in old(handles) ==> h.file !in old(Cached()))
      ensures old(handles) == multiset{} ==> files == map[] && fds == {}
    {
      hide Shaped, Owned, Counted, Sorted, Named, Zip, RedBlack, Inorder, KeyLess, Queue.Ring, Ending;
      ghost var l := Cached();
      StartEnding(files, handles, l);
      while true
        invariant Valid() && Ending(old(files), files, old(handles), handles, l, Cached())
        decreases current
      {
        MultisetMembers(queue.items, Cached(), multiset{});
        var empty := queue.Empty();
        if empty {
          break;
        }
        var file := queue.Last();
        ghost var files1, handles1, l1 := files, handles, Cached();
        Evict(file, now);
        MoreEnding(old(files), files1, files, old(handles), handles1, handles, l, l1, Cached(), file);
      }
      DoneEnding(old(files), files, old(handles), handles, l, Cached());
      StillOpen(old(files), files, old(owner), owner, old(handles), handles, l);
    }

    method Evict(file: int, now: int)
      requires Index(multiset{}) && Table({}, {}) && file in Cached()
      modifies this`current, this`files, this`owner, this`fds, this`handles, tree, tree.mem, queue, queue.next,
               queue.prev
      ensures Index(multiset{}) && Table({}, {}) && current == old(current) - 1 && files == old(files) - {file}
      ensures forall h :: handles[h] == if h.file == file then 0 else old(handles)[h]
      ensures forall x :: x in Cached() <==> x in old(Cached()) && x != file
    {
      hide Index, Shaped, Owned, Counted, Recounted, Inorder;
      OffShelf(file);
      Unlink(file, {});
      NoLonger(old(Cached()), Cached(), file);
      ShapeOf(files, Cached(), {file}, file);
      OwnHandles(files, handles, file);
      if files[file].err == 0 && !files[file].isDir {
        var f := files[file].(close := true, count := 0);
        Put(file, f, {}, {file}, handles[Handle(file, f.fd) := 0]);
        CloseCached(file, 0, now, {});
        OnlyThatOne(old(files), f, files, file);
      } else {
        Free(file, {}, {file});
        assert {file} - {file} == {};
      }
    }
  }

  /** The entries but for those of the cache l that are no longer in l'. */
  ghost function Remaining(files: Files, l: seq<int>, l': seq<int>): Files {
    map x | x in files && (x in l ==> x in l') :: files[x]
  }

  /** Of the cache l, the entries that are not in l' are gone, and so are their handles. */
  ghost predicate Ending(files: Files, files': Files, handles: multiset<Handle>, handles': multiset<Handle>,
                         l: seq<int>, l': seq<int>) {
    && files' == Remaining(files, l, l') && (forall x :: x in l' ==> x in l)
    && forall h :: handles'[h] == if h.file in l && h.file !in l' then 0 else handles[h]
  }

  lemma OnlyThatOne(files: Files, f: File, files': Files, x: int)
    requires (forall y :: y in files[x := f] && y != x ==> y in files' && files'[y] == files[x := f][y])
    requires (forall y :: y in files' ==> y in files[x := f]) && x !in files'
    ensures files' == files - {x}
  {
    forall y ensures y in files' <==> y in files - {x} {
      assert y in files && y != x ==> y in files[x := f];
    }
  }

  lemma StartEnding(files: Files, handles: multiset<Handle>, l: seq<int>)
    ensures Ending(files, files, handles, handles, l, l)
  {
  }

  lemma MoreEnding(files: Files, files1: Files, files': Files, handles: multiset<Handle>, handles1: multiset<Handle>,
                   handles': multiset<Handle>,
                   l: seq<int>, l1: seq<int>, l': seq<int>, x: int)
    requires Ending(files, files1, handles, handles1, l, l1) && x in l1 && files' == files1 - {x}
    requires forall h :: handles'[h] == if h.file == x then 0 else handles1[h]
    requires forall y :: y in l' <==> y in l1 && y != x
    ensures Ending(files, files', handles, handles', l, l')
  {
    var rest := Remaining(files, l, l');
    forall y ensures y in files' <==> y in rest {
      assert y in rest <==> y in files && (y in l ==> y in l');
    }
  }

  lemma DoneEnding(files: Files, files': Files, handles: multiset<Handle>, handles': multiset<Handle>, l: seq<int>,
                   l': seq<int>)
    requires Ending(files, files', handles, handles', l, l') && l' == []
    ensures files' == Remaining(files, l, [])
    ensures forall h :: handles'[h] == if h.file in l then 0 else handles[h]
  {
  }

  /** All handles of an entry are for the descriptor it has. */
  lemma OwnHandles(files: Files, handles: multiset<Handle>, x: int)
    requires Counted(files, handles) && x in files
    ensures forall h: Handle :: h.file == x && h.fd != files[x].fd ==> handles[h] == 0
    ensures handles[Handle(x, files[x].fd)] == files[x].count
    ensures Recounted(handles, handles[Handle(x, files[x].fd) := 0], x, files[x].(close := true, count := 0))
  {
  }

  /** A handle survives the end of the cache exactly if its entry was detached before. */
  lemma StillOpen(files: Files, files': Files, owner: map<int, int>, owner': map<int, int>,
                  handles: multiset<Handle>, handles': multiset<Handle>, l: seq<int>)
    requires Shaped(files, l, {}) && Owned(files, owner) && Counted(files, handles)
    requires files' == Remaining(files, l, []) && Owned(files', owner') && Counted(files', handles')
               && Shaped(files', [], {})
    requires forall h :: handles'[h] == if h.file in l then 0 else handles[h]
    ensures (forall h :: h in handles ==> h.fd in owner') <==> (forall h :: h in handles ==> h.file !in l)
    ensures handles == multiset{} ==> files' == map[] && owner'.Keys == {}
  {
    forall h | h in handles ensures h.fd in owner' <==> h.file !in l {
      HeldIsOwned(files, owner, handles, l, {}, h);
      HeldBy(files, handles, h);
      if h.fd in owner' {
        var y := owner'[h.fd];
        assert files[y].fd == h.fd;
      } else {
        assert h.file !in files';
      }
    }
    if handles == multiset{} {
      assert handles' == multiset{};
      NothingLeft(files', owner', []);
    }
  }

  lemma NothingLeft(files: Files, owner: map<int, int>, order: seq<int>)
    requires Shaped(files, order, {}) && Owned(files, owner) && Counted(files, multiset{}) && order == []
    ensures files == map[] && owner.Keys == {}
  {
    var none: multiset<Handle> := multiset{};
    assert forall x :: x in files ==> files[x].count == none[Handle(x, files[x].fd)] == 0;
    assert forall x :: x !in files;
    assert forall fd :: fd !in owner;
  }

  // ------------------------------------------------- where it goes wrong

  /** One more handle is accounted for exactly if the 24 bits of the count have room. */
  lemma CountKept(files: Files, handles: multiset<Handle>, x: int)
    requires Counted(files, handles) && x in files && files[x].count < COUNT_WRAP && files[x].err == 0
               && !files[x].isDir
    ensures Counted(files[x := OneMore(files[x])], handles + multiset{Handle(x, files[x].fd)}) <==>
              files[x].count + 1 < COUNT_WRAP
  {
    var h := Handle(x, files[x].fd);
    var files', handles' := files[x := OneMore(files[x])], handles + multiset{h};
    assert handles'[h] == files[x].count + 1;
    if files[x].count + 1 < COUNT_WRAP {
      MoreHandles(files, handles, x, files'[x]);
      SetCount(files, handles, handles', x, files'[x]);
    }
  }

  /** Where it has none, the count starts again from zero, and the entry is closed when it
      leaves the cache, with all those handles to it outstanding. */
  lemma WrappedIsClosed(files: Files, fds: set<int>, handles: multiset<Handle>, x: int, of: OpenInfo)
    requires Counted(files, handles) && x in files && files[x].count == COUNT_WRAP - 1 && files[x].err == 0
               && !files[x].isDir
    ensures var f := OneMore(files[x]);
            && handles[Handle(x, f.fd)] == COUNT_WRAP - 1 && f.fd == files[x].fd
            && f.fd !in DroppedFds(fds, f, of) && x !in Dropped(files[x := f], x, f)
  {
  }

  /** What ngx_open_cached_file makes of an entry once the file was looked at again, branch
      by branch, for any answer at all. */
  method Reconsider(files: Files, fds: set<int>, x: int, of: OpenInfo, now: int)
    returns (files': Files, fds': set<int>, done: bool)
    requires x in files && !Shut(files[x])
    ensures files' == Retested(files, x, files[x], of, now) && fds' == RetestedFds(fds, files[x], of)
    ensures done <==> !Changed(files[x], of)
  {
    var f := files[x];
    files', fds', done := files, fds, true;
    if of.isDir {
      if f.isDir || f.err != 0 {
        files' := files'[x := Updated(f, of, now).(accessed := now)];
        return;
      }
    } else if of.err == 0 {
      if f.isDir || f.err != 0 || of.uniq == f.uniq {
        files' := files'[x := Updated(f, of, now).(accessed := now)];
        return;
      }
    } else if f.err != 0 || f.isDir {
      files' := files'[x := Updated(f, of, now).(accessed := now)];
      return;
    }
    if f.count == 0 {
      fds' := fds' - {f.fd};
      files' := files'[x := Updated(f, of, now).(accessed := now)];
      return;
    }
    files' := files'[x := f.(close := true)];
    done := false;
  }

  /** Each open descriptor has one owner, and no entry has one that is closed. */
  ghost predicate Accounted(files: Files, fds: set<int>) {
    exists owner: map<int, int> :: Owned(files, owner) && owner.Keys == fds
  }

  /** The descriptor of an entry that nobody uses is closed, and its number is stored again. */
  lemma MistakenIsClosed(files: Files, fds: set<int>, x: int, gone: seq<int>, id: int, junk: File, given: OpenInfo,
                         now: int, stat: Answer, open: Answer, newFd: int)
    requires x in files && files[x].count == 0 && files[x].err == 0 && !files[x].isDir && newFd != files[x].fd
               && given.err == 0
    requires !Shut(files[x]) && !Trusted(files[x], given, now) && !Telling(Question(files[x], given), stat)
    ensures var (files', fds') := Settled(files, fds, x, gone, id, junk, given, now, stat, open, newFd);
            x in files' && files'[x].fd == files[x].fd != INVALID && files[x].fd !in fds' && !Accounted(files', fds')
  {
    UsesDoNotMatter(files[x], OnceUsed(files[x]).uses, given, now);
  }

  /** Entries that leave do not change another one. */
  lemma {:induction false} EvictedOther(files: Files, fds: set<int>, gone: seq<int>, x: int)
    requires x in files && x !in gone
    ensures var (files', fds') := Evicted(files, fds, gone);
            x in files' && files'[x] == files[x]
  {
    hide LeftFds;
    if gone != [] {
      EvictedOther(files, fds, gone[..|gone| - 1], x);
    }
  }

  /** The descriptor of an entry in use gets a second owner; without memory for the new
      entry it is closed. */
  lemma MistakenIsShared(files: Files, fds: set<int>, x: int, gone: seq<int>, id: int, junk: File, given: OpenInfo,
                         now: int, stat: Answer, open: Answer, newFd: int)
    requires x in files && files[x].count > 0 && files[x].err == 0 && !files[x].isDir && given.err == 0
    requires id != x && x != NULL && x !in gone
    requires !Shut(files[x]) && !Trusted(files[x], given, now) && !Telling(Question(files[x], given), stat)
    ensures var (files', fds') := Settled(files, fds, x, gone, id, junk, given, now, stat, open, newFd);
            && x in files' && files'[x].fd == files[x].fd != INVALID && !Accounted(files', fds')
            && if id == NULL then files[x].fd !in fds' else id in files' && files'[id].fd == files[x].fd
  {
    UsesDoNotMatter(files[x], OnceUsed(files[x]).uses, given, now);
    var files1 := Answered(files, x, given, now, stat, open, newFd);
    EvictedOther(files1, AnsweredFds(files, fds, x, given, now, stat, open, newFd), gone, x);
    hide Evicted;
    var (files', fds') := Settled(files, fds, x, gone, id, junk, given, now, stat, open, newFd);
    if id == NULL {
      ClosedIsLost(files', fds', x);
    } else {
      SharedIsLost(files', fds', x, id);
    }
  }

  lemma ClosedIsLost(files: Files, fds: set<int>, x: int)
    requires x in files && files[x].fd != INVALID && files[x].fd !in fds
    ensures !Accounted(files, fds)
  {
  }

  lemma SharedIsLost(files: Files, fds: set<int>, x: int, y: int)
    requires x in files && y in files && x != y && files[x].fd == files[y].fd != INVALID
    ensures !Accounted(files, fds)
  {
  }

  /** An entry is written, with the descriptor it had, a new one, or none. */
  lemma StillAccounted(files: Files, owner: map<int, int>, x: int, f: File)
    requires Owned(files, owner) && x in files && (f.fd == files[x].fd || f.fd == INVALID || f.fd !in owner)
    ensures Accounted(files[x := f], owner.Keys - {files[x].fd} + if f.fd == INVALID then {} else {f.fd})
  {
    hide Claim;
    SetOwner(files, owner, x, f);
    ClaimKeys(files, owner, x, f.fd);
  }

  lemma AddedAccounted(files: Files, fds: set<int>, id: int, f: File)
    requires Accounted(files, fds) && id !in files && f.fd !in fds
    ensures Accounted(files[id := f], fds + if f.fd == INVALID then {} else {f.fd})
  {
    hide Claim;
    var owner: map<int, int> :| Owned(files, owner) && owner.Keys == fds;
    SetOwner(files, owner, id, f);
    ClaimFresh(files, owner, id, f.fd);
  }

  lemma DroppedAccounted(files: Files, owner: map<int, int>, x: int)
    requires Owned(files, owner) && x in files
    ensures Accounted(files - {x}, owner.Keys - {files[x].fd})
  {
    hide Claim;
    ClaimKeys(files, owner, x, INVALID);
    assert Owned(files - {x}, Claim(owner, x, INVALID)) by { DropOwner(files, owner, x); }
  }

  lemma LeftAccounted(files: Files, fds: set<int>, x: int)
    requires Accounted(files, fds) && x in files
    ensures Accounted(Dropped(files, x, files[x]), LeftFds(fds, files[x]))
  {
    hide Accounted, Owned;
    var owner := OwnerOf(files, fds);
    var f := files[x];
    OwnerHas(files, owner, x);
    NoInvalid(files, owner);
    if f.count == 0 {
      DroppedAccounted(files, owner, x);
      assert owner.Keys - {f.fd} == LeftFds(fds, f);
    } else {
      StillAccounted(files, owner, x, f.(close := true));
      assert owner.Keys == owner.Keys - {f.fd} + if f.fd == INVALID then {} else {f.fd};
    }
  }

  lemma {:induction false} EvictedAccounted(files: Files, fds: set<int>, gone: seq<int>)
    requires Accounted(files, fds)
    ensures var (files', fds') := Evicted(files, fds, gone);
            Accounted(files', fds') && fds' <= fds && forall y :: y in files' ==> y in files
  {
    hide Accounted;
    if gone != [] {
      var (files', fds') := Evicted(files, fds, gone[..|gone| - 1]);
      EvictedAccounted(files, fds, gone[..|gone| - 1]);
      if gone[|gone| - 1] in files' {
        LeftAccounted(files', fds', gone[|gone| - 1]);
      }
    }
  }

  /** A descriptor that no entry has stays open. */
  lemma {:induction false} EvictedLoose(files: Files, fds: set<int>, gone: seq<int>, fd: int)
    requires fd !in fds && forall y :: y in files ==> files[y].fd != fd
    ensures var (files', fds') := Evicted(files, fds, gone);
            && Evicted(files, fds + {fd}, gone) == (files', fds' + {fd}) && fd !in fds'
            && forall y :: y in files' ==> files'[y].fd != fd
  {
    if gone != [] {
      EvictedLoose(files, fds, gone[..|gone| - 1], fd);
      var (files', fds') := Evicted(files, fds, gone[..|gone| - 1]);
      var e := gone[|gone| - 1];
      if e in files' {
        assert LeftFds(fds' + {fd}, files'[e]) == LeftFds(fds', files'[e]) + {fd};
      }
    }
  }

  /** A new entry is made for a descriptor that is open and nobody's, or for none. */
  lemma CreatedAccounted(files: Files, fds: set<int>, gone: seq<int>, id: int, junk: File, of: OpenInfo, now: int)
    requires Accounted(files, fds) && id !in files && of.fd !in fds
    ensures var (files', fds') := Created(files, fds + Loose(of), gone, id, junk, of, now); Accounted(files', fds')
  {
    hide Accounted, Owned, Evicted, Updated;
    var (kept, left) := Evicted(files, fds, gone);
    EvictedAccounted(files, fds, gone);
    if of.fd == INVALID {
      assert fds + Loose(of) == fds && left + Loose(of) == left;
    } else {
      NoneHas(files, fds, of.fd);
      EvictedLoose(files, fds, gone, of.fd);
    }
    assert Evicted(files, fds + Loose(of), gone) == (kept, left + Loose(of));
    var made := Updated(junk.(uses := 1, count := 0), of, now).(accessed := now);
    UpdatedFd(junk.(uses := 1, count := 0), of, now);
    if id == NULL {
      assert left + Loose(of) - {of.fd} == left;
    } else {
      AddedAccounted(kept, left, id, made);
      assert left + Loose(of) == left + if of.fd == INVALID then {} else {of.fd};
    }
  }

  lemma NoneHas(files: Files, fds: set<int>, fd: int)
    requires Accounted(files, fds) && fd !in fds && fd != INVALID
    ensures forall y :: y in files ==> files[y].fd != fd
  {
  }

  /** The same entry, after the file system was asked, and before a new one is made. */
  lemma JudgedAccounted(files: Files, owner: map<int, int>, x: int, f: File, ok: bool, o: OpenInfo, newFd: int,
                        now: int)
    requires Owned(files, owner) && x in files && f == OnceUsed(files[x]) && Shape(f, true, false)
    requires newFd !in owner && newFd != INVALID && (!ok ==> o.fd == INVALID)
    requires o.fd == INVALID || o.fd == f.fd || o.fd == newFd
    requires ok || o.err != 0 ==> (o.fd == INVALID <==> o.err != 0 || o.isDir)
    requires f.fd != INVALID && o.fd != INVALID ==> (o.fd == f.fd <==> o.uniq == f.uniq)
    ensures var files', fds' := Judged(files[x := f], x, f, ok, o, now), JudgedFds(owner.Keys, f, ok, o, newFd);
            if !Refused(ok, o) && Changed(f, o)
            then Accounted(files', owner.Keys) && fds' == owner.Keys + Loose(o) && o.fd !in owner.Keys
            else Accounted(files', fds')
  {
    hide Accounted, Owned;
    NoInvalid(files, owner);
    OwnerHas(files, owner, x);
    var fds' := JudgedFds(owner.Keys, f, ok, o, newFd);
    if Refused(ok, o) && f.count == 0 {
      DroppedAccounted(files, owner, x);
      assert files[x := f] - {x} == files - {x};
      assert fds' == owner.Keys - {f.fd};
    } else if Refused(ok, o) {
      StillAccounted(files, owner, x, f.(close := true));
      assert files[x := f][x := f.(close := true)] == files[x := f.(close := true)];
      assert fds' == owner.Keys - {f.fd} + if f.fd == INVALID then {} else {f.fd};
    } else if Changed(f, o) {
      StillAccounted(files, owner, x, f.(close := true));
      assert owner.Keys == owner.Keys - {f.fd} + if f.fd == INVALID then {} else {f.fd};
      assert files[x := f][x := f.(close := true)] == files[x := f.(close := true)];
      assert fds' == owner.Keys + Loose(o);
    } else {
      var f' := Updated(f, o, now).(accessed := now);
      StillAccounted(files, owner, x, f');
      assert files[x := f][x := f'] == files[x := f'];
      assert fds' == owner.Keys - {f.fd} + if o.fd == INVALID then {} else {o.fd};
    }
  }

  lemma JudgedFiles(files: Files, x: int, f: File, ok: bool, of: OpenInfo, now: int, id: int)
    requires x in files && id !in files
    ensures id !in Judged(files[x := f], x, f, ok, of, now)
  {
  }

  lemma OwnerHas(files: Files, owner: map<int, int>, x: int)
    requires Owned(files, owner) && x in files
    ensures files[x].fd != INVALID ==> files[x].fd in owner
  {
  }

  /** Opening a name that is in the cache leaves every descriptor accounted for exactly
      if the entry was shut, was believed, or its number told it from a directory; whatever
      other entries have to leave, and whether there is memory for a new one or not. */
  lemma AccountedExactly(files: Files, fds: set<int>, l: seq<int>, x: int, gone: seq<int>, id: int, junk: File,
                         given: OpenInfo, now: int, stat: Answer, open: Answer, newFd: int)
    requires Accounted(files, fds) && Shaped(files, l, {}) && x in l && x in files && x !in gone
    requires id !in files && x != NULL
    requires given.fd == INVALID && given.err == 0 && !given.isDir && newFd !in fds && newFd != INVALID
               && Steady(stat, open)
    ensures var (files', fds') := Settled(files, fds, x, gone, id, junk, given, now, stat, open, newFd);
            Accounted(files', fds') <==>
            Shut(files[x]) || Trusted(files[x], given, now) || Telling(Question(files[x], given), stat)
  {
    hide Owned, Shaped, Stat, Judged, JudgedFds, Refused, Changed, Steady, Trusted, Updated, Accounted, Created;
    var f := files[x];
    var owner := OwnerOf(files, fds);
    OwnerHas(files, owner, x);
    NoInvalid(files, owner);
    ShapeOf(files, l, {}, x);
    UsesDoNotMatter(f, OnceUsed(f).uses, given, now);
    if !Shut(f) && Trusted(f, given, now) {
      StillAccounted(files, owner, x, OneMore(OnceUsed(f)).(accessed := now));
      assert fds == fds - {f.fd} + if f.fd == INVALID then {} else {f.fd};
    } else if !Shut(f) && !Telling(Question(f, given), stat) {
      if f.count == 0 {
        MistakenIsClosed(files, fds, x, gone, id, junk, given, now, stat, open, newFd);
      } else {
        MistakenIsShared(files, fds, x, gone, id, junk, given, now, stat, open, newFd);
      }
    } else {
      var (ok, o) := Stat(Question(f, given), stat, open, newFd);
      StatFacts(Question(f, given), stat, open, newFd);
      JudgedAccounted(files, owner, x, OnceUsed(f), ok, o, newFd, now);
      JudgedFiles(files, x, OnceUsed(f), ok, o, now, id);
      if !Refused(ok, o) && Changed(f, o) {
        CreatedAccounted(Judged(files[x := OnceUsed(f)], x, OnceUsed(f), ok, o, now), fds, gone, id, junk, o, now);
      }
    }
  }

  lemma OwnerOf(files: Files, fds: set<int>) returns (owner: map<int, int>)
    requires Accounted(files, fds)
    ensures Owned(files, owner) && owner.Keys == fds
  {
    owner :| Owned(files, owner) && owner.Keys == fds;
  }

  lemma UpdatedFd(f: File, of: OpenInfo, now: int)
    ensures Updated(f, of, now).fd == of.fd
  {
  }

  lemma UsesDoNotMatter(f: File, uses: nat, given: OpenInfo, now: int)
    ensures var f' := f.(uses := uses);
            && Shut(f') == Shut(f) && Trusted(f', given, now) == Trusted(f, given, now)
            && Question(f', given) == Question(f, given) && FromEntry(f', given) == FromEntry(f, given)
            && (Shut(f) ==> Question(f, given) == given)
            && (!Shut(f) ==> Question(f, given).fd == f.fd && Question(f, given).uniq == f.uniq)
    ensures forall of :: Changed(f.(uses := uses), of) == Changed(f, of)
    ensures Shut(f) ==> forall of :: !Changed(f, of)
    ensures !given.isDir && given.err == 0 && FromEntry(f, given).err != 0 ==> !FromEntry(f, given).isDir
  {
  }

  lemma OnlyOne(hash: Name -> int, ks: seq<Key>, l: seq<int>, file: int, k: Key)
    requires Named(hash, ks, l) && file in l && 0 <= file < |ks| && ks[file] == k
    ensures forall x :: x in l && 0 <= x < |ks| && ks[x] == k ==> x == file
  {
  }

  lemma OthersDiffer(hash: Name -> int, ks: seq<Key>, ks': seq<Key>, l: seq<int>, l': seq<int>, file: int, k: Key)
    requires Named(hash, ks, l) && file in l && 0 <= file < |ks| && ks[file] == k
    ensures Gone(ks, ks', l, l', file) ==> NotNamed(ks', l', k)
  {
  }

  lemma AddedOthers(files: Files, files': Files, ks: seq<Key>, ks': seq<Key>, l: seq<int>, l': seq<int>, id: int)
    requires (forall x :: x in l ==> x in files) && (forall x :: x in l' <==> x in l || x == id)
    requires id in files' && files' == files[id := files'[id]] && 0 <= id < |ks| == |ks'| && ks' == ks[id := ks'[id]]
    ensures OthersKept(files, files', ks, ks', l, l', id)
  {
  }

  lemma NothingTouched(files: Files, ks: seq<Key>, l: seq<int>)
    requires forall x :: x in l ==> x in files
    ensures forall x :: OthersKept(files, files, ks, ks, l, l, x)
  {
  }

  /** Opening a name that is found leaves all other entries as they are, and if it is
      gone from the cache then all that are left are others. */
  lemma AnsweredElsewhere(files: Files, ks: seq<Key>, ks': seq<Key>, l: seq<int>, l': seq<int>, file: int,
                          given: OpenInfo, now: int, stat: Answer, open: Answer, newFd: int)
    requires file in files && (forall x :: x in l ==> x in files)
               && ((ks' == ks && l' == l) || Gone(ks, ks', l, l', file))
    ensures var files' := Answered(files, file, given, now, stat, open, newFd);
            && OthersKept(files, files', ks, ks', l, l', file)
            && (Gone(ks, ks', l, l', file) ==> forall x :: OthersKept(files, files', ks, ks', l, l', x))
  {
    hide Stat, Updated, Changed, Refused, Trusted, Question;
    var files' := Answered(files, file, given, now, stat, open, newFd);
    assert forall x :: x in files && x != file ==> x in files' && files'[x] == files[x];
  }

  lemma OthersTwice(files: Files, files1: Files, files2: Files, ks: seq<Key>, ks1: seq<Key>, ks2: seq<Key>,
                    l: seq<int>, l1: seq<int>, l2: seq<int>, file: int)
    requires (forall x :: OthersKept(files, files1, ks, ks1, l, l1, x))
               && OthersKept(files1, files2, ks1, ks2, l1, l2, file)
    ensures OthersKept(files, files2, ks, ks2, l, l2, file)
  {
    assert OthersKept(files, files1, ks, ks1, l, l1, file);
    forall x | x in l2 && x != file ensures x in l && x in files && files2[x] == files[x]
        && (0 <= x < |ks| ==> ks2[x] == ks[x]) {
      assert OthersKept(files, files1, ks, ks1, l, l1, file);
    }
  }

  lemma IsNotNamed(ks: seq<Key>, l: seq<int>, k: Key)
    ensures (forall x :: x in l ==> 0 <= x < |ks| && ks[x] != k) ==> NotNamed(ks, l, k)
  {
  }

  lemma IsNamed(ks: seq<Key>, l: seq<int>, k: Key, file: int)
    ensures file in l && 0 <= file < |ks| && ks[file] == k ==> !NotNamed(ks, l, k)
  {
  }

  lemma NotCached(files: Files, order: seq<int>, leaving: set<int>, x: int)
    requires Shaped(files, order, leaving) && x !in files
    ensures x !in order
  {
  }

  lemma NewEntry(junk: File, of: OpenInfo, now: int)
    requires (of.err != 0 ==> !of.isDir) && (of.fd == INVALID <==> of.err != 0 || of.isDir)
    ensures var f := Updated(junk.(uses := 1, count := 0), of, now);
            Shape(f, true, false) && f.fd == of.fd && f.count == if of.err == 0 && !of.isDir then 1 else 0
  {
  }

  lemma AddTable(files: Files, owner: map<int, int>, handles: multiset<Handle>, handles': multiset<Handle>,
                 l: seq<int>, l': seq<int>, x: int, f: File, of: OpenInfo)
    requires Shaped(files, l, {}) && Owned(files, owner) && Counted(files, handles) && owner.Keys !! Loose(of)
    requires x !in files && f.fd == of.fd && Recounted(handles, handles', x, f) && Shape(f, true, false)
    requires forall y :: y in l' <==> y in l || y == x
    ensures Shaped(files[x := f], l', {}) && Owned(files[x := f], Claim(owner, x, f.fd))
              && Counted(files[x := f], handles')
    ensures Claim(owner, x, f.fd).Keys + {} == owner.Keys + Loose(of)
  {
    hide Counted, Recounted, Claim, Shape, Owned;
    SetEntry(files, owner, handles, handles', x, f);
    ClaimFresh(files, owner, x, f.fd);
  }

  lemma SortedSame(ks: seq<Key>, ks': seq<Key>, l: seq<int>, id: int)
    requires Sorted(KeyLess, ks, l) && 0 <= id < |ks| && id !in l && |ks'| == |ks| && ks' == ks[id := ks'[id]]
    ensures Sorted(KeyLess, ks', l)
  {
    hide KeyLess;
  }

  lemma InBounds(ks: seq<Key>, l: seq<int>, id: int)
    requires Sorted(KeyLess, ks, l) && 0 <= id < |ks|
    ensures forall i :: 0 <= i < |l + [id]| ==> 0 <= (l + [id])[i] < |ks|
  {
  }

  lemma StillNotNamed(ks: seq<Key>, ks': seq<Key>, l: seq<int>, l': seq<int>, k: Key)
    requires NotNamed(ks, l, k) && |ks'| == |ks|
               && forall x :: x in l' ==> x in l && (0 <= x < |ks'| ==> ks'[x] == ks[x])
    ensures NotNamed(ks', l', k)
  {
  }

  lemma NoLonger(l: seq<int>, l': seq<int>, x: int)
    requires forall y :: y in l' <==> y in l && y != x
    ensures x !in l'
  {
  }

  lemma CancelOne(a: seq<int>, b: seq<int>, l: seq<int>, x: int)
    requires multiset(a) + multiset{x} == multiset(l) == multiset(b) + multiset{x}
    ensures multiset(a) + multiset{} == multiset(b) && |b| == |l| - 1
    ensures forall y :: y in l <==> y in b || y == x
  {
    MultisetMembers(b, l, multiset{x});
    assert forall y :: (multiset(a) + multiset{x})[y] == multiset(a)[y] + multiset{x}[y];
    assert forall y :: (multiset(b) + multiset{x})[y] == multiset(b)[y] + multiset{x}[y];
  }

  lemma LastTakenOut(l: seq<int>, k: nat)
    requires k < |l| && Circular.Distinct(l)
    ensures l[k] == l[|l| - 1] ==> Circular.Without(l, k) == l[..|l| - 1]
  {
  }

  lemma LeftOver(l: seq<int>, k: nat)
    requires k < |l| && Circular.Distinct(l)
    ensures Circular.Without(l, k) == Minus(l, l[k])
  {
    MinusOne(l, k);
  }

  lemma QueueTakenOut(l: seq<int>, k: nat)
    requires k < |l|
    ensures multiset(Circular.Without(l, k)) + multiset{l[k]} == multiset(l)
  {
    TakenOut(l, k);
  }

  lemma AllCached(files: Files, order: seq<int>, leaving: set<int>)
    requires Shaped(files, order, leaving)
    ensures forall x :: x in order ==> x in files
  {
  }

  lemma CachedIsFile(files: Files, order: seq<int>, leaving: set<int>, x: int)
    requires Shaped(files, order, leaving) && x in order
    ensures x in files
  {
  }

  lemma Unlinked(files: Files, l: seq<int>, l': seq<int>, x: int)
    requires Shaped(files, l, {}) && forall y :: y in l' <==> y in l && y != x
    ensures Shaped(files, l', {x})
  {
  }

  lemma KeptForHandles(files: Files, order: seq<int>, x: int)
    requires x in files && Shaped(files, order, {x}) && x !in order
    requires files[x].close && files[x].err == 0 && !files[x].isDir && files[x].count > 0
    ensures Shaped(files, order, {})
  {
  }

  lemma MoreLeaving(files: Files, order: seq<int>, leaving: set<int>)
    requires Shaped(files, order, {})
    ensures Shaped(files, order, leaving)
  {
  }

  lemma HeldTimes(files: Files, handles: multiset<Handle>, h: Handle)
    requires Counted(files, handles) && h in handles
    ensures h.file in files && files[h.file].count == handles[h]
  {
    assert Handle(h.file, files[h.file].fd) == h;
  }

  lemma HeldBy(files: Files, handles: multiset<Handle>, h: Handle)
    requires Counted(files, handles) && h in handles
    ensures h.file in files && files[h.file].fd == h.fd
  {
  }

  lemma NoInvalid(files: Files, owner: map<int, int>)
    requires Owned(files, owner)
    ensures INVALID !in owner
  {
  }

  lemma PutTable(files: Files, owner: map<int, int>, handles: multiset<Handle>, handles': multiset<Handle>,
                 order: seq<int>, loose: set<int>, leaving: set<int>, x: int, f: File)
    requires Shaped(files, order, leaving) && Owned(files, owner) && Counted(files, handles) && owner.Keys !! loose
    requires x in files && Shape(f, x in order, x in leaving) && Recounted(handles, handles', x, f)
    requires f.fd == files[x].fd || (files[x].fd == INVALID && f.fd in loose && f.fd != INVALID)
    ensures Shaped(files[x := f], order, leaving) && Owned(files[x := f], Claim(owner, x, f.fd))
              && Counted(files[x := f], handles')
    ensures var loose' := if f.fd == files[x].fd then loose else loose - {f.fd};
            Claim(owner, x, f.fd).Keys + loose' == owner.Keys + loose && Claim(owner, x, f.fd).Keys !! loose'
  {
    hide Shaped, Counted, Recounted, Shape, Claim;
    assert f.fd != INVALID && f.fd in owner ==> owner[f.fd] == x;
    NoInvalid(files, owner);
    SetEntry(files, owner, handles, handles', x, f);
    SetShape(files, order, leaving, x, f);
    ClaimKeys(files, owner, x, f.fd);
  }

  lemma CloseTable(files: Files, owner: map<int, int>, handles: multiset<Handle>, order: seq<int>, leaving: set<int>,
                   x: int)
    requires Shaped(files, order, leaving) && Owned(files, owner) && Counted(files, handles)
    requires x in files && files[x].count == 0 && files[x].fd != INVALID
    ensures var f := files[x].(fd := INVALID);
            && Shaped(files[x := f], order, leaving) && Owned(files[x := f], Claim(owner, x, INVALID))
               && Counted(files[x := f], handles)
            && files[x].fd in owner && Claim(owner, x, INVALID).Keys == owner.Keys - {files[x].fd}
  {
    hide Shaped, Counted, Recounted, Claim;
    var f := files[x].(fd := INVALID);
    SameHandles(files, handles, x, f);
    SetEntry(files, owner, handles, handles, x, f);
    assert Shape(f, x in order, x in leaving) by { ShapeOf(files, order, leaving, x); }
    SetShape(files, order, leaving, x, f);
    ClaimKeys(files, owner, x, INVALID);
  }

  lemma ShapeOf(files: Files, order: seq<int>, leaving: set<int>, x: int)
    requires Shaped(files, order, leaving) && x in files
    ensures Shape(files[x], x in order, x in leaving)
  {
  }
}
