/** The open file cache of nginx/src/core/ngx_open_file_cache.c, without vnode events.

    Entries are named by identifiers standing for their addresses; `files` holds the allocated ones.  The tree
    is kept as the set of entries in it, since only membership matters here; a lookup may miss an entry when
    hashes collide, so its result is a parameter.  System calls and the allocator answer through `Sys`. */
module FileCache {
  import opened Basics

  type Id = nat

  const INVALID: int := -1

  // ngx_cached_open_file_t
  datatype File = File(
    fd: int,
    uniq: nat,
    err: int,
    uses: nat,
    count: nat,
    close: bool,
    isDir: bool,
    created: int,
    accessed: int)

  // The answers of one call: stat of the name, open and fstat of the opened file, errno, and the allocator.
  datatype Sys = Sys(
    statFails: bool, statUniq: nat, statDir: bool,
    openFails: bool, fd: int, fstatFails: bool, uniq: nat, isDir: bool,
    errno: int,
    allocFails: bool, newId: Id, junkClose: bool, junkDir: bool)

  // ngx_open_file_info_t
  datatype Info = Info(fd: int, uniq: nat, err: int, isDir: bool, testDir: bool, errors: bool, valid: int, minUses: nat)

  // The fields of the cache and, as ghosts, the descriptors it owns and the cleanups it owes.
  datatype State = State(
    files: map<Id, File>,
    tree: set<Id>,
    queue: seq<Id>,
    current: int,
    open: set<int>,
    owner: map<int, Id>,
    cleanups: map<Id, nat>)

  ghost predicate FileAt(s: State, id: Id) {
    && id in s.files
    && var f := s.files[id];
    && (f.fd != INVALID ==> f.fd in s.owner && s.owner[f.fd] == id)
    && (f.err != 0 || f.isDir ==> f.fd == INVALID && f.count == 0)
    && (f.count > 0 ==> f.fd != INVALID)
    && (id in s.tree && f.err == 0 ==> !f.close)
    && (id !in s.tree ==> f.close && f.count > 0)
    && f.count == (if id in s.cleanups then s.cleanups[id] else 0)
  }

  // The cache between steps: x is an entry taken off the queue for the moment, or -1, and `spare` a descriptor that
  // is open but not yet stored, or INVALID.
  ghost predicate Inv(s: State, x: int, spare: int) {
    && NoDup(s.queue)
    && (forall id: Id :: id in s.queue <==> id in s.tree && id != x)
    && s.current == |s.queue| + (if x >= 0 && x in s.tree then 1 else 0)
    && (forall id {:trigger FileAt(s, id)} :: id in s.files ==> FileAt(s, id))
    && s.tree <= s.files.Keys
    && (forall id :: id in s.cleanups && s.cleanups[id] > 0 ==> id in s.files)
    && (forall fd :: fd in s.owner ==> s.owner[fd] in s.files && s.files[s.owner[fd]].fd == fd && fd != INVALID)
    && s.open == s.owner.Keys + (if spare == INVALID then {} else {spare}) && spare !in s.owner && INVALID !in s.open
  }

  ghost function Owed(s: State, x: Id): nat {
    if x in s.cleanups then s.cleanups[x] else 0
  }

  // What the invariant means: the cache counts the entries in its tree,
  lemma Counts(s: State)
    requires Inv(s, -1, INVALID)
    ensures s.current == |s.tree|
  {
    Distinct(s.queue);
    assert s.tree == Elems(s.queue);
  }

  // every open descriptor belongs to exactly one entry, an entry has as many users as cleanups are owed for it, and
  // one outside the tree is in use.
  lemma Accounts(s: State)
    requires Inv(s, -1, INVALID)
    ensures forall fd :: fd in s.open <==> exists id :: id in s.files && s.files[id].fd == fd && fd != INVALID
    ensures forall a, b :: a in s.files && b in s.files && a != b && s.files[a].fd == s.files[b].fd ==>
      s.files[a].fd == INVALID
    ensures forall id :: id in s.files ==> s.files[id].count == Owed(s, id) && (id !in s.tree ==> Owed(s, id) > 0)
  {
    forall id | id in s.files ensures FileAt(s, id) {}
  }

  ghost function Elems(q: seq<Id>): set<Id> {
    set id | id in q
  }

  lemma {:induction false} Distinct(q: seq<Id>)
    requires NoDup(q)
    ensures |Elems(q)| == |q|
  {
    if q == [] {
      assert Elems(q) == {};
    } else {
      var r := q[..|q| - 1];
      Distinct(r);
      assert q[|q| - 1] !in r;
      assert Elems(q) == Elems(r) + {q[|q| - 1]};
    }
  }

  function Without(q: seq<Id>, x: Id): seq<Id> {
    if q == [] then [] else if q[0] == x then q[1..] else [q[0]] + Without(q[1..], x)
  }

  lemma {:induction false} WithoutFacts(q: seq<Id>, x: Id)
    requires NoDup(q)
    ensures NoDup(Without(q, x)) && (forall id :: id in Without(q, x) <==> id in q && id != x)
    ensures |Without(q, x)| == if x in q then |q| - 1 else |q|
  {
    if q != [] && q[0] != x {
      WithoutFacts(q[1..], x);
      var r := Without(q[1..], x);
      assert NoDup([q[0]] + r) by {
        assert q[0] !in q[1..];
      }
    }
  }

  lemma {:induction false} WithoutLast(q: seq<Id>)
    requires NoDup(q) && q != []
    ensures Without(q, q[|q| - 1]) == q[..|q| - 1]
  {
    if |q| > 1 {
      assert q[0] != q[|q| - 1];
      WithoutLast(q[1..]);
      assert q[1..][..|q| - 2] == q[1..|q| - 1];
    }
  }

  // What an expiry does to the queue: it takes at most 3 - n0 entries off its end, all inactive except a first one
  // when n0 is 0, and stops early only at an entry that is not.
  // The queue q of the files `was`, of which r is left, with these files, after some turns of the expiry
  ghost predicate Expiring(n0: nat, now: int, inactive: int, was: map<Id, File>, q: seq<Id>, files: map<Id, File>,
      r: seq<Id>) {
    && n0 <= 1 && |r| <= |q| && r == q[..|r|]
    && (forall i :: |r| <= i < |q| + n0 - 1 && q[i] in was ==> now - was[q[i]].accessed > inactive)
    && (forall i :: 0 <= i < |r| ==> r[i] in files && r[i] in was && files[r[i]] == was[r[i]])
  }

  lemma QueueFiles(s: State, spare: int)
    requires Inv(s, -1, spare)
    ensures NoDup(s.queue) && forall i :: 0 <= i < |s.queue| ==> s.queue[i] in s.files
  {
    forall i | 0 <= i < |s.queue| ensures s.queue[i] in s.files { assert s.queue[i] in s.queue; }
  }

  lemma ExpiringOn(n0: nat, now: int, inactive: int, was: map<Id, File>, q: seq<Id>, files: map<Id, File>, r: seq<Id>,
      files': map<Id, File>, r': seq<Id>)
    requires Expiring(n0, now, inactive, was, q, files, r) && r != [] && NoDup(r) && r' == r[..|r| - 1]
    requires n0 + |q| - |r| > 0 ==> now - files[r[|r| - 1]].accessed > inactive
    requires forall id :: id in files && id != r[|r| - 1] ==> id in files' && files'[id] == files[id]
    ensures Expiring(n0, now, inactive, was, q, files', r')
  {
    assert r[|r| - 1] == q[|r| - 1];
    assert forall i :: 0 <= i < |r'| ==> r'[i] == r[i] && r[i] != r[|r| - 1];
  }

  ghost predicate Expired(n0: nat, now: int, inactive: int, files: map<Id, File>, q: seq<Id>, r: seq<Id>) {
    && n0 <= 1 && |r| <= |q| <= |r| + 3 - n0 && r == q[..|r|]
    && (forall i :: |r| <= i < |q| + n0 - 1 && q[i] in files ==> now - files[q[i]].accessed > inactive)
    && (r != [] && |q| < |r| + 3 - n0 && r[|r| - 1] in files ==>
       n0 + |q| - |r| > 0 && now - files[r[|r| - 1]].accessed <= inactive)
  }

  // ngx_queue_remove
  ghost function Dequeued(s: State, x: Id): State {
    s.(queue := Without(s.queue, x))
  }

  lemma DequeuedInv(s: State, x: Id, spare: int)
    requires Inv(s, -1, spare) && x in s.tree
    ensures Inv(Dequeued(s, x), x, spare)
  {
    WithoutFacts(s.queue, x);
    forall id | id in s.files ensures FileAt(Dequeued(s, x), id) { assert FileAt(s, id); }
  }

  // ngx_queue_insert_head
  ghost function Enqueued(s: State, x: Id): State {
    s.(queue := [x] + s.queue)
  }

  lemma EnqueuedInv(s: State, x: Id, spare: int)
    requires Inv(s, x, spare) && x in s.tree
    ensures Inv(Enqueued(s, x), -1, spare)
  {
    forall id | id in s.files ensures FileAt(Enqueued(s, x), id) { assert FileAt(s, id); }
  }

  // The entry leaves the tree but is still in use: its last cleanup will free it.
  ghost function Orphaned(s: State, x: Id): State
    requires x in s.files
  {
    s.(tree := s.tree - {x}, current := s.current - 1, files := s.files[x := s.files[x].(close := true)])
  }

  lemma OrphanedInv(s: State, x: Id, spare: int)
    requires Inv(s, x, spare) && x in s.tree && x in s.files && s.files[x].count > 0
    ensures Inv(Orphaned(s, x), -1, spare)
  {
    var t := Orphaned(s, x);
    forall id | id in t.files ensures FileAt(t, id) { assert FileAt(s, id); }
  }

  // The entry leaves the tree, its descriptor is closed and its memory freed.
  ghost function Dropped(s: State, x: Id): State
    requires x in s.files
  {
    var fd := s.files[x].fd;
    s.(tree := s.tree - {x}, current := s.current - 1, files := s.files - {x}, open := s.open - {fd},
      owner := s.owner - {fd})
  }

  lemma DroppedInv(s: State, x: Id, spare: int)
    requires Inv(s, x, spare) && x in s.tree && x in s.files && s.files[x].count == 0
    ensures Inv(Dropped(s, x), -1, spare) && (s.files[x].fd != INVALID ==> s.files[x].fd in s.open)
  {
    var t := Dropped(s, x);
    assert FileAt(s, x);
    forall id | id in t.files ensures FileAt(t, id) { assert FileAt(s, id); }
  }

  // ngx_close_file of an entry nobody uses; the entry stays.
  ghost function FdClosed(s: State, x: Id): State
    requires x in s.files
  {
    var fd := s.files[x].fd;
    s.(files := s.files[x := s.files[x].(fd := INVALID)], open := s.open - {fd}, owner := s.owner - {fd})
  }

  lemma FdClosedInv(s: State, x: Id, y: int, spare: int)
    requires Inv(s, y, spare) && x in s.files && s.files[x].count == 0
    ensures Inv(FdClosed(s, x), y, spare) && (s.files[x].fd != INVALID ==> s.files[x].fd in s.open)
  {
    var t := FdClosed(s, x);
    assert FileAt(s, x);
    forall id | id in t.files ensures FileAt(t, id) { assert FileAt(s, id); }
  }

  // file->count++ together with the cleanup registered for it.
  ghost function Shared(s: State, x: Id): State
    requires x in s.files
  {
    s.(files := s.files[x := s.files[x].(count := s.files[x].count + 1)], cleanups := s.cleanups[x := Owed(s, x) + 1])
  }

  lemma SharedInv(s: State, x: Id, spare: int)
    requires Inv(s, x, spare) && x in s.tree && x in s.files && s.files[x].fd != INVALID
    ensures Inv(Shared(s, x), x, spare)
  {
    var t := Shared(s, x);
    assert FileAt(s, x);
    forall id | id in t.files ensures FileAt(t, id) { assert FileAt(s, id); }
  }

  // Fields that are not links may change freely.
  ghost function Touched(s: State, x: Id, uses: nat, created: int, accessed: int): State
    requires x in s.files
  {
    s.(files := s.files[x := s.files[x].(uses := uses, created := created, accessed := accessed)])
  }

  lemma TouchedInv(s: State, x: Id, y: int, spare: int, uses: nat, created: int, accessed: int)
    requires Inv(s, y, spare) && x in s.files
    ensures Inv(Touched(s, x, uses, created, accessed), y, spare)
  {
    var t := Touched(s, x, uses, created, accessed);
    forall id | id in t.files ensures FileAt(t, id) { assert FileAt(s, id); }
  }

  // The result of the open and stat, stored in an entry: a file gets a first user, an error or a directory none.
  function Refreshed(f: File, of: Info): File {
    if of.err == 0 then f.(fd := of.fd, err := 0, uniq := of.uniq, close := false, isDir := of.isDir,
      count := if of.isDir then f.count else f.count + 1)
    else f.(fd := of.fd, err := of.err)
  }

  ghost predicate Stat(of: Info) {
    of.err != 0 || of.isDir ==> of.fd == INVALID
  }

  ghost predicate IsFile(of: Info) {
    of.err == 0 && !of.isDir
  }

  ghost function Stored(s: State, x: Id, of: Info): State
    requires x in s.files
  {
    s.(files := s.files[x := Refreshed(s.files[x], of)],
       owner := if of.fd == INVALID then s.owner else s.owner[of.fd := x],
       cleanups := if IsFile(of) then s.cleanups[x := Owed(s, x) + 1] else s.cleanups)
  }

  lemma StoredInv(s: State, x: Id, of: Info)
    requires Inv(s, x, of.fd) && x in s.tree && x in s.files && s.files[x].fd == INVALID && s.files[x].count == 0
    requires Stat(of) && (IsFile(of) ==> of.fd != INVALID)
    ensures Inv(Stored(s, x, of), x, INVALID)
  {
    var t := Stored(s, x, of);
    assert FileAt(s, x);
    forall id | id in t.files ensures FileAt(t, id) { assert FileAt(s, id); }
  }

  // A new entry in the tree, not yet filled in.
  ghost function Created(s: State, x: Id, f: File): State {
    s.(files := s.files[x := f], tree := s.tree + {x}, current := s.current + 1)
  }

  lemma CreatedInv(s: State, x: Id, f: File, spare: int)
    requires Inv(s, -1, spare) && x !in s.files && f.fd == INVALID && f.count == 0 && f.err != 0
    ensures Inv(Created(s, x, f), x, spare)
  {
    var t := Created(s, x, f);
    forall id | id in t.files ensures FileAt(t, id) { if id != x { assert FileAt(s, id); } }
  }

  // A descriptor opened for the caller, and one closed again.
  lemma OpenedInv(s: State, y: int, fd: int)
    requires Inv(s, y, INVALID) && fd !in s.open && fd != INVALID
    ensures Inv(s.(open := s.open + {fd}), y, fd)
  {
    var t := s.(open := s.open + {fd});
    forall id | id in t.files ensures FileAt(t, id) { assert FileAt(s, id); }
  }

  lemma SpareClosedInv(s: State, y: int, fd: int)
    requires Inv(s, y, fd)
    ensures Inv(s.(open := s.open - {fd}), y, INVALID) && (fd != INVALID ==> fd in s.open)
  {
    var t := s.(open := s.open - {fd});
    forall id | id in t.files ensures FileAt(t, id) { assert FileAt(s, id); }
  }

  // One cleanup has run; for an orphan it is not the last.
  ghost function Uncounted(s: State, x: Id): State
    requires x in s.files && s.files[x].count > 0
  {
    s.(files := s.files[x := s.files[x].(count := s.files[x].count - 1)],
      cleanups := s.cleanups[x := s.files[x].count - 1])
  }

  lemma UncountedInv(s: State, x: Id)
    requires Inv(s, -1, INVALID) && x in s.files && s.files[x].count > 0 && (x in s.tree || s.files[x].count > 1)
    ensures Inv(Uncounted(s, x), -1, INVALID)
  {
    var t := Uncounted(s, x);
    assert FileAt(s, x);
    forall id | id in t.files ensures FileAt(t, id) { assert FileAt(s, id); }
  }

  // The last cleanup of an orphan closes its descriptor and frees it.
  ghost function Retired(s: State, x: Id): State
    requires x in s.files
  {
    var fd := s.files[x].fd;
    s.(files := s.files - {x}, open := s.open - {fd}, owner := s.owner - {fd}, cleanups := s.cleanups[x := 0])
  }

  lemma RetiredInv(s: State, x: Id)
    requires Inv(s, -1, INVALID) && x in s.files && s.files[x].count == 1 && x !in s.tree
    ensures Inv(Retired(s, x), -1, INVALID) && s.files[x].fd in s.open
  {
    var t := Retired(s, x);
    assert FileAt(s, x);
    forall id | id in t.files ensures FileAt(t, id) { assert FileAt(s, id); }
  }

  // ngx_open_and_stat_file: whether it succeeds, what it leaves in *of, and the descriptor left open, if any.
  datatype Opened = Opened(ok: bool, of: Info, fd: int)

  function OpenAndStat(of: Info, sys: Sys): Opened {
    if of.fd != INVALID && sys.statFails then Opened(false, of.(fd := INVALID, err := sys.errno), INVALID)
    else if of.fd != INVALID && of.uniq == sys.statUniq then Opened(true, of.(isDir := sys.statDir), INVALID)
    else if of.fd == INVALID && of.testDir && sys.statFails then Opened(false, of.(err := sys.errno), INVALID)
    else if of.fd == INVALID && of.testDir &&
      sys.statDir then Opened(true, of.(uniq := sys.statUniq, isDir := true), INVALID)
    else if sys.openFails then Opened(false, of.(fd := INVALID, err := sys.errno), INVALID)
    else if sys.fstatFails then Opened(false, of.(fd := INVALID), INVALID)
    else if sys.isDir then Opened(true, of.(fd := INVALID, uniq := sys.uniq, isDir := true), INVALID)
    else Opened(true, of.(fd := sys.fd, uniq := sys.uniq, isDir := false), sys.fd)
  }

  // What a caller is told of a file that is not in the cache, or is in it as f: the answer of the system, or what the
  // cache knows when that is young enough
  ghost function Told(f: File, of: Info, now: int, sys: Sys): Opened {
    if f.fd == INVALID && f.err == 0 && !f.isDir then OpenAndStat(of, sys)
    else if Retested(f, of, now) then OpenAndStat(of.(testDir := of.testDir ||
      f.isDir, fd := f.fd, uniq := f.uniq), sys)
    else if f.err == 0 then Opened(true, of.(fd := f.fd, uniq := f.uniq, isDir := f.isDir), INVALID)
    else Opened(true, of.(err := f.err), INVALID)
  }

  // An answer that is neither passed on nor kept
  ghost predicate Lost(ok: bool, of: Info) {
    !ok && (of.err == 0 || !of.errors)
  }

  // A file in use is no longer the one its name denotes: the name needs another entry.
  ghost predicate Replaced(f: File, of: Info, now: int, sys: Sys) {
    && Retested(f, of, now) && f.fd != INVALID && f.count > 0
    && var r := Told(f, of, now, sys).of; !(IsFile(r) && r.uniq == f.uniq)
  }

  // What the caller gets: the answer, with success unless it is lost, an error, or memory for an entry is wanting
  ghost predicate Delivered(ok: bool, of: Info, r: Opened, wanting: bool) {
    of == r.of && (ok <==> !Lost(r.ok, r.of) && r.of.err == 0 && !wanting)
  }

  // Where an answer leads: it is lost, or needs a new entry, or neither
  ghost predicate Labelled(at: Label, of: Info, r: Opened, another: bool) {
    of == r.of && (at.Failed? <==> Lost(r.ok, r.of)) && (at.Create? <==> !Lost(r.ok, r.of) && another)
  }

  // What the system promises: the descriptor and the memory are new, and an error has a number.
  ghost predicate Answers(sys: Sys, s: State) {
    sys.fd >= 0 && sys.fd !in s.open && sys.errno != 0 && sys.newId !in s.files
  }

  // Whether a found entry is not simply handed out but its file looked at again.
  predicate Retested(f: File, of: Info, now: int) {
    && (f.fd != INVALID || f.err != 0 || f.isDir)
    && !((of.uniq == 0 || of.uniq == f.uniq) && now - f.created < of.valid)
  }

  // The answers about one name disagree: stat shows a directory under the number of a file that is open, or shows
  // another file while the open that follows finds the old one again.
  ghost predicate Race(f: File, of: Info, now: int, sys: Sys) {
    && Retested(f, of, now) && f.fd != INVALID && !sys.statFails
    && Disagree(f.uniq, sys)
  }

  ghost predicate Disagree(uniq: nat, sys: Sys) {
    if uniq == sys.statUniq then sys.statDir
    else !sys.openFails && !sys.fstatFails && !sys.isDir && sys.uniq == uniq
  }

  lemma RetestFacts(of: Info, fd: int, uniq: nat, sys: Sys)
    requires of.fd == fd && of.uniq == uniq && of.err == 0 && !of.isDir && sys.errno != 0 && sys.fd >= 0 && sys.fd != fd
    ensures var r := OpenAndStat(of, sys);
            && (r.of.err != 0 ==> r.of.fd == INVALID && !r.of.isDir)
            && (!r.ok ==> r.of.fd == INVALID && r.fd == INVALID)
            && (r.ok ==> r.of.err == 0 && (IsFile(r.of) ==> r.of.fd != INVALID) && (r.of.isDir ==> r.fd == INVALID))
            && (r.fd == r.of.fd || (r.fd == INVALID && r.of.fd == fd && (IsFile(r.of) ==> r.of.uniq == uniq)))
            && (fd != INVALID && !sys.statFails && Disagree(uniq, sys) <==>
                  r.of.fd != INVALID && (r.of.isDir || (fd != INVALID && r.of.fd == r.fd && r.of.uniq == uniq)))
  {}

  lemma OwedKept(s: State, t: State)
    requires Inv(s, -1, INVALID) && Inv(t, -1, INVALID) && t.cleanups == s.cleanups
    ensures forall id :: Owed(t, id) == Owed(s, id)
  {}

  // Where ngx_open_cached_file goes after revalidating an entry it found.
  datatype Label = Create | Update | Renew | Found | Failed

  // The state in which each label is reached when the answers agree,
  ghost predicate Outcome(s: State, t: State, x: Id, at: Label, of: Info) {
    && (!at.Failed? ==> Stat(of) && (IsFile(of) ==> of.fd != INVALID))
    && (at.Create? ==> Inv(t, -1, of.fd) && t.current == s.current - 1 && t.cleanups == s.cleanups)
    && (!at.Create? ==> x in t.tree && x in t.files && t.current == s.current)
    && (at.Failed? ==> Inv(t, x, INVALID) && of.fd == INVALID && t.cleanups == s.cleanups)
    && (at.Update? ==>
          Inv(t, x, of.fd) && t.files[x].fd == INVALID && t.files[x].count == 0 && t.cleanups == s.cleanups)
    && (at.Renew? || at.Found? ==>
          && Inv(t, x, INVALID)
          && if IsFile(of) then of.fd == t.files[x].fd && of.uniq == t.files[x].uniq &&
                                t.cleanups == s.cleanups[x := Owed(s, x) + 1]
             else t.cleanups == s.cleanups)
  }

  // and when they do not: a descriptor without an owner, or one that is stored a second time.
  ghost predicate Clash(s: State, t: State, x: Id, at: Label, of: Info) {
    && of.fd != INVALID && of.err == 0 && (at.Renew? || at.Update? || at.Create?)
    && (at.Renew? ==> Inv(t, x, of.fd) && x in t.tree && x in t.files && t.current == s.current)
    && (at.Update? ==> Inv(t, x, INVALID) && x in t.tree && x in t.files && of.isDir)
    && (at.Create? ==> Inv(t, -1, INVALID) && of.fd in t.owner && of.isDir && t.current == s.current - 1)
  }

  // file->count = 0 of an entry that is about to be freed: its users' cleanups will not run any more.
  ghost function Forfeited(s: State, x: Id): State
    requires x in s.files
  {
    s.(files := s.files[x := s.files[x].(count := 0)], cleanups := s.cleanups[x := 0])
  }

  lemma ForfeitedInv(s: State, x: Id)
    requires Inv(s, x, INVALID) && x in s.tree && x in s.files
    ensures Inv(Forfeited(s, x), x, INVALID)
  {
    var t := Forfeited(s, x);
    forall id | id in t.files ensures FileAt(t, id) { assert FileAt(s, id); }
  }

  // The end of ngx_open_cached_file: the answer is stored if it is new, and the entry goes to the head of the queue.
  ghost function Finished(s: State, x: Id, of: Info, at: Label, now: int): State
    requires x in s.files
  {
    var t := if at.Create? || at.Update? then Stored(s, x, of) else s;
    Enqueued(Touched(t, x, t.files[x].uses, if at.Found? then t.files[x].created else now, now), x)
  }

  lemma FinishedInv(s: State, x: Id, of: Info, at: Label, now: int)
    requires x in s.tree && x in s.files && !at.Failed?
    requires if at.Create? || at.Update?
             then Inv(s, x, of.fd) && s.files[x].fd == INVALID && s.files[x].count == 0 && Stat(of) &&
               (IsFile(of) ==> of.fd != INVALID)
             else Inv(s, x, INVALID)
    ensures Inv(Finished(s, x, of, at, now), -1, INVALID)
  {
    var t := s;
    if at.Create? || at.Update? {
      StoredInv(s, x, of);
      t := Stored(s, x, of);
    }
    var created := if at.Found? then t.files[x].created else now;
    TouchedInv(t, x, x, INVALID, t.files[x].uses, created, now);
    EnqueuedInv(Touched(t, x, t.files[x].uses, created, now), x, INVALID);
  }

  lemma FinishedClash(s: State, x: Id, of: Info, at: Label, now: int)
    requires x in s.tree && x in s.files && of.fd != INVALID && of.err == 0
    requires if at.Create? || at.Update? then of.isDir else at.Renew? && Inv(s, x, of.fd)
    ensures !Inv(Finished(s, x, of, at, now), -1, INVALID)
  {
    var t := Finished(s, x, of, at, now);
    if at.Renew? {
      assert of.fd in t.open && of.fd !in t.owner;
    } else {
      assert !FileAt(t, x);
    }
  }

  lemma FinishedFiles(s: State, x: Id, of: Info, at: Label, now: int)
    requires x in s.files
    ensures var f := if at.Create? || at.Update? then Refreshed(s.files[x], of) else s.files[x];
            Finished(s, x, of, at, now).files == s.files[x := f.(created := if at.Found? then f.created
              else now, accessed := now)]
  {}

  // One more cleanup is owed, to the entry whose open descriptor the caller was given.
  ghost predicate Registered(s: State, t: State, x: Id, of: Info) {
    && t.cleanups == s.cleanups[x := Owed(s, x) + 1]
    && x in t.tree && x in t.files && t.files[x].fd == of.fd && t.files[x].uniq == of.uniq && of.fd in t.open
  }

  lemma FinishedRegistered(s: State, t: State, x: Id, of: Info, at: Label, now: int)
    requires x in t.tree && x in t.files && !at.Failed? && IsFile(of)
    requires if at.Create? || at.Update? then Inv(t, x, of.fd) && of.fd != INVALID && t.cleanups == s.cleanups
             else Inv(t, x, INVALID) && of.fd != INVALID && of.fd == t.files[x].fd && of.uniq == t.files[x].uniq &&
                  t.cleanups == s.cleanups[x := Owed(s, x) + 1]
    ensures Registered(s, Finished(t, x, of, at, now), x, of)
  {
    assert FileAt(t, x);
  }

  lemma DrainedFacts(s: State)
    requires Inv(s, -1, INVALID) && s.queue == []
    ensures s.tree == {} && s.current == 0 && s.open == set id | id in s.files :: s.files[id].fd
    ensures forall id :: id in s.files ==> s.files[id].count > 0
  {
    forall id | id in s.files ensures s.files[id].fd in s.owner && s.owner[s.files[id].fd] == id &&
      s.files[id].count > 0 {
      assert FileAt(s, id);
    }
    var fds := set id | id in s.files :: s.files[id].fd;
    forall fd | fd in s.open ensures fd in fds { assert s.owner[fd] in s.files; }
  }

  class Cache {
    const max: nat
    const inactive: int
    var files: map<Id, File>
    var tree: set<Id>           // entries in the red-black tree
    var queue: seq<Id>          // expire_queue, most recently used first
    var current: int
    var open: set<int>          // descriptors open in the process
    ghost var owner: map<int, Id>
    ghost var cleanups: map<Id, nat>

    ghost function View(): State
      reads this
    {
      State(files, tree, queue, current, open, owner, cleanups)
    }

    ghost predicate Valid()
      reads this
    {
      current <= Room() && Inv(View(), -1, INVALID)
    }

    // A cache of size 0 still holds one entry.
    ghost function Room(): nat {
      if max == 0 then 1 else max
    }

    // ngx_open_file_cache_init
    constructor (max: nat, inactive: int)
      ensures Valid() && files == map[] && this.max == max && this.inactive == inactive
    {
      this.max, this.inactive := max, inactive;
      files, tree, queue, current, open := map[], {}, [], 0, {};
      owner, cleanups := map[], map[];
    }

    // ngx_close_file: never of a descriptor that is not open
    method Close(fd: int)
      requires fd in open
      modifies `open
      ensures open == old(open) - {fd}
    {
      open := open - {fd};
    }

    // ngx_expire_old_cached_files: n == 0 evicts the least recently used entry by force, then one or two inactive ones
    method Expire(n0: nat, now: int, ghost spare: int)
      requires n0 <= 1 && Inv(View(), -1, spare)
      modifies this
      ensures Inv(View(), -1, spare)
      ensures current <= old(current) && (n0 == 0 && old(current) > 0 ==> current < old(current))
      ensures open <= old(open) && files.Keys <= old(files.Keys)
      ensures cleanups == old(cleanups) && (old(queue) == [] ==> View() == old(View()))
      ensures Expired(n0, now, inactive, old(files), old(queue), queue)
    {
      var n := n0;
      ghost var all, was := queue, files;
      QueueFiles(View(), spare);
      while n < 3
        invariant |queue| + n == |all| + n0 && Expiring(n0, now, inactive, was, all, files, queue)
        invariant n0 <= n <= 3 && Inv(View(), -1, spare) && cleanups == old(cleanups)
        invariant current == old(current) + n0 - n && (n == n0 ==> View() == old(View()))
        invariant open <= old(open) && files.Keys <= old(files.Keys)
        decreases 3 - n
      {
        if queue == [] {
          return;
        }
        var q := queue[|queue| - 1];
        if n != 0 && now - files[q].accessed <= inactive {
          return;
        }
        ghost var f, r := files, queue;
        n := n + 1;
        EvictLast(q, spare);
        ExpiringOn(n0, now, inactive, was, all, f, r, files, queue);
      }
    }

    method EvictLast(q: Id, ghost spare: int)
      requires Inv(View(), -1, spare) && queue != [] && queue[|queue| - 1] == q
      modifies this
      ensures Inv(View(), -1, spare) && current == old(current) - 1 && cleanups == old(cleanups)
      ensures open <= old(open) && files.Keys <= old(files.Keys) && queue == old(queue)[..|old(queue)| - 1]
      ensures forall id :: id in old(files) && id != q ==> id in files && files[id] == old(files)[id]
    {
      assert q in queue;
      WithoutLast(queue);
      Evict(q, spare);
    }

    // The entry leaves queue and tree; one still in use is left to its cleanups.
    method Evict(x: Id, ghost spare: int)
      requires Inv(View(), -1, spare) && x in tree
      modifies this
      ensures Inv(View(), -1, spare) && current == old(current) - 1 && cleanups == old(cleanups)
      ensures open <= old(open) && files.Keys <= old(files.Keys)
      ensures queue == Without(old(queue), x) && forall id :: id in old(files) && id != x ==>
        id in files && files[id] == old(files)[id]
    {
      ghost var s := View();
      assert FileAt(s, x);
      DequeuedInv(s, x, spare);
      queue := Without(queue, x);
      tree, current := tree - {x}, current - 1;
      if files[x].err == 0 && !files[x].isDir {
        files := files[x := files[x].(close := true)];
        ReleaseOrphan(x, s, spare);
      } else {
        DroppedInv(Dequeued(s, x), x, spare);
        FreeEntry(x);
        assert View() == Dropped(Dequeued(s, x), x);
      }
    }

    // The tail of ngx_close_cached_file for an entry marked for closing.
    method ReleaseOrphan(x: Id, ghost s: State, ghost spare: int)
      requires Inv(s, -1, spare) && x in s.tree && x in s.files && Inv(Dequeued(s, x), x, spare) &&
        View() == Orphaned(Dequeued(s, x), x)
      modifies this
      ensures Inv(View(), -1, spare) && current == old(current) && cleanups == old(cleanups) && queue == old(queue)
      ensures open <= old(open) && files.Keys <= old(files.Keys) && forall id :: id in old(files) && id != x ==>
        id in files && files[id] == old(files)[id]
    {
      ghost var d := Dequeued(s, x);
      if files[x].count > 0 {
        OrphanedInv(d, x, spare);
        return;
      }
      DroppedInv(d, x, spare);
      ghost var fd := files[x].fd;
      if files[x].fd != INVALID {
        Close(files[x].fd);
      }
      owner := owner - {fd};
      FreeEntry(x);
      assert open == d.open - {fd} && owner == d.owner - {fd};
      assert files == d.files - {x};
    }

    // ngx_free
    method FreeEntry(x: Id)
      requires x in files && x !in tree && x !in queue && files[x].count == 0
      modifies `files
      ensures files == old(files) - {x}
    {
      files := files - {x};
    }

    // ngx_open_file_cleanup: one user of an entry is done
    method Cleanup(x: Id, minUses: nat, now: int)
      requires Valid() && Owed(View(), x) > 0
      modifies this
      ensures Valid() && Owed(View(), x) == Owed(old(View()), x) - 1
      ensures forall id :: id != x ==> Owed(View(), id) == Owed(old(View()), id)
    {
      ghost var s := View();
      assert FileAt(s, x);
      if files[x].close {
        files := files[x := files[x].(count := files[x].count - 1)];
        cleanups := cleanups[x := files[x].count];
        if files[x].count == 0 {
          RetireEntry(x, s);
        } else {
          UncountedInv(s, x);
        }
      } else {
        UncountedInv(s, x);
        files := files[x := files[x].(count := files[x].count - 1)];
        cleanups := cleanups[x := files[x].count];
        Requeue(x, minUses, now);
      }
      ghost var t := View();
      Expire(1, now, INVALID);
      OwedKept(t, View());
    }

    // The tail of ngx_close_cached_file for the last user of an orphan.
    method RetireEntry(x: Id, ghost s: State)
      requires Inv(s, -1, INVALID) && x in s.files && s.files[x].count == 1 && x !in s.tree && View() == Uncounted(s, x)
      modifies this
      ensures View() == Retired(s, x) && Inv(View(), -1, INVALID)
    {
      RetiredInv(s, x);
      assert FileAt(s, x);
      ghost var fd := files[x].fd;
      if files[x].fd != INVALID {
        Close(files[x].fd);
      }
      owner := owner - {fd};
      FreeEntry(x);
      assert files == s.files - {x};
    }

    // The part of ngx_close_cached_file for an entry that stays: it becomes the most recently used one, and is closed
    // when it is unused and was not used often enough to stay open.
    method Requeue(x: Id, minUses: nat, now: int)
      requires Inv(View(), -1, INVALID) && x in tree && x in files && !files[x].close
      modifies this
      ensures Inv(View(), -1, INVALID) && current == old(current) && cleanups == old(cleanups) &&
        queue == [x] + Without(old(queue), x)
      ensures var f := old(files[x]);
              files == old(files)[x := f.(accessed := now, fd := if f.uses >= minUses || f.count > 0 then f.fd
                else INVALID)]
    {
      ghost var s := View();
      TouchedInv(s, x, -1, INVALID, files[x].uses, files[x].created, now);
      files := files[x := files[x].(accessed := now)];
      DequeuedInv(View(), x, INVALID);
      queue := Without(queue, x);
      EnqueuedInv(View(), x, INVALID);
      queue := [x] + queue;
      if files[x].uses >= minUses || files[x].count > 0 {
        return;
      }
      FdClosedInv(View(), x, -1, INVALID);
      ghost var t := View();
      ghost var fd := files[x].fd;
      if files[x].fd != INVALID {
        Close(files[x].fd);
        files := files[x := files[x].(fd := INVALID)];
        owner := owner - {fd};
        assert View() == FdClosed(t, x);
      }
    }

    // The answer of the system calls takes effect: a descriptor may now be open.
    method Consult(of0: Info, sys: Sys, ghost y: int) returns (ok: bool, of: Info)
      requires Inv(View(), y, INVALID) && sys.fd >= 0 && sys.fd !in open
      modifies `open
      ensures var r := OpenAndStat(of0, sys); ok == r.ok && of == r.of && Inv(View(), y, r.fd)
      ensures open == old(open) + (if OpenAndStat(of0, sys).fd == INVALID then {} else {sys.fd})
    {
      var r := OpenAndStat(of0, sys);
      ok, of := r.ok, r.of;
      if r.fd != INVALID {
        OpenedInv(View(), y, r.fd);
        open := open + {r.fd};
      }
    }

    // ngx_open_cached_file from a found entry to one of its labels
    method Revalidate(x: Id, of0: Info, now: int, sys: Sys) returns (at: Label, of: Info)
      requires Inv(View(), -1, INVALID) && x in tree && Answers(sys, View()) && of0.fd == INVALID && of0.err == 0 &&
        !of0.isDir
      modifies this
      ensures sys.newId !in files && x in old(files)
      ensures if Race(old(files[x]), of0, now, sys) then Clash(old(View()), View(), x, at, of)
        else Outcome(old(View()), View(), x, at, of)
      ensures Labelled(at, of, Told(old(files[x]), of0, now, sys), Replaced(old(files[x]), of0, now, sys))
    {
      Take(x);
      at, of := Decide(x, of0, now, sys);
    }

    method Decide(x: Id, of0: Info, now: int, sys: Sys) returns (at: Label, of: Info)
      requires Inv(View(), x, INVALID) && x in tree && x in files && Answers(sys, View()) && of0.fd == INVALID &&
        of0.err == 0 && !of0.isDir
      modifies this
      ensures files.Keys == old(files.Keys)
      ensures if Race(old(files[x]), of0, now, sys) then Clash(old(View()), View(), x, at, of)
        else Outcome(old(View()), View(), x, at, of)
      ensures Labelled(at, of, Told(old(files[x]), of0, now, sys), Replaced(old(files[x]), of0, now, sys))
    {
      if files[x].fd == INVALID && files[x].err == 0 && !files[x].isDir {
        at, of := Reopen(x, of0, sys);
      } else if (of0.uniq == 0 || of0.uniq == files[x].uniq) && now - files[x].created < of0.valid {
        of := HandOut(x, of0);
        at := Found;
      } else {
        at, of := Retest(x, of0, sys);
      }
    }

    // One more use; the entry leaves the queue until it is put at its head again.
    method Take(x: Id)
      requires Inv(View(), -1, INVALID) && x in tree
      modifies `files, `queue
      ensures x in old(files) && Inv(View(), x, INVALID)
      ensures files == old(files)[x := old(files[x]).(uses := old(files[x]).uses + 1)]
    {
      TouchedInv(View(), x, -1, INVALID, files[x].uses + 1, files[x].created, files[x].accessed);
      files := files[x := files[x].(uses := files[x].uses + 1)];
      DequeuedInv(View(), x, INVALID);
      queue := Without(queue, x);
    }

    // The file was not used often enough to be kept open.
    method Reopen(x: Id, of0: Info, sys: Sys) returns (at: Label, of: Info)
      requires Inv(View(), x, INVALID) && x in tree && x in files && files[x].fd == INVALID && files[x].err == 0 &&
        !files[x].isDir
      requires sys.fd >= 0 && sys.fd !in open && sys.errno != 0 && of0.fd == INVALID && of0.err == 0 && !of0.isDir
      modifies this
      ensures Outcome(old(View()), View(), x, at, of) && files.Keys == old(files.Keys)
      ensures Labelled(at, of, OpenAndStat(of0, sys), false)
    {
      assert FileAt(View(), x);
      var ok;
      ok, of := Consult(of0, sys, x);
      at := if !ok && (of.err == 0 || !of.errors) then Failed else Update;
    }

    // A cached answer is young enough.
    method HandOut(x: Id, of0: Info) returns (of: Info)
      requires Inv(View(), x, INVALID) && x in tree && x in files &&
        (files[x].fd != INVALID || files[x].err != 0 || files[x].isDir)
      requires of0.fd == INVALID && of0.err == 0 && !of0.isDir
      modifies this
      ensures Outcome(old(View()), View(), x, Found, of) && files.Keys == old(files.Keys)
      ensures var f := old(files[x]);
        of == if f.err == 0 then of0.(fd := f.fd, uniq := f.uniq, isDir := f.isDir) else of0.(err := f.err)
    {
      of := of0;
      assert FileAt(View(), x);
      if files[x].err == 0 {
        of := of.(fd := files[x].fd, uniq := files[x].uniq, isDir := files[x].isDir);
        if !files[x].isDir {
          SharedInv(View(), x, INVALID);
          files, cleanups := files[x := files[x].(count := files[x].count + 1)], cleanups[x := Owed(View(), x) + 1];
        }
      } else {
        of := of.(err := files[x].err);
      }
    }

    // The name is looked at again, and what it denotes compared with the entry.
    method Retest(x: Id, of0: Info, sys: Sys) returns (at: Label, of: Info)
      requires Inv(View(), x, INVALID) && x in tree && x in files &&
        (files[x].fd != INVALID || files[x].err != 0 || files[x].isDir)
      requires sys.fd >= 0 && sys.fd !in open && sys.errno != 0 && of0.fd == INVALID && of0.err == 0 && !of0.isDir
      modifies this
      ensures files.Keys == old(files.Keys)
      ensures if old(files[x].fd) != INVALID && !sys.statFails && Disagree(old(files[x].uniq), sys)
              then Clash(old(View()), View(), x, at, of) else Outcome(old(View()), View(), x, at, of)
      ensures var f := old(files[x]); var r := OpenAndStat(of0.(testDir := of0.testDir ||
        f.isDir, fd := f.fd, uniq := f.uniq), sys);
        Labelled(at, of, r, f.fd != INVALID && f.count > 0 && !(IsFile(r.of) && r.of.uniq == f.uniq))
    {
      assert FileAt(View(), x);
      of := of0.(testDir := of0.testDir || files[x].isDir, fd := files[x].fd, uniq := files[x].uniq);
      var ok;
      ghost var spare;
      ok, of, spare := LookAgain(x, of, sys);
      if !ok && (of.err == 0 || !of.errors) {
        at := Failed;
      } else {
        at := Compare(x, of, spare);
      }
    }

    method LookAgain(x: Id, of0: Info, sys: Sys) returns (ok: bool, of: Info, ghost spare: int)
      requires Inv(View(), x, INVALID) && x in files && sys.fd >= 0 && sys.fd !in open && sys.fd != files[x].fd &&
        sys.errno != 0
      requires of0.fd == files[x].fd && of0.uniq == files[x].uniq && of0.err == 0 && !of0.isDir
      modifies `open
      ensures Inv(View(), x, spare) && ok == OpenAndStat(of0, sys).ok && of == OpenAndStat(of0, sys).of
      ensures (of.err != 0 ==> of.fd == INVALID && !of.isDir) && (!ok ==> of.fd == INVALID && spare == INVALID)
      ensures ok ==> of.err == 0 && (IsFile(of) ==> of.fd != INVALID) && (of.isDir ==> spare == INVALID)
      ensures spare == of.fd || (spare == INVALID && of.fd == files[x].fd && (IsFile(of) ==> of.uniq == files[x].uniq))
      ensures files[x].fd != INVALID && !sys.statFails && Disagree(files[x].uniq, sys) <==>
                of.fd != INVALID && (of.isDir || (files[x].fd != INVALID && of.fd == spare && of.uniq == files[x].uniq))
    {
      RetestFacts(of0, files[x].fd, files[x].uniq, sys);
      spare := OpenAndStat(of0, sys).fd;
      ok, of := Consult(of0, sys, x);
    }

    method Compare(x: Id, of: Info, ghost spare: int) returns (at: Label)
      requires Inv(View(), x, spare) && x in tree && x in files &&
        (files[x].fd != INVALID || files[x].err != 0 || files[x].isDir)
      requires of.err != 0 ==> of.fd == INVALID && !of.isDir
      requires (IsFile(of) ==> of.fd != INVALID) && (of.isDir ==> spare == INVALID)
      requires spare == of.fd || (spare == INVALID && of.fd == files[x].fd && (IsFile(of) ==> of.uniq == files[x].uniq))
      modifies this
      ensures files.Keys == old(files.Keys)
      ensures if of.fd != INVALID && (of.isDir ||
        (old(files[x].fd) != INVALID && of.fd == spare && of.uniq == old(files[x].uniq)))
              then Clash(old(View()), View(), x, at, of) else Outcome(old(View()), View(), x, at, of)
      ensures !at.Failed? && (at.Create? <==>
        old(files[x]).fd != INVALID && old(files[x]).count > 0 && !(IsFile(of) && of.uniq == old(files[x]).uniq))
    {
      ghost var s := View();
      assert FileAt(s, x);
      if of.isDir {
        if files[x].isDir || files[x].err != 0 {
          return Update;
        }
      } else if of.err == 0 {
        if files[x].isDir || files[x].err != 0 {
          return Update;
        }
        if of.uniq == files[x].uniq {
          SharedInv(s, x, spare);
          files, cleanups := files[x := files[x].(count := files[x].count + 1)], cleanups[x := Owed(View(), x) + 1];
          return Renew;
        }
      } else if files[x].err != 0 || files[x].isDir {
        return Update;
      }
      at := Abandon(x, spare);
    }

    // The entry's file is no longer the one its name denotes.
    method Abandon(x: Id, ghost spare: int) returns (at: Label)
      requires Inv(View(), x, spare) && x in tree && x in files && files[x].fd != INVALID
      modifies this
      ensures files.Keys == old(files.Keys) && cleanups == old(cleanups) && (at.Create? <==> old(files[x]).count > 0)
      ensures if at.Update? then Inv(View(), x, spare) && current == old(current) && x in tree && x in files &&
        files[x].fd == INVALID && files[x].count == 0
              else at.Create? && Inv(View(), -1, spare) && current == old(current) - 1 && old(files[x].fd) in owner
    {
      ghost var s := View();
      assert FileAt(s, x);
      if files[x].count == 0 {
        FdClosedInv(s, x, x, spare);
        ghost var fd := files[x].fd;
        Close(files[x].fd);
        files, owner := files[x := files[x].(fd := INVALID)], owner - {fd};
        return Update;
      }
      OrphanedInv(s, x, spare);
      tree, current := tree - {x}, current - 1;
      files := files[x := files[x].(close := true)];
      at := Create;
    }

    // The name is not in the cache.
    method OpenNew(of0: Info, sys: Sys) returns (at: Label, of: Info)
      requires Inv(View(), -1, INVALID) && Answers(sys, View()) && of0.fd == INVALID && of0.err == 0 && !of0.isDir
      modifies `open
      ensures var r := OpenAndStat(of0, sys); of == r.of && at == if Lost(r.ok, r.of) then Failed else Create
      ensures at.Failed? ==> View() == old(View()) && of.fd == INVALID
      ensures at.Create? ==> Inv(View(), -1, of.fd) && Stat(of) && (IsFile(of) ==> of.fd != INVALID)
    {
      var ok;
      ok, of := Consult(of0, sys, -1);
      at := if !ok && (of.err == 0 || !of.errors) then Failed else Create;
    }

    // The label `failed` for an entry that was found
    method Discard(x: Id)
      requires Inv(View(), x, INVALID) && x in tree && x in files
      modifies this
      ensures Inv(View(), -1, INVALID) && current == old(current) - 1 && cleanups == old(cleanups)
    {
      ghost var s := View();
      assert FileAt(s, x);
      tree, current := tree - {x}, current - 1;
      if files[x].count == 0 {
        DroppedInv(s, x, INVALID);
        ghost var fd := files[x].fd;
        if files[x].fd != INVALID {
          Close(files[x].fd);
        }
        owner := owner - {fd};
        assert x !in queue;
        FreeEntry(x);
        assert View() == Dropped(s, x);
      } else {
        OrphanedInv(s, x, INVALID);
        files := files[x := files[x].(close := true)];
      }
    }

    // The label `create`: room is made, and an entry allocated and put in the tree
    method Admit(now: int, sys: Sys, ghost spare: int) returns (x: int)
      requires Inv(View(), -1, spare) && current <= Room() && sys.newId !in files
      modifies this
      ensures current <= Room() && cleanups == old(cleanups) &&
        (old(current) < Room() ==> open == old(open) && owner == old(owner))
      ensures if sys.allocFails then x == -1 && Inv(View(), -1, spare)
              else x == sys.newId && Inv(View(), x, spare) && sys.newId in tree && sys.newId in files &&
                   files[sys.newId].fd == INVALID && files[sys.newId].count == 0
    {
      if current >= max {
        Expire(0, now, spare);
      }
      if sys.allocFails {
        return -1;
      }
      x := sys.newId;
      var f := File(INVALID, 0, -1, 1, 0, sys.junkClose, sys.junkDir, now, now);
      CreatedInv(View(), sys.newId, f, spare);
      files, tree, current := files[sys.newId := f], tree + {sys.newId}, current + 1;
    }

    // The labels `update`, `renew` and `found`
    method Finish(x: Id, of: Info, at: Label, now: int)
      requires x in files
      modifies this
      ensures View() == Finished(old(View()), x, of, at, now)
    {
      ghost var s := View();
      var f := files[x];
      if at.Create? || at.Update? {
        f := Refreshed(f, of);
        owner := if of.fd == INVALID then owner else owner[of.fd := x];
        cleanups := if IsFile(of) then cleanups[x := Owed(s, x) + 1] else cleanups;
      }
      if !at.Found? {
        f := f.(created := now);
      }
      files := files[x := f.(accessed := now)];
      queue := [x] + queue;
      FinishedFiles(s, x, of, at, now);
    }

    // What follows the labels.  `cleanup` is the entry for which a cleanup is registered with the caller's pool, or -1.
    method Settle(hit: int, at: Label, of: Info, now: int, sys: Sys, ghost s: State, ghost race: bool)
        returns (ok: bool, cleanup: int)
      requires s.current <= Room() && sys.newId !in files
      requires if hit < 0 then !race && (at.Create? || at.Failed?) else !race ==> Outcome(s, View(), hit, at, of)
      requires race ==> hit >= 0 && Clash(s, View(), hit, at, of)
      requires hit < 0 && at.Failed? ==> Inv(View(), -1, INVALID)
      requires hit < 0 && at.Create? ==> Inv(View(), -1, of.fd) && Stat(of) && (IsFile(of) ==> of.fd != INVALID)
      requires hit < 0 ==> cleanups == s.cleanups && current == s.current
      modifies this
      ensures Valid() <==> !race
      ensures ok <==> !at.Failed? && of.err == 0 && !(at.Create? && sys.allocFails)
      ensures ok && !of.isDir <==> cleanup >= 0
      ensures !race && cleanup < 0 ==> cleanups == s.cleanups
      ensures !race && cleanup >= 0 ==> Registered(s, View(), cleanup, of)
    {
      ok, cleanup := false, -1;
      var x := hit;
      if at.Failed? {
        if hit >= 0 {
          Discard(hit);
        }
        return;
      }
      if at.Create? {
        x := Admit(now, sys, if race then INVALID else of.fd);
        if x < 0 {
          if of.fd != INVALID {
            SpareClosed(of.fd, race);
          }
          return;
        }
      }
      if race {
        FinishedClash(View(), x, of, at, now);
      } else {
        FinishedInv(View(), x, of, at, now);
        if IsFile(of) {
          FinishedRegistered(s, View(), x, of, at, now);
        }
      }
      Finish(x, of, at, now);
      ok := of.err == 0;
      if of.err == 0 && !of.isDir {
        cleanup := x;
      }
    }

    method SpareClosed(fd: int, ghost race: bool)
      requires fd != INVALID && if race then Inv(View(), -1, INVALID) && fd in owner else Inv(View(), -1, fd)
      modifies `open
      ensures Inv(View(), -1, INVALID) <==> !race
    {
      if !race {
        SpareClosedInv(View(), -1, fd);
      }
      Close(fd);
    }

    // ngx_open_cached_file with a cache: `hit` is the entry the lookup found, or -1
    method OpenCached(hit: int, of0: Info, now: int, sys: Sys) returns (ok: bool, of: Info, cleanup: int)
      requires Valid() && (hit == -1 || (hit >= 0 && hit in tree)) && Answers(sys, View()) && !of0.isDir
      modifies this
      ensures Valid() <==> !(hit >= 0 && hit in old(files) && Race(old(files[hit]), of0, now, sys))
      ensures ok && !of.isDir <==> cleanup >= 0
      ensures hit < 0 ==> Delivered(ok, of, OpenAndStat(of0.(fd := INVALID, err := 0), sys), sys.allocFails)
      ensures hit >= 0 ==> hit in old(files)
      ensures hit >= 0 ==> var f, i := old(files)[hit], of0.(fd := INVALID, err := 0);
              Delivered(ok, of, Told(f, i, now, sys), Replaced(f, i, now, sys) && sys.allocFails)
      ensures Valid() ==> if cleanup < 0 then cleanups == old(cleanups)
        else Registered(old(View()), View(), cleanup, of)
    {
      ghost var s := View();
      of := of0.(fd := INVALID, err := 0);
      ghost var race := hit >= 0 && hit in files && Race(files[hit], of, now, sys);
      var at;
      if hit >= 0 {
        at, of := Revalidate(hit, of, now, sys);
      } else {
        at, of := OpenNew(of, sys);
      }
      ok, cleanup := Settle(hit, at, of, now, sys, s, race);
    }

    // ngx_open_file_cache_cleanup: its two alerts cannot be raised, and only files that had left the tree while in
    // use stay open.
    method Drain()
      requires Inv(View(), -1, INVALID)
      modifies this
      ensures Inv(View(), -1, INVALID) && current == 0 && tree == {} && queue == []
      ensures files.Keys == old(files.Keys) - old(tree) && open == set id | id in files :: files[id].fd
      ensures forall id :: id in files ==> files[id] == old(files)[id] && files[id].count > 0
    {
      while queue != []
        invariant Inv(View(), -1, INVALID) && tree <= old(tree) && files.Keys == old(files.Keys) - (old(tree) - tree)
        invariant forall id :: id in files ==> id in old(files) && files[id] == old(files)[id]
        decreases |queue|
      {
        var q := queue[|queue| - 1];
        assert q in queue;
        DrainOne(q);
      }
      DrainedFacts(View());
    }

    method DrainOne(x: Id)
      requires Inv(View(), -1, INVALID) && x in tree
      modifies this
      ensures Inv(View(), -1, INVALID) && x in old(files) && files == old(files) - {x} && tree == old(tree) - {x}
      ensures |queue| == |old(queue)| - 1
    {
      DequeuedInv(View(), x, INVALID);
      WithoutFacts(queue, x);
      queue := Without(queue, x);
      Forfeit(x);
      DropEntry(x);
    }

    method DropEntry(x: Id)
      requires Inv(View(), x, INVALID) && x in tree && x in files && files[x].count == 0 && FileAt(View(), x)
      modifies this
      ensures Inv(View(), -1, INVALID) && files == old(files) - {x} && tree == old(tree) - {x} && queue == old(queue)
    {
      ghost var t := View();
      DroppedInv(t, x, INVALID);
      tree, current := tree - {x}, current - 1;
      if files[x].err == 0 && !files[x].isDir {
        if files[x].fd != INVALID {
          Close(files[x].fd);
        }
      }
      owner := owner - {files[x].fd};
      FreeEntry(x);
      assert View() == Dropped(t, x);
    }

    method Forfeit(x: Id)
      requires Inv(View(), x, INVALID) && x in tree && x in files
      modifies `files, `cleanups
      ensures View() == Forfeited(old(View()), x) && Inv(View(), x, INVALID) && FileAt(View(), x)
    {
      ForfeitedInv(View(), x);
      assert FileAt(View(), x);
      if files[x].err == 0 && !files[x].isDir {
        files := files[x := files[x].(count := 0)];
      }
      cleanups := cleanups[x := 0];
      assert files == old(files)[x := old(files)[x].(count := 0)];
    }
  }

  // A file is opened, and opened again by a caller who expects another one: stat shows a directory under the number of
  // the file that is open, and the entry becomes a directory with an open descriptor.
  method RaceLost() returns (c: Cache)
    ensures !c.Valid()
  {
    c := new Cache(8, 60);
    var of := Info(INVALID, 0, 0, false, false, false, 10, 1);
    var file := Sys(false, 7, false, false, 5, false, 7, false, 2, false, 0, false, false);
    var ok, info, x := c.OpenCached(-1, of, 100, file);
    var id := Unused(c.files.Keys);
    var fd := Unused(c.open);
    var directory := Sys(false, 7, true, false, fd, false, 7, true, 2, false, id, false, false);
    ok, info, x := c.OpenCached(x, of.(uniq := 9), 100, directory);
  }

  method Unused(s: set<int>) returns (n: nat)
    ensures n !in s
  {
    n := 0;
    ghost var rest := s;
    while n in s
      invariant forall k :: k in s && k >= n ==> k in rest
      decreases |rest|
    {
      rest := rest - {n};
      n := n + 1;
    }
  }
}
