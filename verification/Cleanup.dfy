/** Removal of a directory's contents with an explicit stack and one moving descriptor.
    Any call into the operating system may fail; `faulted` records that one did. */
module Cleanup {
  import opened FileTree
  import opened CleanupWalk
  import Lex

  const MAX_CLEANUP_ENTRIES := 40000

  function Max(a: nat, b: nat): nat { if a < b then b else a }

  // ---------- `sorted(names)` ----------

  function InsertName(n: string, names: seq<string>): seq<string> {
    if names == [] || !Lex.Less(names[0], n) then [n] + names else [names[0]] + InsertName(n, names[1..])
  }

  function SortNames(names: seq<string>): seq<string> {
    if names == [] then [] else InsertName(names[0], SortNames(names[1..]))
  }

  lemma {:induction false} InsertKeeps(n: string, names: seq<string>)
    ensures multiset(InsertName(n, names)) == multiset(names) + multiset{n}
  {
    if names != [] && Lex.Less(names[0], n) {
      InsertKeeps(n, names[1..]);
      assert names == [names[0]] + names[1..];
    }
  }

  lemma {:induction false} SortPermutes(names: seq<string>)
    ensures multiset(SortNames(names)) == multiset(names)
  {
    if names != [] {
      SortPermutes(names[1..]);
      InsertKeeps(names[0], SortNames(names[1..]));
      assert names == [names[0]] + names[1..];
    }
  }

  lemma {:induction false} CountsNoDuplicates(names: seq<string>)
    ensures NoDuplicates(names) <==> forall n :: multiset(names)[n] <= 1
  {
    if names != [] {
      var rest := names[1..];
      assert names == [names[0]] + rest;
      assert multiset(names) == multiset{names[0]} + multiset(rest);
      CountsNoDuplicates(rest);
      assert forall i :: 0 <= i < |rest| ==> names[i + 1] == rest[i];
      if NoDuplicates(names) {
        assert names[0] !in rest;
        assert multiset(rest)[names[0]] == 0;
      }
      if forall n :: multiset(names)[n] <= 1 {
        assert multiset(names)[names[0]] <= 1;
        assert names[0] !in multiset(rest);
        assert forall n :: multiset(rest)[n] <= multiset(names)[n];
        forall i, j | 0 <= i < j < |names| ensures names[i] != names[j] {
          assert names[j] == rest[j - 1] && rest[j - 1] in multiset(rest);
        }
      }
    }
  }

  lemma SortKeepsListing(names: seq<string>)
    requires NoDuplicates(names)
    ensures NoDuplicates(SortNames(names)) && NameSet(SortNames(names)) == NameSet(names)
    ensures |SortNames(names)| == |names|
  {
    SortPermutes(names);
    assert |SortNames(names)| == |multiset(SortNames(names))| == |multiset(names)| == |names|;
    CountsNoDuplicates(names);
    CountsNoDuplicates(SortNames(names));
    assert forall n :: n in SortNames(names) <==> n in multiset(SortNames(names));
    assert forall n :: n in names <==> n in multiset(names);
  }

  /** A directory listing part way: names read once each, and those still to come. */
  ghost predicate Listing(names: seq<string>, rest: set<string>, all: set<string>) {
    NoDuplicates(names) && NameSet(names) !! rest && NameSet(names) + rest == all
  }

  lemma ListNothing(all: set<string>)
    ensures Listing([], all, all)
  {
  }

  lemma ListOneMore(names: seq<string>, rest: set<string>, all: set<string>, n: string)
    requires Listing(names, rest, all) && n in rest
    ensures Listing(names + [n], rest - {n}, all)
  {
    assert NameSet(names + [n]) == NameSet(names) + {n};
    assert forall i :: 0 <= i < |names| ==> names[i] in NameSet(names);
  }

  lemma ListEverything(names: seq<string>, rest: set<string>, all: set<string>)
    requires Listing(names, rest, all) && rest == {}
    ensures NoDuplicates(names) && NameSet(names) == all
  {
  }

  lemma WithoutFewer(fs: Files, d: Inode, n: string)
    requires HasLink(fs, d, n)
    ensures Without(fs, d, n).Keys == fs.Keys
    ensures LinksIn(Without(fs, d, n), fs.Keys) < LinksIn(fs, fs.Keys)
  {
    var after := Without(fs, d, n);
    assert (d, n) in LinksIn(fs, fs.Keys) && (d, n) !in LinksIn(after, fs.Keys);
  }

  /** The situation when the removal starts. */
  datatype Start = Start(
    fs: Files, level: Inode -> nat, root: Inode, fd: int, open: map<int, Inode>, budget: nat)
  {
    /** The links of the subtree do not fit the quota. */
    ghost predicate OverQuota() {
      budget + |LinksIn(fs, DirsUnder(fs, root))| > MAX_CLEANUP_ENTRIES
    }
  }

  /** The measure that every completed turn lowers. */
  ghost predicate Nearer(fs: Files, stack: seq<Frame>, fs': Files, stack': seq<Frame>) {
    && fs'.Keys == fs.Keys
    && (LinksIn(fs', fs.Keys) < LinksIn(fs, fs.Keys) || (fs' == fs &&
      fs.Keys - Inodes(stack') < fs.Keys - Inodes(stack)))
  }

  lemma DropAdded(m: map<int, Inode>, fd: int, i: Inode)
    requires fd !in m
    ensures m[fd := i] - {fd} == m
  {
  }

  lemma DropFirst(m: map<int, Inode>, a: int, i: Inode, b: int, j: Inode)
    requires a !in m && a != b
    ensures m[a := i][b := j] - {a} == m[b := j]
  {
  }

  lemma SameInodes(stack: seq<Frame>)
    requires |stack| > 0
    ensures Inodes(Advance(stack)) == Inodes(stack)
  {
    var advanced := Advance(stack);
    assert forall k :: 0 <= k < |stack| ==> advanced[k].inode == stack[k].inode;
  }

  /** Listing a directory about to be entered charges exactly its links; if that is
      too many then so are the links of the whole subtree. */
  /** Entering a directory leaves one fewer to enter. */
  lemma EnterNearer(s: Start, w: Walk, c: Inode, stack: seq<Frame>)
    requires Inv(s.fs, s.level, s.root, w.(stack := stack))
    requires Inodes(stack) == Inodes(w.stack) + {c} && c !in Inodes(w.stack)
    ensures Nearer(w.fs, w.stack, w.fs, stack)
  {
    hide Inv, Inodes, LinksIn;
    InodesInKeys(s.fs, s.level, s.root, w.(stack := stack));
    assert c in w.fs.Keys - Inodes(w.stack) && c !in w.fs.Keys - Inodes(stack);
  }

  lemma EnterCharge(s: Start, w: Walk, c: Inode)
    requires Inv(s.fs, s.level, s.root, w)
    requires IsDir(s.fs, c) && c in DirsUnder(s.fs, s.root) && c !in w.done && c !in Inodes(w.stack)
    ensures
      var dirs := w.done + Inodes(w.stack);
      && |LinksIn(s.fs, dirs + {c})| == |LinksIn(s.fs, dirs)| + |s.fs[c].entries|
      && dirs + {c} == w.done + (Inodes(w.stack) + {c})
      && (s.budget + |LinksIn(s.fs, dirs + {c})| > MAX_CLEANUP_ENTRIES ==> s.OverQuota())
  {
    var dirs := w.done + Inodes(w.stack);
    LinksGrow(s.fs, dirs, c);
    forall k | 0 <= k < |w.stack| ensures w.stack[k].inode in DirsUnder(s.fs, s.root) {
      NotDone(s.fs, s.level, s.root, w, k);
    }
    assert dirs + {c} <= DirsUnder(s.fs, s.root);
    LinksMonotone(s.fs, dirs + {c}, DirsUnder(s.fs, s.root));
  }

  /** Directories on the stack are nodes of the file system. */
  lemma InodesInKeys(before: Files, level: Inode -> nat, root: Inode, w: Walk)
    requires Inv(before, level, root, w)
    ensures Inodes(w.stack) <= w.fs.Keys
  {
    forall k | 0 <= k < |w.stack| ensures w.stack[k].inode in w.fs {
      NotDone(before, level, root, w, k);
    }
  }

  lemma TopExhausted(before: Files, level: Inode -> nat, root: Inode, w: Walk)
    requires Inv(before, level, root, w) && |w.stack| > 0
    ensures w.stack[|w.stack| - 1].next <= |w.stack[|w.stack| - 1].entries|
  {
    assert Framed(before, level, root, w, |w.stack| - 1);
  }

  lemma OnlyRoot(before: Files, level: Inode -> nat, root: Inode, w: Walk)
    requires Inv(before, level, root, w) && |w.stack| == 1
    ensures Inodes(w.stack) == {root}
  {
  }

  lemma Untouched(fs: Files, root: Inode)
    ensures PartlyCleared(fs, fs, root)
  {
  }

  lemma StartCharge(s: Start)
    requires IsDir(s.fs, s.root)
    ensures |LinksIn(s.fs, {} + {s.root})| == |s.fs[s.root].entries|
    ensures s.budget + |s.fs[s.root].entries| > MAX_CLEANUP_ENTRIES ==> s.OverQuota()
  {
    LinksGrow(s.fs, {}, s.root);
    assert LinksIn(s.fs, {}) == {};
    UnderSelf(s.fs, s.root);
    LinksMonotone(s.fs, {} + {s.root}, DirsUnder(s.fs, s.root));
  }

  lemma RootFrame(before: Files, level: Inode -> nat, root: Inode, w: Walk)
    requires Inv(before, level, root, w)
    ensures |w.stack| > 0 && w.stack[0].inode == root
  {
  }

  class Cleaner {
    // The operating system.
    var fs: Files
    var open: map<int, Inode>
    var nextFd: int
    ghost var faulted: bool
    ghost var peak: nat

    // The variables of the walk.
    var walkFd: int
    var walkOwned: bool
    var stack: seq<Frame>
    var budget: nat
    ghost var done: set<Inode>

    /** Descriptors are directories; numbers not yet handed out are not open. */
    ghost predicate Handles()
      reads `fs, `open, `nextFd
    {
      nextFd >= 0 && forall fd :: fd in open ==> 0 <= fd < nextFd && IsDir(fs, open[fd])
    }

    // ---------- operating system calls ----------

    method OpenInode(i: Inode) returns (fd: int)
      requires Handles() && IsDir(fs, i)
      modifies `open, `nextFd, `peak
      ensures Handles()
      ensures fd >= 0 && fd !in old(open) && open == old(open)[fd := i]
      ensures peak == Max(old(peak), |old(open)| + 1)
    {
      fd := nextFd;
      open := open[fd := i];
      nextFd := nextFd + 1;
      assert open.Keys == old(open).Keys + {fd};
      assert |open| == |open.Keys| && |old(open)| == |old(open).Keys|;
      peak := Max(peak, |open|);
    }

    /** `open(name, O_DIRECTORY | O_NOFOLLOW, dir_fd)`. */
    method OpenAt(dirFd: int, name: string) returns (fd: int)
      requires Handles() && dirFd in open
      modifies `open, `nextFd, `peak, `faulted
      ensures Handles() && (old(faulted) ==> faulted)
      ensures peak <= Max(old(peak), |old(open)| + 1)
      ensures fd < 0 ==> open == old(open)
      ensures fd < 0 && !faulted ==> !HasLink(fs, open[dirFd], name) || !IsDir(fs, Target(fs, open[dirFd], name))
      ensures fd >= 0 ==>
        && HasLink(fs, old(open)[dirFd], name) && IsDir(fs, Target(fs, old(open)[dirFd], name))
        && fd !in old(open) && open == old(open)[fd := Target(fs, old(open)[dirFd], name)]
    {
      if * {
        faulted := true;
        return -1;
      }
      var d := open[dirFd];
      if name !in fs[d].entries || fs[d].entries[name] !in fs || !fs[fs[d].entries[name]].Dir? { return -1; }
      fd := OpenInode(fs[d].entries[name]);
    }

    /** `open("..", dir_fd)`. */
    method OpenParent(dirFd: int) returns (fd: int)
      requires Handles() && dirFd in open
      modifies `open, `nextFd, `peak, `faulted
      ensures Handles() && (old(faulted) ==> faulted)
      ensures peak <= Max(old(peak), |old(open)| + 1)
      ensures fd < 0 ==> open == old(open)
      ensures fd < 0 && !faulted ==> !IsDir(fs, fs[open[dirFd]].parent)
      ensures fd >= 0 ==>
        && IsDir(fs, fs[old(open)[dirFd]].parent)
        && fd !in old(open) && open == old(open)[fd := fs[old(open)[dirFd]].parent]
    {
      if * {
        faulted := true;
        return -1;
      }
      var p := fs[open[dirFd]].parent;
      if p !in fs || !fs[p].Dir? { return -1; }
      fd := OpenInode(p);
    }

    /** `close`; the descriptor is gone even when an error is reported. Closing a
        descriptor that is not open is not allowed. */
    method Close(fd: int) returns (ok: bool)
      requires Handles() && fd in open
      modifies `open, `faulted
      ensures Handles() && (old(faulted) ==> faulted)
      ensures open == old(open) - {fd}
      ensures !ok ==> faulted
    {
      open := open - {fd};
      if * {
        faulted := true;
        return false;
      }
      return true;
    }

    /** `fstat`, `fchmod` and `fsync`, which here only may fail. */
    method Probe(fd: int) returns (ok: bool)
      requires fd in open
      modifies `faulted
      ensures (old(faulted) ==> faulted) && (!ok ==> faulted)
    {
      if * {
        faulted := true;
        return false;
      }
      return true;
    }

    /** `stat(name, dir_fd, follow_symlinks=False)`. */
    method StatAt(dirFd: int, name: string) returns (ok: bool, inode: Inode, isDir: bool)
      requires Handles() && dirFd in open
      modifies `faulted
      ensures old(faulted) ==> faulted
      ensures ok ==> HasLink(fs, open[dirFd], name) && inode == Target(fs, open[dirFd], name)
      ensures ok ==> isDir == IsDir(fs, inode)
      ensures !ok && !faulted ==> !HasLink(fs, open[dirFd], name)
    {
      inode, isDir := 0, false;
      if * {
        faulted := true;
        return false, inode, isDir;
      }
      var d := open[dirFd];
      if name !in fs[d].entries { return false, inode, isDir; }
      inode := fs[d].entries[name];
      return true, inode, inode in fs && fs[inode].Dir?;
    }

    /** `unlink(name, dir_fd)`, which refuses directories. */
    method Unlink(dirFd: int, name: string) returns (ok: bool)
      requires Handles() && dirFd in open
      modifies `fs, `faulted
      ensures Handles() && (old(faulted) ==> faulted)
      ensures ok ==>
        && HasLink(old(fs), open[dirFd], name) && !IsDir(old(fs), Target(old(fs), open[dirFd], name))
        && fs == Without(old(fs), open[dirFd], name)
      ensures !ok ==> fs == old(fs)
      ensures !ok && !faulted ==> !HasLink(fs, open[dirFd], name) || IsDir(fs, Target(fs, open[dirFd], name))
    {
      if * {
        faulted := true;
        return false;
      }
      var d := open[dirFd];
      if name !in fs[d].entries { return false; }
      var target := fs[d].entries[name];
      if target in fs && fs[target].Dir? { return false; }
      fs := Without(fs, d, name);
      return true;
    }

    /** `rmdir(name, dir_fd)`, which refuses directories that are not empty. */
    method Rmdir(dirFd: int, name: string) returns (ok: bool)
      requires Handles() && dirFd in open
      modifies `fs, `faulted
      ensures Handles() && (old(faulted) ==> faulted)
      ensures ok ==>
        && HasLink(old(fs), open[dirFd], name) && IsDir(old(fs), Target(old(fs), open[dirFd], name))
        && old(fs)[Target(old(fs), open[dirFd], name)].entries == map[]
        && fs == Without(old(fs), open[dirFd], name)
      ensures !ok ==> fs == old(fs)
      ensures !ok && !faulted ==>
        || !HasLink(fs, open[dirFd], name) || !IsDir(fs, Target(fs, open[dirFd], name))
        || fs[Target(fs, open[dirFd], name)].entries != map[]
    {
      if * {
        faulted := true;
        return false;
      }
      var d := open[dirFd];
      if name !in fs[d].entries { return false; }
      var target := fs[d].entries[name];
      if target !in fs || !fs[target].Dir? || fs[target].entries != map[] { return false; }
      fs := Without(fs, d, name);
      return true;
    }

    // ---------- the walk ----------

    /** List a directory through a duplicate of its descriptor, charging every name to the
        budget; at most one name beyond the quota is ever charged. */
    method ReadCleanupEntries(fd: int) returns (ok: bool, names: seq<string>)
      requires Handles() && fd in open
      modifies `budget, `faulted, `peak
      ensures old(faulted) ==> faulted
      ensures peak <= Max(old(peak), |open| + 1)
      ensures budget <= Max(old(budget), MAX_CLEANUP_ENTRIES) + 1
      ensures ok ==>
        && NoDuplicates(names) && NameSet(names) == fs[open[fd]].entries.Keys
        && budget == old(budget) + |fs[open[fd]].entries|
        && (budget > old(budget) ==> budget <= MAX_CLEANUP_ENTRIES)
      ensures !ok && !faulted ==> old(budget) + |fs[open[fd]].entries| > MAX_CLEANUP_ENTRIES
    {
      hide NoDuplicates, NameSet, Listing, SortNames;
      names := [];
      var changed := Probe(fd);
      if !changed { return false, []; }
      peak := Max(peak, |open| + 1);
      var entries := fs[open[fd]].entries;
      var rest := entries.Keys;
      assert |entries| == |entries.Keys|;
      ListNothing(entries.Keys);
      while rest != {}
        invariant Listing(names, rest, entries.Keys)
        invariant |names| + |rest| == |entries|
        invariant budget == old(budget) + |names|
        invariant names != [] ==> budget <= MAX_CLEANUP_ENTRIES
        invariant (old(faulted) ==> faulted) && peak <= Max(old(peak), |open| + 1)
        decreases |rest|
      {
        var read := Probe(fd);
        if !read { return false, []; }
        var name :| name in rest;
        budget := budget + 1;
        if budget > MAX_CLEANUP_ENTRIES {
          assert |rest| >= 1;
          return false, [];
        }
        ListOneMore(names, rest, entries.Keys, name);
        names := names + [name];
        rest := rest - {name};
      }
      ListEverything(names, rest, entries.Keys);
      SortKeepsListing(names);
      return true, SortNames(names);
    }

    /** The only descriptor beyond those open at the start is the walk's own. */
    ghost predicate Held(open0: map<int, Inode>)
      reads `open, `walkFd, `walkOwned
    {
      if walkOwned then walkFd !in open0 && walkFd in open && open == open0[walkFd := open[walkFd]] else open == open0
    }

    lemma HeldSize(open0: map<int, Inode>)
      requires Held(open0)
      ensures |open| <= |open0| + 1
    {
      if walkOwned {
        assert open.Keys == open0.Keys + {walkFd};
        assert |open| == |open.Keys| && |open0| == |open0.Keys|;
      }
    }

    /** Names charged so far: those of every directory listed. */
    ghost predicate Charged(s: Start)
      reads `budget, `stack, `done
    {
      && budget == s.budget + |LinksIn(s.fs, done + Inodes(stack))|
      && (budget > s.budget ==> budget <= MAX_CLEANUP_ENTRIES)
    }

    /** What holds between two turns of the loop. */
    ghost predicate Between(s: Start)
      reads this
    {
      && |stack| > 0 && Inv(s.fs, s.level, s.root, Walk(fs, stack, done))
      && Handles() && Held(s.open) && s.fd in s.open && s.open[s.fd] == s.root
      && walkFd in open && open[walkFd] == stack[|stack| - 1].inode
      && walkOwned == (|stack| > 1) && (!walkOwned ==> walkFd == s.fd)
      && Charged(s)
    }

    /** What holds after a turn failed: some call failed or the quota is too small, and
        the damage is confined. */
    ghost predicate Broken(s: Start)
      reads this
    {
      && PartlyCleared(s.fs, fs, s.root) && Handles() && Held(s.open)
      && (faulted || s.OverQuota())
      && budget <= Max(s.budget, MAX_CLEANUP_ENTRIES) + 1
    }

    /** A turn that handles the next entry of the directory on top of the stack. */
    method TakeEntry(ghost s: Start) returns (ok: bool)
      requires Between(s)
      requires var f := stack[|stack| - 1]; f.next < |f.entries|
      modifies this
      ensures old(faulted) ==> faulted
      ensures peak <= Max(old(peak), |s.open| + 3)
      ensures if ok then Between(s) else Broken(s)
      ensures ok ==> Nearer(old(fs), old(stack), fs, stack)
    {
      hide Inv, PartlyCleared, LinksIn, DirsUnder, WellFormed, Handles, Inodes, Held, Nearer, OnlyLink;
      var current := stack[|stack| - 1];
      var name := current.entries[current.next];
      ghost var w := Walk(fs, stack, done);
      NextLink(s.fs, s.level, s.root, w);
      Confined(s.fs, s.level, s.root, w);
      stack := Advance(stack);
      var found, info, isDir := StatAt(walkFd, name);
      if !found { return false; }
      if isDir {
        ok := EnterDirectory(name, info, w, s);
        return;
      }
      ok := UnlinkEntry(name, w, s);
    }

    /** The branch for anything that is not a directory. */
    method UnlinkEntry(name: string, ghost w: Walk, ghost s: Start) returns (ok: bool)
      requires w.fs == fs && w.done == done && |w.stack| > 0 && stack == Advance(w.stack)
      requires Inv(s.fs, s.level, s.root, w)
      requires Handles() && walkFd in open
      requires
        var f := w.stack[|w.stack| - 1];
        && f.next < |f.entries| && name == f.entries[f.next] && open[walkFd] == f.inode
        && HasLink(fs, f.inode, name) && !IsDir(fs, Target(fs, f.inode, name))
      modifies `fs, `faulted
      ensures Handles() && (old(faulted) ==> faulted) && (!ok ==> faulted)
      ensures PartlyCleared(s.fs, fs, s.root)
      ensures ok ==>
        && Inv(s.fs, s.level, s.root, Walk(fs, stack, done))
        && Inodes(stack) == Inodes(w.stack)
        && Nearer(w.fs, w.stack, fs, stack)
    {
      hide Inv, PartlyCleared, LinksIn, DirsUnder, WellFormed, Handles, Inodes;
      Confined(s.fs, s.level, s.root, w);
      ok := Unlink(walkFd, name);
      if !ok { return false; }
      UnlinkKeeps(s.fs, s.level, s.root, w, name);
      Confined(s.fs, s.level, s.root, Walk(fs, stack, done));
      WithoutFewer(w.fs, open[walkFd], name);
      SameInodes(w.stack);
      ok := Probe(walkFd);
    }

    /** Open a child directory beside the walk's descriptor, check it and list it. */
    method OpenAndList(name: string, info: Inode) returns (childFd: int, names: seq<string>)
      requires Handles() && walkFd in open
      requires HasLink(fs, open[walkFd], name) && Target(fs, open[walkFd], name) == info && IsDir(fs, info)
      modifies `open, `nextFd, `peak, `faulted, `budget
      ensures Handles() && (old(faulted) ==> faulted)
      ensures peak <= Max(old(peak), |old(open)| + 2) && budget <= Max(old(budget), MAX_CLEANUP_ENTRIES) + 1
      ensures childFd < 0 ==>
        open == old(open) && (faulted || old(budget) + |fs[info].entries| > MAX_CLEANUP_ENTRIES)
      ensures childFd >= 0 ==>
        && childFd !in old(open) && open == old(open)[childFd := info]
        && NoDuplicates(names) && NameSet(names) == fs[info].entries.Keys
        && budget == old(budget) + |fs[info].entries|
        && (budget > old(budget) ==> budget <= MAX_CLEANUP_ENTRIES)
    {
      hide NoDuplicates, NameSet;
      names := [];
      childFd := OpenAt(walkFd, name);
      if childFd < 0 { return -1, names; }
      DropAdded(old(open), childFd, info);
      var ok := Probe(childFd);
      if ok {
        if open[childFd] != info { assert false; }
        ok, names := ReadCleanupEntries(childFd);
      }
      if !ok {
        var _ := Close(childFd);
        return -1, names;
      }
    }

    /** Hand the walk over to the child's descriptor, closing the parent's if it is
        the walk's own. */
    method MoveDown(childFd: int, ghost open0: map<int, Inode>) returns (ok: bool)
      requires Handles() && childFd in open && childFd !in open0 && childFd != walkFd && walkFd in open
      requires walkOwned ==> walkFd !in open0 && open == open0[walkFd := open[walkFd]][childFd := open[childFd]]
      requires !walkOwned ==> open == open0[childFd := open[childFd]]
      modifies `open, `faulted, `walkFd, `walkOwned
      ensures Handles() && (old(faulted) ==> faulted) && (!ok ==> faulted)
      ensures walkFd == childFd && walkOwned && Held(open0) && open[walkFd] == old(open[childFd])
    {
      var closingFd, closingOwned := walkFd, walkOwned;
      walkFd, walkOwned := childFd, true;
      if closingOwned {
        DropFirst(open0, closingFd, open[closingFd], childFd, open[childFd]);
        ok := Close(closingFd);
      } else {
        ok := true;
      }
    }

    /** Move the walk's descriptor down and push the child, whose listing is charged. */
    method PushChild(childFd: int, child: Frame, ghost s: Start) returns (ok: bool)
      requires Inv(s.fs, s.level, s.root, Walk(fs, stack + [child], done)) && |stack| > 0
      requires Handles() && s.fd in s.open && s.open[s.fd] == s.root
      requires childFd in open && childFd !in s.open && childFd != walkFd && walkFd in open
      requires open[childFd] == child.inode
      requires walkOwned ==> walkFd !in s.open && open == s.open[walkFd := open[walkFd]][childFd := open[childFd]]
      requires !walkOwned ==> open == s.open[childFd := open[childFd]]
      requires budget == s.budget + |LinksIn(s.fs, done + Inodes(stack + [child]))|
      requires budget > s.budget ==> budget <= MAX_CLEANUP_ENTRIES
      modifies `open, `faulted, `walkFd, `walkOwned, `stack
      ensures Handles() && Held(s.open) && (old(faulted) ==> faulted)
      ensures if ok then Between(s) && stack == old(stack) + [child] else faulted
    {
      hide Inv, LinksIn, Inodes, Handles;
      ok := MoveDown(childFd, s.open);
      if !ok { return false; }
      stack := stack + [child];
    }

    /** The branch for a directory: open it, check and list it, and move the walk's
        descriptor down. */
    method EnterDirectory(name: string, info: Inode, ghost w: Walk, ghost s: Start) returns (ok: bool)
      requires w.fs == fs && w.done == done && |w.stack| > 0 && stack == Advance(w.stack)
      requires Inv(s.fs, s.level, s.root, w)
      requires Handles() && Held(s.open) && s.fd in s.open && s.open[s.fd] == s.root && walkFd in open
      requires
        var f := w.stack[|w.stack| - 1];
        && f.next < |f.entries| && name == f.entries[f.next]
        && open[walkFd] == f.inode && HasLink(fs, f.inode, name)
        && Target(fs, f.inode, name) == info && IsDir(fs, info)
      requires walkOwned == (|w.stack| > 1)
      requires budget == s.budget + |LinksIn(s.fs, done + Inodes(w.stack))|
      requires budget > s.budget ==> budget <= MAX_CLEANUP_ENTRIES
      modifies `open, `nextFd, `peak, `faulted, `budget, `walkFd, `walkOwned, `stack
      ensures old(faulted) ==> faulted
      ensures peak <= Max(old(peak), |s.open| + 3)
      ensures if ok then Between(s) else Broken(s)
      ensures ok ==> Nearer(fs, w.stack, fs, stack)
    {
      hide Inv, PartlyCleared, LinksIn, DirsUnder, WellFormed, NameSet, NoDuplicates, Inodes, Handles, Nearer, Between;
      HeldSize(s.open);
      Confined(s.fs, s.level, s.root, w);
      EnterFresh(s.fs, s.level, s.root, w, name);
      EnterCharge(s, w, info);
      var childFd, names := OpenAndList(name, info);
      if childFd < 0 { return false; }
      EnterKeeps(s.fs, s.level, s.root, w, name, names);
      EnterNearer(s, w, info, stack + [Frame(name, info, names, 0)]);
      ok := PushChild(childFd, Frame(name, info, names, 0), s);
    }

    /** Open the parent through `..` beside the walk's descriptor and check both ends
        of the link. */
    method OpenCheckedParent(name: string, child: Inode, parent: Inode) returns (parentFd: int)
      requires Handles() && walkFd in open && open[walkFd] == child
      requires IsDir(fs, child) && fs[child].parent == parent && HasLink(fs, parent, name) &&
               Target(fs, parent, name) == child
      modifies `open, `nextFd, `peak, `faulted
      ensures Handles() && (old(faulted) ==> faulted)
      ensures peak <= Max(old(peak), |old(open)| + 1)
      ensures parentFd < 0 ==> open == old(open) && faulted
      ensures parentFd >= 0 ==> parentFd !in old(open) && open == old(open)[parentFd := parent]
    {
      parentFd := OpenParent(walkFd);
      if parentFd < 0 { return -1; }
      DropAdded(old(open), parentFd, parent);
      var ok := Probe(parentFd);
      if ok {
        if open[parentFd] != parent { assert false; }
        var found, linked, isDir := StatAt(parentFd, name);
        if found {
          if !isDir || linked != child { assert false; }
          return parentFd;
        }
      }
      var _ := Close(parentFd);
      return -1;
    }

    /** Move the walk's descriptor from a child to its parent; at the root the caller's
        descriptor takes over. */
    method MoveUp(name: string, child: Inode, parent: Inode, atRoot: bool, directoryFd: int, ghost open0: map<int,
                  Inode>) returns (ok: bool)
      requires Handles() && walkOwned && walkFd !in open0 && open == open0[walkFd := child]
      requires IsDir(fs, child) && fs[child].parent == parent && HasLink(fs, parent, name) &&
               Target(fs, parent, name) == child
      requires directoryFd in open0 && (atRoot ==> open0[directoryFd] == parent)
      modifies `open, `nextFd, `peak, `faulted, `walkFd, `walkOwned
      ensures Handles() && Held(open0) && (old(faulted) ==> faulted) && (!ok ==> faulted)
      ensures peak <= Max(old(peak), |old(open)| + 1)
      ensures ok ==> walkFd in open && open[walkFd] == parent && walkOwned == !atRoot
      ensures ok && atRoot ==> walkFd == directoryFd
    {
      hide Handles;
      var parentFd := OpenCheckedParent(name, child, parent);
      if parentFd < 0 { return false; }
      DropFirst(open0, walkFd, child, parentFd, parent);
      DropAdded(open0, parentFd, parent);
      var closingFd := walkFd;
      walkFd, walkOwned := -1, false;
      ok := Close(closingFd);
      if !ok {
        var _ := Close(parentFd);
        return false;
      }
      if atRoot {
        ok := Close(parentFd);
        if !ok { return false; }
        walkFd, walkOwned := directoryFd, false;
      } else {
        walkFd, walkOwned := parentFd, true;
      }
    }

    /** A turn that removes the exhausted directory on top of the stack, after moving
        the walk's descriptor up through `..`. */
    method LeaveDirectory(directoryFd: int, ghost s: Start) returns (ok: bool)
      requires Between(s) && |stack| >= 2 && directoryFd == s.fd
      requires var f := stack[|stack| - 1]; f.next == |f.entries|
      modifies this
      ensures old(faulted) ==> faulted
      ensures peak <= Max(old(peak), |s.open| + 3)
      ensures if ok then Between(s) else Broken(s)
      ensures ok ==> Nearer(old(fs), old(stack), fs, stack)
    {
      hide Inv, PartlyCleared, LinksIn, DirsUnder, WellFormed, Inodes, Handles;
      var child, parent := stack[|stack| - 1], stack[|stack| - 2];
      ghost var w := Walk(fs, stack, done);
      HeldSize(s.open);
      LeaveFound(s.fs, s.level, s.root, w);
      Confined(s.fs, s.level, s.root, w);
      RootFrame(s.fs, s.level, s.root, w);
      ok := MoveUp(child.name, child.inode, parent.inode, |stack| == 2, directoryFd, s.open);
      if !ok { return false; }
      ok := RemoveEmptied(child.name, w, s);
      if !ok { return false; }
      assert done + Inodes(stack) == w.done + Inodes(w.stack);
    }

    /** Remove the emptied directory from its parent and pop it. */
    method RemoveEmptied(name: string, ghost w: Walk, ghost s: Start) returns (ok: bool)
      requires w == Walk(fs, stack, done) && Inv(s.fs, s.level, s.root, w) && PartlyCleared(s.fs, fs, s.root)
      requires Handles() && walkFd in open && |stack| >= 2
      requires
        var f, p := stack[|stack| - 1], stack[|stack| - 2];
        && f.next == |f.entries| && name == f.name && open[walkFd] == p.inode
        && HasLink(fs, p.inode, name) && Target(fs, p.inode, name) == f.inode
        && IsDir(fs, f.inode) && fs[f.inode].entries == map[]
      modifies `fs, `faulted, `done, `stack
      ensures Handles() && (old(faulted) ==> faulted) && (!ok ==> faulted)
      ensures PartlyCleared(s.fs, fs, s.root)
      ensures ok ==>
        && Inv(s.fs, s.level, s.root, Walk(fs, stack, done))
        && stack == w.stack[..|w.stack| - 1]
        && done == w.done + {w.stack[|w.stack| - 1].inode}
        && Inodes(w.stack) == Inodes(stack) + {w.stack[|w.stack| - 1].inode}
        && Nearer(w.fs, w.stack, fs, stack)
    {
      hide Inv, PartlyCleared, LinksIn, DirsUnder, WellFormed, Inodes, Handles;
      ok := Rmdir(walkFd, name);
      if !ok { return false; }
      LeaveKeeps(s.fs, s.level, s.root, w);
      done := done + {stack[|stack| - 1].inode};
      Confined(s.fs, s.level, s.root, Walk(fs, stack[..|stack| - 1], done));
      WithoutFewer(w.fs, open[walkFd], name);
      ok := Probe(walkFd);
      if !ok { return false; }
      stack := stack[..|stack| - 1];
    }

    /** The loop: each turn handles one entry or removes one emptied directory. */
    method WalkAll(directoryFd: int, ghost s: Start) returns (ok: bool)
      requires Between(s) && directoryFd == s.fd
      modifies this
      ensures old(faulted) ==> faulted
      ensures peak <= Max(old(peak), |s.open| + 3)
      ensures !ok ==> Broken(s)
      ensures ok ==>
        && Between(s) && !walkOwned && fs == Cleared(s.fs, s.root)
        && DirsUnder(s.fs, s.root) == done + Inodes(stack)
    {
      hide Inv, PartlyCleared, LinksIn, DirsUnder, WellFormed, Inodes, Handles, Held, Cleared;
      while true
        invariant Between(s)
        invariant old(faulted) ==> faulted
        invariant peak <= Max(old(peak), |s.open| + 3)
        decreases LinksIn(fs, fs.Keys), fs.Keys - Inodes(stack)
      {
        ghost var fs0, stack0 := fs, stack;
        var current := stack[|stack| - 1];
        if current.next < |current.entries| {
          ok := TakeEntry(s);
          if !ok { return false; }
        } else {
          TopExhausted(s.fs, s.level, s.root, Walk(fs, stack, done));
          if |stack| == 1 {
            EndIsCleared(s.fs, s.level, s.root, Walk(fs, stack, done));
            OnlyRoot(s.fs, s.level, s.root, Walk(fs, stack, done));
            return true;
          }
          ok := LeaveDirectory(directoryFd, s);
          if !ok { return false; }
        }
        assert Nearer(fs0, stack0, fs, stack);
      }
    }

    /** The removal up to the last close. */
    method ListAndWalk(directoryFd: int, ghost s: Start) returns (ok: bool)
      requires Handles() && directoryFd in open && IsDir(fs, open[directoryFd]) && WellFormed(fs, s.level)
      requires s == Start(fs, s.level, open[directoryFd], directoryFd, open, budget)
      requires walkFd == directoryFd && !walkOwned
      modifies this
      ensures Handles() && Held(s.open) && (old(faulted) ==> faulted)
      ensures peak <= Max(old(peak), |s.open| + 3)
      ensures !ok ==> Broken(s)
      ensures ok ==>
        && !walkOwned && fs == Cleared(s.fs, s.root)
        && budget == s.budget + |LinksIn(s.fs, DirsUnder(s.fs, s.root))|
        && (budget > s.budget ==> budget <= MAX_CLEANUP_ENTRIES)
    {
      hide Inv, PartlyCleared, LinksIn, DirsUnder, WellFormed, Inodes, Handles, Cleared, NameSet, NoDuplicates, IsDir;
      StartCharge(s);
      done := {};
      Untouched(fs, s.root);
      ok := Probe(walkFd);
      if !ok { return false; }
      var names;
      ok, names := ReadCleanupEntries(walkFd);
      if !ok { return false; }
      stack := [Frame("", open[walkFd], names, 0)];
      StartHolds(fs, s.level, s.root, names);
      ok := WalkAll(directoryFd, s);
    }

    /** `remove_directory_contents`. It returns normally with the contents removed as
        recursive deletion would, having charged each link of the subtree once. It
        fails only if a call failed or those links exceed the quota, and even then
        touches nothing outside the subtree. Whatever happens, the open descriptors
        at the end are those of the start, at no time were there more than three others,
        and at most one name beyond the quota was listed. */
    method RemoveDirectoryContents(directoryFd: int, ghost level: Inode -> nat) returns (ok: bool)
      requires Handles() && directoryFd in open && WellFormed(fs, level)
      modifies this
      ensures open == old(open)
      ensures peak <= Max(old(peak), |old(open)| + 3)
      ensures budget <= Max(old(budget), MAX_CLEANUP_ENTRIES) + 1
      ensures ok ==> fs == Cleared(old(fs), old(open)[directoryFd])
      ensures ok ==> budget == old(budget) + |LinksIn(old(fs), DirsUnder(old(fs), old(open)[directoryFd]))|
      ensures ok && budget > old(budget) ==> budget <= MAX_CLEANUP_ENTRIES
      ensures !ok ==> PartlyCleared(old(fs), fs, old(open)[directoryFd])
      ensures !ok && !faulted ==>
        old(budget) + |LinksIn(old(fs), DirsUnder(old(fs), old(open)[directoryFd]))| > MAX_CLEANUP_ENTRIES
    {
      assert IsDir(fs, open[directoryFd]);
      hide Inv, PartlyCleared, LinksIn, DirsUnder, WellFormed, Handles, Cleared, IsDir;
      ghost var s := Start(fs, level, open[directoryFd], directoryFd, open, budget);
      walkFd, walkOwned := directoryFd, false;
      ok := ListAndWalk(directoryFd, s);
      if walkOwned {
        DropAdded(s.open, walkFd, open[walkFd]);
        var closed := Close(walkFd);
        ok := ok && closed;
      }
    }
  }
}
