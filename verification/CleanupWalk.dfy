/** The bookkeeping of the iterative cleanup: what holds between two turns of its loop,
    and that each kind of turn keeps it. */
module CleanupWalk {
  import opened FileTree

  /** One directory on the explicit stack. The root's `name` is not used. */
  datatype Frame = Frame(name: string, inode: Inode, entries: seq<string>, next: nat)

  /** `done` holds the directories already removed. */
  datatype Walk = Walk(fs: Files, stack: seq<Frame>, done: set<Inode>)

  function NameSet(names: seq<string>): set<string> {
    set n | n in names
  }

  predicate NoDuplicates(names: seq<string>) {
    forall i, j :: 0 <= i < j < |names| ==> names[i] != names[j]
  }

  ghost function Inodes(stack: seq<Frame>): set<Inode> {
    set k | 0 <= k < |stack| :: stack[k].inode
  }

  /** How many entries of a frame are gone: the one being descended into is not. */
  function Removed(stack: seq<Frame>, k: nat): int
    requires k < |stack|
  {
    if k == |stack| - 1 then stack[k].next else stack[k].next - 1
  }

  /** The listing is that of the original directory, and what is left in the directory
      is its tail. */
  ghost predicate FrameOk(before: Files, fs: Files, f: Frame, removed: int) {
    && IsDir(before, f.inode) && IsDir(fs, f.inode)
    && 0 <= removed <= f.next <= |f.entries|
    && NoDuplicates(f.entries) && NameSet(f.entries) == before[f.inode].entries.Keys
    && fs[f.inode].entries.Keys == NameSet(f.entries[removed..])
  }

  /** The subtree behind each removed entry is gone. */
  ghost predicate SubtreesDone(before: Files, f: Frame, removed: int, done: set<Inode>)
    requires removed <= |f.entries| && IsDir(before, f.inode) && NameSet(f.entries) == before[f.inode].entries.Keys
  {
    forall j :: 0 <= j < removed ==> SubtreeDone(before, f.inode, f.entries[j], done)
  }

  ghost predicate SubtreeDone(before: Files, d: Inode, n: string, done: set<Inode>) {
    HasLink(before, d, n) && (IsDir(before, Target(before, d, n)) ==> DirsUnder(before, Target(before, d, n)) <= done)
  }

  ghost predicate Linked(fs: Files, parent: Frame, child: Frame) {
    && 1 <= parent.next <= |parent.entries| && parent.entries[parent.next - 1] == child.name
    && HasLink(fs, parent.inode, child.name) && Target(fs, parent.inode, child.name) == child.inode
  }

  ghost predicate Framed(before: Files, level: Inode -> nat, root: Inode, w: Walk, k: nat)
    requires k < |w.stack|
  {
    var f, removed := w.stack[k], Removed(w.stack, k);
    && FrameOk(before, w.fs, f, removed)
    && SubtreesDone(before, f, removed, w.done)
    && level(f.inode) == level(root) + k
    && f.inode in DirsUnder(before, root) && f.inode !in w.done
  }

  ghost predicate Frames(before: Files, level: Inode -> nat, root: Inode, w: Walk) {
    && |w.stack| > 0 && w.stack[0].inode == root
    && (forall k :: 0 <= k < |w.stack| ==> Framed(before, level, root, w, k))
    && (forall j, k :: 0 <= j < k < |w.stack| && k == j + 1 ==> Linked(w.fs, w.stack[j], w.stack[k]))
  }

  ghost predicate OnlyShrunk(before: Files, fs: Files) {
    fs.Keys == before.Keys && forall i :: i in before ==> Shrunk(before[i], fs[i])
  }

  ghost predicate RestSame(before: Files, w: Walk)
    requires w.fs.Keys == before.Keys
  {
    forall i :: i in before && i !in w.done && i !in Inodes(w.stack) ==> w.fs[i] == before[i]
  }

  /** Removed directories are empty and no longer linked. */
  ghost predicate Gone(before: Files, w: Walk)
    requires w.fs.Keys == before.Keys
  {
    && (forall x :: x in w.done ==> IsDir(before, x) && IsDir(w.fs, x) && w.fs[x].entries == map[])
    && (forall d, n :: HasLink(before, d, n) && Target(before, d, n) in w.done ==> !HasLink(w.fs, d, n))
  }

  ghost predicate Inv(before: Files, level: Inode -> nat, root: Inode, w: Walk) {
    && WellFormed(before, level)
    && OnlyShrunk(before, w.fs)
    && Frames(before, level, root, w)
    && w.done <= DirsUnder(before, root)
    && RestSame(before, w)
    && Gone(before, w)
  }

  // ---------- small facts ----------

  lemma TailDrop(names: seq<string>, k: nat)
    requires NoDuplicates(names) && k < |names|
    ensures NameSet(names[k + 1..]) == NameSet(names[k..]) - {names[k]}
    ensures names[k] in NameSet(names[k..])
  {
    var tail := names[k + 1..];
    assert names[k..] == [names[k]] + tail;
    forall i | 0 <= i < |tail| ensures tail[i] != names[k] { assert tail[i] == names[k + 1 + i]; }
  }

  lemma ShrunkLink(before: Files, fs: Files, d: Inode, n: string)
    requires OnlyShrunk(before, fs) && HasLink(fs, d, n)
    ensures HasLink(before, d, n) && Target(before, d, n) == Target(fs, d, n)
  {
    assert Shrunk(before[d], fs[d]);
  }

  lemma SameDir(before: Files, fs: Files, c: Inode)
    requires OnlyShrunk(before, fs)
    ensures IsDir(before, c) <==> IsDir(fs, c)
  {
    if c in before { assert Shrunk(before[c], fs[c]); }
  }

  /** Levels tell the directories on the stack apart. */
  lemma StackDistinct(before: Files, level: Inode -> nat, root: Inode, w: Walk, j: nat, k: nat)
    requires Frames(before, level, root, w) && j < |w.stack| && k < |w.stack| && j != k
    ensures w.stack[j].inode != w.stack[k].inode
  {
    assert Framed(before, level, root, w, j) && Framed(before, level, root, w, k);
  }

  lemma WithoutShrinks(before: Files, fs: Files, d: Inode, n: string)
    requires OnlyShrunk(before, fs) && IsDir(fs, d)
    ensures OnlyShrunk(before, Without(fs, d, n))
  {
    var after := Without(fs, d, n);
    assert after.Keys == fs.Keys;
    forall i | i in before ensures Shrunk(before[i], after[i]) {
      assert Shrunk(before[i], fs[i]);
    }
  }

  /** Removing the first remaining link of a frame's directory. */
  lemma FrameDrop(before: Files, fs: Files, f: Frame, removed: nat, next: nat)
    requires FrameOk(before, fs, f, removed) && removed < next <= |f.entries|
    ensures FrameOk(before, Without(fs, f.inode, f.entries[removed]), f.(next := next), removed + 1)
  {
    TailDrop(f.entries, removed);
    var n := f.entries[removed];
    assert (fs[f.inode].entries - {n}).Keys == fs[f.inode].entries.Keys - {n};
  }

  lemma FrameListing(before: Files, fs: Files, f: Frame, removed: int)
    requires FrameOk(before, fs, f, removed)
    ensures IsDir(before, f.inode) && NameSet(f.entries) == before[f.inode].entries.Keys
    ensures 0 <= removed <= f.next <= |f.entries|
  {
  }

  lemma FrameElsewhere(before: Files, fs: Files, f: Frame, removed: int, d: Inode, n: string)
    requires FrameOk(before, fs, f, removed) && IsDir(fs, d) && f.inode != d
    ensures FrameOk(before, Without(fs, d, n), f, removed)
  {
  }

  lemma SubtreesMore(before: Files, f: Frame, removed: nat, next: nat, few: set<Inode>, many: set<Inode>)
    requires removed < |f.entries| && IsDir(before, f.inode) && NameSet(f.entries) == before[f.inode].entries.Keys
    requires SubtreesDone(before, f, removed, few) && few <= many
    requires SubtreeDone(before, f.inode, f.entries[removed], many)
    ensures SubtreesDone(before, f.(next := next), removed + 1, many)
  {
    hide DirsUnder;
    MoreDone(before, f, removed, few, many);
  }

  // ---------- a turn that unlinks something that is not a directory ----------

  function Advance(stack: seq<Frame>): seq<Frame>
    requires |stack| > 0
  {
    var top := |stack| - 1;
    stack[top := stack[top].(next := stack[top].next + 1)]
  }

  /** The entry the top frame looks at next still exists, as it was. */
  lemma NextLink(before: Files, level: Inode -> nat, root: Inode, w: Walk)
    requires Inv(before, level, root, w)
    requires var f := w.stack[|w.stack| - 1]; f.next < |f.entries|
    ensures
      var f := w.stack[|w.stack| - 1];
      var n := f.entries[f.next];
      && HasLink(w.fs, f.inode, n) && HasLink(before, f.inode, n)
      && Target(w.fs, f.inode, n) == Target(before, f.inode, n)
      && Target(before, f.inode, n) in before
  {
    var top := |w.stack| - 1;
    var f := w.stack[top];
    assert Framed(before, level, root, w, top);
    TailDrop(f.entries, f.next);
    ShrunkLink(before, w.fs, f.inode, f.entries[f.next]);
  }

  lemma UnlinkFrame(before: Files, level: Inode -> nat, root: Inode, w: Walk, n: string, k: nat)
    requires Inv(before, level, root, w)
    requires var f := w.stack[|w.stack| - 1]; f.next < |f.entries| && n == f.entries[f.next]
    requires HasLink(w.fs, w.stack[|w.stack| - 1].inode, n) &&
             !IsDir(w.fs, Target(w.fs, w.stack[|w.stack| - 1].inode, n))
    requires k < |w.stack|
    ensures Framed(before, level, root,
            Walk(Without(w.fs, w.stack[|w.stack| - 1].inode, n), Advance(w.stack), w.done), k)
  {
    hide WellFormed, DirsUnder, RestSame, Gone, FrameOk, Linked;
    var top := |w.stack| - 1;
    var f := w.stack[top];
    NextLink(before, level, root, w);
    SameDir(before, w.fs, Target(w.fs, f.inode, n));
    assert Framed(before, level, root, w, k);
    if k == top {
      FrameDrop(before, w.fs, f, f.next, f.next + 1);
      FrameListing(before, w.fs, f, f.next);
      SubtreesMore(before, f, f.next, f.next + 1, w.done, w.done);
    } else {
      StackDistinct(before, level, root, w, k, top);
      FrameElsewhere(before, w.fs, w.stack[k], Removed(w.stack, k), f.inode, n);
    }
  }

  lemma UnlinkFrames(before: Files, level: Inode -> nat, root: Inode, w: Walk, n: string)
    requires Inv(before, level, root, w)
    requires var f := w.stack[|w.stack| - 1]; f.next < |f.entries| && n == f.entries[f.next]
    requires HasLink(w.fs, w.stack[|w.stack| - 1].inode, n) &&
             !IsDir(w.fs, Target(w.fs, w.stack[|w.stack| - 1].inode, n))
    ensures Frames(before, level, root, Walk(Without(w.fs, w.stack[|w.stack| - 1].inode, n), Advance(w.stack), w.done))
  {
    hide WellFormed, DirsUnder, Framed, OnlyShrunk, RestSame, Gone;
    var stack := Advance(w.stack);
    var fs := Without(w.fs, w.stack[|w.stack| - 1].inode, n);
    forall k | 0 <= k < |stack| ensures Framed(before, level, root, Walk(fs, stack, w.done), k) {
      UnlinkFrame(before, level, root, w, n, k);
    }
    LinksKept(before, level, root, w, fs, stack);
  }

  lemma UnlinkKeeps(before: Files, level: Inode -> nat, root: Inode, w: Walk, n: string)
    requires Inv(before, level, root, w)
    requires var f := w.stack[|w.stack| - 1]; f.next < |f.entries| && n == f.entries[f.next]
    requires HasLink(w.fs, w.stack[|w.stack| - 1].inode, n) &&
             !IsDir(w.fs, Target(w.fs, w.stack[|w.stack| - 1].inode, n))
    ensures Inv(before, level, root, Walk(Without(w.fs, w.stack[|w.stack| - 1].inode, n), Advance(w.stack), w.done))
  {
    var top := |w.stack| - 1;
    var f := w.stack[top];
    var v := Walk(Without(w.fs, f.inode, n), Advance(w.stack), w.done);
    UnlinkFrames(before, level, root, w, n);
    WithoutShrinks(before, w.fs, f.inode, n);
    NotDone(before, level, root, w, top);
    hide WellFormed, DirsUnder, Frames, OnlyShrunk;
    KeysKept(before, v.fs);
    assert Inodes(v.stack) == Inodes(w.stack) && f.inode in Inodes(w.stack) by {
      assert forall k :: 0 <= k < |v.stack| ==> v.stack[k].inode == w.stack[k].inode;
      assert w.stack[top].inode == f.inode;
    }
    assert RestSame(before, v);
    assert Gone(before, v);
  }

  lemma KeysKept(before: Files, fs: Files)
    requires OnlyShrunk(before, fs)
    ensures fs.Keys == before.Keys
  {
  }

  lemma NotDone(before: Files, level: Inode -> nat, root: Inode, w: Walk, k: nat)
    requires Frames(before, level, root, w) && k < |w.stack|
    ensures w.stack[k].inode !in w.done && w.stack[k].inode in DirsUnder(before, root)
    ensures IsDir(before, w.stack[k].inode) && IsDir(w.fs, w.stack[k].inode)
    ensures level(w.stack[k].inode) == level(root) + k
  {
    assert Framed(before, level, root, w, k);
  }

  /** Links between frames do not depend on what happens in the top directory. */
  lemma LinksKept(before: Files, level: Inode -> nat, root: Inode, w: Walk, fs: Files, stack: seq<Frame>)
    requires Frames(before, level, root, w)
    requires fs.Keys == w.fs.Keys && forall i :: i in fs && i != w.stack[|w.stack| - 1].inode ==> fs[i] == w.fs[i]
    requires |stack| == |w.stack| && stack[..|stack| - 1] == w.stack[..|stack| - 1]
    requires stack[|stack| - 1] == w.stack[|stack| - 1].(next := stack[|stack| - 1].next)
    ensures forall j, k :: 0 <= j < k < |stack| && k == j + 1 ==> Linked(fs, stack[j], stack[k])
  {
    forall j, k | 0 <= j < k < |stack| && k == j + 1 ensures Linked(fs, stack[j], stack[k]) {
      assert Linked(w.fs, w.stack[j], w.stack[k]);
      StackDistinct(before, level, root, w, j, |w.stack| - 1);
      assert stack[j] == stack[..|stack| - 1][j] == w.stack[j];
      assert k < |stack| - 1 ==> stack[k] == stack[..|stack| - 1][k] == w.stack[k];
    }
  }

  // ---------- a turn that enters a directory ----------

  /** A directory about to be entered is untouched so far. */
  lemma EnterFresh(before: Files, level: Inode -> nat, root: Inode, w: Walk, n: string)
    requires Inv(before, level, root, w)
    requires var f := w.stack[|w.stack| - 1]; f.next < |f.entries| && n == f.entries[f.next]
    requires HasLink(w.fs, w.stack[|w.stack| - 1].inode, n) &&
             IsDir(w.fs, Target(w.fs, w.stack[|w.stack| - 1].inode, n))
    ensures
      var f := w.stack[|w.stack| - 1];
      var c := Target(w.fs, f.inode, n);
      && IsDir(before, c) && w.fs[c] == before[c] && before[c].parent == f.inode
      && level(c) == level(root) + |w.stack|
      && c !in w.done && c !in Inodes(w.stack)
      && c in DirsUnder(before, root)
  {
    var top := |w.stack| - 1;
    var f := w.stack[top];
    var c := Target(w.fs, f.inode, n);
    NextLink(before, level, root, w);
    SameDir(before, w.fs, c);
    assert Framed(before, level, root, w, top);
    assert DirLink(before, f.inode, c);
    UnderStep(before, root, f.inode, c);
    forall k | 0 <= k < |w.stack| ensures w.stack[k].inode != c {
      assert Framed(before, level, root, w, k);
    }
  }

  lemma EnterFrame(before: Files, level: Inode -> nat, root: Inode, w: Walk, k: nat, stack: seq<Frame>)
    requires Frames(before, level, root, w) && k < |w.stack|
    requires |stack| == |w.stack| + 1 && stack[..|w.stack|] == Advance(w.stack)
    requires var f := w.stack[|w.stack| - 1]; f.next < |f.entries|
    ensures Framed(before, level, root, w.(stack := stack), k)
  {
    assert Framed(before, level, root, w, k);
    assert stack[k] == stack[..|w.stack|][k] == Advance(w.stack)[k];
  }

  lemma EnterTop(before: Files, level: Inode -> nat, root: Inode, v: Walk)
    requires |v.stack| > 0
    requires
      var f := v.stack[|v.stack| - 1];
      && f.next == 0 && IsDir(before, f.inode) && IsDir(v.fs, f.inode) && v.fs[f.inode] == before[f.inode]
      && NoDuplicates(f.entries) && NameSet(f.entries) == before[f.inode].entries.Keys
      && level(f.inode) == level(root) + |v.stack| - 1
      && f.inode in DirsUnder(before, root) && f.inode !in v.done
    ensures Framed(before, level, root, v, |v.stack| - 1)
  {
    var f := v.stack[|v.stack| - 1];
    assert f.entries[0..] == f.entries;
  }

  lemma EnterKeeps(before: Files, level: Inode -> nat, root: Inode, w: Walk, n: string, names: seq<string>)
    requires Inv(before, level, root, w)
    requires var f := w.stack[|w.stack| - 1]; f.next < |f.entries| && n == f.entries[f.next]
    requires HasLink(w.fs, w.stack[|w.stack| - 1].inode, n) &&
             IsDir(w.fs, Target(w.fs, w.stack[|w.stack| - 1].inode, n))
    requires NoDuplicates(names) && NameSet(names) == w.fs[Target(w.fs, w.stack[|w.stack| - 1].inode, n)].entries.Keys
    ensures
      var c := Target(w.fs, w.stack[|w.stack| - 1].inode, n);
      var stack := Advance(w.stack) + [Frame(n, c, names, 0)];
      && Inv(before, level, root, w.(stack := stack))
      && Inodes(stack) == Inodes(w.stack) + {c}
  {
    var top := |w.stack| - 1;
    var f := w.stack[top];
    var c := Target(w.fs, f.inode, n);
    var stack := Advance(w.stack) + [Frame(n, c, names, 0)];
    var v := w.(stack := stack);
    EnterFresh(before, level, root, w, n);
    hide WellFormed, DirsUnder, OnlyShrunk, RestSame, Gone, Frames;
    EnterFrames(before, level, root, w, n, c, names);
    assert Inodes(stack) == Inodes(w.stack) + {c} by {
      assert forall k :: 0 <= k <= top ==> stack[k].inode == w.stack[k].inode;
      assert stack[top + 1].inode == c;
    }
    KeysKept(before, w.fs);
    SameRest(before, w, stack);
  }

  lemma EnterFrames(before: Files, level: Inode -> nat, root: Inode, w: Walk, n: string, c: Inode, names: seq<string>)
    requires Frames(before, level, root, w)
    requires var f := w.stack[|w.stack| - 1]; f.next < |f.entries| && n == f.entries[f.next]
    requires var f := w.stack[|w.stack| - 1]; HasLink(w.fs, f.inode, n) && Target(w.fs, f.inode, n) == c
    requires IsDir(before, c) && IsDir(w.fs, c) && w.fs[c] == before[c]
    requires level(c) == level(root) + |w.stack| && c in DirsUnder(before, root) && c !in w.done
    requires NoDuplicates(names) && NameSet(names) == before[c].entries.Keys
    ensures Frames(before, level, root, w.(stack := Advance(w.stack) + [Frame(n, c, names, 0)]))
  {
    var top := |w.stack| - 1;
    var advanced := Advance(w.stack);
    var stack := advanced + [Frame(n, c, names, 0)];
    var v := w.(stack := stack);
    hide Framed, DirsUnder;
    forall k | 0 <= k < |stack| ensures Framed(before, level, root, v, k) {
      if k <= top {
        EnterFrame(before, level, root, w, k, stack);
      } else {
        EnterTop(before, level, root, v);
      }
    }
    LinksKept(before, level, root, w, w.fs, advanced);
    forall j, k | 0 <= j < k < |stack| && k == j + 1 ensures Linked(w.fs, stack[j], stack[k]) {
      if k <= top { assert Linked(w.fs, advanced[j], advanced[k]); }
    }
  }

  lemma SameRest(before: Files, w: Walk, stack: seq<Frame>)
    requires w.fs.Keys == before.Keys && RestSame(before, w) && Gone(before, w)
    requires Inodes(w.stack) <= Inodes(stack)
    ensures RestSame(before, w.(stack := stack)) && Gone(before, w.(stack := stack))
  {
  }

  // ---------- a turn that removes an emptied directory ----------

  /** When every entry of a listed directory is gone, so is its whole subtree. */
  lemma AllDone(before: Files, fs: Files, f: Frame, done: set<Inode>)
    requires FrameOk(before, fs, f, |f.entries|) && SubtreesDone(before, f, |f.entries|, done)
    ensures DirsUnder(before, f.inode) <= done + {f.inode} && fs[f.inode].entries == map[]
  {
    forall x | x in DirsUnder(before, f.inode) && x != f.inode ensures x in done {
      UnderCases(before, f.inode, x);
      var b :| DirLink(before, f.inode, b) && x in DirsUnder(before, b);
      var n :| HasLink(before, f.inode, n) && Target(before, f.inode, n) == b;
      assert n in NameSet(f.entries);
      var j :| 0 <= j < |f.entries| && f.entries[j] == n;
      assert SubtreeDone(before, f.inode, f.entries[j], done);
    }
    assert fs[f.inode].entries.Keys == {};
  }

  /** What `..` and the link checks of the removal turn find. */
  lemma LeaveFound(before: Files, level: Inode -> nat, root: Inode, w: Walk)
    requires Inv(before, level, root, w) && |w.stack| >= 2
    requires var f := w.stack[|w.stack| - 1]; f.next == |f.entries|
    ensures
      var f, p := w.stack[|w.stack| - 1], w.stack[|w.stack| - 2];
      && IsDir(w.fs, f.inode) && w.fs[f.inode].entries == map[] && w.fs[f.inode].parent == p.inode
      && HasLink(w.fs, p.inode, f.name) && Target(w.fs, p.inode, f.name) == f.inode
      && HasLink(before, p.inode, f.name) && Target(before, p.inode, f.name) == f.inode
      && DirsUnder(before, f.inode) <= w.done + {f.inode}
  {
    var top := |w.stack| - 1;
    var f, p := w.stack[top], w.stack[top - 1];
    assert Linked(w.fs, w.stack[top - 1], w.stack[top]);
    assert Framed(before, level, root, w, top);
    AllDone(before, w.fs, f, w.done);
    ShrunkLink(before, w.fs, p.inode, f.name);
    assert Shrunk(before[f.inode], w.fs[f.inode]);
  }

  lemma LeaveKeeps(before: Files, level: Inode -> nat, root: Inode, w: Walk)
    requires Inv(before, level, root, w) && |w.stack| >= 2
    requires var f := w.stack[|w.stack| - 1]; f.next == |f.entries|
    requires IsDir(w.fs, w.stack[|w.stack| - 2].inode)
    ensures
      var f, p := w.stack[|w.stack| - 1], w.stack[|w.stack| - 2];
      var stack := w.stack[..|w.stack| - 1];
      && Inv(before, level, root, Walk(Without(w.fs, p.inode, f.name), stack, w.done + {f.inode}))
      && Inodes(w.stack) == Inodes(stack) + {f.inode}
  {
    var top := |w.stack| - 1;
    var f, p := w.stack[top], w.stack[top - 1];
    var stack := w.stack[..top];
    var v := Walk(Without(w.fs, p.inode, f.name), stack, w.done + {f.inode});
    LeaveFound(before, level, root, w);
    WithoutShrinks(before, w.fs, p.inode, f.name);
    LeaveFrames(before, level, root, w);
    NotDone(before, level, root, w, top);
    LeaveGone(before, level, root, w);
    hide WellFormed, DirsUnder, Frames, OnlyShrunk, Gone;
    KeysKept(before, v.fs);
    assert Inodes(w.stack) == Inodes(stack) + {f.inode} by {
      assert forall k :: 0 <= k < top ==> stack[k] == w.stack[k];
      assert w.stack[top] == f;
    }
    assert p.inode in Inodes(stack) by { assert stack[top - 1].inode == p.inode; }
    assert RestSame(before, v);
  }

  lemma LeaveFrame(before: Files, level: Inode -> nat, root: Inode, w: Walk, k: nat)
    requires Inv(before, level, root, w) && |w.stack| >= 2
    requires var f := w.stack[|w.stack| - 1]; f.next == |f.entries|
    requires IsDir(w.fs, w.stack[|w.stack| - 2].inode)
    requires k < |w.stack| - 1
    ensures
      var f, p := w.stack[|w.stack| - 1], w.stack[|w.stack| - 2];
      Framed(before, level, root, Walk(Without(w.fs, p.inode, f.name), w.stack[..|w.stack| - 1], w.done + {f.inode}), k)
  {
    var top := |w.stack| - 1;
    var f, p := w.stack[top], w.stack[top - 1];
    var done := w.done + {f.inode};
    LeaveFound(before, level, root, w);
    hide WellFormed, DirsUnder, RestSame, Gone, FrameOk, OnlyShrunk;
    assert Framed(before, level, root, w, k);
    StackDistinct(before, level, root, w, k, top);
    var removed := Removed(w.stack, k);
    FrameListing(before, w.fs, w.stack[k], removed);
    if k == top - 1 {
      assert Linked(w.fs, w.stack[k], w.stack[top]);
      FrameDrop(before, w.fs, p, removed, p.next);
      SubtreesMore(before, p, removed, p.next, w.done, done);
    } else {
      StackDistinct(before, level, root, w, k, top - 1);
      MoreDone(before, w.stack[k], removed, w.done, done);
      FrameElsewhere(before, w.fs, w.stack[k], removed, p.inode, f.name);
    }
  }

  lemma LeaveFrames(before: Files, level: Inode -> nat, root: Inode, w: Walk)
    requires Inv(before, level, root, w) && |w.stack| >= 2
    requires var f := w.stack[|w.stack| - 1]; f.next == |f.entries|
    requires IsDir(w.fs, w.stack[|w.stack| - 2].inode)
    ensures
      var f, p := w.stack[|w.stack| - 1], w.stack[|w.stack| - 2];
      Frames(before, level, root, Walk(Without(w.fs, p.inode, f.name), w.stack[..|w.stack| - 1], w.done + {f.inode}))
  {
    var top := |w.stack| - 1;
    var f, p := w.stack[top], w.stack[top - 1];
    var stack := w.stack[..top];
    var fs := Without(w.fs, p.inode, f.name);
    var v := Walk(fs, stack, w.done + {f.inode});
    LeaveFound(before, level, root, w);
    hide WellFormed, DirsUnder, RestSame, Gone, Framed, OnlyShrunk;
    forall k | 0 <= k < top ensures Framed(before, level, root, v, k) {
      LeaveFrame(before, level, root, w, k);
    }
    LeaveLinks(before, level, root, w, p.inode, f.name);
  }

  lemma LeaveLinks(before: Files, level: Inode -> nat, root: Inode, w: Walk, d: Inode, n: string)
    requires Frames(before, level, root, w) && |w.stack| >= 2
    requires d == w.stack[|w.stack| - 2].inode && IsDir(w.fs, d)
    ensures forall j, k :: 0 <= j < k < |w.stack| - 1 && k == j + 1 ==>
            Linked(Without(w.fs, d, n), w.stack[j], w.stack[k])
  {
    forall j, k | 0 <= j < k < |w.stack| - 1 && k == j + 1 ensures Linked(Without(w.fs, d, n), w.stack[j], w.stack[k]) {
      assert Linked(w.fs, w.stack[j], w.stack[k]);
      StackDistinct(before, level, root, w, j, |w.stack| - 2);
    }
  }

  lemma MoreDone(before: Files, f: Frame, removed: int, few: set<Inode>, many: set<Inode>)
    requires removed <= |f.entries| && IsDir(before, f.inode) && NameSet(f.entries) == before[f.inode].entries.Keys
    requires SubtreesDone(before, f, removed, few) && few <= many
    ensures SubtreesDone(before, f, removed, many)
  {
    forall j | 0 <= j < removed ensures SubtreeDone(before, f.inode, f.entries[j], many) {
      assert SubtreeDone(before, f.inode, f.entries[j], few);
    }
  }

  lemma LeaveGone(before: Files, level: Inode -> nat, root: Inode, w: Walk)
    requires Inv(before, level, root, w) && |w.stack| >= 2
    requires var f := w.stack[|w.stack| - 1]; f.next == |f.entries|
    requires IsDir(w.fs, w.stack[|w.stack| - 2].inode)
    ensures
      var f, p := w.stack[|w.stack| - 1], w.stack[|w.stack| - 2];
      var fs := Without(w.fs, p.inode, f.name);
      fs.Keys == before.Keys && Gone(before, Walk(fs, w.stack[..|w.stack| - 1], w.done + {f.inode}))
  {
    var top := |w.stack| - 1;
    var f, p := w.stack[top], w.stack[top - 1];
    var fs := Without(w.fs, p.inode, f.name);
    var done := w.done + {f.inode};
    LeaveFound(before, level, root, w);
    StackDistinct(before, level, root, w, top, top - 1);
    NotDone(before, level, root, w, top);
    NotDone(before, level, root, w, top - 1);
    hide Frames, RestSame, DirsUnder, OnlyShrunk;
    KeysKept(before, w.fs);
    forall x | x in done ensures IsDir(before, x) && IsDir(fs, x) && fs[x].entries == map[] {
    }
    forall d, n | HasLink(before, d, n) && Target(before, d, n) in done ensures !HasLink(fs, d, n) {
      if Target(before, d, n) == f.inode {
        assert OnlyLink(before, p.inode, f.name);
        assert d == p.inode && n == f.name;
      } else {
        assert !HasLink(w.fs, d, n);
      }
    }
  }

  // ---------- start and end ----------

  lemma StartHolds(before: Files, level: Inode -> nat, root: Inode, names: seq<string>)
    requires WellFormed(before, level) && IsDir(before, root)
    requires NoDuplicates(names) && NameSet(names) == before[root].entries.Keys
    ensures Inv(before, level, root, Walk(before, [Frame("", root, names, 0)], {}))
    ensures Inodes([Frame("", root, names, 0)]) == {root}
  {
    var w := Walk(before, [Frame("", root, names, 0)], {});
    UnderSelf(before, root);
    assert names[0..] == names;
    assert Framed(before, level, root, w, 0);
    assert w.stack[0].inode == root;
    assert Inodes(w.stack) == {root};
  }

  /** When the root frame is exhausted the walk has done what recursive deletion does. */
  lemma EndIsCleared(before: Files, level: Inode -> nat, root: Inode, w: Walk)
    requires Inv(before, level, root, w) && |w.stack| == 1
    requires w.stack[0].next == |w.stack[0].entries|
    ensures w.fs == Cleared(before, root) && DirsUnder(before, root) == w.done + {root}
  {
    var f := w.stack[0];
    assert Framed(before, level, root, w, 0);
    AllDone(before, w.fs, f, w.done);
    var dirs := DirsUnder(before, root);
    assert dirs == w.done + {root};
    assert Inodes(w.stack) == {root};
    forall i | i in before ensures w.fs[i] == Cleared(before, root)[i] {
      assert Shrunk(before[i], w.fs[i]);
    }
  }

  /** At every point the changes are confined to the subtree. */
  lemma Confined(before: Files, level: Inode -> nat, root: Inode, w: Walk)
    requires Inv(before, level, root, w)
    ensures PartlyCleared(before, w.fs, root)
  {
    forall i | i in before && i !in DirsUnder(before, root) ensures w.fs[i] == before[i] {
      forall k | 0 <= k < |w.stack| ensures w.stack[k].inode != i {
        assert Framed(before, level, root, w, k);
      }
    }
  }
}
