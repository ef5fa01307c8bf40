/** A file system as a map from inodes to nodes, and what it means to clear the
    directory tree below one directory. */
module FileTree {

  /** An inode stands for a (device, inode) pair. */
  type Inode = nat

  /** `Other` is anything that is not a directory; symbolic links among them are never
      followed, so their targets play no part. */
  datatype Node = Dir(entries: map<string, Inode>, parent: Inode) | Other

  type Files = map<Inode, Node>

  predicate IsDir(fs: Files, d: Inode) {
    d in fs && fs[d].Dir?
  }

  predicate HasLink(fs: Files, d: Inode, n: string) {
    IsDir(fs, d) && n in fs[d].entries
  }

  function Target(fs: Files, d: Inode, n: string): Inode
    requires HasLink(fs, d, n)
  {
    fs[d].entries[n]
  }

  /** Links lead to nodes; a directory has one link, from its parent, one level up. */
  ghost predicate WellFormed(fs: Files, level: Inode -> nat) {
    forall d, n :: HasLink(fs, d, n) ==>
      var c := Target(fs, d, n);
      && c in fs
      && (IsDir(fs, c) ==> fs[c].parent == d && level(c) == level(d) + 1 && OnlyLink(fs, d, n))
  }

  ghost predicate OnlyLink(fs: Files, d: Inode, n: string)
    requires HasLink(fs, d, n)
  {
    forall d', n' :: HasLink(fs, d', n') && Target(fs, d', n') == Target(fs, d, n) ==> d' == d && n' == n
  }

  // ---------- directories below a directory ----------

  ghost predicate DirLink(fs: Files, a: Inode, b: Inode) {
    IsDir(fs, b) && exists n :: HasLink(fs, a, n) && Target(fs, a, n) == b
  }

  ghost predicate Chain(fs: Files, p: seq<Inode>) {
    forall i, j :: 0 <= i < j < |p| && j == i + 1 ==> DirLink(fs, p[i], p[j])
  }

  ghost predicate Under(fs: Files, a: Inode, b: Inode) {
    exists p :: |p| > 0 && p[0] == a && p[|p| - 1] == b && Chain(fs, p)
  }

  /** The directory and all directories below it. */
  ghost function DirsUnder(fs: Files, a: Inode): set<Inode> {
    set b | b in fs && IsDir(fs, b) && Under(fs, a, b)
  }

  lemma UnderSelf(fs: Files, a: Inode)
    requires IsDir(fs, a)
    ensures a in DirsUnder(fs, a)
  {
    var p := [a];
    assert Chain(fs, p) && p[0] == a && p[|p| - 1] == a;
  }

  lemma UnderStep(fs: Files, a: Inode, b: Inode, c: Inode)
    requires b in DirsUnder(fs, a) && DirLink(fs, b, c)
    ensures c in DirsUnder(fs, a)
  {
    var p :| |p| > 0 && p[0] == a && p[|p| - 1] == b && Chain(fs, p);
    var q := p + [c];
    assert Chain(fs, q) && q[0] == a && q[|q| - 1] == c;
  }

  lemma UnderCases(fs: Files, a: Inode, x: Inode)
    requires x in DirsUnder(fs, a) && x != a
    ensures exists b :: DirLink(fs, a, b) && x in DirsUnder(fs, b)
  {
    var p :| |p| > 0 && p[0] == a && p[|p| - 1] == x && Chain(fs, p);
    var q := p[1..];
    assert DirLink(fs, p[0], p[1]);
    assert Chain(fs, q) by {
      forall i, j | 0 <= i < j < |q| && j == i + 1 ensures DirLink(fs, q[i], q[j]) {
        assert q[i] == p[i + 1] && q[j] == p[j + 1];
      }
    }
    assert q[0] == p[1] && q[|q| - 1] == x;
  }

  /** Recursive deletion of what is below `root`: every directory of the subtree loses
      all its links and nothing else changes. Inodes without links stay in the map. */
  ghost function Cleared(fs: Files, root: Inode): Files {
    map i | i in fs :: if i in DirsUnder(fs, root) then Dir(map[], fs[i].parent) else fs[i]
  }

  /** Part of that deletion: links went away, and only in the subtree. */
  ghost predicate PartlyCleared(before: Files, after: Files, root: Inode) {
    && after.Keys == before.Keys
    && forall i :: i in before ==>
         if i in DirsUnder(before, root) then Shrunk(before[i], after[i]) else after[i] == before[i]
  }

  ghost predicate Shrunk(before: Node, after: Node) {
    if before.Dir? then
      && after.Dir? && after.parent == before.parent
      && forall n :: n in after.entries ==> n in before.entries && after.entries[n] == before.entries[n]
    else after == before
  }

  /** `fs` without one link. */
  function Without(fs: Files, d: Inode, n: string): Files
    requires IsDir(fs, d)
  {
    fs[d := Dir(fs[d].entries - {n}, fs[d].parent)]
  }

  // ---------- counting links ----------

  ghost function LinksIn(fs: Files, dirs: set<Inode>): set<(Inode, string)> {
    set d, n | d in dirs && d in fs && fs[d].Dir? && n in fs[d].entries :: (d, n)
  }

  lemma {:induction false} TagSize(d: Inode, names: set<string>)
    ensures |set n | n in names :: (d, n)| == |names|
  {
    var pairs := set n | n in names :: (d, n);
    if names == {} {
      assert pairs == {};
    } else {
      var n :| n in names;
      TagSize(d, names - {n});
      assert pairs == (set m | m in names - {n} :: (d, m)) + {(d, n)};
    }
  }

  /** A further directory adds exactly its own links. */
  lemma LinksGrow(fs: Files, dirs: set<Inode>, c: Inode)
    requires IsDir(fs, c) && c !in dirs
    ensures |LinksIn(fs, dirs + {c})| == |LinksIn(fs, dirs)| + |fs[c].entries|
  {
    var own := set n | n in fs[c].entries.Keys :: (c, n);
    TagSize(c, fs[c].entries.Keys);
    assert LinksIn(fs, dirs + {c}) == LinksIn(fs, dirs) + own;
    assert LinksIn(fs, dirs) !! own;
    assert |fs[c].entries| == |fs[c].entries.Keys|;
  }

  lemma LinksMonotone(fs: Files, few: set<Inode>, many: set<Inode>)
    requires few <= many
    ensures |LinksIn(fs, few)| <= |LinksIn(fs, many)|
  {
    assert LinksIn(fs, few) <= LinksIn(fs, many);
    Subset(LinksIn(fs, few), LinksIn(fs, many));
  }

  lemma Subset<T>(a: set<T>, b: set<T>)
    requires a <= b
    ensures |a| <= |b|
  {
    assert b == a + (b - a);
  }
}
