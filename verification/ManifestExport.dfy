/** What the source manifest of an exported tree looks like, and exactly when it is one
    that the manifest parser can accept. */
module ManifestExport {
  import opened GitTree
  import opened Wrappers
  import opened GitClosure
  import Manifest
  import ManifestParser
  import Text
  import Lex

  function EntryOfFile(f: File, sha: string -> string): Manifest.Entry {
    Manifest.Entry(f.path, ModeText(f.mode), |f.payload|, sha(f.payload))
  }

  /** The entries that `verify_exported_source` computes from an export. */
  function EntriesOf(files: seq<File>, sha: string -> string): seq<Manifest.Entry> {
    seq(|files|, i requires 0 <= i < |files| => EntryOfFile(files[i], sha))
  }

  lemma {:induction false} LeadsThroughNames(disk: Disk, id: ObjectId, names: seq<string>, leaf: Entry)
    requires Leads(disk, id, names, leaf)
    ensures (forall n :: n in names ==> ValidName(n)) && !leaf.mode.Directory?
    decreases |names|
  {
    hide Ordered, Distinct;
    var e :| e in Entries(disk, id) && LeadsFrom(disk, e, names, leaf);
    assert ValidName(e.name);
    if |names| > 1 {
      LeadsThroughNames(disk, e.id, names[1..], leaf);
      assert names == [names[0]] + names[1..];
    }
  }

  lemma {:induction false} JoinAllIsJoin(names: seq<string>)
    requires names != []
    ensures JoinAll(names) == Text.Join(names, '/')
  {
    if |names| > 1 { JoinAllIsJoin(names[1..]); }
  }

  lemma {:induction false} JoinChars(names: seq<string>)
    requires names != [] && forall n :: n in names ==> ValidName(n)
    ensures forall k :: 0 <= k < |JoinAll(names)| ==> Manifest.PathChar(JoinAll(names)[k])
    ensures JoinAll(names) != ""
  {
    assert ValidName(names[0]);
    if |names| > 1 { JoinChars(names[1..]); }
  }

  /** The shape of every exported path. */
  lemma ExportedPath(disk: Disk, root: ObjectId, levels: nat, f: File)
    requires Unfold(disk, root, "", levels).Some? && f in Unfold(disk, root, "", levels).value.files
    ensures f.path != "" && !f.mode.Directory?
    ensures forall k :: 0 <= k < |f.path| ==> Manifest.PathChar(f.path[k])
    ensures forall part :: part in Text.Split(f.path, '/') ==>
            part != "" && part != "." && part != ".." && part != ".git"
  {
    hide Unfold;
    UnfoldMembers(disk, root, "", levels, f);
    var names, leaf :| names != [] && Leads(disk, root, names, leaf) && IsLeafFile(disk, "", f, names, leaf);
    hide Leads, Manifest.PathChar;
    LeadsThroughNames(disk, root, names, leaf);
    assert f.path == JoinAll(names);
    JoinChars(names);
    JoinAllIsJoin(names);
    forall n | n in names ensures Text.Clean(n, '/') { NoSlash(n); }
    Text.SplitJoin(names, '/');
  }

  // ---------- path length ----------

  lemma {:induction false} UnfoldShort(disk: Disk, id: ObjectId, prefix: string, levels: nat)
    requires Unfold(disk, id, prefix, levels).Some?
    ensures forall f :: f in Unfold(disk, id, prefix, levels).value.files ==> |f.path| <= MAX_PATH
    decreases levels, 0
  {
    UnfoldAllShort(disk, Entries(disk, id), prefix, levels - 1);
  }

  lemma {:induction false} UnfoldAllShort(disk: Disk, es: seq<Entry>, prefix: string, levels: nat)
    requires UnfoldAll(disk, es, prefix, levels).Some?
    ensures forall f :: f in UnfoldAll(disk, es, prefix, levels).value.files ==> |f.path| <= MAX_PATH
    decreases levels, |es| + 1
  {
    if es != [] {
      if es[0].mode.Directory? { UnfoldShort(disk, es[0].id, Join(prefix, es[0].name), levels); }
      UnfoldAllShort(disk, es[1..], prefix, levels);
    }
  }

  // ---------- the manifest of an export ----------

  lemma {:induction false} SizeBelowTotal(es: seq<Manifest.Entry>, i: nat)
    requires i < |es|
    ensures es[i].size <= Manifest.TotalSize(es)
    decreases |es|
  {
    if i < |es| - 1 {
      SizeBelowTotal(es[..|es| - 1], i);
      assert es[..|es| - 1][i] == es[i];
    }
  }

  /** Exported entries print cleanly. */
  lemma ExportIsClean(disk: Disk, root: ObjectId, levels: nat, sha: string -> string)
    requires Unfold(disk, root, "", levels).Some?
    requires forall s :: Manifest.IsHexText(sha(s), 64)
    ensures forall e :: e in EntriesOf(Unfold(disk, root, "", levels).value.files, sha) ==> Manifest.CleanEntry(e)
  {
    hide Unfold;
    var files := Unfold(disk, root, "", levels).value.files;
    forall i | 0 <= i < |files| ensures Manifest.CleanEntry(EntryOfFile(files[i], sha)) {
      ExportedPath(disk, root, levels, files[i]);
      var f := files[i];
      forall k | 0 <= k < |f.path| ensures f.path[k] != '\t' && f.path[k] != '\n' && f.path[k] != '\r' &&
          f.path[k] < 128 as char {
        assert Manifest.PathChar(f.path[k]);
      }
      assert Manifest.IsHexText(sha(f.payload), 64);
    }
  }

  /** A file of an export makes a valid manifest entry exactly when its path starts with
      a letter or digit and its size is within the limit. */
  lemma EntryValidity(disk: Disk, root: ObjectId, levels: nat, f: File, sha: string -> string,
                      profile: Manifest.Profile)
    requires Unfold(disk, root, "", levels).Some? && f in Unfold(disk, root, "", levels).value.files
    requires forall s :: Manifest.IsHexText(sha(s), 64)
    ensures f.path != ""
    ensures Manifest.ValidEntry(EntryOfFile(f, sha), profile) <==>
            Manifest.Alphanumeric(f.path[0]) && |f.payload| <= profile.sourceByteLimit
  {
    hide Unfold, Manifest.PathChar;
    ExportedPath(disk, root, levels, f);
    UnfoldShort(disk, root, "", levels);
    assert Manifest.IsHexText(sha(f.payload), 64);
    assert f.mode.Regular? || f.mode.Executable?;
  }

  /** Every path starts with a letter or digit, and the files are neither too many nor
      too large together. */
  ghost predicate Listable(files: seq<File>, profile: Manifest.Profile, sha: string -> string) {
    && 1 <= |files| <= profile.sourceFileLimit
    && (forall f :: f in files ==> f.path != "" && Manifest.Alphanumeric(f.path[0]))
    && Manifest.TotalSize(EntriesOf(files, sha)) <= profile.sourceByteLimit
  }

  /** The entries of an export are ones a manifest may carry exactly when the files are
      listable. */
  lemma ExportValidity(disk: Disk, root: ObjectId, levels: nat, sha: string -> string, profile: Manifest.Profile)
    requires Unfold(disk, root, "", levels).Some?
    requires forall s :: Manifest.IsHexText(sha(s), 64)
    ensures
      var files := Unfold(disk, root, "", levels).value.files;
      Manifest.ValidEntries(EntriesOf(files, sha), profile) <==> Listable(files, profile, sha)
  {
    hide Unfold, Manifest.ValidEntry, Manifest.TotalSize, Lex.Less, Manifest.Alphanumeric;
    var files := Unfold(disk, root, "", levels).value.files;
    var es := EntriesOf(files, sha);
    UnfoldIncreasing(disk, root, "", levels);
    assert Manifest.Sorted(es) by {
      forall i, j | 0 <= i < j < |es| && j == i + 1 ensures Lex.Less(es[i].path, es[j].path) {
        assert Lex.Less(files[i].path, files[j].path);
      }
    }
    forall f | f in files
      ensures f.path != ""
      ensures Manifest.ValidEntry(EntryOfFile(f, sha), profile) <==>
              Manifest.Alphanumeric(f.path[0]) && |f.payload| <= profile.sourceByteLimit
    {
      EntryValidity(disk, root, levels, f, sha, profile);
    }
    forall i | 0 <= i < |es| ensures es[i].size <= Manifest.TotalSize(es) { SizeBelowTotal(es, i); }
    assert forall e :: e in es ==> exists i :: 0 <= i < |files| && e == EntryOfFile(files[i], sha);
    assert forall f :: f in files ==> EntryOfFile(f, sha) in es by {
      forall f | f in files ensures EntryOfFile(f, sha) in es {
        var i :| 0 <= i < |files| && files[i] == f;
        assert es[i] == EntryOfFile(f, sha);
      }
    }
  }

  // ---------- acceptance by the parser ----------

  const MAX_PROFILE_FILES := 16384
  const MAX_PROFILE_BYTES := 512 * 1024 * 1024

  /** The limits that an export contract may set. */
  predicate ProfileOk(profile: Manifest.Profile) {
    profile.sourceFileLimit <= MAX_PROFILE_FILES && profile.sourceByteLimit <= MAX_PROFILE_BYTES
  }

  lemma NumberWidths(count: nat, bytes: nat)
    requires count <= MAX_PROFILE_FILES && bytes <= MAX_PROFILE_BYTES
    ensures |Text.Decimal(count)| <= 5 && |Text.Decimal(bytes)| <= 9 && |Manifest.Index4(count)| <= 5
  {
    assert Text.Power10(5) == 100000 by { assert Text.Power10(3) == 1000; }
    assert Text.Power10(9) == 1000000000 by { assert Text.Power10(5) == 100000; assert Text.Power10(7) == 10000000; }
    Text.DecimalWidth(count, 5);
    Text.DecimalWidth(bytes, 9);
  }

  lemma FileRowWidth(e: Manifest.Entry, index: nat, profile: Manifest.Profile)
    requires Manifest.ValidEntry(e, profile) && ProfileOk(profile) && index <= MAX_PROFILE_FILES
    ensures |Manifest.LineOf(Manifest.FileRow(e, index))| < 606
  {
    NumberWidths(index, e.size);
    hide Text.Decimal, Manifest.Index4;
    var row := Manifest.FileRow(e, index);
    Text.JoinLength(row, '\t');
    assert |e.path| <= 512 && |e.mode| == 6 && |e.digest| == 64;
    Lengths6(row);
  }

  lemma Lengths6(row: seq<string>)
    requires |row| == 6
    ensures Text.Lengths(row) == |row[0]| + |row[1]| + |row[2]| + |row[3]| + |row[4]| + |row[5]| + 6
  {
    Lengths2(row[4..]);
    assert row[1..][1..][1..][1..] == row[4..];
    assert row[1..][1..][1..] == row[3..] && row[1..][1..] == row[2..];
    assert Text.Lengths(row[3..]) == |row[3]| + 1 + Text.Lengths(row[4..]);
    assert Text.Lengths(row[2..]) == |row[2]| + 1 + Text.Lengths(row[3..]);
  }

  lemma Lengths2(row: seq<string>)
    requires |row| == 2
    ensures Text.Lengths(row) == |row[0]| + |row[1]| + 2
  {
    var last := row[1..];
    assert last[1..] == [];
    assert Text.Lengths(last) == |row[1]| + 1;
  }

  lemma ScalarWidth(key: Manifest.Key, value: string)
    requires |value| <= 64
    ensures |Manifest.LineOf(Manifest.Scalar(key, value))| < 606
  {
    Text.JoinLength(Manifest.Scalar(key, value), '\t');
    Lengths2(Manifest.Scalar(key, value));
  }

  lemma RowWidth(r: Manifest.Request, es: seq<Manifest.Entry>, sha: string -> string, profile: Manifest.Profile,
                 row: seq<string>)
    requires Manifest.IsHexText(r.commit, 40) && Manifest.IsHexText(r.tree, 40) &&
             Manifest.IsHexText(Manifest.RootDigest(r, es, sha), 64)
    requires Manifest.ValidEntries(es, profile) && ProfileOk(profile) && row in Manifest.AllRows(r, es, sha)
    ensures |Manifest.LineOf(row)| < 606
  {
    hide Manifest.LineOf, Manifest.FileRow, Manifest.ValidEntry, Manifest.Scalar, Manifest.RootDigest, Manifest.Sorted;
    NumberWidths(|es|, Manifest.TotalSize(es));
    if row in Manifest.FileRows(es) {
      var i :| 0 <= i < |es| && row == Manifest.FileRow(es[i], i);
      FileRowWidth(es[i], i, profile);
    } else {
      ScalarWidth(Manifest.Schema, "1");
      ScalarWidth(Manifest.Commit, r.commit);
      ScalarWidth(Manifest.Tree, r.tree);
      ScalarWidth(Manifest.Count, Text.Decimal(|es|));
      ScalarWidth(Manifest.TotalBytes, Text.Decimal(Manifest.TotalSize(es)));
      ScalarWidth(Manifest.Root, Manifest.RootDigest(r, es, sha));
    }
  }

  /** Under the contract's limits every valid list prints far below the parser's limit. */
  lemma CanonicalSize(r: Manifest.Request, es: seq<Manifest.Entry>, sha: string -> string, profile: Manifest.Profile)
    requires Manifest.IsHexText(r.commit, 40) && Manifest.IsHexText(r.tree, 40) &&
             Manifest.IsHexText(Manifest.RootDigest(r, es, sha), 64)
    requires Manifest.ValidEntries(es, profile) && ProfileOk(profile)
    ensures |Manifest.Canonical(r, es, sha)| <= 606 * (MAX_PROFILE_FILES + 6) <= Manifest.MAX_BYTES
  {
    hide Manifest.LineOf, Manifest.FileRow, Manifest.ValidEntry, Manifest.Scalar, Manifest.RootDigest, Manifest.Sorted;
    hide Manifest.Canonical, Manifest.TotalSize;
    var rows := Manifest.AllRows(r, es, sha);
    Manifest.CanonicalRows(r, es, sha);
    Manifest.RowsAreLines(rows);
    var lines := Manifest.LinesOf(rows);
    Text.CatLength(lines);
    forall l | l in lines ensures |l| < 606 {
      var i :| 0 <= i < |rows| && l == Manifest.LineOf(rows[i]);
      RowWidth(r, es, sha, profile, rows[i]);
    }
    Text.LengthsBound(lines, 606);
    assert |lines| == |es| + 6;
  }

  /** The parser accepts the text, under the digests of the text itself. */
  ghost predicate Accepted(raw: string, r: Manifest.Request, root: string, profile: Manifest.Profile,
                           sha: string -> string) {
    exists es :: ManifestParser.Authorized(raw, es, profile, r, sha(raw), root, sha)
  }

  /** The manifest of an export is accepted by the parser, under its own digests, exactly
      when the files are listable. */
  lemma ExportAccepted(disk: Disk, root: ObjectId, levels: nat, sha: string -> string, profile: Manifest.Profile,
                       r: Manifest.Request)
    requires Unfold(disk, root, "", levels).Some? && ProfileOk(profile)
    requires Manifest.IsHexText(r.commit, 40) && Manifest.IsHexText(r.tree, 40)
    requires forall s :: Manifest.IsHexText(sha(s), 64)
    ensures
      var files := Unfold(disk, root, "", levels).value.files;
      var es := EntriesOf(files, sha);
      Accepted(Manifest.Canonical(r, es, sha), r, Manifest.RootDigest(r, es, sha), profile, sha) <==>
          Listable(files, profile, sha)
  {
    hide Unfold, Manifest.ValidEntries, Manifest.Canonical, Manifest.RootDigest, Listable, EntriesOf;
    var files := Unfold(disk, root, "", levels).value.files;
    var es := EntriesOf(files, sha);
    var raw, digest := Manifest.Canonical(r, es, sha), Manifest.RootDigest(r, es, sha);
    ExportValidity(disk, root, levels, sha, profile);
    ManifestParser.RootIsHex(r, es, sha);
    if Manifest.ValidEntries(es, profile) {
      CanonicalSize(r, es, sha, profile);
      assert ManifestParser.Authorized(raw, es, profile, r, sha(raw), digest, sha);
    }
    if Accepted(raw, r, digest, profile, sha) {
      var other :| ManifestParser.Authorized(raw, other, profile, r, sha(raw), digest, sha);
      ExportIsClean(disk, root, levels, sha);
      ValidAreClean(other, profile);
      ManifestParser.RootIsHex(r, other, sha);
      Manifest.CanonicalInjective(r, es, other, sha);
    }
  }

  lemma ValidAreClean(es: seq<Manifest.Entry>, profile: Manifest.Profile)
    requires Manifest.ValidEntries(es, profile)
    ensures forall e :: e in es ==> Manifest.CleanEntry(e)
  {
    hide Manifest.ValidEntry, Manifest.CleanEntry;
    forall e | e in es ensures Manifest.CleanEntry(e) { Manifest.ValidIsClean(e, profile); }
  }

  // ---------- an export that is no manifest ----------

  /** One tree with the file `.x`. */
  function HiddenDisk(blob: ObjectId, tree: ObjectId): Disk {
    map[blob := StoredObject(Blob, "", 1), tree := StoredObject(Tree, Encode([Entry(".x", Regular, blob)]), 1)]
  }

  lemma HiddenUnfolds(blob: ObjectId, tree: ObjectId, levels: nat)
    requires blob != tree && levels >= 1
    ensures Unfold(HiddenDisk(blob, tree), tree, "", levels).Some?
    ensures Unfold(HiddenDisk(blob, tree), tree, "", levels).value.files == [File(".x", Regular, blob, "")]
  {
    var disk, e := HiddenDisk(blob, tree), Entry(".x", Regular, blob);
    assert ValidName(".x");
    assert Canonical([e]);
    DecodeUnique(Encode([e]), [e]);
    hide Encode, Decode, Canonical, ValidName;
    assert IsTree(disk, tree) && Entries(disk, tree) == [e];
    assert UnfoldOne(disk, e, "", levels - 1) == Some(Unfolding([File(".x", Regular, blob, "")], 0, 0));
    assert [e][1..] == [];
    assert UnfoldAll(disk, [e], "", levels - 1) == Some(Unfolding([File(".x", Regular, blob, "")] + [], 0, 0));
  }

  /** It exports, and its manifest is accepted under no contract and no request. */
  lemma HiddenRefused(blob: ObjectId, tree: ObjectId, levels: nat, sha: string -> string, profile: Manifest.Profile,
                      r: Manifest.Request)
    requires blob != tree && levels >= 1 && ProfileOk(profile)
    requires Manifest.IsHexText(r.commit, 40) && Manifest.IsHexText(r.tree, 40)
    requires forall s :: Manifest.IsHexText(sha(s), 64)
    ensures
      var whole := Unfold(HiddenDisk(blob, tree), tree, "", levels);
      whole.Some? &&
      var es := EntriesOf(whole.value.files, sha);
      es == [Manifest.Entry(".x", "100644", 0, sha(""))] &&
      !Accepted(Manifest.Canonical(r, es, sha), r, Manifest.RootDigest(r, es, sha), profile, sha)
  {
    HiddenUnfolds(blob, tree, levels);
    ExportAccepted(HiddenDisk(blob, tree), tree, levels, sha, profile, r);
    hide Unfold, Accepted, HiddenDisk;
    var files := [File(".x", Regular, blob, "")];
    assert files[0] in files;
    assert EntriesOf(files, sha) == [Manifest.Entry(".x", "100644", 0, sha(""))];
  }
}
