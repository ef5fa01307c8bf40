/** The manifest parser and the comparison of an export with its authorization. */
module ManifestParser {
  import opened Text
  import opened Manifest
  import opened Wrappers
  import Lex

  /** `parse_rows`: exactly the well-formed texts are accepted, and split at breaks and
      tabs. */
  method ParseRows(raw: string, maximum: nat) returns (r: Option<seq<seq<string>>>)
    ensures r.Some? <==> RowsText(raw, maximum)
    ensures r.Some? ==> r.value == SplitAll(Lines(raw))
  {
    hide Lines;
    if raw == "" || |raw| > maximum { return None; }
    if '\r' in raw || raw[|raw| - 1] != '\n' { return None; }
    var lines := Lines(raw);
    var rows: seq<seq<string>> := [];
    var number := 0;
    while number < |lines|
      invariant 0 <= number <= |lines|
      invariant rows == SplitAll(lines)[..number]
      invariant forall k :: 0 <= k < number ==> lines[k] != "" && forall i :: 0 <= i < |lines[k]| ==>
                lines[k][i] < 128 as char
    {
      var line := lines[number];
      if line == "" { return None; }
      if exists i :: 0 <= i < |line| && line[i] >= 128 as char { return None; }
      rows := rows + [Split(line, '\t')];
      number := number + 1;
    }
    return Some(rows);
  }

  class Cursor {
    const rows: seq<seq<string>>
    var index: nat

    constructor (rows: seq<seq<string>>)
      ensures this.rows == rows && index == 0
    {
      this.rows, index := rows, 0;
    }

    /** The value of the next row, which must be a scalar with this key. */
    method TakeScalar(key: Key) returns (r: Option<string>)
      modifies this
      ensures r.Some? ==>
        && index == old(index) + 1 <= |rows|
        && r.value != "" && rows[old(index)] == Scalar(key, r.value)
      ensures r.None? ==> old(index) >= |rows| || forall v :: v != "" ==> rows[old(index)] != Scalar(key, v)
    {
      hide KeyText;
      if index >= |rows| { return None; }
      var row := rows[index];
      index := index + 1;
      if |row| != 2 || row[0] != KeyText(key) || row[1] == "" {
        forall v | v != "" ensures row != Scalar(key, v) { assert |Scalar(key, v)| == 2 && Scalar(key, v)[1] == v; }
        return None;
      }
      assert row == [row[0], row[1]];
      return Some(row[1]);
    }
  }

  /** The checks on one file row. It is accepted exactly if it prints a valid entry
      whose path comes after the previous one. */
  function EntryOf(row: seq<string>, index: nat, previous: string, profile: Profile): (r: Option<Entry>)
    ensures r.Some? ==> ValidEntry(r.value, profile) && Lex.Less(previous, r.value.path)
    ensures r.Some? ==> row == FileRow(r.value, index)
    ensures r.None? ==> forall e :: ValidEntry(e, profile) && Lex.Less(previous, e.path) ==> row != FileRow(e, index)
  {
    FileRowForm(row, index, previous, profile);
    if |row| != 6 || row[0] != "file" || row[1] != Index4(index) then None
    else
      var path, mode, sizeText, digest := row[2], row[3], row[4], row[5];
      if || !ValidRelative(path) || ".git" in Split(path, '/') || !Lex.Less(previous, path)
         || (mode != "100644" && mode != "100755")
         || !IsDecimal(sizeText) || Number(sizeText) > profile.sourceByteLimit
         || !IsHexText(digest, 64)
      then None
      else Some(Entry(path, mode, Number(sizeText), digest))
  }

  lemma FileRowForm(row: seq<string>, index: nat, previous: string, profile: Profile)
    ensures forall e: Entry :: row == FileRow(e, index) ==>
      && |row| == 6 && row[0] == "file" && row[1] == Index4(index)
      && row[2] == e.path && row[3] == e.mode && row[5] == e.digest
      && IsDecimal(row[4]) && Number(row[4]) == e.size
    ensures |row| == 6 && row[0] == "file" && row[1] == Index4(index) && IsDecimal(row[4]) ==>
      row == FileRow(Entry(row[2], row[3], Number(row[4]), row[5]), index)
  {
    hide Index4;
    forall e: Entry | row == FileRow(e, index)
      ensures IsDecimal(row[4]) && Number(row[4]) == e.size
    {
      DecimalReads(e.size);
    }
    if |row| == 6 && row[0] == "file" && row[1] == Index4(index) && IsDecimal(row[4]) {
      NumberPrints(row[4]);
      hide Decimal, Number;
      var e := Entry(row[2], row[3], Number(row[4]), row[5]);
      assert row == [row[0], row[1], row[2], row[3], row[4], row[5]];
    }
  }

  /** The manifest text authorizes this entry list. */
  ghost predicate Authorized(raw: string, es: seq<Entry>, profile: Profile, request: Request,
                             manifestDigest: string, rootDigest: string, sha: string -> string) {
    && ValidEntries(es, profile)
    && raw == Canonical(request, es, sha) && |raw| <= MAX_BYTES
    && sha(raw) == manifestDigest && RootDigest(request, es, sha) == rootDigest
  }

  /** Where the rows of a manifest stand. */
  ghost predicate Layout(rows: seq<seq<string>>, request: Request, es: seq<Entry>, root: string) {
    && |rows| == |es| + 6
    && rows[0] == Scalar(Schema, "1") && rows[1] == Scalar(Commit, request.commit)
    && rows[2] == Scalar(Tree, request.tree) && rows[3] == Scalar(Count, Decimal(|es|))
    && (forall i :: 0 <= i < |es| ==> rows[i + 4] == FileRow(es[i], i))
    && rows[|es| + 4] == Scalar(TotalBytes, Decimal(TotalSize(es)))
    && rows[|es| + 5] == Scalar(Root, root)
  }

  lemma RowsLaidOut(request: Request, es: seq<Entry>, sha: string -> string)
    ensures Layout(AllRows(request, es, sha), request, es, RootDigest(request, es, sha))
  {
    hide Scalar, FileRow, Decimal, TotalSize, RootDigest;
  }

  lemma ScalarInjective(key: Key, a: string, b: string)
    requires Scalar(key, a) == Scalar(key, b)
    ensures a == b
  {
    assert Scalar(key, a)[1] == Scalar(key, b)[1];
  }

  lemma CountReads(key: Key, n: nat, text: string)
    requires Scalar(key, text) == Scalar(key, Decimal(n))
    ensures IsDecimal(text) && Number(text) == n && (n > 0 ==> text[0] != '0')
  {
    ScalarInjective(key, text, Decimal(n));
    DecimalReads(n);
  }

  /** The four rows before the files. */
  method ParseHead(cursor: Cursor, profile: Profile, request: Request, ghost goal: Option<seq<Entry>>,
                   ghost root: string) returns (count: Option<nat>)
    requires cursor.index == 0 && request.commit != "" && request.tree != ""
    requires goal.Some? ==> Layout(cursor.rows, request, goal.value, root)
    requires goal.Some? ==> 1 <= |goal.value| <= profile.sourceFileLimit
    modifies cursor
    ensures count.None? ==> goal.None?
    ensures count.Some? ==> cursor.index == 4 && 1 <= count.value <= profile.sourceFileLimit
    ensures count.Some? && goal.Some? ==> count.value == |goal.value|
  {
    hide Scalar, FileRow, TotalSize, Decimal, Number;
    ghost var n := if goal.Some? then |goal.value| else 0;
    DecimalReads(n);
    var schema := cursor.TakeScalar(Schema);
    if schema.None? { return None; }
    if goal.Some? { ScalarInjective(Schema, schema.value, "1"); }
    if schema.value != "1" { return None; }
    var commit := cursor.TakeScalar(Commit);
    if commit.None? { return None; }
    var tree := cursor.TakeScalar(Tree);
    if tree.None? { return None; }
    var text := cursor.TakeScalar(Count);
    if text.None? { return None; }
    if goal.Some? {
      ScalarInjective(Commit, commit.value, request.commit);
      ScalarInjective(Tree, tree.value, request.tree);
      CountReads(Count, n, text.value);
    }
    if commit.value != request.commit || tree.value != request.tree { return None; }
    if !IsDecimal(text.value) || text.value[0] == '0' { return None; }
    if !(1 <= Number(text.value) <= profile.sourceFileLimit) { return None; }
    return Some(Number(text.value));
  }

  lemma {:induction false} PrefixTotal(es: seq<Entry>, k: nat)
    requires k <= |es|
    ensures TotalSize(es[..k]) <= TotalSize(es)
    decreases |es|
  {
    if k < |es| {
      PrefixTotal(es[..|es| - 1], k);
      assert es[..|es| - 1][..k] == es[..k];
    } else {
      assert es[..k] == es;
    }
  }

  /** The loop over the file rows. */
  method ParseFiles(cursor: Cursor, count: nat, profile: Profile, request: Request, ghost goal: Option<seq<Entry>>,
                    ghost root: string) returns (r: Option<seq<Entry>>)
    requires cursor.index == 4
    requires goal.Some? ==>
      Layout(cursor.rows, request, goal.value, root) && ValidEntries(goal.value, profile) && count == |goal.value|
    modifies cursor
    ensures r.None? ==> goal.None?
    ensures r.Some? ==>
      && cursor.index == 4 + count && |r.value| == count
      && (forall e :: e in r.value ==> ValidEntry(e, profile)) && Sorted(r.value)
      && TotalSize(r.value) <= profile.sourceByteLimit
    ensures r.Some? && goal.Some? ==> r.value == goal.value
  {
    hide Scalar, FileRow, ValidEntry, Decimal, Lex.Less, Layout, ValidEntries, Sorted, TotalSize;
    NoEntries();
    var entries: seq<Entry> := [];
    var previous, total := "", 0;
    var index := 0;
    while index < count
      invariant 0 <= index <= count && cursor.index == 4 + index && |entries| == index
      invariant (forall e :: e in entries ==> ValidEntry(e, profile)) && Sorted(entries)
      invariant total == TotalSize(entries) <= profile.sourceByteLimit
      invariant previous == if index == 0 then "" else entries[index - 1].path
      invariant goal.Some? ==> entries == goal.value[..index]
    {
      if goal.Some? {
        NextExpected(goal.value, index, previous, profile);
        RowAt(cursor.rows, request, goal.value, root, index);
      }
      if cursor.index >= |cursor.rows| { return None; }
      var row := cursor.rows[cursor.index];
      cursor.index := cursor.index + 1;
      var entry := EntryOf(row, index, previous, profile);
      if entry.None? { return None; }
      OneMore(entries, entry.value);
      if goal.Some? {
        FileRowInjective(entry.value, goal.value[index], index, index);
        assert entries + [entry.value] == goal.value[..index + 1];
        PrefixTotal(goal.value, index + 1);
        TotalFits(goal.value, profile);
      }
      total := total + entry.value.size;
      if total > profile.sourceByteLimit { return None; }
      entries := entries + [entry.value];
      previous := entry.value.path;
      index := index + 1;
    }
    assert goal.Some? ==> goal.value[..index] == goal.value;
    return Some(entries);
  }

  lemma NoEntries()
    ensures Sorted([]) && TotalSize([]) == 0
  {
  }

  lemma OneMore(es: seq<Entry>, e: Entry)
    ensures TotalSize(es + [e]) == TotalSize(es) + e.size
    ensures Sorted(es) && (es != [] ==> Lex.Less(es[|es| - 1].path, e.path)) ==> Sorted(es + [e])
  {
    hide Lex.Less;
    assert (es + [e])[..|es|] == es;
  }

  lemma RowAt(rows: seq<seq<string>>, request: Request, es: seq<Entry>, root: string, i: nat)
    requires Layout(rows, request, es, root) && i < |es|
    ensures i + 4 < |rows| && rows[4 + i] == FileRow(es[i], i)
  {
    hide Scalar, FileRow, Decimal;
    assert rows[i + 4] == FileRow(es[i], i);
  }

  lemma TotalFits(es: seq<Entry>, profile: Profile)
    requires ValidEntries(es, profile)
    ensures TotalSize(es) <= profile.sourceByteLimit
  {
    hide ValidEntry;
  }

  lemma NextExpected(es: seq<Entry>, index: nat, previous: string, profile: Profile)
    requires ValidEntries(es, profile) && index < |es|
    requires previous == if index == 0 then "" else es[..index][index - 1].path
    ensures ValidEntry(es[index], profile) && Lex.Less(previous, es[index].path)
  {
    hide ValidRelative;
    assert es[index] in es;
    if index == 0 {
      assert es[0].path != "" by { NonEmptyPath(es[0], profile); }
    } else {
      assert es[..index][index - 1] == es[index - 1];
    }
  }

  lemma NonEmptyPath(e: Entry, profile: Profile)
    requires ValidEntry(e, profile)
    ensures e.path != ""
  {
  }

  /** The two rows after the files. */
  method ParseTail(cursor: Cursor, es: seq<Entry>, request: Request, ghost goal: Option<seq<Entry>>,
                   ghost root: string) returns (r: Option<string>)
    requires cursor.index == 4 + |es|
    requires goal.Some? ==> Layout(cursor.rows, request, goal.value, root) && es == goal.value && IsHexText(root, 64)
    modifies cursor
    ensures r.None? ==> goal.None?
    ensures r.Some? && goal.Some? ==> r.value == root
  {
    hide Scalar, FileRow, TotalSize, Decimal, Number, IsHexText;
    if goal.Some? { HexNotEmpty(root); }
    DecimalReads(TotalSize(es));
    var bytes := cursor.TakeScalar(TotalBytes);
    if bytes.None? { return None; }
    var digest := cursor.TakeScalar(Root);
    if digest.None? || cursor.index != |cursor.rows| { return None; }
    if goal.Some? {
      CountReads(TotalBytes, TotalSize(es), bytes.value);
      ScalarInjective(Root, digest.value, root);
    }
    if !IsDecimal(bytes.value) || Number(bytes.value) != TotalSize(es) || !IsHexText(digest.value, 64) { return None; }
    return digest;
  }

  lemma HexNotEmpty(s: string)
    requires IsHexText(s, 64)
    ensures s != ""
  {
  }

  /** `parse_source_manifest`: a text is accepted exactly when it is the canonical text
      of a valid entry list with the expected digests; that list is returned. */
  method ParseSourceManifest(raw: string, profile: Profile, request: Request,
                             manifestDigest: string, rootDigest: string,
                                 sha: string -> string) returns (r: Option<seq<Entry>>)
    requires IsHexText(request.commit, 40) && IsHexText(request.tree, 40)
    requires forall s :: IsHexText(sha(s), 64)
    ensures r.Some? ==> Authorized(raw, r.value, profile, request, manifestDigest, rootDigest, sha)
    ensures r.None? ==> !exists es :: Authorized(raw, es, profile, request, manifestDigest, rootDigest, sha)
  {
    hide Canonical, RootDigest, RowsText, Layout, AllRows, ValidEntry, SplitAll, Lines;
    ghost var goal: Option<seq<Entry>> := None;
    if es :| Authorized(raw, es, profile, request, manifestDigest, rootDigest, sha) {
      goal := Some(es);
      RootIsHex(request, es, sha);
      GoalReads(raw, es, profile, request, sha);
    }
    var rows := ParseRows(raw, MAX_BYTES);
    if rows.None? { return None; }
    var cursor := new Cursor(rows.value);
    var count := ParseHead(cursor, profile, request, goal, rootDigest);
    if count.None? { return None; }
    var files := ParseFiles(cursor, count.value, profile, request, goal, rootDigest);
    if files.None? { return None; }
    var digest := ParseTail(cursor, files.value, request, goal, rootDigest);
    if digest.None? { return None; }
    var canonical := Canonical(request, files.value, sha);
    var computed := RootDigest(request, files.value, sha);
    if raw != canonical || sha(raw) != manifestDigest || digest.value != rootDigest || computed != rootDigest {
      return None;
    }
    RowsBounded(raw);
    return Some(files.value);
  }

  lemma RowsBounded(raw: string)
    requires RowsText(raw, MAX_BYTES)
    ensures |raw| <= MAX_BYTES
  {
  }

  lemma GoalReads(raw: string, es: seq<Entry>, profile: Profile, request: Request, sha: string -> string)
    requires IsHexText(request.commit, 40) && IsHexText(request.tree, 40) && IsHexText(RootDigest(request, es, sha), 64)
    requires ValidEntries(es, profile) && raw == Canonical(request, es, sha) && |raw| <= MAX_BYTES
    ensures raw != "" && RowsText(raw, MAX_BYTES)
    ensures Layout(SplitAll(Lines(raw)), request, es, RootDigest(request, es, sha))
  {
    hide Canonical, RootDigest, AllRows, ValidEntry, SplitAll, Layout, Lines;
    forall e | e in es ensures CleanEntry(e) { ValidIsClean(e, profile); }
    CanonicalReads(request, es, sha);
    RowsLaidOut(request, es, sha);
  }

  // ---------- the exported source against its authorization ----------

  /** `verify_exported_source`: with an authorization for `es`, the bytes agree exactly
      when the exported entries are `es`. */
  method VerifyExportedSource(request: Request, manifestRaw: string, manifestDigest: string, rootDigest: string,
                              actual: seq<Entry>, sha: string -> string,
                              ghost es: seq<Entry>, ghost profile: Profile) returns (ok: bool)
    requires IsHexText(request.commit, 40) && IsHexText(request.tree, 40)
    requires forall s :: IsHexText(sha(s), 64)
    requires Authorized(manifestRaw, es, profile, request, manifestDigest, rootDigest, sha)
    requires forall e :: e in actual ==> CleanEntry(e)
    ensures ok <==> actual == es
  {
    hide Canonical, RootDigest, ValidEntry, CleanEntry;
    var actualRaw := Canonical(request, actual, sha);
    var actualRoot := RootDigest(request, actual, sha);
    ok := actualRaw == manifestRaw && sha(actualRaw) == manifestDigest && actualRoot == rootDigest;
    if ok {
      RootIsHex(request, actual, sha);
      RootIsHex(request, es, sha);
      forall e | e in es ensures CleanEntry(e) { ValidIsClean(e, profile); }
      CanonicalInjective(request, actual, es, sha);
    }
  }

  lemma RootIsHex(request: Request, es: seq<Entry>, sha: string -> string)
    requires forall s :: IsHexText(sha(s), 64)
    ensures IsHexText(RootDigest(request, es, sha), 64)
  {
    hide Body;
  }
}
