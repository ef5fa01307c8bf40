/** The source authorization manifest: its canonical text and its parser. `sha` stands
    for the hexadecimal SHA-256 of a byte string. */
module Manifest {
  import opened Cats
  import opened Text
  import Lex

  datatype Entry = Entry(path: string, mode: string, size: nat, digest: string)

  datatype Profile = Profile(sourceFileLimit: nat, sourceByteLimit: nat)

  datatype Request = Request(commit: string, tree: string)

  const MAX_BYTES := 16 * 1024 * 1024

  // ---------- fields ----------

  predicate IsHexText(s: string, n: nat) {
    |s| == n && forall i :: 0 <= i < |s| ==> '0' <= s[i] <= '9' || 'a' <= s[i] <= 'f'
  }

  predicate Alphanumeric(c: char) {
    'A' <= c <= 'Z' || 'a' <= c <= 'z' || '0' <= c <= '9'
  }

  predicate PathChar(c: char) {
    Alphanumeric(c) || c == '.' || c == '_' || c == '/' || c == '+' || c == ':' || c == '-'
  }

  /** `valid_relative`. */
  predicate ValidRelative(p: string) {
    && 1 <= |p| <= 512 && Alphanumeric(p[0])
    && (forall i :: 0 <= i < |p| ==> PathChar(p[i]))
    && (forall part :: part in Split(p, '/') ==> part != "" && part != "." && part != "..")
  }

  predicate ValidEntry(e: Entry, profile: Profile) {
    && ValidRelative(e.path) && ".git" !in Split(e.path, '/')
    && (e.mode == "100644" || e.mode == "100755")
    && e.size <= profile.sourceByteLimit
    && IsHexText(e.digest, 64)
  }

  function TotalSize(es: seq<Entry>): nat {
    if es == [] then 0 else TotalSize(es[..|es| - 1]) + es[|es| - 1].size
  }

  ghost predicate Sorted(es: seq<Entry>) {
    forall i, j :: 0 <= i < j < |es| && j == i + 1 ==> Lex.Less(es[i].path, es[j].path)
  }

  /** The entry lists that a manifest may carry. */
  ghost predicate ValidEntries(es: seq<Entry>, profile: Profile) {
    && 1 <= |es| <= profile.sourceFileLimit
    && (forall e :: e in es ==> ValidEntry(e, profile))
    && Sorted(es)
    && TotalSize(es) <= profile.sourceByteLimit
  }

  // ---------- the canonical text ----------

  /** `f"{n:04d}"`. */
  function Index4(n: nat): string {
    var d := Decimal(n);
    if |d| >= 4 then d else seq(4 - |d|, _ => '0') + d
  }

  function FileRow(e: Entry, index: nat): seq<string> {
    ["file", Index4(index), e.path, e.mode, Decimal(e.size), e.digest]
  }

  function FileRows(es: seq<Entry>): seq<seq<string>> {
    seq(|es|, i requires 0 <= i < |es| => FileRow(es[i], i))
  }

  /** The keys of the rows with one value. */
  datatype Key = Schema | Commit | Tree | Count | TotalBytes | Root

  function KeyText(key: Key): string {
    match key
    case Schema => "source_authorization_manifest_schema_version"
    case Commit => "source_commit"
    case Tree => "source_tree"
    case Count => "file_count"
    case TotalBytes => "source_bytes"
    case Root => "source_root_sha256"
  }

  function Scalar(key: Key, value: string): seq<string> {
    [KeyText(key), value]
  }

  function HeadRows(r: Request, count: nat): seq<seq<string>> {
    [Scalar(Schema, "1"), Scalar(Commit, r.commit), Scalar(Tree, r.tree), Scalar(Count, Decimal(count))]
  }

  function BodyRows(r: Request, es: seq<Entry>): seq<seq<string>> {
    HeadRows(r, |es|) + FileRows(es) + [Scalar(TotalBytes, Decimal(TotalSize(es)))]
  }

  function LineOf(row: seq<string>): string {
    if row == [] then "" else Join(row, '\t')
  }

  function PrintRow(row: seq<string>): string {
    Terminated(LineOf(row))
  }

  /** `canonical_source_manifest_body`. */
  function Body(r: Request, es: seq<Entry>): string {
    Cat(PrintRow, BodyRows(r, es))
  }

  const ROOT_DOMAIN := "fe2o3-source-root-v1" + ['\0']

  function RootDigest(r: Request, es: seq<Entry>, sha: string -> string): string {
    sha(ROOT_DOMAIN + Body(r, es))
  }

  function AllRows(r: Request, es: seq<Entry>, sha: string -> string): seq<seq<string>> {
    BodyRows(r, es) + [Scalar(Root, RootDigest(r, es, sha))]
  }

  /** `canonical_source_manifest`. */
  function Canonical(r: Request, es: seq<Entry>, sha: string -> string): string {
    Body(r, es) + PrintRow(Scalar(Root, RootDigest(r, es, sha)))
  }

  lemma CanonicalRows(r: Request, es: seq<Entry>, sha: string -> string)
    ensures Canonical(r, es, sha) == Cat(PrintRow, AllRows(r, es, sha))
  {
    CatSnoc(PrintRow, BodyRows(r, es), Scalar(Root, RootDigest(r, es, sha)));
  }

  // ---------- rows of text ----------

  predicate CleanField(s: string) {
    forall i :: 0 <= i < |s| ==> s[i] != '\t' && s[i] != '\n' && s[i] != '\r' && s[i] < 128 as char
  }

  /** Rows that survive printing: fields hold no separator, and no row prints blank. */
  predicate CleanRow(row: seq<string>) {
    |row| >= 2 && forall f :: f in row ==> CleanField(f)
  }

  lemma {:induction false} JoinClean(row: seq<string>)
    requires row != [] && forall f :: f in row ==> CleanField(f)
    ensures forall i :: 0 <= i < |Join(row, '\t')| ==>
            Join(row, '\t')[i] != '\n' && Join(row, '\t')[i] != '\r' && Join(row, '\t')[i] < 128 as char
  {
    if |row| > 1 { JoinClean(row[1..]); }
    assert CleanField(row[0]);
  }

  lemma RowReads(row: seq<string>)
    requires CleanRow(row)
    ensures Split(LineOf(row), '\t') == row && LineOf(row) != ""
  {
    forall f | f in row ensures Clean(f, '\t') { assert CleanField(f); }
    SplitJoin(row, '\t');
  }

  function LinesOf(rows: seq<seq<string>>): seq<string> {
    seq(|rows|, i requires 0 <= i < |rows| => LineOf(rows[i]))
  }

  lemma {:induction false} RowsAreLines(rows: seq<seq<string>>)
    ensures Cat(PrintRow, rows) == Cat(Terminated, LinesOf(rows))
  {
    if rows != [] {
      RowsAreLines(rows[1..]);
      assert LinesOf(rows)[1..] == LinesOf(rows[1..]);
    }
  }

  /** `parse_rows` accepts the text. */
  ghost predicate RowsText(raw: string, maximum: nat) {
    && 1 <= |raw| <= maximum && '\r' !in raw && raw[|raw| - 1] == '\n'
    && forall line :: line in Lines(raw) ==> line != "" && forall i :: 0 <= i < |line| ==> line[i] < 128 as char
  }

  function SplitAll(lines: seq<string>): seq<seq<string>> {
    seq(|lines|, i requires 0 <= i < |lines| => Split(lines[i], '\t'))
  }

  /** Printed rows read back. */
  lemma RowsRead(rows: seq<seq<string>>)
    requires rows != [] && forall row :: row in rows ==> CleanRow(row)
    ensures var raw := Cat(PrintRow, rows); raw != "" && RowsText(raw, |raw|) && SplitAll(Lines(raw)) == rows
  {
    var lines := LinesOf(rows);
    RowsAreLines(rows);
    forall i | 0 <= i < |lines|
      ensures Clean(lines[i], '\n') && Clean(lines[i], '\r') && lines[i] != "" && Split(lines[i], '\t') == rows[i]
      ensures forall k :: 0 <= k < |lines[i]| ==> lines[i][k] < 128 as char
    {
      assert CleanRow(rows[i]);
      JoinClean(rows[i]);
      RowReads(rows[i]);
    }
    LinesRead(lines);
    LinesJoin(lines);
    NoReturn(lines);
  }

  lemma {:induction false} NoReturn(lines: seq<string>)
    requires forall i :: 0 <= i < |lines| ==> Clean(lines[i], '\r')
    ensures '\r' !in Cat(Terminated, lines)
  {
    if lines != [] {
      assert Clean(lines[0], '\r');
      NoReturn(lines[1..]);
    }
  }

  // ---------- the canonical rows are clean ----------

  lemma DecimalClean(n: nat)
    ensures CleanField(Decimal(n))
  {
    DecimalReads(n);
  }

  /** At least four digits, with leading zeros only as far as these need, that read back. */
  lemma Index4Reads(n: nat)
    ensures |Index4(n)| >= 4 && AllDigits(Index4(n)) && Number(Index4(n)) == n
    ensures |Index4(n)| > 4 ==> Index4(n)[0] != '0'
  {
    DecimalReads(n);
    var d := Decimal(n);
    if |d| < 4 { ZerosRead(4 - |d|, d); }
  }

  lemma {:induction false} ZerosRead(k: nat, d: string)
    requires AllDigits(d)
    ensures AllDigits(seq(k, _ => '0') + d) && Number(seq(k, _ => '0') + d) == Number(d)
    decreases |d|
  {
    var zeros := seq(k, _ => '0');
    if d == "" {
      AllZeros(k);
      assert zeros + d == zeros;
    } else {
      var front := d[..|d| - 1];
      ZerosRead(k, front);
      assert (zeros + d)[..|zeros + d| - 1] == zeros + front;
    }
  }

  lemma {:induction false} AllZeros(k: nat)
    ensures AllDigits(seq(k, _ => '0')) && Number(seq(k, _ => '0')) == 0
  {
    if k > 0 {
      AllZeros(k - 1);
      assert seq(k, _ => '0')[..k - 1] == seq(k - 1, _ => '0');
    }
  }

  lemma Index4Clean(n: nat)
    ensures CleanField(Index4(n))
  {
    DecimalClean(n);
  }

  predicate CleanEntry(e: Entry) {
    CleanField(e.path) && CleanField(e.mode) && CleanField(e.digest)
  }

  lemma ValidIsClean(e: Entry, profile: Profile)
    requires ValidEntry(e, profile)
    ensures CleanEntry(e)
  {
    forall i | 0 <= i < |e.path| ensures e.path[i] != '\t' && e.path[i] != '\n' && e.path[i] != '\r' &&
        e.path[i] < 128 as char {
      assert PathChar(e.path[i]);
    }
  }

  lemma FileRowClean(e: Entry, index: nat)
    requires CleanEntry(e)
    ensures CleanRow(FileRow(e, index))
  {
    Index4Clean(index);
    DecimalClean(e.size);
    hide Index4, Decimal;
    var row := FileRow(e, index);
    forall f | f in row ensures CleanField(f) {
      assert f == row[0] || f == row[1] || f == row[2] || f == row[3] || f == row[4] || f == row[5];
    }
  }

  lemma SchemaKeyClean()
    ensures CleanField("source_authorization_manifest_schema_version")
  {
  }

  lemma RootKeyClean()
    ensures CleanField("source_root_sha256")
  {
  }

  lemma ShortKeyClean()
    ensures CleanField("source_commit") && CleanField("source_tree")
    ensures CleanField("file_count") && CleanField("source_bytes")
  {
  }

  lemma KeyClean(key: Key)
    ensures CleanField(KeyText(key)) && KeyText(key) != ""
  {
    SchemaKeyClean();
    RootKeyClean();
    ShortKeyClean();
    hide CleanField;
  }

  lemma ScalarClean(key: Key, value: string)
    requires CleanField(value)
    ensures CleanRow(Scalar(key, value))
  {
    KeyClean(key);
    hide KeyText;
    var row := Scalar(key, value);
    forall f | f in row ensures CleanField(f) { assert f == row[0] || f == row[1]; }
  }

  lemma HeadRowsClean(r: Request, count: nat)
    requires IsHexText(r.commit, 40) && IsHexText(r.tree, 40)
    ensures forall row :: row in HeadRows(r, count) ==> CleanRow(row)
  {
    DecimalClean(count);
    hide Scalar, CleanRow, Decimal;
    ScalarClean(Schema, "1");
    ScalarClean(Commit, r.commit);
    ScalarClean(Tree, r.tree);
    ScalarClean(Count, Decimal(count));
    var rows := HeadRows(r, count);
    forall row | row in rows ensures CleanRow(row) {
      assert row == rows[0] || row == rows[1] || row == rows[2] || row == rows[3];
    }
  }

  lemma AllRowsClean(r: Request, es: seq<Entry>, sha: string -> string)
    requires IsHexText(r.commit, 40) && IsHexText(r.tree, 40) && IsHexText(RootDigest(r, es, sha), 64)
    requires forall e :: e in es ==> CleanEntry(e)
    ensures forall row :: row in AllRows(r, es, sha) ==> CleanRow(row)
  {
    HeadRowsClean(r, |es|);
    DecimalClean(TotalSize(es));
    ScalarClean(TotalBytes, Decimal(TotalSize(es)));
    ScalarClean(Root, RootDigest(r, es, sha));
    hide RootDigest, FileRow, CleanRow, TotalSize, Decimal, HeadRows, Scalar;
    forall i | 0 <= i < |es| ensures CleanRow(FileRows(es)[i]) { FileRowClean(es[i], i); }
  }

  // ---------- the printer is injective ----------

  lemma FileRowInjective(a: Entry, b: Entry, i: nat, j: nat)
    requires FileRow(a, i) == FileRow(b, j)
    ensures a == b
  {
    hide Decimal, Index4;
    assert FileRow(a, i)[2] == FileRow(b, j)[2] && FileRow(a, i)[3] == FileRow(b, j)[3];
    assert FileRow(a, i)[4] == FileRow(b, j)[4] && FileRow(a, i)[5] == FileRow(b, j)[5];
    DecimalInjective(a.size, b.size);
  }

  /** The canonical text reads back as its rows. */
  lemma CanonicalReads(r: Request, es: seq<Entry>, sha: string -> string)
    requires IsHexText(r.commit, 40) && IsHexText(r.tree, 40) && IsHexText(RootDigest(r, es, sha), 64)
    requires forall e :: e in es ==> CleanEntry(e)
    ensures
      var raw := Canonical(r, es, sha);
      raw != "" && RowsText(raw, |raw|) && SplitAll(Lines(raw)) == AllRows(r, es, sha)
  {
    CanonicalRows(r, es, sha);
    AllRowsClean(r, es, sha);
    hide RootDigest, CleanRow, PrintRow, BodyRows, Canonical, RowsText, SplitAll, CleanEntry;
    RowsRead(AllRows(r, es, sha));
  }

  lemma RowsInjective(r: Request, a: seq<Entry>, b: seq<Entry>, sha: string -> string)
    requires AllRows(r, a, sha) == AllRows(r, b, sha)
    ensures a == b
  {
    hide RootDigest, FileRow, TotalSize, Decimal, Scalar;
    var rows := AllRows(r, a, sha);
    assert |rows| == 4 + |a| + 2 == 4 + |b| + 2;
    forall i | 0 <= i < |a| ensures a[i] == b[i] {
      assert rows[4 + i] == FileRow(a[i], i) == FileRow(b[i], i);
      FileRowInjective(a[i], b[i], i, i);
    }
  }

  /** Two clean entry lists with the same canonical text are the same. */
  lemma CanonicalInjective(r: Request, a: seq<Entry>, b: seq<Entry>, sha: string -> string)
    requires IsHexText(r.commit, 40) && IsHexText(r.tree, 40)
    requires IsHexText(RootDigest(r, a, sha), 64) && IsHexText(RootDigest(r, b, sha), 64)
    requires forall e :: e in a ==> CleanEntry(e)
    requires forall e :: e in b ==> CleanEntry(e)
    requires Canonical(r, a, sha) == Canonical(r, b, sha)
    ensures a == b
  {
    hide RootDigest, AllRows, Canonical, RowsText, SplitAll, CleanEntry;
    CanonicalReads(r, a, sha);
    CanonicalReads(r, b, sha);
    RowsInjective(r, a, b, sha);
  }
}
