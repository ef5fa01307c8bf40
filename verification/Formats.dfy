/** The texts of the program's records, written out line by line, for comparison with what
    the other modules print. */
module Formats {
  import opened Cats
  import opened Text
  import GitTree
  import Ledger
  import Manifest

  // ---------- the source manifest ----------

  function FileLine(e: Manifest.Entry, index: nat): string {
    "file\t" + Manifest.Index4(index) + "\t" + e.path + "\t" + e.mode + "\t" + Decimal(e.size) + "\t" + e.digest
  }

  function Sum(es: seq<Manifest.Entry>): nat {
    if es == [] then 0 else es[0].size + Sum(es[1..])
  }

  /** The lines before the last. */
  function BodyLines(r: Manifest.Request, es: seq<Manifest.Entry>): seq<string> {
    [SchemaLine(), CommitLine(r), TreeLine(r), CountLine(|es|)]
    + seq(|es|, i requires 0 <= i < |es| => FileLine(es[i], i))
    + [BytesLine(Sum(es))]
  }

  function SchemaLine(): string { "source_authorization_manifest_schema_version\t1" }

  function CommitLine(r: Manifest.Request): string { "source_commit\t" + r.commit }

  function TreeLine(r: Manifest.Request): string { "source_tree\t" + r.tree }

  function CountLine(n: nat): string { "file_count\t" + Decimal(n) }

  function BytesLine(n: nat): string { "source_bytes\t" + Decimal(n) }

  function Lines(lines: seq<string>): string { Cat(Terminated, lines) }

  lemma ScalarLine(key: Manifest.Key, value: string)
    ensures Manifest.LineOf(Manifest.Scalar(key, value)) == Manifest.KeyText(key) + "\t" + value
  {
    JoinTwo(Manifest.KeyText(key), [value]);
    assert Manifest.Scalar(key, value) == [Manifest.KeyText(key)] + [value];
  }

  lemma JoinTwo(a: string, rest: seq<string>)
    requires rest != []
    ensures Join([a] + rest, '\t') == a + "\t" + Join(rest, '\t')
    ensures |rest| == 1 ==> Join(rest, '\t') == rest[0]
  {
    assert ([a] + rest)[1..] == rest;
  }

  lemma Join6(a: string, b: string, c: string, d: string, e: string, f: string)
    ensures Join([a, b, c, d, e, f], '\t') == a + "\t" + b + "\t" + c + "\t" + d + "\t" + e + "\t" + f
  {
    JoinTwo(e, [f]);
    JoinTwo(d, [e, f]);
    JoinTwo(c, [d, e, f]);
    JoinTwo(b, [c, d, e, f]);
    JoinTwo(a, [b, c, d, e, f]);
  }

  lemma FileLineIs(e: Manifest.Entry, index: nat)
    ensures Manifest.LineOf(Manifest.FileRow(e, index)) == FileLine(e, index)
  {
    hide Decimal, Manifest.Index4, Join;
    assert "file\t" == "file" + "\t";
    Join6("file", Manifest.Index4(index), e.path, e.mode, Decimal(e.size), e.digest);
  }

  lemma {:induction false} SumSnoc(es: seq<Manifest.Entry>, e: Manifest.Entry)
    ensures Sum(es + [e]) == Sum(es) + e.size
  {
    if es != [] {
      assert (es + [e])[1..] == es[1..] + [e];
      SumSnoc(es[1..], e);
    } else {
      assert es + [e] == [e];
    }
  }

  lemma {:induction false} SumIs(es: seq<Manifest.Entry>)
    ensures Sum(es) == Manifest.TotalSize(es)
  {
    if es != [] {
      SumIs(es[..|es| - 1]);
      SumSnoc(es[..|es| - 1], es[|es| - 1]);
      assert es == es[..|es| - 1] + [es[|es| - 1]];
    }
  }

  /** Rows printed one after the other are their lines. */
  lemma {:induction false} RowsAreLines(rows: seq<seq<string>>, lines: seq<string>)
    requires |rows| == |lines| && forall i :: 0 <= i < |rows| ==> Manifest.LineOf(rows[i]) == lines[i]
    ensures Cat(Manifest.PrintRow, rows) == Lines(lines)
  {
    if rows != [] { RowsAreLines(rows[1..], lines[1..]); }
  }

  lemma SchemaLineIs()
    ensures Manifest.LineOf(Manifest.Scalar(Manifest.Schema, "1")) == SchemaLine()
  {
    ScalarLine(Manifest.Schema, "1");
  }

  lemma ScalarLinesAre(r: Manifest.Request, count: nat, bytes: nat)
    ensures Manifest.LineOf(Manifest.Scalar(Manifest.Commit, r.commit)) == CommitLine(r)
    ensures Manifest.LineOf(Manifest.Scalar(Manifest.Tree, r.tree)) == TreeLine(r)
    ensures Manifest.LineOf(Manifest.Scalar(Manifest.Count, Decimal(count))) == CountLine(count)
    ensures Manifest.LineOf(Manifest.Scalar(Manifest.TotalBytes, Decimal(bytes))) == BytesLine(bytes)
  {
    hide Decimal;
    ScalarLine(Manifest.Commit, r.commit);
    ScalarLine(Manifest.Tree, r.tree);
    ScalarLine(Manifest.Count, Decimal(count));
    ScalarLine(Manifest.TotalBytes, Decimal(bytes));
  }

  lemma BodyIs(r: Manifest.Request, es: seq<Manifest.Entry>)
    ensures Manifest.Body(r, es) == Lines(BodyLines(r, es))
  {
    hide FileLine, Decimal, Sum, Manifest.TotalSize, Manifest.LineOf, Manifest.FileRow, Manifest.Scalar;
    hide Cat, SchemaLine;
    hide CommitLine, TreeLine, CountLine, BytesLine, Manifest.PrintRow;
    var rows, lines := Manifest.BodyRows(r, es), BodyLines(r, es);
    SchemaLineIs();
    SumIs(es);
    ScalarLinesAre(r, |es|, Sum(es));
    forall i | 0 <= i < |rows| ensures Manifest.LineOf(rows[i]) == lines[i] {
      if 4 <= i < 4 + |es| { FileLineIs(es[i - 4], i - 4); }
    }
    RowsAreLines(rows, lines);
  }

  /** The manifest is these lines, the last with the digest of those before it. */
  lemma ManifestText(r: Manifest.Request, es: seq<Manifest.Entry>, sha: string -> string)
    ensures Manifest.Canonical(r, es, sha) ==
      Lines(BodyLines(r, es)) + "source_root_sha256\t" + sha("fe2o3-source-root-v1\0" + Lines(BodyLines(r, es))) + "\n"
  {
    hide BodyLines, Lines, Manifest.Body, Manifest.LineOf;
    BodyIs(r, es);
    var body := Manifest.Body(r, es);
    assert Manifest.ROOT_DOMAIN == "fe2o3-source-root-v1\0";
    ScalarLine(Manifest.Root, sha(Manifest.ROOT_DOMAIN + body));
  }

  // ---------- the retention ledger ----------

  const LEDGER := "fe2o3-static-host-lld-global-retention-ledger-v1"

  function FormatLine(): string { "FORMAT=" + LEDGER }

  function StatusLine(): string { "STATUS=global-precopy-budget-accounting" }

  function BoundLines(b: Ledger.Bounds): seq<string> {
    ["GLOBAL_FILE_BOUND=" + Decimal(b.files), "GLOBAL_BYTE_BOUND=" + Decimal(b.bytes)]
  }

  function TotalLines(l: Ledger.Ledger): seq<string> {
    ["FILES=" + Decimal(l.files), "TOTAL_BYTES=" + Decimal(l.bytes)]
  }

  function EndLine(): string { "TERMINAL=" + LEDGER + "-end" }

  function LedgerText(l: Ledger.Ledger, b: Ledger.Bounds): seq<string> {
    [FormatLine(), StatusLine()] + BoundLines(b)
    + seq(|l.phases|, i requires 0 <= i < |l.phases| => PhaseText(l.phases[i]))
    + TotalLines(l) + [EndLine()]
  }

  function PhaseText(p: Ledger.Phase): string {
    "P\t" + p.name + "\t" + Decimal(p.files) + "\t" + Decimal(p.bytes)
  }

  lemma PhaseTextIs(p: Ledger.Phase)
    ensures Ledger.PhaseLine(p) == PhaseText(p)
  {
    hide Decimal;
    var a, b := Decimal(p.files), Decimal(p.bytes);
    JoinTwo(a, [b]);
    JoinTwo(p.name, [a, b]);
    JoinTwo("P", [p.name, a, b]);
  }

  lemma NameIs()
    ensures Ledger.LedgerName() == LEDGER
  {
  }

  lemma NameLinesAre()
    ensures Ledger.LabelText(Ledger.Format) == FormatLine()
    ensures Ledger.LabelText(Ledger.Terminal) == EndLine()
  {
    hide Ledger.LedgerName;
    NameIs();
  }

  lemma StatusLineIs()
    ensures Ledger.LabelText(Ledger.Status) == StatusLine()
  {
  }

  lemma NumberLinesAre(l: Ledger.Ledger, b: Ledger.Bounds)
    ensures BoundLines(b) ==
      [Ledger.LabelText(Ledger.FileBound) + Decimal(b.files), Ledger.LabelText(Ledger.ByteBound) + Decimal(b.bytes)]
    ensures TotalLines(l) ==
      [Ledger.LabelText(Ledger.Files) + Decimal(l.files), Ledger.LabelText(Ledger.Total) + Decimal(l.bytes)]
  {
    hide Decimal;
    assert Ledger.LabelText(Ledger.FileBound) == "GLOBAL_FILE_BOUND=";
    assert Ledger.LabelText(Ledger.ByteBound) == "GLOBAL_BYTE_BOUND=";
    assert Ledger.LabelText(Ledger.Files) == "FILES=" && Ledger.LabelText(Ledger.Total) == "TOTAL_BYTES=";
  }

  /** The ledger file is these lines. */
  lemma LedgerIs(l: Ledger.Ledger, b: Ledger.Bounds)
    ensures Ledger.Serialize(l, b) == Lines(LedgerText(l, b))
  {
    hide Decimal, PhaseText, Ledger.PhaseLine, Cat, Ledger.LabelText, FormatLine, StatusLine, EndLine, BoundLines;
    hide TotalLines;
    NameLinesAre();
    StatusLineIs();
    NumberLinesAre(l, b);
    forall i | 0 <= i < |l.phases| ensures Ledger.PhaseLine(l.phases[i]) == PhaseText(l.phases[i]) {
      PhaseTextIs(l.phases[i]);
    }
    assert Ledger.PhaseLines(l.phases) == seq(|l.phases|, i requires 0 <= i < |l.phases| => PhaseText(l.phases[i]));
    assert Ledger.LedgerLines(l, b) == LedgerText(l, b);
  }

  // ---------- Git tree entries ----------

  function ModeBytes(mode: GitTree.Mode): string {
    if mode.Directory? then "40000 " else if mode.Regular? then "100644 " else "100755 "
  }

  lemma ModeIs(mode: GitTree.Mode)
    ensures GitTree.ModeText(mode) + " " == ModeBytes(mode)
  {
  }

  /** The first bytes tell the mode. */
  lemma ModeTells(mode: GitTree.Mode, rest: string)
    ensures mode.Directory? <==> "40000 " <= ModeBytes(mode) + rest
    ensures mode.Regular? <==> "100644 " <= ModeBytes(mode) + rest
    ensures mode.Executable? <==> "100755 " <= ModeBytes(mode) + rest
  {
    var bytes := ModeBytes(mode) + rest;
    assert bytes[0] == ModeBytes(mode)[0] && bytes[3] == ModeBytes(mode)[3];
  }

  /** An entry is a directory, a file or an executable by its first bytes. */
  lemma EntryBytes(e: GitTree.Entry)
    ensures e.mode.Directory? <==> "40000 " <= GitTree.EncodeEntry(e)
    ensures e.mode.Regular? <==> "100644 " <= GitTree.EncodeEntry(e)
    ensures e.mode.Executable? <==> "100755 " <= GitTree.EncodeEntry(e)
    ensures GitTree.EncodeEntry(e) == ModeBytes(e.mode) + e.name + "\0" + e.id
  {
    hide GitTree.ModeText, ModeBytes;
    ModeIs(e.mode);
    ModeTells(e.mode, e.name + "\0" + e.id);
    assert ModeBytes(e.mode) + (e.name + "\0" + e.id) == ModeBytes(e.mode) + e.name + "\0" + e.id;
  }
}
