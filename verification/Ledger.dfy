/** The global retention ledger: its text, its parser and the budget step. */
module Ledger {
  import opened Cats
  import opened Text
  import opened Wrappers

  datatype Phase = Phase(name: string, files: nat, bytes: nat)

  datatype Ledger = Ledger(phases: seq<Phase>, files: nat, bytes: nat)

  datatype Bounds = Bounds(files: nat, bytes: nat)

  const MAX_FILES := 65536
  const MAX_BYTES := 256 * 1024 * 1024
  const MAX_TEXT := 16 * 1024 * 1024
  const UINT64_RANGE := 0x1_0000_0000_0000_0000

  const EMPTY := Ledger([], 0, 0)

  /** `canonicalPhase`. */
  predicate CanonicalPhase(name: string) {
    1 <= |name| <= 64 && forall i :: 0 <= i < |name| ==>
        'a' <= name[i] <= 'z' || '0' <= name[i] <= '9' || name[i] == '-'
  }

  /** The bounds that a retention run accepts. */
  predicate BoundsOk(b: Bounds) {
    1 <= b.files <= MAX_FILES && 1 <= b.bytes <= MAX_BYTES
  }

  function TotalFiles(phases: seq<Phase>): nat {
    if phases == [] then 0 else TotalFiles(phases[..|phases| - 1]) + phases[|phases| - 1].files
  }

  function TotalBytes(phases: seq<Phase>): nat {
    if phases == [] then 0 else TotalBytes(phases[..|phases| - 1]) + phases[|phases| - 1].bytes
  }

  function Names(phases: seq<Phase>): set<string> {
    set p | p in phases :: p.name
  }

  predicate DistinctNames(phases: seq<Phase>) {
    forall i, j :: 0 <= i < j < |phases| ==> phases[i].name != phases[j].name
  }

  /** Names are canonical and unique, each phase retained something, and the totals are
      the sums over the phases and stay within the bounds. */
  predicate Balanced(l: Ledger, b: Bounds) {
    && (forall p :: p in l.phases ==> CanonicalPhase(p.name) && p.files >= 1)
    && DistinctNames(l.phases)
    && l.files == TotalFiles(l.phases) <= b.files
    && l.bytes == TotalBytes(l.phases) <= b.bytes
  }

  function Add(l: Ledger, p: Phase): Ledger {
    Ledger(l.phases + [p], l.files + p.files, l.bytes + p.bytes)
  }

  lemma AddBalanced(l: Ledger, p: Phase, b: Bounds)
    requires Balanced(l, b) && CanonicalPhase(p.name) && p.files >= 1
    requires p.name !in Names(l.phases)
    requires l.files + p.files <= b.files && l.bytes + p.bytes <= b.bytes
    ensures Balanced(Add(l, p), b) && Names(Add(l, p).phases) == Names(l.phases) + {p.name}
  {
    hide CanonicalPhase;
    AddDistinct(l.phases, p);
    var longer := l.phases + [p];
    assert longer[..|longer| - 1] == l.phases;
    hide DistinctNames, Names;
  }

  lemma AddDistinct(phases: seq<Phase>, p: Phase)
    requires DistinctNames(phases) && p.name !in Names(phases)
    ensures DistinctNames(phases + [p]) && Names(phases + [p]) == Names(phases) + {p.name}
  {
    assert forall i :: 0 <= i < |phases| ==> phases[i].name in Names(phases);
  }

  // ---------- text ----------

  datatype Label = Format | Status | FileBound | ByteBound | Files | Total | Terminal

  function LedgerName(): string {
    "fe2o3-static-host-lld-" + "global-retention-ledger-v1"
  }

  function LabelText(tag: Label): string {
    match tag
    case Format => "FORMAT=" + LedgerName()
    case Status => "STATUS=global-precopy-budget-accounting"
    case FileBound => "GLOBAL_FILE_BOUND="
    case ByteBound => "GLOBAL_BYTE_BOUND="
    case Files => "FILES="
    case Total => "TOTAL_BYTES="
    case Terminal => "TERMINAL=" + LedgerName() + "-end"
  }

  function HeadLines(b: Bounds): seq<string> {
    [LabelText(Format), LabelText(Status), LabelText(FileBound) + Decimal(b.files),
        LabelText(ByteBound) + Decimal(b.bytes)]
  }

  function PhaseLine(p: Phase): string {
    Join(["P", p.name, Decimal(p.files), Decimal(p.bytes)], '\t')
  }

  function PhaseLines(phases: seq<Phase>): seq<string> {
    seq(|phases|, i requires 0 <= i < |phases| => PhaseLine(phases[i]))
  }

  function TailLines(l: Ledger): seq<string> {
    [LabelText(Files) + Decimal(l.files), LabelText(Total) + Decimal(l.bytes), LabelText(Terminal)]
  }

  function LedgerLines(l: Ledger, b: Bounds): seq<string> {
    HeadLines(b) + PhaseLines(l.phases) + TailLines(l)
  }

  /** `serializeRetentionLedger`. */
  function Serialize(l: Ledger, b: Bounds): string {
    Cat(Terminated, LedgerLines(l, b))
  }

  /** The lines that repeated `getline` yields: a last line may lack its break. */
  function GetLines(s: string): seq<string> {
    var parts := Split(s, '\n');
    if parts[|parts| - 1] == "" then parts[..|parts| - 1] else parts
  }

  lemma GetLinesReads(lines: seq<string>)
    requires lines != [] && forall l :: l in lines ==> Clean(l, '\n')
    ensures GetLines(Cat(Terminated, lines)) == lines
  {
    LinesJoin(lines);
    var closed := lines + [""];
    JoinLast(lines, '\n');
    SplitJoin(closed, '\n');
    assert closed[..|closed| - 1] == lines;
  }

  lemma {:induction false} JoinLast(parts: seq<string>, sep: char)
    requires parts != []
    ensures Join(parts + [""], sep) == Join(parts, sep) + [sep]
  {
    var closed := parts + [""];
    if |parts| == 1 {
      assert closed[1..] == [""];
      assert Join(closed, sep) == parts[0] + [sep] + "";
    } else {
      assert closed[1..] == parts[1..] + [""];
      JoinLast(parts[1..], sep);
      var rest := Join(parts[1..], sep);
      assert parts[0] + [sep] + (rest + [sep]) == parts[0] + [sep] + rest + [sep];
    }
  }

  // ---------- lines hold no break, fields no tab ----------

  predicate Bare(s: string) {
    forall i :: 0 <= i < |s| ==> s[i] != '\t' && s[i] != '\n'
  }

  lemma BareClean(s: string)
    requires Bare(s)
    ensures Clean(s, '\t') && Clean(s, '\n')
  {
  }

  lemma DecimalBare(n: nat)
    ensures Bare(Decimal(n)) && Decimal(n) != ""
  {
    DecimalReads(n);
  }

  lemma NameBare(name: string)
    requires CanonicalPhase(name)
    ensures Bare(name)
  {
  }

  lemma BareConcat(a: string, b: string)
    requires Bare(a) && Bare(b)
    ensures Bare(a + b)
  {
  }

  lemma NamePartsBare()
    ensures Bare("fe2o3-static-host-lld-") && Bare("global-retention-ledger-v1")
    ensures Bare("FORMAT=") && Bare("TERMINAL=") && Bare("-end")
  {
  }

  lemma LongLabelsBare()
    ensures Bare(LabelText(Format)) && Bare(LabelText(Terminal))
  {
    NamePartsBare();
    hide Bare;
    BareConcat("fe2o3-static-host-lld-", "global-retention-ledger-v1");
    BareConcat("FORMAT=", LedgerName());
    BareConcat("TERMINAL=", LedgerName());
    BareConcat("TERMINAL=" + LedgerName(), "-end");
  }

  lemma StatusBare()
    ensures Bare("STATUS=global-precopy-budget-accounting")
  {
  }

  lemma ShortBare()
    ensures Bare("GLOBAL_FILE_BOUND=") && Bare("GLOBAL_BYTE_BOUND=") && Bare("FILES=") && Bare("TOTAL_BYTES=")
  {
  }

  lemma LabelBare(tag: Label, n: nat)
    ensures Clean(LabelText(tag), '\n') && Clean(LabelText(tag) + Decimal(n), '\n')
  {
    DecimalBare(n);
    BareClean(Decimal(n));
    LongLabelsBare();
    StatusBare();
    ShortBare();
    hide Bare, Decimal, LedgerName;
    BareClean(LabelText(tag));
  }

  function PhaseFields(p: Phase): seq<string> {
    ["P", p.name, Decimal(p.files), Decimal(p.bytes)]
  }

  lemma PhaseLineReads(p: Phase)
    requires CanonicalPhase(p.name)
    ensures Split(PhaseLine(p), '\t') == PhaseFields(p) && Clean(PhaseLine(p), '\n')
    ensures |PhaseLine(p)| >= 2 && PhaseLine(p)[..2] == "P\t"
  {
    DecimalBare(p.files);
    DecimalBare(p.bytes);
    NameBare(p.name);
    BareClean(Decimal(p.files));
    BareClean(Decimal(p.bytes));
    BareClean(p.name);
    hide Decimal, CanonicalPhase, Bare;
    var fields := PhaseFields(p);
    forall f | f in fields ensures Clean(f, '\t') && Clean(f, '\n') {
      assert f == fields[0] || f == fields[1] || f == fields[2] || f == fields[3];
    }
    SplitJoin(fields, '\t');
    JoinKeepsClean(fields, '\t', '\n');
    assert PhaseLine(p) == "P" + ['\t'] + Join(fields[1..], '\t');
  }

  lemma {:induction false} JoinKeepsClean(parts: seq<string>, sep: char, c: char)
    requires parts != [] && sep != c && forall p :: p in parts ==> Clean(p, c)
    ensures Clean(Join(parts, sep), c)
  {
    assert Clean(parts[0], c);
    if |parts| > 1 { JoinKeepsClean(parts[1..], sep, c); }
  }

  lemma LinesClean(l: Ledger, b: Bounds)
    requires forall p :: p in l.phases ==> CanonicalPhase(p.name)
    ensures forall line :: line in LedgerLines(l, b) ==> Clean(line, '\n')
  {
    LabelBare(Format, 0);
    LabelBare(Status, 0);
    LabelBare(FileBound, b.files);
    LabelBare(ByteBound, b.bytes);
    LabelBare(Files, l.files);
    LabelBare(Total, l.bytes);
    LabelBare(Terminal, 0);
    hide LabelText, Decimal, PhaseLine, CanonicalPhase, Clean;
    var head, rows, tail := HeadLines(b), PhaseLines(l.phases), TailLines(l);
    forall i | 0 <= i < |rows| ensures Clean(rows[i], '\n') { PhaseLineReads(l.phases[i]); }
    forall line | line in head ensures Clean(line, '\n') {
      assert line == head[0] || line == head[1] || line == head[2] || line == head[3];
    }
    forall line | line in tail ensures Clean(line, '\n') {
      assert line == tail[0] || line == tail[1] || line == tail[2];
    }
  }

  lemma SerializeReads(l: Ledger, b: Bounds)
    requires forall p :: p in l.phases ==> CanonicalPhase(p.name)
    ensures GetLines(Serialize(l, b)) == LedgerLines(l, b) && Serialize(l, b) != ""
  {
    LinesClean(l, b);
    hide CanonicalPhase, HeadLines, TailLines, PhaseLine;
    assert |HeadLines(b)| == 4 by { HeadSize(b); }
    GetLinesReads(LedgerLines(l, b));
  }

  lemma HeadSize(b: Bounds)
    ensures |HeadLines(b)| == 4
  {
  }

  // ---------- the parser ----------

  /** `parseUnsigned`: any digits, leading zeros included, below 2^64. */
  function ParseUnsigned(s: string): Option<nat> {
    if s != "" && AllDigits(s) && Number(s) < UINT64_RANGE then Some(Number(s)) else None
  }

  lemma UnsignedReads(n: nat)
    requires n < UINT64_RANGE
    ensures ParseUnsigned(Decimal(n)) == Some(n)
  {
    DecimalReads(n);
  }

  /** A phase that may follow the ones already read. */
  predicate Fits(p: Phase, seen: set<string>, files: nat, bytes: nat, b: Bounds) {
    CanonicalPhase(p.name) && p.name !in seen && p.files >= 1 && files + p.files <= b.files &&
        bytes + p.bytes <= b.bytes
  }

  /** One phase row. What it accepts fits, and the row of a phase that fits gives that
      phase. The subtractions from the bounds do not wrap. */
  method ParsePhase(line: string, seen: set<string>, files: nat, bytes: nat, b: Bounds) returns (r: Option<Phase>)
    requires files <= b.files < UINT64_RANGE && bytes <= b.bytes < UINT64_RANGE
    ensures r.Some? ==> Fits(r.value, seen, files, bytes, b)
    ensures forall p :: Fits(p, seen, files, bytes, b) && line == PhaseLine(p) ==> r == Some(p)
  {
    hide CanonicalPhase, PhaseLine, ParseUnsigned, Decimal;
    var fields := Split(line, '\t');
    forall p | Fits(p, seen, files, bytes, b) && line == PhaseLine(p)
      ensures |fields| == 4 && fields[0] == "P" && fields[1] == p.name
      ensures ParseUnsigned(fields[2]) == Some(p.files) && ParseUnsigned(fields[3]) == Some(p.bytes)
    {
      PhaseLineReads(p);
      UnsignedReads(p.files);
      UnsignedReads(p.bytes);
    }
    if |fields| != 4 || fields[0] != "P" || !CanonicalPhase(fields[1]) || fields[1] in seen { return None; }
    var phaseFiles := ParseUnsigned(fields[2]);
    if phaseFiles.None? { return None; }
    var phaseBytes := ParseUnsigned(fields[3]);
    if phaseBytes.None? { return None; }
    if phaseFiles.value == 0 || phaseFiles.value > b.files - files || phaseBytes.value > b.bytes - bytes {
      return None;
    }
    return Some(Phase(fields[1], phaseFiles.value, phaseBytes.value));
  }

  /** Where the lines of a ledger stand. */
  ghost predicate Layout(lines: seq<string>, l: Ledger, b: Bounds) {
    && |lines| == |l.phases| + 7
    && lines[..4] == HeadLines(b)
    && (forall i :: 0 <= i < |l.phases| ==> lines[i + 4] == PhaseLine(l.phases[i]))
    && lines[|l.phases| + 4..] == TailLines(l)
  }

  lemma LinesLaidOut(l: Ledger, b: Bounds)
    ensures Layout(LedgerLines(l, b), l, b)
  {
    HeadSize(b);
    TailSize(l);
    hide HeadLines, TailLines, PhaseLine;
  }

  lemma TailSize(l: Ledger)
    ensures |TailLines(l)| == 3
  {
  }

  lemma TailStart(l: Ledger)
    ensures |TailLines(l)| == 3 && TailLines(l)[0] != "" && TailLines(l)[0][0] == 'F'
  {
  }

  /** A prefix of the phases leaves room for the next one. */
  lemma NextFits(l: Ledger, i: nat, b: Bounds)
    requires Balanced(l, b) && i < |l.phases|
    ensures Fits(l.phases[i], Names(l.phases[..i]), TotalFiles(l.phases[..i]), TotalBytes(l.phases[..i]), b)
  {
    hide CanonicalPhase;
    assert l.phases[i] in l.phases;
    var shorter := l.phases[..i + 1];
    assert shorter[..i] == l.phases[..i] && shorter[i] == l.phases[i];
    PrefixTotals(l.phases, i + 1);
    assert forall k :: 0 <= k < i ==> l.phases[..i][k] == l.phases[k];
  }

  lemma {:induction false} PrefixTotals(phases: seq<Phase>, k: nat)
    requires k <= |phases|
    ensures TotalFiles(phases[..k]) <= TotalFiles(phases) && TotalBytes(phases[..k]) <= TotalBytes(phases)
    decreases |phases|
  {
    if k < |phases| {
      PrefixTotals(phases[..|phases| - 1], k);
      assert phases[..|phases| - 1][..k] == phases[..k];
    } else {
      assert phases[..k] == phases;
    }
  }

  /** The phase rows, from the fifth line on. */
  method ParsePhases(lines: seq<string>, b: Bounds, ghost goal: Option<Ledger>) returns (r: Option<(Ledger, nat)>)
    requires b.files < UINT64_RANGE && b.bytes < UINT64_RANGE
    requires goal.Some? ==> Layout(lines, goal.value, b) && Balanced(goal.value, b)
    ensures r.Some? ==> Balanced(r.value.0, b) && 4 <= r.value.1 < |lines|
    ensures goal.Some? ==> r == Some((goal.value, 4 + |goal.value.phases|))
  {
    hide Balanced, PhaseLine, HeadLines, TailLines, Fits, TotalFiles, TotalBytes, Names;
    var result, seen: set<string>, position := EMPTY, {}, 4;
    EmptyBalanced(b);
    if |lines| <= 4 { return None; }
    while |lines[position]| >= 2 && lines[position][..2] == "P\t"
      invariant 4 <= position < |lines| && position == 4 + |result.phases|
      invariant Balanced(result, b) && seen == Names(result.phases)
      invariant goal.Some? ==> position <= 4 + |goal.value.phases| && result.phases == goal.value.phases[..position - 4]
      decreases |lines| - position
    {
      BalancedTotals(result, b);
      if goal.Some? {
        AtPhase(lines, goal.value, b, position - 4);
        NextFits(goal.value, position - 4, b);
      }
      var phase := ParsePhase(lines[position], seen, result.files, result.bytes, b);
      if phase.None? { return None; }
      AddFits(result, phase.value, b);
      if goal.Some? {
        assert goal.value.phases[..position - 3] == goal.value.phases[..position - 4] + [phase.value];
      }
      result := Add(result, phase.value);
      seen := seen + {phase.value.name};
      position := position + 1;
      if position >= |lines| { return None; }
    }
    if goal.Some? {
      AtEnd(lines, goal.value, b, position - 4);
      assert goal.value.phases[..position - 4] == goal.value.phases;
      SameLedger(result, goal.value, b);
    }
    return Some((result, position));
  }

  lemma EmptyBalanced(b: Bounds)
    ensures Balanced(EMPTY, b) && Names(EMPTY.phases) == {}
  {
  }

  lemma BalancedTotals(l: Ledger, b: Bounds)
    requires Balanced(l, b)
    ensures l.files == TotalFiles(l.phases) <= b.files && l.bytes == TotalBytes(l.phases) <= b.bytes
  {
  }

  lemma SameLedger(l: Ledger, m: Ledger, b: Bounds)
    requires Balanced(l, b) && Balanced(m, b) && l.phases == m.phases
    ensures l == m
  {
  }

  lemma AddFits(l: Ledger, p: Phase, b: Bounds)
    requires Balanced(l, b) && Fits(p, Names(l.phases), l.files, l.bytes, b)
    ensures Balanced(Add(l, p), b) && Names(Add(l, p).phases) == Names(l.phases) + {p.name}
  {
    AddBalanced(l, p, b);
  }

  /** A line that looks like a phase row is one. */
  lemma AtPhase(lines: seq<string>, l: Ledger, b: Bounds, i: nat)
    requires Layout(lines, l, b) && i <= |l.phases|
    requires |lines[i + 4]| >= 2 && lines[i + 4][..2] == "P\t"
    ensures i < |l.phases| && lines[i + 4] == PhaseLine(l.phases[i])
  {
    TailStart(l);
    hide HeadLines, TailLines, PhaseLine;
    assert lines[i + 4][0] == lines[i + 4][..2][0];
    assert lines[|l.phases| + 4..][0] == lines[|l.phases| + 4];
  }

  /** A line that does not is past the last one. */
  lemma AtEnd(lines: seq<string>, l: Ledger, b: Bounds, i: nat)
    requires Layout(lines, l, b) && Balanced(l, b) && i <= |l.phases|
    requires !(|lines[i + 4]| >= 2 && lines[i + 4][..2] == "P\t")
    ensures i == |l.phases|
  {
    hide HeadLines, TailLines, PhaseLine, CanonicalPhase;
    if i < |l.phases| { PhaseLineReads(l.phases[i]); }
  }

  /** `parseRetentionLedger`: what it accepts is balanced, and it reads back what was
      serialized from a balanced ledger. */
  method ParseLedger(content: string, b: Bounds) returns (r: Option<Ledger>)
    requires b.files < UINT64_RANGE && b.bytes < UINT64_RANGE
    ensures r.Some? ==> Balanced(r.value, b)
    ensures content == "" ==> r == Some(EMPTY)
    ensures forall l :: Balanced(l, b) && content == Serialize(l, b) ==> r == Some(l)
  {
    hide Balanced, Serialize, Layout, HeadLines, TailLines, GetLines;
    EmptyBalanced(b);
    if content == "" {
      forall l | Balanced(l, b) && content == Serialize(l, b) ensures false { BalancedReads(l, b); }
      return Some(EMPTY);
    }
    ghost var goal: Option<Ledger> := None;
    if l :| Balanced(l, b) && content == Serialize(l, b) {
      goal := Some(l);
    }
    forall l | Balanced(l, b) && content == Serialize(l, b)
      ensures Layout(GetLines(content), l, b) && goal == Some(l)
    {
      BalancedReads(l, b);
      BalancedReads(goal.value, b);
      LayoutUnique(GetLines(content), l, goal.value, b);
    }
    var lines := GetLines(content);
    HeadSize(b);
    if goal.Some? { LayoutParts(lines, goal.value, b); }
    if |lines| < 4 || lines[..4] != HeadLines(b) { return None; }
    var read := ParsePhases(lines, b, goal);
    if read.None? { return None; }
    var (result, position) := read.value;
    if lines[position..] != TailLines(result) { return None; }
    return Some(result);
  }

  lemma BalancedReads(l: Ledger, b: Bounds)
    requires Balanced(l, b)
    ensures Serialize(l, b) != "" && Layout(GetLines(Serialize(l, b)), l, b)
  {
    hide CanonicalPhase, LedgerLines, Layout, Serialize, GetLines;
    SerializeReads(l, b);
    LinesLaidOut(l, b);
  }

  lemma LayoutParts(lines: seq<string>, l: Ledger, b: Bounds)
    requires Layout(lines, l, b)
    ensures |lines| == |l.phases| + 7 && lines[..4] == HeadLines(b) && lines[|l.phases| + 4..] == TailLines(l)
  {
  }

  lemma LayoutUnique(lines: seq<string>, l: Ledger, m: Ledger, b: Bounds)
    requires Layout(lines, l, b) && Layout(lines, m, b) && Balanced(l, b) && Balanced(m, b)
    ensures l == m
  {
    hide HeadLines, TailLines, PhaseLine, CanonicalPhase;
    forall i | 0 <= i < |l.phases| ensures l.phases[i] == m.phases[i] {
      assert lines[i + 4] == PhaseLine(l.phases[i]) == PhaseLine(m.phases[i]);
      assert l.phases[i] in l.phases && m.phases[i] in m.phases;
      PhaseLineInjective(l.phases[i], m.phases[i]);
    }
    assert l.phases == m.phases;
  }

  lemma PhaseLineInjective(p: Phase, q: Phase)
    requires CanonicalPhase(p.name) && CanonicalPhase(q.name) && PhaseLine(p) == PhaseLine(q)
    ensures p == q
  {
    hide CanonicalPhase, PhaseLine, Decimal;
    PhaseLineReads(p);
    PhaseLineReads(q);
    assert PhaseFields(p)[1] == PhaseFields(q)[1] && PhaseFields(p)[2] == PhaseFields(q)[2] &&
           PhaseFields(p)[3] == PhaseFields(q)[3];
    DecimalInjective(p.files, q.files);
    DecimalInjective(p.bytes, q.bytes);
  }

  // ---------- the text stays small ----------

  lemma SmallWidths(files: nat, bytes: nat)
    requires files <= MAX_FILES && bytes <= MAX_BYTES
    ensures |Decimal(files)| <= 5 && |Decimal(bytes)| <= 9
  {
    assert Power10(5) == 100000 by { assert Power10(3) == 1000; }
    assert Power10(9) == 1000000000 by { assert Power10(5) == 100000; assert Power10(7) == 10000000; }
    DecimalWidth(files, 5);
    DecimalWidth(bytes, 9);
  }

  lemma PhaseWidth(p: Phase)
    requires CanonicalPhase(p.name) && p.files <= MAX_FILES && p.bytes <= MAX_BYTES
    ensures |PhaseLine(p)| < 83
  {
    SmallWidths(p.files, p.bytes);
    hide Decimal, CanonicalPhase;
    JoinFour("P", p.name, Decimal(p.files), Decimal(p.bytes));
    assert |p.name| <= 64 by { NameWidth(p.name); }
  }

  lemma JoinFour(a: string, b: string, c: string, d: string)
    ensures |Join([a, b, c, d], '\t')| == |a| + |b| + |c| + |d| + 3
  {
    var s := [a, b, c, d];
    assert s[1..] == [b, c, d];
    JoinThree(b, c, d);
  }

  lemma JoinThree(b: string, c: string, d: string)
    ensures |Join([b, c, d], '\t')| == |b| + |c| + |d| + 2
  {
    var s, t := [b, c, d], [c, d];
    assert s[1..] == t;
    assert t[1..] == [d];
    assert Join([d], '\t') == d;
    assert |Join(t, '\t')| == |c| + 1 + |d|;
  }

  lemma NameWidth(name: string)
    requires CanonicalPhase(name)
    ensures |name| <= 64
  {
  }

  lemma {:induction false} CountBelowFiles(phases: seq<Phase>)
    requires forall p :: p in phases ==> p.files >= 1
    ensures |phases| <= TotalFiles(phases)
  {
    if phases != [] { CountBelowFiles(phases[..|phases| - 1]); }
  }

  lemma {:induction false} PhaseBelowTotals(phases: seq<Phase>, i: nat)
    requires i < |phases|
    ensures phases[i].files <= TotalFiles(phases) && phases[i].bytes <= TotalBytes(phases)
    decreases |phases|
  {
    if i < |phases| - 1 { PhaseBelowTotals(phases[..|phases| - 1], i); }
  }

  lemma LabelWidth(tag: Label)
    ensures |LabelText(tag)| <= 65
  {
  }

  /** Every balanced ledger serializes to far less than the reread limit. */
  lemma SerializedSize(l: Ledger, b: Bounds)
    requires Balanced(l, b) && BoundsOk(b)
    ensures |Serialize(l, b)| <= 83 * (MAX_FILES + 7) < MAX_TEXT
  {
    var lines := LedgerLines(l, b);
    HeadSize(b);
    TailSize(l);
    CountBelowFiles(l.phases);
    SmallWidths(b.files, b.bytes);
    SmallWidths(l.files, l.bytes);
    HeadWidths(b);
    TailWidths(l);
    hide HeadLines, TailLines, PhaseLine, CanonicalPhase, Decimal, TotalFiles, TotalBytes;
    forall i | 0 <= i < |l.phases| ensures |PhaseLines(l.phases)[i]| < 83 {
      PhaseBelowTotals(l.phases, i);
      PhaseWidth(l.phases[i]);
    }
    LengthsBound(lines, 83);
    CatLength(lines);
  }

  lemma HeadWidths(b: Bounds)
    requires |Decimal(b.files)| <= 5 && |Decimal(b.bytes)| <= 9
    ensures forall line :: line in HeadLines(b) ==> |line| < 83
  {
    LabelWidth(Format);
    LabelWidth(Status);
    LabelWidth(FileBound);
    LabelWidth(ByteBound);
    hide LabelText, Decimal;
    var s := HeadLines(b);
    forall line | line in s ensures |line| < 83 { assert line == s[0] || line == s[1] || line == s[2] || line == s[3]; }
  }

  lemma TailWidths(l: Ledger)
    requires |Decimal(l.files)| <= 5 && |Decimal(l.bytes)| <= 9
    ensures forall line :: line in TailLines(l) ==> |line| < 83
  {
    LabelWidth(Files);
    LabelWidth(Total);
    LabelWidth(Terminal);
    hide LabelText, Decimal;
    var s := TailLines(l);
    forall line | line in s ensures |line| < 83 { assert line == s[0] || line == s[1] || line == s[2]; }
  }

  // ---------- the ledger file over many runs ----------

  class LedgerFile {
    const bounds: Bounds
    var content: string
    ghost var ledger: Ledger  // what the completed runs have retained

    /** The file holds exactly the text of a balanced ledger, or nothing yet; so it can
        be reread and parses to that ledger. */
    ghost predicate Valid()
      reads this
    {
      && BoundsOk(bounds) && Balanced(ledger, bounds)
      && (content == Serialize(ledger, bounds) || (content == "" && ledger == EMPTY))
    }

    constructor (bounds: Bounds)
      requires BoundsOk(bounds)
      ensures Valid() && this.bounds == bounds && ledger == EMPTY
    {
      this.bounds, content, ledger := bounds, "", EMPTY;
      EmptyBalanced(bounds);
    }

    /** The budget step of `retainMain` for a phase with its checked files: accepted
        exactly when the name is canonical and new and the totals stay within the
        bounds. A refused step leaves the file as it was. */
    method Retain(phase: string, files: nat, bytes: nat) returns (ok: bool)
      requires Valid() && files >= 1
      modifies this
      ensures Valid()
      ensures ok <==>
        && CanonicalPhase(phase) && phase !in Names(old(ledger).phases)
        && old(ledger).files + files <= bounds.files && old(ledger).bytes + bytes <= bounds.bytes
      ensures ledger == if ok then Add(old(ledger), Phase(phase, files, bytes)) else old(ledger)
      ensures !ok ==> content == old(content)
      ensures |content| < MAX_TEXT
    {
      hide Balanced, Serialize, CanonicalPhase;
      SerializedSize(ledger, bounds);
      if !CanonicalPhase(phase) { return false; }
      if |content| > MAX_TEXT { return false; }
      var read := ParseLedger(content, bounds);
      if read.None? { assert false; }
      var retention := read.value;
      BalancedTotals(retention, bounds);
      if exists p :: p in retention.phases && p.name == phase { return false; }
      if files > bounds.files - retention.files || bytes > bounds.bytes - retention.bytes { return false; }
      AddBalanced(retention, Phase(phase, files, bytes), bounds);
      retention := Add(retention, Phase(phase, files, bytes));
      content := Serialize(retention, bounds);
      ledger := retention;
      SerializedSize(ledger, bounds);
      return true;
    }
  }
}
