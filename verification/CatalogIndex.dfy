/** The printed catalog and the byte ranges of its elements. */
module CatalogIndex {
  import opened Cats
  import opened Text
  import opened Catalog
  import opened Wrappers

  const MAX_OUTPUT := 8 * 1024 * 1024

  // ---------- the JSON text of a compact tree ----------

  function Json(c: Compact): string {
    "[" + Decimal(c.tag) + "," + Ids(c.attrs) + "," + Decimal(c.text) + "," + Nodes(c.children) + "]"
  }

  function Ids(ids: seq<nat>): string { "[" + IdsBody(ids) }

  function IdsBody(ids: seq<nat>): string {
    if ids == [] then "]" else Decimal(ids[0]) + MoreIds(ids[1..])
  }

  function MoreIds(ids: seq<nat>): string {
    if ids == [] then "]" else "," + Decimal(ids[0]) + MoreIds(ids[1..])
  }

  function Nodes(cs: seq<Compact>): string
    decreases cs, 1
  {
    "[" + NodesBody(cs)
  }

  function NodesBody(cs: seq<Compact>): string
    decreases cs, 0
  {
    if cs == [] then "]" else Json(cs[0]) + MoreNodes(cs[1..])
  }

  function MoreNodes(cs: seq<Compact>): string
    decreases cs, 0
  {
    if cs == [] then "]" else "," + Json(cs[0]) + MoreNodes(cs[1..])
  }

  // ---------- the text determines the tree ----------

  predicate Stops(s: string) { s != "" && !IsDigit(s[0]) }

  lemma DecimalPrefix(a: nat, b: nat, x: string, y: string)
    requires Stops(x) && Stops(y) && Decimal(a) + x == Decimal(b) + y
    ensures a == b && x == y
  {
    var s, t := Decimal(a), Decimal(b);
    DecimalReads(a);
    DecimalReads(b);
    hide Decimal;
    RunOfDigits(s, x);
    RunOfDigits(t, y);
    assert s == (s + x)[..|s|] == t && x == (s + x)[|s|..] == y;
  }

  lemma Cut(c: string, a: string, b: string)
    requires c + a == c + b
    ensures a == b
  {
    assert a == (c + a)[|c|..] == (c + b)[|c|..] == b;
  }

  lemma MoreIdsStops(ids: seq<nat>, x: string)
    ensures Stops(MoreIds(ids) + x)
  {
  }

  lemma {:induction false} MoreIdsPrefix(a: seq<nat>, b: seq<nat>, x: string, y: string)
    requires MoreIds(a) + x == MoreIds(b) + y
    ensures a == b && x == y
  {
    if a == [] || b == [] {
      assert (MoreIds(a) + x)[0] == (if a == [] then ']' else ',');
      assert (MoreIds(b) + y)[0] == (if b == [] then ']' else ',');
      Cut("]", x, y);
    } else {
      var p, q := MoreIds(a[1..]) + x, MoreIds(b[1..]) + y;
      assert MoreIds(a) + x == "," + (Decimal(a[0]) + p) && MoreIds(b) + y == "," + (Decimal(b[0]) + q);
      Cut(",", Decimal(a[0]) + p, Decimal(b[0]) + q);
      MoreIdsStops(a[1..], x);
      MoreIdsStops(b[1..], y);
      DecimalPrefix(a[0], b[0], p, q);
      MoreIdsPrefix(a[1..], b[1..], x, y);
      assert a == [a[0]] + a[1..] && b == [b[0]] + b[1..];
    }
  }

  lemma Head(a: string, x: string)
    requires a != ""
    ensures (a + x)[0] == a[0]
  {
  }

  lemma IdsWrap(ids: seq<nat>, x: string)
    ensures Ids(ids) + x == "[" + (IdsBody(ids) + x)
    ensures IdsBody([]) == "]"
    ensures ids != [] ==> IdsBody(ids) + x == Decimal(ids[0]) + (MoreIds(ids[1..]) + x)
  {
    hide Decimal, MoreIds;
    Associative("[", IdsBody(ids), x);
    if ids != [] { Associative(Decimal(ids[0]), MoreIds(ids[1..]), x); }
  }

  lemma IdsBodyFirst(ids: seq<nat>, x: string)
    ensures IdsBody(ids) != "" && (IdsBody(ids) + x)[0] == IdsBody(ids)[0]
    ensures IdsBody(ids)[0] == ']' <==> ids == []
  {
    if ids != [] {
      DecimalReads(ids[0]);
      hide Decimal, MoreIds;
      Head(Decimal(ids[0]), MoreIds(ids[1..]));
    }
    Head(IdsBody(ids), x);
  }

  lemma IdsPrefix(a: seq<nat>, b: seq<nat>, x: string, y: string)
    requires Ids(a) + x == Ids(b) + y
    ensures a == b && x == y
  {
    hide Ids, IdsBody, MoreIds, Decimal;
    IdsWrap(a, x);
    IdsWrap(b, y);
    IdsBodyFirst(a, x);
    IdsBodyFirst(b, y);
    Cut("[", IdsBody(a) + x, IdsBody(b) + y);
    if a == [] {
      Cut("]", x, y);
    } else {
      MoreIdsStops(a[1..], x);
      MoreIdsStops(b[1..], y);
      DecimalPrefix(a[0], b[0], MoreIds(a[1..]) + x, MoreIds(b[1..]) + y);
      MoreIdsPrefix(a[1..], b[1..], x, y);
      assert a == [a[0]] + a[1..] && b == [b[0]] + b[1..];
    }
  }

  lemma JsonUnfold(c: Compact, x: string)
    ensures Json(c) + x ==
      "[" + (Decimal(c.tag) + ("," + (Ids(c.attrs) + ("," +
      (Decimal(c.text) + ("," + (Nodes(c.children) + ("]" + x))))))))
    ensures Json(c) != "" && Json(c)[0] == '['
  {
    hide Decimal, Ids, Nodes;
  }

  /** The text of a tree ends where it must: it determines the tree and what follows. */
  lemma {:induction false} JsonPrefix(c: Compact, d: Compact, x: string, y: string)
    requires Json(c) + x == Json(d) + y
    ensures c == d && x == y
    decreases c
  {
    JsonUnfold(c, x);
    JsonUnfold(d, y);
    var c1, d1 := "]" + x, "]" + y;
    var c2, d2 := Nodes(c.children) + c1, Nodes(d.children) + d1;
    var c3, d3 := "," + c2, "," + d2;
    var c4, d4 := Decimal(c.text) + c3, Decimal(d.text) + d3;
    var c5, d5 := "," + c4, "," + d4;
    var c6, d6 := Ids(c.attrs) + c5, Ids(d.attrs) + d5;
    var c7, d7 := "," + c6, "," + d6;
    hide Decimal, Ids, Nodes, Json;
    Cut("[", Decimal(c.tag) + c7, Decimal(d.tag) + d7);
    DecimalPrefix(c.tag, d.tag, c7, d7);
    Cut(",", c6, d6);
    IdsPrefix(c.attrs, d.attrs, c5, d5);
    Cut(",", c4, d4);
    DecimalPrefix(c.text, d.text, c3, d3);
    Cut(",", c2, d2);
    NodesPrefix(c.children, d.children, c1, d1);
    Cut("]", x, y);
  }

  lemma NodesWrap(cs: seq<Compact>, x: string)
    ensures Nodes(cs) + x == "[" + (NodesBody(cs) + x)
    ensures NodesBody([]) == "]"
    ensures cs != [] ==> NodesBody(cs) + x == Json(cs[0]) + (MoreNodes(cs[1..]) + x)
  {
    hide Json, MoreNodes;
    Associative("[", NodesBody(cs), x);
    if cs != [] { Associative(Json(cs[0]), MoreNodes(cs[1..]), x); }
  }

  lemma NodesBodyFirst(cs: seq<Compact>, x: string)
    ensures NodesBody(cs) != "" && (NodesBody(cs) + x)[0] == NodesBody(cs)[0]
    ensures NodesBody(cs)[0] == ']' <==> cs == []
  {
    if cs != [] {
      JsonUnfold(cs[0], "");
      hide Json, MoreNodes;
      Head(Json(cs[0]), MoreNodes(cs[1..]));
    }
    Head(NodesBody(cs), x);
  }

  lemma {:induction false} NodesPrefix(a: seq<Compact>, b: seq<Compact>, x: string, y: string)
    requires Nodes(a) + x == Nodes(b) + y
    ensures a == b && x == y
    decreases a, 1
  {
    hide Nodes, NodesBody, MoreNodes, Json;
    NodesWrap(a, x);
    NodesWrap(b, y);
    NodesBodyFirst(a, x);
    NodesBodyFirst(b, y);
    Cut("[", NodesBody(a) + x, NodesBody(b) + y);
    if a == [] {
      Cut("]", x, y);
    } else {
      JsonPrefix(a[0], b[0], MoreNodes(a[1..]) + x, MoreNodes(b[1..]) + y);
      MoreNodesPrefix(a[1..], b[1..], x, y);
      assert a == [a[0]] + a[1..] && b == [b[0]] + b[1..];
    }
  }

  lemma {:induction false} MoreNodesPrefix(a: seq<Compact>, b: seq<Compact>, x: string, y: string)
    requires MoreNodes(a) + x == MoreNodes(b) + y
    ensures a == b && x == y
    decreases a, 0
  {
    hide Json;
    var s, t := MoreNodes(a) + x, MoreNodes(b) + y;
    if a == [] || b == [] {
      assert s[0] == (if a == [] then ']' else ',');
      assert t[0] == (if b == [] then ']' else ',');
      Cut("]", x, y);
    } else {
      var p, q := MoreNodes(a[1..]) + x, MoreNodes(b[1..]) + y;
      assert s == "," + (Json(a[0]) + p) && t == "," + (Json(b[0]) + q);
      Cut(",", Json(a[0]) + p, Json(b[0]) + q);
      JsonPrefix(a[0], b[0], p, q);
      MoreNodesPrefix(a[1..], b[1..], x, y);
      assert a == [a[0]] + a[1..] && b == [b[0]] + b[1..];
    }
  }

  lemma JsonInjective(c: Compact, d: Compact)
    requires Json(c) == Json(d)
    ensures c == d
  {
    assert Json(c) + "" == Json(d) + "";
    JsonPrefix(c, d, "", "");
  }

  // ---------- ranges ----------

  datatype Entry = Entry(key: string, name: string, node: Node)

  datatype Section = Section(key: string, entries: seq<(string, Node)>)

  /** The entries of the sections, in order. */
  function Entries(sections: seq<Section>): seq<Entry> {
    if sections == [] then [] else Entries(sections[..|sections| - 1]) + EntriesOf(sections[|sections| - 1])
  }

  function EntriesOf(s: Section): seq<Entry> {
    seq(|s.entries|, i requires 0 <= i < |s.entries| => Entry(s.key, s.entries[i].0, s.entries[i].1))
  }

  /** Section and entry names are dictionary keys. */
  ghost predicate Unique(entries: seq<Entry>) {
    forall i, j :: 0 <= i < j < |entries| ==> entries[i].key != entries[j].key || entries[i].name != entries[j].name
  }

  /** Where the text of an entry lies. */
  datatype Span = Span(start: nat, end: nat)

  /** Every span slices the text to the printed form of its entry, and the spans are in
      order with something between them. */
  ghost predicate Placed(bytes: string, spans: seq<Span>, trees: seq<Compact>) {
    && |spans| == |trees|
    && (forall i :: 0 <= i < |spans| ==>
          spans[i].start <= spans[i].end <= |bytes| && bytes[spans[i].start..spans[i].end] == Json(trees[i]))
    && (forall i, j :: 0 <= i < j < |spans| ==> spans[i].end < spans[j].start)
  }

  ghost predicate Ranges(ranges: map<(string, string), (nat, nat)>, spans: seq<Span>, entries: seq<Entry>) {
    && |spans| <= |entries|
    && (forall i :: 0 <= i < |spans| ==>
          (entries[i].key, entries[i].name) in ranges &&
              ranges[(entries[i].key, entries[i].name)] == (spans[i].start, spans[i].end))
    && (forall p :: p in ranges ==> exists i :: 0 <= i < |spans| && p == (entries[i].key, entries[i].name))
  }

  lemma PlacedGrows(bytes: string, raw: string, spans: seq<Span>, trees: seq<Compact>)
    requires Placed(bytes, spans, trees)
    ensures Placed(bytes + raw, spans, trees)
  {
    hide Json;
    forall i | 0 <= i < |spans|
      ensures (bytes + raw)[spans[i].start..spans[i].end] == bytes[spans[i].start..spans[i].end]
    {
    }
  }

  lemma PlacedMore(bytes: string, spans: seq<Span>, trees: seq<Compact>, c: Compact)
    requires Placed(bytes, spans, trees) && forall i :: 0 <= i < |spans| ==> spans[i].end < |bytes|
    ensures Placed(bytes + Json(c), spans + [Span(|bytes|, |bytes + Json(c)|)], trees + [c])
  {
    hide Json;
    PlacedGrows(bytes, Json(c), spans, trees);
    assert (bytes + Json(c))[|bytes|..|bytes + Json(c)|] == Json(c);
  }

  lemma RangesMore(ranges: map<(string, string), (nat, nat)>, spans: seq<Span>, entries: seq<Entry>, span: Span)
    requires Ranges(ranges, spans, entries) && Unique(entries) && |spans| < |entries|
    ensures
      var e := entries[|spans|];
      Ranges(ranges[(e.key, e.name) := (span.start, span.end)], spans + [span], entries)
  {
    var e := entries[|spans|];
    var more := ranges[(e.key, e.name) := (span.start, span.end)];
    var longer := spans + [span];
    forall p | p in more ensures exists i :: 0 <= i < |longer| && p == (entries[i].key, entries[i].name) {
      if p == (e.key, e.name) {
        assert longer[|spans|] == span;
      } else {
        var i :| 0 <= i < |spans| && p == (entries[i].key, entries[i].name);
        assert longer[i] == spans[i];
      }
    }
  }

  /** The variables that `metadata` and its inner function share. */
  class Output {
    var chunks: seq<string>
    var size: nat
    var ranges: map<(string, string), (nat, nat)>
    ghost var spans: seq<Span>
    ghost var trees: seq<Compact>

    constructor ()
      ensures chunks == [] && size == 0 && ranges == map[] && spans == [] && trees == []
    {
      chunks, size, ranges, spans, trees := [], 0, map[], [], [];
    }

    ghost function Bytes(): string
      reads `chunks
    {
      Cat(Catalog.Self, chunks)
    }

    ghost predicate Valid(entries: seq<Entry>)
      reads this
    {
      size == |Bytes()| && Placed(Bytes(), spans, trees) && Ranges(ranges, spans, entries)
    }

    lemma Sizes(entries: seq<Entry>)
      requires Valid(entries)
      ensures |spans| == |trees|
    {
      hide Json;
    }

    /** The last span is followed by something. */
    ghost predicate Clear()
      reads `size, `spans
    {
      forall i :: 0 <= i < |spans| ==> spans[i].end < size
    }

    method Add(raw: string, ghost entries: seq<Entry>)
      requires Valid(entries)
      modifies `chunks, `size
      ensures Valid(entries) && Bytes() == old(Bytes()) + raw && size == old(size) + |raw|
      ensures raw != "" ==> Clear()
    {
      hide Json;
      CatSnoc(Catalog.Self, chunks, raw);
      PlacedGrows(Bytes(), raw, spans, trees);
      chunks := chunks + [raw];
      size := size + |raw|;
    }

    /** An entry, after a comma unless it is the first of its section. */
    method AddItem(comma: bool, key: string, name: string, c: Compact, ghost entries: seq<Entry>)
      requires Valid(entries) && (!comma ==> Clear()) && Unique(entries) && |spans| < |entries|
      requires entries[|spans|].key == key && entries[|spans|].name == name
      modifies this
      ensures Valid(entries) && |spans| == old(|spans|) + 1 && trees == old(trees) + [c]
      ensures Bytes() == (if comma then old(Bytes()) + "," else old(Bytes())) + Json(c)
    {
      hide Json, Cat, Placed, Ranges, Unique;
      if comma { Add(",", entries); }
      AddEntry(key, name, c, entries);
    }

    /** One entry: its text, and the range that holds it. */
    method AddEntry(key: string, name: string, c: Compact, ghost entries: seq<Entry>)
      requires Valid(entries) && Clear() && Unique(entries) && |spans| < |entries|
      requires entries[|spans|].key == key && entries[|spans|].name == name
      modifies this
      ensures Valid(entries) && Bytes() == old(Bytes()) + Json(c)
      ensures |spans| == old(|spans|) + 1 && trees == old(trees) + [c]
    {
      hide Json, Cat, Placed, Ranges, Unique;
      var start := size;
      PlacedMore(Bytes(), spans, trees, c);
      CatSnoc(Catalog.Self, chunks, Json(c));
      chunks := chunks + [Json(c)];
      size := size + |Json(c)|;
      RangesMore(ranges, spans, entries, Span(start, size));
      ranges := ranges[(key, name) := (start, size)];
      spans := spans + [Span(start, size)];
      trees := trees + [c];
    }
  }

  // ---------- the whole text ----------

  function Commas(parts: seq<string>): string { if parts == [] then "" else Join(parts, ',') }

  lemma {:induction false} CommasSnoc(parts: seq<string>, x: string)
    ensures Commas(parts + [x]) == if parts == [] then x else Commas(parts) + "," + x
  {
    if |parts| == 0 {
      assert parts + [x] == [x];
    } else {
      var more := parts + [x];
      assert more[0] == parts[0] && more[1..] == parts[1..] + [x];
      CommasSnoc(parts[1..], x);
      if |parts| > 1 {
        Associative(parts[0] + [','], Join(parts[1..], ',') + ",", x);
        Associative(parts[0] + [','], Join(parts[1..], ','), ",");
      }
    }
  }

  lemma CommasHead(x: string, rest: seq<string>)
    ensures Commas([x] + rest) == x + if rest == [] then "" else "," + Commas(rest)
  {
    if rest == [] {
      assert [x] + rest == [x];
    } else {
      assert ([x] + rest)[1..] == rest;
      Associative(x, ",", Commas(rest));
    }
  }

  function IdTexts(ids: seq<nat>): (texts: seq<string>)
    ensures |texts| == |ids| && forall i :: 0 <= i < |ids| ==> texts[i] == Decimal(ids[i])
  {
    if ids == [] then [] else [Decimal(ids[0])] + IdTexts(ids[1..])
  }

  function NodeTexts(cs: seq<Compact>): (texts: seq<string>)
    ensures |texts| == |cs| && forall i :: 0 <= i < |cs| ==> texts[i] == Json(cs[i])
  {
    if cs == [] then [] else [Json(cs[0])] + NodeTexts(cs[1..])
  }

  lemma {:induction false} IdsAre(ids: seq<nat>)
    ensures IdsBody(ids) == Commas(IdTexts(ids)) + "]"
    ensures MoreIds(ids) == (if ids == [] then "" else "," + Commas(IdTexts(ids))) + "]"
  {
    hide Commas, Decimal;
    if ids == [] {
      NoCommas([]);
    } else {
      IdsAre(ids[1..]);
      CommasHead(Decimal(ids[0]), IdTexts(ids[1..]));
    }
  }

  lemma {:induction false} NodesAre(cs: seq<Compact>)
    ensures NodesBody(cs) == Commas(NodeTexts(cs)) + "]"
    ensures MoreNodes(cs) == (if cs == [] then "" else "," + Commas(NodeTexts(cs))) + "]"
  {
    hide Commas, Json;
    if cs == [] {
      NoCommas([]);
    } else {
      NodesAre(cs[1..]);
      CommasHead(Json(cs[0]), NodeTexts(cs[1..]));
    }
  }

  // A node is the array of its tag number, its attribute numbers, its text number and its children.
  lemma JsonIs(c: Compact)
    ensures Json(c) == "[" + Commas([Decimal(c.tag), "[" + Commas(IdTexts(c.attrs)) + "]",
                                     Decimal(c.text), "[" + Commas(NodeTexts(c.children)) + "]"]) + "]"
  {
    hide Decimal, Commas, IdsBody, NodesBody, IdTexts, NodeTexts;
    IdsAre(c.attrs);
    NodesAre(c.children);
    Associative("[", Commas(IdTexts(c.attrs)), "]");
    Associative("[", Commas(NodeTexts(c.children)), "]");
    FourCommas(Decimal(c.tag), Ids(c.attrs), Decimal(c.text), Nodes(c.children));
  }

  lemma FourCommas(a: string, b: string, c: string, d: string)
    ensures Commas([a, b, c, d]) == a + "," + b + "," + c + "," + d
  {
    hide Commas;
    assert [a, b, c, d] == [a] + [b, c, d] && [b, c, d] == [b] + [c, d] && [c, d] == [c] + [d] && [d] == [d] + [];
    CommasHead(a, [b, c, d]);
    CommasHead(b, [c, d]);
    CommasHead(c, [d]);
    CommasHead(d, []);
  }

  function JsonOf(n: Node, ids: map<string, nat>, strip: string -> string): string {
    match CompactTree(n, ids, strip) case Some(c) => Json(c) case None => ""
  }

  function EntryTexts(s: Section, ids: map<string, nat>, strip: string -> string): (texts: seq<string>)
    ensures |texts| == |s.entries|
  {
    seq(|s.entries|, k requires 0 <= k < |s.entries| => JsonOf(s.entries[k].1, ids, strip))
  }

  function SectionText(s: Section, ids: map<string, nat>, quote: string -> string, strip: string -> string): string {
    quote(s.key) + ":[" + Commas(EntryTexts(s, ids, strip)) + "]"
  }

  function SectionTexts(sections: seq<Section>, ids: map<string, nat>, quote: string -> string,
                        strip: string -> string): (texts: seq<string>)
    ensures |texts| == |sections|
  {
    seq(|sections|, k requires 0 <= k < |sections| => SectionText(sections[k], ids, quote, strip))
  }

  /** The document: the header left open, the sections, and the closing braces. */
  function Document(header: string, sections: seq<Section>, ids: map<string, nat>, quote: string -> string,
                    strip: string -> string): string {
    DropLast(header) + ",\"sections\":{" + Commas(SectionTexts(sections, ids, quote, strip)) + "}}\n"
  }

  function DropLast(s: string): string { if s == "" then "" else s[..|s| - 1] }

  // ---------- metadata ----------

  /** The trees are the compact forms of the first entries. */
  ghost predicate Follows(trees: seq<Compact>, entries: seq<Entry>, ids: map<string, nat>, strip: string -> string) {
    && |trees| <= |entries|
    && forall i :: 0 <= i < |trees| ==> CompactTree(entries[i].node, ids, strip) == Some(trees[i])
  }

  lemma FollowsMore(trees: seq<Compact>, entries: seq<Entry>, ids: map<string, nat>, strip: string -> string,
                    tree: Compact)
    requires Follows(trees, entries, ids, strip) && |trees| < |entries|
    requires CompactTree(entries[|trees|].node, ids, strip) == Some(tree)
    ensures Follows(trees + [tree], entries, ids, strip)
  {
    hide CompactTree;
  }

  /** The entries of the section stand at `n` among all entries. */
  ghost predicate Here(entries: seq<Entry>, n: nat, s: Section) {
    && n + |s.entries| <= |entries|
    && forall k :: 0 <= k < |s.entries| ==> entries[n + k] == Entry(s.key, s.entries[k].0, s.entries[k].1)
  }

  ghost predicate AllCompact(s: Section, ids: map<string, nat>, strip: string -> string) {
    forall k :: 0 <= k < |s.entries| ==> CompactTree(s.entries[k].1, ids, strip).Some?
  }

  lemma EntryHere(entries: seq<Entry>, n: nat, s: Section, ids: map<string, nat>, strip: string -> string, k: nat)
    requires Here(entries, n, s) && AllCompact(s, ids, strip) && k < |s.entries|
    ensures n + k < |entries| && entries[n + k] == Entry(s.key, s.entries[k].0, s.entries[k].1)
    ensures CompactTree(s.entries[k].1, ids, strip).Some?
  {
    hide CompactTree;
  }

  /** The entries of one section, printed with commas between them. */
  method AddSection(out: Output, s: Section, ids: map<string, nat>, strip: string -> string, ghost entries: seq<Entry>)
    requires out.Valid(entries) && out.Clear() && Unique(entries) && Follows(out.trees, entries, ids, strip)
    requires Here(entries, |out.spans|, s) && AllCompact(s, ids, strip)
    modifies out
    ensures out.Valid(entries) && |out.spans| == old(|out.spans|) + |s.entries| &&
            Follows(out.trees, entries, ids, strip)
    ensures out.Bytes() == old(out.Bytes()) + Commas(EntryTexts(s, ids, strip))
  {
    hide CompactTree, Unique, Json, Follows, Here, AllCompact, Commas, EntryTexts, Output.Valid, Output.Bytes,
         Output.Clear;
    ghost var texts, start := EntryTexts(s, ids, strip), out.Bytes();
    out.Sizes(entries);
    NoCommas(texts);
    assert start + "" == start;
    var position := 0;
    while position < |s.entries|
      invariant 0 <= position <= |s.entries|
      invariant out.Valid(entries) && |out.spans| == old(|out.spans|) + position && |out.trees| == |out.spans|
      invariant position == 0 ==> out.Clear()
      invariant Follows(out.trees, entries, ids, strip)
      invariant out.Bytes() == start + Commas(texts[..position])
    {
      NextText(start, texts, position);
      TextAt(s, ids, strip, position);
      EntryHere(entries, old(|out.spans|), s, ids, strip, position);
      var tree := CompactTree(s.entries[position].1, ids, strip).value;
      FollowsMore(out.trees, entries, ids, strip, tree);
      out.AddItem(position > 0, s.key, s.entries[position].0, tree, entries);
      position := position + 1;
    }
    assert texts[..position] == texts;
  }

  lemma TextAt(s: Section, ids: map<string, nat>, strip: string -> string, k: nat)
    requires k < |s.entries|
    ensures CompactTree(s.entries[k].1, ids, strip).Some? ==>
      EntryTexts(s, ids, strip)[k] == Json(CompactTree(s.entries[k].1, ids, strip).value)
  {
    hide CompactTree, Json;
  }

  lemma NoCommas(texts: seq<string>)
    ensures Commas(texts[..0]) == ""
  {
  }

  lemma NextText(start: string, texts: seq<string>, k: nat)
    requires k < |texts|
    ensures start + Commas(texts[..k + 1]) ==
      (if k == 0 then start + Commas(texts[..k]) else start + Commas(texts[..k]) + ",") + texts[k]
  {
    assert texts[..k + 1] == texts[..k] + [texts[k]];
    CommasSnoc(texts[..k], texts[k]);
    NoCommas(texts);
    hide Commas;
    assert k == 0 ==> start + "" == start;
    Associative(start, Commas(texts[..k]) + ",", texts[k]);
    Associative(start, Commas(texts[..k]), ",");
  }

  lemma EntriesSnoc(sections: seq<Section>, i: nat)
    requires i < |sections|
    ensures Entries(sections[..i + 1]) == Entries(sections[..i]) + EntriesOf(sections[i])
  {
    assert sections[..i + 1][..i] == sections[..i];
  }

  lemma {:induction false} EntriesPrefix(sections: seq<Section>, i: nat)
    requires i <= |sections|
    ensures Entries(sections[..i]) <= Entries(sections)
    decreases |sections| - i
  {
    if i < |sections| {
      EntriesSnoc(sections, i);
      EntriesPrefix(sections, i + 1);
    } else {
      assert sections[..i] == sections;
    }
  }

  /** Section `i` is where it should be among all entries. */
  lemma SectionAt(sections: seq<Section>, i: nat, ids: map<string, nat>, strip: string -> string)
    requires i < |sections|
    requires forall e :: e in Entries(sections) ==> CompactTree(e.node, ids, strip).Some?
    ensures Here(Entries(sections), |Entries(sections[..i])|, sections[i])
    ensures |Entries(sections[..i + 1])| == |Entries(sections[..i])| + |sections[i].entries|
    ensures AllCompact(sections[i], ids, strip)
  {
    hide CompactTree;
    EntriesSnoc(sections, i);
    EntriesPrefix(sections, i + 1);
    var n, s, all := |Entries(sections[..i])|, sections[i], Entries(sections);
    forall k | 0 <= k < |s.entries| ensures CompactTree(s.entries[k].1, ids, strip).Some? {
      assert all[n + k] in all;
    }
  }

  method AddSections(out: Output, sections: seq<Section>, ids: map<string, nat>, quote: string -> string,
                     strip: string -> string)
    requires out.Valid(Entries(sections)) && out.spans == [] && out.trees == [] && Unique(Entries(sections))
    requires forall e :: e in Entries(sections) ==> CompactTree(e.node, ids, strip).Some?
    modifies out
    ensures out.Valid(Entries(sections))
    ensures |out.spans| == |Entries(sections)| && Follows(out.trees, Entries(sections), ids, strip)
    ensures out.Bytes() == old(out.Bytes()) + Commas(SectionTexts(sections, ids, quote, strip))
  {
    hide CompactTree, Unique, Json, Entries, EntriesOf, Follows, Here, AllCompact, Commas, EntryTexts, Output.Valid,
         Output.Bytes, Output.Clear;
    ghost var entries := Entries(sections);
    NothingFollows(entries, ids, strip);
    ghost var texts, start := SectionTexts(sections, ids, quote, strip), out.Bytes();
    NoCommas(texts);
    var index := 0;
    assert sections[..0] == [];
    while index < |sections|
      invariant 0 <= index <= |sections| && out.Valid(entries)
      invariant |out.spans| == |Entries(sections[..index])| && Follows(out.trees, entries, ids, strip)
      invariant out.Bytes() == start + Commas(texts[..index])
    {
      SectionAt(sections, index, ids, strip);
      NextText(start, texts, index);
      if index > 0 { out.Add(",", entries); }
      ghost var here := out.Bytes();
      out.Add(quote(sections[index].key) + ":[", entries);
      AddSection(out, sections[index], ids, strip, entries);
      out.Add("]", entries);
      InParts(here, quote(sections[index].key) + ":[", Commas(EntryTexts(sections[index], ids, strip)), "]");
      index := index + 1;
    }
    assert sections[..index] == sections && texts[..index] == texts;
  }

  lemma InParts(a: string, b: string, c: string, d: string)
    ensures a + b + c + d == a + (b + c + d)
  {
  }

  lemma NothingFollows(entries: seq<Entry>, ids: map<string, nat>, strip: string -> string)
    ensures Follows([], entries, ids, strip) && Entries([]) == []
  {
  }

  /** The text in a span is that of one compact tree only. */
  ghost predicate Determined(bytes: string, spans: seq<Span>, trees: seq<Compact>)
    requires Placed(bytes, spans, trees)
  {
    forall i, c :: 0 <= i < |spans| && bytes[spans[i].start..spans[i].end] == Json(c) ==> c == trees[i]
  }

  lemma OnlyTree(bytes: string, spans: seq<Span>, trees: seq<Compact>)
    requires Placed(bytes, spans, trees)
    ensures Determined(bytes, spans, trees)
  {
    hide Json;
    forall i, c | 0 <= i < |spans| && bytes[spans[i].start..spans[i].end] == Json(c) ensures c == trees[i] {
      JsonInjective(c, trees[i]);
    }
  }

  /** What the index promises: each range holds the printed compact form of its element,
      and of nothing else, which decodes to that element; ranges are in order and apart. */
  ghost predicate Indexed(bytes: string, strings: seq<string>, ranges: map<(string, string), (nat, nat)>,
                          sections: seq<Section>, strip: string -> string, spans: seq<Span>, trees: seq<Compact>) {
    && Placed(bytes, spans, trees) && Ranges(ranges, spans, Entries(sections)) && |spans| == |Entries(sections)|
    && Determined(bytes, spans, trees)
    && forall i :: 0 <= i < |trees| ==> Decode(trees[i], strings) == Some(Stripped(Entries(sections)[i].node, strip))
  }

  /** The header, the sections and the end, in order. */
  method Write(header: string, sections: seq<Section>, ids: map<string, nat>, quote: string -> string,
               strip: string -> string)
    returns (out: Output)
    requires Unique(Entries(sections))
    requires forall e :: e in Entries(sections) ==> CompactTree(e.node, ids, strip).Some?
    ensures fresh(out) && out.Valid(Entries(sections))
    ensures |out.spans| == |Entries(sections)| && Follows(out.trees, Entries(sections), ids, strip)
    ensures out.Bytes() == Document(header, sections, ids, quote, strip)
  {
    hide CompactTree, Unique, Placed, Ranges, Json, Entries, Follows, Commas, SectionTexts, Cat;
    ghost var entries := Entries(sections);
    NothingPlaced(entries);
    out := new Output();
    assert out.Bytes() == Cat(Catalog.Self, []);
    var open := DropLast(header) + ",\"sections\":{";
    out.Add(open, entries);
    assert "" + open == open;
    AddSections(out, sections, ids, quote, strip);
    out.Add("}}\n", entries);
  }

  const SCHEMA := "fe2o3-amd-isa-spec-catalog-v1"
  const NODE_FORMAT := "[tag_string_id,flat_attribute_string_ids,text_string_id,children]"

  /** What the pin and the manifest contribute to the header. The reviewed declaration and
      the unresolved conditions are given as their JSON texts. */
  datatype Pin = Pin(architecture: string, archiveSha: string, member: string, memberSha: string, duplicate: string,
                     missing: seq<string>)

  function Quoted(strings: seq<string>, quote: string -> string): (texts: seq<string>)
    ensures |texts| == |strings|
  {
    seq(|strings|, k requires 0 <= k < |strings| => quote(strings[k]))
  }

  /** The keys of the header and the texts of their values, in order. */
  function HeaderPairs(pin: Pin, strings: seq<string>, document: Compact, architecture: Compact,
                       quote: string -> string): seq<(string, string)> {
    [ ("schema", quote(SCHEMA)),
      ("architecture", quote(pin.architecture)),
      ("archive_sha256", quote(pin.archiveSha)),
      ("member", quote(pin.member)),
      ("member_sha256", quote(pin.memberSha)),
      ("strings", "[" + Commas(Quoted(strings, quote)) + "]"),
      ("node_format", quote(NODE_FORMAT)),
      ("document", Json(document)),
      ("architecture_metadata", Json(architecture)),
      ("duplicate_condition_declarations", "[" + pin.duplicate + "]"),
      ("unresolved_conditions", "[" + Commas(pin.missing) + "]") ]
  }

  function Field(pair: (string, string)): string { "\"" + pair.0 + "\":" + pair.1 }

  function Fields(pairs: seq<(string, string)>): (texts: seq<string>)
    ensures |texts| == |pairs|
  {
    seq(|pairs|, i requires 0 <= i < |pairs| => Field(pairs[i]))
  }

  /** The header object. */
  function Header(pin: Pin, strings: seq<string>, document: Compact, architecture: Compact,
                  quote: string -> string): string {
    "{" + Commas(Fields(HeaderPairs(pin, strings, document, architecture, quote))) + "}"
  }

  /** Every value stands under its key. */
  lemma HeaderHolds(pin: Pin, strings: seq<string>, document: Compact, architecture: Compact, quote: string -> string)
    ensures
      var pairs := HeaderPairs(pin, strings, document, architecture, quote);
      && ("architecture", quote(pin.architecture)) in pairs && ("archive_sha256", quote(pin.archiveSha)) in pairs
      && ("member", quote(pin.member)) in pairs && ("member_sha256", quote(pin.memberSha)) in pairs
      && ("document", Json(document)) in pairs && ("architecture_metadata", Json(architecture)) in pairs
      && ("strings", "[" + Commas(Quoted(strings, quote)) + "]") in pairs
      && ("duplicate_condition_declarations", "[" + pin.duplicate + "]") in pairs
      && ("unresolved_conditions", "[" + Commas(pin.missing) + "]") in pairs
  {
    hide Json, Commas, Quoted;
    var pairs := HeaderPairs(pin, strings, document, architecture, quote);
    assert pairs[1] in pairs && pairs[2] in pairs && pairs[3] in pairs && pairs[4] in pairs && pairs[5] in pairs;
    assert pairs[7] in pairs && pairs[8] in pairs && pairs[9] in pairs && pairs[10] in pairs;
  }

  /** Both compact trees of the header decode to their elements. */
  ghost predicate Heads(document: Node, architecture: Node, trees: (Compact, Compact), strings: seq<string>,
                        strip: string -> string) {
    && Decode(trees.0, strings) == Some(Stripped(document, strip))
    && Decode(trees.1, strings) == Some(Stripped(architecture, strip))
  }

  /** `metadata`, for the two header elements and sections whose elements lie in the tree.
      No lookup fails; it fails only for size. */
  method Metadata(root: Node, document: Node, architecture: Node, sections: seq<Section>, pin: Pin,
                  quote: string -> string, strip: string -> string)
    returns (ok: bool, bytes: string, strings: seq<string>, ranges: map<(string, string), (nat, nat)>,
             ghost ids: map<string, nat>, ghost heads: (Compact, Compact), ghost spans: seq<Span>,
                 ghost trees: seq<Compact>)
    requires WellFormed(root) && Unique(Entries(sections)) && Reaches(root, document) && Reaches(root, architecture)
    requires forall e :: e in Entries(sections) ==> Reaches(root, e.node)
    ensures Indexed(bytes, strings, ranges, sections, strip, spans, trees)
    ensures Heads(document, architecture, heads, strings, strip)
    ensures Numbers(ids, strings)
    ensures bytes == Document(Header(pin, strings, heads.0, heads.1, quote), sections, ids, quote, strip)
    ensures Sorted(strings, Catalog.Self) && forall s :: s in strings <==> Uses(root, s, strip)
    ensures ok <==> |bytes| <= MAX_OUTPUT
  {
    hide CompactTree, Decode, Stripped, Placed, Ranges, Unique, Uses, Reaches, WellFormed, Json, Cat, Sorted, Numbers;
    hide Commas, SectionTexts, Determined, Header;
    var values := CollectStrings(root, strip, {});
    strings := SortStrings(values);
    var numbers := NumberStrings(strings);
    ids := numbers;
    CompactOfReached(root, document, numbers, strings, strip);
    CompactOfReached(root, architecture, numbers, strings, strip);
    var first, second := CompactTree(document, numbers, strip).value, CompactTree(architecture, numbers, strip).value;
    heads := (first, second);
    ghost var entries := Entries(sections);
    forall e | e in entries
      ensures CompactTree(e.node, ids, strip).Some?
      ensures Decode(CompactTree(e.node, ids, strip).value, strings) == Some(Stripped(e.node, strip))
    {
      CompactOfReached(root, e.node, ids, strings, strip);
    }
    var out := Write(Header(pin, strings, first, second, quote), sections, numbers, quote, strip);
    bytes, ranges, spans, trees := Cat(Catalog.Self, out.chunks), out.ranges, out.spans, out.trees;
    SpansMatch(bytes, spans, trees);
    OnlyTree(bytes, spans, trees);
    forall i | 0 <= i < |trees| ensures Decode(trees[i], strings) == Some(Stripped(entries[i].node, strip)) {
      assert entries[i] in entries;
    }
    ok := out.size <= MAX_OUTPUT;
  }

  lemma NothingPlaced(entries: seq<Entry>)
    ensures Cat(Catalog.Self, []) == "" && Placed("", [], []) && Ranges(map[], [], entries)
  {
  }

  lemma SpansMatch(bytes: string, spans: seq<Span>, trees: seq<Compact>)
    requires Placed(bytes, spans, trees)
    ensures |spans| == |trees|
  {
  }
}
