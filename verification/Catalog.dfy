/** The instruction catalog: an XML tree with its strings interned in a sorted list. */
module Catalog {
  import opened Lex
  import opened Wrappers

  /** An element: tag, attributes in document order, text, children. */
  datatype Node = Node(tag: string, attrs: seq<(string, string)>, text: string, children: seq<Node>)

  /** What remains of an element without its prose. */
  datatype Tree = Tree(tag: string, attrs: map<string, string>, text: string, children: seq<Tree>)

  /** The same with string numbers, attributes flattened to key, value, key, value. */
  datatype Compact = Compact(tag: nat, attrs: seq<nat>, text: nat, children: seq<Compact>)

  const DESCRIPTION: string := "Description"

  // ---------- sorting ----------

  ghost predicate Sorted<T>(s: seq<T>, key: T -> string) {
    forall i, j :: 0 <= i < j < |s| ==> Less(key(s[i]), key(s[j]))
  }

  function Insert<T>(x: T, s: seq<T>, key: T -> string): (r: seq<T>)
    ensures multiset(r) == multiset(s) + multiset{x}
  {
    if s == [] then [x]
    else if Less(key(x), key(s[0])) then [x] + s
    else
      assert s == [s[0]] + s[1..];
      [s[0]] + Insert(x, s[1..], key)
  }

  lemma InsertMembers<T>(x: T, s: seq<T>, key: T -> string, y: T)
    ensures y in Insert(x, s, key) <==> y in s || y == x
  {
    assert y in multiset(Insert(x, s, key)) <==> y in Insert(x, s, key);
    assert y in multiset(s) <==> y in s;
  }

  lemma SortedCons<T>(x: T, s: seq<T>, key: T -> string)
    requires Sorted(s, key) && forall i :: 0 <= i < |s| ==> Less(key(x), key(s[i]))
    ensures Sorted([x] + s, key)
  {
    hide Less;
  }

  lemma {:induction false} InsertSorted<T>(x: T, s: seq<T>, key: T -> string)
    requires Sorted(s, key) && forall y :: y in s ==> key(y) != key(x)
    ensures Sorted(Insert(x, s, key), key)
  {
    hide Less;
    if s == [] {
    } else if Less(key(x), key(s[0])) {
      forall i | 0 < i < |s| ensures Less(key(x), key(s[i])) {
        Transitive(key(x), key(s[0]), key(s[i]));
      }
      SortedCons(x, s, key);
    } else {
      Total(key(x), key(s[0]));
      assert s[0] in s;
      InsertSorted(x, s[1..], key);
      var r := Insert(x, s[1..], key);
      forall i | 0 <= i < |r| ensures Less(key(s[0]), key(r[i])) {
        InsertMembers(x, s[1..], key, r[i]);
        if r[i] in s[1..] {
          var k :| 0 <= k < |s[1..]| && s[1..][k] == r[i];
          assert s[k + 1] == r[i];
        }
      }
      SortedCons(s[0], r, key);
    }
  }

  // ---------- attributes ----------

  function Key(item: (string, string)): string { item.0 }

  /** The keys of a dictionary are distinct. */
  ghost predicate Distinct(items: seq<(string, string)>) {
    forall i, j :: 0 <= i < j < |items| ==> items[i].0 != items[j].0
  }

  /** `sorted(attrib.items())`. */
  function SortItems(items: seq<(string, string)>): seq<(string, string)> {
    if items == [] then [] else Insert(items[0], SortItems(items[1..]), Key)
  }

  lemma {:induction false} SortItemsSorts(items: seq<(string, string)>)
    requires Distinct(items)
    ensures Sorted(SortItems(items), Key) && forall x :: x in SortItems(items) <==> x in items
  {
    if items != [] {
      var rest := SortItems(items[1..]);
      SortItemsSorts(items[1..]);
      assert items == [items[0]] + items[1..];
      forall y | y in rest ensures Key(y) != Key(items[0]) {
        assert y in items[1..];
        var k :| 0 <= k < |items[1..]| && items[1..][k] == y;
        assert items[k + 1] == y;
      }
      InsertSorted(items[0], rest, Key);
      forall x ensures x in SortItems(items) <==> x in items {
        InsertMembers(items[0], rest, Key, x);
      }
    }
  }

  /** The dictionary with these items; a later item replaces an earlier one. */
  function Dict(items: seq<(string, string)>): map<string, string> {
    if items == [] then map[]
    else Dict(items[..|items| - 1])[items[|items| - 1].0 := items[|items| - 1].1]
  }

  lemma {:induction false} DictHolds(items: seq<(string, string)>, k: string, v: string)
    requires Distinct(items)
    ensures k in Dict(items) && Dict(items)[k] == v <==> (k, v) in items
  {
    if items != [] {
      var front, last := items[..|items| - 1], items[|items| - 1];
      DictHolds(front, k, v);
      assert items == front + [last];
      forall x | x in front ensures x.0 != last.0 {
        var i :| 0 <= i < |front| && front[i] == x;
        assert items[i] == x;
      }
      hide Distinct;
      assert (k, v) in items <==> (k, v) in front || (k, v) == last;
      assert Dict(items) == Dict(front)[last.0 := last.1];
      if k == last.0 { assert (k, v) !in front; }
    }
  }

  lemma SortedDistinct(items: seq<(string, string)>)
    requires Sorted(items, Key)
    ensures Distinct(items)
  {
    forall i, j | 0 <= i < j < |items| ensures items[i].0 != items[j].0 {
      assert Less(Key(items[i]), Key(items[j]));
      Asymmetric(items[i].0, items[j].0);
    }
  }

  /** Sorting the items does not change the dictionary. */
  lemma SortKeepsDict(items: seq<(string, string)>)
    requires Distinct(items)
    ensures Dict(SortItems(items)) == Dict(items)
  {
    SortItemsSorts(items);
    SortedDistinct(SortItems(items));
    hide SortItems, Dict;
    var a, b := Dict(SortItems(items)), Dict(items);
    forall k | k in a ensures k in b && b[k] == a[k] {
      DictHolds(SortItems(items), k, a[k]);
      DictHolds(items, k, a[k]);
    }
    forall k | k in b ensures k in a {
      DictHolds(SortItems(items), k, b[k]);
      DictHolds(items, k, b[k]);
    }
  }

  // ---------- trees ----------

  /** Attribute names are unique in every element. */
  ghost predicate WellFormed(n: Node)
    decreases n, 0
  {
    Distinct(n.attrs) && forall c :: c in n.children ==> WellFormed(c)
  }

  function Stripped(n: Node, strip: string -> string): Tree {
    Tree(n.tag, Dict(n.attrs), strip(n.text), StrippedAll(n.children, strip))
  }

  function StrippedAll(ns: seq<Node>, strip: string -> string): seq<Tree> {
    if ns == [] then []
    else (if ns[0].tag == DESCRIPTION then [] else [Stripped(ns[0], strip)]) + StrippedAll(ns[1..], strip)
  }

  /** `out` holds the stripped children at the places `at`, which increase and are all those whose
      tag is not `Description`. */
  ghost predicate Kept(ns: seq<Node>, strip: string -> string, at: seq<nat>, out: seq<Tree>) {
    && |out| == |at|
    && (forall i, j :: 0 <= i < j < |at| ==> at[i] < at[j])
    && (forall j :: 0 <= j < |at| ==> at[j] < |ns| && out[j] == Stripped(ns[at[j]], strip))
    && (forall i: nat :: i < |ns| ==> (i in at <==> ns[i].tag != DESCRIPTION))
  }

  function KeptOne(n: Node, strip: string -> string): seq<Tree> {
    if n.tag == DESCRIPTION then [] else [Stripped(n, strip)]
  }

  lemma StrippedStep(n: Node, rest: seq<Node>, strip: string -> string)
    ensures StrippedAll([n] + rest, strip) == KeptOne(n, strip) + StrippedAll(rest, strip)
  {
    hide Stripped;
    assert ([n] + rest)[1..] == rest;
  }

  lemma {:induction false} StrippedSnoc(ns: seq<Node>, n: Node, strip: string -> string)
    ensures StrippedAll(ns + [n], strip) == StrippedAll(ns, strip) + KeptOne(n, strip)
  {
    hide StrippedAll, KeptOne;
    if ns == [] {
      assert ns + [n] == [n] + [];
      StrippedStep(n, [], strip);
      NothingStripped(strip);
    } else {
      var rest := ns[1..];
      assert ns == [ns[0]] + rest && ns + [n] == [ns[0]] + (rest + [n]);
      StrippedStep(ns[0], rest, strip);
      StrippedStep(ns[0], rest + [n], strip);
      StrippedSnoc(rest, n, strip);
    }
  }

  lemma NothingStripped(strip: string -> string)
    ensures StrippedAll([], strip) == []
  {
  }

  lemma KeptNext(ns: seq<Node>, n: Node, strip: string -> string, at: seq<nat>, out: seq<Tree>)
    requires Kept(ns, strip, at, out)
    ensures n.tag == DESCRIPTION ==> Kept(ns + [n], strip, at, out)
    ensures n.tag != DESCRIPTION ==> Kept(ns + [n], strip, at + [|ns|], out + [Stripped(n, strip)])
  {
    hide Stripped;
    var more := ns + [n];
    assert forall i :: 0 <= i < |ns| ==> more[i] == ns[i];
    assert forall i :: i in at ==> i < |ns|;
  }

  lemma {:induction false} ChildrenKept(ns: seq<Node>, strip: string -> string) returns (at: seq<nat>)
    ensures Kept(ns, strip, at, StrippedAll(ns, strip))
  {
    hide Stripped, Kept;
    if ns == [] {
      at := [];
      NoneKept(strip);
    } else {
      var before, n := ns[..|ns| - 1], ns[|ns| - 1];
      assert ns == before + [n];
      at := ChildrenKept(before, strip);
      StrippedSnoc(before, n, strip);
      KeptNext(before, n, strip, at, StrippedAll(before, strip));
      if n.tag == DESCRIPTION {
        assert StrippedAll(before, strip) + [] == StrippedAll(before, strip);
      } else {
        at := at + [|before|];
      }
    }
  }

  lemma NoneKept(strip: string -> string)
    ensures Kept([], strip, [], StrippedAll([], strip))
  {
  }

  // ---------- compact_tree ----------

  function FlatIds(items: seq<(string, string)>, ids: map<string, nat>): Option<seq<nat>> {
    if items == [] then Some([])
    else match FlatIds(items[1..], ids)
      case None => None
      case Some(rest) =>
        if items[0].0 in ids && items[0].1 in ids then Some([ids[items[0].0], ids[items[0].1]] + rest) else None
  }

  /** `compact_tree`; `None` for a lookup that fails. */
  function CompactTree(n: Node, ids: map<string, nat>, strip: string -> string): Option<Compact> {
    match (FlatIds(SortItems(n.attrs), ids), CompactAll(n.children, ids, strip))
    case (Some(attrs), Some(children)) =>
      if n.tag in ids && strip(n.text) in ids
      then Some(Compact(ids[n.tag], attrs, ids[strip(n.text)], children)) else None
    case _ => None
  }

  function CompactAll(ns: seq<Node>, ids: map<string, nat>, strip: string -> string): Option<seq<Compact>> {
    if ns == [] then Some([])
    else match CompactAll(ns[1..], ids, strip)
      case None => None
      case Some(rest) =>
        if ns[0].tag == DESCRIPTION then Some(rest)
        else match CompactTree(ns[0], ids, strip)
          case None => None
          case Some(first) => Some([first] + rest)
  }

  // ---------- decoding ----------

  function DecodeItems(ids: seq<nat>, strings: seq<string>): Option<seq<(string, string)>> {
    if ids == [] then Some([])
    else if |ids| == 1 || ids[0] >= |strings| || ids[1] >= |strings| then None
    else match DecodeItems(ids[2..], strings)
      case None => None
      case Some(rest) => Some([(strings[ids[0]], strings[ids[1]])] + rest)
  }

  function Decode(c: Compact, strings: seq<string>): Option<Tree> {
    match (DecodeItems(c.attrs, strings), DecodeAll(c.children, strings))
    case (Some(items), Some(children)) =>
      if c.tag < |strings| && c.text < |strings|
      then Some(Tree(strings[c.tag], Dict(items), strings[c.text], children)) else None
    case _ => None
  }

  function DecodeAll(cs: seq<Compact>, strings: seq<string>): Option<seq<Tree>> {
    if cs == [] then Some([])
    else match (Decode(cs[0], strings), DecodeAll(cs[1..], strings))
      case (Some(first), Some(rest)) => Some([first] + rest)
      case _ => None
  }

  /** The numbers are the positions in the list. */
  ghost predicate Numbers(ids: map<string, nat>, strings: seq<string>) {
    forall v :: v in ids ==> ids[v] < |strings| && strings[ids[v]] == v
  }

  lemma {:induction false} DecodeFlat(items: seq<(string, string)>, ids: map<string, nat>, strings: seq<string>)
    requires Numbers(ids, strings) && FlatIds(items, ids).Some?
    ensures DecodeItems(FlatIds(items, ids).value, strings) == Some(items)
  {
    if items != [] {
      DecodeFlat(items[1..], ids, strings);
      var flat, rest := FlatIds(items, ids).value, FlatIds(items[1..], ids).value;
      assert flat[2..] == rest && |flat| >= 2;
      assert [items[0]] + items[1..] == items;
    }
  }

  /** Decoding the compact form gives back the tree without its prose. */
  lemma {:induction false} DecodeCompact(n: Node, ids: map<string, nat>, strings: seq<string>, strip: string -> string)
    requires WellFormed(n) && Numbers(ids, strings) && CompactTree(n, ids, strip).Some?
    ensures Decode(CompactTree(n, ids, strip).value, strings) == Some(Stripped(n, strip))
    decreases n
  {
    DecodeFlat(SortItems(n.attrs), ids, strings);
    SortKeepsDict(n.attrs);
    DecodeCompactAll(n.children, ids, strings, strip);
    hide SortItems, Dict, DecodeItems, FlatIds;
  }

  lemma {:induction false} DecodeCompactAll(ns: seq<Node>, ids: map<string, nat>, strings: seq<string>,
                                            strip: string -> string)
    requires (forall c :: c in ns ==> WellFormed(c)) && Numbers(ids, strings) && CompactAll(ns, ids, strip).Some?
    ensures DecodeAll(CompactAll(ns, ids, strip).value, strings) == Some(StrippedAll(ns, strip))
    decreases ns
  {
    hide WellFormed, Decode, CompactTree, Stripped;
    if ns != [] {
      DecodeCompactAll(ns[1..], ids, strings, strip);
      if ns[0].tag != DESCRIPTION {
        DecodeCompact(ns[0], ids, strings, strip);
        var all := CompactAll(ns, ids, strip).value;
        assert all[1..] == CompactAll(ns[1..], ids, strip).value;
      } else {
        assert [] + StrippedAll(ns[1..], strip) == StrippedAll(ns[1..], strip);
      }
    }
  }

  // ---------- collect_strings ----------

  /** `s` is a string of the element itself. */
  ghost predicate OwnString(n: Node, s: string, strip: string -> string) {
    s == n.tag || s == strip(n.text) || InItems(n.attrs, s)
  }

  ghost predicate InItems(items: seq<(string, string)>, s: string) {
    exists x :: x in items && (s == x.0 || s == x.1)
  }

  /** `n` is `root` or below it, and neither it nor anything above it, up to `root`, is prose. */
  ghost predicate Reaches(root: Node, n: Node)
    decreases root
  {
    root.tag != DESCRIPTION && (n == root || exists c :: c in root.children && Reaches(c, n))
  }

  /** `s` is a string of some element that `root` reaches. */
  ghost predicate Uses(root: Node, s: string, strip: string -> string) {
    exists n :: Reaches(root, n) && OwnString(n, s, strip)
  }

  ghost predicate UsedIn(ns: seq<Node>, s: string, strip: string -> string) {
    exists c :: c in ns && Uses(c, s, strip)
  }

  lemma UsesIs(root: Node, s: string, strip: string -> string)
    ensures Uses(root, s, strip) <==>
      root.tag != DESCRIPTION && (OwnString(root, s, strip) || UsedIn(root.children, s, strip))
  {
    hide OwnString;
    if Uses(root, s, strip) {
      var n :| Reaches(root, n) && OwnString(n, s, strip);
      if n != root {
        var c :| c in root.children && Reaches(c, n);
        assert Uses(c, s, strip);
      }
    }
    if root.tag != DESCRIPTION {
      assert Reaches(root, root);
      if c :| c in root.children && Uses(c, s, strip) {
        var n :| Reaches(c, n) && OwnString(n, s, strip);
        assert Reaches(root, n);
      }
    }
  }

  lemma UsedInSnoc(ns: seq<Node>, c: Node, strip: string -> string)
    ensures forall s :: UsedIn(ns + [c], s, strip) <==> UsedIn(ns, s, strip) || Uses(c, s, strip)
  {
    hide Uses;
    forall s ensures UsedIn(ns + [c], s, strip) <==> UsedIn(ns, s, strip) || Uses(c, s, strip) {
      assert c in ns + [c];
      if UsedIn(ns, s, strip) {
        var d :| d in ns && Uses(d, s, strip);
        assert d in ns + [c];
      }
    }
  }

  /** `collect_strings`: the result grows by exactly the strings the tree uses. */
  method CollectStrings(node: Node, strip: string -> string, before: set<string>) returns (result: set<string>)
    ensures forall s :: s in result <==> s in before || Uses(node, s, strip)
    decreases node
  {
    forall s ensures Uses(node, s, strip) <==>
      node.tag != DESCRIPTION && (OwnString(node, s, strip) || UsedIn(node.children, s, strip))
    {
      UsesIs(node, s, strip);
    }
    assert forall s :: !UsedIn([], s, strip);
    hide Uses, OwnString, UsedIn;
    result := before;
    if node.tag == DESCRIPTION { return; }
    result := AddOwn(node, strip, before);
    var i := 0;
    while i < |node.children|
      invariant 0 <= i <= |node.children|
      invariant forall s :: s in result <==>
        s in before || OwnString(node, s, strip) || UsedIn(node.children[..i], s, strip)
    {
      UsedInSnoc(node.children[..i], node.children[i], strip);
      assert node.children[..i + 1] == node.children[..i] + [node.children[i]];
      result := CollectStrings(node.children[i], strip, result);
      i := i + 1;
    }
    assert node.children[..i] == node.children;
  }

  lemma InItemsSnoc(items: seq<(string, string)>, x: (string, string))
    ensures forall s :: InItems(items + [x], s) <==> InItems(items, s) || s == x.0 || s == x.1
  {
    forall s ensures InItems(items + [x], s) <==> InItems(items, s) || s == x.0 || s == x.1 {
      assert x in items + [x];
      if InItems(items, s) {
        var y :| y in items && (s == y.0 || s == y.1);
        assert y in items + [x];
      }
    }
  }

  method AddOwn(node: Node, strip: string -> string, before: set<string>) returns (result: set<string>)
    ensures forall s :: s in result <==> s in before || OwnString(node, s, strip)
  {
    assert forall s :: !InItems([], s);
    hide InItems;
    result := before + {node.tag, strip(node.text)};
    var i := 0;
    while i < |node.attrs|
      invariant 0 <= i <= |node.attrs|
      invariant forall s :: s in result <==>
        s in before || s == node.tag || s == strip(node.text) || InItems(node.attrs[..i], s)
    {
      InItemsSnoc(node.attrs[..i], node.attrs[i]);
      assert node.attrs[..i + 1] == node.attrs[..i] + [node.attrs[i]];
      result := result + {node.attrs[i].0, node.attrs[i].1};
      i := i + 1;
    }
    assert node.attrs[..i] == node.attrs;
  }

  // ---------- no lookup fails ----------

  lemma {:induction false} FlatSucceeds(items: seq<(string, string)>, ids: map<string, nat>)
    ensures FlatIds(items, ids).Some? <==> forall x :: x in items ==> x.0 in ids && x.1 in ids
  {
    if items != [] {
      FlatSucceeds(items[1..], ids);
      assert items == [items[0]] + items[1..];
    }
  }

  /** `compact_tree` succeeds exactly when every string of every element it visits has a
      number. */
  lemma {:induction false} CompactSucceeds(n: Node, ids: map<string, nat>, strip: string -> string)
    requires WellFormed(n) && n.tag != DESCRIPTION
    ensures CompactTree(n, ids, strip).Some? <==> forall s :: Uses(n, s, strip) ==> s in ids
    decreases n
  {
    SortItemsSorts(n.attrs);
    FlatSucceeds(SortItems(n.attrs), ids);
    CompactAllSucceeds(n.children, ids, strip);
    forall s ensures Uses(n, s, strip) <==> OwnString(n, s, strip) || UsedIn(n.children, s, strip) {
      UsesIs(n, s, strip);
    }
    OwnNumbered(n, ids, strip);
    hide Uses, SortItems, FlatIds, CompactAll, WellFormed, Sorted, OwnString, UsedIn;
  }

  lemma OwnNumbered(n: Node, ids: map<string, nat>, strip: string -> string)
    ensures (forall s :: OwnString(n, s, strip) ==> s in ids) <==>
      n.tag in ids && strip(n.text) in ids && forall x :: x in n.attrs ==> x.0 in ids && x.1 in ids
  {
    assert OwnString(n, n.tag, strip) && OwnString(n, strip(n.text), strip);
    forall x | x in n.attrs ensures OwnString(n, x.0, strip) && OwnString(n, x.1, strip) {
    }
  }

  lemma {:induction false} CompactAllSucceeds(ns: seq<Node>, ids: map<string, nat>, strip: string -> string)
    requires forall c :: c in ns ==> WellFormed(c)
    ensures CompactAll(ns, ids, strip).Some? <==> forall s :: UsedIn(ns, s, strip) ==> s in ids
    decreases ns
  {
    hide WellFormed, CompactTree;
    if ns == [] {
    } else {
      CompactAllSucceeds(ns[1..], ids, strip);
      UsedInFirst(ns, strip);
      if ns[0].tag != DESCRIPTION {
        CompactSucceeds(ns[0], ids, strip);
      } else {
        forall s ensures !Uses(ns[0], s, strip) {
          UsesIs(ns[0], s, strip);
        }
      }
      hide Uses, UsedIn;
    }
  }

  lemma UsedInFirst(ns: seq<Node>, strip: string -> string)
    requires ns != []
    ensures forall s :: UsedIn(ns, s, strip) <==> Uses(ns[0], s, strip) || UsedIn(ns[1..], s, strip)
  {
    hide Uses;
    assert ns == [ns[0]] + ns[1..];
    forall s ensures UsedIn(ns, s, strip) <==> Uses(ns[0], s, strip) || UsedIn(ns[1..], s, strip) {
      if UsedIn(ns[1..], s, strip) {
        var d :| d in ns[1..] && Uses(d, s, strip);
        assert d in ns;
      }
    }
  }

  lemma {:induction false} ReachesThrough(root: Node, n: Node, m: Node)
    requires Reaches(root, n) && Reaches(n, m)
    ensures Reaches(root, m)
    decreases root
  {
    if n != root {
      var c :| c in root.children && Reaches(c, n);
      ReachesThrough(c, n, m);
    }
  }

  lemma {:induction false} ReachesWellFormed(root: Node, n: Node)
    requires Reaches(root, n) && WellFormed(root)
    ensures WellFormed(n) && n.tag != DESCRIPTION
    decreases root
  {
    if n != root {
      var c :| c in root.children && Reaches(c, n);
      ReachesWellFormed(c, n);
    }
  }

  /** With the strings of a tree numbered, no lookup for any element it reaches fails, and
      the compact form decodes to that element. */
  lemma CompactOfReached(root: Node, n: Node, ids: map<string, nat>, strings: seq<string>, strip: string -> string)
    requires WellFormed(root) && Reaches(root, n) && Numbers(ids, strings)
    requires forall s :: Uses(root, s, strip) ==> s in ids
    ensures CompactTree(n, ids, strip).Some?
    ensures Decode(CompactTree(n, ids, strip).value, strings) == Some(Stripped(n, strip))
  {
    ReachesWellFormed(root, n);
    forall s | Uses(n, s, strip) ensures s in ids {
      var m :| Reaches(n, m) && OwnString(m, s, strip);
      ReachesThrough(root, n, m);
      assert Uses(root, s, strip);
    }
    CompactSucceeds(n, ids, strip);
    DecodeCompact(n, ids, strings, strip);
  }

  // ---------- the sorted list and its numbers ----------

  function Self(s: string): string { s }

  /** `sorted(values)`. */
  method SortStrings(values: set<string>) returns (strings: seq<string>)
    ensures Sorted(strings, Self) && forall s :: s in strings <==> s in values
  {
    strings := [];
    var rest := values;
    while rest != {}
      invariant rest <= values && Sorted(strings, Self)
      invariant forall s :: s in strings <==> s in values && s !in rest
      decreases |rest|
    {
      var x :| x in rest;
      InsertSorted(x, strings, Self);
      forall s ensures s in Insert(x, strings, Self) <==> s in strings || s == x {
        InsertMembers(x, strings, Self, s);
      }
      strings := Insert(x, strings, Self);
      rest := rest - {x};
    }
  }

  /** The dictionary from string to position. */
  method NumberStrings(strings: seq<string>) returns (ids: map<string, nat>)
    requires Sorted(strings, Self)
    ensures Numbers(ids, strings) && forall s :: s in ids <==> s in strings
    ensures forall i :: 0 <= i < |strings| ==> ids[strings[i]] == i
  {
    ids := map[];
    var i := 0;
    while i < |strings|
      invariant 0 <= i <= |strings| && Numbers(ids, strings)
      invariant forall s :: s in ids <==> s in strings[..i]
      invariant forall k :: 0 <= k < i ==> strings[k] in ids && ids[strings[k]] == k
    {
      forall k | 0 <= k < i ensures strings[k] != strings[i] {
        assert Less(Self(strings[k]), Self(strings[i]));
        Asymmetric(strings[k], strings[i]);
      }
      assert strings[..i + 1] == strings[..i] + [strings[i]];
      ids := ids[strings[i] := i];
      i := i + 1;
    }
    assert strings[..i] == strings;
  }
}
