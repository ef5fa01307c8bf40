/** Lexical normalisation of absolute paths, and the test that keeps symbolic links
    inside the guarded roots. */
module Paths {
  import opened Text
  import opened Cats
  import opened Wrappers

  predicate SafeByte(c: char) { c as int >= 0x20 && c as int != 0x7f && c != '\t' }

  predicate SafeText(s: string) { forall i :: 0 <= i < |s| ==> SafeByte(s[i]) }

  predicate SafeComponent(s: string) {
    && s != "" && s != "." && s != ".."
    && forall i :: 0 <= i < |s| ==> s[i] != '/' && s[i] as int >= 0x20 && s[i] as int != 0x7f
  }

  predicate AllSafe(parts: seq<string>) { forall i :: 0 <= i < |parts| ==> SafeComponent(parts[i]) }

  // ---------- the component machine ----------

  /** Follow components from a place below the root; no place if one is malformed or
      leads above the root. */
  function Resolve(place: seq<string>, parts: seq<string>): Option<seq<string>>
    decreases |parts|
  {
    if parts == [] then Some(place)
    else if parts[0] == ".." then
      if place == [] then None else Resolve(place[..|place| - 1], parts[1..])
    else if parts[0] == "." then Resolve(place, parts[1..])
    else if SafeComponent(parts[0]) then Resolve(place + [parts[0]], parts[1..])
    else None
  }

  function Slash(part: string): string { "/" + part }

  function Print(place: seq<string>): string { if place == [] then "/" else Cat(Slash, place) }

  function Components(path: string): seq<string> { if path == "" then [] else Split(path[1..], '/') }

  /** What `normalizeAbsolutePath` is to return; empty for a refusal. */
  function Normal(path: string): string {
    if path == "" || path[0] != '/' || !SafeText(path) then ""
    else match Resolve([], Components(path))
      case None => ""
      case Some(place) => Print(place)
  }

  lemma {:induction false} ResolveConcat(place: seq<string>, a: seq<string>, b: seq<string>)
    ensures Resolve(place, a + b) ==
      match Resolve(place, a) case None => None case Some(p) => Resolve(p, b)
    decreases |a|
  {
    if a == [] {
      assert a + b == b;
    } else {
      var more := a + b;
      assert more[0] == a[0] && more[1..] == a[1..] + b;
      if a[0] == ".." {
        if place != [] { ResolveConcat(place[..|place| - 1], a[1..], b); }
      } else if a[0] == "." {
        ResolveConcat(place, a[1..], b);
      } else if SafeComponent(a[0]) {
        ResolveConcat(place + [a[0]], a[1..], b);
      }
    }
  }

  lemma {:induction false} ResolveSafe(place: seq<string>, parts: seq<string>)
    requires AllSafe(place) && Resolve(place, parts).Some?
    ensures AllSafe(Resolve(place, parts).value)
    decreases |parts|
  {
    if parts == [] {
    } else if parts[0] == ".." {
      ResolveSafe(place[..|place| - 1], parts[1..]);
    } else if parts[0] == "." {
      ResolveSafe(place, parts[1..]);
    } else {
      ResolveSafe(place + [parts[0]], parts[1..]);
    }
  }

  /** Components that are all names are followed as they stand. */
  lemma {:induction false} ResolveNames(place: seq<string>, names: seq<string>)
    requires AllSafe(names)
    ensures Resolve(place, names) == Some(place + names)
    decreases |names|
  {
    if names == [] {
      assert place + names == place;
    } else {
      assert place + names == (place + [names[0]]) + names[1..];
      ResolveNames(place + [names[0]], names[1..]);
    }
  }

  // ---------- refusals ----------

  predicate Legal(part: string) { part == "." || part == ".." || SafeComponent(part) }

  /** Names less steps up. */
  function Depth(parts: seq<string>): int {
    if parts == [] then 0 else Depth(parts[..|parts| - 1]) + Change(parts[|parts| - 1])
  }

  function Change(part: string): int { if part == ".." then -1 else if part == "." then 0 else 1 }

  ghost predicate StaysBelow(start: nat, parts: seq<string>) {
    forall k :: 0 <= k <= |parts| ==> start + Depth(parts[..k]) >= 0
  }

  lemma StaysBelowNext(start: nat, parts: seq<string>)
    requires parts != []
    ensures StaysBelow(start, parts) <==> StaysBelow(start, parts[..|parts| - 1]) && start + Depth(parts) >= 0
  {
    var front := parts[..|parts| - 1];
    if StaysBelow(start, parts) {
      forall k | 0 <= k <= |front| ensures start + Depth(front[..k]) >= 0 {
        assert front[..k] == parts[..k];
      }
      assert parts[..|parts|] == parts;
    }
    if StaysBelow(start, front) && start + Depth(parts) >= 0 {
      forall k | 0 <= k <= |parts| ensures start + Depth(parts[..k]) >= 0 {
        assert k < |parts| ==> parts[..k] == front[..k];
        assert k == |parts| ==> parts[..k] == parts;
      }
    }
  }

  /** A path is refused exactly for a malformed component or a step above the root; the
      depth of the place is the number of names less the steps up. */
  lemma {:induction false} ResolvesExactly(place: seq<string>, parts: seq<string>)
    ensures Resolve(place, parts).Some? <==>
            (forall i :: 0 <= i < |parts| ==> Legal(parts[i])) && StaysBelow(|place|, parts)
    ensures Resolve(place, parts).Some? ==> |Resolve(place, parts).value| == |place| + Depth(parts)
    decreases |parts|
  {
    if parts == [] {
    } else {
      var front, last := parts[..|parts| - 1], parts[|parts| - 1];
      ResolvesExactly(place, front);
      StaysBelowNext(|place|, parts);
      assert parts == front + [last];
      ResolveConcat(place, front, [last]);
      if Resolve(place, front).Some? {
        ResolveOne(Resolve(place, front).value, last);
      }
      hide StaysBelow, Resolve, Legal;
      assert (forall i :: 0 <= i < |parts| ==> Legal(parts[i])) <==>
             (forall i :: 0 <= i < |front| ==> Legal(front[i])) && Legal(last);
    }
  }

  lemma ResolveOne(place: seq<string>, part: string)
    ensures Resolve(place, [part]).Some? <==> Legal(part) && (part == ".." ==> place != [])
    ensures Resolve(place, [part]).Some? ==>
      |Resolve(place, [part]).value| == |place| + Change(part)
  {
    assert [part][1..] == [];
  }

  // ---------- where a path leads ----------

  /** Component `i` is a name that no later step takes back: the depth stays above that
      before it. */
  ghost predicate Survives(parts: seq<string>, i: nat) {
    && i < |parts| && parts[i] != "." && parts[i] != ".."
    && forall j :: i < j <= |parts| ==> Depth(parts[..j]) > Depth(parts[..i])
  }

  /** Component `i` survives, met at depth `k`. */
  ghost predicate MetAt(parts: seq<string>, i: nat, k: int) {
    Survives(parts, i) && Depth(parts[..i]) == k
  }

  ghost predicate NameAt(parts: seq<string>, k: int) {
    exists i: nat :: MetAt(parts, i, k)
  }

  /** The names that survive, each at the depth at which it was met. */
  ghost predicate Ends(parts: seq<string>, place: seq<string>) {
    && |place| == Depth(parts)
    && (forall i: nat, k :: MetAt(parts, i, k) ==> i < |parts| && 0 <= k < |place| && place[k] == parts[i])
    && (forall k :: 0 <= k < |place| ==> NameAt(parts, k))
  }

  /** Nothing malformed, and never above the root. */
  ghost predicate Follows(parts: seq<string>) {
    (forall i :: 0 <= i < |parts| ==> Legal(parts[i])) && StaysBelow(0, parts)
  }

  /** There is only one such place. */
  lemma EndsUnique(parts: seq<string>, a: seq<string>, b: seq<string>)
    requires Ends(parts, a) && Ends(parts, b)
    ensures a == b
  {
    hide MetAt;
    forall k | 0 <= k < |a| ensures a[k] == b[k] {
      assert NameAt(parts, k);
      var i: nat :| MetAt(parts, i, k);
    }
  }

  /** What survives one more component. */
  lemma SurvivesNext(front: seq<string>, last: string, i: nat)
    ensures
      var parts := front + [last];
      Survives(parts, i) <==>
        if i < |front| then Survives(front, i) && Depth(parts) > Depth(front[..i])
        else i == |front| && last != "." && last != ".."
  {
    var parts := front + [last];
    assert parts[..|front|] == front && parts[..|parts|] == parts;
    if i < |front| {
      assert parts[..i] == front[..i];
      forall j | i < j <= |front| ensures parts[..j] == front[..j] {}
      if Survives(front, i) && Depth(parts) > Depth(front[..i]) {
        forall j | i < j <= |parts| ensures Depth(parts[..j]) > Depth(parts[..i]) {
          assert j <= |front| ==> Depth(parts[..j]) == Depth(front[..j]);
        }
      }
      if Survives(parts, i) {
        forall j | i < j <= |front| ensures Depth(front[..j]) > Depth(front[..i]) {
          assert Depth(parts[..j]) > Depth(parts[..i]);
        }
        assert Depth(parts[..|parts|]) > Depth(parts[..i]);
      }
    }
  }

  lemma DepthNext(front: seq<string>, last: string)
    ensures Depth(front + [last]) == Depth(front) + Change(last)
  {
    assert (front + [last])[..|front|] == front;
  }

  /** One component takes the place to the next. */
  lemma EndsNext(front: seq<string>, last: string, place: seq<string>)
    requires Ends(front, place) && (last == ".." ==> place != [])
    ensures
      Ends(front + [last],
           if last == ".." then place[..|place| - 1] else if last == "." then place else place + [last])
  {
    hide MetAt, Depth;
    var parts := front + [last];
    var next := if last == ".." then place[..|place| - 1] else if last == "." then place else place + [last];
    DepthNext(front, last);
    forall i: nat, k | MetAt(parts, i, k) ensures i < |parts| && 0 <= k < |next| && next[k] == parts[i] {
      MetNext(front, last, i, k);
    }
    forall k | 0 <= k < |next| ensures NameAt(parts, k) {
      if k < |place| {
        assert NameAt(front, k);
        var i: nat :| MetAt(front, i, k);
        MetNext(front, last, i, k);
      } else {
        MetNext(front, last, |front|, k);
      }
    }
  }

  lemma MetNext(front: seq<string>, last: string, i: nat, k: int)
    ensures
      MetAt(front + [last], i, k) <==>
        if i < |front| then MetAt(front, i, k) && Depth(front) + Change(last) > k
        else i == |front| && last != "." && last != ".." && Depth(front) == k
  {
    var parts := front + [last];
    SurvivesNext(front, last, i);
    DepthNext(front, last);
    hide Survives, Depth;
    if i < |front| {
      assert parts[..i] == front[..i];
    } else if i == |front| {
      assert parts[..i] == front;
    }
  }

  /** The machine ends at that place. */
  lemma {:induction false} ResolvesTo(parts: seq<string>)
    requires Resolve([], parts).Some?
    ensures Ends(parts, Resolve([], parts).value)
    decreases |parts|
  {
    if parts != [] {
      var front, last := parts[..|parts| - 1], parts[|parts| - 1];
      assert parts == front + [last];
      ResolveConcat([], front, [last]);
      ResolvesTo(front);
      hide Ends;
      var place := Resolve([], front).value;
      StepIs(place, last);
      EndsNext(front, last, place);
    }
  }

  lemma StepIs(place: seq<string>, part: string)
    requires Resolve(place, [part]).Some?
    ensures part == ".." ==> place != []
    ensures Resolve(place, [part]).value ==
      if part == ".." then place[..|place| - 1] else if part == "." then place else place + [part]
  {
    assert [part][1..] == [];
  }

  // ---------- printing ----------

  lemma {:induction false} CatJoin(place: seq<string>)
    requires place != []
    ensures Cat(Slash, place) == "/" + Join(place, '/')
  {
    if |place| == 1 {
      assert place[1..] == [];
      assert Cat(Slash, place) == Slash(place[0]) + Cat(Slash, []);
    } else {
      CatJoin(place[1..]);
      var rest := Join(place[1..], '/');
      assert Cat(Slash, place) == Slash(place[0]) + ("/" + rest);
      assert Slash(place[0]) + ("/" + rest) == "/" + (place[0] + ['/'] + rest);
    }
  }

  /** A printed place splits into its components. */
  lemma PrintSplits(place: seq<string>)
    requires place != [] && AllSafe(place)
    ensures Print(place) != "" && Print(place)[0] == '/' && Components(Print(place)) == place
  {
    CatJoin(place);
    forall p | p in place ensures Clean(p, '/') {
      var i :| 0 <= i < |place| && place[i] == p;
      assert SafeComponent(place[i]);
    }
    SplitJoin(place, '/');
    assert Print(place)[1..] == Join(place, '/');
  }

  lemma PrintIsLong(place: seq<string>)
    requires place != [] && AllSafe(place)
    ensures |Cat(Slash, place)| >= 2
  {
    assert SafeComponent(place[0]);
    assert Cat(Slash, place) == Slash(place[0]) + Cat(Slash, place[1..]);
  }

  lemma PrintInjective(a: seq<string>, b: seq<string>)
    requires AllSafe(a) && AllSafe(b) && Print(a) == Print(b)
    ensures a == b
  {
    if a != [] { PrintSplits(a); PrintIsLong(a); }
    if b != [] { PrintSplits(b); PrintIsLong(b); }
  }

  lemma {:induction false} SafePrint(place: seq<string>)
    requires AllSafe(place)
    ensures SafeText(Cat(Slash, place))
  {
    if place != [] {
      assert SafeComponent(place[0]);
      SafePrint(place[1..]);
      assert Cat(Slash, place) == Slash(place[0]) + Cat(Slash, place[1..]);
    }
  }

  /** A place that is not the root prints to a path that normalises to itself. */
  lemma PrintIsNormal(place: seq<string>)
    requires place != [] && AllSafe(place)
    ensures Normal(Print(place)) == Print(place)
  {
    PrintSplits(place);
    SafePrint(place);
    ResolveNames([], place);
    assert [] + place == place;
  }

  /** The path of a place. */
  function Path(place: seq<string>): string {
    if place == [] then "/" else "/" + Join(place, '/')
  }

  lemma PrintIsPath(place: seq<string>)
    ensures Print(place) == Path(place) && Path(place) != ""
  {
    if place != [] { CatJoin(place); }
  }

  /** What the normal form of a path means, without the machine. */
  lemma NormalMeans(value: string) returns (parts: seq<string>, place: seq<string>)
    ensures value != "" && value[0] == '/' ==> Pieces(value[1..], '/', parts)
    ensures value != "" && value[0] == '/' ==>
      parts == Components(value) && (Follows(parts) <==> Resolve([], parts).Some?)
    ensures Normal(value) != "" <==> value != "" && value[0] == '/' && Follows(parts)
    ensures Normal(value) != "" ==>
      Ends(parts, place) && Normal(value) == Path(place) && Resolve([], parts) == Some(place)
  {
    hide Resolve, Split, Normal, Ends, Legal, StaysBelow, Path, Print;
    parts, place := Components(value), [];
    if value != "" && value[0] == '/' {
      SplitPieces(value[1..], '/');
      AbsoluteNormal(value);
      ResolvesExactly([], parts);
      if Resolve([], parts).Some? {
        place := Resolve([], parts).value;
        ResolvesTo(parts);
        PrintIsPath(place);
      }
    } else {
      NotAbsolute(value);
    }
  }

  lemma NotAbsolute(value: string)
    requires value == "" || value[0] != '/'
    ensures Normal(value) == ""
  {
  }

  // ---------- the method ----------

  method Find(s: string, from: nat) returns (at: nat)
    requires from <= |s|
    ensures from <= at <= |s| && Clean(s[from..at], '/') && (at < |s| ==> s[at] == '/')
  {
    at := from;
    while at < |s| && s[at] != '/'
      invariant from <= at <= |s| && Clean(s[from..at], '/')
    {
      assert s[from..at + 1] == s[from..at] + [s[at]];
      at := at + 1;
    }
  }

  lemma SplitAt(s: string, from: nat, at: nat)
    requires from <= at <= |s| && Clean(s[from..at], '/') && (at < |s| ==> s[at] == '/')
    ensures Split(s[from..], '/') == [s[from..at]] + if at < |s| then Split(s[at + 1..], '/') else []
  {
    if at < |s| {
      assert s[from..] == s[from..at] + ['/'] + s[at + 1..];
      SplitFirst(s[from..at], s[at + 1..], '/');
    } else {
      assert s[from..] == s[from..at];
      SplitOne(s[from..at], '/');
    }
  }

  /** One component of the loop; `None` for a refusal. */
  method TakeComponent(place: seq<string>, part: string, last: bool) returns (r: Option<seq<string>>)
    ensures r == Resolve(place, [part])
  {
    assert [part][1..] == [];
    if part == "" && !last { return None; }
    if part == ".." {
      if place == [] { return None; }
      return Some(place[..|place| - 1]);
    } else if part != "." {
      if !SafeComponent(part) { return None; }
      return Some(place + [part]);
    }
    return Some(place);
  }

  /** `normalizeAbsolutePath`. */
  method NormalizeAbsolutePath(value: string)
    returns (result: string, ghost parts: seq<string>, ghost place: seq<string>)
    ensures result == Normal(value)
    ensures value != "" && value[0] == '/' ==> Pieces(value[1..], '/', parts)
    ensures result != "" <==> value != "" && value[0] == '/' && Follows(parts)
    ensures result != "" ==> Ends(parts, place) && result == Path(place)
  {
    hide Resolve, Split, Pieces, Follows, Ends, Path, Print;
    parts, place := NormalMeans(value);
    result := "";
    if value == "" || value[0] != '/' || !SafeText(value) { return; }
    var components: seq<string> := [];
    var offset := 1;
    var more := true;
    while more
      invariant more ==> 1 <= offset <= |value|
      invariant more ==> Resolve([], Components(value)) == Resolve(components, Split(value[offset..], '/'))
      invariant !more ==> Resolve([], Components(value)) == Some(components)
      decreases more, |value| - offset
    {
      var next := Find(value, offset);
      SplitAt(value, offset, next);
      var part := value[offset..next];
      var taken := TakeComponent(components, part, next == |value|);
      ResolveConcat(components, [part], if next < |value| then Split(value[next + 1..], '/') else []);
      if taken.None? {
        assert [part] + [] == [part];
        return;
      }
      components := taken.value;
      if next == |value| {
        assert [part] + [] == [part];
        more := false;
      } else {
        offset := next + 1;
      }
    }
    result := PrintComponents(components);
  }

  /** The loop that prints the components. */
  method PrintComponents(components: seq<string>) returns (result: string)
    ensures result == Print(components)
  {
    result := "";
    var i := 0;
    assert components[..0] == [];
    while i < |components|
      invariant 0 <= i <= |components| && result == Cat(Slash, components[..i])
    {
      CatSnoc(Slash, components[..i], components[i]);
      assert components[..i + 1] == components[..i] + [components[i]];
      result := result + "/" + components[i];
      assert result == Cat(Slash, components[..i]) + Slash(components[i]);
      i := i + 1;
    }
    assert components[..i] == components;
    if components != [] { CatNonEmpty(components); }
    if result == "" { result := "/"; }
  }

  lemma CatNonEmpty(place: seq<string>)
    requires place != []
    ensures Cat(Slash, place) != ""
  {
    assert Cat(Slash, place) == Slash(place[0]) + Cat(Slash, place[1..]);
  }

  // ---------- guarded roots ----------

  /** The form in which roots are given. */
  predicate Canonical(path: string) { path != "" && Normal(path) == path }

  lemma CanonicalParts(path: string)
    requires Canonical(path)
    ensures path[0] == '/' && Components(path) != [] && AllSafe(Components(path)) && Print(Components(path)) == path
  {
    var place := Resolve([], Components(path)).value;
    ResolveSafe([], Components(path));
    assert Components("/") == [""];
    assert Normal("/") == "";
    PrintSplits(place);
  }

  /** The prefix test on text is the prefix test on components. */
  lemma UnderRoot(root: seq<string>, place: seq<string>)
    requires root != [] && AllSafe(root) && AllSafe(place)
    ensures Print(place) == Print(root) || Print(root) + "/" <= Print(place) <==> root <= place
  {
    hide Print, AllSafe;
    if root <= place { PrefixGives(root, place); }
    if Print(place) == Print(root) { PrintInjective(place, root); }
    if Print(root) + "/" <= Print(place) { PrefixExtends(root, place); }
  }

  lemma PrefixGives(root: seq<string>, place: seq<string>)
    requires root != [] && root <= place
    ensures Print(place) == Print(root) || Print(root) + "/" <= Print(place)
  {
    var rest := place[|root|..];
    assert place == root + rest;
    CatConcat(Slash, root, rest);
    if rest != [] {
      assert Cat(Slash, rest) == Slash(rest[0]) + Cat(Slash, rest[1..]);
      hide Cat;
      assert Cat(Slash, place) == Cat(Slash, root) + "/" + (rest[0] + Cat(Slash, rest[1..]));
    } else {
      assert place == root;
    }
  }

  lemma PrefixExtends(root: seq<string>, place: seq<string>)
    requires root != [] && AllSafe(root) && AllSafe(place) && Print(root) + "/" <= Print(place)
    ensures root <= place
  {
    var more := Print(place)[|Print(root)| + 1..];
    assert Print(place) == Print(root) + "/" + more;
    PrintIsLong(root);
    assert place != [];
    PrintSplits(place);
    PrintSplits(root);
    var inner := Print(root)[1..];
    assert Print(place)[1..] == inner + ['/'] + more;
    SplitConcat(inner, more, '/');
  }

  lemma SplitStep(s: string, sep: char)
    requires s != ""
    ensures
      var rest := Split(s[1..], sep);
      Split(s, sep) == if s[0] == sep then [""] + rest else [[s[0]] + rest[0]] + rest[1..]
  {
  }

  lemma SplitEmpty(sep: char)
    ensures Split("", sep) == [""]
  {
  }

  lemma {:induction false} SplitConcat(a: string, b: string, sep: char)
    ensures Split(a + [sep] + b, sep) == Split(a, sep) + Split(b, sep)
  {
    hide Split;
    var s := a + [sep] + b;
    SplitStep(s, sep);
    if a == "" {
      SplitEmpty(sep);
      assert s[1..] == b;
    } else {
      assert s[0] == a[0] && s[1..] == a[1..] + [sep] + b;
      SplitConcat(a[1..], b, sep);
      SplitStep(a, sep);
      Longer([a[0]], Split(a[1..], sep), Split(b, sep));
    }
  }

  lemma Longer(x: string, first: seq<string>, second: seq<string>)
    requires first != []
    ensures [""] + (first + second) == [""] + first + second
    ensures [x + (first + second)[0]] + (first + second)[1..] == [x + first[0]] + first[1..] + second
  {
    assert (first + second)[1..] == first[1..] + second;
  }

  /** Resolved text holds no unsafe byte, so the separate check of the text adds nothing. */
  lemma {:induction false} ResolvedIsSafe(place: seq<string>, text: string)
    requires Resolve(place, Split(text, '/')).Some?
    ensures SafeText(text)
  {
    ResolvesExactly(place, Split(text, '/'));
    LegalText(text);
  }

  lemma {:induction false} LegalText(text: string)
    requires forall i :: 0 <= i < |Split(text, '/')| ==> SafeText(Split(text, '/')[i])
    ensures SafeText(text)
  {
    if text != "" {
      var parts, rest := Split(text, '/'), Split(text[1..], '/');
      forall i | 0 <= i < |rest| ensures SafeText(rest[i]) {
        if text[0] == '/' {
          assert parts[i + 1] == rest[i];
        } else if i > 0 {
          assert parts[i] == rest[i];
        } else {
          assert parts[0] == [text[0]] + rest[0];
          assert forall k :: 0 <= k < |rest[0]| ==> rest[0][k] == parts[0][k + 1];
        }
      }
      LegalText(text[1..]);
      assert text[0] != '/' ==> parts[0][0] == text[0];
    }
  }

  /** The last slash, or -1. */
  function LastSlash(s: string): (at: int)
    ensures -1 <= at < |s| && (at >= 0 ==> s[at] == '/') && forall i :: at < i < |s| ==> s[i] != '/'
  {
    if s == "" then -1 else if s[|s| - 1] == '/' then |s| - 1 else LastSlash(s[..|s| - 1])
  }

  /** The components of the directory, relative to the root, that holds `child`. */
  function Folder(child: string): seq<string> {
    var at := LastSlash(child);
    if at < 0 || child[..at] == "." then [] else Split(child[..at], '/')
  }

  /** Where a link in the folder of `child` leads: from `/` if its target is absolute,
      else from the folder. */
  function Destination(root: string, child: string, target: string): Option<seq<string>> {
    if target != "" && target[0] == '/' then Resolve([], Components(target))
    else Resolve(Components(root), Folder(child) + Split(target, '/'))
  }

  /** The absolute path of that directory, as the program builds it. */
  function Parent(root: string, child: string): string {
    var at := LastSlash(child);
    if at < 0 || child[..at] == "." then root else root + "/" + child[..at]
  }

  lemma ParentComponents(root: string, child: string)
    requires root != ""
    ensures Parent(root, child) != "" && Parent(root, child)[0] == root[0]
    ensures Components(Parent(root, child)) == Components(root) + Folder(child)
  {
    var at := LastSlash(child);
    if at < 0 || child[..at] == "." {
      assert Components(root) + [] == Components(root);
    } else {
      assert Parent(root, child)[1..] == root[1..] + ['/'] + child[..at];
      SplitConcat(root[1..], child[..at], '/');
    }
  }

  lemma ComponentsConcat(parent: string, target: string)
    requires parent != ""
    ensures Components(parent + "/" + target) == Components(parent) + Split(target, '/')
  {
    var whole := parent + "/" + target;
    assert whole[1..] == parent[1..] + ['/'] + target;
    SplitConcat(parent[1..], target, '/');
  }

  /** The candidate is the print of the destination. */
  lemma CandidateIs(root: string, child: string, target: string)
    requires Canonical(root) && target != ""
    ensures
      var d := Destination(root, child, target);
      Normal(if target[0] == '/' then target else Parent(root, child) + "/" + target)
      == if d.Some? then Print(d.value) else ""
  {
    if target[0] == '/' {
      hide Resolve, Components, Print;
      AbsoluteNormal(target);
    } else {
      RelativeIs(root, child, target);
    }
  }

  lemma Rebase(root: seq<string>, a: seq<string>, b: seq<string>)
    requires AllSafe(root)
    ensures Resolve([], root + a + b) == Resolve(root, a + b)
  {
    assert root + a + b == root + (a + b);
    ResolveConcat([], root, a + b);
    ResolveNames([], root);
    assert [] + root == root;
  }

  lemma RelativeIs(root: string, child: string, target: string)
    requires Canonical(root) && target != "" && target[0] != '/'
    ensures
      var d := Destination(root, child, target);
      Normal(Parent(root, child) + "/" + target) == if d.Some? then Print(d.value) else ""
  {
    CanonicalParts(root);
    hide Split, Resolve, Normal, Components, Print, Parent, Folder, Canonical, AllSafe;
    ParentComponents(root, child);
    ComponentsConcat(Parent(root, child), target);
    AbsoluteNormal(Parent(root, child) + "/" + target);
    Rebase(Components(root), Folder(child), Split(target, '/'));
  }

  lemma AbsoluteNormal(path: string)
    requires path != "" && path[0] == '/'
    ensures
      var d := Resolve([], Components(path));
      Normal(path) == if d.Some? then Print(d.value) else ""
  {
    if Resolve([], Components(path)).Some? {
      ResolvedIsSafe([], path[1..]);
      assert path == ['/'] + path[1..];
    }
  }

  /** The path leads back to the root: legal, never above it, as many steps up as names. */
  ghost predicate LeadsToRoot(path: string) {
    && path != "" && path[0] == '/'
    && (forall i :: 0 <= i < |Components(path)| ==> Legal(Components(path)[i]))
    && StaysBelow(0, Components(path)) && Depth(Components(path)) == 0
  }

  lemma NormalIsRoot(path: string)
    ensures Normal(path) == "/" <==> LeadsToRoot(path)
  {
    if path != "" && path[0] == '/' {
      ResolvesExactly([], Components(path));
      AbsoluteNormal(path);
      hide Resolve, Normal, StaysBelow, Depth;
      var d := Resolve([], Components(path));
      if d.Some? && d.value != [] {
        ResolveSafe([], Components(path));
        PrintIsLong(d.value);
      }
    }
  }

  /** Normalising a second time changes nothing, except exactly for the paths that lead to
      the root: they give `/`, which gives nothing. */
  lemma NormalTwice(path: string)
    ensures Normal(Normal(path)) == Normal(path) <==> !LeadsToRoot(path)
    ensures LeadsToRoot(path) ==> Normal(path) == "/" && Normal("/") == ""
  {
    NormalIsRoot(path);
    hide LeadsToRoot;
    assert Components("/") == [""];
    assert Normal("/") == "";
    if Normal(path) != "" && Normal(path) != "/" {
      var place := Resolve([], Components(path)).value;
      ResolveSafe([], Components(path));
      PrintIsNormal(place);
    }
  }

  ghost predicate Allowed(roots: seq<string>, d: Option<seq<string>>) {
    d.Some? && exists g :: g in roots && Components(g) <= d.value
  }

  lemma DestinationSafe(root: string, child: string, target: string)
    requires Canonical(root) && Destination(root, child, target).Some?
    ensures AllSafe(Destination(root, child, target).value)
  {
    CanonicalParts(root);
    if target != "" && target[0] == '/' {
      ResolveSafe([], Components(target));
    } else {
      ResolveSafe(Components(root), Folder(child) + Split(target, '/'));
    }
  }

  /** No unsafe or empty target has a destination. */
  lemma TargetIsSafe(root: string, child: string, target: string)
    requires Canonical(root) && Destination(root, child, target).Some?
    ensures target != "" && SafeText(target)
  {
    if target != "" && target[0] == '/' {
      ResolvedIsSafe([], target[1..]);
      assert target == ['/'] + target[1..];
    } else {
      ResolveConcat(Components(root), Folder(child), Split(target, '/'));
      var from := Resolve(Components(root), Folder(child)).value;
      ResolvedIsSafe(from, target);
      NoPlace(from);
    }
  }

  lemma NoPlace(place: seq<string>)
    ensures Resolve(place, Split("", '/')) == None
  {
  }

  /** `symlinkStaysWithinGuardedRoots`: true exactly when the link leads somewhere, and
      that place is at or below one of the guarded roots. */
  method SymlinkStaysWithin(roots: seq<string>, root: string, child: string, target: string)
    returns (ok: bool, ghost parts: seq<string>, ghost place: seq<string>)
    requires Canonical(root) && forall g :: g in roots ==> Canonical(g)
    ensures ok <==> Allowed(roots, Destination(root, child, target))
    ensures target != "" ==> Pieces(Candidate(root, child, target)[1..], '/', parts)
    ensures target != "" && Follows(parts) ==> Ends(parts, place)
    ensures ok <==> target != "" && Follows(parts) && exists g :: g in roots && AtOrBelow(g, place)
  {
    hide Destination, Normal, SafeText, Pieces, Follows, Ends, Allowed, AtOrBelow, Path, Candidate;
    parts, place := AllowedMeans(roots, root, child, target);
    ok := false;
    if Destination(root, child, target).Some? {
      TargetIsSafe(root, child, target);
      DestinationSafe(root, child, target);
    }
    AllowedSome(roots, Destination(root, child, target));
    if target == "" || !SafeText(target) { return; }
    var separator := LastSlash(child);
    var parent := if separator < 0 || child[..separator] == "." then root else root + "/" + child[..separator];
    assert parent == Parent(root, child);
    ghost var p, q;
    var candidate;
    candidate, p, q := NormalizeAbsolutePath(if target[0] == '/' then target else parent + "/" + target);
    CandidateIs(root, child, target);
    ghost var d := Destination(root, child, target);
    PrintNonEmpty(d);
    if candidate == "" { return; }
    ok := AnyRoot(roots, candidate, d.value);
    AllowedSome(roots, d);
  }

  lemma AllowedSome(roots: seq<string>, d: Option<seq<string>>)
    ensures Allowed(roots, d) <==> d.Some? && exists g :: g in roots && Components(g) <= d.value
  {
  }

  /** The absolute path that a link stands for. */
  function Candidate(root: string, child: string, target: string): (path: string)
    requires root != "" && target != ""
    ensures path != ""
  {
    if target[0] == '/' then target else Parent(root, child) + "/" + target
  }

  /** The components of the root lead to the place or above it. */
  ghost predicate AtOrBelow(root: string, place: seq<string>) {
    root != "" && exists parts :: Pieces(root[1..], '/', parts) && parts <= place
  }

  /** Where a link leads, without the machine. */
  lemma AllowedMeans(roots: seq<string>, root: string, child: string, target: string)
    returns (parts: seq<string>, place: seq<string>)
    requires Canonical(root) && forall g :: g in roots ==> Canonical(g)
    ensures target != "" ==> Pieces(Candidate(root, child, target)[1..], '/', parts)
    ensures target != "" && Follows(parts) ==> Ends(parts, place)
    ensures Allowed(roots, Destination(root, child, target)) <==>
            target != "" && Follows(parts) && exists g :: g in roots && AtOrBelow(g, place)
  {
    hide Resolve, Destination, Normal, Pieces, Follows, Ends, Path, AtOrBelow, Components, Candidate, SafeText;
    parts, place := [], [];
    if target == "" {
      NowhereEmpty(root, child);
    } else {
      CandidateResolves(root, child, target);
      parts, place := NormalMeans(Candidate(root, child, target));
      CandidateIs(root, child, target);
      var d := Destination(root, child, target);
      PrintNonEmpty(d);
      forall g | g in roots ensures AtOrBelow(g, place) <==> Components(g) <= place {
        RootPieces(g, place);
      }
    }
  }

  lemma NowhereEmpty(root: string, child: string)
    requires Canonical(root)
    ensures Destination(root, child, "").None?
  {
    if Destination(root, child, "").Some? { TargetIsSafe(root, child, ""); }
  }

  lemma RootPieces(g: string, place: seq<string>)
    requires Canonical(g)
    ensures AtOrBelow(g, place) <==> Components(g) <= place
  {
    SplitPieces(g[1..], '/');
    if AtOrBelow(g, place) {
      var parts :| Pieces(g[1..], '/', parts) && parts <= place;
      SplitJoin(parts, '/');
    }
  }

  lemma CandidateResolves(root: string, child: string, target: string)
    requires Canonical(root) && target != ""
    ensures Candidate(root, child, target)[0] == '/'
    ensures Candidate(root, child, target) == if target[0] == '/' then target else Parent(root, child) + "/" + target
    ensures Destination(root, child, target) == Resolve([], Components(Candidate(root, child, target)))
  {
    if target[0] != '/' {
      CanonicalParts(root);
      hide Split, Resolve, Normal, Components, Print, Parent, Folder, Canonical, AllSafe;
      ParentComponents(root, child);
      ComponentsConcat(Parent(root, child), target);
      Rebase(Components(root), Folder(child), Split(target, '/'));
    }
  }

  lemma PrintNonEmpty(d: Option<seq<string>>)
    ensures d.Some? ==> Print(d.value) != ""
  {
    if d.Some? && d.value != [] { CatNonEmpty(d.value); }
  }

  method AnyRoot(roots: seq<string>, candidate: string, ghost place: seq<string>) returns (ok: bool)
    requires forall g :: g in roots ==> Canonical(g)
    requires AllSafe(place) && candidate == Print(place)
    ensures ok <==> exists g :: g in roots && Components(g) <= place
  {
    hide Canonical, Components, Print, AllSafe;
    var i := 0;
    while i < |roots|
      invariant 0 <= i <= |roots|
      invariant forall k :: 0 <= k < i ==> !(Components(roots[k]) <= place)
    {
      var g := roots[i];
      CanonicalParts(g);
      UnderRoot(Components(g), place);
      if candidate == g || g + "/" <= candidate { return true; }
      i := i + 1;
    }
    return false;
  }
}
