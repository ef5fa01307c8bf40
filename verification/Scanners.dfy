/** The two scanners of a trace line: one finds the parenthesis that ends the arguments,
    the other cuts the arguments at commas. */
module Scanners {
  import opened Cats
  import opened Wrappers
  import Text

  /** Outside a string, inside one, or just after a backslash inside one. */
  datatype Quote = Plain | Quoted | Escaped

  function NextQuote(q: Quote, c: char): Quote {
    match q
    case Plain => if c == '"' then Quoted else Plain
    case Quoted => if c == '\\' then Escaped else if c == '"' then Plain else Quoted
    case Escaped => Quoted
  }

  // ---------- the scanner for the end of the arguments ----------

  datatype Outer = Outer(quote: Quote, depth: int)

  function NextOuter(s: Outer, c: char): Outer {
    if s.quote != Plain || c == '"' then s.(quote := NextQuote(s.quote, c))
    else if c == '(' then s.(depth := s.depth + 1)
    else if c == ')' then s.(depth := s.depth - 1)
    else s
  }

  /** The state after the text that follows the opening parenthesis. */
  function OuterAt(text: string): Outer {
    if text == "" then Outer(Plain, 1) else NextOuter(OuterAt(text[..|text| - 1]), text[|text| - 1])
  }

  /** Inside a string, begun by a quote at `i`, the scanner is just after a backslash that
      counts exactly when it stands after an odd number of them. */
  lemma {:induction false} InString(text: string, i: nat, k: nat)
    requires i < k <= |text| && OuterAt(text[..i]).quote == Plain && text[i] == '"'
    requires Text.NoneCloses(text, i + 1, k)
    ensures OuterAt(text[..k]).quote == if Text.Slashes(text, i + 1, k) % 2 == 1 then Escaped else Quoted
    decreases k
  {
    assert text[..k][..k - 1] == text[..k - 1];
    if k > i + 1 {
      InString(text, i, k - 1);
      assert !Text.Closes(text, i + 1, k - 1);
    }
  }

  /** The string ends with the first quote that an even number of backslashes precedes. */
  lemma StringEnds(text: string, i: nat, e: nat)
    requires i < e < |text| && OuterAt(text[..i]).quote == Plain && text[i] == '"'
    requires Text.Closes(text, i + 1, e) && Text.NoneCloses(text, i + 1, e)
    ensures OuterAt(text[..e + 1]).quote == Plain
    ensures forall k :: i < k <= e ==> OuterAt(text[..k]).quote != Plain
  {
    forall k: nat | i < k <= e ensures OuterAt(text[..k]).quote != Plain {
      InString(text, i, k);
    }
    InString(text, i, e);
    assert text[..e + 1][..e] == text[..e];
  }

  /** Outside strings only parentheses count, and inside nothing does. */
  lemma DepthCounts(text: string, k: nat)
    requires k < |text|
    ensures
      var here := OuterAt(text[..k]);
      OuterAt(text[..k + 1]).depth ==
        here.depth + if here.quote != Plain then 0 else if text[k] == '(' then 1 else if text[k] == ')' then -1 else 0
  {
    assert text[..k + 1][..k] == text[..k];
  }

  /** `close` is the first place where the depth returns to 0. */
  ghost predicate ClosesAt(rest: string, close: nat) {
    && close < |rest| && OuterAt(rest[..close + 1]).depth == 0
    && forall k :: 0 <= k <= close ==> OuterAt(rest[..k]).depth != 0
  }

  /** The loop of `parseRecord`, over the line after its first opening parenthesis. */
  method FindClose(rest: string) returns (close: Option<nat>)
    ensures close.Some? <==> exists k: nat :: ClosesAt(rest, k)
    ensures close.Some? ==> ClosesAt(rest, close.value)
  {
    var quoted, escaped, depth, index := false, false, 1, 0;
    while index < |rest|
      invariant 0 <= index <= |rest|
      invariant OuterAt(rest[..index]) == Outer(if escaped then Escaped else if quoted then Quoted else Plain, depth)
      invariant escaped ==> quoted
      invariant forall k :: 0 <= k <= index ==> OuterAt(rest[..k]).depth != 0
    {
      var item := rest[index];
      assert rest[..index + 1][..index] == rest[..index];
      if quoted {
        if escaped { escaped := false; } else if item == '\\' { escaped := true; } else if item == '"' { quoted :=
            false; }
      } else if item == '"' {
        quoted := true;
      } else if item == '(' {
        depth := depth + 1;
      } else if item == ')' {
        depth := depth - 1;
        if depth == 0 {
          assert ClosesAt(rest, index);
          return Some(index);
        }
      }
      index := index + 1;
    }
    return None;
  }

  // ---------- the scanner for the arguments ----------

  datatype Inner = Inner(quote: Quote, round: int, square: int, brace: int)

  const START: Inner := Inner(Plain, 0, 0, 0)

  function NextInner(s: Inner, c: char): Inner {
    if s.quote != Plain || c == '"' then s.(quote := NextQuote(s.quote, c))
    else match c
      case '(' => s.(round := s.round + 1)
      case ')' => s.(round := s.round - 1)
      case '[' => s.(square := s.square + 1)
      case ']' => s.(square := s.square - 1)
      case '{' => s.(brace := s.brace + 1)
      case '}' => s.(brace := s.brace - 1)
      case _ => s
  }

  function After(s: Inner, text: string): Inner {
    if text == "" then s else NextInner(After(s, text[..|text| - 1]), text[|text| - 1])
  }

  function At(text: string): Inner { After(START, text) }

  predicate Sane(s: Inner) { s.round >= 0 && s.square >= 0 && s.brace >= 0 }

  /** No prefix closes more than it opens, and the whole closes everything. */
  ghost predicate Balanced(text: string) {
    && (forall k :: 0 <= k <= |text| ==> Sane(At(text[..k])))
    && At(text) == START
  }

  predicate TopComma(text: string, i: nat)
    requires i < |text|
  {
    text[i] == ',' && At(text[..i]) == START
  }

  ghost predicate NoTopComma(text: string) { forall i :: 0 <= i < |text| ==> !TopComma(text, i) }

  function WithComma(piece: string): string { piece + "," }

  /** `done` and `last` are the pieces of `text`: balanced, without a top-level comma, and
      with commas between them the text. */
  ghost predicate Pieces(text: string, done: seq<string>, last: string) {
    && text == Cat(WithComma, done) + last
    && (forall i :: 0 <= i < |done| ==> Balanced(done[i]) && NoTopComma(done[i]))
    && Balanced(last) && NoTopComma(last)
  }

  // ---------- composition ----------

  lemma {:induction false} AfterConcat(s: Inner, a: string, b: string)
    ensures After(s, a + b) == After(After(s, a), b)
    decreases |b|
  {
    if b == "" {
      assert a + b == a;
    } else {
      var front := b[..|b| - 1];
      assert (a + b)[..|a + b| - 1] == a + front;
      AfterConcat(s, a, front);
    }
  }

  /** After balanced text the scanner is where it began. */
  lemma Resumes(a: string, b: string)
    requires At(a) == START
    ensures At(a + b) == At(b)
  {
    AfterConcat(START, a, b);
  }

  lemma AtNext(text: string, i: nat)
    requires i < |text|
    ensures At(text[..i + 1]) == NextInner(At(text[..i]), text[i])
  {
    assert text[..i + 1][..i] == text[..i];
  }

  /** Positions of the whole are positions of its second part. */
  lemma Shift(a: string, b: string, k: nat)
    requires At(a) == START && k <= |b|
    ensures At((a + b)[..|a| + k]) == At(b[..k])
  {
    assert (a + b)[..|a| + k] == a + b[..k];
    Resumes(a, b[..k]);
  }

  lemma BalancedConcat(a: string, b: string)
    requires Balanced(a)
    ensures Balanced(a + b) <==> Balanced(b)
  {
    hide After, Sane;
    Resumes(a, b);
    if Balanced(b) {
      forall k | 0 <= k <= |a + b| ensures Sane(At((a + b)[..k])) {
        if k <= |a| {
          assert (a + b)[..k] == a[..k];
        } else {
          Shift(a, b, k - |a|);
        }
      }
    }
    if Balanced(a + b) {
      forall k | 0 <= k <= |b| ensures Sane(At(b[..k])) {
        Shift(a, b, k);
        assert Sane(At((a + b)[..|a| + k]));
      }
    }
  }

  lemma CommaBalanced()
    ensures Balanced(",")
  {
    AtNext(",", 0);
    assert ","[..0] == "" && ","[..1] == ",";
    forall k | 0 <= k <= 1 ensures Sane(At(","[..k])) {
      assert k == 0 || k == 1;
    }
  }

  lemma WithCommaBalanced(piece: string)
    requires Balanced(piece)
    ensures Balanced(WithComma(piece))
  {
    CommaBalanced();
    BalancedConcat(piece, ",");
  }

  /** Text that has pieces is balanced. */
  lemma {:induction false} PiecesBalanced(text: string, done: seq<string>, last: string)
    requires Pieces(text, done, last)
    ensures Balanced(text)
    decreases |done|
  {
    hide Balanced, NoTopComma;
    if done == [] {
      assert text == last;
    } else {
      var rest := Cat(WithComma, done[1..]) + last;
      assert text == WithComma(done[0]) + rest;
      PiecesBalanced(rest, done[1..], last);
      WithCommaBalanced(done[0]);
      BalancedConcat(WithComma(done[0]), rest);
    }
  }

  /** Where the first piece ends. */
  lemma FirstComma(piece: string, rest: string)
    requires Balanced(piece) && NoTopComma(piece)
    ensures TopComma(piece + "," + rest, |piece|)
    ensures forall i :: 0 <= i < |piece| ==> !TopComma(piece + "," + rest, i)
  {
    hide After;
    var text := piece + "," + rest;
    assert text[..|piece|] == piece;
    forall i | 0 <= i < |piece| ensures !TopComma(text, i) {
      assert text[..i] == piece[..i] && text[i] == piece[i];
      assert !TopComma(piece, i);
    }
  }

  /** A text has at most one list of pieces. */
  lemma {:induction false} PiecesUnique(text: string, a: seq<string>, x: string, b: seq<string>, y: string)
    requires Pieces(text, a, x) && Pieces(text, b, y)
    ensures a == b && x == y
    decreases |a|
  {
    hide Balanced, TopComma;
    if a == [] && b == [] {
      assert x == text == y;
    } else if a == [] {
      NotLast(text, b, y, x);
    } else if b == [] {
      NotLast(text, a, x, y);
    } else {
      var restA, restB := Cat(WithComma, a[1..]) + x, Cat(WithComma, b[1..]) + y;
      assert text == a[0] + "," + restA && text == b[0] + "," + restB;
      FirstComma(a[0], restA);
      FirstComma(b[0], restB);
      assert |a[0]| == |b[0]|;
      assert a[0] == text[..|a[0]|] == b[0];
      assert restA == text[|a[0]| + 1..] == restB;
      PiecesUnique(restA, a[1..], x, b[1..], y);
      assert a == [a[0]] + a[1..] && b == [b[0]] + b[1..];
    }
  }

  lemma NotLast(text: string, b: seq<string>, y: string, last: string)
    requires Pieces(text, b, y) && b != [] && text == last
    ensures !NoTopComma(last)
  {
    var rest := Cat(WithComma, b[1..]) + y;
    assert text == b[0] + "," + rest;
    FirstComma(b[0], rest);
  }

  // ---------- splitArguments ----------

  predicate Space(c: char) { c == ' ' || 9 <= c as int <= 13 }

  function TrimLeft(s: string): string { if s != "" && Space(s[0]) then TrimLeft(s[1..]) else s }

  function TrimRight(s: string): string
    decreases |s|
  {
    if s != "" && Space(s[|s| - 1]) then TrimRight(s[..|s| - 1]) else s
  }

  function Trim(s: string): string { TrimRight(TrimLeft(s)) }

  ghost predicate TrimmedOf(arguments: seq<string>, pieces: seq<string>) {
    |arguments| == |pieces| && forall i :: 0 <= i < |pieces| ==> arguments[i] == Trim(pieces[i])
  }

  /** What holds in the loop: the pieces so far, and an unfinished piece from `begin`. */
  ghost predicate Cutting(input: string, begin: nat, index: nat, done: seq<string>) {
    && begin <= index <= |input| && input[..begin] == Cat(WithComma, done)
    && At(input[..begin]) == START
    && (forall i :: 0 <= i < |done| ==> Balanced(done[i]) && NoTopComma(done[i]))
    && (forall k :: begin <= k <= index ==> Sane(At(input[..k])))
    && NoTopComma(input[begin..index])
  }

  lemma PieceEnds(input: string, begin: nat, index: nat, done: seq<string>)
    requires Cutting(input, begin, index, done) && At(input[..index]) == START
    ensures Balanced(input[begin..index]) && NoTopComma(input[begin..index])
  {
    hide After, Sane, NoTopComma;
    var head, piece := input[..begin], input[begin..index];
    forall k | 0 <= k <= |piece| ensures At(piece[..k]) == At(input[..begin + k]) {
      assert head + piece == input[..index];
      Shift(head, piece, k);
      assert input[..index][..begin + k] == input[..begin + k];
    }
    assert piece[..|piece|] == piece;
  }

  lemma CommaCuts(input: string, begin: nat, index: nat, done: seq<string>)
    requires Cutting(input, begin, index, done) && index < |input| && input[index] == ',' && At(input[..index]) == START
    ensures Cutting(input, index + 1, index + 1, done + [input[begin..index]])
  {
    PieceEnds(input, begin, index, done);
    AtNext(input, index);
    var piece := input[begin..index];
    CatSnoc(WithComma, done, piece);
    assert input[..index + 1] == input[..begin] + WithComma(piece);
    hide After, Balanced;
  }

  lemma ItemContinues(input: string, begin: nat, index: nat, done: seq<string>)
    requires Cutting(input, begin, index, done) && index < |input| && Sane(At(input[..index + 1]))
    requires input[index] == ',' ==> At(input[..index]) != START
    ensures Cutting(input, begin, index + 1, done)
  {
    hide After, At, Balanced, Sane, NoTopComma;
    var head, now := input[..begin], input[begin..index];
    assert head + now == input[..index];
    Resumes(head, now);
    assert input[begin..index + 1] == now + [input[index]];
    NoCommaYet(now, input[index]);
  }

  lemma NoCommaYet(now: string, c: char)
    requires NoTopComma(now) && (c == ',' ==> At(now) != START)
    ensures NoTopComma(now + [c])
  {
    hide At;
    var next := now + [c];
    forall i | 0 <= i < |next| ensures !TopComma(next, i) {
      assert next[..i] == now[..i];
      assert i < |now| ==> !TopComma(now, i);
      assert i == |now| ==> next[..i] == now;
    }
  }

  /** `splitArguments`: it succeeds exactly on balanced text, and the arguments are its
      pieces, trimmed. */
  method SplitArguments(input: string) returns (r: Option<seq<string>>, ghost done: seq<string>, ghost last: string)
    ensures r.Some? <==> Balanced(input)
    ensures r.Some? ==> Pieces(input, done, last) && TrimmedOf(r.value, done + [last])
  {
    hide After, Balanced, NoTopComma, TopComma, Cat, Cutting, Trim;
    var arguments: seq<string> := [];
    var begin, round, square, brace, quoted, escaped, index := 0, 0, 0, 0, false, false, 0;
    done, last := [], "";
    CuttingStart(input);
    while index < |input|
      invariant 0 <= begin <= index <= |input|
      invariant At(input[..index]) == Inner(if escaped then Escaped else if quoted then Quoted else Plain, round,
                square, brace)
      invariant escaped ==> quoted
      invariant Cutting(input, begin, index, done)
      invariant TrimmedOf(arguments, done)
    {
      var item := input[index];
      AtNext(input, index);
      CuttingSane(input, begin, index, done);
      ghost var cut := false;
      if quoted {
        if escaped { escaped := false; } else if item == '\\' { escaped := true; } else if item == '"' { quoted :=
            false; }
      } else if item == '"' {
        quoted := true;
      } else if item == '(' {
        round := round + 1;
      } else if item == ')' {
        round := round - 1;
      } else if item == '[' {
        square := square + 1;
      } else if item == ']' {
        square := square - 1;
      } else if item == '{' {
        brace := brace + 1;
      } else if item == '}' {
        brace := brace - 1;
      } else if item == ',' && round == 0 && square == 0 && brace == 0 {
        arguments := arguments + [Trim(input[begin..index])];
        CommaCuts(input, begin, index, done);
        done := done + [input[begin..index]];
        begin := index + 1;
        cut := true;
      }
      if round < 0 || square < 0 || brace < 0 {
        NotBalanced(input, index + 1);
        return None, done, last;
      }
      if !cut { ItemContinues(input, begin, index, done); }
      index := index + 1;
    }
    assert input[..index] == input;
    if quoted || escaped || round != 0 || square != 0 || brace != 0 {
      NotBalanced(input, index);
      return None, done, last;
    }
    PieceEnds(input, begin, index, done);
    last := input[begin..];
    assert input[begin..index] == last;
    WholeInPieces(input, begin, done);
    PiecesBalanced(input, done, last);
    arguments := arguments + [Trim(input[begin..])];
    return Some(arguments), done, last;
  }

  lemma CuttingStart(input: string)
    ensures Cutting(input, 0, 0, []) && At(input[..0]) == START
  {
  }

  lemma CuttingSane(input: string, begin: nat, index: nat, done: seq<string>)
    requires Cutting(input, begin, index, done)
    ensures Sane(At(input[..index]))
  {
  }

  lemma NotBalanced(input: string, k: nat)
    requires k <= |input| && (!Sane(At(input[..k])) || (k == |input| && At(input) != START))
    ensures !Balanced(input)
  {
  }

  lemma WholeInPieces(input: string, begin: nat, done: seq<string>)
    requires Cutting(input, begin, |input|, done) && Balanced(input[begin..]) && NoTopComma(input[begin..])
    ensures Pieces(input, done, input[begin..])
  {
    assert input == input[..begin] + input[begin..];
  }

  // ---------- the scanners in lockstep ----------

  /** Both scanners agree on quotes, and their depths differ by the parenthesis before. */
  lemma {:induction false} Lockstep(text: string)
    ensures OuterAt(text) == Outer(At(text).quote, At(text).round + 1)
  {
    if text != "" { Lockstep(text[..|text| - 1]); }
  }

  lemma {:induction false} DepthPositive(rest: string, close: nat, k: nat)
    requires ClosesAt(rest, close) && k <= close
    ensures OuterAt(rest[..k]).depth >= 1
    decreases k
  {
    if k > 0 {
      DepthPositive(rest, close, k - 1);
      assert rest[..k][..k - 1] == rest[..k - 1];
      assert OuterAt(rest[..k]).depth != 0;
    }
  }

  /** On what the first scanner selects, the second never fails for a round parenthesis
      or a quote. */
  lemma RoundNeverFails(rest: string, close: nat)
    requires ClosesAt(rest, close)
    ensures forall k :: 0 <= k <= close ==> At(rest[..close][..k]).round >= 0
    ensures At(rest[..close]).round == 0 && At(rest[..close]).quote == Plain
  {
    hide After;
    forall k | 0 <= k <= close ensures At(rest[..close][..k]).round >= 0 {
      DepthPositive(rest, close, k);
      Lockstep(rest[..k]);
      assert rest[..close][..k] == rest[..k];
    }
    DepthPositive(rest, close, close);
    Lockstep(rest[..close]);
    assert rest[..close + 1][..close] == rest[..close];
  }

  /** The failures that remain: square brackets and braces. */
  ghost predicate Matched(text: string) {
    && (forall k :: 0 <= k <= |text| ==> At(text[..k]).square >= 0 && At(text[..k]).brace >= 0)
    && At(text).square == 0 && At(text).brace == 0
  }

  lemma OnlyMatching(rest: string, close: nat)
    requires ClosesAt(rest, close)
    ensures Balanced(rest[..close]) <==> Matched(rest[..close])
  {
    hide After;
    RoundNeverFails(rest, close);
    var text := rest[..close];
    if Matched(text) {
      forall k | 0 <= k <= |text| ensures Sane(At(text[..k])) {
        assert At(text[..k]).round >= 0;
      }
    }
    if Balanced(text) {
      forall k | 0 <= k <= |text| ensures At(text[..k]).square >= 0 && At(text[..k]).brace >= 0 {
        assert Sane(At(text[..k]));
      }
    }
  }

  /** The arguments of a record, from the text after its first parenthesis: they are read
      exactly when a closing parenthesis exists and brackets and braces match before it. */
  method ReadArguments(rest: string) returns (r: Option<seq<string>>, ghost close: nat, ghost done: seq<string>,
                       ghost last: string)
    ensures r.Some? <==> exists k: nat :: ClosesAt(rest, k) && Matched(rest[..k])
    ensures r.Some? ==> ClosesAt(rest, close) && Pieces(rest[..close], done, last) && TrimmedOf(r.value, done + [last])
  {
    hide Balanced, Pieces, Matched, TrimmedOf, OuterAt;
    var found := FindClose(rest);
    if found.None? { return None, 0, [], ""; }
    close := found.value;
    OnlyMatching(rest, close);
    r, done, last := SplitArguments(rest[..found.value]);
    forall k: nat | ClosesAt(rest, k) ensures k == close {
    }
  }

  // ---------- parseRecord ----------

  datatype Record = Record(name: string, arguments: seq<string>, result: string, success: bool, error: string)

  /** A notice of the tracer, a record, or a refusal. */
  datatype Parsed = Notice | Read(record: Record) | Refused

  predicate StartsAt(line: string, i: nat, part: string) {
    i + |part| <= |line| && line[i..i + |part|] == part
  }

  predicate Contains(line: string, part: string) { exists i: nat :: i <= |line| && StartsAt(line, i, part) }

  /** Marks of a record that is not whole, or of the tracer's own messages. */
  const MARKS: seq<string> := ["<unfinished ...>", "<... ", "resumed>", "detached", "strace:"]

  predicate Marked(line: string) { exists i :: 0 <= i < |MARKS| && Contains(line, MARKS[i]) }

  predicate IsNotice(line: string) { "--- " <= line || "+++ " <= line }

  predicate NameChar(c: char) { 'a' <= c <= 'z' || '0' <= c <= '9' || c == '_' }

  predicate IsName(name: string) { name != "" && forall i :: 0 <= i < |name| ==> NameChar(name[i]) }

  predicate ErrorChar(c: char) { 'A' <= c <= 'Z' || '0' <= c <= '9' || c == '_' }

  predicate IsError(error: string) { error != "" && forall i :: 0 <= i < |error| ==> ErrorChar(error[i]) }

  function UpToBlank(s: string): string { if s == "" || s[0] == ' ' then "" else [s[0]] + UpToBlank(s[1..]) }

  /** The error name after `-1 `. */
  function ErrorOf(result: string): string
    requires "-1 " <= result
  {
    UpToBlank(result[3..])
  }

  predicate ResultOk(name: string, result: string) {
    if "?" <= result then name == "exit" || name == "exit_group"
    else "-1 " <= result ==> IsError(ErrorOf(result))
  }

  /** The line is a name, arguments in the parentheses that close first, and a result. */
  ghost predicate Shape(line: string, name: string, args: string, tail: string, result: string) {
    && line == name + "(" + args + ")" + tail && IsName(name)
    && ClosesAt(args + ")" + tail, |args|) && Trim(tail) == "= " + result
  }

  /** The line is a record with these parts. */
  ghost predicate Readable(line: string, name: string, args: string, tail: string, result: string) {
    && !Marked(line) && !IsNotice(line) && Shape(line, name, args, tail, result)
    && Matched(args) && ResultOk(name, result)
  }

  /** Parts before and after the parenthesis that a line can have. */
  lemma ShapeParts(line: string, name: string, args: string, tail: string, result: string, open: nat, close: nat)
    requires Shape(line, name, args, tail, result)
    requires open < |line| && line[open] == '(' && forall i :: 0 <= i < open ==> line[i] != '('
    ensures name == line[..open] && args + ")" + tail == line[open + 1..]
    ensures ClosesAt(line[open + 1..], close) ==>
            close == |args| && args == line[open + 1..][..close] && tail == line[open + 1..][close + 1..]
  {
    hide Trim, OuterAt;
    assert line[|name|] == '(';
    assert forall i :: 0 <= i < |name| ==> line[i] == name[i] && NameChar(name[i]);
    assert open == |name|;
    assert line[open + 1..] == args + ")" + tail;
  }

  lemma {:induction false} RightTrimmed(s: string)
    ensures TrimRight(s) != "" ==> !Space(TrimRight(s)[|TrimRight(s)| - 1])
    decreases |s|
  {
    if s != "" && Space(s[|s| - 1]) { RightTrimmed(s[..|s| - 1]); }
  }

  /** After `= ` in a trimmed text there is something. */
  lemma ResultNotEmpty(tail: string)
    requires "= " <= Trim(tail)
    ensures |Trim(tail)| > 2
  {
    RightTrimmed(TrimLeft(tail));
    hide TrimRight, TrimLeft;
    assert Trim(tail)[1] == "= "[1];
  }

  method FindOpen(line: string) returns (open: nat)
    ensures open <= |line| && forall i :: 0 <= i < open ==> line[i] != '('
    ensures open < |line| ==> line[open] == '('
  {
    open := 0;
    while open < |line| && line[open] != '('
      invariant open <= |line| && forall i :: 0 <= i < open ==> line[i] != '('
    {
      open := open + 1;
    }
  }

  /** `parseRecord`: a line is read exactly when it has the parts of a record, and then as
      those parts. The failure for an empty result cannot happen. */
  method ParseRecord(line: string) returns (r: Parsed, ghost args: string, ghost tail: string,
                     ghost done: seq<string>, ghost last: string)
    ensures r.Notice? <==> line != "" && !Marked(line) && IsNotice(line)
    ensures r.Read? <==> exists n, a, t, s :: Readable(line, n, a, t, s)
    ensures r.Read? ==>
      && Readable(line, r.record.name, args, tail, r.record.result)
      && Pieces(args, done, last) && TrimmedOf(r.record.arguments, done + [last])
      && r.record.success == !("?" <= r.record.result || "-1 " <= r.record.result)
      && (!r.record.success ==>
           r.record.error == if "?" <= r.record.result then "UNAVAILABLE" else ErrorOf(r.record.result))
      && (r.record.success ==> r.record.error == "")
  {
    hide Trim, OuterAt, Pieces, TrimmedOf, Matched, ErrorOf, Marked;
    args, tail, done, last := "", "", [], "";
    if line == "" || Marked(line) { return Refused, args, tail, done, last; }
    if IsNotice(line) { return Notice, args, tail, done, last; }
    var open := FindOpen(line);
    forall n, a, t, s | Shape(line, n, a, t, s) ensures 0 < open < |line| && IsName(line[..open]) {
      HasOpen(line, n, a, t, s, open);
    }
    if open == |line| || open == 0 { return Refused, args, tail, done, last; }
    var name := line[..open];
    if !IsName(name) { return Refused, args, tail, done, last; }
    r, args, tail, done, last := ParseAfter(line, open);
  }

  lemma CloseChar(rest: string, close: nat)
    requires ClosesAt(rest, close)
    ensures rest[close] == ')' && rest == rest[..close] + ")" + rest[close + 1..]
  {
    DepthPositive(rest, close, close);
    assert rest[..close + 1][..close] == rest[..close];
  }

  /** A line with this name and this closing parenthesis has one shape, if any. */
  lemma OnlyShape(line: string, open: nat, close: nat)
    requires open < |line| && line[open] == '(' && (forall i :: 0 <= i < open ==> line[i] != '(') &&
             IsName(line[..open])
    requires ClosesAt(line[open + 1..], close)
    ensures
      var rest := line[open + 1..];
      && (forall n, a, t, s :: Shape(line, n, a, t, s) ==>
            n == line[..open] && a == rest[..close] && t == rest[close + 1..] && Trim(t) == "= " + s)
      && (forall s :: Trim(rest[close + 1..]) == "= " + s ==>
        Shape(line, line[..open], rest[..close], rest[close + 1..], s))
  {
    hide Trim, OuterAt;
    var rest := line[open + 1..];
    forall n, a, t, s | Shape(line, n, a, t, s)
      ensures n == line[..open] && a == rest[..close] && t == rest[close + 1..]
    {
      ShapeParts(line, n, a, t, s, open, close);
    }
    CloseChar(rest, close);
    assert line == line[..open] + "(" + rest;
    assert line == line[..open] + "(" + rest[..close] + ")" + rest[close + 1..];
  }

  /** The part of `parseRecord` after the name. */
  method ParseAfter(line: string, open: nat)
    returns (r: Parsed, ghost args: string, ghost tail: string, ghost done: seq<string>, ghost last: string)
    requires open < |line| && line[open] == '(' && (forall i :: 0 <= i < open ==> line[i] != '(') &&
             IsName(line[..open])
    requires !Marked(line) && !IsNotice(line)
    ensures !r.Notice? && (r.Read? <==> exists n, a, t, s :: Readable(line, n, a, t, s))
    ensures r.Read? ==>
      && Readable(line, r.record.name, args, tail, r.record.result)
      && Pieces(args, done, last) && TrimmedOf(r.record.arguments, done + [last])
      && r.record.success == !("?" <= r.record.result || "-1 " <= r.record.result)
      && (!r.record.success ==>
           r.record.error == if "?" <= r.record.result then "UNAVAILABLE" else ErrorOf(r.record.result))
      && (r.record.success ==> r.record.error == "")
  {
    hide Trim, OuterAt, Pieces, TrimmedOf, Matched, ErrorOf, Marked, Shape, ClosesAt, Balanced, IsName, IsNotice;
    args, tail, done, last := "", "", [], "";
    var name, rest := line[..open], line[open + 1..];
    forall n, a, t, s | Shape(line, n, a, t, s) ensures exists k: nat :: ClosesAt(rest, k) {
      ShapeCloses(line, n, a, t, s, open);
    }
    var found := FindClose(rest);
    if found.None? { return Refused, args, tail, done, last; }
    var close := found.value;
    CloseFits(rest, close);
    OnlyShape(line, open, close);
    OnlyMatching(rest, close);
    args, tail := rest[..close], rest[close + 1..];
    var suffix := Trim(rest[close + 1..]);
    if !("= " <= suffix) { return Refused, args, tail, done, last; }
    var result := suffix[2..];
    ResultNotEmpty(rest[close + 1..]);
    if result == "" { assert false; }
    assert suffix == "= " + result;
    assert forall s :: suffix == "= " + s ==> s == result by { SameRest(suffix); }
    var success, error := !("-1 " <= result), "";
    if "?" <= result {
      if name != "exit" && name != "exit_group" { return Refused, args, tail, done, last; }
      success, error := false, "UNAVAILABLE";
    } else if !success {
      error := ErrorOf(result);
      if !IsError(error) { return Refused, args, tail, done, last; }
    }
    var split;
    split, done, last := SplitArguments(rest[..close]);
    if split.None? { return Refused, args, tail, done, last; }
    assert ResultOk(name, result);
    assert Readable(line, name, args, tail, result);
    return Read(Record(name, split.value, result, success, error)), args, tail, done, last;
  }

  lemma SameRest(suffix: string)
    ensures forall s :: suffix == "= " + s ==> s == suffix[2..]
  {
  }

  lemma CloseFits(rest: string, close: nat)
    requires ClosesAt(rest, close)
    ensures close < |rest|
  {
  }

  lemma ShapeCloses(line: string, name: string, args: string, tail: string, result: string, open: nat)
    requires Shape(line, name, args, tail, result)
    requires open < |line| && line[open] == '(' && (forall i :: 0 <= i < open ==> line[i] != '(')
    ensures ClosesAt(line[open + 1..], |args|)
  {
    hide Trim, OuterAt, ClosesAt;
    ShapeParts(line, name, args, tail, result, open, 0);
  }

  lemma HasOpen(line: string, name: string, args: string, tail: string, result: string, open: nat)
    requires Shape(line, name, args, tail, result)
    requires open <= |line| && (forall i :: 0 <= i < open ==> line[i] != '(') && (open < |line| ==> line[open] == '(')
    ensures 0 < open < |line| && IsName(line[..open])
  {
    hide Trim, OuterAt;
    assert line[|name|] == '(';
    assert forall i :: 0 <= i < |name| ==> line[i] == name[i] && NameChar(name[i]);
    assert open == |name| && line[..open] == name;
  }
}
