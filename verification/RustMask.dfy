/** The masker of Rust comments and literals: which characters belong to a token, and
    that masking them leaves nothing to mask. `isWord` stands for Python's
    `isalnum() or "_"`, on which nothing here depends. */
module RustMask {
  import opened RustTokens
  import opened Text
  import opened Wrappers

  predicate StartsWith(text: string, i: nat, pattern: string) {
    i + |pattern| <= |text| && text[i..i + |pattern|] == pattern
  }

  /** `text.find(pattern, i)`. */
  function FindFrom(text: string, pattern: string, i: nat): (r: int)
    ensures r == -1 || (i <= r && r + |pattern| <= |text|)
    decreases |text| - i
  {
    if i + |pattern| > |text| then -1
    else if StartsWith(text, i, pattern) then i
    else FindFrom(text, pattern, i + 1)
  }

  /** Where a block comment ends, from `i` inside `depth` open comments. */
  function BlockEnd(text: string, i: nat, depth: nat): (r: int)
    requires i <= |text|
    ensures r == -1 || i <= r <= |text|
    decreases |text| - i
  {
    if depth == 0 then i
    else if i == |text| then -1
    else if StartsWith(text, i, "/*") then BlockEnd(text, i + 2, depth + 1)
    else if StartsWith(text, i, "*/") then BlockEnd(text, i + 2, depth - 1)
    else BlockEnd(text, i + 1, depth)
  }

  /** Where a string ends, from `i` inside it; a backslash takes the next character
      with it. */
  function StringEnd(text: string, i: nat): (r: int)
    ensures r == -1 || i < r <= |text|
    decreases |text| - i
  {
    if i >= |text| then -1
    else if text[i] == '"' then i + 1
    else StringEnd(text, i + if text[i] == '\\' then 2 else 1)
  }

  // ---------- what the three find ----------

  /** The first occurrence at or after `i`, if there is one. */
  lemma {:induction false} FindsFirst(text: string, pattern: string, i: nat)
    ensures
      var r := FindFrom(text, pattern, i);
      && (r >= 0 ==> StartsWith(text, r, pattern))
      && (forall k :: i <= k && (r < 0 || k < r) ==> !StartsWith(text, k, pattern))
    decreases |text| - i
  {
    if i + |pattern| <= |text| && !StartsWith(text, i, pattern) {
      FindsFirst(text, pattern, i + 1);
    }
  }

  lemma StartsTwo(text: string, i: nat, pattern: string)
    requires |pattern| == 2
    ensures StartsWith(text, i, pattern) <==> Two(text, i, pattern[0], pattern[1])
  {
    if i + 2 <= |text| {
      assert text[i..i + 2] == [text[i], text[i + 1]] && pattern == [pattern[0], pattern[1]];
    }
  }

  /** Reading on at `i`, where no delimiter is under way. */
  lemma MarkStep(text: string, start: nat, i: nat)
    requires start <= i < |text| && (i > start ==> !IsMark(text, start, i - 1))
    ensures Level(text, start, i + 1) == Level(text, start, i)
    ensures
      if StartsWith(text, i, "/*") then
        i + 2 <= |text| && !IsMark(text, start, i + 1) && Level(text, start, i + 2) == Level(text, start, i) + 1
      else if StartsWith(text, i, "*/") then
        i + 2 <= |text| && !IsMark(text, start, i + 1) && Level(text, start, i + 2) == Level(text, start, i) - 1
      else
        !IsMark(text, start, i)
  {
    StartsTwo(text, i, "/*");
    StartsTwo(text, i, "*/");
    hide StartsWith;
    if StartsWith(text, i, "/*") || StartsWith(text, i, "*/") {
      assert IsMark(text, start, i);
    }
  }

  lemma {:induction false} BlockEndFrom(text: string, start: nat, i: nat, depth: nat)
    requires start <= i <= |text| && (i > start ==> !IsMark(text, start, i - 1)) && Level(text, start, i) == depth
    ensures
      var r := BlockEnd(text, i, depth);
      && (r >= 0 ==> Level(text, start, r) == 0)
      && (forall e :: i <= e <= |text| && (r < 0 || e < r) ==> Level(text, start, e) > 0)
    decreases |text| - i
  {
    hide StartsWith, IsMark, Level;
    if depth > 0 && i < |text| {
      MarkStep(text, start, i);
      if StartsWith(text, i, "/*") {
        BlockEndFrom(text, start, i + 2, depth + 1);
      } else if StartsWith(text, i, "*/") {
        BlockEndFrom(text, start, i + 2, depth - 1);
      } else {
        BlockEndFrom(text, start, i + 1, depth);
      }
    }
  }

  lemma BlockEndsFirst(text: string, start: nat)
    requires start <= |text|
    ensures FirstBalance(text, start, BlockEnd(text, start, 1))
  {
    BlockEndFrom(text, start, start, 1);
  }

  lemma {:induction false} StringEndFrom(text: string, start: nat, i: nat)
    requires start <= i && (i <= |text| ==> Slashes(text, start, i) % 2 == 0)
    ensures
      var r := StringEnd(text, i);
      && (r >= 0 ==> Closes(text, start, r - 1))
      && (forall j :: i <= j && (r < 0 || j < r - 1) ==> !Closes(text, start, j))
    decreases |text| - i
  {
    if i < |text| && text[i] != '"' {
      StringEndFrom(text, start, i + if text[i] == '\\' then 2 else 1);
      if text[i] == '\\' && i + 1 < |text| {
        assert Slashes(text, start, i + 1) == 1 + Slashes(text, start, i);
      }
    }
  }

  lemma StringEndsFirst(text: string, start: nat)
    requires start <= |text|
    ensures FirstClose(text, start, StringEnd(text, start))
  {
    StringEndFrom(text, start, start);
  }

  function HexRun(text: string, i: nat): (r: nat)
    requires i <= |text|
    ensures i <= r <= |text|
    ensures forall k :: i <= k < r ==> IsHex(text[k]) || text[k] == '_'
    decreases |text| - i
  {
    if i < |text| && (IsHex(text[i]) || text[i] == '_') then HexRun(text, i + 1) else i
  }

  /** The end of a character literal at `i`, or 0: a quote, then an escape or one
      character other than quote, backslash and newline, then a quote. */
  function CharEnd(text: string, i: nat): (r: nat)
    ensures r == 0 || (i + 3 <= r <= |text| && text[i] == '\'' && text[r - 1] == '\'')
  {
    if i + 3 > |text| || text[i] != '\'' then 0
    else if text[i + 1] != '\\' then
      if text[i + 1] != '\'' && text[i + 1] != '\n' && text[i + 2] == '\'' then i + 3 else 0
    else
      var braced :=
        if text[i + 2] == 'u' && i + 3 < |text| && text[i + 3] == '{' then
          var e := HexRun(text, i + 4);
          if e > i + 4 && e + 1 < |text| && text[e] == '}' && text[e + 1] == '\'' then e + 2 else 0
        else 0;
      if braced != 0 then braced
      else if text[i + 2] == 'x' && i + 5 < |text| && IsHex(text[i + 3]) && IsHex(text[i + 4]) &&
          text[i + 5] == '\'' then i + 6
      else if text[i + 2] != '\n' && i + 3 < |text| && text[i + 3] == '\'' then i + 4
      else 0
  }

  function HashRun(text: string, i: nat): (r: nat)
    requires i <= |text|
    ensures i <= r <= |text|
    ensures forall k :: i <= k < r ==> text[k] == '#'
    decreases |text| - i
  {
    if i < |text| && text[i] == '#' then HashRun(text, i + 1) else i
  }

  /** The position after the opening quote of a raw string at `i` and its number of
      hashes; position 0 if there is none. */
  function RawOpen(text: string, i: nat): (r: (nat, nat))
    requires i < |text|
    ensures r.0 == 0 || (i + 2 <= r.0 <= |text| && text[r.0 - 1] == '"')
  {
    var marked := if text[i] == 'r' then i + 1 else if text[i] == 'b' && i + 1 < |text| &&
        text[i + 1] == 'r' then i + 2 else 0;
    if marked == 0 then (0, 0)
    else
      var quote := HashRun(text, marked);
      if quote < |text| && text[quote] == '"' then (quote + 1, quote - marked) else (0, 0)
  }

  /** The text that closes a raw string. */
  function RawClose(hashes: nat): string {
    ['"'] + seq(hashes, _ => '#')
  }

  function ScanAt(text: string, i: nat, isWord: char -> bool): (s: Scan)
    requires i < |text|
    ensures s.Token? ==> i + 2 <= s.end <= |text|
  {
    if StartsWith(text, i, "//") then
      var newline := FindFrom(text, "\n", i);
      FindSkips(text, "\n", i);
      Token(if newline < 0 then |text| else newline)
    else if StartsWith(text, i, "/*") then
      var end := BlockEnd(text, i + 2, 1);
      if end < 0 then Unclosed(UnclosedComment) else Token(end)
    else
      var raw := if i == 0 || !isWord(text[i - 1]) then RawOpen(text, i) else (0, 0);
      if raw.0 > 0 then
        var end := FindFrom(text, RawClose(raw.1), raw.0);
        if end < 0 then Unclosed(UnclosedRawString) else Token(end + |RawClose(raw.1)|)
      else if CharEnd(text, i) > 0 then Token(CharEnd(text, i))
      else if text[i] == '"' then
        var end := StringEnd(text, i + 1);
        if end < 0 then Unclosed(UnclosedString) else Token(end)
      else Plain
  }

  // ---------- what a scan means ----------

  lemma StartsOne(text: string, i: nat, c: char)
    ensures StartsWith(text, i, [c]) <==> i < |text| && text[i] == c
  {
    if i < |text| { assert text[i..i + 1] == [text[i]]; }
  }

  lemma LineMeans(text: string, i: nat)
    requires i <= |text|
    ensures
      var newline := FindFrom(text, "\n", i);
      LineEnds(text, i, if newline < 0 then |text| else newline)
  {
    hide StartsWith, FindFrom;
    FindsFirst(text, "\n", i);
    forall k: nat ensures StartsWith(text, k, "\n") <==> k < |text| && text[k] == '\n' {
      StartsOne(text, k, '\n');
    }
  }

  lemma StartsRaw(text: string, k: nat, hashes: nat)
    ensures StartsWith(text, k, RawClose(hashes)) <==> RawClosesAt(text, k, hashes)
  {
    var close := RawClose(hashes);
    if StartsWith(text, k, close) {
      var part := text[k..k + |close|];
      assert text[k] == part[0];
      forall m | k + 1 <= m < k + 1 + hashes ensures text[m] == '#' {
        assert text[m] == part[m - k];
      }
    }
    if RawClosesAt(text, k, hashes) {
      var part := text[k..k + |close|];
      forall j | 0 <= j < |close| ensures part[j] == close[j] {
        assert part[j] == text[k + j];
      }
      assert part == close;
    }
  }

  lemma RawCloseFirst(text: string, start: nat, hashes: nat)
    ensures FirstRawClose(text, start, hashes, FindFrom(text, RawClose(hashes), start))
  {
    hide StartsWith, RawClosesAt, FindFrom, RawClose;
    FindsFirst(text, RawClose(hashes), start);
    forall k: nat ensures StartsWith(text, k, RawClose(hashes)) <==> RawClosesAt(text, k, hashes) {
      StartsRaw(text, k, hashes);
    }
  }

  /** The run of hashes ends at the first other character. */
  lemma {:induction false} RunEnds(text: string, i: nat, e: nat)
    requires AllAre(text, i, e, '#') && e < |text| && text[e] != '#'
    ensures HashRun(text, i) == e
    decreases e - i
  {
    if i < e { RunEnds(text, i + 1, e); }
  }

  lemma RawOpenIs(text: string, i: nat, hashes: nat, quote: nat, isWord: char -> bool)
    requires i < |text| && RawAt(text, i, isWord, hashes, quote)
    ensures RawOpen(text, i) == (quote + 1, hashes)
  {
    hide HashRun;
    RunEnds(text, if text[i] == 'r' then i + 1 else i + 2, quote);
  }

  lemma RawOpens(text: string, i: nat, isWord: char -> bool)
    requires i < |text| && RawOpen(text, i).0 > 0 && (i == 0 || !isWord(text[i - 1]))
    ensures RawAt(text, i, isWord, RawOpen(text, i).1, RawOpen(text, i).0 - 1)
  {
    hide HashRun;
  }

  lemma {:induction false} HexEnds(text: string, i: nat, e: nat)
    requires i <= e < |text| && (forall k :: i <= k < e ==> IsHex(text[k]) || text[k] == '_') && text[e] == '}'
    ensures HexRun(text, i) == e
    decreases e - i
  {
    if i < e { HexEnds(text, i + 1, e); }
  }

  /** `CharEnd` finds exactly the four forms. */
  lemma CharEndIs(text: string, i: nat, e: nat)
    requires CharAt(text, i, e)
    ensures CharEnd(text, i) == e
  {
    hide HexRun;
    if UnicodeChar(text, i, e) { HexEnds(text, i + 4, e - 2); }
  }

  lemma CharEndFits(text: string, i: nat)
    requires CharEnd(text, i) > 0
    ensures CharAt(text, i, CharEnd(text, i))
  {
    hide HexRun;
  }

  /** The scan means what the grammar says. */
  lemma ScanMeans(text: string, i: nat, isWord: char -> bool)
    requires i < |text|
    ensures Means(text, i, isWord, ScanAt(text, i, isWord))
  {
    hide StartsWith, FindFrom, BlockEnd, StringEnd, CharEnd, RawOpen, LineEnds, FirstBalance, FirstClose, FirstRawClose;
    hide RawAt, CharAt, RawClose;
    StartsTwo(text, i, "//");
    StartsTwo(text, i, "/*");
    LineMeans(text, i);
    if StartsWith(text, i, "/*") { BlockEndsFirst(text, i + 2); }
    RawScan(text, i, isWord);
    CharScan(text, i);
    StringEndsFirst(text, i + 1);
  }

  lemma RawScan(text: string, i: nat, isWord: char -> bool)
    requires i < |text|
    ensures
      var raw := if i == 0 || !isWord(text[i - 1]) then RawOpen(text, i) else (0, 0);
      && (raw.0 > 0 <==> RawBegins(text, i, isWord))
      && (raw.0 > 0 ==>
           var end := FindFrom(text, RawClose(raw.1), raw.0);
           RawMeans(text, i, isWord, if end < 0 then Unclosed(UnclosedRawString) else Token(end + |RawClose(raw.1)|)))
  {
    hide StartsWith, FindFrom, RawOpen, FirstRawClose;
    var raw := if i == 0 || !isWord(text[i - 1]) then RawOpen(text, i) else (0, 0);
    if raw.0 > 0 {
      RawOpens(text, i, isWord);
      RawCloseFirst(text, raw.0, raw.1);
    }
    forall hashes: nat, quote: nat | RawAt(text, i, isWord, hashes, quote) ensures raw == (quote + 1, hashes) {
      RawOpenIs(text, i, hashes, quote, isWord);
    }
  }

  lemma CharScan(text: string, i: nat)
    ensures CharEnd(text, i) > 0 <==> CharBegins(text, i)
    ensures CharEnd(text, i) > 0 ==> CharAt(text, i, CharEnd(text, i))
  {
    hide CharEnd, CharAt;
    if CharEnd(text, i) > 0 { CharEndFits(text, i); }
    forall e: nat | CharAt(text, i, e) ensures CharEnd(text, i) > 0 {
      CharEndIs(text, i, e);
      CharEnds(text, i, e);
    }
  }

  lemma CharEnds(text: string, i: nat, e: nat)
    requires CharAt(text, i, e)
    ensures e > 0
  {
  }

  lemma FindSkips(text: string, pattern: string, i: nat)
    requires StartsWith(text, i, "//") && pattern == "\n"
    ensures FindFrom(text, pattern, i) == -1 || FindFrom(text, pattern, i) >= i + 2
  {
    var two := text[i..i + 2];
    assert two[0] == text[i] && two[1] == text[i + 1];
    assert text[i..i + 1] == [text[i]] && text[i + 1..i + 2] == [text[i + 1]];
  }

  predicate IsBreak(c: char) { c == '\r' || c == '\n' }

  function BlankChar(c: char): char { if IsBreak(c) then c else ' ' }

  function Blank(s: string): string {
    seq(|s|, i requires 0 <= i < |s| => BlankChar(s[i]))
  }

  function Prepend(s: string, r: Result<string, MaskError>): Result<string, MaskError> {
    match r
    case Success(t) => Success(s + t)
    case Failure(e) => Failure(e)
  }

  /** The masked text from `i` on. */
  function Mask(text: string, i: nat, isWord: char -> bool): Result<string, MaskError>
    requires i <= |text|
    decreases |text| - i
  {
    if i == |text| then Success("")
    else
      match ScanAt(text, i, isWord)
      case Plain => Prepend([text[i]], Mask(text, i + 1, isWord))
      case Token(end) => Prepend(Blank(text[i..end]), Mask(text, end, isWord))
      case Unclosed(e) => Failure(e)
  }

  // ---------- what masking leaves ----------

  /** Position `k` lies in a token found by scanning from `i`. */
  ghost predicate InToken(text: string, i: nat, k: int, isWord: char -> bool)
    decreases |text| - i
  {
    i < |text| && i <= k &&
    match ScanAt(text, i, isWord)
    case Plain => InToken(text, i + 1, k, isWord)
    case Token(end) => k < end || InToken(text, end, k, isWord)
    case Unclosed(_) => false
  }

  ghost predicate NotAlone(text: string, i: nat, k: int, isWord: char -> bool) {
    InToken(text, i, k - 1, isWord) || InToken(text, i, k + 1, isWord)
  }

  /** The character of a suffix at its position in the whole. */
  function At(m: string, i: nat, k: nat): char
    requires i <= k < i + |m|
  {
    m[k - i]
  }

  /** Positions in tokens hold blanks and come in runs of at least two; all others are
      unchanged and start nothing. */
  ghost predicate MaskedAt(text: string, m: string, i: nat, k: nat, isWord: char -> bool)
    requires i <= k < |text| == i + |m|
  {
    if InToken(text, i, k, isWord) then At(m, i, k) == BlankChar(text[k]) && NotAlone(text, i, k, isWord)
    else At(m, i, k) == text[k] && ScanAt(text, k, isWord).Plain?
  }

  lemma {:induction false} MaskIsMasked(text: string, i: nat, isWord: char -> bool)
    requires i <= |text| && Mask(text, i, isWord).Success?
    ensures i + |Mask(text, i, isWord).value| == |text|
    ensures forall k: nat :: i <= k < |text| ==> MaskedAt(text, Mask(text, i, isWord).value, i, k, isWord)
    decreases |text| - i
  {
    hide ScanAt;
    if i < |text| {
      var m := Mask(text, i, isWord).value;
      match ScanAt(text, i, isWord)
      case Plain =>
        MaskIsMasked(text, i + 1, isWord);
        var rest := Mask(text, i + 1, isWord).value;
        assert m == [text[i]] + rest;
        forall k: nat | i <= k < |text| ensures MaskedAt(text, m, i, k, isWord) {
          if k > i {
            assert MaskedAt(text, rest, i + 1, k, isWord);
            assert At(m, i, k) == At(rest, i + 1, k);
            assert InToken(text, i, k, isWord) == InToken(text, i + 1, k, isWord);
            assert InToken(text, i, k + 1, isWord) == InToken(text, i + 1, k + 1, isWord);
            assert InToken(text, i + 1, k - 1, isWord) ==> InToken(text, i, k - 1, isWord);
          } else {
            assert !InToken(text, i + 1, k, isWord);
          }
        }
      case Token(end) =>
        ScanGrows(text, i, isWord);
        MaskIsMasked(text, end, isWord);
        var front, rest := Blank(text[i..end]), Mask(text, end, isWord).value;
        assert m == front + rest;
        forall k: nat | i <= k < |text| ensures MaskedAt(text, m, i, k, isWord) {
          if k < end {
            BlankAt(text, i, end, k);
            assert At(m, i, k) == front[k - i];
            assert k + 1 < end ==> InToken(text, i, k + 1, isWord);
            assert k + 1 == end ==> InToken(text, i, k - 1, isWord);
          } else {
            assert MaskedAt(text, rest, end, k, isWord);
            assert At(m, i, k) == At(rest, end, k);
            assert InToken(text, end, k - 1, isWord) ==> InToken(text, i, k - 1, isWord);
          }
        }
    }
  }

  lemma BlankAt(text: string, i: nat, end: nat, k: nat)
    requires i <= k < end <= |text|
    ensures Blank(text[i..end])[k - i] == BlankChar(text[k])
  {
    assert text[i..end][k - i] == text[k];
  }

  lemma ScanGrows(text: string, i: nat, isWord: char -> bool)
    requires i < |text| && ScanAt(text, i, isWord).Token?
    ensures i + 2 <= ScanAt(text, i, isWord).end <= |text|
  {
  }

  /** A character that no blank can be was not masked. */
  lemma Survivor(text: string, m: string, k: nat, isWord: char -> bool)
    requires Mask(text, 0, isWord) == Success(m) && k < |m|
    requires m[k] != ' ' && !IsBreak(m[k])
    ensures |m| == |text| && m[k] == text[k] && ScanAt(text, k, isWord).Plain? && !InToken(text, 0, k, isWord)
  {
    hide ScanAt;
    MaskIsMasked(text, 0, isWord);
    assert MaskedAt(text, m, 0, k, isWord) && At(m, 0, k) == m[k];
  }

  /** A masked character has a masked neighbour. */
  lemma Company(text: string, m: string, k: nat, isWord: char -> bool)
    requires Mask(text, 0, isWord) == Success(m) && k < |m| == |text|
    ensures m[k] == text[k] || InToken(text, 0, k - 1, isWord) || InToken(text, 0, k + 1, isWord)
  {
    hide ScanAt, InToken;
    MaskIsMasked(text, 0, isWord);
    assert MaskedAt(text, m, 0, k, isWord) && At(m, 0, k) == m[k];
  }

  /** Masking keeps the length and every line break, and changes other characters only
      to spaces. */
  lemma MaskShape(text: string, isWord: char -> bool)
    requires Mask(text, 0, isWord).Success?
    ensures
      var m := Mask(text, 0, isWord).value;
      && |m| == |text|
      && forall k :: 0 <= k < |m| ==>
           (m[k] == text[k] || (m[k] == ' ' && !IsBreak(text[k]))) && (IsBreak(m[k]) <==> IsBreak(text[k]))
  {
    hide ScanAt, InToken;
    MaskIsMasked(text, 0, isWord);
    var m := Mask(text, 0, isWord).value;
    forall k: nat | k < |m|
      ensures (m[k] == text[k] || (m[k] == ' ' && !IsBreak(text[k]))) && (IsBreak(m[k]) <==> IsBreak(text[k]))
    {
      assert MaskedAt(text, m, 0, k, isWord) && At(m, 0, k) == m[k];
    }
  }

  /** No double quote and no comment opener is left. */
  lemma MaskRemovesOpeners(text: string, k: nat, isWord: char -> bool)
    requires Mask(text, 0, isWord).Success? && k < |Mask(text, 0, isWord).value|
    ensures
      var m := Mask(text, 0, isWord).value;
      m[k] != '"' && !StartsWith(m, k, "//") && !StartsWith(m, k, "/*")
  {
    hide Mask;
    var m := Mask(text, 0, isWord).value;
    if m[k] == '"' {
      Survivor(text, m, k, isWord);
      QuoteNotPlain(text, k, isWord);
    }
    if k + 1 < |m| && m[k] == '/' && (m[k + 1] == '/' || m[k + 1] == '*') {
      Survivor(text, m, k, isWord);
      Survivor(text, m, k + 1, isWord);
      OpenerNotPlain(text, k, isWord);
    }
    Pair(m, k, '/', '/');
    Pair(m, k, '/', '*');
  }

  lemma Pair(m: string, k: nat, a: char, b: char)
    ensures StartsWith(m, k, [a, b]) <==> k + 1 < |m| && m[k] == a && m[k + 1] == b
  {
    if k + 1 < |m| { assert m[k..k + 2] == [m[k], m[k + 1]]; }
  }

  lemma QuoteNotPlain(text: string, k: nat, isWord: char -> bool)
    requires k < |text| && text[k] == '"'
    ensures !ScanAt(text, k, isWord).Plain?
  {
  }

  lemma OpenerNotPlain(text: string, k: nat, isWord: char -> bool)
    requires k + 1 < |text| && text[k] == '/' && (text[k + 1] == '/' || text[k + 1] == '*')
    ensures !ScanAt(text, k, isWord).Plain?
  {
    assert text[k..k + 2] == [text[k], text[k + 1]];
  }

  // ---------- masking twice ----------

  /** A character literal in the masked text was one in the original: a single blank
      between its quotes would be a masked character without a masked neighbour. */
  lemma LiteralSurvives(text: string, m: string, k: nat, isWord: char -> bool)
    requires Mask(text, 0, isWord) == Success(m) && |m| == |text| && k < |m| && CharEnd(m, k) > 0
    ensures CharEnd(text, k) > 0
  {
    hide Mask, InToken, ScanAt;
    Survivor(text, m, k, isWord);
    if m[k + 1] != '\\' {
      Survivor(text, m, k + 2, isWord);
      Company(text, m, k + 1, isWord);
      assert m[k + 1] == text[k + 1];
    } else {
      Survivor(text, m, k + 1, isWord);
      EscapeSurvives(text, m, k, isWord);
    }
  }

  lemma EscapeSurvives(text: string, m: string, k: nat, isWord: char -> bool)
    requires Mask(text, 0, isWord) == Success(m) && |m| == |text| && k < |m| && CharEnd(m, k) > 0
    requires m[k + 1] == '\\' == text[k + 1] && text[k] == '\''
    ensures CharEnd(text, k) > 0
  {
    hide Mask, InToken, ScanAt;
    if CharEnd(m, k) == k + 4 {
      Survivor(text, m, k + 3, isWord);
      Survivor(text, m, k + 1, isWord);
      Company(text, m, k + 2, isWord);
      assert m[k + 2] == text[k + 2];
    } else {
      var end := CharEnd(m, k);
      forall j: nat | k + 2 <= j < end ensures m[j] == text[j] {
        Survivor(text, m, j, isWord);
      }
      SameLiteral(text, m, k);
    }
  }

  lemma SameLiteral(text: string, m: string, k: nat)
    requires |m| == |text| && CharEnd(m, k) > k + 4
    requires forall j: nat :: k <= j < CharEnd(m, k) ==> m[j] == text[j]
    ensures CharEnd(text, k) > 0
  {
    if m[k + 2] == 'u' && m[k + 3] == '{' {
      SameRun(text, m, k + 4, HexRun(m, k + 4));
    }
  }

  lemma {:induction false} SameRun(text: string, m: string, i: nat, end: nat)
    requires i <= |m| == |text| && HexRun(m, i) == end < |m|
    requires forall j :: i <= j <= end ==> m[j] == text[j]
    ensures HexRun(text, i) == end
    decreases |m| - i
  {
    if i < end { SameRun(text, m, i + 1, end); }
  }

  /** Nothing starts anywhere in a masked text. */
  lemma NothingLeft(text: string, m: string, k: nat, isWord: char -> bool)
    requires Mask(text, 0, isWord) == Success(m) && k < |m|
    ensures ScanAt(m, k, isWord).Plain?
  {
    MaskShape(text, isWord);
    hide Mask, InToken, ScanAt, RawOpen, CharEnd, StartsWith;
    MaskRemovesOpeners(text, k, isWord);
    NoRawLeft(text, m, k, isWord);
    NoLiteralLeft(text, m, k, isWord);
    PlainWhen(m, k, isWord);
  }

  lemma NoRawLeft(text: string, m: string, k: nat, isWord: char -> bool)
    requires Mask(text, 0, isWord) == Success(m) && k < |m|
    ensures RawOpen(m, k).0 == 0
  {
    hide Mask, ScanAt, RawOpen, StartsWith;
    if RawOpen(m, k).0 > 0 { MaskRemovesOpeners(text, RawOpen(m, k).0 - 1, isWord); }
  }

  lemma NoLiteralLeft(text: string, m: string, k: nat, isWord: char -> bool)
    requires Mask(text, 0, isWord) == Success(m) && k < |m|
    ensures CharEnd(m, k) == 0
  {
    MaskShape(text, isWord);
    hide Mask, InToken, ScanAt, CharEnd;
    if CharEnd(m, k) > 0 {
      Survivor(text, m, k, isWord);
      LiteralSurvives(text, m, k, isWord);
      LiteralNotPlain(text, k, isWord);
    }
  }

  lemma LiteralNotPlain(text: string, k: nat, isWord: char -> bool)
    requires k < |text| && CharEnd(text, k) > 0
    ensures !ScanAt(text, k, isWord).Plain?
  {
  }

  lemma PlainWhen(m: string, k: nat, isWord: char -> bool)
    requires k < |m| && m[k] != '"' && !StartsWith(m, k, "//") && !StartsWith(m, k, "/*")
    requires RawOpen(m, k).0 == 0 && CharEnd(m, k) == 0
    ensures ScanAt(m, k, isWord).Plain?
  {
  }

  lemma {:induction false} NothingToMask(m: string, i: nat, isWord: char -> bool)
    requires i <= |m| && forall k: nat :: i <= k < |m| ==> ScanAt(m, k, isWord).Plain?
    ensures Mask(m, i, isWord) == Success(m[i..])
    decreases |m| - i
  {
    hide ScanAt;
    if i < |m| {
      NothingToMask(m, i + 1, isWord);
      assert m[i..] == [m[i]] + m[i + 1..];
    }
  }

  /** Masking is idempotent. */
  lemma MaskTwice(text: string, isWord: char -> bool)
    requires Mask(text, 0, isWord).Success?
    ensures Mask(Mask(text, 0, isWord).value, 0, isWord) == Mask(text, 0, isWord)
  {
    hide Mask, ScanAt;
    var m := Mask(text, 0, isWord).value;
    forall k: nat | k < |m| ensures ScanAt(m, k, isWord).Plain? {
      NothingLeft(text, m, k, isWord);
    }
    NothingToMask(m, 0, isWord);
    assert m[0..] == m;
  }

  // ---------- the masker ----------

  method Find(text: string, pattern: string, i: nat) returns (r: int)
    ensures r == FindFrom(text, pattern, i)
  {
    r := i;
    while r + |pattern| <= |text|
      invariant i <= r && FindFrom(text, pattern, i) == FindFrom(text, pattern, r)
      decreases |text| - r
    {
      if text[r..r + |pattern|] == pattern { return; }
      r := r + 1;
    }
    r := -1;
  }

  lemma StartFits(text: string, i: nat, pattern: string)
    ensures StartsWith(text, i, pattern) ==> i + |pattern| <= |text|
  {
  }

  /** The nesting loop of a block comment that opens at `start`. */
  method BlockComment(text: string, start: nat) returns (s: Scan)
    requires start + 2 <= |text|
    ensures
      var end := BlockEnd(text, start + 2, 1);
      s == if end < 0 then Unclosed(UnclosedComment) else Token(end)
    ensures FirstBalance(text, start + 2, if s.Token? then s.end else -1)
  {
    hide StartsWith, FirstBalance;
    BlockEndsFirst(text, start + 2);
    var depth, i := 1, start + 2;
    while depth > 0 && i < |text|
      invariant start + 2 <= i <= |text|
      invariant BlockEnd(text, start + 2, 1) == BlockEnd(text, i, depth)
      decreases |text| - i
    {
      StartFits(text, i, "/*");
      StartFits(text, i, "*/");
      if StartsWith(text, i, "/*") {
        depth := depth + 1;
        i := i + 2;
      } else if StartsWith(text, i, "*/") {
        depth := depth - 1;
        i := i + 2;
      } else {
        i := i + 1;
      }
    }
    if depth > 0 { return Unclosed(UnclosedComment); }
    return Token(i);
  }

  /** The loop over a string literal that opens at `start`. */
  method StringLiteral(text: string, start: nat) returns (s: Scan)
    requires start < |text|
    ensures
      var end := StringEnd(text, start + 1);
      s == if end < 0 then Unclosed(UnclosedString) else Token(end)
    ensures FirstClose(text, start + 1, if s.Token? then s.end else -1)
  {
    hide FirstClose;
    StringEndsFirst(text, start + 1);
    var i := start + 1;
    while i < |text| && text[i] != '"'
      invariant start + 1 <= i && StringEnd(text, start + 1) == StringEnd(text, i)
      decreases |text| - i
    {
      i := i + if text[i] == '\\' then 2 else 1;
    }
    if i >= |text| { return Unclosed(UnclosedString); }
    return Token(i + 1);
  }

  /** One turn of the outer loop, up to the masking. */
  method FindToken(text: string, i: nat, isWord: char -> bool) returns (s: Scan)
    requires i < |text|
    ensures s == ScanAt(text, i, isWord) && Means(text, i, isWord, s)
  {
    hide FindFrom, BlockEnd, StringEnd, CharEnd, RawOpen, Means;
    ScanMeans(text, i, isWord);
    if StartsWith(text, i, "//") {
      var end := Find(text, "\n", i);
      FindSkips(text, "\n", i);
      return Token(if end < 0 then |text| else end);
    }
    if StartsWith(text, i, "/*") {
      s := BlockComment(text, i);
      return;
    }
    var raw := if i == 0 || !isWord(text[i - 1]) then RawOpen(text, i) else (0, 0);
    if raw.0 > 0 {
      var terminal := RawClose(raw.1);
      var end := Find(text, terminal, raw.0);
      if end < 0 { return Unclosed(UnclosedRawString); }
      return Token(end + |terminal|);
    }
    var literal := CharEnd(text, i);
    if literal > 0 { return Token(literal); }
    if text[i] == '"' {
      s := StringLiteral(text, i);
      return;
    }
    return Plain;
  }

  /** Blank part of the result in place. */
  method BlankRange(result: array<char>, start: nat, end: nat)
    requires start <= end <= result.Length
    modifies result
    ensures result[..start] == old(result[..start]) && result[end..] == old(result[end..])
    ensures result[start..end] == Blank(old(result[start..end]))
  {
    var j := start;
    while j < end
      invariant start <= j <= end
      invariant forall k :: 0 <= k < result.Length ==>
        result[k] == if start <= k < j then BlankChar(old(result[k])) else old(result[k])
    {
      if !IsBreak(result[j]) { result[j] := ' '; }
      j := j + 1;
    }
    ghost var now, was := result[start..end], old(result[start..end]);
    forall k | 0 <= k < |now| ensures now[k] == BlankChar(was[k]) {
      assert was[k] == old(result[start + k]) && now[k] == result[start + k];
    }
  }

  /** `rust_mask`. */
  method RustMask(text: string, isWord: char -> bool)
    returns (r: Result<string, MaskError>, ghost spans: seq<Span>, ghost stop: nat)
    ensures r == Mask(text, 0, isWord)
    ensures Segmented(text, isWord, 0, stop, spans)
    ensures r.Success? ==> stop == |text| && Blanked(text, spans, r.value)
    ensures r.Failure? ==> stop < |text| && Means(text, stop, isWord, Unclosed(r.error))
  {
    hide ScanAt, Blank, Mask, Prepend, Segmented, Means, Covered, InToken, Blanked;
    spans, stop := Segments(text, 0, isWord);
    if Mask(text, 0, isWord).Success? { MaskBlanks(text, isWord, spans); }
    var result := new char[|text|](k requires 0 <= k < |text| => text[k]);
    assert result[..] == text;
    var i := 0;
    PrependNothing(Mask(text, 0, isWord));
    assert result[..0] == "";
    while i < |text|
      invariant 0 <= i <= |text| && result.Length == |text|
      invariant result[i..] == text[i..]
      invariant Mask(text, 0, isWord) == Prepend(result[..i], Mask(text, i, isWord))
    {
      var s := FindToken(text, i, isWord);
      MaskNext(text, i, isWord, result[..i]);
      match s {
        case Plain =>
          PlainPart(result[..], text, i);
          i := i + 1;
        case Token(end) =>
          TokenPart(result[..], text, i, end);
          BlankRange(result, i, end);
          assert result[..end] == result[..i] + result[i..end];
          i := end;
        case Unclosed(e) =>
          r := Failure(e);
          return;
      }
    }
    MaskEnds(text, i, isWord, result[..]);
    assert result[..i] == result[..];
    r := Success(result[..]);
  }

  /** The tokens of a text from `i` on, up to its end or to one that is never closed. */
  lemma {:induction false} Segments(text: string, i: nat, isWord: char -> bool) returns (spans: seq<Span>, stop: nat)
    requires i <= |text|
    ensures i <= stop && Segmented(text, isWord, i, stop, spans)
    ensures
      match Mask(text, i, isWord)
      case Success(_) => stop == |text| && forall k: nat :: Covered(spans, k) <==> InToken(text, i, k, isWord)
      case Failure(e) => stop < |text| && Means(text, stop, isWord, Unclosed(e))
    decreases |text| - i
  {
    hide ScanAt, Means, Blank, Segmented, Covered;
    if i == |text| {
      NoSegments(text, isWord, i);
      return [], i;
    }
    ScanMeans(text, i, isWord);
    match ScanAt(text, i, isWord) {
      case Plain =>
        spans, stop := Segments(text, i + 1, isWord);
        PlainSegments(text, isWord, i, stop, spans);
      case Token(end) =>
        ScanGrows(text, i, isWord);
        var rest;
        rest, stop := Segments(text, end, isWord);
        spans := [Span(i, end)] + rest;
        TokenSegments(text, isWord, i, end, stop, rest);
      case Unclosed(_) =>
        NoSegments(text, isWord, i);
        return [], i;
    }
  }

  lemma NoSegments(text: string, isWord: char -> bool, i: nat)
    requires i <= |text|
    ensures Segmented(text, isWord, i, i, []) && forall k: nat :: !Covered([], k)
  {
  }

  lemma PlainSegments(text: string, isWord: char -> bool, i: nat, stop: nat, spans: seq<Span>)
    requires i < stop && Segmented(text, isWord, i + 1, stop, spans) && Means(text, i, isWord, Plain)
    ensures Segmented(text, isWord, i, stop, spans) && !Covered(spans, i)
  {
    hide Means;
  }

  lemma TokenSegments(text: string, isWord: char -> bool, i: nat, end: nat, stop: nat, rest: seq<Span>)
    requires i < end <= stop && Segmented(text, isWord, end, stop, rest) && Means(text, i, isWord, Token(end))
    ensures Segmented(text, isWord, i, stop, [Span(i, end)] + rest)
    ensures forall k: nat :: Covered([Span(i, end)] + rest, k) <==> i <= k < end || Covered(rest, k)
  {
    hide Means;
    var spans := [Span(i, end)] + rest;
    forall k: nat ensures Covered(spans, k) <==> i <= k < end || Covered(rest, k) {
      if i <= k < end {
        assert spans[0].start <= k < spans[0].end;
      } else if Covered(rest, k) {
        var j :| 0 <= j < |rest| && rest[j].start <= k < rest[j].end;
        assert spans[j + 1] == rest[j];
      }
    }
  }

  /** The mask blanks exactly what the tokens cover. */
  lemma MaskBlanks(text: string, isWord: char -> bool, spans: seq<Span>)
    requires Mask(text, 0, isWord).Success? && forall k: nat :: Covered(spans, k) <==> InToken(text, 0, k, isWord)
    ensures Blanked(text, spans, Mask(text, 0, isWord).value)
  {
    hide ScanAt, InToken, Covered;
    MaskIsMasked(text, 0, isWord);
    var m := Mask(text, 0, isWord).value;
    forall k: nat | k < |text|
      ensures m[k] == if Covered(spans, k) && text[k] != '\r' && text[k] != '\n' then ' ' else text[k]
    {
      assert MaskedAt(text, m, 0, k, isWord) && At(m, 0, k) == m[k];
    }
  }

  /** One step of the mask behind what was masked so far. */
  lemma MaskNext(text: string, i: nat, isWord: char -> bool, before: string)
    requires i < |text|
    ensures
      var whole := Prepend(before, Mask(text, i, isWord));
      match ScanAt(text, i, isWord)
      case Plain => whole == Prepend(before + [text[i]], Mask(text, i + 1, isWord))
      case Token(end) => i <= end <= |text| && whole == Prepend(before + Blank(text[i..end]), Mask(text, end, isWord))
      case Unclosed(e) => whole == Failure(e)
  {
    hide ScanAt, Blank;
    match ScanAt(text, i, isWord) {
      case Plain => PrependTwice(before, [text[i]], Mask(text, i + 1, isWord));
      case Token(end) => PrependTwice(before, Blank(text[i..end]), Mask(text, end, isWord));
      case Unclosed(_) =>
    }
  }

  lemma MaskEnds(text: string, i: nat, isWord: char -> bool, before: string)
    requires i == |text|
    ensures Prepend(before, Mask(text, i, isWord)) == Success(before)
  {
    assert before + "" == before;
  }

  lemma PlainPart(result: string, text: string, i: nat)
    requires i < |result| == |text| && result[i..] == text[i..]
    ensures result[..i + 1] == result[..i] + [text[i]] && result[i + 1..] == text[i + 1..]
  {
    assert result[i] == result[i..][0] == text[i..][0] == text[i];
    assert result[i + 1..] == result[i..][1..] && text[i + 1..] == text[i..][1..];
  }

  lemma TokenPart(result: string, text: string, i: nat, end: nat)
    requires i <= end <= |result| == |text| && result[i..] == text[i..]
    ensures result[i..end] == text[i..end] && result[end..] == text[end..]
  {
    assert result[i..end] == result[i..][..end - i] && text[i..end] == text[i..][..end - i];
    assert result[end..] == result[i..][end - i..] && text[end..] == text[i..][end - i..];
  }

  lemma PrependNothing(r: Result<string, MaskError>)
    ensures Prepend("", r) == r
  {
    if r.Success? { assert "" + r.value == r.value; }
  }

  lemma PrependTwice(a: string, b: string, r: Result<string, MaskError>)
    ensures Prepend(a, Prepend(b, r)) == Prepend(a + b, r)
    ensures Prepend(a, Success("")) == Success(a)
  {
    if r.Success? { assert a + (b + r.value) == a + b + r.value; }
    assert a + "" == a;
  }
}
