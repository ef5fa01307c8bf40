/** What begins at a place of a Rust text as the masker reads it, and where it ends. */
module RustTokens {
  import opened Text

  datatype MaskError = UnclosedComment | UnclosedRawString | UnclosedString

  /** What starts at a position: nothing special, a token up to `end`, or a token that
      is never closed. */
  datatype Scan = Plain | Token(end: nat) | Unclosed(error: MaskError)

  predicate Two(text: string, i: nat, a: char, b: char) {
    i + 1 < |text| && text[i] == a && text[i + 1] == b
  }

  /** All characters from `i` to `e` are `c`. */
  predicate AllAre(text: string, i: nat, e: nat, c: char) {
    i <= e <= |text| && forall k :: i <= k < e ==> text[k] == c
  }

  // ---------- line comments ----------

  /** A line comment ends at the first line feed, or with the text. */
  ghost predicate LineEnds(text: string, i: nat, e: nat) {
    && i <= e <= |text| && (e < |text| ==> text[e] == '\n')
    && forall k :: i <= k < e ==> text[k] != '\n'
  }

  // ---------- block comments ----------

  /** `m` begins a delimiter of block comments, read from `start` on: the text has one there
      that does not overlap the delimiter before. */
  predicate IsMark(text: string, start: nat, m: nat)
    decreases m
  {
    && m >= start && (Two(text, m, '/', '*') || Two(text, m, '*', '/'))
    && !(m > start && IsMark(text, start, m - 1))
  }

  /** How many comments are open at `e`: one, and the openers less the closers in between. */
  function Level(text: string, start: nat, e: nat): int
    decreases e
  {
    if e < start + 2 then 1
    else
      Level(text, start, e - 1) +
      if !IsMark(text, start, e - 2) then 0 else if Two(text, e - 2, '/', '*') then 1 else -1
  }

  /** `r` is the first place at which openers and closers balance, or -1 if there is none. */
  ghost predicate FirstBalance(text: string, start: nat, r: int) {
    && (r >= 0 ==> start <= r <= |text| && Level(text, start, r) == 0)
    && (forall e :: start <= e <= |text| && (r < 0 || e < r) ==> Level(text, start, e) > 0)
  }

  // ---------- strings ----------

  /** `r` is the place after the first quote that is not escaped, or -1 if there is none. */
  ghost predicate FirstClose(text: string, start: nat, r: int) {
    && (r >= 0 ==> start < r && Closes(text, start, r - 1))
    && (forall j :: start <= j && (r < 0 || j < r - 1) ==> !Closes(text, start, j))
  }

  // ---------- raw strings ----------

  /** After `r` or `br` that continues no word come hashes up to a quote at `quote`. */
  ghost predicate RawAt(text: string, i: nat, isWord: char -> bool, hashes: nat, quote: nat) {
    && i < quote < |text| && text[quote] == '"' && (i == 0 || !isWord(text[i - 1]))
    && ((text[i] == 'r' && hashes == quote - (i + 1) && AllAre(text, i + 1, quote, '#')) ||
        (Two(text, i, 'b', 'r') && hashes == quote - (i + 2) && AllAre(text, i + 2, quote, '#')))
  }

  /** A quote and as many hashes. */
  predicate RawClosesAt(text: string, k: nat, hashes: nat) {
    k < |text| && text[k] == '"' && AllAre(text, k + 1, k + 1 + hashes, '#')
  }

  /** `r` is the first place from `start` on where the raw string closes, or -1. */
  ghost predicate FirstRawClose(text: string, start: nat, hashes: nat, r: int) {
    && (r >= 0 ==> start <= r && RawClosesAt(text, r, hashes))
    && (forall k :: start <= k && (r < 0 || k < r) ==> !RawClosesAt(text, k, hashes))
  }

  // ---------- character literals ----------

  predicate IsHex(c: char) {
    '0' <= c <= '9' || 'a' <= c <= 'f' || 'A' <= c <= 'F'
  }

  /** One character other than quote, backslash and line feed. */
  predicate PlainChar(text: string, i: nat, e: nat) {
    && e == i + 3 <= |text| && text[i] == '\'' && text[i + 2] == '\''
    && text[i + 1] != '\'' && text[i + 1] != '\\' && text[i + 1] != '\n'
  }

  /** A backslash and any character but a line feed. */
  predicate EscapedChar(text: string, i: nat, e: nat) {
    && e == i + 4 <= |text| && text[i] == '\'' && text[i + 1] == '\\' && text[i + 2] != '\n' && text[i + 3] == '\''
  }

  /** `\x` and two hexadecimal digits. */
  predicate HexChar(text: string, i: nat, e: nat) {
    && e == i + 6 <= |text| && text[i] == '\'' && text[i + 1] == '\\' && text[i + 2] == 'x'
    && IsHex(text[i + 3]) && IsHex(text[i + 4]) && text[i + 5] == '\''
  }

  /** `\u{` and at least one hexadecimal digit or underscore, and `}`. */
  predicate UnicodeChar(text: string, i: nat, e: nat) {
    && i + 7 <= e <= |text| && text[i] == '\'' && text[i + 1] == '\\' && text[i + 2] == 'u' && text[i + 3] == '{'
    && (forall k :: i + 4 <= k < e - 2 ==> IsHex(text[k]) || text[k] == '_')
    && text[e - 2] == '}' && text[e - 1] == '\''
  }

  predicate CharAt(text: string, i: nat, e: nat) {
    PlainChar(text, i, e) || EscapedChar(text, i, e) || HexChar(text, i, e) || UnicodeChar(text, i, e)
  }

  /** No two forms fit at the same place. */
  lemma CharUnique(text: string, i: nat, d: nat, e: nat)
    requires CharAt(text, i, d) && CharAt(text, i, e)
    ensures d == e
  {
    assert UnicodeChar(text, i, d) && UnicodeChar(text, i, e) ==> text[d - 2] == '}' && text[e - 2] == '}';
  }

  // ---------- all of it ----------

  ghost predicate RawBegins(text: string, i: nat, isWord: char -> bool) {
    exists hashes: nat, quote: nat :: RawAt(text, i, isWord, hashes, quote)
  }

  ghost predicate CharBegins(text: string, i: nat) {
    exists e: nat :: CharAt(text, i, e)
  }

  /** What the raw string at `i` comes to. */
  ghost predicate RawMeans(text: string, i: nat, isWord: char -> bool, s: Scan) {
    forall hashes: nat, quote: nat :: RawAt(text, i, isWord, hashes, quote) ==>
      match s
      case Token(end) => end >= hashes + 1 && FirstRawClose(text, quote + 1, hashes, end - (hashes + 1))
      case Unclosed(e) => e == UnclosedRawString && FirstRawClose(text, quote + 1, hashes, -1)
      case Plain => false
  }

  /** The scan at `i`, form by form, the first that fits deciding. */
  ghost predicate Means(text: string, i: nat, isWord: char -> bool, s: Scan)
    requires i < |text|
  {
    if Two(text, i, '/', '/') then s.Token? && LineEnds(text, i, s.end)
    else if Two(text, i, '/', '*') then
      match s
      case Token(end) => FirstBalance(text, i + 2, end)
      case Unclosed(e) => e == UnclosedComment && FirstBalance(text, i + 2, -1)
      case Plain => false
    else if RawBegins(text, i, isWord) then RawMeans(text, i, isWord, s)
    else if CharBegins(text, i) then s.Token? && CharAt(text, i, s.end)
    else if text[i] == '"' then
      match s
      case Token(end) => FirstClose(text, i + 1, end)
      case Unclosed(e) => e == UnclosedString && FirstClose(text, i + 1, -1)
      case Plain => false
    else s.Plain?
  }

  // ---------- a whole text ----------

  datatype Span = Span(start: nat, end: nat)

  ghost predicate Covered(spans: seq<Span>, k: nat) {
    exists j :: 0 <= j < |spans| && spans[j].start <= k < spans[j].end
  }

  /** The spans are the tokens from `from` to `to`, in order, and nothing begins at the places
      between them. */
  ghost predicate Segmented(text: string, isWord: char -> bool, from: nat, to: nat, spans: seq<Span>) {
    && to <= |text|
    && (forall j :: 0 <= j < |spans| ==>
          && from <= spans[j].start < spans[j].end <= to
          && Means(text, spans[j].start, isWord, Token(spans[j].end)))
    && (forall j, k :: 0 <= j < k < |spans| ==> spans[j].end <= spans[k].start)
    && (forall k :: from <= k < to && !Covered(spans, k) ==> Means(text, k, isWord, Plain))
  }

  /** The text with its tokens blanked but for the ends of lines. */
  ghost predicate Blanked(text: string, spans: seq<Span>, m: string) {
    && |m| == |text|
    && forall k :: 0 <= k < |text| ==>
         m[k] == if Covered(spans, k) && text[k] != '\r' && text[k] != '\n' then ' ' else text[k]
  }
}
