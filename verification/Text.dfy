/** Splitting and joining text at a separator, and decimal numerals. */
module Text {
  import opened Cats

  // ---------- split and join ----------

  /** `s.split(sep)`: the pieces between separators; at least one. */
  function Split(s: string, sep: char): (parts: seq<string>)
    ensures |parts| > 0
  {
    if s == "" then [""]
    else
      var rest := Split(s[1..], sep);
      if s[0] == sep then [""] + rest else [[s[0]] + rest[0]] + rest[1..]
  }

  function Join(parts: seq<string>, sep: char): string
    requires parts != []
  {
    if |parts| == 1 then parts[0] else parts[0] + [sep] + Join(parts[1..], sep)
  }

  predicate Clean(s: string, sep: char) {
    sep !in s
  }

  /** The pieces of a text at a separator: without it, and the text when joined by it. */
  ghost predicate Pieces(s: string, sep: char, parts: seq<string>) {
    parts != [] && (forall p :: p in parts ==> Clean(p, sep)) && Join(parts, sep) == s
  }

  lemma SplitPieces(s: string, sep: char)
    ensures Pieces(s, sep, Split(s, sep))
  {
    JoinSplit(s, sep);
    PiecesClean(s, sep);
  }

  lemma {:induction false} JoinSplit(s: string, sep: char)
    ensures Join(Split(s, sep), sep) == s
  {
    if s != "" {
      JoinSplit(s[1..], sep);
      var rest := Split(s[1..], sep);
      assert s == [s[0]] + s[1..];
      if s[0] == sep {
        assert ([""] + rest)[1..] == rest;
      } else {
        JoinFirst([s[0]], rest, sep);
      }
    }
  }

  lemma JoinFirst(x: string, parts: seq<string>, sep: char)
    requires parts != []
    ensures Join([x + parts[0]] + parts[1..], sep) == x + Join(parts, sep)
  {
    var longer := [x + parts[0]] + parts[1..];
    assert longer[1..] == parts[1..];
    if |parts| > 1 {
      var rest := [sep] + Join(parts[1..], sep);
      assert x + parts[0] + rest == x + (parts[0] + rest);
      assert parts[0] + [sep] + Join(parts[1..], sep) == parts[0] + rest;
      assert x + parts[0] + [sep] + Join(parts[1..], sep) == x + parts[0] + rest;
    }
  }

  lemma {:induction false} PiecesClean(s: string, sep: char)
    ensures forall p :: p in Split(s, sep) ==> Clean(p, sep)
  {
    if s != "" {
      PiecesClean(s[1..], sep);
      var rest := Split(s[1..], sep);
      assert rest[0] in rest;
      assert forall p :: p in rest[1..] ==> p in rest;
    }
  }

  /** A separator ends the first piece. */
  lemma {:induction false} SplitFirst(a: string, b: string, sep: char)
    requires Clean(a, sep)
    ensures Split(a + [sep] + b, sep) == [a] + Split(b, sep)
  {
    var s := a + [sep] + b;
    if a == "" {
      assert s == [sep] + b && s[1..] == b;
    } else {
      assert s[1..] == a[1..] + [sep] + b;
      assert Clean(a[1..], sep);
      SplitFirst(a[1..], b, sep);
      assert s[0] == a[0] != sep;
      assert [s[0]] + a[1..] == a;
    }
  }

  lemma {:induction false} SplitOne(a: string, sep: char)
    requires Clean(a, sep)
    ensures Split(a, sep) == [a]
  {
    if a != "" {
      SplitOne(a[1..], sep);
      assert a == [a[0]] + a[1..];
    }
  }

  lemma {:induction false} SplitJoin(parts: seq<string>, sep: char)
    requires parts != [] && forall p :: p in parts ==> Clean(p, sep)
    ensures Split(Join(parts, sep), sep) == parts
  {
    if |parts| == 1 {
      SplitOne(parts[0], sep);
    } else {
      SplitJoin(parts[1..], sep);
      SplitFirst(parts[0], Join(parts[1..], sep), sep);
    }
  }

  // ---------- lines ----------

  function Terminated(line: string): string { line + "\n" }

  /** Lines written one after the other are the join of the lines and a last break. */
  lemma {:induction false} LinesJoin(lines: seq<string>)
    requires lines != []
    ensures Cat(Terminated, lines) == Join(lines, '\n') + "\n"
  {
    if |lines| == 1 {
      assert lines[1..] == [];
      assert Cat(Terminated, lines) == Terminated(lines[0]) + Cat(Terminated, []);
    } else {
      LinesJoin(lines[1..]);
      var rest := Join(lines[1..], '\n');
      assert Cat(Terminated, lines) == Terminated(lines[0]) + (rest + "\n");
      assert Terminated(lines[0]) + (rest + "\n") == lines[0] + ['\n'] + rest + "\n";
    }
  }

  /** `splitlines` of text that ends in a newline and holds no other kind of break. */
  function Lines(s: string): seq<string>
    requires s != ""
  {
    Split(s[..|s| - 1], '\n')
  }

  lemma LinesRead(lines: seq<string>)
    requires lines != [] && forall l :: l in lines ==> Clean(l, '\n')
    ensures Cat(Terminated, lines) != "" && Lines(Cat(Terminated, lines)) == lines
  {
    LinesJoin(lines);
    var body := Join(lines, '\n');
    assert (body + "\n")[..|body|] == body;
    SplitJoin(lines, '\n');
  }

  // ---------- decimal numerals ----------

  function DigitChar(d: nat): char
    requires d < 10
  {
    "0123456789"[d]
  }

  function DigitValue(c: char): nat
    requires IsDigit(c)
  {
    (c as int - '0' as int) as nat
  }

  predicate IsDigit(c: char) { '0' <= c <= '9' }

  predicate AllDigits(s: string) { forall i :: 0 <= i < |s| ==> IsDigit(s[i]) }

  /** How many digits the text begins with. */
  function DigitRun(text: string): (n: nat)
    ensures n <= |text| && AllDigits(text[..n]) && (n < |text| ==> !IsDigit(text[n]))
  {
    if text == "" || !IsDigit(text[0]) then 0
    else
      var n := DigitRun(text[1..]);
      assert text[..n + 1] == [text[0]] + text[1..][..n];
      n + 1
  }

  lemma {:induction false} RunOfDigits(cur: string, rest: string)
    requires AllDigits(cur)
    ensures DigitRun(cur + rest) == |cur| + DigitRun(rest)
  {
    if cur == "" {
      assert cur + rest == rest;
    } else {
      assert (cur + rest)[1..] == cur[1..] + rest;
      RunOfDigits(cur[1..], rest);
    }
  }

  /** The numeral without leading zeros. */
  function Decimal(n: nat): string {
    if n < 10 then [DigitChar(n)] else Decimal(n / 10) + [DigitChar(n % 10)]
  }

  /** The value of any string of digits; the empty string counts as 0. */
  function Number(s: string): nat
    requires AllDigits(s)
  {
    if s == "" then 0 else 10 * Number(s[..|s| - 1]) + DigitValue(s[|s| - 1])
  }

  /** The pattern `0|[1-9][0-9]*`. */
  predicate IsDecimal(s: string) {
    s != "" && AllDigits(s) && (s[0] == '0' ==> |s| == 1)
  }

  lemma DigitRoundTrip(d: nat)
    requires d < 10
    ensures IsDigit(DigitChar(d)) && DigitValue(DigitChar(d)) == d && (DigitChar(d) == '0' <==> d == 0)
  {
  }

  lemma {:induction false} DecimalReads(n: nat)
    ensures IsDecimal(Decimal(n)) && Number(Decimal(n)) == n
    ensures Decimal(n)[0] == '0' <==> n == 0
  {
    if n < 10 {
      DigitRoundTrip(n);
      var s := Decimal(n);
      assert s[..0] == "";
    } else {
      DecimalReads(n / 10);
      DigitRoundTrip(n % 10);
      var s, high := Decimal(n), Decimal(n / 10);
      assert s[..|s| - 1] == high && s[0] == high[0];
    }
  }

  lemma CharRoundTrip(c: char)
    requires IsDigit(c)
    ensures DigitValue(c) < 10 && DigitChar(DigitValue(c)) == c
  {
  }

  lemma {:induction false} NumberPrints(s: string)
    requires IsDecimal(s)
    ensures Decimal(Number(s)) == s
  {
    var last := s[|s| - 1];
    CharRoundTrip(last);
    hide DigitChar, DigitValue;
    if |s| == 1 {
      assert s[..0] == "";
      assert Number(s) == DigitValue(last);
    } else {
      var high := s[..|s| - 1];
      assert high[0] == s[0];
      NumberPrints(high);
      Positive(high);
      DecimalSnoc(Number(high), DigitValue(last));
      assert s == high + [last];
    }
  }

  lemma DecimalSnoc(high: nat, d: nat)
    requires high > 0 && d < 10
    ensures Decimal(10 * high + d) == Decimal(high) + [DigitChar(d)]
  {
    var n := 10 * high + d;
    assert n / 10 == high && n % 10 == d;
  }

  lemma {:induction false} Positive(s: string)
    requires AllDigits(s) && s != "" && s[0] != '0'
    ensures Number(s) > 0
  {
    var high := s[..|s| - 1];
    if |s| == 1 {
      assert high == "";
    } else {
      assert high[0] == s[0];
      Positive(high);
    }
  }

  lemma DecimalInjective(a: nat, b: nat)
    requires Decimal(a) == Decimal(b)
    ensures a == b
  {
    DecimalReads(a);
    DecimalReads(b);
  }

  // ---------- lengths ----------

  function Power10(k: nat): nat { if k == 0 then 1 else 10 * Power10(k - 1) }

  lemma {:induction false} DecimalWidth(n: nat, k: nat)
    requires k >= 1 && n < Power10(k)
    ensures |Decimal(n)| <= k
  {
    if n >= 10 {
      assert k > 1;
      DecimalWidth(n / 10, k - 1);
    }
  }

  function Lengths(lines: seq<string>): nat {
    if lines == [] then 0 else |lines[0]| + 1 + Lengths(lines[1..])
  }

  lemma {:induction false} CatLength(lines: seq<string>)
    ensures |Cat(Terminated, lines)| == Lengths(lines)
  {
    if lines != [] { CatLength(lines[1..]); }
  }

  lemma {:induction false} LengthsBound(lines: seq<string>, width: nat)
    requires forall l :: l in lines ==> |l| < width
    ensures Lengths(lines) <= width * |lines|
  {
    if lines != [] {
      LengthsBound(lines[1..], width);
      assert lines[0] in lines;
      assert width * |lines| == width * |lines[1..]| + width;
    }
  }

  lemma {:induction false} JoinLength(parts: seq<string>, sep: char)
    requires parts != []
    ensures |Join(parts, sep)| + 1 == Lengths(parts)
  {
    if |parts| > 1 {
      JoinLength(parts[1..], sep);
    } else {
      assert parts[1..] == [];
    }
  }

  // ---------- quotes ----------

  /** The length of the run of backslashes right before `j`, from `start` on. */
  function Slashes(text: string, start: nat, j: nat): nat
    requires j <= |text|
    decreases j
  {
    if j > start && text[j - 1] == '\\' then 1 + Slashes(text, start, j - 1) else 0
  }

  /** A quote that is not escaped: an even number of backslashes stands before it. */
  predicate Closes(text: string, start: nat, j: nat) {
    start <= j < |text| && text[j] == '"' && Slashes(text, start, j) % 2 == 0
  }

  /** No string begun before `start` has ended before `k`. */
  ghost predicate NoneCloses(text: string, start: nat, k: nat) {
    forall j :: start <= j < k ==> !Closes(text, start, j)
  }
}
