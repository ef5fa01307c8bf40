/** The launcher's reader of the kernel's child list: decimal process ids between blanks,
    arriving in reads that may cut the text anywhere. */
module PidStream {
  import opened Text

  const UINT64_MAX := 0xFFFF_FFFF_FFFF_FFFF
  const INT_MAX := 0x7FFF_FFFF
  const MAX_CHILD_LIST_READS := 256
  const MAX_REAPS_PER_PASS := 65536

  /** A `read`: some bytes (none at the end of the file), EINTR, or another error. */
  datatype Read = Chunk(bytes: string) | Interrupted | Failed

  // ---------- words of a text ----------

  predicate IsBlank(c: char) { c == ' ' || c == '\n' }

  predicate Legal(text: string) {
    forall i :: 0 <= i < |text| ==> IsDigit(text[i]) || IsBlank(text[i])
  }

  predicate IsWord(w: string) { w != "" && AllDigits(w) }

  /** The maximal runs of digits, in order. */
  function Words(text: string): (words: seq<string>)
    ensures forall i :: 0 <= i < |words| ==> IsWord(words[i])
    decreases |text|
  {
    if text == "" then []
    else if !IsDigit(text[0]) then Words(text[1..])
    else [text[..DigitRun(text)]] + Words(text[DigitRun(text)..])
  }

  function Pids(words: seq<string>): (pids: seq<nat>)
    requires forall i :: 0 <= i < |words| ==> IsWord(words[i])
    ensures |pids| == |words| && forall i :: 0 <= i < |words| ==> IsWord(words[i]) && pids[i] == Number(words[i])
  {
    seq(|words|, i requires 0 <= i < |words| => assert IsWord(words[i]); Number(words[i]))
  }

  /** The process ids a text lists. */
  function Listed(text: string): seq<nat> { Pids(Words(text)) }

  predicate Closed(head: string) { head == "" || !IsDigit(head[|head| - 1]) }

  lemma {:induction false} RunStops(head: string, rest: string)
    requires head != "" && Closed(head)
    ensures DigitRun(head) < |head| && DigitRun(head + rest) == DigitRun(head)
  {
    if IsDigit(head[0]) {
      assert (head + rest)[1..] == head[1..] + rest;
      RunStops(head[1..], rest);
    }
  }

  /** A text cut after a blank is read in two parts. */
  lemma {:induction false} WordsJoin(head: string, rest: string)
    requires Closed(head)
    ensures Words(head + rest) == Words(head) + Words(rest)
    decreases |head|
  {
    var whole := head + rest;
    if head == "" {
      assert whole == rest;
    } else if !IsDigit(head[0]) {
      assert whole[1..] == head[1..] + rest;
      WordsJoin(head[1..], rest);
    } else {
      RunStops(head, rest);
      var n := DigitRun(head);
      assert whole[..n] == head[..n] && whole[n..] == head[n..] + rest;
      WordsJoin(head[n..], rest);
    }
  }

  /** Digits followed by a blank or the end are one word. */
  lemma WordOf(cur: string, after: string)
    requires AllDigits(cur) && |after| <= 1 && (after != "" ==> !IsDigit(after[0]))
    ensures Words(cur + after) == if cur == "" then [] else [cur]
  {
    RunOfDigits(cur, after);
    assert DigitRun(after) == 0;
    assert (cur + after)[..|cur|] == cur && (cur + after)[|cur|..] == after;
    assert after != "" ==> after[1..] == "";
    assert Words(after) == [];
  }

  /** Digits begin the first word of what they begin. */
  lemma WordBegins(cur: string, rest: string)
    requires IsWord(cur)
    ensures var w := Words(cur + rest); w != [] && cur <= w[0]
  {
    RunOfDigits(cur, rest);
  }

  lemma {:induction false} NumberGrows(cur: string, word: string)
    requires AllDigits(word) && cur <= word
    ensures AllDigits(cur) && Number(cur) <= Number(word)
    decreases |word|
  {
    if |cur| < |word| {
      NumberGrows(cur, word[..|word| - 1]);
    } else {
      assert cur == word;
    }
  }

  lemma ListedEnds(head: string, cur: string, after: string)
    requires Closed(head) && AllDigits(cur) && |after| <= 1 && (after != "" ==> !IsDigit(after[0]))
    ensures Listed(head + (cur + after)) == Listed(head) + if cur == "" then [] else [Number(cur)]
  {
    WordsJoin(head, cur + after);
    WordOf(cur, after);
    hide Words, Number;
    if cur == "" {
      assert Words(head + (cur + after)) == Words(head);
    } else {
      assert Words(head + (cur + after)) == Words(head) + [cur];
    }
  }

  lemma ListedJoin(head: string, rest: string)
    requires Closed(head)
    ensures Listed(head + rest) == Listed(head) + Listed(rest)
  {
    WordsJoin(head, rest);
    hide Words, Number;
  }

  /** The kernel's listing of ids reads back as those ids. */
  lemma {:induction false} ListingReads(pids: seq<nat>)
    ensures Legal(Listing(pids)) && Listed(Listing(pids)) == pids
  {
    if pids != [] {
      var first, rest := Decimal(pids[0]), Listing(pids[1..]);
      DecimalReads(pids[0]);
      ListingReads(pids[1..]);
      hide Decimal, Listed, Number;
      ListedJoin(first + " ", rest);
      ListedEnds("", first, " ");
      NothingListed();
      assert "" + (first + " ") == first + " ";
    }
  }

  lemma NothingListed()
    ensures Listed("") == []
  {
  }

  function Listing(pids: seq<nat>): string {
    if pids == [] then "" else Decimal(pids[0]) + " " + Listing(pids[1..])
  }

  // ---------- the accepted lists ----------

  predicate InRange(pid: nat, kill: nat -> bool) { 1 <= pid <= INT_MAX && kill(pid) }

  /** A complete text that is signalled without an error. */
  ghost predicate Good(text: string, kill: nat -> bool) {
    && Legal(text) && |Words(text)| <= MAX_REAPS_PER_PASS
    && forall i :: 0 <= i < |Listed(text)| ==> InRange(Listed(text)[i], kill)
  }

  /** The bytes of the first `n` reads. */
  function Stream(input: nat -> Read, n: nat): string {
    if n == 0 then "" else Stream(input, n - 1) + match input(n - 1) case Chunk(b) => b case _ => ""
  }

  ghost predicate EndsAt(input: nat -> Read, n: nat) {
    && n < MAX_CHILD_LIST_READS && input(n) == Chunk("")
    && forall i :: 0 <= i < n ==> !input(i).Failed? && input(i) != Chunk("")
  }

  ghost predicate Accepts(input: nat -> Read, n: nat, kill: nat -> bool) {
    EndsAt(input, n) && Good(Stream(input, n), kill)
  }

  lemma {:induction false} StreamGrows(input: nat -> Read, m: nat, n: nat)
    requires m <= n
    ensures Stream(input, m) <= Stream(input, n)
    decreases n
  {
    if m < n { StreamGrows(input, m, n - 1); }
  }

  // ---------- the scanner ----------

  datatype Scan = Scan(value: nat, haveDigit: bool, count: nat, found: bool, signalled: seq<nat>)

  /** What the variables hold after `text`, whose unfinished word begins at `cut`. */
  ghost predicate Holds(text: string, cut: nat, st: Scan, kill: nat -> bool) {
    && Legal(text) && cut <= |text| && Closed(text[..cut]) && AllDigits(text[cut..])
    && st.value == Number(text[cut..]) <= UINT64_MAX && st.haveDigit == (cut < |text|)
    && st.signalled == Listed(text[..cut]) && st.count == |st.signalled| <= MAX_REAPS_PER_PASS
    && st.found == (st.signalled != [])
    && forall i :: 0 <= i < |st.signalled| ==> InRange(st.signalled[i], kill)
  }

  lemma Append(text: string, cut: nat, c: char)
    requires cut <= |text|
    ensures text + [c] == text[..cut] + (text[cut..] + [c]) && (text + [c])[..cut] == text[..cut]
    ensures (text + [c])[cut..] == text[cut..] + [c]
  {
  }

  lemma DigitHolds(text: string, cut: nat, st: Scan, kill: nat -> bool, c: char)
    requires Holds(text, cut, st, kill) && IsDigit(c) && st.value * 10 + DigitValue(c) <= UINT64_MAX
    ensures Holds(text + [c], cut, st.(value := st.value * 10 + DigitValue(c), haveDigit := true), kill)
  {
    hide Words, InRange;
    Append(text, cut, c);
    var cur := text[cut..];
    assert (cur + [c])[..|cur|] == cur;
  }

  /** An overflowing word is refused in every continuation of the text. */
  lemma OverflowFails(text: string, cut: nat, st: Scan, kill: nat -> bool, c: char, full: string)
    requires Holds(text, cut, st, kill) && IsDigit(c) && st.value * 10 + DigitValue(c) > UINT64_MAX
    requires text + [c] <= full
    ensures !Good(full, kill)
  {
    var head, cur := text[..cut], text[cut..] + [c];
    var rest := full[|text| + 1..];
    Append(text, cut, c);
    assert full == head + (cur + rest);
    WordsJoin(head, cur + rest);
    WordBegins(cur, rest);
    var word := Words(cur + rest)[0];
    NumberGrows(cur, word);
    assert cur[..|cur| - 1] == text[cut..];
    assert Number(word) > INT_MAX;
    assert Words(full)[|Words(head)|] == word;
    assert Listed(full)[|Words(head)|] == Number(word);
  }

  /** The word that ends at a blank or at the end of the text. */
  lemma WordEnds(text: string, cut: nat, st: Scan, kill: nat -> bool, after: string)
    requires Holds(text, cut, st, kill) && |after| <= 1 && (after != "" ==> IsBlank(after[0]))
    ensures Legal(text + after)
    ensures Listed(text + after) == if st.haveDigit then st.signalled + [st.value] else st.signalled
  {
    hide Words, Number, Listed, InRange;
    var head, cur := text[..cut], text[cut..];
    assert text + after == head + (cur + after);
    ListedEnds(head, cur, after);
  }

  /** An ended word that cannot be signalled fails every continuation. */
  lemma EndFails(text: string, cut: nat, st: Scan, kill: nat -> bool, after: string, full: string)
    requires Holds(text, cut, st, kill) && |after| <= 1 && (after != "" ==> IsBlank(after[0])) && st.haveDigit
    requires st.count + 1 > MAX_REAPS_PER_PASS || !InRange(st.value, kill)
    requires text + after <= full && (after == "" ==> full == text)
    ensures !Good(full, kill)
  {
    hide Words, Number, Legal, AllDigits;
    WordEnds(text, cut, st, kill, after);
    if after == "" {
      assert text + after == full;
    } else {
      assert full == (text + after) + full[|text + after|..];
      ListedJoin(text + after, full[|text + after|..]);
    }
    assert Listed(full)[st.count] == Listed(text + after)[st.count] == st.value;
  }

  lemma BlankHolds(text: string, cut: nat, st: Scan, kill: nat -> bool, c: char)
    requires Holds(text, cut, st, kill) && IsBlank(c)
    requires st.haveDigit ==> st.count + 1 <= MAX_REAPS_PER_PASS && InRange(st.value, kill)
    ensures Holds(text + [c], |text| + 1,
                  if st.haveDigit then Scan(0, false, st.count + 1, true, st.signalled + [st.value]) else st, kill)
  {
    hide Words, Number, InRange, Listed, Legal;
    WordEnds(text, cut, st, kill, [c]);
    NoNumber();
    var more := text + [c];
    assert more[..|more|] == more && more[|more|..] == "";
    assert Closed(more) by { assert more[|more| - 1] == c; }
    if !st.haveDigit {
      assert text[cut..] == "";
    } else {
      assert forall i :: 0 <= i < st.count ==> (st.signalled + [st.value])[i] == st.signalled[i];
    }
  }

  lemma NoNumber()
    ensures AllDigits("") && Number("") == 0
  {
  }

  lemma IllegalFails(text: string, c: char, kill: nat -> bool, full: string)
    requires !IsDigit(c) && !IsBlank(c) && text + [c] <= full
    ensures !Good(full, kill)
  {
    assert full[|text|] == c;
  }

  /** `signal_child_pid` after the count: true exactly when the id may be signalled. */
  method SignalChild(value: nat, kill: nat -> bool) returns (ok: bool)
    ensures ok <==> InRange(value, kill)
  {
    if value == 0 || value > INT_MAX { return false; }
    return kill(value);
  }

  /** One byte. A refusal means no text that continues like this is accepted. */
  method Take(c: char, st: Scan, kill: nat -> bool, ghost text: string, ghost cut: nat)
    returns (ok: bool, next: Scan, ghost cut': nat)
    requires Holds(text, cut, st, kill)
    ensures ok ==> Holds(text + [c], cut', next, kill)
    ensures !ok ==> forall full :: text + [c] <= full ==> !Good(full, kill)
    ensures !ok ==> next.signalled == st.signalled && next.found == st.found
  {
    hide Holds, Good, InRange;
    next, cut' := st, cut;
    if IsDigit(c) {
      var digit := DigitValue(c);
      assert st.value > (UINT64_MAX - digit) / 10 <==> st.value * 10 + digit > UINT64_MAX;
      if st.value > (UINT64_MAX - digit) / 10 {
        forall full | text + [c] <= full ensures !Good(full, kill) {
          OverflowFails(text, cut, st, kill, c, full);
        }
        return false, next, cut';
      }
      DigitHolds(text, cut, st, kill, c);
      next := st.(value := st.value * 10 + digit, haveDigit := true);
    } else if IsBlank(c) {
      if st.haveDigit {
        var able := SignalChild(st.value, kill);
        if st.count + 1 > MAX_REAPS_PER_PASS || !able {
          forall full | text + [c] <= full ensures !Good(full, kill) {
            EndFails(text, cut, st, kill, [c], full);
          }
          return false, next, cut';
        }
        next := Scan(0, false, st.count + 1, true, st.signalled + [st.value]);
      }
      BlankHolds(text, cut, st, kill, c);
      cut' := |text| + 1;
    } else {
      forall full | text + [c] <= full ensures !Good(full, kill) {
        IllegalFails(text, c, kill, full);
      }
      return false, next, cut';
    }
    return true, next, cut';
  }

  /** The bytes of one read. */
  method TakeAll(bytes: string, st: Scan, kill: nat -> bool, ghost text: string, ghost cut: nat)
    returns (ok: bool, next: Scan, ghost cut': nat)
    requires Holds(text, cut, st, kill)
    ensures ok ==> Holds(text + bytes, cut', next, kill)
    ensures !ok ==> forall full :: text + bytes <= full ==> !Good(full, kill)
    ensures !ok ==> next.signalled <= Listed(text + bytes) && next.found == (next.signalled != [])
  {
    hide Good, Holds;
    next, cut' := st, cut;
    var i := 0;
    assert text + bytes[..0] == text;
    while i < |bytes|
      invariant 0 <= i <= |bytes|
      invariant Holds(text + bytes[..i], cut', next, kill)
    {
      ghost var done := text + bytes[..i];
      assert text + bytes[..i + 1] == done + [bytes[i]];
      assert done + [bytes[i]] <= text + bytes;
      var before, at := next, cut';
      ok, next, cut' := Take(bytes[i], next, kill, done, cut');
      if !ok {
        SignalledSoFar(done, at, before, kill, text + bytes);
        return;
      }
      i := i + 1;
    }
    assert bytes[..i] == bytes;
    ok := true;
  }

  /** What was signalled so far is the beginning of what any continuation lists. */
  lemma SignalledSoFar(text: string, cut: nat, st: Scan, kill: nat -> bool, full: string)
    requires Holds(text, cut, st, kill) && text <= full
    ensures st.signalled <= Listed(full) && st.found == (st.signalled != [])
  {
    assert full == text[..cut] + full[cut..];
    WordsJoin(text[..cut], full[cut..]);
  }

  lemma EndUnique(input: nat -> Read, n: nat)
    requires EndsAt(input, n)
    ensures forall m: nat :: EndsAt(input, m) ==> m == n
  {
  }

  lemma Refused(input: nat -> Read, n: nat, kill: nat -> bool)
    requires n < MAX_CHILD_LIST_READS
    requires forall full :: Stream(input, n + 1) <= full ==> !Good(full, kill)
    requires input(n) != Chunk("")
    requires forall i :: 0 <= i < n ==> input(i) != Chunk("")
    ensures forall m: nat :: !Accepts(input, m, kill)
  {
    hide Good, Stream;
    forall m: nat | EndsAt(input, m) ensures !Good(Stream(input, m), kill) {
      assert m > n;
      StreamGrows(input, n + 1, m);
    }
  }

  /** `signal_adopted_children`. It succeeds exactly when the reads come to an end within
      the limit and their bytes together list ids that can all be signalled; those are
      then signalled in order, however the reads cut the text. After a failure the ids
      signalled are the first of those listed. */
  method SignalAdopted(input: nat -> Read, kill: nat -> bool)
    returns (ok: bool, found: bool, signalled: seq<nat>, ghost n: nat)
    ensures ok <==> exists m: nat :: Accepts(input, m, kill)
    ensures ok ==> Accepts(input, n, kill) && signalled == Listed(Stream(input, n))
    ensures !ok ==> signalled <= Listed(Stream(input, n))
    ensures found <==> signalled != []
  {
    hide Holds, Good, Listed, Stream;
    StreamStart(input, kill);
    var st := Scan(0, false, 0, false, []);
    ghost var cut := 0;
    var i := 0;
    while i < MAX_CHILD_LIST_READS
      invariant 0 <= i <= MAX_CHILD_LIST_READS
      invariant forall k :: 0 <= k < i ==> !input(k).Failed? && input(k) != Chunk("")
      invariant Holds(Stream(input, i), cut, st, kill)
    {
      n := i;
      StreamNext(input, i);
      SignalledSoFar(Stream(input, i), cut, st, kill, Stream(input, i));
      match input(i) {
        case Failed =>
          return false, st.found, st.signalled, n;
        case Interrupted =>
        case Chunk(bytes) =>
          if bytes == "" {
            ok, found, signalled := Finish(st, kill, Stream(input, i), cut);
            EndUnique(input, i);
            assert Accepts(input, i, kill) <==> Good(Stream(input, i), kill);
            return;
          }
          ok, st, cut := TakeAll(bytes, st, kill, Stream(input, i), cut);
          if !ok {
            Refused(input, i, kill);
            return false, st.found, st.signalled, i + 1;
          }
      }
      i := i + 1;
    }
    n := i;
    SignalledSoFar(Stream(input, i), cut, st, kill, Stream(input, i));
    return false, st.found, st.signalled, n;
  }

  /** The end of the list. */
  method Finish(st: Scan, kill: nat -> bool, ghost text: string, ghost cut: nat)
    returns (ok: bool, found: bool, signalled: seq<nat>)
    requires Holds(text, cut, st, kill)
    ensures ok <==> Good(text, kill)
    ensures ok ==> signalled == Listed(text)
    ensures !ok ==> signalled <= Listed(text)
    ensures found <==> signalled != []
  {
    WordEnds(text, cut, st, kill, "");
    assert text + "" == text;
    if st.haveDigit {
      var able := SignalChild(st.value, kill);
      if st.count + 1 > MAX_REAPS_PER_PASS || !able {
        EndFails(text, cut, st, kill, "", text);
        return false, st.found, st.signalled;
      }
      return true, true, st.signalled + [st.value];
    }
    return true, st.found, st.signalled;
  }

  lemma StreamStart(input: nat -> Read, kill: nat -> bool)
    ensures Holds(Stream(input, 0), 0, Scan(0, false, 0, false, []), kill)
  {
  }

  lemma StreamNext(input: nat -> Read, i: nat)
    ensures Stream(input, i + 1) == Stream(input, i) + match input(i) case Chunk(b) => b case _ => ""
    ensures !input(i).Chunk? ==> Stream(input, i + 1) == Stream(input, i)
  {
    assert !input(i).Chunk? ==> Stream(input, i) + "" == Stream(input, i);
  }
}
