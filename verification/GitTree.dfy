/** Raw Git tree payloads: their encoding, what makes an entry list canonical, and
    the bounded-window parser of the loose object store. */
module GitTree {
  import Lex
  import opened Cats
  import opened Wrappers

  datatype Mode = Directory | Regular | Executable

  /** The 20 raw bytes of an object name; its hexadecimal spelling is one-to-one. */
  type ObjectId = s: string | |s| == 20 witness "00000000000000000000"

  datatype Entry = Entry(name: string, mode: Mode, id: ObjectId)

  datatype ParseError = Malformed | UnsupportedMode | UnsafeName | UnsupportedCharacters | OutOfOrder

  predicate NameChar(c: char) {
    'A' <= c <= 'Z' || 'a' <= c <= 'z' || '0' <= c <= '9' ||
    c == '.' || c == '_' || c == '+' || c == ':' || c == '-'
  }

  predicate SafeName(n: string) {
    1 <= |n| <= 255 && n != "." && n != ".." && n != ".git"
  }

  predicate ValidName(n: string) {
    SafeName(n) && forall k :: 0 <= k < |n| ==> NameChar(n[k])
  }

  function ModeText(m: Mode): string {
    match m
    case Directory => "40000"
    case Regular => "100644"
    case Executable => "100755"
  }

  /** Git orders a directory as if its name ended in a slash. */
  function Key(e: Entry): string {
    e.name + if e.mode.Directory? then "/" else ""
  }

  function EncodeEntry(e: Entry): string {
    ModeText(e.mode) + " " + e.name + ['\0'] + e.id
  }

  function Encode(es: seq<Entry>): string {
    Cat(EncodeEntry, es)
  }

  predicate Distinct(es: seq<Entry>) {
    forall i, j :: 0 <= i < j < |es| ==> es[i].name != es[j].name
  }

  predicate Ordered(es: seq<Entry>) {
    forall i :: 0 < i < |es| ==> Lex.Less(Key(es[i - 1]), Key(es[i]))
  }

  predicate Canonical(es: seq<Entry>) {
    && (forall e :: e in es ==> ValidName(e.name))
    && Distinct(es)
    && Ordered(es)
  }

  /** The entries a payload stands for, if it is the encoding of a canonical list. */
  ghost function Decode(payload: string): Option<seq<Entry>> {
    if exists es :: Canonical(es) && Encode(es) == payload then
      var es :| Canonical(es) && Encode(es) == payload;
      Some(es)
    else None
  }

  // ---------- encoded entries form a prefix code ----------

  lemma NoBlank(m: Mode)
    ensures 5 <= |ModeText(m)| <= 6
    ensures forall k :: 0 <= k < |ModeText(m)| ==> ModeText(m)[k] != ' '
  {
  }

  /** Where the separators of an encoded entry sit inside a longer string. */
  lemma EntryLayout(s: string, e: Entry, sp: int, nl: int)
    requires ValidName(e.name) && EncodeEntry(e) <= s
    requires sp == |ModeText(e.mode)| && nl == sp + 1 + |e.name|
    ensures nl + 21 <= |s| && |EncodeEntry(e)| == nl + 21
    ensures s[sp] == ' ' && forall k :: 0 <= k < sp ==> s[k] != ' '
    ensures s[nl] == '\0' && forall k :: sp < k < nl ==> s[k] != '\0'
    ensures s[..sp] == ModeText(e.mode) && s[sp + 1..nl] == e.name && s[nl + 1..nl + 21] == e.id
  {
    hide ModeText;
    NoBlank(e.mode);
    var w := EncodeEntry(e);
    assert w[..sp] == ModeText(e.mode) && w[sp] == ' ' && w[sp + 1..nl] == e.name && w[nl] == '\0' &&
           w[nl + 1..nl + 21] == e.id;
    assert s[..|w|] == w;
    assert s[..sp] == w[..sp] && s[sp + 1..nl] == w[sp + 1..nl] && s[nl + 1..nl + 21] == w[nl + 1..nl + 21];
    forall k | 0 <= k < sp ensures s[k] != ' ' { assert s[k] == ModeText(e.mode)[k]; }
    forall k | sp < k < nl ensures s[k] != '\0' { assert s[k] == e.name[k - sp - 1]; }
  }

  lemma PrefixCode(s: string, a: Entry, b: Entry)
    requires ValidName(a.name) && ValidName(b.name)
    requires EncodeEntry(a) <= s && EncodeEntry(b) <= s
    ensures a == b
  {
    var sa, sb := |ModeText(a.mode)|, |ModeText(b.mode)|;
    var na, nb := sa + 1 + |a.name|, sb + 1 + |b.name|;
    EntryLayout(s, a, sa, na);
    EntryLayout(s, b, sb, nb);
    assert sa == sb && na == nb;
  }

  /** An accepted payload has only one reading. */
  lemma {:induction false} EncodeInjective(a: seq<Entry>, b: seq<Entry>)
    requires forall e :: e in a ==> ValidName(e.name)
    requires forall e :: e in b ==> ValidName(e.name)
    requires Encode(a) == Encode(b)
    ensures a == b
  {
    if a != [] && b != [] {
      var s := Encode(a);
      assert EncodeEntry(a[0]) <= s && EncodeEntry(b[0]) <= s;
      PrefixCode(s, a[0], b[0]);
      var n := |EncodeEntry(a[0])|;
      assert Encode(a[1..]) == s[n..] == Encode(b[1..]);
      EncodeInjective(a[1..], b[1..]);
      assert a == [a[0]] + a[1..] && b == [b[0]] + b[1..];
    }
  }

  lemma DecodeUnique(payload: string, es: seq<Entry>)
    requires Canonical(es) && Encode(es) == payload
    ensures Decode(payload) == Some(es)
  {
    EncodeInjective(es, Decode(payload).value);
  }

  // ---------- the parser ----------

  /** `r` is the first index of `c` in the window, or -1. */
  ghost predicate FirstIn(s: string, c: char, lo: nat, hi: int, r: int)
    requires hi <= |s|
  {
    if r == -1 then forall k :: lo <= k < hi ==> s[k] != c
    else lo <= r < hi && s[r] == c && forall k :: lo <= k < r ==> s[k] != c
  }

  /** `bytes.find` over a window. */
  method Find(s: string, c: char, lo: nat, hi: int) returns (r: int)
    requires hi <= |s|
    ensures FirstIn(s, c, lo, hi, r)
  {
    r := lo;
    while r < hi
      invariant lo <= r && (lo <= hi ==> r <= hi) && (hi < lo ==> r == lo)
      invariant forall k :: lo <= k < r ==> s[k] != c
    {
      if s[r] == c { return; }
      r := r + 1;
    }
    r := -1;
  }

  function Min(a: int, b: int): int { if a < b then a else b }

  /** An encoded entry at `position` puts both separators inside the search windows. */
  lemma SeparatorsInWindows(payload: string, position: nat, space: int, nul: int, e: Entry)
    requires position < |payload| && ValidName(e.name) && EncodeEntry(e) <= payload[position..]
    requires FirstIn(payload, ' ', position, Min(|payload|, position + 8), space)
    requires space >= -1 && FirstIn(payload, '\0', space + 1, Min(|payload|, space + 258), nul)
    ensures position <= space < nul && nul + 21 <= |payload|
    ensures payload[position..space] == ModeText(e.mode) && payload[space + 1..nul] == e.name
  {
    hide ModeText, EncodeEntry;
    NoBlank(e.mode);
    var s := payload[position..];
    var sp := |ModeText(e.mode)|;
    var nl := sp + 1 + |e.name|;
    EntryLayout(s, e, sp, nl);
    assert forall k :: 0 <= k < |s| ==> s[k] == payload[position + k];
    assert payload[position + sp] == ' ';
    assert space == position + sp;
    assert payload[position + nl] == '\0';
    assert nul == position + nl;
    assert payload[position..space] == s[..sp] && payload[space + 1..nul] == s[sp + 1..nl];
  }

  /** Five adjacent slices make one. */
  lemma Slices(payload: string, position: nat, space: nat, nul: nat)
    requires position <= space < nul && nul + 21 <= |payload|
    requires payload[space] == ' ' && payload[nul] == '\0'
    ensures payload[position..nul + 21] ==
            payload[position..space] + " " + payload[space + 1..nul] + ['\0'] + payload[nul + 1..nul + 21]
  {
    assert payload[position..space + 1] == payload[position..space] + " ";
    assert payload[position..nul] == payload[position..space + 1] + payload[space + 1..nul];
    assert payload[position..nul + 1] == payload[position..nul] + ['\0'];
    assert payload[position..nul + 21] == payload[position..nul + 1] + payload[nul + 1..nul + 21];
  }

  /** One turn of the loop in `parse_tree`, up to the checks on neighbouring entries:
      it succeeds exactly when an encoded valid entry starts at `position`. */
  method ParseEntry(payload: string, position: nat) returns (r: Result<(Entry, nat), ParseError>)
    requires position < |payload|
    ensures r.Success? ==>
      && ValidName(r.value.0.name)
      && position < r.value.1 <= |payload|
      && payload[position..r.value.1] == EncodeEntry(r.value.0)
    ensures r.Failure? ==> forall e: Entry :: ValidName(e.name) ==> !(EncodeEntry(e) <= payload[position..])
  {
    var space := Find(payload, ' ', position, Min(|payload|, position + 8));
    var nul := Find(payload, '\0', space + 1, Min(|payload|, space + 258));
    forall e: Entry | ValidName(e.name) && EncodeEntry(e) <= payload[position..]
      ensures position <= space < nul && nul + 21 <= |payload|
      ensures payload[position..space] == ModeText(e.mode) && payload[space + 1..nul] == e.name
    {
      SeparatorsInWindows(payload, position, space, nul, e);
    }
    if space < 0 || nul < 0 || nul + 21 > |payload| { return Failure(Malformed); }
    var modeRaw, name, id := payload[position..space], payload[space + 1..nul], payload[nul + 1..nul + 21];
    if modeRaw != "40000" && modeRaw != "100644" && modeRaw != "100755" {
      return Failure(UnsupportedMode);
    }
    if !SafeName(name) { return Failure(UnsafeName); }
    if !ValidName(name) { return Failure(UnsupportedCharacters); }
    var mode := if modeRaw == "40000" then Directory else if modeRaw == "100644" then Regular else Executable;
    Slices(payload, position, space, nul);
    return Success((Entry(name, mode, id), nul + 21));
  }

  /** `es` is a reading of the payload. */
  predicate Reads(es: seq<Entry>, payload: string) {
    Canonical(es) && Encode(es) == payload
  }

  /** Every reading of the payload that starts with `output` goes on with the entry
      parsed next. */
  lemma Follows(payload: string, output: seq<Entry>, entry: Entry, next: nat, es: seq<Entry>)
    requires Reads(es, payload) && output <= es && ValidName(entry.name)
    requires |Encode(output)| < next <= |payload| && Encode(output) == payload[..|Encode(output)|]
    requires payload[|Encode(output)|..next] == EncodeEntry(entry)
    ensures output + [entry] <= es
  {
    hide Ordered, Distinct, ModeText;
    var position := |Encode(output)|;
    assert Encode(output) < payload;
    CatNext(EncodeEntry, output, es);
    var rest := payload[position..];
    assert payload[position..next] == rest[..next - position];
    PrefixCode(rest, entry, es[|output|]);
  }

  /** `parse_tree` after the byte charge. Acceptance is exact: a payload is accepted
      if and only if it is the encoding of a canonical entry list, and the list
      returned is that one. */
  method ParseTree(payload: string) returns (r: Result<seq<Entry>, ParseError>)
    ensures r.Success? <==> exists es :: Canonical(es) && Encode(es) == payload
    ensures r.Success? ==> Canonical(r.value) && Encode(r.value) == payload && Decode(payload) == Some(r.value)
  {
    var output: seq<Entry> := [];
    var position := 0;
    var seen: set<string> := {};
    while position < |payload|
      invariant 0 <= position <= |payload|
      invariant Canonical(output) && Encode(output) == payload[..position]
      invariant seen == set e | e in output :: e.name
      invariant forall es :: Reads(es, payload) ==> output <= es
      decreases |payload| - position
    {
      var one := ParseEntry(payload, position);
      if one.Failure? {
        forall es | Reads(es, payload) ensures false { CatNext(EncodeEntry, output, es); }
        assert forall es :: Canonical(es) && Encode(es) == payload ==> Reads(es, payload);
        return Failure(one.error);
      }
      var (entry, next) := one.value;
      forall es | Reads(es, payload) ensures output + [entry] <= es {
        Follows(payload, output, entry, next, es);
      }
      if entry.name in seen || (|output| > 0 && !Lex.Less(Key(output[|output| - 1]), Key(entry))) {
        forall es | Reads(es, payload) ensures false { Clash(output, entry, seen, es); }
        assert forall es :: Canonical(es) && Encode(es) == payload ==> Reads(es, payload);
        return Failure(if entry.name in seen then UnsafeName else OutOfOrder);
      }
      CatSnoc(EncodeEntry, output, entry);
      assert payload[..next] == payload[..position] + payload[position..next];
      CanonicalSnoc(output, entry, seen);
      seen := seen + {entry.name};
      output := output + [entry];
      position := next;
    }
    assert payload[..position] == payload;
    DecodeUnique(payload, output);
    return Success(output);
  }

  lemma Clash(output: seq<Entry>, entry: Entry, seen: set<string>, es: seq<Entry>)
    requires seen == set e | e in output :: e.name
    requires entry.name in seen || (|output| > 0 && !Lex.Less(Key(output[|output| - 1]), Key(entry)))
    requires output + [entry] <= es
    ensures !Canonical(es)
  {
    var longer := output + [entry];
    assert forall k :: 0 <= k < |longer| ==> es[k] == longer[k];
    assert es[|output|] == entry;
    if entry.name in seen {
      var k :| 0 <= k < |output| && output[k].name == entry.name;
      assert es[k].name == es[|output|].name;
    } else {
      assert es[|output| - 1] == output[|output| - 1];
    }
  }

  lemma CanonicalSnoc(output: seq<Entry>, entry: Entry, seen: set<string>)
    requires Canonical(output) && ValidName(entry.name)
    requires seen == set e | e in output :: e.name
    requires entry.name !in seen
    requires |output| > 0 ==> Lex.Less(Key(output[|output| - 1]), Key(entry))
    ensures Canonical(output + [entry])
    ensures seen + {entry.name} == set e | e in output + [entry] :: e.name
  {
    assert forall k :: 0 <= k < |output| ==> output[k].name in seen;
  }
}
