/** Lexicographic order on byte strings: the `<` that Python applies to `bytes`
    and to ASCII `str` values. Byte strings are modelled as `string`. */
module Lex {

  predicate Less(a: string, b: string) {
    |b| > 0 && (|a| == 0 || a[0] < b[0] || (a[0] == b[0] && Less(a[1..], b[1..])))
  }

  lemma {:induction false} Irreflexive(a: string)
    ensures !Less(a, a)
  {
    if |a| > 0 { Irreflexive(a[1..]); }
  }

  lemma {:induction false} Transitive(a: string, b: string, c: string)
    requires Less(a, b) && Less(b, c)
    ensures Less(a, c)
  {
    if |a| > 0 && a[0] == b[0] == c[0] {
      Transitive(a[1..], b[1..], c[1..]);
    }
  }

  lemma {:induction false} Total(a: string, b: string)
    ensures Less(a, b) || a == b || Less(b, a)
  {
    if |a| > 0 && |b| > 0 && a[0] == b[0] {
      Total(a[1..], b[1..]);
      assert a == [a[0]] + a[1..] && b == [b[0]] + b[1..];
    }
  }

  lemma Asymmetric(a: string, b: string)
    requires Less(a, b)
    ensures !Less(b, a) && a != b
  {
    Irreflexive(a);
    if Less(b, a) { Transitive(a, b, a); }
  }

  /** A common prefix does not matter. */
  lemma {:induction false} CommonPrefix(p: string, a: string, b: string)
    ensures Less(p + a, p + b) == Less(a, b)
  {
    if p == [] {
      assert p + a == a && p + b == b;
    } else {
      CommonPrefix(p[1..], a, b);
      assert (p + a)[1..] == p[1..] + a && (p + b)[1..] == p[1..] + b;
    }
  }

  /** Growing the larger side keeps the order. */
  lemma {:induction false} ExtendRight(a: string, b: string, y: string)
    requires Less(a, b)
    ensures Less(a, b + y)
  {
    if |a| > 0 && a[0] == b[0] {
      ExtendRight(a[1..], b[1..], y);
      assert (b + y)[1..] == b[1..] + y;
    }
  }

  /** When the smaller side is not a prefix of the larger, both may grow freely. */
  lemma {:induction false} ExtendBoth(a: string, b: string, x: string, y: string)
    requires Less(a, b) && !(a <= b)
    ensures Less(a + x, b + y)
  {
    if |a| > 0 && a[0] == b[0] {
      assert a[1..] <= b[1..] ==> a <= b by {
        assert a == [a[0]] + a[1..] && b == [b[0]] + b[1..];
      }
      ExtendBoth(a[1..], b[1..], x, y);
      assert (a + x)[1..] == a[1..] + x && (b + y)[1..] == b[1..] + y;
    }
  }
}

/** The concatenation of a rendering of each element. */
module Cats {

  function Cat<T>(f: T -> string, xs: seq<T>): string {
    if xs == [] then "" else f(xs[0]) + Cat(f, xs[1..])
  }

  lemma Associative(x: string, y: string, z: string)
    ensures (x + y) + z == x + (y + z)
  {
  }

  lemma DropFront(x: string, y: string)
    ensures (x + y)[|x|..] == y
  {
  }

  lemma TakeFront(x: string, y: string)
    ensures x <= x + y
  {
  }

  lemma {:induction false} CatConcat<T>(f: T -> string, a: seq<T>, b: seq<T>)
    ensures Cat(f, a + b) == Cat(f, a) + Cat(f, b)
  {
    if a == [] {
      assert a + b == b;
    } else {
      CatConcat(f, a[1..], b);
      assert (a + b)[0] == a[0] && (a + b)[1..] == a[1..] + b;
      Associative(f(a[0]), Cat(f, a[1..]), Cat(f, b));
    }
  }

  lemma CatSnoc<T>(f: T -> string, a: seq<T>, x: T)
    ensures Cat(f, a + [x]) == Cat(f, a) + f(x)
  {
    CatConcat(f, a, [x]);
    assert [x][1..] == [];
    assert Cat(f, [x]) == f(x) + "";
  }

  /** What follows the rendering of a proper prefix. */
  lemma CatNext<T>(f: T -> string, done: seq<T>, xs: seq<T>)
    requires done <= xs && Cat(f, done) < Cat(f, xs)
    ensures |done| < |xs|
    ensures f(xs[|done|]) <= Cat(f, xs)[|Cat(f, done)|..]
  {
    var rest := xs[|done|..];
    assert xs == done + rest;
    CatConcat(f, done, rest);
    assert rest != [];
    DropFront(Cat(f, done), Cat(f, rest));
    TakeFront(f(rest[0]), Cat(f, rest[1..]));
  }
}
