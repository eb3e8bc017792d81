/** Result datatypes and a few sequence helpers shared by every module. */
module Prelude {

  datatype Option<+T> = None | Some(value: T)

  datatype Result<+T, +E> = Ok(value: T) | Err(error: E)

  function Max(a: int, b: int): int {
    if a >= b then a else b
  }

  /** `xs.map(f)` */
  function Map<A, B>(f: A -> B, xs: seq<A>): (ys: seq<B>)
    ensures |ys| == |xs|
    ensures forall i :: 0 <= i < |xs| ==> ys[i] == f(xs[i])
  {
    if xs == [] then [] else [f(xs[0])] + Map(f, xs[1..])
  }

  lemma {:induction false} MapAppend<A, B>(f: A -> B, xs: seq<A>, x: A)
    ensures Map(f, xs + [x]) == Map(f, xs) + [f(x)]
  {
  }

  /** `xs.map(f)` where f may throw: None as soon as one element does. */
  function Traverse<A, B>(f: A -> Option<B>, xs: seq<A>): Option<seq<B>> {
    if xs == [] then Some([])
    else
      var first, rest := f(xs[0]), Traverse(f, xs[1..]);
      if first.Some? && rest.Some? then Some([first.value] + rest.value) else None
  }

  lemma TraverseCons<A, B>(f: A -> Option<B>, x: A, xs: seq<A>)
    requires f(x).Some? && Traverse(f, xs).Some?
    ensures Traverse(f, [x] + xs) == Some([f(x).value] + Traverse(f, xs).value)
  {
    assert ([x] + xs)[1..] == xs;
  }

  /** If g undoes h wherever f succeeds, so does its traversal. */
  lemma {:induction false} TraverseBack<A, B>(f: A -> Option<B>, h: B -> A, g: A -> Option<B>, xs: seq<A>)
    requires Traverse(f, xs).Some?
    requires forall x :: x in xs && f(x).Some? ==> g(h(f(x).value)) == f(x)
    ensures Traverse(g, Map(h, Traverse(f, xs).value)) == Traverse(f, xs)
  {
    if xs != [] {
      var ys := Traverse(f, xs[1..]).value;
      assert Traverse(f, xs) == Some([f(xs[0]).value] + ys);
      TraverseBack(f, h, g, xs[1..]);
      assert Map(h, [f(xs[0]).value] + ys) == [h(f(xs[0]).value)] + Map(h, ys);
      TraverseCons(g, h(f(xs[0]).value), Map(h, ys));
    }
  }

  lemma FilterCons<A>(p: A -> bool, x: A, xs: seq<A>)
    ensures Filter(p, [x] + xs) == (if p(x) then [x] else []) + Filter(p, xs)
  {
    assert ([x] + xs)[1..] == xs;
  }

  /** `xs.filter(p)` */
  function Filter<A>(p: A -> bool, xs: seq<A>): (ys: seq<A>)
    ensures forall y :: y in ys ==> y in xs && p(y)
    ensures |ys| <= |xs|
  {
    if xs == [] then []
    else if p(xs[0]) then [xs[0]] + Filter(p, xs[1..])
    else Filter(p, xs[1..])
  }

  /** Filters that agree keep the same. */
  lemma {:induction false} FilterSame<A>(p: A -> bool, q: A -> bool, xs: seq<A>)
    requires forall x :: x in xs ==> p(x) == q(x)
    ensures Filter(p, xs) == Filter(q, xs)
  {
    if xs != [] {
      assert xs[0] in xs;
      FilterSame(p, q, xs[1..]);
    }
  }

  lemma {:induction false} FilterAppend<A>(p: A -> bool, xs: seq<A>, x: A)
    ensures Filter(p, xs + [x]) == Filter(p, xs) + (if p(x) then [x] else [])
  {
    if xs == [] {
      assert xs + [x] == [x];
    } else {
      assert (xs + [x])[1..] == xs[1..] + [x];
      FilterAppend(p, xs[1..], x);
    }
  }

  lemma {:induction false} FilterAll<A>(p: A -> bool, xs: seq<A>)
    requires forall x :: x in xs ==> p(x)
    ensures Filter(p, xs) == xs
  {
    if xs != [] {
      FilterAll(p, xs[1..]);
    }
  }

  /** `parts.join(sep)` */
  function Join(parts: seq<string>, sep: string): string {
    if parts == [] then ""
    else if |parts| == 1 then parts[0]
    else parts[0] + sep + Join(parts[1..], sep)
  }

  lemma {:induction false} JoinAppend(parts: seq<string>, last: string, sep: string)
    requires parts != []
    ensures Join(parts + [last], sep) == Join(parts, sep) + sep + last
  {
    if |parts| == 1 {
      assert parts + [last] == [parts[0], last];
      assert [parts[0], last][1..] == [last];
    } else {
      assert (parts + [last])[1..] == parts[1..] + [last];
      JoinAppend(parts[1..], last, sep);
      assert parts[0] + sep + (Join(parts[1..], sep) + sep + last)
          == (parts[0] + sep + Join(parts[1..], sep)) + sep + last;
    }
  }

  /** One step of `xs.map(f).join(sep)`. */
  lemma JoinMapStep<A>(f: A -> string, xs: seq<A>, sep: string)
    ensures xs == [] ==> Join(Map(f, xs), sep) == ""
    ensures |xs| == 1 ==> Join(Map(f, xs), sep) == f(xs[0])
    ensures |xs| > 1 ==> Join(Map(f, xs), sep) == f(xs[0]) + (sep + Join(Map(f, xs[1..]), sep))
  {
    if |xs| > 1 {
      assert Map(f, xs)[1..] == Map(f, xs[1..]);
      assert Join(Map(f, xs), sep) == f(xs[0]) + sep + Join(Map(f, xs[1..]), sep);
    }
  }

  lemma {:induction false} FilterConcat<A>(p: A -> bool, xs: seq<A>, ys: seq<A>)
    ensures Filter(p, xs + ys) == Filter(p, xs) + Filter(p, ys)
  {
    if xs == [] {
      assert xs + ys == ys;
    } else {
      assert (xs + ys)[1..] == xs[1..] + ys;
      FilterConcat(p, xs[1..], ys);
    }
  }

  lemma {:induction false} FilterKeeps<A>(p: A -> bool, xs: seq<A>)
    ensures forall x :: x in xs && p(x) ==> x in Filter(p, xs)
  {
    if xs != [] {
      FilterKeeps(p, xs[1..]);
    }
  }

  lemma {:induction false} FilterNone<A>(p: A -> bool, xs: seq<A>)
    requires forall x :: x in xs ==> !p(x)
    ensures Filter(p, xs) == []
  {
    if xs != [] {
      FilterNone(p, xs[1..]);
    }
  }

  /** The decimal digit of a number below ten. */
  function Digit(d: nat): (c: char)
    requires d < 10
    ensures '0' <= c <= '9'
  {
    '0' + (d as char)
  }

  /** `String(n)` of a non-negative integer. */
  function Decimal(n: nat): (s: string)
    ensures s != ""
  {
    if n < 10 then [Digit(n)] else Decimal(n / 10) + [Digit(n % 10)]
  }

  /** The JavaScript integers below it are exact. */
  const SAFE_INTEGERS: nat := 0x20_0000_0000_0000

  // --- division --------------------------------------------------------------

  lemma QuotientBounds(x: nat, d: nat, q: nat)
    requires d > 0 && d * q <= x < d * q + d
    ensures x / d == q
  {
    var k := x / d;
    assert d * k <= x < d * k + d;
    assert k < q ==> d * k + d <= d * q by { if k < q { MulStep(d, k, q); } }
    assert q < k ==> d * q + d <= d * k by { if q < k { MulStep(d, q, k); } }
  }

  lemma MulStep(d: nat, a: nat, b: nat)
    requires a < b
    ensures d * a + d <= d * b
  {
    assert d * (a + 1) <= d * b;
  }

  lemma QuotientIs(x: nat, d: nat)
    requires d > 0
    ensures d * (x / d) <= x < d * (x / d) + d
  {
  }

  lemma QuotientNext(x: nat, d: nat)
    requires d > 0
    ensures (x + d) / d == x / d + 1
  {
    var p := x / d;
    QuotientIs(x, d);
    assert d * (p + 1) == d * p + d;
    QuotientBounds(x + d, d, p + 1);
  }

  lemma QuotientGrows(x: nat, y: nat, d: nat)
    requires d > 0 && x <= y
    ensures x / d <= y / d
    ensures (x + d) / d == x / d + 1
  {
    var p, q := x / d, y / d;
    QuotientIs(x, d);
    QuotientIs(y, d);
    if q < p {
      MulStep(d, q, p);
    }
    QuotientNext(x, d);
  }
}
