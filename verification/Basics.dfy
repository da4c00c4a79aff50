/** What the other modules share. */
module Wrappers {
  datatype Option<+T> = None | Some(value: T)
}

/** The storage units of the protocol. */
module Units {
  type Byte = bv8

  const LEAF_SIZE: nat := 64
  const SECTOR_SIZE: nat := 4194304
  const UINT32: nat := 0x1_0000_0000
  const UINT64: nat := 0x1_0000_0000_0000_0000
}

module Division {
  lemma DivModUnique(x: nat, q: nat, r: nat, m: nat)
    requires m > 0 && x == q * m + r && r < m
    ensures x / m == q && x % m == r
  {
    var q', r' := x / m, x % m;
    assert (q - q') * m == r' - r;
    if q > q' {
      AtLeastOnce(q - q', m);
    } else if q' > q {
      AtLeastOnce(q' - q, m);
    }
  }

  lemma AtLeastOnce(d: nat, m: nat)
    requires d > 0
    ensures d * m >= m
  {
  }
}

/** Facts about products, kept behind a name where the solver would otherwise expand them. */
module Products {
  function Times(x: real, y: real): real { x * y }

  lemma TimesSum(a: real, b: real, f: real)
    ensures Times(a + b, f) == Times(a, f) + Times(b, f) && Times(0.0, f) == 0.0
  {
  }

  lemma TimesNonNegative(x: real, y: real)
    requires x >= 0.0 && y >= 0.0
    ensures Times(x, y) >= 0.0
  {
  }

  lemma TimesGrows(x: real, x': real, f: real)
    requires x <= x' && f >= 0.0
    ensures Times(x, f) <= Times(x', f)
  {
    TimesNonNegative(x' - x, f);
  }

  // The mixture of two values: `x` with probability p, `y` otherwise.
  function Mix(p: real, x: real, y: real): real {
    Times(x, p) + Times(y, 1.0 - p)
  }

  // A mixture lies between its parts, and grows with the weight of the larger part.
  lemma MixBounds(p: real, q: real, x: real, y: real)
    requires 0.0 <= p <= q <= 1.0 && y <= x
    ensures y <= Mix(p, x, y) <= Mix(q, x, y) <= x
  {
    var d := x - y;
    TimesNonNegative(d, p);
    TimesNonNegative(d, q - p);
    TimesNonNegative(d, 1.0 - q);
  }

  lemma MixGrows(p: real, x: real, x': real, y: real, y': real)
    requires 0.0 <= p <= 1.0 && x <= x' && y <= y'
    ensures Mix(p, x, y) <= Mix(p, x', y')
  {
    TimesGrows(x, x', p);
    TimesGrows(y, y', 1.0 - p);
  }

  lemma MixSame(p: real, x: real)
    ensures Mix(p, x, x) == x
  {
  }

  lemma MixSwap(p: real, q: real, a: real, b: real, c: real)
    ensures Mix(q, Mix(p, a, b), Mix(p, b, c)) == Mix(p, Mix(q, a, b), Mix(q, b, c))
  {
    hide Mix;
    MixOfMixes(p, q, a, b, c);
    MixOfMixes(q, p, a, b, c);
    assert p * q == q * p;
  }

  lemma MixForm(p: real, x: real, y: real)
    ensures Mix(p, x, y) == y + (x - y) * p
  {
  }

  lemma MixOfMixes(p: real, q: real, a: real, b: real, c: real)
    ensures Mix(q, Mix(p, a, b), Mix(p, b, c)) == c + (b - c) * p + (b - c) * q + (a - b - b + c) * (p * q)
  {
    hide Mix;
    var d, e := b - c, a - b - b + c;
    MixForm(p, a, b);
    MixForm(p, b, c);
    MixForm(q, Mix(p, a, b), Mix(p, b, c));
    assert Mix(p, a, b) - Mix(p, b, c) == d + e * p;
    assert (d + e * p) * q == d * q + e * (p * q);
  }
}

/** Sets, and sequences without repetition. */
module Collections {
  ghost predicate NoDup<T>(xs: seq<T>) {
    forall i, j :: 0 <= i < j < |xs| ==> xs[i] != xs[j]
  }

  // The sequence without the first x.
  function Without<T(==)>(xs: seq<T>, x: T): seq<T> {
    if xs == [] then [] else if xs[0] == x then xs[1..] else [xs[0]] + Without(xs[1..], x)
  }

  lemma {:induction false} WithoutMembers<T>(xs: seq<T>, x: T)
    requires NoDup(xs) && x in xs
    ensures NoDup(Without(xs, x)) && |Without(xs, x)| == |xs| - 1
    ensures forall y :: y in Without(xs, x) <==> y in xs && y != x
  {
    assert xs == [xs[0]] + xs[1..];
    assert xs[0] !in xs[1..];
    if xs[0] != x {
      assert x in xs[1..];
      WithoutMembers(xs[1..], x);
      var rest := Without(xs[1..], x);
      assert xs[0] !in rest;
      assert forall j :: 0 <= j < |rest| ==> rest[j] != xs[0];
    }
  }

  lemma {:induction false} SubsetSize<T>(a: set<T>, b: set<T>)
    requires a <= b
    ensures |a| <= |b|
  {
    if x :| x in a {
      SubsetSize(a - {x}, b - {x});
    }
  }
}
