/** The cosine similarity of two embedding vectors, over the reals. */
module Cosine {

  function Product(x: real, y: real): real {
    x * y
  }

  function Dot(a: seq<real>, b: seq<real>): real
    requires |a| == |b|
  {
    if a == [] then 0.0 else Dot(a[..|a| - 1], b[..|b| - 1]) + Product(a[|a| - 1], b[|b| - 1])
  }

  /** The sum of the products, part by part. */
  lemma {:induction false} DotSplit(a: seq<real>, b: seq<real>, a': seq<real>, b': seq<real>)
    requires |a| == |b| && |a'| == |b'|
    ensures Dot(a + a', b + b') == Dot(a, b) + Dot(a', b')
    ensures |a'| == 1 ==> Dot(a', b') == a'[0] * b'[0]
    decreases |a'|
  {
    if a' == [] {
      assert a + a' == a && b + b' == b;
    } else {
      var n := |a'| - 1;
      assert (a + a')[..|a| + n] == a + a'[..n] && (b + b')[..|b| + n] == b + b'[..n];
      DotSplit(a, b, a'[..n], b'[..n]);
    }
  }

  function Gap(x: real, t: real, y: real, s: real): real {
    (x * t - y * s) * (x * t - y * s)
  }

  /** The sum of the squares of t*a - s*b. */
  function Residue(a: seq<real>, t: real, b: seq<real>, s: real): real
    requires |a| == |b|
  {
    if a == [] then 0.0
    else Residue(a[..|a| - 1], t, b[..|b| - 1], s) + Gap(a[|a| - 1], t, b[|b| - 1], s)
  }

  lemma SameSign(x: real, y: real, p: real)
    requires (x > 0.0 && y > 0.0) || (x < 0.0 && y < 0.0)
    requires p == x * y
    ensures p > 0.0
  {
  }

  lemma GapNonNegative(x: real, t: real, y: real, s: real)
    ensures Gap(x, t, y, s) >= 0.0
    ensures Gap(x, t, y, s) == 0.0 <==> x * t == y * s
  {
    var d := x * t - y * s;
    if d != 0.0 {
      SameSign(d, d, Gap(x, t, y, s));
    }
  }

  /** The vectors scaled by t and s agree. */
  ghost predicate Agree(a: seq<real>, t: real, b: seq<real>, s: real)
    requires |a| == |b|
  {
    forall i :: 0 <= i < |a| ==> a[i] * t == b[i] * s
  }

  lemma AgreeSplit(a: seq<real>, t: real, b: seq<real>, s: real)
    requires |a| == |b| && a != []
    ensures Agree(a, t, b, s) <==>
            Agree(a[..|a| - 1], t, b[..|b| - 1], s) && a[|a| - 1] * t == b[|b| - 1] * s
  {
    var a', b' := a[..|a| - 1], b[..|b| - 1];
    if Agree(a', t, b', s) && a[|a| - 1] * t == b[|b| - 1] * s {
      forall i | 0 <= i < |a|
        ensures a[i] * t == b[i] * s
      {
        assert i < |a'| ==> a'[i] * t == b'[i] * s;
      }
    }
  }

  lemma {:induction false} ResidueNonNegative(a: seq<real>, t: real, b: seq<real>, s: real)
    requires |a| == |b|
    ensures Residue(a, t, b, s) >= 0.0
    ensures Residue(a, t, b, s) == 0.0 <==> Agree(a, t, b, s)
  {
    hide Gap;
    if a != [] {
      var n := |a| - 1;
      ResidueNonNegative(a[..n], t, b[..n], s);
      AgreeSplit(a, t, b, s);
      GapNonNegative(a[n], t, b[n], s);
    }
  }

  lemma ExpandSquare(x: real, t: real, y: real, s: real)
    ensures (x * t - y * s) * (x * t - y * s) == x * x * (t * t) - 2.0 * (x * y) * (t * s) + y * y * (s * s)
  {
  }

  lemma Collect(a: real, b: real, c: real, x: real, y: real, z: real, p: real, q: real, r: real)
    ensures (a + x) * p - 2.0 * (b + y) * q + (c + z) * r
         == (a * p - 2.0 * b * q + c * r) + (x * p - 2.0 * y * q + z * r)
  {
  }

  /** The sum of the squares of t*a - s*b, from the three dot products. */
  function Form(aa: real, ab: real, bb: real, t: real, s: real): real {
    aa * (t * t) - 2.0 * ab * (t * s) + bb * (s * s)
  }

  lemma ExpandStep(p: real, q: real, r: real, x: real, t: real, y: real, s: real)
    ensures Form(p, q, r, t, s) + Gap(x, t, y, s) == Form(p + Product(x, x), q + Product(x, y), r + Product(y, y), t, s)
  {
    ExpandSquare(x, t, y, s);
    Collect(p, q, r, x * x, x * y, y * y, t * t, t * s, s * s);
  }

  lemma NothingToSum(t: real, s: real)
    ensures Form(0.0, 0.0, 0.0, t, s) == 0.0
  {
  }

  lemma {:induction false} ExpandResidue(a: seq<real>, t: real, b: seq<real>, s: real)
    requires |a| == |b|
    ensures Residue(a, t, b, s) == Form(Dot(a, a), Dot(a, b), Dot(b, b), t, s)
  {
    hide Form, Gap, Product;
    if a == [] {
      assert b == [];
      NothingToSum(t, s);
    } else {
      var n := |a| - 1;
      var a', b' := a[..n], b[..n];
      ExpandResidue(a', t, b', s);
      ExpandStep(Dot(a', a'), Dot(a', b'), Dot(b', b'), a[n], t, b[n], s);
    }
  }

  lemma NormNonNegative(a: seq<real>)
    ensures Dot(a, a) >= 0.0
    ensures Dot(a, a) == 0.0 ==> forall i :: 0 <= i < |a| ==> a[i] == 0.0
  {
    ExpandResidue(a, 1.0, a, 0.0);
    ResidueNonNegative(a, 1.0, a, 0.0);
    if Dot(a, a) == 0.0 {
      assert forall i :: 0 <= i < |a| ==> a[i] * 1.0 == a[i] * 0.0;
    }
  }

  lemma {:induction false} DotWithZero(a: seq<real>, b: seq<real>)
    requires |a| == |b| && forall i :: 0 <= i < |a| ==> a[i] == 0.0
    ensures Dot(a, b) == 0.0
  {
    if a != [] {
      DotWithZero(a[..|a| - 1], b[..|b| - 1]);
    }
  }

  lemma SignOfFactor(x: real, z: real)
    requires x > 0.0 && x * z >= 0.0
    ensures z >= 0.0 && (x * z == 0.0 <==> z == 0.0)
  {
  }

  /** The discriminant of a quadratic form that takes no negative value. */
  lemma Discriminant(x: real, d: real, y: real, residue: real)
    requires x >= 0.0 && residue >= 0.0 && (x == 0.0 ==> d == 0.0)
    requires residue == x * (d * d) - 2.0 * d * (d * x) + y * (x * x)
    ensures d * d <= x * y
    ensures d * d == x * y <==> residue == 0.0
  {
    var z := x * y - d * d;
    assert residue == x * z;
    if x > 0.0 {
      SignOfFactor(x, z);
    }
  }

  /** The Cauchy-Schwarz inequality for the accumulators, and when it is an equality: exactly for
      vectors of which one is a multiple of the other. */
  lemma CauchySchwarz(a: seq<real>, b: seq<real>)
    requires |a| == |b|
    ensures Dot(a, b) * Dot(a, b) <= Dot(a, a) * Dot(b, b)
    ensures Dot(a, b) * Dot(a, b) == Dot(a, a) * Dot(b, b) <==> Agree(a, Dot(a, b), b, Dot(a, a))
  {
    hide Dot, Residue, Agree;
    var x, d, y := Dot(a, a), Dot(a, b), Dot(b, b);
    NormNonNegative(a);
    if x == 0.0 {
      DotWithZero(a, b);
    }
    ExpandResidue(a, d, b, x);
    ResidueNonNegative(a, d, b, x);
    Discriminant(x, d, y, Residue(a, d, b, x));
  }

  ghost predicate SquareRoot(sqrt: real -> real) {
    forall x :: x >= 0.0 ==> sqrt(x) >= 0.0 && sqrt(x) * sqrt(x) == x
  }

  lemma SquaresCompare(d: real, m: real)
    requires m > 0.0
    ensures d * d <= m * m <==> -m <= d <= m
    ensures d * d == m * m <==> d == m || d == -m
  {
    assert m * m - d * d == (m - d) * (m + d);
    if d > m || d < -m {
      assert (m - d) * (m + d) < 0.0;
    } else if -m < d < m {
      assert (m - d) * (m + d) > 0.0;
    }
  }

  lemma QuotientCompare(d: real, m: real)
    requires m > 0.0
    ensures d / m * m == d
    ensures d / m <= 1.0 <==> d <= m
    ensures d / m >= -1.0 <==> d >= -m
    ensures (d / m == 1.0 <==> d == m) && (d / m == -1.0 <==> d == -m)
  {
    var r := d / m;
    assert r * m == d;
    assert (r - 1.0) * m == d - m;
    assert (r + 1.0) * m == d + m;
  }

  /** The returned quotient lies between -1 and 1, and on the ends exactly when the squares agree. */
  lemma QuotientBound(d: real, p: real, q: real, x: real, y: real)
    requires p >= 0.0 && q >= 0.0 && p * p == x && q * q == y && x > 0.0 && y > 0.0
    requires d * d <= x * y
    ensures p * q > 0.0
    ensures var r := d / (p * q);
            -1.0 <= r <= 1.0 && r * (p * q) == d && (d * d == x * y <==> r == 1.0 || r == -1.0)
  {
    ProductOfRoots(p, q, x, y);
    var m := p * q;
    SquaresCompare(d, m);
    QuotientCompare(d, m);
  }

  lemma ProductOfRoots(p: real, q: real, x: real, y: real)
    requires p >= 0.0 && q >= 0.0 && p * p == x && q * q == y && x > 0.0 && y > 0.0
    ensures p * q > 0.0 && (p * q) * (p * q) == x * y
  {
    assert p > 0.0 && q > 0.0;
    assert (p * q) * (p * q) == (p * p) * (q * q);
  }

  method Accumulate(vec1: seq<real>, vec2: seq<real>) returns (dotProduct: real, magnitude1: real, magnitude2: real)
    requires |vec1| == |vec2|
    ensures dotProduct == Dot(vec1, vec2) && magnitude1 == Dot(vec1, vec1) && magnitude2 == Dot(vec2, vec2)
  {
    dotProduct, magnitude1, magnitude2 := 0.0, 0.0, 0.0;
    for i := 0 to |vec1|
      invariant dotProduct == Dot(vec1[..i], vec2[..i])
      invariant magnitude1 == Dot(vec1[..i], vec1[..i])
      invariant magnitude2 == Dot(vec2[..i], vec2[..i])
    {
      assert vec1[..i + 1][..i] == vec1[..i] && vec2[..i + 1][..i] == vec2[..i];
      dotProduct := dotProduct + vec1[i] * vec2[i];
      magnitude1 := magnitude1 + vec1[i] * vec1[i];
      magnitude2 := magnitude2 + vec2[i] * vec2[i];
    }
    assert vec1[..|vec1|] == vec1 && vec2[..|vec2|] == vec2;
  }

  method CalcCosineSimilarity(sqrt: real -> real, vec1: seq<real>, vec2: seq<real>) returns (r: real)
    requires SquareRoot(sqrt)
    ensures -1.0 <= r <= 1.0
    ensures |vec1| != |vec2| || Dot(vec1, vec1) == 0.0 || Dot(vec2, vec2) == 0.0 ==> r == 0.0
    ensures |vec1| == |vec2| && Dot(vec1, vec1) != 0.0 && Dot(vec2, vec2) != 0.0 ==>
              && r * (sqrt(Dot(vec1, vec1)) * sqrt(Dot(vec2, vec2))) == Dot(vec1, vec2)
              && (r == 1.0 || r == -1.0 <==> Agree(vec1, Dot(vec1, vec2), vec2, Dot(vec1, vec1)))
  {
    hide Dot, Agree;
    if |vec1| != |vec2| {
      return 0.0;
    }
    var dotProduct, magnitude1, magnitude2 := Accumulate(vec1, vec2);
    if magnitude1 == 0.0 || magnitude2 == 0.0 {
      return 0.0;
    }
    NormNonNegative(vec1);
    NormNonNegative(vec2);
    CauchySchwarz(vec1, vec2);
    var p, q := sqrt(magnitude1), sqrt(magnitude2);
    QuotientBound(dotProduct, p, q, magnitude1, magnitude2);
    return dotProduct / (p * q);
  }
}
