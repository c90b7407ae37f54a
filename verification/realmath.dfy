/**
 The transcendental functions the scorer and the variance tracker call
 (`math.exp`, `math.sqrt`, `math.pi`), left uninterpreted: a `Math` value is
 any triple that satisfies the handful of facts below, and nothing else about
 them is assumed.
 */
module RealMath {

  datatype Transcendentals = Transcendentals(exp: real -> real, sqrt: real -> real, pi: real)

  /** The only facts the model uses about exp, sqrt and pi. */
  ghost predicate Sound(t: Transcendentals) {
    && t.pi > 0.0
    && (forall x :: t.exp(x) > 0.0)
    && t.sqrt(0.0) == 0.0
    && t.sqrt(1.0) == 1.0
    && (forall y :: y >= 0.0 ==> t.sqrt(y) >= 0.0)
    && (forall y :: y > 0.0 ==> t.sqrt(y) > 0.0)
  }

  type Math = t: Transcendentals | Sound(t)
    witness Transcendentals((x: real) => 1.0, (y: real) => if y > 0.0 then 1.0 else 0.0, 3.0)

  /** `b ** n` for a natural exponent. */
  function Pow(b: real, n: nat): real {
    if n == 0 then 1.0 else b * Pow(b, n - 1)
  }

  lemma SquarePositive(b: real)
    requires b != 0.0
    ensures Pow(b, 2) > 0.0
  {
    assert Pow(b, 1) == b;
    if b > 0.0 {
      assert b * Pow(b, 1) > 0.0;
    } else {
      ProductOfNegatives(b, Pow(b, 1));
    }
  }

  lemma ProductOfNegatives(a: real, c: real)
    requires a < 0.0 && c < 0.0
    ensures a * c > 0.0
  {
  }

  /** A square is never negative, and is zero only at zero. */
  lemma SquareSign(b: real)
    ensures Pow(b, 2) >= 0.0
    ensures Pow(b, 2) == 0.0 <==> b == 0.0
  {
    if b != 0.0 {
      SquarePositive(b);
    }
  }

  lemma SquareOfNegation(b: real)
    ensures Pow(-b, 2) == Pow(b, 2)
  {
    assert Pow(-b, 1) == -b;
    assert Pow(b, 1) == b;
  }

  lemma SquareOfQuotient(d: real, s: real)
    requires s != 0.0
    ensures Pow(d / s, 2) * Pow(s, 2) == Pow(d, 2)
  {
    assert Pow(d / s, 1) == d / s;
    assert Pow(s, 1) == s;
    assert Pow(d, 1) == d;
    assert (d / s) * s == d;
  }
}
