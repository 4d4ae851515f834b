/**
 * Two-dimensional vectors (js/Coords.js). A `Coords` is an immutable value: every operation
 * returns a new vector and none changes its arguments. Components are exact reals; the norm
 * and the distance, which need a square root, appear only as their squares.
 */
module Vector {

  datatype Coords = Coords(x: real, y: real)

  const Zero := Coords(0.0, 0.0)

  function Plus(a: Coords, c: Coords): Coords {
    Coords(a.x + c.x, a.y + c.y)
  }

  function Minus(a: Coords, c: Coords): Coords {
    Coords(a.x - c.x, a.y - c.y)
  }

  function Times(a: Coords, k: real): Coords {
    Coords(a.x * k, a.y * k)
  }

  /** The scalar (dot) product. */
  function Scalar(a: Coords, c: Coords): real {
    a.x * c.x + a.y * c.y
  }

  /** The square of `norm()`. */
  function NormSq(a: Coords): real {
    Scalar(a, a)
  }

  /** The square of `a.distance(c)`, which is `a.minus(c).norm()`. */
  function DistanceSq(a: Coords, c: Coords): real {
    NormSq(Minus(a, c))
  }

  lemma PlusIsComponentwise(a: Coords, c: Coords)
    ensures Plus(a, c).x == a.x + c.x && Plus(a, c).y == a.y + c.y
  {}

  lemma PlusCommutative(a: Coords, c: Coords)
    ensures Plus(a, c) == Plus(c, a)
  {}

  lemma PlusZero(a: Coords)
    ensures Plus(a, Zero) == a && Plus(Zero, a) == a
  {}

  lemma MinusUndoesPlus(a: Coords, c: Coords)
    ensures Minus(Plus(a, c), c) == a
  {}

  lemma TimesOne(a: Coords)
    ensures Times(a, 1.0) == a
  {}

  lemma TimesZero(a: Coords)
    ensures Times(a, 0.0) == Zero
  {}

  lemma TimesDistributes(a: Coords, c: Coords, k: real)
    ensures Times(Plus(a, c), k) == Plus(Times(a, k), Times(c, k))
  {}

  lemma ScalarSymmetric(a: Coords, c: Coords)
    ensures Scalar(a, c) == Scalar(c, a)
  {}

  /** `scalar(v, v)`, the square of the norm, is never negative. */
  lemma NormSqNonNegative(a: Coords)
    ensures NormSq(a) >= 0.0
  {}

  lemma DistanceSqSymmetric(a: Coords, c: Coords)
    ensures DistanceSq(a, c) == DistanceSq(c, a)
  {
    assert Minus(c, a) == Times(Minus(a, c), -1.0);
  }

  /** Scaling a vector by `k` scales its squared norm by `k * k`. */
  lemma NormSqTimes(a: Coords, k: real)
    ensures NormSq(Times(a, k)) == k * k * NormSq(a)
  {
    calc {
      NormSq(Times(a, k));
      (a.x * k) * (a.x * k) + (a.y * k) * (a.y * k);
      k * k * (a.x * a.x) + k * k * (a.y * a.y);
    }
  }
}
