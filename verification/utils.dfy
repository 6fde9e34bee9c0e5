/** Vector algebra and the tuple hash of `src/utils.h`.
    `sf::Vector2f` becomes a pair of reals; `size_t` arithmetic becomes
    arithmetic on `nat` without wrap-around. */
module Utils {

  /** A 2-D vector or point (`sf::Vector2f`). */
  datatype Vec2 = Vec2(x: real, y: real)

  const Zero: Vec2 := Vec2(0.0, 0.0)

  function Plus(a: Vec2, b: Vec2): Vec2 {
    Vec2(a.x + b.x, a.y + b.y)
  }

  function Minus(a: Vec2, b: Vec2): Vec2 {
    Vec2(a.x - b.x, a.y - b.y)
  }

  function Times(v: Vec2, s: real): Vec2 {
    Vec2(v.x * s, v.y * s)
  }

  /** Both coordinates are non-negative. */
  predicate NonNegative(v: Vec2) {
    v.x >= 0.0 && v.y >= 0.0
  }

  function Square(r: real): real {
    r * r
  }

  /** A square is non-negative, and positive unless its root is zero. */
  lemma SquareSign(r: real)
    ensures Square(r) >= 0.0
    ensures r != 0.0 ==> Square(r) > 0.0
  {
    if r < 0.0 {
      calc {
        Square(r);
        (-r) * (-r);
      >
        0.0;
      }
    } else if r > 0.0 {
      calc {
        Square(r);
        r * r;
      >
        0.0;
      }
    }
  }

  /** `utils::distance_sq`: the squared Euclidean distance, which is
      non-negative and vanishes exactly when the two points coincide. */
  function DistanceSq(a: Vec2, b: Vec2): (d: real)
    ensures d >= 0.0
    ensures d == 0.0 <==> a == b
  {
    SquareSign(a.x - b.x);
    SquareSign(a.y - b.y);
    Square(a.x - b.x) + Square(a.y - b.y)
  }

  /** `utils::dot_product`. */
  function Dot(a: Vec2, b: Vec2): real {
    a.x * b.x + a.y * b.y
  }

  /** The squared distance does not depend on the order of its arguments. */
  lemma DistanceSqSymmetric(a: Vec2, b: Vec2)
    ensures DistanceSq(a, b) == DistanceSq(b, a)
  {
    assert (a.x - b.x) * (a.x - b.x) == (b.x - a.x) * (b.x - a.x);
    assert (a.y - b.y) * (a.y - b.y) == (b.y - a.y) * (b.y - a.y);
  }

  /** The dot product is commutative. */
  lemma DotCommutative(a: Vec2, b: Vec2)
    ensures Dot(a, b) == Dot(b, a)
  {
  }

  /** The squared distance is the dot product of the difference with itself. */
  lemma DotSelfIsDistanceSq(a: Vec2, b: Vec2)
    ensures Dot(Minus(a, b), Minus(a, b)) == DistanceSq(a, b)
  {
  }

  /** `utils::HASH_PRIME`. */
  const HASH_PRIME: nat := 1168639

  /** `utils::TupleHash` on a pair of unsigned integers, without overflow. */
  function TupleHash(a: nat, b: nat): nat {
    a + HASH_PRIME * b
  }

  /** The tuple hash tells pairs apart when both first components are below the prime. */
  lemma {:induction false} TupleHashInjective(a1: nat, b1: nat, a2: nat, b2: nat)
    requires a1 < HASH_PRIME && a2 < HASH_PRIME
    ensures TupleHash(a1, b1) == TupleHash(a2, b2) <==> a1 == a2 && b1 == b2
  {
  }

  /** Without the bound on the first component the hash collides:
      `(HASH_PRIME, 0)` and `(0, 1)` share a hash. */
  lemma TupleHashCollision()
    ensures TupleHash(HASH_PRIME, 0) == TupleHash(0, 1)
  {
  }
}
