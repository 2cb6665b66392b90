/** The edwards25519 group and its scalar field, as the protocol uses them.

    The group of edwards25519 is cyclic of order 8·L, with L prime, so it is
    isomorphic to Z_L × Z_8. A point is modelled by that pair: its discrete
    logarithm to the base point inside the prime-order subgroup, and its
    small-order (torsion) component. Scalars are integers reduced mod L, as
    the curve library keeps them. Field arithmetic and the compressed point
    encoding are not modelled here.
 */
module Group {
  import opened Arithmetic

  /** The order of the prime-order subgroup: 2^252 + 27742317777372353535851937790883648493. */
  const L: nat := 7237005577332262213973186563042994240857116359379907606001950938285454250989

  /** The cofactor of edwards25519. */
  const Cofactor: nat := 8

  /** A canonical scalar, always reduced mod L. */
  type Scalar = x: nat | x < L

  /** The small-order component of a point. */
  type Torsion = x: nat | x < Cofactor

  /** A point, as (discrete log mod L, torsion mod 8). */
  datatype Point = Point(log: Scalar, torsion: Torsion) {
    /** The point lies in the order-L subgroup generated by the base point. */
    predicate InPrimeOrderSubgroup() { torsion == 0 }

    /** The point has order dividing 8. */
    predicate SmallOrder() { log == 0 }
  }

  /** The standard base point: a generator of the order-L subgroup. */
  const BasePoint: Point := Point(1, 0)

  /** [x]q, for a canonical scalar x. */
  function ScalarMult(x: Scalar, q: Point): Point
  {
    Point((x * q.log) % L, (x * q.torsion) % Cofactor)
  }

  /** p + q. */
  function Add(p: Point, q: Point): Point
  {
    Point((p.log + q.log) % L, (p.torsion + q.torsion) % Cofactor)
  }

  /** [8]p: eight times the torsion component is 0 mod 8. */
  function MultByCofactor(p: Point): Point
  {
    Point((Cofactor * p.log) % L, 0)
  }

  /** x·y + z mod L. */
  function MultiplyAdd(x: Scalar, y: Scalar, z: Scalar): Scalar
  {
    (x * y + z) % L
  }

  // ---------------------------------------------------------------------
  // Group facts.

  /** The base point generates the order-L subgroup and each canonical
      scalar names a different multiple of it. */
  lemma BaseMultiple(x: Scalar)
    ensures ScalarMult(x, BasePoint) == Point(x, 0)
    ensures ScalarMult(x, BasePoint).InPrimeOrderSubgroup()
  {
  }

  /** Multiplying by the cofactor lands in the order-L subgroup and forgets
      the small-order component of its argument. */
  lemma CofactorClearsTorsion(p: Point, t: Point)
    requires t.SmallOrder()
    ensures MultByCofactor(p).InPrimeOrderSubgroup()
    ensures MultByCofactor(Add(p, t)) == MultByCofactor(p)
  {
    ModUnique(p.log + t.log, L, 0, p.log);
  }

  /** Two points with the same discrete log differ by a point of small order. */
  lemma SmallOrderDifference(p: Point, q: Point) returns (t: Point)
    requires p.log == q.log
    ensures t.SmallOrder() && Add(p, t) == q
  {
    t := Point(0, (q.torsion - p.torsion) % Cofactor);
    ModUnique(p.log + t.log, L, 0, p.log);
    ModUnique(p.torsion + t.torsion, Cofactor, if p.torsion <= q.torsion then 0 else 1, q.torsion);
  }
}
