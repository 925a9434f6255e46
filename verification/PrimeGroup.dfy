/** The prime-order group behind CPACE. An element is its exponent modulo the
    order, so the identity is zero and scalar multiplication is a product. */
module PrimeGroup {
  import opened Basics
  import opened Bytes

  const PointLen: nat := 32

  /** A 32-byte string: a share, a shared value or an X25519 key. */
  type Point = b: seq<byte> | |b| == PointLen witness Zeros(PointLen)

  const ZeroPoint: Point := Zeros(PointLen)

  ghost predicate IsPrime(q: nat)
  {
    q >= 2 && forall d: nat :: 2 <= d < q ==> q % d != 0
  }

  function Mul(q: nat, element: nat, scalar: nat): (r: nat)
    requires q > 0
    ensures r < q
  {
    element * scalar % q
  }

  lemma ModOfMultiple(q: nat, k: int, r: int)
    requires q > 0
    ensures (k * q + r) % q == r % q
  {
    var d := (k * q + r) / q - r / q - k;
    assert d >= 1 ==> d * q >= q;
    assert d <= -1 ==> d * q <= 0 - q;
    assert r % q - (k * q + r) % q == d * q;
  }

  lemma ModProduct(q: nat, a: nat, b: nat)
    requires q > 0
    ensures (a % q) * b % q == a * b % q
  {
    var k := a / q;
    assert a * b == (k * b) * q + (a % q) * b by {
      assert a == k * q + a % q;
      assert (k * q + a % q) * b == (k * q) * b + (a % q) * b;
      assert (k * q) * b == (k * b) * q;
    }
    ModOfMultiple(q, k * b, (a % q) * b);
  }

  /** Euclid's lemma, by descent: if `a` killed `b` then so would the smaller
      remainder `q % a`. */
  lemma {:induction false} ProductNonZero(q: nat, a: nat, b: nat)
    requires IsPrime(q) && 0 < a < q && b % q != 0
    ensures a * b % q != 0
    decreases a
  {
    if a == 1 {
    } else if a * b % q == 0 {
      var r, k, m := q % a, q / a, a * b / q;
      assert a * b == m * q;
      assert r * b == (b - k * m) * q + 0 by {
        assert r == q - k * a;
        assert (q - k * a) * b == q * b - (k * a) * b;
        assert (k * a) * b == k * (a * b);
        assert k * (m * q) == (k * m) * q;
        assert (b - k * m) * q == b * q - (k * m) * q;
      }
      ModOfMultiple(q, b - k * m, 0);
      ProductNonZero(q, r, b);
      assert false;
    }
  }

  /** No nonzero scalar sends a non-identity element to the identity. */
  lemma MulNonIdentity(q: nat, element: nat, scalar: nat)
    requires IsPrime(q) && 0 < element < q && 0 < scalar < q
    ensures 0 < Mul(q, element, scalar) < q
  {
    ProductNonZero(q, element, scalar);
  }

  lemma SameRemainder(q: nat, a: nat, b: nat)
    requires q > 0 && a <= b && a % q == b % q
    ensures (b - a) % q == 0
  {
    var k := b / q - a / q;
    assert b - a == k * q + 0;
    ModOfMultiple(q, k, 0);
  }

  /** Scalars cancel: a non-identity element tells them apart. */
  lemma MulCancels(q: nat, element: nat, x: nat, y: nat)
    requires IsPrime(q) && 0 < element < q && x <= y < q
    requires Mul(q, element, x) == Mul(q, element, y)
    ensures x == y
  {
    MulDifference(q, element, x, y);
    if x < y {
      ProductNonZero(q, element, y - x);
    }
  }

  lemma MulDifference(q: nat, element: nat, x: nat, y: nat)
    requires q > 0 && x <= y && Mul(q, element, x) == Mul(q, element, y)
    ensures element * (y - x) % q == 0
  {
    var a, b, c := element * x, element * y, element * (y - x);
    assert b == a + c;
    SameRemainder(q, a, b);
  }

  lemma MulZero(q: nat, element: nat)
    requires q > 0
    ensures Mul(q, element, 0) == 0
  {
  }

  /** Both sides of the exchange reach the same element. */
  lemma ScalarsCommute(q: nat, g: nat, x: nat, y: nat)
    requires q > 0
    ensures Mul(q, Mul(q, g, x), y) == Mul(q, Mul(q, g, y), x)
  {
    ModProduct(q, g * x, y);
    ModProduct(q, g * y, x);
    assert (g * x) * y == (g * y) * x;
  }

  // ---------- canonical encoding ----------

  function Marshal(element: nat): Point
  {
    BigEndian(element, PointLen)
  }

  /** Accepts exactly the canonical encodings. */
  function Unmarshal(q: nat, p: Point): Option<nat>
  {
    var e := BigEndianValue(p);
    if e < q then Some(e) else None
  }

  lemma UnmarshalMarshal(q: nat, e: nat)
    requires e < q <= Pow256(PointLen)
    ensures Unmarshal(q, Marshal(e)) == Some(e)
  {
    BigEndianRoundTrip(e, PointLen);
  }

  lemma MarshalUnmarshal(q: nat, p: Point)
    requires Unmarshal(q, p).Some?
    ensures Marshal(Unmarshal(q, p).value) == p
  {
    BigEndianOfValue(p);
  }

  /** The identity is the one element that encodes to the zero string. */
  lemma ZeroPointIsIdentity(q: nat, e: nat)
    requires e < q <= Pow256(PointLen)
    ensures Marshal(e) == ZeroPoint <==> e == 0
  {
    UnmarshalMarshal(q, e);
    ZeroValue(Marshal(e));
  }

  /** So the encoded product tells them apart. */
  lemma SharedTellsScalar(q: nat, element: nat, x: nat, y: nat)
    requires IsPrime(q) && q <= Pow256(PointLen) && 0 < element < q && x < q && y < q
    requires Marshal(Mul(q, element, x)) == Marshal(Mul(q, element, y))
    ensures x == y
  {
    UnmarshalMarshal(q, Mul(q, element, x));
    UnmarshalMarshal(q, Mul(q, element, y));
    if x <= y {
      MulCancels(q, element, x, y);
    } else {
      MulCancels(q, element, y, x);
    }
  }
}
