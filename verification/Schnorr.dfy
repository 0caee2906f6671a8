/**
BIP-340 signing and verification over double-and-add (buzz-mint-auth-tag.py).
The curve enters only through its group laws, the hash only as a function.
*/
module Schnorr {
  import opened Prelude

  /** Python's None for the point at infinity. */
  datatype Point = Infinity | Affine(x: nat, y: nat)

  /** A group of points with a generator `g`; `lift` is `lift_x`. */
  datatype Group = Group(
    p: nat, n: nat, g: Point, add: (Point, Point) -> Point, on: Point -> bool, lift: nat -> Point)

  /** k-fold addition. */
  function Mult(c: Group, k: nat, q: Point): Point
  {
    if k == 0 then Infinity else c.add(Mult(c, k - 1, q), q)
  }

  function Negated(c: Group, q: Point): Point
    requires q.Affine? && q.y <= c.p
  {
    Affine(q.x, c.p - q.y)
  }

  predicate Even(q: Point)
  {
    q.Affine? && q.y % 2 == 0
  }

  // Each law is named, so that proofs say which instance they use.

  predicate Closed(c: Group, a: Point, b: Point)
  {
    c.on(a) && c.on(b) ==> c.on(c.add(a, b))
  }

  predicate Neutral(c: Group, a: Point)
  {
    c.on(a) ==> c.add(Infinity, a) == a && c.add(a, Infinity) == a
  }

  predicate Commutes(c: Group, a: Point, b: Point)
  {
    c.on(a) && c.on(b) ==> c.add(a, b) == c.add(b, a)
  }

  predicate Associates(c: Group, a: Point, b: Point, d: Point)
  {
    c.on(a) && c.on(b) && c.on(d) ==> c.add(c.add(a, b), d) == c.add(a, c.add(b, d))
  }

  ghost predicate Abelian(c: Group)
  {
    && c.on(Infinity) && c.on(c.g)
    && (forall a, b :: Closed(c, a, b))
    && (forall a :: Neutral(c, a))
    && (forall a, b :: Commutes(c, a, b))
    && (forall a, b, d :: Associates(c, a, b, d))
  }

  /** An affine point has an inverse with the other y, and `lift` picks the even one of the two. */
  predicate Mirror(c: Group, q: Point)
  {
    c.on(q) && q.Affine? ==>
      && q.x < c.p && 0 < q.y < c.p
      && c.on(Negated(c, q)) && c.add(q, Negated(c, q)) == Infinity
      && c.lift(q.x) == if Even(q) then q else Negated(c, q)
  }

  predicate LiftsEven(c: Group, x: nat)
  {
    c.lift(x).Affine? ==> c.on(c.lift(x)) && c.lift(x).x == x && Even(c.lift(x))
  }

  ghost predicate Mirrored(c: Group)
  {
    c.p % 2 == 1 && (forall q :: Mirror(c, q)) && (forall x :: LiftsEven(c, x))
  }

  predicate Vanishes(c: Group, q: Point)
  {
    c.on(q) ==> Mult(c, c.n, q) == Infinity
  }

  predicate Finite(c: Group, k: nat)
  {
    0 < k < c.n ==> Mult(c, k, c.g).Affine?
  }

  /** Every point vanishes at `n`, and the generator no earlier. */
  ghost predicate Ordered(c: Group)
  {
    c.n > 1 && (forall q :: Vanishes(c, q)) && (forall k: nat :: Finite(c, k))
  }

  ghost predicate Lawful(c: Group)
  {
    Abelian(c) && Mirrored(c) && Ordered(c) && c.p <= Pow256(32) && c.n <= Pow256(32)
  }

  // ----- double-and-add -----

  lemma {:induction false} MultOn(c: Group, k: nat, q: Point)
    requires Abelian(c) && c.on(q)
    ensures c.on(Mult(c, k, q))
  {
    if k == 0 {
    } else {
      MultOn(c, k - 1, q);
      assert Closed(c, Mult(c, k - 1, q), q);
    }
  }

  lemma {:induction false} MultSum(c: Group, a: nat, b: nat, q: Point)
    requires Abelian(c) && c.on(q)
    ensures Mult(c, a + b, q) == c.add(Mult(c, a, q), Mult(c, b, q))
    decreases b
  {
    MultOn(c, a, q);
    if b == 0 {
      assert Neutral(c, Mult(c, a, q));
    } else {
      MultOn(c, b - 1, q);
      MultSum(c, a, b - 1, q);
      assert Associates(c, Mult(c, a, q), Mult(c, b - 1, q), q);
    }
  }

  lemma {:induction false} MultTwice(c: Group, k: nat, q: Point)
    requires Abelian(c) && c.on(q)
    ensures Mult(c, k, c.add(q, q)) == Mult(c, 2 * k, q)
  {
    if k == 0 {
    } else {
      MultTwice(c, k - 1, q);
      MultSum(c, 2 * (k - 1), 2, q);
      assert Neutral(c, q) && Mult(c, 1, q) == q;
      assert Mult(c, 2, q) == c.add(q, q);
    }
  }

  /** `point_mul` is k-fold addition, for every k. */
  method PointMul(c: Group, k: nat, pt: Point) returns (r: Point)
    requires Abelian(c) && c.on(pt)
    ensures r == Mult(c, k, pt)
  {
    r := Infinity;
    var k', pt' := k, pt;
    MultOn(c, k, pt);
    assert Neutral(c, Mult(c, k, pt));
    while k' != 0
      invariant c.on(r) && c.on(pt')
      invariant c.add(r, Mult(c, k', pt')) == Mult(c, k, pt)
      decreases k'
    {
      assert Closed(c, pt', pt') && Closed(c, r, pt');
      ghost var rest := Mult(c, k' / 2, c.add(pt', pt'));
      MultOn(c, k' / 2, c.add(pt', pt'));
      MultTwice(c, k' / 2, pt');
      if k' % 2 == 1 {
        MultSum(c, 1, 2 * (k' / 2), pt');
        assert Neutral(c, pt') && Mult(c, 1, pt') == pt';
        assert Associates(c, r, pt', rest);
        r := c.add(r, pt');
      }
      pt' := c.add(pt', pt');
      k' := k' / 2;
    }
    assert Neutral(c, r);
  }

  lemma {:induction false} MultProduct(c: Group, a: nat, b: nat, q: Point)
    requires Abelian(c) && c.on(q)
    ensures Mult(c, a, Mult(c, b, q)) == Mult(c, a * b, q)
    decreases a
  {
    if a == 0 {
    } else {
      MultProduct(c, a - 1, b, q);
      MultSum(c, (a - 1) * b, b, q);
      assert (a - 1) * b + b == a * b;
    }
  }

  lemma {:induction false} MultOfInfinity(c: Group, k: nat)
    requires Abelian(c)
    ensures Mult(c, k, Infinity) == Infinity
  {
    if k == 0 {
    } else {
      MultOfInfinity(c, k - 1);
      assert Neutral(c, Infinity);
    }
  }

  /** Multiples of the order vanish. */
  lemma MultWraps(c: Group, a: nat, m: nat)
    requires Abelian(c) && Ordered(c)
    ensures Mult(c, a + m * c.n, c.g) == Mult(c, a, c.g)
  {
    MultSum(c, a, m * c.n, c.g);
    MultProduct(c, m, c.n, c.g);
    MultOfInfinity(c, m);
    MultOn(c, a, c.g);
    assert Vanishes(c, c.g) && Neutral(c, Mult(c, a, c.g));
  }

  lemma MultMod(c: Group, a: nat)
    requires Abelian(c) && Ordered(c)
    ensures Mult(c, a % c.n, c.g) == Mult(c, a, c.g)
  {
    MultWraps(c, a % c.n, a / c.n);
    assert a == a % c.n + (a / c.n) * c.n;
  }

  lemma InverseUnique(c: Group, q: Point, m: Point, neg: Point)
    requires Abelian(c) && c.on(q) && c.on(m) && c.on(neg)
    requires c.add(q, m) == Infinity && c.add(q, neg) == Infinity
    ensures m == neg
  {
    assert Commutes(c, q, m) && Associates(c, m, q, neg) && Neutral(c, m) && Neutral(c, neg);
  }

  /** The secret, or its complement, whichever has a public point with even y. */
  function Normal(c: Group, d: nat): nat
    requires 0 < d < c.n
  {
    if Even(Mult(c, d, c.g)) then d else c.n - d
  }

  /** The normal scalar yields exactly the point that `lift_x` recovers from the x coordinate. */
  lemma NormalLifts(c: Group, d: nat)
    requires Lawful(c) && 0 < d < c.n
    ensures var q := Mult(c, d, c.g); var even := Mult(c, Normal(c, d), c.g);
            && q.Affine? && q.x < c.p && even == c.lift(q.x) && even.Affine? && even.x == q.x && Even(even)
  {
    var q := Mult(c, d, c.g);
    MultOn(c, d, c.g);
    assert Finite(c, d) && Mirror(c, q);
    if !Even(q) {
      assert Vanishes(c, c.g);
      MultOn(c, c.n - d, c.g);
      MultSum(c, d, c.n - d, c.g);
      InverseUnique(c, q, Mult(c, c.n - d, c.g), Negated(c, q));
    }
  }

  // ----- bytes -----

  function Pow256(n: nat): (p: nat)
    ensures p > 0
  {
    if n == 0 then 1 else 256 * Pow256(n - 1)
  }

  /** Big-endian, `len` bytes. */
  function ToBytes(v: nat, len: nat): (bs: seq<Byte>)
    ensures |bs| == len
  {
    if len == 0 then [] else ToBytes(v / 256, len - 1) + [(v % 256) as Byte]
  }

  function FromBytes(bs: seq<Byte>): nat
  {
    if bs == [] then 0 else FromBytes(bs[..|bs| - 1]) * 256 + bs[|bs| - 1] as nat
  }

  lemma {:induction false} BytesRoundTrip(v: nat, len: nat)
    requires v < Pow256(len)
    ensures FromBytes(ToBytes(v, len)) == v
    decreases len
  {
    if len == 0 {
    } else {
      BytesRoundTrip(v / 256, len - 1);
      assert ToBytes(v, len)[..len - 1] == ToBytes(v / 256, len - 1);
    }
  }

  // ----- signing and verification -----

  /** Tagged hashes as integers: nonce from secret, aux, public x, message; challenge from R, public key, message. */
  datatype Hashes = Hashes(
    nonce: (nat, seq<Byte>, nat, seq<Byte>) -> nat,
    challenge: (seq<Byte>, seq<Byte>, seq<Byte>) -> nat)

  datatype SignError = SecretOutOfRange | ZeroNonce | SelfVerifyFailed

  function Verify(c: Group, h: Hashes, msg: seq<Byte>, pub: seq<Byte>, sig: seq<Byte>): bool
    requires c.n > 0
  {
    var split := if |sig| < 32 then |sig| else 32;
    var pt := c.lift(FromBytes(pub));
    var r, s := FromBytes(sig[..split]), FromBytes(sig[split..]);
    if pt.Infinity? || r >= c.p || s >= c.n then
      false
    else
      var e := h.challenge(sig[..split], pub, msg) % c.n;
      var R := c.add(Mult(c, s, c.g), Mult(c, c.n - e, pt));
      R.Affine? && R.y % 2 == 0 && R.x == r
  }

  /** The x coordinate of k*G. */
  function XCoord(c: Group, k: nat): nat
    requires Ordered(c) && 0 < k < c.n
  {
    assert Finite(c, k);
    Mult(c, k, c.g).x
  }

  function PublicKey(c: Group, sec: nat): seq<Byte>
    requires Ordered(c) && 0 < sec < c.n
  {
    ToBytes(XCoord(c, sec), 32)
  }

  function Nonce(c: Group, h: Hashes, msg: seq<Byte>, sec: nat, aux: seq<Byte>): nat
    requires Ordered(c) && 0 < sec < c.n
  {
    h.nonce(Normal(c, sec), aux, XCoord(c, sec), msg) % c.n
  }

  function Challenge(c: Group, h: Hashes, msg: seq<Byte>, sec: nat, k0: nat): nat
    requires Ordered(c) && 0 < sec < c.n && 0 < k0 < c.n
  {
    h.challenge(ToBytes(XCoord(c, k0), 32), PublicKey(c, sec), msg) % c.n
  }

  function Signature(rx: nat, s: nat): seq<Byte>
  {
    ToBytes(rx, 32) + ToBytes(s, 32)
  }

  function Response(n: nat, k: nat, e: nat, d: nat): (s: nat)
    requires n > 0
    ensures s < n
  {
    (k + e * d) % n
  }

  /** The signature made with nonce `k0`, before it is checked. */
  function Candidate(c: Group, h: Hashes, msg: seq<Byte>, sec: nat, k0: nat): seq<Byte>
    requires Ordered(c) && 0 < sec < c.n && 0 < k0 < c.n
  {
    Signature(XCoord(c, k0), Response(c.n, Normal(c, k0), Challenge(c, h, msg, sec, k0), Normal(c, sec)))
  }

  function Sign(c: Group, h: Hashes, msg: seq<Byte>, sec: nat, aux: seq<Byte>): Result<seq<Byte>, SignError>
    requires Ordered(c)
  {
    if !(1 <= sec < c.n) then
      Err(SecretOutOfRange)
    else
      var k0 := Nonce(c, h, msg, sec, aux);
      if k0 == 0 then
        Err(ZeroNonce)
      else
        var sig := Candidate(c, h, msg, sec, k0);
        if Verify(c, h, msg, PublicKey(c, sec), sig) then Ok(sig) else Err(SelfVerifyFailed)
  }

  lemma Rearranged(n: nat, d: nat, k: nat, e: nat, a: nat, b: nat)
    requires e < n && a == e * d && b == (n - e) * d
    ensures k + a + b == k + d * n
  {
    assert (n - e) * d == n * d - e * d;
  }

  /** s*G - e*P recovers k*G. */
  lemma VerificationEquation(c: Group, d: nat, k: nat, e: nat)
    requires Abelian(c) && Ordered(c) && e < c.n
    ensures c.add(Mult(c, Response(c.n, k, e, d), c.g), Mult(c, c.n - e, Mult(c, d, c.g))) == Mult(c, k, c.g)
  {
    MultMod(c, k + e * d);
    MultProduct(c, c.n - e, d, c.g);
    SumWraps(c, d, k, e, e * d, (c.n - e) * d);
  }

  lemma SumWraps(c: Group, d: nat, k: nat, e: nat, a: nat, b: nat)
    requires Abelian(c) && Ordered(c) && e < c.n && a == e * d && b == (c.n - e) * d
    ensures c.add(Mult(c, k + a, c.g), Mult(c, b, c.g)) == Mult(c, k, c.g)
  {
    Rearranged(c.n, d, k, e, a, b);
    MultSum(c, k + a, b, c.g);
    MultWraps(c, k, d);
  }

  /** Verification reads back what signing wrote. */
  lemma SignatureParts(rx: nat, s: nat)
    requires rx < Pow256(32) && s < Pow256(32)
    ensures var sig := Signature(rx, s);
            |sig| == 64 && sig[..32] == ToBytes(rx, 32) && FromBytes(sig[..32]) == rx && FromBytes(sig[32..]) == s
  {
    BytesRoundTrip(rx, 32);
    BytesRoundTrip(s, 32);
    assert Signature(rx, s)[32..] == ToBytes(s, 32);
  }

  lemma VerifyHolds(c: Group, h: Hashes, msg: seq<Byte>, pub: seq<Byte>, sig: seq<Byte>, rx: nat, s: nat, R: Point)
    requires |sig| == 64 && rx == FromBytes(sig[..32]) < c.p && s == FromBytes(sig[32..]) < c.n
    requires R == c.add(Mult(c, s, c.g), Mult(c, c.n - h.challenge(sig[..32], pub, msg) % c.n, c.lift(FromBytes(pub))))
    requires c.lift(FromBytes(pub)).Affine? && Even(R) && R.x == rx
    ensures Verify(c, h, msg, pub, sig)
  {
  }

  lemma PublicKeyLifts(c: Group, sec: nat)
    requires Lawful(c) && 0 < sec < c.n
    ensures c.lift(FromBytes(PublicKey(c, sec))) == Mult(c, Normal(c, sec), c.g)
    ensures Mult(c, Normal(c, sec), c.g).Affine?
  {
    NormalLifts(c, sec);
    BytesRoundTrip(XCoord(c, sec), 32);
  }

  lemma Accepted(c: Group, h: Hashes, msg: seq<Byte>, sec: nat, k0: nat, e: nat, s: nat)
    requires Lawful(c) && 1 <= sec < c.n && 0 < k0 < c.n && s < c.n
    requires e == Challenge(c, h, msg, sec, k0)
    requires c.add(Mult(c, s, c.g), Mult(c, c.n - e, Mult(c, Normal(c, sec), c.g))) == Mult(c, Normal(c, k0), c.g)
    ensures Verify(c, h, msg, PublicKey(c, sec), Signature(XCoord(c, k0), s))
  {
    NormalLifts(c, k0);
    PublicKeyLifts(c, sec);
    var rx := XCoord(c, k0);
    SignatureParts(rx, s);
    VerifyHolds(c, h, msg, PublicKey(c, sec), Signature(rx, s), rx, s, Mult(c, Normal(c, k0), c.g));
  }

  lemma CandidateVerifies(c: Group, h: Hashes, msg: seq<Byte>, sec: nat, k0: nat)
    requires Lawful(c) && 0 < sec < c.n && 0 < k0 < c.n
    ensures Verify(c, h, msg, PublicKey(c, sec), Candidate(c, h, msg, sec, k0))
  {
    var e := Challenge(c, h, msg, sec, k0);
    var s := Response(c.n, Normal(c, k0), e, Normal(c, sec));
    VerificationEquation(c, Normal(c, sec), Normal(c, k0), e);
    Accepted(c, h, msg, sec, k0, e, s);
  }

  /** Whatever the hashes, an in-range secret signs unless the nonce is zero, and the signature verifies. */
  lemma SignatureVerifies(c: Group, h: Hashes, msg: seq<Byte>, sec: nat, aux: seq<Byte>)
    requires Lawful(c)
    ensures var r := Sign(c, h, msg, sec, aux);
            && r != Err(SelfVerifyFailed)
            && (r == Err(SecretOutOfRange) <==> !(1 <= sec < c.n))
            && (1 <= sec < c.n ==>
                  && (r == Err(ZeroNonce) <==> Nonce(c, h, msg, sec, aux) == 0)
                  && (r.Ok? ==> |r.value| == 64 && Verify(c, h, msg, PublicKey(c, sec), r.value)))
  {
    if 1 <= sec < c.n {
      var k0 := Nonce(c, h, msg, sec, aux);
      if k0 != 0 {
        CandidateVerifies(c, h, msg, sec, k0);
      }
    }
  }

  /** a + b = s exactly when s + (the inverse of b) = a. */
  lemma Transposed(c: Group, a: Point, b: Point, inverse: Point, s: Point)
    requires Abelian(c) && c.on(a) && c.on(b) && c.on(inverse) && c.on(s)
    requires c.add(b, inverse) == Infinity
    ensures c.add(a, b) == s <==> c.add(s, inverse) == a
  {
    assert Associates(c, a, b, inverse) && Associates(c, s, inverse, b);
    assert Commutes(c, b, inverse) && Neutral(c, a) && Neutral(c, s);
  }

  /** A signature (r, s) is accepted exactly when s*G = R + e*P for the even point R with x coordinate r. */
  lemma VerifyExactly(c: Group, h: Hashes, msg: seq<Byte>, pub: seq<Byte>, sig: seq<Byte>)
    requires Lawful(c) && |sig| == 64
    ensures var pt, R := c.lift(FromBytes(pub)), c.lift(FromBytes(sig[..32]));
            var s, e := FromBytes(sig[32..]), h.challenge(sig[..32], pub, msg) % c.n;
            Verify(c, h, msg, pub, sig) <==>
            && pt.Affine? && R.Affine? && FromBytes(sig[..32]) < c.p && s < c.n
            && c.add(R, Mult(c, e, pt)) == Mult(c, s, c.g)
  {
    var pt, r, s := c.lift(FromBytes(pub)), FromBytes(sig[..32]), FromBytes(sig[32..]);
    var e := h.challenge(sig[..32], pub, msg) % c.n;
    assert LiftsEven(c, FromBytes(pub)) && LiftsEven(c, r);
    if pt.Affine? {
      MultOn(c, e, pt);
      MultOn(c, c.n - e, pt);
      MultOn(c, s, c.g);
      MultSum(c, e, c.n - e, pt);
      var sG, eP, inverse := Mult(c, s, c.g), Mult(c, e, pt), Mult(c, c.n - e, pt);
      var R := c.add(sG, inverse);
      assert Vanishes(c, pt) && Closed(c, sG, inverse) && Mirror(c, R);
      Transposed(c, R, eP, inverse, sG);
      if c.lift(r).Affine? {
        Transposed(c, c.lift(r), eP, inverse, sG);
      }
    }
  }

  // ----- the premises can be met -----

  const LOW := Affine(0, 1)
  const HIGH := Affine(0, 2)

  /** The group of order three: infinity and one pair of mirrored points. */
  function AddThree(a: Point, b: Point): Point
  {
    if a.Infinity? then b else if b.Infinity? then a
    else if a != b then Infinity
    else if a == LOW then HIGH else LOW
  }

  predicate OnThree(q: Point)
  {
    q.Infinity? || q == LOW || q == HIGH
  }

  function LiftThree(x: nat): Point
  {
    if x == 0 then HIGH else Infinity
  }

  ghost predicate IsThree(c: Group)
  {
    c.p == 3 && c.n == 3 && c.g == HIGH && c.add == AddThree && c.on == OnThree && c.lift == LiftThree
  }

  lemma MultThree(c: Group, q: Point)
    requires IsThree(c) && c.on(q)
    ensures Mult(c, 1, q) == q && Mult(c, 2, q) == c.add(q, q) && Mult(c, 3, q) == Infinity
  {
    assert Mult(c, 1, q) == AddThree(Infinity, q);
    assert Mult(c, 2, q) == AddThree(Mult(c, 1, q), q);
  }

  lemma ThreeAssociates(c: Group, a: Point, b: Point, d: Point)
    requires IsThree(c)
    ensures Associates(c, a, b, d)
  {
  }

  lemma ThreeIsAbelian(c: Group)
    requires IsThree(c)
    ensures Abelian(c)
  {
    forall a, b, d ensures Associates(c, a, b, d) {
      ThreeAssociates(c, a, b, d);
    }
  }

  lemma ThreeIsMirrored(c: Group)
    requires IsThree(c)
    ensures Mirrored(c)
  {
  }

  lemma ThreeIsOrdered(c: Group)
    requires IsThree(c)
    ensures Ordered(c)
  {
    forall q ensures Vanishes(c, q) {
      if c.on(q) { MultThree(c, q); }
    }
    forall k: nat ensures Finite(c, k) {
      MultThree(c, c.g);
    }
  }

  lemma Pow256AtLeast(n: nat)
    requires n >= 1
    ensures Pow256(n) >= 256
  {
  }

  /** There is a lawful group, so what is proved of all of them is not empty. */
  lemma LawsCanHold() returns (c: Group)
    ensures Lawful(c)
  {
    c := Group(3, 3, HIGH, AddThree, OnThree, LiftThree);
    ThreeIsAbelian(c);
    ThreeIsMirrored(c);
    ThreeIsOrdered(c);
    Pow256AtLeast(32);
  }
}
