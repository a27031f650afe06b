/**
 The elliptic-curve group behind the base OT: an arbitrary abelian group with a 33-byte point codec, and
 the scalar arithmetic that follows from its laws.
 */
module Curves {

  type PointBytes = b: seq<bv8> | |b| == 33 witness seq(33, i => 0)

  /** `add`, `invert`, `point_to_bytes` and `point_from_bytes`, with the generator of public keys. */
  datatype Curve<!P> = Curve(
    zero: P,
    generator: P,
    add: (P, P) -> P,
    invert: P -> P,
    toBytes: P -> PointBytes,
    fromBytes: PointBytes -> P)

  /** The laws of an abelian group, and a codec that gives every point back. */
  ghost predicate Laws<P(!new)>(c: Curve<P>) {
    && (forall a, b :: c.add(a, b) == c.add(b, a))
    && (forall a, b, d {:trigger c.add(c.add(a, b), d)} :: c.add(c.add(a, b), d) == c.add(a, c.add(b, d)))
    && (forall a :: c.add(a, c.zero) == a)
    && (forall a :: c.add(a, c.invert(a)) == c.zero)
    && (forall a :: c.fromBytes(c.toBytes(a)) == a)
  }

  /** `encrypt(a, k)`: the `k`-fold sum of `a`. */
  function Mul<P>(c: Curve<P>, k: nat, a: P): P {
    if k == 0 then c.zero else c.add(a, Mul(c, k - 1, a))
  }

  /** `create_public_key(k)` */
  function PublicKey<P>(c: Curve<P>, k: nat): P {
    Mul(c, k, c.generator)
  }

  lemma MulOne<P(!new)>(c: Curve<P>, a: P)
    requires Laws(c)
    ensures Mul(c, 1, a) == a
  {
  }

  lemma {:induction false} MulPlus<P(!new)>(c: Curve<P>, j: nat, k: nat, a: P)
    requires Laws(c)
    ensures Mul(c, j + k, a) == c.add(Mul(c, j, a), Mul(c, k, a))
  {
    var rest := Mul(c, k, a);
    if j == 0 {
      AddZero(c, rest);
    } else {
      MulPlus(c, j - 1, k, a);
      AddAssociates(c, a, Mul(c, j - 1, a), rest);
    }
  }

  lemma AddZero<P(!new)>(c: Curve<P>, a: P)
    requires Laws(c)
    ensures c.add(c.zero, a) == a
  {
    assert c.add(c.zero, a) == c.add(a, c.zero);
  }

  lemma AddAssociates<P(!new)>(c: Curve<P>, a: P, x: P, y: P)
    requires Laws(c)
    ensures c.add(a, c.add(x, y)) == c.add(c.add(a, x), y)
  {
  }

  /** Public keys start from the generator and add up with their secrets. */
  lemma PublicKeysAdd<P(!new)>(c: Curve<P>, j: nat, k: nat)
    requires Laws(c)
    ensures PublicKey(c, 1) == c.generator
    ensures PublicKey(c, j + k) == c.add(PublicKey(c, j), PublicKey(c, k))
  {
    MulOne(c, c.generator);
    MulPlus(c, j, k, c.generator);
  }

  lemma AddSwap<P(!new)>(c: Curve<P>, a: P, b: P, x: P, y: P)
    requires Laws(c)
    ensures c.add(c.add(a, b), c.add(x, y)) == c.add(c.add(a, x), c.add(b, y))
  {
  }

  lemma {:induction false} MulAdd<P(!new)>(c: Curve<P>, k: nat, a: P, b: P)
    requires Laws(c)
    ensures Mul(c, k, c.add(a, b)) == c.add(Mul(c, k, a), Mul(c, k, b))
  {
    if k > 0 {
      MulAdd(c, k - 1, a, b);
      AddSwap(c, a, b, Mul(c, k - 1, a), Mul(c, k - 1, b));
    }
  }

  lemma {:induction false} MulZero<P(!new)>(c: Curve<P>, k: nat)
    requires Laws(c)
    ensures Mul(c, k, c.zero) == c.zero
  {
    if k > 0 {
      MulZero(c, k - 1);
    }
  }

  /** Scalars commute: `j * (k * a)` is `k * (j * a)`. */
  lemma {:induction false} MulCommutes<P(!new)>(c: Curve<P>, j: nat, k: nat, a: P)
    requires Laws(c)
    ensures Mul(c, j, Mul(c, k, a)) == Mul(c, k, Mul(c, j, a))
  {
    if j == 0 {
      MulZero(c, k);
    } else {
      MulCommutes(c, j - 1, k, a);
      MulAdd(c, k, a, Mul(c, j - 1, a));
    }
  }

  lemma InverseUnique<P(!new)>(c: Curve<P>, a: P, b: P)
    requires Laws(c) && c.add(a, b) == c.zero
    ensures b == c.invert(a)
  {
    calc {
      b;
      c.add(b, c.zero);
      c.add(b, c.add(a, c.invert(a)));
      c.add(c.add(b, a), c.invert(a));
      { assert c.add(b, a) == c.add(a, b); }
      c.add(c.zero, c.invert(a));
      c.add(c.invert(a), c.zero);
      c.invert(a);
    }
  }

  lemma MulInvert<P(!new)>(c: Curve<P>, k: nat, a: P)
    requires Laws(c)
    ensures Mul(c, k, c.invert(a)) == c.invert(Mul(c, k, a))
  {
    MulAdd(c, k, a, c.invert(a));
    MulZero(c, k);
    InverseUnique(c, Mul(c, k, a), Mul(c, k, c.invert(a)));
  }

  lemma Cancels<P(!new)>(c: Curve<P>, a: P, b: P)
    requires Laws(c)
    ensures c.add(c.add(c.invert(b), a), c.add(b, c.invert(a))) == c.zero
  {
  }

  /** `a - (a - b)` is `b`. */
  lemma SubtractBack<P(!new)>(c: Curve<P>, a: P, b: P)
    requires Laws(c)
    ensures c.add(a, c.invert(c.add(c.invert(b), a))) == b
  {
    Cancels(c, a, b);
    InverseUnique(c, c.add(c.invert(b), a), c.add(b, c.invert(a)));
    calc {
      c.add(a, c.add(b, c.invert(a)));
      { assert c.add(b, c.invert(a)) == c.add(c.invert(a), b); }
      c.add(a, c.add(c.invert(a), b));
      c.add(c.add(a, c.invert(a)), b);
      c.add(c.zero, b);
      c.add(b, c.zero);
      b;
    }
  }

  // ---------- the laws can be met ----------

  newtype Residue = x: int | 0 <= x < 31

  function AddMod(a: Residue, b: Residue): Residue {
    var s := a as int + b as int;
    (if s < 31 then s else s - 31) as Residue
  }

  function InvertMod(a: Residue): Residue {
    (if a == 0 then 0 else 31 - a as int) as Residue
  }

  /** A residue is written by setting the byte it indexes. */
  function ResidueBytes(a: Residue): PointBytes {
    seq(33, i requires 0 <= i < 33 => if i == a as int then 1 else 0)
  }

  function FirstSet(b: PointBytes, i: nat): (x: nat)
    requires i < 31
    ensures i <= x < 31
    decreases 31 - i
  {
    if i == 30 || b[i] == 1 then i else FirstSet(b, i + 1)
  }

  function BytesResidue(b: PointBytes): Residue {
    FirstSet(b, 0) as Residue
  }

  /** The integers modulo 31. */
  function Residues(): Curve<Residue> {
    Curve(0, 1, AddMod, InvertMod, ResidueBytes, BytesResidue)
  }

  lemma {:induction false} FirstSetFinds(a: Residue, i: nat)
    requires i <= a as int
    ensures FirstSet(ResidueBytes(a), i) == a as int
    decreases 31 - i
  {
    if i < a as int {
      FirstSetFinds(a, i + 1);
    }
  }

  /** The laws are satisfiable. */
  lemma ResiduesLawful()
    ensures Laws(Residues())
  {
    var c := Residues();
    forall a ensures c.fromBytes(c.toBytes(a)) == a {
      FirstSetFinds(a, 0);
    }
  }
}
