/**
 * The 4x4 transformation matrices of the animation core, kept abstract.
 *
 * Every matrix the core builds is a product of translations, axis rotations
 * and inverses of such products. The model therefore represents a matrix as
 * an element of the free group generated by those elementary transforms: a
 * reduced word of factors, each an elementary transform or its inverse, in
 * which no factor stands next to its own inverse. Multiplication appends the
 * factors of the right operand one at a time and cancels adjacent inverse
 * pairs. The group laws (associativity, identity, inverse) are proved below
 * rather than assumed, so every equation proved between matrices in this
 * model holds for the real matrices too, since translations and rotations
 * are invertible.
 */
module Matrices {

  /** A 3-component vector of the scene (offsets, vertex positions). */
  datatype Vec3 = Vec3(x: real, y: real, z: real)

  /** The coordinate axes a rotation can turn about. */
  datatype Axis = X | Y | Z

  /** The elementary transforms: a translation by an offset, or a rotation
      about an axis by an angle given in degrees (the conversion to radians
      is part of what the rotation means). */
  datatype Elementary = Translation(offset: Vec3) | Rotation(axis: Axis, degrees: real)

  /** One factor of a word: an elementary transform or its inverse. */
  datatype Factor = Factor(base: Elementary, inverted: bool)

  /** The inverse of a single factor. */
  function Flip(f: Factor): (g: Factor)
    ensures g.base == f.base && g.inverted == !f.inverted
  {
    Factor(f.base, !f.inverted)
  }

  /** No factor is directly followed by its own inverse. */
  predicate Reduced(w: seq<Factor>)
  {
    forall i {:trigger Flip(w[i])} :: 0 <= i < |w| - 1 ==> w[i + 1] != Flip(w[i])
  }

  /** A matrix: a reduced word of factors. */
  type Mat = w: seq<Factor> | Reduced(w) witness []

  /** The identity matrix (GLM's default-constructed `mat4()`). */
  const Identity: Mat := []

  /** The translation matrix `translate(mat4(), v)`. */
  function Translate(v: Vec3): Mat
  {
    [Factor(Translation(v), false)]
  }

  /** The rotation matrix `rotate(mat4(), radians(degrees), axis)`. */
  function Rotate(axis: Axis, degrees: real): Mat
  {
    [Factor(Rotation(axis, degrees), false)]
  }

  /** Multiplies `w` on the right by one factor, cancelling it against the
      last factor of `w` when that is its inverse. */
  function Push(w: Mat, f: Factor): (r: Mat)
    ensures |w| > 0 && w[|w| - 1] == Flip(f) ==> r == w[..|w| - 1]
    ensures !(|w| > 0 && w[|w| - 1] == Flip(f)) ==> r == w + [f]
  {
    if |w| > 0 && w[|w| - 1] == Flip(f) then w[..|w| - 1] else w + [f]
  }

  /** Multiplies `w` on the right by the factors of `fs`, left to right. */
  function Apply(w: Mat, fs: seq<Factor>): Mat
    decreases |fs|
  {
    if fs == [] then w else Push(Apply(w, fs[..|fs| - 1]), fs[|fs| - 1])
  }

  /** Matrix product `a * b`. */
  function Mul(a: Mat, b: Mat): Mat
  {
    Apply(a, b)
  }

  /** Matrix inverse: the factors of `a` in reverse order, each inverted. */
  function Inv(a: Mat): (r: Mat)
    ensures |r| == |a|
    ensures forall i :: 0 <= i < |a| ==> r[i] == Flip(a[|a| - 1 - i])
  {
    var r := seq(|a|, i requires 0 <= i < |a| => Flip(a[|a| - 1 - i]));
    assert Reduced(r) by {
      forall i | 0 <= i < |r| - 1
        ensures r[i + 1] != Flip(r[i])
      {
        assert a[|a| - 1 - i] != Flip(a[|a| - 2 - i]);
      }
    }
    r
  }

  // ---------------------------------------------------------------------
  // The group laws

  /** Multiplying by a concatenation is multiplying by each part in turn. */
  lemma {:induction false} ApplyConcat(w: Mat, a: seq<Factor>, b: seq<Factor>)
    ensures Apply(w, a + b) == Apply(Apply(w, a), b)
    decreases |b|
  {
    if b == [] {
      assert a + b == a;
    } else {
      var n := |b| - 1;
      assert (a + b)[..|a + b| - 1] == a + b[..n];
      assert (a + b)[|a + b| - 1] == b[n];
      ApplyConcat(w, a, b[..n]);
    }
  }

  /** A factor followed by its inverse cancels on a reduced word. */
  lemma PushCancel(t: Mat, x: Factor)
    ensures Push(Push(t, Flip(x)), x) == t
  {
    if |t| > 0 && t[|t| - 1] == x {
      var u := t[..|t| - 1];
      assert |u| > 0 ==> u[|u| - 1] != Flip(x) by {
        if |u| > 0 {
          assert t[|t| - 1] != Flip(t[|t| - 2]);
        }
      }
      assert u + [x] == t;
    }
  }

  /** Reducing the right operand first does not change the product. */
  lemma ApplyPush(s: Mat, r: Mat, x: Factor)
    ensures Apply(s, Push(r, x)) == Push(Apply(s, r), x)
  {
    if |r| > 0 && r[|r| - 1] == Flip(x) {
      var u := r[..|r| - 1];
      assert r == u + [Flip(x)];
      assert Apply(s, r) == Push(Apply(s, u), Flip(x));
      PushCancel(Apply(s, u), x);
    } else {
      assert (r + [x])[..|r|] == r;
    }
  }

  /** Multiplying by a product is multiplying by its factors in turn. */
  lemma {:induction false} ApplyProduct(a: Mat, b: Mat, c: seq<Factor>)
    ensures Apply(a, Apply(b, c)) == Apply(a, b + c)
    decreases |c|
  {
    if c == [] {
      assert b + c == b;
    } else {
      var n := |c| - 1;
      ApplyProduct(a, b, c[..n]);
      ApplyPush(a, Apply(b, c[..n]), c[n]);
      assert (b + c)[..|b + c| - 1] == b + c[..n];
      assert (b + c)[|b + c| - 1] == c[n];
    }
  }

  /** Matrix multiplication is associative. */
  lemma MulAssociative(a: Mat, b: Mat, c: Mat)
    ensures Mul(Mul(a, b), c) == Mul(a, Mul(b, c))
  {
    ApplyConcat(a, b, c);
    ApplyProduct(a, b, c);
  }

  /** Every prefix of a reduced word is reduced. */
  lemma ReducedPrefix(s: seq<Factor>, k: nat)
    requires Reduced(s) && k <= |s|
    ensures Reduced(s[..k])
  {
    forall i | 0 <= i < k - 1
      ensures s[..k][i + 1] != Flip(s[..k][i])
    {
      assert s[i + 1] != Flip(s[i]);
    }
  }

  /** Multiplying by factors that cancel nothing just appends them. */
  lemma {:induction false} ApplyReduced(w: Mat, fs: seq<Factor>)
    requires Reduced(w + fs)
    ensures Apply(w, fs) == w + fs
    decreases |fs|
  {
    if fs != [] {
      var n := |fs| - 1;
      var s := w + fs;
      var f := fs[n];
      var k := |s| - 1;
      ReducedPrefix(s, k);
      var v: Mat := s[..k];
      assert w + fs[..n] == v;
      ApplyReduced(w, fs[..n]);
      assert Apply(w, fs) == Push(v, f);
      assert s[k] == f;
      if k > 0 {
        assert s[k] != Flip(s[k - 1]);
        assert v[k - 1] == s[k - 1];
        assert Flip(Flip(f)) == f;
      }
      assert v + [f] == s;
    }
  }

  /** The identity is a left unit. */
  lemma MulIdentityLeft(a: Mat)
    ensures Mul(Identity, a) == a
  {
    assert Identity + a == a;
    ApplyReduced(Identity, a);
  }

  /** The identity is a right unit. */
  lemma MulIdentityRight(a: Mat)
    ensures Mul(a, Identity) == a
  {
  }

  /** A matrix times its inverse is the identity. */
  lemma {:induction false} MulInverseRight(a: Mat)
    ensures Mul(a, Inv(a)) == Identity
    decreases |a|
  {
    if a != [] {
      var n := |a| - 1;
      var u: Mat := a[..n];
      var x := a[n];
      assert Inv(a) == [Flip(x)] + Inv(u);
      ApplyConcat(a, [Flip(x)], Inv(u));
      assert Apply(a, [Flip(x)]) == Push(a, Flip(x)) by {
        assert [Flip(x)][..0] == [];
      }
      assert Push(a, Flip(x)) == u;
      MulInverseRight(u);
    }
  }

  /** Inverting twice gives the matrix back. */
  lemma InvInvolutive(a: Mat)
    ensures Inv(Inv(a)) == a
  {
  }

  /** The inverse times the matrix is the identity. */
  lemma MulInverseLeft(a: Mat)
    ensures Mul(Inv(a), a) == Identity
  {
    InvInvolutive(a);
    MulInverseRight(Inv(a));
  }

  /** The inverse of a product is the product of the inverses, reversed. */
  lemma InvMul(a: Mat, b: Mat)
    ensures Inv(Mul(a, b)) == Mul(Inv(b), Inv(a))
  {
    var p := Mul(a, b);
    var q := Mul(Inv(b), Inv(a));
    // p * q == identity, so q is the (unique) right inverse of p.
    calc {
      Mul(p, q);
      { MulAssociative(p, Inv(b), Inv(a)); }
      Mul(Mul(p, Inv(b)), Inv(a));
      { MulAssociative(a, b, Inv(b)); MulInverseRight(b); }
      Mul(a, Inv(a));
      { MulInverseRight(a); }
      Identity;
    }
    calc {
      Inv(p);
      { MulIdentityRight(Inv(p)); }
      Mul(Inv(p), Identity);
      Mul(Inv(p), Mul(p, q));
      { MulAssociative(Inv(p), p, q); }
      Mul(Mul(Inv(p), p), q);
      { MulInverseLeft(p); MulIdentityLeft(q); }
      q;
    }
  }
}
