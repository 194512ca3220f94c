/**
 Square matrices of real numbers: products of rows, quadratic forms and positive
 definiteness.
 */
module Matrices {
  import opened Arithmetic

  type Matrix = seq<seq<real>>

  predicate Square(a: Matrix) {
    forall i :: 0 <= i < |a| ==> |a[i]| == |a|
  }

  /** Sum of the first k products of two rows. */
  function Dot(x: seq<real>, y: seq<real>, k: nat): real
    requires k <= |x| && k <= |y|
  {
    if k == 0 then 0.0 else Dot(x, y, k - 1) + x[k - 1] * y[k - 1]
  }

  ghost predicate LowerTriangular(m: Matrix)
    requires Square(m)
  {
    forall i, j :: 0 <= i < j < |m| ==> m[i][j] == 0.0
  }

  ghost predicate PositiveDiagonal(m: Matrix)
    requires Square(m)
  {
    forall i :: 0 <= i < |m| ==> m[i][i] > 0.0
  }

  /** m times its transpose is a. */
  ghost predicate SquaresTo(m: Matrix, a: Matrix)
    requires Square(m) && Square(a)
  {
    |m| == |a| && forall i, j :: 0 <= i < |a| && 0 <= j < |a| ==> Dot(m[i], m[j], |a|) == a[i][j]
  }

  ghost predicate Symmetric(a: Matrix)
    requires Square(a)
  {
    forall i, j :: 0 <= i < |a| && 0 <= j < |a| ==> a[i][j] == a[j][i]
  }

  // ----- Dot products -----

  lemma {:induction false} DotPrefix(x: seq<real>, y: seq<real>, x': seq<real>, y': seq<real>, k: nat)
    requires k <= |x| && k <= |y| && k <= |x'| && k <= |y'|
    requires x[..k] == x'[..k] && y[..k] == y'[..k]
    ensures Dot(x, y, k) == Dot(x', y', k)
  {
    if k == 0 {
    } else {
      assert x[..k][..k - 1] == x'[..k][..k - 1] && y[..k][..k - 1] == y'[..k][..k - 1];
      assert x[..k - 1] == x[..k][..k - 1] && x'[..k - 1] == x'[..k][..k - 1];
      assert y[..k - 1] == y[..k][..k - 1] && y'[..k - 1] == y'[..k][..k - 1];
      DotPrefix(x, y, x', y', k - 1);
      assert x[k - 1] == x[..k][k - 1] && x'[k - 1] == x'[..k][k - 1];
      assert y[k - 1] == y[..k][k - 1] && y'[k - 1] == y'[..k][k - 1];
    }
  }

  lemma {:induction false} DotCommutes(x: seq<real>, y: seq<real>, k: nat)
    requires k <= |x| && k <= |y|
    ensures Dot(x, y, k) == Dot(y, x, k)
  {
    if k == 0 {
    } else {
      DotCommutes(x, y, k - 1);
    }
  }

  lemma DotLast(x: seq<real>, y: seq<real>, k: nat, u: real, v: real)
    requires k < |x| && k < |y| && u == x[k] && v == y[k]
    ensures Dot(x, y, k + 1) == Dot(x, y, k) + u * v
  {
  }

  /** Terms beyond the last non-zero entry of y add nothing. */
  lemma {:induction false} DotTruncates(x: seq<real>, y: seq<real>, m: nat, k: nat)
    requires m <= k <= |x| && k <= |y|
    requires forall t :: m <= t < k ==> y[t] == 0.0
    ensures Dot(x, y, k) == Dot(x, y, m)
  {
    if m < k {
      DotTruncates(x, y, m, k - 1);
      assert x[k - 1] * y[k - 1] == 0.0;
    }
  }

  /** m times its transpose, the matrix that m factorises. */
  function TimesTranspose(m: Matrix): (a: Matrix)
    requires Square(m)
    ensures Square(a) && |a| == |m|
    ensures forall r, c :: 0 <= r < |m| && 0 <= c < |m| ==> a[r][c] == Dot(m[r], m[c], |m|)
  {
    seq(|m|, r requires 0 <= r < |m| => seq(|m|, c requires 0 <= c < |m| => Dot(m[r], m[c], |m|)))
  }

  // ----- Quadratic forms -----

  /** The first k rows of the quadratic form of a at x. */
  function Form(a: Matrix, x: seq<real>, k: nat): real
    requires Square(a) && |x| == |a| && k <= |a|
  {
    if k == 0 then 0.0 else Form(a, x, k - 1) + Product(x[k - 1], Dot(a[k - 1], x, |a|))
  }

  ghost predicate NonZero(x: seq<real>) {
    exists i :: 0 <= i < |x| && x[i] != 0.0
  }

  ghost predicate PositiveDefinite(a: Matrix)
    requires Square(a)
  {
    forall x: seq<real> :: |x| == |a| && NonZero(x) ==> Form(a, x, |a|) > 0.0
  }

  function Zeros(n: nat): (z: seq<real>)
    ensures |z| == n && forall t :: 0 <= t < n ==> z[t] == 0.0
  {
    seq(n, _ => 0.0)
  }

  /** u plus c times v. */
  function Plus(u: seq<real>, c: real, v: seq<real>): (w: seq<real>)
    requires |u| == |v|
    ensures |w| == |u| && forall t :: 0 <= t < |u| ==> w[t] == u[t] + Product(c, v[t])
  {
    seq(|u|, t requires 0 <= t < |u| => u[t] + Product(c, v[t]))
  }

  /** The first k rows of g, weighted by x. */
  function Combined(g: Matrix, x: seq<real>, k: nat): (w: seq<real>)
    requires Square(g) && |x| == |g| && k <= |g|
    ensures |w| == |g|
  {
    if k == 0 then Zeros(|g|) else Plus(Combined(g, x, k - 1), x[k - 1], g[k - 1])
  }

  /** The first k products of y with the rows of g, weighted by x. */
  function Weighted(y: seq<real>, g: Matrix, x: seq<real>, k: nat): real
    requires Square(g) && |x| == |g| && |y| == |g| && k <= |g|
  {
    if k == 0 then 0.0 else Weighted(y, g, x, k - 1) + Product(x[k - 1], Dot(y, g[k - 1], |g|))
  }

  lemma {:induction false} DotZeros(y: seq<real>, z: seq<real>, k: nat)
    requires k <= |y| && k <= |z| && forall t :: 0 <= t < k ==> z[t] == 0.0
    ensures Dot(y, z, k) == 0.0
  {
    if k == 0 {
    } else {
      DotZeros(y, z, k - 1);
    }
  }

  lemma PlusAlgebra(y: real, u: real, c: real, v: real)
    ensures y * (u + Product(c, v)) == y * u + Product(c, y * v)
  {
  }

  lemma {:induction false} DotPlus(y: seq<real>, u: seq<real>, c: real, v: seq<real>, k: nat)
    requires |y| == |u| == |v| && k <= |u|
    ensures Dot(y, Plus(u, c, v), k) == Dot(y, u, k) + Product(c, Dot(y, v, k))
  {
    if k == 0 {
    } else {
      DotPlus(y, u, c, v, k - 1);
      PlusAlgebra(y[k - 1], u[k - 1], c, v[k - 1]);
      ProductDistributes(Dot(y, v, k - 1), y[k - 1] * v[k - 1], c);
      hide Product;
    }
  }

  lemma {:induction false} DotCombined(y: seq<real>, g: Matrix, x: seq<real>, k: nat)
    requires Square(g) && |x| == |g| && |y| == |g| && k <= |g|
    ensures Dot(y, Combined(g, x, k), |g|) == Weighted(y, g, x, k)
  {
    hide Dot, Product, Plus;
    if k == 0 {
      DotZeros(y, Zeros(|g|), |g|);
    } else {
      DotCombined(y, g, x, k - 1);
      DotPlus(y, Combined(g, x, k - 1), x[k - 1], g[k - 1], |g|);
    }
  }

  /** a holds the products of the rows of g. */
  ghost predicate IsGram(a: Matrix, g: Matrix)
    requires Square(a) && Square(g)
  {
    |a| == |g| && forall r, c :: 0 <= r < |g| && 0 <= c < |g| ==> a[r][c] == Dot(g[r], g[c], |g|)
  }

  lemma GramEntry(b: Matrix, h: Matrix, r: nat, c: nat)
    requires Square(b) && Square(h) && IsGram(b, h) && r < |h| && c < |h|
    ensures |b| == |h| && b[r][c] == Dot(h[r], h[c], |h|)
  {
  }

  lemma GramSize(a: Matrix, g: Matrix)
    requires Square(a) && Square(g) && IsGram(a, g)
    ensures |a| == |g|
  {
  }

  lemma TransposeIsGram(h: Matrix)
    requires Square(h)
    ensures IsGram(TimesTranspose(h), h) && Symmetric(TimesTranspose(h))
  {
    hide Dot;
    forall r, c | 0 <= r < |h| && 0 <= c < |h|
      ensures Dot(h[r], h[c], |h|) == Dot(h[c], h[r], |h|)
    {
      DotCommutes(h[r], h[c], |h|);
    }
  }

  lemma {:induction false} GramRow(a: Matrix, g: Matrix, x: seq<real>, r: nat, k: nat)
    requires Square(a) && Square(g) && IsGram(a, g) && |x| == |g| && r < |g| && k <= |g|
    ensures Dot(a[r], x, k) == Weighted(g[r], g, x, k)
  {
    if k == 0 {
    } else {
      GramRow(a, g, x, r, k - 1);
      DotLast(a[r], x, k - 1, a[r][k - 1], x[k - 1]);
      assert a[r][k - 1] == Dot(g[r], g[k - 1], |g|);
    }
  }

  lemma {:induction false} GramForm(a: Matrix, g: Matrix, x: seq<real>, k: nat)
    requires Square(a) && Square(g) && IsGram(a, g) && |x| == |g| && k <= |g|
    ensures Form(a, x, k) == Weighted(Combined(g, x, |g|), g, x, k)
  {
    GramSize(a, g);
    hide Dot, Product, IsGram, Combined;
    if k == 0 {
    } else {
      GramForm(a, g, x, k - 1);
      GramRow(a, g, x, k - 1, |g|);
      DotCombined(g[k - 1], g, x, |g|);
      DotCommutes(g[k - 1], Combined(g, x, |g|), |g|);
    }
  }

  /** The form of m times its transpose is the square of the combined rows of m. */
  lemma FormIsSquare(a: Matrix, g: Matrix, x: seq<real>)
    requires Square(a) && Square(g) && IsGram(a, g) && |x| == |g|
    ensures var w := Combined(g, x, |g|); Form(a, x, |a|) == Dot(w, w, |g|)
  {
    hide Dot, IsGram, Combined, Form, Weighted;
    GramForm(a, g, x, |g|);
    DotCombined(Combined(g, x, |g|), g, x, |g|);
    assert |a| == |g| by {
      GramSize(a, g);
    }
  }

  lemma SquareSign(x: real)
    ensures x * x >= 0.0 && (x != 0.0 ==> x * x > 0.0)
  {
    if x > 0.0 {
      ProductPositive(x, x);
    } else if x < 0.0 {
      ProductPositive(-x, -x);
    }
  }

  lemma {:induction false} DotSelf(w: seq<real>, k: nat)
    requires k <= |w|
    ensures Dot(w, w, k) >= 0.0
    ensures (exists t :: 0 <= t < k && w[t] != 0.0) ==> Dot(w, w, k) > 0.0
  {
    if k == 0 {
    } else {
      DotSelf(w, k - 1);
      SquareSign(w[k - 1]);
      DotLast(w, w, k - 1, w[k - 1], w[k - 1]);
      hide Dot;
    }
  }

  /** In the last column with a weight, only one row of a lower triangular matrix counts. */
  lemma {:induction false} CombinedAt(g: Matrix, x: seq<real>, t: nat, k: nat)
    requires Square(g) && LowerTriangular(g) && |x| == |g| && t < |g| && k <= |g|
    requires forall r :: t < r < |g| ==> x[r] == 0.0
    ensures Combined(g, x, k)[t] == if k > t then Product(x[t], g[t][t]) else 0.0
  {
    if k == 0 {
    } else {
      CombinedAt(g, x, t, k - 1);
      assert k - 1 < t ==> g[k - 1][t] == 0.0;
      ProductOfZero(x[k - 1]);
      ProductOfZero(g[k - 1][t]);
      hide Product;
    }
  }

  lemma {:induction false} LastNonZero(x: seq<real>) returns (t: nat)
    requires NonZero(x)
    ensures t < |x| && x[t] != 0.0 && forall r :: t < r < |x| ==> x[r] == 0.0
  {
    if x[|x| - 1] != 0.0 {
      t := |x| - 1;
    } else {
      var i :| 0 <= i < |x| && x[i] != 0.0;
      assert x[..|x| - 1][i] != 0.0;
      t := LastNonZero(x[..|x| - 1]);
    }
  }

  // ----- Back substitution -----

  lemma {:induction false} CombinedPrefix(g: Matrix, x: seq<real>, x': seq<real>, k: nat)
    requires Square(g) && |x| == |g| == |x'| && k <= |g|
    requires forall r :: 0 <= r < k ==> x[r] == x'[r]
    ensures Combined(g, x, k) == Combined(g, x', k)
  {
    if k == 0 {
    } else {
      CombinedPrefix(g, x, x', k - 1);
      hide Plus;
    }
  }

  ghost predicate Cancels(w: seq<real>, v: seq<real>)
    requires |w| == |v|
  {
    forall t :: 0 <= t < |w| ==> w[t] + v[t] == 0.0
  }

  lemma QuotientCancels(w: real, d: real) returns (c: real)
    requires d > 0.0
    ensures w + Product(c, d) == 0.0
  {
    c := -w / d;
    QuotientTimes(-w, d);
  }

  ghost predicate EndsBefore(w: seq<real>, k: int) {
    forall t :: k <= t < |w| && 0 <= t ==> w[t] == 0.0
  }

  /** Back substitution: a vector that ends before row k is cancelled by the rows before it. */
  lemma {:induction false} Cancel(g: Matrix, w: seq<real>, k: nat) returns (x: seq<real>)
    requires Square(g) && LowerTriangular(g) && |w| == |g| && k <= |g|
    requires forall r :: 0 <= r < k ==> g[r][r] > 0.0
    requires EndsBefore(w, k)
    ensures |x| == |g| && (forall r :: k <= r < |g| ==> x[r] == 0.0)
    ensures Cancels(w, Combined(g, x, k))
    decreases k
  {
    if k == 0 {
      x := Zeros(|g|);
    } else {
      var c := QuotientCancels(w[k - 1], g[k - 1][k - 1]);
      var w' := Plus(w, c, g[k - 1]);
      ShorterAfter(g, w, c, k);
      hide Product, Plus;
      var x' := Cancel(g, w', k - 1);
      x := x'[k - 1 := c];
      CombinedPrefix(g, x, x', k - 1);
      CancelsAfter(w, c, g[k - 1], Combined(g, x, k - 1));
    }
  }

  /** Adding the right multiple of row k - 1 ends a vector one place earlier. */
  lemma ShorterAfter(g: Matrix, w: seq<real>, c: real, k: nat)
    requires Square(g) && LowerTriangular(g) && |w| == |g| && 0 < k <= |g|
    requires w[k - 1] + Product(c, g[k - 1][k - 1]) == 0.0
    requires EndsBefore(w, k)
    ensures EndsBefore(Plus(w, c, g[k - 1]), k - 1)
  {
    ProductOfZero(c);
    hide Product;
    var row := g[k - 1];
    assert forall t :: k <= t < |g| ==> row[t] == 0.0;
  }

  lemma CancelsAfter(w: seq<real>, c: real, row: seq<real>, v: seq<real>)
    requires |w| == |row| == |v| && Cancels(Plus(w, c, row), v)
    ensures Cancels(w, Plus(v, c, row))
  {
    hide Product;
    var u := Plus(w, c, row);
    forall t | 0 <= t < |w|
      ensures w[t] + Plus(v, c, row)[t] == 0.0
    {
      assert u[t] + v[t] == 0.0;
    }
  }

  /** Rows without weight add nothing. */
  lemma {:induction false} CombinedRest(g: Matrix, x: seq<real>, j: nat, k: nat)
    requires Square(g) && |x| == |g| && j <= k <= |g|
    requires forall r :: j <= r < |g| ==> x[r] == 0.0
    ensures Combined(g, x, k) == Combined(g, x, j)
  {
    if k == j {
    } else {
      CombinedRest(g, x, j, k - 1);
      var u, v := Combined(g, x, k - 1), g[k - 1];
      forall t | 0 <= t < |g|
        ensures Plus(u, 0.0, v)[t] == u[t]
      {
        ProductOfZero(v[t]);
      }
    }
  }

  /** Row i, whose pivot is still open, is cancelled by the rows before it. */
  lemma CancelRow(h: Matrix, i: nat) returns (x: seq<real>)
    requires Square(h) && LowerTriangular(h) && i < |h| && h[i][i] == 0.0
    requires forall r :: 0 <= r < i ==> h[r][r] > 0.0
    ensures |x| == |h| && x[i] == 1.0 && (forall r :: i < r < |h| ==> x[r] == 0.0)
    ensures forall t :: 0 <= t < |h| ==> Combined(h, x, |h|)[t] == 0.0
  {
    var before := Cancel(h, h[i], i);
    x := before[i := 1.0];
    CombinedPrefix(h, x, before, i);
    CombinedRest(h, x, i + 1, |h|);
    var w := Combined(h, x, i + 1);
    forall t | 0 <= t < |h|
      ensures w[t] == 0.0
    {
      ProductOfOne(h[i][t]);
    }
  }

  lemma CancelledForm(b: Matrix, h: Matrix, x: seq<real>)
    requires Square(b) && Square(h) && IsGram(b, h) && |x| == |h|
    requires forall t :: 0 <= t < |h| ==> Combined(h, x, |h|)[t] == 0.0
    ensures Form(b, x, |b|) == 0.0
  {
    hide Form, Combined;
    FormIsSquare(b, h, x);
    DotZeros(Combined(h, x, |h|), Combined(h, x, |h|), |h|);
  }

  lemma NotPositive(a: Matrix, x: seq<real>, i: nat)
    requires Square(a) && |x| == |a| && i < |a| && x[i] != 0.0 && Form(a, x, |a|) <= 0.0
    ensures !PositiveDefinite(a)
  {
    hide Form;
    assert NonZero(x);
  }

  // ----- Matrices that differ in one entry -----

  lemma {:induction false} DotDiffers(u: seq<real>, v: seq<real>, x: seq<real>, i: nat, d: real, k: nat)
    requires |u| == |v| == |x| && i < |x| && k <= |x| && x[i] == 1.0
    requires forall c :: 0 <= c < i ==> u[c] == v[c]
    requires u[i] == v[i] + d && forall c :: i < c < |x| ==> x[c] == 0.0
    ensures Dot(u, x, k) == Dot(v, x, k) + if k > i then d else 0.0
  {
    if k == 0 {
    } else {
      DotDiffers(u, v, x, i, d, k - 1);
    }
  }

  /** Two matrices that agree up to row and column i, but for d in that corner. */
  ghost predicate DifferAt(a: Matrix, b: Matrix, i: nat, d: real)
    requires Square(a) && Square(b)
  {
    && |a| == |b| && i < |a|
    && (forall r, c :: 0 <= r <= i && 0 <= c <= i && !(r == i && c == i) ==> a[r][c] == b[r][c])
    && a[i][i] == b[i][i] + d
  }

  lemma {:induction false} FormDiffers(a: Matrix, b: Matrix, x: seq<real>, i: nat, d: real, k: nat)
    requires Square(a) && Square(b) && DifferAt(a, b, i, d) && |x| == |a| && k <= |a|
    requires x[i] == 1.0 && forall r :: i < r < |a| ==> x[r] == 0.0
    ensures Form(a, x, k) == Form(b, x, k) + if k > i then d else 0.0
  {
    hide Dot;
    if k == 0 {
    } else {
      FormDiffers(a, b, x, i, d, k - 1);
      if k - 1 <= i {
        DotDiffers(a[k - 1], b[k - 1], x, i, if k - 1 == i then d else 0.0, |a|);
      }
      ProductDistributes(x[k - 1], Dot(b[k - 1], x, |a|), d);
      ProductDistributes(Dot(b[k - 1], x, |a|), d, x[k - 1]);
      ProductOfOne(d);
      ProductOfZero(Dot(a[k - 1], x, |a|));
      ProductOfZero(Dot(b[k - 1], x, |a|));
      hide Product;
    }
  }

  /** The lower triangles agree up to row i, but for the pivot. */
  ghost predicate LowerAgrees(a: Matrix, b: Matrix, i: nat)
    requires Square(a) && Square(b) && |a| == |b| && i < |a|
  {
    forall r, c :: 0 <= c <= r <= i && c < i ==> a[r][c] == b[r][c]
  }

  lemma LowerDiffers(a: Matrix, b: Matrix, i: nat, d: real)
    requires Square(a) && Symmetric(a) && Square(b) && Symmetric(b) && |a| == |b| && i < |a|
    requires LowerAgrees(a, b, i) && a[i][i] == b[i][i] + d
    ensures DifferAt(a, b, i, d)
  {
    forall r, c | 0 <= r <= i && 0 <= c <= i && !(r == i && c == i)
      ensures a[r][c] == b[r][c]
    {
      if c > r {
        assert a[c][r] == b[c][r];
        assert a[r][c] == a[c][r] && b[r][c] == b[c][r];
      }
    }
  }

  // ----- Parts of a matrix -----

  function Leading(a: Matrix, k: nat): (b: Matrix)
    requires Square(a) && k <= |a|
    ensures Square(b) && |b| == k
    ensures forall r, c :: 0 <= r < k && 0 <= c < k ==> b[r][c] == a[r][c]
  {
    seq(k, r requires 0 <= r < k => a[r][..k])
  }

  lemma LeadingDot(g: Matrix, k: nat, r: nat, c: nat, n: nat)
    requires Square(g) && r < k <= |g| && c < k && n <= k
    ensures Dot(Leading(g, k)[r], Leading(g, k)[c], n) == Dot(g[r], g[c], n)
  {
    assert Leading(g, k)[r][..n] == g[r][..n] && Leading(g, k)[c][..n] == g[c][..n];
    DotPrefix(Leading(g, k)[r], Leading(g, k)[c], g[r], g[c], n);
  }

  /** The symmetric matrix with the lower triangle of a, the only part that is read. */
  function Mirrored(a: Matrix): (b: Matrix)
    requires Square(a)
    ensures Square(b) && |b| == |a|
    ensures forall r, c :: 0 <= r < |a| && 0 <= c < |a| ==> b[r][c] == if c <= r then a[r][c] else a[c][r]
  {
    seq(|a|, r requires 0 <= r < |a| => seq(|a|, c requires 0 <= c < |a| => if c <= r then a[r][c] else a[c][r]))
  }

  lemma MirroredIsSymmetric(a: Matrix)
    requires Square(a)
    ensures Symmetric(Mirrored(a))
    ensures Symmetric(a) ==> Mirrored(a) == a
  {
    if Symmetric(a) {
      forall r | 0 <= r < |a|
        ensures Mirrored(a)[r] == a[r]
      {
        assert forall c :: 0 <= c < |a| ==> a[r][c] == a[c][r];
      }
    }
  }
}
