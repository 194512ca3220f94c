/**
 The Cholesky factorisation of the risk statistics library.

 `Factorise` fills the factor in place, row by row, reading only the lower triangle.
 It succeeds exactly when the symmetric matrix with that triangle has a lower
 triangular factor with positive diagonal, and then returns that factor, which is
 unique. The square root is a parameter: any function that squares back to its argument.
 */
module Cholesky {
  import opened Arithmetic
  import opened Matrices

  datatype Result = NotPositiveDefinite(row: nat) | Factor(entries: array2<real>)

  /** m is the lower triangular factor of a with positive diagonal. */
  ghost predicate IsFactor(m: Matrix, a: Matrix)
    requires Square(a)
  {
    Square(m) && |m| == |a| && LowerTriangular(m) && PositiveDiagonal(m) && SquaresTo(m, a)
  }

  ghost predicate HasFactor(a: Matrix)
    requires Square(a)
  {
    exists m :: IsFactor(m, a)
  }

  /** Position (r, c) comes before (i, j) in the order in which the entries are filled. */
  predicate Before(r: int, c: int, i: int, j: int) {
    r < i || (r == i && c < j)
  }

  /** The equations already solved when the factor is filled up to (i, j). */
  ghost predicate Filled(g: Matrix, a: Matrix, i: nat, j: nat)
    requires Square(a)
  {
    && Square(g) && |g| == |a|
    && LowerTriangular(g)
    && (forall r :: 0 <= r < |a| && Before(r, r, i, j) ==> g[r][r] > 0.0)
    && (forall r, c :: 0 <= c <= r < |a| && Before(r, c, i, j) ==> Dot(g[r], g[c], c + 1) == a[r][c])
  }

  /** A complete fill of a symmetric matrix is a factor of it. */
  lemma FilledIsFactor(g: Matrix, a: Matrix)
    requires Square(a) && Symmetric(a) && Filled(g, a, |a|, 0)
    ensures IsFactor(g, a)
  {
    forall i, j | 0 <= i < |a| && 0 <= j < |a|
      ensures Dot(g[i], g[j], |a|) == a[i][j]
    {
      if j <= i {
        DotTruncates(g[i], g[j], j + 1, |a|);
      } else {
        DotCommutes(g[i], g[j], |a|);
        DotTruncates(g[j], g[i], i + 1, |a|);
      }
    }
  }

  // ----- Uniqueness -----

  lemma FactorEquation(m: Matrix, a: Matrix, r: nat, c: nat)
    requires Square(a) && IsFactor(m, a) && c <= r < |a|
    ensures Dot(m[r], m[c], c + 1) == a[r][c]
  {
    DotTruncates(m[r], m[c], c + 1, |a|);
  }

  lemma PositiveSquare(x: real)
    requires x > 0.0
    ensures x * x > 0.0
  {
  }

  lemma SameSquare(x: real, y: real)
    requires x > 0.0 && y > 0.0 && x * x == y * y
    ensures x == y
  {
    assert (x - y) * (x + y) == 0.0;
  }

  lemma SameQuotient(x: real, y: real, d: real)
    requires d > 0.0 && x * d == y * d
    ensures x == y
  {
    assert (x - y) * d == 0.0;
  }

  /** What the filled part holds is forced: it agrees with every factor of a. */
  lemma {:induction false} FillAgrees(g: Matrix, m: Matrix, a: Matrix, i: nat, j: nat, r: nat, c: nat)
    requires Square(a) && Filled(g, a, i, j) && IsFactor(m, a)
    requires r < |a| && c < |a| && (Before(r, c, i, j) || r < c)
    ensures g[r][c] == m[r][c]
    decreases r, c
  {
    hide Dot;
    if c <= r {
      forall t | 0 <= t < c
        ensures g[r][t] == m[r][t]
      {
        FillAgrees(g, m, a, i, j, r, t);
      }
      assert g[r][..c] == m[r][..c];
      FactorEquation(m, a, r, c);
      if c < r {
        forall t | 0 <= t <= c
          ensures g[c][t] == m[c][t]
        {
          FillAgrees(g, m, a, i, j, c, t);
        }
        assert g[c][..c] == m[c][..c];
        DotPrefix(g[r], g[c], m[r], m[c], c);
        DotLast(g[r], g[c], c, g[r][c], m[c][c]);
        DotLast(m[r], m[c], c, m[r][c], m[c][c]);
        SameQuotient(g[r][c], m[r][c], m[c][c]);
      } else {
        DotPrefix(g[r], g[r], m[r], m[r], r);
        DotLast(g[r], g[r], r, g[r][r], g[r][r]);
        DotLast(m[r], m[r], r, m[r][r], m[r][r]);
        SameSquare(g[r][r], m[r][r]);
      }
    }
  }

  /** A matrix has at most one lower triangular factor with positive diagonal. */
  lemma FactorUnique(m: Matrix, m': Matrix, a: Matrix)
    requires Square(a) && IsFactor(m, a) && IsFactor(m', a)
    ensures m == m'
  {
    forall r, c | 0 <= c <= r < |a|
      ensures Dot(m[r], m[c], c + 1) == a[r][c]
    {
      FactorEquation(m, a, r, c);
    }
    assert Filled(m, a, |a|, 0);
    forall r, c | 0 <= r < |a| && 0 <= c < |a|
      ensures m[r][c] == m'[r][c]
    {
      FillAgrees(m, m', a, |a|, 0, r, c);
    }
    assert forall r :: 0 <= r < |a| ==> m[r] == m'[r];
  }

  /**
   Completeness: every lower triangular m with positive diagonal is the one factor
   of m times its transpose.
   */
  lemma ProductRecoversFactor(m: Matrix)
    requires Square(m) && LowerTriangular(m) && PositiveDiagonal(m)
    ensures Symmetric(TimesTranspose(m))
    ensures forall g :: IsFactor(g, TimesTranspose(m)) <==> g == m
  {
    forall i, j | 0 <= i < |m| && 0 <= j < |m|
      ensures Dot(m[i], m[j], |m|) == Dot(m[j], m[i], |m|)
    {
      DotCommutes(m[i], m[j], |m|);
    }
    var a := TimesTranspose(m);
    assert IsFactor(m, a);
    forall g | IsFactor(g, a)
      ensures g == m
    {
      FactorUnique(g, m, a);
    }
  }

  /** When a has a factor, every pivot reached is positive. */
  lemma PivotIsPositive(g: Matrix, m: Matrix, a: Matrix, i: nat)
    requires Square(a) && i < |a| && Filled(g, a, i, i) && IsFactor(m, a)
    ensures a[i][i] - Dot(g[i], g[i], i) > 0.0
  {
    hide Dot;
    forall t | 0 <= t < i
      ensures g[i][t] == m[i][t]
    {
      FillAgrees(g, m, a, i, i, i, t);
    }
    assert g[i][..i] == m[i][..i];
    DotPrefix(g[i], g[i], m[i], m[i], i);
    FactorEquation(m, a, i, i);
    DotLast(m[i], m[i], i, m[i][i], m[i][i]);
    PositiveSquare(m[i][i]);
  }

  /** A non-positive pivot rules out every factor. */
  lemma PivotRefutes(g: Matrix, a: Matrix, i: nat)
    requires Square(a) && i < |a| && Filled(g, a, i, i)
    requires a[i][i] - Dot(g[i], g[i], i) <= 0.0
    ensures !HasFactor(a)
  {
    hide Dot;
    forall m
      ensures !IsFactor(m, a)
    {
      if IsFactor(m, a) {
        PivotIsPositive(g, m, a, i);
      }
    }
  }

  // ----- Positive definite matrices -----

  /** A matrix with a factor is positive definite. */
  lemma FactorIsDefinite(m: Matrix, a: Matrix)
    requires Square(a) && IsFactor(m, a)
    ensures PositiveDefinite(a)
  {
    hide Dot, Form, Combined;
    assert IsGram(a, m);
    forall x: seq<real> | |x| == |a| && NonZero(x)
      ensures Form(a, x, |a|) > 0.0
    {
      var t := LastNonZero(x);
      CombinedAt(m, x, t, |m|);
      ProductVanishes(x[t], m[t][t]);
      FormIsSquare(a, m, x);
      DotSelf(Combined(m, x, |m|), |m|);
    }
  }

  /** The filled rows with a zero in the place of pivot i. */
  function WithoutPivot(g: Matrix, i: nat): (h: Matrix)
    requires Square(g) && i < |g|
    ensures Square(h) && |h| == |g| && h[i] == g[i][i := 0.0]
    ensures forall r :: 0 <= r < |g| && r != i ==> h[r] == g[r]
  {
    g[i := g[i][i := 0.0]]
  }

  /** One product of the filled rows, up to row i. */
  lemma OpenProduct(g: Matrix, a: Matrix, i: nat, r: nat, c: nat)
    requires Square(a) && i < |a| && Filled(g, a, i, i) && c <= r <= i
    ensures Square(g) && |g| == |a|
    ensures Dot(WithoutPivot(g, i)[r], WithoutPivot(g, i)[c], |g|) == if c == i then Dot(g[i], g[i], i) else a[r][c]
  {
    hide Dot;
    var h := WithoutPivot(g, i);
    var m := if c == i then i else c + 1;
    assert forall t :: m <= t < |g| ==> h[c][t] == 0.0;
    DotTruncates(h[r], h[c], m, |g|);
    assert h[r][..m] == g[r][..m] && h[c][..m] == g[c][..m];
    DotPrefix(h[r], h[c], g[r], g[c], m);
    if c < i {
      assert Before(r, c, i, i);
    }
  }

  /** Up to row i the matrix is the product of the filled rows, but for the pivot. */
  lemma OpenDiffers(g: Matrix, a: Matrix, b: Matrix, i: nat)
    requires Square(a) && Symmetric(a) && i < |a| && Filled(g, a, i, i)
    requires Square(b) && Symmetric(b) && IsGram(b, WithoutPivot(g, i))
    ensures DifferAt(a, b, i, a[i][i] - Dot(g[i], g[i], i))
  {
    hide Dot, WithoutPivot, Filled, IsGram, Symmetric, DifferAt;
    OpenProduct(g, a, i, i, i);
    GramEntry(b, WithoutPivot(g, i), i, i);
    forall r, c | 0 <= c <= r <= i && c < i
      ensures a[r][c] == b[r][c]
    {
      OpenProduct(g, a, i, r, c);
      GramEntry(b, WithoutPivot(g, i), r, c);
    }
    LowerDiffers(a, b, i, a[i][i] - Dot(g[i], g[i], i));
  }

  /** A pivot that is not positive shows a vector at which the form is not positive. */
  lemma PivotNotDefinite(g: Matrix, a: Matrix, i: nat)
    requires Square(a) && Symmetric(a) && i < |a| && Filled(g, a, i, i)
    requires a[i][i] - Dot(g[i], g[i], i) <= 0.0
    ensures !PositiveDefinite(a)
  {
    hide Dot, Form, Symmetric, WithoutPivot, PositiveDefinite, DifferAt, IsGram, LowerTriangular, Combined, TimesTranspose;
    OpenIsLower(g, a, i);
    var h := WithoutPivot(g, i);
    var b := TimesTranspose(h);
    TransposeIsGram(h);
    OpenDiffers(g, a, b, i);
    hide Filled;
    var x := CancelRow(h, i);
    CancelledForm(b, h, x);
    FormDiffers(a, b, x, i, a[i][i] - Dot(g[i], g[i], i), |a|);
    NotPositive(a, x, i);
  }

  lemma OpenIsLower(g: Matrix, a: Matrix, i: nat)
    requires Square(a) && i < |a| && Filled(g, a, i, i)
    ensures Square(g) && |g| == |a|
    ensures LowerTriangular(WithoutPivot(g, i)) && WithoutPivot(g, i)[i][i] == 0.0
    ensures forall r :: 0 <= r < i ==> WithoutPivot(g, i)[r][r] > 0.0
  {
    hide Dot;
  }

  // ----- Leading blocks -----

  /** A fill up to (i, j) restricts to a fill of a leading block. */
  lemma LeadingFilled(g: Matrix, a: Matrix, i: nat, k: nat)
    requires Square(a) && Filled(g, a, i, i) && i <= k <= |a|
    ensures Filled(Leading(g, k), Leading(a, k), i, if k == i then 0 else i)
  {
    hide Dot;
    var g', a' := Leading(g, k), Leading(a, k);
    forall r, c | 0 <= c <= r < k && Before(r, c, i, if k == i then 0 else i)
      ensures Dot(g'[r], g'[c], c + 1) == a'[r][c]
    {
      LeadingDot(g, k, r, c, c + 1);
    }
  }

  /** The leading block of size i has a factor and the next one has none. */
  ghost predicate StopsAt(a: Matrix, i: nat)
    requires Square(a)
  {
    i < |a| && HasFactor(Leading(a, i)) && !HasFactor(Leading(a, i + 1))
  }

  lemma LeadingHasFactor(g: Matrix, a: Matrix, i: nat)
    requires Square(a) && Symmetric(a) && i < |a| && Filled(g, a, i, i)
    ensures HasFactor(Leading(a, i))
  {
    LeadingFilled(g, a, i, i);
    var g', a' := Leading(g, i), Leading(a, i);
    hide Dot, Filled, IsFactor, Leading;
    FilledIsFactor(g', a');
  }

  lemma NextHasNone(g: Matrix, a: Matrix, i: nat)
    requires Square(a) && i < |a| && Filled(g, a, i, i)
    requires a[i][i] - Dot(g[i], g[i], i) <= 0.0
    ensures !HasFactor(Leading(a, i + 1))
  {
    LeadingFilled(g, a, i, i + 1);
    var g', a' := Leading(g, i + 1), Leading(a, i + 1);
    LeadingDot(g, i + 1, i, i, i);
    hide Dot, Filled, IsFactor, Leading;
    PivotRefutes(g', a', i);
  }

  lemma PivotStops(g: Matrix, a: Matrix, i: nat)
    requires Square(a) && Symmetric(a) && i < |a| && Filled(g, a, i, i)
    requires a[i][i] - Dot(g[i], g[i], i) <= 0.0
    ensures StopsAt(a, i)
  {
    hide Dot, Filled, HasFactor, Leading;
    LeadingHasFactor(g, a, i);
    NextHasNone(g, a, i);
  }

  // ----- The factorisation -----

  /** The value that solves the equation of entry (i, j), given the entries before it. */
  ghost predicate Solves(g: Matrix, a: Matrix, i: nat, j: nat, v: real)
    requires Square(a) && Square(g) && |g| == |a| && j <= i < |a|
  {
    if i == j then
      v > 0.0 && v * v == a[i][i] - Dot(g[i], g[i], i)
    else
      v * g[j][j] == a[i][j] - Dot(g[i], g[j], j)
  }

  lemma StoreKeepsEarlier(g: Matrix, a: Matrix, i: nat, j: nat, v: real, g': Matrix, r: nat, c: nat)
    requires Square(a) && Square(g) && |g| == |a| && j <= i < |a|
    requires g' == g[i := g[i][j := v]]
    requires c <= r < |a| && Before(r, c, i, j)
    ensures Dot(g'[r], g'[c], c + 1) == Dot(g[r], g[c], c + 1)
  {
    assert g'[c] == g[c];
    assert g'[r][..c + 1] == g[r][..c + 1];
    DotPrefix(g[r], g[c], g'[r], g'[c], c + 1);
  }

  lemma StoreSolves(g: Matrix, a: Matrix, i: nat, j: nat, v: real, g': Matrix)
    requires Square(a) && Square(g) && |g| == |a| && j <= i < |a|
    requires g' == g[i := g[i][j := v]] && Solves(g, a, i, j, v)
    ensures Dot(g'[i], g'[j], j + 1) == a[i][j]
  {
    assert g'[i][..j] == g[i][..j] && g'[j][..j] == g[j][..j];
    DotPrefix(g[i], g[j], g'[i], g'[j], j);
  }

  /** Storing one entry solves its equation and disturbs none of the earlier ones. */
  lemma FillOne(g: Matrix, a: Matrix, i: nat, j: nat, v: real, g': Matrix)
    requires Square(a) && j <= i < |a| && Filled(g, a, i, j)
    requires g' == g[i := g[i][j := v]] && Solves(g, a, i, j, v)
    ensures Filled(g', a, i, j + 1)
  {
    hide Dot;
    forall r, c | 0 <= c <= r < |a| && Before(r, c, i, j + 1)
      ensures Dot(g'[r], g'[c], c + 1) == a[r][c]
    {
      if r == i && c == j {
        StoreSolves(g, a, i, j, v, g');
      } else {
        StoreKeepsEarlier(g, a, i, j, v, g', r, c);
      }
    }
  }

  lemma DiagonalIsPositive(g: Matrix, a: Matrix, i: nat, j: nat)
    requires Square(a) && Filled(g, a, i, j) && j < i < |a|
    ensures g[j][j] > 0.0
  {
  }

  lemma RootSquares(x: real, sqrt: real -> real)
    requires IsSquareRoot(sqrt) && x > 0.0
    ensures var v := sqrt(x); v > 0.0 && v * v == x
  {
  }

  lemma QuotientSolves(x: real, d: real, v: real)
    requires d > 0.0 && v == x / d
    ensures v * d == x
  {
  }

  ghost predicate Holds(l: array2<real>, g: Matrix)
    requires Square(g) && l.Length0 == l.Length1 == |g|
    reads l
  {
    forall r, c :: 0 <= r < |g| && 0 <= c < |g| ==> l[r, c] == g[r][c]
  }

  lemma FillStarts(a: Matrix, g: Matrix)
    requires Square(a) && g == seq(|a|, _ => seq(|a|, _ => 0.0))
    ensures Square(g) && Filled(g, a, 0, 0)
  {
  }

  lemma FillNextRow(g: Matrix, a: Matrix, i: nat)
    requires Square(a) && Filled(g, a, i, i + 1)
    ensures Filled(g, a, i + 1, 0)
  {
  }

  /** The inner loop: what is left of an entry after the products already fixed. */
  method Residual(entry: real, l: array2<real>, ghost g: Matrix, i: nat, j: nat) returns (sum: real)
    requires Square(g) && l.Length0 == l.Length1 == |g| && j <= i < |g| && Holds(l, g)
    ensures sum == entry - Dot(g[i], g[j], j)
  {
    sum := entry;
    for k := 0 to j
      invariant sum == entry - Dot(g[i], g[j], k)
    {
      DotLast(g[i], g[j], k, l[i, k], l[j, k]);
      sum := sum - l[i, k] * l[j, k];
    }
  }

  /** Fills entry (i, j), unless it is a pivot that is not positive. */
  method FillEntry(a: Matrix, sqrt: real -> real, l: array2<real>, ghost g: Matrix, i: nat, j: nat)
    returns (ok: bool, ghost g': Matrix)
    requires Square(a) && IsSquareRoot(sqrt) && j <= i < |a|
    requires Square(g) && |g| == |a| && l.Length0 == l.Length1 == |a| && Holds(l, g) && Filled(g, Mirrored(a), i, j)
    modifies l
    ensures !ok ==> StopsAt(Mirrored(a), i) && !HasFactor(Mirrored(a)) && !PositiveDefinite(Mirrored(a))
    ensures ok ==> Square(g') && |g'| == |a| && Holds(l, g') && Filled(g', Mirrored(a), i, j + 1)
  {
    hide Dot, IsSquareRoot, HasFactor, IsFactor, Filled, StopsAt, PositiveDefinite;
    ghost var s := Mirrored(a);
    MirroredIsSymmetric(a);
    var sum := Residual(a[i][j], l, g, i, j);
    var v: real;
    if i == j {
      if sum <= 0.0 {
        PivotRefutes(g, s, i);
        PivotStops(g, s, i);
        PivotNotDefinite(g, s, i);
        return false, g;
      }
      v := sqrt(sum);
      RootSquares(sum, sqrt);
    } else {
      DiagonalIsPositive(g, s, i, j);
      v := sum / l[j, j];
      QuotientSolves(sum, g[j][j], v);
    }
    l[i, j] := v;
    ok, g' := true, g[i := g[i][j := v]];
    FillOne(g, s, i, j, v, g');
  }

  /**
   Returns the factor of the mirrored lower triangle exactly when there is one, which
   for a symmetric matrix is its own factor, and exactly when that matrix is positive
   definite. Otherwise the reported row is the size of the largest leading block that
   has a factor.
   */
  method Factorise(a: Matrix, sqrt: real -> real) returns (result: Result)
    requires Square(a) && IsSquareRoot(sqrt)
    ensures Symmetric(a) ==> Mirrored(a) == a
    ensures result.Factor? ==>
              && fresh(result.entries)
              && result.entries.Length0 == result.entries.Length1 == |a|
              && exists g :: IsFactor(g, Mirrored(a)) && Holds(result.entries, g)
    ensures result.NotPositiveDefinite? ==> StopsAt(Mirrored(a), result.row) && !HasFactor(Mirrored(a))
    ensures result.Factor? <==> PositiveDefinite(Mirrored(a))
  {
    var n := |a|;
    var l := new real[n, n]((_, _) => 0.0);
    ghost var g: Matrix := seq(n, _ => seq(n, _ => 0.0));
    ghost var s := Mirrored(a);
    MirroredIsSymmetric(a);
    FillStarts(s, g);
    hide Dot, IsSquareRoot, HasFactor, IsFactor, Filled, StopsAt, Mirrored, PositiveDefinite;
    for i := 0 to n
      invariant Square(g) && |g| == n && Holds(l, g) && Filled(g, s, i, 0)
    {
      for j := 0 to i + 1
        invariant Square(g) && |g| == n && Holds(l, g) && Filled(g, s, i, j)
      {
        var ok;
        ok, g := FillEntry(a, sqrt, l, g, i, j);
        if !ok {
          return NotPositiveDefinite(i);
        }
      }
      FillNextRow(g, s, i);
    }
    FilledIsFactor(g, s);
    FactorIsDefinite(g, s);
    result := Factor(l);
  }

  /** Factorising m times its transpose never fails and returns m. */
  method FactoriseProduct(m: Matrix, sqrt: real -> real) returns (entries: array2<real>)
    requires Square(m) && LowerTriangular(m) && PositiveDiagonal(m) && IsSquareRoot(sqrt)
    ensures fresh(entries) && entries.Length0 == entries.Length1 == |m| && Holds(entries, m)
  {
    hide Dot, IsSquareRoot, IsFactor;
    ProductRecoversFactor(m);
    var result := Factorise(TimesTranspose(m), sqrt);
    assert IsFactor(m, TimesTranspose(m));
    entries := result.entries;
  }
}
