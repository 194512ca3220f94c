/**
 Cox-Ross-Rubinstein option pricing.

 `Price` is the backward induction that overwrites one array. It is proved
 against `Value`, the recursive value of a tree node, and the financial laws
 of the tree are proved about `Value`. The transcendental inputs are replaced by
 the positive reals they produce: `u` = exp(sigma * sqrt(dt)), `df` = exp(-r * dt)
 and `growth` = exp((r - q) * dt).
 */
module BinomialTree {
  import opened Arithmetic
  import opened Wrappers

  datatype OptionType = Call | Put

  datatype Exercise = European | American

  datatype Quote = Quote(price: real, earlyExercisePremium: Option<real>)

  /**
   `OutOfRange` is the error thrown when the up probability is not in [0,1];
   `NotANumber` is the price when that probability is zero over zero.
   */
  datatype Outcome = OutOfRange | NotANumber | Priced(quote: Quote)

  function Max(x: real, y: real): real {
    if x >= y then x else y
  }

  datatype Tree = Tree(spot: real, strike: real, u: real, df: real, growth: real, steps: nat) {

    /** At least one step; moves, discount factor and growth are exponentials. */
    predicate Positive() {
      u > 0.0 && df > 0.0 && growth > 0.0 && steps > 0
    }

    /** A volatility that separates the two moves. */
    predicate Valid() {
      Positive() && u != 1.0
    }

    function Down(): real
      requires Valid()
    {
      1.0 / u
    }

    /** Risk-neutral probability of an up move. */
    function Up(): real
      requires Valid()
    {
      InverseDiffers(u);
      (growth - Down()) / (u - Down())
    }

    /** Discounted one-step growth of the underlying: exp(-q * dt). */
    function Carry(): real {
      df * growth
    }

    /** The one-step growth lies between the two moves, so that the tree admits no arbitrage. */
    predicate GrowthBetweenMoves()
      requires Valid()
    {
      Down() <= growth <= u || u <= growth <= Down()
    }

    /** Price of the underlying at level i after j up moves. */
    function Spot(i: nat, j: nat): real
      requires Valid() && j <= i
    {
      spot * Pow(u, j) * Pow(Down(), i - j)
    }

    /** What exercising at spot s pays, before flooring at zero. */
    function Gain(kind: OptionType, s: real): real {
      if kind.Call? then s - strike else strike - s
    }

    function Intrinsic(kind: OptionType, s: real): real {
      Max(Gain(kind, s), 0.0)
    }

    function Continuation(up: real, down: real): real
      requires Valid()
    {
      df * (Up() * up + (1.0 - Up()) * down)
    }

    /** Value of the option at level i after j up moves. */
    function Value(kind: OptionType, exercise: Exercise, i: nat, j: nat): real
      requires Valid() && j <= i <= steps
      decreases steps - i
    {
      if i == steps then
        Intrinsic(kind, Spot(i, j))
      else
        var continuation :=
          Continuation(Value(kind, exercise, i + 1, j + 1), Value(kind, exercise, i + 1, j));
        if exercise.American? then Max(continuation, Intrinsic(kind, Spot(i, j))) else continuation
    }
  }

  lemma InverseDiffers(u: real)
    requires u > 0.0 && u != 1.0
    ensures 1.0 / u > 0.0 && 1.0 / u != u
  {
    var d := 1.0 / u;
    assert d * u == 1.0;
    if u > 1.0 {
      assert u * u > 1.0;
    } else {
      assert u * u < 1.0;
    }
  }

  /** The up probability makes the one-step growth of the underlying fair. */
  lemma UpIsFair(tree: Tree)
    requires tree.Valid()
    ensures tree.Up() * tree.u + (1.0 - tree.Up()) * tree.Down() == tree.growth
  {
    InverseDiffers(tree.u);
    FairWeights(tree.u, tree.Down(), tree.growth, tree.Up());
  }

  /** The up probability is in [0,1] exactly when growth lies between the two moves. */
  lemma UpIsProbability(tree: Tree)
    requires tree.Valid()
    ensures 0.0 <= tree.Up() <= 1.0 <==> tree.GrowthBetweenMoves()
  {
    InverseDiffers(tree.u);
    QuotientInUnitInterval(tree.growth - tree.Down(), tree.u - tree.Down(), tree.Up());
  }

  lemma QuotientInUnitInterval(x: real, y: real, p: real)
    requires y != 0.0 && p == x / y
    ensures 0.0 <= p <= 1.0 <==> 0.0 <= x <= y || y <= x <= 0.0
  {
    assert p * y == x;
    if 0.0 <= p <= 1.0 {
      if y > 0.0 {
        assert 0.0 <= p * y <= 1.0 * y;
      } else {
        assert 1.0 * y <= p * y <= 0.0;
      }
    } else if p < 0.0 {
      if y > 0.0 {
        assert p * y < 0.0;
      } else {
        assert p * y > 0.0;
      }
    } else {
      if y > 0.0 {
        assert (p - 1.0) * y > 0.0;
      } else {
        assert (p - 1.0) * y < 0.0;
      }
    }
  }

  lemma FairWeights(u: real, d: real, growth: real, p: real)
    requires u != d && p == (growth - d) / (u - d)
    ensures p * u + (1.0 - p) * d == growth
  {
    assert p * (u - d) == growth - d;
  }

  /**
   The pricing method: terminal payoffs, then one array overwritten level by
   level. An American quote prices its European twin to report the premium, which is
   zero when waiting is free. Without volatility the up probability is a quotient by zero.
   */
  method Price(tree: Tree, kind: OptionType, exercise: Exercise) returns (r: Outcome)
    requires tree.Positive()
    ensures !tree.Valid() ==> r == if tree.growth == 1.0 then NotANumber else OutOfRange
    ensures tree.Valid() ==> !r.NotANumber? && (r.OutOfRange? <==> !tree.GrowthBetweenMoves())
    ensures r.Priced? ==> tree.Valid() && r.quote.price == tree.Value(kind, exercise, 0, 0)
    ensures r.Priced? && exercise.European? ==>
              && r.quote.earlyExercisePremium.None?
              && r.quote.price == BinomialPrice(kind, tree.spot, tree.strike, tree.u, tree.df, tree.growth, tree.steps)
    ensures r.Priced? && exercise.American? ==>
              r.quote.earlyExercisePremium ==
              Some(tree.Value(kind, American, 0, 0) - tree.Value(kind, European, 0, 0))
    ensures r.Priced? && exercise.American? && WaitingIsFree(tree, kind) ==>
              r.quote.earlyExercisePremium == Some(0.0)
    decreases exercise.American?
  {
    if tree.u == 1.0 {
      return if tree.growth == 1.0 then NotANumber else OutOfRange;
    }
    UpIsProbability(tree);
    NoEarlyExercise(tree, kind, 0, 0);
    EuropeanPrice(tree, kind);
    hide Tree.Down, Tree.Up, Tree.GrowthBetweenMoves, Tree.Spot, Tree.Intrinsic, Tree.Continuation, Max, WaitingIsFree,
      BinomialPrice;
    var p := tree.Up();
    if p < 0.0 || p > 1.0 {
      return OutOfRange;
    }
    var n := tree.steps;
    var v := new real[n + 1];
    for j := 0 to n + 1
      invariant forall k: nat :: k < j ==> v[k] == tree.Value(kind, exercise, n, k)
    {
      v[j] := tree.Intrinsic(kind, tree.Spot(n, j));
    }
    for i := n downto 0
      invariant forall k: nat :: k <= i ==> v[k] == tree.Value(kind, exercise, i, k)
    {
      for j := 0 to i + 1
        invariant forall k: nat :: k < j ==> v[k] == tree.Value(kind, exercise, i, k)
        invariant forall k: nat :: j <= k <= i + 1 ==> v[k] == tree.Value(kind, exercise, i + 1, k)
      {
        var continuation := tree.Continuation(v[j + 1], v[j]);
        if exercise.American? {
          v[j] := Max(continuation, tree.Intrinsic(kind, tree.Spot(i, j)));
        } else {
          v[j] := continuation;
        }
      }
    }
    var price := v[0];
    var premium: Option<real> := None;
    if exercise.American? {
      var european := Price(tree, kind, European);
      premium := Some(Max(price - european.quote.price, 0.0));
      AmericanPremium(tree, kind);
    }
    return Priced(Quote(price, premium));
  }

  lemma AmericanPremium(tree: Tree, kind: OptionType)
    requires tree.Valid() && tree.GrowthBetweenMoves()
    ensures var premium := tree.Value(kind, American, 0, 0) - tree.Value(kind, European, 0, 0);
            Max(premium, 0.0) == premium
  {
    AmericanDominates(tree, kind, 0, 0);
  }

  // ----- One step of the tree -----

  lemma SpotMoves(tree: Tree, i: nat, j: nat)
    requires tree.Valid() && j <= i
    ensures tree.Spot(i + 1, j + 1) == tree.u * tree.Spot(i, j)
    ensures tree.Spot(i + 1, j) == tree.Down() * tree.Spot(i, j)
  {
    var x, y := Pow(tree.u, j), Pow(tree.Down(), i - j);
    calc {
      tree.Spot(i + 1, j + 1);
      tree.spot * (tree.u * x) * y;
      tree.u * (tree.spot * x * y);
    }
    assert i + 1 - j == (i - j) + 1;
    calc {
      tree.Spot(i + 1, j);
      tree.spot * x * (tree.Down() * y);
      tree.Down() * (tree.spot * x * y);
    }
  }

  /** Under the up probability the underlying grows by `growth` a step. */
  lemma SpotIsFair(tree: Tree, i: nat, j: nat)
    requires tree.Valid() && j <= i
    ensures tree.Up() * tree.Spot(i + 1, j + 1) + (1.0 - tree.Up()) * tree.Spot(i + 1, j)
         == tree.growth * tree.Spot(i, j)
  {
    hide Tree.Spot, Tree.Up, Tree.Down;
    SpotMoves(tree, i, j);
    UpIsFair(tree);
    FairStep(tree.Up(), tree.u, tree.Down(), tree.growth, tree.Spot(i, j),
      tree.Spot(i + 1, j + 1), tree.Spot(i + 1, j));
  }

  lemma FairStep(p: real, u: real, d: real, growth: real, s: real, s1: real, s0: real)
    requires p * u + (1.0 - p) * d == growth && s1 == u * s && s0 == d * s
    ensures p * s1 + (1.0 - p) * s0 == growth * s
  {
    assert p * (u * s) + (1.0 - p) * (d * s) == (p * u + (1.0 - p) * d) * s;
  }

  lemma ContinuationMonotone(tree: Tree, up: real, down: real, up': real, down': real)
    requires tree.Valid() && tree.GrowthBetweenMoves()
    requires up <= up' && down <= down'
    ensures tree.Continuation(up, down) <= tree.Continuation(up', down')
  {
    UpIsProbability(tree);
    hide Tree.Up;
    AverageMonotone(tree.df, tree.Up(), 1.0 - tree.Up(), up, down, up', down');
  }

  lemma AverageMonotone(df: real, p: real, q: real, up: real, down: real, up': real, down': real)
    requires df >= 0.0 && p >= 0.0 && q >= 0.0 && up <= up' && down <= down'
    ensures df * (p * up + q * down) <= df * (p * up' + q * down')
  {
    ScaleMonotone(p, up, up');
    ScaleMonotone(q, down, down');
    ScaleMonotone(df, p * up + q * down, p * up' + q * down');
  }

  lemma ScaleMonotone(c: real, x: real, y: real)
    requires c >= 0.0 && x <= y
    ensures c * x <= c * y
  {
  }

  lemma ContinuationNonNegative(tree: Tree, up: real, down: real)
    requires tree.Valid() && tree.GrowthBetweenMoves()
    requires up >= 0.0 && down >= 0.0
    ensures tree.Continuation(up, down) >= 0.0
  {
    ContinuationMonotone(tree, 0.0, 0.0, up, down);
  }

  lemma ForwardAlgebra(
    p: real, s1: real, s0: real, c: real, k: real, df: real, g: real, s: real, up: real, down: real, carry: real)
    requires p * s1 + (1.0 - p) * s0 == g * s && carry == df * g
    requires up == c * s1 - k && down == c * s0 - k
    ensures df * (p * up + (1.0 - p) * down) == carry * c * s - df * k
  {
    var inner := p * up + (1.0 - p) * down;
    assert inner == c * (p * s1 + (1.0 - p) * s0) - k;
    assert df * inner == df * (c * (g * s)) - df * k;
    assert df * (c * (g * s)) == carry * c * s;
  }

  /** Discounted expectation of a forward position `c * spot - k`. */
  lemma ContinuationOfForward(tree: Tree, i: nat, j: nat, c: real, k: real, up: real, down: real)
    requires tree.Valid() && j <= i
    requires up == c * tree.Spot(i + 1, j + 1) - k && down == c * tree.Spot(i + 1, j) - k
    ensures tree.Continuation(up, down) == tree.Carry() * c * tree.Spot(i, j) - tree.df * k
  {
    hide Tree.Spot, Tree.Up;
    SpotIsFair(tree, i, j);
    ForwardAlgebra(tree.Up(), tree.Spot(i + 1, j + 1), tree.Spot(i + 1, j), c, k,
      tree.df, tree.growth, tree.Spot(i, j), up, down, tree.Carry());
  }

  // ----- American exercise -----

  /** At every node an American option is worth at least its European twin and its intrinsic value. */
  lemma {:induction false} AmericanDominates(tree: Tree, kind: OptionType, i: nat, j: nat)
    requires tree.Valid() && tree.GrowthBetweenMoves() && j <= i <= tree.steps
    ensures tree.Value(kind, American, i, j) >= tree.Value(kind, European, i, j) >= 0.0
    ensures tree.Value(kind, American, i, j) >= tree.Intrinsic(kind, tree.Spot(i, j))
    decreases tree.steps - i
  {
    if i < tree.steps {
      AmericanDominates(tree, kind, i + 1, j + 1);
      AmericanDominates(tree, kind, i + 1, j);
      var u1, d1 := tree.Value(kind, European, i + 1, j + 1), tree.Value(kind, European, i + 1, j);
      ContinuationNonNegative(tree, u1, d1);
      ContinuationMonotone(tree, u1, d1,
        tree.Value(kind, American, i + 1, j + 1), tree.Value(kind, American, i + 1, j));
    }
  }

  /**
   Waiting one step never costs the holder: for a call, interest on the strike
   and no dividend; for a put, the mirror image. With no dividend yield the
   underlying grows exactly as cash does and the sign of the spot does not matter.
   */
  ghost predicate WaitingIsFree(tree: Tree, kind: OptionType)
    requires tree.Valid()
  {
    && tree.strike >= 0.0
    && (if kind.Call? then tree.df <= 1.0 else tree.df >= 1.0)
    && (|| tree.growth == 1.0 / tree.df
        || (tree.spot >= 0.0 && if kind.Call? then tree.growth >= 1.0 / tree.df else tree.growth <= 1.0 / tree.df))
  }

  lemma CarryOfWaiting(tree: Tree)
    requires tree.Valid()
    ensures tree.growth == 1.0 / tree.df ==> tree.Carry() == 1.0
    ensures tree.growth >= 1.0 / tree.df ==> tree.Carry() >= 1.0
    ensures tree.growth <= 1.0 / tree.df ==> tree.Carry() <= 1.0
  {
    var cash := 1.0 / tree.df;
    assert tree.df * cash == 1.0;
    assert tree.df * (tree.growth - cash) == tree.Carry() - 1.0;
  }

  lemma SpotSign(tree: Tree, i: nat, j: nat)
    requires tree.Valid() && j <= i && tree.spot >= 0.0
    ensures tree.Spot(i, j) >= 0.0
  {
    InverseDiffers(tree.u);
    PowPositive(tree.u, j);
    PowPositive(tree.Down(), i - j);
    var x, y := Pow(tree.u, j), Pow(tree.Down(), i - j);
    assert tree.spot * x >= 0.0;
    assert tree.spot * x * y >= 0.0;
  }

  /** A sign covers both kinds: +1 for a call, -1 for a put. */
  ghost function Sign(kind: OptionType): real {
    if kind.Call? then 1.0 else -1.0
  }

  /** Waiting gains b on the underlying and loses a on the strike. */
  lemma WaitingAlgebra(e: real, s: real, k: real, f: real, c: real, a: real, b: real)
    requires a == (f - 1.0) * e && b == (c - 1.0) * e
    requires a <= 0.0 && k >= 0.0 && (b == 0.0 || (b >= 0.0 && s >= 0.0))
    ensures c * e * s - f * (e * k) >= e * s - e * k
  {
    assert c * e * s - f * (e * k) - (e * s - e * k) == b * s - a * k;
    ProductNonNegative(-a, k);
    if b != 0.0 {
      ProductNonNegative(b, s);
    }
  }

  /** Waiting costs neither kind of option its gain on the underlying or on the strike. */
  lemma WaitingSigns(tree: Tree, kind: OptionType)
    requires tree.Valid() && WaitingIsFree(tree, kind)
    ensures (tree.df - 1.0) * Sign(kind) <= 0.0
    ensures (tree.Carry() - 1.0) * Sign(kind) >= 0.0
    ensures tree.Carry() != 1.0 ==> tree.spot >= 0.0
  {
    CarryOfWaiting(tree);
    hide Tree.Carry;
  }

  /** The discounted gain of exercising a step later is at least the gain of exercising now. */
  lemma WaitingBeatsExercise(tree: Tree, kind: OptionType, i: nat, j: nat)
    requires tree.Valid() && j <= i && WaitingIsFree(tree, kind)
    ensures tree.Continuation(tree.Gain(kind, tree.Spot(i + 1, j + 1)), tree.Gain(kind, tree.Spot(i + 1, j)))
         >= tree.Gain(kind, tree.Spot(i, j))
  {
    hide Tree.Spot, Tree.Up, Tree.Continuation, Tree.Carry;
    var s, c, e := tree.Spot(i, j), tree.Carry(), Sign(kind);
    WaitingSigns(tree, kind);
    ContinuationOfForward(tree, i, j, e, e * tree.strike,
      tree.Gain(kind, tree.Spot(i + 1, j + 1)), tree.Gain(kind, tree.Spot(i + 1, j)));
    if c != 1.0 {
      SpotSign(tree, i, j);
    }
    WaitingAlgebra(e, s, tree.strike, tree.df, c, (tree.df - 1.0) * e, (c - 1.0) * e);
  }

  lemma {:induction false} EuropeanBeatsIntrinsic(tree: Tree, kind: OptionType, i: nat, j: nat)
    requires tree.Valid() && j <= i <= tree.steps
    ensures tree.GrowthBetweenMoves() && WaitingIsFree(tree, kind) ==>
              tree.Value(kind, European, i, j) >= tree.Intrinsic(kind, tree.Spot(i, j))
    decreases tree.steps - i
  {
    hide Tree.Spot, Tree.Up, Tree.Continuation, Tree.Gain, Tree.GrowthBetweenMoves, WaitingIsFree;
    if tree.GrowthBetweenMoves() && WaitingIsFree(tree, kind) {
      AmericanDominates(tree, kind, i, j);
    }
    if i < tree.steps && tree.GrowthBetweenMoves() && WaitingIsFree(tree, kind) {
      EuropeanBeatsIntrinsic(tree, kind, i + 1, j + 1);
      EuropeanBeatsIntrinsic(tree, kind, i + 1, j);
      ContinuationMonotone(tree,
        tree.Gain(kind, tree.Spot(i + 1, j + 1)), tree.Gain(kind, tree.Spot(i + 1, j)),
        tree.Value(kind, European, i + 1, j + 1), tree.Value(kind, European, i + 1, j));
      WaitingBeatsExercise(tree, kind, i, j);
    }
  }

  /**
   No early exercise: when waiting is free the American and European values agree
   at every node of every tree, so the premium `Price` reports is exactly zero.
   */
  lemma {:induction false} NoEarlyExercise(tree: Tree, kind: OptionType, i: nat, j: nat)
    requires tree.Valid() && j <= i <= tree.steps
    ensures tree.GrowthBetweenMoves() && WaitingIsFree(tree, kind) ==>
              tree.Value(kind, American, i, j) == tree.Value(kind, European, i, j)
    decreases tree.steps - i
  {
    if i < tree.steps {
      NoEarlyExercise(tree, kind, i + 1, j + 1);
      NoEarlyExercise(tree, kind, i + 1, j);
      EuropeanBeatsIntrinsic(tree, kind, i, j);
    }
  }

  // ----- Put-call parity -----

  /** Value at (i, j) of receiving the underlying for the strike at expiry. */
  function Forward(tree: Tree, i: nat, j: nat): real
    requires tree.Valid() && j <= i <= tree.steps
  {
    Pow(tree.Carry(), tree.steps - i) * tree.Spot(i, j) - tree.strike * Pow(tree.df, tree.steps - i)
  }

  lemma ForwardSteps(tree: Tree, i: nat, j: nat)
    requires tree.Valid() && j <= i < tree.steps
    ensures tree.Continuation(Forward(tree, i + 1, j + 1), Forward(tree, i + 1, j)) == Forward(tree, i, j)
  {
    hide Tree.Spot, Tree.Up, Tree.Continuation, Tree.Carry;
    var n := tree.steps - i - 1;
    assert tree.steps - (i + 1) == n && tree.steps - i == n + 1;
    ContinuationOfForward(tree, i, j, Pow(tree.Carry(), n), tree.strike * Pow(tree.df, n),
      Forward(tree, i + 1, j + 1), Forward(tree, i + 1, j));
    ForwardAlgebraStep(tree.Carry(), tree.df, n, tree.Spot(i, j), tree.strike);
  }

  lemma ForwardAlgebraStep(carry: real, df: real, n: nat, s: real, k: real)
    ensures carry * Pow(carry, n) * s - df * (k * Pow(df, n)) == Pow(carry, n + 1) * s - k * Pow(df, n + 1)
  {
    assert df * (k * Pow(df, n)) == k * (df * Pow(df, n));
  }

  /** European call minus put is the discounted forward, at every node and for every probability. */
  lemma {:induction false} PutCallParity(tree: Tree, i: nat, j: nat)
    requires tree.Valid() && j <= i <= tree.steps
    ensures tree.Value(Call, European, i, j) - tree.Value(Put, European, i, j) == Forward(tree, i, j)
    decreases tree.steps - i
  {
    if i < tree.steps {
      hide Tree.Spot, Tree.Up, Tree.Continuation, Forward;
      PutCallParity(tree, i + 1, j + 1);
      PutCallParity(tree, i + 1, j);
      ContinuationLinear(tree,
        tree.Value(Call, European, i + 1, j + 1), tree.Value(Call, European, i + 1, j),
        tree.Value(Put, European, i + 1, j + 1), tree.Value(Put, European, i + 1, j));
      ForwardSteps(tree, i, j);
    } else {
      ForwardAtExpiry(tree, j);
    }
  }

  lemma ForwardAtExpiry(tree: Tree, j: nat)
    requires tree.Valid() && j <= tree.steps
    ensures Forward(tree, tree.steps, j) == tree.Spot(tree.steps, j) - tree.strike
  {
    hide Tree.Spot;
  }

  lemma ContinuationLinear(tree: Tree, up: real, down: real, up': real, down': real)
    requires tree.Valid()
    ensures tree.Continuation(up, down) - tree.Continuation(up', down')
         == tree.Continuation(up - up', down - down')
  {
    var p := tree.Up();
    var x, y := p * up + (1.0 - p) * down, p * up' + (1.0 - p) * down';
    assert p * (up - up') + (1.0 - p) * (down - down') == x - y;
    assert tree.df * (x - y) == tree.df * x - tree.df * y;
  }

  // ----- The binomial formula -----

  function Choose(n: nat, k: nat): nat {
    if k == 0 then 1 else if n == 0 then 0 else Choose(n - 1, k - 1) + Choose(n - 1, k)
  }

  lemma {:induction false} ChooseBeyond(n: nat, k: nat)
    requires k > n
    ensures Choose(n, k) == 0
  {
    if n == 0 {
    } else {
      ChooseBeyond(n - 1, k - 1);
      ChooseBeyond(n - 1, k);
    }
  }

  /** Probability of k up moves in n steps. */
  function Weight(p: real, n: nat, k: nat): real {
    if k > n then 0.0 else Choose(n, k) as real * Pow(p, k) * Pow(1.0 - p, n - k)
  }

  /** Payoff at expiry as a function of the number of up moves. */
  function Payoffs(tree: Tree, kind: OptionType): nat -> real
    requires tree.Valid()
  {
    (k: nat) => if k <= tree.steps then tree.Intrinsic(kind, tree.Spot(tree.steps, k)) else 0.0
  }

  /** The first m terms of the binomial average of `f`, started at index j. */
  function WeightedSum(p: real, n: nat, f: nat -> real, j: nat, m: nat): real {
    if m == 0 then 0.0 else WeightedSum(p, n, f, j, m - 1) + Weight(p, n, m - 1) * f(j + m - 1)
  }

  /** Average over n steps of the payoffs from index j on. */
  function BinomialAverage(p: real, n: nat, f: nat -> real, j: nat): real {
    WeightedSum(p, n, f, j, n + 1)
  }

  lemma WeightBeyond(p: real, n: nat, k: nat)
    requires k > n
    ensures Weight(p, n, k) == 0.0
  {
  }

  lemma WeightPascal(p: real, n: nat, k: nat)
    ensures Weight(p, n + 1, k)
         == (if k == 0 then 0.0 else p * Weight(p, n, k - 1)) + (1.0 - p) * Weight(p, n, k)
  {
    var q := 1.0 - p;
    ChooseBeyond(n, n + 1);
    if k <= n {
      assert n + 1 - k == (n - k) + 1;
      var pk, qnk := Pow(p, k), Pow(q, n - k);
      assert Pow(q, n + 1 - k) == q * qnk;
      var c := Choose(n, k) as real;
      assert c * pk * (q * qnk) == q * (c * pk * qnk);
      if k > 0 {
        var c' := Choose(n, k - 1) as real;
        assert n - (k - 1) == n + 1 - k;
        assert c' * (p * Pow(p, k - 1)) * (q * qnk) == p * (c' * Pow(p, k - 1) * (q * qnk));
        assert (c' + c) * pk * (q * qnk) == c' * pk * (q * qnk) + c * pk * (q * qnk);
      }
    } else if k == n + 1 {
      var c' := Choose(n, n) as real;
      assert c' * (p * Pow(p, n)) * 1.0 == p * (c' * Pow(p, n) * 1.0);
    }
  }

  lemma {:induction false} WeightedSumSplits(p: real, n: nat, f: nat -> real, j: nat, m: nat)
    ensures WeightedSum(p, n + 1, f, j, m + 1)
         == p * WeightedSum(p, n, f, j + 1, m) + (1.0 - p) * WeightedSum(p, n, f, j, m + 1)
  {
    hide Weight;
    WeightPascal(p, n, m);
    if m == 0 {
      SplitAlgebra(p, 0.0, Weight(p, n, 0), f(j), 0.0, 0.0, Weight(p, n + 1, 0));
    } else {
      WeightedSumSplits(p, n, f, j, m - 1);
      assert j + 1 + m - 1 == j + m;
      SplitAlgebra(p, Weight(p, n, m - 1), Weight(p, n, m), f(j + m),
        WeightedSum(p, n, f, j + 1, m - 1), WeightedSum(p, n, f, j, m), Weight(p, n + 1, m));
    }
  }

  lemma SplitAlgebra(p: real, w1: real, w: real, f: real, up: real, down: real, total: real)
    requires total == p * w1 + (1.0 - p) * w
    ensures p * up + (1.0 - p) * down + total * f == p * (up + w1 * f) + (1.0 - p) * (down + w * f)
  {
    assert total * f == p * (w1 * f) + (1.0 - p) * (w * f);
  }

  lemma AverageSplits(p: real, n: nat, f: nat -> real, j: nat)
    ensures BinomialAverage(p, n + 1, f, j) == p * BinomialAverage(p, n, f, j + 1) + (1.0 - p) * BinomialAverage(p, n, f, j)
  {
    WeightedSumSplits(p, n, f, j, n + 1);
    WeightBeyond(p, n, n + 1);
    assert WeightedSum(p, n, f, j, n + 2) == WeightedSum(p, n, f, j, n + 1) + Weight(p, n, n + 1) * f(j + n + 1);
  }

  /** Discounted binomial average of the terminal payoffs below (i, j). */
  function DiscountedAverage(tree: Tree, kind: OptionType, i: nat, j: nat): real
    requires tree.Valid() && j <= i <= tree.steps
  {
    Pow(tree.df, tree.steps - i) * BinomialAverage(tree.Up(), tree.steps - i, Payoffs(tree, kind), j)
  }

  lemma DiscountedAverageSteps(tree: Tree, kind: OptionType, i: nat, j: nat)
    requires tree.Valid() && j <= i < tree.steps
    ensures tree.Continuation(DiscountedAverage(tree, kind, i + 1, j + 1), DiscountedAverage(tree, kind, i + 1, j))
         == DiscountedAverage(tree, kind, i, j)
  {
    hide Tree.Up, Payoffs, BinomialAverage;
    var n, f := tree.steps - i - 1, Payoffs(tree, kind);
    assert tree.steps - (i + 1) == n && tree.steps - i == n + 1;
    AverageSplits(tree.Up(), n, f, j);
    AverageAlgebra(tree.df, tree.Up(), Pow(tree.df, n),
      BinomialAverage(tree.Up(), n, f, j + 1), BinomialAverage(tree.Up(), n, f, j),
      DiscountedAverage(tree, kind, i + 1, j + 1), DiscountedAverage(tree, kind, i + 1, j));
  }

  lemma DiscountedAverageAtExpiry(tree: Tree, kind: OptionType, j: nat)
    requires tree.Valid() && j <= tree.steps
    ensures DiscountedAverage(tree, kind, tree.steps, j) == tree.Intrinsic(kind, tree.Spot(tree.steps, j))
  {
    hide Tree.Up, Tree.Spot, Tree.Intrinsic, BinomialAverage;
    NoStepsAverage(tree.Up(), Payoffs(tree, kind), j);
  }

  /** The European value of every node is the discounted binomial average of the payoffs below it. */
  lemma {:induction false} EuropeanIsBinomialAverage(tree: Tree, kind: OptionType, i: nat, j: nat)
    requires tree.Valid() && j <= i <= tree.steps
    ensures tree.Value(kind, European, i, j) == DiscountedAverage(tree, kind, i, j)
    decreases tree.steps - i
  {
    hide Tree.Spot, Tree.Up, Tree.Intrinsic, Tree.Continuation, DiscountedAverage;
    if i < tree.steps {
      EuropeanIsBinomialAverage(tree, kind, i + 1, j + 1);
      EuropeanIsBinomialAverage(tree, kind, i + 1, j);
      DiscountedAverageSteps(tree, kind, i, j);
    } else {
      DiscountedAverageAtExpiry(tree, kind, j);
    }
  }

  lemma NoStepsAverage(p: real, f: nat -> real, j: nat)
    ensures BinomialAverage(p, 0, f, j) == f(j)
  {
    assert WeightedSum(p, 0, f, j, 1) == WeightedSum(p, 0, f, j, 0) + Weight(p, 0, 0) * f(j);
  }

  lemma AverageAlgebra(df: real, p: real, g: real, x: real, y: real, up: real, down: real)
    requires up == g * x && down == g * y
    ensures df * (p * up + (1.0 - p) * down) == (df * g) * (p * x + (1.0 - p) * y)
  {
    assert p * up + (1.0 - p) * down == g * (p * x + (1.0 - p) * y);
  }

  // ----- Prices from the inputs alone -----

  /** Price of the underlying after k up moves in n. */
  function Moved(spot: real, u: real, k: nat, n: nat): real
    requires u > 0.0 && k <= n
  {
    spot * Pow(u, k) * Pow(1.0 / u, n - k)
  }

  /** What an option pays at expiry. */
  function Paid(kind: OptionType, s: real, strike: real): real {
    match kind
    case Call => if s > strike then s - strike else 0.0
    case Put => if strike > s then strike - s else 0.0
  }

  /** The probability of an up move under which one step grows by `growth`. */
  function FairUp(u: real, growth: real): real
    requires u > 0.0 && u != 1.0
  {
    InverseDiffers(u);
    (growth - 1.0 / u) / (u - 1.0 / u)
  }

  function PaidAfter(kind: OptionType, spot: real, strike: real, u: real, n: nat): nat -> real
    requires u > 0.0
  {
    (k: nat) => if k <= n then Paid(kind, Moved(spot, u, k, n), strike) else 0.0
  }

  /** The discounted binomial average of what is paid after n steps. */
  function BinomialPrice(kind: OptionType, spot: real, strike: real, u: real, df: real, growth: real, n: nat): real
    requires u > 0.0 && u != 1.0
  {
    Pow(df, n) * WeightedSum(FairUp(u, growth), n, PaidAfter(kind, spot, strike, u, n), 0, n + 1)
  }

  lemma {:induction false} SameSum(p: real, n: nat, f: nat -> real, g: nat -> real, j: nat, m: nat)
    requires forall k: nat :: f(k) == g(k)
    ensures WeightedSum(p, n, f, j, m) == WeightedSum(p, n, g, j, m)
  {
    hide Weight;
    if m == 0 {
    } else {
      SameSum(p, n, f, g, j, m - 1);
    }
  }

  lemma SpotIsMoved(tree: Tree, i: nat, j: nat)
    requires tree.Valid() && j <= i
    ensures tree.Spot(i, j) == Moved(tree.spot, tree.u, j, i)
  {
    hide Pow;
  }

  lemma IntrinsicIsPaid(tree: Tree, kind: OptionType, s: real)
    ensures tree.Intrinsic(kind, s) == Paid(kind, s, tree.strike)
  {
  }

  lemma UpIsFairUp(tree: Tree)
    requires tree.Valid()
    ensures tree.Up() == FairUp(tree.u, tree.growth)
  {
  }

  /** The European price is the discounted binomial average, in the inputs alone. */
  lemma EuropeanPrice(tree: Tree, kind: OptionType)
    requires tree.Valid()
    ensures tree.Value(kind, European, 0, 0)
         == BinomialPrice(kind, tree.spot, tree.strike, tree.u, tree.df, tree.growth, tree.steps)
  {
    hide Pow, Tree.Up, Tree.Spot, Tree.Intrinsic, Moved, Paid, FairUp, WeightedSum, Tree.Value;
    EuropeanIsBinomialAverage(tree, kind, 0, 0);
    UpIsFairUp(tree);
    var f, g := Payoffs(tree, kind), PaidAfter(kind, tree.spot, tree.strike, tree.u, tree.steps);
    forall k: nat
      ensures f(k) == g(k)
    {
      if k <= tree.steps {
        SpotIsMoved(tree, tree.steps, k);
        IntrinsicIsPaid(tree, kind, tree.Spot(tree.steps, k));
      }
    }
    SameSum(tree.Up(), tree.steps, f, g, 0, tree.steps + 1);
  }

  /** Put-call parity of the European prices, in the inputs alone. */
  lemma PriceParity(tree: Tree)
    requires tree.Valid()
    ensures tree.Value(Call, European, 0, 0) - tree.Value(Put, European, 0, 0)
         == Pow(tree.df * tree.growth, tree.steps) * tree.spot - tree.strike * Pow(tree.df, tree.steps)
  {
    PutCallParity(tree, 0, 0);
    RootSpot(tree);
    hide Tree.Value, Pow, Tree.Spot;
    var n: nat := tree.steps - 0;
    assert n == tree.steps && tree.Carry() == tree.df * tree.growth;
    assert Forward(tree, 0, 0) == Pow(tree.Carry(), n) * tree.spot - tree.strike * Pow(tree.df, n);
  }

  lemma RootSpot(tree: Tree)
    requires tree.Valid()
    ensures tree.Spot(0, 0) == tree.spot
  {
    assert Pow(tree.u, 0) == 1.0 && Pow(tree.Down(), 0) == 1.0;
    hide Pow;
  }

  // ----- American values are the least -----

  /** The discounted average of two values. */
  function FairAverage(df: real, p: real, up: real, down: real): real {
    df * (p * up + (1.0 - p) * down)
  }

  /** At one node a process covers what exercising pays and its own discounted average. */
  ghost predicate CoversAt(tree: Tree, kind: OptionType, w: (nat, nat) -> real, i: nat, j: nat)
    requires tree.Valid() && j <= i
  {
    && w(i, j) >= Paid(kind, Moved(tree.spot, tree.u, j, i), tree.strike)
    && (i < tree.steps ==>
          w(i, j) >= FairAverage(tree.df, FairUp(tree.u, tree.growth), w(i + 1, j + 1), w(i + 1, j)))
  }

  lemma ContinuationIsFair(tree: Tree, up: real, down: real)
    requires tree.Valid()
    ensures tree.Continuation(up, down) == FairAverage(tree.df, FairUp(tree.u, tree.growth), up, down)
  {
  }

  ghost predicate Covers(tree: Tree, kind: OptionType, w: (nat, nat) -> real)
    requires tree.Valid()
  {
    forall i: nat, j: nat :: j <= i <= tree.steps ==> CoversAt(tree, kind, w, i, j)
  }

  function AmericanProcess(tree: Tree, kind: OptionType): (nat, nat) -> real
    requires tree.Valid()
  {
    (i: nat, j: nat) => if j <= i <= tree.steps then tree.Value(kind, American, i, j) else 0.0
  }

  /** The American values cover what exercising pays and their own discounted average. */
  lemma AmericanCovers(tree: Tree, kind: OptionType)
    requires tree.Valid()
    ensures Covers(tree, kind, AmericanProcess(tree, kind))
  {
    hide Pow, Tree.Spot, Tree.Intrinsic, Moved, Paid, Tree.Up, FairUp, FairAverage, Tree.Continuation;
    var w := AmericanProcess(tree, kind);
    forall i: nat, j: nat | j <= i <= tree.steps
      ensures CoversAt(tree, kind, w, i, j)
    {
      SpotIsMoved(tree, i, j);
      IntrinsicIsPaid(tree, kind, tree.Spot(i, j));
      ContinuationIsFair(tree, w(i + 1, j + 1), w(i + 1, j));
    }
  }

  /** They are the least values that do: no process that covers both is lower at any node. */
  lemma {:induction false} AmericanIsLeast(tree: Tree, kind: OptionType, w: (nat, nat) -> real, i: nat, j: nat)
    requires tree.Valid() && tree.GrowthBetweenMoves() && j <= i <= tree.steps && Covers(tree, kind, w)
    ensures tree.Value(kind, American, i, j) <= w(i, j)
    decreases tree.steps - i
  {
    hide Pow, Tree.Spot, Tree.Intrinsic, Moved, Paid, FairUp, FairAverage, Tree.Continuation, Covers, Tree.GrowthBetweenMoves;
    SpotIsMoved(tree, i, j);
    IntrinsicIsPaid(tree, kind, tree.Spot(i, j));
    CoversNode(tree, kind, w, i, j);
    if i == tree.steps {
    } else {
      ContinuationIsFair(tree, w(i + 1, j + 1), w(i + 1, j));
      AmericanIsLeast(tree, kind, w, i + 1, j + 1);
      AmericanIsLeast(tree, kind, w, i + 1, j);
      ContinuationMonotone(tree, tree.Value(kind, American, i + 1, j + 1), tree.Value(kind, American, i + 1, j),
        w(i + 1, j + 1), w(i + 1, j));
    }
  }

  lemma CoversNode(tree: Tree, kind: OptionType, w: (nat, nat) -> real, i: nat, j: nat)
    requires tree.Valid() && Covers(tree, kind, w) && j <= i <= tree.steps
    ensures CoversAt(tree, kind, w, i, j)
  {
  }
}
