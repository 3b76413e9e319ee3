/** The calculator on integers: how large its numbers can grow before a guard stops it. */
module Evaluator {
  const MAX_EXPONENT := 512
  const MAX_RESULT_BITS := 8192

  datatype Operator = Add | Sub | Mult | FloorDiv | Mod | Div | Pow

  datatype Expr =
    | Literal(value: int)
    | Negated(operand: Expr)
    | Plus(operand: Expr)
    | Binary(op: Operator, left: Expr, right: Expr)

  datatype Failure = ZeroDivision | ExponentTooLarge | ResultTooLarge

  /** An integer, an error, or a number that is not an integer, where this model ends. */
  datatype Outcome = Value(value: int) | Error(failure: Failure) | NotAnInteger

  // Bits --------------------------------------------------------------------------------

  function Abs(n: int): nat {
    if n < 0 then -n else n
  }

  function Power(b: int, n: nat): int {
    if n == 0 then 1 else b * Power(b, n - 1)
  }

  function Power2(n: nat): (p: nat)
    ensures p > 0
  {
    if n == 0 then 1 else 2 * Power2(n - 1)
  }

  /** `int.bit_length`. */
  function BitLength(n: int): nat
    decreases Abs(n)
  {
    if n == 0 then 0 else 1 + BitLength(Abs(n) / 2)
  }

  /** The bit length is the least number of bits that hold the number. */
  lemma {:induction false} BitLengthExactly(n: int, k: nat)
    ensures BitLength(n) <= k <==> Abs(n) < Power2(k)
    decreases Abs(n), k
  {
    if n != 0 && k > 0 {
      BitLengthExactly(Abs(n) / 2, k - 1);
    }
  }

  lemma {:induction false} Power2Sum(a: nat, b: nat)
    ensures Power2(a + b) == Power2(a) * Power2(b)
  {
    if a > 0 {
      Power2Sum(a - 1, b);
    }
  }

  lemma {:induction false} Power2Grows(a: nat, b: nat)
    requires a <= b
    ensures Power2(a) <= Power2(b)
  {
    if a < b {
      Power2Grows(a, b - 1);
    }
  }

  lemma Product(x: nat, y: nat, a: nat, b: nat)
    requires x < a && y < b
    ensures x * y < a * b
  {
    assert x * y <= x * b;
    assert x * b < a * b;
  }

  lemma AbsProduct(x: int, y: int)
    ensures Abs(x * y) == Abs(x) * Abs(y)
  {
  }

  lemma ProductBits(x: int, y: int)
    ensures BitLength(x * y) <= BitLength(x) + BitLength(y)
  {
    hide BitLength, Power2;
    var a, b := BitLength(x), BitLength(y);
    BitLengthExactly(x, a);
    BitLengthExactly(y, b);
    AbsProduct(x, y);
    Product(Abs(x), Abs(y), Power2(a), Power2(b));
    Power2Sum(a, b);
    BitLengthExactly(x * y, a + b);
  }

  lemma {:induction false} PowerBits(x: int, n: nat)
    requires n > 0
    ensures BitLength(Power(x, n)) <= BitLength(x) * n
  {
    if n == 1 {
      assert Power(x, 1) == x * Power(x, 0) == x;
    } else {
      PowerBits(x, n - 1);
      ProductBits(x, Power(x, n - 1));
      assert BitLength(x) * n == BitLength(x) + BitLength(x) * (n - 1);
    }
  }

  lemma SmallerBits(x: int, y: int)
    requires Abs(x) <= Abs(y)
    ensures BitLength(x) <= BitLength(y)
  {
    hide BitLength, Power2;
    BitLengthExactly(y, BitLength(y));
    BitLengthExactly(x, BitLength(y));
  }

  lemma SumBits(x: int, y: int, k: nat)
    requires BitLength(x) <= k && BitLength(y) <= k
    ensures BitLength(x + y) <= k + 1
  {
    hide BitLength;
    BitLengthExactly(x, k);
    BitLengthExactly(y, k);
    assert Power2(k + 1) == 2 * Power2(k);
    BitLengthExactly(x + y, k + 1);
  }

  // Arithmetic --------------------------------------------------------------------------

  /** Python's floor division; Dafny's rounds down only for a positive divisor. */
  function Floor(a: int, b: int): (q: int)
    requires b != 0
  {
    if b > 0 then a / b else (-a) / (-b)
  }

  /** Rounded down: the remainder has the sign of the divisor and is smaller. */
  lemma FloorIsFloor(a: int, b: int)
    requires b != 0
    ensures
      var r := a - b * Floor(a, b);
      (if b > 0 then 0 <= r < b else b < r <= 0)
    ensures Abs(Floor(a, b)) <= Abs(a)
  {
    var x, y := if b > 0 then a else -a, Abs(b);
    Quotient(x, y);
    assert b * Floor(a, b) == if b > 0 then y * (x / y) else -(y * (x / y));
  }

  lemma {:induction false} TimesAtLeast(y: int, m: int)
    requires y >= 1
    ensures if m <= 0 then y * m <= m else y * m >= m
    decreases y
  {
    if y > 1 {
      TimesAtLeast(y - 1, m);
      assert y * m == (y - 1) * m + m;
    }
  }

  lemma Quotient(x: int, y: int)
    requires y > 0
    ensures x == y * (x / y) + x % y && Abs(x / y) <= Abs(x)
  {
    var q := x / y;
    TimesAtLeast(y, q);
    TimesAtLeast(y, q + 1);
    assert y * (q + 1) == y * q + y;
  }

  // Evaluation --------------------------------------------------------------------------

  function Raise(left: int, right: int): Outcome {
    if Abs(right) > MAX_EXPONENT then Error(ExponentTooLarge)
    else if right > 0 && BitLength(left) * right > MAX_RESULT_BITS then Error(ResultTooLarge)
    else if right < 0 then if left == 0 then Error(ZeroDivision) else NotAnInteger
    else Value(Power(left, right))
  }

  /** What an operation computes, before its size is checked. */
  function Apply(op: Operator, left: int, right: int): Outcome {
    match op
    case Add => Value(left + right)
    case Sub => Value(left - right)
    case Mult => Value(left * right)
    case FloorDiv => if right == 0 then Error(ZeroDivision) else Value(Floor(left, right))
    case Mod => if right == 0 then Error(ZeroDivision) else Value(left - right * Floor(left, right))
    case Div => if right == 0 then Error(ZeroDivision) else NotAnInteger
    case Pow => Raise(left, right)
  }

  /** The outcome, the results of the sub-expressions in the order they were had, and every number
      an operation computed, checked or not. */
  datatype Report = Report(outcome: Outcome, results: seq<int>, computed: seq<int>)

  function Eval(e: Expr): Report {
    match e
    case Literal(n) => Report(Value(n), [n], [])
    case Plus(x) => Eval(x)
    case Negated(x) =>
      var r := Eval(x);
      if !r.outcome.Value? then r
      else Report(Value(-r.outcome.value), r.results + [-r.outcome.value], r.computed + [-r.outcome.value])
    case Binary(op, x, y) =>
      var a := Eval(x);
      if !a.outcome.Value? then a
      else
        var b := Eval(y);
        var results, computed := a.results + b.results, a.computed + b.computed;
        if !b.outcome.Value? then Report(b.outcome, results, computed)
        else
          var c := Apply(op, a.outcome.value, b.outcome.value);
          if !c.Value? then Report(c, results, computed)
          else if BitLength(c.value) > MAX_RESULT_BITS then Report(Error(ResultTooLarge), results, computed + [c.value])
          else Report(c, results + [c.value], computed + [c.value])
  }

  function Literals(e: Expr): seq<int> {
    match e
    case Literal(n) => [n]
    case Negated(x) => Literals(x)
    case Plus(x) => Literals(x)
    case Binary(_, x, y) => Literals(x) + Literals(y)
  }

  predicate AllFit(ns: seq<int>, bits: nat) {
    forall i :: 0 <= i < |ns| ==> BitLength(ns[i]) <= bits
  }

  /** The check before a power is sound: no power that is computed is too large. */
  lemma PowerNeverTooLarge(left: int, right: int)
    ensures Raise(left, right).Value? ==> BitLength(Raise(left, right).value) <= MAX_RESULT_BITS
  {
    if 0 < right <= MAX_EXPONENT {
      PowerBits(left, right);
    }
    assert Power(left, 0) == 1;
    hide Power;
    BitLengthExactly(1, 1);
  }

  /** It is not complete: this power is refused, and would fit. */
  lemma PowerRefusedThoughItFits()
    ensures Raise(65536, 482) == Error(ResultTooLarge)
    ensures BitLength(Power(65536, 482)) <= MAX_RESULT_BITS
  {
    assert Power2(8) == 256;
    assert Power2(7713) == 2 * Power2(7712);
    Power2Sum(8, 8);
    hide Power2;
    BitLengthExactly(65536, 16);
    PowerOfPower2(16, 482);
    hide BitLength, Power;
    BitLengthExactly(Power(65536, 482), 7713);
  }

  /** The check before a power is right about this one: it is refused exactly if it does not fit. */
  ghost predicate RightlyChecked(left: int, right: int) {
    Raise(left, right) == Error(ResultTooLarge) <==>
      BitLength(Power(left, if right < 0 then 0 else right)) > MAX_RESULT_BITS
  }

  lemma {:induction false} PowerAtLeast(x: int, k: nat, n: nat)
    requires Abs(x) >= Power2(k)
    ensures Abs(Power(x, n)) >= Power2(k * n)
  {
    if n > 0 {
      PowerAtLeast(x, k, n - 1);
      var rest := Power(x, n - 1);
      AbsProduct(x, rest);
      Power2Sum(k, k * (n - 1));
      assert k + k * (n - 1) == k * n;
      NoLess(Abs(x), Abs(rest), Power2(k), Power2(k * (n - 1)));
    }
  }

  lemma NoLess(x: nat, y: nat, a: nat, b: nat)
    requires x >= a && y >= b
    ensures x * y >= a * b
  {
    assert x * y >= x * b;
    assert x * b >= a * b;
  }

  lemma BitsOfPower2(k: nat)
    ensures BitLength(Power2(k)) == k + 1
  {
    assert Power2(k + 1) == 2 * Power2(k);
    hide BitLength, Power2;
    BitLengthExactly(Power2(k), k);
    BitLengthExactly(Power2(k), k + 1);
  }

  /** For the bases of `b` bits and an exponent that is small enough: the check is right about all of
      them if and only if it accepts them all, or even the least of them is too large. */
  lemma PowerCheckExactly(b: nat, right: nat)
    requires 0 < right <= MAX_EXPONENT
    ensures
      (forall x :: BitLength(x) == b ==> RightlyChecked(x, right))
      <==> b * right <= MAX_RESULT_BITS || (b - 1) * right >= MAX_RESULT_BITS
  {
    hide BitLength, Power, Power2;
    if b * right <= MAX_RESULT_BITS {
      forall x | BitLength(x) == b ensures RightlyChecked(x, right) {
        PowerBits(x, right);
      }
    } else if (b - 1) * right >= MAX_RESULT_BITS {
      forall x | BitLength(x) == b ensures RightlyChecked(x, right) {
        BitLengthExactly(x, b - 1);
        PowerAtLeast(x, b - 1, right);
        Power2Grows(MAX_RESULT_BITS, (b - 1) * right);
        BitLengthExactly(Power(x, right), MAX_RESULT_BITS);
      }
    } else {
      assert b > 0;
      var least := Power2(b - 1);
      BitsOfPower2(b - 1);
      PowerOfPower2(b - 1, right);
      BitsOfPower2((b - 1) * right);
      assert !RightlyChecked(least, right);
    }
  }

  lemma {:induction false} PowerOfPower2(k: nat, n: nat)
    ensures Power(Power2(k), n) == Power2(k * n)
  {
    if n > 0 {
      PowerOfPower2(k, n - 1);
      Power2Sum(k, k * (n - 1));
      assert k + k * (n - 1) == k * n;
    }
  }

  /** One operation on numbers of at most 8192 bits computes at most twice as many. */
  lemma ApplyBits(op: Operator, left: int, right: int)
    requires BitLength(left) <= MAX_RESULT_BITS && BitLength(right) <= MAX_RESULT_BITS
    ensures Apply(op, left, right).Value? ==> BitLength(Apply(op, left, right).value) <= 2 * MAX_RESULT_BITS
  {
    hide BitLength, Raise, Floor;
    match op
    case Add => SumBits(left, right, MAX_RESULT_BITS);
    case Sub =>
      SmallerBits(-right, right);
      SumBits(left, -right, MAX_RESULT_BITS);
    case Mult => ProductBits(left, right);
    case FloorDiv =>
      if right != 0 {
        FloorIsFloor(left, right);
        SmallerBits(Floor(left, right), left);
      }
    case Mod =>
      if right != 0 {
        FloorIsFloor(left, right);
        SmallerBits(left - right * Floor(left, right), right);
      }
    case Div =>
    case Pow => PowerNeverTooLarge(left, right);
  }

  lemma FitConcat(a: seq<int>, b: seq<int>, bits: nat)
    requires AllFit(a, bits) && AllFit(b, bits)
    ensures AllFit(a + b, bits)
  {
    hide BitLength;
  }

  lemma FitParts(a: seq<int>, b: seq<int>, bits: nat)
    requires AllFit(a + b, bits)
    ensures AllFit(a, bits) && AllFit(b, bits)
  {
    hide BitLength;
    forall i | 0 <= i < |a| ensures BitLength(a[i]) <= bits {
      assert (a + b)[i] == a[i];
    }
    forall i | 0 <= i < |b| ensures BitLength(b[i]) <= bits {
      assert (a + b)[|a| + i] == b[i];
    }
  }

  /** From literals of at most 8192 bits every sub-result has at most 8192 bits, and nothing that
      is computed on the way has more than 16384. */
  lemma {:induction false} EvalBounded(e: Expr)
    requires AllFit(Literals(e), MAX_RESULT_BITS)
    ensures AllFit(Eval(e).results, MAX_RESULT_BITS)
    ensures AllFit(Eval(e).computed, 2 * MAX_RESULT_BITS)
    ensures Eval(e).outcome.Value? ==> BitLength(Eval(e).outcome.value) <= MAX_RESULT_BITS
  {
    hide BitLength, Apply, AllFit;
    match e
    case Literal(n) =>
      LiteralFits(n, MAX_RESULT_BITS);
      NoneFit(2 * MAX_RESULT_BITS);
    case Plus(x) => EvalBounded(x);
    case Negated(x) =>
      EvalBounded(x);
      var r := Eval(x);
      if r.outcome.Value? {
        SmallerBits(-r.outcome.value, r.outcome.value);
        OneFits(-r.outcome.value, MAX_RESULT_BITS);
        OneFits(-r.outcome.value, 2 * MAX_RESULT_BITS);
        FitConcat(r.results, [-r.outcome.value], MAX_RESULT_BITS);
        FitConcat(r.computed, [-r.outcome.value], 2 * MAX_RESULT_BITS);
      }
    case Binary(op, x, y) =>
      FitParts(Literals(x), Literals(y), MAX_RESULT_BITS);
      EvalBounded(x);
      EvalBounded(y);
      BinaryBounded(op, x, y);
  }

  lemma LiteralFits(n: int, bits: nat)
    requires AllFit([n], bits)
    ensures BitLength(n) <= bits
  {
    hide BitLength;
    assert [n][0] == n;
  }

  lemma NoneFit(bits: nat)
    ensures AllFit([], bits)
  {
  }

  lemma OneFits(n: int, bits: nat)
    requires BitLength(n) <= bits
    ensures AllFit([n], bits)
  {
  }

  lemma BinaryBounded(op: Operator, x: Expr, y: Expr)
    requires AllFit(Eval(x).results, MAX_RESULT_BITS) && AllFit(Eval(x).computed, 2 * MAX_RESULT_BITS)
    requires AllFit(Eval(y).results, MAX_RESULT_BITS) && AllFit(Eval(y).computed, 2 * MAX_RESULT_BITS)
    requires Eval(x).outcome.Value? ==> BitLength(Eval(x).outcome.value) <= MAX_RESULT_BITS
    requires Eval(y).outcome.Value? ==> BitLength(Eval(y).outcome.value) <= MAX_RESULT_BITS
    ensures
      var r := Eval(Binary(op, x, y));
      && AllFit(r.results, MAX_RESULT_BITS) && AllFit(r.computed, 2 * MAX_RESULT_BITS)
      && (r.outcome.Value? ==> BitLength(r.outcome.value) <= MAX_RESULT_BITS)
  {
    hide BitLength, Apply, AllFit;
    var a, b := Eval(x), Eval(y);
    FitConcat(a.results, b.results, MAX_RESULT_BITS);
    FitConcat(a.computed, b.computed, 2 * MAX_RESULT_BITS);
    if a.outcome.Value? && b.outcome.Value? {
      ApplyBits(op, a.outcome.value, b.outcome.value);
      var c := Apply(op, a.outcome.value, b.outcome.value);
      if c.Value? {
        OneFits(c.value, 2 * MAX_RESULT_BITS);
        FitConcat(a.computed + b.computed, [c.value], 2 * MAX_RESULT_BITS);
        if BitLength(c.value) <= MAX_RESULT_BITS {
          OneFits(c.value, MAX_RESULT_BITS);
          FitConcat(a.results + b.results, [c.value], MAX_RESULT_BITS);
        }
      }
    }
  }

  // Exactness ---------------------------------------------------------------------------

  /** A remainder has the divisor's sign and is smaller. */
  ghost predicate Between(r: int, b: int) {
    0 <= r < b || b < r <= 0
  }

  /** The mathematical result of an operation, if it is an integer: no guard, and no function that the
      calculator computes with but the power of a number. */
  ghost predicate Computes(op: Operator, a: int, b: int, m: int) {
    match op
    case Add => m == a + b
    case Sub => m == a - b
    case Mult => m == a * b
    case FloorDiv => exists r :: a == b * m + r && Between(r, b)
    case Mod => Between(m, b) && exists q :: a == b * q + m
    case Div => false
    case Pow => b >= 0 && m == Power(a, b)
  }

  /** Powers follow their law, and the first is the number itself: nothing else does both. */
  lemma {:induction false} PowerLaw(b: int, m: nat, n: nat)
    ensures Power(b, m + n) == Power(b, m) * Power(b, n) && Power(b, 1) == b && Power(b, 0) == 1
  {
    assert Power(b, 1) == b * Power(b, 0);
    if m > 0 {
      PowerLaw(b, m - 1, n);
      var rest, later := Power(b, m - 1), Power(b, n);
      assert b * (rest * later) == b * rest * later;
    }
  }

  /** What an expression means as a number. */
  ghost predicate Means(e: Expr, m: int) {
    match e
    case Literal(n) => m == n
    case Plus(x) => Means(x, m)
    case Negated(x) => Means(x, -m)
    case Binary(op, x, y) => exists a, b :: Means(x, a) && Means(y, b) && Computes(op, a, b, m)
  }

  /** What a guard lets through: a power with a small exponent that passes the check on its base, and
      every other result that fits. */
  ghost predicate LetThrough(op: Operator, a: int, b: int, m: int) {
    if op == Pow then b <= 512 && BitLength(a) * b <= 8192 else BitLength(m) <= 8192
  }

  ghost predicate Guarded(e: Expr) {
    match e
    case Literal(_) => true
    case Plus(x) => Guarded(x)
    case Negated(x) => Guarded(x)
    case Binary(op, x, y) =>
      && Guarded(x) && Guarded(y)
      && forall a, b, m :: Means(x, a) && Means(y, b) && Computes(op, a, b, m) ==> LetThrough(op, a, b, m)
  }

  lemma SameQuotient(b: int, p: int, r: int, q: int, s: int)
    requires b * p + r == b * q + s && Between(r, b) && Between(s, b)
    ensures p == q && r == s
  {
    var d := p - q;
    assert b * d == b * p - b * q == s - r;
    SmallMultiple(b, d);
  }

  /** Only 0 is a multiple of a number and smaller than it. */
  lemma SmallMultiple(b: int, d: int)
    requires Abs(b * d) < Abs(b)
    ensures d == 0
  {
    AbsProduct(b, d);
    if d != 0 {
      NoLess(Abs(b), Abs(d), Abs(b), 1);
    }
  }

  lemma FloorComputes(a: int, b: int, m: int)
    requires b != 0
    ensures m == Floor(a, b) <==> exists r :: a == b * m + r && Between(r, b)
    ensures m == a - b * Floor(a, b) <==> Between(m, b) && exists q :: a == b * q + m
  {
    FloorIsFloor(a, b);
    hide Floor;
    var q := Floor(a, b);
    var r := a - b * q;
    assert a == b * q + r && Between(r, b);
    if s :| a == b * m + s && Between(s, b) {
      SameQuotient(b, m, s, q, r);
    }
    if p :| Between(m, b) && a == b * p + m {
      SameQuotient(b, p, m, q, r);
    }
  }

  /** An operation gives exactly its mathematical result, and a power only past its guard. */
  lemma ApplyExactly(op: Operator, a: int, b: int, m: int)
    ensures Apply(op, a, b) == Value(m) <==>
      Computes(op, a, b, m) && (op == Pow ==> b <= 512 && BitLength(a) * b <= 8192)
  {
    hide Floor, Power, BitLength;
    if (op == FloorDiv || op == Mod) && b != 0 {
      FloorComputes(a, b, m);
    }
  }

  /** A value that is given is what the expression means; and it is given exactly if the expression
      means an integer and everything that goes into it is let through. */
  lemma {:induction false} EvalExact(e: Expr, m: int)
    ensures Eval(e).outcome == Value(m) <==> Means(e, m) && Guarded(e)
  {
    match e
    case Literal(_) =>
    case Plus(x) => EvalExact(x, m);
    case Negated(x) =>
      hide BitLength, Computes, LetThrough;
      EvalExact(x, -m);
    case Binary(op, x, y) =>
      forall a ensures Eval(x).outcome == Value(a) <==> Means(x, a) && Guarded(x) {
        EvalExact(x, a);
      }
      forall b ensures Eval(y).outcome == Value(b) <==> Means(y, b) && Guarded(y) {
        EvalExact(y, b);
      }
      BinaryExact(op, x, y, m);
  }

  lemma BinaryExact(op: Operator, x: Expr, y: Expr, m: int)
    requires forall a :: Eval(x).outcome == Value(a) <==> Means(x, a) && Guarded(x)
    requires forall b :: Eval(y).outcome == Value(b) <==> Means(y, b) && Guarded(y)
    ensures Eval(Binary(op, x, y)).outcome == Value(m) <==> Means(Binary(op, x, y), m) && Guarded(Binary(op, x, y))
  {
    var u, v := Eval(x).outcome, Eval(y).outcome;
    assert u.Value? && v.Value? ==> Apply(Pow, u.value, v.value) == Raise(u.value, v.value);
    hide BitLength, Apply, Computes, Raise;
    if u.Value? && v.Value? {
      forall n ensures Apply(op, u.value, v.value) == Value(n) <==>
        Computes(op, u.value, v.value, n)
        && (op == Pow ==> v.value <= MAX_EXPONENT && BitLength(u.value) * v.value <= MAX_RESULT_BITS)
      {
        ApplyExactly(op, u.value, v.value, n);
      }
      if op == Pow {
        PowerNeverTooLarge(u.value, v.value);
      }
    }
  }

  // Failures ----------------------------------------------------------------------------

  /** An operation on two integers fails: on a divisor that is zero, also that of a negative power of
      zero; on an exponent beyond the limit, which comes first; or on a result that is refused. */
  ghost predicate Stops(op: Operator, a: int, b: int, why: Failure) {
    match why
    case ZeroDivision =>
      (b == 0 && (op == FloorDiv || op == Mod || op == Div)) || (op == Pow && a == 0 && -512 <= b < 0)
    case ExponentTooLarge => op == Pow && (b < -512 || b > 512)
    case ResultTooLarge =>
      if op == Pow then 0 < b <= 512 && BitLength(a) * b > 8192
      else exists m :: Computes(op, a, b, m) && BitLength(m) > 8192
  }

  ghost predicate Yields(e: Expr, m: int) {
    Means(e, m) && Guarded(e)
  }

  /** The first failure, with the left operand before the right one. */
  ghost predicate Breaks(e: Expr, why: Failure) {
    match e
    case Literal(_) => false
    case Plus(x) => Breaks(x, why)
    case Negated(x) => Breaks(x, why)
    case Binary(op, x, y) =>
      || Breaks(x, why)
      || exists a :: Yields(x, a) && (Breaks(y, why) || exists b :: Yields(y, b) && Stops(op, a, b, why))
  }

  lemma ApplyFails(op: Operator, a: int, b: int, why: Failure)
    ensures Stops(op, a, b, why) <==>
      var r := Apply(op, a, b);
      r == Error(why) || (why == ResultTooLarge && r.Value? && BitLength(r.value) > MAX_RESULT_BITS)
  {
    var r := Apply(op, a, b);
    if op == Pow {
      PowerNeverTooLarge(a, b);
    } else {
      forall m ensures r == Value(m) <==> Computes(op, a, b, m) {
        ApplyExactly(op, a, b, m);
      }
    }
    hide Computes, Power, Floor, BitLength;
  }

  /** An error is given exactly for the first failure. */
  lemma {:induction false} EvalFailsExactly(e: Expr, why: Failure)
    ensures Eval(e).outcome == Error(why) <==> Breaks(e, why)
  {
    hide BitLength, Means, Guarded, Stops, Apply;
    match e
    case Literal(_) =>
    case Plus(x) => EvalFailsExactly(x, why);
    case Negated(x) => EvalFailsExactly(x, why);
    case Binary(op, x, y) =>
      EvalFailsExactly(x, why);
      EvalFailsExactly(y, why);
      forall a ensures Eval(x).outcome == Value(a) <==> Yields(x, a) {
        EvalExact(x, a);
      }
      forall b ensures Eval(y).outcome == Value(b) <==> Yields(y, b) {
        EvalExact(y, b);
      }
      if Eval(x).outcome.Value? && Eval(y).outcome.Value? {
        ApplyFails(op, Eval(x).outcome.value, Eval(y).outcome.value, why);
      }
  }

  ghost predicate Within(d: Expr, e: Expr) {
    d == e ||
    match e
    case Literal(_) => false
    case Plus(x) => Within(d, x)
    case Negated(x) => Within(d, x)
    case Binary(_, x, y) => Within(d, x) || Within(d, y)
  }

  /** The results are those of all sub-expressions. */
  lemma {:induction false} ResultsOfAll(d: Expr, e: Expr)
    requires Within(d, e) && Eval(e).outcome.Value?
    ensures Eval(d).outcome.Value? && Eval(d).outcome.value in Eval(e).results
  {
    hide BitLength, Apply;
    if d == e && d.Plus? {
      ResultsOfAll(d.operand, d.operand);
    } else if d != e {
      match e
      case Plus(x) => ResultsOfAll(d, x);
      case Negated(x) => ResultsOfAll(d, x);
      case Binary(_, x, y) => ResultsOfAll(d, if Within(d, x) then x else y);
    }
  }
}
