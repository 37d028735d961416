/**
  The calculator tool of the tool-use tutorial, in its two calling
  conventions: a positional one taking `a`, `b` and an operator symbol, and a
  structured one taking a single `CalculatorInput` record with the same three
  fields.

  Python integers are unbounded, so `int` is used as it is. The operator is an
  arbitrary string: the `Literal["+", "-", "*", "/"]` annotation is not
  enforced when the function is called, so an unknown symbol reaches the
  final `else` branch and raises `ValueError`. Division is `int(a / b)`:
  true division followed by truncation toward zero, which is modelled as
  exact truncation of the rational quotient (see README.md for the
  floating-point range in which the two agree).
 */
module Calculator {

  /** The two exceptions the calculator can raise. */
  datatype Error =
    | InvalidOperator   // `ValueError("Invalid operator")`
    | DivisionByZero    // `ZeroDivisionError` raised by `a / b` when `b == 0`

  /** A returned value, or the exception that was raised instead. */
  datatype Result<+T> = Ok(value: T) | Err(error: Error)

  /** The four symbols the tool accepts (the `Operator` literal type). */
  const Operators: set<string> := {"+", "-", "*", "/"}

  /** The structured input record: two operands and an operator symbol. */
  datatype CalculatorInput = CalculatorInput(a: int, b: int, operator: string)

  function Abs(x: int): nat
  {
    if x < 0 then -x else x
  }

  /**
    `q` is the quotient of `a` by `b` truncated toward zero: the remainder
    `a - q * b` is smaller than `b` in magnitude and never has the opposite
    sign of `a`. This is an independent description of `int(a / b)`; it does
    not mention how the quotient is computed.
   */
  predicate TruncatedQuotient(a: int, b: int, q: int)
  {
    var rem := a - q * b;
    && Abs(rem) < Abs(b)
    && (a >= 0 ==> rem >= 0)
    && (a <= 0 ==> rem <= 0)
  }

  /**
    Integer division truncating toward zero, written as
    sign(a) * sign(b) * (|a| / |b|) on top of Dafny's Euclidean `/`.
   */
  function TruncDiv(a: int, b: int): (q: int)
    requires b != 0
    ensures TruncatedQuotient(a, b, q)
  {
    var m := Abs(a) / Abs(b);
    TruncDivRemainder(a, b, m);
    if (a < 0) == (b < 0) then m else -m
  }

  /** The remainder left by the truncated quotient, case by case on the signs. */
  lemma TruncDivRemainder(a: int, b: int, m: int)
    requires b != 0 && m == Abs(a) / Abs(b)
    ensures (a < 0) == (b < 0) ==> TruncatedQuotient(a, b, m)
    ensures (a < 0) != (b < 0) ==> TruncatedQuotient(a, b, -m)
  {
    var x, y := Abs(a), Abs(b);
    DivMod(x, y);
    SignedRemainder(a, b, m, x % y);
  }

  /** Euclidean division of a natural number by a positive one. */
  lemma DivMod(x: nat, y: nat)
    requires y > 0
    ensures x == (x / y) * y + x % y && 0 <= x % y < y
  {
  }

  /** From |a| == m * |b| + k, the remainder of `a` by the signed quotient is +k or -k. */
  lemma SignedRemainder(a: int, b: int, m: int, k: int)
    requires b != 0 && Abs(a) == m * Abs(b) + k && 0 <= k < Abs(b)
    ensures (a < 0) == (b < 0) ==> TruncatedQuotient(a, b, m)
    ensures (a < 0) != (b < 0) ==> TruncatedQuotient(a, b, -m)
    ensures a - (if (a < 0) == (b < 0) then m else -m) * b == (if a < 0 then -k else k)
  {
    if b > 0 {
      if a >= 0 {
        assert a - m * b == k;
      } else {
        assert (-m) * b == -(m * b);
        assert a - (-m) * b == -k;
      }
    } else {
      assert m * Abs(b) == -(m * b);
      if a >= 0 {
        assert (-m) * b == -(m * b);
        assert a - (-m) * b == k;
      } else {
        assert a - m * b == -k;
      }
    }
  }

  /** A nonzero multiple of `b` is at least as large as `b` in magnitude. */
  lemma NonzeroMultipleMagnitude(d: int, b: int)
    ensures d != 0 ==> Abs(d * b) >= Abs(b)
  {
  }

  /** The truncated quotient is unique, so `TruncatedQuotient` fixes it. */
  lemma TruncatedQuotientUnique(a: int, b: int, q1: int, q2: int)
    requires b != 0
    requires TruncatedQuotient(a, b, q1) && TruncatedQuotient(a, b, q2)
    ensures q1 == q2
  {
    var r1, r2 := a - q1 * b, a - q2 * b;
    assert r1 - r2 == (q2 - q1) * b;
    assert Abs(r1 - r2) < Abs(b);
    NonzeroMultipleMagnitude(q2 - q1, b);
  }

  /** `TruncDiv` computes exactly the truncated quotient, and nothing else does. */
  lemma TruncDivCharacterized(a: int, b: int, q: int)
    requires b != 0
    ensures TruncatedQuotient(a, b, q) <==> q == TruncDiv(a, b)
  {
    if TruncatedQuotient(a, b, q) {
      TruncatedQuotientUnique(a, b, q, TruncDiv(a, b));
    }
  }

  /**
    Truncation and Dafny's Euclidean division agree exactly when the dividend
    is non-negative or the division is exact; for a negative dividend with a
    remainder they differ (-7 / 2 is -3 here, and -4 in Euclidean
    division).
   */
  lemma TruncDivVersusEuclidean(a: int, b: int)
    requires b != 0
    ensures TruncDiv(a, b) == a / b <==> (a >= 0 || a % b == 0)
  {
    var qe, re := a / b, a % b;
    assert a == qe * b + re && 0 <= re < Abs(b);
    if a >= 0 || re == 0 {
      assert TruncatedQuotient(a, b, qe);
      TruncatedQuotientUnique(a, b, qe, TruncDiv(a, b));
    }
  }

  /** Negating the dividend negates the truncated quotient; flooring has no such symmetry. */
  lemma TruncDivNegatedDividend(a: int, b: int)
    requires b != 0
    ensures TruncDiv(-a, b) == -TruncDiv(a, b)
  {
  }

  /** Negating the divisor negates the truncated quotient. */
  lemma TruncDivNegatedDivisor(a: int, b: int)
    requires b != 0
    ensures TruncDiv(a, -b) == -TruncDiv(a, b)
  {
  }

  /**
    The positional `calculator(a, b, operator)`: an if/elif chain over the
    operator symbol, tested before the operands are used, so an unknown
    symbol is rejected even when `b == 0`.
   */
  function Calculate(a: int, b: int, operator: string): (r: Result<int>)
    ensures r.Ok? <==> operator in Operators && !(operator == "/" && b == 0)
    ensures operator !in Operators ==> r == Err(InvalidOperator)
    ensures operator == "/" && b == 0 ==> r == Err(DivisionByZero)
    ensures operator == "+" ==> r == Ok(a + b)
    ensures operator == "-" ==> r == Ok(a - b)
    ensures operator == "*" ==> r == Ok(a * b)
    ensures operator == "/" && b != 0 ==> r.Ok? && TruncatedQuotient(a, b, r.value)
  {
    if operator == "+" then Ok(a + b)
    else if operator == "-" then Ok(a - b)
    else if operator == "*" then Ok(a * b)
    else if operator == "/" then
      if b == 0 then Err(DivisionByZero) else Ok(TruncDiv(a, b))
    else Err(InvalidOperator)
  }

  /**
    The structured `calculator(input)`: the same chain reading the three
    fields of the record. It has the same outcome, value or error, as the
    positional variant on equal fields.
   */
  function CalculateInput(input: CalculatorInput): (r: Result<int>)
    ensures r == Calculate(input.a, input.b, input.operator)
  {
    if input.operator == "+" then Ok(input.a + input.b)
    else if input.operator == "-" then Ok(input.a - input.b)
    else if input.operator == "*" then Ok(input.a * input.b)
    else if input.operator == "/" then
      if input.b == 0 then Err(DivisionByZero) else Ok(TruncDiv(input.a, input.b))
    else Err(InvalidOperator)
  }

  /** The division result of the calculator is the unique truncated quotient. */
  lemma DivisionIsTruncatedQuotient(a: int, b: int, q: int)
    requires b != 0
    ensures Calculate(a, b, "/") == Ok(q) <==> TruncatedQuotient(a, b, q)
  {
    TruncDivCharacterized(a, b, q);
  }

  /** The worked values: (3,4) under each operator, 7/2, -7/2 and a bad symbol. */
  lemma WorkedExamples()
    ensures Calculate(3, 4, "+") == Ok(7)
    ensures Calculate(3, 4, "-") == Ok(-1)
    ensures Calculate(3, 4, "*") == Ok(12)
    ensures Calculate(7, 2, "/") == Ok(3)
    ensures Calculate(-7, 2, "/") == Ok(-3) && -7 / 2 == -4
    ensures Calculate(1, 1, "%") == Err(InvalidOperator)
    ensures Calculate(1, 0, "%") == Err(InvalidOperator)
    ensures Calculate(1, 0, "/") == Err(DivisionByZero)
  {
  }

  /** (44232 + 13312 / (232 - 32)) * 5, one calculator call per operator. */
  lemma FirstTutorialQuestion()
    ensures Calculate(232, 32, "-") == Ok(200)
    ensures Calculate(13312, 200, "/") == Ok(66)
    ensures Calculate(44232, 66, "+") == Ok(44298)
    ensures Calculate(44298, 5, "*") == Ok(221490)
  {
  }

  /** (1423 - 123) / 3 + (32 + 23) * 5, one structured call per operator. */
  lemma SecondTutorialQuestion()
    ensures CalculateInput(CalculatorInput(1423, 123, "-")) == Ok(1300)
    ensures CalculateInput(CalculatorInput(1300, 3, "/")) == Ok(433)
    ensures CalculateInput(CalculatorInput(32, 23, "+")) == Ok(55)
    ensures CalculateInput(CalculatorInput(55, 5, "*")) == Ok(275)
    ensures CalculateInput(CalculatorInput(433, 275, "+")) == Ok(708)
  {
  }
}
