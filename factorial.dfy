// The calculator's factorial: domain checks, then an iterative product.

module Factorial {

  /** The two ways the factorial refuses its argument. */
  datatype FactorialError =
    | InvalidInput   // negative or not a whole number
    | TooLarge       // above the largest argument whose factorial is finite in double precision

  datatype Result<T> = Ok(value: T) | Err(error: FactorialError)

  /** The largest argument the factorial accepts. */
  const MaxArgument: nat := 170

  /** n! = 1 * 2 * ... * n. */
  function Fact(n: nat): (r: nat)
    ensures r >= 1
  {
    if n == 0 then 1 else n * Fact(n - 1)
  }

  predicate IsWhole(x: real) {
    x == x.Floor as real
  }

  /** The factorial of a number: refused with InvalidInput when it is
      negative or fractional, 1 for 0 and 1, refused with TooLarge above
      170, and otherwise the product 2 * 3 * ... * n built up in a loop. */
  method Factorial(n: real) returns (r: Result<nat>)
    ensures r == Err(InvalidInput) <==> n < 0.0 || !IsWhole(n)
    ensures r == Err(TooLarge) <==> IsWhole(n) && n > MaxArgument as real
    ensures r.Ok? <==> IsWhole(n) && 0.0 <= n <= MaxArgument as real
    ensures r.Ok? ==> r.value == Fact(n.Floor)
  {
    if n < 0.0 || n != n.Floor as real {
      return Err(InvalidInput);
    }
    if n == 0.0 || n == 1.0 {
      return Ok(1);
    }
    if n > MaxArgument as real {
      return Err(TooLarge);
    }
    var k := n.Floor;
    var result: nat := 1;
    var i: nat := 2;
    while i <= k
      invariant 2 <= i <= k + 1
      invariant result == Fact(i - 1)
    {
      result := result * i;
      i := i + 1;
    }
    return Ok(result);
  }

  /** The boundary values the calculator is expected to produce. */
  method FactorialExamples() {
    var r := Factorial(0.0);
    assert r == Ok(1);
    r := Factorial(5.0);
    assert Fact(5) == 120;
    assert r == Ok(120);
    r := Factorial(-1.0);
    assert r == Err(InvalidInput);
    r := Factorial(2.5);
    assert r == Err(InvalidInput);
    r := Factorial(171.0);
    assert r == Err(TooLarge);
  }
}
