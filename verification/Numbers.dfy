/** Small arithmetic shared by the other modules. */
module Numbers {

  function Min(a: int, b: int): int { if a < b then a else b }

  function Max(a: int, b: int): int { if a > b then a else b }

  function Abs(x: real): real { if x < 0.0 then -x else x }

  function Power(b: int, n: nat): int {
    if n == 0 then 1 else b * Power(b, n - 1)
  }

  lemma {:induction false} PowerSum(b: int, m: nat, n: nat)
    ensures Power(b, m + n) == Power(b, m) * Power(b, n)
  {
    if m > 0 {
      PowerSum(b, m - 1, n);
      assert b * (Power(b, m - 1) * Power(b, n)) == (b * Power(b, m - 1)) * Power(b, n);
    }
  }

  lemma {:induction false} PowerOfPower(b: int, m: nat, n: nat)
    ensures m * n >= 0 && Power(Power(b, m), n) == Power(b, m * n)
  {
    if n > 0 {
      PowerOfPower(b, m, n - 1);
      assert m * n == m + m * (n - 1);
      PowerSum(b, m, m * (n - 1));
    }
  }

  lemma {:induction false} PowerPositive(b: int, n: nat)
    requires b > 0
    ensures Power(b, n) > 0
  {
    if n > 0 {
      PowerPositive(b, n - 1);
    }
  }
}
