/** C++ integer division and remainder on `int`: both truncate toward zero, so a
    remainder takes the sign of the dividend. Dafny's own `/` and `%` are Euclidean. */
module CppInt {

  function Abs(x: int): (r: nat)
    ensures r == x || r == -x
  {
    if x < 0 then -x else x
  }

  /** `a / b` in C++, for a positive divisor. */
  function Quot(a: int, b: int): (q: int)
    requires b > 0
    ensures Abs(q) == Abs(a) / b
    ensures (a >= 0 ==> q >= 0) && (a <= 0 ==> q <= 0)
  {
    DivNonnegative(Abs(a), b);
    if a >= 0 then a / b else -((-a) / b)
  }

  lemma DivNonnegative(x: nat, b: int)
    requires b > 0
    ensures x / b >= 0
  {
  }

  /** `a % b` in C++, for a positive divisor. */
  function Rem(a: int, b: int): (r: int)
    requires b > 0
    ensures -b < r < b
    ensures (a >= 0 ==> 0 <= r) && (a <= 0 ==> r <= 0)
    ensures a >= 0 ==> r == a % b
    ensures a < 0 ==> r == -((-a) % b)
  {
    if a >= 0 then a % b else -((-a) % b)
  }
}
