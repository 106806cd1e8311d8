/** Sums of real-valued functions over finite sets.  Python sums over a set in hash order;
    over the reals the order does not matter, which `SetSumRemove` makes precise. */
module Sums {

  /** The sum of `f` over the elements of `s`. */
  ghost function SetSum<T>(s: set<T>, f: T -> real): real
    decreases |s|
  {
    if s == {} then 0.0
    else
      var x :| x in s;
      f(x) + SetSum(s - {x}, f)
  }

  /** Any element can be split off first: the sum does not depend on the order of summation. */
  lemma {:induction false} SetSumRemove<T>(s: set<T>, f: T -> real, y: T)
    requires y in s
    ensures SetSum(s, f) == f(y) + SetSum(s - {y}, f)
    decreases |s|
  {
    var x :| x in s && SetSum(s, f) == f(x) + SetSum(s - {x}, f);
    if x != y {
      SetSumRemove(s - {x}, f, y);
      SetSumRemove(s - {y}, f, x);
      assert s - {x} - {y} == s - {y} - {x};
    }
  }

  /** A sum of values in [0, 1] lies between 0 and |s|. */
  lemma {:induction false} SetSumUnitBounds<T>(s: set<T>, f: T -> real)
    requires forall x :: x in s ==> 0.0 <= f(x) <= 1.0
    ensures 0.0 <= SetSum(s, f) <= |s| as real
    decreases |s|
  {
    if s != {} {
      var x :| x in s;
      SetSumRemove(s, f, x);
      SetSumUnitBounds(s - {x}, f);
      assert |s - {x}| == |s| - 1;
    }
  }

  /** A sum of a constant `c` over `s` is `|s| * c`. */
  lemma {:induction false} SetSumConstant<T>(s: set<T>, f: T -> real, c: real)
    requires forall x :: x in s ==> f(x) == c
    ensures SetSum(s, f) == (|s| as real) * c
    decreases |s|
  {
    if s != {} {
      var x :| x in s;
      SetSumRemove(s, f, x);
      SetSumConstant(s - {x}, f, c);
      var n := |s - {x}| as real;
      assert |s| as real == n + 1.0;
      assert (n + 1.0) * c == n * c + c;
    }
  }
}
