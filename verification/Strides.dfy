/** Positions in a list cut into runs of equal length, without multiplication. */
module Strides {

  /** Where the k-th run begins when each holds s elements. */
  function Offset(s: nat, k: nat): (n: nat)
    ensures k > 0 ==> n >= s
  {
    if k == 0 then 0 else Offset(s, k - 1) + s
  }

  lemma {:induction false} OffsetIsProduct(s: nat, k: nat)
    ensures Offset(s, k) == k * s
  {
    if k > 0 {
      OffsetIsProduct(s, k - 1);
    }
  }

  lemma {:induction false} OffsetMonotone(s: nat, a: nat, b: nat)
    requires a < b
    ensures Offset(s, a) + s <= Offset(s, b)
    decreases b
  {
    if a < b - 1 {
      OffsetMonotone(s, a, b - 1);
    }
  }

  lemma {:induction false} SameBucket(s: nat, a: nat, b: nat, i: nat)
    requires Offset(s, a) <= i < Offset(s, a) + s && Offset(s, b) <= i < Offset(s, b) + s
    ensures a == b
  {
    if a < b {
      OffsetMonotone(s, a, b);
    } else if b < a {
      OffsetMonotone(s, b, a);
    }
  }

  lemma {:induction false} Bucket(s: nat, i: nat) returns (k: nat)
    requires s >= 1
    ensures Offset(s, k) <= i < Offset(s, k) + s
  {
    if i < s {
      k := 0;
    } else {
      var j := Bucket(s, i - s);
      k := j + 1;
    }
  }

  lemma {:induction false} Quotient(n: nat, s: nat)
    requires s >= 1
    ensures Offset(s, n / s) <= n < Offset(s, n / s) + s
  {
    OffsetIsProduct(s, n / s);
  }
}
