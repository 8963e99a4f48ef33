/** The canonical text of a 128-bit id, and why the model may order and compare ids as numbers. */
module Uuid {
  import opened Basics

  const HEX := "0123456789abcdef"

  /** The low k hexadecimal digits of n, most significant first. */
  function Digits(n: nat, k: nat): (s: string)
    ensures |s| == k
  {
    if k == 0 then "" else Digits(n / 16, k - 1) + [HEX[n % 16]]
  }

  function Pow16(k: nat): (p: nat)
    ensures p >= 1
  {
    if k == 0 then 1 else 16 * Pow16(k - 1)
  }

  predicate Fits(id: Id) {
    id < Pow16(32)
  }

  function Text(id: Id): (s: string)
    ensures |s| == 36
  {
    var d := Digits(id, 32);
    d[..8] + "-" + d[8..12] + "-" + d[12..16] + "-" + d[16..20] + "-" + d[20..]
  }

  /** Byte-wise string order at the first difference i. */
  predicate LessAt(a: string, b: string, i: nat) {
    i < |a| && i < |b| && a[i] < b[i] && forall j :: 0 <= j < i ==> a[j] == b[j]
  }

  ghost predicate Less(a: string, b: string) {
    (exists i: nat :: LessAt(a, b, i)) || (|a| < |b| && a == b[..|a|])
  }

  lemma {:induction false} DigitsOrdered(m: nat, n: nat, k: nat) returns (i: nat)
    requires m < n < Pow16(k)
    ensures LessAt(Digits(m, k), Digits(n, k), i)
  {
    if m / 16 == n / 16 {
      i := k - 1;
    } else {
      i := DigitsOrdered(m / 16, n / 16, k - 1);
    }
  }

  /** Where digit i lands once the hyphens are in. */
  function Place(i: nat): nat {
    if i < 8 then i else if i < 12 then i + 1 else if i < 16 then i + 2 else if i < 20 then i + 3 else i + 4
  }

  predicate Hyphen(j: int) {
    j == 8 || j == 13 || j == 18 || j == 23
  }

  lemma {:induction false} TextAt(id: Id)
    ensures forall j :: 0 <= j < 36 && Hyphen(j) ==> Text(id)[j] == '-'
    ensures forall i :: 0 <= i < 32 ==> Text(id)[Place(i)] == Digits(id, 32)[i]
  {
  }

  lemma {:induction false} PlaceOnto(j: nat) returns (i: nat)
    requires j < 36 && !Hyphen(j)
    ensures i < 32 && Place(i) == j
  {
    i := if j < 8 then j else if j < 13 then j - 1 else if j < 18 then j - 2 else if j < 23 then j - 3 else j - 4;
  }

  /** Comparing two ids by their text is comparing them as numbers. */
  lemma {:induction false} TextOrder(m: Id, n: Id)
    requires Fits(m) && Fits(n)
    ensures Less(Text(m), Text(n)) <==> m < n
  {
    if m < n {
      SmallerTextIsLess(m, n);
    } else if n < m {
      SmallerTextIsLess(n, m);
      LessAsymmetric(Text(m), Text(n));
    }
  }

  lemma {:induction false} SmallerTextIsLess(m: Id, n: Id)
    requires m < n && Fits(n)
    ensures Less(Text(m), Text(n))
  {
    var i := DigitsOrdered(m, n, 32);
    var a, b, p := Text(m), Text(n), Place(i);
    TextAt(m);
    TextAt(n);
    forall j | 0 <= j < p
      ensures a[j] == b[j]
    {
      if !Hyphen(j) {
        var k := PlaceOnto(j);
        assert Digits(m, 32)[k] == Digits(n, 32)[k];
      }
    }
    assert LessAt(a, b, p);
  }

  lemma {:induction false} LessAsymmetric(a: string, b: string)
    requires |a| == |b| && Less(b, a)
    ensures !Less(a, b)
  {
    var j: nat :| LessAt(b, a, j);
  }

  /** Different ids have different text. */
  lemma {:induction false} TextInjective(m: Id, n: Id)
    requires Fits(m) && Fits(n) && Text(m) == Text(n)
    ensures m == n
  {
    if m != n {
      TextOrder(m, n);
      TextOrder(n, m);
      LessIrreflexive(Text(m));
    }
  }

  lemma {:induction false} LessIrreflexive(a: string)
    ensures !Less(a, a)
  {
  }
}
