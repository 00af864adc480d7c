/** Decimal notation, as octets and as characters. */
module Decimal {
  import opened Bytes

  function Digits(n: nat): (ds: seq<nat>)
    ensures ds != [] && forall i | 0 <= i < |ds| :: ds[i] < 10
  {
    if n < 10 then [n] else Digits(n / 10) + [n % 10]
  }

  /** The number that digits continue from an accumulated prefix. */
  function Horner(acc: nat, ds: seq<nat>): nat
    decreases |ds|
  {
    if ds == [] then acc else Horner(acc * 10 + ds[0], ds[1..])
  }

  lemma {:induction false} HornerOfSnoc(acc: nat, ds: seq<nat>, d: nat)
    ensures Horner(acc, ds + [d]) == Horner(acc, ds) * 10 + d
    decreases |ds|
  {
    if ds == [] {
      assert [d][1..] == [];
    } else {
      assert (ds + [d])[1..] == ds[1..] + [d];
      HornerOfSnoc(acc * 10 + ds[0], ds[1..], d);
    }
  }

  /** Reading the digits gives the number back, so different numbers have different digits. */
  lemma {:induction false} DigitsReadBack(n: nat)
    ensures Horner(0, Digits(n)) == n
  {
    if n >= 10 {
      DigitsReadBack(n / 10);
      HornerOfSnoc(0, Digits(n / 10), n % 10);
    } else {
      assert [n][1..] == [];
    }
  }

  function OfNat(n: nat): (b: bytes)
    ensures |b| == |Digits(n)| && forall i | 0 <= i < |b| :: b[i] == 48 + Digits(n)[i]
  {
    var ds := Digits(n);
    seq(|ds|, i requires 0 <= i < |ds| => 48 + ds[i])
  }

  function Text(n: nat): (s: string)
    ensures |s| == |Digits(n)| && forall i | 0 <= i < |s| :: s[i] == '0' + Digits(n)[i] as char
  {
    var ds := Digits(n);
    seq(|ds|, i requires 0 <= i < |ds| => '0' + ds[i] as char)
  }

  lemma TextIsInjective(m: nat, n: nat)
    requires Text(m) == Text(n)
    ensures m == n
  {
    var a, b := Digits(m), Digits(n);
    assert |a| == |Text(m)| == |Text(n)| == |b|;
    forall i | 0 <= i < |a| ensures a[i] == b[i] {
      assert Text(m)[i] == Text(n)[i];
    }
    assert a == b;
    DigitsReadBack(m);
    DigitsReadBack(n);
  }
}
