// Decimal digits on the wire: a frame's octet count, a syslog priority and version.
module Decimal {
  import opened Common

  const SPACE: byte := 32

  predicate IsDigit(b: byte) {
    48 <= b <= 57
  }

  /** How many digits b starts with. */
  function Digits(b: Bytes): (n: nat)
    ensures n <= |b| && (n < |b| ==> !IsDigit(b[n]))
    ensures forall i :: 0 <= i < n ==> IsDigit(b[i])
  {
    if b == [] || !IsDigit(b[0]) then 0 else 1 + Digits(b[1..])
  }

  function Value(ds: Bytes): nat
    requires forall i :: 0 <= i < |ds| ==> IsDigit(ds[i])
  {
    if ds == [] then 0
    else
      assert IsDigit(ds[|ds| - 1]);
      Value(ds[..|ds| - 1]) * 10 + (ds[|ds| - 1] - 48) as nat
  }

  lemma DigitsAt(s: Bytes, n: nat)
    requires n <= |s| && forall i :: 0 <= i < n ==> IsDigit(s[i])
    requires n == |s| || !IsDigit(s[n])
    ensures Digits(s) == n
  {
    assert Digits(s) < |s| ==> !IsDigit(s[Digits(s)]);
  }

  lemma DigitsBeyond(s: Bytes, n: nat)
    requires n < |s| && forall i :: 0 <= i <= n ==> IsDigit(s[i])
    ensures Digits(s) > n
  {
    assert Digits(s) < |s| ==> !IsDigit(s[Digits(s)]);
  }

  lemma DigitsFacts(s: Bytes)
    ensures var d := Digits(s);
            && d <= |s| && s[..d] + s[d..] == s
            && (forall i :: 0 <= i < |s[..d]| ==> IsDigit(s[..d][i]))
            && (s[d..] != [] ==> !IsDigit(s[d..][0]))
  {
    var d := Digits(s);
    SplitAt(s, d);
    assert d < |s| ==> s[d..][0] == s[d];
    hide IsDigit;
  }
}
