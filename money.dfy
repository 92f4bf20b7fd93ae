/**
 * Currency arithmetic shared by the balance, settlement and dashboard code.
 * Amounts are exact reals; the only rounding is the explicit `Round2`, which
 * stands for JavaScript's `Number(x.toFixed(2))` applied to the exact value.
 */
module Money {

  /** True when `x` is a whole number of cents. */
  predicate OnCents(x: real) {
    (x * 100.0).Floor as real == x * 100.0
  }

  /** The multiple of 0.01 nearest to a non-negative `y`, halves rounded up. */
  function RoundMagnitude(y: real): (r: real)
    requires y >= 0.0
    ensures OnCents(r) && r >= 0.0
    ensures -0.005 <= r - y <= 0.005
  {
    var n := (y * 100.0 + 0.5).Floor;
    assert n as real <= y * 100.0 + 0.5 < n as real + 1.0;
    var r := n as real / 100.0;
    assert r * 100.0 == n as real;
    assert (r * 100.0).Floor == n;
    r
  }

  /**
   * `Number(x.toFixed(2))`: the nearest multiple of 0.01, ties going to the
   * multiple of larger magnitude (toFixed rounds |x| and then restores the sign).
   */
  function Round2(x: real): (r: real)
    ensures OnCents(r)
    ensures -0.005 <= r - x <= 0.005
    ensures (x >= 0.0 ==> r >= 0.0) && (x <= 0.0 ==> r <= 0.0)
  {
    if x >= 0.0 then RoundMagnitude(x)
    else
      var m := RoundMagnitude(-x);
      CentsNeg(m);
      -m
  }

  /** Rounding a whole number of cents changes nothing. */
  lemma RoundOnCents(x: real)
    requires OnCents(x)
    ensures Round2(x) == x
  {
    var n := (x * 100.0).Floor;
    assert x * 100.0 == n as real;
    if x >= 0.0 {
      assert (x * 100.0 + 0.5).Floor == n;
      assert n as real / 100.0 == x;
    } else {
      assert (-x) * 100.0 == (-n) as real;
      assert ((-x) * 100.0 + 0.5).Floor == -n;
      assert (-n) as real / 100.0 == -x;
    }
  }

  lemma CentsNeg(a: real)
    requires OnCents(a)
    ensures OnCents(-a)
  {
    var n := (a * 100.0).Floor;
    assert (-a) * 100.0 == (-n) as real;
  }

  /** The difference of two whole numbers of cents is a whole number of cents. */
  lemma CentsSub(a: real, b: real)
    requires OnCents(a) && OnCents(b)
    ensures OnCents(a - b)
  {
    var na, nb := (a * 100.0).Floor, (b * 100.0).Floor;
    assert (a - b) * 100.0 == (na - nb) as real;
  }

  /** A non-negative whole number of cents below one cent is zero. */
  lemma CentsBelowOneCent(x: real)
    requires OnCents(x) && 0.0 <= x < 0.01
    ensures x == 0.0
  {
    var n := (x * 100.0).Floor;
    assert 0.0 <= n as real < 1.0;
  }

  /** A positive whole number of cents is at least one cent. */
  lemma CentsPositive(x: real)
    requires OnCents(x) && x > 0.0
    ensures x >= 0.01
  {
    var n := (x * 100.0).Floor;
    assert n as real > 0.0;
  }

  function Abs(x: real): (r: real)
    ensures r >= 0.0 && (r == x || r == -x)
  {
    if x < 0.0 then -x else x
  }

  lemma AbsNeg(x: real)
    ensures Abs(-x) == Abs(x)
  {
  }

  function Min(a: real, b: real): (r: real)
    ensures r <= a && r <= b && (r == a || r == b)
  {
    if a <= b then a else b
  }

  /** Sum of a sequence of reals, from the left. */
  function Sum(s: seq<real>): real
  {
    if s == [] then 0.0 else s[0] + Sum(s[1..])
  }

  lemma {:induction false} SumUpdate(s: seq<real>, k: nat, x: real)
    requires k < |s|
    ensures Sum(s[k := x]) == Sum(s) - s[k] + x
  {
    if k > 0 {
      assert s[k := x][1..] == s[1..][k - 1 := x];
      SumUpdate(s[1..], k - 1, x);
    } else {
      assert s[k := x][1..] == s[1..];
    }
  }

  lemma {:induction false} SumAppend(s: seq<real>, t: seq<real>)
    ensures Sum(s + t) == Sum(s) + Sum(t)
  {
    if s != [] {
      assert (s + t)[1..] == s[1..] + t;
      SumAppend(s[1..], t);
    } else {
      assert s + t == t;
    }
  }

  lemma {:induction false} SumZeros(s: seq<real>)
    requires forall k :: 0 <= k < |s| ==> s[k] == 0.0
    ensures Sum(s) == 0.0
  {
    if s != [] {
      SumZeros(s[1..]);
    }
  }

  /** A sum of non-negative terms is zero only when every term is zero. */
  lemma {:induction false} SumNonNegative(s: seq<real>)
    requires forall k :: 0 <= k < |s| ==> s[k] >= 0.0
    ensures Sum(s) >= 0.0
    ensures Sum(s) == 0.0 ==> forall k :: 0 <= k < |s| ==> s[k] == 0.0
  {
    if s != [] {
      SumNonNegative(s[1..]);
      assert forall k :: 1 <= k < |s| ==> s[k] == s[1..][k - 1];
    }
  }

  /** In a sum of non-negative terms, no term exceeds the sum. */
  lemma {:induction false} TermAtMostSum(s: seq<real>, k: nat)
    requires k < |s|
    requires forall n :: 0 <= n < |s| ==> s[n] >= 0.0
    ensures s[k] <= Sum(s)
  {
    assert forall n :: 0 <= n < |s[1..]| ==> s[1..][n] == s[n + 1];
    SumNonNegative(s[1..]);
    if k > 0 {
      TermAtMostSum(s[1..], k - 1);
    }
  }
}
