/** The index vector of the brute-force generator read as a number: each
    position holds an index into the charset, the first position is the most
    significant, and the base is the charset's size. Stepping the vector as
    src/generator/brute_force.rs does (lines 38-52) counts that number up by
    one until every position holds its largest index. */
module Odometer {

  function Pow(b: nat, n: nat): nat
  {
    if n == 0 then 1 else b * Pow(b, n - 1)
  }

  /** Every position holds an index below `b`. */
  predicate IsDigits(d: seq<nat>, b: nat)
  {
    forall i :: 0 <= i < |d| ==> d[i] < b
  }

  /** The number `d` denotes in base `b`, first position most significant. */
  function Value(d: seq<nat>, b: nat): nat
    decreases |d|
  {
    if |d| == 0 then 0 else Value(d[..|d| - 1], b) * b + d[|d| - 1]
  }

  /** The `len` base-`b` digits of `k`, most significant first; digits above
      `len` positions are dropped. */
  function Digits(k: nat, b: nat, len: nat): (d: seq<nat>)
    requires b >= 1
    ensures |d| == len && IsDigits(d, b)
  {
    if len == 0 then [] else Digits(k / b, b, len - 1) + [k % b]
  }

  function Zeros(len: nat): (z: seq<nat>)
    ensures |z| == len
  {
    seq(len, _ => 0)
  }

  /** One odometer step, scanning from the last position back: a position
      below its largest index is incremented and the scan stops; a position
      at its largest index is reset to 0 and the scan moves on. The flag is
      false when every position was reset. */
  function Increment(d: seq<nat>, b: nat): (r: (bool, seq<nat>))
    requires b >= 1 && IsDigits(d, b)
    ensures |r.1| == |d| && IsDigits(r.1, b)
    ensures r.0 <==> exists i :: 0 <= i < |d| && d[i] < b - 1
    decreases |d|
  {
    if |d| == 0 then (false, [])
    else
      var last := d[|d| - 1];
      var prefix := d[..|d| - 1];
      if last < b - 1 then
        (true, prefix + [last + 1])
      else
        var (carried, rest) := Increment(prefix, b);
        (carried, rest + [0])
  }

  /** The step counts: with the flag set the vector now denotes one more;
      with it clear the vector denoted b^len - 1, its largest value, and is
      now all zeros. */
  lemma {:induction false} IncrementValue(d: seq<nat>, b: nat)
    requires b >= 1 && IsDigits(d, b)
    ensures Increment(d, b).0 ==> Value(Increment(d, b).1, b) == Value(d, b) + 1
    ensures !Increment(d, b).0 ==> Increment(d, b).1 == Zeros(|d|) && Value(d, b) + 1 == Pow(b, |d|)
    decreases |d|
  {
    if |d| > 0 {
      var last := d[|d| - 1];
      var prefix := d[..|d| - 1];
      var v := Value(prefix, b);
      assert Value(d, b) == v * b + last;
      if last < b - 1 {
        ValueSnoc(prefix, last + 1, b);
      } else {
        var (carried, rest) := Increment(prefix, b);
        IncrementValue(prefix, b);
        ValueSnoc(rest, 0, b);
        Distribute(v, b);
        if !carried {
          assert rest + [0] == Zeros(|d|);
          assert Pow(b, |d|) == b * Pow(b, |prefix|);
        }
      }
    }
  }

  /** Appending a digit shifts the number up one place. */
  lemma ValueSnoc(p: seq<nat>, x: nat, b: nat)
    ensures Value(p + [x], b) == Value(p, b) * b + x
  {
    assert (p + [x])[..|p|] == p;
  }

  lemma Distribute(x: nat, b: nat)
    ensures (x + 1) * b == x * b + b
    ensures b * (x + 1) == x * b + b
  {
  }

  /** `r` is `d` with position `i` incremented and every later position,
      all of which held the largest index, reset to 0. */
  predicate BumpedAt(d: seq<nat>, b: nat, i: int, r: seq<nat>)
  {
    0 <= i < |d| && d[i] < b - 1
    && (forall j :: i < j < |d| ==> d[j] == b - 1)
    && r == d[..i] + [d[i] + 1] + Zeros(|d| - i - 1)
  }

  /** The step in the words of the source's loop: when it succeeds it has
      incremented the last position below its largest index, every later
      position was at its largest index and is now 0, and earlier positions
      are untouched. */
  lemma {:induction false} IncrementScansFromTheBack(d: seq<nat>, b: nat)
    requires b >= 1 && IsDigits(d, b)
    ensures Increment(d, b).0 ==> exists i :: BumpedAt(d, b, i, Increment(d, b).1)
    decreases |d|
  {
    if |d| > 0 && Increment(d, b).0 {
      var last := d[|d| - 1];
      var prefix := d[..|d| - 1];
      if last < b - 1 {
        var i := |d| - 1;
        assert d[..i] == prefix && Zeros(0) == [];
        assert BumpedAt(d, b, i, Increment(d, b).1);
      } else {
        var rest := Increment(prefix, b).1;
        assert Increment(d, b).1 == rest + [0];
        IncrementScansFromTheBack(prefix, b);
        var i :| BumpedAt(prefix, b, i, rest);
        BumpCarries(prefix, b, i, rest);
        assert prefix + [last] == d;
      }
    }
  }

  /** A bump of `prefix` at `i` is a bump of `prefix + [b - 1]` at `i` once
      the last position is reset to 0. */
  lemma BumpCarries(prefix: seq<nat>, b: nat, i: int, rest: seq<nat>)
    requires BumpedAt(prefix, b, i, rest)
    ensures BumpedAt(prefix + [b - 1], b, i, rest + [0])
  {
    var d := prefix + [b - 1];
    assert prefix[..i] == d[..i] && prefix[i] == d[i];
    var head := prefix[..i] + [prefix[i] + 1];
    calc {
      rest + [0];
      (head + Zeros(|prefix| - i - 1)) + [0];
      head + (Zeros(|prefix| - i - 1) + [0]);
      { assert Zeros(|prefix| - i - 1) + [0] == Zeros(|d| - i - 1); }
      d[..i] + [d[i] + 1] + Zeros(|d| - i - 1);
    }
  }

  lemma MulLeft(x: nat, y: nat, b: nat)
    requires x <= y
    ensures x * b <= y * b
  {
  }

  /** A digit vector denotes a number below b^len. */
  lemma {:induction false} ValueBound(d: seq<nat>, b: nat)
    requires IsDigits(d, b)
    ensures Value(d, b) < Pow(b, |d|)
    decreases |d|
  {
    if |d| > 0 {
      var prefix := d[..|d| - 1];
      ValueBound(prefix, b);
      MulLeft(Value(prefix, b), Pow(b, |prefix|) - 1, b);
      assert Value(d, b) <= (Pow(b, |prefix|) - 1) * b + (b - 1);
    }
  }

  /** Reading back the digits of a number below b^len gives the number. */
  lemma {:induction false} DigitsValue(k: nat, b: nat, len: nat)
    requires b >= 1 && k < Pow(b, len)
    ensures Value(Digits(k, b, len), b) == k
    decreases len
  {
    if len > 0 {
      var d := Digits(k, b, len);
      assert d[..len - 1] == Digits(k / b, b, len - 1);
      QuotientBound(k, b, Pow(b, len - 1));
      DigitsValue(k / b, b, len - 1);
      assert Value(d, b) == (k / b) * b + k % b;
      Euclid(k, b);
    }
  }

  /** Writing out the number a digit vector denotes gives the vector back. */
  lemma {:induction false} ValueDigits(d: seq<nat>, b: nat)
    requires b >= 1 && IsDigits(d, b)
    ensures Digits(Value(d, b), b, |d|) == d
    decreases |d|
  {
    if |d| > 0 {
      var prefix := d[..|d| - 1];
      var v := Value(d, b);
      assert v / b == Value(prefix, b) && v % b == d[|d| - 1] by {
        DivMod(Value(prefix, b), d[|d| - 1], b);
      }
      ValueDigits(prefix, b);
      assert d == prefix + [d[|d| - 1]];
    }
  }

  lemma QuotientBound(k: nat, b: nat, p: nat)
    requires b >= 1 && k < b * p
    ensures k / b < p
  {
    if k / b >= p {
      MulLeft(p, k / b, b);
      Euclid(k, b);
    }
  }

  lemma Euclid(k: nat, b: nat)
    requires b >= 1
    ensures (k / b) * b + k % b == k
  {
  }

  lemma DivMod(q: nat, r: nat, b: nat)
    requires r < b
    ensures (q * b + r) / b == q && (q * b + r) % b == r
  {
    var n := q * b + r;
    var q': nat, r': nat := n / b, n % b;
    assert n == q' * b + r' && r' < b;
    Distribute(q', b);
    Distribute(q, b);
    MulMonotone(q' + 1, q, b);
    MulMonotone(q + 1, q', b);
  }

  lemma MulMonotone(x: nat, y: nat, b: nat)
    ensures x <= y ==> x * b <= y * b
  {
    if x <= y {
      MulLeft(x, y, b);
    }
  }

  lemma {:induction false} ZerosAreDigitsOfZero(b: nat, len: nat)
    requires b >= 1
    ensures Digits(0, b, len) == Zeros(len)
    decreases len
  {
    if len > 0 {
      ZerosAreDigitsOfZero(b, len - 1);
      assert Zeros(len - 1) + [0] == Zeros(len);
    }
  }

  lemma {:induction false} ValueOfZeros(b: nat, len: nat)
    ensures Value(Zeros(len), b) == 0
    decreases len
  {
    if len > 0 {
      assert Zeros(len)[..len - 1] == Zeros(len - 1);
      ValueOfZeros(b, len - 1);
    }
  }

  /** On the digits of k the step yields the digits of k + 1, and after the
      last number below b^len it wraps round to all zeros with the flag
      false. */
  lemma IncrementCounts(k: nat, b: nat, len: nat)
    requires b >= 1 && k < Pow(b, len)
    ensures k + 1 < Pow(b, len) ==> Increment(Digits(k, b, len), b) == (true, Digits(k + 1, b, len))
    ensures k + 1 == Pow(b, len) ==> Increment(Digits(k, b, len), b) == (false, Zeros(len))
  {
    var d := Digits(k, b, len);
    DigitsValue(k, b, len);
    IncrementValue(d, b);
    var (carried, next) := Increment(d, b);
    if carried {
      ValueBound(next, b);
      ValueDigits(next, b);
    }
  }
}
