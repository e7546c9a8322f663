/** The brute-force candidate generator of src/generator/brute_force.rs: a
    state record stepped by a pure `Next`, which renders the index vector
    through the charset and then advances it as an odometer (module
    Odometer); when a length class is used up the generator moves to the
    next length, and past the maximum it is exhausted for good. The full
    output of a generator is `Drain`, and the reference order it is proved
    against is `Enumerate`: for each length, every shorter word followed by
    each charset character in turn. */
module BruteForce {
  import opened Wrappers
  import opened Odometer

  /** The hard cap on the maximum length. */
  const MaxLength: nat := 20

  /** The largest value of the source's 64-bit unsigned count. */
  const U64Max: nat := 0xFFFF_FFFF_FFFF_FFFF

  datatype Generator = Generator(
    charset: seq<char>,
    currentLength: nat,
    minLength: nat,
    maxLength: nat,
    indices: seq<nat>,
    exhausted: bool)

  /** What `New` establishes and `Next` and `Reset` keep: a live generator
      holds one in-range index per position of its current length. */
  predicate Valid(g: Generator)
  {
    |g.charset| > 0 && g.minLength <= g.maxLength <= MaxLength
    && (!g.exhausted ==>
          g.minLength <= g.currentLength <= g.maxLength
          && |g.indices| == g.currentLength
          && IsDigits(g.indices, |g.charset|))
  }

  function New(charset: seq<char>, minLength: nat, maxLength: nat): (r: Result<Generator>)
    ensures r.Err? <==> |charset| == 0 || minLength > maxLength || maxLength > MaxLength
    ensures |charset| == 0 ==> r == Err("Charset cannot be empty")
    ensures |charset| > 0 && minLength > maxLength ==> r == Err("Min length cannot be greater than max length")
    ensures |charset| > 0 && minLength <= maxLength && maxLength > MaxLength ==> r == Err("Max length too large (max: 20)")
    ensures r.Ok? ==> (Valid(r.value) && !r.value.exhausted
      && r.value.charset == charset && r.value.minLength == minLength && r.value.maxLength == maxLength
      && r.value.currentLength == minLength && Value(r.value.indices, |charset|) == 0)
  {
    if |charset| == 0 then Err("Charset cannot be empty")
    else if minLength > maxLength then Err("Min length cannot be greater than max length")
    else if maxLength > MaxLength then Err("Max length too large (max: 20)")
    else
      ValueOfZeros(|charset|, minLength);
      Ok(Generator(charset, minLength, minLength, maxLength, Zeros(minLength), false))
  }

  /** The candidate an index vector stands for. */
  function Render(charset: seq<char>, indices: seq<nat>): (w: string)
    requires IsDigits(indices, |charset|)
    ensures |w| == |indices|
    ensures forall i :: 0 <= i < |w| ==> w[i] == charset[indices[i]]
  {
    seq(|indices|, i requires 0 <= i < |indices| => charset[indices[i]])
  }

  /** One call of the source's `next`: the candidate it returns and the state
      it leaves behind. */
  function Next(g: Generator): (r: (Option<string>, Generator))
    requires Valid(g)
    ensures Valid(r.1)
    ensures r.1.charset == g.charset && r.1.minLength == g.minLength && r.1.maxLength == g.maxLength
    ensures g.exhausted ==> r == (None, g)
    ensures r.0.Some? <==> !g.exhausted && g.currentLength > 0
    ensures r.0.None? ==> r.1.exhausted
    ensures r.0.Some? ==> (|r.0.value| == g.currentLength
      && forall i :: 0 <= i < |r.0.value| ==> r.0.value[i] in g.charset)
  {
    if g.exhausted then (None, g)
    else if g.currentLength == 0 then (None, g.(exhausted := true))
    else
      var password := Render(g.charset, g.indices);
      var (stepped, indices) := Increment(g.indices, |g.charset|);
      if stepped then
        (Some(password), g.(indices := indices))
      else if g.currentLength + 1 > g.maxLength then
        (Some(password), g.(currentLength := g.currentLength + 1, indices := indices, exhausted := true))
      else
        (Some(password), g.(currentLength := g.currentLength + 1, indices := Zeros(g.currentLength + 1)))
  }

  /** The source's `reset`: back to the minimum length with all-zero
      indices. */
  function Reset(g: Generator): (r: Generator)
    requires Valid(g)
    ensures Valid(r) && !r.exhausted
    ensures r.charset == g.charset && r.minLength == g.minLength && r.maxLength == g.maxLength
  {
    g.(currentLength := g.minLength, indices := Zeros(g.minLength), exhausted := false)
  }

  /** Resetting any state, exhausted or not, gives exactly the generator the
      constructor builds from the same settings. */
  lemma ResetIsNew(g: Generator)
    requires Valid(g)
    ensures New(g.charset, g.minLength, g.maxLength) == Ok(Reset(g))
  {
  }

  /** Once exhausted, `next` returns None and leaves the state alone, so
      every later call returns None too. */
  lemma ExhaustedStaysExhausted(g: Generator)
    requires Valid(g) && g.exhausted
    ensures Next(g) == (None, g) && Next(Next(g).1) == (None, g)
  {
  }

  /** b^lo + b^(lo+1) + ... + b^hi; zero when lo > hi. */
  function SumPow(b: nat, lo: nat, hi: int): nat
    decreases hi - lo + 1
  {
    if lo > hi then 0 else Pow(b, lo) + SumPow(b, lo + 1, hi)
  }

  /** How many more candidates `next` will return before None. */
  function Remaining(g: Generator): nat
    requires Valid(g)
  {
    if g.exhausted || g.currentLength == 0 then 0
    else
      ValueBound(g.indices, |g.charset|);
      (Pow(|g.charset|, g.currentLength) - Value(g.indices, |g.charset|))
        + SumPow(|g.charset|, g.currentLength + 1, g.maxLength)
  }

  /** Every candidate `next` returns uses up exactly one of the remaining
      ones, and None means none remain. */
  lemma NextCountsDown(g: Generator)
    requires Valid(g)
    ensures Next(g).0.Some? ==> Remaining(Next(g).1) + 1 == Remaining(g)
    ensures Next(g).0.None? ==> Remaining(g) == 0 && Remaining(Next(g).1) == 0
  {
    if !g.exhausted && g.currentLength > 0 {
      var b := |g.charset|;
      IncrementValue(g.indices, b);
      if !Increment(g.indices, b).0 && g.currentLength + 1 <= g.maxLength {
        ValueOfZeros(b, g.currentLength + 1);
      }
    }
  }

  /** Everything `next` returns, in order, until it first returns None. */
  function Drain(g: Generator): seq<string>
    requires Valid(g)
    decreases Remaining(g)
  {
    match Next(g)
    case (None, _) => []
    case (Some(password), rest) =>
      NextCountsDown(g);
      [password] + Drain(rest)
  }

  /** Every word of length `len + 1`, given every word of length `len` in
      order: each shorter word followed by each charset character in
      turn. */
  function Extend(words: seq<string>, charset: seq<char>): (r: seq<string>)
    ensures |r| == |words| * |charset|
  {
    if |words| == 0 then []
    else seq(|charset|, j requires 0 <= j < |charset| => words[0] + [charset[j]]) + Extend(words[1..], charset)
  }

  /** The reference order within one length class. */
  function Words(charset: seq<char>, len: nat): seq<string>
  {
    if len == 0 then [[]] else Extend(Words(charset, len - 1), charset)
  }

  /** The reference order of the whole run: lengths lo, lo + 1, ..., hi. */
  function Enumerate(charset: seq<char>, lo: nat, hi: nat): seq<string>
    decreases hi - lo + 1
  {
    if lo > hi then [] else Words(charset, lo) + Enumerate(charset, lo + 1, hi)
  }

  lemma {:induction false} ExtendAt(words: seq<string>, charset: seq<char>, i: nat, j: nat)
    requires i < |words| && j < |charset|
    ensures i * |charset| + j < |Extend(words, charset)|
    ensures Extend(words, charset)[i * |charset| + j] == words[i] + [charset[j]]
    decreases i
  {
    var n := |charset|;
    assert i * n + j < |words| * n by {
      MulLeft(i + 1, |words|, n);
      Distribute(i, n);
    }
    if i > 0 {
      ExtendAt(words[1..], charset, i - 1, j);
      Distribute(i - 1, n);
    }
  }

  lemma RenderSnoc(charset: seq<char>, d: seq<nat>, x: nat)
    requires IsDigits(d, |charset|) && x < |charset|
    ensures IsDigits(d + [x], |charset|)
    ensures Render(charset, d + [x]) == Render(charset, d) + [charset[x]]
  {
  }

  /** Word number k of a length class is the rendering of the base-|charset|
      digits of k, which ties the reference order to the odometer. */
  lemma {:induction false} WordsAt(charset: seq<char>, len: nat, k: nat)
    requires |charset| > 0 && k < Pow(|charset|, len)
    ensures |Words(charset, len)| == Pow(|charset|, len)
    ensures Words(charset, len)[k] == Render(charset, Digits(k, |charset|, len))
    decreases len
  {
    var n := |charset|;
    WordsLength(charset, len);
    if len > 0 {
      var q, r := k / n, k % n;
      QuotientBound(k, n, Pow(n, len - 1));
      var shorter := Words(charset, len - 1);
      WordsAt(charset, len - 1, q);
      Euclid(k, n);
      ExtendAt(shorter, charset, q, r);
      assert Words(charset, len)[k] == shorter[q] + [charset[r]];
      RenderSnoc(charset, Digits(q, n, len - 1), r);
    } else {
      assert k == 0;
    }
  }

  lemma {:induction false} WordsLength(charset: seq<char>, len: nat)
    requires |charset| > 0
    ensures |Words(charset, len)| == Pow(|charset|, len)
    decreases len
  {
    if len > 0 {
      WordsLength(charset, len - 1);
    }
  }

  /** The candidate a live state returns is the reference word numbered by
      the value of its indices. */
  lemma NextEmitsWord(g: Generator)
    requires Valid(g) && !g.exhausted && g.currentLength >= 1
    ensures Value(g.indices, |g.charset|) < |Words(g.charset, g.currentLength)|
    ensures Next(g).0 == Some(Words(g.charset, g.currentLength)[Value(g.indices, |g.charset|)])
  {
    var b := |g.charset|;
    ValueBound(g.indices, b);
    ValueDigits(g.indices, b);
    WordsAt(g.charset, g.currentLength, Value(g.indices, b));
  }

  /** Where a live state moves: to the next word of its length class, to
      the first word of the next class, or, after the last word of the last
      class, to exhaustion. */
  lemma NextAdvances(g: Generator)
    requires Valid(g) && !g.exhausted && g.currentLength >= 1
    ensures Remaining(Next(g).1) < Remaining(g)
    ensures Drain(g) == [Next(g).0.value] + Drain(Next(g).1)
    ensures Value(g.indices, |g.charset|) + 1 < Pow(|g.charset|, g.currentLength) ==>
      (!Next(g).1.exhausted && Next(g).1.currentLength == g.currentLength
       && Value(Next(g).1.indices, |g.charset|) == Value(g.indices, |g.charset|) + 1)
    ensures Value(g.indices, |g.charset|) + 1 == Pow(|g.charset|, g.currentLength) && g.currentLength < g.maxLength ==>
      (!Next(g).1.exhausted && Next(g).1.currentLength == g.currentLength + 1
       && Value(Next(g).1.indices, |g.charset|) == 0)
    ensures Value(g.indices, |g.charset|) + 1 == Pow(|g.charset|, g.currentLength) && g.currentLength == g.maxLength ==>
      Next(g).1.exhausted
  {
    var b := |g.charset|;
    NextCountsDown(g);
    IncrementValue(g.indices, b);
    ValueBound(g.indices, b);
    if Increment(g.indices, b).0 {
      ValueBound(Increment(g.indices, b).1, b);
    } else if g.currentLength < g.maxLength {
      ValueOfZeros(b, g.currentLength + 1);
    }
  }

  /** What `DrainFrom` states about one state. */
  ghost predicate DrainsInOrder(g: Generator)
    requires Valid(g) && !g.exhausted && g.currentLength >= 1
  {
    Value(g.indices, |g.charset|) < |Words(g.charset, g.currentLength)|
    && Drain(g) == Words(g.charset, g.currentLength)[Value(g.indices, |g.charset|)..]
                   + Enumerate(g.charset, g.currentLength + 1, g.maxLength)
  }

  /** From any live state of length at least 1, the generator returns the
      rest of the current length class from the word the indices denote,
      then every longer class up to the maximum, and nothing else. */
  lemma {:induction false} DrainFrom(g: Generator)
    requires Valid(g) && !g.exhausted && g.currentLength >= 1
    ensures Value(g.indices, |g.charset|) < |Words(g.charset, g.currentLength)|
    ensures Drain(g) == Words(g.charset, g.currentLength)[Value(g.indices, |g.charset|)..]
                        + Enumerate(g.charset, g.currentLength + 1, g.maxLength)
    decreases Remaining(g)
  {
    var g' := Next(g).1;
    NextAdvances(g);
    if !g'.exhausted {
      DrainFrom(g');
    }
    DrainStep(g);
  }

  /** The inductive step of `DrainFrom`: if the state after one `next`
      drains in order, so does the state before it. */
  lemma DrainStep(g: Generator)
    requires Valid(g) && !g.exhausted && g.currentLength >= 1
    requires !Next(g).1.exhausted ==> Next(g).1.currentLength >= 1 && DrainsInOrder(Next(g).1)
    ensures DrainsInOrder(g)
  {
    var cs, len, b := g.charset, g.currentLength, |g.charset|;
    var v := Value(g.indices, b);
    var W := Words(cs, len);
    var g' := Next(g).1;
    var rest := Enumerate(cs, len + 1, g.maxLength);
    assert v < |W| && |W| == Pow(b, len) && Drain(g) == [W[v]] + Drain(g') by {
      NextEmitsWord(g);
      NextAdvances(g);
      WordsLength(cs, len);
    }
    assert Drain(g') == W[v + 1..] + rest by {
      NextAdvances(g);
      if v + 1 == Pow(b, len) {
        assert W[v + 1..] == [];
        if len < g.maxLength {
          assert rest == Words(cs, len + 1)[0..] + Enumerate(cs, len + 2, g.maxLength);
        }
      }
    }
    SuffixCons(W, v, rest);
  }

  lemma SuffixCons<T>(s: seq<T>, i: nat, rest: seq<T>)
    requires i < |s|
    ensures s[i..] + rest == [s[i]] + (s[i + 1..] + rest)
  {
    assert s[i..] == [s[i]] + s[i + 1..];
  }

  /** The enumeration order of a fresh generator: all words of the minimum
      length, then all of the next length, and so on up to the maximum. */
  lemma DrainNew(charset: seq<char>, minLength: nat, maxLength: nat)
    requires New(charset, minLength, maxLength).Ok? && minLength >= 1
    ensures Drain(New(charset, minLength, maxLength).value) == Enumerate(charset, minLength, maxLength)
  {
    var g := New(charset, minLength, maxLength).value;
    DrainFrom(g);
    WordsLength(charset, minLength);
    assert Words(charset, minLength)[0..] == Words(charset, minLength);
  }

  /** With a minimum length of 0 the very first `next` returns None and
      exhausts the generator, so it yields nothing at all, although the
      count includes the empty word and every longer class. */
  lemma DrainNewFromZero(charset: seq<char>, maxLength: nat)
    requires New(charset, 0, maxLength).Ok?
    ensures Next(New(charset, 0, maxLength).value).0 == None
    ensures Next(New(charset, 0, maxLength).value).1.exhausted
    ensures Drain(New(charset, 0, maxLength).value) == []
    ensures SumPow(|charset|, 0, maxLength) >= 1
  {
  }

  lemma {:induction false} EnumerateLength(charset: seq<char>, lo: nat, hi: nat)
    requires |charset| > 0
    ensures |Enumerate(charset, lo, hi)| == SumPow(|charset|, lo, hi)
    decreases hi - lo + 1
  {
    if lo <= hi {
      WordsLength(charset, lo);
      EnumerateLength(charset, lo + 1, hi);
    }
  }

  /** The first five candidates for charset "abc" and lengths 1 to 2. */
  lemma AbcExample()
    ensures New("abc", 1, 2).Ok?
    ensures Drain(New("abc", 1, 2).value)[..5] == ["a", "b", "c", "aa", "ab"]
  {
    DrainNew("abc", 1, 2);
    AbcFirstWords("abc");
  }

  lemma AbcFirstWords(cs: seq<char>)
    requires cs == ['a', 'b', 'c']
    ensures |Enumerate(cs, 1, 2)| >= 5
    ensures Enumerate(cs, 1, 2)[..5] == ["a", "b", "c", "aa", "ab"]
  {
    var w0 := Words(cs, 0);
    var w1 := Words(cs, 1);
    var w2 := Words(cs, 2);
    WordsLength(cs, 1);
    WordsLength(cs, 2);
    assert w0 == [[]];
    ExtendAt(w0, cs, 0, 0);
    ExtendAt(w0, cs, 0, 1);
    ExtendAt(w0, cs, 0, 2);
    assert [] + ['a'] == "a" && [] + ['b'] == "b" && [] + ['c'] == "c";
    assert |w1| == 3;
    assert w1 == ["a", "b", "c"];
    ExtendAt(w1, cs, 0, 0);
    ExtendAt(w1, cs, 0, 1);
    assert |w2| == 9;
    assert w2[0] == "aa" && w2[1] == "ab";
    assert Enumerate(cs, 1, 2) == w1 + (w2 + Enumerate(cs, 3, 2));
  }

  /** The source's count, computed as it computes it: each power is checked
      (an overflowing power makes the whole count None) and the sum
      saturates at the largest 64-bit value instead of wrapping. */
  method TotalCombinations(g: Generator) returns (r: Option<nat>)
    ensures r.None? <==> exists len :: g.minLength <= len <= g.maxLength && Pow(|g.charset|, len) > U64Max
    ensures r.Some? ==> r.value == Min(SumPow(|g.charset|, g.minLength, g.maxLength), U64Max)
  {
    var n := |g.charset|;
    var total := 0;
    var len := g.minLength;
    while len <= g.maxLength
      invariant g.minLength <= len <= Max(g.minLength, g.maxLength + 1)
      invariant total == Min(SumPow(n, g.minLength, len - 1), U64Max)
      invariant forall l :: g.minLength <= l < len ==> Pow(n, l) <= U64Max
      decreases g.maxLength - len
    {
      var combinations := Pow(n, len);
      if combinations > U64Max {
        assert g.minLength <= len <= g.maxLength && Pow(n, len) > U64Max;
        return None;
      }
      SumPowSnoc(n, g.minLength, len);
      total := Min(total + combinations, U64Max);
      len := len + 1;
    }
    return Some(total);
  }

  lemma {:induction false} SumPowSnoc(b: nat, lo: nat, hi: nat)
    requires lo <= hi
    ensures SumPow(b, lo, hi) == SumPow(b, lo, hi - 1) + Pow(b, hi)
    decreases hi - lo
  {
    if lo < hi {
      SumPowSnoc(b, lo + 1, hi);
    }
  }

  /** Every candidate the count includes is one the generator returns: with
      a minimum length of at least 1, the number of candidates returned is
      the sum of the powers. */
  lemma DrainCount(charset: seq<char>, minLength: nat, maxLength: nat)
    requires New(charset, minLength, maxLength).Ok? && minLength >= 1
    ensures |Drain(New(charset, minLength, maxLength).value)| == SumPow(|charset|, minLength, maxLength)
  {
    DrainNew(charset, minLength, maxLength);
    EnumerateLength(charset, minLength, maxLength);
  }

  /** For charset "ab" and lengths 1 to 3 there are 2 + 4 + 8 candidates. */
  lemma AbCount()
    ensures New("ab", 1, 3).Ok?
    ensures SumPow(2, 1, 3) == 14 && Pow(2, 3) <= U64Max
    ensures |Drain(New("ab", 1, 3).value)| == 14
  {
    DrainCount("ab", 1, 3);
  }

  /** For each maximum length `hi` from 1 to 20, the largest base whose
      `hi`-th power fits in 64 bits. */
  const Roots: seq<nat> := [0, 18446744073709551615, 4294967295, 2642245, 65535, 7131,
                            1625, 565, 255, 138, 84, 56, 40, 30, 23, 19, 15, 13, 11, 10, 9]

  /** Each listed root is the largest base that fits, and with that base the
      whole sum of powers from length 1 up still fits. */
  lemma RootFacts(hi: nat)
    requires 1 <= hi <= MaxLength
    ensures Pow(Roots[hi] + 1, hi) > U64Max
    ensures SumPow(Roots[hi], 1, hi) <= U64Max
  {
    if hi <= 10 {
      RootFactsUpTo10(hi);
    } else {
      RootFactsFrom11(hi);
    }
  }

  lemma RootFactsUpTo10(hi: nat)
    requires 1 <= hi <= 10
    ensures Pow(Roots[hi] + 1, hi) > U64Max
    ensures SumPow(Roots[hi], 1, hi) <= U64Max
  {
    match hi
    case 1 => Root1(Roots[hi]);
    case 2 => Root2(Roots[hi]);
    case 3 => Root3(Roots[hi]);
    case 4 => Root4(Roots[hi]);
    case 5 => Root5(Roots[hi]);
    case 6 => Root6(Roots[hi]);
    case 7 => Root7(Roots[hi]);
    case 8 => Root8(Roots[hi]);
    case 9 => Root9(Roots[hi]);
    case 10 => Root10(Roots[hi]);
  }

  lemma RootFactsFrom11(hi: nat)
    requires 11 <= hi <= MaxLength
    ensures Pow(Roots[hi] + 1, hi) > U64Max
    ensures SumPow(Roots[hi], 1, hi) <= U64Max
  {
    match hi
    case 11 => Root11(Roots[hi]);
    case 12 => Root12(Roots[hi]);
    case 13 => Root13(Roots[hi]);
    case 14 => Root14(Roots[hi]);
    case 15 => Root15(Roots[hi]);
    case 16 => Root16(Roots[hi]);
    case 17 => Root17(Roots[hi]);
    case 18 => Root18(Roots[hi]);
    case 19 => Root19(Roots[hi]);
    case 20 => Root20(Roots[hi]);
  }

  lemma Root1(r: nat)
    requires r == 18446744073709551615
    ensures Pow(r + 1, 1) > U64Max && SumPow(r, 1, 1) <= U64Max
  {
    assert Pow(18446744073709551616, 1) == 18446744073709551616;
    RootCase(1, 18446744073709551615, 18446744073709551615, 18446744073709551616);
  }

  lemma Root2(r: nat)
    requires r == 4294967295
    ensures Pow(r + 1, 2) > U64Max && SumPow(r, 1, 2) <= U64Max
  {
    assert Pow(4294967296, 2) == 18446744073709551616;
    RootCase(2, 4294967295, 18446744065119617025, 18446744073709551616);
  }

  lemma Root3(r: nat)
    requires r == 2642245
    ensures Pow(r + 1, 3) > U64Max && SumPow(r, 1, 3) <= U64Max
  {
    assert Pow(2642246, 3) == 18446745128696702936;
    RootCase(3, 2642245, 18446724184312856125, 18446745128696702936);
  }

  lemma Root4(r: nat)
    requires r == 65535
    ensures Pow(r + 1, 4) > U64Max && SumPow(r, 1, 4) <= U64Max
  {
    assert Pow(65536, 4) == 18446744073709551616;
    RootCase(4, 65535, 18445618199572250625, 18446744073709551616);
  }

  lemma Root5(r: nat)
    requires r == 7131
    ensures Pow(r + 1, 5) > U64Max && SumPow(r, 1, 5) <= U64Max
  {
    assert Pow(7132, 5) == 18452561970246802432;
    RootCase(5, 7131, 18439629140666724651, 18452561970246802432);
  }

  lemma Root6(r: nat)
    requires r == 1625
    ensures Pow(r + 1, 6) > U64Max && SumPow(r, 1, 6) <= U64Max
  {
    assert Pow(1626, 6) == 18480905552168525376;
    RootCase(6, 1625, 18412815093994140625, 18480905552168525376);
  }

  lemma Root7(r: nat)
    requires r == 565
    ensures Pow(r + 1, 7) > U64Max && SumPow(r, 1, 7) <= U64Max
  {
    assert Pow(566, 7) == 18608656460009757056;
    RootCase(7, 565, 18379730316001328125, 18608656460009757056);
  }

  lemma Root8(r: nat)
    requires r == 255
    ensures Pow(r + 1, 8) > U64Max && SumPow(r, 1, 8) <= U64Max
  {
    PowAdd(255, 4, 4);
    PowAdd(256, 4, 4);
    RootCase(8, 255, 17878103347812890625, 18446744073709551616);
  }

  lemma Root9(r: nat)
    requires r == 138
    ensures Pow(r + 1, 9) > U64Max && SumPow(r, 1, 9) <= U64Max
  {
    PowAdd(138, 4, 5);
    PowAdd(139, 4, 5);
    RootCase(9, 138, 18151468971815029248, 19370159742424031659);
  }

  lemma Root10(r: nat)
    requires r == 84
    ensures Pow(r + 1, 10) > U64Max && SumPow(r, 1, 10) <= U64Max
  {
    PowAdd(84, 5, 5);
    PowAdd(85, 5, 5);
    RootCase(10, 84, 17490122876598091776, 19687440434072265625);
  }

  lemma Root11(r: nat)
    requires r == 56
    ensures Pow(r + 1, 11) > U64Max && SumPow(r, 1, 11) <= U64Max
  {
    PowAdd(56, 5, 6);
    PowAdd(57, 5, 6);
    RootCase(11, 56, 16985107389382393856, 20635899893042801193);
  }

  lemma Root12(r: nat)
    requires r == 40
    ensures Pow(r + 1, 12) > U64Max && SumPow(r, 1, 12) <= U64Max
  {
    PowAdd(40, 6, 6);
    PowAdd(41, 6, 6);
    RootCase(12, 40, 16777216000000000000, 22563490300366186081);
  }

  lemma Root13(r: nat)
    requires r == 30
    ensures Pow(r + 1, 13) > U64Max && SumPow(r, 1, 13) <= U64Max
  {
    PowAdd(30, 6, 7);
    PowAdd(31, 6, 7);
    RootCase(13, 30, 15943230000000000000, 24417546297445042591);
  }

  lemma Root14(r: nat)
    requires r == 23
    ensures Pow(r + 1, 14) > U64Max && SumPow(r, 1, 14) <= U64Max
  {
    PowAdd(23, 7, 7);
    PowAdd(24, 7, 7);
    RootCase(14, 23, 11592836324538749809, 21035720123168587776);
  }

  lemma Root15(r: nat)
    requires r == 19
    ensures Pow(r + 1, 15) > U64Max && SumPow(r, 1, 15) <= U64Max
  {
    PowAdd(19, 7, 8);
    PowAdd(20, 7, 8);
    RootCase(15, 19, 15181127029874798299, 32768000000000000000);
  }

  lemma Root16(r: nat)
    requires r == 15
    ensures Pow(r + 1, 16) > U64Max && SumPow(r, 1, 16) <= U64Max
  {
    PowAdd(15, 8, 8);
    PowAdd(16, 8, 8);
    RootCase(16, 15, 6568408355712890625, 18446744073709551616);
  }

  lemma Root17(r: nat)
    requires r == 13
    ensures Pow(r + 1, 17) > U64Max && SumPow(r, 1, 17) <= U64Max
  {
    PowAdd(13, 8, 9);
    PowAdd(14, 8, 9);
    RootCase(17, 13, 8650415919381337933, 30491346729331195904);
  }

  lemma Root18(r: nat)
    requires r == 11
    ensures Pow(r + 1, 18) > U64Max && SumPow(r, 1, 18) <= U64Max
  {
    PowAdd(11, 9, 9);
    PowAdd(12, 9, 9);
    RootCase(18, 11, 5559917313492231481, 26623333280885243904);
  }

  lemma Root19(r: nat)
    requires r == 10
    ensures Pow(r + 1, 19) > U64Max && SumPow(r, 1, 19) <= U64Max
  {
    PowAdd(10, 9, 10);
    PowAdd(11, 9, 10);
    RootCase(19, 10, 10000000000000000000, 61159090448414546291);
  }

  lemma Root20(r: nat)
    requires r == 9
    ensures Pow(r + 1, 20) > U64Max && SumPow(r, 1, 20) <= U64Max
  {
    PowAdd(9, 10, 10);
    PowAdd(10, 10, 10);
    RootCase(20, 9, 12157665459056928801, 100000000000000000000);
  }

  /** The two facts about one root `r` of exponent `h`, from the values `p`
      and `q` of its power and of the next base's power. */
  lemma RootCase(h: nat, r: nat, p: nat, q: nat)
    requires r >= 2 && Pow(r, h) == p && Pow(r + 1, h) == q
    requires q > U64Max && r * p - r <= U64Max * (r - 1)
    ensures Pow(r + 1, h) > U64Max && SumPow(r, 1, h) <= U64Max
  {
    var sum := SumPow(r, 1, h);
    Geometric(r, h);
    if sum > U64Max {
      MulLeft(U64Max + 1, sum, r - 1);
      Distribute(U64Max, r - 1);
    }
  }

  /** The geometric series: (b + b^2 + ... + b^hi) * (b - 1) == b^(hi+1) - b. */
  lemma {:induction false} Geometric(b: nat, hi: nat)
    requires b >= 1
    ensures SumPow(b, 1, hi) * (b - 1) + b == b * Pow(b, hi)
    decreases hi
  {
    if hi > 0 {
      Geometric(b, hi - 1);
      SumPowSnoc(b, 1, hi);
      var s, p := SumPow(b, 1, hi - 1), Pow(b, hi);
      assert SumPow(b, 1, hi) == s + p;
      assert s * (b - 1) + b == p;
      DistributeSum(s, p, b - 1);
      DistributeSum(1, b - 1, p);
      assert (s + p) * (b - 1) + b == p + p * (b - 1);
    }
  }

  lemma DistributeSum(x: int, y: int, z: int)
    ensures (x + y) * z == x * z + y * z
    ensures z * (x + y) == x * z + y * z
  {
  }

  /** Exponents add. */
  lemma {:induction false} PowAdd(b: nat, x: nat, y: nat)
    ensures Pow(b, x + y) == Pow(b, x) * Pow(b, y)
    decreases x
  {
    if x > 0 {
      PowAdd(b, x - 1, y);
      MulAssoc(b, Pow(b, x - 1), Pow(b, y));
    }
  }

  lemma MulAssoc(x: int, y: int, z: int)
    ensures x * (y * z) == (x * y) * z
  {
  }

  lemma {:induction false} PowMonotone(n: nat, m: nat, e: nat)
    requires n <= m
    ensures Pow(n, e) <= Pow(m, e)
    decreases e
  {
    if e > 0 {
      PowMonotone(n, m, e - 1);
      MulLeft(n, m, Pow(n, e - 1));
      MulLeft(Pow(n, e - 1), Pow(m, e - 1), m);
    }
  }

  lemma {:induction false} SumPowMonotone(n: nat, m: nat, lo: nat, hi: int)
    requires n <= m
    ensures SumPow(n, lo, hi) <= SumPow(m, lo, hi)
    decreases hi - lo + 1
  {
    if lo <= hi {
      PowMonotone(n, m, lo);
      SumPowMonotone(n, m, lo + 1, hi);
    }
  }

  lemma {:induction false} SumPowFewer(n: nat, lo: nat, hi: int)
    requires 1 <= lo
    ensures SumPow(n, lo, hi) <= SumPow(n, 1, hi)
    decreases lo
  {
    if lo > 1 {
      SumPowFewer(n, lo - 1, hi);
    }
  }

  /** With a minimum length of at least 1 the saturating sum never saturates:
      whenever the largest power fits in 64 bits, so does the whole sum. */
  lemma NoSaturation(n: nat, lo: nat, hi: nat)
    requires 1 <= lo && hi <= MaxLength && Pow(n, hi) <= U64Max
    ensures SumPow(n, lo, hi) <= U64Max
  {
    if lo <= hi {
      RootFacts(hi);
      var root := Roots[hi];
      if n > root {
        PowMonotone(root + 1, n, hi);
      }
      SumPowFewer(n, lo, hi);
      SumPowMonotone(n, root, 1, hi);
    }
  }

  /** When the count is Some and the minimum length is at least 1, the count
      is exactly the number of candidates the generator returns. */
  lemma CountMatchesDrain(charset: seq<char>, minLength: nat, maxLength: nat)
    requires New(charset, minLength, maxLength).Ok? && minLength >= 1
    requires forall len :: minLength <= len <= maxLength ==> Pow(|charset|, len) <= U64Max
    ensures Min(SumPow(|charset|, minLength, maxLength), U64Max) == |Drain(New(charset, minLength, maxLength).value)|
  {
    DrainCount(charset, minLength, maxLength);
    NoSaturation(|charset|, minLength, maxLength);
  }
}
