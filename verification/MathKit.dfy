/**
 Integers that switch between a machine word and an arbitrary precision integer
 (`pkg/mathkit`), and the long-distance duration built on them (`pkg/timekit`).

 The width is symbolic: a signed word holds -MAX-1 .. MAX, for any MAX up to that of 64 bits.
 Every operation on words wraps around explicitly.
 */
module MathKit {
  /** Largest value of a signed word type. */
  predicate Width(max: int) {
    1 <= max <= 0x7FFF_FFFF_FFFF_FFFF
  }

  function MinInt(max: int): int { -max - 1 }

  predicate InRange(max: int, x: int) {
    MinInt(max) <= x <= max
  }

  function Abs(x: int): (r: nat)
    ensures r == x || r == -x
  {
    if x < 0 then -x else x
  }

  lemma MulLeft(p: nat, a: int, b: int)
    requires a <= b
    ensures p * a <= p * b
  {
  }

  lemma ProductSign(x: int, y: int)
    ensures 0 < x && 0 < y ==> x * y == Abs(x) * Abs(y) && 0 < x * y
    ensures x < 0 && y < 0 ==> x * y == Abs(x) * Abs(y) && 0 < x * y
    ensures (x < 0 && 0 < y) || (0 < x && y < 0) ==> x * y == -(Abs(x) * Abs(y)) && x * y < 0
  {
  }

  lemma {:induction false} UniqueQuotient(a: int, b: int, q: int, r: int)
    requires b != 0 && a == b * q + r && 0 <= r < Abs(b)
    ensures q == a / b && r == a % b
  {
    var k := q - a / b;
    assert a == b * (a / b) + a % b;
    assert b * k == a % b - r;
    if k != 0 {
      MulLeft(Abs(b), 1, Abs(k));
      ProductSign(b, k);
    }
  }

  lemma ModBasics(y: int, m: int)
    requires 0 < m
    ensures 0 <= y % m < m
    ensures 0 <= y < m ==> y % m == y
    ensures -m <= y < 0 ==> y % m == y + m
    ensures m <= y < 2 * m ==> y % m == y - m
  {
    if 0 <= y < m {
      UniqueQuotient(y, m, 0, y);
    } else if -m <= y < 0 {
      UniqueQuotient(y, m, -1, y + m);
    } else if m <= y < 2 * m {
      UniqueQuotient(y, m, 1, y - m);
    }
  }

  /** Two's complement wrap-around. */
  function Wrap(max: int, x: int): (r: int)
    requires Width(max)
    ensures InRange(max, r)
    ensures InRange(max, x) ==> r == x
  {
    ModBasics(x - MinInt(max), 2 * max + 2);
    (x - MinInt(max)) % (2 * max + 2) + MinInt(max)
  }

  const UINT64: int := 0x1_0000_0000_0000_0000

  /** Conversion to the unsigned 64 bit type. */
  function ToUint64(x: int): int { x % UINT64 }

  function CanIntSumOverflow(max: int, a: int, b: int): bool
    requires Width(max)
  {
    var less, more := if b < a then b else a, if b < a then a else b;
    if 0 < less && 0 < more then
      Wrap(max, max - more) < less
    else if less < 0 && more < 0 then
      more < Wrap(max, MinInt(max) - less)
    else
      false
  }

  function AbsInt(max: int, n: int): int
    requires Width(max)
  {
    if n == MinInt(max) then ToUint64(ToUint64(Wrap(max, n - 1)) + 1)
    else ToUint64(if n < 0 then Wrap(max, -n) else n)
  }

  predicate IsMulResPositive(x: int, y: int) {
    if x < 0 && 0 < y then false
    else if 0 < x && y < 0 then false
    else true
  }

  function CanIntMulOverflow(max: int, x: int, y: int): bool
    requires Width(max)
  {
    if x == 0 || y == 0 then false
    else
      var m := if IsMulResPositive(x, y) then AbsInt(max, max) else AbsInt(max, MinInt(max));
      var ax := AbsInt(max, x);
      ax != 0 && m / ax < AbsInt(max, y)
  }

  /** The word below the smallest one wraps to the largest. */
  lemma WrapBelow(max: int)
    requires Width(max)
    ensures Wrap(max, MinInt(max) - 1) == max
  {
    ModBasics(-1, 2 * max + 2);
  }

  /** The absolute value is exact, also for the smallest word. */
  lemma AbsIntExact(max: int, n: int)
    requires Width(max) && InRange(max, n)
    ensures AbsInt(max, n) == Abs(n)
  {
    hide Wrap;
    WrapBelow(max);
  }

  /** The overflow test for sums is exact in both directions. */
  lemma SumOverflowExact(max: int, a: int, b: int)
    requires Width(max) && InRange(max, a) && InRange(max, b)
    ensures CanIntSumOverflow(max, a, b) <==> !InRange(max, a + b)
  {
    hide Wrap;
  }

  lemma QuotientBelow(m: nat, p: nat, q: nat)
    requires 0 < p
    ensures m / p < q <==> m < p * q
  {
    assert m == p * (m / p) + m % p;
    if m / p < q {
      MulLeft(p, m / p + 1, q);
      assert p * (m / p + 1) == p * (m / p) + p;
    } else {
      MulLeft(p, q, m / p);
    }
  }

  /** So is the overflow test for products. */
  lemma MulOverflowExact(max: int, x: int, y: int)
    requires Width(max) && InRange(max, x) && InRange(max, y)
    ensures CanIntMulOverflow(max, x, y) <==> !InRange(max, x * y)
  {
    hide Wrap, AbsInt;
    if x != 0 && y != 0 {
      AbsIntExact(max, max);
      AbsIntExact(max, MinInt(max));
      AbsIntExact(max, x);
      AbsIntExact(max, y);
      ProductSign(x, y);
      var m := if IsMulResPositive(x, y) then max else max + 1;
      QuotientBelow(m, Abs(x), Abs(y));
    }
  }

  // ---------------------------------------------------------------- BigInt

  /** A word while the value fits, an arbitrary precision integer otherwise. */
  datatype BigInt = Small(n: int) | Big(i: int) {
    function Value(): int { if Small? then n else i }

    ghost predicate Canonical(max: int) {
      Small? <==> InRange(max, Value())
    }
  }

  function Cmp(a: int, b: int): int {
    if a < b then -1 else if a == b then 0 else 1
  }

  function Compare(a: BigInt, b: BigInt): int {
    if a.Small? && b.Small? then Cmp(a.n, b.n)
    else Cmp(SwitchToBig(a).i, SwitchToBig(b).i)
  }

  function SwitchToBig(a: BigInt): (r: BigInt)
    ensures r.Big?
  {
    if a.Big? then a else Big(a.n)
  }

  function TryToSwitchToInt(max: int, a: BigInt): BigInt
    requires Width(max)
  {
    if a.Small? then a
    else
      var cmp := Compare(a, Small(0));
      if cmp == 0 then Small(0)
      else if cmp < 0 && 0 <= Compare(a, Small(MinInt(max))) then Small(a.i)
      else if 0 < cmp && Compare(a, Small(max)) <= 0 then Small(a.i)
      else a
  }

  function Of(n: int): BigInt { Small(n) }

  function Add(max: int, a: BigInt, b: BigInt): BigInt
    requires Width(max)
  {
    if a.Small? && b.Small? && !CanIntSumOverflow(max, a.n, b.n) then Small(Wrap(max, a.n + b.n))
    else TryToSwitchToInt(max, Big(SwitchToBig(a).i + SwitchToBig(b).i))
  }

  function Sub(max: int, a: BigInt, b: BigInt): BigInt
    requires Width(max)
  {
    if a.Small? && b.Small? && !CanIntSumOverflow(max, a.n, Wrap(max, -b.n)) then Small(Wrap(max, a.n - b.n))
    else TryToSwitchToInt(max, Big(SwitchToBig(a).i - SwitchToBig(b).i))
  }

  function Mul(max: int, a: BigInt, b: BigInt): BigInt
    requires Width(max)
  {
    if a.Small? && b.Small? && !CanIntMulOverflow(max, a.n, b.n) then Small(Wrap(max, a.n * b.n))
    else TryToSwitchToInt(max, Big(SwitchToBig(a).i * SwitchToBig(b).i))
  }

  function Magnitude(a: int, b: int): int
    requires b != 0
  {
    Abs(a) / Abs(b)
  }

  /** Word division truncates toward zero. */
  function Truncated(a: int, b: int): int
    requires b != 0
  {
    if (a < 0) == (b < 0) then Magnitude(a, b) else -Magnitude(a, b)
  }

  /** Words divide by truncation, big integers by the Euclidean rule; a zero divisor panics. */
  function Div(max: int, a: BigInt, b: BigInt): BigInt
    requires Width(max) && b.Value() != 0
  {
    if a.Small? && b.Small? then Small(Wrap(max, Truncated(a.n, b.n)))
    else TryToSwitchToInt(max, Big(SwitchToBig(a).i / SwitchToBig(b).i))
  }

  function AbsBig(max: int, a: BigInt): BigInt
    requires Width(max)
  {
    if a.Small? && 0 <= a.n then a
    else if a.Small? && MinInt(max) < a.n then Small(Wrap(max, -a.n))
    else TryToSwitchToInt(max, Big(Abs(SwitchToBig(a).i)))
  }

  lemma SwitchCanonical(max: int, x: int)
    requires Width(max)
    ensures TryToSwitchToInt(max, Big(x)).Canonical(max) && TryToSwitchToInt(max, Big(x)).Value() == x
  {
  }

  lemma SwitchKeeps(max: int, a: BigInt)
    requires Width(max) && a.Canonical(max)
    ensures TryToSwitchToInt(max, a) == a
  {
  }

  /** Sum, product, absolute value and comparison are those of the integers, in canonical form. */
  lemma ExactArithmetic(max: int, a: BigInt, b: BigInt)
    requires Width(max) && a.Canonical(max) && b.Canonical(max)
    ensures Add(max, a, b).Canonical(max) && Add(max, a, b).Value() == a.Value() + b.Value()
    ensures Mul(max, a, b).Canonical(max) && Mul(max, a, b).Value() == a.Value() * b.Value()
    ensures AbsBig(max, a).Canonical(max) && AbsBig(max, a).Value() == Abs(a.Value())
    ensures Compare(a, b) == Cmp(a.Value(), b.Value())
    ensures (Compare(a, b) < 0 <==> a.Value() < b.Value()) && (Compare(a, b) == 0 <==> a.Value() == b.Value())
  {
    hide CanIntSumOverflow, CanIntMulOverflow, TryToSwitchToInt, Wrap;
    if a.Small? && b.Small? {
      SumOverflowExact(max, a.n, b.n);
      MulOverflowExact(max, a.n, b.n);
    }
    SwitchCanonical(max, a.Value() + b.Value());
    SwitchCanonical(max, a.Value() * b.Value());
    SwitchCanonical(max, Abs(a.Value()));
  }

  /**
   The difference is exact unless both are words, the subtrahend is the smallest word and the
   minuend is not negative.
   */
  lemma SubExact(max: int, a: BigInt, b: BigInt)
    requires Width(max) && a.Canonical(max) && b.Canonical(max)
    ensures Sub(max, a, b).Canonical(max)
    ensures Sub(max, a, b).Value() == a.Value() - b.Value() <==>
              !(a.Small? && b.Small? && b.n == MinInt(max) && 0 <= a.n)
  {
    SwitchCanonical(max, a.Value() - b.Value());
    if a.Small? && b.Small? {
      if b.n == MinInt(max) {
        assert Wrap(max, -b.n) == MinInt(max) by { WrapAbove(max); }
        SumOverflowExact(max, a.n, MinInt(max));
      } else {
        SumOverflowExact(max, a.n, -b.n);
      }
    }
  }

  /** The exception in eight bits: 0 - (-128) comes out as -128. */
  lemma SubWraps()
    ensures Sub(127, Small(0), Small(-128)) == Small(-128)
  {
    WrapAbove(127);
  }

  lemma WrapAbove(max: int)
    requires Width(max)
    ensures Wrap(max, max + 1) == MinInt(max)
  {
    ModBasics(2 * max + 2, 2 * max + 2);
  }

  /** Truncation is Euclidean division exactly when the dividend is not negative or the division is exact. */
  lemma TruncatedEuclid(a: int, b: int)
    requires b != 0
    ensures Truncated(a, b) == a / b <==> 0 <= a || a % b == 0
  {
    var q, r := Abs(a) / Abs(b), Abs(a) % Abs(b);
    assert Abs(a) == Abs(b) * q + r;
    if 0 <= a {
      assert b * Truncated(a, b) == Abs(b) * q;
      UniqueQuotient(a, b, Truncated(a, b), r);
    } else {
      assert b * Truncated(a, b) == -(Abs(b) * q);
      if r == 0 {
        UniqueQuotient(a, b, Truncated(a, b), 0);
      } else {
        var up := if 0 < b then Truncated(a, b) - 1 else Truncated(a, b) + 1;
        assert b * up == b * Truncated(a, b) - Abs(b);
        UniqueQuotient(a, b, up, Abs(b) - r);
      }
    }
  }

  /** Truncation: what is left has the sign of the dividend and is smaller than the divisor. */
  lemma TruncatedMeaning(a: int, b: int)
    requires b != 0
    ensures var left := a - b * Truncated(a, b);
      Abs(left) < Abs(b) && (left == 0 || (left < 0 <==> a < 0))
  {
    var q, r := Abs(a) / Abs(b), Abs(a) % Abs(b);
    assert Abs(a) == Abs(b) * q + r;
    if 0 <= a {
      assert b * Truncated(a, b) == Abs(b) * q;
    } else {
      assert b * Truncated(a, b) == -(Abs(b) * q);
    }
  }

  /**
   As soon as one operand is a big integer the quotient is the Euclidean one, in canonical
   form: what is left is never negative and smaller than the divisor.
   */
  lemma DivBig(max: int, a: BigInt, b: BigInt)
    requires Width(max) && b.Value() != 0 && (a.Big? || b.Big?)
    ensures Div(max, a, b).Canonical(max)
    ensures var left := a.Value() - b.Value() * Div(max, a, b).Value(); 0 <= left < Abs(b.Value())
  {
    hide TryToSwitchToInt;
    SwitchCanonical(max, a.Value() / b.Value());
    assert a.Value() == b.Value() * (a.Value() / b.Value()) + a.Value() % b.Value();
  }

  /** In words the quotient is the truncated one, unless that does not fit. */
  lemma DivWords(max: int, a: int, b: int)
    requires Width(max) && InRange(max, a) && InRange(max, b) && b != 0
    ensures Div(max, Small(a), Small(b)).Canonical(max)
    ensures Div(max, Small(a), Small(b)).Value() ==
      if a == MinInt(max) && b == -1 then MinInt(max) else Truncated(a, b)
  {
    hide Magnitude;
    TruncatedFits(max, a, b);
    if a == MinInt(max) && b == -1 {
      WrapAbove(max);
    }
  }

  /**
   The two modes of Div agree, on words, exactly when the dividend is not negative or is a
   multiple of the divisor, and the quotient is not the one that does not fit.
   */
  lemma DivModesAgree(max: int, a: int, b: int)
    requires Width(max) && InRange(max, a) && InRange(max, b) && b != 0
    ensures Div(max, Small(a), Small(b)).Canonical(max)
    ensures Div(max, Small(a), Small(b)) == Div(max, Big(a), Big(b)) <==>
              (0 <= a || a % b == 0) && !(a == MinInt(max) && b == -1)
  {
    SwitchCanonical(max, a / b);
    TruncatedEuclid(a, b);
    TruncatedFits(max, a, b);
    if a == MinInt(max) && b == -1 {
      WrapAbove(max);
    }
  }

  /** In eight bits: -7 / 2 is -3 in words and -4 in big integers, and -128 / -1 is -128 in words. */
  lemma DivModesDiffer()
    ensures Div(127, Small(-7), Small(2)) == Small(-3) && Div(127, Big(-7), Big(2)) == Small(-4)
    ensures Div(127, Small(-128), Small(-1)) == Small(-128) && Div(127, Big(-128), Big(-1)) == Big(128)
  {
    WrapAbove(127);
    ByMinusOne(-128);
  }

  lemma TruncatedFits(max: int, a: int, b: int)
    requires Width(max) && InRange(max, a) && InRange(max, b) && b != 0
    ensures InRange(max, Truncated(a, b)) <==> !(a == MinInt(max) && b == -1)
    ensures a == MinInt(max) && b == -1 ==> Truncated(a, b) == max + 1 && a / b == max + 1
  {
    hide Magnitude;
    MagnitudeFits(max, a, b);
    SignedFits(max, a, b, Magnitude(a, b));
    if b == -1 {
      ByMinusOne(a);
    }
  }

  lemma MagnitudeFits(max: int, a: int, b: int)
    requires Width(max) && InRange(max, a) && b != 0
    ensures var q := Magnitude(a, b);
      0 <= q <= max + 1 && (q == max + 1 <==> Abs(a) == max + 1 && Abs(b) == 1)
  {
    QuotientFits(max, Abs(a), Abs(b));
  }

  lemma ByMinusOne(a: int)
    ensures a / -1 == -a && Truncated(a, -1) == -a
  {
    UniqueQuotient(a, -1, -a, 0);
    UniqueQuotient(Abs(a), 1, Abs(a), 0);
  }

  lemma SignedFits(max: int, a: int, b: int, q: int)
    requires Width(max) && InRange(max, a) && b != 0
    requires 0 <= q <= max + 1 && (q == max + 1 <==> Abs(a) == max + 1 && Abs(b) == 1)
    ensures InRange(max, if (a < 0) == (b < 0) then q else -q) <==> !(a == MinInt(max) && b == -1)
  {
  }

  lemma QuotientFits(max: int, a: nat, b: nat)
    requires Width(max) && a <= max + 1 && 0 < b
    ensures a / b <= max + 1 && (a / b == max + 1 <==> a == max + 1 && b == 1)
    ensures b == 1 ==> a / b == a
    ensures a != max + 1 ==> a / b <= max
  {
    QuotientBelow(a, b, max + 1);
    QuotientBelow(a, b, max + 2);
    if b == 1 {
      UniqueQuotient(a, 1, a, 0);
    } else {
      MulLeft(max + 1, 2, b);
      MulLeft(max + 2, 2, b);
    }
  }

  // ---------------------------------------------------------------- iteration

  function Sum(xs: seq<int>): int {
    if xs == [] then 0 else Sum(xs[..|xs| - 1]) + xs[|xs| - 1]
  }

  /** The words that Iter hands to a consumer that never stops it. */
  method Iter(max: int, b: BigInt) returns (words: seq<int>)
    requires Width(max) && b.Canonical(max)
    ensures Sum(words) == b.Value()
    ensures forall i :: 0 <= i < |words| ==>
      InRange(max, words[i]) && words[i] != 0 && (words[i] < 0 <==> b.Value() < 0)
    ensures forall i :: 0 <= i < |words| - 1 ==> words[i] == if b.Value() < 0 then -max else max
    ensures b.Small? && b.n != 0 ==> words == [b.n]
  {
    hide Wrap, CanIntSumOverflow, CanIntMulOverflow, TryToSwitchToInt, AbsBig;
    var cmp := Compare(b, Of(0));
    if cmp == 0 {
      return [];
    }
    if b.Small? {
      assert Sum([b.n]) == Sum([]) + b.n;
      return [b.n];
    }
    var isNegative := cmp < 0;
    var upper := SwitchToBig(Small(max));
    var cursor := AbsBig(max, b);
    ExactArithmetic(max, b, b);
    words := [];
    while Compare(cursor, upper) > 0
      invariant cursor.Canonical(max) && 0 < cursor.Value()
      invariant Sum(words) + (if isNegative then -cursor.Value() else cursor.Value()) == b.Value()
      invariant forall i :: 0 <= i < |words| ==> words[i] == if isNegative then -max else max
      decreases cursor.Value()
    {
      words := words + [if isNegative then Wrap(max, -max) else max];
      SwitchCanonical(max, cursor.Value() - max);
      cursor := Sub(max, cursor, upper);
    }
    var last := TryToSwitchToInt(max, cursor);
    SwitchKeeps(max, cursor);
    ghost var before := words;
    words := words + [if isNegative then Wrap(max, -last.n) else last.n];
    assert words[..|before|] == before;
  }
}

/** Distances between instants that no machine word can hold. */
module TimeKit {
  import opened MathKit

  /** Instants are counted in nanoseconds. */
  type Time = int

  /** The standard library's difference of two instants: saturated at the ends of the word. */
  function SubTime(max: int, t: Time, u: Time): int {
    if t - u > max then max else if t - u < MinInt(max) then MinInt(max) else t - u
  }

  datatype Duration = Duration(i: BigInt)

  function AddDuration(max: int, d: Duration, step: int): Duration
    requires Width(max)
  {
    Duration(Add(max, d.i, Of(step)))
  }

  /** The exact distance, although every single difference saturates. */
  method Between(max: int, from: Time, till: Time) returns (d: Duration)
    requires Width(max)
    ensures d.i.Canonical(max) && d.i.Value() == till - from
  {
    d := Duration(Small(0));
    var cursor := from;
    while true
      invariant d.i.Canonical(max) && d.i.Value() == cursor - from
      decreases Abs(till - cursor)
    {
      var remaining := SubTime(max, till, cursor);
      if remaining == 0 {
        break;
      }
      ExactArithmetic(max, d.i, Of(remaining));
      cursor := cursor + remaining;
      d := AddDuration(max, d, remaining);
    }
  }

  method AddTo(max: int, d: Duration, t: Time) returns (r: Time)
    requires Width(max) && d.i.Canonical(max)
    ensures r == t + d.i.Value()
  {
    var steps := Iter(max, d.i);
    r := t;
    for k := 0 to |steps|
      invariant r == t + Sum(steps[..k])
    {
      assert steps[..k + 1][..k] == steps[..k];
      r := r + steps[k];
    }
    assert steps[..|steps|] == steps;
  }

  /** Going the distance between two instants leads from the one to the other. */
  method RoundTrip(max: int, from: Time, till: Time) returns (r: Time)
    requires Width(max)
    ensures r == till
  {
    var d := Between(max, from, till);
    r := AddTo(max, d, from);
  }
}
