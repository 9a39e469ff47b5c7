/**
 * The trimmed weighted vote average of bot.py, lines 217-253: about a tenth of
 * all votes is drained from the low end of the score histogram, as many again
 * from the high end, and the remaining votes are averaged by score.
 *
 * The rounding argument `total/10 + 0.01` is an exact real here, where Python
 * computes it as a float. The real stays at least 0.01 away from every
 * half-integer, so the two trim counts agree while the float's rounding error
 * stays below 0.01, which holds for vote totals up to about 10^14 (see
 * TrimCountIsRoundedTenth). The average is kept as the exact fraction
 * weighted sum / votes left.
 */
module Aggregator {

  /** Python's sum() over a list of ints. */
  function Sum(s: seq<int>): int
  {
    if s == [] then 0 else s[0] + Sum(s[1..])
  }

  lemma {:induction false} SumSnoc(s: seq<int>, x: int)
    ensures Sum(s + [x]) == Sum(s) + x
  {
    if s != [] {
      assert (s + [x])[1..] == s[1..] + [x];
      SumSnoc(s[1..], x);
    }
  }

  lemma {:induction false} SumNonNegative(s: seq<int>)
    requires forall i :: 0 <= i < |s| ==> s[i] >= 0
    ensures Sum(s) >= 0
    ensures Sum(s) == 0 ==> forall i :: 0 <= i < |s| ==> s[i] == 0
  {
    if s != [] {
      SumNonNegative(s[1..]);
      forall i | 0 <= i < |s| && Sum(s) == 0 ensures s[i] == 0 {
        if i > 0 { assert s[i] == s[1..][i - 1]; }
      }
    }
  }

  /** math.ceil */
  function Ceil(x: real): (r: int)
    ensures r as real - 1.0 < x <= r as real
  {
    if x.Floor as real == x then x.Floor else x.Floor + 1
  }

  /** normal_round: a real rounded to the nearest integer, halves rounded up. */
  function NormalRound(x: real): (r: int)
    ensures r as real - 0.5 <= x < r as real + 0.5
  {
    if x - x.Floor as real < 0.5 then x.Floor else Ceil(x)
  }

  /** The number of votes trimmed from each tail, as bot.py line 230 computes it. */
  function TrimCount(total: int): int
  {
    NormalRound(total as real / 10.0 + 0.01)
  }

  /** A tenth of the total, rounded half up, in integer arithmetic. */
  function RoundedTenth(total: int): int
  {
    (total + 5) / 10
  }

  /** For integer totals the rounding of total/10 + 0.01 is integer division of total + 5 by ten. */
  lemma TrimCountIsRoundedTenth(total: int)
    ensures TrimCount(total) == RoundedTenth(total)
  {
    var q, r := total / 10, total % 10;
    var x := total as real / 10.0 + 0.01;
    assert total == 10 * q + r;
    assert x == q as real + (r as real / 10.0 + 0.01);
    assert 0.0 <= r as real / 10.0 + 0.01 < 1.0;
    assert x.Floor == q;
    if r <= 4 {
      assert x - x.Floor as real < 0.5;
      assert (total + 5) / 10 == q;
    } else {
      assert x - x.Floor as real >= 0.5;
      assert (total + 5) / 10 == q + 1;
    }
  }

  /** The divisor of bot.py line 253 is positive whenever there is a vote, so the division never faults. */
  lemma TrimLeavesVotes(total: int)
    requires total > 0
    ensures 0 <= TrimCount(total) <= total / 10 + 1
    ensures 2 * TrimCount(total) < total
  {
    TrimCountIsRoundedTenth(total);
  }

  /** Even for a negative total (a histogram with negative buckets) the divisor is not zero. */
  lemma TrimDivisorNonZero(total: int)
    requires total != 0
    ensures total - 2 * TrimCount(total) != 0
  {
    TrimCountIsRoundedTenth(total);
  }

  /**
   * The low-end pass of `remove` (bot.py lines 232-246) on buckets `s`, with
   * `need` votes still to remove: a positive bucket larger than what is still
   * needed gives up exactly that and the scan stops; any other positive bucket
   * is emptied; other buckets are skipped.
   */
  function DrainFront(s: seq<int>, need: int): (r: seq<int>)
    ensures |r| == |s|
  {
    if s == [] then []
    else if s[0] > 0 && s[0] > need then [s[0] - need] + s[1..]
    else if s[0] > 0 then [0] + DrainFront(s[1..], need - s[0])
    else [s[0]] + DrainFront(s[1..], need)
  }

  /** The high-end pass (bot.py line 247): the same drain, scanning from the last bucket down. */
  function DrainBack(s: seq<int>, need: int): (r: seq<int>)
    ensures |r| == |s|
  {
    if s == [] then []
    else
      var last, init := s[|s| - 1], s[..|s| - 1];
      if last > 0 && last > need then init + [last - need]
      else if last > 0 then DrainBack(init, need - last) + [0]
      else DrainBack(init, need) + [last]
  }

  function Min(a: int, b: int): int { if a <= b then a else b }

  predicate NonNegative(s: seq<int>)
  {
    forall i :: 0 <= i < |s| ==> s[i] >= 0
  }

  /** The low pass only lowers buckets and never drives one below zero. */
  lemma {:induction false} DrainFrontBounded(s: seq<int>, need: int)
    requires NonNegative(s) && need >= 0
    ensures var r := DrainFront(s, need); forall i :: 0 <= i < |s| ==> 0 <= r[i] <= s[i]
  {
    if s != [] {
      var r := DrainFront(s, need);
      if s[0] > 0 && s[0] > need {
        assert r[1..] == s[1..];
      } else {
        var n' := if s[0] > 0 then need - s[0] else need;
        DrainFrontBounded(s[1..], n');
        assert r[1..] == DrainFront(s[1..], n');
        forall i | 0 < i < |s| ensures 0 <= r[i] <= s[i] {
          assert r[i] == r[1..][i - 1];
        }
      }
    }
  }

  /** The low pass takes exactly the trim count, or every vote when there are fewer. */
  lemma {:induction false} DrainFrontRemoves(s: seq<int>, need: int)
    requires NonNegative(s) && need >= 0
    ensures Sum(s) - Sum(DrainFront(s, need)) == Min(need, Sum(s))
  {
    if s != [] {
      var t := s[1..];
      SumNonNegative(t);
      if s[0] > 0 && s[0] > need {
      } else if s[0] > 0 {
        DrainFrontRemoves(t, need - s[0]);
      } else {
        DrainFrontRemoves(t, need);
      }
    }
  }

  /** The low pass is greedy: a bucket is only touched when every bucket below it has been emptied. */
  lemma {:induction false} DrainFrontGreedy(s: seq<int>, need: int)
    requires NonNegative(s)
    ensures forall i, j :: 0 <= i < j < |s| && DrainFront(s, need)[j] < s[j] ==> DrainFront(s, need)[i] == 0
  {
    if s != [] {
      var r := DrainFront(s, need);
      var t := s[1..];
      if s[0] > 0 && s[0] > need {
        assert r[1..] == t;
      } else {
        var n' := if s[0] > 0 then need - s[0] else need;
        assert NonNegative(t) by {
          forall k | 0 <= k < |t| ensures t[k] >= 0 { assert t[k] == s[k + 1]; }
        }
        DrainFrontGreedy(t, n');
        var rt := DrainFront(t, n');
        assert r[1..] == rt;
        forall i, j | 0 <= i < j < |s| && r[j] < s[j] ensures r[i] == 0 {
          assert r[j] == rt[j - 1] && s[j] == t[j - 1];
          if i > 0 { assert r[i] == rt[i - 1]; }
        }
      }
    }
  }

  /** The low pass stops at the first bucket it leaves votes in: every bucket above that one is untouched. */
  lemma {:induction false} DrainFrontStops(s: seq<int>, need: int)
    requires NonNegative(s)
    ensures forall i, j :: 0 <= i < j < |s| && DrainFront(s, need)[i] > 0 ==> DrainFront(s, need)[j] == s[j]
  {
    if s != [] {
      var r := DrainFront(s, need);
      var t := s[1..];
      if s[0] > 0 && s[0] > need {
        assert r[1..] == t;
        forall j | 0 < j < |s| ensures r[j] == s[j] {
          assert r[j] == r[1..][j - 1] && s[j] == t[j - 1];
        }
      } else {
        var n' := if s[0] > 0 then need - s[0] else need;
        assert NonNegative(t) by {
          forall k | 0 <= k < |t| ensures t[k] >= 0 { assert t[k] == s[k + 1]; }
        }
        DrainFrontStops(t, n');
        var rt := DrainFront(t, n');
        assert r[1..] == rt && r[0] == 0;
        forall i, j | 0 <= i < j < |s| && r[i] > 0 ensures r[j] == s[j] {
          assert r[i] == rt[i - 1] && r[j] == rt[j - 1] && s[j] == t[j - 1];
        }
      }
    }
  }

  /** The high pass only lowers buckets and never drives one below zero. */
  lemma {:induction false} DrainBackBounded(s: seq<int>, need: int)
    requires NonNegative(s) && need >= 0
    ensures var r := DrainBack(s, need); forall i :: 0 <= i < |s| ==> 0 <= r[i] <= s[i]
  {
    if s != [] {
      var n := |s|;
      var last, init := s[n - 1], s[..n - 1];
      var r := DrainBack(s, need);
      if last > 0 && last > need {
        assert r[..n - 1] == init;
      } else {
        var n' := if last > 0 then need - last else need;
        DrainBackBounded(init, n');
        assert r[..n - 1] == DrainBack(init, n');
        forall i | 0 <= i < n - 1 ensures 0 <= r[i] <= s[i] {
          assert r[i] == r[..n - 1][i] && s[i] == init[i];
        }
      }
    }
  }

  /** The high pass takes exactly the trim count, or every vote when there are fewer. */
  lemma {:induction false} DrainBackRemoves(s: seq<int>, need: int)
    requires NonNegative(s) && need >= 0
    ensures Sum(s) - Sum(DrainBack(s, need)) == Min(need, Sum(s))
  {
    if s != [] {
      var n := |s|;
      var last, init := s[n - 1], s[..n - 1];
      assert s == init + [last];
      SumSnoc(init, last);
      SumNonNegative(init);
      if last > 0 && last > need {
        SumSnoc(init, last - need);
      } else {
        var n' := if last > 0 then need - last else need;
        var d := DrainBack(init, n');
        DrainBackRemoves(init, n');
        SumSnoc(d, if last > 0 then 0 else last);
      }
    }
  }

  /** The high pass is greedy: a bucket is only touched when every bucket above it has been emptied. */
  lemma {:induction false} DrainBackGreedy(s: seq<int>, need: int)
    requires NonNegative(s)
    ensures forall i, j :: 0 <= j < i < |s| && DrainBack(s, need)[j] < s[j] ==> DrainBack(s, need)[i] == 0
  {
    if s != [] {
      var n := |s|;
      var last, init := s[n - 1], s[..n - 1];
      var r := DrainBack(s, need);
      if last > 0 && last > need {
        assert r[..n - 1] == init;
      } else {
        var n' := if last > 0 then need - last else need;
        assert NonNegative(init) by {
          forall k | 0 <= k < |init| ensures init[k] >= 0 { assert init[k] == s[k]; }
        }
        DrainBackGreedy(init, n');
        var rt := DrainBack(init, n');
        assert r[..n - 1] == rt;
        forall i, j | 0 <= j < i < |s| && r[j] < s[j] ensures r[i] == 0 {
          assert r[j] == rt[j] && s[j] == init[j];
          if i < n - 1 { assert r[i] == rt[i]; }
        }
      }
    }
  }

  /** Σ (i+1)·s[i], the score-weighted vote count of bot.py lines 249-251. */
  function WeightedSum(s: seq<int>): int
  {
    if s == [] then 0 else WeightedSum(s[..|s| - 1]) + |s| * s[|s| - 1]
  }

  lemma MulLeft(a: int, b: int, c: int)
    requires 0 <= a <= b && c >= 0
    ensures a * c <= b * c
  {
  }

  lemma Distribute(a: int, b: int, c: int)
    ensures a * (b + c) == a * b + a * c
  {
  }

  /** Every remaining vote weighs between 1 and the number of buckets, so the average is a valid score. */
  lemma {:induction false} WeightedSumBounds(s: seq<int>)
    requires NonNegative(s)
    ensures Sum(s) <= WeightedSum(s) <= |s| * Sum(s)
  {
    if s != [] {
      var n := |s|;
      var last, init := s[n - 1], s[..n - 1];
      assert s == init + [last];
      SumSnoc(init, last);
      WeightedSumBounds(init);
      SumNonNegative(init);
      var w0, s0 := WeightedSum(init), Sum(init);
      assert WeightedSum(s) == w0 + n * last;
      MulLeft(1, n, last);
      MulLeft(n - 1, n, s0);
      Distribute(n, s0, last);
    }
  }

  /**
   * An exact quotient num/den, standing for the float that Python's `/`
   * produces; the source divides by den unconditionally, so den == 0 would be
   * a ZeroDivisionError (TrimDivisorNonZero shows it does not happen).
   */
  datatype Fraction = Fraction(num: int, den: int)

  /** What weighted_average returns: (votes trimmed per tail, weighted sum, average). */
  datatype Tally = Tally(toRemove: int, weightedSum: int, average: Fraction)

  /** The histogram left after both passes drained the trim count (a rounded tenth of the total) from each tail. */
  function Trimmed(s: seq<int>): (r: seq<int>)
    ensures |r| == |s|
  {
    var k := RoundedTenth(Sum(s));
    DrainBack(DrainFront(s, k), k)
  }

  /** The high pass stops at the first bucket from the top it leaves votes in: every bucket below that one is untouched. */
  lemma {:induction false} DrainBackStops(s: seq<int>, need: int)
    requires NonNegative(s)
    ensures forall i, j :: 0 <= j < i < |s| && DrainBack(s, need)[i] > 0 ==> DrainBack(s, need)[j] == s[j]
  {
    if s != [] {
      var n := |s|;
      var last, init := s[n - 1], s[..n - 1];
      var r := DrainBack(s, need);
      if last > 0 && last > need {
        assert r[..n - 1] == init;
        forall j | 0 <= j < n - 1 ensures r[j] == s[j] {
          assert r[j] == r[..n - 1][j] && s[j] == init[j];
        }
      } else {
        var n' := if last > 0 then need - last else need;
        assert NonNegative(init) by {
          forall k | 0 <= k < |init| ensures init[k] >= 0 { assert init[k] == s[k]; }
        }
        DrainBackStops(init, n');
        var rt := DrainBack(init, n');
        assert r[..n - 1] == rt && r[n - 1] == 0;
        forall i, j | 0 <= j < i < |s| && r[i] > 0 ensures r[j] == s[j] {
          assert r[i] == rt[i] && r[j] == rt[j] && s[j] == init[j];
        }
      }
    }
  }

  /** weighted_average as a function of its input list. */
  function Aggregate(s: seq<int>): Tally
  {
    var total := Sum(s);
    if total == 0 then Tally(0, 0, Fraction(0, 1))
    else
      var k := RoundedTenth(total);
      var w := WeightedSum(Trimmed(s));
      Tally(k, w, Fraction(w, total - 2 * k))
  }

  /** The zero result comes exactly from a histogram with no votes. */
  lemma AggregateZeroIffNoVotes(s: seq<int>)
    requires NonNegative(s)
    ensures Aggregate(s) == Tally(0, 0, Fraction(0, 1)) <==> Sum(s) == 0
  {
    SumNonNegative(s);
    if Sum(s) != 0 {
      AggregateTrimsBothTails(s);
    }
  }

  /** Both passes remove exactly the trim count from a histogram with at least one vote. */
  lemma TrimmedKeepsRest(s: seq<int>)
    requires NonNegative(s) && Sum(s) > 0
    ensures NonNegative(Trimmed(s))
    ensures Sum(Trimmed(s)) == Sum(s) - 2 * TrimCount(Sum(s))
  {
    var total := Sum(s);
    var k := TrimCount(total);
    TrimLeavesVotes(total);
    TrimCountIsRoundedTenth(total);
    var low := DrainFront(s, k);
    DrainFrontBounded(s, k);
    DrainFrontRemoves(s, k);
    assert Sum(low) == total - k;
    DrainBackBounded(low, k);
    DrainBackRemoves(low, k);
  }

  /**
   * On a histogram with at least one vote: each tail loses exactly the trim
   * count, the divisor is the number of votes left, and the average lies
   * between the lowest and the highest score.
   */
  lemma AggregateTrimsBothTails(s: seq<int>)
    requires NonNegative(s) && Sum(s) > 0
    ensures var total, t, a := Sum(s), Trimmed(s), Aggregate(s);
      && a.toRemove == TrimCount(total)
      && 0 <= a.toRemove && 2 * a.toRemove < total
      && NonNegative(t) && Sum(t) == total - 2 * a.toRemove
      && a.weightedSum == WeightedSum(t)
      && a.average == Fraction(a.weightedSum, Sum(t))
      && a.average.den <= a.average.num <= |s| * a.average.den
  {
    var total := Sum(s);
    var k := TrimCount(total);
    TrimLeavesVotes(total);
    TrimCountIsRoundedTenth(total);
    TrimmedKeepsRest(s);
    var t := Trimmed(s);
    var w := WeightedSum(t);
    WeightedSumBounds(t);
  }

  /** A worked example: the low pass takes one vote each from scores 2 and 3. */
  lemma ExampleLowPass()
    ensures DrainFront([0, 1, 2, 3, 4, 3, 2, 1, 0, 0], 2) == [0, 0, 1, 3, 4, 3, 2, 1, 0, 0]
  {
  }

  /** The high pass then takes score 8 and one vote of score 7 (not score 6). */
  lemma ExampleHighPass()
    ensures DrainBack([0, 0, 1, 3, 4, 3, 2, 1, 0, 0], 2) == [0, 0, 1, 3, 4, 3, 1, 0, 0, 0]
  {
    assert [0, 0, 1, 3, 4, 3, 2][..6] == [0, 0, 1, 3, 4, 3];
    assert DrainBack([0, 0, 1, 3, 4, 3, 2], 1) == [0, 0, 1, 3, 4, 3, 1];
    assert [0, 0, 1, 3, 4, 3, 2, 1][..7] == [0, 0, 1, 3, 4, 3, 2];
    assert DrainBack([0, 0, 1, 3, 4, 3, 2, 1], 2) == [0, 0, 1, 3, 4, 3, 1, 0];
    assert [0, 0, 1, 3, 4, 3, 2, 1, 0][..8] == [0, 0, 1, 3, 4, 3, 2, 1];
    assert DrainBack([0, 0, 1, 3, 4, 3, 2, 1, 0], 2) == [0, 0, 1, 3, 4, 3, 1, 0, 0];
    assert [0, 0, 1, 3, 4, 3, 2, 1, 0, 0][..9] == [0, 0, 1, 3, 4, 3, 2, 1, 0];
  }

  lemma ExampleWeightedSum()
    ensures WeightedSum([0, 0, 1, 3, 4, 3, 1, 0, 0, 0]) == 60
  {
    assert WeightedSum([0]) == 0;
    assert [0, 0][..1] == [0];
    assert WeightedSum([0, 0]) == 0;
    assert [0, 0, 1][..2] == [0, 0];
    assert WeightedSum([0, 0, 1]) == 3;
    assert [0, 0, 1, 3][..3] == [0, 0, 1];
    assert WeightedSum([0, 0, 1, 3]) == 15;
    assert [0, 0, 1, 3, 4][..4] == [0, 0, 1, 3];
    assert WeightedSum([0, 0, 1, 3, 4]) == 35;
    assert [0, 0, 1, 3, 4, 3][..5] == [0, 0, 1, 3, 4];
    assert WeightedSum([0, 0, 1, 3, 4, 3]) == 53;
    assert [0, 0, 1, 3, 4, 3, 1][..6] == [0, 0, 1, 3, 4, 3];
    assert WeightedSum([0, 0, 1, 3, 4, 3, 1]) == 60;
    assert [0, 0, 1, 3, 4, 3, 1, 0][..7] == [0, 0, 1, 3, 4, 3, 1];
    assert WeightedSum([0, 0, 1, 3, 4, 3, 1, 0]) == 60;
    assert [0, 0, 1, 3, 4, 3, 1, 0, 0][..8] == [0, 0, 1, 3, 4, 3, 1, 0];
    assert WeightedSum([0, 0, 1, 3, 4, 3, 1, 0, 0]) == 60;
    assert [0, 0, 1, 3, 4, 3, 1, 0, 0, 0][..9] == [0, 0, 1, 3, 4, 3, 1, 0, 0];
    assert WeightedSum([0, 0, 1, 3, 4, 3, 1, 0, 0, 0]) == 60;
  }

  /** 16 votes: two are trimmed from each tail and 60/12 is the average. */
  lemma ExampleRound()
    ensures Aggregate([0, 1, 2, 3, 4, 3, 2, 1, 0, 0]) == Tally(2, 60, Fraction(60, 12))
  {
    var s := [0, 1, 2, 3, 4, 3, 2, 1, 0, 0];
    assert Sum(s) == 16;
    TrimCountIsRoundedTenth(16);
    assert TrimCount(Sum(s)) == 2;
    ExampleLowPass();
    ExampleHighPass();
    assert Trimmed(s) == [0, 0, 1, 3, 4, 3, 1, 0, 0, 0];
    ExampleWeightedSum();
  }

  /** The low pass as its loop runs: buckets from `i` upwards of the current contents `c`, with `need` votes still to take. */
  function FrontLoop(c: seq<int>, i: nat, need: int): (r: seq<int>)
    requires i <= |c|
    ensures |r| == |c|
    decreases |c| - i
  {
    if i == |c| then c
    else if c[i] > 0 && c[i] > need then c[i := c[i] - need]
    else if c[i] > 0 then FrontLoop(c[i := 0], i + 1, need - c[i])
    else FrontLoop(c, i + 1, need)
  }

  lemma SplitAt(c: seq<int>, i: nat, v: int, rest: seq<int>)
    requires i < |c|
    ensures c[i := v] == c[..i] + ([v] + c[i+1..])
    ensures c[i := v][i+1..] == c[i+1..] && c[i := v][..i] == c[..i]
    ensures c[i := v][..i+1] + rest == c[..i] + ([v] + rest)
    ensures rest + c[i := v][i..] == (rest + [v]) + c[i+1..]
  {
    assert c[i := v][..i+1] == c[..i] + [v];
    assert c[i := v][i..] == [v] + c[i+1..];
  }

  /** The step of FrontLoopIsDrainFront at a bucket that gives up votes: from bucket i on, c becomes `[v] + rest`. */
  lemma FrontLoopStep(c: seq<int>, i: nat, v: int, rest: seq<int>, need: int, d: seq<int>)
    requires i < |c|
    requires DrainFront(c[i..], need) == [v] + rest
    requires d == c[i := v][..i+1] + rest
    ensures d == c[..i] + DrainFront(c[i..], need)
  {
    SplitAt(c, i, v, rest);
  }

  /** Running the loop from bucket i leaves the buckets below i alone and drains the rest as DrainFront does. */
  lemma {:induction false} FrontLoopIsDrainFront(c: seq<int>, i: nat, need: int)
    requires i <= |c|
    ensures FrontLoop(c, i, need) == c[..i] + DrainFront(c[i..], need)
    decreases |c| - i
  {
    if i == |c| {
      assert c[..i] == c;
    } else {
      var t := c[i..];
      assert t[0] == c[i] && t[1..] == c[i+1..];
      if c[i] > 0 && c[i] > need {
        SplitAt(c, i, c[i] - need, []);
        FrontLoopStep(c, i, c[i] - need, c[i+1..], need, FrontLoop(c, i, need));
      } else if c[i] > 0 {
        var c' := c[i := 0];
        FrontLoopIsDrainFront(c', i + 1, need - c[i]);
        assert c'[i+1..] == c[i+1..];
        FrontLoopStep(c, i, 0, DrainFront(c[i+1..], need - c[i]), need, FrontLoop(c, i, need));
      } else {
        FrontLoopIsDrainFront(c, i + 1, need);
        assert c[i := c[i]] == c;
        FrontLoopStep(c, i, c[i], DrainFront(c[i+1..], need), need, FrontLoop(c, i, need));
      }
    }
  }

  /** The low pass of `remove`, in place: scans indices upwards and stops once the trim count is reached. */
  method RemoveLow(lst: array<int>, toRemove: int)
    modifies lst
    ensures lst[..] == DrainFront(old(lst[..]), toRemove)
  {
    ghost var d := FrontLoop(lst[..], 0, toRemove);
    FrontLoopIsDrainFront(lst[..], 0, toRemove);
    assert lst[..][..0] == [] && lst[..][0..] == lst[..];
    var removed := 0;
    for i := 0 to lst.Length
      invariant FrontLoop(lst[..], i, toRemove - removed) == d
    {
      if lst[i] > 0 {
        if lst[i] > toRemove - removed {
          lst[i] := lst[i] - (toRemove - removed);
          removed := toRemove;
          break;
        } else {
          removed := removed + lst[i];
          lst[i] := 0;
        }
      }
    }
  }

  /** The high pass as its loop runs: buckets from `j - 1` downwards of the current contents `c`, with `need` votes still to take. */
  function BackLoop(c: seq<int>, j: nat, need: int): (r: seq<int>)
    requires j <= |c|
    ensures |r| == |c|
    decreases j
  {
    if j == 0 then c
    else if c[j-1] > 0 && c[j-1] > need then c[j-1 := c[j-1] - need]
    else if c[j-1] > 0 then BackLoop(c[j-1 := 0], j - 1, need - c[j-1])
    else BackLoop(c, j - 1, need)
  }

  /** Running the loop from bucket j - 1 down leaves the buckets from j alone and drains the rest as DrainBack does. */
  lemma {:induction false} BackLoopIsDrainBack(c: seq<int>, j: nat, need: int)
    requires j <= |c|
    ensures BackLoop(c, j, need) == DrainBack(c[..j], need) + c[j..]
    decreases j
  {
    if j == 0 {
      assert c[j..] == c;
    } else {
      var i := j - 1;
      var t := c[..j];
      assert t[|t| - 1] == c[i] && t[..|t| - 1] == c[..i];
      if c[i] > 0 && c[i] > need {
        assert DrainBack(t, need) == c[..i] + [c[i] - need];
        SplitAt(c, i, c[i] - need, c[..i]);
      } else if c[i] > 0 {
        var rest := DrainBack(c[..i], need - c[i]);
        assert DrainBack(t, need) == rest + [0];
        BackLoopIsDrainBack(c[i := 0], i, need - c[i]);
        SplitAt(c, i, 0, rest);
      } else {
        var rest := DrainBack(c[..i], need);
        assert DrainBack(t, need) == rest + [c[i]];
        BackLoopIsDrainBack(c, i, need);
        assert c[i := c[i]] == c;
        SplitAt(c, i, c[i], rest);
      }
    }
  }

  /** The high pass of `remove`, in place: scans indices downwards. */
  method RemoveHigh(lst: array<int>, toRemove: int)
    modifies lst
    ensures lst[..] == DrainBack(old(lst[..]), toRemove)
  {
    ghost var d := BackLoop(lst[..], lst.Length, toRemove);
    BackLoopIsDrainBack(lst[..], lst.Length, toRemove);
    assert lst[..][..lst.Length] == lst[..] && lst[..][lst.Length..] == [];
    var removed := 0;
    var j := lst.Length;
    while j > 0
      invariant 0 <= j <= lst.Length
      invariant BackLoop(lst[..], j, toRemove - removed) == d
    {
      var i := j - 1;
      if lst[i] > 0 {
        if lst[i] > toRemove - removed {
          lst[i] := lst[i] - (toRemove - removed);
          removed := toRemove;
          break;
        } else {
          removed := removed + lst[i];
          lst[i] := 0;
        }
      }
      j := i;
    }
  }

  /** weighted_average: trims `lst` in place (unless it holds no votes) and returns the tally. */
  method WeightedAverage(lst: array<int>) returns (t: Tally)
    modifies lst
    ensures t == Aggregate(old(lst[..]))
    ensures lst[..] == if Sum(old(lst[..])) == 0 then old(lst[..]) else Trimmed(old(lst[..]))
  {
    var totalVotes := Sum(lst[..]);
    if totalVotes == 0 {
      return Tally(0, 0, Fraction(0, 1));
    }
    var toRemove := TrimCount(totalVotes);
    TrimCountIsRoundedTenth(totalVotes);
    RemoveLow(lst, toRemove);
    RemoveHigh(lst, toRemove);
    ghost var trimmed := lst[..];
    assert trimmed == Trimmed(old(lst[..]));
    var s := 0;
    for i := 0 to lst.Length
      invariant s == WeightedSum(trimmed[..i])
    {
      assert trimmed[..i + 1][..i] == trimmed[..i] && trimmed[..i + 1][i] == lst[i];
      s := s + (i + 1) * lst[i];
    }
    assert trimmed[..lst.Length] == trimmed;
    t := Tally(toRemove, s, Fraction(s, totalVotes - toRemove * 2));
  }
}
