/** Statistics of a written array: src/core/adios_internals.c:1588-1649, 4694-4788, over the reals. */
module Statistics {
  import opened Outcomes
  import opened Types

  datatype Value = Finite(x: real) | NotFinite

  /** The finite elements, in order. */
  ghost function Reals(data: seq<Value>): seq<real> {
    if data == [] then []
    else
      var n := |data| - 1;
      Reals(data[..n]) + if data[n].Finite? then [data[n].x] else []
  }

  ghost function Sum(xs: seq<real>): real {
    if xs == [] then 0.0 else Sum(xs[..|xs| - 1]) + xs[|xs| - 1]
  }

  ghost function SumSquare(xs: seq<real>): real {
    if xs == [] then 0.0 else SumSquare(xs[..|xs| - 1]) + xs[|xs| - 1] * xs[|xs| - 1]
  }

  ghost predicate IsMin(m: real, xs: seq<real>) { m in xs && forall x | x in xs :: m <= x }

  ghost predicate IsMax(m: real, xs: seq<real>) { m in xs && forall x | x in xs :: x <= m }

  ghost predicate Increasing(breaks: seq<real>) {
    forall i, j | 0 <= i < j < |breaks| :: breaks[i] < breaks[j]
  }

  /** Bin b is the stretch from break b - 1, included, to break b, excluded; the outer bins have no outer end. */
  ghost predicate InBin(breaks: seq<real>, x: real, b: nat) {
    && b <= |breaks|
    && (b > 0 ==> breaks[b - 1] <= x)
    && (b < |breaks| ==> x < breaks[b])
  }

  /** How many of the numbers lie in bin b: a plain count. */
  ghost function Count(xs: seq<real>, breaks: seq<real>, b: nat): nat {
    if xs == [] then 0 else Count(xs[..|xs| - 1], breaks, b) + if InBin(breaks, xs[|xs| - 1], b) then 1 else 0
  }

  /** The bins are disjoint. */
  lemma BinUnique(breaks: seq<real>, x: real, b: nat, c: nat)
    requires Increasing(breaks) && InBin(breaks, x, b) && InBin(breaks, x, c)
    ensures b == c
  {}

  /** HIST: the binary search for the bin of a number. */
  method FindBin(breaks: seq<real>, a: real) returns (bin: nat)
    requires breaks != []
    ensures InBin(breaks, a, bin)
  {
    var low, high := 0, |breaks| - 1;
    if breaks[low] > a { return 0; }
    if a >= breaks[high] { return high + 1; }
    while high - low >= 2
      invariant 0 <= low < high < |breaks| && breaks[low] <= a < breaks[high]
    {
      var mid := (high + low) / 2;
      if a >= breaks[mid] {
        low := mid;
      } else {
        high := mid;
      }
    }
    return low + 1;
  }

  /** The frequencies are plain counts. */
  ghost predicate Counts(freqs: seq<nat>, xs: seq<real>, breaks: seq<real>) {
    |freqs| == |breaks| + 1 && forall b | 0 <= b < |freqs| :: freqs[b] == Count(xs, breaks, b)
  }

  method AddToHistogram(freqs: array<nat>, breaks: seq<real>, a: real, ghost xs: seq<real>)
    requires breaks != [] && Increasing(breaks) && Counts(freqs[..], xs, breaks)
    modifies freqs
    ensures Counts(freqs[..], xs + [a], breaks)
  {
    var bin := FindBin(breaks, a);
    freqs[bin] := freqs[bin] + 1;
    forall b: nat | b <= |breaks| ensures freqs[b] == Count(xs + [a], breaks, b) {
      assert (xs + [a])[..|xs|] == xs;
      if InBin(breaks, a, b) { BinUnique(breaks, a, b, bin); }
    }
  }

  datatype Moments = Moments(min: real, max: real, sum: real, sumSquare: real)

  /** Result of the pass; there are no moments without a finite element. */
  datatype Stats = Stats(moments: Option<Moments>, cnt: nat, freqs: Option<seq<nat>>)

  ghost predicate MomentsOf(m: Moments, xs: seq<real>) {
    IsMin(m.min, xs) && IsMax(m.max, xs) && m.sum == Sum(xs) && m.sumSquare == SumSquare(xs)
  }

  method NextMoments(old_: Option<Moments>, a: real, ghost xs: seq<real>) returns (m: Moments)
    requires if xs == [] then old_ == None else old_.Some? && MomentsOf(old_.value, xs)
    ensures MomentsOf(m, xs + [a])
  {
    assert (xs + [a])[..|xs|] == xs;
    if old_.None? {
      m := Moments(a, a, a, a * a);
    } else {
      m := old_.value;
      if a < m.min { m := m.(min := a); }
      if a > m.max { m := m.(max := a); }
      m := m.(sum := m.sum + a, sumSquare := m.sumSquare + a * a);
    }
  }

  /** Moments and count are those of xs. */
  ghost predicate Tally(moments: Option<Moments>, cnt: nat, xs: seq<real>) {
    cnt == |xs| && if xs == [] then moments == None else moments.Some? && MomentsOf(moments.value, xs)
  }

  /** The frequencies, if any are asked for, are those of xs. */
  ghost predicate Binned(freqs: seq<nat>, breaks: Option<seq<real>>, xs: seq<real>) {
    breaks.Some? ==> Counts(freqs, xs, breaks.value)
  }

  lemma NothingBinned(freqs: seq<nat>, breaks: Option<seq<real>>)
    requires breaks.Some? ==> |freqs| == |breaks.value| + 1 && forall b | 0 <= b < |freqs| :: freqs[b] == 0
    ensures Binned(freqs, breaks, [])
  {}

  /** The finite elements grow by the next element, if it is finite. */
  lemma RealsStep(data: seq<Value>, i: nat)
    requires i < |data|
    ensures Reals(data[..i + 1]) == if data[i].Finite? then Reals(data[..i]) + [data[i].x] else Reals(data[..i])
  {
    assert data[..i + 1][..i] == data[..i];
  }

  /** One finite element. */
  method AddElement(x: real, moments0: Option<Moments>, cnt0: nat, freqs: array<nat>, breaks: Option<seq<real>>,
                    ghost xs: seq<real>)
    returns (moments: Option<Moments>, cnt: nat)
    requires breaks.Some? ==> breaks.value != [] && Increasing(breaks.value)
    requires Tally(moments0, cnt0, xs) && Binned(freqs[..], breaks, xs)
    modifies freqs
    ensures Tally(moments, cnt, xs + [x]) && Binned(freqs[..], breaks, xs + [x])
  {
    var m := NextMoments(moments0, x, xs);
    moments, cnt := Some(m), cnt0 + 1;
    if breaks.Some? { AddToHistogram(freqs, breaks.value, x, xs); }
  }

  /** ADIOS_STATISTICS: one pass over the data. */
  method ComputeStatistics(data: seq<Value>, breaks: Option<seq<real>>) returns (s: Stats)
    requires breaks.Some? ==> breaks.value != [] && Increasing(breaks.value)
    ensures s.cnt == |Reals(data)|
    ensures s.moments.Some? <==> Reals(data) != []
    ensures s.moments.Some? ==> MomentsOf(s.moments.value, Reals(data))
    ensures s.freqs.Some? <==> breaks.Some?
    ensures breaks.Some? ==> Counts(s.freqs.value, Reals(data), breaks.value)
  {
    var cnt: nat, moments := 0, None;
    var freqs := new nat[if breaks.Some? then |breaks.value| + 1 else 0](_ => 0);
    NothingBinned(freqs[..], breaks);
    for i := 0 to |data|
      invariant Tally(moments, cnt, Reals(data[..i])) && Binned(freqs[..], breaks, Reals(data[..i]))
    {
      RealsStep(data, i);
      if data[i].Finite? {
        moments, cnt := AddElement(data[i].x, moments, cnt, freqs, breaks, Reals(data[..i]));
      }
    }
    assert data[..|data|] == data;
    s := Stats(moments, cnt, if breaks.Some? then Some(freqs[..]) else None);
  }

  /** Two numbers, and something that is none. */
  lemma SmallSample()
    ensures Reals([Finite(2.0), NotFinite, Finite(3.0)]) == [2.0, 3.0]
    ensures Sum([2.0, 3.0]) == 5.0 && SumSquare([2.0, 3.0]) == 13.0
  {
    var data := [Finite(2.0), NotFinite, Finite(3.0)];
    assert data[..0] == [];
    RealsStep(data, 0);
    RealsStep(data, 1);
    RealsStep(data, 2);
    assert data[..3] == data;
    assert [2.0, 3.0][..1] == [2.0] && [2.0][..0] == [];
    assert Sum([2.0]) == 2.0 && SumSquare([2.0]) == 4.0;
  }

  /** A break point belongs to the upper one of its two bins. */
  lemma SmallHistogram()
    ensures Count([2.0, 3.0], [3.0], 0) == 1 && Count([2.0, 3.0], [3.0], 1) == 1
  {
    assert [2.0, 3.0][..1] == [2.0] && [2.0][..0] == [];
    assert Count([2.0], [3.0], 0) == 1 && Count([2.0], [3.0], 1) == 0;
  }

  /** Sum of the first n frequencies. */
  ghost function Total(freqs: seq<nat>, n: nat): nat
    requires n <= |freqs|
  {
    if n == 0 then 0 else Total(freqs, n - 1) + freqs[n - 1]
  }

  /** Every number has a bin. */
  lemma SomeBin(breaks: seq<real>, x: real) returns (b: nat)
    ensures InBin(breaks, x, b)
  {
    b := 0;
    while b < |breaks| && breaks[b] <= x
      invariant b <= |breaks| && (b > 0 ==> breaks[b - 1] <= x)
    {
      b := b + 1;
    }
  }

  /** One more number raises exactly one frequency. */
  lemma {:induction false} TotalStep(freqs: seq<nat>, freqs': seq<nat>, n: nat, bin: nat)
    requires |freqs| == |freqs'| && n <= |freqs|
    requires forall b | 0 <= b < |freqs| :: freqs'[b] == freqs[b] + if b == bin then 1 else 0
    ensures Total(freqs', n) == Total(freqs, n) + if bin < n then 1 else 0
  {
    if n > 0 { TotalStep(freqs, freqs', n - 1, bin); }
  }

  lemma {:induction false} TotalOfZeros(freqs: seq<nat>, n: nat)
    requires n <= |freqs| && forall b | 0 <= b < |freqs| :: freqs[b] == 0
    ensures Total(freqs, n) == 0
  {
    if n > 0 { TotalOfZeros(freqs, n - 1); }
  }

  /** The frequencies of a histogram add up to the number of elements counted. */
  lemma {:induction false} FrequenciesAddUp(freqs: seq<nat>, xs: seq<real>, breaks: seq<real>)
    requires Increasing(breaks) && Counts(freqs, xs, breaks)
    ensures Total(freqs, |freqs|) == |xs|
    decreases |xs|
  {
    if xs == [] {
      TotalOfZeros(freqs, |freqs|);
    } else {
      var rest, x := xs[..|xs| - 1], xs[|xs| - 1];
      var less := seq(|freqs|, b requires 0 <= b => Count(rest, breaks, b));
      FrequenciesAddUp(less, rest, breaks);
      var bin := SomeBin(breaks, x);
      forall b | 0 <= b < |freqs| ensures freqs[b] == less[b] + if b == bin then 1 else 0 {
        if InBin(breaks, x, b) { BinUnique(breaks, x, b, bin); }
      }
      TotalStep(less, freqs, |freqs|, bin);
    }
  }

  /** Break points given one by one are accepted if and only if there are some and they increase. */
  method BreaksFromList(tokens: seq<real>) returns (r: Option<seq<real>>)
    ensures r == if tokens != [] && Increasing(tokens) then Some(tokens) else None
  {
    if |tokens| == 0 { return None; }
    for i := 0 to |tokens|
      invariant Increasing(tokens[..i])
    {
      if i > 0 && tokens[i] <= tokens[i - 1] {
        assert !Increasing(tokens);
        return None;
      }
      assert forall j | 0 <= j < i :: tokens[..i][j] <= tokens[i - 1];
    }
    assert tokens[..|tokens|] == tokens;
    return Some(tokens);
  }

  /** Break point i of `count` equal steps from min to max; for a negative count the steps go down from min. */
  function BreakAt(min: real, max: real, count: int, i: int): real
    requires count != 0
  {
    min + i as real * (max - min) / count as real
  }

  lemma DivideLess(a: real, b: real, c: real)
    requires a < b && c > 0.0
    ensures a / c < b / c
  {}

  lemma DivideMore(a: real, b: real, c: real)
    requires a < b && c < 0.0
    ensures a / c > b / c
  {}

  lemma TimesLess(i: int, j: int, w: real)
    requires i < j && w > 0.0
    ensures i as real * w < j as real * w
  {}

  lemma StepsIncrease(min: real, max: real, count: int, i: int, j: int)
    requires count != 0 && min < max && i < j
    ensures if count > 0 then BreakAt(min, max, count, i) < BreakAt(min, max, count, j)
            else BreakAt(min, max, count, i) > BreakAt(min, max, count, j)
  {
    TimesLess(i, j, max - min);
    if count > 0 {
      DivideLess(i as real * (max - min), j as real * (max - min), count as real);
    } else {
      DivideMore(i as real * (max - min), j as real * (max - min), count as real);
    }
  }

  lemma EndsMatch(min: real, max: real, count: int)
    requires count > 0
    ensures BreakAt(min, max, count, 0) == min && BreakAt(min, max, count, count) == max
  {
    WholeWidth(max - min, count as real);
  }

  lemma WholeWidth(w: real, c: real)
    requires c > 0.0
    ensures c * w / c == w && 0.0 * w / c == 0.0
  {}

  /** count + 1 in the unsigned 32 bits of num_breaks. */
  function NumBreaks(count: int): (n: nat)
    requires -INT_LIMIT <= count < INT_LIMIT
    ensures count >= -1 ==> n == count + 1
    ensures count < -1 ==> n == count + 1 + 0x1_0000_0000
  {
    (count + 1) % (2 * INT_LIMIT)
  }

  /**
   Break points given by their ends and the number of bins between them. Only 0 is refused as a count;
   for a negative one the break points do not increase, or there are none.
   */
  method BreaksFromRange(min: real, max: real, count: int) returns (r: Option<seq<real>>)
    requires -INT_LIMIT <= count < INT_LIMIT
    ensures r.Some? <==> count != 0 && min < max
    ensures r.Some? ==> |r.value| == NumBreaks(count)
    ensures r.Some? ==> (r.value != [] && Increasing(r.value) <==> count > 0)
    ensures r.Some? && count > 0 ==> r.value[0] == min && r.value[count] == max
    ensures r.Some? ==> EqualSteps(r.value, min, max, count)
  {
    if count == 0 { return None; }
    if min >= max { return None; }
    var breaks := EvenBreaks(min, max, count);
    UpOrDown(breaks, min, max, count);
    StepsAreEqual(breaks, min, max, count);
    return Some(breaks);
  }

  /** From min on, `count` steps would lead to max, and all steps are the same. */
  ghost predicate EqualSteps(breaks: seq<real>, min: real, max: real, count: int) {
    && (breaks != [] ==> breaks[0] == min)
    && forall i | 0 <= i < |breaks| - 1 :: (breaks[i + 1] - breaks[i]) * count as real == max - min
  }

  lemma StepWidth(i: real, w: real, c: real)
    requires c != 0.0
    ensures ((i + 1.0) * w / c - i * w / c) * c == w && 0.0 * w / c == 0.0
  {
    calc {
      ((i + 1.0) * w / c - i * w / c) * c;
      (i + 1.0) * w / c * c - i * w / c * c;
      (i + 1.0) * w - i * w;
      w;
    }
  }

  lemma StepsAreEqual(breaks: seq<real>, min: real, max: real, count: int)
    requires count != 0 && Even(breaks, min, max, count)
    ensures EqualSteps(breaks, min, max, count)
  {
    StepWidth(0.0, max - min, count as real);
    forall i | 0 <= i < |breaks| - 1 ensures (breaks[i + 1] - breaks[i]) * count as real == max - min {
      OneStep(min, max, count, i);
    }
  }

  lemma OneStep(min: real, max: real, count: int, i: int)
    requires count != 0
    ensures (BreakAt(min, max, count, i + 1) - BreakAt(min, max, count, i)) * count as real == max - min
  {
    var a, w, c := i as real, max - min, count as real;
    StepWidth(a, w, c);
    assert (i + 1) as real == a + 1.0;
    assert BreakAt(min, max, count, i + 1) - BreakAt(min, max, count, i) == (a + 1.0) * w / c - a * w / c;
  }

  /** Evenly spaced break points. */
  ghost predicate Even(breaks: seq<real>, min: real, max: real, count: int)
    requires count != 0
  {
    forall j | 0 <= j < |breaks| :: breaks[j] == BreakAt(min, max, count, j)
  }

  lemma UpOrDown(breaks: seq<real>, min: real, max: real, count: int)
    requires -INT_LIMIT <= count < INT_LIMIT && count != 0 && min < max && Even(breaks, min, max, count)
    requires |breaks| == NumBreaks(count)
    ensures breaks != [] && Increasing(breaks) <==> count > 0
    ensures count > 0 ==> breaks[0] == min && breaks[count] == max
  {
    if count > 0 {
      EndsMatch(min, max, count);
      forall i, j | 0 <= i < j < |breaks| ensures breaks[i] < breaks[j] { StepsIncrease(min, max, count, i, j); }
    } else if count < -1 {
      StepsIncrease(min, max, count, 0, 1);
      assert breaks[0] > breaks[1];
    }
  }

  method EvenBreaks(min: real, max: real, count: int) returns (breaks: seq<real>)
    requires -INT_LIMIT <= count < INT_LIMIT && count != 0
    ensures |breaks| == NumBreaks(count) && Even(breaks, min, max, count)
  {
    breaks := [];
    for i := 0 to NumBreaks(count)
      invariant |breaks| == i && Even(breaks, min, max, count)
    {
      breaks := breaks + [BreakAt(min, max, count, i)];
    }
  }
}
