/** The continuous-time averager (utils/math/continuous_averager.go), over the real
    numbers, with times and durations in integer nanoseconds.  The exponential
    function is any function with its three laws; that its base is e is asked for only
    where the halflife matters. */
module ContinuousAverager {
  datatype Observation = Observation(value: real, time: int)

  function Plus(x: real, y: real): real {
    x + y
  }

  ghost predicate IsExp(exp: real -> real) {
    && exp(0.0) == 1.0
    && (forall x :: exp(x) > 0.0)
    && (forall x, y :: exp(Plus(x, y)) == exp(x) * exp(y))
  }

  /** math.Ln2, as far as a float holds it. */
  const LN2: real := 0.6931471805599453

  /** The weight of time t seen from an anchor time. */
  function Weight(exp: real -> real, h: real, t: int, anchor: int): real
    requires h != 0.0
  {
    exp((t - anchor) as real / h)
  }

  /** The closed forms: sums of weights and of weighted values. */
  function WeightedSum(exp: real -> real, h: real, obs: seq<Observation>, anchor: int): real
    requires h != 0.0
  {
    if obs == [] then 0.0
    else WeightedSum(exp, h, obs[..|obs| - 1], anchor)
         + obs[|obs| - 1].value * Weight(exp, h, obs[|obs| - 1].time, anchor)
  }

  function Normalizer(exp: real -> real, h: real, obs: seq<Observation>, anchor: int): real
    requires h != 0.0
  {
    if obs == [] then 0.0
    else Normalizer(exp, h, obs[..|obs| - 1], anchor) + Weight(exp, h, obs[|obs| - 1].time, anchor)
  }

  function Latest(obs: seq<Observation>): int
    requires obs != []
  {
    if |obs| == 1 then obs[0].time
    else
      var t := Latest(obs[..|obs| - 1]);
      if obs[|obs| - 1].time > t then obs[|obs| - 1].time else t
  }

  /** The exponentially weighted mean of the observations, seen from the latest. */
  function Mean(exp: real -> real, h: real, obs: seq<Observation>): real
    requires h != 0.0 && obs != [] && Normalizer(exp, h, obs, Latest(obs)) != 0.0
  {
    WeightedSum(exp, h, obs, Latest(obs)) / Normalizer(exp, h, obs, Latest(obs))
  }

  // ------------------------------------------------------------------ weights

  lemma DivAdd(x: real, y: real, h: real)
    requires h != 0.0
    ensures (x + y) / h == x / h + y / h
  {
  }

  lemma WeightShifts(exp: real -> real, h: real, t: int, a: int, b: int)
    requires IsExp(exp) && h != 0.0
    ensures Weight(exp, h, t, b) == Weight(exp, h, a, b) * Weight(exp, h, t, a)
  {
    DivAdd((a - b) as real, (t - a) as real, h);
    assert (a - b) as real + (t - a) as real == (t - b) as real;
    assert (t - b) as real / h == Plus((a - b) as real / h, (t - a) as real / h);
  }

  lemma Distribute(w: real, x: real, v: real, u: real)
    ensures w * x + v * (w * u) == w * (x + v * u)
  {
  }

  lemma WeightHere(exp: real -> real, h: real, t: int)
    requires IsExp(exp) && h != 0.0
    ensures Weight(exp, h, t, t) == 1.0
  {
    assert (t - t) as real / h == 0.0;
  }

  /** One more observation adds one more term. */
  lemma SumsSnoc(exp: real -> real, h: real, obs: seq<Observation>, o: Observation, anchor: int)
    requires h != 0.0
    ensures WeightedSum(exp, h, obs + [o], anchor) == WeightedSum(exp, h, obs, anchor) + o.value * Weight(exp, h, o.time, anchor)
    ensures Normalizer(exp, h, obs + [o], anchor) == Normalizer(exp, h, obs, anchor) + Weight(exp, h, o.time, anchor)
    ensures obs != [] ==> Latest(obs + [o]) == if o.time > Latest(obs) then o.time else Latest(obs)
  {
    assert (obs + [o])[..|obs|] == obs;
  }

  /** Moving the anchor from a to b multiplies both sums by the weight of a from b. */
  lemma {:induction false} SumsShift(exp: real -> real, h: real, obs: seq<Observation>, a: int, b: int)
    requires IsExp(exp) && h != 0.0
    ensures WeightedSum(exp, h, obs, b) == Weight(exp, h, a, b) * WeightedSum(exp, h, obs, a)
    ensures Normalizer(exp, h, obs, b) == Weight(exp, h, a, b) * Normalizer(exp, h, obs, a)
  {
    if obs != [] {
      var n := |obs| - 1;
      SumsShift(exp, h, obs[..n], a, b);
      WeightShifts(exp, h, obs[n].time, a, b);
      var w, u := Weight(exp, h, a, b), Weight(exp, h, obs[n].time, a);
      Distribute(w, WeightedSum(exp, h, obs[..n], a), obs[n].value, u);
      Distribute(w, Normalizer(exp, h, obs[..n], a), 1.0, u);
    }
  }

  lemma One(v: real, w: real)
    requires w == 1.0
    ensures v * w == v
  {
  }

  /** An observation at the anchor counts in full. */
  lemma ObservationNow(exp: real -> real, h: real, obs: seq<Observation>, o: Observation)
    requires IsExp(exp) && h != 0.0
    ensures WeightedSum(exp, h, obs + [o], o.time) == WeightedSum(exp, h, obs, o.time) + o.value
    ensures Normalizer(exp, h, obs + [o], o.time) == Normalizer(exp, h, obs, o.time) + 1.0
    ensures obs != [] ==> Latest(obs + [o]) == if o.time > Latest(obs) then o.time else Latest(obs)
  {
    SumsSnoc(exp, h, obs, o, o.time);
    WeightHere(exp, h, o.time);
    One(o.value, Weight(exp, h, o.time, o.time));
  }

  /** A later observation becomes the anchor: the old sums are scaled down to it. */
  lemma LaterSum(exp: real -> real, h: real, obs: seq<Observation>, o: Observation)
    requires IsExp(exp) && h != 0.0 && obs != [] && o.time > Latest(obs)
    ensures Latest(obs + [o]) == o.time
    ensures WeightedSum(exp, h, obs + [o], o.time)
            == o.value + Weight(exp, h, Latest(obs), o.time) * WeightedSum(exp, h, obs, Latest(obs))
  {
    SumsShift(exp, h, obs, Latest(obs), o.time);
    ObservationNow(exp, h, obs, o);
  }

  lemma LaterNormalizer(exp: real -> real, h: real, obs: seq<Observation>, o: Observation)
    requires IsExp(exp) && h != 0.0 && obs != [] && o.time > Latest(obs)
    ensures Normalizer(exp, h, obs + [o], o.time)
            == 1.0 + Weight(exp, h, Latest(obs), o.time) * Normalizer(exp, h, obs, Latest(obs))
  {
    SumsShift(exp, h, obs, Latest(obs), o.time);
    ObservationNow(exp, h, obs, o);
  }

  lemma {:induction false} NormalizerPositive(exp: real -> real, h: real, obs: seq<Observation>, anchor: int)
    requires IsExp(exp) && h != 0.0
    ensures Normalizer(exp, h, obs, anchor) >= 0.0
    ensures obs != [] ==> Normalizer(exp, h, obs, anchor) > 0.0
  {
    if obs != [] {
      NormalizerPositive(exp, h, obs[..|obs| - 1], anchor);
    }
  }

  // -------------------------------------------------------- order independence

  /** Both closed forms are sums of one term per observation. */
  function Sum(term: Observation -> real, obs: seq<Observation>): real {
    if obs == [] then 0.0 else Sum(term, obs[..|obs| - 1]) + term(obs[|obs| - 1])
  }

  function ValueTerm(exp: real -> real, h: real, anchor: int): Observation -> real
    requires h != 0.0
  {
    (o: Observation) => o.value * Weight(exp, h, o.time, anchor)
  }

  function WeightTerm(exp: real -> real, h: real, anchor: int): Observation -> real
    requires h != 0.0
  {
    (o: Observation) => Weight(exp, h, o.time, anchor)
  }

  lemma {:induction false} ClosedFormsAreSums(exp: real -> real, h: real, obs: seq<Observation>, anchor: int)
    requires h != 0.0
    ensures WeightedSum(exp, h, obs, anchor) == Sum(ValueTerm(exp, h, anchor), obs)
    ensures Normalizer(exp, h, obs, anchor) == Sum(WeightTerm(exp, h, anchor), obs)
  {
    if obs != [] {
      ClosedFormsAreSums(exp, h, obs[..|obs| - 1], anchor);
    }
  }

  lemma {:induction false} SumSplit(term: Observation -> real, a: seq<Observation>, b: seq<Observation>)
    ensures Sum(term, a + b) == Sum(term, a) + Sum(term, b)
  {
    if b == [] {
      assert a + b == a;
    } else {
      var n := |b| - 1;
      SumSplit(term, a, b[..n]);
      assert (a + b)[..|a + b| - 1] == a + b[..n];
    }
  }

  /** An observation contributes the same wherever it stands. */
  lemma SumTakeOut(term: Observation -> real, s: seq<Observation>, i: nat)
    requires i < |s|
    ensures Sum(term, s) == Sum(term, s[..i] + s[i + 1..]) + term(s[i])
  {
    var x, y, z := s[..i], [s[i]], s[i + 1..];
    assert s == x + (y + z);
    SumSplit(term, x, y + z);
    SumSplit(term, y, z);
    SumSplit(term, x, z);
    assert Sum(term, y) == term(s[i]) by { assert y[..0] == []; }
  }

  lemma TakeOut(s: seq<Observation>, i: nat)
    requires i < |s|
    ensures multiset(s[..i] + s[i + 1..]) == multiset(s) - multiset{s[i]}
  {
    assert s == s[..i] + [s[i]] + s[i + 1..];
  }

  lemma {:induction false} SumPermutes(term: Observation -> real, a: seq<Observation>, b: seq<Observation>)
    requires multiset(a) == multiset(b)
    ensures Sum(term, a) == Sum(term, b)
    decreases |a|
  {
    if a == [] {
      assert |multiset(b)| == 0;
    } else {
      var n := |a| - 1;
      assert a[n] in multiset(b);
      var i :| 0 <= i < |b| && b[i] == a[n];
      SumTakeOut(term, a, n);
      SumTakeOut(term, b, i);
      TakeOut(a, n);
      TakeOut(b, i);
      SumPermutes(term, a[..n] + a[n + 1..], b[..i] + b[i + 1..]);
    }
  }

  lemma {:induction false} LatestIsGreatest(obs: seq<Observation>)
    requires obs != []
    ensures exists i :: 0 <= i < |obs| && obs[i].time == Latest(obs)
    ensures forall i :: 0 <= i < |obs| ==> obs[i].time <= Latest(obs)
  {
    var n := |obs| - 1;
    if n == 0 {
      assert obs[0].time == Latest(obs);
    } else {
      LatestIsGreatest(obs[..n]);
      if obs[n].time > Latest(obs[..n]) {
        assert obs[n].time == Latest(obs);
      } else {
        var i :| 0 <= i < n && obs[..n][i].time == Latest(obs[..n]);
        assert obs[i].time == Latest(obs);
      }
    }
  }

  lemma SumsPermute(exp: real -> real, h: real, a: seq<Observation>, b: seq<Observation>, anchor: int)
    requires h != 0.0 && multiset(a) == multiset(b)
    ensures WeightedSum(exp, h, a, anchor) == WeightedSum(exp, h, b, anchor)
    ensures Normalizer(exp, h, a, anchor) == Normalizer(exp, h, b, anchor)
  {
    ClosedFormsAreSums(exp, h, a, anchor);
    ClosedFormsAreSums(exp, h, b, anchor);
    SumPermutes(ValueTerm(exp, h, anchor), a, b);
    SumPermutes(WeightTerm(exp, h, anchor), a, b);
  }

  lemma LatestPermutes(a: seq<Observation>, b: seq<Observation>)
    requires a != [] && b != [] && multiset(a) == multiset(b)
    ensures Latest(a) == Latest(b)
  {
    LatestIsGreatest(a);
    LatestIsGreatest(b);
    var i :| 0 <= i < |a| && a[i].time == Latest(a);
    var j :| 0 <= j < |b| && b[j].time == Latest(b);
    assert a[i] in multiset(b) && b[j] in multiset(a);
  }

  /** The order in which observations arrive does not matter. */
  lemma MeanPermutes(exp: real -> real, h: real, a: seq<Observation>, b: seq<Observation>)
    requires IsExp(exp) && h != 0.0 && a != [] && multiset(a) == multiset(b)
    ensures b != [] && Normalizer(exp, h, a, Latest(a)) != 0.0 && Normalizer(exp, h, b, Latest(b)) != 0.0
    ensures Mean(exp, h, a) == Mean(exp, h, b)
  {
    assert |multiset(a)| == |multiset(b)|;
    LatestPermutes(a, b);
    SumsPermute(exp, h, a, b, Latest(a));
    NormalizerPositive(exp, h, a, Latest(a));
  }

  // ------------------------------------------------------------------- bounds

  lemma AddBound(lo: real, m: real, s: real, v: real, w: real)
    requires lo * m <= s && lo <= v && w > 0.0
    ensures lo * (m + w) <= s + v * w
  {
    assert lo * w <= v * w;
    assert lo * (m + w) == lo * m + lo * w;
  }

  lemma AddBoundAbove(hi: real, m: real, s: real, v: real, w: real)
    requires s <= hi * m && v <= hi && w > 0.0
    ensures s + v * w <= hi * (m + w)
  {
    assert v * w <= hi * w;
    assert hi * (m + w) == hi * m + hi * w;
  }

  lemma {:induction false} SumAbove(exp: real -> real, h: real, obs: seq<Observation>, anchor: int, lo: real)
    requires IsExp(exp) && h != 0.0 && forall i :: 0 <= i < |obs| ==> lo <= obs[i].value
    ensures lo * Normalizer(exp, h, obs, anchor) <= WeightedSum(exp, h, obs, anchor)
  {
    if obs != [] {
      var n := |obs| - 1;
      SumAbove(exp, h, obs[..n], anchor, lo);
      AddBound(lo, Normalizer(exp, h, obs[..n], anchor), WeightedSum(exp, h, obs[..n], anchor),
               obs[n].value, Weight(exp, h, obs[n].time, anchor));
    }
  }

  lemma {:induction false} SumBelow(exp: real -> real, h: real, obs: seq<Observation>, anchor: int, hi: real)
    requires IsExp(exp) && h != 0.0 && forall i :: 0 <= i < |obs| ==> obs[i].value <= hi
    ensures WeightedSum(exp, h, obs, anchor) <= hi * Normalizer(exp, h, obs, anchor)
  {
    if obs != [] {
      var n := |obs| - 1;
      SumBelow(exp, h, obs[..n], anchor, hi);
      AddBoundAbove(hi, Normalizer(exp, h, obs[..n], anchor), WeightedSum(exp, h, obs[..n], anchor),
                    obs[n].value, Weight(exp, h, obs[n].time, anchor));
    }
  }

  lemma QuotientBounds(s: real, n: real, lo: real, hi: real)
    requires n > 0.0 && lo * n <= s <= hi * n
    ensures lo <= s / n <= hi
  {
    var q := s / n;
    assert q * n == s;
  }

  /** The mean lies between the least and the greatest value seen. */
  lemma MeanIsBounded(exp: real -> real, h: real, obs: seq<Observation>, lo: real, hi: real)
    requires IsExp(exp) && h != 0.0 && obs != []
    requires forall i :: 0 <= i < |obs| ==> lo <= obs[i].value <= hi
    ensures Normalizer(exp, h, obs, Latest(obs)) != 0.0
    ensures lo <= Mean(exp, h, obs) <= hi
  {
    var t := Latest(obs);
    NormalizerPositive(exp, h, obs, t);
    SumAbove(exp, h, obs, t, lo);
    SumBelow(exp, h, obs, t, hi);
    QuotientBounds(WeightedSum(exp, h, obs, t), Normalizer(exp, h, obs, t), lo, hi);
  }

  // ------------------------------------------------------------ one halflife

  /** What singles out the natural exponential: it lies above its tangent at 0. */
  ghost predicate AboveTangent(exp: real -> real) {
    forall x :: exp(x) >= 1.0 + x
  }

  lemma SquareAbove(e: real, lo: real, next: real)
    requires e >= lo >= 0.0 && lo * lo >= next
    ensures e * e >= next
  {
  }

  lemma Squared(exp: real -> real, x: real, y: real, lo: real, next: real)
    requires IsExp(exp) && y == x + x && exp(x) >= lo >= 0.0 && lo * lo >= next
    ensures exp(y) >= next
  {
    assert exp(Plus(x, x)) == exp(x) * exp(x);
    SquareAbove(exp(x), lo, next);
  }

  /** e to the ln 2 is 2, nearly. */
  lemma ExpOfLn2(exp: real -> real)
    requires IsExp(exp) && AboveTangent(exp)
    ensures exp(LN2) >= 1.9995
  {
    Squared(exp, LN2 / 1024.0, LN2 / 512.0, 1.000676901, 1.001354260);
    Squared(exp, LN2 / 512.0, LN2 / 256.0, 1.001354260, 1.002710354);
    Squared(exp, LN2 / 256.0, LN2 / 128.0, 1.002710354, 1.005428054);
    Squared(exp, LN2 / 128.0, LN2 / 64.0, 1.005428054, 1.010885571);
    Squared(exp, LN2 / 64.0, LN2 / 32.0, 1.010885571, 1.021889637);
    Squared(exp, LN2 / 32.0, LN2 / 16.0, 1.021889637, 1.044258430);
    Squared(exp, LN2 / 16.0, LN2 / 8.0, 1.044258430, 1.090475668);
    Squared(exp, LN2 / 8.0, LN2 / 4.0, 1.090475668, 1.189137182);
    Squared(exp, LN2 / 4.0, LN2 / 2.0, 1.189137182, 1.414047237);
    Squared(exp, LN2 / 2.0, LN2, 1.414047237, 1.999529588);
  }

  lemma ExpOfMinusLn2(exp: real -> real)
    requires IsExp(exp) && AboveTangent(exp)
    ensures exp(-LN2) >= 0.4998
  {
    Squared(exp, -LN2 / 1024.0, -LN2 / 512.0, 0.999323098, 0.998646654);
    Squared(exp, -LN2 / 512.0, -LN2 / 256.0, 0.998646654, 0.997295139);
    Squared(exp, -LN2 / 256.0, -LN2 / 128.0, 0.997295139, 0.994597594);
    Squared(exp, -LN2 / 128.0, -LN2 / 64.0, 0.994597594, 0.989224373);
    Squared(exp, -LN2 / 64.0, -LN2 / 32.0, 0.989224373, 0.978564860);
    Squared(exp, -LN2 / 32.0, -LN2 / 16.0, 0.978564860, 0.957589185);
    Squared(exp, -LN2 / 16.0, -LN2 / 8.0, 0.957589185, 0.916977047);
    Squared(exp, -LN2 / 8.0, -LN2 / 4.0, 0.916977047, 0.840846904);
    Squared(exp, -LN2 / 4.0, -LN2 / 2.0, 0.840846904, 0.707023515);
    Squared(exp, -LN2 / 2.0, -LN2, 0.707023515, 0.499882250);
  }

  lemma Reciprocal(a: real, b: real)
    requires a * b == 1.0 && b >= 1.9995
    ensures a <= 0.5002
  {
    assert (a - 0.5002) * b == 1.0 - 0.5002 * b;
  }

  /** One halflife later an observation weighs half as much, up to the digits of ln 2. */
  lemma HalfTheWeight(exp: real -> real, halflife: int, t: int)
    requires IsExp(exp) && AboveTangent(exp) && halflife != 0
    ensures 0.4998 <= Weight(exp, halflife as real / LN2, t, t + halflife) <= 0.5002
  {
    var h := halflife as real / LN2;
    assert h * LN2 == halflife as real;
    QuotientIs(h, -LN2, (t - (t + halflife)) as real);
    ExpOfMinusLn2(exp);
    ExpOfLn2(exp);
    assert exp(Plus(-LN2, LN2)) == exp(-LN2) * exp(LN2);
    Reciprocal(exp(-LN2), exp(LN2));
  }

  lemma QuotientIs(h: real, q: real, x: real)
    requires h != 0.0 && h * q == x
    ensures x / h == q
  {
  }

  // ----------------------------------------------------------------- averager

  class Averager {
    const exp: real -> real
    const halflife: real
    var weightedSum: real
    var normalizer: real
    var lastUpdated: int
    ghost var observed: seq<Observation>

    /** The two sums are the closed forms, seen from the latest time. */
    ghost predicate Valid()
      reads this
    {
      && IsExp(exp) && halflife != 0.0 && observed != []
      && lastUpdated == Latest(observed)
      && weightedSum == WeightedSum(exp, halflife, observed, lastUpdated)
      && normalizer == Normalizer(exp, halflife, observed, lastUpdated)
    }

    /** The initial prediction counts as a first observation. */
    constructor (exp: real -> real, initialPrediction: real, halflife: int, currentTime: int)
      requires IsExp(exp) && halflife != 0
      ensures Valid() && observed == [Observation(initialPrediction, currentTime)]
      ensures this.exp == exp && this.halflife == halflife as real / LN2
    {
      this.exp := exp;
      this.halflife := halflife as real / LN2;
      weightedSum := initialPrediction;
      normalizer := 1.0;
      lastUpdated := currentTime;
      observed := [Observation(initialPrediction, currentTime)];
    }

    /** In order: the previous sums are scaled down to the new time. */
    method ObserveLater(value: real, currentTime: int)
      requires Valid() && lastUpdated < currentTime
      modifies this
      ensures Valid() && observed == old(observed) + [Observation(value, currentTime)]
    {
      ghost var o := Observation(value, currentTime);
      LaterSum(exp, halflife, observed, o);
      LaterNormalizer(exp, halflife, observed, o);
      var newWeight := exp((lastUpdated - currentTime) as real / halflife);
      var sum, norm := value + newWeight * weightedSum, 1.0 + newWeight * normalizer;
      assert sum == WeightedSum(exp, halflife, observed + [o], currentTime);
      assert norm == Normalizer(exp, halflife, observed + [o], currentTime);
      weightedSum, normalizer, lastUpdated, observed := sum, norm, currentTime, observed + [o];
    }

    /** Out of order: the new value is scaled down instead. */
    method ObserveEarlier(value: real, currentTime: int)
      requires Valid() && currentTime < lastUpdated
      modifies this
      ensures Valid() && observed == old(observed) + [Observation(value, currentTime)]
    {
      ghost var o := Observation(value, currentTime);
      SumsSnoc(exp, halflife, observed, o, lastUpdated);
      var newWeight := exp((-(lastUpdated - currentTime)) as real / halflife);
      assert newWeight == Weight(exp, halflife, currentTime, lastUpdated);
      weightedSum := weightedSum + newWeight * value;
      normalizer := normalizer + newWeight;
      observed := observed + [o];
    }

    method Observe(value: real, currentTime: int)
      requires Valid()
      modifies this
      ensures Valid() && observed == old(observed) + [Observation(value, currentTime)]
    {
      var delta := lastUpdated - currentTime;
      if delta < 0 {
        ObserveLater(value, currentTime);
      } else if delta == 0 {
        ObservationNow(exp, halflife, observed, Observation(value, currentTime));
        weightedSum := weightedSum + value;
        normalizer := normalizer + 1.0;
        observed := observed + [Observation(value, currentTime)];
      } else {
        ObserveEarlier(value, currentTime);
      }
    }

    method Read() returns (r: real)
      requires Valid()
      ensures Normalizer(exp, halflife, observed, Latest(observed)) > 0.0
      ensures r == Mean(exp, halflife, observed)
    {
      NormalizerPositive(exp, halflife, observed, lastUpdated);
      r := weightedSum / normalizer;
    }
  }

  /** A fresh averager fed the given observations, and what it then reads. */
  method ReadAfter(exp: real -> real, initialPrediction: real, halflife: int, start: int, obs: seq<Observation>)
      returns (r: real)
    requires IsExp(exp) && halflife != 0
    ensures var all := [Observation(initialPrediction, start)] + obs;
            && Normalizer(exp, halflife as real / LN2, all, Latest(all)) != 0.0
            && r == Mean(exp, halflife as real / LN2, all)
  {
    var a := new Averager(exp, initialPrediction, halflife, start);
    for i := 0 to |obs|
      invariant a.Valid() && a.exp == exp && a.halflife == halflife as real / LN2
      invariant a.observed == [Observation(initialPrediction, start)] + obs[..i]
    {
      a.Observe(obs[i].value, obs[i].time);
    }
    assert a.observed == [Observation(initialPrediction, start)] + obs;
    r := a.Read();
  }

  /** A value observed one halflife after the initial prediction counts twice as much. */
  method ReadAfterHalflife(exp: real -> real, initialPrediction: real, value: real, halflife: int, start: int)
      returns (r: real, ghost w: real)
    requires IsExp(exp) && AboveTangent(exp) && halflife > 0
    ensures 0.4998 <= w <= 0.5002 && r * (1.0 + w) == value + w * initialPrediction
  {
    var second := Observation(value, start + halflife);
    r := ReadAfter(exp, initialPrediction, halflife, start, [second]);
    ghost var h, first := halflife as real / LN2, Observation(initialPrediction, start);
    assert [first] + [second] == [first, second];
    w := Weight(exp, h, start, start + halflife);
    HalfTheWeight(exp, halflife, start);
    OneThenAnother(exp, h, first, second);
  }

  lemma OneThenAnother(exp: real -> real, h: real, first: Observation, second: Observation)
    requires IsExp(exp) && h != 0.0 && first.time < second.time
    ensures Latest([first, second]) == second.time
    ensures var w := Weight(exp, h, first.time, second.time);
            && Normalizer(exp, h, [first, second], second.time) == 1.0 + w
            && WeightedSum(exp, h, [first, second], second.time) == second.value + w * first.value
  {
    assert [first] + [second] == [first, second];
    SumsSnoc(exp, h, [], first, first.time);
    assert [] + [first] == [first];
    WeightHere(exp, h, first.time);
    LaterSum(exp, h, [first], second);
    LaterNormalizer(exp, h, [first], second);
  }

  /** Two averagers fed the same observations in different orders read the same, and
      within the range of everything they were given. */
  method ReadInTwoOrders(exp: real -> real, initialPrediction: real, halflife: int, start: int,
                         a: seq<Observation>, b: seq<Observation>, lo: real, hi: real)
      returns (ra: real, rb: real)
    requires IsExp(exp) && halflife != 0 && multiset(a) == multiset(b)
    requires lo <= initialPrediction <= hi && forall i :: 0 <= i < |a| ==> lo <= a[i].value <= hi
    ensures ra == rb && lo <= ra <= hi
  {
    var first := Observation(initialPrediction, start);
    ra := ReadAfter(exp, initialPrediction, halflife, start, a);
    rb := ReadAfter(exp, initialPrediction, halflife, start, b);
    MeanPermutes(exp, halflife as real / LN2, [first] + a, [first] + b);
    MeanIsBounded(exp, halflife as real / LN2, [first] + a, lo, hi);
  }
}
