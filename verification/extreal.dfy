/** Double-precision values as the log prior sees them: a real number, one of the two
    infinities, or not-a-number, with IEEE 754 addition. Rounding and overflow are not
    modelled; a finite sum is the exact real sum. */
module ExtReals {

  datatype ExtReal = Fin(r: real) | NegInf | PosInf | NaN

  /** IEEE 754 addition: not-a-number absorbs everything, opposite infinities give
      not-a-number, an infinity absorbs finite values. */
  function Add(a: ExtReal, b: ExtReal): ExtReal
  {
    match (a, b)
    case (NaN, _) => NaN
    case (_, NaN) => NaN
    case (NegInf, PosInf) => NaN
    case (PosInf, NegInf) => NaN
    case (NegInf, _) => NegInf
    case (_, NegInf) => NegInf
    case (PosInf, _) => PosInf
    case (_, PosInf) => PosInf
    case (Fin(x), Fin(y)) => Fin(x + y)
  }

  /** Adding zero changes nothing; it is the value an accumulator starts from. */
  lemma AddZero(a: ExtReal)
    ensures Add(a, Fin(0.0)) == a
  {
  }

  /** Without rounding, IEEE addition regroups freely. */
  lemma AddAssociates(a: ExtReal, b: ExtReal, c: ExtReal)
    ensures Add(Add(a, b), c) == Add(a, Add(b, c))
  {
  }

  /** `0.0 + ts[0] + ts[1] + ...`, added left to right as an accumulating loop does. */
  function Sum(ts: seq<ExtReal>): ExtReal
  {
    if |ts| == 0 then Fin(0.0) else Add(Sum(ts[..|ts| - 1]), ts[|ts| - 1])
  }

  predicate AllFinite(ts: seq<ExtReal>)
  {
    forall i :: 0 <= i < |ts| ==> ts[i].Fin?
  }

  /** The exact real sum of finite values, added right to left: an independent
      reference for what `Sum` yields on finite terms. */
  function RealSum(ts: seq<ExtReal>): real
    requires AllFinite(ts)
  {
    if |ts| == 0 then 0.0 else ts[0].r + RealSum(ts[1..])
  }

  /** The kind of a sum depends only on which kinds occur among the terms: not-a-number
      when one occurs or both infinities do, an infinity when it is the only non-finite
      kind present, and a finite value exactly when every term is finite. */
  lemma {:induction false} SumKind(ts: seq<ExtReal>)
    ensures Sum(ts).NaN? <==> NaN in ts || (NegInf in ts && PosInf in ts)
    ensures Sum(ts).NegInf? <==> NegInf in ts && PosInf !in ts && NaN !in ts
    ensures Sum(ts).PosInf? <==> PosInf in ts && NegInf !in ts && NaN !in ts
    ensures Sum(ts).Fin? <==> AllFinite(ts)
  {
    if |ts| == 0 {
    } else {
      var init, last := ts[..|ts| - 1], ts[|ts| - 1];
      SumKind(init);
      assert ts == init + [last];
      forall v
        ensures v in ts <==> v in init || v == last
      {
      }
      if AllFinite(ts) {
        assert AllFinite(init);
      }
    }
  }

  lemma {:induction false} RealSumSnoc(ts: seq<ExtReal>, t: ExtReal)
    requires AllFinite(ts) && t.Fin?
    ensures AllFinite(ts + [t])
    ensures RealSum(ts + [t]) == RealSum(ts) + t.r
  {
    if |ts| == 0 {
      assert ts + [t] == [t];
    } else {
      assert (ts + [t])[1..] == ts[1..] + [t];
      RealSumSnoc(ts[1..], t);
    }
  }

  /** On finite terms the left-to-right IEEE sum is the exact real sum. */
  lemma {:induction false} SumOfFinite(ts: seq<ExtReal>)
    requires AllFinite(ts)
    ensures Sum(ts) == Fin(RealSum(ts))
  {
    if |ts| > 0 {
      var init, last := ts[..|ts| - 1], ts[|ts| - 1];
      assert AllFinite(init);
      SumOfFinite(init);
      RealSumSnoc(init, last);
      assert init + [last] == ts;
    }
  }

  /** Summing a concatenation sums each part and adds the two totals, so the terms can be
      accumulated table by table. */
  lemma {:induction false} SumAppend(a: seq<ExtReal>, b: seq<ExtReal>)
    ensures Sum(a + b) == Add(Sum(a), Sum(b))
  {
    if |b| == 0 {
      assert a + b == a;
      AddZero(Sum(a));
    } else {
      var init, last := b[..|b| - 1], b[|b| - 1];
      assert (a + b)[..|a + b| - 1] == a + init;
      SumAppend(a, init);
      AddAssociates(Sum(a), Sum(init), last);
    }
  }

  /** The sum of a prefix one term longer adds that term to the shorter prefix's sum. */
  lemma SumPrefix(ts: seq<ExtReal>, i: nat)
    requires i < |ts|
    ensures Sum(ts[..i + 1]) == Add(Sum(ts[..i]), ts[i])
  {
    assert ts[..i + 1][..i] == ts[..i];
  }
}
