/** Drawing one prior sample for a canonical parameter index. The index is looked up in the
    uniform table, then the linear-exponential table, and otherwise in the normal table;
    the first slot holding it supplies the hyperparameters. The random generator is
    replaced by values the caller supplies. */
module Sampler {
  import opened Outcomes
  import opened Seqs
  import opened Prior
  import opened Builder

  /** Sampling an index that is in no table: the normal lookup takes `min` of an empty
      array, which raises. */
  datatype SampleError = NoSlot

  /** `k` is the first slot of table `t` holding `idx`. */
  ghost predicate IsFirstSlot(t: Table, idx: int, k: nat)
  {
    k < |t.ids| && t.ids[k] == idx && forall i :: 0 <= i < k ==> t.ids[i] != idx
  }

  /** The family and slot a sample of `idx` is drawn from, or `None` where sampling raises.
      Uniform wins whenever it holds `idx`, linear-exponential is used only when uniform
      does not, normal only when neither does, and within the table the earliest slot
      holding `idx` is used. */
  function SlotOf(pr: FastPrior, idx: int): (r: Option<(Family, nat)>)
    ensures r.None? <==> idx !in pr.uniform.ids && idx !in pr.linExp.ids && idx !in pr.normal.ids
    ensures r.Some? ==> IsFirstSlot(Tab(pr, r.value.0), idx, r.value.1)
    ensures idx in pr.uniform.ids ==> r.Some? && r.value.0 == Uniform
    ensures idx !in pr.uniform.ids && idx in pr.linExp.ids ==> r.Some? && r.value.0 == LinearExp
    ensures r.Some? && r.value.0 == Normal ==> idx !in pr.uniform.ids && idx !in pr.linExp.ids
  {
    if idx in pr.uniform.ids then Some((Uniform, IndexOf(pr.uniform.ids, idx).value))
    else if idx in pr.linExp.ids then Some((LinearExp, IndexOf(pr.linExp.ids, idx).value))
    else
      match IndexOf(pr.normal.ids, idx)
      case None => None
      case Some(k) => Some((Normal, k))
  }

  /** The fraction `u` of the signed width `w`. */
  function Scaled(u: real, w: real): real
  {
    u * w
  }

  /** `np.random.uniform(low, high)` when the generator's underlying fraction is `u`. */
  function UniformDraw(low: real, high: real, u: real): real
  {
    low + Scaled(u, high - low)
  }

  /** `v` lies between `a` and `b`, whichever of them is larger. */
  ghost predicate Between(v: real, a: real, b: real)
  {
    (a <= v <= b) || (b <= v <= a)
  }

  /** A fraction of a non-negative width lies between zero and the width. */
  lemma FractionOfWidth(u: real, d: real)
    requires 0.0 <= u <= 1.0 && 0.0 <= d
    ensures 0.0 <= Scaled(u, d) <= d
  {
    ProductNonNegative(1.0 - u, d);
    ProductNonNegative(u, d);
    assert d - Scaled(u, d) == (1.0 - u) * d;
  }

  lemma ProductNonNegative(a: real, b: real)
    requires 0.0 <= a && 0.0 <= b
    ensures 0.0 <= a * b
  {
  }

  /** A fraction of a non-positive width lies between the width and zero. */
  lemma FractionOfNegativeWidth(u: real, d: real)
    requires 0.0 <= u <= 1.0 && d <= 0.0
    ensures d <= Scaled(u, d) <= 0.0
  {
    ProductNonNegative(1.0 - u, -d);
    ProductNonNegative(u, -d);
    assert Scaled(u, d) - d == (1.0 - u) * -d;
    assert Scaled(u, d) == -(u * -d);
  }

  lemma DrawUpward(low: real, high: real, u: real)
    requires 0.0 <= u <= 1.0 && low <= high
    ensures low <= UniformDraw(low, high, u) <= high
  {
    FractionOfWidth(u, high - low);
  }

  lemma DrawDownward(low: real, high: real, u: real)
    requires 0.0 <= u <= 1.0 && high < low
    ensures high <= UniformDraw(low, high, u) <= low
  {
    FractionOfNegativeWidth(u, high - low);
  }

  /** A fraction in [0, 1] yields a uniform draw between the two bounds. */
  lemma UniformDrawBetween(low: real, high: real, u: real)
    ensures 0.0 <= u <= 1.0 ==> Between(UniformDraw(low, high, u), low, high)
    ensures 0.0 <= u <= 1.0 && low <= high ==> low <= UniformDraw(low, high, u) <= high
  {
    if 0.0 <= u <= 1.0 {
      if low <= high {
        DrawUpward(low, high, u);
      } else {
        DrawDownward(low, high, u);
      }
    }
  }

  /** What the model assumes of `10**x` and `np.log10`: both increasing, powers positive,
      and the logarithm undoes the power. */
  ghost predicate ExpLogPair(pow10: real -> real, log10: real -> real)
  {
    && (forall a, b :: a <= b ==> pow10(a) <= pow10(b))
    && (forall a, b :: 0.0 < a <= b ==> log10(a) <= log10(b))
    && (forall a :: 0.0 < pow10(a))
    && (forall a :: log10(pow10(a)) == a)
  }

  /** `np.log10(np.random.uniform(10**low, 10**high))` when the fraction is `u`. */
  function LinExpDraw(low: real, high: real, u: real, pow10: real -> real, log10: real -> real): real
  {
    log10(UniformDraw(pow10(low), pow10(high), u))
  }

  /** The log of a uniform draw between the powers stays between the exponents. */
  lemma LinExpDrawInBounds(low: real, high: real, u: real, pow10: real -> real, log10: real -> real)
    ensures ExpLogPair(pow10, log10) && low <= high && 0.0 <= u <= 1.0 ==>
              low <= LinExpDraw(low, high, u, pow10, log10) <= high
  {
    if !(ExpLogPair(pow10, log10) && low <= high && 0.0 <= u <= 1.0) {
      return;
    }
    var v := UniformDraw(pow10(low), pow10(high), u);
    UniformDrawBetween(pow10(low), pow10(high), u);
    assert pow10(low) <= v <= pow10(high);
    assert log10(pow10(low)) <= log10(v) <= log10(pow10(high));
  }

  /** `get_sample_helper`. `u` is the uniform generator's fraction, and `gauss(mu, sigma)`
      stands for `np.random.normal(mu, sigma)`. Sampling fails exactly when no table holds
      `idx`; a uniform draw lies between its slot's bounds, a linear-exponential draw lies
      in its slot's [low, high], and a normal draw uses its slot's mu and sigma. */
  function Sample(pr: FastPrior, idx: int, u: real, pow10: real -> real, log10: real -> real,
                  gauss: (real, real) -> real): (r: Result<real, SampleError>)
    requires WellFormed(pr)
    ensures r.Err? <==> SlotOf(pr, idx).None?
    ensures r.Ok? && SlotOf(pr, idx).value.0 == Uniform && 0.0 <= u <= 1.0 ==>
              var k := SlotOf(pr, idx).value.1;
              Between(r.value, pr.uniform.lows[k], pr.uniform.highs[k])
    ensures r.Ok? && SlotOf(pr, idx).value.0 == LinearExp && 0.0 <= u <= 1.0 && ExpLogPair(pow10, log10) ==>
              var k := SlotOf(pr, idx).value.1;
              pr.linExp.lows[k] <= pr.linExp.highs[k] ==>
                pr.linExp.lows[k] <= r.value <= pr.linExp.highs[k]
    ensures r.Ok? && SlotOf(pr, idx).value.0 == Normal ==>
              var k := SlotOf(pr, idx).value.1;
              r.value == gauss(pr.normal.lows[k], pr.normal.highs[k])
  {
    match SlotOf(pr, idx)
    case None => Err(NoSlot)
    case Some((f, k)) =>
      var t := Tab(pr, f);
      match f
      case Uniform =>
        UniformDrawBetween(t.lows[k], t.highs[k], u);
        Ok(UniformDraw(t.lows[k], t.highs[k], u))
      case LinearExp =>
        LinExpDrawInBounds(t.lows[k], t.highs[k], u, pow10, log10);
        Ok(LinExpDraw(t.lows[k], t.highs[k], u, pow10, log10))
      case Normal =>
        Ok(gauss(t.lows[k], t.highs[k]))
  }

  /** With distinct parameter names, sampling the canonical index of a recognised parameter
      draws from that parameter's own family and slot. */
  lemma SampleOwnSlot(ps: seq<Param>, names: seq<string>, parse: string -> Option<real>, f: Family, k: nat)
    requires forall i, j :: 0 <= i < j < |ps| ==> ps[i].name != ps[j].name
    requires Build(ps, names, parse).Ok?
    requires k < |Members(Families(ps), f)|
    ensures var pr := Build(ps, names, parse).value;
            var j := Members(Families(ps), f)[k];
            && IndexOf(names, ps[j].name).Some?
            && SlotOf(pr, IndexOf(names, ps[j].name).value) == Some((f, k))
  {
    var pr := Build(ps, names, parse).value;
    BuildTables(ps, names, parse, f);
    var idx := Tab(pr, f).ids[k];
    forall g: Family, l: nat | l < |Tab(pr, g).ids| && (g != f || l != k)
      ensures Tab(pr, g).ids[l] != idx
    {
      BuildIdsDistinct(ps, names, parse, f, k, g, l);
    }
    assert IsFirstSlot(Tab(pr, f), idx, k);
    var s := SlotOf(pr, idx);
    assert s.Some?;
    assert s.value == (f, k);
  }
}
