/** `get_lnprior_helper`: the log prior of a parameter vector, accumulated from 0.0 by
    adding one log-density per table entry, the uniform table first, then the
    linear-exponential table, then the normal table. The density formulas are floating
    point and library code, so they are parameters here; what is modelled is the shape
    of the sum, the support test of the linear-exponential term, and how infinities and
    not-a-number propagate through IEEE addition. */
module LnPrior {
  import opened ExtReals
  import opened Prior

  /** The log-densities of the three families at a value, given the entry's low/mu and
      high/sigma: `np.log` of the uniform pdf, the log of the linear-exponential density
      inside its support, and `np.log` of the normal pdf. */
  datatype Densities = Densities(uniform: (real, real, real) -> ExtReal,
                                 linExp: (real, real, real) -> ExtReal,
                                 normal: (real, real, real) -> ExtReal)

  /** The contribution of one entry at value `v`. Outside `[low, high]` the
      linear-exponential density is multiplied by a false indicator, and the log of
      that zero is minus infinity. */
  function Term(d: Densities, f: Family, v: real, low: real, high: real): ExtReal
  {
    match f
    case Uniform => d.uniform(v, low, high)
    case LinearExp => if low <= v && v <= high then d.linExp(v, low, high) else NegInf
    case Normal => d.normal(v, low, high)
  }

  /** `x` holds a value for every parameter the tables refer to. */
  predicate Fits(pr: FastPrior, x: seq<real>)
  {
    WellFormed(pr) && |pr.paramNames| <= |x|
  }

  lemma TableFits(pr: FastPrior, x: seq<real>, f: Family)
    requires Fits(pr, x)
    ensures Parallel(Tab(pr, f)) && IdsBelow(Tab(pr, f), |x|)
  {
  }

  /** One term per entry of the family's table, each evaluated at `x[ids[k]]`. */
  function Terms(pr: FastPrior, x: seq<real>, d: Densities, f: Family): (ts: seq<ExtReal>)
    requires Fits(pr, x)
    ensures |ts| == |Tab(pr, f).ids|
  {
    var t := Tab(pr, f);
    TableFits(pr, x, f);
    seq(|t.ids|, k requires 0 <= k < |t.ids| => Term(d, f, x[t.ids[k]], t.lows[k], t.highs[k]))
  }

  /** Where a family's terms start among all contributions. */
  function Offset(pr: FastPrior, f: Family): nat
  {
    match f
    case Uniform => 0
    case LinearExp => |pr.uniform.ids|
    case Normal => |pr.uniform.ids| + |pr.linExp.ids|
  }

  /** The contributions in the order they are added: the uniform table's, then the
      linear-exponential table's, then the normal table's. */
  function Contributions(pr: FastPrior, x: seq<real>, d: Densities): seq<ExtReal>
    requires Fits(pr, x)
  {
    Terms(pr, x, d, Uniform) + Terms(pr, x, d, LinearExp) + Terms(pr, x, d, Normal)
  }

  /** The log prior as a specification: the IEEE sum, from 0.0, of all contributions. */
  function LogPrior(pr: FastPrior, x: seq<real>, d: Densities): ExtReal
    requires Fits(pr, x)
  {
    Sum(Contributions(pr, x, d))
  }

  /** Every linear-exponential parameter lies within its bounds. */
  predicate InSupport(pr: FastPrior, x: seq<real>)
    requires Fits(pr, x)
  {
    TableFits(pr, x, LinearExp);
    forall k :: 0 <= k < |pr.linExp.ids| ==> pr.linExp.lows[k] <= x[pr.linExp.ids[k]] <= pr.linExp.highs[k]
  }

  /** There is exactly one contribution per table entry: their number is the total size of
      the three tables, and each entry's contribution sits at its family's offset plus its
      slot and is that entry's term at its own parameter value. */
  lemma ContributionPerEntry(pr: FastPrior, x: seq<real>, d: Densities, f: Family, k: nat)
    requires Fits(pr, x)
    requires k < |Tab(pr, f).ids|
    ensures |Contributions(pr, x, d)| == |pr.uniform.ids| + |pr.linExp.ids| + |pr.normal.ids|
    ensures Tab(pr, f).ids[k] < |x|
    ensures Offset(pr, f) + k < |Contributions(pr, x, d)|
    ensures Contributions(pr, x, d)[Offset(pr, f) + k]
              == Term(d, f, x[Tab(pr, f).ids[k]], Tab(pr, f).lows[k], Tab(pr, f).highs[k])
  {
    TableFits(pr, x, f);
  }

  /** The log prior is the sum of the three per-table sums, added in table order. */
  lemma {:induction false} TableSums(pr: FastPrior, x: seq<real>, d: Densities)
    requires Fits(pr, x)
    ensures LogPrior(pr, x, d)
              == Add(Add(Sum(Terms(pr, x, d, Uniform)), Sum(Terms(pr, x, d, LinearExp))),
                     Sum(Terms(pr, x, d, Normal)))
  {
    var u, l, n := Terms(pr, x, d, Uniform), Terms(pr, x, d, LinearExp), Terms(pr, x, d, Normal);
    SumAppend(u + l, n);
    SumAppend(u, l);
  }

  /** The k-th term of a family is the entry's term at its own parameter value. */
  lemma TermAt(pr: FastPrior, x: seq<real>, d: Densities, f: Family, k: nat)
    requires Fits(pr, x)
    requires k < |Tab(pr, f).ids|
    ensures Tab(pr, f).ids[k] < |x| && Parallel(Tab(pr, f))
    ensures Terms(pr, x, d, f)[k] == Term(d, f, x[Tab(pr, f).ids[k]], Tab(pr, f).lows[k], Tab(pr, f).highs[k])
  {
    TableFits(pr, x, f);
  }

  /** Adding the next term of a later table to an accumulator that already holds the
      earlier tables' total `acc` extends that table's prefix sum by one. */
  lemma AccumulateStep(acc: ExtReal, ts: seq<ExtReal>, i: nat)
    requires i < |ts|
    ensures Add(Add(acc, Sum(ts[..i])), ts[i]) == Add(acc, Sum(ts[..i + 1]))
  {
    SumPrefix(ts, i);
    AddAssociates(acc, Sum(ts[..i]), ts[i]);
  }

  /** `get_lnprior_helper`: three loops, one per table, each adding one log-density per
      entry to an accumulator that starts at 0.0. The result is the sum of the
      contributions in order. */
  method GetLnPrior(pr: FastPrior, x: seq<real>, d: Densities) returns (logPrior: ExtReal)
    requires Fits(pr, x)
    ensures logPrior == LogPrior(pr, x, d)
  {
    ghost var us, ls, ns := Terms(pr, x, d, Uniform), Terms(pr, x, d, LinearExp), Terms(pr, x, d, Normal);
    logPrior := Fin(0.0);

    var n := |pr.uniform.ids|;
    for i := 0 to n
      invariant logPrior == Sum(us[..i])
    {
      TermAt(pr, x, d, Uniform, i);
      var low, high := pr.uniform.lows[i], pr.uniform.highs[i];
      var value := x[pr.uniform.ids[i]];
      SumPrefix(us, i);
      logPrior := Add(logPrior, d.uniform(value, low, high));
    }
    assert us[..n] == us;
    ghost var afterUniform := logPrior;
    assert ls[..0] == [];

    var nn := |pr.linExp.ids|;
    for i := 0 to nn
      invariant logPrior == Add(afterUniform, Sum(ls[..i]))
    {
      TermAt(pr, x, d, LinearExp, i);
      var low, high := pr.linExp.lows[i], pr.linExp.highs[i];
      var value := x[pr.linExp.ids[i]];
      AccumulateStep(afterUniform, ls, i);
      logPrior := Add(logPrior, if low <= value && value <= high then d.linExp(value, low, high) else NegInf);
    }
    assert ls[..nn] == ls;
    ghost var afterLinExp := logPrior;
    assert ns[..0] == [];

    var m := |pr.normal.ids|;
    for i := 0 to m
      invariant logPrior == Add(afterLinExp, Sum(ns[..i]))
    {
      TermAt(pr, x, d, Normal, i);
      var mu, sig := pr.normal.lows[i], pr.normal.highs[i];
      var value := x[pr.normal.ids[i]];
      AccumulateStep(afterLinExp, ns, i);
      logPrior := Add(logPrior, d.normal(value, mu, sig));
    }
    assert ns[..m] == ns;
    TableSums(pr, x, d);
  }

  /** A linear-exponential parameter outside its bounds makes the log prior minus
      infinity, provided no other contribution is plus infinity or not-a-number: minus
      infinity absorbs every finite addend. */
  lemma OutOfSupportGivesNegInf(pr: FastPrior, x: seq<real>, d: Densities, k: nat)
    requires Fits(pr, x)
    requires k < |pr.linExp.ids|
    requires !(pr.linExp.lows[k] <= x[pr.linExp.ids[k]] <= pr.linExp.highs[k])
    requires PosInf !in Contributions(pr, x, d) && NaN !in Contributions(pr, x, d)
    ensures LogPrior(pr, x, d) == NegInf
  {
    var cs := Contributions(pr, x, d);
    ContributionPerEntry(pr, x, d, LinearExp, k);
    assert cs[Offset(pr, LinearExp) + k] == NegInf;
    SumKind(cs);
  }

  /** The log prior is finite exactly when every contribution is, it is then their exact
      real sum, and it can be finite only when every linear-exponential parameter lies
      within its bounds. */
  lemma FiniteLogPrior(pr: FastPrior, x: seq<real>, d: Densities)
    requires Fits(pr, x)
    ensures LogPrior(pr, x, d).Fin? <==> AllFinite(Contributions(pr, x, d))
    ensures LogPrior(pr, x, d).Fin? ==> LogPrior(pr, x, d) == Fin(RealSum(Contributions(pr, x, d)))
    ensures LogPrior(pr, x, d).Fin? ==> InSupport(pr, x)
  {
    var cs := Contributions(pr, x, d);
    SumKind(cs);
    if LogPrior(pr, x, d).Fin? {
      SumOfFinite(cs);
      TableFits(pr, x, LinearExp);
      forall k | 0 <= k < |pr.linExp.ids|
        ensures pr.linExp.lows[k] <= x[pr.linExp.ids[k]] <= pr.linExp.highs[k]
      {
        ContributionPerEntry(pr, x, d, LinearExp, k);
        assert cs[Offset(pr, LinearExp) + k].Fin?;
      }
    }
  }
}
