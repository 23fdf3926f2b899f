/** The data a `FastPrior` holds once built: for each of the three prior families, a table
    of parallel arrays giving each member's canonical parameter index and its two
    hyperparameters. */
module Prior {

  /** The three recognised prior families, in the order the loop looks for them in the type name. */
  datatype Family = Uniform | LinearExp | Normal

  /** One entry of `pta.params`: the parameter's name and its type-name text,
      for instance `Uniform(pmin=-18, pmax=-11)`. */
  datatype Param = Param(name: string, typename: string)

  /** A family table: `ids[k]` is the canonical index of the k-th member and
      `lows[k]`/`highs[k]` its hyperparameters (low and high, or mu and sigma). */
  datatype Table = Table(ids: seq<nat>, lows: seq<real>, highs: seq<real>)

  /** A built prior: the ordered parameter names and one table per family. */
  datatype FastPrior = FastPrior(paramNames: seq<string>, uniform: Table, linExp: Table, normal: Table)

  function Tab(pr: FastPrior, f: Family): Table
  {
    match f
    case Uniform => pr.uniform
    case LinearExp => pr.linExp
    case Normal => pr.normal
  }

  /** The three arrays of a table have one entry per member. */
  predicate Parallel(t: Table)
  {
    |t.lows| == |t.ids| && |t.highs| == |t.ids|
  }

  /** Every id of the table indexes a sequence of length `n`. */
  predicate IdsBelow(t: Table, n: int)
  {
    forall k :: 0 <= k < |t.ids| ==> t.ids[k] < n
  }

  /** The shape every built prior has: parallel tables whose ids index `paramNames`. */
  predicate WellFormed(pr: FastPrior)
  {
    && Parallel(pr.uniform) && Parallel(pr.linExp) && Parallel(pr.normal)
    && IdsBelow(pr.uniform, |pr.paramNames|)
    && IdsBelow(pr.linExp, |pr.paramNames|)
    && IdsBelow(pr.normal, |pr.paramNames|)
  }
}
