# FastPrior in Dafny

A Dafny model of `FastPrior` from QuickCW's `CWFastPrior.py`. This is the log-prior
evaluator and prior sampler used inside the MCMC loop. The model covers three parts:

- **Construction** (`FastPrior.__init__`). It walks the model's parameters in order and
  picks each parameter's prior family with the substring tests `"Uniform"`, then
  `"LinearExp"`, then `"Normal"` on the parameter's type-name text. It reads the two
  hyperparameters out of that text: the text between the first and second `=`, up to
  its first `,`; and the text between the second and third `=` (or the end), minus its
  last character. Each parameter goes into
  one of three parallel per-family lists. Every collected name is then turned into its
  canonical index with `param_names.index`.
- **Sampling** (`get_sample_helper`). It finds the first slot holding the index in the
  uniform table, then the linear-exponential table, then the normal table, and draws
  from that slot's distribution.
- **Log prior** (`get_lnprior_helper`). It starts from `0.0` and adds one log-density per
  table entry, evaluated at `x0[ids[i]]`, table by table. A linear-exponential value
  outside `[low, high]` contributes `log(0) = -inf`.

The modules are:

| module | file | contents |
|---|---|---|
| `Outcomes` | `outcomes.dfy` | `Option` and `Result`: how a Python exception is modelled |
| `Seqs` | `seqs.dfy` | first-occurrence lookup (`list.index`, `np.min(np.nonzero(a == x)[0])`) |
| `Text` | `text.dfy` | substring test, `split` on one character with its inverse `Join`, `s[:-1]` |
| `Prior` | `prior.dfy` | families, parameters, tables, the built prior and its shape invariant |
| `TypeName` | `typename.dfy` | family selection and hyperparameter text extraction |
| `Builder` | `builder.dfy` | the construction loop, id resolution and `Build` |
| `Sampler` | `sampler.dfy` | slot lookup and the three draws |
| `ExtReals` | `extreal.dfy` | doubles as reals plus `-inf`, `+inf` and NaN, with IEEE addition |
| `LnPrior` | `lnprior.dfy` | the contributions, the log prior and the three-loop method |

### Modelling choices

**Construction inputs.** Construction takes three inputs:

- `pta.params`, as a sequence of (name, type-name) records;
- `pta.param_names`, as a separate sequence;
- `float`, as a parse function `string -> Option<real>`, where `None` stands for `ValueError`.

**Construction errors.** Every exception the construction can raise is a `BuildError`:

- `MissingField` covers the `IndexError` of `split('=')[1]` or `split('=')[2]`;
- `BadNumber` covers a failed `float`;
- `UnknownName` covers the `ValueError` of `list.index`.

`MissingField` and `BadNumber` also carry the failing parameter's name. Python's
exceptions do not carry it, in particular the `IndexError` of `split('=')[1]`. The model
adds the name as a label so that `Builder.ClassifyFirstError` can say which parameter
failed.

The errors surface in Python's order. Parameters are handled in input order. Within
one parameter the order is low text, its number, high text, its number. After all the
parameters, names are resolved for the uniform list, then the linear-exponential list,
then the normal list.

**Random draws.** The random generator is replaced by caller-supplied values:

- a uniform draw is `low + u * (high - low)` for a fraction `u`;
- `10**x` and `np.log10` are function parameters, assumed increasing and inverse to each
  other (`ExpLogPair`);
- the normal draw is an opaque function `gauss(mu, sigma)`.

**Densities.** The density formulas are function parameters (`Densities`), because they
are floating-point library code. This covers `numba_stats` `uniform.pdf` and
`norm.pdf`, `np.log`, and the in-support linear-exponential expression. What the model
keeps is the visible support indicator and how `-inf`, `+inf` and NaN propagate
through `+=`.

**Canonical indices.** A parameter's canonical index is the first position of its name
in the separate `param_names` list, found with `list.index`; a missing name raises.
Duplicated names all resolve to their first position.

**Sampling an unknown index.** An index held by no table reaches the normal branch, where
`np.min` of an empty array raises. The model gives `Err(NoSlot)`.

**Summation order.** The additions happen in a fixed order: the uniform, the
linear-exponential and the normal table in turn, each in slot order.
`LnPrior.TableSums` and `ExtReals.SumAppend` show that regrouping the additions table by
table gives the same value, as long as nothing is rounded.

## Model

| member | source | states |
|---|---|---|
| `Seqs.IndexOf` | CWFastPrior.py:52-54 | `list.index`: absent exactly when the value does not occur; otherwise a position holding the value with no earlier occurrence |
| `Seqs.IndexOfFirst` | CWFastPrior.py:52-54 | a position holding the value with no earlier occurrence is the index returned, so duplicates all resolve to the first one |
| `Seqs.IndexOfIsMinMatch` | CWFastPrior.py:75 | the first-occurrence lookup is the minimum of the set of matching positions (`np.min(np.nonzero(ids == idx)[0])`), and it is absent exactly when that set is empty |
| `Text.Contains` | CWFastPrior.py:33 | the substring test `pat in s`, defined by trying each start position in turn; `Text.ContainsIffOccurs` proves it is exactly the substring relation |
| `Text.ContainsIffOccurs` | CWFastPrior.py:33 | the recursive substring test used for `"Uniform" in typename` holds exactly when the pattern occurs at some position |
| `Text.Split` | CWFastPrior.py:35-36 | `str.split` on one character returns at least one part, and no part contains the separator |
| `Text.JoinSplit` | CWFastPrior.py:35-36 | joining the parts of a split with the separator gives back the original text |
| `Text.SplitJoin` | CWFastPrior.py:35-36 | splitting a join of separator-free parts returns those parts, so the split is the unique such decomposition |
| `Text.SplitCount` | CWFastPrior.py:36 | a split has one part more than the text has separators, which decides when `split('=')[2]` exists |
| `Text.DropLast` | CWFastPrior.py:36 | `s[:-1]`: appending the last character back gives `s`; on the empty text the result is empty |
| `TypeName.FamilyOf` | CWFastPrior.py:33-41 | the family chosen by the `if`/`elif` chain of substring tests on lines 33, 37 and 41, or none; `TypeName.FamilyPrecedence` states its precedence in terms of substring occurrence |
| `TypeName.FamilyPrecedence` | CWFastPrior.py:33-44 | `"Uniform"` anywhere selects Uniform; `"LinearExp"` selects LinearExp only without `"Uniform"`; `"Normal"` selects Normal only without both; with none of the three, no family |
| `TypeName.LowText` | CWFastPrior.py:35 | the low text is missing exactly when the type name has no `=`, and it never contains `=` or `,` |
| `TypeName.LowTextAfterFirstEquals` | CWFastPrior.py:35 | the low text is the longest run after the first `=` that contains no `,` and no `=` |
| `TypeName.HighText` | CWFastPrior.py:36 | the high text is missing exactly when the type name has fewer than two `=`, and it never contains `=` |
| `TypeName.HighTextAfterSecondEquals` | CWFastPrior.py:36 | the high text is the run after the second `=` up to the next `=`, minus its last character |
| `Builder.Entry` | CWFastPrior.py:33-44 | one pass of the loop body: any error it raises is labelled with the parameter being processed (a label the model adds) and is never an unknown-name error, which comes only after the loop |
| `Builder.EntryOutcome` | CWFastPrior.py:33-44 | one loop step: an unrecognised parameter adds nothing; a recognised one succeeds exactly when both hyperparameter texts exist and `float` accepts them, and then carries its own family and the parsed values; otherwise it raises for the first problem in the order missing low text, unparsable low text, missing high text, unparsable high text; fewer than two `=` always fails |
| `Builder.Members` | CWFastPrior.py:31-44 | the positions of a family's parameters are exactly the positions whose type name selects it, in strictly increasing order |
| `Builder.Classify` | CWFastPrior.py:31-44 | the loop succeeds exactly when every parameter's step succeeds, and its three name/low/high lists are then parallel |
| `Builder.ClassifyFirstError` | CWFastPrior.py:31-44 | a failing loop reports the error of the first parameter whose step fails; every earlier step succeeded |
| `Builder.ClassifyColumns` | CWFastPrior.py:31-44 | each family's lists hold, in input order, the names and hyperparameters of exactly the parameters of that family |
| `Builder.ResolveIds` | CWFastPrior.py:52-54 | resolving names succeeds exactly when every name is in `param_names`; each id is then that name's first position; otherwise the error names the first missing name |
| `Builder.Build` | CWFastPrior.py:19-54 | a built prior keeps `param_names`, has parallel tables, and every id is below the number of names and is the first position of its name |
| `Builder.BuildTables` | CWFastPrior.py:31-54 | slot k of a family's table comes from the k-th parameter of that family in input order: its type name selects the family, its id is its name's first position, and its low and high are the parsed hyperparameters |
| `Builder.BuildSucceedsIff` | CWFastPrior.py:31-54 | construction succeeds exactly when every parameter's step succeeds and every recognised parameter's name is in `param_names` |
| `Builder.BuildReportsFirstEntryError` | CWFastPrior.py:31-44 | a parameter whose step raises makes construction fail with the error of the first failing parameter, which is at or before it, before any name is looked up |
| `Builder.BuildRejectsTooFewEquals` | CWFastPrior.py:35-44 | a recognised parameter whose type name has fewer than two `=` makes construction fail instead of defaulting |
| `Builder.BuildIdsDistinct` | CWFastPrior.py:52-54 | with distinct parameter names, no canonical index appears in two slots of the same or different tables |
| `Sampler.SlotOf` | CWFastPrior.py:73-82 | the slot used is the first one holding the index; the uniform table wins, then the linear-exponential table, then the normal one; there is no slot exactly when no table holds the index |
| `Sampler.UniformDraw` | CWFastPrior.py:76 | `np.random.uniform(low, high)` for the fraction `u`, computed as `low + u * (high - low)`; `Sampler.UniformDrawBetween` proves its bounds |
| `Sampler.UniformDrawBetween` | CWFastPrior.py:76 | with a fraction in [0, 1], a uniform draw lies between its two bounds, and in [low, high] when low <= high |
| `Sampler.LinExpDrawInBounds` | CWFastPrior.py:79 | when the power and logarithm are increasing inverses, the log10 of a uniform draw between `10**low` and `10**high` lies in [low, high] |
| `Sampler.LinExpDraw` | CWFastPrior.py:79 | `np.log10` of a uniform draw between `10**low` and `10**high`; `Sampler.LinExpDrawInBounds` proves it lies in [low, high] |
| `Sampler.Sample` | CWFastPrior.py:69-82 | sampling fails exactly when no table holds the index; otherwise a uniform draw lies between its slot's bounds, a linear-exponential draw lies in its slot's [low, high], and a normal draw uses its slot's mu and sigma |
| `Sampler.SampleOwnSlot` | CWFastPrior.py:73-82 | with distinct names, sampling a recognised parameter's canonical index uses that parameter's own family and slot |
| `ExtReals.Add` | CWFastPrior.py:97 | the IEEE addition of `log_prior += ...` without rounding: NaN absorbs, opposite infinities give NaN, an infinity absorbs finite values; `ExtReals.AddAssociates` shows it regroups freely |
| `ExtReals.Sum` | CWFastPrior.py:89-115 | the value of an accumulator that starts at `0.0` and adds the terms left to right; `ExtReals.SumKind`, `ExtReals.SumOfFinite` and `ExtReals.SumAppend` state its properties |
| `ExtReals.SumKind` | CWFastPrior.py:89-115 | an accumulated `+=` sum is NaN exactly when a NaN or both infinities occur, minus infinity exactly when `-inf` is the only non-finite kind, and finite exactly when every term is finite |
| `ExtReals.SumOfFinite` | CWFastPrior.py:89-115 | on finite terms the left-to-right sum equals the exact real sum computed right to left |
| `ExtReals.SumAppend` | CWFastPrior.py:89-115 | the sum of a concatenation is the sum of the two parts' sums |
| `LnPrior.Term` | CWFastPrior.py:97-113 | one entry's contribution: the uniform or normal log-density, and for the linear-exponential family the log-density inside `[low, high]` and `-inf` outside it, as the indicator of line 105 makes it; `LnPrior.OutOfSupportGivesNegInf` and `LnPrior.FiniteLogPrior` state the consequences |
| `LnPrior.LogPrior` | CWFastPrior.py:89-115 | the log prior as a specification: the sum from `0.0` of all contributions in table order; `LnPrior.GetLnPrior` is proved to compute it |
| `LnPrior.ContributionPerEntry` | CWFastPrior.py:92-113 | one contribution per table entry: their number is the total table size, and each entry's contribution is its family's term at `x0[ids[k]]` with its own low and high |
| `LnPrior.TableSums` | CWFastPrior.py:89-115 | the log prior is the uniform table's sum, plus the linear-exponential table's sum, plus the normal table's sum |
| `LnPrior.GetLnPrior` | CWFastPrior.py:85-115 | the three loops return exactly the sum from `0.0` of all contributions in table order |
| `LnPrior.OutOfSupportGivesNegInf` | CWFastPrior.py:105 | a linear-exponential value outside its bounds makes the log prior `-inf`, unless some contribution is `+inf` or NaN |
| `LnPrior.FiniteLogPrior` | CWFastPrior.py:100-105 | the log prior is finite exactly when every contribution is; it then equals their real sum, and every linear-exponential value lies within its bounds |

## Left out

- `float` conversion is a parse function supplied by the caller. Python's accepted
  number syntax is not modelled.
- The density formulas are not modelled: `numba_stats` `uniform.pdf` and `norm.pdf`, the
  `sig ** 2` argument, `np.log`, `np.log(10)` and `10 ** value`. They are floating point
  and foreign library code, so they are function parameters. As a result the uniform
  density's own support is not stated.
- Floating-point rounding, overflow and underflow are not modelled, and neither are
  `0 * inf = NaN` in the indicator product or numba's `ZeroDivisionError` when
  `10**high == 10**low`. Finite sums are exact real sums.
- x0 values and parsed hyperparameters are finite reals. NaN and infinite inputs are
  not modelled, though Python's `float` accepts `"inf"` and `"nan"` and `x0` is a float
  array. For a NaN or `+inf` value, line 105 computes `0 * 10**value`, which is NaN,
  where `LnPrior.Term` gives `-inf`.
- The global random state of `np.random.uniform` and `np.random.normal` is not modelled.
  Draws take a fraction `u` and an opaque `gauss`, and a normal draw has no stated bound.
- Sampler.LinExpDrawInBounds: the bound rests on the assumption that `10**x` and
  `np.log10` are increasing inverses (`ExpLogPair`), not on floating-point `10**x` and
  `np.log10`.
- Sampler.Sample: the uniform draw is the fraction formula `low + u * (high - low)`.
  The bound is stated as "between low and high" for a fraction in [0, 1], which
  ignores the rounding at the top end that numpy allows.
- LnPrior.GetLnPrior: numba does not bounds-check `x0[ids[i]]`, so the method requires
  that `x0` covers every parameter instead of modelling the out-of-range read.
- The `get_lnprior` and `get_sample` wrappers are left out because they only forward
  the stored arrays to the helpers.
- The stored `pta` object, numba JIT compilation, and the `numba.typed.List` and
  `np.array` conversions are left out. They are plumbing, and the model works on the
  sequences they hold.
