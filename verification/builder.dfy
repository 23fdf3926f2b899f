/** Construction of a `FastPrior`: one walk over the parameters that classifies each by its
    type name and appends its name and two hyperparameters to that family's parallel
    lists, followed by the translation of every collected name into its canonical index,
    the first position of the name in the parameter-name list. */
module Builder {
  import opened Outcomes
  import opened Seqs
  import opened Prior
  import opened TypeName

  /** Why construction raises: a type name without the first or second '='
      (`IndexError`, field 1 or 2), hyperparameter text that `float` rejects (`ValueError`),
      or a collected name that is not in the parameter-name list (`list.index` raises). */
  datatype BuildError =
    | MissingField(name: string, field: nat)
    | BadNumber(name: string, text: string)
    | UnknownName(name: string)

  /** What one recognised parameter contributes: its family and two hyperparameters. */
  datatype Hyper = Hyper(family: Family, low: real, high: real)

  /** The loop body for one parameter. `parse` stands for Python's `float`, `None` where it
      raises. The low text is extracted and converted before the high text is looked at.
      An error names the parameter it arose from. */
  function Entry(p: Param, parse: string -> Option<real>): (r: Result<Option<Hyper>, BuildError>)
    ensures r.Err? ==> r.error.name == p.name && !r.error.UnknownName?
  {
    match FamilyOf(p.typename)
    case None => Ok(None)
    case Some(f) =>
      match LowText(p.typename)
      case None => Err(MissingField(p.name, 1))
      case Some(lowText) =>
        match parse(lowText)
        case None => Err(BadNumber(p.name, lowText))
        case Some(low) =>
          match HighText(p.typename)
          case None => Err(MissingField(p.name, 2))
          case Some(highText) =>
            match parse(highText)
            case None => Err(BadNumber(p.name, highText))
            case Some(high) => Ok(Some(Hyper(f, low, high)))
  }

  /** A parameter in no family contributes nothing. One in a family succeeds exactly when
      both hyperparameter texts exist and parse, and then yields that family with the
      parsed values; otherwise it fails with the first problem met: a missing low text, a
      low text `float` rejects, a missing high text, a high text `float` rejects. A
      recognised type name with fewer than two '=' fails rather than defaulting. */
  lemma EntryOutcome(p: Param, parse: string -> Option<real>)
    ensures FamilyOf(p.typename).Some? ==>
              (Entry(p, parse).Ok? <==>
                 && LowText(p.typename).Some? && parse(LowText(p.typename).value).Some?
                 && HighText(p.typename).Some? && parse(HighText(p.typename).value).Some?)
    ensures FamilyOf(p.typename).Some? && LowText(p.typename).None? ==>
              Entry(p, parse) == Err(MissingField(p.name, 1))
    ensures FamilyOf(p.typename).Some? && LowText(p.typename).Some?
            && parse(LowText(p.typename).value).None? ==>
              Entry(p, parse) == Err(BadNumber(p.name, LowText(p.typename).value))
    ensures FamilyOf(p.typename).Some? && LowText(p.typename).Some?
            && parse(LowText(p.typename).value).Some? && HighText(p.typename).None? ==>
              Entry(p, parse) == Err(MissingField(p.name, 2))
    ensures FamilyOf(p.typename).Some? && LowText(p.typename).Some?
            && parse(LowText(p.typename).value).Some? && HighText(p.typename).Some?
            && parse(HighText(p.typename).value).None? ==>
              Entry(p, parse) == Err(BadNumber(p.name, HighText(p.typename).value))
    ensures Entry(p, parse).Ok? ==> EntryFamily(Entry(p, parse).value) == FamilyOf(p.typename)
    ensures FamilyOf(p.typename).None? ==> Entry(p, parse) == Ok(None)
    ensures FamilyOf(p.typename).Some? && multiset(p.typename)['='] < 2 ==> Entry(p, parse).Err?
    ensures Entry(p, parse).Ok? && FamilyOf(p.typename).Some? ==>
              && LowText(p.typename).Some?
              && HighText(p.typename).Some?
              && Entry(p, parse) == Ok(Some(Hyper(FamilyOf(p.typename).value,
                                                  parse(LowText(p.typename).value).value,
                                                  parse(HighText(p.typename).value).value)))
  {
  }

  /** The family an entry was appended under, if any. */
  function EntryFamily(e: Option<Hyper>): Option<Family>
  {
    match e
    case None => None
    case Some(h) => Some(h.family)
  }

  /** The outcome of the loop body for every parameter, in order. */
  function Entries(ps: seq<Param>, parse: string -> Option<real>): (es: seq<Result<Option<Hyper>, BuildError>>)
    ensures |es| == |ps|
  {
    seq(|ps|, j requires 0 <= j < |ps| => Entry(ps[j], parse))
  }

  /** The family each parameter's type name selects, in order. */
  function Families(ps: seq<Param>): (fams: seq<Option<Family>>)
    ensures |fams| == |ps|
  {
    seq(|ps|, j requires 0 <= j < |ps| => FamilyOf(ps[j].typename))
  }

  /** The entries were decided by the families: a successful entry carries the family
      selected for its parameter. */
  predicate Agrees(fams: seq<Option<Family>>, es: seq<Result<Option<Hyper>, BuildError>>)
    requires |es| == |fams|
  {
    forall j :: 0 <= j < |fams| && es[j].Ok? ==> EntryFamily(es[j].value) == fams[j]
  }

  lemma EntriesAgree(ps: seq<Param>, parse: string -> Option<real>)
    ensures Agrees(Families(ps), Entries(ps, parse))
  {
    forall j | 0 <= j < |ps| && Entries(ps, parse)[j].Ok?
      ensures EntryFamily(Entries(ps, parse)[j].value) == Families(ps)[j]
    {
      EntryOutcome(ps[j], parse);
      assert Entries(ps, parse)[j] == Entry(ps[j], parse);
    }
  }

  /** The positions whose family is `f`, in increasing order: exactly those positions. */
  function Members(fams: seq<Option<Family>>, f: Family): (js: seq<nat>)
    ensures forall k :: 0 <= k < |js| ==> js[k] < |fams| && fams[js[k]] == Some(f)
    ensures forall j :: 0 <= j < |fams| && fams[j] == Some(f) ==> j in js
    ensures forall k, l :: 0 <= k < l < |js| ==> js[k] < js[l]
    decreases |fams|
  {
    if |fams| == 0 then []
    else
      var n := |fams| - 1;
      Members(fams[..n], f) + (if fams[n] == Some(f) then [n] else [])
  }

  /** The three per-family lists built by the loop, before names become ids. */
  datatype Column = Column(names: seq<string>, lows: seq<real>, highs: seq<real>)

  datatype Staged = Staged(uniform: Column, linExp: Column, normal: Column)

  const NoColumns := Staged(Column([], [], []), Column([], [], []), Column([], [], []))

  function Col(st: Staged, f: Family): Column
  {
    match f
    case Uniform => st.uniform
    case LinearExp => st.linExp
    case Normal => st.normal
  }

  predicate ColumnParallel(c: Column)
  {
    |c.lows| == |c.names| && |c.highs| == |c.names|
  }

  function Append(c: Column, name: string, h: Hyper): Column
  {
    Column(c.names + [name], c.lows + [h.low], c.highs + [h.high])
  }

  /** The three `append` calls of one branch of the loop. */
  function AddEntry(st: Staged, name: string, h: Hyper): Staged
  {
    match h.family
    case Uniform => st.(uniform := Append(st.uniform, name, h))
    case LinearExp => st.(linExp := Append(st.linExp, name, h))
    case Normal => st.(normal := Append(st.normal, name, h))
  }

  /** The classification loop over `pta.params`, given each parameter's entry `es[j]`.
      It fails with the error of the first failing entry, and otherwise keeps every list
      parallel. */
  function Classify(ps: seq<Param>, es: seq<Result<Option<Hyper>, BuildError>>): (r: Result<Staged, BuildError>)
    requires |es| == |ps|
    ensures r.Ok? <==> forall j :: 0 <= j < |es| ==> es[j].Ok?
    ensures r.Ok? ==>
              ColumnParallel(r.value.uniform) && ColumnParallel(r.value.linExp) && ColumnParallel(r.value.normal)
    decreases |ps|
  {
    if |ps| == 0 then Ok(NoColumns)
    else
      var n := |ps| - 1;
      assert forall j :: 0 <= j < n ==> es[..n][j] == es[j];
      match Classify(ps[..n], es[..n])
      case Err(e) => Err(e)
      case Ok(st) =>
        match es[n]
        case Err(e) => Err(e)
        case Ok(None) => Ok(st)
        case Ok(Some(h)) => Ok(AddEntry(st, ps[n].name, h))
  }

  /** A failing loop reports the error of the first failing entry. */
  lemma {:induction false} ClassifyFirstError(ps: seq<Param>, es: seq<Result<Option<Hyper>, BuildError>>)
    requires |es| == |ps| && Classify(ps, es).Err?
    ensures exists j :: 0 <= j < |es| && es[j] == Err(Classify(ps, es).error)
                        && forall i :: 0 <= i < j ==> es[i].Ok?
    decreases |ps|
  {
    var n := |ps| - 1;
    assert forall j :: 0 <= j < n ==> es[..n][j] == es[j];
    if Classify(ps[..n], es[..n]).Err? {
      ClassifyFirstError(ps[..n], es[..n]);
      var j :| 0 <= j < n && es[..n][j] == Err(Classify(ps[..n], es[..n]).error)
               && forall i :: 0 <= i < j ==> es[..n][i].Ok?;
      assert es[j] == Err(Classify(ps, es).error);
    } else {
      assert es[n] == Err(Classify(ps, es).error);
    }
  }

  /** Column `c` lists, position by position, the parameters at positions `js`: their
      names, and hyperparameters equal to those of their entries under family `f`. */
  ghost predicate ListsAt(c: Column, ps: seq<Param>, es: seq<Result<Option<Hyper>, BuildError>>,
                          js: seq<nat>, f: Family)
  {
    && ColumnParallel(c)
    && |c.names| == |js|
    && forall k :: 0 <= k < |js| ==>
         && js[k] < |ps| && js[k] < |es|
         && c.names[k] == ps[js[k]].name
         && es[js[k]] == Ok(Some(Hyper(f, c.lows[k], c.highs[k])))
  }

  /** Each column lists, in input order, the name and hyperparameters of exactly the
      parameters whose family is the column's. */
  lemma {:induction false} ClassifyColumns(ps: seq<Param>, fams: seq<Option<Family>>,
                                           es: seq<Result<Option<Hyper>, BuildError>>, f: Family)
    requires |es| == |ps| && |fams| == |ps| && Agrees(fams, es)
    requires Classify(ps, es).Ok?
    ensures ListsAt(Col(Classify(ps, es).value, f), ps, es, Members(fams, f), f)
    decreases |ps|
  {
    if |ps| > 0 {
      var n := |ps| - 1;
      var before := ClassifyLast(ps, es, f);
      assert Agrees(fams[..n], es[..n]) by {
        assert forall j :: 0 <= j < n ==> es[..n][j] == es[j] && fams[..n][j] == fams[j];
      }
      ClassifyColumns(ps[..n], fams[..n], es[..n], f);
      var js := Members(fams[..n], f);
      ListsAtPrefix(before, ps, es, js, f);
      var e := es[n].value;
      assert EntryFamily(e) == fams[n];
      if fams[n] == Some(f) {
        assert Members(fams, f) == js + [n];
        ListsAtAppend(before, ps, es, js, f, n);
      } else {
        assert Members(fams, f) == js;
      }
    }
  }

  lemma ListsAtPrefix(c: Column, ps: seq<Param>, es: seq<Result<Option<Hyper>, BuildError>>,
                      js: seq<nat>, f: Family)
    requires |es| == |ps| > 0
    requires ListsAt(c, ps[..|ps| - 1], es[..|ps| - 1], js, f)
    ensures ListsAt(c, ps, es, js, f)
  {
    var n := |ps| - 1;
    forall k | 0 <= k < |js|
      ensures ps[..n][js[k]] == ps[js[k]] && es[..n][js[k]] == es[js[k]]
    {
    }
  }

  lemma ListsAtAppend(c: Column, ps: seq<Param>, es: seq<Result<Option<Hyper>, BuildError>>,
                      js: seq<nat>, f: Family, n: nat)
    requires n < |ps| && n < |es| && es[n].Ok? && es[n].value.Some? && es[n].value.value.family == f
    requires ListsAt(c, ps, es, js, f)
    ensures ListsAt(Append(c, ps[n].name, es[n].value.value), ps, es, js + [n], f)
  {
    var c' := Append(c, ps[n].name, es[n].value.value);
    forall k | 0 <= k < |js|
      ensures (js + [n])[k] == js[k]
      ensures c'.names[k] == c.names[k] && c'.lows[k] == c.lows[k] && c'.highs[k] == c.highs[k]
    {
    }
  }

  /** One step of the loop: the column after the last parameter is the column before it,
      extended when the last entry belongs to the column's family. */
  lemma ClassifyLast(ps: seq<Param>, es: seq<Result<Option<Hyper>, BuildError>>, f: Family)
    returns (before: Column)
    requires |es| == |ps| > 0 && Classify(ps, es).Ok?
    ensures Classify(ps[..|ps| - 1], es[..|ps| - 1]).Ok?
    ensures before == Col(Classify(ps[..|ps| - 1], es[..|ps| - 1]).value, f)
    ensures es[|ps| - 1].Ok?
    ensures var e := es[|ps| - 1].value;
            Col(Classify(ps, es).value, f)
            == if e.Some? && e.value.family == f then Append(before, ps[|ps| - 1].name, e.value) else before
  {
    var n := |ps| - 1;
    assert forall j :: 0 <= j < n ==> es[..n][j] == es[j];
    before := Col(Classify(ps[..n], es[..n]).value, f);
  }

  /** The list comprehension of `param_names.index(name)` over one column: the first
      position of every name, or the error of the first name that is missing. */
  function ResolveIds(names: seq<string>, members: seq<string>): (r: Result<seq<nat>, BuildError>)
    ensures r.Ok? <==> forall k :: 0 <= k < |members| ==> members[k] in names
    ensures r.Ok? ==>
              && |r.value| == |members|
              && forall k :: 0 <= k < |members| ==> IndexOf(names, members[k]) == Some(r.value[k])
    ensures r.Err? ==>
              exists k :: 0 <= k < |members| && r.error == UnknownName(members[k])
                          && members[k] !in names
                          && forall i :: 0 <= i < k ==> members[i] in names
    decreases |members|
  {
    if |members| == 0 then Ok([])
    else
      var n := |members| - 1;
      assert forall k :: 0 <= k < n ==> members[..n][k] == members[k];
      var ids :- ResolveIds(names, members[..n]);
      match IndexOf(names, members[n])
      case None => Err(UnknownName(members[n]))
      case Some(i) => Ok(ids + [i])
  }

  /** Every id of the table is the first position of its name in `names`. */
  predicate FirstOccurrences(t: Table, names: seq<string>)
    requires IdsBelow(t, |names|)
  {
    forall k :: 0 <= k < |t.ids| ==> names[t.ids[k]] !in names[..t.ids[k]]
  }

  /** `FastPrior.__init__`. A success keeps `param_names`, has parallel tables whose ids
      index it, and every id is the first position of its name, so duplicated names all
      resolve to their first occurrence. */
  function Build(ps: seq<Param>, names: seq<string>, parse: string -> Option<real>): (r: Result<FastPrior, BuildError>)
    ensures r.Ok? ==>
              && r.value.paramNames == names
              && WellFormed(r.value)
              && FirstOccurrences(r.value.uniform, names)
              && FirstOccurrences(r.value.linExp, names)
              && FirstOccurrences(r.value.normal, names)
  {
    var st :- Classify(ps, Entries(ps, parse));
    var uniformIds :- ResolveIds(names, st.uniform.names);
    var linExpIds :- ResolveIds(names, st.linExp.names);
    var normalIds :- ResolveIds(names, st.normal.names);
    Ok(FastPrior(names,
                 Table(uniformIds, st.uniform.lows, st.uniform.highs),
                 Table(linExpIds, st.linExp.lows, st.linExp.highs),
                 Table(normalIds, st.normal.lows, st.normal.highs)))
  }

  /** A failing parameter makes construction fail with the error of the first failing
      parameter, before any name is looked up. */
  lemma BuildReportsFirstEntryError(ps: seq<Param>, names: seq<string>, parse: string -> Option<real>, j: nat)
    requires j < |ps| && Entry(ps[j], parse).Err?
    ensures Build(ps, names, parse).Err?
    ensures exists i :: 0 <= i <= j && Entry(ps[i], parse).Err?
                       && Build(ps, names, parse).error == Entry(ps[i], parse).error
                       && forall h :: 0 <= h < i ==> Entry(ps[h], parse).Ok?
  {
    var es := Entries(ps, parse);
    assert es[j].Err?;
    ClassifyFirstError(ps, es);
    var i :| 0 <= i < |es| && es[i] == Err(Classify(ps, es).error) && forall h :: 0 <= h < i ==> es[h].Ok?;
    assert i <= j;
    assert Build(ps, names, parse).error == Entry(ps[i], parse).error;
    assert forall h :: 0 <= h < i ==> Entry(ps[h], parse).Ok? by {
      assert forall h :: 0 <= h < i ==> es[h] == Entry(ps[h], parse);
    }
  }

  /** A recognised parameter whose type name has fewer than two '=' makes construction
      fail instead of defaulting its hyperparameters. */
  lemma BuildRejectsTooFewEquals(ps: seq<Param>, names: seq<string>, parse: string -> Option<real>, j: nat)
    requires j < |ps| && FamilyOf(ps[j].typename).Some? && multiset(ps[j].typename)['='] < 2
    ensures Build(ps, names, parse).Err?
  {
    EntryOutcome(ps[j], parse);
    BuildReportsFirstEntryError(ps, names, parse, j);
  }

  /** The table of family `f` in a built prior is the staged column with its names resolved. */
  lemma BuildTable(ps: seq<Param>, names: seq<string>, parse: string -> Option<real>, f: Family)
    requires Build(ps, names, parse).Ok?
    ensures Classify(ps, Entries(ps, parse)).Ok?
    ensures var c := Col(Classify(ps, Entries(ps, parse)).value, f);
            && ResolveIds(names, c.names).Ok?
            && Tab(Build(ps, names, parse).value, f) == Table(ResolveIds(names, c.names).value, c.lows, c.highs)
  {
  }

  /** The table of family `f` holds, in input order, exactly the parameters whose type name
      selects `f`: the k-th slot carries the first position of that parameter's name in
      `names` and the two hyperparameters parsed from its type name. */
  lemma BuildTables(ps: seq<Param>, names: seq<string>, parse: string -> Option<real>, f: Family)
    requires Build(ps, names, parse).Ok?
    ensures var t := Tab(Build(ps, names, parse).value, f);
            var js := Members(Families(ps), f);
            && |t.ids| == |js|
            && forall k :: 0 <= k < |js| ==>
                 && FamilyOf(ps[js[k]].typename) == Some(f)
                 && IndexOf(names, ps[js[k]].name) == Some(t.ids[k])
                 && Entry(ps[js[k]], parse) == Ok(Some(Hyper(f, t.lows[k], t.highs[k])))
  {
    var es := Entries(ps, parse);
    BuildTable(ps, names, parse, f);
    EntriesAgree(ps, parse);
    ClassifyColumns(ps, Families(ps), es, f);
    var js := Members(Families(ps), f);
    forall k | 0 <= k < |js|
      ensures FamilyOf(ps[js[k]].typename) == Some(f)
      ensures Entry(ps[js[k]], parse) == es[js[k]]
    {
    }
  }

  /** Resolving a column succeeds exactly when every parameter of its family has its name
      in `names`. */
  lemma ResolveColumnIff(ps: seq<Param>, names: seq<string>, parse: string -> Option<real>, f: Family)
    requires Classify(ps, Entries(ps, parse)).Ok?
    ensures ResolveIds(names, Col(Classify(ps, Entries(ps, parse)).value, f).names).Ok?
            <==> forall j :: 0 <= j < |ps| && Families(ps)[j] == Some(f) ==> ps[j].name in names
  {
    var es := Entries(ps, parse);
    var fams := Families(ps);
    var c := Col(Classify(ps, es).value, f);
    EntriesAgree(ps, parse);
    ClassifyColumns(ps, fams, es, f);
    var js := Members(fams, f);
    if forall j :: 0 <= j < |ps| && fams[j] == Some(f) ==> ps[j].name in names {
      forall k | 0 <= k < |js|
        ensures c.names[k] in names
      {
        assert c.names[k] == ps[js[k]].name && fams[js[k]] == Some(f);
      }
    } else {
      var j :| 0 <= j < |ps| && fams[j] == Some(f) && ps[j].name !in names;
      var k :| 0 <= k < |js| && js[k] == j;
      assert c.names[k] !in names;
    }
  }

  /** Construction succeeds exactly when every parameter's hyperparameters can be read and
      every recognised parameter's name is in `names`. */
  lemma BuildSucceedsIff(ps: seq<Param>, names: seq<string>, parse: string -> Option<real>)
    ensures Build(ps, names, parse).Ok? <==>
              && (forall j :: 0 <= j < |ps| ==> Entry(ps[j], parse).Ok?)
              && (forall j :: 0 <= j < |ps| && FamilyOf(ps[j].typename).Some? ==> ps[j].name in names)
  {
    var es := Entries(ps, parse);
    var fams := Families(ps);
    assert forall j :: 0 <= j < |ps| ==> es[j] == Entry(ps[j], parse) && fams[j] == FamilyOf(ps[j].typename);
    if Classify(ps, es).Ok? {
      ResolveColumnIff(ps, names, parse, Uniform);
      ResolveColumnIff(ps, names, parse, LinearExp);
      ResolveColumnIff(ps, names, parse, Normal);
      if !(forall j :: 0 <= j < |ps| && fams[j].Some? ==> ps[j].name in names) {
        var j :| 0 <= j < |ps| && fams[j].Some? && ps[j].name !in names;
        assert fams[j] == Some(Uniform) || fams[j] == Some(LinearExp) || fams[j] == Some(Normal);
      }
    }
  }

  /** With distinct parameter names, no canonical index occupies two slots: the tables are
      pairwise disjoint and no table repeats an id. */
  lemma BuildIdsDistinct(ps: seq<Param>, names: seq<string>, parse: string -> Option<real>,
                         f: Family, k: nat, g: Family, l: nat)
    requires forall i, j :: 0 <= i < j < |ps| ==> ps[i].name != ps[j].name
    requires Build(ps, names, parse).Ok?
    requires k < |Tab(Build(ps, names, parse).value, f).ids|
    requires l < |Tab(Build(ps, names, parse).value, g).ids|
    requires f != g || k != l
    ensures Tab(Build(ps, names, parse).value, f).ids[k] != Tab(Build(ps, names, parse).value, g).ids[l]
  {
    var pr := Build(ps, names, parse).value;
    BuildTables(ps, names, parse, f);
    BuildTables(ps, names, parse, g);
    var jf := Members(Families(ps), f)[k];
    var jg := Members(Families(ps), g)[l];
    assert jf != jg by {
      if f == g {
        assert k != l;
      } else {
        assert FamilyOf(ps[jf].typename) == Some(f) && FamilyOf(ps[jg].typename) == Some(g);
      }
    }
    assert ps[jf].name != ps[jg].name;
    assert names[Tab(pr, f).ids[k]] == ps[jf].name;
    assert names[Tab(pr, g).ids[l]] == ps[jg].name;
  }
}
