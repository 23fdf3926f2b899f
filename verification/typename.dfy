/** Reading a parameter's type-name text: which family it belongs to, decided by substring
    tests in a fixed order, and the two hyperparameter texts cut out of it by splitting
    on '=' and ','. */
module TypeName {
  import opened Outcomes
  import opened Text
  import opened Prior

  /** The family a type name selects, by the substring tests of the loop in order. */
  function FamilyOf(typename: string): Option<Family>
  {
    if Contains(typename, "Uniform") then Some(Uniform)
    else if Contains(typename, "LinearExp") then Some(LinearExp)
    else if Contains(typename, "Normal") then Some(Normal)
    else None
  }

  /** "Uniform" anywhere in the type name wins over everything, "LinearExp" decides only
      without "Uniform", and "Normal" only without both; a type name with none of the three
      selects no family. */
  lemma FamilyPrecedence(typename: string)
    ensures FamilyOf(typename) == Some(Uniform) <==> Occurs(typename, "Uniform")
    ensures FamilyOf(typename) == Some(LinearExp) <==>
              !Occurs(typename, "Uniform") && Occurs(typename, "LinearExp")
    ensures FamilyOf(typename) == Some(Normal) <==>
              !Occurs(typename, "Uniform") && !Occurs(typename, "LinearExp") && Occurs(typename, "Normal")
    ensures FamilyOf(typename) == None <==>
              !Occurs(typename, "Uniform") && !Occurs(typename, "LinearExp") && !Occurs(typename, "Normal")
  {
    ContainsIffOccurs(typename, "Uniform");
    ContainsIffOccurs(typename, "LinearExp");
    ContainsIffOccurs(typename, "Normal");
  }

  /** `typename.split('=')[1].split(',')[0]`: the low (or mu) text. Absent, where Python
      raises an index error, exactly when the type name has no '='. */
  function LowText(typename: string): (r: Option<string>)
    ensures r.None? <==> '=' !in typename
    ensures r.Some? ==> '=' !in r.value && ',' !in r.value
  {
    var parts := Split(typename, '=');
    SplitCount(typename, '=');
    if |parts| < 2 then None else Some(Split(parts[1], ',')[0])
  }

  /** `typename.split('=')[2][:-1]`: the high (or sigma) text. Absent, where Python
      raises an index error, exactly when the type name has fewer than two '='. */
  function HighText(typename: string): (r: Option<string>)
    ensures r.None? <==> multiset(typename)['='] < 2
    ensures r.Some? ==> '=' !in r.value
  {
    var parts := Split(typename, '=');
    SplitCount(typename, '=');
    if |parts| < 3 then None else Some(DropLast(parts[2]))
  }

  /** The low text is the run of characters after the first '=' up to the next ',' or '='. */
  lemma {:induction false} LowTextAfterFirstEquals(typename: string, p: nat, t: string)
    requires p < |typename| && typename[p] == '=' && '=' !in typename[..p]
    requires IsLeadingRun(t, typename[p + 1..], {'=', ','})
    ensures LowText(typename) == Some(t)
  {
    var rest := typename[p + 1..];
    SplitTail(typename, '=', p);
    var w := Split(rest, '=')[0];
    assert Split(typename, '=')[1] == w;
    SplitHeadIsLeadingRun(rest, '=');
    var v := Split(w, ',')[0];
    SplitHeadIsLeadingRun(w, ',');
    assert '=' !in w;
    assert forall k :: 0 <= k < |v| ==> v[k] == w[k];
    assert IsLeadingRun(v, rest, {'=', ','});
    LeadingRunUnique(v, t, rest, {'=', ','});
  }

  /** The third part of a split on '=' is the first part of the text after the second '='. */
  lemma SplitThirdPart(typename: string, p: nat, q: nat)
    requires p < q < |typename| && typename[p] == '=' && typename[q] == '='
    requires '=' !in typename[..p] && '=' !in typename[p + 1..q]
    ensures |Split(typename, '=')| >= 3
    ensures Split(typename, '=')[2] == Split(typename[q + 1..], '=')[0]
  {
    var rest := typename[p + 1..];
    var tail := typename[q + 1..];
    var i := q - p - 1;
    var whole, second, third := Split(typename, '='), Split(rest, '='), Split(tail, '=');
    assert whole == [typename[..p]] + second by {
      SplitTail(typename, '=', p);
    }
    assert second == [rest[..i]] + third by {
      assert rest[i] == '=';
      assert rest[..i] == typename[p + 1..q];
      assert rest[i + 1..] == tail;
      SplitTail(rest, '=', i);
    }
    assert whole[2] == second[1] == third[0];
  }

  /** The high text is the run of characters after the second '=' up to the next '=' or
      the end, with its last character dropped. */
  lemma {:induction false} HighTextAfterSecondEquals(typename: string, p: nat, q: nat, w: string)
    requires p < q < |typename| && typename[p] == '=' && typename[q] == '='
    requires '=' !in typename[..p] && '=' !in typename[p + 1..q]
    requires IsLeadingRun(w, typename[q + 1..], {'='})
    ensures HighText(typename) == Some(DropLast(w))
  {
    var tail := typename[q + 1..];
    SplitThirdPart(typename, p, q);
    SplitHeadIsLeadingRun(tail, '=');
    LeadingRunUnique(w, Split(tail, '=')[0], tail, {'='});
  }
}
