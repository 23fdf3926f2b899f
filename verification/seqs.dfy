/** First-occurrence lookup in a sequence. The same concept appears three times in the
    prior: `str.split` looks for the first separator, `list.index` finds the first position
    of a parameter name, and `min(nonzero(ids == idx))` finds the first table slot of an id. */
module Seqs {
  import opened Outcomes

  /** The positions of `s` that hold `x` (numpy's `nonzero(s == x)[0]`, as a set). */
  ghost function Matches<T>(s: seq<T>, x: T): set<nat>
  {
    set j: nat | j < |s| && s[j] == x
  }

  /** The first position of `x` in `s`, or `None` when `x` does not occur
      (where `list.index` raises and `min` of an empty array raises). */
  function IndexOf<T(==)>(s: seq<T>, x: T): (r: Option<nat>)
    ensures r.None? <==> x !in s
    ensures r.Some? ==> r.value < |s| && s[r.value] == x && x !in s[..r.value]
  {
    if |s| == 0 then None
    else if s[0] == x then Some(0)
    else
      match IndexOf(s[1..], x)
      case None => None
      case Some(i) =>
        assert s[..i + 1] == [s[0]] + s[1..][..i];
        Some(i + 1)
  }

  /** A position holding `x` with no earlier `x` is the one `IndexOf` finds. */
  lemma IndexOfFirst<T>(s: seq<T>, x: T, i: nat)
    requires i < |s| && s[i] == x && x !in s[..i]
    ensures IndexOf(s, x) == Some(i)
  {
    assert x in s;
  }

  /** `IndexOf` is the least element of the set of matching positions, and it is
      `None` exactly when that set is empty. */
  lemma IndexOfIsMinMatch<T>(s: seq<T>, x: T)
    ensures IndexOf(s, x).None? <==> Matches(s, x) == {}
    ensures IndexOf(s, x).Some? ==>
              IndexOf(s, x).value in Matches(s, x)
              && forall j :: j in Matches(s, x) ==> IndexOf(s, x).value <= j
  {
    match IndexOf(s, x)
    case None =>
    case Some(i) =>
      assert i in Matches(s, x);
      forall j | j in Matches(s, x)
        ensures i <= j
      {
      }
  }
}
