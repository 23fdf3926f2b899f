/** The string operations the prior applies to a parameter's type-name text:
    Python's `pat in s`, `s.split(c)` for a one-character separator, and `s[:-1]`. */
module Text {
  import opened Outcomes
  import opened Seqs

  /** `pat` occurs in `s` starting at position `i`. */
  ghost predicate OccursAt(s: string, pat: string, i: int)
  {
    0 <= i <= |s| - |pat| && s[i..i + |pat|] == pat
  }

  /** `pat` is a substring of `s`. */
  ghost predicate Occurs(s: string, pat: string)
  {
    exists i :: OccursAt(s, pat, i)
  }

  /** Python's substring test `pat in s`. */
  function Contains(s: string, pat: string): bool
    decreases |s|
  {
    if pat <= s then true
    else if |s| <= |pat| then false
    else Contains(s[1..], pat)
  }

  /** `Contains` is exactly the substring relation. */
  lemma {:induction false} ContainsIffOccurs(s: string, pat: string)
    ensures Contains(s, pat) <==> Occurs(s, pat)
    decreases |s|
  {
    if pat <= s {
      assert OccursAt(s, pat, 0);
    } else if |s| <= |pat| {
      NoOccurrenceInShortText(s, pat);
    } else {
      OccursShift(s, pat);
      ContainsIffOccurs(s[1..], pat);
    }
  }

  lemma NoOccurrenceInShortText(s: string, pat: string)
    requires !(pat <= s) && |s| <= |pat|
    ensures !Occurs(s, pat)
  {
  }

  /** Once `pat` is not a prefix, its occurrences are those in the tail. */
  lemma OccursShift(s: string, pat: string)
    requires !(pat <= s) && |s| > 0
    ensures Occurs(s, pat) <==> Occurs(s[1..], pat)
  {
    if i :| OccursAt(s, pat, i) {
      assert s[1..][i - 1..i - 1 + |pat|] == s[i..i + |pat|];
      assert OccursAt(s[1..], pat, i - 1);
    }
    if i :| OccursAt(s[1..], pat, i) {
      assert s[1..][i..i + |pat|] == s[i + 1..i + 1 + |pat|];
      assert OccursAt(s, pat, i + 1);
    }
  }

  /** The inverse of `Split`: the parts glued back together with `c` between them. */
  function Join(parts: seq<string>, c: char): string
    requires |parts| >= 1
  {
    if |parts| == 1 then parts[0] else parts[0] + [c] + Join(parts[1..], c)
  }

  /** Python's `s.split(c)` for a one-character separator: at least one part, and no part
      contains the separator. */
  function Split(s: string, c: char): (parts: seq<string>)
    ensures |parts| >= 1
    ensures forall k :: 0 <= k < |parts| ==> c !in parts[k]
    decreases |s|
  {
    match IndexOf(s, c)
    case None => [s]
    case Some(p) => [s[..p]] + Split(s[p + 1..], c)
  }

  /** Joining the parts of a split with the separator gives the text back. */
  lemma {:induction false} JoinSplit(s: string, c: char)
    ensures Join(Split(s, c), c) == s
    decreases |s|
  {
    match IndexOf(s, c)
    case None =>
    case Some(p) =>
      var rest := Split(s[p + 1..], c);
      JoinSplit(s[p + 1..], c);
      assert Split(s, c) == [s[..p]] + rest;
      assert ([s[..p]] + rest)[1..] == rest;
      assert s == s[..p] + [c] + s[p + 1..];
  }

  /** A split has one more part than the text has separators. */
  lemma {:induction false} SplitCount(s: string, c: char)
    ensures |Split(s, c)| == multiset(s)[c] + 1
    decreases |s|
  {
    match IndexOf(s, c)
    case None =>
      assert multiset(s)[c] == 0;
    case Some(p) =>
      SplitCount(s[p + 1..], c);
      assert Split(s, c) == [s[..p]] + Split(s[p + 1..], c);
      assert s == s[..p] + [c] + s[p + 1..];
      assert multiset(s) == multiset(s[..p]) + multiset([c]) + multiset(s[p + 1..]);
      assert multiset(s[..p])[c] == 0;
  }

  /** Splitting is the unique decomposition into separator-free parts:
      splitting a join of separator-free parts gives exactly those parts. */
  lemma {:induction false} SplitJoin(parts: seq<string>, c: char)
    requires |parts| >= 1
    requires forall k :: 0 <= k < |parts| ==> c !in parts[k]
    ensures Split(Join(parts, c), c) == parts
    decreases |parts|
  {
    if |parts| > 1 {
      var s := Join(parts, c);
      var p := |parts[0]|;
      assert s == parts[0] + [c] + Join(parts[1..], c);
      assert s[..p] == parts[0];
      assert s[p + 1..] == Join(parts[1..], c);
      SplitTail(s, c, p);
      SplitJoin(parts[1..], c);
      assert parts == [parts[0]] + parts[1..];
    }
  }

  /** `t` is the longest prefix of `s` containing none of the `stops` characters. */
  ghost predicate IsLeadingRun(t: string, s: string, stops: set<char>)
  {
    && t <= s
    && (forall k :: 0 <= k < |t| ==> t[k] !in stops)
    && (|t| == |s| || s[|t|] in stops)
  }

  lemma LeadingRunUnique(t1: string, t2: string, s: string, stops: set<char>)
    requires IsLeadingRun(t1, s, stops) && IsLeadingRun(t2, s, stops)
    ensures t1 == t2
  {
  }

  /** The first part of a split is the text up to the first separator. */
  lemma SplitHeadIsLeadingRun(s: string, c: char)
    ensures IsLeadingRun(Split(s, c)[0], s, {c})
  {
  }

  /** The second part of a split is the first part of the text after the first separator. */
  lemma SplitTail(s: string, c: char, p: nat)
    requires p < |s| && s[p] == c && c !in s[..p]
    ensures Split(s, c) == [s[..p]] + Split(s[p + 1..], c)
  {
    IndexOfFirst(s, c, p);
  }

  /** Python's `s[:-1]`: all but the last character, and the empty text stays empty. */
  function DropLast(s: string): (r: string)
    ensures |s| > 0 ==> r + [s[|s| - 1]] == s
    ensures |s| == 0 ==> r == []
  {
    if |s| == 0 then s else s[..|s| - 1]
  }
}
