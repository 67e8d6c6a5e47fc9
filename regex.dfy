/**
 * The three regular expressions of the core, each with one capture group of
 * decimal digits, and JavaScript's leftmost-match search over a string.
 * A greedy `\d+` followed by a non-digit can only succeed with the longest
 * digit run, so each pattern is matched without backtracking.
 */
module Regex {
  import opened Wrappers
  import opened Text

  const ContainerPrefix := "wpd-comm-"
  const PagePrefix := "comment-page-"

  datatype Pattern =
    | ContainerId   // wpd-comm-(\d+)_0
    | ParentRef     // wpd-comm-\d+_(\d+)
    | PageRef       // comment-page-(\d+)

  /** A match spans [start, end); its capture group spans [groupStart, groupEnd). */
  datatype Match = Match(start: nat, groupStart: nat, groupEnd: nat, end: nat)

  predicate WellFormed(s: string, m: Match)
  {
    m.start < m.groupStart < m.groupEnd <= m.end <= |s| && AllDigits(s[m.groupStart..m.groupEnd])
  }

  /** The digits the capture group holds. */
  function Captured(s: string, m: Match): (g: string)
    requires WellFormed(s, m)
    ensures |g| > 0 && AllDigits(g)
  {
    s[m.groupStart..m.groupEnd]
  }

  /** The literal text each pattern opens with. */
  function Prefix(p: Pattern): (q: string)
    ensures q == if p == PageRef then PagePrefix else ContainerPrefix
  {
    if p == PageRef then PagePrefix else ContainerPrefix
  }

  /**
   * `m` is a match of `p` in `s` when every `\d+` may take any non-empty run
   * of digits, as a backtracking regular-expression engine allows.
   */
  predicate Matches(p: Pattern, s: string, m: Match)
  {
    var g0 := m.start + |Prefix(p)|;
    OccursAt(s, Prefix(p), m.start) && m.end <= |s| &&
    match p
    case ContainerId =>
      m.groupStart == g0 < m.groupEnd && m.end == m.groupEnd + 2
      && AllDigits(s[g0..m.groupEnd]) && OccursAt(s, "_0", m.groupEnd)
    case ParentRef =>
      g0 < m.groupStart - 1 && m.groupStart < m.groupEnd == m.end
      && AllDigits(s[g0..m.groupStart - 1]) && s[m.groupStart - 1] == '_'
      && AllDigits(s[m.groupStart..m.groupEnd])
    case PageRef =>
      m.groupStart == g0 < m.groupEnd == m.end && AllDigits(s[g0..m.groupEnd])
  }

  /**
   * The match of pattern `p` that begins exactly at index `i`, if any: a match
   * in the sense of `Matches` whose last digit run is greedy, and none when no
   * match at all begins at `i`.
   */
  function MatchAt(p: Pattern, s: string, i: nat): (r: Option<Match>)
    requires i <= |s|
    ensures r.Some? ==> r.value.start == i && WellFormed(s, r.value) && Matches(p, s, r.value)
    ensures r.Some? ==> r.value.groupEnd == |s| || !IsDigit(s[r.value.groupEnd])
    ensures r.None? ==> forall m: Match :: m.start == i ==> !Matches(p, s, m)
  {
    match p
    case ContainerId => ContainerIdAt(s, i)
    case ParentRef => ParentRefAt(s, i)
    case PageRef => PageRefAt(s, i)
  }

  /** `wpd-comm-(\d+)_0` at `i`: the digits must run up to the `_0`. */
  function ContainerIdAt(s: string, i: nat): (r: Option<Match>)
    requires i <= |s|
    ensures r.Some? ==> r.value.start == i && WellFormed(s, r.value) && Matches(ContainerId, s, r.value)
    ensures r.Some? ==> r.value.groupEnd == |s| || !IsDigit(s[r.value.groupEnd])
    ensures r.None? ==> forall m: Match :: m.start == i ==> !Matches(ContainerId, s, m)
  {
    if !OccursAt(s, ContainerPrefix, i) then None
    else
      var g := i + |ContainerPrefix|;
      var e := DigitRunEnd(s, g);
      ContainerIdShape(s, i);
      if e > g && OccursAt(s, "_0", e) then Some(Match(i, g, e, e + 2)) else None
  }

  /** Any match of `wpd-comm-(\d+)_0` at `i` captures the whole digit run after the prefix. */
  lemma ContainerIdShape(s: string, i: nat)
    requires i + |ContainerPrefix| <= |s|
    ensures forall m: Match :: m.start == i && Matches(ContainerId, s, m) ==>
      m.groupEnd == DigitRunEnd(s, i + |ContainerPrefix|)
  {
    forall m: Match | m.start == i && Matches(ContainerId, s, m)
      ensures m.groupEnd == DigitRunEnd(s, i + |ContainerPrefix|)
    {
      assert s[m.groupEnd] == s[m.groupEnd..m.groupEnd + 2][0];
      DigitRunEndIs(s, i + |ContainerPrefix|, m.groupEnd);
    }
  }

  /** `wpd-comm-\d+_(\d+)` at `i`: the first run must end at a `_`. */
  function ParentRefAt(s: string, i: nat): (r: Option<Match>)
    requires i <= |s|
    ensures r.Some? ==> r.value.start == i && WellFormed(s, r.value) && Matches(ParentRef, s, r.value)
    ensures r.Some? ==> r.value.groupEnd == |s| || !IsDigit(s[r.value.groupEnd])
    ensures r.None? ==> forall m: Match :: m.start == i ==> !Matches(ParentRef, s, m)
  {
    if !OccursAt(s, ContainerPrefix, i) then None
    else
      var g := i + |ContainerPrefix|;
      var d := DigitRunEnd(s, g);
      ParentRefShape(s, i);
      if d > g && d < |s| && s[d] == '_' then
        var e := DigitRunEnd(s, d + 1);
        if e > d + 1 then Some(Match(i, d + 1, e, e)) else None
      else None
  }

  /** In any match of `wpd-comm-\d+_(\d+)` at `i` the first run is the whole digit run after the prefix. */
  lemma ParentRefShape(s: string, i: nat)
    requires i + |ContainerPrefix| <= |s|
    ensures forall m: Match :: m.start == i && Matches(ParentRef, s, m) ==>
      m.groupStart == DigitRunEnd(s, i + |ContainerPrefix|) + 1
  {
    forall m: Match | m.start == i && Matches(ParentRef, s, m)
      ensures m.groupStart == DigitRunEnd(s, i + |ContainerPrefix|) + 1
    {
      DigitRunEndIs(s, i + |ContainerPrefix|, m.groupStart - 1);
    }
  }

  /** `comment-page-(\d+)` at `i`: at least one digit after the prefix. */
  function PageRefAt(s: string, i: nat): (r: Option<Match>)
    requires i <= |s|
    ensures r.Some? ==> r.value.start == i && WellFormed(s, r.value) && Matches(PageRef, s, r.value)
    ensures r.Some? ==> r.value.groupEnd == |s| || !IsDigit(s[r.value.groupEnd])
    ensures r.None? ==> forall m: Match :: m.start == i ==> !Matches(PageRef, s, m)
  {
    if !OccursAt(s, PagePrefix, i) then None
    else
      var g := i + |PagePrefix|;
      var e := DigitRunEnd(s, g);
      if e > g then Some(Match(i, g, e, e)) else None
  }

  /** `RegExp.prototype.exec` from index `from`: the match that starts leftmost. */
  function Leftmost(p: Pattern, s: string, from: nat): (r: Option<Match>)
    requires from <= |s|
    ensures r.Some? ==> from <= r.value.start <= |s| && MatchAt(p, s, r.value.start) == r
    ensures r.Some? ==> forall k :: from <= k < r.value.start ==> MatchAt(p, s, k).None?
    ensures r.Some? ==> forall m: Match :: from <= m.start < r.value.start ==> !Matches(p, s, m)
    ensures r.None? ==> forall k :: from <= k <= |s| ==> MatchAt(p, s, k).None?
    ensures r.None? ==> forall m: Match :: from <= m.start ==> !Matches(p, s, m)
    decreases |s| - from
  {
    var here := MatchAt(p, s, from);
    if here.Some? || from == |s| then here else Leftmost(p, s, from + 1)
  }

  /**
   * `m` is what `String.prototype.match` reports for `p` on `s`: a match that
   * starts no later than any other, with a greedy last digit run.
   */
  ghost predicate IsFirst(p: Pattern, s: string, m: Match)
  {
    && WellFormed(s, m)
    && Matches(p, s, m)
    && (m.groupEnd == |s| || !IsDigit(s[m.groupEnd]))
    && forall m': Match :: Matches(p, s, m') ==> m.start <= m'.start
  }

  /** At one position there is only one match whose last digit run is greedy. */
  lemma GreedyUnique(p: Pattern, s: string, m1: Match, m2: Match)
    requires Matches(p, s, m1) && Matches(p, s, m2) && m1.start == m2.start
    requires m1.groupEnd == |s| || !IsDigit(s[m1.groupEnd])
    requires m2.groupEnd == |s| || !IsDigit(s[m2.groupEnd])
    ensures m1 == m2
  {
    match p
    case ContainerId => ContainerIdUnique(s, m1, m2);
    case ParentRef => ParentRefUnique(s, m1, m2);
    case PageRef => PageRefUnique(s, m1, m2);
  }

  lemma ContainerIdUnique(s: string, m1: Match, m2: Match)
    requires Matches(ContainerId, s, m1) && Matches(ContainerId, s, m2) && m1.start == m2.start
    ensures m1 == m2
  {
    var g0 := m1.start + |ContainerPrefix|;
    assert s[m1.groupEnd] == s[m1.groupEnd..m1.groupEnd + 2][0];
    assert s[m2.groupEnd] == s[m2.groupEnd..m2.groupEnd + 2][0];
    DigitRunEndIs(s, g0, m1.groupEnd);
    DigitRunEndIs(s, g0, m2.groupEnd);
  }

  lemma ParentRefUnique(s: string, m1: Match, m2: Match)
    requires Matches(ParentRef, s, m1) && Matches(ParentRef, s, m2) && m1.start == m2.start
    requires m1.groupEnd == |s| || !IsDigit(s[m1.groupEnd])
    requires m2.groupEnd == |s| || !IsDigit(s[m2.groupEnd])
    ensures m1 == m2
  {
    var g0 := m1.start + |ContainerPrefix|;
    DigitRunEndIs(s, g0, m1.groupStart - 1);
    DigitRunEndIs(s, g0, m2.groupStart - 1);
    DigitRunEndIs(s, m1.groupStart, m1.groupEnd);
    DigitRunEndIs(s, m2.groupStart, m2.groupEnd);
  }

  lemma PageRefUnique(s: string, m1: Match, m2: Match)
    requires Matches(PageRef, s, m1) && Matches(PageRef, s, m2) && m1.start == m2.start
    requires m1.groupEnd == |s| || !IsDigit(s[m1.groupEnd])
    requires m2.groupEnd == |s| || !IsDigit(s[m2.groupEnd])
    ensures m1 == m2
  {
    var g0 := m1.start + |PagePrefix|;
    DigitRunEndIs(s, g0, m1.groupEnd);
    DigitRunEndIs(s, g0, m2.groupEnd);
  }

  /** The leftmost search from the start finds the first match. */
  lemma LeftmostIsFirst(p: Pattern, s: string)
    requires Leftmost(p, s, 0).Some?
    ensures IsFirst(p, s, Leftmost(p, s, 0).value)
  {
  }

  /** The first match is the one the leftmost search from the start finds. */
  lemma FirstIsLeftmost(p: Pattern, s: string, m: Match)
    requires IsFirst(p, s, m)
    ensures Leftmost(p, s, 0) == Some(m)
  {
    var r := Leftmost(p, s, 0);
    LeftmostIsFirst(p, s);
    GreedyUnique(p, s, r.value, m);
  }

  /** A search finds the first position where the pattern matches. */
  lemma {:induction false} LeftmostIs(p: Pattern, s: string, from: nat, k: nat)
    requires from <= k <= |s| && MatchAt(p, s, k).Some?
    requires forall j :: from <= j < k ==> MatchAt(p, s, j).None?
    ensures Leftmost(p, s, from) == MatchAt(p, s, k)
  {
    var r := Leftmost(p, s, from);
    assert r.Some?;
    assert !(r.value.start < k);
    assert !(k < r.value.start);
  }

  /** A search with nowhere to match fails. */
  lemma LeftmostNone(p: Pattern, s: string, from: nat)
    requires from <= |s|
    requires forall j :: from <= j <= |s| ==> MatchAt(p, s, j).None?
    ensures Leftmost(p, s, from).None?
  {
  }

  /**
   * Two `comment-page-(\d+)` matches never overlap: the only 'c' a match covers is
   * its first character, since the prefix has no other and the digits none.
   */
  lemma PageRefNoOverlap(s: string, m1: Match, m2: Match)
    requires Matches(PageRef, s, m1) && Matches(PageRef, s, m2) && m1.start < m2.start
    ensures m1.end <= m2.start
  {
    var g := m1.start + |PagePrefix|;
    assert s[m2.start] == s[m2.start..m2.start + |PagePrefix|][0] == 'c';
    forall k | m1.start < k < m1.end ensures s[k] != 'c' {
      if k < g {
        assert s[k] == s[m1.start..g][k - m1.start] == PagePrefix[k - m1.start];
      } else {
        assert s[k] == s[g..m1.end][k - g];
      }
    }
  }

  /** No occurrence of the pattern's first character at `i` means no match at `i`. */
  lemma NoMatchWithoutLead(p: Pattern, s: string, i: nat)
    requires i <= |s|
    requires i < |s| ==> s[i] != (if p == PageRef then 'c' else 'w')
    ensures MatchAt(p, s, i).None?
  {
    var q := Prefix(p);
    if i + |q| <= |s| {
      assert s[i..i + |q|][0] == s[i];
    }
  }
}
