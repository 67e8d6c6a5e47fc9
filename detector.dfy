/**
 * Locating the latest comment page of a listing: every `comment-page-N`
 * reference in the links and clipboard attributes is collected and the largest
 * is taken. The DOM is given as the page's elements in document order.
 */
module Detector {
  import opened Wrappers
  import opened Text
  import opened Regex
  import opened Sequences
  import Parser

  /** An element with its tag test and its `href` and `data-wpd-clipboard` attributes ("" when absent). */
  datatype LinkElement = LinkElement(isAnchor: bool, href: string, clipboard: string)

  /** Selected by `a[href*="comment-page-"], [data-wpd-clipboard*="comment-page-"]`. */
  predicate Selected(e: LinkElement)
  {
    (e.isAnchor && Contains(e.href, PagePrefix)) || Contains(e.clipboard, PagePrefix)
  }

  /** The numbers of the successive `comment-page-(\d+)` matches in `text` from index `from`. */
  function PageRefsFrom(text: string, from: nat): seq<nat>
    requires from <= |text|
    decreases |text| - from
  {
    match Leftmost(PageRef, text, from)
    case None => []
    case Some(m) => [DecimalValue(Captured(text, m))] + PageRefsFrom(text, m.end)
  }

  /**
   * Each number found is read from a match at or after `from`, and none is found
   * exactly when nothing matches there.
   */
  lemma {:induction false} PageRefsFromMatches(text: string, from: nat)
    requires from <= |text|
    ensures PageRefsFrom(text, from) == [] <==> forall m: Match :: from <= m.start ==> !Matches(PageRef, text, m)
    ensures forall r :: r in PageRefsFrom(text, from) ==> exists m: Match ::
      from <= m.start && WellFormed(text, m) && Matches(PageRef, text, m) && r == DecimalValue(Captured(text, m))
    ensures forall m: Match ::
      (from <= m.start && Matches(PageRef, text, m) && WellFormed(text, m)
       && (m.groupEnd == |text| || !IsDigit(text[m.groupEnd])))
      ==> DecimalValue(Captured(text, m)) in PageRefsFrom(text, from)
    decreases |text| - from
  {
    match Leftmost(PageRef, text, from)
    case None =>
    case Some(m) =>
      PageRefsFromMatches(text, m.end);
    forall m: Match | from <= m.start && Matches(PageRef, text, m) && WellFormed(text, m)
      && (m.groupEnd == |text| || !IsDigit(text[m.groupEnd]))
      ensures DecimalValue(Captured(text, m)) in PageRefsFrom(text, from)
    {
      PageRefsFromFinds(text, from, m);
    }
  }

  /** The `exec` loop from `from` collects every greedy match starting there or later. */
  lemma {:induction false} PageRefsFromFinds(text: string, from: nat, m: Match)
    requires from <= m.start && from <= |text| && Matches(PageRef, text, m) && WellFormed(text, m)
    requires m.groupEnd == |text| || !IsDigit(text[m.groupEnd])
    ensures DecimalValue(Captured(text, m)) in PageRefsFrom(text, from)
    decreases |text| - from
  {
    var l := Leftmost(PageRef, text, from);
    assert l.Some?;
    var first := l.value;
    assert first.start <= m.start;
    if first.start == m.start {
      GreedyUnique(PageRef, text, first, m);
    } else {
      PageRefNoOverlap(text, first, m);
      PageRefsFromFinds(text, first.end, m);
    }
  }

  /** The page numbers one element contributes: the matches in its href followed by its clipboard text. */
  function ElementRefs(e: LinkElement): seq<nat>
  {
    if Selected(e) then PageRefsFrom(e.href + e.clipboard, 0) else []
  }

  /** Every page number referenced on the listing, in document order. */
  function AllRefs(elements: seq<LinkElement>): seq<nat>
  {
    FlatMap(ElementRefs, elements)
  }

  /** `Math.max` over a non-empty list. */
  function MaxOf(s: seq<nat>): (m: nat)
    requires |s| > 0
    ensures m in s && forall x :: x in s ==> x <= m
    decreases |s|
  {
    if |s| == 1 then s[0]
    else
      assert s == [s[0]] + s[1..];
      var rest := MaxOf(s[1..]);
      if s[0] >= rest then s[0] else rest
  }

  /** The latest page: the largest reference, or 1 when there is none. */
  function LatestPage(elements: seq<LinkElement>): int
  {
    var refs := AllRefs(elements);
    if refs == [] then 1 else MaxOf(refs)
  }

  /**
   * `detectLatestPageNumber`: for each selected element, runs the global regex's
   * `exec` loop over href + clipboard and pushes every number found.
   */
  method DetectLatestPageNumber(elements: seq<LinkElement>) returns (latest: int)
    ensures latest == LatestPage(elements)
    ensures AllRefs(elements) == [] ==> latest == 1
    ensures AllRefs(elements) != [] ==> latest in AllRefs(elements)
    ensures forall r :: r in AllRefs(elements) ==> r <= latest
  {
    var matches: seq<nat> := [];
    for i := 0 to |elements|
      invariant matches == AllRefs(elements[..i])
    {
      AllRefsSnoc(elements, i);
      var e := elements[i];
      if Selected(e) {
        var text := e.href + e.clipboard;
        var lastIndex := 0;
        while true
          invariant 0 <= lastIndex <= |text|
          invariant matches + PageRefsFrom(text, lastIndex) == AllRefs(elements[..i + 1])
          decreases |text| - lastIndex
        {
          var m := Leftmost(PageRef, text, lastIndex);
          if m.None? {
            break;
          }
          var found := DecimalValue(Captured(text, m.value));
          assert matches + PageRefsFrom(text, lastIndex) == (matches + [found]) + PageRefsFrom(text, m.value.end);
          matches := matches + [found];
          lastIndex := m.value.end;
        }
      }
    }
    assert elements[..|elements|] == elements;
    if |matches| == 0 {
      return 1;
    }
    latest := MaxOf(matches);
  }

  /** The references of the first i + 1 elements are those of the first i, then the i-th's. */
  lemma AllRefsSnoc(elements: seq<LinkElement>, i: nat)
    requires i < |elements|
    ensures AllRefs(elements[..i + 1]) == AllRefs(elements[..i]) + ElementRefs(elements[i])
  {
    assert elements[..i + 1] == elements[..i] + [elements[i]];
    FlatMapAppend(ElementRefs, elements[..i], [elements[i]]);
    AllRefsOfOne(elements[i]);
  }

  /** A number is referenced on the listing exactly when some element references it. */
  lemma AllRefsMembers(elements: seq<LinkElement>, r: nat)
    ensures r in AllRefs(elements) <==> exists k :: 0 <= k < |elements| && r in ElementRefs(elements[k])
  {
    FlatMapMembers(ElementRefs, elements);
  }

  /** Extending a match's digit group to the whole run gives a greedy match worth at least as much. */
  lemma GreedyExtension(text: string, m: Match)
    requires Matches(PageRef, text, m) && WellFormed(text, m)
    ensures var e := DigitRunEnd(text, m.groupStart);
      var g := Match(m.start, m.groupStart, e, e);
      && Matches(PageRef, text, g) && WellFormed(text, g) && (e == |text| || !IsDigit(text[e]))
      && DecimalValue(Captured(text, m)) <= DecimalValue(Captured(text, g))
  {
    var e := DigitRunEnd(text, m.groupStart);
    DigitRunExtends(text, m.groupStart, m.groupEnd);
    assert m.groupEnd <= e && AllDigits(text[m.groupStart..e]);
    SliceValueBelow(text, m.groupStart, m.groupEnd, e);
  }

  /** Within a digit run, a shorter slice from the same start is worth no more. */
  lemma SliceValueBelow(s: string, i: nat, j: nat, e: nat)
    requires i <= j <= e <= |s| && AllDigits(s[i..e]) && AllDigits(s[i..j])
    ensures DecimalValue(s[i..j]) <= DecimalValue(s[i..e])
  {
    assert s[i..j] == s[i..e][..j - i];
    DecimalValuePrefix(s[i..e], j - i);
  }

  /**
   * Every `comment-page-(\d+)` match in a selected element's href and clipboard
   * text, greedy or not, reads a number no larger than the latest page.
   */
  lemma MatchBelowLatest(elements: seq<LinkElement>, k: nat, m: Match)
    requires k < |elements| && Selected(elements[k])
    requires Matches(PageRef, elements[k].href + elements[k].clipboard, m)
    requires WellFormed(elements[k].href + elements[k].clipboard, m)
    ensures DecimalValue(Captured(elements[k].href + elements[k].clipboard, m)) <= LatestPage(elements)
  {
    var text := elements[k].href + elements[k].clipboard;
    var e := DigitRunEnd(text, m.groupStart);
    var g := Match(m.start, m.groupStart, e, e);
    GreedyExtension(text, m);
    PageRefsFromFinds(text, 0, g);
    var r := DecimalValue(Captured(text, g));
    assert r in ElementRefs(elements[k]);
    AllRefsMembers(elements, r);
    assert r in AllRefs(elements);
  }

  /** Every number one listing references is referenced by a listing holding each of its elements. */
  lemma RefsCovered(xs: seq<LinkElement>, ys: seq<LinkElement>)
    requires forall e :: e in xs ==> e in ys
    ensures forall r :: r in AllRefs(xs) ==> r in AllRefs(ys)
  {
    forall r | r in AllRefs(xs) ensures r in AllRefs(ys) {
      AllRefsMembers(xs, r);
      AllRefsMembers(ys, r);
      var k :| 0 <= k < |xs| && r in ElementRefs(xs[k]);
      assert xs[k] in ys;
      var j :| 0 <= j < |ys| && ys[j] == xs[k];
    }
  }

  /** Two lists with the same elements have the same maximum. */
  lemma MaxOfSameElements(s: seq<nat>, t: seq<nat>)
    requires |s| > 0 && |t| > 0
    requires forall x :: x in s <==> x in t
    ensures MaxOf(s) == MaxOf(t)
  {
    var ms, mt := MaxOf(s), MaxOf(t);
    assert ms in t && mt in s;
  }

  /** The result depends only on which elements occur: neither their order nor repeats matter. */
  lemma LatestPageIgnoresOrderAndRepeats(xs: seq<LinkElement>, ys: seq<LinkElement>)
    requires forall e :: e in xs <==> e in ys
    ensures LatestPage(xs) == LatestPage(ys)
  {
    var rx, ry := AllRefs(xs), AllRefs(ys);
    RefsCovered(xs, ys);
    RefsCovered(ys, xs);
    if rx != [] {
      assert rx[0] in ry;
      MaxOfSameElements(rx, ry);
    }
  }

  /** A link whose href is `comment-page-{n}` references exactly page n. */
  lemma LinkRefs(n: nat, e: LinkElement)
    requires e.isAnchor && e.href == PagePrefix + NatToString(n) && e.clipboard == []
    ensures ElementRefs(e) == [n]
  {
    var text := e.href + e.clipboard;
    var p := |PagePrefix|;
    assert text == e.href;
    assert text[0..p] == PagePrefix;
    assert OccursAt(text, PagePrefix, 0);
    assert Contains(e.href, PagePrefix);
    assert AllDigits(text[p..|text|]) by { assert text[p..|text|] == NatToString(n); }
    DigitRunEndIs(text, p, |text|);
    assert MatchAt(PageRef, text, 0) == Some(Match(0, p, |text|, |text|));
    LeftmostIs(PageRef, text, 0, 0);
    assert Captured(text, Match(0, p, |text|, |text|)) == NatToString(n);
    DecimalValueOfNatToString(n);
    assert MatchAt(PageRef, text, |text|).None?;
    assert PageRefsFrom(text, |text|) == [];
  }

  /** A link to `comment-page-{n}` alone makes n the latest page, with no lower clamp (n may be 0). */
  lemma SingleReference(n: nat, e: LinkElement)
    requires e.isAnchor && e.href == PagePrefix + NatToString(n) && e.clipboard == []
    ensures LatestPage([e]) == n
  {
    LinkRefs(n, e);
    LatestOfOne(e, n);
  }

  /** The references of a one-element listing are that element's. */
  lemma AllRefsOfOne(e: LinkElement)
    ensures AllRefs([e]) == ElementRefs(e)
  {
    assert [e][..0] == [];
    assert AllRefs([e]) == FlatMap(ElementRefs, [e][..0]) + ElementRefs(e);
  }

  /** The references of three elements, in order. */
  lemma AllRefsOfThree(a: LinkElement, b: LinkElement, c: LinkElement)
    ensures AllRefs([a, b, c]) == ElementRefs(a) + ElementRefs(b) + ElementRefs(c)
  {
    AllRefsOfOne(a);
    AllRefsOfOne(b);
    AllRefsOfOne(c);
    FlatMapAppend(ElementRefs, [a], [b]);
    assert [a] + [b] == [a, b];
    assert AllRefs([a, b]) == AllRefs([a]) + AllRefs([b]);
    FlatMapAppend(ElementRefs, [a, b], [c]);
    assert [a, b] + [c] == [a, b, c];
    assert AllRefs([a, b, c]) == AllRefs([a, b]) + AllRefs([c]);
  }

  /** Elements referencing x, y and z alone reference x, y and z, in that order. */
  lemma ThreeRefs(x: nat, y: nat, z: nat, a: LinkElement, b: LinkElement, c: LinkElement)
    requires ElementRefs(a) == [x] && ElementRefs(b) == [y] && ElementRefs(c) == [z]
    ensures AllRefs([a, b, c]) == [x, y, z]
  {
    AllRefsOfThree(a, b, c);
  }

  /** Links to pages 3, 5 and 2 give 5. */
  lemma LatestOfThreeLinks(a: LinkElement, b: LinkElement, c: LinkElement)
    requires a == LinkElement(true, PagePrefix + NatToString(3), [])
    requires b == LinkElement(true, PagePrefix + NatToString(5), [])
    requires c == LinkElement(true, PagePrefix + NatToString(2), [])
    ensures LatestPage([a, b, c]) == 5
  {
    LinkRefs(3, a);
    LinkRefs(5, b);
    LinkRefs(2, c);
    ThreeRefs(3, 5, 2, a, b, c);
    var refs: seq<nat> := [3, 5, 2];
    assert LatestPage([a, b, c]) == MaxOf(refs);
    assert refs[1] == 5;
  }

  /**
   * `generatePageUrls`: the single URL `{base}/comment-page-{n}/`, where the
   * base loses one trailing '/'.
   */
  function GeneratePageUrls(baseUrl: string, latestPageNumber: int): (urls: seq<string>)
    ensures |urls| == 1
    ensures StartsWith(urls[0], StripTrailingSlash(baseUrl) + ("/" + PagePrefix))
    ensures EndsWith(urls[0], IntToString(latestPageNumber) + "/")
  {
    var head := StripTrailingSlash(baseUrl) + ("/" + PagePrefix);
    var tail := IntToString(latestPageNumber) + "/";
    Halves(head, tail);
    [head + tail]
  }

  /** Every permalink the parser builds is its page's URL followed by the comment's fragment. */
  lemma PermaLinkExtendsPageUrl(baseUrl: string, pageNumber: int, id: nat)
    ensures Parser.PermaLink(baseUrl, pageNumber, id) == GeneratePageUrls(baseUrl, pageNumber)[0] + "#comment-" + NatToString(id)
  {
    var head := StripTrailingSlash(baseUrl) + ("/" + PagePrefix);
    var i, n := IntToString(pageNumber), NatToString(id);
    assert (i + "/") + "#comment-" + n == i + ("/#comment-" + n);
    assert head + (i + "/") + "#comment-" + n == head + ((i + "/") + "#comment-" + n);
  }

  /** No `comment-page-` match starts inside a base free of that text when a '/' follows it. */
  lemma NoPageRefInBase(b: string, rest: string, k: nat)
    requires !Contains(b, PagePrefix) && |rest| > 0 && rest[0] == '/' && k <= |b|
    ensures MatchAt(PageRef, b + rest, k).None?
  {
    var t := b + rest;
    var q := |PagePrefix|;
    if k + q <= |b| {
      assert !OccursAt(b, PagePrefix, k);
      assert t[..|b|] == b;
      assert t[k..k + q] == t[..|b|][k..k + q];
    } else if k + q <= |t| {
      assert t[k..k + q][|b| - k] == t[|b|] == '/';
    }
  }

  /** The pieces of `{base}/comment-page-{digits}/`. */
  lemma UrlSlices(b: string, d: string)
    ensures var text := b + (("/" + PagePrefix) + (d + "/"));
      var g := |b| + 1 + |PagePrefix|;
      && |text| == g + |d| + 1
      && text[|b| + 1..g] == PagePrefix
      && text[g..g + |d|] == d
      && text[g + |d|] == '/'
  {
    var text := b + (("/" + PagePrefix) + (d + "/"));
    Pieces(b + "/", PagePrefix, d + "/");
    assert text == (b + "/") + PagePrefix + (d + "/");
  }

  /** In `{base}/comment-page-{digits}/` a page reference starts right after the base. */
  lemma PageRefAfterBase(b: string, d: string)
    requires |d| > 0 && AllDigits(d)
    ensures var text := b + (("/" + PagePrefix) + (d + "/"));
      var g := |b| + 1 + |PagePrefix|;
      MatchAt(PageRef, text, |b| + 1) == Some(Match(|b| + 1, g, g + |d|, g + |d|))
  {
    var text := b + (("/" + PagePrefix) + (d + "/"));
    var g := |b| + 1 + |PagePrefix|;
    UrlSlices(b, d);
    DigitRunEndIs(text, g, g + |d|);
  }

  /** In `{base}/comment-page-{digits}/` the first page reference is the one after the base. */
  lemma FirstPageRefOfUrl(b: string, d: string)
    requires !Contains(b, PagePrefix) && |d| > 0 && AllDigits(d)
    ensures var text := b + (("/" + PagePrefix) + (d + "/"));
      var g := |b| + 1 + |PagePrefix|;
      Leftmost(PageRef, text, 0) == Some(Match(|b| + 1, g, g + |d|, g + |d|))
  {
    var rest := ("/" + PagePrefix) + (d + "/");
    var text := b + rest;
    forall k: nat | k < |b| + 1 ensures MatchAt(PageRef, text, k).None? {
      NoPageRefInBase(b, rest, k);
    }
    PageRefAfterBase(b, d);
    LeftmostIs(PageRef, text, 0, |b| + 1);
  }

  /** A text whose last character is a '/' at `end` holds no page reference from `end` on. */
  lemma NothingAfterSlash(text: string, end: nat)
    requires |text| == end + 1 && text[end] == '/'
    ensures PageRefsFrom(text, end) == []
  {
    NoMatchWithoutLead(PageRef, text, end);
    NoMatchWithoutLead(PageRef, text, end + 1);
    LeftmostNone(PageRef, text, end);
  }

  /** A text whose first match is followed by no other yields that match's number alone. */
  lemma RefsOfOneMatch(text: string, m: Match)
    requires Leftmost(PageRef, text, 0) == Some(m) && PageRefsFrom(text, m.end) == []
    ensures PageRefsFrom(text, 0) == [DecimalValue(Captured(text, m))]
  {
  }

  /** `{base}/comment-page-{digits}/` references exactly the page its digits name. */
  lemma PageRefsOfUrl(b: string, d: string)
    requires !Contains(b, PagePrefix) && |d| > 0 && AllDigits(d)
    ensures PageRefsFrom(b + (("/" + PagePrefix) + (d + "/")), 0) == [DecimalValue(d)]
  {
    var text := b + (("/" + PagePrefix) + (d + "/"));
    var g := |b| + 1 + |PagePrefix|;
    var m := Match(|b| + 1, g, g + |d|, g + |d|);
    FirstPageRefOfUrl(b, d);
    UrlSlices(b, d);
    NothingAfterSlash(text, g + |d|);
    RefsOfOneMatch(text, m);
    assert Captured(text, m) == d;
  }

  /** The URL of page n, split where the detector reads it. */
  lemma PageUrlText(baseUrl: string, n: nat)
    ensures GeneratePageUrls(baseUrl, n)[0]
      == StripTrailingSlash(baseUrl) + (("/" + PagePrefix) + (NatToString(n) + "/"))
  {
    var b, x, y := StripTrailingSlash(baseUrl), "/" + PagePrefix, NatToString(n) + "/";
    assert GeneratePageUrls(baseUrl, n)[0] == b + x + y;
    assert b + x + y == b + (x + y);
  }

  /** The detector reads back page n from the link `generatePageUrls` builds for it. */
  lemma PageUrlRefs(baseUrl: string, n: nat, e: LinkElement)
    requires !Contains(StripTrailingSlash(baseUrl), PagePrefix)
    requires e.isAnchor && e.href == GeneratePageUrls(baseUrl, n)[0] && e.clipboard == []
    ensures ElementRefs(e) == [n]
  {
    var b, d := StripTrailingSlash(baseUrl), NatToString(n);
    var text := b + (("/" + PagePrefix) + (d + "/"));
    PageUrlText(baseUrl, n);
    assert e.href + e.clipboard == text;
    PageRefAfterBase(b, d);
    assert OccursAt(text, PagePrefix, |b| + 1);
    assert Selected(e);
    PageRefsOfUrl(b, d);
    assert ElementRefs(e) == PageRefsFrom(text, 0);
    DecimalValueOfNatToString(n);
  }

  /** A listing of one element that references only page n has n as its latest page. */
  lemma LatestOfOne(e: LinkElement, n: nat)
    requires ElementRefs(e) == [n]
    ensures LatestPage([e]) == n
  {
    AllRefsOfOne(e);
  }

  /**
   * Round trip: the detector reads back the page number from the URL
   * `generatePageUrls` builds, when the base URL itself holds no `comment-page-`.
   */
  lemma PageUrlReadBack(baseUrl: string, n: nat, e: LinkElement)
    requires !Contains(StripTrailingSlash(baseUrl), PagePrefix)
    requires e.isAnchor && e.href == GeneratePageUrls(baseUrl, n)[0] && e.clipboard == []
    ensures LatestPage([e]) == n
  {
    PageUrlRefs(baseUrl, n, e);
    LatestOfOne(e, n);
  }
}
