/**
 * Comment extraction from one rendered page. The DOM is given as the page's
 * `div` elements in document order; the string logic on their attributes and
 * texts is modelled as the parser performs it.
 */
module Parser {
  import opened Wrappers
  import opened Text
  import opened Regex
  import opened Types
  import opened Sequences

  /** The author shown when the author element is missing or blank ("anonymous"). */
  const AnonymousAuthor := "匿名"

  /**
   * An element `div#{elementId}` below a container, with the raw text of its
   * first `.wpd-comment-author`, `.wpd-comment-text` and `.wpd-comment-date`
   * descendants ("" when there is none).
   */
  datatype CommentDiv = CommentDiv(elementId: string, authorText: string, contentText: string, dateText: string)

  /**
   * A `div` of the page: its `id` attribute ("" when absent), whether it has the
   * class `wpd-reply`, and the comment divs among its descendants, in document order.
   */
  datatype Container = Container(elementId: string, replyClass: bool, commentDivs: seq<CommentDiv>)

  /** One fetched page: its containers and the page number it was requested as. */
  datatype Page = Page(containers: seq<Container>, pageNumber: int)

  /** Selected by `div[id^="wpd-comm-"]`. */
  predicate Selected(c: Container)
  {
    StartsWith(c.elementId, ContainerPrefix)
  }

  /**
   * The comment id the container id encodes: there is one exactly when
   * `wpd-comm-(\d+)_0` matches somewhere, and it is the decimal value of the
   * digits the first match captures.
   */
  function DecodeCommentId(elementId: string): (r: Option<nat>)
    ensures r.Some? <==> exists m: Match :: Matches(ContainerId, elementId, m)
    ensures r.Some? ==> exists m: Match ::
      IsFirst(ContainerId, elementId, m) && r.value == DecimalValue(Captured(elementId, m))
  {
    match Leftmost(ContainerId, elementId, 0)
    case None => None
    case Some(m) =>
      LeftmostIsFirst(ContainerId, elementId);
      Some(DecimalValue(Captured(elementId, m)))
  }

  /**
   * The parent id of a reply: only containers with class `wpd-reply` have one, and
   * only when the first `wpd-comm-\d+_(\d+)` match captures something other than "0".
   */
  function DecodeParentId(c: Container): (r: Option<int>)
    ensures r.Some? <==> c.replyClass && exists m: Match ::
      IsFirst(ParentRef, c.elementId, m) && Captured(c.elementId, m) != "0"
    ensures r.Some? ==> exists m: Match ::
      IsFirst(ParentRef, c.elementId, m) && r.value == DecimalValue(Captured(c.elementId, m))
  {
    if !c.replyClass then None
    else
      match Leftmost(ParentRef, c.elementId, 0)
      case None => None
      case Some(m) =>
        LeftmostIsFirst(ParentRef, c.elementId);
        assert forall m': Match :: IsFirst(ParentRef, c.elementId, m') ==> m' == m by {
          forall m': Match | IsFirst(ParentRef, c.elementId, m') ensures m' == m {
            FirstIsLeftmost(ParentRef, c.elementId, m');
          }
        }
        var g := Captured(c.elementId, m);
        if g == "0" then None else Some(DecimalValue(g))
  }

  /** `$container.find('div#comment-{id}')`: the first comment div with that element id. */
  function FindCommentDiv(divs: seq<CommentDiv>, elementId: string): (r: Option<CommentDiv>)
    ensures r.Some? ==> exists k :: (0 <= k < |divs| && divs[k] == r.value && r.value.elementId == elementId
      && forall j :: 0 <= j < k ==> divs[j].elementId != elementId)
    ensures r.None? ==> forall k :: 0 <= k < |divs| ==> divs[k].elementId != elementId
    decreases |divs|
  {
    if divs == [] then None
    else if divs[0].elementId == elementId then Some(divs[0])
    else
      var r := FindCommentDiv(divs[1..], elementId);
      assert r.Some? ==> exists k :: (0 <= k < |divs| && divs[k] == r.value
        && forall j :: 0 <= j < k ==> divs[j].elementId != elementId) by {
        if r.Some? {
          var k :| 0 <= k < |divs[1..]| && divs[1..][k] == r.value
            && (forall j :: 0 <= j < k ==> divs[1..][j].elementId != elementId);
          assert divs[k + 1] == r.value;
          assert forall j :: 1 <= j < k + 1 ==> divs[j] == divs[1..][j - 1];
        }
      }
      r
  }

  /** The trimmed author text, or the anonymous marker when it is blank. */
  function AuthorOrDefault(raw: string): (a: string)
    ensures a != []
    ensures !AllSpace(raw) ==> a == Trim(raw)
    ensures AllSpace(raw) ==> a == AnonymousAuthor
  {
    var t := Trim(raw);
    if t == [] then AnonymousAuthor else t
  }

  /**
   * `{baseUrl without one trailing '/'}/comment-page-{page}/#comment-{id}`: the
   * link starts with the base URL and the page path and ends with the fragment
   * naming the comment.
   */
  function PermaLink(baseUrl: string, pageNumber: int, id: nat): (u: string)
    ensures StartsWith(u, StripTrailingSlash(baseUrl) + ("/" + PagePrefix))
    ensures EndsWith(u, "/#comment-" + NatToString(id))
  {
    var head := StripTrailingSlash(baseUrl) + ("/" + PagePrefix);
    var f := "/#comment-" + NatToString(id);
    Framed(head, IntToString(pageNumber), f);
    head + (IntToString(pageNumber) + f)
  }

  /** The element id of the div holding comment `id`. */
  function CommentDivId(id: nat): string
  {
    "comment-" + NatToString(id)
  }

  /**
   * The record one container yields, if any (the body of the `.each` callback):
   * only a selected container whose id decodes yields one, carrying that id and
   * the page number given.
   */
  function ParseContainer(c: Container, pageNumber: int, baseUrl: string): (r: Option<ScrapedComment>)
    ensures !Selected(c) || DecodeCommentId(c.elementId).None? ==> r.None?
    ensures r.Some? ==> Some(r.value.id) == DecodeCommentId(c.elementId) && r.value.pageNumber == pageNumber
  {
    if !Selected(c) then None
    else
      match DecodeCommentId(c.elementId)
      case None => None
      case Some(id) =>
        match FindCommentDiv(c.commentDivs, CommentDivId(id))
        case None => None
        case Some(div) =>
          var content := Trim(div.contentText);
          if content == [] then None
          else
            Some(ScrapedComment(
              id, pageNumber, AuthorOrDefault(div.authorText), content, Trim(div.dateText),
              DecodeParentId(c), PermaLink(baseUrl, pageNumber, id)))
  }

  /**
   * A container yields a record exactly when it is selected, its id matches
   * `wpd-comm-(\d+)_0`, it holds `div#comment-{id}`, and that div's text is not blank.
   */
  lemma ParseContainerAccepts(c: Container, pageNumber: int, baseUrl: string)
    ensures ParseContainer(c, pageNumber, baseUrl).Some? <==>
      && Selected(c)
      && DecodeCommentId(c.elementId).Some?
      && FindCommentDiv(c.commentDivs, CommentDivId(DecodeCommentId(c.elementId).value)).Some?
      && !AllSpace(FindCommentDiv(c.commentDivs, CommentDivId(DecodeCommentId(c.elementId).value)).value.contentText)
  {
  }

  /**
   * The fields of a record: the decoded id and parent, the page number given,
   * trimmed non-blank content, a non-empty author, a trimmed date, the permalink.
   */
  lemma ParseContainerFields(c: Container, pageNumber: int, baseUrl: string)
    requires ParseContainer(c, pageNumber, baseUrl).Some?
    ensures var r := ParseContainer(c, pageNumber, baseUrl).value;
      && Some(r.id) == DecodeCommentId(c.elementId)
      && r.pageNumber == pageNumber
      && r.content != [] && Trim(r.content) == r.content
      && r.author != []
      && Trim(r.timestamp) == r.timestamp
      && r.parentId == DecodeParentId(c)
      && (r.parentId.Some? ==> c.replyClass)
      && r.url == PermaLink(baseUrl, pageNumber, r.id)
      && FindCommentDiv(c.commentDivs, CommentDivId(r.id)).Some?
      && var div := FindCommentDiv(c.commentDivs, CommentDivId(r.id)).value;
         && r.content == Trim(div.contentText)
         && r.author == AuthorOrDefault(div.authorText)
         && r.timestamp == Trim(div.dateText)
  {
    var id := DecodeCommentId(c.elementId).value;
    var div := FindCommentDiv(c.commentDivs, CommentDivId(id)).value;
    TrimIdempotent(div.contentText);
    TrimIdempotent(div.dateText);
  }

  /** Records of a page's containers, in document order, one per accepted container. */
  function ParseAll(cs: seq<Container>, pageNumber: int, baseUrl: string): seq<ScrapedComment>
  {
    FilterMap(c => ParseContainer(c, pageNumber, baseUrl), cs)
  }

  /** Parsing is container by container: the records of xs + ys are those of xs, then those of ys. */
  lemma ParseAllAppend(xs: seq<Container>, ys: seq<Container>, pageNumber: int, baseUrl: string)
    ensures ParseAll(xs + ys, pageNumber, baseUrl) == ParseAll(xs, pageNumber, baseUrl) + ParseAll(ys, pageNumber, baseUrl)
  {
    FilterMapAppend(c => ParseContainer(c, pageNumber, baseUrl), xs, ys);
  }

  /** Every record comes from one container of the page, and every accepted container gives its record. */
  lemma ParseAllMembers(cs: seq<Container>, pageNumber: int, baseUrl: string)
    ensures forall r :: r in ParseAll(cs, pageNumber, baseUrl) ==>
      exists k :: 0 <= k < |cs| && ParseContainer(cs[k], pageNumber, baseUrl) == Some(r)
    ensures forall k :: 0 <= k < |cs| && ParseContainer(cs[k], pageNumber, baseUrl).Some? ==>
      ParseContainer(cs[k], pageNumber, baseUrl).value in ParseAll(cs, pageNumber, baseUrl)
    ensures |ParseAll(cs, pageNumber, baseUrl)| <= |cs|
  {
    FilterMapMembers(c => ParseContainer(c, pageNumber, baseUrl), cs);
  }

  /** No de-duplication: a container that occurs n times yields its record at least n times. */
  lemma ParseAllKeepsRepeats(cs: seq<Container>, c: Container, pageNumber: int, baseUrl: string)
    requires ParseContainer(c, pageNumber, baseUrl).Some?
    ensures multiset(ParseAll(cs, pageNumber, baseUrl))[ParseContainer(c, pageNumber, baseUrl).value] >= multiset(cs)[c]
  {
    FilterMapKeepsRepeats(c => ParseContainer(c, pageNumber, baseUrl), cs, c);
  }

  /** A page whose containers are all accepted yields one record per container, in document order. */
  lemma ParseAllOnePerContainer(cs: seq<Container>, pageNumber: int, baseUrl: string)
    requires forall k :: 0 <= k < |cs| ==> ParseContainer(cs[k], pageNumber, baseUrl).Some?
    ensures |ParseAll(cs, pageNumber, baseUrl)| == |cs|
    ensures forall k :: 0 <= k < |cs| ==> ParseAll(cs, pageNumber, baseUrl)[k] == ParseContainer(cs[k], pageNumber, baseUrl).value
  {
    FilterMapAllAccepted(c => ParseContainer(c, pageNumber, baseUrl), cs);
  }

  /** In `wpd-comm-{n}_0{digits}` the first container-id match is at the start and captures n. */
  lemma CanonicalIdMatch(n: nat, suffix: string, s: string)
    requires AllDigits(suffix)
    requires s == ContainerPrefix + NatToString(n) + "_0" + suffix
    ensures OccursAt(s, ContainerPrefix, 0)
    ensures MatchAt(ContainerId, s, 0) == Some(Match(0, |ContainerPrefix|, |ContainerPrefix| + |NatToString(n)|, |ContainerPrefix| + |NatToString(n)| + 2))
  {
    var d := NatToString(n);
    var p := |ContainerPrefix|;
    var e := p + |d|;
    assert s[0..p] == ContainerPrefix;
    assert s[p..e] == d;
    assert s[e] == '_';
    DigitRunEndIs(s, p, e);
    assert s[e..e + 2] == "_0";
  }

  /** In `wpd-comm-{n}_0{digits}` the first parent match is at the start and captures "0" + digits. */
  lemma CanonicalParentMatch(n: nat, suffix: string, s: string)
    requires AllDigits(suffix)
    requires s == ContainerPrefix + NatToString(n) + "_0" + suffix
    ensures MatchAt(ParentRef, s, 0) == Some(Match(0, |ContainerPrefix| + |NatToString(n)| + 1, |s|, |s|))
    ensures s[|ContainerPrefix| + |NatToString(n)| + 1..] == "0" + suffix
  {
    var d := NatToString(n);
    var p := |ContainerPrefix|;
    var e := p + |d|;
    assert s[0..p] == ContainerPrefix;
    assert s[p..e] == d;
    assert s[e] == '_';
    DigitRunEndIs(s, p, e);
    assert s[e + 1..|s|] == "0" + suffix;
    DigitRunEndIs(s, e + 1, |s|);
  }

  /** A canonical container id `wpd-comm-{n}_0{digits}` decodes to n. */
  lemma CanonicalCommentId(n: nat, suffix: string, s: string)
    requires AllDigits(suffix)
    requires s == ContainerPrefix + NatToString(n) + "_0" + suffix
    ensures DecodeCommentId(s) == Some(n)
  {
    CanonicalIdMatch(n, suffix, s);
    LeftmostIs(ContainerId, s, 0, 0);
    assert Captured(s, MatchAt(ContainerId, s, 0).value) == NatToString(n);
    DecimalValueOfNatToString(n);
  }

  /** A canonical container id `wpd-comm-{n}_0{digits}` names a parent only as a reply with digits after the 0. */
  lemma CanonicalParentId(n: nat, suffix: string, c: Container)
    requires AllDigits(suffix)
    requires c.elementId == ContainerPrefix + NatToString(n) + "_0" + suffix
    ensures DecodeParentId(c) == if c.replyClass && suffix != [] then Some(DecimalValue(suffix)) else None
  {
    var s := c.elementId;
    CanonicalParentMatch(n, suffix, s);
    LeftmostIs(ParentRef, s, 0, 0);
    assert Captured(s, MatchAt(ParentRef, s, 0).value) == "0" + suffix;
    DecimalValueLeadingZero(suffix);
    assert "0" + suffix == "0" <==> suffix == [];
  }

  /** A canonical container id `wpd-comm-{n}_0{digits}` decodes to n, and to a parent only as a reply. */
  lemma CanonicalContainerId(n: nat, suffix: string, c: Container)
    requires AllDigits(suffix)
    requires c.elementId == ContainerPrefix + NatToString(n) + "_0" + suffix
    ensures Selected(c)
    ensures DecodeCommentId(c.elementId) == Some(n)
    ensures DecodeParentId(c) == if c.replyClass && suffix != [] then Some(DecimalValue(suffix)) else None
  {
    CanonicalIdMatch(n, suffix, c.elementId);
    CanonicalCommentId(n, suffix, c.elementId);
    CanonicalParentId(n, suffix, c);
  }

  /** A container id `wpd-comm-{d}_{p}` whose parent part does not start with 0 yields no record. */
  lemma NonZeroParentSkipped(d: string, q: string, c: Container, pageNumber: int, baseUrl: string)
    requires |d| > 0 && AllDigits(d) && |q| > 0 && AllDigits(q) && q[0] != '0'
    requires c.elementId == ContainerPrefix + d + "_" + q
    ensures DecodeCommentId(c.elementId).None?
    ensures ParseContainer(c, pageNumber, baseUrl).None?
  {
    var s := c.elementId;
    var p := |ContainerPrefix|;
    var e := p + |d|;
    assert s[p..e] == d;
    DigitRunEndIs(s, p, e);
    assert s[e + 1] == q[0];
    assert !OccursAt(s, "_0", e) by {
      if e + 2 <= |s| { assert s[e..e + 2][1] == s[e + 1]; }
    }
    assert MatchAt(ContainerId, s, 0).None?;
    forall k | 1 <= k <= |s| ensures MatchAt(ContainerId, s, k).None? {
      if k < |s| {
        if k < p {
          assert s[k] == ContainerPrefix[k];
        } else if k < e {
          assert s[k] == d[k - p];
        } else if k > e {
          assert s[k] == q[k - e - 1];
        }
      }
      NoMatchWithoutLead(ContainerId, s, k);
    }
    LeftmostNone(ContainerId, s, 0);
  }

  /** In `wpd-comm-5_3-wpd-comm-7_0` the two groups hold 7 and 3. */
  lemma SplitCaptures(s: string)
    requires s == ContainerPrefix + "5_3-" + (ContainerPrefix + "7_0")
    ensures DecimalValue(s[22..23]) == 7 && s[11..12] != "0" && DecimalValue(s[11..12]) == 3
  {
    var a, b := ContainerPrefix + "5_3-", ContainerPrefix + "7_0";
    Halves(a, b);
    assert s[22..23] == b[9..10] == "7";
    assert s[11..12] == a[11..12] == "3";
  }

  /** The id is read from the leftmost match. */
  lemma DecodesFromLeftmost(s: string, m: Match)
    requires Leftmost(ContainerId, s, 0) == Some(m)
    ensures DecodeCommentId(s) == Some(DecimalValue(Captured(s, m)))
  {
  }

  /** On a reply, a leftmost parent match capturing other than "0" gives the parent. */
  lemma ParentFromLeftmost(c: Container, m: Match)
    requires c.replyClass && Leftmost(ParentRef, c.elementId, 0) == Some(m)
    requires Captured(c.elementId, m) != "0"
    ensures DecodeParentId(c) == Some(DecimalValue(Captured(c.elementId, m)))
  {
  }

  /** In `wpd-comm-5_3-wpd-comm-7_0` the first `wpd-comm-(\d+)_0` match is the second part. */
  lemma SplitIdMatch(s: string)
    requires s == ContainerPrefix + "5_3-" + (ContainerPrefix + "7_0")
    ensures Leftmost(ContainerId, s, 0) == Some(Match(13, 22, 23, 25))
  {
    var a, b := ContainerPrefix + "5_3-", ContainerPrefix + "7_0";
    Halves(a, b);
    assert s[..13] == a && s[13..] == b;
    Halves(ContainerPrefix, "5_3-");
    assert s[9..13] == a[9..] == "5_3-";
    DigitRunEndIs(s, 9, 10);
    assert !OccursAt(s, "_0", 10) by { assert s[11] == '3'; }
    forall j | 1 <= j < 13 ensures MatchAt(ContainerId, s, j).None? {
      assert s[j] == a[j];
      NoMatchWithoutLead(ContainerId, s, j);
    }
    Halves(ContainerPrefix, "7_0");
    assert s[13..22] == b[..9] == ContainerPrefix;
    assert s[22..] == b[9..] == "7_0";
    DigitRunEndIs(s, 22, 23);
    assert s[23..25] == "_0";
    LeftmostIs(ContainerId, s, 0, 13);
  }

  /** In `wpd-comm-5_3-wpd-comm-7_0` the first `wpd-comm-\d+_(\d+)` match is the first part. */
  lemma SplitParentMatch(s: string)
    requires s == ContainerPrefix + "5_3-" + (ContainerPrefix + "7_0")
    ensures Leftmost(ParentRef, s, 0) == Some(Match(0, 11, 12, 12))
  {
    Pieces(ContainerPrefix, "5_3-", ContainerPrefix + "7_0");
    DigitRunEndIs(s, 9, 10);
    DigitRunEndIs(s, 11, 12);
    LeftmostIs(ParentRef, s, 0, 0);
  }

  /**
   * The two searches need not read the same part of a container id: in
   * `wpd-comm-5_3-wpd-comm-7_0` the id comes from the second part and the parent
   * from the first.
   */
  lemma SplitContainerId(c: Container)
    requires c.elementId == "wpd-comm-5_3-wpd-comm-7_0" && c.replyClass
    ensures DecodeCommentId(c.elementId) == Some(7)
    ensures DecodeParentId(c) == Some(3)
  {
    var s := c.elementId;
    var a, b := ContainerPrefix + "5_3-", ContainerPrefix + "7_0";
    assert s == a + b;
    SplitIdMatch(s);
    SplitParentMatch(s);
    SplitCaptures(s);
    DecodesFromLeftmost(s, Match(13, 22, 23, 25));
    ParentFromLeftmost(c, Match(0, 11, 12, 12));
  }

  /**
   * `parseComments`: walks the containers in document order and pushes the
   * record of each accepted one.
   */
  method ParseComments(containers: seq<Container>, pageNumber: int, baseUrl: string) returns (comments: seq<ScrapedComment>)
    ensures comments == ParseAll(containers, pageNumber, baseUrl)
  {
    comments := [];
    var i := 0;
    while i < |containers|
      invariant 0 <= i <= |containers|
      invariant comments == ParseAll(containers[..i], pageNumber, baseUrl)
    {
      assert containers[..i + 1][..i] == containers[..i];
      var r := ParseContainer(containers[i], pageNumber, baseUrl);
      if r.Some? {
        comments := comments + [r.value];
      }
      i := i + 1;
    }
    assert containers[..i] == containers;
  }

  /** The records of several pages, page after page. */
  function ParseMany(pages: seq<Page>, baseUrl: string): seq<ScrapedComment>
  {
    FlatMap((p: Page) => ParseAll(p.containers, p.pageNumber, baseUrl), pages)
  }

  /** Pages are parsed independently: the records of ps + qs are those of ps, then those of qs. */
  lemma ParseManyAppend(ps: seq<Page>, qs: seq<Page>, baseUrl: string)
    ensures ParseMany(ps + qs, baseUrl) == ParseMany(ps, baseUrl) + ParseMany(qs, baseUrl)
  {
    FlatMapAppend((p: Page) => ParseAll(p.containers, p.pageNumber, baseUrl), ps, qs);
  }

  /** `parseMultiplePages`: parses each page in turn and appends its records. */
  method ParseMultiplePages(pages: seq<Page>, baseUrl: string) returns (all: seq<ScrapedComment>)
    ensures all == ParseMany(pages, baseUrl)
  {
    all := [];
    var i := 0;
    while i < |pages|
      invariant 0 <= i <= |pages|
      invariant all == ParseMany(pages[..i], baseUrl)
    {
      assert pages[..i + 1][..i] == pages[..i];
      var comments := ParseComments(pages[i].containers, pages[i].pageNumber, baseUrl);
      all := all + comments;
      i := i + 1;
    }
    assert pages[..i] == pages;
  }
}
