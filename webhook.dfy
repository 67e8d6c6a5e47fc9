/**
 * Discord notifications: one embed per comment, posted to the webhook with a
 * linear back-off retry, and a batch sender that reports how many succeeded.
 * The webhook's answers are given as an oracle indexed by attempt.
 */
module Webhook {
  import opened Wrappers
  import opened Text
  import opened Types
  import opened Retry

  const NewCommentColor := 0x5865F2
  const ReplyColor := 0x57F287
  const DescriptionLimit := 300
  const NotificationRetries := 2
  const BackoffStep := 2000
  const NewCommentTitle := "🆕 新規コメント"
  const ReplyTitle := "💬 返信コメント"
  const AuthorFieldName := "👤 投稿者"
  const TimeFieldName := "🕐 投稿時刻"
  const ParentFieldName := "↩️ 返信先"
  const ParentLabel := "コメントID: "
  const FailurePrefix := "Failed to send Discord notification: "

  /**
   * `truncate`: text longer than `maxLength` is cut to `maxLength - 3` characters
   * (none when that is negative, as `substring` clamps) followed by "...".
   */
  function Truncate(text: string, maxLength: int): (r: string)
    ensures |text| <= maxLength ==> r == text
    ensures |text| > maxLength ==> |r| == (if maxLength >= 3 then maxLength else 3)
    ensures |text| > maxLength ==> r[..|r| - 3] == text[..|r| - 3] && r[|r| - 3..] == "..."
    ensures maxLength >= 3 ==> |r| <= maxLength
  {
    if |text| <= maxLength then text
    else
      var keep := if maxLength - 3 < 0 then 0 else maxLength - 3;
      var r := text[..keep] + "...";
      assert r[..keep] == text[..keep];
      r
  }

  /** Truncating twice is truncating once, for every limit. */
  lemma TruncateIdempotent(text: string, maxLength: int)
    ensures Truncate(Truncate(text, maxLength), maxLength) == Truncate(text, maxLength)
  {
    var r := Truncate(text, maxLength);
    if |text| <= maxLength {
      assert r == text;
    } else if maxLength >= 3 {
      assert |r| <= maxLength;
    } else {
      assert |r| == 3;
      assert r == "..." by {
        assert r[|r| - 3..] == "...";
        assert r[|r| - 3..] == r;
      }
      assert |r| > maxLength;
      var rr := Truncate(r, maxLength);
      assert |rr| == 3;
      assert rr == "..." by {
        assert rr[|rr| - 3..] == "...";
        assert rr[|rr| - 3..] == rr;
      }
    }
  }

  /** `createCommentEmbed`; `dispatchedAt` is the ISO time `new Date()` gives at that moment. */
  function CreateCommentEmbed(comment: ScrapedComment, dispatchedAt: string): (e: Embed)
    ensures e.title == ReplyTitle <==> comment.parentId.Some?
    ensures e.color == ReplyColor <==> comment.parentId.Some?
    ensures comment.parentId.None? ==> e.title == NewCommentTitle && e.color == NewCommentColor
    ensures e.description == Truncate(comment.content, DescriptionLimit)
    ensures |e.description| <= DescriptionLimit
    ensures |comment.content| <= DescriptionLimit ==> e.description == comment.content
    ensures |e.fields| == if comment.parentId.Some? && comment.parentId.value != 0 then 3 else 2
    ensures e.fields[..2] == [EmbedField(AuthorFieldName, comment.author, true), EmbedField(TimeFieldName, comment.timestamp, true)]
    ensures e.url == comment.url && e.timestamp == dispatchedAt
  {
    var isReply := comment.parentId.Some?;
    var base := [EmbedField(AuthorFieldName, comment.author, true), EmbedField(TimeFieldName, comment.timestamp, true)];
    var fields :=
      if isReply && comment.parentId.value != 0
      then base + [EmbedField(ParentFieldName, ParentLabel + IntToString(comment.parentId.value), false)]
      else base;
    Embed(
      if isReply then ReplyTitle else NewCommentTitle,
      Truncate(comment.content, DescriptionLimit),
      if isReply then ReplyColor else NewCommentColor,
      fields,
      comment.url,
      dispatchedAt)
  }

  /** The reply field names the parent: reading its number back gives the parent id. */
  lemma EmbedNamesParent(comment: ScrapedComment, dispatchedAt: string)
    requires comment.parentId.Some? && comment.parentId.value != 0
    ensures var f := CreateCommentEmbed(comment, dispatchedAt).fields[2];
      f.name == ParentFieldName && !f.inline &&
      |f.value| > |ParentLabel| && f.value[..|ParentLabel|] == ParentLabel &&
      ParseInt(f.value[|ParentLabel|..]) == Some(comment.parentId.value)
  {
    var p := comment.parentId.value;
    var v := ParentLabel + IntToString(p);
    assert v[|ParentLabel|..] == IntToString(p);
    assert v[..|ParentLabel|] == ParentLabel;
    ParseIntOfIntToString(p);
  }

  /** The body posted for one comment: a single embed. */
  function NotificationPayload(comment: ScrapedComment, dispatchedAt: string): (p: WebhookPayload)
    ensures |p.embeds| == 1 && p.embeds[0] == CreateCommentEmbed(comment, dispatchedAt)
  {
    WebhookPayload([CreateCommentEmbed(comment, dispatchedAt)])
  }

  /** The webhook's answer to one POST. */
  datatype PostOutcome = Delivered | Rejected(message: string)

  /** How a notification's promise settles, as `Promise.allSettled` reports it. */
  datatype Settled = Fulfilled | Failed(reason: string)

  /** One POST request: the webhook URL and the JSON body. */
  datatype WebhookRequest = WebhookRequest(url: string, payload: WebhookPayload)

  /** Whether attempt `a` of a notification is accepted, given the webhook's answers. */
  function Accepted(respond: nat -> PostOutcome): (ok: nat -> bool)
    ensures forall a: nat :: ok(a) <==> respond(a).Delivered?
  {
    (a: nat) => respond(a).Delivered?
  }

  /**
   * How `sendNotification` settles: it resolves once an attempt is delivered (or at
   * once when `retries <= 0`), and rejects with the last attempt's message when all fail.
   */
  function NotificationOutcome(retries: int, respond: nat -> PostOutcome): (s: Settled)
    ensures s.Fulfilled? <==> retries <= 0 || exists a :: 1 <= a <= retries && respond(a).Delivered?
    ensures s.Failed? ==> s.reason == FailurePrefix + respond(retries).message
  {
    if retries <= 0 then Fulfilled
    else
      match FirstSuccess(Accepted(respond), retries)
      case Some(a) => Fulfilled
      case None => Failed(FailurePrefix + respond(retries).message)
  }

  /**
   * `sendNotification`: posts the comment's payload to the webhook until one attempt
   * is delivered, waiting `attempt * 2000` ms after each failed attempt but the last.
   */
  method SendNotification(webhookUrl: string, comment: ScrapedComment, retries: int,
                          respond: nat -> PostOutcome, dispatchedAt: string)
    returns (settled: Settled, requests: seq<WebhookRequest>, delays: seq<nat>)
    ensures settled == NotificationOutcome(retries, respond)
    ensures |requests| == AttemptsMade(Accepted(respond), retries)
    ensures forall r :: r in requests ==> r == WebhookRequest(webhookUrl, NotificationPayload(comment, dispatchedAt))
    ensures |delays| == Waits(Accepted(respond), retries)
    ensures forall k :: 0 <= k < |delays| ==> delays[k] == (k + 1) * BackoffStep
  {
    var request := WebhookRequest(webhookUrl, NotificationPayload(comment, dispatchedAt));
    ghost var ok := Accepted(respond);
    settled, requests, delays := Fulfilled, [], [];
    var attempt := 1;
    while attempt <= retries
      invariant 1 <= attempt <= (if retries >= 1 then retries else 1)
      invariant forall a :: 1 <= a < attempt ==> !respond(a).Delivered?
      invariant |requests| == attempt - 1 && forall r :: r in requests ==> r == request
      invariant |delays| == attempt - 1 && forall k :: 0 <= k < |delays| ==> delays[k] == (k + 1) * BackoffStep
    {
      requests := requests + [request];
      if respond(attempt).Delivered? {
        assert ok(attempt);
        assert FirstSuccess(ok, retries) == Some(attempt);
        return;
      }
      if attempt == retries {
        assert forall a :: 1 <= a <= retries ==> !ok(a);
        assert FirstSuccess(ok, retries) == None;
        settled := Failed(FailurePrefix + respond(attempt).message);
        return;
      }
      delays := delays + [attempt * BackoffStep];
      attempt := attempt + 1;
    }
  }

  /** How many settled results are fulfilled: the number of positions holding `Fulfilled`. */
  function CountFulfilled(results: seq<Settled>): (n: nat)
    ensures n == |set i | 0 <= i < |results| && results[i].Fulfilled?|
  {
    if results == [] then 0
    else
      var init, k := results[..|results| - 1], |results| - 1;
      assert (set i | 0 <= i < |results| && results[i].Fulfilled?)
        == (set i | 0 <= i < |init| && init[i].Fulfilled?) + (if results[k].Fulfilled? then {k} else {});
      CountFulfilled(init) + (if results[k].Fulfilled? then 1 else 0)
  }

  /** How many settled results are rejected: the number of positions holding `Failed`. */
  function CountFailed(results: seq<Settled>): (n: nat)
    ensures n == |set i | 0 <= i < |results| && results[i].Failed?|
  {
    if results == [] then 0
    else
      var init, k := results[..|results| - 1], |results| - 1;
      assert (set i | 0 <= i < |results| && results[i].Failed?)
        == (set i | 0 <= i < |init| && init[i].Failed?) + (if results[k].Failed? then {k} else {});
      CountFailed(init) + (if results[k].Failed? then 1 else 0)
  }

  /** The outcomes of a batch of `count` notifications, the i-th answered by `respond(i)`. */
  function BatchOutcomes(count: nat, respond: nat -> nat -> PostOutcome): (results: seq<Settled>)
    ensures |results| == count
    ensures forall i :: 0 <= i < count ==> results[i] == NotificationOutcome(NotificationRetries, respond(i))
  {
    seq(count, (i: int) requires 0 <= i => NotificationOutcome(NotificationRetries, respond(i)))
  }

  /** Every result is counted exactly once: successes and failures add up to the batch size. */
  lemma {:induction false} CountsPartition(results: seq<Settled>)
    ensures CountFulfilled(results) + CountFailed(results) == |results|
  {
    if results != [] {
      CountsPartition(results[..|results| - 1]);
    }
  }

  /**
   * `requests` are what `sendNotification` posts for `comment` with 2 attempts:
   * the comment's payload, to `webhookUrl`, once per attempt made.
   */
  predicate PostsOf(requests: seq<WebhookRequest>, webhookUrl: string, comment: ScrapedComment,
                    respond: nat -> PostOutcome, dispatchedAt: string)
  {
    && |requests| == AttemptsMade(Accepted(respond), NotificationRetries)
    && forall r :: r in requests ==> r == WebhookRequest(webhookUrl, NotificationPayload(comment, dispatchedAt))
  }

  /** `delays` are the waits of `sendNotification` with 2 attempts: 2000·k ms after the k-th failed attempt but the last. */
  predicate DelaysOf(delays: seq<nat>, respond: nat -> PostOutcome)
  {
    && |delays| == Waits(Accepted(respond), NotificationRetries)
    && forall k :: 0 <= k < |delays| ==> delays[k] == (k + 1) * BackoffStep
  }

  /**
   * With 2 attempts a comment is posted once when the first attempt is delivered and
   * twice otherwise, always with its own payload; the loop waits 2000 ms only in the
   * second case.
   */
  lemma PostedOnceOrTwice(requests: seq<WebhookRequest>, delays: seq<nat>, webhookUrl: string,
                          comment: ScrapedComment, respond: nat -> PostOutcome, dispatchedAt: string)
    requires PostsOf(requests, webhookUrl, comment, respond, dispatchedAt) && DelaysOf(delays, respond)
    ensures |requests| == if respond(1).Delivered? then 1 else 2
    ensures requests[0] == WebhookRequest(webhookUrl, NotificationPayload(comment, dispatchedAt))
    ensures delays == if respond(1).Delivered? then [] else [BackoffStep]
  {
    var ok := Accepted(respond);
    if respond(1).Delivered? {
      assert ok(1);
      assert FirstSuccess(ok, NotificationRetries) == Some(1);
    } else {
      assert !ok(1);
      assert |requests| != 1;
    }
    assert requests[0] in requests;
  }

  /**
   * `sendNotifications`: every comment is sent with 2 attempts, independently of the
   * others (`respond(i)` answers the requests for comments[i]), and the outcomes are
   * counted; a failure never propagates to the caller. `requests[i]` and `delays[i]`
   * are what the send of comments[i] posts and waits.
   */
  method SendNotifications(webhookUrl: string, comments: seq<ScrapedComment>,
                           respond: nat -> nat -> PostOutcome, dispatchedAt: string)
    returns (results: seq<Settled>, succeeded: nat, failed: nat,
             requests: seq<seq<WebhookRequest>>, delays: seq<seq<nat>>)
    ensures results == BatchOutcomes(|comments|, respond)
    ensures succeeded == CountFulfilled(results) && failed == CountFailed(results)
    ensures succeeded + failed == |comments|
    ensures |requests| == |delays| == |comments|
    ensures forall i :: 0 <= i < |comments| ==>
      PostsOf(requests[i], webhookUrl, comments[i], respond(i), dispatchedAt) && DelaysOf(delays[i], respond(i))
  {
    results, requests, delays := [], [], [];
    if |comments| == 0 {
      return results, 0, 0, requests, delays;
    }
    for i := 0 to |comments|
      invariant |results| == |requests| == |delays| == i
      invariant forall j :: 0 <= j < i ==> results[j] == NotificationOutcome(NotificationRetries, respond(j))
      invariant forall j :: 0 <= j < i ==>
        PostsOf(requests[j], webhookUrl, comments[j], respond(j), dispatchedAt) && DelaysOf(delays[j], respond(j))
    {
      var settled, posted, waited := SendNotification(webhookUrl, comments[i], NotificationRetries, respond(i), dispatchedAt);
      results, requests, delays := results + [settled], requests + [posted], delays + [waited];
    }
    succeeded, failed := CountFulfilled(results), CountFailed(results);
    CountsPartition(results);
  }
}
