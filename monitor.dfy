/**
 * One monitoring cycle: load the configuration, scrape, keep the comments whose
 * id is not stored, store them in one transaction, then notify them. Every
 * failure ends the cycle with a report; none propagates. The scrape and the
 * webhook's answers are inputs.
 */
module Monitor {
  import opened Wrappers
  import opened Types
  import opened Repository
  import opened Configuration
  import Webhook

  /** Where a cycle stops, as decided by the configuration, the scrape and the table. */
  datatype Stage =
    | ConfigRejected(error: ConfigError)
    | ScrapeThrew(message: string)
    | NothingScraped
    | StoreRefused(unseen: seq<ScrapedComment>)
    | Stored(config: Config, scraped: seq<ScrapedComment>, unseen: seq<ScrapedComment>)

  /**
   * The values a cycle's log lines carry, as data: the failing step, or the
   * scraped, new and total counts `monitorComments` logs together with the
   * success and failure counts `sendNotifications` logs.
   */
  datatype Report =
    | ConfigFailed(error: ConfigError)
    | ScrapeFailed(message: string)
    | SkippedEmptyScrape
    | StoreFailed(key: int)
    | Completed(scraped: nat, unseen: nat, succeeded: nat, failed: nat, total: nat)

  /** The decisions of a cycle over table `rows`; `scrape(u)` is what scraping URL u gives. */
  function Cycle(rows: map<int, StoredComment>, env: map<string, string>,
                 scrape: string -> Result<seq<ScrapedComment>, string>): Stage
  {
    match LoadConfig(env)
    case Err(e) => ConfigRejected(e)
    case Ok(config) =>
      match scrape(config.targetUrl)
      case Err(m) => ScrapeThrew(m)
      case Ok(xs) =>
        if xs == [] then NothingScraped
        else
          var unseen := NewComments(rows, xs);
          if BatchOk(rows, unseen) then Stored(config, xs, unseen) else StoreRefused(unseen)
  }

  /** The comments a cycle sends to the webhook. */
  function Notified(rows: map<int, StoredComment>, env: map<string, string>,
                    scrape: string -> Result<seq<ScrapedComment>, string>): seq<ScrapedComment>
  {
    var stage := Cycle(rows, env, scrape);
    if stage.Stored? then stage.unseen else []
  }

  /** The table after a cycle whose rows are stamped `at`. */
  function After(rows: map<int, StoredComment>, env: map<string, string>,
                 scrape: string -> Result<seq<ScrapedComment>, string>, at: int): map<int, StoredComment>
  {
    var stage := Cycle(rows, env, scrape);
    if stage.Stored? then InsertAll(rows, stage.unseen, at) else rows
  }

  /** The URL scraped under `env`, when its configuration loads. */
  function ScrapeResult(env: map<string, string>, scrape: string -> Result<seq<ScrapedComment>, string>)
    : Option<seq<ScrapedComment>>
  {
    match LoadConfig(env)
    case Err(_) => None
    case Ok(config) => if scrape(config.targetUrl).Ok? then Some(scrape(config.targetUrl).value) else None
  }

  /**
   * Only unseen comments are notified, and all of them: a comment is notified
   * exactly when the cycle stores and it was scraped with an id not yet stored.
   */
  lemma NotifiesExactlyUnseen(rows: map<int, StoredComment>, env: map<string, string>,
                              scrape: string -> Result<seq<ScrapedComment>, string>, x: ScrapedComment)
    ensures x in Notified(rows, env, scrape) <==>
      Cycle(rows, env, scrape).Stored? && x in Cycle(rows, env, scrape).scraped && x.id !in rows
    ensures Cycle(rows, env, scrape).Stored? ==> Some(Cycle(rows, env, scrape).scraped) == ScrapeResult(env, scrape)
  {
    var stage := Cycle(rows, env, scrape);
    if stage.Stored? {
      NewCommentsMembers(rows, stage.scraped);
    }
  }

  /** Every notified comment is stored by the same cycle, stamped with the cycle's time. */
  lemma NotifiedAreStored(rows: map<int, StoredComment>, env: map<string, string>,
                          scrape: string -> Result<seq<ScrapedComment>, string>, at: int)
    ensures forall x :: x in Notified(rows, env, scrape) ==>
      x.id in After(rows, env, scrape, at) && After(rows, env, scrape, at)[x.id] == Stamp(x, at)
    ensures forall id :: id in rows ==> id in After(rows, env, scrape, at) && After(rows, env, scrape, at)[id] == rows[id]
  {
    var stage := Cycle(rows, env, scrape);
    if stage.Stored? {
      InsertAllContents(rows, stage.unseen, at);
    }
  }

  /**
   * The stages of a cycle: it stops at the configuration exactly when that fails
   * to load; it stores only a non-empty scrape of a loaded configuration, and then
   * exactly that scrape's comments with unstored ids; a refused store is a batch
   * the table rejects.
   */
  lemma CycleStages(rows: map<int, StoredComment>, env: map<string, string>,
                    scrape: string -> Result<seq<ScrapedComment>, string>)
    ensures var s := Cycle(rows, env, scrape);
      && (s.ConfigRejected? <==> LoadConfig(env).Err?)
      && (s.Stored? ==> LoadConfig(env) == Ok(s.config) && scrape(s.config.targetUrl) == Ok(s.scraped))
      && (s.Stored? ==> s.scraped != [] && s.unseen == NewComments(rows, s.scraped) && BatchOk(rows, s.unseen))
      && (s.StoreRefused? ==> s.unseen == NewComments(rows, ScrapeResult(env, scrape).value) && !BatchOk(rows, s.unseen))
  {
  }

  /** A cycle that stores had its configuration load and a non-empty scrape, and stores that scrape's new comments. */
  lemma StoredCycle(rows: map<int, StoredComment>, env: map<string, string>,
                    scrape: string -> Result<seq<ScrapedComment>, string>)
    requires Cycle(rows, env, scrape).Stored?
    ensures var stage := Cycle(rows, env, scrape);
      LoadConfig(env) == Ok(stage.config) && scrape(stage.config.targetUrl) == Ok(stage.scraped) &&
      stage.scraped != [] && stage.unseen == NewComments(rows, stage.scraped)
  {
  }

  /** With the configuration and the scrape fixed, the table decides the stage. */
  lemma CycleOver(rows: map<int, StoredComment>, env: map<string, string>,
                  scrape: string -> Result<seq<ScrapedComment>, string>, config: Config, xs: seq<ScrapedComment>)
    requires LoadConfig(env) == Ok(config) && scrape(config.targetUrl) == Ok(xs) && xs != []
    ensures Cycle(rows, env, scrape) ==
      if BatchOk(rows, NewComments(rows, xs)) then Stored(config, xs, NewComments(rows, xs))
      else StoreRefused(NewComments(rows, xs))
  {
  }

  /** After a cycle that stores, the same configuration and scrape find nothing new. */
  lemma StoredThenNothingNew(rows: map<int, StoredComment>, env: map<string, string>,
                             scrape: string -> Result<seq<ScrapedComment>, string>, at: int)
    requires Cycle(rows, env, scrape).Stored?
    ensures var stage := Cycle(rows, env, scrape);
      Cycle(InsertAll(rows, stage.unseen, at), env, scrape) == Stored(stage.config, stage.scraped, [])
  {
    var stage := Cycle(rows, env, scrape);
    StoredCycle(rows, env, scrape);
    var table := InsertAll(rows, stage.unseen, at);
    NothingNewAfterStoringNew(rows, stage.scraped, at);
    assert NewComments(table, stage.scraped) == [];
    assert BatchOk(table, []);
    CycleOver(table, env, scrape, stage.config, stage.scraped);
  }

  /** Running a cycle again on the same scrape notifies nothing and leaves the table as it is. */
  lemma RerunIsQuiet(rows: map<int, StoredComment>, env: map<string, string>,
                     scrape: string -> Result<seq<ScrapedComment>, string>, at: int, later: int)
    ensures Notified(After(rows, env, scrape, at), env, scrape) == []
    ensures After(After(rows, env, scrape, at), env, scrape, later) == After(rows, env, scrape, at)
  {
    if Cycle(rows, env, scrape).Stored? {
      StoredThenNothingNew(rows, env, scrape, at);
    }
  }

  /**
   * After a cycle that stored scrape s1, a cycle on any scrape s2 notifies exactly
   * the comments of s2 whose id was neither stored before nor scraped in s1.
   */
  lemma LaterCycleNotifiesOnlyUnstored(rows: map<int, StoredComment>, env: map<string, string>,
                                       s1: string -> Result<seq<ScrapedComment>, string>,
                                       s2: string -> Result<seq<ScrapedComment>, string>,
                                       at: int, x: ScrapedComment)
    requires Cycle(rows, env, s1).Stored?
    ensures x in Notified(After(rows, env, s1, at), env, s2) <==>
      Cycle(After(rows, env, s1, at), env, s2).Stored? && x in Cycle(After(rows, env, s1, at), env, s2).scraped &&
      x.id !in rows && x.id !in Ids(Cycle(rows, env, s1).scraped)
  {
    var first := Cycle(rows, env, s1);
    var table := After(rows, env, s1, at);
    var second := Cycle(table, env, s2);
    if second.Stored? {
      NewAfterStoringNew(rows, first.scraped, second.scraped, at, x);
    }
  }

  /**
   * A scrape that holds one unstored id twice makes the store fail: nothing is
   * stored or notified, so every later cycle on that scrape fails the same way.
   */
  lemma RepeatedIdBlocksCycle(rows: map<int, StoredComment>, env: map<string, string>,
                              scrape: string -> Result<seq<ScrapedComment>, string>,
                              xs: seq<ScrapedComment>, i: nat, j: nat, at: int)
    requires ScrapeResult(env, scrape) == Some(xs)
    requires i < j < |xs| && xs[i].id == xs[j].id && xs[i].id !in rows
    ensures Cycle(rows, env, scrape).StoreRefused?
    ensures Notified(rows, env, scrape) == [] && After(rows, env, scrape, at) == rows
  {
    RepeatedIdIsRefused(rows, xs, i, j);
  }

  /**
   * `monitorComments`: runs one cycle over the ledger. `respond(i)` answers the
   * webhook requests for the i-th notified comment; `dispatchedAt` is the time the
   * embeds carry. `posted[i]` holds the requests sent for the i-th notified comment.
   */
  method MonitorComments(ledger: Ledger, env: map<string, string>,
                         scrape: string -> Result<seq<ScrapedComment>, string>,
                         respond: nat -> nat -> Webhook.PostOutcome, dispatchedAt: string)
    returns (report: Report, notified: seq<ScrapedComment>, posted: seq<seq<Webhook.WebhookRequest>>)
    requires ledger.Valid()
    modifies ledger`rows, ledger`order
    ensures ledger.Valid()
    ensures notified == Notified(old(ledger.rows), env, scrape)
    ensures ledger.rows == After(old(ledger.rows), env, scrape, ledger.now)
    ensures ledger.order == old(ledger.order) + Ids(notified)
    ensures |posted| == |notified|
    ensures Cycle(old(ledger.rows), env, scrape).Stored? ==>
      LoadConfig(env).Ok? &&
      forall i :: 0 <= i < |notified| ==>
        Webhook.PostsOf(posted[i], LoadConfig(env).value.discordWebhookUrl, notified[i], respond(i), dispatchedAt)
    ensures !Cycle(old(ledger.rows), env, scrape).Stored? ==> posted == []
    ensures Cycle(old(ledger.rows), env, scrape).ConfigRejected? ==>
      report == ConfigFailed(Cycle(old(ledger.rows), env, scrape).error)
    ensures Cycle(old(ledger.rows), env, scrape).ScrapeThrew? ==>
      report == ScrapeFailed(Cycle(old(ledger.rows), env, scrape).message)
    ensures Cycle(old(ledger.rows), env, scrape).NothingScraped? ==> report == SkippedEmptyScrape
    ensures Cycle(old(ledger.rows), env, scrape).StoreRefused? ==>
      report.StoreFailed? && report.key in Ids(Cycle(old(ledger.rows), env, scrape).unseen)
    ensures Cycle(old(ledger.rows), env, scrape).Stored? ==>
      report.Completed? &&
      report.scraped == |Cycle(old(ledger.rows), env, scrape).scraped| &&
      report.unseen == |notified| &&
      report.succeeded == Webhook.CountFulfilled(Webhook.BatchOutcomes(|notified|, respond)) &&
      report.failed == Webhook.CountFailed(Webhook.BatchOutcomes(|notified|, respond)) &&
      report.succeeded + report.failed == |notified| &&
      report.total == |ledger.rows|
  {
    notified, posted := [], [];
    var loaded := LoadConfig(env);
    if loaded.Err? {
      return ConfigFailed(loaded.error), notified, posted;
    }
    var config := loaded.value;
    var scraped := scrape(config.targetUrl);
    if scraped.Err? {
      return ScrapeFailed(scraped.error), notified, posted;
    }
    var xs := scraped.value;
    if |xs| == 0 {
      return SkippedEmptyScrape, notified, posted;
    }
    var unseen := ledger.GetNewComments(xs);
    var succeeded, failed := 0, 0;
    if |unseen| > 0 {
      var stored := ledger.InsertComments(unseen);
      if stored.PrimaryKeyViolation? {
        return StoreFailed(stored.key), notified, posted;
      }
      var _, ok, failures, requests, _ := Webhook.SendNotifications(config.discordWebhookUrl, unseen, respond, dispatchedAt);
      notified, succeeded, failed, posted := unseen, ok, failures, requests;
    }
    report := Completed(|xs|, |unseen|, succeeded, failed, ledger.GetCommentCount());
  }
}
