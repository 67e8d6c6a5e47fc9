# toreka-tracker, modelled in Dafny

toreka-tracker watches a WordPress (wpDiscuz) comment thread and posts every comment it has not seen before to a Discord webhook. Each monitoring cycle does the following:

1. Loads the configuration from the environment.
2. Scrapes the comment page.
3. Parses the comment containers into flat records, each with an optional parent id.
4. Keeps the records whose id is not yet in the SQLite ledger.
5. Stores them in one transaction.
6. Sends one embed per stored comment, with per-comment retries.

The model covers this pipeline:

- **Text** (`text.dfy`): the JavaScript primitives the code relies on, written out:
  - decimal rendering and `parseInt(…, 10)`;
  - `trim` over the ECMAScript white-space set;
  - ASCII `toLowerCase`;
  - the `/\/$/` replacement.
- **Regex** (`regex.dfy`): the three regular expressions as leftmost-match searches:
  - `wpd-comm-(\d+)_0`;
  - `wpd-comm-\d+_(\d+)`;
  - `comment-page-(\d+)`.

  A greedy `\d+` is the maximal run of digits.
- **Repository** (`repository.dfy`): the comment ledger.
  - The `Ledger` class has a table keyed by id, the insertion order and a clock in seconds.
  - Its methods are proved against functions on values:
    - `InsertAll`: the transaction;
    - `NewComments`: the novelty filter;
    - `Purge`: the retention delete.
- **Parser** (`parser.dfy`): `parseComments` over a page's containers, given as values, and `parseMultiplePages`.
- **Detector** (`detector.dfy`): the latest-page detector and the page-URL builder.
- **Fetcher** (`fetcher.dfy`) and **Webhook** (`webhook.dfy`): the HTTP retry loops, over a shared retry specification in `retry.dfy`.
  - The server's answers are an oracle indexed by attempt number.
  - Webhook also builds the embeds.
- **Configuration** (`config.dfy`): `loadConfig` as a validator over an environment map.
- **Monitor** (`monitor.dfy`): `monitorComments`.
  - It is a pure function `Cycle` of the table, the environment and the scrape.
  - The method runs the cycle over a `Ledger` and is proved to do what `Cycle` decides.

The code's own comments (src/scraper/parser.ts:13, 18 and 56-57) describe wpDiscuz's container ids as `wpd-comm-{id}_{parentId}`, with `_0` for a top-level comment. The model follows what the code does with them, which differs in two places:

- **Reply containers.** The id is read with `wpd-comm-(\d+)_0` before any parent is looked at, so a container whose whole id is `wpd-comm-{id}_{parentId}` with a parent part not starting with 0 yields no record at all; see `Parser.NonZeroParentSkipped`.
- **Where the parent comes from.** The parent is the digit run after the leftmost `wpd-comm-{digits}_` match, and that need not be the part the id was read from. In `wpd-comm-7_012` both searches match at the start, giving id 7 and parent 12 (`Parser.CanonicalContainerId`). In `wpd-comm-5_3-wpd-comm-7_0` the id search matches only the second part, giving id 7, while the parent search matches the first, giving parent 3 (`Parser.DecodeCommentId`, `Parser.DecodeParentId`).
- **The reply field.** The reply embed names the parent only when the parent id is non-zero.

## Model

| member | source | states |
|---|---|---|
| Text.NatToString | src/scraper/parser.ts:66 | a number renders as a non-empty digit string without a leading zero |
| Text.DecimalValueOfNatToString | src/scraper/parser.ts:27 | reading a rendered number back in decimal gives the number |
| Text.NatToStringInjective | src/scraper/parser.ts:30 | distinct ids render differently, so `div#comment-{id}` names one comment |
| Text.DecimalValueLeadingZero | src/scraper/parser.ts:60 | a leading "0" does not change a decimal value, as `parseInt("012")` is 12 |
| Text.Trim | src/scraper/parser.ts:41 | the result is empty iff the text is all white space; otherwise neither end is white space; it is a slice whose cut-off ends are white space |
| Text.DecimalValuePrefix | src/scraper/detector.ts:22 | the leading digits of a digit string are worth no more than the whole string |
| Text.TrimIdempotent | src/scraper/parser.ts:41 | trimming twice is trimming once |
| Text.ToLower | src/utils/config.ts:18 | same length; each character lower-cased |
| Text.StripTrailingSlash | src/scraper/parser.ts:65 | the text loses one final '/' exactly when it ends in '/', and is otherwise unchanged |
| Text.ParseIntReadsNumber | src/utils/config.ts:31 | a text of white space, an optional sign and a maximal digit run parses to that run's value, negated after '-' |
| Text.ParseIntIsNumber | src/utils/config.ts:31 | an all-white-space text is NaN; `parseInt` yields a number only when the text reads as white space, optional sign and digits, and then that number |
| Text.ParseIntOfDigits | src/scraper/parser.ts:27 | `parseInt` of a digit string is its decimal value |
| Text.ParseIntOfNatToString | src/utils/config.ts:31 | `parseInt` reads back every rendered natural number |
| Text.ParseIntOfIntToString | src/notifier/webhook.ts:51 | `parseInt` reads back every rendered integer, sign included |
| Regex.MatchAt | src/scraper/parser.ts:20 | a match at a position is a match of the pattern there, in the backtracking sense of `Matches`, with a greedy last digit run; none means no match starts there |
| Regex.ContainerIdAt | src/scraper/parser.ts:20 | `wpd-comm-(\d+)_0` at a position: the prefix, a non-empty digit group ending where `_0` follows, greedy; none iff no such match starts there |
| Regex.ContainerIdShape | src/scraper/parser.ts:20 | a `wpd-comm-(\d+)_0` match's group is the maximal digit run after the prefix, since `_` is no digit |
| Regex.ParentRefAt | src/scraper/parser.ts:58 | `wpd-comm-\d+_(\d+)` at a position: the prefix, digits, `_`, then a non-empty greedy group; none iff no such match starts there |
| Regex.ParentRefShape | src/scraper/parser.ts:58 | a `wpd-comm-\d+_(\d+)` match's group starts right after the maximal digit run after the prefix |
| Regex.PageRefAt | src/scraper/detector.ts:11 | `comment-page-(\d+)` at a position: the prefix, then a non-empty greedy group; none iff no such match starts there |
| Regex.GreedyUnique | src/scraper/parser.ts:20 | two matches at one position with greedy last runs are the same match |
| Regex.LeftmostIsFirst | src/scraper/parser.ts:20 | the search from 0 returns what `String.prototype.match` reports: a greedy match starting no later than any other |
| Regex.FirstIsLeftmost | src/scraper/parser.ts:58 | the match `String.prototype.match` reports is the one the search from 0 returns |
| Regex.PageRefNoOverlap | src/scraper/detector.ts:21 | two `comment-page-(\d+)` matches never overlap, so `exec` resuming at a match's end skips none |
| Regex.NoMatchWithoutLead | src/scraper/detector.ts:11 | no match starts at a position not holding the prefix's first letter |
| Regex.Leftmost | src/scraper/parser.ts:58 | the search returns the first position from `from` where the pattern matches, or None when none does |
| Regex.LeftmostIs | src/scraper/detector.ts:21 | the search stops at the first matching position |
| Regex.LeftmostNone | src/scraper/detector.ts:21 | with no matching position the search fails, ending the `exec` loop |
| Repository.Stamp | src/database/repository.ts:93-101 | the inserted row holds the comment's columns unchanged, under its id, first seen at the insertion time |
| Repository.InsertAllKeys | src/database/repository.ts:86-103 | after the transaction an id is stored iff it was stored before or is in the batch |
| Repository.InsertAllContents | src/database/repository.ts:86-103 | a committable batch keeps every old row and stores each comment stamped with the time |
| Repository.InsertAllCount | src/database/repository.ts:86-103 | a committable batch grows the table by exactly its length |
| Repository.InsertAllKeyed | src/database/repository.ts:86-103 | every row stays under its own id |
| Repository.NewCommentsMembers | src/database/repository.ts:117-128 | a comment is new iff it was scraped and its id is not stored |
| Repository.NewCommentsAppend | src/database/repository.ts:120-124 | the filter keeps the input order |
| Repository.NewCommentsKeepsRepeats | src/database/repository.ts:120-124 | no de-duplication: a new comment occurs as often as it was scraped; a stored one never |
| Repository.NewCommentsAllStored | src/database/repository.ts:117-128 | when every scraped id is stored, nothing is new |
| Repository.NewCommentsAfterInsert | src/database/repository.ts:117-128 | once a batch is stored none of it is new |
| Repository.StoredAfterNew | src/database/repository.ts:117-128 | after storing a scrape's new comments, an id is stored iff it was before or was scraped |
| Repository.NewAfterStoringNew | src/database/repository.ts:117-128 | a later scrape's new comments are those whose id was neither stored nor scraped earlier |
| Repository.NothingNewAfterStoringNew | src/database/repository.ts:117-128 | storing a scrape's new comments leaves nothing of that scrape new |
| Repository.RepeatedIdIsRefused | src/database/repository.ts:92-102 | a scrape repeating an unstored id gives a batch the primary key refuses |
| Repository.PurgeRemovesExpired | src/database/repository.ts:146-152 | the delete removes exactly the rows first seen before the cutoff, keeps the others unchanged, and the counts add up |
| Repository.KeepPresent | src/database/repository.ts:146-149 | the insertion order keeps exactly the ids still stored, without repeats |
| Repository.PurgeKeepsInvariant | src/database/repository.ts:146-149 | the purge keeps the table keyed and the order in step with it |
| Repository.Ledger.constructor | src/database/db.ts:42-51 | a freshly created table is empty, and the ledger starts valid with the clock at the given time |
| Repository.Ledger.Tick | src/database/repository.ts:148 | the clock that `datetime('now')` reads moves to the given time |
| Repository.Ledger.CommentExists | src/database/repository.ts:8-13 | true iff a row with that id is stored |
| Repository.Ledger.GetComment | src/database/repository.ts:18-45 | null iff the id is absent; otherwise the stored row, which carries that id |
| Repository.Ledger.GetCommentCount | src/database/repository.ts:133-138 | the number of stored rows |
| Repository.Ledger.InsertComment | src/database/repository.ts:50-74 | a stored id is a primary-key violation and changes nothing; otherwise the stamped row is added and found by `getComment` |
| Repository.StagingStep | src/database/repository.ts:92-102 | staging a row whose id is already staged dooms the batch; otherwise the batch so far stays committable |
| Repository.CommitKeepsValid | src/database/repository.ts:86-106 | committing a committable batch keeps the table keyed, the order free of repeats and in step with the table |
| Repository.Ledger.InsertComments | src/database/repository.ts:79-112 | commits iff no id is stored or repeated in the batch, and then stores exactly the stamped batch; otherwise nothing changes and the reported key is in the batch |
| Repository.Ledger.GetNewComments | src/database/repository.ts:117-128 | returns exactly the scraped comments whose id is not stored, in order |
| Repository.Ledger.DeleteOldComments | src/database/repository.ts:143-159 | removes exactly the rows first seen more than `days` days ago and returns how many |
| Parser.DecodeCommentId | src/scraper/parser.ts:18-27 | an id decodes iff `wpd-comm-(\d+)_0` matches it somewhere, and then to the decimal value of the group of the first match |
| Parser.DecodeParentId | src/scraper/parser.ts:51-62 | a parent iff the container has the `wpd-reply` class and the first `wpd-comm-\d+_(\d+)` match captures something other than "0"; its value is that capture's decimal value |
| Parser.FindCommentDiv | src/scraper/parser.ts:30-35 | the first div with the wanted element id when one exists, and none otherwise |
| Parser.AuthorOrDefault | src/scraper/parser.ts:38 | the author is the trimmed text, or "匿名" exactly when the text is blank; never empty |
| Parser.PermaLink | src/scraper/parser.ts:64-66 | the link starts with the base without its trailing '/' followed by `/comment-page-`, and ends with `/#comment-{id}` |
| Parser.ParseContainer | src/scraper/parser.ts:14-84 | an unselected container, or one whose id does not decode, yields nothing; a record carries the decoded id and the page given |
| Parser.ParseContainerAccepts | src/scraper/parser.ts:14-46 | a container yields a record iff it is selected, its id matches `wpd-comm-(\d+)_0`, it holds `div#comment-{id}`, and that div's content is not blank |
| Parser.ParseContainerFields | src/scraper/parser.ts:27-76 | a record has the decoded id and parent, the page given, trimmed non-blank content, a non-empty author, a trimmed date and the permalink; a parent only on a `wpd-reply` container; content, author and date are the trimmed texts of the first `div#comment-{id}` |
| Parser.ParseAllAppend | src/scraper/parser.ts:14-88 | records come container by container, in document order |
| Parser.ParseAllMembers | src/scraper/parser.ts:14-88 | every record comes from a container of the page, every accepted container gives its record, and there are no more records than containers |
| Parser.ParseAllKeepsRepeats | src/scraper/parser.ts:14-88 | no de-duplication: a repeated container yields its record each time |
| Parser.ParseAllOnePerContainer | src/scraper/parser.ts:14-88 | a page of accepted containers yields one record per container, in order |
| Parser.CanonicalIdMatch | src/scraper/parser.ts:20 | in `wpd-comm-{n}_0…` the id pattern matches at the start and captures n |
| Parser.CanonicalParentMatch | src/scraper/parser.ts:58 | in `wpd-comm-{n}_0…` the parent pattern matches at the start and captures "0" followed by the rest |
| Parser.CanonicalCommentId | src/scraper/parser.ts:18-27 | `wpd-comm-{n}_0…` decodes to n |
| Parser.CanonicalParentId | src/scraper/parser.ts:51-62 | `wpd-comm-{n}_0{digits}` has a parent only on a reply with digits after "_0", and then their value |
| Parser.CanonicalContainerId | src/scraper/parser.ts:18-62 | such an id is selected and decodes to n; it has a parent only on a reply with more digits after "_0" |
| Parser.NonZeroParentSkipped | src/scraper/parser.ts:20-25 | an id `wpd-comm-{d}_{p}` with p not starting with 0 does not match, so the container yields no record |
| Parser.SplitContainerId | src/scraper/parser.ts:20-60 | on a reply with id `wpd-comm-5_3-wpd-comm-7_0` the id decodes to 7, read from the second part, and the parent to 3, read from the first |
| Parser.ParseComments | src/scraper/parser.ts:8-88 | the loop returns exactly the page's records |
| Parser.ParseManyAppend | src/scraper/parser.ts:93-106 | pages are parsed independently and concatenated in order |
| Parser.ParseMultiplePages | src/scraper/parser.ts:93-106 | the loop returns the pages' records, page after page |
| Detector.MaxOf | src/scraper/detector.ts:31 | the maximum is one of the numbers and no number exceeds it |
| Detector.PageRefsFromMatches | src/scraper/detector.ts:20-23 | the `exec` loop from an index finds nothing iff no match starts there or later; every number it finds is the group of such a match; and it finds the group of every greedy match starting there or later |
| Detector.PageRefsFromFinds | src/scraper/detector.ts:20-23 | a greedy match at or after the index is collected: the loop's earlier matches end before it starts |
| Detector.GreedyExtension | src/scraper/detector.ts:21-22 | a non-greedy match extends to the greedy one at the same position, whose number is at least as large |
| Detector.MatchBelowLatest | src/scraper/detector.ts:15-34 | every `comment-page-(\d+)` match in a selected element's href and clipboard text, greedy or not, reads a number no larger than the detected latest page |
| Detector.DetectLatestPageNumber | src/scraper/detector.ts:7-35 | 1 when no page is referenced; otherwise a referenced page that no reference exceeds |
| Detector.AllRefsMembers | src/scraper/detector.ts:15-24 | a page is referenced iff some selected element's href or clipboard text names it |
| Detector.RefsCovered | src/scraper/detector.ts:15-24 | an element list with every element of another references all its pages |
| Detector.MaxOfSameElements | src/scraper/detector.ts:31 | lists of the same numbers have the same maximum |
| Detector.LatestPageIgnoresOrderAndRepeats | src/scraper/detector.ts:15-35 | the result depends only on which elements occur, not their order or repeats |
| Detector.LinkRefs | src/scraper/detector.ts:11-23 | a link to `comment-page-{n}` references exactly page n |
| Detector.SingleReference | src/scraper/detector.ts:26-34 | one link to page n gives n, with no lower clamp, so page 0 gives 0 |
| Detector.LatestOfThreeLinks | src/scraper/detector.ts:31 | links to pages 3, 5 and 2 give 5 |
| Detector.GeneratePageUrls | src/scraper/detector.ts:40-51 | exactly one URL; it starts with the base without its trailing '/' followed by `/comment-page-`, and ends with the page number and '/' |
| Detector.PageUrlText | src/scraper/detector.ts:42-47 | the URL of page n is the base, `/comment-page-`, n and '/' |
| Detector.PageRefsOfUrl | src/scraper/detector.ts:11-23 | on such a URL whose base does not contain `comment-page-`, the `exec` loop finds exactly the page number |
| Detector.PageUrlRefs | src/scraper/detector.ts:15-23 | a link to a generated page URL references exactly that page |
| Detector.PageUrlReadBack | src/scraper/detector.ts:7-51 | detecting the latest page on a listing holding only a link to the URL generated for page n gives back n |
| Detector.PermaLinkExtendsPageUrl | src/scraper/detector.ts:47 | a comment's permalink is its page's URL followed by `#comment-{id}` |
| Retry.FirstSuccessFrom | src/scraper/fetcher.ts:8-37 | the first succeeding attempt in range, with every earlier one failed; none when all fail |
| Retry.AttemptsMade | src/scraper/fetcher.ts:8-37 | the loop makes at most `retries` attempts, at least one when `retries >= 1`, all but the last failed, and stops at a success or at the last allowed |
| Retry.Pow2 | src/scraper/fetcher.ts:33 | `Math.pow(2, n)` is positive |
| Webhook.Truncate | src/notifier/webhook.ts:14-19 | short text is unchanged; long text keeps a prefix plus "...", with length `maxLength` when that is at least 3 |
| Webhook.TruncateIdempotent | src/notifier/webhook.ts:14-19 | truncating twice is truncating once, for every limit |
| Webhook.CreateCommentEmbed | src/notifier/webhook.ts:24-57 | reply title and colour iff there is a parent; the description is the content truncated to 300 characters, so the content itself when that fits; the author and time fields first, in that order; three fields iff the parent is non-zero, two otherwise; the comment's URL and the dispatch time |
| Webhook.EmbedNamesParent | src/notifier/webhook.ts:47-54 | the reply field is labelled "コメントID: " and its number reads back as the parent id |
| Webhook.NotificationPayload | src/notifier/webhook.ts:67-70 | the payload holds exactly the comment's embed |
| Webhook.NotificationOutcome | src/notifier/webhook.ts:62-104 | resolves iff `retries <= 0` or some allowed attempt is delivered; otherwise it rejects with the last attempt's message |
| Webhook.SendNotification | src/notifier/webhook.ts:62-104 | settles as specified, posts the same payload to the webhook once per attempt, and waits 2000·k ms after the k-th failed attempt that is not the last |
| Webhook.CountFulfilled | src/notifier/webhook.ts:125 | the number of positions holding a fulfilled result |
| Webhook.CountFailed | src/notifier/webhook.ts:126 | the number of positions holding a rejected result |
| Webhook.CountsPartition | src/notifier/webhook.ts:124-126 | successes and failures add up to the batch size |
| Webhook.BatchOutcomes | src/notifier/webhook.ts:120-122 | one settled result per comment, the k-th being the outcome of a two-attempt send answered by the k-th oracle |
| Webhook.PostedOnceOrTwice | src/notifier/webhook.ts:62-104 | with the default 2 attempts a comment's payload is posted to the webhook once when the first attempt is delivered, twice otherwise, with a single 2000 ms wait only in the second case |
| Webhook.SendNotifications | src/notifier/webhook.ts:109-133 | the results are the batch's settled outcomes, in order; the counts are the fulfilled and rejected results and add up to the batch; the i-th comment's own payload is posted to the given webhook URL once per attempt its send makes, with that send's 2000·k ms waits |
| Fetcher.FetchOutcome | src/scraper/fetcher.ts:7-40 | succeeds iff some allowed attempt is answered, with the first answer's body; otherwise "Failed to fetch {url}: {last message}", or the unexpected error when `retries <= 0` |
| Fetcher.FetchPage | src/scraper/fetcher.ts:7-40 | settles as specified, after the attempts the retry loop makes, waiting `2^k·1000` ms after the k-th failed attempt that is not the last |
| Fetcher.FetchPages | src/scraper/fetcher.ts:45-59 | succeeds iff every URL's fetch does, with one body per URL in order; otherwise it reports the failure of a URL all of whose predecessors succeeded |
| Configuration.OrDefault | src/utils/config.ts:18 | `x \|\| fallback`: the variable's value when it is set and non-empty, and the fallback otherwise |
| Configuration.FirstMissing | src/utils/config.ts:12-16 | the first required key that is unset or empty, and none iff all are set |
| Configuration.ParseLogLevel | src/utils/config.ts:19-21 | accepts exactly the four level names |
| Configuration.ParseNodeEnv | src/utils/config.ts:24-26 | accepts exactly "development" and "production" |
| Configuration.LoadConfig | src/utils/config.ts:6-36 | checks the webhook URL, then the target URL, then the log level, then the node environment, each error iff every earlier check passed and this one fails; on success the URLs verbatim, the lower-cased enums, the parsed interval and the database path or its default |
| Configuration.NamesParseBack | src/utils/config.ts:19-26 | each level and environment name parses back to its value |
| Configuration.LoadConfigAccepts | src/utils/config.ts:28-35 | an environment that passes every check loads to the configuration its variables spell |
| Configuration.LoadConfigOfEnvironment | src/utils/config.ts:28-35 | loading an environment spelled out from a configuration gives that configuration back |
| Configuration.LoadConfigDefaults | src/utils/config.ts:18-32 | with only the two required variables set, the defaults are interval 1, `./data/comments.db`, info and production |
| Monitor.CycleStages | src/index.ts:29-52 | the configuration is rejected iff it fails to load; a storing cycle loaded it, scraped something, and stores that scrape's new comments as a committable batch; a refused store is a batch the table refuses |
| Monitor.StoredThenNothingNew | src/index.ts:40-48 | after a storing cycle commits, the same cycle on the new table stores nothing new |
| Monitor.NotifiesExactlyUnseen | src/index.ts:40-51 | a comment is notified iff the cycle stores and it was scraped with an id not yet stored |
| Monitor.NotifiedAreStored | src/index.ts:47-51 | every notified comment is stored, stamped with the cycle's time, and old rows are untouched |
| Monitor.StoredCycle | src/index.ts:29-48 | a storing cycle had its configuration load and a non-empty scrape, and stores that scrape's new comments |
| Monitor.CycleOver | src/index.ts:34-48 | with the configuration and the scrape fixed, the table decides between storing and refusal |
| Monitor.RerunIsQuiet | src/index.ts:40-51 | rerunning on the same scrape notifies nothing and leaves the table unchanged |
| Monitor.LaterCycleNotifiesOnlyUnstored | src/index.ts:40-51 | after a storing cycle, a later one notifies exactly the scraped comments whose id was neither stored nor scraped before |
| Monitor.RepeatedIdBlocksCycle | src/index.ts:48 | a scrape repeating an unstored id makes the store fail, so nothing is stored or notified, in this cycle and every rerun |
| Monitor.MonitorComments | src/index.ts:22-74 | updates the ledger and notifies exactly as `Cycle` decides, never propagating an error; the requests posted are, for each notified comment in order, its own payload stamped with the dispatch time and sent to the configured `discordWebhookUrl`, once per attempt, and none when the cycle stores nothing; the report names the failing step or gives the scraped and new counts, the successes and failures of the batch's settled outcomes, and the table size |

## Left out

- The HTML itself. cheerio's DOM and CSS selectors are not modelled.
  - A page is given as its `div[id^="wpd-comm-"]` containers, in document order, each with its `wpd-reply` class flag and its `div#comment-{id}` candidates.
  - A candidate carries the text of its first author, content and date elements.
  - The detector's elements are given by tag, `href` and `data-wpd-clipboard`.
- Network, timers, logging and the SQLite engine. axios answers are an oracle indexed by attempt; the back-off waits are returned as a list of durations rather than slept; log lines are not modelled as text. `Monitor.Report` stands for the values the cycle's log lines carry: the failing step, the scraped, new and total counts `monitorComments` logs (src/index.ts:58-63), and the success and failure counts `sendNotifications` logs (src/notifier/webhook.ts:128).
- `scrapeComments` (src/scraper/index.ts) is glue: fetch the target page, then parse it as page 1. The monitor takes its outcome as an input.
- The process lifecycle: `main`, cron scheduling, dotenv loading and signal handlers (src/index.ts:79-163).
- `Promise.all` and `Promise.allSettled` run concurrently.
  - Webhook.SendNotifications: runs the sends one after another. Each send depends only on its own oracle, so the results are the same.
  - Fetcher.FetchPages: when several URLs fail, reports the first in URL order. `Promise.all` reports the one that fails first in time.
- Strings are sequences of code points, while JavaScript lengths count UTF-16 code units.
  - Webhook.Truncate: cuts at code points. The source cuts by UTF-16 units and can split a surrogate pair.
- Text.ToLower: lower-cases A–Z only. `toLowerCase` also maps other letters; none of them can turn a value into an accepted log level or node environment, so only the text of the error could differ.
- Numbers are unbounded integers. The source's IEEE doubles lose precision above 2^53; ids, page numbers and the interval are assumed to stay below that.
- Parser.FindCommentDiv: takes the first `div#comment-{id}` and reads author, content and date from it. With several such divs, `$container.find(…).find(…).first()` takes the first matching element across all of them, and cheerio's `find` also reaches nested descendants; the model gives each div the texts of its own first elements.
- Repository.Ledger.DeleteOldComments: takes the age as a natural number of days. SQLite's handling of a negative or fractional modifier is not modelled.
- Repository.Ledger.GetComment: returns the stored row. The conversion of `first_seen_at` to a JavaScript `Date` is not modelled; the clock is a number of seconds.
- `closeBrowser` is imported by src/index.ts but is not part of this model.
