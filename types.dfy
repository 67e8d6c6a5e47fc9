/** The records the core passes around: comments, configuration and Discord payloads. */
module Types {
  import opened Wrappers

  /** One comment as read from a page; `parentId == None` is JavaScript's `null` (top level). */
  datatype ScrapedComment = ScrapedComment(
    id: int,
    pageNumber: int,
    author: string,
    content: string,
    timestamp: string,
    parentId: Option<int>,
    url: string)

  /** A ledger row: the comment's columns plus `firstSeenAt`, in seconds on the ledger's clock. */
  datatype StoredComment = StoredComment(
    id: int,
    pageNumber: int,
    author: string,
    content: string,
    timestamp: string,
    parentId: Option<int>,
    url: string,
    firstSeenAt: int)

  datatype LogLevel = Debug | Info | Warn | Error

  datatype NodeEnv = Development | Production

  /** `scrapeIntervalMinutes == None` stands for the NaN that `parseInt` yields on a non-number. */
  datatype Config = Config(
    discordWebhookUrl: string,
    targetUrl: string,
    scrapeIntervalMinutes: Option<int>,
    dbPath: string,
    logLevel: LogLevel,
    nodeEnv: NodeEnv)

  datatype EmbedField = EmbedField(name: string, value: string, inline: bool)

  datatype Embed = Embed(
    title: string,
    description: string,
    color: int,
    fields: seq<EmbedField>,
    url: string,
    timestamp: string)

  datatype WebhookPayload = WebhookPayload(embeds: seq<Embed>)
}
