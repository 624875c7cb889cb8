/** The value types shared by the services: instants, feed items, articles, candidates, events and reactions. */
module Contracts {
  import Text

  /** An instant, in nanoseconds after Go's zero time. */
  type Time = int

  /** The instant for which `IsZero` answers true. */
  const ZERO_TIME: Time := 0

  const NANOS_PER_HOUR: int := 3_600_000_000_000

  /** The largest and smallest value of a 64-bit signed integer (and so of a duration). */
  const MAX_INT64: int := 0x7FFF_FFFF_FFFF_FFFF
  const MIN_INT64: int := -0x8000_0000_0000_0000

  /** The difference of two instants, saturating at the ends of the duration range. */
  function Sub(a: Time, b: Time): (d: int)
    ensures MIN_INT64 <= d <= MAX_INT64
  {
    if a - b > MAX_INT64 then MAX_INT64 else if a - b < MIN_INT64 then MIN_INT64 else a - b
  }

  datatype Option<+T> = None | Some(value: T)

  datatype Result<+T> = Ok(value: T) | Err(error: string)

  datatype FeedItem = FeedItem(
    articleID: string,
    title: string,
    summary: string,
    sourceName: string,
    url: string,
    tags: seq<string>,
    score: real,
    scoreReasons: seq<string>,
    reaction: string,
    saved: bool,
    publishedAt: Time)

  datatype Article = Article(
    id: string,
    sourceName: string,
    externalID: string,
    url: string,
    title: string,
    summary: string,
    content: string,
    author: string,
    tags: seq<string>,
    language: string,
    publishedAt: Time,
    parsedAt: Time)

  datatype Candidate = Candidate(
    sourceName: string,
    externalID: string,
    url: string,
    title: string,
    summary: string,
    content: string,
    author: string,
    tags: seq<string>,
    language: string,
    publishedAt: Time)

  datatype UserReaction = UserReaction(userID: string, articleID: string, kind: string, createdAt: Time)

  const LIKE := "like"
  const DISLIKE := "dislike"
  const SKIP := "skip"
  const SAVE := "save"
  const OPEN := "open"

  datatype DiscoveredEvent = DiscoveredEvent(
    sourceName: string,
    externalID: string,
    url: string,
    title: string,
    summary: string,
    content: string,
    author: string,
    tags: seq<string>,
    language: string,
    publishedAt: Time,
    discoveredAt: Time)

  function ValidateDiscovered(event: DiscoveredEvent): Result<()> {
    if Text.IsBlank(event.sourceName) then Err("source name is required")
    else if Text.IsBlank(event.externalID) then Err("external id is required")
    else if Text.IsBlank(event.url) then Err("url is required")
    else if Text.IsBlank(event.title) then Err("title is required")
    else if event.discoveredAt == ZERO_TIME then Err("discovered at is required")
    else Ok(())
  }
}
