/** The records the feed works on: posts, tabs (streams) and the feed filter
    selector. Timestamps are integer milliseconds; `isLiked` and
    `isBookmarked`, optional fields of a post, are booleans whose absence
    reads as `false`. */
module Types {

  datatype Option<T> = None | Some(value: T)

  /** Where a post comes from. */
  datatype Source = X | RSS | YouTube

  /** The text value of a source, as the records store it. */
  function SourceName(s: Source): string {
    match s
    case X => "X"
    case RSS => "RSS"
    case YouTube => "YouTube"
  }

  /** The feed selector: the first four restrict which sources are shown, the
      last two choose an ordering. */
  datatype FeedFilter = All | OnlyX | OnlyRSS | OnlyYouTube | Recent | Popular

  datatype Post = Post(
    id: string,
    authorName: string,
    authorHandle: string,
    authorAvatar: string,
    content: string,
    timestamp: string,
    likes: int,
    reposts: int,
    source: Source,
    isLiked: bool,
    isBookmarked: bool,
    date: int,
    tags: seq<string>
  )

  /** A named stream. `sources` lists author handles and `rssUrls` feed URLs;
      neither is consulted by the feed query. */
  datatype Tab = Tab(
    id: string,
    name: string,
    sources: seq<string>,
    rssUrls: seq<string>,
    notificationsEnabled: bool,
    defaultFilter: Option<FeedFilter>
  )

  /** A partial tab: each present field overrides the tab's own. */
  datatype TabPatch = TabPatch(
    id: Option<string>,
    name: Option<string>,
    sources: Option<seq<string>>,
    rssUrls: Option<seq<string>>,
    notificationsEnabled: Option<bool>,
    defaultFilter: Option<FeedFilter>
  )
}
