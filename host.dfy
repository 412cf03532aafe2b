/**
 * The host application's value objects the plugin builds (PlatformID,
 * Thumbnail, PlatformAuthorLink, PlatformVideo, PlatformVideoDetails, the
 * source variants and ContentPager), and what the plugin reads from a parsed
 * page: one field per DOM query it makes. The host's HTTP client and DOM
 * parser together become `Http`, a total function from URL to parsed page or
 * to the message of the exception the fetch raised.
 */
module Host {
  import opened Wrappers

  /** `new PlatformID(platform, value, pluginId)`; `pluginId` is the `config.id` of the running plugin. */
  datatype PlatformId = PlatformId(platform: string, value: string, pluginId: Option<string>)

  datatype Thumbnail = Thumbnail(url: string, quality: int)

  /** `new PlatformAuthorLink(id, name, url, null)` */
  datatype AuthorLink = AuthorLink(id: PlatformId, name: string, url: string)

  /** `new PlatformVideo({...})`; the upload date (wall-clock time) is not part of the model. */
  datatype PlatformVideo = PlatformVideo(
    id: PlatformId,
    name: string,
    thumbnails: seq<Thumbnail>,
    author: AuthorLink,
    duration: int,
    viewCount: int,
    url: string,
    isLive: bool)

  /** `VideoUrlSource`, `HLSSource` and `DashSource`; every duration the plugin gives is 0. */
  datatype VideoSource =
    | UrlSource(url: string, width: int, height: int, container: string, codec: string, name: string, bitrate: int)
    | HlsSource(name: string, url: string)
    | DashSource(name: string, url: string)

  /** `new PlatformVideoDetails({...})`: the summary fields plus description, sources and rating. */
  datatype VideoDetails = VideoDetails(
    video: PlatformVideo,
    description: string,
    sources: seq<VideoSource>,
    ratingLikes: int)

  /** `new ContentPager(items, hasMore)` */
  datatype ContentPager = ContentPager(items: seq<PlatformVideo>, hasMore: bool)

  /** The host's channel object; the plugin never produces one. */
  datatype PlatformChannel = PlatformChannel(url: string)

  /** The `content` and `src` attributes of an element a query found. */
  datatype Tag = Tag(content: Option<string>, src: Option<string>)

  /**
   * One element matched by `.course-item, .video-item, .content-item, article`:
   * the text of its first title element, the `href` of its first `<a>` (None
   * when there is no `<a>` or it has no `href`), the `src` of its first `<img>`
   * (None when there is no `<img>` or it has no `src`).
   */
  datatype Entry = Entry(title: Option<string>, href: Option<string>, imgSrc: Option<string>)

  /**
   * A parsed page, as the plugin's queries see it: the listing entries; the
   * text of the first heading (`h1, .entry-title, .course-title, .video-title`)
   * and of the first description block; the first `og:image` meta element and
   * the first image; the first `video source, video` element; the first player
   * iframe; and the text of every `<script>`, in document order.
   */
  datatype Page = Page(
    entries: seq<Entry>,
    heading: Option<string>,
    summary: Option<string>,
    ogImage: Option<Tag>,
    image: Option<Tag>,
    video: Option<Tag>,
    iframe: Option<Tag>,
    scripts: seq<string>)

  /** An authenticated GET followed by parsing: the page, or the message of the exception raised. */
  type Http = string -> Result<Page>
}
