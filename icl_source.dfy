/**
 * The plugin object itself: its configuration, the authentication guard every
 * request goes through, the home feed and search (both read a listing page),
 * content details, and the channel entry points the site does not support.
 * Failures the plugin reports by throwing a `ScriptException` are
 * `Failure(message)`.
 */
module IclSource {
  import opened Wrappers
  import opened Text
  import opened Host
  import opened IclUrls
  import opened UriComponent
  import opened ContentListing
  import opened VideoSources

  const LoginRequired := "Please log in to ICL to access content. Tap 'Login' in the plugin settings."
  const ChannelsUnsupported := "Channels are not supported for ICL"
  const ChannelSearchUnsupported := "Channel search is not supported for ICL"
  const DetailsFailurePrefix := "Failed to get content details: "
  const NoVideoSource := "Could not find video source on page"
  const UnknownTitle := "Unknown Title"

  /** The part of the host's configuration the plugin reads: `config.id`. */
  datatype Config = Config(id: Option<string>)

  /** `{}`: no plugin id. */
  const EmptyConfig := Config(None)

  /** `ensureAuthenticated`: throws unless the user is logged in. */
  function EnsureAuthenticated(loggedIn: bool): (r: Result<()>)
    ensures r.Success? <==> loggedIn
    ensures r.Failure? ==> r.error == LoginRequired
  {
    if loggedIn then Success(()) else Failure(LoginRequired)
  }

  /** `makeAuthenticatedRequest(url)`: the guard, then a GET of `url`. */
  function MakeAuthenticatedRequest(loggedIn: bool, url: string, http: Http): (r: Result<Page>)
    ensures !loggedIn ==> r == Failure(LoginRequired)
    ensures loggedIn ==> r == http(url)
  {
    match EnsureAuthenticated(loggedIn)
    case Failure(e) => Failure(e)
    case Success(_) => http(url)
  }

  /** A logged-out user reaches no page at all, whatever the site would answer. */
  lemma LoggedOutRequestsNothing(url: string, http1: Http, http2: Http)
    ensures MakeAuthenticatedRequest(false, url, http1) == MakeAuthenticatedRequest(false, url, http2)
    ensures MakeAuthenticatedRequest(false, url, http1).Failure?
  {
  }

  /** `isChannelUrl`: the site has no channels. */
  function IsChannelUrl(url: string): (r: bool)
    ensures !r
  {
    false
  }

  /** `getChannel` */
  function GetChannel(url: string): (r: Result<PlatformChannel>)
    ensures r.Failure? && r.error == ChannelsUnsupported
  {
    Failure(ChannelsUnsupported)
  }

  /** `getChannelContents` */
  function GetChannelContents(url: string): (r: Result<ContentPager>)
    ensures r.Failure? && r.error == ChannelsUnsupported
  {
    Failure(ChannelsUnsupported)
  }

  /** `searchChannelContents` */
  function SearchChannelContents(channelUrl: string, query: string): (r: Result<ContentPager>)
    ensures r.Failure? && r.error == ChannelSearchUnsupported
  {
    Failure(ChannelSearchUnsupported)
  }

  /** `searchSuggestions`: never any. */
  function SearchSuggestions(query: string): (r: seq<string>)
    ensures |r| == 0
  {
    []
  }

  /**
   * The thumbnail URL of a content page: the `og:image` meta element if there
   * is one, else the first image; of that element, its `content` if non-empty,
   * else its `src`.
   */
  function ThumbnailUrl(page: Page): (u: Option<string>)
    ensures page.ogImage.None? && page.image.None? ==> u.None?
    ensures page.ogImage.Some? || page.image.Some? ==>
      var tag := if page.ogImage.Some? then page.ogImage.value else page.image.value;
      u == if Truthy(tag.content) then tag.content else tag.src
    ensures Truthy(u) ==> page.ogImage.Some? || page.image.Some?
  {
    var element := if page.ogImage.Some? then page.ogImage else page.image;
    match element
    case None => None
    case Some(tag) => if Truthy(tag.content) then tag.content else tag.src
  }

  /**
   * An `og:image` element, even one without a usable `content`, hides every
   * other image: its `src` is the fallback, not the page's first image.
   */
  lemma OgImageHidesImages(page: Page, image: Option<Tag>)
    requires page.ogImage.Some?
    ensures ThumbnailUrl(page) == ThumbnailUrl(page.(image := image))
  {
  }

  /** `title`: the trimmed heading, or "Unknown Title" when the page has no heading element. */
  function Title(page: Page): (t: string)
    ensures IsTrimmed(t)
    ensures page.heading.None? ==> t == UnknownTitle
    ensures page.heading.Some? ==> t == Trim(page.heading.value)
  {
    if page.heading.Some? then Trim(page.heading.value) else UnknownTitle
  }

  /**
   * What `getContentDetails` makes of the page fetched from `url`: the video
   * sources, then the details object; no source is an error.
   */
  function DetailsFromPage(url: string, page: Page, pluginId: Option<string>): (r: Result<VideoDetails>)
    ensures r.Failure? <==> PageSources(page) == []
    ensures r.Failure? ==> r.error == NoVideoSource
    ensures r.Success? ==>
      var v := r.value.video;
      r.value.sources == PageSources(page) && r.value.ratingLikes == 0
      && v.url == url && v.id == PlatformId(Platform, url, pluginId) && !v.isLive
      && v.name == Title(page) && IsTrimmed(v.name) && IsTrimmed(r.value.description)
      && r.value.description == (if page.summary.Some? then Trim(page.summary.value) else "")
      && v.thumbnails == ThumbnailsFor(ThumbnailUrl(page)) && v.author == IclAuthor(pluginId)
  {
    var sources := PageSources(page);
    if sources == [] then Failure(NoVideoSource)
    else
      var description := if page.summary.Some? then Trim(page.summary.value) else "";
      Success(VideoDetails(
        PlatformVideo(
          PlatformId(Platform, url, pluginId),
          Title(page),
          ThumbnailsFor(ThumbnailUrl(page)),
          IclAuthor(pluginId),
          0, 0, url, false),
        description, sources, 0))
  }

  /**
   * Opening an item of a listing gives details under the same id, URL and
   * author as the item: the host can match the two.
   */
  lemma DetailsAgreeWithListing(e: Entry, page: Page, pluginId: Option<string>)
    requires IsListed(e)
    requires DetailsFromPage(EntryVideo(e, pluginId).url, page, pluginId).Success?
    ensures var item := EntryVideo(e, pluginId);
      var details := DetailsFromPage(item.url, page, pluginId).value.video;
      details.id == item.id && details.url == item.url && details.author == item.author
  {
  }

  /** A page offers details exactly when it has a usable video element or iframe or a script offers a URL. */
  lemma DetailsExactly(url: string, page: Page, pluginId: Option<string>)
    ensures DetailsFromPage(url, page, pluginId).Success? <==>
      ElementSources(page.video, page.iframe) != []
      || exists i :: 0 <= i < |page.scripts| && !IsSilent(OfferOf(page.scripts[i]))
  {
    NoSourceExactly(page);
  }

  /** The plugin object: the configuration `enable` stores. */
  class Source {
    var config: Config

    /** Before `enable`, the configuration is `{}`. */
    constructor()
      ensures config == EmptyConfig
    {
      config := EmptyConfig;
    }

    /**
     * `enable(conf)`: stores `conf ?? {}`; when asking the host for the login
     * status throws, the configuration falls back to `{}`.
     */
    method Enable(conf: Option<Config>, statusQueryThrows: bool)
      modifies this
      ensures config == if statusQueryThrows then EmptyConfig else conf.GetOr(EmptyConfig)
    {
      config := conf.GetOr(EmptyConfig);
      if statusQueryThrows {
        config := EmptyConfig;
      }
    }

    /** `parseContentFromPage`: one summary per listed element, in document order. */
    method ParseContentFromPage(entries: seq<Entry>) returns (videos: seq<PlatformVideo>)
      ensures videos == Listing(entries, config.id)
    {
      videos := [];
      var i := 0;
      while i < |entries|
        invariant 0 <= i <= |entries|
        invariant videos == Listing(entries[..i], config.id)
      {
        var element := entries[i];
        ListingStep(entries, i, config.id);
        // an element without a title or a link is skipped; so is one whose link
        // has no href, on which `startsWith` throws inside the per-element try
        if element.title.Some? && element.href.Some? {
          var title := Trim(element.title.value);
          var url := element.href.value;
          var fullUrl := if StartsWith(url, "http") then url else BaseUrl + url;
          var video := PlatformVideo(
            PlatformId(Platform, fullUrl, config.id),
            title,
            ThumbnailsFor(element.imgSrc),
            IclAuthor(config.id),
            0, 0, fullUrl, false);
          assert video == EntryVideo(element, config.id);
          videos := videos + [video];
        }
        i := i + 1;
      }
      assert entries[..i] == entries;
    }

    /** `getHome`: the listing of the entertainment page; any failure gives an empty pager. */
    method GetHome(loggedIn: bool, http: Http) returns (pager: ContentPager)
      ensures !pager.hasMore
      ensures var response := MakeAuthenticatedRequest(loggedIn, HomeUrl, http);
        pager.items == if response.Success? then Listing(response.value.entries, config.id) else []
    {
      var response := MakeAuthenticatedRequest(loggedIn, HomeUrl, http);
      if response.Failure? {
        return ContentPager([], false);
      }
      var videos := ParseContentFromPage(response.value.entries);
      pager := ContentPager(videos, false);
    }

    /** `search(query)`: the listing of the site's search results page; any failure gives an empty pager. */
    method Search(query: string, loggedIn: bool, http: Http) returns (pager: ContentPager)
      ensures !pager.hasMore
      ensures var response := MakeAuthenticatedRequest(loggedIn, SearchUrl(query), http);
        pager.items == if response.Success? then Listing(response.value.entries, config.id) else []
    {
      var searchUrl := BaseUrl + "/?s=" + EncodeUriComponent(query);
      var response := MakeAuthenticatedRequest(loggedIn, searchUrl, http);
      if response.Failure? {
        return ContentPager([], false);
      }
      var videos := ParseContentFromPage(response.value.entries);
      pager := ContentPager(videos, false);
    }

    /**
     * `getContentDetails(url)`: every failure, the login guard's, the fetch's
     * and the missing source, is rethrown with the "Failed to get content
     * details: " prefix.
     */
    method GetContentDetails(url: string, loggedIn: bool, http: Http) returns (r: Result<VideoDetails>)
      ensures r.Failure? ==> StartsWith(r.error, DetailsFailurePrefix)
      ensures !loggedIn ==> r == Failure(DetailsFailurePrefix + LoginRequired)
      ensures loggedIn && http(url).Failure? ==> r == Failure(DetailsFailurePrefix + http(url).error)
      ensures loggedIn && http(url).Success? ==>
        var details := DetailsFromPage(url, http(url).value, config.id);
        r == if details.Success? then details else Failure(DetailsFailurePrefix + details.error)
    {
      var response := MakeAuthenticatedRequest(loggedIn, url, http);
      if response.Failure? {
        return Failure(DetailsFailurePrefix + response.error);
      }
      var page := response.value;
      var title := Title(page);
      var description := if page.summary.Some? then Trim(page.summary.value) else "";
      var thumbnailUrl := ThumbnailUrl(page);
      var videoSources := CollectVideoSources(page);
      if |videoSources| == 0 {
        return Failure(DetailsFailurePrefix + NoVideoSource);
      }
      r := Success(VideoDetails(
        PlatformVideo(
          PlatformId(Platform, url, config.id),
          title,
          ThumbnailsFor(thumbnailUrl),
          IclAuthor(config.id),
          0, 0, url, false),
        description, videoSources, 0));
    }
  }
}
