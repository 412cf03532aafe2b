/**
 * The plugin's URL rules: the site it talks to, the pages it requests, the
 * relative-to-absolute rule it applies to links and video sources, and the
 * test the host uses to route a URL to the plugin.
 */
module IclUrls {
  import opened Text
  import opened UriComponent

  const SiteHost := "membro.icl.com.br"
  const BaseUrl := "https://membro.icl.com.br"
  const Platform := "ICL"
  const AuthorName := "Instituto Conhecimento Liberta"

  /** The path markers of the site's content pages. */
  const ContentMarkers := ["/curso/", "/video/", "/aula/", "/serie/", "/documentario/"]

  /** The page the home feed is read from. */
  const HomeUrl := BaseUrl + "/entretenimento/"

  /** The site's search results page for `query`. */
  function SearchUrl(query: string): (u: string)
    ensures StartsWith(u, BaseUrl + "/?s=")
    ensures forall i :: |BaseUrl + "/?s="| <= i < |u| ==> IsEncodedChar(u[i])
  {
    BaseUrl + "/?s=" + EncodeUriComponent(query)
  }

  /** A query made only of unreserved characters is sent as it is. */
  lemma PlainQueryUrl(query: string)
    requires forall i :: 0 <= i < |query| ==> IsUnreserved(query[i])
    ensures SearchUrl(query) == BaseUrl + "/?s=" + query
  {
    EncodeUnreservedIdentity(query);
  }

  /** Distinct queries give distinct search URLs: the encoding loses nothing. */
  lemma SearchUrlInjective(q1: string, q2: string)
    requires SearchUrl(q1) == SearchUrl(q2)
    ensures q1 == q2
  {
    var prefix := BaseUrl + "/?s=";
    assert SearchUrl(q1)[|prefix|..] == EncodeUriComponent(q1);
    assert SearchUrl(q2)[|prefix|..] == EncodeUriComponent(q2);
    DecodeEncode(q1);
    DecodeEncode(q2);
  }

  /**
   * `u.startsWith('http') ? u : BASE_URL + u`, applied to listing links and to
   * `<video>` and iframe sources.
   */
  function Absolutize(u: string): (r: string)
    ensures StartsWith(r, "http")
    ensures StartsWith(u, "http") ==> r == u
    ensures !StartsWith(u, "http") ==> r == BaseUrl + u
  {
    if StartsWith(u, "http") then u else BaseUrl + u
  }

  /** An absolute URL is left alone, so absolutising twice changes nothing more. */
  lemma AbsolutizeIdempotent(u: string)
    ensures Absolutize(Absolutize(u)) == Absolutize(u)
  {
  }

  /** `isContentDetailsUrl`: the site's host and one of the content path markers. */
  function IsContentDetailsUrl(url: string): (r: bool)
    ensures r <==> Contains(url, SiteHost) && exists m :: m in ContentMarkers && Contains(url, m)
  {
    Contains(url, SiteHost)
    && (Contains(url, "/curso/") || Contains(url, "/video/") || Contains(url, "/aula/")
        || Contains(url, "/serie/") || Contains(url, "/documentario/"))
  }

  /**
   * A relative link that names a content page becomes, once absolutised, a URL
   * the plugin claims: the base URL supplies the host.
   */
  lemma RelativeContentLinkIsClaimed(href: string, marker: string)
    requires marker in ContentMarkers && Contains(href, marker)
    requires !StartsWith(href, "http")
    ensures IsContentDetailsUrl(Absolutize(href))
  {
    var base := BaseUrl;
    assert base == "https://" + SiteHost;
    assert OccursAt(base, 8, SiteHost);
    ContainsInLeft(base, href, SiteHost);
    ContainsInRight(base, href, marker);
  }
}
