# ICL plugin for Grayjay, modelled in Dafny

This project models `ICLScript.js`, the Grayjay content-source plugin for the
members' area of Instituto Conhecimento Liberta (`membro.icl.com.br`). It
covers the plugin's decision logic and proves its properties:

- the guard that refuses every request while the user is logged out;
- the home feed and search, which read a listing page, map its candidate elements
  to video summaries, and turn any failure into an empty, non-paginated pager;
- `getContentDetails`. It selects the video sources of a content page: the
  `<video>` element or the player iframe first, then the HLS, DASH and MP4
  URLs found in the page's scripts. An empty list is an error. Every failure
  is re-thrown with a fixed prefix;
- the URL rules. These are the content-URL classifier, the search URL with
  `encodeURIComponent`, and the relative-to-absolute rule;
- the channel, channel-search and suggestion entry points. They are fixed
  because the site has no channels.

The host's HTTP client and DOM parser are inputs to the model. A parsed page is
`Host.Page`, with one field per DOM query the plugin makes: optional strings and
tags, a sequence of candidate-element records, and the texts of the `<script>`
elements. A fetch is `Host.Http`, a total function from URL to page or to the
message of the exception the fetch raised. The login state is a boolean.

The JavaScript built-ins the logic depends on are written out:

- `trim` and the regular-expression class `\s`. Both use ECMAScript's fixed
  white-space set (`Text.IsSpace`).
- `startsWith` and `includes`.
- Truthiness: a missing or empty attribute counts as absent.
- `encodeURIComponent`, which encodes in UTF-8 with upper-case hex.

The three script regexes `/(https?:\/\/[^\s"']+\.EXT[^\s"']*)/` are modelled
by a recursive scanner. The scanner is proved to return the leftmost-longest
span of the pattern's language, which is the span JavaScript's matcher reports
for this pattern.

Modules, in dependency order:

- `Wrappers`: `Option`, and `Result`, whose `Failure` carries an exception message.
- `Text`.
- `UriComponent`.
- `UrlScanner`.
- `Host`: the host's value objects and the page abstraction.
- `IclUrls`.
- `ContentListing`: `parseContentFromPage` as a specification.
- `VideoSources`: the source-selection policy and the plugin's loop.
- `IclSource`: the plugin object, with a `Source` class that holds `config`.

## Model

Two definitions have no row of their own, because the lemmas below state their
properties. `UrlScanner.Scan` models the three `match` calls at
ICLScript.js:244, 254 and 264. `VideoSources.PageSources` is the declarative
source selection of ICLScript.js:199-277.

| member | source | states |
|---|---|---|
| Text.Trim | ICLScript.js:104 | `trim` removes only white space, from both ends. What is left neither starts nor ends with white space. A string already in that form is unchanged. |
| UriComponent.EncodeUriComponent | ICLScript.js:152 | The encoded query holds only unreserved characters, `%` and upper-case hex digits, and is at least as long as the query. |
| UriComponent.EncodeUnreservedIdentity | ICLScript.js:152 | A query made only of unreserved characters is its own encoding. |
| UriComponent.EncodeAppend | ICLScript.js:152 | The encoding works character by character: encoding a concatenation concatenates the encodings. |
| UriComponent.Utf8RoundTrip | ICLScript.js:152 | The UTF-8 bytes the encoder escapes decode back to the character's code point. |
| UriComponent.DecodeEncode | ICLScript.js:152 | Decoding the encoded query gives back exactly the query, so the encoding loses nothing. |
| IclUrls.SearchUrl | ICLScript.js:152 | The search URL is the base URL, then `/?s=`, then only encoded characters. |
| IclUrls.SearchUrlInjective | ICLScript.js:152 | Different queries request different search URLs. |
| IclUrls.PlainQueryUrl | ICLScript.js:152 | A query of unreserved characters is appended to `/?s=` unchanged. |
| IclUrls.Absolutize | ICLScript.js:110 | A link starting with `http` is kept. Any other link gets `https://membro.icl.com.br` prepended. The result always starts with `http`. |
| IclUrls.AbsolutizeIdempotent | ICLScript.js:210 | Absolutising twice gives the same result as absolutising once. |
| IclUrls.IsContentDetailsUrl | ICLScript.js:172-176 | A URL is claimed exactly when it contains `membro.icl.com.br` and one of `/curso/`, `/video/`, `/aula/`, `/serie/` and `/documentario/`. |
| IclUrls.RelativeContentLinkIsClaimed | ICLScript.js:172-176 | A relative link with a content marker becomes, once absolutised, a URL the plugin claims. |
| UrlScanner.ScanFindsLeftmostLongest | ICLScript.js:244 | The scanner finds nothing exactly when no span of the script matches `https?://[^\s"']+\.EXT[^\s"']*`. Otherwise it returns the match starting leftmost and, at that start, the longest one. |
| UrlScanner.ScanNoneExactly | ICLScript.js:254 | The scan fails exactly when no span matches the pattern. |
| UrlScanner.ScanSomeLeftmostLongest | ICLScript.js:264 | A URL the scan finds is the leftmost-longest match. |
| UrlScanner.MatchAtExact | ICLScript.js:244 | The match at a fixed start exists exactly when some span from there matches, and then it is the longest such span. |
| UrlScanner.FirstStartExact | ICLScript.js:244 | No span matches before the start position the scanner settles on. When the scanner settles on none, no span matches at all. |
| UrlScanner.SpanAfterScheme | ICLScript.js:244 | A span matches exactly when `http://` or `https://` starts it (with `s?` greedy) and a tail follows. The tail is non-stop characters holding `.EXT` after at least one character. |
| UrlScanner.InPatternShape | ICLScript.js:244 | Every word of the pattern starts with `http://` or `https://`, contains `.EXT`, and has no white space or quote. |
| UrlScanner.ScannedUrlShape | ICLScript.js:244 | Every URL taken from a script starts with `http://` or `https://`, contains the extension looked for, has no white space, `"` or `'`, and occurs in the script. |
| ContentListing.ThumbnailsFor | ICLScript.js:116 | A missing or empty image URL gives an empty thumbnail list, not null. Otherwise the list holds that one URL. |
| ContentListing.EntryVideo | ICLScript.js:103-122 | The summary of a listed element. Its id value and its `url` are both the absolutised `href`. Its name is the trimmed title. Its author is the site, and it is not live. |
| ContentListing.ItemsOf | ICLScript.js:99-101 | An element gives an item exactly when it has a title and a link with an `href`, and then it gives its summary. |
| ContentListing.Listing | ICLScript.js:88-125 | There is at most one item per candidate element. |
| ContentListing.ListingAppend | ICLScript.js:88-125 | Items keep the order of their elements: the listing of two runs of elements is the first run's listing followed by the second's. |
| ContentListing.ListingStep | ICLScript.js:89-125 | One more element adds exactly what that element contributes. |
| ContentListing.ListingExact | ICLScript.js:88-125 | Every item is the summary of a listed element, and every listed element yields its summary. |
| ContentListing.ListingItemsShape | ICLScript.js:110-121 | Every item links to an absolute URL that is also its id, and no item is live. |
| ContentListing.ListingKeepsAll | ICLScript.js:99-101 | The listing has one item per element exactly when every element has a title and a link. |
| VideoSources.ElementSources | ICLScript.js:205-236 | A `<video>` element gives one direct source exactly when its `src` is non-empty. Only without a `<video>` element does the iframe give its embed source. That source is absolutised. |
| VideoSources.VideoElementHidesIframe | ICLScript.js:205-220 | A `<video>` element, even one without `src`, suppresses the iframe. |
| VideoSources.SelectedSourcesSnoc | ICLScript.js:240-277 | One more script adds its HLS source, then its DASH source. Its MP4 source is added only when the list is still empty. |
| VideoSources.CollectVideoSources | ICLScript.js:199-277 | The plugin's if/else chain and script loop compute exactly the declarative source list `PageSources`. |
| VideoSources.StreamSourcesAreStreams | ICLScript.js:244-262 | Everything the scripts add besides the MP4 fallback is an HLS or DASH source. |
| VideoSources.Mp4FallbackExact | ICLScript.js:264-276 | The MP4 fallback is script `j`'s MP4 URL exactly when every earlier script found nothing and script `j` found an MP4 URL but no HLS or DASH URL. |
| VideoSources.ScriptsFindNothing | ICLScript.js:240-277 | The scripts contribute nothing exactly when no script holds an HLS, DASH or MP4 URL. |
| VideoSources.SelectedSourcesShape | ICLScript.js:239-277 | Only the first source may be a direct file. After an element source come only the scripts' HLS and DASH sources. A direct first source that no element gave is the MP4 fallback. |
| VideoSources.PageSourcesShape | ICLScript.js:199-277 | The same shape for the list a page yields. |
| VideoSources.NothingSelected | ICLScript.js:279-281 | The list is empty exactly when the element gave nothing and every script is silent. |
| VideoSources.NoSourceExactly | ICLScript.js:279-281 | A page yields no source exactly when it has no usable `<video>` or iframe source and no script holds an HLS, DASH or MP4 URL. |
| IclSource.EnsureAuthenticated | ICLScript.js:34-38 | The guard passes exactly when the user is logged in. Otherwise it fails with the login message. |
| IclSource.MakeAuthenticatedRequest | ICLScript.js:41-58 | A logged-out request fails with the login message. A logged-in request is the GET of the URL. |
| IclSource.LoggedOutRequestsNothing | ICLScript.js:41-43 | A logged-out request fails whatever the site would answer. |
| IclSource.IsChannelUrl | ICLScript.js:307-309 | No URL is a channel URL. |
| IclSource.GetChannel | ICLScript.js:312-314 | Always fails with "Channels are not supported for ICL". |
| IclSource.GetChannelContents | ICLScript.js:317-319 | Always fails with "Channels are not supported for ICL". |
| IclSource.SearchChannelContents | ICLScript.js:331-333 | Always fails with "Channel search is not supported for ICL". |
| IclSource.SearchSuggestions | ICLScript.js:167-169 | Never suggests anything. |
| IclSource.ThumbnailUrl | ICLScript.js:194-195 | The thumbnail comes from the `og:image` element if there is one, else from the first image. It is that element's `content` when non-empty, else its `src`. With neither element there is no thumbnail URL. |
| IclSource.OgImageHidesImages | ICLScript.js:194 | With an `og:image` element, the other images play no part, even when its `content` is empty. |
| IclSource.Title | ICLScript.js:188-189 | The title is the trimmed heading, or "Unknown Title" when there is no heading. Either way it is trimmed. |
| IclSource.DetailsFromPage | ICLScript.js:279-298 | The page yields details exactly when it yields a source, and "Could not find video source on page" otherwise. The details carry the selected sources. Their id and `url` are the requested URL. Title and description are trimmed. The description is the trimmed description block, or `""` when the page has none. The rating is 0. |
| IclSource.DetailsAgreeWithListing | ICLScript.js:285-288 | Details fetched from a listed item's URL carry that item's id, URL and author. |
| IclSource.DetailsExactly | ICLScript.js:279-281 | Details are produced exactly when the page has a usable `<video>` or iframe source or some script holds an HLS, DASH or MP4 URL. |
| IclSource.Source.constructor | ICLScript.js:8 | Before `enable`, the configuration is `{}`. |
| IclSource.Source.Enable | ICLScript.js:12-21 | `enable` stores `conf ?? {}`. If querying the login status throws, it stores `{}`. |
| IclSource.Source.ParseContentFromPage | ICLScript.js:82-135 | The plugin's loop returns exactly `Listing` of the candidate elements, under the configured plugin id. |
| IclSource.Source.GetHome | ICLScript.js:61-79 | The home feed is the listing of `/entretenimento/`, or empty on any failure, including a logged-out user. It never has more pages. |
| IclSource.Source.Search | ICLScript.js:147-164 | The search result is the listing of the search page for the encoded query, or empty on any failure. It never has more pages. |
| IclSource.Source.GetContentDetails | ICLScript.js:179-304 | Every failure starts with "Failed to get content details: ". That covers the login message, the fetch's message and the missing source. Otherwise the result is the details of the fetched page. |

## Left out

- HTTP and the host bridge. The model leaves out the GET and POST requests, the
  `User-Agent` header, `bridge.isLoggedIn()`, and the POST branch of
  `makeAuthenticatedRequest`, which no caller uses. A fetch is an input
  function and the login state is a boolean.
- The DOM. `domParser.parseFromString`, CSS-selector matching and
  `textContent` are replaced by `Host.Page`, which records what each query
  finds.
- `Date.now()`. Upload dates are wall-clock values and are not modelled.
- Logging: `log` and `console.log`.
- Constant descriptors and stubs. `disable`, `saveState`,
  `getSearchCapabilities`, `getSearchChannelContentsCapabilities`,
  `getComments` and `getSubComments` only return constant descriptors or
  empty pagers.
- The listing's description. `parseContentFromPage` computes it but never
  uses it.
- The outer `try` of `parseContentFromPage`. It guards `querySelectorAll`,
  which belongs to the DOM.
- The inner per-element `catch`. Its only effect that the model keeps is
  skipping an element whose link has no `href`. That element gets
  `href == None`, as if it had no link.
- `ICLPlugin.js`, which is not part of this model. It is a configuration
  object plus one-line delegations.
- Host object wrappers: `Thumbnails`, `VideoSourceDescriptor`, `RatingLikes`,
  the durations, and the empty subtitle list. These become plain fields.
- `UriComponent.DecodeUriComponent`: accepts only the upper-case escapes that
  `EncodeUriComponent` produces. It is the inverse of the encoding, not all of
  JavaScript's `decodeURIComponent`.
- Lone UTF-16 surrogates. Dafny strings hold Unicode scalar values, while
  JavaScript strings may hold unpaired surrogates, on which
  `encodeURIComponent` throws a `URIError` that `search` would turn into an
  empty pager. That failure of the search request is not modelled.
- `Text.IsSpace`: a fixed character set, ECMAScript's white space and line
  terminators. It is not a Unicode database lookup.
