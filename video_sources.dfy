/**
 * How `getContentDetails` chooses the video sources of a page: the `<video>`
 * element (or, when the page has none, the player iframe) gives at most one
 * source; then every script, in document order, adds its HLS and its DASH URL;
 * a script's MP4 URL is taken only while nothing has been found yet.
 *
 * `PageSources` states the outcome declaratively: the element's source, then
 * the MP4 fallback (only when there is no element source), then all the
 * streaming sources of the scripts. `CollectVideoSources` is the plugin's
 * loop, proved to compute it.
 */
module VideoSources {
  import opened Wrappers
  import opened Text
  import opened Host
  import opened IclUrls
  import opened UrlScanner

  /** A `VideoUrlSource` as the plugin builds it: 1920x1080 H.264 MP4. */
  function DirectSource(url: string, name: string): VideoSource {
    UrlSource(url, 1920, 1080, "video/mp4", "h264", name, 0)
  }

  /** The source the `<video>` element gives or, when there is no `<video>` element, the player iframe. */
  function ElementSources(video: Option<Tag>, iframe: Option<Tag>): (r: seq<VideoSource>)
    ensures |r| <= 1
    ensures video.Some? ==> (r != [] <==> Truthy(video.value.src))
    ensures video.None? ==> (r != [] <==> iframe.Some? && Truthy(iframe.value.src))
    ensures r != [] ==> r[0].UrlSource? && StartsWith(r[0].url, "http")
    ensures r != [] && video.Some? ==> r[0] == DirectSource(Absolutize(video.value.src.value), "Direct")
    ensures r != [] && video.None? ==> r[0] == DirectSource(Absolutize(iframe.value.src.value), "Embed")
  {
    if video.Some? then
      (if Truthy(video.value.src) then [DirectSource(Absolutize(video.value.src.value), "Direct")] else [])
    else if iframe.Some? && Truthy(iframe.value.src) then
      [DirectSource(Absolutize(iframe.value.src.value), "Embed")]
    else []
  }

  /** A `<video>` element, even one without a `src`, hides the iframe. */
  lemma VideoElementHidesIframe(video: Tag, iframe1: Option<Tag>, iframe2: Option<Tag>)
    ensures ElementSources(Some(video), iframe1) == ElementSources(Some(video), iframe2)
  {
  }

  /** What one script offers: its first HLS, DASH and MP4 URL, each if any. */
  datatype Offer = Offer(hls: Option<string>, dash: Option<string>, mp4: Option<string>)

  /** The three scans of one script. */
  function OfferOf(script: string): Offer {
    Offer(Scan(script, M3u8), Scan(script, Mpd), Scan(script, Mp4))
  }

  /** The offers of the scripts, in document order. */
  function Offers(scripts: seq<string>): (r: seq<Offer>)
    ensures |r| == |scripts|
  {
    if scripts == [] then [] else [OfferOf(scripts[0])] + Offers(scripts[1..])
  }

  /** A sequence that holds the offer of each script, in order, is their offers. */
  lemma {:induction false} OffersOfEach(scripts: seq<string>, seen: seq<Offer>)
    requires |seen| == |scripts|
    requires forall k :: 0 <= k < |seen| ==> seen[k] == OfferOf(scripts[k])
    ensures seen == Offers(scripts)
  {
    if scripts != [] {
      OffersOfEach(scripts[1..], seen[1..]);
    }
  }

  /**
   * The three scans of one script, as the loop performs them. `OfferOf` is the
   * same computation as a function; this method keeps the scanner's
   * definitions out of the loop's proof obligations, which see only the
   * ensures below.
   */
  method ReadOffer(scriptContent: string) returns (o: Offer)
    ensures o == OfferOf(scriptContent)
  {
    var hlsMatch := Scan(scriptContent, M3u8);
    var dashMatch := Scan(scriptContent, Mpd);
    var mp4Match := Scan(scriptContent, Mp4);
    o := Offer(hlsMatch, dashMatch, mp4Match);
  }

  /** The HLS source, then the DASH source, that one script offers. */
  function Streams(o: Offer): (r: seq<VideoSource>)
    ensures |r| <= 2
    ensures forall v :: v in r ==> v.HlsSource? || v.DashSource?
  {
    (if o.hls.Some? then [HlsSource("HLS", o.hls.value)] else [])
    + (if o.dash.Some? then [DashSource("DASH", o.dash.value)] else [])
  }

  /** A script that offers no URL of any of the three kinds. */
  predicate IsSilent(o: Offer) {
    o.hls.None? && o.dash.None? && o.mp4.None?
  }

  /** The streaming sources of all scripts, in document order. */
  function StreamSources(offers: seq<Offer>): seq<VideoSource> {
    if offers == [] then [] else Streams(offers[0]) + StreamSources(offers[1..])
  }

  /**
   * The MP4 URL the scripts fall back to: that of the first script offering
   * any URL, when what it offers is an MP4 URL alone.
   */
  function Mp4Fallback(offers: seq<Offer>): Option<string> {
    if offers == [] then None
    else if Streams(offers[0]) != [] then None
    else if offers[0].mp4.Some? then offers[0].mp4
    else Mp4Fallback(offers[1..])
  }

  /** The list of sources, given what the video element or iframe contributed. */
  function SelectedSources(initial: seq<VideoSource>, offers: seq<Offer>): seq<VideoSource> {
    if initial == [] then
      (match Mp4Fallback(offers) case Some(u) => [DirectSource(u, "Direct")] case None => [])
      + StreamSources(offers)
    else initial + StreamSources(offers)
  }

  /** The sources `getContentDetails` offers for a page. */
  function PageSources(page: Page): seq<VideoSource> {
    SelectedSources(ElementSources(page.video, page.iframe), Offers(page.scripts))
  }

  lemma {:induction false} StreamSourcesSnoc(offers: seq<Offer>, o: Offer)
    ensures StreamSources(offers + [o]) == StreamSources(offers) + Streams(o)
  {
    if offers == [] {
      assert [o][1..] == [];
    } else {
      assert (offers + [o])[1..] == offers[1..] + [o];
      StreamSourcesSnoc(offers[1..], o);
    }
  }

  lemma {:induction false} Mp4FallbackSnoc(offers: seq<Offer>, o: Offer)
    ensures Mp4Fallback(offers + [o]) ==
      if Mp4Fallback(offers).Some? || StreamSources(offers) != [] then Mp4Fallback(offers)
      else if Streams(o) == [] then o.mp4
      else None
  {
    if offers == [] {
      assert [o][1..] == [];
    } else {
      assert (offers + [o])[0] == offers[0];
      assert (offers + [o])[1..] == offers[1..] + [o];
      Mp4FallbackSnoc(offers[1..], o);
    }
  }

  /**
   * One turn of the plugin's loop: add the script's HLS and DASH sources, then
   * its MP4 source if the list is still empty.
   */
  function AddOffer(sources: seq<VideoSource>, o: Offer): seq<VideoSource> {
    var found := sources + Streams(o);
    if found == [] && o.mp4.Some? then [DirectSource(o.mp4.value, "Direct")] else found
  }

  /** One more script changes the selection exactly as one turn of the plugin's loop does. */
  lemma SelectedSourcesSnoc(initial: seq<VideoSource>, offers: seq<Offer>, o: Offer)
    ensures SelectedSources(initial, offers + [o]) == AddOffer(SelectedSources(initial, offers), o)
  {
    StreamSourcesSnoc(offers, o);
    Mp4FallbackSnoc(offers, o);
  }

  /** The pushes of one turn of the plugin's loop. */
  method PushOfferSources(sources: seq<VideoSource>, offer: Offer) returns (r: seq<VideoSource>)
    ensures r == AddOffer(sources, offer)
  {
    r := sources;
    if offer.hls.Some? {
      r := r + [HlsSource("HLS", offer.hls.value)];
    }
    if offer.dash.Some? {
      r := r + [DashSource("DASH", offer.dash.value)];
    }
    if offer.mp4.Some? && |r| == 0 {
      r := r + [DirectSource(offer.mp4.value, "Direct")];
    }
  }

  /** The plugin's loop: the element source, then the scripts in document order. */
  method CollectVideoSources(page: Page) returns (sources: seq<VideoSource>)
    ensures sources == PageSources(page)
  {
    sources := [];
    if page.video.Some? {
      var videoUrl := page.video.value.src;
      if Truthy(videoUrl) {
        sources := sources + [DirectSource(Absolutize(videoUrl.value), "Direct")];
      }
    } else if page.iframe.Some? {
      var embedUrl := page.iframe.value.src;
      if Truthy(embedUrl) {
        sources := sources + [DirectSource(Absolutize(embedUrl.value), "Embed")];
      }
    }
    ghost var initial := sources;
    assert initial == ElementSources(page.video, page.iframe);
    var scripts := page.scripts;
    ghost var seen: seq<Offer> := [];
    var i := 0;
    while i < |scripts|
      invariant 0 <= i <= |scripts| && |seen| == i
      invariant forall k :: 0 <= k < i ==> seen[k] == OfferOf(scripts[k])
      invariant sources == SelectedSources(initial, seen)
    {
      var offer := ReadOffer(scripts[i]);
      SelectedSourcesSnoc(initial, seen, offer);
      sources := PushOfferSources(sources, offer);
      seen := seen + [offer];
      i := i + 1;
    }
    OffersOfEach(scripts, seen);
  }

  /** Every streaming source collected from scripts is an HLS or DASH source. */
  lemma {:induction false} StreamSourcesAreStreams(offers: seq<Offer>)
    ensures forall v :: v in StreamSources(offers) ==> v.HlsSource? || v.DashSource?
  {
    if offers != [] {
      StreamSourcesAreStreams(offers[1..]);
    }
  }

  /** Every script before `j` is silent, and script `j` offers the MP4 URL `u` and no streaming URL. */
  predicate FallsBackAt(offers: seq<Offer>, j: nat, u: string) {
    j < |offers| && (forall i :: 0 <= i < j ==> IsSilent(offers[i]))
    && Streams(offers[j]) == [] && offers[j].mp4 == Some(u)
  }

  /**
   * The MP4 fallback is the MP4 URL of script `j` exactly when every script
   * before `j` is silent and script `j` offers an MP4 URL but no HLS or DASH one.
   */
  lemma {:induction false} Mp4FallbackExact(offers: seq<Offer>, u: string)
    ensures Mp4Fallback(offers) == Some(u) <==> exists j: nat :: FallsBackAt(offers, j, u)
  {
    if offers != [] {
      Mp4FallbackExact(offers[1..], u);
      var tail := offers[1..];
      if j: nat :| FallsBackAt(offers, j, u) {
        if j > 0 {
          assert IsSilent(offers[0]);
          forall i | 0 <= i < j - 1 ensures IsSilent(tail[i]) {
            assert tail[i] == offers[i + 1];
          }
          assert tail[j - 1] == offers[j];
          assert FallsBackAt(tail, j - 1, u);
        } else {
          assert Mp4Fallback(offers) == Some(u);
        }
      }
      if Mp4Fallback(offers) == Some(u) {
        if Streams(offers[0]) == [] && offers[0].mp4.None? {
          var j: nat :| FallsBackAt(tail, j, u);
          assert IsSilent(offers[0]);
          forall i | 0 <= i < j + 1 ensures IsSilent(offers[i]) {
            if i > 0 {
              assert offers[i] == tail[i - 1];
            }
          }
          assert offers[j + 1] == tail[j];
          assert FallsBackAt(offers, j + 1, u);
        } else {
          assert FallsBackAt(offers, 0, u);
        }
      }
    }
  }

  /** Nothing is found in the scripts exactly when every script is silent. */
  lemma {:induction false} ScriptsFindNothing(offers: seq<Offer>)
    ensures (StreamSources(offers) == [] && Mp4Fallback(offers).None?)
      <==> forall i :: 0 <= i < |offers| ==> IsSilent(offers[i])
  {
    if offers != [] {
      ScriptsFindNothing(offers[1..]);
      assert forall i :: 1 <= i < |offers| ==> offers[i] == offers[1..][i - 1];
      assert (forall i :: 0 <= i < |offers| ==> IsSilent(offers[i]))
        <==> IsSilent(offers[0]) && forall i :: 0 <= i < |offers[1..]| ==> IsSilent(offers[1..][i]);
    }
  }

  /**
   * The shape of the list: only the first source may be a direct file (the
   * element's or the MP4 fallback); the MP4 fallback is used only when the
   * element gave nothing; every later source is HLS or DASH.
   */
  lemma SelectedSourcesShape(initial: seq<VideoSource>, offers: seq<Offer>)
    requires |initial| <= 1
    ensures var r := SelectedSources(initial, offers);
      (forall i :: 1 <= i < |r| ==> r[i].HlsSource? || r[i].DashSource?)
      && (initial != [] ==> r == initial + StreamSources(offers))
      && (initial == [] && r != [] && r[0].UrlSource? ==>
            Mp4Fallback(offers).Some? && r[0] == DirectSource(Mp4Fallback(offers).value, "Direct"))
  {
    var r := SelectedSources(initial, offers);
    var streams := StreamSources(offers);
    StreamSourcesAreStreams(offers);
    forall i | 1 <= i < |r| ensures r[i].HlsSource? || r[i].DashSource? {
      assert |r| - |streams| <= 1;
      assert r[i] == streams[i - (|r| - |streams|)];
      assert r[i] in streams;
    }
    if initial == [] && r != [] && Mp4Fallback(offers).None? {
      assert r == streams;
      assert r[0] in streams;
    }
  }

  /** The shape of the list a page gives. */
  lemma PageSourcesShape(page: Page)
    ensures var r := PageSources(page);
      var element := ElementSources(page.video, page.iframe);
      var offers := Offers(page.scripts);
      (forall i :: 1 <= i < |r| ==> r[i].HlsSource? || r[i].DashSource?)
      && (element != [] ==> r == element + StreamSources(offers))
      && (element == [] && r != [] && r[0].UrlSource? ==>
            Mp4Fallback(offers).Some? && r[0] == DirectSource(Mp4Fallback(offers).value, "Direct"))
  {
    SelectedSourcesShape(ElementSources(page.video, page.iframe), Offers(page.scripts));
  }

  /** Nothing is selected exactly when the element gave nothing and every script is silent. */
  lemma NothingSelected(initial: seq<VideoSource>, offers: seq<Offer>)
    ensures SelectedSources(initial, offers) == [] <==>
      initial == [] && forall i :: 0 <= i < |offers| ==> IsSilent(offers[i])
  {
    ScriptsFindNothing(offers);
  }

  /** The offers are those of each script in turn. */
  lemma {:induction false} OffersIndex(scripts: seq<string>)
    ensures forall i :: 0 <= i < |scripts| ==> Offers(scripts)[i] == OfferOf(scripts[i])
  {
    if scripts != [] {
      OffersIndex(scripts[1..]);
    }
  }

  /**
   * The hard miss: a page offers no source exactly when it has no usable video
   * element or iframe and no script offers an HLS, DASH or MP4 URL.
   */
  lemma NoSourceExactly(page: Page)
    ensures PageSources(page) == [] <==>
      ElementSources(page.video, page.iframe) == []
      && forall i :: 0 <= i < |page.scripts| ==> IsSilent(OfferOf(page.scripts[i]))
  {
    NothingSelected(ElementSources(page.video, page.iframe), Offers(page.scripts));
    OffersIndex(page.scripts);
  }
}
