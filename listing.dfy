/**
 * What `parseContentFromPage` makes of the candidate elements of a page: one
 * video summary per element that has both a title and a link, in document
 * order. `Listing` is the specification the plugin's loop is proved against.
 */
module ContentListing {
  import opened Wrappers
  import opened Text
  import opened Host
  import opened IclUrls

  /** The author every item is credited to: the site itself. */
  function IclAuthor(pluginId: Option<string>): AuthorLink {
    AuthorLink(PlatformId(Platform, BaseUrl, pluginId), AuthorName, BaseUrl)
  }

  /** The thumbnail list for an image URL: empty, not null, when the URL is missing or empty. */
  function ThumbnailsFor(url: Option<string>): (t: seq<Thumbnail>)
    ensures t == [] <==> !Truthy(url)
    ensures t != [] ==> t == [Thumbnail(url.value, 0)]
  {
    if Truthy(url) then [Thumbnail(url.value, 0)] else []
  }

  /** An element is listed when it has a title element and a link with an `href`. */
  predicate IsListed(e: Entry) {
    e.title.Some? && e.href.Some?
  }

  /** The summary built for one listed element. */
  function EntryVideo(e: Entry, pluginId: Option<string>): (v: PlatformVideo)
    requires IsListed(e)
    ensures v.url == Absolutize(e.href.value) && v.id.value == v.url
    ensures StartsWith(v.url, "http")
    ensures v.id.platform == Platform && v.id.pluginId == pluginId
    ensures v.name == Trim(e.title.value)
    ensures v.thumbnails == ThumbnailsFor(e.imgSrc)
    ensures v.author == IclAuthor(pluginId)
    ensures !v.isLive && v.duration == 0 && v.viewCount == 0
  {
    var fullUrl := Absolutize(e.href.value);
    PlatformVideo(
      PlatformId(Platform, fullUrl, pluginId),
      Trim(e.title.value),
      ThumbnailsFor(e.imgSrc),
      IclAuthor(pluginId),
      0, 0, fullUrl, false)
  }

  /** What one element contributes: its summary if it is listed, else nothing. */
  function ItemsOf(e: Entry, pluginId: Option<string>): (r: seq<PlatformVideo>)
    ensures |r| <= 1
    ensures r != [] <==> IsListed(e)
    ensures r != [] ==> r[0] == EntryVideo(e, pluginId)
  {
    if IsListed(e) then [EntryVideo(e, pluginId)] else []
  }

  /** The summaries of the listed elements, in document order. */
  function Listing(entries: seq<Entry>, pluginId: Option<string>): (r: seq<PlatformVideo>)
    ensures |r| <= |entries|
  {
    if entries == [] then []
    else ItemsOf(entries[0], pluginId) + Listing(entries[1..], pluginId)
  }

  /**
   * The listing of two runs of elements is the listing of the first followed
   * by that of the second: items keep the order of their elements.
   */
  lemma {:induction false} ListingAppend(a: seq<Entry>, b: seq<Entry>, pluginId: Option<string>)
    ensures Listing(a + b, pluginId) == Listing(a, pluginId) + Listing(b, pluginId)
  {
    if a == [] {
      assert a + b == b;
    } else {
      var head := ItemsOf(a[0], pluginId);
      assert (a + b)[0] == a[0];
      assert (a + b)[1..] == a[1..] + b;
      calc {
        Listing(a + b, pluginId);
        head + Listing(a[1..] + b, pluginId);
        { ListingAppend(a[1..], b, pluginId); }
        head + (Listing(a[1..], pluginId) + Listing(b, pluginId));
        Listing(a, pluginId) + Listing(b, pluginId);
      }
    }
  }

  /** One element gives its summary when it is listed and nothing otherwise. */
  lemma ListingOne(e: Entry, pluginId: Option<string>)
    ensures Listing([e], pluginId) == ItemsOf(e, pluginId)
  {
    assert [e][1..] == [];
  }

  /** Reading one more element adds what that element contributes. */
  lemma ListingStep(entries: seq<Entry>, i: nat, pluginId: Option<string>)
    requires i < |entries|
    ensures Listing(entries[..i + 1], pluginId) == Listing(entries[..i], pluginId) + ItemsOf(entries[i], pluginId)
  {
    ListingAppend(entries[..i], [entries[i]], pluginId);
    ListingOne(entries[i], pluginId);
    assert entries[..i + 1] == entries[..i] + [entries[i]];
  }

  /**
   * Each item is the summary of a listed element of the page, and every listed
   * element gives an item: nothing is invented and nothing listed is lost.
   */
  lemma {:induction false} ListingExact(entries: seq<Entry>, pluginId: Option<string>)
    ensures forall v :: v in Listing(entries, pluginId) ==>
      exists e :: e in entries && IsListed(e) && v == EntryVideo(e, pluginId)
    ensures forall e :: e in entries && IsListed(e) ==> EntryVideo(e, pluginId) in Listing(entries, pluginId)
  {
    if entries != [] {
      ListingExact(entries[1..], pluginId);
      forall e | e in entries && IsListed(e)
        ensures EntryVideo(e, pluginId) in Listing(entries, pluginId)
      {
        if e != entries[0] {
          assert e in entries[1..];
        }
      }
      forall v | v in Listing(entries, pluginId)
        ensures exists e :: e in entries && IsListed(e) && v == EntryVideo(e, pluginId)
      {
        if v !in Listing(entries[1..], pluginId) {
          assert IsListed(entries[0]) && v == EntryVideo(entries[0], pluginId);
        } else {
          var e :| e in entries[1..] && IsListed(e) && v == EntryVideo(e, pluginId);
          assert e in entries;
        }
      }
    }
  }

  /**
   * Every item links to an absolute URL, which is also its id, and none is
   * live.
   */
  lemma ListingItemsShape(entries: seq<Entry>, pluginId: Option<string>)
    ensures forall v :: v in Listing(entries, pluginId) ==>
      StartsWith(v.url, "http") && v.id.value == v.url && !v.isLive
  {
    ListingExact(entries, pluginId);
  }

  /** Every element is listed exactly when each one gives an item. */
  lemma {:induction false} ListingKeepsAll(entries: seq<Entry>, pluginId: Option<string>)
    ensures |Listing(entries, pluginId)| == |entries| <==> forall i :: 0 <= i < |entries| ==> IsListed(entries[i])
  {
    if entries != [] {
      var rest := entries[1..];
      ListingKeepsAll(rest, pluginId);
      if forall i :: 0 <= i < |entries| ==> IsListed(entries[i]) {
        forall i | 0 <= i < |rest| ensures IsListed(rest[i]) {
          assert rest[i] == entries[i + 1];
        }
      } else {
        var i :| 0 <= i < |entries| && !IsListed(entries[i]);
        if i > 0 {
          assert rest[i - 1] == entries[i];
        }
      }
    }
  }
}
