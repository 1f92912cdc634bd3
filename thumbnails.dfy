/**
 * modules/thumbnail-downloader.js: the download button on each thumbnail, the
 * fallbacks that find a container's video identifier and title, and the batch
 * download of every thumbnail on the page.
 *
 * The network is a parameter: a response is `None` when the fetch fails or
 * answers with an error status, and `Some(webp)` when a blob arrives, `webp`
 * telling whether its type is `image/webp`. A container in `p.faults` throws
 * when it is inspected, as in the extractor.
 */
module Thumbnails {
  import opened Wrappers
  import opened Text
  import opened Dom
  import opened Ui
  import opened Affordances
  import opened ThumbnailText

  // ---------------------------------------------------------------------------
  // The link patterns of extractVideoId

  const WatchLink: Selector := "a[href*=\"/watch?v=\"]"
  const ParamLink: Selector := "a[href*=\"v=\"]"

  predicate NotAmp(c: char) {
    c != '&'
  }

  /** `/\/watch\?v=([^&]+)/` matches at `i`. */
  predicate WatchAt(s: string, i: nat) {
    StartsAt(s, i, "/watch?v=") && RunEnd(s, i + 9, NotAmp) > i + 9
  }

  /** `/[?&]v=([^&]+)/` matches at `i`. */
  predicate ParamAt(s: string, i: nat) {
    i + 3 <= |s| && (s[i] == '?' || s[i] == '&') && s[i + 1] == 'v' && s[i + 2] == '='
    && RunEnd(s, i + 3, NotAmp) > i + 3
  }

  /** The `[^&]+` capture that starts at `j`. */
  function AmpFreeRun(s: string, j: nat): (r: string)
    requires j <= |s|
    ensures forall k :: 0 <= k < |r| ==> r[k] != '&'
  {
    s[j..RunEnd(s, j, NotAmp)]
  }

  predicate AmpFree(s: string) {
    forall k :: 0 <= k < |s| ==> s[k] != '&'
  }

  function FirstWatchFrom(s: string, lo: nat): (m: Option<nat>)
    ensures m.Some? ==> lo <= m.value < |s| && WatchAt(s, m.value)
    ensures m.Some? ==> forall j :: lo <= j < m.value ==> !WatchAt(s, j)
    ensures m.None? ==> forall j :: lo <= j < |s| ==> !WatchAt(s, j)
    decreases |s| - lo
  {
    if lo >= |s| then None
    else if WatchAt(s, lo) then Some(lo)
    else FirstWatchFrom(s, lo + 1)
  }

  function FirstParamFrom(s: string, lo: nat): (m: Option<nat>)
    ensures m.Some? ==> lo <= m.value < |s| && ParamAt(s, m.value)
    ensures m.Some? ==> forall j :: lo <= j < m.value ==> !ParamAt(s, j)
    ensures m.None? ==> forall j :: lo <= j < |s| ==> !ParamAt(s, j)
    decreases |s| - lo
  {
    if lo >= |s| then None
    else if ParamAt(s, lo) then Some(lo)
    else FirstParamFrom(s, lo + 1)
  }

  /** `href.match(/\/watch\?v=([^&]+)/)?.[1]`: the capture of the leftmost match. */
  function WatchId(href: string): (r: Option<string>)
    ensures r.None? <==> forall i :: 0 <= i < |href| ==> !WatchAt(href, i)
    ensures r.Some? ==> r.value != [] && AmpFree(r.value)
  {
    match FirstWatchFrom(href, 0)
    case None => None
    case Some(i) => Some(AmpFreeRun(href, i + 9))
  }

  /** `href.match(/[?&]v=([^&]+)/)?.[1]`. */
  function ParamId(href: string): (r: Option<string>)
    ensures r.None? <==> forall i :: 0 <= i < |href| ==> !ParamAt(href, i)
    ensures r.Some? ==> r.value != [] && AmpFree(r.value)
  {
    match FirstParamFrom(href, 0)
    case None => None
    case Some(i) => Some(AmpFreeRun(href, i + 3))
  }

  /** The run of `[^&]` starting at `j` stops at the end of the text or at an `&`. */
  lemma AmpRunAfter(s: string, j: nat, id: string, rest: string)
    requires j + |id| + |rest| == |s| && s[j..j + |id|] == id && s[j + |id|..] == rest
    requires AmpFree(id) && (rest == [] || rest[0] == '&')
    ensures AmpFreeRun(s, j) == id
  {
    forall k | j <= k < j + |id| ensures NotAmp(s[k]) {
      assert s[k] == s[j..j + |id|][k - j];
    }
    if rest == [] {
      RunEndToEnd(s, j, NotAmp);
    } else {
      assert s[j + |id|] == rest[0];
      RunEndStops(s, j, j + |id|, NotAmp);
    }
  }

  /** A watch link gives back its identifier, whatever parameters follow it. */
  lemma WatchIdRoundTrip(id: string, rest: string)
    requires id != [] && AmpFree(id) && (rest == [] || rest[0] == '&')
    ensures WatchId("/watch?v=" + id + rest) == Some(id)
  {
    var s := "/watch?v=" + id + rest;
    assert s[..9] == "/watch?v=";
    assert s[9..9 + |id|] == id;
    assert s[9 + |id|..] == rest;
    AmpRunAfter(s, 9, id, rest);
    assert WatchAt(s, 0);
  }

  /**
   * The first `v` parameter is found after any path without `?` or `&`, and
   * its identifier is given back.
   */
  lemma ParamIdRoundTrip(path: string, sep: char, id: string, rest: string)
    requires forall k :: 0 <= k < |path| ==> path[k] != '?' && path[k] != '&'
    requires sep == '?' || sep == '&'
    requires id != [] && AmpFree(id) && (rest == [] || rest[0] == '&')
    ensures ParamId(path + [sep] + "v=" + id + rest) == Some(id)
  {
    var s := path + [sep] + "v=" + id + rest;
    var i := |path|;
    assert s[i] == sep && s[i + 1] == 'v' && s[i + 2] == '=';
    assert s[i + 3..i + 3 + |id|] == id;
    assert s[i + 3 + |id|..] == rest;
    AmpRunAfter(s, i + 3, id, rest);
    forall j | 0 <= j < i ensures !ParamAt(s, j) {
      assert s[j] == path[j];
    }
    assert ParamAt(s, i);
    assert FirstParamFrom(s, 0) == Some(i);
  }

  // ---------------------------------------------------------------------------
  // extractVideoId

  /** Strategy 1: the identifier in the thumbnail image's source, unless it is `unknown`. */
  function ImageVideoId(p: Page, video: NodeId): (r: Option<string>)
    ensures r.Some? ==> r.value != [] && r.value != Unknown
    ensures r.Some? <==> ImageOf(p, video).Some? && Src(p, ImageOf(p, video).value) != ""
                         && ExtractVideoId(Src(p, ImageOf(p, video).value)) != Unknown
    ensures r.Some? ==> r.value == ExtractVideoId(Src(p, ImageOf(p, video).value))
  {
    match ThumbnailContainer(p, video)
    case None => None
    case Some(container) =>
      match FindImageElement(p, container)
      case None => None
      case Some(img) =>
        var src := Src(p, img);
        if src == "" then None
        else
          var id := ExtractVideoId(src);
          if id == Unknown then None else Some(id)
  }

  /** Strategy 2: the first watch link's identifier. */
  function WatchLinkId(p: Page, video: NodeId): (r: Option<string>)
    ensures r.Some? ==> r.value != []
  {
    match Query(p, WatchLink, video)
    case None => None
    case Some(link) =>
      match GetAttribute(p, link, "href")
      case None => None
      case Some(href) => WatchId(href)
  }

  /** One link of strategy 3. */
  function LinkParamId(p: Page, link: NodeId): (r: Option<string>)
    ensures r.Some? ==> r.value != []
  {
    match GetAttribute(p, link, "href")
    case None => None
    case Some(href) => ParamId(href)
  }

  /** Strategy 3: the first of `links`, from `i` on, that carries a `v` parameter. */
  function FirstLinkParamId(p: Page, links: seq<NodeId>, i: nat): (r: Option<string>)
    requires i <= |links|
    ensures r.None? <==> forall k :: i <= k < |links| ==> LinkParamId(p, links[k]).None?
    ensures r.Some? ==> r.value != []
    decreases |links| - i
  {
    if i == |links| then None
    else if LinkParamId(p, links[i]).Some? then LinkParamId(p, links[i])
    else FirstLinkParamId(p, links, i + 1)
  }

  /** Strategy 3 returns the id of the first link, from `i` on, that has one. */
  lemma {:induction false} FirstLinkParamIdFirst(p: Page, links: seq<NodeId>, i: nat)
    requires i <= |links|
    ensures FirstLinkParamId(p, links, i).Some? ==>
              exists k :: i <= k < |links| && FirstLinkParamId(p, links, i) == LinkParamId(p, links[k])
                          && forall j :: i <= j < k ==> LinkParamId(p, links[j]).None?
    decreases |links| - i
  {
    if i < |links| && LinkParamId(p, links[i]).None? {
      FirstLinkParamIdFirst(p, links, i + 1);
      if FirstLinkParamId(p, links, i).Some? {
        var k :| i + 1 <= k < |links| && FirstLinkParamId(p, links, i + 1) == LinkParamId(p, links[k])
                 && forall j :: i + 1 <= j < k ==> LinkParamId(p, links[j]).None?;
        assert forall j :: i <= j < k ==> LinkParamId(p, links[j]).None?;
      }
    }
  }

  /** extractVideoId: the three strategies in turn; `None` is the source's `null`. */
  function VideoIdFor(p: Page, video: NodeId): (r: Option<string>)
    ensures ImageVideoId(p, video).Some? ==> r == ImageVideoId(p, video)
    ensures ImageVideoId(p, video).None? && WatchLinkId(p, video).Some? ==> r == WatchLinkId(p, video)
    ensures r.None? <==> ImageVideoId(p, video).None? && WatchLinkId(p, video).None?
                         && forall k :: 0 <= k < |QueryAll(p, ParamLink, video)| ==>
                              LinkParamId(p, QueryAll(p, ParamLink, video)[k]).None?
    ensures r.Some? ==> r.value != []
  {
    ImageVideoId(p, video).Or(WatchLinkId(p, video)).Or(FirstLinkParamId(p, QueryAll(p, ParamLink, video), 0))
  }

  /** With no image id and no watch link, the id is strategy 3's: the first link with a `v` parameter. */
  lemma VideoIdForThird(p: Page, video: NodeId)
    ensures ImageVideoId(p, video).None? && WatchLinkId(p, video).None? ==>
              VideoIdFor(p, video) == FirstLinkParamId(p, QueryAll(p, ParamLink, video), 0)
  {
  }

  method ExtractVideoIdFor(p: Page, video: NodeId) returns (videoId: Option<string>)
    ensures videoId == VideoIdFor(p, video)
  {
    videoId := ImageVideoId(p, video);
    if videoId.Some? {
      return;
    }
    videoId := WatchLinkId(p, video);
    if videoId.Some? {
      return;
    }
    var allLinks := QueryAll(p, ParamLink, video);
    videoId := ScanLinks(p, allLinks);
  }

  /** The loop of strategy 3 over the links it found. */
  method ScanLinks(p: Page, allLinks: seq<NodeId>) returns (videoId: Option<string>)
    ensures videoId == FirstLinkParamId(p, allLinks, 0)
  {
    var i := 0;
    while i < |allLinks|
      invariant 0 <= i <= |allLinks|
      invariant FirstLinkParamId(p, allLinks, 0) == FirstLinkParamId(p, allLinks, i)
    {
      var found := LinkParamId(p, allLinks[i]);
      if found.Some? {
        return found;
      }
      i := i + 1;
    }
    return None;
  }

  // ---------------------------------------------------------------------------
  // extractVideoTitle

  /** A trimmed text that counts as a title: `None` when the trimmed text is empty. */
  function Nonblank(s: string): (r: Option<string>)
    ensures r.None? <==> Trim(s) == ""
    ensures r.Some? ==> r.value == Trim(s) && Trim(r.value) == r.value && r.value != ""
  {
    TrimOfTrimmed(Trim(s));
    if Trim(s) == "" then None else Some(Trim(s))
  }

  /** An attribute value that JavaScript takes as true: present and not empty. */
  function Truthy(a: Option<string>): (r: Option<string>)
    ensures r.Some? <==> a.Some? && a.value != ""
    ensures r.Some? ==> r == a
  {
    if a.Some? && a.value != "" then a else None
  }

  /** `e.textContent?.trim() || e.innerText?.trim()`, as a title. */
  function TextOrInner(p: Page, e: NodeId): (r: Option<string>)
    ensures r.Some? ==> Trim(r.value) == r.value && r.value != ""
    ensures Nonblank(TextContent(p, e)).Some? ==> r == Nonblank(TextContent(p, e))
  {
    Nonblank(TextContent(p, e)).Or(Nonblank(InnerText(p, e)))
  }

  const InnerSpan: Selector := "span.yt-core-attributed-string, span"

  /** A title element's title: its text, its inner text, else its first span's. */
  function ElementTitle(p: Page, e: NodeId): (r: Option<string>)
    ensures r.Some? ==> Trim(r.value) == r.value && r.value != ""
  {
    TextOrInner(p, e).Or(match Query(p, InnerSpan, e) case None => None case Some(span) => TextOrInner(p, span))
  }

  /** A label that counts as a title once its trailing duration is removed. */
  function LabelTitle(p: Page, link: NodeId): (r: Option<string>)
    ensures r.Some? ==> r.value != [] && Trim(r.value) == r.value
  {
    match Truthy(GetAttribute(p, link, "aria-label"))
    case None => None
    case Some(aria) => Nonblank(CleanLabel(aria))
  }

  const TitleSelectors: seq<Selector> := [
    ".yt-lockup-metadata-view-model__title",
    "a.yt-lockup-metadata-view-model__title",
    "#video-title",
    "yt-formatted-string#video-title",
    "[id=\"video-title\"]"
  ]
  const LabelledTitleLink: Selector := "a.yt-lockup-metadata-view-model__title[aria-label], a[aria-label]"
  const OldTitleLink: Selector := "#video-title-link, a[id=\"video-title-link\"]"
  const HeadingTitle: Selector := "h3 a, h3 yt-formatted-string, h3 span"
  const AnyLabelledLink: Selector := "a[aria-label]"

  /** Strategy 1: the element findTitleElement finds. */
  function TitleElementTitle(p: Page, video: NodeId): (r: Option<string>)
    ensures r.Some? ==> Trim(r.value) == r.value && r.value != ""
  {
    match FindTitleElement(p, video)
    case None => None
    case Some(t) => ElementTitle(p, t)
  }

  /** One selector of strategy 2: the title of the element it finds. */
  function SelectorHit(p: Page, video: NodeId, sel: Selector): (r: Option<string>)
    ensures r.Some? ==> Trim(r.value) == r.value && r.value != ""
  {
    match Query(p, sel, video)
    case None => None
    case Some(e) => ElementTitle(p, e)
  }

  /** The first of `xs`, from `i` on, for which `f` finds something: the loop of strategy 2. */
  function FirstFound<T, U>(xs: seq<T>, f: T -> Option<U>, i: nat): (m: Option<nat>)
    requires i <= |xs|
    ensures m.Some? ==> i <= m.value < |xs| && f(xs[m.value]).Some?
    ensures m.Some? ==> forall j :: i <= j < m.value ==> f(xs[j]).None?
    ensures m.None? <==> forall j :: i <= j < |xs| ==> f(xs[j]).None?
    decreases |xs| - i
  {
    if i == |xs| then None
    else if f(xs[i]).Some? then Some(i)
    else FirstFound(xs, f, i + 1)
  }

  function SelectorHits(p: Page, video: NodeId): Selector -> Option<string> {
    (sel: Selector) => SelectorHit(p, video, sel)
  }

  /** Strategy 2: the title of the first selector whose element yields one. */
  function SelectorTitle(p: Page, video: NodeId): (r: Option<string>)
    ensures r.Some? ==> Trim(r.value) == r.value && r.value != ""
    ensures r.None? <==> forall k :: 0 <= k < |TitleSelectors| ==> SelectorHit(p, video, TitleSelectors[k]).None?
  {
    match FirstFound(TitleSelectors, SelectorHits(p, video), 0)
    case None => None
    case Some(k) => SelectorHit(p, video, TitleSelectors[k])
  }

  /** Strategy 2 returns the hit of the first selector, in `TitleSelectors` order, that has one. */
  lemma SelectorTitleFirst(p: Page, video: NodeId)
    ensures SelectorTitle(p, video).Some? ==>
              exists k :: 0 <= k < |TitleSelectors| && SelectorTitle(p, video) == SelectorHit(p, video, TitleSelectors[k])
                          && forall j :: 0 <= j < k ==> SelectorHit(p, video, TitleSelectors[j]).None?
  {
    var m := FirstFound(TitleSelectors, SelectorHits(p, video), 0);
    if m.Some? {
      var k := m.value;
      forall j | 0 <= j < k ensures SelectorHit(p, video, TitleSelectors[j]).None? {
        assert SelectorHits(p, video)(TitleSelectors[j]).None?;
      }
    }
  }

  /** Strategy 3: the labelled title link's label, else its text. */
  function LabelledLinkTitle(p: Page, video: NodeId): (r: Option<string>)
    ensures r.Some? ==> Trim(r.value) == r.value && r.value != ""
  {
    match Query(p, LabelledTitleLink, video)
    case None => None
    case Some(link) => LabelTitle(p, link).Or(TextOrInner(p, link))
  }

  /** `cleanTitle || title.trim()`: the cleaned attribute, else the attribute trimmed, which may be `""`. */
  function AttributeTitle(t: string): (r: string)
    ensures Trim(r) == r
  {
    TrimOfTrimmed(Trim(t));
    if CleanLabel(t) != "" then CleanLabel(t) else Trim(t)
  }

  /**
   * Strategy 4: the old title link's `title` or `aria-label` attribute; once one
   * is present it is returned even when it is blank (as `""`).
   */
  function OldLinkTitle(p: Page, video: NodeId): (r: Option<string>)
    ensures r.Some? ==> Trim(r.value) == r.value
  {
    match Query(p, OldTitleLink, video)
    case None => None
    case Some(link) =>
      match Truthy(GetAttribute(p, link, "title")).Or(Truthy(GetAttribute(p, link, "aria-label")))
      case Some(t) => Some(AttributeTitle(t))
      case None => TextOrInner(p, link)
  }

  /** Strategy 5: the first heading link or text. */
  function HeadingLinkTitle(p: Page, video: NodeId): (r: Option<string>)
    ensures r.Some? ==> Trim(r.value) == r.value && r.value != ""
  {
    match Query(p, HeadingTitle, video)
    case None => None
    case Some(h) => TextOrInner(p, h)
  }

  /** Strategy 6: the first labelled link's label. */
  function AnyLinkTitle(p: Page, video: NodeId): (r: Option<string>)
    ensures r.Some? ==> Trim(r.value) == r.value && r.value != ""
  {
    match Query(p, AnyLabelledLink, video)
    case None => None
    case Some(link) => LabelTitle(p, link)
  }

  /** extractVideoTitle, with `None` for the source's `null`. */
  function TitleFor(p: Page, video: NodeId): (r: Option<string>)
    ensures r.Some? ==> Trim(r.value) == r.value
    ensures TitleElementTitle(p, video).Some? ==> r == TitleElementTitle(p, video)
    ensures r.None? <==> TitleElementTitle(p, video).None? && SelectorTitle(p, video).None?
                         && LabelledLinkTitle(p, video).None? && OldLinkTitle(p, video).None?
                         && HeadingLinkTitle(p, video).None? && AnyLinkTitle(p, video).None?
  {
    TitleElementTitle(p, video)
      .Or(SelectorTitle(p, video))
      .Or(LabelledLinkTitle(p, video))
      .Or(OldLinkTitle(p, video))
      .Or(HeadingLinkTitle(p, video))
      .Or(AnyLinkTitle(p, video))
  }

  /** Strategies 2 to 6 are tried in order: the first that finds a title decides. */
  lemma TitleForOrder(p: Page, video: NodeId)
    ensures TitleElementTitle(p, video).None? && SelectorTitle(p, video).Some? ==>
              TitleFor(p, video) == SelectorTitle(p, video)
    ensures TitleElementTitle(p, video).None? && SelectorTitle(p, video).None?
            && LabelledLinkTitle(p, video).Some? ==>
              TitleFor(p, video) == LabelledLinkTitle(p, video)
    ensures TitleElementTitle(p, video).None? && SelectorTitle(p, video).None?
            && LabelledLinkTitle(p, video).None? && OldLinkTitle(p, video).Some? ==>
              TitleFor(p, video) == OldLinkTitle(p, video)
    ensures TitleElementTitle(p, video).None? && SelectorTitle(p, video).None?
            && LabelledLinkTitle(p, video).None? && OldLinkTitle(p, video).None?
            && HeadingLinkTitle(p, video).Some? ==>
              TitleFor(p, video) == HeadingLinkTitle(p, video)
    ensures TitleElementTitle(p, video).None? && SelectorTitle(p, video).None?
            && LabelledLinkTitle(p, video).None? && OldLinkTitle(p, video).None?
            && HeadingLinkTitle(p, video).None? && AnyLinkTitle(p, video).Some? ==>
              TitleFor(p, video) == AnyLinkTitle(p, video)
  {
  }

  /** Only strategy 4 can give an empty title, and only for a blank attribute. */
  lemma EmptyTitleFromOldLink(p: Page, video: NodeId)
    requires TitleFor(p, video) == Some("")
    ensures OldLinkTitle(p, video) == Some("")
  {
  }

  method ExtractVideoTitle(p: Page, video: NodeId) returns (title: Option<string>)
    ensures title == TitleFor(p, video)
  {
    title := TitleElementTitle(p, video);
    if title.Some? {
      return;
    }
    var i := 0;
    while i < |TitleSelectors|
      invariant 0 <= i <= |TitleSelectors|
      invariant FirstFound(TitleSelectors, SelectorHits(p, video), 0) == FirstFound(TitleSelectors, SelectorHits(p, video), i)
    {
      title := SelectorHit(p, video, TitleSelectors[i]);
      if title.Some? {
        return;
      }
      i := i + 1;
    }
    title := LabelledLinkTitle(p, video).Or(OldLinkTitle(p, video)).Or(HeadingLinkTitle(p, video)).Or(AnyLinkTitle(p, video));
  }

  // ---------------------------------------------------------------------------
  // downloadThumbnail

  /**
   * A saved image: the URL it was fetched from and what downloadThumbnail
   * names it by, the button's `data-video-title` (`None` for a batch download,
   * which has no button), the title it was given and whether the blob's type
   * is `image/webp`.
   */
  datatype Download = Download(url: string, buttonTitle: Option<string>, videoTitle: Option<string>, webp: bool)

  /** The name the image is saved under. */
  function FileName(d: Download): string {
    DownloadFilename(d.url, d.buttonTitle, d.videoTitle, d.webp)
  }

  /** downloadThumbnail's outcome: the image it saves, `None` when the request fails (the source's `false`). */
  function DownloadThumbnail(imageUrl: string, buttonTitle: Option<string>, videoTitle: Option<string>,
                             response: Option<bool>): (r: Option<Download>)
    ensures r.Some? <==> response.Some?
    ensures r.Some? ==> r.value == Download(imageUrl, buttonTitle, videoTitle, response.value)
  {
    match response
    case None => None
    case Some(webp) => Some(Download(imageUrl, buttonTitle, videoTitle, webp))
  }

  // ---------------------------------------------------------------------------
  // The download buttons

  /** A button's `data-video-id` and the title its click handler saves under. */
  datatype Button = Button(videoId: string, title: Option<string>)

  /** `data-video-title`: the title, or `''`. */
  function DataTitle(b: Button): string {
    b.title.GetOr("")
  }

  /**
   * The button addThumbnailDownloadButton inserts into a container's
   * thumbnail: none when inspecting the container throws, when it has no
   * thumbnail or when no identifier is found.
   */
  function ButtonFor(p: Page, video: NodeId): (r: Option<Button>)
    ensures r.None? <==> video in p.faults || ThumbnailContainer(p, video).None? || VideoIdFor(p, video).None?
    ensures r.Some? ==> r.value == Button(VideoIdFor(p, video).value, TitleFor(p, video))
  {
    if video in p.faults || ThumbnailContainer(p, video).None? then None
    else match VideoIdFor(p, video)
      case None => None
      case Some(id) => Some(Button(id, TitleFor(p, video)))
  }

  /** A click fetches the identifier's max-resolution image and saves it as downloadThumbnail names it. */
  function Click(b: Button, response: Option<bool>): Option<Download> {
    DownloadThumbnail(BuildMaxResThumbnailUrl(b.videoId), Some(DataTitle(b)), b.title, response)
  }

  /** A click on a button saves the title's sanitized name, else `youtube-thumbnail-<id>`, as a `.jpg`. */
  lemma ClickSavesJpg(b: Button, webp: bool)
    requires b.videoId != [] && SlashFree(b.videoId)
    ensures Click(b, Some(webp)).Some?
    ensures Click(b, Some(webp)).value.url == BuildMaxResThumbnailUrl(b.videoId)
    ensures FileName(Click(b, Some(webp)).value) ==
      (if b.title.Some? && b.title.value != "" then SanitizeFilename(b.title.value)
       else "youtube-thumbnail-" + b.videoId) + ".jpg"
  {
    MaxResDownloadFilename(b.videoId, b.title, webp);
  }

  /** A watch link whose `v` value holds a slash gives that slash to the identifier. */
  lemma SlashInWatchId()
    ensures WatchId("/watch?v=ab/cd") == Some("ab/cd")
  {
    assert "/watch?v=" + "ab/cd" + "" == "/watch?v=ab/cd";
    WatchIdRoundTrip("ab/cd", "");
  }

  /**
   * The button for that identifier fetches `.../vi/ab/cd/maxresdefault.jpg`,
   * which the file-name pattern does not match: without a title the file is
   * named for an unknown video, with the extension of the blob's type.
   */
  lemma SlashIdClickName(webp: bool)
    ensures var b := Button("ab/cd", None);
      Click(b, Some(webp)).Some? &&
      FileName(Click(b, Some(webp)).value) == "youtube-thumbnail-unknown." + (if webp then "webp" else "jpg")
  {
    SlashIdUrlNoMatch();
    UnmatchedClickName(Button("ab/cd", None), webp);
  }

  /**
   * Whenever the URL a button fetches escapes the file-name pattern, an
   * untitled click names the file for an unknown video, typed by the blob.
   */
  lemma UnmatchedClickName(b: Button, webp: bool)
    requires b.title.None? && UrlMatch(BuildMaxResThumbnailUrl(b.videoId)).None?
    ensures Click(b, Some(webp)).Some?
    ensures FileName(Click(b, Some(webp)).value) == "youtube-thumbnail-unknown." + (if webp then "webp" else "jpg")
  {
    var url := BuildMaxResThumbnailUrl(b.videoId);
    var ext := if webp then "webp" else "jpg";
    assert Extension(url, webp) == ext;
    var stem := FileStem(url, Some(""), None);
    assert stem == "youtube-thumbnail-unknown";
    assert FileName(Click(b, Some(webp)).value) == stem + "." + ext;
  }

  /** The pattern can only match where `/v` starts. */
  lemma UrlMatchAtStartsWithV(s: string, j: nat)
    requires UrlMatchAt(s, j).Some?
    ensures j + 1 < |s| && s[j] == '/' && s[j + 1] == 'v'
  {
    assert s[j..j + 3][0] == s[j] && s[j..j + 3][1] == s[j + 1];
  }

  /** The file-name pattern matches nowhere in that URL. */
  lemma SlashIdUrlNoMatch()
    ensures UrlMatch(BuildMaxResThumbnailUrl("ab/cd")).None?
  {
    var url := BuildMaxResThumbnailUrl("ab/cd");
    SlashIdNoMatchAtHost();
    SlashIdUrlHasOneVi();
    forall j | 0 <= j < |url| ensures UrlMatchAt(url, j).None? {
      if UrlMatchAt(url, j).Some? {
        UrlMatchAtStartsWithV(url, j);
      }
    }
  }

  /** At the host's `/vi/` the identifier `ab` is followed by `/cd/`, not by a file name with a dot. */
  lemma SlashIdNoMatchAtHost()
    ensures UrlMatchAt(BuildMaxResThumbnailUrl("ab/cd"), 19).None?
  {
    var url := BuildMaxResThumbnailUrl("ab/cd");
    var id := url[23..28];
    var tail := url[28..];
    assert id == "ab/cd" && tail == "/maxresdefault.jpg";
    assert url[23] == id[0] && url[24] == id[1] && url[25] == id[2] && url[26] == id[3] && url[27] == id[4];
    assert url[28] == tail[0];
    RunEndStops(url, 23, 25, NotSlash);
    RunEndStops(url, 26, 28, NotDotOrSlash);
  }

  /** In that URL, `/v` occurs only where the host's `/vi/` is. */
  lemma SlashIdUrlHasOneVi()
    ensures var url := BuildMaxResThumbnailUrl("ab/cd");
      forall j :: 0 <= j < |url| - 1 && url[j] == '/' && url[j + 1] == 'v' ==> j == 19
  {
    HostHasNoVi();
    var tail := "ab/cd/maxresdefault.jpg";
    var url := ThumbnailHost + tail;
    assert url == BuildMaxResThumbnailUrl("ab/cd");
    forall k | 23 <= k < |url| ensures url[k] != 'v' {
      assert url[k] == tail[k - 23];
    }
    forall j | 0 <= j < 20 ensures url[j] == ThumbnailHost[j] {
    }
  }

  function ButtonMaker(p: Page): NodeId -> Option<Button> {
    (v: NodeId) => ButtonFor(p, v)
  }

  /** What addThumbnailDownloadButtons leaves behind, from the bookkeeping before it. */
  function ButtonPass(p: Page, m: Marks<Button>): Marks<Button> {
    Visits(m, AllVideoElements(p), ButtonMaker(p))
  }

  /** The buttons are idempotent: a second pass over the same page adds no button. */
  lemma ButtonPassIdempotent(p: Page, m: Marks<Button>)
    ensures ButtonPass(p, ButtonPass(p, m)) == ButtonPass(p, m)
  {
    VisitsIdempotent(m, AllVideoElements(p), ButtonMaker(p));
  }

  class ThumbnailDownloader {
    var processedVideos: set<NodeId>
    /** The buttons in the page, in insertion order, with the container each was appended to. */
    var buttons: seq<Attached<Button>>

    function State(): Marks<Button>
      reads this
    {
      Marks(processedVideos, buttons)
    }

    predicate Valid()
      reads this
    {
      Affordances.Valid(State())
    }

    constructor ()
      ensures processedVideos == {} && buttons == [] && Valid()
    {
      processedVideos := {};
      buttons := [];
    }

    method AddThumbnailDownloadButton(p: Page, video: NodeId)
      requires Valid()
      modifies this
      ensures State() == Visit(old(State()), video, ButtonFor(p, video))
      ensures Valid()
    {
      if video in processedVideos {
        return;
      }
      if video in p.faults {
        return;
      }
      var thumbnailContainer := FindThumbnailContainer(p, video);
      if thumbnailContainer.None? {
        return;
      }
      var videoId := ExtractVideoIdFor(p, video);
      if videoId.None? {
        return;
      }
      var videoTitle := ExtractVideoTitle(p, video);
      ghost var next := Visit(State(), video, ButtonFor(p, video));
      VisitValid(State(), video, ButtonFor(p, video));
      buttons := buttons + [Attached(video, Button(videoId.value, videoTitle))];
      processedVideos := processedVideos + {video};
      assert State() == next;
    }

    method AddThumbnailDownloadButtons(p: Page)
      requires Valid()
      modifies this
      ensures State() == ButtonPass(p, old(State())) && Valid()
    {
      var videos := FindAllVideoElements(p);
      ghost var start := State();
      var i := 0;
      while i < |videos|
        invariant 0 <= i <= |videos|
        invariant State() == Visits(start, videos[..i], ButtonMaker(p))
        invariant Valid()
      {
        VisitsStep(start, videos, i, ButtonMaker(p));
        AddThumbnailDownloadButton(p, videos[i]);
        i := i + 1;
      }
      assert videos[..i] == videos;
    }

    method RemoveAllDownloadButtons()
      modifies this
      ensures processedVideos == {} && buttons == [] && Valid()
    {
      buttons := [];
      processedVideos := {};
    }

    function GetDownloadButtonCount(): nat
      reads this
    {
      |processedVideos|
    }
  }

  /** The counter reports the buttons in the page. */
  lemma ButtonCounter(d: ThumbnailDownloader)
    requires d.Valid()
    ensures d.GetDownloadButtonCount() == |d.buttons|
  {
    CountIsSize(d.buttons);
  }

  // ---------------------------------------------------------------------------
  // downloadAllThumbnails and downloadAllThumbnailsMaxRes

  /**
   * The two batch downloads differ only in their messages; `maxRes` picks
   * downloadAllThumbnailsMaxRes's.
   */
  function Noun(maxRes: bool): string {
    if maxRes then "max resolution thumbnails" else "thumbnails"
  }

  function StartStatus(total: nat, maxRes: bool): Status {
    if maxRes then Status("Starting download of " + NatToString(total) + " max resolution thumbnails...", "info")
    else Status("Starting download of " + NatToString(total) + " thumbnails in highest quality...", "info")
  }

  function SummaryStatus(downloaded: nat, errors: nat, maxRes: bool): Status {
    if errors == 0 then Status("Downloaded " + NatToString(downloaded) + " " + Noun(maxRes) + " successfully!", "success")
    else Status("Downloaded " + NatToString(downloaded) + " " + Noun(maxRes) + ", " + NatToString(errors) + " failed.", "warning")
  }

  function FailureStatus(maxRes: bool): Status {
    Status("Error downloading " + Noun(maxRes) + ".", "error")
  }

  /**
   * The batch's state: its counters, the statuses it shows, the images it
   * requests, the files it saves, and whether an exception ended it.
   */
  datatype Batch = Batch(downloaded: nat, errors: nat, statuses: seq<Status>,
                         requests: seq<string>, saved: seq<Download>, aborted: bool)

  /**
   * What the loop finds for one container: it throws, it has no identifier,
   * or it has the max-resolution URL and the title to request it with.
   */
  datatype Item = Throws | NoId | Fetch(url: string, title: Option<string>)

  function ItemFor(p: Page, video: NodeId): Item {
    if video in p.faults then Throws
    else match VideoIdFor(p, video)
      case None => NoId
      case Some(id) => Fetch(BuildMaxResThumbnailUrl(id), TitleFor(p, video))
  }

  function ItemMaker(p: Page): NodeId -> Item {
    (v: NodeId) => ItemFor(p, v)
  }

  /** What the loop finds, container by container, with `inspect` giving each finding. */
  function Items(videos: seq<NodeId>, inspect: NodeId -> Item): (r: seq<Item>)
    ensures |r| == |videos|
    decreases |videos|
  {
    if videos == [] then [] else Items(videos[..|videos| - 1], inspect) + [inspect(videos[|videos| - 1])]
  }

  lemma {:induction false} ItemsAt(videos: seq<NodeId>, inspect: NodeId -> Item, k: nat)
    requires k < |videos|
    ensures Items(videos, inspect)[k] == inspect(videos[k])
    decreases |videos|
  {
    if k < |videos| - 1 {
      ItemsAt(videos[..|videos| - 1], inspect, k);
    }
  }

  /** One turn of the loop, for one of `total` containers, with the response to its request. */
  function BatchStep(item: Item, response: Option<bool>, total: nat, b: Batch, maxRes: bool): Batch {
    match item
    case Throws => b.(statuses := b.statuses + [FailureStatus(maxRes)], aborted := true)
    case NoId => b.(errors := b.errors + 1)
    case Fetch(url, title) =>
      var file := DownloadThumbnail(url, None, title, response);
      var downloaded := if file.Some? then b.downloaded + 1 else b.downloaded;
      var errors := if file.Some? then b.errors else b.errors + 1;
      var done := if downloaded + errors == total then [SummaryStatus(downloaded, errors, maxRes)] else [];
      Batch(downloaded, errors, b.statuses + done, b.requests + [url],
            if file.Some? then b.saved + [file.value] else b.saved, false)
  }

  /** The batch after the first `n` turns of the loop; `responses(index)` answers the `index`-th request. */
  function BatchUpTo(items: seq<Item>, n: nat, maxRes: bool, responses: nat -> Option<bool>): Batch
    requires n <= |items|
  {
    if n == 0 then Batch(0, 0, [StartStatus(|items|, maxRes)], [], [], false)
    else
      var b := BatchUpTo(items, n - 1, maxRes, responses);
      if b.aborted then b else BatchStep(items[n - 1], responses(n - 1), |items|, b, maxRes)
  }

  /** A batch download over the given containers; nothing at all happens when there are none. */
  function BatchOver(p: Page, videos: seq<NodeId>, maxRes: bool, responses: nat -> Option<bool>): Batch {
    var items := Items(videos, ItemMaker(p));
    if items == [] then Batch(0, 0, [], [], [], false)
    else BatchUpTo(items, |items|, maxRes, responses)
  }

  /** A whole batch download, over every container of the page. */
  function DownloadAll(p: Page, maxRes: bool, responses: nat -> Option<bool>): Batch {
    BatchOver(p, AllVideoElements(p), maxRes, responses)
  }

  lemma BatchUpToStep(items: seq<Item>, n: nat, maxRes: bool, responses: nat -> Option<bool>)
    requires n < |items| && !BatchUpTo(items, n, maxRes, responses).aborted
    ensures BatchUpTo(items, n + 1, maxRes, responses)
            == BatchStep(items[n], responses(n), |items|, BatchUpTo(items, n, maxRes, responses), maxRes)
  {
  }

  /** An ended batch stays as it was. */
  lemma {:induction false} AbortedStays(items: seq<Item>, n: nat, m: nat, maxRes: bool, responses: nat -> Option<bool>)
    requires n <= m <= |items| && BatchUpTo(items, n, maxRes, responses).aborted
    ensures BatchUpTo(items, m, maxRes, responses) == BatchUpTo(items, n, maxRes, responses)
    decreases m - n
  {
    if n < m {
      AbortedStays(items, n, m - 1, maxRes, responses);
    }
  }

  /** The start of turn `k`: whether container `k` throws, else its identifier and title. */
  method InspectVideo(p: Page, videos: seq<NodeId>, ghost inspect: NodeId -> Item, k: nat) returns (item: Item)
    requires forall v {:trigger ItemFor(p, v)} :: inspect(v) == ItemFor(p, v)
    requires k < |videos|
    ensures item == Items(videos, inspect)[k]
  {
    ItemsAt(videos, inspect, k);
    var video := videos[k];
    assert inspect(video) == ItemFor(p, video);
    if video in p.faults {
      return Throws;
    }
    var videoId := ExtractVideoIdFor(p, video);
    if videoId.None? {
      return NoId;
    }
    var videoTitle := ExtractVideoTitle(p, video);
    return Fetch(BuildMaxResThumbnailUrl(videoId.value), videoTitle);
  }

  /** The outer catch: the failure message, and the batch ends. */
  method Abort(b: Batch, maxRes: bool) returns (next: Batch)
    ensures forall response, total :: next == BatchStep(Throws, response, total, b, maxRes)
  {
    next := b.(statuses := b.statuses + [FailureStatus(maxRes)], aborted := true);
  }

  /**
   * The rest of a turn once the container has been inspected: the request
   * for an identifier, and the counters and the summary status.
   */
  method CountTurn(item: Item, response: Option<bool>, total: nat, b: Batch, maxRes: bool) returns (next: Batch)
    requires !item.Throws? && !b.aborted
    ensures next == BatchStep(item, response, total, b, maxRes)
  {
    var downloadedCount, errorCount, statuses, requests, saved := b.downloaded, b.errors, b.statuses, b.requests, b.saved;
    match item {
      case NoId =>
        errorCount := errorCount + 1;
      case Fetch(maxResUrl, videoTitle) =>
        requests := requests + [maxResUrl];
        var file := DownloadThumbnail(maxResUrl, None, videoTitle, response);
        if file.Some? {
          downloadedCount := downloadedCount + 1;
          saved := saved + [file.value];
        } else {
          errorCount := errorCount + 1;
        }
        if downloadedCount + errorCount == total {
          statuses := statuses + [SummaryStatus(downloadedCount, errorCount, maxRes)];
        }
    }
    next := Batch(downloadedCount, errorCount, statuses, requests, saved, false);
  }

  /** downloadAllThumbnails (and its max-resolution twin, by `maxRes`). */
  method DownloadAllThumbnails(p: Page, maxRes: bool, responses: nat -> Option<bool>) returns (b: Batch)
    ensures b == DownloadAll(p, maxRes, responses)
  {
    var videoElements := FindAllVideoElements(p);
    b := DownloadEach(p, videoElements, maxRes, responses);
  }

  /**
   * The batch loop over the containers found. The wait of `index * 100` ms
   * before each request is not modelled.
   */
  method DownloadEach(p: Page, videoElements: seq<NodeId>, maxRes: bool, responses: nat -> Option<bool>) returns (b: Batch)
    ensures b == BatchOver(p, videoElements, maxRes, responses)
  {
    if |videoElements| == 0 {
      return Batch(0, 0, [], [], [], false);
    }
    b := DownloadTurns(p, videoElements, ItemMaker(p), maxRes, responses);
  }

  /**
   * The loop itself, from the start message to the last container or the
   * first throw; `inspect` is what inspecting a container finds.
   */
  method DownloadTurns(p: Page, videoElements: seq<NodeId>, ghost inspect: NodeId -> Item, maxRes: bool,
                       responses: nat -> Option<bool>) returns (b: Batch)
    requires forall v {:trigger ItemFor(p, v)} :: inspect(v) == ItemFor(p, v)
    ensures b == BatchUpTo(Items(videoElements, inspect), |videoElements|, maxRes, responses)
  {
    ghost var items := Items(videoElements, inspect);
    var total := |videoElements|;
    b := Batch(0, 0, [StartStatus(total, maxRes)], [], [], false);
    var index := 0;
    while index < total
      invariant 0 <= index <= total == |items|
      invariant b == BatchUpTo(items, index, maxRes, responses) && !b.aborted
    {
      var item := InspectVideo(p, videoElements, inspect, index);
      BatchUpToStep(items, index, maxRes, responses);
      if item.Throws? {
        b := Abort(b, maxRes);
        AbortedStays(items, index + 1, total, maxRes, responses);
        return;
      }
      b := CountTurn(item, responses(index), total, b, maxRes);
      index := index + 1;
    }
  }

  /** The requests among the first `n` that succeed. */
  function Successes(items: seq<Item>, n: nat, responses: nat -> Option<bool>): (r: nat)
    requires n <= |items|
    ensures r <= n
  {
    if n == 0 then 0
    else Successes(items, n - 1, responses) + (if items[n - 1].Fetch? && responses(n - 1).Some? then 1 else 0)
  }

  predicate NoFaults(items: seq<Item>, n: nat)
    requires n <= |items|
  {
    forall k :: 0 <= k < n ==> !items[k].Throws?
  }

  /**
   * Only a throwing container ends a batch; otherwise every container is
   * counted once, as a download exactly when it has an identifier and its
   * request succeeds, and as an error otherwise; every saved file is counted.
   */
  lemma {:induction false} BatchCounts(items: seq<Item>, n: nat, maxRes: bool, responses: nat -> Option<bool>)
    requires n <= |items|
    ensures var b := BatchUpTo(items, n, maxRes, responses);
      (b.aborted <==> !NoFaults(items, n)) &&
      (!b.aborted ==> b.downloaded == Successes(items, n, responses)
                      && b.downloaded + b.errors == n
                      && |b.saved| == b.downloaded && |b.requests| <= n)
  {
    if n > 0 {
      BatchCounts(items, n - 1, maxRes, responses);
      if NoFaults(items, n - 1) && !items[n - 1].Throws? {
        assert NoFaults(items, n);
      }
    }
  }

  /** A turn that neither throws nor completes the batch shows nothing. */
  lemma StepKeepsStatuses(item: Item, response: Option<bool>, total: nat, b: Batch, maxRes: bool)
    requires !item.Throws?
    requires var c := BatchStep(item, response, total, b, maxRes); c.downloaded + c.errors != total
    ensures BatchStep(item, response, total, b, maxRes).statuses == b.statuses
  {
  }

  /** Before the last turn, a batch without faults shows only its starting status. */
  lemma {:induction false} StatusesBeforeEnd(items: seq<Item>, n: nat, maxRes: bool, responses: nat -> Option<bool>)
    requires n < |items| && NoFaults(items, n)
    ensures BatchUpTo(items, n, maxRes, responses).statuses == [StartStatus(|items|, maxRes)]
  {
    if n > 0 {
      assert NoFaults(items, n - 1);
      StatusesBeforeEnd(items, n - 1, maxRes, responses);
      BatchCounts(items, n - 1, maxRes, responses);
      BatchCounts(items, n, maxRes, responses);
      var b := BatchUpTo(items, n - 1, maxRes, responses);
      assert !b.aborted;
      assert BatchUpTo(items, n, maxRes, responses) == BatchStep(items[n - 1], responses(n - 1), |items|, b, maxRes);
      StepKeepsStatuses(items[n - 1], responses(n - 1), |items|, b, maxRes);
    }
  }

  /**
   * What a batch without faults shows: its starting status and, only when the
   * last container has an identifier, the summary. The completion check runs
   * only after a request, so a batch whose last container has no identifier
   * never reports its summary.
   */
  lemma BatchStatuses(items: seq<Item>, maxRes: bool, responses: nat -> Option<bool>)
    requires items != [] && NoFaults(items, |items|)
    ensures var n := |items|; var s := Successes(items, n, responses);
      BatchUpTo(items, n, maxRes, responses).statuses ==
        [StartStatus(n, maxRes)] + (if items[n - 1].Fetch? then [SummaryStatus(s, n - s, maxRes)] else [])
  {
    var n := |items|;
    assert NoFaults(items, n - 1);
    StatusesBeforeEnd(items, n - 1, maxRes, responses);
    BatchCounts(items, n, maxRes, responses);
    BatchCounts(items, n - 1, maxRes, responses);
  }

  /** The two batch downloads do the same work; only their messages differ. */
  lemma {:induction false} MaxResSameWork(items: seq<Item>, n: nat, responses: nat -> Option<bool>)
    requires n <= |items|
    ensures SameWork(BatchUpTo(items, n, false, responses), BatchUpTo(items, n, true, responses))
  {
    if n > 0 {
      MaxResSameWork(items, n - 1, responses);
      var a, b := BatchUpTo(items, n - 1, false, responses), BatchUpTo(items, n - 1, true, responses);
      if !a.aborted {
        StepSameWork(items[n - 1], responses(n - 1), |items|, a, b);
      }
    }
  }

  /** The same counts, requests, saved files and ending, and as many messages. */
  predicate SameWork(a: Batch, b: Batch) {
    a.downloaded == b.downloaded && a.errors == b.errors && a.requests == b.requests
    && a.saved == b.saved && a.aborted == b.aborted && |a.statuses| == |b.statuses|
  }

  lemma StepSameWork(item: Item, response: Option<bool>, total: nat, a: Batch, b: Batch)
    requires SameWork(a, b)
    ensures SameWork(BatchStep(item, response, total, a, false), BatchStep(item, response, total, b, true))
  {
  }

  /** A batch names an image as a click on the container's button would, for the same blob type. */
  lemma BatchFileName(p: Page, video: NodeId, webp: bool)
    requires ButtonFor(p, video).Some?
    ensures ItemFor(p, video).Fetch?
    ensures var item, b := ItemFor(p, video), ButtonFor(p, video).value;
      FileName(DownloadThumbnail(item.url, None, item.title, Some(webp)).value) == FileName(Click(b, Some(webp)).value)
  {
    var b := ButtonFor(p, video).value;
    var item := ItemFor(p, video);
    assert item == Fetch(BuildMaxResThumbnailUrl(b.videoId), b.title);
    assert FileStem(item.url, None, item.title) == FileStem(item.url, Some(DataTitle(b)), b.title);
  }
}
