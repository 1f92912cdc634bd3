/**
 * modules/video-extractor.js: one record per video container, the view-count
 * and upload-date classification of the metadata spans, the title filter, and
 * the `extractedVideos` field that "Extract Videos" leaves behind.
 */
module Extractor {
  import opened Wrappers
  import opened Text
  import opened Dom
  import opened Video
  import opened Ui

  const ErrorTitle: string := "Error extracting title"

  const TimeKeywords: seq<string> := ["ago", "day", "week", "month", "year", "hour", "minute", "second"]

  const MetaBlock: Selector := "ytd-video-meta-block"
  const MetadataLineSelector: Selector := "#metadata-line"
  const InlineItem: Selector := "span.inline-metadata-item"
  const AnySpan: Selector := "span"

  // ---------------------------------------------------------------------------
  // Classifying metadata spans

  /** `[KMB]` under the `i` flag. */
  predicate IsMagnitude(c: char) {
    c == 'K' || c == 'M' || c == 'B' || c == 'k' || c == 'm' || c == 'b'
  }

  /**
   * `/\d+[KMB]?\s*views?/i` matches at `i`. Each part is forced: the digit run
   * cannot end early (a digit would follow), and the optional magnitude letter
   * is taken whenever it is there (neither `\s` nor `v` could match it).
   */
  function ViewKeywordPos(t: string, i: nat): (c: nat)
    requires i <= |t|
    ensures i <= c <= |t|
  {
    var a := RunEnd(t, i, IsDigit);
    var b := if a < |t| && IsMagnitude(t[a]) then a + 1 else a;
    RunEnd(t, b, IsSpace)
  }

  predicate ViewPatternAt(t: string, i: nat) {
    i < |t| && IsDigit(t[i]) && StartsAt(Lower(t), ViewKeywordPos(t, i), "view")
  }

  predicate ViewPattern(t: string) {
    exists i :: 0 <= i < |t| && ViewPatternAt(t, i)
  }

  /** Which spans each loop accepts. */
  datatype Want = InlineViews | AnyViews | UploadDate

  predicate Accepts(want: Want, text: string) {
    text != "" &&
    match want
    case InlineViews => Contains(Lower(text), "view") || ViewPattern(text)
    case AnyViews => Contains(Lower(text), "view")
    case UploadDate => ContainsAny(Lower(text), TimeKeywords)
  }

  /** The view-count pattern only matches text that already contains "view". */
  lemma ViewPatternHasView(t: string)
    requires ViewPattern(t)
    ensures Contains(Lower(t), "view")
  {
    var i :| 0 <= i < |t| && ViewPatternAt(t, i);
    var c := ViewKeywordPos(t, i);
    assert 0 <= c <= |Lower(t)| && StartsAt(Lower(t), c, "view");
  }

  /** The view-count pattern adds no case: the inline loop accepts exactly the texts containing "view". */
  lemma InlineViewsByKeyword(t: string)
    ensures Accepts(InlineViews, t) <==> Accepts(AnyViews, t)
  {
    if ViewPattern(t) {
      ViewPatternHasView(t);
    }
  }

  /** A span's text as the loops read it: `span.textContent.trim()`. */
  function SpanText(p: Page, n: NodeId): (r: string)
    ensures r == [] || (!IsSpace(r[0]) && !IsSpace(r[|r| - 1]))
  {
    Trim(TextContent(p, n))
  }

  /** The spans' texts, in document order. */
  function SpanTexts(p: Page, spans: seq<NodeId>): (r: seq<string>)
    ensures |r| == |spans| && forall k :: 0 <= k < |spans| ==> r[k] == SpanText(p, spans[k])
  {
    seq(|spans|, k requires 0 <= k < |spans| => SpanText(p, spans[k]))
  }

  /** The position of the first text, from `i` on, that `accept` takes. */
  function FirstAccepted(texts: seq<string>, accept: string -> bool, i: nat): (r: Option<nat>)
    requires i <= |texts|
    ensures r.None? <==> forall k :: i <= k < |texts| ==> !accept(texts[k])
    ensures r.Some? ==> i <= r.value < |texts| && accept(texts[r.value])
    ensures r.Some? ==> forall k :: i <= k < r.value ==> !accept(texts[k])
    decreases |texts| - i
  {
    if i == |texts| then None
    else if accept(texts[i]) then Some(i)
    else FirstAccepted(texts, accept, i + 1)
  }

  function Acceptor(want: Want): string -> bool {
    (t: string) => Accepts(want, t)
  }

  /** The text of the first span the loop accepts, which is what the loop returns. */
  function FirstText(p: Page, spans: seq<NodeId>, want: Want): (r: Option<string>)
    ensures r.None? <==> forall k :: 0 <= k < |spans| ==> !Accepts(want, SpanText(p, spans[k]))
    ensures r.Some? ==> Accepts(want, r.value)
    ensures r.Some? ==> exists k :: 0 <= k < |spans| && r.value == SpanText(p, spans[k])
                          && forall j :: 0 <= j < k ==> !Accepts(want, SpanText(p, spans[j]))
  {
    var texts := SpanTexts(p, spans);
    match FirstAccepted(texts, Acceptor(want), 0)
    case None => None
    case Some(k) => Some(texts[k])
  }

  /** The first accepted span's text is what the scan returns. */
  lemma FirstTextAt(p: Page, spans: seq<NodeId>, want: Want, k: nat)
    requires k < |spans| && Accepts(want, SpanText(p, spans[k]))
    requires forall j :: 0 <= j < k ==> !Accepts(want, SpanText(p, spans[j]))
    ensures FirstText(p, spans, want) == Some(SpanText(p, spans[k]))
  {
  }

  lemma {:induction false} FirstAcceptedByKeyword(texts: seq<string>, i: nat)
    requires i <= |texts|
    ensures FirstAccepted(texts, Acceptor(InlineViews), i) == FirstAccepted(texts, Acceptor(AnyViews), i)
    decreases |texts| - i
  {
    if i < |texts| {
      InlineViewsByKeyword(texts[i]);
      FirstAcceptedByKeyword(texts, i + 1);
    }
  }

  lemma FirstTextViewsByKeyword(p: Page, spans: seq<NodeId>)
    ensures FirstText(p, spans, InlineViews) == FirstText(p, spans, AnyViews)
  {
    FirstAcceptedByKeyword(SpanTexts(p, spans), 0);
  }

  /** `video.querySelector('ytd-video-meta-block')`, then its `#metadata-line`. */
  function MetadataLine(p: Page, video: NodeId): Option<NodeId> {
    match Query(p, MetaBlock, video)
    case None => None
    case Some(block) => Query(p, MetadataLineSelector, block)
  }

  /** extractViews: an inline item mentioning views, else any span doing so, else `N/A`. */
  function ExtractViews(p: Page, video: NodeId): (r: string)
    ensures MetadataLine(p, video).None? ==> r == NotAvailable
    ensures r == NotAvailable || Contains(Lower(r), "view")
  {
    match MetadataLine(p, video)
    case None => NotAvailable
    case Some(line) =>
      match FirstText(p, QueryAll(p, InlineItem, line), InlineViews)
      case Some(t) => InlineViewsByKeyword(t); t
      case None => FirstText(p, QueryAll(p, AnySpan, line), AnyViews).GetOr(NotAvailable)
  }

  /**
   * The view count is found by the keyword alone: the first inline item whose
   * lower-cased text contains "view", else the first such span of any kind.
   */
  lemma ExtractViewsByKeyword(p: Page, video: NodeId)
    ensures MetadataLine(p, video).Some? ==>
      var line := MetadataLine(p, video).value;
      ExtractViews(p, video) ==
        match FirstText(p, QueryAll(p, InlineItem, line), AnyViews)
        case Some(t) => t
        case None => FirstText(p, QueryAll(p, AnySpan, line), AnyViews).GetOr(NotAvailable)
  {
    if MetadataLine(p, video).Some? {
      FirstTextViewsByKeyword(p, QueryAll(p, InlineItem, MetadataLine(p, video).value));
    }
  }

  /** extractUploadDate: an inline item with a time keyword, else any span with one, else `N/A`. */
  function ExtractUploadDate(p: Page, video: NodeId): (r: string)
    ensures MetadataLine(p, video).None? ==> r == NotAvailable
    ensures r == NotAvailable || ContainsAny(Lower(r), TimeKeywords)
  {
    match MetadataLine(p, video)
    case None => NotAvailable
    case Some(line) =>
      match FirstText(p, QueryAll(p, InlineItem, line), UploadDate)
      case Some(t) => t
      case None => FirstText(p, QueryAll(p, AnySpan, line), UploadDate).GetOr(NotAvailable)
  }

  /** The upload date is the first inline item with a time keyword. */
  lemma UploadDateFromInline(p: Page, video: NodeId, k: nat)
    requires MetadataLine(p, video).Some?
    requires var items := QueryAll(p, InlineItem, MetadataLine(p, video).value);
      k < |items| && Accepts(UploadDate, SpanText(p, items[k]))
      && forall j :: 0 <= j < k ==> !Accepts(UploadDate, SpanText(p, items[j]))
    ensures ExtractUploadDate(p, video) == SpanText(p, QueryAll(p, InlineItem, MetadataLine(p, video).value)[k])
  {
    FirstTextAt(p, QueryAll(p, InlineItem, MetadataLine(p, video).value), UploadDate, k);
  }

  /** With no inline item to take, the upload date is the first span of any kind with a time keyword. */
  lemma UploadDateFromSpans(p: Page, video: NodeId, k: nat)
    requires MetadataLine(p, video).Some?
    requires var items := QueryAll(p, InlineItem, MetadataLine(p, video).value);
      forall i :: 0 <= i < |items| ==> !Accepts(UploadDate, SpanText(p, items[i]))
    requires var spans := QueryAll(p, AnySpan, MetadataLine(p, video).value);
      k < |spans| && Accepts(UploadDate, SpanText(p, spans[k]))
      && forall j :: 0 <= j < k ==> !Accepts(UploadDate, SpanText(p, spans[j]))
    ensures ExtractUploadDate(p, video) == SpanText(p, QueryAll(p, AnySpan, MetadataLine(p, video).value)[k])
  {
    var line := MetadataLine(p, video).value;
    assert FirstText(p, QueryAll(p, InlineItem, line), UploadDate).None?;
    FirstTextAt(p, QueryAll(p, AnySpan, line), UploadDate, k);
  }

  /** With no span to take, the upload date is `N/A`. */
  lemma UploadDateMissing(p: Page, video: NodeId)
    requires MetadataLine(p, video).Some?
    requires var items := QueryAll(p, InlineItem, MetadataLine(p, video).value);
      forall i :: 0 <= i < |items| ==> !Accepts(UploadDate, SpanText(p, items[i]))
    requires var spans := QueryAll(p, AnySpan, MetadataLine(p, video).value);
      forall i :: 0 <= i < |spans| ==> !Accepts(UploadDate, SpanText(p, spans[i]))
    ensures ExtractUploadDate(p, video) == NotAvailable
  {
  }

  // ---------------------------------------------------------------------------
  // extractVideoData

  function ErrorRecord(video: NodeId): VideoRecord {
    VideoRecord(ErrorTitle, NotAvailable, NotAvailable, "", video)
  }

  /** The title element's trimmed text, or empty without a title element. */
  function TitleText(p: Page, video: NodeId): (r: string)
    ensures Trim(r) == r
    ensures FindTitleElement(p, video).None? ==> r == ""
    ensures FindTitleElement(p, video).Some? ==> r == Trim(TextContent(p, FindTitleElement(p, video).value))
  {
    match FindTitleElement(p, video)
    case None => ""
    case Some(t) => TrimOfTrimmed(Trim(TextContent(p, t))); Trim(TextContent(p, t))
  }

  /** The identifier read from the thumbnail image's `src`, or empty without an image. */
  function VideoIdOf(p: Page, video: NodeId): (r: string)
    ensures r == "" <==> ImageOf(p, video).None?
    ensures ImageOf(p, video).Some? ==> r == ExtractVideoId(Src(p, ImageOf(p, video).value))
    ensures forall j :: 0 <= j < |r| ==> r[j] != '/'
  {
    match ImageOf(p, video)
    case None => ""
    case Some(img) => ExtractVideoId(Src(p, img))
  }

  /** A container in `p.faults` throws while being read, and the catch branch returns the error record. */
  function ExtractVideoData(p: Page, video: NodeId): (r: VideoRecord)
    ensures r.element == video
    ensures video in p.faults ==> r == ErrorRecord(video)
    ensures video !in p.faults ==> r.title == TitleText(p, video) && r.videoId == VideoIdOf(p, video)
    ensures video !in p.faults ==> r.views == ExtractViews(p, video) && r.uploadDate == ExtractUploadDate(p, video)
    ensures r.views == NotAvailable || Contains(Lower(r.views), "view")
    ensures r.uploadDate == NotAvailable || ContainsAny(Lower(r.uploadDate), TimeKeywords)
  {
    if video in p.faults then ErrorRecord(video)
    else VideoRecord(TitleText(p, video), ExtractViews(p, video), ExtractUploadDate(p, video), VideoIdOf(p, video), video)
  }

  /** `video.title && video.title.trim()` */
  predicate Titled(v: VideoRecord) {
    Trim(v.title) != ""
  }

  /** The error record keeps a title, so it survives the filter. */
  lemma ErrorRecordIsTitled(video: NodeId)
    ensures Titled(ErrorRecord(video))
  {
    TrimOfTrimmed(ErrorTitle);
  }

  function Records(p: Page, videos: seq<NodeId>): (r: seq<VideoRecord>)
    ensures |r| == |videos| && forall k :: 0 <= k < |videos| ==> r[k] == ExtractVideoData(p, videos[k])
  {
    seq(|videos|, k requires 0 <= k < |videos| => ExtractVideoData(p, videos[k]))
  }

  /** The records with a non-blank title, in their order. */
  function KeepTitled(rs: seq<VideoRecord>): (r: seq<VideoRecord>)
    ensures |r| <= |rs|
  {
    if rs == [] then []
    else if Titled(rs[0]) then [rs[0]] + KeepTitled(rs[1..])
    else KeepTitled(rs[1..])
  }

  /** The filter keeps exactly the records with a title. */
  lemma {:induction false} KeepTitledMembers(rs: seq<VideoRecord>, x: VideoRecord)
    ensures x in KeepTitled(rs) <==> x in rs && Titled(x)
  {
    if rs != [] {
      KeepTitledMembers(rs[1..], x);
      assert rs == [rs[0]] + rs[1..];
    }
  }

  /** Filtering commutes with concatenation, so the order of the containers is kept. */
  lemma {:induction false} KeepTitledAppend(a: seq<VideoRecord>, b: seq<VideoRecord>)
    ensures KeepTitled(a + b) == KeepTitled(a) + KeepTitled(b)
  {
    if a == [] {
      assert a + b == b;
    } else {
      assert (a + b)[0] == a[0];
      assert (a + b)[1..] == a[1..] + b;
      KeepTitledAppend(a[1..], b);
    }
  }

  /** A list whose every record has a title passes the filter unchanged. */
  lemma {:induction false} KeepTitledAll(rs: seq<VideoRecord>)
    requires forall k :: 0 <= k < |rs| ==> Titled(rs[k])
    ensures KeepTitled(rs) == rs
  {
    if rs != [] {
      var tail := rs[1..];
      forall k | 0 <= k < |tail| ensures Titled(tail[k]) {
        assert tail[k] == rs[k + 1];
      }
      KeepTitledAll(tail);
      KeepTitledCons(rs);
      assert rs == [rs[0]] + tail;
    }
  }

  lemma KeepTitledCons(rs: seq<VideoRecord>)
    requires rs != [] && Titled(rs[0])
    ensures KeepTitled(rs) == [rs[0]] + KeepTitled(rs[1..])
  {
  }

  // ---------------------------------------------------------------------------
  // extractVideos

  /** What one extraction keeps, shows in the table and reports. */
  datatype Extraction = Extraction(kept: seq<VideoRecord>, shown: seq<VideoRecord>, status: Status)

  const NoVideos: Status := Status("No videos found on this page.", "error")
  const NoValidTitles: Status := Status("No valid video titles found.", "error")

  function Success(n: nat): Status {
    Status("Successfully extracted " + NatToString(n) + " videos!", "success")
  }

  /**
   * The outcome of extractVideos on a page, from the list held before it:
   * with no container the old list stays and an empty table is shown; with
   * containers the list becomes their titled records, reported as an error
   * when there is none.
   */
  function Extract(p: Page, before: seq<VideoRecord>): (r: Extraction)
    ensures AllVideoElements(p) == [] ==> r == Extraction(before, [], NoVideos)
    ensures AllVideoElements(p) != [] ==> r.kept == KeepTitled(Records(p, AllVideoElements(p)))
    ensures AllVideoElements(p) != [] && r.kept == [] ==> r.shown == [] && r.status == NoValidTitles
    ensures AllVideoElements(p) != [] && r.kept != [] ==> r.shown == r.kept && r.status == Success(|r.kept|)
  {
    var videos := AllVideoElements(p);
    if videos == [] then Extraction(before, [], NoVideos)
    else
      var kept := KeepTitled(Records(p, videos));
      if kept == [] then Extraction(kept, [], NoValidTitles)
      else Extraction(kept, kept, Success(|kept|))
  }

  /** A faulty container still yields a kept record: one per container when every container throws. */
  lemma AllFaultyKeepsAll(p: Page)
    requires forall k :: 0 <= k < |AllVideoElements(p)| ==> AllVideoElements(p)[k] in p.faults
    ensures Extract(p, []).kept == Records(p, AllVideoElements(p))
  {
    var rs := Records(p, AllVideoElements(p));
    forall k | 0 <= k < |rs| ensures Titled(rs[k]) {
      ErrorRecordIsTitled(AllVideoElements(p)[k]);
    }
    KeepTitledAll(rs);
  }

  /** `getVideoTitles`: the titles, in order, without the blank ones. */
  function Titles(rs: seq<VideoRecord>): (r: seq<string>)
    ensures |r| <= |rs|
    ensures forall k :: 0 <= k < |r| ==> Trim(r[k]) != ""
  {
    if rs == [] then []
    else if Trim(rs[0].title) != "" then [rs[0].title] + Titles(rs[1..])
    else Titles(rs[1..])
  }

  function TitleOf(rs: seq<VideoRecord>): (r: seq<string>)
    ensures |r| == |rs| && forall k :: 0 <= k < |rs| ==> r[k] == rs[k].title
  {
    if rs == [] then [] else [rs[0].title] + TitleOf(rs[1..])
  }

  /** The titles are those of the records the extraction filter keeps, in the same order. */
  lemma {:induction false} TitlesOfKept(rs: seq<VideoRecord>)
    ensures Titles(rs) == TitleOf(KeepTitled(rs))
  {
    if rs != [] {
      TitlesOfKept(rs[1..]);
    }
  }

  class VideoExtractor {
    var extractedVideos: seq<VideoRecord>

    constructor ()
      ensures extractedVideos == []
    {
      extractedVideos := [];
    }

    method ExtractVideos(p: Page, ui: UIManager)
      modifies this, ui
      ensures extractedVideos == Extract(p, old(extractedVideos)).kept
      ensures ui.embeddedUI.Some? <==> old(ui.embeddedUI).Some?
      ensures ui.embeddedUI.Some? ==>
        ui.embeddedUI.value == old(ui.embeddedUI).value.(
          dropdownShown := true,
          statusText := Extract(p, old(extractedVideos)).status.message,
          statusClass := StatusClass(Extract(p, old(extractedVideos)).status.kind),
          table := TableFor(Extract(p, old(extractedVideos)).shown))
      ensures ui.isContentVisible == (old(ui.embeddedUI).Some? || old(ui.isContentVisible))
      ensures ui.isInitialized == old(ui.isInitialized)
    {
      ui.ShowStatus(Status("Extracting videos...", "info"));
      ui.ShowDropdown();
      var videoElements := FindAllVideoElements(p);
      if |videoElements| == 0 {
        ui.ShowStatus(NoVideos);
        ui.UpdateResultsTable([]);
        return;
      }
      extractedVideos := Records(p, videoElements);
      extractedVideos := KeepTitled(extractedVideos);
      if |extractedVideos| == 0 {
        ui.ShowStatus(NoValidTitles);
        ui.UpdateResultsTable([]);
        return;
      }
      ui.UpdateResultsTable(extractedVideos);
      ui.ShowStatus(Success(|extractedVideos|));
    }

    function GetExtractedVideos(): seq<VideoRecord>
      reads this
    {
      extractedVideos
    }

    function GetVideoTitles(): seq<string>
      reads this
    {
      Titles(extractedVideos)
    }

    method ClearExtractedVideos(ui: UIManager)
      modifies this, ui
      ensures extractedVideos == []
      ensures old(ui.embeddedUI).Some? ==> ui.embeddedUI == Some(old(ui.embeddedUI).value.(table := Placeholder(NoResults)))
      ensures old(ui.embeddedUI).None? ==> ui.embeddedUI == old(ui.embeddedUI)
      ensures ui.isInitialized == old(ui.isInitialized) && ui.isContentVisible == old(ui.isContentVisible)
    {
      extractedVideos := [];
      ui.UpdateResultsTable([]);
    }
  }
}
