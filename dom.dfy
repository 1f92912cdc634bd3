/**
 * The abstract page and the element locators of modules/dom-utils.js.
 *
 * A page is a snapshot of the document: its nodes in document order (a node's
 * id is its position, so a parent always precedes its children) and two
 * oracles that stand for the browser's selector engine, which is not modelled:
 *   - `select(sel, root)` is `root.querySelectorAll(sel)`: the matching strict
 *     descendants of `root`, in document order;
 *   - `matches(sel, n)` is `n.matches(sel)`.
 * `root.querySelector(sel)` is the first element of `select(sel, root)`.
 * Node 0 is the document itself; `document.querySelectorAll(sel)` is
 * `select(sel, DocumentNode)`.
 */
module Dom {
  import opened Wrappers
  import opened Text

  type NodeId = nat
  type Selector = string

  /** One element: what the extension reads of it. `tagName` is upper-case, as browsers report it. */
  datatype Node = Node(
    tagName: string,
    classList: seq<string>,
    attributes: map<string, string>,
    textContent: string,
    innerText: string,
    parent: Option<NodeId>)

  /**
   * `faults` holds the containers whose inspection throws inside the host page
   * (the only way the extractor's catch branch can be reached; see Extractor).
   */
  datatype Document = Document(
    nodes: seq<Node>,
    select: (Selector, NodeId) -> seq<NodeId>,
    matches: (Selector, NodeId) -> bool,
    faults: set<NodeId>)

  const DocumentNode: NodeId := 0

  /** `n` lies strictly inside `a`: following parent links from `n` reaches `a`. */
  predicate Below(nodes: seq<Node>, n: NodeId, a: NodeId)
    decreases n
  {
    n < |nodes| && nodes[n].parent.Some? &&
    var q := nodes[n].parent.value;
    q < n && (q == a || Below(nodes, q, a))
  }

  ghost predicate ParentsPrecede(nodes: seq<Node>) {
    forall i :: 0 <= i < |nodes| && nodes[i].parent.Some? ==> nodes[i].parent.value < i
  }

  ghost predicate QueriesStayInside(d: Document) {
    forall sel, root, k :: 0 <= k < |d.select(sel, root)| ==> Below(d.nodes, d.select(sel, root)[k], root)
  }

  /** A well-formed snapshot: a tree in document order whose lookups return descendants of their root. */
  type Page = d: Document | ParentsPrecede(d.nodes) && QueriesStayInside(d)
    witness Document([], (sel, root) => [], (sel, n) => false, {})

  // ---------------------------------------------------------------------------
  // Selector lists (modules/dom-utils.js:13-42)

  const VideoContainers: seq<Selector> := [
    "ytd-rich-item-renderer",
    "ytd-rich-grid-media",
    "ytd-video-renderer",
    "ytd-compact-video-renderer",
    "ytd-grid-video-renderer"
  ]

  const ThumbnailContainers: seq<Selector> := [
    "#thumbnail",
    "ytd-thumbnail",
    "yt-thumbnail-view-model",
    "a.yt-lockup-view-model__content-image"
  ]

  const TitleElements: seq<Selector> := [
    "#video-title",
    "a#video-title",
    "h3.ytd-video-renderer",
    ".yt-lockup-metadata-view-model__title",
    "a.yt-lockup-metadata-view-model__title"
  ]

  const ImageElements: seq<Selector> := [
    "img.ytCoreImageHost",
    "img[src*=\"i.ytimg.com\"]"
  ]

  /** The selector of the fallback in findThumbnailContainer. */
  const ThumbnailImage: Selector := "img[src*=\"i.ytimg.com\"]"

  // ---------------------------------------------------------------------------
  // Reading the page

  function QueryAll(p: Page, sel: Selector, root: NodeId): (r: seq<NodeId>)
    ensures forall k :: 0 <= k < |r| ==> r[k] < |p.nodes| && Below(p.nodes, r[k], root)
  {
    p.select(sel, root)
  }

  /** `root.querySelector(sel)`. */
  function Query(p: Page, sel: Selector, root: NodeId): (r: Option<NodeId>)
    ensures r.None? <==> QueryAll(p, sel, root) == []
    ensures r.Some? ==> r.value == QueryAll(p, sel, root)[0]
    ensures r.Some? ==> r.value < |p.nodes| && Below(p.nodes, r.value, root)
  {
    var all := QueryAll(p, sel, root);
    if all == [] then None else Some(all[0])
  }

  /** `n.getAttribute(name)`: `null` when the attribute is absent. */
  function GetAttribute(p: Page, n: NodeId, name: string): Option<string> {
    if n < |p.nodes| && name in p.nodes[n].attributes then Some(p.nodes[n].attributes[name]) else None
  }

  /** `img.src`: the `src` attribute, or `''` when it is absent. */
  function Src(p: Page, n: NodeId): string {
    GetAttribute(p, n, "src").GetOr("")
  }

  function TextContent(p: Page, n: NodeId): string {
    if n < |p.nodes| then p.nodes[n].textContent else ""
  }

  function InnerText(p: Page, n: NodeId): string {
    if n < |p.nodes| then p.nodes[n].innerText else ""
  }

  /** `n.parentElement`: the parent, unless that is the document, which is not an element. */
  function ParentElement(p: Page, n: NodeId): (r: Option<NodeId>)
    ensures r.Some? ==> r.value < n
  {
    if n < |p.nodes| && p.nodes[n].parent.Some? && p.nodes[n].parent.value != DocumentNode
    then p.nodes[n].parent
    else None
  }

  lemma ParentOfBelow(p: Page, n: NodeId, a: NodeId)
    requires Below(p.nodes, n, a) && a != DocumentNode
    ensures ParentElement(p, n).Some?
    ensures ParentElement(p, n).value == a || Below(p.nodes, ParentElement(p, n).value, a)
  {
  }

  // ---------------------------------------------------------------------------
  // Locator chains

  /**
   * Tries the selectors in order and returns the first match of the first
   * selector that has any; the loops of findThumbnailContainer's first part,
   * findTitleElement and findImageElement.
   */
  function FirstHit(p: Page, sels: seq<Selector>, root: NodeId): (r: Option<NodeId>)
    ensures r.None? <==> forall i :: 0 <= i < |sels| ==> Query(p, sels[i], root).None?
    ensures r.Some? ==> exists i :: 0 <= i < |sels| && Query(p, sels[i], root) == r
                                    && forall j :: 0 <= j < i ==> Query(p, sels[j], root).None?
    ensures r.Some? ==> r.value < |p.nodes| && Below(p.nodes, r.value, root)
  {
    if sels == [] then None
    else match Query(p, sels[0], root)
      case Some(n) => Some(n)
      case None =>
        var r := FirstHit(p, sels[1..], root);
        assert forall i :: 1 <= i < |sels| ==> sels[i] == sels[1..][i - 1];
        r
  }

  /** findTitleElement */
  function FindTitleElement(p: Page, video: NodeId): Option<NodeId> {
    FirstHit(p, TitleElements, video)
  }

  /** findImageElement */
  function FindImageElement(p: Page, container: NodeId): Option<NodeId> {
    FirstHit(p, ImageElements, container)
  }

  // ---------------------------------------------------------------------------
  // findAllVideoElements

  /** The matches of each selector in turn, one list after the other. */
  function ConcatMatches(p: Page, sels: seq<Selector>, root: NodeId): seq<NodeId>
    decreases |sels|
  {
    if sels == [] then []
    else ConcatMatches(p, sels[..|sels| - 1], root) + QueryAll(p, sels[|sels| - 1], root)
  }

  /** The number of matches of the selectors, added up. */
  function MatchCount(p: Page, sels: seq<Selector>, root: NodeId): nat {
    if sels == [] then 0 else |QueryAll(p, sels[0], root)| + MatchCount(p, sels[1..], root)
  }

  /** The containers findAllVideoElements returns. */
  function AllVideoElements(p: Page): seq<NodeId> {
    ConcatMatches(p, VideoContainers, DocumentNode)
  }

  method FindAllVideoElements(p: Page) returns (videos: seq<NodeId>)
    ensures videos == AllVideoElements(p)
  {
    videos := [];
    var i := 0;
    while i < |VideoContainers|
      invariant 0 <= i <= |VideoContainers|
      invariant videos == ConcatMatches(p, VideoContainers[..i], DocumentNode)
    {
      assert VideoContainers[..i + 1][..i] == VideoContainers[..i];
      videos := videos + QueryAll(p, VideoContainers[i], DocumentNode);
      i := i + 1;
    }
    assert VideoContainers[..i] == VideoContainers;
  }

  lemma {:induction false} MatchCountSplit(p: Page, a: seq<Selector>, b: seq<Selector>, root: NodeId)
    ensures MatchCount(p, a + b, root) == MatchCount(p, a, root) + MatchCount(p, b, root)
  {
    if a == [] {
      assert a + b == b;
    } else {
      assert (a + b)[1..] == a[1..] + b;
      MatchCountSplit(p, a[1..], b, root);
    }
  }

  /** No deduplication: the list is as long as all the selectors' matches put together. */
  lemma {:induction false} ConcatMatchesLength(p: Page, sels: seq<Selector>, root: NodeId)
    ensures |ConcatMatches(p, sels, root)| == MatchCount(p, sels, root)
    decreases |sels|
  {
    if sels != [] {
      var n := |sels| - 1;
      ConcatMatchesLength(p, sels[..n], root);
      assert sels == sels[..n] + [sels[n]];
      MatchCountSplit(p, sels[..n], [sels[n]], root);
      assert [sels[n]][1..] == [];
    }
  }

  /** The matches of the first `i` selectors come first. */
  lemma {:induction false} ConcatMatchesPrefix(p: Page, sels: seq<Selector>, i: nat, root: NodeId)
    requires i <= |sels|
    ensures ConcatMatches(p, sels[..i], root) <= ConcatMatches(p, sels, root)
    decreases |sels|
  {
    if i < |sels| {
      var n := |sels| - 1;
      assert sels[..n][..i] == sels[..i];
      ConcatMatchesPrefix(p, sels[..n], i, root);
    } else {
      assert sels[..i] == sels;
    }
  }

  /**
   * The k-th match of selector i sits right after the matches of the selectors
   * before it.
   */
  lemma {:induction false} ConcatMatchesLayout(p: Page, sels: seq<Selector>, i: nat, k: nat, root: NodeId)
    requires i < |sels| && k < |QueryAll(p, sels[i], root)|
    ensures MatchCount(p, sels[..i], root) + k < |ConcatMatches(p, sels, root)|
    ensures ConcatMatches(p, sels, root)[MatchCount(p, sels[..i], root) + k] == QueryAll(p, sels[i], root)[k]
  {
    ConcatMatchesLength(p, sels[..i], root);
    ConcatMatchesPrefix(p, sels, i + 1, root);
    assert sels[..i + 1][..i] == sels[..i];
  }

  /** A node is listed exactly when some container selector matches it. */
  lemma {:induction false} ConcatMatchesMembers(p: Page, sels: seq<Selector>, root: NodeId, n: NodeId)
    ensures n in ConcatMatches(p, sels, root) <==> exists i :: 0 <= i < |sels| && n in QueryAll(p, sels[i], root)
    decreases |sels|
  {
    if sels != [] {
      var last := |sels| - 1;
      ConcatMatchesMembers(p, sels[..last], root, n);
      assert forall i :: 0 <= i < last ==> sels[..last][i] == sels[i];
    }
  }

  // ---------------------------------------------------------------------------
  // findThumbnailContainer

  /** The clickable wrappers the upward walk looks for. */
  predicate IsThumbnailWrapper(p: Page, n: NodeId) {
    n < |p.nodes| &&
    (p.nodes[n].tagName == "A"
     || "yt-thumbnail-view-model" in p.nodes[n].classList
     || "yt-lockup-view-model__content-image" in p.nodes[n].classList)
  }

  /** The walk `while (parent && parent !== video)`: the first wrapper met on the way up. */
  function WrapperAbove(p: Page, video: NodeId, from: Option<NodeId>): Option<NodeId>
    decreases if from.Some? then from.value + 1 else 0
  {
    match from
    case None => None
    case Some(n) =>
      if n == video then None
      else if IsThumbnailWrapper(p, n) then Some(n)
      else WrapperAbove(p, video, ParentElement(p, n))
  }

  /** The container findThumbnailContainer returns. */
  function ThumbnailContainer(p: Page, video: NodeId): Option<NodeId> {
    match FirstHit(p, ThumbnailContainers, video)
    case Some(c) => Some(c)
    case None =>
      var images := QueryAll(p, ThumbnailImage, video);
      if images == [] then None
      else
        var start := ParentElement(p, images[0]);
        match WrapperAbove(p, video, start)
        case Some(w) => Some(w)
        case None => start
  }

  /** The thumbnail image of a video: the one both the record and the download button read. */
  function ImageOf(p: Page, video: NodeId): Option<NodeId> {
    match ThumbnailContainer(p, video)
    case None => None
    case Some(c) => FindImageElement(p, c)
  }

  method FindThumbnailContainer(p: Page, video: NodeId) returns (r: Option<NodeId>)
    ensures r == ThumbnailContainer(p, video)
  {
    var i := 0;
    while i < |ThumbnailContainers|
      invariant 0 <= i <= |ThumbnailContainers|
      invariant FirstHit(p, ThumbnailContainers, video) == FirstHit(p, ThumbnailContainers[i..], video)
    {
      var container := Query(p, ThumbnailContainers[i], video);
      if container.Some? {
        return container;
      }
      assert ThumbnailContainers[i..][1..] == ThumbnailContainers[i + 1..];
      i := i + 1;
    }
    var images := QueryAll(p, ThumbnailImage, video);
    if |images| > 0 {
      var first := images[0];
      var parent := ParentElement(p, first);
      while parent.Some? && parent.value != video
        invariant WrapperAbove(p, video, ParentElement(p, first)) == WrapperAbove(p, video, parent)
        decreases if parent.Some? then parent.value + 1 else 0
      {
        if IsThumbnailWrapper(p, parent.value) {
          return parent;
        }
        parent := ParentElement(p, parent.value);
      }
      return ParentElement(p, first);
    }
    return None;
  }

  /** Every node the walk can return is a wrapper strictly inside `video`, at or above where it started. */
  lemma {:induction false} WrapperAboveInside(p: Page, video: NodeId, n: NodeId)
    requires video != DocumentNode
    requires n == video || Below(p.nodes, n, video)
    ensures var w := WrapperAbove(p, video, Some(n));
      w.Some? ==> IsThumbnailWrapper(p, w.value) && Below(p.nodes, w.value, video)
                  && (w.value == n || Below(p.nodes, n, w.value))
    decreases n
  {
    if n != video && !IsThumbnailWrapper(p, n) {
      ParentOfBelow(p, n, video);
      var q := ParentElement(p, n).value;
      WrapperAboveInside(p, video, q);
      var w := WrapperAbove(p, video, Some(q));
      if w.Some? && w.value != q {
        BelowTransitive(p.nodes, n, q, w.value);
      }
    }
  }

  /** An ancestor comes before its descendants. */
  lemma {:induction false} BelowPrecedes(nodes: seq<Node>, n: NodeId, a: NodeId)
    ensures Below(nodes, n, a) ==> a < n
    decreases n
  {
    if Below(nodes, n, a) {
      var q := nodes[n].parent.value;
      if q != a {
        BelowPrecedes(nodes, q, a);
      }
    }
  }

  lemma {:induction false} BelowTransitive(nodes: seq<Node>, n: NodeId, m: NodeId, a: NodeId)
    requires (n < |nodes| && nodes[n].parent == Some(m) && m < n) || Below(nodes, n, m)
    requires Below(nodes, m, a)
    ensures Below(nodes, n, a)
    decreases n
  {
    var q := nodes[n].parent.value;
    if q != m && q != a {
      BelowTransitive(nodes, q, m, a);
    }
  }

  /**
   * The direct selectors win; failing them, the first thumbnail image decides:
   * no image gives null, otherwise the result is a wrapper strictly inside the
   * video above that image, or the image's own parent.
   */
  lemma ThumbnailContainerShape(p: Page, video: NodeId)
    requires video != DocumentNode
    ensures FirstHit(p, ThumbnailContainers, video).Some? ==>
      ThumbnailContainer(p, video) == FirstHit(p, ThumbnailContainers, video)
    ensures FirstHit(p, ThumbnailContainers, video).None? ==>
      (ThumbnailContainer(p, video).None? <==> QueryAll(p, ThumbnailImage, video) == [])
    ensures FirstHit(p, ThumbnailContainers, video).None? && QueryAll(p, ThumbnailImage, video) != [] ==>
      var image := QueryAll(p, ThumbnailImage, video)[0];
      var c := ThumbnailContainer(p, video).value;
      (IsThumbnailWrapper(p, c) && Below(p.nodes, c, video) && Below(p.nodes, image, c))
      || Some(c) == ParentElement(p, image)
  {
    var images := QueryAll(p, ThumbnailImage, video);
    if FirstHit(p, ThumbnailContainers, video).None? && images != [] {
      var image := images[0];
      ParentOfBelow(p, image, video);
      var q := ParentElement(p, image).value;
      WrapperAboveInside(p, video, q);
      var w := WrapperAbove(p, video, Some(q));
      if w.Some? && w.value != q {
        BelowTransitive(p.nodes, image, q, w.value);
      }
    }
  }

  // ---------------------------------------------------------------------------
  // extractVideoId: `/\/vi\/([^\/]+)\//` or "unknown"

  const Unknown: string := "unknown"

  predicate NotSlash(c: char) {
    c != '/'
  }

  /** The pattern matches at `i`: `/vi/`, then a non-empty run without `/`, then `/`. */
  predicate VideoIdAt(url: string, i: nat) {
    StartsAt(url, i, "/vi/") && var k := RunEnd(url, i + 4, NotSlash); i + 4 < k < |url|
  }

  /** The captured identifier of a match at `i`. */
  function CapturedId(url: string, i: nat): string
    requires VideoIdAt(url, i)
  {
    url[i + 4..RunEnd(url, i + 4, NotSlash)]
  }

  /** The leftmost match at or after `lo`: how the unanchored pattern is searched. */
  function FirstVideoIdFrom(url: string, lo: nat): (m: Option<nat>)
    ensures m.Some? ==> lo <= m.value < |url| && VideoIdAt(url, m.value)
    ensures m.Some? ==> forall j :: lo <= j < m.value ==> !VideoIdAt(url, j)
    ensures m.None? ==> forall j :: lo <= j < |url| ==> !VideoIdAt(url, j)
    decreases |url| - lo
  {
    if lo >= |url| then None
    else if VideoIdAt(url, lo) then Some(lo)
    else FirstVideoIdFrom(url, lo + 1)
  }

  /** extractVideoId: the capture of the leftmost match, or `unknown` when there is none. */
  function ExtractVideoId(url: string): (id: string)
    ensures (forall i :: 0 <= i < |url| ==> !VideoIdAt(url, i)) ==> id == Unknown
    ensures forall i :: (0 <= i < |url| && VideoIdAt(url, i) && (forall j :: 0 <= j < i ==> !VideoIdAt(url, j)))
                        ==> id == CapturedId(url, i)
    ensures id != [] && forall j :: 0 <= j < |id| ==> id[j] != '/'
  {
    match FirstVideoIdFrom(url, 0)
    case None => Unknown
    case Some(i) => CapturedId(url, i)
  }

  /** What a match needs of the URL: a `/` at its start and three characters later. */
  lemma VideoIdAtSlashes(url: string, i: nat)
    requires VideoIdAt(url, i)
    ensures i + 4 < |url| && url[i] == '/' && url[i + 3] == '/'
  {
    assert url[i..i + 4][0] == '/' && url[i..i + 4][3] == '/';
  }

  /** The prefix of every thumbnail URL the extension builds. */
  const ThumbnailHost: string := "https://i.ytimg.com/vi/"

  /** The prefix of the WebP thumbnail URLs the page itself may use. */
  const WebpThumbnailHost: string := "https://i.ytimg.com/vi_webp/"

  lemma HostSlashes()
    ensures |ThumbnailHost| == 23 && ThumbnailHost[19..23] == "/vi/"
    ensures forall i :: 0 <= i < 19 ==> !(ThumbnailHost[i] == '/' && ThumbnailHost[i + 3] == '/')
    ensures |WebpThumbnailHost| == 28 && WebpThumbnailHost[27] == '/'
    ensures WebpThumbnailHost[25] != '/' && WebpThumbnailHost[26] != '/'
    ensures forall i :: 0 <= i < 25 ==> !(WebpThumbnailHost[i] == '/' && WebpThumbnailHost[i + 3] == '/')
  {
  }

  predicate SlashFree(s: string) {
    forall j :: 0 <= j < |s| ==> s[j] != '/'
  }

  /** The identifier is read back from any `https://i.ytimg.com/vi/<id>/...` URL. */
  lemma {:induction false} ExtractFromThumbnailUrl(id: string, rest: string)
    requires id != [] && SlashFree(id)
    ensures ExtractVideoId(ThumbnailHost + id + "/" + rest) == id
  {
    HostSlashes();
    var url := ThumbnailHost + id + "/" + rest;
    var sep := 23 + |id|;
    assert forall j :: 0 <= j < 23 ==> url[j] == ThumbnailHost[j];
    assert forall j :: 23 <= j < sep ==> url[j] == id[j - 23];
    assert url[sep] == '/';
    RunEndStops(url, 23, sep, NotSlash);
    assert url[19..23] == "/vi/";
    assert VideoIdAt(url, 19);
    forall j | 0 <= j < 19 ensures !VideoIdAt(url, j) {
      if VideoIdAt(url, j) {
        VideoIdAtSlashes(url, j);
      }
    }
    assert url[23..sep] == id;
  }

  /**
   * A `/vi_webp/<id>/<file>` path is not the `/vi/` pattern: such a URL yields
   * the sentinel (even for the identifier "vi", whose `/vi/` has no closing `/`).
   */
  lemma {:induction false} WebpPathIsUnknown(id: string, file: string)
    requires SlashFree(id) && SlashFree(file)
    ensures ExtractVideoId(WebpThumbnailHost + id + "/" + file) == Unknown
  {
    HostSlashes();
    var url := WebpThumbnailHost + id + "/" + file;
    var sep := 28 + |id|;
    assert forall j :: 0 <= j < 28 ==> url[j] == WebpThumbnailHost[j];
    assert forall j :: 28 <= j < sep ==> url[j] == id[j - 28];
    assert forall j :: sep < j < |url| ==> url[j] == file[j - sep - 1];
    RunEndToEnd(url, sep + 1, NotSlash);
    forall i | 0 <= i < |url| ensures !VideoIdAt(url, i) {
      if VideoIdAt(url, i) {
        VideoIdAtSlashes(url, i);
      }
    }
  }

  /** A run over the whole tail ends at the end. */
  lemma {:induction false} RunEndToEnd(s: string, i: nat, inRun: char -> bool)
    requires i <= |s|
    requires forall j :: i <= j < |s| ==> inRun(s[j])
    ensures RunEnd(s, i, inRun) == |s|
    decreases |s| - i
  {
    if i < |s| {
      RunEndToEnd(s, i + 1, inRun);
    }
  }

  /** A run that is known to stop at `k` ends there. */
  lemma {:induction false} RunEndStops(s: string, i: nat, k: nat, inRun: char -> bool)
    requires i <= k < |s|
    requires forall j :: i <= j < k ==> inRun(s[j])
    requires !inRun(s[k])
    ensures RunEnd(s, i, inRun) == k
    decreases k - i
  {
    if i < k {
      RunEndStops(s, i + 1, k, inRun);
    }
  }

  // ---------------------------------------------------------------------------
  // hasClass, addClassIfNotPresent, removeClassIfPresent

  /** A live element whose class list the extension changes in place. */
  class Element {
    var classList: seq<string>

    constructor (classes: seq<string>)
      ensures classList == classes
    {
      classList := classes;
    }
  }

  /** `element && element.classList.contains(className)`: false for a null element. */
  predicate HasClass(e: Element?, className: string)
    reads e
  {
    e != null && className in e.classList
  }

  /** The class list after `classList.add(c)` on a list that lacks `c`; unchanged when it has it. */
  function WithClass(classes: seq<string>, c: string): (r: seq<string>)
    ensures c in r
    ensures forall d :: d != c ==> (d in r <==> d in classes)
    ensures c in classes ==> r == classes
    ensures |r| >= |classes| && forall i :: 0 <= i < |classes| ==> r[i] == classes[i]
  {
    if c in classes then classes else classes + [c]
  }

  /** The class list after `classList.remove(c)`: every occurrence of `c` goes, the rest keeps its order. */
  function WithoutClass(classes: seq<string>, c: string): (r: seq<string>)
    ensures c !in r
    ensures forall d :: d != c ==> (d in r <==> d in classes)
    ensures c !in classes ==> r == classes
  {
    if classes == [] then []
    else if classes[0] == c then WithoutClass(classes[1..], c)
    else [classes[0]] + WithoutClass(classes[1..], c)
  }

  lemma ClassEditsIdempotent(classes: seq<string>, c: string)
    ensures WithClass(WithClass(classes, c), c) == WithClass(classes, c)
    ensures WithoutClass(WithoutClass(classes, c), c) == WithoutClass(classes, c)
  {
  }

  method AddClassIfNotPresent(e: Element?, className: string)
    modifies e
    ensures e != null ==> e.classList == WithClass(old(e.classList), className)
  {
    if e != null && !HasClass(e, className) {
      e.classList := e.classList + [className];
    }
  }

  method RemoveClassIfPresent(e: Element?, className: string)
    modifies e
    ensures e != null ==> e.classList == WithoutClass(old(e.classList), className)
  {
    if e != null && HasClass(e, className) {
      e.classList := WithoutClass(e.classList, className);
    }
  }
}
