/**
 * modules/copy-manager.js: the copy icons next to video titles, the guard in
 * front of every clipboard write, and the "copy all" text.
 */
module Copy {
  import opened Wrappers
  import opened Text
  import opened Dom
  import opened Video
  import opened Ui
  import opened Affordances

  /**
   * The icon addCopyIconToVideo inserts for a container: one that copies the
   * title element's trimmed text. None when the container has no title
   * element, or when inspecting it throws (the catch branch inserts nothing).
   */
  function IconFor(p: Page, video: NodeId): (r: Option<string>)
    ensures r.None? <==> video in p.faults || FindTitleElement(p, video).None?
    ensures r.Some? ==> r.value == Trim(TextContent(p, FindTitleElement(p, video).value))
    ensures r.Some? ==> Trim(r.value) == r.value
  {
    if video in p.faults then None
    else match FindTitleElement(p, video)
      case None => None
      case Some(t) =>
        TrimOfTrimmed(Trim(TextContent(p, t)));
        Some(Trim(TextContent(p, t)))
  }

  function IconMaker(p: Page): NodeId -> Option<string> {
    (v: NodeId) => IconFor(p, v)
  }

  /** What addCopyIconsToVideos leaves behind, from the bookkeeping before it. */
  function CopyPass(p: Page, m: Marks<string>): Marks<string> {
    Visits(m, AllVideoElements(p), IconMaker(p))
  }

  /** The icons are idempotent: a second pass over the same page adds no icon. */
  lemma CopyPassIdempotent(p: Page, m: Marks<string>)
    ensures CopyPass(p, CopyPass(p, m)) == CopyPass(p, m)
  {
    VisitsIdempotent(m, AllVideoElements(p), IconMaker(p));
  }

  class CopyManager {
    var copyIconsAdded: set<NodeId>
    /** The icons in the page, in insertion order: the container each follows the title of, and its text. */
    var icons: seq<Attached<string>>

    function State(): Marks<string>
      reads this
    {
      Marks(copyIconsAdded, icons)
    }

    predicate Valid()
      reads this
    {
      Affordances.Valid(State())
    }

    constructor ()
      ensures copyIconsAdded == {} && icons == [] && Valid()
    {
      copyIconsAdded := {};
      icons := [];
    }

    method AddCopyIconToVideo(p: Page, video: NodeId)
      requires Valid()
      modifies this
      ensures State() == Visit(old(State()), video, IconFor(p, video))
      ensures Valid()
    {
      if video in copyIconsAdded {
        return;
      }
      if video in p.faults {
        return;
      }
      var titleElement := FindTitleElement(p, video);
      if titleElement.None? {
        return;
      }
      ghost var next := Visit(State(), video, IconFor(p, video));
      VisitValid(State(), video, IconFor(p, video));
      icons := icons + [Attached(video, Trim(TextContent(p, titleElement.value)))];
      copyIconsAdded := copyIconsAdded + {video};
      assert State() == next;
    }

    method AddCopyIconsToVideos(p: Page)
      requires Valid()
      modifies this
      ensures State() == CopyPass(p, old(State())) && Valid()
    {
      var videos := FindAllVideoElements(p);
      AddCopyIconsTo(p, videos);
    }

    /** The loop of addCopyIconsToVideos, over the containers it found. */
    method AddCopyIconsTo(p: Page, videos: seq<NodeId>)
      requires Valid()
      modifies this
      ensures State() == Visits(old(State()), videos, IconMaker(p)) && Valid()
    {
      ghost var start := State();
      var i := 0;
      while i < |videos|
        invariant 0 <= i <= |videos|
        invariant State() == Visits(start, videos[..i], IconMaker(p))
        invariant Valid()
      {
        VisitsStep(start, videos, i, IconMaker(p));
        AddCopyIconToVideo(p, videos[i]);
        i := i + 1;
      }
      assert videos[..i] == videos;
    }

    method RemoveAllCopyIcons()
      modifies this
      ensures copyIconsAdded == {} && icons == [] && Valid()
    {
      icons := [];
      copyIconsAdded := {};
    }

    function HasCopyIcons(): bool
      reads this
    {
      |copyIconsAdded| > 0
    }

    function GetCopyIconCount(): nat
      reads this
    {
      |copyIconsAdded|
    }
  }

  /** The counters report the icons in the page: some exactly when there are any, and as many. */
  lemma IconCounters(c: CopyManager)
    requires c.Valid()
    ensures c.HasCopyIcons() <==> c.icons != []
    ensures c.GetCopyIconCount() == |c.icons|
  {
    CountIsSize(c.icons);
  }

  // ---------------------------------------------------------------------------
  // copyToClipboard's guard

  /** The text a clipboard write is attempted with: none for an empty or all-white-space text. */
  function ClipboardText(text: string): (r: Option<string>)
    ensures r.Some? <==> !Blank(text)
    ensures r.Some? ==> r.value == text
  {
    TrimEmptyIffBlank(text);
    if text == "" || Trim(text) == "" then None else Some(text)
  }

  // ---------------------------------------------------------------------------
  // copyAllTitles

  function Lines(videos: seq<VideoRecord>): (r: seq<string>)
    ensures |r| == |videos| && forall i :: 0 <= i < |videos| ==> r[i] == CopyLine(videos[i])
  {
    if videos == [] then [] else [CopyLine(videos[0])] + Lines(videos[1..])
  }

  /** What copyAllTitles hands to the clipboard, and the status it shows. */
  datatype CopyAll = CopyAll(clipboard: Option<string>, status: Option<Status>)

  function CopyAllTitles(videos: seq<VideoRecord>): (r: CopyAll)
    ensures videos == [] ==> r == CopyAll(None, None)
    ensures videos != [] ==> r.status == Some(Status("Copied " + NatToString(|videos|) + " videos to clipboard!", "success"))
    ensures videos != [] ==> r.clipboard == Some(Join(Lines(videos), "\n"))
  {
    if videos == [] then CopyAll(None, None)
    else
      var text := Join(Lines(videos), "\n");
      LinesHavePipe(videos);
      JoinNotBlank(Lines(videos), "\n");
      CopyAll(ClipboardText(text), Some(Status("Copied " + NatToString(|videos|) + " videos to clipboard!", "success")))
  }

  /** Every copy line holds the `|` separators, whatever its fields. */
  lemma LinesHavePipe(videos: seq<VideoRecord>)
    ensures forall i :: 0 <= i < |videos| ==> '|' in Lines(videos)[i]
  {
    var lines := Lines(videos);
    forall i | 0 <= i < |lines| ensures '|' in lines[i] {
      var v := videos[i];
      assert lines[i] == v.title + " | " + OrElse(v.views, NotAvailable) + " | " + OrElse(v.uploadDate, NotAvailable);
      assert lines[i][|v.title| + 1] == '|';
    }
  }

  predicate NoNewline(s: string) {
    forall i :: 0 <= i < |s| ==> s[i] != '\n'
  }

  lemma LineHasNoNewline(v: VideoRecord)
    requires NoNewline(v.title) && NoNewline(v.views) && NoNewline(v.uploadDate)
    ensures NoNewline(CopyLine(v))
  {
    var views, date := OrElse(v.views, NotAvailable), OrElse(v.uploadDate, NotAvailable);
    var line := CopyLine(v);
    assert line == v.title + " | " + views + " | " + date;
    forall i | 0 <= i < |line| ensures line[i] != '\n' {
      if i < |v.title| {
        assert line[i] == v.title[i];
      } else if i < |v.title| + 3 {
      } else if i < |v.title| + 3 + |views| {
        assert line[i] == views[i - |v.title| - 3];
      } else if i < |v.title| + 6 + |views| {
      } else {
        assert line[i] == date[i - |v.title| - 6 - |views|];
      }
    }
  }

  /**
   * The clipboard gets exactly one line per video, in order: when no field
   * holds a line break, splitting the copied text at line breaks gives back
   * the records' lines.
   */
  lemma CopyAllOneLinePerVideo(videos: seq<VideoRecord>)
    requires videos != []
    requires forall i :: 0 <= i < |videos| ==> NoNewline(videos[i].title) && NoNewline(videos[i].views) && NoNewline(videos[i].uploadDate)
    ensures CopyAllTitles(videos).clipboard.Some?
    ensures Split(CopyAllTitles(videos).clipboard.value, '\n') == Lines(videos)
    ensures |Split(CopyAllTitles(videos).clipboard.value, '\n')| == |videos|
  {
    var lines := Lines(videos);
    forall i | 0 <= i < |lines| ensures NoNewline(lines[i]) {
      LineHasNoNewline(videos[i]);
    }
    SplitJoin(lines, '\n');
  }

  /** Each line holds a `|`, so the joined text is never blank. */
  lemma JoinNotBlank(lines: seq<string>, sep: string)
    requires lines != [] && forall i :: 0 <= i < |lines| ==> '|' in lines[i]
    ensures !Blank(Join(lines, sep))
  {
    var j := Join(lines, sep);
    if |lines| == 1 {
      var k :| 0 <= k < |lines[0]| && lines[0][k] == '|';
      assert j[k] == '|';
    } else {
      var k :| 0 <= k < |lines[0]| && lines[0][k] == '|';
      assert j == lines[0] + sep + Join(lines[1..], sep);
      assert j[k] == '|';
    }
  }
}
