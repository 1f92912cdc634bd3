/**
 * content.js: the script that ties the modules together. It initialises the
 * panel and the per-video affordances, re-scans the page when the observer
 * reports new video containers, and tears everything down on navigation.
 *
 * Timers are not modelled. The three delayed callbacks (the observer's
 * re-scan, the re-initialisation after a navigation teardown and the
 * navigation check after a visibility change or popstate) are recorded as a
 * `Task` that runs later, when the environment calls `RunTask`. The start-up
 * initialisation (on DOMContentLoaded or after 1 s) and the 5 s interval are
 * calls the environment makes directly, to `InitializeEmbeddedUI` and
 * `PeriodicCheck`. The environment also chooses the page each call sees.
 */
module Content {
  import opened Wrappers
  import opened Dom
  import opened Ui
  import opened Copy
  import opened Thumbnails

  // ---------------------------------------------------------------------------
  // The mutation-relevance test of setupVideoObserver

  datatype MutationKind = ChildList | Attributes | CharacterData

  /** An added node: whether it is an element, and which node it is. */
  datatype AddedNode = AddedNode(isElement: bool, node: NodeId)

  /** One MutationRecord: removals are never read, so they are not recorded. */
  datatype Mutation = Mutation(kind: MutationKind, addedNodes: seq<AddedNode>)

  /** The node is a video container, or holds one. */
  predicate HoldsVideo(p: Page, n: NodeId) {
    exists i :: 0 <= i < |VideoContainers| && (p.matches(VideoContainers[i], n) || QueryAll(p, VideoContainers[i], n) != [])
  }

  predicate AddsVideo(p: Page, a: AddedNode) {
    a.isElement && HoldsVideo(p, a.node)
  }

  /** Some child-list mutation of the batch adds an element that is or holds a video container. */
  predicate Relevant(p: Page, mutations: seq<Mutation>) {
    exists i, j :: 0 <= i < |mutations| && mutations[i].kind == ChildList
                   && 0 <= j < |mutations[i].addedNodes| && AddsVideo(p, mutations[i].addedNodes[j])
  }

  /** The `shouldUpdate` flag the observer's callback computes for a batch of mutations. */
  method ShouldUpdate(p: Page, mutations: seq<Mutation>) returns (shouldUpdate: bool)
    ensures shouldUpdate <==> Relevant(p, mutations)
  {
    shouldUpdate := false;
    var i := 0;
    while i < |mutations|
      invariant 0 <= i <= |mutations|
      invariant shouldUpdate <==> Relevant(p, mutations[..i])
    {
      var mutation := mutations[i];
      assert forall i', j :: 0 <= i' < i && 0 <= j < |mutations[..i][i'].addedNodes| ==>
        mutations[..i + 1][i'].addedNodes[j] == mutations[..i][i'].addedNodes[j];
      if mutation.kind == ChildList {
        var j := 0;
        while j < |mutation.addedNodes|
          invariant 0 <= j <= |mutation.addedNodes|
          invariant shouldUpdate <==> Relevant(p, mutations[..i]) || exists k :: 0 <= k < j && AddsVideo(p, mutation.addedNodes[k])
        {
          var node := mutation.addedNodes[j];
          if node.isElement {
            if exists s :: 0 <= s < |VideoContainers| && p.matches(VideoContainers[s], node.node) {
              shouldUpdate := true;
            }
            if exists s :: 0 <= s < |VideoContainers| && |QueryAll(p, VideoContainers[s], node.node)| > 0 {
              shouldUpdate := true;
            }
          }
          j := j + 1;
        }
      }
      assert mutations[..i + 1][i] == mutation;
      assert shouldUpdate <==> Relevant(p, mutations[..i + 1]);
      i := i + 1;
    }
    assert mutations[..i] == mutations;
  }

  /** Two batches delivered separately schedule an update exactly when their union would. */
  lemma RelevantAppend(p: Page, a: seq<Mutation>, b: seq<Mutation>)
    ensures Relevant(p, a + b) <==> Relevant(p, a) || Relevant(p, b)
  {
    var ab := a + b;
    if Relevant(p, ab) {
      var i, j :| 0 <= i < |ab| && ab[i].kind == ChildList && 0 <= j < |ab[i].addedNodes| && AddsVideo(p, ab[i].addedNodes[j]);
      if i >= |a| {
        assert b[i - |a|] == ab[i];
      }
    }
    if Relevant(p, b) {
      var i, j :| 0 <= i < |b| && b[i].kind == ChildList && 0 <= j < |b[i].addedNodes| && AddsVideo(p, b[i].addedNodes[j]);
      assert ab[|a| + i] == b[i];
    }
    if Relevant(p, a) {
      var i, j :| 0 <= i < |a| && a[i].kind == ChildList && 0 <= j < |a[i].addedNodes| && AddsVideo(p, a[i].addedNodes[j]);
      assert ab[i] == a[i];
    }
  }

  // ---------------------------------------------------------------------------
  // The script's state

  /** A callback waiting on a timer. */
  datatype Task =
    | Rescan             // the observer's re-scan, 500 ms after a relevant batch
    | Reinitialize       // initializeEmbeddedUI, 1 s after a navigation teardown
    | CheckNavigation    // checkForNavigation, 500 ms after a visibility change or popstate

  const YouTubeHost: string := "www.youtube.com"

  class Extension {
    const ui: UIManager
    const copy: CopyManager
    const thumbs: ThumbnailDownloader
    /** Observers registered so far; none is ever disconnected. */
    var observers: nat
    /** Callbacks scheduled on timers, in the order they were scheduled. */
    var scheduled: seq<Task>

    predicate Valid()
      reads this, copy, thumbs
    {
      copy.Valid() && thumbs.Valid()
    }

    constructor ()
      ensures Valid() && fresh(ui) && fresh(copy) && fresh(thumbs)
      ensures ui.embeddedUI.None? && !ui.isInitialized && !ui.isContentVisible
      ensures copy.icons == [] && thumbs.buttons == [] && observers == 0 && scheduled == []
    {
      ui := new UIManager();
      copy := new CopyManager();
      thumbs := new ThumbnailDownloader();
      observers := 0;
      scheduled := [];
    }

    /**
     * initializeEmbeddedUI: the panel, then the copy icons, then the download
     * buttons, then one more observer.
     */
    method InitializeEmbeddedUI(p: Page)
      requires Valid()
      modifies this, ui, copy, thumbs
      ensures Valid()
      ensures old(ui.isInitialized) ==> ui.embeddedUI == old(ui.embeddedUI)
      ensures !old(ui.isInitialized) ==>
        ui.embeddedUI == (if old(ui.embeddedUI).None? && SearchContainer(p).Some? then Some(InitialPanel) else old(ui.embeddedUI))
      ensures ui.isInitialized && ui.isContentVisible == old(ui.isContentVisible)
      ensures copy.State() == CopyPass(p, old(copy.State()))
      ensures thumbs.State() == ButtonPass(p, old(thumbs.State()))
      ensures observers == old(observers) + 1 && scheduled == old(scheduled)
    {
      ui.Initialize(p);
      copy.AddCopyIconsToVideos(p);
      thumbs.AddThumbnailDownloadButtons(p);
      observers := observers + 1;
    }

    /** The observer's callback: a re-scan is scheduled for a relevant batch, and nothing else happens. */
    method OnMutations(p: Page, mutations: seq<Mutation>)
      modifies this
      ensures scheduled == old(scheduled) + (if Relevant(p, mutations) then [Rescan] else [])
      ensures observers == old(observers)
    {
      var shouldUpdate := ShouldUpdate(p, mutations);
      if shouldUpdate {
        scheduled := scheduled + [Rescan];
      }
    }

    /** The re-scan: copy icons first, then download buttons. */
    method RescanPage(p: Page)
      requires Valid()
      modifies copy, thumbs
      ensures Valid()
      ensures copy.State() == CopyPass(p, old(copy.State()))
      ensures thumbs.State() == ButtonPass(p, old(thumbs.State()))
    {
      copy.AddCopyIconsToVideos(p);
      thumbs.AddThumbnailDownloadButtons(p);
    }

    /** checkForNavigation: on YouTube, tear everything down and schedule a new start. */
    method CheckForNavigation(hostname: string)
      requires Valid()
      modifies this, ui, copy, thumbs
      ensures Valid()
      ensures hostname != YouTubeHost ==>
        scheduled == old(scheduled) && ui.embeddedUI == old(ui.embeddedUI)
        && ui.isInitialized == old(ui.isInitialized) && ui.isContentVisible == old(ui.isContentVisible)
        && copy.State() == old(copy.State()) && thumbs.State() == old(thumbs.State())
      ensures hostname == YouTubeHost ==>
        scheduled == old(scheduled) + [Reinitialize] && ui.embeddedUI.None? && !ui.isInitialized && !ui.isContentVisible
        && copy.copyIconsAdded == {} && copy.icons == [] && thumbs.processedVideos == {} && thumbs.buttons == []
      ensures observers == old(observers)
    {
      if hostname == YouTubeHost {
        ui.Cleanup();
        copy.RemoveAllCopyIcons();
        thumbs.RemoveAllDownloadButtons();
        scheduled := scheduled + [Reinitialize];
      }
    }

    /** The `setInterval` fallback: initialise only when the panel manager is not initialised. */
    method PeriodicCheck(p: Page)
      requires Valid()
      modifies this, ui, copy, thumbs
      ensures Valid()
      ensures old(ui.isInitialized) ==>
        ui.embeddedUI == old(ui.embeddedUI) && ui.isInitialized && ui.isContentVisible == old(ui.isContentVisible)
        && copy.State() == old(copy.State()) && thumbs.State() == old(thumbs.State())
        && observers == old(observers) && scheduled == old(scheduled)
      ensures !old(ui.isInitialized) ==>
        ui.isInitialized && copy.State() == CopyPass(p, old(copy.State()))
        && thumbs.State() == ButtonPass(p, old(thumbs.State())) && observers == old(observers) + 1
        && scheduled == old(scheduled) && ui.isContentVisible == old(ui.isContentVisible)
        && ui.embeddedUI == (if old(ui.embeddedUI).None? && SearchContainer(p).Some? then Some(InitialPanel)
                             else old(ui.embeddedUI))
    {
      if !ui.isInitialized {
        InitializeEmbeddedUI(p);
      }
    }

    /** A visibility change schedules a navigation check when the page becomes visible. */
    method OnVisibilityChange(hidden: bool)
      modifies this
      ensures scheduled == old(scheduled) + (if hidden then [] else [CheckNavigation])
      ensures observers == old(observers)
    {
      if !hidden {
        scheduled := scheduled + [CheckNavigation];
      }
    }

    /** A popstate event always schedules a navigation check. */
    method OnPopState()
      modifies this
      ensures scheduled == old(scheduled) + [CheckNavigation]
      ensures observers == old(observers)
    {
      scheduled := scheduled + [CheckNavigation];
    }

    /**
     * A timer fires: the callback leaves the queue and runs against the page
     * and location of that moment.
     */
    method RunTask(k: nat, p: Page, hostname: string)
      requires Valid() && k < |scheduled|
      modifies this, ui, copy, thumbs
      ensures Valid()
      ensures observers == old(observers) + (if old(scheduled[k]) == Reinitialize then 1 else 0)
      ensures old(scheduled[k]) == Rescan ==>
        scheduled == old(scheduled[..k] + scheduled[k + 1..])
        && ui.embeddedUI == old(ui.embeddedUI) && ui.isInitialized == old(ui.isInitialized)
        && ui.isContentVisible == old(ui.isContentVisible)
        && copy.State() == CopyPass(p, old(copy.State())) && thumbs.State() == ButtonPass(p, old(thumbs.State()))
      ensures old(scheduled[k]) == Reinitialize ==>
        scheduled == old(scheduled[..k] + scheduled[k + 1..])
        && (old(ui.isInitialized) ==> ui.embeddedUI == old(ui.embeddedUI))
        && (!old(ui.isInitialized) ==>
              ui.embeddedUI == (if old(ui.embeddedUI).None? && SearchContainer(p).Some? then Some(InitialPanel) else old(ui.embeddedUI)))
        && ui.isInitialized && ui.isContentVisible == old(ui.isContentVisible)
        && copy.State() == CopyPass(p, old(copy.State())) && thumbs.State() == ButtonPass(p, old(thumbs.State()))
      ensures old(scheduled[k]) == CheckNavigation && hostname != YouTubeHost ==>
        scheduled == old(scheduled[..k] + scheduled[k + 1..])
        && ui.embeddedUI == old(ui.embeddedUI) && ui.isInitialized == old(ui.isInitialized)
        && ui.isContentVisible == old(ui.isContentVisible)
        && copy.State() == old(copy.State()) && thumbs.State() == old(thumbs.State())
      ensures old(scheduled[k]) == CheckNavigation && hostname == YouTubeHost ==>
        scheduled == old(scheduled[..k] + scheduled[k + 1..]) + [Reinitialize]
        && ui.embeddedUI.None? && !ui.isInitialized && !ui.isContentVisible
        && copy.icons == [] && thumbs.buttons == []
    {
      var task := scheduled[k];
      scheduled := scheduled[..k] + scheduled[k + 1..];
      match task {
        case Rescan => RescanPage(p);
        case Reinitialize => InitializeEmbeddedUI(p);
        case CheckNavigation => CheckForNavigation(hostname);
      }
    }
  }

  /** A second re-scan of an unchanged page adds no icon and no button. */
  lemma RescanIdempotent(p: Page, icons: Affordances.Marks<string>, buttons: Affordances.Marks<Button>)
    ensures CopyPass(p, CopyPass(p, icons)) == CopyPass(p, icons)
    ensures ButtonPass(p, ButtonPass(p, buttons)) == ButtonPass(p, buttons)
  {
    CopyPassIdempotent(p, icons);
    ButtonPassIdempotent(p, buttons);
  }
}
