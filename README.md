# yt-info core in Dafny

This project models the logic of the yt-info browser extension, which adds
the following to YouTube pages:

- a panel next to the search box that extracts the listed videos into a table;
- a copy icon beside each video title;
- a thumbnail download button on each video;
- batch downloads of all thumbnails.

The model covers:

- how the extension locates things on the page: selector fallback chains,
  the thumbnail-container walk and the video-id parser;
- the extractor's records and filters;
- the thumbnail module's string rewrites, video-id and title strategies,
  file-name decision and batch counters;
- the processed sets that keep icons and buttons from being attached twice;
- the panel's state machine and its attribute escaper;
- the content script's mutation test, navigation teardown and re-init guard.

## Modules

- **Page** (`dom.dfy`, module `Dom`). A snapshot of the page is a `Page`, with these parts:
  - a sequence of nodes in document order, each with tag, classes,
    attributes, text and a parent link;
  - two selector oracles:
    - `select(sel, root)` stands for `querySelectorAll`, in document order and
      strictly below `root`;
    - `matches(sel, n)` stands for `Element.matches`;
  - the set `faults` of the containers whose inspection throws. That set
    reaches the `catch` branches of `extractVideoData`, `addCopyIconToVideo`,
    `addThumbnailDownloadButton` and the batch loop.
- **Affordances** (`affordances.dfy`). The identity sets `copyIconsAdded` and
  `processedVideos` are `Marks`: the set of processed containers plus the
  icons or buttons attached, in order. `Visit` is one guarded attachment and
  `Visits` is a whole pass.
- **Classes** are used where the source updates fields in place:
  - `Dom.Element` (its `classList`);
  - `Ui.UIManager` (`embeddedUI`, `isInitialized`, `isContentVisible`);
  - `Extractor.VideoExtractor` (`extractedVideos`);
  - `Copy.CopyManager` (`copyIconsAdded` and the icons);
  - `Thumbnails.ThumbnailDownloader` (`processedVideos` and the buttons);
  - `Content.Extension` (the three managers, the observer count, and the
    callbacks waiting on timers).
- **Loops** become methods with loop invariants, each proved equal to a
  specification function whose properties are proved as lemmas:
  - `FindAllVideoElements` and `FindThumbnailContainer`;
  - `ExtractVideos`;
  - `AddCopyIconsToVideos` and `AddThumbnailDownloadButtons`;
  - `ExtractVideoIdFor` and `ExtractVideoTitle`;
  - `DownloadAllThumbnails`;
  - `ShouldUpdate`.
- **Everything else** is pure string and sequence functions. Text is modelled in
  `text.dfy` (JavaScript's `trim`, `toLowerCase`, `includes`, `split` and `join`)
  and `thumbnail_text.dfy`.

## Model

| member | source | states |
|---|---|---|
| Dom.FirstHit | modules/dom-utils.js:105-122 | the hit is the first match of the first selector, in list order, that matches anything; None exactly when every selector misses; the hit lies inside the root |
| Dom.FindAllVideoElements | modules/dom-utils.js:62-69 | the containers returned are the matches of each container selector concatenated in selector order |
| Dom.ConcatMatchesLength | modules/dom-utils.js:13-19 | no deduplication: the length is the sum of the per-selector match counts |
| Dom.ConcatMatchesLayout | modules/dom-utils.js:64-67 | the k-th match of selector i sits right after all matches of the selectors before it |
| Dom.ConcatMatchesPrefix | modules/dom-utils.js:64-67 | the matches of the first i selectors are a prefix of the result |
| Dom.ConcatMatchesMembers | modules/dom-utils.js:62-69 | a node is returned exactly when some container selector matches it |
| Dom.FindThumbnailContainer | modules/dom-utils.js:74-100 | the loop and the upward walk compute ThumbnailContainer |
| Dom.ThumbnailContainerShape | modules/dom-utils.js:74-100 | the direct selectors win when one matches; otherwise null exactly when no i.ytimg.com image exists, else a wrapper strictly inside the video that contains the image, or the image's parent |
| Dom.WrapperAboveInside | modules/dom-utils.js:87-94 | the upward walk stops at the video: what it finds is an A tag or one of the two wrapper classes, below the video and above the image |
| Dom.ExtractVideoId | modules/dom-utils.js:127-131 | "unknown" when no `/vi/<run>/` occurs (empty input included); otherwise the run of the leftmost match; never empty and slash-free |
| Dom.ExtractFromThumbnailUrl | modules/dom-utils.js:127-131 | the id is read back from any `https://i.ytimg.com/vi/<id>/...` URL |
| Dom.WebpPathIsUnknown | modules/dom-utils.js:129 | a `/vi_webp/<id>/<file>` URL yields "unknown" |
| Dom.WithClass | modules/dom-utils.js:152-156 | the class is present afterwards, no other class changes, nothing changes when it was already there |
| Dom.WithoutClass | modules/dom-utils.js:161-165 | the class is absent afterwards, no other class changes, nothing changes when it was absent |
| Dom.ClassEditsIdempotent | modules/dom-utils.js:145-165 | adding or removing a class twice equals doing it once |
| Dom.AddClassIfNotPresent | modules/dom-utils.js:152-156 | a null element is left alone; otherwise its class list becomes WithClass of the old one |
| Dom.RemoveClassIfPresent | modules/dom-utils.js:161-165 | a null element is left alone; otherwise its class list becomes WithoutClass of the old one |
| Video.Line | modules/copy-manager.js:215 | the line is the title, the separator (space, bar, space), the views, the separator again and the upload date, each piece at its place and nothing else |
| Extractor.FirstText | modules/video-extractor.js:115-129 | first-match scan: None exactly when no span is accepted; a returned text is the text of some span that is accepted while every span before it is not |
| Extractor.FirstTextAt | modules/video-extractor.js:115-129 | the first accepted span's text is the one returned |
| Extractor.InlineViewsByKeyword | modules/video-extractor.js:117 | the `\d+[KMB]?\s*views?` alternative accepts nothing that the "view" keyword test does not |
| Extractor.ExtractViews | modules/video-extractor.js:98-136 | 'N/A' without a meta block or metadata line; any other result contains "view" |
| Extractor.ExtractViewsByKeyword | modules/video-extractor.js:112-131 | views are the first inline item containing "view", else the first span containing it, else 'N/A' |
| Extractor.ExtractUploadDate | modules/video-extractor.js:141-184 | 'N/A' without a metadata line; any other result contains one of the eight time keywords |
| Extractor.UploadDateFromInline | modules/video-extractor.js:155-167 | the date is the text of the first inline item containing a time keyword |
| Extractor.UploadDateFromSpans | modules/video-extractor.js:169-177 | with no such inline item, the date is the text of the first span of any kind containing one |
| Extractor.UploadDateMissing | modules/video-extractor.js:161-179 | with neither, the date is 'N/A' |
| Extractor.TitleText | modules/video-extractor.js:61-62 | the title is the title element's trimmed text content, and empty when there is no title element |
| Extractor.VideoIdOf | modules/video-extractor.js:71-73 | '' exactly when there is no image; otherwise extractVideoId of its src |
| Extractor.ExtractVideoData | modules/video-extractor.js:58-93 | a throwing container gives the error record; otherwise title and id as above, and the views and date are exactly what ExtractViews and ExtractUploadDate give |
| Extractor.ErrorRecordIsTitled | modules/video-extractor.js:85-91 | the error record survives the blank-title filter |
| Extractor.KeepTitledMembers | modules/video-extractor.js:32 | a record is kept exactly when it was extracted and its trimmed title is non-empty |
| Extractor.KeepTitledAppend | modules/video-extractor.js:32 | the filter keeps container order |
| Extractor.KeepTitledAll | modules/video-extractor.js:32 | the filter removes nothing from an all-titled list |
| Extractor.Extract | modules/video-extractor.js:14-53 | no containers: the list is left as it was, "No videos found"; otherwise exactly the titled records; the "No valid video titles" status with an empty table when none survive, else the success status and the table of the kept records |
| Extractor.AllFaultyKeepsAll | modules/video-extractor.js:83-91 | when every container throws, every error record is kept |
| Extractor.VideoExtractor.ExtractVideos | modules/video-extractor.js:14-53 | extractedVideos, the status, the table and the dropdown flag become what Extract prescribes |
| Extractor.Titles | modules/video-extractor.js:196-198 | every returned title is non-blank |
| Extractor.TitlesOfKept | modules/video-extractor.js:196-198 | getVideoTitles equals the titles of the kept records, in order |
| Extractor.VideoExtractor.ClearExtractedVideos | modules/video-extractor.js:203-206 | the list is emptied and the table shows the placeholder |
| ThumbnailText.DropDuration | modules/thumbnail-downloader.js:158 | removes the suffix at the leftmost position where a `\s+\d+\s+minutes?\s*$` match starts; unchanged when there is none |
| ThumbnailText.DropDurationSuffix | modules/thumbnail-downloader.js:158 | one trailing "spaces digits spaces minute(s) spaces" suffix is removed exactly |
| ThumbnailText.CleanLabel | modules/thumbnail-downloader.js:158 | the cleaned label is trimmed |
| ThumbnailText.CleanLabelPlain | modules/thumbnail-downloader.js:158 | a label without a duration suffix is only trimmed |
| ThumbnailText.CleanLabelCut | modules/thumbnail-downloader.js:158 | a label with one is cut where the leftmost match starts, then trimmed |
| ThumbnailText.SanitizeFilename | modules/thumbnail-downloader.js:215-235 | always a clean name: non-empty, at most 200 characters, no reserved character, single spaces, trimmed; 'youtube-thumbnail' for empty input |
| ThumbnailText.RemoveReserved | modules/thumbnail-downloader.js:220 | no reserved character is left, and text without one is unchanged |
| ThumbnailText.RemoveReservedAppend | modules/thumbnail-downloader.js:220 | removal distributes over concatenation |
| ThumbnailText.RemoveReservedChar | modules/thumbnail-downloader.js:220 | a reserved character is removed, any other kept |
| ThumbnailText.RemoveReservedBlank | modules/thumbnail-downloader.js:220 | reserved characters and white space leave only white space |
| ThumbnailText.CollapseSpace | modules/thumbnail-downloader.js:221 | the result is single-spaced, gains no reserved character, and starts with the input's first character (white space as one space) |
| ThumbnailText.CollapseKeepsVisible | modules/thumbnail-downloader.js:221 | the non-space characters are kept, in order |
| ThumbnailText.CollapseSingleSpaced | modules/thumbnail-downloader.js:221 | single-spaced text is unchanged |
| ThumbnailText.BlankIffInvisible | modules/thumbnail-downloader.js:222 | text is blank exactly when it has no visible character |
| ThumbnailText.SanitizeBlank | modules/thumbnail-downloader.js:216-232 | when nothing but white space is left after removal, the name is 'youtube-thumbnail' |
| ThumbnailText.SanitizeVisible | modules/thumbnail-downloader.js:219-234 | otherwise the name is the collapsed, trimmed text, which is non-empty; past 200 characters it is cut there and trimmed again |
| ThumbnailText.SanitizeNothingLeft | modules/thumbnail-downloader.js:216-232 | a name of reserved characters and white space only, such as "???", gives 'youtube-thumbnail' |
| ThumbnailText.SanitizeKeepsClean | modules/thumbnail-downloader.js:215-235 | a clean name is returned unchanged |
| ThumbnailText.SanitizeIdempotent | modules/thumbnail-downloader.js:215-235 | sanitizing twice equals sanitizing once |
| ThumbnailText.BuildMaxResThumbnailUrl | modules/thumbnail-downloader.js:263-265 | the URL is the i.ytimg.com `/vi/` host, then the id, then `/maxresdefault.jpg`, each at its place |
| ThumbnailText.MaxResUrlRoundTrip | modules/thumbnail-downloader.js:263-265 | extractVideoId reads the id back from the built URL |
| ThumbnailText.ConvertToMaxResolution | modules/thumbnail-downloader.js:487-496 | equals the last-segment replacement; a URL without a jpg/webp ending (empty included) is unchanged |
| ThumbnailText.ConvertKnownQuality | modules/thumbnail-downloader.js:491-492 | a known quality name, in any case, becomes maxresdefault with the extension kept |
| ThumbnailText.ReplaceLastSegment | modules/thumbnail-downloader.js:495 | any last `<name>.jpg/webp` segment becomes `maxresdefault.<ext>` |
| ThumbnailText.ConvertIdempotent | modules/thumbnail-downloader.js:487-496 | converting twice equals converting once |
| ThumbnailText.UrlMatch | modules/thumbnail-downloader.js:286 | None exactly when the pattern matches nowhere; a match is the one at the leftmost matching position and captures a non-empty slash-free id and the extension jpg or webp |
| ThumbnailText.UrlMatchLeftmost | modules/thumbnail-downloader.js:286 | the match at the leftmost matching position is the one returned |
| ThumbnailText.DownloadFilename | modules/thumbnail-downloader.js:286-309 | the file name always ends in `.` plus the extension the URL or blob type gives |
| ThumbnailText.MaxResDownloadFilename | modules/thumbnail-downloader.js:286-309 | for a slash-free id, the max-resolution URL's file name is the sanitized title when there is one, else `youtube-thumbnail-<id>`, always with `.jpg` |
| Thumbnails.WatchId | modules/thumbnail-downloader.js:74 | None exactly when no `/watch?v=` is followed by a non-`&` character; a capture is non-empty and `&`-free |
| Thumbnails.WatchIdRoundTrip | modules/thumbnail-downloader.js:74 | the id is read back from `/watch?v=<id>` followed by nothing or `&...` |
| Thumbnails.ParamId | modules/thumbnail-downloader.js:83 | None exactly when no `?v=`/`&v=` is followed by a non-`&` character; a capture is non-empty and `&`-free |
| Thumbnails.ParamIdRoundTrip | modules/thumbnail-downloader.js:83 | the id is read back from `<path>?v=<id>` or `<path>&v=<id>` |
| Thumbnails.ImageVideoId | modules/thumbnail-downloader.js:61-69 | strategy 1 yields an id exactly when the thumbnail image has a non-empty src whose id is not "unknown", and then that id |
| Thumbnails.FirstLinkParamId | modules/thumbnail-downloader.js:81-87 | None exactly when no link carries a v parameter |
| Thumbnails.FirstLinkParamIdFirst | modules/thumbnail-downloader.js:82-86 | a result is the id of some link, and every link before that one carries no v parameter: the first link with one wins |
| Thumbnails.VideoIdFor | modules/thumbnail-downloader.js:59-90 | the image id wins, then the watch link; null exactly when all three strategies fail |
| Thumbnails.VideoIdForThird | modules/thumbnail-downloader.js:82-86 | with no image id and no watch link, the id is strategy 3's over the container's links |
| Thumbnails.ExtractVideoIdFor | modules/thumbnail-downloader.js:59-90 | the strategy chain with its loop over links computes VideoIdFor |
| Thumbnails.SelectorTitle | modules/thumbnail-downloader.js:119-150 | strategy 2's value is trimmed and non-empty; None exactly when no selector yields a title |
| Thumbnails.SelectorTitleFirst | modules/thumbnail-downloader.js:128-149 | a result is the hit of some selector, and no selector before it in the list yields a title: the first in order wins |
| Thumbnails.TitleFor | modules/thumbnail-downloader.js:95-210 | the title is trimmed; the title element wins when it yields one; null exactly when all six strategies fail |
| Thumbnails.TitleForOrder | modules/thumbnail-downloader.js:119-209 | strategies 2 to 6 are tried in order: when all earlier ones fail and one succeeds, its title is the result |
| Thumbnails.EmptyTitleFromOldLink | modules/thumbnail-downloader.js:174-178 | an empty title can only come from the old title link's attribute branch |
| Thumbnails.ExtractVideoTitle | modules/thumbnail-downloader.js:95-210 | the six strategies with the selector loop compute TitleFor |
| Thumbnails.DownloadThumbnail | modules/thumbnail-downloader.js:270-334 | a file is saved exactly when the fetch succeeds, with the URL and title inputs that name it |
| Thumbnails.ButtonFor | modules/thumbnail-downloader.js:26-54 | no button when the container throws, has no thumbnail container or has no id; otherwise a button for its id and title |
| Thumbnails.ClickSavesJpg | modules/thumbnail-downloader.js:240-258 | for a slash-free id, a click fetches the max-resolution URL and saves the sanitized title or `youtube-thumbnail-<id>`, with `.jpg` |
| Thumbnails.ButtonPassIdempotent | modules/thumbnail-downloader.js:14-54 | a second pass over an unchanged page attaches no button |
| Thumbnails.ThumbnailDownloader.AddThumbnailDownloadButton | modules/thumbnail-downloader.js:26-54 | a processed video is skipped; otherwise the video is marked exactly when a button is attached |
| Thumbnails.ThumbnailDownloader.AddThumbnailDownloadButtons | modules/thumbnail-downloader.js:14-21 | the state becomes the guarded pass over all containers, in order |
| Thumbnails.ThumbnailDownloader.RemoveAllDownloadButtons | modules/thumbnail-downloader.js:501-511 | the processed set and the buttons are emptied |
| Thumbnails.ButtonCounter | modules/thumbnail-downloader.js:516-518 | the count equals the number of attached buttons |
| Thumbnails.DownloadAllThumbnails | modules/thumbnail-downloader.js:377-427 | the loop computes DownloadAll, aborting with the error status at a throwing container |
| Thumbnails.BatchCounts | modules/thumbnail-downloader.js:390-421 | aborted exactly when a container throws; otherwise downloads equal the successes, downloads plus errors equal the containers seen, one saved file per download |
| Thumbnails.BatchStatuses | modules/thumbnail-downloader.js:384-420 | the start status, then the summary only when the last container was fetched |
| Thumbnails.MaxResSameWork | modules/thumbnail-downloader.js:432-482 | the max-resolution batch does the same fetches and counts; only the wording differs |
| Thumbnails.BatchFileName | modules/thumbnail-downloader.js:291-309 | the batch names a file as a click on that video's button would, for every id |
| Thumbnails.SlashInWatchId | modules/thumbnail-downloader.js:74 | `/watch?v=ab/cd` gives the id `ab/cd` |
| Thumbnails.UnmatchedClickName | modules/thumbnail-downloader.js:286-309 | when the fetched URL escapes the file-name pattern, an untitled click saves `youtube-thumbnail-unknown` with the blob type's extension |
| Thumbnails.SlashIdClickName | modules/thumbnail-downloader.js:286-309 | the button for id `ab/cd` saves `youtube-thumbnail-unknown.webp` or `.jpg`, after the blob type |
| Copy.IconFor | modules/copy-manager.js:38-42 | no icon when inspecting the container throws or it has no title element; otherwise the icon copies the title element's trimmed text |
| Copy.CopyPassIdempotent | modules/copy-manager.js:14-53 | a second pass over an unchanged page adds no icon |
| Copy.CopyManager.AddCopyIconToVideo | modules/copy-manager.js:31-53 | a marked video is skipped; otherwise the video is marked exactly when one icon is inserted |
| Copy.CopyManager.AddCopyIconsToVideos | modules/copy-manager.js:14-26 | the state becomes the guarded pass over all containers, in order |
| Copy.CopyManager.RemoveAllCopyIcons | modules/copy-manager.js:233-242 | the set and the icons are emptied |
| Copy.IconCounters | modules/copy-manager.js:247-256 | hasCopyIcons is true exactly when icons exist; the count equals the number of icons |
| Copy.ClipboardText | modules/copy-manager.js:97-101 | text is copied exactly when it is not blank, and unchanged |
| Copy.Lines | modules/copy-manager.js:211-216 | one line per video, in order |
| Copy.CopyAllTitles | modules/copy-manager.js:201-228 | nothing without videos; otherwise the clipboard gets the videos' copy lines joined by newlines (never refused as blank) and the "Copied N videos" status is shown |
| Copy.CopyAllOneLinePerVideo | modules/copy-manager.js:211-218 | when no field holds a line break, splitting the clipboard text at newlines gives back the lines, one per video |
| Copy.JoinNotBlank | modules/copy-manager.js:218-219 | the joined text always passes the blank-text guard |
| Ui.SearchContainer | modules/ui-manager.js:74-93 | yt-searchbox wins; else the block around `#search-form`; else the block around the search input; a container is found only when one of the three lookups hits |
| Ui.Closest | modules/ui-manager.js:83-89 | a result is the node itself or an ancestor, carries the tag, and is the node itself when the node has the tag |
| Ui.ClosestNearest | modules/ui-manager.js:83-89 | the match is the nearest: no node between the node and the result has the tag, and with no result no ancestor element has it |
| Ui.EnclosingBlock | modules/ui-manager.js:84-90 | the nearest DIV at or above the node, else its parent element; never below the node |
| Ui.EscapeHtmlPerChar | modules/ui-manager.js:347-356 | the chain of replacements, with `&` first, escapes each character on its own |
| Ui.EscapedIsSafe | modules/ui-manager.js:347-356 | no raw quote, apostrophe, `<` or `>` remains, and every `&` begins one of the five entities |
| Ui.UnescapeEscapeHtml | modules/ui-manager.js:347-356 | decoding the attribute gives back the text |
| Ui.RowsOf | modules/ui-manager.js:308-322 | one row per video, in order |
| Ui.RowCopyTextIsCopyLine | modules/ui-manager.js:315-338 | a row's copy button produces title, views and upload date separated by space-bar-space with 'N/A' for missing fields |
| Ui.TableFor | modules/ui-manager.js:292-295 | the placeholder exactly for an empty list; otherwise one row per video |
| Ui.UIManager.Initialize | modules/ui-manager.js:16-22 | a second call changes nothing; the first sets isInitialized even when no search container exists |
| Ui.UIManager.CreateEmbeddedUI | modules/ui-manager.js:39-69 | an existing panel is never replaced; a panel is created only when a search container exists |
| Ui.UIManager.ToggleDropdown | modules/ui-manager.js:236-242 | with a panel, isContentVisible flips; without one nothing changes |
| Ui.UIManager.ShowDropdown | modules/ui-manager.js:247-255 | with a panel the dropdown shows and isContentVisible is true; without one nothing changes |
| Ui.UIManager.HideDropdown | modules/ui-manager.js:260-268 | with a panel the dropdown hides and isContentVisible is false; without one nothing changes |
| Ui.UIManager.ShowStatus | modules/ui-manager.js:273-281 | with a panel the status text and class are set; without one nothing changes |
| Ui.UIManager.UpdateResultsTable | modules/ui-manager.js:286-295 | with a panel the table becomes TableFor; without one nothing changes |
| Ui.UIManager.Cleanup | modules/ui-manager.js:878-885 | no panel, not initialised, not visible |
| Affordances.Visit | modules/copy-manager.js:34-48 | a processed container, or one that yields nothing, is left alone; otherwise it is marked and one affordance appended |
| Affordances.VisitsValid | modules/thumbnail-downloader.js:27-49 | the set stays exactly the containers that carry an affordance, one each |
| Affordances.VisitsSettles | modules/thumbnail-downloader.js:14-21 | after a pass every container is marked or yields nothing |
| Affordances.VisitsIdempotent | modules/thumbnail-downloader.js:27-29 | a second pass over the same containers changes nothing |
| Affordances.CountIsSize | modules/thumbnail-downloader.js:516-518 | the set's size equals the number of affordances |
| Content.ShouldUpdate | content.js:32-52 | the flag is set exactly when some childList mutation adds an element that is or holds a video container |
| Content.RelevantAppend | content.js:35-50 | a batch is relevant exactly when one of its two halves is |
| Content.RescanIdempotent | content.js:53-56 | repeated re-scans of an unchanged page add no icon and no button |
| Content.Extension.InitializeEmbeddedUI | content.js:7-24 | panel, then copy pass, then button pass, then one more observer |
| Content.Extension.OnMutations | content.js:32-58 | a re-scan is scheduled exactly for a relevant batch |
| Content.Extension.RescanPage | content.js:53-56 | the copy pass, then the button pass |
| Content.Extension.CheckForNavigation | content.js:75-92 | off YouTube nothing changes; on YouTube the panel is cleaned up, both sets emptied and a re-init scheduled |
| Content.Extension.PeriodicCheck | content.js:119-123 | initialises only when the panel manager is not initialised; then the panel is mounted when absent and a container exists, visibility and the scheduled tasks are kept, and icons and buttons are added |
| Content.Extension.OnVisibilityChange | content.js:99-103 | a navigation check is scheduled when the page becomes visible |
| Content.Extension.OnPopState | content.js:106-108 | a navigation check is always scheduled |
| Content.Extension.RunTask | content.js:53-115 | the fired callback leaves the queue, and the state afterwards is that of a re-scan, an initialisation or a navigation check, as the callback was |

## Left out

- Network and file download: `fetch`, the blob, object URLs and the anchor
  click. A fetch outcome is a parameter. `None` means the request failed. For
  a success, the value says whether the blob type is `image/webp`.
- Clipboard mechanics: `navigator.clipboard`, the `execCommand` fallback and
  the success/error animations on icons and buttons.
- Timers. The three delayed callbacks become a `Content.Task` that the
  environment runs later through `RunTask`: `Rescan` (the observer's
  re-scan), `Reinitialize` (initializeEmbeddedUI after a navigation
  teardown) and `CheckNavigation` (checkForNavigation after a visibility
  change or popstate). The start-up initialisation (on DOMContentLoaded or
  after 1 s) and the 5 s interval are direct calls to
  `InitializeEmbeddedUI` and `PeriodicCheck`. The 500 ms and 1 s
  delays, the 5 s interval and the `index * 100` stagger of the batch loop
  are not modelled. Neither is the interleaving of awaits in the batch loop:
  it is modelled as running to completion.
- CSS, the panel's HTML template, `injectStyles`, `getStyles`, event listener
  wiring and insertion placement. `ensureRelativePositioning` and
  `waitForElement` are left out as well.
- The selector engine. Every selector lookup is an oracle over the abstract
  node tree.
- Console logging and `debugVideoDetection`.
- The outer `catch` blocks of `addCopyIconsToVideos`,
  `addThumbnailDownloadButtons`, `removeAll*`, `extractVideos` and
  `copyAllTitles`. Throwing is modelled per container (the page's `faults`),
  and only where the source catches per container or aborts the batch.
- `extractViews` and `extractUploadDate` have their own `catch` returning
  'N/A'. In the model they do not throw, because faults are per container and
  are caught by `extractVideoData`.
- The `!video` guard in `addThumbnailDownloadButton`, which can never fire on
  a found container.
- `<td>` cells are inserted into the table without escaping. The HTML
  rendering is not modelled; the `Row` keeps the raw cell text.
- Unicode: white space is the ASCII set plus NBSP and BOM, and lower-casing
  is ASCII only. The 200-character cap counts characters, not UTF-16 code
  units.
- Statuses and table updates issued through `YTUIManager` by the batch loop
  and `copyAllTitles` are returned as values rather than applied to the panel.
- Observers. Every `initializeEmbeddedUI` registers another observer, and
  each would schedule its own re-scan for a relevant batch. `OnMutations`
  schedules one re-scan per batch, whatever the observer count.
- URL resolution: the model reads an image's `src` attribute as written,
  while the source reads the `img.src` property, which the browser resolves
  against the page URL.
- Ui.UnescapeEscapeHtml: the round trip ignores the HTML parser's
  normalisation of CR and CRLF to LF in attribute values.
- `window.YTUIManager` is always present in the model, so the periodic
  check's `!window.YTUIManager` test is not modelled.

## Behaviour worth knowing

- The final summary of a batch download is issued only inside an attempted
  download. When the last container has no id, no summary is shown.
  `Thumbnails.BatchStatuses` states this.
- `extractVideos` with no containers leaves `extractedVideos` as it was
  (`Extractor.Extract`).
- An old-style title link whose title attribute is pure white space yields the
  empty title `''` (`Thumbnails.EmptyTitleFromOldLink`).
- A `v` value holding a slash, as in `/watch?v=ab/cd`, becomes the id
  `ab/cd` (`Thumbnails.SlashInWatchId`). The button then fetches
  `.../vi/ab/cd/maxresdefault.jpg`, which the file-name pattern does not
  match, so an untitled click saves `youtube-thumbnail-unknown.webp` or
  `youtube-thumbnail-unknown.jpg` after the blob type, not
  `youtube-thumbnail-ab/cd.jpg` (`Thumbnails.SlashIdClickName`).
- Each `initializeEmbeddedUI` call registers one more mutation observer and
  none is ever disconnected. `Content.Extension.observers` only grows.
