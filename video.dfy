/**
 * The record the extractor builds for each video container
 * (modules/video-extractor.js:75-81) and the one-line text form the copy
 * features give it.
 */
module Video {
  import opened Dom

  /** Shown for a missing view count or upload date. */
  const NotAvailable: string := "N/A"

  datatype VideoRecord = VideoRecord(
    title: string,
    views: string,
    uploadDate: string,
    videoId: string,
    element: NodeId)

  /** The separator between the three fields of a line. */
  const Separator: string := " | "

  /** `${title} | ${views} | ${uploadDate}`: the three fields in order, a separator between each two. */
  function Line(title: string, views: string, uploadDate: string): (r: string)
    ensures |r| == |title| + |views| + |uploadDate| + 2 * |Separator|
    ensures r[..|title|] == title
    ensures r[|title|..|title| + 3] == Separator
    ensures r[|title| + 3..|title| + 3 + |views|] == views
    ensures r[|title| + 3 + |views|..|title| + 6 + |views|] == Separator
    ensures r[|r| - |uploadDate|..] == uploadDate
  {
    title + " | " + views + " | " + uploadDate
  }
}
