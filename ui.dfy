/**
 * The embedded header panel of modules/ui-manager.js: its three flags, the
 * dropdown, the status line and the results table, the attribute escaper and
 * the text a row's copy button produces.
 *
 * The panel's markup is a fixed template (modules/ui-manager.js:98-160) that
 * always holds the dropdown, the status line and the results table, so once
 * `embeddedUI` exists the lookups of those three parts always succeed; the
 * panel is modelled by the state of those parts.
 */
module Ui {
  import opened Wrappers
  import opened Text
  import opened Dom
  import opened Video

  /** A status line: its message and its type (`info`, `success`, `warning` or `error`). */
  datatype Status = Status(message: string, kind: string)

  /** One row of the results table: the three cells and the copy button's three data attributes. */
  datatype Row = Row(
    titleCell: string,
    viewsCell: string,
    uploadDateCell: string,
    dataTitle: string,
    dataViews: string,
    dataUploadDate: string)

  datatype Table = Placeholder(text: string) | Rows(rows: seq<Row>)

  datatype Panel = Panel(dropdownShown: bool, statusText: string, statusClass: string, table: Table)

  const NoResults: string := "No videos found on this page."

  /** The panel as the template creates it: dropdown hidden (`display: none`), status "Ready...". */
  const InitialPanel: Panel := Panel(
    false,
    "Ready to extract videos...",
    "yt-info-status-text",
    Placeholder("No videos extracted yet. Click \"Extract Videos\" to start."))

  // ---------------------------------------------------------------------------
  // findSearchContainer

  /** `n.closest(tag)`: `n` itself or its nearest ancestor element with that tag name. */
  function Closest(p: Page, n: NodeId, tagName: string): (r: Option<NodeId>)
    ensures r.Some? ==> r.value <= n && r.value < |p.nodes| && p.nodes[r.value].tagName == tagName
    ensures r.Some? ==> r.value == n || Below(p.nodes, n, r.value)
    ensures n < |p.nodes| && n != DocumentNode && p.nodes[n].tagName == tagName ==> r == Some(n)
    decreases n
  {
    if n >= |p.nodes| || n == DocumentNode then None
    else if p.nodes[n].tagName == tagName then Some(n)
    else match p.nodes[n].parent
      case None => None
      case Some(q) => if q < n then Closest(p, q, tagName) else None
  }

  /**
   * `closest` finds the nearest match: neither the node nor any ancestor below
   * the result has the tag, and with no result no ancestor element has it.
   */
  lemma {:induction false} ClosestNearest(p: Page, n: NodeId, tagName: string)
    ensures Closest(p, n, tagName).Some? && Closest(p, n, tagName).value != n ==>
              n < |p.nodes| && p.nodes[n].tagName != tagName
    ensures Closest(p, n, tagName).Some? ==>
              forall a: NodeId ::
                (Below(p.nodes, n, a) && Below(p.nodes, a, Closest(p, n, tagName).value) && a < |p.nodes|) ==>
                p.nodes[a].tagName != tagName
    ensures Closest(p, n, tagName).None? ==>
              forall a: NodeId ::
                (Below(p.nodes, n, a) && a != DocumentNode && a < |p.nodes|) ==> p.nodes[a].tagName != tagName
    decreases n
  {
    var r := Closest(p, n, tagName);
    if n < |p.nodes| && n != DocumentNode && p.nodes[n].tagName != tagName
       && p.nodes[n].parent.Some? && p.nodes[n].parent.value < n {
      var q := p.nodes[n].parent.value;
      ClosestNearest(p, q, tagName);
      assert r == Closest(p, q, tagName);
      if r.Some? {
        forall a: NodeId | Below(p.nodes, n, a) && Below(p.nodes, a, r.value) && a < |p.nodes|
          ensures p.nodes[a].tagName != tagName
        {
          BelowPrecedes(p.nodes, a, r.value);
          if a != q {
            BelowPrecedes(p.nodes, q, a);
          }
        }
      }
    } else if r.Some? {
      forall a: NodeId ensures !(Below(p.nodes, n, a) && Below(p.nodes, a, r.value)) {
        BelowPrecedes(p.nodes, n, a);
        BelowPrecedes(p.nodes, a, r.value);
      }
    }
  }

  /** `el.closest('div') || el.parentElement` */
  function EnclosingBlock(p: Page, n: NodeId): (r: Option<NodeId>)
    ensures Closest(p, n, "DIV").Some? ==> r == Closest(p, n, "DIV")
    ensures Closest(p, n, "DIV").None? ==> r == ParentElement(p, n)
    ensures r.Some? ==> r.value <= n
  {
    match Closest(p, n, "DIV")
    case Some(d) => Some(d)
    case None => ParentElement(p, n)
  }

  /**
   * The searchbox, else the block around `#search-form`, else the block around
   * the search input; `None` when the header has none of them.
   */
  function SearchContainer(p: Page): (r: Option<NodeId>)
    ensures Query(p, "yt-searchbox", DocumentNode).Some? ==> r == Query(p, "yt-searchbox", DocumentNode)
    ensures Query(p, "yt-searchbox", DocumentNode).None? && Query(p, "#search-form", DocumentNode).Some? ==>
              r == EnclosingBlock(p, Query(p, "#search-form", DocumentNode).value)
    ensures Query(p, "yt-searchbox", DocumentNode).None? && Query(p, "#search-form", DocumentNode).None?
            && Query(p, "#search, #search-input", DocumentNode).Some? ==>
              r == EnclosingBlock(p, Query(p, "#search, #search-input", DocumentNode).value)
    ensures r.Some? ==> Query(p, "yt-searchbox", DocumentNode).Some? || Query(p, "#search-form", DocumentNode).Some?
                        || Query(p, "#search, #search-input", DocumentNode).Some?
  {
    match Query(p, "yt-searchbox", DocumentNode)
    case Some(box) => Some(box)
    case None =>
      match Query(p, "#search-form", DocumentNode)
      case Some(form) => EnclosingBlock(p, form)
      case None =>
        match Query(p, "#search, #search-input", DocumentNode)
        case Some(input) => EnclosingBlock(p, input)
        case None => None
  }

  // ---------------------------------------------------------------------------
  // escapeHtml

  /** The entities the escaper writes. */
  const Entities: seq<string> := ["&amp;", "&quot;", "&#x27;", "&lt;", "&gt;"]

  /** The characters the escaper rewrites. */
  predicate Special(c: char) {
    c == '&' || c == '"' || c == '\'' || c == '<' || c == '>'
  }

  /** `escapeHtml`: `''` for a falsy text, else the five global replacements, `&` first. */
  function EscapeHtml(text: string): string {
    if text == "" then ""
    else ReplaceChar(ReplaceChar(ReplaceChar(ReplaceChar(ReplaceChar(
           text, '&', "&amp;"), '"', "&quot;"), '\'', "&#x27;"), '<', "&lt;"), '>', "&gt;")
  }

  /** The escape of one character, stated independently of the replacement chain. */
  function EscapeChar(c: char): (r: string)
    ensures Special(c) ==> r == Entities[if c == '&' then 0 else if c == '"' then 1 else if c == '\'' then 2 else if c == '<' then 3 else 4]
    ensures !Special(c) ==> r == [c]
    ensures forall i :: 0 <= i < |r| ==> r[i] != '"' && r[i] != '\'' && r[i] != '<' && r[i] != '>'
    ensures r != [] && (r[0] == '&' <==> Special(c))
    ensures forall i :: 0 < i < |r| ==> r[i] != '&'
  {
    if c == '&' then "&amp;"
    else if c == '"' then "&quot;"
    else if c == '\'' then "&#x27;"
    else if c == '<' then "&lt;"
    else if c == '>' then "&gt;"
    else [c]
  }

  /** Every character replaced by its escape, left to right. */
  function Escaped(s: string): (r: string)
    ensures forall i :: 0 <= i < |r| ==> r[i] != '"' && r[i] != '\'' && r[i] != '<' && r[i] != '>'
  {
    if s == [] then [] else EscapeChar(s[0]) + Escaped(s[1..])
  }

  lemma ReplaceAbsent(s: string, c: char, rep: string)
    requires c !in s
    ensures ReplaceChar(s, c, rep) == s
  {
  }

  function Chain(s: string): string {
    ReplaceChar(ReplaceChar(ReplaceChar(ReplaceChar(ReplaceChar(
      s, '&', "&amp;"), '"', "&quot;"), '\'', "&#x27;"), '<', "&lt;"), '>', "&gt;")
  }

  lemma ChainAppend(a: string, b: string)
    ensures Chain(a + b) == Chain(a) + Chain(b)
  {
    var r1a, r1b := ReplaceChar(a, '&', "&amp;"), ReplaceChar(b, '&', "&amp;");
    ReplaceCharAppend(a, b, '&', "&amp;");
    var r2a, r2b := ReplaceChar(r1a, '"', "&quot;"), ReplaceChar(r1b, '"', "&quot;");
    ReplaceCharAppend(r1a, r1b, '"', "&quot;");
    var r3a, r3b := ReplaceChar(r2a, '\'', "&#x27;"), ReplaceChar(r2b, '\'', "&#x27;");
    ReplaceCharAppend(r2a, r2b, '\'', "&#x27;");
    var r4a, r4b := ReplaceChar(r3a, '<', "&lt;"), ReplaceChar(r3b, '<', "&lt;");
    ReplaceCharAppend(r3a, r3b, '<', "&lt;");
    ReplaceCharAppend(r4a, r4b, '>', "&gt;");
  }

  lemma ReplaceOne(c: char, rep: string)
    ensures ReplaceChar([c], c, rep) == rep
  {
    assert [c][1..] == [];
  }

  /** One replacement step on a text that is either the character itself or already escaped. */
  lemma ReplaceStep(c: char, t: string, key: char, rep: string)
    requires t == [c] || (t == EscapeChar(c) && Special(c))
    requires Special(key) && (key != '&' || t == [c])
    ensures t == [c] && c == key ==> ReplaceChar(t, key, rep) == rep
    ensures !(t == [c] && c == key) ==> ReplaceChar(t, key, rep) == t
  {
    if t == [c] && c == key {
      ReplaceOne(c, rep);
    } else {
      assert key !in t;
      ReplaceAbsent(t, key, rep);
    }
  }

  lemma ChainChar(c: char)
    ensures Chain([c]) == EscapeChar(c)
  {
    var r1 := ReplaceChar([c], '&', "&amp;");
    ReplaceStep(c, [c], '&', "&amp;");
    var r2 := ReplaceChar(r1, '"', "&quot;");
    ReplaceStep(c, r1, '"', "&quot;");
    var r3 := ReplaceChar(r2, '\'', "&#x27;");
    ReplaceStep(c, r2, '\'', "&#x27;");
    var r4 := ReplaceChar(r3, '<', "&lt;");
    ReplaceStep(c, r3, '<', "&lt;");
    ReplaceStep(c, r4, '>', "&gt;");
  }

  /** The replacement chain, `&` first, escapes each character once: it is the per-character escape. */
  lemma {:induction false} EscapeHtmlPerChar(s: string)
    ensures EscapeHtml(s) == Escaped(s)
  {
    if s != [] {
      ChainPerChar(s);
    }
  }

  lemma {:induction false} ChainPerChar(s: string)
    ensures Chain(s) == Escaped(s)
  {
    if s != [] {
      assert s == [s[0]] + s[1..];
      ChainAppend([s[0]], s[1..]);
      ChainChar(s[0]);
      ChainPerChar(s[1..]);
    }
  }

  /** An entity the escaper writes starts at `i`. */
  predicate EntityAt(r: string, i: nat) {
    exists e :: e in Entities && StartsAt(r, i, e)
  }

  lemma StartsAtShift(a: string, b: string, j: nat, e: string)
    requires StartsAt(b, j, e)
    ensures StartsAt(a + b, |a| + j, e)
  {
    assert (a + b)[|a| + j..|a| + j + |e|] == b[j..j + |e|];
  }

  /** No raw quote, apostrophe or angle bracket, and every `&` begins one of the five entities. */
  lemma {:induction false} EscapedIsSafe(s: string)
    ensures forall i :: 0 <= i < |Escaped(s)| ==> !(Special(Escaped(s)[i]) && Escaped(s)[i] != '&')
    ensures forall i :: 0 <= i < |Escaped(s)| && Escaped(s)[i] == '&' ==> EntityAt(Escaped(s), i)
  {
    if s != [] {
      var head := EscapeChar(s[0]);
      var tail := Escaped(s[1..]);
      EscapedIsSafe(s[1..]);
      forall i | 0 <= i < |Escaped(s)| && Escaped(s)[i] == '&' ensures EntityAt(Escaped(s), i) {
        if i < |head| {
          assert i == 0 && Special(s[0]);
          assert head in Entities && StartsAt(Escaped(s), 0, head);
        } else {
          assert tail[i - |head|] == '&';
          var e :| e in Entities && StartsAt(tail, i - |head|, e);
          StartsAtShift(head, tail, i - |head|, e);
        }
      }
    }
  }

  /** The browser's reading of an attribute value, for the five entities the escaper writes. */
  function Unescape(r: string): string
    decreases |r|
  {
    if r == [] then []
    else if StartsAt(r, 0, "&amp;") then "&" + Unescape(r[5..])
    else if StartsAt(r, 0, "&quot;") then "\"" + Unescape(r[6..])
    else if StartsAt(r, 0, "&#x27;") then "'" + Unescape(r[6..])
    else if StartsAt(r, 0, "&lt;") then "<" + Unescape(r[4..])
    else if StartsAt(r, 0, "&gt;") then ">" + Unescape(r[4..])
    else [r[0]] + Unescape(r[1..])
  }

  /** Reading an escaped attribute back gives the original text. */
  lemma {:induction false} UnescapeEscapeHtml(s: string)
    ensures Unescape(EscapeHtml(s)) == s
  {
    EscapeHtmlPerChar(s);
    UnescapeEscaped(s);
  }

  lemma {:induction false} UnescapeEscaped(s: string)
    ensures Unescape(Escaped(s)) == s
  {
    if s != [] {
      UnescapeChar(s[0], Escaped(s[1..]));
      UnescapeEscaped(s[1..]);
    }
  }

  /** One escaped character is read back, whatever follows it. */
  lemma UnescapeChar(c: char, tail: string)
    ensures Unescape(EscapeChar(c) + tail) == [c] + Unescape(tail)
  {
    if c == '&' {
      UnescapeAmp(tail);
    } else if c == '"' {
      UnescapeQuot(tail);
    } else if c == '\'' {
      UnescapeApos(tail);
    } else if c == '<' {
      UnescapeLt(tail);
    } else if c == '>' {
      UnescapeGt(tail);
    } else {
      UnescapePlain(c, tail);
    }
  }

  lemma UnescapeAmp(tail: string)
    ensures Unescape("&amp;" + tail) == "&" + Unescape(tail)
  {
    var r := "&amp;" + tail;
    assert StartsAt(r, 0, "&amp;") by { assert r[..5] == "&amp;"; }
    assert r[5..] == tail;
  }

  lemma UnescapeQuot(tail: string)
    ensures Unescape("&quot;" + tail) == "\"" + Unescape(tail)
  {
    var r := "&quot;" + tail;
    assert !StartsAt(r, 0, "&amp;") by { assert r[1] == 'q'; }
    assert StartsAt(r, 0, "&quot;") by { assert r[..6] == "&quot;"; }
    assert r[6..] == tail;
  }

  lemma UnescapeApos(tail: string)
    ensures Unescape("&#x27;" + tail) == "'" + Unescape(tail)
  {
    var r := "&#x27;" + tail;
    assert !StartsAt(r, 0, "&amp;") && !StartsAt(r, 0, "&quot;") by { assert r[1] == '#'; }
    assert StartsAt(r, 0, "&#x27;") by { assert r[..6] == "&#x27;"; }
    assert r[6..] == tail;
  }

  lemma UnescapeLt(tail: string)
    ensures Unescape("&lt;" + tail) == "<" + Unescape(tail)
  {
    var r := "&lt;" + tail;
    assert !StartsAt(r, 0, "&amp;") && !StartsAt(r, 0, "&quot;") && !StartsAt(r, 0, "&#x27;") by { assert r[1] == 'l'; }
    assert StartsAt(r, 0, "&lt;") by { assert r[..4] == "&lt;"; }
    assert r[4..] == tail;
  }

  lemma UnescapeGt(tail: string)
    ensures Unescape("&gt;" + tail) == ">" + Unescape(tail)
  {
    var r := "&gt;" + tail;
    assert !StartsAt(r, 0, "&amp;") && !StartsAt(r, 0, "&quot;") && !StartsAt(r, 0, "&#x27;")
           && !StartsAt(r, 0, "&lt;") by { assert r[1] == 'g'; }
    assert StartsAt(r, 0, "&gt;") by { assert r[..4] == "&gt;"; }
    assert r[4..] == tail;
  }

  lemma UnescapePlain(c: char, tail: string)
    requires c != '&'
    ensures Unescape([c] + tail) == [c] + Unescape(tail)
  {
    var r := [c] + tail;
    NoEntityStart(r, "&amp;");
    NoEntityStart(r, "&quot;");
    NoEntityStart(r, "&#x27;");
    NoEntityStart(r, "&lt;");
    NoEntityStart(r, "&gt;");
    assert r[1..] == tail;
  }

  lemma NoEntityStart(r: string, lit: string)
    requires r != [] && lit != [] && r[0] != lit[0]
    ensures !StartsAt(r, 0, lit)
  {
  }

  // ---------------------------------------------------------------------------
  // Rows

  /** The row `updateResultsTable` renders for one record. */
  function RowOf(v: VideoRecord): Row {
    var views := OrElse(v.views, NotAvailable);
    var uploadDate := OrElse(v.uploadDate, NotAvailable);
    Row(v.title, views, uploadDate, EscapeHtml(v.title), EscapeHtml(views), EscapeHtml(uploadDate))
  }

  function RowsOf(videos: seq<VideoRecord>): (r: seq<Row>)
    ensures |r| == |videos| && forall i :: 0 <= i < |videos| ==> r[i] == RowOf(videos[i])
  {
    if videos == [] then [] else [RowOf(videos[0])] + RowsOf(videos[1..])
  }

  /** What the row's copy button puts on the clipboard: its data attributes as the browser reads them. */
  function RowCopyText(row: Row): string {
    Line(OrElse(Unescape(row.dataTitle), ""),
         OrElse(Unescape(row.dataViews), NotAvailable),
         OrElse(Unescape(row.dataUploadDate), NotAvailable))
  }

  /** `title | views | uploadDate`, with `N/A` for a missing view count or date. */
  function CopyLine(v: VideoRecord): string {
    Line(v.title, OrElse(v.views, NotAvailable), OrElse(v.uploadDate, NotAvailable))
  }

  /** A row's copy button yields the record's copy line: escaping loses nothing. */
  lemma RowCopyTextIsCopyLine(v: VideoRecord)
    ensures RowCopyText(RowOf(v)) == CopyLine(v)
  {
    UnescapeEscapeHtml(v.title);
    UnescapeEscapeHtml(OrElse(v.views, NotAvailable));
    UnescapeEscapeHtml(OrElse(v.uploadDate, NotAvailable));
  }

  /** The table for a list of records: the placeholder for an empty list, else one row per record. */
  function TableFor(videos: seq<VideoRecord>): (t: Table)
    ensures t.Placeholder? <==> videos == []
    ensures t.Placeholder? ==> t.text == NoResults
    ensures t.Rows? ==> |t.rows| == |videos| && forall i :: 0 <= i < |videos| ==> t.rows[i] == RowOf(videos[i])
  {
    if videos == [] then Placeholder(NoResults) else Rows(RowsOf(videos))
  }

  /** The class `showStatus` gives the status line. */
  function StatusClass(kind: string): string {
    "yt-info-status-text yt-info-status-" + kind
  }

  // ---------------------------------------------------------------------------
  // The manager

  class UIManager {
    var embeddedUI: Option<Panel>
    var isInitialized: bool
    var isContentVisible: bool

    constructor ()
      ensures embeddedUI.None? && !isInitialized && !isContentVisible
    {
      embeddedUI := None;
      isInitialized := false;
      isContentVisible := false;
    }

    /** Once initialised, nothing changes; otherwise the panel is created if possible and the flag set regardless. */
    method Initialize(p: Page)
      modifies this
      ensures old(isInitialized) ==> embeddedUI == old(embeddedUI) && isInitialized && isContentVisible == old(isContentVisible)
      ensures !old(isInitialized) ==> isInitialized && isContentVisible == old(isContentVisible)
      ensures !old(isInitialized) ==> embeddedUI == (if old(embeddedUI).None? && SearchContainer(p).Some? then Some(InitialPanel) else old(embeddedUI))
    {
      if isInitialized {
        return;
      }
      CreateEmbeddedUI(p);
      isInitialized := true;
    }

    /** Never replaces an existing panel, and creates none without a search container. */
    method CreateEmbeddedUI(p: Page)
      modifies this
      ensures embeddedUI == (if old(embeddedUI).None? && SearchContainer(p).Some? then Some(InitialPanel) else old(embeddedUI))
      ensures isInitialized == old(isInitialized) && isContentVisible == old(isContentVisible)
    {
      if SearchContainer(p).None? || embeddedUI.Some? {
        return;
      }
      embeddedUI := Some(InitialPanel);
    }

    method ToggleDropdown()
      modifies this
      ensures embeddedUI.Some? <==> old(embeddedUI).Some?
      ensures old(embeddedUI).Some? ==> isContentVisible == !old(isContentVisible)
      ensures old(embeddedUI).Some? ==> embeddedUI.value == old(embeddedUI).value.(dropdownShown := isContentVisible)
      ensures old(embeddedUI).None? ==> embeddedUI == old(embeddedUI) && isContentVisible == old(isContentVisible)
      ensures isInitialized == old(isInitialized)
    {
      if isContentVisible {
        HideDropdown();
      } else {
        ShowDropdown();
      }
    }

    method ShowDropdown()
      modifies this
      ensures old(embeddedUI).Some? ==> embeddedUI == Some(old(embeddedUI).value.(dropdownShown := true)) && isContentVisible
      ensures old(embeddedUI).None? ==> embeddedUI == old(embeddedUI) && isContentVisible == old(isContentVisible)
      ensures isInitialized == old(isInitialized)
    {
      if embeddedUI.None? {
        return;
      }
      embeddedUI := Some(embeddedUI.value.(dropdownShown := true));
      isContentVisible := true;
    }

    method HideDropdown()
      modifies this
      ensures old(embeddedUI).Some? ==> embeddedUI == Some(old(embeddedUI).value.(dropdownShown := false)) && !isContentVisible
      ensures old(embeddedUI).None? ==> embeddedUI == old(embeddedUI) && isContentVisible == old(isContentVisible)
      ensures isInitialized == old(isInitialized)
    {
      if embeddedUI.None? {
        return;
      }
      embeddedUI := Some(embeddedUI.value.(dropdownShown := false));
      isContentVisible := false;
    }

    method ShowStatus(s: Status)
      modifies this
      ensures old(embeddedUI).Some? ==> embeddedUI == Some(old(embeddedUI).value.(statusText := s.message, statusClass := StatusClass(s.kind)))
      ensures old(embeddedUI).None? ==> embeddedUI == old(embeddedUI)
      ensures isInitialized == old(isInitialized) && isContentVisible == old(isContentVisible)
    {
      if embeddedUI.None? {
        return;
      }
      embeddedUI := Some(embeddedUI.value.(statusText := s.message, statusClass := StatusClass(s.kind)));
    }

    method UpdateResultsTable(videos: seq<VideoRecord>)
      modifies this
      ensures old(embeddedUI).Some? ==> embeddedUI == Some(old(embeddedUI).value.(table := TableFor(videos)))
      ensures old(embeddedUI).None? ==> embeddedUI == old(embeddedUI)
      ensures isInitialized == old(isInitialized) && isContentVisible == old(isContentVisible)
    {
      if embeddedUI.None? {
        return;
      }
      embeddedUI := Some(embeddedUI.value.(table := TableFor(videos)));
    }

    method Cleanup()
      modifies this
      ensures embeddedUI.None? && !isInitialized && !isContentVisible
    {
      embeddedUI := None;
      isInitialized := false;
      isContentVisible := false;
    }
  }
}
