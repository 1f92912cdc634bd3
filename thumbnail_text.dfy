/**
 * The pure string rewrites of modules/thumbnail-downloader.js: the duration
 * suffix dropped from `aria-label` titles, `sanitizeFilename`, the
 * maximum-resolution thumbnail URLs and the file name `downloadThumbnail`
 * gives a download.
 */
module ThumbnailText {
  import opened Wrappers
  import opened Text
  import opened Dom

  // ---------------------------------------------------------------------------
  // `label.replace(/\s+\d+\s+minutes?\s*$/, '')`

  /**
   * The pattern matches from `i` to the end of `s`. Every part is forced: each
   * run must be taken whole, as the next part cannot start inside it, and the
   * optional `s` is taken whenever it is there.
   */
  predicate DurationAt(s: string, i: nat) {
    i < |s| && IsSpace(s[i]) &&
    var a := RunEnd(s, i, IsSpace);
    a < |s| && IsDigit(s[a]) &&
    var b := RunEnd(s, a, IsDigit);
    b < |s| && IsSpace(s[b]) &&
    var c := RunEnd(s, b, IsSpace);
    StartsAt(s, c, "minute") &&
    var e := if c + 6 < |s| && s[c + 6] == 's' then c + 7 else c + 6;
    RunEnd(s, e, IsSpace) == |s|
  }

  /** Where the pattern matches, as a test on positions. */
  function DurationTest(s: string): nat -> bool {
    (i: nat) => DurationAt(s, i)
  }

  /** The leftmost match, if any: the scan over DurationTest, read as DurationAt. */
  lemma FirstDuration(s: string)
    ensures var m := FirstWhere(|s|, 0, DurationTest(s));
      (m.Some? ==> m.value < |s| && DurationAt(s, m.value) && forall j :: 0 <= j < m.value ==> !DurationAt(s, j))
      && (m.None? ==> forall j :: 0 <= j < |s| ==> !DurationAt(s, j))
  {
    forall j: nat | j < |s| ensures DurationTest(s)(j) == DurationAt(s, j) {
    }
  }

  /** The label without its trailing duration: cut at the leftmost match, or unchanged. */
  function DropDuration(s: string): (r: string)
    ensures (forall i :: 0 <= i < |s| ==> !DurationAt(s, i)) ==> r == s
    ensures forall i :: (0 <= i < |s| && DurationAt(s, i) && (forall j :: 0 <= j < i ==> !DurationAt(s, j)))
                        ==> r == s[..i]
  {
    FirstDuration(s);
    match FirstWhere(|s|, 0, DurationTest(s))
    case None => s
    case Some(i) => s[..i]
  }

  /** `label.replace(...).trim()`, as strategies 3, 4 and 6 of extractVideoTitle clean a label. */
  function CleanLabel(aria: string): (r: string)
    ensures Trim(r) == r
  {
    TrimOfTrimmed(Trim(DropDuration(aria)));
    Trim(DropDuration(aria))
  }

  /** A label without a duration suffix is only trimmed. */
  lemma CleanLabelPlain(aria: string)
    requires forall i :: 0 <= i < |aria| ==> !DurationAt(aria, i)
    ensures CleanLabel(aria) == Trim(aria)
  {
  }

  /** A label with one is cut where the leftmost match starts, then trimmed. */
  lemma CleanLabelCut(aria: string, i: nat)
    requires i < |aria| && DurationAt(aria, i)
    requires forall j :: 0 <= j < i ==> !DurationAt(aria, j)
    ensures CleanLabel(aria) == Trim(aria[..i])
  {
  }

  predicate AllSpace(s: string) {
    forall j :: 0 <= j < |s| ==> IsSpace(s[j])
  }

  predicate AllDigits(s: string) {
    forall j :: 0 <= j < |s| ==> IsDigit(s[j])
  }

  /**
   * Exactly one trailing "N minutes" is removed: a title that does not end in
   * white space, followed by such a suffix, comes back unchanged.
   */
  lemma {:induction false} DropDurationSuffix(t: string, sp1: string, digits: string, sp2: string, unit: string, sp3: string)
    requires t == [] || !IsSpace(t[|t| - 1])
    requires sp1 != [] && AllSpace(sp1) && digits != [] && AllDigits(digits) && sp2 != [] && AllSpace(sp2)
    requires unit == "minute" || unit == "minutes"
    requires AllSpace(sp3)
    ensures DropDuration(t + sp1 + digits + sp2 + unit + sp3) == t
  {
    var s := t + sp1 + digits + sp2 + unit + sp3;
    var p2 := |t| + |sp1|;
    var p4 := p2 + |digits| + |sp2|;
    SuffixLayout(t, sp1, digits, sp2, unit, sp3);
    DropDurationAt(s, |t|, p2, p2 + |digits|, p4, p4 + |unit|);
  }

  /** A match at `p1` right after a non-space is the leftmost one, so the label is cut there. */
  lemma DropDurationAt(s: string, p1: nat, p2: nat, p3: nat, p4: nat, p5: nat)
    requires p1 < p2 < p3 < p4 <= p5 <= |s|
    requires p1 > 0 ==> !IsSpace(s[p1 - 1])
    requires forall j :: p1 <= j < p2 ==> IsSpace(s[j])
    requires forall j :: p2 <= j < p3 ==> IsDigit(s[j])
    requires forall j :: p3 <= j < p4 ==> IsSpace(s[j])
    requires s[p4..p5] == "minute" || s[p4..p5] == "minutes"
    requires forall j :: p5 <= j < |s| ==> IsSpace(s[j])
    ensures DropDuration(s) == s[..p1]
  {
    DurationAtSuffix(s, p1, p2, p3, p4, p5);
    forall i | 0 <= i < p1 ensures !DurationAt(s, i) {
      NoDurationAcross(s, i, p1, p2);
    }
  }

  /** Where each piece of a title followed by a duration suffix lies. */
  lemma SuffixLayout(t: string, sp1: string, digits: string, sp2: string, unit: string, sp3: string)
    requires AllSpace(sp1) && AllDigits(digits) && AllSpace(sp2) && AllSpace(sp3)
    ensures var s := t + sp1 + digits + sp2 + unit + sp3;
      var p2 := |t| + |sp1|;
      var p4 := p2 + |digits| + |sp2|;
      s[..|t|] == t &&
      (forall j :: |t| <= j < p2 ==> IsSpace(s[j])) &&
      (forall j :: p2 <= j < p2 + |digits| ==> IsDigit(s[j])) &&
      (forall j :: p2 + |digits| <= j < p4 ==> IsSpace(s[j])) &&
      s[p4..p4 + |unit|] == unit &&
      (forall j :: p4 + |unit| <= j < |s| ==> IsSpace(s[j]))
  {
    var s := t + sp1 + digits + sp2 + unit + sp3;
    var p2 := |t| + |sp1|;
    var p4 := p2 + |digits| + |sp2|;
    assert forall j :: |t| <= j < p2 ==> s[j] == sp1[j - |t|];
    assert forall j :: p2 <= j < p2 + |digits| ==> s[j] == digits[j - p2];
    assert forall j :: p2 + |digits| <= j < p4 ==> s[j] == sp2[j - p2 - |digits|];
    assert forall j :: p4 + |unit| <= j < |s| ==> s[j] == sp3[j - p4 - |unit|];
  }

  lemma {:induction false} DurationAtSuffix(s: string, p1: nat, p2: nat, p3: nat, p4: nat, p5: nat)
    requires p1 < p2 < p3 < p4 <= p5 <= |s|
    requires forall j :: p1 <= j < p2 ==> IsSpace(s[j])
    requires forall j :: p2 <= j < p3 ==> IsDigit(s[j])
    requires forall j :: p3 <= j < p4 ==> IsSpace(s[j])
    requires s[p4..p5] == "minute" || s[p4..p5] == "minutes"
    requires forall j :: p5 <= j < |s| ==> IsSpace(s[j])
    ensures DurationAt(s, p1)
  {
    RunEndStops(s, p1, p2, IsSpace);
    RunEndStops(s, p2, p3, IsDigit);
    RunEndStops(s, p3, p4, IsSpace);
    DurationTail(s, p4, p5);
  }

  /** The unit word at `c`, then only white space: the tail of the pattern matches. */
  lemma DurationTail(s: string, c: nat, p5: nat)
    requires c <= p5 <= |s|
    requires s[c..p5] == "minute" || s[c..p5] == "minutes"
    requires forall j :: p5 <= j < |s| ==> IsSpace(s[j])
    ensures StartsAt(s, c, "minute")
    ensures RunEnd(s, if c + 6 < |s| && s[c + 6] == 's' then c + 7 else c + 6, IsSpace) == |s|
  {
    assert s[c..c + 6] == s[c..p5][..6];
    if s[c..p5] == "minutes" {
      assert s[c + 6] == s[c..p5][6];
    } else if p5 < |s| {
      assert IsSpace(s[p5]);
    }
    RunEndToEnd(s, p5, IsSpace);
  }

  /**
   * No match starts before a non-space followed by white space and then a
   * digit: the digit and the non-space would have to sit in one run of digits
   * with white space between.
   */
  lemma NoDurationAcross(s: string, i: nat, p1: nat, p2: nat)
    requires i < p1 < p2 < |s|
    requires !IsSpace(s[p1 - 1]) && IsSpace(s[p1]) && IsDigit(s[p2])
    ensures !DurationAt(s, i)
  {
  }

  // ---------------------------------------------------------------------------
  // sanitizeFilename

  const FallbackFilename: string := "youtube-thumbnail"
  const MaxFilenameLength: nat := 200

  /** The characters `[<>:"/\|?*]` that the first replacement removes. */
  predicate Reserved(c: char) {
    c == '<' || c == '>' || c == ':' || c == '"' || c == '/' || c == '\\' || c == '|' || c == '?' || c == '*'
  }

  predicate NoReserved(s: string) {
    forall j :: 0 <= j < |s| ==> !Reserved(s[j])
  }

  /** All white space is a plain space, and no two white-space characters are adjacent. */
  predicate SingleSpaced(s: string) {
    forall j :: 0 <= j < |s| && IsSpace(s[j]) ==> s[j] == ' ' && (j + 1 < |s| ==> !IsSpace(s[j + 1]))
  }

  /** What a sanitized name looks like. */
  predicate CleanName(s: string) {
    s != [] && |s| <= MaxFilenameLength && NoReserved(s) && SingleSpaced(s) &&
    !IsSpace(s[0]) && !IsSpace(s[|s| - 1])
  }

  /** `.replace(/[<>:"/\\|?*]/g, '')` */
  function RemoveReserved(s: string): (r: string)
    ensures NoReserved(r)
    ensures NoReserved(s) ==> r == s
  {
    if s == [] then []
    else if Reserved(s[0]) then RemoveReserved(s[1..])
    else [s[0]] + RemoveReserved(s[1..])
  }

  /** Removal works character by character, so it distributes over concatenation. */
  lemma {:induction false} RemoveReservedAppend(a: string, b: string)
    ensures RemoveReserved(a + b) == RemoveReserved(a) + RemoveReserved(b)
    decreases |a|
  {
    if a != [] {
      assert (a + b)[0] == a[0];
      assert (a + b)[1..] == a[1..] + b;
      RemoveReservedAppend(a[1..], b);
    } else {
      assert a + b == b;
    }
  }

  /** One character: a reserved one is dropped, any other is kept. */
  lemma RemoveReservedChar(c: char)
    ensures RemoveReserved([c]) == if Reserved(c) then [] else [c]
  {
    assert [c][1..] == [];
  }

  /** Input made only of reserved characters and white space leaves only white space. */
  lemma {:induction false} RemoveReservedBlank(s: string)
    requires forall j :: 0 <= j < |s| ==> Reserved(s[j]) || IsSpace(s[j])
    ensures Blank(RemoveReserved(s))
    decreases |s|
  {
    if s != [] {
      RemoveReservedBlank(s[1..]);
    }
  }

  /** The characters of `s` that are not white space, in order. */
  function Visible(s: string): string
    decreases |s|
  {
    if s == [] then []
    else if IsSpace(s[0]) then Visible(s[1..])
    else [s[0]] + Visible(s[1..])
  }

  /** Text is blank exactly when it has no visible character. */
  lemma {:induction false} BlankIffInvisible(s: string)
    ensures Blank(s) <==> Visible(s) == []
    decreases |s|
  {
    if s != [] {
      BlankIffInvisible(s[1..]);
      assert Blank(s) <==> IsSpace(s[0]) && Blank(s[1..]) by {
        if IsSpace(s[0]) && Blank(s[1..]) {
          forall j | 0 < j < |s| ensures IsSpace(s[j]) {
            assert s[j] == s[1..][j - 1];
          }
        }
      }
    }
  }

  /** A leading run of white space hides nothing. */
  lemma {:induction false} VisibleSkip(s: string, k: nat)
    requires k <= |s|
    requires forall j :: 0 <= j < k ==> IsSpace(s[j])
    ensures Visible(s) == Visible(s[k..])
    decreases k
  {
    if k > 0 {
      assert s[1..][k - 1..] == s[k..];
      VisibleSkip(s[1..], k - 1);
    }
  }

  /** `.replace(/\s+/g, ' ')`: every run of white space becomes one space. */
  function CollapseSpace(s: string): (r: string)
    ensures SingleSpaced(r)
    ensures NoReserved(s) ==> NoReserved(r)
    ensures s != [] ==> r != [] && r[0] == (if IsSpace(s[0]) then ' ' else s[0])
    decreases |s|
  {
    if s == [] then []
    else if IsSpace(s[0]) then
      var k := RunEnd(s, 0, IsSpace);
      var rest := CollapseSpace(s[k..]);
      assert forall j :: 0 < j < 1 + |rest| ==> ([' '] + rest)[j] == rest[j - 1];
      [' '] + rest
    else
      var rest := CollapseSpace(s[1..]);
      assert forall j :: 0 < j < 1 + |rest| ==> ([s[0]] + rest)[j] == rest[j - 1];
      [s[0]] + rest
  }

  /** Collapsing touches only white space: the visible characters stay, in order. */
  lemma {:induction false} CollapseKeepsVisible(s: string)
    ensures Visible(CollapseSpace(s)) == Visible(s)
    decreases |s|
  {
    if s != [] {
      if IsSpace(s[0]) {
        var k := RunEnd(s, 0, IsSpace);
        var rest := CollapseSpace(s[k..]);
        assert CollapseSpace(s) == [' '] + rest;
        assert ([' '] + rest)[1..] == rest;
        CollapseKeepsVisible(s[k..]);
        VisibleSkip(s, k);
      } else {
        var rest := CollapseSpace(s[1..]);
        assert CollapseSpace(s) == [s[0]] + rest;
        assert ([s[0]] + rest)[1..] == rest;
        CollapseKeepsVisible(s[1..]);
      }
    }
  }

  /** Text already single-spaced has nothing to collapse. */
  lemma {:induction false} CollapseSingleSpaced(s: string)
    requires SingleSpaced(s)
    ensures CollapseSpace(s) == s
    decreases |s|
  {
    if s != [] {
      SingleSpacedTail(s);
      CollapseSingleSpaced(s[1..]);
      if IsSpace(s[0]) {
        assert RunEnd(s, 0, IsSpace) == 1;
        assert CollapseSpace(s) == [' '] + CollapseSpace(s[1..]);
      } else {
        assert CollapseSpace(s) == [s[0]] + CollapseSpace(s[1..]);
      }
    }
  }

  lemma SingleSpacedTail(s: string)
    requires s != [] && SingleSpaced(s)
    ensures SingleSpaced(s[1..])
  {
    forall j | 0 <= j < |s[1..]| && IsSpace(s[1..][j])
      ensures s[1..][j] == ' ' && (j + 1 < |s[1..]| ==> !IsSpace(s[1..][j + 1]))
    {
      assert s[1..][j] == s[j + 1];
    }
  }

  /** Any piece of a single-spaced text without reserved characters is one too. */
  lemma SliceKeepsClean(s: string, i: nat, j: nat)
    requires i <= j <= |s|
    requires NoReserved(s) && SingleSpaced(s)
    ensures NoReserved(s[i..j]) && SingleSpaced(s[i..j])
  {
    var t := s[i..j];
    assert forall k :: 0 <= k < |t| ==> t[k] == s[i + k];
  }

  /** `Trim` keeps both properties, since it returns a piece of its input. */
  lemma TrimKeepsClean(s: string)
    requires NoReserved(s) && SingleSpaced(s)
    ensures NoReserved(Trim(s)) && SingleSpaced(Trim(s))
  {
    var i := TrimSlice(s);
    SliceKeepsClean(s, i, i + |Trim(s)|);
  }

  lemma FallbackIsClean()
    ensures CleanName(FallbackFilename)
  {
    var f := FallbackFilename;
    assert forall j :: 0 <= j < |f| ==> f[j] == '-' || 'a' <= f[j] <= 'z';
  }

  /** The 200-character cap of a trimmed name, trimmed again when it cuts. */
  function CapLength(s: string): (r: string)
    requires NoReserved(s) && SingleSpaced(s)
    requires s == [] || (!IsSpace(s[0]) && !IsSpace(s[|s| - 1]))
    ensures NoReserved(r) && SingleSpaced(r) && |r| <= MaxFilenameLength
    ensures r == [] || (!IsSpace(r[0]) && !IsSpace(r[|r| - 1]))
    ensures |s| <= MaxFilenameLength ==> r == s
  {
    if |s| > MaxFilenameLength then
      SliceKeepsClean(s, 0, MaxFilenameLength);
      TrimKeepsClean(s[..MaxFilenameLength]);
      Trim(s[..MaxFilenameLength])
    else s
  }

  /** sanitizeFilename */
  function SanitizeFilename(filename: string): (r: string)
    ensures CleanName(r)
    ensures filename == "" ==> r == FallbackFilename
  {
    FallbackIsClean();
    if filename == "" then FallbackFilename
    else
      var collapsed := CollapseSpace(RemoveReserved(filename));
      TrimKeepsClean(collapsed);
      var capped := CapLength(Trim(collapsed));
      if capped == "" then FallbackFilename else capped
  }

  /**
   * What sanitizeFilename computes, when nothing but white space is left once
   * the reserved characters go: the fallback name "youtube-thumbnail".
   */
  lemma SanitizeBlank(filename: string)
    requires Blank(RemoveReserved(filename))
    ensures SanitizeFilename(filename) == FallbackFilename
  {
    if filename != "" {
      var removed := RemoveReserved(filename);
      var collapsed := CollapseSpace(removed);
      CollapseKeepsVisible(removed);
      BlankIffInvisible(removed);
      BlankIffInvisible(collapsed);
      TrimEmptyIffBlank(collapsed);
      assert Trim(collapsed) == [];
      assert CapLength(Trim(collapsed)) == [];
    }
  }

  /**
   * What sanitizeFilename computes otherwise: the collapsed, trimmed text,
   * cut at 200 characters and trimmed again when the cut lands inside it.
   */
  lemma SanitizeVisible(filename: string)
    requires !Blank(RemoveReserved(filename))
    ensures var t := Trim(CollapseSpace(RemoveReserved(filename)));
      t != [] &&
      (|t| <= MaxFilenameLength ==> SanitizeFilename(filename) == t) &&
      (|t| > MaxFilenameLength ==> SanitizeFilename(filename) == Trim(t[..MaxFilenameLength]))
  {
    var collapsed := CollapseSpace(RemoveReserved(filename));
    var t := Trim(collapsed);
    CollapsedNotBlank(RemoveReserved(filename));
    assert filename != "";
    TrimKeepsClean(collapsed);
    CapNotEmpty(t);
    assert SanitizeFilename(filename) == CapLength(t);
  }

  /** Some visible character survives the collapse, so the trimmed text is not empty. */
  lemma CollapsedNotBlank(removed: string)
    requires !Blank(removed)
    ensures Trim(CollapseSpace(removed)) != []
  {
    CollapseKeepsVisible(removed);
    BlankIffInvisible(removed);
    BlankIffInvisible(CollapseSpace(removed));
    TrimEmptyIffBlank(CollapseSpace(removed));
  }

  /** A non-empty trimmed name stays non-empty under the cap. */
  lemma CapNotEmpty(t: string)
    requires NoReserved(t) && SingleSpaced(t)
    requires t != [] && !IsSpace(t[0]) && !IsSpace(t[|t| - 1])
    ensures CapLength(t) != []
  {
    if |t| > MaxFilenameLength {
      var cut := t[..MaxFilenameLength];
      assert cut[0] == t[0];
      TrimEmptyIffBlank(cut);
    }
  }

  /** A name made only of reserved characters and white space, such as "???", gives the fallback. */
  lemma SanitizeNothingLeft(filename: string)
    requires forall j :: 0 <= j < |filename| ==> Reserved(filename[j]) || IsSpace(filename[j])
    ensures SanitizeFilename(filename) == FallbackFilename
  {
    RemoveReservedBlank(filename);
    SanitizeBlank(filename);
  }

  /** A name that is already clean is kept as it is. */
  lemma SanitizeKeepsClean(s: string)
    requires CleanName(s)
    ensures SanitizeFilename(s) == s
  {
    CollapseSingleSpaced(s);
    TrimOfTrimmed(s);
  }

  /** Sanitizing twice is sanitizing once. */
  lemma SanitizeIdempotent(filename: string)
    ensures SanitizeFilename(SanitizeFilename(filename)) == SanitizeFilename(filename)
  {
    SanitizeKeepsClean(SanitizeFilename(filename));
  }

  // ---------------------------------------------------------------------------
  // buildMaxResThumbnailUrl

  const MaxResFile: string := "maxresdefault.jpg"

  /** The URL both the download button's click handler and the batch download fetch. */
  function BuildMaxResThumbnailUrl(videoId: string): (r: string)
    ensures |r| == |ThumbnailHost| + |videoId| + 1 + |MaxResFile|
    ensures r[..|ThumbnailHost|] == ThumbnailHost
    ensures r[|ThumbnailHost|..|ThumbnailHost| + |videoId|] == videoId
    ensures r[|ThumbnailHost| + |videoId|..] == "/" + MaxResFile
  {
    ThumbnailHost + videoId + "/" + MaxResFile
  }

  /** The identifier is read back from the URL built for it. */
  lemma MaxResUrlRoundTrip(videoId: string)
    requires videoId != [] && SlashFree(videoId)
    ensures ExtractVideoId(BuildMaxResThumbnailUrl(videoId)) == videoId
  {
    ExtractFromThumbnailUrl(videoId, MaxResFile);
  }

  // ---------------------------------------------------------------------------
  // convertToMaxResolution

  const MaxResStem: string := "maxresdefault"

  const KnownQualities: seq<string> := ["hqdefault", "mqdefault", "sddefault", "default", "maxresdefault"]

  /** The position of the last `/` before `hi`. */
  function SlashBelow(s: string, hi: nat): (r: Option<nat>)
    requires hi <= |s|
    ensures r.Some? ==> r.value < hi && s[r.value] == '/' && forall j :: r.value < j < hi ==> s[j] != '/'
    ensures r.None? ==> forall j :: 0 <= j < hi ==> s[j] != '/'
  {
    if hi == 0 then None
    else if s[hi - 1] == '/' then Some(hi - 1)
    else SlashBelow(s, hi - 1)
  }

  /** The position of the last `/`. */
  function LastSlash(s: string): (r: Option<nat>)
    ensures r.Some? ==> r.value < |s| && s[r.value] == '/' && forall j :: r.value < j < |s| ==> s[j] != '/'
    ensures r.None? ==> forall j :: 0 <= j < |s| ==> s[j] != '/'
  {
    SlashBelow(s, |s|)
  }

  lemma LastSlashAt(s: string, i: nat)
    requires i < |s| && s[i] == '/'
    requires forall j :: i < j < |s| ==> s[j] != '/'
    ensures LastSlash(s) == Some(i)
  {
  }

  /**
   * The length of the extension when `s` ends in `.jpg` or `.webp`, compared
   * case-insensitively (`\.(jpg|webp)$` under the `i` flag).
   */
  function ImageExtLength(s: string): (n: Option<nat>)
    ensures n.Some? ==> (n.value == 3 || n.value == 4) && n.value < |s| && s[|s| - n.value - 1] == '.'
    ensures n.Some? ==> ImageExt(s[|s| - n.value..])
  {
    if EndsInExt(s, "jpg") then Some(3)
    else if EndsInExt(s, "webp") then Some(4)
    else None
  }

  /** `s` ends in a dot and then `ext`, in any case. */
  predicate EndsInExt(s: string, ext: string)
    ensures EndsInExt(s, ext) ==> |ext| < |s| && s[|s| - |ext| - 1] == '.' && Lower(s[|s| - |ext|..]) == ext
  {
    |s| > |ext| && s[|s| - |ext| - 1] == '.' && Lower(s[|s| - |ext|..]) == ext
  }

  /**
   * Where a pattern `/<stem>.<ext>$` can match: only the last `/` has no `/`
   * after it, so the unanchored search finds it there or nowhere. The result
   * is that slash, the extension's length and the stem.
   */
  function LastSegment(s: string): (r: Option<(nat, nat)>)
    ensures r.Some? ==> r.value.0 + 1 <= |s| - r.value.1 - 1 <= |s|
  {
    match (LastSlash(s), ImageExtLength(s))
    case (Some(i), Some(n)) => if i + 1 <= |s| - n - 1 then Some((i, n)) else None
    case _ => None
  }

  function Stem(s: string, seg: (nat, nat)): string
    requires seg.0 + 1 <= |s| - seg.1 - 1 <= |s|
  {
    s[seg.0 + 1..|s| - seg.1 - 1]
  }

  /** `s` with its last segment's file name replaced, its extension kept. */
  function WithMaxResName(s: string, seg: (nat, nat)): string
    requires seg.0 + 1 <= |s| - seg.1 - 1 <= |s|
  {
    s[..seg.0] + "/" + MaxResStem + "." + s[|s| - seg.1..]
  }

  /** `.replace(/\/(hqdefault|mqdefault|sddefault|default|maxresdefault)\.(jpg|webp)$/i, '/maxresdefault.$2')` */
  function ReplaceKnown(s: string): string {
    match LastSegment(s)
    case None => s
    case Some(seg) => if Lower(Stem(s, seg)) in KnownQualities then WithMaxResName(s, seg) else s
  }

  /** `.replace(/\/[^\/]+\.(jpg|webp)$/i, '/maxresdefault.$1')` */
  function ReplaceLast(s: string): string {
    match LastSegment(s)
    case None => s
    case Some(seg) => if Stem(s, seg) != [] then WithMaxResName(s, seg) else s
  }

  /**
   * convertToMaxResolution. The known-quality replacement is subsumed by the
   * fallback, so the result is the fallback's; a URL without a `.jpg`/`.webp`
   * ending, and the empty URL, are returned unchanged.
   */
  function ConvertToMaxResolution(thumbnailUrl: string): (r: string)
    ensures r == ReplaceLast(thumbnailUrl)
    ensures ImageExtLength(thumbnailUrl).None? ==> r == thumbnailUrl
  {
    if thumbnailUrl == "" then thumbnailUrl
    else
      var replacedKnown := ReplaceKnown(thumbnailUrl);
      if replacedKnown != thumbnailUrl then replacedKnown
      else ReplaceLast(thumbnailUrl)
  }

  predicate ImageExt(e: string) {
    Lower(e) == "jpg" || Lower(e) == "webp"
  }

  lemma ImageExtSlashFree(e: string)
    requires ImageExt(e)
    ensures SlashFree(e) && |e| >= 3 && LowerChar(e[0]) != '.'
  {
    forall j | 0 <= j < |e| ensures e[j] != '/' {
      assert Lower(e)[j] == LowerChar(e[j]);
    }
    assert Lower(e)[0] == LowerChar(e[0]);
  }

  /**
   * The last segment `<stem>.<ext>` of a URL is replaced by
   * `maxresdefault.<ext>`, whatever the stem, the extension's case kept.
   */
  lemma {:induction false} ReplaceLastSegment(base: string, stem: string, e: string)
    requires stem != [] && SlashFree(stem) && ImageExt(e)
    ensures ReplaceLast(base + "/" + stem + "." + e) == base + "/" + MaxResStem + "." + e
  {
    var s := base + "/" + stem + "." + e;
    ImageExtSlashFree(e);
    SlashFreeAppend(stem, ".");
    SlashFreeAppend(stem + ".", e);
    assert s == base + "/" + (stem + "." + e);
    SegmentSlash(base, stem + "." + e);
    SegmentExt(base + "/" + stem, e);
    assert LastSegment(s) == Some((|base|, |e|));
    assert Stem(s, (|base|, |e|)) == stem;
    assert s[..|base|] == base;
    assert s[|s| - |e|..] == e;
  }

  lemma SegmentSlash(base: string, tail: string)
    requires SlashFree(tail)
    ensures LastSlash(base + "/" + tail) == Some(|base|)
  {
    var front := base + "/";
    var s := front + tail;
    assert forall j :: |front| <= j < |s| ==> s[j] == tail[j - |front|];
    assert s[|base|] == '/';
    LastSlashAt(s, |base|);
  }

  lemma SlashFreeAppend(a: string, b: string)
    requires SlashFree(a) && SlashFree(b)
    ensures SlashFree(a + b)
  {
    assert forall j :: |a| <= j < |a + b| ==> (a + b)[j] == b[j - |a|];
  }

  lemma SegmentExt(front: string, e: string)
    requires ImageExt(e)
    ensures ImageExtLength(front + "." + e) == Some(|e|)
  {
    var s := front + "." + e;
    ImageExtSlashFree(e);
    assert s[|s| - |e|..] == e;
    if |e| == 4 {
      assert s[|s| - 4] == e[0];
    }
  }

  /** The fallback replacement is idempotent: its output already ends in `/maxresdefault.<ext>`. */
  lemma ReplaceLastIdempotent(s: string)
    ensures ReplaceLast(ReplaceLast(s)) == ReplaceLast(s)
  {
    var seg := LastSegment(s);
    if seg.Some? && Stem(s, seg.value) != [] {
      ReplaceLastSegment(s[..seg.value.0], MaxResStem, s[|s| - seg.value.1..]);
    }
  }

  /** Converting twice is converting once. */
  lemma ConvertIdempotent(thumbnailUrl: string)
    ensures ConvertToMaxResolution(ConvertToMaxResolution(thumbnailUrl)) == ConvertToMaxResolution(thumbnailUrl)
  {
    ReplaceLastIdempotent(thumbnailUrl);
  }

  /** A known quality name becomes `maxresdefault`, the extension as written. */
  lemma ConvertKnownQuality(base: string, quality: string, e: string)
    requires Lower(quality) in KnownQualities && ImageExt(e)
    ensures ConvertToMaxResolution(base + "/" + quality + "." + e) == base + "/" + MaxResStem + "." + e
  {
    KnownQualitySlashFree(quality);
    ReplaceLastSegment(base, quality, e);
  }

  lemma KnownQualitySlashFree(quality: string)
    requires Lower(quality) in KnownQualities
    ensures quality != [] && SlashFree(quality)
  {
    var q := Lower(quality);
    assert q == "hqdefault" || q == "mqdefault" || q == "sddefault" || q == "default" || q == "maxresdefault";
    assert '/' !in q;
    forall j | 0 <= j < |quality| ensures quality[j] != '/' {
      assert q[j] == LowerChar(quality[j]);
    }
  }

  // ---------------------------------------------------------------------------
  // The file name in downloadThumbnail

  predicate NotDotOrSlash(c: char) {
    c != '.' && c != '/'
  }

  /**
   * `/\/vi(?:_webp)?\/([^\/]+)\/([^\.\/]+)\.(jpg|webp)/` tried at `i`: the
   * captured identifier and extension. No backtracking can change the outcome:
   * `_webp` and a `/` cannot both follow `/vi`, each captured run must be taken
   * whole for the next character to match, and `jpg` and `webp` cannot both
   * follow the dot.
   */
  function UrlMatchAt(s: string, i: nat): Option<(string, string)> {
    if !StartsAt(s, i, "/vi") then None
    else if !StartsAt(s, i + 3, "_webp/") && !StartsAt(s, i + 3, "/") then None
    else
      var j := if StartsAt(s, i + 3, "_webp/") then i + 9 else i + 4;
      var k := RunEnd(s, j, NotSlash);
      if k == j || k == |s| then None
      else
        var m := RunEnd(s, k + 1, NotDotOrSlash);
        if m == k + 1 || m == |s| || s[m] != '.' then None
        else if StartsAt(s, m + 1, "jpg") then Some((s[j..k], "jpg"))
        else if StartsAt(s, m + 1, "webp") then Some((s[j..k], "webp"))
        else None
  }

  /** The leftmost match at or after `lo`. */
  function FirstUrlMatchFrom(s: string, lo: nat): (m: Option<nat>)
    ensures m.Some? ==> lo <= m.value < |s| && UrlMatchAt(s, m.value).Some?
    ensures m.Some? ==> forall j :: lo <= j < m.value ==> UrlMatchAt(s, j).None?
    ensures m.None? ==> forall j :: lo <= j < |s| ==> UrlMatchAt(s, j).None?
    decreases |s| - lo
  {
    if lo >= |s| then None
    else if UrlMatchAt(s, lo).Some? then Some(lo)
    else FirstUrlMatchFrom(s, lo + 1)
  }

  /** `imageUrl.match(...)`: the identifier and the extension, when the URL matches. */
  function UrlMatch(s: string): (r: Option<(string, string)>)
    ensures r.Some? ==> r.value.1 == "jpg" || r.value.1 == "webp"
    ensures r.Some? ==> r.value.0 != [] && SlashFree(r.value.0)
    ensures r.None? <==> forall j :: 0 <= j < |s| ==> UrlMatchAt(s, j).None?
    ensures r.Some? ==> exists i :: 0 <= i < |s| && r == UrlMatchAt(s, i)
                          && forall j :: 0 <= j < i ==> UrlMatchAt(s, j).None?
  {
    match FirstUrlMatchFrom(s, 0)
    case None => None
    case Some(i) => UrlMatchAt(s, i)
  }

  /** The match is the one at the leftmost position where the pattern matches. */
  lemma UrlMatchLeftmost(s: string, i: nat)
    requires i < |s| && UrlMatchAt(s, i).Some?
    requires forall j :: 0 <= j < i ==> UrlMatchAt(s, j).None?
    ensures UrlMatch(s) == UrlMatchAt(s, i)
  {
    var m := FirstUrlMatchFrom(s, 0);
    assert m.Some? && m.value == i;
  }

  /** The extension: the URL's, else the blob type's. */
  function Extension(imageUrl: string, blobIsWebp: bool): (e: string)
    ensures e == "jpg" || e == "webp"
  {
    match UrlMatch(imageUrl)
    case Some(m) => m.1
    case None => if blobIsWebp then "webp" else "jpg"
  }

  /**
   * The name downloadThumbnail saves under, before the extension.
   * `buttonTitle` is the button's `data-video-title` attribute, `None` when
   * there is no button or no attribute (both fall back to the identifier).
   */
  function FileStem(imageUrl: string, buttonTitle: Option<string>, videoTitle: Option<string>): (r: string)
    ensures r != []
  {
    if videoTitle.Some? && videoTitle.value != "" then SanitizeFilename(videoTitle.value)
    else if buttonTitle.Some? && buttonTitle.value != "" then SanitizeFilename(buttonTitle.value)
    else "youtube-thumbnail-" + (match UrlMatch(imageUrl) case Some(m) => m.0 case None => Unknown)
  }

  /** The full name; `blobIsWebp` is whether the response's type is `image/webp`. */
  function DownloadFilename(imageUrl: string, buttonTitle: Option<string>, videoTitle: Option<string>,
                            blobIsWebp: bool): (r: string)
    ensures var e := Extension(imageUrl, blobIsWebp); |r| > |e| + 1 && r[|r| - |e| - 1..] == "." + e
  {
    var stem, ext := FileStem(imageUrl, buttonTitle, videoTitle), Extension(imageUrl, blobIsWebp);
    DottedTail(stem, ext);
    stem + "." + ext
  }

  lemma DottedTail(stem: string, ext: string)
    ensures |stem + "." + ext| == |stem| + 1 + |ext|
    ensures (stem + "." + ext)[|stem|..] == "." + ext
  {
  }

  lemma HostHasNoVi()
    ensures forall i :: 0 <= i < 19 ==> !(ThumbnailHost[i] == '/' && ThumbnailHost[i + 1] == 'v')
    ensures ThumbnailHost[19..23] == "/vi/"
  {
  }

  /** The URL built for an identifier gives that identifier and `jpg` back. */
  lemma MaxResUrlMatch(videoId: string)
    requires videoId != [] && SlashFree(videoId)
    ensures UrlMatch(BuildMaxResThumbnailUrl(videoId)) == Some((videoId, "jpg"))
  {
    var url := BuildMaxResThumbnailUrl(videoId);
    MaxResUrlNoEarlierMatch(videoId);
    MaxResUrlMatchAt(videoId);
    assert FirstUrlMatchFrom(url, 0) == Some(19);
  }

  lemma MaxResUrlNoEarlierMatch(videoId: string)
    ensures forall i :: 0 <= i < 19 ==> UrlMatchAt(BuildMaxResThumbnailUrl(videoId), i).None?
  {
    HostHasNoVi();
    var url := BuildMaxResThumbnailUrl(videoId);
    forall i | 0 <= i < 19 ensures UrlMatchAt(url, i).None? {
      assert url[i] == ThumbnailHost[i] && url[i + 1] == ThumbnailHost[i + 1];
      assert !StartsAt(url, i, "/vi") by {
        if i + 3 <= |url| {
          assert url[i..i + 3][0] == url[i] && url[i..i + 3][1] == url[i + 1];
        }
      }
    }
  }

  /** A `/vi/<id>/<name>.jpg` at `i`, with the positions of its separators, matches there. */
  lemma JpgUrlMatchAt(s: string, i: nat, sep: nat, dot: nat)
    requires i + 4 < sep < dot && dot + 4 <= |s|
    requires s[i..i + 4] == "/vi/"
    requires forall j :: i + 4 <= j < sep ==> NotSlash(s[j])
    requires s[sep] == '/'
    requires forall j :: sep + 1 <= j < dot ==> NotDotOrSlash(s[j])
    requires sep + 1 < dot && s[dot] == '.'
    requires s[dot + 1..dot + 4] == "jpg"
    ensures UrlMatchAt(s, i) == Some((s[i + 4..sep], "jpg"))
  {
    assert s[i..i + 3] == s[i..i + 4][..3];
    assert s[i + 3..i + 4] == s[i..i + 4][3..];
    assert s[i + 3] == '/';
    assert !StartsAt(s, i + 3, "_webp/") by {
      if i + 9 <= |s| {
        assert s[i + 3..i + 9][0] == s[i + 3];
      }
    }
    RunEndStops(s, i + 4, sep, NotSlash);
    RunEndStops(s, sep + 1, dot, NotDotOrSlash);
  }

  lemma MaxResUrlMatchAt(videoId: string)
    requires videoId != [] && SlashFree(videoId)
    ensures UrlMatchAt(BuildMaxResThumbnailUrl(videoId), 19) == Some((videoId, "jpg"))
  {
    var url := BuildMaxResThumbnailUrl(videoId);
    var sep := |ThumbnailHost| + |videoId|;
    MaxResUrlHead(videoId);
    MaxResUrlTail(videoId);
    JpgUrlMatchAt(url, 19, sep, sep + 14);
  }

  /** The host's `/vi/`, then the identifier, which holds no `/`. */
  lemma MaxResUrlHead(videoId: string)
    requires SlashFree(videoId)
    ensures var url, sep := BuildMaxResThumbnailUrl(videoId), |ThumbnailHost| + |videoId|;
      url[19..23] == "/vi/" && url[23..sep] == videoId && forall j :: 23 <= j < sep ==> NotSlash(url[j])
  {
    var url, sep := BuildMaxResThumbnailUrl(videoId), |ThumbnailHost| + |videoId|;
    assert url[19..23] == url[..23][19..23];
    forall j | 23 <= j < sep ensures NotSlash(url[j]) {
      assert url[j] == url[23..sep][j - 23];
    }
  }

  /** After the identifier: `/maxresdefault.jpg`, a dot-free name, its dot and `jpg`. */
  lemma MaxResUrlTail(videoId: string)
    ensures var url, sep := BuildMaxResThumbnailUrl(videoId), |ThumbnailHost| + |videoId|;
      |url| == sep + 18 && url[sep] == '/' && url[sep + 14] == '.' && url[sep + 15..sep + 18] == "jpg"
      && forall j :: sep + 1 <= j < sep + 14 ==> NotDotOrSlash(url[j])
  {
    var url, sep := BuildMaxResThumbnailUrl(videoId), |ThumbnailHost| + |videoId|;
    var tail := url[sep..];
    assert tail == "/maxresdefault.jpg";
    assert url[sep] == tail[0] && url[sep + 14] == tail[14];
    assert url[sep + 15..sep + 18] == tail[15..18];
    forall j | sep + 1 <= j < sep + 14 ensures NotDotOrSlash(url[j]) {
      assert url[j] == tail[j - sep];
    }
  }


  /**
   * The button's click handler and the batch download name a file alike: the
   * sanitized title when there is one, else `youtube-thumbnail-<id>`, with the
   * `jpg` extension of the URL they both fetch, whatever the blob's type.
   */
  lemma MaxResDownloadFilename(videoId: string, videoTitle: Option<string>, blobIsWebp: bool)
    requires videoId != [] && SlashFree(videoId)
    ensures var url := BuildMaxResThumbnailUrl(videoId);
      var expected := (if videoTitle.Some? && videoTitle.value != "" then SanitizeFilename(videoTitle.value)
                       else "youtube-thumbnail-" + videoId) + ".jpg";
      DownloadFilename(url, Some(videoTitle.GetOr("")), videoTitle, blobIsWebp) == expected &&
      DownloadFilename(url, None, videoTitle, blobIsWebp) == expected
  {
    var url := BuildMaxResThumbnailUrl(videoId);
    MaxResExtension(videoId, blobIsWebp);
    MaxResFileStem(videoId, Some(videoTitle.GetOr("")), videoTitle);
    MaxResFileStem(videoId, None, videoTitle);
  }

  /** A max-resolution URL always names a `.jpg`, whatever the blob's type. */
  lemma MaxResExtension(videoId: string, blobIsWebp: bool)
    requires videoId != [] && SlashFree(videoId)
    ensures Extension(BuildMaxResThumbnailUrl(videoId), blobIsWebp) == "jpg"
  {
    MaxResUrlMatch(videoId);
  }

  lemma MaxResFileStem(videoId: string, buttonTitle: Option<string>, videoTitle: Option<string>)
    requires videoId != [] && SlashFree(videoId)
    requires buttonTitle == None || buttonTitle == Some(videoTitle.GetOr(""))
    ensures FileStem(BuildMaxResThumbnailUrl(videoId), buttonTitle, videoTitle)
            == if videoTitle.Some? && videoTitle.value != "" then SanitizeFilename(videoTitle.value)
               else "youtube-thumbnail-" + videoId
  {
    MaxResUrlMatch(videoId);
  }
}
