/** The manifest builder: read every manually listed article and every generated one,
    extract its title, date, table-of-contents labels and summary, and keep one item per
    URL, the first one met, manual articles first.

    The regular expressions of the extractors are modelled by leftmost search: a pattern
    `<tag[^>]*>([\s\S]*?)</tag>` with the `i` flag matches at the first candidate opening
    whose `>` and closing tag both follow, and captures up to the first closing tag. */
module Manifest {
  import opened Text
  import MarkdownSections

  datatype Source = Manual | Auto

  /** One manifest entry. */
  datatype Item = Item(
    source: Source,
    title: string,
    publishedAt: string,
    url: string,
    filePath: string,
    toc: seq<string>,
    summary: string,
    updatedAt: string)

  const MaxTocLabels: nat := 30
  const MaxSummary: nat := 360

  // ---------------------------------------------------------------------------
  // Matching elements
  // ---------------------------------------------------------------------------

  /** The element whose opening tag starts at `i`: `[^>]*>` runs to the first `>` after
      the tag name, and the lazy content ends at the first `close` after it. The result
      is the content's start and end. */
  function ElementAt(s: string, i: nat, nameLen: nat, close: string): (r: Option<(nat, nat)>)
    ensures r.Some? ==> i + nameLen < r.value.0 <= r.value.1 && r.value.1 + |close| <= |s|
  {
    match IndexOfChar(s, '>', i + nameLen)
    case None => None
    case Some(g) =>
      match IndexOfCI(s, close, g + 1)
      case None => None
      case Some(k) => Some((g + 1, k))
  }

  /** The leftmost match at or after `from` of `open[^>]*>([\s\S]*?)close`, as the
      content's start and end. */
  function Element(s: string, open: string, close: string, from: nat): (r: Option<(nat, nat)>)
    ensures r.Some? ==> from < r.value.0 <= r.value.1 && r.value.1 + |close| <= |s|
    decreases |s| + 1 - from
  {
    match IndexOfCI(s, open, from)
    case None => None
    case Some(i) =>
      match ElementAt(s, i, |open|, close)
      case Some(m) => Some(m)
      case None => Element(s, open, close, i + 1)
  }

  /** The captured content of the leftmost match. */
  function Capture(s: string, open: string, close: string): (r: Option<string>)
    ensures r.Some? ==> |r.value| <= |s|
  {
    match Element(s, open, close, 0)
    case None => None
    case Some(m) => Some(s[m.0..m.1])
  }

  // ---------------------------------------------------------------------------
  // Removing tags
  // ---------------------------------------------------------------------------

  /** `replace(/<[^>]+>/g, "")`: a `<` followed by at least one character and then a
      `>` is removed with everything up to that first `>`. */
  function StripTags(s: string): (r: string)
    ensures |r| <= |s|
    decreases |s|
  {
    if s == [] then []
    else if s[0] == '<' && |s| > 1 && s[1] != '>' then
      match IndexOfChar(s, '>', 2)
      case Some(j) => StripTags(s[j + 1..])
      case None => [s[0]] + StripTags(s[1..])
    else [s[0]] + StripTags(s[1..])
  }

  predicate NoChar(s: string, c: char) {
    forall i :: 0 <= i < |s| ==> s[i] != c
  }

  /** No tag is left: every `<` that remains is either directly followed by `>` or has
      no `>` anywhere after it. */
  ghost predicate TagFree(s: string) {
    forall i :: 0 <= i < |s| && s[i] == '<' ==> (i + 1 < |s| && s[i + 1] == '>') || NoChar(s[i + 1..], '>')
  }

  lemma {:induction false} StripTagsNoChar(s: string, c: char)
    requires NoChar(s, c)
    ensures NoChar(StripTags(s), c)
    decreases |s|
  {
    if s != [] {
      assert NoChar(s[1..], c);
      StripTagsNoChar(s[1..], c);
      if s[0] == '<' && |s| > 1 && s[1] != '>' {
        match IndexOfChar(s, '>', 2)
        case Some(j) =>
          assert NoChar(s[j + 1..], c);
          StripTagsNoChar(s[j + 1..], c);
        case None =>
      }
    }
  }

  /** The tag stripper leaves no tag behind. */
  lemma {:induction false} StripTagsTagFree(s: string)
    ensures TagFree(StripTags(s))
    decreases |s|
  {
    if s != [] {
      var r := StripTags(s);
      StripTagsTagFree(s[1..]);
      if s[0] == '<' && |s| > 1 && s[1] != '>' {
        match IndexOfChar(s, '>', 2)
        case Some(j) =>
          StripTagsTagFree(s[j + 1..]);
        case None =>
          assert NoChar(s[1..], '>');
          StripTagsNoChar(s[1..], '>');
          assert r[1..] == StripTags(s[1..]);
          forall i | 0 <= i < |r| && r[i] == '<'
            ensures (i + 1 < |r| && r[i + 1] == '>') || NoChar(r[i + 1..], '>')
          {
            assert r[i + 1..] == StripTags(s[1..])[i..];
          }
      } else {
        var t := StripTags(s[1..]);
        assert r == [s[0]] + t;
        forall i | 0 <= i < |r| && r[i] == '<'
          ensures (i + 1 < |r| && r[i + 1] == '>') || NoChar(r[i + 1..], '>')
        {
          if i == 0 {
            if |s| > 1 {
              assert s[1] == '>';
              assert s[1..][1..] == s[2..];
              assert t == [s[1]] + StripTags(s[2..]);
            }
          } else {
            assert r[i + 1..] == t[i..];
          }
        }
      }
    }
  }

  /** `replace(/<br\s*\/?>/gi, " ")`: the end of a line break tag starting at 0. */
  function LineBreakEnd(s: string): (r: Option<nat>)
    ensures r.Some? ==> 4 <= r.value <= |s| && s[r.value - 1] == '>'
  {
    if !StartsWithCI(s, "<br") then None
    else
      var j := SpaceRunEnd(s, 3);
      var k := if j < |s| && s[j] == '/' then j + 1 else j;
      if k < |s| && s[k] == '>' then Some(k + 1) else None
  }

  /** Every line break tag becomes one space. */
  function BreaksToSpaces(s: string): (r: string)
    decreases |s|
  {
    if s == [] then []
    else
      match LineBreakEnd(s)
      case Some(k) => " " + BreaksToSpaces(s[k..])
      case None => [s[0]] + BreaksToSpaces(s[1..])
  }

  // ---------------------------------------------------------------------------
  // The extractors
  // ---------------------------------------------------------------------------

  /** extractTitle: the text of the first `<h1>`, else the first `<title>`, else "". */
  function ExtractTitle(html: string, safeText: string -> string): (r: string)
    ensures Capture(html, "<h1", "</h1>").None? && Capture(html, "<title", "</title>").None? ==> r == ""
  {
    match Capture(html, "<h1", "</h1>")
    case Some(t) => safeText(StripTags(t))
    case None =>
      match Capture(html, "<title", "</title>")
      case Some(t) => safeText(t)
      case None => ""
  }

  /** The tag stripper leaves a text without `<` as it is. */
  lemma {:induction false} StripTagsPlain(s: string)
    requires NoChar(s, '<')
    ensures StripTags(s) == s
    decreases |s|
  {
    if s != [] {
      assert NoChar(s[1..], '<');
      StripTagsPlain(s[1..]);
    }
  }

  /** A text holding `p` at position `k` starts there with `p`, in any case. */
  lemma {:induction false} OccursAt(s: string, p: string, k: nat)
    requires k + |p| <= |s| && s[k..k + |p|] == p
    ensures StartsWithCI(s[k..], p)
  {
    forall i | 0 <= i < |p| ensures s[k..][i] == p[i] {
      assert s[k + i] == s[k..k + |p|][i];
    }
  }

  /** The first `close` at or after `from` is at `k` when the text between holds no `<`. */
  lemma {:induction false} CloseAfterPlainText(s: string, close: string, from: nat, k: nat)
    requires from <= k && k + |close| <= |s| && s[k..k + |close|] == close
    requires close != [] && close[0] == '<' && NoChar(s[from..k], '<')
    ensures IndexOfCI(s, close, from) == Some(k)
  {
    OccursAt(s, close, k);
    forall i | from <= i < k ensures !StartsWithCI(s[i..], close) {
      assert s[i..][0] == s[from..k][i - from];
    }
    IndexOfCINotBefore(s, close, from, k);
  }

  /** The leftmost match is the one at the first opening found, when that one closes. */
  lemma {:induction false} ElementFound(html: string, open: string, close: string, p: nat, m: (nat, nat))
    requires IndexOfCI(html, open, 0) == Some(p) && ElementAt(html, p, |open|, close) == Some(m)
    ensures Element(html, open, close, 0) == Some(m)
  {
  }

  /** An opening at `p` followed directly by `>` closes at the first `close` after it. */
  lemma {:induction false} ElementAtFound(html: string, p: nat, nameLen: nat, close: string, k: nat)
    requires p + nameLen < |html| && html[p + nameLen] == '>'
    requires IndexOfCI(html, close, p + nameLen + 1) == Some(k)
    ensures ElementAt(html, p, nameLen, close) == Some((p + nameLen + 1, k))
  {
    assert IndexOfChar(html, '>', p + nameLen) == Some(p + nameLen);
  }

  /** An element `open>t close` whose opening is the first one, at `p`, and whose text
      `t` holds no `<`, is the one captured, and its text is `t`. */
  lemma {:induction false} ElementCaptured(html: string, open: string, close: string, p: nat, k: nat)
    requires IndexOfCI(html, open, 0) == Some(p)
    requires p + |open| < k && k + |close| <= |html|
    requires html[p + |open|] == '>' && html[k..k + |close|] == close
    requires close != [] && close[0] == '<' && NoChar(html[p + |open| + 1..k], '<')
    ensures Capture(html, open, close) == Some(html[p + |open| + 1..k])
  {
    var g := p + |open|;
    CloseAfterPlainText(html, close, g + 1, k);
    ElementAtFound(html, p, |open|, close, k);
    ElementFound(html, open, close, p, (g + 1, k));
  }

  /** The title of a page that opens with a plain `<h1>` is that heading's text. */
  lemma {:induction false} TitleOfPlainHeading(t: string, tail: string, safeText: string -> string)
    requires NoChar(t, '<')
    ensures ExtractTitle("<h1>" + t + "</h1>" + tail, safeText) == safeText(t)
  {
    assert "<h1" + ">" == "<h1>";
    ElementAtStart("<h1", "</h1>", t, tail);
    StripTagsPlain(t);
  }

  /** `<title>u</title>` as the head of a page holds no `<h1`: its two `<` are followed by
      `t` and `/`. */
  lemma {:induction false} TitleHeadHasNoHeading(u: string, rest: string)
    requires NoChar(u, '<')
    ensures forall i :: 0 <= i < 15 + |u| ==> !StartsWithCI(("<title>" + u + "</title>" + rest)[i..], "<h1")
  {
    var html := "<title>" + u + "</title>" + rest;
    forall i | 0 <= i < 15 + |u| ensures !StartsWithCI(html[i..], "<h1") {
      if i == 0 {
        assert html[i..][1] == 't';
      } else if i == 7 + |u| {
        assert html[i..][1] == '/';
      } else if i < 7 {
        assert html[i..][0] == "<title>"[i];
      } else if i < 7 + |u| {
        assert html[i..][0] == u[i - 7];
      } else {
        assert html[i..][0] == "</title>"[i - 7 - |u|];
      }
    }
  }

  /** A closed `<h1>` gives the title even when a `<title>` element comes first. */
  lemma {:induction false} HeadingBeatsTitleElement(u: string, t: string, tail: string, safeText: string -> string)
    requires NoChar(u, '<') && NoChar(t, '<')
    ensures ExtractTitle("<title>" + u + "</title>" + "<h1>" + t + "</h1>" + tail, safeText) == safeText(t)
  {
    var rest := "<h1>" + t + "</h1>" + tail;
    var html := "<title>" + u + "</title>" + rest;
    assert html == "<title>" + u + "</title>" + "<h1>" + t + "</h1>" + tail;
    var p := 15 + |u|;
    var k := p + 4 + |t|;
    assert html[p..] == rest;
    assert html[p..p + 3] == "<h1" && html[p + 3] == '>';
    assert html[p + 4..k] == t;
    assert html[k..k + 5] == "</h1>";
    TitleHeadHasNoHeading(u, rest);
    OccursAt(html, "<h1", p);
    IndexOfCINotBefore(html, "<h1", 0, p);
    ElementCaptured(html, "<h1", "</h1>", p, k);
    StripTagsPlain(t);
  }

  /** A page made of `<title>u</title>` and a text without `<h1` holds no `<h1`. */
  lemma {:induction false} TitlePageHasNoHeading(u: string, tail: string)
    requires NoChar(u, '<')
    requires forall i :: 0 <= i <= |tail| ==> !StartsWithCI(tail[i..], "<h1")
    ensures Capture("<title>" + u + "</title>" + tail, "<h1", "</h1>") == None
  {
    var html := "<title>" + u + "</title>" + tail;
    TitleHeadHasNoHeading(u, tail);
    forall i | 0 <= i <= |html| ensures !StartsWithCI(html[i..], "<h1") {
      if i >= 15 + |u| {
        assert html[i..] == tail[i - 15 - |u|..];
      }
    }
    IndexOfCIAbsent(html, "<h1", 0);
  }

  /** Without any `<h1` in the page the title is the text of its `<title>` element. */
  lemma {:induction false} TitleElementWithoutHeading(u: string, tail: string, safeText: string -> string)
    requires NoChar(u, '<')
    requires forall i :: 0 <= i <= |tail| ==> !StartsWithCI(tail[i..], "<h1")
    ensures ExtractTitle("<title>" + u + "</title>" + tail, safeText) == safeText(u)
  {
    TitlePageHasNoHeading(u, tail);
    TitleElementCaptured(u, tail);
  }

  /** A page opening with a plain `<title>` element captures that element's text. */
  lemma {:induction false} TitleElementCaptured(u: string, tail: string)
    requires NoChar(u, '<')
    ensures Capture("<title>" + u + "</title>" + tail, "<title", "</title>") == Some(u)
  {
    assert "<title" + ">" == "<title>";
    ElementAtStart("<title", "</title>", u, tail);
  }

  /** A page opening with `open>t close`, `t` holding no `<`, captures `t`. */
  lemma {:induction false} ElementAtStart(open: string, close: string, t: string, tail: string)
    requires open != [] && close != [] && close[0] == '<' && NoChar(t, '<')
    ensures Capture(open + ">" + t + close + tail, open, close) == Some(t)
  {
    var html := open + ">" + t + close + tail;
    var g := |open|;
    var k := g + 1 + |t|;
    assert html[0..g] == open;
    assert html[g] == '>';
    assert html[g + 1..k] == t;
    assert html[k..k + |close|] == close;
    OccursAt(html, open, 0);
    IndexOfCINotBefore(html, open, 0, 0);
    ElementCaptured(html, open, close, 0, k);
  }

  predicate IsDateShape(d: string) {
    && |d| == 10
    && AllDigits(d[..4]) && d[4] == '-' && AllDigits(d[5..7]) && d[7] == '-' && AllDigits(d[8..])
  }

  const DateMarker: string := "投稿日："

  /** extractPublishedDate: the leftmost `投稿日：` followed by white space and a date of
      the form YYYY-MM-DD, searched from `from`. */
  function PublishedDateFrom(html: string, from: nat): (r: string)
    ensures r == "" || IsDateShape(r)
    decreases |html| + 1 - from
  {
    if from + |DateMarker| > |html| then ""
    else if html[from..from + |DateMarker|] == DateMarker then
      var j := SpaceRunEnd(html, from + |DateMarker|);
      if j + 10 <= |html| && IsDateShape(html[j..j + 10]) then html[j..j + 10]
      else PublishedDateFrom(html, from + 1)
    else PublishedDateFrom(html, from + 1)
  }

  function ExtractPublishedDate(html: string): (r: string)
    ensures r == "" || IsDateShape(r)
  {
    PublishedDateFrom(html, 0)
  }

  /** A date written as the page template writes it is found. */
  lemma {:induction false} MetaDateFound(date: string, tail: string)
    requires IsDateShape(date)
    ensures ExtractPublishedDate(DateMarker + date + tail) == date
  {
    var html := DateMarker + date + tail;
    assert html[..|DateMarker|] == DateMarker;
    assert SpaceRunEnd(html, |DateMarker|) == |DateMarker|;
    assert html[|DateMarker|..|DateMarker| + 10] == date;
  }

  const TocHeading: string := "目次"

  /** Where the table-of-contents heading whose `<h3` starts at `i` ends:
      `<h3[^>]*>\s*目次\s*</h3>`. */
  function TocHeadingEnd(html: string, i: nat): (r: Option<nat>)
    ensures r.Some? ==> i < r.value <= |html|
  {
    match IndexOfChar(html, '>', i + 3)
    case None => None
    case Some(g) =>
      var j := SpaceRunEnd(html, g + 1);
      if j + 2 <= |html| && html[j..j + 2] == TocHeading then
        var k := SpaceRunEnd(html, j + 2);
        if StartsWithCI(html[k..], "</h3>") then Some(k + 5) else None
      else None
  }

  /** The list of the leftmost match at or after `from` of
      `<h3[^>]*>\s*目次\s*</h3>[\s\S]*?<ul>([\s\S]*?)</ul>`. */
  function TocListFrom(html: string, from: nat): (r: Option<string>)
    decreases |html| + 1 - from
  {
    match IndexOfCI(html, "<h3", from)
    case None => None
    case Some(i) =>
      var inList :=
        match TocHeadingEnd(html, i)
        case None => None
        case Some(e) =>
          match IndexOfCI(html, "<ul>", e)
          case None => None
          case Some(u) =>
            match IndexOfCI(html, "</ul>", u + 4)
            case None => None
            case Some(v) => Some(html[u + 4..v]);
      if inList.Some? then inList else TocListFrom(html, i + 1)
  }

  /** A search for the next link at or after a position, as the content's start and
      end: one `exec` of the global link pattern from its `lastIndex`. */
  type Finder = nat -> Option<(nat, nat)>

  /** Every link a finder reports lies inside `ul`, after the position searched from. */
  ghost predicate Advances(ul: string, find: Finder) {
    forall k: nat :: find(k).Some? ==> k < find(k).value.0 <= find(k).value.1 <= |ul|
  }

  /** `/<a[^>]*>([\s\S]*?)<\/a>/gi` in `ul`. */
  function LinkFinder(ul: string): (find: Finder) {
    (k: nat) => Element(ul, "<a", "</a>", k)
  }

  lemma {:induction false} LinkFinderAdvances(ul: string)
    ensures Advances(ul, LinkFinder(ul))
  {
    forall k: nat ensures LinkFinder(ul)(k).Some? ==> k < LinkFinder(ul)(k).value.0 <= LinkFinder(ul)(k).value.1 <= |ul| {
      assert LinkFinder(ul)(k) == Element(ul, "<a", "</a>", k);
    }
  }

  /** The links of `ul` from `from` on, each search resuming after the previous `</a>`:
      the spans of their contents, those in `acc` first. */
  function Links(ul: string, find: Finder, from: nat, acc: seq<(nat, nat)>): (r: seq<(nat, nat)>)
    requires Advances(ul, find)
    decreases |ul| + 1 - from
  {
    match find(from)
    case None => acc
    case Some(m) => Links(ul, find, m.1 + 4, acc + [m])
  }

  /** One turn of the link loop: the link found at `from` is added and the search
      resumes after its `</a>`. */
  lemma {:induction false} LinksStep(ul: string, find: Finder, from: nat, m: (nat, nat), acc: seq<(nat, nat)>)
    requires Advances(ul, find) && find(from) == Some(m)
    ensures Links(ul, find, from, acc) == Links(ul, find, m.1 + 4, acc + [m])
  {
  }

  /** Every span lies inside `ul`. */
  predicate Within(ul: string, spans: seq<(nat, nat)>) {
    forall i :: 0 <= i < |spans| ==> spans[i].0 <= spans[i].1 <= |ul|
  }

  /** Every link found lies inside the list. */
  lemma {:induction false} LinksWithin(ul: string, find: Finder, from: nat, acc: seq<(nat, nat)>)
    requires Advances(ul, find) && Within(ul, acc)
    ensures Within(ul, Links(ul, find, from, acc))
    decreases |ul| + 1 - from
  {
    match find(from)
    case None =>
    case Some(m) =>
      assert Within(ul, acc + [m]);
      LinksWithin(ul, find, m.1 + 4, acc + [m]);
  }

  /** The label of one link: its content without tags, through safeText. */
  function LinkText(ul: string, m: (nat, nat), safeText: string -> string): string
    requires m.0 <= m.1 <= |ul|
  {
    safeText(StripTags(ul[m.0..m.1]))
  }

  /** The labels of the links at `spans`, in order. */
  function Texts(ul: string, spans: seq<(nat, nat)>, safeText: string -> string): (r: seq<string>)
    requires Within(ul, spans)
    ensures |r| == |spans|
  {
    if spans == [] then []
    else Texts(ul, spans[..|spans| - 1], safeText) + [LinkText(ul, spans[|spans| - 1], safeText)]
  }

  /** The labels of every link of `ul`, in order. */
  function Labels(ul: string, safeText: string -> string): (r: seq<string>)
  {
    LinkFinderAdvances(ul);
    LinksWithin(ul, LinkFinder(ul), 0, []);
    Texts(ul, Links(ul, LinkFinder(ul), 0, []), safeText)
  }

  /** extractTocLabels as a function of the page. */
  function TocLabels(html: string, safeText: string -> string): (r: seq<string>)
    ensures |r| <= MaxTocLabels
  {
    var ul := match TocListFrom(html, 0) case Some(u) => u case None => "";
    Take(Labels(ul, safeText), MaxTocLabels)
  }

  /** The `while ((x = re.exec(ul)))` loop of extractTocLabels, `find` being the
      `exec` of the link pattern: one label pushed per link. */
  method LinkLabels(ul: string, find: Finder, safeText: string -> string) returns (all: seq<string>)
    requires Advances(ul, find)
    ensures Within(ul, Links(ul, find, 0, [])) && all == Texts(ul, Links(ul, find, 0, []), safeText)
  {
    all := [];
    ghost var spans: seq<(nat, nat)> := [];
    var pos: nat := 0;
    var x := find(pos);
    while x.Some?
      invariant x == find(pos)
      invariant Within(ul, spans)
      invariant Links(ul, find, pos, spans) == Links(ul, find, 0, [])
      invariant all == Texts(ul, spans, safeText)
      decreases |ul| + 1 - pos
    {
      var m := x.value;
      LinksStep(ul, find, pos, m, spans);
      assert (spans + [m])[..|spans|] == spans;
      all := all + [LinkText(ul, m, safeText)];
      spans := spans + [m];
      pos := m.1 + 4;
      x := find(pos);
    }
  }

  /** extractTocLabels: the labels of the table of contents, at most 30. */
  method ExtractTocLabels(html: string, safeText: string -> string) returns (toc: seq<string>)
    ensures toc == TocLabels(html, safeText)
    ensures |toc| <= MaxTocLabels
  {
    var block := TocListFrom(html, 0);
    var ul := match block case Some(u) => u case None => "";
    LinkFinderAdvances(ul);
    var all := LinkLabels(ul, LinkFinder(ul), safeText);
    toc := Take(all, MaxTocLabels);
  }

  /** extractSummary: the text of the first `<p>` with line breaks as spaces and tags
      removed, cut to 360 characters; "" for a page without one. */
  function ExtractSummary(html: string, safeText: string -> string): (r: string)
    ensures |r| <= MaxSummary
    ensures Capture(html, "<p", "</p>").None? ==> r == ""
    ensures Capture(html, "<p", "</p>").Some? ==> r == Take(safeText(StripTags(BreaksToSpaces(Capture(html, "<p", "</p>").value))), MaxSummary)
  {
    match Capture(html, "<p", "</p>")
    case None => ""
    case Some(t) => Take(safeText(StripTags(BreaksToSpaces(t))), MaxSummary)
  }

  /** A page without `<p` anywhere has an empty summary. */
  lemma {:induction false} SummaryNeedsParagraph(html: string, safeText: string -> string)
    requires forall i :: 0 <= i <= |html| ==> !StartsWithCI(html[i..], "<p")
    ensures ExtractSummary(html, safeText) == ""
  {
    if IndexOfCI(html, "<p", 0).Some? {
      assert false;
    }
  }

  /** The summary of `<p>text</p>` is the safe text of `text`, cut to 360 characters. */
  lemma {:induction false} SummaryOfPlainParagraph(text: string, tail: string, safeText: string -> string)
    requires NoChar(text, '<')
    ensures ExtractSummary("<p>" + text + "</p>" + tail, safeText) == Take(safeText(StripTags(BreaksToSpaces(text))), MaxSummary)
  {
    var html := "<p>" + text + "</p>" + tail;
    assert StartsWithCI(html[0..], "<p");
    assert IndexOfChar(html, '>', 2) == Some(2);
    var k := 3 + |text|;
    assert StartsWithCI(html[k..], "</p>");
    forall i | 3 <= i < k ensures !StartsWithCI(html[i..], "</p>") {
      assert html[i..][0] == text[i - 3];
    }
    IndexOfCINotBefore(html, "</p>", 3, k);
    assert html[3..k] == text;
  }

  /** Nothing is found when nothing matches. */
  lemma {:induction false} IndexOfCIAbsent(s: string, p: string, from: nat)
    requires forall i :: from <= i <= |s| ==> !StartsWithCI(s[i..], p)
    ensures IndexOfCI(s, p, from) == None
    decreases |s| + 1 - from
  {
    if from <= |s| {
      IndexOfCIAbsent(s, p, from + 1);
    }
  }

  /** The first occurrence is found when nothing before it matches. */
  lemma {:induction false} IndexOfCINotBefore(s: string, p: string, from: nat, k: nat)
    requires from <= k <= |s| && StartsWithCI(s[k..], p)
    requires forall i :: from <= i < k ==> !StartsWithCI(s[i..], p)
    ensures IndexOfCI(s, p, from) == Some(k)
    decreases k - from
  {
    if from < k {
      IndexOfCINotBefore(s, p, from + 1, k);
    }
  }

  // ---------------------------------------------------------------------------
  // Items
  // ---------------------------------------------------------------------------

  /** What the builder takes from outside: the web root, the path separator,
      path.relative and path.join, readText (`None` when it throws), safeText, and the
      clock. */
  datatype Env = Env(
    webRoot: string,
    sep: char,
    relative: (string, string) -> string,
    join: (string, string) -> string,
    read: string -> Option<string>,
    safeText: string -> string,
    now: string)

  /** `"/" + rel` with the platform separator turned into `/`. */
  function Url(rel: string, sep: char): (u: string)
    ensures |u| >= 1 && u[0] == '/'
  {
    "/" + ReplaceChar(rel, sep, "/")
  }

  /** No separator is left after the replacement. */
  lemma {:induction false} ReplaceCharRemoves(s: string, c: char, rep: string)
    requires NoChar(rep, c)
    ensures NoChar(ReplaceChar(s, c, rep), c)
    decreases |s|
  {
    if s != [] {
      ReplaceCharRemoves(s[1..], c, rep);
      var head := if s[0] == c then rep else [s[0]];
      assert ReplaceChar(s, c, rep) == head + ReplaceChar(s[1..], c, rep);
    }
  }

  /** Every URL starts with `/` and is written with `/` separators only. */
  lemma {:induction false} UrlShape(rel: string, sep: char)
    requires sep != '/'
    ensures var u := Url(rel, sep);
      u != "" && u[0] == '/' && NoChar(u[1..], sep)
  {
    ReplaceCharRemoves(rel, sep, "/");
    assert Url(rel, sep)[1..] == ReplaceChar(rel, sep, "/");
  }

  /** readPostAsManifestItem for a file that could be read. */
  function ReadItem(path: string, source: Source, html: string, env: Env): (it: Item)
    ensures it.url != "" && it.source == source && it.filePath == path
    ensures |it.toc| <= MaxTocLabels && |it.summary| <= MaxSummary
  {
    Item(
      source,
      ExtractTitle(html, env.safeText),
      ExtractPublishedDate(html),
      Url(env.relative(env.webRoot, path), env.sep),
      path,
      TocLabels(html, env.safeText),
      ExtractSummary(html, env.safeText),
      env.now)
  }

  /** The items of the files of `paths` that can be read, in order. */
  function Collect(paths: seq<string>, source: Source, env: Env): (items: seq<Item>)
    ensures |items| <= |paths|
    ensures forall k :: 0 <= k < |items| ==> items[k].source == source && items[k].url != ""
    decreases |paths|
  {
    if paths == [] then []
    else
      var rest := Collect(paths[1..], source, env);
      match env.read(paths[0])
      case Some(html) => [ReadItem(paths[0], source, html, env)] + rest
      case None => rest
  }

  lemma {:induction false} CollectSnoc(paths: seq<string>, p: string, source: Source, env: Env)
    ensures Collect(paths + [p], source, env)
      == Collect(paths, source, env) + (match env.read(p) case Some(html) => [ReadItem(p, source, html, env)] case None => [])
    decreases |paths|
  {
    if paths != [] {
      var q := paths + [p];
      assert q[0] == paths[0] && q[1..] == paths[1..] + [p];
      CollectSnoc(paths[1..], p, source, env);
    } else {
      assert [p][1..] == [];
    }
  }

  /** One more path read: the items of a prefix grow by that path's item, if it was read. */
  lemma {:induction false} CollectStep(paths: seq<string>, i: nat, source: Source, env: Env)
    requires i < |paths|
    ensures Collect(paths[..i + 1], source, env)
      == Collect(paths[..i], source, env) + (match env.read(paths[i]) case Some(html) => [ReadItem(paths[i], source, html, env)] case None => [])
  {
    assert paths[..i + 1] == paths[..i] + [paths[i]];
    CollectSnoc(paths[..i], paths[i], source, env);
  }

  predicate IsHtmlName(n: string) {
    EndsWith(n, ".html")
  }

  /** The `.html` files among `names`, each joined to `dir`. */
  function HtmlPaths(names: seq<string>, dir: string, join: (string, string) -> string): (r: seq<string>)
    ensures |r| <= |names|
    decreases |names|
  {
    if names == [] then []
    else (if IsHtmlName(names[0]) then [join(dir, names[0])] else []) + HtmlPaths(names[1..], dir, join)
  }

  /** Every path is `dir` joined to an `.html` name, and every `.html` name gives its path. */
  lemma {:induction false} HtmlPathsMeaning(names: seq<string>, dir: string, join: (string, string) -> string)
    ensures forall k :: 0 <= k < |HtmlPaths(names, dir, join)| ==>
      exists i :: 0 <= i < |names| && IsHtmlName(names[i]) && HtmlPaths(names, dir, join)[k] == join(dir, names[i])
    ensures forall i :: 0 <= i < |names| && IsHtmlName(names[i]) ==> join(dir, names[i]) in HtmlPaths(names, dir, join)
    decreases |names|
  {
    if names != [] {
      var tail := names[1..];
      var rest := HtmlPaths(tail, dir, join);
      HtmlPathsMeaning(tail, dir, join);
      var head := if IsHtmlName(names[0]) then [join(dir, names[0])] else [];
      assert HtmlPaths(names, dir, join) == head + rest;
      forall k | 0 <= k < |HtmlPaths(names, dir, join)|
        ensures exists i :: 0 <= i < |names| && IsHtmlName(names[i]) && HtmlPaths(names, dir, join)[k] == join(dir, names[i]) {
        if k < |head| {
          assert IsHtmlName(names[0]) && HtmlPaths(names, dir, join)[k] == join(dir, names[0]);
        } else {
          assert HtmlPaths(names, dir, join)[k] == rest[k - |head|];
          var i :| 0 <= i < |tail| && IsHtmlName(tail[i]) && rest[k - |head|] == join(dir, tail[i]);
          assert tail[i] == names[i + 1];
        }
      }
      forall i | 0 <= i < |names| && IsHtmlName(names[i]) ensures join(dir, names[i]) in HtmlPaths(names, dir, join) {
        if i > 0 {
          assert names[i] == tail[i - 1];
        }
      }
    } else {
      assert HtmlPaths(names, dir, join) == [];
    }
  }

  /** The manual article paths: each link of the index page joined to the web root, kept
      when it ends in `.html`. */
  function ManualPaths(hrefs: seq<string>, webRoot: string, join: (string, string) -> string): (r: seq<string>)
    ensures |r| <= |hrefs|
    ensures forall k :: 0 <= k < |r| ==> EndsWith(r[k], ".html")
    decreases |hrefs|
  {
    if hrefs == [] then []
    else
      var p := join(webRoot, hrefs[0]);
      (if EndsWith(p, ".html") then [p] else []) + ManualPaths(hrefs[1..], webRoot, join)
  }

  /** Every manual path is the web root joined to an index link, and every link whose
      joined path ends in `.html` is kept. */
  lemma {:induction false} ManualPathsMeaning(hrefs: seq<string>, webRoot: string, join: (string, string) -> string)
    ensures forall k :: 0 <= k < |ManualPaths(hrefs, webRoot, join)| ==>
      exists i :: 0 <= i < |hrefs| && ManualPaths(hrefs, webRoot, join)[k] == join(webRoot, hrefs[i])
    ensures forall i :: 0 <= i < |hrefs| && EndsWith(join(webRoot, hrefs[i]), ".html") ==>
      join(webRoot, hrefs[i]) in ManualPaths(hrefs, webRoot, join)
    decreases |hrefs|
  {
    if hrefs != [] {
      var tail := hrefs[1..];
      var rest := ManualPaths(tail, webRoot, join);
      ManualPathsMeaning(tail, webRoot, join);
      var p := join(webRoot, hrefs[0]);
      var head := if EndsWith(p, ".html") then [p] else [];
      assert ManualPaths(hrefs, webRoot, join) == head + rest;
      forall k | 0 <= k < |ManualPaths(hrefs, webRoot, join)|
        ensures exists i :: 0 <= i < |hrefs| && ManualPaths(hrefs, webRoot, join)[k] == join(webRoot, hrefs[i]) {
        if k < |head| {
          assert ManualPaths(hrefs, webRoot, join)[k] == join(webRoot, hrefs[0]);
        } else {
          assert ManualPaths(hrefs, webRoot, join)[k] == rest[k - |head|];
          var i :| 0 <= i < |tail| && rest[k - |head|] == join(webRoot, tail[i]);
          assert tail[i] == hrefs[i + 1];
        }
      }
      forall i | 0 <= i < |hrefs| && EndsWith(join(webRoot, hrefs[i]), ".html") ensures join(webRoot, hrefs[i]) in ManualPaths(hrefs, webRoot, join) {
        if i > 0 {
          assert hrefs[i] == tail[i - 1];
        }
      }
    } else {
      assert ManualPaths(hrefs, webRoot, join) == [];
    }
  }

  /** One loop of main: read each file in turn, skipping those that cannot be read. */
  method CollectItems(paths: seq<string>, source: Source, env: Env) returns (items: seq<Item>)
    ensures items == Collect(paths, source, env)
  {
    items := [];
    for i := 0 to |paths|
      invariant items == Collect(paths[..i], source, env)
    {
      CollectStep(paths, i, source, env);
      var html := env.read(paths[i]);
      if html.Some? {
        items := items + [ReadItem(paths[i], source, html.value, env)];
      }
    }
    assert paths[..|paths|] == paths;
  }

  /** The two loops of main: the manual items, then the generated ones. */
  method BuildItems(manualPaths: seq<string>, autoPaths: seq<string>, env: Env) returns (items: seq<Item>)
    ensures items == Collect(manualPaths, Manual, env) + Collect(autoPaths, Auto, env)
  {
    var manual := CollectItems(manualPaths, Manual, env);
    var auto := CollectItems(autoPaths, Auto, env);
    items := manual + auto;
  }

  // ---------------------------------------------------------------------------
  // De-duplication by URL
  // ---------------------------------------------------------------------------

  /** Item `j` has a URL and no earlier item has the same one. */
  predicate IsFirst(items: seq<Item>, j: nat)
    requires j < |items|
  {
    items[j].url != "" && forall i :: 0 <= i < j ==> items[i].url != items[j].url
  }

  /** The reference definition of the de-duplicated list: the first item of every
      non-empty URL, in input order. */
  function FirstOccurrences(items: seq<Item>): seq<Item>
    decreases |items|
  {
    if items == [] then []
    else
      var n := |items| - 1;
      FirstOccurrences(items[..n]) + (if IsFirst(items, n) then [items[n]] else [])
  }

  /** The non-empty URLs of the items. */
  function UrlsOf(items: seq<Item>): set<string> {
    set j | 0 <= j < |items| && items[j].url != "" :: items[j].url
  }

  /** One turn of the `seen` loop: item `i` is a first occurrence exactly when its URL is
      non-empty and not yet seen, and the seen set grows by that URL. */
  lemma {:induction false} DedupStep(items: seq<Item>, i: nat)
    requires i < |items|
    ensures IsFirst(items[..i + 1], i) <==> items[i].url != "" && items[i].url !in UrlsOf(items[..i])
    ensures UrlsOf(items[..i + 1]) == UrlsOf(items[..i]) + (if items[i].url != "" then {items[i].url} else {})
    ensures FirstOccurrences(items[..i + 1])
      == FirstOccurrences(items[..i]) + (if IsFirst(items[..i + 1], i) then [items[i]] else [])
  {
    var it := items[i];
    var pre := items[..i + 1];
    assert pre[..i] == items[..i];
    var seen := UrlsOf(items[..i]);
    if it.url != "" && it.url in seen {
      var j :| 0 <= j < i && items[..i][j].url != "" && items[..i][j].url == it.url;
      assert pre[j].url == it.url;
    }
    if !IsFirst(pre, i) && it.url != "" {
      var j :| 0 <= j < i && pre[j].url == it.url;
      assert items[..i][j] == pre[j];
    }
    forall u | u in UrlsOf(pre) ensures u in seen + (if it.url != "" then {it.url} else {}) {
      var j :| 0 <= j < i + 1 && pre[j].url != "" && pre[j].url == u;
      if j < i {
        assert items[..i][j] == pre[j];
      }
    }
    forall u | u in seen ensures u in UrlsOf(pre) {
      var j :| 0 <= j < i && items[..i][j].url != "" && items[..i][j].url == u;
      assert pre[j] == items[..i][j];
    }
    if it.url != "" {
      assert pre[i] == it;
    }
  }

  /** The loop of main with its `seen` set. */
  method Dedup(items: seq<Item>) returns (uniq: seq<Item>)
    ensures uniq == FirstOccurrences(items)
  {
    uniq := [];
    var seen: set<string> := {};
    for i := 0 to |items|
      invariant uniq == FirstOccurrences(items[..i])
      invariant seen == UrlsOf(items[..i])
    {
      var it := items[i];
      DedupStep(items, i);
      if it.url == "" || it.url in seen {
        continue;
      }
      seen := seen + {it.url};
      uniq := uniq + [it];
    }
    assert items[..|items|] == items;
  }

  /** The indices of the first occurrences, increasing. */
  ghost function FirstIndices(items: seq<Item>): (idx: seq<nat>)
    ensures forall t :: 0 <= t < |idx| ==> idx[t] < |items| && IsFirst(items, idx[t])
    ensures forall t, u :: 0 <= t < u < |idx| ==> idx[t] < idx[u]
    ensures forall j :: 0 <= j < |items| && IsFirst(items, j) ==> j in idx
    decreases |items|
  {
    if items == [] then []
    else
      var n := |items| - 1;
      var pre := FirstIndices(items[..n]);
      assert forall t :: 0 <= t < |pre| ==> IsFirst(items, pre[t]) by {
        forall t | 0 <= t < |pre| ensures IsFirst(items, pre[t]) {
          assert IsFirst(items[..n], pre[t]);
          assert forall i :: 0 <= i <= pre[t] ==> items[..n][i] == items[i];
        }
      }
      assert forall j :: 0 <= j < n && IsFirst(items, j) ==> IsFirst(items[..n], j);
      pre + (if IsFirst(items, n) then [n] else [])
  }

  /** The de-duplicated list is the input at the first-occurrence indices. */
  lemma {:induction false} FirstOccurrencesAt(items: seq<Item>)
    ensures MarkdownSections.SubseqAt(FirstOccurrences(items), items, FirstIndices(items))
    decreases |items|
  {
    if items != [] {
      var n := |items| - 1;
      FirstOccurrencesAt(items[..n]);
      var out := FirstOccurrences(items);
      var pre := FirstIndices(items[..n]);
      var idx := FirstIndices(items);
      assert idx == pre + (if IsFirst(items, n) then [n] else []);
      assert out == FirstOccurrences(items[..n]) + (if IsFirst(items, n) then [items[n]] else []);
      assert |FirstOccurrences(items[..n])| == |pre|;
      forall t | 0 <= t < |idx| ensures out[t] == items[idx[t]] {
        if t < |pre| {
          assert out[t] == FirstOccurrences(items[..n])[t];
          assert items[..n][pre[t]] == items[pre[t]];
        }
      }
    }
  }

  /** Some item of `out` has URL `u`. */
  ghost predicate Listed(out: seq<Item>, u: string) {
    exists a :: 0 <= a < |out| && out[a].url == u
  }

  /** The manifest keeps one item per URL, never one without a URL, each the first with
      its URL, in input order; and every URL of the input is kept. */
  lemma {:induction false} DedupMeaning(items: seq<Item>) returns (idx: seq<nat>)
    ensures MarkdownSections.SubseqAt(FirstOccurrences(items), items, idx)
    ensures forall t :: 0 <= t < |idx| ==> IsFirst(items, idx[t])
    ensures forall a, b :: 0 <= a < b < |FirstOccurrences(items)| ==> FirstOccurrences(items)[a].url != FirstOccurrences(items)[b].url
    ensures forall a :: 0 <= a < |FirstOccurrences(items)| ==> FirstOccurrences(items)[a].url != ""
    ensures forall j :: 0 <= j < |items| && items[j].url != "" ==> Listed(FirstOccurrences(items), items[j].url)
  {
    idx := FirstIndices(items);
    FirstOccurrencesAt(items);
    var out := FirstOccurrences(items);
    forall a, b | 0 <= a < b < |out| ensures out[a].url != out[b].url {
      assert IsFirst(items, idx[b]) && idx[a] < idx[b];
    }
    forall a | 0 <= a < |out| ensures out[a].url != "" {
      assert IsFirst(items, idx[a]);
    }
    forall j | 0 <= j < |items| && items[j].url != ""
      ensures Listed(FirstOccurrences(items), items[j].url)
    {
      var f := FirstWithUrl(items, items[j].url, j);
      assert f in idx;
      var a :| 0 <= a < |idx| && idx[a] == f;
      assert out[a] == items[f];
      assert out[a].url == items[j].url;
    }
  }

  /** The first item with URL `u`, which exists because item `j` has it. */
  lemma {:induction false} FirstWithUrl(items: seq<Item>, u: string, j: nat) returns (f: nat)
    requires j < |items| && items[j].url == u && u != ""
    ensures f <= j && items[f].url == u && IsFirst(items, f)
    decreases j
  {
    if exists i :: 0 <= i < j && items[i].url == u {
      var i :| 0 <= i < j && items[i].url == u;
      f := FirstWithUrl(items, u, i);
    } else {
      f := j;
    }
  }

  /** A URL shared by a manual and a generated article is kept as the manual one. */
  lemma {:induction false} ManualWins(manual: seq<Item>, auto: seq<Item>, m: nat, a: nat)
    requires forall k :: 0 <= k < |manual| ==> manual[k].source == Manual
    requires m < |manual| && a < |auto| && manual[m].url == auto[a].url && manual[m].url != ""
    ensures exists t :: (0 <= t < |FirstOccurrences(manual + auto)|
      && FirstOccurrences(manual + auto)[t].url == manual[m].url
      && FirstOccurrences(manual + auto)[t].source == Manual)
    ensures forall t :: (0 <= t < |FirstOccurrences(manual + auto)| && FirstOccurrences(manual + auto)[t].url == manual[m].url
      ==> FirstOccurrences(manual + auto)[t].source == Manual)
  {
    var items := manual + auto;
    assert items[m] == manual[m];
    var idx := DedupMeaning(items);
    var out := FirstOccurrences(items);
    var f := FirstWithUrl(items, manual[m].url, m);
    assert items[f] == manual[f];
    var t0 :| 0 <= t0 < |idx| && idx[t0] == f;
    assert out[t0] == items[f];
    forall t | 0 <= t < |out| && out[t].url == manual[m].url ensures out[t].source == Manual {
      assert out[t] == items[idx[t]];
      assert IsFirst(items, f) && IsFirst(items, idx[t]);
      assert !(idx[t] < f) && !(f < idx[t]);
    }
  }

  /** main: every item read, one per URL, manual articles first. */
  method BuildManifest(hrefs: seq<string>, autoNames: seq<string>, postsDir: string, env: Env) returns (uniq: seq<Item>)
    ensures uniq == FirstOccurrences(Collect(ManualPaths(hrefs, env.webRoot, env.join), Manual, env)
      + Collect(HtmlPaths(autoNames, postsDir, env.join), Auto, env))
  {
    var manualPaths := ManualPaths(hrefs, env.webRoot, env.join);
    var autoPaths := HtmlPaths(autoNames, postsDir, env.join);
    var items := BuildItems(manualPaths, autoPaths, env);
    uniq := Dedup(items);
  }

  /** Every article that could be read is in the manifest exactly once: item URLs are
      never empty, so none is dropped for lacking one. */
  lemma {:induction false} EveryReadArticleListed(manualPaths: seq<string>, autoPaths: seq<string>, env: Env, j: nat)
    requires j < |Collect(manualPaths, Manual, env) + Collect(autoPaths, Auto, env)|
    ensures var items := Collect(manualPaths, Manual, env) + Collect(autoPaths, Auto, env);
      |set a | 0 <= a < |FirstOccurrences(items)| && FirstOccurrences(items)[a].url == items[j].url| == 1
  {
    var items := Collect(manualPaths, Manual, env) + Collect(autoPaths, Auto, env);
    var out := FirstOccurrences(items);
    assert items[j].url != "";
    var _ := DedupMeaning(items);
    var a :| 0 <= a < |out| && out[a].url == items[j].url;
    var hits := set b | 0 <= b < |out| && out[b].url == items[j].url;
    assert hits == {a} by {
      forall b | b in hits ensures b == a {
        assert !(b < a) && !(a < b);
      }
    }
  }
}
